/** One locally tracked quote and the transitions of its lifecycle. */
module WorkingQuotes {
  import opened Text
  import opened Words

  datatype Side = Buy | Sell
  datatype OrderType = GTC | GTD | FOK | FAK

  datatype DesiredQuote = DesiredQuote(
    quoteId: string, assetId: string, side: Side, price: string, size: string, orderType: OrderType)

  datatype QuoteState =
    | PendingSubmit
    | Working
    | PendingCancel
    | Canceled
    | Rejected(reason: string)
    | UnknownOrStale(reason: string)

  datatype ObservedState =
    | SeenWorking
    | SeenPendingCancel
    | SeenCanceled
    | SeenRejected(reason: string)

  datatype Observed = Observed(
    quoteId: string, clientOrderId: Option<string>, state: ObservedState, observedAtMs: nat)

  /** The value of a working quote at one moment; what was ordered is `terms`. */
  datatype Quote = Quote(
    terms: DesiredQuote,
    state: QuoteState,
    clientOrderId: Option<string>,
    createdAtMs: nat,
    lastUpdateMs: nat,
    lastCommandMs: Option<nat>,
    lastExchangeObservedMs: Option<nat>)
  {
    function Id(): string {
      terms.quoteId
    }

    predicate Blocks() {
      state.UnknownOrStale?
    }

    predicate Cancelable() {
      state.PendingSubmit? || state.Working? || state.PendingCancel?
    }

    /** An order that may still be on the exchange as far as the manager knows. */
    predicate MaybeLive() {
      Cancelable() || Blocks()
    }
  }

  function Submitted(d: DesiredQuote, nowMs: nat): Quote {
    Quote(d, PendingSubmit, None, nowMs, nowMs, Some(nowMs), None)
  }

  function Unknown(q: Quote, reason: string, nowMs: nat): Quote {
    q.(state := UnknownOrStale(reason), lastUpdateMs := nowMs)
  }

  function CancelSent(q: Quote, nowMs: nat): Quote {
    q.(state := PendingCancel, lastUpdateMs := nowMs, lastCommandMs := Some(nowMs))
  }

  function CancelConfirmed(q: Quote, nowMs: nat): Quote {
    q.(state := Canceled, lastUpdateMs := nowMs)
  }

  predicate TimedOut(q: Quote, submitMs: nat, cancelMs: nat, nowMs: nat) {
    && q.lastCommandMs.Some?
    && var elapsed := SaturatingSub(nowMs, q.lastCommandMs.value);
       (q.state.PendingSubmit? && elapsed >= submitMs) || (q.state.PendingCancel? && elapsed >= cancelMs)
  }

  function AfterTimeout(q: Quote, submitMs: nat, cancelMs: nat, nowMs: nat): Quote {
    if !TimedOut(q, submitMs, cancelMs, nowMs) then q
    else Unknown(q, if q.state.PendingSubmit? then "submit_timeout" else "cancel_timeout", nowMs)
  }

  function AfterObservation(q: Quote, o: Observed): Quote {
    var seen := q.(lastExchangeObservedMs := Some(o.observedAtMs), lastUpdateMs := o.observedAtMs);
    match o.state
    case SeenRejected(reason) => seen.(state := Rejected(reason))
    case SeenCanceled => seen.(state := Canceled)
    case SeenPendingCancel => seen.(state := PendingCancel, clientOrderId := o.clientOrderId)
    case SeenWorking =>
      if q.state.PendingCancel? then seen
      else if o.clientOrderId.Some? then seen.(state := Working, clientOrderId := o.clientOrderId)
      else seen.(state := Working)
  }

  /** Whether an authoritative snapshot without the quote contradicts what was believed. */
  predicate AbsenceSurprises(q: Quote) {
    q.state.PendingSubmit? || q.state.Working?
  }

  function AfterAbsence(q: Quote, nowMs: nat): Quote {
    if AbsenceSurprises(q) then Unknown(q, "exchange_missing_authoritative", nowMs)
    else if q.state.Rejected? then q
    else CancelConfirmed(q, nowMs)
  }

  /** The mutable quote; `View` is its value. */
  class WorkingQuote {
    const terms: DesiredQuote
    const createdAtMs: nat
    var state: QuoteState
    var clientOrderId: Option<string>
    var lastUpdateMs: nat
    var lastCommandMs: Option<nat>
    var lastExchangeObservedMs: Option<nat>

    function View(): Quote
      reads this
    {
      Quote(terms, state, clientOrderId, createdAtMs, lastUpdateMs, lastCommandMs, lastExchangeObservedMs)
    }

    constructor PendingSubmit(desired: DesiredQuote, nowMs: nat)
      ensures View() == Submitted(desired, nowMs)
    {
      terms, createdAtMs := desired, nowMs;
      state, clientOrderId := QuoteState.PendingSubmit, None;
      lastUpdateMs, lastCommandMs, lastExchangeObservedMs := nowMs, Some(nowMs), None;
    }

    constructor Clone(q: Quote)
      ensures View() == q
    {
      terms, createdAtMs := q.terms, q.createdAtMs;
      state, clientOrderId := q.state, q.clientOrderId;
      lastUpdateMs, lastCommandMs := q.lastUpdateMs, q.lastCommandMs;
      lastExchangeObservedMs := q.lastExchangeObservedMs;
    }

    method MarkWorking(clientId: string, nowMs: nat)
      modifies this
      ensures View() == old(View()).(state := Working, clientOrderId := Some(clientId), lastUpdateMs := nowMs)
    {
      state, clientOrderId, lastUpdateMs := Working, Some(clientId), nowMs;
    }

    method MarkPendingCancel(nowMs: nat)
      modifies this
      ensures View() == CancelSent(old(View()), nowMs)
    {
      state, lastUpdateMs, lastCommandMs := PendingCancel, nowMs, Some(nowMs);
    }

    method MarkCanceled(nowMs: nat)
      modifies this
      ensures View() == CancelConfirmed(old(View()), nowMs)
    {
      state, lastUpdateMs := Canceled, nowMs;
    }

    method MarkRejected(reason: string, nowMs: nat)
      modifies this
      ensures View() == old(View()).(state := Rejected(reason), lastUpdateMs := nowMs)
    {
      state, lastUpdateMs := Rejected(reason), nowMs;
    }

    method MarkUnknownOrStale(reason: string, nowMs: nat)
      modifies this
      ensures View() == Unknown(old(View()), reason, nowMs)
    {
      state, lastUpdateMs := UnknownOrStale(reason), nowMs;
    }

    method MarkReconnectStale(nowMs: nat)
      modifies this
      ensures View() == Unknown(old(View()), "reconnect_resync_required", nowMs)
    {
      MarkUnknownOrStale("reconnect_resync_required", nowMs);
    }

    method MarkUnknownIfTimedOut(submitMs: nat, cancelMs: nat, nowMs: nat) returns (timedOut: bool)
      modifies this
      ensures timedOut <==> TimedOut(old(View()), submitMs, cancelMs, nowMs)
      ensures View() == AfterTimeout(old(View()), submitMs, cancelMs, nowMs)
    {
      if lastCommandMs.None? { return false; }
      var elapsed := SaturatingSub(nowMs, lastCommandMs.value);
      if state.PendingSubmit? && elapsed >= submitMs {
        MarkUnknownOrStale("submit_timeout", nowMs);
        return true;
      }
      if state.PendingCancel? && elapsed >= cancelMs {
        MarkUnknownOrStale("cancel_timeout", nowMs);
        return true;
      }
      return false;
    }

    method ApplyExchangeObservation(o: Observed)
      modifies this
      ensures View() == AfterObservation(old(View()), o)
    {
      lastExchangeObservedMs := Some(o.observedAtMs);
      match o.state
      case SeenRejected(reason) => MarkRejected(reason, o.observedAtMs);
      case SeenCanceled => MarkCanceled(o.observedAtMs);
      case SeenPendingCancel =>
        state, clientOrderId, lastUpdateMs := PendingCancel, o.clientOrderId, o.observedAtMs;
      case SeenWorking =>
        if state.PendingCancel? {
          lastUpdateMs := o.observedAtMs;
        } else if o.clientOrderId.Some? {
          MarkWorking(o.clientOrderId.value, o.observedAtMs);
        } else {
          state, lastUpdateMs := Working, o.observedAtMs;
        }
    }

    method ApplyAuthoritativeAbsence(nowMs: nat) returns (surprised: bool)
      modifies this
      ensures surprised <==> AbsenceSurprises(old(View()))
      ensures View() == AfterAbsence(old(View()), nowMs)
    {
      match state
      case PendingCancel | Canceled | UnknownOrStale(_) =>
        MarkCanceled(nowMs);
        return false;
      case PendingSubmit | Working =>
        MarkUnknownOrStale("exchange_missing_authoritative", nowMs);
        return true;
      case Rejected(_) =>
        return false;
    }
  }
}
