/** What becomes of a quote over any series of synchronizations, in raw times and states. */
module QuoteLifecycle {
  import opened Text
  import opened Words
  import opened WorkingQuotes
  import opened OrderManager
  import opened PlanProperties
  import opened ExchangeProtocol

  // ---- timeouts ----

  /** The last command is so old at this time; a clock that runs behind it counts as no time. */
  predicate Elapsed(last: Option<nat>, ms: nat, nowMs: nat) {
    last.Some? && (ms == 0 || last.value + ms <= nowMs)
  }

  predicate SubmitLate(p: Policy, q: Quote, nowMs: nat) {
    q.state == PendingSubmit && Elapsed(q.lastCommandMs, p.submitTimeoutMs, nowMs)
  }

  predicate CancelLate(p: Policy, q: Quote, nowMs: nat) {
    q.state == PendingCancel && Elapsed(q.lastCommandMs, p.cancelTimeoutMs, nowMs)
  }

  /** Only submissions and cancels time out, each by its own timeout; doubt names which. */
  lemma TimeoutsExactly(p: Policy, q: Quote, nowMs: nat)
    ensures var r := AfterTimeout(q, p.submitTimeoutMs, p.cancelTimeoutMs, nowMs);
            && (TimedOut(q, p.submitTimeoutMs, p.cancelTimeoutMs, nowMs) <==>
                SubmitLate(p, q, nowMs) || CancelLate(p, q, nowMs))
            && (SubmitLate(p, q, nowMs) ==> r.state == UnknownOrStale("submit_timeout") && r.lastUpdateMs == nowMs)
            && (CancelLate(p, q, nowMs) ==> r.state == UnknownOrStale("cancel_timeout") && r.lastUpdateMs == nowMs)
            && (!SubmitLate(p, q, nowMs) && !CancelLate(p, q, nowMs) ==> r == q)
            && r.terms == q.terms && r.createdAtMs == q.createdAtMs && r.lastCommandMs == q.lastCommandMs
            && r.clientOrderId == q.clientOrderId && r.lastExchangeObservedMs == q.lastExchangeObservedMs
  {
  }

  /** One synchronization is ageing followed by what the snapshot says. */
  lemma SyncStages(p: Policy, q: Quote, snapshot: Snapshot, nowMs: nat)
    requires !snapshot.resyncPending
    ensures var aged := AfterTimeout(q, p.submitTimeoutMs, p.cancelTimeoutMs, nowMs);
            var o := Report(snapshot, q.Id());
            SyncedQuote(p, q, snapshot, nowMs) ==
            if o.Some? then AfterObservation(aged, o.value)
            else if snapshot.authoritative then AfterAbsence(aged, snapshot.observedAtMs) else aged
  {
    hide AfterTimeout, AfterObservation, AfterAbsence;
  }

  // ---- commands ----

  /** Everything but the state and the times a transition is about stays as it was. */
  predicate SameOtherwise(q: Quote, r: Quote) {
    && r.terms == q.terms && r.createdAtMs == q.createdAtMs && r.clientOrderId == q.clientOrderId
    && r.lastExchangeObservedMs == q.lastExchangeObservedMs
  }

  /** Sending an order or a cancel starts its clock; confirmations and doubt leave it alone. */
  lemma ClocksExactly(d: DesiredQuote, q: Quote, reason: string, nowMs: nat)
    ensures var placed, sent := Submitted(d, nowMs), CancelSent(q, nowMs);
            var confirmed, doubtful := CancelConfirmed(q, nowMs), Unknown(q, reason, nowMs);
            && placed.terms == d && placed.state == PendingSubmit && placed.clientOrderId == None
            && placed.createdAtMs == placed.lastUpdateMs == nowMs && placed.lastCommandMs == Some(nowMs)
            && placed.lastExchangeObservedMs == None
            && sent.state == PendingCancel && sent.lastCommandMs == Some(nowMs) && SameOtherwise(q, sent)
            && confirmed.state == Canceled && confirmed.lastCommandMs == q.lastCommandMs && SameOtherwise(q, confirmed)
            && doubtful.state == UnknownOrStale(reason) && doubtful.lastCommandMs == q.lastCommandMs
            && SameOtherwise(q, doubtful)
            && sent.lastUpdateMs == confirmed.lastUpdateMs == doubtful.lastUpdateMs == nowMs
  {
  }

  // ---- observations ----

  /** Which state each report leaves, whatever was believed, and at which times; a late report
      of life does not undo a pending cancel. The client id is one the exchange named, or what
      a pending cancel is reported with, or the same as before. */
  lemma ObservationExactly(q: Quote, o: Observed)
    ensures var r := AfterObservation(q, o);
            && (o.state == SeenCanceled ==> r.state == Canceled && r.clientOrderId == q.clientOrderId)
            && (o.state.SeenRejected? ==> r.state == Rejected(o.state.reason) && r.clientOrderId == q.clientOrderId)
            && (o.state == SeenPendingCancel ==> r.state == PendingCancel && r.clientOrderId == o.clientOrderId)
            && (o.state == SeenWorking && q.state == PendingCancel ==>
                  r.state == PendingCancel && r.clientOrderId == q.clientOrderId)
            && (o.state == SeenWorking && q.state != PendingCancel ==>
                  && r.state == Working
                  && r.clientOrderId == if o.clientOrderId != None then o.clientOrderId else q.clientOrderId)
            && r.lastExchangeObservedMs == Some(o.observedAtMs) && r.lastUpdateMs == o.observedAtMs
            && r.lastCommandMs == q.lastCommandMs && r.createdAtMs == q.createdAtMs && r.terms == q.terms
  {
  }

  /** What an authoritative list without the quote leaves. */
  lemma AbsenceExactly(q: Quote, atMs: nat)
    ensures var r := AfterAbsence(q, atMs);
            && (q.state == PendingSubmit || q.state == Working ==>
                  r.state == UnknownOrStale("exchange_missing_authoritative"))
            && (q.state == PendingCancel || q.state == Canceled || q.state.UnknownOrStale? ==> r.state == Canceled)
            && (q.state.Rejected? ==> r == q)
            && (!q.state.Rejected? ==> r.lastUpdateMs == atMs)
            && r.lastCommandMs == q.lastCommandMs && r.createdAtMs == q.createdAtMs && r.terms == q.terms
            && r.clientOrderId == q.clientOrderId && r.lastExchangeObservedMs == q.lastExchangeObservedMs
  {
  }

  // ---- any series of synchronizations ----

  function SyncedAll(p: Policy, ws: seq<Quote>, steps: seq<(Snapshot, nat)>): seq<Quote> {
    if steps == [] then ws
    else
      var (snapshot, nowMs) := steps[|steps| - 1];
      Synced(p, SyncedAll(p, ws, steps[..|steps| - 1]), snapshot, nowMs)
  }

  /** What the exchange says of a quote in a snapshot, if anything. */
  function Report(snapshot: Snapshot, id: string): Option<Observed> {
    var seen := ObservedById(snapshot.quotes);
    if id in seen then Some(seen[id]) else None
  }

  /** The last of several reports on one quote counts. */
  lemma {:induction false} LastReportCounts(os: seq<Observed>, i: nat)
    requires i < |os| && forall j | i < j < |os| :: os[j].quoteId != os[i].quoteId
    ensures os[i].quoteId in ObservedById(os) && ObservedById(os)[os[i].quoteId] == os[i]
  {
    var n := |os| - 1;
    if i < n { LastReportCounts(os[..n], i); }
  }

  /** What ends the wait for a cancel: a reconnect, a report of death, an authoritative list
      without the quote, or its timeout, unless the exchange itself still reports the cancel as
      pending. */
  predicate EndsCancel(p: Policy, lastCommandMs: Option<nat>, id: string, snapshot: Snapshot, nowMs: nat) {
    var o, late := Report(snapshot, id), Elapsed(lastCommandMs, p.cancelTimeoutMs, nowMs);
    || snapshot.resyncPending
    || match o
       case None => snapshot.authoritative || late
       case Some(seen) => seen.state.SeenCanceled? || seen.state.SeenRejected? || (seen.state.SeenWorking? && late)
  }

  lemma CancelEndsExactly(p: Policy, q: Quote, snapshot: Snapshot, nowMs: nat)
    requires q.state == PendingCancel
    ensures var r := SyncedQuote(p, q, snapshot, nowMs);
            && (r.state == PendingCancel <==> !EndsCancel(p, q.lastCommandMs, q.Id(), snapshot, nowMs))
            && r.lastCommandMs == q.lastCommandMs
  {
    hide AfterTimeout, AfterObservation, AfterAbsence, TimedOut, SyncOne;
    if !snapshot.resyncPending {
      SyncStages(p, q, snapshot, nowMs);
      TimeoutsExactly(p, q, nowMs);
      var aged := AfterTimeout(q, p.submitTimeoutMs, p.cancelTimeoutMs, nowMs);
      var o := Report(snapshot, q.Id());
      if o.Some? { ObservationExactly(aged, o.value); }
      AbsenceExactly(aged, snapshot.observedAtMs);
    }
  }

  /** Some synchronization of the series ends the wait. */
  predicate EndedBy(p: Policy, lastCommandMs: Option<nat>, id: string, steps: seq<(Snapshot, nat)>) {
    steps != [] &&
    (|| EndsCancel(p, lastCommandMs, id, steps[|steps| - 1].0, steps[|steps| - 1].1)
     || EndedBy(p, lastCommandMs, id, steps[..|steps| - 1]))
  }

  lemma {:induction false} SyncedAllKeepsUnique(p: Policy, ws: seq<Quote>, steps: seq<(Snapshot, nat)>)
    requires Unique(ws)
    ensures Unique(SyncedAll(p, ws, steps))
  {
    hide Unique, Synced;
    if steps != [] {
      var n := |steps| - 1;
      SyncedAllKeepsUnique(p, ws, steps[..n]);
      SyncedForOne(p, SyncedAll(p, ws, steps[..n]), steps[n].0, steps[n].1, "");
    }
  }

  lemma SyncedAllStep(p: Policy, ws: seq<Quote>, steps: seq<(Snapshot, nat)>, id: string)
    requires Unique(ws) && steps != []
    ensures var before := Mine(SyncedAll(p, ws, steps[..|steps| - 1]), id);
            Mine(SyncedAll(p, ws, steps), id) ==
            if before.None? then None
            else Some(SyncedQuote(p, before.value, steps[|steps| - 1].0, steps[|steps| - 1].1))
    ensures Mine(SyncedAll(p, ws, steps[..|steps| - 1]), id).Some? ==>
              Mine(SyncedAll(p, ws, steps[..|steps| - 1]), id).value.Id() == id
  {
    hide Unique, Synced, Mine, SyncedQuote;
    var before := SyncedAll(p, ws, steps[..|steps| - 1]);
    SyncedAllKeepsUnique(p, ws, steps[..|steps| - 1]);
    SyncedForOne(p, before, steps[|steps| - 1].0, steps[|steps| - 1].1, id);
    MineHasId(before, id);
  }

  /** A quote whose cancel was sent stays that way over any series of synchronizations, however
      often it is still reported as working, until one of them ends the wait. */
  lemma {:induction false} CancelStaysPending(p: Policy, ws: seq<Quote>, id: string, steps: seq<(Snapshot, nat)>)
    requires Unique(ws) && Mine(ws, id).Some? && Mine(ws, id).value.state == PendingCancel
    requires !EndedBy(p, Mine(ws, id).value.lastCommandMs, id, steps)
    ensures var r := Mine(SyncedAll(p, ws, steps), id);
            r.Some? && r.value.state == PendingCancel && r.value.lastCommandMs == Mine(ws, id).value.lastCommandMs
  {
    hide Unique, Synced, SyncedAll, Mine, EndsCancel, SyncedQuote;
    if steps == [] {
      NothingSynced(p, ws);
    } else {
      var n := |steps| - 1;
      CancelStaysPending(p, ws, id, steps[..n]);
      SyncedAllStep(p, ws, steps, id);
      CancelEndsExactly(p, Mine(SyncedAll(p, ws, steps[..n]), id).value, steps[n].0, steps[n].1);
    }
  }

  lemma NothingSynced(p: Policy, ws: seq<Quote>)
    ensures SyncedAll(p, ws, []) == ws
  {
  }

  /** And no series of synchronizations changes what was ordered, when it was created, or when
      it was last commanded, nor gives it a client id the exchange did not name. */
  lemma {:induction false} SynchronizingKeeps(p: Policy, ws: seq<Quote>, id: string, steps: seq<(Snapshot, nat)>)
    requires Unique(ws) && Mine(ws, id).Some?
    ensures var q, r := Mine(ws, id).value, Mine(SyncedAll(p, ws, steps), id);
            && r.Some? && r.value.terms == q.terms && r.value.createdAtMs == q.createdAtMs
            && r.value.lastCommandMs == q.lastCommandMs
            && (r.value.clientOrderId == q.clientOrderId || Named(steps, id, r.value.clientOrderId))
  {
    hide Unique, Synced, SyncedAll, Mine, SyncedQuote;
    if steps == [] {
      NothingSynced(p, ws);
    } else {
      var n := |steps| - 1;
      SynchronizingKeeps(p, ws, id, steps[..n]);
      SyncedAllStep(p, ws, steps, id);
      SyncKeeps(p, Mine(SyncedAll(p, ws, steps[..n]), id).value, steps[n].0, steps[n].1);
    }
  }

  /** A report in the series carries this client id. */
  predicate Named(steps: seq<(Snapshot, nat)>, id: string, client: Option<string>) {
    steps != [] &&
    (|| (Report(steps[|steps| - 1].0, id).Some? && Report(steps[|steps| - 1].0, id).value.clientOrderId == client)
     || Named(steps[..|steps| - 1], id, client))
  }

  lemma SyncKeeps(p: Policy, q: Quote, snapshot: Snapshot, nowMs: nat)
    ensures var r, o := SyncedQuote(p, q, snapshot, nowMs), Report(snapshot, q.Id());
            && r.terms == q.terms && r.createdAtMs == q.createdAtMs && r.lastCommandMs == q.lastCommandMs
            && (r.clientOrderId == q.clientOrderId || (o.Some? && r.clientOrderId == o.value.clientOrderId))
  {
    hide AfterTimeout, AfterObservation, AfterAbsence, TimedOut, SyncOne;
    if !snapshot.resyncPending {
      SyncStages(p, q, snapshot, nowMs);
      TimeoutsExactly(p, q, nowMs);
      var aged := AfterTimeout(q, p.submitTimeoutMs, p.cancelTimeoutMs, nowMs);
      var o := Report(snapshot, q.Id());
      if o.Some? { ObservationExactly(aged, o.value); }
      AbsenceExactly(aged, snapshot.observedAtMs);
    }
  }

  /** When a synchronization last touched a quote: at the report's own time, at the snapshot's
      when it was missing or a reconnect put it in doubt, now when it timed out, and otherwise
      not at all. */
  lemma TouchedExactly(p: Policy, q: Quote, snapshot: Snapshot, nowMs: nat)
    ensures var r, o := SyncedQuote(p, q, snapshot, nowMs), Report(snapshot, q.Id());
            && r.lastUpdateMs ==
               (if snapshot.resyncPending then if q.Cancelable() then snapshot.observedAtMs else q.lastUpdateMs
                else if o.Some? then o.value.observedAtMs
                else if snapshot.authoritative && !q.state.Rejected? then snapshot.observedAtMs
                else if SubmitLate(p, q, nowMs) || CancelLate(p, q, nowMs) then nowMs
                else q.lastUpdateMs)
            && r.lastExchangeObservedMs ==
               (if !snapshot.resyncPending && o.Some? then Some(o.value.observedAtMs) else q.lastExchangeObservedMs)
            && (snapshot.resyncPending && q.Cancelable() ==> r.state == UnknownOrStale("reconnect_resync_required"))
            && (snapshot.resyncPending && !q.Cancelable() ==> r == q)
  {
    hide AfterTimeout, AfterObservation, AfterAbsence, TimedOut, SyncOne;
    if !snapshot.resyncPending {
      SyncStages(p, q, snapshot, nowMs);
      TimeoutsExactly(p, q, nowMs);
      var aged := AfterTimeout(q, p.submitTimeoutMs, p.cancelTimeoutMs, nowMs);
      var o := Report(snapshot, q.Id());
      if o.Some? { ObservationExactly(aged, o.value); }
      AbsenceExactly(aged, snapshot.observedAtMs);
    }
  }

  /** A silent snapshot leaves a fresh submission as it is until its timeout has passed since it
      was sent, and puts it in doubt from then on; likewise a quote whose cancel was just sent. */
  lemma SilenceTimesOut(p: Policy, d: DesiredQuote, q: Quote, sentMs: nat, snapshot: Snapshot, nowMs: nat)
    requires !snapshot.resyncPending && !snapshot.authoritative
    ensures Report(snapshot, d.quoteId).None? ==>
              var r := SyncedQuote(p, Submitted(d, sentMs), snapshot, nowMs);
              && r.terms == d
              && r.state == if Elapsed(Some(sentMs), p.submitTimeoutMs, nowMs) then UnknownOrStale("submit_timeout")
                            else PendingSubmit
    ensures Report(snapshot, q.Id()).None? ==>
              var r := SyncedQuote(p, CancelSent(q, sentMs), snapshot, nowMs);
              && r.terms == q.terms
              && r.state == if Elapsed(Some(sentMs), p.cancelTimeoutMs, nowMs) then UnknownOrStale("cancel_timeout")
                            else PendingCancel
  {
    hide AfterTimeout, AfterObservation, AfterAbsence, TimedOut, SyncOne;
    SyncStages(p, Submitted(d, sentMs), snapshot, nowMs);
    TimeoutsExactly(p, Submitted(d, sentMs), nowMs);
    SyncStages(p, CancelSent(q, sentMs), snapshot, nowMs);
    TimeoutsExactly(p, CancelSent(q, sentMs), nowMs);
  }

  // ---- what an outcome says of it ----

  /** A quote gets no report when there is none of its id, or an earlier quote with that id takes
      it. */
  predicate Missing(ws: seq<Quote>, i: nat, s: Snapshot)
    requires i < |ws|
  {
    Report(s, ws[i].Id()).None? || exists j :: 0 <= j < i && ws[j].Id() == ws[i].Id()
  }

  /** Why a resync is required. */
  predicate Alarming(p: Policy, q: Quote, missing: bool, authoritative: bool, nowMs: nat) {
    || SubmitLate(p, q, nowMs) || CancelLate(p, q, nowMs)
    || (missing && authoritative && (q.state == PendingSubmit || q.state == Working))
    || (missing && !authoritative && q.state.UnknownOrStale?)
  }

  predicate AlarmingAt(p: Policy, ws: seq<Quote>, i: nat, s: Snapshot, nowMs: nat)
    requires i < |ws|
  {
    Alarming(p, ws[i], Missing(ws, i, s), s.authoritative, nowMs)
  }

  predicate InDoubt(ws: seq<Quote>) {
    exists i :: 0 <= i < |ws| && ws[i].state.UnknownOrStale?
  }

  /** A resync is required exactly after a gap, or when some quote timed out, is surprisingly
      missing, or stays in doubt. The outcome is blocked exactly after a gap or when a quote is
      in doubt afterwards, names exactly those, and says nothing. */
  lemma AlarmsExactly(p: Policy, seen: set<string>, ds: seq<DesiredQuote>, ws: seq<Quote>, s: Snapshot, nowMs: nat)
    ensures var o := Reconciled(p, seen, ds, ws, s, nowMs);
            && (o.resyncRequired <==> s.resyncPending || exists i :: 0 <= i < |ws| && AlarmingAt(p, ws, i, s, nowMs))
            && (o.blocked <==> s.resyncPending || InDoubt(o.working))
            && (forall id :: id in o.blockedQuotes <==>
                  exists i :: 0 <= i < |o.working| && o.working[i].state.UnknownOrStale? && o.working[i].Id() == id)
            && (o.blocked ==> o.commands == [])
  {
    hide Plan, SyncOne, TimedOut, Alarming, SyncSurprises, ObservationFor, Missing;
    var synced := Synced(p, ws, s, nowMs);
    PlanSilentInDoubt(p, ds, synced, nowMs);
    if !s.resyncPending {
      forall i | 0 <= i < |ws|
        ensures SurpriseAt(p, ws, i, s, nowMs) || synced[i].Blocks() <==> AlarmingAt(p, ws, i, s, nowMs)
      {
        assert synced[i] == SyncAt(p, ws, i, s, nowMs);
        AlarmingOne(p, ws, i, s, nowMs);
      }
      assert AnySurprise(p, ws, s, nowMs) || (exists i :: 0 <= i < |ws| && synced[i].Blocks()) <==>
             exists i :: 0 <= i < |ws| && AlarmingAt(p, ws, i, s, nowMs) by {
        if i :| 0 <= i < |ws| && SurpriseAt(p, ws, i, s, nowMs) { assert AlarmingAt(p, ws, i, s, nowMs); }
        if i :| 0 <= i < |ws| && synced[i].Blocks() { assert AlarmingAt(p, ws, i, s, nowMs); }
        if i :| 0 <= i < |ws| && AlarmingAt(p, ws, i, s, nowMs) {
          assert SurpriseAt(p, ws, i, s, nowMs) || synced[i].Blocks();
        }
      }
    }
  }

  lemma AlarmingOne(p: Policy, ws: seq<Quote>, i: nat, s: Snapshot, nowMs: nat)
    requires i < |ws|
    ensures SurpriseAt(p, ws, i, s, nowMs) || SyncAt(p, ws, i, s, nowMs).Blocks() <==>
            AlarmingAt(p, ws, i, s, nowMs)
  {
    assert ObservationFor(ws, i, ObservedById(s.quotes)).None? <==> Missing(ws, i, s);
    AlarmingOf(p, ws[i], ObservationFor(ws, i, ObservedById(s.quotes)), s, nowMs);
  }

  lemma AlarmingOf(p: Policy, q: Quote, o: Option<Observed>, s: Snapshot, nowMs: nat)
    ensures SyncSurprises(p, q, o, s, nowMs) || SyncOne(p, q, o, s, nowMs).Blocks() <==>
            Alarming(p, q, o.None?, s.authoritative, nowMs)
  {
  }
}
