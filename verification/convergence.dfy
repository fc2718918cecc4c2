/** Planning again after the plan was carried out, and recovering from doubt. */
module Convergence {
  import opened Text
  import opened Units
  import opened Words
  import opened WorkingQuotes
  import opened OrderManager
  import opened PlanProperties

  // ---- a plan that was carried out leaves nothing to do ----

  /** The exchange confirms the cancels: a quote whose last command was one is canceled. */
  function ConfirmedOne(q: Quote, cs: seq<Command>, atMs: nat): Quote {
    var mine := For(cs, q.Id());
    if mine != [] && !mine[|mine| - 1].Place? && q.state.PendingCancel? then CancelConfirmed(q, atMs) else q
  }

  function Confirmed(ws: seq<Quote>, cs: seq<Command>, atMs: nat): seq<Quote> {
    seq(|ws|, i requires 0 <= i < |ws| => ConfirmedOne(ws[i], cs, atMs))
  }

  lemma ConfirmedForOne(ws: seq<Quote>, cs: seq<Command>, atMs: nat, id: string)
    requires Unique(ws)
    ensures Unique(Confirmed(ws, cs, atMs))
    ensures Mine(Confirmed(ws, cs, atMs), id) ==
            if Mine(ws, id).Some? then Some(ConfirmedOne(Mine(ws, id).value, cs, atMs)) else None
  {
    var r := Confirmed(ws, cs, atMs);
    assert forall i | 0 <= i < |ws| :: r[i].Id() == ws[i].Id();
    if Mine(ws, id).Some? {
      var i := MineFrom(ws, id);
      MineAt(r, i);
    } else if Mine(r, id).Some? {
      var i := MineFrom(r, id);
      MineAt(ws, i);
    }
  }

  /** The working set once the plan's commands were sent and its cancels confirmed. */
  function CarriedOut(p: Policy, ds: seq<DesiredQuote>, ws: seq<Quote>, nowMs: nat, atMs: nat): seq<Quote> {
    var cs := Plan(p, ds, ws, nowMs);
    Confirmed(SendAll(ws, cs, nowMs), cs, atMs)
  }

  /** With a zero threshold every quote differs materially from itself; only a cooldown then
      keeps a quote that was just placed from being replaced at once. */
  predicate Restless(p: Policy) {
    (p.minPriceChangeUnits == 0 || p.minSizeChangeUnits == 0) && p.replaceCooldownMs == 0
  }

  predicate PlacesAny(cs: seq<Command>) {
    exists c :: c in cs && c.Place?
  }

  lemma FreshNeedsReplace(p: Policy, d: DesiredQuote, nowMs: nat)
    ensures NeedsReplace(p, Submitted(d, nowMs), d, nowMs) <==> Restless(p)
  {
    hide UnitsOf;
  }

  /** The fate of one quote when the plan is carried out. */
  lemma CarriedOutForOne(p: Policy, ds: seq<DesiredQuote>, ws: seq<Quote>, nowMs: nat, atMs: nat, id: string)
    requires Unique(ws) && Trusted(ws)
    ensures Unique(CarriedOut(p, ds, ws, nowMs, atMs))
    ensures var q, r := Mine(ws, id), Mine(CarriedOut(p, ds, ws, nowMs, atMs), id);
            var w, d := WorkingById(ws).at, DesiredById(ds).at;
            if PlaceDue(p, id, w, d, nowMs) then r == Some(Submitted(d[id], nowMs))
            else if q.None? then r.None?
            else if q.value.Cancelable() && (id !in d || ds == []) then r.Some? && r.value.state.Canceled?
            else r == q
  {
    hide NeedsReplace, Plan, CarriedOut, For, SentAllFor, Unique, WorkingById, DesiredById;
    var mine := For(Plan(p, ds, ws, nowMs), id);
    CarriedOutFate(p, ds, ws, nowMs, atMs, id);
    PlanForOne(p, ds, ws, nowMs, id);
    WorkingEntry(ws, id);
    DesiredByIdHas(ds, id);
    SentAllShort(Mine(ws, id), mine, nowMs, id);
    if Mine(ws, id).Some? && ds == [] && Mine(ws, id).value.Cancelable() {
      var i := MineFrom(ws, id);
      assert AnyCancelable(ws);
    }
  }

  lemma WorkingEntry(ws: seq<Quote>, id: string)
    ensures Mine(ws, id) == if id in WorkingById(ws).at then Some(WorkingById(ws).at[id]) else None
    ensures Mine(ws, id).Some? ==> Mine(ws, id).value.Id() == id
  {
    MineHasId(ws, id);
  }

  /** The quote after its own commands, canceled if the last of them was a cancel. */
  function Fate(q: Option<Quote>, mine: seq<Command>, nowMs: nat, atMs: nat, id: string): Option<Quote> {
    var sent := SentAllFor(q, mine, nowMs, id);
    if sent.Some? && mine != [] && !mine[|mine| - 1].Place? && sent.value.state.PendingCancel?
    then Some(CancelConfirmed(sent.value, atMs)) else sent
  }

  lemma CarriedOutFate(p: Policy, ds: seq<DesiredQuote>, ws: seq<Quote>, nowMs: nat, atMs: nat, id: string)
    requires Unique(ws)
    ensures Unique(CarriedOut(p, ds, ws, nowMs, atMs))
    ensures Mine(CarriedOut(p, ds, ws, nowMs, atMs), id)
         == Fate(Mine(ws, id), For(Plan(p, ds, ws, nowMs), id), nowMs, atMs, id)
  {
    hide NeedsReplace, Plan, Confirmed, SendAll, For, SentAllFor, Unique, Mine;
    var cs := Plan(p, ds, ws, nowMs);
    SendAllKeepsUnique(ws, cs, nowMs);
    SendAllForOne(ws, cs, nowMs, id);
    ConfirmedForOne(SendAll(ws, cs, nowMs), cs, atMs, id);
    MineHasId(SendAll(ws, cs, nowMs), id);
  }

  lemma SentAllShort(q: Option<Quote>, cs: seq<Command>, nowMs: nat, id: string)
    requires |cs| <= 2
    ensures SentAllFor(q, cs, nowMs, id) ==
            if |cs| == 0 then q
            else if |cs| == 1 then SentFor(q, cs[0], nowMs, id)
            else SentFor(SentFor(q, cs[0], nowMs, id), cs[1], nowMs, id)
  {
    if |cs| > 0 {
      assert cs[..0] == [];
      if |cs| == 2 { assert cs[..1][..0] == [] && cs[..1][0] == cs[0]; }
    }
  }

  lemma CarriedOutTrusted(p: Policy, ds: seq<DesiredQuote>, ws: seq<Quote>, nowMs: nat, atMs: nat)
    requires Unique(ws) && Trusted(ws)
    ensures Trusted(CarriedOut(p, ds, ws, nowMs, atMs))
    ensures ds == [] ==> !AnyCancelable(CarriedOut(p, ds, ws, nowMs, atMs))
  {
    hide NeedsReplace, CarriedOut, WorkingById;
    var r := CarriedOut(p, ds, ws, nowMs, atMs);
    forall i | 0 <= i < |r|
      ensures !r[i].Blocks() && (ds == [] ==> !r[i].Cancelable())
    {
      var id := r[i].Id();
      CarriedOutForOne(p, ds, ws, nowMs, atMs, id);
      MineAt(r, i);
      DesiredByIdHas(ds, id);
      if Mine(ws, id).Some? { var j := MineFrom(ws, id); }
    }
  }

  lemma SecondPlanForOne(p: Policy, ds: seq<DesiredQuote>, ws: seq<Quote>, nowMs: nat, atMs: nat, id: string)
    requires Unique(ws) && Trusted(ws)
    ensures For(Plan(p, ds, CarriedOut(p, ds, ws, nowMs, atMs), nowMs), id) == [] <==>
            !(PlaceDue(p, id, WorkingById(ws).at, DesiredById(ds).at, nowMs) && Restless(p))
  {
    hide NeedsReplace, CarriedOut;
    var r, d := CarriedOut(p, ds, ws, nowMs, atMs), DesiredById(ds).at;
    CarriedOutForOne(p, ds, ws, nowMs, atMs, id);
    CarriedOutTrusted(p, ds, ws, nowMs, atMs);
    PlanForOne(p, ds, r, nowMs, id);
    DesiredByIdHas(ds, id);
    if id in d { FreshNeedsReplace(p, d[id], nowMs); }
  }

  lemma {:induction false} ForMember(cs: seq<Command>, c: Command, id: string)
    ensures c in For(cs, id) <==> c in cs && Concerns(c, id)
  {
    if cs != [] {
      var n := |cs| - 1;
      ForMember(cs[..n], c, id);
      assert c in cs <==> c in cs[..n] || c == cs[n];
    }
  }

  lemma ForNothing(cs: seq<Command>)
    requires forall id :: For(cs, id) == []
    ensures cs == []
  {
    if cs != [] {
      var c := cs[0];
      var id := match c case Place(d) => d.quoteId case Cancel(x) => x case CancelAll => "";
      ForMember(cs, c, id);
    }
  }

  lemma PlacesWhat(p: Policy, ds: seq<DesiredQuote>, ws: seq<Quote>, nowMs: nat)
    requires Trusted(ws)
    ensures PlacesAny(Plan(p, ds, ws, nowMs)) <==>
            exists id :: PlaceDue(p, id, WorkingById(ws).at, DesiredById(ds).at, nowMs)
  {
    hide NeedsReplace, Plan;
    var cs, w, d := Plan(p, ds, ws, nowMs), WorkingById(ws).at, DesiredById(ds).at;
    if c :| c in cs && c.Place? {
      var id := c.quote.quoteId;
      ForMember(cs, c, id);
      PlanForOne(p, ds, ws, nowMs, id);
      assert PlaceDue(p, id, w, d, nowMs);
    }
    if id :| PlaceDue(p, id, w, d, nowMs) {
      PlanForOne(p, ds, ws, nowMs, id);
      DesiredByIdHas(ds, id);
      ForMember(cs, Place(d[id]), id);
    }
  }

  /** Reconciling again at the same time, with the commands carried out, is silent exactly
      when nothing had to be placed or the policy is not restless. */
  lemma SecondPlanEmpty(p: Policy, ds: seq<DesiredQuote>, ws: seq<Quote>, nowMs: nat, atMs: nat)
    requires Unique(ws) && Trusted(ws)
    ensures Plan(p, ds, CarriedOut(p, ds, ws, nowMs, atMs), nowMs) == [] <==>
            !(PlacesAny(Plan(p, ds, ws, nowMs)) && Restless(p))
  {
    hide PlaceDue, Plan, CarriedOut, Restless;
    var again := Plan(p, ds, CarriedOut(p, ds, ws, nowMs, atMs), nowMs);
    PlacesWhat(p, ds, ws, nowMs);
    if PlacesAny(Plan(p, ds, ws, nowMs)) && Restless(p) {
      var id :| PlaceDue(p, id, WorkingById(ws).at, DesiredById(ds).at, nowMs);
      SecondPlanForOne(p, ds, ws, nowMs, atMs, id);
      assert For(again, id) != [];
    } else {
      forall id ensures For(again, id) == [] { SecondPlanForOne(p, ds, ws, nowMs, atMs, id); }
      ForNothing(again);
    }
  }

  // ---- doubt and recovery ----

  /** After an authoritative pass planning is blocked exactly when some quote that was believed
      live, and had not timed out, was missing. */
  lemma AuthoritativePassBlocks(p: Policy, ws: seq<Quote>, s: Snapshot, nowMs: nat)
    requires s.authoritative && !s.resyncPending
    ensures Trusted(Synced(p, ws, s, nowMs)) <==>
            forall i | 0 <= i < |ws| ::
              || ObservationFor(ws, i, ObservedById(s.quotes)).Some?
              || !AbsenceSurprises(ws[i])
              || TimedOut(ws[i], p.submitTimeoutMs, p.cancelTimeoutMs, nowMs)
  {
    hide SyncOne;
    forall i | 0 <= i < |ws|
      ensures Synced(p, ws, s, nowMs)[i].Blocks() <==>
              && ObservationFor(ws, i, ObservedById(s.quotes)).None?
              && AbsenceSurprises(ws[i])
              && !TimedOut(ws[i], p.submitTimeoutMs, p.cancelTimeoutMs, nowMs)
    {
      hide SyncAt;
      SyncAtIs(p, ws, i, s, nowMs);
      PassBlocksOne(p, ws[i], ObservationFor(ws, i, ObservedById(s.quotes)), s, nowMs);
    }
  }

  lemma PassBlocksOne(p: Policy, q: Quote, o: Option<Observed>, s: Snapshot, nowMs: nat)
    requires s.authoritative
    ensures SyncOne(p, q, o, s, nowMs).Blocks() <==>
            o.None? && AbsenceSurprises(q) && !TimedOut(q, p.submitTimeoutMs, p.cancelTimeoutMs, nowMs)
  {
  }

  /** Two authoritative passes that list the same ids clear every doubt, whatever the working
      set was. */
  lemma TwoPassesUnblock(p: Policy, ws: seq<Quote>, s1: Snapshot, s2: Snapshot, now1: nat, now2: nat)
    requires s1.authoritative && !s1.resyncPending && s2.authoritative && !s2.resyncPending
    requires ObservedById(s1.quotes).Keys == ObservedById(s2.quotes).Keys
    ensures Trusted(Synced(p, Synced(p, ws, s1, now1), s2, now2))
  {
    hide SyncOne, SyncAt;
    var mid := Synced(p, ws, s1, now1);
    var end := Synced(p, mid, s2, now2);
    forall i | 0 <= i < |ws|
      ensures !end[i].Blocks()
    {
      var o1, o2 := ObservationFor(ws, i, ObservedById(s1.quotes)), ObservationFor(mid, i, ObservedById(s2.quotes));
      SyncAtIs(p, ws, i, s1, now1);
      SyncAtIs(p, mid, i, s2, now2);
      SyncTwice(p, ws[i], o1, o2, s1, s2, now1, now2);
    }
  }

  lemma SyncAtIs(p: Policy, ws: seq<Quote>, i: nat, s: Snapshot, nowMs: nat)
    requires i < |ws| && !s.resyncPending
    ensures Synced(p, ws, s, nowMs)[i] == SyncOne(p, ws[i], ObservationFor(ws, i, ObservedById(s.quotes)), s, nowMs)
  {
  }

  lemma SyncTwice(
    p: Policy, q: Quote, o1: Option<Observed>, o2: Option<Observed>, s1: Snapshot, s2: Snapshot, now1: nat, now2: nat)
    requires s1.authoritative && s2.authoritative && (o1.Some? <==> o2.Some?)
    ensures !SyncOne(p, SyncOne(p, q, o1, s1, now1), o2, s2, now2).Blocks()
  {
  }

  /** After a reconnect gap one authoritative pass is enough. */
  lemma OnePassAfterGap(p: Policy, ws: seq<Quote>, gap: Snapshot, s: Snapshot, now1: nat, now2: nat)
    requires gap.resyncPending && s.authoritative && !s.resyncPending
    ensures Trusted(Synced(p, Synced(p, ws, gap, now1), s, now2))
  {
    var mid := Synced(p, ws, gap, now1);
    forall i | 0 <= i < |ws|
      ensures !AbsenceSurprises(mid[i])
    {
      assert mid[i] == Stale(ws[i], gap.observedAtMs);
    }
    AuthoritativePassBlocks(p, mid, s, now2);
  }

  /** Without authority silence proves nothing: an unobserved quote in doubt stays exactly as
      it was, and doubt appears only through a timeout. */
  lemma SilenceKeepsDoubt(p: Policy, ws: seq<Quote>, s: Snapshot, nowMs: nat, i: nat)
    requires !s.authoritative && !s.resyncPending && i < |ws|
    ensures var r, unseen := Synced(p, ws, s, nowMs), ObservationFor(ws, i, ObservedById(s.quotes)).None?;
            && (unseen && ws[i].Blocks() ==> r[i] == ws[i])
            && (r[i].Blocks() <==>
                unseen && (ws[i].Blocks() || TimedOut(ws[i], p.submitTimeoutMs, p.cancelTimeoutMs, nowMs)))
  {
    assert Synced(p, ws, s, nowMs)[i] == SyncAt(p, ws, i, s, nowMs);
  }
}
