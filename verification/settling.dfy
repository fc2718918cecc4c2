/** Manager and exchange together: once snapshots tell the truth and commands arrive, the live
    orders become the desired quotes within a few rounds, and nothing more is said. */
module Settling {
  import opened Text
  import opened Units
  import opened Words
  import opened WorkingQuotes
  import opened OrderManager
  import opened PlanProperties
  import opened Convergence
  import opened ExchangeProtocol

  /** The snapshot lists exactly what is live, and nothing as dead. */
  ghost predicate Truthful(s: System, snapshot: Snapshot) {
    var seen := ObservedById(snapshot.quotes);
    && snapshot.authoritative && !snapshot.resyncPending
    && (forall id :: id in seen <==> OrdersOf(s.live, id) != [])
    && (forall id | id in seen :: !SaysDead(seen[id]))
  }

  /** In every state there is one. */
  lemma TruthIsPossible(s: System) returns (snapshot: Snapshot)
    ensures Truthful(s, snapshot)
  {
    hide OrdersOf;
    var quotes := seq(|s.live|, i requires 0 <= i < |s.live| => Observed(s.live[i].quoteId, None, SeenWorking, 0));
    snapshot := Snapshot(true, false, quotes, [], 0);
    forall id
      ensures (exists i :: 0 <= i < |quotes| && quotes[i].quoteId == id) <==> OrdersOf(s.live, id) != []
    {
      OrdersListed(s.live, id);
      if i :| 0 <= i < |s.live| && s.live[i].quoteId == id {
        OrderCounted(s.live, i);
        assert quotes[i].quoteId == id;
      }
      if i :| 0 <= i < |quotes| && quotes[i].quoteId == id { OrderCounted(s.live, i); }
    }
  }

  /** Everything on its way arrives. */
  function Drained(p: Policy, s: System): System {
    Delivered(p, s, |s.channel|)
  }

  /** One reconciliation with a snapshot, all of whose commands arrive. */
  function Round(p: Policy, s: System, ds: seq<DesiredQuote>, snapshot: Snapshot, nowMs: nat): System {
    Drained(p, Next(p, s, Reconcile(ds, snapshot, nowMs)))
  }

  ghost predicate Idle(s: System) {
    Invariant(s) && s.channel == []
  }

  // ---- draining the channel ----

  /** What the commands of one quote make of its live orders. */
  function Arrived(orders: seq<DesiredQuote>, f: seq<Command>): seq<DesiredQuote>
    decreases |f|
  {
    if f == [] then orders else Arrived(if f[0].Place? then orders + [f[0].quote] else [], f[1..])
  }

  lemma {:induction false} DrainedIs(p: Policy, s: System, id: string)
    ensures Drained(p, s).channel == [] && Drained(p, s).working == s.working
    ensures OrdersOf(Drained(p, s).live, id) == Arrived(OrdersOf(s.live, id), For(s.channel, id))
    decreases |s.channel|
  {
    hide Next, OrdersOf, For;
    if s.channel == [] {
      ForSingle([], id);
    } else {
      DeliverShortens(p, s);
      DrainedIs(p, Next(p, s, Deliver), id);
      EffectForOne(s.live, s.channel[0], id);
      ForHead(s.channel, id);
      var c, rest := s.channel[0], For(s.channel[1..], id);
      if Concerns(c, id) {
        assert ([c] + rest)[1..] == rest;
      } else {
        assert [] + rest == rest;
      }
    }
  }

  lemma DrainedIsIdle(p: Policy, s: System)
    requires Invariant(s)
    ensures Idle(Drained(p, s))
  {
    hide Invariant;
    DeliveriesKeepInvariant(p, s, |s.channel|);
    DrainedIs(p, s, "");
  }

  // ---- one round ----

  lemma TruthfulIsReliable(p: Policy, s: System, snapshot: Snapshot, nowMs: nat)
    requires Idle(s) && Truthful(s, snapshot)
    ensures Reliable(p, s, snapshot, nowMs)
  {
    hide OrdersOf, For, Mine, LastPlace;
    forall id | OrdersOf(s.live, id) == [] ensures Quiet(s, id) { NothingComes(s, id); }
    HonestIsReliable(p, s, snapshot, nowMs);
  }

  lemma RoundKeepsIdle(p: Policy, s: System, ds: seq<DesiredQuote>, snapshot: Snapshot, nowMs: nat)
    requires Idle(s) && Truthful(s, snapshot)
    ensures Idle(Round(p, s, ds, snapshot, nowMs))
  {
    hide Invariant, Next, Reliable, Truthful, Drained;
    TruthfulIsReliable(p, s, snapshot, nowMs);
    StepKeepsInvariant(p, s, Reconcile(ds, snapshot, nowMs));
    DrainedIsIdle(p, Next(p, s, Reconcile(ds, snapshot, nowMs)));
  }

  /** After synchronizing, exactly the quotes with a live order are cancelable, at its terms. */
  lemma SyncedIdle(p: Policy, s: System, snapshot: Snapshot, nowMs: nat, id: string)
    requires Idle(s) && Truthful(s, snapshot)
    ensures var r, orders := Mine(Synced(p, s.working, snapshot, nowMs), id), OrdersOf(s.live, id);
            && (orders == [] ==> r.None? || !r.value.Cancelable())
            && (orders != [] ==> r.Some? && r.value.Cancelable() && orders == [r.value.terms])
  {
    hide Synced, Mine, OrdersOf, SyncedQuote;
    assert SoundFor(s, id);
    ForSingle([], id);
    NothingComes(s, id);
    SyncedForOne(p, s.working, snapshot, nowMs, id);
    MineHasId(s.working, id);
    if Mine(s.working, id).Some? {
      TruthfulSync(p, s, Mine(s.working, id).value, snapshot, nowMs);
    }
  }

  lemma TruthfulSync(p: Policy, s: System, q: Quote, snapshot: Snapshot, nowMs: nat)
    requires Truthful(s, snapshot)
    ensures var r := SyncedQuote(p, q, snapshot, nowMs);
            && (r.Cancelable() <==> OrdersOf(s.live, q.Id()) != [])
            && r.terms == q.terms && r.lastCommandMs == q.lastCommandMs
  {
    hide OrdersOf, SyncOne;
    var seen := ObservedById(snapshot.quotes);
    if q.Id() in seen {
      SeenIsCancelable(p, q, seen[q.Id()], snapshot, nowMs);
    } else {
      UnseenIsNot(p, q, snapshot, nowMs);
    }
  }

  lemma SeenIsCancelable(p: Policy, q: Quote, o: Observed, s: Snapshot, nowMs: nat)
    requires !SaysDead(o)
    ensures var r := SyncOne(p, q, Some(o), s, nowMs);
            r.Cancelable() && r.terms == q.terms && r.lastCommandMs == q.lastCommandMs
  {
  }

  lemma UnseenIsNot(p: Policy, q: Quote, s: Snapshot, nowMs: nat)
    requires s.authoritative
    ensures var r := SyncOne(p, q, None, s, nowMs);
            !r.Cancelable() && r.terms == q.terms && r.lastCommandMs == q.lastCommandMs
  {
  }

  lemma RoundForOne(p: Policy, s: System, ds: seq<DesiredQuote>, snapshot: Snapshot, nowMs: nat, id: string)
    requires Idle(s) && Truthful(s, snapshot)
    ensures var ws := Synced(p, s.working, snapshot, nowMs);
            var t, f := Round(p, s, ds, snapshot, nowMs), For(Plan(p, ds, ws, nowMs), id);
            && Mine(t.working, id) == SentAllFor(Mine(ws, id), f, nowMs, id)
            && OrdersOf(t.live, id) == Arrived(OrdersOf(s.live, id), f)
  {
    hide Synced, Plan, SendAll, For, Mine, OrdersOf, Arrived, SentAllFor;
    var ws := Synced(p, s.working, snapshot, nowMs);
    var sent := Next(p, s, Reconcile(ds, snapshot, nowMs));
    SyncedForOne(p, s.working, snapshot, nowMs, id);
    SendAllForOne(ws, Plan(p, ds, ws, nowMs), nowMs, id);
    DrainedIs(p, sent, id);
    assert sent.channel == Plan(p, ds, ws, nowMs);
  }

  lemma ArrivedShort(orders: seq<DesiredQuote>, f: seq<Command>)
    requires |f| <= 2
    ensures |f| == 0 ==> Arrived(orders, f) == orders
    ensures |f| == 1 ==> Arrived(orders, f) == if f[0].Place? then orders + [f[0].quote] else []
    ensures |f| == 2 && !f[0].Place? && f[1].Place? ==> Arrived(orders, f) == [f[1].quote]
  {
    if |f| == 2 && !f[0].Place? && f[1].Place? {
      var none: seq<DesiredQuote> := [];
      assert f[1..][0] == f[1] && f[1..][1..] == [];
      assert Arrived(orders, f) == Arrived(none, f[1..]) == none + [f[1].quote];
    }
  }

  /** A round from a trusted working set: each desired quote has one live order, new or kept,
      and nothing else is live. */
  lemma TrustedRound(p: Policy, s: System, ds: seq<DesiredQuote>, snapshot: Snapshot, nowMs: nat, id: string)
    requires Idle(s) && Truthful(s, snapshot) && Trusted(Synced(p, s.working, snapshot, nowMs))
    ensures var ws, t, d := Synced(p, s.working, snapshot, nowMs), Round(p, s, ds, snapshot, nowMs), DesiredById(ds).at;
            var q, place := Mine(ws, id), PlaceDue(p, id, WorkingById(ws).at, d, nowMs);
            && (id in d && !place ==> q.Some? && q.value.Cancelable())
            && OrdersOf(t.live, id) == (if id !in d then [] else if place then [d[id]] else [q.value.terms])
            && Mine(t.working, id) ==
               (if place then Some(Submitted(d[id], nowMs))
                else if q.Some? && q.value.Cancelable() && id !in d then Some(CancelSent(q.value, nowMs))
                else q)
  {
    hide Synced, Plan, Round, For, OrdersOf, Arrived, SentAllFor, NeedsReplace, WorkingById, DesiredById;
    var ws := Synced(p, s.working, snapshot, nowMs);
    RoundForOne(p, s, ds, snapshot, nowMs, id);
    SyncedIdle(p, s, snapshot, nowMs, id);
    PlanForOne(p, ds, ws, nowMs, id);
    WorkingEntry(ws, id);
    DesiredByIdHas(ds, id);
    var f := For(Plan(p, ds, ws, nowMs), id);
    SentAllShort(Mine(ws, id), f, nowMs, id);
    ArrivedShort(OrdersOf(s.live, id), f);
    if ds == [] && Mine(ws, id).Some? && Mine(ws, id).value.Cancelable() {
      var i := MineFrom(ws, id);
      assert AnyCancelable(ws);
    }
  }

  /** No quote believed live lacks its order. */
  ghost predicate Calm(s: System) {
    forall id | Mine(s.working, id).Some? && AbsenceSurprises(Mine(s.working, id).value) :: OrdersOf(s.live, id) != []
  }

  lemma TrustedRoundIsCalm(p: Policy, s: System, ds: seq<DesiredQuote>, snapshot: Snapshot, nowMs: nat)
    requires Idle(s) && Truthful(s, snapshot) && Trusted(Synced(p, s.working, snapshot, nowMs))
    ensures Calm(Round(p, s, ds, snapshot, nowMs))
  {
    hide Idle, Truthful, Trusted, Synced, Round, OrdersOf, NeedsReplace, Mine, WorkingById, DesiredById;
    var t := Round(p, s, ds, snapshot, nowMs);
    forall id | Mine(t.working, id).Some? && AbsenceSurprises(Mine(t.working, id).value)
      ensures OrdersOf(t.live, id) != []
    {
      TrustedRound(p, s, ds, snapshot, nowMs, id);
    }
  }

  lemma CalmTrusts(p: Policy, s: System, snapshot: Snapshot, nowMs: nat)
    requires Idle(s) && Truthful(s, snapshot) && Calm(s)
    ensures Trusted(Synced(p, s.working, snapshot, nowMs))
  {
    hide Synced, OrdersOf, Mine, AbsenceSurprises, TimedOut;
    var ws, seen := s.working, ObservedById(snapshot.quotes);
    forall i | 0 <= i < |ws|
      ensures ObservationFor(ws, i, seen).Some? || !AbsenceSurprises(ws[i])
    {
      MineAt(ws, i);
      assert NoneBefore(ws, i, ws[i].Id());
    }
    AuthoritativePassBlocks(p, ws, snapshot, nowMs);
  }

  /** A round in doubt says nothing ... */
  lemma DoubtfulRound(p: Policy, s: System, ds: seq<DesiredQuote>, snapshot: Snapshot, nowMs: nat)
    requires s.channel == [] && Plan(p, ds, Synced(p, s.working, snapshot, nowMs), nowMs) == []
    requires !snapshot.resyncPending
    ensures var t := Round(p, s, ds, snapshot, nowMs);
            t.working == Synced(p, s.working, snapshot, nowMs) && t.live == s.live && t.channel == []
  {
    hide Synced, Plan;
    SendsNothing(Synced(p, s.working, snapshot, nowMs), nowMs);
    assert Next(p, s, Reconcile(ds, snapshot, nowMs)).channel == [];
  }

  /** ... and the next one is trusted. */
  lemma DoubtfulOnce(p: Policy, s: System, ds: seq<DesiredQuote>,
                     snap1: Snapshot, now1: nat, snap2: Snapshot, now2: nat)
    requires Idle(s) && Truthful(s, snap1) && !Trusted(Synced(p, s.working, snap1, now1))
    requires Truthful(Round(p, s, ds, snap1, now1), snap2)
    ensures Trusted(Synced(p, Round(p, s, ds, snap1, now1).working, snap2, now2))
  {
    hide Synced, Invariant, OrdersOf, Round;
    PlanSilentInDoubt(p, ds, Synced(p, s.working, snap1, now1), now1);
    DoubtfulRound(p, s, ds, snap1, now1);
    assert ObservedById(snap1.quotes).Keys == ObservedById(snap2.quotes).Keys;
    TwoPassesUnblock(p, s.working, snap1, snap2, now1, now2);
  }

  lemma SendsNothing(ws: seq<Quote>, nowMs: nat)
    ensures SendAll(ws, [], nowMs) == ws
  {
  }

  // ---- two rounds ----

  /** Each desired quote has one live order, the one the manager believes in, at its desired
      terms or not to be replaced at the time; nothing else is live. */
  ghost predicate Converged(p: Policy, s: System, ds: seq<DesiredQuote>, nowMs: nat) {
    var d := DesiredById(ds).at;
    forall id :: if id in d then ConvergedOne(p, s, d[id], nowMs, id) else OrdersOf(s.live, id) == []
  }

  ghost predicate ConvergedOne(p: Policy, s: System, wanted: DesiredQuote, nowMs: nat, id: string) {
    var q := Mine(s.working, id);
    && q.Some? && OrdersOf(s.live, id) == [q.value.terms]
    && (q.value.terms == wanted || !NeedsReplace(p, q.value, wanted, nowMs))
  }

  lemma TrustedRoundConverges(p: Policy, s: System, ds: seq<DesiredQuote>, snapshot: Snapshot, nowMs: nat)
    requires Idle(s) && Truthful(s, snapshot) && Trusted(Synced(p, s.working, snapshot, nowMs))
    ensures Converged(p, Round(p, s, ds, snapshot, nowMs), ds, nowMs)
  {
    hide Idle, Truthful, Trusted, Synced, Round, OrdersOf, NeedsReplace, WorkingById, DesiredById;
    var ws, t, d := Synced(p, s.working, snapshot, nowMs), Round(p, s, ds, snapshot, nowMs), DesiredById(ds).at;
    forall id
      ensures if id in d then ConvergedOne(p, t, d[id], nowMs, id) else OrdersOf(t.live, id) == []
    {
      TrustedRound(p, s, ds, snapshot, nowMs, id);
      WorkingEntry(ws, id);
    }
  }

  /** From any state of any run, once everything on its way has arrived, two rounds are enough. */
  lemma TwoRoundsConverge(p: Policy, s: System, ds: seq<DesiredQuote>,
                          snap1: Snapshot, now1: nat, snap2: Snapshot, now2: nat)
    requires Idle(s) && Truthful(s, snap1) && Truthful(Round(p, s, ds, snap1, now1), snap2)
    ensures var t := Round(p, Round(p, s, ds, snap1, now1), ds, snap2, now2);
            Idle(t) && Calm(t) && Converged(p, t, ds, now2)
  {
    hide Idle, Truthful, Trusted, Synced, Round, Calm, Converged;
    var one := Round(p, s, ds, snap1, now1);
    RoundKeepsIdle(p, s, ds, snap1, now1);
    RoundKeepsIdle(p, one, ds, snap2, now2);
    if Trusted(Synced(p, s.working, snap1, now1)) {
      TrustedRoundIsCalm(p, s, ds, snap1, now1);
      CalmTrusts(p, one, snap2, now2);
    } else {
      DoubtfulOnce(p, s, ds, snap1, now1, snap2, now2);
    }
    TrustedRoundIsCalm(p, one, ds, snap2, now2);
    TrustedRoundConverges(p, one, ds, snap2, now2);
  }

  // ---- silence ----

  /** The commands of a round. */
  function Said(p: Policy, s: System, ds: seq<DesiredQuote>, snapshot: Snapshot, nowMs: nat): seq<Command> {
    Plan(p, ds, Synced(p, s.working, snapshot, nowMs), nowMs)
  }

  /** From a converged state a round says nothing exactly when no quote is both materially
      different and due; and then nothing changes. */
  lemma SilentExactly(p: Policy, s: System, ds: seq<DesiredQuote>, before: nat, snapshot: Snapshot, nowMs: nat)
    requires Idle(s) && Calm(s) && Converged(p, s, ds, before) && Truthful(s, snapshot)
    ensures var d := DesiredById(ds).at;
            Said(p, s, ds, snapshot, nowMs) == [] <==>
            forall id | id in d :: !NeedsReplace(p, Mine(s.working, id).value, d[id], nowMs)
  {
    hide Idle, Calm, Truthful, Synced, Plan, For, NeedsReplace, Mine, OrdersOf, WorkingById, DesiredById;
    var cs, d := Said(p, s, ds, snapshot, nowMs), DesiredById(ds).at;
    CalmTrusts(p, s, snapshot, nowMs);
    forall id ensures For(cs, id) == [] <==> (id in d ==> !NeedsReplace(p, Mine(s.working, id).value, d[id], nowMs)) {
      SilentForOne(p, s, ds, before, snapshot, nowMs, id);
    }
    if forall id :: For(cs, id) == [] { ForNothing(cs); }
    if cs == [] { forall id ensures For(cs, id) == [] { ForSingle([], id); } }
  }

  lemma SilentForOne(p: Policy, s: System, ds: seq<DesiredQuote>, before: nat, snapshot: Snapshot, nowMs: nat,
                     id: string)
    requires Idle(s) && Converged(p, s, ds, before) && Truthful(s, snapshot)
    requires Trusted(Synced(p, s.working, snapshot, nowMs))
    ensures For(Said(p, s, ds, snapshot, nowMs), id) == [] <==>
            (id in DesiredById(ds).at ==> !NeedsReplace(p, Mine(s.working, id).value, DesiredById(ds).at[id], nowMs))
  {
    hide Synced, Plan, For, NeedsReplace, Mine, OrdersOf, WorkingById, DesiredById;
    hide SoundFor, Truthful, Trusted, SyncedQuote;
    var ws, d := Synced(p, s.working, snapshot, nowMs), DesiredById(ds).at;
    SyncedIdle(p, s, snapshot, nowMs, id);
    SyncedForOne(p, s.working, snapshot, nowMs, id);
    PlanForOne(p, ds, ws, nowMs, id);
    WorkingEntry(ws, id);
    MineHasId(s.working, id);
    if Mine(s.working, id).Some? {
      TruthfulSync(p, s, Mine(s.working, id).value, snapshot, nowMs);
      SameReplace(p, Mine(s.working, id).value, Mine(ws, id).value, nowMs);
    }
    if ds == [] { NothingToCancel(p, s, before, snapshot, nowMs); }
  }

  lemma SameReplace(p: Policy, q: Quote, r: Quote, nowMs: nat)
    requires q.terms == r.terms && q.lastCommandMs == r.lastCommandMs
    ensures forall d :: NeedsReplace(p, q, d, nowMs) <==> NeedsReplace(p, r, d, nowMs)
  {
    hide UnitsOf;
  }

  lemma NothingToCancel(p: Policy, s: System, before: nat, snapshot: Snapshot, nowMs: nat)
    requires Idle(s) && Converged(p, s, [], before) && Truthful(s, snapshot)
    ensures !AnyCancelable(Synced(p, s.working, snapshot, nowMs))
    ensures DesiredById([]).at == map[]
  {
    hide OrdersOf, Mine, Truthful;
    var ws := Synced(p, s.working, snapshot, nowMs);
    SyncedForOne(p, s.working, snapshot, nowMs, "");
    forall i | 0 <= i < |ws| ensures !ws[i].Cancelable() {
      MineAt(ws, i);
      SyncedIdle(p, s, snapshot, nowMs, ws[i].Id());
      assert OrdersOf(s.live, ws[i].Id()) == [];
    }
  }

  // ---- settled for good ----

  /** Converged, and no live order materially different from what is desired. */
  ghost predicate Settled(p: Policy, s: System, ds: seq<DesiredQuote>) {
    var d := DesiredById(ds).at;
    && Idle(s) && Calm(s)
    && forall id ::
         if id in d then
           var q := Mine(s.working, id);
           q.Some? && OrdersOf(s.live, id) == [q.value.terms] && !MaterialChange(p, q.value.terms, d[id])
         else OrdersOf(s.live, id) == []
  }

  ghost predicate CommandedBy(s: System, nowMs: nat) {
    forall id | Mine(s.working, id).Some? ::
      var last := Mine(s.working, id).value.lastCommandMs; last.Some? ==> last.value <= nowMs
  }

  lemma RoundCommanded(p: Policy, s: System, ds: seq<DesiredQuote>, snapshot: Snapshot, nowMs: nat)
    requires Idle(s) && Truthful(s, snapshot) && CommandedBy(s, nowMs)
    ensures CommandedBy(Round(p, s, ds, snapshot, nowMs), nowMs)
  {
    hide Idle, Truthful, Trusted, Synced, SyncedQuote, Round, Mine, OrdersOf;
    hide NeedsReplace, WorkingById, DesiredById, Plan;
    var ws, t := Synced(p, s.working, snapshot, nowMs), Round(p, s, ds, snapshot, nowMs);
    IdleFacts(s, snapshot);
    forall id | Mine(t.working, id).Some?
      ensures var last := Mine(t.working, id).value.lastCommandMs; last.Some? ==> last.value <= nowMs
    {
      SyncedForOne(p, s.working, snapshot, nowMs, id);
      if Mine(s.working, id).Some? { TruthfulSync(p, s, Mine(s.working, id).value, snapshot, nowMs); }
      if Trusted(ws) {
        TrustedRound(p, s, ds, snapshot, nowMs, id);
      } else {
        PlanSilentInDoubt(p, ds, ws, nowMs);
        DoubtfulRound(p, s, ds, snapshot, nowMs);
      }
    }
  }

  lemma IdleFacts(s: System, snapshot: Snapshot)
    requires Idle(s) && Truthful(s, snapshot)
    ensures Unique(s.working) && s.channel == [] && !snapshot.resyncPending
  {
  }

  predicate Discerning(p: Policy) {
    p.minPriceChangeUnits >= 1 && p.minSizeChangeUnits >= 1
  }

  lemma SameIsImmaterial(p: Policy, d: DesiredQuote)
    requires Discerning(p)
    ensures !MaterialChange(p, d, d)
  {
    hide UnitsOf;
  }

  /** One more round, a cooldown later, replaces what is still materially different. */
  lemma LateRoundSettles(p: Policy, s: System, ds: seq<DesiredQuote>, before: nat, snapshot: Snapshot, nowMs: nat)
    requires Discerning(p) && Idle(s) && Calm(s) && Truthful(s, snapshot)
    requires CommandedBy(s, before) && before + p.replaceCooldownMs <= nowMs
    ensures Settled(p, Round(p, s, ds, snapshot, nowMs), ds)
  {
    hide Idle, Calm, Truthful, Trusted, Synced, SyncedQuote, Round, Mine, OrdersOf;
    hide MaterialChange, WorkingById, DesiredById;
    var ws, t, d := Synced(p, s.working, snapshot, nowMs), Round(p, s, ds, snapshot, nowMs), DesiredById(ds).at;
    IdleFacts(s, snapshot);
    CalmTrusts(p, s, snapshot, nowMs);
    RoundKeepsIdle(p, s, ds, snapshot, nowMs);
    TrustedRoundIsCalm(p, s, ds, snapshot, nowMs);
    forall id
      ensures if id in d then
                var q := Mine(t.working, id);
                q.Some? && OrdersOf(t.live, id) == [q.value.terms] && !MaterialChange(p, q.value.terms, d[id])
              else OrdersOf(t.live, id) == []
    {
      TrustedRound(p, s, ds, snapshot, nowMs, id);
      WorkingEntry(ws, id);
      SyncedForOne(p, s.working, snapshot, nowMs, id);
      if Mine(s.working, id).Some? { TruthfulSync(p, s, Mine(s.working, id).value, snapshot, nowMs); }
      if id in d { SameIsImmaterial(p, d[id]); }
    }
  }

  /** From any state of any run, with thresholds of at least one: once everything on its way has
      arrived, three rounds with truthful snapshots, the last a cooldown after the second,
      settle whatever is desired. */
  lemma ThreeRoundsSettle(p: Policy, s: System, ds: seq<DesiredQuote>, snap1: Snapshot, now1: nat,
                          snap2: Snapshot, now2: nat, snap3: Snapshot, now3: nat)
    requires Discerning(p) && Invariant(s) && CommandedBy(s, now1)
    requires now1 <= now2 && now2 + p.replaceCooldownMs <= now3
    requires var zero := Drained(p, s);
             var one := Round(p, zero, ds, snap1, now1);
             var two := Round(p, one, ds, snap2, now2);
             Truthful(zero, snap1) && Truthful(one, snap2) && Truthful(two, snap3)
    ensures var two := Round(p, Round(p, Drained(p, s), ds, snap1, now1), ds, snap2, now2);
            Settled(p, Round(p, two, ds, snap3, now3), ds)
  {
    hide Invariant, Idle, Calm, Truthful, Round, Drained, Converged, Settled, CommandedBy;
    var zero := Drained(p, s);
    var one := Round(p, zero, ds, snap1, now1);
    DrainedIsIdle(p, s);
    DrainedIs(p, s, "");
    SameCommands(s, zero, now1, now1);
    RoundKeepsIdle(p, zero, ds, snap1, now1);
    RoundCommanded(p, zero, ds, snap1, now1);
    SameCommands(one, one, now1, now2);
    RoundCommanded(p, one, ds, snap2, now2);
    TwoRoundsConverge(p, zero, ds, snap1, now1, snap2, now2);
    LateRoundSettles(p, Round(p, one, ds, snap2, now2), ds, now2, snap3, now3);
  }

  lemma SameCommands(s: System, t: System, before: nat, after: nat)
    requires CommandedBy(s, before) && s.working == t.working && before <= after
    ensures CommandedBy(t, after)
  {
  }

  /** And then all is silent for good: truthful rounds at any times say nothing and change
      nothing. */
  lemma SettledRound(p: Policy, s: System, ds: seq<DesiredQuote>, snapshot: Snapshot, nowMs: nat)
    requires Settled(p, s, ds) && Truthful(s, snapshot)
    ensures Said(p, s, ds, snapshot, nowMs) == [] && Round(p, s, ds, snapshot, nowMs).live == s.live
    ensures Settled(p, Round(p, s, ds, snapshot, nowMs), ds)
  {
    hide Idle, Calm, Truthful, Synced, SyncedQuote, Round, Mine, OrdersOf, MaterialChange, DesiredById, Plan;
    var t, d := Round(p, s, ds, snapshot, nowMs), DesiredById(ds).at;
    IdleFacts(s, snapshot);
    assert Converged(p, s, ds, nowMs);
    SilentExactly(p, s, ds, nowMs, snapshot, nowMs);
    DoubtfulRound(p, s, ds, snapshot, nowMs);
    CalmTrusts(p, s, snapshot, nowMs);
    RoundKeepsIdle(p, s, ds, snapshot, nowMs);
    TrustedRoundIsCalm(p, s, ds, snapshot, nowMs);
    forall id | id in d
      ensures var q := Mine(t.working, id);
              q.Some? && OrdersOf(t.live, id) == [q.value.terms] && !MaterialChange(p, q.value.terms, d[id])
    {
      SyncedForOne(p, s.working, snapshot, nowMs, id);
      TruthfulSync(p, s, Mine(s.working, id).value, snapshot, nowMs);
    }
  }

  function Rounds(p: Policy, s: System, ds: seq<DesiredQuote>, rounds: seq<(Snapshot, nat)>): System
    decreases |rounds|
  {
    if rounds == [] then s else Rounds(p, Round(p, s, ds, rounds[0].0, rounds[0].1), ds, rounds[1..])
  }

  function AllSaid(p: Policy, s: System, ds: seq<DesiredQuote>, rounds: seq<(Snapshot, nat)>): seq<Command>
    decreases |rounds|
  {
    if rounds == [] then []
    else
      var (snapshot, nowMs) := rounds[0];
      Said(p, s, ds, snapshot, nowMs) + AllSaid(p, Round(p, s, ds, snapshot, nowMs), ds, rounds[1..])
  }

  ghost predicate AllTruthful(p: Policy, s: System, ds: seq<DesiredQuote>, rounds: seq<(Snapshot, nat)>)
    decreases |rounds|
  {
    rounds != [] ==>
      && Truthful(s, rounds[0].0)
      && AllTruthful(p, Round(p, s, ds, rounds[0].0, rounds[0].1), ds, rounds[1..])
  }

  lemma {:induction false} SettledForGood(p: Policy, s: System, ds: seq<DesiredQuote>, rounds: seq<(Snapshot, nat)>)
    requires Settled(p, s, ds) && AllTruthful(p, s, ds, rounds)
    ensures AllSaid(p, s, ds, rounds) == [] && Rounds(p, s, ds, rounds).live == s.live
    decreases |rounds|
  {
    hide Settled, Truthful, Round, Said;
    if rounds != [] {
      SettledRound(p, s, ds, rounds[0].0, rounds[0].1);
      SettledForGood(p, Round(p, s, ds, rounds[0].0, rounds[0].1), ds, rounds[1..]);
    }
  }
}
