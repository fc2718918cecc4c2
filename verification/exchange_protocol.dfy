/** The order manager and the exchange as one system. Commands travel to the exchange in a
    first-in first-out channel; the exchange accepts, refuses or finishes orders on its own;
    the manager only learns about that through snapshots. */
module ExchangeProtocol {
  import opened Text
  import opened WorkingQuotes
  import opened OrderManager
  import opened PlanProperties

  /** `live` lists every order resting on the exchange, two orders of one quote included. */
  datatype System = System(
    working: seq<Quote>, seenFills: set<string>, channel: seq<Command>, live: seq<DesiredQuote>)

  datatype Step =
    | Reconcile(desired: seq<DesiredQuote>, snapshot: Snapshot, nowMs: nat)
    | Deliver
    | Lose
    | Finish(index: nat)

  const INITIAL := System([], {}, [], [])

  // ---- the exchange ----

  function OrdersOf(live: seq<DesiredQuote>, id: string): seq<DesiredQuote> {
    if live == [] then []
    else if live[|live| - 1].quoteId == id then OrdersOf(live[..|live| - 1], id) + [live[|live| - 1]]
    else OrdersOf(live[..|live| - 1], id)
  }

  function Others(live: seq<DesiredQuote>, id: string): seq<DesiredQuote> {
    if live == [] then []
    else if live[|live| - 1].quoteId == id then Others(live[..|live| - 1], id)
    else Others(live[..|live| - 1], id) + [live[|live| - 1]]
  }

  function Effected(live: seq<DesiredQuote>, c: Command): seq<DesiredQuote> {
    match c
    case Place(d) => live + [d]
    case Cancel(x) => Others(live, x)
    case CancelAll => []
  }

  /** The last order of a quote still on its way, if any. */
  function LastPlace(f: seq<Command>): Option<DesiredQuote> {
    if f == [] then None
    else if f[|f| - 1].Place? then Some(f[|f| - 1].quote)
    else LastPlace(f[..|f| - 1])
  }

  /** Nothing of this quote is live and nothing on its way can make it so. */
  predicate Quiet(s: System, id: string) {
    OrdersOf(s.live, id) == [] && LastPlace(For(s.channel, id)).None?
  }

  predicate SaysDead(o: Observed) {
    o.state.SeenCanceled? || o.state.SeenRejected?
  }

  /** When the snapshot makes the manager stop counting a quote as possibly live: it is reported
      dead, or an authoritative list leaves it out while its cancel is pending, while it is in
      doubt, or after its timeout. */
  predicate GivesUp(p: Policy, s: System, snapshot: Snapshot, nowMs: nat, id: string) {
    var q, seen := Mine(s.working, id), ObservedById(snapshot.quotes);
    && q.Some? && q.value.MaybeLive() && !snapshot.resyncPending
    && if id in seen then SaysDead(seen[id]) else snapshot.authoritative && Abandoned(p, q.value, nowMs)
  }

  predicate Abandoned(p: Policy, q: Quote, nowMs: nat) {
    q.state.PendingCancel? || q.Blocks() || TimedOut(q, p.submitTimeoutMs, p.cancelTimeoutMs, nowMs)
  }

  /** All that a snapshot is relied on for: a quote the manager gives up because of it is
      quiet. A snapshot that merely raises a doubt may be wrong. */
  ghost predicate Reliable(p: Policy, s: System, snapshot: Snapshot, nowMs: nat) {
    forall id | GivesUp(p, s, snapshot, nowMs, id) :: Quiet(s, id)
  }

  predicate NextIsPlace(f: seq<Command>) {
    f != [] && f[0].Place?
  }

  ghost predicate Allowed(p: Policy, s: System, step: Step) {
    match step
    case Reconcile(_, snapshot, nowMs) => Reliable(p, s, snapshot, nowMs)
    case Deliver => s.channel != []
    case Lose =>
      // a place may be refused or lost; a cancel only when nothing of the quote is live or the
      // quote's next command is not a place
      && s.channel != []
      && (s.channel[0].Place? ||
          forall id | Concerns(s.channel[0], id) ::
            OrdersOf(s.live, id) == [] || !NextIsPlace(For(s.channel[1..], id)))
    case Finish(i) => i < |s.live|
  }

  function Next(p: Policy, s: System, step: Step): System
    requires step.Deliver? || step.Lose? ==> s.channel != []
    requires step.Finish? ==> step.index < |s.live|
  {
    match step
    case Reconcile(desired, snapshot, nowMs) =>
      var o := Reconciled(p, s.seenFills, desired, s.working, snapshot, nowMs);
      System(SendAll(o.working, o.commands, nowMs), s.seenFills + FillIds(snapshot.fills),
             s.channel + o.commands, s.live)
    case Deliver => s.(channel := s.channel[1..], live := Effected(s.live, s.channel[0]))
    case Lose => s.(channel := s.channel[1..])
    case Finish(i) => s.(live := s.live[..i] + s.live[i + 1..])
  }

  ghost predicate AllowedRun(p: Policy, s: System, steps: seq<Step>)
    decreases |steps|
  {
    steps == [] || (Allowed(p, s, steps[0]) && AllowedRun(p, Next(p, s, steps[0]), steps[1..]))
  }

  function Run(p: Policy, s: System, steps: seq<Step>): System
    requires AllowedRun(p, s, steps)
    decreases |steps|
  {
    if steps == [] then s else Run(p, Next(p, s, steps[0]), steps[1..])
  }

  // ---- the invariant, one quote at a time ----

  function After(n: nat, c: Command): nat {
    if c.Place? then n + 1 else 0
  }

  /** With n live orders now, delivering these commands never makes two live at once. */
  predicate Settles(n: nat, f: seq<Command>)
    decreases |f|
  {
    n <= 1 && (f != [] ==> Settles(After(n, f[0]), f[1..]))
  }

  function End(n: nat, f: seq<Command>): nat
    decreases |f|
  {
    if f == [] then n else End(After(n, f[0]), f[1..])
  }

  predicate Agrees(d: DesiredQuote, orders: seq<DesiredQuote>, f: seq<Command>) {
    match LastPlace(f)
    case Some(last) => last == d
    case None => forall i | 0 <= i < |orders| :: orders[i] == d
  }

  /** One quote: at most one order at any time, and unless it is quiet the manager still counts
      it as possibly live, under the very terms that are live or on their way. */
  predicate Sound(q: Option<Quote>, orders: seq<DesiredQuote>, f: seq<Command>) {
    && Settles(|orders|, f)
    && (|| (orders == [] && LastPlace(f).None?)
        || (q.Some? && q.value.MaybeLive() && Agrees(q.value.terms, orders, f)))
  }

  predicate SoundFor(s: System, id: string) {
    Sound(Mine(s.working, id), OrdersOf(s.live, id), For(s.channel, id))
  }

  ghost predicate Invariant(s: System) {
    Unique(s.working) && forall id :: SoundFor(s, id)
  }

  lemma {:induction false} SettlesFewer(m: nat, n: nat, f: seq<Command>)
    requires m <= n && Settles(n, f)
    ensures Settles(m, f)
    decreases |f|
  {
    if f != [] { SettlesFewer(After(m, f[0]), After(n, f[0]), f[1..]); }
  }

  lemma {:induction false} SettlesAppend(n: nat, f: seq<Command>, g: seq<Command>)
    ensures Settles(n, f + g) <==> Settles(n, f) && Settles(End(n, f), g)
    decreases |f|
  {
    if f == [] {
      assert f + g == g;
      if g != [] { assert Settles(n, g) ==> n <= 1; }
    } else {
      SettlesAppend(After(n, f[0]), f[1..], g);
      assert (f + g)[1..] == f[1..] + g;
    }
  }

  lemma {:induction false} NoPlaceSettles(n: nat, f: seq<Command>)
    requires LastPlace(f).None? && n <= 1
    ensures Settles(n, f) && End(n, f) <= n
    decreases |f|
  {
    if f != [] {
      LastPlaceAppend([f[0]], f[1..]);
      assert [f[0]] + f[1..] == f;
      assert [f[0]][..0] == [];
      NoPlaceSettles(After(n, f[0]), f[1..]);
    }
  }

  lemma {:induction false} LastPlaceAppend(f: seq<Command>, g: seq<Command>)
    ensures LastPlace(f + g) == if LastPlace(g).Some? then LastPlace(g) else LastPlace(f)
  {
    if g == [] {
      assert f + g == f;
    } else {
      LastPlaceAppend(f, g[..|g| - 1]);
      assert (f + g)[..|f + g| - 1] == f + g[..|g| - 1];
    }
  }

  lemma {:induction false} SettlesEnd(n: nat, f: seq<Command>)
    requires Settles(n, f)
    ensures End(n, f) <= 1
    decreases |f|
  {
    if f != [] { SettlesEnd(After(n, f[0]), f[1..]); }
  }

  /** The five things a plan can say about a quote. */
  predicate PlanShape(q: Option<Quote>, g: seq<Command>, id: string) {
    || g == []
    || (g == [Cancel(id)] && q.Some? && q.value.Cancelable())
    || g == [CancelAll]
    || (|g| == 1 && g[0].Place? && g[0].quote.quoteId == id && (q.None? || !q.value.Cancelable()))
    || (|g| == 2 && g[0] == Cancel(id) && g[1].Place? && g[1].quote.quoteId == id)
  }

  /** Planning: whatever the plan says about a quote keeps it sound. */
  lemma PlanKeepsSound(q: Option<Quote>, orders: seq<DesiredQuote>, f: seq<Command>, g: seq<Command>,
                       nowMs: nat, id: string)
    requires Sound(q, orders, f) && PlanShape(q, g, id)
    requires q.Some? ==> q.value.Id() == id && !q.value.Blocks()
    ensures Sound(SentAllFor(q, g, nowMs, id), orders, f + g)
  {
    hide Settles, SentAllFor;
    if g == [] {
      assert f + g == f && SentAllFor(q, [], nowMs, id) == q by { SentNone(q, nowMs, id); }
    } else {
      assert Settles(|orders|, f + g) by { PlanSettles(q, orders, f, g, id); }
      LastPlaceAppend(f, g);
      LastPlaceShort(g);
      SentLast(q, g, nowMs, id);
    }
  }

  lemma SentNone(q: Option<Quote>, nowMs: nat, id: string)
    ensures SentAllFor(q, [], nowMs, id) == q
  {
  }

  lemma LastPlaceShort(g: seq<Command>)
    requires g != [] && (|g| == 1 || g[|g| - 1].Place?)
    ensures LastPlace(g) == if g[|g| - 1].Place? then Some(g[|g| - 1].quote) else None
  {
    if |g| == 1 { assert g[..0] == []; }
  }

  lemma SentLast(q: Option<Quote>, g: seq<Command>, nowMs: nat, id: string)
    requires g != [] && PlanShape(q, g, id)
    ensures SentAllFor(q, g, nowMs, id) ==
            if g[|g| - 1].Place? then Some(Submitted(g[|g| - 1].quote, nowMs)) else SentFor(q, g[0], nowMs, id)
  {
    SentAllSnoc(q, g[..|g| - 1], g[|g| - 1], nowMs, id);
    assert g[..|g| - 1] + [g[|g| - 1]] == g;
    if |g| == 1 { assert g[..0] == []; }
  }

  lemma PlanSettles(q: Option<Quote>, orders: seq<DesiredQuote>, f: seq<Command>, g: seq<Command>, id: string)
    requires Sound(q, orders, f) && PlanShape(q, g, id) && g != []
    requires q.Some? ==> !q.value.Blocks()
    ensures Settles(|orders|, f + g)
  {
    SettlesAppend(|orders|, f, g);
    SettlesEnd(|orders|, f);
    if |g| == 1 && g[0].Place? { NoPlaceSettles(|orders|, f); }
    ShortSettles(End(|orders|, f), g);
  }

  lemma ShortSettles(n: nat, g: seq<Command>)
    requires n <= 1 && 1 <= |g| <= 2
    requires |g| == 1 && g[0].Place? ==> n == 0
    requires |g| == 2 ==> !g[0].Place?
    ensures Settles(n, g)
  {
    assert Settles(After(n, g[0]), g[1..]) by {
      if |g| == 2 { assert g[1..][1..] == [] && g[1..][0] == g[1]; }
    }
  }

  /** Delivering the next command of a quote. */
  lemma DeliverKeepsSound(q: Option<Quote>, orders: seq<DesiredQuote>, f: seq<Command>)
    requires f != [] && Sound(q, orders, f)
    ensures Sound(q, if f[0].Place? then orders + [f[0].quote] else [], f[1..])
  {
    LastPlaceAppend([f[0]], f[1..]);
    assert [f[0]] + f[1..] == f;
    assert [f[0]][..0] == [];
  }

  /** Losing it: harmless exactly for a place, for a quote with nothing live, or when the next
      command is not a place. */
  lemma LoseKeepsSound(q: Option<Quote>, orders: seq<DesiredQuote>, f: seq<Command>)
    requires f != [] && Sound(q, orders, f)
    ensures Sound(q, orders, f[1..]) <==> f[0].Place? || orders == [] || !NextIsPlace(f[1..])
  {
    LastPlaceAppend([f[0]], f[1..]);
    assert [f[0]] + f[1..] == f;
    assert [f[0]][..0] == [];
    LoseSettles(|orders|, f);
  }

  lemma LoseSettles(n: nat, f: seq<Command>)
    requires f != [] && Settles(n, f)
    ensures Settles(n, f[1..]) <==> f[0].Place? || n == 0 || !NextIsPlace(f[1..])
    ensures f[0].Place? ==> n == 0
  {
    var rest := f[1..];
    assert Settles(After(n, f[0]), rest);
    if f[0].Place? {
      SettlesFewer(n, n + 1, rest);
    } else if rest != [] {
      assert Settles(0, rest);
      if rest[0].Place? && n == 1 { assert !Settles(2, rest[1..]); }
    }
  }

  /** Orders ending on their own. */
  lemma FewerKeepsSound(q: Option<Quote>, orders: seq<DesiredQuote>, fewer: seq<DesiredQuote>, f: seq<Command>)
    requires Sound(q, orders, f) && |fewer| <= |orders| && forall o | o in fewer :: o in orders
    ensures Sound(q, fewer, f)
  {
    SettlesFewer(|fewer|, |orders|, f);
    assert forall i | 0 <= i < |fewer| :: fewer[i] in fewer;
  }

  // ---- the live orders of one quote ----

  lemma {:induction false} OrdersOfAppend(a: seq<DesiredQuote>, b: seq<DesiredQuote>, id: string)
    ensures OrdersOf(a + b, id) == OrdersOf(a, id) + OrdersOf(b, id)
  {
    if b == [] {
      assert a + b == a;
    } else {
      var n := |b| - 1;
      OrdersOfAppend(a, b[..n], id);
      assert (a + b)[..|a + b| - 1] == a + b[..n];
    }
  }

  lemma OrdersOfSingle(d: DesiredQuote, id: string)
    ensures OrdersOf([d], id) == if d.quoteId == id then [d] else []
  {
    assert [d][..0] == [];
  }

  lemma {:induction false} OrdersOfOthers(live: seq<DesiredQuote>, x: string, id: string)
    ensures OrdersOf(Others(live, x), id) == if id == x then [] else OrdersOf(live, id)
  {
    if live != [] {
      var n := |live| - 1;
      OrdersOfOthers(live[..n], x, id);
      OrdersOfAppend(Others(live[..n], x), [live[n]], id);
      OrdersOfSingle(live[n], id);
    }
  }

  lemma EffectForOne(live: seq<DesiredQuote>, c: Command, id: string)
    ensures OrdersOf(Effected(live, c), id) ==
            if !Concerns(c, id) then OrdersOf(live, id)
            else if c.Place? then OrdersOf(live, id) + [c.quote]
            else []
  {
    if c.Place? {
      OrdersOfAppend(live, [c.quote], id);
      OrdersOfSingle(c.quote, id);
    } else if c.Cancel? {
      OrdersOfOthers(live, c.quoteId, id);
    }
  }

  lemma ForHead(ch: seq<Command>, id: string)
    requires ch != []
    ensures For(ch, id) == (if Concerns(ch[0], id) then [ch[0]] else []) + For(ch[1..], id)
  {
    ForAppend([ch[0]], ch[1..], id);
    ForSingle([ch[0]], id);
    assert [ch[0]] + ch[1..] == ch;
  }

  // ---- every step keeps the invariant ----

  /** What a snapshot makes of one quote. */
  function SyncedQuote(p: Policy, q: Quote, snapshot: Snapshot, nowMs: nat): Quote {
    var seen := ObservedById(snapshot.quotes);
    if snapshot.resyncPending then Stale(q, snapshot.observedAtMs)
    else SyncOne(p, q, if q.Id() in seen then Some(seen[q.Id()]) else None, snapshot, nowMs)
  }

  lemma SyncedForOne(p: Policy, ws: seq<Quote>, snapshot: Snapshot, nowMs: nat, id: string)
    requires Unique(ws)
    ensures Unique(Synced(p, ws, snapshot, nowMs))
    ensures Mine(Synced(p, ws, snapshot, nowMs), id) ==
            if Mine(ws, id).Some? then Some(SyncedQuote(p, Mine(ws, id).value, snapshot, nowMs)) else None
  {
    hide SyncOne;
    var synced := Synced(p, ws, snapshot, nowMs);
    MineNone(ws, id);
    MineNone(synced, id);
    if Mine(ws, id).Some? {
      var i := MineFrom(ws, id);
      MineAt(synced, i);
      if snapshot.resyncPending {
        assert synced[i] == Stale(ws[i], snapshot.observedAtMs);
      } else {
        assert synced[i] == SyncAt(p, ws, i, snapshot, nowMs);
        assert NoneBefore(ws, i, id);
      }
    }
  }

  /** Giving a quote up is exactly what synchronizing does to it then, and to no other. */
  lemma GivesUpExactly(p: Policy, s: System, snapshot: Snapshot, nowMs: nat, id: string)
    requires Unique(s.working)
    ensures var q, r := Mine(s.working, id), Mine(Synced(p, s.working, snapshot, nowMs), id);
            && (q.None? <==> r.None?)
            && (q.Some? ==> r.value.terms == q.value.terms)
            && (GivesUp(p, s, snapshot, nowMs, id) <==> q.Some? && q.value.MaybeLive() && !r.value.MaybeLive())
  {
    hide Synced, SyncedQuote, Mine, Abandoned;
    SyncedForOne(p, s.working, snapshot, nowMs, id);
    MineHasId(s.working, id);
    if Mine(s.working, id).Some? {
      SyncLosesLife(p, Mine(s.working, id).value, snapshot, nowMs);
    }
  }

  lemma SyncLosesLife(p: Policy, q: Quote, snapshot: Snapshot, nowMs: nat)
    ensures var r, seen := SyncedQuote(p, q, snapshot, nowMs), ObservedById(snapshot.quotes);
            && r.terms == q.terms
            && (q.MaybeLive() ==> (!r.MaybeLive() <==>
                  && !snapshot.resyncPending
                  && if q.Id() in seen then SaysDead(seen[q.Id()])
                     else snapshot.authoritative && Abandoned(p, q, nowMs)))
  {
    hide SyncOne, TimedOut;
    if !snapshot.resyncPending {
      if q.Id() in ObservedById(snapshot.quotes) {
        ObservedLosesLife(p, q, ObservedById(snapshot.quotes)[q.Id()], snapshot, nowMs);
      } else {
        AbsentLosesLife(p, q, snapshot, nowMs);
      }
    }
  }

  lemma ObservedLosesLife(p: Policy, q: Quote, o: Observed, s: Snapshot, nowMs: nat)
    ensures SyncOne(p, q, Some(o), s, nowMs).terms == q.terms
    ensures q.MaybeLive() ==> (!SyncOne(p, q, Some(o), s, nowMs).MaybeLive() <==> SaysDead(o))
  {
  }

  lemma AbsentLosesLife(p: Policy, q: Quote, s: Snapshot, nowMs: nat)
    ensures SyncOne(p, q, None, s, nowMs).terms == q.terms
    ensures q.MaybeLive() ==>
              (!SyncOne(p, q, None, s, nowMs).MaybeLive() <==> s.authoritative && Abandoned(p, q, nowMs))
  {
  }

  lemma SyncKeepsSound(p: Policy, s: System, snapshot: Snapshot, nowMs: nat, id: string)
    requires Invariant(s) && Reliable(p, s, snapshot, nowMs)
    ensures Sound(Mine(Synced(p, s.working, snapshot, nowMs), id), OrdersOf(s.live, id), For(s.channel, id))
  {
    hide Synced, Mine, For, Settles;
    assert SoundFor(s, id);
    GivesUpExactly(p, s, snapshot, nowMs, id);
    assert GivesUp(p, s, snapshot, nowMs, id) ==> Quiet(s, id);
  }

  /** What a plan over a trusted working set may say about one quote. */
  lemma PlanShapes(p: Policy, ds: seq<DesiredQuote>, ws: seq<Quote>, nowMs: nat, id: string)
    requires Unique(ws) && Trusted(ws)
    ensures var q, g := Mine(ws, id), For(Plan(p, ds, ws, nowMs), id);
            && (q.Some? ==> q.value.Id() == id && !q.value.Blocks())
            && PlanShape(q, g, id)
  {
    hide NeedsReplace, Plan, For;
    PlanForOne(p, ds, ws, nowMs, id);
    if Mine(ws, id).Some? { var i := MineFrom(ws, id); }
  }

  lemma ReconcileKeepsSound(p: Policy, s: System, step: Step, id: string)
    requires step.Reconcile? && Invariant(s) && Allowed(p, s, step)
    ensures SoundFor(Next(p, s, step), id)
  {
    hide Plan, Synced, For, Sound, SendAll, Mine;
    var o := Reconciled(p, s.seenFills, step.desired, s.working, step.snapshot, step.nowMs);
    var f, g := For(s.channel, id), For(o.commands, id);
    SyncKeepsSound(p, s, step.snapshot, step.nowMs, id);
    GivesUpExactly(p, s, step.snapshot, step.nowMs, id);
    SendAllForOne(o.working, o.commands, step.nowMs, id);
    ForAppend(s.channel, o.commands, id);
    PlanSilentInDoubt(p, step.desired, o.working, step.nowMs);
    if Trusted(o.working) && !step.snapshot.resyncPending {
      PlanShapes(p, step.desired, o.working, step.nowMs, id);
      PlanKeepsSound(Mine(o.working, id), OrdersOf(s.live, id), f, g, step.nowMs, id);
    } else {
      assert o.commands == [];
      ForSingle([], id);
      assert f + g == f;
    }
  }

  lemma PlanSilentInDoubt(p: Policy, ds: seq<DesiredQuote>, ws: seq<Quote>, nowMs: nat)
    ensures !Trusted(ws) ==> Plan(p, ds, ws, nowMs) == []
  {
  }

  lemma DeliverKeepsSoundFor(p: Policy, s: System, id: string)
    requires Invariant(s) && s.channel != []
    ensures SoundFor(Next(p, s, Deliver), id)
  {
    hide Sound, Mine;
    assert SoundFor(s, id);
    var c, f := s.channel[0], For(s.channel, id);
    ForHead(s.channel, id);
    EffectForOne(s.live, c, id);
    if Concerns(c, id) {
      assert f[1..] == For(s.channel[1..], id);
      DeliverKeepsSound(Mine(s.working, id), OrdersOf(s.live, id), f);
    } else {
      assert f == For(s.channel[1..], id);
    }
  }

  lemma LoseKeepsSoundFor(p: Policy, s: System, id: string)
    requires Invariant(s) && s.channel != []
    ensures SoundFor(Next(p, s, Lose), id) <==>
            || s.channel[0].Place? || !Concerns(s.channel[0], id)
            || OrdersOf(s.live, id) == [] || !NextIsPlace(For(s.channel[1..], id))
  {
    hide Sound, Mine, NextIsPlace;
    assert SoundFor(s, id);
    var c, f := s.channel[0], For(s.channel, id);
    ForHead(s.channel, id);
    if Concerns(c, id) {
      assert f[1..] == For(s.channel[1..], id);
      LoseKeepsSound(Mine(s.working, id), OrdersOf(s.live, id), f);
    } else {
      assert f == For(s.channel[1..], id);
    }
  }

  lemma FinishKeepsSound(p: Policy, s: System, i: nat, id: string)
    requires Invariant(s) && i < |s.live|
    ensures SoundFor(Next(p, s, Finish(i)), id)
  {
    hide Sound, Mine, For, OrdersOf;
    assert SoundFor(s, id);
    var a, b := s.live[..i], s.live[i + 1..];
    OrdersOfAppend(a, [s.live[i]] + b, id);
    OrdersOfAppend([s.live[i]], b, id);
    OrdersOfAppend(a, b, id);
    assert a + ([s.live[i]] + b) == s.live;
    FewerKeepsSound(Mine(s.working, id), OrdersOf(s.live, id), OrdersOf(a + b, id), For(s.channel, id));
  }

  lemma StepKeepsInvariant(p: Policy, s: System, step: Step)
    requires Invariant(s) && Allowed(p, s, step)
    ensures Invariant(Next(p, s, step))
  {
    hide SoundFor;
    var t := Next(p, s, step);
    forall id ensures SoundFor(t, id) {
      match step
      case Reconcile(_, _, _) => ReconcileKeepsSound(p, s, step, id);
      case Finish(i) => FinishKeepsSound(p, s, i, id);
      case Deliver => DeliverKeepsSoundFor(p, s, id);
      case Lose => LoseKeepsSoundFor(p, s, id);
    }
    if step.Reconcile? {
      var o := Reconciled(p, s.seenFills, step.desired, s.working, step.snapshot, step.nowMs);
      SyncedForOne(p, s.working, step.snapshot, step.nowMs, "");
      SendAllKeepsUnique(o.working, o.commands, step.nowMs);
    }
  }

  lemma {:induction false} RunKeepsInvariant(p: Policy, s: System, steps: seq<Step>)
    requires Invariant(s) && AllowedRun(p, s, steps)
    ensures Invariant(Run(p, s, steps))
    decreases |steps|
  {
    if steps != [] {
      StepKeepsInvariant(p, s, steps[0]);
      RunKeepsInvariant(p, Next(p, s, steps[0]), steps[1..]);
    }
  }

  lemma InitialInvariant()
    ensures Invariant(INITIAL)
  {
  }

  // ---- safety ----

  /** At most one live order of each quote, and the manager counts its quote as possibly live. */
  ghost predicate Safe(s: System) {
    && (forall i, j | 0 <= i < j < |s.live| :: s.live[i].quoteId != s.live[j].quoteId)
    && (forall i | 0 <= i < |s.live| :: Watched(s, s.live[i].quoteId))
  }

  predicate Watched(s: System, id: string) {
    Mine(s.working, id).Some? && Mine(s.working, id).value.MaybeLive()
  }

  lemma {:induction false} OrderCounted(live: seq<DesiredQuote>, i: nat)
    requires i < |live|
    ensures live[i] in OrdersOf(live, live[i].quoteId)
    ensures forall j | i < j < |live| && live[j].quoteId == live[i].quoteId :: |OrdersOf(live, live[i].quoteId)| >= 2
  {
    var n := |live| - 1;
    if i < n {
      OrderCounted(live[..n], i);
    }
  }

  lemma InvariantIsSafe(s: System)
    requires Invariant(s)
    ensures Safe(s)
  {
    forall i | 0 <= i < |s.live|
      ensures forall j | i < j < |s.live| :: s.live[i].quoteId != s.live[j].quoteId
      ensures Watched(s, s.live[i].quoteId)
    {
      OrderCounted(s.live, i);
      assert SoundFor(s, s.live[i].quoteId);
    }
  }

  /** Every state of every run is safe; and once no further order of a quote is on its way, its
      live order rests at exactly the terms the manager believes. */
  lemma RunsAreSafe(p: Policy, steps: seq<Step>)
    requires AllowedRun(p, INITIAL, steps)
    ensures var s := Run(p, INITIAL, steps);
            && Safe(s)
            && (forall i | 0 <= i < |s.live| && LastPlace(For(s.channel, s.live[i].quoteId)).None? ::
                  Mine(s.working, s.live[i].quoteId).value.terms == s.live[i])
  {
    InitialInvariant();
    RunKeepsInvariant(p, INITIAL, steps);
    var s := Run(p, INITIAL, steps);
    InvariantIsSafe(s);
    forall i | 0 <= i < |s.live| && LastPlace(For(s.channel, s.live[i].quoteId)).None?
      ensures Mine(s.working, s.live[i].quoteId).value.terms == s.live[i]
    {
      assert Watched(s, s.live[i].quoteId);
      OrderCounted(s.live, i);
      assert SoundFor(s, s.live[i].quoteId);
    }
  }

  // ---- the conditions on snapshots and losses are exact ----

  /** The next n commands arrive. */
  function Delivered(p: Policy, s: System, n: nat): System
    requires n <= |s.channel|
    decreases n
  {
    if n == 0 then s else Delivered(p, Next(p, s, Deliver), n - 1)
  }

  /** Safe now and while what is already on its way arrives. */
  ghost predicate SafeAhead(p: Policy, s: System) {
    forall n: nat | n <= |s.channel| :: Safe(Delivered(p, s, n))
  }

  lemma {:induction false} DeliveriesKeepInvariant(p: Policy, s: System, n: nat)
    requires Invariant(s) && n <= |s.channel|
    ensures Invariant(Delivered(p, s, n))
    decreases n
  {
    hide Invariant, Next;
    if n > 0 {
      DeliverShortens(p, s);
      StepKeepsInvariant(p, s, Deliver);
      DeliveriesKeepInvariant(p, Next(p, s, Deliver), n - 1);
    }
  }

  lemma DeliverShortens(p: Policy, s: System)
    requires s.channel != []
    ensures var t := Next(p, s, Deliver);
            t.channel == s.channel[1..] && t.working == s.working && t.live == Effected(s.live, s.channel[0])
  {
  }

  lemma InvariantIsSafeAhead(p: Policy, s: System)
    requires Invariant(s)
    ensures SafeAhead(p, s)
  {
    forall n: nat | n <= |s.channel| ensures Safe(Delivered(p, s, n)) {
      DeliveriesKeepInvariant(p, s, n);
      InvariantIsSafe(Delivered(p, s, n));
    }
  }

  lemma {:induction false} OrdersListed(live: seq<DesiredQuote>, id: string)
    ensures OrdersOf(live, id) != [] ==> exists i :: 0 <= i < |live| && live[i].quoteId == id
    ensures |OrdersOf(live, id)| >= 2 ==>
              exists i, j :: 0 <= i < j < |live| && live[i].quoteId == id && live[j].quoteId == id
  {
    if live != [] {
      var n := |live| - 1;
      OrdersListed(live[..n], id);
      if i :| 0 <= i < n && live[..n][i].quoteId == id { assert live[i].quoteId == id; }
      if i, j :| 0 <= i < j < n && live[..n][i].quoteId == id && live[..n][j].quoteId == id {
        assert live[i].quoteId == id && live[j].quoteId == id;
      }
    }
  }

  /** An order on its way becomes live at some point. */
  lemma {:induction false} OrderArrives(p: Policy, s: System, id: string) returns (n: nat)
    requires !Quiet(s, id)
    ensures n <= |s.channel| && Delivered(p, s, n).working == s.working
    ensures OrdersOf(Delivered(p, s, n).live, id) != []
    decreases |s.channel|
  {
    hide Next, OrdersOf, LastPlace, For;
    if OrdersOf(s.live, id) != [] {
      n := 0;
    } else {
      NothingComes(s, id);
      var t := Next(p, s, Deliver);
      DeliverShortens(p, s);
      QuietAfter(s, id);
      n := OrderArrives(p, t, id);
      n := n + 1;
    }
  }

  lemma NothingComes(s: System, id: string)
    ensures s.channel == [] ==> LastPlace(For(s.channel, id)).None?
  {
  }

  lemma QuietAfter(s: System, id: string)
    requires s.channel != [] && OrdersOf(s.live, id) == [] && LastPlace(For(s.channel, id)).Some?
    ensures OrdersOf(Effected(s.live, s.channel[0]), id) != [] || LastPlace(For(s.channel[1..], id)).Some?
  {
    hide OrdersOf, For;
    var c, rest := s.channel[0], For(s.channel[1..], id);
    ForHead(s.channel, id);
    EffectForOne(s.live, c, id);
    if Concerns(c, id) {
      LastPlaceAppend([c], rest);
      LastPlaceShort([c]);
    } else {
      assert [] + rest == rest;
    }
  }

  /** Two orders of one quote in a row make two live orders. */
  lemma {:induction false} SecondArrives(p: Policy, s: System, id: string) returns (n: nat)
    requires OrdersOf(s.live, id) != [] && NextIsPlace(For(s.channel, id))
    ensures n <= |s.channel| && |OrdersOf(Delivered(p, s, n).live, id)| >= 2
    decreases |s.channel|
  {
    hide Next, OrdersOf, For;
    assert s.channel != [] by { ForSingle([], id); }
    DeliverShortens(p, s);
    ForHead(s.channel, id);
    var t := Next(p, s, Deliver);
    EffectForOne(s.live, s.channel[0], id);
    if Concerns(s.channel[0], id) {
      n := 1;
      assert Delivered(p, s, 1) == Delivered(p, t, 0) == t;
    } else {
      assert [] + For(s.channel[1..], id) == For(s.channel[1..], id);
      n := SecondArrives(p, t, id);
      n := n + 1;
    }
  }

  /** Whatever is desired, reconciling is safe, now and while everything on its way arrives,
      exactly when the snapshot is reliable: every quote it makes the manager give up is
      quiet. */
  lemma ReliableExactly(p: Policy, s: System, snapshot: Snapshot, nowMs: nat)
    requires Invariant(s)
    ensures (forall ds: seq<DesiredQuote> :: SafeAhead(p, Next(p, s, Reconcile(ds, snapshot, nowMs))))
            <==> Reliable(p, s, snapshot, nowMs)
  {
    hide Invariant, SafeAhead, Next, GivesUp, Quiet;
    if Reliable(p, s, snapshot, nowMs) {
      forall ds: seq<DesiredQuote> ensures SafeAhead(p, Next(p, s, Reconcile(ds, snapshot, nowMs))) {
        StepKeepsInvariant(p, s, Reconcile(ds, snapshot, nowMs));
        InvariantIsSafeAhead(p, Next(p, s, Reconcile(ds, snapshot, nowMs)));
      }
    } else {
      var id :| GivesUp(p, s, snapshot, nowMs, id) && !Quiet(s, id);
      GivenUpTooSoon(p, s, snapshot, nowMs, id);
      UnwatchedIsUnsafe(p, Next(p, s, Reconcile([], snapshot, nowMs)), id);
    }
  }

  lemma UnwatchedIsUnsafe(p: Policy, s: System, id: string)
    requires !Quiet(s, id) && !Watched(s, id)
    ensures !SafeAhead(p, s)
  {
    hide Quiet, Next, Mine, OrdersOf;
    var n := OrderArrives(p, s, id);
    OrdersListed(Delivered(p, s, n).live, id);
    assert !Safe(Delivered(p, s, n));
  }

  lemma GivenUpTooSoon(p: Policy, s: System, snapshot: Snapshot, nowMs: nat, id: string)
    requires Invariant(s) && GivesUp(p, s, snapshot, nowMs, id) && !Quiet(s, id)
    ensures var t := Next(p, s, Reconcile([], snapshot, nowMs)); !Quiet(t, id) && !Watched(t, id)
  {
    hide Plan, Synced, For, SendAll, Mine, GivesUp, LastPlace;
    var o := Reconciled(p, s.seenFills, [], s.working, snapshot, nowMs);
    var f, g := For(s.channel, id), For(o.commands, id);
    GivesUpExactly(p, s, snapshot, nowMs, id);
    SyncedForOne(p, s.working, snapshot, nowMs, id);
    SendAllForOne(o.working, o.commands, nowMs, id);
    ForAppend(s.channel, o.commands, id);
    NothingButCancelAll(p, s, snapshot, nowMs, id);
    StaysGivenUp(Mine(o.working, id), f, g, nowMs, id);
  }

  /** Desiring nothing, all that a plan can say of a dead quote is to cancel everything. */
  lemma NothingButCancelAll(p: Policy, s: System, snapshot: Snapshot, nowMs: nat, id: string)
    requires var q := Mine(Synced(p, s.working, snapshot, nowMs), id); q.Some? && !q.value.MaybeLive()
    ensures var g := For(Reconciled(p, s.seenFills, [], s.working, snapshot, nowMs).commands, id);
            g == [] || g == [CancelAll]
  {
    hide Plan, Synced, For;
    var ws := Synced(p, s.working, snapshot, nowMs);
    ForSingle([], id);
    PlanForOne(p, [], ws, nowMs, id);
    WorkingIsMine(ws, id);
  }

  lemma StaysGivenUp(q: Option<Quote>, f: seq<Command>, g: seq<Command>, nowMs: nat, id: string)
    requires q.Some? && !q.value.MaybeLive() && (g == [] || g == [CancelAll])
    ensures LastPlace(f + g) == LastPlace(f)
    ensures SentAllFor(q, g, nowMs, id) == q
  {
    hide SentAllFor, LastPlace;
    LastPlaceAppend(f, g);
    if g == [] {
      SentNone(q, nowMs, id);
      assert f + g == f;
    } else {
      SentLast(q, g, nowMs, id);
      LastPlaceShort(g);
    }
  }

  lemma WorkingIsMine(ws: seq<Quote>, id: string)
    ensures id in WorkingById(ws).at ==> Mine(ws, id) == Some(WorkingById(ws).at[id])
  {
  }

  /** Losing the next command is safe, now and while the rest arrives, exactly when it is a
      place, or each quote it concerns has nothing live or no place as its next command. */
  lemma LossExactly(p: Policy, s: System)
    requires Invariant(s) && s.channel != []
    ensures SafeAhead(p, Next(p, s, Lose)) <==> Allowed(p, s, Lose)
  {
    hide Invariant, SafeAhead, OrdersOf, For, NextIsPlace;
    var t := Next(p, s, Lose);
    if Allowed(p, s, Lose) {
      StepKeepsInvariant(p, s, Lose);
      InvariantIsSafeAhead(p, t);
    } else {
      var id :| Concerns(s.channel[0], id) && OrdersOf(s.live, id) != [] && NextIsPlace(For(s.channel[1..], id));
      DoubledIsUnsafe(p, t, id);
    }
  }

  lemma DoubledIsUnsafe(p: Policy, s: System, id: string)
    requires OrdersOf(s.live, id) != [] && NextIsPlace(For(s.channel, id))
    ensures !SafeAhead(p, s)
  {
    hide NextIsPlace, Next, Mine, OrdersOf, For;
    var n := SecondArrives(p, s, id);
    OrdersListed(Delivered(p, s, n).live, id);
    assert !Safe(Delivered(p, s, n));
  }

  /** Enough for a snapshot to be reliable: it reports dead, or leaves out of an authoritative
      list, only quotes that are quiet. */
  ghost predicate Honest(s: System, snapshot: Snapshot) {
    var seen := ObservedById(snapshot.quotes);
    !snapshot.resyncPending ==>
      && (forall id | id in seen && SaysDead(seen[id]) :: Quiet(s, id))
      && (snapshot.authoritative ==> forall id | id !in seen :: Quiet(s, id))
  }

  lemma HonestIsReliable(p: Policy, s: System, snapshot: Snapshot, nowMs: nat)
    requires Unique(s.working) && Honest(s, snapshot)
    ensures Reliable(p, s, snapshot, nowMs)
  {
    hide Quiet, Mine;
  }

  /** It is not necessary: a list that does not show yet an order still on its way is reliable
      the first time, because it only raises a doubt. */
  lemma FirstOmissionIsReliable(p: Policy, d: DesiredQuote)
    requires p.submitTimeoutMs > 0
    ensures var s := System([Submitted(d, 0)], {}, [Place(d)], []);
            var none := Snapshot(true, false, [], [], 0);
            Invariant(s) && Reliable(p, s, none, 0) && !Honest(s, none)
  {
    var s, none := System([Submitted(d, 0)], {}, [Place(d)], []), Snapshot(true, false, [], [], 0);
    SyncMissing(p, Submitted(d, 0), none);
    forall id ensures SoundFor(s, id) && !GivesUp(p, s, none, 0, id) {
      OneOnItsWay(p, d, id);
    }
    assert !Quiet(s, d.quoteId) by { ForSingle([Place(d)], d.quoteId); }
  }

  // ---- why a snapshot must also speak for orders on their way ----

  lemma PlanPlacesDead(p: Policy, d: DesiredQuote, ws: seq<Quote>, nowMs: nat)
    requires ws == [] || (|ws| == 1 && ws[0].Id() == d.quoteId && !ws[0].MaybeLive())
    ensures Plan(p, [d], ws, nowMs) == [Place(d)]
  {
    hide NeedsReplace;
    var w, m := WorkingById(ws), DesiredById([d]);
    var cancels, places := CancelSet(p, w.at, m.at, nowMs), PlaceSet(p, w.at, m.at, nowMs);
    assert [d][..0] == [];
    assert m == DesiredById([]).Put(d.quoteId, d);
    assert [d.quoteId][..0] == [];
    assert Places(m.keys, places, m.at) == [Place(d)] by { assert d.quoteId in places; }
    if |ws| == 1 {
      assert ws[..0] == [];
      assert w == WorkingById([]).Put(ws[0].Id(), ws[0]);
      assert [ws[0].Id()][..0] == [];
    }
    assert Cancels(w.keys, cancels) == [];
  }

  /** Snapshots that are right about what is live, but silent about an order still on its way,
      lead to two live orders of one quote: placed, twice reported missing, placed again. */
  lemma NotLiveIsNotEnough(p: Policy, d: DesiredQuote)
    requires p.submitTimeoutMs > 0
    ensures var missing := Reconcile([d], Snapshot(true, false, [], [], 0), 0);
            var q := Submitted(d, 0);
            var placed := System([q], {}, [Place(d)], []);
            var doubted := System([Unknown(q, "exchange_missing_authoritative", 0)], {}, [Place(d)], []);
            var doubled := System([q], {}, [Place(d), Place(d)], []);
            && Next(p, INITIAL, missing) == placed
            && Next(p, placed, missing) == doubted
            && Next(p, doubted, missing) == doubled
            && Next(p, Next(p, doubled, Deliver), Deliver).live == [d, d]
  {
    hide Plan, Synced, SendAll, Next, Reconciled;
    var none := Snapshot(true, false, [], [], 0);
    var q := Submitted(d, 0);
    var lost := Unknown(q, "exchange_missing_authoritative", 0);
    var dead := CancelConfirmed(lost, 0);
    var placed, doubted := System([q], {}, [Place(d)], []), System([lost], {}, [Place(d)], []);
    PlainReconcile(p, INITIAL, [d], none);
    PlainReconcile(p, placed, [d], none);
    PlainReconcile(p, doubted, [d], none);
    DeliverTwice(p, System([q], {}, [Place(d), Place(d)], []), d);
    SyncNone(p, none);
    PlanPlacesDead(p, d, [], 0);
    SendSingle([], d, 0);
    SyncMissing(p, q, none);
    PlanSilentInDoubt(p, [d], [lost], 0);
    SendNothing([lost]);
    SyncMissing(p, lost, none);
    PlanPlacesDead(p, d, [dead], 0);
    SendSingle([dead], d, 0);
  }

  lemma PlainReconcile(p: Policy, s: System, ds: seq<DesiredQuote>, none: Snapshot)
    requires none == Snapshot(true, false, [], [], 0)
    ensures var ws := Synced(p, s.working, none, 0);
            Next(p, s, Reconcile(ds, none, 0)) ==
            System(SendAll(ws, Plan(p, ds, ws, 0), 0), s.seenFills, s.channel + Plan(p, ds, ws, 0), s.live)
  {
    hide Plan, Synced, SendAll;
    assert s.seenFills + {} == s.seenFills;
  }

  lemma OneOnItsWay(p: Policy, d: DesiredQuote, id: string)
    requires p.submitTimeoutMs > 0
    ensures var s := System([Submitted(d, 0)], {}, [Place(d)], []);
            SoundFor(s, id) && !GivesUp(p, s, Snapshot(true, false, [], [], 0), 0, id)
  {
    hide WorkingById, For;
    var none, ws := Snapshot(true, false, [], [], 0), [Submitted(d, 0)];
    SyncMissing(p, Submitted(d, 0), none);
    ForSingle([Place(d)], id);
    LastPlaceShort([Place(d)]);
    assert Settles(0, [Place(d)]) by { ShortSettles(0, [Place(d)]); }
    MineSingle(ws[0], id);
    MineSingle(AfterAbsence(ws[0], 0), id);
  }

  lemma MineSingle(q: Quote, id: string)
    ensures Mine([q], id) == if q.Id() == id then Some(q) else None
  {
    MineNone([q], id);
    MineAt([q], 0);
  }

  lemma DeliverTwice(p: Policy, s: System, d: DesiredQuote)
    requires s.channel == [Place(d), Place(d)] && s.live == []
    ensures Next(p, s, Deliver).channel != []
    ensures Next(p, Next(p, s, Deliver), Deliver).live == [d, d]
  {
  }

  lemma SyncNone(p: Policy, none: Snapshot)
    ensures Synced(p, [], none, 0) == []
  {
  }

  lemma SendNothing(ws: seq<Quote>)
    ensures SendAll(ws, [], 0) == ws
  {
  }

  lemma SendSingle(ws: seq<Quote>, d: DesiredQuote, nowMs: nat)
    requires ws == [] || (|ws| == 1 && ws[0].Id() == d.quoteId)
    ensures SendAll(ws, [Place(d)], nowMs) == [Submitted(d, nowMs)]
  {
    assert [Place(d)][..0] == [];
    MineNone(ws, d.quoteId);
  }

  lemma SyncMissing(p: Policy, q: Quote, none: Snapshot)
    requires p.submitTimeoutMs > 0 && none == Snapshot(true, false, [], [], 0)
    requires q.lastCommandMs == Some(0) && (q.state.PendingSubmit? || q.state.UnknownOrStale?)
    ensures Synced(p, [q], none, 0) == [AfterAbsence(q, 0)]
  {
    assert Synced(p, [q], none, 0)[0] == SyncAt(p, [q], 0, none, 0);
  }
}
