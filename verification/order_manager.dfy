/** The local order manager: planning commands from desired and working quotes, synchronizing
    the working set with what the exchange reports, and turning fills into exposure. */
module OrderManager {
  import opened Text
  import opened Units
  import opened Words
  import opened WorkingQuotes

  datatype Command =
    | Place(quote: DesiredQuote)
    | Cancel(quoteId: string)
    | CancelAll

  datatype Policy = Policy(
    minPriceChangeUnits: nat,
    minSizeChangeUnits: nat,
    replaceCooldownMs: nat,
    submitTimeoutMs: nat,
    cancelTimeoutMs: nat)

  datatype Fill = Fill(
    fillId: string, assetId: string, side: Side, filledSize: string, price: string, observedAtMs: nat)

  datatype Snapshot = Snapshot(
    authoritative: bool,
    resyncPending: bool,
    quotes: seq<Observed>,
    fills: seq<Fill>,
    observedAtMs: nat)

  datatype ExposureDelta = ExposureDelta(
    assetId: string, side: Side, filledSizeDelta: string, notionalDelta: string, observedAtMs: nat)

  datatype Outcome = Outcome(
    commands: seq<Command>,
    blocked: bool,
    blockedQuotes: seq<string>,
    working: seq<Quote>,
    resyncRequired: bool,
    exposureDeltas: seq<ExposureDelta>)

  // ---- planning ----

  function AbsDiff(a: nat, b: nat): nat {
    if a >= b then a - b else b - a
  }

  predicate MaterialChange(p: Policy, working: DesiredQuote, desired: DesiredQuote) {
    || working.assetId != desired.assetId
    || working.side != desired.side
    || working.orderType != desired.orderType
    || AbsDiff(UnitsOf(working.price), UnitsOf(desired.price)) >= p.minPriceChangeUnits
    || AbsDiff(UnitsOf(working.size), UnitsOf(desired.size)) >= p.minSizeChangeUnits
  }

  predicate CooldownElapsed(p: Policy, q: Quote, nowMs: nat) {
    q.lastCommandMs.None? || SaturatingSub(nowMs, q.lastCommandMs.value) >= p.replaceCooldownMs
  }

  predicate NeedsReplace(p: Policy, q: Quote, d: DesiredQuote, nowMs: nat) {
    MaterialChange(p, q.terms, d) && CooldownElapsed(p, q, nowMs)
  }

  /** Desired quotes by id; of several with one id the last counts. */
  function DesiredById(ds: seq<DesiredQuote>): (m: SortedMap<DesiredQuote>)
    ensures m.Valid()
    ensures forall k | k in m.at :: m.at[k].quoteId == k
  {
    if ds == [] then SortedMap([], map[])
    else DesiredById(ds[..|ds| - 1]).Put(ds[|ds| - 1].quoteId, ds[|ds| - 1])
  }

  function WorkingById(ws: seq<Quote>): (m: SortedMap<Quote>)
    ensures m.Valid()
  {
    if ws == [] then SortedMap([], map[])
    else WorkingById(ws[..|ws| - 1]).Put(ws[|ws| - 1].Id(), ws[|ws| - 1])
  }

  lemma {:induction false} DesiredByIdHas(ds: seq<DesiredQuote>, k: string)
    ensures k in DesiredById(ds).at <==> exists i :: 0 <= i < |ds| && ds[i].quoteId == k
  {
    if ds != [] {
      var n := |ds| - 1;
      DesiredByIdHas(ds[..n], k);
      if i :| 0 <= i < n && ds[i].quoteId == k { assert ds[..n][i].quoteId == k; }
    }
  }

  lemma {:induction false} WorkingByIdHas(ws: seq<Quote>, k: string)
    ensures k in WorkingById(ws).at <==> exists i :: 0 <= i < |ws| && ws[i].Id() == k
    ensures k in WorkingById(ws).at ==> exists i :: 0 <= i < |ws| && ws[i] == WorkingById(ws).at[k] && ws[i].Id() == k
  {
    if ws != [] {
      var n := |ws| - 1;
      WorkingByIdHas(ws[..n], k);
      if i :| 0 <= i < n && ws[i].Id() == k { assert ws[..n][i].Id() == k; }
      if ws[n].Id() != k && k in WorkingById(ws).at {
        var i :| 0 <= i < n && ws[..n][i] == WorkingById(ws[..n]).at[k] && ws[..n][i].Id() == k;
        assert ws[i] == WorkingById(ws).at[k];
      }
    }
  }

  predicate CancelDue(p: Policy, id: string, w: map<string, Quote>, d: map<string, DesiredQuote>, nowMs: nat) {
    && id in w && w[id].Cancelable()
    && (id !in d || NeedsReplace(p, w[id], d[id], nowMs))
  }

  predicate PlaceDue(p: Policy, id: string, w: map<string, Quote>, d: map<string, DesiredQuote>, nowMs: nat) {
    id in d && (id !in w || !w[id].Cancelable() || NeedsReplace(p, w[id], d[id], nowMs))
  }

  function CancelSet(p: Policy, w: map<string, Quote>, d: map<string, DesiredQuote>, nowMs: nat): set<string> {
    set id | id in w && CancelDue(p, id, w, d, nowMs)
  }

  function PlaceSet(p: Policy, w: map<string, Quote>, d: map<string, DesiredQuote>, nowMs: nat): set<string> {
    set id | id in d && PlaceDue(p, id, w, d, nowMs)
  }

  function Cancels(ids: seq<string>, due: set<string>): seq<Command> {
    if ids == [] then []
    else Cancels(ids[..|ids| - 1], due) + (if ids[|ids| - 1] in due then [Cancel(ids[|ids| - 1])] else [])
  }

  function Places(ids: seq<string>, due: set<string>, d: map<string, DesiredQuote>): seq<Command>
    requires due <= d.Keys
  {
    if ids == [] then []
    else Places(ids[..|ids| - 1], due, d) + (if ids[|ids| - 1] in due then [Place(d[ids[|ids| - 1]])] else [])
  }

  function BlockedIds(ws: seq<Quote>): (ids: seq<string>)
    ensures ids == [] <==> forall i | 0 <= i < |ws| :: !ws[i].Blocks()
    ensures forall id :: id in ids <==> exists i :: 0 <= i < |ws| && ws[i].Blocks() && ws[i].Id() == id
  {
    if ws == [] then []
    else
      var q := ws[|ws| - 1];
      BlockedIds(ws[..|ws| - 1]) + (if q.Blocks() then [q.Id()] else [])
  }

  predicate AnyCancelable(ws: seq<Quote>) {
    exists i :: 0 <= i < |ws| && ws[i].Cancelable()
  }

  /** The planner's result for a desired set, a working set and a time. */
  function Plan(p: Policy, ds: seq<DesiredQuote>, ws: seq<Quote>, nowMs: nat): seq<Command> {
    var w, d := WorkingById(ws), DesiredById(ds);
    if BlockedIds(ws) != [] then []
    else if ds == [] && AnyCancelable(ws) then [CancelAll]
    else Cancels(w.keys, CancelSet(p, w.at, d.at, nowMs)) + Places(d.keys, PlaceSet(p, w.at, d.at, nowMs), d.at)
  }

  function Planned(p: Policy, ds: seq<DesiredQuote>, ws: seq<Quote>, nowMs: nat): Outcome {
    Outcome(Plan(p, ds, ws, nowMs), BlockedIds(ws) != [], BlockedIds(ws), ws, false, [])
  }

  // ---- synchronizing with a snapshot ----

  function ObservedById(os: seq<Observed>): (m: map<string, Observed>)
    ensures forall k :: k in m <==> exists i :: 0 <= i < |os| && os[i].quoteId == k
    ensures forall k :: k in m ==> m[k].quoteId == k && m[k] in os
  {
    if os == [] then map[]
    else ObservedById(os[..|os| - 1])[os[|os| - 1].quoteId := os[|os| - 1]]
  }

  predicate NoneBefore(ws: seq<Quote>, i: nat, id: string)
    requires i <= |ws|
  {
    forall j | 0 <= j < i :: ws[j].Id() != id
  }

  /** An observation goes to the first working quote with its id. */
  function ObservationFor(ws: seq<Quote>, i: nat, seen: map<string, Observed>): Option<Observed>
    requires i < |ws|
  {
    if ws[i].Id() in seen && NoneBefore(ws, i, ws[i].Id())
    then Some(seen[ws[i].Id()]) else None
  }

  function SyncOne(p: Policy, q: Quote, o: Option<Observed>, s: Snapshot, nowMs: nat): (r: Quote)
    ensures r.terms == q.terms
  {
    var aged := AfterTimeout(q, p.submitTimeoutMs, p.cancelTimeoutMs, nowMs);
    if o.Some? then AfterObservation(aged, o.value)
    else if s.authoritative then AfterAbsence(aged, s.observedAtMs)
    else aged
  }

  predicate SyncSurprises(p: Policy, q: Quote, o: Option<Observed>, s: Snapshot, nowMs: nat) {
    || TimedOut(q, p.submitTimeoutMs, p.cancelTimeoutMs, nowMs)
    || (o.None? && s.authoritative
        && AbsenceSurprises(AfterTimeout(q, p.submitTimeoutMs, p.cancelTimeoutMs, nowMs)))
  }

  function Stale(q: Quote, nowMs: nat): (r: Quote)
    ensures r.terms == q.terms
  {
    if q.Cancelable() then Unknown(q, "reconnect_resync_required", nowMs) else q
  }

  /** The working set after one pass over a snapshot. */
  function Synced(p: Policy, ws: seq<Quote>, s: Snapshot, nowMs: nat): (r: seq<Quote>)
    ensures |r| == |ws| && forall i | 0 <= i < |ws| :: r[i].terms == ws[i].terms
  {
    if s.resyncPending then
      seq(|ws|, i requires 0 <= i < |ws| => Stale(ws[i], s.observedAtMs))
    else
      seq(|ws|, i requires 0 <= i < |ws| => SyncAt(p, ws, i, s, nowMs))
  }

  function SyncAt(p: Policy, ws: seq<Quote>, i: nat, s: Snapshot, nowMs: nat): (r: Quote)
    requires i < |ws|
    ensures r.terms == ws[i].terms
  {
    SyncOne(p, ws[i], ObservationFor(ws, i, ObservedById(s.quotes)), s, nowMs)
  }

  predicate SurpriseAt(p: Policy, ws: seq<Quote>, i: nat, s: Snapshot, nowMs: nat)
    requires i < |ws|
  {
    SyncSurprises(p, ws[i], ObservationFor(ws, i, ObservedById(s.quotes)), s, nowMs)
  }

  predicate AnySurprise(p: Policy, ws: seq<Quote>, s: Snapshot, nowMs: nat) {
    exists i :: 0 <= i < |ws| && SurpriseAt(p, ws, i, s, nowMs)
  }

  function Reconciled(
    p: Policy, seenFills: set<string>, ds: seq<DesiredQuote>, ws: seq<Quote>, s: Snapshot, nowMs: nat): Outcome
  {
    var synced := Synced(p, ws, s, nowMs);
    var blocked := BlockedIds(synced);
    var deltas := NewDeltas(seenFills, s.fills);
    if s.resyncPending then Outcome([], true, blocked, synced, true, deltas)
    else
      Outcome(Plan(p, ds, synced, nowMs), blocked != [], blocked, synced,
              AnySurprise(p, ws, s, nowMs) || blocked != [], deltas)
  }

  // ---- fills ----

  function FillIds(fills: seq<Fill>): set<string> {
    if fills == [] then {} else FillIds(fills[..|fills| - 1]) + {fills[|fills| - 1].fillId}
  }

  function DeltaOf(f: Fill): ExposureDelta {
    ExposureDelta(
      f.assetId, f.side,
      FormatUnits(UnitsOf(f.filledSize)),
      FormatUnits(Notional(UnitsOf(f.price), UnitsOf(f.filledSize))),
      f.observedAtMs)
  }

  function NewDeltas(seen: set<string>, fills: seq<Fill>): seq<ExposureDelta> {
    if fills == [] then []
    else
      var before, f := fills[..|fills| - 1], fills[|fills| - 1];
      NewDeltas(seen, before) + (if f.fillId in seen + FillIds(before) then [] else [DeltaOf(f)])
  }

  // ---- the manager ----

  class LocalOrderManager {
    const policy: Policy
    var seenFillIds: set<string>

    constructor (policy: Policy)
      ensures this.policy == policy && seenFillIds == {}
    {
      this.policy, seenFillIds := policy, {};
    }

    method Reconcile(ds: seq<DesiredQuote>, ws: seq<Quote>, nowMs: nat) returns (r: Outcome)
      ensures r == Planned(policy, ds, ws, nowMs)
    {
      var blocked := BlockedIds(ws);
      if blocked != [] { return Outcome([], true, blocked, ws, false, []); }

      var d, w := DesiredById(ds), WorkingById(ws);
      assert d.keys == [] <==> ds == [] by {
        if ds != [] { assert ds[|ds| - 1].quoteId in d.at; }
      }
      if d.keys == [] && AnyCancelable(ws) {
        return Outcome([CancelAll], false, [], ws, false, []);
      }

      var cancels := CancelPass(w, d, nowMs);
      var places := PlacePass(w, d, nowMs);
      r := Outcome(cancels + places, false, [], ws, false, []);
    }

    /** Reconcile's first loop: cancelable quotes that are unwanted or due for replacement. */
    method CancelPass(w: SortedMap<Quote>, d: SortedMap<DesiredQuote>, nowMs: nat) returns (commands: seq<Command>)
      requires w.Valid()
      ensures commands == Cancels(w.keys, CancelSet(policy, w.at, d.at, nowMs))
    {
      commands := [];
      ghost var due := CancelSet(policy, w.at, d.at, nowMs);
      for i := 0 to |w.keys|
        invariant commands == Cancels(w.keys[..i], due)
      {
        assert w.keys[..i + 1][..i] == w.keys[..i];
        var id := w.keys[i];
        assert id in w.keys;
        if !w.at[id].Cancelable() { continue; }
        if id !in d.at || NeedsReplace(policy, w.at[id], d.at[id], nowMs) {
          commands := commands + [Cancel(id)];
        }
      }
      assert w.keys[..|w.keys|] == w.keys;
    }

    /** Reconcile's second loop: desired quotes that are missing, dead or just canceled. */
    method PlacePass(w: SortedMap<Quote>, d: SortedMap<DesiredQuote>, nowMs: nat) returns (commands: seq<Command>)
      requires d.Valid()
      ensures commands == Places(d.keys, PlaceSet(policy, w.at, d.at, nowMs), d.at)
    {
      hide NeedsReplace, Ascending;
      commands := [];
      ghost var due := PlaceSet(policy, w.at, d.at, nowMs);
      for i := 0 to |d.keys|
        invariant commands == Places(d.keys[..i], due, d.at)
      {
        assert d.keys[..i + 1][..i] == d.keys[..i];
        var id := d.keys[i];
        assert id in d.keys;
        if id !in w.at || !w.at[id].Cancelable() || NeedsReplace(policy, w.at[id], d.at[id], nowMs) {
          commands := commands + [Place(d.at[id])];
        }
      }
      assert d.keys[..|d.keys|] == d.keys;
    }

    method CollectNewExposureDeltas(s: Snapshot) returns (deltas: seq<ExposureDelta>)
      modifies this
      ensures deltas == NewDeltas(old(seenFillIds), s.fills)
      ensures seenFillIds == old(seenFillIds) + FillIds(s.fills)
    {
      deltas := [];
      for i := 0 to |s.fills|
        invariant deltas == NewDeltas(old(seenFillIds), s.fills[..i])
        invariant seenFillIds == old(seenFillIds) + FillIds(s.fills[..i])
      {
        var f := s.fills[i];
        NewDeltasStep(old(seenFillIds), s.fills, i);
        if f.fillId in seenFillIds { continue; }
        seenFillIds := seenFillIds + {f.fillId};
        var delta := ToDelta(f);
        deltas := deltas + [delta];
      }
      assert s.fills[..|s.fills|] == s.fills;
    }

    method ToDelta(f: Fill) returns (d: ExposureDelta)
      ensures d == DeltaOf(f)
    {
      var size := ParseUnits(f.filledSize);
      var price := ParseUnits(f.price);
      d := ExposureDelta(f.assetId, f.side, FormatUnits(size), FormatUnits(Notional(price, size)), f.observedAtMs);
    }

    /** The body of the synchronization loop for one quote. */
    method SyncQuote(q: Quote, observed: Option<Observed>, s: Snapshot, nowMs: nat) returns (r: Quote, surprised: bool)
      ensures r == SyncOne(policy, q, observed, s, nowMs)
      ensures surprised <==> SyncSurprises(policy, q, observed, s, nowMs)
    {
      var quote := new WorkingQuote.Clone(q);
      surprised := quote.MarkUnknownIfTimedOut(policy.submitTimeoutMs, policy.cancelTimeoutMs, nowMs);
      if observed.Some? {
        quote.ApplyExchangeObservation(observed.value);
      } else if s.authoritative {
        var missing := quote.ApplyAuthoritativeAbsence(s.observedAtMs);
        surprised := surprised || missing;
      }
      r := quote.View();
    }

    /** A reconnect gap: nothing that was live can be trusted. */
    method MarkStale(ws: seq<Quote>, s: Snapshot, nowMs: nat) returns (synchronized: seq<Quote>)
      requires s.resyncPending
      ensures synchronized == Synced(policy, ws, s, nowMs)
    {
      synchronized := ws;
      for i := 0 to |ws|
        invariant |synchronized| == |ws|
        invariant forall j | 0 <= j < i :: synchronized[j] == Stale(ws[j], s.observedAtMs)
        invariant forall j | i <= j < |ws| :: synchronized[j] == ws[j]
      {
        if synchronized[i].Cancelable() {
          var quote := new WorkingQuote.Clone(synchronized[i]);
          quote.MarkReconnectStale(s.observedAtMs);
          synchronized := synchronized[i := quote.View()];
        }
      }
    }

    /** The synchronization loop: each observation is used up by the first quote with its id. */
    method SyncAll(ws: seq<Quote>, s: Snapshot, nowMs: nat) returns (synchronized: seq<Quote>, resyncRequired: bool)
      requires !s.resyncPending
      ensures synchronized == Synced(policy, ws, s, nowMs)
      ensures resyncRequired <==> AnySurprise(policy, ws, s, nowMs)
    {
      var observedById := ObservedById(s.quotes);
      ghost var want, bad := SyncTargets(policy, ws, s, nowMs);
      synchronized, resyncRequired := ws, false;
      for i := 0 to |ws|
        invariant Remaining(observedById, ws, i, s)
        invariant |synchronized| == |ws|
        invariant forall j | 0 <= j < i :: synchronized[j] == want[j]
        invariant forall j | i <= j < |ws| :: synchronized[j] == ws[j]
        invariant resyncRequired <==> exists j :: 0 <= j < i && bad[j]
      {
        RemainingStep(policy, observedById, ws, i, s, nowMs, want[i], bad[i]);
        var id := synchronized[i].Id();
        var observed := if id in observedById then Some(observedById[id]) else None;
        observedById := observedById - {id};
        var quote, surprised := SyncQuote(synchronized[i], observed, s, nowMs);
        synchronized := synchronized[i := quote];
        resyncRequired := resyncRequired || surprised;
      }
      TargetsReached(policy, ws, s, nowMs, want, bad);
      assert synchronized == want;
    }

    method ReconcileWithExchange(ds: seq<DesiredQuote>, ws: seq<Quote>, s: Snapshot, nowMs: nat) returns (r: Outcome)
      modifies this
      ensures r == Reconciled(policy, old(seenFillIds), ds, ws, s, nowMs)
      ensures seenFillIds == old(seenFillIds) + FillIds(s.fills)
    {
      if s.resyncPending {
        var stale := MarkStale(ws, s, nowMs);
        var late := CollectNewExposureDeltas(s);
        return Outcome([], true, BlockedIds(stale), stale, true, late);
      }
      var synced, resyncRequired := SyncAll(ws, s, nowMs);
      var outcome := Reconcile(ds, synced, nowMs);
      var deltas := CollectNewExposureDeltas(s);
      r := outcome.(resyncRequired := resyncRequired || outcome.blocked, exposureDeltas := deltas);
    }
  }

  lemma NewDeltasStep(seen: set<string>, fills: seq<Fill>, i: nat)
    requires i < |fills|
    ensures FillIds(fills[..i + 1]) == FillIds(fills[..i]) + {fills[i].fillId}
    ensures NewDeltas(seen, fills[..i + 1]) == NewDeltas(seen, fills[..i]) +
              if fills[i].fillId in seen + FillIds(fills[..i]) then [] else [DeltaOf(fills[i])]
  {
    assert fills[..i + 1][..i] == fills[..i];
  }

  /** The observations not used up by the first i quotes. */
  ghost predicate Remaining(m: map<string, Observed>, ws: seq<Quote>, i: nat, s: Snapshot)
    requires i <= |ws|
  {
    var seen := ObservedById(s.quotes);
    && (forall k :: k in m <==> k in seen && NoneBefore(ws, i, k))
    && (forall k | k in m :: m[k] == seen[k])
  }

  lemma RemainingStep(
    p: Policy, m: map<string, Observed>, ws: seq<Quote>, i: nat, s: Snapshot, nowMs: nat, q: Quote, surprise: bool)
    requires i < |ws| && Remaining(m, ws, i, s) && IsTarget(p, ws, i, s, nowMs, q, surprise)
    ensures var o := if ws[i].Id() in m then Some(m[ws[i].Id()]) else None;
            q == SyncOne(p, ws[i], o, s, nowMs) && surprise == SyncSurprises(p, ws[i], o, s, nowMs)
    ensures Remaining(m - {ws[i].Id()}, ws, i + 1, s)
  {
    assert forall k :: NoneBefore(ws, i + 1, k) <==> NoneBefore(ws, i, k) && ws[i].Id() != k;
  }

  ghost predicate IsTarget(p: Policy, ws: seq<Quote>, i: nat, s: Snapshot, nowMs: nat, q: Quote, surprise: bool)
    requires i < |ws|
  {
    q == SyncAt(p, ws, i, s, nowMs) && surprise == SurpriseAt(p, ws, i, s, nowMs)
  }

  lemma TargetsReached(p: Policy, ws: seq<Quote>, s: Snapshot, nowMs: nat, want: seq<Quote>, bad: seq<bool>)
    requires |want| == |bad| == |ws|
    requires forall i | 0 <= i < |ws| :: IsTarget(p, ws, i, s, nowMs, want[i], bad[i])
    ensures !s.resyncPending ==> want == Synced(p, ws, s, nowMs)
    ensures AnySurprise(p, ws, s, nowMs) <==> exists i :: 0 <= i < |bad| && bad[i]
  {
    forall i | 0 <= i < |ws|
      ensures want[i] == SyncAt(p, ws, i, s, nowMs)
      ensures bad[i] == SurpriseAt(p, ws, i, s, nowMs)
    {
      assert IsTarget(p, ws, i, s, nowMs, want[i], bad[i]);
    }
  }

  lemma SyncTargets(p: Policy, ws: seq<Quote>, s: Snapshot, nowMs: nat) returns (want: seq<Quote>, bad: seq<bool>)
    ensures |want| == |bad| == |ws|
    ensures forall i | 0 <= i < |ws| :: IsTarget(p, ws, i, s, nowMs, want[i], bad[i])
  {
    want := seq(|ws|, i requires 0 <= i < |ws| => SyncAt(p, ws, i, s, nowMs));
    bad := seq(|ws|, i requires 0 <= i < |ws| => SurpriseAt(p, ws, i, s, nowMs));
  }
}
