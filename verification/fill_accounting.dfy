/** Fills, from the exchange's repeated snapshots to the strategy's inventory. */
module FillAccounting {
  import opened Text
  import opened Units
  import opened Words
  import opened WorkingQuotes
  import opened OrderManager

  datatype Position = Position(
    assetId: string, side: Side, filledSize: string, netNotional: string, updatedAtMs: nat)

  function SideName(side: Side): string {
    match side
    case Buy => "Buy"
    case Sell => "Sell"
  }

  function InventoryKey(assetId: string, side: Side): string {
    assetId + ":" + SideName(side)
  }

  /** Keys never collide, whatever the asset ids contain. */
  lemma KeysAreInjective(a: string, s: Side, b: string, t: Side)
    ensures InventoryKey(a, s) == InventoryKey(b, t) <==> a == b && s == t
  {
    var k, l := InventoryKey(a, s), InventoryKey(b, t);
    if k == l {
      assert k[|k| - 1] == SideName(s)[|SideName(s)| - 1] && l[|l| - 1] == SideName(t)[|SideName(t)| - 1];
      assert s == t;
      assert k[..|a|] == a && l[..|b|] == b;
    }
  }

  /** Adding an amount, through the printed form both sides are stored in. */
  function Added(stored: string, delta: string): string {
    FormatUnitsTrimmed(SaturatingAdd(UnitsOf(stored), UnitsOf(delta)))
  }

  function Grown(entry: Position, delta: ExposureDelta): Position {
    entry.(filledSize := Added(entry.filledSize, delta.filledSizeDelta),
           netNotional := Added(entry.netNotional, delta.notionalDelta),
           updatedAtMs := delta.observedAtMs)
  }

  function Opened(delta: ExposureDelta): Position {
    Position(delta.assetId, delta.side, "0", "0", delta.observedAtMs)
  }

  function Applied(m: map<string, Position>, delta: ExposureDelta): map<string, Position> {
    var key := InventoryKey(delta.assetId, delta.side);
    m[key := Grown(if key in m then m[key] else Opened(delta), delta)]
  }

  class InventoryStore {
    var positions: map<string, Position>

    constructor ()
      ensures positions == map[]
    {
      positions := map[];
    }

    method ApplyDelta(delta: ExposureDelta)
      modifies this
      ensures positions == Applied(old(positions), delta)
    {
      hide UnitsOf, FormatUnitsTrimmed;
      var key := InventoryKey(delta.assetId, delta.side);
      var entry := if key in positions then positions[key] else Opened(delta);
      var filled := ParseUnits(entry.filledSize);
      var moreFilled := ParseUnits(delta.filledSizeDelta);
      var notional := ParseUnits(entry.netNotional);
      var moreNotional := ParseUnits(delta.notionalDelta);
      entry := entry.(filledSize := FormatUnitsTrimmed(SaturatingAdd(filled, moreFilled)));
      entry := entry.(netNotional := FormatUnitsTrimmed(SaturatingAdd(notional, moreNotional)));
      entry := entry.(updatedAtMs := delta.observedAtMs);
      positions := positions[key := entry];
    }
  }

  // ---- over a whole run of reconciliations ----

  /** What a reconciliation is called with. */
  datatype Call = Call(desired: seq<DesiredQuote>, working: seq<Quote>, snapshot: Snapshot, nowMs: nat)

  function AllFills(calls: seq<Call>): seq<Fill> {
    if calls == [] then []
    else AllFills(calls[..|calls| - 1]) + calls[|calls| - 1].snapshot.fills
  }

  /** The fill ids a manager that started with none remembers. */
  function Remembered(calls: seq<Call>): set<string> {
    if calls == [] then {}
    else Remembered(calls[..|calls| - 1]) + FillIds(calls[|calls| - 1].snapshot.fills)
  }

  /** The exposure deltas of the outcomes it returns, call after call. */
  function Reported(p: Policy, calls: seq<Call>): seq<ExposureDelta> {
    if calls == [] then []
    else
      var before, c := calls[..|calls| - 1], calls[|calls| - 1];
      Reported(p, before)
      + Reconciled(p, Remembered(before), c.desired, c.working, c.snapshot, c.nowMs).exposureDeltas
  }

  function Inventory(deltas: seq<ExposureDelta>): map<string, Position> {
    if deltas == [] then map[]
    else Applied(Inventory(deltas[..|deltas| - 1]), deltas[|deltas| - 1])
  }

  /** The fills that count: the first of each id. */
  function Distinct(fills: seq<Fill>): seq<Fill> {
    if fills == [] then []
    else
      var before, f := fills[..|fills| - 1], fills[|fills| - 1];
      if f.fillId in FillIds(before) then Distinct(before) else Distinct(before) + [f]
  }

  function OfPosition(fills: seq<Fill>, assetId: string, side: Side): seq<Fill> {
    if fills == [] then []
    else
      var before, f := OfPosition(fills[..|fills| - 1], assetId, side), fills[|fills| - 1];
      if f.assetId == assetId && f.side == side then before + [f] else before
  }

  function TotalSize(fills: seq<Fill>): nat {
    if fills == [] then 0
    else TotalSize(fills[..|fills| - 1]) + UnitsOf(fills[|fills| - 1].filledSize)
  }

  /** The notional of a fill as it arrives in the inventory. */
  function CarriedNotional(f: Fill): nat {
    UnitsOf(DeltaOf(f).notionalDelta)
  }

  function TotalNotional(fills: seq<Fill>): nat {
    if fills == [] then 0
    else TotalNotional(fills[..|fills| - 1]) + CarriedNotional(fills[|fills| - 1])
  }

  lemma {:induction false} FillIdsAppend(a: seq<Fill>, b: seq<Fill>)
    ensures FillIds(a + b) == FillIds(a) + FillIds(b)
  {
    if b == [] {
      assert a + b == a;
    } else {
      FillIdsAppend(a, b[..|b| - 1]);
      assert (a + b)[..|a + b| - 1] == a + b[..|b| - 1];
    }
  }

  lemma {:induction false} NewDeltasAppend(seen: set<string>, a: seq<Fill>, b: seq<Fill>)
    ensures NewDeltas(seen, a + b) == NewDeltas(seen, a) + NewDeltas(seen + FillIds(a), b)
  {
    hide DeltaOf;
    if b == [] {
      assert a + b == a;
    } else {
      var before := b[..|b| - 1];
      NewDeltasAppend(seen, a, before);
      FillIdsAppend(a, before);
      assert (a + b)[..|a + b| - 1] == a + before;
      assert seen + FillIds(a + before) == seen + FillIds(a) + FillIds(before);
    }
  }

  lemma {:induction false} AllRemembered(calls: seq<Call>)
    ensures Remembered(calls) == FillIds(AllFills(calls))
  {
    if calls != [] {
      var n := |calls| - 1;
      AllRemembered(calls[..n]);
      FillIdsAppend(AllFills(calls[..n]), calls[n].snapshot.fills);
    }
  }

  /** Cutting the stream of fills into snapshots makes no difference, and neither does what else
      the snapshots say, a reconnect gap included. */
  lemma {:induction false} ReportedIsOnePass(p: Policy, calls: seq<Call>)
    ensures Reported(p, calls) == NewDeltas({}, AllFills(calls))
  {
    hide NewDeltas, Plan, Synced, BlockedIds;
    if calls == [] {
      assert NewDeltas({}, []) == [] by { NoDeltas(); }
    } else {
      var n := |calls| - 1;
      ReportedIsOnePass(p, calls[..n]);
      AllRemembered(calls[..n]);
      NewDeltasAppend({}, AllFills(calls[..n]), calls[n].snapshot.fills);
      assert {} + FillIds(AllFills(calls[..n])) == FillIds(AllFills(calls[..n]));
    }
  }

  lemma NoDeltas()
    ensures NewDeltas({}, []) == []
  {
  }

  /** One delta for each distinct fill id, however often and in however many snapshots the fill
      is repeated. */
  lemma OneDeltaPerFill(p: Policy, calls: seq<Call>)
    ensures |Reported(p, calls)| == |FillIds(AllFills(calls))|
    ensures Reported(p, calls) == Deltas(Distinct(AllFills(calls)))
  {
    ReportedIsOnePass(p, calls);
    DeltasOfDistinct(AllFills(calls));
  }

  function Deltas(fills: seq<Fill>): seq<ExposureDelta> {
    if fills == [] then [] else Deltas(fills[..|fills| - 1]) + [DeltaOf(fills[|fills| - 1])]
  }

  lemma {:induction false} DeltasOfDistinct(fills: seq<Fill>)
    ensures NewDeltas({}, fills) == Deltas(Distinct(fills))
    ensures |NewDeltas({}, fills)| == |FillIds(fills)|
  {
    hide DeltaOf;
    if fills != [] {
      var n := |fills| - 1;
      DeltasOfDistinct(fills[..n]);
      assert {} + FillIds(fills[..n]) == FillIds(fills[..n]);
      var d := Distinct(fills[..n]);
      assert (d + [fills[n]])[..|d|] == d;
      if fills[n].fillId in FillIds(fills[..n]) { assert FillIds(fills) == FillIds(fills[..n]); }
    }
  }

  lemma AddedUnits(stored: string, delta: string)
    ensures UnitsOf(Added(stored, delta)) == SaturatingAdd(UnitsOf(stored), UnitsOf(delta))
  {
    TrimmedRoundTrip(SaturatingAdd(UnitsOf(stored), UnitsOf(delta)));
  }

  lemma ZeroUnits()
    ensures UnitsOf("0") == 0
  {
    TrimmedRoundTrip(0);
    TrimmedShape(0);
    assert ScaledText(0) == "0";
  }

  lemma DeltaSize(f: Fill)
    ensures UnitsOf(DeltaOf(f).filledSizeDelta) == UnitsOf(f.filledSize)
  {
    hide Notional, FormatUnits;
    UnitsRoundTrip(UnitsOf(f.filledSize));
  }

  /** The notional survives printing and parsing exactly when it fits a u64. */
  lemma CarriedNotionalExact(f: Fill)
    ensures CarriedNotional(f) == Notional(UnitsOf(f.price), UnitsOf(f.filledSize)) <==>
            Notional(UnitsOf(f.price), UnitsOf(f.filledSize)) <= U64_MAX
  {
    hide Notional, FormatUnits, UnitsOf;
    UnitsRoundTrip(Notional(UnitsOf(f.price), UnitsOf(f.filledSize)));
  }

  /** What the inventory holds for one asset and side. */
  predicate Holds(m: map<string, Position>, mine: seq<Fill>, assetId: string, side: Side) {
    var key := InventoryKey(assetId, side);
    && (key in m <==> mine != [])
    && (key in m ==>
          && m[key].assetId == assetId && m[key].side == side
          && UnitsOf(m[key].filledSize) == Saturate(TotalSize(mine))
          && UnitsOf(m[key].netNotional) == Saturate(TotalNotional(mine))
          && m[key].updatedAtMs == mine[|mine| - 1].observedAtMs)
  }

  lemma AppliedHolds(m: map<string, Position>, f: Fill, mine: seq<Fill>, assetId: string, side: Side)
    requires Holds(m, mine, assetId, side)
    ensures Holds(Applied(m, DeltaOf(f)),
                  if f.assetId == assetId && f.side == side then mine + [f] else mine, assetId, side)
  {
    hide UnitsOf, FormatUnits, Notional, InventoryKey, Added;
    KeysAreInjective(f.assetId, f.side, assetId, side);
    if f.assetId == assetId && f.side == side {
      var key, d := InventoryKey(assetId, side), DeltaOf(f);
      var entry := if key in m then m[key] else Opened(d);
      ZeroUnits();
      DeltaSize(f);
      AddedUnits(entry.filledSize, d.filledSizeDelta);
      AddedUnits(entry.netNotional, d.notionalDelta);
      assert Applied(m, d)[key] == Grown(entry, d);
      var now := mine + [f];
      assert now[..|now| - 1] == mine && now[|now| - 1] == f;
      assert TotalSize(now) == TotalSize(mine) + UnitsOf(f.filledSize);
      assert TotalNotional(now) == TotalNotional(mine) + CarriedNotional(f);
    }
  }

  lemma {:induction false} InventoryHolds(fills: seq<Fill>, assetId: string, side: Side)
    ensures Holds(Inventory(Deltas(fills)), OfPosition(fills, assetId, side), assetId, side)
  {
    hide DeltaOf, Applied;
    if fills != [] {
      var n := |fills| - 1;
      InventoryHolds(fills[..n], assetId, side);
      AppliedHolds(Inventory(Deltas(fills[..n])), fills[n], OfPosition(fills[..n], assetId, side), assetId, side);
      var before := Deltas(fills[..n]);
      assert (before + [DeltaOf(fills[n])])[..|before|] == before;
    }
  }

  /** Exactly-once accounting: after any run of reconciliations, with any repetitions and any
      reconnect gaps, the inventory has a position for an asset and side exactly when a distinct
      fill touched it, and holds the saturating totals of its distinct fills. */
  lemma FillsCountOnce(p: Policy, calls: seq<Call>, assetId: string, side: Side)
    ensures Holds(Inventory(Reported(p, calls)), OfPosition(Distinct(AllFills(calls)), assetId, side), assetId, side)
  {
    hide Holds;
    OneDeltaPerFill(p, calls);
    InventoryHolds(Distinct(AllFills(calls)), assetId, side);
  }

  /** Distinct fills really are distinct, and none is forgotten. */
  lemma {:induction false} DistinctFills(fills: seq<Fill>)
    ensures FillIds(Distinct(fills)) == FillIds(fills)
    ensures |Distinct(fills)| == |FillIds(fills)|
  {
    if fills != [] {
      var n := |fills| - 1;
      DistinctFills(fills[..n]);
      var d := Distinct(fills[..n]);
      assert (d + [fills[n]])[..|d|] == d;
      if fills[n].fillId in FillIds(fills[..n]) { assert FillIds(fills) == FillIds(fills[..n]); }
    }
  }
}
