/** The hot state's best price over whole runs of snapshots, deltas, quotes and resolutions,
    with whatever best prices the deltas carry. */
module HotRuns {
  import opened Text
  import opened Words
  import opened Units
  import opened PriceLadders
  import opened HotState
  import opened HotAgreement

  /** What one side of a book is told: a new set of levels, a change of one level, possibly with
      the exchange's word on the new best price, a best price alone, or the best level alone. */
  datatype SideEvent =
    | Reset(levels: seq<Level>)
    | Change(price: string, size: string, hint: Option<string>)
    | Quote(price: string)
    | Show(level: Option<Level>)

  /** The part of it that the ladder hears. */
  function Told(events: seq<SideEvent>): seq<Event> {
    if events == [] then []
    else
      match events[|events| - 1]
      case Reset(levels) => Told(events[..|events| - 1]) + [Event.Snapshot(levels)]
      case Change(price, size, _) => Told(events[..|events| - 1]) + [Event.Delta(price, size)]
      case _ => Told(events[..|events| - 1])
  }

  function LadderAfter(events: seq<SideEvent>): (m: SortedMap<string>)
    ensures m.Valid()
  {
    PriceLadders.After(Told(events))
  }

  function HotAfter(events: seq<SideEvent>, takeMax: bool, reg: Option<Registered>): Option<HotLevel> {
    if events == [] then None
    else
      match events[|events| - 1]
      case Reset(levels) => BestLevel(levels, takeMax, reg)
      case Change(price, size, hint) =>
        DeltaSide(HotAfter(events[..|events| - 1], takeMax, reg), hint, price, size, takeMax, reg)
      case Quote(price) => MakeLevel(price, "0", reg)
      case Show(level) => LevelIfAny(level, reg)
  }

  // ---- the prices left standing ----

  function SizeLeft(events: seq<SideEvent>, price: string): Option<string> {
    SizeAfter(Told(events), price)
  }

  predicate Stands(events: seq<SideEvent>, price: string) {
    SizeLeft(events, price).Some?
  }

  /** Every level left standing can be read, and their prices have equally many whole digits. */
  ghost predicate Legible(events: seq<SideEvent>) {
    exists n :: LegibleAt(events, n)
  }

  ghost predicate LegibleAt(events: seq<SideEvent>, n: nat) {
    forall p | Stands(events, p) ::
      Plain(p) && Width(p) == n && Readable(Level(p, SizeLeft(events, p).value))
  }

  function Worth(price: string): nat {
    ScaledOf(price).GetOr(0)
  }

  /** Some standing price is worth this much and none is worth more, for asks less. */
  ghost predicate IsBest(events: seq<SideEvent>, takeMax: bool, units: nat) {
    && (exists p :: Stands(events, p) && ScaledOf(p) == Some(units))
    && (forall p | Stands(events, p) :: !WorseUnits(units, Worth(p), takeMax))
  }

  /** What the last event has to be like: a best price that it names is worth what the best
      standing price is worth, or cannot be read when none is left standing; when it names none,
      a readable removal leaves a price worth at least as much. */
  ghost predicate Faithful(events: seq<SideEvent>, takeMax: bool)
    requires events != []
  {
    match events[|events| - 1]
    case Reset(_) => true
    case Change(price, size, hint) =>
      if hint.Some? then
        NamesBest(events, takeMax, ScaledOf(hint.value))
      else
        RemovesLevel(size) && ScaledOf(price).Some? ==>
          exists p :: Stands(events, p) && !WorseUnits(Worth(p), Worth(price), takeMax)
    case Quote(price) => NamesBest(events, takeMax, ScaledOf(price))
    case Show(level) =>
      NamesBest(events, takeMax,
                if level.Some? && Readable(level.value) then ScaledOf(level.value.price) else None)
  }

  ghost predicate NamesBest(events: seq<SideEvent>, takeMax: bool, units: Option<nat>) {
    if units.Some? then IsBest(events, takeMax, units.value) else forall p :: !Stands(events, p)
  }

  // ---- the same, of a ladder ----

  ghost predicate LegibleLadder(m: SortedMap<string>, n: nat) {
    forall p | p in m.at :: Plain(p) && Width(p) == n && Readable(Level(p, m.at[p]))
  }

  ghost predicate BestUnits(m: SortedMap<string>, takeMax: bool, units: nat) {
    && (exists p :: p in m.at && ScaledOf(p) == Some(units))
    && (forall p | p in m.at :: !WorseUnits(units, Worth(p), takeMax))
  }

  lemma StandingIsListed(events: seq<SideEvent>, p: string)
    ensures Entry(LadderAfter(events), p) == SizeLeft(events, p)
  {
    LadderHolds(Told(events), p);
  }

  lemma LegibleIsLegible(events: seq<SideEvent>, n: nat)
    requires LegibleAt(events, n)
    ensures LegibleLadder(LadderAfter(events), n)
  {
    hide Plain, Width, Readable, SizeLeft, LadderAfter;
    forall p | p in LadderAfter(events).at
      ensures Plain(p) && Width(p) == n && Readable(Level(p, LadderAfter(events).at[p]))
    {
      StandingIsListed(events, p);
      assert Stands(events, p);
    }
  }

  /** The end of a legible ladder is worth what its best price is worth. */
  lemma TopIsBest(m: SortedMap<string>, n: nat, takeMax: bool, units: nat)
    requires m.Valid() && LegibleLadder(m, n)
    ensures BestUnits(m, takeMax, units) <==>
            BestOf(m, takeMax).Some? && ScaledOf(BestOf(m, takeMax).value.price) == Some(units)
    ensures BestOf(m, takeMax).None? <==> m.at == map[]
  {
    hide ScaledOf, Plain, Width, ValueAt;
    BestIsEnd(m);
    BestIsNumericBest(m, n);
    if BestOf(m, takeMax).Some? {
      var top := BestOf(m, takeMax).value.price;
      BestListed(m, takeMax);
      UnitsAreValue(top);
      forall p | p in m.at ensures !WorseUnits(Worth(top), Worth(p), takeMax) {
        assert Readable(Level(p, m.at[p])) && Between(m, p, 6);
        UnitsAreValue(p);
      }
    }
  }

  /** A delta with a best price of its own. */
  lemma HintKeepsExactly(next: SortedMap<string>, n: nat, before: Option<HotLevel>, takeMax: bool,
                         hint: string, price: string, size: string, reg: Option<Registered>)
    requires next.Valid() && LegibleLadder(next, n) && LevelReads(before) && ScaledOf(size).Some?
    ensures SamePrice(DeltaSide(before, Some(hint), price, size, takeMax, reg), BestOf(next, takeMax)) <==>
            if ScaledOf(hint).Some? then BestUnits(next, takeMax, ScaledOf(hint).value) else next.at == map[]
  {
    hide ScaledOf, BestUnits, LegibleLadder, TicksFor;
    ZeroReads();
    TopIsBest(next, n, takeMax, Worth(hint));
  }

  lemma ZeroReads()
    ensures ScaledOf("0") == Some(0)
  {
    RemovalReads("0");
  }

  /** A delta without: the price stays right unless a readable removal leaves nothing as good. */
  lemma NoHintKeepsExactly(m: SortedMap<string>, n: nat, k: nat, before: Option<HotLevel>, takeMax: bool,
                           price: string, size: string, reg: Option<Registered>)
    requires m.Valid() && LegibleLadder(m, n) && LegibleLadder(Upserted(m, price, size), k)
    requires SamePrice(before, BestOf(m, takeMax))
    ensures SamePrice(DeltaSide(before, None, price, size, takeMax, reg), BestOf(Upserted(m, price, size), takeMax))
            <==>
            (RemovesLevel(size) && ScaledOf(price).Some? ==>
               exists p :: p in Upserted(m, price, size).at && !WorseUnits(Worth(p), Worth(price), takeMax))
  {
    hide ScaledOf, Plain, Width, TicksFor, BestOf, RemovesLevel;
    var next := Upserted(m, price, size);
    var after := DeltaSide(before, None, price, size, takeMax, reg);
    if before.Some? { TopIsBest(m, n, takeMax, before.value.price.units); } else { TopIsBest(m, n, takeMax, 0); }
    if after.Some? { TopIsBest(next, k, takeMax, after.value.price.units); } else { TopIsBest(next, k, takeMax, 0); }
    if RemovesLevel(size) {
      RemovalReads(size);
      RemovalKeeps(m, before, takeMax, price, size, reg);
    } else {
      assert price in next.at && Readable(Level(price, next.at[price]));
      PutKeeps(m, before, takeMax, price, size, reg);
    }
  }

  ghost predicate HotIsBest(hot: Option<HotLevel>, m: SortedMap<string>, takeMax: bool) {
    if hot.None? then m.at == map[] else BestUnits(m, takeMax, hot.value.price.units)
  }

  lemma PutKeeps(m: SortedMap<string>, before: Option<HotLevel>, takeMax: bool, price: string, size: string,
                 reg: Option<Registered>)
    requires m.Valid() && HotIsBest(before, m, takeMax) && !RemovesLevel(size) && Readable(Level(price, size))
    ensures HotIsBest(DeltaSide(before, None, price, size, takeMax, reg), Upserted(m, price, size), takeMax)
  {
    hide ScaledOf, TicksFor, RemovesLevel, BestUnits, Worth;
    WorthReads(price);
    PutUnits(m, Upserted(m, price, size), takeMax, price, size,
             if before.Some? then Some(before.value.price.units) else None);
  }

  lemma PutUnits(m: SortedMap<string>, next: SortedMap<string>, takeMax: bool, price: string, size: string,
                 best: Option<nat>)
    requires next.at == m.at[price := size] && ScaledOf(price).Some?
    requires if best.None? then m.at == map[] else BestUnits(m, takeMax, best.value)
    ensures if best.None? || !WorseUnits(Worth(price), best.value, takeMax) then BestUnits(next, takeMax, Worth(price))
            else BestUnits(next, takeMax, best.value)
  {
    hide ScaledOf;
    assert price in next.at;
    if best.Some? {
      var p :| p in m.at && ScaledOf(p) == Some(best.value);
      assert p in next.at;
    }
  }

  lemma RemovalKeeps(m: SortedMap<string>, before: Option<HotLevel>, takeMax: bool, price: string, size: string,
                     reg: Option<Registered>)
    requires m.Valid() && HotIsBest(before, m, takeMax) && RemovesLevel(size) && ScaledOf(size) == Some(0)
    requires forall p | p in m.at :: ScaledOf(p).Some?
    ensures HotIsBest(DeltaSide(before, None, price, size, takeMax, reg), Upserted(m, price, size), takeMax) <==>
            (ScaledOf(price).Some? ==>
               exists p :: p in Upserted(m, price, size).at && !WorseUnits(Worth(p), Worth(price), takeMax))
  {
    hide ScaledOf, TicksFor, RemovesLevel, BestUnits, Worth;
    var next := Upserted(m, price, size);
    assert next.at == m.at - {price};
    if ScaledOf(price).None? {
      assert next.at == m.at;
      SameBestUnits(m, next, takeMax);
    } else {
      var u := Worth(price);
      assert ScaledOf(price) == Some(u) by { WorthReads(price); }
      if before.None? {
        NoBestUnits(next, takeMax, u);
      } else if WorseUnits(u, before.value.price.units, takeMax) {
        WorseRemoved(m, next, takeMax, price, before.value.price.units);
      } else {
        BestRemoved(m, next, takeMax, price, before.value.price.units, u);
      }
    }
  }

  lemma WorthReads(price: string)
    requires ScaledOf(price).Some?
    ensures ScaledOf(price) == Some(Worth(price))
  {
  }

  lemma SameBestUnits(m: SortedMap<string>, next: SortedMap<string>, takeMax: bool)
    requires m.at == next.at
    ensures forall u: nat :: BestUnits(m, takeMax, u) <==> BestUnits(next, takeMax, u)
  {
  }

  lemma NoBestUnits(next: SortedMap<string>, takeMax: bool, u: nat)
    requires next.at == map[]
    ensures !BestUnits(next, takeMax, u)
  {
  }

  lemma WorseRemoved(m: SortedMap<string>, next: SortedMap<string>, takeMax: bool, price: string, best: nat)
    requires BestUnits(m, takeMax, best) && next.at == m.at - {price} && WorseUnits(Worth(price), best, takeMax)
    ensures BestUnits(next, takeMax, best)
    ensures exists p :: p in next.at && !WorseUnits(Worth(p), Worth(price), takeMax)
  {
    hide ScaledOf;
    var p :| p in m.at && ScaledOf(p) == Some(best);
    assert p in next.at;
  }

  lemma BestRemoved(m: SortedMap<string>, next: SortedMap<string>, takeMax: bool, price: string, best: nat, u: nat)
    requires BestUnits(m, takeMax, best) && next.at == m.at - {price} && !WorseUnits(u, best, takeMax)
    requires forall p | p in m.at :: ScaledOf(p).Some?
    ensures BestUnits(next, takeMax, u) <==> exists p :: p in next.at && !WorseUnits(Worth(p), u, takeMax)
  {
    hide ScaledOf;
    if p :| p in next.at && !WorseUnits(Worth(p), u, takeMax) {
      assert p in m.at && ScaledOf(p) == Some(u);
    }
  }

  // ---- over a whole run ----

  ghost predicate AlwaysLegible(events: seq<SideEvent>) {
    Legible(events) && (events != [] ==> AlwaysLegible(events[..|events| - 1]))
  }

  ghost predicate AlwaysFaithful(events: seq<SideEvent>, takeMax: bool) {
    events != [] ==> Faithful(events, takeMax) && AlwaysFaithful(events[..|events| - 1], takeMax)
  }

  /** After every event the hot side counts the units of the ladder's best price. */
  ghost predicate AlwaysAgree(events: seq<SideEvent>, takeMax: bool, reg: Option<Registered>) {
    && SamePrice(HotAfter(events, takeMax, reg), BestOf(LadderAfter(events), takeMax))
    && (events != [] ==> AlwaysAgree(events[..|events| - 1], takeMax, reg))
  }

  /** Over every run in which what stands can be read, hot state and ladder agree on the best
      price all along exactly when every event is faithful to the prices it leaves standing. */
  lemma {:induction false} RunsAgreeExactly(events: seq<SideEvent>, takeMax: bool, reg: Option<Registered>)
    requires AlwaysLegible(events)
    ensures AlwaysAgree(events, takeMax, reg) <==> AlwaysFaithful(events, takeMax)
  {
    hide Faithful, Legible, SamePrice, LadderAfter, HotAfter;
    if events == [] {
      NothingAgrees(takeMax, reg);
    } else {
      var before := events[..|events| - 1];
      RunsAgreeExactly(before, takeMax, reg);
      if AlwaysAgree(before, takeMax, reg) {
        StepAgreesExactly(events, takeMax, reg);
      }
    }
  }

  lemma NothingAgrees(takeMax: bool, reg: Option<Registered>)
    ensures SamePrice(HotAfter([], takeMax, reg), BestOf(LadderAfter([]), takeMax))
  {
  }

  lemma StepAgreesExactly(events: seq<SideEvent>, takeMax: bool, reg: Option<Registered>)
    requires events != [] && Legible(events) && Legible(events[..|events| - 1])
    requires SamePrice(HotAfter(events[..|events| - 1], takeMax, reg),
                       BestOf(LadderAfter(events[..|events| - 1]), takeMax))
    ensures SamePrice(HotAfter(events, takeMax, reg), BestOf(LadderAfter(events), takeMax)) <==>
            Faithful(events, takeMax)
  {
    hide ScaledOf, SamePrice, LegibleAt, LadderAfter, DeltaSide, Stands, RemovesLevel, LegibleLadder, BestOf;
    var before, e := events[..|events| - 1], events[|events| - 1];
    var n :| LegibleAt(before, n);
    var k :| LegibleAt(events, k);
    LegibleIsLegible(before, n);
    LegibleIsLegible(events, k);
    LadderStep(events);
    match e
    case Reset(levels) => ResetAgrees(events, takeMax, reg, k);
    case Change(price, size, hint) =>
      HotReads(before, takeMax, reg);
      ListedIsStanding(events);
      if hint.Some? {
        SizeReads(events, k);
        HintKeepsExactly(LadderAfter(events), k, HotAfter(before, takeMax, reg), takeMax, hint.value, price, size, reg);
      } else {
        NoHintKeepsExactly(LadderAfter(before), n, k, HotAfter(before, takeMax, reg), takeMax, price, size, reg);
      }
    case Quote(price) =>
      ListedIsStanding(events);
      ZeroReads();
      NamedKeepsExactly(LadderAfter(events), k, MakeLevel(price, "0", reg), takeMax);
    case Show(level) =>
      ListedIsStanding(events);
      NamedKeepsExactly(LadderAfter(events), k, LevelIfAny(level, reg), takeMax);
  }

  /** A best level on its own. */
  lemma NamedKeepsExactly(next: SortedMap<string>, n: nat, hot: Option<HotLevel>, takeMax: bool)
    requires next.Valid() && LegibleLadder(next, n)
    ensures SamePrice(hot, BestOf(next, takeMax)) <==>
            if hot.Some? then BestUnits(next, takeMax, hot.value.price.units) else next.at == map[]
  {
    hide ScaledOf, BestUnits, LegibleLadder, BestOf;
    TopIsBest(next, n, takeMax, if hot.Some? then hot.value.price.units else 0);
  }

  lemma ListedIsStanding(events: seq<SideEvent>)
    ensures forall p :: Stands(events, p) <==> p in LadderAfter(events).at
    ensures (forall p :: !Stands(events, p)) <==> LadderAfter(events).at == map[]
  {
    hide SizeLeft, LadderAfter;
    forall p ensures Stands(events, p) <==> p in LadderAfter(events).at {
      StandingIsListed(events, p);
    }
    if LadderAfter(events).at != map[] {
      var p :| p in LadderAfter(events).at;
      assert Stands(events, p);
    }
  }

  lemma LadderStep(events: seq<SideEvent>)
    requires events != []
    ensures var before, e := LadderAfter(events[..|events| - 1]), events[|events| - 1];
            LadderAfter(events) == (if e.Reset? then Loaded(e.levels)
                                    else if e.Change? then Upserted(before, e.price, e.size) else before)
  {
    hide Loaded, Upserted;
    var told, e := Told(events), events[|events| - 1];
    if e.Reset? || e.Change? { assert told[..|told| - 1] == Told(events[..|events| - 1]); }
  }

  /** The size of a change that leaves things legible can be read. */
  lemma SizeReads(events: seq<SideEvent>, n: nat)
    requires events != [] && events[|events| - 1].Change? && LegibleAt(events, n)
    ensures ScaledOf(events[|events| - 1].size).Some?
  {
    hide ScaledOf, Plain, Width, RemovesLevel;
    var e := events[|events| - 1];
    if RemovesLevel(e.size) {
      RemovalReads(e.size);
    } else {
      assert SizeLeft(events, e.price) == Some(e.size);
      assert Stands(events, e.price);
    }
  }

  lemma {:induction false} HotReads(events: seq<SideEvent>, takeMax: bool, reg: Option<Registered>)
    ensures LevelReads(HotAfter(events, takeMax, reg))
  {
    hide LevelReads, BestLevel, DeltaSide;
    if events == [] {
      NoLevelReads();
    } else {
      HotReads(events[..|events| - 1], takeMax, reg);
      match events[|events| - 1]
      case Reset(levels) => BestLevelReads(levels, takeMax, reg);
      case Change(price, size, hint) =>
        DeltaSideReads(HotAfter(events[..|events| - 1], takeMax, reg), hint, price, size, takeMax, reg);
      case Quote(price) => MakeLevelReads(price, "0", reg);
      case Show(level) => LevelIfAnyReads(level, reg);
    }
  }

  lemma ResetAgrees(events: seq<SideEvent>, takeMax: bool, reg: Option<Registered>, n: nat)
    requires events != [] && events[|events| - 1].Reset? && LegibleAt(events, n)
    ensures SamePrice(HotAfter(events, takeMax, reg), BestOf(LadderAfter(events), takeMax))
  {
    hide ScaledOf, Plain, Width, SamePrice, Loaded, BestLevel, LadderAfter, Stands;
    var levels := events[|events| - 1].levels;
    LadderStep(events);
    ListedIsStanding(events);
    forall i | 0 <= i < |levels| ensures Plain(levels[i].price) && Width(levels[i].price) == n {
      LoadedPrices(levels, levels[i].price);
    }
    SnapshotAgreesExactly(levels, takeMax, reg, n);
    if levels != [] {
      LoadedPrices(levels, levels[0].price);
      BestIsLast(Loaded(levels), takeMax, levels[0].price);
      var top := BestOf(Loaded(levels), takeMax).value.price;
      StandingIsListed(events, top);
      assert Readable(Level(top, Loaded(levels).at[top]));
      var i := LastMention(levels, top);
      assert Readable(levels[i]);
    }
  }

  lemma {:induction false} LastMention(levels: seq<Level>, price: string) returns (i: nat)
    requires price in Loaded(levels).at
    ensures i < |levels| && levels[i] == Level(price, Loaded(levels).at[price])
  {
    var n := |levels| - 1;
    if levels[n].price == price { i := n; } else { i := LastMention(levels[..n], price); }
  }
}
