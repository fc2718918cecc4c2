/** Tick and lot counts of the hot state, against its own and the registered step sizes. */
module HotTicks {
  import opened Text
  import opened Words
  import opened Units
  import opened HotState

  // ---- tick and lot counts ----

  ghost predicate CountsBy(level: Option<HotLevel>, tick: Option<nat>, lot: Option<nat>) {
    level.Some? ==> && level.value.priceTicks == TicksFor(level.value.price.units, tick)
                    && level.value.sizeLots == TicksFor(level.value.size.units, lot)
  }

  /** Each level's counts are the exact quotients by the book's own step sizes. */
  ghost predicate Counted(b: Book) {
    CountsBy(b.bestBid, b.tickUnits, b.lotUnits) && CountsBy(b.bestAsk, b.tickUnits, b.lotUnits)
  }

  /** The book's step sizes are those registered for its asset. */
  ghost predicate Registry(b: Book, reg: Option<Registered>) {
    b.tickUnits == TickOf(reg) && b.lotUnits == LotOf(reg)
  }

  /** A count is the exact quotient: nothing else is. */
  lemma TicksAreExact(units: nat, step: Option<nat>, n: nat)
    ensures TicksFor(units, step) == Some(n) <==> step.Some? && step.value > 0 && Product(n, step.value) == units
  {
    if step.Some? && step.value > 0 {
      Division(units, step.value, n);
    }
  }

  lemma Division(units: nat, step: nat, n: nat)
    requires step > 0
    ensures units % step == 0 && units / step == n <==> Product(n, step) == units
  {
    var q, r := units / step, units % step;
    assert Product(q, step) + r == units;
    Ordered(n, q, step);
    Ordered(q, n, step);
  }

  lemma Ordered(a: nat, b: nat, step: nat)
    requires step > 0
    ensures a < b ==> Product(a, step) + step <= Product(b, step)
  {
    if a < b {
      assert Product(b, step) == Product(a, step) + Product(b - a, step);
      assert Product(b - a, step) == step + Product(b - a - 1, step);
    }
  }

  lemma MakeLevelCounts(price: string, size: string, reg: Option<Registered>)
    ensures CountsBy(MakeLevel(price, size, reg), TickOf(reg), LotOf(reg))
  {
    hide ScaledOf, TicksFor;
  }

  lemma {:induction false} BestLevelCounts(levels: seq<Level>, takeMax: bool, reg: Option<Registered>)
    ensures CountsBy(BestLevel(levels, takeMax, reg), TickOf(reg), LotOf(reg))
  {
    hide MakeLevel, Beats, TicksFor, TickOf, LotOf;
    if levels != [] {
      BestLevelCounts(levels[..|levels| - 1], takeMax, reg);
      MakeLevelCounts(levels[|levels| - 1].price, levels[|levels| - 1].size, reg);
    }
  }

  lemma DeltaSideCounts(current: Option<HotLevel>, hint: Option<string>, price: string, size: string, buy: bool,
                        reg: Option<Registered>)
    requires CountsBy(current, TickOf(reg), LotOf(reg))
    ensures CountsBy(DeltaSide(current, hint, price, size, buy, reg), TickOf(reg), LotOf(reg))
  {
    hide CountsBy, MakeLevel, UpdatesBestSide, TickOf, LotOf;
    MakeLevelCounts(price, size, reg);
    if hint.Some? {
      MakeLevelCounts(hint.value, if hint.value == price then size
                                  else if current.Some? then current.value.size.exact else "0", reg);
    }
  }

  // ---- deltas after a tick size change ----

  /** A step of zero counts nothing, like no step. */
  function Effective(step: Option<nat>): Option<nat> {
    if step == Some(0) then None else step
  }

  lemma EffectiveCounts(units: nat, step: Option<nat>)
    ensures TicksFor(units, step) == TicksFor(units, Effective(step))
  {
  }

  /** An amount that two different steps count differently. */
  function Witness(a: Option<nat>, b: Option<nat>): nat {
    if a.None? || b.None? then 0 else if a.value < b.value then a.value else b.value
  }

  lemma WitnessTells(a: Option<nat>, b: Option<nat>)
    requires Effective(a) != Effective(b)
    ensures var u := Witness(Effective(a), Effective(b)); TicksFor(u, a) != TicksFor(u, b)
  {
    var m, n := Effective(a), Effective(b);
    EffectiveCounts(Witness(m, n), a);
    EffectiveCounts(Witness(m, n), b);
    if m.Some? && n.Some? {
      if m.value < n.value { Indivisible(m.value, n.value); } else { Indivisible(n.value, m.value); }
    }
  }

  lemma Indivisible(u: nat, step: nat)
    requires 0 < u < step
    ensures TicksFor(u, Some(u)) == Some(1) && TicksFor(u, Some(step)) == None
  {
    assert u % step == u;
  }

  function AfterDeltas(b: Book, market: string, ds: seq<BookDelta>, reg: Option<Registered>): Book {
    if ds == [] then b else DeltaBook(AfterDeltas(b, market, ds[..|ds| - 1], reg), market, ds[|ds| - 1], reg)
  }

  ghost predicate KeepsCounts(b: Book, market: string, reg: Option<Registered>) {
    forall ds: seq<BookDelta> :: Counted(AfterDeltas(b, market, ds, reg))
  }

  /** A book keeps counting by its own step sizes through every series of deltas exactly when
      those are, in effect, the registered ones. */
  lemma DeltasKeepCountsExactly(b: Book, market: string, reg: Option<Registered>)
    requires Counted(b) && RegHolds(reg) && StepsFit(b.tickUnits, b.lotUnits)
    ensures KeepsCounts(b, market, reg)
            <==> Effective(b.tickUnits) == Effective(TickOf(reg)) && Effective(b.lotUnits) == Effective(LotOf(reg))
  {
    hide ScaledOf, ScaledText, Counted, TickOf, LotOf, DeltaBook;
    if Effective(b.tickUnits) == Effective(TickOf(reg)) && Effective(b.lotUnits) == Effective(LotOf(reg)) {
      forall ds: seq<BookDelta> ensures Counted(AfterDeltas(b, market, ds, reg)) {
        DeltasKeepCounts(b, market, ds, reg);
      }
    } else {
      var ds := [TellingDelta(b, reg)];
      assert AfterDeltas(b, market, ds, reg) == DeltaBook(b, market, ds[0], reg) by { assert ds[..0] == []; }
      TellingDeltaTells(b, market, reg);
      assert !Counted(AfterDeltas(b, market, ds, reg));
    }
  }

  lemma {:induction false} DeltasKeepCounts(b: Book, market: string, ds: seq<BookDelta>, reg: Option<Registered>)
    requires Counted(b)
    requires Effective(b.tickUnits) == Effective(TickOf(reg)) && Effective(b.lotUnits) == Effective(LotOf(reg))
    ensures var c := AfterDeltas(b, market, ds, reg);
            Counted(c) && c.tickUnits == b.tickUnits && c.lotUnits == b.lotUnits
  {
    hide Counted, TickOf, LotOf, Effective, DeltaSide, Midpoint;
    if ds != [] {
      DeltasKeepCounts(b, market, ds[..|ds| - 1], reg);
      SameEffectCounts(AfterDeltas(b, market, ds[..|ds| - 1], reg), market, ds[|ds| - 1], reg);
    }
  }

  lemma SameEffectCounts(b: Book, market: string, d: BookDelta, reg: Option<Registered>)
    requires Counted(b)
    requires Effective(b.tickUnits) == Effective(TickOf(reg)) && Effective(b.lotUnits) == Effective(LotOf(reg))
    ensures Counted(DeltaBook(b, market, d, reg))
  {
    hide ScaledOf, TicksFor, Midpoint, DeltaSide, TickOf, LotOf, Effective;
    var side, hint := if d.buy then b.bestBid else b.bestAsk, if d.buy then d.bestBid else d.bestAsk;
    CountsByEffect(side, b.tickUnits, TickOf(reg), b.lotUnits, LotOf(reg));
    DeltaSideCounts(side, hint, d.price, d.size, d.buy, reg);
    var after := DeltaSide(side, hint, d.price, d.size, d.buy, reg);
    CountsByEffect(after, TickOf(reg), b.tickUnits, LotOf(reg), b.lotUnits);
  }

  lemma CountsByEffect(level: Option<HotLevel>, a: Option<nat>, b: Option<nat>, l: Option<nat>, m: Option<nat>)
    requires Effective(a) == Effective(b) && Effective(l) == Effective(m) && CountsBy(level, a, l)
    ensures CountsBy(level, b, m)
  {
    hide TicksFor, Effective;
    if level.Some? {
      EffectiveCounts(level.value.price.units, a);
      EffectiveCounts(level.value.price.units, b);
      EffectiveCounts(level.value.size.units, l);
      EffectiveCounts(level.value.size.units, m);
    }
  }

  /** A delta naming its own price as the new best, at amounts that tell the steps apart. */
  function TellingDelta(b: Book, reg: Option<Registered>): BookDelta {
    var price := ScaledText(Witness(Effective(b.tickUnits), Effective(TickOf(reg))));
    var size := ScaledText(Witness(Effective(b.lotUnits), Effective(LotOf(reg))));
    BookDelta(price, size, true, Some(price), None)
  }

  lemma TellingDeltaTells(b: Book, market: string, reg: Option<Registered>)
    requires RegHolds(reg) && StepsFit(b.tickUnits, b.lotUnits)
    requires Effective(b.tickUnits) != Effective(TickOf(reg)) || Effective(b.lotUnits) != Effective(LotOf(reg))
    ensures !Counted(DeltaBook(b, market, TellingDelta(b, reg), reg))
  {
    hide ScaledOf, ScaledText, TicksFor, Midpoint, UpdatesBestSide, Reads, LevelReads;
    hide Effective, Witness, TickOf, LotOf;
    var p := Witness(Effective(b.tickUnits), Effective(TickOf(reg)));
    var q := Witness(Effective(b.lotUnits), Effective(LotOf(reg)));
    WitnessFits(b.tickUnits, TickOf(reg));
    WitnessFits(b.lotUnits, LotOf(reg));
    var price, size := ScaledText(p), ScaledText(q);
    assert MakeLevel(price, size, reg) == LevelOf(price, p, size, q, reg) by {
      TrimmedRoundTrip(p);
      TrimmedRoundTrip(q);
    }
    var after := DeltaBook(b, market, TellingDelta(b, reg), reg);
    assert after.bestBid == LevelOf(price, p, size, q, reg);
    assert after.tickUnits == b.tickUnits && after.lotUnits == b.lotUnits;
    if Effective(b.tickUnits) != Effective(TickOf(reg)) {
      WitnessTells(b.tickUnits, TickOf(reg));
    } else {
      WitnessTells(b.lotUnits, LotOf(reg));
    }
  }

  lemma WitnessFits(a: Option<nat>, b: Option<nat>)
    requires (a.Some? ==> a.value <= U64_MAX) && (b.Some? ==> b.value <= U64_MAX)
    ensures Witness(Effective(a), Effective(b)) <= U64_MAX
  {
  }

  /** After a tick size change on a book in step with the registry, every later series of
      deltas counts by the book's tick exactly when the new tick is, in effect, the
      registered one. */
  lemma TickChangeExactly(b: Book, market: string, newTick: string, reg: Option<Registered>)
    requires RegHolds(reg) && StepsFit(b.tickUnits, b.lotUnits) && Registry(b, reg)
    ensures Counted(TickBook(b, market, newTick))
    ensures KeepsCounts(TickBook(b, market, newTick), market, reg)
            <==> Effective(ScaledOf(newTick)) == Effective(TickOf(reg))
  {
    hide ScaledOf, ScaledText, TicksFor, Effective, AfterDeltas, Reads;
    ScaledBound(newTick);
    DeltasKeepCountsExactly(TickBook(b, market, newTick), market, reg);
  }

  // ---- over every run ----

  predicate Names(u: Update, asset: string) {
    u.RegisterMarket? && (u.yes == asset || u.no == asset)
  }

  /** The last registration of an asset. */
  function LastRegistration(updates: seq<Update>, asset: string): Option<Registered> {
    if updates == [] then None
    else
      var u := updates[|updates| - 1];
      if Names(u, asset) then Some(MarketOf(u.market, u.tickSize, u.minOrderSize))
      else LastRegistration(updates[..|updates| - 1], asset)
  }

  predicate About(u: Update, key: Key) {
    !u.Reconnect? && !u.RegisterMarket? && u.key == key
  }

  /** The update puts the registered step sizes back, or drops the book. */
  predicate Resets(u: Update, key: Key, registered: bool) {
    || (About(u, key) && (u.BookSnapshot? || u.Resolution? || (u.BestBidAsk? && registered)))
    || Names(u, key.asset)
    || (u.Reconnect? && u.source == key.source)
  }

  /** The tick size announced for a book and not reset since. */
  function Announced(updates: seq<Update>, key: Key): Option<string> {
    if updates == [] then None
    else
      var before, u := updates[..|updates| - 1], updates[|updates| - 1];
      if About(u, key) && u.TickSizeChange? then Some(u.newTick)
      else if Resets(u, key, LastRegistration(before, key.asset).Some?) then None
      else Announced(before, key)
  }

  ghost predicate Steps(b: Book, announced: Option<string>, reg: Option<Registered>) {
    && b.lotUnits == LotOf(reg)
    && b.tickUnits == if announced.Some? then ScaledOf(announced.value) else TickOf(reg)
  }

  lemma {:induction false} RegistryIsLast(updates: seq<Update>, asset: string)
    ensures RegOf(HotState.After(updates), asset) == LastRegistration(updates, asset)
  {
    hide MarketOf, NewBook, RefreshedIf;
    if updates != [] { RegistryIsLast(updates[..|updates| - 1], asset); }
  }

  ghost predicate StepsHold(updates: seq<Update>, key: Key) {
    var s, announced := HotState.After(updates), Announced(updates, key);
    && (announced.Some? ==> key in s.books)
    && (key in s.books ==> && s.books[key].asset == key.asset
                           && Steps(s.books[key], announced, LastRegistration(updates, key.asset)))
  }

  /** In every run each book uses the tick announced for it and not reset since, and otherwise
      the last registered one; its lot size is always the last registered one. */
  lemma {:induction false} StepsInRuns(updates: seq<Update>, key: Key)
    ensures StepsHold(updates, key)
  {
    hide Steps, NewBook, WithAsset, Announced, LastRegistration, HotState.After;
    if updates == [] {
      NoSteps(key);
    } else {
      var before := updates[..|updates| - 1];
      StepsInRuns(before, key);
      StepsStep(updates, key);
    }
  }

  lemma NoSteps(key: Key)
    ensures StepsHold([], key)
  {
  }

  lemma AfterStep(updates: seq<Update>)
    requires updates != []
    ensures HotState.After(updates) == Apply(HotState.After(updates[..|updates| - 1]), updates[|updates| - 1])
  {
  }

  lemma AnnouncedStep(updates: seq<Update>, key: Key)
    requires updates != []
    ensures var before, u := updates[..|updates| - 1], updates[|updates| - 1];
            && Announced(updates, key) ==
               (if About(u, key) && u.TickSizeChange? then Some(u.newTick)
                else if Resets(u, key, LastRegistration(before, key.asset).Some?) then None
                else Announced(before, key))
            && LastRegistration(updates, key.asset) ==
               (if Names(u, key.asset) then Some(MarketOf(u.market, u.tickSize, u.minOrderSize))
                else LastRegistration(before, key.asset))
  {
  }

  lemma StepsStep(updates: seq<Update>, key: Key)
    requires updates != [] && StepsHold(updates[..|updates| - 1], key)
    ensures StepsHold(updates, key)
  {
    hide Steps, NewBook, WithAsset, Announced, LastRegistration, HotState.After, MarketOf;
    var before, u := updates[..|updates| - 1], updates[|updates| - 1];
    var s := HotState.After(before);
    AfterStep(updates);
    AnnouncedStep(updates, key);
    RegistryIsLast(before, key.asset);
    if u.RegisterMarket? {
      RegisteredSteps(s, u, key, Announced(before, key));
    } else if About(u, key) {
      NewBookSteps(s, u, Announced(before, key));
    }
  }

  lemma RegisteredSteps(s: Store, u: Update, key: Key, announced: Option<string>)
    requires u.RegisterMarket?
    requires key in s.books ==> s.books[key].asset == key.asset && Steps(s.books[key], announced, RegOf(s, key.asset))
    ensures var t := Apply(s, u);
            && (key in t.books <==> key in s.books)
            && (key in t.books ==>
                  && t.books[key].asset == key.asset
                  && Steps(t.books[key], if Names(u, key.asset) then None else announced,
                           if Names(u, key.asset) then Some(MarketOf(u.market, u.tickSize, u.minOrderSize))
                           else RegOf(s, key.asset)))
  {
    hide ScaledOf, TicksFor, MarketOf;
  }

  lemma NewBookSteps(s: Store, u: Update, announced: Option<string>)
    requires !u.Reconnect? && !u.RegisterMarket?
    requires announced.Some? ==> u.key in s.books
    requires u.key in s.books ==>
               s.books[u.key].asset == u.key.asset && Steps(s.books[u.key], announced, RegOf(s, u.key.asset))
    ensures var b, reg := NewBook(s, u), RegOf(s, u.key.asset);
            && b.asset == u.key.asset
            && Steps(b, if u.TickSizeChange? then Some(u.newTick)
                        else if Resets(u, u.key, reg.Some?) then None else announced, reg)
  {
    hide ScaledOf, TicksFor, MakeLevel, BestLevel, Midpoint, DeltaSide;
  }

  /** The tick in use counts like the registered one. */
  predicate InEffect(updates: seq<Update>, key: Key) {
    var announced := Announced(updates, key);
    announced.Some? ==>
      Effective(ScaledOf(announced.value)) == Effective(TickOf(LastRegistration(updates, key.asset)))
  }

  /** Since the levels of a book were last counted afresh, each update that counts by the
      registered tick found that one in effect. */
  predicate CountedSince(updates: seq<Update>, key: Key) {
    updates != [] ==>
      var before, u := updates[..|updates| - 1], updates[|updates| - 1];
      if Resets(u, key, LastRegistration(before, key.asset).Some?) || (About(u, key) && u.TickSizeChange?) then true
      else if About(u, key) then InEffect(before, key) && (u.BestBidAsk? || CountedSince(before, key))
      else CountedSince(before, key)
  }

  /** In every run, every book for which that is so counts by its own step sizes. */
  lemma {:induction false} CountedInRuns(updates: seq<Update>, key: Key)
    requires CountedSince(updates, key) && key in HotState.After(updates).books
    ensures Counted(HotState.After(updates).books[key])
  {
    hide Counted, NewBook, WithAsset, HotState.After, InEffect, Announced, LastRegistration;
    assert updates != [] by { NoBooks(); }
    var before, u := updates[..|updates| - 1], updates[|updates| - 1];
    var s := HotState.After(before);
    AfterStep(updates);
    StepsInRuns(before, key);
    RegistryIsLast(before, key.asset);
    if u.RegisterMarket? {
      if key in s.books && !Names(u, key.asset) { CountedInRuns(before, key); }
      RegisteredCounts(s, u, key);
    } else if About(u, key) {
      if u.Delta? && key in s.books { CountedInRuns(before, key); }
      InEffectIs(before, key);
      NewBookCountsBy(s, u, Announced(before, key), InEffect(before, key));
    } else if key in s.books {
      CountedInRuns(before, key);
    }
  }

  lemma NoBooks()
    ensures HotState.After([]).books == map[]
  {
  }

  lemma InEffectIs(updates: seq<Update>, key: Key)
    ensures InEffect(updates, key) <==>
            (Announced(updates, key).Some? ==>
               Effective(ScaledOf(Announced(updates, key).value))
               == Effective(TickOf(LastRegistration(updates, key.asset))))
  {
  }

  lemma RegisteredCounts(s: Store, u: Update, key: Key)
    requires u.RegisterMarket? && (key in s.books ==> s.books[key].asset == key.asset)
    requires key in s.books && !Names(u, key.asset) ==> Counted(s.books[key])
    ensures key in Apply(s, u).books ==> Counted(Apply(s, u).books[key])
  {
    hide ScaledOf, TicksFor, MarketOf;
  }

  lemma NewBookCountsBy(s: Store, u: Update, announced: Option<string>, inEffect: bool)
    requires !u.Reconnect? && !u.RegisterMarket?
    requires announced.Some? ==> u.key in s.books
    requires u.key in s.books ==> Steps(s.books[u.key], announced, RegOf(s, u.key.asset))
    requires inEffect && announced.Some? ==>
               Effective(ScaledOf(announced.value)) == Effective(TickOf(RegOf(s, u.key.asset)))
    requires !Resets(u, u.key, RegOf(s, u.key.asset).Some?) && !u.TickSizeChange? ==> inEffect
    requires u.Delta? && u.key in s.books ==> Counted(s.books[u.key])
    ensures Counted(NewBook(s, u))
  {
    hide ScaledOf, TicksFor, MakeLevel, BestLevel, Midpoint, DeltaSide, Effective;
    var reg := RegOf(s, u.key.asset);
    if u.BookSnapshot? {
      BestLevelCounts(u.bids, true, reg);
      BestLevelCounts(u.asks, false, reg);
    } else if u.Delta? {
      SameEffectCounts(BookOr(s, u.key, u.market), u.market, u.delta, reg);
    } else if u.BestBidAsk? {
      if reg.None? {
        var b := BookOr(s, u.key, u.market);
        MakeLevelCounts(u.bid, "0", reg);
        MakeLevelCounts(u.ask, "0", reg);
        CountsByEffect(MakeLevel(u.bid, "0", reg), TickOf(reg), b.tickUnits, LotOf(reg), b.lotUnits);
        CountsByEffect(MakeLevel(u.ask, "0", reg), TickOf(reg), b.tickUnits, LotOf(reg), b.lotUnits);
      }
    } else if u.Resolution? {
      if u.bestBid.Some? { MakeLevelCounts(u.bestBid.value.price, u.bestBid.value.size, reg); }
      if u.bestAsk.Some? { MakeLevelCounts(u.bestAsk.value.price, u.bestAsk.value.size, reg); }
    }
  }

  lemma {:induction false} NothingAnnounced(updates: seq<Update>, key: Key)
    requires forall u | u in updates :: !u.TickSizeChange?
    ensures Announced(updates, key).None? && CountedSince(updates, key)
  {
    if updates != [] { NothingAnnounced(updates[..|updates| - 1], key); }
  }

  /** In every run without a tick size change, whatever the order of registrations and updates,
      each book uses the step sizes registered last for its asset and counts by them. */
  lemma CountsFollowTheBook(updates: seq<Update>, key: Key)
    requires forall u | u in updates :: !u.TickSizeChange?
    requires key in HotState.After(updates).books
    ensures var b := HotState.After(updates).books[key];
            Counted(b) && Registry(b, LastRegistration(updates, key.asset))
  {
    hide Counted, HotState.After, CountedSince, Announced, LastRegistration;
    NothingAnnounced(updates, key);
    StepsInRuns(updates, key);
    CountedInRuns(updates, key);
  }

  /** And of those books, in every run, all further deltas go on counting right exactly when no
      tick is announced but not reset, or the announced one is in effect the registered one. */
  lemma RunsCountExactly(updates: seq<Update>, key: Key, market: string)
    requires CountedSince(updates, key) && key in HotState.After(updates).books
    ensures KeepsCounts(HotState.After(updates).books[key], market, LastRegistration(updates, key.asset)) <==>
            InEffect(updates, key)
  {
    hide HotState.After, KeepsCounts, Announced, LastRegistration, Counted, ScaledOf, Effective, CountedSince;
    var s := HotState.After(updates);
    CountedInRuns(updates, key);
    StepsInRuns(updates, key);
    RegistryIsLast(updates, key.asset);
    AfterHolds(updates);
    ReachableFits(s, key);
    DeltasKeepCountsExactly(s.books[key], market, LastRegistration(updates, key.asset));
  }

  lemma ReachableFits(s: Store, key: Key)
    requires Holds(s) && key in s.books
    ensures StepsFit(s.books[key].tickUnits, s.books[key].lotUnits) && RegHolds(RegOf(s, key.asset))
  {
    hide Reads, ScaledText;
    assert BookHolds(key, s.books[key]);
  }
}
