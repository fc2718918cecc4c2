/** The hot state: per source and asset, the best level of each side with its tick and lot
    counts, and the midpoint. */
module HotState {
  import opened Text
  import opened Words
  import opened Units
  import PriceLadders

  type Level = PriceLadders.Level

  datatype HotValue = HotValue(exact: string, units: nat)
  datatype HotLevel = HotLevel(price: HotValue, size: HotValue, priceTicks: Option<nat>, sizeLots: Option<nat>)
  datatype Registered = Registered(market: string, tickSize: string, tickUnits: nat,
                                   lotSize: Option<string>, lotUnits: Option<nat>)
  datatype Key = Key(source: string, asset: string)
  datatype Book = Book(market: Option<string>, asset: string,
                       bestBid: Option<HotLevel>, bestAsk: Option<HotLevel>, midpoint: Option<HotValue>,
                       tickSize: Option<string>, tickUnits: Option<nat>,
                       lotSize: Option<string>, lotUnits: Option<nat>)
  datatype Store = Store(markets: map<string, Registered>, books: map<Key, Book>)

  // ---- levels ----

  /** How often the step goes into an amount, if it does so exactly. */
  function TicksFor(units: nat, step: Option<nat>): Option<nat> {
    if step.None? || step.value == 0 || units % step.value != 0 then None else Some(units / step.value)
  }

  function MakeLevel(price: string, size: string, reg: Option<Registered>): Option<HotLevel> {
    if ScaledOf(price).None? || ScaledOf(size).None? then None
    else LevelOf(price, ScaledOf(price).value, size, ScaledOf(size).value, reg)
  }

  function LevelOf(price: string, p: nat, size: string, q: nat, reg: Option<Registered>): Option<HotLevel> {
    Some(HotLevel(HotValue(price, p), HotValue(size, q), TicksFor(p, TickOf(reg)), TicksFor(q, LotOf(reg))))
  }

  function TickOf(reg: Option<Registered>): Option<nat> {
    if reg.None? then None else Some(reg.value.tickUnits)
  }

  function LotOf(reg: Option<Registered>): Option<nat> {
    if reg.None? then None else reg.value.lotUnits
  }

  predicate Beats(candidate: HotLevel, current: HotLevel, takeMax: bool) {
    if takeMax then candidate.price.units > current.price.units
    else candidate.price.units < current.price.units
  }

  /** The first of the best among the readable levels. */
  function BestLevel(levels: seq<Level>, takeMax: bool, reg: Option<Registered>): Option<HotLevel> {
    if levels == [] then None
    else
      var n := |levels| - 1;
      var before, candidate := BestLevel(levels[..n], takeMax, reg), MakeLevel(levels[n].price, levels[n].size, reg);
      if candidate.None? then before
      else if before.None? || Beats(candidate.value, before.value, takeMax) then candidate
      else before
  }

  /** The sum of the two prices is a u64: it wraps. */
  function MidpointUnits(bid: nat, ask: nat): nat {
    (bid + ask) % WORD / 2
  }

  function Midpoint(bid: Option<HotLevel>, ask: Option<HotLevel>): Option<HotValue> {
    if bid.None? || ask.None? then None
    else
      var u := MidpointUnits(bid.value.price.units, ask.value.price.units);
      Some(HotValue(ScaledText(u), u))
  }

  predicate UpdatesBestSide(current: Option<HotLevel>, candidate: Option<HotLevel>, takeMax: bool) {
    candidate.Some? && (current.None? || !Beats(current.value, candidate.value, takeMax))
  }

  function Refreshed(level: Option<HotLevel>, tick: Option<nat>, lot: Option<nat>): Option<HotLevel> {
    if level.None? then None
    else Some(level.value.(priceTicks := TicksFor(level.value.price.units, tick),
                           sizeLots := TicksFor(level.value.size.units, lot)))
  }

  // ---- books ----

  function Empty(market: Option<string>, asset: string, reg: Option<Registered>): Book {
    Book(market, asset, None, None, None,
         if reg.None? then None else Some(reg.value.tickSize), TickOf(reg),
         if reg.None? then None else reg.value.lotSize, LotOf(reg))
  }

  function WithMarket(b: Book, reg: Registered): Book {
    b.(market := Some(reg.market),
    tickSize := Some(reg.tickSize), tickUnits := Some(reg.tickUnits),
    lotSize := reg.lotSize, lotUnits := reg.lotUnits,
    bestBid := Refreshed(b.bestBid, Some(reg.tickUnits), reg.lotUnits),
    bestAsk := Refreshed(b.bestAsk, Some(reg.tickUnits), reg.lotUnits))
  }

  function WithMarketIfAny(b: Book, reg: Option<Registered>): Book {
    if reg.None? then b else WithMarket(b, reg.value)
  }

  function Finished(b: Book): Book {
    b.(midpoint := Midpoint(b.bestBid, b.bestAsk))
  }

  /** A side after a delta. A hint naming the new best price wins; its size is that of the
      delta when the prices are the same text, and the previous best's size otherwise. */
  function DeltaSide(current: Option<HotLevel>, hint: Option<string>, price: string, size: string, buy: bool,
                     reg: Option<Registered>): Option<HotLevel> {
    if hint.Some? then
      MakeLevel(hint.value, if hint.value == price then size
                            else if current.Some? then current.value.size.exact else "0", reg)
    else if UpdatesBestSide(current, MakeLevel(price, size, reg), buy) then MakeLevel(price, size, reg)
    else current
  }

  function DeltaBook(b: Book, market: string, d: BookDelta, reg: Option<Registered>): Book {
    var c := b.(market := Some(market));
    Finished(if d.buy then c.(bestBid := DeltaSide(b.bestBid, d.bestBid, d.price, d.size, true, reg))
             else c.(bestAsk := DeltaSide(b.bestAsk, d.bestAsk, d.price, d.size, false, reg)))
  }

  function TickBook(b: Book, market: string, newTick: string): Book {
    Finished(b.(market := Some(market), tickSize := Some(newTick), tickUnits := ScaledOf(newTick),
             bestBid := Refreshed(b.bestBid, ScaledOf(newTick), b.lotUnits),
             bestAsk := Refreshed(b.bestAsk, ScaledOf(newTick), b.lotUnits)))
  }

  // ---- the store ----

  datatype BookDelta = BookDelta(price: string, size: string, buy: bool,
                                 bestBid: Option<string>, bestAsk: Option<string>)

  datatype Update =
    | BookSnapshot(key: Key, market: string, bids: seq<Level>, asks: seq<Level>)
    | Delta(key: Key, market: string, delta: BookDelta)
    | BestBidAsk(key: Key, market: string, bid: string, ask: string)
    | Resolution(key: Key, bestBid: Option<Level>, bestAsk: Option<Level>)
    | TickSizeChange(key: Key, market: string, newTick: string)
    | Reconnect(source: string)
    | RegisterMarket(market: string, yes: string, no: string, tickSize: string, minOrderSize: Option<string>)

  function RegOf(s: Store, asset: string): Option<Registered> {
    if asset in s.markets then Some(s.markets[asset]) else None
  }

  function BookOr(s: Store, key: Key, market: string): Book {
    if key in s.books then s.books[key] else Empty(Some(market), key.asset, RegOf(s, key.asset))
  }

  function LevelIfAny(level: Option<Level>, reg: Option<Registered>): Option<HotLevel> {
    if level.None? then None else MakeLevel(level.value.price, level.value.size, reg)
  }

  function MarketOf(market: string, tickSize: string, minOrderSize: Option<string>): Registered {
    Registered(market, tickSize, ScaledOf(tickSize).GetOr(0), minOrderSize,
               if minOrderSize.None? then None else ScaledOf(minOrderSize.value))
  }

  function RefreshedIf(b: Book, asset: string, reg: Registered): Book {
    if b.asset == asset then WithMarket(b, reg) else b
  }

  function WithAsset(s: Store, asset: string, reg: Registered): Store {
    Store(s.markets[asset := reg], map k | k in s.books :: RefreshedIf(s.books[k], asset, reg))
  }

  /** The book an update leaves under its key. */
  function NewBook(s: Store, u: Update): Book
    requires !u.Reconnect? && !u.RegisterMarket?
  {
    var reg := RegOf(s, u.key.asset);
    match u
    case BookSnapshot(key, market, bids, asks) =>
      Finished(WithMarketIfAny(Empty(Some(market), key.asset, reg)
                               .(bestBid := BestLevel(bids, true, reg), bestAsk := BestLevel(asks, false, reg)), reg))
    case Delta(key, market, d) => DeltaBook(BookOr(s, key, market), market, d, reg)
    case BestBidAsk(key, market, bid, ask) =>
      Finished(WithMarketIfAny(BookOr(s, key, market)
                               .(market := Some(market),
                               bestBid := MakeLevel(bid, "0", reg), bestAsk := MakeLevel(ask, "0", reg)), reg))
    case Resolution(key, bid, ask) =>
      var known := if reg.Some? then Some(reg.value.market) else if key in s.books then s.books[key].market else None;
      Finished(WithMarketIfAny(Empty(known, key.asset, reg)
                               .(bestBid := LevelIfAny(bid, reg), bestAsk := LevelIfAny(ask, reg)), reg))
    case TickSizeChange(key, market, newTick) => TickBook(BookOr(s, key, market), market, newTick)
  }

  function Apply(s: Store, u: Update): Store {
    match u
    case Reconnect(source) => s.(books := map k | k in s.books && k.source != source :: s.books[k])
    case RegisterMarket(market, yes, no, tickSize, minOrderSize) =>
      var reg := MarketOf(market, tickSize, minOrderSize);
      WithAsset(WithAsset(s, yes, reg), no, reg)
    case _ => s.(books := s.books[u.key := NewBook(s, u)])
  }

  function After(updates: seq<Update>): Store {
    if updates == [] then Store(map[], map[])
    else Apply(After(updates[..|updates| - 1]), updates[|updates| - 1])
  }

  class HotStateStore {
    var markets: map<string, Registered>
    var books: map<Key, Book>

    function State(): Store
      reads this
    {
      Store(markets, books)
    }

    constructor ()
      ensures State() == After([])
    {
      markets, books := map[], map[];
    }

    method RegisterMarket(market: string, yes: string, no: string, tickSize: string, minOrderSize: Option<string>)
      modifies this
      ensures State() == Apply(old(State()), Update.RegisterMarket(market, yes, no, tickSize, minOrderSize))
    {
      hide ScaledOf;
      var reg := MarketOf(market, tickSize, minOrderSize);
      RegisterAsset(yes, reg);
      RegisterAsset(no, reg);
    }

    method RegisterAsset(asset: string, reg: Registered)
      modifies this
      ensures State() == WithAsset(old(State()), asset, reg)
    {
      hide WithMarket;
      ghost var before := books;
      markets := markets[asset := reg];
      var todo := books.Keys;
      while todo != {}
        invariant todo <= books.Keys == before.Keys
        invariant forall k | k in books ::
                    books[k] == if k in todo then before[k] else RefreshedIf(before[k], asset, reg)
        invariant markets == old(markets)[asset := reg]
        decreases |todo|
      {
        var k :| k in todo;
        todo := todo - {k};
        if books[k].asset == asset {
          books := books[k := WithMarket(books[k], reg)];
        }
      }
      assert books == map k | k in before :: RefreshedIf(before[k], asset, reg);
    }

    method ApplyBookSnapshot(key: Key, market: string, bids: seq<Level>, asks: seq<Level>)
      modifies this
      ensures State() == Apply(old(State()), BookSnapshot(key, market, bids, asks))
    {
      hide BestLevel, ScaledText;
      var reg := RegOf(State(), key.asset);
      var state := Empty(Some(market), key.asset, reg);
      state := state.(bestBid := BestLevel(bids, true, reg), bestAsk := BestLevel(asks, false, reg));
      if reg.Some? { state := WithMarket(state, reg.value); }
      state := state.(midpoint := Midpoint(state.bestBid, state.bestAsk));
      books := books[key := state];
    }

    method ApplyBookDelta(key: Key, market: string, d: BookDelta)
      modifies this
      ensures State() == Apply(old(State()), Delta(key, market, d))
    {
      hide ScaledOf, ScaledText;
      var reg := RegOf(State(), key.asset);
      var state := if key in books then books[key] else Empty(Some(market), key.asset, reg);
      state := state.(market := Some(market));
      var candidate := MakeLevel(d.price, d.size, reg);
      if d.buy {
        if d.bestBid.Some? {
          var size := if d.bestBid.value == d.price then d.size
                      else if state.bestBid.Some? then state.bestBid.value.size.exact else "0";
          state := state.(bestBid := MakeLevel(d.bestBid.value, size, reg));
        } else if UpdatesBestSide(state.bestBid, candidate, true) {
          state := state.(bestBid := candidate);
        }
      } else {
        if d.bestAsk.Some? {
          var size := if d.bestAsk.value == d.price then d.size
                      else if state.bestAsk.Some? then state.bestAsk.value.size.exact else "0";
          state := state.(bestAsk := MakeLevel(d.bestAsk.value, size, reg));
        } else if UpdatesBestSide(state.bestAsk, candidate, false) {
          state := state.(bestAsk := candidate);
        }
      }
      state := state.(midpoint := Midpoint(state.bestBid, state.bestAsk));
      books := books[key := state];
    }

    method ApplyBestBidAsk(key: Key, market: string, bid: string, ask: string)
      modifies this
      ensures State() == Apply(old(State()), BestBidAsk(key, market, bid, ask))
    {
      hide ScaledOf, ScaledText;
      var reg := RegOf(State(), key.asset);
      var state := if key in books then books[key] else Empty(Some(market), key.asset, reg);
      state := state.(market := Some(market));
      state := state.(bestBid := MakeLevel(bid, "0", reg), bestAsk := MakeLevel(ask, "0", reg));
      if reg.Some? { state := WithMarket(state, reg.value); }
      state := state.(midpoint := Midpoint(state.bestBid, state.bestAsk));
      books := books[key := state];
    }

    method ApplyOrderBookResolution(key: Key, bid: Option<Level>, ask: Option<Level>)
      modifies this
      ensures State() == Apply(old(State()), Resolution(key, bid, ask))
    {
      hide ScaledOf, ScaledText;
      var reg := RegOf(State(), key.asset);
      var known := if reg.Some? then Some(reg.value.market) else if key in books then books[key].market else None;
      var state := Empty(known, key.asset, reg);
      state := state.(bestBid := LevelIfAny(bid, reg), bestAsk := LevelIfAny(ask, reg));
      if reg.Some? { state := WithMarket(state, reg.value); }
      state := state.(midpoint := Midpoint(state.bestBid, state.bestAsk));
      books := books[key := state];
    }

    method ApplyTickSizeChange(key: Key, market: string, newTick: string)
      modifies this
      ensures State() == Apply(old(State()), TickSizeChange(key, market, newTick))
    {
      hide ScaledOf, ScaledText;
      var state := if key in books then books[key] else Empty(Some(market), key.asset, RegOf(State(), key.asset));
      state := state.(market := Some(market));
      state := state.(tickSize := Some(newTick), tickUnits := ScaledOf(newTick));
      state := state.(bestBid := Refreshed(state.bestBid, state.tickUnits, state.lotUnits));
      state := state.(bestAsk := Refreshed(state.bestAsk, state.tickUnits, state.lotUnits));
      state := state.(midpoint := Midpoint(state.bestBid, state.bestAsk));
      books := books[key := state];
    }

    method ApplyReconnect(source: string)
      modifies this
      ensures State() == Apply(old(State()), Reconnect(source))
    {
      books := map k | k in books && k.source != source :: books[k];
    }
  }

  // ---- what every reachable store keeps ----

  ghost predicate Reads(v: HotValue) {
    ScaledOf(v.exact) == Some(v.units) && v.units <= U64_MAX
  }

  ghost predicate LevelReads(level: Option<HotLevel>) {
    level.Some? ==> Reads(level.value.price) && Reads(level.value.size)
  }

  ghost predicate BookHolds(key: Key, b: Book) {
    && b.asset == key.asset
    && LevelReads(b.bestBid) && LevelReads(b.bestAsk)
    && b.midpoint == Midpoint(b.bestBid, b.bestAsk)
    && StepsFit(b.tickUnits, b.lotUnits)
  }

  /** Step sizes are u64. */
  predicate StepsFit(tick: Option<nat>, lot: Option<nat>) {
    (tick.Some? ==> tick.value <= U64_MAX) && (lot.Some? ==> lot.value <= U64_MAX)
  }

  predicate RegHolds(reg: Option<Registered>) {
    StepsFit(TickOf(reg), LotOf(reg))
  }

  ghost predicate Holds(s: Store) {
    && (forall a | a in s.markets :: RegHolds(Some(s.markets[a])))
    && (forall k | k in s.books :: BookHolds(k, s.books[k]))
  }

  lemma MakeLevelReads(price: string, size: string, reg: Option<Registered>)
    ensures LevelReads(MakeLevel(price, size, reg))
  {
    hide ScaledOf;
    ScaledBound(price);
    ScaledBound(size);
  }

  lemma {:induction false} BestLevelReads(levels: seq<Level>, takeMax: bool, reg: Option<Registered>)
    ensures LevelReads(BestLevel(levels, takeMax, reg))
  {
    hide LevelReads, MakeLevel, Beats;
    if levels == [] {
      assert LevelReads(None) by { NoLevelReads(); }
    } else {
      BestLevelReads(levels[..|levels| - 1], takeMax, reg);
      MakeLevelReads(levels[|levels| - 1].price, levels[|levels| - 1].size, reg);
    }
  }

  lemma NoLevelReads()
    ensures LevelReads(None)
  {
  }

  lemma NewBookHolds(s: Store, u: Update)
    requires Holds(s) && !u.Reconnect? && !u.RegisterMarket?
    ensures BookHolds(u.key, NewBook(s, u))
  {
    hide ScaledOf, ScaledText, MakeLevel, BestLevel, MidpointUnits, UpdatesBestSide, TicksFor, Reads;
    hide DeltaSide, LevelIfAny;
    var reg := RegOf(s, u.key.asset);
    assert RegHolds(reg);
    if u.BookSnapshot? {
      BestLevelReads(u.bids, true, reg);
      BestLevelReads(u.asks, false, reg);
    } else if u.Delta? {
      var b, d := BookOr(s, u.key, u.market), u.delta;
      DeltaSideReads(b.bestBid, d.bestBid, d.price, d.size, true, reg);
      DeltaSideReads(b.bestAsk, d.bestAsk, d.price, d.size, false, reg);
    } else if u.BestBidAsk? {
      MakeLevelReads(u.bid, "0", reg);
      MakeLevelReads(u.ask, "0", reg);
    } else if u.Resolution? {
      LevelIfAnyReads(u.bestBid, reg);
      LevelIfAnyReads(u.bestAsk, reg);
    } else {
      ScaledBound(u.newTick);
    }
  }

  lemma LevelIfAnyReads(level: Option<Level>, reg: Option<Registered>)
    ensures LevelReads(LevelIfAny(level, reg))
  {
    hide MakeLevel, Reads;
    if level.Some? { MakeLevelReads(level.value.price, level.value.size, reg); }
  }

  lemma DeltaSideReads(current: Option<HotLevel>, hint: Option<string>, price: string, size: string, buy: bool,
                       reg: Option<Registered>)
    requires LevelReads(current)
    ensures LevelReads(DeltaSide(current, hint, price, size, buy, reg))
  {
    hide LevelReads, MakeLevel, UpdatesBestSide;
    MakeLevelReads(price, size, reg);
    if hint.Some? {
      MakeLevelReads(hint.value, if hint.value == price then size
                                 else if current.Some? then current.value.size.exact else "0", reg);
    }
  }

  lemma WithAssetHolds(s: Store, asset: string, reg: Registered)
    requires Holds(s) && RegHolds(Some(reg))
    ensures Holds(WithAsset(s, asset, reg))
  {
    hide ScaledOf, ScaledText, MidpointUnits, TicksFor, Reads;
  }

  lemma ApplyHolds(s: Store, u: Update)
    requires Holds(s)
    ensures Holds(Apply(s, u))
  {
    hide ScaledOf, ScaledText, WithAsset, BookHolds, NewBook;
    if u.RegisterMarket? {
      var reg := MarketOf(u.market, u.tickSize, u.minOrderSize);
      ScaledBound(u.tickSize);
      if u.minOrderSize.Some? { ScaledBound(u.minOrderSize.value); }
      WithAssetHolds(s, u.yes, reg);
      WithAssetHolds(WithAsset(s, u.yes, reg), u.no, reg);
    } else if !u.Reconnect? {
      NewBookHolds(s, u);
    }
  }

  lemma {:induction false} AfterHolds(updates: seq<Update>)
    ensures Holds(After(updates))
  {
    hide Apply, Holds;
    if updates == [] {
      EmptyHolds();
    } else {
      AfterHolds(updates[..|updates| - 1]);
      ApplyHolds(After(updates[..|updates| - 1]), updates[|updates| - 1]);
    }
  }

  lemma EmptyHolds()
    ensures Holds(Store(map[], map[]))
  {
  }

  lemma MidpointFloors(bid: nat, ask: nat)
    requires bid <= U64_MAX && ask <= U64_MAX
    ensures MidpointUnits(bid, ask) <= U64_MAX
    ensures MidpointUnits(bid, ask) == (bid + ask) / 2 <==> bid + ask < WORD
  {
    if bid + ask < WORD {
      assert (bid + ask) % WORD == bid + ask;
    } else {
      assert (bid + ask) % WORD == bid + ask - WORD;
    }
  }

  /** In every reachable store a book has a midpoint exactly when both sides exist. It prints
      what it counts, and it is the floor of the average exactly when the two prices add up
      below 2^64. */
  lemma MidpointIsAverage(updates: seq<Update>, key: Key)
    requires key in After(updates).books
    ensures var b := After(updates).books[key];
            && (b.midpoint.Some? <==> b.bestBid.Some? && b.bestAsk.Some?)
            && (b.midpoint.Some? ==>
                  var bid, ask, mid := b.bestBid.value.price.units, b.bestAsk.value.price.units, b.midpoint.value;
                  && ScaledOf(mid.exact) == Some(mid.units)
                  && (mid.units == (bid + ask) / 2 <==> bid + ask < WORD))
  {
    hide After, ScaledOf, ScaledText, MidpointUnits;
    AfterHolds(updates);
    var b := After(updates).books[key];
    assert BookHolds(key, b);
    if b.midpoint.Some? {
      var bid, ask := b.bestBid.value.price.units, b.bestAsk.value.price.units;
      assert Reads(b.bestBid.value.price) && Reads(b.bestAsk.value.price);
      MidpointFloors(bid, ask);
      TrimmedRoundTrip(MidpointUnits(bid, ask));
    }
  }

  lemma OnlyLevel(level: Level, takeMax: bool, reg: Option<Registered>)
    ensures BestLevel([level], takeMax, reg) == MakeLevel(level.price, level.size, reg)
  {
    hide MakeLevel;
    assert [level][..0] == [];
  }

  lemma MidpointOfTens()
    ensures MidpointUnits(10_000_000_000_000_000_000, 10_000_000_000_000_000_000) == 776_627_963_145_224_192
  {
  }

  lemma AfterOne(update: Update)
    requires update.BookSnapshot?
    ensures After([update]).books == map[update.key := NewBook(Store(map[], map[]), update)]
  {
    hide NewBook;
    assert [update][..0] == [];
  }

  /** Ten million million on both sides: the midpoint is not even near. */
  lemma MidpointWraps(key: Key)
    ensures var ten := ScaledText(10_000_000_000_000_000_000);
            var s := After([BookSnapshot(key, "", [PriceLadders.Level(ten, ten)], [PriceLadders.Level(ten, ten)])]);
            && key in s.books && s.books[key].midpoint.Some?
            && s.books[key].bestBid.value.price.units == 10_000_000_000_000_000_000
            && s.books[key].bestAsk.value.price.units == 10_000_000_000_000_000_000
            && s.books[key].midpoint.value.units == 776_627_963_145_224_192
  {
    hide ScaledOf, ScaledText, TicksFor, BestLevel, After, MidpointUnits;
    var u: nat := 10_000_000_000_000_000_000;
    var level := PriceLadders.Level(ScaledText(u), ScaledText(u));
    TrimmedRoundTrip(u);
    AfterOne(BookSnapshot(key, "", [level], [level]));
    OnlyLevel(level, true, None);
    OnlyLevel(level, false, None);
    MidpointOfTens();
  }
}
