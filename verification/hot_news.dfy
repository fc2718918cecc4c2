/** Each side of a book of the hot state against the updates of its key: which of them it comes
    from, over whole runs of the store. */
module HotNews {
  import opened Text
  import opened Units
  import opened PriceLadders
  import opened HotState
  import opened HotAgreement
  import opened HotRuns
  import opened HotTicks

  /** What one side of a book has been told since the last reconnect of its source. */
  function SideNews(updates: seq<Update>, key: Key, buy: bool): seq<SideEvent> {
    if updates == [] then []
    else
      var before, u := SideNews(updates[..|updates| - 1], key, buy), updates[|updates| - 1];
      if u.Reconnect? then (if u.source == key.source then [] else before)
      else if u.RegisterMarket? || u.key != key then before
      else before + Tells(u, buy)
  }

  /** What an update of a key tells one side: of a snapshot its own list, of a delta only what
      concerns its side, of quotes and resolutions its half; of tick sizes nothing. */
  function Tells(u: Update, buy: bool): seq<SideEvent> {
    match u
    case BookSnapshot(_, _, bids, asks) => [Reset(if buy then bids else asks)]
    case Delta(_, _, d) =>
      if d.buy != buy then [] else [Change(d.price, d.size, if buy then d.bestBid else d.bestAsk)]
    case BestBidAsk(_, _, bid, ask) => [Quote(if buy then bid else ask)]
    case Resolution(_, bid, ask) => [Show(if buy then bid else ask)]
    case _ => []
  }

  function Side(b: Book, buy: bool): Option<HotLevel> {
    if buy then b.bestBid else b.bestAsk
  }

  function SideOf(s: Store, key: Key, buy: bool): Option<HotLevel> {
    if key in s.books then Side(s.books[key], buy) else None
  }

  /** A level without its tick and lot counts. */
  function Bare(level: Option<HotLevel>): Option<HotLevel> {
    if level.None? then None else Some(level.value.(priceTicks := None, sizeLots := None))
  }

  lemma MadeBare(price: string, size: string, reg: Option<Registered>)
    ensures Bare(MakeLevel(price, size, reg)) == Bare(MakeLevel(price, size, None))
  {
    hide ScaledOf, TicksFor;
  }

  lemma {:induction false} BestBare(levels: seq<Level>, takeMax: bool, reg: Option<Registered>)
    ensures Bare(BestLevel(levels, takeMax, reg)) == Bare(BestLevel(levels, takeMax, None))
  {
    hide MakeLevel;
    if levels != [] {
      BestBare(levels[..|levels| - 1], takeMax, reg);
      MadeBare(levels[|levels| - 1].price, levels[|levels| - 1].size, reg);
    }
  }

  lemma DeltaBare(current: Option<HotLevel>, other: Option<HotLevel>, hint: Option<string>, price: string,
                  size: string, buy: bool, reg: Option<Registered>)
    requires Bare(current) == Bare(other)
    ensures Bare(DeltaSide(current, hint, price, size, buy, reg)) ==
            Bare(DeltaSide(other, hint, price, size, buy, None))
  {
    hide MakeLevel;
    MadeBare(price, size, reg);
    if hint.Some? {
      MadeBare(hint.value, if hint.value == price then size
                           else if current.Some? then current.value.size.exact else "0", reg);
    }
  }

  lemma RefreshedBare(level: Option<HotLevel>, tick: Option<nat>, lot: Option<nat>)
    ensures Bare(Refreshed(level, tick, lot)) == Bare(level)
  {
    hide TicksFor;
  }

  lemma MarketBare(b: Book, reg: Option<Registered>, buy: bool)
    ensures Bare(Side(Finished(WithMarketIfAny(b, reg)), buy)) == Bare(Side(b, buy))
  {
    hide TicksFor, ScaledText, Midpoint;
  }

  ghost predicate Follows(updates: seq<Update>, key: Key, buy: bool) {
    var s, news := HotState.After(updates), SideNews(updates, key, buy);
    && Bare(SideOf(s, key, buy)) == Bare(HotAfter(news, buy, None))
    && (key !in s.books ==> news == [])
  }

  /** In every run each side of each book shows, up to its counts, what its own updates since
      the last reconnect of its source make of it: nothing of the other side, of other assets,
      other sources, registrations and tick sizes ever reaches it. */
  lemma {:induction false} SidesFollowTheirNews(updates: seq<Update>, key: Key, buy: bool)
    ensures Follows(updates, key, buy)
  {
    hide Follows;
    if updates == [] {
      NoNews(key, buy);
    } else {
      SidesFollowTheirNews(updates[..|updates| - 1], key, buy);
      NewsStep(updates, key, buy);
    }
  }

  lemma NoNews(key: Key, buy: bool)
    ensures Follows([], key, buy)
  {
  }

  lemma NothingHot(buy: bool)
    ensures HotAfter([], buy, None) == None
  {
  }

  lemma NewsStep(updates: seq<Update>, key: Key, buy: bool)
    requires updates != [] && Follows(updates[..|updates| - 1], key, buy)
    ensures Follows(updates, key, buy)
  {
    hide Bare, NewBook, HotAfter, WithAsset, Tells, SideNews;
    var before, u := updates[..|updates| - 1], updates[|updates| - 1];
    AfterStep(updates);
    SideNewsStep(updates, key, buy);
    if u.RegisterMarket? {
      hide SideOf;
      var s, reg := HotState.After(before), MarketOf(u.market, u.tickSize, u.minOrderSize);
      RegisteredBare(s, u.yes, reg, key, buy);
      RegisteredBare(WithAsset(s, u.yes, reg), u.no, reg, key, buy);
    } else if u.Reconnect? {
      NothingHot(buy);
    } else if u.key == key {
      NewBookBare(HotState.After(before), u, SideNews(before, key, buy), buy);
    }
  }

  lemma SideNewsStep(updates: seq<Update>, key: Key, buy: bool)
    requires updates != []
    ensures var before, u := SideNews(updates[..|updates| - 1], key, buy), updates[|updates| - 1];
            SideNews(updates, key, buy) ==
            if u.Reconnect? then (if u.source == key.source then [] else before)
            else if u.RegisterMarket? || u.key != key then before
            else before + Tells(u, buy)
  {
    hide Tells;
  }

  lemma RegisteredBare(s: Store, asset: string, reg: Registered, key: Key, buy: bool)
    ensures Bare(SideOf(WithAsset(s, asset, reg), key, buy)) == Bare(SideOf(s, key, buy))
    ensures key in WithAsset(s, asset, reg).books <==> key in s.books
  {
    hide TicksFor;
  }

  lemma NewBookBare(s: Store, u: Update, news: seq<SideEvent>, buy: bool)
    requires !u.Reconnect? && !u.RegisterMarket?
    requires Bare(SideOf(s, u.key, buy)) == Bare(HotAfter(news, buy, None))
    ensures Bare(Side(NewBook(s, u), buy)) == Bare(HotAfter(news + Tells(u, buy), buy, None))
  {
    hide Bare, HotAfter, MakeLevel, BestLevel, DeltaSide, Refreshed, WithMarketIfAny, Midpoint, LevelIfAny;
    var reg := RegOf(s, u.key.asset);
    assert news + [] == news;
    if Tells(u, buy) != [] { HotStep(news, Tells(u, buy)[0], buy); }
    match u
    case BookSnapshot(key, market, bids, asks) =>
      BestBare(if buy then bids else asks, buy, reg);
      MarketBare(Empty(Some(market), key.asset, reg)
                 .(bestBid := BestLevel(bids, true, reg), bestAsk := BestLevel(asks, false, reg)), reg, buy);
    case Delta(key, market, d) =>
      DeltaBare(SideOf(s, key, buy), HotAfter(news, buy, None), if buy then d.bestBid else d.bestAsk,
                d.price, d.size, buy, reg);
    case BestBidAsk(key, market, bid, ask) =>
      MadeBare(if buy then bid else ask, "0", reg);
      MarketBare(BookOr(s, key, market).(market := Some(market),
                                         bestBid := MakeLevel(bid, "0", reg), bestAsk := MakeLevel(ask, "0", reg)),
                 reg, buy);
    case Resolution(key, bid, ask) =>
      var known := if reg.Some? then Some(reg.value.market) else if key in s.books then s.books[key].market else None;
      ShownBare(if buy then bid else ask, reg);
      MarketBare(Empty(known, key.asset, reg)
                 .(bestBid := LevelIfAny(bid, reg), bestAsk := LevelIfAny(ask, reg)), reg, buy);
    case TickSizeChange(key, market, newTick) =>
      var b := BookOr(s, key, market);
      RefreshedBare(Side(b, buy), ScaledOf(newTick), b.lotUnits);
  }

  lemma ShownBare(level: Option<Level>, reg: Option<Registered>)
    ensures Bare(LevelIfAny(level, reg)) == Bare(LevelIfAny(level, None))
  {
    hide MakeLevel;
    if level.Some? { MadeBare(level.value.price, level.value.size, reg); }
  }

  lemma HotStep(news: seq<SideEvent>, e: SideEvent, buy: bool)
    ensures HotAfter(news + [e], buy, None) ==
            if e.Reset? then BestLevel(e.levels, buy, None)
            else if e.Change? then DeltaSide(HotAfter(news, buy, None), e.hint, e.price, e.size, buy, None)
            else if e.Quote? then MakeLevel(e.price, "0", None)
            else LevelIfAny(e.level, None)
  {
    hide BestLevel, DeltaSide, MakeLevel, LevelIfAny;
    assert (news + [e])[..|news + [e]| - 1] == news;
  }

  /** So in every run of the store in which what stands can be read, a side of a book agrees with
      the ladder told the same whenever all its news was faithful. */
  lemma StoreAgrees(updates: seq<Update>, key: Key, buy: bool)
    requires AlwaysLegible(SideNews(updates, key, buy)) && AlwaysFaithful(SideNews(updates, key, buy), buy)
    ensures SamePrice(SideOf(HotState.After(updates), key, buy), BestOf(LadderAfter(SideNews(updates, key, buy)), buy))
  {
    hide AlwaysLegible, AlwaysFaithful, LadderAfter, HotAfter, ScaledOf, SideNews, SideOf;
    SidesFollowTheirNews(updates, key, buy);
    RunsAgreeExactly(SideNews(updates, key, buy), buy, None);
  }

  /** The level of these texts, or none where one of them cannot be read. */
  ghost predicate ShowsTexts(hot: Option<HotLevel>, price: string, size: string) {
    && (hot.Some? <==> ScaledOf(price).Some? && ScaledOf(size).Some?)
    && (hot.Some? ==> && hot.value.price.exact == price && hot.value.size.exact == size
                      && ScaledOf(price) == Some(hot.value.price.units)
                      && ScaledOf(size) == Some(hot.value.size.units))
  }

  /** A quote leaves both its prices, where they can be read, with size zero; a resolution both
      its levels or nothing. */
  lemma NamedExactly(s: Store, u: Update)
    requires u.BestBidAsk? || u.Resolution?
    ensures u.key in Apply(s, u).books
    ensures var b := Apply(s, u).books[u.key];
            && (u.BestBidAsk? ==> ShowsTexts(b.bestBid, u.bid, "0") && ShowsTexts(b.bestAsk, u.ask, "0"))
            && (u.Resolution? && u.bestBid.Some? ==>
                  ShowsTexts(b.bestBid, u.bestBid.value.price, u.bestBid.value.size))
            && (u.Resolution? && u.bestAsk.Some? ==>
                  ShowsTexts(b.bestAsk, u.bestAsk.value.price, u.bestAsk.value.size))
            && (u.Resolution? && u.bestBid.None? ==> b.bestBid.None?)
            && (u.Resolution? && u.bestAsk.None? ==> b.bestAsk.None?)
  {
    hide ScaledOf, ScaledText, TicksFor, Midpoint;
  }

  /** A delta leaves the other side alone. Of its own it leaves the price it names as the best, at
      its own size when that is its own price, else at the size shown before, or zero when nothing
      was; naming none, it leaves its own level or what was there. */
  lemma DeltaExactly(s: Store, u: Update)
    requires u.Delta?
    ensures u.key in Apply(s, u).books
    ensures var d, t := u.delta, Apply(s, u);
            var hint, before, after := if d.buy then d.bestBid else d.bestAsk, SideOf(s, u.key, d.buy),
                                       SideOf(t, u.key, d.buy);
            && SideOf(t, u.key, !d.buy) == SideOf(s, u.key, !d.buy)
            && (hint.Some? ==>
                  ShowsTexts(after, hint.value, if hint.value == d.price then d.size
                                                else if before.Some? then before.value.size.exact else "0"))
            && (hint.None? ==> after == before || (after.Some? && ShowsTexts(after, d.price, d.size)))
  {
    hide ScaledOf, ScaledText, TicksFor, Midpoint, Beats;
  }

  // ---- which books there are ----

  /** Some update of the key came after the last reconnect of its source. */
  ghost predicate Mentioned(updates: seq<Update>, key: Key) {
    exists i :: 0 <= i < |updates| && About(updates[i], key)
                && forall j | i < j < |updates| :: updates[j] != Reconnect(key.source)
  }

  lemma {:induction false} BooksExactly(updates: seq<Update>, key: Key)
    ensures key in HotState.After(updates).books <==> Mentioned(updates, key)
  {
    hide NewBook, WithMarket, HotState.After;
    if updates == [] {
      NoNews(key, true);
      assert HotState.After([]).books == map[] by { NoBooks(); }
    } else {
      var n := |updates| - 1;
      BooksExactly(updates[..n], key);
      AfterStep(updates);
      if Mentioned(updates[..n], key) && updates[n] != Reconnect(key.source) {
        var i :| 0 <= i < n && About(updates[..n][i], key)
                 && forall j | i < j < n :: updates[..n][j] != Reconnect(key.source);
        assert About(updates[i], key);
        forall j | i < j < |updates| ensures updates[j] != Reconnect(key.source) {
          if j < n { assert updates[..n][j] == updates[j]; }
        }
      }
      if Mentioned(updates, key) && !About(updates[n], key) {
        var i :| 0 <= i < |updates| && About(updates[i], key)
                 && forall j | i < j < |updates| :: updates[j] != Reconnect(key.source);
        assert About(updates[..n][i], key);
        forall j | i < j < n ensures updates[..n][j] != Reconnect(key.source) {
          assert updates[..n][j] == updates[j];
        }
      }
    }
  }

  // ---- market ids and the texts of the step sizes ----

  /** Registered step sizes in raw texts: a lot size is read if there is one and it can be; a
      tick size that cannot be read is zero, so that no price counts in ticks. */
  lemma RegisteredMeaning(updates: seq<Update>, asset: string)
    ensures LastRegistration(updates, asset).Some? <==> exists i :: 0 <= i < |updates| && Names(updates[i], asset)
    ensures LastRegistration(updates, asset).Some? ==>
              exists i :: 0 <= i < |updates| && Names(updates[i], asset)
                          && Registers(updates[i], LastRegistration(updates, asset).value)
                          && forall j | i < j < |updates| :: !Names(updates[j], asset)
  {
    hide ScaledOf, Registers;
    if updates != [] {
      var n := |updates| - 1;
      if Names(updates[n], asset) {
        RegistersMarket(updates[n]);
      } else {
        RegisteredMeaning(updates[..n], asset);
        if i :| 0 <= i < n && Names(updates[..n][i], asset)
                && Registers(updates[..n][i], LastRegistration(updates, asset).value)
                && forall j | i < j < n :: !Names(updates[..n][j], asset)
        {
          assert updates[..n][i] == updates[i];
          forall j | i < j < |updates| ensures !Names(updates[j], asset) {
            if j < n { assert updates[..n][j] == updates[j]; }
          }
        }
        if i :| 0 <= i < |updates| && Names(updates[i], asset) { assert updates[..n][i] == updates[i]; }
      }
    }
  }

  lemma RegistersMarket(u: Update)
    requires u.RegisterMarket?
    ensures Registers(u, MarketOf(u.market, u.tickSize, u.minOrderSize))
  {
    hide ScaledOf;
  }

  ghost predicate Registers(u: Update, reg: Registered) {
    && u.RegisterMarket? && reg.market == u.market
    && reg.tickSize == u.tickSize && reg.lotSize == u.minOrderSize
    && (ScaledOf(u.tickSize).Some? ==> reg.tickUnits == ScaledOf(u.tickSize).value)
    && (ScaledOf(u.tickSize).None? ==> forall units :: TicksFor(units, Some(reg.tickUnits)) == None)
    && (u.minOrderSize.Some? ==> reg.lotUnits == ScaledOf(u.minOrderSize.value))
    && (u.minOrderSize.None? ==> reg.lotUnits == None)
  }

  /** The market a book belongs to: deltas and tick sizes say their own, snapshots and quotes
      only of an asset nobody registered, and resolutions never. */
  function NamedMarket(updates: seq<Update>, key: Key): Option<string> {
    if updates == [] then None
    else
      var before, u := updates[..|updates| - 1], updates[|updates| - 1];
      var reg := LastRegistration(before, key.asset);
      if Names(u, key.asset) then Some(u.market)
      else if u.Reconnect? && u.source == key.source then None
      else if !About(u, key) then NamedMarket(before, key)
      else if u.Delta? || u.TickSizeChange? then Some(u.market)
      else if reg.Some? then Some(reg.value.market)
      else if u.Resolution? then NamedMarket(before, key)
      else Some(u.market)
  }

  ghost predicate Texts(b: Book, announced: Option<string>, reg: Option<Registered>) {
    && b.lotSize == (if reg.None? then None else reg.value.lotSize)
    && b.tickSize == if announced.Some? then announced else if reg.None? then None else Some(reg.value.tickSize)
  }

  ghost predicate TextsHold(updates: seq<Update>, key: Key) {
    var s, reg := HotState.After(updates), LastRegistration(updates, key.asset);
    && (key in s.books ==> s.books[key].asset == key.asset && s.books[key].market == NamedMarket(updates, key)
                           && Texts(s.books[key], Announced(updates, key), reg))
    && (key !in s.books && reg.None? ==> NamedMarket(updates, key) == None)
    && (key !in s.books ==> Announced(updates, key) == None)
  }

  lemma {:induction false} TextsInRuns(updates: seq<Update>, key: Key)
    ensures TextsHold(updates, key)
  {
    hide TextsHold;
    if updates == [] {
      NoTexts(key);
    } else {
      TextsInRuns(updates[..|updates| - 1], key);
      TextsStep(updates, key);
    }
  }

  lemma NoTexts(key: Key)
    ensures TextsHold([], key)
  {
  }

  lemma NamedMarketStep(updates: seq<Update>, key: Key)
    requires updates != []
    ensures var before, u := updates[..|updates| - 1], updates[|updates| - 1];
            var reg := LastRegistration(before, key.asset);
            NamedMarket(updates, key) ==
            (if Names(u, key.asset) then Some(u.market)
             else if u.Reconnect? && u.source == key.source then None
             else if !About(u, key) then NamedMarket(before, key)
             else if u.Delta? || u.TickSizeChange? then Some(u.market)
             else if reg.Some? then Some(reg.value.market)
             else if u.Resolution? then NamedMarket(before, key)
             else Some(u.market))
  {
    hide LastRegistration;
  }

  lemma TextsStep(updates: seq<Update>, key: Key)
    requires updates != [] && TextsHold(updates[..|updates| - 1], key)
    ensures TextsHold(updates, key)
  {
    hide Announced, LastRegistration, HotState.After, NewBook, WithAsset, NamedMarket;
    var before, u := updates[..|updates| - 1], updates[|updates| - 1];
    AfterStep(updates);
    AnnouncedStep(updates, key);
    NamedMarketStep(updates, key);
    RegistryIsLast(before, key.asset);
    if u.RegisterMarket? {
      RegisteredTexts(HotState.After(before), u, key);
    } else if !u.Reconnect? && u.key == key {
      NewBookTexts(HotState.After(before), u, Announced(before, key));
    }
  }

  lemma RegisteredTexts(s: Store, u: Update, key: Key)
    requires u.RegisterMarket? && (key in s.books ==> s.books[key].asset == key.asset)
    ensures var t := Apply(s, u);
            && (key in t.books <==> key in s.books)
            && (key in s.books && !Names(u, key.asset) ==> t.books[key] == s.books[key])
            && (key in s.books && Names(u, key.asset) ==>
                  var reg := MarketOf(u.market, u.tickSize, u.minOrderSize);
                  && t.books[key].asset == key.asset && t.books[key].market == Some(u.market)
                  && Texts(t.books[key], None, Some(reg)))
  {
    hide ScaledOf, TicksFor;
  }

  lemma NewBookTexts(s: Store, u: Update, announced: Option<string>)
    requires !u.Reconnect? && !u.RegisterMarket?
    requires u.key in s.books ==> s.books[u.key].asset == u.key.asset
                                  && Texts(s.books[u.key], announced, RegOf(s, u.key.asset))
    requires u.key !in s.books ==> announced == None
    ensures var b, reg := NewBook(s, u), RegOf(s, u.key.asset);
            && b.asset == u.key.asset
            && Texts(b, if u.TickSizeChange? then Some(u.newTick)
                        else if Resets(u, u.key, reg.Some?) then None else announced, reg)
            && b.market == (if u.Delta? || u.TickSizeChange? then Some(u.market)
                            else if reg.Some? then Some(reg.value.market)
                            else if u.Resolution? then (if u.key in s.books then s.books[u.key].market else None)
                            else Some(u.market))
  {
    hide ScaledOf, ScaledText, TicksFor, BestLevel, MakeLevel, DeltaSide, Midpoint, LevelIfAny, Refreshed;
  }
}
