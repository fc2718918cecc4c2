/** What the hot state shows of one side of a book, against the string-keyed ladder. */
module HotAgreement {
  import opened Text
  import opened Words
  import opened Units
  import opened PriceLadders
  import opened HotState

  /** The best level by value is one of the levels, the earliest with no better one. */
  lemma {:induction false} BestLevelIsBest(levels: seq<Level>, takeMax: bool, reg: Option<Registered>) returns (i: nat)
    ensures BestLevel(levels, takeMax, reg).Some? ==>
              && i < |levels| && BestLevel(levels, takeMax, reg) == MakeLevel(levels[i].price, levels[i].size, reg)
              && forall j | 0 <= j < |levels| && MakeLevel(levels[j].price, levels[j].size, reg).Some? ::
                   var m := MakeLevel(levels[j].price, levels[j].size, reg).value;
                   && !Beats(m, BestLevel(levels, takeMax, reg).value, takeMax)
                   && (j < i ==> Beats(BestLevel(levels, takeMax, reg).value, m, takeMax))
    ensures BestLevel(levels, takeMax, reg).None? ==>
              forall j | 0 <= j < |levels| :: MakeLevel(levels[j].price, levels[j].size, reg).None?
  {
    hide MakeLevel;
    i := 0;
    if levels != [] {
      var n := |levels| - 1;
      i := BestLevelIsBest(levels[..n], takeMax, reg);
      var before, candidate := BestLevel(levels[..n], takeMax, reg), MakeLevel(levels[n].price, levels[n].size, reg);
      assert forall j | 0 <= j < n :: levels[..n][j] == levels[j];
      if candidate.Some? && (before.None? || Beats(candidate.value, before.value, takeMax)) {
        i := n;
      }
    }
  }

  function BestOf(m: SortedMap<string>, takeMax: bool): Option<Level>
    requires m.Valid()
  {
    if takeMax then BestBid(m) else BestAsk(m)
  }

  ghost predicate PricesOfWidth(levels: seq<Level>, n: nat) {
    forall i | 0 <= i < |levels| :: Plain(levels[i].price) && Width(levels[i].price) == n
  }

  predicate Readable(level: Level) {
    ScaledOf(level.price).Some? && ScaledOf(level.size).Some?
  }

  /** The hot side counts the units of the ladder's best price; both have one or neither. */
  ghost predicate SamePrice(hot: Option<HotLevel>, ladder: Option<Level>) {
    && (hot.None? <==> ladder.None?)
    && (hot.Some? ==> ScaledOf(ladder.value.price) == Some(hot.value.price.units))
  }

  lemma {:induction false} LoadedPrices(levels: seq<Level>, price: string)
    ensures price in Loaded(levels).at <==> exists i :: 0 <= i < |levels| && levels[i].price == price
  {
    if levels != [] {
      var n := |levels| - 1;
      LoadedPrices(levels[..n], price);
      if price in Loaded(levels[..n]).at {
        var i :| 0 <= i < n && levels[..n][i].price == price;
        assert levels[i].price == price;
      }
      if i :| 0 <= i < |levels| && levels[i].price == price {
        if i < n { assert levels[..n][i].price == price; }
      }
    }
  }

  /** After the same snapshot, with equally many whole digits in all its prices, the hot
      state's best price is the one at the end of the string-ordered ladder exactly when some
      readable level has that price, or there are no levels at all. */
  lemma SnapshotAgreesExactly(levels: seq<Level>, takeMax: bool, reg: Option<Registered>, n: nat)
    requires PricesOfWidth(levels, n)
    ensures SamePrice(BestLevel(levels, takeMax, reg), BestOf(Loaded(levels), takeMax)) <==>
            || levels == []
            || exists i :: 0 <= i < |levels| && Readable(levels[i]) && BestOf(Loaded(levels), takeMax).Some?
                           && ScaledOf(levels[i].price) == ScaledOf(BestOf(Loaded(levels), takeMax).value.price)
  {
    hide ScaledOf, Plain, Width, BestLevel, Loaded, ValueAt;
    if levels == [] {
      NothingLoaded(takeMax, reg);
    } else {
      TopOfLoaded(levels, takeMax, n);
      var i := BestLevelIsBest(levels, takeMax, reg);
      var hot, top := BestLevel(levels, takeMax, reg), BestOf(Loaded(levels), takeMax).value.price;
      UnitsAreValue(top);
      if hot.Some? {
        UnitsAreValue(levels[i].price);
        if SamePrice(hot, BestOf(Loaded(levels), takeMax)) { assert Readable(levels[i]); }
      }
      if j :| 0 <= j < |levels| && Readable(levels[j]) && ScaledOf(levels[j].price) == ScaledOf(top) {
        assert MakeLevel(levels[j].price, levels[j].size, reg).Some?;
      }
    }
  }

  /** The end of a loaded ladder is one of its levels' prices and no worse than any of them. */
  lemma TopOfLoaded(levels: seq<Level>, takeMax: bool, n: nat)
    requires PricesOfWidth(levels, n) && levels != []
    ensures BestOf(Loaded(levels), takeMax).Some?
    ensures var top := BestOf(Loaded(levels), takeMax).value.price;
            && Plain(top) && (exists j :: 0 <= j < |levels| && levels[j].price == top)
            && forall i | 0 <= i < |levels| ::
                 if takeMax then ValueAt(levels[i].price, 6) <= ValueAt(top, 6)
                 else ValueAt(top, 6) <= ValueAt(levels[i].price, 6)
  {
    hide Plain, Width, Loaded, ValueAt;
    var m := Loaded(levels);
    forall p | p in m.at ensures Plain(p) && Width(p) == n {
      LoadedPrices(levels, p);
    }
    BestIsNumericBest(m, n);
    forall i | 0 <= i < |levels|
      ensures levels[i].price in m.at && Between(m, levels[i].price, 6)
    {
      LoadedPrices(levels, levels[i].price);
    }
    assert levels[0].price in m.at;
    LoadedPrices(levels, BestOf(m, takeMax).value.price);
  }

  /** So they agree on every snapshot whose levels are all readable. */
  lemma SnapshotAgrees(levels: seq<Level>, takeMax: bool, reg: Option<Registered>, n: nat)
    requires PricesOfWidth(levels, n) && forall i | 0 <= i < |levels| :: Readable(levels[i])
    ensures SamePrice(BestLevel(levels, takeMax, reg), BestOf(Loaded(levels), takeMax))
  {
    hide ScaledOf, Plain, Width, BestLevel, Loaded, ValueAt, SamePrice;
    SnapshotAgreesExactly(levels, takeMax, reg, n);
    if levels != [] {
      TopOfLoaded(levels, takeMax, n);
      var j :| 0 <= j < |levels| && levels[j].price == BestOf(Loaded(levels), takeMax).value.price;
      assert Readable(levels[j]);
    }
  }

  lemma NothingLoaded(takeMax: bool, reg: Option<Registered>)
    ensures Loaded([]).keys == [] && BestLevel([], takeMax, reg) == None
  {
  }

  // ---- deltas with the exchange's best price ----

  /** The hot level shows exactly the price and size texts at the top of the ladder. */
  ghost predicate Shows(hot: Option<HotLevel>, ladder: Option<Level>) {
    && (hot.None? <==> ladder.None?)
    && (hot.Some? ==> hot.value.price.exact == ladder.value.price && hot.value.size.exact == ladder.value.size)
  }

  /** The delta takes the best price away. */
  predicate RemovesBest(m: SortedMap<string>, takeMax: bool, price: string, size: string)
    requires m.Valid()
  {
    RemovesLevel(size) && BestOf(m, takeMax).Some? && BestOf(m, takeMax).value.price == price
  }

  predicate NoWorse(p: string, q: string, takeMax: bool) {
    if takeMax then Le(q, p) else Le(p, q)
  }

  lemma BestIsLast(m: SortedMap<string>, takeMax: bool, p: string)
    requires m.Valid() && p in m.at
    ensures BestOf(m, takeMax).Some? && BestOf(m, takeMax).value.price in m.at
    ensures BestOf(m, takeMax).value.size == m.at[BestOf(m, takeMax).value.price]
    ensures NoWorse(BestOf(m, takeMax).value.price, p, takeMax)
  {
    hide Le;
    BestIsEnd(m);
  }

  /** Unless the delta takes the best away, the next best is the delta's own price or the
      same price as before, at the same size. */
  lemma NextBest(m: SortedMap<string>, takeMax: bool, price: string, size: string)
    requires m.Valid() && BestOf(Upserted(m, price, size), takeMax).Some?
    requires BestOf(Upserted(m, price, size), takeMax).value.price != price
    ensures BestOf(m, takeMax).Some?
    ensures !RemovesBest(m, takeMax, price, size) ==> BestOf(Upserted(m, price, size), takeMax) == BestOf(m, takeMax)
  {
    hide Le;
    var next := Upserted(m, price, size);
    var hint := BestOf(next, takeMax).value.price;
    assert hint in next.keys;
    assert hint in m.at;
    BestIsLast(m, takeMax, hint);
    var top := BestOf(m, takeMax).value.price;
    if !RemovesBest(m, takeMax, price, size) {
      assert top in next.at;
      BestIsLast(next, takeMax, top);
      LeTotal(top, hint);
    }
  }

  /** A delta that names the ladder's new best price moves the hot side to that price whenever
      it can be read, and to its size exactly when it does not take the best away from above a
      level of another size: then the hot side keeps the size of the level that went. */
  lemma HintedDeltaExactly(m: SortedMap<string>, current: Option<HotLevel>, takeMax: bool, price: string, size: string,
                           reg: Option<Registered>)
    requires m.Valid() && Shows(current, BestOf(m, takeMax)) && BestOf(Upserted(m, price, size), takeMax).Some?
    ensures var best := BestOf(Upserted(m, price, size), takeMax).value;
            var hot := DeltaSide(current, Some(best.price), price, size, takeMax, reg);
            && (hot.Some? <==>
                Readable(Level(best.price, if best.price == price then size else BestOf(m, takeMax).value.size)))
            && (hot.Some? ==>
                  && hot.value.price.exact == best.price
                  && (Shows(hot, Some(best))
                      <==> !RemovesBest(m, takeMax, price, size) || best.size == BestOf(m, takeMax).value.size))
  {
    hide ScaledOf, BestBid, BestAsk, TicksFor;
    var next := Upserted(m, price, size);
    var best := BestOf(next, takeMax).value;
    assert best.price in next.at && next.at[best.price] == best.size by { BestListed(next, takeMax); }
    if best.price == price {
      assert !RemovesLevel(size);
    } else {
      NextBest(m, takeMax, price, size);
      var top := BestOf(m, takeMax).value;
      assert top.price in m.at && m.at[top.price] == top.size by { BestListed(m, takeMax); }
    }
  }

  lemma {:induction false} PlainReads(w: string, f: string, s: string)
    requires w != [] && |w| <= 2 && |f| <= 2 && Digits(w) && Digits(f) && (s == w + "." + f || (f == [] && s == w))
    ensures ScaledOf(s).Some?
  {
    hide ScaledOf, UnitsOf;
    ValBound(w);
    ValBound(f);
    assert Pow10(2) == 100;
    assert DecimalValue(w, f) <= U64_MAX;
    ParsersReadDecimals(w, f, s);
  }

  /** Ten at 0.5 above seven at 0.4: when 0.5 goes and 0.4 is named, the hot side shows ten at
      0.4. */
  lemma SizeOfTheRemovedIsKept()
    ensures var m := SortedMap([], map[]).Put("0.4", "7").Put("0.5", "10");
            var hot := DeltaSide(MakeLevel("0.5", "10", None), Some("0.4"), "0.5", "0", true, None);
            && BestBid(Upserted(m, "0.5", "0")) == Some(Level("0.4", "7"))
            && hot.Some? && hot.value.price.exact == "0.4" && hot.value.size.exact == "10"
  {
    hide ScaledOf, TicksFor, BestBid, Upserted, RemovesLevel;
    FourTenthsRemain();
    PlainReads("0", "4", "0.4");
    PlainReads("0", "5", "0.5");
    PlainReads("10", "", "10");
  }

  lemma FourTenthsRemain()
    ensures var m := SortedMap([], map[]).Put("0.4", "7").Put("0.5", "10");
            BestBid(Upserted(m, "0.5", "0")) == Some(Level("0.4", "7"))
  {
    hide BestBid, Upserted;
    var m := SortedMap([], map[]).Put("0.4", "7").Put("0.5", "10");
    assert Upserted(m, "0.5", "0").at == map["0.4" := "7"] by { UpsertedRemoves(m, "0.5"); }
    OnlyLevelLeft(Upserted(m, "0.5", "0"), "0.4", "7");
  }

  lemma UpsertedRemoves(m: SortedMap<string>, price: string)
    requires m.Valid()
    ensures Upserted(m, price, "0").at == m.at - {price}
  {
  }

  lemma OnlyLevelLeft(m: SortedMap<string>, price: string, size: string)
    requires m.Valid() && m.at == map[price := size]
    ensures BestBid(m) == Some(Level(price, size))
  {
    hide BestBid;
    BestIsEnd(m);
    assert price in m.at;
  }

  lemma BestListed(m: SortedMap<string>, takeMax: bool)
    requires m.Valid() && BestOf(m, takeMax).Some?
    ensures var best := BestOf(m, takeMax).value; best.price in m.at && best.size == m.at[best.price]
  {
    BestIsEnd(m);
  }

  // ---- deltas without it ----

  lemma PutBest(m: SortedMap<string>, takeMax: bool, price: string, size: string)
    requires m.Valid() && !RemovesLevel(size)
    ensures var top := BestOf(m, takeMax);
            BestOf(Upserted(m, price, size), takeMax) ==
            if top.None? || NoWorse(price, top.value.price, takeMax) then Some(Level(price, size)) else top
  {
    hide Le;
    var next, top := Upserted(m, price, size), BestOf(m, takeMax);
    BestIsLast(next, takeMax, price);
    LeTotal(price, price);
    var best := BestOf(next, takeMax).value.price;
    if best != price { BestIsLast(m, takeMax, best); }
    LeTotal(best, price);
    if top.Some? {
      BestListed(m, takeMax);
      BestIsLast(next, takeMax, top.value.price);
      LeTotal(best, top.value.price);
      LeTotal(price, top.value.price);
    }
  }

  predicate WorseUnits(units: nat, top: nat, takeMax: bool) {
    if takeMax then units < top else units > top
  }

  lemma WorseTextIsNoBetter(p: string, q: string, takeMax: bool)
    requires Plain(p) && Plain(q) && Width(p) == Width(q)
    ensures NoWorse(p, q, takeMax) && ScaledOf(p).Some? && ScaledOf(q).Some? ==>
              !WorseUnits(ScaledOf(p).value, ScaledOf(q).value, takeMax)
  {
    hide ScaledOf, Plain, Width, ValueAt, Le;
    UnitsAreValue(p);
    UnitsAreValue(q);
    if Le(p, q) { TextOrderIsValueOrder(p, q, 6); }
    if Le(q, p) { TextOrderIsValueOrder(q, p, 6); }
  }

  /** A delta without a hint keeps the hot side showing the top of the ladder exactly when it
      puts a level no worse than the top in text order, or names a price worth less than the
      top. In particular a removal at the top is always missed: the hot side then shows the
      removed price at size zero. A delta that cannot be read changes nothing there, which is
      right exactly when it is a removal or puts a level behind the top. */
  lemma UnhintedDeltaExactly(m: SortedMap<string>, current: Option<HotLevel>, takeMax: bool,
                             price: string, size: string, reg: Option<Registered>, n: nat)
    requires m.Valid() && AllPlain(m, n, n) && Shows(current, BestOf(m, takeMax)) && LevelReads(current)
    requires Readable(Level(price, size)) ==> Plain(price) && Width(price) == n
    ensures var top := BestOf(m, takeMax);
            var ahead := top.None? || NoWorse(price, top.value.price, takeMax);
            Shows(DeltaSide(current, None, price, size, takeMax, reg), BestOf(Upserted(m, price, size), takeMax)) <==>
            if Readable(Level(price, size)) then
              || (!RemovesLevel(size) && ahead)
              || (top.Some? && WorseUnits(ScaledOf(price).value, current.value.price.units, takeMax))
            else RemovesLevel(size) || !ahead
  {
    hide ScaledOf, Plain, Width, TicksFor, BestBid, BestAsk, Le, RemovesLevel;
    var top, next := BestOf(m, takeMax), Upserted(m, price, size);
    if top.Some? {
      BestListed(m, takeMax);
      if Readable(Level(price, size)) { WorseTextIsNoBetter(price, top.value.price, takeMax); }
      LeTotal(price, top.value.price);
    }
    if RemovesLevel(size) {
      RemovalReads(size);
      RemovedIsGone(m, takeMax, price, size);
      if top.Some? && price != top.value.price { OthersKeepBest(m, takeMax, price, size); }
    } else {
      PutBest(m, takeMax, price, size);
    }
  }

  /** The sizes that remove a level are readable zeros. */
  lemma RemovalReads(size: string)
    requires RemovesLevel(size)
    ensures ScaledOf(size) == Some(0)
  {
    hide ScaledOf, UnitsOf;
    var w, f := "0", size[if |size| == 1 then 1 else 2..];
    assert size == w + "." + f || (f == [] && size == w);
    assert Val(w) == 0 by { assert w[..0] == []; }
    ZerosAreNothing(f);
    ParsersReadDecimals(w, f, size);
  }

  lemma ZerosAreNothing(f: string)
    requires |f| <= 2 && forall i | 0 <= i < |f| :: f[i] == '0'
    ensures Digits(f) && Val(f) == 0 && ShiftToSix(0, |f|) == 0
  {
    if |f| > 0 { assert Val(f[..|f| - 1]) == 0 by { if |f| == 2 { assert f[..1][..0] == []; } } }
    NothingShifted(|f|);
  }

  lemma {:induction false} NothingShifted(decimals: nat)
    ensures ShiftToSix(0, decimals) == 0
    decreases 6 - decimals
  {
    if decimals < 6 { NothingShifted(decimals + 1); }
  }

  /** The only level, ten at 0.5, is removed: the hot side shows zero at 0.5. */
  lemma RemovalIsMissed()
    ensures var m := SortedMap([], map[]).Put("0.5", "10");
            var hot := DeltaSide(MakeLevel("0.5", "10", None), None, "0.5", "0", true, None);
            && BestBid(Upserted(m, "0.5", "0")) == None
            && hot.Some? && hot.value.price.exact == "0.5" && hot.value.size.exact == "0"
  {
    hide ScaledOf, TicksFor;
    var next := Upserted(SortedMap([], map[]).Put("0.5", "10"), "0.5", "0");
    assert next.at == map[];
    BestIsEnd(next);
    PlainReads("0", "5", "0.5");
    PlainReads("10", "", "10");
    PlainReads("0", "", "0");
  }

  lemma RemovedIsGone(m: SortedMap<string>, takeMax: bool, price: string, size: string)
    requires m.Valid() && RemovesLevel(size)
    ensures var best := BestOf(Upserted(m, price, size), takeMax); best.Some? ==> best.value.price != price
    ensures BestOf(m, takeMax).None? ==> BestOf(Upserted(m, price, size), takeMax).None?
  {
    BestIsEnd(m);
    BestIsEnd(Upserted(m, price, size));
  }

  lemma OthersKeepBest(m: SortedMap<string>, takeMax: bool, price: string, size: string)
    requires m.Valid() && RemovesLevel(size) && BestOf(m, takeMax).Some? && price != BestOf(m, takeMax).value.price
    ensures BestOf(Upserted(m, price, size), takeMax) == BestOf(m, takeMax)
  {
    var next := Upserted(m, price, size);
    BestListed(m, takeMax);
    BestIsLast(next, takeMax, BestOf(m, takeMax).value.price);
    BestListed(next, takeMax);
    NextBest(m, takeMax, price, size);
  }
}
