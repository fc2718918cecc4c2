/** The books of all assets: two ladders each, created on first mention and cleared on
    reconnect. */
module OrderBooks {
  import opened Text
  import opened Units
  import opened PriceLadders

  datatype Sides = Sides(bids: SortedMap<string>, asks: SortedMap<string>)

  datatype BookEvent =
    | BookUpdate(asset: string, bids: seq<Level>, asks: seq<Level>)
    | PriceChange(asset: string, buy: bool, price: string, size: Option<string>)
    | ClearAsset(asset: string)
    | ClearAll

  const NO_LEVELS: SortedMap<string> := SortedMap([], map[])

  function SidesOr(books: map<string, Sides>, asset: string): Sides {
    if asset in books then books[asset] else Sides(NO_LEVELS, NO_LEVELS)
  }

  ghost predicate AllValid(books: map<string, Sides>) {
    forall a | a in books :: books[a].bids.Valid() && books[a].asks.Valid()
  }

  /** A change without a size removes the level. */
  function Applied(books: map<string, Sides>, e: BookEvent): (r: map<string, Sides>)
    requires AllValid(books)
    ensures AllValid(r)
  {
    match e
    case BookUpdate(asset, bids, asks) => books[asset := Sides(Loaded(bids), Loaded(asks))]
    case PriceChange(asset, buy, price, size) =>
      var b := SidesOr(books, asset);
      books[asset := if buy then b.(bids := Upserted(b.bids, price, size.GetOr("0")))
                     else b.(asks := Upserted(b.asks, price, size.GetOr("0")))]
    case ClearAsset(asset) => books - {asset}
    case ClearAll => map[]
  }

  function BooksAfter(history: seq<BookEvent>): (r: map<string, Sides>)
    ensures AllValid(r)
  {
    if history == [] then map[]
    else Applied(BooksAfter(history[..|history| - 1]), history[|history| - 1])
  }

  class OrderBookManager {
    var books: map<string, Sides>

    ghost predicate Valid()
      reads this
    {
      AllValid(books)
    }

    constructor ()
      ensures Valid() && books == BooksAfter([])
    {
      books := map[];
    }

    method ApplyBookUpdate(asset: string, bids: seq<Level>, asks: seq<Level>)
      requires Valid()
      modifies this
      ensures Valid() && books == Applied(old(books), BookUpdate(asset, bids, asks))
    {
      var bidSide := new PriceLadder();
      var askSide := new PriceLadder();
      bidSide.ApplyLevels(bids);
      askSide.ApplyLevels(asks);
      books := books[asset := Sides(bidSide.levels, askSide.levels)];
    }

    method ApplyPriceChange(asset: string, buy: bool, price: string, size: Option<string>)
      requires Valid()
      modifies this
      ensures Valid() && books == Applied(old(books), PriceChange(asset, buy, price, size))
    {
      var b := SidesOr(books, asset);
      var side := new PriceLadder();
      side.levels := if buy then b.bids else b.asks;
      side.Upsert(price, size.GetOr("0"));
      books := books[asset := if buy then b.(bids := side.levels) else b.(asks := side.levels)];
    }

    method ClearAsset(asset: string)
      requires Valid()
      modifies this
      ensures Valid() && books == Applied(old(books), BookEvent.ClearAsset(asset))
    {
      books := books - {asset};
    }

    method ClearAll()
      requires Valid()
      modifies this
      ensures Valid() && books == Applied(old(books), BookEvent.ClearAll)
    {
      books := map[];
    }

    method GetSnapshot(asset: string) returns (found: bool, bid: Option<Level>, ask: Option<Level>)
      requires Valid()
      ensures found <==> asset in books
      ensures found ==> Highest(books[asset].bids, bid) && Lowest(books[asset].asks, ask)
    {
      found, bid, ask := asset in books, None, None;
      if found {
        BestIsEnd(books[asset].bids);
        BestIsEnd(books[asset].asks);
        bid, ask := BestBid(books[asset].bids), BestAsk(books[asset].asks);
      }
    }
  }

  // ---- each side of each book follows its own events alone ----

  function SideOf(b: Sides, buy: bool): SortedMap<string> {
    if buy then b.bids else b.asks
  }

  function Heard(before: seq<Event>, e: BookEvent, asset: string, buy: bool): seq<Event> {
    match e
    case BookUpdate(a, bids, asks) => if a == asset then before + [Snapshot(if buy then bids else asks)] else before
    case PriceChange(a, b, price, size) =>
      if a == asset && b == buy then before + [Delta(price, size.GetOr("0"))] else before
    case ClearAsset(a) => if a == asset then [] else before
    case ClearAll => []
  }

  /** What a history says to one side of one asset since it was last cleared. */
  function SideHistory(history: seq<BookEvent>, asset: string, buy: bool): seq<Event> {
    if history == [] then []
    else Heard(SideHistory(history[..|history| - 1], asset, buy), history[|history| - 1], asset, buy)
  }

  lemma AfterOneMore(events: seq<Event>, e: Event)
    ensures After(events + [e]) ==
            if e.Snapshot? then Loaded(e.levels) else Upserted(After(events), e.price, e.size)
  {
    assert (events + [e])[..|events|] == events;
  }

  lemma HeardStep(books: map<string, Sides>, before: seq<Event>, e: BookEvent, asset: string, buy: bool)
    requires AllValid(books) && SideOf(SidesOr(books, asset), buy) == After(before)
    ensures SideOf(SidesOr(Applied(books, e), asset), buy) == After(Heard(before, e, asset, buy))
  {
    hide Loaded, Upserted, After;
    assert After([]) == NO_LEVELS by { NothingHeard(); }
    match e
    case BookUpdate(_, bids, asks) => AfterOneMore(before, Snapshot(if buy then bids else asks));
    case PriceChange(_, _, price, size) => AfterOneMore(before, Delta(price, size.GetOr("0")));
    case _ =>
  }

  lemma NothingHeard()
    ensures After([]) == NO_LEVELS
  {
  }

  /** Whatever is interleaved with them, one side of one book is what its own events make of
      it. */
  lemma {:induction false} SideFollowsItsEvents(history: seq<BookEvent>, asset: string, buy: bool)
    ensures SideOf(SidesOr(BooksAfter(history), asset), buy) == After(SideHistory(history, asset, buy))
  {
    hide Applied, Heard, After, SideOf;
    if history == [] {
      NothingHeard();
      assert SideOf(Sides(NO_LEVELS, NO_LEVELS), buy) == NO_LEVELS by { NoSides(buy); }
    } else {
      var n := |history| - 1;
      SideFollowsItsEvents(history[..n], asset, buy);
      HeardStep(BooksAfter(history[..n]), SideHistory(history[..n], asset, buy), history[n], asset, buy);
    }
  }

  lemma NoSides(buy: bool)
    ensures SideOf(Sides(NO_LEVELS, NO_LEVELS), buy) == NO_LEVELS
  {
  }

  /** A price change without a size, or with one of the three zeros, leaves the price absent from
      its side, any other size leaves it there; everything else stays, and the asset is known. */
  lemma ChangeExactly(books: map<string, Sides>, asset: string, buy: bool, price: string, size: Option<string>)
    requires AllValid(books)
    ensures var before, after := SidesOr(books, asset), Applied(books, PriceChange(asset, buy, price, size));
            && asset in after
            && Entry(SideOf(after[asset], buy), price) ==
               (if size.None? || size.value == "0" || size.value == "0.0" || size.value == "0.00" then None else size)
            && (forall p | p != price :: Entry(SideOf(after[asset], buy), p) == Entry(SideOf(before, buy), p))
            && SideOf(after[asset], !buy) == SideOf(before, !buy)
            && after - {asset} == books - {asset}
  {
    var before := SidesOr(books, asset);
    assert SideOf(before, buy).Valid();
    forall p | p != price
      ensures Entry(Upserted(SideOf(before, buy), price, size.GetOr("0")), p) == Entry(SideOf(before, buy), p)
      ensures Entry(Upserted(SideOf(before, buy), price, size.GetOr("0")), price) ==
              if size.None? || size.value == "0" || size.value == "0.0" || size.value == "0.00" then None else size
    {
      ThreeZerosRemove(SideOf(before, buy), price, size.GetOr("0"), p);
    }
    assert |price + "0"| != |price|;
    ThreeZerosRemove(SideOf(before, buy), price, size.GetOr("0"), price + "0");
  }

  predicate Clears(e: BookEvent, asset: string) {
    e.ClearAll? || (e.ClearAsset? && e.asset == asset)
  }

  predicate Mentions(e: BookEvent, asset: string) {
    (e.BookUpdate? || e.PriceChange?) && e.asset == asset
  }

  /** Some event of the asset came after it was last cleared. */
  ghost predicate Known(history: seq<BookEvent>, asset: string) {
    exists i :: 0 <= i < |history| && Mentions(history[i], asset)
                && forall j | i < j < |history| :: !Clears(history[j], asset)
  }

  /** A book, even an empty one, is known exactly then. */
  lemma {:induction false} KnownExactly(history: seq<BookEvent>, asset: string)
    ensures asset in BooksAfter(history) <==> Known(history, asset)
  {
    hide Loaded, Upserted;
    if history != [] {
      var n := |history| - 1;
      KnownExactly(history[..n], asset);
      if Known(history[..n], asset) && !Clears(history[n], asset) {
        var i :| 0 <= i < n && Mentions(history[..n][i], asset)
                 && forall j | i < j < n :: !Clears(history[..n][j], asset);
        assert Mentions(history[i], asset);
        forall j | i < j < |history| ensures !Clears(history[j], asset) {
          if j < n { assert history[..n][j] == history[j]; }
        }
      }
      if Known(history, asset) && !Mentions(history[n], asset) {
        var i :| 0 <= i < |history| && Mentions(history[i], asset)
                 && forall j | i < j < |history| :: !Clears(history[j], asset);
        assert Mentions(history[..n][i], asset);
        forall j | i < j < n ensures !Clears(history[..n][j], asset) {
          assert history[..n][j] == history[j];
        }
      }
    }
  }

  // ---- the top of the book ----

  /** The prices left standing all have n whole digits. */
  ghost predicate LeavesWidth(events: seq<Event>, n: nat) {
    forall price | SizeAfter(events, price).Some? :: Plain(price) && Width(price) == n
  }

  /** After any interleaved history each side of each book has exactly the prices whose last
      word, since the last clear, was not a removal, at their last size; and as long as those
      have equally many whole digits, its best bid and best ask are the numeric maximum and
      minimum. */
  lemma TopOfBookIsBest(history: seq<BookEvent>, asset: string, buy: bool, n: nat)
    requires LeavesWidth(SideHistory(history, asset, buy), n)
    ensures var side := SideOf(SidesOr(BooksAfter(history), asset), buy);
            && side.Valid() && AllPlain(side, n, n) && FindsBest(side)
            && forall price :: Entry(side, price) == SizeAfter(SideHistory(history, asset, buy), price)
  {
    hide FindsBest, SizeAfter, SideHistory, BooksAfter, Plain, Width;
    var events := SideHistory(history, asset, buy);
    SideFollowsItsEvents(history, asset, buy);
    forall price ensures Entry(After(events), price) == SizeAfter(events, price) {
      LadderHolds(events, price);
    }
    assert forall price | price in After(events).at :: Entry(After(events), price).Some?;
    BestIsNumericBest(After(events), n);
  }
}
