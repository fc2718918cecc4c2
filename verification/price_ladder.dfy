/** One side of an order book, keyed by the price as text, and why its text order finds the
    best price. */
module PriceLadders {
  import opened Text
  import opened Units
  import opened Words

  datatype Level = Level(price: string, size: string)

  function Loaded(levels: seq<Level>): (m: SortedMap<string>)
    ensures m.Valid()
  {
    if levels == [] then SortedMap([], map[])
    else Loaded(levels[..|levels| - 1]).Put(levels[|levels| - 1].price, levels[|levels| - 1].size)
  }

  predicate RemovesLevel(size: string) {
    size == "0" || size == "0.0" || size == "0.00"
  }

  function Upserted(m: SortedMap<string>, price: string, size: string): (r: SortedMap<string>)
    requires m.Valid()
    ensures r.Valid()
  {
    if RemovesLevel(size) then m.Remove(price) else m.Put(price, size)
  }

  /** The last key in order is the best bid, the first the best ask. */
  function BestBid(m: SortedMap<string>): Option<Level>
    requires m.Valid()
  {
    if m.keys == [] then None
    else
      var p := m.keys[|m.keys| - 1];
      assert p in m.keys;
      Some(Level(p, m.at[p]))
  }

  function BestAsk(m: SortedMap<string>): Option<Level>
    requires m.Valid()
  {
    if m.keys == [] then None
    else
      var p := m.keys[0];
      assert p in m.keys;
      Some(Level(p, m.at[p]))
  }

  /** A level of the ladder that no price comes after in text order; none only of an empty
      ladder. */
  ghost predicate Highest(m: SortedMap<string>, best: Option<Level>) {
    && (best.None? <==> m.at == map[])
    && (best.Some? ==> && best.value.price in m.at && m.at[best.value.price] == best.value.size
                       && forall p | p in m.at :: Le(p, best.value.price))
  }

  /** The same, with no price before it. */
  ghost predicate Lowest(m: SortedMap<string>, best: Option<Level>) {
    && (best.None? <==> m.at == map[])
    && (best.Some? ==> && best.value.price in m.at && m.at[best.value.price] == best.value.size
                       && forall p | p in m.at :: Le(best.value.price, p))
  }

  lemma BestIsEnd(m: SortedMap<string>)
    requires m.Valid()
    ensures Highest(m, BestBid(m)) && Lowest(m, BestAsk(m))
  {
    hide Le;
    if m.keys == [] {
      assert forall p :: p in m.at ==> p in m.keys;
    } else {
      var first, last := m.keys[0], m.keys[|m.keys| - 1];
      assert first in m.keys && last in m.keys;
      forall p | p in m.at ensures Le(first, p) && Le(p, last) {
        assert p in m.keys;
        var i :| 0 <= i < |m.keys| && m.keys[i] == p;
        LeTotal(p, p);
        if i > 0 { assert Lt(first, p); }
        if i < |m.keys| - 1 { assert Lt(p, last); }
      }
    }
  }

  class PriceLadder {
    var levels: SortedMap<string>

    ghost predicate Valid()
      reads this
    {
      levels.Valid()
    }

    constructor ()
      ensures Valid() && levels == SortedMap([], map[])
    {
      levels := SortedMap([], map[]);
    }

    method ApplyLevels(update: seq<Level>)
      modifies this
      ensures Valid() && levels == Loaded(update)
    {
      levels := SortedMap([], map[]);
      for i := 0 to |update|
        invariant Valid() && levels == Loaded(update[..i])
      {
        assert update[..i + 1][..i] == update[..i];
        levels := levels.Put(update[i].price, update[i].size);
      }
      assert update[..|update|] == update;
    }

    method Upsert(price: string, size: string)
      requires Valid()
      modifies this
      ensures Valid() && levels == Upserted(old(levels), price, size)
    {
      levels := if RemovesLevel(size) then levels.Remove(price) else levels.Put(price, size);
    }

    method Bid() returns (best: Option<Level>)
      requires Valid()
      ensures Highest(levels, best)
    {
      BestIsEnd(levels);
      best := BestBid(levels);
    }

    method Ask() returns (best: Option<Level>)
      requires Valid()
      ensures Lowest(levels, best)
    {
      BestIsEnd(levels);
      best := BestAsk(levels);
    }
  }

  // ---- what a ladder holds after any history ----

  datatype Event = Snapshot(levels: seq<Level>) | Delta(price: string, size: string)

  function After(history: seq<Event>): (m: SortedMap<string>)
    ensures m.Valid()
  {
    if history == [] then SortedMap([], map[])
    else
      var before, e := After(history[..|history| - 1]), history[|history| - 1];
      match e
      case Snapshot(levels) => Loaded(levels)
      case Delta(price, size) => Upserted(before, price, size)
  }

  /** The size a snapshot gives a price: its last mention. */
  function SizeIn(levels: seq<Level>, price: string): Option<string> {
    if levels == [] then None
    else if levels[|levels| - 1].price == price then Some(levels[|levels| - 1].size)
    else SizeIn(levels[..|levels| - 1], price)
  }

  /** The size that the last word about a price left: read backwards to its latest delta, or to
      the latest snapshot. */
  function SizeAfter(history: seq<Event>, price: string): Option<string> {
    if history == [] then None
    else
      var e := history[|history| - 1];
      if e.Snapshot? then SizeIn(e.levels, price)
      else if e.price == price then (if RemovesLevel(e.size) then None else Some(e.size))
      else SizeAfter(history[..|history| - 1], price)
  }

  function Entry(m: SortedMap<string>, price: string): Option<string> {
    if price in m.at then Some(m.at[price]) else None
  }

  lemma {:induction false} LoadedHolds(levels: seq<Level>, price: string)
    ensures Entry(Loaded(levels), price) == SizeIn(levels, price)
  {
    hide RemovesLevel;
    if levels != [] { LoadedHolds(levels[..|levels| - 1], price); }
  }

  /** After any history of snapshots and deltas the ladder has exactly the prices whose last
      word was not a removal, at their last size. */
  lemma {:induction false} LadderHolds(history: seq<Event>, price: string)
    ensures Entry(After(history), price) == SizeAfter(history, price)
  {
    if history != [] {
      LadderHolds(history[..|history| - 1], price);
      var e := history[|history| - 1];
      if e.Snapshot? { LoadedHolds(e.levels, price); }
    }
  }

  /** An upsert leaves its price absent for exactly these three texts of zero, has it at its own
      size for any other, "0.000" and "" included, and touches no other price. */
  lemma ThreeZerosRemove(m: SortedMap<string>, price: string, size: string, other: string)
    requires m.Valid() && other != price
    ensures Entry(Upserted(m, price, size), price) ==
            if size == "0" || size == "0.0" || size == "0.00" then None else Some(size)
    ensures Entry(Upserted(m, price, size), other) == Entry(m, other)
  {
  }

  // ---- what a price is worth ----

  /** Digits, or digits, a dot and any number of digits. */
  predicate Plain(p: string) {
    Whole(p) != [] && Digits(Whole(p)) && Digits(AfterDot(p))
  }

  function Width(p: string): nat {
    |Whole(p)|
  }

  /** n followed by k zeros. */
  function Times10(n: nat, k: nat): nat {
    if k == 0 then n else 10 * Times10(n, k - 1)
  }

  /** A fraction cut to k decimals, counted in units of the k-th decimal. */
  function FractionAt(f: string, k: nat): nat
    requires Digits(f)
    decreases k
  {
    if k == 0 || f == [] then 0 else Times10(DigitOf(f[0]), k - 1) + FractionAt(f[1..], k - 1)
  }

  /** The value of a price counted in units of the k-th decimal: its digits, read through the
      dot. */
  function ValueAt(p: string, k: nat): nat
    requires Plain(p)
  {
    FractionAt(Whole(p) + AfterDot(p), Width(p) + k)
  }

  lemma {:induction false} Times10Step(d: nat, e: nat, k: nat)
    requires d < e
    ensures Times10(d, k) + Times10(1, k) <= Times10(e, k)
  {
    if k > 0 { Times10Step(d, e, k - 1); }
  }

  lemma {:induction false} FractionBelowOne(f: string, k: nat)
    requires Digits(f)
    ensures FractionAt(f, k) < Times10(1, k)
    decreases k
  {
    if k > 0 {
      if f == [] {
        Times10Step(0, 1, k);
        Times10Zero(k);
      } else {
        FractionBelowOne(f[1..], k - 1);
        Times10Step(DigitOf(f[0]), 10, k - 1);
        Times10Ten(k - 1);
      }
    }
  }

  lemma {:induction false} Times10Zero(k: nat)
    ensures Times10(0, k) == 0 && Times10(1, k) >= 1
  {
    if k > 0 { Times10Zero(k - 1); }
  }

  lemma {:induction false} Times10Ten(k: nat)
    ensures Times10(10, k) == Times10(1, k + 1)
  {
    if k > 0 { Times10Ten(k - 1); }
  }

  lemma {:induction false} TextOrderOfFractions(f: string, g: string, k: nat)
    requires Digits(f) && Digits(g) && Le(f, g)
    ensures FractionAt(f, k) <= FractionAt(g, k)
    decreases k
  {
    if k > 0 && f != [] {
      if f[0] == g[0] {
        TextOrderOfFractions(f[1..], g[1..], k - 1);
      } else {
        assert DigitOf(f[0]) < DigitOf(g[0]);
        Times10Step(DigitOf(f[0]), DigitOf(g[0]), k - 1);
        FractionBelowOne(f[1..], k - 1);
      }
    }
  }

  predicate DottedAt(p: string, n: nat) {
    n <= |p| && (n < |p| ==> p[n] == '.')
  }

  function Undotted(p: string, n: nat): string
    requires DottedAt(p, n)
  {
    p[..n] + if n < |p| then p[n + 1..] else []
  }

  lemma Peel(p: string, n: nat)
    requires n > 0 && DottedAt(p, n)
    ensures DottedAt(p[1..], n - 1) && Undotted(p, n) == [p[0]] + Undotted(p[1..], n - 1)
  {
    assert p[..n] == [p[0]] + p[1..][..n - 1];
    if n < |p| { assert p[n + 1..] == p[1..][n..]; }
  }

  /** Taking the dot out at the same place keeps the order. */
  lemma {:induction false} UndottedOrder(p: string, q: string, n: nat)
    requires DottedAt(p, n) && DottedAt(q, n) && Le(p, q)
    ensures Le(Undotted(p, n), Undotted(q, n))
    decreases n
  {
    if n == 0 {
      assert Undotted(p, 0) == if p == [] then [] else p[1..];
      assert Undotted(q, 0) == if q == [] then [] else q[1..];
    } else {
      Peel(p, n);
      Peel(q, n);
      if p[0] == q[0] { UndottedOrder(p[1..], q[1..], n - 1); }
    }
  }

  /** Between prices with equally many whole digits the order of the texts follows the order
      of the values, to any number of decimals. */
  lemma TextOrderIsValueOrder(p: string, q: string, k: nat)
    requires Plain(p) && Plain(q) && Width(p) == Width(q) && Le(p, q)
    ensures ValueAt(p, k) <= ValueAt(q, k)
  {
    hide FractionAt, Le, Dot, Undotted;
    UndottedParts(p);
    UndottedParts(q);
    UndottedOrder(p, q, Dot(p));
    TextOrderOfFractions(Undotted(p, Dot(p)), Undotted(q, Dot(q)), Width(p) + k);
  }

  lemma UndottedParts(p: string)
    ensures DottedAt(p, Dot(p)) && Width(p) == Dot(p)
    ensures Undotted(p, Dot(p)) == Whole(p) + AfterDot(p)
    ensures Plain(p) ==> Digits(Undotted(p, Dot(p)))
  {
    hide Dot;
  }

  ghost predicate AllPlain(m: SortedMap<string>, a: nat, b: nat) {
    forall p | p in m.at :: Plain(p) && (Width(p) == a || Width(p) == b)
  }

  /** The price is worth no more than the best bid and no less than the best ask. */
  ghost predicate Between(m: SortedMap<string>, p: string, k: nat)
    requires m.Valid()
  {
    && Plain(p)
    && BestBid(m).Some? && Plain(BestBid(m).value.price) && ValueAt(p, k) <= ValueAt(BestBid(m).value.price, k)
    && BestAsk(m).Some? && Plain(BestAsk(m).value.price) && ValueAt(BestAsk(m).value.price, k) <= ValueAt(p, k)
  }

  /** The best bid is the numeric maximum and the best ask the numeric minimum. */
  ghost predicate FindsBest(m: SortedMap<string>)
    requires m.Valid()
  {
    forall p, k: nat | p in m.at :: Between(m, p, k)
  }

  lemma BestIsNumericBest(m: SortedMap<string>, n: nat)
    requires m.Valid() && AllPlain(m, n, n)
    ensures FindsBest(m)
  {
    hide Le, Plain, ValueAt, Width;
    forall p, k: nat | p in m.at ensures Between(m, p, k) {
      BestIsEnd(m);
      TextOrderIsValueOrder(BestAsk(m).value.price, p, k);
      TextOrderIsValueOrder(p, BestBid(m).value.price, k);
    }
  }

  // ---- where the text order goes wrong ----

  function AllNines(n: nat): string {
    Repeat('9', n)
  }

  function OneAndZeros(n: nat): string
    requires n >= 1
  {
    "1" + Repeat('0', n - 1)
  }

  lemma WholeNumber(s: string)
    requires s != [] && Digits(s)
    ensures Plain(s) && Width(s) == |s| && ValueAt(s, 0) == FractionAt(s, |s|)
  {
    DigitsHaveNoDot(s);
    assert s[..|s|] == s;
    DotAt(s, |s|);
    assert s + [] == s;
  }

  lemma {:induction false} Times10Grows(a: nat, b: nat)
    requires a <= b
    ensures Times10(1, a) <= Times10(1, b)
  {
    if a < b { Times10Grows(a, b - 1); }
  }

  /** The smaller number comes later: nines before a longer one with zeros. */
  lemma LongerIsEarlier(a: nat, b: nat)
    requires 1 <= a < b
    ensures Plain(AllNines(a)) && Width(AllNines(a)) == a && Plain(OneAndZeros(b)) && Width(OneAndZeros(b)) == b
    ensures Le(OneAndZeros(b), AllNines(a)) && OneAndZeros(b) != AllNines(a)
    ensures ValueAt(AllNines(a), 0) < ValueAt(OneAndZeros(b), 0)
  {
    hide Plain, Width, ValueAt;
    var p, q := AllNines(a), OneAndZeros(b);
    WholeNumber(p);
    WholeNumber(q);
    assert q[0] == '1' && p[0] == '9';
    FractionBelowOne(p, a);
    Times10Grows(a, b - 1);
  }

  /** Then the ladder's best bid is the smaller of the two. */
  lemma LongerMisleads(a: nat, b: nat)
    requires 1 <= a < b
    ensures var m := SortedMap([], map[]).Put(AllNines(a), "1").Put(OneAndZeros(b), "1");
            m.Valid() && AllPlain(m, a, b) && !FindsBest(m)
  {
    hide Plain, Width, ValueAt, Le, AllNines, OneAndZeros;
    LongerIsEarlier(a, b);
    var p, q := AllNines(a), OneAndZeros(b);
    var m := SortedMap([], map[]).Put(p, "1").Put(q, "1");
    assert p in m.at && q in m.at;
    BestIsEnd(m);
    LeTotal(p, q);
    assert BestBid(m).value.price == p;
    assert !Between(m, q, 0);
  }

  /** So the ends of the text order are the numeric best in every ladder of prices with a or b
      whole digits exactly when a and b are the same. */
  lemma WidthsExactly(a: nat, b: nat)
    requires a >= 1 && b >= 1
    ensures (forall m: SortedMap<string> | m.Valid() && AllPlain(m, a, b) :: FindsBest(m)) <==> a == b
  {
    hide FindsBest;
    if a == b {
      forall m: SortedMap<string> | m.Valid() && AllPlain(m, a, b) ensures FindsBest(m) {
        BestIsNumericBest(m, a);
      }
    } else {
      var x, y := if a < b then a else b, if a < b then b else a;
      LongerMisleads(x, y);
      var m := SortedMap([], map[]).Put(AllNines(x), "1").Put(OneAndZeros(y), "1");
      assert AllPlain(m, a, b) && !FindsBest(m);
    }
  }

  // ---- agreement with the parsed units ----

  lemma {:induction false} ValHead(c: char, r: string)
    requires IsDigit(c) && Digits(r)
    ensures Digits([c] + r) && Val([c] + r) == Times10(DigitOf(c), |r|) + Val(r)
  {
    if r == [] {
      assert ([c] + r)[..0] == [];
    } else {
      var n := |r| - 1;
      ValHead(c, r[..n]);
      assert ([c] + r)[..|r|] == [c] + r[..n];
    }
  }

  lemma {:induction false} FractionIsVal(f: string)
    requires Digits(f)
    ensures FractionAt(f, |f|) == Val(f)
  {
    if f != [] {
      FractionIsVal(f[1..]);
      ValHead(f[0], f[1..]);
      assert [f[0]] + f[1..] == f;
    }
  }

  lemma {:induction false} FractionPadded(f: string, k: nat)
    requires Digits(f)
    ensures FractionAt(f + "0", k) == FractionAt(f, k)
    decreases k
  {
    if k > 0 {
      if f == [] {
        Times10Zero(k - 1);
        assert (f + "0")[1..] == [];
      } else {
        FractionPadded(f[1..], k - 1);
        assert (f + "0")[1..] == f[1..] + "0";
      }
    }
  }

  lemma {:induction false} FractionCut(f: string, k: nat)
    requires Digits(f) && k <= |f|
    ensures FractionAt(f[..k], k) == FractionAt(f, k)
    decreases k
  {
    if k > 0 {
      FractionCut(f[1..], k - 1);
      assert f[..k][1..] == f[1..][..k - 1];
    }
  }

  lemma {:induction false} FractionSix(f: string)
    requires Digits(f)
    ensures Val(Six(f)) == FractionAt(f, 6)
    decreases 6 - |f|
  {
    if |f| >= 6 {
      FractionCut(f, 6);
      FractionIsVal(f[..6]);
    } else {
      FractionPadded(f, 6);
      FractionSix(f + "0");
    }
  }

  lemma Times10Six(d: nat)
    ensures Times10(d, 6) == d * 1_000_000
  {
    assert Times10(d, 1) == 10 * d;
    assert Times10(d, 2) == 100 * d;
    assert Times10(d, 3) == 1000 * d;
    assert Times10(d, 4) == 10_000 * d;
    assert Times10(d, 5) == 100_000 * d;
  }

  lemma {:induction false} Times10Adds(x: nat, y: nat, k: nat)
    ensures Times10(x + y, k) == Times10(x, k) + Times10(y, k)
  {
    if k > 0 { Times10Adds(x, y, k - 1); }
  }

  lemma {:induction false} Times10Twice(x: nat, j: nat, k: nat)
    ensures Times10(x, j + k) == Times10(Times10(x, j), k)
  {
    if k > 0 { Times10Twice(x, j, k - 1); }
  }

  /** Whole digits followed by decimals. */
  lemma {:induction false} FractionSplit(w: string, f: string, k: nat)
    requires Digits(w) && Digits(f)
    ensures Digits(w + f) && FractionAt(w + f, |w| + k) == Times10(Val(w), k) + FractionAt(f, k)
    decreases |w|
  {
    if w == [] {
      assert w + f == f;
      Times10Zero(k);
    } else {
      var c, r := w[0], w[1..];
      assert w == [c] + r && w + f == [c] + (r + f);
      FractionSplit(r, f, k);
      ValHead(c, r);
      Times10Adds(Times10(DigitOf(c), |r|), Val(r), k);
      Times10Twice(DigitOf(c), |r|, k);
    }
  }

  /** The hot state reads a plain price as its value to six decimals, if that fits. */
  lemma UnitsAreValue(p: string)
    requires Plain(p)
    ensures ScaledOf(p) == if ValueAt(p, 6) <= U64_MAX then Some(ValueAt(p, 6)) else None
  {
    hide ScaledOf, UnitsOf, Six, ParseU64, FractionAt, Times10, TrimSpace, HasSecondDot, Checked, Lenient, Show, Val;
    var w, f := Whole(p), AfterDot(p);
    PlainParts(p);
    FractionSplit(w, f, 6);
    Times10Six(Val(w));
    FractionSix(f);
    SixParses(f);
    ParseDigits(w);
    CheckedFits(Val(w), FractionAt(f, 6));
    ScaledFromParts(p);
  }

  lemma PlainParts(p: string)
    requires Plain(p)
    ensures Fraction(p) == AfterDot(p) && !HasSecondDot(p)
    ensures TrimSpace(p) == p && p != [] && p[0] != '-'
  {
    hide TrimSpace;
    var w, f := Whole(p), AfterDot(p);
    assert p == w + "." + f || (f == [] && p == w);
    DecimalParts(w, f, p);
  }

  lemma CheckedFits(whole: nat, fraction: nat)
    ensures Checked(if whole <= U64_MAX then Some(whole) else None, Some(fraction)) ==
            if whole * 1_000_000 + fraction <= U64_MAX then Some(whole * 1_000_000 + fraction) else None
  {
  }

  lemma ScaledFromParts(s: string)
    requires TrimSpace(s) == s && s != [] && s[0] != '-' && !HasSecondDot(s)
    ensures ScaledOf(s) == Checked(ParseU64(Whole(s)), ParseU64(Six(Fraction(s))))
  {
  }
}
