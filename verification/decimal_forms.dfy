/** The parsers and printers on every text, said with concatenations: what exactly is read, what
    is refused and why, and what printed amounts look like. */
module DecimalForms {
  import opened Text
  import opened Words
  import opened Units
  import opened Amounts

  // ---- whole numbers ----

  /** At least one digit, with or without a plus sign before them. */
  ghost predicate Numeral(s: string, digits: string) {
    digits != [] && Digits(digits) && (s == digits || s == "+" + digits)
  }

  lemma NumbersExactly(s: string, v: nat)
    ensures ParseU64(s) == Some(v) <==> v <= U64_MAX && exists d :: Numeral(s, d) && Val(d) == v
  {
    hide Val;
    if ParseU64(s) == Some(v) {
      var body := if |s| > 1 && s[0] == '+' then s[1..] else s;
      assert Numeral(s, body);
    }
    if d :| Numeral(s, d) && Val(d) == v {
      assert IsDigit(d[0]);
      if s == "+" + d { assert s[1..] == d; }
    }
  }

  /** The first six characters, padded with zeros. */
  lemma {:induction false} SixExactly(f: string)
    ensures Six(f) == (f + "000000")[..6]
    decreases 6 - |f|
  {
    if |f| >= 6 {
      assert (f + "000000")[..6] == f[..6];
    } else {
      SixExactly(f + "0");
      assert (f + "0" + "000000")[..6] == (f + "000000")[..6];
    }
  }

  // ---- the lenient parser ----

  /** A text up to its first dot, and on to its second. */
  predicate SplitAs(s: string, w: string, f: string) {
    && '.' !in w && '.' !in f
    && (s == w + "." + f || (f == [] && s == w) || w + "." + f + "." <= s)
  }

  function NumberOrZero(s: string): nat {
    ParseU64(s).GetOr(0)
  }

  lemma Splits(s: string, w: string, f: string)
    requires SplitAs(s, w, f)
    ensures Whole(s) == w && Fraction(s) == f
  {
    if s == w {
      assert s[..|w|] == w;
      DotAt(s, |w|);
    } else {
      var rest := if s == w + "." + f then f else s[|w| + 1..];
      assert s == w + "." + rest;
      assert s[..|w|] == w;
      DotAt(s, |w|);
      assert AfterDot(s) == rest;
      assert rest[..|f|] == f;
      DotAt(rest, |f|);
    }
  }

  /** On any text at all: the part before the first dot and the first six characters up to the
      second, each counting as zero where it is no number, and the largest u64 where they come to
      more. */
  lemma LenientExactly(s: string, w: string, f: string)
    requires SplitAs(s, w, f)
    ensures UnitsOf(s) ==
            var v := NumberOrZero(w) * 1_000_000 + NumberOrZero((f + "000000")[..6]);
            if v <= U64_MAX then v else U64_MAX
  {
    hide ParseU64, Six;
    Splits(s, w, f);
    SixExactly(f);
  }

  // ---- the hot state's parser ----

  predicate Spaces(s: string) {
    forall i | 0 <= i < |s| :: IsSpace(s[i])
  }

  predicate Tight(s: string) {
    s != [] && !IsSpace(s[0]) && !IsSpace(s[|s| - 1])
  }

  lemma {:induction false} TrimSpaceExactly(a: string, s: string, b: string)
    requires Spaces(a) && Spaces(b) && (s == [] || Tight(s))
    ensures TrimSpace(a + s + b) == s
    decreases |a| + |b|
  {
    hide IsSpace;
    var t := a + s + b;
    if a != [] {
      assert t[0] == a[0] && t[1..] == a[1..] + s + b;
      TrimSpaceExactly(a[1..], s, b);
    } else if b != [] {
      var n := |b| - 1;
      assert t[|t| - 1] == b[n] && t[..|t| - 1] == a + s + b[..n];
      TrimSpaceExactly(a, s, b[..n]);
      if s == [] {
        assert t == b && t[1..] == [] + [] + b[1..];
        TrimSpaceExactly([], [], b[1..]);
      }
    } else {
      assert t == s;
    }
  }

  lemma {:induction false} TrimSpaceParts(text: string) returns (a: string, b: string)
    ensures Spaces(a) && Spaces(b) && text == a + TrimSpace(text) + b
    ensures TrimSpace(text) == [] || Tight(TrimSpace(text))
    decreases |text|
  {
    hide IsSpace;
    a, b := [], [];
    if text != [] && IsSpace(text[0]) {
      a, b := TrimSpaceParts(text[1..]);
      assert text == ([text[0]] + a) + TrimSpace(text) + b;
      a := [text[0]] + a;
    } else if text != [] && IsSpace(text[|text| - 1]) {
      var n := |text| - 1;
      a, b := TrimSpaceParts(text[..n]);
      assert text == a + TrimSpace(text) + (b + [text[n]]);
      b := b + [text[n]];
    }
  }

  /** A number before the dot, and a number in the first six characters after it, if there is a
      dot; with zeros for missing decimals. */
  ghost predicate ScaledForm(s: string, w: string, f: string, whole: nat, fraction: nat) {
    && Tight(s) && '.' !in f && (s == w + "." + f || (f == [] && s == w))
    && ParseU64(w) == Some(whole) && ParseU64((f + "000000")[..6]) == Some(fraction)
  }

  /** The hot state's parser reads exactly such texts whose value fits a u64, between any
      spaces. */
  lemma ScaledExactly(text: string, v: nat)
    ensures ScaledOf(text) == Some(v) <==>
            v <= U64_MAX && exists a, s, b, w, f, whole: nat, fraction: nat ::
              Spaces(a) && Spaces(b) && text == a + s + b && ScaledForm(s, w, f, whole, fraction)
              && v == whole * 1_000_000 + fraction
  {
    hide ScaledOf, ScaledForm, Spaces;
    if ScaledOf(text) == Some(v) {
      var a, s, b, w, f, whole, fraction := FormOfScaled(text, v);
    }
    if a, s, b, w, f, whole: nat, fraction: nat :|
      Spaces(a) && Spaces(b) && text == a + s + b && ScaledForm(s, w, f, whole, fraction)
      && v == whole * 1_000_000 + fraction && v <= U64_MAX
    {
      FormIsTight(s, w, f, whole, fraction);
      TrimSpaceExactly(a, s, b);
      FormIsScaled(text, s, w, f, whole, fraction);
    }
  }

  lemma FormIsTight(s: string, w: string, f: string, whole: nat, fraction: nat)
    requires ScaledForm(s, w, f, whole, fraction)
    ensures Tight(s)
  {
    hide ParseU64;
  }

  lemma FormOfScaled(text: string, v: nat)
    returns (a: string, s: string, b: string, w: string, f: string, whole: nat, fraction: nat)
    requires ScaledOf(text) == Some(v)
    ensures v <= U64_MAX && Spaces(a) && Spaces(b) && text == a + s + b && ScaledForm(s, w, f, whole, fraction)
    ensures v == whole * 1_000_000 + fraction
  {
    hide ParseU64, Six, TrimSpace, Spaces, Whole, Fraction, HasSecondDot;
    a, b := TrimSpaceParts(text);
    s := TrimSpace(text);
    w, f := Whole(s), Fraction(s);
    SixExactly(f);
    SingleDot(s);
    whole, fraction := ParseU64(w).value, ParseU64(Six(f)).value;
  }

  lemma FormIsScaled(text: string, s: string, w: string, f: string, whole: nat, fraction: nat)
    requires TrimSpace(text) == s && ScaledForm(s, w, f, whole, fraction) && whole * 1_000_000 + fraction <= U64_MAX
    ensures ScaledOf(text) == Some(whole * 1_000_000 + fraction)
  {
    hide ParseU64, Six, TrimSpace, Whole, Fraction, HasSecondDot;
    SixExactly(f);
    NumbersHaveNoDot(w);
    Splits(s, w, f);
    OneDot(s, w, f);
  }

  lemma SingleDot(s: string)
    requires !HasSecondDot(s)
    ensures '.' !in Fraction(s) && (s == Whole(s) + "." + Fraction(s) || (Fraction(s) == [] && s == Whole(s)))
  {
    var rest := AfterDot(s);
    assert Dot(rest) == |rest|;
    assert rest[..|rest|] == rest;
    if Dot(s) == |s| {
      assert s[..|s|] == s && Dot([]) == 0;
    } else {
      assert s == Whole(s) + "." + rest;
    }
  }

  lemma OneDot(s: string, w: string, f: string)
    requires SplitAs(s, w, f) && (s == w + "." + f || (f == [] && s == w))
    ensures !HasSecondDot(s)
  {
    Splits(s, w, f);
    if s == w + "." + f { assert AfterDot(s) == f; } else { assert AfterDot(s) == []; }
  }

  lemma NumbersHaveNoDot(w: string)
    requires ParseU64(w).Some?
    ensures '.' !in w && w != [] && w[0] != '-'
  {
    var v := ParseU64(w).value;
    NumbersExactly(w, v);
    var d :| Numeral(w, d) && Val(d) == v;
    DigitsHaveNoDot(d);
  }

  // ---- the strict parser's refusals ----

  /** A decimal in digits only, too large for a u128. */
  ghost predicate TooLarge(s: string, w: string, f: string) {
    && Digits(w) && Digits(f) && |f| <= USDC_DECIMALS && (s == w + "." + f || (f == [] && s == w))
    && DecimalValue(w, f) > U128_MAX
  }

  /** Whole digits that fit, a dot and a seventh decimal, whatever follows. */
  ghost predicate TooPrecise(s: string, w: string, f: string) {
    && Digits(w) && Digits(f) && |f| > USDC_DECIMALS && w + "." + f <= s && Val(w) <= U128_MAX
  }

  ghost predicate RunsOver(s: string, n: nat) {
    n <= |s| && Digits(s[..n]) && Val(s[..n]) > U128_MAX
  }

  ghost predicate Overflows(s: string) {
    (exists n :: RunsOver(s, n)) || exists w, f :: TooLarge(s, w, f)
  }

  /** Which refusal a text gets: Overflow when its leading digits, or it as a whole, are too large;
      UnsupportedPrecision when the leading digits fit and a seventh decimal follows;
      InvalidFormat in every other case. Each names the field and quotes the text. */
  lemma RefusalsExactly(s: string, field: string)
    ensures StrictValue(s, field) == Err(Overflow(field, s)) <==> Overflows(s)
    ensures StrictValue(s, field) == Err(UnsupportedPrecision(field, s, 6)) <==> exists w, f :: TooPrecise(s, w, f)
    ensures StrictValue(s, field).Ok? || StrictValue(s, field) == Err(Overflow(field, s))
            || StrictValue(s, field) == Err(UnsupportedPrecision(field, s, 6))
            || StrictValue(s, field) == Err(InvalidFormat(field, s))
  {
    hide Val, ShiftToSix, StrictValue;
    OverflowExactly(s, field);
    PrecisionExactly(s, field);
    assert StrictValue(s, field).Err? ==>
             StrictValue(s, field) in [Err(Overflow(field, s)), Err(UnsupportedPrecision(field, s, 6)),
                                       Err(InvalidFormat(field, s))] by { KindsOfRefusal(s, field); }
  }

  lemma KindsOfRefusal(s: string, field: string)
    ensures StrictValue(s, field).Err? ==>
              StrictValue(s, field) in [Err(Overflow(field, s)), Err(UnsupportedPrecision(field, s, 6)),
                                        Err(InvalidFormat(field, s))]
  {
    hide Val, ShiftToSix;
  }

  lemma OverflowExactly(s: string, field: string)
    ensures StrictValue(s, field) == Err(Overflow(field, s)) <==> Overflows(s)
  {
    hide Val, ShiftToSix;
    var r := Read(s);
    if StrictValue(s, field) == Err(Overflow(field, s)) {
      if Val(r.whole) > U128_MAX {
        assert RunsOver(s, |r.whole|);
      } else {
        assert s[..|s|] == s;
        assert TooLarge(s, r.whole, r.fraction);
      }
    }
    if n :| RunsOver(s, n) { WholeFault(s, field, n); }
    if w, f :| TooLarge(s, w, f) { LargeRefused(s, field, w, f); }
  }

  lemma LargeRefused(s: string, field: string, w: string, f: string)
    requires TooLarge(s, w, f)
    ensures StrictValue(s, field) == Err(Overflow(field, s))
  {
    hide Val, ShiftToSix;
    if s == w + "." + f {
      assert s[..|w|] == w && s[|w| + 1..|s|] == f;
      FractionRuns(s, |w|, |s|);
    } else {
      assert s[..|s|] == w;
      RunAtLeast(s, |s|);
    }
    if w == [] { NothingFits(f); }
  }

  lemma NothingFits(f: string)
    requires Digits(f) && |f| <= USDC_DECIMALS
    ensures DecimalValue("", f) <= U128_MAX
  {
    BareFractionValue(f);
  }

  lemma PrecisionExactly(s: string, field: string)
    ensures StrictValue(s, field) == Err(UnsupportedPrecision(field, s, 6)) <==> exists w, f :: TooPrecise(s, w, f)
  {
    hide Val, ShiftToSix;
    var r := Read(s);
    if StrictValue(s, field) == Err(UnsupportedPrecision(field, s, 6)) {
      assert TooPrecise(s, r.whole, r.fraction);
    }
    if w, f :| TooPrecise(s, w, f) { PreciseRefused(s, field, w, f); }
  }

  lemma PreciseRefused(s: string, field: string, w: string, f: string)
    requires TooPrecise(s, w, f)
    ensures StrictValue(s, field) == Err(UnsupportedPrecision(field, s, 6))
  {
    hide Val, ShiftToSix, StrictValue;
    var d, e := |w|, |w + "." + f|;
    assert s[..e] == w + "." + f;
    assert s[..d] == s[..e][..d] == w && s[d + 1..e] == s[..e][d + 1..] == f && s[d] == s[..e][d] == '.';
    PrecisionFault(s, field, d, e);
  }

  /** The amounts of an order fail with the price's refusal, else with the size's, else with an
      overflow of their product, which is the same for both sides and quotes both texts. */
  lemma FirstRefusalIsReported(price: string, size: string, side: ClobSide)
    ensures var p, t, r := StrictValue(price, "price"), StrictValue(size, "size"), ComputeAmounts(price, size, side);
            && (p.Err? ==> r == Err(p.error))
            && (p.Ok? && t.Err? ==> r == Err(t.error))
            && (p.Ok? && t.Ok? ==>
                  (r.Err? <==> p.value * t.value > U128_MAX)
                  && (r.Err? ==> r.error == Overflow("makerAmount", "price=" + price + " size=" + size)))
  {
    hide StrictValue;
  }

  // ---- what is printed ----

  /** A number as one writes it: no zero in front of another digit. */
  predicate Canonical(s: string) {
    s != [] && Digits(s) && (|s| > 1 ==> s[0] != '0')
  }

  lemma {:induction false} ShowIsCanonical(n: nat)
    ensures Canonical(Show(n)) && (n > 0 ==> Show(n)[0] != '0')
  {
    if n >= 10 { ShowIsCanonical(n / 10); }
  }

  /** A printed amount: the whole part as one writes it, a dot and exactly six decimals. */
  predicate PrintedInFull(s: string, w: string, f: string, u: nat) {
    && s == w + "." + f && Canonical(w) && |f| == 6 && Digits(f)
    && Val(w) == u / 1_000_000 && Val(f) == u % 1_000_000
  }

  /** The same without the trailing zeros, nor a dot that nothing follows. */
  predicate PrintedTrimmed(s: string, w: string, f: string, u: nat) {
    && Canonical(w) && |f| <= 6 && Digits(f) && (f != [] ==> f[|f| - 1] != '0')
    && s == (if f == [] then w else w + "." + f)
    && Val(w) == u / 1_000_000 && Val(Six(f)) == u % 1_000_000
  }

  lemma PrintedExactly(u: nat)
    ensures exists w, f :: PrintedInFull(FormatUnits(u), w, f, u)
    ensures exists w, f :: PrintedTrimmed(FormatUnitsTrimmed(u), w, f, u) && ScaledText(u) == FormatUnitsTrimmed(u)
  {
    hide Val, Show, ZeroPad, Six, ScaledText, FormatUnitsTrimmed;
    var w, p := Show(u / 1_000_000), ZeroPad(Show(u % 1_000_000), 6);
    var t := TrimEnd(p, '0');
    ValShow(u / 1_000_000);
    ShowIsCanonical(u / 1_000_000);
    PaddedFraction(u);
    TrimmedFraction(p);
    TrimmedShape(u);
    assert Six(p) == p by { SixOfSix(p); }
    assert PrintedInFull(FormatUnits(u), w, p, u);
    assert PrintedTrimmed(FormatUnitsTrimmed(u), w, t, u);
  }

  lemma SixOfSix(p: string)
    requires |p| == 6
    ensures Six(p) == p
  {
  }
}
