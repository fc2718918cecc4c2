/** The strict decimal parser of order amounts and the maker/taker amounts of an order. */
module Amounts {
  import opened Text
  import opened Units
  import opened Words

  const U128_MAX: nat := 0xFFFF_FFFF_FFFF_FFFF_FFFF_FFFF_FFFF_FFFF
  const USDC_DECIMALS: nat := 6

  datatype AmountError =
    | InvalidFormat(field: string, value: string)
    | UnsupportedPrecision(field: string, value: string, maxDecimals: nat)
    | Overflow(field: string, value: string)

  datatype AmountResult<+T> = Ok(value: T) | Err(error: AmountError)

  datatype ClobSide = Buy | Sell

  // ---- what the text says, independently of how it is scanned ----

  function DigitRun(s: string): (n: nat)
    ensures n <= |s| && Digits(s[..n])
    ensures n < |s| ==> !IsDigit(s[n])
  {
    if s == [] || !IsDigit(s[0]) then 0 else 1 + DigitRun(s[1..])
  }

  /** The longest readable beginning: digits, at most one dot, digits. */
  datatype Reading = Reading(whole: string, fraction: string, complete: bool)

  function Read(s: string): (r: Reading)
    ensures Digits(r.whole) && Digits(r.fraction)
  {
    var n := DigitRun(s);
    if n < |s| && s[n] == '.' then
      var rest := s[n + 1..];
      var m := DigitRun(rest);
      Reading(s[..n], rest[..m], m == |rest|)
    else
      Reading(s[..n], [], n == |s|)
  }

  /** The result the strict parser owes each text. */
  function StrictValue(s: string, field: string): AmountResult<nat> {
    var r := Read(s);
    if Val(r.whole) > U128_MAX then Err(Overflow(field, s))
    else if |r.fraction| > USDC_DECIMALS then Err(UnsupportedPrecision(field, s, USDC_DECIMALS))
    else if !r.complete || (r.whole == [] && r.fraction == []) then Err(InvalidFormat(field, s))
    else if DecimalValue(r.whole, r.fraction) > U128_MAX then Err(Overflow(field, s))
    else Ok(DecimalValue(r.whole, r.fraction))
  }

  lemma {:induction false} RunAtLeast(s: string, n: nat)
    requires n <= |s| && Digits(s[..n])
    ensures DigitRun(s) >= n
    ensures n == |s| || !IsDigit(s[n]) ==> DigitRun(s) == n
  {
    if n > 0 {
      assert s[0] == s[..n][0];
      assert s[1..][..n - 1] == s[..n][1..];
      RunAtLeast(s[1..], n - 1);
    }
  }

  lemma {:induction false} ValPrefix(s: string, n: nat, m: nat)
    requires n <= m <= |s| && Digits(s[..m])
    ensures Digits(s[..n]) && Val(s[..n]) <= Val(s[..m])
  {
    if n < m {
      assert s[..m][..m - 1] == s[..m - 1];
      assert forall i | 0 <= i < m - 1 :: s[..m - 1][i] == s[..m][i];
      ValPrefix(s, n, m - 1);
    }
  }

  /** What the five local variables of the scan say about the first i characters; d is where
      the dot was seen. */
  ghost predicate Scanned(s: string, i: nat, sawDot: bool, d: nat,
                          whole: nat, fractional: nat, digits: nat, sawDigit: bool)
  {
    && i <= |s| && whole <= U128_MAX
    && (sawDot ==> d < i && s[d] == '.')
    && Digits(s[..if sawDot then d else i]) && whole == Val(s[..if sawDot then d else i])
    && (sawDot ==> Digits(s[d + 1..i]) && fractional == Val(s[d + 1..i]))
    && (!sawDot ==> fractional == 0)
    && digits == (if sawDot then i - d - 1 else 0) <= USDC_DECIMALS
    && (sawDigit <==> if sawDot then i > 1 else i > 0)
  }

  /** The source's scan: one pass over the characters with five local variables. */
  method ParseScaledDecimal(s: string, field: string) returns (r: AmountResult<nat>)
    ensures r == StrictValue(s, field)
  {
    hide StrictValue, Scanned, Scaled;
    if s == [] {
      ScanEnds(s, field, false, 0);
      return Err(InvalidFormat(field, s));
    }
    var whole: nat, fractional: nat, fractionalDigits: nat := 0, 0, 0;
    var sawDot, sawDigit := false, false;
    ghost var d := 0; // where the dot was seen
    ScanStarts(s);
    for i := 0 to |s|
      invariant Scanned(s, i, sawDot, d, whole, fractional, fractionalDigits, sawDigit)
    {
      var c := s[i];
      if IsDigit(c) {
        sawDigit := true;
        if sawDot {
          ScansDecimal(s, field, i, d, whole, fractional, fractionalDigits);
          if fractionalDigits >= USDC_DECIMALS {
            return Err(UnsupportedPrecision(field, s, USDC_DECIMALS));
          }
          fractional := fractional * 10 + DigitOf(c);
          fractionalDigits := fractionalDigits + 1;
        } else {
          ScansWhole(s, field, i, d, whole, fractional, fractionalDigits);
          if whole * 10 + DigitOf(c) > U128_MAX {
            return Err(Overflow(field, s));
          }
          whole := whole * 10 + DigitOf(c);
        }
      } else if c == '.' && !sawDot {
        ScansDot(s, i, d, whole, fractional, fractionalDigits, sawDigit);
        sawDot, d := true, i;
      } else {
        ScansOther(s, field, i, sawDot, d, whole, fractional, fractionalDigits, sawDigit);
        return Err(InvalidFormat(field, s));
      }
    }
    ScanDone(s, field, sawDot, d, whole, fractional, fractionalDigits, sawDigit);
    if !sawDigit { return Err(InvalidFormat(field, s)); }
    if whole * 1_000_000 > U128_MAX { return Err(Overflow(field, s)); }
    var total := Scaled(whole, fractional, fractionalDigits);
    r := if total > U128_MAX then Err(Overflow(field, s)) else Ok(total);
  }

  lemma ScanStarts(s: string)
    ensures Scanned(s, 0, false, 0, 0, 0, 0, false)
  {
  }

  lemma ScansDecimal(s: string, field: string, i: nat, d: nat, whole: nat, fractional: nat, digits: nat)
    requires i < |s| && IsDigit(s[i]) && exists sawDigit :: Scanned(s, i, true, d, whole, fractional, digits, sawDigit)
    ensures if digits >= USDC_DECIMALS then StrictValue(s, field) == Err(UnsupportedPrecision(field, s, USDC_DECIMALS))
            else Scanned(s, i + 1, true, d, whole, fractional * 10 + DigitOf(s[i]), digits + 1, true)
  {
    hide Val, Digits, StrictValue;
    DigitStep(s, d + 1, i);
    if digits >= USDC_DECIMALS { PrecisionFault(s, field, d, i + 1); }
  }

  lemma ScansWhole(s: string, field: string, i: nat, d: nat, whole: nat, fractional: nat, digits: nat)
    requires i < |s| && IsDigit(s[i]) && exists sawDigit :: Scanned(s, i, false, d, whole, fractional, digits, sawDigit)
    ensures if whole * 10 + DigitOf(s[i]) > U128_MAX then StrictValue(s, field) == Err(Overflow(field, s))
            else Scanned(s, i + 1, false, d, whole * 10 + DigitOf(s[i]), fractional, digits, true)
  {
    hide Val, Digits, StrictValue;
    assert s[0..i] == s[..i] && s[0..i + 1] == s[..i + 1];
    DigitStep(s, 0, i);
    if whole * 10 + DigitOf(s[i]) > U128_MAX { WholeFault(s, field, i + 1); }
  }

  lemma ScansDot(s: string, i: nat, d: nat, whole: nat, fractional: nat, digits: nat, sawDigit: bool)
    requires i < |s| && s[i] == '.' && Scanned(s, i, false, d, whole, fractional, digits, sawDigit)
    ensures Scanned(s, i + 1, true, i, whole, fractional, digits, sawDigit)
  {
    assert s[i + 1..i + 1] == [];
  }

  lemma ScansOther(s: string, field: string, i: nat, sawDot: bool, d: nat,
                   whole: nat, fractional: nat, digits: nat, sawDigit: bool)
    requires i < |s| && !IsDigit(s[i]) && (s[i] == '.' ==> sawDot)
    requires Scanned(s, i, sawDot, d, whole, fractional, digits, sawDigit)
    ensures StrictValue(s, field) == Err(InvalidFormat(field, s))
  {
    hide Val, Digits, StrictValue;
    if sawDot { FormatFault(s, field, d, i); } else { WholeFormatFault(s, field, i); }
  }

  lemma ScanDone(s: string, field: string, sawDot: bool, d: nat,
                 whole: nat, fractional: nat, digits: nat, sawDigit: bool)
    requires Scanned(s, |s|, sawDot, d, whole, fractional, digits, sawDigit)
    ensures digits <= USDC_DECIMALS && Scaled(whole, fractional, digits) >= whole * 1_000_000
    ensures StrictValue(s, field) ==
            if !sawDigit then Err(InvalidFormat(field, s))
            else if Scaled(whole, fractional, digits) > U128_MAX then Err(Overflow(field, s))
            else Ok(Scaled(whole, fractional, digits))
  {
    hide Val, Digits, StrictValue, Scaled;
    ScanEnds(s, field, sawDot, d);
    ScaledAtLeast(whole, fractional, digits);
  }

  /** What the local variables amount to once every character has been accepted. */
  lemma ScanEnds(s: string, field: string, sawDot: bool, d: nat)
    requires sawDot ==> d < |s| && s[d] == '.' && Digits(s[..d]) && Digits(s[d + 1..|s|])
    requires sawDot ==> |s| - d - 1 <= USDC_DECIMALS
    requires !sawDot ==> Digits(s[..|s|])
    requires Val(s[..if sawDot then d else |s|]) <= U128_MAX
    ensures StrictValue(s, field) ==
            if |s| <= (if sawDot then 1 else 0) then Err(InvalidFormat(field, s))
            else
              var v := if sawDot then Scaled(Val(s[..d]), Val(s[d + 1..|s|]), |s| - d - 1)
                       else Scaled(Val(s[..|s|]), 0, 0);
              if v > U128_MAX then Err(Overflow(field, s)) else Ok(v)
  {
    hide ShiftToSix;
    if sawDot {
      FractionRuns(s, d, |s|);
    } else {
      RunAtLeast(s, |s|);
    }
  }

  lemma FractionRuns(s: string, d: nat, i: nat)
    requires d < i <= |s| && s[d] == '.' && Digits(s[..d]) && Digits(s[d + 1..i])
    ensures Read(s).whole == s[..d] && |Read(s).fraction| >= i - d - 1
    ensures i == |s| || !IsDigit(s[i]) ==>
              Read(s).fraction == s[d + 1..i] && (Read(s).complete <==> i == |s|)
  {
    RunAtLeast(s, d);
    assert s[d + 1..][..i - d - 1] == s[d + 1..i];
    RunAtLeast(s[d + 1..], i - d - 1);
  }

  // The scan may stop at the first fault: what was read so far already decides the result.

  lemma WholeFault(s: string, field: string, n: nat)
    requires n <= |s| && Digits(s[..n]) && Val(s[..n]) > U128_MAX
    ensures StrictValue(s, field) == Err(Overflow(field, s))
  {
    RunAtLeast(s, n);
    ValPrefix(s, n, DigitRun(s));
  }

  lemma WholeFormatFault(s: string, field: string, i: nat)
    requires i < |s| && Digits(s[..i]) && Val(s[..i]) <= U128_MAX && !IsDigit(s[i]) && s[i] != '.'
    ensures StrictValue(s, field) == Err(InvalidFormat(field, s))
  {
    RunAtLeast(s, i);
  }

  lemma PrecisionFault(s: string, field: string, d: nat, i: nat)
    requires d < i <= |s| && s[d] == '.' && Digits(s[..d]) && Digits(s[d + 1..i])
    requires Val(s[..d]) <= U128_MAX && i - d - 1 > USDC_DECIMALS
    ensures StrictValue(s, field) == Err(UnsupportedPrecision(field, s, USDC_DECIMALS))
  {
    FractionRuns(s, d, i);
  }

  lemma FormatFault(s: string, field: string, d: nat, i: nat)
    requires d < i < |s| && s[d] == '.' && Digits(s[..d]) && Digits(s[d + 1..i]) && !IsDigit(s[i])
    requires Val(s[..d]) <= U128_MAX && i - d - 1 <= USDC_DECIMALS
    ensures StrictValue(s, field) == Err(InvalidFormat(field, s))
  {
    FractionRuns(s, d, i);
  }

  lemma DigitStep(s: string, a: nat, i: nat)
    requires a <= i < |s| && Digits(s[a..i]) && IsDigit(s[i])
    ensures Digits(s[a..i + 1]) && Val(s[a..i + 1]) == Val(s[a..i]) * 10 + DigitOf(s[i])
  {
    assert s[a..i + 1] == s[a..i] + [s[i]];
    assert s[a..i + 1][..i - a] == s[a..i];
  }

  lemma ScaledAtLeast(whole: nat, fraction: nat, decimals: nat)
    requires decimals <= 6
    ensures Scaled(whole, fraction, decimals) >= whole * 1_000_000 >= whole
  {
  }

  // ---- which texts are accepted, and as what ----

  predicate WellFormed(s: string, w: string, f: string) {
    && Digits(w) && Digits(f) && |f| <= USDC_DECIMALS && (w != [] || f != [])
    && (s == w + "." + f || (f == [] && s == w))
    && DecimalValue(w, f) <= U128_MAX
  }

  lemma StrictAccepts(s: string, field: string, w: string, f: string)
    requires WellFormed(s, w, f)
    ensures StrictValue(s, field) == Ok(DecimalValue(w, f))
  {
    hide Val, ShiftToSix, UnitsOf;
    if s == w + "." + f {
      assert s[..|w|] == w && s[|w| + 1..|s|] == f;
      FractionRuns(s, |w|, |s|);
    } else {
      assert s[..|s|] == w;
      RunAtLeast(s, |s|);
    }
    ScaledAtLeast(Val(w), Val(f), |f|);
  }

  /** The strict parser succeeds exactly on well-formed decimals that fit, with their value. */
  lemma StrictExactly(s: string, field: string, v: nat)
    ensures StrictValue(s, field) == Ok(v) <==>
            exists w, f :: WellFormed(s, w, f) && DecimalValue(w, f) == v
  {
    if StrictValue(s, field) == Ok(v) {
      var r := Read(s);
      assert s[..|s|] == s;
      assert WellFormed(s, r.whole, r.fraction);
    }
    if w, f :| WellFormed(s, w, f) && DecimalValue(w, f) == v {
      StrictAccepts(s, field, w, f);
    }
  }

  /** All three parsers of the system read the same number from a decimal with a whole digit,
      at most six decimals and a value in the u64 range. */
  lemma AllParsersAgree(s: string, field: string, w: string, f: string)
    requires WellFormed(s, w, f) && w != [] && DecimalValue(w, f) <= U64_MAX
    ensures StrictValue(s, field) == Ok(UnitsOf(s))
    ensures ScaledOf(s) == Some(UnitsOf(s))
  {
    StrictAccepts(s, field, w, f);
    ParsersReadDecimals(w, f, s);
  }

  /** They do on nothing else: all three agree exactly on the decimals with a whole digit, at
      most six decimals and a value in the u64 range. */
  lemma AllParsersAgreeExactly(s: string, field: string)
    ensures StrictValue(s, field) == Ok(UnitsOf(s)) && ScaledOf(s) == Some(UnitsOf(s)) <==>
            exists w, f :: WellFormed(s, w, f) && w != [] && DecimalValue(w, f) <= U64_MAX
  {
    hide StrictValue, UnitsOf, ScaledOf, Digits, DecimalValue;
    if StrictValue(s, field) == Ok(UnitsOf(s)) && ScaledOf(s) == Some(UnitsOf(s)) {
      StrictExactly(s, field, UnitsOf(s));
      var w, f :| WellFormed(s, w, f) && DecimalValue(w, f) == UnitsOf(s);
      ScaledBound(s);
      if w == [] {
        assert s == "." + f;
        HotStateRefusesBareFraction(f);
      }
    }
    if w, f :| WellFormed(s, w, f) && w != [] && DecimalValue(w, f) <= U64_MAX {
      AllParsersAgree(s, field, w, f);
    }
  }

  /** Past six decimals the strict parser refuses, and the other two cut. */
  lemma PrecisionIsRefusedOrCut(s: string, field: string, w: string, f: string)
    requires Digits(w) && Digits(f) && s == w + "." + f && |f| > USDC_DECIMALS
    ensures StrictValue(s, field).Err?
    ensures UnitsOf(s) == UnitsOf(w + "." + f[..USDC_DECIMALS])
    ensures ScaledOf(s) == ScaledOf(w + "." + f[..USDC_DECIMALS])
  {
    hide StrictValue, UnitsOf, ScaledOf, Val;
    StrictRefusesPrecision(s, field, w, f);
    LenientCuts(w, f);
    HotStateCuts(w, f);
  }

  lemma StrictRefusesPrecision(s: string, field: string, w: string, f: string)
    requires Digits(w) && Digits(f) && s == w + "." + f && |f| > USDC_DECIMALS
    ensures StrictValue(s, field).Err?
  {
    hide UnitsOf, Val;
    assert s[..|w|] == w && s[|w| + 1..|s|] == f;
    FractionRuns(s, |w|, |s|);
  }

  lemma LenientCuts(w: string, f: string)
    requires Digits(w) && Digits(f) && |f| > USDC_DECIMALS
    ensures UnitsOf(w + "." + f) == UnitsOf(w + "." + f[..USDC_DECIMALS])
  {
    hide ParseU64, Lenient, Whole, Fraction;
    SplitDecimal(w, f);
    SplitDecimal(w, f[..6]);
    assert Six(f) == Six(f[..6]);
  }

  lemma HotStateCuts(w: string, f: string)
    requires Digits(w) && Digits(f) && |f| > USDC_DECIMALS
    ensures ScaledOf(w + "." + f) == ScaledOf(w + "." + f[..USDC_DECIMALS])
  {
    hide ScaledOf, Six, Val;
    if w == [] {
      HotStateRefusesBareFraction(f);
      HotStateRefusesBareFraction(f[..6]);
      assert "" + "." + f == "." + f && "" + "." + f[..6] == "." + f[..6];
    } else {
      SplitsScaled(w, f);
      SplitsScaled(w, f[..6]);
      assert Six(f) == Six(f[..6]) by { CutTwice(f); }
    }
  }

  lemma CutTwice(f: string)
    requires |f| > USDC_DECIMALS
    ensures Six(f) == Six(f[..USDC_DECIMALS])
  {
  }

  lemma SplitsScaled(w: string, f: string)
    requires w != [] && Digits(w) && Digits(f)
    ensures ScaledOf(w + "." + f) == Checked(ParseU64(w), ParseU64(Six(f)))
  {
    hide Six, Val, TrimSpace, Whole, Fraction, HasSecondDot, Checked, ParseU64;
    DecimalParts(w, f, w + "." + f);
  }

  /** Without a whole digit the hot state's parser refuses and the other two read the
      fraction. */
  lemma OnlyHotStateRefusesBareFraction(s: string, field: string, f: string)
    requires Digits(f) && f != [] && |f| <= USDC_DECIMALS && s == "." + f
    ensures ScaledOf(s).None?
    ensures StrictValue(s, field) == Ok(UnitsOf(s))
  {
    hide ScaledOf, UnitsOf, StrictValue, Six, Val, Digits;
    BareFractionParts(f);
    HotStateRefusesBareFraction(f);
    assert UnitsOf(s) == Val(Six(f)) < 1_000_000 by { BareFractionUnits(f); }
    assert StrictValue(s, field) == Ok(Val(Six(f))) by { BareFractionStrict(s, field, f); }
  }

  lemma BareFractionParts(f: string)
    requires Digits(f)
    ensures Whole("." + f) == [] && Fraction("." + f) == f
  {
    SplitDecimal("", f);
    assert "." + f == "" + "." + f;
  }

  lemma BareFractionUnits(f: string)
    requires Digits(f) && f != [] && |f| <= USDC_DECIMALS
    ensures UnitsOf("." + f) == Val(Six(f)) < 1_000_000
  {
    hide Six, Whole, Fraction, Val;
    BareFractionParts(f);
    SixParses(f);
  }

  lemma BareFractionStrict(s: string, field: string, f: string)
    requires Digits(f) && f != [] && |f| <= USDC_DECIMALS && s == "." + f
    ensures StrictValue(s, field) == Ok(Val(Six(f)))
  {
    hide StrictValue, Six, Val, Digits, DecimalValue;
    BareFractionValue(f);
    assert s == "" + "." + f;
    assert WellFormed(s, "", f) by { BareFractionWellFormed(f); }
    StrictAccepts(s, field, "", f);
  }

  lemma BareFractionValue(f: string)
    requires Digits(f) && |f| <= USDC_DECIMALS
    ensures DecimalValue("", f) == Val(Six(f)) < 1_000_000
  {
    hide Six, ShiftToSix;
    SixValue(f);
    SixParses(f);
  }

  lemma BareFractionWellFormed(f: string)
    requires Digits(f) && f != [] && |f| <= USDC_DECIMALS && DecimalValue("", f) < 1_000_000
    ensures WellFormed("." + f, "", f)
  {
    hide Val, DecimalValue;
    assert "." + f == "" + "." + f;
  }

  lemma HotStateRefusesBareFraction(f: string)
    requires Digits(f) && f != []
    ensures ScaledOf("." + f).None?
  {
    hide Six, Whole, Fraction, Val, TrimSpace;
    var s := "." + f;
    BareFractionParts(f);
    assert IsDigit(f[|f| - 1]) && s[|s| - 1] == f[|f| - 1];
    TrimSpaceKeeps(s);
    assert ParseU64([]) == None;
  }

  // ---- maker and taker amounts ----

  function ComputeAmounts(price: string, size: string, side: ClobSide): AmountResult<(nat, nat)> {
    match StrictValue(price, "price")
    case Err(e) => Err(e)
    case Ok(p) =>
      match StrictValue(size, "size")
      case Err(e) => Err(e)
      case Ok(tokens) =>
        if Product(p, tokens) > U128_MAX then
          Err(Overflow("makerAmount", "price=" + price + " size=" + size))
        else
          var usdc := Notional(p, tokens);
          match side
          case Buy => Ok((usdc, tokens))
          case Sell => Ok((tokens, usdc))
  }

  /** Dollars are the floor of price times size, off by less than one base unit. */
  lemma AmountsAreFloored(price: string, size: string, p: nat, t: nat)
    requires StrictValue(price, "price") == Ok(p) && StrictValue(size, "size") == Ok(t)
    ensures ComputeAmounts(price, size, Buy).Ok? <==> p * t <= U128_MAX
    ensures ComputeAmounts(price, size, Buy).Ok? ==>
              var (maker, taker) := ComputeAmounts(price, size, Buy).value;
              taker == t && maker * 1_000_000 <= p * t < (maker + 1) * 1_000_000
  {
    var n := p * t;
    assert n / 1_000_000 * 1_000_000 <= n < (n / 1_000_000 + 1) * 1_000_000;
  }

  /** Buying and selling swap the two amounts and fail on the same inputs in the same way. */
  lemma SidesMirror(price: string, size: string)
    ensures match (ComputeAmounts(price, size, Buy), ComputeAmounts(price, size, Sell))
            case (Ok(b), Ok(s)) => b == (s.1, s.0)
            case (Err(b), Err(s)) => b == s
            case _ => false
  {
  }
}
