/** Fixed-point amounts with six decimals: the lenient and the optional parser, and the
    printers, of the order manager, the strategy runtime and the hot state. */
module Units {
  import opened Text
  import opened Words

  // ---- decimal digits ----

  predicate IsDigit(c: char) {
    '0' <= c <= '9'
  }

  predicate Digits(s: string) {
    forall i | 0 <= i < |s| :: IsDigit(s[i])
  }

  function DigitOf(c: char): (d: nat)
    requires IsDigit(c)
    ensures d < 10
  {
    c as int - '0' as int
  }

  function DigitChar(d: nat): (c: char)
    requires d < 10
    ensures IsDigit(c) && DigitOf(c) == d
  {
    '0' + d as char
  }

  function Val(s: string): nat
    requires Digits(s)
  {
    if s == [] then 0 else Val(s[..|s| - 1]) * 10 + DigitOf(s[|s| - 1])
  }

  function Pow10(n: nat): (p: nat)
    ensures p >= 1
  {
    if n == 0 then 1 else 10 * Pow10(n - 1)
  }

  /** Printing a number. */
  function Show(n: nat): (s: string)
    ensures s != [] && Digits(s)
  {
    if n < 10 then [DigitChar(n)] else Show(n / 10) + [DigitChar(n % 10)]
  }

  function ZeroPad(s: string, width: nat): (r: string)
    ensures |r| == (if |s| < width then width else |s|)
    ensures Digits(s) ==> Digits(r)
    decreases width - |s|
  {
    if |s| < width then ZeroPad("0" + s, width) else s
  }

  lemma {:induction false} ValShow(n: nat)
    ensures Val(Show(n)) == n
  {
    if n >= 10 {
      ValShow(n / 10);
      assert Show(n)[..|Show(n)| - 1] == Show(n / 10);
    }
  }

  lemma {:induction false} ShowWidth(n: nat, w: nat)
    requires 1 <= w && n < Pow10(w)
    ensures |Show(n)| <= w
  {
    if n >= 10 { ShowWidth(n / 10, w - 1); }
  }

  lemma {:induction false} ValLeadingZero(s: string)
    requires Digits(s)
    ensures Digits("0" + s) && Val("0" + s) == Val(s)
  {
    if s == [] {
      assert ("0" + s)[..0] == [];
    } else {
      ValLeadingZero(s[..|s| - 1]);
      assert ("0" + s)[..|s|] == "0" + s[..|s| - 1];
    }
  }

  lemma {:induction false} ValZeroPad(s: string, width: nat)
    requires Digits(s)
    ensures Val(ZeroPad(s, width)) == Val(s)
    decreases width - |s|
  {
    if |s| < width {
      ValLeadingZero(s);
      ValZeroPad("0" + s, width);
    }
  }

  lemma {:induction false} ValBound(s: string)
    requires Digits(s)
    ensures Val(s) < Pow10(|s|)
  {
    if s != [] { ValBound(s[..|s| - 1]); }
  }

  lemma Pow10Six()
    ensures Pow10(6) == 1_000_000
  {
    assert Pow10(3) == 1000;
  }

  // ---- splitting at dots ----

  function Dot(s: string): (k: nat)
    ensures k <= |s|
    ensures '.' !in s[..k]
    ensures k < |s| ==> s[k] == '.'
  {
    if s == [] || s[0] == '.' then 0 else 1 + Dot(s[1..])
  }

  function Whole(s: string): string {
    s[..Dot(s)]
  }

  function AfterDot(s: string): string {
    if Dot(s) < |s| then s[Dot(s) + 1..] else []
  }

  function Fraction(s: string): string {
    Whole(AfterDot(s))
  }

  predicate HasSecondDot(s: string) {
    '.' in AfterDot(s)
  }

  lemma {:induction false} DotAt(s: string, k: nat)
    requires k <= |s| && '.' !in s[..k] && (k < |s| ==> s[k] == '.')
    ensures Dot(s) == k
  {
    if k > 0 {
      assert s[0] == s[..k][0];
      assert s[1..][..k - 1] == s[..k][1..];
      DotAt(s[1..], k - 1);
    }
  }

  lemma DigitsHaveNoDot(s: string)
    requires Digits(s)
    ensures '.' !in s
  {
  }

  /** The two parts of a number written with or without a fraction. */
  lemma SplitDecimal(w: string, f: string)
    requires Digits(w) && Digits(f)
    ensures Whole(w + "." + f) == w && Fraction(w + "." + f) == f && !HasSecondDot(w + "." + f)
    ensures Whole(w) == w && Fraction(w) == [] && !HasSecondDot(w)
  {
    DigitsHaveNoDot(w);
    DigitsHaveNoDot(f);
    var s := w + "." + f;
    assert s[..|w|] == w;
    DotAt(s, |w|);
    assert AfterDot(s) == f;
    assert f[..|f|] == f;
    DotAt(f, |f|);
    assert w[..|w|] == w;
    DotAt(w, |w|);
    assert Dot([]) == 0;
  }

  // ---- the parsers ----

  /** `str::parse::<u64>`: an optional plus sign, then at least one digit, no overflow. */
  function ParseU64(s: string): Option<nat> {
    var body := if |s| > 1 && s[0] == '+' then s[1..] else s;
    if body != [] && Digits(body) && Val(body) <= U64_MAX then Some(Val(body)) else None
  }

  lemma ParseDigits(s: string)
    requires s != [] && Digits(s)
    ensures ParseU64(s) == if Val(s) <= U64_MAX then Some(Val(s)) else None
  {
  }

  /** The fraction cut or padded to six characters. */
  function Six(f: string): (r: string)
    ensures |r| == 6
    ensures Digits(f) ==> Digits(r)
    decreases 6 - |f|
  {
    if |f| >= 6 then f[..6] else Six(f + "0")
  }

  /** The value of the lenient parser: unreadable parts count as zero and too large ones
      saturate. */
  function UnitsOf(s: string): nat {
    Lenient(ParseU64(Whole(s)), ParseU64(Six(Fraction(s))))
  }

  function Lenient(whole: Option<nat>, fraction: Option<nat>): nat {
    SaturatingAdd(Saturate(whole.GetOr(0) * 1_000_000), fraction.GetOr(0))
  }

  function Product(a: nat, b: nat): nat {
    a * b
  }

  /** A price times a size, both in units, back in units. */
  function Notional(price: nat, size: nat): nat {
    Product(price, size) / 1_000_000
  }

  predicate IsSpace(c: char) {
    || '\U{9}' <= c <= '\U{D}' || c == ' ' || c == '\U{85}' || c == '\U{A0}' || c == '\U{1680}'
    || '\U{2000}' <= c <= '\U{200A}' || c == '\U{2028}' || c == '\U{2029}' || c == '\U{202F}'
    || c == '\U{205F}' || c == '\U{3000}'
  }

  function TrimSpace(s: string): string {
    if s == [] then []
    else if IsSpace(s[0]) then TrimSpace(s[1..])
    else if IsSpace(s[|s| - 1]) then TrimSpace(s[..|s| - 1])
    else s
  }

  /** The value of the hot state's parser: nothing when the text is unreadable, negative or
      too large; digits past the sixth decimal are cut. */
  function ScaledOf(text: string): Option<nat> {
    var s := TrimSpace(text);
    if s == [] || s[0] == '-' || HasSecondDot(s) then None
    else Checked(ParseU64(Whole(s)), ParseU64(Six(Fraction(s))))
  }

  function Checked(whole: Option<nat>, fraction: Option<nat>): Option<nat> {
    if whole.None? || fraction.None? then None
    else if whole.value * 1_000_000 + fraction.value > U64_MAX then None
    else Some(whole.value * 1_000_000 + fraction.value)
  }

  /** The padding loop shared by the parsers. */
  method PadToSix(f: string) returns (r: string)
    ensures r == Six(f)
  {
    r := if |f| > 6 then f[..6] else f;
    while |r| < 6
      invariant |r| <= 6
      invariant Six(r) == Six(f)
      decreases 6 - |r|
    {
      r := r + "0";
    }
    assert r[..6] == r;
  }

  /** Both lenient parsers (order manager and strategy runtime). */
  method ParseUnits(s: string) returns (u: nat)
    ensures u == UnitsOf(s)
  {
    var whole := ParseU64(Whole(s));
    var padded := PadToSix(Fraction(s));
    u := Lenient(whole, ParseU64(padded));
  }

  method ParseScaled(text: string) returns (r: Option<nat>)
    ensures r == ScaledOf(text)
  {
    var s := TrimSpace(text);
    if s == [] || s[0] == '-' { return None; }
    var whole := ParseU64(Whole(s));
    if whole.None? || HasSecondDot(s) { return None; }
    var padded := PadToSix(Fraction(s));
    r := Checked(whole, ParseU64(padded));
  }

  lemma ScaledBound(text: string)
    ensures ScaledOf(text).Some? ==> ScaledOf(text).value <= U64_MAX
  {
    hide Six, TrimSpace, ParseU64, HasSecondDot;
  }

  // ---- the printers ----

  function FormatUnits(u: nat): string {
    Show(u / 1_000_000) + "." + ZeroPad(Show(u % 1_000_000), 6)
  }

  function TrimEnd(s: string, c: char): (r: string)
    ensures r <= s
    ensures r == [] || r[|r| - 1] != c
  {
    if s != [] && s[|s| - 1] == c then TrimEnd(s[..|s| - 1], c) else s
  }

  function FormatUnitsTrimmed(u: nat): string {
    var trimmed := TrimEnd(TrimEnd(FormatUnits(u), '0'), '.');
    if trimmed == [] then "0" else trimmed
  }

  function ScaledText(u: nat): string {
    if u % 1_000_000 == 0 then Show(u / 1_000_000) else TrimEnd(FormatUnits(u), '0')
  }

  /** The hot state's printer pops trailing zeros one by one. */
  method FormatScaled(u: nat) returns (s: string)
    ensures s == ScaledText(u)
  {
    if u % 1_000_000 == 0 { return Show(u / 1_000_000); }
    s := FormatUnits(u);
    while s != [] && s[|s| - 1] == '0'
      invariant TrimEnd(s, '0') == TrimEnd(FormatUnits(u), '0')
      decreases |s|
    {
      s := s[..|s| - 1];
    }
  }

  // ---- reading back what was printed ----

  /** Every parser reads `w.f`, or `w` alone, as the scaled number it denotes. */
  function DecimalValue(w: string, f: string): nat
    requires Digits(w) && Digits(f) && |f| <= 6
  {
    Scaled(Val(w), Val(f), |f|)
  }

  function Scaled(whole: nat, fraction: nat, decimals: nat): nat
    requires decimals <= 6
  {
    whole * 1_000_000 + ShiftToSix(fraction, decimals)
  }

  /** A fraction of so many decimals, counted in millionths. */
  function ShiftToSix(fraction: nat, decimals: nat): (r: nat)
    ensures r >= fraction
    decreases 6 - decimals
  {
    if decimals >= 6 then fraction else ShiftToSix(fraction * 10, decimals + 1)
  }

  lemma {:induction false} SixValue(f: string)
    requires Digits(f) && |f| <= 6
    ensures Val(Six(f)) == ShiftToSix(Val(f), |f|)
    decreases 6 - |f|
  {
    if |f| < 6 {
      assert (f + "0")[..|f|] == f;
      SixValue(f + "0");
    } else {
      assert f[..6] == f;
    }
  }

  lemma SixParses(f: string)
    requires Digits(f)
    ensures Val(Six(f)) < 1_000_000
    ensures ParseU64(Six(f)) == Some(Val(Six(f)))
  {
    ValBound(Six(f));
    Pow10Six();
    ParseDigits(Six(f));
  }

  lemma {:induction false} TrimSpaceKeeps(s: string)
    requires s == [] || (!IsSpace(s[0]) && !IsSpace(s[|s| - 1]))
    ensures TrimSpace(s) == s
  {
  }

  lemma DecimalParts(w: string, f: string, s: string)
    requires w != [] && Digits(w) && Digits(f)
    requires s == w + "." + f || (f == [] && s == w)
    ensures Whole(s) == w && Fraction(s) == f && !HasSecondDot(s)
    ensures TrimSpace(s) == s && s != [] && s[0] != '-'
  {
    SplitDecimal(w, f);
    assert s[0] == w[0] && IsDigit(w[0]);
    assert s[|s| - 1] == '.' || IsDigit(s[|s| - 1]);
    TrimSpaceKeeps(s);
  }

  lemma NumbersFit(whole: nat, fraction: nat)
    requires whole * 1_000_000 + fraction <= U64_MAX
    ensures Lenient(Some(whole), Some(fraction)) == whole * 1_000_000 + fraction
    ensures Checked(Some(whole), Some(fraction)) == Some(whole * 1_000_000 + fraction)
  {
  }

  /** The lenient and the optional parser agree on every plain decimal of at most six
      decimals whose value fits, and read its exact value. */
  lemma ParsersReadDecimals(w: string, f: string, s: string)
    requires w != [] && Digits(w) && Digits(f) && |f| <= 6
    requires s == w + "." + f || (f == [] && s == w)
    requires DecimalValue(w, f) <= U64_MAX
    ensures UnitsOf(s) == DecimalValue(w, f)
    ensures ScaledOf(s) == Some(DecimalValue(w, f))
  {
    hide Six, ParseU64, Whole, Fraction, TrimSpace, HasSecondDot, Lenient, Checked, Val, ShiftToSix;
    var v, whole, fraction := DecimalValue(w, f), Val(w), Val(Six(f));
    assert v == whole * 1_000_000 + fraction by { SixValue(f); }
    DecimalParts(w, f, s);
    assert ParseU64(w) == Some(whole) by { ParseDigits(w); }
    assert ParseU64(Six(f)) == Some(fraction) by { SixParses(f); }
    NumbersFit(whole, fraction);
  }

  lemma PaddedFraction(u: nat)
    ensures var p := ZeroPad(Show(u % 1_000_000), 6);
            |p| == 6 && Digits(p) && Val(p) == u % 1_000_000
  {
    Pow10Six();
    ShowWidth(u % 1_000_000, 6);
    ValShow(u % 1_000_000);
    ValZeroPad(Show(u % 1_000_000), 6);
  }

  /** What the lenient parser makes of a printed amount of any size: exact up to the u64
      range, saturated above it, and stripped of its whole part once that part itself no
      longer fits. */
  lemma ParseOfFormat(u: nat)
    ensures UnitsOf(FormatUnits(u)) == if u / 1_000_000 <= U64_MAX then Saturate(u) else u % 1_000_000
  {
    var w, p := Show(u / 1_000_000), ZeroPad(Show(u % 1_000_000), 6);
    PaddedFraction(u);
    ValShow(u / 1_000_000);
    SplitDecimal(w, p);
    SixParses(p);
    ParseDigits(w);
    assert p[..6] == p;
  }

  /** Printing then parsing is the identity exactly on the u64 range. */
  lemma UnitsRoundTrip(u: nat)
    ensures UnitsOf(FormatUnits(u)) == u <==> u <= U64_MAX
  {
    ParseOfFormat(u);
  }

  lemma {:induction false} TrimEndAppend(a: string, b: string, c: char)
    requires TrimEnd(b, c) != [] || (a != [] && a[|a| - 1] != c)
    ensures TrimEnd(a + b, c) == a + TrimEnd(b, c)
  {
    if b == [] {
      assert a + b == a;
    } else if b[|b| - 1] == c {
      var b' := b[..|b| - 1];
      TrimEndAppend(a, b', c);
      assert (a + b)[..|a + b| - 1] == a + b';
    }
  }

  /** A fraction stripped of its trailing zeros has the same value once padded again. */
  lemma {:induction false} TrimmedFraction(p: string)
    requires |p| <= 6 && Digits(p)
    ensures Digits(TrimEnd(p, '0')) && Six(TrimEnd(p, '0')) == Six(p)
    ensures TrimEnd(p, '0') == [] <==> Val(p) == 0
  {
    if p != [] {
      var p' := p[..|p| - 1];
      if p[|p| - 1] == '0' {
        TrimmedFraction(p');
        assert p == p' + "0";
      }
    }
  }

  /** The shapes of the two trimming printers: they print the same text. */
  lemma TrimmedShape(u: nat)
    ensures var w, t := Show(u / 1_000_000), TrimEnd(ZeroPad(Show(u % 1_000_000), 6), '0');
            && ScaledText(u) == (if t == [] then w else w + "." + t)
            && FormatUnitsTrimmed(u) == ScaledText(u)
  {
    var w, p := Show(u / 1_000_000), ZeroPad(Show(u % 1_000_000), 6);
    PaddedFraction(u);
    TrimmedFraction(p);
    var t := TrimEnd(p, '0');
    TrimEndAppend(w + ".", p, '0');
    assert w + "." + p == (w + ".") + p;
    if t == [] {
      assert (w + ".") + t == w + ".";
      assert IsDigit(w[|w| - 1]);
      assert TrimEnd(".", '.') == [] by { assert "."[..0] == []; }
      TrimEndAppend(w, ".", '.');
      assert w + [] == w;
    } else {
      var s := w + "." + t;
      assert s[|s| - 1] == t[|t| - 1] && IsDigit(t[|t| - 1]);
    }
  }

  /** Printing with trailing zeros removed, then parsing with either parser, is the identity
      on every u64 amount. */
  lemma TrimmedRoundTrip(u: nat)
    requires u <= U64_MAX
    ensures UnitsOf(FormatUnitsTrimmed(u)) == u
    ensures ScaledOf(ScaledText(u)) == Some(u)
  {
    var w, p := Show(u / 1_000_000), ZeroPad(Show(u % 1_000_000), 6);
    var t := TrimEnd(p, '0');
    TrimmedShape(u);
    PaddedFraction(u);
    TrimmedFraction(p);
    ValShow(u / 1_000_000);
    assert p[..6] == p;
    SixValue(t);
    ParsersReadDecimals(w, t, ScaledText(u));
  }
}
