/**
 * Decimal strings and smallest-unit integers: the `parseUnits(value, decimals)`
 * that `tryParseAmount` relies on (ethers' parseFixed), and a `FormatUnits`
 * that writes an integer back as a decimal string, as its inverse.
 */
module Units {
  import opened Wrappers

  /** ethers refuses a decimal count above this. */
  const MAX_DECIMALS: nat := 256

  function Pow10(n: nat): (r: nat)
    ensures r >= 1
  {
    if n == 0 then 1 else 10 * Pow10(n - 1)
  }

  lemma {:induction false} Pow10Add(a: nat, b: nat)
    ensures Pow10(a + b) == Pow10(a) * Pow10(b)
  {
    if a > 0 {
      Pow10Add(a - 1, b);
      assert Pow10(a + b) == 10 * Pow10(a - 1 + b);
    }
  }

  predicate IsDigit(c: char) { '0' <= c <= '9' }

  predicate AllDigits(s: string) { forall i :: 0 <= i < |s| ==> IsDigit(s[i]) }

  /** The characters `^-?[0-9.]+$` lets through after the optional sign. */
  predicate IsNumeral(s: string) { forall i :: 0 <= i < |s| ==> IsDigit(s[i]) || s[i] == '.' }

  function DigitValue(c: char): nat
    requires IsDigit(c)
  {
    (c as int - '0' as int) as nat
  }

  function DigitChar(d: nat): (c: char)
    requires d < 10
    ensures IsDigit(c) && DigitValue(c) == d
  {
    ('0' as int + d) as char
  }

  /** The number a string of decimal digits denotes ("" denotes 0). */
  function DigitsValue(s: string): nat
    requires AllDigits(s)
  {
    if s == [] then 0 else 10 * DigitsValue(s[..|s| - 1]) + DigitValue(s[|s| - 1])
  }

  /** The decimal digits of `n`, most significant first, without leading zeros. */
  function NatToDigits(n: nat): (s: string)
    ensures AllDigits(s) && |s| >= 1
  {
    if n < 10 then [DigitChar(n)] else NatToDigits(n / 10) + [DigitChar(n % 10)]
  }

  function Zeros(n: nat): (s: string)
    ensures |s| == n && AllDigits(s)
    ensures forall i :: 0 <= i < n ==> s[i] == '0'
  {
    if n == 0 then "" else Zeros(n - 1) + "0"
  }

  /** `s` preceded by as many zeros as make it `width` long. */
  function LeftPad(s: string, width: nat): (r: string)
    requires AllDigits(s)
    ensures AllDigits(r) && |r| == if |s| < width then width else |s|
  {
    if |s| < width then Zeros(width - |s|) + s else s
  }

  /** ethers' loop that drops the trailing zeros of the fraction. */
  function TrimTrailingZeros(s: string): (r: string)
    ensures |r| <= |s| && r == s[..|r|]
    ensures |r| > 0 ==> r[|r| - 1] != '0'
    ensures forall i :: |r| <= i < |s| ==> s[i] == '0'
  {
    if |s| > 0 && s[|s| - 1] == '0' then TrimTrailingZeros(s[..|s| - 1]) else s
  }

  /** Index of the first '.', or |s| when there is none. */
  function DotIndex(s: string): (k: nat)
    ensures k <= |s|
    ensures forall j :: 0 <= j < k ==> s[j] != '.'
    ensures k < |s| ==> s[k] == '.'
  {
    if s == [] || s[0] == '.' then 0 else 1 + DotIndex(s[1..])
  }

  /**
   * Splits an unsigned numeral at its point into whole part and fraction,
   * both digit strings; None for "", ".", a character other than a digit or
   * '.', or a second point (ethers' "too many decimal points").
   */
  function SplitPoint(body: string): (r: Option<(string, string)>)
    ensures r.Some? ==> AllDigits(r.value.0) && AllDigits(r.value.1)
  {
    if body == [] || !IsNumeral(body) || body == "." then None
    else
      var k := DotIndex(body);
      var fraction := if k < |body| then body[k + 1..] else "";
      if '.' in fraction then None
      else
        assert forall i :: 0 <= i < |fraction| ==> fraction[i] == body[k + 1 + i];
        Some((body[..k], fraction))
  }

  /**
   * The smallest-unit value of `whole.frac` for `decimals` decimals, `frac`
   * already stripped of trailing zeros; None when `frac` is too long.
   */
  function Scale(whole: string, frac: string, decimals: nat): Option<nat>
    requires AllDigits(whole) && AllDigits(frac)
  {
    if |frac| > decimals then None
    else Some(DigitsValue(whole) * Pow10(decimals) + DigitsValue(frac) * Pow10(decimals - |frac|))
  }

  function Negate(r: Option<nat>): Option<int>
  {
    match r
    case None => None
    case Some(v) => Some(-(v as int))
  }

  /**
   * ethers' `parseUnits(value, decimals)`: None where it throws, else the
   * signed smallest-unit integer. The accepted shape is `-?[0-9.]+` with at
   * most one '.', not "." alone, and no more significant fractional digits
   * than `decimals`; an empty whole part or fraction reads as 0.
   */
  function ParseUnits(value: string, decimals: nat): Option<int>
  {
    var negative := |value| > 0 && value[0] == '-';
    var body := if negative then value[1..] else value;
    if decimals > MAX_DECIMALS then None
    else
      match SplitPoint(body)
      case None => None
      case Some((whole, fraction)) =>
        var scaled := Scale(whole, TrimTrailingZeros(fraction), decimals);
        if negative then Negate(scaled) else scaled
  }

  /**
   * Writes a smallest-unit integer as a decimal string with exactly
   * `decimals` fractional digits (the inverse of ParseUnits).
   */
  function FormatUnits(n: nat, decimals: nat): string
  {
    var s := LeftPad(NatToDigits(n), decimals + 1);
    s[..|s| - decimals] + "." + s[|s| - decimals..]
  }

  // ----- digit-string facts -----

  lemma DigitsValueSnoc(s: string, c: char)
    requires AllDigits(s) && IsDigit(c)
    ensures AllDigits(s + [c]) && DigitsValue(s + [c]) == 10 * DigitsValue(s) + DigitValue(c)
  {
    assert (s + [c])[..|s|] == s;
  }

  lemma {:induction false} NatToDigitsValue(n: nat)
    ensures DigitsValue(NatToDigits(n)) == n
  {
    if n >= 10 {
      NatToDigitsValue(n / 10);
      DigitsValueSnoc(NatToDigits(n / 10), DigitChar(n % 10));
    }
  }

  /** A number below 10^w has at most max(1, w) digits. */
  lemma {:induction false} NatToDigitsLength(n: nat, w: nat)
    requires n < Pow10(w)
    ensures |NatToDigits(n)| <= if w == 0 then 1 else w
  {
    if n >= 10 {
      assert w >= 2;
      assert n / 10 < Pow10(w - 1);
      NatToDigitsLength(n / 10, w - 1);
    }
  }

  lemma {:induction false} LeadingZeroValue(s: string)
    requires AllDigits(s)
    ensures AllDigits("0" + s) && DigitsValue("0" + s) == DigitsValue(s)
  {
    if s == [] {
      assert ("0" + s)[..0] == [];
    } else {
      var init := s[..|s| - 1];
      LeadingZeroValue(init);
      var z := "0" + s;
      assert z[..|z| - 1] == "0" + init;
      assert z[|z| - 1] == s[|s| - 1];
    }
  }

  lemma {:induction false} ZerosPrefixValue(n: nat, s: string)
    requires AllDigits(s)
    ensures AllDigits(Zeros(n) + s) && DigitsValue(Zeros(n) + s) == DigitsValue(s)
  {
    if n == 0 {
      assert Zeros(n) + s == s;
    } else {
      assert Zeros(n) + s == Zeros(n - 1) + ("0" + s);
      LeadingZeroValue(s);
      ZerosPrefixValue(n - 1, "0" + s);
    }
  }

  lemma LeftPadValue(s: string, width: nat)
    requires AllDigits(s)
    ensures DigitsValue(LeftPad(s, width)) == DigitsValue(s)
  {
    if |s| < width { ZerosPrefixValue(width - |s|, s); }
  }

  /** Dropping k trailing zeros divides the value by 10^k. */
  lemma {:induction false} TrimValue(s: string)
    requires AllDigits(s)
    ensures AllDigits(TrimTrailingZeros(s))
    ensures DigitsValue(s) == DigitsValue(TrimTrailingZeros(s)) * Pow10(|s| - |TrimTrailingZeros(s)|)
  {
    if |s| > 0 && s[|s| - 1] == '0' {
      var init := s[..|s| - 1];
      TrimValue(init);
      var t := TrimTrailingZeros(init);
      assert TrimTrailingZeros(s) == t;
      var k := |init| - |t|;
      assert DigitsValue(s) == 10 * DigitsValue(init);
      TimesTen(DigitsValue(t), k);
    }
  }

  lemma TimesTen(a: nat, k: nat)
    ensures 10 * (a * Pow10(k)) == a * Pow10(k + 1)
  {
  }

  lemma DotIndexOfJoin(w: string, f: string)
    requires AllDigits(w)
    ensures DotIndex(w + "." + f) == |w|
  {
    var s := w + "." + f;
    assert forall j :: 0 <= j < |w| ==> s[j] == w[j] && s[j] != '.';
    assert s[|w|] == '.';
  }

  /** How SplitPoint cuts a numeral written as `w.f`. */
  lemma SplitPointJoin(w: string, f: string)
    requires AllDigits(w) && AllDigits(f) && |w| + |f| > 0
    ensures SplitPoint(w + "." + f) == Some((w, f))
  {
    var s := w + "." + f;
    DotIndexOfJoin(w, f);
    assert s[..|w|] == w;
    assert s[|w| + 1..] == f;
    assert IsNumeral(s) by {
      assert forall j :: 0 <= j < |s| ==> s[j] == '.' || (j < |w| && s[j] == w[j]) || (j > |w| && s[j] == f[j - |w| - 1]);
    }
    assert s != "." by { assert |s| == |w| + |f| + 1; }
    assert '.' !in f by { assert forall j :: 0 <= j < |f| ==> IsDigit(f[j]); }
  }

  /** How SplitPoint reads a whole number without a point. */
  lemma SplitPointWhole(w: string)
    requires AllDigits(w) && |w| > 0
    ensures SplitPoint(w) == Some((w, ""))
  {
    assert forall j :: 0 <= j < |w| ==> w[j] != '.';
    assert DotIndex(w) == |w|;
    assert w[..|w|] == w;
  }

  // ----- what the parser returns -----

  /** The scaled value of `w.t` with `t` trimmed, cross-multiplied by 10^|f|. */
  lemma ScaleDecimal(w: string, f: string, decimals: nat)
    requires AllDigits(w) && AllDigits(f) && |TrimTrailingZeros(f)| <= decimals
    ensures AllDigits(TrimTrailingZeros(f))
    ensures Scale(w, TrimTrailingZeros(f), decimals).Some?
    ensures Scale(w, TrimTrailingZeros(f), decimals).value * Pow10(|f|)
            == (DigitsValue(w) * Pow10(|f|) + DigitsValue(f)) * Pow10(decimals)
  {
    var t := TrimTrailingZeros(f);
    TrimValue(f);
    var z := |f| - |t|;
    Pow10Add(decimals - |t|, |f|);
    Pow10Add(z, decimals);
    assert (decimals - |t|) + |f| == z + decimals;
    CrossMultiply(DigitsValue(w), DigitsValue(t), Pow10(decimals), Pow10(decimals - |t|), Pow10(|f|), Pow10(z));
  }

  lemma CrossMultiply(W: nat, T: nat, P: nat, Q: nat, F: nat, Z: nat)
    requires Q * F == Z * P
    ensures (W * P + T * Q) * F == (W * F + T * Z) * P
  {
    calc {
      (W * P + T * Q) * F;
      W * P * F + T * (Q * F);
      W * P * F + T * (Z * P);
      (W * F + T * Z) * P;
    }
  }

  /** `raw` smallest units, at `decimals` decimals, are exactly the decimal number w.f. */
  predicate Denotes(raw: int, w: string, f: string, decimals: nat)
    requires AllDigits(w) && AllDigits(f)
  {
    raw * Pow10(|f|) == (DigitsValue(w) * Pow10(|f|) + DigitsValue(f)) * Pow10(decimals)
  }

  /**
   * A numeral `w.f` with no more significant fractional digits than
   * `decimals` parses to its value times 10^decimals: r / 10^decimals is the
   * decimal number w.f exactly (stated without division).
   */
  lemma ParseUnitsDecimal(w: string, f: string, decimals: nat)
    requires AllDigits(w) && AllDigits(f) && |w| + |f| > 0
    requires decimals <= MAX_DECIMALS && |TrimTrailingZeros(f)| <= decimals
    ensures ParseUnits(w + "." + f, decimals).Some?
    ensures Denotes(ParseUnits(w + "." + f, decimals).value, w, f, decimals)
  {
    SplitPointJoin(w, f);
    ScaleDecimal(w, f, decimals);
    assert (w + "." + f)[0] != '-' by {
      if |w| > 0 { assert (w + "." + f)[0] == w[0]; }
    }
  }

  /** A whole number without a point parses to itself times 10^decimals. */
  lemma ParseUnitsWhole(w: string, decimals: nat)
    requires AllDigits(w) && |w| > 0 && decimals <= MAX_DECIMALS
    ensures ParseUnits(w, decimals) == Some(DigitsValue(w) * Pow10(decimals))
  {
    SplitPointWhole(w);
    assert w[0] != '-';
    assert TrimTrailingZeros("") == "";
  }

  /** More significant fractional digits than `decimals` is refused. */
  lemma ParseUnitsOverPrecise(w: string, f: string, decimals: nat)
    requires AllDigits(w) && AllDigits(f)
    requires |TrimTrailingZeros(f)| > decimals
    ensures ParseUnits(w + "." + f, decimals).None?
  {
    assert |f| > 0;
    SplitPointJoin(w, f);
    assert (w + "." + f)[0] != '-' by {
      if |w| > 0 { assert (w + "." + f)[0] == w[0]; }
    }
  }

  /** After the one optional leading '-', a second sign, letters, exponents and other characters are refused. */
  lemma ParseUnitsNotNumeral(value: string, decimals: nat)
    requires |value| > 0 && !IsNumeral(if value[0] == '-' then value[1..] else value)
    ensures ParseUnits(value, decimals).None?
  {
  }

  /** A leading '-' negates the value of what follows. */
  lemma ParseUnitsNegative(body: string, decimals: nat)
    requires |body| > 0 && body[0] != '-'
    ensures ParseUnits("-" + body, decimals) == Negate(ParseUnits(body, decimals))
  {
    assert ("-" + body)[1..] == body;
  }

  lemma {:induction false} DigitsValueAppend(a: string, b: string)
    requires AllDigits(a) && AllDigits(b)
    ensures AllDigits(a + b) && DigitsValue(a + b) == DigitsValue(a) * Pow10(|b|) + DigitsValue(b)
  {
    if b == [] {
      assert a + b == a;
    } else {
      var init := b[..|b| - 1];
      var c := b[|b| - 1];
      assert b == init + [c];
      DigitsValueAppend(a, init);
      assert a + b == (a + init) + [c];
      DigitsValueSnoc(a + init, c);
      DigitsValueSnoc(init, c);
      TimesTen(DigitsValue(a), |init|);
    }
  }

  /** Round trip: formatting then parsing gives back the same integer. */
  lemma FormatParseRoundTrip(n: nat, decimals: nat)
    requires decimals <= MAX_DECIMALS
    ensures ParseUnits(FormatUnits(n, decimals), decimals) == Some(n)
  {
    var s := LeftPad(NatToDigits(n), decimals + 1);
    var w, f := s[..|s| - decimals], s[|s| - decimals..];
    assert FormatUnits(n, decimals) == w + "." + f;
    assert w + f == s;
    NatToDigitsValue(n);
    LeftPadValue(NatToDigits(n), decimals + 1);
    DigitsValueAppend(w, f);
    ParseUnitsDecimal(w, f, decimals);
    var v := ParseUnits(w + "." + f, decimals).value;
    CancelRight(v, n, Pow10(decimals));
  }

  lemma CancelRight(v: int, n: int, p: nat)
    requires p >= 1 && v * p == n * p
    ensures v == n
  {
    assert (v - n) * p == 0;
  }
}
