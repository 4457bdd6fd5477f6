/** A decimal lexer standing in for Go's strconv.ParseFloat as the rule
    evaluator calls it: an optional sign, decimal digits with an optional
    fractional part, and an optional exponent. Numbers are exact reals, so
    there is no rounding, no overflow and no infinity or NaN. */
module ParseFloat {
  import opened Wrappers

  predicate IsDigit(c: char) {
    '0' <= c <= '9'
  }

  /** Every character a successfully parsed number can contain. */
  predicate IsNumberChar(c: char) {
    IsDigit(c) || c == '+' || c == '-' || c == '.' || c == 'e' || c == 'E'
  }

  predicate AllDigits(s: string) {
    forall i :: 0 <= i < |s| ==> IsDigit(s[i])
  }

  function DigitValue(c: char): nat
    requires IsDigit(c)
  {
    (c as int) - ('0' as int)
  }

  /** The value of a string of decimal digits, most significant first. */
  function DigitsValue(s: string): nat
    requires AllDigits(s)
    decreases |s|
  {
    if s == [] then 0 else 10 * DigitsValue(s[..|s| - 1]) + DigitValue(s[|s| - 1])
  }

  function Pow10(n: nat): (p: nat)
    ensures p >= 1
  {
    if n == 0 then 1 else 10 * Pow10(n - 1)
  }

  function Min(a: nat, b: nat): nat {
    if a <= b then a else b
  }

  /** The index of the first `c` in `s`, or |s| when there is none. */
  function IndexOf(s: string, c: char): (k: nat)
    ensures k <= |s|
    ensures k < |s| ==> s[k] == c
    ensures forall j :: 0 <= j < k ==> s[j] != c
  {
    if s == [] then 0 else if s[0] == c then 0 else 1 + IndexOf(s[1..], c)
  }

  /** `digits [ "." digits ]` with at least one digit overall
      ("7", "7.", ".5" and "7.25" are accepted, "." is not). */
  function ParseMantissa(m: string): (r: Option<real>)
    ensures r.Some? ==> forall i :: 0 <= i < |m| ==> IsDigit(m[i]) || m[i] == '.'
  {
    var d := IndexOf(m, '.');
    var whole := m[..d];
    var frac := if d < |m| then m[d + 1..] else [];
    if AllDigits(whole) && AllDigits(frac) && |whole| + |frac| > 0 then
      assert forall i :: d < i < |m| ==> m[i] == frac[i - d - 1];
      Some(DigitsValue(whole) as real + Fraction(frac))
    else
      None
  }

  /** The value of the digits after a decimal point, a tenth per place:
      0.d1d2... = (d1 + 0.d2...) / 10. */
  function Fraction(frac: string): real
    requires AllDigits(frac)
    decreases |frac|
  {
    if frac == [] then 0.0 else (DigitValue(frac[0]) as real + Fraction(frac[1..])) / 10.0
  }

  /** `[ "+" | "-" ] digits`, the part after the exponent mark. */
  function ParseExponent(e: string): (r: Option<int>)
    ensures r.Some? ==> forall i :: 0 <= i < |e| ==> IsNumberChar(e[i])
  {
    var signed := |e| > 0 && (e[0] == '+' || e[0] == '-');
    var digits := if signed then e[1..] else e;
    if |digits| > 0 && AllDigits(digits) then
      assert signed ==> forall i :: 0 < i < |e| ==> e[i] == digits[i - 1];
      Some(if signed && e[0] == '-' then -(DigitsValue(digits) as int) else DigitsValue(digits))
    else
      None
  }

  /** x * 10^e for an integer exponent e, one power of ten at a time. */
  function Scale(x: real, e: int): real
    decreases if e >= 0 then e else -e
  {
    if e == 0 then x else if e > 0 then Scale(x * 10.0, e - 1) else Scale(x / 10.0, e + 1)
  }

  /** A number without its leading sign: mantissa, then optionally `e` or
      `E` and an exponent. */
  function ParseUnsigned(s: string): (r: Option<real>)
    ensures r.Some? ==> forall i :: 0 <= i < |s| ==> IsNumberChar(s[i])
  {
    var k := Min(IndexOf(s, 'e'), IndexOf(s, 'E'));
    var m := ParseMantissa(s[..k]);
    if m.None? then None
    else if k == |s| then
      assert s[..k] == s;
      m
    else
      match ParseExponent(s[k + 1..])
      case None => None
      case Some(e) =>
        assert forall i :: 0 <= i < |s| ==> i < k || i == k || s[i] == s[k + 1..][i - k - 1];
        assert forall i :: 0 <= i < k ==> s[i] == s[..k][i];
        Some(Scale(m.value, e))
  }

  /** The model of strconv.ParseFloat(s, 64): Some(x) for a well-formed
      decimal literal, None where Go reports a syntax error. */
  function ParseNum(s: string): (r: Option<real>)
    ensures |s| == 0 ==> r.None?
    ensures r.Some? ==> forall i :: 0 <= i < |s| ==> IsNumberChar(s[i])
  {
    if |s| > 0 && (s[0] == '+' || s[0] == '-') then
      match ParseUnsigned(s[1..])
      case None => None
      case Some(x) =>
        assert forall i :: 0 < i < |s| ==> s[i] == s[1..][i - 1];
        Some(if s[0] == '-' then -x else x)
    else
      ParseUnsigned(s)
  }

  /** The decimal rendering of a natural number, most significant digit first. */
  function NatText(n: nat): (s: string)
    ensures |s| > 0 && AllDigits(s)
  {
    if n < 10 then [('0' as int + n) as char]
    else NatText(n / 10) + [('0' as int + n % 10) as char]
  }

  lemma {:induction false} NatTextValue(n: nat)
    ensures DigitsValue(NatText(n)) == n
  {
    if n >= 10 {
      var s := NatText(n);
      assert s[..|s| - 1] == NatText(n / 10);
      NatTextValue(n / 10);
    }
  }

  /** The two sides of `a`, `c`, `b` cut at `c`. */
  lemma Sides(a: string, c: char, b: string)
    ensures (a + [c] + b)[..|a|] == a && (a + [c] + b)[|a| + 1..] == b
  {
  }

  /** The first `c` of `w + [c] + rest` is the one after `w` when `w` has none. */
  lemma IndexOfFirst(w: string, c: char, rest: string)
    requires c !in w
    ensures IndexOf(w + [c] + rest, c) == |w|
  {
    var s := w + [c] + rest;
    assert s[|w|] == c;
    assert forall j :: 0 <= j < |w| ==> s[j] == w[j];
  }

  lemma NoMarkInDigits(s: string, c: char)
    requires AllDigits(s) && !IsDigit(c)
    ensures IndexOf(s, c) == |s|
  {
  }

  /** A plain digit string reads as its natural-number value. */
  lemma ParseDigits(s: string)
    requires AllDigits(s) && |s| > 0
    ensures ParseUnsigned(s) == Some(DigitsValue(s) as real)
    ensures ParseNum(s) == Some(DigitsValue(s) as real)
  {
    MantissaDigits(s);
    NoMarkInDigits(s, 'e');
    NoMarkInDigits(s, 'E');
    assert Min(IndexOf(s, 'e'), IndexOf(s, 'E')) == |s|;
    assert s[..|s|] == s;
  }

  lemma MantissaDigits(s: string)
    requires AllDigits(s) && |s| > 0
    ensures ParseMantissa(s) == Some(DigitsValue(s) as real)
  {
    NoMarkInDigits(s, '.');
    assert s[..|s|] == s;
  }

  /** Round trip: the lexer reads back every rendered natural number, with
      or without a sign. */
  lemma ParseNatText(n: nat)
    ensures ParseNum(NatText(n)) == Some(n as real)
    ensures ParseNum("-" + NatText(n)) == Some(-(n as real))
    ensures ParseNum("+" + NatText(n)) == Some(n as real)
  {
    var s := NatText(n);
    NatTextValue(n);
    ParseDigits(s);
    assert ("-" + s)[1..] == s;
    assert ("+" + s)[1..] == s;
  }

  /** `whole.frac` reads as the whole part plus the value of the fraction
      digits. */
  lemma ParseDecimal(whole: nat, frac: string)
    requires AllDigits(frac) && |frac| > 0
    ensures ParseNum(NatText(whole) + "." + frac)
         == Some(whole as real + Fraction(frac))
  {
    NatTextValue(whole);
    DecimalText(NatText(whole), frac);
  }

  lemma DecimalText(w: string, frac: string)
    requires AllDigits(w) && |w| > 0 && AllDigits(frac)
    ensures ParseNum(w + "." + frac) == Some(DigitsValue(w) as real + Fraction(frac))
  {
    var s := w + "." + frac;
    MantissaDecimal(w, frac);
    assert s[0] == w[0];
    MantissaOnly(s);
  }

  lemma MantissaDecimal(w: string, frac: string)
    requires AllDigits(w) && |w| > 0 && AllDigits(frac)
    ensures ParseMantissa(w + "." + frac) == Some(DigitsValue(w) as real + Fraction(frac))
  {
    var s := w + "." + frac;
    IndexOfFirst(w, '.', frac);
    Sides(w, '.', frac);
  }

  /** A mantissa that starts with a digit is read by the mantissa rule
      alone. */
  lemma MantissaOnly(s: string)
    requires |s| > 0 && IsDigit(s[0]) && ParseMantissa(s).Some?
    ensures ParseNum(s) == ParseMantissa(s)
  {
    NoExponentMark(s);
    assert s[..|s|] == s;
  }

  lemma NoExponentMark(s: string)
    requires forall j :: 0 <= j < |s| ==> IsDigit(s[j]) || s[j] == '.'
    ensures IndexOf(s, 'e') == |s| && IndexOf(s, 'E') == |s|
  {
  }

  /** Scaling by a non-negative exponent multiplies by that power of ten. */
  lemma {:induction false} ScaleUp(x: real, k: nat)
    ensures Scale(x, k) == x * Pow10(k) as real
    decreases k
  {
    if k > 0 {
      ScaleUp(x * 10.0, k - 1);
      assert (x * 10.0) * Pow10(k - 1) as real == x * (10 * Pow10(k - 1)) as real;
    }
  }

  /** Scaling by a negative exponent divides by that power of ten. */
  lemma {:induction false} ScaleDown(x: real, k: nat)
    ensures Scale(x, -(k as int)) == x / Pow10(k) as real
    decreases k
  {
    if k > 0 {
      ScaleDown(x / 10.0, k - 1);
      var p := Pow10(k - 1) as real;
      assert (x / 10.0) / p == x / (10.0 * p);
    }
  }

  /** The exponent text after the mark: digits, or `-` and digits. */
  lemma PlainExponent(d: string)
    requires AllDigits(d) && |d| > 0
    ensures ParseExponent(d) == Some(DigitsValue(d) as int)
  {
    assert d[0] != '+' && d[0] != '-';
  }

  lemma NegativeExponent(e: string, d: string)
    requires AllDigits(d) && |d| > 0 && e == "-" + d
    ensures ParseExponent(e) == Some(-(DigitsValue(d) as int))
  {
    assert e[0] == '-' && e[1..] == d;
  }

  /** In `w e ex` the exponent mark is the character after the digits. */
  lemma ExponentMark(w: string, ex: string)
    requires AllDigits(w) && 'E' !in ex
    ensures Min(IndexOf(w + "e" + ex, 'e'), IndexOf(w + "e" + ex, 'E')) == |w|
  {
    var s := w + "e" + ex;
    NoMarkInDigits(w, 'e');
    IndexOfFirst(w, 'e', ex);
    assert 'E' !in s;
  }

  lemma UnsignedExponent(w: string, ex: string, e: int)
    requires AllDigits(w) && |w| > 0
    requires ParseExponent(ex) == Some(e) && 'E' !in ex
    ensures ParseUnsigned(w + "e" + ex) == Some(Scale(DigitsValue(w) as real, e))
  {
    ExponentMark(w, ex);
    Sides(w, 'e', ex);
    MantissaDigits(w);
  }

  /** `w`, `e` and an exponent text read as the mantissa scaled by the
      exponent. */
  lemma ExponentParts(w: string, ex: string, e: int)
    requires AllDigits(w) && |w| > 0
    requires ParseExponent(ex) == Some(e) && 'E' !in ex
    ensures ParseNum(w + "e" + ex) == Some(Scale(DigitsValue(w) as real, e))
  {
    UnsignedExponent(w, ex, e);
    assert (w + "e" + ex)[0] == w[0];
  }

  /** Digits `w`, `e` and digits `d` read as the value of `w` scaled by the
      value of `d`. */
  lemma ExponentScaled(w: string, d: string, m: nat, k: nat)
    requires AllDigits(w) && |w| > 0 && AllDigits(d) && |d| > 0
    requires DigitsValue(w) == m && DigitsValue(d) == k
    ensures ParseNum(w + "e" + d) == Some(Scale(m as real, k))
  {
    PlainExponent(d);
    ExponentParts(w, d, k);
  }

  lemma NegativeExponentScaled(w: string, d: string, m: nat, k: nat)
    requires AllDigits(w) && |w| > 0 && AllDigits(d) && |d| > 0
    requires DigitsValue(w) == m && DigitsValue(d) == k
    ensures ParseNum(w + "e-" + d) == Some(Scale(m as real, -(k as int)))
  {
    NegativeExponent("-" + d, d);
    ExponentParts(w, "-" + d, -(k as int));
    SignAfterMark(w, d);
  }

  lemma SignAfterMark(w: string, d: string)
    ensures w + "e-" + d == w + "e" + ("-" + d)
  {
  }

  lemma ScaledUpRead(s: string, m: nat, k: nat)
    requires ParseNum(s) == Some(Scale(m as real, k))
    ensures ParseNum(s) == Some(m as real * Pow10(k) as real)
  {
    ScaleUp(m as real, k);
  }

  lemma ScaledDownRead(s: string, m: nat, k: nat)
    requires ParseNum(s) == Some(Scale(m as real, -(k as int)))
    ensures ParseNum(s) == Some(m as real / Pow10(k) as real)
  {
    ScaleDown(m as real, k);
  }

  /** Digits `w`, `e` and digits `d` read as m * 10^k, where m and k are
      the values of the digits. */
  lemma ExponentValue(w: string, d: string, m: nat, k: nat)
    requires AllDigits(w) && |w| > 0 && AllDigits(d) && |d| > 0
    requires DigitsValue(w) == m && DigitsValue(d) == k
    ensures ParseNum(w + "e" + d) == Some(m as real * Pow10(k) as real)
  {
    ExponentScaled(w, d, m, k);
    ScaledUpRead(w + "e" + d, m, k);
  }

  /** Digits `w`, `e-` and digits `d` read as m / 10^k. */
  lemma NegativeExponentValue(w: string, d: string, m: nat, k: nat)
    requires AllDigits(w) && |w| > 0 && AllDigits(d) && |d| > 0
    requires DigitsValue(w) == m && DigitsValue(d) == k
    ensures ParseNum(w + "e-" + d) == Some(m as real / Pow10(k) as real)
  {
    NegativeExponentScaled(w, d, m, k);
    ScaledDownRead(w + "e-" + d, m, k);
  }

  /** Exponent notation: the rendering of m, `e` and the rendering of k
      reads as m * 10^k. */
  lemma ExponentForm(m: nat, k: nat)
    ensures ParseNum(NatText(m) + "e" + NatText(k)) == Some(m as real * Pow10(k) as real)
  {
    NatTextValue(m);
    NatTextValue(k);
    ExponentValue(NatText(m), NatText(k), m, k);
  }

  /** With a negative exponent, m `e-` k reads as m / 10^k. */
  lemma NegativeExponentForm(m: nat, k: nat)
    ensures ParseNum(NatText(m) + "e-" + NatText(k)) == Some(m as real / Pow10(k) as real)
  {
    NatTextValue(m);
    NatTextValue(k);
    NegativeExponentValue(NatText(m), NatText(k), m, k);
  }
}
