/**
 * The PHP runtime facts the codecs rely on: the exceptions they throw, the
 * 64-bit integer type, and the `strval`/`intval` conversions used to move
 * integers in and out of attribute values.
 */
module Php {

  /** The exceptions a codec constructor or setter can throw. */
  datatype Throwable =
    | Exception(message: string)
    | InvalidArgumentException(message: string)
    | TypeError(message: string)

  const INT64_MIN: int := -0x8000_0000_0000_0000
  const INT64_MAX: int := 0x7FFF_FFFF_FFFF_FFFF

  /** PHP's `int` on a 64-bit platform. */
  type Int64 = x: int | INT64_MIN <= x <= INT64_MAX

  predicate IsDigit(c: char) {
    '0' <= c <= '9'
  }

  predicate AllDigits(s: string) {
    forall i :: 0 <= i < |s| ==> IsDigit(s[i])
  }

  /** The whitespace `intval` skips before the number. */
  predicate IsSpace(c: char) {
    c == ' ' || c == '\t' || c == '\n' || c == '\r' || c == '\U{000B}' || c == '\U{000C}'
  }

  function DigitChar(d: nat): (c: char)
    requires d < 10
    ensures IsDigit(c)
  {
    "0123456789"[d]
  }

  function DigitValue(c: char): (d: nat)
    requires IsDigit(c)
    ensures d < 10
  {
    (c as int) - ('0' as int)
  }

  /** Decimal digits of `n`, most significant first, without leading zeros. */
  function NatDigits(n: nat): (s: string)
    ensures |s| > 0 && AllDigits(s)
  {
    if n < 10 then [DigitChar(n)] else NatDigits(n / 10) + [DigitChar(n % 10)]
  }

  /** The number a non-empty run of decimal digits denotes. */
  function DigitsValue(s: string): nat
    requires AllDigits(s)
  {
    if s == [] then 0 else DigitsValue(s[..|s| - 1]) * 10 + DigitValue(s[|s| - 1])
  }

  /** `strval` of an integer: an optional minus sign and the decimal digits. */
  function Strval(n: int): (s: string)
    ensures |s| > 0 && (IsDigit(s[0]) || s[0] == '-')
    ensures n >= 0 <==> IsDigit(s[0])
  {
    if n < 0 then "-" + NatDigits(-n) else NatDigits(n)
  }

  /** The longest prefix of `s` made of decimal digits. */
  function LeadingDigits(s: string): (p: string)
    ensures p <= s && AllDigits(p)
    ensures |p| < |s| ==> !IsDigit(s[|p|])
  {
    if s == [] || !IsDigit(s[0]) then "" else [s[0]] + LeadingDigits(s[1..])
  }

  function SkipSpace(s: string): (t: string)
    ensures |t| <= |s| && t == s[|s| - |t|..]
    ensures t == [] || !IsSpace(t[0])
  {
    if s != [] && IsSpace(s[0]) then SkipSpace(s[1..]) else s
  }

  /** Clamps to the 64-bit range, as PHP does for an out-of-range numeric string. */
  function Saturate(n: int): (r: Int64)
    ensures INT64_MIN <= n <= INT64_MAX ==> r == n
    ensures n > INT64_MAX ==> r == INT64_MAX
    ensures n < INT64_MIN ==> r == INT64_MIN
  {
    if n > INT64_MAX then INT64_MAX else if n < INT64_MIN then INT64_MIN else n
  }

  function Pow10(k: nat): (p: nat)
    ensures p >= 1
  {
    if k == 0 then 1 else 10 * Pow10(k - 1)
  }

  /** `m * 10^e`. */
  function Scale(m: nat, e: nat): (r: nat)
    ensures m > 0 ==> r >= Pow10(e)
  {
    if e == 0 then m else 10 * Scale(m, e - 1)
  }

  /** `m / 10^e`, truncated. */
  function Shorten(m: nat, e: nat): (r: nat)
    ensures r <= m
  {
    if e == 0 then m else Shorten(m / 10, e - 1)
  }

  /**
   * The leading numeric part of a string, as PHP's numeric-string reader
   * takes it: a sign, the digits before the point, the digits after it, and
   * an exponent whose own sign and digits count only when a digit follows
   * the `e`. A string without such a part reads as all-empty digits.
   */
  datatype Numeral = Numeral(negative: bool, whole: string, fraction: string, expNegative: bool, exponent: string)

  /** The exponent part at the head of `w`, if there is one with at least one digit. */
  function ReadExponent(w: string): (r: (bool, string))
    ensures AllDigits(r.1)
    ensures r.1 != [] ==> |w| > 1 && (w[0] == 'e' || w[0] == 'E')
  {
    if w != [] && (w[0] == 'e' || w[0] == 'E') then
      var x := w[1..];
      var y := if x != [] && (x[0] == '-' || x[0] == '+') then x[1..] else x;
      (x != [] && x[0] == '-', LeadingDigits(y))
    else (false, "")
  }

  function ReadNumeral(s: string): (n: Numeral)
    ensures AllDigits(n.whole) && AllDigits(n.fraction) && AllDigits(n.exponent)
  {
    var t := SkipSpace(s);
    if t != [] && (t[0] == '-' || t[0] == '+') then ReadUnsigned(t[0] == '-', t[1..])
    else ReadUnsigned(false, t)
  }

  /** The numeral after its sign: the digits before the point, then what follows them. */
  function ReadUnsigned(negative: bool, u: string): (n: Numeral)
    ensures AllDigits(n.whole) && AllDigits(n.fraction) && AllDigits(n.exponent)
  {
    var whole := LeadingDigits(u);
    ReadAfterWhole(negative, whole, u[|whole|..])
  }

  /** What follows the whole digits: an optional fraction, then the exponent part. */
  function ReadAfterWhole(negative: bool, whole: string, v: string): (n: Numeral)
    requires AllDigits(whole)
    ensures AllDigits(n.whole) && AllDigits(n.fraction) && AllDigits(n.exponent)
  {
    if v != [] && v[0] == '.' then
      var fraction := LeadingDigits(v[1..]);
      ReadAfterFraction(negative, whole, fraction, v[1..][|fraction|..])
    else ReadAfterFraction(negative, whole, "", v)
  }

  function ReadAfterFraction(negative: bool, whole: string, fraction: string, w: string): (n: Numeral)
    requires AllDigits(whole) && AllDigits(fraction)
    ensures n.negative == negative && n.whole == whole && n.fraction == fraction
    ensures (n.expNegative, n.exponent) == ReadExponent(w)
  {
    var (expNegative, exponent) := ReadExponent(w);
    Numeral(negative, whole, fraction, expNegative, exponent)
  }

  /** The numeral's exact value without its sign, truncated toward zero. */
  function Magnitude(n: Numeral): nat
    requires AllDigits(n.whole) && AllDigits(n.fraction) && AllDigits(n.exponent)
  {
    var m := DigitsValue(n.whole + n.fraction);
    var x: int := DigitsValue(n.exponent);
    var e := if n.expNegative then -x - |n.fraction| else x - |n.fraction|;
    if e >= 0 then Scale(m, e) else Shorten(m, -e)
  }

  /**
   * `intval` of a string (PHP 7.1 and later): the leading numeric part is
   * read with its fraction and exponent and truncated toward zero, a value
   * beyond the 64-bit range saturates, and a string without a numeric part
   * gives 0.
   */
  function Intval(s: string): (r: Int64)
    ensures AllDigits(s) ==> r == Saturate(DigitsValue(s))
  {
    NumeralOfDigits(s);
    NumeralValue(ReadNumeral(s))
  }

  /** The integer a numeral converts to: its truncated value with its sign, clamped to the 64-bit range. */
  function NumeralValue(n: Numeral): (r: Int64)
    requires AllDigits(n.whole) && AllDigits(n.fraction) && AllDigits(n.exponent)
  {
    var k: int := Magnitude(n);
    Saturate(if n.negative then -k else k)
  }

  /** A string of digits alone is read as a whole number with no fraction or exponent. */
  lemma NumeralOfDigits(s: string)
    ensures AllDigits(s) ==> ReadNumeral(s) == Numeral(false, s, "", false, "")
    ensures AllDigits(s) ==> Magnitude(ReadNumeral(s)) == DigitsValue(s)
  {
    if AllDigits(s) {
      ReadDigits(s);
      MagnitudeOfWhole(false, s);
    }
  }

  lemma ReadDigits(s: string)
    requires AllDigits(s)
    ensures ReadNumeral(s) == Numeral(false, s, "", false, "")
  {
    assert SkipSpace(s) == s;
    WholeThen(false, s, "");
    assert s + "" == s;
    AfterWholeEmpty(false, s);
  }

  /** Reading stops the whole digits at the first non-digit. */
  lemma WholeThen(negative: bool, d: string, rest: string)
    requires AllDigits(d) && (rest == [] || !IsDigit(rest[0]))
    ensures ReadUnsigned(negative, d + rest) == ReadAfterWhole(negative, d, rest)
  {
    LeadingDigitsOfDigits(d, rest);
    assert (d + rest)[|d|..] == rest;
  }

  lemma AfterWholeEmpty(negative: bool, d: string)
    requires AllDigits(d)
    ensures ReadAfterWhole(negative, d, "") == Numeral(negative, d, "", false, "")
  {
    assert ReadExponent([]) == (false, "");
  }

  lemma AfterWholeFraction(negative: bool, d: string, f: string)
    requires AllDigits(d) && AllDigits(f)
    ensures ReadAfterWhole(negative, d, "." + f) == Numeral(negative, d, f, false, "")
  {
    assert ("." + f)[1..] == f;
    LeadingDigitsOfDigits(f, "");
    assert f + "" == f;
    assert f[|f|..] == [];
    assert ReadExponent([]) == (false, "");
  }

  lemma AfterWholeExponent(negative: bool, d: string, x: string)
    requires AllDigits(d) && AllDigits(x) && x != []
    ensures ReadAfterWhole(negative, d, "e" + x) == Numeral(negative, d, "", false, x)
  {
    assert ("e" + x)[1..] == x;
    LeadingDigitsOfDigits(x, "");
    assert x + "" == x;
    assert ReadExponent("e" + x) == (false, x);
  }

  lemma MagnitudeOfWhole(negative: bool, s: string)
    requires AllDigits(s)
    ensures Magnitude(Numeral(negative, s, "", false, "")) == DigitsValue(s)
  {
    assert s + "" == s;
  }

  lemma {:induction false} LeadingDigitsOfDigits(s: string, rest: string)
    requires AllDigits(s)
    requires rest == [] || !IsDigit(rest[0])
    ensures LeadingDigits(s + rest) == s
  {
    if s != [] {
      assert (s + rest)[1..] == s[1..] + rest;
      LeadingDigitsOfDigits(s[1..], rest);
    } else {
      assert s + rest == rest;
    }
  }

  lemma {:induction false} DigitsValueOfNatDigits(n: nat)
    ensures DigitsValue(NatDigits(n)) == n
  {
    if n >= 10 {
      var s := NatDigits(n);
      assert s[..|s| - 1] == NatDigits(n / 10);
      DigitsValueOfNatDigits(n / 10);
    }
  }

  lemma ReadNegative(d: string)
    requires AllDigits(d) && d != []
    ensures ReadNumeral("-" + d) == Numeral(true, d, "", false, "")
  {
    var s := "-" + d;
    assert SkipSpace(s) == s;
    assert s[1..] == d + "";
    WholeThen(true, d, "");
    AfterWholeEmpty(true, d);
  }

  /** A minus sign before a run of digits negates the value, saturating at the lower bound. */
  lemma IntvalNegative(d: string)
    requires AllDigits(d) && d != []
    ensures Intval("-" + d) == Saturate(-(DigitsValue(d) as int))
  {
    var n := ReadNumeral("-" + d);
    ReadNegative(d);
    IntvalOfNumeral("-" + d, n);
    WholeValue(n);
  }

  /** A numeral with neither fraction nor exponent is worth its whole digits, with its sign. */
  lemma WholeValue(n: Numeral)
    requires AllDigits(n.whole) && n.fraction == [] && n.exponent == []
    ensures NumeralValue(n) == Saturate(if n.negative then -(DigitsValue(n.whole) as int) else DigitsValue(n.whole))
  {
    assert n.whole + n.fraction == n.whole;
    SignedValue(n);
  }

  /** A numeral's value is its magnitude with its sign, saturated. */
  lemma SignedValue(n: Numeral)
    requires AllDigits(n.whole) && AllDigits(n.fraction) && AllDigits(n.exponent)
    ensures NumeralValue(n) == Saturate(if n.negative then -(Magnitude(n) as int) else Magnitude(n))
  {
  }

  lemma IntvalOfNumeral(s: string, n: Numeral)
    requires ReadNumeral(s) == n
    ensures Intval(s) == NumeralValue(n)
  {
  }

  /** Reading back what `strval` wrote gives the original 64-bit integer. */
  lemma IntvalOfStrval(n: Int64)
    ensures Intval(Strval(n)) == n
  {
    if n < 0 {
      var k: nat := -(n as int);
      DigitsValueOfNatDigits(k);
      IntvalNegative(NatDigits(k));
    } else {
      DigitsValueOfNatDigits(n);
    }
  }

  /** Digits written after others shift them left by their own count. */
  lemma {:induction false} DigitsValueAppend(d: string, f: string)
    requires AllDigits(d) && AllDigits(f)
    ensures DigitsValue(d + f) == Scale(DigitsValue(d), |f|) + DigitsValue(f)
    ensures DigitsValue(f) < Pow10(|f|)
    decreases |f|
  {
    if f == [] {
      assert d + f == d;
    } else {
      var g := f[..|f| - 1];
      assert (d + f)[..|d + f| - 1] == d + g;
      assert (d + f)[|d + f| - 1] == f[|f| - 1];
      DigitsValueAppend(d, g);
    }
  }

  /** Truncating `m * 10^e + b` by `e` digits, where `b` has fewer than `e` digits, gives back `m`. */
  lemma {:induction false} ShortenScale(m: nat, e: nat, b: nat)
    requires b < Pow10(e)
    ensures Shorten(Scale(m, e) + b, e) == m
    decreases e
  {
    if e > 0 {
      assert (Scale(m, e) + b) / 10 == Scale(m, e - 1) + b / 10;
      ShortenScale(m, e - 1, b / 10);
    }
  }

  lemma ReadFraction(d: string, f: string)
    requires AllDigits(d) && d != [] && AllDigits(f)
    ensures ReadNumeral(d + "." + f) == Numeral(false, d, f, false, "")
  {
    var s := d + "." + f;
    assert SkipSpace(s) == s;
    assert s == d + ("." + f);
    WholeThen(false, d, "." + f);
    AfterWholeFraction(false, d, f);
  }

  lemma MagnitudeOfFraction(d: string, f: string)
    requires AllDigits(d) && AllDigits(f)
    ensures Magnitude(Numeral(false, d, f, false, "")) == DigitsValue(d)
  {
    if f == [] {
      MagnitudeOfWhole(false, d);
    } else {
      MagnitudeShortens(d, f);
      ShortenDigits(d, f);
    }
  }

  lemma ShortenDigits(d: string, f: string)
    requires AllDigits(d) && AllDigits(f)
    ensures Shorten(DigitsValue(d + f), |f|) == DigitsValue(d)
  {
    DigitsValueAppend(d, f);
    ShortenScale(DigitsValue(d), |f|, DigitsValue(f));
  }

  lemma MagnitudeShortens(d: string, f: string)
    requires AllDigits(d) && AllDigits(f) && f != []
    ensures Magnitude(Numeral(false, d, f, false, "")) == Shorten(DigitsValue(d + f), |f|)
  {
    var n := Numeral(false, d, f, false, "");
    assert DigitsValue(n.exponent) == 0;
  }

  lemma MagnitudeScales(d: string, x: string)
    requires AllDigits(d) && AllDigits(x)
    ensures Magnitude(Numeral(false, d, "", false, x)) == Scale(DigitsValue(d), DigitsValue(x))
  {
    assert d + "" == d;
  }

  /** The digits after a decimal point are truncated away. */
  lemma IntvalFraction(d: string, f: string)
    requires AllDigits(d) && d != [] && AllDigits(f)
    ensures Intval(d + "." + f) == Saturate(DigitsValue(d))
  {
    ReadFraction(d, f);
    IntvalOfNumeral(d + "." + f, Numeral(false, d, f, false, ""));
    FractionValue(d, f);
  }

  lemma FractionValue(d: string, f: string)
    requires AllDigits(d) && AllDigits(f)
    ensures NumeralValue(Numeral(false, d, f, false, "")) == Saturate(DigitsValue(d))
  {
    MagnitudeOfFraction(d, f);
    SignedValue(Numeral(false, d, f, false, ""));
  }

  lemma ReadScientific(d: string, x: string)
    requires AllDigits(d) && d != [] && AllDigits(x) && x != []
    ensures ReadNumeral(d + "e" + x) == Numeral(false, d, "", false, x)
  {
    var s := d + "e" + x;
    assert SkipSpace(s) == s;
    assert s == d + ("e" + x);
    WholeThen(false, d, "e" + x);
    AfterWholeExponent(false, d, x);
  }

  /** An exponent after a run of digits multiplies it by that power of ten. */
  lemma IntvalExponent(d: string, x: string)
    requires AllDigits(d) && d != [] && AllDigits(x) && x != []
    ensures Intval(d + "e" + x) == Saturate(Scale(DigitsValue(d), DigitsValue(x)))
  {
    ReadScientific(d, x);
    IntvalOfNumeral(d + "e" + x, Numeral(false, d, "", false, x));
    ScientificValue(d, x);
  }

  lemma ScientificValue(d: string, x: string)
    requires AllDigits(d) && AllDigits(x)
    ensures NumeralValue(Numeral(false, d, "", false, x)) == Saturate(Scale(DigitsValue(d), DigitsValue(x)))
  {
    MagnitudeScales(d, x);
    SignedValue(Numeral(false, d, "", false, x));
  }

  /** PHP 7.1 reads `"1e3"` as one thousand. */
  lemma IntvalScientificExample()
    ensures Intval("1" + "e" + "3") == 1000
  {
    IntvalExponent("1", "3");
    SingleDigits();
    assert Scale(1, 3) == 1000;
  }

  /** `"2.5"` reads as two: the fraction is cut off. */
  lemma IntvalFractionExample()
    ensures Intval("2" + "." + "5") == 2
  {
    IntvalFraction("2", "5");
    SingleDigits();
  }

  lemma SingleDigits()
    ensures DigitsValue("1") == 1 && DigitsValue("2") == 2 && DigitsValue("3") == 3
  {
    assert "1"[..0] == "" && "2"[..0] == "" && "3"[..0] == "";
  }

  /** The characters `trim` strips by default. */
  predicate IsTrimChar(c: char) {
    c == ' ' || c == '\t' || c == '\n' || c == '\r' || c == '\0' || c == '\U{000B}'
  }

  /** A string `trim` leaves as it is. */
  predicate Trimmed(s: string) {
    s == [] || (!IsTrimChar(s[0]) && !IsTrimChar(s[|s| - 1]))
  }

  function TrimStart(s: string): (t: string)
    ensures |t| <= |s| && t == s[|s| - |t|..]
    ensures t == [] || !IsTrimChar(t[0])
    ensures forall i :: 0 <= i < |s| - |t| ==> IsTrimChar(s[i])
  {
    if s != [] && IsTrimChar(s[0]) then TrimStart(s[1..]) else s
  }

  function TrimEnd(s: string): (t: string)
    ensures |t| <= |s| && t == s[..|t|]
    ensures t == [] || !IsTrimChar(t[|t| - 1])
    ensures forall i :: |t| <= i < |s| ==> IsTrimChar(s[i])
  {
    if s != [] && IsTrimChar(s[|s| - 1]) then TrimEnd(s[..|s| - 1]) else s
  }

  /** How many characters `trim` strips from the front of `s`. */
  function TrimOffset(s: string): (k: nat)
    ensures k <= |s|
    ensures forall i :: 0 <= i < k ==> IsTrimChar(s[i])
    ensures k == |s| || !IsTrimChar(s[k])
  {
    |s| - |TrimStart(s)|
  }

  /**
   * `trim`: the longest infix of `s` that neither starts nor ends with
   * whitespace or NUL; everything cut off on either side is such a character.
   */
  function Trim(s: string): (t: string)
    ensures Trimmed(t)
    ensures TrimOffset(s) + |t| <= |s| && t == s[TrimOffset(s)..TrimOffset(s) + |t|]
    ensures forall i :: TrimOffset(s) + |t| <= i < |s| ==> IsTrimChar(s[i])
    ensures Trimmed(s) ==> t == s
  {
    TrimEnd(TrimStart(s))
  }

  /** Whether PHP treats a string as true in a condition: every string but `""` and `"0"`. */
  predicate Truthy(s: string) {
    s != "" && s != "0"
  }

  /** ASCII lower-casing, as `strtolower` does. */
  function ToLower(s: string): (t: string)
    ensures |t| == |s|
    ensures forall i :: 0 <= i < |s| ==> ('A' <= s[i] <= 'Z' ==> t[i] == (s[i] as int + 32) as char)
    ensures forall i :: 0 <= i < |s| ==> (!('A' <= s[i] <= 'Z') ==> t[i] == s[i])
  {
    if s == [] then ""
    else [if 'A' <= s[0] <= 'Z' then (s[0] as int + 32) as char else s[0]] + ToLower(s[1..])
  }
}
