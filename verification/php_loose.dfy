/**
 * PHP's loose `==` between two strings, as far as the `switch` in
 * `Utils::parseBoolean` needs it: when both strings are numeric they are
 * compared by value, so `"01"`, `"1.0"` and `"1e0"` all equal `"1"`; the
 * numeral syntax is the one `Php.ReadNumeral` reads.
 */
module PhpLoose {
  import opened Php

  /** What follows the exponent part at the head of `w`; `w` itself when there is none. */
  function AfterExponent(w: string): (rest: string)
    ensures |rest| <= |w|
    ensures ReadExponent(w).1 == [] ==> rest == w
  {
    if ReadExponent(w).1 == [] then w
    else
      var x := w[1..];
      var y := if x != [] && (x[0] == '-' || x[0] == '+') then x[1..] else x;
      y[|LeadingDigits(y)|..]
  }

  /** The text left after the numeric prefix that `ReadNumeral` reads. */
  function NumeralRest(s: string): (rest: string)
    ensures |rest| <= |s|
  {
    var t := SkipSpace(s);
    if t != [] && (t[0] == '-' || t[0] == '+') then UnsignedRest(t[1..]) else UnsignedRest(t)
  }

  /** The rest after the numeral's digits, fraction and exponent, once its sign is read. */
  function UnsignedRest(u: string): (rest: string)
    ensures |rest| <= |u|
  {
    WholeRest(u[|LeadingDigits(u)|..])
  }

  /** The rest after an optional fraction and the exponent part, once the whole digits are read. */
  function WholeRest(v: string): (rest: string)
    ensures |rest| <= |v|
  {
    if v != [] && v[0] == '.' then AfterExponent(v[1..][|LeadingDigits(v[1..])|..]) else AfterExponent(v)
  }

  /**
   * A numeric string in the sense of PHP 7's `is_numeric_string`: leading
   * whitespace, then a numeral with a digit before or after its point, and
   * nothing after it.
   */
  predicate NumericString(s: string) {
    var n := ReadNumeral(s);
    (n.whole != [] || n.fraction != []) && NumeralRest(s) == []
  }

  /** The numeral's exact value is zero, whatever its sign. */
  predicate IsZero(n: Numeral)
    requires AllDigits(n.whole) && AllDigits(n.fraction)
  {
    DigitsValue(n.whole + n.fraction) == 0
  }

  /** The numeral's exact value is one: its digits `m` and power of ten `e` give `m * 10^e == 1`. */
  predicate IsOne(n: Numeral)
    requires AllDigits(n.whole) && AllDigits(n.fraction) && AllDigits(n.exponent)
  {
    var m := DigitsValue(n.whole + n.fraction);
    var x: int := DigitsValue(n.exponent);
    var e := (if n.expNegative then -x else x) - |n.fraction|;
    && !n.negative
    && if e >= 0 then Scale(m, e) == 1 else m == Pow10(-e)
  }

  /** `s == "0"` in PHP: `s` is numeric, so the two are compared by value. */
  predicate LooselyZero(s: string) {
    NumericString(s) && IsZero(ReadNumeral(s))
  }

  /** `s == "1"` in PHP: `s` is numeric, so the two are compared by value. */
  predicate LooselyOne(s: string) {
    NumericString(s) && IsOne(ReadNumeral(s))
  }

  lemma {:induction false} ScaleOfZero(e: nat)
    ensures Scale(0, e) == 0
  {
    if e > 0 {
      ScaleOfZero(e - 1);
    }
  }

  /** No numeral is worth both zero and one. */
  lemma NumeralZeroNotOne(n: Numeral)
    requires AllDigits(n.whole) && AllDigits(n.fraction) && AllDigits(n.exponent)
    ensures !(IsZero(n) && IsOne(n))
  {
    var x: int := DigitsValue(n.exponent);
    var e := (if n.expNegative then -x else x) - |n.fraction|;
    if e >= 0 {
      ScaleOfZero(e);
    }
  }

  /** No string loosely equals both `"0"` and `"1"`. */
  lemma ZeroNotOne(s: string)
    ensures !(LooselyZero(s) && LooselyOne(s))
  {
    NumeralZeroNotOne(ReadNumeral(s));
  }

  /** A string that starts with neither whitespace, a sign, a digit nor a point is not numeric. */
  lemma NotNumeric(s: string)
    requires s != [] && !IsSpace(s[0]) && !IsDigit(s[0]) && s[0] != '+' && s[0] != '-' && s[0] != '.'
    ensures !NumericString(s)
  {
    assert SkipSpace(s) == s;
    assert LeadingDigits(s) == "";
    assert s[0..] == s;
    assert ReadNumeral(s) == ReadAfterFraction(false, "", "", s);
  }

  /** Nothing is left after a run of digits. */
  lemma DigitsRest(d: string)
    requires AllDigits(d)
    ensures NumeralRest(d) == []
  {
    assert SkipSpace(d) == d;
    assert d == d + "";
    WholeThenRest(d, "");
    assert WholeRest([]) == [];
  }

  /** Nothing is left after a run of digits, a point and another run of digits. */
  lemma FractionRest(d: string, f: string)
    requires AllDigits(d) && d != [] && AllDigits(f)
    ensures NumeralRest(d + "." + f) == []
  {
    var s := d + "." + f;
    assert SkipSpace(s) == s;
    assert s == d + ("." + f);
    WholeThenRest(d, "." + f);
    PointRest(f);
  }

  /** After the whole digits, the rest is read from the first non-digit. */
  lemma WholeThenRest(d: string, v: string)
    requires AllDigits(d) && (v == [] || !IsDigit(v[0]))
    ensures UnsignedRest(d + v) == WholeRest(v)
  {
    LeadingDigitsOfDigits(d, v);
    assert (d + v)[|d|..] == v;
  }

  /** Nothing is left after a point and a run of digits. */
  lemma PointRest(f: string)
    requires AllDigits(f)
    ensures WholeRest("." + f) == []
  {
    assert ("." + f)[1..] == f + "";
    LeadingDigitsOfDigits(f, "");
    assert f + "" == f;
    assert f[|f|..] == [];
  }

  /** Nothing is left after a minus sign and a run of digits. */
  lemma NegativeRest(d: string)
    requires AllDigits(d) && d != []
    ensures NumeralRest("-" + d) == []
  {
    var s := "-" + d;
    assert SkipSpace(s) == s;
    assert s[1..] == d + "";
    WholeThenRest(d, "");
    assert WholeRest([]) == [];
  }

  /** A numeral without fraction or exponent is zero or one exactly when its whole digits are. */
  lemma WholeZeroOne(n: Numeral)
    requires AllDigits(n.whole) && n.fraction == [] && n.exponent == []
    ensures IsZero(n) <==> DigitsValue(n.whole) == 0
    ensures IsOne(n) <==> !n.negative && DigitsValue(n.whole) == 1
  {
    assert n.whole + n.fraction == n.whole;
  }

  /** An unsigned numeral without exponent is one exactly when its digits make ten to the fraction's length. */
  lemma FractionZeroOne(n: Numeral)
    requires AllDigits(n.whole) && AllDigits(n.fraction) && n.exponent == [] && !n.negative
    ensures IsOne(n) <==> DigitsValue(n.whole + n.fraction) == Pow10(|n.fraction|)
  {
  }

  /** A run of digits is numeric, and loosely equals `"0"` or `"1"` exactly when its value does. */
  lemma DigitsNumeric(d: string)
    requires AllDigits(d) && d != []
    ensures NumericString(d)
    ensures LooselyZero(d) <==> DigitsValue(d) == 0
    ensures LooselyOne(d) <==> DigitsValue(d) == 1
  {
    var n := ReadNumeral(d);
    ReadDigits(d);
    DigitsRest(d);
    WholeZeroOne(n);
  }

  /** A digit run with a decimal point is numeric, and is zero or one exactly when its digits say so. */
  lemma FractionNumeric(d: string, f: string)
    requires AllDigits(d) && d != [] && AllDigits(f)
    ensures NumericString(d + "." + f)
    ensures LooselyZero(d + "." + f) <==> DigitsValue(d + f) == 0
    ensures LooselyOne(d + "." + f) <==> DigitsValue(d + f) == Pow10(|f|)
  {
    var n := ReadNumeral(d + "." + f);
    ReadFraction(d, f);
    FractionRest(d, f);
    FractionZeroOne(n);
  }

  /** A minus sign before digits is numeric; it can equal `"0"` but never `"1"`. */
  lemma NegativeNumeric(d: string)
    requires AllDigits(d) && d != []
    ensures NumericString("-" + d)
    ensures LooselyZero("-" + d) <==> DigitsValue(d) == 0
    ensures !LooselyOne("-" + d)
  {
    var n := ReadNumeral("-" + d);
    ReadNegative(d);
    NegativeRest(d);
    WholeZeroOne(n);
  }

  /** Nothing is left after an `e` and a run of digits. */
  lemma ExponentRest(x: string)
    requires AllDigits(x) && x != []
    ensures WholeRest("e" + x) == []
  {
    var w := "e" + x;
    assert w[1..] == x + "";
    LeadingDigitsOfDigits(x, "");
    assert x + "" == x;
    assert ReadExponent(w).1 == x;
    assert x[|x|..] == [];
  }

  /** An unsigned numeral without fraction or negative exponent is one exactly when `d * 10^x` is. */
  lemma ScientificZeroOne(n: Numeral)
    requires AllDigits(n.whole) && n.fraction == [] && AllDigits(n.exponent) && !n.expNegative && !n.negative
    ensures IsOne(n) <==> Scale(DigitsValue(n.whole), DigitsValue(n.exponent)) == 1
  {
    assert n.whole + n.fraction == n.whole;
  }

  /** Digits with an exponent are numeric, and equal `"1"` exactly when `d * 10^x` is one. */
  lemma ScientificNumeric(d: string, x: string)
    requires AllDigits(d) && d != [] && AllDigits(x) && x != []
    ensures NumericString(d + "e" + x)
    ensures LooselyOne(d + "e" + x) <==> Scale(DigitsValue(d), DigitsValue(x)) == 1
  {
    var n := ReadNumeral(d + "e" + x);
    ReadScientific(d, x);
    ScientificRest(d, x);
    ScientificZeroOne(n);
  }

  /** Nothing is left after digits, an `e` and more digits. */
  lemma ScientificRest(d: string, x: string)
    requires AllDigits(d) && d != [] && AllDigits(x) && x != []
    ensures NumeralRest(d + "e" + x) == []
  {
    var s := d + "e" + x;
    assert SkipSpace(s) == s;
    assert s == d + ("e" + x);
    WholeThenRest(d, "e" + x);
    ExponentRest(x);
  }

  /** The words `switch` compares besides the digits are not numeric, and `"0"` and `"1"` are themselves. */
  lemma BooleanWords()
    ensures !NumericString("true") && !NumericString("false")
    ensures LooselyZero("0") && !LooselyOne("0")
    ensures LooselyOne("1") && !LooselyZero("1")
  {
    NotNumeric("true");
    NotNumeric("false");
    DigitsNumeric("0");
    DigitsNumeric("1");
    assert "0"[..0] == "" && "1"[..0] == "";
  }

  /** `"01"` equals `"1"`, and `"2"` equals neither `"0"` nor `"1"`. */
  lemma LooseDigitsExamples()
    ensures LooselyOne("0" + "1")
    ensures !LooselyZero("2") && !LooselyOne("2")
  {
    DigitsNumeric("0" + "1");
    assert ("0" + "1")[..1] == "0";
    assert "0"[..0] == "";
    DigitsNumeric("2");
    assert "2"[..0] == "";
  }

  /** `"1.0"` and `"1e0"` equal `"1"`, and `"0.0"` and `"-0"` equal `"0"`. */
  lemma LooseFractionExamples()
    ensures LooselyOne("1" + "." + "0") && LooselyOne("1" + "e" + "0")
    ensures LooselyZero("0" + "." + "0") && LooselyZero("-" + "0")
  {
    FractionNumeric("1", "0");
    assert ("1" + "0")[..1] == "1";
    assert "1"[..0] == "";
    FractionNumeric("0", "0");
    assert ("0" + "0")[..1] == "0";
    assert "0"[..0] == "";
    NegativeNumeric("0");
    ScientificNumeric("1", "0");
    assert DigitsValue("0") == 0;
  }
}
