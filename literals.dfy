/**
 * Decimal text as Python reads and writes it: int() and float() on a form field,
 * and the decimal rendering of an int inside an f-string.
 * Surrounding whitespace, digit-group underscores, the inf/nan spellings and the
 * non-ASCII Unicode decimal digits are not modelled.
 */
module Literals {
  import opened Wrappers
  import opened Sequences

  predicate IsDigit(c: char) { '0' <= c <= '9' }

  predicate AllDigits(s: string) { forall i :: 0 <= i < |s| ==> IsDigit(s[i]) }

  /** The value of a string of decimal digits, most significant first. */
  function DigitsValue(s: string): nat
    requires AllDigits(s)
  {
    if s == [] then 0 else DigitsValue(s[..|s| - 1]) * 10 + (s[|s| - 1] as int - '0' as int)
  }

  /** The text after an optional leading sign. */
  function Unsigned(s: string): string
  {
    if |s| > 0 && (s[0] == '+' || s[0] == '-') then s[1..] else s
  }

  /** The integer syntax: an optional sign and at least one decimal digit. */
  predicate IsIntLiteral(s: string)
  {
    |Unsigned(s)| > 0 && AllDigits(Unsigned(s))
  }

  /** The integer an integer literal denotes. */
  function IntValue(s: string): int
    requires IsIntLiteral(s)
  {
    var v: int := DigitsValue(Unsigned(s));
    if s[0] == '-' then -v else v
  }

  /** int() refuses a literal of more digits than this, leading zeros included (CPython's default limit). */
  const MaxIntDigits := 4300

  /** Python's int() on a string; None where it raises ValueError. */
  function ParseInt(s: string): (r: Option<int>)
    ensures r.Some? <==> IsIntLiteral(s) && |Unsigned(s)| <= MaxIntDigits
    ensures r.Some? ==> r.value == IntValue(s)
    ensures r.Some? && s[0] != '-' ==> r.value >= 0
  {
    if IsIntLiteral(s) && |Unsigned(s)| <= MaxIntDigits then Some(IntValue(s)) else None
  }

  function DigitChar(d: nat): (c: char)
    requires d < 10
    ensures IsDigit(c) && c as int - '0' as int == d
  {
    ('0' as int + d) as char
  }

  /** The decimal rendering of a natural number, without leading zeros. */
  function ShowNat(n: nat): (s: string)
    ensures |s| > 0 && AllDigits(s)
    ensures |s| > 1 ==> s[0] != '0'
  {
    if n < 10 then [DigitChar(n)] else ShowNat(n / 10) + [DigitChar(n % 10)]
  }

  /** The decimal rendering of an integer, as str() and f-strings produce it. */
  function ShowInt(i: int): (s: string)
    ensures |s| > 0
  {
    if i < 0 then "-" + ShowNat(-i) else ShowNat(i)
  }

  lemma {:induction false} ShowNatValue(n: nat)
    ensures DigitsValue(ShowNat(n)) == n
  {
    if n >= 10 {
      var s := ShowNat(n);
      ShowNatValue(n / 10);
      assert s[..|s| - 1] == ShowNat(n / 10);
    }
  }

  /** A rendered integer is an integer literal denoting that integer. */
  lemma ShowIntValue(i: int)
    ensures IsIntLiteral(ShowInt(i)) && IntValue(ShowInt(i)) == i
  {
    if i < 0 {
      assert Unsigned(ShowInt(i)) == ShowNat(-i);
      ShowNatValue(-i);
    } else {
      assert Unsigned(ShowInt(i)) == ShowNat(i);
      ShowNatValue(i);
    }
  }

  /** int() reads back a rendered integer of at most 4300 characters: int(str(i)) == i. */
  lemma ParseShowInt(i: int)
    requires |Unsigned(ShowInt(i))| <= MaxIntDigits
    ensures ParseInt(ShowInt(i)) == Some(i)
  {
    ShowIntValue(i);
  }

  predicate IsPoint(c: char) { c == '.' }

  predicate IsExponentMark(c: char) { c == 'e' || c == 'E' }

  /** The first position of s where p holds, or |s| when there is none. */
  function FirstIndex(s: string, p: char -> bool): (i: nat)
    ensures i <= |s|
    ensures i < |s| ==> p(s[i])
    ensures forall j :: 0 <= j < i ==> !p(s[j])
  {
    match First(s, p)
    case None => |s|
    case Some(i) => i
  }

  /** Digits with at most one decimal point, and at least one digit: "12", "1.5", "1.", ".5". */
  predicate IsMantissa(m: string)
  {
    var dot := FirstIndex(m, IsPoint);
    && AllDigits(m[..dot])
    && (dot == |m| || AllDigits(m[dot + 1..]))
    && (dot > 0 || |m| > dot + 1)
  }

  /** The decimal literals float() reads: sign, mantissa, optional exponent (FloatOverflows says which are infinite). */
  predicate IsFloatLiteral(s: string)
  {
    var t := Unsigned(s);
    var e := FirstIndex(t, IsExponentMark);
    IsMantissa(t[..e]) && (e == |t| || IsIntLiteral(t[e + 1..]))
  }

  function Pow10(n: nat): (p: nat)
    ensures p >= 1
  {
    if n == 0 then 1 else 10 * Pow10(n - 1)
  }

  /**
   * 2^1024 - 2^970, halfway between the largest finite double and 2^1024. float() rounds a
   * decimal value to the nearest double, ties to even, so a value of at least this magnitude
   * becomes an infinity and every smaller one a finite double.
   */
  const OverflowThreshold: nat :=
    179769313486231580793728971405303415079934132710037826936173778980444968292764750946649017977587207096330286416692887910946555547851940402630657488671505820681908902000708383676273854845817711531764475730270069855571366959622842914819860834936475292719074168444365510704342711559699508093042880177904174497792

  /** The mantissa's digits with its decimal point taken out. */
  function MantissaDigits(m: string): (d: string)
    requires IsMantissa(m)
    ensures AllDigits(d)
  {
    var dot := FirstIndex(m, IsPoint);
    if dot == |m| then (assert m[..dot] == m; m) else m[..dot] + m[dot + 1..]
  }

  /** How many of the mantissa's digits follow its decimal point. */
  function FractionLength(m: string): nat
  {
    var dot := FirstIndex(m, IsPoint);
    if dot == |m| then 0 else |m| - dot - 1
  }

  /** The literal's text between its sign and its exponent mark. */
  function MantissaPart(s: string): string
  {
    var t := Unsigned(s);
    t[..FirstIndex(t, IsExponentMark)]
  }

  /** The literal's exponent, 0 when it has none. */
  function ExponentValue(s: string): int
    requires IsFloatLiteral(s)
  {
    var t := Unsigned(s);
    var e := FirstIndex(t, IsExponentMark);
    if e == |t| then 0 else IntValue(t[e + 1..])
  }

  /** digits × 10^scale is at least bound. */
  predicate ScaledAtLeast(digits: nat, scale: int, bound: nat)
  {
    if scale >= 0 then digits * Pow10(scale) >= bound else digits >= bound * Pow10(-scale)
  }

  /**
   * float() of the literal is an infinity: the literal's exact magnitude, its mantissa's
   * digits times ten to the exponent less the fraction length, reaches OverflowThreshold.
   */
  predicate FloatOverflows(s: string)
    requires IsFloatLiteral(s)
  {
    var m := MantissaPart(s);
    ScaledAtLeast(DigitsValue(MantissaDigits(m)), ExponentValue(s) - FractionLength(m), OverflowThreshold)
  }

  lemma {:induction false} Pow10Monotone(m: nat, n: nat)
    requires m <= n
    ensures Pow10(m) <= Pow10(n)
  {
    if m < n {
      Pow10Monotone(m, n - 1);
    }
  }

  /** A string of n digits is worth less than 10^n. */
  lemma {:induction false} DigitsValueBelow(s: string)
    requires AllDigits(s)
    ensures DigitsValue(s) < Pow10(|s|)
  {
    if s != [] {
      DigitsValueBelow(s[..|s| - 1]);
    }
  }

  /** A string of n digits with a non-zero leading digit is worth at least 10^(n-1). */
  lemma {:induction false} DigitsValueAtLeast(s: string)
    requires AllDigits(s) && s != [] && s[0] != '0'
    ensures DigitsValue(s) >= Pow10(|s| - 1)
  {
    if |s| > 1 {
      DigitsValueAtLeast(s[..|s| - 1]);
    }
  }

  lemma {:induction false} Pow10Add(a: nat, b: nat)
    ensures Pow10(a + b) == Pow10(a) * Pow10(b)
  {
    if a > 0 {
      Pow10Add(a - 1, b);
    }
  }

  /** The overflow threshold lies between 10^308 and 10^309. */
  lemma ThresholdBetweenPowers()
    ensures Pow10(308) < OverflowThreshold < Pow10(309)
  {
    assert Pow10(4) == 10000;
    Pow10Add(4, 4);
    assert Pow10(8) == 100000000;
    Pow10Add(8, 8);
    assert Pow10(16) == 10000000000000000;
    Pow10Add(16, 16);
    assert Pow10(32) == 100000000000000000000000000000000;
    Pow10Add(32, 32);
    assert Pow10(64) == 10000000000000000000000000000000000000000000000000000000000000000;
    Pow10Add(64, 64);
    assert Pow10(128) == 100000000000000000000000000000000000000000000000000000000000000000000000000000000000000000000000000000000000000000000000000000000;
    Pow10Add(128, 128);
    assert Pow10(256) == 10000000000000000000000000000000000000000000000000000000000000000000000000000000000000000000000000000000000000000000000000000000000000000000000000000000000000000000000000000000000000000000000000000000000000000000000000000000000000000000000000000000000000000;
    Pow10Add(256, 32);
    Pow10Add(288, 16);
    Pow10Add(304, 4);
    assert Pow10(309) == 10 * Pow10(308);
  }

  /** From 10^309 up, every power of ten is beyond the largest double. */
  lemma PowerOverflows(n: nat)
    requires n >= 309
    ensures Pow10(n) >= OverflowThreshold
  {
    Pow10Monotone(309, n);
    ThresholdBetweenPowers();
  }

  /** Up to 10^308, every power of ten is a finite double. */
  lemma PowerFinite(n: nat)
    requires n <= 308
    ensures Pow10(n) < OverflowThreshold
  {
    Pow10Monotone(n, 308);
    ThresholdBetweenPowers();
  }

  /** Everything int() accepts, float() accepts too. */
  lemma IntLiteralIsFloatLiteral(s: string)
    requires IsIntLiteral(s)
    ensures IsFloatLiteral(s)
  {
    var t := Unsigned(s);
    var e := FirstIndex(t, IsExponentMark);
    assert forall j :: 0 <= j < |t| ==> t[j] != 'e' && t[j] != 'E' && t[j] != '.';
    assert e == |t| && t[..e] == t;
    var dot := FirstIndex(t, IsPoint);
    assert dot == |t| && t[..dot] == t;
  }

  /** An integer literal of at most 308 digits is a finite float. */
  lemma IntLiteralFinite(s: string)
    requires IsIntLiteral(s) && |Unsigned(s)| <= 308
    ensures IsFloatLiteral(s) && !FloatOverflows(s)
  {
    IntLiteralIsFloatLiteral(s);
    var t := Unsigned(s);
    var e := FirstIndex(t, IsExponentMark);
    assert forall j :: 0 <= j < |t| ==> t[j] != 'e' && t[j] != 'E' && t[j] != '.';
    assert e == |t| && t[..e] == t;
    assert MantissaDigits(t) == t && FractionLength(t) == 0;
    DigitsValueBelow(t);
    Pow10Monotone(|t|, 308);
    ThresholdBetweenPowers();
  }

  /** An integer literal of more than 309 digits, not led by a zero, overflows float(). */
  lemma IntLiteralOverflows(s: string)
    requires IsIntLiteral(s) && |Unsigned(s)| >= 310 && Unsigned(s)[0] != '0'
    ensures IsFloatLiteral(s) && FloatOverflows(s)
  {
    IntLiteralIsFloatLiteral(s);
    var t := Unsigned(s);
    var e := FirstIndex(t, IsExponentMark);
    assert forall j :: 0 <= j < |t| ==> t[j] != 'e' && t[j] != 'E' && t[j] != '.';
    assert e == |t| && t[..e] == t;
    assert MantissaDigits(t) == t && FractionLength(t) == 0;
    DigitsValueAtLeast(t);
    Pow10Monotone(309, |t| - 1);
    ThresholdBetweenPowers();
  }

  /** "1e" followed by x splits into the mantissa "1" and the exponent x. */
  lemma ExponentLiteralParts(x: nat)
    ensures IsFloatLiteral("1e" + ShowNat(x))
    ensures MantissaPart("1e" + ShowNat(x)) == "1" && ExponentValue("1e" + ShowNat(x)) == x
  {
    var t := "1e" + ShowNat(x);
    assert Unsigned(t) == t;
    assert t[0] == '1' && IsExponentMark(t[1]);
    assert FirstIndex(t, IsExponentMark) == 1;
    assert FirstIndex(t[..1], IsPoint) == 1;
    assert t[2..] == ShowInt(x);
    ShowIntValue(x);
  }

  /** The value of "1e" followed by x is 1 × 10^x. */
  lemma ExponentLiteral(x: nat)
    ensures IsFloatLiteral("1e" + ShowNat(x))
    ensures FloatOverflows("1e" + ShowNat(x)) == ScaledAtLeast(1, x, OverflowThreshold)
  {
    ExponentLiteralParts(x);
    MantissaOne();
  }

  lemma MantissaOne()
    ensures IsMantissa("1")
    ensures MantissaDigits("1") == "1" && FractionLength("1") == 0 && DigitsValue("1") == 1
  {
    assert !IsPoint("1"[0]);
    assert FirstIndex("1", IsPoint) == 1;
  }

  lemma ScaledByOne(scale: nat, bound: nat)
    ensures ScaledAtLeast(1, scale, bound) <==> Pow10(scale) >= bound
  {
  }

  /** "1e" followed by an exponent x is a float literal, and float() makes it infinite exactly when x >= 309. */
  lemma ExponentOverflows(x: nat)
    ensures IsFloatLiteral("1e" + ShowNat(x))
    ensures FloatOverflows("1e" + ShowNat(x)) <==> x >= 309
  {
    ExponentLiteral(x);
    ScaledByOne(x, OverflowThreshold);
    if x >= 309 {
      PowerOverflows(x);
    } else {
      PowerFinite(x);
    }
  }
}
