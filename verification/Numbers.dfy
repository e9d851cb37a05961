/** Python's `int(text)` and `float(text)` on text, which `check_int`, `check_float`
    and the range coercions of the query validator call: surrounding whitespace is
    ignored, an optional sign is allowed, and digits may be grouped by single
    underscores. Floats are exact rationals here (no binary rounding), and the
    spellings "inf", "infinity" and "nan" are not recognised. */
module Numbers {
  import opened Wrappers
  import opened PyStr

  /** A run of decimal digits in which single underscores may separate digits. */
  predicate IsDigitPart(t: string)
  {
    && |t| > 0 && IsDigit(t[0]) && IsDigit(t[|t| - 1])
    && (forall k :: 0 <= k < |t| ==> IsDigit(t[k]) || t[k] == '_')
    && (forall k | 0 <= k < |t| :: !DoubleUnderscoreAt(t, k))
  }

  predicate DoubleUnderscoreAt(t: string, k: int)
  {
    0 <= k < |t| - 1 && t[k] == '_' && t[k + 1] == '_'
  }

  predicate DigitsOrUnderscores(t: string)
  {
    forall k :: 0 <= k < |t| ==> IsDigit(t[k]) || t[k] == '_'
  }

  /** The number the digits of `t` spell, underscores skipped. */
  function DigitsValue(t: string): nat
    requires DigitsOrUnderscores(t)
  {
    if t == [] then 0
    else if t[|t| - 1] == '_' then DigitsValue(t[..|t| - 1])
    else 10 * DigitsValue(t[..|t| - 1]) + DigitValue(t[|t| - 1])
  }

  /** How many digits `t` holds, underscores skipped. */
  function DigitCount(t: string): nat
  {
    if t == [] then 0 else (if IsDigit(t[0]) then 1 else 0) + DigitCount(t[1..])
  }

  function Pow10(n: nat): (r: nat)
    ensures r >= 1
  {
    if n == 0 then 1 else 10 * Pow10(n - 1)
  }

  /** `int(s)` on a `str`: None where Python raises ValueError. Whatever Python
      accepts is, once the surrounding whitespace is skipped, made only of digits,
      a sign and underscores. */
  function ParseInt(s: string): (r: Option<int>)
    ensures r.Some? ==> forall k :: 0 <= k < |NumberStrip(s)| ==>
                          IsDigit(NumberStrip(s)[k]) || NumberStrip(s)[k] in "+-_"
  {
    var t := NumberStrip(s);
    if |t| > 0 && (t[0] == '+' || t[0] == '-') then
      if IsDigitPart(t[1..]) then
        var magnitude: int := DigitsValue(t[1..]);
        Some(if t[0] == '-' then -magnitude else magnitude)
      else None
    else if IsDigitPart(t) then Some(DigitsValue(t))
    else None
  }

  /** The digits `str(n)` writes spell `n` back. */
  lemma {:induction false} NatToTextValue(n: nat)
    ensures DigitsOrUnderscores(NatToText(n))
    ensures IsDigitPart(NatToText(n))
    ensures DigitsValue(NatToText(n)) == n
    ensures DigitCount(NatToText(n)) == |NatToText(n)|
    decreases n
  {
    var t := NatToText(n);
    if n >= 10 {
      NatToTextValue(n / 10);
      var p := NatToText(n / 10);
      assert t == p + [DigitChar(n % 10)];
      assert t[..|t| - 1] == p;
      DigitCountAppend(p, DigitChar(n % 10));
    }
  }

  lemma {:induction false} DigitCountAppend(p: string, c: char)
    ensures DigitCount(p + [c]) == DigitCount(p) + (if IsDigit(c) then 1 else 0)
    decreases |p|
  {
    if p != [] {
      assert (p + [c])[1..] == p[1..] + [c];
      DigitCountAppend(p[1..], c);
    } else {
      assert [c][1..] == [];
    }
  }

  /** `int(str(i)) == i`: the text Python writes for an int parses back to it. */
  lemma ParseIntOfText(i: int)
    ensures ParseInt(IntToText(i)) == Some(i)
  {
    if i < 0 {
      ParseIntOfNegative(-i);
    } else {
      ParseIntOfDigits(i);
    }
  }

  lemma ParseIntOfDigits(d: nat)
    ensures ParseInt(IntToText(d)) == Some(d)
  {
    var t := NatToText(d);
    assert IntToText(d) == t;
    NatToTextValue(d);
    TrimTrimmed(NumberBlanks, t);
    assert t[0] != '+' && t[0] != '-';
  }

  lemma ParseIntOfNegative(d: nat)
    requires d > 0
    ensures ParseInt(IntToText(-(d as int))) == Some(-(d as int))
  {
    var body := NatToText(d);
    var t := "-" + body;
    assert IntToText(-(d as int)) == t;
    NatToTextValue(d);
    assert t[|t| - 1] == body[|body| - 1];
    TrimTrimmed(NumberBlanks, t);
    assert NumberStrip(t) == t;
    assert t[1..] == body && t[0] == '-';
    assert IsDigitPart(t[1..]) && DigitsValue(t[1..]) == d;
  }

  /** Index of the first exponent mark, 'e' or 'E', in `t`, or |t|. */
  function ExponentMark(t: string): nat
  {
    FirstIndex(Lower(t), 'e')
  }

  /** A signed digit part, as written after the exponent mark. */
  function ParseExponent(t: string): Option<int>
  {
    if |t| > 0 && (t[0] == '+' || t[0] == '-') then
      if IsDigitPart(t[1..]) then
        var magnitude: int := DigitsValue(t[1..]);
        Some(if t[0] == '-' then -magnitude else magnitude)
      else None
    else if IsDigitPart(t) then Some(DigitsValue(t))
    else None
  }

  /** The digits before and after the point of a mantissa ("12", "12.", "12.5", ".5"):
      the value of all its digits and the number of digits after the point. */
  function ParseMantissa(t: string): Option<(nat, nat)>
  {
    var p := FirstIndex(t, '.');
    if p == |t| then
      if IsDigitPart(t) then Some((DigitsValue(t), 0)) else None
    else
      var whole, fraction := t[..p], t[p + 1..];
      if (whole == [] && fraction == [])
         || (whole != [] && !IsDigitPart(whole))
         || (fraction != [] && !IsDigitPart(fraction))
      then None
      else Some((DigitsValue(whole) * Pow10(DigitCount(fraction)) + DigitsValue(fraction),
                 DigitCount(fraction)))
  }

  /** x * 10^e; never negative for a non-negative x. */
  function Scale(x: real, e: int): (r: real)
    ensures x >= 0.0 ==> r >= 0.0
  {
    if e >= 0 then x * Pow10(e) as real else x / Pow10(-e) as real
  }

  /** An unsigned float literal: a mantissa, then optionally an exponent mark and
      a signed exponent. Never negative. */
  function UnsignedFloat(body: string): (r: Option<real>)
    ensures r.Some? ==> r.value >= 0.0
  {
    var e := ExponentMark(body);
    var mantissa := ParseMantissa(body[..e]);
    var exponent := if e == |body| then Some(0) else ParseExponent(body[e + 1..]);
    if mantissa.None? || exponent.None? then None
    else Some(Scale(mantissa.value.0 as real, exponent.value - mantissa.value.1))
  }

  /** `float(s)` on a `str`, as an exact rational: None where Python raises
      ValueError. Only a leading minus sign makes the value negative. */
  function ParseFloat(s: string): (r: Option<real>)
    ensures r.Some? && r.value < 0.0 ==> |NumberStrip(s)| > 0 && NumberStrip(s)[0] == '-'
  {
    var t := NumberStrip(s);
    if |t| > 0 && (t[0] == '+' || t[0] == '-') then
      match UnsignedFloat(t[1..])
      case Some(x) => Some(if t[0] == '-' then -x else x)
      case None => None
    else UnsignedFloat(t)
  }

  /** A mantissa Python accepts holds at least one digit. */
  lemma MantissaHasDigit(t: string)
    requires ParseMantissa(t).Some?
    ensures exists k :: 0 <= k < |t| && IsDigit(t[k])
  {
    var p := FirstIndex(t, '.');
    if p == |t| {
      assert IsDigit(t[0]);
    } else if p > 0 {
      assert IsDigit(t[..p][0]);
    } else {
      assert IsDigit(t[p + 1..][0]);
    }
  }

  /** Whatever `float()` accepts holds a digit: "", "abc", ".", "e5" are all refused. */
  lemma ParseFloatNeedsDigit(s: string)
    ensures ParseFloat(s).Some? ==> exists k :: 0 <= k < |NumberStrip(s)| && IsDigit(NumberStrip(s)[k])
  {
    if ParseFloat(s).None? { return; }
    var t := NumberStrip(s);
    var signed := |t| > 0 && (t[0] == '+' || t[0] == '-');
    var body := if signed then t[1..] else t;
    assert UnsignedFloat(body).Some?;
    var e := ExponentMark(body);
    MantissaHasDigit(body[..e]);
    var k :| 0 <= k < |body[..e]| && IsDigit(body[..e][k]);
    assert IsDigit(t[if signed then k + 1 else k]);
  }

  /** A run of digits is a mantissa with no fractional places. */
  lemma MantissaOfDigits(n: nat)
    ensures ParseMantissa(NatToText(n)) == Some((n, 0))
  {
    var t := NatToText(n);
    NatToTextValue(n);
    FirstIndexAbsent(t, '.');
  }

  /** Text made of digits and points holds no exponent mark. */
  lemma NoExponentMark(t: string)
    requires forall k :: 0 <= k < |t| ==> IsDigit(t[k]) || t[k] == '.'
    ensures ExponentMark(t) == |t|
  {
    var low := Lower(t);
    assert forall k :: 0 <= k < |low| ==> low[k] == t[k];
    FirstIndexAbsent(low, 'e');
  }

  /** A literal with no exponent is worth its mantissa. */
  lemma UnsignedOfMantissa(t: string, digits: nat, places: nat)
    requires ExponentMark(t) == |t| && ParseMantissa(t) == Some((digits, places))
    ensures UnsignedFloat(t) == Some(Scale(digits as real, 0 - places))
  {
    assert t[..|t|] == t;
  }

  /** `float()` of text that starts and ends with a digit and has no exponent is
      the value of its mantissa. */
  lemma ParseFloatUnsigned(t: string, digits: nat, places: nat)
    requires t != [] && IsDigit(t[0]) && IsDigit(t[|t| - 1])
    requires ExponentMark(t) == |t| && ParseMantissa(t) == Some((digits, places))
    ensures ParseFloat(t) == Some(Scale(digits as real, 0 - places))
  {
    TrimTrimmed(NumberBlanks, t);
    assert NumberStrip(t) == t;
    UnsignedOfMantissa(t, digits, places);
  }

  /** The same text after a minus sign reads as the negated value. */
  lemma ParseFloatNegated(t: string, body: string, digits: nat, places: nat)
    requires t == "-" + body
    requires body != [] && IsDigit(body[0]) && IsDigit(body[|body| - 1])
    requires ExponentMark(body) == |body| && ParseMantissa(body) == Some((digits, places))
    ensures ParseFloat(t) == Some(-Scale(digits as real, 0 - places))
  {
    assert t[|t| - 1] == body[|body| - 1];
    TrimTrimmed(NumberBlanks, t);
    assert NumberStrip(t) == t;
    assert t[1..] == body;
    UnsignedOfMantissa(body, digits, places);
  }

  /** What `float()` reads from the digits of `d`. */
  lemma ParseFloatOfDigits(d: nat)
    ensures ParseFloat(IntToText(d)) == Some(d as real)
  {
    var t := NatToText(d);
    assert IntToText(d) == t;
    NatToTextValue(d);
    NoExponentMark(t);
    MantissaOfDigits(d);
    ParseFloatUnsigned(t, d, 0);
    assert Pow10(0) == 1;
  }

  /** What `float()` reads from a minus sign followed by the digits of `d`. */
  lemma ParseFloatOfNegative(d: nat)
    requires d > 0
    ensures ParseFloat(IntToText(-(d as int))) == Some(-(d as real))
  {
    var body := NatToText(d);
    assert IntToText(-(d as int)) == "-" + body;
    NatToTextValue(d);
    NoExponentMark(body);
    MantissaOfDigits(d);
    ParseFloatNegated("-" + body, body, d, 0);
    assert Pow10(0) == 1;
  }

  /** `float(str(i)) == i` for every int. */
  lemma ParseFloatOfText(i: int)
    ensures ParseFloat(IntToText(i)) == Some(i as real)
  {
    if i < 0 {
      ParseFloatOfNegative(-i);
    } else {
      ParseFloatOfDigits(i);
    }
  }

  /** The mantissa "w.f": all its digits, one of them after the point. */
  lemma MantissaOnePlace(w: nat, f: nat)
    requires f < 10
    ensures ParseMantissa(NatToText(w) + "." + [DigitChar(f)]) == Some((w * 10 + f, 1))
  {
    var whole := NatToText(w);
    var fraction := [DigitChar(f)];
    var t := whole + "." + fraction;
    NatToTextValue(w);
    FirstIndexAfter(whole, '.', fraction);
    assert t[..|whole|] == whole && t[|whole| + 1..] == fraction;
    assert DigitsValue(fraction) == f by {
      assert fraction[..0] == [];
    }
    assert DigitCount(fraction) == 1;
    assert Pow10(1) == 10;
  }

  /** The numeral "w.f" starts and ends with a digit and has no exponent mark. */
  lemma OnePlaceShape(w: nat, f: nat, t: string)
    requires f < 10 && t == NatToText(w) + "." + [DigitChar(f)]
    ensures IsDigit(t[0]) && IsDigit(t[|t| - 1]) && ExponentMark(t) == |t|
  {
    NatToTextValue(w);
    assert t[0] == NatToText(w)[0] && t[|t| - 1] == DigitChar(f);
    assert forall k :: 0 <= k < |t| ==> IsDigit(t[k]) || t[k] == '.';
    NoExponentMark(t);
  }

  /** Scaling by one place divides by ten. */
  lemma ScaleOnePlace(w: nat, f: nat)
    ensures Some(Scale((w * 10 + f) as real, 0 - 1)) == Some(w as real + f as real / 10.0)
  {
    assert Pow10(1) == 10;
  }

  /** One place after the point: `float("w.f")` is w + f/10. */
  lemma ParseFloatOnePlace(w: nat, f: nat)
    requires f < 10
    ensures ParseFloat(NatToText(w) + "." + [DigitChar(f)]) == Some(w as real + f as real / 10.0)
  {
    var t := NatToText(w) + "." + [DigitChar(f)];
    OnePlaceShape(w, f, t);
    MantissaOnePlace(w, f);
    ParseFloatUnsigned(t, w * 10 + f, 1);
    ScaleOnePlace(w, f);
  }

  /** `float()` of a one-digit numeral with one place. */
  lemma OnePlaceNumeral(w: nat, f: nat, text: string)
    requires w < 10 && f < 10 && text == [DigitChar(w), '.', DigitChar(f)]
    ensures ParseFloat(text) == Some(w as real + f as real / 10.0)
  {
    ParseFloatOnePlace(w, f);
    assert NatToText(w) + "." + [DigitChar(f)] == text;
  }

  /** The bounds of a rating range written as text: "4.0" reads as 4, "6.0" as 6. */
  lemma RatingTexts(lower: string, higher: string)
    requires lower == "4.0" && higher == "6.0"
    ensures ParseFloat(lower) == Some(4.0) && ParseFloat(higher) == Some(6.0)
  {
    assert lower == [DigitChar(4), '.', DigitChar(0)];
    assert higher == [DigitChar(6), '.', DigitChar(0)];
    OnePlaceNumeral(4, 0, lower);
    OnePlaceNumeral(6, 0, higher);
  }
}
