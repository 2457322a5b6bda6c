/** The JavaScript values that reach the request handlers (parsed JSON bodies
    and query strings) and the coercions the handlers apply to them:
    truthiness, `Number(v)` / `isNaN`, and the relational operators. */
module Js {
  import opened Wrappers
  import opened Text
  import Numeric

  datatype Value = Undefined | Null | Bool(b: bool) | Num(n: real) | NaN | Str(s: string)

  /** `v === undefined || v === null`. */
  predicate IsNullish(v: Value) {
    v.Undefined? || v.Null?
  }

  /** `!!v`. */
  predicate Truthy(v: Value) {
    match v
    case Undefined => false
    case Null => false
    case Bool(b) => b
    case Num(n) => n != 0.0
    case NaN => false
    case Str(s) => |s| > 0
  }

  function Pow10(k: nat): (r: real)
    ensures r >= 1.0
  {
    if k == 0 then 1.0 else 10.0 * Pow10(k - 1)
  }

  // ---------------------------------------------------------------------------
  // `Number(s)` for a string (the StringNumericLiteral grammar of section
  // 7.1.4.1 of ECMA-262)

  /** The value of a hexadecimal digit, either case; `None` for any other
      character. */
  function RadixDigit(c: char): (r: Option<nat>)
    ensures r.Some? ==> r.value < 16
    ensures r.Some? && r.value < 10 <==> IsDigit(c)
    ensures IsDigit(c) ==> r == Some(DigitValue(c))
  {
    if IsDigit(c) then Some(DigitValue(c))
    else if 'a' <= c <= 'f' then Some(c as int - 'a' as int + 10)
    else if 'A' <= c <= 'F' then Some(c as int - 'A' as int + 10)
    else None
  }

  predicate AllRadixDigits(s: string, radix: nat) {
    forall i :: 0 <= i < |s| ==> RadixDigit(s[i]).Some? && RadixDigit(s[i]).value < radix
  }

  /** Digits in base `radix`, most significant first. */
  function RadixValue(s: string, radix: nat): nat
    requires AllRadixDigits(s, radix)
    decreases |s|
  {
    if |s| == 0 then 0 else RadixValue(s[..|s| - 1], radix) * radix + RadixDigit(s[|s| - 1]).value
  }

  /** The base a `0x`, `0o` or `0b` prefix (either case) announces; 0 when
      `t` has none. */
  function RadixOf(t: string): (r: nat)
    ensures r == 0 || r == 2 || r == 8 || r == 16
    ensures r != 0 ==> |t| >= 2 && t[0] == '0' && !IsDigit(t[1])
  {
    if |t| < 2 || t[0] != '0' then 0
    else if t[1] == 'x' || t[1] == 'X' then 16
    else if t[1] == 'o' || t[1] == 'O' then 8
    else if t[1] == 'b' || t[1] == 'B' then 2
    else 0
  }

  /** `m * 10^e` for an integer exponent of either sign. */
  function ScaleByPowerOf10(m: real, e: int): (r: real)
    ensures m >= 0.0 ==> r >= 0.0
    ensures m == 0.0 ==> r == 0.0
    ensures e >= 0 ==> r == m * Pow10(e)
    ensures e < 0 ==> r * Pow10(-e) == m
  {
    if e >= 0 then m * Pow10(e) else m / Pow10(-e)
  }

  /** The digits after `e`/`E`, with an optional sign. */
  function ExponentValue(t: string): (r: Option<int>)
    ensures AllDigits(t) && |t| > 0 ==> r == Some(DigitsValue(t) as int)
  {
    var signed := |t| > 0 && (t[0] == '+' || t[0] == '-');
    var digits := if signed then t[1..] else t;
    if |digits| > 0 && AllDigits(digits) then
      Some(if signed && t[0] == '-' then -(DigitsValue(digits) as int) else DigitsValue(digits) as int)
    else None
  }

  /** Digits with at most one point and at least one digit: `12`, `12.5`,
      `.5` or `12.`. */
  function Mantissa(t: string): (r: Option<real>)
    ensures r.Some? ==> r.value >= 0.0
    ensures AllDigits(t) && |t| > 0 ==> r == Some(DigitsValue(t) as real)
  {
    var i := IndexOf(t, '.');
    var whole := t[..i];
    var frac := if i < |t| then t[i + 1..] else "";
    assert AllDigits(t) ==> i == |t| && whole == t && frac == "";
    if AllDigits(whole) && AllDigits(frac) && |whole| + |frac| > 0 then
      Some(DigitsValue(whole) as real + DigitsValue(frac) as real / Pow10(|frac|))
    else None
  }

  /** First position of an exponent marker `e` or `E`, or `|t|`. */
  function ExponentAt(t: string): (i: nat)
    ensures i <= |t|
    ensures forall k :: 0 <= k < i ==> t[k] != 'e' && t[k] != 'E'
    ensures i < |t| ==> t[i] == 'e' || t[i] == 'E'
  {
    var a, b := IndexOf(t, 'e'), IndexOf(t, 'E');
    if a <= b then a else b
  }

  /** An unsigned decimal literal: a mantissa, then optionally `e` or `E` and
      a signed exponent (`1e3`, `2.5E-2`); `None` when `t` is not one. */
  function UnsignedDecimal(t: string): (r: Option<real>)
    ensures r.Some? ==> r.value >= 0.0
    ensures AllDigits(t) && |t| > 0 ==> r == Some(DigitsValue(t) as real)
  {
    var k := ExponentAt(t);
    if k == |t| then
      assert t[..k] == t;
      Mantissa(t)
    else
      match (Mantissa(t[..k]), ExponentValue(t[k + 1..]))
      case (Some(m), Some(e)) => Some(ScaleByPowerOf10(m, e))
      case _ => None
  }

  /** `Number(s)` for a string. Surrounding white space is ignored and the
      empty string is 0. Otherwise it reads a `0x`/`0o`/`0b` integer
      (unsigned), or an optionally signed `Infinity`, or an optionally signed
      decimal literal; anything else is `NaN`. */
  function StringToNumber(s: string): Numeric.Ext
  {
    var t := Trim(s);
    if |t| == 0 then Numeric.Finite(0.0)
    else if RadixOf(t) != 0 then
      var digits := t[2..];
      if |digits| > 0 && AllRadixDigits(digits, RadixOf(t)) then
        Numeric.Finite(RadixValue(digits, RadixOf(t)) as real)
      else Numeric.NaN
    else
      var negative := t[0] == '-';
      var body := if t[0] == '-' || t[0] == '+' then t[1..] else t;
      if body == "Infinity" then (if negative then Numeric.NegInf else Numeric.PosInf)
      else
        match UnsignedDecimal(body)
        case Some(x) => Numeric.Finite(if negative then -x else x)
        case None => Numeric.NaN
  }

  /** What `Number(s)` gives for the empty string, the infinities, plain
      digit strings and radix literals. */
  lemma NumberCases(s: string)
    ensures |Trim(s)| == 0 ==> StringToNumber(s) == Numeric.Finite(0.0)
    ensures StringToNumber(s).PosInf? <==> Trim(s) == "Infinity" || Trim(s) == "+Infinity"
    ensures StringToNumber(s).NegInf? <==> Trim(s) == "-Infinity"
    ensures AllDigits(Trim(s)) ==> StringToNumber(s) == Numeric.Finite(DigitsValue(Trim(s)) as real)
    ensures RadixOf(Trim(s)) != 0 ==>
              (StringToNumber(s).Finite? <==>
                 |Trim(s)| > 2 && AllRadixDigits(Trim(s)[2..], RadixOf(Trim(s))))
  {
  }

  /** A trimmed string that starts with a digit other than a radix prefix is
      read as an unsigned decimal literal. */
  lemma UnsignedLiteral(t: string, x: real)
    requires |t| > 0 && IsDigit(t[0]) && Trim(t) == t && RadixOf(t) == 0
    requires UnsignedDecimal(t) == Some(x)
    ensures StringToNumber(t) == Numeric.Finite(x)
  {
  }

  /** A literal with an exponent is its mantissa scaled by it. */
  lemma WithExponent(t: string, k: nat, m: real, e: int)
    requires k < |t| && ExponentAt(t) == k
    requires Mantissa(t[..k]) == Some(m) && ExponentValue(t[k + 1..]) == Some(e)
    ensures UnsignedDecimal(t) == Some(ScaleByPowerOf10(m, e))
  {
  }

  /** Reading back a rendered integer gives the integer: `Number(String(n))`
      is `n`. */
  lemma IntRoundTrip(n: int)
    ensures StringToNumber(IntToString(n)) == Numeric.Finite(n as real)
  {
    var m := if n < 0 then -n else n;
    var digits := NatToString(m);
    assert DigitsValue(digits) == m by {
      DigitsValueNatToString(m);
    }
    if n < 0 {
      var t := "-" + digits;
      assert t[0] == '-' && t[1..] == digits;
      NegativeDigits(t);
    } else {
      NonNegativeDigits(digits);
    }
  }

  /** Decimal digits alone read as their value. */
  lemma NonNegativeDigits(t: string)
    requires |t| > 0 && AllDigits(t)
    ensures StringToNumber(t) == Numeric.Finite(DigitsValue(t) as real)
  {
    assert Trim(t) == t by {
      TrimKeeps(t);
    }
  }

  /** A minus sign and decimal digits read as the negated value. */
  lemma NegativeDigits(t: string)
    requires |t| > 1 && t[0] == '-' && AllDigits(t[1..])
    ensures StringToNumber(t) == Numeric.Finite(-(DigitsValue(t[1..]) as real))
  {
    var x := DigitsValue(t[1..]) as real;
    assert Trim(t) == t && IsDigit(t[1]) && UnsignedDecimal(t[1..]) == Some(x) by {
      assert t[|t| - 1] == t[1..][|t| - 2] && t[1] == t[1..][0];
      TrimKeeps(t);
    }
    SignedLiteral(t, x);
  }

  /** A trimmed minus sign followed by an unsigned decimal literal reads as
      the negated literal. */
  lemma SignedLiteral(t: string, x: real)
    requires |t| > 1 && t[0] == '-' && Trim(t) == t && IsDigit(t[1])
    requires UnsignedDecimal(t[1..]) == Some(x)
    ensures StringToNumber(t) == Numeric.Finite(-x)
  {
    assert t[1..] != "Infinity" by {
      assert t[1..][0] == t[1];
    }
  }

  /** Decimal digits, `e` and exponent digits: the mantissa times that power
      of ten (`1e3` is 1000). */
  lemma PositiveExponent(t: string, k: nat)
    requires 0 < k < |t| - 1 && t[k] == 'e'
    requires AllDigits(t[..k]) && AllDigits(t[k + 1..])
    ensures StringToNumber(t) == Numeric.Finite(ScaleByPowerOf10(DigitsValue(t[..k]) as real, DigitsValue(t[k + 1..])))
  {
    var m, x := DigitsValue(t[..k]) as real, DigitsValue(t[k + 1..]);
    assert !IsSpace(t[|t| - 1]) by {
      assert t[|t| - 1] == t[k + 1..][|t| - k - 2];
    }
    MarkedAt(t, k);
    assert UnsignedDecimal(t) == Some(ScaleByPowerOf10(m, x)) by {
      WithExponent(t, k, m, x);
    }
    UnsignedLiteral(t, ScaleByPowerOf10(m, x));
  }

  /** With `e-`, the mantissa is divided by that power of ten (`25e-2` is
      0.25). */
  lemma NegativeExponent(t: string, k: nat)
    requires 0 < k < |t| - 2 && t[k] == 'e' && t[k + 1] == '-'
    requires AllDigits(t[..k]) && AllDigits(t[k + 2..])
    ensures StringToNumber(t) == Numeric.Finite(ScaleByPowerOf10(DigitsValue(t[..k]) as real, -(DigitsValue(t[k + 2..]) as int)))
  {
    var m: real, x: int := DigitsValue(t[..k]) as real, DigitsValue(t[k + 2..]);
    assert !IsSpace(t[|t| - 1]) by {
      assert t[|t| - 1] == t[k + 2..][|t| - k - 3];
    }
    MarkedAt(t, k);
    assert ExponentValue(t[k + 1..]) == Some(-x) by {
      var u := t[k + 1..];
      assert u[0] == '-' && u[1..] == t[k + 2..] && |u[1..]| > 0;
    }
    assert UnsignedDecimal(t) == Some(ScaleByPowerOf10(m, -x)) by {
      WithExponent(t, k, m, -x);
    }
    UnsignedLiteral(t, ScaleByPowerOf10(m, -x));
  }

  /** Decimal digits up to an exponent marker at `k`, and no white space at
      the end: already trimmed, no radix prefix, and `k` is the first
      marker. */
  lemma MarkedAt(t: string, k: nat)
    requires 0 < k < |t| && t[k] == 'e' && AllDigits(t[..k]) && !IsSpace(t[|t| - 1])
    ensures Trim(t) == t && RadixOf(t) == 0 && IsDigit(t[0]) && ExponentAt(t) == k
  {
    assert t[0] == t[..k][0];
    assert Trim(t) == t by {
      TrimKeeps(t);
    }
    assert RadixOf(t) == 0 by {
      if k > 1 {
        assert t[1] == t[..k][1];
      }
    }
    assert ExponentAt(t) == k by {
      forall i | 0 <= i < k ensures t[i] != 'e' && t[i] != 'E' {
        assert t[i] == t[..k][i];
      }
    }
  }

  /** An exponent marker needs digits after it. */
  lemma DanglingExponentIsNaN(t: string)
    requires |t| > 1 && t[|t| - 1] == 'e' && AllDigits(t[..|t| - 1])
    ensures StringToNumber(t).NaN?
  {
    var k := |t| - 1;
    MarkedAt(t, k);
    assert t[k + 1..] == "";
  }

  /** A `0x` prefix reads hexadecimal digits of either case (`0x1F` is 31). */
  lemma HexLiteral(t: string)
    requires |t| > 2 && t[0] == '0' && (t[1] == 'x' || t[1] == 'X') && AllRadixDigits(t[2..], 16)
    ensures StringToNumber(t) == Numeric.Finite(RadixValue(t[2..], 16) as real)
  {
    assert Trim(t) == t by {
      assert t[|t| - 1] == t[2..][|t| - 3];
      TrimKeeps(t);
    }
  }

  /** A sign before a radix prefix is not allowed: `-0x10` is `NaN`. */
  lemma SignedHexIsNaN(t: string)
    requires |t| > 3 && t[0] == '-' && t[1] == '0' && t[2] == 'x' && !IsSpace(t[|t| - 1])
    ensures StringToNumber(t).NaN?
  {
    assert Trim(t) == t by {
      TrimKeeps(t);
    }
    var body := t[1..];
    assert body[0] == '0' && body[1] == 'x';
    var k := ExponentAt(body);
    assert k >= 2;
    var m := body[..k];
    assert m[1] == 'x';
    assert Mantissa(m).None? by {
      var i := IndexOf(m, '.');
      assert i >= 2;
      assert m[..i][1] == 'x';
      assert !AllDigits(m[..i]);
    }
    assert UnsignedDecimal(body).None? by {
      if k == |body| {
        assert m == body;
      }
    }
  }

  /** `Number(v)`. */
  function ToNumber(v: Value): (r: Numeric.Ext)
    ensures v.Num? ==> r == Numeric.Finite(v.n)
    ensures v.Str? ==> r == StringToNumber(v.s)
    ensures IsNullish(v) ==> (r.NaN? <==> v.Undefined?)
    ensures r.PosInf? || r.NegInf? ==> v.Str?
  {
    match v
    case Undefined => Numeric.NaN
    case Null => Numeric.Finite(0.0)
    case Bool(b) => Numeric.Finite(if b then 1.0 else 0.0)
    case Num(n) => Numeric.Finite(n)
    case NaN => Numeric.NaN
    case Str(s) => StringToNumber(s)
  }

  // The global `isNaN(v)`, `v < x` and `v > x` for a number literal `x`, and
  // `Number.isInteger(Number(v))` all look at `Number(v)` only; they are
  // stated on that number.

  /** `n < x` for a number literal `x`; false for `NaN`. */
  predicate NumberBelow(n: Numeric.Ext, x: real) {
    n.NegInf? || (n.Finite? && n.v < x)
  }

  /** `n > x` for a number literal `x`; false for `NaN`. */
  predicate NumberAbove(n: Numeric.Ext, x: real) {
    n.PosInf? || (n.Finite? && n.v > x)
  }

  /** `Number.isInteger(n)`: finite and whole. */
  predicate IsInteger(n: Numeric.Ext) {
    n.Finite? && n.v == n.v.Floor as real
  }

  /** `x > y` on two numbers; false when either is `NaN`. */
  predicate NumberGreater(x: Numeric.Ext, y: Numeric.Ext) {
    match (x, y)
    case (Finite(a), Finite(b)) => a > b
    case (PosInf, Finite(_)) => true
    case (PosInf, NegInf) => true
    case (Finite(_), NegInf) => true
    case _ => false
  }

  /** `a > b`: two strings compare by code units, anything else as numbers,
      and a `NaN` on either side makes the comparison false. */
  predicate GreaterThan(a: Value, b: Value) {
    if a.Str? && b.Str? then StrLess(b.s, a.s)
    else NumberGreater(ToNumber(a), ToNumber(b))
  }
}
