/**
 * The few pieces of Java semantics the watermask code relies on, written out
 * explicitly: truncating casts and division, byte wrap-around, decimal
 * formatting, `Integer.parseInt` and `String.substring`, and the exceptions
 * they raise.
 */
module JavaLang {

  /** The exception classes thrown by the modelled code. */
  datatype Exception =
    | IllegalArgument
    | IllegalState
    | NumberFormat
    | IndexOutOfBounds
    | Arithmetic
    | IO
    | Operator
    | Runtime
    | NullPointer

  /** A value, or the exception that was thrown instead. */
  datatype Result<T> = Ok(value: T) | Err(error: Exception)
  {
    predicate IsFailure() { Err? }
    function PropagateFailure<U>(): Result<U> requires Err? { Err(error) }
    function Extract(): T requires Ok? { value }
  }

  datatype Option<T> = None | Some(value: T)

  const INT_MIN: int := -0x8000_0000
  const INT_MAX: int := 0x7fff_ffff

  predicate InIntRange(v: int) { INT_MIN <= v <= INT_MAX }

  // ---------------------------------------------------------------------------
  // Numeric conversions
  // ---------------------------------------------------------------------------

  /** Java's `(int)` cast of a floating-point value: rounds toward zero. */
  function Trunc(x: real): (r: int)
    ensures x >= 0.0 ==> 0 <= r && r as real <= x < r as real + 1.0
    ensures x < 0.0 ==> r <= 0 && r as real - 1.0 < x <= r as real
  {
    if x >= 0.0 then x.Floor else -((-x).Floor)
  }

  /** Absolute value of an integer. */
  function Abs(v: int): (r: nat)
    ensures r == v || r == -v
  {
    if v < 0 then -v else v
  }

  /** Absolute value of a real (`Math.abs` on a double). */
  function AbsReal(x: real): (r: real)
    ensures r >= 0.0 && (r == x || r == -x)
  {
    if x < 0.0 then -x else x
  }

  /** Java's integer `/`: the quotient rounded toward zero. */
  function JavaDiv(a: int, b: int): (q: int)
    requires b != 0
    ensures a >= 0 && b > 0 ==> q == a / b
    ensures (a >= 0) == (b > 0) ==> q >= 0
    ensures (a >= 0) != (b > 0) ==> q <= 0
  {
    if a >= 0 && b > 0 then a / b
    else if a < 0 && b < 0 then (-a) / (-b)
    else if a >= 0 then -(a / (-b))
    else -((-a) / b)
  }

  /**
   * Java's `(byte)` cast of an int: keeps the low eight bits, signed; that is,
   * the value moved into [-128, 128) by whole multiples of 256.
   */
  function ToByte(v: int): (r: int)
    ensures -128 <= r < 128
    ensures -128 <= v < 128 ==> r == v
    decreases if v >= 128 then v + 1 else if v < -128 then -v else 0
  {
    if v >= 128 then ToByte(v - 256)
    else if v < -128 then ToByte(v + 256)
    else v
  }

  /** Java's `int` arithmetic wraps modulo 2^32. */
  function WrapInt(v: int): (r: int)
    ensures InIntRange(r)
    ensures InIntRange(v) ==> r == v
  {
    var low := v % 0x1_0000_0000;
    if low > INT_MAX then low - 0x1_0000_0000 else low
  }

  /** Wrapping before an addition does not change the wrapped sum. */
  lemma WrapAdd(a: int, b: int, c: int)
    requires c == a + b
    ensures WrapInt(WrapInt(a) + b) == WrapInt(c)
  {
    var m := 0x1_0000_0000;
    var k := (a - WrapInt(a)) / m;
    assert a - WrapInt(a) == k * m;
    assert WrapInt(a) + b == c - k * m;
  }

  /** Java's int `/`: truncating division whose one overflow, INT_MIN / -1, wraps. */
  function IntQuotient(a: int, b: int): (q: int)
    requires b != 0
    ensures InIntRange(q)
    ensures InIntRange(JavaDiv(a, b)) ==> q == JavaDiv(a, b)
  {
    WrapInt(JavaDiv(a, b))
  }

  /**
   * Java's `(int)` cast of the float quotient x / d of a float and an int:
   * truncation toward zero, saturating at the ends of the int range. A zero
   * divisor gives an infinity, which saturates, or NaN for 0 / 0, which
   * casts to 0.
   */
  function FloatQuotientToInt(x: real, d: int): (r: int)
    ensures InIntRange(r)
    ensures d != 0 && InIntRange(Trunc(x / (d as real))) ==> r == Trunc(x / (d as real))
    ensures d != 0 && Trunc(x / (d as real)) > INT_MAX ==> r == INT_MAX
    ensures d != 0 && Trunc(x / (d as real)) < INT_MIN ==> r == INT_MIN
    ensures d == 0 ==> (r == INT_MAX <==> x > 0.0) && (r == INT_MIN <==> x < 0.0) && (r == 0 <==> x == 0.0)
  {
    if d == 0 then (if x > 0.0 then INT_MAX else if x < 0.0 then INT_MIN else 0)
    else
      var t := Trunc(x / (d as real));
      if t > INT_MAX then INT_MAX else if t < INT_MIN then INT_MIN else t
  }

  /** The byte cast keeps the residue modulo 256, moved into [-128, 128). */
  lemma {:induction false} ToByteResidue(v: int)
    ensures ToByte(v) == (v + 128) % 256 - 128
    decreases if v >= 128 then v + 1 else if v < -128 then -v else 0
  {
    if v >= 128 {
      ToByteResidue(v - 256);
    } else if v < -128 {
      ToByteResidue(v + 256);
    }
  }

  /** The byte casts of the saturated ends of the int range. */
  lemma ToByteOfIntBounds()
    ensures ToByte(INT_MAX) == -1 && ToByte(INT_MIN) == 0
  {
    ToByteResidue(INT_MAX);
    ToByteResidue(INT_MIN);
  }

  // ---------------------------------------------------------------------------
  // Decimal digits
  // ---------------------------------------------------------------------------

  predicate IsDigit(c: char) { '0' <= c <= '9' }

  predicate AllDigits(s: string) { forall i :: 0 <= i < |s| ==> IsDigit(s[i]) }

  function DigitValue(c: char): (d: nat)
    requires IsDigit(c)
    ensures d < 10
  {
    (c as int) - ('0' as int)
  }

  function DigitChar(d: nat): (c: char)
    requires d < 10
    ensures IsDigit(c) && DigitValue(c) == d
  {
    (('0' as int) + d) as char
  }

  /** The value of a string of decimal digits, most significant first. */
  function DigitsValue(s: string): (v: nat)
    requires AllDigits(s)
  {
    if |s| == 0 then 0 else 10 * DigitsValue(s[..|s| - 1]) + DigitValue(s[|s| - 1])
  }

  /** Shortest decimal digits of a natural number (`"0"` for zero). */
  function NatDigits(n: nat): (s: string)
    ensures |s| > 0 && AllDigits(s)
    decreases n
  {
    if n < 10 then [DigitChar(n)] else NatDigits(n / 10) + [DigitChar(n % 10)]
  }

  lemma {:induction false} NatDigitsValue(n: nat)
    ensures DigitsValue(NatDigits(n)) == n
    decreases n
  {
    var s := NatDigits(n);
    if n >= 10 {
      NatDigitsValue(n / 10);
      assert s[..|s| - 1] == NatDigits(n / 10);
    }
  }

  /** `"%d"` / `String.valueOf(int)`: a leading `-` for negative values. */
  function DecimalString(n: int): (s: string)
    ensures |s| > 0
  {
    if n < 0 then "-" + NatDigits(-n) else NatDigits(n)
  }

  // ---------------------------------------------------------------------------
  // Integer.parseInt and String.substring
  // ---------------------------------------------------------------------------

  /**
   * `Integer.parseInt(s)`: an optional `+` or `-` followed by at least one
   * decimal digit, with the value in the int range; anything else throws
   * NumberFormatException.
   */
  function ParseInt(s: string): (r: Result<int>)
    ensures r.Ok? ==> InIntRange(r.value)
  {
    var neg := |s| > 0 && s[0] == '-';
    var body := if |s| > 0 && (s[0] == '-' || s[0] == '+') then s[1..] else s;
    if |body| == 0 || !AllDigits(body) then Err(NumberFormat)
    else
      var v: int := if neg then -(DigitsValue(body) as int) else DigitsValue(body);
      if InIntRange(v) then Ok(v) else Err(NumberFormat)
  }

  /** Parsing a plain string of digits gives its decimal value. */
  lemma ParseDigits(s: string)
    requires |s| > 0 && AllDigits(s) && DigitsValue(s) <= INT_MAX
    ensures ParseInt(s) == Ok(DigitsValue(s))
  {
    assert s[0] != '-' && s[0] != '+' by { assert IsDigit(s[0]); }
  }

  /** `Integer.parseInt` undoes decimal formatting of every int. */
  lemma ParseDecimalString(n: int)
    requires InIntRange(n)
    ensures ParseInt(DecimalString(n)) == Ok(n)
  {
    if n < 0 {
      var s := DecimalString(n);
      NatDigitsValue(-n);
      assert s[0] == '-' && s[1..] == NatDigits(-n);
      assert DigitsValue(s[1..]) == -n;
    } else {
      NatDigitsValue(n);
      ParseDigits(NatDigits(n));
    }
  }

  /** `s.substring(b, e)`: throws unless 0 <= b <= e <= length. */
  function Substring(s: string, b: int, e: int): (r: Result<string>)
    ensures r.Ok? <==> 0 <= b <= e <= |s|
    ensures r.Ok? ==> |r.value| == e - b && forall i :: 0 <= i < e - b ==> r.value[i] == s[b + i]
  {
    if 0 <= b <= e <= |s| then Ok(s[b..e]) else Err(IndexOutOfBounds)
  }

  /** `Integer.parseInt(s.substring(b, e))`, with either exception. */
  function ParseField(s: string, b: int, e: int): (r: Result<int>)
    ensures r.Ok? ==> 0 <= b <= e <= |s|
  {
    var sub :- Substring(s, b, e);
    ParseInt(sub)
  }

  /** A field of digits parses to its value. */
  lemma ParseDigitField(s: string, b: nat, e: nat)
    requires b < e <= |s| && AllDigits(s[b..e]) && e - b <= 3
    ensures ParseField(s, b, e) == Ok(DigitsValue(s[b..e]))
  {
    DigitsBound(s[b..e]);
    assert Pow10(1) == 10 && Pow10(2) == 100 && Pow10(3) == 1000;
    ParseDigits(s[b..e]);
  }

  lemma {:induction false} DigitsBound(s: string)
    requires AllDigits(s)
    ensures DigitsValue(s) < Pow10(|s|)
  {
    if |s| > 0 { DigitsBound(s[..|s| - 1]); }
  }

  function Pow10(k: nat): (p: nat)
    ensures p >= 1
  {
    if k == 0 then 1 else 10 * Pow10(k - 1)
  }
}
