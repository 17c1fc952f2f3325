/**
 * Java's 32-bit `int`: wrap-around arithmetic, division that truncates toward
 * zero and throws on a zero divisor, and the decimal text that
 * `String.valueOf(int)` prints and `Integer.parseInt` reads. Also the text of
 * Java booleans (`String.valueOf(boolean)`, `Boolean.parseBoolean`).
 */
module JavaInt {
  import opened Wrappers

  const INT_MIN: int := -0x8000_0000
  const INT_MAX: int := 0x7FFF_FFFF
  const TWO_32: int := 0x1_0000_0000

  predicate IsInt32(x: int) { INT_MIN <= x <= INT_MAX }

  type int32 = x: int | IsInt32(x)

  /** Reduction modulo 2^32 into the signed range, as the JVM does on overflow. */
  function Wrap(x: int): (r: int32)
    ensures (x - r) % TWO_32 == 0
    ensures IsInt32(x) ==> r == x
  {
    var m := (x - INT_MIN) % TWO_32;
    assert IsInt32(x) ==> m == x - INT_MIN;
    m + INT_MIN
  }

  function Add(a: int32, b: int32): int32 { Wrap(a + b) }

  function Sub(a: int32, b: int32): int32 { Wrap(a - b) }

  function Mul(a: int32, b: int32): int32 { Wrap(a * b) }

  function Abs(x: int): nat { if x < 0 then -x else x }

  /** Integer division rounding toward zero (Java, C), not Dafny's Euclidean `/`. */
  function TruncDiv(a: int, b: int): int
    requires b != 0
  {
    if (a < 0) != (b < 0) then -(Abs(a) / Abs(b)) else Abs(a) / Abs(b)
  }

  datatype ArithError = DivisionByZero

  /** `a / b` on Java ints: throws on zero, and `INT_MIN / -1` overflows back to `INT_MIN`. */
  function Div(a: int32, b: int32): Result<int32, ArithError> {
    if b == 0 then Failure(DivisionByZero) else Success(Wrap(TruncDiv(a, b)))
  }

  /** The quotient rounds toward zero: the remainder is smaller than the divisor and has the dividend's sign. */
  lemma TruncDivRemainder(a: int, b: int)
    requires b != 0
    ensures var r := a - TruncDiv(a, b) * b;
      Abs(r) < Abs(b) && (r == 0 || ((r < 0) == (a < 0)))
  {
    var q, m := Abs(a) / Abs(b), Abs(a) % Abs(b);
    assert Abs(a) == q * Abs(b) + m;
    if a < 0 && b < 0 {
      assert a - TruncDiv(a, b) * b == -m;
    } else if a < 0 {
      assert a - TruncDiv(a, b) * b == -m;
    } else if b < 0 {
      assert a - TruncDiv(a, b) * b == m;
    } else {
      assert a - TruncDiv(a, b) * b == m;
    }
  }

  lemma DivOverflow()
    ensures Div(INT_MIN, -1) == Success(INT_MIN)
  {
    assert TruncDiv(INT_MIN, -1) == 0x8000_0000;
  }

  lemma DivTruncatesTowardZero()
    ensures Div(-7, 2) == Success(-3) && Div(7, -2) == Success(-3) && Div(-7, -2) == Success(3)
  {
  }

  // ---- decimal text ----

  predicate IsDigit(c: char) { '0' <= c <= '9' }

  predicate AllDigits(s: string) { forall i :: 0 <= i < |s| ==> IsDigit(s[i]) }

  function DigitChar(d: nat): (c: char)
    requires d < 10
    ensures IsDigit(c)
  {
    (48 + d) as char
  }

  function DigitValue(c: char): nat
    requires IsDigit(c)
  {
    c as int - 48
  }

  /** Decimal digits of `n`, most significant first, without leading zeros. */
  function NatToDigits(n: nat): (s: string)
    ensures |s| >= 1 && AllDigits(s)
    ensures n >= 10 ==> s[0] != '0'
  {
    if n < 10 then [DigitChar(n)] else NatToDigits(n / 10) + [DigitChar(n % 10)]
  }

  function DigitsValue(s: string): nat
    requires AllDigits(s)
  {
    if |s| == 0 then 0 else DigitsValue(s[..|s| - 1]) * 10 + DigitValue(s[|s| - 1])
  }

  /** `String.valueOf(int)`: a minus sign for negatives, then the digits. */
  function IntToString(x: int): string {
    if x < 0 then "-" + NatToDigits(-x) else NatToDigits(x)
  }

  /**
   * `Integer.parseInt`: an optional sign, at least one ASCII digit, and a value
   * in the int range; anything else throws NumberFormatException (here None).
   */
  function ParseInt(s: string): Option<int32> {
    if |s| == 0 then None
    else if s[0] == '-' || s[0] == '+' then
      if |s| == 1 || !AllDigits(s[1..]) then None
      else
        var v: int := if s[0] == '-' then 0 - DigitsValue(s[1..]) as int else DigitsValue(s[1..]);
        if IsInt32(v) then Some(v) else None
    else if !AllDigits(s) then None
    else if IsInt32(DigitsValue(s)) then Some(DigitsValue(s)) else None
  }

  lemma {:induction false} DigitsRoundTrip(n: nat)
    ensures DigitsValue(NatToDigits(n)) == n
  {
    if n >= 10 {
      var s := NatToDigits(n);
      assert s[..|s| - 1] == NatToDigits(n / 10);
      DigitsRoundTrip(n / 10);
    }
  }

  /** Reading back what `String.valueOf` printed gives the same int. */
  lemma ParseIntToString(x: int32)
    ensures ParseInt(IntToString(x)) == Some(x)
  {
    DigitsRoundTrip(Abs(x));
    var s := IntToString(x);
    if x < 0 {
      assert s[1..] == NatToDigits(Abs(x));
    } else {
      assert s == NatToDigits(x);
      assert s[0] != '-' && s[0] != '+';
    }
  }

  lemma {:induction false} NatToDigitsInjective(a: nat, b: nat)
    requires NatToDigits(a) == NatToDigits(b)
    ensures a == b
  {
    DigitsRoundTrip(a);
    DigitsRoundTrip(b);
  }

  // ---- boolean text ----

  function BoolToString(b: bool): string { if b then "true" else "false" }

  function LowerAscii(c: char): char {
    if 'A' <= c <= 'Z' then (c as int + 32) as char else c
  }

  /** `Boolean.parseBoolean`: true exactly for "true" in any letter case. */
  predicate ParseBoolean(s: string) {
    |s| == 4 && LowerAscii(s[0]) == 't' && LowerAscii(s[1]) == 'r'
      && LowerAscii(s[2]) == 'u' && LowerAscii(s[3]) == 'e'
  }

  lemma ParseBooleanToString(b: bool)
    ensures ParseBoolean(BoolToString(b)) == b
  {
  }
}
