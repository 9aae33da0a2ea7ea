/** C++ integer and floating-point conversion semantics used by the timing code.
    Dafny's `/` and `%` are Euclidean; C++ truncates toward zero, and a cast of a
    `double` to an integer type truncates toward zero as well. */
module CppArith {

  const TWO_32: int := 0x1_0000_0000

  /** A value of a C++ `quint32` / `DWORD`. */
  type uint32 = x: int | 0 <= x < TWO_32

  /** C++ `a / b` for a positive divisor: the quotient truncated toward zero,
      the largest multiple of `b` not above a non-negative `a` and the
      smallest not below a negative one. */
  function TruncDiv(a: int, b: int): (q: int)
    requires b > 0
    ensures a >= 0 ==> 0 <= q && b * q <= a < b * q + b
    ensures a < 0 ==> q <= 0 && b * q - b < a <= b * q
  {
    if a >= 0 then
      a / b
    else
      var k := (-a) / b;
      assert b * k <= -a < b * k + b;
      assert b * -k == -(b * k);
      -k
  }

  /** C++ `a % b` for a positive divisor: the remainder takes the sign of `a`,
      and `(a / b) * b + a % b == a` holds as the C++ standard requires. */
  function TruncMod(a: int, b: int): (r: int)
    requires b > 0
    ensures b * TruncDiv(a, b) + r == a
    ensures a >= 0 ==> 0 <= r < b
    ensures a < 0 ==> -b < r <= 0
  {
    a - b * TruncDiv(a, b)
  }

  /** C++ conversion of a `double` to an integer type: truncation toward zero. */
  function TruncReal(x: real): (r: int)
    ensures x >= 0.0 ==> 0 <= r && r as real <= x < r as real + 1.0
    ensures x < 0.0 ==> r <= 0 && r as real - 1.0 < x <= r as real
  {
    if x >= 0.0 then x.Floor else -((-x).Floor)
  }

  /** `quint64(x + 0.5)` for a non-negative `x`: rounding half up. */
  function RoundHalfUp(x: real): (r: int)
    requires x >= 0.0
    ensures 0 <= r
    ensures x - 0.5 < r as real <= x + 0.5
  {
    TruncReal(x + 0.5)
  }

  function Abs(x: int): (r: nat)
    ensures r == x || r == -x
  {
    if x < 0 then -x else x
  }

  function Max(a: int, b: int): (r: int)
    ensures r >= a && r >= b && (r == a || r == b)
  {
    if a < b then b else a
  }

  /** Multiplying both sides of `a <= b` by a non-negative real keeps the order. */
  lemma MulLe(a: real, b: real, c: real)
    requires a <= b && c >= 0.0
    ensures a * c <= b * c
  {
  }

  lemma MulLt(a: real, b: real, c: real)
    requires a < b && c > 0.0
    ensures a * c < b * c
  {
  }

  /** Comparing a quotient by a positive real with `b` is comparing the
      dividend with `b` times the divisor. */
  lemma DivBelow(a: real, b: real, c: real)
    requires c > 0.0
    ensures a / c < b <==> a < b * c
  {
    var q := a / c;
    assert q * c == a;
    if q < b {
      MulLt(q, b, c);
    } else {
      MulLe(b, q, c);
    }
  }

  lemma DivAbove(a: real, b: real, c: real)
    requires c > 0.0
    ensures a / c > b <==> a > b * c
  {
    var q := a / c;
    assert q * c == a;
    if b < q {
      MulLt(b, q, c);
    } else {
      MulLe(q, b, c);
    }
  }
}
