/** Fixed-width C integer types and C's truncating division, shared by every module. */
module CInt {

  type byte = x: int | 0 <= x < 0x100
  type int16 = x: int | -0x8000 <= x < 0x8000
  type uint16 = x: int | 0 <= x < 0x1_0000
  type int32 = x: int | -0x8000_0000 <= x < 0x8000_0000
  type uint32 = x: int | 0 <= x < 0x1_0000_0000

  const UINT32_MODULUS: int := 0x1_0000_0000

  datatype Option<+T> = None | Some(value: T)

  datatype Result<+T, +E> = Success(value: T) | Failure(error: E)

  function Abs(x: int): nat
  {
    if x < 0 then -x else x
  }

  function Min(a: int, b: int): int
  {
    if a <= b then a else b
  }

  /** C's `a / b`: the quotient truncated toward zero (Dafny's `/` is Euclidean). */
  function CDiv(a: int, b: int): (q: int)
    requires b > 0
    ensures Abs(q) * b <= Abs(a) < (Abs(q) + 1) * b
    ensures a >= 0 ==> q >= 0
    ensures a <= 0 ==> q <= 0
  {
    if a >= 0 then
      FloorDivBounds(a, b);
      a / b
    else
      FloorDivBounds(-a, b);
      -((-a) / b)
  }

  /** Floor division of a natural number brackets it between consecutive multiples. */
  lemma FloorDivBounds(n: nat, b: int)
    requires b > 0
    ensures n / b >= 0
    ensures (n / b) * b <= n < (n / b + 1) * b
  {
    var q, r := n / b, n % b;
    assert n == b * q + r && 0 <= r < b;
    assert (q + 1) * b == q * b + b;
  }

  /** C's `a % b`: the remainder takes the sign of the dividend. */
  function CMod(a: int, b: int): (m: int)
    requires b > 0
    ensures a == b * CDiv(a, b) + m
    ensures Abs(m) < b
    ensures a >= 0 ==> m >= 0
    ensures a <= 0 ==> m <= 0
  {
    a - b * CDiv(a, b)
  }

  /** Truncating division commutes with negation, unlike Euclidean division. */
  lemma CDivOdd(a: int, b: int)
    requires b > 0
    ensures CDiv(-a, b) == -CDiv(a, b)
  {
  }

  /** Floor division by a positive divisor is monotone. */
  lemma DivMonotone(x: int, y: int, d: int)
    requires d > 0 && x <= y
    ensures x / d <= y / d
  {
    var qx, qy := x / d, y / d;
    assert d * qx <= x;
    assert y < d * (qy + 1);
    assert d * qx < d * (qy + 1);
  }

  /** Floor division recovers a factor that was multiplied in. */
  lemma DivOfMultiple(k: int, d: int)
    requires d > 0
    ensures (d * k) / d == k
  {
    var q := (d * k) / d;
    assert d * q <= d * k;
    assert d * k < d * (q + 1);
  }

  /**
   * Scaling a proper fraction `num / den` by `scale` with floor division gives
   * a value between 0 and `scale`, pinned down by the floor inequalities.
   */
  lemma ScaledFraction(num: int, den: int, scale: int)
    requires den > 0 && 0 <= num <= den && scale >= 0
    ensures 0 <= num * scale / den <= scale
    ensures (num * scale / den) * den <= num * scale < (num * scale / den + 1) * den
  {
    var n := num * scale;
    assert 0 <= n <= den * scale;
    DivMonotone(0, n, den);
    DivMonotone(n, den * scale, den);
    DivOfMultiple(scale, den);
  }
}
