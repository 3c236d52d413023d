/**
  Go's fixed-width integers and the few operators ratelimitedworker.go applies to them.
  Dafny's integers are unbounded and its `/` is Euclidean, so every wrap-around, truncating
  conversion and truncating division of the Go code is written out here.
 */
module GoInt {

  const UINT32_MODULUS: int := 0x1_0000_0000

  /** Go's `uint32`. */
  type uint32 = x: int | 0 <= x < 0x1_0000_0000

  /** Go's `int` on a 64-bit platform. */
  type int64 = x: int | -0x8000_0000_0000_0000 <= x < 0x8000_0000_0000_0000

  /** The conversion `uint32(x)`: keeps the low 32 bits of the two's-complement value. */
  function ToUint32(x: int): (r: uint32)
    ensures 0 <= x < UINT32_MODULUS ==> r == x
    ensures -UINT32_MODULUS <= x < 0 ==> r == x + UINT32_MODULUS
    ensures exists k :: x == r + k * UINT32_MODULUS
  {
    var r := x % UINT32_MODULUS;
    assert x == r + (x / UINT32_MODULUS) * UINT32_MODULUS;
    r
  }

  /** `a + b` on `uint32` (also `atomic.AddUint32`): wraps past 2^32 - 1. */
  function AddU32(a: uint32, b: uint32): (r: uint32)
    ensures a + b < UINT32_MODULUS ==> r == a + b
    ensures a + b >= UINT32_MODULUS ==> r == a + b - UINT32_MODULUS
  {
    (a + b) % UINT32_MODULUS
  }

  /** `a - b` on `uint32`: wraps below 0. */
  function SubU32(a: uint32, b: uint32): (r: uint32)
    ensures b <= a ==> r == a - b
    ensures a < b ==> r == a - b + UINT32_MODULUS
  {
    (a - b) % UINT32_MODULUS
  }

  /** `a / b` on `uint32`; Go panics when `b` is 0. */
  function DivU32(a: uint32, b: uint32): (r: uint32)
    requires b != 0
    ensures r * b <= a < r * b + b
  {
    a / b
  }

  /** Go's `a / d` on signed integers: the exact quotient truncated toward zero. */
  function Quo(a: int, d: int): (q: int)
    requires d > 0
    ensures a >= 0 ==> 0 <= q && q * d <= a < q * d + d
    ensures a < 0 ==> q <= 0 && q * d - d < a <= q * d
  {
    if a >= 0 then
      EuclideanSplit(a, d);
      a / d
    else
      NegatedQuotient(-a, d);
      -((-a) / d)
  }

  /** The negated Euclidean quotient of a positive `n` brackets `-n` from above. */
  lemma NegatedQuotient(n: int, d: int)
    requires n > 0 && d > 0
    ensures var q := -(n / d); q <= 0 && q * d - d < -n <= q * d
  {
  }

  /** Quo rounds toward zero: its product with `d` never overshoots `a` and misses it by less than `d`. */
  lemma QuoTruncatesTowardZero(a: int, d: int)
    requires d > 0
    ensures a >= 0 ==> 0 <= Quo(a, d) && Quo(a, d) * d <= a < Quo(a, d) * d + d
    ensures a < 0 ==> Quo(a, d) <= 0 && Quo(a, d) * d - d < a <= Quo(a, d) * d
    ensures Quo(-a, d) == -Quo(a, d)
  {
  }

  /** How Go's truncating division differs from Dafny's Euclidean one: only for negative non-multiples. */
  lemma {:induction false} QuoVersusEuclidean(a: int, d: int)
    requires d > 0
    ensures a >= 0 || a % d == 0 ==> Quo(a, d) == a / d
    ensures a < 0 && a % d != 0 ==> Quo(a, d) == a / d + 1
  {
    QuoTruncatesTowardZero(a, d);
    var q, e := Quo(a, d), a / d;
    EuclideanSplit(a, d);
    if a < 0 && a % d == 0 {
      MultiplesBetween(e, q, d);
    } else if a < 0 {
      assert (e + 1) * d == e * d + d;
      MultiplesBetween(e + 1, q, d);
    } else {
      MultiplesBetween(e, q, d);
    }
  }

  /** Dafny's Euclidean quotient and remainder of `n` by `d`. */
  lemma EuclideanSplit(n: int, d: int)
    requires d > 0
    ensures n == (n / d) * d + n % d && 0 <= n % d < d
  {
  }

  /** `k` copies of `d` are at least one copy. */
  lemma MulAtLeast(k: int, d: int)
    requires k >= 1 && d > 0
    ensures k * d >= d
  {
  }

  /** Two multiples of `d` closer than `d` are equal. */
  lemma MultiplesBetween(x: int, y: int, d: int)
    requires d > 0
    requires x * d - d < y * d < x * d + d
    ensures x == y
  {
    if x < y {
      assert (y - x) * d == y * d - x * d;
      MulAtLeast(y - x, d);
    } else if y < x {
      assert (x - y) * d == x * d - y * d;
      MulAtLeast(x - y, d);
    }
  }

  /** `math.Floor`, applied to the exact value of its argument. */
  function Floor(x: real): (r: int)
    ensures r as real <= x < r as real + 1.0
  {
    x.Floor
  }

  /** `math.Ceil`, applied to the exact value of its argument. */
  function Ceil(x: real): (r: int)
    ensures r as real - 1.0 < x <= r as real
  {
    -((-x).Floor)
  }

  /** Ceil and Floor leave a whole number unchanged. */
  lemma WholeNumberUnrounded(n: int)
    ensures Floor(n as real) == n && Ceil(n as real) == n
  {
  }
}
