/** Java's 32-bit `int` arithmetic, written out over Dafny's unbounded integers.
    Every int operation of the Java code wraps around modulo 2^32, and its `/`
    and `%` truncate toward zero, whereas Dafny's are Euclidean. */
module JavaInt {

  const MinInt: int := -0x8000_0000
  const MaxInt: int := 0x7FFF_FFFF
  /** The number of distinct 32-bit values. */
  const Modulus: int := 0x1_0000_0000

  predicate IsInt32(x: int) {
    MinInt <= x <= MaxInt
  }

  /** The two's-complement value Java keeps of a mathematical result `x`. */
  function Wrap32(x: int): (r: int)
    ensures IsInt32(r)
    ensures (x - r) % Modulus == 0
    ensures IsInt32(x) ==> r == x
  {
    (x - MinInt) % Modulus + MinInt
  }

  /** Two int values Java cannot tell apart are equal. */
  lemma WrapUnique(x: int, y: int)
    requires IsInt32(x) && (x - y) % Modulus == 0
    ensures IsInt32(y) ==> x == y
  {
  }

  /** Differences that vanish modulo 2^32 add up to one that vanishes too,
      so chained int operations stay congruent to the exact result. */
  lemma CongruentSum(x: int, y: int)
    requires x % Modulus == 0 && y % Modulus == 0
    ensures (x + y) % Modulus == 0
  {
    assert x + y == Modulus * (x / Modulus + y / Modulus);
  }

  /** Java's `a + b` on ints. */
  function Add(a: int, b: int): (r: int)
    requires IsInt32(a) && IsInt32(b)
    ensures IsInt32(r)
    ensures IsInt32(a + b) ==> r == a + b
    ensures a + b > MaxInt ==> r == a + b - Modulus
    ensures a + b < MinInt ==> r == a + b + Modulus
  {
    Wrap32(a + b)
  }

  /** Java's `a - b` on ints. */
  function Sub(a: int, b: int): (r: int)
    requires IsInt32(a) && IsInt32(b)
    ensures IsInt32(r)
    ensures IsInt32(a - b) ==> r == a - b
    ensures a - b > MaxInt ==> r == a - b - Modulus
    ensures a - b < MinInt ==> r == a - b + Modulus
  {
    Wrap32(a - b)
  }

  /** Java's `a * b` on ints. */
  function Mul(a: int, b: int): (r: int)
    requires IsInt32(a) && IsInt32(b)
    ensures IsInt32(r)
    ensures IsInt32(a * b) ==> r == a * b
    ensures (a * b - r) % Modulus == 0
  {
    Wrap32(a * b)
  }

  /** Java's `a / b` for a positive divisor: the quotient rounded toward zero. */
  function Div(a: int, b: int): (q: int)
    requires b > 0
    ensures 0 <= a ==> 0 <= q && 0 <= a - b * q < b
    ensures a <= 0 ==> q <= 0 && -b < a - b * q <= 0
  {
    if a >= 0 then a / b else -((-a) / b)
  }

  /** Java's `a % b` for a positive divisor: the remainder carries the sign of `a`. */
  function Rem(a: int, b: int): (r: int)
    requires b > 0
    ensures r == a - b * Div(a, b)
    ensures -b < r < b
    ensures 0 <= a ==> 0 <= r
    ensures a <= 0 ==> r <= 0
  {
    if a >= 0 then a % b else -((-a) % b)
  }

  /** For the two divisors the record checks use, a truncating remainder is
      zero exactly when a Euclidean one is: both say that the divisor divides
      `a`, so `x % 60 != 0` and `x % 1440 == 0` in the Java code test
      divisibility whatever the sign of `x`. */
  lemma RemZeroIffDivides(a: int)
    ensures Rem(a, 60) == 0 <==> a % 60 == 0
    ensures Rem(a, 1440) == 0 <==> a % 1440 == 0
  {
    if a < 0 {
      assert -a == 60 * ((-a) / 60) + (-a) % 60;
      assert a == 60 * (a / 60) + a % 60;
      assert -a == 1440 * ((-a) / 1440) + (-a) % 1440;
      assert a == 1440 * (a / 1440) + a % 1440;
    }
  }
}
