/** Small vocabulary shared by every module: Linux errno values, an
    optional value, powers of two, C's truncating division and the
    ranges of the C integer types the source uses. */
module Kernel {

  // errno values (the source returns them negated)
  const ENOENT: int := 2
  const ENOMEM: int := 12
  const EINVAL: int := 22
  const ERANGE: int := 34
  const EALREADY: int := 114
  const EINPROGRESS: int := 115

  const U32_LIMIT: int := 0x1_0000_0000
  const U64_LIMIT: int := 0x1_0000_0000_0000_0000
  const INT32_MIN: int := -0x8000_0000
  const INT32_MAX: int := 0x7fff_ffff

  predicate IsU32(x: int) { 0 <= x < U32_LIMIT }
  predicate IsU64(x: int) { 0 <= x < U64_LIMIT }

  datatype Option<T> = None | Some(value: T)

  function Pow2(k: nat): (p: nat)
    ensures p >= 1
  {
    if k == 0 then 1 else 2 * Pow2(k - 1)
  }

  lemma {:induction false} Pow2Add(a: nat, b: nat)
    ensures Pow2(a + b) == Pow2(a) * Pow2(b)
  {
    if a > 0 {
      Pow2Add(a - 1, b);
      assert Pow2(a + b) == 2 * Pow2(a - 1 + b);
    }
  }

  lemma Pow2Monotone(a: nat, b: nat)
    requires a <= b
    ensures Pow2(a) <= Pow2(b)
  {
    Pow2Add(a, b - a);
  }

  /** Quotient and remainder are unique. */
  lemma DivModUnique(a: int, m: int, q: int, r: int)
    requires m > 0 && 0 <= r < m
    requires a == q * m + r
    ensures a / m == q && a % m == r
  {
    var d := q - a / m;
    assert d * m == a % m - r;
  }

  /** Dividing a non-negative number by a positive one gives a
      non-negative quotient no larger than the dividend. */
  lemma DivBounds(a: int, b: int)
    requires a >= 0 && b > 0
    ensures 0 <= a / b <= a
  {
    var q := a / b;
    assert q * b <= a;
    assert q * b >= q;
  }

  /** C's `/` on signed operands with a positive divisor: truncation toward zero. */
  function CDiv(a: int, b: int): (q: int)
    requires b > 0
    ensures a >= 0 ==> q == a / b
    ensures a < 0 ==> q == -((-a) / b)
  {
    if a >= 0 then a / b else -((-a) / b)
  }

  /** Conversion of a mathematical integer to a 32-bit two's-complement `int`. */
  function Int32Wrap(x: int): (r: int)
    ensures INT32_MIN <= r <= INT32_MAX
    ensures INT32_MIN <= x <= INT32_MAX ==> r == x
  {
    (x - INT32_MIN) % U32_LIMIT + INT32_MIN
  }
}
