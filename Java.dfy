/** Java's fixed-width integer types and the few operations on them that the
    backup code relies on, written out over Dafny's unbounded integers. Also
    the Option and Result types used for null and for thrown exceptions. */
module Java {

  const INT_MIN: int := -0x8000_0000
  const INT_MAX: int := 0x7FFF_FFFF
  const LONG_MIN: int := -0x8000_0000_0000_0000
  const LONG_MAX: int := 0x7FFF_FFFF_FFFF_FFFF
  const LONG_RANGE: int := 0x1_0000_0000_0000_0000

  /** A Java `int`. */
  type int32 = x: int | INT_MIN <= x <= INT_MAX

  /** A Java `long`. */
  type long = x: int | LONG_MIN <= x <= LONG_MAX

  datatype Option<T> = None | Some(value: T)

  datatype Result<T, E> = Ok(value: T) | Err(error: E)

  /** Brings an arbitrary integer back into the range of `long`, the way
      two's-complement arithmetic does. */
  function WrapLong(x: int): (r: long)
    ensures (r - x) % LONG_RANGE == 0
    ensures LONG_MIN <= x <= LONG_MAX ==> r == x
  {
    (x - LONG_MIN) % LONG_RANGE + LONG_MIN
  }

  /** `a - b` on two `long`s: wraps around on overflow. */
  function LongSub(a: long, b: long): (r: long)
    ensures LONG_MIN <= a - b <= LONG_MAX ==> r == a - b
    ensures (r - (a - b)) % LONG_RANGE == 0
  {
    WrapLong(a - b)
  }

  /** Java's `/` for a positive divisor: the quotient is truncated toward
      zero, unlike Dafny's Euclidean `/`. */
  function TruncDiv(a: int, b: int): int
    requires b > 0
  {
    if a >= 0 then a / b else -((-a) / b)
  }

  /** For a non-negative dividend the truncated quotient is at least `k`
      exactly when the dividend is at least `k * b`. */
  lemma TruncDivAtLeast(a: int, b: int, k: int)
    requires a >= 0 && b > 0
    ensures TruncDiv(a, b) >= k <==> a >= k * b
  {
    var q := a / b;
    assert a == q * b + a % b;
    if k <= q {
      assert k * b <= q * b;
    } else {
      assert (q + 1) * b <= k * b;
    }
  }

  /** `Long.compare(x, y)`. */
  function LongCompare(x: long, y: long): (r: int)
    ensures r < 0 <==> x < y
    ensures r == 0 <==> x == y
    ensures r > 0 <==> x > y
    ensures -1 <= r <= 1
  {
    if x < y then -1 else if x == y then 0 else 1
  }

  /** `s.endsWith(suffix)`. */
  predicate EndsWith(s: string, suffix: string)
  {
    |suffix| <= |s| && s[|s| - |suffix|..] == suffix
  }
}
