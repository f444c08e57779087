/**
 Go's fixed-width integers and the saturating clock subtraction that the labs rely on, with
 the few facts of multiplication and division that the proofs about them need.
 */
module GoNumbers {

  const MAX_INT64: int := 0x7FFF_FFFF_FFFF_FFFF
  const MIN_INT64: int := -0x8000_0000_0000_0000

  // Every operation on these types is checked to stay in range, so a method
  // that verifies with them never wraps.
  newtype int64 = x: int | MIN_INT64 <= x <= MAX_INT64
  newtype byte = x: int | 0 <= x < 0x100
  newtype uint64 = x: int | 0 <= x < 0x1_0000_0000_0000_0000

  function Min(a: int, b: int): int {
    if a <= b then a else b
  }

  /** `time.Time.Sub`: the difference of two instants, clamped to a Duration. */
  function SaturatingSub(a: int, b: int): int64 {
    if a - b > MAX_INT64 then MAX_INT64 as int64
    else if a - b < MIN_INT64 then MIN_INT64 as int64
    else (a - b) as int64
  }

  lemma MulMonotone(a: int, b: int, m: int)
    requires a <= b && 0 <= m
    ensures a * m <= b * m
  {
    assert (b - a) * m >= 0;
    assert (b - a) * m == b * m - a * m;
  }

  /** Floor division by a positive divisor, characterised by multiplication alone. */
  lemma DivAtLeast(a: int, m: int, k: int)
    requires 0 < m
    ensures k <= a / m <==> k * m <= a
  {
    var q := a / m;
    assert a == q * m + a % m;
    if k <= q {
      MulMonotone(k, q, m);
    } else {
      MulMonotone(q + 1, k, m);
    }
  }

  /** Quotient and remainder are unique. */
  lemma DivModUnique(a: int, m: int, q: int, r: int)
    requires 0 < m && 0 <= r < m && a == q * m + r
    ensures a / m == q && a % m == r
  {
    DivAtLeast(a, m, q);
    DivAtLeast(a, m, q + 1);
    assert (q + 1) * m == q * m + m;
    assert a == (a / m) * m + a % m;
  }
}
