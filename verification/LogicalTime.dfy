/**
 Go's wall-clock instants: whole seconds in an int64, saturating when added to. An instant is
 a number of nanoseconds, unbounded except where the addition clamps its seconds.
 */
module LogicalTime {
  import opened GoNumbers

  const SECOND: int := 1_000_000_000

  // Nanoseconds since year 1, within what a time.Time can hold.
  const LATEST: int := MAX_INT64 * SECOND + SECOND - 1
  const EARLIEST: int := -MAX_INT64 * SECOND

  predicate Representable(t: int) {
    EARLIEST <= t <= LATEST
  }

  /** time.Time.Add: the seconds saturate, the nanoseconds do not. */
  function AddDuration(t: int, d: int): int {
    var seconds, nanoseconds := (t + d) / SECOND, (t + d) % SECOND;
    var clamped := if seconds > MAX_INT64 then MAX_INT64 else if seconds < -MAX_INT64 then -MAX_INT64 else seconds;
    clamped * SECOND + nanoseconds
  }

  lemma AddExactly(t: int, d: int)
    ensures Representable(t + d) ==> AddDuration(t, d) == t + d
    ensures t + d > LATEST ==> AddDuration(t, d) <= LATEST && AddDuration(t, d) < t + d
  {
    var seconds, nanoseconds := (t + d) / SECOND, (t + d) % SECOND;
    assert t + d == seconds * SECOND + nanoseconds;
    DivAtLeast(t + d, SECOND, MAX_INT64 + 1);
    DivAtLeast(t + d, SECOND, -MAX_INT64);
    if seconds > MAX_INT64 {
      MulMonotone(MAX_INT64 + 1, seconds, SECOND);
    }
  }

  /** logicalEventTimeRepresentable: adding the offset can be undone. */
  function EventTimeRepresentable(start: int, offset: int): (ok: bool)
    requires Representable(start) && 0 <= offset <= MAX_INT64
    ensures ok <==> Representable(start + offset)
  {
    AddExactly(start, offset);
    var target := AddDuration(start, offset);
    AddExactly(target, -offset);
    AddExactly(start, 0);
    if offset == 0 then target == start
    else target > start && AddDuration(target, -offset) == start
  }

}
