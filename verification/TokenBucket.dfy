/** The lab's bucket: refilled lazily, in uint64 tokens and time.Duration arithmetic. */
module TokenBucket {
  import opened GoNumbers
  import opened EagerBucket

  datatype Config = Config(capacity: uint64, refillEvery: int64)

  datatype ConfigError = InvalidCapacity | InvalidRefillEvery

  datatype Created = Created(bucket: Bucket) | Refused(error: ConfigError)

  datatype Observed = Remainder(value: int64) | Failed(error: TakeError)

  ghost predicate ValidConfig(config: Config) {
    0 < config.capacity && 0 < config.refillEvery
  }

  /** The eager bucket a valid configuration creates at `now`: full, its grid starting there. */
  ghost function Fresh(config: Config, now: int): (e: Eager)
    requires ValidConfig(config)
    ensures e.Valid()
  {
    Eager(config.capacity as int, config.refillEvery as int, now % config.refillEvery as int,
          config.capacity as int, now)
  }

  class Bucket {
    const capacity: uint64
    const refillEvery: int64
    var available: uint64
    var refillAnchor: int
    var lastObserved: int

    ghost predicate Valid()
      reads this
    {
      && 0 < capacity
      && 0 < refillEvery
      && available <= capacity
      && refillAnchor <= lastObserved < refillAnchor + refillEvery as int
    }

    /** The eager bucket this one stands for; its grid is the anchor's. */
    ghost function Abstract(): (e: Eager)
      requires Valid()
      reads this
      ensures e.Valid()
    {
      Eager(capacity as int, refillEvery as int, refillAnchor % refillEvery as int, available as int, lastObserved)
    }

    lemma AnchorIsAnchor()
      requires Valid()
      ensures Anchor(Abstract()) == refillAnchor
    {
      var m := refillEvery as int;
      DivModUnique(lastObserved - refillAnchor % m, m, refillAnchor / m, lastObserved - refillAnchor);
    }

    constructor (config: Config, now: int)
      requires ValidConfig(config)
      ensures Valid() && Abstract() == Fresh(config, now)
      ensures refillAnchor == lastObserved == now
    {
      capacity := config.capacity;
      available := config.capacity;
      refillEvery := config.refillEvery;
      refillAnchor := now;
      lastObserved := now;
    }

    static method New(config: Config, now: int) returns (r: Created)
      ensures r.Created? <==> ValidConfig(config)
      ensures r.Created? ==> fresh(r.bucket) && r.bucket.Valid() && r.bucket.Abstract() == Fresh(config, now)
      ensures r.Refused? ==> r.error == (if config.capacity == 0 then InvalidCapacity else InvalidRefillEvery)
    {
      if config.capacity == 0 {
        return Refused(InvalidCapacity);
      }
      if config.refillEvery <= 0 {
        return Refused(InvalidRefillEvery);
      }
      var bucket := new Bucket(config, now);
      return Created(bucket);
    }

    method ObserveLocked(now: int) returns (r: Observed)
      requires Valid()
      modifies this
      ensures Valid()
      ensures Abstract() == Observe(old(Abstract()), now).0
      ensures r.Failed? <==> Observe(old(Abstract()), now).1.Rejected?
      ensures r.Failed? ==> Observe(old(Abstract()), now).1 == Rejected(r.error)
      ensures r.Remainder? ==> 0 <= r.value < refillEvery && r.value as int == lastObserved - refillAnchor
    {
      AnchorIsAnchor();
      ghost var e := Abstract();
      if now < lastObserved {
        return Failed(TimeRollback);
      }
      var elapsed := SaturatingSub(now, refillAnchor);
      if elapsed as int == MAX_INT64 && refillAnchor + elapsed as int != now {
        return Failed(TimeOverflow);
      }
      var remainder, whole := elapsed % refillEvery, WholeIntervals(elapsed, refillEvery);
      LazyRefill(e, now);
      AnchorStaysOnGrid(refillAnchor, elapsed as int, refillEvery as int);
      if whole >= capacity - available {
        available := capacity;
      } else {
        available := available + whole;
      }
      refillAnchor := refillAnchor + (elapsed - remainder) as int;
      lastObserved := now;
      return Remainder(remainder);
    }

    method Take(now: int, amount: uint64) returns (out: Outcome)
      requires Valid()
      modifies this
      ensures Valid()
      ensures (Abstract(), out) == EagerBucket.Take(old(Abstract()), now, amount as int)
    {
      if amount == 0 {
        return Rejected(InvalidAmount);
      }
      if amount > capacity {
        return Rejected(AmountExceedsCapacity);
      }
      var observed := ObserveLocked(now);
      if observed.Failed? {
        return Rejected(observed.error);
      }
      AnchorIsAnchor();
      if available >= amount {
        available := available - amount;
        return Decided(Decision(true, available as int, 0));
      }
      var retry := RetryAfter(refillEvery, observed.value, amount - available);
      return Decided(Decision(false, available as int, retry as int));
    }

    method Available(now: int) returns (out: Outcome)
      requires Valid()
      modifies this
      ensures Valid()
      ensures (Abstract(), out) == Observe(old(Abstract()), now)
    {
      var observed := ObserveLocked(now);
      if observed.Failed? {
        return Rejected(observed.error);
      }
      return Decided(Decision(true, available as int, 0));
    }
  }

  /** Whole intervals since the anchor are exactly the grid points an eager bucket would have met. */
  lemma LazyRefill(e: Eager, now: int)
    requires e.Valid() && e.now <= now
    ensures Refill(e, now).tokens == Min(e.capacity, e.tokens + (now - Anchor(e)) / e.every)
  {
    var whole := (now - Anchor(e)) / e.every;
    RefillClosed(e, now);
    GridPointsFromAnchor(e, whole, now);
    GridPointsFromAnchor(e, whole + 1, now);
    DivAtLeast(now - Anchor(e), e.every, whole);
    DivAtLeast(now - Anchor(e), e.every, whole + 1);
  }

  function WholeIntervals(elapsed: int64, every: int64): (whole: uint64)
    requires 0 <= elapsed && 0 < every
    ensures whole as int == elapsed as int / every as int
  {
    DivAtLeast(elapsed as int, every as int, 0);
    (elapsed / every) as uint64
  }

  /** Moving the anchor by whole intervals keeps it on its grid. */
  lemma AnchorStaysOnGrid(anchor: int, elapsed: int, every: int)
    requires 0 < every
    ensures (anchor + (elapsed - elapsed % every)) % every == anchor % every
  {
    var q, whole := anchor / every, elapsed / every;
    assert (q + whole) * every == q * every + whole * every;
    DivModUnique(anchor + (elapsed - elapsed % every), every, q + whole, anchor % every);
  }

  /** The guard on the number of extra intervals is exactly a guard against overflow. */
  lemma WaitGuard(every: int, remainder: int, need: int)
    requires 0 <= remainder < every <= MAX_INT64 && 1 <= need
    ensures
      var first, extra := every - remainder, need - 1;
      && first + extra * every == need * every - remainder
      && (extra <= (MAX_INT64 - first) / every <==> first + extra * every <= MAX_INT64)
      && 0 <= extra <= extra * every
  {
    var first, extra := every - remainder, need - 1;
    assert need * every == extra * every + every;
    DivAtLeast(MAX_INT64 - first, every, extra);
    MulMonotone(1, every, extra);
  }

  /** Time to the `need`-th grid point, saturating; no step of it leaves the int64 range. */
  function RetryAfter(refillEvery: int64, remainder: int64, need: uint64): (wait: int64)
    requires 0 <= remainder < refillEvery && 0 < need
    ensures wait as int == Min(need as int * refillEvery as int - remainder as int, MAX_INT64)
  {
    var first := refillEvery - remainder;
    WaitGuard(refillEvery as int, remainder as int, need as int);
    if need <= 1 then first
    else
      var maxDuration := MAX_INT64 as int64;
      var extraIntervals := need - 1;
      var maxExtraIntervals := WholeIntervals(maxDuration - first, refillEvery);
      if extraIntervals > maxExtraIntervals then maxDuration
      else first + extraIntervals as int64 * refillEvery
  }
}
