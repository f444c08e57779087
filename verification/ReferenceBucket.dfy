/** A second, simpler bucket, and exactly when the two agree. */
module ReferenceBucket {
  import opened GoNumbers
  import opened EagerBucket
  import TokenBucket

  // After a saturated refill the anchor lags, so its state is richer than an eager bucket's.
  datatype State = State(capacity: int, available: int, every: int, anchor: int, last: int) {
    ghost predicate Valid() {
      0 < capacity < 0x1_0000_0000_0000_0000 && 0 <= available <= capacity && 0 < every <= MAX_INT64 && anchor <= last
    }
  }

  /** One reference decision; the subtraction is clamped and nothing reports it. */
  ghost function ReferenceTake(s: State, now: int, amount: int): (State, Outcome)
    requires s.Valid()
  {
    if amount <= 0 then (s, Rejected(InvalidAmount))
    else if amount > s.capacity then (s, Rejected(AmountExceedsCapacity))
    else if now < s.last then (s, Rejected(TimeRollback))
    else
      var elapsed := Min(now - s.anchor, MAX_INT64);
      var r := s.(available := Min(s.capacity, s.available + elapsed / s.every),
                  anchor := s.anchor + (elapsed - elapsed % s.every),
                  last := now);
      if r.available >= amount then
        (r.(available := r.available - amount), Decided(Decision(true, r.available - amount, 0)))
      else
        (r, Decided(Decision(false, r.available,
                             Min((amount - r.available) * s.every - elapsed % s.every, MAX_INT64))))
  }

  class Reference {
    const capacity: uint64
    const refillEvery: int64
    var available: uint64
    var refillAnchor: int
    var lastObserved: int

    ghost predicate Valid()
      reads this
    {
      0 < capacity && 0 < refillEvery && available <= capacity && refillAnchor <= lastObserved
    }

    ghost function Abstract(): (s: State)
      requires Valid()
      reads this
      ensures s.Valid()
    {
      State(capacity as int, available as int, refillEvery as int, refillAnchor, lastObserved)
    }

    constructor (config: TokenBucket.Config, now: int)
      requires TokenBucket.ValidConfig(config)
      ensures Valid()
      ensures Mirrors(Abstract(), TokenBucket.Fresh(config, now))
    {
      capacity := config.capacity;
      available := config.capacity;
      refillEvery := config.refillEvery;
      refillAnchor := now;
      lastObserved := now;
      new;
      var m := refillEvery as int;
      DivModUnique(now - now % m, m, now / m, 0);
    }

    method Take(now: int, amount: uint64) returns (out: Outcome)
      requires Valid()
      modifies this
      ensures Valid()
      ensures (Abstract(), out) == ReferenceTake(old(Abstract()), now, amount as int)
    {
      if amount == 0 {
        return Rejected(InvalidAmount);
      }
      if amount > capacity {
        return Rejected(AmountExceedsCapacity);
      }
      if now < lastObserved {
        return Rejected(TimeRollback);
      }
      var elapsed := SaturatingSub(now, refillAnchor);
      var intervals := TokenBucket.WholeIntervals(elapsed, refillEvery);
      var remainder := elapsed % refillEvery;
      var space := capacity - available;
      if intervals >= space {
        available := capacity;
      } else {
        available := available + intervals;
      }
      refillAnchor := refillAnchor + (elapsed - remainder) as int;
      lastObserved := now;
      if available >= amount {
        available := available - amount;
        return Decided(Decision(true, available as int, 0));
      }
      var missing := amount - available;
      var wait := ReferenceWait(refillEvery, remainder, missing);
      return Decided(Decision(false, available as int, wait as int));
    }
  }

  method ReferenceWait(refillEvery: int64, remainder: int64, missing: uint64) returns (wait: int64)
    requires 0 <= remainder < refillEvery && 0 < missing
    ensures wait as int == Min(missing as int * refillEvery as int - remainder as int, MAX_INT64)
  {
    var firstInterval := refillEvery - remainder;
    wait := MAX_INT64 as int64;
    var additional := missing - 1;
    TokenBucket.WaitGuard(refillEvery as int, remainder as int, missing as int);
    if additional <= TokenBucket.WholeIntervals(wait - firstInterval, refillEvery) {
      wait := firstInterval + additional as int64 * refillEvery;
    }
  }

  /** The reference state that an eager bucket corresponds to. */
  ghost predicate Mirrors(s: State, e: Eager) {
    && e.Valid()
    && e.capacity < 0x1_0000_0000_0000_0000 && e.every <= MAX_INT64
    && s == State(e.capacity, e.tokens, e.every, Anchor(e), e.now)
  }

  /** The request has a proper amount and does not go back in time from `last`. */
  predicate Counts(e: Eager, last: int, c: Call) {
    c.TakeCall? && 0 < c.amount <= e.capacity && last <= c.at
  }

  /**
   Each request that counts is made within a `time.Duration` of the grid point before the
   previous such request. This looks at the requests and the grid only, not at tokens.
   */
  ghost predicate Measurable(e: Eager, last: int, calls: seq<Call>)
    requires e.Valid()
    decreases |calls|
  {
    calls == []
    || (if Counts(e, last, calls[0])
        then Fits(e.(now := last), calls[0].at) && Measurable(e, calls[0].at, calls[1..])
        else Measurable(e, last, calls[1..]))
  }

  /** The two agree on a request exactly when it does not count or its distance can be measured. */
  lemma AgreeOnRequest(s: State, e: Eager, now: int, amount: int)
    requires Mirrors(s, e)
    ensures s.Valid()
    ensures ReferenceTake(s, now, amount).1 == Take(e, now, amount).1
            <==> (Counts(e, e.now, TakeCall(now, amount)) ==> Fits(e, now))
    ensures (Counts(e, e.now, TakeCall(now, amount)) ==> Fits(e, now))
            ==> Mirrors(ReferenceTake(s, now, amount).0, Take(e, now, amount).0)
  {
    AnchorOnGrid(e);
    if e.now <= now && Fits(e, now) {
      TokenBucket.LazyRefill(e, now);
      AnchorAfter(e, now);
    }
  }

  lemma AnchorAfter(e: Eager, now: int)
    requires e.Valid() && e.now <= now
    ensures Anchor(Refill(e, now)) == now - (now - Anchor(e)) % e.every
  {
    AnchorForm(e);
    var m := e.every;
    var q, elapsed := (e.now - e.phase) / m, now - Anchor(e);
    assert (q + elapsed / m) * m == q * m + elapsed / m * m;
    DivModUnique(now - e.phase, m, q + elapsed / m, elapsed % m);
  }

  ghost function ReferenceRun(s: State, calls: seq<Call>): (outs: seq<Outcome>)
    requires s.Valid() && forall c <- calls :: c.TakeCall?
    ensures |outs| == |calls|
    decreases |calls|
  {
    if calls == [] then []
    else
      var (s', out) := ReferenceTake(s, calls[0].at, calls[0].amount);
      ReferenceStaysValid(s, calls[0].at, calls[0].amount);
      [out] + ReferenceRun(s', calls[1..])
  }

  lemma ReferenceStaysValid(s: State, now: int, amount: int)
    requires s.Valid()
    ensures ReferenceTake(s, now, amount).0.Valid()
  {
    if s.last <= now {
      DivAtLeast(Min(now - s.anchor, MAX_INT64), s.every, 0);
    }
  }

  /** Tokens play no part in what can be measured. */
  lemma {:induction false} MeasurableSame(e: Eager, f: Eager, last: int, calls: seq<Call>)
    requires e.Valid() && f.Valid()
    requires e.capacity == f.capacity && e.every == f.every && e.phase == f.phase
    ensures Measurable(e, last, calls) <==> Measurable(f, last, calls)
    decreases |calls|
  {
    if calls != [] {
      MeasurableSame(e, f, if Counts(e, last, calls[0]) then calls[0].at else last, calls[1..]);
    }
  }

  /** A request that counts and can be measured moves the bucket's time to its own; any other leaves it. */
  lemma TakeMovesTime(e: Eager, c: Call)
    requires e.Valid() && c.TakeCall?
    requires Counts(e, e.now, c) ==> Fits(e, c.at)
    ensures
      var e' := Step(e, c).0;
      && e'.Valid()
      && e'.(tokens := 0, now := 0) == e.(tokens := 0, now := 0)
      && e'.now == (if Counts(e, e.now, c) then c.at else e.now)
  {
  }

  /**
   On every run of requests the two implementations give the same decisions and errors if
   and only if all of its distances can be measured.
   */
  lemma {:induction false} AgreeOnRuns(s: State, e: Eager, calls: seq<Call>)
    requires Mirrors(s, e) && forall c <- calls :: c.TakeCall?
    ensures s.Valid()
    ensures ReferenceRun(s, calls) == Run(e, calls).1 <==> Measurable(e, e.now, calls)
    decreases |calls|
  {
    hide Take, ReferenceTake;
    AgreeOnRequest(s, e, 0, 0);
    if calls != [] {
      var c := calls[0];
      var (s', rout) := ReferenceTake(s, c.at, c.amount);
      var (e', out) := Step(e, c);
      AgreeOnRequest(s, e, c.at, c.amount);
      ReferenceStaysValid(s, c.at, c.amount);
      StepSpends(e, c);
      var outs, routs := Run(e', calls[1..]).1, ReferenceRun(s', calls[1..]);
      assert Run(e, calls).1 == [out] + outs && ReferenceRun(s, calls) == [rout] + routs;
      if out == rout {
        TakeMovesTime(e, c);
        AgreeOnRuns(s', e', calls[1..]);
        MeasurableSame(e, e', e'.now, calls[1..]);
        assert ([rout] + routs)[1..] == routs && ([out] + outs)[1..] == outs;
      } else {
        assert ([out] + outs)[0] != ([rout] + routs)[0];
      }
    }
  }

  /** A new bucket left alone for longer than a Duration: the bucket refuses what the reference grants. */
  lemma ImplementationsDiffer() returns (e: Eager, s: State, late: Call)
    ensures e == TokenBucket.Fresh(TokenBucket.Config(1, 1), 0) && Mirrors(s, e) && s.Valid()
    ensures Run(e, [late]).1 == [Rejected(TimeOverflow)]
    ensures late.TakeCall? && ReferenceRun(s, [late]) == [Decided(Decision(true, 0, 0))]
  {
    e, s, late := TokenBucket.Fresh(TokenBucket.Config(1, 1), 0), State(1, 1, 1, 0, 0), TakeCall(MAX_INT64 + 1, 1);
    assert Step(e, late) == (e, Rejected(TimeOverflow));
    assert Run(e, [late]).1 == [Step(e, late).1] + Run(e, []).1;
    var (s', out) := ReferenceTake(s, late.at, late.amount);
    ReferenceStaysValid(s, late.at, late.amount);
    assert ReferenceRun(s, [late]) == [out] + ReferenceRun(s', []);
  }
}
