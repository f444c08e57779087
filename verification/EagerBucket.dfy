/** The meaning of a token bucket, independent of how the lab computes it. */
module EagerBucket {
  // An eager bucket lives through every nanosecond and gains one token at each grid point.

  import opened GoNumbers

  datatype TakeError =
    | InvalidAmount
    | AmountExceedsCapacity
    | TimeRollback
    | TimeOverflow

  datatype Decision = Decision(allowed: bool, remaining: int, retryAfter: int)

  datatype Outcome = Decided(decision: Decision) | Rejected(error: TakeError)

  // `phase` is the creation instant modulo `every`; instants are unbounded nanoseconds.
  datatype Eager = Eager(capacity: int, every: int, phase: int, tokens: int, now: int) {
    ghost predicate Valid() {
      && 0 < capacity
      && 0 < every
      && 0 <= phase < every
      && 0 <= tokens <= capacity
    }
  }

  ghost predicate OnGrid(e: Eager, t: int)
    requires 0 < e.every
  {
    (t - e.phase) % e.every == 0
  }

  /** Live through one nanosecond, arriving at `t`. */
  ghost function Tick(e: Eager, t: int): Eager
    requires 0 < e.every
  {
    e.(now := t, tokens := if OnGrid(e, t) && e.tokens < e.capacity then e.tokens + 1 else e.tokens)
  }

  /** Live through every nanosecond up to `t`. */
  ghost function Refill(e: Eager, t: int): (r: Eager)
    requires e.Valid() && e.now <= t
    ensures r.Valid() && r.now == t && r.capacity == e.capacity && r.every == e.every && r.phase == e.phase
    decreases t - e.now
  {
    if t == e.now then e else Tick(Refill(e, t - 1), t)
  }

  /** Number of grid points in `(a, b]`. */
  ghost function GridPoints(e: Eager, a: int, b: int): (n: nat)
    requires 0 < e.every && a <= b
    decreases b - a
  {
    if a == b then 0 else GridPoints(e, a, b - 1) + (if OnGrid(e, b) then 1 else 0)
  }

  /** Number of grid points in `(e.now, t]` that found the bucket full. */
  ghost function Spilled(e: Eager, t: int): nat
    requires e.Valid() && e.now <= t
    decreases t - e.now
  {
    if t == e.now then 0
    else Spilled(e, t - 1) + (if OnGrid(e, t) && Refill(e, t - 1).tokens == e.capacity then 1 else 0)
  }

  /** The last grid point at or before the bucket's own time. */
  ghost function Anchor(e: Eager): int
    requires 0 < e.every
  {
    e.now - (e.now - e.phase) % e.every
  }

  ghost predicate Fits(e: Eager, t: int)
    requires 0 < e.every
  {
    t - Anchor(e) <= MAX_INT64
  }

  /** Nanoseconds until the bucket would hold `amount` tokens if left alone. */
  ghost function Wait(e: Eager, amount: int): int
    requires 0 < e.every
  {
    Anchor(e) + (amount - e.tokens) * e.every - e.now
  }

  ghost function Observe(e: Eager, now: int): (Eager, Outcome)
    requires e.Valid()
  {
    if now < e.now then (e, Rejected(TimeRollback))
    else if !Fits(e, now) then (e, Rejected(TimeOverflow))
    else (Refill(e, now), Decided(Decision(true, Refill(e, now).tokens, 0)))
  }

  ghost function Take(e: Eager, now: int, amount: int): (Eager, Outcome)
    requires e.Valid()
  {
    if amount <= 0 then (e, Rejected(InvalidAmount))
    else if amount > e.capacity then (e, Rejected(AmountExceedsCapacity))
    else if Observe(e, now).1.Rejected? then Observe(e, now)
    else
      var r := Refill(e, now);
      if amount <= r.tokens then
        (r.(tokens := r.tokens - amount), Decided(Decision(true, r.tokens - amount, 0)))
      else
        (r, Decided(Decision(false, r.tokens, Min(Wait(r, amount), MAX_INT64))))
  }

  // ---- Arithmetic of the grid -----------------------------------------

  /** Counting grid points one by one is a difference of two divisions. */
  lemma {:induction false} GridPointsClosed(e: Eager, a: int, b: int)
    requires 0 < e.every && a <= b
    ensures GridPoints(e, a, b) == (b - e.phase) / e.every - (a - e.phase) / e.every
    decreases b - a
  {
    if a < b {
      GridPointsClosed(e, a, b - 1);
      var m := e.every;
      var q, r := (b - e.phase) / m, (b - e.phase) % m;
      if r == 0 {
        assert b - 1 - e.phase == (q - 1) * m + (m - 1);
        DivModUnique(b - 1 - e.phase, m, q - 1, m - 1);
      } else {
        DivModUnique(b - 1 - e.phase, m, q, r - 1);
      }
    }
  }

  lemma {:induction false} GridPointsSplit(e: Eager, a: int, b: int, c: int)
    requires 0 < e.every && a <= b <= c
    ensures GridPoints(e, a, c) == GridPoints(e, a, b) + GridPoints(e, b, c)
    decreases c - b
  {
    if b < c {
      GridPointsSplit(e, a, b, c - 1);
    }
  }

  lemma {:induction false} RefillClosed(e: Eager, t: int)
    requires e.Valid() && e.now <= t
    ensures Refill(e, t).tokens == Min(e.capacity, e.tokens + GridPoints(e, e.now, t))
    decreases t - e.now
  {
    if e.now < t {
      RefillClosed(e, t - 1);
    }
  }

  /** Observing on the way changes nothing: refills compose. */
  lemma {:induction false} RefillCompose(e: Eager, t: int, u: int)
    requires e.Valid() && e.now <= t <= u
    ensures Refill(Refill(e, t), u) == Refill(e, u)
    decreases u - t
  {
    if t < u {
      RefillCompose(e, t, u - 1);
    }
  }

  /** No token is created or lost: arrivals end up in the bucket or spill. */
  lemma {:induction false} RefillConserves(e: Eager, t: int)
    requires e.Valid() && e.now <= t
    ensures e.tokens + GridPoints(e, e.now, t) == Refill(e, t).tokens + Spilled(e, t)
    decreases t - e.now
  {
    if e.now < t {
      RefillConserves(e, t - 1);
    }
  }

  /** The anchor is a grid point within one interval of the bucket's time. */
  lemma AnchorOnGrid(e: Eager)
    requires e.Valid()
    ensures Anchor(e) <= e.now < Anchor(e) + e.every
    ensures Anchor(e) % e.every == e.phase
  {
    AnchorForm(e);
    DivModUnique(Anchor(e), e.every, (e.now - e.phase) / e.every, e.phase);
  }

  lemma AnchorForm(e: Eager)
    requires 0 < e.every
    ensures Anchor(e) == (e.now - e.phase) / e.every * e.every + e.phase
  {
  }

  /** `n` more grid points have passed exactly when `n` intervals from the anchor have. */
  lemma GridPointsFromAnchor(e: Eager, n: int, t: int)
    requires e.Valid() && e.now <= t
    ensures GridPoints(e, e.now, t) >= n <==> t >= Anchor(e) + n * e.every
  {
    GridPointsClosed(e, e.now, t);
    AnchorForm(e);
    var q := (e.now - e.phase) / e.every;
    DivAtLeast(t - e.phase, e.every, q + n);
    assert (q + n) * e.every == q * e.every + n * e.every;
  }

  // ---- What the decisions mean -----------------------------------------

  /** `Wait` is the first instant at which the tokens suffice. */
  lemma WaitIsExact(e: Eager, amount: int, t: int)
    requires e.Valid() && e.tokens < amount <= e.capacity && e.now <= t
    ensures Refill(e, t).tokens >= amount <==> t >= e.now + Wait(e, amount)
  {
    RefillClosed(e, t);
    GridPointsFromAnchor(e, amount - e.tokens, t);
  }

  /**
   `RetryAfter` is exact. After a denial no shorter wait is granted; waiting exactly
   that long is granted if and only if all missing intervals fit a Duration, and when
   they do not the retry is refused as an overflow or is still short of tokens.
   */
  lemma RetryAfterExact(e: Eager, now: int, amount: int, t: int)
    requires e.Valid() && e.now <= now <= t && Fits(e, now)
    requires Refill(e, now).tokens < amount <= e.capacity
    ensures Take(e, now, amount).1.Decided? && !Take(e, now, amount).1.decision.allowed
    ensures
      var (e', out) := Take(e, now, amount);
      var retry := out.decision.retryAfter;
      && 0 < retry <= MAX_INT64
      && e'.Valid()
      && (t < now + retry && Fits(e', t) ==>
            Take(e', t, amount).1.Decided? && !Take(e', t, amount).1.decision.allowed)
      && (!Fits(e', t) ==> Take(e', t, amount).1 == Rejected(TimeOverflow))
      && (t == now + retry ==>
            (Take(e', t, amount).1.Decided? && Take(e', t, amount).1.decision.allowed
             <==> (amount - e'.tokens) * e.every <= MAX_INT64))
  {
    var (e', out) := Take(e, now, amount);
    AnchorOnGrid(e');
    var need := amount - e'.tokens;
    assert e' == Refill(e, now);
    MulMonotone(1, need, e.every);
    WaitIsExact(e', amount, t);
  }

  /**
   An extra observation changes a later outcome exactly when the later one alone would
   overflow and the extra one brings it back within reach; otherwise only the state may differ.
   */
  lemma ObservationIsInvisible(e: Eager, t: int, u: int)
    requires e.Valid() && e.now <= t <= u
    requires Fits(e, t)
    ensures Observe(Observe(e, t).0, u).1 == Observe(e, u).1 <==> Fits(e, u) || !Fits(Refill(e, t), u)
    ensures Observe(Observe(e, t).0, u) == Observe(e, u) <==> Fits(e, u) || t == e.now
  {
    RefillCompose(e, t, u);
    AnchorOnGrid(e);
    AnchorOnGrid(Refill(e, t));
    AnchorMonotone(e, t);
  }

  /** An observation that rescues a later one. */
  lemma ObservationCanRescue()
    ensures
      var e := Eager(1, 1, 0, 1, 0);
      var u := MAX_INT64 + 1;
      && Observe(e, u).1 == Rejected(TimeOverflow)
      && Observe(Observe(e, 1).0, u).1 == Decided(Decision(true, 1, 0))
  {
    var e := Eager(1, 1, 0, 1, 0);
    RefillClosed(Refill(e, 1), MAX_INT64 + 1);
  }

  lemma AnchorMonotone(e: Eager, t: int)
    requires e.Valid() && e.now <= t
    ensures Anchor(Refill(e, t)) == Anchor(e) + GridPoints(e, e.now, t) * e.every
    ensures Anchor(e) <= Anchor(Refill(e, t))
  {
    var f := Refill(e, t);
    assert Anchor(e) == (e.now - e.phase) / e.every * e.every + e.phase by { AnchorForm(e); }
    assert Anchor(f) == (t - e.phase) / e.every * e.every + e.phase by { AnchorForm(f); }
    GridPointsClosed(e, e.now, t);
    Distribute((t - e.phase) / e.every, (e.now - e.phase) / e.every, e.every);
  }

  lemma Distribute(a: int, b: int, m: int)
    requires 0 < m
    ensures a * m == b * m + (a - b) * m
    ensures b <= a ==> b * m <= a * m
  {
    if b <= a { MulMonotone(b, a, m); }
  }

  // ---- Runs -------------------------------------------------------------

  datatype Call = TakeCall(at: int, amount: int) | AvailableCall(at: int)

  ghost function Step(e: Eager, c: Call): (Eager, Outcome)
    requires e.Valid()
  {
    match c
    case TakeCall(at, amount) => Take(e, at, amount)
    case AvailableCall(at) => Observe(e, at)
  }

  ghost function Run(e: Eager, calls: seq<Call>): (r: (Eager, seq<Outcome>))
    requires e.Valid()
    ensures r.0.Valid() && |r.1| == |calls|
    ensures r.0.(tokens := 0, now := 0) == e.(tokens := 0, now := 0)
    ensures e.now <= r.0.now
    decreases |calls|
  {
    if calls == [] then (e, [])
    else
      var (e', out) := Step(e, calls[0]);
      var (e'', outs) := Run(e', calls[1..]);
      (e'', [out] + outs)
  }

  /** Tokens a call hands out. */
  function Grant(c: Call, out: Outcome): int {
    if c.TakeCall? && out.Decided? && out.decision.allowed then c.amount else 0
  }

  function Granted(calls: seq<Call>, outs: seq<Outcome>): int
    requires |calls| == |outs|
  {
    if calls == [] then 0 else Grant(calls[0], outs[0]) + Granted(calls[1..], outs[1..])
  }

  /** Arrivals that found the bucket full during a run. */
  ghost function RunSpilled(e: Eager, calls: seq<Call>): nat
    requires e.Valid()
    decreases |calls|
  {
    if calls == [] then 0
    else
      var e' := Step(e, calls[0]).0;
      (if Step(e, calls[0]).1.Decided? then Spilled(e, e'.now) else 0) + RunSpilled(e', calls[1..])
  }

  /** Over every run tokens are conserved, and the bucket never holds more than its capacity. */
  lemma {:induction false} RunConserves(e: Eager, calls: seq<Call>)
    requires e.Valid()
    ensures
      var (e', outs) := Run(e, calls);
      && 0 <= e'.tokens <= e.capacity
      && e.tokens + GridPoints(e, e.now, e'.now) == e'.tokens + Granted(calls, outs) + RunSpilled(e, calls)
    decreases |calls|
  {
    if calls != [] {
      var (e1, out) := Step(e, calls[0]);
      var (e2, outs) := Run(e1, calls[1..]);
      RunConserves(e1, calls[1..]);
      GridPointsSplit(e, e.now, e1.now, e2.now);
      GridPointsSame(e, e1, e1.now, e2.now);
      if out.Decided? {
        RefillConserves(e, e1.now);
      }
      assert Run(e, calls).1 == [out] + outs;
    }
  }

  lemma {:induction false} GridPointsSame(e: Eager, f: Eager, a: int, b: int)
    requires 0 < e.every == f.every && e.phase == f.phase && a <= b
    ensures GridPoints(e, a, b) == GridPoints(f, a, b)
    decreases b - a
  {
    if a < b {
      GridPointsSame(e, f, a, b - 1);
    }
  }

  lemma {:induction false} RunAppend(e: Eager, a: seq<Call>, b: seq<Call>)
    requires e.Valid()
    ensures
      var (e1, outs1) := Run(e, a);
      var (e2, outs2) := Run(e1, b);
      Run(e, a + b) == (e2, outs1 + outs2)
    decreases |a|
  {
    if a == [] {
      assert a + b == b;
      assert [] + Run(e, b).1 == Run(e, b).1;
    } else {
      assert (a + b)[1..] == a[1..] + b;
      RunAppend(Step(e, a[0]).0, a[1..], b);
      var (e1, outs1) := Run(Step(e, a[0]).0, a[1..]);
      var outs2 := Run(e1, b).1;
      assert [Step(e, a[0]).1] + (outs1 + outs2) == ([Step(e, a[0]).1] + outs1) + outs2;
    }
  }

  /** A run whose first call is decided grants at most the capacity plus what arrives after that call. */
  lemma FirstCallBound(e: Eager, calls: seq<Call>)
    requires e.Valid() && calls != [] && Step(e, calls[0]).1.Decided?
    ensures calls[0].at <= Run(e, calls).0.now
    ensures Granted(calls, Run(e, calls).1) <= e.capacity + GridPoints(e, calls[0].at, Run(e, calls).0.now)
  {
    hide Step, GridPoints, Refill;
    StepRefills(e, calls[0]);
    var (e1, out) := Step(e, calls[0]);
    var outs := Run(e1, calls[1..]).1;
    RunConserves(e1, calls[1..]);
    assert Run(e, calls).1 == [out] + outs && ([out] + outs)[1..] == outs;
    GridPointsSame(e, e1, e1.now, Run(e, calls).0.now);
  }

  /** So does every stretch of every run. */
  lemma CallsRateBound(e: Eager, calls: seq<Call>, i: nat, j: nat)
    requires e.Valid() && i < j <= |calls|
    requires Run(e, calls).1[i].Decided?
    ensures
      var start, end := calls[i].at, Run(e, calls[..j]).0.now;
      && start <= end
      && Granted(calls[i..j], Run(e, calls).1[i..j]) <= e.capacity + GridPoints(e, start, end)
  {
    hide Step, GridPoints, Granted;
    var e1, window := Run(e, calls[..i]).0, calls[i..j];
    assert calls[..j] == calls[..i] + window;
    assert calls == calls[..j] + calls[j..];
    RunAppend(e, calls[..i], window);
    RunAppend(e, calls[..j], calls[j..]);
    assert Run(e, calls).1[i..j] == Run(e1, window).1;
    assert Run(e1, window).1[0] == Run(e, calls).1[i];
    FirstCallBound(e1, window);
    GridPointsSame(e, e1, calls[i].at, Run(e, calls[..j]).0.now);
  }

  // ---- Windows of time ------------------------------------------------------

  datatype Window = Window(from: int, to: int) {
    predicate Has(t: int) {
      from <= t <= to
    }
  }

  /** Tokens handed out by the calls made within a window, wherever they are in the run. */
  function GrantedWithin(calls: seq<Call>, outs: seq<Outcome>, w: Window): int
    requires |calls| == |outs|
  {
    if calls == [] then 0
    else (if w.Has(calls[0].at) then Grant(calls[0], outs[0]) else 0) + GrantedWithin(calls[1..], outs[1..], w)
  }

  lemma RunCons(e: Eager, calls: seq<Call>, w: Window)
    requires e.Valid() && calls != []
    ensures
      var (e1, out) := Step(e, calls[0]);
      GrantedWithin(calls, Run(e, calls).1, w)
      == (if w.Has(calls[0].at) then Grant(calls[0], out) else 0) + GrantedWithin(calls[1..], Run(e1, calls[1..]).1, w)
  {
    var (e1, out) := Step(e, calls[0]);
    assert Run(e, calls).1 == [out] + Run(e1, calls[1..]).1;
    assert ([out] + Run(e1, calls[1..]).1)[1..] == Run(e1, calls[1..]).1;
  }

  lemma RefillAtMost(e: Eager, t: int)
    requires e.Valid() && e.now <= t
    ensures Refill(e, t).tokens <= e.capacity && Refill(e, t).tokens <= e.tokens + GridPoints(e, e.now, t)
  {
    RefillClosed(e, t);
  }

  lemma StepRefills(e: Eager, c: Call)
    requires e.Valid()
    ensures var (e1, out) := Step(e, c);
      if out.Decided? then
        && e.now <= c.at && 0 <= Grant(c, out) <= Refill(e, c.at).tokens
        && e1 == Refill(e, c.at).(tokens := Refill(e, c.at).tokens - Grant(c, out))
      else e1 == e && Grant(c, out) == 0
  {
    hide Refill, Fits, Wait;
  }

  /** What a step hands out comes from what was there and what arrived. */
  lemma StepSpends(e: Eager, c: Call)
    requires e.Valid()
    ensures var (e1, out) := Step(e, c);
      && e1.Valid() && e1.(tokens := 0, now := 0) == e.(tokens := 0, now := 0) && e.now <= e1.now
      && (if out.Decided? then e1.now == c.at else e1 == e)
      && 0 <= Grant(c, out) && Grant(c, out) + e1.tokens <= e.capacity
      && Grant(c, out) + e1.tokens <= e.tokens + GridPoints(e, e.now, e1.now)
  {
    hide Refill, GridPoints, Step, Grant;
    StepRefills(e, c);
    if Step(e, c).1.Decided? {
      RefillAtMost(e, c.at);
    }
  }

  lemma {:induction false} GrantedAfter(e: Eager, calls: seq<Call>, w: Window)
    requires e.Valid() && w.to < e.now
    ensures GrantedWithin(calls, Run(e, calls).1, w) == 0
    decreases |calls|
  {
    if calls != [] {
      RunCons(e, calls, w);
      StepSpends(e, calls[0]);
      GrantedAfter(Step(e, calls[0]).0, calls[1..], w);
    }
  }

  lemma {:induction false} GrantedInside(e: Eager, calls: seq<Call>, w: Window)
    requires e.Valid() && e.now <= w.to
    ensures GrantedWithin(calls, Run(e, calls).1, w) <= e.tokens + GridPoints(e, e.now, w.to)
    decreases |calls|
  {
    hide Step, Run, GrantedWithin, Grant;
    if calls == [] {
      NothingGranted(e, w);
    } else {
      var e1 := Step(e, calls[0]).0;
      RunCons(e, calls, w);
      StepSpends(e, calls[0]);
      if e1.now <= w.to {
        GrantedInside(e1, calls[1..], w);
        GridPointsSplit(e, e.now, e1.now, w.to);
        GridPointsSame(e, e1, e1.now, w.to);
      } else {
        GrantedAfter(e1, calls[1..], w);
      }
    }
  }

  lemma NothingGranted(e: Eager, w: Window)
    requires e.Valid()
    ensures Run(e, []) == (e, []) && GrantedWithin([], [], w) == 0
  {
  }

  /**
   In every window of time of every run at most the capacity plus the grid points after the
   window's start is granted, wherever the run starts and however its calls are ordered.
   */
  lemma {:induction false} WindowRateBound(e: Eager, calls: seq<Call>, w: Window)
    requires e.Valid() && w.from <= w.to
    ensures GrantedWithin(calls, Run(e, calls).1, w) <= e.capacity + GridPoints(e, w.from, w.to)
    decreases |calls|
  {
    hide Step, Run, GrantedWithin, Grant;
    if calls == [] {
      NothingGranted(e, w);
    } else {
      var e1 := Step(e, calls[0]).0;
      RunCons(e, calls, w);
      StepSpends(e, calls[0]);
      if e1.now > w.to {
        GrantedAfter(e1, calls[1..], w);
      } else if w.from <= e1.now {
        GrantedInside(e1, calls[1..], w);
        GridPointsSplit(e, w.from, e1.now, w.to);
        GridPointsSame(e, e1, e1.now, w.to);
      } else {
        WindowRateBound(e1, calls[1..], w);
        GridPointsSame(e, e1, w.from, w.to);
      }
    }
  }

  lemma CeilingDivision(x: int, y: int, m: int)
    requires 0 < m
    ensures y / m - x / m <= (y - x + m - 1) / m
  {
    var p, q := x / m, y / m;
    assert q * m <= y by { DivAtLeast(y, m, q); }
    assert x < (p + 1) * m by { DivAtLeast(x, m, p + 1); }
    assert (q - p) * m == q * m - (p + 1) * m + m;
    DivAtLeast(y - x + m - 1, m, q - p);
  }

  /** A window holds at most one grid point per interval it begins. */
  lemma GridPointsAtMost(e: Eager, a: int, b: int)
    requires 0 < e.every && a <= b
    ensures GridPoints(e, a, b) <= (b - a + e.every - 1) / e.every
  {
    GridPointsClosed(e, a, b);
    CeilingDivision(a - e.phase, b - e.phase, e.every);
  }

  /** The amount is refused whatever the time. */
  predicate Improper(e: Eager, c: Call) {
    c.TakeCall? && !(0 < c.amount <= e.capacity)
  }

  /**
   Observing `e` at `t` first makes no difference to the calls: those it could matter to come
   no earlier than `t`, up to and including the first that fits the bucket left alone, and those
   before that one do not fit the observed bucket either. Tokens play no part in this.
   */
  ghost predicate Harmless(e: Eager, t: int, calls: seq<Call>)
    requires e.Valid() && e.now <= t
    decreases |calls|
  {
    calls == []
    || (var c := calls[0];
        if Improper(e, c) || c.at < e.now then Harmless(e, t, calls[1..])
        else
          && t <= c.at
          && (Fits(e, c.at) || (!Fits(e.(now := t), c.at) && Harmless(e, t, calls[1..]))))
  }

  /** An extra observation leaves every decision and error of a run as it was exactly when it is harmless. */
  lemma {:induction false} ExtraObservation(e: Eager, t: int, calls: seq<Call>)
    requires e.Valid() && e.now <= t
    ensures Run(Refill(e, t), calls).1 == Run(e, calls).1 <==> Harmless(e, t, calls)
    decreases |calls|
  {
    hide Step, Refill, GridPoints, Fits, Improper;
    if calls != [] {
      var c, f := calls[0], Refill(e, t);
      FirstDifference(e, t, c);
      StepSpends(e, c);
      StepSpends(f, c);
      var (e1, out) := Step(e, c);
      var (f1, fout) := Step(f, c);
      var outs, fouts := Run(e1, calls[1..]).1, Run(f1, calls[1..]).1;
      assert Run(e, calls).1 == [out] + outs && Run(f, calls).1 == [fout] + fouts;
      assert ([out] + outs)[0] == out && ([out] + outs)[1..] == outs;
      assert ([fout] + fouts)[0] == fout && ([fout] + fouts)[1..] == fouts;
      if e1 == e && f1 == f {
        ExtraObservation(e, t, calls[1..]);
      }
    }
  }

  /** So it always is before a run that goes on from there and reaches no overflow. */
  lemma {:induction false} HarmlessBeforeOverflow(e: Eager, t: int, calls: seq<Call>)
    requires e.Valid() && e.now <= t
    requires forall c <- calls :: t <= c.at
    requires Rejected(TimeOverflow) !in Run(e, calls).1
    ensures Harmless(e, t, calls)
    decreases |calls|
  {
    hide Step, Refill, GridPoints, Fits, Improper;
    if calls != [] {
      FirstDifference(e, t, calls[0]);
      assert Run(e, calls).1[0] == Step(e, calls[0]).1;
      if Improper(e, calls[0]) {
        assert Run(e, calls).1 == [Step(e, calls[0]).1] + Run(e, calls[1..]).1;
        assert forall c <- calls[1..] :: c in calls;
        HarmlessBeforeOverflow(e, t, calls[1..]);
      }
    }
  }

  /** What decides whether a call is answered. */
  lemma StepCases(e: Eager, c: Call)
    requires e.Valid()
    ensures
      if Improper(e, c) then
        Step(e, c) == (e, Rejected(if c.amount <= 0 then InvalidAmount else AmountExceedsCapacity))
      else if c.at < e.now then Step(e, c) == (e, Rejected(TimeRollback))
      else if !Fits(e, c.at) then Step(e, c) == (e, Rejected(TimeOverflow))
      else Step(e, c).1.Decided?
  {
    hide Refill, Fits, Wait;
  }

  /** A call that fits the bucket left alone is answered by the observed one just the same. */
  lemma StepAgrees(e: Eager, t: int, c: Call)
    requires e.Valid() && e.now <= t <= c.at && Fits(e, c.at) && !Improper(e, c)
    ensures Fits(e.(now := t), c.at) && Step(Refill(e, t), c) == Step(e, c)
  {
    hide GridPoints, Wait, Fits, Refill, Step;
    FitsLater(e, t, c.at);
    RefillCompose(e, t, c.at);
    OnlyArrivalCounts(e, Refill(e, t), c);
  }

  /** How a call that fits is answered depends only on the bucket as it arrives there. */
  lemma OnlyArrivalCounts(e: Eager, f: Eager, c: Call)
    requires e.Valid() && f.Valid() && e.now <= c.at && f.now <= c.at && Fits(e, c.at) && Fits(f, c.at)
    requires !Improper(e, c) && e.capacity == f.capacity && Refill(e, c.at) == Refill(f, c.at)
    ensures Step(e, c) == Step(f, c)
  {
    hide GridPoints, Wait, Fits, Refill;
  }

  /** Observing never puts out of reach what was within reach. */
  lemma FitsLater(e: Eager, t: int, u: int)
    requires e.Valid() && e.now <= t
    ensures Fits(Refill(e, t), u) <==> Fits(e.(now := t), u)
    ensures Fits(e, u) ==> Fits(Refill(e, t), u)
  {
    hide GridPoints, Refill;
    AnchorMonotone(e, t);
  }

  /** How one call tells an observed bucket from the one left alone. */
  lemma FirstDifference(e: Eager, t: int, c: Call)
    requires e.Valid() && e.now <= t
    ensures
      var f := Refill(e, t);
      if Improper(e, c) || c.at < e.now then Step(f, c) == (f, Step(e, c).1) && Step(e, c).0 == e
      else if c.at < t then Step(f, c).1 != Step(e, c).1
      else if Fits(e, c.at) then Step(f, c) == Step(e, c)
      else if Fits(e.(now := t), c.at) then Step(f, c).1 != Step(e, c).1
      else Step(f, c) == (f, Rejected(TimeOverflow)) && Step(e, c) == (e, Rejected(TimeOverflow))
    ensures !Improper(e, c) && e.now <= c.at && !Fits(e, c.at) ==> Step(e, c).1 == Rejected(TimeOverflow)
  {
    hide GridPoints, Step, Refill, Fits;
    FitsLater(e, t, c.at);
    StepCases(e, c);
    StepCases(Refill(e, t), c);
    if t <= c.at && Fits(e, c.at) && !Improper(e, c) {
      StepAgrees(e, t, c);
    }
  }

  /**
   A wait that the clock cannot measure: a new bucket hands out its tokens, denies a second
   request, and rejects that request as an overflow after exactly the advised wait.
   */
  lemma RetryAfterCanOverflow()
    ensures
      var e, late := Eager(2, MAX_INT64 - 1, 0, 2, 0), MAX_INT64 - 2;
      && e.Valid()
      && Run(e, [TakeCall(0, 2), TakeCall(late, 2), TakeCall(late + MAX_INT64, 2)]).1
         == [Decided(Decision(true, 0, 0)), Decided(Decision(false, 0, MAX_INT64)), Rejected(TimeOverflow)]
  {
    hide GridPoints, Refill;
    var e, late := Eager(2, MAX_INT64 - 1, 0, 2, 0), MAX_INT64 - 2;
    var spent := e.(tokens := 0);
    var waited := spent.(now := late);
    RefillClosed(e, 0);
    GridPointsClosed(e, 0, 0);
    RefillClosed(spent, late);
    GridPointsClosed(spent, 0, late);
    DivModUnique(late, e.every, 0, late);
    RefillNow(waited);
    assert Step(e, TakeCall(0, 2)) == (spent, Decided(Decision(true, 0, 0))) by { RefillNow(e); }
    assert Refill(spent, late) == waited;
    assert Step(spent, TakeCall(late, 2)) == (waited, Decided(Decision(false, 0, MAX_INT64)));
    assert Step(waited, TakeCall(late + MAX_INT64, 2)) == (waited, Rejected(TimeOverflow));
    var c1, c2, c3 := TakeCall(0, 2), TakeCall(late, 2), TakeCall(late + MAX_INT64, 2);
    assert [c1, c2, c3][1..] == [c2, c3] && [c2, c3][1..] == [c3] && [c3][1..] == [];
    assert Run(waited, [c3]).1 == [Rejected(TimeOverflow)];
    assert Run(spent, [c2, c3]).1 == [Decided(Decision(false, 0, MAX_INT64))] + Run(waited, [c3]).1;
  }

  lemma RefillNow(e: Eager)
    requires e.Valid()
    ensures Refill(e, e.now) == e
  {
  }

  // ---- What the answered numbers mean -----------------------------------------

  /** The tokens that an observation reports are exactly what a request at that instant could take. */
  lemma AvailableMeans(e: Eager, now: int, amount: int)
    requires e.Valid() && 0 < amount <= e.capacity
    requires Observe(e, now).1.Decided?
    ensures
      var seen, asked := Observe(e, now).1.decision, Take(e, now, amount).1;
      && seen.allowed && seen.retryAfter == 0
      && asked.Decided? && (asked.decision.allowed <==> amount <= seen.remaining)
  {
    hide Refill, Fits, Wait;
  }

  /**
   The tokens that a decision leaves are exactly what the next request at that instant could
   take, and what the decision granted is missing from what was there.
   */
  lemma RemainingMeans(e: Eager, now: int, amount: int, next: int)
    requires e.Valid() && 0 < amount <= e.capacity && 0 < next <= e.capacity
    requires Take(e, now, amount).1.Decided?
    ensures
      var (e', out) := Take(e, now, amount);
      var left, asked, before := out.decision, Take(e', now, next).1, Observe(e, now).1;
      && e'.Valid() && asked.Decided? && (asked.decision.allowed <==> next <= left.remaining)
      && before.Decided? && before.decision.remaining == left.remaining + (if left.allowed then amount else 0)
      && (if left.allowed then left.retryAfter == 0 else left.retryAfter > 0)
  {
    hide GridPoints;
    var r := Refill(e, now);
    FitsLater(e, now, now);
    AnchorOnGrid(r);
    var e' := Take(e, now, amount).0;
    assert Anchor(e') == Anchor(r);
    RefillNow(e');
    if r.tokens < amount {
      MulMonotone(1, amount - r.tokens, r.every);
    }
  }
}
