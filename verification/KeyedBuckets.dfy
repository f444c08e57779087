/** Many buckets, one per key, each created by the first request for its key. */
module KeyedBuckets {
  import opened GoNumbers
  import opened EagerBucket
  import opened TokenBucket

  datatype Ask<K> = Ask(key: K, at: int, amount: int)

  /** Every bucket is valid and of the one configuration. */
  ghost predicate Uniform<K>(config: Config, buckets: map<K, Eager>) {
    forall k <- buckets ::
      buckets[k].Valid() && buckets[k].capacity == config.capacity as int && buckets[k].every == config.refillEvery as int
  }

  ghost predicate Acceptable(config: Config, amount: int) {
    0 < amount <= config.capacity as int
  }

  /** The bucket that serves a request for `key` at `at`. */
  ghost function Serving<K>(config: Config, buckets: map<K, Eager>, key: K, at: int): (e: Eager)
    requires ValidConfig(config) && Uniform(config, buckets)
    ensures e.Valid() && e.capacity == config.capacity as int && e.every == config.refillEvery as int
  {
    if key in buckets then buckets[key] else Fresh(config, at)
  }

  ghost function TakeFrom<K>(config: Config, buckets: map<K, Eager>, a: Ask<K>): (r: (map<K, Eager>, Outcome))
    requires ValidConfig(config) && Uniform(config, buckets)
    ensures Uniform(config, r.0)
  {
    if a.amount <= 0 then (buckets, Rejected(InvalidAmount))
    else if a.amount > config.capacity as int then (buckets, Rejected(AmountExceedsCapacity))
    else
      var (e, out) := Take(Serving(config, buckets, a.key, a.at), a.at, a.amount);
      (buckets[a.key := e], out)
  }

  ghost function RunAll<K>(config: Config, buckets: map<K, Eager>, asks: seq<Ask<K>>): (r: (map<K, Eager>, seq<Outcome>))
    requires ValidConfig(config) && Uniform(config, buckets)
    ensures Uniform(config, r.0) && |r.1| == |asks|
    decreases |asks|
  {
    if asks == [] then (buckets, [])
    else
      var (b, out) := TakeFrom(config, buckets, asks[0]);
      var (b', outs) := RunAll(config, b, asks[1..]);
      (b', [out] + outs)
  }

  lemma RunAllCons<K>(config: Config, buckets: map<K, Eager>, ask: Ask<K>, rest: seq<Ask<K>>)
    requires ValidConfig(config) && Uniform(config, buckets)
    ensures var (b, out) := TakeFrom(config, buckets, ask);
      RunAll(config, buckets, [ask] + rest) == (RunAll(config, b, rest).0, [out] + RunAll(config, b, rest).1)
  {
    hide TakeFrom;
    assert ([ask] + rest)[0] == ask && ([ask] + rest)[1..] == rest;
  }

  // ---- One key's view of a run ------------------------------------------------

  ghost predicate Concerns<K>(config: Config, a: Ask<K>, key: K) {
    a.key == key && Acceptable(config, a.amount)
  }

  /** The calls that reach the bucket of `key`. */
  ghost function CallsFor<K>(config: Config, asks: seq<Ask<K>>, key: K): seq<Call> {
    if asks == [] then []
    else
      (if Concerns(config, asks[0], key) then [TakeCall(asks[0].at, asks[0].amount)] else [])
      + CallsFor(config, asks[1..], key)
  }

  ghost function OutcomesFor<K>(config: Config, asks: seq<Ask<K>>, outs: seq<Outcome>, key: K): (r: seq<Outcome>)
    requires |asks| == |outs|
    ensures |r| == |CallsFor(config, asks, key)|
  {
    if asks == [] then []
    else
      (if Concerns(config, asks[0], key) then [outs[0]] else [])
      + OutcomesFor(config, asks[1..], outs[1..], key)
  }

  /**
   In any interleaving, the decisions for one key are those of a single bucket fed
   only that key's requests, and that bucket's state is what is left behind.
   */
  lemma {:induction false} Projection<K>(config: Config, buckets: map<K, Eager>, asks: seq<Ask<K>>, key: K)
    requires ValidConfig(config) && Uniform(config, buckets)
    ensures
      var (b', outs) := RunAll(config, buckets, asks);
      var calls := CallsFor(config, asks, key);
      if calls == [] then
        (key in b' <==> key in buckets) && (key in buckets ==> b'[key] == buckets[key])
      else
        key in b'
        && (b'[key], OutcomesFor(config, asks, outs, key)) == Run(Serving(config, buckets, key, calls[0].at), calls)
    decreases |asks|
  {
    if asks != [] {
      var a := asks[0];
      var (b, out) := TakeFrom(config, buckets, a);
      var (b', outs) := RunAll(config, b, asks[1..]);
      assert RunAll(config, buckets, asks) == (b', [out] + outs);
      assert ([out] + outs)[1..] == outs;
      Projection(config, b, asks[1..], key);
      var rest := CallsFor(config, asks[1..], key);
      if Concerns(config, a, key) {
        var calls := CallsFor(config, asks, key);
        assert calls[1..] == rest;
        var e := Serving(config, buckets, key, a.at);
        assert Step(e, calls[0]) == (b[key], out);
        assert Run(e, calls).1 == [out] + Run(b[key], rest).1;
      } else {
        assert CallsFor(config, asks, key) == rest;
        assert OutcomesFor(config, asks, [out] + outs, key) == OutcomesFor(config, asks[1..], outs, key);
      }
    }
  }

  // ---- What is granted ----------------------------------------------------------

  function GrantOf<K>(a: Ask<K>, out: Outcome): int {
    if out.Decided? && out.decision.allowed then a.amount else 0
  }

  /** Tokens granted to the keys of a set by the requests made within a window. */
  ghost function GrantedTo<K>(keys: set<K>, asks: seq<Ask<K>>, outs: seq<Outcome>, w: Window): int
    requires |asks| == |outs|
  {
    if asks == [] then 0
    else
      (if asks[0].key in keys && w.Has(asks[0].at) then GrantOf(asks[0], outs[0]) else 0)
      + GrantedTo(keys, asks[1..], outs[1..], w)
  }

  lemma {:induction false} GrantedSplits<K>(keys: set<K>, k: K, asks: seq<Ask<K>>, outs: seq<Outcome>, w: Window)
    requires |asks| == |outs| && k !in keys
    ensures GrantedTo(keys + {k}, asks, outs, w) == GrantedTo(keys, asks, outs, w) + GrantedTo({k}, asks, outs, w)
  {
    if asks != [] {
      GrantedSplits(keys, k, asks[1..], outs[1..], w);
    }
  }

  lemma {:induction false} GrantedToKey<K>(config: Config, buckets: map<K, Eager>, asks: seq<Ask<K>>, key: K, w: Window)
    requires ValidConfig(config) && Uniform(config, buckets)
    ensures
      var outs := RunAll(config, buckets, asks).1;
      GrantedTo({key}, asks, outs, w) == GrantedWithin(CallsFor(config, asks, key), OutcomesFor(config, asks, outs, key), w)
    decreases |asks|
  {
    if asks != [] {
      var (b, out) := TakeFrom(config, buckets, asks[0]);
      var outs := RunAll(config, b, asks[1..]).1;
      GrantedToKey(config, b, asks[1..], key, w);
      assert RunAll(config, buckets, asks).1 == [out] + outs;
      assert ([out] + outs)[1..] == outs;
      var calls, results := CallsFor(config, asks, key), OutcomesFor(config, asks, [out] + outs, key);
      if Concerns(config, asks[0], key) {
        assert calls[1..] == CallsFor(config, asks[1..], key);
        assert results[1..] == OutcomesFor(config, asks[1..], outs, key);
      } else {
        assert calls == CallsFor(config, asks[1..], key);
        assert results == OutcomesFor(config, asks[1..], outs, key);
      }
    }
  }

  /**
   In every window of every run, from whatever buckets there are, one key is granted at most
   the capacity and the window's grid points of its bucket, and nothing without a bucket.
   */
  lemma KeyBound<K>(config: Config, buckets: map<K, Eager>, asks: seq<Ask<K>>, key: K, w: Window)
    requires ValidConfig(config) && Uniform(config, buckets) && w.from <= w.to
    ensures
      var (b', outs) := RunAll(config, buckets, asks);
      GrantedTo({key}, asks, outs, w)
      <= if key in b' then config.capacity as int + GridPoints(b'[key], w.from, w.to) else 0
  {
    var (b', outs) := RunAll(config, buckets, asks);
    var calls := CallsFor(config, asks, key);
    Projection(config, buckets, asks, key);
    GrantedToKey(config, buckets, asks, key, w);
    if calls != [] {
      var e := Serving(config, buckets, key, calls[0].at);
      WindowRateBound(e, calls, w);
      GridPointsSame(e, b'[key], w.from, w.to);
    }
  }

  /** The most that one key is granted in a window: the capacity and a token per interval begun. */
  function WindowAllowance(config: Config, w: Window): int
    requires 0 < config.refillEvery
  {
    config.capacity as int + (w.to - w.from + config.refillEvery as int - 1) / config.refillEvery as int
  }

  lemma KeyAllowance<K>(config: Config, buckets: map<K, Eager>, asks: seq<Ask<K>>, key: K, w: Window)
    requires ValidConfig(config) && Uniform(config, buckets) && w.from <= w.to
    ensures GrantedTo({key}, asks, RunAll(config, buckets, asks).1, w) <= WindowAllowance(config, w)
  {
    hide RunAll, GrantedTo, GridPoints;
    var b' := RunAll(config, buckets, asks).0;
    KeyBound(config, buckets, asks, key, w);
    if key in b' {
      GridPointsAtMost(b'[key], w.from, w.to);
    } else {
      DivAtLeast(w.to - w.from + config.refillEvery as int - 1, config.refillEvery as int, 0);
    }
  }

  /** A bucket created at `start` meets one grid point for each full interval since. */
  lemma FreshGrid(config: Config, start: int, t: int)
    requires ValidConfig(config) && start <= t
    ensures GridPoints(Fresh(config, start), start, t) == (t - start) / config.refillEvery as int
  {
    var e, m := Fresh(config, start), config.refillEvery as int;
    GridPointsClosed(e, start, t);
    var q, w := start / m, (t - start) / m;
    assert start - e.phase == q * m;
    DivModUnique(start - e.phase, m, q, 0);
    assert (q + w) * m == q * m + w * m;
    DivModUnique(t - e.phase, m, q + w, (t - start) % m);
  }

  lemma {:induction false} CallsWithin<K>(config: Config, asks: seq<Ask<K>>, key: K, lo: int, hi: int)
    requires forall a <- asks :: lo <= a.at <= hi
    ensures forall c <- CallsFor(config, asks, key) :: lo <= c.at <= hi
  {
    if asks != [] {
      CallsWithin(config, asks[1..], key, lo, hi);
    }
  }

  function NewAllowance(config: Config, w: Window): int
    requires 0 < config.refillEvery
  {
    config.capacity as int + (w.to - w.from) / config.refillEvery as int
  }

  /** A key that has no bucket when the window opens is granted a token per full interval only. */
  lemma NewKeyBound<K>(config: Config, buckets: map<K, Eager>, asks: seq<Ask<K>>, key: K, w: Window)
    requires ValidConfig(config) && Uniform(config, buckets) && w.from <= w.to
    requires key !in buckets && forall a <- asks :: w.Has(a.at)
    ensures GrantedTo({key}, asks, RunAll(config, buckets, asks).1, w) <= NewAllowance(config, w)
  {
    var calls := CallsFor(config, asks, key);
    var outs := RunAll(config, buckets, asks).1;
    Projection(config, buckets, asks, key);
    GrantedToKey(config, buckets, asks, key, w);
    CallsWithin(config, asks, key, w.from, w.to);
    DivAtLeast(w.to - w.from, config.refillEvery as int, 0);
    if calls != [] {
      var first := calls[0].at;
      var e := Fresh(config, first);
      GrantedInside(e, calls, w);
      FreshGrid(config, first, w.to);
      DivMonotone(w.to - first, w.to - w.from, config.refillEvery as int);
    }
  }

  lemma DivMonotone(a: int, b: int, m: int)
    requires 0 < m && a <= b
    ensures a / m <= b / m
  {
    DivAtLeast(a, m, a / m);
    DivAtLeast(b, m, a / m);
  }

  /** `n` keys together are granted at most `n` times what each is. */
  lemma {:induction false} SumOfKeys<K>(keys: set<K>, asks: seq<Ask<K>>, outs: seq<Outcome>, w: Window, bound: int)
    requires |asks| == |outs|
    requires forall k <- keys :: GrantedTo({k}, asks, outs, w) <= bound
    ensures GrantedTo(keys, asks, outs, w) <= |keys| * bound
    decreases |keys|
  {
    hide GrantedTo;
    if keys == {} {
      NobodyGranted<K>(asks, outs, w);
    } else {
      var k :| k in keys;
      SumOfKeys(keys - {k}, asks, outs, w, bound);
      GrantedSplits(keys - {k}, k, asks, outs, w);
      assert keys - {k} + {k} == keys;
      assert |keys| * bound == (|keys| - 1) * bound + bound;
    }
  }

  /** In every window of every run `n` keys together are granted at most `n` times one key's allowance. */
  lemma TotalBound<K>(config: Config, buckets: map<K, Eager>, asks: seq<Ask<K>>, keys: set<K>, w: Window)
    requires ValidConfig(config) && Uniform(config, buckets) && w.from <= w.to
    ensures GrantedTo(keys, asks, RunAll(config, buckets, asks).1, w) <= |keys| * WindowAllowance(config, w)
  {
    hide RunAll, GrantedTo, WindowAllowance;
    var outs := RunAll(config, buckets, asks).1;
    forall k | k in keys
      ensures GrantedTo({k}, asks, outs, w) <= WindowAllowance(config, w)
    {
      KeyAllowance(config, buckets, asks, k, w);
    }
    SumOfKeys(keys, asks, outs, w, WindowAllowance(config, w));
  }

  lemma NewKeysBound<K>(config: Config, buckets: map<K, Eager>, asks: seq<Ask<K>>, keys: set<K>, w: Window)
    requires ValidConfig(config) && Uniform(config, buckets) && w.from <= w.to
    requires keys !! buckets.Keys && forall a <- asks :: w.Has(a.at)
    ensures GrantedTo(keys, asks, RunAll(config, buckets, asks).1, w) <= |keys| * NewAllowance(config, w)
  {
    hide RunAll, GrantedTo, NewAllowance;
    var outs := RunAll(config, buckets, asks).1;
    forall k | k in keys
      ensures GrantedTo({k}, asks, outs, w) <= NewAllowance(config, w)
    {
      NewKeyBound(config, buckets, asks, k, w);
    }
    SumOfKeys(keys, asks, outs, w, NewAllowance(config, w));
  }

  lemma {:induction false} NobodyGranted<K>(asks: seq<Ask<K>>, outs: seq<Outcome>, w: Window)
    requires |asks| == |outs|
    ensures GrantedTo({}, asks, outs, w) == 0
  {
    if asks != [] {
      NobodyGranted(asks[1..], outs[1..], w);
    }
  }

  /** Each of the requests empties a full bucket of a new key, at the same instant. */
  ghost predicate OneEach<K>(config: Config, buckets: map<K, Eager>, asks: seq<Ask<K>>, at: int) {
    && (forall a <- asks :: a.at == at && a.amount == config.capacity as int && a.key !in buckets)
    && (forall i, j :: 0 <= i < j < |asks| ==> asks[i].key != asks[j].key)
  }

  lemma {:induction false} EachIsAllowed<K>(config: Config, buckets: map<K, Eager>, asks: seq<Ask<K>>, at: int)
    requires ValidConfig(config) && Uniform(config, buckets) && OneEach(config, buckets, asks, at)
    ensures forall i :: 0 <= i < |asks| ==> RunAll(config, buckets, asks).1[i] == Decided(Decision(true, 0, 0))
    decreases |asks|
  {
    hide Uniform, Take, Fresh;
    if asks != [] {
      var (b, out) := TakeFrom(config, buckets, asks[0]);
      assert asks[0] in asks;
      FreshTake(config, at);
      forall a | a in asks[1..]
        ensures a in asks && a.key !in b
      {
        var i :| 1 <= i < |asks| && asks[i] == a;
      }
      EachIsAllowed(config, b, asks[1..], at);
      assert RunAll(config, buckets, asks).1 == [out] + RunAll(config, b, asks[1..]).1;
    }
  }

  lemma {:induction false} AllGranted<K>(keys: set<K>, asks: seq<Ask<K>>, outs: seq<Outcome>, amount: int, w: Window)
    requires |asks| == |outs|
    requires forall a <- asks :: a.key in keys && a.amount == amount && w.Has(a.at)
    requires forall i :: 0 <= i < |outs| ==> outs[i].Decided? && outs[i].decision.allowed
    ensures GrantedTo(keys, asks, outs, w) == |asks| * amount
  {
    if asks != [] {
      assert asks[0] in asks;
      AllGranted(keys, asks[1..], outs[1..], amount, w);
      assert |asks| * amount == (|asks| - 1) * amount + amount;
    }
  }

  /** The bound is attained: at one instant every new key empties a full bucket of its own. */
  lemma FreshKeysEmptyTheirBuckets<K>(config: Config, keys: set<K>, asks: seq<Ask<K>>, at: int)
    requires ValidConfig(config) && OneEach(config, map[], asks, at)
    requires |asks| == |keys| && forall a <- asks :: a.key in keys
    ensures GrantedTo(keys, asks, RunAll(config, map[], asks).1, Window(at, at)) == |keys| * config.capacity as int
    ensures WindowAllowance(config, Window(at, at)) == config.capacity as int
  {
    EachIsAllowed(config, map[], asks, at);
    AllGranted(keys, asks, RunAll(config, map[], asks).1, config.capacity as int, Window(at, at));
    DivModUnique(config.refillEvery as int - 1, config.refillEvery as int, 0, config.refillEvery as int - 1);
  }

  lemma FreshTake(config: Config, at: int)
    requires ValidConfig(config)
    ensures Take(Fresh(config, at), at, config.capacity as int).1 == Decided(Decision(true, 0, 0))
  {
    var e := Fresh(config, at);
    AnchorOnGrid(e);
    assert config.refillEvery as int <= MAX_INT64;
  }
}
