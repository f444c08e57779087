/**
 The lab's distributed limiters, holding one token bucket per tenant or per tenant and node.
 Each method is one atomic step, and is proved equal to the step of the state machine.
 */
module Limiter {
  import opened GoNumbers
  import opened GoText
  import opened EagerBucket
  import opened TokenBucket
  import opened KeyedBuckets
  import opened LimiterRuns

  /** The bucket map that both kinds of limiter own. */
  class BucketTable<K(==)> {
    const config: Config
    var buckets: map<K, Bucket>

    ghost predicate Valid()
      reads this, buckets.Values
    {
      && ValidConfig(config)
      && (forall k <- buckets :: Of(config, buckets[k]))
      && (forall k, l :: k in buckets && l in buckets && k != l ==> buckets[k] != buckets[l])
    }

    /** The eager buckets this table stands for. */
    ghost function Abstract(): (b: map<K, Eager>)
      requires Valid()
      reads this, buckets.Values
      ensures Uniform(config, b)
    {
      map k | k in buckets :: buckets[k].Abstract()
    }

    constructor (config: Config)
      requires ValidConfig(config)
      ensures Valid() && Abstract() == map[] && this.config == config && buckets == map[]
    {
      this.config := config;
      buckets := map[];
    }

    /** The key's bucket, created full at its first request. */
    method Find(key: K, now: int) returns (bucket: Bucket)
      requires Valid()
      modifies this
      ensures Valid() && fresh(buckets.Values - old(buckets.Values))
      ensures key in buckets && bucket == buckets[key]
      ensures bucket.Abstract() == Serving(config, old(Abstract()), key, now)
      ensures Abstract() == old(Abstract())[key := bucket.Abstract()]
    {
      hide Uniform;
      if key in buckets {
        return buckets[key];
      }
      var created := Bucket.New(config, now);
      if created.Refused? {
        assert false;
      }
      bucket := created.bucket;
      assert forall k <- buckets :: buckets[k] in buckets.Values;
      buckets := buckets[key := bucket];
    }

    /** Take from the key's bucket. */
    method Take(key: K, now: int, amount: uint64) returns (out: Outcome)
      requires Valid() && Acceptable(config, amount as int)
      modifies this, buckets.Values
      ensures Valid() && fresh(buckets.Values - old(buckets.Values))
      ensures (Abstract(), out) == TakeFrom(config, old(Abstract()), Ask(key, now, amount as int))
    {
      hide Uniform, EagerBucket.Take, Serving, Fresh;
      var bucket := Find(key, now);
      ghost var found := Abstract();
      assert bucket in buckets.Values;
      out := bucket.Take(now, amount);
      forall k | k in buckets
        ensures Of(config, buckets[k]) && (k != key ==> buckets[k].Abstract() == found[k])
      {
        assert k != key ==> buckets[k] != bucket;
      }
      assert Abstract() == found[key := bucket.Abstract()] == old(Abstract())[key := bucket.Abstract()];
      assert found[key] == Serving(config, old(Abstract()), key, now);
    }
  }

  ghost predicate Of(config: Config, bucket: Bucket)
    reads bucket
  {
    bucket.Valid() && bucket.capacity == config.capacity && bucket.refillEvery == config.refillEvery
  }

  datatype Taken = Taken(outcome: Outcome) | Invalid(error: RequestError) | Unavailable

  /** What is wrong with a take, before the coordinator's health is looked at. */
  function TakeFault(tenant: string, amount: uint64, capacity: uint64): (fault: seq<RequestError>)
    ensures 0 < capacity ==> (fault == [] <==> !Blank(tenant) && 0 < amount <= capacity)
  {
    if Blank(tenant) then [BlankTenant]
    else if amount == 0 then [FromBucket(InvalidAmount)]
    else if capacity != 0 && amount > capacity then [FromBucket(AmountExceedsCapacity)]
    else []
  }

  /** validateRequest; a zero capacity leaves the amount unbounded. */
  method ValidateRequest(tenant: string, node: string, amount: uint64, capacity: uint64) returns (fault: seq<RequestError>)
    ensures fault ==
      if Blank(tenant) then [BlankTenant]
      else if Blank(node) then [BlankNode]
      else if amount == 0 then [FromBucket(InvalidAmount)]
      else if capacity != 0 && amount > capacity then [FromBucket(AmountExceedsCapacity)]
      else []
  {
    if Blank(tenant) {
      return [BlankTenant];
    }
    if Blank(node) {
      return [BlankNode];
    }
    if amount == 0 {
      return [FromBucket(InvalidAmount)];
    }
    if capacity != 0 && amount > capacity {
      return [FromBucket(AmountExceedsCapacity)];
    }
    return [];
  }

  class SharedCoordinator {
    const table: BucketTable<string>

    constructor (config: Config)
      requires ValidConfig(config)
      ensures fresh(table) && table.Valid() && table.Abstract() == map[] && table.config == config && table.buckets == map[]
    {
      table := new BucketTable<string>(config);
    }

    method Take(tenant: string, amount: uint64, now: int) returns (taken: Taken)
      requires table.Valid()
      modifies table, table.buckets.Values
      ensures table.Valid() && fresh(table.buckets.Values - old(table.buckets.Values))
      ensures taken.Invalid? <==> TakeFault(tenant, amount, table.config.capacity) != []
      ensures taken.Invalid? ==> taken.error == TakeFault(tenant, amount, table.config.capacity)[0]
      ensures taken.Invalid? ==> table.Abstract() == old(table.Abstract())
      ensures !taken.Invalid? ==>
        taken.Taken? && (table.Abstract(), taken.outcome) == TakeFrom(table.config, old(table.Abstract()), Ask(tenant, now, amount as int))
    {
      hide Blank, TakeFrom, Uniform;
      var fault := TakeFault(tenant, amount, table.config.capacity);
      if fault != [] {
        return Invalid(fault[0]);
      }
      var out := table.Take(tenant, now, amount);
      return Taken(out);
    }
  }

  class AvailabilityCoordinator {
    const delegate: SharedCoordinator
    var available: bool

    constructor (delegate: SharedCoordinator)
      ensures this.delegate == delegate && available
    {
      this.delegate := delegate;
      available := true;
    }

    method SetAvailable(now: bool)
      modifies this
      ensures available == now
    {
      available := now;
    }

    method Take(tenant: string, amount: uint64, now: int) returns (taken: Taken)
      requires delegate.table.Valid()
      modifies delegate.table, delegate.table.buckets.Values
      ensures delegate.table.Valid() && fresh(delegate.table.buckets.Values - old(delegate.table.buckets.Values))
      ensures taken.Invalid? <==> TakeFault(tenant, amount, delegate.table.config.capacity) != []
      ensures taken.Invalid? ==> taken.error == TakeFault(tenant, amount, delegate.table.config.capacity)[0]
      ensures taken.Unavailable? <==> !taken.Invalid? && !available
      ensures !taken.Taken? ==> delegate.table.Abstract() == old(delegate.table.Abstract())
      ensures taken.Taken? ==>
        (delegate.table.Abstract(), taken.outcome)
        == TakeFrom(delegate.table.config, old(delegate.table.Abstract()), Ask(tenant, now, amount as int))
    {
      hide Blank, TakeFrom, Uniform;
      var fault := TakeFault(tenant, amount, delegate.table.config.capacity);
      if fault != [] {
        return Invalid(fault[0]);
      }
      if !available {
        return Unavailable;
      }
      taken := delegate.Take(tenant, amount, now);
    }
  }

  class CoordinatedLimiter {
    const coordinator: AvailabilityCoordinator
    const policy: Policy

    constructor (coordinator: AvailabilityCoordinator, policy: Policy)
      ensures this.coordinator == coordinator && this.policy == policy
    {
      this.coordinator := coordinator;
      this.policy := policy;
    }

    ghost predicate Valid()
      reads coordinator, coordinator.delegate.table, coordinator.delegate.table.buckets.Values
    {
      coordinator.delegate.table.Valid()
    }

    /** The whole system behind this limiter. */
    ghost function Abstract(): (s: System)
      requires Valid()
      reads coordinator, coordinator.delegate.table, coordinator.delegate.table.buckets.Values
      ensures s.Valid()
    {
      var table := coordinator.delegate.table;
      System(table.config, policy, coordinator.available, table.Abstract())
    }

    method Allow(tenant: string, node: string, amount: uint64, now: int) returns (reply: Reply)
      requires Valid()
      modifies coordinator.delegate.table, coordinator.delegate.table.buckets.Values
      ensures Valid() && fresh(coordinator.delegate.table.buckets.Values - old(coordinator.delegate.table.buckets.Values))
      ensures (Abstract(), reply) == AllowShared(old(Abstract()), Request(tenant, node, amount as int), now)
    {
      hide Blank, TakeFrom, Uniform;
      var fault := ValidateRequest(tenant, node, amount, 0);
      if fault != [] {
        return Unserved(fault[0]);
      }
      var taken := coordinator.Take(tenant, amount, now);
      match taken
      case Taken(out) =>
        reply := AnswerOf(out);
      case Invalid(error) =>
        reply := Unserved(error);
      case Unavailable =>
        reply := if policy.FailOpen?
        then Answer(true, true, "coordinator-unavailable-fail-open", 0, 0)
        else Answer(false, true, "coordinator-unavailable-fail-closed", 0, 0);
    }
  }

  class PerNodeLimiter {
    const table: BucketTable<NodeKey>

    constructor (config: Config)
      requires ValidConfig(config)
      ensures fresh(table) && table.Valid() && table.Abstract() == map[] && table.config == config && table.buckets == map[]
    {
      table := new BucketTable<NodeKey>(config);
    }

    method Allow(tenant: string, node: string, amount: uint64, now: int) returns (reply: Reply)
      requires table.Valid()
      modifies table, table.buckets.Values
      ensures table.Valid() && fresh(table.buckets.Values - old(table.buckets.Values))
      ensures (table.Abstract(), reply)
           == AllowOnNode(table.config, old(table.Abstract()), Request(tenant, node, amount as int), now)
    {
      hide Blank, TakeFrom, Uniform;
      var fault := ValidateRequest(tenant, node, amount, table.config.capacity);
      if fault != [] {
        return Unserved(fault[0]);
      }
      var out := table.Take(NodeKey(tenant, node), now, amount);
      reply := AnswerOf(out);
    }
  }
}
