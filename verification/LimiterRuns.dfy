/** The distributed rate limiters as state machines. */
module LimiterRuns {
  // One shared coordinator that may be down, under either outage policy; and one limiter per node.

  import opened GoNumbers
  import opened GoText
  import opened EagerBucket
  import opened TokenBucket
  import opened KeyedBuckets

  datatype Request = Request(tenant: string, node: string, amount: int)

  datatype RequestError = BlankTenant | BlankNode | FromBucket(error: TakeError)

  datatype Reply =
    | Answer(allowed: bool, degraded: bool, reason: string, remaining: int, retryAfter: int)
    | Unserved(error: RequestError)

  datatype Policy = FailClosed | FailOpen

  datatype Event = Allow(request: Request, at: int) | SetAvailable(available: bool)

  function AnswerOf(out: Outcome): Reply {
    match out
    case Decided(d) => Answer(d.allowed, false, "", d.remaining, d.retryAfter)
    case Rejected(error) => Unserved(FromBucket(error))
  }

  /** The answer while the coordinator is down. */
  function Degraded(policy: Policy): Reply {
    match policy
    case FailOpen => Answer(true, true, "coordinator-unavailable-fail-open", 0, 0)
    case FailClosed => Answer(false, true, "coordinator-unavailable-fail-closed", 0, 0)
  }

  // ---- The shared limiter -------------------------------------------------------

  datatype System = System(config: Config, policy: Policy, available: bool, buckets: map<string, Eager>) {
    ghost predicate Valid() {
      ValidConfig(config) && Uniform(config, buckets)
    }
  }

  /** What is wrong with a request before any bucket or the coordinator's health is looked at. */
  function Fault(config: Config, r: Request): (error: seq<RequestError>)
    ensures |error| <= 1
  {
    if Blank(r.tenant) then [BlankTenant]
    else if Blank(r.node) then [BlankNode]
    else if r.amount <= 0 then [FromBucket(InvalidAmount)]
    else if r.amount > config.capacity as int then [FromBucket(AmountExceedsCapacity)]
    else []
  }

  ghost function AllowShared(s: System, r: Request, at: int): (System, Reply)
    requires s.Valid()
  {
    if Fault(s.config, r) != [] then (s, Unserved(Fault(s.config, r)[0]))
    else if !s.available then (s, Degraded(s.policy))
    else
      var (buckets, out) := TakeFrom(s.config, s.buckets, Ask(r.tenant, at, r.amount));
      (s.(buckets := buckets), AnswerOf(out))
  }

  ghost function Next(s: System, e: Event): System
    requires s.Valid()
  {
    match e
    case Allow(r, at) => AllowShared(s, r, at).0
    case SetAvailable(available) => s.(available := available)
  }

  ghost function RunShared(s: System, events: seq<Event>): (r: System)
    requires s.Valid()
    ensures r.Valid() && r.config == s.config && r.policy == s.policy
    decreases |events|
  {
    if events == [] then s else RunShared(Next(s, events[0]), events[1..])
  }

  /** The request reaches a bucket: it is well formed and the coordinator is up. */
  ghost predicate Reaches(s: System, e: Event) {
    e.Allow? && Fault(s.config, e.request) == [] && s.available
  }

  /** The requests of a run that reach a bucket, each under its tenant. */
  ghost function Healthy(s: System, events: seq<Event>): seq<Ask<string>>
    requires s.Valid()
    decreases |events|
  {
    if events == [] then []
    else
      (if Reaches(s, events[0]) then [Ask(events[0].request.tenant, events[0].at, events[0].request.amount)] else [])
      + Healthy(Next(s, events[0]), events[1..])
  }

  /** The replies to those requests. */
  ghost function HealthyReplies(s: System, events: seq<Event>): seq<Reply>
    requires s.Valid()
    decreases |events|
  {
    if events == [] then []
    else
      (if Reaches(s, events[0]) then [AllowShared(s, events[0].request, events[0].at).1] else [])
      + HealthyReplies(Next(s, events[0]), events[1..])
  }

  function Answers(outs: seq<Outcome>): seq<Reply> {
    seq(|outs|, i requires 0 <= i < |outs| => AnswerOf(outs[i]))
  }

  lemma AnswersCons(out: Outcome, outs: seq<Outcome>)
    ensures Answers([out] + outs) == [AnswerOf(out)] + Answers(outs)
  {
  }

  lemma NothingAsked(s: System)
    requires s.Valid()
    ensures Answers([]) == [] && RunAll<string>(s.config, s.buckets, []) == (s.buckets, [])
  {
  }

  /**
   In any interleaving of tenants, nodes and outages, the coordinator's buckets and
   the replies of healthy requests are those of a run of the healthy requests alone.
   */
  lemma {:induction false} OnlyHealthyRequestsCount(s: System, events: seq<Event>)
    requires s.Valid()
    ensures
      var (buckets, outs) := RunAll(s.config, s.buckets, Healthy(s, events));
      RunShared(s, events).buckets == buckets && HealthyReplies(s, events) == Answers(outs)
    decreases |events|
  {
    hide TakeFrom, Fault, AnswerOf, Uniform, Degraded, RunAll, Answers;
    NothingAsked(s);
    if events != [] {
      var e, s1 := events[0], Next(s, events[0]);
      OnlyHealthyRequestsCount(s1, events[1..]);
      var rest := Healthy(s1, events[1..]);
      if Reaches(s, e) {
        var ask := Ask(e.request.tenant, e.at, e.request.amount);
        RunAllCons(s.config, s.buckets, ask, rest);
        AnswersCons(TakeFrom(s.config, s.buckets, ask).1, RunAll(s1.config, s1.buckets, rest).1);
      } else {
        assert Healthy(s, events) == rest;
        assert HealthyReplies(s, events) == HealthyReplies(s1, events[1..]);
      }
    }
  }

  /** A tenant's decisions are those of one bucket that saw only the tenant's healthy requests. */
  lemma TenantSeesOneBucket(s: System, events: seq<Event>, tenant: string)
    requires s.Valid()
    ensures
      var asks := Healthy(s, events);
      var calls := CallsFor(s.config, asks, tenant);
      var outs := RunAll(s.config, s.buckets, asks).1;
      && HealthyReplies(s, events) == Answers(outs)
      && (calls != [] ==>
            var run := Run(Serving(s.config, s.buckets, tenant, calls[0].at), calls);
            && tenant in RunShared(s, events).buckets && RunShared(s, events).buckets[tenant] == run.0
            && OutcomesFor(s.config, asks, outs, tenant) == run.1)
  {
    OnlyHealthyRequestsCount(s, events);
    Projection(s.config, s.buckets, Healthy(s, events), tenant);
  }

  /** The events of a run without the requests made while the coordinator is down. */
  ghost function WithoutOutages(available: bool, events: seq<Event>): seq<Event>
    decreases |events|
  {
    if events == [] then []
    else
      match events[0]
      case SetAvailable(now) => [events[0]] + WithoutOutages(now, events[1..])
      case Allow(_, _) => (if available then [events[0]] else []) + WithoutOutages(available, events[1..])
  }

  /** Requests made during an outage leave no trace: the run without them ends in the same state. */
  lemma {:induction false} OutagesLeaveNoTrace(s: System, events: seq<Event>)
    requires s.Valid()
    ensures RunShared(s, WithoutOutages(s.available, events)) == RunShared(s, events)
    ensures Healthy(s, WithoutOutages(s.available, events)) == Healthy(s, events)
    decreases |events|
  {
    if events != [] {
      var e, s1 := events[0], Next(s, events[0]);
      OutagesLeaveNoTrace(s1, events[1..]);
      var kept, rest := WithoutOutages(s.available, events), WithoutOutages(s1.available, events[1..]);
      if e.SetAvailable? || s.available {
        assert kept == [e] + rest && kept[1..] == rest;
      } else {
        assert kept == rest && s1 == s;
        assert Healthy(s, events) == Healthy(s1, events[1..]);
      }
    }
  }

  // ---- What a tenant is granted ---------------------------------------------------

  function ReplyGrant(r: Request, reply: Reply): int {
    if reply.Answer? && reply.allowed then r.amount else 0
  }

  /** The event is a request of the tenant made within the window. */
  predicate AskedBy(e: Event, tenant: string, w: Window) {
    e.Allow? && e.request.tenant == tenant && w.Has(e.at)
  }

  /** What a tenant is granted for its requests within a window of a run. */
  ghost function TenantGranted(s: System, events: seq<Event>, tenant: string, w: Window): int
    requires s.Valid()
    decreases |events|
  {
    if events == [] then 0
    else
      var e := events[0];
      (if AskedBy(e, tenant, w) then ReplyGrant(e.request, AllowShared(s, e.request, e.at).1) else 0)
      + TenantGranted(Next(s, e), events[1..], tenant, w)
  }

  /** What a tenant properly asks for within a window while the coordinator is down. */
  ghost function OutageAsked(s: System, events: seq<Event>, tenant: string, w: Window): (n: int)
    requires s.Valid()
    ensures n >= 0
    decreases |events|
  {
    if events == [] then 0
    else
      var e := events[0];
      (if AskedBy(e, tenant, w) && Fault(s.config, e.request) == [] && !s.available then e.request.amount else 0)
      + OutageAsked(Next(s, e), events[1..], tenant, w)
  }

  /** What a window's outage requests add to a tenant's grants under the system's policy. */
  ghost function Excess(s: System, events: seq<Event>, tenant: string, w: Window): int
    requires s.Valid()
  {
    if s.policy.FailOpen? then OutageAsked(s, events, tenant, w) else 0
  }

  /**
   In every window of every run a tenant is granted what the coordinator grants it, and
   under fail-open its outage requests too.
   */
  lemma {:induction false} GrantedExactly(s: System, events: seq<Event>, tenant: string, w: Window)
    requires s.Valid()
    ensures TenantGranted(s, events, tenant, w)
         == GrantedTo({tenant}, Healthy(s, events), RunAll(s.config, s.buckets, Healthy(s, events)).1, w)
            + Excess(s, events, tenant, w)
    decreases |events|
  {
    hide TakeFrom, Fault, Uniform;
    if events != [] {
      var e, s1 := events[0], Next(s, events[0]);
      GrantedExactly(s1, events[1..], tenant, w);
      var rest := Healthy(s1, events[1..]);
      if Reaches(s, e) {
        var ask := Ask(e.request.tenant, e.at, e.request.amount);
        var asks, out := Healthy(s, events), TakeFrom(s.config, s.buckets, ask).1;
        assert asks == [ask] + rest && asks[0] == ask && asks[1..] == rest;
        var outs := RunAll(s1.config, s1.buckets, rest).1;
        assert RunAll(s.config, s.buckets, asks).1 == [out] + outs;
        assert ([out] + outs)[1..] == outs;
      } else {
        assert Healthy(s, events) == rest;
      }
    }
  }

  lemma {:induction false} HealthyWithin(s: System, events: seq<Event>, w: Window)
    requires s.Valid()
    requires forall e <- events :: e.Allow? ==> w.Has(e.at)
    ensures forall a <- Healthy(s, events) :: w.Has(a.at)
    decreases |events|
  {
    if events != [] {
      assert events[0] in events;
      assert forall e <- events[1..] :: e in events;
      HealthyWithin(Next(s, events[0]), events[1..], w);
    }
  }

  /**
   In every window of every run, from any coordinator, fail-closed grants a tenant at most a
   capacity and the window's grid points of its bucket, hence a token per interval begun;
   fail-open exceeds that by at most what was asked for during the window's outages.
   */
  lemma SharedBound(s: System, events: seq<Event>, tenant: string, w: Window)
    requires s.Valid() && w.from <= w.to
    ensures
      var buckets := RunShared(s, events).buckets;
      TenantGranted(s, events, tenant, w)
      <= (if tenant in buckets then s.config.capacity as int + GridPoints(buckets[tenant], w.from, w.to) else 0)
         + Excess(s, events, tenant, w)
    ensures TenantGranted(s, events, tenant, w) <= WindowAllowance(s.config, w) + Excess(s, events, tenant, w)
  {
    hide TenantGranted, Excess, GrantedTo, GridPoints, WindowAllowance, Healthy, RunShared, RunAll;
    OnlyHealthyRequestsCount(s, events);
    GrantedExactly(s, events, tenant, w);
    KeyBound(s.config, s.buckets, Healthy(s, events), tenant, w);
    KeyAllowance(s.config, s.buckets, Healthy(s, events), tenant, w);
  }

  /** A tenant first seen within the window is granted a token per full interval only. */
  lemma NewTenantBound(s: System, events: seq<Event>, tenant: string, w: Window)
    requires s.Valid() && w.from <= w.to
    requires tenant !in s.buckets && forall e <- events :: e.Allow? ==> w.Has(e.at)
    ensures TenantGranted(s, events, tenant, w) <= NewAllowance(s.config, w) + Excess(s, events, tenant, w)
  {
    GrantedExactly(s, events, tenant, w);
    HealthyWithin(s, events, w);
    NewKeyBound(s.config, s.buckets, Healthy(s, events), tenant, w);
  }

  // ---- What a reply means ------------------------------------------------------------

  predicate Named(r: Request) {
    !Blank(r.tenant) && !Blank(r.node)
  }

  predicate Proper(config: Config, r: Request) {
    Named(r) && 0 < r.amount <= config.capacity as int
  }

  /** Which requests are refused, for which reason, and which are answered without the coordinator. */
  lemma ReplyMeans(s: System, r: Request, at: int)
    requires s.Valid()
    ensures
      var (s', reply) := AllowShared(s, r, at);
      && (reply == Unserved(BlankTenant) <==> Blank(r.tenant))
      && (reply == Unserved(BlankNode) <==> !Blank(r.tenant) && Blank(r.node))
      && (reply == Unserved(FromBucket(InvalidAmount)) <==> Named(r) && r.amount <= 0)
      && (reply == Unserved(FromBucket(AmountExceedsCapacity)) <==> Named(r) && r.amount > s.config.capacity as int)
      && (reply.Answer? && reply.degraded <==> Proper(s.config, r) && !s.available)
      && (reply.Answer? && reply.degraded ==>
            s' == s && reply.remaining == 0 && reply.retryAfter == 0 && (reply.allowed <==> s.policy.FailOpen?)
            && reply.reason == "coordinator-unavailable-" + if s.policy.FailOpen? then "fail-open" else "fail-closed")
      && (reply.Answer? && !reply.degraded ==> reply.reason == "")
  {
    hide Blank, Fits, Refill;
  }

  /** A bucket's answer, as the reply that carries it: what is left, and how long to wait. */
  ghost predicate Tells(reply: Reply, next: Reply, retry: Reply, amount: int, waited: int) {
    && reply.Answer? && next.Answer? && (next.allowed <==> amount <= reply.remaining)
    && (reply.allowed ==> reply.retryAfter == 0)
    && (!reply.allowed && 0 <= waited < reply.retryAfter ==> !(retry.Answer? && retry.allowed))
  }

  lemma TakeTells(e: Eager, at: int, amount: int, next: int, waited: int)
    requires e.Valid() && 0 < amount <= e.capacity && 0 < next <= e.capacity && 0 <= waited
    requires Take(e, at, amount).1.Decided?
    ensures
      var (e', out) := Take(e, at, amount);
      && e'.Valid()
      && Tells(AnswerOf(out), AnswerOf(Take(e', at, next).1), AnswerOf(Take(e', at + waited, amount).1), next, waited)
  {
    hide Fits, Wait, Refill;
    RemainingMeans(e, at, amount, next);
    var (e', out) := Take(e, at, amount);
    if !out.decision.allowed {
      RetryAfterExact(e, at, amount, at + waited);
    }
  }

  /**
   A healthy answer tells a tenant what it can have now, exactly, and how long it is no use to
   ask for the same again.
   */
  lemma AnswerMeans(s: System, r: Request, at: int, amount: int, waited: int)
    requires s.Valid() && s.available && 0 < amount <= s.config.capacity as int && 0 <= waited
    requires AllowShared(s, r, at).1.Answer?
    ensures
      var (s', reply) := AllowShared(s, r, at);
      && s'.Valid()
      && Tells(reply, AllowShared(s', r.(amount := amount), at).1, AllowShared(s', r, at + waited).1, amount, waited)
  {
    hide Blank, Take, Tells, Fresh;
    TakeTells(Serving(s.config, s.buckets, r.tenant, at), at, r.amount, amount, waited);
  }

  // ---- One limiter per node -------------------------------------------------------

  datatype NodeKey = NodeKey(tenant: string, node: string)

  ghost function AllowOnNode(config: Config, buckets: map<NodeKey, Eager>, r: Request, at: int): (map<NodeKey, Eager>, Reply)
    requires ValidConfig(config) && Uniform(config, buckets)
  {
    if Fault(config, r) != [] then (buckets, Unserved(Fault(config, r)[0]))
    else
      var (b, out) := TakeFrom(config, buckets, Ask(NodeKey(r.tenant, r.node), at, r.amount));
      (b, AnswerOf(out))
  }

  /** So does an answer of the node's own limiter. */
  lemma NodeAnswerMeans(config: Config, buckets: map<NodeKey, Eager>, r: Request, at: int, amount: int, waited: int)
    requires ValidConfig(config) && Uniform(config, buckets) && 0 < amount <= config.capacity as int && 0 <= waited
    requires AllowOnNode(config, buckets, r, at).1.Answer?
    ensures
      var (b, reply) := AllowOnNode(config, buckets, r, at);
      && Uniform(config, b)
      && Tells(reply, AllowOnNode(config, b, r.(amount := amount), at).1, AllowOnNode(config, b, r, at + waited).1, amount, waited)
  {
    hide Blank, Take, Tells, Fresh;
    TakeTells(Serving(config, buckets, NodeKey(r.tenant, r.node), at), at, r.amount, amount, waited);
  }

  datatype Timed = Timed(request: Request, at: int)

  /** What a tenant is granted for its requests within a window of a run of the per-node limiter. */
  ghost function NodesGranted(config: Config, buckets: map<NodeKey, Eager>, requests: seq<Timed>, tenant: string, w: Window): int
    requires ValidConfig(config) && Uniform(config, buckets)
    decreases |requests|
  {
    if requests == [] then 0
    else
      var (r, at) := (requests[0].request, requests[0].at);
      var (b, reply) := AllowOnNode(config, buckets, r, at);
      (if r.tenant == tenant && w.Has(at) then ReplyGrant(r, reply) else 0)
      + NodesGranted(config, b, requests[1..], tenant, w)
  }

  /** The well-formed requests, each under its tenant and node. */
  ghost function NodeAsks(config: Config, requests: seq<Timed>): seq<Ask<NodeKey>> {
    if requests == [] then []
    else
      var r := requests[0].request;
      (if Fault(config, r) == [] then [Ask(NodeKey(r.tenant, r.node), requests[0].at, r.amount)] else [])
      + NodeAsks(config, requests[1..])
  }

  ghost function KeysOf(tenant: string, nodes: set<string>): set<NodeKey> {
    set n | n in nodes :: NodeKey(tenant, n)
  }

  lemma {:induction false} KeysCounted(tenant: string, nodes: set<string>)
    ensures |KeysOf(tenant, nodes)| == |nodes|
  {
    if nodes == {} {
      assert KeysOf(tenant, nodes) == {};
    } else {
      var n :| n in nodes;
      KeysCounted(tenant, nodes - {n});
      assert KeysOf(tenant, nodes) == KeysOf(tenant, nodes - {n}) + {NodeKey(tenant, n)};
    }
  }

  lemma {:induction false} NodesGrantedByKeys(config: Config, buckets: map<NodeKey, Eager>, requests: seq<Timed>,
                                              tenant: string, nodes: set<string>, w: Window)
    requires ValidConfig(config) && Uniform(config, buckets)
    requires forall q <- requests :: q.request.tenant == tenant && w.Has(q.at) ==> q.request.node in nodes
    ensures NodesGranted(config, buckets, requests, tenant, w)
         == GrantedTo(KeysOf(tenant, nodes), NodeAsks(config, requests), RunAll(config, buckets, NodeAsks(config, requests)).1, w)
    decreases |requests|
  {
    if requests != [] {
      var r, at := requests[0].request, requests[0].at;
      var (b, reply) := AllowOnNode(config, buckets, r, at);
      assert requests[0] in requests;
      assert forall q <- requests[1..] :: q in requests;
      NodesGrantedByKeys(config, b, requests[1..], tenant, nodes, w);
      var rest := NodeAsks(config, requests[1..]);
      if Fault(config, r) == [] {
        var ask := Ask(NodeKey(r.tenant, r.node), at, r.amount);
        var asks, out := NodeAsks(config, requests), TakeFrom(config, buckets, ask).1;
        assert asks == [ask] + rest && asks[0] == ask && asks[1..] == rest;
        var outs := RunAll(config, b, rest).1;
        assert RunAll(config, buckets, asks).1 == [out] + outs;
        assert ([out] + outs)[1..] == outs;
        assert w.Has(at) ==> (NodeKey(r.tenant, r.node) in KeysOf(tenant, nodes) <==> r.tenant == tenant);
      } else {
        assert NodeAsks(config, requests) == rest;
      }
    }
  }

  lemma {:induction false} NodeAsksWithin(config: Config, requests: seq<Timed>, w: Window)
    requires forall q <- requests :: w.Has(q.at)
    ensures forall a <- NodeAsks(config, requests) :: w.Has(a.at)
  {
    if requests != [] {
      NodeAsksWithin(config, requests[1..], w);
    }
  }

  /**
   In every window of every run, from any buckets, limiting per node multiplies a tenant's
   allowance by the number of nodes it uses.
   */
  lemma PerNodeBound(config: Config, buckets: map<NodeKey, Eager>, requests: seq<Timed>,
                     tenant: string, nodes: set<string>, w: Window)
    requires ValidConfig(config) && Uniform(config, buckets) && w.from <= w.to
    requires forall q <- requests :: q.request.tenant == tenant && w.Has(q.at) ==> q.request.node in nodes
    ensures NodesGranted(config, buckets, requests, tenant, w) <= |nodes| * WindowAllowance(config, w)
  {
    NodesGrantedByKeys(config, buckets, requests, tenant, nodes, w);
    TotalBound(config, buckets, NodeAsks(config, requests), KeysOf(tenant, nodes), w);
    KeysCounted(tenant, nodes);
  }

  /** From a new limiter whose requests all fall within the window, each node adds full intervals only. */
  lemma NewLimiterBound(config: Config, requests: seq<Timed>, tenant: string, nodes: set<string>, w: Window)
    requires ValidConfig(config) && w.from <= w.to
    requires forall q <- requests :: w.Has(q.at)
    requires forall q <- requests :: q.request.tenant == tenant && w.Has(q.at) ==> q.request.node in nodes
    ensures NodesGranted(config, map[], requests, tenant, w) <= |nodes| * NewAllowance(config, w)
  {
    NodesGrantedByKeys(config, map[], requests, tenant, nodes, w);
    NodeAsksWithin(config, requests, w);
    NewKeysBound(config, map[], NodeAsks(config, requests), KeysOf(tenant, nodes), w);
    KeysCounted(tenant, nodes);
  }

  /** One request for the whole capacity on each node, all at the same instant. */
  ghost predicate OneOnEachNode(config: Config, requests: seq<Timed>, tenant: string, nodes: set<string>, at: int) {
    && |requests| == |nodes|
    && (forall q <- requests :: q.at == at && q.request.tenant == tenant && q.request.node in nodes
                                && q.request.amount == config.capacity as int)
    && (forall i, j :: 0 <= i < j < |requests| ==> requests[i].request.node != requests[j].request.node)
  }

  /** The bound is attained: n nodes grant one tenant n capacities, the window's allowance, at one instant. */
  lemma PerNodeBoundIsAttained(config: Config, requests: seq<Timed>, tenant: string, nodes: set<string>, at: int)
    requires ValidConfig(config) && OneOnEachNode(config, requests, tenant, nodes, at)
    requires !Blank(tenant) && forall n <- nodes :: !Blank(n)
    ensures NodesGranted(config, map[], requests, tenant, Window(at, at)) == |nodes| * config.capacity as int
    ensures WindowAllowance(config, Window(at, at)) == config.capacity as int
  {
    var asks := NodeAsks(config, requests);
    AllWellFormed(config, requests);
    NodesGrantedByKeys(config, map[], requests, tenant, nodes, Window(at, at));
    KeysCounted(tenant, nodes);
    assert OneEach(config, map[], asks, at);
    FreshKeysEmptyTheirBuckets(config, KeysOf(tenant, nodes), asks, at);
  }

  lemma {:induction false} AllWellFormed(config: Config, requests: seq<Timed>)
    requires forall q <- requests :: Fault(config, q.request) == []
    ensures |NodeAsks(config, requests)| == |requests|
    ensures forall i :: 0 <= i < |requests| ==>
      NodeAsks(config, requests)[i]
      == Ask(NodeKey(requests[i].request.tenant, requests[i].request.node), requests[i].at, requests[i].request.amount)
  {
    if requests != [] {
      assert requests[0] in requests;
      assert forall q <- requests[1..] :: q in requests;
      AllWellFormed(config, requests[1..]);
    }
  }
}
