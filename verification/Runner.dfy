/** The deterministic discrete-event scheduler of the lab harness. */
module Runner {
  import opened GoNumbers
  import opened GoText
  import opened LogicalTime
  import opened Ordering

  const PHASE_OBSERVE: int := 2

  // `action` and `check` name deterministic state transformers; the state holds the
  // recorder and the random source.
  datatype Event<A> = Event(at: int64, phase: int, sequence: uint64, name: string, action: A)

  datatype Assertion<C> = Assertion(id: string, check: C)

  datatype Lab<!A(!new), !C, !S> = Lab(
    apply: (A, S, int) -> (S, bool),
    check: (C, S) -> (bool, string),
    stableId: string -> bool,
    initial: S)

  datatype Spec<A, C> = Spec(
    identities: seq<string>, adapterId: string, start: int, deadline: int64,
    events: seq<Event<A>>, assertions: seq<Assertion<C>>)

  datatype AssertionResult = AssertionResult(id: string, passed: bool, message: string)

  datatype Diagnostic = Diagnostic(event: string, message: string)

  datatype Result<S> = Result(
    passed: bool, startedAt: int, finishedAt: int, eventsExecuted: nat,
    metrics: S, assertions: seq<AssertionResult>, diagnostics: seq<Diagnostic>)

  // ---- Preflight -----------------------------------------------------------------

  predicate SameKey<A>(a: Event<A>, b: Event<A>) {
    a.at == b.at && a.phase == b.phase && a.sequence == b.sequence
  }

  predicate ValidEvent<A>(start: int, deadline: int64, e: Event<A>) {
    0 <= e.at <= deadline && Representable(start + e.at as int) && 0 <= e.phase <= PHASE_OBSERVE && !Blank(e.name)
  }

  ghost predicate DistinctKeys<A>(events: seq<Event<A>>) {
    forall i, j :: 0 <= i < j < |events| ==> !SameKey(events[i], events[j])
  }

  ghost predicate ValidSpec<A(!new), C, S>(lab: Lab<A, C, S>, spec: Spec<A, C>) {
    && (forall id <- spec.identities :: lab.stableId(id))
    && (spec.adapterId == "" || lab.stableId(spec.adapterId))
    && 0 < spec.deadline
    && (forall e <- spec.events :: ValidEvent(spec.start, spec.deadline, e))
    && DistinctKeys(spec.events)
    && (forall a <- spec.assertions :: lab.stableId(a.id))
    && (forall i, j :: 0 <= i < j < |spec.assertions| ==> spec.assertions[i].id != spec.assertions[j].id)
  }

  method ValidateEvents<A>(start: int, deadline: int64, events: seq<Event<A>>) returns (ok: bool)
    requires Representable(start)
    ensures ok <==> (forall e <- events :: ValidEvent(start, deadline, e)) && DistinctKeys(events)
  {
    var seen: set<(int64, int, uint64)> := {};
    for index := 0 to |events|
      invariant forall e <- events[..index] :: ValidEvent(start, deadline, e)
      invariant DistinctKeys(events[..index])
      invariant seen == set e | e in events[..index] :: (e.at, e.phase, e.sequence)
    {
      var e := events[index];
      ghost var before := events[..index];
      assert events[..index + 1] == before + [e] && e in events;
      if e.at < 0 || e.at > deadline {
        assert !ValidEvent(start, deadline, e);
        return false;
      }
      if !EventTimeRepresentable(start, e.at as int) || e.phase < 0 || e.phase > PHASE_OBSERVE || Blank(e.name) {
        assert !ValidEvent(start, deadline, e);
        return false;
      }
      if (e.at, e.phase, e.sequence) in seen {
        ghost var x :| x in before && (x.at, x.phase, x.sequence) == (e.at, e.phase, e.sequence);
        ghost var i :| 0 <= i < index && before[i] == x;
        assert SameKey(events[i], events[index]);
        return false;
      }
      forall i | 0 <= i < index
        ensures !SameKey(events[i], e)
      {
        assert before[i] == events[i] && events[i] in before;
      }
      seen := seen + {(e.at, e.phase, e.sequence)};
    }
    assert events[..|events|] == events;
    return true;
  }

  method ValidateSpec<A(!new), C, S>(lab: Lab<A, C, S>, spec: Spec<A, C>) returns (ok: bool)
    requires Representable(spec.start)
    ensures ok <==> ValidSpec(lab, spec)
  {
    hide ValidEvent, DistinctKeys;
    for index := 0 to |spec.identities|
      invariant forall id <- spec.identities[..index] :: lab.stableId(id)
    {
      if !lab.stableId(spec.identities[index]) {
        return false;
      }
    }
    if spec.adapterId != "" && !lab.stableId(spec.adapterId) {
      return false;
    }
    if spec.deadline <= 0 {
      return false;
    }
    var eventsOk := ValidateEvents(spec.start, spec.deadline, spec.events);
    if !eventsOk {
      return false;
    }
    var a := spec.assertions;
    var seen: set<string> := {};
    for index := 0 to |a|
      invariant forall i :: 0 <= i < index ==> lab.stableId(a[i].id)
      invariant forall i, j :: 0 <= i < j < index ==> a[i].id != a[j].id
      invariant forall id :: id in seen <==> exists i :: 0 <= i < index && a[i].id == id
    {
      if !lab.stableId(a[index].id) || a[index].id in seen {
        return false;
      }
      seen := seen + {a[index].id};
    }
    ok := true;
  }

  // ---- The schedule ----------------------------------------------------------------

  predicate EventLess<A>(a: Event<A>, b: Event<A>) {
    if a.at != b.at then a.at < b.at
    else if a.phase != b.phase then a.phase < b.phase
    else a.sequence < b.sequence
  }

  lemma EventOrder<A(!new)>()
    ensures StrictWeakOrder<Event<A>>(EventLess)
  {
  }

  /** The events in the order in which they run. */
  ghost predicate Schedule<A(!new)>(events: seq<Event<A>>, order: seq<Event<A>>) {
    multiset(order) == multiset(events) && Sorted(EventLess, order)
  }

  lemma ScheduleKeys<A(!new)>(events: seq<Event<A>>, order: seq<Event<A>>)
    requires Schedule(events, order) && DistinctKeys(events)
    ensures StrictlySorted(EventLess, order) && |order| == |events|
    ensures forall e :: e in order <==> e in events
  {
    assert |multiset(order)| == |order| && |multiset(events)| == |events|;
    assert forall e :: e in order <==> e in multiset(order);
    assert forall e :: e in events <==> e in multiset(events);
    forall i, j | 0 <= i < j < |order|
      ensures EventLess(order[i], order[j])
    {
      RepeatCounts(order, i, j);
      assert order[i] in events && order[j] in events;
      var a :| 0 <= a < |events| && events[a] == order[i];
      var b :| 0 <= b < |events| && events[b] == order[j];
      if a == b {
        DistinctCount(events, a);
      } else {
        assert !SameKey(events[if a < b then a else b], events[if a < b then b else a]);
      }
    }
  }

  lemma DistinctCount<A>(events: seq<Event<A>>, a: int)
    requires DistinctKeys(events) && 0 <= a < |events|
    ensures multiset(events)[events[a]] == 1
  {
    assert events == events[..a] + [events[a]] + events[a + 1..];
    assert events[a] !in events[..a];
    assert events[a] !in events[a + 1..];
    assert multiset(events) == multiset(events[..a]) + multiset{events[a]} + multiset(events[a + 1..]);
  }

  /** Events with distinct schedule keys have one schedule, however they are listed. */
  lemma OneSchedule<A(!new)>(a: seq<Event<A>>, b: seq<Event<A>>, x: seq<Event<A>>, y: seq<Event<A>>)
    requires DistinctKeys(a) && DistinctKeys(b) && multiset(a) == multiset(b)
    requires Schedule(a, x) && Schedule(b, y)
    ensures x == y
  {
    ScheduleKeys(a, x);
    ScheduleKeys(b, y);
    EventOrder<A>();
    assert forall e :: e in a <==> e in multiset(a);
    assert forall e :: e in b <==> e in multiset(b);
    SortedUnique<Event<A>>(EventLess, x, y);
  }

  /** Earlier events run first; at one instant the phase decides, within a phase the sequence number. */
  lemma RunsInOrder<A(!new)>(events: seq<Event<A>>, order: seq<Event<A>>, i: int, j: int)
    requires Schedule(events, order) && DistinctKeys(events) && 0 <= i < j < |order|
    ensures
      || order[i].at < order[j].at
      || (order[i].at == order[j].at && order[i].phase < order[j].phase)
      || (order[i].at == order[j].at && order[i].phase == order[j].phase && order[i].sequence < order[j].sequence)
  {
    ScheduleKeys(events, order);
    assert EventLess(order[i], order[j]);
  }

  // ---- What a run means --------------------------------------------------------------

  datatype Progress<S> = Progress(state: S, now: int, executed: nat, failed: seq<string>)

  /** Run the scheduled events from the i-th on, stopping at the first action that fails. */
  ghost function RunFrom<A(!new), C, S>(lab: Lab<A, C, S>, start: int, order: seq<Event<A>>, i: nat, now: int, s: S): Progress<S>
    requires i <= |order|
    decreases |order| - i
  {
    if i == |order| then Progress(s, now, i, [])
    else
      var at := start + order[i].at as int;
      var (s', ok) := lab.apply(order[i].action, s, at);
      if !ok then Progress(s', at, i + 1, [order[i].name])
      else RunFrom(lab, start, order, i + 1, at, s')
  }

  ghost function Checks<A(!new), C, S>(lab: Lab<A, C, S>, assertions: seq<Assertion<C>>, s: S): seq<AssertionResult> {
    seq(|assertions|, i requires 0 <= i < |assertions| => CheckOne(lab, assertions[i], s))
  }

  function CheckOne<A(!new), C, S>(lab: Lab<A, C, S>, a: Assertion<C>, s: S): AssertionResult {
    var (passed, message) := lab.check(a.check, s);
    AssertionResult(a.id, passed, if !passed && Blank(message) then "assertion failed" else message)
  }

  function Complaints(results: seq<AssertionResult>): seq<Diagnostic> {
    if results == [] then []
    else
      var last := results[|results| - 1];
      Complaints(results[..|results| - 1]) + if last.passed then [] else [Diagnostic(last.id, last.message)]
  }

  /** The result of a valid specification whose events run in this order. */
  ghost function Meaning<A(!new), C, S>(lab: Lab<A, C, S>, spec: Spec<A, C>, order: seq<Event<A>>): Result<S> {
    var p := RunFrom(lab, spec.start, order, 0, spec.start, lab.initial);
    if p.failed != [] then
      Result(false, spec.start, p.now, p.executed, p.state, [], [Diagnostic(p.failed[0], "action failed")])
    else
      var checks := Checks(lab, spec.assertions, p.state);
      Result(Complaints(checks) == [], spec.start, p.now, p.executed, p.state, checks, Complaints(checks))
  }

  /** The result of a run is the same for every listing of its events. */
  lemma ListingIrrelevant<A(!new), C, S>(lab: Lab<A, C, S>, spec: Spec<A, C>, other: Spec<A, C>,
                                         order: seq<Event<A>>, otherOrder: seq<Event<A>>)
    requires ValidSpec(lab, spec) && ValidSpec(lab, other)
    requires other == spec.(events := other.events) && multiset(spec.events) == multiset(other.events)
    requires Schedule(spec.events, order) && Schedule(other.events, otherOrder)
    ensures Meaning(lab, spec, order) == Meaning(lab, other, otherOrder)
  {
    OneSchedule(spec.events, other.events, order, otherOrder);
  }

  /** Whether a specification is valid does not depend on the listing of its events either. */
  lemma ValidityIgnoresListing<A(!new), C, S>(lab: Lab<A, C, S>, spec: Spec<A, C>, other: Spec<A, C>)
    requires ValidSpec(lab, spec)
    requires other == spec.(events := other.events) && multiset(spec.events) == multiset(other.events)
    ensures ValidSpec(lab, other)
  {
    hide ValidEvent;
    var a, b := spec.events, other.events;
    assert forall e :: e in a <==> e in multiset(a);
    assert forall e :: e in b <==> e in multiset(b);
    forall i, j | 0 <= i < j < |b|
      ensures !SameKey(b[i], b[j])
    {
      RepeatCounts(b, i, j);
      assert b[i] in a && b[j] in a;
      var x :| 0 <= x < |a| && a[x] == b[i];
      var y :| 0 <= y < |a| && a[y] == b[j];
      if x == y {
        DistinctCount(a, x);
      } else {
        assert !SameKey(a[if x < y then x else y], a[if x < y then y else x]);
      }
    }
  }

  // ---- Status, count and clock ---------------------------------------------------------

  /** No action fails. */
  ghost predicate ActionsSucceed<A(!new), C, S>(lab: Lab<A, C, S>, start: int, order: seq<Event<A>>, i: nat, s: S)
    requires i <= |order|
    decreases |order| - i
  {
    i < |order| ==>
      var (s', ok) := lab.apply(order[i].action, s, start + order[i].at as int);
      ok && ActionsSucceed(lab, start, order, i + 1, s')
  }

  /** The state after all actions. */
  ghost function After<A(!new), C, S>(lab: Lab<A, C, S>, start: int, order: seq<Event<A>>, i: nat, s: S): S
    requires i <= |order|
    decreases |order| - i
  {
    if i == |order| then s
    else After(lab, start, order, i + 1, lab.apply(order[i].action, s, start + order[i].at as int).0)
  }

  lemma {:induction false} RunFromMeans<A(!new), C, S>(lab: Lab<A, C, S>, start: int, order: seq<Event<A>>, i: nat, now: int, s: S)
    requires i <= |order|
    ensures var p := RunFrom(lab, start, order, i, now, s);
      && (p.failed == [] <==> ActionsSucceed(lab, start, order, i, s))
      && i <= p.executed <= |order|
      && p.now == (if p.executed == i then now else start + order[p.executed - 1].at as int)
      && (p.failed == [] ==> p.executed == |order| && p.state == After(lab, start, order, i, s))
    decreases |order| - i
  {
    if i < |order| {
      var at := start + order[i].at as int;
      RunFromMeans(lab, start, order, i + 1, at, lab.apply(order[i].action, s, at).0);
    }
  }

  lemma {:induction false} NoComplaints(results: seq<AssertionResult>)
    ensures Complaints(results) == [] <==> forall r <- results :: r.passed
  {
    if results != [] {
      var init, last := results[..|results| - 1], results[|results| - 1];
      NoComplaints(init);
      assert results == init + [last];
    }
  }

  /** `latest` is the largest offset of the events. */
  ghost predicate LargestOffset<A>(events: seq<Event<A>>, latest: int) {
    (exists e <- events :: e.at as int == latest) && forall e <- events :: e.at as int <= latest
  }

  /**
   A run passes exactly when every action and every assertion succeeds; then it
   executed every event and finished at the start plus the largest offset.
   */
  lemma PassedMeans<A(!new), C, S>(lab: Lab<A, C, S>, spec: Spec<A, C>, order: seq<Event<A>>)
    requires ValidSpec(lab, spec) && Schedule(spec.events, order)
    ensures var r := Meaning(lab, spec, order);
      && (r.passed <==>
            && ActionsSucceed(lab, spec.start, order, 0, lab.initial)
            && forall a <- spec.assertions :: lab.check(a.check, After(lab, spec.start, order, 0, lab.initial)).0)
      && (r.passed ==>
            && r.eventsExecuted == |spec.events|
            && (spec.events == [] ==> r.finishedAt == spec.start)
            && (spec.events != [] ==> LargestOffset(spec.events, r.finishedAt - spec.start)))
  {
    hide ValidEvent, DistinctKeys, ActionsSucceed, After, RunFrom, Schedule, Checks, Complaints, LargestOffset, EventLess;
    var p := RunFrom(lab, spec.start, order, 0, spec.start, lab.initial);
    RunFromMeans(lab, spec.start, order, 0, spec.start, lab.initial);
    ScheduleKeys(spec.events, order);
    ChecksPass(lab, spec.assertions, p.state);
    if p.failed == [] {
      LastIsLatest(spec.events, order);
    }
  }

  lemma ChecksPass<A(!new), C, S>(lab: Lab<A, C, S>, assertions: seq<Assertion<C>>, s: S)
    ensures Complaints(Checks(lab, assertions, s)) == [] <==> forall a <- assertions :: lab.check(a.check, s).0
  {
    hide Complaints;
    var checks := Checks(lab, assertions, s);
    NoComplaints(checks);
    forall a | a in assertions
      ensures exists r <- checks :: r.passed == lab.check(a.check, s).0
    {
      var i :| 0 <= i < |assertions| && assertions[i] == a;
      assert checks[i] in checks;
    }
  }

  lemma LastIsLatest<A(!new)>(events: seq<Event<A>>, order: seq<Event<A>>)
    requires StrictlySorted(EventLess, order) && |order| == |events|
    requires forall e :: e in order <==> e in events
    ensures events != [] ==> LargestOffset(events, order[|order| - 1].at as int)
  {
    if order != [] {
      var last := |order| - 1;
      assert order[last] in events;
      forall e | e in events
        ensures e.at <= order[last].at
      {
        var i :| 0 <= i < |order| && order[i] == e;
        assert i == last || EventLess(order[i], order[last]);
      }
    }
  }

  // ---- What a result says, event by event --------------------------------------------------

  /** The state after the first `k` actions, whatever they report. */
  ghost function StateAfter<A(!new), C, S>(lab: Lab<A, C, S>, start: int, order: seq<Event<A>>, k: nat): S
    requires k <= |order|
  {
    if k == 0 then lab.initial
    else lab.apply(order[k - 1].action, StateAfter(lab, start, order, k - 1), start + order[k - 1].at as int).0
  }

  /** The action of the k-th event succeeds. */
  ghost predicate Works<A(!new), C, S>(lab: Lab<A, C, S>, start: int, order: seq<Event<A>>, k: nat)
    requires k < |order|
  {
    lab.apply(order[k].action, StateAfter(lab, start, order, k), start + order[k].at as int).1
  }

  lemma {:induction false} RunsUntil<A(!new), C, S>(lab: Lab<A, C, S>, start: int, order: seq<Event<A>>, k: nat)
    requires k <= |order| && forall j: nat :: j < k ==> Works(lab, start, order, j)
    ensures RunFrom(lab, start, order, 0, start, lab.initial)
         == RunFrom(lab, start, order, k, if k == 0 then start else start + order[k - 1].at as int, StateAfter(lab, start, order, k))
  {
    if k > 0 {
      RunsUntil(lab, start, order, k - 1);
      assert Works(lab, start, order, k - 1);
    }
  }

  /** A run whose first failing action is the k-th stops there, with what that action left behind. */
  lemma FailedRun<A(!new), C, S>(lab: Lab<A, C, S>, spec: Spec<A, C>, order: seq<Event<A>>, k: nat)
    requires k < |order| && !Works(lab, spec.start, order, k)
    requires forall j: nat :: j < k ==> Works(lab, spec.start, order, j)
    ensures var r := Meaning(lab, spec, order);
      && !r.passed && r.startedAt == spec.start && r.finishedAt == spec.start + order[k].at as int
      && r.eventsExecuted == k + 1 && r.metrics == StateAfter(lab, spec.start, order, k + 1)
      && r.assertions == [] && r.diagnostics == [Diagnostic(order[k].name, "action failed")]
  {
    RunsUntil(lab, spec.start, order, k);
  }

  /** How many of the first `n` assertions fail. */
  ghost function Failing<A(!new), C, S>(lab: Lab<A, C, S>, assertions: seq<Assertion<C>>, s: S, n: nat): nat
    requires n <= |assertions|
  {
    if n == 0 then 0
    else Failing(lab, assertions, s, n - 1) + if lab.check(assertions[n - 1].check, s).0 then 0 else 1
  }

  /** What an assertion says: its own message, or a stock one if it fails with a blank one. */
  ghost predicate Says<A(!new), C, S>(lab: Lab<A, C, S>, a: Assertion<C>, s: S, message: string) {
    if !lab.check(a.check, s).0 && Blank(lab.check(a.check, s).1) then message == "assertion failed"
    else message == lab.check(a.check, s).1
  }

  lemma NextComplaint<A(!new), C, S>(lab: Lab<A, C, S>, assertions: seq<Assertion<C>>, s: S, n: nat)
    requires n < |assertions|
    ensures var checks := Checks(lab, assertions, s);
      Complaints(checks[..n + 1])
      == Complaints(checks[..n]) + if checks[n].passed then [] else [Diagnostic(checks[n].id, checks[n].message)]
    ensures Failing(lab, assertions, s, n + 1)
         == Failing(lab, assertions, s, n) + if lab.check(assertions[n].check, s).0 then 0 else 1
  {
    hide CheckOne;
    var checks := Checks(lab, assertions, s);
    assert checks[..n + 1][..n] == checks[..n] && checks[..n + 1][n] == checks[n];
  }

  /** The complaint about a failing assertion stands after those about the failing ones before it. */
  ghost predicate Complains<A(!new), C, S>(lab: Lab<A, C, S>, assertions: seq<Assertion<C>>, s: S, i: nat, complaints: seq<Diagnostic>)
    requires i < |assertions|
  {
    !lab.check(assertions[i].check, s).0 ==>
      var at := Failing(lab, assertions, s, i);
      at < |complaints| && complaints[at].event == assertions[i].id && Says(lab, assertions[i], s, complaints[at].message)
  }

  lemma StillComplains<A(!new), C, S>(lab: Lab<A, C, S>, assertions: seq<Assertion<C>>, s: S, i: nat,
                                      complaints: seq<Diagnostic>, more: seq<Diagnostic>)
    requires i < |assertions| && Complains(lab, assertions, s, i, complaints) && complaints <= more
    ensures Complains(lab, assertions, s, i, more)
  {
    hide Failing, Says;
  }

  lemma {:induction false} ComplaintsMean<A(!new), C, S>(lab: Lab<A, C, S>, assertions: seq<Assertion<C>>, s: S, n: nat)
    requires n <= |assertions|
    ensures var complaints := Complaints(Checks(lab, assertions, s)[..n]);
      && |complaints| == Failing(lab, assertions, s, n)
      && forall i: nat :: i < n ==> Complains(lab, assertions, s, i, complaints)
  {
    if n > 0 {
      ComplaintsMean(lab, assertions, s, n - 1);
      ComplaintsStep(lab, assertions, s, n - 1);
    }
  }

  lemma ComplaintsStep<A(!new), C, S>(lab: Lab<A, C, S>, assertions: seq<Assertion<C>>, s: S, n: nat)
    requires n < |assertions|
    requires var complaints := Complaints(Checks(lab, assertions, s)[..n]);
      |complaints| == Failing(lab, assertions, s, n)
      && forall i: nat :: i < n ==> Complains(lab, assertions, s, i, complaints)
    ensures var complaints := Complaints(Checks(lab, assertions, s)[..n + 1]);
      && |complaints| == Failing(lab, assertions, s, n + 1)
      && forall i: nat :: i < n + 1 ==> Complains(lab, assertions, s, i, complaints)
  {
    hide Complaints, Failing, Says, CheckOne;
    var checks := Checks(lab, assertions, s);
    var complaints, more := Complaints(checks[..n]), Complaints(checks[..n + 1]);
    NextComplaint(lab, assertions, s, n);
    CheckSays(lab, assertions[n], s);
    assert complaints <= more;
    forall i: nat | i < n
      ensures Complains(lab, assertions, s, i, more)
    {
      StillComplains(lab, assertions, s, i, complaints, more);
    }
    assert Complains(lab, assertions, s, n, more);
  }

  /**
   A run without a failing action checks every assertion on the final state. Its results come in
   the order of the assertions, and so do its diagnostics, one for each that fails.
   */
  lemma FinishedRun<A(!new), C, S>(lab: Lab<A, C, S>, spec: Spec<A, C>, order: seq<Event<A>>)
    requires forall j: nat :: j < |order| ==> Works(lab, spec.start, order, j)
    ensures var r, s, a := Meaning(lab, spec, order), StateAfter(lab, spec.start, order, |order|), spec.assertions;
      && r.startedAt == spec.start && r.eventsExecuted == |order| && r.metrics == s
      && r.finishedAt == (if order == [] then spec.start else spec.start + order[|order| - 1].at as int)
      && (r.passed <==> Failing(lab, a, s, |a|) == 0)
      && |r.assertions| == |a|
      && (forall i: nat :: i < |a| ==>
            && r.assertions[i].id == a[i].id && r.assertions[i].passed == lab.check(a[i].check, s).0
            && Says(lab, a[i], s, r.assertions[i].message))
      && |r.diagnostics| == Failing(lab, a, s, |a|)
      && forall i: nat :: i < |a| ==> Complains(lab, a, s, i, r.diagnostics)
  {
    hide StateAfter, Failing, Says, Complains, Complaints, Works;
    var s, checks := StateAfter(lab, spec.start, order, |order|), Checks(lab, spec.assertions, StateAfter(lab, spec.start, order, |order|));
    RunsUntil(lab, spec.start, order, |order|);
    ComplaintsMean(lab, spec.assertions, s, |spec.assertions|);
    assert checks[..|spec.assertions|] == checks;
    forall i: nat | i < |spec.assertions|
      ensures Says(lab, spec.assertions[i], s, checks[i].message)
    {
      CheckSays(lab, spec.assertions[i], s);
    }
  }

  lemma CheckSays<A(!new), C, S>(lab: Lab<A, C, S>, a: Assertion<C>, s: S)
    ensures var r := CheckOne(lab, a, s);
      r.id == a.id && r.passed == lab.check(a.check, s).0 && Says(lab, a, s, r.message)
  {
  }

  // ---- The runner ------------------------------------------------------------------------

  class ManualClock {
    var now: int

    constructor (start: int)
      ensures now == start
    {
      now := start;
    }

    /** The clock refuses to move backward. */
    method Advance(next: int) returns (ok: bool)
      modifies this
      ensures ok <==> old(now) <= next
      ensures now == if ok then next else old(now)
    {
      if next < now {
        return false;
      }
      if next == now {
        return true;
      }
      now := next;
      ok := true;
    }
  }

  method Run<A(!new), C, S>(lab: Lab<A, C, S>, spec: Spec<A, C>) returns (r: Result<S>, ghost order: seq<Event<A>>)
    requires Representable(spec.start)
    ensures Schedule(spec.events, order)
    ensures ValidSpec(lab, spec) ==> r == Meaning(lab, spec, order)
    ensures !ValidSpec(lab, spec) ==>
      r == Result(false, spec.start, spec.start, 0, lab.initial, [], [Diagnostic("preflight", "run specification is invalid")])
  {
    hide ValidSpec, DistinctKeys, StrictWeakOrder, RunFrom;
    EventOrder<A>();
    r := Result(false, spec.start, spec.start, 0, lab.initial, [], []);
    var events := Sort(EventLess, spec.events);
    order := events;
    var valid := ValidateSpec(lab, spec);
    if !valid {
      r := r.(diagnostics := [Diagnostic("preflight", "run specification is invalid")]);
      return;
    }
    ScheduledWithin(lab, spec, order);
    var clock := new ManualClock(spec.start);
    var state := lab.initial;
    for i := 0 to |events|
      invariant fresh(clock)
      invariant clock.now == if i == 0 then spec.start else spec.start + events[i - 1].at as int
      invariant r == Result(false, spec.start, spec.start, i, lab.initial, [], [])
      invariant RunFrom(lab, spec.start, order, 0, spec.start, lab.initial) == RunFrom(lab, spec.start, order, i, clock.now, state)
    {
      var event := events[i];
      RunFromStep(lab, spec.start, order, i, clock.now, state);
      AddExactly(spec.start, event.at as int);
      var advanced := clock.Advance(AddDuration(spec.start, event.at as int));
      if !advanced {
        assert false;
      }
      var (next, ok) := lab.apply(event.action, state, clock.now);
      state := next;
      r := r.(eventsExecuted := r.eventsExecuted + 1);
      if !ok {
        r := r.(finishedAt := clock.now, metrics := state, diagnostics := [Diagnostic(event.name, "action failed")]);
        return;
      }
    }
    RunFromEnd(lab, spec.start, order, clock.now, state);
    r := r.(finishedAt := clock.now, metrics := state);
    var checks, complaints := RunChecks(lab, spec.assertions, state);
    r := r.(assertions := checks, diagnostics := complaints, passed := complaints == []);
  }

  method RunChecks<A(!new), C, S>(lab: Lab<A, C, S>, assertions: seq<Assertion<C>>, state: S)
    returns (results: seq<AssertionResult>, complaints: seq<Diagnostic>)
    ensures results == Checks(lab, assertions, state) && complaints == Complaints(results)
  {
    results, complaints := [], [];
    for i := 0 to |assertions|
      invariant results == Checks(lab, assertions, state)[..i]
      invariant complaints == Complaints(results)
    {
      var (passed, message) := lab.check(assertions[i].check, state);
      if !passed && Blank(message) {
        message := "assertion failed";
      }
      var result := AssertionResult(assertions[i].id, passed, message);
      assert (results + [result])[..|results|] == results;
      results := results + [result];
      if !passed {
        complaints := complaints + [Diagnostic(assertions[i].id, message)];
      }
    }
  }

  lemma RunFromStep<A(!new), C, S>(lab: Lab<A, C, S>, start: int, order: seq<Event<A>>, i: nat, now: int, s: S)
    requires i < |order|
    ensures var at := start + order[i].at as int;
      var (s', ok) := lab.apply(order[i].action, s, at);
      RunFrom(lab, start, order, i, now, s)
      == if !ok then Progress(s', at, i + 1, [order[i].name]) else RunFrom(lab, start, order, i + 1, at, s')
  {
  }

  lemma RunFromEnd<A(!new), C, S>(lab: Lab<A, C, S>, start: int, order: seq<Event<A>>, now: int, s: S)
    ensures RunFrom(lab, start, order, |order|, now, s) == Progress(s, now, |order|, [])
  {
  }

  /** Scheduled events are representable, and each comes no earlier than the one before. */
  lemma ScheduledWithin<A(!new), C, S>(lab: Lab<A, C, S>, spec: Spec<A, C>, order: seq<Event<A>>)
    requires ValidSpec(lab, spec) && Schedule(spec.events, order)
    ensures forall i :: 0 <= i < |order| ==> 0 <= order[i].at && Representable(spec.start + order[i].at as int)
    ensures forall i, j :: 0 <= i < j < |order| ==> order[i].at <= order[j].at
  {
    ScheduleKeys(spec.events, order);
    assert forall i :: 0 <= i < |order| ==> order[i] in spec.events;
    assert forall i, j :: 0 <= i < j < |order| ==> EventLess(order[i], order[j]);
  }
}
