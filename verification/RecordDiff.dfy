/** The difference between two records of the same cell, as a patch from the left one to the right one. */
module RecordDiff {
  import opened Ordering
  import opened Decimals
  import opened Evidence

  datatype Option<T> = None | Some(value: T)

  datatype MetricChange = MetricChange(id: string, left: Option<Measurement>, right: Option<Measurement>, delta: string)

  datatype TextChange = TextChange(id: string, left: string, right: string)

  datatype Row = Row(
    cell: CellKey,
    metrics: seq<MetricChange>,
    environment: seq<TextChange>,
    messages: seq<TextChange>,
    conclusion: Option<(string, string)>,
    limitations: Option<(seq<string>, seq<string>)>)

  function Lookup<V>(m: map<string, V>, id: string): Option<V> {
    if id in m then Some(m[id]) else None
  }

  // ---- Measurements -----------------------------------------------------------------

  function DeltaText(l: Option<Measurement>, r: Option<Measurement>): string {
    if l.Some? && r.Some? then IntText(r.value.value - l.value.value) else ""
  }

  function MetricAt(id: string, l: map<string, Measurement>, r: map<string, Measurement>): seq<MetricChange> {
    var a, b := Lookup(l, id), Lookup(r, id);
    if a == b then [] else [MetricChange(id, a, b, DeltaText(a, b))]
  }

  function MetricChanges(ids: seq<string>, l: map<string, Measurement>, r: map<string, Measurement>): seq<MetricChange> {
    if ids == [] then [] else MetricAt(ids[0], l, r) + MetricChanges(ids[1..], l, r)
  }

  /** The changed measurements, by increasing id. */
  ghost function MetricDiff(l: map<string, Measurement>, r: map<string, Measurement>): seq<MetricChange> {
    MetricChanges(InOrder(l.Keys + r.Keys), l, r)
  }

  /** The ids measured on either side, in increasing order. */
  method OrderedIds(l: map<string, Measurement>, r: map<string, Measurement>) returns (ordered: seq<string>)
    ensures ordered == InOrder(l.Keys + r.Keys)
  {
    hide Less;
    ordered := SortedKeys(l + r);
    LessIsStrictWeakOrder();
    SortedUnique(Less, ordered, InOrder(l.Keys + r.Keys));
  }

  method DiffMeasurement(id: string, l: map<string, Measurement>, r: map<string, Measurement>) returns (changes: seq<MetricChange>)
    requires id in l || id in r
    ensures changes == MetricAt(id, l, r)
  {
    if id in l && id in r && l[id] == r[id] {
      return [];
    }
    var change := MetricChange(id, None, None, "");
    if id in l {
      change := change.(left := Some(l[id]));
    }
    if id in r {
      change := change.(right := Some(r[id]));
    }
    if id in l && id in r {
      change := change.(delta := IntText(r[id].value - l[id].value));
    }
    return [change];
  }

  method DiffMeasurements(l: map<string, Measurement>, r: map<string, Measurement>) returns (changes: seq<MetricChange>)
    ensures changes == MetricDiff(l, r)
  {
    hide MetricChanges, MetricAt, StrictlySorted;
    var ordered := OrderedIds(l, r);
    changes := [];
    for i := 0 to |ordered|
      invariant changes + MetricChanges(ordered[i..], l, r) == MetricDiff(l, r)
    {
      OneMetric(ordered, i, l, r);
      assert ordered[i] in ordered;
      var here := DiffMeasurement(ordered[i], l, r);
      assert changes + here + MetricChanges(ordered[i + 1..], l, r) == changes + (here + MetricChanges(ordered[i + 1..], l, r));
      changes := changes + here;
    }
    NoMetricsLeft(ordered, l, r);
  }

  lemma OneMetric(ids: seq<string>, i: nat, l: map<string, Measurement>, r: map<string, Measurement>)
    requires i < |ids|
    ensures MetricChanges(ids[i..], l, r) == MetricAt(ids[i], l, r) + MetricChanges(ids[i + 1..], l, r)
  {
    hide MetricAt;
    assert ids[i..][0] == ids[i] && ids[i..][1..] == ids[i + 1..];
  }

  lemma NoMetricsLeft(ids: seq<string>, l: map<string, Measurement>, r: map<string, Measurement>)
    ensures MetricChanges(ids[|ids|..], l, r) == []
  {
  }

  function ApplyMetrics(changes: seq<MetricChange>, m: map<string, Measurement>): map<string, Measurement> {
    if changes == [] then m
    else
      var c := changes[0];
      ApplyMetrics(changes[1..], if c.right.Some? then m[c.id := c.right.value] else m - {c.id})
  }

  lemma {:induction false} ApplyMetricsAt(ids: seq<string>, l: map<string, Measurement>, r: map<string, Measurement>,
                                          m: map<string, Measurement>, x: string)
    requires Distinct(ids)
    requires forall id <- ids :: Lookup(m, id) == Lookup(l, id)
    ensures Lookup(ApplyMetrics(MetricChanges(ids, l, r), m), x) == Lookup(if x in ids then r else m, x)
  {
    hide DeltaText, Distinct;
    if ids != [] {
      DistinctTail(ids);
      var id, rest := ids[0], ids[1..];
      var a, b := Lookup(l, id), Lookup(r, id);
      assert ids == [id] + rest && id !in rest && id in ids;
      var changes, later := MetricChanges(ids, l, r), MetricChanges(rest, l, r);
      if a == b {
        assert changes == later;
        ApplyMetricsAt(rest, l, r, m, x);
      } else {
        assert changes == [MetricChange(id, a, b, DeltaText(a, b))] + later && changes[1..] == later;
        var m' := if b.Some? then m[id := b.value] else m - {id};
        assert forall y :: Lookup(m', y) == if y == id then b else Lookup(m, y);
        ApplyMetricsAt(rest, l, r, m', x);
      }
    }
  }

  lemma DistinctTail(ids: seq<string>)
    requires ids != [] && Distinct(ids)
    ensures Distinct(ids[1..]) && ids[0] !in ids[1..]
  {
  }

  lemma StrictIsDistinct(s: seq<string>)
    requires StrictlySorted(Less, s)
    ensures Distinct(s)
  {
    hide Less;
    LessIsStrictWeakOrder();
  }

  /** Applying the changes turns the left measurements into the right ones. */
  lemma MetricPatch(l: map<string, Measurement>, r: map<string, Measurement>)
    ensures ApplyMetrics(MetricDiff(l, r), l) == r
  {
    var ids := InOrder(l.Keys + r.Keys);
    StrictIsDistinct(ids);
    var patched := ApplyMetrics(MetricDiff(l, r), l);
    forall x: string
      ensures Lookup(patched, x) == Lookup(r, x)
    {
      ApplyMetricsAt(ids, l, r, l, x);
    }
    assert forall x :: (x in patched <==> x in r) by {
      forall x: string ensures x in patched <==> x in r { assert Lookup(patched, x) == Lookup(r, x); }
    }
    forall x | x in r ensures patched[x] == r[x] { assert Lookup(patched, x) == Lookup(r, x); }
  }

  function SwapMetric(c: MetricChange): MetricChange {
    MetricChange(c.id, c.right, c.left, DeltaText(c.right, c.left))
  }

  function SwapMetrics(changes: seq<MetricChange>): seq<MetricChange> {
    seq(|changes|, i requires 0 <= i < |changes| => SwapMetric(changes[i]))
  }

  lemma MetricAtSwap(id: string, l: map<string, Measurement>, r: map<string, Measurement>)
    ensures MetricAt(id, r, l) == SwapMetrics(MetricAt(id, l, r))
  {
    hide DeltaText;
  }

  lemma {:induction false} MetricChangesSwap(ids: seq<string>, l: map<string, Measurement>, r: map<string, Measurement>)
    ensures MetricChanges(ids, r, l) == SwapMetrics(MetricChanges(ids, l, r))
  {
    hide DeltaText, MetricAt, SwapMetric;
    if ids != [] {
      MetricChangesSwap(ids[1..], l, r);
      MetricAtSwap(ids[0], l, r);
    }
  }

  /** Swapping the sides swaps every change. */
  lemma MetricSwap(l: map<string, Measurement>, r: map<string, Measurement>)
    ensures MetricDiff(r, l) == SwapMetrics(MetricDiff(l, r))
  {
    assert l.Keys + r.Keys == r.Keys + l.Keys;
    MetricChangesSwap(InOrder(l.Keys + r.Keys), l, r);
  }

  /** Swapping the sides negates every delta. */
  lemma DeltaNegates(l: map<string, Measurement>, r: map<string, Measurement>, c: MetricChange)
    requires c in MetricDiff(l, r) && c.left.Some? && c.right.Some?
    ensures IntValue(c.delta) == c.right.value.value - c.left.value.value
    ensures IntValue(SwapMetric(c).delta) == -IntValue(c.delta)
  {
    hide IntText, IntValue, MetricChanges, InOrder;
    MetricChangesAreExact(InOrder(l.Keys + r.Keys), l, r, c);
    IntRoundTrip(c.right.value.value - c.left.value.value);
    IntRoundTrip(c.left.value.value - c.right.value.value);
  }

  lemma {:induction false} MetricChangesAreExact(ids: seq<string>, l: map<string, Measurement>, r: map<string, Measurement>, c: MetricChange)
    requires c in MetricChanges(ids, l, r)
    ensures c.id in ids && c == MetricChange(c.id, Lookup(l, c.id), Lookup(r, c.id), DeltaText(c.left, c.right)) && c.left != c.right
  {
    if ids != [] && c in MetricChanges(ids[1..], l, r) {
      MetricChangesAreExact(ids[1..], l, r, c);
    }
  }

  lemma {:induction false} NoMetricChanges(ids: seq<string>, l: map<string, Measurement>, r: map<string, Measurement>)
    ensures MetricChanges(ids, l, r) == [] <==> forall id <- ids :: Lookup(l, id) == Lookup(r, id)
  {
    if ids != [] {
      NoMetricChanges(ids[1..], l, r);
      assert ids == [ids[0]] + ids[1..];
    }
  }

  lemma MetricSame(l: map<string, Measurement>, r: map<string, Measurement>)
    ensures MetricDiff(l, r) == [] <==> l == r
  {
    NoMetricChanges(InOrder(l.Keys + r.Keys), l, r);
    if MetricDiff(l, r) == [] {
      MetricPatch(l, r);
    }
  }

  // ---- Environments -------------------------------------------------------------------

  const FIELDS: seq<string> := ["arch", "cpu", "go_version", "logical_cpus", "os"]

  function Field(e: Environment, name: string): string {
    if name == "arch" then e.arch
    else if name == "cpu" then e.cpu
    else if name == "go_version" then e.goVersion
    else if name == "logical_cpus" then IntText(e.logicalCpus)
    else e.os
  }

  function WithField(e: Environment, name: string, value: string): Environment {
    if name == "arch" then e.(arch := value)
    else if name == "cpu" then e.(cpu := value)
    else if name == "go_version" then e.(goVersion := value)
    else if name == "logical_cpus" then e.(logicalCpus := IntValue(value))
    else e.(os := value)
  }

  function FieldChanges(fields: seq<string>, l: Environment, r: Environment): seq<TextChange> {
    if fields == [] then []
    else
      var a, b := Field(l, fields[0]), Field(r, fields[0]);
      (if a == b then [] else [TextChange(fields[0], a, b)]) + FieldChanges(fields[1..], l, r)
  }

  method DiffEnvironment(l: Environment, r: Environment) returns (changes: seq<TextChange>)
    ensures changes == FieldChanges(FIELDS, l, r)
  {
    hide Field;
    changes := [];
    for i := 0 to |FIELDS|
      invariant changes + FieldChanges(FIELDS[i..], l, r) == FieldChanges(FIELDS, l, r)
    {
      var field := FIELDS[i];
      assert FIELDS[i..][0] == field && FIELDS[i..][1..] == FIELDS[i + 1..];
      if Field(l, field) != Field(r, field) {
        changes := changes + [TextChange(field, Field(l, field), Field(r, field))];
      }
    }
  }

  function ApplyFields(changes: seq<TextChange>, e: Environment): Environment {
    if changes == [] then e else ApplyFields(changes[1..], WithField(e, changes[0].id, changes[0].right))
  }

  /** After the changes of some fields, those fields are the right ones and the others as before. */
  lemma {:induction false} ApplyFieldsAt(fields: seq<string>, l: Environment, r: Environment, e: Environment, x: string)
    requires Distinct(fields) && forall f <- fields + [x] :: f in FIELDS
    requires forall f <- fields :: Field(e, f) == Field(l, f)
    ensures Field(ApplyFields(FieldChanges(fields, l, r), e), x) == Field(if x in fields then r else e, x)
  {
    hide Field, WithField;
    if fields != [] {
      var f, rest := fields[0], fields[1..];
      assert fields == [f] + rest && f !in rest && f in fields + [x] && x in fields + [x];
      assert forall y <- rest + [x] :: y in fields + [x];
      var changes := FieldChanges(fields, l, r);
      if Field(l, f) == Field(r, f) {
        assert changes == FieldChanges(rest, l, r);
        ApplyFieldsAt(rest, l, r, e, x);
      } else {
        assert changes[1..] == FieldChanges(rest, l, r);
        var e' := WithField(e, f, Field(r, f));
        forall y | y in FIELDS
          ensures Field(e', y) == Field(if y == f then r else e, y)
        {
          FieldWritten(e, r, f, y);
        }
        ApplyFieldsAt(rest, l, r, e', x);
      }
    }
  }

  lemma FieldWritten(e: Environment, r: Environment, f: string, y: string)
    requires f in FIELDS && y in FIELDS
    ensures Field(WithField(e, f, Field(r, f)), y) == Field(if y == f then r else e, y)
  {
    IntRoundTrip(r.logicalCpus);
  }

  lemma SameFields(a: Environment, b: Environment)
    ensures a == b <==> forall f <- FIELDS :: Field(a, f) == Field(b, f)
  {
    IntInjective(a.logicalCpus, b.logicalCpus);
    if forall f <- FIELDS :: Field(a, f) == Field(b, f) {
      assert FIELDS[0] in FIELDS && FIELDS[1] in FIELDS && FIELDS[2] in FIELDS && FIELDS[3] in FIELDS && FIELDS[4] in FIELDS;
      assert Field(a, "logical_cpus") == Field(b, "logical_cpus");
    }
  }

  lemma EnvironmentPatch(l: Environment, r: Environment)
    ensures ApplyFields(FieldChanges(FIELDS, l, r), l) == r
  {
    hide Field;
    var patched := ApplyFields(FieldChanges(FIELDS, l, r), l);
    forall f | f in FIELDS
      ensures Field(patched, f) == Field(r, f)
    {
      ApplyFieldsAt(FIELDS, l, r, l, f);
    }
    SameFields(patched, r);
  }

  lemma {:induction false} NoFieldChanges(fields: seq<string>, l: Environment, r: Environment)
    ensures FieldChanges(fields, l, r) == [] <==> forall f <- fields :: Field(l, f) == Field(r, f)
  {
    hide Field;
    if fields != [] {
      NoFieldChanges(fields[1..], l, r);
      assert fields == [fields[0]] + fields[1..];
    }
  }

  function SwapTexts(changes: seq<TextChange>): seq<TextChange> {
    seq(|changes|, i requires 0 <= i < |changes| => TextChange(changes[i].id, changes[i].right, changes[i].left))
  }

  lemma {:induction false} FieldChangesSwap(fields: seq<string>, l: Environment, r: Environment)
    ensures FieldChanges(fields, r, l) == SwapTexts(FieldChanges(fields, l, r))
  {
    hide Field;
    if fields != [] {
      FieldChangesSwap(fields[1..], l, r);
    }
  }

  // ---- Assertion messages -----------------------------------------------------------

  /** Same assertions in the same order, all passed. */
  ghost predicate SameAssertions(l: seq<Assertion>, r: seq<Assertion>) {
    |l| == |r| && forall i :: 0 <= i < |l| ==> l[i].id == r[i].id && l[i].passed && r[i].passed
  }

  function MessageChanges(l: seq<Assertion>, r: seq<Assertion>): seq<TextChange>
    requires |l| == |r|
  {
    if l == [] then []
    else
      MessageChanges(l[..|l| - 1], r[..|r| - 1])
      + if l[|l| - 1].message == r[|r| - 1].message then []
        else [TextChange(l[|l| - 1].id, l[|l| - 1].message, r[|r| - 1].message)]
  }

  method DiffAssertionMessages(l: seq<Assertion>, r: seq<Assertion>) returns (changes: seq<TextChange>, ok: bool)
    ensures ok <==> SameAssertions(l, r)
    ensures ok ==> changes == MessageChanges(l, r)
  {
    changes := [];
    if |l| != |r| {
      return [], false;
    }
    for i := 0 to |l|
      invariant SameAssertions(l[..i], r[..i])
      invariant changes == MessageChanges(l[..i], r[..i])
    {
      assert l[..i + 1][..i] == l[..i] && r[..i + 1][..i] == r[..i];
      if l[i].id != r[i].id || !l[i].passed || !r[i].passed {
        return [], false;
      }
      if l[i].message != r[i].message {
        changes := changes + [TextChange(l[i].id, l[i].message, r[i].message)];
      }
    }
    assert l[..|l|] == l && r[..|r|] == r;
    ok := true;
  }

  function MessageFor(changes: seq<TextChange>, a: Assertion): Assertion {
    if changes == [] then a
    else if changes[|changes| - 1].id == a.id then a.(message := changes[|changes| - 1].right)
    else MessageFor(changes[..|changes| - 1], a)
  }

  function ApplyMessages(changes: seq<TextChange>, assertions: seq<Assertion>): seq<Assertion> {
    seq(|assertions|, i requires 0 <= i < |assertions| => MessageFor(changes, assertions[i]))
  }

  ghost predicate DistinctIds(l: seq<Assertion>) {
    forall i, j :: 0 <= i < j < |l| ==> l[i].id != l[j].id
  }

  lemma {:induction false} MessageForAt(l: seq<Assertion>, r: seq<Assertion>, a: Assertion)
    requires SameAssertions(l, r) && DistinctIds(l)
    ensures (forall x <- l :: x.id != a.id) ==> MessageFor(MessageChanges(l, r), a) == a
    ensures forall i :: 0 <= i < |l| && l[i] == a ==> MessageFor(MessageChanges(l, r), a) == r[i]
  {
    if l != [] {
      var n := |l| - 1;
      var l', r' := l[..n], r[..n];
      assert l == l' + [l[n]];
      MessageForAt(l', r', a);
      var earlier := MessageChanges(l', r');
      var changes := MessageChanges(l, r);
      if l[n].message != r[n].message {
        assert changes == earlier + [TextChange(l[n].id, l[n].message, r[n].message)];
        assert changes[..|changes| - 1] == earlier;
      } else {
        assert changes == earlier;
      }
      assert forall x <- l' :: x in l;
      assert l[n] in l;
      forall i | 0 <= i < |l| && l[i] == a
        ensures MessageFor(changes, a) == r[i]
      {
        if i == n {
          assert forall x <- l' :: x.id != a.id;
        } else {
          assert l'[i] == a;
        }
      }
    }
  }

  lemma MessagesPatch(l: seq<Assertion>, r: seq<Assertion>)
    requires SameAssertions(l, r) && DistinctIds(l)
    ensures ApplyMessages(MessageChanges(l, r), l) == r
  {
    forall i | 0 <= i < |l|
      ensures MessageFor(MessageChanges(l, r), l[i]) == r[i]
    {
      MessageForAt(l, r, l[i]);
    }
  }

  lemma {:induction false} MessagesSwap(l: seq<Assertion>, r: seq<Assertion>)
    requires SameAssertions(l, r)
    ensures MessageChanges(r, l) == SwapTexts(MessageChanges(l, r))
    ensures MessageChanges(l, r) == [] <==> l == r
  {
    if l != [] {
      var n := |l| - 1;
      MessagesSwap(l[..n], r[..n]);
      assert l == l[..n] + [l[n]] && r == r[..n] + [r[n]];
    }
  }

  // ---- Rows ------------------------------------------------------------------------------

  /** The whole difference of two records with the same assertions. */
  ghost function RowOf(cell: CellKey, l: Record, r: Record): Row
    requires |l.assertions| == |r.assertions|
  {
    Row(cell, MetricDiff(l.measurements, r.measurements), FieldChanges(FIELDS, l.environment, r.environment),
        MessageChanges(l.assertions, r.assertions),
        if l.conclusion == r.conclusion then None else Some((l.conclusion, r.conclusion)),
        if l.definition.limitations == r.definition.limitations then None
        else Some((l.definition.limitations, r.definition.limitations)))
  }

  predicate Changed(row: Row) {
    row.metrics != [] || row.environment != [] || row.messages != [] || row.conclusion != None || row.limitations != None
  }

  method BuildDiffRow(cell: CellKey, l: Record, r: Record) returns (row: Row, changed: bool, ok: bool)
    ensures ok <==> SameAssertions(l.assertions, r.assertions)
    ensures ok ==> row == RowOf(cell, l, r) && changed == Changed(row)
  {
    hide MetricDiff, FieldChanges, MessageChanges;
    var metrics := DiffMeasurements(l.measurements, r.measurements);
    var environment := DiffEnvironment(l.environment, r.environment);
    var messages;
    messages, ok := DiffAssertionMessages(l.assertions, r.assertions);
    row := Row(cell, metrics, environment, messages, None, None);
    if !ok {
      return row, false, false;
    }
    if l.conclusion != r.conclusion {
      row := row.(conclusion := Some((l.conclusion, r.conclusion)));
    }
    if l.definition.limitations != r.definition.limitations {
      row := row.(limitations := Some((l.definition.limitations, r.definition.limitations)));
    }
    changed := Changed(row);
  }

  // What a diff compares, and what a patch restores.
  datatype Compared = Compared(
    measurements: map<string, Measurement>, environment: Environment, assertions: seq<Assertion>,
    conclusion: string, limitations: seq<string>)

  function ComparedOf(r: Record): Compared {
    Compared(r.measurements, r.environment, r.assertions, r.conclusion, r.definition.limitations)
  }

  function Patch(row: Row, c: Compared): Compared {
    Compared(ApplyMetrics(row.metrics, c.measurements), ApplyFields(row.environment, c.environment),
             ApplyMessages(row.messages, c.assertions),
             if row.conclusion.Some? then row.conclusion.value.1 else c.conclusion,
             if row.limitations.Some? then row.limitations.value.1 else c.limitations)
  }

  /** A row is a faithful patch, and says nothing exactly when nothing differs. */
  lemma RowIsPatch(cell: CellKey, l: Record, r: Record)
    requires SameAssertions(l.assertions, r.assertions) && DistinctIds(l.assertions)
    ensures Patch(RowOf(cell, l, r), ComparedOf(l)) == ComparedOf(r)
    ensures !Changed(RowOf(cell, l, r)) <==> ComparedOf(l) == ComparedOf(r)
  {
    hide MetricDiff, FieldChanges, MessageChanges, ApplyMetrics, ApplyFields, ApplyMessages, SameAssertions, DistinctIds;
    MetricPatch(l.measurements, r.measurements);
    EnvironmentPatch(l.environment, r.environment);
    MessagesPatch(l.assertions, r.assertions);
    MetricSame(l.measurements, r.measurements);
    NoFieldChanges(FIELDS, l.environment, r.environment);
    SameFields(l.environment, r.environment);
    MessagesSwap(l.assertions, r.assertions);
  }

  function SwapRow(row: Row): Row {
    Row(row.cell, SwapMetrics(row.metrics), SwapTexts(row.environment), SwapTexts(row.messages),
        if row.conclusion.Some? then Some((row.conclusion.value.1, row.conclusion.value.0)) else None,
        if row.limitations.Some? then Some((row.limitations.value.1, row.limitations.value.0)) else None)
  }

  lemma RowSwap(cell: CellKey, l: Record, r: Record)
    requires SameAssertions(l.assertions, r.assertions)
    ensures RowOf(cell, r, l) == SwapRow(RowOf(cell, l, r))
    ensures Changed(RowOf(cell, r, l)) <==> Changed(RowOf(cell, l, r))
  {
    hide MetricDiff, FieldChanges, MessageChanges;
    MetricSwap(l.measurements, r.measurements);
    FieldChangesSwap(FIELDS, l.environment, r.environment);
    MessagesSwap(l.assertions, r.assertions);
  }

  // ---- What a row lists --------------------------------------------------------------------

  lemma {:induction false} MetricListed(ids: seq<string>, l: map<string, Measurement>, r: map<string, Measurement>, c: MetricChange)
    ensures c in MetricChanges(ids, l, r) <==>
      && c.id in ids && c.left == Lookup(l, c.id) && c.right == Lookup(r, c.id) && c.left != c.right
      && c.delta == DeltaText(c.left, c.right)
  {
    hide DeltaText, Lookup;
    if ids != [] {
      MetricListed(ids[1..], l, r, c);
      assert ids == [ids[0]] + ids[1..];
    }
  }

  lemma MetricsListed(l: map<string, Measurement>, r: map<string, Measurement>, c: MetricChange)
    ensures c in MetricDiff(l, r) <==>
      && c.left == Lookup(l, c.id) && c.right == Lookup(r, c.id) && c.left != c.right
      && c.delta == DeltaText(c.left, c.right)
  {
    hide DeltaText;
    MetricListed(InOrder(l.Keys + r.Keys), l, r, c);
  }

  lemma {:induction false} FieldListed(fields: seq<string>, l: Environment, r: Environment, c: TextChange)
    ensures c in FieldChanges(fields, l, r) <==>
      c.id in fields && c.left == Field(l, c.id) && c.right == Field(r, c.id) && c.left != c.right
  {
    hide Field;
    if fields != [] {
      FieldListed(fields[1..], l, r, c);
      assert fields == [fields[0]] + fields[1..];
    }
  }

  /** A change of the environment as a row shows it: which field, and its two values. */
  ghost predicate FieldDiffers(l: Environment, r: Environment, c: TextChange) {
    && c.left != c.right
    && (|| (c.id == "arch" && c.left == l.arch && c.right == r.arch)
        || (c.id == "cpu" && c.left == l.cpu && c.right == r.cpu)
        || (c.id == "go_version" && c.left == l.goVersion && c.right == r.goVersion)
        || (c.id == "logical_cpus" && c.left == IntText(l.logicalCpus) && c.right == IntText(r.logicalCpus))
        || (c.id == "os" && c.left == l.os && c.right == r.os))
  }

  lemma FieldsListed(l: Environment, r: Environment, c: TextChange)
    ensures c in FieldChanges(FIELDS, l, r) <==> FieldDiffers(l, r, c)
  {
    hide FieldChanges;
    FieldListed(FIELDS, l, r, c);
    assert "arch" == FIELDS[0] && "cpu" == FIELDS[1] && "go_version" == FIELDS[2] && "logical_cpus" == FIELDS[3] && "os" == FIELDS[4];
  }

  lemma {:induction false} MessagesListed(l: seq<Assertion>, r: seq<Assertion>, c: TextChange)
    requires |l| == |r|
    ensures c in MessageChanges(l, r) <==>
      exists i :: 0 <= i < |l| && c == TextChange(l[i].id, l[i].message, r[i].message) && c.left != c.right
  {
    if l != [] {
      var n := |l| - 1;
      MessagesListed(l[..n], r[..n], c);
      assert forall i :: 0 <= i < n ==> l[..n][i] == l[i] && r[..n][i] == r[i];
    }
  }

  /** A row lists exactly what differs: each measurement, field, message and text with both its values. */
  lemma RowLists(cell: CellKey, l: Record, r: Record, m: MetricChange, t: TextChange)
    requires SameAssertions(l.assertions, r.assertions)
    ensures var row := RowOf(cell, l, r);
      && row.cell == cell
      && (m in row.metrics <==>
            && m.left == Lookup(l.measurements, m.id) && m.right == Lookup(r.measurements, m.id) && m.left != m.right
            && m.delta == if m.left.Some? && m.right.Some? then IntText(m.right.value.value - m.left.value.value) else "")
      && (t in row.environment <==> FieldDiffers(l.environment, r.environment, t))
      && (t in row.messages <==>
            exists i :: 0 <= i < |l.assertions| && t.left != t.right
              && t == TextChange(l.assertions[i].id, l.assertions[i].message, r.assertions[i].message))
      && (row.conclusion.Some? <==> l.conclusion != r.conclusion)
      && (row.conclusion.Some? ==> row.conclusion.value == (l.conclusion, r.conclusion))
      && (row.limitations.Some? <==> l.definition.limitations != r.definition.limitations)
      && (row.limitations.Some? ==> row.limitations.value == (l.definition.limitations, r.definition.limitations))
  {
    hide MetricDiff, FieldChanges, MessageChanges, FieldDiffers;
    MetricsListed(l.measurements, r.measurements, m);
    FieldsListed(l.environment, r.environment, t);
    MessagesListed(l.assertions, r.assertions, t);
  }
}
