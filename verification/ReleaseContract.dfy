/** The contracts that building and auditing a release share. */
module ReleaseContract {
  import opened Ordering
  import opened Evidence

  const SCHEMA_VERSION: int := 1

  datatype Selection = Selection(cell: CellKey, role: string, evidenceId: string, contentDigest: string)

  datatype Manifest = Manifest(
    schemaVersion: int, inputDigest: string, profile: string, runSetId: string, selections: seq<Selection>)

  datatype MeasurementSpec = MeasurementSpec(id: string, unit: string)

  datatype ExpectedCell = ExpectedCell(
    cell: CellKey, role: string, assertionIds: seq<string>, profile: string, start: int,
    definition: Definition, measurements: seq<MeasurementSpec>, eventsExpected: int, wellFormed: bool)

  function OrderFields(cell: CellKey, role: string): seq<string> {
    [cell.labId, cell.requiredRunId, cell.bindingId, cell.claimId, cell.implementationId, cell.adapterId, role]
  }

  /** Lexicographic order of equally long field lists: the first difference decides. */
  ghost predicate FieldsLess(a: seq<string>, b: seq<string>)
    requires |a| == |b|
  {
    exists k :: 0 <= k < |a| && Less(a[k], b[k]) && a[..k] == b[..k]
  }

  method CompareFields(left: seq<string>, right: seq<string>) returns (order: int)
    requires |left| == |right|
    ensures order < 0 <==> FieldsLess(left, right)
    ensures order > 0 <==> FieldsLess(right, left)
    ensures order == 0 <==> left == right
  {
    for index := 0 to |left|
      invariant left[..index] == right[..index]
    {
      LessTrichotomy(left[index], right[index]);
      if Less(left[index], right[index]) {
        FirstDifference(left, right, index);
        return -1;
      }
      if Less(right[index], left[index]) {
        FirstDifference(right, left, index);
        return 1;
      }
      assert left[..index + 1] == left[..index] + [left[index]];
    }
    assert left[..|left|] == left && right[..|right|] == right;
    NotLessThanItself(left);
    return 0;
  }

  lemma FirstDifference(a: seq<string>, b: seq<string>, index: int)
    requires |a| == |b| && 0 <= index < |a|
    requires a[..index] == b[..index] && Less(a[index], b[index])
    ensures FieldsLess(a, b) && !FieldsLess(b, a) && a != b
  {
    forall k | 0 <= k < |a|
      ensures !(Less(b[k], a[k]) && b[..k] == a[..k])
    {
      LessTrichotomy(a[k], b[k]);
      LessTrichotomy(a[index], b[index]);
      SamePrefix(a, b, index, k);
      SamePrefix(a, b, k, index);
    }
  }

  lemma SamePrefix(a: seq<string>, b: seq<string>, k: int, n: int)
    requires |a| == |b| && 0 <= k < |a| && 0 <= n <= |a|
    ensures k < n && a[..n] == b[..n] ==> a[k] == b[k]
  {
    assert k < n ==> a[..n][k] == a[k] && b[..n][k] == b[k];
  }

  lemma NotLessThanItself(a: seq<string>)
    ensures !FieldsLess(a, a)
  {
    forall k | 0 <= k < |a|
      ensures !Less(a[k], a[k])
    {
      LessTrichotomy(a[k], a[k]);
    }
  }

  /** compareCellRole over six identities and the role. */
  method CompareCellRole(left: CellKey, leftRole: string, right: CellKey, rightRole: string) returns (order: int)
    ensures order < 0 <==> Before(left, leftRole, right, rightRole)
    ensures order == 0 <==> left == right && leftRole == rightRole
  {
    var leftValues, rightValues := OrderFields(left, leftRole), OrderFields(right, rightRole);
    order := CompareFields(leftValues, rightValues);
    if leftValues == rightValues {
      assert forall i :: 0 <= i < 7 ==> leftValues[i] == rightValues[i];
      assert left.labId == leftValues[0] && left.requiredRunId == leftValues[1] && left.bindingId == leftValues[2];
    }
  }

  ghost predicate Before(left: CellKey, leftRole: string, right: CellKey, rightRole: string) {
    FieldsLess(OrderFields(left, leftRole), OrderFields(right, rightRole))
  }

  /** Selections are ordered by lab, run, binding, claim, implementation, adapter and role, the first difference deciding. */
  lemma BeforeMeans(a: CellKey, aRole: string, b: CellKey, bRole: string)
    ensures Before(a, aRole, b, bRole) <==>
      if a.labId != b.labId then Less(a.labId, b.labId)
      else if a.requiredRunId != b.requiredRunId then Less(a.requiredRunId, b.requiredRunId)
      else if a.bindingId != b.bindingId then Less(a.bindingId, b.bindingId)
      else if a.claimId != b.claimId then Less(a.claimId, b.claimId)
      else if a.implementationId != b.implementationId then Less(a.implementationId, b.implementationId)
      else if a.adapterId != b.adapterId then Less(a.adapterId, b.adapterId)
      else Less(aRole, bRole)
  {
    hide FieldsLess, Less;
    var x, y := OrderFields(a, aRole), OrderFields(b, bRole);
    var first := if x[0] != y[0] then 0 else if x[1] != y[1] then 1 else if x[2] != y[2] then 2 else if x[3] != y[3] then 3
      else if x[4] != y[4] then 4 else if x[5] != y[5] then 5 else 6;
    assert x[..first] == y[..first];
    LessTrichotomy(x[first], y[first]);
    if Less(x[first], y[first]) {
      FirstDifference(x, y, first);
    } else if Less(y[first], x[first]) {
      FirstDifference(y, x, first);
    } else {
      assert x == y;
      NotLessThanItself(x);
    }
  }

  // ---- Validity -------------------------------------------------------------

  predicate ValidSelection(rules: Rules, s: Selection) {
    ValidIdentity(rules, s.cell, s.role) && rules.evidenceId(s.evidenceId) && rules.digest(s.contentDigest)
  }

  /** The selection at `k` is valid, new, and after its predecessor. */
  ghost predicate SelectionFits(rules: Rules, s: seq<Selection>, k: int)
    requires 0 <= k < |s|
  {
    && ValidSelection(rules, s[k])
    && (forall i :: 0 <= i < k ==> s[i].cell != s[k].cell && s[i].evidenceId != s[k].evidenceId)
    && (k > 0 ==> Before(s[k - 1].cell, s[k - 1].role, s[k].cell, s[k].role))
  }

  /** A strict, valid, canonically ordered manifest. */
  ghost predicate ValidManifest(rules: Rules, m: Manifest) {
    && m.schemaVersion == SCHEMA_VERSION
    && rules.digest(m.inputDigest) && ValidProfile(m.profile) && rules.runSetId(m.runSetId)
    && m.selections != []
    && forall k :: 0 <= k < |m.selections| ==> SelectionFits(rules, m.selections, k)
  }

  method ValidateManifest(rules: Rules, m: Manifest) returns (ok: bool)
    ensures ok <==> ValidManifest(rules, m)
  {
    hide ValidSelection, Before;
    if m.schemaVersion != SCHEMA_VERSION || !rules.digest(m.inputDigest) || !ValidProfile(m.profile)
       || !rules.runSetId(m.runSetId) || m.selections == [] {
      return false;
    }
    var s := m.selections;
    var seenKeys: set<CellKey>, seenEvidence: set<string> := {}, {};
    for index := 0 to |s|
      invariant forall x :: x in seenKeys <==> exists i :: 0 <= i < index && s[i].cell == x
      invariant forall x :: x in seenEvidence <==> exists i :: 0 <= i < index && s[i].evidenceId == x
      invariant forall k :: 0 <= k < index ==> SelectionFits(rules, s, k)
    {
      if !ValidSelection(rules, s[index]) || s[index].cell in seenKeys || s[index].evidenceId in seenEvidence {
        assert !SelectionFits(rules, s, index);
        return false;
      }
      if index > 0 {
        var order := CompareCellRole(s[index - 1].cell, s[index - 1].role, s[index].cell, s[index].role);
        if order >= 0 {
          assert !SelectionFits(rules, s, index);
          return false;
        }
      }
      assert SelectionFits(rules, s, index);
      seenKeys, seenEvidence := seenKeys + {s[index].cell}, seenEvidence + {s[index].evidenceId};
    }
    return true;
  }

  // `wellFormed` stands for the remaining checks on texts, times and identities.
  predicate ValidExpectedCell(rules: Rules, e: ExpectedCell) {
    && ValidIdentity(rules, e.cell, e.role) && ValidProfile(e.profile) && e.wellFormed
    && (forall i, j :: 0 <= i < j < |e.assertionIds| ==> e.assertionIds[i] != e.assertionIds[j])
    && (forall i, j :: 0 <= i < j < |e.measurements| ==> e.measurements[i].id != e.measurements[j].id)
  }

  ghost predicate ExpectedFits(rules: Rules, e: seq<ExpectedCell>, k: int)
    requires 0 <= k < |e|
  {
    && ValidExpectedCell(rules, e[k]) && e[k].profile == e[0].profile
    && (forall i :: 0 <= i < k ==> e[i].cell != e[k].cell)
    && (k > 0 ==> Before(e[k - 1].cell, e[k - 1].role, e[k].cell, e[k].role))
  }

  ghost predicate ValidExpected(rules: Rules, expected: seq<ExpectedCell>) {
    expected != [] && forall k :: 0 <= k < |expected| ==> ExpectedFits(rules, expected, k)
  }

  method ValidateExpectedCells(rules: Rules, expected: seq<ExpectedCell>) returns (ok: bool)
    ensures ok <==> ValidExpected(rules, expected)
  {
    hide ValidExpectedCell, Before;
    if expected == [] {
      return false;
    }
    var e := expected;
    var seen: set<CellKey> := {};
    for index := 0 to |e|
      invariant forall x :: x in seen <==> exists i :: 0 <= i < index && e[i].cell == x
      invariant forall k :: 0 <= k < index ==> ExpectedFits(rules, e, k)
    {
      if !ValidExpectedCell(rules, e[index]) || e[index].profile != e[0].profile || e[index].cell in seen {
        assert !ExpectedFits(rules, e, index);
        return false;
      }
      if index > 0 {
        var order := CompareCellRole(e[index - 1].cell, e[index - 1].role, e[index].cell, e[index].role);
        if order >= 0 {
          assert !ExpectedFits(rules, e, index);
          return false;
        }
      }
      assert ExpectedFits(rules, e, index);
      seen := seen + {e[index].cell};
    }
    return true;
  }

  /** recordMatchesExpected: a passed record that repeats everything its definition fixes. */
  ghost predicate Matches(rules: Rules, r: Record, e: ExpectedCell) {
    && Encodable(rules, r) && SafeText(rules, r)
    && r.cell == e.cell && r.role == e.role && r.profile == e.profile
    && r.startedAt == e.start && r.definition == e.definition
    && r.eventsExecuted == e.eventsExpected && r.status == "passed"
    && |r.measurements| == |e.measurements|
    && (forall spec <- e.measurements :: spec.id in r.measurements && r.measurements[spec.id].unit == spec.unit)
    && AssertionsMatch(r, e)
  }

  /** The assertions are exactly the expected ones, in order, all passed. */
  ghost predicate AssertionsMatch(r: Record, e: ExpectedCell) {
    && |r.assertions| == |e.assertionIds|
    && forall i :: 0 <= i < |r.assertions| ==> r.assertions[i].id == e.assertionIds[i] && r.assertions[i].passed
  }

  method CheckAssertions(r: Record, e: ExpectedCell) returns (ok: bool)
    ensures ok <==> AssertionsMatch(r, e)
  {
    if |r.assertions| != |e.assertionIds| {
      return false;
    }
    for index := 0 to |r.assertions|
      invariant forall i :: 0 <= i < index ==> r.assertions[i].id == e.assertionIds[i] && r.assertions[i].passed
    {
      if r.assertions[index].id != e.assertionIds[index] || !r.assertions[index].passed {
        return false;
      }
    }
    return true;
  }

  method RecordMatchesExpected(rules: Rules, r: Record, e: ExpectedCell) returns (ok: bool, unsafeText: bool)
    ensures ok <==> Matches(rules, r, e)
    ensures unsafeText <==> Encodable(rules, r) && !SafeText(rules, r)
  {
    hide Encodable, SafeText, AssertionsMatch;
    if !Encodable(rules, r) {
      return false, false;
    }
    if !SafeText(rules, r) {
      return false, true;
    }
    if r.cell != e.cell || r.role != e.role || r.profile != e.profile || r.startedAt != e.start
       || r.definition != e.definition || r.eventsExecuted != e.eventsExpected || r.status != "passed"
       || |r.measurements| != |e.measurements| {
      return false, false;
    }
    for index := 0 to |e.measurements|
      invariant forall spec <- e.measurements[..index] ::
        spec.id in r.measurements && r.measurements[spec.id].unit == spec.unit
    {
      var spec := e.measurements[index];
      assert spec in e.measurements;
      if spec.id !in r.measurements || r.measurements[spec.id].unit != spec.unit {
        return false, false;
      }
      assert e.measurements[..index + 1] == e.measurements[..index] + [spec];
    }
    assert e.measurements[..|e.measurements|] == e.measurements;
    ok := CheckAssertions(r, e);
    unsafeText := false;
  }
}
