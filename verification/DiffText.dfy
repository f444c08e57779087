/** The last check of a diff before it is shown, and that no diff of bound snapshots fails it. */
module DiffText {
  import opened GoText
  import opened Ordering
  import opened Decimals
  import opened Evidence
  import opened ReleaseContract
  import opened ReleaseBuild
  import opened RecordDiff
  import opened SnapshotDiff

  predicate Portable(rules: Rules, s: string) {
    !Blank(s) && rules.text(s)
  }

  predicate ValidUnit(rules: Rules, m: Measurement) {
    Trimmed(m.unit) && Portable(rules, m.unit)
  }

  predicate ValidMetricChange(rules: Rules, c: MetricChange) {
    && rules.metricId(c.id)
    && (c.left.Some? || c.right.Some?)
    && (c.left.Some? ==> ValidUnit(rules, c.left.value))
    && (c.right.Some? ==> ValidUnit(rules, c.right.value))
    && if c.left.Some? && c.right.Some? then
         && c.left.value.unit == c.right.value.unit && c.left.value != c.right.value
         && c.delta == IntText(c.right.value.value - c.left.value.value)
       else c.delta == ""
  }

  /** strconv.Itoa of a positive number */
  predicate PositiveDecimal(s: string) {
    s != "" && s[0] != '0' && forall c <- s :: Digit(c)
  }

  predicate ValidFieldValue(rules: Rules, field: string, value: string) {
    if field == "arch" || field == "os" then rules.platformId(value)
    else if field == "go_version" then rules.goVersion(value) && rules.text(value)
    else field == "logical_cpus" && PositiveDecimal(value)
  }

  predicate ValidFieldChange(rules: Rules, c: TextChange) {
    c.left != c.right && ValidFieldValue(rules, c.id, c.left) && ValidFieldValue(rules, c.id, c.right)
  }

  predicate ValidMessageChange(rules: Rules, c: TextChange) {
    rules.stableId(c.id) && c.left != c.right && rules.text(c.left) && rules.text(c.right)
  }

  predicate ValidRowCell(rules: Rules, cell: CellKey) {
    && rules.stableId(cell.labId) && rules.stableId(cell.requiredRunId) && rules.stableId(cell.bindingId)
    && rules.stableId(cell.claimId) && rules.stableId(cell.implementationId)
    && (cell.adapterId == "" || (rules.stableId(cell.adapterId) && cell.adapterId == cell.implementationId))
  }

  ghost predicate DistinctTexts(changes: seq<TextChange>) {
    forall i, j :: 0 <= i < j < |changes| ==> changes[i].id != changes[j].id
  }

  ghost predicate DistinctMetrics(changes: seq<MetricChange>) {
    forall i, j :: 0 <= i < j < |changes| ==> changes[i].id != changes[j].id
  }

  ghost predicate ValidRow(rules: Rules, row: Row) {
    && ValidRowCell(rules, row.cell)
    && DistinctMetrics(row.metrics) && (forall c <- row.metrics :: ValidMetricChange(rules, c))
    && DistinctTexts(row.environment) && (forall c <- row.environment :: ValidFieldChange(rules, c))
    && DistinctTexts(row.messages) && (forall c <- row.messages :: ValidMessageChange(rules, c))
    && ValidConclusion(rules, row.conclusion) && ValidLimitations(rules, row.limitations)
    && Changed(row)
  }

  predicate ValidConclusion(rules: Rules, c: Option<(string, string)>) {
    c.Some? ==> Portable(rules, c.value.0) && Portable(rules, c.value.1) && c.value.0 != c.value.1
  }

  predicate ValidLimitations(rules: Rules, c: Option<(seq<string>, seq<string>)>) {
    c.Some? ==>
      && c.value.0 != c.value.1
      && (forall l <- c.value.0 :: Portable(rules, l)) && (forall l <- c.value.1 :: Portable(rules, l))
  }

  ghost predicate ValidDiff(rules: Rules, d: Diff) {
    && d.Diff? && rules.digest(d.inputDigest) && ValidProfile(d.profile)
    && (d.changes <==> d.rows != [])
    && (forall row <- d.rows :: ValidRow(rules, row))
    && (forall i, j :: 0 <= i < j < |d.rows| ==> d.rows[i].cell != d.rows[j].cell)
  }

  // ---- The check ----------------------------------------------------------------

  method CheckMetrics(rules: Rules, changes: seq<MetricChange>) returns (ok: bool)
    ensures ok <==> DistinctMetrics(changes) && forall c <- changes :: ValidMetricChange(rules, c)
  {
    hide ValidMetricChange;
    var seen: set<string> := {};
    for i := 0 to |changes|
      invariant forall k :: 0 <= k < i ==> ValidMetricChange(rules, changes[k])
      invariant DistinctMetrics(changes[..i])
      invariant forall id :: id in seen <==> exists k :: 0 <= k < i && changes[k].id == id
    {
      assert changes[i] in changes;
      if changes[i].id in seen || !ValidMetricChange(rules, changes[i]) {
        return false;
      }
      seen := seen + {changes[i].id};
    }
    assert changes[..|changes|] == changes;
    return true;
  }

  method CheckTexts(valid: TextChange -> bool, changes: seq<TextChange>) returns (ok: bool)
    ensures ok <==> DistinctTexts(changes) && forall c <- changes :: valid(c)
  {
    var seen: set<string> := {};
    for i := 0 to |changes|
      invariant forall k :: 0 <= k < i ==> valid(changes[k])
      invariant DistinctTexts(changes[..i])
      invariant forall id :: id in seen <==> exists k :: 0 <= k < i && changes[k].id == id
    {
      assert changes[i] in changes;
      if changes[i].id in seen || !valid(changes[i]) {
        return false;
      }
      seen := seen + {changes[i].id};
    }
    assert changes[..|changes|] == changes;
    return true;
  }

  method CheckRow(rules: Rules, row: Row) returns (ok: bool)
    ensures ok <==> ValidRow(rules, row)
  {
    hide DistinctMetrics, DistinctTexts, ValidMetricChange, ValidFieldChange, ValidMessageChange, ValidRowCell, Changed,
      ValidConclusion, ValidLimitations;
    var metrics := CheckMetrics(rules, row.metrics);
    var environment := CheckTexts(c => ValidFieldChange(rules, c), row.environment);
    var messages := CheckTexts(c => ValidMessageChange(rules, c), row.messages);
    ok := metrics && environment && messages && ValidRowCell(rules, row.cell) && Changed(row)
      && ValidConclusion(rules, row.conclusion) && ValidLimitations(rules, row.limitations);
  }

  /** validateDiffDynamicText */
  method ValidateDiff(rules: Rules, d: Diff) returns (ok: bool)
    requires d.Diff?
    ensures ok <==> ValidDiff(rules, d)
  {
    hide ValidRow;
    if !rules.digest(d.inputDigest) || !ValidProfile(d.profile) || d.changes != (d.rows != []) {
      return false;
    }
    var rows := d.rows;
    var seen: set<CellKey> := {};
    for i := 0 to |rows|
      invariant forall k :: 0 <= k < i ==> ValidRow(rules, rows[k])
      invariant forall j, k :: 0 <= j < k < i ==> rows[j].cell != rows[k].cell
      invariant forall cell :: cell in seen <==> exists k :: 0 <= k < i && rows[k].cell == cell
    {
      assert rows[i] in rows;
      var valid := CheckRow(rules, rows[i]);
      if !valid || rows[i].cell in seen {
        return false;
      }
      seen := seen + {rows[i].cell};
    }
    return true;
  }

  // ---- Rows of bound snapshots pass ---------------------------------------------------

  lemma {:induction false} PositiveIsDecimal(n: nat)
    requires 0 < n
    ensures PositiveDecimal(IntText(n))
    decreases n
  {
    if n >= 10 {
      PositiveIsDecimal(n / 10);
      var front, digit := NatText(n / 10), [((n % 10) as char) + '0'];
      assert NatText(n) == front + digit && IntText(n / 10) == front;
      assert forall c <- front + digit :: c in front || c == digit[0];
    }
  }

  lemma {:induction false} MetricIdsDistinct(ids: seq<string>, l: map<string, Measurement>, r: map<string, Measurement>)
    requires Distinct(ids)
    ensures DistinctMetrics(MetricChanges(ids, l, r))
    ensures forall c <- MetricChanges(ids, l, r) :: c.id in ids
  {
    hide DeltaText;
    if ids != [] {
      var rest := ids[1..];
      assert ids == [ids[0]] + rest;
      MetricIdsDistinct(rest, l, r);
    }
  }

  /** Two records whose measurements have the same units. */
  ghost predicate SameUnits(l: map<string, Measurement>, r: map<string, Measurement>) {
    forall id :: id in l && id in r ==> l[id].unit == r[id].unit
  }

  ghost predicate ValidMeasurements(rules: Rules, m: map<string, Measurement>) {
    forall id :: id in m ==> rules.metricId(id) && ValidUnit(rules, m[id])
  }

  lemma MetricsPass(rules: Rules, l: map<string, Measurement>, r: map<string, Measurement>)
    requires ValidMeasurements(rules, l) && ValidMeasurements(rules, r) && SameUnits(l, r)
    ensures DistinctMetrics(MetricDiff(l, r)) && forall c <- MetricDiff(l, r) :: ValidMetricChange(rules, c)
  {
    hide MetricChanges, InOrder, IntText, ValidUnit;
    var ids := InOrder(l.Keys + r.Keys);
    StrictIsDistinct(ids);
    MetricIdsDistinct(ids, l, r);
    forall c | c in MetricDiff(l, r)
      ensures ValidMetricChange(rules, c)
    {
      MetricChangesAreExact(ids, l, r, c);
    }
  }

  lemma {:induction false} FieldChangesAre(fields: seq<string>, l: Environment, r: Environment)
    requires Distinct(fields)
    ensures DistinctTexts(FieldChanges(fields, l, r))
    ensures forall c <- FieldChanges(fields, l, r) ::
      c.id in fields && c.left == Field(l, c.id) && c.right == Field(r, c.id) && c.left != c.right
  {
    hide Field;
    if fields != [] {
      var rest := fields[1..];
      assert fields == [fields[0]] + rest;
      FieldChangesAre(rest, l, r);
    }
  }

  lemma FieldIsValid(rules: Rules, e: Environment, field: string)
    requires ValidEnvironment(rules, e) && rules.text(e.goVersion) && field in FIELDS && field != "cpu"
    ensures ValidFieldValue(rules, field, Field(e, field))
  {
    PositiveIsDecimal(e.logicalCpus);
  }

  lemma FieldsPass(rules: Rules, l: Environment, r: Environment)
    requires ValidEnvironment(rules, l) && ValidEnvironment(rules, r) && rules.text(l.goVersion) && rules.text(r.goVersion)
    ensures DistinctTexts(FieldChanges(FIELDS, l, r))
    ensures forall c <- FieldChanges(FIELDS, l, r) :: ValidFieldChange(rules, c)
  {
    hide FieldChanges, ValidFieldValue;
    FieldChangesAre(FIELDS, l, r);
    forall c | c in FieldChanges(FIELDS, l, r)
      ensures ValidFieldChange(rules, c)
    {
      assert c.id != "cpu";
      FieldIsValid(rules, l, c.id);
      FieldIsValid(rules, r, c.id);
    }
  }

  /** The change is that of the i-th message. */
  ghost predicate ChangesAt(l: seq<Assertion>, r: seq<Assertion>, c: TextChange, i: int)
    requires |l| == |r|
  {
    0 <= i < |l| && c == TextChange(l[i].id, l[i].message, r[i].message) && c.left != c.right
  }

  lemma {:induction false} MessageChangesAre(l: seq<Assertion>, r: seq<Assertion>, c: TextChange) returns (i: int)
    requires |l| == |r| && c in MessageChanges(l, r)
    ensures ChangesAt(l, r, c, i)
  {
    var n := |l| - 1;
    if c in MessageChanges(l[..n], r[..n]) {
      i := MessageChangesAre(l[..n], r[..n], c);
    } else {
      i := n;
    }
  }

  lemma {:induction false} MessagesDistinct(l: seq<Assertion>, r: seq<Assertion>)
    requires |l| == |r| && DistinctIds(l)
    ensures DistinctTexts(MessageChanges(l, r))
  {
    if l != [] {
      var n := |l| - 1;
      MessagesDistinct(l[..n], r[..n]);
      forall c | c in MessageChanges(l[..n], r[..n])
        ensures c.id != l[n].id
      {
        var i := MessageChangesAre(l[..n], r[..n], c);
        assert l[i].id == c.id;
      }
    }
  }

  lemma MessagesPass(rules: Rules, l: seq<Assertion>, r: seq<Assertion>)
    requires |l| == |r| && DistinctIds(l)
    requires forall a <- l :: rules.stableId(a.id) && rules.text(a.message)
    requires forall a <- r :: rules.text(a.message)
    ensures DistinctTexts(MessageChanges(l, r))
    ensures forall c <- MessageChanges(l, r) :: ValidMessageChange(rules, c)
  {
    hide MessageChanges;
    MessagesDistinct(l, r);
    forall c | c in MessageChanges(l, r)
      ensures ValidMessageChange(rules, c)
    {
      var i := MessageChangesAre(l, r, c);
      assert l[i] in l && r[i] in r;
    }
  }

  /** What the checks of evidence and releases say about one record of an experiment. */
  lemma RecordPasses(rules: Rules, expected: seq<ExpectedCell>, k: int, r: Record)
    requires ValidExpected(rules, expected) && 0 <= k < |expected| && Matches(rules, r, expected[k])
    ensures ValidMeasurements(rules, r.measurements)
    ensures r.measurements.Keys == MeasuredIds(expected[k])
    ensures forall spec <- expected[k].measurements ::
      spec.id in r.measurements && r.measurements[spec.id].unit == spec.unit
    ensures ValidEnvironment(rules, r.environment) && rules.text(r.environment.goVersion)
    ensures forall a <- r.assertions :: rules.stableId(a.id) && rules.text(a.message)
    ensures DistinctIds(r.assertions)
    ensures Portable(rules, r.conclusion) && forall l <- r.definition.limitations :: Portable(rules, l)
    ensures ValidRowCell(rules, r.cell) && r.definition == expected[k].definition
  {
    hide ValidExpected, AssertionsMatch, ValidEnvironment;
    MatchedContent(rules, expected, k, r);
  }

  lemma SameExperimentSameUnits(rules: Rules, expected: seq<ExpectedCell>, k: int, l: Record, r: Record)
    requires ValidExpected(rules, expected) && 0 <= k < |expected|
    requires Matches(rules, l, expected[k]) && Matches(rules, r, expected[k])
    ensures SameUnits(l.measurements, r.measurements)
  {
    hide ValidExpected, Matches;
    RecordPasses(rules, expected, k, l);
    RecordPasses(rules, expected, k, r);
    forall id | id in l.measurements
      ensures id in r.measurements && l.measurements[id].unit == r.measurements[id].unit
    {
      assert id in MeasuredIds(expected[k]);
    }
  }

  /** The row of two records of one experiment passes, if it says anything. */
  lemma RowPasses(rules: Rules, expected: seq<ExpectedCell>, k: int, l: Record, r: Record)
    requires ValidExpected(rules, expected) && 0 <= k < |expected|
    requires Matches(rules, l, expected[k]) && Matches(rules, r, expected[k])
    requires |l.assertions| == |r.assertions|
    ensures Changed(RowOf(r.cell, l, r)) ==> ValidRow(rules, RowOf(r.cell, l, r))
  {
    hide ValidExpected, Matches, DistinctIds, MetricDiff, FieldChanges, MessageChanges, ValidMeasurements,
      SameUnits, DistinctMetrics, DistinctTexts, ValidMetricChange, ValidFieldChange, ValidMessageChange, ValidRowCell,
      ValidEnvironment, Portable;
    RecordPasses(rules, expected, k, l);
    RecordPasses(rules, expected, k, r);
    SameExperimentSameUnits(rules, expected, k, l, r);
    MetricsPass(rules, l.measurements, r.measurements);
    FieldsPass(rules, l.environment, r.environment);
    MessagesPass(rules, l.assertions, r.assertions);
  }

  /** Each row of a diff is that of some pair, in their order. */
  lemma {:induction false} RowsPass(rules: Rules, expected: seq<ExpectedCell>, l: seq<Record>, r: seq<Record>)
    requires SameCells(l, r) && DistinctCells(r) && ValidExpected(rules, expected) && |r| <= |expected|
    requires forall k :: 0 <= k < |r| ==> Matches(rules, l[k], expected[k]) && Matches(rules, r[k], expected[k])
    ensures forall row <- DiffRows(l, r) :: ValidRow(rules, row) && exists x <- r :: x.cell == row.cell
    ensures forall i, j :: 0 <= i < j < |DiffRows(l, r)| ==> DiffRows(l, r)[i].cell != DiffRows(l, r)[j].cell
  {
    hide ValidExpected, Matches, SameAssertions, RowOf, Changed, ValidRow, SameCells, DiffRows;
    Aligned(l, r);
    if r != [] {
      var n := |r| - 1;
      LastRow(l, r);
      RowsPass(rules, expected, l[..n], r[..n]);
      RowPasses(rules, expected, n, l[n], r[n]);
      assert r == r[..n] + [r[n]];
    }
  }

  lemma Aligned(l: seq<Record>, r: seq<Record>)
    requires SameCells(l, r)
    ensures |l| == |r| && (l == [] ==> DiffRows(l, r) == [])
  {
  }

  /** No diff of bound snapshots is refused by the last check. */
  lemma DiffPasses(rules: Rules, l: Snapshot, r: Snapshot, d: Diff)
    requires BoundSnapshot(rules, l) && BoundSnapshot(rules, r) && Compatible(l, r)
    requires SameCells(l.records, r.records)
    requires
      var rows := DiffRows(l.records, r.records);
      d == Diff(rows != [], r.manifest.inputDigest, r.manifest.profile, rows)
    ensures ValidDiff(rules, d)
  {
    hide Bound, ValidExpected, Matches, DiffRows, SameCells, ValidRow;
    BoundShape(rules, l.manifest, l.expected, l.records);
    BoundShape(rules, r.manifest, r.expected, r.records);
    CompatibleAligned(rules, l, r);
    forall k | 0 <= k < |r.records|
      ensures Matches(rules, l.records[k], r.expected[k]) && Matches(rules, r.records[k], r.expected[k])
    {
      BoundRecord(rules, l.manifest, l.expected, l.records, k);
      BoundRecord(rules, r.manifest, r.expected, r.records, k);
    }
    RowsPass(rules, r.expected, l.records, r.records);
    HeaderPasses(rules, r);
  }

  lemma HeaderPasses(rules: Rules, r: Snapshot)
    requires BoundSnapshot(rules, r)
    ensures rules.digest(r.manifest.inputDigest) && ValidProfile(r.manifest.profile)
  {
    hide ValidExpected, BoundAt;
  }

  /** BuildDiff with its last check, which changes nothing: it is never the one that refuses. */
  method BuildCheckedDiff(rules: Rules, l: Snapshot, r: Snapshot) returns (d: Diff)
    ensures d.Diff? <==> BoundSnapshot(rules, l) && BoundSnapshot(rules, r) && Compatible(l, r)
    ensures d.Refused? ==> SnapshotDiff.Explains(rules, l, r, d.error)
    ensures d.Diff? ==>
      && ValidDiff(rules, d)
      && SameCells(l.records, r.records) && d.rows == DiffRows(l.records, r.records)
      && d.inputDigest == r.manifest.inputDigest && d.profile == r.manifest.profile
  {
    hide BoundSnapshot, Compatible, SameCells, DiffRows, ValidDiff, SnapshotDiff.Explains;
    d := BuildDiff(rules, l, r);
    if d.Refused? {
      return;
    }
    DiffPasses(rules, l, r, d);
    var ok := ValidateDiff(rules, d);
    if !ok {
      assert false;
    }
  }
}
