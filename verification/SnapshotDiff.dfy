/** The difference between two audited snapshots, cell by cell. */
module SnapshotDiff {
  import opened Ordering
  import opened Evidence
  import opened ReleaseContract
  import opened ReleaseBuild
  import opened RecordDiff

  datatype Snapshot = Snapshot(manifest: Manifest, expected: seq<ExpectedCell>, records: seq<Record>)

  datatype DiffError =
    | LeftUnbound | RightUnbound | HeadersDiffer | NoLeftMatch | RoleDiffers | DefinitionsDiffer

  datatype Diff = Diff(changes: bool, inputDigest: string, profile: string, rows: seq<Row>) | Refused(error: DiffError)

  ghost predicate BoundSnapshot(rules: Rules, s: Snapshot) {
    Bound(rules, s.manifest, s.expected, s.records)
  }

  /** Snapshots of the same inputs and the same experiments. */
  ghost predicate Compatible(l: Snapshot, r: Snapshot) {
    l.manifest.inputDigest == r.manifest.inputDigest && l.expected == r.expected
  }

  // ---- Canonical order is a total order ---------------------------------------------

  lemma {:induction false} FirstDifferenceExists(a: seq<string>, b: seq<string>)
    requires |a| == |b| && a != b
    ensures exists k :: 0 <= k < |a| && a[..k] == b[..k] && a[k] != b[k]
  {
    var n := |a| - 1;
    if a[..n] != b[..n] {
      FirstDifferenceExists(a[..n], b[..n]);
      var k :| 0 <= k < n && a[..n][..k] == b[..n][..k] && a[..n][k] != b[..n][k];
      assert a[..k] == a[..n][..k] && b[..k] == b[..n][..k] && a[k] != b[k];
    } else {
      assert a == a[..n] + [a[n]] && b == b[..n] + [b[n]];
    }
  }

  lemma FieldsTrichotomy(a: seq<string>, b: seq<string>)
    requires |a| == |b|
    ensures FieldsLess(a, b) || a == b || FieldsLess(b, a)
    ensures FieldsLess(a, b) ==> a != b
  {
    NotLessThanItself(a);
    if a != b {
      FirstDifferenceExists(a, b);
      var k :| 0 <= k < |a| && a[..k] == b[..k] && a[k] != b[k];
      LessTrichotomy(a[k], b[k]);
    }
  }

  lemma FieldsTransitive(a: seq<string>, b: seq<string>, c: seq<string>)
    requires |a| == |b| == |c| && FieldsLess(a, b) && FieldsLess(b, c)
    ensures FieldsLess(a, c)
  {
    var i :| 0 <= i < |a| && Less(a[i], b[i]) && a[..i] == b[..i];
    var j :| 0 <= j < |a| && Less(b[j], c[j]) && b[..j] == c[..j];
    var k := if i <= j then i else j;
    assert a[..k] == a[..i][..k] && b[..k] == b[..i][..k] == b[..j][..k] && c[..k] == c[..j][..k];
    if i == j {
      LessTransitive(a[i], b[i], c[i]);
    } else {
      SamePrefix(a, b, k, i);
      SamePrefix(b, c, k, j);
    }
  }

  ghost predicate CellLess(a: ExpectedCell, b: ExpectedCell) {
    Before(a.cell, a.role, b.cell, b.role)
  }

  lemma CellOrder()
    ensures StrictWeakOrder(CellLess)
  {
    hide FieldsLess;
    forall a: ExpectedCell
      ensures !CellLess(a, a)
    {
      FieldsTrichotomy(OrderFields(a.cell, a.role), OrderFields(a.cell, a.role));
    }
    forall a: ExpectedCell, b: ExpectedCell, c: ExpectedCell
      ensures CellLess(a, b) && CellLess(b, c) ==> CellLess(a, c)
      ensures CellLess(a, c) ==> CellLess(a, b) || CellLess(b, c)
    {
      OrderedTriple(OrderFields(a.cell, a.role), OrderFields(b.cell, b.role), OrderFields(c.cell, c.role));
    }
  }

  lemma OrderedTriple(a: seq<string>, b: seq<string>, c: seq<string>)
    requires |a| == |b| == |c|
    ensures FieldsLess(a, b) && FieldsLess(b, c) ==> FieldsLess(a, c)
    ensures FieldsLess(a, c) ==> FieldsLess(a, b) || FieldsLess(b, c)
  {
    hide FieldsLess;
    FieldsTrichotomy(a, b);
    if FieldsLess(a, b) && FieldsLess(b, c) { FieldsTransitive(a, b, c); }
    if FieldsLess(a, c) && FieldsLess(b, a) { FieldsTransitive(b, a, c); }
  }

  /** Valid expected cells are strictly ordered throughout, not only between neighbours. */
  lemma {:induction false} ExpectedSorted(rules: Rules, e: seq<ExpectedCell>, i: int, j: int)
    requires ValidExpected(rules, e) && 0 <= i < j < |e|
    ensures CellLess(e[i], e[j]) && e[i].cell != e[j].cell
    decreases j - i
  {
    hide Before;
    CellOrder();
    ExpectedAt(rules, e, j);
    if i + 1 < j {
      ExpectedSorted(rules, e, i, j - 1);
      assert CellLess(e[j - 1], e[j]);
    }
  }

  lemma ExpectedAreSorted(rules: Rules, e: seq<ExpectedCell>)
    requires ValidExpected(rules, e)
    ensures StrictlySorted(CellLess, e) && Distinct(e)
    ensures forall i, j :: 0 <= i < j < |e| ==> e[i].cell != e[j].cell
  {
    hide ValidExpected, Before;
    forall i, j | 0 <= i < j < |e|
      ensures CellLess(e[i], e[j]) && e[i].cell != e[j].cell
    {
      ExpectedSorted(rules, e, i, j);
    }
  }

  /** Equally many valid expected cells, each of one list in the other: the same list. */
  lemma SameExpected(rules: Rules, a: seq<ExpectedCell>, b: seq<ExpectedCell>)
    requires ValidExpected(rules, a) && ValidExpected(rules, b)
    requires |a| == |b| && forall x <- b :: x in a
    ensures a == b
  {
    hide ValidExpected, CellLess, StrictlySorted;
    ExpectedAreSorted(rules, a);
    ExpectedAreSorted(rules, b);
    DistinctPermutation(b, a);
    assert forall x :: x in a <==> x in multiset(a);
    assert forall x :: x in b <==> x in multiset(b);
    CellOrder();
    SortedUnique(CellLess, a, b);
  }

  // ---- Rows ---------------------------------------------------------------------------

  ghost predicate SameCells(l: seq<Record>, r: seq<Record>) {
    |l| == |r| && forall k :: 0 <= k < |l| ==> l[k].cell == r[k].cell && SameAssertions(l[k].assertions, r[k].assertions)
  }

  /** The rows of aligned records: one for each pair that differs. */
  ghost function DiffRows(l: seq<Record>, r: seq<Record>): seq<Row>
    requires SameCells(l, r)
  {
    if l == [] then []
    else
      var n := |l| - 1;
      var row := RowOf(r[n].cell, l[n], r[n]);
      DiffRows(l[..n], r[..n]) + if Changed(row) then [row] else []
  }

  /** Records of the same expected cells pair up. */
  lemma BoundPairs(rules: Rules, l: Snapshot, r: Snapshot, j: int, k: int)
    requires BoundSnapshot(rules, l) && BoundSnapshot(rules, r)
    requires 0 <= j < |l.records| && 0 <= k < |r.records|
    requires |l.expected| == |l.records| && |r.expected| == |r.records| && l.expected[j] == r.expected[k]
    ensures l.records[j].cell == r.records[k].cell == r.expected[k].cell && l.records[j].role == r.records[k].role
    ensures SameAssertions(l.records[j].assertions, r.records[k].assertions)
    ensures DistinctIds(l.records[j].assertions)
    ensures l.records[j].definition == r.records[k].definition
    ensures l.records[j].measurements.Keys == r.records[k].measurements.Keys
  {
    hide Bound, Matches, ValidExpected;
    BoundRecord(rules, l.manifest, l.expected, l.records, j);
    BoundRecord(rules, r.manifest, r.expected, r.records, k);
    BoundShape(rules, l.manifest, l.expected, l.records);
    MatchedContent(rules, l.expected, j, l.records[j]);
    MatchedContent(rules, l.expected, j, r.records[k]);
  }

  ghost function MeasuredIds(e: ExpectedCell): set<string> {
    set spec | spec in e.measurements :: spec.id
  }

  /** What a matching record must contain. */
  lemma MatchedContent(rules: Rules, expected: seq<ExpectedCell>, k: int, r: Record)
    requires ValidExpected(rules, expected) && 0 <= k < |expected| && Matches(rules, r, expected[k])
    ensures r.definition == expected[k].definition && r.cell == expected[k].cell && r.role == expected[k].role
    ensures r.measurements.Keys == MeasuredIds(expected[k])
    ensures AssertionsMatch(r, expected[k]) && DistinctIds(r.assertions)
  {
    hide Before, Encodable, ValidIdentity;
    var e := expected[k];
    assert ExpectedFits(rules, expected, k);
    CountIds(e.measurements);
    assert MeasuredIds(e) <= r.measurements.Keys;
    SameSize(MeasuredIds(e), r.measurements.Keys);
  }

  lemma {:induction false} CountIds(specs: seq<MeasurementSpec>)
    requires forall i, j :: 0 <= i < j < |specs| ==> specs[i].id != specs[j].id
    ensures |set spec | spec in specs :: spec.id| == |specs|
  {
    if specs != [] {
      var n := |specs| - 1;
      CountIds(specs[..n]);
      assert specs == specs[..n] + [specs[n]];
      assert (set spec | spec in specs :: spec.id) == (set spec | spec in specs[..n] :: spec.id) + {specs[n].id};
      assert specs[n].id !in (set spec | spec in specs[..n] :: spec.id);
    }
  }

  lemma SameSize<T>(a: set<T>, b: set<T>)
    requires a <= b && |a| == |b|
    ensures a == b
  {
    assert b == a + (b - a);
    assert |b - a| == 0;
  }

  /**
   Two records of one definition can differ in their identity, their run set, the digest of the
   inputs, the environment, the measured values, the messages and the conclusion, and in nothing else.
   */
  lemma SameDefinition(rules: Rules, expected: seq<ExpectedCell>, k: int, l: Record, r: Record)
    requires ValidExpected(rules, expected) && 0 <= k < |expected|
    requires Matches(rules, l, expected[k]) && Matches(rules, r, expected[k])
    ensures r == l.(id := r.id, runSetId := r.runSetId, inputDigest := r.inputDigest, environment := r.environment,
                    measurements := r.measurements, assertions := r.assertions, conclusion := r.conclusion,
                    contentDigest := r.contentDigest)
    ensures r.measurements.Keys == l.measurements.Keys
    ensures forall id <- r.measurements :: r.measurements[id].unit == l.measurements[id].unit
    ensures SameAssertions(l.assertions, r.assertions)
  {
    hide Encodable, SafeText, ValidExpected;
    MatchedContent(rules, expected, k, l);
    MatchedContent(rules, expected, k, r);
    forall id | id in r.measurements
      ensures r.measurements[id].unit == l.measurements[id].unit
    {
      assert id in MeasuredIds(expected[k]);
      var spec :| spec in expected[k].measurements && spec.id == id;
    }
  }

  /** Compatible bound snapshots are aligned. */
  lemma CompatibleAligned(rules: Rules, l: Snapshot, r: Snapshot)
    requires BoundSnapshot(rules, l) && BoundSnapshot(rules, r) && Compatible(l, r)
    ensures SameCells(l.records, r.records)
    ensures forall k :: 0 <= k < |l.records| ==> DistinctIds(l.records[k].assertions)
    ensures forall k :: 0 <= k < |l.records| ==> l.records[k].definition == r.records[k].definition
    ensures forall k :: 0 <= k < |l.records| ==> l.records[k].measurements.Keys == r.records[k].measurements.Keys
    ensures forall i, j :: 0 <= i < j < |r.records| ==> r.records[i].cell != r.records[j].cell
  {
    hide Bound, SameAssertions, DistinctIds, ValidExpected;
    BoundShape(rules, l.manifest, l.expected, l.records);
    BoundShape(rules, r.manifest, r.expected, r.records);
    forall k | 0 <= k < |l.records|
      ensures l.records[k].cell == r.records[k].cell == r.expected[k].cell && DistinctIds(l.records[k].assertions)
      ensures SameAssertions(l.records[k].assertions, r.records[k].assertions)
      ensures l.records[k].definition == r.records[k].definition
      ensures l.records[k].measurements.Keys == r.records[k].measurements.Keys
    {
      BoundPairs(rules, l, r, k, k);
    }
    ExpectedAreSorted(rules, r.expected);
  }

  // ---- BuildDiff -----------------------------------------------------------------------

  /** What each error says about the snapshots. */
  ghost predicate Explains(rules: Rules, l: Snapshot, r: Snapshot, error: DiffError) {
    match error
    case LeftUnbound => !BoundSnapshot(rules, l)
    case RightUnbound => BoundSnapshot(rules, l) && !BoundSnapshot(rules, r)
    case HeadersDiffer =>
      l.manifest.inputDigest != r.manifest.inputDigest || l.manifest.profile != r.manifest.profile || |l.records| != |r.records|
    case NoLeftMatch => exists y <- r.records :: forall x <- l.records :: x.cell != y.cell
    case RoleDiffers => exists x <- l.records, y <- r.records :: x.cell == y.cell && x.role != y.role
    case DefinitionsDiffer => exists x <- l.expected, y <- r.expected :: x.cell == y.cell && x != y
  }

  /** `byCell` finds the position of each record's cell. */
  ghost predicate Positions(byCell: map<CellKey, nat>, records: seq<Record>) {
    && (forall i :: 0 <= i < |records| ==> records[i].cell in byCell && byCell[records[i].cell] == i)
    && (forall c :: c in byCell ==> byCell[c] < |records| && records[byCell[c]].cell == c)
  }

  method IndexByCell(rules: Rules, s: Snapshot) returns (byCell: map<CellKey, nat>)
    requires BoundSnapshot(rules, s)
    ensures Positions(byCell, s.records) && |byCell.Keys| == |s.records|
  {
    hide BoundSnapshot, Positions;
    byCell := map[];
    NoPositions();
    for i := 0 to |s.records|
      invariant Positions(byCell, s.records[..i]) && |byCell.Keys| == i
    {
      CellsDiffer(rules, s, i);
      OneMorePosition(byCell, s.records, i);
      if s.records[i].cell in byCell {
        assert false;
      }
      byCell := byCell[s.records[i].cell := i];
    }
    assert s.records[..|s.records|] == s.records;
  }

  lemma NoPositions()
    ensures Positions(map[], [])
  {
  }

  lemma OneMorePosition(byCell: map<CellKey, nat>, records: seq<Record>, i: nat)
    requires i < |records| && Positions(byCell, records[..i])
    requires forall j :: 0 <= j < i ==> records[j].cell != records[i].cell
    ensures records[i].cell !in byCell
    ensures Positions(byCell[records[i].cell := i], records[..i + 1])
  {
    assert records[..i + 1] == records[..i] + [records[i]];
  }

  lemma CellsDiffer(rules: Rules, s: Snapshot, k: int)
    requires BoundSnapshot(rules, s) && 0 <= k < |s.records|
    ensures |s.expected| == |s.records| && s.records[k].cell == s.expected[k].cell && s.records[k].role == s.expected[k].role
    ensures forall i :: 0 <= i < k ==> s.records[i].cell != s.records[k].cell
  {
    hide Bound;
    BoundRecord(rules, s.manifest, s.expected, s.records, k);
    MatchedRole(rules, s.records[k], s.expected[k]);
  }

  lemma MatchedRole(rules: Rules, r: Record, e: ExpectedCell)
    requires Matches(rules, r, e)
    ensures r.role == e.role
  {
  }

  /** The right cells paired so far, each with the left record of the same cell and definition. */
  ghost predicate Paired(l: Snapshot, r: Snapshot, js: seq<nat>) {
    && |js| <= |r.expected| == |r.records| && |l.expected| == |l.records|
    && forall k :: 0 <= k < |js| ==> js[k] < |l.records| && l.expected[js[k]] == r.expected[k]
  }

  ghost function Picked(l: Snapshot, js: seq<nat>): seq<Record>
    requires forall j <- js :: j < |l.records|
  {
    seq(|js|, k requires 0 <= k < |js| => assert js[k] in js; l.records[js[k]])
  }

  lemma PairedCells(rules: Rules, l: Snapshot, r: Snapshot, js: seq<nat>)
    requires BoundSnapshot(rules, l) && BoundSnapshot(rules, r) && Paired(l, r, js)
    ensures SameCells(Picked(l, js), r.records[..|js|])
  {
    hide BoundSnapshot, SameAssertions;
    forall k | 0 <= k < |js|
      ensures l.records[js[k]].cell == r.records[k].cell && SameAssertions(l.records[js[k]].assertions, r.records[k].assertions)
    {
      BoundPairs(rules, l, r, js[k], k);
    }
  }

  /** Once every right cell is paired the two snapshots are compatible and the pairing is position by position. */
  lemma AllPaired(rules: Rules, l: Snapshot, r: Snapshot, js: seq<nat>)
    requires BoundSnapshot(rules, l) && BoundSnapshot(rules, r) && Paired(l, r, js)
    requires |js| == |r.records| == |l.records|
    ensures l.expected == r.expected && Picked(l, js) == l.records
  {
    hide Bound, ValidExpected;
    BoundShape(rules, l.manifest, l.expected, l.records);
    BoundShape(rules, r.manifest, r.expected, r.records);
    forall x | x in r.expected
      ensures x in l.expected
    {
      var k :| 0 <= k < |js| && r.expected[k] == x;
      assert l.expected[js[k]] == x;
    }
    SameExpected(rules, l.expected, r.expected);
    InPlace(rules, l.expected, js);
  }

  lemma InPlace(rules: Rules, e: seq<ExpectedCell>, js: seq<nat>)
    requires ValidExpected(rules, e) && |js| == |e|
    requires forall k :: 0 <= k < |js| ==> js[k] < |e| && e[js[k]] == e[k]
    ensures forall k :: 0 <= k < |js| ==> js[k] == k
  {
    hide ValidExpected, StrictlySorted;
    ExpectedAreSorted(rules, e);
  }

  datatype LeftMatch = At(position: nat) | Fails(error: DiffError)

  /** The left record of the k-th right cell, which must have the same role and definition. */
  method FindLeft(rules: Rules, l: Snapshot, r: Snapshot, leftByCell: map<CellKey, nat>, k: nat) returns (found: LeftMatch)
    requires BoundSnapshot(rules, l) && BoundSnapshot(rules, r) && Positions(leftByCell, l.records)
    requires k < |r.records| == |l.records| == |l.expected| == |r.expected|
    ensures found.At? ==> found.position < |l.records| && l.expected[found.position] == r.expected[k]
    ensures found.Fails? ==> Explains(rules, l, r, found.error) && !Compatible(l, r)
  {
    hide BoundSnapshot, Positions, Compatible, Explains;
    var right := r.records[k];
    WouldPair(rules, l, r, k);
    Position(leftByCell, l.records, right.cell, k);
    Unpaired(rules, l, r, k, if right.cell in leftByCell then leftByCell[right.cell] else -1);
    if right.cell !in leftByCell {
      return Fails(NoLeftMatch);
    }
    var j := leftByCell[right.cell];
    CellsDiffer(rules, l, j);
    if l.records[j].role != right.role {
      return Fails(RoleDiffers);
    }
    if l.expected[j] != r.expected[k] {
      return Fails(DefinitionsDiffer);
    }
    return At(j);
  }

  /** The diff of two snapshots exists exactly when both are bound and they are compatible. */
  method BuildDiff(rules: Rules, l: Snapshot, r: Snapshot) returns (d: Diff)
    ensures d.Diff? <==> BoundSnapshot(rules, l) && BoundSnapshot(rules, r) && Compatible(l, r)
    ensures d.Refused? ==> Explains(rules, l, r, d.error)
    ensures d.Diff? ==>
      && SameCells(l.records, r.records) && d.rows == DiffRows(l.records, r.records)
      && (d.changes <==> d.rows != [])
      && d.inputDigest == r.manifest.inputDigest && d.profile == r.manifest.profile
  {
    hide BoundSnapshot, Positions, Paired, Picked, SameCells, DiffRows, RowOf, Compatible, SameAssertions, DistinctIds, Explains;
    Unbound(rules, l, r);
    var leftBound := ValidateSnapshot(rules, l);
    if !leftBound {
      return Refused(LeftUnbound);
    }
    var rightBound := ValidateSnapshot(rules, r);
    if !rightBound {
      return Refused(RightUnbound);
    }
    SnapshotShapes(rules, l, r);
    if l.manifest.inputDigest != r.manifest.inputDigest || l.manifest.profile != r.manifest.profile
       || |l.records| != |r.records| {
      return Refused(HeadersDiffer);
    }
    var leftByCell := IndexByCell(rules, l);
    var rows: seq<Row> := [];
    var matched: set<CellKey> := {};
    ghost var js: seq<nat> := [];
    NothingPaired(l, r);
    for k := 0 to |r.records|
      invariant |js| == k && Paired(l, r, js)
      invariant matched == set x | x in r.records[..k] :: x.cell
      invariant |matched| == k
      invariant forall j <- js :: j < |l.records|
      invariant SameCells(Picked(l, js), r.records[..k]) && rows == DiffRows(Picked(l, js), r.records[..k])
    {
      var right := r.records[k];
      CellsDiffer(rules, r, k);
      assert r.records[..k + 1] == r.records[..k] + [right];
      var left := FindLeft(rules, l, r, leftByCell, k);
      if left.Fails? {
        return Refused(left.error);
      }
      if right.cell in matched {
        assert false;
      }
      matched := matched + {right.cell};
      var j := left.position;
      BoundPairs(rules, l, r, j, k);
      PairOneMore(rules, l, r, js, j);
      js := js + [j];
      var row, changed, ok := BuildDiffRow(r.expected[k].cell, l.records[j], right);
      if !ok {
        assert false;
      }
      if changed {
        rows := rows + [row];
      }
    }
    if |matched| != |leftByCell.Keys| {
      assert false;
    }
    AllPaired(rules, l, r, js);
    CompatibleMeans(l, r);
    assert r.records[..|r.records|] == r.records;
    d := Diff(rows != [], r.manifest.inputDigest, r.manifest.profile, rows);
  }

  method ValidateSnapshot(rules: Rules, s: Snapshot) returns (ok: bool)
    ensures ok <==> BoundSnapshot(rules, s)
  {
    hide Bound;
    ok := ValidateBoundSnapshot(rules, s.manifest, s.expected, s.records);
  }

  lemma SnapshotShapes(rules: Rules, l: Snapshot, r: Snapshot)
    requires BoundSnapshot(rules, l) && BoundSnapshot(rules, r)
    ensures |l.expected| == |l.records| > 0 && |r.expected| == |r.records| > 0
    ensures Compatible(l, r) ==>
      l.manifest.inputDigest == r.manifest.inputDigest && l.manifest.profile == r.manifest.profile && |l.records| == |r.records|
  {
    hide Bound;
    BoundShape(rules, l.manifest, l.expected, l.records);
    BoundShape(rules, r.manifest, r.expected, r.records);
    BoundRecord(rules, l.manifest, l.expected, l.records, 0);
    BoundRecord(rules, r.manifest, r.expected, r.records, 0);
  }

  lemma CompatibleMeans(l: Snapshot, r: Snapshot)
    ensures Compatible(l, r) <==> l.manifest.inputDigest == r.manifest.inputDigest && l.expected == r.expected
  {
  }

  /** Compatible snapshots pair position by position. */
  lemma WouldPair(rules: Rules, l: Snapshot, r: Snapshot, k: int)
    requires BoundSnapshot(rules, l) && BoundSnapshot(rules, r) && 0 <= k < |r.records| == |l.records|
    ensures |l.expected| == |l.records| && |r.expected| == |r.records|
    ensures Compatible(l, r) ==>
      && l.records[k].cell == r.records[k].cell && l.records[k].role == r.records[k].role && l.expected[k] == r.expected[k]
  {
    hide BoundSnapshot;
    CellsDiffer(rules, l, k);
    CellsDiffer(rules, r, k);
  }

  ghost predicate NoneHas(records: seq<Record>, cell: CellKey) {
    forall x <- records :: x.cell != cell
  }

  lemma Unbound(rules: Rules, l: Snapshot, r: Snapshot)
    ensures !BoundSnapshot(rules, l) ==> Explains(rules, l, r, LeftUnbound)
    ensures BoundSnapshot(rules, l) && !BoundSnapshot(rules, r) ==> Explains(rules, l, r, RightUnbound)
    ensures (l.manifest.inputDigest != r.manifest.inputDigest || l.manifest.profile != r.manifest.profile
             || |l.records| != |r.records|) ==> Explains(rules, l, r, HeadersDiffer)
  {
    hide BoundSnapshot;
  }

  /** What a failed pairing of the k-th right cell says; `j` is the left position of its cell, if any. */
  lemma Unpaired(rules: Rules, l: Snapshot, r: Snapshot, k: nat, j: int)
    requires BoundSnapshot(rules, l) && BoundSnapshot(rules, r) && k < |r.records|
    ensures NoneHas(l.records, r.records[k].cell) ==> Explains(rules, l, r, NoLeftMatch)
    ensures 0 <= j < |l.records| && l.records[j].cell == r.records[k].cell && l.records[j].role != r.records[k].role ==>
      Explains(rules, l, r, RoleDiffers)
    ensures |l.expected| == |l.records| && |r.expected| == |r.records|
    ensures 0 <= j < |l.records| && l.records[j].cell == r.records[k].cell && l.expected[j] != r.expected[k] ==>
      Explains(rules, l, r, DefinitionsDiffer)
  {
    hide BoundSnapshot;
    CellsDiffer(rules, r, k);
    assert r.records[k] in r.records && r.expected[k] in r.expected;
    SnapshotShapes(rules, l, r);
    if 0 <= j < |l.records| {
      CellsDiffer(rules, l, j);
      assert l.records[j] in l.records && l.expected[j] in l.expected;
    }
  }

  lemma NothingPaired(l: Snapshot, r: Snapshot)
    requires |l.expected| == |l.records| && |r.expected| == |r.records|
    ensures Paired(l, r, []) && Picked(l, []) == [] && SameCells([], []) && DiffRows([], []) == []
  {
  }

  lemma Position(byCell: map<CellKey, nat>, records: seq<Record>, cell: CellKey, k: int)
    requires Positions(byCell, records)
    ensures cell in byCell ==> byCell[cell] < |records| && records[byCell[cell]].cell == cell
    ensures cell !in byCell ==> NoneHas(records, cell)
    ensures 0 <= k < |records| && records[k].cell == cell ==> cell in byCell && byCell[cell] == k
  {
  }

  lemma PairOneMore(rules: Rules, l: Snapshot, r: Snapshot, js: seq<nat>, j: nat)
    requires BoundSnapshot(rules, l) && BoundSnapshot(rules, r) && Paired(l, r, js)
    requires |js| < |r.records| && j < |l.records| && l.expected[j] == r.expected[|js|]
    requires forall x <- js :: x < |l.records|
    requires SameCells(Picked(l, js), r.records[..|js|])
    ensures var k := |js|; var more := js + [j];
      && Paired(l, r, more) && (forall x <- more :: x < |l.records|)
      && SameCells(Picked(l, more), r.records[..k + 1])
      && var row := RowOf(r.records[k].cell, l.records[j], r.records[k]);
         DiffRows(Picked(l, more), r.records[..k + 1])
         == DiffRows(Picked(l, js), r.records[..k]) + if Changed(row) then [row] else []
  {
    hide BoundSnapshot, RowOf, SameAssertions;
    var k, more := |js|, js + [j];
    BoundPairs(rules, l, r, j, k);
    PairedCells(rules, l, r, more);
    assert r.records[..k + 1][..k] == r.records[..k];
    assert Picked(l, more)[..k] == Picked(l, js);
  }

  // ---- What a diff means ------------------------------------------------------------------

  /** Apply the row for a cell, if there is one. */
  function ApplyRows(rows: seq<Row>, cell: CellKey, c: Compared): Compared {
    if rows == [] then c
    else if rows[|rows| - 1].cell == cell then Patch(rows[|rows| - 1], c)
    else ApplyRows(rows[..|rows| - 1], cell, c)
  }

  ghost predicate DistinctCells(r: seq<Record>) {
    forall i, j :: 0 <= i < j < |r| ==> r[i].cell != r[j].cell
  }

  lemma {:induction false} RowsElsewhere(l: seq<Record>, r: seq<Record>, cell: CellKey, c: Compared)
    requires SameCells(l, r) && forall x <- r :: x.cell != cell
    ensures ApplyRows(DiffRows(l, r), cell, c) == c
  {
    hide SameAssertions, RowOf, Patch, Changed;
    if l != [] {
      var n := |l| - 1;
      RowsElsewhere(l[..n], r[..n], cell, c);
      RowCell(r[n].cell, l[n], r[n]);
      assert r[n] in r;
      LastRow(l, r);
    }
  }

  /** The rows of all records but the last, and the last one's if it changed. */
  lemma LastRow(l: seq<Record>, r: seq<Record>)
    requires SameCells(l, r) && l != []
    ensures |l| == |r|
    ensures var n := |l| - 1;
      && SameAssertions(l[n].assertions, r[n].assertions) && |l[n].assertions| == |r[n].assertions|
      && SameCells(l[..n], r[..n])
      && var row, rows := RowOf(r[n].cell, l[n], r[n]), DiffRows(l, r);
      && row.cell == r[n].cell
      && (Changed(row) ==> |rows| > 0 && rows[|rows| - 1] == row && rows[..|rows| - 1] == DiffRows(l[..n], r[..n]))
      && (!Changed(row) ==> rows == DiffRows(l[..n], r[..n]))
  {
    hide Changed;
  }

  lemma {:induction false} RowsPatch(l: seq<Record>, r: seq<Record>, k: int)
    requires SameCells(l, r) && DistinctCells(r) && 0 <= k < |l|
    requires forall i :: 0 <= i < |l| ==> DistinctIds(l[i].assertions)
    ensures ApplyRows(DiffRows(l, r), r[k].cell, ComparedOf(l[k])) == ComparedOf(r[k])
    decreases |l|
  {
    hide SameAssertions, DistinctIds, RowOf, Patch, Changed, ComparedOf, SameCells, DiffRows;
    var n := |l| - 1;
    LastRow(l, r);
    RowIsPatch(r[n].cell, l[n], r[n]);
    if k == n {
      RowsElsewhere(l[..n], r[..n], r[n].cell, ComparedOf(l[n]));
    } else {
      assert l[..n][k] == l[k] && r[..n][k] == r[k];
      RowsPatch(l[..n], r[..n], k);
    }
  }

  lemma RowCell(cell: CellKey, l: Record, r: Record)
    requires SameAssertions(l.assertions, r.assertions)
    ensures RowOf(cell, l, r).cell == cell
  {
  }

  lemma SameRecordCells(l: seq<Record>, r: seq<Record>, k: int)
    requires SameCells(l, r) && 0 <= k < |l|
    ensures |l| == |r| && l[k].cell == r[k].cell
  {
  }

  /** A diff is a faithful patch: applied to the left snapshot it gives the right one's content, cell by cell. */
  lemma DiffIsPatch(rules: Rules, l: Snapshot, r: Snapshot, k: int)
    requires BoundSnapshot(rules, l) && BoundSnapshot(rules, r) && Compatible(l, r)
    requires 0 <= k < |l.records|
    ensures SameCells(l.records, r.records)
    ensures ApplyRows(DiffRows(l.records, r.records), l.records[k].cell, ComparedOf(l.records[k])) == ComparedOf(r.records[k])
  {
    hide BoundSnapshot, DiffRows, ApplyRows, DistinctIds;
    CompatibleAligned(rules, l, r);
    SameRecordCells(l.records, r.records, k);
    RowsPatch(l.records, r.records, k);
  }

  lemma {:induction false} RowsEmpty(l: seq<Record>, r: seq<Record>)
    requires SameCells(l, r)
    requires forall k :: 0 <= k < |l| ==> DistinctIds(l[k].assertions)
    ensures DiffRows(l, r) == [] <==> forall k :: 0 <= k < |l| ==> ComparedOf(l[k]) == ComparedOf(r[k])
  {
    hide SameAssertions, DistinctIds, RowOf, Changed, ComparedOf;
    if l != [] {
      var n := |l| - 1;
      RowsEmpty(l[..n], r[..n]);
      RowIsPatch(r[n].cell, l[n], r[n]);
      assert forall k :: 0 <= k < n ==> l[..n][k] == l[k] && r[..n][k] == r[k];
    }
  }

  /** A diff reports no changes exactly when every compared field of every cell agrees. */
  lemma NoChangesExactly(rules: Rules, l: Snapshot, r: Snapshot)
    requires BoundSnapshot(rules, l) && BoundSnapshot(rules, r) && Compatible(l, r)
    ensures SameCells(l.records, r.records)
    ensures DiffRows(l.records, r.records) == [] <==>
      forall k :: 0 <= k < |l.records| ==> ComparedOf(l.records[k]) == ComparedOf(r.records[k])
  {
    hide BoundSnapshot, DiffRows, DistinctIds, ComparedOf;
    CompatibleAligned(rules, l, r);
    RowsEmpty(l.records, r.records);
  }

  function SwapRows(rows: seq<Row>): seq<Row> {
    seq(|rows|, i requires 0 <= i < |rows| => SwapRow(rows[i]))
  }

  lemma {:induction false} RowsSwap(l: seq<Record>, r: seq<Record>)
    requires SameCells(l, r)
    ensures SameCells(r, l) && DiffRows(r, l) == SwapRows(DiffRows(l, r))
  {
    hide RowOf, SwapRow, Changed;
    assert SameCells(r, l);
    if l != [] {
      var n := |l| - 1;
      RowsSwap(l[..n], r[..n]);
      RowSwap(r[n].cell, l[n], r[n]);
    }
  }

  /** Swapping the sides swaps every change of every row. */
  lemma DiffSwaps(rules: Rules, l: Snapshot, r: Snapshot)
    requires BoundSnapshot(rules, l) && BoundSnapshot(rules, r) && Compatible(l, r)
    ensures SameCells(l.records, r.records) && SameCells(r.records, l.records)
    ensures DiffRows(r.records, l.records) == SwapRows(DiffRows(l.records, r.records))
  {
    hide BoundSnapshot, DiffRows;
    CompatibleAligned(rules, l, r);
    RowsSwap(l.records, r.records);
  }

  /** Both sides of every metric change are there, and limitations never change. */
  ghost predicate Complete(row: Row) {
    row.limitations == None && forall c <- row.metrics :: c.left.Some? && c.right.Some?
  }

  lemma RowIsComplete(cell: CellKey, l: Record, r: Record)
    requires SameAssertions(l.assertions, r.assertions)
    requires l.definition == r.definition && l.measurements.Keys == r.measurements.Keys
    ensures Complete(RowOf(cell, l, r))
  {
    hide MetricChanges;
    forall c | c in MetricDiff(l.measurements, r.measurements)
      ensures c.left.Some? && c.right.Some?
    {
      var ids := InOrder(l.measurements.Keys + r.measurements.Keys);
      MetricChangesAreExact(ids, l.measurements, r.measurements, c);
    }
  }

  lemma {:induction false} RowsComplete(l: seq<Record>, r: seq<Record>)
    requires SameCells(l, r)
    requires forall k :: 0 <= k < |l| ==> l[k].definition == r[k].definition && l[k].measurements.Keys == r[k].measurements.Keys
    ensures forall row <- DiffRows(l, r) :: Complete(row)
  {
    hide RowOf, Changed, Complete, SameAssertions;
    if l != [] {
      var n := |l| - 1;
      RowsComplete(l[..n], r[..n]);
      RowIsComplete(r[n].cell, l[n], r[n]);
    }
  }

  /** Between bound snapshots no metric appears or disappears and no limitation changes. */
  lemma OnlyValuesChange(rules: Rules, l: Snapshot, r: Snapshot)
    requires BoundSnapshot(rules, l) && BoundSnapshot(rules, r) && Compatible(l, r)
    ensures SameCells(l.records, r.records)
    ensures forall row <- DiffRows(l.records, r.records) :: Complete(row)
  {
    hide BoundSnapshot, DiffRows, Complete;
    CompatibleAligned(rules, l, r);
    RowsComplete(l.records, r.records);
  }
}
