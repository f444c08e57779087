/** Building a release manifest: one record per expected cell, and the snapshot it binds. */
module ReleaseBuild {
  import opened Ordering
  import opened Evidence
  import opened ReleaseContract

  datatype BuildError =
    | InvalidInputDigest | InvalidExpectedCells | CountMismatch
    | UnsealedRecord | ForeignInputDigest | MixedRunSets | RepeatedEvidence | RepeatedCell
    | MissingCell | DefinitionMismatch

  datatype Built = Built(manifest: Manifest) | Failed(error: BuildError)

  function SelectionOf(r: Record): Selection {
    Selection(r.cell, r.role, r.id, r.contentDigest)
  }

  /** The manifest that selects `aligned[k]` for the k-th expected cell. */
  function ManifestOf(input: string, expected: seq<ExpectedCell>, aligned: seq<Record>): Manifest
    requires |expected| == |aligned| > 0
  {
    Manifest(SCHEMA_VERSION, input, expected[0].profile, aligned[0].runSetId,
             seq(|aligned|, k requires 0 <= k < |aligned| => SelectionOf(aligned[k])))
  }

  /** validateBoundSnapshot at one position. */
  ghost predicate BoundAt(rules: Rules, m: Manifest, expected: seq<ExpectedCell>, records: seq<Record>, k: int)
    requires 0 <= k < |expected| == |records| == |m.selections|
  {
    var s, r, e := m.selections[k], records[k], expected[k];
    && s.cell == e.cell && s.role == e.role
    && s == SelectionOf(r)
    && r.inputDigest == m.inputDigest && r.profile == m.profile && r.runSetId == m.runSetId
    && Matches(rules, r, e)
  }

  /** Manifest, expected cells and records agree position by position. */
  ghost predicate Bound(rules: Rules, m: Manifest, expected: seq<ExpectedCell>, records: seq<Record>) {
    && ValidManifest(rules, m)
    && ValidExpected(rules, expected)
    && |m.selections| == |expected| == |records|
    && forall k :: 0 <= k < |expected| ==> BoundAt(rules, m, expected, records, k)
  }

  method ValidateBoundSnapshot(rules: Rules, m: Manifest, expected: seq<ExpectedCell>, records: seq<Record>) returns (ok: bool)
    ensures ok <==> Bound(rules, m, expected, records)
  {
    hide ValidManifest, ValidExpected, Matches;
    var manifestOk := ValidateManifest(rules, m);
    if !manifestOk {
      return false;
    }
    var expectedOk := ValidateExpectedCells(rules, expected);
    if !expectedOk || |m.selections| != |expected| || |records| != |expected| {
      return false;
    }
    for index := 0 to |expected|
      invariant forall k :: 0 <= k < index ==> BoundAt(rules, m, expected, records, k)
    {
      var s, r, e := m.selections[index], records[index], expected[index];
      var matches, _ := RecordMatchesExpected(rules, r, e);
      if s.cell != e.cell || s.role != e.role
         || r.id != s.evidenceId || r.contentDigest != s.contentDigest || r.cell != s.cell || r.role != s.role
         || r.inputDigest != m.inputDigest || r.profile != m.profile || r.runSetId != m.runSetId
         || !matches {
        assert !BoundAt(rules, m, expected, records, index);
        return false;
      }
    }
    return true;
  }

  /** The current records are sealed, of one input and run set, and repeat neither id nor cell. */
  ghost predicate Coherent(rules: Rules, input: string, current: seq<Record>) {
    && (forall r <- current :: Encodable(rules, r) && r.inputDigest == input && r.runSetId == current[0].runSetId)
    && (forall i, j :: 0 <= i < j < |current| ==> current[i].id != current[j].id && current[i].cell != current[j].cell)
  }

  /** Exactly when a manifest can be built. */
  ghost predicate CanBuild(rules: Rules, input: string, expected: seq<ExpectedCell>, current: seq<Record>) {
    && rules.digest(input)
    && ValidExpected(rules, expected)
    && |current| == |expected|
    && Coherent(rules, input, current)
    && forall e <- expected :: exists r <- current :: Matches(rules, r, e)
  }

  /** What each error says about the inputs. */
  ghost predicate Explains(rules: Rules, input: string, expected: seq<ExpectedCell>, current: seq<Record>, error: BuildError) {
    match error
    case InvalidInputDigest => !rules.digest(input)
    case InvalidExpectedCells => rules.digest(input) && !ValidExpected(rules, expected)
    case CountMismatch => |current| != |expected|
    case UnsealedRecord => exists r <- current :: !Encodable(rules, r)
    case ForeignInputDigest => exists r <- current :: r.inputDigest != input
    case MixedRunSets => exists r <- current :: r.runSetId != current[0].runSetId
    case RepeatedEvidence => exists i, j :: 0 <= i < j < |current| && current[i].id == current[j].id
    case RepeatedCell => exists i, j :: 0 <= i < j < |current| && current[i].cell == current[j].cell
    case MissingCell => exists e <- expected :: forall r <- current :: r.cell != e.cell
    case DefinitionMismatch => exists e <- expected, r <- current :: r.cell == e.cell && !Matches(rules, r, e)
  }

  // ---- Records by cell ------------------------------------------------------

  /** `byKey` holds each of the records under its own cell. */
  ghost predicate Indexes(byKey: map<CellKey, Record>, records: seq<Record>) {
    && (forall r <- records :: r.cell in byKey && byKey[r.cell] == r)
    && (forall c :: c in byKey ==> byKey[c] in records && byKey[c].cell == c)
  }

  /** The checks of one record against those before it. */
  method CheckRecord(rules: Rules, input: string, ghost expected: seq<ExpectedCell>, current: seq<Record>, index: nat,
                     seenIds: set<string>, byKey: map<CellKey, Record>)
    returns (error: BuildError, ok: bool)
    requires index < |current| && Indexes(byKey, current[..index])
    requires seenIds == set r | r in current[..index] :: r.id
    requires Coherent(rules, input, current[..index])
    ensures ok <==> Coherent(rules, input, current[..index] + [current[index]])
    ensures ok ==> current[index].cell !in byKey
    ensures !ok ==> Explains(rules, input, expected, current, error)
  {
    hide Encodable, Indexes, Coherent, Explains;
    var r := current[index];
    error := CountMismatch;
    CoherentSnoc(rules, input, current[..index], r, byKey);
    Faults(rules, input, current, index, expected);
    Repeats(rules, input, byKey, current, index, expected);
    assert r.id in seenIds <==> exists x <- current[..index] :: x.id == r.id;
    assert index > 0 ==> current[..index][0] == current[0];
    if !Encodable(rules, r) {
      return UnsealedRecord, false;
    }
    if r.inputDigest != input {
      return ForeignInputDigest, false;
    }
    if index > 0 && r.runSetId != current[0].runSetId {
      return MixedRunSets, false;
    }
    if r.id in seenIds {
      return RepeatedEvidence, false;
    }
    if r.cell in byKey {
      return RepeatedCell, false;
    }
    ok := true;
  }

  /** The first loop: check every record and index it by cell. */
  method IndexRecords(rules: Rules, input: string, ghost expected: seq<ExpectedCell>, current: seq<Record>)
    returns (error: BuildError, byKey: map<CellKey, Record>, ok: bool)
    ensures ok <==> Coherent(rules, input, current)
    ensures ok ==> Indexes(byKey, current) && |byKey.Keys| == |current|
    ensures !ok ==> Explains(rules, input, expected, current, error)
  {
    hide Encodable, Indexes, Coherent, Explains;
    error, byKey, ok := CountMismatch, map[], false;
    var seenIds: set<string> := {};
    NothingIndexed(rules, input);
    for index := 0 to |current|
      invariant Indexes(byKey, current[..index]) && |byKey.Keys| == index
      invariant seenIds == set r | r in current[..index] :: r.id
      invariant Coherent(rules, input, current[..index])
    {
      var r := current[index];
      ghost var before, now := current[..index], current[..index + 1];
      assert now == before + [r] && now + current[index + 1..] == current;
      CoherentPrefix(rules, input, now, current[index + 1..]);
      error, ok := CheckRecord(rules, input, expected, current, index, seenIds, byKey);
      if !ok {
        return;
      }
      IndexSnoc(byKey, before, r);
      byKey := byKey[r.cell := r];
      seenIds := seenIds + {r.id};
    }
    assert current[..|current|] == current;
    ok := true;
  }

  /** What is wrong with the n-th record explains its refusal, whatever cells are expected. */
  lemma Faults(rules: Rules, input: string, current: seq<Record>, n: nat, expected: seq<ExpectedCell>)
    requires n < |current|
    ensures !Encodable(rules, current[n]) ==> Explains(rules, input, expected, current, UnsealedRecord)
    ensures current[n].inputDigest != input ==> Explains(rules, input, expected, current, ForeignInputDigest)
    ensures current[n].runSetId != current[0].runSetId ==> Explains(rules, input, expected, current, MixedRunSets)
  {
    hide Encodable;
    assert current[n] in current;
  }

  /** An id or cell met before is a repetition. */
  lemma Repeats(rules: Rules, input: string, byKey: map<CellKey, Record>, current: seq<Record>, n: nat, expected: seq<ExpectedCell>)
    requires n < |current| && Indexes(byKey, current[..n])
    ensures (exists x <- current[..n] :: x.id == current[n].id) ==> Explains(rules, input, expected, current, RepeatedEvidence)
    ensures current[n].cell in byKey ==> Explains(rules, input, expected, current, RepeatedCell)
  {
    hide Encodable, Indexes, Matches;
    IndexedCell(byKey, current[..n], current[n].cell);
    if x :| x in current[..n] && x.id == current[n].id {
      var i :| 0 <= i < n && current[..n][i] == x;
      assert current[i].id == current[n].id;
    }
    if x :| x in current[..n] && x.cell == current[n].cell {
      var i :| 0 <= i < n && current[..n][i] == x;
      assert current[i].cell == current[n].cell;
    }
  }

  lemma NothingIndexed(rules: Rules, input: string)
    ensures Indexes(map[], []) && Coherent(rules, input, [])
  {
  }

  lemma IndexSnoc(byKey: map<CellKey, Record>, records: seq<Record>, r: Record)
    requires Indexes(byKey, records) && r.cell !in byKey
    ensures Indexes(byKey[r.cell := r], records + [r])
  {
    var next := records + [r];
    assert forall x :: x in next <==> x in records || x == r;
  }

  /** What one more record must satisfy. */
  lemma CoherentSnoc(rules: Rules, input: string, records: seq<Record>, r: Record, byKey: map<CellKey, Record>)
    requires Coherent(rules, input, records) && Indexes(byKey, records)
    ensures Coherent(rules, input, records + [r]) <==>
      && Encodable(rules, r) && r.inputDigest == input
      && (records != [] ==> r.runSetId == records[0].runSetId)
      && !(exists x <- records :: x.id == r.id)
      && r.cell !in byKey
  {
    hide Encodable, Indexes;
    var next := records + [r];
    assert forall x :: x in next <==> x in records || x == r;
    DistinctSnoc(records, r);
    IndexedCell(byKey, records, r.cell);
  }

  lemma DistinctSnoc(records: seq<Record>, r: Record)
    requires forall i, j :: 0 <= i < j < |records| ==> records[i].id != records[j].id && records[i].cell != records[j].cell
    ensures var next := records + [r];
      (forall i, j :: 0 <= i < j < |next| ==> next[i].id != next[j].id && next[i].cell != next[j].cell)
      <==> forall x <- records :: x.id != r.id && x.cell != r.cell
  {
    var next, n := records + [r], |records|;
    if x :| x in records && (x.id == r.id || x.cell == r.cell) {
      var j :| 0 <= j < n && records[j] == x;
      assert next[j] == x && next[n] == r;
    } else {
      assert forall i :: 0 <= i < n ==> next[i] == records[i] && records[i] in records;
    }
  }

  lemma IndexedCell(byKey: map<CellKey, Record>, records: seq<Record>, cell: CellKey)
    requires Indexes(byKey, records)
    ensures cell in byKey <==> exists x <- records :: x.cell == cell
  {
  }

  lemma CoherentPrefix(rules: Rules, input: string, records: seq<Record>, more: seq<Record>)
    requires records != []
    ensures Coherent(rules, input, records + more) ==> Coherent(rules, input, records)
  {
    hide Encodable;
    var all := records + more;
    assert forall i :: 0 <= i < |records| ==> all[i] == records[i];
    assert forall x <- records :: x in all;
  }

  /** Equally many distinct elements of a list are a permutation of it. */
  lemma {:induction false} DistinctPermutation<T>(a: seq<T>, b: seq<T>)
    requires Distinct(a) && |a| == |b| && forall x <- a :: x in b
    ensures multiset(a) == multiset(b)
  {
    if a == [] {
      assert b == [];
    } else {
      assert a[0] in a && a[0] in b;
      var j :| 0 <= j < |b| && b[j] == a[0];
      var rest := b[..j] + b[j + 1..];
      assert b == b[..j] + [b[j]] + b[j + 1..];
      forall x | x in a[1..]
        ensures x in rest
      {
        var i :| 1 <= i < |a| && a[i] == x;
        assert a[0] != a[i];
        assert x in b && x != b[j];
      }
      DistinctPermutation(a[1..], rest);
      assert a == [a[0]] + a[1..];
      assert multiset(b) == multiset(rest) + multiset{b[j]};
    }
  }

  // ---- Building -------------------------------------------------------------

  /** `aligned[k]` is the record for the k-th expected cell. */
  ghost predicate Aligns(rules: Rules, expected: seq<ExpectedCell>, aligned: seq<Record>, n: int)
    requires 0 <= n == |aligned| <= |expected|
  {
    forall k :: 0 <= k < n ==> Matches(rules, aligned[k], expected[k])
  }

  lemma MatchedSelection(rules: Rules, r: Record, e: ExpectedCell)
    requires Matches(rules, r, e)
    ensures ValidSelection(rules, SelectionOf(r)) && r.cell == e.cell && r.role == e.role && r.profile == e.profile
    ensures Encodable(rules, r) && rules.runSetId(r.runSetId)
  {
  }

  lemma ExpectedAt(rules: Rules, expected: seq<ExpectedCell>, k: int)
    requires ValidExpected(rules, expected) && 0 <= k < |expected|
    ensures expected[k].profile == expected[0].profile && ValidProfile(expected[k].profile)
    ensures forall i :: 0 <= i < k ==> expected[i].cell != expected[k].cell
    ensures k > 0 ==> Before(expected[k - 1].cell, expected[k - 1].role, expected[k].cell, expected[k].role)
  {
    hide Before;
    assert ExpectedFits(rules, expected, k);
  }

  /** Matching records of one input and run set, no id twice, make a bound snapshot. */
  lemma AlignedIsBound(rules: Rules, input: string, expected: seq<ExpectedCell>, aligned: seq<Record>)
    requires rules.digest(input) && ValidExpected(rules, expected) && |aligned| == |expected| > 0
    requires Aligns(rules, expected, aligned, |aligned|)
    requires forall r <- aligned :: r.inputDigest == input && r.runSetId == aligned[0].runSetId
    requires forall i, j :: 0 <= i < j < |aligned| ==> aligned[i].id != aligned[j].id
    ensures Bound(rules, ManifestOf(input, expected, aligned), expected, aligned)
  {
    hide Matches, Before, ValidExpected, Encodable, ValidSelection;
    var m := ManifestOf(input, expected, aligned);
    forall k | 0 <= k < |expected|
      ensures SelectionFits(rules, m.selections, k) && BoundAt(rules, m, expected, aligned, k)
    {
      forall i | 0 <= i <= k
        ensures aligned[i].cell == expected[i].cell && aligned[i].role == expected[i].role
      {
        MatchedSelection(rules, aligned[i], expected[i]);
      }
      MatchedSelection(rules, aligned[k], expected[k]);
      ExpectedAt(rules, expected, k);
      assert aligned[k] in aligned;
    }
    MatchedSelection(rules, aligned[0], expected[0]);
    ExpectedAt(rules, expected, 0);
  }

  /** What is left of the index after the first `n` expected cells took their records. */
  ghost predicate Remaining(all: map<CellKey, Record>, rest: map<CellKey, Record>, expected: seq<ExpectedCell>, n: int)
    requires 0 <= n <= |expected|
  {
    && (forall c :: c in rest <==> c in all && forall k :: 0 <= k < n ==> expected[k].cell != c)
    && (forall c :: c in rest ==> rest[c] == all[c])
  }

  lemma StillRemaining(rules: Rules, all: map<CellKey, Record>, rest: map<CellKey, Record>, expected: seq<ExpectedCell>, n: int)
    requires 0 <= n < |expected| && ValidExpected(rules, expected) && Remaining(all, rest, expected, n)
    ensures expected[n].cell in rest <==> expected[n].cell in all
    ensures expected[n].cell in rest ==> rest[expected[n].cell] == all[expected[n].cell]
    ensures Remaining(all, rest - {expected[n].cell}, expected, n + 1)
  {
    ExpectedAt(rules, expected, n);
  }

  /** The records taken so far, each matching its cell, and their selections. */
  ghost predicate Selected(rules: Rules, expected: seq<ExpectedCell>, current: seq<Record>,
                           aligned: seq<Record>, selections: seq<Selection>) {
    && |aligned| == |selections| <= |expected|
    && Aligns(rules, expected, aligned, |aligned|)
    && forall k :: 0 <= k < |aligned| ==> aligned[k] in current && selections[k] == SelectionOf(aligned[k])
  }

  lemma SelectedSnoc(rules: Rules, expected: seq<ExpectedCell>, current: seq<Record>,
                     aligned: seq<Record>, selections: seq<Selection>, r: Record)
    requires Selected(rules, expected, current, aligned, selections) && |aligned| < |expected|
    requires r in current && Matches(rules, r, expected[|aligned|])
    ensures Selected(rules, expected, current, aligned + [r], selections + [SelectionOf(r)])
  {
    hide Matches, SelectionOf;
  }

  lemma NothingSelected(rules: Rules, all: map<CellKey, Record>, expected: seq<ExpectedCell>, current: seq<Record>)
    ensures Remaining(all, all, expected, 0) && Selected(rules, expected, current, [], [])
  {
  }

  /** Build selects exactly one record for each expected cell, or says why it cannot. */
  method Build(rules: Rules, input: string, expected: seq<ExpectedCell>, current: seq<Record>)
    returns (r: Built, ghost aligned: seq<Record>)
    ensures r.Built? <==> CanBuild(rules, input, expected, current)
    ensures r.Built? ==> Bound(rules, r.manifest, expected, aligned) && multiset(aligned) == multiset(current)
    ensures r.Built? ==> r.manifest.inputDigest == input
    ensures r.Failed? ==> Explains(rules, input, expected, current, r.error)
  {
    hide Matches, ValidExpected, Coherent, Bound, ValidManifest, Remaining, Selected, Indexes, CanBuild, Explains;
    Refusals(rules, input, expected, current);
    aligned := [];
    if !rules.digest(input) {
      return Failed(InvalidInputDigest), aligned;
    }
    var expectedOk := ValidateExpectedCells(rules, expected);
    if !expectedOk {
      return Failed(InvalidExpectedCells), aligned;
    }
    if |current| != |expected| {
      return Failed(CountMismatch), aligned;
    }
    var error, byKey, ok := IndexRecords(rules, input, expected, current);
    if !ok {
      return Failed(error), aligned;
    }
    ghost var all := byKey;
    var runSetId := if current == [] then "" else current[0].runSetId;
    var selections: seq<Selection> := [];
    NothingSelected(rules, all, expected, current);
    for index := 0 to |expected|
      invariant |byKey.Keys| == |current| - index
      invariant |aligned| == |selections| == index
      invariant Remaining(all, byKey, expected, index)
      invariant Selected(rules, expected, current, aligned, selections)
    {
      var e := expected[index];
      StillRemaining(rules, all, byKey, expected, index);
      OnlyCandidate(rules, all, current, e);
      CannotPlace(rules, input, expected, current, index);
      if e.cell !in byKey {
        return Failed(MissingCell), aligned;
      }
      var record := byKey[e.cell];
      var matches, _ := RecordMatchesExpected(rules, record, e);
      if !matches {
        return Failed(DefinitionMismatch), aligned;
      }
      SelectedSnoc(rules, expected, current, aligned, selections, record);
      byKey := byKey - {e.cell};
      selections := selections + [SelectionOf(record)];
      aligned := aligned + [record];
    }
    assert |byKey.Keys| == 0;
    if |byKey| != 0 {
      assert false;
    }
    SelectedRecords(rules, input, expected, current, aligned, selections);
    var manifest := Manifest(SCHEMA_VERSION, input, expected[0].profile, runSetId, selections);
    var valid := ValidateManifest(rules, manifest);
    if !valid {
      BoundIsValid(rules, manifest, expected, aligned);
      assert false;
    }
    r := Built(manifest);
  }

  lemma Refusals(rules: Rules, input: string, expected: seq<ExpectedCell>, current: seq<Record>)
    ensures !rules.digest(input) ==> Explains(rules, input, expected, current, InvalidInputDigest)
    ensures rules.digest(input) && !ValidExpected(rules, expected) ==>
      Explains(rules, input, expected, current, InvalidExpectedCells)
    ensures |current| != |expected| ==> Explains(rules, input, expected, current, CountMismatch)
    ensures CanBuild(rules, input, expected, current) ==>
      && rules.digest(input) && ValidExpected(rules, expected) && |current| == |expected| && Coherent(rules, input, current)
  {
    hide ValidExpected, Coherent;
  }

  /** A cell without a record, or with one that does not match it, cannot be built. */
  lemma CannotPlace(rules: Rules, input: string, expected: seq<ExpectedCell>, current: seq<Record>, k: nat)
    requires k < |expected|
    ensures (forall r <- current :: r.cell != expected[k].cell) ==> Explains(rules, input, expected, current, MissingCell)
    ensures forall r <- current :: r.cell == expected[k].cell && !Matches(rules, r, expected[k]) ==>
      Explains(rules, input, expected, current, DefinitionMismatch)
    ensures !(exists r <- current :: Matches(rules, r, expected[k])) ==> !CanBuild(rules, input, expected, current)
  {
    hide Matches, ValidExpected, Coherent;
    assert expected[k] in expected;
  }

  /** Only the record filed under its cell can match an expected cell. */
  lemma OnlyCandidate(rules: Rules, byKey: map<CellKey, Record>, current: seq<Record>, e: ExpectedCell)
    requires Indexes(byKey, current)
    ensures (exists r <- current :: Matches(rules, r, e)) <==> e.cell in byKey && Matches(rules, byKey[e.cell], e)
    ensures e.cell in byKey ==> byKey[e.cell] in current && byKey[e.cell].cell == e.cell
    ensures e.cell !in byKey ==> forall r <- current :: r.cell != e.cell
  {
    hide Encodable;
  }

  lemma BoundIsValid(rules: Rules, m: Manifest, expected: seq<ExpectedCell>, aligned: seq<Record>)
    requires Bound(rules, m, expected, aligned)
    ensures ValidManifest(rules, m)
  {
  }

  /** One record taken for each cell: all of them taken, and the snapshot is bound. */
  lemma SelectedRecords(rules: Rules, input: string, expected: seq<ExpectedCell>, current: seq<Record>,
                        aligned: seq<Record>, selections: seq<Selection>)
    requires rules.digest(input) && ValidExpected(rules, expected) && |aligned| == |expected| == |current|
    requires Coherent(rules, input, current) && Selected(rules, expected, current, aligned, selections)
    ensures |expected| > 0
    ensures multiset(aligned) == multiset(current)
    ensures ManifestOf(input, expected, aligned)
         == Manifest(SCHEMA_VERSION, input, expected[0].profile, current[0].runSetId, selections)
    ensures Bound(rules, ManifestOf(input, expected, aligned), expected, aligned)
    ensures CanBuild(rules, input, expected, current)
  {
    hide Matches, Encodable, Before, Bound, ExpectedFits, SelectionOf;
    forall k | 0 <= k < |expected|
      ensures aligned[k].cell == expected[k].cell && aligned[k] in current
    {
      MatchedSelection(rules, aligned[k], expected[k]);
    }
    forall i, j | 0 <= i < j < |aligned|
      ensures aligned[i] != aligned[j] && aligned[i].id != aligned[j].id
    {
      ExpectedAt(rules, expected, j);
    }
    DistinctPermutation(aligned, current);
    AlignedIsBound(rules, input, expected, aligned);
  }

  // ---- What a manifest determines -------------------------------------------

  lemma DistinctCounts<T>(s: seq<T>, x: T)
    requires Distinct(s)
    ensures multiset(s)[x] <= 1
  {
    if x in s {
      var i :| 0 <= i < |s| && s[i] == x;
      assert s == s[..i] + [x] + s[i + 1..];
      assert x !in s[..i] && x !in s[i + 1..];
      assert multiset(s) == multiset(s[..i]) + multiset{x} + multiset(s[i + 1..]);
    }
  }

  /** Coherence does not depend on the order of the records. */
  lemma CoherentPermuted(rules: Rules, input: string, a: seq<Record>, b: seq<Record>)
    requires multiset(a) == multiset(b) && Coherent(rules, input, a)
    ensures Coherent(rules, input, b)
  {
    hide Encodable;
    assert forall r :: r in b <==> r in multiset(b);
    assert forall r :: r in a <==> r in multiset(a);
    if b != [] {
      assert b[0] in a;
    }
    forall i, j | 0 <= i < j < |b|
      ensures b[i].id != b[j].id && b[i].cell != b[j].cell
    {
      DistinctCounts(a, b[j]);
      RepeatCounts(b, i, j);
      assert b[i] in b && b[j] in b;
    }
  }

  /** Whether a manifest can be built does not depend on the order of the records. */
  lemma OrderIrrelevant(rules: Rules, input: string, expected: seq<ExpectedCell>, a: seq<Record>, b: seq<Record>)
    requires multiset(a) == multiset(b)
    ensures CanBuild(rules, input, expected, a) <==> CanBuild(rules, input, expected, b)
  {
    hide Matches, Coherent, ValidExpected;
    assert |multiset(a)| == |a| && |multiset(b)| == |b|;
    assert forall r :: r in a <==> r in multiset(a);
    assert forall r :: r in b <==> r in multiset(b);
    if Coherent(rules, input, a) { CoherentPermuted(rules, input, a, b); }
    if Coherent(rules, input, b) { CoherentPermuted(rules, input, b, a); }
  }

  lemma BoundShape(rules: Rules, m: Manifest, expected: seq<ExpectedCell>, aligned: seq<Record>)
    requires Bound(rules, m, expected, aligned)
    ensures ValidExpected(rules, expected) && |expected| == |aligned| == |m.selections| > 0
  {
  }

  lemma BoundRecord(rules: Rules, m: Manifest, expected: seq<ExpectedCell>, aligned: seq<Record>, k: int)
    requires Bound(rules, m, expected, aligned) && 0 <= k < |aligned|
    ensures |expected| == |aligned| == |m.selections| && BoundAt(rules, m, expected, aligned, k)
    ensures m.selections[k] == SelectionOf(aligned[k]) && aligned[k].cell == expected[k].cell
    ensures aligned[k].runSetId == m.runSetId && aligned[k].inputDigest == m.inputDigest
    ensures Matches(rules, aligned[k], expected[k]) && Encodable(rules, aligned[k])
    ensures forall i :: 0 <= i < k ==> aligned[i].cell != aligned[k].cell && aligned[i].id != aligned[k].id
    ensures rules.digest(m.inputDigest) && m.profile == expected[k].profile && m.schemaVersion == SCHEMA_VERSION
  {
    hide Before, ValidSelection, ValidIdentity, ValidExpectedCell;
    assert BoundAt(rules, m, expected, aligned, k);
    assert SelectionFits(rules, m.selections, k);
    forall i | 0 <= i < k
      ensures aligned[i].cell != aligned[k].cell && aligned[i].id != aligned[k].id
    {
      assert BoundAt(rules, m, expected, aligned, i);
      assert m.selections[i].cell != m.selections[k].cell && m.selections[i].evidenceId != m.selections[k].evidenceId;
    }
  }

  /** Two bound snapshots over the same records, in any order, are the same snapshot. */
  lemma BoundUnique(rules: Rules, m: Manifest, n: Manifest, expected: seq<ExpectedCell>, a: seq<Record>, b: seq<Record>)
    requires Bound(rules, m, expected, a) && Bound(rules, n, expected, b)
    requires multiset(a) == multiset(b)
    ensures a == b && m == n
  {
    hide Bound, Matches, Encodable, ValidExpected, ValidManifest, SelectionOf;
    BoundShape(rules, m, expected, a);
    BoundShape(rules, n, expected, b);
    BoundRecord(rules, m, expected, a, 0);
    forall k | 0 <= k < |a|
      ensures a[k] == b[k] && m.selections[k] == n.selections[k]
    {
      BoundRecord(rules, m, expected, a, k);
      BoundRecord(rules, n, expected, b, k);
      assert a[k] in multiset(b);
      var j :| 0 <= j < |b| && b[j] == a[k];
      BoundRecord(rules, n, expected, b, j);
    }
    BoundRecord(rules, n, expected, b, 0);
  }

  /** Whatever snapshot is bound, its records build exactly its manifest again, in any order. */
  lemma BoundRebuilds(rules: Rules, m: Manifest, expected: seq<ExpectedCell>, aligned: seq<Record>, current: seq<Record>)
    requires Bound(rules, m, expected, aligned) && multiset(current) == multiset(aligned)
    ensures CanBuild(rules, m.inputDigest, expected, current)
    ensures |expected| == |aligned| > 0 && ManifestOf(m.inputDigest, expected, aligned) == m
  {
    hide Bound, Matches, Encodable, ValidManifest, SelectionOf, Before;
    BoundShape(rules, m, expected, aligned);
    forall k | 0 <= k < |aligned|
      ensures m.selections[k] == SelectionOf(aligned[k]) && aligned[k].runSetId == m.runSetId
      ensures aligned[k].inputDigest == m.inputDigest && Encodable(rules, aligned[k])
      ensures Matches(rules, aligned[k], expected[k])
      ensures forall i :: 0 <= i < k ==> aligned[i].cell != aligned[k].cell && aligned[i].id != aligned[k].id
    {
      BoundRecord(rules, m, expected, aligned, k);
    }
    BoundRecord(rules, m, expected, aligned, 0);
    OrderIrrelevant(rules, m.inputDigest, expected, aligned, current);
  }
}
