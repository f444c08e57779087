/** Auditing a manifest against the evidence store. */
module ReleaseAudit {
  // An independently written checker, and its agreement with the builder.

  import opened Ordering
  import opened Evidence
  import opened ReleaseContract
  import opened ReleaseBuild

  // What can be wrong; each kind is printed with a code and a message.
  datatype Kind =
    | DefinitionsInvalid | ManifestInvalid | ProfileDiffers | InputDigestInvalid | EvidenceReused | CellUnknown
    | CellMissing | CellSelectedTwice | SelectionRoleDiffers | OrderDiffers | EvidenceUnusable | EvidenceMissing
    | HistoryUnusable | RecordIdDiffers | ContentDigestDiffers | RunSetDiffers | InputDigestDiffers
    | RecordProfileDiffers | StatusNotPassed | AssertionsDiffer | TextNotPortable | DefinitionDiffers
    | RecordCellDiffers | CellBoundTwice | RecordUnselected | CountDiffers

  datatype Diagnostic = Diagnostic(kind: Kind, entity: string)

  function Code(kind: Kind): string {
    match kind
    case DefinitionsInvalid | DefinitionDiffers => "release_definition_mismatch"
    case ManifestInvalid => "release_manifest_invalid"
    case ProfileDiffers | RecordProfileDiffers => "release_profile_mismatch"
    case InputDigestInvalid | InputDigestDiffers => "release_input_digest_mismatch"
    case EvidenceReused => "release_evidence_reused"
    case CellUnknown | SelectionRoleDiffers | RecordCellDiffers => "release_cell_mismatch"
    case CellMissing => "release_cell_missing"
    case CellSelectedTwice | CellBoundTwice | RecordUnselected => "release_cell_duplicate"
    case OrderDiffers | CountDiffers => "release_selection_order_mismatch"
    case EvidenceUnusable | HistoryUnusable | RecordIdDiffers | TextNotPortable => "release_evidence_invalid"
    case EvidenceMissing => "release_evidence_missing"
    case ContentDigestDiffers => "release_content_digest_mismatch"
    case RunSetDiffers => "release_run_set_mismatch"
    case StatusNotPassed => "release_status_not_passed"
    case AssertionsDiffer => "release_assertion_mismatch"
  }

  function Message(kind: Kind): string {
    match kind
    case DefinitionsInvalid | ManifestInvalid | ProfileDiffers | InputDigestInvalid | CountDiffers => HeaderMessage(kind)
    case EvidenceReused | CellUnknown | CellMissing | CellSelectedTwice | SelectionRoleDiffers | OrderDiffers => SelectionMessage(kind)
    case EvidenceUnusable | EvidenceMissing | HistoryUnusable | RecordUnselected | CellBoundTwice => StoreMessage(kind)
    case RecordIdDiffers | ContentDigestDiffers | RunSetDiffers | InputDigestDiffers | RecordProfileDiffers => ReferenceMessage(kind)
    case StatusNotPassed | AssertionsDiffer | TextNotPortable | DefinitionDiffers | RecordCellDiffers => DefinitionMessage(kind)
  }

  /** About the manifest and the definitions as a whole. */
  function HeaderMessage(kind: Kind): string {
    match kind
    case DefinitionsInvalid => "expected experiment definitions are invalid"
    case ManifestInvalid => "release manifest is structurally invalid"
    case ProfileDiffers => "manifest profile differs from expected profile"
    case InputDigestInvalid => "manifest input digest is invalid"
    case CountDiffers => "selection count differs from expected matrix count"
    case _ => ""
  }

  /** About what is selected. */
  function SelectionMessage(kind: Kind): string {
    match kind
    case EvidenceReused => "one evidence ID is selected more than once"
    case CellUnknown => "manifest selection does not match an expected six-field cell"
    case CellMissing => "expected cell is absent from the manifest"
    case CellSelectedTwice => "expected cell is selected more than once"
    case SelectionRoleDiffers => "selection role differs from the expected role"
    case OrderDiffers => "selection order differs from deterministic matrix order"
    case _ => ""
  }

  /** About what the store holds. */
  function StoreMessage(kind: Kind): string {
    match kind
    case EvidenceUnusable => "selected evidence record is invalid or unsafe"
    case EvidenceMissing => "selected evidence record is missing"
    case HistoryUnusable => "evidence history cannot be classified safely"
    case RecordUnselected => "unselected evidence record belongs to the manifest run set"
    case CellBoundTwice => "multiple selected records bind the same cell"
    case _ => ""
  }

  /** About a record and its reference. */
  function ReferenceMessage(kind: Kind): string {
    match kind
    case RecordIdDiffers => "selected record ID differs from the manifest"
    case ContentDigestDiffers => "selected record content digest differs from the manifest"
    case RunSetDiffers => "selected record run-set ID differs from the manifest"
    case InputDigestDiffers => "selected record input digest differs from the manifest"
    case RecordProfileDiffers => "selected record profile differs from the manifest"
    case _ => ""
  }

  /** About a record and its definition. */
  function DefinitionMessage(kind: Kind): string {
    match kind
    case StatusNotPassed => "selected record status is not passed"
    case AssertionsDiffer => "selected record assertions differ from the expected ordered passed set"
    case TextNotPortable => "selected record contains non-portable dynamic text"
    case DefinitionDiffers => "selected record differs from its expected experiment definition"
    case RecordCellDiffers => "selected record cell or role differs from the manifest"
    case _ => ""
  }

  // Which of the store's error classes a failure belongs to.
  datatype StoreError = StoreError(canceled: bool, unusable: bool, notFound: bool, io: bool)

  datatype Fetch = Loaded(record: Record) | FetchFailed(error: StoreError)

  datatype Listing = Listed(records: seq<Record>) | ListFailed(error: StoreError)

  datatype Store = NoStore | Store(get: string -> Fetch, list: Listing)

  datatype Audited = NotBound | Audited(records: seq<Record>)

  // ---- Classifying store failures -------------------------------------------

  /** classifySelectedEvidenceError: what to report, and whether the failure is operational. */
  function ClassifySelected(id: string, e: StoreError): (r: (seq<Diagnostic>, bool))
    ensures r.0 != [] || r.1
    ensures e.canceled ==> r == ([], true)
    ensures e.io ==> r.1
    ensures r.1 && !e.canceled && !e.io ==> !e.unusable && !e.notFound
  {
    if e.canceled then ([], true)
    else
      var diagnostics :=
        if e.unusable then [Diagnostic(EvidenceUnusable, id)]
        else if e.notFound then [Diagnostic(EvidenceMissing, id)]
        else [];
      (diagnostics, e.io || diagnostics == [])
  }

  function ClassifyList(e: StoreError): (r: (seq<Diagnostic>, bool))
    ensures r.0 != [] || r.1
    ensures e.canceled ==> r == ([], true)
    ensures e.io ==> r.1
    ensures r.1 && !e.canceled && !e.io ==> !e.unusable
  {
    if e.canceled then ([], true)
    else
      var diagnostics :=
        if e.unusable then [Diagnostic(HistoryUnusable, "")]
        else [];
      (diagnostics, e.io || diagnostics == [])
  }

  // ---- What there is to find ------------------------------------------------

  ghost function When(condition: bool, kind: Kind, entity: string): seq<Diagnostic> {
    if condition then [Diagnostic(kind, entity)] else []
  }

  /** Findings about the manifest's header and the definitions as a whole. */
  ghost function HeaderFindings(rules: Rules, m: Manifest, expected: seq<ExpectedCell>): seq<Diagnostic> {
    When(!ValidExpected(rules, expected), DefinitionsInvalid, "")
    + When(!ValidManifest(rules, m), ManifestInvalid, "")
    + When(expected != [] && m.profile != expected[0].profile, ProfileDiffers, "")
    + When(!rules.digest(m.inputDigest), InputDigestInvalid, "")
  }

  /** Findings about the k-th selection on its own. */
  ghost function SelectionFindings(s: seq<Selection>, expected: seq<ExpectedCell>, k: nat): seq<Diagnostic>
    requires k < |s|
  {
    When(exists i :: 0 <= i < k && s[i].evidenceId == s[k].evidenceId, EvidenceReused, s[k].evidenceId)
    + When(forall e <- expected :: e.cell != s[k].cell, CellUnknown, s[k].cell.labId)
  }

  /** `first` is the first selection of `cell`. */
  ghost predicate FirstFor(s: seq<Selection>, cell: CellKey, first: int) {
    0 <= first < |s| && s[first].cell == cell && forall i :: 0 <= i < first ==> s[i].cell != cell
  }

  ghost predicate SelectedTwice(s: seq<Selection>, cell: CellKey) {
    exists i, j :: 0 <= i < j < |s| && s[i].cell == cell && s[j].cell == cell
  }

  /** Findings about the k-th expected cell. */
  ghost function CellFindings(s: seq<Selection>, expected: seq<ExpectedCell>, k: nat): seq<Diagnostic>
    requires k < |expected|
  {
    var e := expected[k];
    if forall x <- s :: x.cell != e.cell then
      [Diagnostic(CellMissing, e.cell.labId)]
    else
      When(SelectedTwice(s, e.cell), CellSelectedTwice, e.cell.labId)
      + When(exists first :: FirstFor(s, e.cell, first) && s[first].role != e.role, SelectionRoleDiffers, e.cell.labId)
      + When(k >= |s| || s[k].cell != e.cell || s[k].role != e.role, OrderDiffers, e.cell.labId)
  }

  /** Findings from loading the k-th selection. */
  ghost function LoadFindings(s: seq<Selection>, get: string -> Fetch, k: nat): seq<Diagnostic>
    requires k < |s|
  {
    match get(s[k].evidenceId)
    case Loaded(_) => []
    case FetchFailed(error) => ClassifySelected(s[k].evidenceId, error).0
  }

  /** The definition that a cell is checked against: the last one listed for it. */
  ghost predicate DefinitionFor(expected: seq<ExpectedCell>, cell: CellKey, j: int) {
    0 <= j < |expected| && expected[j].cell == cell && forall i :: j < i < |expected| ==> expected[i].cell != cell
  }

  /** A definition for the selection's cell exists, and the record does not match it. */
  ghost predicate Unmatched(rules: Rules, s: Selection, expected: seq<ExpectedCell>, r: Record) {
    exists j :: DefinitionFor(expected, s.cell, j) && !Matches(rules, r, expected[j])
  }

  /** Where a record differs from the manifest's header and its own reference. */
  ghost function ReferenceFindings(m: Manifest, s: Selection, r: Record): seq<Diagnostic> {
    When(r.id != s.evidenceId, RecordIdDiffers, s.evidenceId)
    + When(r.contentDigest != s.contentDigest, ContentDigestDiffers, s.evidenceId)
    + When(r.runSetId != m.runSetId, RunSetDiffers, s.evidenceId)
    + When(r.inputDigest != m.inputDigest, InputDigestDiffers, s.evidenceId)
    + When(r.profile != m.profile, RecordProfileDiffers, s.evidenceId)
  }

  /** Where a record differs from its definition. */
  ghost function DefinitionFindings(rules: Rules, s: Selection, expected: seq<ExpectedCell>, r: Record): seq<Diagnostic> {
    When(r.status != "passed", StatusNotPassed, s.evidenceId)
    + When(exists j :: DefinitionFor(expected, s.cell, j) && !AssertionsMatch(r, expected[j]),
           AssertionsDiffer, s.evidenceId)
    + if !Unmatched(rules, s, expected, r) then []
      else if Encodable(rules, r) && !SafeText(rules, r) then
        [Diagnostic(TextNotPortable, s.evidenceId)]
      else
        [Diagnostic(DefinitionDiffers, s.evidenceId)]
  }

  ghost predicate BoundBefore(s: seq<Selection>, get: string -> Fetch, k: nat)
    requires k < |s|
  {
    exists i :: 0 <= i < k && s[i].cell == s[k].cell && get(s[i].evidenceId).Loaded?
  }

  /** Findings about the record that the k-th selection loaded. */
  ghost function RecordFindings(rules: Rules, m: Manifest, expected: seq<ExpectedCell>, get: string -> Fetch, k: nat): seq<Diagnostic>
    requires k < |m.selections|
  {
    var s := m.selections[k];
    if get(s.evidenceId).FetchFailed? then []
    else
      var r := get(s.evidenceId).record;
      ReferenceFindings(m, s, r)
      + DefinitionFindings(rules, s, expected, r)
      + When(r.cell != s.cell || r.role != s.role, RecordCellDiffers, s.evidenceId)
      + When(BoundBefore(m.selections, get, k), CellBoundTwice, s.evidenceId)
  }

  /** Findings about the k-th listed record. */
  ghost function ListedFindings(m: Manifest, records: seq<Record>, k: nat): seq<Diagnostic>
    requires k < |records|
  {
    When(records[k].runSetId == m.runSetId && forall s <- m.selections :: s.evidenceId != records[k].id,
         RecordUnselected, records[k].id)
  }

  // ---- Loading ----------------------------------------------------------------

  ghost predicate LoadBroken(s: seq<Selection>, get: string -> Fetch) {
    exists k :: 0 <= k < |s| && Broken(s[k].evidenceId, get)
  }

  ghost predicate Broken(id: string, get: string -> Fetch) {
    get(id).FetchFailed? && ClassifySelected(id, get(id).error).1
  }

  /** The audit could not be carried out, whatever it found. */
  ghost predicate Operational(m: Manifest, store: Store) {
    match store
    case NoStore => m.selections != []
    case Store(get, list) =>
      LoadBroken(m.selections, get) || (list.ListFailed? && ClassifyList(list.error).1)
  }

  // ---- All findings -----------------------------------------------------------

  ghost function Gather(n: nat, at: nat -> seq<Diagnostic>): seq<Diagnostic> {
    if n == 0 then [] else Gather(n - 1, at) + at(n - 1)
  }

  lemma {:induction false} NothingGathered(n: nat, at: nat -> seq<Diagnostic>)
    ensures Gather(n, at) == [] <==> forall k :: 0 <= k < n ==> at(k) == []
  {
    if n > 0 {
      NothingGathered(n - 1, at);
    }
  }

  ghost function SelectionsAt(s: seq<Selection>, expected: seq<ExpectedCell>): nat -> seq<Diagnostic> {
    (k: nat) => if k < |s| then SelectionFindings(s, expected, k) else []
  }

  ghost function CellsAt(s: seq<Selection>, expected: seq<ExpectedCell>): nat -> seq<Diagnostic> {
    (k: nat) => if k < |expected| then CellFindings(s, expected, k) else []
  }

  ghost function LoadsAt(s: seq<Selection>, get: string -> Fetch): nat -> seq<Diagnostic> {
    (k: nat) => if k < |s| then LoadFindings(s, get, k) else []
  }

  ghost function RecordsAt(rules: Rules, m: Manifest, expected: seq<ExpectedCell>, get: string -> Fetch): nat -> seq<Diagnostic> {
    (k: nat) => if k < |m.selections| then RecordFindings(rules, m, expected, get, k) else []
  }

  ghost function ListedAt(m: Manifest, records: seq<Record>): nat -> seq<Diagnostic> {
    (k: nat) => if k < |records| then ListedFindings(m, records, k) else []
  }

  ghost function ManifestFindings(rules: Rules, m: Manifest, expected: seq<ExpectedCell>): seq<Diagnostic> {
    HeaderFindings(rules, m, expected)
    + Gather(|m.selections|, SelectionsAt(m.selections, expected))
    + Gather(|expected|, CellsAt(m.selections, expected))
    + When(|m.selections| != |expected|, CountDiffers, "")
  }

  ghost function ListingFindings(m: Manifest, list: Listing): seq<Diagnostic> {
    match list
    case Listed(records) => Gather(|records|, ListedAt(m, records))
    case ListFailed(error) => ClassifyList(error).0
  }

  ghost function StoreFindings(rules: Rules, m: Manifest, expected: seq<ExpectedCell>, store: Store): seq<Diagnostic> {
    match store
    case NoStore => []
    case Store(get, list) =>
      Gather(|m.selections|, LoadsAt(m.selections, get))
      + Gather(|m.selections|, RecordsAt(rules, m, expected, get))
      + if LoadBroken(m.selections, get) then [] else ListingFindings(m, list)
  }

  ghost function Findings(rules: Rules, m: Manifest, expected: seq<ExpectedCell>, store: Store): seq<Diagnostic> {
    ManifestFindings(rules, m, expected) + StoreFindings(rules, m, expected, store)
  }

  // ---- What a clean audit means -------------------------------------------------

  ghost predicate AllLoaded(m: Manifest, get: string -> Fetch) {
    forall k :: 0 <= k < |m.selections| ==> get(m.selections[k].evidenceId).Loaded?
  }

  /** The stored record of each selection. */
  ghost function Stored(m: Manifest, get: string -> Fetch): seq<Record>
    requires AllLoaded(m, get)
  {
    seq(|m.selections|, k requires 0 <= k < |m.selections| => get(m.selections[k].evidenceId).record)
  }

  /** No listed record of the run set is left out of the manifest. */
  ghost predicate Exhaustive(m: Manifest, records: seq<Record>) {
    forall r <- records :: r.runSetId == m.runSetId ==> exists s <- m.selections :: s.evidenceId == r.id
  }

  /** The store holds exactly a snapshot that the manifest binds. */
  ghost predicate Accepts(rules: Rules, m: Manifest, expected: seq<ExpectedCell>, store: Store) {
    && store.Store? && store.list.Listed?
    && AllLoaded(m, store.get) && Bound(rules, m, expected, Stored(m, store.get))
    && Exhaustive(m, store.list.records)
  }

  /** The k-th selection, its cell and its stored record agree. */
  ghost predicate Agrees(rules: Rules, m: Manifest, expected: seq<ExpectedCell>, get: string -> Fetch, k: int)
    requires 0 <= k < |m.selections| == |expected|
  {
    && get(m.selections[k].evidenceId).Loaded?
    && var s, e, r := m.selections[k], expected[k], get(m.selections[k].evidenceId).record;
    && s.cell == e.cell && s.role == e.role && s == SelectionOf(r)
    && r.inputDigest == m.inputDigest && r.profile == m.profile && r.runSetId == m.runSetId
    && Matches(rules, r, e)
  }

  lemma CellsDistinct(rules: Rules, m: Manifest, expected: seq<ExpectedCell>)
    ensures ValidExpected(rules, expected) ==> forall i, j :: 0 <= i < j < |expected| ==> expected[i].cell != expected[j].cell
    ensures ValidManifest(rules, m) ==> forall i, j :: 0 <= i < j < |m.selections| ==>
      m.selections[i].cell != m.selections[j].cell && m.selections[i].evidenceId != m.selections[j].evidenceId
  {
    hide ValidSelection, ValidExpectedCell, Before;
    if ValidExpected(rules, expected) {
      forall i, j | 0 <= i < j < |expected|
        ensures expected[i].cell != expected[j].cell
      {
        assert ExpectedFits(rules, expected, j);
      }
    }
    if ValidManifest(rules, m) {
      forall i, j | 0 <= i < j < |m.selections|
        ensures m.selections[i].cell != m.selections[j].cell && m.selections[i].evidenceId != m.selections[j].evidenceId
      {
        assert SelectionFits(rules, m.selections, j);
      }
    }
  }

  lemma ReferenceClean(m: Manifest, s: Selection, r: Record)
    ensures ReferenceFindings(m, s, r) == [] <==>
      && r.id == s.evidenceId && r.contentDigest == s.contentDigest && r.runSetId == m.runSetId
      && r.inputDigest == m.inputDigest && r.profile == m.profile
  {
  }

  lemma DefinitionClean(rules: Rules, s: Selection, expected: seq<ExpectedCell>, r: Record, k: int)
    requires 0 <= k < |expected| && s.cell == expected[k].cell
    requires forall i, j :: 0 <= i < j < |expected| ==> expected[i].cell != expected[j].cell
    ensures DefinitionFindings(rules, s, expected, r) == [] <==> Matches(rules, r, expected[k])
  {
    hide Matches, AssertionsMatch, Encodable, SafeText;
    assert DefinitionFor(expected, s.cell, k);
    assert forall j :: DefinitionFor(expected, s.cell, j) ==> j == k;
    MatchesAssertions(rules, r, expected[k]);
  }

  lemma RecordClean(rules: Rules, m: Manifest, expected: seq<ExpectedCell>, get: string -> Fetch, k: nat)
    requires k < |m.selections| == |expected| && m.selections[k].cell == expected[k].cell
    requires forall i, j :: 0 <= i < j < |expected| ==> expected[i].cell != expected[j].cell
    requires forall i, j :: 0 <= i < j < |expected| ==> m.selections[i].cell != m.selections[j].cell
    requires get(m.selections[k].evidenceId).Loaded?
    ensures RecordFindings(rules, m, expected, get, k) == [] <==>
      var r := get(m.selections[k].evidenceId).record;
      && m.selections[k] == SelectionOf(r) && r.inputDigest == m.inputDigest && r.profile == m.profile
      && r.runSetId == m.runSetId && Matches(rules, r, expected[k])
  {
    hide Matches, DefinitionFindings, ReferenceFindings;
    var s, r := m.selections[k], get(m.selections[k].evidenceId).record;
    ReferenceClean(m, s, r);
    DefinitionClean(rules, s, expected, r, k);
    assert !BoundBefore(m.selections, get, k);
  }

  lemma SelectionClean(s: seq<Selection>, expected: seq<ExpectedCell>, k: nat)
    requires k < |s| && forall i, j :: 0 <= i < j < |s| ==> s[i].evidenceId != s[j].evidenceId
    ensures SelectionFindings(s, expected, k) == [] <==> exists e <- expected :: e.cell == s[k].cell
  {
  }

  /** Nothing found about a selection and its cell: they are the same cell and role. */
  lemma CellClean(s: seq<Selection>, expected: seq<ExpectedCell>, k: nat)
    requires k < |s| == |expected|
    requires forall i, j :: 0 <= i < j < |s| ==> s[i].cell != s[j].cell
    requires forall i, j :: 0 <= i < j < |s| ==> s[i].evidenceId != s[j].evidenceId
    ensures SelectionFindings(s, expected, k) == [] && CellFindings(s, expected, k) == []
       <==> s[k].cell == expected[k].cell && s[k].role == expected[k].role
  {
    hide SelectionFindings;
    assert s[k] in s && expected[k] in expected;
    SelectionClean(s, expected, k);
    if s[k].cell == expected[k].cell {
      assert FirstFor(s, expected[k].cell, k);
      assert forall first :: FirstFor(s, expected[k].cell, first) ==> first == k;
      assert !SelectedTwice(s, expected[k].cell);
    }
  }

  /** With a valid manifest and definitions, one position has no finding exactly when everything there agrees. */
  lemma PositionClean(rules: Rules, m: Manifest, expected: seq<ExpectedCell>, get: string -> Fetch, k: nat)
    requires ValidExpected(rules, expected) && ValidManifest(rules, m)
    requires k < |m.selections| == |expected|
    ensures Agrees(rules, m, expected, get, k) <==>
      && SelectionFindings(m.selections, expected, k) == [] && CellFindings(m.selections, expected, k) == []
      && get(m.selections[k].evidenceId).Loaded? && RecordFindings(rules, m, expected, get, k) == []
  {
    hide Matches, ValidExpected, ValidManifest, SelectionFindings, CellFindings, RecordFindings;
    CellsDistinct(rules, m, expected);
    CellClean(m.selections, expected, k);
    if get(m.selections[k].evidenceId).Loaded? && m.selections[k].cell == expected[k].cell {
      RecordClean(rules, m, expected, get, k);
    }
  }

  lemma MatchesAssertions(rules: Rules, r: Record, e: ExpectedCell)
    ensures Matches(rules, r, e) ==>
      AssertionsMatch(r, e) && r.status == "passed" && SafeText(rules, r) && r.cell == e.cell && r.role == e.role
  {
  }

  lemma AgreesBound(rules: Rules, m: Manifest, expected: seq<ExpectedCell>, get: string -> Fetch)
    requires ValidExpected(rules, expected) && ValidManifest(rules, m) && |m.selections| == |expected|
    ensures (AllLoaded(m, get) && Bound(rules, m, expected, Stored(m, get)))
       <==> forall k :: 0 <= k < |expected| ==> Agrees(rules, m, expected, get, k)
  {
    hide Matches, ValidExpected, ValidManifest, SelectionOf;
    if AllLoaded(m, get) {
      var records := Stored(m, get);
      forall k | 0 <= k < |expected|
        ensures BoundAt(rules, m, expected, records, k) <==> Agrees(rules, m, expected, get, k)
      {
        assert records[k] == get(m.selections[k].evidenceId).record;
      }
    } else {
      var k :| 0 <= k < |m.selections| && !get(m.selections[k].evidenceId).Loaded?;
      assert !Agrees(rules, m, expected, get, k);
    }
  }

  lemma HeaderClean(rules: Rules, m: Manifest, expected: seq<ExpectedCell>)
    ensures HeaderFindings(rules, m, expected) == [] <==>
      ValidExpected(rules, expected) && ValidManifest(rules, m) && m.profile == expected[0].profile
  {
    hide SelectionFits, ExpectedFits;
  }

  lemma SelectionsClean(s: seq<Selection>, expected: seq<ExpectedCell>)
    ensures Gather(|s|, SelectionsAt(s, expected)) == [] <==> forall k :: 0 <= k < |s| ==> SelectionFindings(s, expected, k) == []
  {
    hide SelectionFindings;
    var at := SelectionsAt(s, expected);
    NothingGathered(|s|, at);
    assert forall k :: 0 <= k < |s| ==> at(k) == SelectionFindings(s, expected, k);
  }

  lemma CellsClean(s: seq<Selection>, expected: seq<ExpectedCell>)
    ensures Gather(|expected|, CellsAt(s, expected)) == [] <==> forall k :: 0 <= k < |expected| ==> CellFindings(s, expected, k) == []
  {
    hide CellFindings;
    var at := CellsAt(s, expected);
    NothingGathered(|expected|, at);
    assert forall k :: 0 <= k < |expected| ==> at(k) == CellFindings(s, expected, k);
  }

  lemma LoadsClean(s: seq<Selection>, get: string -> Fetch)
    ensures Gather(|s|, LoadsAt(s, get)) == [] <==> forall k :: 0 <= k < |s| ==> LoadFindings(s, get, k) == []
  {
    hide LoadFindings;
    var at := LoadsAt(s, get);
    NothingGathered(|s|, at);
    assert forall k :: 0 <= k < |s| ==> at(k) == LoadFindings(s, get, k);
  }

  lemma RecordsClean(rules: Rules, m: Manifest, expected: seq<ExpectedCell>, get: string -> Fetch)
    ensures Gather(|m.selections|, RecordsAt(rules, m, expected, get)) == [] <==> forall k :: 0 <= k < |m.selections| ==> RecordFindings(rules, m, expected, get, k) == []
  {
    hide RecordFindings;
    var at := RecordsAt(rules, m, expected, get);
    NothingGathered(|m.selections|, at);
    assert forall k :: 0 <= k < |m.selections| ==> at(k) == RecordFindings(rules, m, expected, get, k);
  }

  lemma ListingClean(m: Manifest, records: seq<Record>)
    ensures Gather(|records|, ListedAt(m, records)) == [] <==> forall k :: 0 <= k < |records| ==> ListedFindings(m, records, k) == []
  {
    hide ListedFindings;
    var at := ListedAt(m, records);
    NothingGathered(|records|, at);
    assert forall k :: 0 <= k < |records| ==> at(k) == ListedFindings(m, records, k);
  }

  /** Nothing is wrong with a manifest on its own exactly when it selects the expected cells in order. */
  lemma ManifestClean(rules: Rules, m: Manifest, expected: seq<ExpectedCell>)
    ensures ManifestFindings(rules, m, expected) == [] <==>
      && ValidExpected(rules, expected) && ValidManifest(rules, m) && m.profile == expected[0].profile
      && |m.selections| == |expected|
      && forall k :: 0 <= k < |expected| ==>
        SelectionFindings(m.selections, expected, k) == [] && CellFindings(m.selections, expected, k) == []
  {
    hide HeaderFindings, SelectionFindings, CellFindings, ValidManifest, ExpectedFits, SelectionsAt, CellsAt, Gather;
    HeaderClean(rules, m, expected);
    SelectionsClean(m.selections, expected);
    CellsClean(m.selections, expected);
  }

  /** Nothing is wrong in the store. */
  lemma StoreClean(rules: Rules, m: Manifest, expected: seq<ExpectedCell>, store: Store)
    requires store.Store?
    ensures StoreFindings(rules, m, expected, store) == [] && !Operational(m, store) <==>
      && AllLoaded(m, store.get) && store.list.Listed? && Exhaustive(m, store.list.records)
      && forall k :: 0 <= k < |m.selections| ==> RecordFindings(rules, m, expected, store.get, k) == []
  {
    hide RecordFindings, LoadFindings, LoadBroken, Exhaustive, ListedFindings, LoadsAt, RecordsAt, ListedAt, Gather;
    var s, get := m.selections, store.get;
    LoadsClean(s, get);
    RecordsClean(rules, m, expected, get);
    LoadClean(m, get);
    if store.list.Listed? {
      ListingClean(m, store.list.records);
      ListedClean(m, store.list.records);
    }
  }

  lemma LoadClean(m: Manifest, get: string -> Fetch)
    ensures AllLoaded(m, get) <==>
      && !LoadBroken(m.selections, get)
      && forall k :: 0 <= k < |m.selections| ==> LoadFindings(m.selections, get, k) == []
  {
    var s := m.selections;
    if !AllLoaded(m, get) {
      var k :| 0 <= k < |s| && get(s[k].evidenceId).FetchFailed?;
      assert LoadFindings(s, get, k) != [] || Broken(s[k].evidenceId, get);
    }
  }

  lemma ListedClean(m: Manifest, records: seq<Record>)
    ensures Exhaustive(m, records) <==> forall k :: 0 <= k < |records| ==> ListedFindings(m, records, k) == []
  {
    forall k | 0 <= k < |records|
      ensures ListedFindings(m, records, k) == [] <==>
        (records[k].runSetId == m.runSetId ==> exists s <- m.selections :: s.evidenceId == records[k].id)
    {
    }
    assert forall r :: r in records <==> exists k :: 0 <= k < |records| && records[k] == r;
  }

  /** The audit finds nothing, and can be carried out, exactly when the store holds the bound snapshot. */
  lemma CleanExactly(rules: Rules, m: Manifest, expected: seq<ExpectedCell>, store: Store)
    ensures Findings(rules, m, expected, store) == [] && !Operational(m, store)
       <==> Accepts(rules, m, expected, store)
  {
    hide Matches, ValidExpected, SelectionFits, ManifestFindings, StoreFindings, Agrees, RecordFindings, CellFindings, SelectionFindings;
    ManifestClean(rules, m, expected);
    if store.Store? {
      StoreClean(rules, m, expected, store);
      if ValidExpected(rules, expected) && ValidManifest(rules, m) && |m.selections| == |expected| {
        AgreesBound(rules, m, expected, store.get);
        ProfileAgrees(rules, m, expected, store.get);
        forall k | 0 <= k < |expected|
          ensures Agrees(rules, m, expected, store.get, k) <==>
            && SelectionFindings(m.selections, expected, k) == [] && CellFindings(m.selections, expected, k) == []
            && store.get(m.selections[k].evidenceId).Loaded? && RecordFindings(rules, m, expected, store.get, k) == []
        {
          PositionClean(rules, m, expected, store.get, k);
        }
      }
    }
  }

  lemma ProfileAgrees(rules: Rules, m: Manifest, expected: seq<ExpectedCell>, get: string -> Fetch)
    requires ValidExpected(rules, expected) && |m.selections| == |expected|
    ensures (forall k :: 0 <= k < |expected| ==> Agrees(rules, m, expected, get, k)) ==> m.profile == expected[0].profile
  {
    if forall k :: 0 <= k < |expected| ==> Agrees(rules, m, expected, get, k) {
      assert Agrees(rules, m, expected, get, 0);
    }
  }

  // ---- When each diagnostic is warranted -----------------------------------------------

  /** Some selection names this record, and loading it fails, though not by cancellation. */
  ghost predicate SelectedButFails(m: Manifest, store: Store, id: string) {
    && store.Store? && (exists x <- m.selections :: x.evidenceId == id)
    && store.get(id).FetchFailed? && !store.get(id).error.canceled
  }

  /** The store can be used, and no selected record fails to load for a reason of the store's own. */
  ghost predicate LoadsThrough(m: Manifest, store: Store) {
    && store.Store?
    && forall x <- m.selections :: store.get(x.evidenceId).FetchFailed? ==>
      var e := store.get(x.evidenceId).error; !e.canceled && !e.io && (e.unusable || e.notFound)
  }

  /** `e` is the last definition listed for the cell. */
  ghost predicate LastFor(expected: seq<ExpectedCell>, cell: CellKey, e: ExpectedCell) {
    exists j :: 0 <= j < |expected| && expected[j] == e && e.cell == cell && forall i :: j < i < |expected| ==> expected[i].cell != cell
  }

  /** What is wrong with the manifest and the definitions as a whole. */
  ghost predicate HeaderWarrants(rules: Rules, m: Manifest, expected: seq<ExpectedCell>, d: Diagnostic) {
    d.entity == "" &&
    match d.kind
    case DefinitionsInvalid => !ValidExpected(rules, expected)
    case ManifestInvalid => !ValidManifest(rules, m)
    case ProfileDiffers => expected != [] && m.profile != expected[0].profile
    case InputDigestInvalid => !rules.digest(m.inputDigest)
    case CountDiffers => |m.selections| != |expected|
    case _ => false
  }

  /** What is wrong with the k-th selection on its own. */
  ghost predicate SelectionWarrants(s: seq<Selection>, expected: seq<ExpectedCell>, k: nat, d: Diagnostic)
    requires k < |s|
  {
    match d.kind
    case EvidenceReused => s[k].evidenceId == d.entity && exists i :: 0 <= i < k && s[i].evidenceId == s[k].evidenceId
    case CellUnknown => s[k].cell.labId == d.entity && forall e <- expected :: e.cell != s[k].cell
    case _ => false
  }

  /** What is wrong with how the k-th expected cell is selected. */
  ghost predicate CellWarrants(s: seq<Selection>, expected: seq<ExpectedCell>, k: nat, d: Diagnostic)
    requires k < |expected|
  {
    var e := expected[k];
    e.cell.labId == d.entity &&
    match d.kind
    case CellMissing => forall x <- s :: x.cell != e.cell
    case CellSelectedTwice => exists i, j :: 0 <= i < j < |s| && s[i].cell == e.cell && s[j].cell == e.cell
    case SelectionRoleDiffers =>
      exists i :: 0 <= i < |s| && s[i].cell == e.cell && s[i].role != e.role && forall j :: 0 <= j < i ==> s[j].cell != e.cell
    case OrderDiffers => (exists x <- s :: x.cell == e.cell) && (k >= |s| || s[k].cell != e.cell || s[k].role != e.role)
    case _ => false
  }

  /** What is wrong with getting the records out of the store. */
  ghost predicate StoreWarrants(m: Manifest, store: Store, d: Diagnostic) {
    match d.kind
    case EvidenceUnusable => SelectedButFails(m, store, d.entity) && store.get(d.entity).error.unusable
    case EvidenceMissing => SelectedButFails(m, store, d.entity) && !store.get(d.entity).error.unusable && store.get(d.entity).error.notFound
    case HistoryUnusable =>
      && d.entity == "" && LoadsThrough(m, store)
      && store.list.ListFailed? && !store.list.error.canceled && store.list.error.unusable
    case RecordUnselected =>
      && LoadsThrough(m, store) && store.list.Listed?
      && (exists r <- store.list.records ::
            r.id == d.entity && r.runSetId == m.runSetId && forall x <- m.selections :: x.evidenceId != r.id)
    case CellBoundTwice =>
      && store.Store?
      && (exists i, k :: 0 <= i < k < |m.selections| && m.selections[k].evidenceId == d.entity
            && m.selections[i].cell == m.selections[k].cell
            && store.get(m.selections[i].evidenceId).Loaded? && store.get(d.entity).Loaded?)
    case _ => false
  }

  /** What is wrong with a selection's record. */
  ghost predicate Mismatch(rules: Rules, m: Manifest, expected: seq<ExpectedCell>, x: Selection, r: Record, d: Diagnostic) {
    match d.kind
    case RecordIdDiffers => r.id != x.evidenceId
    case ContentDigestDiffers => r.contentDigest != x.contentDigest
    case RunSetDiffers => r.runSetId != m.runSetId
    case InputDigestDiffers => r.inputDigest != m.inputDigest
    case RecordProfileDiffers => r.profile != m.profile
    case StatusNotPassed => r.status != "passed"
    case AssertionsDiffer => (exists e <- expected :: LastFor(expected, x.cell, e) && !AssertionsMatch(r, e))
    case TextNotPortable =>
      && (exists e <- expected :: LastFor(expected, x.cell, e) && !Matches(rules, r, e))
      && Encodable(rules, r) && !SafeText(rules, r)
    case DefinitionDiffers =>
      && (exists e <- expected :: LastFor(expected, x.cell, e) && !Matches(rules, r, e))
      && !(Encodable(rules, r) && !SafeText(rules, r))
    case RecordCellDiffers => (r.cell != x.cell || r.role != x.role)
    case _ => false
  }

  /** Some selection's record was loaded and is wrong in this way. */
  ghost predicate RecordWarrants(rules: Rules, m: Manifest, expected: seq<ExpectedCell>, store: Store, d: Diagnostic) {
    && store.Store? && store.get(d.entity).Loaded?
    && exists x <- m.selections :: x.evidenceId == d.entity && Mismatch(rules, m, expected, x, store.get(d.entity).record, d)
  }

  /** The diagnostic says something that is so. */
  ghost predicate Warranted(rules: Rules, m: Manifest, expected: seq<ExpectedCell>, store: Store, d: Diagnostic) {
    || HeaderWarrants(rules, m, expected, d)
    || (exists k: nat :: k < |m.selections| && SelectionWarrants(m.selections, expected, k, d))
    || (exists k: nat :: k < |expected| && CellWarrants(m.selections, expected, k, d))
    || StoreWarrants(m, store, d)
    || RecordWarrants(rules, m, expected, store, d)
  }

  lemma {:induction false} InGather(n: nat, at: nat -> seq<Diagnostic>, d: Diagnostic)
    ensures d in Gather(n, at) <==> exists k :: 0 <= k < n && d in at(k)
  {
    if n > 0 {
      InGather(n - 1, at, d);
    }
  }

  lemma InManifestFindings(rules: Rules, m: Manifest, expected: seq<ExpectedCell>, d: Diagnostic)
    ensures d in ManifestFindings(rules, m, expected) <==>
      || d in HeaderFindings(rules, m, expected)
      || (exists k: nat :: k < |m.selections| && d in SelectionFindings(m.selections, expected, k))
      || (exists k: nat :: k < |expected| && d in CellFindings(m.selections, expected, k))
      || (|m.selections| != |expected| && d == Diagnostic(CountDiffers, ""))
  {
    hide Gather, HeaderFindings, SelectionFindings, CellFindings;
    var s := m.selections;
    InGather(|s|, SelectionsAt(s, expected), d);
    InGather(|expected|, CellsAt(s, expected), d);
    forall k: nat
      ensures k < |s| ==> SelectionsAt(s, expected)(k) == SelectionFindings(s, expected, k)
      ensures k < |expected| ==> CellsAt(s, expected)(k) == CellFindings(s, expected, k)
    {
    }
  }

  lemma InStoreFindings(rules: Rules, m: Manifest, expected: seq<ExpectedCell>, store: Store, d: Diagnostic)
    ensures d in StoreFindings(rules, m, expected, store) <==>
      && store.Store?
      && (|| (exists k: nat :: k < |m.selections| && d in LoadFindings(m.selections, store.get, k))
          || (exists k: nat :: k < |m.selections| && d in RecordFindings(rules, m, expected, store.get, k))
          || (!LoadBroken(m.selections, store.get) && d in ListingFindings(m, store.list)))
  {
    hide Gather, LoadFindings, RecordFindings, ListingFindings, LoadBroken;
    if store.Store? {
      var s, get := m.selections, store.get;
      InGather(|s|, LoadsAt(s, get), d);
      InGather(|s|, RecordsAt(rules, m, expected, get), d);
      forall k: nat | k < |s|
        ensures LoadsAt(s, get)(k) == LoadFindings(s, get, k)
        ensures RecordsAt(rules, m, expected, get)(k) == RecordFindings(rules, m, expected, get, k)
      {
      }
    }
  }

  lemma ManifestFound(rules: Rules, m: Manifest, expected: seq<ExpectedCell>, d: Diagnostic)
    ensures d in ManifestFindings(rules, m, expected) <==>
      || HeaderWarrants(rules, m, expected, d)
      || (exists k: nat :: k < |m.selections| && SelectionWarrants(m.selections, expected, k, d))
      || (exists k: nat :: k < |expected| && CellWarrants(m.selections, expected, k, d))
  {
    hide ManifestFindings, SelectionFindings, CellFindings, HeaderFindings, HeaderWarrants, SelectionWarrants, CellWarrants;
    var s := m.selections;
    InManifestFindings(rules, m, expected, d);
    HeaderFound(rules, m, expected, d);
    forall k: nat | k < |s|
      ensures d in SelectionFindings(s, expected, k) <==> SelectionWarrants(s, expected, k, d)
    {
      SelectionFound(s, expected, k, d);
    }
    forall k: nat | k < |expected|
      ensures d in CellFindings(s, expected, k) <==> CellWarrants(s, expected, k, d)
    {
      CellFound(s, expected, k, d);
    }
  }

  lemma HeaderFound(rules: Rules, m: Manifest, expected: seq<ExpectedCell>, d: Diagnostic)
    ensures HeaderWarrants(rules, m, expected, d) <==>
      || d in HeaderFindings(rules, m, expected)
      || (|m.selections| != |expected| && d == Diagnostic(CountDiffers, ""))
  {
    hide ValidExpected, ValidManifest;
  }

  lemma SelectionFound(s: seq<Selection>, expected: seq<ExpectedCell>, k: nat, d: Diagnostic)
    requires k < |s|
    ensures d in SelectionFindings(s, expected, k) <==> SelectionWarrants(s, expected, k, d)
  {
  }

  lemma InWhen(condition: bool, kind: Kind, entity: string, d: Diagnostic)
    ensures d in When(condition, kind, entity) <==> condition && d == Diagnostic(kind, entity)
  {
  }

  lemma CellFound(s: seq<Selection>, expected: seq<ExpectedCell>, k: nat, d: Diagnostic)
    requires k < |expected|
    ensures d in CellFindings(s, expected, k) <==> CellWarrants(s, expected, k, d)
  {
    hide When;
    var e := expected[k];
    if exists x <- s :: x.cell == e.cell {
      var roleDiffers := exists first :: FirstFor(s, e.cell, first) && s[first].role != e.role;
      FirstRole(s, e);
      InWhen(SelectedTwice(s, e.cell), CellSelectedTwice, e.cell.labId, d);
      InWhen(roleDiffers, SelectionRoleDiffers, e.cell.labId, d);
      InWhen(k >= |s| || s[k].cell != e.cell || s[k].role != e.role, OrderDiffers, e.cell.labId, d);
    }
  }

  lemma FirstRole(s: seq<Selection>, e: ExpectedCell)
    ensures (exists first :: FirstFor(s, e.cell, first) && s[first].role != e.role) <==>
      exists i :: 0 <= i < |s| && s[i].cell == e.cell && s[i].role != e.role && forall j :: 0 <= j < i ==> s[j].cell != e.cell
  {
    if i :| 0 <= i < |s| && s[i].cell == e.cell && s[i].role != e.role && forall j :: 0 <= j < i ==> s[j].cell != e.cell {
      assert FirstFor(s, e.cell, i);
    }
  }

  lemma LoadsThroughExactly(m: Manifest, store: Store)
    requires store.Store?
    ensures LoadsThrough(m, store) <==> !LoadBroken(m.selections, store.get)
  {
    var s := m.selections;
    if !LoadBroken(s, store.get) {
      forall x | x in s && store.get(x.evidenceId).FetchFailed?
        ensures var e := store.get(x.evidenceId).error; !e.canceled && !e.io && (e.unusable || e.notFound)
      {
        var k :| 0 <= k < |s| && s[k] == x;
        assert !Broken(s[k].evidenceId, store.get);
      }
    }
    if k :| 0 <= k < |s| && Broken(s[k].evidenceId, store.get) {
      assert s[k] in s;
    }
  }

  predicate AboutLoads(kind: Kind) {
    kind.EvidenceUnusable? || kind.EvidenceMissing?
  }

  predicate AboutListing(kind: Kind) {
    kind.HistoryUnusable? || kind.RecordUnselected?
  }

  lemma LoadFound(m: Manifest, store: Store, d: Diagnostic)
    requires store.Store?
    ensures (exists k: nat :: k < |m.selections| && d in LoadFindings(m.selections, store.get, k))
       <==> AboutLoads(d.kind) && StoreWarrants(m, store, d)
  {
    var s := m.selections;
    forall k: nat | k < |s|
      ensures d in LoadFindings(s, store.get, k) <==>
        s[k].evidenceId == d.entity && AboutLoads(d.kind) && StoreWarrants(m, store, d)
    {
      assert s[k] in s;
    }
    if AboutLoads(d.kind) && StoreWarrants(m, store, d) {
      var x :| x in s && x.evidenceId == d.entity;
      var k: nat :| k < |s| && s[k] == x;
      assert d in LoadFindings(s, store.get, k);
    }
  }

  lemma ListingFound(m: Manifest, store: Store, d: Diagnostic)
    requires store.Store?
    ensures !LoadBroken(m.selections, store.get) && d in ListingFindings(m, store.list)
       <==> AboutListing(d.kind) && StoreWarrants(m, store, d)
  {
    hide LoadBroken, LoadsThrough, Gather;
    LoadsThroughExactly(m, store);
    if store.list.Listed? {
      var records := store.list.records;
      InGather(|records|, ListedAt(m, records), d);
      forall k: nat | k < |records|
        ensures d in ListedAt(m, records)(k) <==>
          && d.kind.RecordUnselected? && records[k].id == d.entity
          && records[k].runSetId == m.runSetId && forall x <- m.selections :: x.evidenceId != records[k].id
      {
      }
    }
  }

  lemma ReferenceFound(rules: Rules, m: Manifest, expected: seq<ExpectedCell>, s: Selection, r: Record, d: Diagnostic)
    ensures d in ReferenceFindings(m, s, r) <==>
      && d.entity == s.evidenceId && Mismatch(rules, m, expected, s, r, d)
      && (d.kind.RecordIdDiffers? || d.kind.ContentDigestDiffers? || d.kind.RunSetDiffers?
          || d.kind.InputDigestDiffers? || d.kind.RecordProfileDiffers?)
  {
    hide When, Matches, AssertionsMatch, Encodable, SafeText, LastFor;
    InWhen(r.id != s.evidenceId, RecordIdDiffers, s.evidenceId, d);
    InWhen(r.contentDigest != s.contentDigest, ContentDigestDiffers, s.evidenceId, d);
    InWhen(r.runSetId != m.runSetId, RunSetDiffers, s.evidenceId, d);
    InWhen(r.inputDigest != m.inputDigest, InputDigestDiffers, s.evidenceId, d);
    InWhen(r.profile != m.profile, RecordProfileDiffers, s.evidenceId, d);
  }

  lemma DefinitionFound(rules: Rules, m: Manifest, expected: seq<ExpectedCell>, s: Selection, r: Record, d: Diagnostic)
    ensures d in DefinitionFindings(rules, s, expected, r) <==>
      && d.entity == s.evidenceId && Mismatch(rules, m, expected, s, r, d)
      && (d.kind.StatusNotPassed? || d.kind.AssertionsDiffer? || d.kind.TextNotPortable? || d.kind.DefinitionDiffers?)
  {
    hide When, Matches, AssertionsMatch, Encodable, SafeText;
    var assertionsDiffer := exists j :: DefinitionFor(expected, s.cell, j) && !AssertionsMatch(r, expected[j]);
    InWhen(r.status != "passed", StatusNotPassed, s.evidenceId, d);
    InWhen(assertionsDiffer, AssertionsDiffer, s.evidenceId, d);
    LastDefinition(rules, expected, s, r);
  }

  lemma LastDefinition(rules: Rules, expected: seq<ExpectedCell>, s: Selection, r: Record)
    ensures (exists j :: DefinitionFor(expected, s.cell, j) && !AssertionsMatch(r, expected[j]))
       <==> exists e <- expected :: LastFor(expected, s.cell, e) && !AssertionsMatch(r, e)
    ensures Unmatched(rules, s, expected, r) <==> exists e <- expected :: LastFor(expected, s.cell, e) && !Matches(rules, r, e)
  {
    hide Matches, AssertionsMatch;
    forall j | DefinitionFor(expected, s.cell, j)
      ensures expected[j] in expected && LastFor(expected, s.cell, expected[j])
    {
    }
    forall e | LastFor(expected, s.cell, e)
      ensures exists j :: DefinitionFor(expected, s.cell, j) && expected[j] == e
    {
      var j :| 0 <= j < |expected| && expected[j] == e && forall i :: j < i < |expected| ==> expected[i].cell != s.cell;
      assert DefinitionFor(expected, s.cell, j);
    }
  }

  lemma RecordFound(rules: Rules, m: Manifest, expected: seq<ExpectedCell>, get: string -> Fetch, k: nat, d: Diagnostic)
    requires k < |m.selections|
    ensures d in RecordFindings(rules, m, expected, get, k) <==>
      && m.selections[k].evidenceId == d.entity && get(d.entity).Loaded?
      && (|| Mismatch(rules, m, expected, m.selections[k], get(d.entity).record, d)
          || (d.kind.CellBoundTwice? && BoundBefore(m.selections, get, k)))
  {
    hide When, ReferenceFindings, DefinitionFindings, BoundBefore, LastFor, Matches, AssertionsMatch, Encodable, SafeText;
    var s := m.selections[k];
    if get(s.evidenceId).Loaded? {
      var r := get(s.evidenceId).record;
      ReferenceFound(rules, m, expected, s, r, d);
      DefinitionFound(rules, m, expected, s, r, d);
      InWhen(r.cell != s.cell || r.role != s.role, RecordCellDiffers, s.evidenceId, d);
      InWhen(BoundBefore(m.selections, get, k), CellBoundTwice, s.evidenceId, d);
    }
  }

  lemma RecordsFound(rules: Rules, m: Manifest, expected: seq<ExpectedCell>, store: Store, d: Diagnostic)
    requires store.Store?
    ensures (exists k: nat :: k < |m.selections| && d in RecordFindings(rules, m, expected, store.get, k)) <==>
      || RecordWarrants(rules, m, expected, store, d)
      || (d.kind.CellBoundTwice? && StoreWarrants(m, store, d))
  {
    hide RecordFindings, Mismatch, BoundBefore;
    var s, get := m.selections, store.get;
    forall k: nat | k < |s|
      ensures d in RecordFindings(rules, m, expected, get, k) <==>
        && s[k].evidenceId == d.entity && get(d.entity).Loaded?
        && (|| Mismatch(rules, m, expected, s[k], get(d.entity).record, d)
            || (d.kind.CellBoundTwice? && BoundBefore(s, get, k)))
    {
      RecordFound(rules, m, expected, get, k, d);
      assert s[k] in s;
    }
    BoundTwice(m, store, d);
    if RecordWarrants(rules, m, expected, store, d) {
      var x :| x in s && x.evidenceId == d.entity && Mismatch(rules, m, expected, x, get(d.entity).record, d);
      var k: nat :| k < |s| && s[k] == x;
      assert d in RecordFindings(rules, m, expected, get, k);
    }
  }

  lemma BoundTwice(m: Manifest, store: Store, d: Diagnostic)
    requires store.Store?
    ensures d.kind.CellBoundTwice? ==>
      (StoreWarrants(m, store, d) <==>
        exists k: nat ::
          && k < |m.selections| && m.selections[k].evidenceId == d.entity && store.get(d.entity).Loaded?
          && BoundBefore(m.selections, store.get, k))
  {
    var s, get := m.selections, store.get;
    if d.kind.CellBoundTwice? && StoreWarrants(m, store, d) {
      var i, k :| 0 <= i < k < |s| && s[k].evidenceId == d.entity && s[i].cell == s[k].cell
        && get(s[i].evidenceId).Loaded? && get(d.entity).Loaded?;
      assert BoundBefore(s, get, k);
    }
  }

  /** The audit reports exactly what is so: every diagnostic is warranted, and everything wrong is reported. */
  lemma FoundExactly(rules: Rules, m: Manifest, expected: seq<ExpectedCell>, store: Store, d: Diagnostic)
    ensures d in Findings(rules, m, expected, store) <==> Warranted(rules, m, expected, store, d)
  {
    hide ManifestFindings, StoreFindings, HeaderWarrants, SelectionWarrants, CellWarrants, RecordWarrants;
    hide LoadFindings, RecordFindings, ListingFindings, LoadBroken;
    ManifestFound(rules, m, expected, d);
    InStoreFindings(rules, m, expected, store, d);
    NoStoreWarrants(rules, m, expected, store, d);
    if store.Store? {
      LoadFound(m, store, d);
      RecordsFound(rules, m, expected, store, d);
      ListingFound(m, store, d);
    }
  }

  lemma NoStoreWarrants(rules: Rules, m: Manifest, expected: seq<ExpectedCell>, store: Store, d: Diagnostic)
    ensures StoreWarrants(m, store, d) ==> store.Store?
    ensures StoreWarrants(m, store, d) ==> AboutLoads(d.kind) || AboutListing(d.kind) || d.kind.CellBoundTwice?
    ensures RecordWarrants(rules, m, expected, store, d) ==> store.Store?
  {
  }

  // ---- What is printed -----------------------------------------------------------------

  predicate Prints(kind: Kind, code: string, message: string) {
    Code(kind) == code && Message(kind) == message
  }

  /** How diagnostics about the manifest and the definitions as a whole are printed. */
  lemma HeaderLabels()
    ensures Prints(DefinitionsInvalid, "release_definition_mismatch", "expected experiment definitions are invalid")
    ensures Prints(ManifestInvalid, "release_manifest_invalid", "release manifest is structurally invalid")
    ensures Prints(ProfileDiffers, "release_profile_mismatch", "manifest profile differs from expected profile")
    ensures Prints(InputDigestInvalid, "release_input_digest_mismatch", "manifest input digest is invalid")
    ensures Prints(CountDiffers, "release_selection_order_mismatch", "selection count differs from expected matrix count")
  {
    hide SelectionMessage, StoreMessage, ReferenceMessage, DefinitionMessage;
  }

  /** How diagnostics about what is selected are printed. */
  lemma SelectionLabels()
    ensures Prints(EvidenceReused, "release_evidence_reused", "one evidence ID is selected more than once")
    ensures Prints(CellUnknown, "release_cell_mismatch", "manifest selection does not match an expected six-field cell")
    ensures Prints(CellMissing, "release_cell_missing", "expected cell is absent from the manifest")
    ensures Prints(CellSelectedTwice, "release_cell_duplicate", "expected cell is selected more than once")
    ensures Prints(SelectionRoleDiffers, "release_cell_mismatch", "selection role differs from the expected role")
    ensures Prints(OrderDiffers, "release_selection_order_mismatch", "selection order differs from deterministic matrix order")
  {
    hide HeaderMessage, StoreMessage, ReferenceMessage, DefinitionMessage;
  }

  /** How diagnostics about what the store holds are printed. */
  lemma StoreLabels()
    ensures Prints(EvidenceUnusable, "release_evidence_invalid", "selected evidence record is invalid or unsafe")
    ensures Prints(EvidenceMissing, "release_evidence_missing", "selected evidence record is missing")
    ensures Prints(HistoryUnusable, "release_evidence_invalid", "evidence history cannot be classified safely")
    ensures Prints(RecordUnselected, "release_cell_duplicate", "unselected evidence record belongs to the manifest run set")
    ensures Prints(CellBoundTwice, "release_cell_duplicate", "multiple selected records bind the same cell")
  {
    hide HeaderMessage, SelectionMessage, ReferenceMessage, DefinitionMessage;
  }

  /** How diagnostics about a record and its reference are printed. */
  lemma ReferenceLabels()
    ensures Prints(RecordIdDiffers, "release_evidence_invalid", "selected record ID differs from the manifest")
    ensures Prints(ContentDigestDiffers, "release_content_digest_mismatch", "selected record content digest differs from the manifest")
    ensures Prints(RunSetDiffers, "release_run_set_mismatch", "selected record run-set ID differs from the manifest")
    ensures Prints(InputDigestDiffers, "release_input_digest_mismatch", "selected record input digest differs from the manifest")
    ensures Prints(RecordProfileDiffers, "release_profile_mismatch", "selected record profile differs from the manifest")
  {
    hide HeaderMessage, SelectionMessage, StoreMessage, DefinitionMessage;
  }

  /** How diagnostics about a record and its definition are printed. */
  lemma DefinitionLabels()
    ensures Prints(StatusNotPassed, "release_status_not_passed", "selected record status is not passed")
    ensures Prints(AssertionsDiffer, "release_assertion_mismatch", "selected record assertions differ from the expected ordered passed set")
    ensures Prints(TextNotPortable, "release_evidence_invalid", "selected record contains non-portable dynamic text")
    ensures Prints(DefinitionDiffers, "release_definition_mismatch", "selected record differs from its expected experiment definition")
    ensures Prints(RecordCellDiffers, "release_cell_mismatch", "selected record cell or role differs from the manifest")
  {
    hide HeaderMessage, SelectionMessage, StoreMessage, ReferenceMessage;
  }

  /** What the printed audit says about records it could not load, and about a history it could not read. */
  lemma StorePrints(rules: Rules, m: Manifest, expected: seq<ExpectedCell>, store: Store, diagnostics: seq<Diagnostic>, id: string)
    requires forall d :: d in diagnostics <==> Warranted(rules, m, expected, store, d)
    ensures Diagnostic(EvidenceMissing, id) in diagnostics
            && Prints(EvidenceMissing, "release_evidence_missing", "selected evidence record is missing") <==>
      SelectedButFails(m, store, id) && !store.get(id).error.unusable && store.get(id).error.notFound
    ensures Diagnostic(EvidenceUnusable, id) in diagnostics
            && Prints(EvidenceUnusable, "release_evidence_invalid", "selected evidence record is invalid or unsafe") <==>
      SelectedButFails(m, store, id) && store.get(id).error.unusable
    ensures Diagnostic(HistoryUnusable, id) in diagnostics
            && Prints(HistoryUnusable, "release_evidence_invalid", "evidence history cannot be classified safely") <==>
      && id == "" && LoadsThrough(m, store)
      && store.list.ListFailed? && !store.list.error.canceled && store.list.error.unusable
  {
    hide Prints, SelectedButFails, LoadsThrough, Warranted;
    StoreLabels();
    StoreKinds(rules, m, expected, store, id);
  }

  lemma StoreKinds(rules: Rules, m: Manifest, expected: seq<ExpectedCell>, store: Store, id: string)
    ensures Warranted(rules, m, expected, store, Diagnostic(EvidenceMissing, id)) <==>
      SelectedButFails(m, store, id) && !store.get(id).error.unusable && store.get(id).error.notFound
    ensures Warranted(rules, m, expected, store, Diagnostic(EvidenceUnusable, id)) <==>
      SelectedButFails(m, store, id) && store.get(id).error.unusable
    ensures Warranted(rules, m, expected, store, Diagnostic(HistoryUnusable, id)) <==>
      && id == "" && LoadsThrough(m, store)
      && store.list.ListFailed? && !store.list.error.canceled && store.list.error.unusable
  {
    hide SelectedButFails, LoadsThrough;
  }

  /** The audit could not be carried out exactly if a load or the listing was cancelled or failed for a reason unknown here. */
  lemma OperationalExactly(m: Manifest, store: Store)
    ensures Operational(m, store) <==>
      if store.NoStore? then m.selections != []
      else !LoadsThrough(m, store)
           || (store.list.ListFailed? && (store.list.error.canceled || store.list.error.io || !store.list.error.unusable))
  {
    if store.Store? {
      LoadsThroughExactly(m, store);
    }
  }

  // ---- The audit itself ---------------------------------------------------------

  predicate DiagnosticLess(a: Diagnostic, b: Diagnostic) {
    if Code(a.kind) != Code(b.kind) then Less(Code(a.kind), Code(b.kind))
    else if a.entity != b.entity then Less(a.entity, b.entity)
    else Less(Message(a.kind), Message(b.kind))
  }

  lemma DiagnosticOrder()
    ensures StrictWeakOrder(DiagnosticLess)
  {
    hide Less, Code, Message;
    LessIsStrictWeakOrder();
    forall x: string, y: string
      ensures Less(x, y) || x == y || Less(y, x)
    {
      LessTrichotomy(x, y);
    }
  }

  /** `byKey` finds the definition for each expected cell. */
  ghost predicate Defines(byKey: map<CellKey, ExpectedCell>, expected: seq<ExpectedCell>) {
    && (forall c :: c in byKey <==> exists e <- expected :: e.cell == c)
    && (forall c :: c in byKey ==> exists j :: DefinitionFor(expected, c, j) && expected[j] == byKey[c])
  }

  method DefinitionsByCell(expected: seq<ExpectedCell>) returns (byKey: map<CellKey, ExpectedCell>)
    ensures Defines(byKey, expected)
  {
    byKey := map[];
    for index := 0 to |expected|
      invariant Defines(byKey, expected[..index])
    {
      assert expected[..index + 1] == expected[..index] + [expected[index]];
      DefinesSnoc(byKey, expected[..index], expected[index]);
      byKey := byKey[expected[index].cell := expected[index]];
    }
    assert expected[..|expected|] == expected;
  }

  lemma DefinesSnoc(byKey: map<CellKey, ExpectedCell>, expected: seq<ExpectedCell>, e: ExpectedCell)
    requires Defines(byKey, expected)
    ensures Defines(byKey[e.cell := e], expected + [e])
  {
    var next, key := expected + [e], byKey[e.cell := e];
    assert forall x :: x in next <==> x in expected || x == e;
    forall c | c in key
      ensures exists j :: DefinitionFor(next, c, j) && next[j] == key[c]
    {
      if c == e.cell {
        assert DefinitionFor(next, c, |expected|);
      } else {
        var j :| DefinitionFor(expected, c, j) && expected[j] == byKey[c];
        assert DefinitionFor(next, c, j);
      }
    }
  }

  lemma DefinedFor(byKey: map<CellKey, ExpectedCell>, expected: seq<ExpectedCell>, cell: CellKey)
    requires Defines(byKey, expected)
    ensures cell in byKey <==> exists j :: DefinitionFor(expected, cell, j)
    ensures forall j :: DefinitionFor(expected, cell, j) ==>
      0 <= j < |expected| && cell in byKey && expected[j] == byKey[cell]
  {
    forall j | DefinitionFor(expected, cell, j)
      ensures cell in byKey && expected[j] == byKey[cell]
    {
      assert expected[j] in expected;
      var i :| DefinitionFor(expected, cell, i) && expected[i] == byKey[cell];
    }
  }

  /** The selections of one cell, in manifest order. */
  ghost function SelectionsFor(s: seq<Selection>, cell: CellKey): seq<Selection> {
    if s == [] then []
    else
      var earlier := SelectionsFor(s[..|s| - 1], cell);
      if s[|s| - 1].cell == cell then earlier + [s[|s| - 1]] else earlier
  }

  ghost predicate Groups(groups: map<CellKey, seq<Selection>>, s: seq<Selection>) {
    forall c :: (c in groups <==> SelectionsFor(s, c) != []) && (c in groups ==> groups[c] == SelectionsFor(s, c))
  }

  lemma GroupsSnoc(groups: map<CellKey, seq<Selection>>, s: seq<Selection>, x: Selection)
    requires Groups(groups, s)
    ensures var earlier := if x.cell in groups then groups[x.cell] else [];
      Groups(groups[x.cell := earlier + [x]], s + [x])
  {
    var next := s + [x];
    assert next[..|next| - 1] == s && next[|next| - 1] == x;
  }

  /** Whether a cell is selected, and by which selection first. */
  lemma {:induction false} SelectionsForFirst(s: seq<Selection>, cell: CellKey)
    ensures SelectionsFor(s, cell) == [] <==> forall x <- s :: x.cell != cell
    ensures forall i :: FirstFor(s, cell, i) ==> SelectionsFor(s, cell) != [] && SelectionsFor(s, cell)[0] == s[i]
    ensures SelectionsFor(s, cell) != [] ==> exists i :: FirstFor(s, cell, i)
  {
    if s != [] {
      var init, n := s[..|s| - 1], |s| - 1;
      SelectionsForFirst(init, cell);
      assert s == init + [s[n]];
      assert forall i :: 0 <= i < n ==> s[i] == init[i] && s[i] in init;
      assert forall i :: 0 <= i < n ==> (FirstFor(s, cell, i) <==> FirstFor(init, cell, i));
      if SelectionsFor(init, cell) == [] {
        assert s[n].cell == cell ==> FirstFor(s, cell, n);
      } else {
        var i :| FirstFor(init, cell, i);
        assert FirstFor(s, cell, i);
      }
    }
  }

  lemma {:induction false} SelectionsForTwice(s: seq<Selection>, cell: CellKey)
    ensures |SelectionsFor(s, cell)| > 1 <==> SelectedTwice(s, cell)
  {
    if s != [] {
      var init, n := s[..|s| - 1], |s| - 1;
      SelectionsForTwice(init, cell);
      SelectionsForFirst(init, cell);
      assert forall i :: 0 <= i < n ==> s[i] == init[i];
      if s[n].cell == cell && SelectionsFor(init, cell) != [] {
        var i :| FirstFor(init, cell, i);
        assert s[i].cell == cell;
      }
    }
  }

  method AuditHeader(rules: Rules, m: Manifest, expected: seq<ExpectedCell>) returns (found: seq<Diagnostic>, expectedOk: bool)
    ensures found == HeaderFindings(rules, m, expected)
    ensures expectedOk <==> ValidExpected(rules, expected)
  {
    hide ValidExpected, ValidManifest;
    found := [];
    expectedOk := ValidateExpectedCells(rules, expected);
    if !expectedOk {
      found := found + [Diagnostic(DefinitionsInvalid, "")];
    }
    var manifestOk := ValidateManifest(rules, m);
    if !manifestOk {
      found := found + [Diagnostic(ManifestInvalid, "")];
    }
    if expected != [] && m.profile != expected[0].profile {
      found := found + [Diagnostic(ProfileDiffers, "")];
    }
    if !rules.digest(m.inputDigest) {
      found := found + [Diagnostic(InputDigestInvalid, "")];
    }
  }

  method AuditSelections(m: Manifest, expected: seq<ExpectedCell>, byKey: map<CellKey, ExpectedCell>)
    returns (found: seq<Diagnostic>, groups: map<CellKey, seq<Selection>>, selectedIds: set<string>)
    requires Defines(byKey, expected)
    ensures found == Gather(|m.selections|, SelectionsAt(m.selections, expected))
    ensures Groups(groups, m.selections)
    ensures selectedIds == set x | x in m.selections :: x.evidenceId
  {
    hide Defines, Groups, Gather;
    var s := m.selections;
    found, groups, selectedIds := [], map[], {};
    StartGathering(SelectionsAt(s, expected));
    for index := 0 to |s|
      invariant found == Gather(index, SelectionsAt(s, expected))
      invariant Groups(groups, s[..index])
      invariant selectedIds == set x | x in s[..index] :: x.evidenceId
    {
      var selection := s[index];
      GatherMore(index, SelectionsAt(s, expected));
      GroupsSnoc(groups, s[..index], selection);
      assert s[..index + 1] == s[..index] + [selection];
      DefinedAs(byKey, expected, selection.cell);
      SelectedBefore(s, index, selectedIds);
      var earlier := if selection.cell in groups then groups[selection.cell] else [];
      groups := groups[selection.cell := earlier + [selection]];
      var here: seq<Diagnostic> := [];
      if selection.evidenceId in selectedIds {
        here := here + [Diagnostic(EvidenceReused, selection.evidenceId)];
      }
      selectedIds := selectedIds + {selection.evidenceId};
      if selection.cell !in byKey {
        here := here + [Diagnostic(CellUnknown, selection.cell.labId)];
      }
      found := found + here;
    }
    assert s[..|s|] == s;
  }

  lemma StartGathering(at: nat -> seq<Diagnostic>)
    ensures Gather(0, at) == []
    ensures Groups(map[], [])
  {
  }

  lemma GatherMore(n: nat, at: nat -> seq<Diagnostic>)
    ensures Gather(n + 1, at) == Gather(n, at) + at(n)
  {
  }

  lemma DefinedAs(byKey: map<CellKey, ExpectedCell>, expected: seq<ExpectedCell>, cell: CellKey)
    requires Defines(byKey, expected)
    ensures cell in byKey <==> exists e <- expected :: e.cell == cell
  {
  }

  lemma SelectedBefore(s: seq<Selection>, n: nat, ids: set<string>)
    requires n < |s| && ids == set x | x in s[..n] :: x.evidenceId
    ensures s[n].evidenceId in ids <==> exists i :: 0 <= i < n && s[i].evidenceId == s[n].evidenceId
  {
    assert forall i :: 0 <= i < n ==> s[..n][i] == s[i];
  }

  method AuditCells(m: Manifest, expected: seq<ExpectedCell>, groups: map<CellKey, seq<Selection>>)
    returns (found: seq<Diagnostic>)
    requires Groups(groups, m.selections)
    ensures found == Gather(|expected|, CellsAt(m.selections, expected))
  {
    hide Gather, CellFindings;
    var s := m.selections;
    found := [];
    StartGathering(CellsAt(s, expected));
    for index := 0 to |expected|
      invariant found == Gather(index, CellsAt(s, expected))
    {
      GatherMore(index, CellsAt(s, expected));
      var cell := expected[index].cell;
      var here := AuditCell(s, expected, index, if cell in groups then groups[cell] else []);
      found := found + here;
    }
  }

  method AuditCell(s: seq<Selection>, expected: seq<ExpectedCell>, index: nat, selections: seq<Selection>)
    returns (found: seq<Diagnostic>)
    requires index < |expected| && selections == SelectionsFor(s, expected[index].cell)
    ensures found == CellFindings(s, expected, index)
  {
    hide SelectionsFor, FirstFor, SelectedTwice;
    var e := expected[index];
    SelectionsForFirst(s, e.cell);
    SelectionsForTwice(s, e.cell);
    found := [];
    if selections == [] {
      return [Diagnostic(CellMissing, e.cell.labId)];
    }
    if |selections| > 1 {
      found := found + [Diagnostic(CellSelectedTwice, e.cell.labId)];
    }
    if selections[0].role != e.role {
      found := found + [Diagnostic(SelectionRoleDiffers, e.cell.labId)];
    }
    if index >= |s| || s[index].cell != e.cell || s[index].role != e.role {
      found := found + [Diagnostic(OrderDiffers, e.cell.labId)];
    }
  }

  /** `loaded` holds the records of the first `n` selections that could be loaded. */
  ghost predicate Cached(loaded: map<string, Record>, s: seq<Selection>, get: string -> Fetch, n: int)
    requires 0 <= n <= |s|
  {
    && (forall k :: 0 <= k < n && get(s[k].evidenceId).Loaded? ==> s[k].evidenceId in loaded)
    && (forall id :: id in loaded ==> get(id) == Loaded(loaded[id]))
  }

  method LoadSelected(m: Manifest, get: string -> Fetch)
    returns (found: seq<Diagnostic>, loaded: map<string, Record>, operational: bool)
    ensures found == Gather(|m.selections|, LoadsAt(m.selections, get))
    ensures Cached(loaded, m.selections, get, |m.selections|)
    ensures operational <==> LoadBroken(m.selections, get)
  {
    hide Gather, ClassifySelected;
    var s := m.selections;
    found, loaded, operational := [], map[], false;
    StartGathering(LoadsAt(s, get));
    for index := 0 to |s|
      invariant found == Gather(index, LoadsAt(s, get))
      invariant Cached(loaded, s, get, index)
      invariant operational <==> exists k :: 0 <= k < index && Broken(s[k].evidenceId, get)
    {
      var id := s[index].evidenceId;
      GatherMore(index, LoadsAt(s, get));
      assert found + LoadFindings(s, get, index) == Gather(index + 1, LoadsAt(s, get));
      if id in loaded {
        continue;
      }
      match get(id)
      case Loaded(record) =>
        loaded := loaded[id := record];
      case FetchFailed(error) =>
        var (diagnostics, broken) := ClassifySelected(id, error);
        found := found + diagnostics;
        operational := operational || broken;
    }
  }

  /** `cells` are those of the first `n` selections that loaded a record. */
  ghost predicate BoundCells(cells: set<CellKey>, s: seq<Selection>, get: string -> Fetch, n: int)
    requires 0 <= n <= |s|
  {
    forall c :: c in cells <==> exists i :: 0 <= i < n && s[i].cell == c && get(s[i].evidenceId).Loaded?
  }

  method AuditRecords(rules: Rules, m: Manifest, expected: seq<ExpectedCell>, ghost get: string -> Fetch,
                      byKey: map<CellKey, ExpectedCell>, loaded: map<string, Record>)
    returns (found: seq<Diagnostic>)
    requires Defines(byKey, expected) && Cached(loaded, m.selections, get, |m.selections|)
    ensures found == Gather(|m.selections|, RecordsAt(rules, m, expected, get))
  {
    hide Gather, Defines, RecordFindings;
    var s := m.selections;
    found := [];
    var cells: set<CellKey> := {};
    StartGathering(RecordsAt(rules, m, expected, get));
    for index := 0 to |s|
      invariant found == Gather(index, RecordsAt(rules, m, expected, get))
      invariant BoundCells(cells, s, get, index)
    {
      GatherMore(index, RecordsAt(rules, m, expected, get));
      assert found + RecordFindings(rules, m, expected, get, index) == Gather(index + 1, RecordsAt(rules, m, expected, get));
      if s[index].evidenceId !in loaded {
        NotLoaded(rules, m, expected, get, index);
        continue;
      }
      var record := loaded[s[index].evidenceId];
      var here := AuditRecord(rules, m, expected, get, byKey, index, record, s[index].cell in cells);
      found := found + here;
      cells := cells + {s[index].cell};
    }
  }

  lemma NotLoaded(rules: Rules, m: Manifest, expected: seq<ExpectedCell>, get: string -> Fetch, k: nat)
    requires k < |m.selections| && get(m.selections[k].evidenceId).FetchFailed?
    ensures RecordFindings(rules, m, expected, get, k) == []
  {
  }

  method AuditRecord(rules: Rules, m: Manifest, expected: seq<ExpectedCell>, ghost get: string -> Fetch,
                     byKey: map<CellKey, ExpectedCell>, index: nat, r: Record, duplicate: bool)
    returns (found: seq<Diagnostic>)
    requires Defines(byKey, expected)
    requires index < |m.selections| && get(m.selections[index].evidenceId) == Loaded(r)
    requires duplicate <==> BoundBefore(m.selections, get, index)
    ensures found == RecordFindings(rules, m, expected, get, index)
  {
    hide Defines, BoundBefore, ReferenceFindings, DefinitionFindings;
    var s := m.selections[index];
    found := AuditReference(m, s, r);
    var definition := AuditDefinition(rules, expected, byKey, s, r);
    found := found + definition;
    if r.cell != s.cell || r.role != s.role {
      found := found + [Diagnostic(RecordCellDiffers, s.evidenceId)];
    }
    if duplicate {
      found := found + [Diagnostic(CellBoundTwice, s.evidenceId)];
    }
  }

  method Note(found: seq<Diagnostic>, condition: bool, kind: Kind, entity: string)
    returns (more: seq<Diagnostic>)
    ensures more == found + When(condition, kind, entity)
  {
    more := if condition then found + [Diagnostic(kind, entity)] else found;
  }

  method AuditReference(m: Manifest, s: Selection, r: Record) returns (found: seq<Diagnostic>)
    ensures found == ReferenceFindings(m, s, r)
  {
    hide When;
    found := Note([], r.id != s.evidenceId, RecordIdDiffers, s.evidenceId);
    found := Note(found, r.contentDigest != s.contentDigest, ContentDigestDiffers, s.evidenceId);
    found := Note(found, r.runSetId != m.runSetId, RunSetDiffers, s.evidenceId);
    found := Note(found, r.inputDigest != m.inputDigest, InputDigestDiffers, s.evidenceId);
    found := Note(found, r.profile != m.profile, RecordProfileDiffers, s.evidenceId);
  }

  method AuditDefinition(rules: Rules, expected: seq<ExpectedCell>, byKey: map<CellKey, ExpectedCell>, s: Selection, r: Record)
    returns (found: seq<Diagnostic>)
    requires Defines(byKey, expected)
    ensures found == DefinitionFindings(rules, s, expected, r)
  {
    hide Defines, DefinitionFor, Matches, AssertionsMatch, Encodable, SafeText, When;
    DefinedFor(byKey, expected, s.cell);
    found := Note([], r.status != "passed", StatusNotPassed, s.evidenceId);
    var assertionsOk, matches, unsafeText := true, true, false;
    if s.cell in byKey {
      ghost var j :| DefinitionFor(expected, s.cell, j);
      assert expected[j] == byKey[s.cell];
      assertionsOk := CheckAssertions(r, byKey[s.cell]);
      matches, unsafeText := RecordMatchesExpected(rules, r, byKey[s.cell]);
    }
    assert !assertionsOk <==> exists j :: DefinitionFor(expected, s.cell, j) && !AssertionsMatch(r, expected[j]);
    assert !matches <==> Unmatched(rules, s, expected, r);
    found := Note(found, !assertionsOk, AssertionsDiffer, s.evidenceId);
    if !matches && unsafeText {
      found := found + [Diagnostic(TextNotPortable, s.evidenceId)];
    } else if !matches {
      found := found + [Diagnostic(DefinitionDiffers, s.evidenceId)];
    }
  }

  method AuditListing(m: Manifest, list: Listing, selectedIds: set<string>) returns (found: seq<Diagnostic>, operational: bool)
    requires selectedIds == set x | x in m.selections :: x.evidenceId
    ensures found == ListingFindings(m, list)
    ensures operational <==> list.ListFailed? && ClassifyList(list.error).1
  {
    hide Gather;
    match list
    case ListFailed(error) =>
      return ClassifyList(error).0, ClassifyList(error).1;
    case Listed(records) =>
      found, operational := [], false;
      StartGathering(ListedAt(m, records));
      for index := 0 to |records|
        invariant found == Gather(index, ListedAt(m, records))
      {
        var r := records[index];
        GatherMore(index, ListedAt(m, records));
        assert found + ListedFindings(m, records, index) == Gather(index + 1, ListedAt(m, records));
        if r.runSetId != m.runSetId {
          continue;
        }
        if r.id !in selectedIds {
          found := found + [Diagnostic(RecordUnselected, r.id)];
        }
      }
  }

  /** Everything there is to find in the manifest and the store, in the order it is looked for. */
  method Collect(rules: Rules, m: Manifest, expected: seq<ExpectedCell>, store: Store)
    returns (found: seq<Diagnostic>, operational: bool, expectedOk: bool, loaded: map<string, Record>)
    ensures found == Findings(rules, m, expected, store)
    ensures operational <==> Operational(m, store)
    ensures expectedOk <==> ValidExpected(rules, expected)
    ensures store.Store? ==> Cached(loaded, m.selections, store.get, |m.selections|)
  {
    hide HeaderFindings, SelectionsAt, CellsAt, LoadsAt, RecordsAt, ListedAt, Gather, Defines, Groups, ValidExpected, ClassifyList, Cached;
    var header;
    header, expectedOk := AuditHeader(rules, m, expected);
    var byKey := DefinitionsByCell(expected);
    var selections, groups, selectedIds := AuditSelections(m, expected, byKey);
    var cells := AuditCells(m, expected, groups);
    found := header + selections + cells;
    if |m.selections| != |expected| {
      found := found + [Diagnostic(CountDiffers, "")];
    }
    assert found == ManifestFindings(rules, m, expected);
    loaded := map[];
    if store.NoStore? {
      operational := m.selections != [];
    } else {
      var loads, broken := [], false;
      loads, loaded, broken := LoadSelected(m, store.get);
      var records := AuditRecords(rules, m, expected, store.get, byKey, loaded);
      var listing: seq<Diagnostic> := [];
      operational := broken;
      if !operational {
        listing, operational := AuditListing(m, store.list, selectedIds);
      }
      found := found + (loads + records + listing);
    }
  }

  /**
   * AuditSnapshot: the sorted findings, whether the audit could not be carried
   * out, and the aligned records when the manifest is bound.
   */
  method AuditSnapshot(rules: Rules, m: Manifest, expected: seq<ExpectedCell>, store: Store)
    returns (audited: Audited, diagnostics: seq<Diagnostic>, operational: bool)
    ensures multiset(diagnostics) == multiset(Findings(rules, m, expected, store)) && Sorted(DiagnosticLess, diagnostics)
    ensures forall d :: d in diagnostics <==> Warranted(rules, m, expected, store, d)
    ensures operational <==> Operational(m, store)
    ensures audited.Audited? <==> Accepts(rules, m, expected, store)
    ensures audited.Audited? ==> AllLoaded(m, store.get) && audited.records == Stored(m, store.get)
    ensures audited.Audited? <==> diagnostics == [] && !operational
  {
    hide Findings, Operational, Accepts, ValidExpected, Cached, DiagnosticLess, Warranted;
    var found, expectedOk, loaded;
    found, operational, expectedOk, loaded := Collect(rules, m, expected, store);
    DiagnosticOrder();
    diagnostics := Sort(DiagnosticLess, found);
    forall d
      ensures d in diagnostics <==> Warranted(rules, m, expected, store, d)
    {
      FoundExactly(rules, m, expected, store, d);
      assert d in diagnostics <==> d in multiset(diagnostics);
      assert d in found <==> d in multiset(found);
    }
    assert |multiset(diagnostics)| == |diagnostics| && |multiset(found)| == |found|;
    CleanExactly(rules, m, expected, store);
    AcceptsValid(rules, m, expected, store);
    if operational || diagnostics != [] || !expectedOk {
      return NotBound, diagnostics, operational;
    }
    audited := Align(rules, m, expected, store, loaded);
  }

  lemma AcceptsValid(rules: Rules, m: Manifest, expected: seq<ExpectedCell>, store: Store)
    ensures Accepts(rules, m, expected, store) ==> ValidExpected(rules, expected) && store.Store?
  {
    hide ValidExpected;
  }

  /** The final alignment of an audit that found nothing: it always succeeds. */
  method Align(rules: Rules, m: Manifest, expected: seq<ExpectedCell>, store: Store, loaded: map<string, Record>)
    returns (audited: Audited)
    requires Accepts(rules, m, expected, store) && Cached(loaded, m.selections, store.get, |m.selections|)
    ensures AllLoaded(m, store.get) && audited == Audited(Stored(m, store.get))
  {
    hide Bound, Matches, SelectionOf, Exhaustive;
    ghost var stored := Stored(m, store.get);
    BoundShape(rules, m, expected, stored);
    var aligned: seq<Record> := [];
    for index := 0 to |expected|
      invariant aligned == stored[..index]
    {
      var id := m.selections[index].evidenceId;
      BoundRecord(rules, m, expected, stored, index);
      if id !in loaded || loaded[id].cell != expected[index].cell {
        assert false;
      }
      aligned := aligned + [loaded[id]];
    }
    assert stored[..|stored|] == stored;
    var bound := ValidateBoundSnapshot(rules, m, expected, aligned);
    if !bound {
      assert false;
    }
    audited := Audited(aligned);
  }
}
