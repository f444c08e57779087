/** The required evidence matrix: one cell per baseline, variant and required adapter of each valid run. */
module Matrix {
  import opened GoText
  import opened Ordering
  import opened Evidence
  import opened ReleaseContract

  datatype SourceBinding = SourceBinding(id: string, owner: string, claim: string, workload: string, assertions: seq<string>)

  datatype Requirement = Requirement(id: string, required: bool)

  datatype Run = Run(
    id: string, binding: string, workload: string, baseline: string, variants: seq<string>,
    adapters: seq<Requirement>, faults: seq<string>)

  // `otherFieldsComplete` stands for the completeness checks the matrix does not depend on.
  datatype Lab = Lab(
    id: string, kind: string, complete: bool,
    caseBindings: seq<SourceBinding>, principleBindings: seq<SourceBinding>,
    implementations: seq<string>, runs: seq<Run>, otherFieldsComplete: bool)

  datatype AdapterState = Absent | Incomplete | MissingFields | Ready

  // The rest of the catalog, as far as the matrix asks about it.
  datatype Catalog = Catalog(
    required: (string, string) -> bool,
    claimOwned: (string, string, string) -> bool,
    adapter: string -> AdapterState)

  datatype MatrixCell = MatrixCell(
    key: CellKey, role: string, workload: string, faults: seq<string>, assertionIds: seq<string>)

  datatype Binding = Binding(
    id: string, kind: string, owner: string, claim: string, workload: string, assertions: seq<string>, claimValid: bool)

  datatype Choice = Choice(role: string, implementationId: string, adapterId: string)

  // ---- Bindings ---------------------------------------------------------------------

  function BindingFrom(c: Catalog, kind: string, s: SourceBinding): Binding {
    Binding(s.id, kind, s.owner, s.claim, s.workload, s.assertions, c.claimOwned(s.claim, kind, s.owner))
  }

  function BindingsFrom(c: Catalog, kind: string, sources: seq<SourceBinding>): seq<Binding> {
    seq(|sources|, i requires 0 <= i < |sources| => BindingFrom(c, kind, sources[i]))
  }

  /** A lab's bindings: those to cases, then those to principles. */
  function Bindings(c: Catalog, lab: Lab): seq<Binding> {
    BindingsFrom(c, "case", lab.caseBindings) + BindingsFrom(c, "principle", lab.principleBindings)
  }

  function Named(bindings: seq<Binding>, id: string): seq<Binding> {
    if bindings == [] then []
    else
      var last := bindings[|bindings| - 1];
      Named(bindings[..|bindings| - 1], id) + if last.id == id then [last] else []
  }

  predicate KindMatches(kind: string, labKind: string) {
    (kind == "case" && labKind == "scenario") || (kind == "principle" && labKind == "primitive")
  }

  // ---- Which runs count ----------------------------------------------------------------

  /** missingCompleteLabFields finds nothing missing; the matrix relies on the adapter ids. */
  predicate FieldsComplete(lab: Lab) {
    lab.otherFieldsComplete && forall r <- lab.runs :: forall a <- r.adapters :: !Blank(a.id)
  }

  predicate Eligible(c: Catalog, lab: Lab) {
    c.required(lab.id, lab.kind) && lab.complete && FieldsComplete(lab)
  }

  function CountId(runs: seq<Run>, id: string): nat {
    if runs == [] then 0 else CountId(runs[..|runs| - 1], id) + if runs[|runs| - 1].id == id then 1 else 0
  }

  /** The run's binding is the only one of its name, of the right kind, with an owned claim and the run's workload. */
  ghost predicate BindingFits(c: Catalog, lab: Lab, r: Run) {
    var named := Named(Bindings(c, lab), r.binding);
    r.binding != "" && |named| == 1
    && KindMatches(named[0].kind, lab.kind) && named[0].claimValid && r.workload == named[0].workload
  }

  /** The baseline and the variants are different implementations of the lab. */
  ghost predicate SelectionsFit(lab: Lab, r: Run) {
    && (forall v <- [r.baseline] + r.variants :: v in lab.implementations)
    && Distinct([r.baseline] + r.variants)
  }

  predicate AdapterFits(c: Catalog, lab: Lab, id: string) {
    match c.adapter(id)
    case Absent => false
    case Incomplete => !lab.complete
    case MissingFields => false
    case Ready => true
  }

  /** No adapter is named twice, and each required one is usable. */
  ghost predicate AdaptersFit(c: Catalog, lab: Lab, r: Run) {
    && (forall i, j :: 0 <= i < j < |r.adapters| ==> r.adapters[i].id != r.adapters[j].id)
    && (forall a <- r.adapters :: a.required ==> AdapterFits(c, lab, a.id))
  }

  ghost predicate ValidRun(c: Catalog, lab: Lab, r: Run) {
    CountId(lab.runs, r.id) == 1 && BindingFits(c, lab, r) && SelectionsFit(lab, r) && AdaptersFit(c, lab, r)
  }

  // ---- Cells -------------------------------------------------------------------------

  function AdapterChoices(adapters: seq<Requirement>): seq<Choice> {
    if adapters == [] then []
    else
      var last := adapters[|adapters| - 1];
      AdapterChoices(adapters[..|adapters| - 1]) + if last.required then [Choice("adapter", last.id, last.id)] else []
  }

  function VariantChoices(variants: seq<string>): seq<Choice> {
    seq(|variants|, i requires 0 <= i < |variants| => Choice("variant", variants[i], ""))
  }

  function Choices(r: Run): seq<Choice> {
    [Choice("baseline", r.baseline, "")] + VariantChoices(r.variants) + AdapterChoices(r.adapters)
  }

  function CellFor(lab: Lab, r: Run, b: Binding, choice: Choice): MatrixCell {
    MatrixCell(CellKey(lab.id, r.id, b.id, b.claim, choice.implementationId, choice.adapterId),
               choice.role, r.workload, r.faults, b.assertions)
  }

  function CellsFor(lab: Lab, r: Run, b: Binding, choices: seq<Choice>): seq<MatrixCell> {
    seq(|choices|, i requires 0 <= i < |choices| => CellFor(lab, r, b, choices[i]))
  }

  /** The cells that a run contributes. */
  ghost function RunCells(c: Catalog, lab: Lab, r: Run): seq<MatrixCell> {
    if Eligible(c, lab) && ValidRun(c, lab, r)
    then CellsFor(lab, r, Named(Bindings(c, lab), r.binding)[0], Choices(r))
    else []
  }

  ghost function LabCells(c: Catalog, lab: Lab, runs: seq<Run>): seq<MatrixCell> {
    if runs == [] then []
    else LabCells(c, lab, runs[..|runs| - 1]) + RunCells(c, lab, runs[|runs| - 1])
  }

  ghost predicate DistinctKeys(cells: seq<MatrixCell>) {
    forall i, j :: 0 <= i < j < |cells| ==> cells[i].key != cells[j].key
  }

  /** Each adapter choice names its own adapter, and no two the same. */
  lemma {:induction false} AdapterChoicesDistinct(adapters: seq<Requirement>)
    requires forall i, j :: 0 <= i < j < |adapters| ==> adapters[i].id != adapters[j].id
    ensures forall x <- AdapterChoices(adapters) :: x.implementationId == x.adapterId && exists a <- adapters :: a.id == x.adapterId && a.required
    ensures forall i, j :: 0 <= i < j < |AdapterChoices(adapters)| ==>
      AdapterChoices(adapters)[i].adapterId != AdapterChoices(adapters)[j].adapterId
  {
    if adapters != [] {
      var n := |adapters| - 1;
      AdapterChoicesDistinct(adapters[..n]);
      assert adapters == adapters[..n] + [adapters[n]];
      forall x | x in AdapterChoices(adapters[..n])
        ensures x.adapterId != adapters[n].id
      {
        var a :| a in adapters[..n] && a.id == x.adapterId && a.required;
        var i :| 0 <= i < n && adapters[i] == a;
      }
    }
  }

  /** The choices of a valid run of an eligible lab differ in implementation or adapter. */
  lemma ChoicesDistinct(c: Catalog, lab: Lab, r: Run)
    requires Eligible(c, lab) && r in lab.runs && SelectionsFit(lab, r) && AdaptersFit(c, lab, r)
    ensures forall i, j :: 0 <= i < j < |Choices(r)| ==>
      Choices(r)[i].implementationId != Choices(r)[j].implementationId || Choices(r)[i].adapterId != Choices(r)[j].adapterId
  {
    var selections, adapters := [r.baseline] + r.variants, AdapterChoices(r.adapters);
    var n := |selections|;
    AdapterChoicesDistinct(r.adapters);
    forall x | x in adapters
      ensures x.adapterId != ""
    {
      var a :| a in r.adapters && a.id == x.adapterId && a.required;
    }
    assert forall i :: 0 <= i < n ==> Choices(r)[i].implementationId == selections[i] && Choices(r)[i].adapterId == "";
    assert forall i :: n <= i < |Choices(r)| ==> Choices(r)[i] == adapters[i - n] && adapters[i - n] in adapters;
  }

  lemma RunCellsDistinct(c: Catalog, lab: Lab, r: Run)
    requires r in lab.runs
    ensures DistinctKeys(RunCells(c, lab, r))
    ensures forall x <- RunCells(c, lab, r) :: x.key.labId == lab.id && x.key.requiredRunId == r.id
    ensures RunCells(c, lab, r) != [] ==> CountId(lab.runs, r.id) == 1
  {
    hide Eligible, BindingFits, SelectionsFit, AdaptersFit, Choices, CountId;
    if Eligible(c, lab) && ValidRun(c, lab, r) {
      ChoicesDistinct(c, lab, r);
    }
  }

  lemma {:induction false} Counted(runs: seq<Run>, k: nat, id: string)
    requires k <= |runs|
    ensures CountId(runs, id) >= CountId(runs[..k], id)
    ensures k < |runs| && runs[k].id == id ==> CountId(runs, id) >= CountId(runs[..k], id) + 1
    decreases |runs|
  {
    if k < |runs| {
      var n := |runs| - 1;
      assert runs[..n][..k] == runs[..k];
      Counted(runs[..n], k, id);
    } else {
      assert runs[..k] == runs;
    }
  }

  /** Cells of one lab name that lab and a run that is counted. */
  lemma {:induction false} LabCellsNamed(c: Catalog, lab: Lab, runs: seq<Run>)
    requires forall r <- runs :: r in lab.runs
    ensures forall x <- LabCells(c, lab, runs) :: x.key.labId == lab.id && CountId(runs, x.key.requiredRunId) > 0
  {
    hide RunCells;
    if runs != [] {
      var n := |runs| - 1;
      assert forall r <- runs[..n] :: r in runs;
      LabCellsNamed(c, lab, runs[..n]);
      assert runs[n] in runs;
      RunCellsDistinct(c, lab, runs[n]);
    }
  }

  /** The next run's cells repeat no key of the earlier runs. */
  lemma FreshRun(c: Catalog, lab: Lab, k: nat)
    requires k < |lab.runs|
    ensures forall x, y :: x in LabCells(c, lab, lab.runs[..k]) && y in RunCells(c, lab, lab.runs[k]) ==> x.key != y.key
  {
    hide RunCells, LabCells;
    var r := lab.runs[k];
    assert forall q <- lab.runs[..k] :: q in lab.runs;
    assert r in lab.runs;
    LabCellsNamed(c, lab, lab.runs[..k]);
    RunCellsDistinct(c, lab, r);
    Counted(lab.runs, k, r.id);
  }

  // ---- Checking a run --------------------------------------------------------------------

  method CountRunIds(runs: seq<Run>) returns (counts: map<string, nat>)
    ensures forall r <- runs :: r.id in counts && counts[r.id] == CountId(runs, r.id)
  {
    counts := map[];
    for i := 0 to |runs|
      invariant forall id :: id in counts ==> counts[id] == CountId(runs[..i], id)
      invariant forall id :: id !in counts ==> CountId(runs[..i], id) == 0
    {
      assert runs[..i + 1][..i] == runs[..i];
      var id := runs[i].id;
      counts := counts[id := (if id in counts then counts[id] else 0) + 1];
    }
    assert runs[..|runs|] == runs;
    forall r | r in runs
      ensures r.id in counts
    {
      var k :| 0 <= k < |runs| && runs[k] == r;
      Counted(runs, k, r.id);
    }
  }

  /** collectMatrixBindings: the bindings of each name, in order. */
  method BindingsByName(bindings: seq<Binding>) returns (byId: map<string, seq<Binding>>)
    ensures forall id :: (if id in byId then byId[id] else []) == Named(bindings, id)
  {
    byId := map[];
    for i := 0 to |bindings|
      invariant forall id :: (if id in byId then byId[id] else []) == Named(bindings[..i], id)
    {
      assert bindings[..i + 1][..i] == bindings[..i];
      var id := bindings[i].id;
      byId := byId[id := (if id in byId then byId[id] else []) + [bindings[i]]];
    }
    assert bindings[..|bindings|] == bindings;
  }

  method CheckBinding(c: Catalog, lab: Lab, r: Run, resolved: seq<Binding>) returns (valid: bool)
    requires resolved == Named(Bindings(c, lab), r.binding)
    ensures valid <==> BindingFits(c, lab, r)
  {
    valid := true;
    if r.binding == "" || |resolved| != 1 {
      valid := false;
    } else {
      var binding := resolved[0];
      if !KindMatches(binding.kind, lab.kind) {
        valid := false;
      }
      if !binding.claimValid {
        valid := false;
      }
      if r.workload != binding.workload {
        valid := false;
      }
    }
  }

  method CheckSelections(lab: Lab, r: Run) returns (valid: bool)
    ensures valid <==> SelectionsFit(lab, r)
  {
    var all := [r.baseline] + r.variants;
    valid := r.baseline in lab.implementations;
    var seen := {r.baseline};
    for i := 0 to |r.variants|
      invariant forall v :: v in seen <==> v in all[..i + 1]
      invariant valid <==> (forall v <- all[..i + 1] :: v in lab.implementations) && Distinct(all[..i + 1])
    {
      var v := r.variants[i];
      assert all[..i + 2] == all[..i + 1] + [v];
      DistinctSnoc(all[..i + 1], v);
      if v !in lab.implementations {
        valid := false;
      }
      if v in seen {
        valid := false;
      }
      seen := seen + {v};
    }
    assert all[..|r.variants| + 1] == all;
  }

  lemma DistinctSnoc<T>(s: seq<T>, x: T)
    ensures Distinct(s + [x]) <==> Distinct(s) && x !in s
  {
    var t := s + [x];
    assert forall i :: 0 <= i < |s| ==> t[i] == s[i];
    if x in s {
      var i :| 0 <= i < |s| && s[i] == x;
      assert t[i] == t[|s|];
    }
  }

  method CheckAdapters(c: Catalog, lab: Lab, r: Run) returns (valid: bool)
    ensures valid <==> AdaptersFit(c, lab, r)
  {
    var a := r.adapters;
    valid := true;
    var seen: set<string> := {};
    for i := 0 to |a|
      invariant forall id :: id in seen <==> exists k :: 0 <= k < i && a[k].id == id
      invariant valid <==>
        && (forall x, y :: 0 <= x < y < i ==> a[x].id != a[y].id)
        && (forall k :: 0 <= k < i && a[k].required ==> AdapterFits(c, lab, a[k].id))
    {
      if a[i].id in seen {
        ghost var k :| 0 <= k < i && a[k].id == a[i].id;
        valid := false;
      }
      seen := seen + {a[i].id};
      if !a[i].required {
        continue;
      }
      var state := c.adapter(a[i].id);
      if state.Absent? {
        valid := false;
      } else if state.Incomplete? {
        if lab.complete {
          valid := false;
        }
      } else if state.MissingFields? {
        valid := false;
      }
    }
    assert forall x <- a :: exists k :: 0 <= k < |a| && a[k] == x;
  }

  method CheckRun(c: Catalog, lab: Lab, r: Run, count: nat, resolved: seq<Binding>) returns (valid: bool)
    requires count == CountId(lab.runs, r.id) && resolved == Named(Bindings(c, lab), r.binding)
    ensures valid <==> ValidRun(c, lab, r)
  {
    hide BindingFits, SelectionsFit, AdaptersFit;
    var bindingOk := CheckBinding(c, lab, r, resolved);
    var selectionsOk := CheckSelections(lab, r);
    var adaptersOk := CheckAdapters(c, lab, r);
    valid := count == 1 && bindingOk && selectionsOk && adaptersOk;
  }

  // ---- Building the matrix ------------------------------------------------------------------

  ghost function KeysOf(cells: seq<MatrixCell>): set<CellKey> {
    set x | x in cells :: x.key
  }

  method ChoicesOf(r: Run) returns (choices: seq<Choice>)
    ensures choices == Choices(r)
  {
    choices := [Choice("baseline", r.baseline, "")];
    for i := 0 to |r.variants|
      invariant choices == [Choice("baseline", r.baseline, "")] + VariantChoices(r.variants)[..i]
    {
      choices := choices + [Choice("variant", r.variants[i], "")];
    }
    ghost var head := choices;
    for i := 0 to |r.adapters|
      invariant choices == head + AdapterChoices(r.adapters[..i])
    {
      assert r.adapters[..i + 1][..i] == r.adapters[..i];
      if r.adapters[i].required {
        choices := choices + [Choice("adapter", r.adapters[i].id, r.adapters[i].id)];
      }
    }
    assert r.adapters[..|r.adapters|] == r.adapters;
  }

  /** Append the cells of one run; none of their keys is taken. */
  method AppendRun(lab: Lab, r: Run, b: Binding, matrix: seq<MatrixCell>, seen: set<CellKey>)
    returns (more: seq<MatrixCell>, known: set<CellKey>)
    requires seen == KeysOf(matrix)
    requires DistinctKeys(CellsFor(lab, r, b, Choices(r)))
    requires forall x, y :: x in matrix && y in CellsFor(lab, r, b, Choices(r)) ==> x.key != y.key
    ensures more == matrix + CellsFor(lab, r, b, Choices(r)) && known == KeysOf(more)
  {
    hide Choices;
    var choices := ChoicesOf(r);
    ghost var cells := CellsFor(lab, r, b, choices);
    more, known := matrix, seen;
    for i := 0 to |choices|
      invariant more == matrix + cells[..i] && known == KeysOf(more)
    {
      var cell := CellFor(lab, r, b, choices[i]);
      assert cell == cells[i] && cell in cells;
      if cell.key in known {
        assert false;
      }
      known := known + {cell.key};
      more := more + [cell];
    }
  }

  method AppendLab(c: Catalog, lab: Lab, matrix: seq<MatrixCell>, seen: set<CellKey>)
    returns (more: seq<MatrixCell>, known: set<CellKey>)
    requires seen == KeysOf(matrix) && DistinctKeys(matrix)
    requires forall x <- matrix :: x.key.labId != lab.id
    ensures more == matrix + LabCells(c, lab, lab.runs) && known == KeysOf(more) && DistinctKeys(more)
  {
    hide ValidRun, Eligible, CellsFor, Choices, Bindings, Named, KeysOf, CountId;
    var byId := BindingsByName(Bindings(c, lab));
    var counts := CountRunIds(lab.runs);
    more, known := matrix, seen;
    for k := 0 to |lab.runs|
      invariant more == matrix + LabCells(c, lab, lab.runs[..k]) && known == KeysOf(more) && DistinctKeys(more)
    {
      var r := lab.runs[k];
      assert r in lab.runs;
      NextRun(c, lab, matrix, k);
      var resolved := if r.binding in byId then byId[r.binding] else [];
      var valid := CheckRun(c, lab, r, counts[r.id], resolved);
      if !valid || !Eligible(c, lab) {
        continue;
      }
      ValidRunBinding(c, lab, r);
      more, known := AppendRun(lab, r, resolved[0], more, known);
    }
    assert lab.runs[..|lab.runs|] == lab.runs;
  }

  lemma ValidRunBinding(c: Catalog, lab: Lab, r: Run)
    requires ValidRun(c, lab, r)
    ensures |Named(Bindings(c, lab), r.binding)| == 1
  {
  }

  lemma NextRun(c: Catalog, lab: Lab, matrix: seq<MatrixCell>, k: nat)
    requires k < |lab.runs| && DistinctKeys(matrix + LabCells(c, lab, lab.runs[..k]))
    requires forall x <- matrix :: x.key.labId != lab.id
    ensures var before, here := matrix + LabCells(c, lab, lab.runs[..k]), RunCells(c, lab, lab.runs[k]);
      && matrix + LabCells(c, lab, lab.runs[..k + 1]) == before + here
      && DistinctKeys(here) && DistinctKeys(before + here)
      && (forall x, y :: x in before && y in here ==> x.key != y.key)
  {
    hide RunCells, CountId;
    var r := lab.runs[k];
    assert r in lab.runs && lab.runs[..k + 1][..k] == lab.runs[..k];
    var earlier, here := LabCells(c, lab, lab.runs[..k]), RunCells(c, lab, r);
    RunCellsDistinct(c, lab, r);
    FreshRun(c, lab, k);
    forall x, y | x in matrix + earlier && y in here
      ensures x.key != y.key
    {
      assert x in matrix || x in earlier;
    }
    assert matrix + (earlier + here) == (matrix + earlier) + here;
  }

  // ---- The order of the matrix -----------------------------------------------------------

  predicate FieldsBefore(a: seq<string>, b: seq<string>)
    requires |a| == |b|
  {
    a != [] && if a[0] != b[0] then Less(a[0], b[0]) else FieldsBefore(a[1..], b[1..])
  }

  /** The comparison of six identities and then the role is the releases' canonical order. */
  lemma {:induction false} FieldsBeforeIsLess(a: seq<string>, b: seq<string>)
    requires |a| == |b|
    ensures FieldsBefore(a, b) <==> FieldsLess(a, b)
  {
    if a != [] {
      assert a == [a[0]] + a[1..] && b == [b[0]] + b[1..];
      if a[0] != b[0] {
        assert a[..0] == b[..0];
        forall k | 0 < k < |a|
          ensures a[..k] != b[..k]
        {
          assert a[..k][0] != b[..k][0];
        }
      } else {
        LessTrichotomy(a[0], b[0]);
        FieldsBeforeIsLess(a[1..], b[1..]);
        if FieldsLess(a[1..], b[1..]) {
          var k :| 0 <= k < |a| - 1 && Less(a[1..][k], b[1..][k]) && a[1..][..k] == b[1..][..k];
          assert a[..k + 1] == [a[0]] + a[1..][..k] && b[..k + 1] == [b[0]] + b[1..][..k];
          assert Less(a[k + 1], b[k + 1]);
        }
        if FieldsLess(a, b) {
          var k :| 0 <= k < |a| && Less(a[k], b[k]) && a[..k] == b[..k];
          assert k > 0;
          assert a[1..][..k - 1] == a[..k][1..] && b[1..][..k - 1] == b[..k][1..];
          assert Less(a[1..][k - 1], b[1..][k - 1]);
        }
      }
    }
  }

  predicate MatrixLess(a: MatrixCell, b: MatrixCell) {
    FieldsBefore(OrderFields(a.key, a.role), OrderFields(b.key, b.role))
  }

  lemma {:induction false} FieldsOrder(a: seq<string>, b: seq<string>, c: seq<string>)
    requires |a| == |b| == |c|
    ensures !FieldsBefore(a, a)
    ensures FieldsBefore(a, b) && FieldsBefore(b, c) ==> FieldsBefore(a, c)
    ensures FieldsBefore(a, c) ==> FieldsBefore(a, b) || FieldsBefore(b, c)
    ensures FieldsBefore(a, b) || a == b || FieldsBefore(b, a)
  {
    hide Less;
    if a != [] {
      FieldsOrder(a[1..], b[1..], c[1..]);
      LessIsStrictWeakOrder();
      LessTrichotomy(a[0], b[0]);
      LessTrichotomy(b[0], c[0]);
      LessTrichotomy(a[0], c[0]);
      assert a == [a[0]] + a[1..] && b == [b[0]] + b[1..];
    }
  }

  lemma MatrixOrder()
    ensures StrictWeakOrder(MatrixLess)
    ensures forall a: MatrixCell, b: MatrixCell :: MatrixLess(a, b) || MatrixLess(b, a) || (a.key == b.key && a.role == b.role)
  {
    hide FieldsBefore;
    forall a: MatrixCell, b: MatrixCell, c: MatrixCell
      ensures !MatrixLess(a, a)
      ensures MatrixLess(a, b) && MatrixLess(b, c) ==> MatrixLess(a, c)
      ensures MatrixLess(a, c) ==> MatrixLess(a, b) || MatrixLess(b, c)
      ensures MatrixLess(a, b) || MatrixLess(b, a) || (a.key == b.key && a.role == b.role)
    {
      var x, y, z := OrderFields(a.key, a.role), OrderFields(b.key, b.role), OrderFields(c.key, c.role);
      FieldsOrder(x, y, z);
      if x == y {
        assert x[0] == y[0] && x[1] == y[1] && x[2] == y[2] && x[3] == y[3] && x[4] == y[4] && x[5] == y[5] && x[6] == y[6];
      }
    }
  }

  // ---- The whole matrix --------------------------------------------------------------------

  /** Labs are indexed by their own ids. */
  ghost predicate Indexed(labs: map<string, Lab>) {
    forall id <- labs :: labs[id].id == id
  }

  ghost predicate InCells(c: Catalog, lab: Lab, x: MatrixCell) {
    exists r <- lab.runs :: x in RunCells(c, lab, r)
  }

  lemma {:induction false} LabCellsAre(c: Catalog, lab: Lab, runs: seq<Run>, x: MatrixCell)
    ensures x in LabCells(c, lab, runs) <==> exists r <- runs :: x in RunCells(c, lab, r)
  {
    hide RunCells;
    if runs != [] {
      var n := |runs| - 1;
      LabCellsAre(c, lab, runs[..n], x);
      assert runs == runs[..n] + [runs[n]];
    }
  }

  /**
   The matrix holds exactly the cells that some lab requires, each once, strictly increasing
   in canonical order.
   */
  method BuildRequiredMatrix(c: Catalog, labs: map<string, Lab>) returns (matrix: seq<MatrixCell>)
    requires Indexed(labs)
    ensures forall x :: x in matrix <==> exists id <- labs :: IsRequired(c, labs[id], x)
    ensures DistinctKeys(matrix)
    ensures forall i, j :: 0 <= i < j < |matrix| ==> Before(matrix[i].key, matrix[i].role, matrix[j].key, matrix[j].role)
  {
    hide InCells, IsRequired, LabCells, DistinctKeys, KeysOf, StrictWeakOrder, MatrixLess, Before;
    var cells: seq<MatrixCell> := [];
    var seen: set<CellKey> := {};
    var ids := SortedKeys(labs);
    IdsDiffer(ids);
    NothingYet(c);
    for k := 0 to |ids|
      invariant seen == KeysOf(cells) && DistinctKeys(cells)
      invariant forall x :: x in cells <==> exists id <- ids[..k] :: InCells(c, labs[id], x)
    {
      var lab := labs[ids[k]];
      assert lab.id == ids[k] && ids[k] !in ids[..k];
      forall x | x in cells
        ensures x.key.labId != lab.id
      {
        var id :| id in ids[..k] && InCells(c, labs[id], x);
        CellOfLab(c, labs[id], x);
      }
      ghost var before := cells;
      cells, seen := AppendLab(c, lab, cells, seen);
      forall x
        ensures x in cells <==> exists id <- ids[..k + 1] :: InCells(c, labs[id], x)
      {
        CellsOfLab(c, lab, x);
        assert ids[..k + 1] == ids[..k] + [ids[k]];
        assert x in cells <==> x in before || x in LabCells(c, lab, lab.runs);
      }
    }
    assert ids[..|ids|] == ids;
    MatrixOrder();
    matrix := Sort(MatrixLess, cells);
    SortedMatrix(cells, matrix);
    forall id: string, x | id in labs
      ensures InCells(c, labs[id], x) <==> IsRequired(c, labs[id], x)
    {
      CellExactly(c, labs[id], x);
    }
  }

  lemma NothingYet(c: Catalog)
    ensures DistinctKeys([]) && KeysOf([]) == {}
  {
  }

  lemma IdsDiffer(ids: seq<string>)
    requires StrictlySorted(Less, ids)
    ensures forall k :: 0 <= k < |ids| ==> ids[k] !in ids[..k]
  {
    hide Less;
    LessIsStrictWeakOrder();
  }

  lemma CellOfLab(c: Catalog, lab: Lab, x: MatrixCell)
    requires InCells(c, lab, x)
    ensures x.key.labId == lab.id
  {
    hide RunCells;
    var r :| r in lab.runs && x in RunCells(c, lab, r);
    RunCellsDistinct(c, lab, r);
  }

  lemma CellsOfLab(c: Catalog, lab: Lab, x: MatrixCell)
    ensures x in LabCells(c, lab, lab.runs) <==> InCells(c, lab, x)
  {
    hide RunCells, LabCells;
    LabCellsAre(c, lab, lab.runs, x);
  }

  /** Sorting cells with distinct keys puts them in strict canonical order. */
  lemma SortedMatrix(cells: seq<MatrixCell>, matrix: seq<MatrixCell>)
    requires multiset(matrix) == multiset(cells) && Sorted(MatrixLess, matrix) && DistinctKeys(cells)
    ensures DistinctKeys(matrix) && forall x :: x in matrix <==> x in cells
    ensures forall i, j :: 0 <= i < j < |matrix| ==> Before(matrix[i].key, matrix[i].role, matrix[j].key, matrix[j].role)
  {
    hide MatrixLess, FieldsLess;
    MatrixOrder();
    assert forall x :: x in matrix <==> x in multiset(matrix);
    assert forall x :: x in cells <==> x in multiset(cells);
    forall i, j | 0 <= i < j < |matrix|
      ensures matrix[i].key != matrix[j].key
      ensures Before(matrix[i].key, matrix[i].role, matrix[j].key, matrix[j].role)
    {
      RepeatCounts(matrix, i, j);
      KeysApart(cells, matrix[i], matrix[j]);
      LessIsBefore(matrix[i], matrix[j]);
    }
  }

  lemma LessIsBefore(a: MatrixCell, b: MatrixCell)
    ensures MatrixLess(a, b) <==> Before(a.key, a.role, b.key, b.role)
  {
    hide FieldsLess, FieldsBefore;
    FieldsBeforeIsLess(OrderFields(a.key, a.role), OrderFields(b.key, b.role));
  }

  lemma KeysApart(cells: seq<MatrixCell>, a: MatrixCell, b: MatrixCell)
    requires DistinctKeys(cells) && a in cells && b in cells
    ensures a.key == b.key ==> a == b && multiset(cells)[a] == 1
  {
    var i :| 0 <= i < |cells| && cells[i] == a;
    var j :| 0 <= j < |cells| && cells[j] == b;
    if a.key == b.key {
      assert i == j;
      assert cells == cells[..i] + [cells[i]] + cells[i + 1..];
      assert a !in cells[..i] && a !in cells[i + 1..];
      assert multiset(cells) == multiset(cells[..i]) + multiset{a} + multiset(cells[i + 1..]);
    }
  }

  // ---- What the matrix holds, without its construction -----------------------------------

  /**
   The run names one binding of the lab, which nothing else of the lab's is called: to a case in
   a scenario lab, to a principle in a primitive one, with a claim that its owner makes.
   */
  ghost predicate BoundBy(c: Catalog, lab: Lab, r: Run, b: SourceBinding) {
    && r.binding == b.id != "" && r.workload == b.workload
    && (if lab.kind == "scenario" then b in lab.caseBindings && c.claimOwned(b.claim, "case", b.owner)
        else lab.kind == "primitive" && b in lab.principleBindings && c.claimOwned(b.claim, "principle", b.owner))
    && OnlyOne(lab.caseBindings + lab.principleBindings, b.id)
  }

  ghost predicate OnlyOne(bindings: seq<SourceBinding>, id: string) {
    forall i, j :: 0 <= i < j < |bindings| ==> bindings[i].id != id || bindings[j].id != id
  }

  /** The cell is one of the run's: its baseline's, a variant's or a required adapter's. */
  predicate Selected(r: Run, x: MatrixCell) {
    || (x.role == "baseline" && x.key.implementationId == r.baseline && x.key.adapterId == "")
    || (x.role == "variant" && x.key.implementationId in r.variants && x.key.adapterId == "")
    || (x.role == "adapter" && x.key.implementationId == x.key.adapterId
        && Requirement(x.key.adapterId, true) in r.adapters)
  }

  /** The cell says what its lab, run and binding say. */
  predicate Describes(lab: Lab, r: Run, b: SourceBinding, x: MatrixCell) {
    && x.key.labId == lab.id && x.key.requiredRunId == r.id && x.key.bindingId == b.id && x.key.claimId == b.claim
    && x.workload == r.workload && x.faults == r.faults && x.assertionIds == b.assertions
  }

  /** Why a cell is required. */
  ghost predicate Required(c: Catalog, lab: Lab, r: Run, b: SourceBinding, x: MatrixCell) {
    && Eligible(c, lab) && r in lab.runs && CountId(lab.runs, r.id) == 1
    && BoundBy(c, lab, r, b) && SelectionsFit(lab, r) && AdaptersFit(c, lab, r)
    && Describes(lab, r, b, x) && Selected(r, x)
  }

  ghost predicate IsRequired(c: Catalog, lab: Lab, x: MatrixCell) {
    exists r, b :: Required(c, lab, r, b, x)
  }

  lemma {:induction false} AdapterChoicesAre(adapters: seq<Requirement>, x: Choice)
    ensures x in AdapterChoices(adapters)
            <==> x.role == "adapter" && x.implementationId == x.adapterId && Requirement(x.adapterId, true) in adapters
  {
    if adapters != [] {
      var n := |adapters| - 1;
      AdapterChoicesAre(adapters[..n], x);
      assert adapters == adapters[..n] + [adapters[n]];
    }
  }

  lemma ChoicesAre(r: Run, x: Choice)
    ensures x in Choices(r) <==>
      || (x.role == "baseline" && x.implementationId == r.baseline && x.adapterId == "")
      || (x.role == "variant" && x.implementationId in r.variants && x.adapterId == "")
      || (x.role == "adapter" && x.implementationId == x.adapterId && Requirement(x.adapterId, true) in r.adapters)
  {
    AdapterChoicesAre(r.adapters, x);
    var variants := VariantChoices(r.variants);
    if x.role == "variant" && x.implementationId in r.variants && x.adapterId == "" {
      var i :| 0 <= i < |r.variants| && r.variants[i] == x.implementationId;
      assert variants[i] == x;
    }
  }

  lemma CellsAre(lab: Lab, r: Run, b: Binding, x: MatrixCell)
    ensures x in CellsFor(lab, r, b, Choices(r)) <==>
      && x.key.labId == lab.id && x.key.requiredRunId == r.id && x.key.bindingId == b.id && x.key.claimId == b.claim
      && x.workload == r.workload && x.faults == r.faults && x.assertionIds == b.assertions && Selected(r, x)
  {
    hide Choices;
    var choice := Choice(x.role, x.key.implementationId, x.key.adapterId);
    ChoicesAre(r, choice);
    var cells := CellsFor(lab, r, b, Choices(r));
    if x in cells {
      var i :| 0 <= i < |cells| && cells[i] == x;
      assert x == CellFor(lab, r, b, Choices(r)[i]);
      ChoicesAre(r, Choices(r)[i]);
    }
    if choice in Choices(r) && x == CellFor(lab, r, b, choice) {
      var i :| 0 <= i < |Choices(r)| && Choices(r)[i] == choice;
      assert cells[i] == x;
    }
  }

  lemma {:induction false} NamedAre(bindings: seq<Binding>, id: string, b: Binding)
    ensures b in Named(bindings, id) <==> b in bindings && b.id == id
    ensures |Named(bindings, id)| <= 1 <==>
      forall i, j :: 0 <= i < j < |bindings| ==> bindings[i].id != id || bindings[j].id != id
  {
    if bindings != [] {
      var n := |bindings| - 1;
      var init := bindings[..n];
      NamedAre(init, id, b);
      assert bindings == init + [bindings[n]];
      NamedSome(init, id);
      assert forall i :: 0 <= i < n ==> init[i] == bindings[i];
    }
  }

  lemma {:induction false} NamedSome(bindings: seq<Binding>, id: string)
    ensures Named(bindings, id) == [] <==> forall i :: 0 <= i < |bindings| ==> bindings[i].id != id
  {
    if bindings != [] {
      var n := |bindings| - 1;
      NamedSome(bindings[..n], id);
      assert bindings == bindings[..n] + [bindings[n]];
    }
  }

  /** The i-th binding comes from the i-th source. */
  lemma SourceAt(c: Catalog, lab: Lab, i: nat)
    requires i < |lab.caseBindings| + |lab.principleBindings|
    ensures |Bindings(c, lab)| == |lab.caseBindings + lab.principleBindings|
    ensures Bindings(c, lab)[i]
         == BindingFrom(c, if i < |lab.caseBindings| then "case" else "principle", (lab.caseBindings + lab.principleBindings)[i])
  {
  }

  lemma SameIds(c: Catalog, lab: Lab, id: string)
    ensures |Named(Bindings(c, lab), id)| <= 1 <==> OnlyOne(lab.caseBindings + lab.principleBindings, id)
  {
    hide Named;
    var all, sources := Bindings(c, lab), lab.caseBindings + lab.principleBindings;
    forall i | 0 <= i < |sources|
      ensures all[i].id == sources[i].id
    {
      SourceAt(c, lab, i);
    }
    assert |all| == |sources|;
    NamedAre(all, id, Binding("", "", "", "", "", [], false));
  }

  /** The binding that a run resolves to is one its manifest lists. */
  lemma FitsIsBound(c: Catalog, lab: Lab, r: Run) returns (b: SourceBinding)
    requires BindingFits(c, lab, r)
    ensures BoundBy(c, lab, r, b)
  {
    hide Named, Bindings, OnlyOne;
    var all, sources := Bindings(c, lab), lab.caseBindings + lab.principleBindings;
    var named := Named(all, r.binding)[0];
    NamedAre(all, r.binding, named);
    SameIds(c, lab, r.binding);
    BindingsCounted(c, lab);
    var i :| 0 <= i < |all| && all[i] == named;
    SourceAt(c, lab, i);
    b := sources[i];
    assert if i < |lab.caseBindings| then b == lab.caseBindings[i] else b == lab.principleBindings[i - |lab.caseBindings|];
  }

  lemma BindingsCounted(c: Catalog, lab: Lab)
    ensures |Bindings(c, lab)| == |lab.caseBindings + lab.principleBindings|
  {
  }

  /** And conversely. */
  lemma BoundFits(c: Catalog, lab: Lab, r: Run, b: SourceBinding)
    requires BoundBy(c, lab, r, b)
    ensures BindingFits(c, lab, r)
    ensures var named := Named(Bindings(c, lab), r.binding)[0];
      named.id == b.id && named.claim == b.claim && named.assertions == b.assertions
  {
    hide Named, Bindings, OnlyOne;
    var all, sources, n := Bindings(c, lab), lab.caseBindings + lab.principleBindings, |lab.caseBindings|;
    var i: nat;
    if lab.kind == "scenario" {
      i :| 0 <= i < n && lab.caseBindings[i] == b;
    } else {
      var j :| 0 <= j < |lab.principleBindings| && lab.principleBindings[j] == b;
      i := n + j;
    }
    assert sources[i] == b;
    SourceAt(c, lab, i);
    NamedAre(all, r.binding, all[i]);
    SameIds(c, lab, r.binding);
    assert all[i] in Named(all, r.binding);
  }

  /**
   A cell is in the matrix exactly when a lab requires it: one run of an eligible lab and one
   binding say so, and the cell is the run's baseline, one of its variants or an adapter it needs.
   */
  lemma CellExactly(c: Catalog, lab: Lab, x: MatrixCell)
    ensures InCells(c, lab, x) <==> IsRequired(c, lab, x)
  {
    hide Eligible, SelectionsFit, AdaptersFit, BindingFits, BoundBy, CellsFor, Choices, CountId, Bindings, Named, Selected;
    forall r | r in lab.runs
      ensures x in RunCells(c, lab, r) <==> exists b :: Required(c, lab, r, b, x)
    {
      RunCellExactly(c, lab, r, x);
    }
  }

  lemma RunCellExactly(c: Catalog, lab: Lab, r: Run, x: MatrixCell)
    requires r in lab.runs
    ensures x in RunCells(c, lab, r) <==> exists b :: Required(c, lab, r, b, x)
  {
    hide Eligible, SelectionsFit, AdaptersFit, BoundBy, CellsFor, Choices, CountId, Bindings, Named, Selected;
    if x in RunCells(c, lab, r) {
      var b := FitsIsBound(c, lab, r);
      BoundFits(c, lab, r, b);
      CellsAre(lab, r, Named(Bindings(c, lab), r.binding)[0], x);
      assert Required(c, lab, r, b, x);
    }
    if b :| Required(c, lab, r, b, x) {
      BoundFits(c, lab, r, b);
      CellsAre(lab, r, Named(Bindings(c, lab), r.binding)[0], x);
    }
  }
}
