/** Building and auditing a release undo each other. */
module ReleaseRoundTrip {
  import opened Evidence
  import opened ReleaseContract
  import opened ReleaseBuild
  import opened ReleaseAudit

  /** The store returns each of the records, and lists no other record of their run set. */
  ghost predicate Holds(store: Store, records: seq<Record>) {
    && store.Store? && store.list.Listed?
    && (forall r <- records :: store.get(r.id) == Loaded(r))
    && forall x <- store.list.records, r <- records ::
      x.runSetId == r.runSetId ==> exists y <- records :: y.id == x.id
  }

  /** A bound snapshot whose records are exactly the store's records of its run set is accepted. */
  lemma BoundIsAccepted(rules: Rules, m: Manifest, expected: seq<ExpectedCell>, aligned: seq<Record>, store: Store)
    requires Bound(rules, m, expected, aligned) && Holds(store, aligned)
    ensures Accepts(rules, m, expected, store) && Stored(m, store.get) == aligned
  {
    hide Bound, SelectionFits, Matches, SelectionOf;
    BoundShape(rules, m, expected, aligned);
    forall k | 0 <= k < |m.selections|
      ensures store.get(m.selections[k].evidenceId) == Loaded(aligned[k]) && aligned[k].runSetId == m.runSetId
      ensures aligned[k].id == m.selections[k].evidenceId
    {
      BoundRecord(rules, m, expected, aligned, k);
      SelectedId(m.selections[k], aligned[k]);
    }
    assert Stored(m, store.get) == aligned;
    forall x | x in store.list.records && x.runSetId == m.runSetId
      ensures exists s <- m.selections :: s.evidenceId == x.id
    {
      assert aligned[0] in aligned;
      var y :| y in aligned && y.id == x.id;
      var k :| 0 <= k < |aligned| && aligned[k] == y;
      assert m.selections[k] in m.selections;
    }
  }

  lemma SelectedId(s: Selection, r: Record)
    ensures s == SelectionOf(r) ==> s.evidenceId == r.id
  {
  }

  /** Whatever an audit accepts, its records build exactly the audited manifest again, in any order. */
  lemma AcceptedRebuilds(rules: Rules, m: Manifest, expected: seq<ExpectedCell>, store: Store, current: seq<Record>)
    requires Accepts(rules, m, expected, store) && multiset(current) == multiset(Stored(m, store.get))
    ensures CanBuild(rules, m.inputDigest, expected, current)
    ensures |expected| == |m.selections| > 0 && ManifestOf(m.inputDigest, expected, Stored(m, store.get)) == m
  {
    hide Bound, CanBuild, ManifestOf;
    BoundRebuilds(rules, m, expected, Stored(m, store.get), current);
  }

  lemma HoldsPermuted(store: Store, a: seq<Record>, b: seq<Record>)
    requires Holds(store, a) && multiset(a) == multiset(b)
    ensures Holds(store, b)
  {
    assert forall r :: r in a <==> r in multiset(a);
    assert forall r :: r in b <==> r in multiset(b);
  }

  /** A manifest that was built is audited without findings, and binds the records it was built from. */
  method BuildThenAudit(rules: Rules, input: string, expected: seq<ExpectedCell>, current: seq<Record>, store: Store)
    returns (built: Built, audited: Audited, diagnostics: seq<Diagnostic>)
    requires Holds(store, current)
    ensures built.Built? <==> CanBuild(rules, input, expected, current)
    ensures built.Built? ==> diagnostics == [] && audited.Audited? && multiset(audited.records) == multiset(current)
  {
    hide Bound, CanBuild, Holds, Accepts, Operational;
    audited, diagnostics := NotBound, [];
    ghost var aligned;
    built, aligned := Build(rules, input, expected, current);
    if built.Built? {
      HoldsPermuted(store, current, aligned);
      BoundIsAccepted(rules, built.manifest, expected, aligned, store);
      var operational;
      audited, diagnostics, operational := AuditSnapshot(rules, built.manifest, expected, store);
    }
  }

  /** Building again from what an audit returned reproduces the audited manifest. */
  method AuditThenBuild(rules: Rules, m: Manifest, expected: seq<ExpectedCell>, store: Store)
    returns (audited: Audited, built: Built)
    ensures audited.Audited? <==> Accepts(rules, m, expected, store)
    ensures audited.Audited? ==> built == Built(m)
  {
    hide Bound, CanBuild, Accepts, Operational, Findings, ManifestOf;
    var diagnostics, operational;
    audited, diagnostics, operational := AuditSnapshot(rules, m, expected, store);
    built := Failed(CountMismatch);
    if audited.Audited? {
      AcceptedRebuilds(rules, m, expected, store, audited.records);
      ghost var aligned;
      built, aligned := Build(rules, m.inputDigest, expected, audited.records);
      AcceptedIsBound(rules, m, expected, store);
      BoundUnique(rules, built.manifest, m, expected, aligned, audited.records);
    }
  }

  lemma AcceptedIsBound(rules: Rules, m: Manifest, expected: seq<ExpectedCell>, store: Store)
    requires Accepts(rules, m, expected, store)
    ensures Bound(rules, m, expected, Stored(m, store.get))
  {
  }
}
