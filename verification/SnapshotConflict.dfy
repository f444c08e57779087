/** Recognising a certified conflict in whatever error a caller was handed. */
module SnapshotConflict {
  import opened ErrorClass

  // How one unwrapping step sees an error: the certificate itself, several causes, one cause,
  // or nothing to unwrap. The graph of errors may be cyclic.
  datatype Wrapping<N> = Absent | Certificate | Several(causes: seq<N>) | Single(cause: N) | Opaque

  const WRAPPER_LIMIT: nat := 64

  /** `k` unwrapping steps, each with exactly one cause, lead from `n` to the certificate. */
  predicate CertifiedAfter<N>(view: N -> Wrapping<N>, n: N, k: nat) {
    if k == 0 then view(n).Certificate?
    else
      match view(n)
      case Several(causes) => |causes| == 1 && !view(causes[0]).Absent? && CertifiedAfter(view, causes[0], k - 1)
      case Single(cause) => CertifiedAfter(view, cause, k - 1)
      case _ => false
  }

  /** Fewer than 64 unary wrappers enclose the certificate. */
  ghost predicate Certified<N(!new)>(view: N -> Wrapping<N>, n: N) {
    exists k: nat :: k < WRAPPER_LIMIT && CertifiedAfter(view, n, k)
  }

  /** IsPureSnapshotExists: true exactly when fewer than 64 unary wrappers enclose the certificate. */
  method IsPureSnapshotExists<N(!new)>(view: N -> Wrapping<N>, err: N) returns (pure_: bool)
    ensures pure_ <==> Certified(view, err)
  {
    var current := err;
    for depth := 0 to WRAPPER_LIMIT
      invariant forall k: nat :: k < depth ==> !CertifiedAfter(view, err, k)
      invariant forall k: nat :: CertifiedAfter(view, err, depth + k) <==> CertifiedAfter(view, current, k)
    {
      assert CertifiedAfter(view, err, depth + 0) <==> CertifiedAfter(view, current, 0);
      ghost var before := current;
      match view(current) {
        case Absent =>
          NoFurther(view, err, current, depth);
          return false;
        case Certificate =>
          assert CertifiedAfter(view, err, depth + 0);
          return true;
        case Several(causes) =>
          if |causes| != 1 || view(causes[0]).Absent? {
            NoFurther(view, err, current, depth);
            return false;
          }
          current := causes[0];
        case Single(cause) =>
          current := cause;
        case Opaque =>
          NoFurther(view, err, current, depth);
          return false;
      }
      forall k: nat
        ensures CertifiedAfter(view, err, depth + 1 + k) <==> CertifiedAfter(view, current, k)
      {
        assert CertifiedAfter(view, err, depth + (k + 1)) <==> CertifiedAfter(view, before, k + 1);
      }
    }
    return false;
  }

  /** A value that is no certificate and unwraps to nothing single ends the search. */
  lemma NoFurther<N(!new)>(view: N -> Wrapping<N>, err: N, current: N, depth: nat)
    requires forall k: nat :: k < depth ==> !CertifiedAfter(view, err, k)
    requires forall k: nat :: CertifiedAfter(view, err, depth + k) <==> CertifiedAfter(view, current, k)
    requires
      match view(current)
      case Absent => true
      case Opaque => true
      case Several(causes) => |causes| != 1 || view(causes[0]).Absent?
      case _ => false
    ensures forall k: nat :: !CertifiedAfter(view, err, k)
  {
    forall k: nat
      ensures !CertifiedAfter(view, err, k)
    {
      if k >= depth {
        assert CertifiedAfter(view, err, depth + (k - depth)) <==> CertifiedAfter(view, current, k - depth);
      }
    }
  }

  // ---- The error of a manifest write -------------------------------------------

  // What the storage layer joins: the classified writer error and its own verifications.
  datatype StoreError =
    | Nothing
    | Classified(class_: Class)
    | ChainChanged
    | TargetChanged
    | CloseFailed
    | Together(causes: seq<StoreError>)

  function StoreView(e: StoreError): Wrapping<StoreError> {
    match e
    case Nothing => Absent
    case Classified(PureExists) => Certificate
    case Together(causes) => Several(causes)
    case _ => Opaque
  }

  /** errors.Join */
  function Combine(errs: seq<StoreError>): StoreError {
    var present := Present(errs);
    if present == [] then Nothing else Together(present)
  }

  function Present(errs: seq<StoreError>): seq<StoreError> {
    if errs == [] then []
    else (if errs[0] == Nothing then [] else [errs[0]]) + Present(errs[1..])
  }

  function When(failed: bool, e: StoreError): StoreError {
    if failed then e else Nothing
  }

  /** The error of a write whose verifications and final close went as told. */
  function StorageResult(class_: Class, chainFails: bool, targetFails: bool, closeFails: bool): StoreError {
    var writer := if class_ == NoError then Nothing else Classified(class_);
    var result := Combine([writer, When(chainFails, ChainChanged), When(targetFails, TargetChanged)]);
    if closeFails then Combine([result, CloseFailed]) else result
  }

  ghost predicate IsPure(e: StoreError) {
    Certified(StoreView, e)
  }

  lemma PresentThree(a: StoreError, b: StoreError, c: StoreError)
    ensures Present([a, b, c]) == Present([a]) + (Present([b]) + Present([c]))
  {
    assert [a, b, c][1..] == [b, c] && [b, c][1..] == [c] && [a][1..] == [] && [b][1..] == [];
  }

  lemma PresentOne(a: StoreError)
    ensures Present([a]) == if a == Nothing then [] else [a]
  {
  }

  /** An error whose certificate is neither at hand nor one wrapper away, and that wraps nothing deeper. */
  lemma NotCertified(e: StoreError)
    requires !StoreView(e).Certificate?
    requires e.Together? && |e.causes| == 1 ==> !e.causes[0].Together? && !StoreView(e.causes[0]).Certificate?
    ensures !IsPure(e)
  {
    forall k: nat
      ensures !CertifiedAfter(StoreView, e, k)
    {
      if k > 0 && e.Together? && |e.causes| == 1 {
        assert StoreView(e) == Several(e.causes);
        assert !CertifiedAfter(StoreView, e.causes[0], k - 1);
      }
    }
  }

  /** A stored error is recognised as a pure conflict exactly when nothing else went wrong either. */
  lemma RecognisedExactly(class_: Class, chainFails: bool, targetFails: bool, closeFails: bool)
    ensures StorageResult(class_, chainFails, targetFails, closeFails) == Nothing
            <==> class_ == NoError && !chainFails && !targetFails && !closeFails
    ensures IsPure(StorageResult(class_, chainFails, targetFails, closeFails))
            <==> class_ == PureExists && !chainFails && !targetFails && !closeFails
  {
    hide IsPure, CertifiedAfter, Present;
    var writer := if class_ == NoError then Nothing else Classified(class_);
    var chain, target := When(chainFails, ChainChanged), When(targetFails, TargetChanged);
    PresentThree(writer, chain, target);
    PresentOne(writer);
    PresentOne(chain);
    PresentOne(target);
    var result := Combine([writer, chain, target]);
    PresentTwo(result, CloseFailed);
    PresentOne(result);
    PresentOne(CloseFailed);
    var e := StorageResult(class_, chainFails, targetFails, closeFails);
    if class_ == PureExists && !chainFails && !targetFails && !closeFails {
      assert Present([writer, chain, target]) == [writer];
      OneWrapper();
    } else {
      NotCertified(e);
    }
  }

  lemma PresentTwo(a: StoreError, b: StoreError)
    ensures Present([a, b]) == Present([a]) + Present([b])
  {
    assert [a, b][1..] == [b] && [a][1..] == [];
  }

  lemma OneWrapper()
    ensures IsPure(Together([Classified(PureExists)]))
  {
    assert CertifiedAfter(StoreView, Classified(PureExists), 0);
    assert CertifiedAfter(StoreView, Together([Classified(PureExists)]), 1);
  }
}
