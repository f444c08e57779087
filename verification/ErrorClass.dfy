/** When a writer's error counts as a pure "destination already exists" conflict. */
module ErrorClass {
  import opened ErrorWalk

  datatype Class =
    | NoError
    | Malformed(flags: set<Flag>)
    | Unsafe(alsoOperational: bool)
    | PureExists
    | ExistsWithFailure
    | OperationalFailure

  method ClassifyManifestWriterError<N(!new)>(view: View<N>, installed: bool, err: N) returns (class_: Class)
    ensures class_ == Classification(INSPECTION_LIMITS, view, installed, err) || class_.Malformed?
    ensures class_.Malformed? <==> !view(err).Nil? && !WithinBudget(INSPECTION_LIMITS, view, err)
    ensures class_.Malformed? ==> HasOperational in class_.flags
  {
    if view(err).Nil? {
      return NoError;
    }
    var inspection := new Inspection(INSPECTION_LIMITS, view, installed);
    inspection.Inspect(err);
    var analysis := inspection.analysis;
    if inspection.malformed {
      return Malformed(analysis.flags);
    }
    if HasUnsafe in analysis.flags {
      return Unsafe(HasOperational in analysis.flags);
    }
    if HasExists in analysis.flags {
      if analysis.writerErrors == 1 && analysis.pureExistsMetadata && HasOperational !in analysis.flags {
        return PureExists;
      }
      return ExistsWithFailure;
    }
    return OperationalFailure;
  }

  /** The class of an error within budget, read off the whole unfolding at once. */
  ghost function Classification<N(!new)>(lim: Limits, view: View<N>, installed: bool, err: N): Class {
    var a := Summary(view, installed, Preorder(view, err, lim.depth + 1));
    if view(err).Nil? then NoError
    else if HasUnsafe in a.flags then Unsafe(HasOperational in a.flags)
    else if HasExists !in a.flags then OperationalFailure
    else if a.writerErrors == 1 && a.pureExistsMetadata && HasOperational !in a.flags then PureExists
    else ExistsWithFailure
  }

  // ---- A description by paths ----------------------------------------------

  /** Unwrapping `n` along the child numbers in `path` arrives at `m`. */
  ghost predicate Reaches<N>(view: View<N>, n: N, path: seq<nat>, m: N) {
    if path == [] then n == m
    else path[0] < |Children(view, n)| && Reaches(view, Children(view, n)[path[0]], path[1..], m)
  }

  /** A value that may appear in a pure conflict. */
  predicate Benign<N>(view: View<N>, installed: bool, n: N) {
    match view(n)
    case Nil => false
    case NilWriterError => false
    case WriterError(stage, inst, _) => !inst && !installed && (stage.ValidatePath? || stage.Install?)
    case Joined(causes) => causes != []
    case Wrapped(inner) => !view(inner).Nil?
    case Plain(leaf) => leaf.ImmutableExists? || leaf.FileSystemExists? || leaf.SystemExists?
  }

  ghost predicate ReachesWriter<N(!new)>(view: View<N>, n: N, path: seq<nat>)
  {
    exists m :: Reaches(view, n, path, m) && view(m).WriterError?
  }

  ghost predicate AllBenign<N(!new)>(view: View<N>, installed: bool, n: N) {
    forall path, m :: Reaches(view, n, path, m) ==> Benign(view, installed, m)
  }

  ghost predicate OneWriter<N(!new)>(view: View<N>, n: N) {
    && (exists path :: ReachesWriter(view, n, path))
    && (forall p, q :: ReachesWriter(view, n, p) && ReachesWriter(view, n, q) ==> p == q)
  }

  ghost predicate NoWriter<N(!new)>(view: View<N>, n: N) {
    forall p :: !ReachesWriter(view, n, p)
  }

  lemma ReachesChild<N(!new)>(view: View<N>, n: N, i: nat, path: seq<nat>, m: N)
    requires i < |Children(view, n)|
    ensures Reaches(view, n, [i] + path, m) <==> Reaches(view, Children(view, n)[i], path, m)
  {
    assert ([i] + path)[1..] == path;
  }

  ghost predicate Quiet(a: Analysis) {
    HasOperational !in a.flags && HasUnsafe !in a.flags && a.pureExistsMetadata
  }

  lemma QuietMark<N>(view: View<N>, installed: bool, n: N)
    ensures Quiet(Mark(view, installed, n)) <==> Benign(view, installed, n)
  {
  }

  lemma {:induction false} QuietSummary<N(!new)>(view: View<N>, installed: bool, ns: seq<N>)
    ensures Quiet(Summary(view, installed, ns)) <==> forall n <- ns :: Benign(view, installed, n)
  {
    if ns != [] {
      var rest := ns[..|ns| - 1];
      QuietSummary(view, installed, rest);
      QuietMark(view, installed, ns[|ns| - 1]);
      assert ns == rest + [ns[|ns| - 1]];
    }
  }

  /** The unfolding lists exactly the values that unwrapping reaches. */
  lemma {:induction false} PreorderReaches<N(!new)>(view: View<N>, n: N, levels: nat, m: N)
    requires !Deep(view, n, levels)
    ensures m in Preorder(view, n, levels) <==> exists path :: Reaches(view, n, path, m)
    decreases levels, 0
  {
    var cs := Children(view, n);
    var below := PreorderAll(view, cs, levels - 1);
    PreorderAllReaches(view, cs, levels - 1, m);
    assert m in Preorder(view, n, levels) <==> m == n || m in below;
    if m == n {
      var here: seq<nat> := [];
      assert Reaches(view, n, here, m);
      assert exists path :: Reaches(view, n, path, m);
      assert m in Preorder(view, n, levels);
    } else if m in below {
      var i: nat, path :| i < |cs| && Reaches(view, cs[i], path, m);
      ReachesChild(view, n, i, path, m);
    } else {
      forall path
        ensures !Reaches(view, n, path, m)
      {
        assert path == [] || path[0] >= |cs| || !Reaches(view, cs[path[0]], path[1..], m);
      }
    }
  }

  lemma {:induction false} PreorderAllReaches<N(!new)>(view: View<N>, ns: seq<N>, levels: nat, m: N)
    requires forall n <- ns :: !Deep(view, n, levels)
    ensures m in PreorderAll(view, ns, levels) <==> exists i: nat, path :: i < |ns| && Reaches(view, ns[i], path, m)
    decreases levels, 1, |ns|
  {
    if ns != [] {
      PreorderReaches(view, ns[0], levels, m);
      PreorderAllReaches(view, ns[1..], levels, m);
      if i: nat, path :| i < |ns| && Reaches(view, ns[i], path, m) {
        assert i == 0 || ns[i] == ns[1..][i - 1];
      }
      if i: nat, path :| i < |ns[1..]| && Reaches(view, ns[1..][i], path, m) {
        assert ns[i + 1] == ns[1..][i];
      }
    }
  }

  /** The merged flags are quiet exactly when every value the unfolding reaches is benign. */
  lemma QuietIsBenign<N(!new)>(view: View<N>, installed: bool, n: N, levels: nat)
    requires !Deep(view, n, levels)
    ensures Quiet(Summary(view, installed, Preorder(view, n, levels))) <==> AllBenign(view, installed, n)
  {
    QuietSummary(view, installed, Preorder(view, n, levels));
    forall m
      ensures m in Preorder(view, n, levels) <==> exists path :: Reaches(view, n, path, m)
    {
      PreorderReaches(view, n, levels, m);
    }
  }

  /** A finite unfolding of benign values ends in an exists sentinel. */
  lemma {:induction false} BenignExists<N(!new)>(view: View<N>, installed: bool, n: N, levels: nat)
    requires !Deep(view, n, levels) && AllBenign(view, installed, n)
    ensures exists m <- Preorder(view, n, levels) :: HasExists in Mark(view, installed, m).flags
    decreases levels
  {
    assert Reaches(view, n, [], n);
    var cs := Children(view, n);
    if cs == [] {
      assert n in Preorder(view, n, levels);
    } else {
      assert cs[0] in cs;
      forall path, m | Reaches(view, cs[0], path, m)
        ensures Benign(view, installed, m)
      {
        ReachesChild(view, n, 0, path, m);
      }
      BenignExists(view, installed, cs[0], levels - 1);
      var m :| m in Preorder(view, cs[0], levels - 1) && HasExists in Mark(view, installed, m).flags;
      assert m in Preorder(view, n, levels);
    }
  }

  lemma {:induction false} FlagShows<N(!new)>(view: View<N>, installed: bool, ns: seq<N>, flag: Flag)
    ensures flag in Summary(view, installed, ns).flags <==> exists n <- ns :: flag in Mark(view, installed, n).flags
  {
    if ns != [] {
      var rest := ns[..|ns| - 1];
      FlagShows(view, installed, rest, flag);
      assert ns == rest + [ns[|ns| - 1]];
    }
  }

  // ---- Counting writer errors ------------------------------------------------

  function Writers<N>(view: View<N>, ns: seq<N>): nat {
    if ns == [] then 0 else (if view(ns[0]).WriterError? then 1 else 0) + Writers(view, ns[1..])
  }

  lemma {:induction false} WritersConcat<N>(view: View<N>, a: seq<N>, b: seq<N>)
    ensures Writers(view, a + b) == Writers(view, a) + Writers(view, b)
  {
    if a == [] {
      assert a + b == b;
    } else {
      assert (a + b)[1..] == a[1..] + b;
      WritersConcat(view, a[1..], b);
    }
  }

  lemma {:induction false} WritersSummary<N>(view: View<N>, installed: bool, ns: seq<N>)
    ensures Summary(view, installed, ns).writerErrors == Writers(view, ns)
  {
    if ns != [] {
      var rest, last := ns[..|ns| - 1], ns[|ns| - 1];
      WritersSummary(view, installed, rest);
      WritersConcat(view, rest, [last]);
      assert ns == rest + [last];
      assert Writers(view, [last]) == if view(last).WriterError? then 1 else 0;
    }
  }

  /** Among the children none, or just one, leads to a writer error. */
  ghost predicate NoneOf<N(!new)>(view: View<N>, ns: seq<N>) {
    forall i :: 0 <= i < |ns| ==> NoWriter(view, ns[i])
  }

  ghost predicate OneOf<N(!new)>(view: View<N>, ns: seq<N>) {
    exists i :: 0 <= i < |ns| && OneWriter(view, ns[i]) && forall j :: 0 <= j < |ns| && j != i ==> NoWriter(view, ns[j])
  }

  /** Counting writer errors and comparing their paths are the same thing. */
  lemma {:induction false} WriterCount<N(!new)>(view: View<N>, n: N, levels: nat)
    requires !Deep(view, n, levels)
    ensures Writers(view, Preorder(view, n, levels)) == 0 <==> NoWriter(view, n)
    ensures Writers(view, Preorder(view, n, levels)) == 1 <==> OneWriter(view, n)
    decreases levels, 0
  {
    var cs := Children(view, n);
    assert forall c <- cs :: !Deep(view, c, levels - 1);
    hide NoWriter, OneWriter, NoneOf, OneOf, Deep;
    WriterCountAll(view, cs, levels - 1);
    NoWriterPaths(view, n);
    OneWriterPaths(view, n);
  }

  lemma {:induction false} WriterCountAll<N(!new)>(view: View<N>, ns: seq<N>, levels: nat)
    requires forall n <- ns :: !Deep(view, n, levels)
    ensures Writers(view, PreorderAll(view, ns, levels)) == 0 <==> NoneOf(view, ns)
    ensures Writers(view, PreorderAll(view, ns, levels)) == 1 <==> OneOf(view, ns)
    decreases levels, 1, |ns|
  {
    hide NoWriter, OneWriter;
    if ns != [] {
      WriterCount(view, ns[0], levels);
      WriterCountAll(view, ns[1..], levels);
      WritersConcat(view, Preorder(view, ns[0], levels), PreorderAll(view, ns[1..], levels));
      ConsOf(view, ns[0], ns[1..]);
      assert ns == [ns[0]] + ns[1..];
    }
  }

  lemma ConsOf<N(!new)>(view: View<N>, n: N, ns: seq<N>)
    ensures NoneOf(view, [n] + ns) <==> NoWriter(view, n) && NoneOf(view, ns)
    ensures OneOf(view, [n] + ns) <==> (OneWriter(view, n) && NoneOf(view, ns)) || (NoWriter(view, n) && OneOf(view, ns))
  {
    var all := [n] + ns;
    assert forall i :: 0 < i < |all| ==> all[i] == ns[i - 1];
    if NoWriter(view, n) && OneOf(view, ns) {
      var i :| 0 <= i < |ns| && OneWriter(view, ns[i]) && forall j :: 0 <= j < |ns| && j != i ==> NoWriter(view, ns[j]);
      assert OneWriter(view, all[i + 1]);
    }
    if OneWriter(view, n) && NoneOf(view, ns) {
      assert OneWriter(view, all[0]);
    }
    if OneOf(view, all) {
      var i :| 0 <= i < |all| && OneWriter(view, all[i]) && forall j :: 0 <= j < |all| && j != i ==> NoWriter(view, all[j]);
      forall j | 0 <= j < |ns| && j != i - 1
        ensures NoWriter(view, ns[j])
      {
        assert ns[j] == all[j + 1];
      }
    }
    if NoneOf(view, all) {
      assert forall j :: 0 <= j < |ns| ==> ns[j] == all[j + 1];
      assert all[0] == n;
    }
  }

  /** Paths to writer errors are the empty one and those through a child. */
  lemma WriterPath<N(!new)>(view: View<N>, n: N, path: seq<nat>)
    ensures ReachesWriter(view, n, path) <==>
      if path == [] then view(n).WriterError?
      else path[0] < |Children(view, n)| && ReachesWriter(view, Children(view, n)[path[0]], path[1..])
  {
    if path == [] {
      assert Reaches(view, n, [], n);
    } else if path[0] < |Children(view, n)| {
      forall m
        ensures Reaches(view, n, path, m) <==> Reaches(view, Children(view, n)[path[0]], path[1..], m)
      {
      }
    }
  }

  lemma NoWriterPaths<N(!new)>(view: View<N>, n: N)
    ensures NoWriter(view, n) <==> !view(n).WriterError? && NoneOf(view, Children(view, n))
  {
    var cs := Children(view, n);
    forall path
      ensures ReachesWriter(view, n, path) <==>
        if path == [] then view(n).WriterError? else path[0] < |cs| && ReachesWriter(view, cs[path[0]], path[1..])
    {
      WriterPath(view, n, path);
    }
    WriterPath(view, n, []);
    forall i: nat, path | i < |cs| && ReachesWriter(view, cs[i], path)
      ensures ReachesWriter(view, n, [i] + path)
    {
      assert ([i] + path)[1..] == path;
    }
  }

  lemma OneWriterPaths<N(!new)>(view: View<N>, n: N)
    ensures OneWriter(view, n) <==>
      if view(n).WriterError? then NoneOf(view, Children(view, n)) else OneOf(view, Children(view, n))
  {
    var cs := Children(view, n);
    WriterPath(view, n, []);
    forall i: nat, path | i < |cs|
      ensures ReachesWriter(view, n, [i] + path) <==> ReachesWriter(view, cs[i], path)
    {
      WriterPath(view, n, [i] + path);
      assert ([i] + path)[1..] == path;
    }
    forall path | path != [] && ReachesWriter(view, n, path)
      ensures path[0] < |cs| && ReachesWriter(view, cs[path[0]], path[1..]) && path == [path[0]] + path[1..]
    {
      WriterPath(view, n, path);
    }
    if OneWriter(view, n) {
      OneGivesChild(view, n);
    }
    if view(n).WriterError? && NoneOf(view, cs) {
      forall p, q | ReachesWriter(view, n, p) && ReachesWriter(view, n, q)
        ensures p == q
      {
      }
    }
    if !view(n).WriterError? && OneOf(view, cs) {
      ChildGivesOne(view, n);
    }
  }

  lemma OneGivesChild<N(!new)>(view: View<N>, n: N)
    requires OneWriter(view, n)
    ensures if view(n).WriterError? then NoneOf(view, Children(view, n)) else OneOf(view, Children(view, n))
  {
    var cs := Children(view, n);
    var p :| ReachesWriter(view, n, p);
    WriterPath(view, n, p);
    WriterPath(view, n, []);
    forall i: nat, path | i < |cs| && ReachesWriter(view, cs[i], path)
      ensures p == [i] + path
    {
      WriterPath(view, n, [i] + path);
      assert ([i] + path)[1..] == path;
    }
    if !view(n).WriterError? {
      var i := p[0];
      assert ReachesWriter(view, cs[i], p[1..]);
      assert forall path :: ReachesWriter(view, cs[i], path) ==> path == p[1..];
      assert OneWriter(view, cs[i]);
    }
  }

  lemma ChildGivesOne<N(!new)>(view: View<N>, n: N)
    requires !view(n).WriterError? && OneOf(view, Children(view, n))
    ensures OneWriter(view, n)
  {
    var cs := Children(view, n);
    var i :| 0 <= i < |cs| && OneWriter(view, cs[i]) && forall j :: 0 <= j < |cs| && j != i ==> NoWriter(view, cs[j]);
    var path :| ReachesWriter(view, cs[i], path);
    WriterPath(view, n, [i] + path);
    assert ([i] + path)[1..] == path;
    forall p | ReachesWriter(view, n, p)
      ensures p == [i] + path
    {
      WriterPath(view, n, p);
    }
  }

  /**
   The certificate is exact: an error is a pure conflict if and only if it stays within the
   inspection budget, every value it unwraps to is benign (so every leaf is one of the three
   exists sentinels, and no writer claims an installation or another stage), and exactly one
   of them is a writer error.
   */
  lemma PureExistsExactly<N(!new)>(lim: Limits, view: View<N>, installed: bool, err: N)
    requires WithinBudget(lim, view, err)
    ensures Classification(lim, view, installed, err) == PureExists
            <==> AllBenign(view, installed, err) && OneWriter(view, err)
  {
    var levels := lim.depth + 1;
    var all := Preorder(view, err, levels);
    QuietIsBenign(view, installed, err, levels);
    WritersSummary(view, installed, all);
    WriterCount(view, err, levels);
    FlagShows(view, installed, all, HasExists);
    if AllBenign(view, installed, err) {
      BenignExists(view, installed, err, levels);
      assert Reaches(view, err, [], err);
    }
  }

  // ---- The other classes ---------------------------------------------------------

  /** Some value that unwrapping reaches is of this kind. */
  ghost predicate ReachesSome<N(!new)>(view: View<N>, n: N, kind: N -> bool) {
    exists path, m :: Reaches(view, n, path, m) && kind(m)
  }

  /** The value is, or passes for, an unsafe path or an invalid write. */
  predicate SaysUnsafe<N>(view: View<N>, n: N) {
    view(n).Plain? && var leaf := view(n).leaf; leaf.UnsafePath? || leaf.InvalidWrite? || (leaf.Other? && leaf.like.unsafe)
  }

  /** The value is, or passes for, one of the exists sentinels. */
  predicate SaysExists<N>(view: View<N>, n: N) {
    view(n).Plain? && var leaf := view(n).leaf;
    leaf.ImmutableExists? || leaf.FileSystemExists? || leaf.SystemExists? || (leaf.Other? && leaf.like.exists_)
  }

  /** The value is more than a conflict or an unsafe path: another failure, or not well formed. */
  predicate Disturbs<N>(view: View<N>, installed: bool, n: N) {
    match view(n)
    case Nil => true
    case NilWriterError => true
    case WriterError(stage, inst, _) => stage.Unknown? || inst != installed
    case Joined(causes) => causes == []
    case Wrapped(inner) => view(inner).Nil?
    case Plain(leaf) =>
      leaf.Canceled? || leaf.DeadlineExceeded? || leaf.SnapshotUnsafePath? || leaf.SnapshotIO? || leaf.Other?
  }

  lemma FlagByPath<N(!new)>(lim: Limits, view: View<N>, installed: bool, err: N, flag: Flag, kind: N -> bool)
    requires WithinBudget(lim, view, err)
    requires forall m :: kind(m) <==> flag in Mark(view, installed, m).flags
    ensures flag in Summary(view, installed, Preorder(view, err, lim.depth + 1)).flags <==> ReachesSome(view, err, kind)
  {
    hide Mark, Summary, Deep, Preorder;
    var all := Preorder(view, err, lim.depth + 1);
    FlagShows(view, installed, all, flag);
    forall m
      ensures m in all <==> exists path :: Reaches(view, err, path, m)
    {
      PreorderReaches(view, err, lim.depth + 1, m);
    }
    if ReachesSome(view, err, kind) {
      var path, m :| Reaches(view, err, path, m) && kind(m);
      assert m in all;
    }
  }

  /**
   The class of an error within budget, told by what unwrapping reaches: unsafe goes first,
   with its companion for any other failure; then a conflict, pure or not; then the rest.
   */
  lemma ClassExactly<N(!new)>(lim: Limits, view: View<N>, installed: bool, err: N)
    requires WithinBudget(lim, view, err)
    ensures
      var class_ := Classification(lim, view, installed, err);
      var unsafe, exists_ := ReachesSome(view, err, m => SaysUnsafe(view, m)), ReachesSome(view, err, m => SaysExists(view, m));
      && (class_ == NoError <==> view(err).Nil?)
      && (class_.Unsafe? <==> unsafe)
      && (class_.Unsafe? ==> (class_.alsoOperational <==> ReachesSome(view, err, m => Disturbs(view, installed, m))))
      && (class_ == PureExists <==> AllBenign(view, installed, err) && OneWriter(view, err))
      && (class_ == ExistsWithFailure
          <==> !unsafe && exists_ && !(AllBenign(view, installed, err) && OneWriter(view, err)))
      && (class_ == OperationalFailure <==> !view(err).Nil? && !unsafe && !exists_)
  {
    hide Summary, Deep, Preorder, AllBenign, OneWriter, WithinBudget;
    FlagByPath(lim, view, installed, err, HasUnsafe, m => SaysUnsafe(view, m));
    FlagByPath(lim, view, installed, err, HasExists, m => SaysExists(view, m));
    FlagByPath(lim, view, installed, err, HasOperational, m => Disturbs(view, installed, m));
    PureExistsExactly(lim, view, installed, err);
    if view(err).Nil? {
      NilReachesItself(view, err);
    }
  }

  lemma NilReachesItself<N(!new)>(view: View<N>, err: N)
    requires view(err).Nil?
    ensures forall path, m :: Reaches(view, err, path, m) ==> m == err
  {
  }
}
