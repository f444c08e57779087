/** Go error values as the writer builds them: leaves, `%w` wrapping, errors.Join, and *Error. */
module ErrorTree {
  import opened ErrorWalk
  import opened ErrorClass

  datatype Err =
    | None
    | Leaf(leaf: Leaf)
    | Wrap(inner: Err)
    | Join(causes: seq<Err>)
    | Writer(stage: Stage, installed: bool, cause: Err)

  /** How one unwrapping step sees the tree. */
  function Unwrap(e: Err): Shape<Err> {
    match e
    case None => Nil
    case Leaf(leaf) => Plain(leaf)
    case Wrap(inner) => Wrapped(inner)
    case Join(causes) => Joined(causes)
    case Writer(stage, installed, cause) => WriterError(stage, installed, cause)
  }

  /** errors.Join: nil arguments are dropped, and nothing but nil joins to nil. */
  function JoinErrors(a: Err, b: Err): Err {
    if a == None && b == None then None
    else if a == None then Join([b])
    else if b == None then Join([a])
    else Join([a, b])
  }

  /** fmt.Errorf with two %w verbs. */
  function Both(a: Leaf, b: Err): Err {
    Join([Leaf(a), b])
  }

  function Leaves(e: Err): set<Leaf>
    decreases e, 1
  {
    match e
    case None => {}
    case Leaf(l) => {l}
    case Wrap(inner) => Leaves(inner)
    case Join(causes) => LeavesAll(causes)
    case Writer(_, _, cause) => Leaves(cause)
  }

  function LeavesAll(es: seq<Err>): set<Leaf>
    decreases es, 0
  {
    if es == [] then {} else Leaves(es[0]) + LeavesAll(es[1..])
  }

  lemma {:induction false} LeavesAllMembers(es: seq<Err>, leaf: Leaf)
    ensures leaf in LeavesAll(es) <==> exists i :: 0 <= i < |es| && leaf in Leaves(es[i])
  {
    if es != [] {
      LeavesAllMembers(es[1..], leaf);
      if i :| 0 <= i < |es[1..]| && leaf in Leaves(es[1..][i]) {
        assert es[i + 1] == es[1..][i];
      }
    }
  }

  predicate Mentions(e: Err, leaf: Leaf) {
    leaf in Leaves(e)
  }

  lemma BasicLeaves()
    ensures Leaves(None) == {}
    ensures forall l :: Leaves(Leaf(l)) == {l}
    ensures forall l :: Leaves(Wrap(Leaf(l))) == {l}
    ensures forall stage, installed, e :: Leaves(Writer(stage, installed, e)) == Leaves(e)
  {
  }

  lemma LeavesOfOne(a: Err)
    ensures Leaves(Join([a])) == Leaves(a)
  {
    var es := [a];
    assert es[1..] == [];
    assert LeavesAll(es) == Leaves(a) + LeavesAll([]);
  }

  lemma LeavesOfTwo(a: Err, b: Err)
    ensures Leaves(Join([a, b])) == Leaves(a) + Leaves(b)
  {
    var es := [a, b];
    assert es[1..] == [b];
    assert LeavesAll(es) == Leaves(a) + LeavesAll([b]);
    LeavesOfOne(b);
    assert Leaves(Join([b])) == LeavesAll([b]);
  }

  /** errors.Join and double wrapping carry the leaves of their arguments. */
  lemma JoinLeaves(a: Err, b: Err)
    ensures Leaves(JoinErrors(a, b)) == Leaves(a) + Leaves(b)
    ensures Leaves(Join([a, b])) == Leaves(a) + Leaves(b)
  {
    hide Leaves;
    BasicLeaves();
    LeavesOfOne(a);
    LeavesOfOne(b);
    LeavesOfTwo(a, b);
  }

  /** A mentioned leaf is reached by unwrapping. */
  lemma {:induction false} MentionedIsReached(e: Err, leaf: Leaf)
    requires Mentions(e, leaf)
    ensures exists path :: Reaches(Unwrap, e, path, Leaf(leaf))
    decreases e, 0
  {
    match e
    case Leaf(l) =>
      var here: seq<nat> := [];
      assert Reaches(Unwrap, e, here, Leaf(leaf));
    case Wrap(inner) =>
      ReachedThrough(e, 0, inner, leaf);
    case Join(causes) =>
      LeavesAllMembers(causes, leaf);
      var i :| 0 <= i < |causes| && leaf in Leaves(causes[i]);
      ReachedThrough(e, i, causes[i], leaf);
    case Writer(_, _, cause) =>
      ReachedThrough(e, 0, cause, leaf);
  }

  lemma {:induction false} ReachedThrough(e: Err, i: nat, c: Err, leaf: Leaf)
    requires Mentions(c, leaf) && c < e
    requires i < |Children(Unwrap, e)| && Children(Unwrap, e)[i] == c
    ensures exists path :: Reaches(Unwrap, e, path, Leaf(leaf))
    decreases c, 1
  {
    MentionedIsReached(c, leaf);
    var path :| Reaches(Unwrap, c, path, Leaf(leaf));
    ReachesChild(Unwrap, e, i, path, Leaf(leaf));
  }

  /** Conversely, every leaf reached by unwrapping is mentioned. */
  lemma {:induction false} ReachedIsMentioned(e: Err, path: seq<nat>, leaf: Leaf)
    requires Reaches(Unwrap, e, path, Leaf(leaf))
    ensures Mentions(e, leaf)
    decreases |path|
  {
    if path != [] {
      var i := path[0];
      ReachedIsMentioned(Children(Unwrap, e)[i], path[1..], leaf);
      if e.Join? {
        LeavesAllMembers(e.causes, leaf);
        assert leaf in Leaves(e.causes[i]);
      }
    }
  }
}
