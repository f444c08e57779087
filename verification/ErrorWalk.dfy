/**
 The walk over an untrusted error. The error is seen only through a function that unwraps one
 step, so the graph of errors may be cyclic or branch without end; the walk keeps an explicit
 stack and gives up beyond a depth and a number of nodes.
 */
module ErrorWalk {
  // `view` says how one error value unwraps; values of type N may refer to each other at will.

  // What a sentinel lookalike answers to errors.Is.
  datatype Likeness = Likeness(exists_: bool, unsafe: bool, canceled: bool, deadline: bool, releaseUnsafe: bool)

  datatype Leaf =
    | ImmutableExists
    | FileSystemExists
    | SystemExists
    | UnsafePath
    | InvalidWrite
    | Canceled
    | DeadlineExceeded
    | SnapshotUnsafePath
    | SnapshotIO
    | Other(origin: string, like: Likeness)

  datatype Stage =
    | ValidatePath | CreateTemp | SetMode | Write | ShortWrite | SyncFile | CloseFile
    | Install | SyncInstall | RemoveTemp | SyncCleanup | CloseDirectory
    | Unknown(name: string)

  datatype Shape<N> =
    | Nil
    | NilWriterError
    | WriterError(stage: Stage, installed: bool, cause: N)
    | Joined(causes: seq<N>)
    | Wrapped(inner: N)
    | Plain(leaf: Leaf)

  type View<!N> = N -> Shape<N>

  // The inspection budget; every theorem holds for any budget.
  datatype Limits = Limits(depth: nat, nodes: nat)

  const INSPECTION_LIMITS := Limits(64, 256)

  // The boolean fields of the analysis, as the set of those that are true.
  datatype Flag =
    | HasExists | HasImmutableExists | HasFileSystemExists | HasSystemExists
    | HasUnsafe | HasImmutableUnsafe | HasImmutableInvalid
    | HasCanceled | HasDeadline | HasReleaseUnsafe
    | HasOperational

  datatype Analysis = Analysis(flags: set<Flag>, writerErrors: nat, pureExistsMetadata: bool)

  const CLEAN := Analysis({}, 0, true)
  const OPERATIONAL := Analysis({HasOperational}, 0, true)

  /** Flags accumulate, writer errors add up, metadata must be pure throughout. */
  function Merge(a: Analysis, b: Analysis): Analysis {
    Analysis(a.flags + b.flags, a.writerErrors + b.writerErrors, a.pureExistsMetadata && b.pureExistsMetadata)
  }

  function LeafFlags(leaf: Leaf): set<Flag> {
    match leaf
    case ImmutableExists => {HasExists, HasImmutableExists}
    case FileSystemExists => {HasExists, HasFileSystemExists}
    case SystemExists => {HasExists, HasSystemExists}
    case UnsafePath => {HasUnsafe, HasImmutableUnsafe}
    case InvalidWrite => {HasUnsafe, HasImmutableInvalid}
    case Canceled => {HasCanceled, HasOperational}
    case DeadlineExceeded => {HasDeadline, HasOperational}
    case SnapshotUnsafePath => {HasReleaseUnsafe, HasOperational}
    case SnapshotIO => {HasOperational}
    case Other(_, like) =>
      {HasOperational}
      + (if like.exists_ then {HasExists} else {})
      + (if like.unsafe then {HasUnsafe} else {})
      + (if like.canceled then {HasCanceled} else {})
      + (if like.deadline then {HasDeadline} else {})
      + (if like.releaseUnsafe then {HasReleaseUnsafe} else {})
  }

  /** What one error value contributes by itself, given the result the writer returned. */
  function Mark<N>(view: View<N>, installed: bool, n: N): Analysis {
    match view(n)
    case Nil => OPERATIONAL
    case NilWriterError => OPERATIONAL
    case WriterError(stage, inst, _) =>
      Analysis(if stage.Unknown? || inst != installed then {HasOperational} else {}, 1,
               !inst && (stage.ValidatePath? || stage.Install?))
    case Joined(causes) => if causes == [] then OPERATIONAL else CLEAN
    case Wrapped(inner) => if view(inner).Nil? then OPERATIONAL else CLEAN
    case Plain(leaf) => Analysis(LeafFlags(leaf), 0, true)
  }

  /** The values one unwrapping step leads to. */
  function Children<N>(view: View<N>, n: N): seq<N> {
    match view(n)
    case WriterError(_, _, cause) => [cause]
    case Joined(causes) => causes
    case Wrapped(inner) => if view(inner).Nil? then [] else [inner]
    case _ => []
  }

  // ---- The unfolding of an error value -----------------------------------

  /** The nodes within the first `levels` levels of the unfolding, each before its causes. */
  ghost function Preorder<N>(view: View<N>, n: N, levels: nat): seq<N>
    decreases levels, 0
  {
    if levels == 0 then [] else [n] + PreorderAll(view, Children(view, n), levels - 1)
  }

  ghost function PreorderAll<N>(view: View<N>, ns: seq<N>, levels: nat): seq<N>
    decreases levels, 1, |ns|
  {
    if ns == [] then [] else Preorder(view, ns[0], levels) + PreorderAll(view, ns[1..], levels)
  }

  /** The marks of some nodes, merged. */
  ghost function Summary<N>(view: View<N>, installed: bool, ns: seq<N>): Analysis {
    if ns == [] then CLEAN
    else Merge(Summary(view, installed, ns[..|ns| - 1]), Mark(view, installed, ns[|ns| - 1]))
  }

  lemma SummarySnoc<N>(view: View<N>, installed: bool, ns: seq<N>, n: N)
    ensures Summary(view, installed, ns + [n]) == Merge(Summary(view, installed, ns), Mark(view, installed, n))
  {
    assert (ns + [n])[..|ns|] == ns;
  }

  /** Some chain of `steps` unwrappings starts at `n`. */
  ghost predicate Deep<N(!new)>(view: View<N>, n: N, steps: nat) {
    steps == 0 || exists c <- Children(view, n) :: Deep(view, c, steps - 1)
  }

  /** The whole unfolding stays within the inspection budget. */
  ghost predicate WithinBudget<N(!new)>(lim: Limits, view: View<N>, root: N) {
    !Deep(view, root, lim.depth + 1) && |Preorder(view, root, lim.depth + 1)| <= lim.nodes
  }

  /** Nothing is left below the deepest level, so more levels see the same unfolding. */
  lemma {:induction false} Exhausted<N(!new)>(view: View<N>, n: N, levels: nat, more: nat)
    requires !Deep(view, n, levels) && levels <= more
    ensures Preorder(view, n, more) == Preorder(view, n, levels)
    decreases levels, 0
  {
    if levels > 0 {
      ExhaustedAll(view, Children(view, n), levels - 1, more - 1);
    }
  }

  lemma {:induction false} ExhaustedAll<N(!new)>(view: View<N>, ns: seq<N>, levels: nat, more: nat)
    requires forall c <- ns :: !Deep(view, c, levels)
    requires levels <= more
    ensures PreorderAll(view, ns, more) == PreorderAll(view, ns, levels)
    decreases levels, 1, |ns|
  {
    if ns != [] {
      Exhausted(view, ns[0], levels, more);
      ExhaustedAll(view, ns[1..], levels, more);
    }
  }

  // ---- The walk -----------------------------------------------------------

  datatype Node<N> = Node(err: N, depth: nat)

  /** Levels still to be unfolded below a stacked node. */
  function LevelsLeft(lim: Limits, depth: nat): nat {
    if depth <= lim.depth + 1 then lim.depth + 2 - depth else 0
  }

  // The stack is a Go slice whose top is its last element.
  ghost function Pending<N>(lim: Limits, view: View<N>, stack: seq<Node<N>>): seq<N> {
    if stack == [] then []
    else
      var top := stack[|stack| - 1];
      Preorder(view, top.err, LevelsLeft(lim, top.depth)) + Pending(lim, view, stack[..|stack| - 1])
  }

  ghost predicate PendingDeep<N(!new)>(lim: Limits, view: View<N>, stack: seq<Node<N>>) {
    exists s <- stack :: s.depth <= lim.depth + 1 && Deep(view, s.err, lim.depth + 1 - s.depth)
  }

  class Inspection<N(!new)> {
    const view: View<N>
    const installed: bool
    const lim: Limits
    var analysis: Analysis
    var malformed: bool

    constructor (lim: Limits, view: View<N>, installed: bool)
      ensures this.lim == lim && this.view == view && this.installed == installed
      ensures analysis == CLEAN && !malformed
    {
      this.lim := lim;
      this.view := view;
      this.installed := installed;
      analysis := CLEAN;
      malformed := false;
    }

    method AppendChildren(stack: seq<Node<N>>, causes: seq<N>, parentDepth: nat, visited: nat)
      returns (r: seq<Node<N>>)
      requires visited + |stack| <= lim.nodes
      modifies this
      ensures visited + |r| <= lim.nodes
      ensures visited + |stack| + |causes| <= lim.nodes ==>
        && r == stack + Stacked(causes, parentDepth + 1)
        && analysis == old(analysis) && malformed == old(malformed)
      ensures visited + |stack| + |causes| > lim.nodes ==>
        malformed && analysis == old(analysis).(flags := old(analysis).flags + {HasOperational})
    {
      var remaining := lim.nodes - visited - |stack|;
      var childCount := |causes|;
      if childCount > remaining {
        childCount := remaining;
        malformed := true;
        analysis := analysis.(flags := analysis.flags + {HasOperational});
      }
      r := stack;
      var index := childCount;
      while index > 0
        invariant 0 <= index <= childCount
        invariant r == stack + Stacked(causes[index..childCount], parentDepth + 1)
      {
        index := index - 1;
        assert causes[index..childCount] == [causes[index]] + causes[index + 1..childCount];
        r := r + [Node(causes[index], parentDepth + 1)];
      }
      assert childCount == |causes| ==> causes[0..childCount] == causes;
    }

    method Inspect(root: N)
      requires analysis == CLEAN && !malformed && 0 < lim.nodes
      modifies this
      ensures malformed <==> !WithinBudget(lim, view, root)
      ensures malformed ==> HasOperational in analysis.flags
      ensures !malformed ==> analysis == Summary(view, installed, Preorder(view, root, lim.depth + 1))
    {
      var stack := [Node(root, 0)];
      var visited := 0;
      ghost var seen: seq<N> := [];
      StartsBalanced(lim, view, root);
      while stack != []
        invariant visited + |stack| <= lim.nodes
        invariant Progress(root, seen, stack, visited)
        decreases lim.nodes - visited, |stack|
      {
        stack, visited, seen := InspectTop(root, seen, stack, visited);
      }
      if !malformed {
        Finishes(lim, view, root, seen);
      }
    }

    /** Either the budget is known to be broken, or everything so far is accounted for. */
    ghost predicate Progress(root: N, seen: seq<N>, stack: seq<Node<N>>, visited: nat)
      reads this
    {
      if malformed then HasOperational in analysis.flags && !WithinBudget(lim, view, root)
      else
        && |seen| == visited
        && analysis == Summary(view, installed, seen)
        && Balanced(lim, view, root, seen, stack)
    }

    /** One turn of the loop. */
    method InspectTop(ghost root: N, ghost seen: seq<N>, stack: seq<Node<N>>, visited: nat)
      returns (r: seq<Node<N>>, v: nat, ghost now: seq<N>)
      requires stack != [] && visited + |stack| <= lim.nodes
      requires Progress(root, seen, stack, visited)
      modifies this
      ensures v + |r| <= lim.nodes
      ensures Progress(root, now, r, v)
      ensures v == visited + 1 || (v == visited && |r| < |stack|)
    {
      hide Summary, Balanced, WithinBudget, Mark, Stacked, Children;
      var index := |stack| - 1;
      var current := stack[index];
      r, v, now := stack[..index], visited, seen;
      if current.depth > lim.depth || visited >= lim.nodes {
        if !malformed {
          TooDeep(lim, view, root, seen, stack);
        }
        malformed := true;
        SetOperational();
        return;
      }
      v, now := visited + 1, seen + [current.err];
      SummarySnoc(view, installed, seen, current.err);
      if !malformed {
        Unfolds(lim, view, root, seen, stack);
      }
      var causes := InspectNode(current.err);
      r := AppendChildren(r, causes, current.depth, v);
    }

    /** The branches of the loop body: note what one value says and collect its causes. */
    method InspectNode(err: N) returns (causes: seq<N>)
      modifies this
      ensures analysis == Merge(old(analysis), Mark(view, installed, err))
      ensures malformed == old(malformed) && causes == Children(view, err)
    {
      causes := [];
      match view(err) {
        case Nil =>
          SetOperational();
        case NilWriterError =>
          SetOperational();
        case WriterError(stage, inst, cause) =>
          analysis := analysis.(writerErrors := analysis.writerErrors + 1);
          if stage.Unknown? || inst != installed {
            SetOperational();
          }
          if inst || (!stage.ValidatePath? && !stage.Install?) {
            analysis := analysis.(pureExistsMetadata := false);
          }
          causes := [cause];
        case Joined(joined) =>
          if joined == [] {
            SetOperational();
          }
          causes := joined;
        case Wrapped(inner) =>
          if view(inner).Nil? {
            SetOperational();
          } else {
            causes := [inner];
          }
        case Plain(leaf) =>
          analysis := analysis.(flags := analysis.flags + LeafFlags(leaf));
      }
    }

    method SetOperational()
      modifies this
      ensures analysis == old(analysis).(flags := old(analysis).flags + {HasOperational})
      ensures malformed == old(malformed)
    {
      analysis := analysis.(flags := analysis.flags + {HasOperational});
    }
  }

  /** What is already seen followed by what the stack unfolds to is the whole unfolding. */
  ghost predicate Balanced<N(!new)>(lim: Limits, view: View<N>, root: N, seen: seq<N>, stack: seq<Node<N>>) {
    && (forall s <- stack :: s.depth <= lim.depth + 1)
    && seen + Pending(lim, view, stack) == Preorder(view, root, lim.depth + 2)
    && (PendingDeep(lim, view, stack) <==> Deep(view, root, lim.depth + 1))
  }

  lemma StartsBalanced<N(!new)>(lim: Limits, view: View<N>, root: N)
    ensures Balanced(lim, view, root, [], [Node(root, 0)])
  {
    var stack := [Node(root, 0)];
    assert stack[..0] == [];
    assert stack[0] in stack;
  }

  /** An empty stack leaves nothing unseen. */
  lemma Finishes<N(!new)>(lim: Limits, view: View<N>, root: N, seen: seq<N>)
    requires Balanced(lim, view, root, seen, [])
    ensures !Deep(view, root, lim.depth + 1) && seen == Preorder(view, root, lim.depth + 1)
  {
    Exhausted(view, root, lim.depth + 1, lim.depth + 2);
  }

  /** A node below the depth bound witnesses that the unfolding is too deep. */
  lemma TooDeep<N(!new)>(lim: Limits, view: View<N>, root: N, seen: seq<N>, stack: seq<Node<N>>)
    requires Balanced(lim, view, root, seen, stack)
    requires stack != [] && stack[|stack| - 1].depth > lim.depth
    ensures !WithinBudget(lim, view, root)
  {
    var s := stack[|stack| - 1];
    assert s in stack && Deep(view, s.err, 0);
  }

  /** The stack after the top has been replaced by its children. */
  function Unfolded<N>(view: View<N>, stack: seq<Node<N>>): seq<Node<N>>
    requires stack != []
  {
    var top := stack[|stack| - 1];
    stack[..|stack| - 1] + Stacked(Children(view, top.err), top.depth + 1)
  }

  /** Replacing the top of the stack by its children keeps the balance, or breaks the node budget. */
  lemma Unfolds<N(!new)>(lim: Limits, view: View<N>, root: N, seen: seq<N>, stack: seq<Node<N>>)
    requires Balanced(lim, view, root, seen, stack)
    requires stack != [] && stack[|stack| - 1].depth <= lim.depth
    ensures Balanced(lim, view, root, seen + [stack[|stack| - 1].err], Unfolded(view, stack))
    ensures |seen| + 1 + |Unfolded(view, stack)| > lim.nodes ==> !WithinBudget(lim, view, root)
  {
    UnfoldsNodes(lim, view, seen, stack);
    UnfoldsDeep(lim, view, stack);
    UnfoldsDepths(lim, view, stack);
    TooMany(lim, view, root, seen + [stack[|stack| - 1].err], Unfolded(view, stack));
  }

  lemma UnfoldsDepths<N(!new)>(lim: Limits, view: View<N>, stack: seq<Node<N>>)
    requires forall s <- stack :: s.depth <= lim.depth + 1
    requires stack != [] && stack[|stack| - 1].depth <= lim.depth
    ensures forall s <- Unfolded(view, stack) :: s.depth <= lim.depth + 1
  {
    var top, rest := stack[|stack| - 1], stack[..|stack| - 1];
    StackedNodes(Children(view, top.err), top.depth + 1);
    forall s | s in Unfolded(view, stack)
      ensures s.depth <= lim.depth + 1
    {
      assert s in rest || s in Stacked(Children(view, top.err), top.depth + 1);
    }
  }

  /** Each stacked node is one more node of the unfolding. */
  lemma TooMany<N(!new)>(lim: Limits, view: View<N>, root: N, seen: seq<N>, stack: seq<Node<N>>)
    requires forall s <- stack :: s.depth <= lim.depth + 1
    requires seen + Pending(lim, view, stack) == Preorder(view, root, lim.depth + 2)
    ensures |seen| + |stack| > lim.nodes ==> !WithinBudget(lim, view, root)
  {
    PendingAtLeast(lim, view, stack);
    if !Deep(view, root, lim.depth + 1) {
      Exhausted(view, root, lim.depth + 1, lim.depth + 2);
    }
  }

  lemma UnfoldsNodes<N>(lim: Limits, view: View<N>, seen: seq<N>, stack: seq<Node<N>>)
    requires stack != [] && stack[|stack| - 1].depth <= lim.depth
    ensures
      (seen + [stack[|stack| - 1].err]) + Pending(lim, view, Unfolded(view, stack)) == seen + Pending(lim, view, stack)
  {
    var top, rest := stack[|stack| - 1], stack[..|stack| - 1];
    var left := LevelsLeft(lim, top.depth + 1);
    var below, after := PreorderAll(view, Children(view, top.err), left), Pending(lim, view, rest);
    var next, now := Pending(lim, view, Unfolded(view, stack)), Pending(lim, view, stack);
    assert next == below + after by {
      PendingStacked(lim, view, rest, Children(view, top.err), top.depth + 1);
    }
    assert now == ([top.err] + below) + after by {
      assert LevelsLeft(lim, top.depth) == left + 1;
    }
    Regroup(seen, [top.err], below, after);
  }

  lemma Regroup<T>(a: seq<T>, b: seq<T>, c: seq<T>, d: seq<T>)
    ensures (a + b) + (c + d) == a + ((b + c) + d)
    ensures (b + c) + d == b + (c + d)
  {
  }

  lemma UnfoldsDeep<N(!new)>(lim: Limits, view: View<N>, stack: seq<Node<N>>)
    requires stack != [] && stack[|stack| - 1].depth <= lim.depth
    ensures
      PendingDeep(lim, view, Unfolded(view, stack)) <==> PendingDeep(lim, view, stack)
  {
    hide Children, Stacked;
    var top, rest := stack[|stack| - 1], stack[..|stack| - 1];
    var pushed := Stacked(Children(view, top.err), top.depth + 1);
    assert stack == rest + [top];
    PendingDeepConcat(lim, view, rest, [top]);
    PendingDeepConcat(lim, view, rest, pushed);
    DeepStacked(lim, view, Children(view, top.err), top.depth + 1);
    assert top in [top];
  }

  lemma PendingDeepConcat<N(!new)>(lim: Limits, view: View<N>, a: seq<Node<N>>, b: seq<Node<N>>)
    ensures PendingDeep(lim, view, a + b) <==> PendingDeep(lim, view, a) || PendingDeep(lim, view, b)
  {
    assert forall s :: s in a + b <==> s in a || s in b;
  }

  lemma {:induction false} PendingStacked<N>(lim: Limits, view: View<N>, stack: seq<Node<N>>, causes: seq<N>, depth: nat)
    ensures Pending(lim, view, stack + Stacked(causes, depth))
            == PreorderAll(view, causes, LevelsLeft(lim, depth)) + Pending(lim, view, stack)
  {
    var next := stack + Stacked(causes, depth);
    if causes == [] {
      assert next == stack;
    } else {
      var shorter := stack + Stacked(causes[1..], depth);
      assert next == shorter + [Node(causes[0], depth)];
      assert next[..|next| - 1] == shorter;
      PendingStacked(lim, view, stack, causes[1..], depth);
      var left := LevelsLeft(lim, depth);
      Regroup([], Preorder(view, causes[0], left), PreorderAll(view, causes[1..], left), Pending(lim, view, stack));
    }
  }

  lemma {:induction false} PendingAtLeast<N>(lim: Limits, view: View<N>, stack: seq<Node<N>>)
    requires forall s <- stack :: s.depth <= lim.depth + 1
    ensures |Pending(lim, view, stack)| >= |stack|
  {
    if stack != [] {
      PendingAtLeast(lim, view, stack[..|stack| - 1]);
    }
  }

  lemma {:induction false} StackedNodes<N(!new)>(causes: seq<N>, depth: nat)
    ensures forall s :: s in Stacked(causes, depth) <==> s.depth == depth && s.err in causes
  {
    if causes != [] {
      StackedNodes(causes[1..], depth);
      assert causes == [causes[0]] + causes[1..];
      forall s
        ensures s in Stacked(causes, depth) <==> s in Stacked(causes[1..], depth) || s == Node(causes[0], depth)
      {
      }
    }
  }

  lemma DeepStacked<N(!new)>(lim: Limits, view: View<N>, causes: seq<N>, depth: nat)
    requires depth <= lim.depth + 1
    ensures PendingDeep(lim, view, Stacked(causes, depth)) <==> exists c <- causes :: Deep(view, c, lim.depth + 1 - depth)
  {
    hide Deep, Stacked;
    StackedNodes(causes, depth);
    var stacked, levels := Stacked(causes, depth), lim.depth + 1 - depth;
    if PendingDeep(lim, view, stacked) {
      var s :| s in stacked && s.depth <= lim.depth + 1 && Deep(view, s.err, lim.depth + 1 - s.depth);
      assert s.err in causes;
    } else {
      forall c | c in causes
        ensures !Deep(view, c, levels)
      {
        assert Node(c, depth) in stacked;
      }
    }
  }

  /** The children as the walk stacks them: first child on top. */
  function Stacked<N>(causes: seq<N>, depth: nat): (r: seq<Node<N>>)
    ensures |r| == |causes|
  {
    if causes == [] then [] else Stacked(causes[1..], depth) + [Node(causes[0], depth)]
  }
}
