/** The catalog's dependency graph and its three-colour depth-first cycle search. */
module DependencyCycle {
  import opened Ordering

  type Graph = map<string, seq<string>>

  function Successors(g: Graph, n: string): seq<string> {
    if n in g then g[n] else []
  }

  /** Every step follows an edge. */
  ghost predicate Walk(g: Graph, p: seq<string>) {
    forall i, j :: 0 <= i < j < |p| && j == i + 1 ==> p[j] in Successors(g, p[i])
  }

  ghost predicate Cycle(g: Graph, p: seq<string>) {
    2 <= |p| && Walk(g, p) && p[0] == p[|p| - 1]
  }

  ghost predicate Acyclic(g: Graph) {
    forall p :: !Cycle(g, p)
  }

  /** `order` lists each node of the graph once, every node after all of its successors. */
  ghost predicate TopologicalOrder(g: Graph, order: seq<string>) {
    && Distinct(order)
    && (forall n :: n in g ==> n in order)
    && Closed(g, order)
  }

  /** The successors of each listed node are listed before it. */
  ghost predicate Closed(g: Graph, order: seq<string>) {
    forall i :: 0 <= i < |order| ==> forall t <- Successors(g, order[i]) :: t in order[..i]
  }

  function Nodes(g: Graph): set<string> {
    set n, t | n in g && t in [n] + g[n] :: t
  }

  // Colours of the search; a node not in the map is white.
  const GRAY: int := 1
  const BLACK: int := 2

  /** The stack is a walk without repeats, and the index knows where each of its nodes is. */
  ghost predicate OnStack(g: Graph, stack: seq<string>, index: map<string, int>) {
    && Walk(g, stack)
    && (forall n :: n in stack <==> n in index)
    && (forall i :: 0 <= i < |stack| ==> stack[i] in index && index[stack[i]] == i)
  }

  /** Gray nodes are those on the stack, black ones those finished. */
  ghost predicate Coloured(g: Graph, state: map<string, int>, stack: seq<string>, finished: seq<string>) {
    && state.Keys <= Nodes(g)
    && (forall n :: n in state <==> n in stack || n in finished)
    && (forall n :: n in stack ==> state[n] == GRAY)
    && (forall n :: n in finished ==> state[n] == BLACK)
  }

  lemma PushKeeps(g: Graph, state: map<string, int>, stack: seq<string>, index: map<string, int>,
                  finished: seq<string>, node: string)
    requires OnStack(g, stack, index) && Coloured(g, state, stack, finished)
    requires node !in state && node in Nodes(g)
    requires stack != [] ==> node in Successors(g, stack[|stack| - 1])
    ensures OnStack(g, stack + [node], index[node := |stack|])
    ensures Coloured(g, state[node := GRAY], stack + [node], finished)
  {
    hide Nodes, Successors;
    var s := stack + [node];
    forall i, j | 0 <= i < j < |s| && j == i + 1
      ensures s[j] in Successors(g, s[i])
    {
      if j < |stack| {
        assert s[i] == stack[i] && s[j] == stack[j];
      }
    }
    assert forall n :: n in s <==> n in stack || n == node;
  }

  lemma PopStack(g: Graph, path: seq<string>, index: map<string, int>, node: string)
    requires OnStack(g, path, index)
    requires path != [] && path[|path| - 1] == node
    ensures OnStack(g, path[..|path| - 1], index - {node})
  {
    TopOnce(path, index, node);
  }

  lemma Blacken(g: Graph, state: map<string, int>, path: seq<string>, index: map<string, int>,
                finished: seq<string>, node: string)
    requires OnStack(g, path, index) && Coloured(g, state, path, finished)
    requires path != [] && path[|path| - 1] == node
    ensures Coloured(g, state[node := BLACK], path[..|path| - 1], finished + [node])
    ensures node !in finished
  {
    var s := path[..|path| - 1];
    assert node in path;
    TopOnce(path, index, node);
    assert forall n :: n in finished + [node] <==> n in finished || n == node;
  }

  /** An indexed node occurs once on the stack. */
  lemma TopOnce(path: seq<string>, index: map<string, int>, node: string)
    requires forall i :: 0 <= i < |path| ==> path[i] in index && index[path[i]] == i
    requires path != [] && path[|path| - 1] == node
    ensures forall n :: n in path[..|path| - 1] <==> n in path && n != node
  {
    var s := path[..|path| - 1];
    assert path == s + [node];
    assert forall i :: 0 <= i < |s| ==> s[i] == path[i];
    assert index[path[|path| - 1]] == |path| - 1;
  }

  lemma Finish(g: Graph, finished: seq<string>, node: string)
    requires Distinct(finished) && Closed(g, finished) && node !in finished
    requires forall t <- Successors(g, node) :: t in finished
    ensures Distinct(finished + [node]) && Closed(g, finished + [node])
  {
    var f := finished + [node];
    forall i, t | 0 <= i < |f| && t in Successors(g, f[i])
      ensures t in f[..i]
    {
      assert f[..i] == finished[..i];
    }
  }

  class Search {
    const graph: Graph
    var state: map<string, int>
    var stack: seq<string>
    var stackIndex: map<string, int>
    // the order in which nodes turned black
    ghost var finished: seq<string>

    constructor (graph: Graph)
      ensures this.graph == graph && Valid()
      ensures stack == [] && finished == []
    {
      this.graph := graph;
      state := map[];
      stack := [];
      stackIndex := map[];
      finished := [];
    }

    ghost predicate Valid()
      reads this
    {
      && OnStack(graph, stack, stackIndex)
      && Coloured(graph, state, stack, finished)
      && Distinct(finished) && Closed(graph, finished)
    }

    /** Colour a white node gray and put it on the stack. */
    method Enter(node: string)
      requires Valid()
      requires node !in state && node in Nodes(graph)
      requires stack != [] ==> node in Successors(graph, stack[|stack| - 1])
      modifies this
      ensures Valid()
      ensures stack == old(stack) + [node] && finished == old(finished)
      ensures state == old(state)[node := GRAY]
    {
      PushKeeps(graph, state, stack, stackIndex, finished, node);
      state := state[node := GRAY];
      stackIndex := stackIndex[node := |stack|];
      stack := stack + [node];
    }

    /** Take the top node off the stack and colour it black. */
    method Leave(node: string)
      requires Valid()
      requires stack != [] && stack[|stack| - 1] == node
      requires forall t <- Successors(graph, node) :: t in finished
      modifies this
      ensures Valid()
      ensures stack == old(stack)[..|old(stack)| - 1] && finished == old(finished) + [node]
      ensures state == old(state)[node := BLACK]
    {
      PopStack(graph, stack, stackIndex, node);
      Blacken(graph, state, stack, stackIndex, finished, node);
      Finish(graph, finished, node);
      stack := stack[..|stack| - 1];
      stackIndex := stackIndex - {node};
      state := state[node := BLACK];
      finished := finished + [node];
    }

    method Visit(node: string) returns (cycle: seq<string>)
      requires Valid()
      requires node in Nodes(graph)
      requires stack != [] ==> node in Successors(graph, stack[|stack| - 1])
      modifies this
      ensures state.Keys >= old(state.Keys)
      ensures cycle == [] ==>
        && Valid() && stack == old(stack) && node in finished
        && (forall n <- old(finished) :: n in finished)
      ensures cycle != [] ==> Cycle(graph, cycle) && Distinct(cycle[1..])
      decreases Nodes(graph) - state.Keys, 0
    {
      if node in state && state[node] == GRAY {
        var start := stackIndex[node];
        cycle := stack[start..] + [node];
        ClosesCycle(graph, stack, stackIndex, start, node);
        return;
      }
      if node in state && state[node] == BLACK {
        return [];
      }
      Enter(node);
      ghost var path := stack;
      cycle := VisitTargets(node);
      if cycle == [] {
        Leave(node);
        assert path[..|path| - 1] == old(stack);
      }
    }

    /** The loop over the targets of the node on top of the stack. */
    method VisitTargets(node: string) returns (cycle: seq<string>)
      requires Valid()
      requires stack != [] && stack[|stack| - 1] == node
      modifies this
      ensures state.Keys >= old(state.Keys)
      ensures cycle == [] ==>
        && Valid() && stack == old(stack)
        && (forall n <- old(finished) :: n in finished)
        && (forall t <- Successors(graph, node) :: t in finished)
      ensures cycle != [] ==> Cycle(graph, cycle) && Distinct(cycle[1..])
      decreases Nodes(graph) - state.Keys, 1
    {
      hide OnStack, Coloured, Closed, Distinct, Cycle;
      var targets := Successors(graph, node);
      for i := 0 to |targets|
        invariant Valid() && stack == old(stack)
        invariant state.Keys >= old(state.Keys)
        invariant forall n <- old(finished) :: n in finished
        invariant forall t <- targets[..i] :: t in finished
      {
        EdgeTarget(graph, node, targets[i]);
        cycle := Visit(targets[i]);
        if cycle != [] {
          return;
        }
      }
      assert targets[..|targets|] == targets;
      return [];
    }
  }

  lemma EdgeTarget(g: Graph, n: string, t: string)
    requires t in Successors(g, n)
    ensures t in Nodes(g)
  {
    assert n in g && t in [n] + g[n];
  }

  /** Meeting a gray node closes a cycle through the tail of the stack, without repeats. */
  lemma ClosesCycle(g: Graph, stack: seq<string>, index: map<string, int>, start: int, node: string)
    requires OnStack(g, stack, index)
    requires 0 <= start < |stack| && stack[start] == node
    requires node in Successors(g, stack[|stack| - 1])
    ensures Cycle(g, stack[start..] + [node])
    ensures Distinct((stack[start..] + [node])[1..])
  {
    var c := stack[start..] + [node];
    forall i, j | 0 <= i < j < |c| && j == i + 1
      ensures c[j] in Successors(g, c[i])
    {
      assert c[i] == stack[start + i];
      if j < |c| - 1 {
        assert c[j] == stack[start + j];
      }
    }
    assert c[1..] == stack[start + 1..] + [node];
  }

  method FirstDependencyCycle(graph: Graph) returns (cycle: seq<string>)
    ensures cycle != [] ==> Cycle(graph, cycle) && Distinct(cycle[1..])
    ensures cycle == [] ==> exists order :: TopologicalOrder(graph, order)
    ensures cycle == [] <==> Acyclic(graph)
  {
    var search := new Search(graph);
    var nodes := SortedKeys(graph);
    for i := 0 to |nodes|
      invariant fresh(search) && search.graph == graph
      invariant search.Valid() && search.stack == []
      invariant forall n <- nodes[..i] :: n in search.finished
    {
      assert nodes[i] in graph && nodes[i] in [nodes[i]] + graph[nodes[i]];
      cycle := search.Visit(nodes[i]);
      if cycle != [] {
        return;
      }
    }
    assert nodes[..|nodes|] == nodes;
    assert TopologicalOrder(graph, search.finished);
    OrderedIsAcyclic(graph, search.finished);
    return [];
  }

  /** A graph with a topological order has no cycle. */
  lemma OrderedIsAcyclic(g: Graph, order: seq<string>)
    requires TopologicalOrder(g, order)
    ensures Acyclic(g)
  {
    forall p
      ensures !Cycle(g, p)
    {
      if Walk(g, p) && 2 <= |p| {
        assert p[1] in Successors(g, p[0]);
        WalkDescends(g, order, p);
      }
    }
  }

  /** Along a walk the position in the order falls at every step. */
  lemma {:induction false} WalkDescends(g: Graph, order: seq<string>, p: seq<string>)
    requires Distinct(order) && Closed(g, order)
    requires 2 <= |p| && Walk(g, p) && p[0] in order
    ensures exists i :: 0 <= i < |order| && order[i] == p[0] && p[|p| - 1] in order[..i]
    decreases |p|
  {
    var i :| 0 <= i < |order| && order[i] == p[0];
    assert p[1] in Successors(g, p[0]);
    assert p[1] in order[..i];
    if |p| > 2 {
      var q := p[1..];
      WalkDescends(g, order, q);
      var j :| 0 <= j < |order| && order[j] == q[0] && q[|q| - 1] in order[..j];
      var k :| 0 <= k < i && order[k] == p[1];
      assert j == k;
    }
  }
}
