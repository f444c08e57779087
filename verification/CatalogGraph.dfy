/**
 The dependency graph that the validator builds from a catalog: cases ask for principles and
 labs, principles for labs, labs for adapters, all of them through aliases.
 */
module CatalogGraph {
  import opened Ordering
  import opened DependencyCycle

  datatype CaseManifest = CaseManifest(principles: seq<string>, labs: seq<string>)
  datatype PrincipleManifest = PrincipleManifest(labs: seq<string>)
  datatype AdapterRequirement = AdapterRequirement(id: string, required: bool)
  datatype LabManifest = LabManifest(runs: seq<seq<AdapterRequirement>>)

  // Manifests are indexed by their own ids; the resolvers follow the catalog's aliases.
  datatype Catalog = Catalog(
    cases: map<string, CaseManifest>,
    principles: map<string, PrincipleManifest>,
    labs: map<string, LabManifest>,
    resolvePrinciple: string -> string,
    resolveLab: string -> string)

  function Labelled(kind: string, resolve: string -> string, ids: seq<string>): (r: seq<string>)
    ensures |r| == |ids| && forall i :: 0 <= i < |ids| ==> r[i] == kind + resolve(ids[i])
  {
    if ids == [] then [] else [kind + resolve(ids[0])] + Labelled(kind, resolve, ids[1..])
  }

  function RequiredAdapters(run: seq<AdapterRequirement>): seq<string> {
    if run == [] then []
    else (if run[0].required then [run[0].id] else []) + RequiredAdapters(run[1..])
  }

  function AllAdapters(runs: seq<seq<AdapterRequirement>>): seq<string> {
    if runs == [] then [] else RequiredAdapters(runs[0]) + AllAdapters(runs[1..])
  }

  function CaseTargets(c: Catalog, id: string): seq<string>
    requires id in c.cases
  {
    Labelled("principle:", c.resolvePrinciple, c.cases[id].principles) + Labelled("lab:", c.resolveLab, c.cases[id].labs)
  }

  function PrincipleTargets(c: Catalog, id: string): seq<string>
    requires id in c.principles
  {
    Labelled("lab:", c.resolveLab, c.principles[id].labs)
  }

  function LabTargets(c: Catalog, id: string): seq<string>
    requires id in c.labs
  {
    Labelled("adapter:", x => x, AllAdapters(c.labs[id].runs))
  }

  /** What a node's manifest asks for; nothing for nodes without a manifest. */
  function TargetsOf(c: Catalog, n: string): seq<string> {
    if "case:" <= n && n[5..] in c.cases then CaseTargets(c, n[5..])
    else if "principle:" <= n && n[10..] in c.principles then PrincipleTargets(c, n[10..])
    else if "lab:" <= n && n[4..] in c.labs then LabTargets(c, n[4..])
    else []
  }

  /** What the catalog says: which manifest requires which other, through aliases. */
  ghost predicate Requires(c: Catalog, n: string, t: string) {
    || (exists id <- c.cases, p <- c.cases[id].principles :: n == "case:" + id && t == "principle:" + c.resolvePrinciple(p))
    || (exists id <- c.cases, l <- c.cases[id].labs :: n == "case:" + id && t == "lab:" + c.resolveLab(l))
    || (exists id <- c.principles, l <- c.principles[id].labs :: n == "principle:" + id && t == "lab:" + c.resolveLab(l))
    || (exists id <- c.labs, run <- c.labs[id].runs, a <- run :: a.required && n == "lab:" + id && t == "adapter:" + a.id)
  }

  lemma InLabelled(kind: string, resolve: string -> string, ids: seq<string>, t: string)
    ensures t in Labelled(kind, resolve, ids) <==> exists id <- ids :: t == kind + resolve(id)
  {
    var r := Labelled(kind, resolve, ids);
    if t in r {
      var i :| 0 <= i < |r| && r[i] == t;
      assert ids[i] in ids;
    }
    if id :| id in ids && t == kind + resolve(id) {
      var i :| 0 <= i < |ids| && ids[i] == id;
      assert r[i] == t;
    }
  }

  lemma {:induction false} InRequired(run: seq<AdapterRequirement>, id: string)
    ensures id in RequiredAdapters(run) <==> exists a <- run :: a.required && a.id == id
  {
    if run != [] {
      InRequired(run[1..], id);
      assert run == [run[0]] + run[1..];
    }
  }

  lemma {:induction false} InAllAdapters(runs: seq<seq<AdapterRequirement>>, id: string)
    ensures id in AllAdapters(runs) <==> exists run <- runs, a <- run :: a.required && a.id == id
  {
    if runs != [] {
      InRequired(runs[0], id);
      InAllAdapters(runs[1..], id);
      assert runs == [runs[0]] + runs[1..];
    }
  }

  lemma CaseEdges(c: Catalog, id: string, t: string)
    requires id in c.cases
    ensures t in CaseTargets(c, id) <==> Requires(c, "case:" + id, t)
  {
    InLabelled("principle:", c.resolvePrinciple, c.cases[id].principles, t);
    InLabelled("lab:", c.resolveLab, c.cases[id].labs, t);
    SameNode("case:", id);
  }

  lemma PrincipleEdges(c: Catalog, id: string, t: string)
    requires id in c.principles
    ensures t in PrincipleTargets(c, id) <==> Requires(c, "principle:" + id, t)
  {
    InLabelled("lab:", c.resolveLab, c.principles[id].labs, t);
    SameNode("principle:", id);
  }

  lemma LabEdges(c: Catalog, id: string, t: string)
    requires id in c.labs
    ensures t in LabTargets(c, id) <==> Requires(c, "lab:" + id, t)
  {
    var all := AllAdapters(c.labs[id].runs);
    InLabelled("adapter:", x => x, all, t);
    forall x: string
      ensures x in AllAdapters(c.labs[id].runs) <==> exists run <- c.labs[id].runs, a <- run :: a.required && a.id == x
    {
      InAllAdapters(c.labs[id].runs, x);
    }
    SameNode("lab:", id);
    if x :| x in all && t == "adapter:" + x {
      var run, a :| run in c.labs[id].runs && a in run && a.required && a.id == x;
      assert t == "adapter:" + a.id;
    }
    if run, a :| run in c.labs[id].runs && a in run && a.required && t == "adapter:" + a.id {
      assert a.id in all;
    }
  }

  /** A node's label tells its kind and its id. */
  lemma SameNode(kind: string, id: string)
    requires kind in ["case:", "principle:", "lab:"]
    ensures (kind + id)[0] == kind[0]
    ensures forall other :: kind + other == kind + id <==> other == id
  {
    forall other | kind + other == kind + id
      ensures other == id
    {
      assert (kind + other)[|kind|..] == other && (kind + id)[|kind|..] == id;
    }
  }

  /** The wanted edges are the catalog's requirements, no more and no fewer. */
  lemma TargetsExactly(c: Catalog, n: string, t: string)
    ensures t in TargetsOf(c, n) <==> Requires(c, n, t)
  {
    hide CaseTargets, PrincipleTargets, LabTargets;
    if "case:" <= n && n[5..] in c.cases {
      CaseEdges(c, n[5..], t);
      assert n == "case:" + n[5..];
    } else if "principle:" <= n && n[10..] in c.principles {
      PrincipleEdges(c, n[10..], t);
      assert n == "principle:" + n[10..];
    } else if "lab:" <= n && n[4..] in c.labs {
      LabEdges(c, n[4..], t);
      assert n == "lab:" + n[4..];
    } else {
      forall id: string
        ensures n == "case:" + id ==> n[5..] == id && "case:" <= n
        ensures n == "principle:" + id ==> n[10..] == id && "principle:" <= n
        ensures n == "lab:" + id ==> n[4..] == id && "lab:" <= n
      {
      }
    }
  }

  /** The graph has the wanted edges for the nodes already handled, and no others. */
  ghost predicate Holds(want: string -> seq<string>, g: Graph, done: set<string>) {
    && g.Keys <= done
    && forall n :: Successors(g, n) == if n in done then want(n) else []
  }

  method AddEdges(g: Graph, from: string, targets: seq<string>) returns (r: Graph)
    requires from !in g
    ensures r == if targets == [] then g else g[from := targets]
  {
    r := g;
    for i := 0 to |targets|
      invariant r == if i == 0 then g else g[from := targets[..i]]
    {
      r := r[from := Successors(r, from) + [targets[i]]];
      assert targets[..i + 1] == targets[..i] + [targets[i]];
    }
    assert targets[..|targets|] == targets;
  }

  predicate Named(n: string, kind: string, ids: seq<string>) {
    kind <= n && n[|kind|..] in ids
  }

  /** One of the three loops over sorted manifest ids. */
  method AddManifests(want: string -> seq<string>, g: Graph, kind: string, ids: seq<string>, ghost done: set<string>)
    returns (r: Graph, ghost all: set<string>)
    requires Holds(want, g, done)
    requires StrictlySorted(Less, ids)
    requires kind != "" && forall n :: n in done ==> n != "" && n[0] != kind[0]
    ensures Holds(want, r, all)
    ensures forall n :: n in all <==> n in done || Named(n, kind, ids)
    ensures forall n :: n in all ==> n in done || (n != "" && n[0] == kind[0])
  {
    r, all := g, done;
    for i := 0 to |ids|
      invariant Holds(want, r, all)
      invariant forall n :: n in all <==> n in done || Named(n, kind, ids[..i])
    {
      var from := kind + ids[i];
      LabelledBy(kind, ids[i]);
      Unseen(ids, i);
      r := AddEdges(r, from, want(from));
      all := all + {from};
      assert forall id :: id in ids[..i + 1] <==> id in ids[..i] || id == ids[i];
    }
    assert ids[..|ids|] == ids;
  }

  lemma Unseen(ids: seq<string>, i: int)
    requires StrictlySorted(Less, ids) && 0 <= i < |ids|
    ensures ids[i] !in ids[..i]
  {
    forall j | 0 <= j < i
      ensures ids[j] != ids[i]
    {
      LessTrichotomy(ids[j], ids[i]);
    }
  }

  method SortTargets(built: Graph) returns (g: Graph)
    ensures g.Keys == built.Keys
    ensures forall n :: n in g ==> multiset(g[n]) == multiset(built[n]) && Sorted(Less, g[n])
  {
    hide Less, Sorted, StrictWeakOrder;
    LessIsStrictWeakOrder();
    g := built;
    var nodes := SortedKeys(g);
    for i := 0 to |nodes|
      invariant g.Keys == built.Keys
      invariant forall n :: n in g ==> multiset(g[n]) == multiset(built[n])
      invariant forall n <- nodes[..i] :: n in g && Sorted(Less, g[n])
    {
      var sorted := Sort(Less, g[nodes[i]]);
      g := g[nodes[i] := sorted];
      assert forall n :: n in nodes[..i + 1] <==> n in nodes[..i] || n == nodes[i];
    }
    assert nodes[..|nodes|] == nodes;
  }

  method BuildRequiredDependencyGraph(c: Catalog) returns (g: Graph)
    ensures forall n :: multiset(Successors(g, n)) == multiset(TargetsOf(c, n))
    ensures forall n, t :: t in Successors(g, n) <==> Requires(c, n, t)
    ensures forall n :: n in g ==> Sorted(Less, g[n])
  {
    hide Requires, TargetsOf;
    var want := n => TargetsOf(c, n);
    ghost var done: set<string>;
    g := map[];
    var caseIds := SortedKeys(c.cases);
    g, done := AddManifests(want, g, "case:", caseIds, {});
    var principleIds := SortedKeys(c.principles);
    g, done := AddManifests(want, g, "principle:", principleIds, done);
    var labIds := SortedKeys(c.labs);
    g, done := AddManifests(want, g, "lab:", labIds, done);
    AllNamed(c, done, caseIds, principleIds, labIds);
    g := SortTargets(g);
    EdgesExactly(c, g);
  }

  lemma EdgesExactly(c: Catalog, g: Graph)
    requires forall n :: multiset(Successors(g, n)) == multiset(TargetsOf(c, n))
    ensures forall n, t :: t in Successors(g, n) <==> Requires(c, n, t)
  {
    hide TargetsOf, Requires, Successors;
    forall n, t
      ensures t in Successors(g, n) <==> Requires(c, n, t)
    {
      TargetsExactly(c, n, t);
      assert multiset(Successors(g, n)) == multiset(TargetsOf(c, n));
      assert t in Successors(g, n) <==> t in multiset(Successors(g, n));
      assert t in TargetsOf(c, n) <==> t in multiset(TargetsOf(c, n));
    }
  }

  /** Nodes without a manifest ask for nothing. */
  lemma AllNamed(c: Catalog, done: set<string>, caseIds: seq<string>, principleIds: seq<string>, labIds: seq<string>)
    requires forall id :: id in caseIds <==> id in c.cases
    requires forall id :: id in principleIds <==> id in c.principles
    requires forall id :: id in labIds <==> id in c.labs
    requires forall n :: n in done <==>
      Named(n, "case:", caseIds) || Named(n, "principle:", principleIds) || Named(n, "lab:", labIds)
    ensures forall n :: n !in done ==> TargetsOf(c, n) == []
  {
  }

  lemma LabelledBy(kind: string, id: string)
    ensures forall n :: kind <= n && n[|kind|..] == id <==> n == kind + id
  {
    forall n | kind <= n && n[|kind|..] == id
      ensures n == kind + id
    {
      assert n == n[..|kind|] + n[|kind|..];
    }
  }

  /** Kinds are told apart by their prefix. */
  function Layer(n: string): nat {
    if "case:" <= n then 3 else if "principle:" <= n then 2 else if "lab:" <= n then 1 else 0
  }

  ghost predicate Layered(g: Graph) {
    forall n, t :: t in Successors(g, n) ==> Layer(t) < Layer(n)
  }

  /** Every edge of a catalog's graph leads to a lower kind, whatever ids and aliases it uses. */
  lemma TargetsDescend(c: Catalog, n: string)
    ensures forall t <- TargetsOf(c, n) :: Layer(t) < Layer(n)
  {
    forall t | t in TargetsOf(c, n)
      ensures Layer(t) < Layer(n)
    {
      if "case:" <= n && n[5..] in c.cases {
        assert (t[0] == 'p' && "principle:" <= t) || (t[0] == 'l' && "lab:" <= t);
      } else if "principle:" <= n && n[10..] in c.principles {
        assert n[0] == 'p' && t[0] == 'l' && "lab:" <= t;
      } else {
        assert n[0] == 'l' && t[0] == 'a';
      }
    }
  }

  lemma {:induction false} LayeredWalkDescends(g: Graph, p: seq<string>)
    requires Layered(g) && Walk(g, p) && 2 <= |p|
    ensures Layer(p[|p| - 1]) < Layer(p[0])
    decreases |p|
  {
    assert p[1] in Successors(g, p[0]);
    if |p| > 2 {
      LayeredWalkDescends(g, p[1..]);
    }
  }

  lemma LayeredIsAcyclic(g: Graph)
    requires Layered(g)
    ensures Acyclic(g)
  {
    forall p
      ensures !Cycle(g, p)
    {
      if Walk(g, p) && 2 <= |p| {
        LayeredWalkDescends(g, p);
      }
    }
  }

  /** The cycle diagnostic can never be produced for a graph built from a catalog. */
  method DependencyCycleOf(c: Catalog) returns (cycle: seq<string>)
    ensures cycle == []
  {
    var graph := BuildRequiredDependencyGraph(c);
    cycle := FirstDependencyCycle(graph);
    forall n, t | t in Successors(graph, n)
      ensures Layer(t) < Layer(n)
    {
      TargetsDescend(c, n);
      assert t in multiset(Successors(graph, n));
    }
    LayeredIsAcyclic(graph);
  }
}
