/** Catalog aliases: chains resolved once, with memoisation, and checked against the canonical ids. */
module Alias {
  import opened Ordering

  datatype Alias = Alias(kind: string, from: string, to: string)

  datatype Key = Key(kind: string, from: string)

  type Direct = map<Key, string>

  const ALIAS_ENTITY_KINDS: seq<string> := ["case", "principle", "lab", "source"]

  predicate IsAliasEntityKind(kind: string) {
    kind in ALIAS_ENTITY_KINDS
  }

  // ---- Following a chain one alias at a time ----------------------------------

  function Next(direct: Direct, k: Key): Key
    requires k in direct
  {
    Key(k.kind, direct[k])
  }

  /** Follow at most `n` aliases, stopping at the first id that is not one. */
  function Follow(direct: Direct, k: Key, n: nat): Key
    decreases n
  {
    if n == 0 || k !in direct then k else Follow(direct, Next(direct, k), n - 1)
  }

  /** Following aliases from `k` arrives at `terminal`, which is no alias of that kind. */
  ghost predicate Leads(direct: Direct, k: Key, terminal: string) {
    exists n: nat :: Arrives(direct, k, terminal, n)
  }

  ghost predicate Arrives(direct: Direct, k: Key, terminal: string, n: nat) {
    Follow(direct, k, n) == Key(k.kind, terminal) && Key(k.kind, terminal) !in direct
  }

  /** Each alias leads to the next. */
  ghost predicate Chain(direct: Direct, p: seq<Key>) {
    && (forall i :: 0 <= i < |p| ==> p[i] in direct)
    && (forall i, j :: 0 <= i < j < |p| && j == i + 1 ==> p[j] == Next(direct, p[i]))
  }

  ghost predicate Cycle(direct: Direct, p: seq<Key>) {
    p != [] && Chain(direct, p) && Next(direct, p[|p| - 1]) == p[0]
  }

  lemma {:induction false} FollowKeepsKind(direct: Direct, k: Key, n: nat)
    ensures Follow(direct, k, n).kind == k.kind
    decreases n
  {
    if n > 0 && k in direct {
      FollowKeepsKind(direct, Next(direct, k), n - 1);
    }
  }

  /** A chain on a cycle never leaves it. */
  lemma {:induction false} CycleNeverEnds(direct: Direct, p: seq<Key>, i: nat, n: nat)
    requires Cycle(direct, p) && i < |p|
    ensures Follow(direct, p[i], n) in direct
    decreases n
  {
    if n > 0 {
      var j := if i + 1 < |p| then i + 1 else 0;
      assert Next(direct, p[i]) == p[j];
      CycleNeverEnds(direct, p, j, n - 1);
    }
  }

  /** A chain ends at one place only. */
  lemma {:induction false} ArrivesOnce(direct: Direct, k: Key, a: string, m: nat, b: string, n: nat)
    requires Arrives(direct, k, a, m) && Arrives(direct, k, b, n)
    ensures a == b
    decreases m
  {
    if k in direct {
      ArrivesOnce(direct, Next(direct, k), a, m - 1, b, n - 1);
    }
  }

  lemma LeadsOnce(direct: Direct, k: Key, a: string, b: string)
    requires Leads(direct, k, a) && Leads(direct, k, b)
    ensures a == b
  {
    var m: nat :| Arrives(direct, k, a, m);
    var n: nat :| Arrives(direct, k, b, n);
    ArrivesOnce(direct, k, a, m, b, n);
  }

  lemma LeadsStep(direct: Direct, k: Key, terminal: string)
    requires k in direct
    ensures Next(direct, k) !in direct ==> Leads(direct, k, direct[k])
    ensures Next(direct, k) in direct && Leads(direct, Next(direct, k), terminal) ==> Leads(direct, k, terminal)
  {
    var next := Next(direct, k);
    if next !in direct {
      assert Follow(direct, k, 1) == next;
      assert Arrives(direct, k, direct[k], 1);
    } else if Leads(direct, next, terminal) {
      var n: nat :| Arrives(direct, next, terminal, n);
      assert Arrives(direct, k, terminal, n + 1);
    }
  }

  // ---- Resolving with memoisation ----------------------------------------------

  // Marks of the resolution; an unvisited key has none.
  const OPEN: int := 1
  const CLOSED: int := 2

  class Resolution {
    const direct: Direct
    var state: map<Key, int>
    var terminals: map<Key, string>

    constructor (direct: Direct)
      ensures this.direct == direct && Valid([])
      ensures state == map[]
    {
      this.direct := direct;
      state := map[];
      terminals := map[];
    }

    /** `open` is the chain being resolved; every resolved alias leads to its terminal. */
    ghost predicate Valid(open: seq<Key>)
      reads this
    {
      && Chain(direct, open)
      && state.Keys <= direct.Keys
      && (forall k :: k in state && state[k] == OPEN <==> k in open)
      && (forall k :: k in state ==> state[k] == OPEN || state[k] == CLOSED)
      && (forall k :: k in terminals <==> k in state && state[k] == CLOSED)
      && (forall k :: k in terminals ==> Leads(direct, k, terminals[k]))
    }

    /** Mark an unvisited alias as the end of the open chain. */
    method Open(key: Key, ghost open: seq<Key>)
      requires Valid(open) && key in direct && key !in state
      requires open != [] ==> key == Next(direct, open[|open| - 1])
      modifies this`state
      ensures Valid(open + [key]) && state == old(state)[key := OPEN]
    {
      hide Leads, Chain;
      ExtendChain(direct, open, key);
      assert forall k :: k in open + [key] <==> k in open || k == key;
      state := state[key := OPEN];
    }

    /** Record where the end of the open chain leads. */
    method Close(key: Key, terminal: string, ghost open: seq<Key>)
      requires Valid(open + [key]) && key !in open && Chain(direct, open) && Leads(direct, key, terminal)
      modifies this
      ensures Valid(open) && state == old(state)[key := CLOSED] && terminals == old(terminals)[key := terminal]
    {
      hide Leads, Chain;
      assert forall k :: k in open + [key] <==> k in open || k == key;
      state := state[key := CLOSED];
      terminals := terminals[key := terminal];
    }

    method CacheTerminal(key: Key, ghost open: seq<Key>) 
        returns (terminal: string, ok: bool, closing: Key, ghost cycle: seq<Key>)
      requires Valid(open) && key in direct
      requires open != [] ==> key == Next(direct, open[|open| - 1])
      modifies this
      ensures state.Keys >= old(state.Keys)
      ensures ok ==> Valid(open) && key in terminals && terminals[key] == terminal
      ensures ok ==> terminals.Keys >= old(terminals.Keys)
      ensures !ok ==> Cycle(direct, cycle) && cycle[0] == closing
      decreases direct.Keys - state.Keys
    {
      hide Leads, Chain, Cycle;
      closing, cycle := key, [];
      if key in state && state[key] == OPEN {
        terminal, ok, cycle := "", false, Closing(direct, open, key);
        return;
      }
      if key in state && state[key] == CLOSED {
        return terminals[key], true, key, [];
      }
      Open(key, open);
      assert key in old(direct.Keys - state.Keys) && key !in direct.Keys - state.Keys;
      terminal := direct[key];
      var next := Key(key.kind, terminal);
      if next in direct {
        terminal, ok, closing, cycle := CacheTerminal(next, open + [key]);
        if !ok {
          terminal := "";
          return;
        }
      }
      LeadsStep(direct, key, terminal);
      Close(key, terminal, open);
      ok := true;
    }
  }

  lemma ExtendChain(direct: Direct, open: seq<Key>, key: Key)
    requires Chain(direct, open) && key in direct
    requires open != [] ==> key == Next(direct, open[|open| - 1])
    ensures Chain(direct, open + [key])
  {
  }

  /** Meeting an open alias again closes a cycle. */
  ghost function Closing(direct: Direct, open: seq<Key>, key: Key): (cycle: seq<Key>)
    requires Chain(direct, open) && key in open && key == Next(direct, open[|open| - 1])
    ensures Cycle(direct, cycle) && cycle[0] == key
  {
    var i :| 0 <= i < |open| && open[i] == key;
    open[i..]
  }

  // ---- Alias sets -----------------------------------------------------------------

  datatype AliasSet = AliasSet(terminals: map<Key, string>, entries: seq<Alias>)

  datatype Made = Made(aliases: AliasSet) | BadEntry(index: nat) | CycleFound(key: Key)

  predicate WellFormed(a: Alias) {
    IsAliasEntityKind(a.kind) && a.from != "" && a.to != "" && a.from != a.to
  }

  predicate SameKey(a: Alias, b: Alias) {
    a.kind == b.kind && a.from == b.from
  }

  /** The entry at `k` is well formed and its alias is new. */
  ghost predicate EntryFits(aliases: seq<Alias>, k: int)
    requires 0 <= k < |aliases|
  {
    WellFormed(aliases[k]) && forall i :: 0 <= i < k ==> !SameKey(aliases[i], aliases[k])
  }

  ghost predicate ValidEntries(aliases: seq<Alias>) {
    forall k :: 0 <= k < |aliases| ==> EntryFits(aliases, k)
  }

  /** `direct` holds exactly the entries. */
  ghost predicate Holds(direct: Direct, aliases: seq<Alias>) {
    && (forall a <- aliases :: Key(a.kind, a.from) in direct && direct[Key(a.kind, a.from)] == a.to)
    && (forall k <- direct :: exists a <- aliases :: a == Alias(k.kind, k.from, direct[k]))
  }

  function DirectOf(aliases: seq<Alias>): Direct {
    if aliases == [] then map[]
    else
      var last := aliases[|aliases| - 1];
      DirectOf(aliases[..|aliases| - 1])[Key(last.kind, last.from) := last.to]
  }

  lemma {:induction false} DirectHolds(aliases: seq<Alias>)
    requires ValidEntries(aliases)
    ensures Holds(DirectOf(aliases), aliases)
  {
    if aliases != [] {
      var init, n := aliases[..|aliases| - 1], |aliases| - 1;
      assert aliases == init + [aliases[n]];
      forall k | 0 <= k < n
        ensures EntryFits(init, k)
      {
        assert EntryFits(aliases, k);
      }
      assert EntryFits(aliases, n);
      DirectHolds(init);
      forall a | a in init
        ensures !SameKey(a, aliases[n])
      {
        var i :| 0 <= i < n && init[i] == a;
        assert a == aliases[i];
      }
      assert forall a :: a in aliases <==> a in init || a == aliases[n];
    }
  }

  /** Every resolved alias leads to its terminal, and the terminals cover all aliases. */
  ghost predicate Resolves(direct: Direct, terminals: map<Key, string>) {
    terminals.Keys == direct.Keys && forall k <- terminals :: Leads(direct, k, terminals[k])
  }

  ghost predicate Acyclic(direct: Direct) {
    forall p :: !Cycle(direct, p)
  }

  /** If every alias leads somewhere there is no cycle. */
  lemma ResolvedIsAcyclic(direct: Direct, terminals: map<Key, string>)
    requires Resolves(direct, terminals)
    ensures Acyclic(direct)
  {
    forall p
      ensures !Cycle(direct, p)
    {
      if p != [] && p[0] in direct {
        assert Leads(direct, p[0], terminals[p[0]]);
        var n: nat :| Arrives(direct, p[0], terminals[p[0]], n);
        NeverEnds(direct, p, n);
      }
    }
  }

  lemma NeverEnds(direct: Direct, p: seq<Key>, n: nat)
    ensures Cycle(direct, p) ==> Follow(direct, p[0], n) in direct
  {
    if Cycle(direct, p) {
      CycleNeverEnds(direct, p, 0, n);
    }
  }

  predicate KeyLess(a: Key, b: Key) {
    if a.kind != b.kind then Less(a.kind, b.kind) else Less(a.from, b.from)
  }

  predicate AliasLess(a: Alias, b: Alias) {
    if a.kind != b.kind then Less(a.kind, b.kind)
    else if a.from != b.from then Less(a.from, b.from)
    else Less(a.to, b.to)
  }

  lemma KeyOrder()
    ensures StrictWeakOrder(KeyLess) && StrictWeakOrder(AliasLess)
  {
    hide Less;
    LessIsStrictWeakOrder();
    forall x: string, y: string
      ensures Less(x, y) || x == y || Less(y, x)
    {
      LessTrichotomy(x, y);
    }
  }

  /** The entry checks: kinds, blanks, self-aliases and duplicates. */
  method CheckEntries(aliases: seq<Alias>) returns (direct: Direct, keys: seq<Key>, bad: int)
    ensures bad < 0 <==> ValidEntries(aliases)
    ensures bad >= 0 ==> bad < |aliases| && !EntryFits(aliases, bad) && forall k :: 0 <= k < bad ==> EntryFits(aliases, k)
    ensures bad < 0 ==> direct == DirectOf(aliases) && forall k :: k in keys <==> k in direct
  {
    direct, keys, bad := map[], [], -1;
    for index := 0 to |aliases|
      invariant forall k :: 0 <= k < index ==> EntryFits(aliases, k)
      invariant direct == DirectOf(aliases[..index])
      invariant forall k :: k in keys <==> k in direct
      invariant forall k :: k in direct <==> exists i :: 0 <= i < index && Key(aliases[i].kind, aliases[i].from) == k
    {
      var a := aliases[index];
      var key := Key(a.kind, a.from);
      assert aliases[..index + 1][..index] == aliases[..index];
      if !IsAliasEntityKind(a.kind) || a.from == "" || a.to == "" || a.from == a.to {
        assert !EntryFits(aliases, index);
        bad := index;
        return;
      }
      if key in direct {
        assert !EntryFits(aliases, index);
        bad := index;
        return;
      }
      assert EntryFits(aliases, index);
      direct := direct[key := a.to];
      keys := keys + [key];
    }
    assert aliases[..|aliases|] == aliases;
  }

  /**
   NewAliasSet: with well-formed entries it fails exactly when some kind's aliases form
   a cycle, and names the key at which that cycle closes; otherwise every alias leads to its recorded terminal.
   */
  method NewAliasSet(aliases: seq<Alias>) returns (made: Made, ghost cycle: seq<Key>)
    ensures made.BadEntry? <==> !ValidEntries(aliases)
    ensures made.BadEntry? ==> made.index < |aliases| && !EntryFits(aliases, made.index)
    ensures made.CycleFound? <==> ValidEntries(aliases) && !Acyclic(DirectOf(aliases))
    ensures made.CycleFound? ==> Cycle(DirectOf(aliases), cycle) && cycle[0] == made.key
    ensures made.Made? ==> Resolves(DirectOf(aliases), made.aliases.terminals)
    ensures made.Made? ==> multiset(made.aliases.entries) == multiset(aliases) && Sorted(AliasLess, made.aliases.entries)
  {
    hide Acyclic, ValidEntries, Leads, Chain, Cycle, DirectOf, KeyLess, AliasLess, Less, Holds, EntryFits;
    cycle := [];
    var direct, keys, bad := CheckEntries(aliases);
    if bad >= 0 {
      return BadEntry(bad), cycle;
    }
    KeyOrder();
    keys := SortAliasKeys(keys);
    var entries := Sort(AliasLess, aliases);
    var resolution := new Resolution(direct);
    for i := 0 to |keys|
      invariant fresh(resolution) && resolution.direct == direct && resolution.Valid([])
      invariant forall k <- keys[..i] :: k in resolution.terminals
    {
      assert keys[i] in keys;
      var terminal, ok, closing;
      terminal, ok, closing, cycle := resolution.CacheTerminal(keys[i], []);
      if !ok {
        CycleIsCyclic(direct, cycle);
        return CycleFound(closing), cycle;
      }
    }
    assert keys[..|keys|] == keys;
    ResolvedIsAcyclic(direct, resolution.terminals);
    made := Made(AliasSet(resolution.terminals, entries));
  }

  lemma CycleIsCyclic(direct: Direct, p: seq<Key>)
    requires Cycle(direct, p)
    ensures !Acyclic(direct)
  {
  }

  method SortAliasKeys(keys: seq<Key>) returns (r: seq<Key>)
    ensures Sorted(KeyLess, r) && forall k :: k in r <==> k in keys
  {
    KeyOrder();
    r := Sort(KeyLess, keys);
    assert forall k :: k in r <==> k in multiset(r);
    assert forall k :: k in keys <==> k in multiset(keys);
  }

  // ---- Using an alias set -----------------------------------------------------------

  datatype Resolved = Terminal(id: string) | UnsupportedKind

  /** AliasSet.Resolve */
  function Resolve(terminals: map<Key, string>, kind: string, id: string): Resolved {
    if !IsAliasEntityKind(kind) then UnsupportedKind
    else if Key(kind, id) in terminals then Terminal(terminals[Key(kind, id)])
    else Terminal(id)
  }

  /** Resolving follows the chain to its end, so resolving again changes nothing. */
  lemma ResolveIsIdempotent(direct: Direct, terminals: map<Key, string>, kind: string, id: string)
    requires Resolves(direct, terminals)
    ensures
      match Resolve(terminals, kind, id)
      case UnsupportedKind => !IsAliasEntityKind(kind)
      case Terminal(once) =>
        && IsAliasEntityKind(kind)
        && Key(kind, once) !in direct
        && Resolve(terminals, kind, once) == Terminal(once)
        && Leads(direct, Key(kind, id), once)
  {
    var k := Key(kind, id);
    if k in terminals {
      assert Leads(direct, k, terminals[k]);
    } else {
      assert Arrives(direct, k, id, 0);
    }
  }

  type Canonical = map<string, set<string>>

  predicate Has(canonical: Canonical, kind: string, id: string) {
    kind in canonical && id in canonical[kind]
  }

  datatype CanonError =
    | Shadows(key: Key)
    | WrongKind(key: Key, otherKind: string)
    | MissingTerminal(key: Key)

  datatype Checked = Fine | Wrong(error: CanonError)

  ghost predicate KeyFits(terminals: map<Key, string>, canonical: Canonical, k: Key)
    requires k in terminals
  {
    !Has(canonical, k.kind, k.from) && Has(canonical, k.kind, terminals[k])
  }

  /** The error fits the alias it names. */
  ghost predicate Explains(terminals: map<Key, string>, canonical: Canonical, error: CanonError) {
    && error.key in terminals
    && match error
       case Shadows(k) => Has(canonical, k.kind, k.from)
       case WrongKind(k, other) => !Has(canonical, k.kind, terminals[k]) && other != k.kind && Has(canonical, other, terminals[k])
       case MissingTerminal(k) => forall kind <- [k.kind] + ALIAS_ENTITY_KINDS :: !Has(canonical, kind, terminals[k])
  }

  /** ValidateCanonical reports the first offending alias in order, and why it offends. */
  method ValidateCanonical(terminals: map<Key, string>, canonical: Canonical) returns (r: Checked)
    ensures r.Fine? <==> forall k <- terminals :: KeyFits(terminals, canonical, k)
    ensures r.Wrong? ==> Explains(terminals, canonical, r.error)
    ensures r.Wrong? ==> forall k <- terminals :: KeyLess(k, r.error.key) ==> KeyFits(terminals, canonical, k)
  {
    hide KeyLess, Has;
    var unsorted := KeysOf(terminals);
    var keys := SortAliasKeys(unsorted);
    KeyOrder();
    for i := 0 to |keys|
      invariant forall k <- keys[..i] :: KeyFits(terminals, canonical, k)
    {
      var key := keys[i];
      assert key in keys;
      if Has(canonical, key.kind, key.from) {
        assert !KeyFits(terminals, canonical, key);
        return Wrong(Shadows(key));
      }
      var terminal := terminals[key];
      if Has(canonical, key.kind, terminal) {
        continue;
      }
      assert !KeyFits(terminals, canonical, key);
      for j := 0 to |ALIAS_ENTITY_KINDS|
        invariant forall kind <- ALIAS_ENTITY_KINDS[..j] :: !Has(canonical, kind, terminal)
      {
        var otherKind := ALIAS_ENTITY_KINDS[j];
        if otherKind != key.kind && Has(canonical, otherKind, terminal) {
          return Wrong(WrongKind(key, otherKind));
        }
      }
      return Wrong(MissingTerminal(key));
    }
    assert keys[..|keys|] == keys;
    return Fine;
  }

  method KeysOf(m: map<Key, string>) returns (keys: seq<Key>)
    ensures forall k :: k in keys <==> k in m
  {
    keys := [];
    var rest := m.Keys;
    while rest != {}
      invariant rest <= m.Keys
      invariant forall k :: k in keys <==> k in m.Keys - rest
      decreases rest
    {
      var k :| k in rest;
      keys := keys + [k];
      rest := rest - {k};
    }
  }

  /**
   After ValidateCanonical succeeds, every id of a supported kind that is an alias
   resolves to a canonical id of its own kind, and canonical ids resolve to themselves.
   */
  lemma CanonicalAliases(terminals: map<Key, string>, canonical: Canonical, kind: string, id: string)
    requires forall k <- terminals :: KeyFits(terminals, canonical, k)
    ensures
      match Resolve(terminals, kind, id)
      case UnsupportedKind => !IsAliasEntityKind(kind)
      case Terminal(resolved) =>
        && (Key(kind, id) in terminals ==> Has(canonical, kind, resolved))
        && (Has(canonical, kind, id) ==> resolved == id)
        && (Has(canonical, kind, resolved) <==> Has(canonical, kind, id) || Key(kind, id) in terminals)
  {
  }
}
