/** A crash-prone directory shared by any number of writers. */
module DurableDisk {
  // All writers publish the same target name. A step is attributed to the writer that takes it.

  import opened GoNumbers

  // `version` stands for the size and modification time a snapshot compares;
  // `synced` says that the data as it is now has reached stable storage.
  datatype Inode = Inode(owner: nat, data: seq<byte>, version: nat, synced: bool)

  datatype Change = Bound(name: string, ino: nat) | Unbound(name: string)

  // `live` is what lookups see, `durable` the entries as of the last directory sync,
  // `pending` the entry changes since. `tampered` records a step by a foreign program.
  datatype Disk = Disk(
    inodes: map<nat, Inode>,
    live: map<string, nat>,
    durable: map<string, nat>,
    pending: seq<Change>,
    tampered: bool)

  // What every writer publishes, and where. Temporary names carry 128 random bits, so a
  // name is only ever drawn by one writer, its author.
  datatype World = World(target: string, payload: nat -> seq<byte>, author: string -> nat)

  datatype Action =
    | Create(owner: nat, name: string, ino: nat)
    | Fill(owner: nat, ino: nat, data: seq<byte>)
    | Flush(ino: nat)
    | Link(owner: nat, temp: string)
    | Unlink(owner: nat, name: string)
    | SyncEntries
    | Tamper(disk: Disk)

  predicate Owns(d: Disk, w: nat, ino: nat) {
    ino in d.inodes && d.inodes[ino].owner == w
  }

  predicate Complete(world: World, d: Disk, ino: nat) {
    ino in d.inodes && d.inodes[ino].synced && d.inodes[ino].data == world.payload(d.inodes[ino].owner)
  }

  predicate IsTarget(world: World, d: Disk, ino: nat) {
    world.target in d.live && d.live[world.target] == ino
  }

  /** The steps a writer that follows the protocol may take. */
  predicate Allowed(world: World, d: Disk, a: Action) {
    match a
    case Create(w, name, ino) => name !in d.live && name != world.target && world.author(name) == w && ino !in d.inodes
    case Fill(w, ino, _) => Owns(d, w, ino) && !IsTarget(world, d, ino)
    case Flush(ino) => ino in d.inodes
    case Link(w, temp) =>
      && world.target !in d.live
      && temp in d.live && Owns(d, w, d.live[temp]) && Complete(world, d, d.live[temp])
    case Unlink(w, name) => name != world.target && name in d.live && Owns(d, w, d.live[name])
    case SyncEntries => true
    case Tamper(_) => true
  }

  /** The effect of a step; a step that does not apply has none. */
  function Apply(world: World, d: Disk, a: Action): Disk {
    match a
    case Create(w, name, ino) =>
      d.(inodes := d.inodes[ino := Inode(w, [], 0, false)],
         live := d.live[name := ino],
         pending := d.pending + [Bound(name, ino)])
    case Fill(_, ino, data) =>
      if ino !in d.inodes then d
      else d.(inodes := d.inodes[ino := d.inodes[ino].(data := data, version := d.inodes[ino].version + 1, synced := false)])
    case Flush(ino) =>
      if ino !in d.inodes then d else d.(inodes := d.inodes[ino := d.inodes[ino].(synced := true)])
    case Link(_, temp) =>
      if temp !in d.live || world.target in d.live then d
      else d.(live := d.live[world.target := d.live[temp]],
              pending := d.pending + [Bound(world.target, d.live[temp])])
    case Unlink(_, name) =>
      d.(live := d.live - {name}, pending := d.pending + [Unbound(name)])
    case SyncEntries =>
      d.(durable := d.live, pending := [])
    case Tamper(other) =>
      other.(tampered := true)
  }

  /** What protocol steps keep. */
  ghost predicate Sound(world: World, d: Disk) {
    && (forall n :: n in d.live ==> d.live[n] in d.inodes)
    && (world.target in d.live ==> Complete(world, d, d.live[world.target]))
    && (world.target in d.durable ==> IsTarget(world, d, d.durable[world.target]))
    && (forall c <- d.pending :: c.Bound? && c.name == world.target ==> IsTarget(world, d, c.ino))
    && (forall c <- d.pending :: c.Unbound? ==> c.name != world.target)
  }

  lemma StepKeepsSound(world: World, d: Disk, a: Action)
    requires Sound(world, d) && Allowed(world, d, a) && !a.Tamper?
    ensures Sound(world, Apply(world, d, a))
    ensures forall ino :: IsTarget(world, d, ino) ==> IsTarget(world, Apply(world, d, a), ino)
  {
  }

  // ---- Crashes ------------------------------------------------------------

  /** `entries` may be found after a crash: each name as last synced, or as changed since. */
  ghost predicate MayRecover(d: Disk, entries: map<string, nat>) {
    && (forall n :: n in entries ==> (n in d.durable && d.durable[n] == entries[n]) || Bound(n, entries[n]) in d.pending)
    && (forall n :: n !in entries ==> n !in d.durable || Unbound(n) in d.pending)
  }

  /** `data` may be found in `ino` after a crash. */
  ghost predicate MayRead(d: Disk, ino: nat, data: seq<byte>) {
    ino in d.inodes && (d.inodes[ino].synced ==> data == d.inodes[ino].data)
  }

  // ---- One writer among the others -------------------------------------------

  /** A step that another writer, or a foreign program, may take while `me` is at work. */
  predicate Foreign(me: nat, a: Action) {
    match a
    case Create(w, _, _) => w != me
    case Fill(w, _, _) => w != me
    case Link(w, _) => w != me
    case Unlink(w, _) => w != me
    case Flush(_) => true
    case SyncEntries => true
    case Tamper(_) => true
  }

  /** A step of writer `me` itself. */
  predicate Own(me: nat, a: Action) {
    match a
    case Create(w, _, _) => w == me
    case Fill(w, _, _) => w == me
    case Link(w, _) => w == me
    case Unlink(w, _) => w == me
    case Flush(_) => true
    case SyncEntries => true
    case Tamper(_) => false
  }

  lemma OwnIsForeignToOthers(me: nat, other: nat, a: Action)
    requires Own(me, a) && me != other
    ensures Foreign(other, a)
  {
  }

  /** The disk once others have tried these steps in turn; one that is not allowed is not taken. */
  ghost function AfterOthers(world: World, me: nat, d: Disk, others: seq<Action>): Disk {
    if others == [] then d
    else
      var before, a := AfterOthers(world, me, d, others[..|others| - 1]), others[|others| - 1];
      if Foreign(me, a) && Allowed(world, before, a) then Apply(world, before, a) else before
  }

  /** Some name other than the target leads to `ino`, now or after some crash. */
  ghost predicate Lingers(world: World, d: Disk, ino: nat) {
    || (exists n :: n != world.target && n in d.live && d.live[n] == ino)
    || (exists n :: n != world.target && n in d.durable && d.durable[n] == ino)
    || (exists n :: n != world.target && Bound(n, ino) in d.pending)
  }

  /** What a writer can rely on while others run: its files and names, and any published target. */
  ghost predicate Frame(world: World, me: nat, d: Disk, e: Disk) {
    e.tampered || (!d.tampered && KeepsFiles(me, d, e) && KeepsNames(world, me, d, e) && KeepsEntries(world, me, d, e))
  }

  ghost predicate KeepsFiles(me: nat, d: Disk, e: Disk) {
    && (forall ino :: Owns(e, me, ino) <==> Owns(d, me, ino))
    && (forall ino :: Owns(d, me, ino) ==>
          && e.inodes[ino].data == d.inodes[ino].data
          && e.inodes[ino].version == d.inodes[ino].version
          && (d.inodes[ino].synced ==> e.inodes[ino].synced))
  }

  ghost predicate KeepsNames(world: World, me: nat, d: Disk, e: Disk) {
    && (forall n :: n in e.live && Owns(e, me, e.live[n]) ==> n in d.live && d.live[n] == e.live[n])
    && (forall n :: n in d.live && Owns(d, me, d.live[n]) ==> n in e.live && e.live[n] == d.live[n])
    && (forall n :: n in e.live && n != world.target && world.author(n) == me ==> n in d.live && e.live[n] == d.live[n])
  }

  ghost predicate KeepsEntries(world: World, me: nat, d: Disk, e: Disk) {
    && (forall ino :: IsTarget(world, d, ino) ==> IsTarget(world, e, ino))
    && (forall ino :: Owns(d, me, ino) && !Lingers(world, d, ino) ==> !Lingers(world, e, ino))
    && (world.target in d.durable ==> world.target in e.durable)
  }

  lemma ForeignStepFrame(world: World, me: nat, d: Disk, a: Action)
    requires d.tampered || (Sound(world, d) && Allowed(world, d, a))
    requires Foreign(me, a)
    ensures Frame(world, me, d, Apply(world, d, a))
  {
    if !Apply(world, d, a).tampered {
      ForeignStepNames(world, me, d, a);
      ForeignStepEntries(world, me, d, a);
    }
  }

  /** What one writer does keeps all that any other writer relies on. */
  lemma GuaranteeIsRely(world: World, me: nat, other: nat, d: Disk, a: Action)
    requires Own(me, a) && me != other
    requires d.tampered || (Sound(world, d) && Allowed(world, d, a))
    ensures Frame(world, other, d, Apply(world, d, a))
  {
    hide Frame, Sound, Allowed;
    OwnIsForeignToOthers(me, other, a);
    ForeignStepFrame(world, other, d, a);
  }

  lemma ForeignStepNames(world: World, me: nat, d: Disk, a: Action)
    requires Sound(world, d) && Allowed(world, d, a) && Foreign(me, a) && !a.Tamper?
    ensures KeepsFiles(me, d, Apply(world, d, a)) && KeepsNames(world, me, d, Apply(world, d, a))
  {
  }

  lemma ForeignStepEntries(world: World, me: nat, d: Disk, a: Action)
    requires Sound(world, d) && Allowed(world, d, a) && Foreign(me, a) && !a.Tamper?
    ensures KeepsEntries(world, me, d, Apply(world, d, a))
  {
  }

  lemma FrameReflexive(world: World, me: nat, d: Disk)
    ensures Frame(world, me, d, d)
  {
  }

  lemma FrameTransitive(world: World, me: nat, d: Disk, e: Disk, f: Disk)
    requires Frame(world, me, d, e) && Frame(world, me, e, f)
    ensures Frame(world, me, d, f)
  {
  }

  /** My files are found only under the target and under the given temporary names, which are mine. */
  ghost predicate MineAt(world: World, me: nat, d: Disk, temps: set<string>) {
    || d.tampered
    || (&& (forall n :: n in d.live && Owns(d, me, d.live[n]) ==> n == world.target || n in temps)
        && (forall n :: n in temps ==> n != world.target && world.author(n) == me)
        && (forall n :: n in temps && n in d.live ==> Owns(d, me, d.live[n])))
  }

  ghost predicate NoneMine(d: Disk, me: nat) {
    d.tampered || forall i :: !Owns(d, me, i)
  }

  /** A target bound before is bound still, to the same file. */
  ghost predicate KeepsTarget(world: World, d: Disk, e: Disk) {
    e.tampered || (!d.tampered && forall ino :: IsTarget(world, d, ino) ==> IsTarget(world, e, ino))
  }

  /** The target is one of my files. */
  predicate TargetIsMine(world: World, me: nat, d: Disk) {
    world.target in d.live && Owns(d, me, d.live[world.target])
  }

  /** Between two disks I gained and lost no file, and the target did not change hands to or from me. */
  ghost predicate Untouched(world: World, me: nat, d: Disk, e: Disk) {
    || e.tampered
    || (&& !d.tampered
        && (forall ino :: Owns(e, me, ino) <==> Owns(d, me, ino))
        && (forall ino :: IsTarget(world, d, ino) ==> IsTarget(world, e, ino))
        && (TargetIsMine(world, me, e) ==> TargetIsMine(world, me, d)))
  }

  lemma UntouchedTransitive(world: World, me: nat, d: Disk, e: Disk, f: Disk)
    requires Untouched(world, me, d, e) && Untouched(world, me, e, f)
    ensures Untouched(world, me, d, f)
  {
  }

  lemma UntouchedKeeps(world: World, me: nat, d: Disk, e: Disk)
    requires Untouched(world, me, d, e)
    ensures KeepsTarget(world, d, e)
    ensures world.target in d.live ==> e.tampered || world.target in e.live
    ensures e.tampered || (!d.tampered && (TargetIsMine(world, me, e) <==> TargetIsMine(world, me, d)))
    ensures forall ino :: Published(world, me, d, ino) ==> Published(world, me, e, ino)
  {
    BoundStays(world, d, e);
    if !e.tampered && TargetIsMine(world, me, d) {
      assert IsTarget(world, d, d.live[world.target]);
    }
  }

  lemma BoundStays(world: World, d: Disk, e: Disk)
    requires KeepsTarget(world, d, e)
    ensures world.target in d.live ==> e.tampered || world.target in e.live
  {
    if world.target in d.live {
      assert IsTarget(world, d, d.live[world.target]);
    }
  }

  lemma KeepsTargetReflexive(world: World, d: Disk)
    ensures KeepsTarget(world, d, d)
  {
  }

  lemma KeepsTargetTransitive(world: World, d: Disk, e: Disk, f: Disk)
    requires KeepsTarget(world, d, e) && KeepsTarget(world, e, f)
    ensures KeepsTarget(world, d, f)
  {
  }

  /** `ino` is my only file; it is under `temp` alone and holds `data`. */
  ghost predicate Prepared(world: World, me: nat, d: Disk, temp: string, ino: nat, content: Inode) {
    || d.tampered
    || (&& OnlyMine(d, me, ino)
        && temp in d.live && d.live[temp] == ino
        && !(world.target in d.live && d.live[world.target] == ino)
        && d.inodes[ino].data == content.data && d.inodes[ino].version == content.version
        && (content.synced ==> d.inodes[ino].synced))
  }

  ghost predicate OnlyMine(d: Disk, me: nat, ino: nat) {
    Owns(d, me, ino) && forall i :: Owns(d, me, i) ==> i == ino
  }

  /** `ino` is my only file and has not been written since `version`. */
  ghost predicate Sealed(me: nat, d: Disk, ino: nat, version: nat) {
    d.tampered || (OnlyMine(d, me, ino) && d.inodes[ino].version == version)
  }

  /** The target is my file. */
  ghost predicate Published(world: World, me: nat, d: Disk, ino: nat) {
    d.tampered || (OnlyMine(d, me, ino) && IsTarget(world, d, ino))
  }

  lemma FrameKeeps(world: World, me: nat, d: Disk, e: Disk, temps: set<string>, temp: string, ino: nat, content: Inode)
    requires Frame(world, me, d, e)
    ensures MineAt(world, me, d, temps) ==> MineAt(world, me, e, temps)
    ensures NoneMine(d, me) ==> NoneMine(e, me)
    ensures KeepsTarget(world, d, e) && Untouched(world, me, d, e)
    ensures Published(world, me, d, ino) ==> Published(world, me, e, ino)
    ensures Sealed(me, d, ino, content.version) ==> Sealed(me, e, ino, content.version)
    ensures Prepared(world, me, d, temp, ino, content) ==> Prepared(world, me, e, temp, ino, content)
  {
  }

  // Where a write stands: its file is ready under a temporary name, or is the target, with
  // these temporary names still there, or with one that may be gone.
  datatype Phase =
    | Staged(temp: string, ino: nat, content: Inode)
    | Linked(temps: set<string>, ino: nat)
    | Unlinking(temp: string, ino: nat)

  ghost predicate InPhase(world: World, me: nat, d: Disk, phase: Phase) {
    match phase
    case Staged(temp, ino, content) => MineAt(world, me, d, {temp}) && Prepared(world, me, d, temp, ino, content)
    case Linked(temps, ino) => MineAt(world, me, d, temps) && Published(world, me, d, ino) && AllThere(d, temps)
    case Unlinking(temp, ino) => MineAt(world, me, d, {temp}) && Published(world, me, d, ino)
  }

  predicate AllThere(d: Disk, names: set<string>) {
    d.tampered || forall n <- names :: n in d.live
  }

  lemma FrameKeepsPhase(world: World, me: nat, d: Disk, e: Disk, phase: Phase)
    requires Frame(world, me, d, e) && InPhase(world, me, d, phase)
    ensures InPhase(world, me, e, phase) && KeepsTarget(world, d, e)
    ensures d.tampered ==> e.tampered
  {
    hide MineAt, Prepared, Published, KeepsTarget, KeepsFiles, KeepsNames, KeepsEntries;
    match phase
    case Staged(temp, ino, content) => FrameKeeps(world, me, d, e, {temp}, temp, ino, content);
    case Linked(temps, ino) =>
      FrameKeeps(world, me, d, e, temps, "", ino, Inode(me, [], 0, false));
      forall n | n in temps
        ensures e.tampered || n in e.live
      {
        NameStays(world, me, d, e, temps, n);
      }
    case Unlinking(temp, ino) => FrameKeeps(world, me, d, e, {temp}, "", ino, Inode(me, [], 0, false));
  }

  /** Others neither remove my temporary names nor bind them. */
  lemma NameStays(world: World, me: nat, d: Disk, e: Disk, temps: set<string>, n: string)
    requires Frame(world, me, d, e) && MineAt(world, me, d, temps) && n in temps
    ensures e.tampered || (n in e.live <==> n in d.live)
  {
  }

  /** After any crash the target is my file, under no other name. */
  ghost predicate Durable(world: World, me: nat, d: Disk) {
    || d.tampered
    || (&& TargetIsMine(world, me, d)
        && world.target in d.durable && d.durable[world.target] == d.live[world.target]
        && !Lingers(world, d, d.live[world.target]))
  }

  /** The target's entry, naming my file, is on stable storage. */
  ghost predicate EntryDurable(world: World, d: Disk, ino: nat) {
    d.tampered || (world.target in d.durable && d.durable[world.target] == ino)
  }

  lemma DurableStable(world: World, me: nat, d: Disk, e: Disk)
    requires Durable(world, me, d) && Frame(world, me, d, e)
    requires e.tampered || Sound(world, e)
    ensures Durable(world, me, e)
  {
    if !e.tampered {
      assert IsTarget(world, d, d.live[world.target]);
    }
  }

  /** Syncing the directory makes a published target durable once its temporary name is gone. */
  lemma SyncedIsDurable(world: World, me: nat, d: Disk, ino: nat)
    requires Published(world, me, d, ino) && MineAt(world, me, d, {})
    requires d.tampered || (d.durable == d.live && d.pending == [])
    ensures Durable(world, me, d)
  {
  }

  /** What durability means: every recovery has the target, holding my whole payload, and no other name for it. */
  lemma DurableMeans(world: World, me: nat, d: Disk, entries: map<string, nat>, data: seq<byte>)
    requires Durable(world, me, d) && !d.tampered && Sound(world, d)
    requires MayRecover(d, entries)
    ensures world.target in entries
    ensures MayRead(d, entries[world.target], data) ==> data == world.payload(me)
    ensures forall n :: n in entries && n != world.target ==> entries[n] != entries[world.target]
  {
  }

  /** No name but the target leads to a file of mine, now or after any crash. */
  ghost predicate NoTrace(world: World, me: nat, d: Disk) {
    d.tampered || forall ino :: Owns(d, me, ino) ==> !Lingers(world, d, ino)
  }

  lemma NoTraceStays(world: World, me: nat, d: Disk, e: Disk)
    requires NoTrace(world, me, d) && Frame(world, me, d, e)
    ensures NoTrace(world, me, e)
  {
  }

  /** Syncing the directory makes it forget the names that are gone. */
  lemma SyncedHasNoTrace(world: World, me: nat, d: Disk)
    requires MineAt(world, me, d, {})
    requires d.tampered || (d.durable == d.live && d.pending == [])
    ensures NoTrace(world, me, d)
  {
  }

  lemma SettledHasNoTrace(world: World, me: nat, d: Disk, ino: nat)
    requires Published(world, me, d, ino) && Durable(world, me, d)
    ensures NoTrace(world, me, d)
  {
  }

  /** What it means: no recovery has a temporary name for a file of mine. */
  lemma NoTraceMeans(world: World, me: nat, d: Disk, entries: map<string, nat>, n: string)
    requires NoTrace(world, me, d) && !d.tampered && MayRecover(d, entries)
    requires n in entries && Owns(d, me, entries[n])
    ensures n == world.target
  {
  }

  lemma CreatedIsPrepared(world: World, me: nat, d: Disk, name: string, ino: nat)
    requires MineAt(world, me, d, {}) && NoneMine(d, me)
    requires d.tampered || (Sound(world, d) && Allowed(world, d, Create(me, name, ino)))
    ensures
      var e := Apply(world, d, Create(me, name, ino));
      && MineAt(world, me, e, {name})
      && Prepared(world, me, e, name, ino, Inode(me, [], 0, false))
      && KeepsTarget(world, d, e)
  {
    var e := Apply(world, d, Create(me, name, ino));
    if !d.tampered {
      forall i | Owns(e, me, i)
        ensures i == ino
      {
        assert i == ino || Owns(d, me, i);
      }
    }
  }

  lemma FilledIsPrepared(world: World, me: nat, d: Disk, temp: string, ino: nat, data: seq<byte>)
    requires MineAt(world, me, d, {temp}) && Prepared(world, me, d, temp, ino, Inode(me, [], 0, false))
    ensures
      var e := Apply(world, d, Fill(me, ino, data));
      && (d.tampered || Allowed(world, d, Fill(me, ino, data)))
      && MineAt(world, me, e, {temp})
      && Prepared(world, me, e, temp, ino, Inode(me, data, 1, false))
      && KeepsTarget(world, d, e)
  {
    if !d.tampered {
      assert forall i :: Owns(Apply(world, d, Fill(me, ino, data)), me, i) ==> Owns(d, me, i);
    }
  }

  lemma FlushedIsPrepared(world: World, me: nat, d: Disk, temp: string, ino: nat, content: Inode)
    requires MineAt(world, me, d, {temp}) && Prepared(world, me, d, temp, ino, content)
    ensures
      var e := Apply(world, d, Flush(ino));
      && (d.tampered || Allowed(world, d, Flush(ino)))
      && MineAt(world, me, e, {temp})
      && Prepared(world, me, e, temp, ino, content) && Prepared(world, me, e, temp, ino, content.(synced := true))
      && KeepsTarget(world, d, e)
  {
    if !d.tampered {
      assert forall i :: Owns(Apply(world, d, Flush(ino)), me, i) ==> Owns(d, me, i);
    }
  }

  lemma LinkedIsPublished(world: World, me: nat, d: Disk, temp: string, ino: nat, content: Inode)
    requires MineAt(world, me, d, {temp}) && Prepared(world, me, d, temp, ino, content)
    requires content.synced && content.data == world.payload(me)
    requires temp in d.live && world.target !in d.live
    ensures
      var e := Apply(world, d, Link(me, temp));
      && (d.tampered || Allowed(world, d, Link(me, temp)))
      && MineAt(world, me, e, {temp})
      && Sealed(me, e, ino, content.version)
      && Published(world, me, e, ino)
      && (d.tampered || IsTarget(world, e, ino))
      && KeepsTarget(world, d, e)
  {
    if !d.tampered {
      assert forall i :: Owns(Apply(world, d, Link(me, temp)), me, i) ==> Owns(d, me, i);
    }
  }

  lemma PreparedIsSealed(world: World, me: nat, d: Disk, temp: string, ino: nat, content: Inode)
    requires Prepared(world, me, d, temp, ino, content)
    ensures Sealed(me, d, ino, content.version)
    ensures d.tampered || (temp in d.live && !IsTarget(world, d, ino) && !TargetIsMine(world, me, d))
  {
  }

  lemma UnlinkedIsGone(world: World, me: nat, d: Disk, temp: string)
    requires MineAt(world, me, d, {temp}) && temp in d.live
    ensures
      var e := Apply(world, d, Unlink(me, temp));
      && (d.tampered || Allowed(world, d, Unlink(me, temp)))
      && MineAt(world, me, e, {temp}) && MineAt(world, me, e, {})
      && Untouched(world, me, d, e)
  {
  }

  lemma AbsentIsGone(world: World, me: nat, d: Disk, temp: string)
    requires MineAt(world, me, d, {temp}) && temp !in d.live
    ensures MineAt(world, me, d, {})
  {
  }

  // ---- Runs -----------------------------------------------------------------

  /** The disk after a history of steps. */
  ghost function After(world: World, d: Disk, history: seq<Action>): Disk {
    if history == [] then d else Apply(world, After(world, d, history[..|history| - 1]), history[|history| - 1])
  }

  /** Every step was allowed where it was taken, unless a foreign program had interfered before. */
  ghost predicate Legal(world: World, d: Disk, history: seq<Action>) {
    history == []
    || (&& Legal(world, d, history[..|history| - 1])
        && var before := After(world, d, history[..|history| - 1]);
           before.tampered || Allowed(world, before, history[|history| - 1]))
  }

  lemma Snoc(world: World, d: Disk, history: seq<Action>, a: Action)
    ensures After(world, d, history + [a]) == Apply(world, After(world, d, history), a)
    ensures Legal(world, d, history + [a]) <==>
      Legal(world, d, history) && (After(world, d, history).tampered || Allowed(world, After(world, d, history), a))
  {
    assert (history + [a])[..|history|] == history;
  }

  /** An untampered run keeps the disk sound and never changes a published target. */
  lemma {:induction false} RunKeepsSound(world: World, d: Disk, history: seq<Action>)
    requires Legal(world, d, history) && !After(world, d, history).tampered
    requires Sound(world, d)
    ensures !d.tampered && Sound(world, After(world, d, history))
    ensures forall ino :: IsTarget(world, d, ino) ==> IsTarget(world, After(world, d, history), ino)
  {
    if history != [] {
      RunKeepsSound(world, d, history[..|history| - 1]);
      StepKeepsSound(world, After(world, d, history[..|history| - 1]), history[|history| - 1]);
    }
  }

  /**
   Crash safety over every interleaving: however many writers ran, whichever of their steps
   failed, and wherever the crash falls, the recovered directory either lacks the target or
   has it bound to a file that holds one writer's whole payload.
   */
  lemma CrashSafety(world: World, d: Disk, history: seq<Action>, entries: map<string, nat>, data: seq<byte>)
    requires Sound(world, d)
    requires Legal(world, d, history) && !After(world, d, history).tampered
    requires MayRecover(After(world, d, history), entries)
    ensures world.target in entries && MayRead(After(world, d, history), entries[world.target], data) ==>
      data == world.payload(After(world, d, history).inodes[entries[world.target]].owner)
  {
    RunKeepsSound(world, d, history);
  }

  /** A run that starts with a published target recovers that very target after any crash, once it is durable. */
  lemma PublishedIsForever(world: World, d: Disk, history: seq<Action>, entries: map<string, nat>)
    requires Sound(world, d)
    requires Legal(world, d, history) && !After(world, d, history).tampered
    requires MayRecover(After(world, d, history), entries)
    requires world.target in d.durable
    ensures world.target in entries && entries[world.target] == d.durable[world.target]
  {
    RunKeepsSound(world, d, history);
    DurableStays(world, d, history);
  }

  lemma {:induction false} DurableStays(world: World, d: Disk, history: seq<Action>)
    requires Sound(world, d) && world.target in d.durable
    requires Legal(world, d, history) && !After(world, d, history).tampered
    ensures world.target in After(world, d, history).durable
  {
    hide Sound, Allowed;
    if history != [] {
      var before, a := history[..|history| - 1], history[|history| - 1];
      UntamperedBefore(world, After(world, d, before), a);
      DurableStays(world, d, before);
      RunKeepsSound(world, d, before);
      StepKeepsDurable(world, After(world, d, before), a);
    }
  }

  lemma StepKeepsDurable(world: World, d: Disk, a: Action)
    requires Sound(world, d) && world.target in d.durable && !a.Tamper?
    ensures world.target in Apply(world, d, a).durable
  {
  }

  /**
   At most one writer ever sees itself as the installer: if the target was mine at some point
   and another writer's at a later one, the two are the same writer.
   */
  lemma AtMostOneInstaller(world: World, d: Disk, history: seq<Action>, first: nat, second: nat)
    requires Sound(world, d) && TargetIsMine(world, first, d)
    requires Legal(world, d, history) && !After(world, d, history).tampered
    requires TargetIsMine(world, second, After(world, d, history))
    ensures first == second
  {
    assert IsTarget(world, d, d.live[world.target]);
    RunKeepsSound(world, d, history);
    OwnersStay(world, d, history, d.live[world.target]);
  }

  lemma StepKeepsOwners(world: World, d: Disk, a: Action, ino: nat)
    requires ino in d.inodes && Allowed(world, d, a) && !a.Tamper?
    ensures ino in Apply(world, d, a).inodes && Apply(world, d, a).inodes[ino].owner == d.inodes[ino].owner
  {
  }

  lemma {:induction false} OwnersStay(world: World, d: Disk, history: seq<Action>, ino: nat)
    requires Sound(world, d) && ino in d.inodes
    requires Legal(world, d, history) && !After(world, d, history).tampered
    ensures ino in After(world, d, history).inodes && After(world, d, history).inodes[ino].owner == d.inodes[ino].owner
  {
    hide Sound, Allowed;
    if history != [] {
      var before, a := history[..|history| - 1], history[|history| - 1];
      UntamperedBefore(world, After(world, d, before), a);
      OwnersStay(world, d, before, ino);
      StepKeepsOwners(world, After(world, d, before), a, ino);
    }
  }

  lemma UntamperedBefore(world: World, d: Disk, a: Action)
    requires !Apply(world, d, a).tampered
    ensures !d.tampered && !a.Tamper?
  {
  }
}
