/**
 The writer's handle on its directory. Before every operation other writers and foreign
 programs may act; the operation itself may fail, with or without having taken effect. What
 happens is decided by an oracle, turn by turn.
 */
module AnchoredDirectory {
  import opened GoNumbers
  import opened DurableDisk
  import opened ErrorWalk
  import opened ErrorTree

  // What the outside world does at one operation: the steps others take first, whether the
  // operation fails, and whether it then took effect all the same. An operation that took
  // effect may echo it as its error: the linked name exists, the removed one does not.
  datatype Turn = Turn(
    others: seq<Action>,
    fails: bool,
    effective: bool,
    echoes: bool,
    canceled: bool,
    count: nat,
    regular: bool,
    entropy: string)

  const NOTHING := Likeness(false, false, false, false, false)

  function Trouble(operation: string): Leaf {
    Other(operation, NOTHING)
  }

  function Failed(operation: string): Err {
    Leaf(Trouble(operation))
  }

  const REMOVE_FAILED := Other("remove", NOTHING)
  const RECONCILE_FAILED := Other("reconcile", NOTHING)
  const SYNC_FAILED := Other("sync directory", NOTHING)
  const NOT_EXIST := Other("not exist", NOTHING)

  // How often a temporary name is drawn before the writer gives up.
  const DRAWS: nat := 128

  datatype Snapshot = Snapshot(ino: nat, version: nat)

  datatype Look = Found(snapshot: Snapshot) | Missing | Broken

  // An operation's turn, and the disk it meets.
  datatype Moment = Moment(turn: nat, disk: Disk)

  class Directory {
    const world: World
    const me: nat
    const oracle: nat -> Turn
    var turn: nat
    var disk: Disk
    ghost const initial: Disk
    ghost var history: seq<Action>

    constructor (world: World, me: nat, oracle: nat -> Turn, disk: Disk)
      requires Sound(world, disk) && !disk.tampered
      ensures this.world == world && this.me == me && this.oracle == oracle
      ensures this.disk == disk && turn == 0
      ensures this.initial == disk && history == []
      ensures Valid()
    {
      this.world, this.me, this.oracle, this.disk := world, me, oracle, disk;
      turn := 0;
      initial, history := disk, [];
    }

    /** The disk is the result of a legal history. */
    ghost predicate Valid()
      reads this
    {
      && Sound(world, initial) && !initial.tampered
      && Legal(world, initial, history)
      && disk == After(world, initial, history)
      && (Orderly() ==> !disk.tampered)
    }

    /** No foreign program ever interferes. */
    ghost predicate Orderly() {
      forall t: nat, a <- oracle(t).others :: !a.Tamper?
    }

    lemma DiskIsSound()
      requires Valid() && !disk.tampered
      ensures Sound(world, disk)
      ensures forall ino :: IsTarget(world, initial, ino) ==> IsTarget(world, disk, ino)
    {
      RunKeepsSound(world, initial, history);
    }

    method Step(a: Action)
      requires Valid() && (disk.tampered || Allowed(world, disk, a))
      requires a.Tamper? ==> !Orderly()
      modifies this
      ensures Valid()
      ensures disk == Apply(world, old(disk), a)
      ensures turn == old(turn)
    {
      Snoc(world, initial, history, a);
      disk := Apply(world, disk, a);
      history := history + [a];
    }

    /** A step of this writer. */
    method Act(a: Action)
      requires Valid() && Own(me, a) && (disk.tampered || Allowed(world, disk, a))
      modifies this
      ensures Valid()
      ensures disk == Apply(world, old(disk), a)
      ensures turn == old(turn)
    {
      Step(a);
    }

    /** The operation at this turn fails after taking effect. */
    predicate FailsWithEffect(t: nat) {
      oracle(t).fails && oracle(t).effective
    }

    /** The disk that the operation at turn `t` meets when the one before it left `d`. */
    ghost function Meets(d: Disk, t: nat): Disk {
      AfterOthers(world, me, d, oracle(t).others)
    }

    /** A file created then would have a free name and a free inode. */
    predicate Free(prefix: string, at: Moment) {
      prefix + oracle(at.turn).entropy !in at.disk.live && oracle(at.turn).count !in at.disk.inodes
    }

    /** A draw then finds its name taken. */
    predicate Taken(prefix: string, at: Moment) {
      && !oracle(at.turn).fails
      && oracle(at.turn).count !in at.disk.inodes
      && prefix + oracle(at.turn).entropy in at.disk.live
    }

    /** A create then succeeds. */
    predicate Creates(prefix: string, at: Moment) {
      !oracle(at.turn).fails && Free(prefix, at)
    }

    /** A create then fails after taking effect. */
    predicate Strands(prefix: string, at: Moment) {
      FailsWithEffect(at.turn) && Free(prefix, at)
    }

    /** The last of at most `draws` draws, the first of which is made at turn `t` after `d`. */
    ghost function LastDraw(prefix: string, d: Disk, t: nat, draws: nat): Moment
      requires draws > 0
      decreases draws
    {
      var at := Moment(t, Meets(d, t));
      if draws == 1 || !Taken(prefix, at) then at else LastDraw(prefix, at.disk, t + 1, draws - 1)
    }

    /** Let the others take their steps; those that are not allowed are not taken. */
    method Yield() returns (now: Turn)
      requires Valid()
      modifies this
      ensures Valid()
      ensures now == oracle(old(turn)) && turn == old(turn) + 1
      ensures Frame(world, me, old(disk), disk) && disk == Meets(old(disk), old(turn))
    {
      now := oracle(turn);
      turn := turn + 1;
      FrameReflexive(world, me, disk);
      for i := 0 to |now.others|
        invariant Valid()
        invariant Frame(world, me, old(disk), disk)
        invariant turn == old(turn) + 1 && disk == AfterOthers(world, me, old(disk), now.others[..i])
      {
        var a := now.others[i];
        assert now.others[..i + 1][..i] == now.others[..i] && a in oracle(old(turn)).others;
        if Foreign(me, a) && Allowed(world, disk, a) {
          ghost var before := disk;
          if !disk.tampered {
            DiskIsSound();
          }
          ForeignStepFrame(world, me, disk, a);
          Step(a);
          FrameTransitive(world, me, old(disk), before, disk);
        }
      }
      assert now.others[..|now.others|] == now.others;
    }

    /** ctx.Err() */
    method ContextErr() returns (err: Err)
      requires Valid()
      modifies this
      ensures Valid() && Frame(world, me, old(disk), disk)
      ensures turn == old(turn) + 1 && disk == Meets(old(disk), old(turn))
      ensures err == if oracle(old(turn)).canceled then Leaf(Canceled) else None
    {
      var now := Yield();
      err := if now.canceled then Leaf(Canceled) else None;
    }

    /** An operation that only inspects or closes, and may fail. */
    method Probe(operation: string) returns (err: Err)
      requires Valid()
      modifies this
      ensures Valid() && Frame(world, me, old(disk), disk)
      ensures turn == old(turn) + 1 && disk == Meets(old(disk), old(turn))
      ensures err == if oracle(old(turn)).fails then Failed(operation) else None
    {
      var now := Yield();
      err := if now.fails then Failed(operation) else None;
    }

    method Lstat(name: string) returns (look: Look)
      requires Valid()
      modifies this
      ensures Valid() && Frame(world, me, old(disk), disk)
      ensures look.Found? && !disk.tampered ==>
        name in disk.live && look.snapshot.ino == disk.live[name] && look.snapshot.ino in disk.inodes
        && look.snapshot.version == disk.inodes[disk.live[name]].version
      ensures look.Missing? ==> name !in disk.live
      ensures oracle(old(turn)).fails ==> look == Broken
      ensures look == Broken && !disk.tampered ==> oracle(old(turn)).fails
      ensures name !in disk.live && !oracle(old(turn)).fails ==> look == Missing
      ensures turn == old(turn) + 1 && disk == Meets(old(disk), old(turn))
    {
      var now := Yield();
      if now.fails {
        return Broken;
      }
      if name !in disk.live {
        return Missing;
      }
      if !disk.tampered {
        DiskIsSound();
      }
      var ino := disk.live[name];
      return if ino in disk.inodes then Found(Snapshot(ino, disk.inodes[ino].version)) else Broken;
    }

    /**
     Up to 128 draws of a random name; a name already taken is drawn again. The file of a create
     that fails after taking effect is stranded: no caller learns of it.
     */
    method CreateTemp(prefix: string) returns (err: Err, name: string, ino: nat)
      requires Valid()
      requires |prefix| > |world.target|
      requires forall k :: world.author(prefix + oracle(k).entropy) == me
      requires MineAt(world, me, disk, {}) && NoneMine(disk, me)
      modifies this
      ensures Valid() && KeepsTarget(world, old(disk), disk)
      ensures Drawn(prefix, LastDraw(prefix, old(disk), old(turn), DRAWS), err, name, ino)
      ensures turn == LastDraw(prefix, old(disk), old(turn), DRAWS).turn + 1 <= old(turn) + DRAWS
    {
      hide MineAt, NoneMine, Prepared, KeepsTarget, Drawn, LastDraw, Taken, Meets, Legal, After, Sound;
      var taken := true;
      var attempt := 0;
      err, name, ino := None, "", 0;
      ghost var last := LastDraw(prefix, disk, turn, DRAWS);
      KeepsTargetReflexive(world, disk);
      while attempt < DRAWS && taken
        invariant attempt <= DRAWS && turn == old(turn) + attempt
        invariant Valid() && KeepsTarget(world, old(disk), disk)
        invariant taken ==> MineAt(world, me, disk, {}) && NoneMine(disk, me)
        invariant taken && attempt < DRAWS ==> LastDraw(prefix, disk, turn, DRAWS - attempt) == last
        invariant !taken || attempt == DRAWS ==> turn == last.turn + 1
        invariant !taken ==> Drawn(prefix, last, err, name, ino)
        invariant taken && attempt == DRAWS ==>
          Taken(prefix, last) && name == prefix + oracle(last.turn).entropy && ino == oracle(last.turn).count
      {
        ghost var before := disk;
        OneDraw(prefix, disk, turn, DRAWS - attempt);
        taken, err, name, ino := TryCreate(prefix);
        KeepsTargetTransitive(world, old(disk), before, disk);
        attempt := attempt + 1;
      }
      if taken {
        NothingDrawn(prefix, last, name, ino);
        err := Failed("create");
      }
    }

    lemma OneDraw(prefix: string, d: Disk, t: nat, draws: nat)
      requires draws > 0
      ensures var at := Moment(t, Meets(d, t));
        LastDraw(prefix, d, t, draws)
        == if draws == 1 || !Taken(prefix, at) then at else LastDraw(prefix, at.disk, t + 1, draws - 1)
    {
    }

    /** The outcome of a draw: created, stranded, or nothing at all. */
    ghost predicate Drawn(prefix: string, at: Moment, err: Err, name: string, ino: nat)
      reads this
    {
      && name == prefix + oracle(at.turn).entropy && ino == oracle(at.turn).count
      && err == (if Creates(prefix, at) then None else Failed("create"))
      && (Creates(prefix, at) ==> disk == Apply(world, at.disk, Create(me, name, ino)))
      && (if Creates(prefix, at) || Strands(prefix, at)
          then MineAt(world, me, disk, {name}) && Prepared(world, me, disk, name, ino, Inode(me, [], 0, false))
          else MineAt(world, me, disk, {}) && NoneMine(disk, me))
    }

    lemma NothingDrawn(prefix: string, at: Moment, name: string, ino: nat)
      requires Taken(prefix, at) && name == prefix + oracle(at.turn).entropy && ino == oracle(at.turn).count
      requires MineAt(world, me, disk, {}) && NoneMine(disk, me)
      ensures Drawn(prefix, at, Failed("create"), name, ino)
    {
    }

    /** One draw: the name is taken, or it is created, or the system refuses. */
    method TryCreate(prefix: string) returns (taken: bool, err: Err, name: string, ino: nat)
      requires Valid()
      requires |prefix| > |world.target|
      requires forall k :: world.author(prefix + oracle(k).entropy) == me
      requires MineAt(world, me, disk, {}) && NoneMine(disk, me)
      modifies this
      ensures Valid() && KeepsTarget(world, old(disk), disk)
      ensures turn == old(turn) + 1
      ensures var at := Moment(old(turn), Meets(old(disk), old(turn)));
        && (taken <==> Taken(prefix, at))
        && (taken ==> disk == at.disk && MineAt(world, me, disk, {}) && NoneMine(disk, me))
        && (!taken ==> Drawn(prefix, at, err, name, ino))
        && name == prefix + oracle(old(turn)).entropy && ino == oracle(old(turn)).count
    {
      hide MineAt, NoneMine, Prepared, Frame, KeepsTarget, Sound;
      ghost var before := disk;
      var now := Yield();
      FrameKeeps(world, me, before, disk, {}, "", 0, Inode(me, [], 0, false));
      name, ino := prefix + now.entropy, now.count;
      if now.fails && !(now.effective && name !in disk.live && ino !in disk.inodes) {
        return false, Failed("create"), name, ino;
      }
      if !now.fails && ino in disk.inodes {
        return false, Failed("create"), name, ino;
      }
      if name in disk.live {
        return true, None, name, ino;
      }
      assert |name| > |world.target|;
      if !disk.tampered {
        DiskIsSound();
      }
      CreatedIsPrepared(world, me, disk, name, ino);
      KeepsTargetTransitive(world, before, disk, Apply(world, disk, Create(me, name, ino)));
      Act(Create(me, name, ino));
      return false, if now.fails then Failed("create") else None, name, ino;
    }

    /** Write what the operating system takes of `data`. */
    method WriteData(temp: string, ino: nat, data: seq<byte>) returns (err: Err, written: nat)
      requires Valid()
      requires MineAt(world, me, disk, {temp}) && Prepared(world, me, disk, temp, ino, Inode(me, [], 0, false))
      modifies this
      ensures turn == old(turn) + 1
      ensures Valid() && MineAt(world, me, disk, {temp}) && KeepsTarget(world, old(disk), disk)
      ensures err == if oracle(old(turn)).fails then Failed("write") else None
      ensures written == if oracle(old(turn)).count <= |data| then oracle(old(turn)).count else |data|
      ensures disk == Apply(world, Meets(old(disk), old(turn)), Fill(me, ino, data[..written]))
      ensures Prepared(world, me, disk, temp, ino, Inode(me, data[..written], 1, false))
    {
      hide MineAt, Prepared, Frame, KeepsTarget, Untouched, Sound;
      ghost var before := disk;
      var now := Yield();
      FrameKeeps(world, me, before, disk, {temp}, temp, ino, Inode(me, [], 0, false));
      written := if now.count <= |data| then now.count else |data|;
      FilledIsPrepared(world, me, disk, temp, ino, data[..written]);
      KeepsTargetTransitive(world, before, disk, Apply(world, disk, Fill(me, ino, data[..written])));
      Act(Fill(me, ino, data[..written]));
      err := if now.fails then Failed("write") else None;
    }

    method SyncFile(temp: string, ino: nat, ghost content: Inode) returns (err: Err)
      requires Valid()
      requires MineAt(world, me, disk, {temp}) && Prepared(world, me, disk, temp, ino, content)
      modifies this
      ensures turn == old(turn) + 1
      ensures Valid() && MineAt(world, me, disk, {temp}) && KeepsTarget(world, old(disk), disk)
      ensures err == if oracle(old(turn)).fails then Failed("sync") else None
      ensures err == None ==> disk == Apply(world, Meets(old(disk), old(turn)), Flush(ino))
      ensures Prepared(world, me, disk, temp, ino, content.(synced := content.synced || err == None))
    {
      hide MineAt, Prepared, Frame, KeepsTarget, Untouched, Sound;
      ghost var before := disk;
      var now := Yield();
      FrameKeeps(world, me, before, disk, {temp}, temp, ino, content);
      FlushedIsPrepared(world, me, disk, temp, ino, content);
      KeepsTargetTransitive(world, before, disk, Apply(world, disk, Flush(ino)));
      if now.fails {
        if now.effective {
          Act(Flush(ino));
        }
        return Failed("sync");
      }
      Act(Flush(ino));
      return None;
    }

    method Stat(temp: string, ino: nat, ghost content: Inode) returns (err: Err, snapshot: Snapshot, regular: bool)
      requires Valid()
      requires MineAt(world, me, disk, {temp}) && Prepared(world, me, disk, temp, ino, content)
      modifies this
      ensures turn == old(turn) + 1
      ensures Valid() && MineAt(world, me, disk, {temp}) && KeepsTarget(world, old(disk), disk)
      ensures Prepared(world, me, disk, temp, ino, content)
      ensures disk == Meets(old(disk), old(turn))
      ensures err == if oracle(old(turn)).fails || ino !in disk.inodes then Failed("stat") else None
      ensures err == None ==> regular == oracle(old(turn)).regular
      ensures err == None ==>
        snapshot.ino == ino && Prepared(world, me, disk, temp, ino, content.(version := snapshot.version))
    {
      hide MineAt, Frame, KeepsTarget, Untouched, Sound;
      ghost var before := disk;
      var now := Yield();
      FrameKeeps(world, me, before, disk, {temp}, temp, ino, content);
      if now.fails || ino !in disk.inodes {
        return Failed("stat"), Snapshot(ino, 0), false;
      }
      return None, Snapshot(ino, disk.inodes[ino].version), now.regular;
    }

    /** What the link call at turn `t` answers over the disk `d`. */
    function LinkError(d: Disk, t: nat): Err {
      if oracle(t).fails then
        if oracle(t).effective && oracle(t).echoes && world.target !in d.live then Wrap(Leaf(SystemExists)) else Failed("link")
      else if world.target in d.live then Wrap(Leaf(SystemExists))
      else None
    }

    /** The directory's own link call. */
    method LinkNames(temp: string, ino: nat, ghost content: Inode) returns (err: Err)
      requires Valid()
      requires content.owner == me && content.synced && content.data == world.payload(me)
      requires MineAt(world, me, disk, {temp}) && Prepared(world, me, disk, temp, ino, content)
      modifies this
      ensures Valid() && MineAt(world, me, disk, {temp}) && KeepsTarget(world, old(disk), disk)
      ensures Sealed(me, disk, ino, content.version)
      ensures err == None ==> Published(world, me, disk, ino)
      ensures err == None || err == Wrap(Leaf(SystemExists)) || err == Failed("link")
      ensures err == Wrap(Leaf(SystemExists)) ==> world.target in disk.live
      ensures oracle(old(turn)).fails ==> err != None
      ensures disk.tampered || (err == LinkError(Meets(old(disk), old(turn)), old(turn)) && temp in disk.live)
      ensures err != None && !disk.tampered ==>
        (IsTarget(world, disk, ino) <==> FailsWithEffect(old(turn)) && world.target !in Meets(old(disk), old(turn)).live)
      ensures turn == old(turn) + 1
    {
      hide MineAt, Prepared, Frame, KeepsTarget, Untouched, Sound, Published, Sealed;
      ghost var before := disk;
      var now := Yield();
      FrameKeeps(world, me, before, disk, {temp}, temp, ino, content);
      PreparedIsSealed(world, me, disk, temp, ino, content);
      assert disk.tampered || temp in disk.live;
      if temp in disk.live && world.target !in disk.live {
        LinkedIsPublished(world, me, disk, temp, ino, content);
        KeepsTargetTransitive(world, before, disk, Apply(world, disk, Link(me, temp)));
      }
      if now.fails {
        if now.effective && temp in disk.live && world.target !in disk.live {
          Act(Link(me, temp));
          return if now.echoes then Wrap(Leaf(SystemExists)) else Failed("link");
        }
        return Failed("link");
      }
      if world.target in disk.live {
        return Wrap(Leaf(SystemExists));
      }
      if temp !in disk.live {
        return Failed("link");
      }
      Act(Link(me, temp));
      return None;
    }

    /** What removing a name at turn `t` answers. */
    function RemoveError(there: bool, t: nat): Err {
      if oracle(t).fails then
        if there && oracle(t).effective && oracle(t).echoes then Leaf(NOT_EXIST) else Leaf(REMOVE_FAILED)
      else if there then None
      else Leaf(NOT_EXIST)
    }

    method Remove(temp: string) returns (err: Err)
      requires Valid() && MineAt(world, me, disk, {temp})
      modifies this
      ensures turn == old(turn) + 1
      ensures Valid() && MineAt(world, me, disk, {temp}) && Untouched(world, me, old(disk), disk)
      ensures err == None || err == Leaf(NOT_EXIST) || err == Leaf(REMOVE_FAILED)
      ensures err == None || err == Leaf(NOT_EXIST) ==> MineAt(world, me, disk, {})
      ensures disk.tampered || err == RemoveError(temp in old(disk.live), old(turn))
      ensures disk.tampered ||
        (temp in disk.live <==> temp in old(disk.live) && oracle(old(turn)).fails && !oracle(old(turn)).effective)
    {
      hide MineAt, Frame, Untouched, KeepsTarget, Sound;
      ghost var before := disk;
      var now := Yield();
      FrameKeeps(world, me, before, disk, {temp}, "", 0, Inode(me, [], 0, false));
      NameStays(world, me, before, disk, {temp}, temp);
      if temp !in disk.live {
        AbsentIsGone(world, me, disk, temp);
        return if now.fails then Leaf(REMOVE_FAILED) else Leaf(NOT_EXIST);
      }
      UnlinkedIsGone(world, me, disk, temp);
      UntouchedTransitive(world, me, before, disk, Apply(world, disk, Unlink(me, temp)));
      if now.fails {
        if now.effective {
          Act(Unlink(me, temp));
          return if now.echoes then Leaf(NOT_EXIST) else Leaf(REMOVE_FAILED);
        }
        return Leaf(REMOVE_FAILED);
      }
      Act(Unlink(me, temp));
      return None;
    }

    /** Sync the directory itself. */
    method Sync() returns (err: Err)
      requires Valid()
      modifies this
      ensures turn == old(turn) + 1
      ensures Valid() && Frame(world, me, old(disk), disk)
      ensures err == if oracle(old(turn)).fails then Failed("sync directory") else None
      ensures err == None && !disk.tampered ==> disk.durable == disk.live && disk.pending == []
    {
      ghost var before := disk;
      var now := Yield();
      ghost var reached := disk;
      if !disk.tampered {
        DiskIsSound();
        ForeignStepFrame(world, me, disk, SyncEntries);
      }
      if now.fails {
        if now.effective {
          Act(SyncEntries);
          FrameTransitive(world, me, before, reached, disk);
        }
        return Failed("sync directory");
      }
      Act(SyncEntries);
      FrameTransitive(world, me, before, reached, disk);
      return None;
    }
  }
}
