/**
 The staged, durable, no-replace publication of one file: create a temporary file, fill and
 sync it, link it to the target, sync the directory, remove the temporary name, sync again.
 Every stage can fail, be cancelled, or race another writer.
 */
module ImmutableWrite {
  import opened GoNumbers
  import opened DurableDisk
  import opened ErrorWalk
  import opened ErrorTree
  import opened AnchoredDirectory
  import opened WriteForecast

  /** Mentions none of the "already exists" sentinels. */
  predicate Silent(e: Err) {
    !Mentions(e, ImmutableExists) && !Mentions(e, SystemExists) && !Mentions(e, FileSystemExists)
  }

  /** errors.Is(e, fs.ErrExist) */
  predicate IsExist(e: Err) {
    Mentions(e, SystemExists) || Mentions(e, FileSystemExists)
  }

  /** An unsafe path, and the trouble that showed it. */
  lemma UnsafeLeaves(operation: string)
    ensures Leaves(Both(UnsafePath, Failed(operation))) == {UnsafePath, Trouble(operation)}
    ensures Silent(Both(UnsafePath, Failed(operation)))
  {
    hide Leaves;
    BasicLeaves();
    JoinLeaves(Leaf(UnsafePath), Failed(operation));
  }

  ghost predicate TargetBound(dir: Directory)
    reads dir
  {
    dir.disk.tampered || dir.world.target in dir.disk.live
  }

  /** No temporary file of this writer is left in the directory. */
  ghost predicate NoLeftover(dir: Directory)
    reads dir
  {
    MineAt(dir.world, dir.me, dir.disk, {})
  }

  /** No crash can bring a temporary name of this writer back, unless the error says what failed. */
  ghost predicate Forgotten(dir: Directory, err: Err)
    reads dir
  {
    NoTrace(dir.world, dir.me, dir.disk) || Mentions(err, REMOVE_FAILED) || Mentions(err, SYNC_FAILED)
  }

  method Install(dir: Directory, temp: string, expected: Snapshot, ghost content: Inode)
    returns (installed: bool, err: Err)
    requires dir.Valid()
    requires content.owner == dir.me && content.synced && content.data == dir.world.payload(dir.me)
    requires expected.version == content.version
    requires MineAt(dir.world, dir.me, dir.disk, {temp})
    requires Prepared(dir.world, dir.me, dir.disk, temp, expected.ino, content)
    modifies dir
    ensures dir.Valid() && MineAt(dir.world, dir.me, dir.disk, {temp}) && KeepsTarget(dir.world, old(dir.disk), dir.disk)
    ensures installed ==> Published(dir.world, dir.me, dir.disk, expected.ino)
    ensures AllThere(dir.disk, {temp})
    ensures dir.disk.tampered ||
      (&& (installed <==> Installs(dir, old(dir.disk), old(dir.turn)))
       && Leaves(err) == InstallLeaves(dir, old(dir.disk), old(dir.turn))
       && dir.turn == old(dir.turn) + if dir.oracle(old(dir.turn)).fails then 1 else 3)
    ensures !dir.disk.tampered ==>
      (!installed && TargetIsMine(dir.world, dir.me, dir.disk) <==> LinkSlips(dir, old(dir.disk), old(dir.turn)))
    ensures !dir.disk.tampered && LinkSlips(dir, old(dir.disk), old(dir.turn)) ==> Mentions(err, RECONCILE_FAILED)
    ensures err == None ==> installed
    ensures err == None <==> Leaves(err) == {}
    ensures Silent(err) || TargetBound(dir)
    ensures !Mentions(err, REMOVE_FAILED)
  {
    hide MineAt, KeepsTarget, Frame, Prepared, Leaves, Untouched, Published, Sealed, AfterOthers, IsTarget;
    BasicLeaves();
    JoinLeaves(Leaf(UnsafePath), Failed("lstat"));
    ghost var start, before := dir.disk, dir.disk;
    var current := dir.Lstat(temp);
    FrameKeeps(dir.world, dir.me, before, dir.disk, {temp}, temp, expected.ino, content);
    PreparedIsSealed(dir.world, dir.me, dir.disk, temp, expected.ino, content);
    PreparedIsThere(dir.world, dir.me, dir.disk, temp, expected.ino, content);
    if !current.Found? {
      return false, Both(UnsafePath, Failed("lstat"));
    }
    if current.snapshot != expected {
      return false, Wrap(Leaf(UnsafePath));
    }
    before := dir.disk;
    var linkErr, target := LinkAndLook(dir, temp, expected, content);
    KeepsTargetTransitive(dir.world, start, before, dir.disk);
    installed, err := Reconcile(linkErr, target, expected);
  }

  /** The link, and a second look at the target whatever came of it. */
  method LinkAndLook(dir: Directory, temp: string, expected: Snapshot, ghost content: Inode)
    returns (linkErr: Err, target: Look)
    requires dir.Valid()
    requires content.owner == dir.me && content.synced && content.data == dir.world.payload(dir.me)
    requires expected.version == content.version
    requires MineAt(dir.world, dir.me, dir.disk, {temp})
    requires Prepared(dir.world, dir.me, dir.disk, temp, expected.ino, content)
    modifies dir
    ensures dir.Valid() && MineAt(dir.world, dir.me, dir.disk, {temp}) && KeepsTarget(dir.world, old(dir.disk), dir.disk)
    ensures linkErr == None || linkErr == Wrap(Leaf(SystemExists)) || linkErr == Failed("link")
    ensures linkErr == None || target == Found(expected) ==> Published(dir.world, dir.me, dir.disk, expected.ino)
    ensures linkErr == Wrap(Leaf(SystemExists)) ==> TargetBound(dir)
    ensures AllThere(dir.disk, {temp}) && dir.turn == old(dir.turn) + 2
    ensures dir.disk.tampered ||
      (&& linkErr == dir.LinkError(dir.Meets(old(dir.disk), old(dir.turn)), old(dir.turn))
       && (target == Broken <==> dir.oracle(old(dir.turn) + 1).fails)
       && (target == Found(expected) <==>
             && !dir.oracle(old(dir.turn) + 1).fails
             && dir.world.target !in dir.Meets(old(dir.disk), old(dir.turn)).live
             && (linkErr == None || dir.FailsWithEffect(old(dir.turn)))))
    ensures !dir.disk.tampered ==>
      (TargetIsMine(dir.world, dir.me, dir.disk) && linkErr != None && target != Found(expected)
       <==> dir.FailsWithEffect(old(dir.turn)) && dir.world.target !in dir.Meets(old(dir.disk), old(dir.turn)).live
            && dir.oracle(old(dir.turn) + 1).fails)
    ensures dir.oracle(old(dir.turn) + 1).fails ==> target == Broken
  {
    hide MineAt, KeepsTarget, Frame, Prepared, Untouched, Published, Sealed, AfterOthers;
    linkErr := dir.LinkNames(temp, expected.ino, content);
    ghost var before := dir.disk;
    target := dir.Lstat(dir.world.target);
    FrameKeeps(dir.world, dir.me, before, dir.disk, {temp}, temp, expected.ino, content);
    SealedTarget(dir.world, dir.me, before, dir.disk, expected.ino, content.version);
    NameStays(dir.world, dir.me, before, dir.disk, {temp}, temp);
    KeepsTargetTransitive(dir.world, old(dir.disk), before, dir.disk);
    BoundStays(dir.world, before, dir.disk);
  }

  /** While others run, the target becomes or stops being my only file through no step of theirs. */
  lemma SealedTarget(world: World, me: nat, d: Disk, e: Disk, ino: nat, version: nat)
    requires Frame(world, me, d, e) && Sealed(me, d, ino, version)
    ensures e.tampered || (TargetIsMine(world, me, e) <==> IsTarget(world, d, ino))
    ensures e.tampered || (IsTarget(world, e, ino) <==> IsTarget(world, d, ino))
    ensures e.tampered || (!d.tampered && ino in e.inodes && e.inodes[ino].version == version)
    ensures e.tampered || IsTarget(world, e, ino) ==> Published(world, me, e, ino)
  {
  }

  lemma PreparedIsThere(world: World, me: nat, d: Disk, temp: string, ino: nat, content: Inode)
    requires Prepared(world, me, d, temp, ino, content)
    ensures d.tampered ||
      (temp in d.live && d.live[temp] == ino && ino in d.inodes && d.inodes[ino].version == content.version)
  {
  }

  /** What the link error and a second look at the target say together. */
  method Reconcile(linkErr: Err, target: Look, expected: Snapshot) returns (installed: bool, err: Err)
    requires linkErr == None || linkErr == Wrap(Leaf(SystemExists)) || linkErr == Failed("link")
    ensures installed <==> linkErr == None || target == Found(expected)
    ensures err == None <==> linkErr == None && target == Found(expected)
    ensures !installed && target == Broken ==> Mentions(err, RECONCILE_FAILED)
    ensures err == None <==> Leaves(err) == {}
    ensures Leaves(err) ==
      if linkErr == None then
        if target == Found(expected) then {} else if target.Found? then {UnsafePath} else {UnsafePath, Trouble("lstat")}
      else Leaves(linkErr) + if target == Broken then {UnsafePath, RECONCILE_FAILED} else {}
    ensures Silent(err) || linkErr == Wrap(Leaf(SystemExists))
    ensures !Mentions(err, REMOVE_FAILED)
  {
    hide Leaves;
    BasicLeaves();
    JoinLeaves(Leaf(UnsafePath), Failed("lstat"));
    JoinLeaves(Leaf(UnsafePath), Leaf(RECONCILE_FAILED));
    JoinLeaves(linkErr, Both(UnsafePath, Leaf(RECONCILE_FAILED)));
    if linkErr == None {
      if !target.Found? {
        return true, Both(UnsafePath, Failed("lstat"));
      }
      if target.snapshot != expected {
        return true, Wrap(Leaf(UnsafePath));
      }
      return true, None;
    }
    if target == Found(expected) {
      return true, linkErr;
    }
    if target == Broken {
      return false, JoinErrors(linkErr, Both(UnsafePath, Leaf(RECONCILE_FAILED)));
    }
    return false, linkErr;
  }

  const CLEANUP_LEAVES: set<Leaf> := {REMOVE_FAILED, SYNC_FAILED}

  /** One removal; other files stay untouched. */
  method RemoveOnce(dir: Directory, ghost start: Disk, temp: string) returns (err: Err)
    requires dir.Valid() && MineAt(dir.world, dir.me, dir.disk, {temp}) && Untouched(dir.world, dir.me, start, dir.disk)
    modifies dir
    ensures dir.Valid() && MineAt(dir.world, dir.me, dir.disk, {temp}) && Untouched(dir.world, dir.me, start, dir.disk)
    ensures old(dir.disk).tampered ==> dir.disk.tampered
    ensures dir.turn == old(dir.turn) + 1
    ensures err == None || err == Leaf(NOT_EXIST) || err == Leaf(REMOVE_FAILED)
    ensures err == None || err == Leaf(NOT_EXIST) ==> NoLeftover(dir)
    ensures dir.disk.tampered || (err == Leaf(REMOVE_FAILED) <==> Refused(dir, temp in old(dir.disk).live, old(dir.turn)))
  {
    hide MineAt, Untouched, Frame;
    ghost var before := dir.disk;
    err := dir.Remove(temp);
    UntouchedTransitive(dir.world, dir.me, start, before, dir.disk);
    UntouchedKeeps(dir.world, dir.me, before, dir.disk);
  }

  /** The directory sync that ends a cleanup. */
  method SyncOnce(dir: Directory, ghost start: Disk) returns (err: Err)
    requires dir.Valid() && Untouched(dir.world, dir.me, start, dir.disk)
    modifies dir
    ensures dir.Valid() && Untouched(dir.world, dir.me, start, dir.disk)
    ensures old(dir.disk).tampered ==> dir.disk.tampered
    ensures old(NoLeftover(dir)) ==> NoLeftover(dir)
    ensures old(NoLeftover(dir)) && err == None ==> NoTrace(dir.world, dir.me, dir.disk)
    ensures dir.turn == old(dir.turn) + 1
    ensures err == if dir.oracle(old(dir.turn)).fails then Failed("sync directory") else None
  {
    hide MineAt, Untouched, Frame, NoTrace;
    ghost var before := dir.disk;
    err := dir.Sync();
    FrameKeeps(dir.world, dir.me, before, dir.disk, {}, "", 0, Inode(0, [], 0, false));
    UntouchedTransitive(dir.world, dir.me, start, before, dir.disk);
    UntouchedKeeps(dir.world, dir.me, before, dir.disk);
    if MineAt(dir.world, dir.me, before, {}) && err == None {
      SyncedHasNoTrace(dir.world, dir.me, dir.disk);
    }
  }

  /** Only a refused first removal is tried again, and only such a one gives a stage and a leaf of its own. */
  ghost predicate AfterRemoving(dir: Directory, there: bool, attempts: nat, t: nat, now: nat,
                                originalStage: Stage, leaves: set<Leaf>, stage: Stage, cause: Err)
  {
    var refused := Refused(dir, there, t);
    && now == t + (if refused then attempts else 1)
    && stage == (if refused then RemoveTemp else originalStage)
    && Leaves(cause) == leaves + if refused then {REMOVE_FAILED} else {}
  }

  /** Try to remove the temporary name, once or twice. */
  method TryRemoving(dir: Directory, temp: string, attempts: nat, originalStage: Stage, original: Err)
    returns (gone: bool, stage: Stage, cause: Err)
    requires dir.Valid() && MineAt(dir.world, dir.me, dir.disk, {temp})
    requires 1 <= attempts <= 2 && !originalStage.Unknown?
    modifies dir
    ensures dir.Valid() && Untouched(dir.world, dir.me, old(dir.disk), dir.disk)
    ensures if gone then NoLeftover(dir) else Mentions(cause, REMOVE_FAILED)
    ensures !stage.Unknown?
    ensures Leaves(original) <= Leaves(cause) <= Leaves(original) + {REMOVE_FAILED}
    ensures dir.disk.tampered ||
      AfterRemoving(dir, temp in old(dir.disk).live, attempts, old(dir.turn), dir.turn, originalStage, Leaves(original), stage, cause)
  {
    hide MineAt, Untouched, Frame, Leaves, Sound, Legal, After, Published, Refused, AfterRemoving, Tried;
    stage, cause := originalStage, original;
    gone := false;
    var attempt := 0;
    ghost var start := dir.disk;
    ghost var refused := Refused(dir, temp in dir.disk.live, dir.turn);
    FrameReflexive(dir.world, dir.me, dir.disk);
    FrameKeeps(dir.world, dir.me, dir.disk, dir.disk, {temp}, "", 0, Inode(0, [], 0, false));
    NotTried(dir.disk.tampered, refused, stage, cause);
    while attempt < attempts && !gone
      invariant attempt <= attempts && dir.turn == old(dir.turn) + attempt
      invariant dir.Valid() && MineAt(dir.world, dir.me, dir.disk, {temp})
      invariant Untouched(dir.world, dir.me, start, dir.disk)
      invariant gone ==> NoLeftover(dir)
      invariant attempt == 0 ==> !gone && dir.disk == start
      invariant Tried(dir.disk.tampered, attempt, gone, refused, stage, cause, originalStage, original)
      decreases attempts - attempt
    {
      ghost var tampered := dir.disk.tampered;
      var removeErr := RemoveOnce(dir, start, temp);
      OneMoreTry(tampered, dir.disk.tampered, attempt, refused, stage, cause, originalStage, original, removeErr);
      attempt := attempt + 1;
      if removeErr == None || removeErr == Leaf(NOT_EXIST) {
        gone := true;
      } else {
        stage := RemoveTemp;
        cause := JoinErrors(cause, removeErr);
      }
    }
    TriedMeans(dir, dir.disk.tampered, temp in start.live, attempts, old(dir.turn), attempt, gone, stage, cause, originalStage, original);
  }

  /** After some tries: whether the first removal was refused decides about a second one, the stage and the error. */
  ghost predicate Tried(tampered: bool, attempt: nat, gone: bool, refused: bool, stage: Stage, cause: Err,
                        originalStage: Stage, original: Err)
  {
    && !stage.Unknown?
    && Leaves(original) <= Leaves(cause) <= Leaves(original) + {REMOVE_FAILED}
    && (attempt > 0 && !gone ==> Mentions(cause, REMOVE_FAILED))
    && if attempt == 0 then stage == originalStage && cause == original
       else tampered
            || (&& (if refused then attempt == 1 ==> !gone else attempt == 1 && gone)
                && stage == (if refused then RemoveTemp else originalStage)
                && Leaves(cause) == Leaves(original) + if refused then {REMOVE_FAILED} else {})
  }

  lemma NotTried(tampered: bool, refused: bool, stage: Stage, cause: Err)
    requires !stage.Unknown?
    ensures Tried(tampered, 0, false, refused, stage, cause, stage, cause)
  {
    hide Leaves;
  }

  lemma OneMoreTry(before: bool, after: bool, attempt: nat, refused: bool, stage: Stage, cause: Err,
                   originalStage: Stage, original: Err, removeErr: Err)
    requires Tried(before, attempt, false, refused, stage, cause, originalStage, original) && (before ==> after)
    requires removeErr == None || removeErr == Leaf(NOT_EXIST) || removeErr == Leaf(REMOVE_FAILED)
    requires attempt == 0 ==> after || refused == (removeErr == Leaf(REMOVE_FAILED))
    ensures
      if removeErr == Leaf(REMOVE_FAILED)
      then Tried(after, attempt + 1, false, refused, RemoveTemp, JoinErrors(cause, removeErr), originalStage, original)
      else Tried(after, attempt + 1, true, refused, stage, cause, originalStage, original)
  {
    hide Leaves;
    BasicLeaves();
    JoinLeaves(cause, removeErr);
  }

  lemma TriedMeans(dir: Directory, tampered: bool, there: bool, attempts: nat, t: nat, attempt: nat, gone: bool,
                   stage: Stage, cause: Err, originalStage: Stage, original: Err)
    requires Tried(tampered, attempt, gone, Refused(dir, there, t), stage, cause, originalStage, original)
    requires 1 <= attempt <= attempts <= 2 && (gone || attempt == attempts)
    ensures !stage.Unknown? && (gone || Mentions(cause, REMOVE_FAILED))
    ensures Leaves(original) <= Leaves(cause) <= Leaves(original) + {REMOVE_FAILED}
    ensures tampered || AfterRemoving(dir, there, attempts, t, t + attempt, originalStage, Leaves(original), stage, cause)
  {
    hide Leaves;
  }

  /** Remove the temporary name, trying twice unless once failed already, and sync the directory. */
  method CleanupFailure(dir: Directory, temp: string, installed: bool, removeAlreadyAttempted: bool,
                        originalStage: Stage, original: Err)
    returns (result: bool, err: Err)
    requires dir.Valid() && MineAt(dir.world, dir.me, dir.disk, {temp})
    requires !originalStage.Unknown?
    modifies dir
    ensures dir.Valid() && Untouched(dir.world, dir.me, old(dir.disk), dir.disk)
    ensures result == installed
    ensures err.Writer? && err.installed == installed && !err.stage.Unknown?
    ensures Leaves(original) <= Leaves(err) <= Leaves(original) + CLEANUP_LEAVES
    ensures NoLeftover(dir) || Mentions(err, REMOVE_FAILED)
    ensures Forgotten(dir, err)
    ensures dir.disk.tampered ||
      Tells(err, dir.turn, Cleaned(dir, originalStage, Leaves(original), temp in old(dir.disk).live, removeAlreadyAttempted, old(dir.turn)))
  {
    hide MineAt, Untouched, Frame, Leaves, NoTrace, Tells, Cleaned, Sound, Legal, After, Published, AfterRemoving;
    BasicLeaves();
    ghost var start := dir.disk;
    var gone, stage, cause := TryRemoving(dir, temp, if removeAlreadyAttempted then 1 else 2, originalStage, original);
    var syncErr := SyncOnce(dir, start);
    if !dir.disk.tampered {
      SyncedTells(dir, originalStage, Leaves(original), temp in start.live, removeAlreadyAttempted, old(dir.turn),
                  dir.turn - 1, stage, cause, installed);
    }
    if syncErr != None {
      stage := SyncCleanup;
      JoinLeaves(cause, syncErr);
      cause := JoinErrors(cause, syncErr);
    }
    return installed, Writer(stage, installed, cause);
  }

  lemma SyncedTells(dir: Directory, originalStage: Stage, leaves: set<Leaf>, there: bool, removedBefore: bool, t: nat,
                    sync: nat, stage: Stage, cause: Err, installed: bool)
    requires AfterRemoving(dir, there, if removedBefore then 1 else 2, t, sync, originalStage, leaves, stage, cause)
    ensures
      Tells(if dir.oracle(sync).fails then Writer(SyncCleanup, installed, JoinErrors(cause, Failed("sync directory")))
            else Writer(stage, installed, cause),
            sync + 1, Cleaned(dir, originalStage, leaves, there, removedBefore, t))
  {
    hide Leaves;
    BasicLeaves();
    JoinLeaves(cause, Failed("sync directory"));
  }

  /** What a finished write promises about its result, its error and the directory. */
  ghost predicate Reported(dir: Directory, start: Disk, installed: bool, err: Err, mishap: Mishap)
    reads dir
  {
    && dir.Valid()
    && KeepsTarget(dir.world, start, dir.disk)
    && (err == None || (err.Writer? && err.installed == installed && !err.stage.Unknown?))
    && (installed ==> dir.disk.tampered || TargetIsMine(dir.world, dir.me, dir.disk))
    && (err == None ==> installed && Durable(dir.world, dir.me, dir.disk))
    && (Silent(err) || TargetBound(dir))
    && (dir.disk.tampered || Accounted(dir, installed, err, mishap))
    && (mishap.Stranded? ==> !installed && err.Writer? && err.stage == CreateTemp)
    && (mishap.Stranded? || Forgotten(dir, err))
  }

  /** A leftover is named in the error, and an installation noticed, except for exactly these mishaps. */
  ghost predicate Accounted(dir: Directory, installed: bool, err: Err, mishap: Mishap)
    reads dir
  {
    && (!NoLeftover(dir) && !Mentions(err, REMOVE_FAILED) <==> mishap.Stranded?)
    && (!installed && TargetIsMine(dir.world, dir.me, dir.disk) <==> mishap.Slipped?)
    && (mishap.Slipped? ==> Mentions(err, RECONCILE_FAILED))
  }

  /** The write is in the given phase, and no target published since `start` has changed. */
  ghost predicate Holding(dir: Directory, start: Disk, phase: Phase)
    reads dir
  {
    && dir.Valid()
    && InPhase(dir.world, dir.me, dir.disk, phase)
    && KeepsTarget(dir.world, start, dir.disk)
  }

  method ContextStep(dir: Directory, ghost start: Disk, ghost phase: Phase) returns (err: Err)
    requires Holding(dir, start, phase)
    modifies dir
    ensures Holding(dir, start, phase)
    ensures dir.turn == old(dir.turn) + 1 && dir.disk == dir.Meets(old(dir.disk), old(dir.turn))
    ensures old(dir.disk).tampered ==> dir.disk.tampered
    ensures err == if dir.oracle(old(dir.turn)).canceled then Leaf(Canceled) else None
  {
    hide InPhase, Frame, KeepsTarget;
    ghost var before := dir.disk;
    err := dir.ContextErr();
    FrameKeepsPhase(dir.world, dir.me, before, dir.disk, phase);
    KeepsTargetTransitive(dir.world, start, before, dir.disk);
  }

  method ProbeStep(dir: Directory, ghost start: Disk, ghost phase: Phase, operation: string) returns (err: Err)
    requires Holding(dir, start, phase)
    modifies dir
    ensures Holding(dir, start, phase)
    ensures dir.turn == old(dir.turn) + 1 && dir.disk == dir.Meets(old(dir.disk), old(dir.turn))
    ensures err == if dir.oracle(old(dir.turn)).fails then Failed(operation) else None
  {
    hide InPhase, Frame, KeepsTarget;
    ghost var before := dir.disk;
    err := dir.Probe(operation);
    FrameKeepsPhase(dir.world, dir.me, before, dir.disk, phase);
    KeepsTargetTransitive(dir.world, start, before, dir.disk);
  }

  method WriteStep(dir: Directory, ghost start: Disk, temp: string, ino: nat, data: seq<byte>) returns (err: Err, written: nat)
    requires Holding(dir, start, Staged(temp, ino, Inode(dir.me, [], 0, false)))
    modifies dir
    ensures written <= |data|
    ensures Holding(dir, start, Staged(temp, ino, Inode(dir.me, data[..written], 1, false)))
    ensures dir.turn == old(dir.turn) + 1
    ensures dir.disk == Apply(dir.world, dir.Meets(old(dir.disk), old(dir.turn)), Fill(dir.me, ino, data[..written]))
    ensures err == if dir.oracle(old(dir.turn)).fails then Failed("write") else None
    ensures written == |data| <==> dir.oracle(old(dir.turn)).count >= |data|
  {
    hide MineAt, Prepared, KeepsTarget;
    ghost var before := dir.disk;
    err, written := dir.WriteData(temp, ino, data);
    KeepsTargetTransitive(dir.world, start, before, dir.disk);
  }

  method SyncStep(dir: Directory, ghost start: Disk, temp: string, ino: nat, ghost content: Inode) returns (err: Err)
    requires Holding(dir, start, Staged(temp, ino, content)) && !content.synced
    modifies dir
    ensures Holding(dir, start, Staged(temp, ino, content.(synced := err == None)))
    ensures dir.turn == old(dir.turn) + 1
    ensures err == None ==> dir.disk == Apply(dir.world, dir.Meets(old(dir.disk), old(dir.turn)), Flush(ino))
    ensures err == if dir.oracle(old(dir.turn)).fails then Failed("sync") else None
  {
    hide MineAt, Prepared, KeepsTarget;
    ghost var before := dir.disk;
    err := dir.SyncFile(temp, ino, content);
    KeepsTargetTransitive(dir.world, start, before, dir.disk);
  }

  method StatStep(dir: Directory, ghost start: Disk, temp: string, ino: nat, ghost content: Inode)
    returns (err: Err, snapshot: Snapshot, regular: bool)
    requires Holding(dir, start, Staged(temp, ino, content))
    modifies dir
    ensures dir.turn == old(dir.turn) + 1 && dir.disk == dir.Meets(old(dir.disk), old(dir.turn))
    ensures err == None <==> !dir.oracle(old(dir.turn)).fails && ino in dir.disk.inodes
    ensures err == None ==> regular == dir.oracle(old(dir.turn)).regular
    ensures err == None ==>
      snapshot.ino == ino && Holding(dir, start, Staged(temp, ino, content.(version := snapshot.version)))
    ensures err != None ==> err == Failed("stat") && Holding(dir, start, Staged(temp, ino, content))
  {
    hide MineAt, Prepared, KeepsTarget;
    ghost var before := dir.disk;
    err, snapshot, regular := dir.Stat(temp, ino, content);
    KeepsTargetTransitive(dir.world, start, before, dir.disk);
  }

  method SyncEntriesStep(dir: Directory, ghost start: Disk, ghost temps: set<string>, ghost ino: nat) returns (err: Err)
    requires Holding(dir, start, Linked(temps, ino))
    modifies dir
    ensures Holding(dir, start, Linked(temps, ino))
    ensures err == None ==> EntryDurable(dir.world, dir.disk, ino)
    ensures err == None && temps == {} ==> Durable(dir.world, dir.me, dir.disk)
    ensures dir.turn == old(dir.turn) + 1
    ensures old(dir.disk).tampered ==> dir.disk.tampered
    ensures err == if dir.oracle(old(dir.turn)).fails then Failed("sync directory") else None
  {
    hide MineAt, Frame, KeepsTarget, Durable;
    ghost var before := dir.disk;
    err := dir.Sync();
    FrameKeepsPhase(dir.world, dir.me, before, dir.disk, Linked(temps, ino));
    KeepsTargetTransitive(dir.world, start, before, dir.disk);
    if err == None && temps == {} {
      SyncedIsDurable(dir.world, dir.me, dir.disk, ino);
    }
  }

  /** Drop the temporary name, which is only done once the target's entry cannot be lost. */
  method RemoveStep(dir: Directory, ghost start: Disk, temp: string, ghost ino: nat) returns (err: Err)
    requires Holding(dir, start, Linked({temp}, ino))
    requires EntryDurable(dir.world, dir.disk, ino)
    modifies dir
    ensures Holding(dir, start, if err == None then Linked({}, ino) else Unlinking(temp, ino))
    ensures dir.turn == old(dir.turn) + 1
    ensures dir.disk.tampered ||
      (&& err == (if dir.oracle(old(dir.turn)).fails then Leaf(RemoveLeaf(dir, old(dir.turn))) else None)
       && (temp in dir.disk.live <==> dir.oracle(old(dir.turn)).fails && !dir.oracle(old(dir.turn)).effective))
  {
    hide MineAt, Untouched, KeepsTarget;
    ghost var before := dir.disk;
    err := dir.Remove(temp);
    UntouchedKeeps(dir.world, dir.me, before, dir.disk);
    KeepsTargetTransitive(dir.world, start, before, dir.disk);
  }

  /** One more look at the context or the anchor; a durable target stays durable. */
  method DurableStep(dir: Directory, ghost start: Disk, ghost ino: nat, ghost durable: bool, context: bool) returns (err: Err)
    requires Holding(dir, start, Linked({}, ino))
    requires durable ==> Durable(dir.world, dir.me, dir.disk)
    modifies dir
    ensures Holding(dir, start, Linked({}, ino))
    ensures durable ==> Durable(dir.world, dir.me, dir.disk)
    ensures old(dir.disk).tampered ==> dir.disk.tampered
    ensures dir.turn == old(dir.turn) + 1
    ensures err ==
      if context then (if dir.oracle(old(dir.turn)).canceled then Leaf(Canceled) else None)
      else if dir.oracle(old(dir.turn)).fails then Failed("anchor") else None
  {
    hide InPhase, Frame, KeepsTarget, Durable;
    ghost var before := dir.disk;
    if context {
      err := dir.ContextErr();
    } else {
      err := dir.Probe("anchor");
    }
    FrameKeepsPhase(dir.world, dir.me, before, dir.disk, Linked({}, ino));
    KeepsTargetTransitive(dir.world, start, before, dir.disk);
    if durable {
      if !dir.disk.tampered {
        dir.DiskIsSound();
      }
      DurableStable(dir.world, dir.me, before, dir.disk);
    }
  }

  /** With the temporary name gone the target is mine whatever else went wrong. */
  lemma SettledIsReported(dir: Directory, start: Disk, ino: nat, durable: bool, cause: Err)
    requires Holding(dir, start, Linked({}, ino))
    requires if durable then Durable(dir.world, dir.me, dir.disk) else Mentions(cause, SYNC_FAILED)
    ensures forall stage: Stage :: !stage.Unknown? ==> Reported(dir, start, true, Writer(stage, true, cause), Smooth)
    ensures durable ==> Reported(dir, start, true, None, Smooth)
  {
    if durable {
      SettledHasNoTrace(dir.world, dir.me, dir.disk, ino);
    }
  }

  /** Give up with the temporary file already closed. */
  method Abandon(dir: Directory, ghost start: Disk, temp: string, ino: nat, ghost content: Inode, stage: Stage, cause: Err)
    returns (err: Err)
    requires Holding(dir, start, Staged(temp, ino, content))
    requires Silent(cause) && !stage.Unknown?
    modifies dir
    ensures Reported(dir, start, false, err, Smooth)
    ensures dir.disk.tampered || Tells(err, dir.turn, Cleaned(dir, stage, Leaves(cause), true, false, old(dir.turn)))
  {
    hide MineAt, Untouched, Frame, Leaves, Prepared, KeepsTarget, Durable, Tells, Cleaned;
    ghost var before := dir.disk;
    PreparedIsSealed(dir.world, dir.me, dir.disk, temp, ino, content);
    var result;
    result, err := CleanupFailure(dir, temp, false, false, stage, cause);
    UntouchedKeeps(dir.world, dir.me, before, dir.disk);
    KeepsTargetTransitive(dir.world, start, before, dir.disk);
  }

  /** Give up while the temporary file is still open. */
  method FailBeforeInstall(dir: Directory, ghost start: Disk, temp: string, ino: nat, ghost content: Inode, stage: Stage, cause: Err)
    returns (err: Err)
    requires Holding(dir, start, Staged(temp, ino, content))
    requires Silent(cause) && !stage.Unknown?
    modifies dir
    ensures Reported(dir, start, false, err, Smooth)
    ensures dir.disk.tampered || Tells(err, dir.turn, GivenUp(dir, stage, Leaves(cause), old(dir.turn)))
  {
    hide Holding, Reported, Leaves, Tells, Cleaned;
    BasicLeaves();
    var closeErr := ProbeStep(dir, start, Staged(temp, ino, content), "close");
    if closeErr != None {
      JoinLeaves(cause, closeErr);
      err := Abandon(dir, start, temp, ino, content, CloseFile, JoinErrors(cause, closeErr));
    } else {
      err := Abandon(dir, start, temp, ino, content, stage, cause);
    }
  }

  /** Mode and contents of the temporary file. */
  method FillTemporary(dir: Directory, ghost start: Disk, temp: string, ino: nat, data: seq<byte>)
    returns (ready: bool, err: Err)
    requires Holding(dir, start, Staged(temp, ino, Inode(dir.me, [], 0, false)))
    modifies dir
    ensures ready ==> Holding(dir, start, Staged(temp, ino, Inode(dir.me, data, 1, false)))
    ensures !ready ==> Reported(dir, start, false, err, Smooth)
    ensures ready <==> Fills(dir, old(dir.turn), data)
    ensures ready ==> dir.turn == old(dir.turn) + 4 && dir.disk == Filled(dir, old(dir.disk), old(dir.turn), ino, data)
    ensures !ready ==> dir.disk.tampered || Tells(err, dir.turn, FillEnding(dir, old(dir.disk), old(dir.turn), ino, data))
    ensures ready ==>
      FillEnding(dir, old(dir.disk), old(dir.turn), ino, data) == SealEnding(dir, dir.disk, dir.turn, ino)
  {
    hide Holding, Leaves, Reported, Apply, AfterOthers, Tells, GivenUp, SealEnding;
    BasicLeaves();
    ready := false;
    ghost var content := Inode(dir.me, [], 0, false);
    err := ContextStep(dir, start, Staged(temp, ino, content));
    if err != None {
      err := FailBeforeInstall(dir, start, temp, ino, content, SetMode, err);
      return;
    }
    err := ProbeStep(dir, start, Staged(temp, ino, content), "chmod");
    if err != None {
      err := FailBeforeInstall(dir, start, temp, ino, content, SetMode, err);
      return;
    }
    err := ContextStep(dir, start, Staged(temp, ino, content));
    if err != None {
      err := FailBeforeInstall(dir, start, temp, ino, content, Write, err);
      return;
    }
    var written;
    err, written := WriteStep(dir, start, temp, ino, data);
    content := Inode(dir.me, data[..written], 1, false);
    if err != None {
      err := FailBeforeInstall(dir, start, temp, ino, content, Write, err);
      return;
    }
    if written != |data| {
      err := FailBeforeInstall(dir, start, temp, ino, content, ShortWrite, Failed("short write"));
      return;
    }
    assert data[..written] == data;
    ready := true;
  }

  /** Sync, inspect and close a fully written temporary file, and check the way is still clear. */
  method SealTemporary(dir: Directory, ghost start: Disk, temp: string, ino: nat, data: seq<byte>)
    returns (ready: bool, expected: Snapshot, err: Err)
    requires Holding(dir, start, Staged(temp, ino, Inode(dir.me, data, 1, false)))
    modifies dir
    ensures ready ==>
      expected.ino == ino && Holding(dir, start, Staged(temp, ino, Inode(dir.me, data, expected.version, true)))
    ensures !ready ==> Reported(dir, start, false, err, Smooth)
    ensures ready <==> Seals(dir, old(dir.disk), old(dir.turn), ino)
    ensures ready ==> dir.turn == old(dir.turn) + 6 && dir.disk == SealedDisk(dir, old(dir.disk), old(dir.turn), ino)
    ensures !ready ==> dir.disk.tampered || Tells(err, dir.turn, SealEnding(dir, old(dir.disk), old(dir.turn), ino))
    ensures ready ==>
      SealEnding(dir, old(dir.disk), old(dir.turn), ino) == InstallEnding(dir, dir.disk, dir.turn)
  {
    hide Holding, Leaves, Reported, Apply, AfterOthers, Closes, Closed, Tells, GivenUp, InstallEnding;
    hide CloseEnding;
    BasicLeaves();
    ready, expected := false, Snapshot(ino, 0);
    ghost var content := Inode(dir.me, data, 1, false);
    err := ContextStep(dir, start, Staged(temp, ino, content));
    if err != None {
      err := FailBeforeInstall(dir, start, temp, ino, content, SyncFile, err);
      return;
    }
    err := SyncStep(dir, start, temp, ino, content);
    if err != None {
      err := FailBeforeInstall(dir, start, temp, ino, content, SyncFile, err);
      return;
    }
    content := content.(synced := true);
    var regular;
    err, expected, regular := StatStep(dir, start, temp, ino, content);
    if err != None {
      err := FailBeforeInstall(dir, start, temp, ino, content, Stage.Install, err);
      return;
    }
    content := content.(version := expected.version);
    if !regular {
      err := FailBeforeInstall(dir, start, temp, ino, content, Stage.Install, Wrap(Leaf(UnsafePath)));
      return;
    }
    ready, err := CloseTemporary(dir, start, temp, ino, content);
  }

  /** Close the file, and look at the context and the anchor once more. */
  method CloseTemporary(dir: Directory, ghost start: Disk, temp: string, ino: nat, ghost content: Inode)
    returns (ready: bool, err: Err)
    requires Holding(dir, start, Staged(temp, ino, content))
    modifies dir
    ensures ready ==> Holding(dir, start, Staged(temp, ino, content))
    ensures !ready ==> Reported(dir, start, false, err, Smooth)
    ensures ready <==> Closes(dir, old(dir.turn))
    ensures ready ==> dir.turn == old(dir.turn) + 3 && dir.disk == Closed(dir, old(dir.disk), old(dir.turn))
    ensures !ready ==> dir.disk.tampered || Tells(err, dir.turn, CloseEnding(dir, old(dir.disk), old(dir.turn)))
    ensures ready ==>
      CloseEnding(dir, old(dir.disk), old(dir.turn)) == InstallEnding(dir, dir.disk, dir.turn)
  {
    hide Holding, Leaves, Reported, AfterOthers, Tells, Cleaned, InstallEnding;
    BasicLeaves();
    ready := false;
    err := ProbeStep(dir, start, Staged(temp, ino, content), "close");
    if err != None {
      err := Abandon(dir, start, temp, ino, content, CloseFile, err);
      return;
    }
    err := ContextStep(dir, start, Staged(temp, ino, content));
    if err != None {
      err := Abandon(dir, start, temp, ino, content, Stage.Install, err);
      return;
    }
    err := ProbeStep(dir, start, Staged(temp, ino, content), "anchor");
    if err != None {
      UnsafeLeaves("anchor");
      err := Abandon(dir, start, temp, ino, content, Stage.Install, Both(UnsafePath, err));
      return;
    }
    ready := true;
  }

  /** Clean up after a failed or interrupted publication and report it. */
  method Interrupt(dir: Directory, ghost start: Disk, temp: string, ghost ino: nat, removeAlreadyAttempted: bool, stage: Stage,
                   installErr: Err, stepErr: Err)
    returns (err: Err)
    requires Holding(dir, start, Linked({temp}, ino)) || Holding(dir, start, Unlinking(temp, ino))
    requires !stage.Unknown?
    modifies dir
    ensures Reported(dir, start, true, err, Smooth) && err != None
    ensures old(dir.disk).tampered ==> dir.disk.tampered
    ensures dir.disk.tampered ||
      Tells(err, dir.turn, Cleaned(dir, stage, Leaves(installErr) + Leaves(stepErr), temp in old(dir.disk).live, removeAlreadyAttempted,
                                   old(dir.turn)))
    ensures old(Holding(dir, start, Linked({temp}, ino))) ==> dir.disk.tampered || temp in old(dir.disk).live
  {
    hide MineAt, Untouched, Leaves, KeepsTarget, Durable, Tells, Cleaned;
    ghost var before := dir.disk;
    JoinLeaves(installErr, stepErr);
    var result;
    result, err := CleanupFailure(dir, temp, true, removeAlreadyAttempted, stage, JoinErrors(installErr, stepErr));
    UntouchedKeeps(dir.world, dir.me, before, dir.disk);
    KeepsTargetTransitive(dir.world, start, before, dir.disk);
  }

  /** The only exists sentinel in an install's error is the system's. */
  lemma ConflictShows(dir: Directory, d: Disk, t: nat, err: Err)
    requires Leaves(err) == InstallLeaves(dir, d, t)
    ensures IsExist(err) <==> SystemExists in InstallLeaves(dir, d, t)
  {
    hide Leaves;
    BasicLeaves();
  }

  /** Link the sealed file to the target, or report why that was not possible. */
  method InstallTemporary(dir: Directory, ghost start: Disk, temp: string, expected: Snapshot, ghost data: seq<byte>)
    returns (installed: bool, installErr: Err, err: Err)
    requires Holding(dir, start, Staged(temp, expected.ino, Inode(dir.me, data, expected.version, true)))
    requires data == dir.world.payload(dir.me)
    modifies dir
    ensures installed ==> Holding(dir, start, Linked({temp}, expected.ino))
    ensures !installed ==> Reported(dir, start, false, err, LinkMishap(dir, old(dir.disk), old(dir.turn))) && err != None
    ensures installed ==> dir.disk.tampered || LinkMishap(dir, old(dir.disk), old(dir.turn)) == Smooth
    ensures !installed ==> dir.disk.tampered || Tells(err, dir.turn, InstallEnding(dir, old(dir.disk), old(dir.turn)))
    ensures installErr == None <==> Leaves(installErr) == {}
    ensures installed ==>
      dir.disk.tampered
      || InstallEnding(dir, old(dir.disk), old(dir.turn)) == SettleEnding(dir, Leaves(installErr), dir.turn)
  {
    hide MineAt, Untouched, Leaves, Prepared, KeepsTarget, Durable, Tells, Cleaned, SettleEnding, InstallLeaves;
    BasicLeaves();
    err := None;
    ghost var before := dir.disk;
    installed, installErr := Install(dir, temp, expected, Inode(dir.me, data, expected.version, true));
    KeepsTargetTransitive(dir.world, start, before, dir.disk);
    if !installed {
      var cause := installErr;
      if !dir.disk.tampered {
        ConflictShows(dir, before, old(dir.turn), cause);
      }
      if IsExist(cause) {
        JoinLeaves(Leaf(ImmutableExists), cause);
        cause := JoinErrors(Leaf(ImmutableExists), cause);
      }
      if !dir.disk.tampered {
        assert temp in {temp};
        assert Leaves(cause) == Leaves(installErr) + if SystemExists in Leaves(installErr) then {ImmutableExists} else {};
      }
      before := dir.disk;
      var result;
      result, err := CleanupFailure(dir, temp, false, false, Stage.Install, cause);
      UntouchedKeeps(dir.world, dir.me, before, dir.disk);
      KeepsTargetTransitive(dir.world, start, before, dir.disk);
    }
  }

  /** Make the link durable, drop the temporary name, and make that durable too. */
  method Settle(dir: Directory, ghost start: Disk, temp: string, ghost ino: nat, installErr: Err) returns (err: Err)
    requires Holding(dir, start, Linked({temp}, ino))
    requires installErr == None <==> Leaves(installErr) == {}
    modifies dir
    ensures Reported(dir, start, true, err, Smooth)
    ensures dir.disk.tampered || Tells(err, dir.turn, SettleEnding(dir, Leaves(installErr), old(dir.turn)))
  {
    hide Leaves, Reported, Holding, Durable, Cleaned, Tells, CompleteEnding, RemoveLeaf;
    BasicLeaves();
    UnsafeLeaves("anchor");
    err := ProbeStep(dir, start, Linked({temp}, ino), "anchor");
    if err != None {
      err := Interrupt(dir, start, temp, ino, false, SyncInstall, installErr, Both(UnsafePath, err));
      return;
    }
    err := ContextStep(dir, start, Linked({temp}, ino));
    if err != None {
      err := Interrupt(dir, start, temp, ino, false, SyncInstall, installErr, err);
      return;
    }
    err := SyncEntriesStep(dir, start, {temp}, ino);
    if err != None {
      err := Interrupt(dir, start, temp, ino, false, SyncInstall, installErr, err);
      return;
    }
    err := RemoveStep(dir, start, temp, ino);
    if err != None {
      assert dir.disk.tampered || Leaves(err) == {RemoveLeaf(dir, dir.turn - 1)};
      err := Interrupt(dir, start, temp, ino, true, RemoveTemp, installErr, err);
      return;
    }
    err := SyncCompletion(dir, start, ino, installErr);
  }

  method JoinCompletion(syncErr: Err, contextErr: Err, anchorErr: Err) returns (err: Err)
    requires syncErr == None || syncErr == Failed("sync directory")
    requires contextErr == None || contextErr == Leaf(Canceled)
    requires anchorErr == None || anchorErr == Failed("anchor")
    ensures err == None <==> syncErr == None && contextErr == None && anchorErr == None
    ensures Leaves(err) ==
      (if contextErr != None then {Canceled} else {})
      + (if syncErr != None then {SYNC_FAILED} else {})
      + (if anchorErr != None then {UnsafePath, Trouble("anchor")} else {})
  {
    hide Leaves;
    BasicLeaves();
    UnsafeLeaves("anchor");
    err := None;
    if syncErr != None {
      JoinLeaves(err, syncErr);
      err := JoinErrors(err, syncErr);
    }
    if contextErr != None {
      JoinLeaves(err, contextErr);
      err := JoinErrors(err, contextErr);
    }
    if anchorErr != None {
      JoinLeaves(err, Both(UnsafePath, anchorErr));
      err := JoinErrors(err, Both(UnsafePath, anchorErr));
    }
  }

  lemma CompletionTells(dir: Directory, installErr: Err, contextErr: Err, syncErr: Err, anchorErr: Err, completionErr: Err, t: nat)
    requires contextErr == if dir.oracle(t).canceled || dir.oracle(t + 2).canceled then Leaf(Canceled) else None
    requires syncErr == if dir.oracle(t + 1).fails then Failed("sync directory") else None
    requires anchorErr == if dir.oracle(t + 3).fails then Failed("anchor") else None
    requires completionErr == None <==> syncErr == None && contextErr == None && anchorErr == None
    requires Leaves(completionErr) ==
      (if contextErr != None then {Canceled} else {})
      + (if syncErr != None then {SYNC_FAILED} else {})
      + (if anchorErr != None then {UnsafePath, Trouble("anchor")} else {})
    requires installErr == None <==> Leaves(installErr) == {}
    ensures Tells(if completionErr != None then Writer(SyncCleanup, true, JoinErrors(installErr, completionErr))
                  else if installErr != None then Writer(Stage.Install, true, installErr) else None,
                  t + 4, CompleteEnding(dir, Leaves(installErr), t))
  {
    hide Leaves;
    BasicLeaves();
    JoinLeaves(installErr, completionErr);
    assert Leaves(completionErr) == Completion(dir, t);
    assert completionErr == None <==> Completion(dir, t) == {};
  }

  /** Sync the directory without the temporary name, and look at the context and the anchor once more. */
  method SyncCompletion(dir: Directory, ghost start: Disk, ghost ino: nat, installErr: Err) returns (err: Err)
    requires Holding(dir, start, Linked({}, ino))
    requires installErr == None <==> Leaves(installErr) == {}
    modifies dir
    ensures Reported(dir, start, true, err, Smooth)
    ensures old(dir.disk).tampered ==> dir.disk.tampered
    ensures Tells(err, dir.turn, CompleteEnding(dir, Leaves(installErr), old(dir.turn)))
  {
    hide Leaves, Reported, Holding, Durable, Tells, CompleteEnding, Completion;
    BasicLeaves();
    var contextErr := ContextStep(dir, start, Linked({}, ino));
    var syncErr := SyncEntriesStep(dir, start, {}, ino);
    var laterErr := DurableStep(dir, start, ino, syncErr == None, true);
    if contextErr == None {
      contextErr := laterErr;
    }
    var anchorErr := DurableStep(dir, start, ino, syncErr == None, false);
    var completionErr := JoinCompletion(syncErr, contextErr, anchorErr);
    CompletionTells(dir, installErr, contextErr, syncErr, anchorErr, completionErr, old(dir.turn));
    JoinLeaves(installErr, completionErr);
    SettledIsReported(dir, start, ino, syncErr == None, JoinErrors(installErr, completionErr));
    if syncErr == None {
      SettledIsReported(dir, start, ino, true, installErr);
    }
    if completionErr != None {
      return Writer(SyncCleanup, true, JoinErrors(installErr, completionErr));
    }
    if installErr != None {
      return Writer(Stage.Install, true, installErr);
    }
    return None;
  }

  /** Nothing of this writer is in the directory yet, and its random names are its own. */
  ghost predicate Ready(dir: Directory, start: Disk)
    reads dir
  {
    && dir.Valid()
    && NoneMine(dir.disk, dir.me) && MineAt(dir.world, dir.me, dir.disk, {})
    && KeepsTarget(dir.world, start, dir.disk)
    && forall k :: dir.world.author(TempPrefix(dir.world.target) + dir.oracle(k).entropy) == dir.me
  }

  method ReadyProbe(dir: Directory, ghost start: Disk) returns (err: Err)
    requires Ready(dir, start)
    modifies dir
    ensures Ready(dir, start)
    ensures dir.turn == old(dir.turn) + 1 && dir.disk == dir.Meets(old(dir.disk), old(dir.turn))
    ensures err == if dir.oracle(old(dir.turn)).fails then Failed("anchor") else None
  {
    hide MineAt, KeepsTarget, Frame;
    ghost var before := dir.disk;
    err := dir.Probe("anchor");
    FrameKeeps(dir.world, dir.me, before, dir.disk, {}, "", 0, Inode(0, [], 0, false));
    KeepsTargetTransitive(dir.world, start, before, dir.disk);
  }

  method ReadyLook(dir: Directory, ghost start: Disk) returns (look: Look)
    requires Ready(dir, start)
    modifies dir
    ensures Ready(dir, start)
    ensures dir.turn == old(dir.turn) + 1 && dir.disk == dir.Meets(old(dir.disk), old(dir.turn))
    ensures look.Missing? <==> dir.world.target !in dir.disk.live && !dir.oracle(old(dir.turn)).fails
    ensures look.Found? ==> TargetBound(dir)
    ensures dir.disk.tampered || (look.Broken? <==> dir.oracle(old(dir.turn)).fails)
    ensures look.Missing? ==> dir.disk.tampered || dir.world.target !in start.live
  {
    hide MineAt, Frame, KeepsTarget;
    ghost var before := dir.disk;
    look := dir.Lstat(dir.world.target);
    FrameKeeps(dir.world, dir.me, before, dir.disk, {}, "", 0, Inode(0, [], 0, false));
    KeepsTargetTransitive(dir.world, start, before, dir.disk);
    BoundStays(dir.world, start, dir.disk);
  }

  /** Failing before there is a temporary file. */
  lemma EarlyFailure(dir: Directory, start: Disk, stage: Stage, cause: Err)
    requires Ready(dir, start) && !stage.Unknown?
    requires Silent(cause) || TargetBound(dir)
    ensures Reported(dir, start, false, Writer(stage, false, cause), Smooth)
  {
    BasicLeaves();
  }

  /** The write once the parent directory is open. */
  method WriteAnchored(dir: Directory, ghost start: Disk, data: seq<byte>) returns (installed: bool, err: Err)
    requires Ready(dir, start) && data == dir.world.payload(dir.me)
    modifies dir
    ensures Reported(dir, start, installed, err, AnchoredMishap(dir, old(dir.disk), old(dir.turn), data))
    ensures dir.world.target in start.live ==> dir.disk.tampered || !installed
    ensures dir.disk.tampered || Tells(err, dir.turn, AnchoredEnding(dir, old(dir.disk), old(dir.turn), data))
    ensures Looks(dir, old(dir.turn)) && dir.world.target in AtLook(dir, old(dir.disk), old(dir.turn)).live ==>
      dir.disk.tampered
      || (err == Writer(ValidatePath, false, Leaf(ImmutableExists)) && dir.turn == old(dir.turn) + 2)
  {
    hide Leaves, Reported, Holding, Ready, CreateMishap, CreateEnding, AfterOthers;
    BasicLeaves();
    UnsafeLeaves("anchor");
    UnsafeLeaves("lstat");
    err := ReadyProbe(dir, start);
    if err != None {
      EarlyFailure(dir, start, ValidatePath, Both(UnsafePath, err));
      return false, Writer(ValidatePath, false, Both(UnsafePath, err));
    }
    var look := ReadyLook(dir, start);
    if look.Found? {
      EarlyFailure(dir, start, ValidatePath, Leaf(ImmutableExists));
      return false, Writer(ValidatePath, false, Leaf(ImmutableExists));
    }
    if look.Broken? {
      EarlyFailure(dir, start, ValidatePath, Both(UnsafePath, Failed("lstat")));
      return false, Writer(ValidatePath, false, Both(UnsafePath, Failed("lstat")));
    }
    ghost var clear, t := dir.disk, dir.turn;
    ReadyFrom(dir, start);
    installed, err := WriteThroughTemporary(dir, clear, data);
    ReportedSince(dir, start, clear, installed, err, CreateMishap(dir, clear, t, data));
  }

  lemma ReadyFrom(dir: Directory, start: Disk)
    requires Ready(dir, start)
    ensures Ready(dir, dir.disk) && KeepsTarget(dir.world, start, dir.disk)
  {
  }

  lemma ReportedSince(dir: Directory, start: Disk, later: Disk, installed: bool, err: Err, mishap: Mishap)
    requires Reported(dir, later, installed, err, mishap) && KeepsTarget(dir.world, start, later)
    ensures Reported(dir, start, installed, err, mishap)
    ensures later.tampered ==> dir.disk.tampered
  {
    KeepsTargetTransitive(dir.world, start, later, dir.disk);
  }

  /** Create, fill, seal, link, settle. */
  method WriteThroughTemporary(dir: Directory, ghost start: Disk, data: seq<byte>) returns (installed: bool, err: Err)
    requires Ready(dir, start) && data == dir.world.payload(dir.me)
    modifies dir
    ensures Reported(dir, start, installed, err, CreateMishap(dir, old(dir.disk), old(dir.turn), data))
    ensures dir.disk.tampered || Tells(err, dir.turn, CreateEnding(dir, old(dir.disk), old(dir.turn), data))
  {
    hide Leaves, Reported, Holding, Ready, Filled, Fills, Seals, SealedDisk, LinkMishap;
    hide FillEnding, SealEnding, InstallEnding, SettleEnding, Tells;
    var temp, ino, ready, expected, installErr;
    err, temp, ino := CreateStep(dir, start);
    if err != None {
      CreateTells(err, dir.turn);
      return false, err;
    }
    ready, err := FillTemporary(dir, start, temp, ino, data);
    if !ready {
      return false, err;
    }
    ready, expected, err := SealTemporary(dir, start, temp, ino, data);
    if !ready {
      return false, err;
    }
    ghost var sealed_, t := dir.disk, dir.turn;
    installed, installErr, err := InstallTemporary(dir, start, temp, expected, data);
    if !installed {
      return false, err;
    }
    ghost var linked := dir.disk;
    HoldingFrom(dir, start, Linked({temp}, expected.ino));
    err := Settle(dir, linked, temp, expected.ino, installErr);
    ReportedAnyway(dir, start, linked, err, LinkMishap(dir, sealed_, t));
    return true, err;
  }

  lemma CreateTells(err: Err, turn: nat)
    requires err == Writer(CreateTemp, false, Failed("create"))
    ensures Tells(err, turn, Failure(CreateTemp, {Trouble("create")}, turn))
  {
  }

  lemma HoldingFrom(dir: Directory, start: Disk, phase: Phase)
    requires Holding(dir, start, phase)
    ensures Holding(dir, dir.disk, phase) && KeepsTarget(dir.world, start, dir.disk)
  {
    hide InPhase;
  }

  /** Once the target is linked, nothing goes unnoticed; on a tampered disk nothing is said about that. */
  lemma ReportedAnyway(dir: Directory, start: Disk, linked: Disk, err: Err, mishap: Mishap)
    requires Reported(dir, linked, true, err, Smooth) && KeepsTarget(dir.world, start, linked)
    requires !mishap.Stranded? && (linked.tampered || mishap == Smooth)
    ensures Reported(dir, start, true, err, mishap)
    ensures linked.tampered ==> dir.disk.tampered
  {
    hide Durable, Accounted, Silent, NoTrace;
    KeepsTargetTransitive(dir.world, start, linked, dir.disk);
  }

  /** A failed create is reported without a cleanup, so a file that it made all the same stays. */
  method CreateStep(dir: Directory, ghost start: Disk) returns (err: Err, temp: string, ino: nat)
    requires Ready(dir, start)
    modifies dir
    ensures err == None ==> Holding(dir, start, Staged(temp, ino, Inode(dir.me, [], 0, false)))
    ensures
      var prefix := TempPrefix(dir.world.target);
      var last := dir.LastDraw(prefix, old(dir.disk), old(dir.turn), DRAWS);
      && (err == None <==> dir.Creates(prefix, last))
      && (err == None ==>
            && temp == prefix + dir.oracle(last.turn).entropy && ino == dir.oracle(last.turn).count
            && dir.turn == last.turn + 1 && dir.disk == Apply(dir.world, last.disk, Create(dir.me, temp, ino)))
      && (err != None ==> err == Writer(CreateTemp, false, Failed("create")) && dir.turn == last.turn + 1)
      && (err != None ==> Reported(dir, start, false, err, if dir.Strands(prefix, last) then Stranded else Smooth))
  {
    hide Leaves, KeepsTarget, Prepared, MineAt, NoneMine, Reported;
    ghost var before, prefix := dir.disk, TempPrefix(dir.world.target);
    ghost var last := dir.LastDraw(prefix, dir.disk, dir.turn, DRAWS);
    err, temp, ino := dir.CreateTemp(TempPrefix(dir.world.target));
    KeepsTargetTransitive(dir.world, start, before, dir.disk);
    if err != None {
      if dir.Strands(prefix, last) {
        StrandedIsLeft(dir, temp, ino);
      } else {
        NoneIsNoTarget(dir.world, dir.me, dir.disk);
      }
      CreateFailure(dir, start, if dir.Strands(prefix, last) then Stranded else Smooth);
      err := Writer(CreateTemp, false, err);
    }
  }

  lemma CreateFailure(dir: Directory, start: Disk, mishap: Mishap)
    requires dir.Valid() && KeepsTarget(dir.world, start, dir.disk)
    requires !mishap.Slipped?
    requires dir.disk.tampered || !TargetIsMine(dir.world, dir.me, dir.disk)
    requires dir.disk.tampered || (NoLeftover(dir) <==> mishap.Smooth?)
    requires mishap.Stranded? || NoTrace(dir.world, dir.me, dir.disk)
    ensures Reported(dir, start, false, Writer(CreateTemp, false, Failed("create")), mishap)
  {
    hide MineAt, KeepsTarget, Durable;
    BasicLeaves();
  }

  lemma StrandedIsLeft(dir: Directory, temp: string, ino: nat)
    requires MineAt(dir.world, dir.me, dir.disk, {temp})
    requires Prepared(dir.world, dir.me, dir.disk, temp, ino, Inode(dir.me, [], 0, false))
    ensures dir.disk.tampered || (!NoLeftover(dir) && !TargetIsMine(dir.world, dir.me, dir.disk))
  {
  }

  lemma NoneIsNoTarget(world: World, me: nat, d: Disk)
    requires NoneMine(d, me)
    ensures d.tampered || !TargetIsMine(world, me, d)
    ensures NoTrace(world, me, d)
  {
  }

  /**
   The whole write. Whatever fails and whoever interferes, the result agrees with the error,
   a published target is never replaced and success means durability. A leftover temporary
   file is named in the error, and an installation is noticed, except in exactly the runs that
   `WriteMishap` tells from the starting disk and what the oracle has in store. From the same,
   `WriteEnding` tells where the write stops and what its error mentions, and `Unhindered` when
   it succeeds; a target found taken is reported as just that.
   */
  method WriteNoReplaceWithParent(dir: Directory, preflight: Preflight, data: seq<byte>) returns (installed: bool, err: Err)
    requires Ready(dir, dir.disk) && data == dir.world.payload(dir.me)
    modifies dir
    ensures Reported(dir, old(dir.disk), installed, err, WriteMishap(dir, preflight, old(dir.disk), old(dir.turn), data))
    ensures dir.world.target in old(dir.disk.live) ==> dir.disk.tampered || !installed
    ensures dir.disk.tampered || Tells(err, dir.turn, WriteEnding(dir, preflight, old(dir.disk), old(dir.turn), data))
    ensures dir.disk.tampered || (err == None <==> Unhindered(dir, preflight, old(dir.disk), old(dir.turn), data))
    ensures Conflicts(dir, preflight, old(dir.disk), old(dir.turn)) ==>
      dir.disk.tampered
      || err == Writer(ValidatePath, false,
                       if dir.oracle(old(dir.turn) + 3).fails
                       then JoinErrors(Leaf(ImmutableExists), Failed("close parent")) else Leaf(ImmutableExists))
  {
    hide Leaves, Reported, Holding, Ready, AnchoredMishap, AnchoredEnding, AfterOthers, Unhindered;
    BasicLeaves();
    ghost var start := dir.disk;
    SucceedsExactly(dir, preflight, dir.disk, dir.turn, data);
    if preflight == ContextMissing {
      EarlyFailure(dir, start, ValidatePath, Wrap(Leaf(InvalidWrite)));
      return false, Writer(ValidatePath, false, Wrap(Leaf(InvalidWrite)));
    }
    err := ReadyContext(dir, start);
    if err != None {
      EarlyFailure(dir, start, ValidatePath, err);
      return false, Writer(ValidatePath, false, err);
    }
    if preflight == DestinationUnsafe || preflight == ParentChanged {
      EarlyFailure(dir, start, ValidatePath, Wrap(Leaf(UnsafePath)));
      return false, Writer(ValidatePath, false, Wrap(Leaf(UnsafePath)));
    }
    if preflight == ParentUnopened {
      JoinLeaves(Leaf(UnsafePath), Failed("open"));
      EarlyFailure(dir, start, ValidatePath, JoinErrors(Leaf(UnsafePath), Failed("open")));
      return false, Writer(ValidatePath, false, JoinErrors(Leaf(UnsafePath), Failed("open")));
    }
    ghost var mishap, ending := AnchoredMishap(dir, dir.disk, dir.turn, data), AnchoredEnding(dir, dir.disk, dir.turn, data);
    installed, err := WriteAnchored(dir, start, data);
    err := CloseParent(dir, start, installed, err, mishap, ending);
  }

  /** The deferred close of the parent directory, which may add to the error or become it. */
  method CloseParent(dir: Directory, ghost start: Disk, installed: bool, writeErr: Err, ghost mishap: Mishap,
                     ghost ending: Ending)
    returns (err: Err)
    requires Reported(dir, start, installed, writeErr, mishap)
    modifies dir
    ensures Reported(dir, start, installed, err, mishap)
    ensures old(dir.disk).tampered ==> dir.disk.tampered
    ensures Tells(writeErr, old(dir.turn), ending) ==> Tells(err, dir.turn, ParentClosed(dir, ending))
    ensures writeErr != None ==> writeErr.Writer?
    ensures writeErr != None ==>
      err == if dir.oracle(old(dir.turn)).fails
             then writeErr.(cause := JoinErrors(writeErr.cause, Failed("close parent"))) else writeErr
  {
    hide Leaves, Reported;
    BasicLeaves();
    if writeErr.Writer? {
      JoinLeaves(writeErr.cause, Failed("close parent"));
    }
    var closeErr := CloseStep(dir, start, installed, writeErr, mishap);
    CloseReported(dir, start, installed, writeErr, mishap);
    if closeErr == None {
      return writeErr;
    }
    if writeErr == None {
      return Writer(CloseDirectory, installed, closeErr);
    }
    return writeErr.(cause := JoinErrors(writeErr.cause, closeErr));
  }

  method CloseStep(dir: Directory, ghost start: Disk, installed: bool, ghost err: Err, ghost mishap: Mishap) returns (closeErr: Err)
    requires Reported(dir, start, installed, err, mishap)
    modifies dir
    ensures Reported(dir, start, installed, err, mishap)
    ensures old(dir.disk).tampered ==> dir.disk.tampered
    ensures dir.turn == old(dir.turn) + 1
    ensures closeErr == if dir.oracle(old(dir.turn)).fails then Failed("close parent") else None
  {
    hide MineAt, KeepsTarget, Durable, Frame, Untouched, Silent, Mentions, NoTrace;
    ghost var before := dir.disk;
    closeErr := dir.Probe("close parent");
    FrameKeeps(dir.world, dir.me, before, dir.disk, {}, "", 0, Inode(0, [], 0, false));
    LeftoverStays(dir.world, dir.me, before, dir.disk);
    if NoTrace(dir.world, dir.me, before) {
      NoTraceStays(dir.world, dir.me, before, dir.disk);
    }
    UntouchedKeeps(dir.world, dir.me, before, dir.disk);
    KeepsTargetTransitive(dir.world, start, before, dir.disk);
    if err == None {
      if !dir.disk.tampered {
        dir.DiskIsSound();
      }
      DurableStable(dir.world, dir.me, before, dir.disk);
    }
  }

  /** Adding a failed close to the error keeps what the error reports. */
  lemma CloseReported(dir: Directory, start: Disk, installed: bool, err: Err, mishap: Mishap)
    requires Reported(dir, start, installed, err, mishap)
    ensures err == None ==> Reported(dir, start, installed, Writer(CloseDirectory, installed, Failed("close parent")), mishap)
    ensures err != None ==> err.Writer?
    ensures err != None ==>
      Reported(dir, start, installed, err.(cause := JoinErrors(err.cause, Failed("close parent"))), mishap)
  {
    hide MineAt, KeepsTarget, Durable, Leaves;
    BasicLeaves();
    if err != None {
      JoinLeaves(err.cause, Failed("close parent"));
    }
  }

  /** Others do not clear away my files. */
  lemma LeftoverStays(world: World, me: nat, d: Disk, e: Disk)
    requires Frame(world, me, d, e)
    ensures !e.tampered && MineAt(world, me, e, {}) ==> MineAt(world, me, d, {})
  {
  }

  method ReadyContext(dir: Directory, ghost start: Disk) returns (err: Err)
    requires Ready(dir, start)
    modifies dir
    ensures Ready(dir, start)
    ensures dir.turn == old(dir.turn) + 1 && dir.disk == dir.Meets(old(dir.disk), old(dir.turn))
    ensures err == if dir.oracle(old(dir.turn)).canceled then Leaf(Canceled) else None
  {
    hide MineAt, KeepsTarget, Frame;
    ghost var before := dir.disk;
    err := dir.ContextErr();
    FrameKeeps(dir.world, dir.me, before, dir.disk, {}, "", 0, Inode(0, [], 0, false));
    KeepsTargetTransitive(dir.world, start, before, dir.disk);
  }
}
