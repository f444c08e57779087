/** Publishing and classifying together: what a certified conflict tells the caller. */
module PublishSnapshot {
  import opened GoNumbers
  import opened DurableDisk
  import opened CrashRecovery
  import opened ErrorWalk
  import opened ErrorClass
  import opened ErrorTree
  import opened AnchoredDirectory
  import opened ImmutableWrite
  import opened WriteForecast
  import opened SnapshotConflict

  /** A benign tree mentions nothing but the three exists sentinels, and does mention one. */
  lemma BenignLeaves(installed: bool, err: Err)
    requires WithinBudget(INSPECTION_LIMITS, Unwrap, err)
    requires AllBenign(Unwrap, installed, err)
    ensures forall leaf :: Mentions(err, leaf) ==> leaf.ImmutableExists? || leaf.FileSystemExists? || leaf.SystemExists?
    ensures !Silent(err)
  {
    forall leaf | Mentions(err, leaf)
      ensures leaf.ImmutableExists? || leaf.FileSystemExists? || leaf.SystemExists?
    {
      MentionedIsReached(err, leaf);
      var path :| Reaches(Unwrap, err, path, Leaf(leaf));
      assert Benign(Unwrap, installed, Leaf(leaf));
    }
    var levels := INSPECTION_LIMITS.depth + 1;
    SentinelReached(installed, err, levels);
  }

  lemma SentinelReached(installed: bool, err: Err, levels: nat)
    requires !Deep(Unwrap, err, levels) && AllBenign(Unwrap, installed, err)
    ensures !Silent(err)
  {
    BenignExists(Unwrap, installed, err, levels);
    var m :| m in Preorder(Unwrap, err, levels) && HasExists in Mark(Unwrap, installed, m).flags;
    PreorderReaches(Unwrap, err, levels, m);
    var path :| Reaches(Unwrap, err, path, m);
    assert Benign(Unwrap, installed, m);
    assert m.Leaf?;
    ReachedIsMentioned(err, path, m.leaf);
  }

  /**
   A conflict certified as pure is safe to retry through: this writer installed nothing and left
   nothing behind, and the target is another writer's complete, synced file.
   */
  lemma PureConflictIsSafe(dir: Directory, start: Disk, installed: bool, err: Err, mishap: Mishap)
    requires Reported(dir, start, installed, err, mishap)
    requires WithinBudget(INSPECTION_LIMITS, Unwrap, err)
    requires Classification(INSPECTION_LIMITS, Unwrap, installed, err) == PureExists
    ensures !installed && NoLeftover(dir)
    ensures !dir.disk.tampered ==>
      && dir.world.target in dir.disk.live
      && !TargetIsMine(dir.world, dir.me, dir.disk)
      && Complete(dir.world, dir.disk, dir.disk.live[dir.world.target])
  {
    hide KeepsTarget, Durable, Silent, Mentions;
    PureExistsExactly(INSPECTION_LIMITS, Unwrap, installed, err);
    BenignLeaves(installed, err);
    var here: seq<nat> := [];
    assert Reaches(Unwrap, err, here, err) && Benign(Unwrap, installed, err);
    if !dir.disk.tampered {
      dir.DiskIsSound();
    }
  }

  // ---- The ordinary conflict --------------------------------------------------------------

  lemma LeafUnfolds(leaf: Leaf, levels: nat)
    requires levels > 0
    ensures Preorder(Unwrap, Leaf(leaf), levels) == [Leaf(leaf)] && !Deep(Unwrap, Leaf(leaf), levels)
  {
    var none: seq<Err> := [];
    assert Children(Unwrap, Leaf(leaf)) == none;
    assert PreorderAll(Unwrap, none, levels - 1) == none;
  }

  lemma PairUnfolds(a: Leaf, b: Leaf, levels: nat)
    requires levels > 1
    ensures Preorder(Unwrap, Join([Leaf(a), Leaf(b)]), levels) == [Join([Leaf(a), Leaf(b)]), Leaf(a), Leaf(b)]
    ensures !Deep(Unwrap, Join([Leaf(a), Leaf(b)]), levels)
  {
    hide Preorder, Deep;
    LeafUnfolds(a, levels - 1);
    LeafUnfolds(b, levels - 1);
    var causes := [Leaf(a), Leaf(b)];
    assert causes[1..] == [Leaf(b)] && causes[1..][1..] == [];
    OneMoreLevel(Join(causes), levels);
    assert PreorderAll(Unwrap, causes[1..][1..], levels - 1) == [];
    assert PreorderAll(Unwrap, causes[1..], levels - 1) == [Leaf(b)];
    assert PreorderAll(Unwrap, causes, levels - 1) == [Leaf(a), Leaf(b)];
  }

  lemma OneMoreLevel(e: Err, levels: nat)
    requires levels > 0
    ensures Preorder(Unwrap, e, levels) == [e] + PreorderAll(Unwrap, Children(Unwrap, e), levels - 1)
    ensures Deep(Unwrap, e, levels) <==> exists c <- Children(Unwrap, e) :: Deep(Unwrap, c, levels - 1)
  {
  }

  lemma WriterUnfolds(cause: Err, levels: nat)
    requires levels > 0
    ensures var e := Writer(ValidatePath, false, cause);
      && Preorder(Unwrap, e, levels) == [e] + Preorder(Unwrap, cause, levels - 1)
      && (Deep(Unwrap, e, levels) <==> Deep(Unwrap, cause, levels - 1))
  {
    hide Preorder, Deep;
    var e := Writer(ValidatePath, false, cause);
    OneMoreLevel(e, levels);
    var causes := [cause];
    assert Children(Unwrap, e) == causes && cause in causes && causes[1..] == [];
    assert PreorderAll(Unwrap, causes[1..], levels - 1) == [];
  }

  /** What the write returns when it finds the target taken: pure unless closing the parent failed too. */
  lemma ConflictClass(closeFails: bool)
    ensures
      var exists_, close := Leaf(ImmutableExists), Failed("close parent");
      var err := Writer(ValidatePath, false, if closeFails then JoinErrors(exists_, close) else exists_);
      && WithinBudget(INSPECTION_LIMITS, Unwrap, err)
      && Classification(INSPECTION_LIMITS, Unwrap, false, err) == if closeFails then ExistsWithFailure else PureExists
  {
    hide Preorder, Deep, Summary;
    var exists_, close := Leaf(ImmutableExists), Failed("close parent");
    var cause := if closeFails then JoinErrors(exists_, close) else exists_;
    var err := Writer(ValidatePath, false, cause);
    WriterUnfolds(cause, 65);
    var none: seq<Err> := [];
    EmptySummary();
    SummarySnoc(Unwrap, false, none, err);
    assert none + [err] == [err];
    if closeFails {
      PairUnfolds(ImmutableExists, Trouble("close parent"), 64);
      SummarySnoc(Unwrap, false, [err], cause);
      SummarySnoc(Unwrap, false, [err] + [cause], exists_);
      SummarySnoc(Unwrap, false, [err] + [cause] + [exists_], close);
      assert Preorder(Unwrap, err, 65) == [err] + [cause] + [exists_] + [close];
    } else {
      LeafUnfolds(ImmutableExists, 64);
      SummarySnoc(Unwrap, false, [err], exists_);
    }
  }

  lemma EmptySummary()
    ensures var none: seq<Err> := []; Summary(Unwrap, false, none) == CLEAN
  {
  }

  /**
   A write that returns nil has published for good: whatever writers do and however often the
   system crashes afterwards, the target is this writer's file with its whole payload.
   */
  lemma SuccessOutlivesCrashes(dir: Directory, start: Disk, installed: bool, mishap: Mishap, events: seq<Event>)
    requires Reported(dir, start, installed, None, mishap) && !dir.disk.tampered && Grounded(dir.initial)
    requires Life(dir.world, dir.disk, events) && !Later(dir.world, dir.disk, events).tampered
    ensures var e := Later(dir.world, dir.disk, events);
      && dir.world.target in e.live && e.live[dir.world.target] in e.inodes
      && e.inodes[e.live[dir.world.target]].data == dir.world.payload(dir.me)
      && Durable(dir.world, dir.me, e)
  {
    hide Grounded, Durable, Accounted, Silent;
    dir.DiskIsSound();
    RunKeepsGrounded(dir.world, dir.initial, dir.history);
    SuccessIsForever(dir.world, dir.me, dir.disk, events);
  }

  method PublishManifest(dir: Directory, preflight: Preflight, data: seq<byte>)
    returns (installed: bool, err: Err, class_: Class)
    requires Ready(dir, dir.disk) && data == dir.world.payload(dir.me)
    modifies dir
    ensures Reported(dir, old(dir.disk), installed, err, WriteMishap(dir, preflight, old(dir.disk), old(dir.turn), data))
    ensures class_ == NoError <==> err == None
    ensures dir.disk.tampered || (class_ == NoError <==> Unhindered(dir, preflight, old(dir.disk), old(dir.turn), data))
    ensures Conflicts(dir, preflight, old(dir.disk), old(dir.turn)) ==>
      dir.disk.tampered || class_ == if dir.oracle(old(dir.turn) + 3).fails then ExistsWithFailure else PureExists
    ensures class_ == PureExists && !dir.disk.tampered ==>
      && !installed && NoLeftover(dir)
      && dir.world.target in dir.disk.live
      && !TargetIsMine(dir.world, dir.me, dir.disk)
      && Complete(dir.world, dir.disk, dir.disk.live[dir.world.target])
  {
    hide WriteMishap, WriteEnding, Unhindered, Conflicts;
    ConflictClass(dir.oracle(dir.turn + 3).fails);
    ghost var mishap := WriteMishap(dir, preflight, dir.disk, dir.turn, data);
    installed, err := WriteNoReplaceWithParent(dir, preflight, data);
    class_ := ClassifyManifestWriterError(Unwrap, installed, err);
    if class_ == PureExists {
      PureConflictIsSafe(dir, old(dir.disk), installed, err, mishap);
    }
  }

  /**
   WriteManifest once the directory chain is open: write, verify the chain and the target again,
   join what went wrong, and close the chain. Its error is recognised as a pure conflict exactly
   when the writer's error is one and nothing else failed, and then retrying is safe.
   */
  method WriteManifest(dir: Directory, preflight: Preflight, data: seq<byte>,
                       chainFails: bool, targetFails: bool, closeFails: bool)
    returns (err: StoreError, ghost installed: bool, ghost class_: Class)
    requires Ready(dir, dir.disk) && data == dir.world.payload(dir.me)
    modifies dir
    ensures dir.Valid() && KeepsTarget(dir.world, old(dir.disk), dir.disk)
    ensures err == Nothing <==> class_ == NoError && !chainFails && !targetFails && !closeFails
    ensures err == Nothing ==> installed && Durable(dir.world, dir.me, dir.disk)
    ensures IsPure(err) <==> class_ == PureExists && !chainFails && !targetFails && !closeFails
    ensures dir.disk.tampered ||
      (err == Nothing <==>
        Unhindered(dir, preflight, old(dir.disk), old(dir.turn), data) && !chainFails && !targetFails && !closeFails)
    ensures Conflicts(dir, preflight, old(dir.disk), old(dir.turn)) ==>
      dir.disk.tampered
      || (IsPure(err) <==> !dir.oracle(old(dir.turn) + 3).fails && !chainFails && !targetFails && !closeFails)
    ensures IsPure(err) && !dir.disk.tampered ==>
      && !installed && NoLeftover(dir)
      && dir.world.target in dir.disk.live
      && !TargetIsMine(dir.world, dir.me, dir.disk)
      && Complete(dir.world, dir.disk, dir.disk.live[dir.world.target])
  {
    hide IsPure, StorageResult, Accounted, MineAt, KeepsTarget, Durable, Silent, Unhindered, Conflicts;
    var writeInstalled, writeErr, writerClass := PublishManifest(dir, preflight, data);
    installed, class_ := writeInstalled, writerClass;
    if writeErr == None && !writeInstalled {
      assert false;
    }
    RecognisedExactly(writerClass, chainFails, targetFails, closeFails);
    err := StorageResult(writerClass, chainFails, targetFails, closeFails);
  }
}
