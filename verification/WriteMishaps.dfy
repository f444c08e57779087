/**
 Runs of the write: two that go wrong unnoticed, as its contract says they may, and, for one
 disturbance at any turn, those that fail at the stage it hits.
 */
module WriteMishaps {
  import opened DurableDisk
  import opened ErrorWalk
  import opened ErrorTree
  import opened AnchoredDirectory
  import opened ImmutableWrite
  import opened WriteForecast

  // A turn at which nobody interferes and nothing fails, and one at which the operation
  // fails after taking effect.
  const CALM := Turn([], false, false, false, false, 0, true, "")
  const FAILING := CALM.(fails := true, effective := true)

  const EMPTY := Disk(map[], map[], map[], [], false)

  /** One writer that publishes an empty file as "a". */
  function Solo(): World {
    World("a", (_: nat) => [], (_: string) => 0)
  }

  /** A directory that starts empty and meets only calm turns but for the given ones. */
  method Start(bad: set<nat>, failing: Turn) returns (dir: Directory)
    requires failing.others == []
    ensures fresh(dir) && dir.world == Solo() && dir.me == 0 && dir.initial == EMPTY
    ensures dir.turn == 0 && dir.disk == EMPTY && Ready(dir, EMPTY)
    ensures forall t: nat :: dir.oracle(t) == if t in bad then failing else CALM
    ensures dir.Orderly() && forall d, t :: dir.Meets(d, t) == d
  {
    dir := new Directory(Solo(), 0, (t: nat) => if t in bad then failing else CALM, EMPTY);
  }

  /**
   A create that fails after taking effect: the writer gives up at once, and its temporary
   file stays in the directory with no mention in the error.
   */
  method LeaveFileBehind() returns (dir: Directory, installed: bool, err: Err)
    ensures dir.Valid() && !dir.disk.tampered && dir.initial == EMPTY
    ensures !installed && err.Writer? && err.stage == CreateTemp
    ensures !NoLeftover(dir) && !Mentions(err, REMOVE_FAILED)
  {
    hide Reported, Leaves, Ready;
    dir := Start({3}, FAILING);
    assert WriteMishap(dir, AllClear, EMPTY, 0, []) == Stranded;
    installed, err := WriteNoReplaceWithParent(dir, AllClear, []);
    StrandedMeans(dir, EMPTY, installed, err);
  }

  lemma StrandedMeans(dir: Directory, start: Disk, installed: bool, err: Err)
    requires Reported(dir, start, installed, err, Stranded) && dir.Orderly()
    ensures dir.Valid() && !dir.disk.tampered && !installed && err.Writer? && err.stage == CreateTemp
    ensures !NoLeftover(dir) && !Mentions(err, REMOVE_FAILED)
  {
  }

  /**
   A link that fails after taking effect, and a look after it that fails: the write reports
   that nothing was installed, yet its file is the target.
   */
  method InstallUnnoticed(echoes: bool) returns (dir: Directory, installed: bool, err: Err)
    ensures dir.Valid() && !dir.disk.tampered && dir.initial == EMPTY
    ensures !installed && TargetIsMine(dir.world, dir.me, dir.disk)
    ensures Mentions(err, RECONCILE_FAILED)
  {
    hide Reported, Leaves, Ready;
    dir := Start({15, 16}, FAILING.(echoes := echoes));
    SlipsAtLink(dir);
    installed, err := WriteNoReplaceWithParent(dir, AllClear, []);
    SlippedMeans(dir, EMPTY, installed, err);
  }

  lemma SlipsAtLink(dir: Directory)
    requires dir.world == Solo() && dir.me == 0 && forall d, t :: dir.Meets(d, t) == d
    requires forall t: nat :: t < 15 ==> dir.oracle(t) == CALM
    requires dir.FailsWithEffect(15) && dir.oracle(16).fails
    ensures WriteMishap(dir, AllClear, EMPTY, 0, []) == Slipped
  {
    var name := TempPrefix("a") + "";
    var created := Apply(Solo(), EMPTY, Create(0, name, 0));
    assert name[0] == '.' && name != "a";
    assert dir.LastDraw(TempPrefix("a"), EMPTY, 3, DRAWS) == Moment(3, EMPTY);
    assert FillMishap(dir, created, 4, 0, []) == Slipped;
    assert CreateMishap(dir, EMPTY, 3, []) == Slipped;
  }

  lemma SlippedMeans(dir: Directory, start: Disk, installed: bool, err: Err)
    requires Reported(dir, start, installed, err, Slipped) && dir.Orderly()
    ensures dir.Valid() && !dir.disk.tampered && !installed
    ensures TargetIsMine(dir.world, dir.me, dir.disk) && Mentions(err, RECONCILE_FAILED)
  {
  }

  // The stage at which a write stops when its operation at a given turn fails, or finds it cancelled.
  const STAGES: seq<Stage> := [
    ValidatePath, ValidatePath, ValidatePath, CreateTemp, SetMode, SetMode, Write, Write, SyncFile, SyncFile,
    Stage.Install, CloseFile, Stage.Install, Stage.Install, Stage.Install, Stage.Install, Stage.Install,
    SyncInstall, SyncInstall, SyncInstall, RemoveTemp,
    SyncCleanup, SyncCleanup, SyncCleanup, SyncCleanup, CloseDirectory]

  const DISTURBED := CALM.(fails := true, canceled := true)

  /** One disturbance at any of its turns stops the write there; without one it publishes and returns nil. */
  method DisturbOnce(k: nat) returns (dir: Directory, installed: bool, err: Err)
    ensures dir.Valid() && !dir.disk.tampered && dir.initial == EMPTY
    ensures if k < |STAGES| then err.Writer? && err.stage == STAGES[k] else err == None && installed && Durable(dir.world, dir.me, dir.disk)
  {
    hide Reported, Leaves, Ready, WriteEnding, Unhindered, Durable;
    dir := Start({k}, DISTURBED);
    StopsThere(dir, k);
    installed, err := WriteNoReplaceWithParent(dir, AllClear, []);
    ReportedMeans(dir, EMPTY, installed, err, WriteMishap(dir, AllClear, EMPTY, 0, []));
  }

  lemma ReportedMeans(dir: Directory, start: Disk, installed: bool, err: Err, mishap: Mishap)
    requires Reported(dir, start, installed, err, mishap) && dir.Orderly()
    ensures dir.Valid() && !dir.disk.tampered
    ensures err == None ==> installed && Durable(dir.world, dir.me, dir.disk)
  {
  }

  lemma StopsThere(dir: Directory, k: nat)
    requires dir.world == Solo() && dir.me == 0 && forall d, t :: dir.Meets(d, t) == d
    requires forall t: nat :: dir.oracle(t) == if t == k then DISTURBED else CALM
    ensures
      var ending := WriteEnding(dir, AllClear, EMPTY, 0, []);
      if k < |STAGES| then ending.Failure? && ending.stage == STAGES[k] else ending == Success(26)
  {
    hide FillEnding;
    var created := Apply(Solo(), EMPTY, Create(0, TempPrefix("a") + "", 0));
    assert dir.LastDraw(TempPrefix("a"), EMPTY, 3, DRAWS) == Moment(3, EMPTY);
    if k > 3 {
      FillStopsThere(dir, created, k);
      assert CreateEnding(dir, EMPTY, 3, []) == FillEnding(dir, created, 4, 0, []);
    }
  }

  lemma FillStopsThere(dir: Directory, created: Disk, k: nat)
    requires dir.world == Solo() && dir.me == 0 && forall d, t :: dir.Meets(d, t) == d
    requires forall t: nat :: dir.oracle(t) == if t == k then DISTURBED else CALM
    requires k > 3 && created == Apply(Solo(), EMPTY, Create(0, TempPrefix("a") + "", 0))
    ensures
      var ending := FillEnding(dir, created, 4, 0, []);
      if k < |STAGES| - 1 then ending.Failure? && ending.stage == STAGES[k] else ending == Success(25)
  {
    assert (TempPrefix("a") + "")[0] == '.';
    var filled := Filled(dir, created, 4, 0, []);
    var sealed_ := SealedDisk(dir, filled, 8, 0);
    assert "a" !in sealed_.live;
    SettleStopsThere(dir, sealed_, k);
    assert Inspected(dir, filled, 8, 0).inodes == map[0 := Inode(0, [], 1, true)];
  }

  lemma SettleStopsThere(dir: Directory, d: Disk, k: nat)
    requires dir.world == Solo() && dir.me == 0 && forall d, t :: dir.Meets(d, t) == d
    requires forall t: nat :: dir.oracle(t) == if t == k then DISTURBED else CALM
    requires "a" !in d.live
    ensures
      var ending := InstallEnding(dir, d, 14);
      if 14 <= k < |STAGES| - 1 then ending.Failure? && ending.stage == STAGES[k] else ending == Success(25)
  {
    hide Leaves;
    BasicLeaves();
  }

  /** The stages of writes that are disturbed again while they clean up. */
  predicate DisturbedAgain(bad: set<nat>, stage: Stage) {
    || (bad == {7, 8} && stage == CloseFile)
    || (bad == {7, 9} && stage == RemoveTemp)
    || (bad == {7, 10} && stage == SyncCleanup)
    || (bad == {7, 9, 11} && stage == SyncCleanup)
    || (bad == {19, 21} && stage == SyncCleanup)
    || (bad == {20, 21} && stage == RemoveTemp)
    || (bad == {20, 22} && stage == SyncCleanup)
  }

  /** A failure during the cleanup takes over the stage; the last one gives it. */
  method DisturbCleanup(bad: set<nat>, stage: Stage) returns (dir: Directory, installed: bool, err: Err)
    requires DisturbedAgain(bad, stage)
    ensures dir.Valid() && !dir.disk.tampered && dir.initial == EMPTY
    ensures err.Writer? && err.stage == stage
  {
    hide Reported, Leaves, Ready, WriteEnding, Unhindered, Durable, DisturbedAgain;
    dir := Start(bad, DISTURBED);
    StopsCleanup(dir, bad, stage);
    installed, err := WriteNoReplaceWithParent(dir, AllClear, []);
    ReportedMeans(dir, EMPTY, installed, err, WriteMishap(dir, AllClear, EMPTY, 0, []));
  }

  lemma StopsCleanup(dir: Directory, bad: set<nat>, stage: Stage)
    requires DisturbedAgain(bad, stage)
    requires dir.world == Solo() && dir.me == 0 && forall d, t :: dir.Meets(d, t) == d
    requires forall t: nat :: dir.oracle(t) == if t in bad then DISTURBED else CALM
    ensures WriteEnding(dir, AllClear, EMPTY, 0, []).Failure? && WriteEnding(dir, AllClear, EMPTY, 0, []).stage == stage
  {
    hide AnchoredEnding, SettleEnding, GivenUp;
    if 7 in bad {
      GivesUpSo(dir, bad, stage);
      CalmUntilWrite(dir);
    } else {
      SettlesSo(dir, bad, stage);
      CalmUntilLink(dir);
    }
  }

  lemma CalmUntilWrite(dir: Directory)
    requires dir.world == Solo() && dir.me == 0 && forall d, t :: dir.Meets(d, t) == d
    requires forall t: nat :: t < 7 ==> dir.oracle(t) == CALM
    requires dir.oracle(7).fails
    ensures AnchoredEnding(dir, EMPTY, 1, []) == GivenUp(dir, Write, {Trouble("write")}, 8)
  {
    hide GivenUp, SealEnding;
    assert dir.LastDraw(TempPrefix("a"), EMPTY, 3, DRAWS) == Moment(3, EMPTY);
    assert CreateEnding(dir, EMPTY, 3, [])
      == FillEnding(dir, Apply(Solo(), EMPTY, Create(0, TempPrefix("a") + "", 0)), 4, 0, []);
  }

  lemma CalmUntilLink(dir: Directory)
    requires dir.world == Solo() && dir.me == 0 && forall d, t :: dir.Meets(d, t) == d
    requires forall t: nat :: t < 17 ==> dir.oracle(t) == CALM
    ensures AnchoredEnding(dir, EMPTY, 1, []) == SettleEnding(dir, {}, 17)
  {
    hide SettleEnding, FillEnding;
    assert dir.LastDraw(TempPrefix("a"), EMPTY, 3, DRAWS) == Moment(3, EMPTY);
    var created := Apply(Solo(), EMPTY, Create(0, TempPrefix("a") + "", 0));
    CalmFill(dir, created);
    assert CreateEnding(dir, EMPTY, 3, []) == FillEnding(dir, created, 4, 0, []);
  }

  lemma CalmFill(dir: Directory, created: Disk)
    requires dir.world == Solo() && dir.me == 0 && forall d, t :: dir.Meets(d, t) == d
    requires forall t: nat :: t < 17 ==> dir.oracle(t) == CALM
    requires created == Apply(Solo(), EMPTY, Create(0, TempPrefix("a") + "", 0))
    ensures FillEnding(dir, created, 4, 0, []) == SettleEnding(dir, {}, 17)
  {
    hide SettleEnding, Leaves;
    BasicLeaves();
    assert (TempPrefix("a") + "")[0] == '.';
    var filled := Filled(dir, created, 4, 0, []);
    var sealed_ := SealedDisk(dir, filled, 8, 0);
    assert "a" !in sealed_.live;
    assert Inspected(dir, filled, 8, 0).inodes == map[0 := Inode(0, [], 1, true)];
    assert InstallEnding(dir, sealed_, 14) == SettleEnding(dir, {}, 17);
  }

  lemma GivesUpSo(dir: Directory, bad: set<nat>, stage: Stage)
    requires DisturbedAgain(bad, stage) && 7 in bad
    requires forall t: nat :: dir.oracle(t) == if t in bad then DISTURBED else CALM
    ensures var ending := GivenUp(dir, Write, {Trouble("write")}, 8); ending.Failure? && ending.stage == stage
  {
  }

  lemma SettlesSo(dir: Directory, bad: set<nat>, stage: Stage)
    requires DisturbedAgain(bad, stage) && 7 !in bad
    requires forall t: nat :: dir.oracle(t) == if t in bad then DISTURBED else CALM
    ensures SettleEnding(dir, {}, 17).Failure? && SettleEnding(dir, {}, 17).stage == stage
  {
  }
}
