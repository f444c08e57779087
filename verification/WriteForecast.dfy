/**
 What becomes of a write, told beforehand from the disk it starts on and what the oracle has in
 store: whether something goes wrong unnoticed, where the write stops, and what its error says.
 */
module WriteForecast {
  import opened GoNumbers
  import opened DurableDisk
  import opened ErrorWalk
  import opened ErrorTree
  import opened AnchoredDirectory

  // How far the caller's arguments and the parent directory let the write get.
  datatype Preflight = ContextMissing | DestinationUnsafe | ParentChanged | ParentUnopened | AllClear

  function TempPrefix(target: string): string {
    "." + target + ".tmp-"
  }

  /** The disk on which the write looks for the target, from its look at the anchor on. */
  ghost function AtLook(dir: Directory, d: Disk, t: nat): Disk {
    dir.Meets(dir.Meets(d, t), t + 1)
  }

  // ---- Filling and sealing the temporary file -------------------------------------------

  /** Filling, from turn `t` on, meets no failure and writes all the data. */
  predicate Fills(dir: Directory, t: nat, data: seq<byte>) {
    && !dir.oracle(t).canceled && !dir.oracle(t + 1).fails && !dir.oracle(t + 2).canceled
    && !dir.oracle(t + 3).fails && dir.oracle(t + 3).count >= |data|
  }

  /** The disk that filling then leaves. */
  ghost function Filled(dir: Directory, d: Disk, t: nat, ino: nat, data: seq<byte>): Disk {
    var d1 := dir.Meets(d, t);
    var d2 := dir.Meets(d1, t + 1);
    var d3 := dir.Meets(d2, t + 2);
    Apply(dir.world, dir.Meets(d3, t + 3), Fill(dir.me, ino, data))
  }

  /** The disk after syncing the file at the second of two turns. */
  ghost function Flushed(dir: Directory, d: Disk, t: nat, ino: nat): Disk {
    Apply(dir.world, dir.Meets(dir.Meets(d, t), t + 1), Flush(ino))
  }

  ghost function Inspected(dir: Directory, d: Disk, t: nat, ino: nat): Disk {
    dir.Meets(Flushed(dir, d, t, ino), t + 2)
  }

  /** Closing the file and checking that the way is still clear meets no failure from turn `t` on. */
  predicate Closes(dir: Directory, t: nat) {
    !dir.oracle(t).fails && !dir.oracle(t + 1).canceled && !dir.oracle(t + 2).fails
  }

  ghost function Closed(dir: Directory, d: Disk, t: nat): Disk {
    dir.Meets(dir.Meets(dir.Meets(d, t), t + 1), t + 2)
  }

  /** Sealing, from turn `t` on, meets no failure and finds a regular file. */
  ghost predicate Seals(dir: Directory, d: Disk, t: nat, ino: nat) {
    && !dir.oracle(t).canceled && !dir.oracle(t + 1).fails
    && !dir.oracle(t + 2).fails && ino in Inspected(dir, d, t, ino).inodes && dir.oracle(t + 2).regular
    && Closes(dir, t + 3)
  }

  /** The disk that sealing then leaves. */
  ghost function SealedDisk(dir: Directory, d: Disk, t: nat, ino: nat): Disk {
    Closed(dir, Inspected(dir, d, t, ino), t + 3)
  }

  // ---- Linking ---------------------------------------------------------------------------

  /** The disk that the link meets, one turn after the first look. */
  ghost function AtLink(dir: Directory, d: Disk, t: nat): Disk {
    dir.Meets(dir.Meets(d, t), t + 1)
  }

  /**
   The one way to install without noticing, three turns from `t` on after `d`: the first look
   works, the link fails after taking effect on a free target, and the second look fails.
   */
  ghost predicate LinkSlips(dir: Directory, d: Disk, t: nat) {
    && !dir.oracle(t).fails
    && dir.FailsWithEffect(t + 1) && dir.world.target !in AtLink(dir, d, t).live
    && dir.oracle(t + 2).fails
  }

  /** The target is linked and seen to be: by a good link, or by a second look after a bad one. */
  ghost predicate Installs(dir: Directory, d: Disk, t: nat) {
    && !dir.oracle(t).fails
    && dir.world.target !in AtLink(dir, d, t).live
    && (!dir.oracle(t + 1).fails || (dir.oracle(t + 1).effective && !dir.oracle(t + 2).fails))
  }

  /** What the error of an install mentions. */
  ghost function InstallLeaves(dir: Directory, d: Disk, t: nat): set<Leaf> {
    if dir.oracle(t).fails then {UnsafePath, Trouble("lstat")}
    else
      var linked := Leaves(dir.LinkError(AtLink(dir, d, t), t + 1));
      if !dir.oracle(t + 2).fails then linked
      else if linked == {} then {UnsafePath, Trouble("lstat")}
      else linked + {UnsafePath, RECONCILE_FAILED}
  }

  // ---- What may go wrong unnoticed -------------------------------------------------------

  // A create or a link that failed after taking effect.
  datatype Mishap = Smooth | Stranded | Slipped

  ghost function LinkMishap(dir: Directory, d: Disk, t: nat): (mishap: Mishap)
    ensures !mishap.Stranded?
  {
    if LinkSlips(dir, d, t) then Slipped else Smooth
  }

  /** Of a write from filling its file on. */
  ghost function FillMishap(dir: Directory, d: Disk, t: nat, ino: nat, data: seq<byte>): Mishap {
    var filled := Filled(dir, d, t, ino, data);
    if Fills(dir, t, data) && Seals(dir, filled, t + 4, ino) then
      LinkMishap(dir, SealedDisk(dir, filled, t + 4, ino), t + 10)
    else Smooth
  }

  /** Of a write from the first draw on. */
  ghost function CreateMishap(dir: Directory, d: Disk, t: nat, data: seq<byte>): Mishap {
    var prefix := TempPrefix(dir.world.target);
    var last := dir.LastDraw(prefix, d, t, DRAWS);
    if dir.Strands(prefix, last) then Stranded
    else if !dir.Creates(prefix, last) then Smooth
    else
      var temp, ino := prefix + dir.oracle(last.turn).entropy, dir.oracle(last.turn).count;
      FillMishap(dir, Apply(dir.world, last.disk, Create(dir.me, temp, ino)), last.turn + 1, ino, data)
  }

  /** Of a write from its look at the anchor on. */
  ghost function AnchoredMishap(dir: Directory, d: Disk, t: nat, data: seq<byte>): Mishap {
    var looked := AtLook(dir, d, t);
    if !dir.oracle(t).fails && !dir.oracle(t + 1).fails && dir.world.target !in looked.live then
      CreateMishap(dir, looked, t + 2, data)
    else Smooth
  }

  /** Of a whole write that starts at turn `t` after `d`. */
  ghost function WriteMishap(dir: Directory, preflight: Preflight, d: Disk, t: nat, data: seq<byte>): Mishap {
    if preflight == AllClear && !dir.oracle(t).canceled then AnchoredMishap(dir, dir.Meets(d, t), t + 1, data) else Smooth
  }

  // ---- Where a write stops, and what its error says ----------------------------------------

  // How a write ends: well, or with an error at a stage that mentions these leaves; and the
  // turn after its last operation.
  datatype Ending = Success(turn: nat) | Failure(stage: Stage, leaves: set<Leaf>, turn: nat)

  /** The error, given at turn `now`, is the one foretold. */
  ghost predicate Tells(err: Err, now: nat, ending: Ending) {
    && now == ending.turn
    && match ending
       case Success(_) => err == None
       case Failure(stage, leaves, _) => err.Writer? && err.stage == stage && Leaves(err) == leaves
  }

  /** Removing the temporary name fails, other than with the answer that there is none. */
  predicate Refused(dir: Directory, there: bool, t: nat) {
    dir.oracle(t).fails && !(there && dir.oracle(t).effective && dir.oracle(t).echoes)
  }

  /**
   Cleaning up after a failure: a removal, a second one if the first is refused and none was
   made before, and a directory sync. The last of these to fail gives the stage.
   */
  function Cleaned(dir: Directory, stage: Stage, leaves: set<Leaf>, there: bool, removedBefore: bool, t: nat): (ending: Ending)
    ensures ending.Failure?
  {
    var refused := Refused(dir, there, t);
    var sync := if refused && !removedBefore then t + 2 else t + 1;
    var all := if refused then leaves + {REMOVE_FAILED} else leaves;
    if dir.oracle(sync).fails then Failure(SyncCleanup, all + {SYNC_FAILED}, sync + 1)
    else Failure(if refused then RemoveTemp else stage, all, sync + 1)
  }

  /** Giving up with the temporary file still open: a failing close takes over the stage first. */
  function GivenUp(dir: Directory, stage: Stage, leaves: set<Leaf>, t: nat): Ending {
    if dir.oracle(t).fails then Cleaned(dir, CloseFile, leaves + {Trouble("close")}, true, false, t + 1)
    else Cleaned(dir, stage, leaves, true, false, t + 1)
  }

  /** What the second directory sync and the checks around it find wrong. */
  function Completion(dir: Directory, t: nat): set<Leaf> {
    (if dir.oracle(t).canceled || dir.oracle(t + 2).canceled then {Canceled} else {})
    + (if dir.oracle(t + 1).fails then {SYNC_FAILED} else {})
    + (if dir.oracle(t + 3).fails then {UnsafePath, Trouble("anchor")} else {})
  }

  /** Of a write whose temporary name is gone, with the leaves of the install's error. */
  function CompleteEnding(dir: Directory, leaves: set<Leaf>, t: nat): Ending {
    if Completion(dir, t) != {} then Failure(SyncCleanup, leaves + Completion(dir, t), t + 4)
    else if leaves != {} then Failure(Stage.Install, leaves, t + 4)
    else Success(t + 4)
  }

  /** What a failing removal of a name that is there says. */
  function RemoveLeaf(dir: Directory, t: nat): Leaf {
    if dir.oracle(t).effective && dir.oracle(t).echoes then NOT_EXIST else REMOVE_FAILED
  }

  /** Of a write whose target is linked, with the leaves of the install's error. */
  function SettleEnding(dir: Directory, leaves: set<Leaf>, t: nat): Ending {
    if dir.oracle(t).fails then Cleaned(dir, SyncInstall, leaves + {UnsafePath, Trouble("anchor")}, true, false, t + 1)
    else if dir.oracle(t + 1).canceled then Cleaned(dir, SyncInstall, leaves + {Canceled}, true, false, t + 2)
    else if dir.oracle(t + 2).fails then Cleaned(dir, SyncInstall, leaves + {SYNC_FAILED}, true, false, t + 3)
    else if dir.oracle(t + 3).fails then
      Cleaned(dir, RemoveTemp, leaves + {RemoveLeaf(dir, t + 3)}, !dir.oracle(t + 3).effective, true, t + 4)
    else CompleteEnding(dir, leaves, t + 4)
  }

  /** Of a write from its first look at the temporary name on. */
  ghost function InstallEnding(dir: Directory, d: Disk, t: nat): Ending {
    var leaves := InstallLeaves(dir, d, t);
    var conflict := if SystemExists in leaves then {ImmutableExists} else {};
    if Installs(dir, d, t) then SettleEnding(dir, leaves, t + 3)
    else Cleaned(dir, Stage.Install, leaves + conflict, true, false, if dir.oracle(t).fails then t + 1 else t + 3)
  }

  /** Of a write from closing its file on. */
  ghost function CloseEnding(dir: Directory, d: Disk, t: nat): Ending {
    if dir.oracle(t).fails then Cleaned(dir, CloseFile, {Trouble("close")}, true, false, t + 1)
    else if dir.oracle(t + 1).canceled then Cleaned(dir, Stage.Install, {Canceled}, true, false, t + 2)
    else if dir.oracle(t + 2).fails then Cleaned(dir, Stage.Install, {UnsafePath, Trouble("anchor")}, true, false, t + 3)
    else InstallEnding(dir, Closed(dir, d, t), t + 3)
  }

  /** Of a write from syncing its file on. */
  ghost function SealEnding(dir: Directory, d: Disk, t: nat, ino: nat): Ending {
    if dir.oracle(t).canceled then GivenUp(dir, SyncFile, {Canceled}, t + 1)
    else if dir.oracle(t + 1).fails then GivenUp(dir, SyncFile, {Trouble("sync")}, t + 2)
    else if dir.oracle(t + 2).fails || ino !in Inspected(dir, d, t, ino).inodes then
      GivenUp(dir, Stage.Install, {Trouble("stat")}, t + 3)
    else if !dir.oracle(t + 2).regular then GivenUp(dir, Stage.Install, {UnsafePath}, t + 3)
    else CloseEnding(dir, Inspected(dir, d, t, ino), t + 3)
  }

  /** Of a write from filling its file on. */
  ghost function FillEnding(dir: Directory, d: Disk, t: nat, ino: nat, data: seq<byte>): Ending {
    if dir.oracle(t).canceled then GivenUp(dir, SetMode, {Canceled}, t + 1)
    else if dir.oracle(t + 1).fails then GivenUp(dir, SetMode, {Trouble("chmod")}, t + 2)
    else if dir.oracle(t + 2).canceled then GivenUp(dir, Write, {Canceled}, t + 3)
    else if dir.oracle(t + 3).fails then GivenUp(dir, Write, {Trouble("write")}, t + 4)
    else if dir.oracle(t + 3).count < |data| then GivenUp(dir, ShortWrite, {Trouble("short write")}, t + 4)
    else SealEnding(dir, Filled(dir, d, t, ino, data), t + 4, ino)
  }

  /** Of a write from the first draw on. */
  ghost function CreateEnding(dir: Directory, d: Disk, t: nat, data: seq<byte>): Ending {
    var prefix := TempPrefix(dir.world.target);
    var last := dir.LastDraw(prefix, d, t, DRAWS);
    if !dir.Creates(prefix, last) then Failure(CreateTemp, {Trouble("create")}, last.turn + 1)
    else
      var temp, ino := prefix + dir.oracle(last.turn).entropy, dir.oracle(last.turn).count;
      FillEnding(dir, Apply(dir.world, last.disk, Create(dir.me, temp, ino)), last.turn + 1, ino, data)
  }

  /** Of a write from its look at the anchor on. */
  ghost function AnchoredEnding(dir: Directory, d: Disk, t: nat, data: seq<byte>): Ending {
    var looked := AtLook(dir, d, t);
    if dir.oracle(t).fails then Failure(ValidatePath, {UnsafePath, Trouble("anchor")}, t + 1)
    else if dir.oracle(t + 1).fails then Failure(ValidatePath, {UnsafePath, Trouble("lstat")}, t + 2)
    else if dir.world.target in looked.live then Failure(ValidatePath, {ImmutableExists}, t + 2)
    else CreateEnding(dir, looked, t + 2, data)
  }

  /** Closing the parent adds its own failure, and is a stage of its own only if nothing else went wrong. */
  function ParentClosed(dir: Directory, ending: Ending): Ending {
    if !dir.oracle(ending.turn).fails then ending.(turn := ending.turn + 1)
    else match ending
      case Success(t) => Failure(CloseDirectory, {Trouble("close parent")}, t + 1)
      case Failure(stage, leaves, t) => Failure(stage, leaves + {Trouble("close parent")}, t + 1)
  }

  /** Of a whole write that starts at turn `t` after `d`. */
  ghost function WriteEnding(dir: Directory, preflight: Preflight, d: Disk, t: nat, data: seq<byte>): Ending {
    if preflight == ContextMissing then Failure(ValidatePath, {InvalidWrite}, t)
    else if dir.oracle(t).canceled then Failure(ValidatePath, {Canceled}, t + 1)
    else if preflight == AllClear then ParentClosed(dir, AnchoredEnding(dir, dir.Meets(d, t), t + 1, data))
    else if preflight == ParentUnopened then Failure(ValidatePath, {UnsafePath, Trouble("open")}, t + 1)
    else Failure(ValidatePath, {UnsafePath}, t + 1)
  }

  // ---- The ordinary runs ---------------------------------------------------------------------

  /** The anchor and the target can be looked at. */
  predicate Looks(dir: Directory, t: nat) {
    !dir.oracle(t).fails && !dir.oracle(t + 1).fails
  }

  /** The write gets as far as looking at the target, and finds it taken: an ordinary conflict. */
  ghost predicate Conflicts(dir: Directory, preflight: Preflight, d: Disk, t: nat) {
    && preflight == AllClear && !dir.oracle(t).canceled && Looks(dir, t + 1)
    && dir.world.target in AtLook(dir, dir.Meets(d, t), t + 1).live
  }

  /** From the link to the last check nothing fails, nothing is cancelled, and nobody is faster. */
  ghost predicate Publishes(dir: Directory, d: Disk, t: nat) {
    && !dir.oracle(t).fails && !dir.oracle(t + 1).fails && !dir.oracle(t + 2).fails
    && dir.world.target !in AtLink(dir, d, t).live
    && !dir.oracle(t + 3).fails && !dir.oracle(t + 4).canceled && !dir.oracle(t + 5).fails && !dir.oracle(t + 6).fails
    && !dir.oracle(t + 7).canceled && !dir.oracle(t + 8).fails && !dir.oracle(t + 9).canceled && !dir.oracle(t + 10).fails
  }

  /** Nothing at all stands in the way of the write, up to and including the close of the parent. */
  ghost predicate Unhindered(dir: Directory, preflight: Preflight, d: Disk, t: nat, data: seq<byte>) {
    && preflight == AllClear && !dir.oracle(t).canceled && Looks(dir, t + 1)
    && var looked, prefix := AtLook(dir, dir.Meets(d, t), t + 1), TempPrefix(dir.world.target);
       var last := dir.LastDraw(prefix, looked, t + 3, DRAWS);
    && dir.world.target !in looked.live && dir.Creates(prefix, last)
    && var temp, ino := prefix + dir.oracle(last.turn).entropy, dir.oracle(last.turn).count;
       var filled := Filled(dir, Apply(dir.world, last.disk, Create(dir.me, temp, ino)), last.turn + 1, ino, data);
    && Fills(dir, last.turn + 1, data)
    && Seals(dir, filled, last.turn + 5, ino)
    && Publishes(dir, SealedDisk(dir, filled, last.turn + 5, ino), last.turn + 11)
    && !dir.oracle(last.turn + 22).fails
  }

  /** A write succeeds in these runs and in no others. */
  lemma SucceedsExactly(dir: Directory, preflight: Preflight, d: Disk, t: nat, data: seq<byte>)
    ensures WriteEnding(dir, preflight, d, t, data).Success? <==> Unhindered(dir, preflight, d, t, data)
  {
    hide FillEnding, SealEnding, Filled, SealedDisk, Seals, Publishes, InstallEnding;
    hide AfterOthers;
    if preflight == AllClear && !dir.oracle(t).canceled && Looks(dir, t + 1) {
      var looked, prefix := AtLook(dir, dir.Meets(d, t), t + 1), TempPrefix(dir.world.target);
      var last := dir.LastDraw(prefix, looked, t + 3, DRAWS);
      if dir.world.target !in looked.live && dir.Creates(prefix, last) {
        var temp, ino := prefix + dir.oracle(last.turn).entropy, dir.oracle(last.turn).count;
        var created := Apply(dir.world, last.disk, Create(dir.me, temp, ino));
        FillSucceeds(dir, created, last.turn + 1, ino, data);
      }
    }
  }

  lemma FillSucceeds(dir: Directory, d: Disk, t: nat, ino: nat, data: seq<byte>)
    ensures
      var ending, filled := FillEnding(dir, d, t, ino, data), Filled(dir, d, t, ino, data);
      && (ending.Success? <==>
            Fills(dir, t, data) && Seals(dir, filled, t + 4, ino) && Publishes(dir, SealedDisk(dir, filled, t + 4, ino), t + 10))
      && (ending.Success? ==> ending.turn == t + 21)
  {
    hide Filled, Inspected, Closed, InstallEnding, Publishes, Cleaned;
    var filled := Filled(dir, d, t, ino, data);
    InstallSucceeds(dir, SealedDisk(dir, filled, t + 4, ino), t + 10);
  }

  lemma InstallSucceeds(dir: Directory, d: Disk, t: nat)
    ensures InstallEnding(dir, d, t).Success? <==> Publishes(dir, d, t)
    ensures InstallEnding(dir, d, t).Success? ==> InstallEnding(dir, d, t).turn == t + 11
  {
    hide AtLink, Cleaned, Leaves;
    BasicLeaves();
  }
}
