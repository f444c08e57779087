/** Crashes between steps: after recovery writers go on, and every promise still holds. */
module CrashRecovery {
  import opened GoNumbers
  import opened DurableDisk

  /**
   `e` may be the disk after a crash and recovery: some entries that survive, all of them
   durable now and leading to files, each file with its owner and, if synced, its contents.
   */
  ghost predicate Recovers(d: Disk, e: Disk) {
    && e.tampered == d.tampered
    && MayRecover(d, e.live) && e.durable == e.live && e.pending == []
    && (forall n :: n in e.live ==> e.live[n] in e.inodes)
    && (forall ino :: ino in e.inodes ==>
          && ino in d.inodes && e.inodes[ino].owner == d.inodes[ino].owner
          && MayRead(d, ino, e.inodes[ino].data)
          && (d.inodes[ino].synced ==> e.inodes[ino] == d.inodes[ino]))
  }

  /** Whatever a crash may bring back are files that exist. */
  ghost predicate Grounded(d: Disk) {
    && (forall n :: n in d.durable ==> d.durable[n] in d.inodes)
    && (forall c <- d.pending :: c.Bound? ==> c.ino in d.inodes)
  }

  lemma StepKeepsGrounded(world: World, d: Disk, a: Action)
    requires Sound(world, d) && Grounded(d) && Allowed(world, d, a) && !a.Tamper?
    ensures Grounded(Apply(world, d, a))
  {
  }

  lemma {:induction false} RunKeepsGrounded(world: World, d: Disk, history: seq<Action>)
    requires Sound(world, d) && Grounded(d)
    requires Legal(world, d, history) && !After(world, d, history).tampered
    ensures Grounded(After(world, d, history))
  {
    hide Sound, Grounded, Allowed;
    if history != [] {
      var before, a := history[..|history| - 1], history[|history| - 1];
      UntamperedBefore(world, After(world, d, before), a);
      RunKeepsSound(world, d, before);
      RunKeepsGrounded(world, d, before);
      StepKeepsGrounded(world, After(world, d, before), a);
    }
  }

  /** There is always something to recover: the entries as last synced. */
  lemma SomethingRecovers(world: World, d: Disk)
    requires Sound(world, d) && Grounded(d)
    ensures Recovers(d, d.(live := d.durable, pending := []))
  {
  }

  /** Recovery from a sound disk is sound; its target is the one that was live, and a durable one is there. */
  lemma RecoveryKeepsSound(world: World, d: Disk, e: Disk)
    requires Sound(world, d) && Recovers(d, e)
    ensures Sound(world, e) && Grounded(e)
    ensures forall ino :: IsTarget(world, e, ino) ==> IsTarget(world, d, ino) && e.inodes[ino] == d.inodes[ino]
    ensures world.target in d.durable ==> IsTarget(world, e, d.durable[world.target])
  {
  }

  // ---- Lives of a directory ---------------------------------------------------

  datatype Event = Step(action: Action) | Crash(recovered: Disk)

  ghost predicate MayHappen(world: World, d: Disk, event: Event) {
    match event
    case Step(a) => d.tampered || Allowed(world, d, a)
    case Crash(e) => Recovers(d, e)
  }

  ghost function Happen(world: World, d: Disk, event: Event): Disk {
    match event
    case Step(a) => Apply(world, d, a)
    case Crash(e) => e
  }

  ghost function Later(world: World, d: Disk, events: seq<Event>): Disk
    decreases |events|
  {
    if events == [] then d else Later(world, Happen(world, d, events[0]), events[1..])
  }

  /** Steps of any writers, in any order, with any number of crashes between them. */
  ghost predicate Life(world: World, d: Disk, events: seq<Event>)
    decreases |events|
  {
    events != [] ==> MayHappen(world, d, events[0]) && Life(world, Happen(world, d, events[0]), events[1..])
  }

  lemma {:induction false} TamperedStays(world: World, d: Disk, events: seq<Event>)
    requires d.tampered && Life(world, d, events)
    ensures Later(world, d, events).tampered
    decreases |events|
  {
    if events != [] {
      TamperedStays(world, Happen(world, d, events[0]), events[1..]);
    }
  }

  lemma EventKeepsSound(world: World, d: Disk, event: Event)
    requires Sound(world, d) && Grounded(d) && MayHappen(world, d, event)
    requires !Happen(world, d, event).tampered
    ensures !d.tampered && Sound(world, Happen(world, d, event)) && Grounded(Happen(world, d, event))
  {
    hide Sound, Grounded, Allowed;
    match event
    case Step(a) =>
      UntamperedBefore(world, d, a);
      StepKeepsSound(world, d, a);
      StepKeepsGrounded(world, d, a);
    case Crash(e) =>
      RecoveryKeepsSound(world, d, e);
  }

  /** Over every life, crashes included, the disk stays sound: a target, when there is one, is whole. */
  lemma {:induction false} LifeKeepsSound(world: World, d: Disk, events: seq<Event>)
    requires Sound(world, d) && Grounded(d)
    requires Life(world, d, events) && !Later(world, d, events).tampered
    ensures var e := Later(world, d, events);
      && !d.tampered && Sound(world, e) && Grounded(e)
      && (world.target in e.live ==> Complete(world, e, e.live[world.target]))
    decreases |events|
  {
    hide Sound, Grounded, MayHappen, Happen;
    if events == [] {
      TargetIsComplete(world, d);
    } else {
      var next := Happen(world, d, events[0]);
      if next.tampered {
        TamperedStays(world, next, events[1..]);
      }
      EventKeepsSound(world, d, events[0]);
      LifeKeepsSound(world, next, events[1..]);
    }
  }

  lemma TargetIsComplete(world: World, d: Disk)
    requires Sound(world, d)
    ensures world.target in d.live ==> Complete(world, d, d.live[world.target])
  {
  }

  /** `ino` is the target now and after any crash, it is writer `w`'s, and no other name leads to it. */
  ghost predicate Settled(world: World, d: Disk, w: nat, ino: nat) {
    && IsTarget(world, d, ino) && Owns(d, w, ino)
    && world.target in d.durable && d.durable[world.target] == ino
    && !Lingers(world, d, ino)
  }

  lemma EventKeepsSettled(world: World, d: Disk, event: Event, w: nat, ino: nat)
    requires Sound(world, d) && Settled(world, d, w, ino)
    requires MayHappen(world, d, event) && !d.tampered && !Happen(world, d, event).tampered
    ensures Settled(world, Happen(world, d, event), w, ino)
  {
    match event
    case Step(a) =>
      UntamperedBefore(world, d, a);
      StepKeepsSettled(world, d, a, w, ino);
    case Crash(e) =>
      RecoveryKeepsSettled(world, d, e, w, ino);
  }

  lemma StepKeepsSettled(world: World, d: Disk, a: Action, w: nat, ino: nat)
    requires Sound(world, d) && Settled(world, d, w, ino) && Allowed(world, d, a) && !a.Tamper?
    ensures Settled(world, Apply(world, d, a), w, ino)
  {
  }

  lemma RecoveryKeepsSettled(world: World, d: Disk, e: Disk, w: nat, ino: nat)
    requires Sound(world, d) && Settled(world, d, w, ino) && Recovers(d, e)
    ensures Settled(world, e, w, ino)
  {
    RecoveryKeepsSound(world, d, e);
  }

  /**
   What a successful write promises for good: through every later life, with any number of
   writers and crashes, the target is that writer's file with its whole payload, on stable
   storage, under no other name.
   */
  lemma SuccessIsForever(world: World, me: nat, d: Disk, events: seq<Event>)
    requires Durable(world, me, d) && Sound(world, d) && Grounded(d)
    requires Life(world, d, events) && !Later(world, d, events).tampered
    ensures var e := Later(world, d, events);
      && !d.tampered && Durable(world, me, e)
      && world.target in e.live && e.live[world.target] == d.live[world.target]
      && e.live[world.target] in e.inodes && e.inodes[e.live[world.target]].data == world.payload(me)
  {
    LifeKeepsSound(world, d, events);
    SettledStays(world, d, events, me, d.live[world.target]);
  }

  lemma {:induction false} SettledStays(world: World, d: Disk, events: seq<Event>, w: nat, ino: nat)
    requires Sound(world, d) && Grounded(d) && Settled(world, d, w, ino)
    requires Life(world, d, events) && !Later(world, d, events).tampered
    ensures Settled(world, Later(world, d, events), w, ino)
    decreases |events|
  {
    hide Sound, Grounded, Settled, MayHappen, Happen;
    if events != [] {
      var next := Happen(world, d, events[0]);
      if next.tampered {
        TamperedStays(world, next, events[1..]);
      }
      EventKeepsSound(world, d, events[0]);
      EventKeepsSettled(world, d, events[0], w, ino);
      SettledStays(world, next, events[1..], w, ino);
    }
  }

  /** Whoever finds the target to be theirs after a writer's success, across crashes, is that writer. */
  lemma OneInstallerForever(world: World, first: nat, second: nat, d: Disk, events: seq<Event>)
    requires Durable(world, first, d) && Sound(world, d) && Grounded(d)
    requires Life(world, d, events) && !Later(world, d, events).tampered
    requires TargetIsMine(world, second, Later(world, d, events))
    ensures first == second
  {
    SuccessIsForever(world, first, d, events);
  }
}
