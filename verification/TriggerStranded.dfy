/** Locked targets that nobody will unlock: which steps leave one behind, in every run, and
    runs that do. */
module TriggerStranded {
  import opened Common
  import opened Timespec
  import opened TriggerModel
  import opened TriggerEffects
  import opened TriggerRuns
  import opened TriggerTheorems
  import opened TriggerPending

  /** Every locked target has a reader: its own, or for a shared target one of the group. */
  predicate LockedHasReader(c: Core) {
    OwnReaders(c.targets) && (HasShared(c.targets, Locked) ==> AnyLocked(c.targets))
  }

  predicate OwnReaders(ts: seq<Target>) {
    forall i :: 0 <= i < |ts| && ts[i].state == Locked && ts[i].mode != Shared ==> ts[i].lockCount > 0
  }

  /** The step makes a reader of target i leave. */
  predicate Leaves(s: System, step: Step, i: TargetId) {
    || (step.DoUnlock? && step.client < |s.clients| && s.clients[step.client] == Holding(i))
    || (step.DoWake? && step.client < |s.clients|
        && s.clients[step.client].Waiting? && s.clients[step.client].target == i
        && !Ready(s.core.targets[i].state) && step.timedOut
        && (step.pollFails || Eq(s.clients[step.client].waiter.tick, s.clients[step.client].waiter.deadline)))
  }

  /** Without target i the group is invalid and nobody reads it. */
  predicate InvalidWithout(c: Core, i: TargetId) {
    OtherShared(c, i, Locked) && (OtherShared(c, i, Armed) || OtherShared(c, i, Busy)) && !OtherLocked(c, i)
  }

  /** The mode changes that leave a target locked without a reader: of a locked target that has
      none of its own, and of the one target that is read in an invalid group. */
  predicate ModeStrands(c: Core, i: TargetId, mode: Mode) {
    mode != Shared && ((c.targets[i].state == Locked && c.targets[i].lockCount == 0) || InvalidWithout(c, i))
  }

  /** The last reader of an invalid group. */
  predicate LastOfInvalid(c: Core, i: TargetId) {
    && c.shared.state == SharedInvalid && c.targets[i].mode == Shared
    && c.targets[i].lockCount == 1 && !OtherLocked(c, i)
  }

  /** The steps that leave a target locked with nobody to unlock it. */
  predicate Strands(s: System, step: Step) {
    (step.DoSetMode? && ModeStrands(s.core, step.target, step.mode)) ||
    (exists i: TargetId :: Leaves(s, step, i) && LastOfInvalid(s.core, i))
  }

  /** Recomputing the shared state strands a target only in an invalid group without readers. */
  lemma UpdateReaders(c: Core)
    ensures LockedHasReader(UpdateGlobal(c)) <==>
            OwnReaders(c.targets) && !(GlobalState(c.targets) == SharedInvalid && !AnyLocked(c.targets))
  {
    hide HasShared, AnyLocked;
    var r := UpdateGlobal(c);
    UpdateGlobalEffect(c);
    SameLocked(c, r);
    UpdateUnshared(c);
    StateMeans(c.targets);
    StateMeans(r.targets);
    UpdateInvalid(c);
  }

  lemma StateMeans(ts: seq<Target>)
    ensures HasShared(ts, Locked) <==> GlobalState(ts) == SharedLocked || GlobalState(ts) == SharedInvalid
  {
  }

  lemma UpdateUnshared(c: Core)
    ensures OwnReaders(UpdateGlobal(c).targets) <==> OwnReaders(c.targets)
    ensures GlobalState(c.targets) == SharedInvalid ==> UpdateGlobal(c).targets == c.targets
  {
    var r := UpdateGlobal(c);
    UpdateGlobalEffect(c);
    if OwnReaders(r.targets) {
      forall i | 0 <= i < |c.targets| && c.targets[i].state == Locked && c.targets[i].mode != Shared
        ensures c.targets[i].lockCount > 0
      {
        assert r.targets[i] == c.targets[i];
      }
    }
  }

  lemma ArmReaders(c: Core, i: TargetId)
    requires Consistent(c) && LockedHasReader(c)
    ensures LockedHasReader(ArmShared(c)) && LockedHasReader(ArmTarget(c, i))
  {
    hide ArmOne;
    ArmSharedEffect(c);
    SharedReaders(c, ArmShared(c));
    if c.targets[i].mode != Shared {
      ArmOneReaders(c, i);
    }
  }

  lemma SharedReaders(c: Core, r: Core)
    requires LockedHasReader(c) && SharedEffect(c, r) && Consistent(r)
    requires r.targets == c.targets || r.shared.state != SharedInvalid
    ensures LockedHasReader(r)
  {
    if r.targets != c.targets {
      StateMeans(r.targets);
    }
  }

  lemma ArmOneReaders(c: Core, i: TargetId)
    requires LockedHasReader(c) && c.targets[i].mode != Shared
    ensures LockedHasReader(ArmOne(c, i))
  {
    UnsharedReaders(c, ArmOne(c, i), i);
  }

  /** A change of one target that is not shared. */
  lemma UnsharedReaders(c: Core, r: Core, i: TargetId)
    requires LockedHasReader(c) && c.targets[i].mode != Shared
    requires r.targets == c.targets[i := r.targets[i]] && r.targets[i].mode != Shared
    requires r.targets[i].state == Locked ==> r.targets[i].lockCount > 0
    ensures LockedHasReader(r)
  {
    UnsharedChange(c.targets, r.targets);
    StateMeans(c.targets);
    StateMeans(r.targets);
  }

  lemma DisarmReaders(c: Core, i: TargetId)
    requires LockedHasReader(c)
    ensures LockedHasReader(DisarmShared(c)) && LockedHasReader(DisarmTarget(c, i))
  {
    DisarmSharedStays(c);
    assert LockedHasReader(DisarmShared(c));
    if c.targets[i].mode != Shared {
      UnsharedReaders(c, DisarmTarget(c, i), i);
    }
  }

  /** A shared target that becomes armed, busy or idle. */
  lemma StateReaders(c: Core, c1: Core, i: TargetId)
    requires LockedHasReader(c)
    requires c1.targets == c.targets[i := c1.targets[i]]
    requires c1.targets[i].mode == c.targets[i].mode && c1.targets[i].lockCount == c.targets[i].lockCount
    requires c1.targets[i].state != Locked
    ensures LockedHasReader(c1) && LockedHasReader(UpdateGlobal(c1))
  {
    hide UpdateGlobal;
    SameLocked(c, c1);
    assert HasShared(c1.targets, Locked) ==> HasShared(c.targets, Locked);
    UpdateReaders(c1);
    StateMeans(c1.targets);
  }

  lemma EventReaders(c: Core, i: TargetId)
    requires Consistent(c) && LockedHasReader(c)
    ensures LockedHasReader(Trigger(c, i)) && LockedHasReader(Complete(c, i)) && LockedHasReader(ImmediateCapture(c))
  {
    hide UpdateGlobal, ArmOne, LockedHasReader;
    StateReaders(c, SetState(c, i, Busy), i);
    StateReaders(c, SetState(c, i, Idle), i);
    if CaptureReady(c) {
      StateReaders(c, CaptureStarted(c), DRAM);
    }
    if c.targets[i].mode != Shared {
      ArmOneReaders(SetState(c, i, Idle), i);
      LogReaders(ArmOne(SetState(c, i, Idle), i));
    }
  }

  lemma LogReaders(c: Core)
    ensures forall log :: LockedHasReader(c.(log := log)) <==> LockedHasReader(c)
  {
  }

  lemma SetModeReaders(c: Core, i: TargetId, mode: Mode)
    requires LockedHasReader(c)
    ensures LockedHasReader(SetMode(c, i, mode)) <==> !ModeStrands(c, i, mode)
  {
    hide UpdateGlobal, OtherShared, OtherLocked, HasShared, AnyLocked, Remoded;
    var c1 := Remoded(c, i, mode);
    RemodedIs(c, i, mode);
    UpdateReaders(c1);
    SharedElsewhere(c, i, mode, Locked);
    SharedElsewhere(c, i, mode, Armed);
    SharedElsewhere(c, i, mode, Busy);
    SharedHere(c, i, Locked);
    MembersElsewhere(c, i, mode);
    RemodedReaders(c, i, mode);
  }

  lemma RemodedReaders(c: Core, i: TargetId, mode: Mode)
    requires OwnReaders(c.targets)
    ensures OwnReaders(Remoded(c, i, mode).targets) <==>
            (mode != Shared && c.targets[i].state == Locked ==> c.targets[i].lockCount > 0)
  {
    var ts := Remoded(c, i, mode).targets;
    assert ts[i].mode == mode && ts[i].state == c.targets[i].state && ts[i].lockCount == c.targets[i].lockCount;
    assert forall j: TargetId :: j != i ==> ts[j] == c.targets[j];
  }

  /** A reader that leaves strands a target exactly if it is the last one of an invalid group. */
  lemma ReleaseReaders(c: Core, i: TargetId)
    requires Consistent(c) && LockedHasReader(c) && c.targets[i].lockCount > 0
    ensures LockedHasReader(Release(c, i)) <==> !LastOfInvalid(c, i)
  {
    hide UpdateGlobal, AnyLocked, OtherLocked, HasShared, OtherShared;
    var c1 := CountDown(c, i);
    CountedDown(c, i);
    SharedHere(c1, i, Locked);
    SharedHere(c, i, Locked);
    if c1.targets[i].mode != Shared {
      if c1.targets[i].lockCount == 0 && c1.targets[i].state == Locked {
        UnsharedReaders(c, ArmOne(c1, i), i);
      } else {
        UnsharedReaders(c, c1, i);
      }
    } else {
      StateMeans(c.targets);
      UpdateReaders(c1);
    }
  }

  lemma CountedDown(c: Core, i: TargetId)
    requires c.targets[i].lockCount > 0
    ensures var c1 := CountDown(c, i);
            && c1 == c.(targets := c.targets[i := c.targets[i].(lockCount := c.targets[i].lockCount - 1)])
            && GlobalState(c1.targets) == GlobalState(c.targets)
            && (HasShared(c1.targets, Locked) <==> HasShared(c.targets, Locked))
            && (OtherLocked(c1, i) <==> OtherLocked(c, i))
            && (c.targets[i].mode == Shared ==> (OwnReaders(c1.targets) <==> OwnReaders(c.targets)))
  {
    var c1 := CountDown(c, i);
    SameStates(c.targets, c1.targets);
    StateMeans(c.targets);
    StateMeans(c1.targets);
    assert forall j: TargetId :: j != i ==> c1.targets[j] == c.targets[j];
  }

  lemma LockReaders(s: System, step: Step)
    requires Inv(s) && LockedHasReader(s.core) && step.DoLock?
    ensures LockedHasReader(Next(s, step).core)
  {
    hide LockedHasReader, Consistent;
    var c, r := s.core, Next(s, step).core;
    InvNext(s, step);
    LockNet(s, step, step.target);
    if r != c {
      CountedUp(c, r, step.target);
    }
  }

  lemma CountedUp(c: Core, r: Core, i: TargetId)
    requires Consistent(r) && LockedHasReader(c)
    requires r == CountUp(c, i) && r.targets[i].lockCount > 0
    ensures LockedHasReader(r)
  {
    SameStates(c.targets, r.targets);
    StateMeans(c.targets);
    StateMeans(r.targets);
    if AnyLocked(c.targets) {
      var k :| 0 <= k < |c.targets| && c.targets[k].mode == Shared && c.targets[k].lockCount > 0;
      assert r.targets[k].mode == Shared && r.targets[k].lockCount > 0;
    }
  }

  /** In every state of every run, a step leaves a target locked without a reader exactly if
      it is one of these. */
  lemma LockedHasReaderStep(s: System, step: Step)
    requires Inv(s) && LockedHasReader(s.core)
    ensures LockedHasReader(Next(s, step).core) <==> !Strands(s, step)
  {
    hide LockedHasReader, ArmTarget, ArmShared, DisarmShared, DisarmTarget, Trigger, Complete, SetMode, ImmediateCapture, Release, LastOfInvalid, ModeStrands, InvalidWithout;
    var c := s.core;
    match step
    case DoArm(j) => ArmReaders(c, j);
    case DoArmShared => ArmReaders(c, 0);
    case DoDisarm(j) => DisarmReaders(c, j);
    case DoDisarmShared => DisarmReaders(c, 0);
    case DoTrigger(j) => EventReaders(c, j);
    case DoComplete(j) => EventReaders(c, j);
    case DoImmediateCapture => EventReaders(c, 0);
    case DoSetMode(j, mode) => SetModeReaders(c, j, mode);
    case DoSetRetrigger(b) => RetriggerReaders(c, b);
    case DoLock(_, _, _, _) => LockReaders(s, step);
    case DoWake(n, _, _) => LeaveReaders(s, step, n);
    case DoUnlock(n) => LeaveReaders(s, step, n);
  }

  lemma RetriggerReaders(c: Core, b: bool)
    ensures LockedHasReader(SetRetrigger(c, b)) <==> LockedHasReader(c)
  {
  }

  lemma LeaveReaders(s: System, step: Step, n: nat)
    requires Inv(s) && LockedHasReader(s.core)
    requires (step.DoWake? || step.DoUnlock?) && step.client == n
    ensures LockedHasReader(Next(s, step).core) <==> !Strands(s, step)
  {
    hide LockedHasReader, Release, LastOfInvalid, ModeStrands, Consistent;
    if n < |s.clients| && !s.clients[n].Free? {
      var i := s.clients[n].target;
      HeldCount(s, n);
      ReleaseReaders(s.core, i);
      assert forall j: TargetId :: Leaves(s, step, j) ==> j == i;
    }
  }

  /** In every run whose steps never strand a target, every locked target keeps a reader whose
      unlock, or the last unlock of whose group, will end the wait. */
  lemma {:induction false} LockedHasReaderRun(s: System, steps: seq<Step>)
    requires Inv(s) && LockedHasReader(s.core)
    requires forall k :: 0 <= k < |steps| ==> !Strands(Execute(s, steps[..k]), steps[k])
    ensures LockedHasReader(Execute(s, steps).core)
    decreases |steps|
  {
    hide LockedHasReader, Strands;
    if steps != [] {
      var s1 := Next(s, steps[0]);
      assert steps[..0] == [] && !Strands(s, steps[0]);
      LockedHasReaderStep(s, steps[0]);
      InvNext(s, steps[0]);
      forall k | 0 <= k < |steps| - 1 ensures !Strands(Execute(s1, steps[1..][..k]), steps[1..][k]) {
        assert steps[..k + 1][1..] == steps[1..][..k];
        assert Execute(s, steps[..k + 1]) == Execute(s1, steps[1..][..k]);
      }
      LockedHasReaderRun(s1, steps[1..]);
    }
  }

  // ------------------------------------------------------------------------------------
  // Runs that lose a postponed arm

  /** The queries on the group, target by target. */
  lemma ThreeTargets(ts: Targets)
    ensures forall state :: HasShared(ts, state) <==>
              (ts[0].mode == Shared && ts[0].state == state) ||
              (ts[1].mode == Shared && ts[1].state == state) ||
              (ts[2].mode == Shared && ts[2].state == state)
    ensures AnyLocked(ts) <==>
              (ts[0].mode == Shared && ts[0].lockCount > 0) ||
              (ts[1].mode == Shared && ts[1].lockCount > 0) ||
              (ts[2].mode == Shared && ts[2].lockCount > 0)
    ensures AnyShared(ts) <==> ts[0].mode == Shared || ts[1].mode == Shared || ts[2].mode == Shared
  {
  }

  lemma {:induction false} ExecuteAppend(s: System, a: seq<Step>, b: seq<Step>)
    ensures Execute(s, a + b) == Execute(Execute(s, a), b)
    decreases |a|
  {
    if a == [] {
      assert a + b == b;
    } else {
      assert (a + b)[1..] == a[1..] + b;
      ExecuteAppend(Next(s, a[0]), a[1..], b);
    }
  }

  lemma ExecuteTwo(s: System, a: Step, b: Step)
    ensures Execute(s, [a, b]) == Next(Next(s, a), b)
  {
    assert [a, b][1..] == [b];
    assert Execute(Next(s, a), [b]) == Next(Next(s, a), b);
  }

  lemma ThenTwo(s: System, steps: seq<Step>, s1: System, a: Step, s2: System, b: Step, s3: System)
    requires Execute(s, steps) == s1 && Next(s1, a) == s2 && Next(s2, b) == s3
    ensures Execute(s, steps + [a, b]) == s3
  {
    ExecuteAppend(s, steps, [a, b]);
    ExecuteTwo(s1, a, b);
  }

  const ZERO: Instant := Time(0, 0)
  const RESTING := Target(OneShot, false, Idle, 0)

  /** Targets a and b are shared, a is read by the only client, and a shared arm is pending. */
  function OneReader(a: TargetId, b: TargetId): System {
    System(Core([RESTING, RESTING, RESTING][a := Target(Shared, false, Locked, 1)][b := Target(Shared, false, Idle, 0)],
                SharedTrigger(false, false, SharedLocked), []), [Holding(a)])
  }

  function Pairing(a: TargetId, b: TargetId): seq<Step> {
    [DoSetMode(a, Shared), DoSetMode(b, Shared)]
  }

  /** The steps that lead there from the start. */
  function ArmedWhileRead(a: TargetId, b: TargetId): seq<Step> {
    Pairing(a, b) + [DoLock(0, a, 0, ZERO), DoArmShared]
  }

  /** And with two targets that are both read. */
  function ArmedWhileBothRead(): seq<Step> {
    Pairing(0, 1) + [DoLock(0, 0, 0, ZERO), DoLock(1, 1, 0, ZERO)] + [DoArmShared]
  }

  lemma PairBegins(a: TargetId, b: TargetId, s: System, threads: nat)
    requires a != b && s == Initial(threads)
    ensures Execute(s, Pairing(a, b)) ==
            s.(core := Core([RESTING, RESTING, RESTING][a := RESTING.(mode := Shared)][b := RESTING.(mode := Shared)],
                            SharedTrigger(false, true, SharedIdle), []))
  {
    ExecuteTwo(s, DoSetMode(a, Shared), DoSetMode(b, Shared));
    assert s.core.targets == [RESTING, RESTING, RESTING];
    var one: Targets := [RESTING, RESTING, RESTING][a := RESTING.(mode := Shared)];
    var two: Targets := one[b := RESTING.(mode := Shared)];
    RestingPair(one);
    RestingPair(two);
    hide UpdateGlobal, Execute;
    assert SetMode(s.core, a, Shared) == s.core.(targets := one);
    assert SetMode(s.core.(targets := one), b, Shared) == s.core.(targets := two);
  }

  lemma RestingPair(ts: Targets)
    requires forall i: TargetId :: ts[i].state == Idle
    ensures var c := Core(ts, SharedTrigger(false, true, SharedIdle), []); UpdateGlobal(c) == c
  {
    ThreeTargets(ts);
  }

  /** A shared arm while the first of two resting shared targets is being read. */
  lemma ReadWhenArmed(a: TargetId, b: TargetId)
    requires a != b
    ensures ArmShared(Core([RESTING, RESTING, RESTING][a := Target(Shared, false, Idle, 1)][b := Target(Shared, false, Idle, 0)],
                           SharedTrigger(false, true, SharedIdle), [])) == OneReader(a, b).core
  {
    hide HasShared, AnyLocked, AnyShared, SharedMask, Prepares, ArmedAll, DisarmedAll, SharedStops, CountOn;
    var ts: Targets := [RESTING, RESTING, RESTING][a := Target(Shared, false, Idle, 1)][b := Target(Shared, false, Idle, 0)];
    ThreeTargets(ts);
    assert LockHeldAll(ts) == OneReader(a, b).core.targets;
  }

  /** A pair of shared targets, the first of which is read when a shared arm is asked for. */
  lemma OneReaderBegins(a: TargetId, b: TargetId)
    requires a != b
    ensures Execute(Initial(1), ArmedWhileRead(a, b)) == OneReader(a, b)
  {
    hide ArmShared, SetMode;
    var s := Initial(1);
    var s2 := Execute(s, Pairing(a, b));
    PairBegins(a, b, s, 1);
    ExecuteAppend(s, Pairing(a, b), [DoLock(0, a, 0, ZERO), DoArmShared]);
    ExecuteTwo(s2, DoLock(0, a, 0, ZERO), DoArmShared);
    hide Execute;
    var s3 := Next(s2, DoLock(0, a, 0, ZERO));
    assert s2.clients == [Free] && s3.clients == [Holding(a)];
    assert s3.core.targets ==
           [RESTING, RESTING, RESTING][a := Target(Shared, false, Idle, 1)][b := Target(Shared, false, Idle, 0)];
    ReadWhenArmed(a, b);
  }

  const PARTED: Targets := [Target(OneShot, false, Locked, 1), Target(Shared, false, Idle, 0), RESTING]

  lemma PartedMode()
    ensures SetMode(OneReader(0, 1).core, 0, OneShot) == Core(PARTED, SharedTrigger(false, false, SharedIdle), [])
    ensures LeavesNoneLocked(OneReader(0, 1).core, DoSetMode(0, OneShot))
  {
    hide HasShared, AnyLocked, AnyShared, SharedMask, Prepares, ArmedAll, LockHeldAll;
    assert Remoded(OneReader(0, 1).core, 0, OneShot).targets == PARTED;
    ThreeTargets(PARTED);
  }

  lemma PartedUnlock()
    ensures Release(Core(PARTED, SharedTrigger(false, false, SharedIdle), []), 0) ==
            Core([Target(OneShot, false, Armed, 0), Target(Shared, false, Idle, 0), RESTING],
                 SharedTrigger(false, false, SharedIdle), [Prepare(0), ArmPulse({0})])
  {
    hide UpdateGlobal, ArmShared;
    assert PARTED[0].lockCount == 1;
  }

  /** Targets 0 and 1 are shared, target 0 is being read, and the group is to be armed later.
      Then target 0 is made one-shot: the unlock arms it alone, and target 1 stays idle. */
  lemma PartingRun()
    ensures var s := Execute(Initial(1), ArmedWhileRead(0, 1));
            s == OneReader(0, 1) && LeavesNoneLocked(s.core, DoSetMode(0, OneShot))
    ensures Execute(Initial(1), ArmedWhileRead(0, 1) + [DoSetMode(0, OneShot), DoUnlock(0)]) ==
            System(Core([Target(OneShot, false, Armed, 0), Target(Shared, false, Idle, 0), RESTING],
                        SharedTrigger(false, false, SharedIdle), [Prepare(0), ArmPulse({0})]), [Free])
  {
    OneReaderBegins(0, 1);
    PartedMode();
    PartedNext();
    hide Execute, Next, OneReader, LeavesNoneLocked, ArmedWhileRead;
    ThenTwo(Initial(1), ArmedWhileRead(0, 1), OneReader(0, 1), DoSetMode(0, OneShot),
            System(Core(PARTED, SharedTrigger(false, false, SharedIdle), []), [Holding(0)]), DoUnlock(0),
            System(Core([Target(OneShot, false, Armed, 0), Target(Shared, false, Idle, 0), RESTING],
                        SharedTrigger(false, false, SharedIdle), [Prepare(0), ArmPulse({0})]), [Free]));
  }

  lemma PartedNext()
    ensures var s := System(Core(PARTED, SharedTrigger(false, false, SharedIdle), []), [Holding(0)]);
            && Next(OneReader(0, 1), DoSetMode(0, OneShot)) == s
            && Next(s, DoUnlock(0)) ==
               System(Core([Target(OneShot, false, Armed, 0), Target(Shared, false, Idle, 0), RESTING],
                           SharedTrigger(false, false, SharedIdle), [Prepare(0), ArmPulse({0})]), [Free])
  {
    hide SetMode, Release;
    PartedMode();
    PartedUnlock();
  }

  function Captured(count: Word): Core {
    Core([Target(Shared, false, Locked, count), RESTING, Target(Shared, true, Armed, 0)],
         SharedTrigger(false, false, SharedInvalid), [CaptureStart, FirePulse({DRAM})])
  }

  lemma CapturedState(count: Word)
    ensures UpdateGlobal(Captured(count)) == Captured(count)
    ensures UpdateGlobal(Captured(count).(shared := SharedTrigger(false, false, SharedLocked))) == Captured(count)
    ensures count == 0 ==> !AnyLocked(Captured(count).targets) && !LockedHasReader(Captured(count))
  {
    hide HasShared, AnyLocked, AnyShared, SharedMask, Prepares, ArmedAll, DisarmedAll, SharedStops, CountOn;
    ThreeTargets(Captured(count).targets);
  }

  lemma CapturedSteps()
    ensures ImmediateCapture(OneReader(0, DRAM).core) == Captured(1)
    ensures Release(Captured(1), 0) == Captured(0)
  {
    hide UpdateGlobal, ArmTarget, AnyLocked, LockedHasReader;
    CapturedState(1);
    CapturedState(0);
    assert CaptureStarted(OneReader(0, DRAM).core) == Captured(1).(shared := SharedTrigger(false, false, SharedLocked));
    assert CountDown(Captured(1), 0) == Captured(0);
  }

  /** Target 0 and the memory target are shared, target 0 is being read, and the group is to be
      armed later.  Then a capture is started at once: the shared state is invalid, the last
      reader's unlock arms nothing, and target 0 stays locked with no reader at all. */
  lemma CapturedRun()
    ensures var s := Execute(Initial(1), ArmedWhileRead(0, DRAM));
            s == OneReader(0, DRAM) && CapturesMember(s.core, DoImmediateCapture)
    ensures Execute(Initial(1), ArmedWhileRead(0, DRAM) + [DoImmediateCapture, DoUnlock(0)]) == System(Captured(0), [Free])
    ensures !LockedHasReader(Captured(0)) && !AnyLocked(Captured(0).targets)
  {
    OneReaderBegins(0, DRAM);
    CapturedNext();
    CapturedState(0);
    hide Execute, Next, OneReader, Captured, LockedHasReader, AnyLocked, ArmedWhileRead;
    ThenTwo(Initial(1), ArmedWhileRead(0, DRAM), OneReader(0, DRAM), DoImmediateCapture,
            System(Captured(1), [Holding(0)]), DoUnlock(0), System(Captured(0), [Free]));
  }

  lemma CapturedNext()
    ensures Next(OneReader(0, DRAM), DoImmediateCapture) == System(Captured(1), [Holding(0)])
    ensures Next(System(Captured(1), [Holding(0)]), DoUnlock(0)) == System(Captured(0), [Free])
    ensures CapturesMember(OneReader(0, DRAM).core, DoImmediateCapture)
  {
    hide ImmediateCapture, Release;
    CapturedSteps();
  }

  /** Two shared targets with a postponed arm and one reader each; the memory target idle. */
  function TwoLocked(mode: Mode, count: Word): Core {
    Core([Target(mode, false, Locked, count), Target(Shared, false, Locked, 1), RESTING],
         SharedTrigger(false, false, SharedLocked), [])
  }

  function TwoRead(): Core {
    Core([Target(Shared, false, Idle, 1), Target(Shared, false, Idle, 1), RESTING], SharedTrigger(false, true, SharedIdle), [])
  }

  lemma TwoReadArm()
    ensures ArmShared(TwoRead()) == TwoLocked(Shared, 1)
  {
    hide HasShared, AnyLocked, AnyShared, SharedMask, Prepares, ArmedAll, DisarmedAll, SharedStops, CountOn;
    ThreeTargets(TwoRead().targets);
    assert LockHeldAll(TwoRead().targets) == TwoLocked(Shared, 1).targets;
  }

  lemma TwoReadersBegin()
    ensures Execute(Initial(2), ArmedWhileBothRead()) == System(TwoLocked(Shared, 1), [Holding(0), Holding(1)])
  {
    hide ArmShared, SetMode;
    var s := Initial(2);
    var locks := [DoLock(0, 0, 0, ZERO), DoLock(1, 1, 0, ZERO)];
    PairBegins(0, 1, s, 2);
    ExecuteAppend(s, Pairing(0, 1), locks);
    ExecuteAppend(s, Pairing(0, 1) + locks, [DoArmShared]);
    var s2 := Execute(s, Pairing(0, 1));
    ExecuteTwo(s2, locks[0], locks[1]);
    var s4 := Next(Next(s2, locks[0]), locks[1]);
    assert Execute(s4, [DoArmShared]) == Next(s4, DoArmShared);
    hide Execute;
    assert s2.clients == [Free, Free];
    TwoLocks(s2);
    TwoReadArm();
  }

  lemma TwoLocks(s: System)
    requires s.clients == [Free, Free]
    requires s.core == TwoRead().(targets := [RESTING, RESTING, RESTING][0 := RESTING.(mode := Shared)][1 := RESTING.(mode := Shared)])
    ensures Next(Next(s, DoLock(0, 0, 0, ZERO)), DoLock(1, 1, 0, ZERO)) == System(TwoRead(), [Holding(0), Holding(1)])
  {
    var s1 := Next(s, DoLock(0, 0, 0, ZERO));
    assert s1.core.targets == [Target(Shared, false, Idle, 1), Target(Shared, false, Idle, 0), RESTING];
  }

  lemma TwoLockedState(mode: Mode)
    ensures UpdateGlobal(TwoLocked(mode, 0)) == TwoLocked(mode, 0)
    ensures mode != Shared ==> !LockedHasReader(TwoLocked(mode, 0))
  {
    hide HasShared, AnyLocked, AnyShared, SharedMask, Prepares, ArmedAll, DisarmedAll, SharedStops, CountOn;
    ThreeTargets(TwoLocked(mode, 0).targets);
    assert TwoLocked(mode, 0).targets[0].state == Locked;
  }

  lemma StrandingSteps()
    ensures Release(TwoLocked(Shared, 1), 0) == TwoLocked(Shared, 0)
    ensures SetMode(TwoLocked(Shared, 0), 0, OneShot) == TwoLocked(OneShot, 0)
  {
    hide UpdateGlobal, ArmTarget, LockedHasReader;
    TwoLockedState(Shared);
    TwoLockedState(OneShot);
    assert CountDown(TwoLocked(Shared, 1), 0) == TwoLocked(Shared, 0);
    assert Remoded(TwoLocked(Shared, 0), 0, OneShot) == TwoLocked(OneShot, 0);
  }

  /** Two readers, and a shared arm postponed for both.  The first one unlocks and its target is
      then made one-shot: the target is left locked with nobody to unlock it. */
  lemma StrandingRun()
    ensures Execute(Initial(2), ArmedWhileBothRead()) == System(TwoLocked(Shared, 1), [Holding(0), Holding(1)])
    ensures Execute(Initial(2), ArmedWhileBothRead() + [DoUnlock(0), DoSetMode(0, OneShot)]) ==
            System(TwoLocked(OneShot, 0), [Free, Holding(1)])
    ensures !LockedHasReader(TwoLocked(OneShot, 0))
  {
    TwoReadersBegin();
    StrandingNext();
    TwoLockedState(OneShot);
    hide Execute, Next, TwoLocked, LockedHasReader, ArmedWhileBothRead;
    ThenTwo(Initial(2), ArmedWhileBothRead(), System(TwoLocked(Shared, 1), [Holding(0), Holding(1)]), DoUnlock(0),
            System(TwoLocked(Shared, 0), [Free, Holding(1)]), DoSetMode(0, OneShot),
            System(TwoLocked(OneShot, 0), [Free, Holding(1)]));
  }

  lemma StrandingNext()
    ensures Next(System(TwoLocked(Shared, 1), [Holding(0), Holding(1)]), DoUnlock(0)) ==
            System(TwoLocked(Shared, 0), [Free, Holding(1)])
    ensures Next(System(TwoLocked(Shared, 0), [Free, Holding(1)]), DoSetMode(0, OneShot)) ==
            System(TwoLocked(OneShot, 0), [Free, Holding(1)])
  {
    hide SetMode, Release;
    StrandingSteps();
  }
}
