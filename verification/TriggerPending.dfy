/** What becomes of a postponed shared arm: the steps that keep it, carry it out or drop it, in
    every run, and the locked targets that are left behind. */
module TriggerPending {
  import opened Common
  import opened Timespec
  import opened TriggerModel
  import opened TriggerEffects
  import opened TriggerRuns
  import opened TriggerTheorems

  // ------------------------------------------------------------------------------------
  // Carrying out a postponed arm

  /** In one step all shared targets of the result were armed, under one pulse. */
  predicate GroupArmed(c: Core, r: Core) {
    && r.shared.state == SharedArmed
    && Grows(c, r) && NewlyArmed(c, r) == SharedMask(r.targets) != {}
    && Requests(News(c, r), SharedMask(r.targets))
  }

  /** The shared arm is still pending, with a reader to wait for, or it has been carried out
      because there is no reader left. */
  predicate StillPends(c: Core, r: Core) {
    if AnyLocked(r.targets) then r.shared.state == SharedLocked else GroupArmed(c, r)
  }

  /** Arming the group out of an idle or locked shared state without readers. */
  lemma GroupArms(c: Core)
    requires GlobalState(c.targets) == SharedIdle || GlobalState(c.targets) == SharedLocked
    requires !AnyLocked(c.targets) && AnyShared(c.targets) && MustRearm(c.(shared := c.shared.(state := GlobalState(c.targets))))
    ensures GroupArmed(c, UpdateGlobal(c)) && !AnyLocked(UpdateGlobal(c).targets)
  {
    var c2 := c.(shared := c.shared.(state := GlobalState(c.targets)));
    var r := UpdateGlobal(c);
    TogetherEffect(c2);
    assert r == ArmShared(c2);
    assert News(c, r) == News(c2, r);
    assert NewlyArmed(c, r) == NewlyArmed(c2, r);
    assert SharedMask(r.targets) == SharedMask(c.targets);
    SameLocked(c2, r);
  }

  /** The recomputed state of a group from which an arm goes on. */
  predicate GoesOn(c: Core) {
    GlobalState(c.targets) == SharedLocked ||
    (GlobalState(c.targets) == SharedIdle && c.shared.retrigger && !c.shared.dontRearm && AnyShared(c.targets))
  }

  lemma SomeLocked(ts: seq<Target>)
    requires HasShared(ts, Locked) || AnyLocked(ts)
    ensures AnyShared(ts)
  {
    if HasShared(ts, Locked) {
      var k :| 0 <= k < |ts| && ts[k].mode == Shared && ts[k].state == Locked;
      assert ts[k].mode == Shared;
    } else {
      var k :| 0 <= k < |ts| && ts[k].mode == Shared && ts[k].lockCount > 0;
      assert ts[k].mode == Shared;
    }
  }

  /** Recomputing the shared state leaves an arm pending or carries it out exactly from those
      states. */
  lemma UpdatePends(c: Core)
    ensures var r := UpdateGlobal(c);
            && SameModes(c, r) && SameLocks(c, r)
            && (GoesOn(c) ==> StillPends(c, r))
            && (!GoesOn(c) ==> r.shared.state != SharedLocked && !GroupArmed(c, r))
  {
    var r := UpdateGlobal(c);
    UpdateGlobalEffect(c);
    SameLocked(c, r);
    if GoesOn(c) {
      if AnyLocked(c.targets) {
        SomeLocked(c.targets);
      } else {
        if GlobalState(c.targets) == SharedLocked {
          SomeLocked(c.targets);
        }
        GroupArms(c);
      }
    } else {
      assert r.targets == c.targets && r.log == c.log;
    }
  }

  // ------------------------------------------------------------------------------------
  // The steps that drop a postponed arm

  predicate DisarmsGroup(c: Core, step: Step) {
    step.DoDisarmShared? || (step.DoDisarm? && c.targets[step.target].mode == Shared)
  }

  predicate ChangesGroup(c: Core, step: Step) {
    step.DoSetMode? && ((c.targets[step.target].mode == Shared) != (step.mode == Shared))
  }

  /** A shared target other than i in the given state. */
  predicate OtherShared(c: Core, i: TargetId, state: TargetState) {
    exists j: TargetId :: j != i && c.targets[j].mode == Shared && c.targets[j].state == state
  }

  predicate OtherMember(c: Core, i: TargetId) {
    exists j: TargetId :: j != i && c.targets[j].mode == Shared
  }

  predicate OtherLocked(c: Core, i: TargetId) {
    exists j: TargetId :: j != i && c.targets[j].mode == Shared && c.targets[j].lockCount > 0
  }

  /** A target taken out of the group when none of the others is locked, and no rearming takes
      the place of the pending arm. */
  predicate LeavesNoneLocked(c: Core, step: Step) {
    && step.DoSetMode? && step.mode != Shared && c.targets[step.target].mode == Shared
    && !OtherShared(c, step.target, Locked)
    && !(c.shared.retrigger && !c.shared.dontRearm && OtherMember(c, step.target))
  }

  /** An armed or busy target put into the group. */
  predicate JoinsActive(c: Core, step: Step) {
    && step.DoSetMode? && step.mode == Shared && c.targets[step.target].mode != Shared
    && !Ready(c.targets[step.target].state)
  }

  /** A capture started on the memory target as a member of the group. */
  predicate CapturesMember(c: Core, step: Step) {
    step.DoImmediateCapture? && CaptureReady(c) && c.targets[DRAM].mode == Shared
  }

  /** The steps that drop a postponed shared arm. */
  predicate Drops(c: Core, step: Step) {
    DisarmsGroup(c, step) || LeavesNoneLocked(c, step) || JoinsActive(c, step) || CapturesMember(c, step)
  }

  function Remoded(c: Core, i: TargetId, mode: Mode): Core {
    c.(targets := c.targets[i := c.targets[i].(mode := mode)])
  }

  lemma SharedElsewhere(c: Core, i: TargetId, mode: Mode, state: TargetState)
    ensures HasShared(Remoded(c, i, mode).targets, state) <==>
            OtherShared(c, i, state) || (mode == Shared && c.targets[i].state == state)
  {
    var ts := Remoded(c, i, mode).targets;
    if HasShared(ts, state) {
      var k :| 0 <= k < |ts| && ts[k].mode == Shared && ts[k].state == state;
      assert k != i ==> c.targets[k].mode == Shared && c.targets[k].state == state;
    }
    if OtherShared(c, i, state) {
      var j: TargetId :| j != i && c.targets[j].mode == Shared && c.targets[j].state == state;
      assert ts[j].mode == Shared && ts[j].state == state;
    }
    if mode == Shared && c.targets[i].state == state {
      assert ts[i].mode == Shared && ts[i].state == state;
    }
  }

  lemma MembersElsewhere(c: Core, i: TargetId, mode: Mode)
    ensures var ts := Remoded(c, i, mode).targets;
            && (AnyShared(ts) <==> OtherMember(c, i) || mode == Shared)
            && (AnyLocked(ts) <==> OtherLocked(c, i) || (mode == Shared && c.targets[i].lockCount > 0))
  {
    var ts := Remoded(c, i, mode).targets;
    assert ts[i].mode == mode && ts[i].lockCount == c.targets[i].lockCount;
    assert forall j: TargetId :: j != i ==> ts[j] == c.targets[j];
    if OtherLocked(c, i) {
      var j: TargetId :| j != i && c.targets[j].mode == Shared && c.targets[j].lockCount > 0;
      assert ts[j].mode == Shared && ts[j].lockCount > 0;
    }
    if OtherMember(c, i) {
      var j: TargetId :| j != i && c.targets[j].mode == Shared;
      assert ts[j].mode == Shared;
    }
  }

  /** What a group looks like with one target taken aside: the mode it has is that target's
      own. */
  lemma SharedHere(c: Core, i: TargetId, state: TargetState)
    ensures HasShared(c.targets, state) <==>
            OtherShared(c, i, state) || (c.targets[i].mode == Shared && c.targets[i].state == state)
    ensures AnyLocked(c.targets) <==>
            OtherLocked(c, i) || (c.targets[i].mode == Shared && c.targets[i].lockCount > 0)
  {
    assert Remoded(c, i, c.targets[i].mode).targets == c.targets;
    SharedElsewhere(c, i, c.targets[i].mode, state);
    MembersElsewhere(c, i, c.targets[i].mode);
  }

  lemma SetModeGoesOn(c: Core, i: TargetId, mode: Mode)
    requires Consistent(c) && c.shared.state == SharedLocked
    ensures GoesOn(Remoded(c, i, mode)) <==> !Drops(c, DoSetMode(i, mode))
  {
    hide OtherShared, OtherLocked, OtherMember, HasShared, AnyShared, AnyLocked, Remoded;
    var c1 := Remoded(c, i, mode);
    assert c1.shared == c.shared by { RemodedIs(c, i, mode); }
    SharedElsewhere(c, i, mode, Locked);
    SharedElsewhere(c, i, mode, Armed);
    SharedElsewhere(c, i, mode, Busy);
    SharedHere(c, i, Locked);
    SharedHere(c, i, Armed);
    SharedHere(c, i, Busy);
    MembersElsewhere(c, i, mode);
  }

  lemma RemodedIs(c: Core, i: TargetId, mode: Mode)
    ensures Remoded(c, i, mode).shared == c.shared && Remoded(c, i, mode).log == c.log
    ensures SetMode(c, i, mode) == UpdateGlobal(Remoded(c, i, mode))
    ensures forall j: TargetId :: Remoded(c, i, mode).targets[j].state == c.targets[j].state
  {
  }

  /** A change that makes no request and arms nothing before the shared state is recomputed. */
  lemma RefreshPends(c: Core, c1: Core)
    requires c1.log == c.log
    requires forall i: TargetId :: c1.targets[i].state == Armed <==> c.targets[i].state == Armed
    ensures StillPends(c1, UpdateGlobal(c1)) <==> StillPends(c, UpdateGlobal(c1))
    ensures GroupArmed(c1, UpdateGlobal(c1)) <==> GroupArmed(c, UpdateGlobal(c1))
  {
    hide UpdateGlobal, Requests;
    var r := UpdateGlobal(c1);
    if Grows(c, r) {
      assert News(c, r) == News(c1, r);
      assert NewlyArmed(c, r) == NewlyArmed(c1, r);
    }
  }

  lemma SetModePends(c: Core, i: TargetId, mode: Mode)
    requires Consistent(c) && c.shared.state == SharedLocked
    ensures var r := SetMode(c, i, mode);
            && (!Drops(c, DoSetMode(i, mode)) ==> StillPends(c, r))
            && (Drops(c, DoSetMode(i, mode)) ==> r.shared.state != SharedLocked && !GroupArmed(c, r))
  {
    hide GoesOn, Drops, UpdateGlobal, GroupArmed, StillPends, Remoded;
    var c1 := Remoded(c, i, mode);
    RemodedIs(c, i, mode);
    SetModeGoesOn(c, i, mode);
    UpdatePends(c1);
    RefreshPends(c, c1);
  }

  /** The unlock, or refused wait, of a reader of target i. */
  lemma ReleasePends(c: Core, i: TargetId)
    requires Consistent(c) && c.shared.state == SharedLocked && c.targets[i].lockCount > 0
    requires Consistent(Release(c, i))
    ensures StillPends(c, Release(c, i))
  {
    hide GoesOn, GroupArmed;
    var c1 := CountDown(c, i);
    assert c1.targets[i].lockCount == c.targets[i].lockCount - 1;
    SameStates(c.targets, c1.targets);
    if c1.targets[i].lockCount == 0 && c.targets[i].mode == Shared {
      LockedGoesOn(c1);
      UpdatePends(c1);
      RefreshPends(c, c1);
    } else {
      UnsharedKeeps(c, Release(c, i));
    }
  }

  lemma LockedGoesOn(c: Core)
    requires GlobalState(c.targets) == SharedLocked
    ensures GoesOn(c)
  {
  }

  /** A step that leaves the cached shared state locked keeps the arm pending. */
  lemma UnsharedKeeps(c: Core, r: Core)
    requires r.shared.state == SharedLocked && Consistent(r)
    ensures StillPends(c, r)
  {
  }

  lemma DisarmDrops(c: Core)
    ensures DisarmShared(c).shared.state != SharedLocked && !GroupArmed(c, DisarmShared(c))
  {
    hide GlobalState;
    var r := DisarmShared(c);
    DisarmSharedStays(c);
    assert NewlyArmed(c, r) == {} by {
      forall i | 0 <= i < |c.targets| ensures !(c.targets[i].state != Armed && r.targets[i].state == Armed) {
      }
    }
  }

  lemma CaptureDrops(c: Core)
    requires Consistent(c) && c.shared.state == SharedLocked && CapturesMember(c, DoImmediateCapture)
    ensures ImmediateCapture(c).shared.state == SharedInvalid
  {
    var c1 := CaptureStarted(c);
    var k :| 0 <= k < |c.targets| && c.targets[k].mode == Shared && c.targets[k].state == Locked;
    CaptureNoRearm(c);
    assert c1.targets[k].mode == Shared && c1.targets[k].state == Locked;
    assert c1.targets[DRAM].mode == Shared && c1.targets[DRAM].state == Armed;
  }

  /** A step of one target that is not shared, or that has nothing to do, leaves the shared
      state alone. */
  lemma OtherStepKeeps(s: System, step: Step)
    requires Inv(s) && s.core.shared.state == SharedLocked && CoreStep(step) && !step.DoSetMode?
    requires !Drops(s.core, step)
    ensures Next(s, step).core.shared.state == SharedLocked
  {
    var c := s.core;
    match step
    case DoArm(i) =>
    case DoArmShared =>
    case DoDisarm(i) =>
    case DoTrigger(i) => NoneActive(c, i);
    case DoComplete(i) => NoneActive(c, i);
    case DoSetRetrigger(_) =>
    case DoImmediateCapture =>
    case _ =>
  }

  lemma NoneActive(c: Core, i: TargetId)
    requires Consistent(c) && c.shared.state == SharedLocked
    ensures c.targets[i].mode == Shared ==> Ready(c.targets[i].state)
  {
  }

  /** In every state of every run in which a shared arm is pending, a step keeps it pending
      while the group has a reader, and arms the whole group under one pulse when it has none
      left, unless it is one of the steps that drop the arm; those do neither. */
  lemma PendingStep(s: System, step: Step)
    requires Inv(s) && s.core.shared.state == SharedLocked
    ensures var c, r := s.core, Next(s, step).core;
            && (!Drops(c, step) ==> StillPends(c, r))
            && (Drops(c, step) ==> r.shared.state != SharedLocked && !GroupArmed(c, r))
  {
    hide UpdateGlobal, Release, SetMode, ArmShared, Trigger, Complete, StillPends, Requests, NewlyArmed, SharedMask, LockCounts, HoldersReady, ClockOk;
    var c, r := s.core, Next(s, step).core;
    InvNext(s, step);
    if step.DoSetMode? {
      SetModePends(c, step.target, step.mode);
    } else if DisarmsGroup(c, step) {
      DisarmDrops(c);
    } else if CapturesMember(c, step) {
      CaptureDrops(c);
    } else if CoreStep(step) {
      OtherStepKeeps(s, step);
      UnsharedKeeps(c, r);
    } else if step.DoLock? || r.shared.state == SharedLocked {
      UnsharedKeeps(c, r);
    } else {
      HeldCount(s, step.client);
      ReleasePends(c, s.clients[step.client].target);
    }
  }

  lemma UpdateModes(c: Core)
    ensures SameModes(c, UpdateGlobal(c))
  {
    UpdatePends(c);
  }

  lemma ArmModes(c: Core, i: TargetId)
    ensures SameModes(c, ArmShared(c)) && SameModes(c, ArmTarget(c, i))
  {
  }

  lemma DisarmModes(c: Core, i: TargetId)
    ensures SameModes(c, DisarmShared(c)) && SameModes(c, DisarmTarget(c, i))
  {
    DisarmSharedStays(c);
  }

  lemma EventModes(c: Core, i: TargetId)
    ensures SameModes(c, Trigger(c, i)) && SameModes(c, Complete(c, i)) && SameModes(c, ImmediateCapture(c))
  {
    hide UpdateGlobal, ArmTarget;
    UpdateModes(SetState(c, i, Busy));
    UpdateModes(SetState(c, i, Idle));
    ArmModes(SetState(c, i, Idle), i);
    UpdateModes(CaptureStarted(c));
  }

  lemma ReleaseModes(c: Core, i: TargetId)
    ensures SameModes(c, Release(c, i))
  {
    hide UpdateGlobal, ArmTarget;
    UpdateModes(CountDown(c, i));
    ArmModes(CountDown(c, i), i);
  }

  lemma ModesKept(s: System, step: Step)
    requires !step.DoSetMode?
    ensures SameModes(s.core, Next(s, step).core)
  {
    hide ArmShared, ArmTarget, DisarmShared, DisarmTarget, Trigger, Complete, ImmediateCapture, Release;
    var c := s.core;
    match step
    case DoArm(i) => ArmModes(c, i);
    case DoArmShared => ArmModes(c, 0);
    case DoDisarm(i) => DisarmModes(c, i);
    case DoDisarmShared => DisarmModes(c, 0);
    case DoTrigger(i) => EventModes(c, i);
    case DoComplete(i) => EventModes(c, i);
    case DoImmediateCapture => EventModes(c, 0);
    case DoWake(n, _, _) =>
      if n < |s.clients| && s.clients[n].Waiting? {
        ReleaseModes(c, s.clients[n].target);
      }
    case DoUnlock(n) =>
      if n < |s.clients| && s.clients[n].Holding? {
        ReleaseModes(c, s.clients[n].target);
      }
    case _ =>
  }

  lemma SetModeGroup(c: Core, i: TargetId, mode: Mode)
    ensures SharedMask(SetMode(c, i, mode).targets) == SharedMask(c.targets) <==>
            ((c.targets[i].mode == Shared) == (mode == Shared))
  {
    hide UpdateGlobal;
    var r := SetMode(c, i, mode);
    UpdateModes(Remoded(c, i, mode));
    assert i in SharedMask(r.targets) <==> mode == Shared;
    assert i in SharedMask(c.targets) <==> c.targets[i].mode == Shared;
  }

  /** The group is the same after a step unless the step changes a mode into or out of shared. */
  lemma GroupKept(s: System, step: Step)
    ensures SharedMask(Next(s, step).core.targets) == SharedMask(s.core.targets) <==> !ChangesGroup(s.core, step)
  {
    if step.DoSetMode? {
      SetModeGroup(s.core, step.target, step.mode);
    } else {
      ModesKept(s, step);
    }
  }

  /** So a postponed arm goes on for the same group after every step that neither drops it nor
      changes the group, and after no other. */
  lemma SameGroupPends(s: System, step: Step)
    requires Inv(s) && s.core.shared.state == SharedLocked
    ensures var c, r := s.core, Next(s, step).core;
            StillPends(c, r) && SharedMask(r.targets) == SharedMask(c.targets) <==>
            !Drops(c, step) && !ChangesGroup(c, step)
  {
    hide Drops, ChangesGroup, GroupArmed;
    PendingStep(s, step);
    GroupKept(s, step);
    StillPendsMeans(s.core, Next(s, step).core);
  }

  lemma StillPendsMeans(c: Core, r: Core)
    ensures StillPends(c, r) ==> r.shared.state == SharedLocked || GroupArmed(c, r)
  {
  }

  /** When the shared arm is pending, the unlock that releases the last shared reader arms
      every shared target, under one pulse. */
  lemma LastReaderArms(s: System, n: nat)
    requires Inv(s) && s.core.shared.state == SharedLocked
    requires n < |s.clients| && s.clients[n].Holding?
    requires !AnyLocked(Next(s, DoUnlock(n)).core.targets)
    ensures var c, r := s.core, Next(s, DoUnlock(n)).core;
            GroupArmed(c, r) && SharedMask(r.targets) == SharedMask(c.targets)
  {
    hide GroupArmed;
    PendingStep(s, DoUnlock(n));
    GroupKept(s, DoUnlock(n));
  }

  // ------------------------------------------------------------------------------------
  // Runs with a postponed arm

  /** The arm stays pending until a step carries it out. */
  predicate PendsThrough(s: System, steps: seq<Step>)
    decreases |steps|
  {
    steps == [] ||
    (var s1 := Next(s, steps[0]);
     GroupArmed(s.core, s1.core) || (s1.core.shared.state == SharedLocked && PendsThrough(s1, steps[1..])))
  }

  /** No step drops the arm while it is pending. */
  predicate NothingDrops(s: System, steps: seq<Step>)
    decreases |steps|
  {
    steps == [] ||
    (var s1 := Next(s, steps[0]);
     !Drops(s.core, steps[0]) && (s1.core.shared.state == SharedLocked ==> NothingDrops(s1, steps[1..])))
  }

  /** In every run a postponed arm stays pending until it is carried out, if and only if no
      step drops it. */
  lemma {:induction false} PendingRun(s: System, steps: seq<Step>)
    requires Inv(s) && s.core.shared.state == SharedLocked
    ensures PendsThrough(s, steps) <==> NothingDrops(s, steps)
    decreases |steps|
  {
    hide GroupArmed, Drops;
    if steps != [] {
      var s1 := Next(s, steps[0]);
      PendingStep(s, steps[0]);
      InvNext(s, steps[0]);
      ArmedNotLocked(s.core, s1.core);
      if s1.core.shared.state == SharedLocked {
        PendingRun(s1, steps[1..]);
      }
    }
  }

  lemma ArmedNotLocked(c: Core, r: Core)
    ensures GroupArmed(c, r) ==> r.shared.state != SharedLocked
  {
  }

  /** In a run that does not drop it, a postponed arm is pending, with a reader in the group,
      for the first k steps; if the run goes on, step k takes the last reader away and arms
      the whole group under one pulse. */
  lemma {:induction false} PostponedArmHappens(s: System, steps: seq<Step>) returns (k: nat)
    requires Inv(s) && s.core.shared.state == SharedLocked && NothingDrops(s, steps)
    ensures k <= |steps|
    ensures forall j :: 0 <= j <= k ==>
              var c := Execute(s, steps[..j]).core; c.shared.state == SharedLocked && AnyLocked(c.targets)
    ensures k < |steps| ==>
              var c, r := Execute(s, steps[..k]).core, Execute(s, steps[..k + 1]).core;
              GroupArmed(c, r) && !AnyLocked(r.targets)
    decreases |steps|
  {
    hide GroupArmed, Drops, CachedState, LockCounts, HoldersReady, ClockOk, SharedMask, Next;
    assert steps[..0] == [];
    if steps == [] {
      k := 0;
    } else {
      var s1 := Next(s, steps[0]);
      assert steps[..1] == [steps[0]] && Execute(s1, []) == s1;
      assert Execute(s, steps[..1]) == s1;
      PendingStep(s, steps[0]);
      InvNext(s, steps[0]);
      if s1.core.shared.state == SharedLocked {
        var m := PostponedArmHappens(s1, steps[1..]);
        k := m + 1;
        forall j | 1 <= j <= |steps| ensures Execute(s, steps[..j]) == Execute(s1, steps[1..][..j - 1]) {
          assert steps[..j][1..] == steps[1..][..j - 1];
        }
      } else {
        k := 0;
      }
    }
  }

  // ------------------------------------------------------------------------------------
  // The invalid shared state

  /** The steps that bring a locked and an armed or busy target together in the group. */
  predicate Invalidates(c: Core, step: Step) {
    || (CapturesMember(c, step) && c.shared.state == SharedLocked)
    || (JoinsActive(c, step) && c.shared.state == SharedLocked)
    || (step.DoSetMode? && step.mode == Shared && c.targets[step.target].mode != Shared
        && c.targets[step.target].state == Locked
        && (HasShared(c.targets, Armed) || HasShared(c.targets, Busy)))
  }

  lemma UpdateInvalid(c: Core)
    ensures UpdateGlobal(c).shared.state == SharedInvalid <==> GlobalState(c.targets) == SharedInvalid
  {
  }

  lemma SetModeInvalid(c: Core, i: TargetId, mode: Mode)
    requires Consistent(c) && c.shared.state != SharedInvalid
    ensures SetMode(c, i, mode).shared.state == SharedInvalid <==> Invalidates(c, DoSetMode(i, mode))
  {
    hide OtherShared, HasShared, UpdateGlobal, Remoded;
    RemodedIs(c, i, mode);
    UpdateInvalid(Remoded(c, i, mode));
    SharedElsewhere(c, i, mode, Locked);
    SharedElsewhere(c, i, mode, Armed);
    SharedElsewhere(c, i, mode, Busy);
    SharedHere(c, i, Locked);
    SharedHere(c, i, Armed);
    SharedHere(c, i, Busy);
  }

  /** The invalid state is entered by exactly these steps: an immediate capture of a shared
      memory target while an arm is pending, and a mode change that puts an armed or busy
      target into a locked group or a locked target into an armed or busy one. */
  lemma InvalidEntered(s: System, step: Step)
    requires Inv(s) && s.core.shared.state != SharedInvalid
    ensures Next(s, step).core.shared.state == SharedInvalid <==> Invalidates(s.core, step)
  {
    hide UpdateGlobal, SetMode, ImmediateCapture, GlobalState, ArmShared;
    var c, r := s.core, Next(s, step).core;
    if step.DoSetMode? {
      SetModeInvalid(c, step.target, step.mode);
    } else if step.DoImmediateCapture? {
      CaptureInvalid(c);
    } else if CoreStep(step) {
      NotInvalidCore(c, step);
    } else if step.DoLock? || r == s.core {
    } else if step.client < |s.clients| && !s.clients[step.client].Free? {
      var i := s.clients[step.client].target;
      SameStates(c.targets, CountDown(c, i).targets);
      UpdateInvalid(CountDown(c, i));
    }
  }

  lemma CaptureInvalid(c: Core)
    requires Consistent(c) && c.shared.state != SharedInvalid
    ensures ImmediateCapture(c).shared.state == SharedInvalid <==> Invalidates(c, DoImmediateCapture)
  {
    if CapturesMember(c, DoImmediateCapture) {
      var c1 := CaptureStarted(c);
      UpdateInvalid(c1);
      CaptureShared(c);
    }
  }

  lemma CaptureShared(c: Core)
    requires CaptureReady(c) && c.targets[DRAM].mode == Shared
    ensures var ts := CaptureStarted(c).targets;
            HasShared(ts, Armed) && (HasShared(ts, Locked) <==> HasShared(c.targets, Locked))
  {
    var ts := CaptureStarted(c).targets;
    assert ts[DRAM].mode == Shared && ts[DRAM].state == Armed;
    assert forall j: TargetId :: j != DRAM ==> ts[j] == c.targets[j];
    if HasShared(c.targets, Locked) {
      var k :| 0 <= k < |c.targets| && c.targets[k].mode == Shared && c.targets[k].state == Locked;
      assert ts[k].mode == Shared && ts[k].state == Locked;
    }
  }

  lemma NotInvalidCore(c: Core, step: Step)
    requires Consistent(c) && c.shared.state != SharedInvalid
    requires CoreStep(step) && !step.DoSetMode? && !step.DoImmediateCapture?
    ensures Next(System(c, []), step).core.shared.state != SharedInvalid
  {
    match step
    case DoDisarm(i) => DisarmSharedStays(c);
    case DoDisarmShared => DisarmSharedStays(c);
    case DoTrigger(i) => NoneLockedStays(c, i, Busy);
    case DoComplete(i) => NoneLockedStays(c, i, Idle);
    case _ =>
  }

  /** The trigger or completion of an armed or busy target. */
  lemma NoneLockedStays(c: Core, i: TargetId, state: TargetState)
    requires Consistent(c) && c.shared.state != SharedInvalid && (state == Busy || state == Idle)
    ensures c.targets[i].mode == Shared && !Ready(c.targets[i].state) ==>
              UpdateGlobal(SetState(c, i, state)).shared.state != SharedInvalid
  {
    hide HasShared, OtherShared, OtherLocked, UpdateGlobal;
    if c.targets[i].mode == Shared && !Ready(c.targets[i].state) {
      var c1 := SetState(c, i, state);
      UpdateInvalid(c1);
      OthersSame(c, i, state, Locked);
      SharedHere(c, i, Locked);
      SharedHere(c, i, Armed);
      SharedHere(c, i, Busy);
      SharedHere(c1, i, Locked);
    }
  }

  lemma OthersSame(c: Core, i: TargetId, to: TargetState, state: TargetState)
    ensures OtherShared(SetState(c, i, to), i, state) <==> OtherShared(c, i, state)
  {
    assert forall j: TargetId :: j != i ==> SetState(c, i, to).targets[j] == c.targets[j];
  }

  /** Out of the invalid state without readers, the completion of the last active shared
      target arms the group after all. */
  lemma InvalidRecovers(s: System, i: TargetId)
    requires Inv(s) && s.core.shared.state == SharedInvalid && !AnyLocked(s.core.targets)
    requires s.core.targets[i].mode == Shared && s.core.targets[i].state == Busy
    requires !OtherShared(s.core, i, Armed) && !OtherShared(s.core, i, Busy)
    ensures GroupArmed(s.core, Next(s, DoComplete(i)).core)
  {
    hide HasShared, OtherShared, OtherLocked, UpdateGlobal, GroupArmed;
    var c := s.core;
    var c1 := SetState(c, i, Idle);
    OthersSame(c, i, Idle, Locked);
    OthersSame(c, i, Idle, Armed);
    OthersSame(c, i, Idle, Busy);
    SharedHere(c, i, Locked);
    SharedHere(c1, i, Locked);
    SharedHere(c1, i, Armed);
    SharedHere(c1, i, Busy);
    SameLocked(c, c1);
    LockedGoesOn(c1);
    UpdatePends(c1);
    SameLocked(c1, UpdateGlobal(c1));
    RefreshPends(c, c1);
  }

  // ------------------------------------------------------------------------------------
  // A group disarm sticks

  /** The state a group disarm leaves behind. */
  predicate GroupStopped(c: Core) {
    c.shared.dontRearm && !HasShared(c.targets, Locked)
  }

  /** Somebody asks for the group: an arm request for it, a locked target put into it, or an
      immediate capture of its memory target. */
  predicate AsksForGroup(c: Core, step: Step) {
    || step.DoArmShared?
    || (step.DoArm? && c.targets[step.target].mode == Shared)
    || (step.DoSetMode? && step.mode == Shared && c.targets[step.target].state == Locked)
    || CapturesMember(c, step)
  }

  /** The step arms no shared target and leaves the group stopped. */
  predicate StaysDown(c: Core, r: Core) {
    GroupStopped(r) && NewlyArmed(c, r) !! SharedMask(r.targets)
  }

  lemma DisarmStopsGroup(s: System, step: Step)
    requires DisarmsGroup(s.core, step)
    ensures GroupStopped(Next(s, step).core)
  {
    DisarmSharedStays(s.core);
  }

  /** Recomputing the shared state of a stopped group rearms nothing. */
  lemma UpdateStopped(c: Core)
    requires c.shared.dontRearm
    ensures HasShared(c.targets, Locked) ==> !GroupStopped(UpdateGlobal(c))
    ensures !HasShared(c.targets, Locked) ==>
              UpdateGlobal(c).targets == c.targets && GroupStopped(UpdateGlobal(c))
  {
    if HasShared(c.targets, Locked) && GlobalState(c.targets) == SharedLocked {
      UpdatePends(c);
      LockedGoesOn(c);
      UpdateFollows(c);
    }
  }

  lemma UpdateFollows(c: Core)
    requires GlobalState(c.targets) == SharedLocked
    ensures !GroupStopped(UpdateGlobal(c))
  {
    SomeLocked(c.targets);
    if AnyLocked(c.targets) {
      UpdateGlobalEffect(c);
    }
  }

  lemma SetModeStopped(c: Core, i: TargetId, mode: Mode)
    requires Consistent(c) && GroupStopped(c)
    ensures StaysDown(c, SetMode(c, i, mode)) <==> !AsksForGroup(c, DoSetMode(i, mode))
  {
    hide UpdateGlobal, OtherShared, OtherLocked, HasShared, Remoded;
    RemodedIs(c, i, mode);
    UpdateStopped(Remoded(c, i, mode));
    SharedElsewhere(c, i, mode, Locked);
    SharedHere(c, i, Locked);
  }

  lemma EventStopped(c: Core, i: TargetId, state: TargetState)
    requires GroupStopped(c) && (state == Busy || state == Idle)
    ensures var r := UpdateGlobal(SetState(c, i, state)); StaysDown(c, r) && NewlyArmed(c, r) == {}
  {
    hide UpdateGlobal, HasShared, OtherLocked, OtherShared;
    UpdateStopped(SetState(c, i, state));
    OthersSame(c, i, state, Locked);
    SharedHere(c, i, Locked);
    SharedHere(SetState(c, i, state), i, Locked);
  }

  lemma CaptureStopped(c: Core)
    requires GroupStopped(c)
    ensures StaysDown(c, ImmediateCapture(c)) <==> !CapturesMember(c, DoImmediateCapture)
  {
    if CapturesMember(c, DoImmediateCapture) {
      CaptureNoRearm(c);
      assert DRAM in NewlyArmed(c, ImmediateCapture(c)) && DRAM in SharedMask(ImmediateCapture(c).targets);
    } else if CaptureReady(c) {
      UnsharedOnly(c, ImmediateCapture(c), DRAM);
    }
  }

  /** A step of one target that is not shared. */
  lemma UnsharedOnly(c: Core, r: Core, i: TargetId)
    requires GroupStopped(c) && r.shared == c.shared
    requires c.targets[i].mode != Shared && r.targets[i].mode != Shared
    requires forall j: TargetId :: j != i ==> r.targets[j] == c.targets[j]
    ensures StaysDown(c, r)
  {
  }

  lemma ReleaseStopped(c: Core, i: TargetId)
    requires GroupStopped(c)
    ensures StaysDown(c, Release(c, i))
  {
    hide UpdateGlobal;
    var c1 := CountDown(c, i);
    SameStates(c.targets, c1.targets);
    if c1.targets[i].lockCount == 0 && c1.targets[i].mode == Shared {
      UpdateStopped(c1);
    } else if c1.targets[i].lockCount == 0 && c1.targets[i].state == Locked {
      UnsharedOnly(c, Release(c, i), i);
    }
  }

  lemma ArmStopped(c: Core)
    ensures !GroupStopped(ArmShared(c)) && !StaysDown(c, ArmShared(c))
  {
  }

  /** In every state of every run with a stopped group, a step newly arms no shared target and
      leaves the group stopped if and only if it does not ask for the group. */
  lemma StoppedGroupStep(s: System, step: Step)
    requires Inv(s) && GroupStopped(s.core)
    ensures StaysDown(s.core, Next(s, step).core) <==> !AsksForGroup(s.core, step)
  {
    hide StaysDown, UpdateGlobal, ArmShared, DisarmShared, LockCounts, HoldersReady, Release, ClockOk;
    var c := s.core;
    match step
    case DoArm(i) =>
      if c.targets[i].mode == Shared {
        ArmStopped(c);
      } else {
        UnsharedOnly(c, ArmOne(c, i), i);
      }
    case DoArmShared => ArmStopped(c);
    case DoDisarm(i) => DisarmStopped(c, i);
    case DoDisarmShared => DisarmStopped(c, 0);
    case DoTrigger(i) => TriggerStopped(c, i);
    case DoComplete(i) => CompleteStopped(c, i);
    case DoSetMode(i, mode) => SetModeStopped(c, i, mode);
    case DoImmediateCapture => CaptureStopped(c);
    case DoWake(n, _, _) =>
      if n < |s.clients| && s.clients[n].Waiting? {
        ReleaseStopped(c, s.clients[n].target);
      }
      QuietStopped(c, c);
    case DoUnlock(n) =>
      if n < |s.clients| && s.clients[n].Holding? {
        ReleaseStopped(c, s.clients[n].target);
      }
      QuietStopped(c, c);
    case _ => QuietStopped(c, Next(s, step).core);
  }

  /** A step that changes no state and no mode. */
  lemma QuietStopped(c: Core, r: Core)
    requires GroupStopped(c) && r.shared.dontRearm == c.shared.dontRearm
    requires forall i :: 0 <= i < |c.targets| ==>
               r.targets[i].mode == c.targets[i].mode && r.targets[i].state == c.targets[i].state
    ensures StaysDown(c, r)
  {
  }

  lemma DisarmStopped(c: Core, i: TargetId)
    requires GroupStopped(c)
    ensures StaysDown(c, DisarmShared(c)) && StaysDown(c, DisarmTarget(c, i))
  {
    DisarmSharedStays(c);
    if c.targets[i].mode != Shared {
      UnsharedOnly(c, DisarmTarget(c, i), i);
    }
  }

  lemma TriggerStopped(c: Core, i: TargetId)
    requires GroupStopped(c)
    ensures StaysDown(c, Trigger(c, i))
  {
    EventStopped(c, i, Busy);
    if c.targets[i].mode != Shared {
      UnsharedOnly(c, Trigger(c, i), i);
    }
  }

  lemma CompleteStopped(c: Core, i: TargetId)
    requires GroupStopped(c)
    ensures StaysDown(c, Complete(c, i))
  {
    EventStopped(c, i, Idle);
    if c.targets[i].mode != Shared {
      UnsharedOnly(c, Complete(c, i), i);
    }
  }

  predicate NobodyAsks(s: System, steps: seq<Step>)
    decreases |steps|
  {
    steps == [] || (!AsksForGroup(s.core, steps[0]) && NobodyAsks(Next(s, steps[0]), steps[1..]))
  }

  predicate StaysDownThrough(s: System, steps: seq<Step>)
    decreases |steps|
  {
    steps == [] ||
    (StaysDown(s.core, Next(s, steps[0]).core) && StaysDownThrough(Next(s, steps[0]), steps[1..]))
  }

  lemma {:induction false} StoppedGroupRun(s: System, steps: seq<Step>)
    requires Inv(s) && GroupStopped(s.core)
    ensures StaysDownThrough(s, steps) <==> NobodyAsks(s, steps)
    decreases |steps|
  {
    hide StaysDown, AsksForGroup, GroupStopped;
    if steps != [] {
      StoppedGroupStep(s, steps[0]);
      InvNext(s, steps[0]);
      StaysDownMeans(s.core, Next(s, steps[0]).core);
      if StaysDown(s.core, Next(s, steps[0]).core) {
        StoppedGroupRun(Next(s, steps[0]), steps[1..]);
      }
    }
  }

  lemma StaysDownMeans(c: Core, r: Core)
    ensures StaysDown(c, r) ==> GroupStopped(r)
  {
  }

  /** After a disarm of the group, in every run, the group stays stopped and no step newly arms
      a shared target, if and only if no step asks for the group. */
  lemma GroupDisarmSticks(s: System, step: Step, steps: seq<Step>)
    requires Inv(s) && DisarmsGroup(s.core, step)
    ensures StaysDownThrough(Next(s, step), steps) <==> NobodyAsks(Next(s, step), steps)
  {
    InvNext(s, step);
    DisarmStopsGroup(s, step);
    StoppedGroupRun(Next(s, step), steps);
  }
}
