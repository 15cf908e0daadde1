/** A target that is not shared, step by step: a table of what becomes of it, and the postponed arm
    it may be waiting with, followed through a run. */
module TriggerAlone {
  import opened Common
  import opened Timespec
  import opened TriggerModel
  import opened TriggerEffects
  import opened TriggerRuns
  import opened TriggerTheorems
  import opened TriggerPending
  import opened TriggerStranded

  // ------------------------------------------------------------------------------------
  // What a step does to a target that is not shared

  /** A lock attempt by a free thread that is granted or has to wait. */
  predicate Enters(s: System, step: Step, i: TargetId) {
    && step.DoLock? && step.target == i
    && step.client < |s.clients| && s.clients[step.client].Free?
    && (Ready(s.core.targets[i].state) || step.timeout > 0)
  }

  /** The table: how target i, which is not shared, stands after a step. */
  predicate AloneNext(s: System, step: Step, i: TargetId, t: Target) {
    var was := s.core.targets[i];
    if step == DoArm(i) && was.lockCount == 0 && (was.state == Idle || was.state == Locked) then
      t == Target(was.mode, false, Armed, 0)
    else if step == DoArm(i) && was.state == Idle then t == Target(was.mode, was.dontRearm, Locked, was.lockCount)
    else if step == DoDisarm(i) then
      t == Target(was.mode, true,
                  match was.state
                  case Armed => if i == 2 then Armed else Idle
                  case Busy => Busy
                  case _ => Idle,
                  was.lockCount)
    else if step == DoTrigger(i) && was.state == Armed then t == Target(was.mode, was.dontRearm, Busy, was.lockCount)
    else if step == DoComplete(i) && was.state == Busy then
      t == Target(was.mode, was.dontRearm,
                  if was.dontRearm || was.mode == OneShot then Idle
                  else if was.lockCount == 0 then Armed
                  else Locked,
                  was.lockCount)
    else if step.DoSetMode? && step.target == i then
      t.mode == step.mode && t.lockCount == was.lockCount && (step.mode != Shared ==> t == was.(mode := step.mode))
    else if step.DoImmediateCapture? && i == 2 && was.lockCount == 0 && was.state == Idle then
      t == Target(was.mode, true, Armed, 0)
    else if Enters(s, step, i) then t.lockCount == was.lockCount + 1 && t == was.(lockCount := t.lockCount)
    else if Leaves(s, step, i) && was.lockCount == 1 && was.state == Locked then t == Target(was.mode, false, Armed, 0)
    else if Leaves(s, step, i) then t.lockCount == was.lockCount - 1 && t == was.(lockCount := t.lockCount)
    else t == was
  }

  /** What a step asks of the hardware because of target i. */
  function AloneRequests(s: System, step: Step, i: TargetId): seq<Event> {
    var was := s.core.targets[i];
    if step == DoArm(i) && was.lockCount == 0 && (was.state == Idle || was.state == Locked) then [Prepare(i), ArmPulse({i})]
    else if step == DoDisarm(i) then [DisarmPulse({i})] + if was.state == Armed && i == 2 then [FirePulse({2})] else []
    else if step == DoComplete(i) && was.state == Busy && !was.dontRearm && was.mode != OneShot then
      (if was.lockCount == 0 then [Prepare(i), ArmPulse({i})] else []) + if was.mode == FreeRun then [SoftTrigger] else []
    else if step.DoImmediateCapture? && i == 2 && was.lockCount == 0 && was.state == Idle then [CaptureStart, FirePulse({2})]
    else if Leaves(s, step, i) && was.lockCount == 1 && was.state == Locked then [Prepare(i), ArmPulse({i})]
    else []
  }

  lemma AloneArms(s: System, step: Step, i: TargetId)
    requires s.core.targets[i].mode != Shared
    requires step.DoArm? || step.DoDisarm? || step.DoArmShared? || step.DoDisarmShared?
    ensures AloneNext(s, step, i, Next(s, step).core.targets[i])
  {
    hide ArmShared, DisarmShared;
    ArmSharedLeaves(s.core, i);
    DisarmSharedLeaves(s.core, i);
  }

  lemma AloneCore(s: System, step: Step, i: TargetId)
    requires s.core.targets[i].mode != Shared && CoreStep(step)
    ensures AloneNext(s, step, i, Next(s, step).core.targets[i])
  {
    hide UpdateGlobal, ArmShared, DisarmShared, DisarmTarget;
    var c := s.core;
    match step
    case DoTrigger(j) => UpdateKeepsUnshared(SetState(c, j, Busy), i);
    case DoComplete(j) => UpdateKeepsUnshared(SetState(c, j, Idle), i);
    case DoSetMode(j, mode) => SetModeLeaves(c, j, mode, i);
    case DoImmediateCapture => UpdateKeepsUnshared(CaptureStarted(c), i);
    case DoSetRetrigger(_) =>
    case _ => AloneArms(s, step, i);
  }

  lemma ArmSharedLeaves(c: Core, i: TargetId)
    requires c.targets[i].mode != Shared
    ensures ArmShared(c).targets[i] == c.targets[i]
  {
  }

  lemma DisarmSharedLeaves(c: Core, i: TargetId)
    requires c.targets[i].mode != Shared
    ensures DisarmShared(c).targets[i] == c.targets[i]
  {
    DisarmSharedStays(c);
  }

  lemma SetModeLeaves(c: Core, j: TargetId, mode: Mode, i: TargetId)
    requires c.targets[i].mode != Shared
    ensures var t := SetMode(c, j, mode).targets[i];
            && (j != i ==> t == c.targets[i])
            && (j == i ==> t.mode == mode && t.lockCount == c.targets[i].lockCount)
            && (j == i && mode != Shared ==> t == c.targets[i].(mode := mode))
  {
    hide UpdateGlobal;
    var c1 := Remoded(c, j, mode);
    RemodedIs(c, j, mode);
    UpdatePends(c1);
    if j != i || mode != Shared {
      UpdateKeepsUnshared(c1, i);
    }
  }

  lemma AloneClients(s: System, step: Step, i: TargetId)
    requires Inv(s) && s.core.targets[i].mode != Shared && !CoreStep(step)
    ensures AloneNext(s, step, i, Next(s, step).core.targets[i])
  {
    hide UpdateGlobal, ArmShared, Consistent, HoldersReady, ClockOk, LockCounts;
    var c := s.core;
    InvNext(s, step);
    LockNet(s, step, i);
    match step
    case DoLock(n, j, _, _) =>
    case DoWake(n, _, _) =>
      if n < |s.clients| && s.clients[n].Waiting? {
        HeldCount(s, n);
        ReleaseAlone(c, s.clients[n].target, i);
      }
    case DoUnlock(n) =>
      if n < |s.clients| && s.clients[n].Holding? {
        HeldCount(s, n);
        ReleaseAlone(c, s.clients[n].target, i);
      }
  }

  lemma ReleaseAlone(c: Core, j: TargetId, i: TargetId)
    requires c.targets[i].mode != Shared && c.targets[j].lockCount > 0
    ensures var was, t := c.targets[i], Release(c, j).targets[i];
            t == if j != i then was
                 else if was.lockCount == 1 && was.state == Locked then Target(was.mode, false, Armed, 0)
                 else was.(lockCount := was.lockCount - 1)
  {
    hide UpdateGlobal;
    UpdateKeepsUnshared(CountDown(c, j), i);
  }

  /** In every state of every run, a step leaves a target that is not shared as the table says. */
  lemma AloneStep(s: System, step: Step, i: TargetId)
    requires Inv(s) && s.core.targets[i].mode != Shared
    ensures AloneNext(s, step, i, Next(s, step).core.targets[i])
  {
    if CoreStep(step) {
      AloneCore(s, step, i);
    } else {
      AloneClients(s, step, i);
    }
  }

  // ------------------------------------------------------------------------------------
  // What it asks of the hardware

  /** The steps that act on target i. */
  predicate ActsOn(s: System, step: Step, i: TargetId) {
    || step == DoArm(i) || step == DoDisarm(i) || step == DoTrigger(i) || step == DoComplete(i)
    || (step.DoSetMode? && step.target == i) || (step.DoImmediateCapture? && i == 2)
    || Enters(s, step, i) || Leaves(s, step, i)
  }

  /** A step that acts on a target that is not shared makes exactly its requests. */
  lemma AloneRequestsExact(s: System, step: Step, i: TargetId)
    requires Inv(s) && s.core.targets[i].mode != Shared && ActsOn(s, step, i) && !step.DoSetMode?
    ensures Next(s, step).core.log == s.core.log + AloneRequests(s, step, i)
  {
    hide Release;
    if Leaves(s, step, i) {
      HeldCount(s, step.client);
      ReleaseRequests(s.core, i);
    } else {
      ActRequests(s, step, i);
    }
  }

  lemma ReleaseRequests(c: Core, i: TargetId)
    requires c.targets[i].mode != Shared && c.targets[i].lockCount > 0
    ensures Release(c, i).log == c.log +
            if c.targets[i].lockCount == 1 && c.targets[i].state == Locked then [Prepare(i), ArmPulse({i})] else []
  {
    hide UpdateGlobal, ArmShared;
  }

  lemma ActRequests(s: System, step: Step, i: TargetId)
    requires s.core.targets[i].mode != Shared && ActsOn(s, step, i) && !Leaves(s, step, i) && !step.DoSetMode?
    ensures Next(s, step).core.log == s.core.log + AloneRequests(s, step, i)
  {
    hide UpdateGlobal, ArmShared, DisarmShared, Release, Leaves;
  }

  /** The completion of a target that is not shared.  In one-shot mode, or after a disarm, it is
      left idle; otherwise it is armed again if nobody reads it, and waits for its readers if it
      has any.  A free running target fires the next trigger in either case. */
  lemma CompleteExact(s: System, i: TargetId)
    requires Inv(s) && s.core.targets[i].mode != Shared && s.core.targets[i].state == Busy
    ensures var c, r := s.core, Next(s, DoComplete(i)).core;
            var was, t := c.targets[i], r.targets[i];
            var soft := if was.mode == FreeRun then [SoftTrigger] else [];
            && t == was.(state := t.state)
            && (was.dontRearm || was.mode == OneShot ==> t.state == Idle && r.log == c.log)
            && (!was.dontRearm && was.mode != OneShot && was.lockCount == 0 ==>
                  t.state == Armed && r.log == c.log + [Prepare(i), ArmPulse({i})] + soft)
            && (!was.dontRearm && was.mode != OneShot && was.lockCount > 0 ==>
                  t.state == Locked && r.log == c.log + soft)
  {
    AloneStep(s, DoComplete(i), i);
    AloneRequestsExact(s, DoComplete(i), i);
  }

  // ------------------------------------------------------------------------------------
  // A postponed arm of its own

  /** Target i, on its own, is to be armed when its readers have left. */
  predicate Postponed(c: Core, i: TargetId) {
    c.targets[i].mode != Shared && c.targets[i].state == Locked && c.targets[i].lockCount > 0
  }

  /** The step armed target i alone, under a pulse of its own. */
  predicate ArmedAlone(c: Core, r: Core, i: TargetId) {
    && r.targets[i].state == Armed && r.targets[i].lockCount == 0
    && r.log == c.log + [Prepare(i), ArmPulse({i})]
  }

  predicate DropsAlone(step: Step, i: TargetId) {
    step == DoDisarm(i) || step == DoSetMode(i, Shared)
  }

  /** In every state of every run in which a target that is not shared waits for its readers, a
      step keeps it waiting with a reader to wait for, or takes the last reader away and arms it
      under its own pulse, if and only if it is not a disarm of the target, nor a change of it to
      shared mode. */
  lemma PostponedStep(s: System, step: Step, i: TargetId)
    requires Inv(s) && Postponed(s.core, i)
    ensures var c, r := s.core, Next(s, step).core;
            && (!DropsAlone(step, i) ==>
                  if Leaves(s, step, i) && c.targets[i].lockCount == 1 then ArmedAlone(c, r, i) else Postponed(r, i))
            && (DropsAlone(step, i) ==> !Postponed(r, i) && !ArmedAlone(c, r, i))
  {
    hide Inv, Leaves, Enters, Next, ActsOn;
    AloneStep(s, step, i);
    LeavesActs(s, step, i);
    if Leaves(s, step, i) {
      AloneRequestsExact(s, step, i);
    }
  }

  lemma LeavesActs(s: System, step: Step, i: TargetId)
    ensures Leaves(s, step, i) ==> ActsOn(s, step, i) && (step.DoUnlock? || step.DoWake?)
    ensures Enters(s, step, i) ==> step.DoLock?
  {
  }

  /** So over any run without such a step: the target waits, with a reader, for the first k
      steps; if the run goes on, step k takes the last reader away and arms the target with
      exactly its own preparation and pulse. */
  lemma {:induction false} PostponedArmsAlone(s: System, steps: seq<Step>, i: TargetId) returns (k: nat)
    requires Inv(s) && Postponed(s.core, i)
    requires forall j :: 0 <= j < |steps| ==> !DropsAlone(steps[j], i)
    ensures k <= |steps|
    ensures forall j :: 0 <= j <= k ==> Postponed(Execute(s, steps[..j]).core, i)
    ensures k < |steps| ==>
              var before := Execute(s, steps[..k]);
              && Leaves(before, steps[k], i) && before.core.targets[i].lockCount == 1
              && ArmedAlone(before.core, Execute(s, steps[..k + 1]).core, i)
    decreases |steps|
  {
    hide Inv, Postponed, ArmedAlone, Leaves;
    assert steps[..0] == [];
    if steps == [] {
      k := 0;
    } else {
      var s1 := Next(s, steps[0]);
      assert steps[..1] == [steps[0]] && Execute(s1, []) == s1;
      assert Execute(s, steps[..1]) == s1;
      PostponedStep(s, steps[0], i);
      InvNext(s, steps[0]);
      if Leaves(s, steps[0], i) && s.core.targets[i].lockCount == 1 {
        k := 0;
      } else {
        var m := PostponedArmsAlone(s1, steps[1..], i);
        k := m + 1;
        forall j | 1 <= j <= |steps| ensures Execute(s, steps[..j]) == Execute(s1, steps[1..][..j - 1]) {
          assert steps[..j][1..] == steps[1..][..j - 1];
        }
      }
    }
  }

  // ------------------------------------------------------------------------------------
  // Readers

  /** A lock is granted at once on a ready target, refused without a timeout, and waited for
      otherwise. */
  lemma LockOutcome(s: System, n: nat, i: TargetId, timeout: Word, now: Instant)
    requires n < |s.clients| && s.clients[n].Free?
    ensures var client := Next(s, DoLock(n, i, timeout, now)).clients[n];
            && (client == Holding(i) <==> s.core.targets[i].state == Idle || s.core.targets[i].state == Locked)
            && (client.Waiting? <==> timeout > 0 && (s.core.targets[i].state == Armed || s.core.targets[i].state == Busy))
            && (client.Waiting? ==> client.target == i && client.waiter.start == now && client.waiter.timeout == timeout)
  {
  }

  /** A wait ends with the lock as soon as it finds the target ready, and with a refusal if it
      has timed out for the last time or the client is gone; otherwise it goes on. */
  lemma WakeOutcome(s: System, n: nat, timedOut: bool, pollFails: bool)
    requires Inv(s) && n < |s.clients| && s.clients[n].Waiting?
    ensures var was, client := s.clients[n], Next(s, DoWake(n, timedOut, pollFails)).clients[n];
            var state, w := s.core.targets[was.target].state, was.waiter;
            var last := Nanos(w.tick) == Nanos(w.deadline);
            && (client == Holding(was.target) <==> state == Idle || state == Locked)
            && (client.Free? <==> (state == Armed || state == Busy) && timedOut && (last || pollFails))
            && (client.Waiting? ==> client.target == was.target)
            && (client.Waiting? && !timedOut ==> client.waiter == w)
            && (client.Waiting? && timedOut ==>
                  client.waiter.polls == w.polls + 1 && Nanos(w.tick) < Nanos(client.waiter.tick))
  {
    var w := s.clients[n].waiter;
    TicksCompare(w);
    if !Eq(w.tick, w.deadline) {
      ClockAdvances(w);
    }
  }

  lemma TicksCompare(w: Waiter)
    requires ClockOk(w)
    ensures Eq(w.tick, w.deadline) <==> Nanos(w.tick) == Nanos(w.deadline)
  {
    if Signed(w.timeout) >= 0 {
      RefinesNanoseconds(w.tick, w.deadline);
    }
  }

  // ------------------------------------------------------------------------------------
  // Single runs

  /** A capture started at once on a memory target that is not shared is made once, in any mode:
      its completion leaves the target idle and asks for nothing more. */
  lemma CapturedOnce(s: System)
    requires Inv(s)
    requires s.core.targets[2].mode != Shared && s.core.targets[2].state == Idle && s.core.targets[2].lockCount == 0
    ensures var c := Execute(s, [DoImmediateCapture, DoTrigger(2), DoComplete(2)]).core;
            c.targets[2].state == Idle && c.log == s.core.log + [CaptureStart, FirePulse({2})]
  {
    hide Inv;
    var s1 := Next(s, DoImmediateCapture);
    var s2 := Next(s1, DoTrigger(2));
    ThreeSteps(s, DoImmediateCapture, DoTrigger(2), DoComplete(2));
    InvNext(s, DoImmediateCapture);
    InvNext(s1, DoTrigger(2));
    AloneStep(s, DoImmediateCapture, 2);
    AloneRequestsExact(s, DoImmediateCapture, 2);
    AloneStep(s1, DoTrigger(2), 2);
    AloneRequestsExact(s1, DoTrigger(2), 2);
    CompleteExact(s2, 2);
  }

  lemma ThreeSteps(s: System, a: Step, b: Step, d: Step)
    ensures Execute(s, [a, b, d]) == Next(Next(Next(s, a), b), d)
  {
    ExecuteAppend(s, [a, b], [d]);
    ExecuteTwo(s, a, b);
    assert [a, b] + [d] == [a, b, d];
    assert Execute(Execute(s, [a, b]), [d]) == Next(Execute(s, [a, b]), d);
  }

  /** A reader waits for target 0, which rearms, while it is busy.  Its completion leaves the
      target locked, the reader is let in, and when it leaves the target is armed once more. */
  lemma RearmAfterReader(now: Instant)
    ensures var s := Execute(Initial(1), [DoSetMode(0, Rearm), DoArm(0), DoTrigger(0), DoLock(0, 0, 60000, now)]);
            var locked := Execute(s, [DoComplete(0), DoWake(0, false, false)]);
            var armed := Next(locked, DoUnlock(0));
            && s.clients[0].Waiting? && locked.clients[0] == Holding(0)
            && locked.core.targets[0] == Target(Rearm, false, Locked, 1)
            && armed.core.targets[0] == Target(Rearm, false, Armed, 0)
            && armed.core.log == [Prepare(0), ArmPulse({0}), Prepare(0), ArmPulse({0})]
  {
    hide Inv, LockBegin, SetMode, Release, ArmShared, UpdateGlobal;
    var s0 := Initial(1);
    Reachable(1, []);
    assert Execute(s0, []) == s0;
    var steps := [DoSetMode(0, Rearm), DoArm(0), DoTrigger(0), DoLock(0, 0, 60000, now)];
    assert steps == [steps[0], steps[1]] + [steps[2], steps[3]];
    ExecuteAppend(s0, [steps[0], steps[1]], [steps[2], steps[3]]);
    ExecuteTwo(s0, steps[0], steps[1]);
    var s1 := Next(s0, steps[0]);
    AloneStep(s0, steps[0], 0);
    QuietModeChange(s0.core, 0, Rearm);
    InvNext(s0, steps[0]);
    var s2 := Next(s1, steps[1]);
    AloneRequestsExact(s1, steps[1], 0);
    AloneStep(s1, steps[1], 0);
    InvNext(s1, steps[1]);
    ExecuteTwo(s2, steps[2], steps[3]);
    var s3 := Next(s2, steps[2]);
    AloneRequestsExact(s2, steps[2], 0);
    AloneStep(s2, steps[2], 0);
    InvNext(s2, steps[2]);
    var s4 := Next(s3, steps[3]);
    LockOutcome(s3, 0, 0, 60000, now);
    AloneRequestsExact(s3, steps[3], 0);
    AloneStep(s3, steps[3], 0);
    InvNext(s3, steps[3]);
    WaitedFor(s4);
  }

  lemma QuietModeChange(c: Core, i: TargetId, mode: Mode)
    requires forall j: TargetId :: c.targets[j].state == Idle
    requires c.shared.dontRearm
    ensures SetMode(c, i, mode).log == c.log
  {
  }

  lemma WaitedFor(s: System)
    requires Inv(s) && s.core.targets[0] == Target(Rearm, false, Busy, 1) && |s.clients| == 1
    requires s.clients[0].Waiting? && s.clients[0].target == 0
    ensures var locked := Execute(s, [DoComplete(0), DoWake(0, false, false)]);
            var armed := Next(locked, DoUnlock(0));
            && locked.clients[0] == Holding(0) && locked.core.targets[0] == Target(Rearm, false, Locked, 1)
            && armed.core.targets[0] == Target(Rearm, false, Armed, 0)
            && armed.core.log == s.core.log + [Prepare(0), ArmPulse({0})]
  {
    hide Inv, Complete, Release, ArmShared, UpdateGlobal, Execute;
    var wake := DoWake(0, false, false);
    ExecuteTwo(s, DoComplete(0), wake);
    var s1 := Next(s, DoComplete(0));
    CompleteExact(s, 0);
    InvNext(s, DoComplete(0));
    var s2 := Next(s1, wake);
    WakeOutcome(s1, 0, false, false);
    InvNext(s1, wake);
    AloneStep(s2, DoUnlock(0), 0);
    AloneRequestsExact(s2, DoUnlock(0), 0);
  }
}
