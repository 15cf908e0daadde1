/** The main results about the trigger code, for every run of every number of threads. */
module TriggerTheorems {
  import opened Common
  import opened Timespec
  import opened TriggerModel
  import opened TriggerEffects
  import opened TriggerRuns

  // ------------------------------------------------------------------------------------
  // Readers are safe

  /** A reader counted on a ready target, whether it already holds the target or has yet to
      be woken, keeps its place over any step but its own unlock, the target stays ready,
      and nothing is started on it. */
  lemma UndisturbedStep(s: System, step: Step, n: nat)
    requires Inv(s) && n < |s.clients| && !s.clients[n].Free?
    requires Ready(s.core.targets[s.clients[n].target].state)
    requires step != DoUnlock(n)
    ensures var r := Next(s, step);
            var i := s.clients[n].target;
            && On(r.clients[n], i) && Ready(r.core.targets[i].state)
            && (s.clients[n].Holding? ==> r.clients[n].Holding?)
            && Grows(s.core, r.core) && Untouched(News(s.core, r.core), i)
  {
    hide Consistent, LockCounts, ClockOk, Release, UpdateGlobal, ExactPulse, Requests, ArmTarget;
    var r := Next(s, step);
    InvNext(s, step);
    if CoreStep(step) {
      CoreStepEffect(s, step);
    } else if step.DoLock? {
      assert News(s.core, r.core) == [];
    } else if step.DoWake? && step.client == n && s.clients[n].Waiting? {
      assert r.core == s.core && News(s.core, r.core) == [];
    } else {
      OtherReader(s, step, n);
    }
    HeldCount(r, n);
  }

  /** The same when another reader wakes or unlocks. */
  lemma OtherReader(s: System, step: Step, n: nat)
    requires Inv(s) && n < |s.clients| && !s.clients[n].Free?
    requires step.DoWake? || step.DoUnlock?
    requires step.client != n || (step.DoWake? && !s.clients[n].Waiting?)
    ensures var r := Next(s, step);
            && r.clients[n] == s.clients[n] && LeavesReadersAlone(s.core, r.core)
  {
    hide LockCounts, ClockOk, Release, UpdateGlobal, ExactPulse, Consistent;
    var r := Next(s, step);
    if r.core != s.core {
      var i := s.clients[step.client].target;
      ReleaseEffect(s.core, i);
      assert r.core == Release(s.core, i);
      assert News(s.core, r.core) == News(CountDown(s.core, i), r.core);
    } else {
      assert News(s.core, r.core) == [];
    }
  }

  predicate NoUnlock(steps: seq<Step>, n: nat) {
    forall k :: 0 <= k < |steps| ==> steps[k] != DoUnlock(n)
  }

  /** Over any run in which it does not unlock, a reader holding a target sees it idle or
      locked, and from the moment the run starts no preparation, arm pulse, forced trigger or
      capture start reaches the target. */
  lemma {:induction false} ReaderUndisturbed(s: System, steps: seq<Step>, n: nat)
    requires Inv(s) && n < |s.clients| && !s.clients[n].Free?
    requires Ready(s.core.targets[s.clients[n].target].state)
    requires NoUnlock(steps, n)
    ensures var r := Execute(s, steps);
            var i := s.clients[n].target;
            && On(r.clients[n], i) && Ready(r.core.targets[i].state)
            && (s.clients[n].Holding? ==> r.clients[n].Holding?)
            && Grows(s.core, r.core) && Untouched(News(s.core, r.core), i)
    decreases |steps|
  {
    if steps == [] {
      assert News(s.core, Execute(s, steps).core) == [];
    } else {
      var s1 := Next(s, steps[0]);
      var r := Execute(s, steps);
      UndisturbedStep(s, steps[0], n);
      InvNext(s, steps[0]);
      ReaderUndisturbed(s1, steps[1..], n);
      UntouchedAppend(s.core, s1.core, r.core, s.clients[n].target);
    }
  }

  lemma WakeReady(s: System, n: nat, timedOut: bool, pollFails: bool)
    requires n < |s.clients| && s.clients[n].Waiting?
    requires Ready(s.core.targets[s.clients[n].target].state)
    ensures Next(s, DoWake(n, timedOut, pollFails)).clients[n] == Holding(s.clients[n].target)
  {
  }

  /** A waiting reader whose target has become ready is granted it at its next wake, even
      one caused by the timeout, whatever happens in between. */
  lemma WaiterGetsIn(s: System, steps: seq<Step>, n: nat, timedOut: bool, pollFails: bool)
    requires Inv(s) && n < |s.clients| && s.clients[n].Waiting?
    requires Ready(s.core.targets[s.clients[n].target].state)
    requires NoUnlock(steps, n)
    ensures Next(Execute(s, steps), DoWake(n, timedOut, pollFails)).clients[n] == Holding(s.clients[n].target)
  {
    hide Inv, Ready, Execute, Untouched, News, NoUnlock, WaitReturned;
    ReaderUndisturbed(s, steps, n);
    var s1 := Execute(s, steps);
    if s1.clients[n].Waiting? {
      WakeReady(s1, n, timedOut, pollFails);
    }
  }

  /** A lock attempt adds one to the lock count of its target if it ends holding or waiting,
      and nothing if refused; a wait that ends refused takes its one away again; and no other
      count changes. */
  lemma LockNet(s: System, step: Step, i: TargetId)
    requires Inv(s) && !CoreStep(step)
    ensures var r := Next(s, step);
            r.core.targets[i].lockCount - s.core.targets[i].lockCount ==
              (if step.client < |s.clients| then
                 (if On(r.clients[step.client], i) then 1 else 0) -
                 (if On(s.clients[step.client], i) then 1 else 0)
               else 0)
  {
    var r := Next(s, step);
    InvNext(s, step);
    if step.client < |s.clients| {
      assert r.clients == s.clients[step.client := r.clients[step.client]];
      CountOnUpdate(s.clients, step.client, r.clients[step.client], i);
    } else {
      assert r == s;
    }
  }

  // ------------------------------------------------------------------------------------
  // Hardware pulses

  /** In every step of every run other than an immediate capture: at most one arm pulse, its
      mask exactly the targets armed by the step, each prepared by the step, and a shared
      target never armed without all the others. */
  lemma ArmPulseExact(s: System, step: Step)
    requires Inv(s) && !step.DoImmediateCapture?
    ensures ExactPulse(s.core, Next(s, step).core)
  {
    hide ExactPulse, UpdateGlobal, ArmShared, LeavesReadersAlone, HoldersReady, LockCounts, ClockOk;
    var r := Next(s, step);
    if CoreStep(step) {
      CoreStepEffect(s, step);
    } else if step.DoLock? || r.core == s.core {
      SamePulse(s.core, r.core);
    } else {
      ReleasePulse(s.core, s.clients[step.client].target);
    }
  }

  lemma SamePulse(c: Core, r: Core)
    requires r.log == c.log
    requires forall i :: 0 <= i < |c.targets| ==> r.targets[i].state == c.targets[i].state
    ensures ExactPulse(c, r)
  {
  }

  /** The steps that disarm target i. */
  predicate Disarms(s: System, step: Step, i: TargetId) {
    step == DoDisarm(i) ||
    (s.core.targets[i].mode == Shared &&
     (step.DoDisarmShared? || (step.DoDisarm? && s.core.targets[step.target].mode == Shared)))
  }

  /** The state an armed or busy target has after a step: an armed target moves only on its
      own trigger or a disarm that covers it, a busy one only on its own completion. */
  function ActiveNext(s: System, step: Step, i: TargetId): TargetState
    requires !Ready(s.core.targets[i].state)
  {
    if s.core.targets[i].state == Armed then
      if step == DoTrigger(i) then Busy
      else if Disarms(s, step, i) then StopState(i)
      else Armed
    else if step == DoComplete(i) then Next(s, step).core.targets[i].state
    else Busy
  }

  lemma UpdateKeepsActive(c: Core, i: TargetId)
    requires !Ready(c.targets[i].state)
    ensures UpdateGlobal(c).targets[i].state == c.targets[i].state
  {
  }

  lemma ArmKeepsActive(c: Core, i: TargetId)
    requires Consistent(c) && !Ready(c.targets[i].state)
    ensures ArmShared(c).targets[i].state == c.targets[i].state
  {
  }

  lemma ReleaseKeepsActive(c: Core, j: TargetId, i: TargetId)
    requires !Ready(c.targets[i].state)
    ensures Release(c, j).targets[i].state == c.targets[i].state
  {
  }

  lemma DisarmActive(s: System, step: Step, i: TargetId)
    requires !Ready(s.core.targets[i].state)
    requires step.DoDisarm? || step.DoDisarmShared?
    ensures Next(s, step).core.targets[i].state == ActiveNext(s, step, i)
  {
    DisarmSharedStays(s.core);
  }

  /** In every run, no arm request, mode change, lock, unlock or event of another target
      moves a target that is armed or busy. */
  lemma ActiveLeavesOnlyBy(s: System, step: Step, i: TargetId)
    requires Inv(s) && !Ready(s.core.targets[i].state)
    ensures Next(s, step).core.targets[i].state == ActiveNext(s, step, i)
  {
    hide UpdateGlobal, ArmShared, DisarmShared, Consistent, LockCounts, HoldersReady, ClockOk, Release;
    var c := s.core;
    match step
    case DoArm(j) => ArmKeepsActive(c, i);
    case DoArmShared => ArmKeepsActive(c, i);
    case DoDisarm(j) => DisarmActive(s, step, i);
    case DoDisarmShared => DisarmActive(s, step, i);
    case DoTrigger(j) => UpdateKeepsActive(SetState(c, j, Busy), i);
    case DoComplete(j) =>
      if j != i {
        UpdateKeepsActive(SetState(c, j, Idle), i);
      }
    case DoSetMode(j, mode) =>
      UpdateKeepsActive(c.(targets := c.targets[j := c.targets[j].(mode := mode)]), i);
    case DoSetRetrigger(_) =>
    case DoImmediateCapture =>
      if CaptureReady(c) {
        UpdateKeepsActive(CaptureStarted(c), i);
      }
    case DoLock(_, _, _, _) =>
    case DoWake(n, _, _) =>
      if n < |s.clients| && s.clients[n].Waiting? {
        ReleaseKeepsActive(c, s.clients[n].target, i);
      }
    case DoUnlock(n) =>
      if n < |s.clients| && s.clients[n].Holding? {
        ReleaseKeepsActive(c, s.clients[n].target, i);
      }
  }

  // ------------------------------------------------------------------------------------
  // Rearming

  /** One capture of a target that is not shared: armed by request it is, once triggered and
      complete, idle again in one-shot mode and armed again in the two other modes; a free
      running target also fires the next trigger. */
  lemma CaptureCycle(s: System, i: TargetId)
    requires Inv(s) && s.core.targets[i].mode != Shared && Arms(s.core.targets[i])
    ensures var c := Execute(s, [DoArm(i), DoTrigger(i), DoComplete(i)]).core;
            var pulse := [Prepare(i), ArmPulse({i})];
            match s.core.targets[i].mode
            case OneShot => c.targets[i].state == Idle && c.log == s.core.log + pulse
            case Rearm => c.targets[i].state == Armed && c.log == s.core.log + pulse + pulse
            case FreeRun => c.targets[i].state == Armed && c.log == s.core.log + pulse + pulse + [SoftTrigger]
  {
    hide UpdateGlobal, ArmShared, Consistent, LockCounts, HoldersReady, ClockOk;
    var steps := [DoArm(i), DoTrigger(i), DoComplete(i)];
    var s1 := Next(s, DoArm(i));
    var s2 := Next(s1, DoTrigger(i));
    assert steps[1..] == [DoTrigger(i), DoComplete(i)] && steps[1..][1..] == [DoComplete(i)];
    assert Execute(s2, [DoComplete(i)]) == Next(s2, DoComplete(i));
  }

  /** The completion of the last busy shared target: with automatic rearming on and no disarm
      since the last arm request the shared targets are armed again, or wait for their readers;
      otherwise they are left idle. */
  lemma SharedCompletion(s: System, i: TargetId)
    requires Inv(s) && s.core.targets[i].mode == Shared && s.core.targets[i].state == Busy
    requires forall j: TargetId :: j != i && s.core.targets[j].mode == Shared ==> s.core.targets[j].state == Idle
    ensures Next(s, DoComplete(i)).core.shared.state ==
            (if !s.core.shared.retrigger || s.core.shared.dontRearm then SharedIdle
             else if AnyLocked(s.core.targets) then SharedLocked
             else SharedArmed)
  {
    var c1 := SetState(s.core, i, Idle);
    assert c1.targets[i].mode == Shared;
    assert AnyShared(c1.targets);
    assert GlobalState(c1.targets) == SharedIdle;
    SameLocked(s.core, c1);
  }

  // ------------------------------------------------------------------------------------
  // A disarm sticks

  /** The state a disarm leaves a target in that is not shared. */
  predicate Stopped(t: Target) {
    t.mode != Shared && t.dontRearm && t.state != Locked
  }

  /** Nobody asks for target i: no arm request, mode change or immediate capture of it. */
  predicate NotAskedFor(step: Step, i: TargetId) {
    step != DoArm(i) && (step.DoSetMode? ==> step.target != i) && (step.DoImmediateCapture? ==> i != DRAM)
  }

  /** Whether some step of a run newly arms target i. */
  predicate NeverArms(s: System, steps: seq<Step>, i: TargetId)
    decreases |steps|
  {
    steps == [] ||
    (i !in NewlyArmed(s.core, Next(s, steps[0]).core) && NeverArms(Next(s, steps[0]), steps[1..], i))
  }

  lemma UpdateKeepsUnshared(c: Core, i: TargetId)
    requires c.targets[i].mode != Shared
    ensures UpdateGlobal(c).targets[i] == c.targets[i]
  {
  }

  lemma StoppedStep(s: System, step: Step, i: TargetId)
    requires Inv(s) && Stopped(s.core.targets[i]) && NotAskedFor(step, i)
    ensures Stopped(Next(s, step).core.targets[i])
    ensures i !in NewlyArmed(s.core, Next(s, step).core)
  {
    hide UpdateGlobal, Consistent, LockCounts, HoldersReady, ClockOk, Release, Prepares, SharedMask;
    var c := s.core;
    match step
    case DoTrigger(j) => UpdateKeepsUnshared(SetState(c, j, Busy), i);
    case DoComplete(j) => UpdateKeepsUnshared(SetState(c, j, Idle), i);
    case DoSetMode(j, mode) =>
      UpdateKeepsUnshared(c.(targets := c.targets[j := c.targets[j].(mode := mode)]), i);
    case DoImmediateCapture => UpdateKeepsUnshared(CaptureStarted(c), i);
    case DoDisarm(j) => DisarmSharedStays(c);
    case DoDisarmShared => DisarmSharedStays(c);
    case DoWake(n, _, _) =>
      if n < |s.clients| && s.clients[n].Waiting? {
        StoppedRelease(c, s.clients[n].target, i);
      }
    case DoUnlock(n) =>
      if n < |s.clients| && s.clients[n].Holding? {
        StoppedRelease(c, s.clients[n].target, i);
      }
    case _ =>
  }

  lemma StoppedRelease(c: Core, j: TargetId, i: TargetId)
    requires Stopped(c.targets[i])
    ensures Stopped(Release(c, j).targets[i]) && Release(c, j).targets[i].state == c.targets[i].state
  {
  }

  /** After a disarm of a target that is not shared, whatever triggers, completions, locks and
      unlocks follow, and whatever happens to the other targets, nothing newly arms it until
      somebody asks for it. */
  lemma {:induction false} DisarmSticks(s: System, steps: seq<Step>, i: TargetId)
    requires Inv(s) && Stopped(s.core.targets[i])
    requires forall k :: 0 <= k < |steps| ==> NotAskedFor(steps[k], i)
    ensures Inv(Execute(s, steps)) && Stopped(Execute(s, steps).core.targets[i])
    ensures NeverArms(s, steps, i)
    decreases |steps|
  {
    if steps != [] {
      StoppedStep(s, steps[0], i);
      InvNext(s, steps[0]);
      DisarmSticks(Next(s, steps[0]), steps[1..], i);
    }
  }

  /** A disarm stops a sequencer target at once; the memory target keeps its armed state and
      is forced to trigger, after which its completion leaves it idle. */
  lemma DisarmStops(s: System, i: TargetId)
    requires Inv(s) && s.core.targets[i].mode != Shared
    ensures var c, r := s.core, Next(s, DoDisarm(i)).core;
            && Stopped(r.targets[i])
            && (r.targets[i].state == Armed <==> c.targets[i].state == Armed && i == DRAM)
            && (r.targets[i].state == Armed ==> News(c, r) == [DisarmPulse({DRAM}), FirePulse({DRAM})])
            && (r.targets[i].state == Busy <==> c.targets[i].state == Busy)
    ensures Execute(s, [DoDisarm(i), DoTrigger(i), DoComplete(i)]).core.targets[i].state == Idle
  {
    var s1 := Next(s, DoDisarm(i));
    var s2 := Next(s1, DoTrigger(i));
    var steps := [DoDisarm(i), DoTrigger(i), DoComplete(i)];
    assert steps[1..] == [DoTrigger(i), DoComplete(i)] && steps[1..][1..] == [DoComplete(i)];
    assert Execute(s2, [DoComplete(i)]) == Next(s2, DoComplete(i));
  }

  // ------------------------------------------------------------------------------------
  // Waiting

  function CeilDiv(a: nat, b: nat): nat
    requires b > 0
  {
    (a + b - 1) / b
  }

  /** The step polls waiting client n: its wait has reached a tick that is not the last one,
      and its target is not ready. */
  predicate Polls(s: System, step: Step, n: nat) {
    && step.DoWake? && step.client == n && step.timedOut
    && n < |s.clients| && s.clients[n].Waiting?
    && !Ready(s.core.targets[s.clients[n].target].state)
    && !Eq(s.clients[n].waiter.tick, s.clients[n].waiter.deadline)
  }

  /** In every state of every run a waiting client has been polled fewer times than there are
      ten second periods, begun or complete, in its timeout; and so has it after one more poll,
      whether that one fails or not. */
  lemma PollBound(s: System, step: Step, n: nat)
    requires Inv(s) && n < |s.clients| && s.clients[n].Waiting?
    ensures var w := s.clients[n].waiter;
            w.polls + (if Polls(s, step, n) then 1 else 0) <= CeilDiv(w.timeout, POLL_INTERVAL * MSECS) - 1
  {
    WaiterPolls(s.clients[n].waiter);
  }

  lemma WaiterPolls(w: Waiter)
    requires ClockOk(w)
    ensures var more := if Eq(w.tick, w.deadline) then 0 else 1;
            w.polls + more <= CeilDiv(w.timeout, POLL_INTERVAL * MSECS) - 1
  {
    hide Deadline, NextTick, Normal;
    if !Eq(w.tick, w.deadline) {
      ClockAdvances(w);
      FewerPeriods(w.polls + 1, w.timeout);
    } else {
      FewerPeriods(w.polls, w.timeout);
    }
  }

  lemma FewerPeriods(polls: nat, timeout: nat)
    requires polls * 10000 < timeout
    ensures polls <= CeilDiv(timeout, POLL_INTERVAL * MSECS) - 1
  {
    var q := (timeout + 9999) / 10000;
    assert timeout <= q * 10000;
    assert polls < q;
  }

  /** What a timeout of 2^31 milliseconds or more, which is converted to a negative integer,
      takes away from the nanoseconds of the time. */
  function TakenAway(timeout: Word): nat {
    (WORD32 - timeout) % MSECS * 1000000
  }

  lemma NegativeInterval(timeout: Word)
    requires timeout >= WORD32 / 2
    ensures FromInterval(Signed(timeout), MSECS).nsec == 0 - TakenAway(timeout)
  {
    var a := WORD32 - timeout;
    assert Signed(timeout) == -a;
    assert TruncMod(-a, MSECS) == -(a % MSECS);
  }

  /** The deadline given to the condition wait is normalised exactly for timeouts below 2^31
      milliseconds, and for the larger ones if the time has as many nanoseconds as they take
      away. */
  lemma DeadlineNormal(now: Instant, timeout: Word)
    ensures Normal(Deadline(now, timeout)) <==> timeout < WORD32 / 2 || now.nsec >= TakenAway(timeout)
  {
    if timeout < WORD32 / 2 {
      MillisecondsExact(timeout);
      RefinesNanoseconds(now, FromInterval(timeout, MSECS));
    } else {
      NegativeInterval(timeout);
    }
  }

  /** So it is normalised whatever the time exactly if they are a whole number of seconds. */
  lemma DeadlineNormalAlways(timeout: Word)
    ensures (forall now: Instant {:trigger Deadline(now, timeout)} :: Normal(Deadline(now, timeout))) <==>
            timeout < WORD32 / 2 || (WORD32 - timeout) % MSECS == 0
  {
    forall now: Instant
      ensures Normal(Deadline(now, timeout)) <==> timeout < WORD32 / 2 || now.nsec >= TakenAway(timeout)
    {
      DeadlineNormal(now, timeout);
    }
    var zero: Instant := Time(0, 0);
    assert Normal(Deadline(zero, timeout)) <==> timeout < WORD32 / 2 || TakenAway(timeout) == 0;
  }

  /** A run that gets there: a lock with the largest timeout of a target that is armed. */
  lemma NegativeDeadlineRun(now: Instant)
    requires now.nsec < 1000000
    ensures var s := Execute(Initial(1), [DoArm(0), DoLock(0, 0, 0xFFFF_FFFF, now)]);
            && s.clients[0].Waiting?
            && s.clients[0].waiter.deadline == Time(now.sec, now.nsec - 1000000)
            && !Normal(s.clients[0].waiter.deadline)
  {
    var s := Initial(1);
    var steps := [DoArm(0), DoLock(0, 0, 0xFFFF_FFFF, now)];
    var s1 := Next(s, DoArm(0));
    assert s.core.targets[0].mode == OneShot && s1.core.targets[0].state == Armed;
    assert steps[1..] == [steps[1]];
    assert Execute(s1, [steps[1]]) == Next(s1, steps[1]);
  }
}
