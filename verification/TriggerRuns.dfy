/** All interleavings of the trigger code: user commands, hardware events and any number of
    reader threads, one mutex-held section at a time. */
module TriggerRuns {
  import opened Common
  import opened Timespec
  import opened TriggerModel
  import opened TriggerEffects

  /** Where a reader thread stands: it waits or holds between the sections it runs. */
  datatype Client = Free | Waiting(target: TargetId, waiter: Waiter) | Holding(target: TargetId)

  datatype System = System(core: Core, clients: seq<Client>)

  datatype Step =
    | DoArm(target: TargetId)
    | DoDisarm(target: TargetId)
    | DoTrigger(target: TargetId)
    | DoComplete(target: TargetId)
    | DoSetMode(target: TargetId, mode: Mode)
    | DoArmShared
    | DoDisarmShared
    | DoSetRetrigger(retrigger: bool)
    | DoImmediateCapture
    | DoLock(client: nat, target: TargetId, timeout: Word, now: Instant)
    | DoWake(client: nat, timedOut: bool, pollFails: bool)
    | DoUnlock(client: nat)

  function Outcome(i: TargetId, r: LockResult): Client {
    match r
    case Granted => Holding(i)
    case Refused => Free
    case Blocked(w) => Waiting(i, w)
  }

  function After(s: System, client: nat, i: TargetId, result: (Core, LockResult)): System
    requires client < |s.clients|
  {
    System(result.0, s.clients[client := Outcome(i, result.1)])
  }

  /** A step that its thread is in no position to take changes nothing. */
  function Next(s: System, step: Step): (r: System)
    ensures |r.clients| == |s.clients|
  {
    var c := s.core;
    match step
    case DoArm(i) => s.(core := ArmTarget(c, i))
    case DoDisarm(i) => s.(core := DisarmTarget(c, i))
    case DoTrigger(i) => s.(core := Trigger(c, i))
    case DoComplete(i) => s.(core := Complete(c, i))
    case DoSetMode(i, mode) => s.(core := SetMode(c, i, mode))
    case DoArmShared => s.(core := ArmShared(c))
    case DoDisarmShared => s.(core := DisarmShared(c))
    case DoSetRetrigger(retrigger) => s.(core := SetRetrigger(c, retrigger))
    case DoImmediateCapture => s.(core := ImmediateCapture(c))
    case DoLock(n, i, timeout, now) =>
      if n < |s.clients| && s.clients[n].Free? then After(s, n, i, LockBegin(c, i, timeout, now)) else s
    case DoWake(n, timedOut, pollFails) =>
      if n < |s.clients| && s.clients[n].Waiting? then
        var i := s.clients[n].target;
        After(s, n, i, WaitReturned(c, i, s.clients[n].waiter, timedOut, pollFails))
      else s
    case DoUnlock(n) =>
      if n < |s.clients| && s.clients[n].Holding? then
        System(Release(c, s.clients[n].target), s.clients[n := Free])
      else s
  }

  function Execute(s: System, steps: seq<Step>): (r: System)
    ensures |r.clients| == |s.clients|
    decreases |steps|
  {
    if steps == [] then s else Execute(Next(s, steps[0]), steps[1..])
  }

  function Initial(threads: nat): System {
    System(InitialCore(), seq(threads, _ => Free))
  }

  // ------------------------------------------------------------------------------------
  // The invariant

  predicate On(client: Client, i: nat) {
    !client.Free? && client.target == i
  }

  /** How many threads hold, or wait to hold, target i. */
  function CountOn(clients: seq<Client>, i: nat): (n: nat)
    ensures n <= |clients|
  {
    if clients == [] then 0
    else CountOn(clients[1..], i) + if On(clients[0], i) then 1 else 0
  }

  lemma {:induction false} CountOnUpdate(clients: seq<Client>, n: nat, client: Client, i: nat)
    requires n < |clients|
    ensures CountOn(clients[n := client], i) ==
            CountOn(clients, i) - (if On(clients[n], i) then 1 else 0) + (if On(client, i) then 1 else 0)
  {
    if n == 0 {
      assert clients[n := client][1..] == clients[1..];
    } else {
      assert clients[n := client][1..] == clients[1..][n - 1 := client];
      CountOnUpdate(clients[1..], n - 1, client, i);
    }
  }

  predicate LockCounts(s: System)
  {
    forall i: TargetId :: s.core.targets[i].lockCount == CountOn(s.clients, i)
  }

  predicate HoldersReady(s: System)
  {
    forall n :: 0 <= n < |s.clients| && s.clients[n].Holding? ==>
      Ready(s.core.targets[s.clients[n].target].state)
  }

  ghost predicate Inv(s: System) {
    && |s.clients| < WORD32
    && Consistent(s.core)
    && LockCounts(s)
    && HoldersReady(s)
    && forall n :: 0 <= n < |s.clients| && s.clients[n].Waiting? ==> ClockOk(s.clients[n].waiter)
  }

  // ------------------------------------------------------------------------------------
  // The wait clock

  const POLL_NANOS := POLL_INTERVAL * NSECS

  /** The longest wait, in nanoseconds, as the code computes it from the timeout. */
  function WaitNanos(timeout: Word): int {
    Signed(timeout) * 1000000
  }

  ghost predicate ClockOk(w: Waiter) {
    && Normal(w.start)
    && w.timeout > 0
    && w.deadline == Deadline(w.start, w.timeout)
    && Nanos(w.deadline) == Nanos(w.start) + WaitNanos(w.timeout)
    && Nanos(w.tick) == Min(Nanos(w.start) + (w.polls + 1) * POLL_NANOS, Nanos(w.deadline))
    && (w.polls > 0 ==> w.polls * POLL_NANOS < WaitNanos(w.timeout))
    && (Signed(w.timeout) >= 0 ==> Normal(w.tick) && Normal(w.deadline))
    && (Signed(w.timeout) < 0 ==> w.tick == w.deadline)
  }

  lemma ClockStarts(now: Instant, timeout: Word)
    requires timeout > 0
    ensures var deadline := Deadline(now, timeout);
            ClockOk(Waiter(now, timeout, NextTick(now, deadline), deadline, 0))
  {
    var interval := FromInterval(Signed(timeout), MSECS);
    var delta := FromInterval(POLL_INTERVAL, 1);
    MillisecondsExact(Signed(timeout));
    assert delta == Time(10, 0);
    RefinesNanoseconds(now, delta);
    var deadline := Deadline(now, timeout);
    assert Nanos(deadline) == Nanos(now) + WaitNanos(timeout);
    if Signed(timeout) >= 0 {
      RefinesNanoseconds(now, interval);
      RefinesNanoseconds(Add(now, delta), deadline);
    } else {
      assert interval.sec <= 0 && interval.nsec <= 0;
    }
  }

  /** A wait that times out before its last tick moves on to a strictly later tick. */
  lemma ClockAdvances(w: Waiter)
    requires ClockOk(w) && !Eq(w.tick, w.deadline)
    ensures var tick := NextTick(w.tick, w.deadline);
            && ClockOk(w.(tick := tick, polls := w.polls + 1))
            && Nanos(w.tick) < Nanos(tick) <= Nanos(w.deadline)
  {
    var delta := FromInterval(POLL_INTERVAL, 1);
    assert delta == Time(10, 0);
    RefinesNanoseconds(w.tick, delta);
    RefinesNanoseconds(w.tick, w.deadline);
    RefinesNanoseconds(Add(w.tick, delta), w.deadline);
  }

  // ------------------------------------------------------------------------------------
  // The invariant is kept by every step

  lemma {:induction false} CountOnPositive(clients: seq<Client>, n: nat)
    requires n < |clients| && !clients[n].Free?
    ensures CountOn(clients, clients[n].target) > 0
  {
    if n > 0 {
      CountOnPositive(clients[1..], n - 1);
    }
  }

  /** While a thread holds target i its lock count is positive. */
  lemma HeldCount(s: System, n: nat)
    requires LockCounts(s) && n < |s.clients| && !s.clients[n].Free?
    ensures s.core.targets[s.clients[n].target].lockCount > 0
  {
    CountOnPositive(s.clients, n);
  }

  predicate CoreStep(step: Step) {
    !step.DoLock? && !step.DoWake? && !step.DoUnlock?
  }

  lemma CoreStepEffect(s: System, step: Step)
    requires Consistent(s.core) && CoreStep(step)
    ensures var c, r := s.core, Next(s, step).core;
            && Next(s, step).clients == s.clients
            && Consistent(r) && SameLocks(c, r) && LeavesReadersAlone(c, r)
            && (!step.DoImmediateCapture? ==> ExactPulse(c, r))
  {
    var c := s.core;
    match step
    case DoArm(i) => ArmTargetEffect(c, i);
    case DoDisarm(i) => DisarmTargetEffect(c, i);
    case DoTrigger(i) => TriggerEffect(c, i);
    case DoComplete(i) => CompleteEffect(c, i);
    case DoSetMode(i, mode) => SetModeEffect(c, i, mode);
    case DoArmShared => ArmSharedEffect(c);
    case DoDisarmShared => DisarmSharedEffect(c);
    case DoSetRetrigger(retrigger) => QuietEffect(c, SetRetrigger(c, retrigger));
    case DoImmediateCapture => ImmediateCaptureEffect(c);
  }

  lemma InvCoreStep(s: System, step: Step)
    requires Inv(s) && CoreStep(step)
    ensures Inv(Next(s, step))
  {
    CoreStepEffect(s, step);
    var r := Next(s, step);
    forall n | 0 <= n < |r.clients| && r.clients[n].Holding?
      ensures Ready(r.core.targets[r.clients[n].target].state)
    {
      HeldCount(s, n);
    }
  }

  lemma InvLock(s: System, n: nat, i: TargetId, timeout: Word, now: Instant)
    requires Inv(s) && n < |s.clients| && s.clients[n].Free?
    ensures Inv(Next(s, DoLock(n, i, timeout, now)))
  {
    hide Consistent, Ready, NextTick, Deadline;
    var c := s.core;
    var result := LockBegin(c, i, timeout, now).1;
    var r := Next(s, DoLock(n, i, timeout, now));
    forall j: TargetId ensures CountOn(r.clients, j) ==
        CountOn(s.clients, j) + if j == i && !result.Refused? then 1 else 0 {
      CountOnUpdate(s.clients, n, Outcome(i, result), j);
    }
    if !result.Refused? {
      CountedIn(s, r, i);
    }
    if timeout > 0 {
      ClockStarts(now, timeout);
    }
  }

  /** One thread more on target i is counted in its lock count, which does not wrap. */
  lemma CountedIn(s: System, r: System, i: TargetId)
    requires Consistent(s.core) && LockCounts(s) && r.core == CountUp(s.core, i)
    requires |r.clients| < WORD32
    requires forall j: TargetId :: CountOn(r.clients, j) == CountOn(s.clients, j) + if j == i then 1 else 0
    ensures Consistent(r.core) && LockCounts(r)
  {
    hide Consistent;
    var c := s.core;
    assert CountOn(r.clients, i) <= |r.clients| < WORD32;
    assert r.core == c.(targets := c.targets[i := c.targets[i].(lockCount := CountOn(r.clients, i))]);
    StillLocked(c, r.core, i);
  }

  /** A release by a thread on target i, which leaves it. */
  lemma InvRelease(s: System, n: nat, i: TargetId)
    requires Inv(s) && n < |s.clients| && On(s.clients[n], i)
    ensures Inv(System(Release(s.core, i), s.clients[n := Free]))
  {
    var c1 := CountDown(s.core, i);
    var r := System(Release(s.core, i), s.clients[n := Free]);
    HeldCount(s, n);
    assert c1.targets[i].lockCount == s.core.targets[i].lockCount - 1;
    forall j: TargetId ensures CountOn(r.clients, j) == CountOn(s.clients, j) - if j == i then 1 else 0 {
      CountOnUpdate(s.clients, n, Free, j);
    }
    ReleaseEffect(s.core, i);
    assert LockCounts(r);
    forall m | 0 <= m < |r.clients| && r.clients[m].Holding?
      ensures Ready(r.core.targets[r.clients[m].target].state)
    {
      HeldCount(r, m);
    }
  }

  lemma InvWake(s: System, n: nat, timedOut: bool, pollFails: bool)
    requires Inv(s) && n < |s.clients| && s.clients[n].Waiting?
    ensures Inv(Next(s, DoWake(n, timedOut, pollFails)))
  {
    hide Consistent, Release, NextTick, Deadline;
    var i, w := s.clients[n].target, s.clients[n].waiter;
    var result := WaitReturned(s.core, i, w, timedOut, pollFails).1;
    if result.Refused? {
      InvRelease(s, n, i);
    } else {
      forall j ensures CountOn(s.clients[n := Outcome(i, result)], j) == CountOn(s.clients, j) {
        CountOnUpdate(s.clients, n, Outcome(i, result), j);
      }
      if !Eq(w.tick, w.deadline) {
        ClockAdvances(w);
      }
    }
  }

  lemma InvNext(s: System, step: Step)
    requires Inv(s)
    ensures Inv(Next(s, step)) && |Next(s, step).clients| == |s.clients|
  {
    match step
    case DoLock(n, i, timeout, now) =>
      if n < |s.clients| && s.clients[n].Free? {
        InvLock(s, n, i, timeout, now);
      }
    case DoWake(n, timedOut, pollFails) =>
      if n < |s.clients| && s.clients[n].Waiting? {
        InvWake(s, n, timedOut, pollFails);
      }
    case DoUnlock(n) =>
      if n < |s.clients| && s.clients[n].Holding? {
        InvRelease(s, n, s.clients[n].target);
      }
    case _ => InvCoreStep(s, step);
  }

  lemma {:induction false} InvExecute(s: System, steps: seq<Step>)
    requires Inv(s)
    ensures Inv(Execute(s, steps))
    decreases |steps|
  {
    if steps != [] {
      InvNext(s, steps[0]);
      InvExecute(Next(s, steps[0]), steps[1..]);
    }
  }

  lemma {:induction false} AllFree(threads: nat, i: nat)
    ensures CountOn(seq(threads, _ => Free), i) == 0
  {
    if threads > 0 {
      assert seq(threads, _ => Free)[1..] == seq(threads - 1, _ => Free);
      AllFree(threads - 1, i);
    }
  }

  /** Every state reached by any number of threads below 2^32 in any interleaving. */
  lemma Reachable(threads: nat, steps: seq<Step>)
    requires threads < WORD32
    ensures Inv(Execute(Initial(threads), steps))
  {
    forall i: TargetId ensures CountOn(Initial(threads).clients, i) == 0 {
      AllFree(threads, i);
    }
    InvExecute(Initial(threads), steps);
  }
}
