/** The shared targets, step by step: the table of shared states by count, and what every step
    leaves of the whole group and asks of the hardware. */
module TriggerGroup {
  import opened Common
  import opened TriggerModel
  import opened TriggerEffects
  import opened TriggerRuns
  import opened TriggerTheorems
  import opened TriggerPending
  import opened TriggerStranded
  import opened TriggerAlone

  // ------------------------------------------------------------------------------------
  // The table of shared states

  /** How many shared targets are in a state. */
  function CountIn(ts: seq<Target>, state: TargetState): nat {
    |set i: nat | i < |ts| && ts[i].mode == Shared && ts[i].state == state|
  }

  lemma CountIsSome(ts: seq<Target>, state: TargetState)
    ensures CountIn(ts, state) > 0 <==> HasShared(ts, state)
  {
    var which := set i: nat | i < |ts| && ts[i].mode == Shared && ts[i].state == state;
    if HasShared(ts, state) {
      var k :| 0 <= k < |ts| && ts[k].mode == Shared && ts[k].state == state;
      assert k in which;
    } else {
      assert which == {};
    }
  }

  /** The shared state by the numbers of locked, armed, busy and idle targets, row by row. */
  lemma StateTable(ts: seq<Target>)
    ensures var locked, armed, busy, idle := CountIn(ts, Locked), CountIn(ts, Armed), CountIn(ts, Busy), CountIn(ts, Idle);
            && (GlobalState(ts) == SharedInvalid <==> locked > 0 && (armed > 0 || busy > 0))
            && (GlobalState(ts) == SharedLocked <==> locked > 0 && armed == 0 && busy == 0)
            && (GlobalState(ts) == SharedMixed <==> locked == 0 && armed > 0 && (busy > 0 || idle > 0))
            && (GlobalState(ts) == SharedArmed <==> locked == 0 && armed > 0 && busy == 0 && idle == 0)
            && (GlobalState(ts) == SharedBusy <==> locked == 0 && armed == 0 && busy > 0)
            && (GlobalState(ts) == SharedIdle <==> locked == 0 && armed == 0 && busy == 0)
  {
    hide CountIn, HasShared;
    CountIsSome(ts, Locked);
    CountIsSome(ts, Armed);
    CountIsSome(ts, Busy);
    CountIsSome(ts, Idle);
  }

  // ------------------------------------------------------------------------------------
  // Arming the group

  /** The preparation of each target of a group in turn, and one pulse for all of them. */
  function GroupPulse(group: set<nat>): seq<Event> {
    (if 0 in group then [Prepare(0)] else []) + (if 1 in group then [Prepare(1)] else []) +
    (if 2 in group then [Prepare(2)] else []) + [ArmPulse(group)]
  }

  function Group(ts: seq<Target>): set<nat> {
    set i: nat | i < |ts| && ts[i].mode == Shared
  }

  predicate NoneActive(ts: seq<Target>) {
    forall i :: 0 <= i < |ts| && ts[i].mode == Shared ==> ts[i].state == Idle || ts[i].state == Locked
  }

  predicate Read(ts: seq<Target>) {
    exists i :: 0 <= i < |ts| && ts[i].mode == Shared && ts[i].lockCount > 0
  }

  /** Every shared target is armed, under one pulse. */
  predicate AllArmed(c: Core, r: Core) {
    && (forall i: TargetId ::
          r.targets[i] == if c.targets[i].mode == Shared then Target(Shared, false, Armed, 0) else c.targets[i])
    && r.log == c.log + GroupPulse(Group(c.targets))
    && r.shared == SharedTrigger(c.shared.retrigger, false, SharedArmed)
  }

  /** The targets being read are locked, and nothing is asked of the hardware. */
  predicate AllPostponed(c: Core, r: Core) {
    && (forall i: TargetId ::
          r.targets[i] == if c.targets[i].mode == Shared && c.targets[i].lockCount > 0 then c.targets[i].(state := Locked)
                          else c.targets[i])
    && r.log == c.log
    && r.shared == SharedTrigger(c.shared.retrigger, false, SharedLocked)
  }

  /** What a request to arm the group leaves. */
  predicate Asked(c: Core, r: Core) {
    if NoneActive(c.targets) && Read(c.targets) then AllPostponed(c, r)
    else if NoneActive(c.targets) && Group(c.targets) != {} then AllArmed(c, r)
    else r == c.(shared := c.shared.(dontRearm := false))
  }

  /** What a change of some target leaves of the group: an arm that is pending is carried out if
      nobody reads the group any more, and a group that has come to rest rearms if it is to do so
      by itself; otherwise only the shared state changes. */
  predicate Refreshed(c: Core, r: Core) {
    var waits, rests := CountIn(c.targets, Locked) > 0, c.shared.retrigger && !c.shared.dontRearm;
    if NoneActive(c.targets) && Group(c.targets) != {} && !Read(c.targets) && (waits || rests) then AllArmed(c, r)
    else if NoneActive(c.targets) && Read(c.targets) && !waits && rests then AllPostponed(c, r)
    else r == c.(shared := c.shared.(state := GlobalState(c.targets)))
  }

  lemma GroupIs(ts: seq<Target>)
    ensures Group(ts) == SharedMask(ts) && (Group(ts) != {} <==> AnyShared(ts)) && (Read(ts) <==> AnyLocked(ts))
    ensures NoneActive(ts) <==> GlobalState(ts) == SharedIdle || GlobalState(ts) == SharedLocked
  {
    if AnyShared(ts) {
      SharedMaskSome(ts);
    }
    NoneActiveIs(ts);
  }

  lemma NoneActiveIs(ts: seq<Target>)
    ensures NoneActive(ts) <==> !HasShared(ts, Armed) && !HasShared(ts, Busy)
  {
    if !NoneActive(ts) {
      var i :| 0 <= i < |ts| && ts[i].mode == Shared && !(ts[i].state == Idle || ts[i].state == Locked);
      assert HasShared(ts, ts[i].state);
    }
  }

  lemma GroupPrepares(ts: Targets)
    requires forall i: TargetId :: ts[i].mode == Shared ==> Arms(ts[i])
    ensures Prepares(ts, 3) + [ArmPulse(SharedMask(ts))] == GroupPulse(Group(ts))
  {
    assert forall i: TargetId :: i in Group(ts) <==> ts[i].mode == Shared;
    assert Prepares(ts, 3) == Prepares(ts, 2) + if ts[2].mode == Shared then [Prepare(2)] else [];
    assert Prepares(ts, 2) == Prepares(ts, 1) + if ts[1].mode == Shared then [Prepare(1)] else [];
    assert Prepares(ts, 1) == Prepares(ts, 0) + if ts[0].mode == Shared then [Prepare(0)] else [];
    assert Prepares(ts, 0) == [];
  }

  lemma AskedExact(c: Core)
    requires CachedState(c)
    ensures Asked(c, ArmShared(c))
  {
    hide GlobalState, Prepares, SharedMask, Arms;
    GroupIs(c.targets);
    if NoneActive(c.targets) && !Read(c.targets) && Group(c.targets) != {} {
      AllArm(c.targets);
      GroupPrepares(c.targets);
      ArmedOnes(c.targets);
    }
  }

  lemma ArmedOnes(ts: Targets)
    requires forall i: TargetId :: ts[i].mode == Shared ==> Arms(ts[i])
    ensures forall i: TargetId ::
              ArmedAll(ts)[i] == if ts[i].mode == Shared then Target(Shared, false, Armed, 0) else ts[i]
  {
  }

  lemma RefreshedExact(c: Core)
    ensures Refreshed(c, UpdateGlobal(c))
  {
    hide GlobalState, ArmShared, CountIn, AnyLocked, AnyShared, AllArmed, AllPostponed, NoneActive, Read;
    var c1 := c.(shared := c.shared.(state := GlobalState(c.targets)));
    GroupIs(c.targets);
    StateTable(c.targets);
    SomeInGroup(c.targets);
    AskedExact(c1);
    if NoneActive(c.targets) && Group(c.targets) != {} {
      AskedMeans(c, c1, ArmShared(c1));
    }
  }

  lemma SomeInGroup(ts: seq<Target>)
    ensures CountIn(ts, Locked) > 0 || Read(ts) ==> Group(ts) != {}
  {
    CountIsSome(ts, Locked);
    if HasShared(ts, Locked) || AnyLocked(ts) {
      SomeLocked(ts);
      SharedMaskSome(ts);
    }
  }

  lemma AskedMeans(c: Core, c1: Core, r: Core)
    requires c1.targets == c.targets && c1.log == c.log && c1.shared == c.shared.(state := c1.shared.state)
    requires Asked(c1, r) && NoneActive(c.targets) && Group(c.targets) != {}
    ensures if Read(c.targets) then AllPostponed(c, r) else AllArmed(c, r)
  {
  }

  // ------------------------------------------------------------------------------------
  // What a step leaves of the group

  /** Every shared target is stopped: the memory target by forcing its trigger, the sequencers at
      once; a busy one goes on. */
  predicate AllDisarmed(c: Core, r: Core) {
    && (forall i: TargetId ::
          var was := c.targets[i];
          r.targets[i] ==
            if was.mode != Shared then was
            else Target(Shared, true,
                        match was.state
                        case Armed => if i == 2 then Armed else Idle
                        case Busy => Busy
                        case _ => Idle,
                        was.lockCount))
    && r.log == c.log + [DisarmPulse(Group(c.targets))] +
                (if c.targets[2].mode == Shared && c.targets[2].state == Armed then [FirePulse({2})] else [])
    && r.shared == SharedTrigger(c.shared.retrigger, true, GlobalState(r.targets))
  }

  /** The table: what is left by each step that acts on a shared target or changes a mode. */
  predicate GroupNext(s: System, step: Step, r: Core) {
    var c := s.core;
    match step
    case DoArmShared => Asked(c, r)
    case DoArm(i) => c.targets[i].mode == Shared ==> Asked(c, r)
    case DoDisarmShared => AllDisarmed(c, r)
    case DoDisarm(i) => c.targets[i].mode == Shared ==> AllDisarmed(c, r)
    case DoTrigger(i) =>
      c.targets[i].mode == Shared ==>
        if c.targets[i].state == Armed
        then r == c.(targets := c.targets[i := c.targets[i].(state := Busy)], shared := c.shared.(state := r.shared.state))
        else r == c
    case DoComplete(i) =>
      c.targets[i].mode == Shared ==>
        if c.targets[i].state == Busy then Refreshed(c.(targets := c.targets[i := c.targets[i].(state := Idle)]), r)
        else r == c
    case DoSetMode(i, mode) => Refreshed(c.(targets := c.targets[i := c.targets[i].(mode := mode)]), r)
    case DoSetRetrigger(retrigger) => r == c.(shared := c.shared.(retrigger := retrigger))
    case DoImmediateCapture =>
      c.targets[2].mode == Shared ==>
        if c.targets[2].lockCount == 0 && c.targets[2].state == Idle
        then r == Core(c.targets[2 := Target(Shared, true, Armed, 0)], c.shared.(state := r.shared.state),
                       c.log + [CaptureStart, FirePulse({2})])
        else r == c
    case DoLock(_, i, _, _) =>
      && (Enters(s, step, i) ==>
            && r.targets[i].lockCount == c.targets[i].lockCount + 1
            && r == c.(targets := c.targets[i := c.targets[i].(lockCount := r.targets[i].lockCount)]))
      && (!Enters(s, step, i) ==> r == c)
    case DoWake(_, _, _) => forall i: TargetId :: c.targets[i].mode == Shared && Leaves(s, step, i) ==> LeftNext(c, i, r)
    case DoUnlock(_) => forall i: TargetId :: c.targets[i].mode == Shared && Leaves(s, step, i) ==> LeftNext(c, i, r)
  }

  /** What a reader of shared target i leaves when it goes. */
  predicate LeftNext(c: Core, i: TargetId, r: Core) {
    if c.targets[i].lockCount > 1 then
      && r.targets[i].lockCount == c.targets[i].lockCount - 1
      && r == c.(targets := c.targets[i := c.targets[i].(lockCount := r.targets[i].lockCount)])
    else Refreshed(c.(targets := c.targets[i := c.targets[i].(lockCount := 0)]), r)
  }

  lemma {:induction false} StopsExact(ts: Targets)
    ensures SharedStops(ts, 3) == if ts[2].mode == Shared && ts[2].state == Armed then [FirePulse({2})] else []
  {
    assert SharedStops(ts, 3) == SharedStops(ts, 2) + if ts[2].mode == Shared then DisarmEvents(ts[2], 2) else [];
    assert SharedStops(ts, 2) == SharedStops(ts, 1) + if ts[1].mode == Shared then DisarmEvents(ts[1], 1) else [];
    assert SharedStops(ts, 1) == SharedStops(ts, 0) + if ts[0].mode == Shared then DisarmEvents(ts[0], 0) else [];
    assert SharedStops(ts, 0) == [];
  }

  lemma DisarmedExact(c: Core)
    ensures AllDisarmed(c, DisarmShared(c))
  {
    hide SharedStops, GlobalState;
    DisarmSharedStays(c);
    StopsExact(c.targets);
    GroupIs(c.targets);
    DisarmKeepsRetrigger(c);
  }

  lemma DisarmKeepsRetrigger(c: Core)
    ensures DisarmShared(c).shared.retrigger == c.shared.retrigger
  {
  }

  /** The trigger of an armed shared target rearms nothing. */
  lemma TriggeredExact(c: Core, i: TargetId)
    requires c.targets[i].mode == Shared
    ensures var c1 := c.(targets := c.targets[i := c.targets[i].(state := Busy)]);
            UpdateGlobal(c1) == c1.(shared := c1.shared.(state := UpdateGlobal(c1).shared.state))
  {
    var c1 := c.(targets := c.targets[i := c.targets[i].(state := Busy)]);
    assert c1.targets[i].mode == Shared && c1.targets[i].state == Busy;
    RefreshedExact(c1);
  }

  lemma LeftExact(c: Core, i: TargetId)
    requires c.targets[i].mode == Shared && c.targets[i].lockCount > 0
    ensures LeftNext(c, i, Release(c, i))
  {
    hide UpdateGlobal, Refreshed;
    RefreshedExact(CountDown(c, i));
  }

  /** In every state of every run, a step leaves the whole group as the table says. */
  lemma GroupStep(s: System, step: Step)
    requires Inv(s)
    ensures GroupNext(s, step, Next(s, step).core)
  {
    hide UpdateGlobal, ArmShared, DisarmShared, Release, Asked, Refreshed, LeftNext, AllDisarmed, LockCounts, HoldersReady, ClockOk;
    var c := s.core;
    match step
    case DoArm(_) => AskedExact(c);
    case DoArmShared => AskedExact(c);
    case DoDisarm(_) => DisarmedExact(c);
    case DoDisarmShared => DisarmedExact(c);
    case DoTrigger(i) =>
      if c.targets[i].mode == Shared {
        TriggeredExact(c, i);
      }
    case DoComplete(i) => RefreshedExact(SetState(c, i, Idle));
    case DoSetMode(i, mode) => RefreshedExact(c.(targets := c.targets[i := c.targets[i].(mode := mode)]));
    case DoSetRetrigger(_) =>
    case DoImmediateCapture =>
      if CaptureReady(c) && c.targets[DRAM].mode == Shared {
        CaptureNoRearm(c);
      }
    case DoLock(_, i, _, _) => EntersExact(s, step, i);
    case DoWake(n, _, _) => LeavesExact(s, step, n);
    case DoUnlock(n) => LeavesExact(s, step, n);
  }

  lemma EntersExact(s: System, step: Step, i: TargetId)
    requires Inv(s) && step.DoLock? && step.target == i
    ensures GroupNext(s, step, Next(s, step).core)
  {
    InvNext(s, step);
    LockNet(s, step, i);
  }

  lemma LeavesExact(s: System, step: Step, n: nat)
    requires Inv(s) && (step.DoWake? || step.DoUnlock?) && step.client == n
    ensures GroupNext(s, step, Next(s, step).core)
  {
    hide Release, LeftNext;
    if n < |s.clients| && !s.clients[n].Free? {
      var i := s.clients[n].target;
      HeldCount(s, n);
      if s.core.targets[i].mode == Shared {
        LeftExact(s.core, i);
      }
    }
  }

  /** A step that acts on a target that is not shared, and does not change its mode, leaves the
      other targets and the group as they were. */
  lemma OthersKept(s: System, step: Step, i: TargetId)
    requires Inv(s) && s.core.targets[i].mode != Shared && ActsOn(s, step, i) && !step.DoSetMode?
    ensures var c, r := s.core, Next(s, step).core;
            r == Core(c.targets[i := r.targets[i]], c.shared, c.log + AloneRequests(s, step, i))
  {
    hide UpdateGlobal, ArmShared, DisarmShared, LockCounts, HoldersReady, ClockOk, Consistent;
    AloneRequestsExact(s, step, i);
  }
}
