/** The trigger target code in its own form: an array of targets and the shared trigger
    structure updated in place.  Every method is one section run with the trigger mutex
    held (or a helper of one) and is proved against the functions of TriggerModel. */
module TriggerTargets {
  import opened Common
  import opened Timespec
  import opened TriggerModel

  class TriggerSystem {
    const targets: array<Target>
    var shared: SharedTrigger
    ghost var log: seq<Event>

    ghost predicate Valid()
      reads this
    {
      targets.Length == TARGET_COUNT
    }

    ghost function State(): (c: Core)
      requires Valid()
      reads this, targets
    {
      Core(targets[..], shared, log)
    }

    constructor ()
      ensures Valid() && fresh(targets)
      ensures State() == InitialCore()
    {
      targets := new Target[TARGET_COUNT](_ => Target(OneShot, false, Idle, 0));
      shared := SharedTrigger(false, true, SharedIdle);
      log := [];
    }

    method ComputeGlobalState() returns (r: SharedState)
      requires Valid()
      ensures r == GlobalState(targets[..])
    {
      var busy, armed, locked, idle := false, false, false, false;
      for i := 0 to targets.Length
        invariant busy == HasShared(targets[..i], Busy)
        invariant armed == HasShared(targets[..i], Armed)
        invariant locked == HasShared(targets[..i], Locked)
        invariant idle == HasShared(targets[..i], Idle)
      {
        assert targets[..i + 1] == targets[..i] + [targets[i]];
        HasSharedExtends(targets[..i], targets[i]);
        if targets[i].mode == Shared {
          match targets[i].state {
            case Busy => busy := true;
            case Armed => armed := true;
            case Locked => locked := true;
            case Idle => idle := true;
          }
        }
      }
      assert targets[..targets.Length] == targets[..];
      if locked {
        r := if armed || busy then SharedInvalid else SharedLocked;
      } else if armed {
        r := if busy || idle then SharedMixed else SharedArmed;
      } else if busy {
        r := SharedBusy;
      } else {
        r := SharedIdle;
      }
    }

    method AnyLockedTargets() returns (any: bool)
      requires Valid()
      ensures any == AnyLocked(targets[..])
    {
      any := false;
      for i := 0 to targets.Length
        invariant any <==> exists k :: 0 <= k < i && targets[k].mode == Shared && targets[k].lockCount > 0
      {
        if targets[i].mode == Shared && targets[i].lockCount > 0 {
          any := true;
        }
      }
    }

    method AnySharedTargets() returns (any: bool)
      requires Valid()
      ensures any == AnyShared(targets[..])
    {
      any := false;
      for i := 0 to targets.Length
        invariant any <==> exists k :: 0 <= k < i && targets[k].mode == Shared
      {
        if targets[i].mode == Shared {
          any := true;
        }
      }
    }

    /** The mask as the set of its true entries. */
    method GetSharedMask() returns (mask: set<nat>)
      requires Valid()
      ensures mask == SharedMask(targets[..])
    {
      mask := {};
      for i := 0 to targets.Length
        invariant mask == set k: nat | k < i && targets[k].mode == Shared
      {
        if targets[i].mode == Shared {
          mask := mask + {i};
        }
      }
    }

    /** Arms one target or postpones its arming; true if the hardware must be armed. */
    method DoArmTarget(i: TargetId) returns (armed: bool)
      requires Valid()
      modifies this`log, targets
      ensures armed == old(Arms(targets[i]))
      ensures targets[..] == old(targets[..])[i := old(ArmedTarget(targets[i]))]
      ensures log == old(log) + if armed then [Prepare(i)] else []
    {
      armed := false;
      if targets[i].state == Idle || targets[i].state == Locked {
        if targets[i].lockCount == 0 {
          targets[i] := targets[i].(dontRearm := false);
          log := log + [Prepare(i)];
          targets[i] := targets[i].(state := Armed);
          armed := true;
        } else {
          targets[i] := targets[i].(state := Locked);
        }
      }
    }

    method DoDisarmTarget(i: TargetId)
      requires Valid()
      modifies this`log, targets
      ensures targets[..] == old(targets[..])[i := old(DisarmedTarget(targets[i], i))]
      ensures log == old(log) + old(DisarmEvents(targets[i], i))
    {
      targets[i] := targets[i].(dontRearm := true);
      if targets[i].state == Armed {
        log := log + StopEvents(i);
        targets[i] := targets[i].(state := StopState(i));
      } else if targets[i].state == Locked {
        targets[i] := targets[i].(state := Idle);
      }
    }

    method ArmSharedTargets()
      requires Valid()
      modifies this, targets
      ensures Valid() && State() == ArmShared(old(State()))
    {
      hide ArmedTarget, ArmedAll, LockHeldAll, Arms, SharedMask, AnyLocked, AnyShared;
      ghost var before := targets[..];
      shared := shared.(dontRearm := false);
      if shared.state == SharedIdle || shared.state == SharedLocked {
        var anyLocked := AnyLockedTargets();
        if anyLocked {
          for i := 0 to targets.Length
            invariant shared == old(shared).(dontRearm := false) && log == old(log)
            invariant forall k :: 0 <= k < i ==> targets[k] == LockHeld(before[k])
            invariant forall k :: i <= k < targets.Length ==> targets[k] == before[k]
          {
            if targets[i].mode == Shared && targets[i].lockCount > 0 {
              targets[i] := targets[i].(state := Locked);
            }
          }
          assert targets[..] == LockHeldAll(before) by {
            LockedInPlace(before, targets[..]);
          }
          shared := shared.(state := SharedLocked);
        } else {
          var anyShared := AnySharedTargets();
          if anyShared {
            for i := 0 to targets.Length
              invariant shared == old(shared).(dontRearm := false)
              invariant forall k :: 0 <= k < i ==>
                          targets[k] == if before[k].mode == Shared then ArmedTarget(before[k]) else before[k]
              invariant forall k :: i <= k < targets.Length ==> targets[k] == before[k]
              invariant log == old(log) + Prepares(before, i)
            {
              if targets[i].mode == Shared {
                var _ := DoArmTarget(i);
              }
            }
            ArmedInPlace(before, targets[..]);
            var mask := GetSharedMask();
            log := log + [ArmPulse(mask)];
            shared := shared.(state := SharedArmed);
          }
        }
      }
    }

    lemma ArmedInPlace(before: seq<Target>, now: seq<Target>)
      requires |now| == |before|
      requires forall k :: 0 <= k < |before| ==>
                 now[k] == if before[k].mode == Shared then ArmedTarget(before[k]) else before[k]
      ensures now == ArmedAll(before) && SharedMask(now) == SharedMask(before)
    {
    }

    lemma LockedInPlace(before: seq<Target>, now: seq<Target>)
      requires |now| == |before| && forall k :: 0 <= k < |before| ==> now[k] == LockHeld(before[k])
      ensures now == LockHeldAll(before)
    {
    }

    method UpdateGlobalState()
      requires Valid()
      modifies this, targets
      ensures Valid() && State() == UpdateGlobal(old(State()))
    {
      var newState := ComputeGlobalState();
      shared := shared.(state := newState);
      var anyLocked := AnyLockedTargets();
      if (newState == SharedIdle && shared.retrigger && !shared.dontRearm) ||
         (newState == SharedLocked && !anyLocked) {
        ArmSharedTargets();
      }
    }

    method DisarmSharedTargets()
      requires Valid()
      modifies this, targets
      ensures Valid() && State() == DisarmShared(old(State()))
    {
      hide UpdateGlobal, DisarmedTarget, DisarmEvents, SharedMask, GlobalState;
      ghost var before := targets[..];
      shared := shared.(dontRearm := true);
      var mask := GetSharedMask();
      log := log + [DisarmPulse(mask)];
      for i := 0 to targets.Length
        invariant shared == old(shared).(dontRearm := true)
        invariant forall k :: 0 <= k < i ==>
                    targets[k] == if before[k].mode == Shared then DisarmedTarget(before[k], k) else before[k]
        invariant forall k :: i <= k < targets.Length ==> targets[k] == before[k]
        invariant log == old(log) + [DisarmPulse(mask)] + SharedStops(before, i)
      {
        if targets[i].mode == Shared {
          DoDisarmTarget(i);
        }
      }
      assert targets[..] == DisarmedAll(before);
      UpdateGlobalState();
    }

    method ArmTargetLocked(i: TargetId)
      requires Valid()
      modifies this, targets
      ensures Valid() && State() == ArmTarget(old(State()), i)
    {
      if targets[i].mode == Shared {
        ArmSharedTargets();
      } else {
        var armed := DoArmTarget(i);
        if armed {
          log := log + [ArmPulse({i})];
        }
      }
    }

    method DisarmTargetLocked(i: TargetId)
      requires Valid()
      modifies this, targets
      ensures Valid() && State() == DisarmTarget(old(State()), i)
    {
      if targets[i].mode == Shared {
        DisarmSharedTargets();
      } else {
        log := log + [DisarmPulse({i})];
        DoDisarmTarget(i);
      }
    }

    method TargetTrigger(i: TargetId)
      requires Valid()
      modifies this, targets
      ensures Valid() && State() == Trigger(old(State()), i)
    {
      if targets[i].state == Armed {
        targets[i] := targets[i].(state := Busy);
        assert State() == SetState(old(State()), i, Busy);
        if targets[i].mode == Shared {
          UpdateGlobalState();
        }
      }
    }

    method TargetComplete(i: TargetId)
      requires Valid()
      modifies this, targets
      ensures Valid() && State() == Complete(old(State()), i)
    {
      if targets[i].state == Busy {
        targets[i] := targets[i].(state := Idle);
        assert State() == SetState(old(State()), i, Idle);
        if targets[i].mode == Shared {
          UpdateGlobalState();
        } else if targets[i].mode == Rearm && !targets[i].dontRearm {
          ArmTargetLocked(i);
        } else if targets[i].mode == FreeRun && !targets[i].dontRearm {
          ArmTargetLocked(i);
          log := log + [SoftTrigger];
        }
      }
    }

    method TargetSetMode(i: TargetId, mode: Mode)
      requires Valid()
      modifies this, targets
      ensures Valid() && State() == SetMode(old(State()), i, mode)
    {
      targets[i] := targets[i].(mode := mode);
      assert targets[..] == old(targets[..])[i := old(targets[i]).(mode := mode)];
      UpdateGlobalState();
    }

    /** Called for the target whose lock count has just been decremented. */
    method DecrementLockCount(i: TargetId)
      requires Valid()
      modifies this, targets
      ensures Valid() && State() == Release(old(State()), i)
    {
      targets[i] := targets[i].(lockCount := (targets[i].lockCount + WORD32 - 1) % WORD32);
      assert State() == CountDown(old(State()), i);
      if targets[i].lockCount == 0 {
        if targets[i].mode == Shared {
          UpdateGlobalState();
        } else if targets[i].state == Locked {
          ArmTargetLocked(i);
        }
      }
    }

    method LockTriggerReady(i: TargetId, timeout: Word, now: Time) returns (r: LockResult)
      requires Valid()
      modifies this, targets
      ensures Valid() && (State(), r) == LockBegin(old(State()), i, timeout, now)
    {
      if targets[i].state == Idle || targets[i].state == Locked {
        targets[i] := targets[i].(lockCount := (targets[i].lockCount + 1) % WORD32);
        r := Granted;
        assert State() == CountUp(old(State()), i);
      } else if timeout == 0 {
        r := Refused;
      } else {
        targets[i] := targets[i].(lockCount := (targets[i].lockCount + 1) % WORD32);
        assert State() == CountUp(old(State()), i);
        var deadline := Add(now, FromInterval(Signed(timeout), MSECS));
        var tick := Earliest(Add(now, FromInterval(POLL_INTERVAL, 1)), deadline);
        r := Blocked(Waiter(now, timeout, tick, deadline, 0));
      }
    }

    /** The part of the wait loop between two waits. */
    method WaitStep(i: TargetId, w: Waiter, timedOut: bool, pollFails: bool) returns (r: LockResult)
      requires Valid()
      modifies this, targets
      ensures Valid() && (State(), r) == WaitReturned(old(State()), i, w, timedOut, pollFails)
    {
      var ready := targets[i].state == Idle || targets[i].state == Locked;
      if ready {
        r := Granted;
      } else if !timedOut {
        r := Blocked(w);
      } else {
        var lastTick := Eq(w.tick, w.deadline);
        if lastTick || pollFails {
          DecrementLockCount(i);
          r := Refused;
        } else {
          r := Blocked(w.(tick := Earliest(Add(w.tick, FromInterval(POLL_INTERVAL, 1)), w.deadline),
                          polls := w.polls + 1));
        }
      }
    }

    method ImmediateMemoryCapture() returns (ready: bool)
      requires Valid()
      modifies this, targets
      ensures Valid() && ready == old(CaptureReady(State()))
      ensures State() == ImmediateCapture(old(State()))
    {
      ready := targets[DRAM].lockCount == 0 && targets[DRAM].state == Idle;
      if ready {
        log := log + [CaptureStart, FirePulse({DRAM})];
        targets[DRAM] := targets[DRAM].(state := Armed);
        targets[DRAM] := targets[DRAM].(dontRearm := true);
        assert targets[..] == old(targets[..])[DRAM := old(targets[DRAM]).(state := Armed, dontRearm := true)];
        if targets[DRAM].mode == Shared {
          UpdateGlobalState();
        }
      }
    }
  }

  lemma HasSharedExtends(ts: seq<Target>, t: Target)
    ensures forall state :: HasShared(ts + [t], state) <==>
              HasShared(ts, state) || (t.mode == Shared && t.state == state)
  {
    forall state
      ensures HasShared(ts + [t], state) <==>
                HasShared(ts, state) || (t.mode == Shared && t.state == state)
    {
      var us := ts + [t];
      if HasShared(ts, state) {
        var i :| 0 <= i < |ts| && ts[i].mode == Shared && ts[i].state == state;
        assert us[i] == ts[i];
      }
      assert us[|ts|] == t;
    }
  }
}
