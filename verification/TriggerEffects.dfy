/** What single steps do: which targets they arm, which hardware requests they make, and
    what they leave alone. */
module TriggerEffects {
  import opened Common
  import opened TriggerModel

  // ------------------------------------------------------------------------------------
  // Reading the log

  /** A hardware request that starts, or prepares to start, a capture on target i. */
  predicate Touches(e: Event, i: nat) {
    match e
    case Prepare(j) => i == j
    case ArmPulse(mask) => i in mask
    case FirePulse(mask) => i in mask
    case CaptureStart => i == DRAM
    case _ => false
  }

  predicate Untouched(evs: seq<Event>, i: nat) {
    forall k :: 0 <= k < |evs| ==> !Touches(evs[k], i)
  }

  function PulseCount(evs: seq<Event>): nat {
    if evs == [] then 0
    else PulseCount(evs[..|evs| - 1]) + if evs[|evs| - 1].ArmPulse? then 1 else 0
  }

  lemma {:induction false} PulseCountAppend(a: seq<Event>, b: seq<Event>)
    ensures PulseCount(a + b) == PulseCount(a) + PulseCount(b)
  {
    if b == [] {
      assert a + b == a;
    } else {
      assert (a + b)[..|a + b| - 1] == a + b[..|b| - 1];
      PulseCountAppend(a, b[..|b| - 1]);
    }
  }

  /** The requests that arm exactly the given targets: each prepared, and one pulse with
      them as its mask; nothing at all for no targets. */
  predicate Requests(evs: seq<Event>, armed: set<nat>) {
    && PulseCount(evs) == (if armed == {} then 0 else 1)
    && (forall k :: 0 <= k < |evs| && evs[k].ArmPulse? ==> evs[k].mask == armed)
    && (forall k :: 0 <= k < |evs| && evs[k].Prepare? ==> evs[k].target in armed)
    && (forall i :: i in armed ==> Prepare(i) in evs)
  }

  /** Requests that arm nothing. */
  predicate ArmsNothing(evs: seq<Event>) {
    forall k :: 0 <= k < |evs| ==> !evs[k].Prepare? && !evs[k].ArmPulse?
  }

  lemma {:induction false} NothingCounted(evs: seq<Event>)
    requires forall k :: 0 <= k < |evs| ==> !evs[k].ArmPulse?
    ensures PulseCount(evs) == 0
  {
    if evs != [] {
      NothingCounted(evs[..|evs| - 1]);
    }
  }

  lemma ArmsNothingRequests(evs: seq<Event>)
    requires ArmsNothing(evs)
    ensures Requests(evs, {})
  {
    NothingCounted(evs);
  }

  lemma RequestsThenNothing(a: seq<Event>, b: seq<Event>, armed: set<nat>)
    requires Requests(a, armed) && ArmsNothing(b)
    ensures Requests(a + b, armed)
  {
    PulseCountAppend(a, b);
    NothingCounted(b);
    forall i | i in armed ensures Prepare(i) in a + b {
      assert Prepare(i) in a;
    }
  }

  predicate Grows(c: Core, r: Core) {
    c.log <= r.log
  }

  /** The hardware requests a step made. */
  function News(c: Core, r: Core): seq<Event>
    requires Grows(c, r)
  {
    r.log[|c.log|..]
  }

  lemma UntouchedAppend(a: Core, b: Core, c: Core, i: nat)
    requires Grows(a, b) && Grows(b, c)
    requires Untouched(News(a, b), i) && Untouched(News(b, c), i)
    ensures Grows(a, c) && Untouched(News(a, c), i)
  {
  }

  function NewlyArmed(c: Core, r: Core): set<nat>
  {
    set i: nat | i < |c.targets| && c.targets[i].state != Armed && r.targets[i].state == Armed
  }

  // ------------------------------------------------------------------------------------
  // What a step may do

  predicate SameLocks(c: Core, r: Core) {
    forall i :: 0 <= i < |c.targets| ==> c.targets[i].lockCount == r.targets[i].lockCount
  }

  predicate SameModes(c: Core, r: Core) {
    forall i :: 0 <= i < |c.targets| ==> c.targets[i].mode == r.targets[i].mode
  }

  /** A ready target that is still locked after the step stays ready and sees no hardware
      request that could start it. */
  predicate LeavesReadersAlone(c: Core, r: Core) {
    && Grows(c, r)
    && forall i :: 0 <= i < |c.targets| && r.targets[i].lockCount > 0 && Ready(c.targets[i].state) ==>
         Ready(r.targets[i].state) && Untouched(News(c, r), i)
  }

  /** No arm pulse and nothing newly armed, or one arm pulse whose mask is exactly the set
      of newly armed targets, each prepared in the same step.  A shared target is only armed
      together with all the others. */
  predicate ExactPulse(c: Core, r: Core) {
    && Grows(c, r)
    && Requests(News(c, r), NewlyArmed(c, r))
    && WholeGroup(NewlyArmed(c, r), r.targets)
  }

  predicate WholeGroup(armed: set<nat>, ts: seq<Target>) {
    forall i :: 0 <= i < |ts| && i in armed && ts[i].mode == Shared ==> armed == SharedMask(ts)
  }

  /** Armed and busy targets keep their state. */
  predicate ActiveStays(c: Core, r: Core) {
    forall i :: 0 <= i < |c.targets| && !Ready(c.targets[i].state) ==>
      r.targets[i].state == c.targets[i].state
  }

  predicate CachedState(c: Core) {
    c.shared.state == GlobalState(c.targets)
  }

  /** The cached shared state is the state of the targets, and a postponed shared arm has
      a reader whose unlock will carry it out. */
  predicate Consistent(c: Core) {
    CachedState(c) && (c.shared.state == SharedLocked ==> AnyLocked(c.targets))
  }

  lemma SameLocked(c: Core, r: Core)
    requires SameLocks(c, r) && SameModes(c, r)
    ensures AnyLocked(c.targets) <==> AnyLocked(r.targets)
  {
  }

  lemma SameStates(ts: seq<Target>, us: seq<Target>)
    requires |ts| == |us|
    requires forall i :: 0 <= i < |ts| ==> ts[i].mode == us[i].mode && ts[i].state == us[i].state
    ensures GlobalState(ts) == GlobalState(us)
  {
  }

  // ------------------------------------------------------------------------------------
  // Shared arming

  /** The preparations of a shared arm are those of the shared targets that can be armed. */
  lemma {:induction false} PreparesEffect(ts: seq<Target>, n: nat)
    requires n <= |ts|
    ensures forall k :: 0 <= k < |Prepares(ts, n)| ==>
              var e := Prepares(ts, n)[k];
              e.Prepare? && e.target < n && ts[e.target].mode == Shared
    ensures forall i: nat :: i < n && ts[i].mode == Shared && Arms(ts[i]) ==> Prepare(i) in Prepares(ts, n)
  {
    if n > 0 {
      PreparesEffect(ts, n - 1);
    }
  }

  lemma {:induction false} PreparesTouch(ts: seq<Target>, n: nat, i: nat)
    requires n <= |ts|
    requires i < n ==> ts[i].mode != Shared || !Arms(ts[i])
    ensures Untouched(Prepares(ts, n), i)
  {
    if n > 0 {
      PreparesTouch(ts, n - 1, i);
    }
  }

  lemma SharedReady(ts: seq<Target>, i: nat)
    requires GlobalState(ts) == SharedIdle || GlobalState(ts) == SharedLocked
    requires i < |ts| && ts[i].mode == Shared
    ensures Ready(ts[i].state)
  {
  }

  /** What arming the shared targets may do: non-shared targets, modes and lock counts stay,
      and a hardware request is made only when every shared target is ready and unlocked. */
  predicate SharedEffect(c: Core, r: Core) {
    && SameLocks(c, r)
    && SameModes(c, r)
    && LeavesReadersAlone(c, r)
    && ExactPulse(c, r)
    && ActiveStays(c, r)
    && (forall i :: 0 <= i < |c.targets| && c.targets[i].mode != Shared ==> r.targets[i] == c.targets[i])
    && (News(c, r) != [] ==> AllSharedArmed(c.targets, r.targets))
  }

  predicate AllSharedArmed(before: seq<Target>, after: seq<Target>)
    requires |before| == |after|
  {
    forall i :: 0 <= i < |before| && before[i].mode == Shared ==>
      Arms(before[i]) && after[i].state == Armed
  }

  lemma QuietEffect(c: Core, r: Core)
    requires SameLocks(c, r) && r.log == c.log
    requires forall i :: 0 <= i < |c.targets| ==>
               (r.targets[i].state == Armed ==> c.targets[i].state == Armed) &&
               (Ready(c.targets[i].state) ==> Ready(r.targets[i].state))
    ensures LeavesReadersAlone(c, r) && ExactPulse(c, r) && News(c, r) == []
  {
  }

  lemma PostponedEffect(c: Core)
    requires CachedState(c) && AnyLocked(c.targets)
    requires c.shared.state == SharedIdle || c.shared.state == SharedLocked
    ensures Consistent(ArmShared(c)) && SharedEffect(c, ArmShared(c))
  {
    hide Requests, PulseCount, Prepares, Untouched, WholeGroup, LeavesReadersAlone, ExactPulse;
    var r := ArmShared(c);
    var ts := c.targets;
    forall i | 0 <= i < |ts| && ts[i].mode == Shared ensures Ready(ts[i].state) {
      SharedReady(ts, i);
    }
    var i :| 0 <= i < |ts| && ts[i].mode == Shared && ts[i].lockCount > 0;
    assert r.targets[i].state == Locked && r.targets[i].mode == Shared;
    QuietEffect(c, r);
  }

  /** With every shared target ready and unlocked, all of them become armed together. */
  lemma ArmedTogether(ts: seq<Target>)
    requires AnyShared(ts)
    requires forall i :: 0 <= i < |ts| && ts[i].mode == Shared ==> Arms(ts[i])
    ensures GlobalState(ArmedAll(ts)) == SharedArmed
    ensures AllSharedArmed(ts, ArmedAll(ts))
  {
    var i :| 0 <= i < |ts| && ts[i].mode == Shared;
    assert ArmedAll(ts)[i].state == Armed && ArmedAll(ts)[i].mode == Shared;
    assert HasShared(ArmedAll(ts), Armed);
  }

  function SharedArmEvents(ts: seq<Target>): seq<Event> {
    Prepares(ts, |ts|) + [ArmPulse(SharedMask(ts))]
  }

  lemma SharedMaskSome(ts: seq<Target>)
    requires AnyShared(ts)
    ensures SharedMask(ts) != {}
  {
    var i :| 0 <= i < |ts| && ts[i].mode == Shared;
    assert i in SharedMask(ts);
  }

  /** Preparing every target of a mask and then one pulse with it. */
  lemma PreparedPulse(prepares: seq<Event>, mask: set<nat>)
    requires mask != {}
    requires forall k :: 0 <= k < |prepares| ==> prepares[k].Prepare? && prepares[k].target in mask
    requires forall i :: i in mask ==> Prepare(i) in prepares
    ensures Requests(prepares + [ArmPulse(mask)], mask)
  {
    NothingCounted(prepares);
    assert (prepares + [ArmPulse(mask)])[..|prepares|] == prepares;
    forall i | i in mask ensures Prepare(i) in prepares + [ArmPulse(mask)] {
      assert Prepare(i) in prepares;
    }
  }

  lemma TogetherPulse(ts: seq<Target>)
    requires SharedMask(ts) != {}
    requires forall i :: 0 <= i < |ts| && ts[i].mode == Shared ==> Arms(ts[i])
    ensures Requests(SharedArmEvents(ts), SharedMask(ts))
  {
    PreparesEffect(ts, |ts|);
    PreparedPulse(Prepares(ts, |ts|), SharedMask(ts));
  }

  lemma TogetherTouch(ts: seq<Target>, i: nat)
    requires i < |ts| && ts[i].mode != Shared
    ensures Untouched(SharedArmEvents(ts), i)
  {
    PreparesTouch(ts, |ts|, i);
    assert i !in SharedMask(ts);
  }

  /** The shared arm as a change of the log and of the targets. */
  predicate ArmedShared(c: Core, r: Core) {
    r.targets == ArmedAll(c.targets) && r.log == c.log + SharedArmEvents(c.targets)
  }

  lemma TogetherRequests(c: Core, r: Core)
    requires SharedMask(c.targets) != {} && ArmedShared(c, r)
    requires forall i :: 0 <= i < |c.targets| && c.targets[i].mode == Shared ==> Arms(c.targets[i])
    ensures NewlyArmed(c, r) == SharedMask(c.targets) == SharedMask(r.targets)
    ensures ExactPulse(c, r)
  {
    hide Requests, PulseCount, Prepares;
    var ts := c.targets;
    TogetherPulse(ts);
    assert News(c, r) == SharedArmEvents(ts);
    assert NewlyArmed(c, r) == SharedMask(ts);
    assert SharedMask(r.targets) == SharedMask(ts);
  }

  lemma TogetherReaders(c: Core, r: Core)
    requires ArmedShared(c, r)
    requires forall i :: 0 <= i < |c.targets| && c.targets[i].mode == Shared ==> Arms(c.targets[i])
    ensures LeavesReadersAlone(c, r)
  {
    assert News(c, r) == SharedArmEvents(c.targets);
    forall i | 0 <= i < |c.targets| && r.targets[i].lockCount > 0 ensures Untouched(News(c, r), i) {
      TogetherTouch(c.targets, i);
    }
  }

  lemma TogetherEffect(c: Core)
    requires CachedState(c) && !AnyLocked(c.targets) && AnyShared(c.targets)
    requires c.shared.state == SharedIdle || c.shared.state == SharedLocked
    ensures Consistent(ArmShared(c)) && SharedEffect(c, ArmShared(c))
    ensures AllSharedArmed(c.targets, ArmShared(c).targets)
    ensures NewlyArmed(c, ArmShared(c)) == SharedMask(c.targets) != {}
  {
    hide Requests, PulseCount, Prepares, Untouched, WholeGroup;
    var r := ArmShared(c);
    var ts := c.targets;
    AllArm(ts);
    ArmedTogether(ts);
    SharedMaskSome(ts);
    assert ArmedShared(c, r);
    TogetherRequests(c, r);
    TogetherReaders(c, r);
  }

  lemma AllArm(ts: seq<Target>)
    requires GlobalState(ts) == SharedIdle || GlobalState(ts) == SharedLocked
    requires !AnyLocked(ts)
    ensures forall i :: 0 <= i < |ts| && ts[i].mode == Shared ==> Arms(ts[i])
  {
  }

  /** Arming the shared targets either does nothing, or postpones with no hardware request,
      or arms every shared target under one pulse. */
  lemma ArmSharedEffect(c: Core)
    requires CachedState(c)
    ensures Consistent(ArmShared(c)) && SharedEffect(c, ArmShared(c))
  {
    if c.shared.state != SharedIdle && c.shared.state != SharedLocked {
      QuietEffect(c, ArmShared(c));
    } else if AnyLocked(c.targets) {
      PostponedEffect(c);
    } else if AnyShared(c.targets) {
      TogetherEffect(c);
    } else {
      QuietEffect(c, ArmShared(c));
    }
  }

  /** Refreshing the shared state restores consistency whatever it was before, and arms only
      out of an idle or locked shared state. */
  lemma UpdateGlobalEffect(c: Core)
    ensures Consistent(UpdateGlobal(c)) && SharedEffect(c, UpdateGlobal(c))
    ensures News(c, UpdateGlobal(c)) != [] ==> GlobalState(c.targets) in {SharedIdle, SharedLocked}
  {
    var c1 := c.(shared := c.shared.(state := GlobalState(c.targets)));
    var r := UpdateGlobal(c);
    if MustRearm(c1) {
      ArmSharedEffect(c1);
      assert r == ArmShared(c1);
      assert News(c, r) == News(c1, r);
      assert NewlyArmed(c, r) == NewlyArmed(c1, r);
    } else {
      QuietEffect(c, r);
    }
  }

  // ------------------------------------------------------------------------------------
  // The other steps

  /** What every step that is not a lock or an immediate capture does. */
  predicate StepEffect(c: Core, r: Core) {
    Consistent(r) && SameLocks(c, r) && LeavesReadersAlone(c, r) && ExactPulse(c, r)
  }

  /** Refreshing after a change c to c1 that makes no request, arms nothing and keeps ready
      targets ready is the effect of the whole step. */
  lemma RefreshEffect(c: Core, c1: Core)
    requires SameLocks(c, c1) && c1.log == c.log
    requires forall i :: 0 <= i < |c.targets| ==>
               (c1.targets[i].state == Armed ==> c.targets[i].state == Armed) &&
               (Ready(c.targets[i].state) ==> Ready(c1.targets[i].state)) &&
               (c1.targets[i].state == Busy ==> c.targets[i].state in {Armed, Busy}) &&
               (c.targets[i].state == Armed ==> c1.targets[i].state in {Armed, Busy})
    requires forall i :: 0 <= i < |c.targets| && c.targets[i].state == Armed && c1.targets[i].state == Busy ==>
               c1.targets[i].mode == Shared
    ensures StepEffect(c, UpdateGlobal(c1))
  {
    UpdateGlobalEffect(c1);
    var r := UpdateGlobal(c1);
    assert News(c, r) == News(c1, r);
    if News(c1, r) != [] {
      assert !HasShared(c1.targets, Busy);
      assert forall i :: 0 <= i < |c.targets| && c.targets[i].state == Armed ==> c1.targets[i].state == Armed;
    } else {
      assert NewlyArmed(c1, r) == {};
    }
    assert NewlyArmed(c, r) == NewlyArmed(c1, r);
  }

  /** Changes to targets that are not shared do not show in the shared state. */
  lemma UnsharedChange(ts: seq<Target>, us: seq<Target>)
    requires |ts| == |us|
    requires forall i :: 0 <= i < |ts| ==> us[i] == ts[i] || (us[i].mode != Shared && ts[i].mode != Shared)
    ensures GlobalState(us) == GlobalState(ts) && AnyLocked(us) == AnyLocked(ts)
  {
  }

  lemma OnePulse(i: nat)
    ensures Requests([Prepare(i), ArmPulse({i})], {i})
  {
    var evs := [Prepare(i), ArmPulse({i})];
    assert evs[..1] == [Prepare(i)];
    NothingCounted([Prepare(i)]);
    assert evs[0] == Prepare(i);
  }

  lemma ArmOneEffect(c: Core, i: TargetId)
    requires Consistent(c) && c.targets[i].mode != Shared
    ensures StepEffect(c, ArmOne(c, i))
  {
    hide Requests, PulseCount, GlobalState, AnyLocked, SharedMask;
    var r := ArmOne(c, i);
    UnsharedChange(c.targets, r.targets);
    if Arms(c.targets[i]) {
      assert News(c, r) == [Prepare(i), ArmPulse({i})];
      OnePulse(i);
      assert NewlyArmed(c, r) == {i};
    } else {
      QuietEffect(c, r);
    }
  }

  lemma ArmTargetEffect(c: Core, i: TargetId)
    requires Consistent(c)
    ensures StepEffect(c, ArmTarget(c, i))
  {
    if c.targets[i].mode == Shared {
      ArmSharedEffect(c);
    } else {
      ArmOneEffect(c, i);
    }
  }

  lemma {:induction false} SharedStopsEffect(ts: seq<Target>, n: nat)
    requires n <= |ts|
    ensures ArmsNothing(SharedStops(ts, n))
  {
    if n > 0 {
      SharedStopsEffect(ts, n - 1);
    }
  }

  lemma {:induction false} SharedStopsTouch(ts: seq<Target>, n: nat, i: nat)
    requires n <= |ts| && i < |ts| && ts[i].state != Armed
    ensures Untouched(SharedStops(ts, n), i)
  {
    if n > 0 {
      SharedStopsTouch(ts, n - 1, i);
    }
  }

  lemma DisarmSharedStays(c: Core)
    ensures var r := DisarmShared(c);
            && r.targets == DisarmedAll(c.targets)
            && r.shared.dontRearm
            && r.shared.state == GlobalState(r.targets) != SharedLocked
            && r.log == c.log + [DisarmPulse(SharedMask(c.targets))] + SharedStops(c.targets, |c.targets|)
  {
  }

  lemma DisarmOneEffect(c: Core, i: TargetId)
    requires Consistent(c) && c.targets[i].mode != Shared
    ensures StepEffect(c, DisarmTarget(c, i)) && NewlyArmed(c, DisarmTarget(c, i)) == {}
  {
    hide Requests, PulseCount, GlobalState, AnyLocked, ArmShared;
    var r := DisarmTarget(c, i);
    UnsharedChange(c.targets, r.targets);
    assert News(c, r) == [DisarmPulse({i})] + DisarmEvents(c.targets[i], i);
    ArmsNothingRequests(News(c, r));
    assert NewlyArmed(c, r) == {};
  }

  lemma DisarmSharedEffect(c: Core)
    requires Consistent(c)
    ensures StepEffect(c, DisarmShared(c)) && NewlyArmed(c, DisarmShared(c)) == {}
  {
    var r := DisarmShared(c);
    var ts := c.targets;
    DisarmSharedStays(c);
    assert News(c, r) == [DisarmPulse(SharedMask(ts))] + SharedStops(ts, |ts|);
    SharedStopsEffect(ts, |ts|);
    ArmsNothingRequests(News(c, r));
    assert NewlyArmed(c, r) == {};
    forall i | 0 <= i < |ts| && Ready(ts[i].state) ensures Untouched(News(c, r), i) {
      SharedStopsTouch(ts, |ts|, i);
    }
  }

  lemma DisarmTargetEffect(c: Core, i: TargetId)
    requires Consistent(c)
    ensures StepEffect(c, DisarmTarget(c, i)) && NewlyArmed(c, DisarmTarget(c, i)) == {}
  {
    if c.targets[i].mode == Shared {
      DisarmSharedEffect(c);
    } else {
      DisarmOneEffect(c, i);
    }
  }

  lemma TriggerEffect(c: Core, i: TargetId)
    requires Consistent(c)
    ensures StepEffect(c, Trigger(c, i)) && NewlyArmed(c, Trigger(c, i)) == {}
  {
    var c1 := SetState(c, i, Busy);
    if c.targets[i].state != Armed {
      QuietEffect(c, c);
    } else if c.targets[i].mode == Shared {
      RefreshEffect(c, c1);
      assert HasShared(c1.targets, Busy);
      UpdateGlobalEffect(c1);
      assert News(c, Trigger(c, i)) == News(c1, Trigger(c, i)) == [];
    } else {
      UnsharedChange(c.targets, c1.targets);
      QuietEffect(c, c1);
    }
  }

  lemma CompleteEffect(c: Core, i: TargetId)
    requires Consistent(c)
    ensures StepEffect(c, Complete(c, i))
  {
    hide UpdateGlobal, GlobalState, Requests, Untouched, WholeGroup;
    var t := c.targets[i];
    var c1 := SetState(c, i, Idle);
    if t.state != Busy {
      QuietEffect(c, c);
    } else if t.mode == Shared {
      RefreshEffect(c, c1);
    } else {
      UnsharedChange(c.targets, c1.targets);
      if t.dontRearm || t.mode == OneShot {
        QuietEffect(c, c1);
      } else {
        ArmOneEffect(c1, i);
        var c2 := ArmOne(c1, i);
        assert News(c, c2) == News(c1, c2);
        assert NewlyArmed(c, c2) == NewlyArmed(c1, c2);
        assert StepEffect(c, c2);
        if t.mode == FreeRun {
          SoftTriggerEffect(c, c2);
        }
      }
    }
  }

  lemma SoftTriggerEffect(c: Core, r: Core)
    requires StepEffect(c, r)
    ensures StepEffect(c, r.(log := r.log + [SoftTrigger]))
  {
    hide Requests, PulseCount, GlobalState;
    var r' := r.(log := r.log + [SoftTrigger]);
    assert News(c, r') == News(c, r) + [SoftTrigger];
    assert NewlyArmed(c, r') == NewlyArmed(c, r);
    RequestsThenNothing(News(c, r), [SoftTrigger], NewlyArmed(c, r));
  }

  lemma SetModeEffect(c: Core, i: TargetId, mode: Mode)
    requires Consistent(c)
    ensures StepEffect(c, SetMode(c, i, mode))
  {
    RefreshEffect(c, c.(targets := c.targets[i := c.targets[i].(mode := mode)]));
  }

  /** An unlock is judged against the lock counts it leaves. */
  lemma ReleaseEffect(c: Core, i: TargetId)
    requires Consistent(c)
    ensures StepEffect(CountDown(c, i), Release(c, i))
  {
    var c1 := CountDown(c, i);
    if c1.targets[i].lockCount > 0 {
      StillLocked(c, c1, i);
      QuietEffect(c1, c1);
    } else if c1.targets[i].mode == Shared {
      RefreshEffect(c1, c1);
    } else {
      UnsharedChange(c.targets, c1.targets);
      if c1.targets[i].state == Locked {
        ArmTargetEffect(c1, i);
      } else {
        QuietEffect(c1, c1);
      }
    }
  }

  lemma ReleasePulse(c: Core, i: TargetId)
    requires Consistent(c)
    ensures ExactPulse(c, Release(c, i))
  {
    var r := Release(c, i);
    ReleaseEffect(c, i);
    assert News(c, r) == News(CountDown(c, i), r);
    assert NewlyArmed(c, r) == NewlyArmed(CountDown(c, i), r);
  }

  /** A change of one lock count to a positive value keeps the shared state consistent. */
  lemma StillLocked(c: Core, c1: Core, i: TargetId)
    requires Consistent(c)
    requires exists n: Word :: n > 0 && c1 == c.(targets := c.targets[i := c.targets[i].(lockCount := n)])
    ensures Consistent(c1)
  {
    forall state ensures HasShared(c.targets, state) <==> HasShared(c1.targets, state) {
      if HasShared(c.targets, state) {
        var k :| 0 <= k < |c.targets| && c.targets[k].mode == Shared && c.targets[k].state == state;
        assert c1.targets[k].mode == Shared && c1.targets[k].state == state;
      }
      if HasShared(c1.targets, state) {
        var k :| 0 <= k < |c1.targets| && c1.targets[k].mode == Shared && c1.targets[k].state == state;
        assert c.targets[k].mode == Shared && c.targets[k].state == state;
      }
    }
    if AnyLocked(c.targets) {
      var k :| 0 <= k < |c.targets| && c.targets[k].mode == Shared && c.targets[k].lockCount > 0;
      assert c1.targets[k].mode == Shared && c1.targets[k].lockCount > 0;
    }
  }

  /** An immediate capture arms the memory target with no arm pulse: the capture command
      and a forced trigger take its place. */
  lemma ImmediateCaptureEffect(c: Core)
    requires Consistent(c)
    ensures var r := ImmediateCapture(c);
            && Consistent(r) && SameLocks(c, r) && LeavesReadersAlone(c, r)
            && News(c, r) == (if CaptureReady(c) then [CaptureStart, FirePulse({DRAM})] else [])
            && NewlyArmed(c, r) == (if CaptureReady(c) then {DRAM} else {})
  {
    hide GlobalState, UpdateGlobal, AnyLocked;
    var r := ImmediateCapture(c);
    if CaptureReady(c) {
      var c1 := CaptureStarted(c);
      if c.targets[DRAM].mode == Shared {
        CaptureNoRearm(c);
      } else {
        UnsharedChange(c.targets, c1.targets);
      }
      assert News(c, r) == [CaptureStart, FirePulse({DRAM})];
    }
  }

  lemma CaptureNoRearm(c: Core)
    requires CaptureReady(c) && c.targets[DRAM].mode == Shared
    ensures var c1 := CaptureStarted(c);
            && Consistent(UpdateGlobal(c1))
            && UpdateGlobal(c1) == c1.(shared := c1.shared.(state := GlobalState(c1.targets)))
  {
  }
}
