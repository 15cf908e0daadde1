/** The trigger targets as values: what every mutex-held section of the trigger code does
    to the three targets, the shared trigger and the hardware pulse log. */
module TriggerModel {
  import opened Common
  import opened Timespec

  const TARGET_COUNT := 3
  const DRAM: TargetId := 2
  const POLL_INTERVAL := 10

  type TargetId = i: nat | i < TARGET_COUNT

  datatype Mode = OneShot | Rearm | Shared | FreeRun
  datatype TargetState = Idle | Armed | Busy | Locked
  datatype SharedState =
    SharedIdle | SharedArmed | SharedLocked | SharedBusy | SharedMixed | SharedInvalid

  datatype Target = Target(mode: Mode, dontRearm: bool, state: TargetState, lockCount: Word)
  /** The statically allocated array of targets. */
  type Targets = ts: seq<Target> | |ts| == TARGET_COUNT
    witness seq(TARGET_COUNT, _ => Target(OneShot, false, Idle, 0))

  datatype SharedTrigger = SharedTrigger(retrigger: bool, dontRearm: bool, state: SharedState)

  /** Everything the code asks of the hardware. */
  datatype Event =
    | Prepare(target: nat)
    | ArmPulse(mask: set<nat>)
    | DisarmPulse(mask: set<nat>)
    | FirePulse(mask: set<nat>)
    | CaptureStart
    | SoftTrigger

  datatype Core = Core(targets: Targets, shared: SharedTrigger, log: seq<Event>)

  // ------------------------------------------------------------------------------------
  // Queries

  predicate Ready(state: TargetState) {
    state == Idle || state == Locked
  }

  predicate HasShared(ts: seq<Target>, state: TargetState) {
    exists i :: 0 <= i < |ts| && ts[i].mode == Shared && ts[i].state == state
  }

  predicate AnyShared(ts: seq<Target>) {
    exists i :: 0 <= i < |ts| && ts[i].mode == Shared
  }

  predicate AnyLocked(ts: seq<Target>) {
    exists i :: 0 <= i < |ts| && ts[i].mode == Shared && ts[i].lockCount > 0
  }

  function SharedMask(ts: seq<Target>): set<nat> {
    set i: nat | i < |ts| && ts[i].mode == Shared
  }

  /** The table of shared states. */
  function GlobalState(ts: seq<Target>): SharedState {
    if HasShared(ts, Locked) then
      if HasShared(ts, Armed) || HasShared(ts, Busy) then SharedInvalid else SharedLocked
    else if HasShared(ts, Armed) then
      if HasShared(ts, Busy) || HasShared(ts, Idle) then SharedMixed else SharedArmed
    else if HasShared(ts, Busy) then SharedBusy
    else SharedIdle
  }

  // ------------------------------------------------------------------------------------
  // Arming and disarming

  /** An arm request actually arms: the target is ready and no reader holds it. */
  predicate Arms(t: Target) {
    Ready(t.state) && t.lockCount == 0
  }

  function ArmedTarget(t: Target): Target {
    if Arms(t) then t.(dontRearm := false, state := Armed)
    else if Ready(t.state) then t.(state := Locked)
    else t
  }

  function Prepares(ts: seq<Target>, n: nat): seq<Event>
    requires n <= |ts|
  {
    if n == 0 then []
    else Prepares(ts, n - 1) +
         (if ts[n - 1].mode == Shared && Arms(ts[n - 1]) then [Prepare(n - 1)] else [])
  }

  function LockHeld(t: Target): Target {
    if t.mode == Shared && t.lockCount > 0 then t.(state := Locked) else t
  }

  function LockHeldAll(ts: seq<Target>): seq<Target> {
    seq(|ts|, i requires 0 <= i < |ts| => LockHeld(ts[i]))
  }

  function ArmedAll(ts: seq<Target>): seq<Target> {
    seq(|ts|, i requires 0 <= i < |ts| => if ts[i].mode == Shared then ArmedTarget(ts[i]) else ts[i])
  }

  function ArmShared(c: Core): Core {
    var c1 := c.(shared := c.shared.(dontRearm := false));
    if c.shared.state != SharedIdle && c.shared.state != SharedLocked then c1
    else if AnyLocked(c.targets) then
      c1.(targets := LockHeldAll(c.targets),
          shared := c1.shared.(state := SharedLocked))
    else if AnyShared(c.targets) then
      c1.(targets := ArmedAll(c.targets),
          log := c.log + Prepares(c.targets, |c.targets|) + [ArmPulse(SharedMask(c.targets))],
          shared := c1.shared.(state := SharedArmed))
    else c1
  }

  /** The cached shared state is refreshed; the shared targets rearm on entering idle when
      asked to, and on the last unlock of a postponed arm. */
  predicate MustRearm(c: Core) {
    (c.shared.state == SharedIdle && c.shared.retrigger && !c.shared.dontRearm) ||
    (c.shared.state == SharedLocked && !AnyLocked(c.targets))
  }

  function UpdateGlobal(c: Core): Core {
    var c1 := c.(shared := c.shared.(state := GlobalState(c.targets)));
    if MustRearm(c1) then ArmShared(c1) else c1
  }

  /** The memory target stops by forcing a trigger and so stays armed; the sequencers stop
      at once. */
  function StopState(i: nat): TargetState {
    if i == DRAM then Armed else Idle
  }

  function StopEvents(i: nat): seq<Event> {
    if i == DRAM then [FirePulse({DRAM})] else []
  }

  function DisarmedTarget(t: Target, i: nat): Target {
    t.(dontRearm := true,
       state := if t.state == Armed then StopState(i)
                else if t.state == Locked then Idle
                else t.state)
  }

  function DisarmEvents(t: Target, i: nat): seq<Event> {
    if t.state == Armed then StopEvents(i) else []
  }

  function SharedStops(ts: seq<Target>, n: nat): seq<Event>
    requires n <= |ts|
  {
    if n == 0 then []
    else SharedStops(ts, n - 1) +
         (if ts[n - 1].mode == Shared then DisarmEvents(ts[n - 1], n - 1) else [])
  }

  function DisarmedAll(ts: seq<Target>): seq<Target> {
    seq(|ts|, i requires 0 <= i < |ts| => if ts[i].mode == Shared then DisarmedTarget(ts[i], i) else ts[i])
  }

  function DisarmShared(c: Core): Core {
    UpdateGlobal(Core(
      DisarmedAll(c.targets),
      c.shared.(dontRearm := true),
      c.log + [DisarmPulse(SharedMask(c.targets))] + SharedStops(c.targets, |c.targets|)))
  }

  function SetState(c: Core, i: TargetId, state: TargetState): Core
  {
    c.(targets := c.targets[i := c.targets[i].(state := state)])
  }

  function ArmOne(c: Core, i: TargetId): Core
  {
    c.(targets := c.targets[i := ArmedTarget(c.targets[i])],
       log := if Arms(c.targets[i]) then c.log + [Prepare(i), ArmPulse({i})] else c.log)
  }

  function ArmTarget(c: Core, i: TargetId): Core
  {
    if c.targets[i].mode == Shared then ArmShared(c) else ArmOne(c, i)
  }

  function DisarmTarget(c: Core, i: TargetId): Core
  {
    if c.targets[i].mode == Shared then DisarmShared(c)
    else c.(targets := c.targets[i := DisarmedTarget(c.targets[i], i)],
            log := c.log + [DisarmPulse({i})] + DisarmEvents(c.targets[i], i))
  }

  // ------------------------------------------------------------------------------------
  // Events from the hardware

  function Trigger(c: Core, i: TargetId): Core
  {
    if c.targets[i].state != Armed then c
    else
      var c1 := SetState(c, i, Busy);
      if c.targets[i].mode == Shared then UpdateGlobal(c1) else c1
  }

  function Complete(c: Core, i: TargetId): Core
  {
    var t := c.targets[i];
    if t.state != Busy then c
    else
      var c1 := SetState(c, i, Idle);
      if t.mode == Shared then UpdateGlobal(c1)
      else if t.dontRearm || t.mode == OneShot then c1
      else
        var c2 := ArmTarget(c1, i);
        if t.mode == FreeRun then c2.(log := c2.log + [SoftTrigger]) else c2
  }

  // ------------------------------------------------------------------------------------
  // User actions

  function SetMode(c: Core, i: TargetId, mode: Mode): Core
  {
    UpdateGlobal(c.(targets := c.targets[i := c.targets[i].(mode := mode)]))
  }

  function SetRetrigger(c: Core, retrigger: bool): Core {
    c.(shared := c.shared.(retrigger := retrigger))
  }

  predicate CaptureReady(c: Core)
  {
    c.targets[DRAM].lockCount == 0 && c.targets[DRAM].state == Idle
  }

  function CaptureStarted(c: Core): Core {
    c.(targets := c.targets[DRAM := c.targets[DRAM].(state := Armed, dontRearm := true)],
       log := c.log + [CaptureStart, FirePulse({DRAM})])
  }

  function ImmediateCapture(c: Core): Core
  {
    if !CaptureReady(c) then c
    else
      var c1 := CaptureStarted(c);
      if c.targets[DRAM].mode == Shared then UpdateGlobal(c1) else c1
  }

  // ------------------------------------------------------------------------------------
  // Reader locks

  /** The lock count is a 32-bit unsigned integer, so both updates wrap. */
  function CountUp(c: Core, i: TargetId): Core
  {
    var t := c.targets[i];
    c.(targets := c.targets[i := t.(lockCount := (t.lockCount + 1) % WORD32)])
  }

  function CountDown(c: Core, i: TargetId): Core
  {
    var t := c.targets[i];
    c.(targets := c.targets[i := t.(lockCount := (t.lockCount + WORD32 - 1) % WORD32)])
  }

  /** Releasing the last lock carries out a postponed arm. */
  function Release(c: Core, i: TargetId): Core
  {
    var c1 := CountDown(c, i);
    if c1.targets[i].lockCount > 0 then c1
    else if c1.targets[i].mode == Shared then UpdateGlobal(c1)
    else if c1.targets[i].state == Locked then ArmTarget(c1, i)
    else c1
  }

  /** The local variables of a reader blocked in the wait loop, with the number of times its
      client has been polled so far. */
  datatype Waiter = Waiter(start: Time, timeout: Word, tick: Time, deadline: Time, polls: nat)

  datatype LockResult = Granted | Refused | Blocked(waiter: Waiter)

  /** The conversion of the unsigned timeout to a signed integer. */
  function Signed(n: Word): int {
    if n < WORD32 / 2 then n else n - WORD32
  }

  function Deadline(start: Time, timeout: Word): Time {
    Add(start, FromInterval(Signed(timeout), MSECS))
  }

  function NextTick(tick: Time, deadline: Time): Time {
    Earliest(Add(tick, FromInterval(POLL_INTERVAL, 1)), deadline)
  }

  /** lock_trigger_ready() up to its first wait. */
  function LockBegin(c: Core, i: TargetId, timeout: Word, now: Time): (Core, LockResult)
  {
    if Ready(c.targets[i].state) then (CountUp(c, i), Granted)
    else if timeout == 0 then (c, Refused)
    else
      var deadline := Deadline(now, timeout);
      (CountUp(c, i), Blocked(Waiter(now, timeout, NextTick(now, deadline), deadline, 0)))
  }

  /** What happens when the condition wait returns, up to the next wait or the end.  The
      wait returns early when woken and with timedOut set when its tick is reached. */
  function WaitReturned(c: Core, i: TargetId, w: Waiter, timedOut: bool, pollFails: bool)
    : (Core, LockResult)
  {
    if Ready(c.targets[i].state) then (c, Granted)
    else if !timedOut then (c, Blocked(w))
    else if Eq(w.tick, w.deadline) then (Release(c, i), Refused)
    else if pollFails then (Release(c, i), Refused)
    else (c, Blocked(w.(tick := NextTick(w.tick, w.deadline), polls := w.polls + 1)))
  }

  function InitialCore(): Core {
    Core(seq(TARGET_COUNT, i => Target(OneShot, false, Idle, 0)),
         SharedTrigger(false, true, SharedIdle), [])
  }
}
