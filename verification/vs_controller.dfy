/** The per-tick depth controller of one virtual-slope run
    (`DepthController` in src/VS_controller.py).

    Each tick advances the step schedule, applies the altitude-driven
    safety state machine (NORMAL / HOLD / ASCEND / WAIT / RETURN), computes
    and sends that state's command depth, and advances the virtual-slope
    reference `currentZ` toward `endZ`. The wall clock is the parameter
    `now`, the altitude reading is a parameter, and the depth handed to the
    command channel is returned instead of being sent. */
module VsController {
  import opened Optional
  import opened Numbers
  import opened Settings
  import StepSchedule

  datatype State = Normal | Hold | Ascend | Wait | Return

  datatype Controller = Controller(
    currentZ: real,               // virtual-slope reference depth
    endZ: real,
    endZReached: bool,
    maxAngleStep: real,           // depth change per tick at the maximum pitch
    trajectoryDown: bool,
    commandDepth: real,           // last commanded depth
    state: State,
    stateStartTime: Option<real>,
    waitFromAscend: bool,         // WAIT was entered from ASCEND
    plannedZ: real,               // planned start depth of the slope
    schedule: StepSchedule.Schedule
  )

  /** What one tick produces: the next controller and the depth it sent. */
  datatype TickResult = TickResult(next: Controller, sent: real)

  predicate Valid(c: Controller) {
    StepSchedule.Valid(c.schedule)
  }

  /** `end_z_reached` pins the reference on `end_z`. */
  predicate ReachedAtEnd(c: Controller) {
    c.endZReached ==> c.currentZ == c.endZ
  }

  /** The reference has not passed `end_z` in the direction of travel. */
  predicate OnApproachSide(c: Controller) {
    if c.trajectoryDown then c.currentZ <= c.endZ else c.currentZ >= c.endZ
  }

  /** The reference has reached or passed `end_z` in the direction of
      travel. */
  predicate AtOrPastEnd(c: Controller) {
    if c.trajectoryDown then c.currentZ >= c.endZ else c.currentZ <= c.endZ
  }

  /** A depth on the approach side of `end_z`, or `end_z` itself. */
  predicate NotPastEnd(c: Controller, depth: real) {
    if c.trajectoryDown then depth <= c.endZ else depth >= c.endZ
  }

  /** The constructor: the controller starts in NORMAL at `startZ`. */
  function Init(startZ: real, endZ: real, step: real, maxAngleStep: real,
                trajectoryDown: bool, previousStep: real, cfg: Config): (c: Controller)
    ensures Valid(c) && ReachedAtEnd(c)
    ensures c.state == Normal && !c.endZReached
    ensures c.currentZ == startZ && c.commandDepth == startZ && c.plannedZ == startZ
    ensures c.schedule == StepSchedule.Init(previousStep, step, cfg.transitionTime)
  {
    Controller(startZ, endZ, false, maxAngleStep, trajectoryDown, startZ, Normal, None, false,
               startZ, StepSchedule.Init(previousStep, step, cfg.transitionTime))
  }

  /** `_clamp_depth`: `max(min_depth, min(depth, max_depth))`. */
  function Clamp(depth: real, cfg: Config): (r: real)
    ensures r >= cfg.minDepth
    ensures cfg.minDepth <= cfg.maxDepth ==> r <= cfg.maxDepth
    ensures cfg.minDepth <= depth <= cfg.maxDepth ==> r == depth
    ensures depth > cfg.maxDepth && cfg.minDepth <= cfg.maxDepth ==> r == cfg.maxDepth
    ensures depth < cfg.minDepth ==> r == cfg.minDepth
  {
    Max(cfg.minDepth, Min(depth, cfg.maxDepth))
  }

  // ---------------------------------------------------------------------
  // State changes

  /** The slope's fixed parameters, its schedule and its reference are the
      same in both controllers. */
  predicate SameSlope(c: Controller, d: Controller) {
    && d.schedule == c.schedule && d.endZ == c.endZ && d.plannedZ == c.plannedZ
    && d.trajectoryDown == c.trajectoryDown && d.maxAngleStep == c.maxAngleStep
    && d.currentZ == c.currentZ && d.endZReached == c.endZReached
  }

  /** `_on_enter_state`: the entry actions of each state. */
  function OnEnterState(c: Controller, st: State, from: State, now: real): Controller {
    match st
    case Ascend => c.(stateStartTime := None, commandDepth := c.currentZ)
    case Hold => c.(stateStartTime := None)
    case Wait => c.(stateStartTime := Some(now), waitFromAscend := from == Ascend)
    case Return => c
    case Normal => c.(stateStartTime := None)
  }

  /** `_set_state`: nothing happens when the state does not change. */
  function SetState(c: Controller, st: State, now: real): (r: Controller)
    ensures SameSlope(c, r) && r.state == st
    ensures st != Ascend ==> r.commandDepth == c.commandDepth
  {
    if c.state == st then c else OnEnterState(c.(state := st), st, c.state, now)
  }

  /** `_wait_finished`. */
  predicate WaitFinished(c: Controller, now: real, cfg: Config) {
    match c.stateStartTime
    case None => false
    case Some(t) => now - t >= cfg.waitTime
  }

  /** `_return_caught_vs`. */
  predicate ReturnCaughtVs(c: Controller) {
    c.commandDepth >= c.currentZ
  }

  /** The altitude is clear of both thresholds that apply to this slope. */
  predicate AltitudeClear(c: Controller, altitude: real, cfg: Config) {
    altitude >= cfg.altitudeThresholdAscend
    && !(c.trajectoryDown && altitude < cfg.altitudeThresholdLevel)
  }

  /** `_handle_transitions`: the safety state machine.

      - Without an altitude reading every state returns to NORMAL and no
        other rule fires: only the state and its start time change.
      - An altitude below the ascend threshold forces ASCEND from every
        state; on entry the command restarts from the reference depth.
      - HOLD results exactly when the slope goes down and the altitude lies
        in `[ascend threshold, level threshold)`.
      - With a clear altitude the safety states unwind in order: ASCEND and
        HOLD go to WAIT (remembering which one it came from and starting
        the clock), WAIT goes to RETURN once `wait_time` has elapsed since
        it began, RETURN goes to NORMAL once the command has caught up with
        the reference, and NORMAL stays. */
  function HandleTransitions(c: Controller, altitude: Option<real>, now: real, cfg: Config): (r: Controller)
    ensures SameSlope(c, r)
    ensures altitude.None? && c.state != Normal ==> r == c.(state := Normal, stateStartTime := None)
    ensures altitude.None? && c.state == Normal ==> r == c
    ensures altitude.Some? && altitude.value < cfg.altitudeThresholdAscend ==>
              r.state == Ascend
              && (c.state != Ascend ==>
                    r == c.(state := Ascend, stateStartTime := None, commandDepth := c.currentZ))
              && (c.state == Ascend ==> r == c)
    ensures r.state == Hold
            <==> (altitude.Some? && c.trajectoryDown
                  && cfg.altitudeThresholdAscend <= altitude.value < cfg.altitudeThresholdLevel)
    ensures altitude.Some? && AltitudeClear(c, altitude.value, cfg) ==>
              && (c.state == Ascend ==>
                    r == c.(state := Wait, stateStartTime := Some(now), waitFromAscend := true))
              && (c.state == Hold ==>
                    r == c.(state := Wait, stateStartTime := Some(now), waitFromAscend := false))
              && (c.state == Wait ==>
                    (r.state == Return
                     <==> c.stateStartTime.Some? && now - c.stateStartTime.value >= cfg.waitTime)
                    && r == c.(state := r.state))
              && (c.state == Return ==>
                    (r.state == Normal <==> c.commandDepth >= c.currentZ)
                    && (r.state == Normal ==> r == c.(state := Normal, stateStartTime := None))
                    && (r.state == Return ==> r == c))
              && (c.state == Normal ==> r == c)
  {
    match altitude
    case None =>
      if c.state != Normal then SetState(c, Normal, now) else c
    case Some(a) =>
      if a < cfg.altitudeThresholdAscend then SetState(c, Ascend, now)
      else if c.trajectoryDown && a < cfg.altitudeThresholdLevel then SetState(c, Hold, now)
      else
        match c.state
        case Ascend => SetState(c, Wait, now)
        case Hold => SetState(c, Wait, now)
        case Wait => if WaitFinished(c, now, cfg) then SetState(c, Return, now) else c
        case Return => if ReturnCaughtVs(c) then SetState(c, Normal, now) else c
        case Normal => c
  }

  // ---------------------------------------------------------------------
  // State behaviours: each sends exactly one depth

  /** `_state_normal`: follow the slope, snapping onto `end_z` when the
      next step would reach or pass it. */
  function StateNormal(c: Controller): TickResult {
    if c.endZReached then
      TickResult(c.(commandDepth := c.endZ), c.endZ)
    else
      var next := c.currentZ + c.schedule.currentStep;
      var crossed := if c.trajectoryDown then next >= c.endZ else next <= c.endZ;
      if crossed then
        TickResult(c.(commandDepth := c.endZ, currentZ := c.endZ, endZReached := true), c.endZ)
      else
        TickResult(c.(commandDepth := c.currentZ), c.currentZ)
  }

  /** `_state_hold`: keep the last command. */
  function StateHold(c: Controller): TickResult {
    TickResult(c, c.commandDepth)
  }

  /** `_state_ascend`: raise the command by one maximum-angle step. */
  function StateAscend(c: Controller, cfg: Config): TickResult {
    var d := Clamp(c.commandDepth - c.maxAngleStep, cfg);
    TickResult(c.(commandDepth := d), d)
  }

  /** `_state_wait`: keep rising after ASCEND, otherwise hold. */
  function StateWait(c: Controller, cfg: Config): TickResult {
    if c.waitFromAscend then StateAscend(c, cfg) else TickResult(c, c.commandDepth)
  }

  /** `_state_return`: a downward slope descends back onto the reference;
      an upward slope holds until the reference comes up to the command. */
  function StateReturn(c: Controller, now: real, cfg: Config): TickResult {
    if c.trajectoryDown then
      var n := Clamp(c.commandDepth + c.maxAngleStep, cfg);
      if n >= c.currentZ then TickResult(c.(commandDepth := c.currentZ), c.currentZ)
      else TickResult(c.(commandDepth := n), n)
    else
      var held := c.commandDepth;
      TickResult(if c.currentZ <= c.commandDepth then SetState(c, Normal, now) else c, held)
  }

  /** `_execute_current_state`. */
  function Execute(c: Controller, now: real, cfg: Config): (r: TickResult)
    ensures r.sent == r.next.commandDepth
    ensures r.next.schedule == c.schedule && r.next.endZ == c.endZ && r.next.plannedZ == c.plannedZ
    ensures r.next.trajectoryDown == c.trajectoryDown && r.next.maxAngleStep == c.maxAngleStep
    ensures c.endZReached ==> r.next.endZReached && r.next.currentZ == c.currentZ
    ensures !c.endZReached ==>
              (!r.next.endZReached && r.next.currentZ == c.currentZ)
              || (r.next.endZReached && r.next.currentZ == c.endZ)
    ensures ReachedAtEnd(c) ==> ReachedAtEnd(r.next)
  {
    match c.state
    case Normal => StateNormal(c)
    case Hold => StateHold(c)
    case Ascend => StateAscend(c, cfg)
    case Wait => StateWait(c, cfg)
    case Return => StateReturn(c, now, cfg)
  }

  /** `_advance_vs`: move the reference one step, or pin it on `end_z` once
      it has reached or passed it. */
  function AdvanceVs(c: Controller): (r: Controller)
    ensures r.schedule == c.schedule && r.endZ == c.endZ && r.plannedZ == c.plannedZ
    ensures r.trajectoryDown == c.trajectoryDown && r.maxAngleStep == c.maxAngleStep
    ensures r.commandDepth == c.commandDepth && r.state == c.state
    ensures c.endZReached ==> r == c
    ensures !c.endZReached ==> (r.endZReached <==> AtOrPastEnd(c))
    ensures !c.endZReached && r.endZReached ==> r.currentZ == c.endZ
    ensures !r.endZReached ==> r.currentZ == c.currentZ + c.schedule.currentStep
    ensures ReachedAtEnd(c) ==> ReachedAtEnd(r)
  {
    if c.endZReached then c
    else if AtOrPastEnd(c) then c.(currentZ := c.endZ, endZReached := true)
    else c.(currentZ := c.currentZ + c.schedule.currentStep)
  }

  /** The controller after the schedule step and the safety transitions of
      a tick, the state whose behaviour the tick executes. */
  function PostTransitions(c: Controller, altitude: Option<real>, now: real, cfg: Config): (r: Controller)
    requires Valid(c)
    ensures r.schedule == StepSchedule.Tick(c.schedule, c.endZ, c.plannedZ)
    ensures r.currentZ == c.currentZ && r.endZReached == c.endZReached
    ensures r.endZ == c.endZ && r.plannedZ == c.plannedZ
    ensures r.trajectoryDown == c.trajectoryDown && r.maxAngleStep == c.maxAngleStep
  {
    HandleTransitions(c.(schedule := StepSchedule.Tick(c.schedule, c.endZ, c.plannedZ)),
                      altitude, now, cfg)
  }

  /** `update`: one control tick. Its Boolean result in the source is
      `next.endZReached`. */
  function Update(c: Controller, altitude: Option<real>, now: real, cfg: Config): (r: TickResult)
    requires Valid(c)
    ensures Valid(r.next)
    ensures r.sent == r.next.commandDepth
    ensures r.next.schedule == StepSchedule.Tick(c.schedule, c.endZ, c.plannedZ)
    ensures r.next.endZ == c.endZ && r.next.plannedZ == c.plannedZ
    ensures r.next.trajectoryDown == c.trajectoryDown && r.next.maxAngleStep == c.maxAngleStep
    ensures c.endZReached ==> r.next.endZReached
    ensures ReachedAtEnd(c) ==> ReachedAtEnd(r.next)
    ensures c.endZReached && ReachedAtEnd(c) ==> r.next.currentZ == c.endZ
  {
    var c2 := PostTransitions(c, altitude, now, cfg);
    var e := Execute(c2, now, cfg);
    var c4 := AdvanceVs(e.next);
    var c5 := if c2.state == Return && !c4.trajectoryDown && c4.currentZ <= c4.commandDepth
              then SetState(c4, Normal, now) else c4;
    TickResult(c5, e.sent)
  }

  // ---------------------------------------------------------------------
  // The safety state machine

  /** Entering WAIT always records its start time, so a controller in WAIT
      always carries one. */
  lemma WaitHasStartTime(c: Controller, altitude: Option<real>, now: real, cfg: Config)
    requires Valid(c)
    requires c.state == Wait ==> c.stateStartTime.Some?
    ensures var n := Update(c, altitude, now, cfg).next;
            n.state == Wait ==> n.stateStartTime.Some?
  {
  }

  // ---------------------------------------------------------------------
  // The command of each state

  /** ASCEND lowers the command depth by one maximum-angle step from the
      reference depth on entry, from the previous command afterwards, and
      clamps it into the depth limits. */
  lemma AscendClampsCommand(c: Controller, altitude: Option<real>, now: real, cfg: Config)
    requires Valid(c)
    requires PostTransitions(c, altitude, now, cfg).state == Ascend
    ensures var base := if c.state == Ascend then c.commandDepth else c.currentZ;
            Update(c, altitude, now, cfg).sent == Clamp(base - c.maxAngleStep, cfg)
    ensures Update(c, altitude, now, cfg).sent >= cfg.minDepth
    ensures cfg.minDepth <= cfg.maxDepth ==> Update(c, altitude, now, cfg).sent <= cfg.maxDepth
  {
  }

  /** WAIT entered from ASCEND keeps rising by one clamped step per tick;
      WAIT entered from HOLD keeps the previous command. */
  lemma WaitCommand(c: Controller, altitude: Option<real>, now: real, cfg: Config)
    requires Valid(c)
    requires PostTransitions(c, altitude, now, cfg).state == Wait
    ensures var p := PostTransitions(c, altitude, now, cfg);
            var sent := Update(c, altitude, now, cfg).sent;
            && p.commandDepth == c.commandDepth
            && (p.waitFromAscend ==> sent == Clamp(c.commandDepth - c.maxAngleStep, cfg))
            && (p.waitFromAscend ==> cfg.minDepth <= sent
                                     && (cfg.minDepth <= cfg.maxDepth ==> sent <= cfg.maxDepth))
            && (!p.waitFromAscend ==> sent == c.commandDepth)
  {
  }

  /** HOLD keeps sending the previous command. */
  lemma HoldKeepsCommand(c: Controller, altitude: Option<real>, now: real, cfg: Config)
    requires Valid(c)
    requires PostTransitions(c, altitude, now, cfg).state == Hold
    ensures Update(c, altitude, now, cfg).sent == c.commandDepth
  {
  }

  /** In NORMAL the command never passes `end_z` on the approach side as
      long as the reference has not passed it, or the step points toward
      it; once `end_z` is reached the command is exactly `end_z`; and a
      NORMAL tick keeps the reference on the approach side. */
  lemma NormalNeverOvershoots(c: Controller, altitude: Option<real>, now: real, cfg: Config)
    requires Valid(c)
    requires PostTransitions(c, altitude, now, cfg).state == Normal
    ensures c.endZReached ==> Update(c, altitude, now, cfg).sent == c.endZ
    ensures var step := StepSchedule.Tick(c.schedule, c.endZ, c.plannedZ).currentStep;
            OnApproachSide(c) || (if c.trajectoryDown then step >= 0.0 else step <= 0.0)
            ==> NotPastEnd(c, Update(c, altitude, now, cfg).sent)
    ensures OnApproachSide(c) ==> OnApproachSide(Update(c, altitude, now, cfg).next)
  {
  }

  /** A downward RETURN never commands a depth below the reference: it
      either lands exactly on it or stays one clamped step short of it. */
  lemma DownwardReturnStaysAboveSlope(c: Controller, altitude: Option<real>, now: real, cfg: Config)
    requires Valid(c)
    requires c.trajectoryDown
    requires PostTransitions(c, altitude, now, cfg).state == Return
    ensures var sent := Update(c, altitude, now, cfg).sent;
            && sent <= c.currentZ
            && (sent < c.currentZ ==> sent == Clamp(c.commandDepth + c.maxAngleStep, cfg))
  {
  }

  /** An upward RETURN holds the previous command and hands back to NORMAL
      in the same tick once the advanced reference is at or above it. */
  lemma UpwardReturnHolds(c: Controller, altitude: Option<real>, now: real, cfg: Config)
    requires Valid(c)
    requires !c.trajectoryDown
    requires PostTransitions(c, altitude, now, cfg).state == Return
    ensures var r := Update(c, altitude, now, cfg);
            && r.sent == c.commandDepth
            && (r.next.currentZ <= c.commandDepth ==> r.next.state == Normal)
  {
  }

  // ---------------------------------------------------------------------
  // Runs of ticks

  /** One sensor reading: the altitude (absent when unknown) and the clock. */
  datatype Reading = Reading(altitude: Option<real>, now: real)

  /** The controller after one tick per reading. */
  function Run(c: Controller, readings: seq<Reading>, cfg: Config): (r: Controller)
    requires Valid(c)
    ensures Valid(r)
    ensures r.endZ == c.endZ && r.plannedZ == c.plannedZ
    decreases |readings|
  {
    if |readings| == 0 then c
    else Run(Update(c, readings[0].altitude, readings[0].now, cfg).next, readings[1..], cfg)
  }

  /** The step schedule runs on regardless of altitude and safety state:
      after `n` ticks it is the schedule after `n` schedule steps. */
  lemma {:induction false} ScheduleIgnoresSafety(c: Controller, readings: seq<Reading>, cfg: Config)
    requires Valid(c)
    ensures Run(c, readings, cfg).schedule
            == StepSchedule.TickN(c.schedule, c.endZ, c.plannedZ, |readings|)
    decreases |readings|
  {
    if |readings| > 0 {
      var n := Update(c, readings[0].altitude, readings[0].now, cfg).next;
      ScheduleIgnoresSafety(n, readings[1..], cfg);
    }
  }

  /** `end_z_reached` is never cleared, and from then on the reference
      stays on `end_z`, over any run. */
  lemma {:induction false} EndReachedIsFinal(c: Controller, readings: seq<Reading>, cfg: Config)
    requires Valid(c) && ReachedAtEnd(c) && c.endZReached
    ensures Run(c, readings, cfg).endZReached
    ensures Run(c, readings, cfg).currentZ == c.endZ
    decreases |readings|
  {
    if |readings| > 0 {
      var n := Update(c, readings[0].altitude, readings[0].now, cfg).next;
      EndReachedIsFinal(n, readings[1..], cfg);
    }
  }

  // ---------------------------------------------------------------------
  // Progress of the reference

  /** How far the reference still is from `end_z`, in the direction of
      travel (negative once it has passed it). */
  function DistanceToEnd(c: Controller): real {
    if c.trajectoryDown then c.endZ - c.currentZ else c.currentZ - c.endZ
  }

  /** The current step, measured in the direction of travel. */
  function StepTowardEnd(c: Controller): real {
    if c.trajectoryDown then c.schedule.currentStep else -c.schedule.currentStep
  }

  /** Once the step transition is over, every tick either sets
      `end_z_reached` or moves the reference one step closer to `end_z`,
      whatever the safety state; a reference at or past `end_z` is pinned
      on the next tick. */
  lemma TickProgress(c: Controller, altitude: Option<real>, now: real, cfg: Config)
    requires Valid(c) && !c.schedule.active && !c.endZReached
    ensures var n := Update(c, altitude, now, cfg).next;
            && n.schedule == c.schedule && n.trajectoryDown == c.trajectoryDown
            && (DistanceToEnd(c) <= 0.0 ==> n.endZReached)
            && (!n.endZReached ==> DistanceToEnd(n) == DistanceToEnd(c) - StepTowardEnd(c))
  {
    var c2 := PostTransitions(c, altitude, now, cfg);
    assert c2.schedule == c.schedule;
    var e := Execute(c2, now, cfg);
    var c4 := AdvanceVs(e.next);
    if !e.next.endZReached {
      assert e.next.currentZ == c.currentZ;
      assert DistanceToEnd(c) <= 0.0 ==> AtOrPastEnd(e.next);
    }
  }

  /** `end_z_reached` stays set over any run. */
  lemma {:induction false} ReachedPersists(c: Controller, readings: seq<Reading>, cfg: Config)
    requires Valid(c) && c.endZReached
    ensures Run(c, readings, cfg).endZReached
    decreases |readings|
  {
    if |readings| > 0 {
      var n := Update(c, readings[0].altitude, readings[0].now, cfg).next;
      ReachedPersists(n, readings[1..], cfg);
    }
  }

  /** After the step transition, with a non-zero step pointing toward
      `end_z`, the reference reaches `end_z` within `1 + distance / step`
      ticks, whatever the altitude readings. */
  lemma {:induction false} ReachesEnd(c: Controller, readings: seq<Reading>, cfg: Config)
    requires Valid(c) && !c.schedule.active && StepTowardEnd(c) > 0.0
    requires |readings| >= 1
    requires DistanceToEnd(c) <= ((|readings| - 1) as real) * StepTowardEnd(c)
    ensures Run(c, readings, cfg).endZReached
    decreases |readings|
  {
    var n := Update(c, readings[0].altitude, readings[0].now, cfg).next;
    if c.endZReached {
      ReachedPersists(c, readings, cfg);
    } else {
      TickProgress(c, readings[0].altitude, readings[0].now, cfg);
      if n.endZReached {
        ReachedPersists(n, readings[1..], cfg);
      } else {
        var st := StepTowardEnd(c);
        var k := (|readings| - 1) as real;
        assert DistanceToEnd(c) > 0.0;
        assert k * st > 0.0;
        assert |readings| >= 2;
        assert ((|readings[1..]| - 1) as real) * st == k * st - st;
        assert StepTowardEnd(n) == st;
        ReachesEnd(n, readings[1..], cfg);
      }
    }
  }
}
