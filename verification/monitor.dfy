/** The two loops of main.py: the phase monitor, which runs the phase
    manager and starts a virtual-slope task for each subphase it returns,
    and the virtual-slope loop, which ticks the depth controller and sends
    its command depth. The system state is the manager (holding the running
    task's controller) and the overload channel's last valid depth. The
    scheduling of the two loops is left open: any interleaving of
    `MonitorTick` and `SlopeTick` is a run. */
module Monitor {
  import opened Optional
  import opened Settings
  import opened Navigation
  import opened LineStart
  import opened PhaseManager
  import VsController
  import StepSchedule
  import DepthOverload

  /** `calculate_step`: the depth change per command period of a slope
      from `startZ` to `endZ` over `distance` metres at `speed` m/s; a
      zero distance is the `ZeroDivisionError`. */
  function CalculateStep(startZ: real, endZ: real, speed: real, distance: real, period: real): (r: Option<real>)
    ensures r.None? <==> distance == 0.0
    ensures r.Some? ==> r.value * distance == (endZ - startZ) * speed * period
  {
    if distance == 0.0 then None
    else Some((((endZ - startZ) * speed) / distance) * period)
  }

  /** A slope of `distance / (speed * period)` ticks, each moving by the
      step, covers exactly the depth change from start to end. */
  lemma StepsCoverSlope(startZ: real, endZ: real, speed: real, distance: real, period: real)
    requires distance != 0.0 && speed * period != 0.0
    ensures CalculateStep(startZ, endZ, speed, distance, period).value * (distance / (speed * period))
            == endZ - startZ
  {
    var step := CalculateStep(startZ, endZ, speed, distance, period).value;
    calc {
      step * (distance / (speed * period));
      (step * distance) / (speed * period);
      ((endZ - startZ) * (speed * period)) / (speed * period);
      endZ - startZ;
    }
  }

  /** With a positive speed, distance and period the step points the way
      the slope goes: down exactly when `END_Z` is deeper than `START_Z`. */
  lemma StepSignFollowsSlope(startZ: real, endZ: real, speed: real, distance: real, period: real)
    requires speed > 0.0 && distance > 0.0 && period > 0.0
    ensures CalculateStep(startZ, endZ, speed, distance, period).value > 0.0 <==> endZ > startZ
    ensures CalculateStep(startZ, endZ, speed, distance, period).value == 0.0 <==> endZ == startZ
  {
    var step := CalculateStep(startZ, endZ, speed, distance, period).value;
    var sp := speed * period;
    assert sp > 0.0;
    assert step * distance == (endZ - startZ) * sp;
    if endZ > startZ {
      assert (endZ - startZ) * sp > 0.0;
    } else if endZ < startZ {
      assert (startZ - endZ) * sp > 0.0;
    }
  }

  /** The set-up of `virtual_slope_loop`: the controller of a subphase,
      built on the planned `START_Z`; `None` when a key is missing or the
      start and end points coincide. The controller starts on the approach
      side of `END_Z`, moving down exactly when `END_Z` is deeper. */
  function StartVirtualSlope(data: SubphaseData, previousStep: real, g: Geodesy,
                             cfg: Config, sinMaxAngle: real): (r: Option<VsController.Controller>)
    ensures r.Some? ==> data.startZ.Some? && data.endZ.Some? && data.speed.Some?
                        && data.startLat.Some? && data.startLon.Some?
                        && data.endLat.Some? && data.endLon.Some?
    ensures r.Some? ==>
      && VsController.Valid(r.value) && VsController.OnApproachSide(r.value)
      && r.value.state == VsController.Normal
      && r.value.currentZ == data.startZ.value && r.value.endZ == data.endZ.value
      && (r.value.trajectoryDown <==> data.endZ.value > data.startZ.value)
      && r.value.schedule.currentStep == previousStep
      && r.value.maxAngleStep == data.speed.value * sinMaxAngle * cfg.commandPeriod
  {
    if data.endZ.None? || data.speed.None? || data.startLat.None? || data.startLon.None?
       || data.endLat.None? || data.endLon.None? || data.startZ.None? then None
    else
      var distance := g.distance(data.startLat.value, data.startLon.value,
                                 data.endLat.value, data.endLon.value);
      match CalculateStep(data.startZ.value, data.endZ.value, data.speed.value, distance, cfg.commandPeriod)
      case None => None
      case Some(step) =>
        var maxAngleStep := data.speed.value * sinMaxAngle * cfg.commandPeriod;
        var down := data.endZ.value > data.startZ.value;
        Some(VsController.Init(data.startZ.value, data.endZ.value, step, maxAngleStep, down,
                               previousStep, cfg))
  }

  /** The step the phase monitor stores when `update` returns a subphase:
      the slope's step from the vehicle's depth, or the planned `START_Z`
      when the depth is unknown. A missing key or coincident start and end
      points raise, and there is no step. */
  function MonitorStep(data: SubphaseData, navDepth: Option<real>, g: Geodesy, cfg: Config): (r: Option<real>)
    ensures r.Some? <==>
      && data.startZ.Some? && data.endZ.Some? && data.speed.Some?
      && data.startLat.Some? && data.startLon.Some? && data.endLat.Some? && data.endLon.Some?
      && g.distance(data.startLat.value, data.startLon.value, data.endLat.value, data.endLon.value) != 0.0
    ensures r.Some? ==>
      var startZ := if navDepth.Some? then navDepth.value else data.startZ.value;
      var distance := g.distance(data.startLat.value, data.startLon.value,
                                 data.endLat.value, data.endLon.value);
      r.value * distance == (data.endZ.value - startZ) * data.speed.value * cfg.commandPeriod
  {
    if data.startZ.None? || data.endZ.None? || data.speed.None? || data.startLat.None?
       || data.startLon.None? || data.endLat.None? || data.endLon.None? then None
    else
      var startZ := navDepth.GetOr(data.startZ.value);
      var distance := g.distance(data.startLat.value, data.startLon.value,
                                 data.endLat.value, data.endLon.value);
      CalculateStep(startZ, data.endZ.value, data.speed.value, distance, cfg.commandPeriod)
  }

  /** The body of the phase monitor after `update` returned a subphase:
      the previous step is read, the monitor's step is stored as the step
      to hand on, and the slope task is created with the previous step; it
      is still in its set-up. When the monitor's step raises, nothing is
      stored and no task is created. */
  function StartSubphase(m: Manager, data: SubphaseData, navDepth: Option<real>,
                         g: Geodesy, cfg: Config, sinMaxAngle: real): (r: Manager)
    requires PhaseManager.Valid(m) && m.vs.None? && m.waiting == NoWait
    ensures PhaseManager.Valid(r)
    ensures r.vs.Some? <==> StartVirtualSlope(data, m.lastStep, g, cfg, sinMaxAngle).Some?
    ensures r.vs.Some? ==> r.vs == Some(SettingUp(StartVirtualSlope(data, m.lastStep, g, cfg, sinMaxAngle).value))
    ensures r.vs.None? ==> r == m
    ensures r.vs.Some? ==> MonitorStep(data, navDepth, g, cfg) == Some(r.lastStep)
    ensures r.vs.Some? ==>
      var startZ := if navDepth.Some? then navDepth.value else data.startZ.value;
      var distance := g.distance(data.startLat.value, data.startLon.value,
                                 data.endLat.value, data.endLon.value);
      r.lastStep * distance == (data.endZ.value - startZ) * data.speed.value * cfg.commandPeriod
      && distance != 0.0
  {
    match MonitorStep(data, navDepth, g, cfg)
    case None => m
    case Some(currentStep) =>
      var c := StartVirtualSlope(data, m.lastStep, g, cfg, sinMaxAngle);
      assert c.Some?;
      m.(lastStep := currentStep, vs := Some(SettingUp(c.value)))
  }

  datatype System = System(manager: Manager, lastValid: Option<real>)

  const Initial: System := System(PhaseManager.Initial, None)

  predicate Valid(s: System, cfg: Config) {
    PhaseManager.Valid(s.manager) && DepthOverload.OptInLimits(s.lastValid, cfg)
  }

  /** One pass of the phase monitor loop. An exception inside `update` or
      in starting the slope task is caught by the loop; the manager keeps the
      state it had reached. */
  function MonitorTick(s: System, a: Answers, navDepth: Option<real>,
                       load: string -> map<int, PhaseConfig>, g: Geodesy,
                       cfg: Config, sinMaxAngle: real): (r: System)
    requires Valid(s, cfg)
    ensures Valid(r, cfg)
    ensures r.lastValid == s.lastValid
    ensures r.manager.vs.Some? && r.manager.vs != s.manager.vs ==>
              PhaseManager.Update(s.manager, a, load, g, cfg).out.Start?
  {
    var step := PhaseManager.Update(s.manager, a, load, g, cfg);
    match step.out
    case Start(_, data) => s.(manager := StartSubphase(step.m, data, navDepth, g, cfg, sinMaxAngle))
    case _ => s.(manager := step.m)
  }

  /** What one slope tick gives: the system after it and the depth posted
      to the backseat, if any. */
  datatype SlopeOutput = SlopeOutput(system: System, posted: Option<real>)

  /** One pass of `virtual_slope_loop`. A task in its set-up builds its
      controller and enters its `try`, posting nothing. A running task's
      pass lets the altitude of the latest navigation record drive one
      controller update, and its command depth goes through the overload
      channel. Without a task nothing happens. Every posted depth lies
      within the depth limits. */
  function SlopeTick(s: System, nav: Option<NavigationData>, now: real,
                     post: DepthOverload.PostOutcome, cfg: Config): (r: SlopeOutput)
    requires Valid(s, cfg)
    ensures Valid(r.system, cfg)
    ensures DepthOverload.OptInLimits(r.posted, cfg)
    ensures s.manager.vs.None? ==> r == SlopeOutput(s, None)
    ensures r.system.manager.vs.Some? <==> s.manager.vs.Some?
    ensures r.system.manager.lastStep == s.manager.lastStep
    ensures s.manager.vs.Some? && s.manager.vs.value.SettingUp? ==>
      r == SlopeOutput(s.(manager := s.manager.(vs := Some(Running(s.manager.vs.value.c)))), None)
    ensures s.manager.vs.Some? && s.manager.vs.value.Running? ==>
      && r.system.manager.vs.value.Running?
      && r.system.manager.vs.value.c.schedule
           == StepSchedule.Tick(s.manager.vs.value.c.schedule, s.manager.vs.value.c.endZ,
                                s.manager.vs.value.c.plannedZ)
  {
    match s.manager.vs
    case None => SlopeOutput(s, None)
    case Some(SettingUp(c)) => SlopeOutput(s.(manager := s.manager.(vs := Some(Running(c)))), None)
    case Some(Running(c)) =>
      var altitude := if nav.Some? then nav.value.altitude else None;
      var u := VsController.Update(c, altitude, now, cfg);
      var sent := DepthOverload.SendZCommand(s.lastValid, u.sent, cfg, post);
      SlopeOutput(System(s.manager.(vs := Some(Running(u.next))), sent.lastValid), sent.posted)
  }

  /** The first subphase of a phase starts from a standstill: a task
      started from the line start begins on step 0 and ramps to the
      subphase's own step. */
  lemma FirstSubphaseRampsFromZero(s: System, a: Answers, navDepth: Option<real>,
                                   load: string -> map<int, PhaseConfig>, g: Geodesy,
                                   cfg: Config, sinMaxAngle: real)
    requires Valid(s, cfg) && s.manager.waiting == LineStartWait
    requires a.missionName == s.manager.missionName
    requires a.phaseId.Some? && a.phaseId == s.manager.lastPhaseId
    ensures var r := MonitorTick(s, a, navDepth, load, g, cfg, sinMaxAngle);
            r.manager.vs.Some? ==> r.manager.vs.value.c.schedule.currentStep == 0.0
  {
    var m := s.manager;
    var m2 := m.(currentPhaseId := a.phaseId);
    assert !ShouldStopVs(m2, a.enabledAtStopCheck);
    var step := PhaseManager.Update(m, a, load, g, cfg);
    assert step == CheckStartConditions(m2, a.navAtStartCheck, g, cfg);
    assert step.m.lastStep == 0.0;
  }

  /** Between subphases the step rate does not jump: when the running task
      is replaced by the next subphase's, the new controller starts on the
      step the old one had reached. A task replaced while still in its
      set-up stored nothing, so the new controller starts on the step the
      monitor stored when it created that task. */
  lemma HandOffIsSmooth(s: System, a: Answers, navDepth: Option<real>,
                        load: string -> map<int, PhaseConfig>, g: Geodesy,
                        cfg: Config, sinMaxAngle: real)
    requires Valid(s, cfg) && s.manager.vs.Some?
    requires a.missionName == s.manager.missionName
    requires a.phaseId.Some? && a.phaseId == s.manager.lastPhaseId
    requires a.enabledAtStopCheck
    ensures var r := MonitorTick(s, a, navDepth, load, g, cfg, sinMaxAngle);
            && (r.manager.vs.Some? && s.manager.vs.value.Running? ==>
                  r.manager.vs.value.c.schedule.currentStep == s.manager.vs.value.c.schedule.currentStep)
            && (PhaseManager.Update(s.manager, a, load, g, cfg).out.Start?
                && r.manager.vs.Some? && s.manager.vs.value.SettingUp? ==>
                  r.manager.vs.value.c.schedule.currentStep == s.manager.lastStep)
  {
    SubphaseHandOff(s.manager, a, load, g, cfg);
  }
}
