/** The phase manager (`PhaseManager` in src/phase_manager.py): it follows
    the backseat's mission and phase, loads the phase's subphases from the
    mission file, waits for the line start of the first subphase, and
    switches to the next subphase when the end point of the current one is
    reached.

    One call of `Update` is one `await manager.update()`. The answers of
    the backseat queries and of the navigation feed made during that call
    are inputs, one per query, and loading the mission file is the
    parameter `load`. The virtual-slope task is represented by its
    controller: stopping a task that is past its set-up stores the
    controller's current step as the step to hand on, as the slope task's
    `finally` clause does. */
module PhaseManager {
  import opened Optional
  import opened Settings
  import opened Navigation
  import opened LineStart
  import opened SubphaseOrder
  import VsController

  /** `WaitingState`. */
  datatype Waiting = NoWait | LineStartWait | SubphaseWait

  /** One phase of the mission file: a table of subphases (with its keys
      in file order), or some other YAML value. */
  datatype PhaseConfig =
    | Table(order: seq<string>, subphases: map<string, SubphaseData>)
    | NotATable

  /** The virtual-slope task. `SettingUp` is a task created but not yet
      past the first `await` of `virtual_slope_loop`, so outside its `try`;
      `c` is the controller its set-up builds, which depends only on values
      fixed when the task is created. `Running` is a task inside its `try`,
      ticking `c`. */
  datatype Task = SettingUp(c: VsController.Controller) | Running(c: VsController.Controller)

  datatype Manager = Manager(
    missionName: Option<string>,
    phasesData: map<int, PhaseConfig>,
    lastPhaseId: Option<int>,
    currentPhaseId: Option<int>,
    currentSubphaseId: Option<string>,
    subphaseList: seq<string>,
    currentSubphaseIndex: int,
    waiting: Waiting,
    vs: Option<Task>,                      // the virtual-slope task
    lastStep: real                         // step handed to the next subphase
  )

  /** The state `__init__` builds. */
  const Initial: Manager :=
    Manager(None, map[], None, None, None, [], -1, NoWait, None, 0.0)

  /** The answers the backseat and the navigation feed give during one
      `update` call, one per query in the order the call makes them. */
  datatype Answers = Answers(
    missionName: Option<string>,            // get_current_mission_name
    phaseId: Option<int>,                   // get_current_phase_id
    enabledAtStopCheck: bool,               // is_phase_enabled in _check_should_stop_vs
    enabledAtPhaseChange: bool,             // is_phase_enabled in _handle_phase_change
    navAtEndCheck: Option<NavigationData>,  // navigation in _check_subphase_end_reached
    navAtStartCheck: Option<NavigationData> // navigation in _check_start_conditions
  )

  /** What `update` gives back: a subphase to start, nothing, or an
      exception (a missing key in the subphase entry, a bad list index);
      the manager state reached before the exception is kept. */
  datatype Outcome = Start(id: string, data: SubphaseData) | NoStart | Raised

  datatype Step = Step(m: Manager, out: Outcome)

  /** The invariants the manager keeps between calls. */
  predicate Valid(m: Manager) {
    && m.currentSubphaseIndex >= -1
    && m.waiting != SubphaseWait
    && (m.waiting == LineStartWait ==> |m.subphaseList| > 0 && m.vs.None? && m.lastStep == 0.0)
    && (m.vs.Some? ==> m.waiting == NoWait && VsController.Valid(m.vs.value.c))
  }

  /** `stop_vs`: cancelling a running slope task runs its `finally` clause,
      which stores the controller's current step; a task cancelled during
      its set-up has not entered its `try`, and the step stays as stored. */
  function StopVs(m: Manager): (r: Manager)
    ensures r.vs.None?
    ensures m.vs.Some? && m.vs.value.Running? ==> r.lastStep == m.vs.value.c.schedule.currentStep
    ensures m.vs.None? || m.vs.value.SettingUp? ==> r.lastStep == m.lastStep
    ensures m.vs.None? ==> r == m
    ensures r == m.(vs := None, lastStep := r.lastStep)
    ensures Valid(m) ==> Valid(r)
  {
    match m.vs
    case None => m
    case Some(SettingUp(_)) => m.(vs := None)
    case Some(Running(c)) => m.(vs := None, lastStep := c.schedule.currentStep)
  }

  /** Python truthiness of the mission name. */
  predicate HasMission(name: Option<string>) {
    name.Some? && name.value != ""
  }

  /** `_check_mission_change`: a different mission name stops the slope task,
      clears the subphase progress and the step to hand on, and reloads the
      phases; `last_phase_id` is left as it was. */
  function CheckMissionChange(m: Manager, newMission: Option<string>,
                              load: string -> map<int, PhaseConfig>): (r: Manager)
    ensures newMission == m.missionName ==> r == m
    ensures newMission != m.missionName ==>
      && r.missionName == newMission
      && r.vs.None? && r.waiting == NoWait && r.currentSubphaseId.None?
      && r.currentSubphaseIndex == -1 && r.subphaseList == [] && r.lastStep == 0.0
      && r.phasesData == (if HasMission(newMission) then load(newMission.value) else map[])
      && r.lastPhaseId == m.lastPhaseId && r.currentPhaseId == m.currentPhaseId
    ensures Valid(m) ==> Valid(r)
  {
    if newMission == m.missionName then m
    else
      StopVs(m).(missionName := newMission, waiting := NoWait, currentSubphaseId := None,
                 currentSubphaseIndex := -1, subphaseList := [], lastStep := 0.0,
                 phasesData := if HasMission(newMission) then load(newMission.value) else map[])
  }

  /** `_check_should_stop_vs`: a running task stops when the phase changed
      or the phase is no longer enabled. */
  predicate ShouldStopVs(m: Manager, enabled: bool) {
    m.vs.Some? && (m.currentPhaseId != m.lastPhaseId || !enabled)
  }

  /** `_handle_phase_change`: the subphase progress and the step to hand on
      are cleared; when the new phase is in the mission file, enabled, and
      a table with at least one subphase, its subphases are sorted and the
      manager waits for the line start of the first. The new phase becomes
      the last phase in every case. */
  function HandlePhaseChange(m: Manager, enabled: bool): (r: Manager)
    requires m.currentPhaseId.Some?
    ensures r.lastPhaseId == m.currentPhaseId
    ensures r.currentSubphaseId.None? && r.currentSubphaseIndex == -1 && r.lastStep == 0.0
    ensures r.waiting == LineStartWait <==>
      m.currentPhaseId.value in m.phasesData && enabled
      && m.phasesData[m.currentPhaseId.value].Table?
      && |m.phasesData[m.currentPhaseId.value].order| > 0
    ensures r.waiting == LineStartWait ==>
      r.subphaseList == SortByKey(m.phasesData[m.currentPhaseId.value].order)
    ensures r.waiting != LineStartWait ==> r.waiting == NoWait && r.subphaseList == []
    ensures r.vs == m.vs && r.phasesData == m.phasesData && r.missionName == m.missionName
    ensures r.currentPhaseId == m.currentPhaseId
    ensures Valid(m) && m.vs.None? ==> Valid(r)
  {
    var id := m.currentPhaseId.value;
    var cleared := m.(currentSubphaseId := None, currentSubphaseIndex := -1, subphaseList := [],
                      waiting := NoWait, lastStep := 0.0, lastPhaseId := m.currentPhaseId);
    if id !in m.phasesData || !enabled then cleared
    else
      match m.phasesData[id]
      case NotATable => cleared
      case Table(order, _) =>
        var sorted := SortByKey(order);
        if |sorted| == 0 then cleared
        else cleared.(subphaseList := sorted, waiting := LineStartWait)
  }

  /** `_check_subphase_end_reached`: when the current subphase's end point
      is reached, the index moves on; if a next subphase exists the slope task is
      stopped and that subphase is returned, and after the last one the slope task
      keeps running on `END_Z`. An entry without `END_LAT`/`END_LON` raises. */
  function CheckSubphaseEndReached(m: Manager, nav: Option<NavigationData>,
                                   g: Geodesy, cfg: Config): (r: Step)
    requires m.currentPhaseId.Some? && m.currentSubphaseId.Some?
    requires m.currentSubphaseIndex >= -1
    ensures r.out.Start? ==>
      && r.m == StopVs(m).(currentSubphaseIndex := m.currentSubphaseIndex + 1,
                            currentSubphaseId := Some(r.out.id), waiting := NoWait)
      && 0 <= m.currentSubphaseIndex + 1 < |m.subphaseList|
      && r.out.id == m.subphaseList[m.currentSubphaseIndex + 1]
    ensures r.out.Start? ==> nav.Some?
    ensures !r.out.Start? ==> r.m == m || r.m == m.(currentSubphaseIndex := m.currentSubphaseIndex + 1)
    ensures r.m.vs.Some? ==> r.m.vs == m.vs
    ensures Valid(m) ==> Valid(r.m)
  {
    var phaseId := m.currentPhaseId.value;
    var subId := m.currentSubphaseId.value;
    if phaseId !in m.phasesData || m.phasesData[phaseId].NotATable? then Step(m, NoStart)
    else
      var config := m.phasesData[phaseId].subphases;
      if subId !in config || nav.None? then Step(m, NoStart)
      else
        var data := config[subId];
        if data.endLat.None? || data.endLon.None? then Step(m, Raised)
        else if !CheckPoint(data.endLat.value, data.endLon.value, nav, g, cfg) then Step(m, NoStart)
        else
          var index := m.currentSubphaseIndex + 1;
          var moved := m.(currentSubphaseIndex := index);
          if index < |m.subphaseList| && m.subphaseList[index] in config then
            var next := m.subphaseList[index];
            Step(StopVs(moved.(currentSubphaseId := Some(next), waiting := NoWait)),
                 Start(next, config[next]))
          else Step(moved, NoStart)
  }

  /** Python's `xs[i]`: negative indices count from the end; outside the
      list it is an `IndexError`. */
  function PyIndex(xs: seq<string>, i: int): (r: Option<string>)
    ensures r.Some? <==> -|xs| <= i < |xs|
    ensures 0 <= i < |xs| ==> r == Some(xs[i])
  {
    if 0 <= i < |xs| then Some(xs[i])
    else if -|xs| <= i < 0 then Some(xs[|xs| + i])
    else None
  }

  /** `_check_start_conditions`: with navigation data, waiting for the line
      start starts the first subphase once `check_line_start` holds; a
      phase or subphase missing from the mission file ends the wait. */
  function CheckStartConditions(m: Manager, nav: Option<NavigationData>,
                                g: Geodesy, cfg: Config): (r: Step)
    requires m.currentPhaseId.Some?
    ensures nav.None? ==> r == Step(m, NoStart)
    ensures r.out.Start? && m.waiting == LineStartWait ==>
      && |m.subphaseList| > 0 && r.out.id == m.subphaseList[0]
      && r.m == m.(currentSubphaseId := Some(r.out.id), currentSubphaseIndex := 0, waiting := NoWait)
      && CheckLineStart(r.out.data, nav, g, cfg)
    ensures m.waiting == LineStartWait && nav.Some? && |m.subphaseList| > 0
            && m.currentPhaseId.value in m.phasesData
            && m.phasesData[m.currentPhaseId.value].Table?
            && m.subphaseList[0] in m.phasesData[m.currentPhaseId.value].subphases ==>
      (r.out.Start? <==>
         CheckLineStart(m.phasesData[m.currentPhaseId.value].subphases[m.subphaseList[0]], nav, g, cfg))
    ensures !r.out.Start? ==> r.m == m || r.m == m.(waiting := NoWait)
    ensures r.m.vs == m.vs && r.m.lastStep == m.lastStep
    ensures Valid(m) ==> Valid(r.m)
  {
    var phaseId := m.currentPhaseId.value;
    if nav.None? then Step(m, NoStart)
    else if phaseId !in m.phasesData then Step(m.(waiting := NoWait), NoStart)
    else
      var phase := m.phasesData[phaseId];
      match m.waiting
      case LineStartWait =>
        if |m.subphaseList| == 0 then Step(m, NoStart)
        else
          var first := m.subphaseList[0];
          if phase.NotATable? || first !in phase.subphases then Step(m.(waiting := NoWait), NoStart)
          else
            var data := phase.subphases[first];
            if CheckLineStart(data, nav, g, cfg) then
              Step(m.(currentSubphaseId := Some(first), currentSubphaseIndex := 0, waiting := NoWait),
                   Start(first, data))
            else Step(m, NoStart)
      case SubphaseWait =>
        if m.currentSubphaseIndex >= |m.subphaseList| then Step(m.(waiting := NoWait), NoStart)
        else
          (match PyIndex(m.subphaseList, m.currentSubphaseIndex)
           case None => Step(m, Raised)
           case Some(next) =>
             if phase.NotATable? || next !in phase.subphases then Step(m.(waiting := NoWait), NoStart)
             else
               var data := phase.subphases[next];
               if data.startLat.None? || data.startLon.None? then Step(m, Raised)
               else if CheckPoint(data.startLat.value, data.startLon.value, nav, g, cfg) then
                 Step(m.(currentSubphaseId := Some(next), waiting := NoWait), Start(next, data))
               else Step(m, NoStart))
      case NoWait => Step(m, NoStart)
  }

  /** `_handle_no_connection`: without an answer from the backseat the
      manager forgets the last phase and stops waiting. */
  function HandleNoConnection(m: Manager): (r: Manager)
    ensures r.lastPhaseId.None? && r.waiting == NoWait
    ensures r == m.(lastPhaseId := None, waiting := NoWait)
  {
    m.(lastPhaseId := None, waiting := NoWait)
  }

  /** `update`: mission check, phase query, stopping the slope task, the end
      check of the running subphase, the phase change, and the start
      conditions, in that order. */
  function Update(m: Manager, a: Answers, load: string -> map<int, PhaseConfig>,
                  g: Geodesy, cfg: Config): (r: Step)
    requires Valid(m)
    ensures Valid(r.m)
    ensures a.phaseId.None? ==> r.out == NoStart && r.m.lastPhaseId.None? && r.m.waiting == NoWait
    ensures r.out.Start? ==> a.phaseId.Some? && r.m.vs.None?
    ensures r.m.currentPhaseId == a.phaseId
    ensures r.m.vs.Some? ==> m.vs == r.m.vs
  {
    var m1 := CheckMissionChange(m, a.missionName, load);
    var m2 := m1.(currentPhaseId := a.phaseId);
    if a.phaseId.None? then Step(HandleNoConnection(m2), NoStart)
    else
      var m3 := if ShouldStopVs(m2, a.enabledAtStopCheck) then StopVs(m2) else m2;
      var afterEnd :=
        if m3.vs.Some? && m3.currentSubphaseId.Some? then CheckSubphaseEndReached(m3, a.navAtEndCheck, g, cfg)
        else Step(m3, NoStart);
      if afterEnd.out.Start? || afterEnd.out.Raised? then afterEnd
      else
        PhaseChangeAndStart(afterEnd.m, a, g, cfg)
  }

  /** The second half of `update`: the phase change, then the start check
      while waiting. A task still running at this point belongs to the
      current phase. */
  function PhaseChangeAndStart(m: Manager, a: Answers, g: Geodesy, cfg: Config): (r: Step)
    requires Valid(m) && m.currentPhaseId.Some?
    requires m.currentPhaseId != m.lastPhaseId ==> m.vs.None?
    ensures Valid(r.m)
    ensures r.out.Start? ==> r.m.vs.None?
    ensures r.m.currentPhaseId == m.currentPhaseId && r.m.vs == m.vs
  {
    var m1 := if m.currentPhaseId != m.lastPhaseId then HandlePhaseChange(m, a.enabledAtPhaseChange) else m;
    if m1.waiting != NoWait then CheckStartConditions(m1, a.navAtStartCheck, g, cfg)
    else Step(m1, NoStart)
  }

  /** The initial state keeps the invariants. */
  lemma InitialIsValid()
    ensures Valid(Initial)
  {
  }

  /** Waiting for the line start, with mission and phase unchanged, a call
      starts the first subphase exactly when the vehicle is at its line
      start. */
  lemma StartsAtLineStart(m: Manager, a: Answers, load: string -> map<int, PhaseConfig>,
                          g: Geodesy, cfg: Config)
    requires Valid(m) && m.waiting == LineStartWait
    requires a.missionName == m.missionName
    requires a.phaseId.Some? && a.phaseId == m.lastPhaseId
    requires a.phaseId.value in m.phasesData && m.phasesData[a.phaseId.value].Table?
    requires m.subphaseList[0] in m.phasesData[a.phaseId.value].subphases
    ensures var r := Update(m, a, load, g, cfg);
            && (r.out.Start? <==>
                  CheckLineStart(m.phasesData[a.phaseId.value].subphases[m.subphaseList[0]],
                                 a.navAtStartCheck, g, cfg))
            && (r.out.Start? ==> r.out.id == m.subphaseList[0] && r.m.currentSubphaseIndex == 0)
  {
    var m2 := m.(currentPhaseId := a.phaseId);
    assert !ShouldStopVs(m2, a.enabledAtStopCheck);
    assert Update(m, a, load, g, cfg) == CheckStartConditions(m2, a.navAtStartCheck, g, cfg);
  }

  /** Subphases run in list order, and the step handed to the next one is
      the step the stopped controller had reached: with mission and phase
      unchanged and the phase enabled, a call that starts a subphase while
      a task runs starts the next one in the list and stores the running
      controller's current step; a task still in its set-up leaves the
      stored step as it was. */
  lemma SubphaseHandOff(m: Manager, a: Answers, load: string -> map<int, PhaseConfig>,
                        g: Geodesy, cfg: Config)
    requires Valid(m) && m.vs.Some?
    requires a.missionName == m.missionName
    requires a.phaseId.Some? && a.phaseId == m.lastPhaseId
    requires a.enabledAtStopCheck
    ensures var r := Update(m, a, load, g, cfg);
            r.out.Start? ==>
              && (m.vs.value.Running? ==> r.m.lastStep == m.vs.value.c.schedule.currentStep)
              && (m.vs.value.SettingUp? ==> r.m.lastStep == m.lastStep)
              && r.m.currentSubphaseIndex == m.currentSubphaseIndex + 1
              && 0 <= r.m.currentSubphaseIndex < |m.subphaseList|
              && r.out.id == m.subphaseList[r.m.currentSubphaseIndex]
              && r.m.currentSubphaseId == Some(r.out.id)
  {
    var m2 := m.(currentPhaseId := a.phaseId);
    assert !ShouldStopVs(m2, a.enabledAtStopCheck);
    if m.currentSubphaseId.Some? {
      var e := CheckSubphaseEndReached(m2, a.navAtEndCheck, g, cfg);
      if !e.out.Start? && !e.out.Raised? {
        assert e.m.waiting == NoWait && e.m.currentPhaseId == e.m.lastPhaseId;
      }
    }
  }

  /** A phase change, or the phase being disabled, stops the running task;
      after a phase change the step to hand on is back to 0. */
  lemma PhaseChangeStopsTask(m: Manager, a: Answers, load: string -> map<int, PhaseConfig>,
                             g: Geodesy, cfg: Config)
    requires Valid(m) && m.vs.Some?
    requires a.missionName == m.missionName && a.phaseId.Some?
    requires a.phaseId != m.lastPhaseId || !a.enabledAtStopCheck
    ensures Update(m, a, load, g, cfg).m.vs.None?
    ensures a.phaseId != m.lastPhaseId ==> Update(m, a, load, g, cfg).m.lastStep == 0.0
  {
    var m2 := m.(currentPhaseId := a.phaseId);
    assert ShouldStopVs(m2, a.enabledAtStopCheck);
  }

  /** A change of mission stops the slope task and clears the subphase progress,
      but keeps `last_phase_id`: when the new mission reports the same phase
      number, no phase change is seen, nothing is waited for, and no
      subphase starts. */
  lemma MissionChangeOnSamePhaseStaysIdle(m: Manager, a: Answers, load: string -> map<int, PhaseConfig>,
                                          g: Geodesy, cfg: Config)
    requires Valid(m)
    requires a.missionName != m.missionName
    requires a.phaseId.Some? && a.phaseId == m.lastPhaseId
    ensures var r := Update(m, a, load, g, cfg);
            r.out == NoStart && r.m.vs.None? && r.m.waiting == NoWait
            && r.m.subphaseList == [] && r.m.lastPhaseId == m.lastPhaseId
  {
    var m1 := CheckMissionChange(m, a.missionName, load);
    assert m1.vs.None? && m1.waiting == NoWait;
  }
}
