# Virtual-slope depth control, modelled in Dafny

The system flies an AUV's depth along a "virtual slope" during each subphase
of a mission. A per-tick controller moves a reference depth from the
subphase's start depth toward `END_Z`. An altitude-driven safety state
machine overrides that reference: NORMAL, HOLD, ASCEND, WAIT and RETURN. A
phase manager follows the backseat's mission and phase. It orders the
phase's subphases and waits for the line start of the first one. When a
subphase's end point is reached, it moves on to the next. Navigation comes
from a DesBridge TCP feed of `$NAVIGATION` text lines. Depth commands go to
the backseat's overload API through a depth-limit filter.

This project models each of those parts as immutable records and pure
per-tick functions over reals:

| module | file | part of the system |
|---|---|---|
| `StepSchedule` | step_schedule.dfy | the step transition (linspace) and the error compensation of `DepthController` |
| `VsController` | vs_controller.dfy | `DepthController.update` and the safety state machine |
| `DepthOverload` | depth_overload.dfy | `send_z_command`: depth limits with the last-valid fallback |
| `Text`, `Navigation`, `DesBridge` | text.dfy, navigation.dfy, desbridge.dfy | line framing, `safe_float` and the `$NAVIGATION` parser |
| `LineStart` | line_start.dfy | `check_line_start`, `check_point` and the heading arithmetic |
| `PhaseInfo` | phase_info.dfy | the TTL cache of the backseat's mission answer |
| `SubphaseOrder` | subphase_order.dfy | `subphase_sort_key` and the sorting of subphase ids |
| `PhaseManager` | phase_manager.dfy | `PhaseManager.update` and its helpers |
| `Monitor` | monitor.dfy | `calculate_step`, the set-up of `virtual_slope_loop`, and one pass of each loop in main.py |
| `Numbers`, `Optional`, `Settings` | numbers.dfy, optional.dfy, settings.dfy | Python arithmetic (`math.ceil`, floored `%`, `numpy.linspace`), `Option`, and the configuration record |

Several things the model cannot compute enter as parameters:

- the wall clock (`now`);
- the altitude and navigation readings;
- the outcome of every HTTP request;
- the mission file loader;
- Python's `float()` on a field;
- the haversine distance and the bearing;
- the sine of the maximum pitch angle.

Some behaviour of the code worth knowing when reading the model:

- A missing altitude sends the controller back to NORMAL.
- Leaving ASCEND or HOLD goes through WAIT for `wait_time`, then RETURN.
- The error compensation is computed once, when the step transition ends. It spreads the transition's lag over the remaining ticks.
- The step transition is a linear `linspace`.
- The line start is awaited for as long as it takes.
- After the last subphase the slope keeps commanding `END_Z`.
- A slope task cancelled before its first `await` returns has not entered its `try`. The step the monitor stored then stays as the step handed on.
- `rstrip('\r')` removes every trailing carriage return from a line.

## Model

| member | source | states |
|---|---|---|
| `Numbers.Ceil` | src/VS_controller.py:307 | `math.ceil`: the least integer not below `x` |
| `Numbers.FloorMod` | src/check_line_start.py:42 | Python's `%` on a positive modulus lies in `[0, m)` and differs from `x` by a whole multiple of `m` |
| `Numbers.Linspace` | src/VS_controller.py:56 | `numpy.linspace`: `num` values, the first is `start`, and with at least two the last is `stop` and consecutive values are `(stop - start) / (num - 1)` apart |
| `Numbers.LinspaceSum` | src/VS_controller.py:299 | the sum of a linspace of `num >= 2` values is `num * (start + stop) / 2` |
| `Numbers.LinspaceBetween` | src/VS_controller.py:56 | every linspace value lies between `start` and `stop` |
| `StepSchedule.Init` | src/VS_controller.py:28-65 | a new controller starts on the previous step, holds the linspace to the new step, and runs a transition exactly when the two steps differ |
| `StepSchedule.Compensate` | src/VS_controller.py:298-326 | the compensation changes only the current step, the target step and the compensation flag |
| `StepSchedule.Tick` | src/VS_controller.py:285-296 | one schedule step keeps the list and the subphase's step, and its position stays within the list |
| `StepSchedule.RemainingStepsCover` | src/VS_controller.py:303-309 | `ceil(abs(remaining / step))` is at least 1, and that many steps cover the remaining distance with less than one step to spare |
| `StepSchedule.CompensationRecoversDrift` | src/VS_controller.py:299-313 | the transition's values plus `k` compensated steps move exactly as far as `N + k` constant steps would: the smoothing lag is made up in full |
| `StepSchedule.CompensationFallback` | src/VS_controller.py:321-326 | with no remaining distance or a zero step, the plain step is used and no compensation is switched on |
| `StepSchedule.CompensationClosedForm` | src/VS_controller.py:299-311 | for a transition of `N >= 2` ticks the compensated step is `step + N * (step - previous) / (2k)` |
| `StepSchedule.TransitionValues` | src/VS_controller.py:285-292 | while the transition runs, tick `j` takes the `j`-th linspace value |
| `StepSchedule.InactiveIsStable` | src/VS_controller.py:287-288 | ticks after the transition has ended change nothing |
| `StepSchedule.StepScheduleHolds` | src/VS_controller.py:285-326 | ticks 1..N take the linspace values in order, and every later tick uses the compensated step |
| `StepSchedule.NoTransitionKeepsStep` | src/VS_controller.py:65 | with equal previous and new steps, every tick uses that step |
| `VsController.Init` | src/VS_controller.py:23-70 | a new controller is in NORMAL at the start depth, with the command and the planned start on it and `end_z` not reached |
| `VsController.Clamp` | src/VS_controller.py:338-340 | the result is at least `min_depth` and at most `max_depth`, in-range depths pass unchanged, and out-of-range ones go to the nearer limit |
| `VsController.SetState` | src/VS_controller.py:133-146 | a state change never touches the slope, and only entering ASCEND changes the command |
| `VsController.HandleTransitions` | src/VS_controller.py:90-131 | the safety rules, listed below this table |
| `VsController.Execute` | src/VS_controller.py:180-191 | the depth sent is the new command depth, a reached `end_z` stays reached, and the reference moves only when NORMAL snaps it onto `end_z` |
| `VsController.AdvanceVs` | src/VS_controller.py:342-367 | once `end_z` is reached nothing changes; otherwise the flag is set, with the reference pinned on `end_z`, exactly when the reference is at or past `end_z`, and else the reference moves by the current step |
| `VsController.PostTransitions` | src/VS_controller.py:73-76 | the schedule step comes first and the safety rules leave the reference untouched |
| `VsController.Update` | src/VS_controller.py:71-88 | one tick sends its command depth, advances the schedule by exactly one step whatever the altitude, and never clears `end_z_reached` |
| `VsController.WaitHasStartTime` | src/VS_controller.py:160-161 | a controller in WAIT always carries the time WAIT began |
| `VsController.AscendClampsCommand` | src/VS_controller.py:224-231 | ASCEND sends the clamped `command - max_angle_step`, starting from the reference on entry, and the result lies within the depth limits |
| `VsController.WaitCommand` | src/VS_controller.py:236-249 | WAIT after ASCEND keeps rising by one clamped step, and WAIT after HOLD resends the previous command |
| `VsController.HoldKeepsCommand` | src/VS_controller.py:217-220 | HOLD resends the previous command |
| `VsController.NormalNeverOvershoots` | src/VS_controller.py:193-215 | NORMAL never commands past `end_z` on the approach side, commands exactly `end_z` once it is reached, and keeps the reference on the approach side |
| `VsController.DownwardReturnStaysAboveSlope` | src/VS_controller.py:253-275 | a downward RETURN never commands deeper than the reference: it lands on it or stays one clamped step short |
| `VsController.UpwardReturnHolds` | src/VS_controller.py:277-283 | an upward RETURN resends its command and is back in NORMAL once the advanced reference is at or above it |
| `VsController.ScheduleIgnoresSafety` | src/VS_controller.py:71-81 | over any run of ticks the step schedule advances once per tick, whatever the safety states |
| `VsController.EndReachedIsFinal` | src/VS_controller.py:346-359 | over any run, `end_z_reached` stays set and the reference stays on `end_z` |
| `VsController.TickProgress` | src/VS_controller.py:71-88 | after the step transition, every tick, in any safety state, either sets `end_z_reached` or moves the reference exactly one step closer to `end_z`, and a reference at or past `end_z` is pinned on the next tick |
| `VsController.ReachedPersists` | src/VS_controller.py:346-348 | `end_z_reached` stays set over any run |
| `VsController.ReachesEnd` | src/VS_controller.py:350-367 | after the step transition, with a non-zero step toward `end_z`, the reference reaches `end_z` within `1 + distance / step` ticks whatever the altitude readings |
| `DepthOverload.SendZCommand` | src/backseat_api_overload.py:10-47 | the rules for in-range and out-of-range depths, listed below this table |
| `DepthOverload.AllPostedInLimits` | src/backseat_api_overload.py:18-35 | over any sequence of commands, every depth posted lies within the limits |
| `Text.Strip` | src/DesBridge_api.py:289 | the result of `strip()` neither starts nor ends with whitespace, is empty exactly for whitespace-only text, and is the whole text when it has no margin |
| `Text.StripIsSlice` | src/DesBridge_api.py:289 | `strip()` is the slice of the text between a whitespace-only prefix and a whitespace-only suffix |
| `Text.Upper` | src/DesBridge_api.py:289 | `upper()` maps each character through the ASCII upper-casing |
| `Text.RStrip` | src/DesBridge_api.py:174 | `rstrip(ch)` removes the whole trailing run of `ch` and nothing else |
| `Text.Split` | src/DesBridge_api.py:202 | the pieces contain no separator and joined with it give back the text, and there is one piece exactly when the separator is absent |
| `Text.SplitPrefix` | src/DesBridge_api.py:173 | a separator-free first piece splits off as the first part |
| `Text.SplitJoin` | src/DesBridge_api.py:202 | splitting a join of separator-free pieces gives back the pieces |
| `Navigation.FromFields` | src/DesBridge_api.py:12-68 | the `k`-th navigation attribute (1..34) is field `k` |
| `DesBridge.SafeFloat` | src/DesBridge_api.py:286-293 | no value for empty text, `UNDEF` in any letter case, whitespace-only text, or text `float()` rejects, and otherwise the `float()` value |
| `DesBridge.UpperIsUndef` | src/DesBridge_api.py:289 | `upper() == "UNDEF"` holds exactly for the case variants of `UNDEF` |
| `DesBridge.StripChecksum` | src/DesBridge_api.py:198-199 | the body is everything before the first `*` |
| `DesBridge.ParseNavigation` | src/DesBridge_api.py:194-284 | no record for fewer than 10 fields, and otherwise attribute `k` is `safe_float` of field `k`, or absent past the last field |
| `DesBridge.ProcessMessage` | src/DesBridge_api.py:184-192 | only a `$NAVIGATION` message that parses replaces the latest record |
| `DesBridge.HeartbeatIsNotNavigation` | src/DesBridge_api.py:186-190 | a `$HBEAT` message is never taken for navigation |
| `DesBridge.Drain` | src/DesBridge_api.py:172-177 | the inner loop processes exactly the complete lines in order and keeps the unterminated tail |
| `DesBridge.AsciiDecode` | src/DesBridge_api.py:169 | decoding with `errors='ignore'` leaves only ASCII characters |
| `DesBridge.AsciiDecodeKeepsAscii` | src/DesBridge_api.py:169 | all-ASCII bytes decode to the same codes, in order, one character each, and bytes without an ASCII one decode to nothing |
| `DesBridge.Receive` | src/DesBridge_api.py:160-177 | after a receive the buffer holds no line feed and is the tail after the last one, and the latest record is the one left by processing every completed line in order |
| `DesBridge.AsciiDecodeAppend` | src/DesBridge_api.py:169 | decoding distributes over concatenated byte strings |
| `DesBridge.DrainAppend` | src/DesBridge_api.py:172-177 | draining a longer buffer is draining the first part and then its tail with the rest |
| `DesBridge.ChunkingIrrelevant` | src/DesBridge_api.py:157-182 | the outcome does not depend on how the stream is cut into `recv` chunks |
| `LineStart.NormalizeDegrees` | src/check_line_start.py:41-42 | `(h + 360) % 360` lies in `[0, 360)`, is the same direction as `h`, and is `h` itself for `h` in `[0, 360)` |
| `LineStart.TargetHeading` | src/check_line_start.py:25-42 | the heading from start to end lies in `[0, 360)` |
| `LineStart.HeadingDifference` | src/check_line_start.py:45-48 | the difference lies in `[0, 180]` for headings in `[0, 360]` and never exceeds the plain difference |
| `LineStart.HeadingDifferenceSymmetric` | src/check_line_start.py:45-48 | the difference does not depend on the order of the headings |
| `LineStart.HeadingDifferenceIsShortestTurn` | src/check_line_start.py:45-48 | no whole number of extra turns brings the two headings closer, and one of -1, 0, 1 turns attains the difference |
| `LineStart.CheckLineStart` | src/check_line_start.py:51-116 | false without position and depth or with a missing key, and otherwise true exactly when the vehicle is near the start point, near `START_Z`, and aligned with the line |
| `LineStart.CheckPoint` | src/check_line_start.py:119-152 | true exactly when the position is known and within the subphase tolerance of the point |
| `LineStart.LineStartImpliesStartPoint` | src/check_line_start.py:78-90 | a line start is also a point reached at the line's start, when the point tolerance is not tighter |
| `PhaseInfo.GetInfo` | src/backseat_api_get.py:14-37 | a fresh cached answer is served, a successful fetch replaces the answer and its time, and a failed fetch keeps both |
| `PhaseInfo.PhaseId` | src/backseat_api_get.py:39-44 | no phase id without an answer, and otherwise the answer's `currentPhaseId` |
| `PhaseInfo.MissionName` | src/backseat_api_get.py:46-51 | no name without an answer, and otherwise the answer's `name` |
| `PhaseInfo.IsPhaseEnabled` | src/backseat_api_get.py:53-65 | true exactly when there is an answer whose state is `Enabled` |
| `PhaseInfo.CacheHoldsLastSuccess` | src/backseat_api_get.py:26-37 | with calls spaced by at least the TTL, the cache holds the body of the last successful fetch: failures never erase it |
| `SubphaseOrder.ParseInt` | src/phase_manager.py:23 | `int()` succeeds only on non-blank text, and a negative result comes from a leading minus |
| `SubphaseOrder.ParseIntAcceptsDigits` | src/phase_manager.py:23 | `int()` accepts only a digit string, optionally after one sign, once surrounding whitespace is stripped |
| `SubphaseOrder.ParseIntUnsigned` | src/phase_manager.py:23 | a digit string, whatever whitespace surrounds it, reads as its decimal value, underscores between digits skipped |
| `SubphaseOrder.ParseIntOfNat` | src/phase_manager.py:23 | `int(str(n)) == n` |
| `SubphaseOrder.ParseIntSigned` | src/phase_manager.py:23 | a sign and a digit string, whatever whitespace surrounds them, read as the signed decimal value |
| `SubphaseOrder.SortKey` | src/phase_manager.py:20-26 | an id with fewer than two `-`-separated parts, or whose first two parts are not both integers, gets the key (0, 0); otherwise the key is those two integers |
| `SubphaseOrder.SortKeyOfIdentifier` | src/phase_manager.py:20-23 | the key of `"a-b"` is `(a, b)` |
| `SubphaseOrder.SortByKey` | src/phase_manager.py:250 | the ids in key order, each as often as in the input |
| `PhaseManager.StopVs` | src/phase_manager.py:90-99 | stopping a running slope task stores its controller's current step, stopping one still in its set-up stores nothing, and nothing else changes |
| `PhaseManager.CheckMissionChange` | src/phase_manager.py:179-201 | a new mission stops the slope task, clears the subphase progress and the step, reloads the phases, and keeps `last_phase_id` |
| `PhaseManager.HandlePhaseChange` | src/phase_manager.py:218-261 | the phase change rules, listed below this table |
| `PhaseManager.CheckSubphaseEndReached` | src/phase_manager.py:133-177 | at the end point the index moves on and the next subphase in the list starts with the slope task stopped; otherwise at most the index changes |
| `PhaseManager.PyIndex` | src/phase_manager.py:306 | Python list indexing, negative indices included |
| `PhaseManager.CheckStartConditions` | src/phase_manager.py:263-327 | waiting for the line start, the first subphase starts exactly when `check_line_start` holds, at index 0 with the wait over |
| `PhaseManager.HandleNoConnection` | src/phase_manager.py:329-337 | without a phase id, the last phase is forgotten and waiting ends |
| `PhaseManager.Update` | src/phase_manager.py:56-88 | one call keeps the manager's invariants, adopts the reported phase id, and starts a subphase only with a phase id and no task running |
| `PhaseManager.InitialIsValid` | src/phase_manager.py:32-53 | the initial manager satisfies the invariants |
| `PhaseManager.StartsAtLineStart` | src/phase_manager.py:277-296 | with mission and phase unchanged, a waiting manager starts the first subphase exactly at its line start |
| `PhaseManager.SubphaseHandOff` | src/phase_manager.py:159-171 | subphases start in list order, and the step handed on is the stopped controller's current step, or the stored step when the task was still in its set-up |
| `PhaseManager.PhaseChangeStopsTask` | src/phase_manager.py:203-227 | a phase change or a disabled phase stops the slope task, and a phase change zeroes the step handed on |
| `PhaseManager.MissionChangeOnSamePhaseStaysIdle` | src/phase_manager.py:183-201 | a mission change that reports the same phase number leaves the manager idle, with nothing waited for and nothing started |
| `Monitor.CalculateStep` | main.py:20-23 | a zero distance raises, and otherwise `step * distance == (end_z - start_z) * speed * period` |
| `Monitor.StepsCoverSlope` | main.py:20-23 | `distance / (speed * period)` steps add up to `end_z - start_z` |
| `Monitor.StepSignFollowsSlope` | main.py:23 | with positive speed, distance and period, the step is positive exactly for a downward slope and zero exactly for a level one |
| `Monitor.StartVirtualSlope` | main.py:33-61 | the slope task's controller starts at the planned `START_Z` on the previous step, goes down exactly when `END_Z > START_Z`, and starts on the approach side |
| `Monitor.MonitorStep` | main.py:134-147 | the monitor's step exists exactly when every key is present and the start and end points are apart, and then the step times the distance equals the depth change (from the measured depth, else `START_Z`) times speed times the command period |
| `Monitor.StartSubphase` | main.py:129-159 | the new slope task, still in its set-up, gets the step read before the store, the stored step uses the measured depth or else `START_Z`, and a missing key or zero distance changes nothing |
| `Monitor.MonitorTick` | main.py:122-165 | a monitor pass keeps the invariants and starts a new task only when `update` returned a subphase |
| `Monitor.SlopeTick` | main.py:26-88 | a task's first pass builds its controller and posts nothing; later passes tick the controller's schedule once and post only depths within the limits; the stored step is untouched |
| `Monitor.FirstSubphaseRampsFromZero` | main.py:129-159 | the first subphase of a phase starts on step 0 |
| `Monitor.HandOffIsSmooth` | main.py:96-101 | the next subphase's controller starts on the step the stopped one had reached, or, when the stopped task was still in its set-up, on the step the monitor stored |

`VsController.HandleTransitions` states the safety rules:

- Without an altitude, every state goes to NORMAL and nothing else changes.
- Below the ascend threshold, the controller goes to ASCEND from any state. This rule comes first.
- HOLD results exactly when the slope goes down and the altitude lies in `[ascend, level)`.
- With a clear altitude, ASCEND and HOLD go to WAIT.
- WAIT goes to RETURN exactly when `wait_time` has elapsed since WAIT began.
- RETURN goes to NORMAL exactly when the command is at or below the reference.

`DepthOverload.SendZCommand` states the rules for one depth command:

- An in-range depth is posted and becomes the last valid depth.
- An out-of-range depth is replaced by the last valid depth, which stays unchanged.
- With no last valid depth, an out-of-range depth is rejected and nothing is posted.
- The result is true exactly when a depth was posted and the status was 200.

`PhaseManager.HandlePhaseChange` states the phase change rules:

- The subphase progress and the step are cleared.
- The manager waits for the line start exactly when the phase is known, enabled, a table, and has subphases. The list is then sorted by key.
- The phase becomes the last phase in every case.

## Left out

- Sockets, threads, locks, the heartbeat sender and the server's accept loop are I/O and concurrency. The model threads the provider's buffer and latest record as values.
- asyncio scheduling is left open: any interleaving of `Monitor.MonitorTick` and `Monitor.SlopeTick` is a run.
- A controller update that runs in a thread while its task is being cancelled is not modelled.
- HTTP requests, JSON decoding and the clock are replaced by their outcomes, passed in as parameters.
- The manager gets each backseat answer of a call directly, as an input. It is not tied to the `PhaseInfo` cache, which is modelled on its own.
- Loading the configuration, the mission file loader (glob and YAML), logging, `tcp_proxy.py` and the test-mode altitude source are I/O. The configuration is a record, and the mission loader is the parameter `load`.
- The haversine distance, the bearing's `atan2` and `sin` of the maximum angle are floating-point trigonometry. They are uninterpreted parameters.
- Floating point is modelled as exact reals. NaN, infinities and rounding are not represented.
- Text is treated as ASCII. Unicode whitespace in `strip()` and Unicode digits in `int()` are not represented.
- `SubphaseOrder.SortByKey`: proves order and permutation but not the stability of Python's `sorted`, which keeps file order among equal keys.
- `PhaseManager.CheckSubphaseEndReached`: requires an index of at least -1. The manager never sets a smaller one, and `PhaseManager.Valid` keeps it that way.
- A phase entry that is not a YAML mapping (`NotATable`) is treated as holding no subphases. Python's `in` on such a value is not modelled. The manager never waits on such a phase.
- `VsController.NormalNeverOvershoots`: the no-overshoot guarantee is conditional. The reference must be on the approach side, or the step must point toward `end_z`. Background ticks in the safety states advance the reference without the snap of NORMAL, so in the source the reference can end up one step past `end_z` before it is pinned.
- A phase table is modelled as its keys in file order plus the map of its entries. Nothing requires the two to list the same ids; an id without an entry makes the start check raise, as a missing key does in the source.
- The Boolean results of `update` and `_send_command` are not used by any caller, so the model does not return them.
