# Task-board step core in Dafny

This project models the task/step core of the Robothon task-board firmware. It covers two parts:

- **The clue trigger of a task step** (`TaskStepClueHandler` and `TaskStep`). On each evaluation the handler renders a step's hint, clears it, or reports a misconfigured gating sensor. A step may have an optional boolean gating sensor and a timeout. The hint stays visible while the gating sensor reads true. After it stops reading true, the hint stays visible until the timeout has passed since the last true reading. Every true reading re-arms the window.
- **The parallel task** (`ParallelTask`). It keeps one completion flag and one finish time per step, with −1 meaning "not finished". Each `update` completes the incomplete steps whose check succeeds and stamps each of them once with the task's elapsed time, read as that step is stamped. `done` is the conjunction of the flags. `get_clue` / `get_clue_string` point at the lowest-indexed incomplete step.

Layout:

- `sensors.dfy` (module `Sensors`): the tagged `SensorMeasurement`, plus a `SensorReader` that stands in for the sensor driver. The reader has a name, a latest measurement and a count of requested reads. `Sensor.hpp` is not part of this model.
- `task_step.dfy` (module `TaskSteps`): the `ClueHandler` class with `ShowClue`, which is proved equal to the pure transition `ClueTransition`. It also has the `TaskStep` class, the trace function `Replay`, and the window lemmas. Those lemmas compare `Replay` with a separate reference definition, `Expected`, built on `LastTriggerBefore`.
- `parallel_task.dfy` (module `ParallelTasks`): the `ParallelTask` class over two arrays, and the `Progress` value that one tick (`Tick`) or several ticks (`Run`) turn into a new value. It also holds the lemmas about these.
- `scenarios.dfy` (module `Scenarios`): client methods. They replay the three-step scenario and the held-then-released gating button using only the contracts.

What is an input rather than a computation:

- The clock (`esp_timer_get_time()`) is the `now` parameter of `ShowClue`. It is an int64 reading of at least 0.
- Each step's `success()` result is an element of the `succ` sequence passed to `Update`.
- `Task::update()`'s result is the `baseChanged` parameter of `Update`.
- `elapsed_time()` is the `elapsed` parameter of `Update`. It holds one value per step: `elapsed[i]` is what `elapsed_time()` returns when step i is stamped. The source calls `elapsed_time()` once per completing step, so steps completing in the same call may get different stamps.
- Each step's `expected_value()` result is the `targets` sequence passed to `GetClue`.
- The screen controller is replaced by the returned `ClueAction` (`Render`, `Clear`, `Misconfigured`).

Integer widths are explicit where the source mixes them:

- `timeout_ms * 1000` is computed modulo 2^64 (`MsToUs`).
- The comparison at TaskStep.hpp line 66 subtracts two int64 values and compares the difference with a uint64 timeout. The model converts the difference to uint64 (`ElapsedUs`). With a monotone clock the conversion changes nothing, and the window lemmas are stated in plain integer differences.

## Model

| member | source | states |
|---|---|---|
| `TaskSteps.MsToUs` | idf/taskboard/main/task/TaskStep.hpp:28-34 | the stored timeout is `timeout_ms * 1000` in uint64; it equals the exact product whenever that fits |
| `TaskSteps.ClueHandler.SetClueTimeout` | idf/taskboard/main/task/TaskStep.hpp:28-34 | afterwards the trigger is the given sensor and `clue_timeout_us()` is `timeout_ms * 1000`; the timing state is untouched |
| `TaskSteps.ElapsedUs` | idf/taskboard/main/task/TaskStep.hpp:66 | the int64 difference `now - start` seen as uint64: equal to the difference when it is non-negative, wrapped to 2^64 + difference when it is negative |
| `TaskSteps.ClueTransition` | idf/taskboard/main/task/TaskStep.hpp:41-81 | with no trigger: render and leave the timing unchanged. With a non-boolean trigger: misconfigured, nothing rendered or cleared, timing unchanged. With a boolean trigger: exactly one of render or clear, rendering iff the reading is true or less than the timeout has passed since the arming instant. A true reading re-arms at `now`, a false one keeps the arming instant, and the first boolean evaluation arms at `now` |
| `TaskSteps.ClueHandler.ShowClue` | idf/taskboard/main/task/TaskStep.hpp:41-81 | the action returned and the new `first_time_` / `clue_time_start_` are exactly those of `ClueTransition` on the old timer, the current trigger reading and `now` |
| `TaskSteps.ClueHandler.ResetClue` | idf/taskboard/main/task/TaskStep.hpp:100-103 | `first_time_` becomes true and the start time, trigger and timeout are kept (the handler stays valid), so the next boolean evaluation arms at its `now` (see `ClueTransition`) |
| `TaskSteps.ClueHandler.constructor` | idf/taskboard/main/task/TaskStep.hpp:115-118 | a new handler has no trigger, a zero timeout and an unarmed timer (`first_time_` true, start 0) |
| `TaskSteps.TaskStep.constructor` | idf/taskboard/main/task/TaskStep.hpp:151-157 | a new step monitors the given sensor, has comparison type UNKNOWN and an unconfigured clue handler (no trigger, a zero timeout, an unarmed timer), and has issued exactly one `start_read` on the sensor without changing its measurement |
| `TaskSteps.Replay` | idf/taskboard/main/task/TaskStep.hpp:66-68 | successive evaluations give one action each, and every evaluation whose trigger reads true renders |
| `TaskSteps.ReplayFromArmed` | idf/taskboard/main/task/TaskStep.hpp:66-79 | from an armed timer and under a monotone clock, each evaluation renders iff the trigger reads true or less than the timeout has passed since the last true reading (or since arming if there was none). Otherwise it clears. The instant the window is measured from lies between arming and the evaluation |
| `TaskSteps.ReplayFromFirstTime` | idf/taskboard/main/task/TaskStep.hpp:60-79 | from a fresh or reset handler, the first evaluation arms the window at its own clock and later evaluations follow the same sliding-window rule |
| `TaskSteps.GraceWindow` | idf/taskboard/main/task/TaskStep.hpp:66-79 | after a true reading at T and only false readings since, from any timer state: the clue renders at T and at every tick with `now - T < timeout`, and clears at every tick with `now - T >= timeout` |
| `ParallelTasks.FirstIncomplete` | idf/taskboard/main/task/ParallelTask.hpp:49-56 | the lowest index whose flag is false: every earlier flag is true; the result is the length exactly when all flags are true |
| `ParallelTasks.Initial` | idf/taskboard/main/task/ParallelTask.hpp:31-32 | both vectors have one entry per step, every flag is false and every finish time is −1; the empty task is already done |
| `ParallelTasks.ParallelTask.constructor` | idf/taskboard/main/task/ParallelTask.hpp:26-33 | the new task holds the given steps and its flags and finish times are `Initial(steps.size())` |
| `ParallelTasks.Tick` | idf/taskboard/main/task/ParallelTask.hpp:89-97 | complete steps keep their flag and finish time. An incomplete step becomes complete exactly when its check succeeds, and it is then stamped with the elapsed time read for it. The flags change iff some incomplete step succeeded. With no elapsed time equal to −1, "finish time recorded iff complete" is preserved |
| `ParallelTasks.ParallelTask.Update` | idf/taskboard/main/task/ParallelTask.hpp:85-100 | the new flags and finish times are `Tick` of the old ones; the result is true iff the base update reported a change or some incomplete step succeeded |
| `ParallelTasks.RunRecordsFirstSuccess` | idf/taskboard/main/task/ParallelTask.hpp:89-97 | over any sequence of updates, a step that starts incomplete ends complete iff its check succeeded in some tick. Its finish time is then the elapsed time read for it in the first such tick; a step that starts complete keeps its finish time (write-once) |
| `ParallelTasks.RunDoneIffEveryStepSucceeded` | idf/taskboard/main/task/ParallelTask.hpp:85-114 | from construction, the task is done iff every step's check succeeded in at least one tick, in whatever order |
| `ParallelTasks.RunKeepsStamped` | idf/taskboard/main/task/ParallelTask.hpp:91-95 | with non-negative elapsed times, "a finish time other than −1 iff the flag is set" holds after any sequence of updates |
| `ParallelTasks.ParallelTask.Done` | idf/taskboard/main/task/ParallelTask.hpp:103-114 | true iff every flag is true (so an empty task is done) |
| `ParallelTasks.ParallelTask.StepDone` | idf/taskboard/main/task/ParallelTask.hpp:117-121 | for an index below the step count: returns that step's flag; while flags and finish times are consistent, the step is done iff it has a finish time |
| `ParallelTasks.ParallelTask.StepDoneTime` | idf/taskboard/main/task/ParallelTask.hpp:124-128 | for an index below the step count: returns that step's finish time; while flags and finish times are consistent, the time is −1 iff the step is not done |
| `ParallelTasks.ParallelTask.GetClue` | idf/taskboard/main/task/ParallelTask.hpp:63-82 | returns false iff all steps are done, and then leaves current/target as they were. Otherwise it returns true with the current reading of the lowest-indexed incomplete step's sensor and that step's expected value |
| `ParallelTasks.ParallelTask.GetClueString` | idf/taskboard/main/task/ParallelTask.hpp:36-60 | "Task Done" when every step is done; otherwise "Waiting sensor " followed by the name of the lowest-indexed incomplete step's sensor |
| `ParallelTasks.ClearFlags` | idf/taskboard/main/task/ParallelTask.hpp:131-135 | restart as written: every flag false, both lengths kept, finish times untouched |
| `ParallelTasks.ClearFlagsLeavesStaleTime` | idf/taskboard/main/task/ParallelTask.hpp:131-140 | after a step has completed, restart as written leaves that step incomplete with a finish time other than −1, breaking "finish time recorded iff complete" |
| `ParallelTasks.ParallelTask.RestartAsWritten` | idf/taskboard/main/task/ParallelTask.hpp:131-135 | the new flags and finish times are `ClearFlags` of the old ones |
| `ParallelTasks.ParallelTask.Restart` | idf/taskboard/main/task/ParallelTask.hpp:131-135 | corrected restart: flags and finish times are back to `Initial(steps.size())`, so restarting twice is the same as once |

## Left out

- The sensor driver (`start_read`, `read`, `name`) is reduced to the `SensorReader` stand-in. Acquisition, staleness and the numeric/enumerated payload types come from `Sensor.hpp`, which is not part of this model.
- `Task.hpp` is not part of this model: `Task::update()`, `Task::restart()` and `elapsed_time()`, and the task name. Their results are inputs, and the elapsed-time restart is not modelled.
- The concrete `success()` and `expected_value()` implementations are not modelled: comparison kinds and random targets. Their results are inputs. `ParallelTask.Update`: the source skips `success()` for complete steps; the model receives a result for every step and ignores those of complete steps.
- `show_clue_implementation` (a pure virtual) and `ClueScreenController::clear_all_task_clue` are not modelled. Screen output is the returned `ClueAction`.
- The `ESP_LOGE` message is not modelled; it is the `Misconfigured` action.
- `ShowClue` reads the clock once per call (`now`). The source reads it at most twice: at line 62 on the first evaluation, then at line 66 only when the reading is false, or at line 78 only when it is true. The single read loses two effects. On a first false evaluation the source arms at one reading and measures the window at a later one, so with a timeout of a few microseconds it can clear where the model renders. A true reading re-arms at a reading taken after the decision, where the model re-arms at `now`.
- The sequential task variant is not part of this model.
- `ParallelTask.GetClue` and `ParallelTask.StepDone`/`StepDoneTime` require an index or a targets sequence that matches the step count. The source leaves an out-of-range index undefined.

## Findings

| source | as written | input that shows it | evidently intended | confidence | as-written member | corrected member |
|---|---|---|---|---|---|---|
| idf/taskboard/main/task/ParallelTask.hpp:131-135 | `restart` only clears `steps_status_`. `steps_finish_time_` is declared in `ParallelTask` (line 140), so the base `Task::restart()` cannot reset it. | One step; an update where it succeeds at elapsed 7; then `restart()`. `step_done(0)` is false while `step_done_time(0)` is 7 | restart returns every finish time to −1, so that a finish time is recorded exactly for the completed steps | medium: `Task.hpp` is outside this model; not executed | `ParallelTasks.ParallelTask.RestartAsWritten` (with `ParallelTasks.ClearFlagsLeavesStaleTime`) | `ParallelTasks.ParallelTask.Restart` |
