/**
 * Clients that replay the board's documented scenarios against the
 * contracts of the task and clue models alone.
 */
module Scenarios {
  import opened Sensors
  import opened TaskSteps
  import opened ParallelTasks

  /** Three independent boolean steps, all initially incomplete. */
  method ThreeStepTask() returns (task: ParallelTask, door: SensorReader)
    ensures task.Valid() && |task.steps| == 3 && task.steps[1].sensor == door
    ensures fresh(task.status) && fresh(task.finishTime)
    ensures task.Snapshot() == Initial(3)
  {
    var button := new SensorReader("button", Boolean(false));
    door := new SensorReader("door", Boolean(false));
    var probe := new SensorReader("probe", Boolean(false));
    var press := new TaskStep(button);
    var open := new TaskStep(door);
    var touch := new TaskStep(probe);
    task := new ParallelTask([press, open, touch]);
  }

  /** Step 0 completes first: the hint moves on to step 1's sensor. */
  method ThreeStepTaskFirstTick(elapsed1: int) returns (task: ParallelTask)
    requires 0 <= elapsed1
    ensures task.Valid() && |task.steps| == 3
    ensures fresh(task.status) && fresh(task.finishTime)
    ensures task.status[..] == [true, false, false]
    ensures task.finishTime[..] == [elapsed1, UNFINISHED, UNFINISHED]
  {
    var door;
    task, door := ThreeStepTask();
    assert Transitions(Initial(3).status, [true, false, false]) by {
      assert !Initial(3).status[0];
    }
    var changed := task.Update([true, false, false], [elapsed1, elapsed1, elapsed1], false);
    assert task.status[..] == [true, false, false];
    assert changed;
    var done := task.Done();
    assert !task.status[..][1];
    assert !done;
    assert task.StepDoneTime(0) == elapsed1;
    var clue := task.GetClueString();
    assert FirstIncomplete(task.status[..]) == 1;
    assert clue == "Waiting sensor " + door.name;
  }

  /**
   * Steps 1 and 2 then complete in the same tick, each stamped with the
   * elapsed time read for it; step 0 keeps its earlier time.
   */
  method ThreeStepTaskSecondTick(elapsed1: int, elapsed2: int, elapsed3: int)
    requires 0 <= elapsed1 <= elapsed2 <= elapsed3
  {
    var task := ThreeStepTaskFirstTick(elapsed1);
    var changed := task.Update([false, true, true], [elapsed2, elapsed2, elapsed3], false);
    assert task.status[..] == [true, true, true];
    assert changed;
    var done := task.Done();
    assert done;
    assert task.StepDoneTime(0) == elapsed1;
    assert task.StepDoneTime(1) == elapsed2 && task.StepDoneTime(2) == elapsed3;
    var clue := task.GetClueString();
    assert clue == "Task Done";

    // the corrected restart; the restart as written is replayed below
    task.Restart();
    assert !task.StepDone(0) && task.StepDoneTime(0) == UNFINISHED;
  }

  /** Restart as written after step 0 completed: step 0 is incomplete but keeps its finish time. */
  method ThreeStepTaskRestartAsWritten(elapsed1: int)
    requires 0 <= elapsed1
  {
    var task := ThreeStepTaskFirstTick(elapsed1);
    task.RestartAsWritten();
    assert !task.StepDone(0) && task.StepDoneTime(0) == elapsed1;
  }

  /** A gating button held, then released: the hint outlives the release by the timeout. */
  method HeldThenReleased()
  {
    var button := new SensorReader("button", Boolean(true));
    var handler := new ClueHandler();
    handler.SetClueTimeout(button, 2);
    assert handler.timeoutUs == 2000;

    var action := handler.ShowClue(10_000);
    assert action == Render;
    button.latest := Boolean(false);
    action := handler.ShowClue(11_000);
    assert action == Render;
    action := handler.ShowClue(12_000);
    assert action == Clear;

    var numeric := new SensorReader("knob", Numeric(0.5));
    handler.SetClueTimeout(numeric, 2);
    action := handler.ShowClue(13_000);
    assert action == Misconfigured;
  }
}
