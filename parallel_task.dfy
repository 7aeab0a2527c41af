/**
 * A task whose steps complete independently of each other
 * (idf/taskboard/main/task/ParallelTask.hpp).
 *
 * The task keeps one completion flag and one finish time per step. The
 * results of the steps' success() checks, the value elapsed_time() returns
 * when each step is stamped and the result of the base Task::update() are
 * inputs of each tick; the steps'
 * expected_value() results are an input of GetClue.
 */
module ParallelTasks {
  import opened Sensors
  import opened TaskSteps

  /** The finish time of a step that has not completed. */
  const UNFINISHED: int := -1

  /** The completion bookkeeping of a task: one flag and one finish time per step. */
  datatype Progress = Progress(status: seq<bool>, finish: seq<int>)

  predicate HasWidth(p: Progress, n: nat) {
    |p.status| == n && |p.finish| == n
  }

  /** Every step is complete. */
  predicate AllDone(status: seq<bool>) {
    forall i :: 0 <= i < |status| ==> status[i]
  }

  /** Some incomplete step succeeds in this tick. */
  predicate Transitions(status: seq<bool>, succ: seq<bool>)
    requires |status| == |succ|
  {
    exists i :: 0 <= i < |status| && !status[i] && succ[i]
  }

  /** A step has a finish time exactly when it is complete. */
  predicate Stamped(p: Progress) {
    && |p.status| == |p.finish|
    && forall i :: 0 <= i < |p.status| ==> (p.status[i] <==> p.finish[i] != UNFINISHED)
  }

  /** The lowest-indexed incomplete step, or |status| when all are complete. */
  function FirstIncomplete(status: seq<bool>): (k: nat)
    ensures k <= |status|
    ensures forall j :: 0 <= j < k ==> status[j]
    ensures k < |status| ==> !status[k]
    ensures k == |status| <==> AllDone(status)
  {
    if status == [] || !status[0] then 0 else 1 + FirstIncomplete(status[1..])
  }

  /** The state right after construction. */
  function Initial(n: nat): (p: Progress)
    ensures HasWidth(p, n) && Stamped(p)
    ensures forall i :: 0 <= i < n ==> !p.status[i] && p.finish[i] == UNFINISHED
    ensures n == 0 <==> AllDone(p.status)
  {
    var p := Progress(seq(n, _ => false), seq(n, _ => UNFINISHED));
    assert n > 0 ==> !p.status[0];
    p
  }

  /**
   * One call of update: every incomplete step whose check succeeds becomes
   * complete and is stamped with the elapsed time read for it, `elapsed[i]`;
   * complete steps are left alone.
   */
  function Tick(p: Progress, succ: seq<bool>, elapsed: seq<int>): (r: Progress)
    requires HasWidth(p, |succ|) && |elapsed| == |succ|
    ensures HasWidth(r, |succ|)
    // flags only go from false to true, and a recorded finish time is kept
    ensures forall i :: 0 <= i < |succ| && p.status[i] ==> r.status[i] && r.finish[i] == p.finish[i]
    // an incomplete step completes exactly when it succeeds, stamped with its elapsed time
    ensures forall i :: 0 <= i < |succ| && !p.status[i] ==>
      && (r.status[i] <==> succ[i])
      && r.finish[i] == (if succ[i] then elapsed[i] else p.finish[i])
    ensures r.status != p.status <==> Transitions(p.status, succ)
    ensures Stamped(p) && (forall i :: 0 <= i < |elapsed| ==> elapsed[i] != UNFINISHED) ==> Stamped(r)
  {
    var n := |succ|;
    var r := Progress(seq(n, i requires 0 <= i < n => p.status[i] || succ[i]),
                      seq(n, i requires 0 <= i < n => if !p.status[i] && succ[i] then elapsed[i] else p.finish[i]));
    assert Transitions(p.status, succ) ==> r.status != p.status by {
      if Transitions(p.status, succ) {
        var i :| 0 <= i < n && !p.status[i] && succ[i];
        assert r.status[i] != p.status[i];
      }
    }
    r
  }

  /** What update is given in one tick: per step, its check and its stamp time. */
  datatype TickInput = TickInput(succ: seq<bool>, elapsed: seq<int>)

  predicate TicksHaveWidth(ticks: seq<TickInput>, n: nat) {
    forall t :: 0 <= t < |ticks| ==> |ticks[t].succ| == n && |ticks[t].elapsed| == n
  }

  /** Successive calls of update. */
  function Run(p: Progress, ticks: seq<TickInput>): (r: Progress)
    requires HasWidth(p, |p.status|) && TicksHaveWidth(ticks, |p.status|)
    ensures HasWidth(r, |p.status|)
    decreases |ticks|
  {
    if ticks == [] then p
    else Run(Tick(p, ticks[0].succ, ticks[0].elapsed), ticks[1..])
  }

  /** The first tick in which step i succeeds, or |ticks| if it never does. */
  function FirstSuccess(ticks: seq<TickInput>, i: nat): (t: nat)
    requires forall u :: 0 <= u < |ticks| ==> i < |ticks[u].succ|
    ensures t <= |ticks|
    ensures t < |ticks| ==> ticks[t].succ[i]
    ensures forall u :: 0 <= u < t ==> !ticks[u].succ[i]
    decreases |ticks|
  {
    if ticks == [] then 0
    else if ticks[0].succ[i] then 0
    else 1 + FirstSuccess(ticks[1..], i)
  }

  /**
   * Over any sequence of ticks, a step that starts incomplete is complete
   * afterwards exactly when it succeeded in some tick, and its finish time is
   * the elapsed time of the first such tick; a complete step keeps its time.
   */
  lemma {:induction false} RunRecordsFirstSuccess(p: Progress, ticks: seq<TickInput>, i: nat)
    requires HasWidth(p, |p.status|) && TicksHaveWidth(ticks, |p.status|)
    requires i < |p.status|
    ensures Run(p, ticks).status[i] <==> p.status[i] || FirstSuccess(ticks, i) < |ticks|
    ensures Run(p, ticks).finish[i] ==
      if p.status[i] || FirstSuccess(ticks, i) == |ticks| then p.finish[i]
      else ticks[FirstSuccess(ticks, i)].elapsed[i]
    decreases |ticks|
  {
    if ticks != [] {
      var q := Tick(p, ticks[0].succ, ticks[0].elapsed);
      var rest := ticks[1..];
      assert TicksHaveWidth(rest, |p.status|) by {
        forall u | 0 <= u < |rest| ensures |rest[u].succ| == |p.status| == |rest[u].elapsed| {
          assert rest[u] == ticks[u + 1];
        }
      }
      RunRecordsFirstSuccess(q, rest, i);
      assert Run(p, ticks) == Run(q, rest);
      if !ticks[0].succ[i] {
        assert FirstSuccess(ticks, i) == 1 + FirstSuccess(rest, i);
        if FirstSuccess(rest, i) < |rest| {
          assert ticks[FirstSuccess(ticks, i)] == rest[FirstSuccess(rest, i)];
        }
      }
    }
  }

  /** Step i's check succeeds in at least one of the ticks. */
  predicate SucceededSomeTick(ticks: seq<TickInput>, i: nat)
    requires forall u :: 0 <= u < |ticks| ==> i < |ticks[u].succ|
  {
    exists t :: 0 <= t < |ticks| && ticks[t].succ[i]
  }

  /** Independence: a task is done exactly when every step has succeeded at some tick, in any order. */
  lemma RunDoneIffEveryStepSucceeded(n: nat, ticks: seq<TickInput>)
    requires TicksHaveWidth(ticks, n)
    ensures AllDone(Run(Initial(n), ticks).status) <==>
      forall i :: 0 <= i < n ==> SucceededSomeTick(ticks, i)
  {
    var r := Run(Initial(n), ticks);
    forall i | 0 <= i < n
      ensures r.status[i] <==> SucceededSomeTick(ticks, i)
    {
      RunRecordsFirstSuccess(Initial(n), ticks, i);
      var f := FirstSuccess(ticks, i);
      if f < |ticks| {
        assert ticks[f].succ[i];
      }
    }
  }

  /** With a non-negative clock, flags and finish times stay in step across updates. */
  lemma {:induction false} RunKeepsStamped(p: Progress, ticks: seq<TickInput>)
    requires Stamped(p) && TicksHaveWidth(ticks, |p.status|)
    requires forall t, i :: 0 <= t < |ticks| && 0 <= i < |ticks[t].elapsed| ==> ticks[t].elapsed[i] >= 0
    ensures Stamped(Run(p, ticks))
    decreases |ticks|
  {
    if ticks != [] {
      var q := Tick(p, ticks[0].succ, ticks[0].elapsed);
      var rest := ticks[1..];
      assert TicksHaveWidth(rest, |p.status|) by {
        forall u | 0 <= u < |rest| ensures |rest[u].succ| == |p.status| == |rest[u].elapsed| {
          assert rest[u] == ticks[u + 1];
        }
      }
      assert forall t, i :: 0 <= t < |rest| && 0 <= i < |rest[t].elapsed| ==> rest[t].elapsed[i] >= 0 by {
        forall t, i | 0 <= t < |rest| && 0 <= i < |rest[t].elapsed| ensures rest[t].elapsed[i] >= 0 {
          assert rest[t] == ticks[t + 1];
        }
      }
      RunKeepsStamped(q, rest);
    }
  }

  /** restart as written: the flags are cleared and the finish times are kept. */
  function ClearFlags(p: Progress): (r: Progress)
    ensures |r.status| == |p.status| && r.finish == p.finish
    ensures forall i :: 0 <= i < |r.status| ==> !r.status[i]
  {
    Progress(seq(|p.status|, _ => false), p.finish)
  }

  /** After a step has completed, restart as written leaves its stale finish time behind. */
  lemma ClearFlagsLeavesStaleTime(p: Progress, i: nat)
    requires Stamped(p) && i < |p.status| && p.status[i]
    ensures !ClearFlags(p).status[i] && ClearFlags(p).finish[i] == p.finish[i] != UNFINISHED
    ensures !Stamped(ClearFlags(p))
  {
    var r := ClearFlags(p);
    assert !(r.status[i] <==> r.finish[i] != UNFINISHED);
  }

  /** ParallelTask: the steps with their completion flags and finish times. */
  class ParallelTask {
    const steps: seq<TaskStep>
    const status: array<bool>
    const finishTime: array<int>

    ghost predicate Valid()
      reads this
    {
      status.Length == |steps| && finishTime.Length == |steps|
    }

    function Snapshot(): Progress
      reads this, status, finishTime
    {
      Progress(status[..], finishTime[..])
    }

    constructor (steps: seq<TaskStep>)
      ensures Valid() && this.steps == steps
      ensures fresh(status) && fresh(finishTime)
      ensures Snapshot() == Initial(|steps|)
    {
      this.steps := steps;
      status := new bool[|steps|](_ => false);
      finishTime := new int[|steps|](_ => UNFINISHED);
    }

    /**
     * Marks every incomplete step whose check succeeds as complete, stamped
     * with `elapsed[i]`, the value elapsed_time() gives when step i is
     * stamped; reports whether the base update or any step changed.
     */
    method Update(succ: seq<bool>, elapsed: seq<int>, baseChanged: bool) returns (changed: bool)
      requires Valid() && |succ| == |steps| && |elapsed| == |steps|
      modifies status, finishTime
      ensures Snapshot() == Tick(old(Snapshot()), succ, elapsed)
      ensures changed <==> baseChanged || Transitions(old(status[..]), succ)
    {
      ghost var before := Snapshot();
      ghost var after := Tick(before, succ, elapsed);
      changed := baseChanged;
      for i := 0 to |steps|
        invariant forall k :: 0 <= k < i ==> status[k] == after.status[k] && finishTime[k] == after.finish[k]
        invariant forall k :: i <= k < |steps| ==> status[k] == before.status[k] && finishTime[k] == before.finish[k]
        invariant changed <==> baseChanged || exists k :: 0 <= k < i && !before.status[k] && succ[k]
      {
        if !status[i] && succ[i] {
          status[i] := true;
          finishTime[i] := elapsed[i];
          changed := true;
        }
      }
      assert status[..] == after.status;
      assert finishTime[..] == after.finish;
    }

    method Done() returns (done: bool)
      requires Valid()
      ensures done <==> AllDone(status[..])
    {
      for i := 0 to |steps|
        invariant forall k :: 0 <= k < i ==> status[k]
      {
        if !status[i] {
          return false;
        }
      }
      return true;
    }

    function StepDone(step: nat): (done: bool)
      requires Valid() && step < |steps|
      reads this, status, finishTime
      ensures done == status[step]
      ensures Stamped(Snapshot()) ==> (done <==> finishTime[step] != UNFINISHED)
    {
      status[step]
    }

    function StepDoneTime(step: nat): (time: int)
      requires Valid() && step < |steps|
      reads this, status, finishTime
      ensures time == finishTime[step]
      ensures Stamped(Snapshot()) ==> (time == UNFINISHED <==> !status[step])
    {
      finishTime[step]
    }

    /**
     * The current and target measurement of the lowest-indexed incomplete
     * step; `targets[i]` is what step i's expected_value() returns. When every
     * step is complete nothing is found and the previous values are kept.
     */
    method GetClue(targets: seq<SensorMeasurement>, previousCurrent: SensorMeasurement,
                   previousTarget: SensorMeasurement)
      returns (found: bool, current: SensorMeasurement, target: SensorMeasurement)
      requires Valid() && |targets| == |steps|
      ensures found <==> !AllDone(status[..])
      ensures found ==>
        && FirstIncomplete(status[..]) < |steps|
        && current == steps[FirstIncomplete(status[..])].sensor.latest
        && target == targets[FirstIncomplete(status[..])]
      ensures !found ==> current == previousCurrent && target == previousTarget
    {
      found, current, target := false, previousCurrent, previousTarget;
      for i := 0 to |steps|
        invariant forall k :: 0 <= k < i ==> status[k]
      {
        if !status[i] {
          current := steps[i].sensor.Read();
          target := targets[i];
          found := true;
          assert FirstIncomplete(status[..]) == i;
          return;
        }
      }
    }

    method GetClueString() returns (clue: string)
      requires Valid()
      ensures AllDone(status[..]) ==> clue == "Task Done"
      ensures !AllDone(status[..]) ==>
        clue == "Waiting sensor " + steps[FirstIncomplete(status[..])].sensor.name
    {
      var done := Done();
      if done {
        clue := "Task Done";
      } else {
        clue := "Waiting sensor ";
        for i := 0 to |steps|
          invariant forall k :: 0 <= k < i ==> status[k]
        {
          if !status[i] {
            assert FirstIncomplete(status[..]) == i;
            clue := clue + steps[i].sensor.name;
            return;
          }
        }
      }
    }

    /** restart as the source writes it: only the completion flags are cleared. */
    method RestartAsWritten()
      requires Valid()
      modifies status
      ensures Snapshot() == ClearFlags(old(Snapshot()))
    {
      for i := 0 to status.Length
        invariant forall k :: 0 <= k < i ==> !status[k]
      {
        status[i] := false;
      }
      assert status[..] == ClearFlags(old(Snapshot())).status;
    }

    /** restart as intended: every step back to incomplete with no finish time. */
    method Restart()
      requires Valid()
      modifies status, finishTime
      ensures Snapshot() == Initial(|steps|)
    {
      for i := 0 to |steps|
        invariant forall k :: 0 <= k < i ==> !status[k] && finishTime[k] == UNFINISHED
      {
        status[i] := false;
        finishTime[i] := UNFINISHED;
      }
      assert status[..] == Initial(|steps|).status;
      assert finishTime[..] == Initial(|steps|).finish;
    }
  }
}
