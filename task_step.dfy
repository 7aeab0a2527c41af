/**
 * One step of a task and its clue trigger (idf/taskboard/main/task/TaskStep.hpp).
 *
 * The clue handler decides, on every evaluation, whether the step's hint is
 * rendered, cleared, or skipped because the gating sensor is misconfigured.
 * The clock reading is passed in as `now` (microseconds, int64 range) and the
 * screen controller is replaced by the returned ClueAction.
 */
module TaskSteps {
  import opened Sensors

  const INT64_MAX: int := 0x7FFF_FFFF_FFFF_FFFF
  const UINT64_LIMIT: int := 0x1_0000_0000_0000_0000

  /** A reading of the process-wide microsecond clock. */
  predicate IsClockReading(t: int) {
    0 <= t <= INT64_MAX
  }

  /** `timeout_ms * 1000` computed in uint64. */
  function MsToUs(ms: nat): (us: nat)
    requires ms < UINT64_LIMIT
    ensures us < UINT64_LIMIT
    ensures ms * 1000 < UINT64_LIMIT ==> us == ms * 1000
  {
    (ms * 1000) % UINT64_LIMIT
  }

  /**
   * `now - start`, an int64 difference, converted to uint64 so that it can be
   * compared with the unsigned timeout.
   */
  function ElapsedUs(now: int, start: int): (r: nat)
    ensures r < UINT64_LIMIT
    ensures 0 <= now - start < UINT64_LIMIT ==> r == now - start
    ensures now < start && start - now < UINT64_LIMIT ==> r == UINT64_LIMIT + now - start
  {
    (now - start) % UINT64_LIMIT
  }

  /** What a call to show_clue does to the screen. */
  datatype ClueAction = Render | Clear | Misconfigured

  /** The gating sensor as seen by one evaluation: absent, or its measurement. */
  datatype TriggerReading = NoTrigger | Reading(measurement: SensorMeasurement)

  /** The mutable timing state of a clue handler. */
  datatype ClueTimer = ClueTimer(firstTime: bool, start: int)

  datatype Decision = Decision(timer: ClueTimer, action: ClueAction)

  /** The instant the grace window is measured from during an evaluation at `now`. */
  function ArmedAt(t: ClueTimer, now: int): int {
    if t.firstTime then now else t.start
  }

  /** One evaluation of show_clue, as a transition on the timing state. */
  function ClueTransition(t: ClueTimer, trigger: TriggerReading, timeoutUs: nat, now: int): (d: Decision)
    // no trigger: always render, timing untouched
    ensures trigger == NoTrigger ==> d == Decision(t, Render)
    // a non-boolean trigger: report it, render nothing, timing untouched
    ensures trigger.Reading? && !trigger.measurement.Boolean? ==> d == Decision(t, Misconfigured)
    // a boolean trigger: exactly one of render or clear, and the timer is armed
    ensures trigger.Reading? && trigger.measurement.Boolean? ==>
      && !d.timer.firstTime
      && d.action != Misconfigured
      && (d.action == Render <==>
            trigger.measurement.value || ElapsedUs(now, ArmedAt(t, now)) < timeoutUs)
    // a true reading renders and re-arms the window at now
    ensures trigger == Reading(Boolean(true)) ==> d == Decision(ClueTimer(false, now), Render)
    // a false reading keeps the instant the window was armed
    ensures trigger == Reading(Boolean(false)) ==> d.timer == ClueTimer(false, ArmedAt(t, now))
    // the first boolean evaluation arms the timer at now
    ensures t.firstTime && trigger.Reading? && trigger.measurement.Boolean? ==>
      d.timer == ClueTimer(false, now)
  {
    match trigger
    case NoTrigger => Decision(t, Render)
    case Reading(m) =>
      if !m.Boolean? then Decision(t, Misconfigured)
      else
        var start := ArmedAt(t, now);
        var action := if m.value || ElapsedUs(now, start) < timeoutUs then Render else Clear;
        Decision(ClueTimer(false, if m.value then now else start), action)
  }

  /** TaskStepClueHandler: the optional gating sensor, the timeout and the timer. */
  class ClueHandler {
    var clueTrigger: SensorReader?
    var timeoutUs: nat
    var clueTimeStart: int
    var firstTime: bool

    ghost predicate Valid()
      reads this
    {
      timeoutUs < UINT64_LIMIT && IsClockReading(clueTimeStart)
    }

    function Timer(): ClueTimer
      reads this
    {
      ClueTimer(firstTime, clueTimeStart)
    }

    /** What the gating sensor reads right now, if there is one. */
    function Trigger(): TriggerReading
      reads this, clueTrigger
    {
      if clueTrigger == null then NoTrigger else Reading(clueTrigger.Read())
    }

    /** The default member initialisers. */
    constructor ()
      ensures Valid()
      ensures clueTrigger == null && timeoutUs == 0
      ensures Timer() == ClueTimer(true, 0)
    {
      clueTrigger := null;
      timeoutUs := 0;
      clueTimeStart := 0;
      firstTime := true;
    }

    method SetClueTimeout(trigger: SensorReader, timeoutMs: nat)
      requires Valid()
      requires timeoutMs < UINT64_LIMIT
      modifies this`clueTrigger, this`timeoutUs
      ensures Valid()
      ensures clueTrigger == trigger
      ensures timeoutUs == MsToUs(timeoutMs)
      ensures timeoutMs * 1000 < UINT64_LIMIT ==> timeoutUs == timeoutMs * 1000
    {
      clueTrigger := trigger;
      timeoutUs := MsToUs(timeoutMs);
    }

    method ShowClue(now: int) returns (action: ClueAction)
      requires Valid() && IsClockReading(now)
      modifies this`firstTime, this`clueTimeStart
      ensures Valid()
      ensures Decision(Timer(), action) == ClueTransition(old(Timer()), Trigger(), timeoutUs, now)
    {
      if clueTrigger == null {
        action := Render;
      } else {
        var triggerValue := clueTrigger.Read();
        if !triggerValue.Boolean? {
          return Misconfigured;
        }
        if firstTime {
          clueTimeStart := now;
          firstTime := false;
        }
        if triggerValue.value || ElapsedUs(now, clueTimeStart) < timeoutUs {
          action := Render;
        } else {
          action := Clear;
        }
        // relaunch the window on every true reading
        if triggerValue.value {
          clueTimeStart := now;
        }
      }
    }

    method ResetClue()
      requires Valid()
      modifies this`firstTime
      ensures Valid()
      ensures firstTime && clueTimeStart == old(clueTimeStart)
    {
      firstTime := true;
    }
  }

  /** The comparison a step applies to its sensor. */
  datatype StepType = Equal | EqualToRandom | GreaterOrEqual | UnknownType

  /** TaskStep: a monitored sensor, a comparison type and its clue handler. */
  class TaskStep {
    const sensor: SensorReader
    var kind: StepType
    const clue: ClueHandler

    constructor (sensor: SensorReader)
      modifies sensor
      ensures this.sensor == sensor && kind == UnknownType
      ensures fresh(clue) && clue.Valid()
      ensures clue.clueTrigger == null && clue.timeoutUs == 0 && clue.Timer() == ClueTimer(true, 0)
      ensures sensor.readRequests == old(sensor.readRequests) + 1
      ensures sensor.latest == old(sensor.latest)
    {
      this.sensor := sensor;
      kind := UnknownType;
      clue := new ClueHandler();
      new;
      sensor.StartRead();
    }
  }

  // ---------------------------------------------------------------------------
  // Successive evaluations with a boolean gating sensor

  /** One evaluation: the boolean the trigger reads and the clock at that tick. */
  datatype Sample = Sample(triggered: bool, now: int)

  /** The actions of successive show_clue calls from timer `t`. */
  function Replay(t: ClueTimer, timeoutUs: nat, samples: seq<Sample>): (actions: seq<ClueAction>)
    ensures |actions| == |samples|
    ensures forall k :: 0 <= k < |samples| && samples[k].triggered ==> actions[k] == Render
    decreases |samples|
  {
    if samples == [] then []
    else
      var d := ClueTransition(t, Reading(Boolean(samples[0].triggered)), timeoutUs, samples[0].now);
      [d.action] + Replay(d.timer, timeoutUs, samples[1..])
  }

  /** The clock of the last true reading strictly before tick k, or `armed` if none. */
  function LastTriggerBefore(samples: seq<Sample>, k: nat, armed: int): int
    requires k <= |samples|
  {
    if k == 0 then armed
    else if samples[k - 1].triggered then samples[k - 1].now
    else LastTriggerBefore(samples, k - 1, armed)
  }

  /** Clock readings that never go backwards and never precede `from`. */
  predicate MonotoneFrom(samples: seq<Sample>, from: int) {
    && 0 <= from
    && (forall k :: 0 <= k < |samples| ==> from <= samples[k].now <= INT64_MAX)
    && (forall i, j :: 0 <= i <= j < |samples| ==> samples[i].now <= samples[j].now)
  }

  /** The reference behaviour: visible while triggered or within the window. */
  function Expected(samples: seq<Sample>, k: nat, armed: int, timeoutUs: nat): ClueAction
    requires k < |samples|
  {
    if samples[k].triggered || samples[k].now - LastTriggerBefore(samples, k, armed) < timeoutUs
    then Render else Clear
  }

  lemma {:induction false} LastTriggerShift(samples: seq<Sample>, k: nat, armed: int)
    requires 1 <= k <= |samples|
    ensures LastTriggerBefore(samples, k, armed) ==
            LastTriggerBefore(samples[1..], k - 1,
              if samples[0].triggered then samples[0].now else armed)
  {
    if k > 1 && !samples[k - 1].triggered {
      LastTriggerShift(samples, k - 1, armed);
    }
  }

  lemma {:induction false} LastTriggerBounds(samples: seq<Sample>, k: nat, armed: int)
    requires k <= |samples| && MonotoneFrom(samples, armed)
    ensures armed <= LastTriggerBefore(samples, k, armed)
    ensures k < |samples| ==> LastTriggerBefore(samples, k, armed) <= samples[k].now
  {
    if k > 0 && !samples[k - 1].triggered {
      LastTriggerBounds(samples, k - 1, armed);
    }
  }

  /**
   * From an armed timer, every evaluation renders exactly when the trigger
   * reads true or less than the timeout has passed since the last true reading
   * (or since arming, if there was none).
   */
  lemma {:induction false} ReplayFromArmed(armed: int, timeoutUs: nat, samples: seq<Sample>)
    requires MonotoneFrom(samples, armed)
    ensures forall k :: 0 <= k < |samples| ==>
      Replay(ClueTimer(false, armed), timeoutUs, samples)[k] == Expected(samples, k, armed, timeoutUs)
    // the window is measured from an instant between arming and the evaluation
    ensures forall k :: 0 <= k < |samples| ==>
      armed <= LastTriggerBefore(samples, k, armed) <= samples[k].now
    decreases |samples|
  {
    forall k | 0 <= k < |samples|
      ensures armed <= LastTriggerBefore(samples, k, armed) <= samples[k].now
    {
      LastTriggerBounds(samples, k, armed);
    }
    if samples != [] {
      var s := samples[0];
      var next := if s.triggered then s.now else armed;
      var rest := samples[1..];
      assert MonotoneFrom(rest, next) by {
        forall k | 0 <= k < |rest| ensures next <= rest[k].now {
          assert rest[k] == samples[k + 1];
        }
        forall i, j | 0 <= i <= j < |rest| ensures rest[i].now <= rest[j].now {
          assert rest[i] == samples[i + 1] && rest[j] == samples[j + 1];
        }
      }
      ReplayFromArmed(next, timeoutUs, rest);
      var d := ClueTransition(ClueTimer(false, armed), Reading(Boolean(s.triggered)), timeoutUs, s.now);
      assert d.timer == ClueTimer(false, next);
      var actions := Replay(ClueTimer(false, armed), timeoutUs, samples);
      assert actions == [d.action] + Replay(ClueTimer(false, next), timeoutUs, rest);
      forall k | 0 <= k < |samples|
        ensures actions[k] == Expected(samples, k, armed, timeoutUs)
      {
        if k == 0 {
          assert ElapsedUs(s.now, armed) == s.now - armed;
        } else {
          LastTriggerShift(samples, k, armed);
          assert rest[k - 1] == samples[k];
        }
      }
    }
  }

  /**
   * From a fresh or reset handler, the first evaluation arms the window and
   * afterwards the window slides with every true reading.
   */
  lemma {:induction false} ReplayFromFirstTime(start: int, timeoutUs: nat, samples: seq<Sample>)
    requires samples != [] && MonotoneFrom(samples, samples[0].now)
    ensures forall k :: 0 <= k < |samples| ==>
      Replay(ClueTimer(true, start), timeoutUs, samples)[k] ==
      Expected(samples, k, samples[0].now, timeoutUs)
  {
    var s := samples[0];
    ReplayFromArmed(s.now, timeoutUs, samples);
    var d := ClueTransition(ClueTimer(true, start), Reading(Boolean(s.triggered)), timeoutUs, s.now);
    var e := ClueTransition(ClueTimer(false, s.now), Reading(Boolean(s.triggered)), timeoutUs, s.now);
    assert d == e;
    assert Replay(ClueTimer(true, start), timeoutUs, samples) == Replay(ClueTimer(false, s.now), timeoutUs, samples);
  }

  /**
   * Grace window: after a true reading at T and only false readings since,
   * the clue stays rendered while less than the timeout has passed since T
   * and is cleared from the first tick at which it has.
   */
  lemma {:induction false} GraceWindow(t: ClueTimer, timeoutUs: nat, samples: seq<Sample>)
    requires samples != [] && samples[0].triggered
    requires forall k :: 1 <= k < |samples| ==> !samples[k].triggered
    requires MonotoneFrom(samples, samples[0].now)
    ensures Replay(t, timeoutUs, samples)[0] == Render
    ensures forall k :: 1 <= k < |samples| ==>
      Replay(t, timeoutUs, samples)[k] ==
      (if samples[k].now - samples[0].now < timeoutUs then Render else Clear)
  {
    var T := samples[0].now;
    ReplayFromArmed(T, timeoutUs, samples);
    var d := ClueTransition(t, Reading(Boolean(true)), timeoutUs, T);
    var e := ClueTransition(ClueTimer(false, T), Reading(Boolean(true)), timeoutUs, T);
    assert d == e;
    assert Replay(t, timeoutUs, samples) == Replay(ClueTimer(false, T), timeoutUs, samples);
    forall k | 1 <= k < |samples|
      ensures LastTriggerBefore(samples, k, T) == T
    {
      NoTriggerSinceFirst(samples, k, T);
    }
  }

  lemma {:induction false} NoTriggerSinceFirst(samples: seq<Sample>, k: nat, armed: int)
    requires 1 <= k <= |samples| && samples[0].triggered
    requires forall j :: 1 <= j < k ==> !samples[j].triggered
    ensures LastTriggerBefore(samples, k, armed) == samples[0].now
  {
    if k > 1 {
      NoTriggerSinceFirst(samples, k - 1, armed);
    }
  }
}
