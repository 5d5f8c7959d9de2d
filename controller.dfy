/**
 * The control loop of scaler.py:58-136: a `Scaler` object holding the
 * instance count and the simulated memory cap, whose `Tick` applies one
 * decision in place, and the run of several ticks as a pure fold over the
 * per-tick samples.
 */
module Controller {
  import opened Config
  import opened Policy

  /** The controller state that survives from one tick to the next. */
  datatype State = State(current: int, cap: nat)

  /** The count lies within the configured bounds and the cap has not fallen below its start. */
  predicate InBounds(st: State)
  {
    MIN_INSTANCES <= st.current <= MAX_INSTANCES && st.cap >= INITIAL_MEMORY_CAP_MB
  }

  /** The state at process start: the minimum number of instances and the initial cap. */
  const START: State := State(MIN_INSTANCES, INITIAL_MEMORY_CAP_MB)

  /**
   * What one tick observes: the requests counted in the window, the host's
   * free memory in MB at the start of the tick, and the free memory read
   * again after a raise of the cap (consulted only on that path).
   */
  datatype Sample = Sample(requests: nat, freeMemoryMb: real, freeAfterRaiseMb: real)

  /** One invocation of the scale command: the service and the target instance count. */
  datatype ScaleCommand = ScaleCommand(service: string, instances: int)

  /**
   * The decision one tick takes in state `st` on `sample`: the rate recorded is
   * the sample's count over the interval, and the count moves by the action's delta.
   */
  function Step(st: State, sample: Sample): (d: Decision)
    ensures d.rps * CHECK_INTERVAL as real == sample.requests as real
    ensures d.instances == st.current + d.action.Delta()
    ensures st.cap <= d.cap
  {
    Decide(RequestRate(sample.requests), sample.freeMemoryMb, sample.freeAfterRaiseMb, st.current, st.cap)
  }

  /** The state a decision leaves behind. */
  function After(d: Decision): State
  {
    State(d.instances, d.cap)
  }

  /** The state after one tick per sample, in order, from `st`; the cap never ends lower than it started. */
  function Run(samples: seq<Sample>, st: State): (end: State)
    ensures st.cap <= end.cap
  {
    if samples == [] then st
    else After(Step(Run(samples[..|samples| - 1], st), samples[|samples| - 1]))
  }

  /** The decision records of one tick per sample, in the order they are logged. */
  function Trace(samples: seq<Sample>, st: State): (log: seq<Decision>)
    ensures |log| == |samples|
  {
    if samples == [] then []
    else
      var init := samples[..|samples| - 1];
      Trace(init, st) + [Step(Run(init, st), samples[|samples| - 1])]
  }

  /** The scale commands a sequence of records causes, in order: one for each record whose action changed the count, with the new count. */
  function Commands(log: seq<Decision>): (cmds: seq<ScaleCommand>)
    ensures |cmds| <= |log|
    ensures forall c :: c in cmds ==> c.service == SERVICE_NAME
  {
    if log == [] then []
    else
      var d := log[|log| - 1];
      Commands(log[..|log| - 1]) + (if d.action.Delta() != 0 then [ScaleCommand(SERVICE_NAME, d.instances)] else [])
  }

  /** One more record appends its command, if it changed the count, after the commands already issued. */
  lemma CommandsSnoc(issued: seq<ScaleCommand>, log: seq<Decision>, d: Decision)
    ensures issued + Commands(log + [d]) ==
            issued + Commands(log) + (if d.action.Delta() != 0 then [ScaleCommand(SERVICE_NAME, d.instances)] else [])
  {
    assert (log + [d])[..|log|] == log;
  }

  /** One more sample extends the run by one tick and the records by that tick's decision. */
  lemma TraceSnoc(samples: seq<Sample>, st: State, i: nat)
    requires i < |samples|
    ensures var d := Step(Run(samples[..i], st), samples[i]);
            Run(samples[..i + 1], st) == After(d) && Trace(samples[..i + 1], st) == Trace(samples[..i], st) + [d]
  {
    assert samples[..i + 1][..i] == samples[..i];
  }

  /** The `k`-th record is the decision taken on the `k`-th sample in the state the first `k` ticks leave. */
  lemma {:induction false} TraceAt(samples: seq<Sample>, st: State, k: nat)
    requires k < |samples|
    ensures Trace(samples, st)[k] == Step(Run(samples[..k], st), samples[k])
  {
    var init := samples[..|samples| - 1];
    var last := Step(Run(init, st), samples[|samples| - 1]);
    assert Trace(samples, st) == Trace(init, st) + [last];
    if k < |init| {
      TraceAt(init, st, k);
      assert init[..k] == samples[..k];
      assert Trace(samples, st)[k] == Trace(init, st)[k];
    } else {
      assert init == samples[..k];
      assert Trace(samples, st)[k] == last;
    }
  }

  /** A tick never takes the count out of bounds nor the cap below its start. */
  lemma StepKeepsBounds(st: State, sample: Sample)
    requires InBounds(st)
    ensures InBounds(After(Step(st, sample)))
  {
  }

  /** Running ticks one after the other is running them all at once. */
  lemma {:induction false} RunConcat(a: seq<Sample>, b: seq<Sample>, st: State)
    ensures Run(a + b, st) == Run(b, Run(a, st))
    decreases |b|
  {
    if b == [] {
      assert a + b == a;
    } else {
      assert (a + b)[..|a + b| - 1] == a + b[..|b| - 1];
      RunConcat(a, b[..|b| - 1], st);
    }
  }

  /** From a state within bounds, every scale command issued over a run targets a count within bounds. */
  lemma {:induction false} CommandsInBounds(samples: seq<Sample>, st: State)
    requires InBounds(st)
    ensures forall c :: c in Commands(Trace(samples, st)) ==> MIN_INSTANCES <= c.instances <= MAX_INSTANCES
  {
    if samples != [] {
      var init := samples[..|samples| - 1];
      var log := Trace(init, st);
      var d := Step(Run(init, st), samples[|samples| - 1]);
      CommandsInBounds(init, st);
      RunKeepsBounds(init, st);
      StepKeepsBounds(Run(init, st), samples[|samples| - 1]);
      assert (log + [d])[..|log|] == log;
    }
  }

  /** However many ticks run, the count stays within bounds. */
  lemma {:induction false} RunKeepsBounds(samples: seq<Sample>, st: State)
    requires InBounds(st)
    ensures InBounds(Run(samples, st))
  {
    if samples != [] {
      RunKeepsBounds(samples[..|samples| - 1], st);
    }
  }

  /** Over `n` ticks the cap never decreases and rises by at most one step per tick. */
  lemma {:induction false} RunCapBounds(samples: seq<Sample>, st: State)
    ensures st.cap <= Run(samples, st).cap <= st.cap + CAP_STEP_MB * |samples|
  {
    if samples != [] {
      RunCapBounds(samples[..|samples| - 1], st);
    }
  }

  /** Every state reached from the start, after any number of ticks, is within bounds. */
  lemma ReachableStatesInBounds(samples: seq<Sample>)
    ensures forall i :: 0 <= i <= |samples| ==> InBounds(Run(samples[..i], START))
  {
    forall i | 0 <= i <= |samples| ensures InBounds(Run(samples[..i], START)) {
      RunKeepsBounds(samples[..i], START);
    }
  }

  /** The cap is non-decreasing along a run: a later state never has a lower cap. */
  lemma CapNonDecreasing(samples: seq<Sample>, st: State, i: nat, j: nat)
    requires i <= j <= |samples|
    ensures Run(samples[..i], st).cap <= Run(samples[..j], st).cap
  {
    assert samples[..j] == samples[..i] + samples[i..j];
    RunConcat(samples[..i], samples[i..j], st);
    RunCapBounds(samples[i..j], Run(samples[..i], st));
  }

  /**
   * The controller object. `current` and `cap` are the source's
   * `current_instances` and global `MEMORY_LIMIT_CAP_MB`; `scaleCommands`
   * lists the invocations of the scale command, in order.
   */
  class Scaler {
    var current: int
    var cap: nat
    var scaleCommands: seq<ScaleCommand>

    ghost predicate Valid()
      reads this
    {
      InBounds(State(current, cap))
    }

    /** A fresh controller: the minimum count, the initial cap, no command issued. */
    constructor ()
      ensures Valid()
      ensures current == MIN_INSTANCES && cap == INITIAL_MEMORY_CAP_MB && scaleCommands == []
    {
      current := MIN_INSTANCES;
      cap := INITIAL_MEMORY_CAP_MB;
      scaleCommands := [];
    }

    /**
     * `scale_service`: invokes the external scale command for `service` with
     * the target count. Its outcome is never consulted, so only the invocation
     * is recorded.
     */
    method ScaleService(service: string, instances: int)
      modifies this`scaleCommands
      ensures scaleCommands == old(scaleCommands) + [ScaleCommand(service, instances)]
    {
      scaleCommands := scaleCommands + [ScaleCommand(service, instances)];
    }

    /**
     * One tick of the loop: computes the rate and the limited memory, then
     * scales up, up after raising the cap, down, or not at all. The count is
     * changed before the scale command runs and whatever the command does;
     * the command is invoked exactly when the count changed, with the new count.
     * `freeMemoryMb` and `freeAfterRaiseMb` are the host's free memory at the
     * two calls of `get_limited_memory`, before and after the raise of the cap.
     */
    method Tick(requests: nat, freeMemoryMb: real, freeAfterRaiseMb: real) returns (d: Decision)
      requires Valid()
      modifies this
      ensures Valid()
      ensures d == Step(old(State(current, cap)), Sample(requests, freeMemoryMb, freeAfterRaiseMb))
      ensures State(current, cap) == After(d)
      ensures scaleCommands == old(scaleCommands) +
                               (if d.action.Delta() != 0 then [ScaleCommand(SERVICE_NAME, current)] else [])
    {
      var rate := RequestRate(requests);
      var memory := LimitedMemory(freeMemoryMb, cap);
      if rate > RPS_THRESHOLD as real && current < MAX_INSTANCES {
        var required := (current + 1) * MEMORY_USAGE_PER_INSTANCE_MB;
        if memory >= required as real {
          current := current + 1;
          ScaleService(SERVICE_NAME, current);
          d := Decision(rate, current, memory, ScaleUp, SCALE_UP_REASON, cap);
        } else {
          cap := cap + CAP_STEP_MB;
          memory := LimitedMemory(freeAfterRaiseMb, cap);
          required := (current + 1) * MEMORY_USAGE_PER_INSTANCE_MB;
          if memory >= required as real {
            current := current + 1;
            ScaleService(SERVICE_NAME, current);
            d := Decision(rate, current, memory, ScaleUpForced, CapReason(FORCED_REASON_PREFIX, cap), cap);
          } else {
            d := Decision(rate, current, memory, ScaleFailed, CapReason(FAILED_REASON_PREFIX, cap), cap);
          }
        }
      } else if rate < RPS_THRESHOLD as real / 2.0 && current > MIN_INSTANCES {
        current := current - 1;
        ScaleService(SERVICE_NAME, current);
        d := Decision(rate, current, memory, ScaleDown, SCALE_DOWN_REASON, cap);
      } else {
        d := Decision(rate, current, memory, NoAction, NO_ACTION_REASON, cap);
      }
    }

    /**
     * The first `|samples|` iterations of the monitoring loop, one tick per
     * sample; returns the decision records in the order they are logged.
     */
    method RunTicks(samples: seq<Sample>) returns (decisions: seq<Decision>)
      requires Valid()
      modifies this
      ensures Valid()
      ensures State(current, cap) == Run(samples, old(State(current, cap)))
      ensures decisions == Trace(samples, old(State(current, cap)))
      ensures scaleCommands == old(scaleCommands) + Commands(decisions)
    {
      ghost var start := State(current, cap);
      ghost var issued := scaleCommands;
      decisions := [];
      for i := 0 to |samples|
        invariant Valid()
        invariant State(current, cap) == Run(samples[..i], start)
        invariant decisions == Trace(samples[..i], start)
        invariant scaleCommands == issued + Commands(decisions)
      {
        var sample := samples[i];
        TraceSnoc(samples, start, i);
        var d := Tick(sample.requests, sample.freeMemoryMb, sample.freeAfterRaiseMb);
        CommandsSnoc(issued, decisions, d);
        decisions := decisions + [d];
      }
      assert samples[..|samples|] == samples;
    }
  }
}
