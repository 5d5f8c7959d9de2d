/**
 * The memory budget and the per-tick scaling decision of the controller
 * (scaler.py:48-50 and scaler.py:64-131), as pure functions of the sampled
 * rate, the host's free memory and the controller state (instance count and
 * simulated memory cap).
 */
module Policy {
  import opened Config
  import opened Text

  /** The five outcomes the decision log distinguishes. */
  datatype Action = ScaleUp | ScaleUpForced | ScaleDown | NoAction | ScaleFailed
  {
    /** Change of the instance count the action stands for. */
    function Delta(): int
    {
      match this
      case ScaleUp | ScaleUpForced => 1
      case ScaleDown => -1
      case NoAction | ScaleFailed => 0
    }

    /** The actions taken after the one-shot raise of the memory cap. */
    predicate RaisesCap()
    {
      ScaleUpForced? || ScaleFailed?
    }
  }

  /** The action text written to the decision log; it reads "Escalamiento horizontal…" exactly when an instance is added. */
  function Label(a: Action): (s: string)
    ensures a.Delta() > 0 <==> "Escalamiento horizontal" <= s
  {
    match a
    case ScaleUp => "Escalamiento horizontal"
    case ScaleUpForced => "Escalamiento horizontal forzado"
    case ScaleDown => "Desescalamiento"
    case NoAction => "Sin acción"
    case ScaleFailed => "Escalamiento fallido"
  }

  /** Different actions are logged under different texts. */
  lemma LabelInjective(a: Action, b: Action)
    requires Label(a) == Label(b)
    ensures a == b
  {
  }

  const SCALE_UP_REASON: string := "RPS alto y memoria suficiente"
  const FORCED_REASON_PREFIX: string := "Límite de memoria aumentado a "
  const FAILED_REASON_PREFIX: string := "Memoria insuficiente incluso tras aumentar a "
  const SCALE_DOWN_REASON: string := "RPS bajo, reduciendo instancias"
  const NO_ACTION_REASON: string := "RPS dentro del rango aceptable"

  /** A reason text that names the memory cap in MB, as the two cap-raising branches write it. */
  function CapReason(prefix: string, cap: nat): string
  {
    prefix + DecimalString(cap) + " MB"
  }

  /** The cap can be read back from a reason that names it. */
  lemma CapReasonNamesCap(prefix: string, cap: nat)
    ensures var s := CapReason(prefix, cap);
            |s| >= |prefix| + 4 && AllDigits(s[|prefix|..|s| - 3]) &&
            DecimalValue(s[|prefix|..|s| - 3]) == cap
  {
    var s := CapReason(prefix, cap);
    assert s[|prefix|..|s| - 3] == DecimalString(cap);
    DecimalRoundTrip(cap);
  }

  /**
   * The reason text each action is logged with: the two cap-raising outcomes
   * write their own prefix followed by the cap.
   */
  function Reason(a: Action, cap: nat): (s: string)
    ensures a.ScaleUpForced? ==> FORCED_REASON_PREFIX <= s
    ensures a.ScaleFailed? ==> FAILED_REASON_PREFIX <= s
  {
    match a
    case ScaleUp => SCALE_UP_REASON
    case ScaleUpForced => CapReason(FORCED_REASON_PREFIX, cap)
    case ScaleDown => SCALE_DOWN_REASON
    case NoAction => NO_ACTION_REASON
    case ScaleFailed => CapReason(FAILED_REASON_PREFIX, cap)
  }

  /**
   * Exactly the two cap-raising outcomes name a size in MB; the cap can be
   * read back from their text by `CapReasonNamesCap`.
   */
  lemma ReasonMentionsCapIff(a: Action, cap: nat)
    ensures var s := Reason(a, cap);
            a.RaisesCap() <==> |s| >= 3 && s[|s| - 3..] == " MB"
  {
    var s := Reason(a, cap);
    if a.RaisesCap() {
      assert s[|s| - 3..] == " MB";
    }
  }

  /**
   * One log record together with the memory cap left after the tick:
   * `rps`, `instances`, `memoryMb`, `action` and `reason` are what the tick
   * records; `instances` and `cap` are the controller's new state.
   */
  datatype Decision = Decision(rps: real, instances: int, memoryMb: real,
                               action: Action, reason: string, cap: nat)

  /** Requests per second over the last window: the count divided by the interval. */
  function RequestRate(requests: nat): (r: real)
    ensures r >= 0.0
    ensures r * CHECK_INTERVAL as real == requests as real
  {
    requests as real / CHECK_INTERVAL as real
  }

  /** Both rate thresholds are whole request counts: above 10 req/s is above 50 requests, below 5 req/s is below 25. */
  lemma RateThresholds(requests: nat)
    ensures RequestRate(requests) > RPS_THRESHOLD as real <==> requests > RPS_THRESHOLD * CHECK_INTERVAL
    ensures RequestRate(requests) < RPS_THRESHOLD as real / 2.0 <==> 2 * requests < RPS_THRESHOLD * CHECK_INTERVAL
  {
  }

  /**
   * `get_limited_memory`: the memory available to the controller, the smaller
   * of the host's free memory and the simulated cap.
   */
  function LimitedMemory(freeMemoryMb: real, cap: nat): (m: real)
    ensures m <= freeMemoryMb && m <= cap as real
    ensures m == freeMemoryMb || m == cap as real
  {
    if (cap as real) < freeMemoryMb then cap as real else freeMemoryMb
  }

  /** Raising the cap never lowers the memory available. */
  lemma LimitedMemoryMonotone(freeMemoryMb: real, cap: nat, cap': nat)
    requires cap <= cap'
    ensures LimitedMemory(freeMemoryMb, cap) <= LimitedMemory(freeMemoryMb, cap')
  {
  }

  /**
   * Memory the whole service needs with one more instance than `current`: a
   * whole number of instances' worth, not the cost of the one added, so it
   * lies between two and eight instances' worth whenever a scale-up is tried.
   */
  function RequiredMemory(current: int): (r: int)
    ensures r % MEMORY_USAGE_PER_INSTANCE_MB == 0
    ensures MIN_INSTANCES <= current < MAX_INSTANCES ==>
              2 * MEMORY_USAGE_PER_INSTANCE_MB <= r <= MAX_INSTANCES * MEMORY_USAGE_PER_INSTANCE_MB
  {
    (current + 1) * MEMORY_USAGE_PER_INSTANCE_MB
  }

  /**
   * The load is high and there is room for another instance: a scale-up is
   * attempted, and it never asks for more than the maximum count's memory.
   */
  predicate Overloaded(rate: real, current: int): (b: bool)
    ensures b ==> rate > 0.0 && RequiredMemory(current) <= MAX_INSTANCES * MEMORY_USAGE_PER_INSTANCE_MB
  {
    rate > RPS_THRESHOLD as real && current < MAX_INSTANCES
  }

  /** The load is low and an instance can be removed; never at the same time as high load. */
  predicate Underloaded(rate: real, current: int): (b: bool)
    ensures b ==> !Overloaded(rate, current)
  {
    rate < RPS_THRESHOLD as real / 2.0 && current > MIN_INSTANCES
  }

  /**
   * The decision of one tick. The host's free memory is read twice on a
   * high-load tick short of memory: `freeMemoryMb` is the reading at the start
   * of the tick, `freeAfterRaiseMb` the reading taken again after the cap is
   * raised. On high load the tick scales up when the limited memory covers
   * `RequiredMemory(current)`; otherwise it raises the cap by `CAP_STEP_MB`
   * once, recomputes the limited memory from the second reading and either
   * scales up (forced) or gives up. On low load it scales down; otherwise it
   * holds. The action tells how the state moved and which reason is logged,
   * and the recorded memory is the limited memory under the cap the tick ends
   * with, from the reading taken last.
   */
  function Decide(rate: real, freeMemoryMb: real, freeAfterRaiseMb: real, current: int, cap: nat): (d: Decision)
    ensures d.rps == rate
    ensures d.instances == current + d.action.Delta()
    ensures d.cap == if d.action.RaisesCap() then cap + CAP_STEP_MB else cap
    ensures d.reason == Reason(d.action, d.cap)
    ensures d.memoryMb == LimitedMemory(if d.action.RaisesCap() then freeAfterRaiseMb else freeMemoryMb, d.cap)
    ensures MIN_INSTANCES <= current <= MAX_INSTANCES ==> MIN_INSTANCES <= d.instances <= MAX_INSTANCES
  {
    var memory := LimitedMemory(freeMemoryMb, cap);
    if Overloaded(rate, current) then
      var required := RequiredMemory(current);
      if memory >= required as real then
        Decision(rate, current + 1, memory, ScaleUp, SCALE_UP_REASON, cap)
      else
        var raised := cap + CAP_STEP_MB;
        var memory' := LimitedMemory(freeAfterRaiseMb, raised);
        if memory' >= required as real then
          Decision(rate, current + 1, memory', ScaleUpForced, CapReason(FORCED_REASON_PREFIX, raised), raised)
        else
          Decision(rate, current, memory', ScaleFailed, CapReason(FAILED_REASON_PREFIX, raised), raised)
    else if Underloaded(rate, current) then
      Decision(rate, current - 1, memory, ScaleDown, SCALE_DOWN_REASON, cap)
    else
      Decision(rate, current, memory, NoAction, NO_ACTION_REASON, cap)
  }

  /** A direct scale-up happens exactly under high load with the memory already available at the first reading. */
  lemma ScaleUpIff(rate: real, free: real, free': real, current: int, cap: nat)
    ensures var d := Decide(rate, free, free', current, cap);
            d.action == ScaleUp <==>
            Overloaded(rate, current) && LimitedMemory(free, cap) >= RequiredMemory(current) as real
    ensures var d := Decide(rate, free, free', current, cap);
            d.action == ScaleUp ==>
              d.instances == current + 1 && d.cap == cap && d.reason == SCALE_UP_REASON &&
              d.memoryMb == LimitedMemory(free, cap)
  {
  }

  /**
   * A forced scale-up happens exactly when the memory is short at the first
   * reading under the old cap but enough at the second reading under the
   * raised cap.
   */
  lemma ScaleUpForcedIff(rate: real, free: real, free': real, current: int, cap: nat)
    ensures Decide(rate, free, free', current, cap).action == ScaleUpForced <==>
            Overloaded(rate, current) &&
            LimitedMemory(free, cap) < RequiredMemory(current) as real <=
            LimitedMemory(free', cap + CAP_STEP_MB)
  {
  }

  /**
   * The instance count grows, by exactly one, exactly under high load when
   * either the first reading under the old cap or the second reading under
   * the cap raised once covers the requirement: a single raise is the whole search.
   */
  lemma GrowsIff(rate: real, free: real, free': real, current: int, cap: nat)
    ensures var d := Decide(rate, free, free', current, cap);
            d.instances > current <==>
            Overloaded(rate, current) &&
            (LimitedMemory(free, cap) >= RequiredMemory(current) as real ||
             LimitedMemory(free', cap + CAP_STEP_MB) >= RequiredMemory(current) as real)
    ensures var d := Decide(rate, free, free', current, cap);
            d.instances > current ==> d.instances == current + 1
  {
  }

  /**
   * When the host's free memory reads the same both times, growth depends
   * only on the memory under the cap raised once.
   */
  lemma GrowsIffSteadyMemory(rate: real, free: real, current: int, cap: nat)
    ensures Decide(rate, free, free, current, cap).instances > current <==>
            Overloaded(rate, current) &&
            LimitedMemory(free, cap + CAP_STEP_MB) >= RequiredMemory(current) as real
  {
    LimitedMemoryMonotone(free, cap, cap + CAP_STEP_MB);
  }

  /**
   * The cap moves only in one way: it rises by exactly `CAP_STEP_MB`, exactly
   * when high load meets insufficient memory at the first reading, and stays
   * put otherwise.
   */
  lemma CapRaisedIff(rate: real, free: real, free': real, current: int, cap: nat)
    ensures var d := Decide(rate, free, free', current, cap);
            d.cap == cap || d.cap == cap + CAP_STEP_MB
    ensures var d := Decide(rate, free, free', current, cap);
            d.cap != cap <==>
            Overloaded(rate, current) && LimitedMemory(free, cap) < RequiredMemory(current) as real
  {
  }

  /**
   * A failed scale-up happens exactly when the memory is short at both
   * readings; the count is kept, the cap stays raised once, the record holds
   * the memory recomputed after the raise, and the reason names the new cap.
   */
  lemma ScaleFailedIff(rate: real, free: real, free': real, current: int, cap: nat)
    ensures var d := Decide(rate, free, free', current, cap);
            d.action == ScaleFailed <==>
            Overloaded(rate, current) &&
            LimitedMemory(free, cap) < RequiredMemory(current) as real &&
            LimitedMemory(free', cap + CAP_STEP_MB) < RequiredMemory(current) as real
    ensures var d := Decide(rate, free, free', current, cap);
            d.action == ScaleFailed ==>
              d.instances == current && d.cap == cap + CAP_STEP_MB &&
              d.memoryMb == LimitedMemory(free', cap + CAP_STEP_MB) &&
              d.reason == CapReason(FAILED_REASON_PREFIX, d.cap)
  {
  }

  /** The reason of a forced scale-up names the raised cap. */
  lemma ScaleUpForcedReason(rate: real, free: real, free': real, current: int, cap: nat)
    requires Decide(rate, free, free', current, cap).action == ScaleUpForced
    ensures var d := Decide(rate, free, free', current, cap);
            d.reason == CapReason(FORCED_REASON_PREFIX, cap + CAP_STEP_MB) &&
            d.memoryMb == LimitedMemory(free', cap + CAP_STEP_MB)
  {
  }

  /** A scale-down happens exactly under low load above the minimum, and removes exactly one instance. */
  lemma ScaleDownIff(rate: real, free: real, free': real, current: int, cap: nat)
    ensures var d := Decide(rate, free, free', current, cap);
            d.action == ScaleDown <==> Underloaded(rate, current)
    ensures var d := Decide(rate, free, free', current, cap);
            d.action == ScaleDown ==>
              d.instances == current - 1 && d.cap == cap && d.reason == SCALE_DOWN_REASON
  {
  }

  /**
   * Without high load the host's free memory plays no part: the action, the
   * new count, the cap and the reason are the same for any readings.
   * In particular a scale-down never consults memory.
   */
  lemma MemoryIrrelevantWithoutHighLoad(rate: real, free1: real, free1': real, free2: real, free2': real,
                                        current: int, cap: nat)
    requires !Overloaded(rate, current)
    ensures var d1, d2 := Decide(rate, free1, free1', current, cap), Decide(rate, free2, free2', current, cap);
            d1.action == d2.action && d1.instances == d2.instances &&
            d1.cap == d2.cap && d1.reason == d2.reason
  {
  }

  /** Nothing happens exactly when the load is neither high nor low; the state and the cap are then kept. */
  lemma NoActionIff(rate: real, free: real, free': real, current: int, cap: nat)
    ensures var d := Decide(rate, free, free', current, cap);
            d.action == NoAction <==> !Overloaded(rate, current) && !Underloaded(rate, current)
    ensures var d := Decide(rate, free, free', current, cap);
            d.action == NoAction ==>
              d.instances == current && d.cap == cap && d.reason == NO_ACTION_REASON &&
              d.memoryMb == LimitedMemory(free, cap)
  {
  }

  /** Both comparisons are strict: a rate exactly at the threshold or at half of it holds everything still. */
  lemma BoundaryRatesHold(rate: real, free: real, free': real, current: int, cap: nat)
    requires rate == RPS_THRESHOLD as real || rate == RPS_THRESHOLD as real / 2.0
    ensures var d := Decide(rate, free, free', current, cap);
            d.action == NoAction && d.instances == current && d.cap == cap &&
            d.reason == NO_ACTION_REASON
  {
  }
}
