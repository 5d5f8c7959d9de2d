# Reactive autoscaler — a Dafny model

This project models the core of a single-host horizontal autoscaler (`scaler.py`).
Every few seconds the controller counts the requests in its access log and works out
requests per second. It reads the host's free memory, bounded by a simulated memory
cap. Then it decides whether to add, remove or keep instances of the `web` service.
High load with enough memory scales up. High load without enough memory raises the
cap by 100 MB once and tries again, which ends in a forced scale-up or a failed one.
Low load scales down. Anything else holds.

Modules:

- `Config` holds the constants of scaler.py:9-24: the service name `web`, 1 to 8
  instances, a threshold of 10 req/s, a 5 s interval, 120 MB per instance and an
  800 MB initial cap. It also holds the 100 MB step of the cap, which the source
  writes as a literal at scaler.py:88.
- `Text` holds the string operations the source uses: `split(sep)[0]`, `[1:]`, and the
  decimal rendering of the cap in reason texts, with a reader that inverts it.
- `RequestLog` models `count_requests_last_interval`: the token extraction, the
  per-line filter, a reference count, and the counting loop as a method.
- `Policy` models `get_limited_memory` and the branch logic of one tick as the pure
  function `Decide`, with lemmas for each branch (both directions of each condition).
- `Controller` holds the `Scaler` class. Its fields `current` and `cap` are the
  source's `current_instances` and global `MEMORY_LIMIT_CAP_MB`. `Tick` updates them
  in place, and `RunTicks` runs a finite prefix of the loop. A pure `Run` fold over
  the ticks carries the lemmas about whole runs.

Rates are exact Dafny reals (`requests / 5`), and the host's free memory is a real
input in MB. A tick that raises the cap calls `get_limited_memory` a second time
(scaler.py:67 and 89), and the host's free memory may have changed in between. So
a tick takes two readings: one at the start and one after the raise. Timestamps and the clock are whole seconds. The `%d/%b/%Y:%H:%M:%S`
parser is the parameter `parse: string -> Option<int>`, which returns `None` where
`strptime` raises.

The instance count changes before the scale command runs, and the command's result
is never checked (scaler.py:55, 76-77, 93-94, 114-115). So `Tick` always advances
the state. Each invocation is recorded in `scaleCommands` with the service name and
the target count.

## Model

| member | source | states |
|---|---|---|
| `Text.BeforeChar` | scaler.py:36 | `line.split("]")[0]`: the result is a prefix of the line without `]`, and it is cut exactly at the first `]` if there is one |
| `Text.BeforeSeparator` | scaler.py:37 | `s.split(" +")[0]`: the result is a prefix, it ends where the separator occurs or at the end, and the separator occurs at no earlier position |
| `Text.DropFirst` | scaler.py:36 | Python's `[1:]`: an empty text stays empty, otherwise the result is the text without its first character |
| `Text.DecimalString` | scaler.py:100 | the f-string rendering of the cap: non-empty, all digits, and no leading zero except for 0 itself |
| `Text.DecimalRoundTrip` | scaler.py:100-109 | reading back the rendered cap gives the cap |
| `Text.DecimalStringInjective` | scaler.py:100-109 | different caps give different reason texts |
| `RequestLog.Token` | scaler.py:36-37 | the token is the text right after the line's first character; it stops before the first `]` and before the first ` +`, so it contains neither (empty for an empty line) |
| `RequestLog.Counted` | scaler.py:34-41 | a line without `[`, with a token the parser rejects, or with a time at or before the cutoff is not counted |
| `RequestLog.CountRecent` | scaler.py:31-39 | the reference count of counted lines is at most the number of lines |
| `RequestLog.CountRequestsLastInterval` | scaler.py:27-45 | a missing file yields 0; otherwise the loop returns the number of lines that contain `[` and whose token parses to a time after `now - interval` |
| `RequestLog.CountConcat` | scaler.py:33-39 | counting a log split in two gives the sum of the counts of the parts |
| `RequestLog.SkippedLineIgnored` | scaler.py:34-41 | a line without `[`, with an unparsable token, or with a time at or before the cutoff leaves the count unchanged wherever it stands |
| `RequestLog.CountZeroIff` | scaler.py:33-39 | the count is 0 if and only if no line qualifies |
| `RequestLog.CountAllIff` | scaler.py:33-39 | the count equals the number of lines if and only if every line qualifies |
| `RequestLog.WellFormedLineToken` | scaler.py:34-38 | for a line `[<stamp> +<zone>]<rest>` the token is exactly `<stamp>`, so the line counts if and only if `<stamp>` parses to a time after the cutoff |
| `RequestLog.PrefixedLineNeverCounted` | scaler.py:36-37 | the extraction assumes the line starts with `[`: a line with text before `[` yields a token that contains `[`, and with a parser that rejects `[` such a line is never counted |
| `Policy.Label` | scaler.py:82-129 | the action text of each outcome; it begins "Escalamiento horizontal" exactly on the two outcomes that add an instance |
| `Policy.LabelInjective` | scaler.py:78-131 | the five action texts written to the log are pairwise different |
| `Policy.CapReasonNamesCap` | scaler.py:100-109 | the cap can be read back from the digits of a reason text that names it |
| `Policy.Reason` | scaler.py:83-130 | the reason text of each outcome; the forced and the failed outcome begin with their own prefix ("Límite de memoria aumentado a ", "Memoria insuficiente incluso tras aumentar a ") |
| `Policy.ReasonMentionsCapIff` | scaler.py:83-130 | a reason text ends in " MB", naming a cap, if and only if the outcome raised the cap |
| `Policy.RateThresholds` | scaler.py:66-113 | `rate > 10` holds exactly when more than 50 requests were counted; `rate < 10/2` holds exactly when fewer than 25 were |
| `Policy.RequestRate` | scaler.py:66 | the rate is non-negative, and the rate times the 5 s interval is the request count |
| `Policy.LimitedMemory` | scaler.py:48-50 | the limited memory is at most the free memory and at most the cap, and it equals one of them |
| `Policy.LimitedMemoryMonotone` | scaler.py:88-89 | raising the cap never lowers the limited memory |
| `Policy.RequiredMemory` | scaler.py:74 | the memory required is a whole number of instances' worth (the total for current+1 instances, not a per-instance delta); whenever a scale-up is tried it lies between 240 and 960 MB |
| `Policy.Overloaded` | scaler.py:73-74 | the scale-up condition `rps > 10 and current < 8`; when it holds the rate is positive and the memory required is at most 8 instances' worth (960 MB) |
| `Policy.Underloaded` | scaler.py:113 | the scale-down condition `rps < 10/2 and current > 1`; it never holds together with the scale-up condition, so the order of the two tests does not matter |
| `Policy.Decide` | scaler.py:64-131 | the action determines the state change: +1 for either scale-up, -1 for scale-down, 0 otherwise; the cap rises by 100 exactly on the forced and failed outcomes; the reason is the text for the action: "RPS alto y memoria suficiente", "RPS bajo, reduciendo instancias" or "RPS dentro del rango aceptable", or, after a raise, a text naming the new cap; the recorded memory is the limited memory under the cap the tick ends with, from the reading taken after the raise on the forced and failed outcomes; bounds 1..8 are preserved |
| `Policy.ScaleUpIff` | scaler.py:73-84 | a direct scale-up happens if and only if rate > 10, current < 8, and the limited memory at the first reading under the current cap is at least `(current+1)*120`; it then adds one instance, keeps the cap, logs "RPS alto y memoria suficiente" and records that memory |
| `Policy.ScaleUpForcedIff` | scaler.py:85-101 | a forced scale-up happens if and only if the load is high, the memory is short at the first reading under the old cap, and the second reading under the cap raised by 100 is enough |
| `Policy.GrowsIff` | scaler.py:73-94 | the count grows, by exactly one, if and only if the load is high with room below 8 and either the first reading under the old cap or the second reading under the cap raised once covers `(current+1)*120`; a single raise is the whole search |
| `Policy.CapRaisedIff` | scaler.py:85-90 | per tick the cap either stays or rises by exactly 100, and it rises if and only if high load meets insufficient memory at the first reading |
| `Policy.GrowsIffSteadyMemory` | scaler.py:73-94 | when both readings agree, the count grows if and only if the load is high with room below 8 and the memory under the cap raised once covers `(current+1)*120` |
| `Policy.ScaleFailedIff` | scaler.py:102-110 | the failed outcome happens if and only if the memory is short at both readings; then the count is unchanged, the cap is raised once, the recorded memory is the value after the raise, and the reason names the new cap |
| `Policy.ScaleUpForcedReason` | scaler.py:92-101 | a forced scale-up records the memory recomputed after the raise and a reason naming the raised cap |
| `Policy.ScaleDownIff` | scaler.py:113-122 | a scale-down happens if and only if rate < 5 and current > 1; it removes exactly one instance, leaves the cap alone and logs "RPS bajo, reduciendo instancias" |
| `Policy.MemoryIrrelevantWithoutHighLoad` | scaler.py:113-131 | without high load the action, the new count, the cap and the reason do not depend on either memory reading, so a scale-down never consults memory |
| `Policy.NoActionIff` | scaler.py:123-131 | "Sin acción" is logged if and only if neither the scale-up nor the scale-down condition holds; then the count and the cap are kept, the reason is "RPS dentro del rango aceptable" and the memory recorded is the first reading under the current cap |
| `Policy.BoundaryRatesHold` | scaler.py:73-131 | a rate of exactly 10 or exactly 5 gives "Sin acción" with the count and the cap unchanged, because both comparisons are strict |
| `Controller.Step` | scaler.py:65-131 | one tick's decision from the state and the sample: the rate recorded times the 5 s interval is the request count, the count moves by the action's delta, and the cap never falls |
| `Controller.Run` | scaler.py:63-136 | the state after a sequence of ticks, folded tick by tick; its cap never ends lower than it started |
| `Controller.Trace` | scaler.py:78-131 | one decision record per tick, in order |
| `Controller.TraceAt` | scaler.py:63-136 | the k-th record is the decision taken on the k-th sample in the state left by the first k ticks |
| `Controller.Commands` | scaler.py:76-115 | the scale commands a sequence of records causes: at most one per record, each for the `web` service |
| `Controller.CommandsInBounds` | scaler.py:73-115 | from a state within bounds, every scale command issued over any run asks for between 1 and 8 instances |
| `Controller.StepKeepsBounds` | scaler.py:73-115 | one tick keeps the count within 1..8 and the cap at or above 800 |
| `Controller.RunConcat` | scaler.py:63-136 | running two batches of ticks one after the other is the same as running them all |
| `Controller.RunKeepsBounds` | scaler.py:61-136 | any number of ticks keeps the count within 1..8 |
| `Controller.RunCapBounds` | scaler.py:85-90 | over n ticks the cap never decreases and rises by at most 100·n |
| `Controller.ReachableStatesInBounds` | scaler.py:59-115 | starting from 1 instance and an 800 MB cap, every state reached is within bounds |
| `Controller.CapNonDecreasing` | scaler.py:85-90 | along a run, a later state never has a lower cap than an earlier one |
| `Controller.Scaler.constructor` | scaler.py:58-61 | the controller starts at the minimum count and the initial cap, with no scale command issued |
| `Controller.Scaler.ScaleService` | scaler.py:53-55 | the scale command is recorded with its service name and target count, and its result is not consulted |
| `Controller.Scaler.Tick` | scaler.py:64-131 | one tick updates `current` and `cap` in place as `Decide` prescribes, given the free memory at the two `get_limited_memory` calls, and returns the record it logs; it invokes the scale command for `web` exactly when the count changed, with the new count; the object invariant is kept |
| `Controller.Scaler.RunTicks` | scaler.py:63-136 | after n ticks the state is the fold `Run` of the samples, the records returned are `Trace` of the samples, in logging order, and the scale commands issued are `Commands` of those records, appended in order to the ones issued before |

## Left out

- The Docker command (`subprocess.run`, scaler.py:55) is an external process. `ScaleService` only records the service and the target count, and nothing reads a result, as in the source.
- `Controller.Scaler.Tick` does not model `subprocess.run` raising, for example when `docker` is not on the path. In the source that exception leaves `main` after the count has already changed, with no record logged and no spreadsheet written. The model assumes the invocation always returns.
- `psutil.virtual_memory()` and its float division by 1024² (scaler.py:49) are a foreign call with float output. The free memory in MB is an exact real input, so float rounding is not modelled.
- The clock and calendar parsing (`datetime.now`, `strptime`, scaler.py:29-37) are replaced by an integer `now` in seconds and the `parse` parameter. Sub-second precision of `now` is not modelled. Nor are `strptime`'s rules for day, month and leap years, which are Python's library.
- File handling (scaler.py:32-33, 134-135) is left out. The log arrives as `Option<seq<string>>`, where `None` is the missing file. I/O errors other than a missing file propagate in the source and are not modelled. Neither is the truncation of the log after each tick.
- The infinite `while True` loop, `time.sleep` and the `KeyboardInterrupt` shutdown that calls `export_to_excel` (scaler.py:63, 136-141) are timing and I/O. `RunTicks` and `Run` cover any finite prefix of the loop.
- Console output (`print`) is left out throughout.
- logger.py is left out. `log_decision` appends a JSON line with a wall-clock timestamp and `export_to_excel` writes a spreadsheet, both I/O. `Tick` returns the record's fields (rate, instances, memory, action, reason) without the timestamp.
- app.py is left out. It is a web route that returns the host name and has no scaling logic.
