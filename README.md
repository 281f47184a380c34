# async-p combinators: everyLimit, parallelLimit, whilst

A Dafny model of three promise combinators of the async-p library:

- `everyLimit(collection, limit, predicate)` runs the predicate on every
  element under a concurrency limit. A result that is strictly `false` is
  turned into a rejection carrying an internal `PromiseBreak(false)`. After
  `Promise.all` settles, a break becomes a resolved `false`, and any other
  error is rethrown.
- `parallelLimit(tasks, limit, ...args)` guards the limit with
  `! limit > 0`. It then runs every task with the same `args` and returns
  their values by position.
- `whilst(condition, task, ...args)` evaluates `condition()`. While that is
  truthy, it runs `task(...args)` and repeats. It resolves to `undefined` on
  a falsy condition and rejects with the first error.

Each unit of user code is modelled as a function that returns an already
settled outcome, `Resolved(value)` or `Rejected(error)`. That is what the
library's `tryFn` produces from a returned value, a returned promise or a
synchronous throw. The code of the concurrency limiter `throat` is not part
of this model. The model assumes that its only effect here is the order in
which the per-element promises settle, and that order is an explicit input:
a permutation of the positions (`Promises.IsSettleOrder`). `Promise.all` is
modelled once (`Promises.PromiseAll`). It rejects with the first rejection
in settle order, or resolves with every value at its own position.

Modules: `JsValues` (values, `ToBoolean`), `Promises` (settled promises,
settle orders, `Promise.all`), `EveryLimit`, `ParallelLimit`, `Whilst`.

Behaviour worth noting:

- Only a result that is `=== false` stops `everyLimit`. Other falsy results
  (`0`, `""`, `null`, `undefined`) pass.
- The guard `! limit > 0` parses as `(!limit) > 0`. It rejects exactly the
  falsy limits, so a negative limit or a non-numeric string passes it.
- `whilst` threads nothing between rounds. The condition is called with no
  arguments. The task gets the original `args` every time, and its results
  are discarded.

## Model

| member | source | states |
|---|---|---|
| `Promises.FirstRejectedAt` | src/parallelLimit.js:10 | The step of the settle order where the first rejection happens: every promise settled before it resolved, and the one at that step (if any) rejected. |
| `Promises.PromiseAll` | src/parallelLimit.js:10 | `Promise.all`: it resolves iff every input resolves, with entry `i` the value of input `i`. A rejection carries the reason of an input that rejected with every earlier one in settle order resolved. |
| `Promises.FirstRejectionDecides` | src/everyLimit.js:6 | The first rejection in settle order is the result of `Promise.all`, whatever settles after it. |
| `EveryLimit.BreakOnFalse` | src/everyLimit.js:8-13 | A break is produced exactly when the predicate result is strictly `false`, and its payload is `false`. Genuine errors pass on as errors, unchanged. Any other resolution, truthy or not, passes through with its value. |
| `EveryLimit.Decisive` | src/everyLimit.js:8-13 | An outcome is decisive exactly when the break-on-false step turns it into a rejection: a genuine error, or a strict `false`. |
| `EveryLimit.Chained` | src/everyLimit.js:6-13 | The promises handed to `Promise.all` are built from the recorded calls. Each rejects exactly when that call's outcome is decisive. A genuine error keeps its reason, a strict `false` becomes `Break(false)`, and every other outcome resolves to the value it resolved with. |
| `EveryLimit.ChainedAtPositions` | src/everyLimit.js:6-13 | The same facts stated per collection position: the promise at position `i` comes from calling the predicate with `(collection[i], i, collection)`: it rejects exactly when that outcome is decisive, with `Thrown` or `Break(false)` as above, and otherwise resolves to the outcome's value. |
| `EveryLimit.CatchBreak` | src/everyLimit.js:16-21 | The result rejects only for a genuine error, which it rethrows verbatim. A break is converted to a resolution with its payload, and a resolution passes through unchanged. |
| `EveryLimit.EveryLimit` | src/everyLimit.js:5-21 | The predicate is called once per element with `(item, index, collection)`, and the outcomes are computed from those recorded calls. A resolved result is always `true` or `false`. |
| `EveryLimit.FirstDecisiveWins` | src/everyLimit.js:6-21 | The first outcome in settle order that is an error or a strict `false` is the result, verbatim. With no such outcome the result is `true`. So when a break and an error race, the earlier of the two wins. |
| `EveryLimit.TrueIffNoDecisive` | src/everyLimit.js:9-15 | The result is `true` iff no predicate call failed and none returned strictly `false`, for every settle order. |
| `EveryLimit.SomeFalseGivesFalse` | src/everyLimit.js:9-19 | With no failure and one strict `false` result, the result is `false` for every settle order. |
| `EveryLimit.OrderIrrelevantWithoutErrors` | src/everyLimit.js:6-19 | Without failing calls the run is identical for any two settle orders, so it does not depend on the limit or on timing. |
| `EveryLimit.BreakNeverEscapes` | src/everyLimit.js:16-21 | Every rejection of the result is the error of one of the predicate calls. The break never surfaces as a rejection. |
| `EveryLimit.EmptyCollection` | src/everyLimit.js:6-15 | An empty collection makes no predicate call and resolves to `true`. |
| `JsValues.FalsyValues` | dist/whilst.js:20 | ToBoolean as used by `whilst` and the guard: a value is falsy exactly when it is one of `undefined`, `null`, `false`, `0` and `""`. |
| `ParallelLimit.GuardRejects` | src/parallelLimit.js:6 | `(!limit) > 0`, with the boolean converted to 1 or 0 (ToNumber) before the comparison, holds exactly when `limit` is falsy. |
| `ParallelLimit.GuardExamples` | src/parallelLimit.js:6-8 | `0`, `undefined` and `""` are rejected. `-1`, `2` and `"two"` pass the guard. |
| `ParallelLimit.ParallelLimit` | src/parallelLimit.js:5-11 | A falsy limit rejects with `Error('Limit must be a number greater than 0.')` and calls no task. Otherwise every task is called once with the same `args`, and the outcomes are computed from those recorded calls. The result resolves iff every task does, and entry `i` is task `i`'s value. A rejection is the error of a failing task with every earlier one in settle order resolved. |
| `ParallelLimit.FirstFailureWins` | src/parallelLimit.js:10 | With a valid limit, the first failing task in settle order decides the rejection. |
| `ParallelLimit.ResultIndependentOfSettleOrder` | src/parallelLimit.js:10 | When every task resolves, the run is identical for any two settle orders. |
| `ParallelLimit.EmptyTasks` | src/parallelLimit.js:10 | No tasks and a valid limit: no call, and the result is the empty array. |
| `Whilst.Rest` | dist/whilst.js:14-17 | The rest arguments are every argument after the first two, in order, or none when there are at most two. |
| `Whilst.CollectRest` | dist/whilst.js:15-17 | The compiled loop fills a new array of length `max(len - 2, 0)` with exactly the rest arguments. |
| `Whilst.RecursiveCallKeepsArgs` | dist/whilst.js:21 | Re-invoking `whilst` with `[condition, task].concat(args)` collects the same `args` again. |
| `Whilst.Repeat` | dist/whilst.js:19-23 | The trace alternates condition call and task call, starting with the condition. Every task call gets the original `args`. Normal termination resolves to `undefined` and ends with a condition call. |
| `Whilst.Whilst` | dist/whilst.js:14-24 | Over the full argument list, every task call gets the rest arguments, and normal termination resolves to `undefined`. With any fuel at all, the first call made is a condition call. The `Repeat` lemmas below apply to it with round 0 and the rest arguments. The first two argument slots are not tied to the `condition` and `task` behaviours. |
| `Whilst.InitiallyFalsy` | dist/whilst.js:19-22 | A condition that is falsy at once resolves to `undefined` after that single call, without running the task. |
| `Whilst.RunsTaskExactlyK` | dist/whilst.js:19-22 | After `k` truthy conditions and then a falsy one, with no failure, the task runs exactly `k` times and the condition `k + 1` times. The result is `undefined`. |
| `Whilst.CleanRoundsFinish` | dist/whilst.js:19-22 | The same `k` clean rounds followed by a falsy condition resolve the combinator to `undefined` after exactly `2k + 1` calls. |
| `Whilst.RejectionAtK` | dist/whilst.js:19-21 | After `k` clean rounds, a rejecting condition in round `k`, or a rejecting task after a truthy condition, rejects the whole combinator with that error. No call follows it: the trace has `2k + 1` or `2k + 2` calls. |
| `Whilst.RejectionStopsEverything` | dist/whilst.js:19-21 | Conversely, a rejected result carries the error of the last call made. Every earlier condition was truthy and every earlier task resolved. |
| `Whilst.ResolvedOnlyOnFalsy` | dist/whilst.js:19-22 | A run resolves normally only on a falsy condition. The `|trace| / 2`-th condition evaluation resolved falsy, and every earlier round had a truthy condition and a resolved task. |
| `Whilst.UnsettledIffAllClean` | dist/whilst.js:19-22 | Both directions: the run is still unsettled when the fuel runs out exactly when every one of the fuel rounds had a truthy condition and a resolved task. |
| `Whilst.TaskResultsDiscarded` | dist/whilst.js:20-22 | Two tasks that fail at the same runs with the same errors give identical runs, whatever else they resolve to. |

## Left out

- The code of the concurrency limiter `throat` is not part of this model. The model assumes that its only effect here is the settle order, which is an input. So `EveryLimit.EveryLimit` takes no `limit`, and the limit shapes nothing else in `parallelLimit`.
- The rejection of `everyLimit` with a `0` limit (test/everyLimit.js:173-180) comes from code that is not part of this model, and is not modelled. The code of `everyLimit` itself has no guard.
- The code of `tryFn`, `promised` and the `PromiseBreak` class is not part of this model. User code is given as already-settled outcomes. `PromiseBreak` appears only as the `Break` tag of `EveryLimit.Reason`. The argument unwrapping that `promised` adds to `parallelLimit` is not modelled.
- EveryLimit.EveryLimit: the third predicate argument is the collection as a sequence at call time. The source passes the live array, which a caller may mutate before a delayed call runs. A predicate that reads a collection mutated by the caller is not modelled.
- A user error that is itself a `PromiseBreak` instance would be unwrapped by the `instanceof` test. The model keeps genuine errors and breaks apart.
- Timing, event-loop scheduling and the side-effect order logs of the tests are left out. A losing unit that keeps running after the result has settled shows up only as a call in the trace. The aggregate never depends on it.
- Whilst.Repeat: follows at most `fuel` condition evaluations. A loop that has not stopped by then is reported as `Unsettled`, so non-termination is not modelled beyond that bound.
- Each unit's outcome is a function of its arguments (for `whilst`, also of the call number). Other hidden state of the user code is not modelled.
- JavaScript numbers are reals. NaN and floating-point rounding are not modelled. Objects are compared by an identity number, and all objects, functions and Error instances are truthy.
- The other combinators of the library (`until`, `compose`, `detect`, `filterSeries`, `someLimit`, `eachOfLimit`, `eachOfSeries`, `every`, `times`) are not part of this model.
