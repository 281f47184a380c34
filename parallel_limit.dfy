/** `parallelLimit(tasks, limit, ...args)`: after a guard on `limit`, runs
    every task with the same extra arguments and collects the values by
    position, or rejects with the first failure. */
module ParallelLimit {
  import opened JsValues
  import opened Promises

  /** A task as seen through `tryFn`: the outcome of calling it with `args`. */
  type Task = seq<Value> -> Outcome

  /** One invocation: which task, and the arguments it received. */
  datatype TaskCall = TaskCall(task: nat, args: seq<Value>)

  /** The calls made and the value the returned promise settles to. */
  datatype ParallelRun = ParallelRun(calls: seq<TaskCall>, result: Settled<seq<Value>, Value>)

  const LimitMessage := "Limit must be a number greater than 0."

  /** The guard `! limit > 0`, which parses as `(!limit) > 0`: the negated
      limit is a boolean, which `>` converts to 1 or 0 (ToNumber) before
      comparing. */
  function GuardRejects(limit: Value): (rejects: bool)
    ensures rejects <==> !Truthy(limit)
  {
    var negated := !Truthy(limit);
    (if negated then 1.0 else 0.0) > 0.0
  }

  /** The outcome of each recorded call, by position. */
  function Results(tasks: seq<Task>, calls: seq<TaskCall>): (outs: seq<Outcome>)
    requires forall i :: 0 <= i < |calls| ==> calls[i].task < |tasks|
  {
    seq(|calls|, i requires 0 <= i < |calls| => tasks[calls[i].task](calls[i].args))
  }

  /** The whole combinator, for a given settle order of the task promises
      (the concurrency limit only shapes that order). */
  function ParallelLimit(tasks: seq<Task>, limit: Value, args: seq<Value>, order: seq<nat>): (run: ParallelRun)
    requires IsSettleOrder(order, |tasks|)
    ensures !Truthy(limit) ==> run == ParallelRun([], Rejected(Error(LimitMessage)))
    ensures Truthy(limit) ==>
      |run.calls| == |tasks| && forall i :: 0 <= i < |tasks| ==> run.calls[i] == TaskCall(i, args)
    ensures Truthy(limit) ==>
      (run.result.Resolved? <==> forall i :: 0 <= i < |tasks| ==> tasks[i](args).Resolved?)
    ensures Truthy(limit) && run.result.Resolved? ==>
      |run.result.value| == |tasks| &&
      forall i :: 0 <= i < |tasks| ==> tasks[i](args) == Resolved(run.result.value[i])
    ensures Truthy(limit) && run.result.Rejected? ==>
      exists k :: 0 <= k < |order| && tasks[order[k]](args) == Rejected(run.result.reason) &&
        forall j :: 0 <= j < k ==> tasks[order[j]](args).Resolved?
  {
    if GuardRejects(limit) then
      ParallelRun([], Rejected(Error(LimitMessage)))
    else
      var calls := seq(|tasks|, i requires 0 <= i < |tasks| => TaskCall(i, args));
      var outs := Results(tasks, calls);
      assert forall i :: 0 <= i < |tasks| ==> outs[i] == tasks[i](args);
      ParallelRun(calls, PromiseAll(outs, order))
  }

  /** The guard rejects `0`, `undefined` and `""`, but lets a negative
      number and a non-empty string through. */
  lemma GuardExamples()
    ensures GuardRejects(Num(0.0)) && GuardRejects(Undefined) && GuardRejects(Str(""))
    ensures !GuardRejects(Num(-1.0)) && !GuardRejects(Str("two")) && !GuardRejects(Num(2.0))
  {
  }

  /** With a valid limit, the first failing task in settle order decides the
      result, whatever the later tasks do. */
  lemma FirstFailureWins(tasks: seq<Task>, limit: Value, args: seq<Value>, order: seq<nat>, k: nat)
    requires IsSettleOrder(order, |tasks|) && Truthy(limit)
    requires k < |order| && tasks[order[k]](args).Rejected?
    requires forall j :: 0 <= j < k ==> tasks[order[j]](args).Resolved?
    ensures ParallelLimit(tasks, limit, args, order).result == Rejected(tasks[order[k]](args).reason)
  {
  }

  /** When every task resolves, the result is the same for every settle
      order: positions, not completion times, place the values. */
  lemma ResultIndependentOfSettleOrder(tasks: seq<Task>, limit: Value, args: seq<Value>, order1: seq<nat>, order2: seq<nat>)
    requires IsSettleOrder(order1, |tasks|) && IsSettleOrder(order2, |tasks|)
    requires forall i :: 0 <= i < |tasks| ==> tasks[i](args).Resolved?
    ensures ParallelLimit(tasks, limit, args, order1) == ParallelLimit(tasks, limit, args, order2)
  {
  }

  /** An empty task list with a valid limit resolves to the empty array. */
  lemma EmptyTasks(limit: Value, args: seq<Value>, order: seq<nat>)
    requires IsSettleOrder(order, 0) && Truthy(limit)
    ensures ParallelLimit([], limit, args, order) == ParallelRun([], Resolved([]))
  {
  }
}
