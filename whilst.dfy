/** `whilst(condition, task, ...args)`: evaluates `condition()`; while it
    is truthy, runs `task(...args)` and starts over; resolves to `undefined`
    once the condition is falsy, and rejects with the first error of either. */
module Whilst {
  import opened JsValues
  import opened Promises

  /** The condition as seen through `tryFn`: the outcome of its n-th
      evaluation (it receives no arguments). */
  type Condition = nat -> Outcome

  /** The task as seen through `tryFn`: the outcome of its n-th run with the
      given arguments. */
  type Task = (nat, seq<Value>) -> Outcome

  /** One invocation made by the combinator. */
  datatype Call = ConditionCall | TaskCall(args: seq<Value>)

  /** The returned promise: settled, or still pending after the rounds
      followed. */
  datatype Status = Unsettled | Finished(outcome: Outcome)

  datatype WhilstRun = WhilstRun(trace: seq<Call>, status: Status)

  /** The rest parameter `...args`: every argument after the first two. */
  function Rest(arguments: seq<Value>): (args: seq<Value>)
    ensures |args| == if |arguments| > 2 then |arguments| - 2 else 0
    ensures forall i :: 0 <= i < |args| ==> args[i] == arguments[i + 2]
  {
    if |arguments| > 2 then arguments[2..] else []
  }

  /** The compiled collection of the rest parameter: an array of length
      `max(len - 2, 0)` filled from position 2 of the argument list. */
  method CollectRest(arguments: seq<Value>) returns (args: array<Value>)
    ensures fresh(args)
    ensures args[..] == Rest(arguments)
  {
    var len := |arguments|;
    args := new Value[if len > 2 then len - 2 else 0];
    var key := 2;
    while key < len
      invariant 2 <= key <= if len > 2 then len else 2
      invariant forall i :: 0 <= i < key - 2 ==> args[i] == arguments[i + 2]
    {
      args[key - 2] := arguments[key];
      key := key + 1;
    }
  }

  /** The recursive call `whilst(condition, task, ...args)` collects the
      same rest arguments again, so every round sees the original `args`. */
  lemma RecursiveCallKeepsArgs(condition: Value, task: Value, args: seq<Value>)
    ensures Rest([condition, task] + args) == args
  {
  }

  /** The rounds from the `round`-th condition evaluation on, following at
      most `fuel` condition evaluations. */
  function Repeat(condition: Condition, task: Task, args: seq<Value>, round: nat, fuel: nat): (run: WhilstRun)
    decreases fuel
    ensures |run.trace| <= 2 * fuel
    ensures run.status.Unsettled? ==> |run.trace| == 2 * fuel
    ensures forall i :: 0 <= i < |run.trace| ==>
      run.trace[i] == if i % 2 == 0 then ConditionCall else TaskCall(args)
    ensures run.status.Finished? && run.status.outcome.Resolved? ==>
      run.status.outcome.value == Undefined && |run.trace| % 2 == 1
  {
    if fuel == 0 then
      WhilstRun([], Unsettled)
    else
      match condition(round)
      case Rejected(e) => WhilstRun([ConditionCall], Finished(Rejected(e)))
      case Resolved(c) =>
        if !Truthy(c) then
          WhilstRun([ConditionCall], Finished(Resolved(Undefined)))
        else
          match task(round, args)
          case Rejected(e) => WhilstRun([ConditionCall, TaskCall(args)], Finished(Rejected(e)))
          case Resolved(_) =>
            var next := Repeat(condition, task, args, round + 1, fuel - 1);
            WhilstRun([ConditionCall, TaskCall(args)] + next.trace, next.status)
  }

  /** The combinator applied to its full argument list. The first two
      entries of `arguments` are the slots that hold the condition and the
      task functions; the model does not tie those two values to the
      `condition` and `task` parameters, which give their behaviour. The
      lemmas below are stated for `Repeat`; they apply to this function with
      `round` := 0 and `args` := `Rest(arguments)`. */
  function Whilst(condition: Condition, task: Task, arguments: seq<Value>, fuel: nat): (run: WhilstRun)
    ensures fuel > 0 ==> |run.trace| > 0 && run.trace[0] == ConditionCall
    ensures forall i :: 0 <= i < |run.trace| ==>
      run.trace[i] == if i % 2 == 0 then ConditionCall else TaskCall(Rest(arguments))
    ensures run.status.Finished? && run.status.outcome.Resolved? ==> run.status.outcome == Resolved(Undefined)
  {
    Repeat(condition, task, Rest(arguments), 0, fuel)
  }

  /** A condition that is falsy at once resolves to `undefined` without
      running the task. */
  lemma InitiallyFalsy(condition: Condition, task: Task, args: seq<Value>, round: nat, fuel: nat)
    requires fuel > 0 && condition(round).Resolved? && !Truthy(condition(round).value)
    ensures Repeat(condition, task, args, round, fuel) == WhilstRun([ConditionCall], Finished(Resolved(Undefined)))
  {
  }

  /** With `k` truthy conditions followed by a falsy one, and no failure, the
      task runs exactly `k` times and the condition `k + 1` times. */
  lemma RunsTaskExactlyK(condition: Condition, task: Task, args: seq<Value>, round: nat, fuel: nat, k: nat)
    requires k < fuel
    requires forall j :: round <= j < round + k ==>
      condition(j).Resolved? && Truthy(condition(j).value) && task(j, args).Resolved?
    requires condition(round + k).Resolved? && !Truthy(condition(round + k).value)
    ensures var run := Repeat(condition, task, args, round, fuel);
      && run.status == Finished(Resolved(Undefined))
      && |run.trace| == 2 * k + 1
      && multiset(run.trace)[TaskCall(args)] == k
      && multiset(run.trace)[ConditionCall] == k + 1
  {
    CleanRoundsFinish(condition, task, args, round, fuel, k);
    AlternationCounts(Repeat(condition, task, args, round, fuel).trace, args, k);
  }

  /** The same `k` clean rounds resolve to `undefined` after `2 * k + 1`
      calls. */
  lemma {:induction false} CleanRoundsFinish(condition: Condition, task: Task, args: seq<Value>, round: nat, fuel: nat, k: nat)
    requires k < fuel
    requires forall j :: round <= j < round + k ==>
      condition(j).Resolved? && Truthy(condition(j).value) && task(j, args).Resolved?
    requires condition(round + k).Resolved? && !Truthy(condition(round + k).value)
    ensures var run := Repeat(condition, task, args, round, fuel);
      && run.status == Finished(Resolved(Undefined))
      && |run.trace| == 2 * k + 1
    decreases k
  {
    if k > 0 {
      assert condition(round).Resolved? && Truthy(condition(round).value) && task(round, args).Resolved?;
      CleanRoundsFinish(condition, task, args, round + 1, fuel - 1, k - 1);
    }
  }

  /** A trace that alternates condition and task calls and has `2 * k + 1`
      entries holds `k` task calls and `k + 1` condition calls. */
  lemma {:induction false} AlternationCounts(trace: seq<Call>, args: seq<Value>, k: nat)
    requires |trace| == 2 * k + 1
    requires forall i :: 0 <= i < |trace| ==>
      trace[i] == if i % 2 == 0 then ConditionCall else TaskCall(args)
    ensures multiset(trace)[TaskCall(args)] == k
    ensures multiset(trace)[ConditionCall] == k + 1
    decreases k
  {
    if k == 0 {
      assert trace == [ConditionCall];
    } else {
      var rest := trace[2..];
      assert forall i :: 0 <= i < |rest| ==> rest[i] == trace[i + 2];
      AlternationCounts(rest, args, k - 1);
      assert trace == [ConditionCall, TaskCall(args)] + rest;
      RoundCounts(args, rest);
    }
  }

  /** One round adds one condition call and one task call to the counts. */
  lemma RoundCounts(args: seq<Value>, rest: seq<Call>)
    ensures multiset([ConditionCall, TaskCall(args)] + rest)[TaskCall(args)] == multiset(rest)[TaskCall(args)] + 1
    ensures multiset([ConditionCall, TaskCall(args)] + rest)[ConditionCall] == multiset(rest)[ConditionCall] + 1
  {
    assert multiset([ConditionCall, TaskCall(args)] + rest) == multiset{ConditionCall, TaskCall(args)} + multiset(rest);
  }

  /** After `k` clean rounds, a rejection of the condition, or of the task
      after a truthy condition, in round `k` rejects the whole combinator
      with that error, and no call follows the one that rejected. */
  lemma {:induction false} RejectionAtK(condition: Condition, task: Task, args: seq<Value>, round: nat, fuel: nat, k: nat, e: Value, inTask: bool)
    requires k < fuel
    requires forall j :: round <= j < round + k ==>
      condition(j).Resolved? && Truthy(condition(j).value) && task(j, args).Resolved?
    requires if inTask then
        condition(round + k).Resolved? && Truthy(condition(round + k).value) && task(round + k, args) == Rejected(e)
      else condition(round + k) == Rejected(e)
    ensures var run := Repeat(condition, task, args, round, fuel);
      && run.status == Finished(Rejected(e))
      && |run.trace| == 2 * k + (if inTask then 2 else 1)
    decreases k
  {
    if k > 0 {
      RejectionAtK(condition, task, args, round + 1, fuel - 1, k - 1, e, inTask);
    }
  }

  /** A rejection settles the combinator with that error, and the call that
      rejected is the last one made: the `|trace| / 2`-th condition
      evaluation when the trace is odd, otherwise the last task run. Every
      earlier condition was truthy and every earlier task resolved. */
  lemma {:induction false} RejectionStopsEverything(condition: Condition, task: Task, args: seq<Value>, round: nat, fuel: nat)
    ensures var run := Repeat(condition, task, args, round, fuel);
      run.status.Finished? && run.status.outcome.Rejected? ==>
        var e := run.status.outcome.reason;
        var n := |run.trace| / 2;
        && |run.trace| > 0
        && (if |run.trace| % 2 == 1 then condition(round + n) == Rejected(e)
            else task(round + n - 1, args) == Rejected(e))
        && forall j :: round <= j < round + n ==>
             condition(j).Resolved? && Truthy(condition(j).value) &&
             (j < round + n - 1 || |run.trace| % 2 == 1 ==> task(j, args).Resolved?)
    decreases fuel
  {
    if fuel > 0 && condition(round).Resolved? && Truthy(condition(round).value) && task(round, args).Resolved? {
      RejectionStopsEverything(condition, task, args, round + 1, fuel - 1);
    }
  }

  /** A normal termination happens only on a falsy condition: the
      `|trace| / 2`-th condition evaluation resolved falsy and every earlier
      round was clean. */
  lemma {:induction false} ResolvedOnlyOnFalsy(condition: Condition, task: Task, args: seq<Value>, round: nat, fuel: nat)
    ensures var run := Repeat(condition, task, args, round, fuel);
      run.status.Finished? && run.status.outcome.Resolved? ==>
        var n := |run.trace| / 2;
        && condition(round + n).Resolved? && !Truthy(condition(round + n).value)
        && forall j :: round <= j < round + n ==>
             condition(j).Resolved? && Truthy(condition(j).value) && task(j, args).Resolved?
    decreases fuel
  {
    if fuel > 0 && condition(round).Resolved? && Truthy(condition(round).value) && task(round, args).Resolved? {
      ResolvedOnlyOnFalsy(condition, task, args, round + 1, fuel - 1);
    }
  }

  /** The run is still unsettled when the fuel is spent exactly when every
      one of the `fuel` rounds was clean: truthy condition, resolved task. */
  lemma {:induction false} UnsettledIffAllClean(condition: Condition, task: Task, args: seq<Value>, round: nat, fuel: nat)
    ensures Repeat(condition, task, args, round, fuel).status.Unsettled? <==>
      forall j :: round <= j < round + fuel ==>
        condition(j).Resolved? && Truthy(condition(j).value) && task(j, args).Resolved?
    decreases fuel
  {
    if fuel > 0 && condition(round).Resolved? && Truthy(condition(round).value) && task(round, args).Resolved? {
      UnsettledIffAllClean(condition, task, args, round + 1, fuel - 1);
    }
  }

  /** The values the task resolves to are discarded: two tasks that fail at
      the same runs with the same errors give the same run. */
  lemma {:induction false} TaskResultsDiscarded(condition: Condition, task1: Task, task2: Task, args: seq<Value>, round: nat, fuel: nat)
    requires forall n: nat :: task1(n, args).Rejected? <==> task2(n, args).Rejected?
    requires forall n: nat :: task1(n, args).Rejected? ==> task1(n, args) == task2(n, args)
    ensures Repeat(condition, task1, args, round, fuel) == Repeat(condition, task2, args, round, fuel)
    decreases fuel
  {
    if fuel > 0 {
      TaskResultsDiscarded(condition, task1, task2, args, round + 1, fuel - 1);
    }
  }
}
