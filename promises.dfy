/** Settled promises and the aggregation rule of `Promise.all`, with the
    scheduling abstracted to the order in which the input promises settle. */
module Promises {
  import opened JsValues

  /** A settled promise: fulfilled with a value or rejected with a reason. */
  datatype Settled<+T, +E> = Resolved(value: T) | Rejected(reason: E)

  /** What `tryFn` makes of one call of user code: the value it resolved to,
      or the error it rejected with or threw synchronously. */
  type Outcome = Settled<Value, Value>

  /** `order` lists the positions 0 .. n-1, each exactly once, in the order in
      which the corresponding promises settle. */
  predicate IsSettleOrder(order: seq<nat>, n: nat) {
    && |order| == n
    && (forall k :: 0 <= k < |order| ==> order[k] < n)
    && (forall i :: 0 <= i < n ==> i in order)
    && (forall j, k :: 0 <= j < k < |order| ==> order[j] != order[k])
  }

  /** The step of the settle order at which the first rejection happens,
      or |order| when every promise in it resolves. */
  function FirstRejectedAt<T, E>(ps: seq<Settled<T, E>>, order: seq<nat>): (k: nat)
    requires forall j :: 0 <= j < |order| ==> order[j] < |ps|
    ensures k <= |order|
    ensures forall j :: 0 <= j < k ==> ps[order[j]].Resolved?
    ensures k < |order| ==> ps[order[k]].Rejected?
  {
    if order == [] then 0
    else if ps[order[0]].Rejected? then 0
    else
      var k' := FirstRejectedAt(ps, order[1..]);
      assert forall j :: 1 <= j <= k' ==> order[j] == order[1..][j - 1];
      1 + k'
  }

  /** `Promise.all(ps)`: rejected with the reason of the first rejection in
      settle order, otherwise resolved with every value at its own position. */
  function PromiseAll<T, E>(ps: seq<Settled<T, E>>, order: seq<nat>): (r: Settled<seq<T>, E>)
    requires IsSettleOrder(order, |ps|)
    ensures r.Resolved? <==> forall i :: 0 <= i < |ps| ==> ps[i].Resolved?
    ensures r.Resolved? ==> |r.value| == |ps| && forall i :: 0 <= i < |ps| ==> ps[i] == Resolved(r.value[i])
    ensures r.Rejected? ==>
      exists k :: 0 <= k < |order| && ps[order[k]] == Rejected(r.reason) &&
        forall j :: 0 <= j < k ==> ps[order[j]].Resolved?
  {
    var k := FirstRejectedAt(ps, order);
    if k < |order| then
      Rejected(ps[order[k]].reason)
    else
      assert forall i :: 0 <= i < |ps| ==> ps[i].Resolved? by {
        forall i | 0 <= i < |ps| ensures ps[i].Resolved? {
          assert i in order;
          var j :| 0 <= j < |order| && order[j] == i;
        }
      }
      Resolved(seq(|ps|, i requires 0 <= i < |ps| => ps[i].value))
  }

  /** The first rejection in settle order decides `Promise.all`, whatever
      happens after it. */
  lemma FirstRejectionDecides<T, E>(ps: seq<Settled<T, E>>, order: seq<nat>, k: nat)
    requires IsSettleOrder(order, |ps|)
    requires k < |order| && ps[order[k]].Rejected?
    requires forall j :: 0 <= j < k ==> ps[order[j]].Resolved?
    ensures PromiseAll(ps, order) == Rejected(ps[order[k]].reason)
  {
  }
}
