/** `everyLimit(collection, limit, predicate)`: resolves to `true` when no
    predicate result is strictly `false` and none fails; a strictly `false`
    result rides the rejection channel as a `PromiseBreak` and is turned back
    into a resolved `false` at the end. */
module EveryLimit {
  import opened JsValues
  import opened Promises

  /** The predicate as seen through `tryFn`: the outcome of calling it with
      `(item, index, collection)`. */
  type Predicate = (Value, nat, seq<Value>) -> Outcome

  /** One invocation of the predicate, with the arguments it received. */
  datatype PredicateCall = PredicateCall(item: Value, index: nat, collection: seq<Value>)

  /** Rejection reasons inside the chain: the internal `PromiseBreak` sentinel
      carrying its payload, or a genuine error from the predicate. */
  datatype Reason = Break(payload: Value) | Thrown(error: Value)

  /** The calls made and the value the returned promise settles to. */
  datatype EveryRun = EveryRun(calls: seq<PredicateCall>, result: Outcome)

  /** The outcome of the predicate call for position `i`. */
  function OutcomeAt(collection: seq<Value>, pred: Predicate, i: nat): Outcome
    requires i < |collection|
  {
    pred(collection[i], i, collection)
  }

  /** The `.then` on each predicate call: a result that is `=== false`
      becomes a rejection with `PromiseBreak(false)`; errors pass on. */
  function BreakOnFalse(o: Outcome): (r: Settled<Value, Reason>)
    ensures r.Rejected? && r.reason.Break? <==> o == Resolved(Bool(false))
    ensures r.Rejected? && r.reason.Break? ==> r.reason.payload == Bool(false)
    ensures r.Rejected? && r.reason.Thrown? <==> o.Rejected?
    ensures o.Rejected? ==> r.reason.error == o.reason
    ensures o.Resolved? && o.value != Bool(false) ==> r == Resolved(o.value)
  {
    match o
    case Rejected(e) => Rejected(Thrown(e))
    case Resolved(v) => if v == Bool(false) then Rejected(Break(Bool(false))) else Resolved(v)
  }

  /** The final `.catch`: a break is unwrapped to a resolution with its
      payload, any other error is rethrown unchanged. */
  function CatchBreak(s: Settled<Value, Reason>): (r: Outcome)
    ensures r.Rejected? <==> s.Rejected? && s.reason.Thrown?
    ensures r.Rejected? ==> r.reason == s.reason.error
    ensures s.Rejected? && s.reason.Break? ==> r == Resolved(s.reason.payload)
    ensures s.Resolved? ==> r == Resolved(s.value)
  {
    match s
    case Resolved(v) => Resolved(v)
    case Rejected(Break(p)) => Resolved(p)
    case Rejected(Thrown(e)) => Rejected(e)
  }

  /** An outcome that settles `everyLimit` on its own: a genuine error, or a
      result that is strictly `false`. */
  predicate Decisive(o: Outcome)
    ensures Decisive(o) <==> BreakOnFalse(o).Rejected?
  {
    o.Rejected? || o == Resolved(Bool(false))
  }

  /** The promises handed to `Promise.all`: each recorded call, passed
      through `tryFn` and the break-on-false step. Such a promise rejects
      exactly when its outcome is decisive; a genuine error keeps its reason
      and a strict `false` becomes `Break(false)`. */
  function Chained(calls: seq<PredicateCall>, pred: Predicate): (ps: seq<Settled<Value, Reason>>)
    ensures |ps| == |calls|
    ensures forall i :: 0 <= i < |calls| ==>
      var o := pred(calls[i].item, calls[i].index, calls[i].collection);
      && (ps[i].Rejected? <==> Decisive(o))
      && (o.Rejected? ==> ps[i] == Rejected(Thrown(o.reason)))
      && (o == Resolved(Bool(false)) ==> ps[i] == Rejected(Break(Bool(false))))
      && (!Decisive(o) ==> ps[i] == Resolved(o.value))
  {
    seq(|calls|, i requires 0 <= i < |calls| =>
      BreakOnFalse(pred(calls[i].item, calls[i].index, calls[i].collection)))
  }

  /** The whole combinator, for a given settle order of the per-element
      promises (the concurrency limit only shapes that order). */
  function EveryLimit(collection: seq<Value>, pred: Predicate, order: seq<nat>): (run: EveryRun)
    requires IsSettleOrder(order, |collection|)
    ensures |run.calls| == |collection|
    ensures forall i :: 0 <= i < |collection| ==> run.calls[i] == PredicateCall(collection[i], i, collection)
    ensures run.result.Resolved? ==> run.result.value == Bool(true) || run.result.value == Bool(false)
  {
    var calls := seq(|collection|, i requires 0 <= i < |collection| => PredicateCall(collection[i], i, collection));
    var chained := Chained(calls, pred);
    var all := PromiseAll(chained, order);
    var thenTrue: Settled<Value, Reason> := if all.Resolved? then Resolved(Bool(true)) else Rejected(all.reason);
    EveryRun(calls, CatchBreak(thenTrue))
  }

  /** The promises chained from the recorded calls, stated per position of
      the collection. */
  lemma ChainedAtPositions(collection: seq<Value>, pred: Predicate, order: seq<nat>)
    requires IsSettleOrder(order, |collection|)
    ensures var ps := Chained(EveryLimit(collection, pred, order).calls, pred);
      && |ps| == |collection|
      && forall i :: 0 <= i < |collection| ==>
        var o := OutcomeAt(collection, pred, i);
        && (ps[i].Rejected? <==> Decisive(o))
        && (o.Rejected? ==> ps[i] == Rejected(Thrown(o.reason)))
        && (o == Resolved(Bool(false)) ==> ps[i] == Rejected(Break(Bool(false))))
        && (!Decisive(o) ==> ps[i] == Resolved(o.value))
  {
  }

  /** The first decisive outcome in settle order is the result, verbatim;
      with no decisive outcome the result is `true`. */
  lemma FirstDecisiveWins(collection: seq<Value>, pred: Predicate, order: seq<nat>)
    requires IsSettleOrder(order, |collection|)
    ensures forall k :: (0 <= k < |order| && Decisive(OutcomeAt(collection, pred, order[k])) &&
        (forall j :: 0 <= j < k ==> !Decisive(OutcomeAt(collection, pred, order[j])))) ==>
        EveryLimit(collection, pred, order).result == OutcomeAt(collection, pred, order[k])
    ensures (forall k :: 0 <= k < |order| ==> !Decisive(OutcomeAt(collection, pred, order[k]))) ==>
        EveryLimit(collection, pred, order).result == Resolved(Bool(true))
  {
  }

  /** The result is `true` exactly when no outcome is decisive, whatever the
      settle order: every predicate result other than `false` passes, the
      falsy ones `0`, `""`, `null` and `undefined` included. */
  lemma TrueIffNoDecisive(collection: seq<Value>, pred: Predicate, order: seq<nat>)
    requires IsSettleOrder(order, |collection|)
    ensures EveryLimit(collection, pred, order).result == Resolved(Bool(true)) <==>
        forall i :: 0 <= i < |collection| ==> !Decisive(OutcomeAt(collection, pred, i))
  {
    ChainedAtPositions(collection, pred, order);
  }

  /** With no failing predicate call and at least one strictly `false`
      result, the result is `false` for every settle order. */
  lemma SomeFalseGivesFalse(collection: seq<Value>, pred: Predicate, order: seq<nat>, i: nat)
    requires IsSettleOrder(order, |collection|)
    requires forall j :: 0 <= j < |collection| ==> OutcomeAt(collection, pred, j).Resolved?
    requires i < |collection| && OutcomeAt(collection, pred, i) == Resolved(Bool(false))
    ensures EveryLimit(collection, pred, order).result == Resolved(Bool(false))
  {
    ChainedAtPositions(collection, pred, order);
  }

  /** Without failing predicate calls the result does not depend on the
      settle order, hence not on the limit or on timing. */
  lemma OrderIrrelevantWithoutErrors(collection: seq<Value>, pred: Predicate, order1: seq<nat>, order2: seq<nat>)
    requires IsSettleOrder(order1, |collection|) && IsSettleOrder(order2, |collection|)
    requires forall j :: 0 <= j < |collection| ==> OutcomeAt(collection, pred, j).Resolved?
    ensures EveryLimit(collection, pred, order1) == EveryLimit(collection, pred, order2)
  {
    if i :| 0 <= i < |collection| && OutcomeAt(collection, pred, i) == Resolved(Bool(false)) {
      SomeFalseGivesFalse(collection, pred, order1, i);
      SomeFalseGivesFalse(collection, pred, order2, i);
    } else {
      TrueIffNoDecisive(collection, pred, order1);
      TrueIffNoDecisive(collection, pred, order2);
    }
  }

  /** A break never escapes: every rejection of the result is a genuine
      error of one of the predicate calls, passed on verbatim. */
  lemma BreakNeverEscapes(collection: seq<Value>, pred: Predicate, order: seq<nat>)
    requires IsSettleOrder(order, |collection|)
    ensures var r := EveryLimit(collection, pred, order).result;
      r.Rejected? ==> exists i :: 0 <= i < |collection| && OutcomeAt(collection, pred, i) == Rejected(r.reason)
  {
    ChainedAtPositions(collection, pred, order);
  }

  /** An empty collection resolves to `true` without calling the predicate. */
  lemma EmptyCollection(pred: Predicate, order: seq<nat>)
    requires IsSettleOrder(order, 0)
    ensures EveryLimit([], pred, order) == EveryRun([], Resolved(Bool(true)))
  {
  }
}
