/** The event dispatch of `Store._sendEvent` on a live store, as a function of
    the subscriber table of one event type.

    The source loops `for (const idx in Object.keys(table))`: `for ... in` over
    the ARRAY of keys yields that array's positions "0", "1", ..., "k-1" (k the
    number of live handles), not the handles themselves, and each position is
    then looked up in the table as if it were a handle. While the live handles
    are exactly 0..k-1 this calls every subscriber once, in handle order. After
    an unsubscribe that leaves a gap, some position is not a live handle; the
    lookup yields `undefined`, and calling it throws a TypeError after the
    subscribers at the earlier positions have run. */
module Dispatch {
  import opened Values

  /** What one dispatch did: the calls it made, in order, and how it ended. */
  datatype Run = Run(calls: seq<Call>, outcome: Outcome)

  /** The state of the dispatch loop once it has looked at positions
      0, ..., n-1 of the key array: the calls made so far, and whether a
      position has already thrown (which ends the loop). */
  function Loop(subs: map<int, Subscriber>, n: nat, payload: Value): (run: Run)
    ensures run.outcome == Ok || run.outcome == TypeError
    ensures |run.calls| <= n
  {
    if n == 0 then Run([], Ok)
    else
      var before := Loop(subs, n - 1, payload);
      if before.outcome != Ok then before
      else if n - 1 in subs then Run(before.calls + [Call(subs[n - 1], payload)], Ok)
      else Run(before.calls, TypeError)
  }

  /** Dispatching `payload` to the subscriber table `subs` of a live store:
      the loop runs over as many positions as the table has keys. */
  function Send(subs: map<int, Subscriber>, payload: Value): (run: Run)
    ensures run.outcome == Ok || run.outcome == TypeError
    ensures |run.calls| <= |subs|
  {
    Loop(subs, |subs|, payload)
  }

  /** The live handles of `subs` are exactly 0, 1, ..., |subs| - 1. */
  ghost predicate Contiguous(subs: map<int, Subscriber>)
  {
    forall h :: h in subs <==> 0 <= h < |subs|
  }

  /** After n positions the loop has called the subscribers at handles
      0, 1, ..., m-1 in that order, all with the same payload, and it has
      thrown exactly when m < n, in which case m is not a live handle. */
  lemma {:induction false} LoopShape(subs: map<int, Subscriber>, n: nat, payload: Value)
    ensures var run := Loop(subs, n, payload);
      && (forall j :: 0 <= j < |run.calls| ==> j in subs && run.calls[j] == Call(subs[j], payload))
      && (run.outcome == Ok <==> |run.calls| == n)
      && (run.outcome == TypeError ==> |run.calls| !in subs)
  {
    if n > 0 {
      LoopShape(subs, n - 1, payload);
    }
  }

  /** Once the loop has thrown, looking at further positions changes nothing:
      the throw ends the dispatch. */
  lemma {:induction false} LoopStopsAtThrow(subs: map<int, Subscriber>, m: nat, n: nat, payload: Value)
    requires m <= n
    requires Loop(subs, m, payload).outcome == TypeError
    ensures Loop(subs, n, payload) == Loop(subs, m, payload)
  {
    if m < n {
      LoopStopsAtThrow(subs, m, n - 1, payload);
    }
  }

  /** A dispatch calls the subscribers at handles 0, 1, ..., m-1 in that order,
      all with the same payload, where m is the first position below |subs|
      that is not a live handle; it throws a TypeError exactly when there is
      such a position. */
  lemma SendShape(subs: map<int, Subscriber>, payload: Value)
    ensures var run := Send(subs, payload);
      && |run.calls| <= |subs|
      && (forall j :: 0 <= j < |run.calls| ==> j in subs && run.calls[j] == Call(subs[j], payload))
      && (run.outcome == Ok <==> |run.calls| == |subs|)
      && (run.outcome == TypeError <==> |run.calls| < |subs| && |run.calls| !in subs)
  {
    LoopShape(subs, |subs|, payload);
  }

  /** When the live handles are exactly 0..k-1, every subscriber is called
      once, in ascending handle order, and the dispatch ends normally. */
  lemma SendContiguous(subs: map<int, Subscriber>, payload: Value)
    requires Contiguous(subs)
    ensures var run := Send(subs, payload);
      && run.outcome == Ok
      && |run.calls| == |subs|
      && forall h :: 0 <= h < |subs| ==> run.calls[h] == Call(subs[h], payload)
  {
    SendShape(subs, payload);
  }

  /** A dispatch ends normally if and only if the live handles are exactly
      0..k-1; otherwise it throws a TypeError at the first missing handle. */
  lemma SendOkIffContiguous(subs: map<int, Subscriber>, payload: Value)
    ensures Send(subs, payload).outcome == Ok <==> Contiguous(subs)
  {
    SendShape(subs, payload);
    var k := |subs|;
    if Send(subs, payload).outcome == Ok {
      var range := Range(k);
      assert range <= subs.Keys;
      SubsetOfEqualSize(range, subs.Keys);
    }
  }

  /** The set {0, ..., k-1}. */
  function Range(k: nat): (r: set<int>)
    ensures forall h :: h in r <==> 0 <= h < k
    ensures |r| == k
  {
    if k == 0 then {} else Range(k - 1) + {k - 1}
  }

  /** A subset that is as large as its superset is the superset. */
  lemma SubsetOfEqualSize(a: set<int>, b: set<int>)
    requires a <= b && |a| == |b|
    ensures a == b
  {
    assert |b - a| == |b| - |a|;
  }
}
