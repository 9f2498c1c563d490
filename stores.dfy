/** The reactive containers `Store` and `ListStore`.

    A store holds one value, a table of subscribers per event type (handle ->
    callback), a handle counter per event type and a flag that is set once the
    store is disposed of. Callbacks are opaque tokens: invoking one appends a
    `Call` to the append-only log `calls`, so that who was notified, with what
    and in which order can be stated in postconditions. Throwing is modelled
    by the returned `Outcome`. */
module Stores {
  import opened Values
  import opened Dispatch

  /** The event types for which `on(type, fn, true)` does not call `fn` at
      once: the list events, and "setAt", which no operation sends. */
  const NoImmediateCall: set<EventType> := {"push", "remove", "mutation", "setAt"}

  class Store {
    var value: Value
    var subscribers: map<EventType, map<int, Subscriber>>
    var counts: map<EventType, nat>
    var dead: bool
    /** Every subscriber invocation so far, oldest first. */
    var calls: seq<Call>

    /** Every live handle of a type lies below that type's counter, so a
        handle that `On` hands out has never been used under that type. */
    ghost predicate Valid()
      reads this
    {
      forall t, h :: t in subscribers && h in subscribers[t] ==> 0 <= h < CountOf(t)
    }

    /** The counter of `event`; a missing counter reads as 0 (`_subscriberCounts[type] || 0`). */
    function CountOf(event: EventType): nat
      reads this
    {
      if event in counts then counts[event] else 0
    }

    /** The subscriber table of `event`; a missing table reads as empty. */
    function SubsOf(event: EventType): map<int, Subscriber>
      reads this
    {
      if event in subscribers then subscribers[event] else map[]
    }

    /** What `_sendEvent(event, payload)` does to the store, relative to the
        state before it: nothing on a dead store; on a live one it makes sure
        `event` has a table and performs the dispatch `Send` of that table. */
    twostate predicate Sent(event: EventType, payload: Value, outcome: Outcome)
      reads this
    {
      && counts == old(counts)
      && dead == old(dead)
      && if old(dead) then
           subscribers == old(subscribers) && calls == old(calls) && outcome == Ok
         else
           var subs := old(SubsOf(event));
           && subscribers == old(subscribers)[event := subs]
           && calls == old(calls) + Send(subs, payload).calls
           && outcome == Send(subs, payload).outcome
    }

    constructor (value: Value)
      ensures Valid()
      ensures this.value == value && !dead
      ensures subscribers == map[] && counts == map[] && calls == []
    {
      this.value := value;
      subscribers := map[];
      counts := map[];
      dead := false;
      calls := [];
    }

    /** Registers `fn` under the next handle of `event` and returns that
        handle; with `callNow` it first calls `fn` with the current value,
        unless `event` is one of `NoImmediateCall`. A disposed store is not
        treated differently. */
    method On(event: EventType, fn: Subscriber, callNow: bool) returns (handle: int)
      requires Valid()
      modifies this
      ensures Valid()
      ensures handle == old(CountOf(event)) && handle !in old(SubsOf(event))
      ensures counts == old(counts)[event := handle + 1]
      ensures subscribers == old(subscribers)[event := old(SubsOf(event))[handle := fn]]
      ensures calls == old(calls) + if callNow && event !in NoImmediateCall then [Call(fn, value)] else []
      ensures value == old(value) && dead == old(dead)
    {
      // `this._subscriberCounts[type] || 0` and `this._subscribers[type] || {}`
      var next := CountOf(event);
      var table := SubsOf(event);
      assert next !in table;
      subscribers := subscribers[event := table[next := fn]];
      if callNow && event !in NoImmediateCall {
        calls := calls + [Call(fn, value)];
      }
      handle := next;
      counts := counts[event := next + 1];
    }

    /** Deletes the entry `id` of `event`. A missing entry is ignored; a type
        without a table (`this._subscribers[type]` is undefined) throws. */
    method Unsubscribe(event: EventType, id: int) returns (outcome: Outcome)
      requires Valid()
      modifies this
      ensures Valid()
      ensures outcome == (if event in old(subscribers) then Ok else TypeError)
      ensures subscribers ==
        if event in old(subscribers) then old(subscribers)[event := old(subscribers[event]) - {id}]
        else old(subscribers)
      ensures value == old(value) && counts == old(counts) && dead == old(dead) && calls == old(calls)
    {
      if event !in subscribers {
        return TypeError;
      }
      subscribers := subscribers[event := subscribers[event] - {id}];
      outcome := Ok;
    }

    /** Sets the value and sends "update" with it; a disposed store ignores
        the call entirely. */
    method Update(v: Value) returns (outcome: Outcome)
      requires Valid()
      modifies this
      ensures Valid()
      ensures old(dead) ==> unchanged(this) && outcome == Ok
      ensures !old(dead) ==> value == v && Sent("update", v, outcome)
    {
      if dead {
        return Ok;
      }
      value := v;
      outcome := SendEvent("update", v);
    }

    /** Sends "refresh" with the unchanged value. */
    method Refresh() returns (outcome: Outcome)
      requires Valid()
      modifies this
      ensures Valid()
      ensures value == old(value) && Sent("refresh", value, outcome)
    {
      outcome := SendEvent("refresh", value);
    }

    /** `_sendEvent`: on a live store, walks the positions 0..k-1 of the key
        array of the table of `event` (k its number of keys) and calls the
        subscriber found under each position; a position that is not a live
        handle throws. */
    method SendEvent(event: EventType, payload: Value) returns (outcome: Outcome)
      requires Valid()
      modifies this
      ensures Valid()
      ensures value == old(value) && Sent(event, payload, outcome)
    {
      if dead {
        return Ok;
      }
      if event !in subscribers {
        subscribers := subscribers[event := map[]];
      }
      var subs := subscribers[event];
      var k := |subs|;
      var i := 0;
      while i < k
        invariant 0 <= i <= k
        invariant subscribers == old(subscribers)[event := subs] && subs == old(SubsOf(event))
        invariant value == old(value) && counts == old(counts) && !dead
        invariant calls == old(calls) + Loop(subs, i, payload).calls
        invariant Loop(subs, i, payload).outcome == Ok
      {
        if i !in subs {
          LoopStopsAtThrow(subs, i + 1, k, payload);
          return TypeError;
        }
        calls := calls + [Call(subs[i], payload)];
        i := i + 1;
      }
      outcome := Ok;
    }

    /** Marks the store dead and drops every table and counter. */
    method Dispose()
      modifies this
      ensures Valid()
      ensures dead && subscribers == map[] && counts == map[]
      ensures value == old(value) && calls == old(calls)
    {
      dead := true;
      subscribers := map[];
      counts := map[];
    }
  }

  /** A store whose value is a list. `ListStore extends Store` in the source;
      here the list store owns a `Store` and its own operations work on that
      store's value and send their events through it. Subscribing,
      unsubscribing, `update`, `refresh` and `dispose` are the store's. */
  class ListStore {
    const store: Store

    ghost predicate Valid()
      reads this, store
    {
      store.Valid() && store.value.List?
    }

    /** The elements of the list. */
    function Items(): seq<Value>
      reads this, store
      requires Valid()
    {
      store.value.items
    }

    constructor (ls: seq<Value>)
      ensures Valid() && fresh(store)
      ensures Items() == ls && !store.dead
      ensures store.subscribers == map[] && store.counts == map[] && store.calls == []
    {
      store := new Store(List(ls));
    }

    /** `update([])`: on a live store the list becomes empty and "update" is
        sent with the empty list; a dead store is left as it is. */
    method Clear() returns (outcome: Outcome)
      requires Valid()
      modifies store
      ensures Valid()
      ensures old(store.dead) ==> unchanged(store) && outcome == Ok
      ensures !old(store.dead) ==> Items() == [] && store.Sent("update", List([]), outcome)
    {
      outcome := store.Update(List([]));
    }

    /** Appends `val` (also on a dead store) and then sends "push" with the
        value and its index. */
    method Push(val: Value) returns (outcome: Outcome)
      requires Valid()
      modifies store
      ensures Valid()
      ensures Items() == old(Items()) + [val]
      ensures store.Sent("push", Indexed(val, |old(Items())|), outcome)
    {
      store.value := List(store.value.items + [val]);
      outcome := store.SendEvent("push", Indexed(val, |store.value.items| - 1));
    }

    /** Removes element `idx` (also on a dead store) and then sends "remove"
        with the removed element and its index; an index outside the list
        throws a RangeError and changes nothing. */
    method Remove(idx: int) returns (outcome: Outcome)
      requires Valid()
      modifies store
      ensures Valid()
      ensures outcome == RangeError <==> idx < 0 || idx >= |old(Items())|
      ensures outcome == RangeError ==> unchanged(store)
      ensures 0 <= idx < |old(Items())| ==>
        && Items() == old(Items()[..idx] + Items()[idx + 1..])
        && store.Sent("remove", Indexed(old(Items()[idx]), idx), outcome)
    {
      var items := store.value.items;
      if idx < 0 || idx >= |items| {
        return RangeError;
      }
      var removed := items[idx];
      store.value := List(items[..idx] + items[idx + 1..]);
      outcome := store.SendEvent("remove", Indexed(removed, idx));
    }

    /** Element `idx`. Unlike `Remove` and `SetAt`, the bound check lets
        `idx == length` through, and that index reads as `undefined`. */
    method Get(idx: int) returns (outcome: Outcome, v: Value)
      requires Valid()
      ensures outcome == RangeError <==> idx < 0 || idx > |Items()|
      ensures outcome == Ok || outcome == RangeError
      ensures 0 <= idx < |Items()| ==> v == Items()[idx]
      ensures idx == |Items()| ==> v == Undefined
    {
      var items := store.value.items;
      if idx < 0 || idx > |items| {
        return RangeError, Undefined;
      }
      outcome := Ok;
      v := if idx < |items| then items[idx] else Undefined;
    }

    /** Overwrites slot `idx` (also on a dead store) and then sends
        "mutation" with the new value and its index; an index outside the
        list throws a RangeError and changes nothing. */
    method SetAt(idx: int, val: Value) returns (outcome: Outcome)
      requires Valid()
      modifies store
      ensures Valid()
      ensures outcome == RangeError <==> idx < 0 || idx >= |old(Items())|
      ensures outcome == RangeError ==> unchanged(store)
      ensures 0 <= idx < |old(Items())| ==>
        && Items() == old(Items())[idx := val]
        && store.Sent("mutation", Indexed(val, idx), outcome)
    {
      var items := store.value.items;
      if idx < 0 || idx >= |items| {
        return RangeError;
      }
      store.value := List(items[idx := val]);
      outcome := store.SendEvent("mutation", Indexed(val, idx));
    }

    /** The number of elements, the bound that `Remove`, `SetAt` and `Get`
        check indices against. */
    function Length(): (n: nat)
      reads this, store
      requires Valid()
      ensures n == |Items()|
    {
      |store.value.items|
    }
  }
}
