/** Client programs that use the stores only through their contracts, as a
    caller of the library would; each assertion is a consequence of those
    contracts for one concrete run. */
module StoreScenarios {
  import opened Values
  import opened Dispatch
  import opened Stores

  /** Handles run 0, 1, 2, ... per event type and restart after `Dispose`;
      `callNow` calls at once except for the list events, also on a disposed
      store. */
  method HandlesPerType() {
    var s := new Store(Atom(7));
    var a := s.On("update", Subscriber(0), false);
    var b := s.On("update", Subscriber(1), true);
    var c := s.On("push", Subscriber(2), true);
    var d := s.On("setAt", Subscriber(3), true);
    assert a == 0 && b == 1 && c == 0 && d == 0;
    assert s.calls == [Call(Subscriber(1), Atom(7))];
    s.Dispose();
    var e := s.On("update", Subscriber(4), true);
    assert e == 0;
    assert s.calls == [Call(Subscriber(1), Atom(7)), Call(Subscriber(4), Atom(7))];
  }

  /** With handles 0 and 1 live, "update" reaches both, in handle order. */
  method UpdateNotifiesInOrder() {
    var s := new Store(Null);
    var a := s.On("update", Subscriber(0), false);
    var b := s.On("update", Subscriber(1), false);
    assert s.subscribers["update"] == map[0 := Subscriber(0), 1 := Subscriber(1)];
    SendContiguous(map[0 := Subscriber(0), 1 := Subscriber(1)], Atom(5));
    var o := s.Update(Atom(5));
    assert o == Ok && s.value == Atom(5);
    assert s.calls == [Call(Subscriber(0), Atom(5)), Call(Subscriber(1), Atom(5))];
  }

  /** After unsubscribing handle 0 of two, the table has one key, so the
      loop looks at position 0 only, finds no subscriber there and throws:
      the remaining subscriber is never called, though the value changed. */
  method UnsubscribeLeavesGap() {
    var s := new Store(Null);
    var a := s.On("update", Subscriber(0), false);
    var b := s.On("update", Subscriber(1), false);
    var u := s.Unsubscribe("update", a);
    assert u == Ok && s.subscribers["update"] == map[1 := Subscriber(1)];
    var o := s.Update(Atom(5));
    assert o == TypeError && s.value == Atom(5) && s.calls == [];
  }

  /** Unsubscribing from a type that has no table throws; a missing handle
      under an existing table is ignored; `Refresh` creates the table. */
  method UnsubscribeErrors() {
    var s := new Store(Null);
    var u := s.Unsubscribe("refresh", 0);
    assert u == TypeError;
    var r := s.Refresh();
    assert r == Ok && s.subscribers == map["refresh" := map[]];
    u := s.Unsubscribe("refresh", 0);
    assert u == Ok;
    s.Dispose();
    u := s.Unsubscribe("refresh", 0);
    assert u == TypeError;
  }

  /** A disposed list store still changes its list on `Push`, `Remove` and
      `SetAt` but notifies nobody; `Clear` and `Update` do nothing at all. */
  method DeadListStore() {
    var ls := new ListStore([Atom(1)]);
    var h := ls.store.On("push", Subscriber(0), false);
    ls.store.Dispose();
    var o := ls.Push(Atom(2));
    assert o == Ok && ls.Items() == [Atom(1), Atom(2)] && ls.store.calls == [];
    o := ls.SetAt(0, Atom(3));
    assert o == Ok && ls.Items() == [Atom(3), Atom(2)];
    o := ls.Remove(1);
    assert o == Ok && ls.Items() == [Atom(3)];
    o := ls.Clear();
    assert o == Ok && ls.Items() == [Atom(3)] && ls.store.calls == [];
  }

  /** `ListStore([1, 2, 3])` with one "push" subscriber: `push(4)` calls it
      with the value and its index 3, and `get(3)` reads the new element. */
  method PushNotifies() {
    var ls := new ListStore([Atom(1), Atom(2), Atom(3)]);
    var p := ls.store.On("push", Subscriber(0), true);
    assert ls.store.calls == [];
    assert ls.store.subscribers["push"] == map[0 := Subscriber(0)];
    SendContiguous(map[0 := Subscriber(0)], Indexed(Atom(4), 3));
    var o := ls.Push(Atom(4));
    assert ls.Length() == 4;
    assert o == Ok && ls.store.calls == [Call(Subscriber(0), Indexed(Atom(4), 3))];
    var v;
    o, v := ls.Get(3);
    assert o == Ok && v == Atom(4);
  }

  /** `ListStore([1, 2, 3])` with one "mutation" subscriber: `setAt(1, 9)`
      calls it with the new value and its index, and `get(1)` reads 9. */
  method SetAtNotifies() {
    var ls := new ListStore([Atom(1), Atom(2), Atom(3)]);
    var m := ls.store.On("mutation", Subscriber(1), true);
    assert ls.store.calls == [];
    assert ls.store.subscribers["mutation"] == map[0 := Subscriber(1)];
    SendContiguous(map[0 := Subscriber(1)], Indexed(Atom(9), 1));
    var o := ls.SetAt(1, Atom(9));
    assert o == Ok && ls.store.calls == [Call(Subscriber(1), Indexed(Atom(9), 1))];
    var v;
    o, v := ls.Get(1);
    assert o == Ok && v == Atom(9);
  }

  /** The bounds of `get`, `remove` and `setAt` on a list of four: `get(4)`
      reads `undefined`, `get(5)`, `remove(-1)`, `remove(4)` and `setAt(4, x)`
      throw a RangeError and leave the list alone. */
  method ListBounds() {
    var ls := new ListStore([Atom(1), Atom(9), Atom(3), Atom(4)]);
    var o, v := ls.Get(4);
    assert o == Ok && v == Undefined;
    o, v := ls.Get(5);
    assert o == RangeError;
    o := ls.Remove(-1);
    assert o == RangeError;
    o := ls.Remove(4);
    assert o == RangeError;
    o := ls.SetAt(4, Atom(0));
    assert o == RangeError && ls.Items() == [Atom(1), Atom(9), Atom(3), Atom(4)];
  }

  /** After `remove(idx)`, index `idx` holds what was at `idx + 1`. */
  method RemoveShifts(ls: ListStore, idx: int)
    requires ls.Valid() && 0 <= idx && idx + 1 < |ls.Items()|
    modifies ls.store
  {
    var next := ls.Items()[idx + 1];
    var o := ls.Remove(idx);
    var r, v := ls.Get(idx);
    assert r == Ok && v == next;
  }
}
