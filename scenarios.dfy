/**
 * Small end-to-end runs of the store, as a client of the library would drive it: mount a
 * root, construct watchers, write through the root's proxies. Each method starts from a
 * fresh store and returns the callback log it ends with.
 */
module Scenarios {
  import opened Values
  import opened Heap
  import Semantics
  import Reactive
  import WatcherFacts
  import DepFacts
  import MountFacts
  import Coherence

  /** A plain object with these keys, in this order, holding these values. */
  function Plain1(k: string, v: Value): Obj {
    Obj([k], map[k := Plain(v)])
  }

  /** `options = {data: {count: 0}}` as objects 0 (`options`) and 1 (`data`). */
  const COUNTER: map<ObjId, Obj> := map[0 := Plain1("data", Ref(1)), 1 := Plain1("count", Num(0))]

  /**
   * Mount `options` (object 0, whose `data` is object 1 with the single primitive key `key`)
   * on a fresh store; return the store and the Dep of `key`, which is new and empty.
   */
  method MountOne(heap: map<ObjId, Obj>, key: string) returns (st: Reactive.Store, c: CellId)
    requires heap.Keys == {0, 1} && heap[0] == Plain1("data", Ref(1))
    requires heap[1].keys == [key] && heap[1].slots.Keys == {key} && heap[1].slots[key].Plain?
    requires !heap[1].slots[key].value.Ref? && key !in Semantics.RESERVED && !Semantics.ShadowsMethod([key])
    ensures fresh(st) && st.Valid() && Coherence.Coherent(st.Model()) && st.watchers == [] && st.log == []
    ensures st.roots == [Root(Ref(0), Ref(1), [key])]
    ensures SlotOf(st.Model(), 1, key) == Some(Accessor(c)) && c < |st.cells|
    ensures st.cells[c] == Cell(heap[1].slots[key].value, [])
  {
    st := new Reactive.Store(heap);
    ghost var s0 := st.Model();
    assert Peek(s0, Ref(0), "data") == Ref(1);
    assert OwnKeys(s0, Ref(1)) == [key];
    assert Semantics.Bounded(s0, Ref(1), 1) by {
      assert Semantics.Bounded(s0, ValueOf(s0, 1, key), 0);
    }
    var r := st.Mount(Ref(0), 1);
    MountFacts.MountSpec(s0, Ref(0), 1);
    assert key in OwnKeys(s0, Ref(1));
    c := SlotOf(st.Model(), 1, key).value.cell;
  }

  /** `new Watcher(root0, key, cb)`: appended to the watchers and to the Dep `c` of `key`, storing its value. */
  method WatchOne(st: Reactive.Store, key: string, c: CellId) returns (w: WatcherId)
    requires st.Valid() && Coherence.Coherent(st.Model()) && |st.roots| == 1 && st.roots[0].data == Ref(1)
    requires SlotOf(st.Model(), 1, key) == Some(Accessor(c)) && c < |st.cells|
    modifies st
    ensures st.Valid() && Coherence.Coherent(st.Model()) && w == |old(st.watchers)|
    ensures st.objs == old(st.objs) && st.roots == old(st.roots) && st.log == old(st.log)
    ensures st.watchers == old(st.watchers) + [Watcher(0, key, old(st.cells[c].value))]
    ensures st.cells == old(st.cells[c := Cell(st.cells[c].value, st.cells[c].subs + [w])])
  {
    ghost var s := st.Model();
    w := st.Watch(0, key);
    WatcherFacts.WatchSpec(s, 0, key);
  }

  /**
   * `root.key = v` for a reactive top-level key whose Dep is `c`, when `v` differs from its
   * value: the value is stored and the callbacks are exactly `Fired` over that Dep.
   */
  method WriteKey(st: Reactive.Store, key: string, c: CellId, v: Value)
    requires st.Valid() && Coherence.Coherent(st.Model()) && |st.roots| == 1 && st.roots[0] == Root(Ref(0), Ref(1), [key])
    requires SlotOf(st.Model(), 1, key) == Some(Accessor(c)) && c < |st.cells| && st.cells[c].value != v
    modifies st
    ensures st.Valid() && Coherence.Coherent(st.Model())
    ensures st.objs == old(st.objs) && st.roots == old(st.roots) && st.cells == old(st.cells[c := Cell(v, st.cells[c].subs)])
    ensures st.log == old(st.log) + DepFacts.Fired(old(st.watchers), old(st.cells[c].subs), v)
  {
    ghost var s := st.Model();
    st.ProxySet(0, key, v);
    Coherence.WriteCallsBack(s, 1, key, v);
    DepFacts.WriteChanged(s, 1, key, v);
  }

  /**
   * `data = {count: 0}`, one watcher on `count`, then `root.count = 1` twice: the callback
   * runs once, with 1, and the second write calls nothing.
   */
  method CounterTwice() returns (first: seq<Callback>, second: seq<Callback>)
    ensures first == [Callback(0, Num(1))]
    ensures second == first
  {
    var st, c := MountOne(COUNTER, "count");
    var w := WatchOne(st, "count", c);
    ghost var s2 := st.Model();
    WriteKey(st, "count", c, Num(1));
    assert DepFacts.Fired(s2.watchers, [0], Num(1)) == [Callback(0, Num(1))];
    first := st.log;
    ghost var s3 := st.Model();
    DepFacts.WriteSame(s3, 1, "count", Num(1));
    st.ProxySet(0, "count", Num(1));
    second := st.log;
  }

  /**
   * `data = {count: 0}`, two watchers on `count`, then `root.count = 5`: the first watcher's
   * callback runs, then the second's, each once and with 5.
   */
  method CounterTwoWatchers() returns (log: seq<Callback>)
    ensures log == [Callback(0, Num(5)), Callback(1, Num(5))]
  {
    var st, c := MountOne(COUNTER, "count");
    var w0 := WatchOne(st, "count", c);
    var w1 := WatchOne(st, "count", c);
    ghost var s2 := st.Model();
    assert s2.cells[c].subs == [0, 1];
    WriteKey(st, "count", c, Num(5));
    assert DepFacts.Without([1], 0) == [1];
    assert DepFacts.Fired(s2.watchers, [0, 1], Num(5)) == [Callback(0, Num(5)), Callback(1, Num(5))];
    log := st.log;
  }

  /** `options = {data: {user: {name: 'a'}}}` as objects 0 to 2. */
  const PROFILE: map<ObjId, Obj> :=
    map[0 := Plain1("data", Ref(1)), 1 := Plain1("user", Ref(2)), 2 := Plain1("name", Str("a"))]

  /** The profile heap is one a store can start from, and what mounting it needs of it. */
  lemma ProfileStart(heap: map<ObjId, Obj>)
    requires heap.Keys == {0, 1, 2} && heap[0] == Plain1("data", Ref(1))
    requires heap[1] == Plain1("user", Ref(2)) && heap[2] == Plain1("name", Str("a"))
    ensures forall o :: o in heap ==> Shaped(heap[o])
    ensures forall o, k :: o in heap && k in heap[o].slots ==> heap[o].slots[k].Plain?
    ensures var s0 := State(heap, [], [], [], [], None);
      Semantics.Bounded(s0, Ref(1), 2) && Peek(s0, Ref(0), "data") == Ref(1) && OwnKeys(s0, Ref(1)) == ["user"]
  {
    forall o | o in heap ensures Shaped(heap[o]) {
      assert o == 0 || o == 1 || o == 2;
    }
    var s0 := State(heap, [], [], [], [], None);
    assert Semantics.Bounded(s0, Ref(1), 2) by {
      assert ValueOf(s0, 1, "user") == Ref(2);
      assert Semantics.Bounded(s0, ValueOf(s0, 2, "name"), 0);
      assert Semantics.Bounded(s0, Ref(2), 1);
    }
  }

  /** Mount the profile `heap`: `user` becomes reactive over an empty Dep, and no object is added. */
  method MountProfile(heap: map<ObjId, Obj>) returns (st: Reactive.Store, c: CellId)
    requires heap.Keys == {0, 1, 2} && heap[0] == Plain1("data", Ref(1))
    requires heap[1] == Plain1("user", Ref(2)) && heap[2] == Plain1("name", Str("a"))
    ensures fresh(st) && st.Valid() && Coherence.Coherent(st.Model()) && st.watchers == [] && st.log == []
    ensures st.roots == [Root(Ref(0), Ref(1), ["user"])]
    ensures SlotOf(st.Model(), 1, "user") == Some(Accessor(c)) && c < |st.cells|
    ensures st.cells[c] == Cell(Ref(2), [])
    ensures st.objs.Keys == {0, 1, 2}
  {
    ProfileStart(heap);
    st := new Reactive.Store(heap);
    ghost var s0 := st.Model();
    var r := st.Mount(Ref(0), 2);
    MountFacts.MountSpec(s0, Ref(0), 2);
    assert "user" in OwnKeys(s0, Ref(1));
    c := SlotOf(st.Model(), 1, "user").value.cell;
  }

  /**
   * `data = {user: {name: 'a'}}` mounted, one watcher on `user`, and then the object literal
   * `{name: 'b'}` created as object 3, a plain object.
   */
  method WatchProfile() returns (st: Reactive.Store, c: CellId)
    ensures fresh(st) && st.Valid() && Coherence.Coherent(st.Model())
    ensures st.roots == [Root(Ref(0), Ref(1), ["user"])] && st.log == []
    ensures SlotOf(st.Model(), 1, "user") == Some(Accessor(c)) && c < |st.cells|
    ensures st.cells[c] == Cell(Ref(2), [0]) && st.watchers == [Watcher(0, "user", Ref(2))]
    ensures SlotOf(st.Model(), 3, "name") == Some(Plain(Str("b")))
  {
    st, c := MountProfile(PROFILE);
    var w := WatchOne(st, "user", c);
    st.Alloc(3, Plain1("name", Str("b")));
  }

  /**
   * `data = {user: {name: 'a'}}`, a watcher on `user`, then `root.user = {name: 'b'}` and
   * `root.user.name = 'c'`: the callback runs once with the new object; the nested write
   * calls nothing, as the replacement object was never wrapped.
   */
  method ReplacedObjectNotTracked() returns (first: seq<Callback>, second: seq<Callback>)
    ensures first == [Callback(0, Ref(3))]
    ensures second == first
  {
    var st, c := WatchProfile();
    ghost var s2 := st.Model();
    WriteKey(st, "user", c, Ref(3));
    assert DepFacts.Fired(s2.watchers, [0], Ref(3)) == [Callback(0, Ref(3))];
    first := st.log;
    var user := st.ProxyGet(0, "user");
    ghost var s4 := st.Model();
    DepFacts.WritePlain(s4, 3, "name", Str("c"));
    var _ := st.Set(user, "name", Str("c"));
    second := st.log;
  }
}
