/**
 * The reactive core as the source runs it: one store whose fields are updated in place.
 * `objs` is the object heap, `cells` the closed-over `value` and `Dep` of every reactive
 * property, `roots` the `mvue` instances, `watchers` the `Watcher` objects, `log` every
 * callback invocation so far and `target` the global `Dep.target` slot.
 * Each operation of the source is proved to end in exactly the state (and return exactly the
 * result) that its function in `Semantics` gives. The proxy accessors are tied to
 * `Semantics.Get` and `Semantics.Set` on `$data`. `ProxyKeys` and `Install` are the two halves
 * of the constructor after `options.data` is read.
 */
module Reactive {
  import opened Values
  import opened Heap
  import Semantics
  import ObserverFacts
  import Invariants
  import Coherence

  class Store {
    var objs: map<ObjId, Obj>
    var cells: seq<Cell>
    var roots: seq<Root>
    var watchers: seq<Watcher>
    var log: seq<Callback>
    var target: Option<WatcherId>

    function Model(): State
      reads this
    {
      State(objs, cells, roots, watchers, log, target)
    }

    ghost predicate Valid()
      reads this
    {
      Heap.Valid(Model())
    }

    /** A store over a heap of plain objects, before anything is observed; `Dep.target` is null. */
    constructor (heap: map<ObjId, Obj>)
      requires forall o :: o in heap ==> Shaped(heap[o])
      requires forall o, k :: o in heap && k in heap[o].slots ==> heap[o].slots[k].Plain?
      ensures Valid()
      ensures Model() == State(heap, [], [], [], [], None)
      ensures Coherence.Coherent(Model())
    {
      objs, cells, roots, watchers, log, target := heap, [], [], [], [], None;
      Coherence.InitialCoherent(heap);
    }

    /**
     * Evaluating an object literal: a new object of plain data properties under the id `o`,
     * which no object has yet. Which unused id it gets is not observable, so the caller picks it.
     */
    method Alloc(o: ObjId, ob: Obj)
      requires Valid() && o !in objs && Shaped(ob)
      requires forall k :: k in ob.slots ==> ob.slots[k].Plain?
      modifies this
      ensures Valid()
      ensures Model() == old(Model()).(objs := old(objs)[o := ob])
      ensures Coherence.Coherent(old(Model())) ==> Coherence.Coherent(Model())
    {
      ghost var s := Model();
      objs := objs[o := ob];
      assert CellsAllocated(Model()) by {
        forall p, k | p in objs && k in objs[p].slots && objs[p].slots[k].Accessor?
          ensures objs[p].slots[k].cell < |cells|
        {
          assert p != o;
        }
      }
      if Coherence.Coherent(s) {
        forall p, k | IsAccessor(SlotOf(s, p, k)) || IsAccessor(SlotOf(Model(), p, k))
          ensures SlotOf(Model(), p, k) == SlotOf(s, p, k)
        {
          assert p != o;
        }
        Coherence.CoherentFrame(s, Model());
      }
    }

    /** `obj[key]`; on a reactive property this is the getter of observer.js. */
    method Get(obj: Value, key: string) returns (r: Result<Value>)
      requires Valid()
      modifies this
      ensures Valid()
      ensures Semantics.Outcome(Model(), r) == Semantics.Get(old(Model()), obj, key)
      ensures Coherence.Coherent(old(Model())) ==> Model() == old(Model())
    {
      ObserverFacts.GetValid(Model(), obj, key);
      if Nullish(obj) {
        return Err(TypeError);
      }
      if !obj.Ref? || obj.obj !in objs || key !in objs[obj.obj].slots {
        return Ok(Undefined);
      }
      match objs[obj.obj].slots[key]
      case Plain(v) =>
        r := Ok(v);
      case Accessor(c) =>
        if target.Some? {
          cells := cells[c := cells[c].(subs := cells[c].subs + [target.value])];
        }
        r := Ok(cells[c].value);
    }

    /** `obj[key] = v`; on a reactive property this is the setter of observer.js. */
    method Set(obj: Value, key: string, v: Value) returns (r: Result<()>)
      requires Valid()
      modifies this
      ensures Valid()
      ensures Semantics.Outcome(Model(), r) == Semantics.Set(old(Model()), obj, key, v)
      ensures Coherence.Coherent(old(Model())) ==> Coherence.Coherent(Model())
    {
      Invariants.SetValid(Model(), obj, key, v);
      if Coherence.Coherent(Model()) {
        Coherence.SetCoherent(Model(), obj, key, v);
      }
      if Nullish(obj) {
        return Err(TypeError);
      }
      r := Ok(());
      if !obj.Ref? {
        return;
      }
      var o := obj.obj;
      if o in objs && key in objs[o].slots && objs[o].slots[key].Accessor? {
        var c := objs[o].slots[key].cell;
        if cells[c].value != v {
          cells := cells[c := cells[c].(value := v)];
          assert SubsAllocated(Model()) by {
            forall d, i | 0 <= d < |cells| && 0 <= i < |cells[d].subs| ensures cells[d].subs[i] < |watchers| {
              assert cells[d].subs == old(cells)[d].subs;
            }
          }
          Notify(c);
        }
      } else {
        objs := Assigned(objs, o, key, v);
      }
    }

    /** `dep.notify()` for the Dep of cell `c`: `update()` on each subscriber present when it began. */
    method Notify(c: CellId)
      requires Valid() && c < |cells|
      modifies this
      ensures Valid()
      ensures Model() == Semantics.Notify(old(Model()), c)
      ensures Coherence.Coherent(old(Model())) ==> Coherence.Coherent(Model())
    {
      if Coherence.Coherent(Model()) {
        Coherence.NotifyCoherent(Model(), c);
      }
      var subs := cells[c].subs;
      var i := 0;
      while i < |subs|
        invariant 0 <= i <= |subs|
        invariant Valid()
        invariant |watchers| == |old(watchers)|
        invariant Semantics.NotifyAll(Model(), subs[i..]) == Semantics.NotifyAll(old(Model()), subs)
      {
        assert subs[i..] == [subs[i]] + subs[i + 1..];
        Update(subs[i]);
        i := i + 1;
      }
    }

    /** `update()` of watcher `w`: re-read, and only on a change store the value and call back. */
    method Update(w: WatcherId)
      requires Valid() && w < |watchers|
      modifies this
      ensures Valid()
      ensures Model() == Semantics.Update(old(Model()), w)
      ensures Coherence.Coherent(old(Model())) ==> Coherence.Coherent(Model())
    {
      Invariants.UpdateValid(Model(), w);
      if Coherence.Coherent(Model()) {
        Coherence.UpdateCoherent(Model(), w);
      }
      var me := watchers[w];
      var read := Get(roots[me.vm].data, me.prop);
      var value := read.value;
      if value != me.value {
        watchers := watchers[w := me.(value := value)];
        log := log + [Callback(w, value)];
      }
    }

    /** `observer(data)`: wrap every own key of `data`, nested objects first. */
    method Observe(data: Value, ghost h: nat)
      requires Valid() && Semantics.Bounded(Model(), data, h)
      modifies this
      ensures Valid()
      ensures Model() == Semantics.Observe(old(Model()), data, h)
      ensures !data.Ref? ==> Model() == old(Model())
      ensures Coherence.Coherent(old(Model())) ==> Coherence.Coherent(Model())
      decreases h, 2, 0
    {
      if Coherence.Coherent(Model()) {
        Coherence.ObserveCoherent(Model(), data, h);
      }
      if !data.Ref? {
        return;
      }
      var o := data.obj;
      var keys := if o in objs then objs[o].keys else [];
      if keys == [] {
        return;
      }
      ghost var s0 := Model();
      ObserverFacts.SubsGrowIsGrown(s0, s0);
      assert h > 0 by {
        assert keys[0] in ObjOf(s0, o).keys;
      }
      var i := 0;
      while i < |keys|
        invariant 0 <= i <= |keys|
        invariant Valid()
        invariant ObserverFacts.Grown(s0, Model())
        invariant Semantics.ObserveKeys(Model(), o, keys[i..], h - 1) == Semantics.ObserveKeys(s0, o, keys, h - 1)
      {
        ghost var before := Model();
        ObserverFacts.BoundedStable(s0, before, data, h);
        assert keys[i] in ObjOf(before, o).keys;
        assert keys[i..][0] == keys[i] && keys[i..][1..] == keys[i + 1..];
        DefineReactive(o, keys[i], h - 1);
        ObserverFacts.DefineReactiveGrows(before, o, keys[i], h - 1);
        ObserverFacts.GrownTrans(s0, before, Model());
        i := i + 1;
      }
    }

    /** `defineReactive(data, key, data[key])` for `data` the object `o`. */
    method DefineReactive(o: ObjId, key: string, ghost f: nat)
      requires Valid() && o in objs
      requires Semantics.Bounded(Model(), ValueOf(Model(), o, key), f)
      modifies this
      ensures Valid()
      ensures Model() == Semantics.DefineReactive(old(Model()), o, key, f)
      ensures Coherence.Coherent(old(Model())) ==> Coherence.Coherent(Model())
      decreases f + 1, 0, 0
    {
      if Coherence.Coherent(Model()) {
        Coherence.DefineReactiveCoherent(Model(), o, key, f);
      }
      ObserverFacts.DefineReactiveGrows(Model(), o, key, f);
      ghost var s0 := Model();
      var read := Get(Ref(o), key);
      var value := read.value;
      ObserverFacts.SubsGrowIsGrown(s0, Model());
      ObserverFacts.BoundedStable(s0, Model(), value, f);
      ghost var s1 := Model();
      Observe(value, f);
      ObserverFacts.ObserveGrows(s1, value, f);
      var dep := |cells|;
      cells := cells + [Cell(value, [])];
      objs := objs[o := objs[o].(slots := objs[o].slots[key := Accessor(dep)])];
    }

    /** `new Watcher(vm, prop, callback)`: one tracked read under `Dep.target = this`, then `Dep.target = null`. */
    method Watch(vm: RootId, prop: string) returns (w: WatcherId)
      requires Valid() && vm < |roots|
      modifies this
      ensures Valid()
      ensures Semantics.Watched(Model(), w) == Semantics.Watch(old(Model()), vm, prop)
      ensures Coherence.Coherent(old(Model())) ==> Coherence.Coherent(Model())
    {
      Invariants.WatchValid(Model(), vm, prop);
      if Coherence.Coherent(Model()) {
        Coherence.WatchCoherent(Model(), vm, prop);
      }
      w := |watchers|;
      watchers := watchers + [Watcher(vm, prop, Undefined)];
      target := Some(w);
      assert SubsAllocated(Model()) by {
        forall c, i | 0 <= c < |cells| && 0 <= i < |cells[c].subs| ensures cells[c].subs[i] < |watchers| {
          assert cells[c].subs[i] < |old(watchers)|;
        }
      }
      assert VmsMounted(Model()) by {
        forall v | 0 <= v < |watchers| ensures watchers[v].vm < |roots| {
          if v < w {
            assert watchers[v] == old(watchers)[v];
          }
        }
      }
      var read := Get(roots[vm].data, prop);
      target := None;
      watchers := watchers[w := watchers[w].(value := read.value)];
    }

    /**
     * `Object.keys(this.$data).forEach(key => this.proxyData(key))` on the root under
     * construction: the keys proxied, in order. Each step first looks up `this.proxyData`,
     * which a key named `proxyData` proxied earlier has replaced by a data value: calling
     * that throws a `TypeError`.
     */
    method ProxyKeys(keys: seq<string>) returns (r: Result<seq<string>>)
      ensures r.Ok? <==> !(|keys| > 0 && "proxyData" in keys[..|keys| - 1])
      ensures r.Ok? ==> r.value == keys
    {
      var proxied := [];
      var i := 0;
      while i < |keys|
        invariant 0 <= i <= |keys| && proxied == keys[..i]
        invariant i > 0 ==> "proxyData" !in keys[..i - 1]
      {
        if "proxyData" in proxied {
          assert keys[..i] <= keys[..|keys| - 1];
          return Err(TypeError);
        }
        proxied := proxied + [keys[i]];
        i := i + 1;
      }
      assert keys[..i] == keys;
      return Ok(proxied);
    }

    /** `new mvue(options)`: bind `$data`, install one proxy per top-level key, then `observer($data)`. */
    method Mount(options: Value, ghost h: nat) returns (r: Result<RootId>)
      requires Valid() && Semantics.NoShadowing(Model(), options)
      requires Semantics.Bounded(Model(), Peek(Model(), options, "data"), h)
      modifies this
      ensures Valid()
      ensures Semantics.Outcome(Model(), r) == Semantics.Mount(old(Model()), options, h)
      ensures Coherence.Coherent(old(Model())) ==> Coherence.Coherent(Model())
    {
      Invariants.MountValid(Model(), options, h);
      if Coherence.Coherent(Model()) {
        Coherence.MountCoherent(Model(), options, h);
      }
      ghost var s0 := Model();
      var read := Get(options, "data");
      if read.Err? {
        return Err(TypeError);
      }
      var data := read.value;
      if Nullish(data) {
        return Err(TypeError);
      }
      ObserverFacts.SubsGrowIsGrown(s0, Model());
      ObserverFacts.BoundedStable(s0, Model(), data, h);
      r := Install(options, data, h);
    }

    /**
     * The constructor once `options.data` is read: proxy every top-level key on the root
     * under construction, call `this.init()`, which runs `observer($data)`, and only then is
     * the root, with `$data` bound, a root of the store. A shadowed `proxyData` or `init`
     * throws first, and the half-built root is never published.
     */
    method Install(options: Value, data: Value, ghost h: nat) returns (r: Result<RootId>)
      requires Valid() && !Nullish(data) && Semantics.Bounded(Model(), data, h)
      modifies this
      ensures Valid()
      ensures Semantics.ShadowsMethod(OwnKeys(old(Model()), data)) ==> r == Err(TypeError) && Model() == old(Model())
      ensures !Semantics.ShadowsMethod(OwnKeys(old(Model()), data)) ==>
        r == Ok(old(|roots|)) &&
        Model() == Semantics.Observe(old(Model()).(roots := old(roots) + [Root(options, data, OwnKeys(old(Model()), data))]), data, h)
      ensures Coherence.Coherent(old(Model())) ==> Coherence.Coherent(Model())
    {
      var keys := if data.Ref? && data.obj in objs then objs[data.obj].keys else [];
      var proxied := ProxyKeys(keys);
      if proxied.Err? || "init" in proxied.value {
        return Err(TypeError);
      }
      ghost var s1 := Model();
      r := Ok(|roots|);
      roots := roots + [Root(options, data, proxied.value)];
      if Coherence.Coherent(s1) {
        Coherence.CoherentFrame(s1, Model());
      }
      ObserverFacts.BoundedStable(s1, Model(), data, h);
      Observe(data, h);
    }

    /** `root.key`, for a key `mvue` proxies: the value and the side effect of `root.$data[key]`. */
    method ProxyGet(root: RootId, key: string) returns (v: Value)
      requires Valid() && root < |roots| && key in roots[root].proxied
      modifies this
      ensures Valid()
      ensures Semantics.Get(old(Model()), old(roots[root].data), key) == Semantics.Outcome(Model(), Ok(v))
      ensures Coherence.Coherent(old(Model())) ==> Model() == old(Model())
    {
      var r := Get(roots[root].data, key);
      v := r.value;
    }

    /** `root.key = v`, for a key `mvue` proxies: exactly `root.$data[key] = v`. */
    method ProxySet(root: RootId, key: string, v: Value)
      requires Valid() && root < |roots| && key in roots[root].proxied
      modifies this
      ensures Valid()
      ensures Semantics.Set(old(Model()), old(roots[root].data), key, v) == Semantics.Outcome(Model(), Ok(()))
      ensures Coherence.Coherent(old(Model())) ==> Coherence.Coherent(Model())
    {
      var r := Set(roots[root].data, key, v);
    }
  }
}
