/**
 * The states the store reaches between two top-level operations. `Dep.target` is null, every
 * Dep belongs to one property, and every watcher in the Dep of a property is a watcher whose
 * `this.vm.$data[this.prop]` is that very property. In such a state, a changed write calls back
 * exactly the property's subscribers, with the new value, in insertion order.
 */
module Coherence {
  import opened Values
  import opened Heap
  import opened Semantics
  import opened ObserverFacts
  import DepFacts
  import WatcherFacts

  /** Every subscriber of the Dep behind a slot re-reads that slot's cell. */
  ghost predicate SubscribersReadTheirCell(s: State) {
    forall o, k :: IsAccessor(SlotOf(s, o, k)) ==>
      DepFacts.ReadThrough(s, CellOf(s, SlotOf(s, o, k).value.cell).subs, SlotOf(s, o, k).value.cell)
  }

  ghost predicate Coherent(s: State) {
    s.target.None? && OneSlotPerCell(s) && SubscribersReadTheirCell(s)
  }

  /** A store over plain objects, before anything is observed. */
  lemma InitialCoherent(heap: map<ObjId, Obj>)
    requires forall o, k :: o in heap && k in heap[o].slots ==> heap[o].slots[k].Plain?
    ensures Coherent(State(heap, [], [], [], [], None))
  {
  }

  /** Outside a tracked read, a read changes nothing. */
  lemma GetCoherent(s: State, obj: Value, key: string)
    requires Coherent(s)
    ensures Get(s, obj, key).state == s
  {
  }

  /**
   * A step that keeps every accessor, every root's `$data`, what every watcher watches and
   * every subscriber list, and leaves `Dep.target` null, keeps a state coherent.
   */
  lemma CoherentFrame(s: State, t: State)
    requires Coherent(s) && t.target.None?
    requires forall o, k :: IsAccessor(SlotOf(s, o, k)) || IsAccessor(SlotOf(t, o, k)) ==> SlotOf(t, o, k) == SlotOf(s, o, k)
    requires |s.roots| <= |t.roots| && forall r :: 0 <= r < |s.roots| ==> t.roots[r].data == s.roots[r].data
    requires |s.watchers| <= |t.watchers|
    requires forall w :: 0 <= w < |s.watchers| ==> t.watchers[w].vm == s.watchers[w].vm && t.watchers[w].prop == s.watchers[w].prop
    requires forall c :: CellOf(t, c).subs == CellOf(s, c).subs
    ensures Coherent(t)
  {
    forall o, k, p, j | IsAccessor(SlotOf(t, o, k)) && SlotOf(t, p, j) == SlotOf(t, o, k)
      ensures o == p && k == j
    {
      assert SlotOf(s, p, j) == SlotOf(s, o, k);
    }
    forall o, k | IsAccessor(SlotOf(t, o, k))
      ensures DepFacts.ReadThrough(t, CellOf(t, SlotOf(t, o, k).value.cell).subs, SlotOf(t, o, k).value.cell)
    {
      var c := SlotOf(s, o, k).value.cell;
      forall w | w in CellOf(t, c).subs
        ensures w < |t.watchers| && RootData(t, t.watchers[w].vm).Ref? &&
          SlotOf(t, RootData(t, t.watchers[w].vm).obj, t.watchers[w].prop) == Some(Accessor(c))
      {
        assert w in CellOf(s, c).subs;
        assert RootData(t, t.watchers[w].vm) == RootData(s, s.watchers[w].vm);
      }
    }
  }

  /** A write keeps a state coherent. */
  lemma SetCoherent(s: State, obj: Value, key: string, v: Value)
    requires Valid(s) && Coherent(s)
    ensures Coherent(Set(s, obj, key, v).state)
  {
    var t := Set(s, obj, key, v).state;
    if obj.Ref? {
      var o := obj.obj;
      var slot := SlotOf(s, o, key);
      if IsAccessor(slot) {
        var c := slot.value.cell;
        if s.cells[c].value != v {
          DepFacts.WriteChanged(s, o, key, v);
          forall x, y ensures SlotOf(t, x, y) == SlotOf(s, x, y) {
          }
          forall d ensures CellOf(t, d).subs == CellOf(s, d).subs {
          }
          CoherentFrame(s, t);
        }
      } else {
        assert t.objs == Assigned(s.objs, o, key, v);
        forall x, y | IsAccessor(SlotOf(s, x, y)) || IsAccessor(SlotOf(t, x, y))
          ensures SlotOf(t, x, y) == SlotOf(s, x, y)
        {
          if x == o && y != key {
            assert x in t.objs && x in s.objs;
            assert t.objs[x].slots[y] == s.objs[x].slots[y];
          }
        }
        CoherentFrame(s, t);
      }
    }
  }

  /** `update()` keeps a state coherent: it changes nothing but one stored value and the log. */
  lemma UpdateCoherent(s: State, w: WatcherId)
    requires Valid(s) && Coherent(s)
    ensures Coherent(Update(s, w))
  {
    if w < |s.watchers| {
      WatcherFacts.UpdateSpec(s, w);
      CoherentFrame(s, Update(s, w));
    }
  }

  /**
   * Constructing a watcher keeps a state coherent: the one registration it makes is on the
   * Dep of the property it watches, and `Dep.target` is null again afterwards.
   */
  lemma WatchCoherent(s: State, vm: RootId, prop: string)
    requires Valid(s) && Coherent(s) && vm < |s.roots|
    ensures Coherent(Watch(s, vm, prop).state)
  {
    WatcherFacts.WatchSpec(s, vm, prop);
    var r := Watch(s, vm, prop);
    var t := r.state;
    var data := s.roots[vm].data;
    if data.Ref? && IsAccessor(SlotOf(s, data.obj, prop)) && SlotOf(s, data.obj, prop).value.cell < |s.cells| {
      var c := SlotOf(s, data.obj, prop).value.cell;
      forall o, k, p, j | IsAccessor(SlotOf(t, o, k)) && SlotOf(t, p, j) == SlotOf(t, o, k)
        ensures o == p && k == j
      {
        assert SlotOf(s, p, j) == SlotOf(s, o, k);
      }
      forall o, k | IsAccessor(SlotOf(t, o, k))
        ensures DepFacts.ReadThrough(t, CellOf(t, SlotOf(t, o, k).value.cell).subs, SlotOf(t, o, k).value.cell)
      {
        var d := SlotOf(s, o, k).value.cell;
        assert SlotOf(t, o, k) == SlotOf(s, o, k);
        forall x | x in CellOf(t, d).subs
          ensures x < |t.watchers| && RootData(t, t.watchers[x].vm).Ref? &&
            SlotOf(t, RootData(t, t.watchers[x].vm).obj, t.watchers[x].prop) == Some(Accessor(d))
        {
          if x != r.id || d != c {
            assert x in CellOf(s, d).subs by {
              if d == c {
                assert CellOf(t, d).subs == s.cells[c].subs + [r.id];
              }
            }
            assert t.watchers[x] == s.watchers[x];
          } else {
            assert t.watchers[x] == Watcher(vm, prop, Peek(s, data, prop));
          }
        }
      }
    } else {
      forall x, y ensures SlotOf(t, x, y) == SlotOf(s, x, y) {
      }
      CoherentFrame(s, t);
    }
  }

  /**
   * After `observer` outside a tracked read, a slot it left alone keeps its Dep and that Dep's
   * subscribers, and a slot it re-pointed has a new, empty Dep: the state stays coherent.
   */
  lemma CoherentAfterWrapping(s: State, t: State)
    requires Coherent(s) && CellsAllocated(s)
    requires Grown(s, t) && Quiet(s, t) && OneSlotPerCell(t)
    ensures Coherent(t)
  {
    forall o, k | IsAccessor(SlotOf(t, o, k))
      ensures DepFacts.ReadThrough(t, CellOf(t, SlotOf(t, o, k).value.cell).subs, SlotOf(t, o, k).value.cell)
    {
      var c := SlotOf(t, o, k).value.cell;
      if SlotOf(t, o, k) == SlotOf(s, o, k) {
        assert o in s.objs && k in s.objs[o].slots;
        assert t.cells[c] == t.cells[..|s.cells|][c] == s.cells[c];
        forall w | w in CellOf(t, c).subs
          ensures w < |t.watchers| && RootData(t, t.watchers[w].vm).Ref? &&
            SlotOf(t, RootData(t, t.watchers[w].vm).obj, t.watchers[w].prop) == Some(Accessor(c))
        {
          var p, j := RootData(s, s.watchers[w].vm).obj, s.watchers[w].prop;
          assert SlotOf(s, p, j) == SlotOf(s, o, k);
        }
      } else {
        assert FreshAccessor(s, t, SlotOf(t, o, k));
        assert CellOf(t, c).subs == [];
      }
    }
  }

  /** `dep.notify()` outside a tracked read keeps a state coherent: it changes no object and no Dep. */
  lemma NotifyCoherent(s: State, c: CellId)
    requires Valid(s) && Coherent(s)
    ensures Coherent(Notify(s, c))
  {
    var ws := CellOf(s, c).subs;
    var t := Notify(s, c);
    forall w | w in ws ensures w < |s.watchers| {
      var i :| 0 <= i < |ws| && ws[i] == w;
    }
    DepFacts.NotifyAllFrame(s, ws);
    forall x, y ensures SlotOf(t, x, y) == SlotOf(s, x, y) {
    }
    forall d ensures CellOf(t, d).subs == CellOf(s, d).subs {
    }
    CoherentFrame(s, t);
  }

  /** `observer` outside a tracked read keeps a state coherent. */
  lemma ObserveCoherent(s: State, data: Value, h: nat)
    requires CellsAllocated(s) && Coherent(s)
    ensures Coherent(Observe(s, data, h))
  {
    ObserveGrows(s, data, h);
    ObserveUnshared(s, data, h);
    CoherentAfterWrapping(s, Observe(s, data, h));
  }

  /** So does one `defineReactive` call. */
  lemma DefineReactiveCoherent(s: State, o: ObjId, key: string, f: nat)
    requires CellsAllocated(s) && Coherent(s) && o in s.objs
    ensures Coherent(DefineReactive(s, o, key, f))
  {
    DefineReactiveGrows(s, o, key, f);
    DefineReactiveUnshared(s, o, key, f);
    CoherentAfterWrapping(s, DefineReactive(s, o, key, f));
  }

  /** Constructing a root keeps a state coherent. */
  lemma MountCoherent(s: State, options: Value, h: nat)
    requires Valid(s) && Coherent(s) && NoShadowing(s, options)
    ensures Coherent(Mount(s, options, h).state)
  {
    var read := Get(s, options, "data");
    assert read.state == s;
    if read.result.Ok? && !Nullish(read.result.value) {
      var data := read.result.value;
      var s1 := s.(roots := s.roots + [Root(options, data, OwnKeys(s, data))]);
      CoherentFrame(s, s1);
      ObserveGrows(s1, data, h);
      ObserveUnshared(s1, data, h);
      CoherentAfterWrapping(s1, Observe(s1, data, h));
    }
  }

  /**
   * In a coherent state, writing a different value to a reactive property calls back the
   * subscribers of its Dep and no other watcher: in insertion order, each with the new value,
   * once per watcher whose stored value differed. The state stays coherent.
   */
  lemma WriteCallsBack(s: State, o: ObjId, key: string, v: Value)
    requires Valid(s) && Coherent(s)
    requires IsAccessor(SlotOf(s, o, key)) && ValueOf(s, o, key) != v
    ensures var c := SlotOf(s, o, key).value.cell;
      var t := Set(s, Ref(o), key, v).state;
      c < |s.cells| &&
      t.log == s.log + DepFacts.Fired(s.watchers, s.cells[c].subs, v) &&
      (forall i :: |s.log| <= i < |t.log| ==> t.log[i].watcher in s.cells[c].subs) &&
      Coherent(t)
  {
    DepFacts.WriteChanged(s, o, key, v);
    SetCoherent(s, Ref(o), key, v);
  }
}
