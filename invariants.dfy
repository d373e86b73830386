/** Every operation of the core keeps a state `Valid`: no dangling cell, watcher or root index. */
module Invariants {
  import opened Values
  import opened Heap
  import opened Semantics
  import ObserverFacts

  lemma UpdateValid(s: State, w: WatcherId)
    requires Valid(s)
    ensures Valid(Update(s, w))
  {
    if w < |s.watchers| {
      var me := s.watchers[w];
      var read := Get(s, RootData(s, me.vm), me.prop);
      ObserverFacts.GetValid(s, RootData(s, me.vm), me.prop);
      if read.result.Ok? && read.result.value != me.value {
        var t := Update(s, w);
        assert VmsMounted(t) by {
          forall v | 0 <= v < |t.watchers| ensures t.watchers[v].vm < |t.roots| {
            assert v != w ==> t.watchers[v] == read.state.watchers[v];
          }
        }
      }
    }
  }

  lemma {:induction false} NotifyAllValid(s: State, ws: seq<WatcherId>)
    requires Valid(s)
    ensures Valid(NotifyAll(s, ws))
    ensures |NotifyAll(s, ws).watchers| == |s.watchers|
    decreases |ws|
  {
    if ws != [] {
      UpdateValid(s, ws[0]);
      NotifyAllValid(Update(s, ws[0]), ws[1..]);
    }
  }

  lemma SetValid(s: State, obj: Value, key: string, v: Value)
    requires Valid(s)
    ensures Valid(Set(s, obj, key, v).state)
  {
    if obj.Ref? {
      var o := obj.obj;
      match SlotOf(s, o, key)
      case Some(Accessor(c)) =>
        if c < |s.cells| && s.cells[c].value != v {
          var s1 := s.(cells := s.cells[c := s.cells[c].(value := v)]);
          assert SubsAllocated(s1) by {
            forall d, i | 0 <= d < |s1.cells| && 0 <= i < |s1.cells[d].subs|
              ensures s1.cells[d].subs[i] < |s1.watchers|
            {
              assert s1.cells[d].subs == s.cells[d].subs;
            }
          }
          NotifyAllValid(s1, CellOf(s1, c).subs);
        }
      case _ =>
        var t := s.(objs := Assigned(s.objs, o, key, v));
        assert CellsAllocated(t) by {
          forall p, k | p in t.objs && k in t.objs[p].slots && t.objs[p].slots[k].Accessor?
            ensures t.objs[p].slots[k].cell < |t.cells|
          {
            if p != o {
              assert t.objs[p] == s.objs[p];
            } else if k != key {
              assert p in s.objs && k in s.objs[p].slots && t.objs[p].slots[k] == s.objs[p].slots[k];
            }
          }
        }
    }
  }

  lemma WatchValid(s: State, vm: RootId, prop: string)
    requires Valid(s)
    requires vm < |s.roots|
    ensures Valid(Watch(s, vm, prop).state)
    ensures Watch(s, vm, prop).id == |s.watchers|
  {
    var w := |s.watchers|;
    var s1 := s.(watchers := s.watchers + [Watcher(vm, prop, Undefined)], target := Some(w));
    assert SubsAllocated(s1) by {
      forall c, i | 0 <= c < |s1.cells| && 0 <= i < |s1.cells[c].subs| ensures s1.cells[c].subs[i] < |s1.watchers| {
        assert s1.cells[c].subs[i] < |s.watchers|;
      }
    }
    assert VmsMounted(s1) by {
      forall v | 0 <= v < |s1.watchers| ensures s1.watchers[v].vm < |s1.roots| {
        if v < w {
          assert s1.watchers[v] == s.watchers[v];
        }
      }
    }
    ObserverFacts.GetValid(s1, s1.roots[vm].data, prop);
    var t := Watch(s, vm, prop).state;
    assert VmsMounted(t) by {
      var read := Get(s1, s1.roots[vm].data, prop);
      forall v | 0 <= v < |t.watchers| ensures t.watchers[v].vm < |t.roots| {
        assert v != w ==> t.watchers[v] == read.state.watchers[v];
      }
    }
  }

  lemma MountValid(s: State, options: Value, h: nat)
    requires Valid(s)
    requires NoShadowing(s, options)
    ensures Valid(Mount(s, options, h).state)
  {
    var read := Get(s, options, "data");
    ObserverFacts.GetValid(s, options, "data");
    if read.result.Ok? && !Nullish(read.result.value) {
      var data := read.result.value;
      var s1 := read.state.(roots := read.state.roots + [Root(options, data, OwnKeys(read.state, data))]);
      assert DataPresent(s1) by {
        forall r | 0 <= r < |s1.roots| ensures !Nullish(s1.roots[r].data) {
          if r < |read.state.roots| {
            assert s1.roots[r] == read.state.roots[r];
          }
        }
      }
      ObserverFacts.ObserveGrows(s1, data, h);
    }
  }
}
