/**
 * What `observer` does to a state: it changes no value anyone can read, it only turns
 * slots into accessors over freshly allocated cells, and while no watcher is active
 * every cell it allocates starts with an empty subscriber list.
 */
module ObserverFacts {
  import opened Values
  import opened Heap
  import opened Semantics

  /** `t` is `s` with some slots re-pointed at accessors over cells allocated after `s`. */
  ghost predicate Grown(s: State, t: State) {
    SameData(s, t) &&
    |s.cells| <= |t.cells| &&
    (forall c :: 0 <= c < |s.cells| ==>
      t.cells[c].value == s.cells[c].value && s.cells[c].subs <= t.cells[c].subs) &&
    (forall o, k :: SlotOf(t, o, k) == SlotOf(s, o, k) || FreshAccessor(s, t, SlotOf(t, o, k))) &&
    t.roots == s.roots && t.watchers == s.watchers && t.log == s.log && t.target == s.target
  }

  /** The same objects with the same keys, and every key reads the same value. */
  ghost predicate SameData(s: State, t: State) {
    t.objs.Keys == s.objs.Keys &&
    (forall o :: o in s.objs ==> t.objs[o].keys == s.objs[o].keys) &&
    (forall o, k :: ValueOf(t, o, k) == ValueOf(s, o, k))
  }

  /** The slot is an accessor over a cell allocated after `s` and present in `t`. */
  ghost predicate FreshAccessor(s: State, t: State, slot: Option<Slot>) {
    slot.Some? && slot.value.Accessor? && |s.cells| <= slot.value.cell < |t.cells|
  }

  /** No subscriber was added anywhere: old cells are untouched and new ones have empty Deps. */
  ghost predicate Quiet(s: State, t: State) {
    |s.cells| <= |t.cells| && t.cells[..|s.cells|] == s.cells &&
    forall c :: |s.cells| <= c < |t.cells| ==> t.cells[c].subs == []
  }

  lemma GrownTrans(s: State, t: State, u: State)
    requires Grown(s, t) && Grown(t, u)
    ensures Grown(s, u)
  {
    forall o, k ensures SlotOf(u, o, k) == SlotOf(s, o, k) || FreshAccessor(s, u, SlotOf(u, o, k)) {
      assert SlotOf(u, o, k) == SlotOf(t, o, k) || FreshAccessor(t, u, SlotOf(u, o, k));
      assert SlotOf(t, o, k) == SlotOf(s, o, k) || FreshAccessor(s, t, SlotOf(t, o, k));
    }
    forall c | 0 <= c < |s.cells| ensures u.cells[c].value == s.cells[c].value && s.cells[c].subs <= u.cells[c].subs {
      assert t.cells[c].value == s.cells[c].value && s.cells[c].subs <= t.cells[c].subs;
    }
  }

  lemma QuietTrans(s: State, t: State, u: State)
    requires Quiet(s, t) && Quiet(t, u)
    ensures Quiet(s, u)
  {
    assert u.cells[..|s.cells|] == u.cells[..|t.cells|][..|s.cells|];
  }

  lemma SubsGrowIsGrown(s: State, t: State)
    requires OnlySubsGrow(s, t)
    ensures Grown(s, t)
    ensures forall rs :: SameData(s, t.(roots := rs))
  {
    forall o, k ensures ValueOf(t, o, k) == ValueOf(s, o, k) && SlotOf(t, o, k) == SlotOf(s, o, k) {
    }
  }

  /** A read of an allocated object's key, as `observer` performs it, preserves `Valid`. */
  lemma GetValid(s: State, obj: Value, key: string)
    requires Valid(s)
    ensures Valid(Get(s, obj, key).state)
  {
    var t := Get(s, obj, key).state;
    if t != s {
      assert obj.Ref? && SlotOf(s, obj.obj, key).Some? && SlotOf(s, obj.obj, key).value.Accessor?;
      var c := SlotOf(s, obj.obj, key).value.cell;
      assert t == Track(s, c);
      assert s.target.Some? && s.target.value < |s.watchers|;
      if c < |s.cells| {
        forall d, i | 0 <= d < |t.cells| && 0 <= i < |t.cells[d].subs| ensures t.cells[d].subs[i] < |t.watchers| {
          if d == c && i == |s.cells[c].subs| {
          } else {
            assert t.cells[d].subs[i] == s.cells[d].subs[i];
          }
        }
      }
    }
  }

  lemma {:induction false} ObserveGrows(s: State, data: Value, h: nat)
    requires CellsAllocated(s)
    ensures CellsAllocated(Observe(s, data, h))
    ensures Grown(s, Observe(s, data, h))
    ensures s.target.None? ==> Quiet(s, Observe(s, data, h))
    ensures Valid(s) ==> Valid(Observe(s, data, h))
    decreases h, 2, 0
  {
    match data
    case Ref(o) =>
      if h > 0 {
        ObserveKeysGrows(s, o, ObjOf(s, o).keys, h - 1);
      } else {
        SubsGrowIsGrown(s, s);
      }
    case _ =>
      SubsGrowIsGrown(s, s);
  }

  lemma {:induction false} ObserveKeysGrows(s: State, o: ObjId, ks: seq<string>, f: nat)
    requires CellsAllocated(s)
    requires ks == [] || o in s.objs
    ensures CellsAllocated(ObserveKeys(s, o, ks, f))
    ensures Grown(s, ObserveKeys(s, o, ks, f))
    ensures s.target.None? ==> Quiet(s, ObserveKeys(s, o, ks, f))
    ensures Valid(s) ==> Valid(ObserveKeys(s, o, ks, f))
    decreases f + 1, 1, |ks|
  {
    if ks == [] {
      SubsGrowIsGrown(s, s);
    } else {
      var s1 := DefineReactive(s, o, ks[0], f);
      DefineReactiveGrows(s, o, ks[0], f);
      ObserveKeysGrows(s1, o, ks[1..], f);
      GrownTrans(s, s1, ObserveKeys(s1, o, ks[1..], f));
      if s.target.None? {
        QuietTrans(s, s1, ObserveKeys(s1, o, ks[1..], f));
      }
    }
  }

  lemma {:induction false} DefineReactiveGrows(s: State, o: ObjId, key: string, f: nat)
    requires CellsAllocated(s)
    requires o in s.objs
    ensures CellsAllocated(DefineReactive(s, o, key, f))
    ensures Grown(s, DefineReactive(s, o, key, f))
    ensures s.target.None? ==> Quiet(s, DefineReactive(s, o, key, f))
    ensures Valid(s) ==> Valid(DefineReactive(s, o, key, f))
    decreases f + 1, 0, 0
  {
    var read := Get(s, Ref(o), key);
    var value := read.result.value;
    var s1 := Observe(read.state, value, f);
    var t := Wrap(s1, o, key, value);
    SubsGrowIsGrown(s, read.state);
    ObserveGrows(read.state, value, f);
    GrownTrans(s, read.state, s1);
    WrapFacts(s1, o, key, value);
    assert Grown(s, t) by {
      forall o', k ensures ValueOf(t, o', k) == ValueOf(s, o', k) {
        if o' == o && k == key {
          assert ValueOf(s, o, key) == value;
        } else {
          assert ValueOf(t, o', k) == ValueOf(s1, o', k);
        }
      }
      forall o', k ensures SlotOf(t, o', k) == SlotOf(s, o', k) || FreshAccessor(s, t, SlotOf(t, o', k)) {
        if o' == o && k == key {
          assert FreshAccessor(s, t, SlotOf(t, o', k));
        } else {
          assert SlotOf(t, o', k) == SlotOf(s1, o', k);
          assert SlotOf(s1, o', k) == SlotOf(s, o', k) || FreshAccessor(s, s1, SlotOf(s1, o', k));
        }
      }
      forall c | 0 <= c < |s.cells| ensures t.cells[c].value == s.cells[c].value && s.cells[c].subs <= t.cells[c].subs {
        assert t.cells[c] == s1.cells[c];
      }
    }
    if s.target.None? {
      assert read.state == s;
      QuietTrans(s, s1, t);
    }
    if Valid(s) {
      GetValid(s, Ref(o), key);
    }
  }

  /** Allocating the Dep and installing the accessor touches nothing but that key and that cell. */
  lemma WrapFacts(s: State, o: ObjId, key: string, value: Value)
    requires CellsAllocated(s)
    requires o in s.objs
    ensures var t := Wrap(s, o, key, value);
      CellsAllocated(t) && Quiet(s, t) && |t.cells| == |s.cells| + 1 &&
      t.cells[|s.cells|] == Cell(value, []) &&
      SlotOf(t, o, key) == Some(Accessor(|s.cells|)) && ValueOf(t, o, key) == value &&
      t.objs.Keys == s.objs.Keys && (forall p :: p in s.objs ==> t.objs[p].keys == s.objs[p].keys) &&
      (forall p, k :: p != o || k != key ==> SlotOf(t, p, k) == SlotOf(s, p, k) && ValueOf(t, p, k) == ValueOf(s, p, k)) &&
      t.roots == s.roots && t.watchers == s.watchers && t.log == s.log && t.target == s.target &&
      (Valid(s) ==> Valid(t))
  {
    var t := Wrap(s, o, key, value);
    forall p, k | p != o || k != key ensures SlotOf(t, p, k) == SlotOf(s, p, k) && ValueOf(t, p, k) == ValueOf(s, p, k) {
      if SlotOf(s, p, k).Some? && SlotOf(s, p, k).value.Accessor? {
        assert CellOf(t, SlotOf(s, p, k).value.cell) == CellOf(s, SlotOf(s, p, k).value.cell);
      }
    }
    assert CellsAllocated(t) by {
      forall p, k | p in t.objs && k in t.objs[p].slots && t.objs[p].slots[k].Accessor?
        ensures t.objs[p].slots[k].cell < |t.cells|
      {
        if p != o || k != key {
          assert t.objs[p].slots[k] == s.objs[p].slots[k];
        }
      }
    }
    if Valid(s) {
      assert SubsAllocated(t) by {
        forall d, i | 0 <= d < |t.cells| && 0 <= i < |t.cells[d].subs| ensures t.cells[d].subs[i] < |t.watchers| {
          assert d < |s.cells|;
          assert t.cells[d] == s.cells[d];
        }
      }
    }
  }

  /** Boundedness only depends on keys and values, which `Grown` preserves. */
  lemma {:induction false} BoundedStable(s: State, t: State, data: Value, h: nat)
    requires SameData(s, t)
    requires Bounded(s, data, h)
    ensures Bounded(t, data, h)
    decreases h
  {
    if data.Ref? {
      assert ObjOf(t, data.obj).keys == ObjOf(s, data.obj).keys;
      forall k | k in ObjOf(t, data.obj).keys ensures h > 0 && Bounded(t, ValueOf(t, data.obj, k), h - 1) {
        BoundedStable(s, t, ValueOf(s, data.obj, k), h - 1);
      }
    }
  }

  // ---- every key reachable within the bound ends up behind a fresh accessor ----

  /** The slot is an accessor over an allocated cell numbered at least `lo`. */
  ghost predicate FreshFrom(s: State, slot: Option<Slot>, lo: nat) {
    slot.Some? && slot.value.Accessor? && lo <= slot.value.cell < |s.cells|
  }

  /** Every key of `data` and of the objects nested in it, down to depth `h`, is reactive over a cell `>= lo`. */
  ghost predicate WrappedFrom(s: State, data: Value, h: nat, lo: nat)
    decreases h
  {
    data.Ref? ==>
      forall k :: k in ObjOf(s, data.obj).keys ==>
        h > 0 && FreshFrom(s, SlotOf(s, data.obj, k), lo) && WrappedFrom(s, ValueOf(s, data.obj, k), h - 1, lo)
  }

  lemma {:induction false} WrappedStable(s: State, t: State, data: Value, h: nat, lo: nat)
    requires Grown(s, t) && lo <= |s.cells|
    requires WrappedFrom(s, data, h, lo)
    ensures WrappedFrom(t, data, h, lo)
    decreases h
  {
    if data.Ref? {
      var o := data.obj;
      forall k | k in ObjOf(t, o).keys
        ensures h > 0 && FreshFrom(t, SlotOf(t, o, k), lo) && WrappedFrom(t, ValueOf(t, o, k), h - 1, lo)
      {
        assert k in ObjOf(s, o).keys;
        assert SlotOf(t, o, k) == SlotOf(s, o, k) || FreshAccessor(s, t, SlotOf(t, o, k));
        WrappedStable(s, t, ValueOf(s, o, k), h - 1, lo);
      }
    }
  }

  lemma {:induction false} WrappedWeaken(s: State, data: Value, h: nat, lo: nat, lo': nat)
    requires lo' <= lo
    requires WrappedFrom(s, data, h, lo)
    ensures WrappedFrom(s, data, h, lo')
    decreases h
  {
    if data.Ref? {
      forall k | k in ObjOf(s, data.obj).keys ensures WrappedFrom(s, ValueOf(s, data.obj, k), h - 1, lo') {
        WrappedWeaken(s, ValueOf(s, data.obj, k), h - 1, lo, lo');
      }
    }
  }

  /**
   * After `observer(data)` on a value with no nesting deeper than `h`, every own key of
   * `data` and of every object nested in it is reactive over a cell allocated by this call.
   */
  lemma {:induction false} ObserveWraps(s: State, data: Value, h: nat)
    requires CellsAllocated(s)
    requires Bounded(s, data, h)
    ensures WrappedFrom(Observe(s, data, h), data, h, |s.cells|)
    decreases h, 2, 0
  {
    if data.Ref? {
      var o := data.obj;
      var keys := ObjOf(s, o).keys;
      if keys != [] {
        assert keys[0] in keys;
        ObserveKeysWraps(s, o, keys, h - 1);
        ObserveKeysGrows(s, o, keys, h - 1);
      } else {
        SubsGrowIsGrown(s, s);
        ObserveGrows(s, data, h);
      }
    }
  }

  lemma {:induction false} ObserveKeysWraps(s: State, o: ObjId, ks: seq<string>, f: nat)
    requires CellsAllocated(s)
    requires ks == [] || o in s.objs
    requires forall k :: k in ks ==> Bounded(s, ValueOf(s, o, k), f)
    ensures var t := ObserveKeys(s, o, ks, f);
      forall k :: k in ks ==>
        FreshFrom(t, SlotOf(t, o, k), |s.cells|) && WrappedFrom(t, ValueOf(t, o, k), f, |s.cells|)
    decreases f + 1, 1, |ks|
  {
    if ks != [] {
      var s1 := DefineReactive(s, o, ks[0], f);
      var t := ObserveKeys(s1, o, ks[1..], f);
      DefineReactiveGrows(s, o, ks[0], f);
      DefineReactiveWraps(s, o, ks[0], f);
      forall k | k in ks[1..] ensures Bounded(s1, ValueOf(s1, o, k), f) {
        BoundedStable(s, s1, ValueOf(s, o, k), f);
      }
      ObserveKeysWraps(s1, o, ks[1..], f);
      ObserveKeysGrows(s1, o, ks[1..], f);
      forall k | k in ks ensures FreshFrom(t, SlotOf(t, o, k), |s.cells|) && WrappedFrom(t, ValueOf(t, o, k), f, |s.cells|) {
        if k in ks[1..] {
          WrappedWeaken(t, ValueOf(t, o, k), f, |s1.cells|, |s.cells|);
        } else {
          assert k == ks[0];
          assert SlotOf(t, o, k) == SlotOf(s1, o, k) || FreshAccessor(s1, t, SlotOf(t, o, k));
          WrappedStable(s1, t, ValueOf(s1, o, k), f, |s.cells|);
        }
      }
    }
  }

  /**
   * `defineReactive` wraps the nested value first (`observer(value)`) and only then allocates
   * the key's own Dep: every cell of the nested wrap is numbered below the key's cell.
   */
  lemma {:induction false} DefineReactiveWraps(s: State, o: ObjId, key: string, f: nat)
    requires CellsAllocated(s)
    requires o in s.objs
    requires Bounded(s, ValueOf(s, o, key), f)
    ensures var t := DefineReactive(s, o, key, f);
      var nested := Observe(Get(s, Ref(o), key).state, ValueOf(s, o, key), f);
      WrappedFrom(nested, ValueOf(s, o, key), f, |s.cells|) &&
      t.cells[..|nested.cells|] == nested.cells &&
      SlotOf(t, o, key) == Some(Accessor(|nested.cells|)) &&
      FreshFrom(t, SlotOf(t, o, key), |s.cells|) && WrappedFrom(t, ValueOf(t, o, key), f, |s.cells|)
    decreases f + 1, 0, 0
  {
    var read := Get(s, Ref(o), key);
    var value := read.result.value;
    var nested := Observe(read.state, value, f);
    var t := Wrap(nested, o, key, value);
    SubsGrowIsGrown(s, read.state);
    BoundedStable(s, read.state, value, f);
    ObserveWraps(read.state, value, f);
    ObserveGrows(read.state, value, f);
    WrapFacts(nested, o, key, value);
    assert Grown(nested, t) by {
      forall p, k ensures ValueOf(t, p, k) == ValueOf(nested, p, k) {
        if p == o && k == key {
          assert ValueOf(nested, o, key) == ValueOf(read.state, o, key) == value;
        }
      }
      forall p, k ensures SlotOf(t, p, k) == SlotOf(nested, p, k) || FreshAccessor(nested, t, SlotOf(t, p, k)) {
      }
      forall c | 0 <= c < |nested.cells| ensures t.cells[c] == nested.cells[c] {
        assert t.cells[..|nested.cells|] == nested.cells;
      }
    }
    WrappedStable(nested, t, value, f, |s.cells|);
  }

  /**
   * `observer(data)` outside any tracked read, on data nested at most `h` deep: it changes no
   * value, object or key list, creates no watcher and makes no callback; every key reachable
   * from `data` ends up reactive over a Dep allocated by this call, and all those Deps are
   * empty. On a primitive, `null` or `undefined` it changes nothing at all.
   */
  lemma ObserveSpec(s: State, data: Value, h: nat)
    requires Valid(s) && s.target.None? && Bounded(s, data, h)
    ensures var t := Observe(s, data, h);
      Valid(t) && SameData(s, t) && Quiet(s, t) && WrappedFrom(t, data, h, |s.cells|) &&
      t.roots == s.roots && t.watchers == s.watchers && t.log == s.log && t.target.None? &&
      (!data.Ref? ==> t == s)
  {
    ObserveGrows(s, data, h);
    ObserveWraps(s, data, h);
  }

  // ---- every Dep belongs to exactly one property ----

  /** No two slots are accessors over the same cell: each Dep is owned by one property. */
  ghost predicate OneSlotPerCell(s: State) {
    forall o, k, p, j :: IsAccessor(SlotOf(s, o, k)) && SlotOf(s, p, j) == SlotOf(s, o, k) ==> o == p && k == j
  }

  /** The new accessor's cell is numbered above every cell an existing slot uses, so it is not shared. */
  lemma WrapUnshared(s: State, o: ObjId, key: string, value: Value)
    requires CellsAllocated(s) && o in s.objs && OneSlotPerCell(s)
    ensures OneSlotPerCell(Wrap(s, o, key, value))
  {
    var t := Wrap(s, o, key, value);
    WrapFacts(s, o, key, value);
    forall x: ObjId, y: string, p: ObjId, j: string | IsAccessor(SlotOf(t, x, y)) && SlotOf(t, p, j) == SlotOf(t, x, y)
      ensures x == p && y == j
    {
      if (x, y) != (o, key) && (p, j) != (o, key) {
        assert SlotOf(s, p, j) == SlotOf(s, x, y);
      }
    }
  }

  lemma {:induction false} ObserveUnshared(s: State, data: Value, h: nat)
    requires CellsAllocated(s) && OneSlotPerCell(s)
    ensures OneSlotPerCell(Observe(s, data, h))
    decreases h, 2, 0
  {
    if data.Ref? && h > 0 {
      ObserveKeysUnshared(s, data.obj, ObjOf(s, data.obj).keys, h - 1);
    }
  }

  lemma {:induction false} ObserveKeysUnshared(s: State, o: ObjId, ks: seq<string>, f: nat)
    requires CellsAllocated(s) && OneSlotPerCell(s)
    requires ks == [] || o in s.objs
    ensures OneSlotPerCell(ObserveKeys(s, o, ks, f))
    decreases f + 1, 1, |ks|
  {
    if ks != [] {
      var s1 := DefineReactive(s, o, ks[0], f);
      DefineReactiveUnshared(s, o, ks[0], f);
      DefineReactiveGrows(s, o, ks[0], f);
      ObserveKeysUnshared(s1, o, ks[1..], f);
    }
  }

  lemma {:induction false} DefineReactiveUnshared(s: State, o: ObjId, key: string, f: nat)
    requires CellsAllocated(s) && OneSlotPerCell(s) && o in s.objs
    ensures OneSlotPerCell(DefineReactive(s, o, key, f))
    decreases f + 1, 0, 0
  {
    var read := Get(s, Ref(o), key);
    var value := read.result.value;
    var nested := Observe(read.state, value, f);
    assert forall x, y :: SlotOf(read.state, x, y) == SlotOf(s, x, y);
    SubsGrowIsGrown(s, read.state);
    ObserveUnshared(read.state, value, f);
    ObserveGrows(read.state, value, f);
    WrapUnshared(nested, o, key, value);
  }
}
