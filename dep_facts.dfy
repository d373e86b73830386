/** The getter, the setter and `Dep.notify` of a reactive property (observer.js). */
module DepFacts {
  import opened Values
  import opened Heap
  import opened Semantics
  import WatcherFacts

  // ---- getter ----

  /** With `Dep.target` null a read returns the stored value and changes nothing at all. */
  lemma ReadUntracked(s: State, o: ObjId, key: string)
    requires s.target.None?
    ensures Get(s, Ref(o), key) == Outcome(s, Ok(ValueOf(s, o, key)))
  {
  }

  /**
   * With `Dep.target == w` a read of a reactive property appends `w` to the end of that
   * property's Dep and changes nothing else; a read of a plain property changes nothing.
   */
  lemma ReadTracked(s: State, o: ObjId, key: string, w: WatcherId)
    requires s.target == Some(w)
    ensures Get(s, Ref(o), key) == Outcome(
      match SlotOf(s, o, key)
      case Some(Accessor(c)) =>
        if c < |s.cells| then s.(cells := s.cells[c := Cell(s.cells[c].value, s.cells[c].subs + [w])]) else s
      case _ => s,
      Ok(ValueOf(s, o, key)))
  {
  }

  /** `addSub` does not deduplicate: two tracked reads by the same watcher register it twice. */
  lemma ReadTrackedTwice(s: State, o: ObjId, key: string, w: WatcherId, c: CellId)
    requires s.target == Some(w)
    requires SlotOf(s, o, key) == Some(Accessor(c)) && c < |s.cells|
    ensures Get(Get(s, Ref(o), key).state, Ref(o), key).state.cells[c].subs == s.cells[c].subs + [w, w]
  {
    var s1 := Get(s, Ref(o), key).state;
    assert s1.cells[c].subs == s.cells[c].subs + [w];
  }

  // ---- notify ----

  /** `ws` without any occurrence of `w`. */
  function Without(ws: seq<WatcherId>, w: WatcherId): (r: seq<WatcherId>)
    ensures |r| <= |ws|
    ensures forall x :: x in r <==> x in ws && x != w
  {
    if ws == [] then [] else (if ws[0] == w then [] else [ws[0]]) + Without(ws[1..], w)
  }

  /**
   * The callbacks a notification over `ws` makes when every listed watcher now reads `v`:
   * in list order, one for the first occurrence of each watcher whose stored value is not `v`.
   * Later occurrences of a watcher find `v` already stored and make none.
   */
  function Fired(watchers: seq<Watcher>, ws: seq<WatcherId>, v: Value): seq<Callback>
    decreases |ws|
  {
    if ws == [] then []
    else
      var rest := Fired(watchers, Without(ws[1..], ws[0]), v);
      if ws[0] < |watchers| && watchers[ws[0]].value != v then [Callback(ws[0], v)] + rest else rest
  }

  lemma WithoutCons(a: WatcherId, ws: seq<WatcherId>, w: WatcherId)
    ensures Without([a] + ws, w) == (if a == w then [] else [a]) + Without(ws, w)
  {
    assert ([a] + ws)[1..] == ws;
  }

  lemma {:induction false} WithoutCommutes(ws: seq<WatcherId>, x: WatcherId, y: WatcherId)
    ensures Without(Without(ws, x), y) == Without(Without(ws, y), x)
    decreases |ws|
  {
    if ws != [] {
      var a, r := ws[0], ws[1..];
      assert ws == [a] + r;
      WithoutCons(a, r, x);
      WithoutCons(a, r, y);
      WithoutCommutes(r, x, y);
      if a == x {
        assert Without(ws, x) == Without(r, x);
      } else {
        WithoutCons(a, Without(r, x), y);
      }
      if a == y {
        assert Without(ws, y) == Without(r, y);
      } else {
        WithoutCons(a, Without(r, y), x);
      }
    }
  }

  /** A watcher that already stores `v` contributes no callback, wherever it occurs. */
  lemma {:induction false} FiredSkips(watchers: seq<Watcher>, ws: seq<WatcherId>, v: Value, w: WatcherId)
    requires w < |watchers| && watchers[w].value == v
    ensures Fired(watchers, ws, v) == Fired(watchers, Without(ws, w), v)
    decreases |ws|
  {
    if ws != [] {
      var x, r := ws[0], ws[1..];
      assert ws == [x] + r;
      WithoutCons(x, r, w);
      if x == w {
        assert Without(ws, w) == Without(r, w);
      } else {
        var rw := Without(r, w);
        assert ([x] + rw)[1..] == rw;
        WithoutCommutes(r, w, x);
        FiredSkips(watchers, Without(r, x), v, w);
      }
    }
  }

  /** Callbacks only depend on the stored values of the watchers listed. */
  lemma {:induction false} FiredFrame(watchers: seq<Watcher>, ws: seq<WatcherId>, v: Value, w: WatcherId, me: Watcher)
    requires w < |watchers| && w !in ws
    ensures Fired(watchers[w := me], ws, v) == Fired(watchers, ws, v)
    decreases |ws|
  {
    if ws != [] {
      FiredFrame(watchers, Without(ws[1..], ws[0]), v, w, me);
    }
  }

  /**
   * The first entry of `ws` contributes its callback (if its stored value is not `v`), and the
   * rest of the list is then judged with that watcher storing `v`, duplicates included.
   */
  lemma FiredStep(watchers: seq<Watcher>, ws: seq<WatcherId>, v: Value)
    requires ws != [] && ws[0] < |watchers|
    ensures var w := ws[0];
      Fired(watchers, ws, v) ==
        (if watchers[w].value != v then [Callback(w, v)] else []) +
        Fired(watchers[w := watchers[w].(value := v)], ws[1..], v)
  {
    var w := ws[0];
    var stored := watchers[w := watchers[w].(value := v)];
    var rest := Without(ws[1..], w);
    FiredSkips(stored, ws[1..], v, w);
    FiredFrame(watchers, rest, v, w, stored[w]);
  }

  /** Every watcher in `ws` re-reads the property behind cell `c`. */
  ghost predicate ReadThrough(s: State, ws: seq<WatcherId>, c: CellId) {
    forall w :: w in ws ==>
      w < |s.watchers| && RootData(s, s.watchers[w].vm).Ref? &&
      SlotOf(s, RootData(s, s.watchers[w].vm).obj, s.watchers[w].prop) == Some(Accessor(c))
  }

  /**
   * One `update()` with `Dep.target` null: the state stays well formed, and only the
   * watcher's stored value and the log may change.
   */
  lemma UpdateStep(s: State, w: WatcherId)
    requires Valid(s) && s.target.None? && w < |s.watchers|
    ensures var s1 := Update(s, w);
      var v := Current(s, w);
      Valid(s1) && s1.target.None? && s1.objs == s.objs && s1.cells == s.cells && s1.roots == s.roots &&
      s1.watchers == s.watchers[w := s.watchers[w].(value := v)] &&
      s1.log == s.log + (if v != s.watchers[w].value then [Callback(w, v)] else [])
  {
    WatcherFacts.UpdateSpec(s, w);
    var s1 := Update(s, w);
    assert VmsMounted(s1) by {
      forall i | 0 <= i < |s1.watchers| ensures s1.watchers[i].vm < |s1.roots| {
        assert s1.watchers[i].vm == s.watchers[i].vm;
      }
    }
  }

  /**
   * With `Dep.target` null, notifying `ws` touches no property and no Dep: only the stored
   * values of the watchers in `ws` and the callback log change, the log only grows, and
   * every callback it gains is one of a watcher in `ws`.
   */
  lemma {:induction false} NotifyAllFrame(s: State, ws: seq<WatcherId>)
    requires Valid(s) && s.target.None?
    requires forall w :: w in ws ==> w < |s.watchers|
    ensures var t := NotifyAll(s, ws);
      Valid(t) && t.objs == s.objs && t.cells == s.cells && t.roots == s.roots && t.target.None? &&
      |t.watchers| == |s.watchers| && s.log <= t.log &&
      (forall i :: |s.log| <= i < |t.log| ==> t.log[i].watcher in ws) &&
      (forall i :: 0 <= i < |s.watchers| ==>
        t.watchers[i].vm == s.watchers[i].vm && t.watchers[i].prop == s.watchers[i].prop) &&
      (forall i :: 0 <= i < |s.watchers| && i !in ws ==> t.watchers[i] == s.watchers[i])
    decreases |ws|
  {
    if ws != [] {
      assert ws[0] in ws;
      var s1 := Update(s, ws[0]);
      UpdateStep(s, ws[0]);
      forall x | x in ws[1..] ensures x < |s1.watchers| {
        assert x in ws;
      }
      NotifyAllFrame(s1, ws[1..]);
      var t := NotifyAll(s, ws);
      forall i | |s.log| <= i < |t.log| ensures t.log[i].watcher in ws {
        if i < |s1.log| {
          assert t.log[i] == s1.log[i] == Callback(ws[0], Current(s, ws[0]));
        } else {
          assert t.log[i].watcher in ws[1..];
        }
      }
    }
  }

  /** Every watcher in `ws` now re-reads `v`. */
  ghost predicate AllRead(s: State, ws: seq<WatcherId>, v: Value) {
    forall w :: w in ws ==> w < |s.watchers| && Current(s, w) == v
  }

  /** A notification over `ws` can start: the state is well formed, no read is tracked, and every listed watcher re-reads `v`. */
  ghost predicate Ready(s: State, ws: seq<WatcherId>, v: Value) {
    Valid(s) && s.target.None? && AllRead(s, ws, v)
  }

  /**
   * The first `update()` of such a notification stores `v` in its watcher, calls back iff the
   * stored value was not `v`, and leaves the rest of the notification ready.
   */
  lemma NotifyStep(s: State, ws: seq<WatcherId>, v: Value)
    requires ws != [] && Ready(s, ws, v)
    ensures var w := ws[0];
      var s1 := Update(s, w);
      w < |s.watchers| && Ready(s1, ws[1..], v) &&
      s1.watchers == s.watchers[w := s.watchers[w].(value := v)] &&
      s1.log == s.log + (if s.watchers[w].value != v then [Callback(w, v)] else [])
  {
    var w := ws[0];
    assert w in ws;
    UpdateStep(s, w);
    var s1 := Update(s, w);
    forall x | x in ws[1..] ensures x < |s1.watchers| && Current(s1, x) == v {
      assert x in ws;
      assert s1.watchers[x].vm == s.watchers[x].vm && s1.watchers[x].prop == s.watchers[x].prop;
    }
  }

  lemma AppendAssoc(a: seq<Callback>, b: seq<Callback>, c: seq<Callback>)
    ensures (a + b) + c == a + (b + c)
  {
    assert forall i :: 0 <= i < |a| + |b| + |c| ==> ((a + b) + c)[i] == (a + (b + c))[i];
  }

  /** The callbacks of a notification when every subscriber re-reads `v` are exactly `Fired`. */
  lemma {:induction false} NotifyAllLog(s: State, ws: seq<WatcherId>, v: Value)
    requires Ready(s, ws, v)
    ensures NotifyAll(s, ws).log == s.log + Fired(s.watchers, ws, v)
    decreases |ws|
  {
    if ws != [] {
      var w := ws[0];
      NotifyStep(s, ws, v);
      var s1 := Update(s, w);
      var first := if s.watchers[w].value != v then [Callback(w, v)] else [];
      var later := Fired(s1.watchers, ws[1..], v);
      NotifyAllLog(s1, ws[1..], v);
      assert NotifyAll(s, ws).log == (s.log + first) + later;
      FiredStep(s.watchers, ws, v);
      assert Fired(s.watchers, ws, v) == first + later;
      AppendAssoc(s.log, first, later);
    }
  }

  /** After a notification in which every subscriber re-reads `v`, every subscriber stores `v`. */
  lemma {:induction false} NotifyAllStores(s: State, ws: seq<WatcherId>, v: Value)
    requires Ready(s, ws, v)
    ensures var t := NotifyAll(s, ws);
      |t.watchers| == |s.watchers| &&
      forall i :: 0 <= i < |s.watchers| ==>
        t.watchers[i] == if i in ws then s.watchers[i].(value := v) else s.watchers[i]
    decreases |ws|
  {
    if ws != [] {
      var w := ws[0];
      NotifyStep(s, ws, v);
      var s1 := Update(s, w);
      NotifyAllStores(s1, ws[1..], v);
      var t := NotifyAll(s1, ws[1..]);
      forall i | 0 <= i < |s.watchers|
        ensures t.watchers[i] == if i in ws then s.watchers[i].(value := v) else s.watchers[i]
      {
        if i != w {
          assert (i in ws) == (i in ws[1..]);
        }
      }
    }
  }

  /**
   * `notify()` when every subscriber now reads `v`: it calls `update()` once per entry, in
   * insertion order, duplicates included; the callbacks made are exactly `Fired`, and every
   * subscriber ends up storing `v`.
   */
  lemma NotifyAllFires(s: State, ws: seq<WatcherId>, v: Value)
    requires Valid(s) && s.target.None?
    requires forall w :: w in ws ==> w < |s.watchers| && Current(s, w) == v
    ensures var t := NotifyAll(s, ws);
      t.log == s.log + Fired(s.watchers, ws, v) &&
      |t.watchers| == |s.watchers| &&
      forall i :: 0 <= i < |s.watchers| ==>
        t.watchers[i] == if i in ws then s.watchers[i].(value := v) else s.watchers[i]
  {
    NotifyAllLog(s, ws, v);
    NotifyAllStores(s, ws, v);
  }

  // ---- setter ----

  /** Writing the value a reactive property already holds (`===`) changes nothing: no store, no notify. */
  lemma WriteSame(s: State, o: ObjId, key: string, v: Value)
    requires SlotOf(s, o, key).Some? && SlotOf(s, o, key).value.Accessor?
    requires ValueOf(s, o, key) == v && SlotOf(s, o, key).value.cell < |s.cells|
    ensures Set(s, Ref(o), key, v) == Outcome(s, Ok(()))
  {
  }

  /** Storing a value in a cell keeps the state well formed; its subscribers are watchers. */
  lemma StoreValid(s: State, c: CellId, v: Value)
    requires Valid(s) && c < |s.cells|
    ensures Valid(s.(cells := s.cells[c := Cell(v, s.cells[c].subs)]))
    ensures forall w :: w in s.cells[c].subs ==> w < |s.watchers|
  {
    var s1 := s.(cells := s.cells[c := Cell(v, s.cells[c].subs)]);
    assert SubsAllocated(s1) by {
      forall d, i | 0 <= d < |s1.cells| && 0 <= i < |s1.cells[d].subs| ensures s1.cells[d].subs[i] < |s1.watchers| {
        assert s1.cells[d].subs == s.cells[d].subs;
      }
    }
    forall w | w in s.cells[c].subs ensures w < |s.watchers| {
      var i :| 0 <= i < |s.cells[c].subs| && s.cells[c].subs[i] == w;
    }
  }

  /**
   * When the subscribers of cell `c` re-read it, storing `v` there and notifying them calls
   * back exactly `Fired` over them with `v`.
   */
  lemma StoreFires(s: State, c: CellId, v: Value)
    requires Valid(s) && s.target.None? && c < |s.cells| && ReadThrough(s, s.cells[c].subs, c)
    ensures var ws := s.cells[c].subs;
      NotifyAll(s.(cells := s.cells[c := Cell(v, ws)]), ws).log == s.log + Fired(s.watchers, ws, v)
  {
    var ws := s.cells[c].subs;
    var s1 := s.(cells := s.cells[c := Cell(v, ws)]);
    StoreValid(s, c, v);
    forall w | w in ws ensures w < |s1.watchers| && Current(s1, w) == v {
    }
    NotifyAllLog(s1, ws, v);
  }

  /**
   * Writing a different value to a reactive property stores it and runs `notify()` once,
   * over that property's Dep only. No other property, no Dep and no object changes, the
   * new value is not wrapped, watchers keep what they watch, and every callback made is one
   * of a subscriber of that Dep. When the subscribers re-read this property, the callbacks
   * made are exactly `Fired` over the Dep with the new value.
   */
  lemma WriteChanged(s: State, o: ObjId, key: string, v: Value)
    requires Valid(s) && s.target.None?
    requires SlotOf(s, o, key).Some? && SlotOf(s, o, key).value.Accessor?
    requires ValueOf(s, o, key) != v
    ensures var c := SlotOf(s, o, key).value.cell;
      var t := Set(s, Ref(o), key, v).state;
      c < |s.cells| &&
      t == NotifyAll(s.(cells := s.cells[c := Cell(v, s.cells[c].subs)]), s.cells[c].subs) &&
      t.cells == s.cells[c := Cell(v, s.cells[c].subs)] && t.objs == s.objs && t.roots == s.roots &&
      t.target.None? && s.log <= t.log && |t.watchers| == |s.watchers| &&
      (forall i :: 0 <= i < |s.watchers| ==>
        t.watchers[i].vm == s.watchers[i].vm && t.watchers[i].prop == s.watchers[i].prop) &&
      (forall i :: |s.log| <= i < |t.log| ==> t.log[i].watcher in s.cells[c].subs) &&
      (ReadThrough(s, s.cells[c].subs, c) ==> t.log == s.log + Fired(s.watchers, s.cells[c].subs, v))
  {
    var c := SlotOf(s, o, key).value.cell;
    assert o in s.objs;
    var ws := s.cells[c].subs;
    StoreValid(s, c, v);
    NotifyAllFrame(s.(cells := s.cells[c := Cell(v, ws)]), ws);
    if ReadThrough(s, ws, c) {
      StoreFires(s, c, v);
    }
  }

  /**
   * Writing a key that has no accessor (a key added after wrapping, or any key of an object
   * assigned later) is a plain store: no Dep exists for it, so no watcher is notified.
   */
  lemma WritePlain(s: State, o: ObjId, key: string, v: Value)
    requires SlotOf(s, o, key).None? || SlotOf(s, o, key).value.Plain?
    ensures var t := Set(s, Ref(o), key, v).state;
      ValueOf(t, o, key) == v && SlotOf(t, o, key) == Some(Plain(v)) &&
      t.cells == s.cells && t.watchers == s.watchers && t.log == s.log && t.target == s.target &&
      forall p :: p in s.objs && p != o ==> t.objs[p] == s.objs[p]
  {
  }
}
