/** What `Watcher` construction and `update()` do (watcher.js). */
module WatcherFacts {
  import opened Values
  import opened Heap
  import opened Semantics

  /**
   * `update()` with `Dep.target` null: the callback fires, once and with the new value only,
   * exactly when the re-read value differs from the stored one; otherwise nothing changes.
   * Nothing is registered anywhere, and no other watcher is touched.
   */
  lemma UpdateSpec(s: State, w: WatcherId)
    requires Valid(s) && s.target.None? && w < |s.watchers|
    ensures var v := Current(s, w);
      Update(s, w) ==
        if v != s.watchers[w].value then
          s.(watchers := s.watchers[w := s.watchers[w].(value := v)], log := s.log + [Callback(w, v)])
        else s
  {
    var me := s.watchers[w];
    assert !Nullish(RootData(s, me.vm));
  }

  /**
   * `new Watcher(vm, prop, cb)`. Whatever `Dep.target` held before, it is null afterwards.
   * The new watcher stores the value `vm.$data[prop]` had, the callback is not called, and
   * the watcher is appended exactly once to the Dep of that one top-level property (if it
   * is reactive) and to no other Dep.
   */
  lemma WatchSpec(s: State, vm: RootId, prop: string)
    requires Valid(s) && vm < |s.roots|
    ensures var r := Watch(s, vm, prop);
      var data := s.roots[vm].data;
      r.id == |s.watchers| &&
      r.state.target.None? &&
      r.state.watchers == s.watchers + [Watcher(vm, prop, Peek(s, data, prop))] &&
      r.state.log == s.log &&
      r.state.objs == s.objs && r.state.roots == s.roots &&
      r.state.cells ==
        if data.Ref? && SlotOf(s, data.obj, prop).Some? && SlotOf(s, data.obj, prop).value.Accessor?
           && SlotOf(s, data.obj, prop).value.cell < |s.cells|
        then
          var c := SlotOf(s, data.obj, prop).value.cell;
          s.cells[c := Cell(s.cells[c].value, s.cells[c].subs + [r.id])]
        else s.cells
  {
  }

  /**
   * The clear at the end of `get` is unconditional: a watcher constructed while another
   * one is the active reader leaves the slot null, so the outer reader's later reads
   * register nothing.
   */
  lemma NestedWatchLosesOuter(s: State, vm: RootId, prop: string, outer: WatcherId, o: ObjId, key: string)
    requires Valid(s) && vm < |s.roots| && s.target == Some(outer)
    ensures var t := Watch(s, vm, prop).state;
      Get(t, Ref(o), key).state == t
  {
    WatchSpec(s, vm, prop);
  }
}
