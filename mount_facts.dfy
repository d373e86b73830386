/** What constructing an `mvue` root does to a state (mvue.js). */
module MountFacts {
  import opened Values
  import opened Heap
  import opened Semantics
  import opened ObserverFacts
  import Invariants

  /**
   * Reading `options.data` throws when `options` is null or undefined, and the proxy loop
   * throws on `Object.keys` when `data` is missing or null. Either way the constructor
   * throws before `observer` runs, and nothing changes.
   */
  lemma MountRejects(s: State, options: Value, h: nat)
    requires NoShadowing(s, options) && s.target.None?
    requires Nullish(options) || Nullish(Peek(s, options, "data"))
    ensures Mount(s, options, h) == Outcome(s, Err(TypeError))
  {
  }

  /**
   * When a top-level key is `init`, or is `proxyData` and not the last key, the constructor
   * calls a data value in place of a method and throws before `observer` runs: no root is
   * added and nothing changes.
   */
  lemma MountShadowed(s: State, options: Value, h: nat)
    requires NoShadowing(s, options) && s.target.None?
    requires ShadowsMethod(OwnKeys(s, Peek(s, options, "data")))
    ensures Mount(s, options, h) == Outcome(s, Err(TypeError))
  {
    assert Get(s, options, "data").state == s;
  }

  /** A key named `proxyData` is harmless in last place, and fatal anywhere before it. */
  lemma {:induction false} ProxyDataLast(ks: seq<string>)
    requires "init" !in ks && "proxyData" !in ks
    ensures !ShadowsMethod(ks + ["proxyData"])
    ensures ks != [] ==> ShadowsMethod(["proxyData"] + ks)
  {
    assert (ks + ["proxyData"])[..|ks|] == ks;
    if ks != [] {
      assert (["proxyData"] + ks)[0] == "proxyData";
    }
  }

  /**
   * A successful `new mvue(options)`: the new root is the next one, its `$data` is the very
   * object `options.data`, every own key of it is proxied, and after `observer` runs every
   * key of `data` and of the objects nested in it is reactive over a new Dep that no
   * watcher has joined yet. No value changes, no watcher is created and no callback runs.
   */
  lemma MountSpec(s: State, options: Value, h: nat)
    requires Valid(s) && s.target.None? && NoShadowing(s, options)
    requires !Nullish(options) && !Nullish(Peek(s, options, "data"))
    requires Bounded(s, Peek(s, options, "data"), h) && !ShadowsMethod(OwnKeys(s, Peek(s, options, "data")))
    ensures var data := Peek(s, options, "data");
      var r := Mount(s, options, h);
      var t := r.state;
      r.result == Ok(|s.roots|) &&
      t.roots == s.roots + [Root(options, data, OwnKeys(s, data))] &&
      t.watchers == s.watchers && t.log == s.log && t.target.None? && Valid(t) &&
      SameData(s, t) && Quiet(s, t) &&
      WrappedFrom(t, data, h, |s.cells|) &&
      (data.Ref? ==> forall k :: k in OwnKeys(s, data) ==>
        FreshFrom(t, SlotOf(t, data.obj, k), |s.cells|) &&
        t.cells[SlotOf(t, data.obj, k).value.cell] == Cell(ValueOf(s, data.obj, k), []))
  {
    var data := Peek(s, options, "data");
    assert Get(s, options, "data") == Outcome(s, Ok(data));
    var s1 := s.(roots := s.roots + [Root(options, data, OwnKeys(s, data))]);
    SubsGrowIsGrown(s, s);
    assert SameData(s, s1);
    BoundedStable(s, s1, data, h);
    Invariants.MountValid(s, options, h);
    ObserveGrows(s1, data, h);
    ObserveWraps(s1, data, h);
    var t := Observe(s1, data, h);
    assert Mount(s, options, h) == Outcome(t, Ok(|s.roots|));
    if data.Ref? {
      forall k | k in OwnKeys(s, data)
        ensures FreshFrom(t, SlotOf(t, data.obj, k), |s.cells|) &&
          t.cells[SlotOf(t, data.obj, k).value.cell] == Cell(ValueOf(s, data.obj, k), [])
      {
        assert k in ObjOf(t, data.obj).keys;
        var c := SlotOf(t, data.obj, k).value.cell;
        assert ValueOf(t, data.obj, k) == t.cells[c].value;
      }
    }
  }
}
