/**
 * The behaviour of the reactive core as functions on `State`. Each function that has a method
 * of the same name in `Reactive.Store` is the specification that method is proved to meet;
 * `Track`, `NotifyAll`, `ObserveKeys` and `Wrap` are steps the Store performs inline.
 */
module Semantics {
  import opened Values
  import opened Heap

  /** The state after an operation and what it returned or threw. A throw leaves the state as is. */
  datatype Outcome<T> = Outcome(state: State, result: Result<T>)

  /** A constructed watcher and the state after its construction. */
  datatype Watched = Watched(state: State, id: WatcherId)

  /** Nothing but the subscriber lists may differ, and those only by growing. */
  ghost predicate OnlySubsGrow(s: State, t: State) {
    t.objs == s.objs && t.roots == s.roots && t.watchers == s.watchers &&
    t.log == s.log && t.target == s.target && |t.cells| == |s.cells| &&
    forall c :: 0 <= c < |s.cells| ==>
      t.cells[c].value == s.cells[c].value && s.cells[c].subs <= t.cells[c].subs
  }

  /**
   * No object, root or `Dep.target` changes, no cell or watcher is added or removed, and
   * callback records are only appended: the old log is a prefix of the new one.
   */
  ghost predicate Untouched(s: State, t: State) {
    t.objs == s.objs && t.roots == s.roots && t.target == s.target &&
    |t.cells| == |s.cells| && |t.watchers| == |s.watchers| && s.log <= t.log
  }

  // ---- observer.js: Dep ----

  /** `if (Dep.target) dep.addSub(Dep.target)` for the Dep of cell `c`. */
  function Track(s: State, c: CellId): (t: State)
    ensures OnlySubsGrow(s, t)
    ensures s.target.None? ==> t == s
    ensures s.target.Some? && c < |s.cells| ==>
      t.cells == s.cells[c := Cell(s.cells[c].value, s.cells[c].subs + [s.target.value])]
  {
    match s.target
    case None => s
    case Some(w) =>
      if c < |s.cells| then s.(cells := s.cells[c := s.cells[c].(subs := s.cells[c].subs + [w])]) else s
  }

  /** `dep.notify()`: `update()` on every subscriber the list held when notify began, in order. */
  function Notify(s: State, c: CellId): (t: State)
    ensures Untouched(s, t)
  {
    NotifyAll(s, CellOf(s, c).subs)
  }

  function NotifyAll(s: State, ws: seq<WatcherId>): (t: State)
    ensures Untouched(s, t)
    decreases |ws|
  {
    if ws == [] then s else NotifyAll(Update(s, ws[0]), ws[1..])
  }

  // ---- observer.js: the getter and setter of a reactive property ----

  /** The JavaScript member read `obj[key]`. */
  function Get(s: State, obj: Value, key: string): (r: Outcome<Value>)
    ensures r.result.Err? <==> Nullish(obj)
    ensures r.result.Ok? ==> r.result.value == Peek(s, obj, key)
    ensures OnlySubsGrow(s, r.state)
  {
    match obj
    case Undefined => Outcome(s, Err(TypeError))
    case Null => Outcome(s, Err(TypeError))
    case Ref(o) =>
      (match SlotOf(s, o, key)
       case None => Outcome(s, Ok(Undefined))
       case Some(Plain(v)) => Outcome(s, Ok(v))
       case Some(Accessor(c)) => Outcome(Track(s, c), Ok(CellOf(s, c).value)))
    case _ => Outcome(s, Ok(Undefined))
  }

  /** The JavaScript member assignment `obj[key] = v`. */
  function Set(s: State, obj: Value, key: string, v: Value): (r: Outcome<()>)
    ensures r.result.Err? <==> Nullish(obj)
    ensures r.result.Err? ==> r.state == s
  {
    match obj
    case Undefined => Outcome(s, Err(TypeError))
    case Null => Outcome(s, Err(TypeError))
    case Ref(o) =>
      (match SlotOf(s, o, key)
       case Some(Accessor(c)) =>
         if c < |s.cells| && s.cells[c].value != v then
           Outcome(Notify(s.(cells := s.cells[c := s.cells[c].(value := v)]), c), Ok(()))
         else
           Outcome(s, Ok(()))
       case _ => Outcome(s.(objs := Assigned(s.objs, o, key, v)), Ok(())))
    case _ => Outcome(s, Ok(()))
  }

  // ---- observer.js: defineReactive and observer ----

  /**
   * Wrapping adds no root, watcher or callback, removes no cell and leaves `Dep.target` as it
   * was. That it also changes no value and only re-points slots at new cells is
   * `ObserverFacts.Grown`, which `ObserverFacts.ObserveGrows` proves.
   */
  ghost predicate Wrapping(s: State, t: State) {
    |s.cells| <= |t.cells| && t.roots == s.roots && t.watchers == s.watchers && t.log == s.log && t.target == s.target
  }

  /**
   * `observer(data)`. The fuel `h` bounds the nesting depth; for a value that is
   * `Bounded` by `h` it is never exhausted, so the result is the source's.
   */
  function Observe(s: State, data: Value, h: nat): (t: State)
    ensures Wrapping(s, t)
    ensures !data.Ref? ==> t == s
    decreases h, 2, 0
  {
    match data
    case Ref(o) => if h == 0 then s else ObserveKeys(s, o, ObjOf(s, o).keys, h - 1)
    case _ => s
  }

  /** `Object.keys(data).forEach(key => defineReactive(data, key, data[key]))` over the keys `ks`. */
  function ObserveKeys(s: State, o: ObjId, ks: seq<string>, f: nat): (t: State)
    ensures Wrapping(s, t)
    decreases f + 1, 1, |ks|
  {
    if ks == [] then s else ObserveKeys(DefineReactive(s, o, ks[0], f), o, ks[1..], f)
  }

  /** `defineReactive(data, key, data[key])` for `data` the object `o`. */
  function DefineReactive(s: State, o: ObjId, key: string, f: nat): (t: State)
    ensures Wrapping(s, t)
    ensures |t.cells| > |s.cells| && SlotOf(t, o, key) == Some(Accessor(|t.cells| - 1))
    ensures ValueOf(t, o, key) == ValueOf(s, o, key)
    decreases f + 1, 0, 0
  {
    var read := Get(s, Ref(o), key);
    var value := read.result.value;
    Wrap(Observe(read.state, value, f), o, key, value)
  }

  /** `var dep = new Dep()` and `Object.defineProperty(data, key, ...)` closing over `value`. */
  function Wrap(s: State, o: ObjId, key: string, value: Value): (t: State)
    ensures Wrapping(s, t) && |t.cells| == |s.cells| + 1
    ensures t.cells[|s.cells|] == Cell(value, [])
    ensures SlotOf(t, o, key) == Some(Accessor(|s.cells|)) && ValueOf(t, o, key) == value
  {
    var c := |s.cells|;
    var ob := ObjOf(s, o);
    s.(cells := s.cells + [Cell(value, [])], objs := s.objs[o := ob.(slots := ob.slots[key := Accessor(c)])])
  }

  /** `data` has no chain of nested objects longer than `h`, in particular no cycle. */
  ghost predicate Bounded(s: State, data: Value, h: nat)
    decreases h
  {
    data.Ref? ==>
      forall k :: k in ObjOf(s, data.obj).keys ==> h > 0 && Bounded(s, ValueOf(s, data.obj, k), h - 1)
  }

  // ---- watcher.js ----

  /** `update()` of watcher `w`. */
  function Update(s: State, w: WatcherId): (t: State)
    ensures Untouched(s, t) && |t.log| <= |s.log| + 1
    ensures |t.log| == |s.log| + 1 ==> t.log[|s.log|].watcher == w
  {
    if w >= |s.watchers| then s
    else
      var me := s.watchers[w];
      var read := Get(s, RootData(s, me.vm), me.prop);
      if read.result.Err? then s // a mounted root's $data is never nullish (Heap.DataPresent)
      else if read.result.value != me.value then
        read.state.(watchers := read.state.watchers[w := me.(value := read.result.value)],
                    log := read.state.log + [Callback(w, read.result.value)])
      else
        read.state
  }

  /** `new Watcher(vm, prop, callback)`: `Dep.target = this`, one tracked read, `Dep.target = null`. */
  function Watch(s: State, vm: RootId, prop: string): (r: Watched)
    requires vm < |s.roots| && !Nullish(s.roots[vm].data)
    ensures r.id == |s.watchers| && r.state.target.None? && r.state.log == s.log
    ensures r.state.watchers == s.watchers + [Watcher(vm, prop, Peek(s, s.roots[vm].data, prop))]
  {
    var w := |s.watchers|;
    var s1 := s.(watchers := s.watchers + [Watcher(vm, prop, Undefined)], target := Some(w));
    var read := Get(s1, s1.roots[vm].data, prop);
    var s2 := read.state.(target := None);
    Watched(s2.(watchers := s2.watchers[w := s2.watchers[w].(value := read.result.value)]), w)
  }

  // ---- mvue.js ----

  /**
   * A top-level key named `$data` is refused: its proxy would replace the root's own `$data`
   * with a getter that reads `this.$data` again, without end, as soon as `observer` runs.
   */
  const RESERVED: set<string> := {"$data"}

  /**
   * Whether the proxies shadow a method the constructor still calls. The proxy loop looks up
   * `this.proxyData` once per key, so a key named `proxyData` that is not the last one makes
   * the next lookup find the data value; a key named `init` does the same to `this.init()`.
   * A data value is never a function, so either call throws a `TypeError`.
   */
  predicate ShadowsMethod(keys: seq<string>) {
    "init" in keys || (|keys| > 0 && "proxyData" in keys[..|keys| - 1])
  }

  ghost predicate NoShadowing(s: State, options: Value) {
    forall k :: k in OwnKeys(s, Peek(s, options, "data")) ==> k !in RESERVED
  }

  /** `new mvue(options)`, leaving out `$el` and `Compile`. */
  function Mount(s: State, options: Value, h: nat): (r: Outcome<RootId>)
    requires NoShadowing(s, options)
    ensures r.result.Err? <==>
      Nullish(options) || Nullish(Peek(s, options, "data")) || ShadowsMethod(OwnKeys(s, Peek(s, options, "data")))
    ensures r.result.Err? ==> r.state.roots == s.roots
    ensures r.result.Ok? ==>
      r.result.value == |s.roots| && |r.state.roots| == |s.roots| + 1 &&
      r.state.roots[|s.roots|].data == Peek(s, options, "data")
    ensures r.state.watchers == s.watchers && r.state.log == s.log
  {
    var read := Get(s, options, "data");
    if read.result.Err? then Outcome(read.state, Err(TypeError))
    else
      var data := read.result.value;
      if Nullish(data) || ShadowsMethod(OwnKeys(read.state, data)) then Outcome(read.state, Err(TypeError))
      else
        var r := |read.state.roots|;
        var s1 := read.state.(roots := read.state.roots + [Root(options, data, OwnKeys(read.state, data))]);
        Outcome(Observe(s1, data, h), Ok(r))
  }
}
