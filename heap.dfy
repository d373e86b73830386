/**
 * The whole mutable state of the reactive core: the object heap, the closed-over
 * value and `Dep` of every reactive property, the mounted roots, the watchers,
 * the callback log and the global `Dep.target` slot.
 */
module Heap {
  import opened Values

  type CellId = nat
  type WatcherId = nat
  type RootId = nat

  /** An own property: a plain data slot, or the getter/setter pair installed by `defineReactive`. */
  datatype Slot = Plain(value: Value) | Accessor(cell: CellId)

  /** A plain object: its own keys in enumeration order and its property slots. */
  datatype Obj = Obj(keys: seq<string>, slots: map<string, Slot>)

  /** The private `value` of one reactive property together with its `Dep.subs`. */
  datatype Cell = Cell(value: Value, subs: seq<WatcherId>)

  /** A `Watcher`: its `vm`, its `prop` and its last observed `value`. */
  datatype Watcher = Watcher(vm: RootId, prop: string, value: Value)

  /** An `mvue` instance: `$options`, `$data` and the keys it proxies, in installation order. */
  datatype Root = Root(options: Value, data: Value, proxied: seq<string>)

  /** One invocation of a watcher's callback, with its single argument. */
  datatype Callback = Callback(watcher: WatcherId, arg: Value)

  datatype State = State(
    objs: map<ObjId, Obj>,
    cells: seq<Cell>,
    roots: seq<Root>,
    watchers: seq<Watcher>,
    log: seq<Callback>,
    target: Option<WatcherId>)

  const EMPTY_OBJ := Obj([], map[])

  /**
   * The shape of every JavaScript object: no key is listed twice, and exactly the listed keys
   * have a slot.
   */
  predicate Shaped(ob: Obj) {
    (forall i, j :: 0 <= i < j < |ob.keys| ==> ob.keys[i] != ob.keys[j]) &&
    ob.slots.Keys == set k | k in ob.keys
  }

  /** The object behind an id; an id that was never allocated behaves as an empty object. */
  function ObjOf(s: State, o: ObjId): Obj {
    if o in s.objs then s.objs[o] else EMPTY_OBJ
  }

  function SlotOf(s: State, o: ObjId, key: string): Option<Slot> {
    var ob := ObjOf(s, o);
    if key in ob.slots then Some(ob.slots[key]) else None
  }

  /** The slot is the getter/setter pair of a reactive property. */
  predicate IsAccessor(slot: Option<Slot>) {
    slot.Some? && slot.value.Accessor?
  }

  function CellOf(s: State, c: CellId): Cell {
    if c < |s.cells| then s.cells[c] else Cell(Undefined, [])
  }

  /** What `obj[key]` evaluates to, without the getter's side effect. */
  function ValueOf(s: State, o: ObjId, key: string): Value {
    match SlotOf(s, o, key)
    case None => Undefined
    case Some(Plain(v)) => v
    case Some(Accessor(c)) => CellOf(s, c).value
  }

  /** `v[key]` without side effects; member access on a primitive finds nothing. */
  function Peek(s: State, v: Value, key: string): Value {
    if v.Ref? then ValueOf(s, v.obj, key) else Undefined
  }

  /** The own keys `Object.keys(v)` enumerates; primitives have none here. */
  function OwnKeys(s: State, v: Value): seq<string> {
    if v.Ref? then ObjOf(s, v.obj).keys else []
  }

  function RootData(s: State, r: RootId): Value {
    if r < |s.roots| then s.roots[r].data else Undefined
  }

  /** The value `this.vm.$data[this.prop]` of watcher `w` would read now. */
  function Current(s: State, w: WatcherId): Value {
    if w < |s.watchers| then Peek(s, RootData(s, s.watchers[w].vm), s.watchers[w].prop) else Undefined
  }

  /** Plain assignment `objs[o][key] = v` to a key that has no accessor; a new key is enumerated last. */
  function Assigned(objs: map<ObjId, Obj>, o: ObjId, key: string, v: Value): (m: map<ObjId, Obj>)
    ensures m.Keys == objs.Keys + {o}
    ensures forall p :: p in objs && p != o ==> m[p] == objs[p]
    ensures key in m[o].slots && m[o].slots[key] == Plain(v)
  {
    var ob := if o in objs then objs[o] else EMPTY_OBJ;
    objs[o := Obj(if key in ob.slots then ob.keys else ob.keys + [key], ob.slots[key := Plain(v)])]
  }

  // ---- well-formedness of a state reachable through the core's operations ----

  ghost predicate CellsAllocated(s: State) {
    forall o, k :: o in s.objs && k in s.objs[o].slots && s.objs[o].slots[k].Accessor? ==>
      s.objs[o].slots[k].cell < |s.cells|
  }

  ghost predicate SubsAllocated(s: State) {
    forall c, i :: 0 <= c < |s.cells| && 0 <= i < |s.cells[c].subs| ==> s.cells[c].subs[i] < |s.watchers|
  }

  ghost predicate TargetAllocated(s: State) {
    s.target.Some? ==> s.target.value < |s.watchers|
  }

  ghost predicate VmsMounted(s: State) {
    forall w :: 0 <= w < |s.watchers| ==> s.watchers[w].vm < |s.roots|
  }

  /** A root exists only once `Object.keys(this.$data)` has succeeded, so its data is not nullish. */
  ghost predicate DataPresent(s: State) {
    forall r :: 0 <= r < |s.roots| ==> !Nullish(s.roots[r].data)
  }

  ghost predicate Valid(s: State) {
    CellsAllocated(s) && SubsAllocated(s) && TargetAllocated(s) && VmsMounted(s) && DataPresent(s)
  }
}
