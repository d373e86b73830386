# Reactive dependency tracking (myvue core), modelled in Dafny

This project models the dependency-tracking core of the `myvue` reactive library:

- `observer` / `defineReactive` (js/observer.js) turn every own key of a data tree into a
  getter/setter pair over a private value and a `Dep`.
- `Dep` keeps an append-only list of watchers and `notify`s them in order.
- The global `Dep.target` slot links a tracked read to a registration.
- `Watcher` (js/watcher.js) registers itself with one top-level property by a tracked read
  and re-reads it on `update()`, calling back only when the value changed under `!==`.
- The `mvue` constructor (js/mvue.js) binds `$data` and installs root-level proxies
  (`root.key` ⇄ `root.$data.key`) before running `observer`.

## Layout

- `values.dfy` (`Values`): JavaScript values (`undefined`, `null`, booleans, integers,
  strings, object references). `!==` is datatype inequality, so objects compare by identity.
  Three sources of `TypeError` are `Err` results: a member access on `null`/`undefined`,
  `Object.keys` of `null`/`undefined`, and a call of a data value that shadows `init` or
  `proxyData`.
- `heap.dfy` (`Heap`): the whole state as one value `State`:
  - the object heap, where each slot is `Plain` or an `Accessor` over a cell;
  - the cells, each one the closed-over `value` together with its `Dep.subs`;
  - the mounted roots and the watchers (`vm`, `prop`, last `value`);
  - the callback log;
  - `Dep.target`.

  `Heap.Valid` says that no index dangles (every cell, subscriber, watcher, `Dep.target` and
  root index is in range) and that every mounted root's `$data` is neither `null` nor
  `undefined`.
- `semantics.dfy` (`Semantics`): each operation of the source as a function on `State`.
  These functions are the specification.
- `store.dfy` (`Reactive.Store`): the imperative model. It is one class whose fields are
  the parts of `State` and which its methods update in place. Each method has a `while`
  loop where the source has a `forEach`. `Get`, `Set`, `Notify`, `Update`, `Observe`,
  `DefineReactive`, `Watch` and `Mount` are each proved to leave exactly the state (and return
  exactly the result) that the function of the same name in `Semantics` gives. `ProxyGet` and
  `ProxySet` are tied to `Semantics.Get` and `Semantics.Set` on `$data`. `ProxyKeys` and
  `Install` are the two halves of the constructor after `options.data` is read, and `Install`
  is tied to `Semantics.Observe`. The constructor is tied to the initial state, and `Alloc`
  (an object literal) to the old state with one object added.
- `observer_facts.dfy`, `dep_facts.dfy`, `watcher_facts.dfy`, `mount_facts.dfy`,
  `invariants.dfy`: the properties of those functions.
- `coherence.dfy` (`Coherence`): the invariant of the states reached between two top-level
  operations. `Dep.target` is null, each Dep belongs to one property, and every subscriber of
  a Dep re-reads that Dep's property. The constructor establishes it. Every store method
  that changes the state keeps it: `Get`, `Set`, `Notify`, `Update`, `Observe`,
  `DefineReactive`, `Watch`, `Mount`, `Install`, `Alloc`, `ProxyGet` and `ProxySet`. Under it, a changed write calls back exactly the property's subscribers.
- `scenarios.dfy`: end-to-end runs of the store, checked by their postconditions:
  - a counter written twice;
  - two watchers on one key;
  - a nested object replaced wholesale.

A watcher's callback is modelled as an append of `Callback(watcher, argument)` to a global
log. So the log records which callbacks ran, how often, in what order and with what argument.

## Model

| member | source | states |
|---|---|---|
| `Semantics.Track` | js/observer.js:7-9 | with `Dep.target` null nothing changes; with `Dep.target == w` exactly `w` is appended to the end of that one Dep, and no value or other state changes |
| `Semantics.Get` | js/observer.js:6-11 | a member read throws exactly when the object is null or undefined; otherwise it returns the stored value, and only subscriber lists may grow |
| `Semantics.Set` | js/observer.js:12-18 | a member write throws exactly when the object is null or undefined, and then changes nothing |
| `Semantics.Notify` | js/observer.js:37-42 | `notify` changes no object, root or `Dep.target`, adds or removes no cell or watcher, and only appends to the log (`Untouched`). What it calls back is stated by `DepFacts.NotifyAllFires` |
| `Semantics.NotifyAll` | js/observer.js:39-41 | the `forEach` over a subscriber list keeps the same frame (`Untouched`). `DepFacts.NotifyAllFrame` and `DepFacts.NotifyAllFires` state the rest |
| `Semantics.Update` | js/watcher.js:9-16 | `update()` keeps the frame (`Untouched`) and appends at most one callback, which is its own. `WatcherFacts.UpdateSpec` states when it fires and with what |
| `Semantics.Observe` | js/observer.js:22-29 | `observer` adds no root, watcher or callback, removes no cell and keeps `Dep.target` (`Wrapping`); on a non-object it changes nothing. That it changes no value and only re-points slots at new cells is `ObserverFacts.ObserveGrows`; `ObserverFacts.ObserveSpec` and `ObserverFacts.ObserveWraps` state the rest |
| `Semantics.ObserveKeys` | js/observer.js:26-28 | the `forEach` over the keys keeps the same frame (`Wrapping`). `ObserverFacts.ObserveKeysWraps` states that every key ends reactive |
| `Semantics.DefineReactive` | js/observer.js:1-20 | `defineReactive` keeps the frame (`Wrapping`) and leaves the key an accessor over the newest cell, with the value it had before. `ObserverFacts.DefineReactiveWraps` states the order of allocation |
| `Semantics.Wrap` | js/observer.js:4-19 | allocating the Dep adds exactly one cell, holding the value with no subscribers, and points the key at it. `ObserverFacts.WrapFacts` states that nothing else changes |
| `Semantics.Watch` | js/watcher.js:2-24 | construction gives the watcher the next id, appends it with the current value of `vm.$data[prop]`, makes no callback and leaves `Dep.target` null. `WatcherFacts.WatchSpec` states the registration |
| `Semantics.Mount` | js/mvue.js:3-14 | the constructor throws exactly when `options` or `options.data` is null or undefined, or a top-level key shadows a method the constructor still calls (`init`, or `proxyData` in any place but the last); then no root is added. Otherwise the new root gets the next id and `$data` is `options.data`. No watcher or callback changes. `MountFacts.MountSpec` and `MountFacts.MountShadowed` state the rest |
| `Reactive.Store.constructor` | js/observer.js:43 | a store over a heap of plain objects, each with distinct keys that all have a slot, starts with no cells, roots, watchers or callbacks, and `Dep.target` null; the state is coherent (`Coherence.Coherent`) |
| `Reactive.Store.Get` | js/observer.js:6-11 | the getter updates the store and returns exactly what `Semantics.Get` gives, and keeps the store valid. In a coherent state it changes nothing |
| `Reactive.Store.Set` | js/observer.js:12-18 | the setter updates the store exactly as `Semantics.Set` says: store and notify only on `!==`, plain assignment on a key without accessor. It keeps the store coherent |
| `Reactive.Store.Notify` | js/observer.js:37-42 | `notify` runs `update()` over the subscriber list as it was when notify began, in order, and ends in the state `Semantics.Notify` gives. It keeps the store coherent |
| `Reactive.Store.Update` | js/watcher.js:9-16 | `update()` ends in the state `Semantics.Update` gives and keeps the store coherent |
| `Reactive.Store.Observe` | js/observer.js:22-29 | `observer(data)` ends in the state `Semantics.Observe` gives; on a non-object it changes nothing. It keeps the store coherent |
| `Reactive.Store.DefineReactive` | js/observer.js:1-20 | `defineReactive` reads the key, wraps its value first, then allocates one new Dep and installs the accessor, as `Semantics.DefineReactive` says. It keeps the store coherent |
| `Reactive.Store.Watch` | js/watcher.js:2-24 | construction sets the slot, makes one tracked read, clears the slot and stores the value, as `Semantics.Watch` says. It keeps the store coherent |
| `Reactive.Store.Mount` | js/mvue.js:3-14 | `new mvue(options)` reads `options.data`, then proxies each top-level key, calls `init` and runs `observer`, as `Semantics.Mount` says, including the `TypeError` of a shadowed `proxyData` or `init`. It keeps the store coherent |
| `Reactive.Store.ProxyKeys` | js/mvue.js:8-10 | the `forEach` proxies the keys in order and succeeds exactly when no key but the last is `proxyData`; an earlier `proxyData` key makes the next `this.proxyData` lookup find a data value, and the call throws |
| `Reactive.Store.Install` | js/mvue.js:8-14 | once `options.data` is read: with `init` or an early `proxyData` among its keys it throws and changes nothing; otherwise the new root gets the next id, binds `$data`, proxies exactly the own keys of `$data`, and the state is then the one `Semantics.Observe` gives. It keeps the store coherent |
| `Reactive.Store.ProxyGet` | js/mvue.js:19-21 | reading `root.key` has the same result and the same effect (registration included) as reading `root.$data[key]` at access time; in a coherent state it changes nothing |
| `Reactive.Store.ProxySet` | js/mvue.js:22-24 | writing `root.key = v` has the same effect as writing `root.$data[key] = v` and keeps the store coherent |
| `DepFacts.ReadUntracked` | js/observer.js:6-11 | with `Dep.target` null a read returns the stored value and changes nothing, no subscriber list included |
| `DepFacts.ReadTracked` | js/observer.js:7-9 | with `Dep.target == w` a read of a reactive key appends `w` to the end of that key's Dep and nowhere else; a plain key changes nothing |
| `DepFacts.ReadTrackedTwice` | js/observer.js:34-36 | `addSub` does not deduplicate: two tracked reads by one watcher register it twice |
| `DepFacts.NotifyAllFrame` | js/observer.js:39-41 | with `Dep.target` null a notification changes no object, value or Dep; only the listed watchers' stored values change, the log only grows, and every new callback belongs to a listed watcher |
| `DepFacts.UpdateStep` | js/watcher.js:9-16 | with `Dep.target` null, `update()` stores the re-read value and logs one callback exactly when it differs from the stored one; no object, cell or root changes, and the state stays well formed |
| `DepFacts.NotifyStep` | js/observer.js:39-41 | the first `update()` of a notification whose subscribers all re-read `v` stores `v`, calls back iff the stored value differed, and leaves the rest of the list in the same situation |
| `DepFacts.NotifyAllLog` | js/observer.js:39-41 | when every subscriber re-reads `v`, the callbacks of a notification are exactly `Fired`: insertion order, one per first occurrence of a watcher whose stored value differed |
| `DepFacts.NotifyAllStores` | js/observer.js:39-41 | when every subscriber re-reads `v`, after the notification exactly the listed watchers store `v`, and every other watcher is unchanged |
| `DepFacts.StoreFires` | js/observer.js:13-16 | storing `v` in a Dep's cell and notifying its subscribers, when they re-read that cell, calls back exactly `Fired` over them with `v` |
| `DepFacts.NotifyAllFires` | js/observer.js:39-41 | when every subscriber re-reads `v`, notify makes exactly the callbacks `Fired` lists, in insertion order, with argument `v`. Duplicate entries run `update()` again but make no second callback. Every subscriber then stores `v` |
| `DepFacts.WriteSame` | js/observer.js:13 | writing the value a reactive key already holds (`===`) changes nothing: no store, no notify, no callback |
| `DepFacts.WriteChanged` | js/observer.js:13-16 | writing a different value stores it and notifies exactly that key's Dep once. No other cell, Dep, object, root or watcher's `vm`/`prop` changes, and every new callback belongs to a subscriber of that Dep. When every subscriber re-reads that key, the callbacks are exactly `Fired` over that Dep; `Coherence.WriteCallsBack` gives this for every coherent state |
| `DepFacts.WritePlain` | js/observer.js:12-18 | a key with no accessor (added after wrapping, or of an object assigned later) is a plain store that notifies no one and touches no Dep |
| `WatcherFacts.UpdateSpec` | js/watcher.js:9-16 | `update()` stores the new value and logs exactly one callback with it iff the re-read value is `!==` the stored one; otherwise nothing changes; no Dep changes |
| `WatcherFacts.WatchSpec` | js/watcher.js:2-24 | construction stores the current value of `vm.$data[prop]`. It makes no callback and appends the new watcher exactly once to that top-level key's Dep and to no other. `Dep.target` is null afterwards |
| `WatcherFacts.NestedWatchLosesOuter` | js/watcher.js:19-22 | constructing a watcher while another is the active reader clears the slot unconditionally, so the outer reader's later reads register nothing |
| `ObserverFacts.GetValid` | js/observer.js:6-11 | a read keeps the state well formed |
| `ObserverFacts.ObserveGrows` | js/observer.js:22-29 | `observer` changes no readable value, key list, root, watcher, log or `Dep.target`; it only re-points slots at new cells; outside a tracked read every new Dep is empty and old Deps are untouched |
| `ObserverFacts.DefineReactiveGrows` | js/observer.js:1-20 | the same for one `defineReactive` call |
| `ObserverFacts.WrapFacts` | js/observer.js:4-19 | allocating the Dep and installing the accessor touches only that key and adds one empty cell holding the value |
| `ObserverFacts.BoundedStable` | js/observer.js:3 | whether the nesting depth is bounded depends only on keys and values, which wrapping preserves |
| `ObserverFacts.ObserveWraps` | js/observer.js:22-29 | after `observer(data)` every key of `data` and of every object nested in it is reactive over a cell allocated by this call |
| `ObserverFacts.ObserveKeysWraps` | js/observer.js:26-28 | the `forEach` over the keys leaves each of them, and everything nested below it, reactive over a new cell |
| `ObserverFacts.DefineReactiveWraps` | js/observer.js:3-4 | the nested value is wrapped before its parent key's Dep is allocated: every cell of the nested wrap is numbered below the parent key's cell |
| `ObserverFacts.ObserveSpec` | js/observer.js:22-28 | outside a tracked read, `observer` changes no value and no watcher, makes no callback, and gives every reachable key a new, empty Dep. On a falsy or non-object value it changes nothing at all |
| `ObserverFacts.WrapUnshared` | js/observer.js:4-5 | a fresh Dep is installed on one key only, so no two properties share a Dep afterwards |
| `ObserverFacts.ObserveUnshared` | js/observer.js:22-29 | `observer` keeps every Dep private to one property |
| `ObserverFacts.ObserveKeysUnshared` | js/observer.js:26-28 | so does the `forEach` over the keys |
| `ObserverFacts.DefineReactiveUnshared` | js/observer.js:1-20 | so does one `defineReactive` call |
| `Coherence.InitialCoherent` | js/observer.js:43 | a heap of plain objects with `Dep.target` null is coherent |
| `Coherence.GetCoherent` | js/observer.js:6-11 | outside a tracked read, a read changes nothing |
| `Coherence.CoherentFrame` | js/observer.js:31-36 | a step that keeps every accessor, every root's `$data`, what each watcher watches and every subscriber list, with `Dep.target` null, keeps coherence |
| `Coherence.SetCoherent` | js/observer.js:12-18 | a write keeps coherence |
| `Coherence.UpdateCoherent` | js/watcher.js:9-16 | `update()` keeps coherence |
| `Coherence.WatchCoherent` | js/watcher.js:17-24 | the one registration a new watcher makes is on the Dep of the property it watches, and `Dep.target` is null again, so coherence is kept |
| `Coherence.CoherentAfterWrapping` | js/observer.js:1-20 | wrapping outside a tracked read keeps old Deps and gives re-pointed keys new, empty Deps, so coherence is kept |
| `Coherence.NotifyCoherent` | js/observer.js:37-42 | `notify` outside a tracked read changes no object and no Dep, so coherence is kept |
| `Coherence.ObserveCoherent` | js/observer.js:22-29 | `observer` outside a tracked read keeps coherence |
| `Coherence.DefineReactiveCoherent` | js/observer.js:1-20 | so does one `defineReactive` call |
| `Coherence.MountCoherent` | js/mvue.js:3-14 | constructing a root keeps coherence |
| `Coherence.WriteCallsBack` | js/observer.js:12-18 | in a coherent state, writing a different value to a reactive property calls back exactly `Fired` over its Dep: each subscriber in insertion order with the new value. No other watcher is called back, and coherence is kept |
| `Invariants.UpdateValid` | js/watcher.js:9-16 | `update()` keeps the state well formed |
| `Invariants.NotifyAllValid` | js/observer.js:39-41 | a notification keeps the state well formed and the number of watchers |
| `Invariants.SetValid` | js/observer.js:12-18 | a write keeps the state well formed |
| `Invariants.WatchValid` | js/watcher.js:2-7 | constructing a watcher keeps the state well formed and gives it the next id |
| `Invariants.MountValid` | js/mvue.js:3-14 | constructing a root keeps the state well formed |
| `MountFacts.MountRejects` | js/mvue.js:5-8 | with `options` or `options.data` null or undefined the constructor throws before `observer` and changes nothing |
| `MountFacts.MountShadowed` | js/mvue.js:8-11 | with a top-level key `init`, or `proxyData` before the last place, the constructor throws before `observer` and changes nothing |
| `MountFacts.ProxyDataLast` | js/mvue.js:8-10 | a `proxyData` key in last place is accepted, and in first place before other keys it is not |
| `MountFacts.MountSpec` | js/mvue.js:3-14 | `$data` is the very object `options.data` and every top-level key is proxied. Every key reachable from it is then reactive over a new, empty Dep; top-level Deps hold the keys' original values. No value, watcher or callback changes |
| `Scenarios.MountOne` | js/mvue.js:3-14 | mounting `{data: {key: v}}` makes `key` reactive over an empty Dep holding `v` |
| `Scenarios.WatchOne` | js/watcher.js:2-7 | a watcher on a reactive top-level key joins that key's Dep once and stores its value |
| `Scenarios.WriteKey` | js/mvue.js:22-24 | in a coherent store with one root, `root.key = v` with `v` different stores `v` in the key's cell and logs exactly `Fired` over its Dep, and the store stays coherent |
| `Scenarios.CounterTwice` | js/observer.js:13-16 | `{count: 0}`, one watcher, `root.count = 1` twice: one callback with 1, and nothing on the repeated write |
| `Scenarios.CounterTwoWatchers` | js/observer.js:39-41 | two watchers on `count`, `root.count = 5`: the first watcher's callback and then the second's, each once with 5 |
| `Scenarios.ProfileStart` | js/observer.js:22-29 | the profile heap is well shaped and plain, `options.data` is object 1, its only key is `user`, and its nesting depth is bounded by 2 |
| `Scenarios.MountProfile` | js/observer.js:1-4 | mounting `{user: {name: 'a'}}` makes `user` reactive over an empty Dep holding the nested object, and allocates no object |
| `Scenarios.WatchProfile` | js/watcher.js:2-7 | the same with one watcher on `user`, and then a new plain object `{name: 'b'}`: the store is still coherent |
| `Scenarios.ReplacedObjectNotTracked` | js/observer.js:12-18 | `root.user = {name: 'b'}` calls back once with the new object; the later `root.user.name = 'c'` calls nothing, because the setter does not wrap new values |

## Left out

- `document.querySelector` / `$el` (js/mvue.js:6) and `new Compile(this)` (js/mvue.js:15):
  these are DOM plumbing and a collaborator. The Compile component is not part of this model.
- The `console.log` in `notify` (js/observer.js:38): output only.
- Callback bodies: a callback is an append to the log. A callback that writes back into the
  store, and the re-entrant `notify` that would follow, are not modelled.
- Floating-point numbers (so `NaN !== NaN`), symbols and functions as values. Prototype-chain
  lookups and string indices (`"ab"[0]`, `"ab".length`) are also left out: a member read on a
  primitive gives `undefined` and `Object.keys` of a primitive is empty.
- The mechanics of `Object.defineProperty` (property attributes, enumerability): an installed
  accessor keeps its key's place in the enumeration order, as the source's redefinition does.
- Exceptions other than these `TypeError`s (for example the `RangeError` of a stack overflow).
- Semantics.Observe: the nesting depth is bounded by a fuel argument. When the data is
  `Semantics.Bounded` by it (finite and acyclic), the result is the source's. A cyclic tree,
  on which the source recurses without end (js/observer.js:3), is not modelled.
- Reactive.Store.Observe: requires the data to be `Semantics.Bounded` (finite and acyclic),
  for the same reason.
- Reactive.Store.DefineReactive: requires the same of the key's value.
- Reactive.Store.Mount: requires the same of `options.data`. It also requires that no
  top-level key of `options.data` is `$data`: that proxy's getter reads `this.$data` again,
  without end, once `observer` runs, and JavaScript ends such a recursion only with an
  engine-dependent stack overflow. Keys `init` and `proxyData` are accepted and give the
  `TypeError` the source throws; `$options` and `$el` are never read again and are accepted.
- Reactive.Store.Watch: `vm` must be a mounted root. The source accepts any object with a
  `$data` member.
- Reactive.Store.constructor: the initial heap holds plain objects only; accessors appear only
  through `observer`. Later operations are not proved to keep every object `Heap.Shaped`.
- Heap.Assigned: a key added by assignment goes last in the enumeration order. JavaScript
  enumerates integer-like keys first, in ascending order; the model does not.
- Semantics.Set: a write to a primitive (a boolean, number or string) is a silent no-op, as
  in sloppy mode. Strict mode would throw a `TypeError`; that is not modelled.
- Watchers, roots and Deps are identified by indices into the store, not by object
  references. `Value` cannot hold one of them, so the model never compares them. The source
  would compare them with `!==` (js/observer.js:13, js/watcher.js:12) only if a program
  stored a root, watcher or Dep as a data value; that is not modelled.
