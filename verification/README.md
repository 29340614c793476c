# eis: an observable state container, modelled in Dafny

`eis(initialState)` builds a store that holds one state value and a set of
listeners, and returns three closures: `get`, `set` and `subscribe`. Any object
or array that enters the store is deep-copied by a JSON round trip (`_clone`)
and then deep-frozen (`_freeze`). A successful `set` calls every listener with
the new state (`_notify`). An exception thrown by one listener is caught, and
the loop goes on. The catch block logs `err.message` inside a template
literal. If the thrown value is null or undefined, or its message is a
Symbol, that line itself throws a TypeError. The TypeError leaves `_notify` and
`set` after the state has been replaced, and the remaining listeners are not
called.

The model has seven modules:

- `Values` (values.dfy): the JavaScript values the store handles. Primitives
  are undefined, null, booleans, integers, strings and BigInt. Composites are
  arrays and plain objects; each carries an identity token and a frozen mark.
  `SameValue` is `Object.is`. `IsValidObject` is `_isValidObject`.
  - A token `Foreign(n)` is an object this store did not allocate.
  - A token `Own(gen, path)` is the object built by this store's clone number
    `gen`, at `path` below that clone's root.
- `Diagnostics` (diagnostics.dfy): the categories of the console messages.
- `Json` (json.dfy): `JSON.stringify` as a function to a JSON tree
  (`Stringify`), and `JSON.parse` as a function that builds fresh, unfrozen
  composites (`Parse`).
- `Freezing` (freezing.dfy): `_freeze`.
- `Cloning` (cloning.dfy): `_clone`, which is `Parse(Stringify(v))`. It gives
  null when serialization throws.
- `Listeners` (listeners.dfy): the listener Set, a duplicate-free sequence in
  insertion order, and `_notify` as a loop.
- `Eis` (store.dfy): construction (`Construct`), the guards of `set`
  (`Update`), and the class `Store`. The class holds the two closure variables,
  `state` and `listeners`, plus a clone counter `gen`. Its methods are `get`,
  `set` (split into `SetValue` and `SetWith` on `typeof value === "function"`),
  `subscribe` and the returned unsubscribe handle.

A listener is an identity (`ListenerId`). A parameter `react` says how a
listener call ends for a given state (an `Effect`):
- `Returns`: the listener returns.
- `ThrowsError`: an error whose message can be reported.
- `ThrowsUnreportable`: null, undefined, or a Symbol message.

Methods return the sequence of listener calls they make and the sequence of
console diagnostics they write. `set` also returns `escaped`, which is true
when an unreportable throw leaves it.

Points where the model follows `eis.js` as written, against what its tests or
a first reading suggest:

- A construction clone failure does not throw, and construction does not
  fail. `_clone` returns null, then `_freeze(null)` logs a type error, and
  the state becomes null.
  `Construct` states this.
- Setting again the object a store was built from is not a no-op. The store
  holds a clone of that object, which is a different object.
  `ResetOfInitialIsNotNoOp` states this.
- The subscribe error message reads "Subscribe Error". Only its category is
  modelled.
- The `instant` call in `subscribe` is not inside a try. A listener that
  throws there makes `subscribe` throw, after the listener has been added.
- The stray `);` at eis.js:41 is read as the end of the catch block. The
  block logs a clone error and returns null.
- A listener that throws null, undefined or an error with a Symbol message
  stops `_notify`. `set` then throws, although the state has already
  changed. `Listeners.Notify` and `Eis.Store.Apply` state this.

## Model

| member | source | states |
|---|---|---|
| `Values.IsValidObject` | eis.js:47-49 | true exactly for the values that carry an identity: plain objects and arrays, not null |
| `Values.SameValue` | eis.js:78 | `Object.is`: equal values are the same; a composite is never the same as a primitive; primitives are the same only when equal; composites are the same exactly when they have the same identity |
| `Values.ThawKeepsTokens` | eis.js:23 | freezing in place changes no identity: clearing frozen marks keeps the set of reachable objects, and whether any undefined occurs |
| `Json.Serializable` | eis.js:33 | `JSON.stringify` throws on a BigInt |
| `Json.Stringify` | eis.js:33 | an array is written as a JSON array of the same length; an object as a JSON object whose keys are exactly its members that are not undefined |
| `Json.Parse` | eis.js:33 | `JSON.parse` never builds undefined anywhere; it builds a composite exactly for a JSON array or object, with a new identity for this clone and path, not frozen |
| `Json.StringifyParse` | eis.js:33 | round trip: the value `JSON.parse` builds serializes back to the same JSON document, and serialization does not throw |
| `Json.ParseFresh` | eis.js:33 | every object `JSON.parse` builds is new: it belongs to this clone's generation and sits below the clone's path |
| `Json.ParseUnfrozen` | eis.js:33 | objects built by `JSON.parse` are not frozen |
| `Json.ParseIsTree` | eis.js:33 | the parsed result is a tree: distinct members share no object, and none contains its parent |
| `Json.StringifyIgnoresFrozen` | eis.js:33 | frozen marks change neither whether serialization throws nor the document written |
| `Freezing.Freeze` | eis.js:10-24 | the result is deeply frozen; apart from frozen marks it equals the input, identities included; a non-object comes back unchanged |
| `Freezing.FreezeLog` | eis.js:11-13 | a freeze type error is logged exactly when the value carries no identity, and then the value is returned unchanged |
| `Freezing.FreezeOfFrozen` | eis.js:23 | freezing a value that is already deeply frozen changes nothing |
| `Freezing.FreezeIdempotent` | eis.js:10-24 | freezing twice is the same as freezing once |
| `Freezing.FreezeKeepsData` | eis.js:16-23 | freezing keeps every identity, every undefined, serializability and the JSON document |
| `Cloning.Clone` | eis.js:27-44 | a non-object passes through unchanged; an object holding a BigInt gives null; otherwise the result is an unfrozen object with the same JSON document and no undefined anywhere, whose reachable objects all belong to this clone |
| `Cloning.CloneLog` | eis.js:34-40 | a clone error is logged exactly when the value is an object and the clone gives null |
| `Cloning.CloneSharesNothing` | eis.js:33 | a successful clone shares no object with its input, or with any value that existed before it |
| `Cloning.CloneIsTree` | eis.js:33 | within a clone, distinct members share no object and none contains the clone's root |
| `Listeners.Added` | eis.js:113 | `listeners.add`: the listener is present afterwards, nothing else is added, the old order is a prefix, and there are still no duplicates |
| `Listeners.Removed` | eis.js:117 | `listeners.delete`: exactly the other listeners remain, with no duplicates |
| `Listeners.RemovedOnlyThatEntry` | eis.js:117 | deleting a registered listener removes its single entry and keeps the others in order |
| `Listeners.RemovedAbsent` | eis.js:117 | deleting a listener that is not registered changes nothing |
| `Listeners.RemovedIdempotent` | eis.js:117 | calling an unsubscribe handle a second time changes nothing |
| `Listeners.RemovedUndoesAdded` | eis.js:113-117 | subscribing a new listener and calling its handle restores the registry |
| `Listeners.Notify` | eis.js:51-59 | the listeners are called in registration order, each once, with the state, past any ordinary error, up to the first unreportable throw; that throw escapes, and otherwise every listener is called; one listener error is logged per ordinary error |
| `Listeners.ListenerErrorsReportThrows` | eis.js:53-57 | a listener error is logged for a listener exactly when one of its calls threw an ordinary error |
| `Listeners.ThrowsAreIsolated` | eis.js:52-58 | ordinary errors change nothing about the notification: with the same unreportable throws, the same listeners are called in the same order with the same state, and the run escapes alike |
| `Listeners.DeliveredOnce` | eis.js:52-54 | with the Set's deduplication and no escape, each registered listener is called exactly once, with the state |
| `Eis.Construct` | eis.js:1-7 | undefined gives null with an init error; a primitive is kept; an object becomes a deeply frozen clone with a fresh identity, the same JSON and no undefined; a clone failure gives null with a clone error then a freeze type error; the result always meets the state invariant |
| `Eis.Update` | eis.js:73-94 | undefined is a no-op; an `Object.is`-equal value is a no-op; an object holding a BigInt fails the clone; otherwise a primitive is stored as it is and an object as a frozen clone with the same JSON, no undefined and fresh identities |
| `Eis.UpdateKeepsStored` | eis.js:78-94 | a replacement keeps the state invariant, is never `Object.is` the old state, and shares no object with the old state, nor with the value passed in when that value was made before this clone |
| `Eis.SetOfGetIsNoOp` | eis.js:78-83 | setting the value `get` returned is a same-reference no-op |
| `Eis.ResetOfInitialIsNotNoOp` | eis.js:78-83 | setting the construction argument again replaces the state, because the store holds a clone of it |
| `Eis.Store.constructor` | eis.js:1-8 | the store starts with the state `Construct` gives and no listeners |
| `Eis.Store.Get` | eis.js:99-101 | `get` returns a deeply frozen value with no undefined anywhere in it, whose objects the store built itself |
| `Eis.Store.Apply` | eis.js:73-96 | the state changes only as `Update` decides; on a replacement the listeners are notified with the new state as `Notify` states; on a no-op or clone failure nothing changes, nobody is called and nothing escapes; an escape happens only after the state was replaced; the listeners are unchanged |
| `Eis.Store.SetValue` | eis.js:61-97 | `set(undefined)` logs a set error and changes nothing; any other value goes through `Apply` |
| `Eis.Store.SetWith` | eis.js:61-97 | the updater gets the current state, and its result goes through `Apply` |
| `Eis.Store.Subscribe` | eis.js:103-118 | a non-function logs a subscribe error, leaves the registry alone and gets the no-op handle; a function is added once; with `instant` it is called once with the current state, and if that call throws anything, the throw leaves `subscribe` after the add |
| `Eis.Store.Unsubscribe` | eis.js:110-117 | the no-op handle changes nothing; a listener's handle deletes only that listener and reports whether it was present |

## Left out

- Console message text: only the category of each message is modelled.
- Floating-point numbers, NaN, ±0 and the `Object.is` corner cases they
  bring: numbers are integers.
- Functions, symbols, Dates, `toJSON` and cycles as data. A function nested in
  an object, which `JSON.stringify` drops, is not modelled. Neither is an
  updater that returns a function, which `set` would store. BigInt is the only
  value that makes serialization throw.
- Property order of objects: a plain object is a map.
- What listeners and updaters do besides throwing. This includes a listener
  that calls `set` or `subscribe` again, and changes to the Set during
  `forEach`. The registry is fixed while `_notify` runs.
- `Eis.Store.SetWith`: the updater is a total function. An updater that throws
  would leave `set` with the exception before any change; that is not
  modelled.
- `Eis.Store.constructor`: a constructor cannot return values, so what
  construction logs is given by `Construct(init).diags`.
- Identity across stores: an object made by another store is `Foreign` to
  this one.
- `_freeze` marks objects in place. The model returns the frozen value. Freeze
  only ever sees a fresh clone, so no caller holds an alias to it. The
  exception is `_freeze(null)`, which changes nothing.
- The stray `);` at eis.js:41 would stop the file from parsing. The model
  reads the catch block as its evident intent.
- The second constructor argument (`{strict}`, `{dev}`): `eis` ignores it.
