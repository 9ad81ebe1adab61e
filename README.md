# Stateful mixin: a verified Dafny model

This project models the stateful mixin of the `compose` library
(`src/bases/statefulMixin.ts`). An object composed with the mixin keeps
private state in a module-level table keyed by the object's identity
(`instanceStateMap`). The `state` getter reads that table. `setState(partial)`
deep-merges a partial update into the stored state, writes the result back and
emits one `"state:changed"` event `{type, state, target}`. The init hook seeds
every new instance with an empty state.

The model has two parts:

- `StateTree` (`state_tree.dfy`). The state is a tree: a map from field names
  to scalars or nested trees. `Merge(base, partial)` is the pure function that
  stands for `deepAssign({}, oldState, value)`. `deepAssign` comes from a
  library outside this repository, so `Merge` records the contract assumed of
  it: keys of `partial` win, two nested trees merge recursively, anything else
  is replaced wholesale, and keys missing from `partial` are carried over. The
  lemmas describe the merge path by path. A scalar the partial holds at a path
  ends up at that path. Every path present in the partial is present in the
  result. A path the partial does not mention keeps its old value. Every scalar
  of the result comes from one of those two sources. The merge is
  also idempotent, and an empty partial changes nothing.
- `StatefulMixin` (`stateful_mixin.dfy`). The class `StateStore` holds the
  table as a `map<Instance, State>` and a log that stands for `emit`. Each log
  entry records the emitted event together with the table as a listener would
  see it during delivery. The invariant `Valid()` says that every logged
  event has type `"state:changed"` and that its target's stored state already
  equals the event's state. Because the table is written before `emit`, this
  invariant holds. `SetState` changes only the target's entry and appends
  exactly one event. The module `StatefulClient` is a client that uses only
  these contracts.

State values are immutable Dafny values. In the model, a state read before a
`SetState` call therefore keeps its value afterwards. In the source, building
into a fresh `{}` gives the same guarantee for the old state object. Aliasing
of the stored object is covered under "## Left out".

An object that was never initialised has no table entry. For such an object
the getter returns `undefined`, which is what `WeakMap.get` gives
(src/bases/statefulMixin.ts:28), and `setState` still runs (lines 31-32). The
model's getter returns `None` in that case. `SetState` then merges into the
empty state and creates the entry. This assumes that `deepAssign` skips an
`undefined` source.

## Model

| member | source | states |
|---|---|---|
| StateTree.Merge | src/bases/statefulMixin.ts:32 | the merged state's keys are the old keys plus the partial's keys; every key absent from the partial keeps its old value |
| StateTree.MergeKeepsUntouched | src/bases/statefulMixin.ts:32 | on every path the partial does not mention, the merged state has exactly the old value (or the path is absent in both) |
| StateTree.MergePartialScalarWins | src/bases/statefulMixin.ts:32 | a scalar the partial holds at a path is what the merged state holds at that path, whatever the old state held there |
| StateTree.MergePartialPathPresent | src/bases/statefulMixin.ts:32 | every path present in the partial is present in the merged state, and where the partial holds a nested tree the merged state holds one too |
| StateTree.MergeScalarOrigin | src/bases/statefulMixin.ts:32 | every scalar of the merged state comes from the partial at the same path, or from the old state at a path the partial does not mention |
| StateTree.MergeEmptyPartial | src/bases/statefulMixin.ts:32 | merging an empty partial returns the old state unchanged |
| StateTree.MergeIntoEmpty | src/bases/statefulMixin.ts:32 | merging into the empty state (a fresh instance's) yields the partial itself |
| StateTree.MergeSelf | src/bases/statefulMixin.ts:32 | merging a state with itself yields the same state |
| StateTree.MergeIdempotent | src/bases/statefulMixin.ts:32 | applying the same partial twice gives the same state as applying it once |
| StateTree.MergeNestedExample | src/bases/statefulMixin.ts:32 | `{b: {c: 99}}` merged into `{a: 1, b: {c: 2, d: 3}}` gives `{a: 1, b: {c: 99, d: 3}}`: nested trees merge field by field |
| StatefulMixin.StateStore.constructor | src/bases/statefulMixin.ts:15 | the private table starts with no entries, and nothing has been emitted |
| StatefulMixin.StateStore.Init | src/bases/statefulMixin.ts:42-44 | the instance's entry becomes the empty state, the other entries are unchanged, and nothing is emitted |
| StatefulMixin.StateStore.GetState | src/bases/statefulMixin.ts:27-29 | returns the stored state exactly when the instance has an entry, and absent otherwise; changes nothing |
| StatefulMixin.StateStore.Emit | src/bases/statefulMixin.ts:39 | emits only an event whose state is already stored for its target; appends exactly one emission carrying the event and the current table, leaves the table unchanged and keeps `Valid()` |
| StatefulMixin.StateStore.SetState | src/bases/statefulMixin.ts:30-40 | the target's entry becomes the merge of its old state (empty if absent) with the partial; every other entry is unchanged; the key set gains at most the target; exactly one `"state:changed"` event with the new state and the target is appended, emitted after the write (`Valid()` is kept); an empty partial on an initialised instance leaves the table unchanged yet still emits |

## Left out

- The weak-reference semantics of `WeakMap` (src/bases/statefulMixin.ts:6, 15) are not modelled: the table is an ordinary map, and reachability and garbage collection cannot be expressed here.
- The compose machinery (`eventedMixin.extend`, `.init`, `ComposeCreatedMixin`) is not part of this model. The init hook is the plain method `Init`, and instance creation is `new Instance()`.
- Listener registration and dispatch inside `eventedMixin` (`emit`, `on`) are not part of this model. `Emit` appends to a log, and synchronous delivery is represented by the table snapshot each entry records.
- StateTree.Merge: models only the assumed key-override and recursive-merge contract of `deepAssign` from `@dojo/core/lang`. Arrays, `null`, prototypes, cyclic values and an old scalar meeting a partial object (which `deepAssign` would try to write into) are not modelled, and such values are replaced wholesale.
- The init hook seeds `Object.create(null)`, an object without a prototype, while `setState` stores a plain `{}`. Both are the empty tree here.
- TypeScript generics and typing (`State`, `Partial<S>`, `StatefulOptions`) are not modelled. A partial update has the same type as a state.
- Exceptions thrown by listeners during `emit` are not modelled.
- Listeners that write state are not modelled. `emit` runs listeners synchronously (src/bases/statefulMixin.ts:39), so a listener that calls `setState` would change the table before the outer `setState` returns. Later listeners of the outer event would then see a state other than `event.state`. `Emit` leaves the table unchanged, so `SetState`'s final state and `Valid()` assume that no listener writes state.
- Aliasing of state objects is not modelled. The getter returns the stored object itself (line 28), and the event carries that same object (lines 32, 35, 38). A caller or listener can therefore change an instance's state in place without `setState` and without an event. States here are immutable values, so this cannot happen in the model.
- JavaScript numbers are modelled as unbounded integers (`Num`), so floating point is not modelled. A key that is present but holds `undefined` cannot be expressed either. Neither affects how `Merge` chooses between old and new values.
