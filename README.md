# Object registry and IP-address wait of the ClickHouse operator, in Dafny

This project models two pieces of the operator.

The first is the object **registry** of package `model` (`pkg/model/registry.go`). The operator records in a registry every Kubernetes object it reconciles in one pass: StatefulSets, ConfigMaps, Services, Secrets, PVCs and PDBs. Each entry is a snapshot of the object's name, namespace, labels and annotations. The registry keeps one set per entity type. A type's set is created empty the first time any operation asks for it, and that includes read operations. Inside a set, entries are keyed by identity, which is the pair (name, namespace). The first snapshot registered for an identity wins. `Subtract` removes from one registry every (type, identity) held by another registry; the operator uses this to find stale objects. `Walk` and `String` enumerate the contents.

The second is the stop rule of the keeper worker's `waitForIPAddresses` (`pkg/controller/chk/worker-exclude-include-wait.go`). It has two early returns and then a condition closure that the poll loop calls on every tick. The closure stops the wait once there are at least as many pod IPs as pods, or once more than one minute has passed. Otherwise it asks for another tick.

## Layout

- `objects.dfy`, module `Objects`:
  - the entity types and the dump text of each;
  - objects, identities and snapshots;
  - `Partition`, the contents of one set (identity to snapshot), and what enumerating it means.
- `object_meta_set.dfy`, module `ObjectMetaSets`:
  - class `ObjectMetaSet`, the per-type set, holding its contents in a map field;
  - methods `MaybeAdd`, `Remove`, `Contains`, `Walk` and `Len`, each changing or reading that field in place.
- `registry_state.dfy`, module `RegistryState`:
  - the registry's state as a value, entity type to partition;
  - one function per registry operation, saying what the operation does to that state;
  - lemmas for each function's properties and for the properties of whole runs: uniqueness, first snapshot wins, type isolation, subtraction correctness.
- `registry.dfy`, module `ObjectRegistry`:
  - class `Registry`, with the generic operations as methods that update the registry's map in place and loop the way the source loops;
  - every state-changing method (`EnsureObjectSetForType`, `Len`, `RegisterEntity`, `HasEntity`, `DeleteEntity`, `WalkEntityType`, `Subtract`) is proved to produce the state that its `RegistryState` function gives (`WalkEntityType` creates the type's set, so its state is `Ensured`, and it enumerates that set exactly once); the read-only `Walk` and `String` are proved to enumerate the state exactly once.
  - Go lets a method run on a nil pointer receiver. Each operation therefore takes its receiver as a parameter:
    - `Registry?` where the source checks for nil;
    - `Registry` where it does not (`hasEntity`, `deleteEntity` and the `Has*` wrappers).
- `typed_registry.dfy`, module `TypedRegistry`: the 24 exported per-type wrappers, `Register*`, `Has*`, `Num*` and `Walk*`.
- `scenarios.dfy`, module `RegistryScenarios`: concrete runs on fresh registries:
  - subtracting one registry from another;
  - re-registering with different labels;
  - registering under one type and asking about another.
- `wait.dfy`, module `IPAddressWait`: the early returns and the poll condition, as functions of the context state, the stopped flag, the two counts and the elapsed time.

## Notes on the source's behaviour

- **`hasEntity` has no nil guard.** `hasEntity` (pkg/model/registry.go:340-347) calls `ensureObjectSetForType`, which returns nil on a nil registry, and then calls `contains` on that nil set (pkg/model/registry.go:346, 409-414), which dereferences it. `HasEntity` and the `Has*` wrappers therefore require a non-null registry.
- **`Subtract`'s early exits count types, not entries.** Both exits test `Len()` with no arguments (pkg/model/registry.go:323, 327), and `Len` with no arguments returns the number of entity types in the map (pkg/model/registry.go:104-108). A registry whose only sets are empty, for example after a `Has*` lookup, passes both tests, and subtraction then walks `sub`. `Subtracted` makes its early exit depend on the number of types in the same way.
- **`Walk` visits every entry exactly once.** The registry's walk ranges once over the map of types (pkg/model/registry.go:129-133), and each set's walk ranges once over its contents (pkg/model/registry.go:423-425). `Walk` is proved to produce each entry exactly once and nothing else.

## Model

| member | source | states |
|---|---|---|
| Objects.TypeName | pkg/model/registry.go:30-46 | defines each entity type's string value as the dump prints it; its properties are in `TypeNameInjective` |
| Objects.TypeNameInjective | pkg/model/registry.go:30-46 | distinct entity types have distinct string values |
| Objects.IdentityOf | pkg/model/registry.go:62-67 | defines an object's identity as its (name, namespace) pair; its properties are in `SameIdentity` |
| Objects.SameIdentity | pkg/model/registry.go:56-67 | two objects have the same identity exactly when name and namespace agree, whatever their labels and annotations |
| Objects.Snapshot | pkg/model/registry.go:169-174 | the snapshot keeps the object's identity, labels and annotations |
| ObjectMetaSets.ObjectMetaSet.constructor | pkg/model/registry.go:81-86 | a new set belongs to its entity type and is empty |
| ObjectMetaSets.ObjectMetaSet.MaybeAdd | pkg/model/registry.go:387-395 | adds exactly when the identity is absent and reports whether it did; a present identity leaves the contents unchanged (first wins) |
| ObjectMetaSets.ObjectMetaSet.Remove | pkg/model/registry.go:398-406 | reports true exactly when the identity was present; afterwards the contents are the old contents without that identity |
| ObjectMetaSets.ObjectMetaSet.Contains | pkg/model/registry.go:409-414 | true exactly when an entry with the object's identity is stored; labels and annotations play no part |
| ObjectMetaSets.ObjectMetaSet.Walk | pkg/model/registry.go:419-426 | visits every stored snapshot exactly once and nothing else |
| ObjectMetaSets.ObjectMetaSet.Len | pkg/model/registry.go:429-434 | the number of stored entries; 0 exactly when the set is empty |
| ObjectMetaSets.WalkPartition | pkg/model/registry.go:423-425 | the range loop over a set's map visits each stored snapshot once, in some order |
| RegistryState.Ensured | pkg/model/registry.go:361-384 | defines get-or-create as a state change; its properties are in `EnsuredSpec` and `EnsuredLen` |
| RegistryState.EnsuredSpec | pkg/model/registry.go:361-384 | get-or-create: the types afterwards are the old types plus the requested one; every existing set is kept as it was; a new set is empty |
| RegistryState.EnsuredLen | pkg/model/registry.go:377-383 | creating a missing set grows the number of types by exactly one; asking for an existing type leaves the number unchanged |
| RegistryState.EnsuredAll | pkg/model/registry.go:110-114 | defines the state after the `Len(types...)` loop; its properties are in `EnsuredAllSpec`, `EnsuredAllStep` and `EnsuredAllSingle` |
| RegistryState.EnsuredAllSpec | pkg/model/registry.go:110-114 | after `Len(types...)` the registry has exactly the old types plus the named ones, and every set holds what it held before |
| RegistryState.EnsuredAllStep | pkg/model/registry.go:111-113 | one iteration of the `Len` loop creates the set of the next type and adds that set's size from before the call |
| RegistryState.EnsuredAllSingle | pkg/model/registry.go:191-193 | `Len` of a single type creates only that type's set and counts only its entries |
| RegistryState.SizeSum | pkg/model/registry.go:110-115 | defines the count `Len(types...)` returns; its properties are in `SizeSumSpec` and `EnsuredAllStep` |
| RegistryState.SizeSumSpec | pkg/model/registry.go:110-115 | the sum is at least the size of every named type's set, and is 0 exactly when every named set is empty |
| RegistryState.Registered | pkg/model/registry.go:159-178 | defines registration as a state change; its properties are in `RegisteredSpec`, `RegisteredEntry` and `RegisteredWellFormed` |
| RegistryState.RegisteredSpec | pkg/model/registry.go:159-178 | after registration the identity is present under its type; the types are the old ones plus this one; every other type is unchanged |
| RegistryState.RegisteredEntry | pkg/model/registry.go:169-177 | a present identity leaves the whole state unchanged; an absent one is stored with this object's snapshot |
| RegistryState.RegisteredWellFormed | pkg/model/registry.go:387-395 | registration keeps every snapshot stored under its own identity |
| RegistryState.Deleted | pkg/model/registry.go:350-357 | defines deletion as a state change; its properties are in `DeletedSpec` and `DeletedWellFormed` |
| RegistryState.DeletedSpec | pkg/model/registry.go:350-357 | after deletion the identity is absent under its type; the type's set exists; other types are unchanged; every other entry stays with its snapshot; nothing is added |
| RegistryState.DeletedWellFormed | pkg/model/registry.go:398-406 | deletion keeps every snapshot stored under its own identity |
| RegistryState.Subtracted | pkg/model/registry.go:322-337 | defines the outcome of `Subtract` as a state; its properties are in `SubtractedSpec` and `SubtractedSelfEmpty` |
| RegistryState.SubtractedSpec | pkg/model/registry.go:322-337 | with no types on either side the receiver is unchanged; otherwise an entry remains exactly when it is in the receiver and not in `sub` (by type and identity) and keeps its snapshot, and every type with entries in `sub` gains a set |
| RegistryState.SubtractedSelfEmpty | pkg/model/registry.go:322-334 | a registry whose sets are all empty is unchanged by subtracting it from itself |
| RegistryState.DeletedAll | pkg/model/registry.go:332-334 | defines the state after deleting a sequence of visits in order; its properties are in `DeletedAllShape`, `DeletedAllCompleteAt` and `DeletedAllComplete` |
| RegistryState.DeletedAllShape | pkg/model/registry.go:332-334 | after deleting a sequence of visits, an entry remains exactly when its identity was not visited under its type; the types are the old ones plus the visited ones |
| RegistryState.TypesOfEnumeration | pkg/model/registry.go:126-132 | a full walk visits exactly the types whose sets are not empty |
| RegistryState.IdsOfEnumeration | pkg/model/registry.go:126-132 | under each type, a full walk visits exactly the identities stored there |
| RegistryState.DeletedAllCompleteAt | pkg/model/registry.go:332-334 | under each type, deleting every entry that a walk of `sub` visits leaves exactly the set difference |
| RegistryState.DeletedAllComplete | pkg/model/registry.go:332-334 | deleting every entry that a walk of `sub` visits is exactly the subtraction that `SubtractedSpec` describes |
| RegistryState.RegisteredAll | pkg/model/registry.go:159-178 | defines the state after registering a sequence of objects in order; its properties are in `RegisteredAllKeys`, `Uniqueness`, `RegisteredAllHasType`, `RegisteredAllKeepsExisting`, `RegisteredAllFirstWins` and `RegisteredAllIsolation` |
| RegistryState.RegisteredAllKeys | pkg/model/registry.go:387-395 | registering a sequence of objects adds exactly their identities to the type's set |
| RegistryState.Uniqueness | pkg/model/registry.go:387-395 | after registering any sequence into a fresh registry, the set's size is the number of distinct identities in it |
| RegistryState.RegisteredAllHasType | pkg/model/registry.go:166 | registering at least one object creates the type's set |
| RegistryState.RegisteredAllKeepsExisting | pkg/model/registry.go:390-392 | a stored snapshot survives any later registrations unchanged |
| RegistryState.RegisteredAllFirstWins | pkg/model/registry.go:387-395 | the snapshot stored for an identity is the one from the first object with that identity, whatever later objects carry |
| RegistryState.RegisteredAllIsolation | pkg/model/registry.go:159-178 | registrations under one type never change whether another type exists or what it holds |
| ObjectRegistry.Registry.constructor | pkg/model/registry.go:89-93 | a new registry has no types |
| ObjectRegistry.EnsureObjectSetForType | pkg/model/registry.go:361-384 | nil for a nil registry; otherwise returns the type's set, gives the state `Ensured`, returns an existing set unchanged, and creates one empty set (one more type) when the type is missing |
| ObjectRegistry.Len | pkg/model/registry.go:98-116 | 0 on nil; with no types, the number of types, nothing changed; with types, the sum of their sizes from before the call, with the state `EnsuredAll` |
| ObjectRegistry.RegisterEntity | pkg/model/registry.go:159-178 | no-op on nil; otherwise the state becomes `Registered` |
| ObjectRegistry.HasEntity | pkg/model/registry.go:340-347 | true exactly when the identity is stored under the type; the type's set is created as a side effect |
| ObjectRegistry.DeleteEntity | pkg/model/registry.go:350-357 | true exactly when the identity was stored; the state becomes `Deleted` |
| ObjectRegistry.Walk | pkg/model/registry.go:122-134 | no visits on nil; otherwise every (type, snapshot) entry is visited exactly once and nothing else |
| ObjectRegistry.WalkEntityType | pkg/model/registry.go:137-144 | no visits on nil; otherwise creates the type's set, the state becomes `Ensured`, and each snapshot the set held before is visited exactly once |
| ObjectRegistry.String | pkg/model/registry.go:147-156 | "" on nil; otherwise the dump lines of a full walk of the registry, in walk order |
| ObjectRegistry.Line | pkg/model/registry.go:153 | defines one dump line, `<type>: <namespace>/<name>` and a line break; its properties are in `LineHasOneBreak` |
| ObjectRegistry.Lines | pkg/model/registry.go:152-154 | defines the dump of a sequence of visits; its properties are in `OneLinePerVisit`, and `String` is proved to return it |
| ObjectRegistry.NewlinesConcat | pkg/model/registry.go:152-154 | line breaks in a concatenation add up |
| ObjectRegistry.NoNewlines | pkg/model/registry.go:153 | a string without a line break contributes none |
| ObjectRegistry.LineHasOneBreak | pkg/model/registry.go:153 | each dump line holds exactly one line break when the name and namespace hold none |
| ObjectRegistry.OneLinePerVisit | pkg/model/registry.go:152-154 | the dump has one line per visited entry |
| ObjectRegistry.Subtract | pkg/model/registry.go:322-337 | returns the receiver; with a nil `sub` nothing changes; otherwise the receiver's state becomes `Subtracted` of the two states from before the call; a registry subtracted from itself (allowed only when all its sets are empty) is unchanged |
| TypedRegistry.RegisterStatefulSet | pkg/model/registry.go:181-183 | `registerEntity` under StatefulSet |
| TypedRegistry.HasStatefulSet | pkg/model/registry.go:186-188 | membership of the identity under StatefulSet; creates that set |
| TypedRegistry.NumStatefulSet | pkg/model/registry.go:191-193 | 0 on nil; otherwise the number of StatefulSet entries; creates that set |
| TypedRegistry.WalkStatefulSet | pkg/model/registry.go:196-198 | visits each StatefulSet snapshot exactly once; creates that set |
| TypedRegistry.RegisterConfigMap | pkg/model/registry.go:201-203 | `registerEntity` under ConfigMap |
| TypedRegistry.HasConfigMap | pkg/model/registry.go:206-208 | membership of the identity under ConfigMap; creates that set |
| TypedRegistry.NumConfigMap | pkg/model/registry.go:211-213 | 0 on nil; otherwise the number of ConfigMap entries; creates that set |
| TypedRegistry.WalkConfigMap | pkg/model/registry.go:216-218 | visits each ConfigMap snapshot exactly once; creates that set |
| TypedRegistry.RegisterService | pkg/model/registry.go:221-223 | `registerEntity` under Service |
| TypedRegistry.HasService | pkg/model/registry.go:226-228 | membership of the identity under Service; creates that set |
| TypedRegistry.NumService | pkg/model/registry.go:231-233 | 0 on nil; otherwise the number of Service entries; creates that set |
| TypedRegistry.WalkService | pkg/model/registry.go:236-238 | visits each Service snapshot exactly once; creates that set |
| TypedRegistry.RegisterSecret | pkg/model/registry.go:241-243 | `registerEntity` under Secret |
| TypedRegistry.HasSecret | pkg/model/registry.go:246-248 | membership of the identity under Secret; creates that set |
| TypedRegistry.NumSecret | pkg/model/registry.go:251-253 | 0 on nil; otherwise the number of Secret entries; creates that set |
| TypedRegistry.WalkSecret | pkg/model/registry.go:256-258 | visits each Secret snapshot exactly once; creates that set |
| TypedRegistry.RegisterPVC | pkg/model/registry.go:261-263 | `registerEntity` under PVC |
| TypedRegistry.HasPVC | pkg/model/registry.go:266-268 | membership of the identity under PVC; creates that set |
| TypedRegistry.NumPVC | pkg/model/registry.go:271-273 | 0 on nil; otherwise the number of PVC entries; creates that set |
| TypedRegistry.WalkPVC | pkg/model/registry.go:276-278 | visits each PVC snapshot exactly once; creates that set |
| TypedRegistry.RegisterPDB | pkg/model/registry.go:302-304 | `registerEntity` under PDB |
| TypedRegistry.HasPDB | pkg/model/registry.go:307-309 | membership of the identity under PDB; creates that set |
| TypedRegistry.NumPDB | pkg/model/registry.go:312-314 | 0 on nil; otherwise the number of PDB entries; creates that set |
| TypedRegistry.WalkPDB | pkg/model/registry.go:317-319 | visits each PDB snapshot exactly once; creates that set |
| RegistryScenarios.SubtractScenarioStates | pkg/model/registry.go:322-337 | subtracting {ConfigMap} from {StatefulSet, ConfigMap} leaves the StatefulSet and an empty ConfigMap set |
| RegistryScenarios.ScenarioLeftCounts | pkg/model/registry.go:98-116 | what is left counts one object over the two types and has two types |
| RegistryScenarios.ScenarioRegistries | pkg/model/registry.go:159-178 | three registrations build the two registries of the scenario |
| RegistryScenarios.SubtractScenario | pkg/model/registry.go:322-337 | afterwards A has the StatefulSet and not the ConfigMap; `Len(StatefulSet, ConfigMap)` is 1 and `Len()` is 2 |
| RegistryScenarios.FirstSnapshotScenario | pkg/model/registry.go:387-395 | registering an identity with labels {a: 1} and then {a: 2} leaves one entry, and it carries {a: 1} |
| RegistryScenarios.IsolationScenario | pkg/model/registry.go:159-178 | an object registered as a StatefulSet is not reported as a ConfigMap |
| IPAddressWait.Begin | pkg/controller/chk/worker-exclude-include-wait.go:27-34 | returns at once exactly when the context is done; otherwise returns exactly when the installation is stopped; otherwise polls |
| IPAddressWait.Condition | pkg/controller/chk/worker-exclude-include-wait.go:46-58 | defines the three verdicts of one poll; its properties are in `ConditionCases`, `AddressesCheckedFirst`, `DeadlineIsStrict` and `NoPodsNoWait` |
| IPAddressWait.KeepPolling | pkg/controller/chk/worker-exclude-include-wait.go:45-58 | polls again exactly when there are fewer IPs than pods and at most one minute has passed |
| IPAddressWait.ConditionCases | pkg/controller/chk/worker-exclude-include-wait.go:46-58 | each of the three outcomes (all in place, time elapsed, still waiting) happens exactly when its counts and elapsed time say so |
| IPAddressWait.AddressesCheckedFirst | pkg/controller/chk/worker-exclude-include-wait.go:46-50 | with enough IPs the wait ends as complete, however much time has passed |
| IPAddressWait.DeadlineIsStrict | pkg/controller/chk/worker-exclude-include-wait.go:51-55 | at exactly one minute the wait goes on; one nanosecond later it stops |
| IPAddressWait.StopIsMonotone | pkg/controller/chk/worker-exclude-include-wait.go:45-58 | once the condition says stop, more IPs or more time still say stop |
| IPAddressWait.NoPodsNoWait | pkg/controller/chk/worker-exclude-include-wait.go:46 | with no pods the wait ends at once as complete |

## Left out

- Locks: the registry's reader/writer lock, each set's lock, and the double-checked creation in `ensureObjectSetForType` (pkg/model/registry.go:368-380). The model is sequential, so the two lookups collapse into one. Concurrent registration and the deadlocks of re-entrant calls are not modelled.
- Shared set pointers. In the source, `Registry.r` maps each type to a pointer to its `objectMetaSet`, and registry operations mutate that set through the pointer. In the model, `Registry.r` maps each type to the set's contents as a value, and the registry methods update that map entry in place, applying the set operations inline. `ObjectMetaSet` models the set's own methods on a standalone object. Not captured: aliasing between a set handed out by `ensureObjectSetForType` and later registry operations.
- `meta.Object` and `util.MergeStringMapsOverwrite`: a snapshot is the value (name, namespace, labels, annotations). Copying the maps is a value copy, so a snapshot can never alias the caller's object. Other metadata fields are not part of this model. In the source a set stores a pointer to its snapshot (pkg/model/registry.go:177, 393) and `walk` hands that same pointer to the callback (pkg/model/registry.go:424), so a callback could change a stored snapshot in place, even its name, and break the keying by identity; the model hands out values, so that mutation is not captured and `WellFormed` always holds.
- Map iteration order: Go leaves the order of `range` over a map unspecified. `Walk`, `WalkEntityType` and `String` pick an arbitrary order, and their contracts hold for every order.
- Callbacks: the visiting function of `Walk` and `walk` is modelled by returning the sequence of calls it would receive. A callback that itself calls back into the registry is left out.
- `fmt.Sprintf`: an entity type prints as its string constant and strings print as themselves. The `%s: %s/%s\n` layout is written out in `Line`.
- Subtract: subtracting a registry from itself deadlocks in the source as soon as the walk reaches an entry, because the removal asks for the write lock of the set whose read lock the walk holds (pkg/model/registry.go:399, 420). The model therefore requires every set to be empty when `sub` is the receiver itself; in that case nothing is visited and the registry is unchanged. The source deletes while it walks `sub`; the model walks `sub` first and then deletes. For two different registries, or for a self-subtraction that visits nothing, the result is the same.
- HasEntity, DeleteEntity and the `Has*` wrappers on a nil registry: the source panics on the nil set. The model requires a non-null registry.
- The registry's zero value (`&Registry{}` with a nil map) is not modelled. Registries come from `NewRegistry`.
- `waitForIPAddresses` as a whole: logging; the poll loop `w.c.poll` with its sleep and cancellation (it belongs to another file); `getPodsIPs` and `Status.GetPods`, which enter as the counts `numIPs` and `numPods`; `time.Now`, which enters as `elapsed` in nanoseconds; `util.IsContextDone` and `IsStopped`, which enter as booleans.
- KeepPolling: `elapsed` is an unbounded integer. Go's `Time.Sub` saturates at the limits of `int64`, which is unreachable in a one-minute wait.
- The `PV` entity type and its wrappers are commented out in the source (pkg/model/registry.go:41-43, 280-299) and are not modelled.
