# SmartPool: a verified model of a prefab object pool

`SmartPool.cs` recycles game objects. It keeps one pool per prefab. Each pool
holds a stack of inactive instances, a counter that names new instances, and a
container object that every instance is parented under. A registry maps each
prefab to its pool, creates pools on first use, and routes Spawn, Preload,
Despawn and ReturnPool to the right pool.

The model has four modules, one file each:

- `Naming` (naming.dfy): the names a pool gives its instances. The prefab name,
  then `_`, then the counter, with one leading zero below ten. It proves the
  counter can be read back from a name, so two counters never share a name.
- `Engine` (engine.dfy): the part of the game engine the pool uses.
  - The scene is a map from object id to a record: alive, active, parent, name,
    pool marker, position, rotation.
  - A destroyed object is one whose `alive` flag is false. It stays in the map,
    because the engine makes it compare equal to null without forgetting it.
  - Destroying an object also destroys every object below it in the
    hierarchy, as the engine does.
  - The marker holds the id of the owning pool's container.
  - `World` is a class whose methods are the engine calls the pool makes.
- `Pooling` (pool.dfy): class `Pool`, in two halves.
  - Each operation is first stated as a function on a value: the scene, the
    next free id, the free stack and the name counter (`Spawned`, `Despawned`,
    `Returned`, `Preloaded`, `DestroyedAll`). The pool's promises are proved as
    lemmas about those functions.
  - The class methods change the scene and the pool's fields step by step,
    with the source's loops. Each method is proved to end in exactly the
    state its function gives.
- `Registry` (registry.dfy): class `SmartPool`.
  - It holds a dictionary from prefab to pool.
  - Its invariant says that every registered pool is valid and still holds
    the prefab it is registered under. No two pools share a container. Every
    marker in the scene belongs to a registered pool.
  - `Confined` in `Pooling` limits what a step of one pool may change. That is
    why a step of one pool keeps every other pool valid.

Exceptions that the source lets escape become values:

- `Result` / `Outcome` carry a `Fault`.
- Any change made before the throw is kept. For example, `DestroyAll` clears
  the stack before it reads the child list of a destroyed container, and a
  pool built with a negative capacity leaves its new container in the scene.

Behaviours of the code worth knowing:

- Registry `Preload` preloads only a pool that `Init` has just created. For
  a prefab that already has a pool it does nothing.
- Registry `Despawn` with the destroy flag set accepts any live object with
  no pool marker, a pool's container included. Destroying a container
  destroys every instance under it, so that pool's next `Spawn` creates a
  new instance (`Pooling.SpawnedAfterDemolished`).
- The free stack may still hold instances that were destroyed while pooled.
  Only the live entries are inactive children of the container. `Spawn` drops
  the destroyed entries on its way; the model keeps this retry as written.

## Model

| member | source | states |
|---|---|---|
| Naming.Decimal | Assets/Scripts/TestIEC/Pool/SmartPool.cs:60-62 | The counter printed in decimal is at least one digit, and digits only. It starts with '0' exactly when the counter is zero. It is one digit long exactly when the counter is below ten. |
| Naming.ParseDecimalOfDecimal | Assets/Scripts/TestIEC/Pool/SmartPool.cs:60-62 | Reading the printed counter back gives the counter. |
| Naming.InstanceNameShape | Assets/Scripts/TestIEC/Pool/SmartPool.cs:59-62 | A generated name is the prefab name, an underscore, then only digits. |
| Naming.InstanceIdReadBack | Assets/Scripts/TestIEC/Pool/SmartPool.cs:59-62 | The digits after the prefab name and the underscore spell the counter, with or without the padding zero. |
| Naming.InstanceNameInjective | Assets/Scripts/TestIEC/Pool/SmartPool.cs:59-62 | Two counter values give the same name if and only if they are equal. |
| Engine.ChildrenBelow | Assets/Scripts/TestIEC/Pool/SmartPool.cs:114-115 | childCount/GetChild: every listed id is a live child of the container. |
| Engine.ChildrenBelowIncreasing | Assets/Scripts/TestIEC/Pool/SmartPool.cs:129-131 | The child list is in increasing id order, so no child is visited twice. |
| Engine.ChildrenBelowComplete | Assets/Scripts/TestIEC/Pool/SmartPool.cs:149-152 | Every live child of the container is in the child list. |
| Engine.ChildrenBelowFrame | Assets/Scripts/TestIEC/Pool/SmartPool.cs:149-152 | Two scenes that agree on who is a child of the container give the same child list. The loop relies on this when Despawn leaves the list alone. |
| Engine.World.NewGameObject | Assets/Scripts/TestIEC/Pool/SmartPool.cs:35 | `new GameObject(name)`: one new active, unmarked root object with a fresh id. No other object changes. |
| Engine.World.Instantiate | Assets/Scripts/TestIEC/Pool/SmartPool.cs:57 | A root-level copy of a live prefab with a fresh id, named with "(Clone)", at the given place. No other object changes. |
| Engine.Demolished | Assets/Scripts/TestIEC/Pool/SmartPool.cs:115-118 | Destroying an object kills it. Objects outside its subtree do not change at all, and the objects inside change only in being destroyed; no dead object comes back. |
| Engine.DemolishedSubtree | Assets/Scripts/TestIEC/Pool/SmartPool.cs:229 | Destroying an object also kills each of its children and everything below each child. |
| Engine.World.Destroy | Assets/Scripts/TestIEC/Pool/SmartPool.cs:115-118 | `Destroy` / `DestroyImmediate`: the scene becomes `Demolished` of the object, so its whole subtree dies. The next free id stays. |
| Engine.World.SetActive | Assets/Scripts/TestIEC/Pool/SmartPool.cs:83 | Only the active flag of that one object changes. |
| Engine.World.SetParent | Assets/Scripts/TestIEC/Pool/SmartPool.cs:71 | Only the parent of that one object changes. |
| Engine.World.SetName | Assets/Scripts/TestIEC/Pool/SmartPool.cs:59-62 | Only the name of that one object changes. |
| Engine.World.SetTag | Assets/Scripts/TestIEC/Pool/SmartPool.cs:64-69 | Get-or-add of the marker, then pointing it at the pool: only that object's marker changes. |
| Engine.World.SetPosition | Assets/Scripts/TestIEC/Pool/SmartPool.cs:81 | Only the position of that one object changes. |
| Engine.World.SetRotation | Assets/Scripts/TestIEC/Pool/SmartPool.cs:82 | Only the rotation of that one object changes. |
| Pooling.NamedDistinct | Assets/Scripts/TestIEC/Pool/SmartPool.cs:59-62 | All instances a pool has created have pairwise distinct names. |
| Pooling.ConfinedKeepsInv | Assets/Scripts/TestIEC/Pool/SmartPool.cs:165 | A step confined to one pool's container keeps the whole invariant of every pool with another container. |
| Pooling.DestroyKeepsInv | Assets/Scripts/TestIEC/Pool/SmartPool.cs:229 | Destroying any object with its subtree keeps every pool's invariant. |
| Pooling.DemolishedConfined | Assets/Scripts/TestIEC/Pool/SmartPool.cs:229 | Destroying an object with its subtree keeps names and markers, revives nothing, and leaves every live inactive object where it was. |
| Pooling.DemolishedEmptiesStack | Assets/Scripts/TestIEC/Pool/SmartPool.cs:75-78 | Once a pool's container has been destroyed, no entry on its free stack is alive, so Spawn discards them all. |
| Pooling.SpawnedAfterDemolished | Assets/Scripts/TestIEC/Pool/SmartPool.cs:54-79 | After its container has been destroyed, the pool's Spawn hands out none of its old entries. It creates a new instance at the next free id, or throws when the prefab is gone too. |
| Pooling.TrimDeadAll | Assets/Scripts/TestIEC/Pool/SmartPool.cs:75-78 | When no entry on the stack is alive, Spawn discards the whole stack. |
| Pooling.TrimDead | Assets/Scripts/TestIEC/Pool/SmartPool.cs:75-78 | Popping and discarding destroyed entries leaves a prefix of the stack. Its top is live, and every entry removed was destroyed. |
| Pooling.Spawned | Assets/Scripts/TestIEC/Pool/SmartPool.cs:50-86 | A returned instance is live and active, at the requested position and rotation. Spawn fails exactly when no live entry is on the stack and the prefab is null or destroyed. |
| Pooling.SpawnedCreates | Assets/Scripts/TestIEC/Pool/SmartPool.cs:54-72 | With no live entry left, Spawn creates exactly one new object: a fresh id, marked with this pool, a child of the container, named after the prefab and the counter. The counter goes up by exactly one, and no existing object changes. |
| Pooling.SpawnedReuses | Assets/Scripts/TestIEC/Pool/SmartPool.cs:73-79 | With a live entry, Spawn hands out the topmost live entry. Everything above it was destroyed and is dropped, and the stack below it is kept. No object is created and the counter stays. |
| Pooling.SpawnedSkipsDead | Assets/Scripts/TestIEC/Pool/SmartPool.cs:77-78 | A destroyed top entry is dropped, and Spawn then behaves as if it had never been there. |
| Pooling.SpawnedShelved | Assets/Scripts/TestIEC/Pool/SmartPool.cs:73-79 | Spawn keeps the free-stack invariant: no duplicates, and every live entry is an inactive child of the container. |
| Pooling.SpawnedConfined | Assets/Scripts/TestIEC/Pool/SmartPool.cs:54-83 | Spawn keeps every object's name and marker and revives no destroyed object. It moves or activates no live inactive object outside this pool's container, and marks only with this pool. |
| Pooling.SpawnedNamed | Assets/Scripts/TestIEC/Pool/SmartPool.cs:59-69 | The counter moves only when an instance is created. That instance is then the next issued one, with the name for the old counter. |
| Pooling.SpawnedKeeps | Assets/Scripts/TestIEC/Pool/SmartPool.cs:50-86 | Spawn keeps the pool's whole invariant, recording a created instance as issued. |
| Pooling.SpawnedInContainer | Assets/Scripts/TestIEC/Pool/SmartPool.cs:71 | Every instance Spawn hands out is a child of the container. |
| Pooling.Despawned | Assets/Scripts/TestIEC/Pool/SmartPool.cs:92-100 | Despawn creates no object, does not move the next free id, and does not touch the counter. |
| Pooling.DespawnedPushesOnce | Assets/Scripts/TestIEC/Pool/SmartPool.cs:92-100 | An active object is pushed exactly once and becomes an inactive child of the container, and no other object changes. Anything else leaves the state as it was. |
| Pooling.DespawnedIdempotent | Assets/Scripts/TestIEC/Pool/SmartPool.cs:92-100 | Despawning the same object twice is the same as despawning it once. |
| Pooling.DespawnedKeeps | Assets/Scripts/TestIEC/Pool/SmartPool.cs:94-98 | Despawn keeps the free-stack invariant. It keeps every object's name and marker, revives nothing, and moves or activates no live inactive object outside this pool's container. |
| Pooling.DespawnedInv | Assets/Scripts/TestIEC/Pool/SmartPool.cs:92-100 | Despawn keeps the pool's whole invariant. |
| Pooling.DespawnedKeepsChildren | Assets/Scripts/TestIEC/Pool/SmartPool.cs:151-152 | Despawning a child of the container does not change the child list. |
| Pooling.SpawnedRecycles | Assets/Scripts/TestIEC/Pool/SmartPool.cs:73-98 | A Spawn right after an active object was despawned hands that same object back. The stack is as before, and no object is created. |
| Pooling.ReturnedAll | Assets/Scripts/TestIEC/Pool/SmartPool.cs:149-153 | Despawning a list of objects creates none and does not touch the counter. |
| Pooling.ActiveAmong | Assets/Scripts/TestIEC/Pool/SmartPool.cs:151 | The filter keeps exactly the live active objects of the list. |
| Pooling.ReturnedAllEffect | Assets/Scripts/TestIEC/Pool/SmartPool.cs:149-153 | After despawning each child in turn: every child is inactive; exactly the active ones were pushed, in child order; no other object changed. |
| Pooling.ReturnedAllKeeps | Assets/Scripts/TestIEC/Pool/SmartPool.cs:149-153 | That loop keeps the free-stack invariant and the container's child list. |
| Pooling.ReturnedAllInactive | Assets/Scripts/TestIEC/Pool/SmartPool.cs:151 | Despawning only inactive or destroyed objects changes nothing. |
| Pooling.ReturnedDeactivates | Assets/Scripts/TestIEC/Pool/SmartPool.cs:147-154 | ReturnPool passes if and only if the container is alive. It then leaves every child an inactive child and pushes exactly the children that were active, in order. Other objects never change. |
| Pooling.ReturnedIdempotent | Assets/Scripts/TestIEC/Pool/SmartPool.cs:147-154 | A second ReturnPool changes nothing. |
| Pooling.Range | Assets/Scripts/TestIEC/Pool/SmartPool.cs:125-127 | The n consecutive ids starting at a, in order. |
| Pooling.SpawnedNFromEmpty | Assets/Scripts/TestIEC/Pool/SmartPool.cs:125-128 | From an empty stack with a live prefab, n spawns pass. They create n consecutive new active children of the container, marked with the pool, and move the counter by n. |
| Pooling.SpawnedNStep | Assets/Scripts/TestIEC/Pool/SmartPool.cs:125-128 | One more turn of Preload's first loop is one more Spawn at the origin. |
| Pooling.SpawnedNNext | Assets/Scripts/TestIEC/Pool/SmartPool.cs:125-128 | After i passing turns, a passing Spawn makes i + 1 passing turns. A throwing Spawn is the outcome of all the turns. |
| Pooling.SpawnedNStopped | Assets/Scripts/TestIEC/Pool/SmartPool.cs:125-128 | Once a Spawn has thrown, further turns change nothing. |
| Pooling.SpawnedNChildren | Assets/Scripts/TestIEC/Pool/SmartPool.cs:125-129 | After those n spawns in an empty container, its children are exactly the n new instances, in creation order. |
| Pooling.PreloadedFresh | Assets/Scripts/TestIEC/Pool/SmartPool.cs:123-133 | Preloading an empty pool with a live prefab passes. It leaves exactly count new instances on the stack, in creation order. Each is an inactive child of the container, marked with the pool. |
| Pooling.PreloadedPasses | Assets/Scripts/TestIEC/Pool/SmartPool.cs:129-132 | When the spawns pass and the container is alive, Preload ends by despawning the container's children. |
| Pooling.ReturnedFresh | Assets/Scripts/TestIEC/Pool/SmartPool.cs:129-132 | Despawning n freshly created active children leaves all of them on the stack, in order, as inactive children. |
| Pooling.Razed | Assets/Scripts/TestIEC/Pool/SmartPool.cs:114-118 | Destroying a list of objects in turn kills exactly the objects that lie below one of them, and changes nothing else about any object. |
| Pooling.RazedTree | Assets/Scripts/TestIEC/Pool/SmartPool.cs:114-118 | Destroying the children of the container and then the container kills the container's whole subtree. Nothing outside it changes. |
| Pooling.DestroyedAllEffect | Assets/Scripts/TestIEC/Pool/SmartPool.cs:105-121 | DestroyAll empties the stack and passes if and only if the container is alive. It then destroys the container and its whole subtree, so no child is left. Objects outside that subtree do not change, and the objects it touches change only in being destroyed. |
| Pooling.DestroyedAllKeeps | Assets/Scripts/TestIEC/Pool/SmartPool.cs:105-118 | DestroyAll keeps the pool's invariant, with the prefab cleared. |
| Pooling.RazedKeeps | Assets/Scripts/TestIEC/Pool/SmartPool.cs:114-118 | Destroying objects keeps the scene well formed and is confined to any pool. |
| Pooling.Pool.Make | Assets/Scripts/TestIEC/Pool/SmartPool.cs:32-39 | `new Pool(prefab, initQuantify)`: one new container named "<prefab>_pool" under the registry's object, in every case. A negative capacity then throws, and the container stays. Otherwise it returns a new valid pool with an empty stack, the counter at zero and the prefab held. |
| Pooling.Pool.constructor | Assets/Scripts/TestIEC/Pool/SmartPool.cs:34-38 | The pool over the container just built: valid, with an empty stack and the counter at zero. |
| Pooling.Pool.Spawn | Assets/Scripts/TestIEC/Pool/SmartPool.cs:50-86 | The recursive Spawn, ending in exactly the result and state that `Spawned` gives. It keeps the pool valid and the issued-instance record. |
| Pooling.Pool.SpawnFresh | Assets/Scripts/TestIEC/Pool/SmartPool.cs:54-72 | The empty-stack branch, also following `Spawned`. |
| Pooling.Pool.Create | Assets/Scripts/TestIEC/Pool/SmartPool.cs:57-71 | Instantiate, name, mark and parent one new instance; the counter goes up by one. |
| Pooling.Pool.Place | Assets/Scripts/TestIEC/Pool/SmartPool.cs:81-83 | Only that instance's position, rotation and active flag change. |
| Pooling.Pool.Despawn | Assets/Scripts/TestIEC/Pool/SmartPool.cs:92-100 | Ends in the state `Despawned` gives. A destroyed object fails and nothing changes. |
| Pooling.Pool.ReturnPool | Assets/Scripts/TestIEC/Pool/SmartPool.cs:147-154 | The child loop ends in exactly the result and state `Returned` gives. |
| Pooling.Pool.Preload | Assets/Scripts/TestIEC/Pool/SmartPool.cs:123-133 | The two loops end in exactly the result and state `Preloaded` gives. |
| Pooling.Pool.SpawnRepeatedly | Assets/Scripts/TestIEC/Pool/SmartPool.cs:125-128 | Preload's first loop: count spawns at the origin, stopping at the first that throws. It ends in exactly the result and state `SpawnedN` gives. |
| Pooling.Pool.SpawnNext | Assets/Scripts/TestIEC/Pool/SmartPool.cs:127 | One turn of that loop. A passing Spawn adds one passing turn, and a throwing one is the loop's outcome. |
| Pooling.Pool.DespawnChildren | Assets/Scripts/TestIEC/Pool/SmartPool.cs:129-132 | Preload's second loop: Despawn on every child, in order. |
| Pooling.Pool.DestroyAll | Assets/Scripts/TestIEC/Pool/SmartPool.cs:105-121 | Ends in exactly the result and state `DestroyedAll` gives, with the prefab set to null. |
| Pooling.Pool.DestroyEach | Assets/Scripts/TestIEC/Pool/SmartPool.cs:114-115 | DestroyAll's child loop: the scene ends as `Razed` of the list. |
| Registry.OpenedEmpty | Assets/Scripts/TestIEC/Pool/SmartPool.cs:35-36 | A container that Init has just built has no children. |
| Registry.SpawnOpened | Assets/Scripts/TestIEC/Pool/SmartPool.cs:195-205 | The first Spawn of a new prefab creates instance `<prefab>_00`. It is the id after the container, an active child of it, marked with the pool and at the requested place. |
| Registry.PreloadOpened | Assets/Scripts/TestIEC/Pool/SmartPool.cs:207-213 | Preloading a new prefab passes. It leaves exactly count instances on a stack of size count. Each is inactive, a child of the container and marked; a negative count preloads nothing. |
| Registry.SmartPool.Rejoined | Assets/Scripts/TestIEC/Pool/SmartPool.cs:165 | After a step of one registered pool, the registry invariant holds again. |
| Registry.SmartPool.constructor | Assets/Scripts/TestIEC/Pool/SmartPool.cs:165 | An empty dictionary. |
| Registry.SmartPool.Init | Assets/Scripts/TestIEC/Pool/SmartPool.cs:172-186 | For a live prefab that is not yet a key: with a negative quantify it throws. The new container is then left in the scene and the dictionary is unchanged. Otherwise it returns true and adds exactly one fresh pool, keeping every existing entry. For any other prefab it returns false and nothing changes. |
| Registry.SmartPool.Regained | Assets/Scripts/TestIEC/Pool/SmartPool.cs:179 | After a step that adds no pool marker and is confined to a new object, the registry invariant holds again. |
| Registry.SmartPool.Adopt | Assets/Scripts/TestIEC/Pool/SmartPool.cs:179 | Inserting the new pool keeps the registry invariant. |
| Registry.SmartPool.RegisterKeeps | Assets/Scripts/TestIEC/Pool/SmartPool.cs:179 | Adding a valid pool with a container of its own keeps the registry invariant. |
| Registry.SmartPool.GetPool | Assets/Scripts/TestIEC/Pool/SmartPool.cs:201-205 | Fails with a null key or with a missing key, exactly when the prefab is null or unregistered and not live. Otherwise it returns the registered pool, or the one Init has just built. |
| Registry.SmartPool.Spawn | Assets/Scripts/TestIEC/Pool/SmartPool.cs:195-199 | Covers the three cases: no pool and none possible, which fails with nothing changed; a registered pool, which follows `Spawned`; a new pool, which follows `Spawned` from the freshly built state. Its frame holds only the routed pool, so every other pool is unchanged. |
| Registry.SmartPool.SpawnIn | Assets/Scripts/TestIEC/Pool/SmartPool.cs:197 | The registered pool spawns, and the registry stays valid. |
| Registry.SmartPool.Preload | Assets/Scripts/TestIEC/Pool/SmartPool.cs:207-213 | Only a pool that Init has just built is preloaded, following `Preloaded` from the freshly built state. Any other prefab changes nothing. |
| Registry.SmartPool.PreloadIn | Assets/Scripts/TestIEC/Pool/SmartPool.cs:211 | The new pool preloads, and the registry stays valid. |
| Registry.SmartPool.ReturnPool | Assets/Scripts/TestIEC/Pool/SmartPool.cs:241-248 | A null prefab fails on the lookup, and an unregistered one is a no-op. A registered one follows `Returned`. The dictionary and every other pool are unchanged. |
| Registry.SmartPool.ReturnIn | Assets/Scripts/TestIEC/Pool/SmartPool.cs:247 | The registered pool takes back its children, and the registry stays valid. |
| Registry.SmartPool.Despawn | Assets/Scripts/TestIEC/Pool/SmartPool.cs:219-235 | Null and destroyed objects fail. An unmarked object is destroyed with its subtree when the flag is set, and fails otherwise. A marked one goes to its pool's Despawn. Only the pool that marked a live object may change, so a failing call changes no pool. |
| Registry.SmartPool.DestroyUnmarked | Assets/Scripts/TestIEC/Pool/SmartPool.cs:225-229 | The object and its whole subtree are destroyed, even when it is a pool's container. The registry stays valid. |
| Registry.SmartPool.DespawnIn | Assets/Scripts/TestIEC/Pool/SmartPool.cs:233 | The marked object's pool takes it back, following `Despawned`, and the registry stays valid. |

## Left out

- `Pool.CheckPoolExist` (SmartPool.cs:139-142): it only converts the container
  to a bool, which depends on the engine's overloaded null test.
- `Resources.UnloadUnusedAssets` and the `Debug.Log` / `Debug.LogError`
  messages: they are host-side effects with no state the pool reads.
- The singleton base class `SingletonDontDestroy<SmartPool>` is not part of
  this model. The registry is an ordinary object, and its own game object is
  passed in as `root`.
- `Assets/Scripts/TestIEC/SkinItemManagerSO.cs` is not part of this model. It
  declares asset data and has no behaviour.
- Positions and rotations are only copied. Float arithmetic on them is not
  modelled, and each object has one stored position, which `SetParent(…,
  false)` leaves as it is. In the engine that call keeps the local position,
  so the world position follows the new parent. In Spawn (SmartPool.cs:71)
  the position is set again right after, at line 81. In Despawn
  (SmartPool.cs:98) it is not: an active object brought in from another
  parent keeps its world position in the model but its local position in
  the engine, until the next Spawn sets it. No pool logic reads a position.
- The `int` counter `nextId` is unbounded. Its 32-bit overflow after 2^31
  instances is not modelled, and names are printed for non-negative values
  only.
- Sibling order is modelled as id order among live children. This is
  creation order while every instance stays under its container. Moving a
  spawned instance to another parent is not modelled: only the pool
  re-parents objects here. In the engine, such an instance goes to the end of
  the child list when Despawn brings it back, so ReturnPool and Preload
  would visit it last. The model visits it by its id.
- Destroy is immediate in the model. The engine defers it to the end of the
  frame. `DestroyAll` reads the child list once before its loop, which is what
  the deferral gives.
- Engine.World.Destroy: the subtree is found by following parent links at
  most `next` links deep. A chain of parents through distinct ids below
  `next` is always shorter, so the bound matters only for a cycle of
  parents, which the engine forbids and the model does not rule out.
- Pooling.DestroyedAllEffect: "outside the subtree" is stated with a search
  one link deeper than the one that kills. The two agree when parent links
  form no cycle.
- Engine.World.Instantiate: it creates the copied root object only.
  `GameObject.Instantiate` (SmartPool.cs:57) copies the prefab together with
  its whole child hierarchy. So "exactly one new object" in
  Pooling.SpawnedCreates holds of the modelled map; in the engine the copy's
  descendants are new too. No pool logic reads the children of an instance.
- `SetParent` to a destroyed container is allowed, and simply records the
  parent. Despawn after DestroyAll therefore does not fault in the model.
- The public `type` field of `Pool` is never used.
- A non-negative `initQuantify` / `quantify` only sets the stack's initial
  capacity, so the model has no state for it. A negative one throws, which
  `Pool.Make` and `Init` model.
- The marker component is modelled as the id of its pool's container. Every
  pool creates a container of its own, so this identifies the pool.
- The `pools == null` branches (SmartPool.cs:174-175, 243-244) are never
  taken: the dictionary is created with the registry and never set to null.
- Registry.SmartPool.Despawn: for a marked object the contract says that some
  registered pool with that container took the Despawn step. The pool's key
  is not named, although the registry invariant makes it unique.
- Pooling.PreloadedFresh: it does not restate the generated names.
  Pooling.SpawnedNamed and the `Named` invariant cover them.
- The registry invariant requires every pool marker in the scene to belong to
  a registered pool. So a marked object arriving from outside the registry, or
  a pool torn down with `DestroyAll` while still registered, is not modelled;
  the registry itself never calls `DestroyAll`.
