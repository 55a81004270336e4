/** The per-prefab free list (class Pool in SmartPool.cs).

    The first half of this module states what each pool operation does as a
    function on the pool's value-level state (the world's objects, the next
    free id, the free stack and the name counter), and proves what the pool
    promises about those functions. The second half is the class itself,
    whose methods update the world and the pool's fields step by step and are
    proved to follow those functions. */
module Pooling {
  import opened Engine
  import opened Naming

  /** The exceptions the source lets escape to its caller, as values. */
  datatype Fault =
    | NullKey          // a null prefab used as a dictionary key (ArgumentNullException)
    | MissingKey       // a prefab with no pool looked up (KeyNotFoundException)
    | NullReference    // despawning an object that carries no pool marker
    | DestroyedObject  // reading a destroyed object (MissingReferenceException)
    | NullOriginal     // instantiating a null or destroyed prefab (ArgumentException)
    | NegativeCapacity // a stack made with a negative capacity (ArgumentOutOfRangeException)

  datatype Result<T> = Ok(value: T) | Err(fault: Fault)

  datatype Outcome = Pass | Fail(fault: Fault)

  type Objects = map<ObjId, GameObject>

  /** What a pool operation can read and change: the world's objects and next
      free id, the free stack (top at the end) and the name counter. */
  datatype PoolState = PoolState(objs: Objects, next: ObjId, stack: seq<ObjId>, nextId: nat)

  /** An operation's result together with the state it leaves behind. */
  datatype Step<T> = Step(result: T, after: PoolState)

  // ---------------------------------------------------------------------------
  // Invariants

  /** The free-stack invariant: entries are known objects, none appears twice,
      and every entry that is still alive is inactive and a child of the
      container c. Destroyed entries may linger; Spawn discards them. */
  ghost predicate Shelved(objs: Objects, c: ObjId, stack: seq<ObjId>) {
    && (forall i :: 0 <= i < |stack| ==> stack[i] in objs)
    && (forall i, j :: 0 <= i < j < |stack| ==> stack[i] != stack[j])
    && (forall i :: 0 <= i < |stack| && Live(objs, stack[i]) ==>
          !objs[stack[i]].active && objs[stack[i]].parent == Some(c))
  }

  /** The naming invariant: issued lists the instances the pool created, in
      order; the i-th carries the i-th generated name and points back at the
      pool. */
  ghost predicate Named(objs: Objects, c: ObjId, prefabName: string, issued: seq<ObjId>, nextId: nat) {
    && |issued| == nextId
    && forall i :: 0 <= i < |issued| ==>
         && issued[i] in objs
         && objs[issued[i]].name == InstanceName(prefabName, i)
         && objs[issued[i]].tag == Some(c)
  }

  /** Every instance a pool has created has a name of its own. */
  lemma NamedDistinct(objs: Objects, c: ObjId, prefabName: string, issued: seq<ObjId>, nextId: nat)
    requires Named(objs, c, prefabName, issued, nextId)
    ensures forall i, j :: 0 <= i < j < |issued| ==> objs[issued[i]].name != objs[issued[j]].name
  {
    forall i, j | 0 <= i < j < |issued|
      ensures objs[issued[i]].name != objs[issued[j]].name
    {
      InstanceNameInjective(prefabName, i, j);
    }
  }

  /** What one operation of the pool with container c may do to the world: add
      objects, unmarked or marked as belonging to c's pool; keep every known
      object's name and marker; never bring a destroyed object back; and, of
      the live inactive objects, change only children of c. */
  ghost predicate Confined(before: Objects, after: Objects, c: ObjId) {
    && before.Keys <= after.Keys
    && (forall id :: id in after && id !in before && after[id].tag.Some? ==> after[id].tag.value == c)
    && (forall id :: id in before ==>
          && after[id].name == before[id].name
          && after[id].tag == before[id].tag
          && (after[id].alive ==> before[id].alive)
          && (before[id].alive && !before[id].active && before[id].parent != Some(c) && after[id].alive ==>
                !after[id].active && after[id].parent == before[id].parent))
  }

  lemma ConfinedTrans(a: Objects, b: Objects, d: Objects, c: ObjId)
    requires Confined(a, b, c) && Confined(b, d, c)
    ensures Confined(a, d, c)
  {
  }

  /** An operation of one pool keeps the free-stack invariant of every pool
      with another container. */
  lemma ConfinedKeepsShelved(before: Objects, after: Objects, c: ObjId, other: ObjId, stack: seq<ObjId>)
    requires Confined(before, after, c) && c != other
    requires Shelved(before, other, stack)
    ensures Shelved(after, other, stack)
  {
  }

  /** ... and its naming invariant. */
  lemma ConfinedKeepsNamed(before: Objects, after: Objects, c: ObjId,
                           owner: ObjId, prefabName: string, issued: seq<ObjId>, nextId: nat)
    requires Confined(before, after, c)
    requires Named(before, owner, prefabName, issued, nextId)
    ensures Named(after, owner, prefabName, issued, nextId)
  {
  }

  /** Destroying any object with its subtree keeps every pool's invariant:
      names, markers and parents stay, and only live objects are
      constrained. */
  lemma DestroyKeepsInv(objs: Objects, next: ObjId, id: ObjId, q: ObjId, stack: seq<ObjId>, nextId: nat,
                        prefab: Option<ObjId>, prefabName: string, issued: seq<ObjId>)
    requires PoolInv(objs, next, stack, nextId, q, prefab, prefabName, issued)
    ensures PoolInv(Demolished(objs, id, next), next, stack, nextId, q, prefab, prefabName, issued)
  {
  }

  /** Destroying an object with its subtree is confined to any pool. */
  lemma DemolishedConfined(objs: Objects, x: ObjId, depth: nat, c: ObjId)
    ensures Confined(objs, Demolished(objs, x, depth), c)
  {
  }

  /** Destroying a pool's container with its subtree leaves no live entry on
      its free stack, so the next Spawn of that pool creates. */
  lemma DemolishedEmptiesStack(st: PoolState, c: ObjId)
    requires WellFormed(st.objs, st.next) && c in st.objs && Shelved(st.objs, c, st.stack)
    ensures TrimDead(Demolished(st.objs, c, st.next), st.stack) == []
  {
    var after := Demolished(st.objs, c, st.next);
    DemolishedSubtree(st.objs, c, st.next);
    assert forall i :: 0 <= i < |st.stack| ==> !Live(after, st.stack[i]);
    TrimDeadAll(after, st.stack);
  }

  lemma ConfinedRefl(objs: Objects, c: ObjId)
    ensures Confined(objs, objs, c)
  {
  }

  /** Replacing one known object is confined to c's pool when its name and
      marker stay, it is not brought back, and it stays inactive under the
      same parent unless it was a live inactive child of c or active. */
  lemma ConfinedUpdate(objs: Objects, id: ObjId, o: GameObject, c: ObjId)
    requires id in objs && o.name == objs[id].name && o.tag == objs[id].tag
    requires o.alive ==> objs[id].alive
    requires objs[id].alive && !objs[id].active && objs[id].parent != Some(c) && o.alive ==>
               !o.active && o.parent == objs[id].parent
    ensures Confined(objs, objs[id := o], c)
  {
  }

  /** Adding a new object is confined to c's pool when it is unmarked or
      marked with that pool. */
  lemma ConfinedAdd(objs: Objects, id: ObjId, o: GameObject, c: ObjId)
    requires id !in objs && (o.tag.Some? ==> o.tag.value == c)
    ensures Confined(objs, objs[id := o], c)
  {
  }

  /** An operation of one pool keeps the whole invariant of every pool with
      another container. */
  lemma ConfinedKeepsInv(before: Objects, after: Objects, next0: ObjId, next: ObjId, c: ObjId,
                         q: ObjId, stack: seq<ObjId>, nextId: nat,
                         prefab: Option<ObjId>, prefabName: string, issued: seq<ObjId>)
    requires PoolInv(before, next0, stack, nextId, q, prefab, prefabName, issued)
    requires Confined(before, after, c) && c != q && WellFormed(after, next)
    ensures PoolInv(after, next, stack, nextId, q, prefab, prefabName, issued)
  {
    ConfinedKeepsShelved(before, after, c, q, stack);
    ConfinedKeepsNamed(before, after, c, q, prefabName, issued, nextId);
  }

  // ---------------------------------------------------------------------------
  // Spawn

  /** The free stack with the destroyed entries on top removed: what is left
      after Spawn has popped and discarded them. */
  function TrimDead(objs: Objects, stack: seq<ObjId>): (r: seq<ObjId>)
    ensures |r| <= |stack| && r == stack[..|r|]
    ensures r == [] || Live(objs, r[|r| - 1])
    ensures forall i :: |r| <= i < |stack| ==> !Live(objs, stack[i])
  {
    if stack == [] || Live(objs, stack[|stack| - 1]) then stack
    else TrimDead(objs, stack[..|stack| - 1])
  }

  /** So after its container has been destroyed, a pool hands out none of
      its old entries: Spawn creates a new instance at the next free id, or
      throws when the prefab is gone too. */
  lemma SpawnedAfterDemolished(st: PoolState, c: ObjId, prefab: Option<ObjId>, position: Vector3, rotation: Quaternion)
    requires WellFormed(st.objs, st.next) && c in st.objs && Shelved(st.objs, c, st.stack)
    ensures var s := Spawned(st.(objs := Demolished(st.objs, c, st.next)), c, prefab, position, rotation);
      && s.after.stack == []
      && (s.result.Ok? ==> s.result.value == st.next && s.after.nextId == st.nextId + 1)
  {
    DemolishedEmptiesStack(st, c);
  }

  /** With no live entry, the whole stack is dropped. */
  lemma {:induction false} TrimDeadAll(objs: Objects, stack: seq<ObjId>)
    requires forall i :: 0 <= i < |stack| ==> !Live(objs, stack[i])
    ensures TrimDead(objs, stack) == []
  {
    if stack != [] {
      TrimDeadAll(objs, stack[..|stack| - 1]);
    }
  }

  /** Spawn(position, rotation). Destroyed entries are popped and dropped; the
      first live entry is reused; with none left, a new instance is created
      from the prefab, named, marked and parented under the container. The
      instance handed out is placed and activated. Creating from a null or
      destroyed prefab throws, after the stack has been emptied. */
  function Spawned(st: PoolState, c: ObjId, prefab: Option<ObjId>,
                   position: Vector3, rotation: Quaternion): (s: Step<Result<ObjId>>)
    ensures s.result.Ok? ==>
              && Live(s.after.objs, s.result.value)
              && s.after.objs[s.result.value].active
              && s.after.objs[s.result.value].position == position
              && s.after.objs[s.result.value].rotation == rotation
    ensures s.result.Err? <==> (prefab.None? || !Live(st.objs, prefab.value)) && TrimDead(st.objs, st.stack) == []
  {
    var live := TrimDead(st.objs, st.stack);
    if live != [] then
      var id := live[|live| - 1];
      Step(Ok(id), st.(objs := st.objs[id := st.objs[id].(position := position, rotation := rotation, active := true)],
                       stack := live[..|live| - 1]))
    else if prefab.None? || !Live(st.objs, prefab.value) then
      Step(Err(NullOriginal), st.(stack := []))
    else
      var id := st.next;
      var obj := GameObject(true, true, Some(c), InstanceName(st.objs[prefab.value].name, st.nextId),
                            Some(c), position, rotation);
      Step(Ok(id), PoolState(st.objs[id := obj], st.next + 1, [], st.nextId + 1))
  }

  /** With no live entry on the stack and a live prefab, Spawn creates exactly
      one new object: a fresh id, marked with this pool, a child of the
      container, named after the prefab and the counter, which goes up by
      one. No other object changes. */
  lemma SpawnedCreates(st: PoolState, c: ObjId, p: ObjId, position: Vector3, rotation: Quaternion)
    requires WellFormed(st.objs, st.next) && c in st.objs
    requires TrimDead(st.objs, st.stack) == [] && Live(st.objs, p)
    ensures var s := Spawned(st, c, Some(p), position, rotation);
      && s.result == Ok(st.next) && st.next !in st.objs
      && WellFormed(s.after.objs, s.after.next)
      && s.after.objs.Keys == st.objs.Keys + {st.next}
      && (forall id :: id in st.objs ==> s.after.objs[id] == st.objs[id])
      && s.after.objs[st.next].tag == Some(c)
      && s.after.objs[st.next].parent == Some(c)
      && s.after.objs[st.next].name == InstanceName(st.objs[p].name, st.nextId)
      && s.after.nextId == st.nextId + 1 && s.after.next == st.next + 1
      && s.after.stack == []
  {
  }

  /** With a live entry on the stack, Spawn reuses the topmost one: the
      entries above it are all destroyed and are dropped, the stack below it
      is kept, no object is created and the counter does not move. */
  lemma SpawnedReuses(st: PoolState, c: ObjId, prefab: Option<ObjId>, position: Vector3, rotation: Quaternion)
    requires exists i :: 0 <= i < |st.stack| && Live(st.objs, st.stack[i])
    ensures var s := Spawned(st, c, prefab, position, rotation);
      var k := |s.after.stack|;
      && k < |st.stack| && s.after.stack == st.stack[..k]
      && s.result == Ok(st.stack[k]) && Live(st.objs, st.stack[k])
      && (forall i :: k < i < |st.stack| ==> !Live(st.objs, st.stack[i]))
      && s.after.objs.Keys == st.objs.Keys
      && (forall id :: id in st.objs && id != st.stack[k] ==> s.after.objs[id] == st.objs[id])
      && s.after.nextId == st.nextId && s.after.next == st.next
  {
    var live := TrimDead(st.objs, st.stack);
    var i :| 0 <= i < |st.stack| && Live(st.objs, st.stack[i]);
    assert i < |live|;
  }

  /** Spawn keeps the world well formed and never moves the next free id
      back. */
  lemma SpawnedWellFormed(st: PoolState, c: ObjId, prefab: Option<ObjId>, position: Vector3, rotation: Quaternion)
    requires WellFormed(st.objs, st.next) && c in st.objs
    ensures var s := Spawned(st, c, prefab, position, rotation);
      WellFormed(s.after.objs, s.after.next) && st.next <= s.after.next
  {
  }

  /** Spawn keeps the free-stack invariant. */
  lemma SpawnedShelved(st: PoolState, c: ObjId, prefab: Option<ObjId>, position: Vector3, rotation: Quaternion)
    requires Shelved(st.objs, c, st.stack)
    ensures var s := Spawned(st, c, prefab, position, rotation);
      Shelved(s.after.objs, c, s.after.stack)
  {
    var live := TrimDead(st.objs, st.stack);
    if live != [] {
      var id := live[|live| - 1];
      var s := Spawned(st, c, prefab, position, rotation);
      assert forall i :: 0 <= i < |s.after.stack| ==> s.after.stack[i] != id;
    }
  }

  /** Spawn touches only what a step of this pool may touch: the reused entry
      is an inactive child of the container, and a created instance is new
      and marked with this pool. */
  lemma SpawnedConfined(st: PoolState, c: ObjId, prefab: Option<ObjId>, position: Vector3, rotation: Quaternion)
    requires WellFormed(st.objs, st.next) && Shelved(st.objs, c, st.stack)
    ensures Confined(st.objs, Spawned(st, c, prefab, position, rotation).after.objs, c)
  {
    var live := TrimDead(st.objs, st.stack);
    if live != [] {
      var id := live[|live| - 1];
      assert id == st.stack[|live| - 1];
      ConfinedUpdate(st.objs, id, st.objs[id].(position := position, rotation := rotation, active := true), c);
    } else if prefab.None? || !Live(st.objs, prefab.value) {
      ConfinedRefl(st.objs, c);
    } else {
      var obj := GameObject(true, true, Some(c), InstanceName(st.objs[prefab.value].name, st.nextId),
                            Some(c), position, rotation);
      ConfinedAdd(st.objs, st.next, obj, c);
    }
  }

  /** Spawn keeps the naming invariant: the counter moves only when an
      instance is created, and then the new instance is the next issued one,
      named after the prefab and the old counter. */
  lemma SpawnedNamed(st: PoolState, c: ObjId, prefab: Option<ObjId>, position: Vector3, rotation: Quaternion,
                     prefabName: string, issued: seq<ObjId>)
    requires Confined(st.objs, Spawned(st, c, prefab, position, rotation).after.objs, c)
    requires Named(st.objs, c, prefabName, issued, st.nextId)
    requires prefab.Some? && Live(st.objs, prefab.value) ==> st.objs[prefab.value].name == prefabName
    ensures var s := Spawned(st, c, prefab, position, rotation);
      && (s.after.nextId == st.nextId ==> Named(s.after.objs, c, prefabName, issued, st.nextId))
      && (s.after.nextId != st.nextId ==>
            s.result.Ok? && Named(s.after.objs, c, prefabName, issued + [s.result.value], s.after.nextId))
  {
    var s := Spawned(st, c, prefab, position, rotation);
    ConfinedKeepsNamed(st.objs, s.after.objs, c, c, prefabName, issued, st.nextId);
    if s.after.nextId != st.nextId {
      var all := issued + [s.result.value];
      forall i | 0 <= i < |all|
        ensures all[i] in s.after.objs && s.after.objs[all[i]].name == InstanceName(prefabName, i)
             && s.after.objs[all[i]].tag == Some(c)
      {
        if i < |issued| {
          assert all[i] == issued[i];
        }
      }
    }
  }

  /** The pool's invariant on its value-level state: the world is well
      formed, the container exists, the prefab (while set) exists and still
      has the name the pool was made with, and the free-stack and naming
      invariants hold. */
  ghost predicate PoolInv(objs: Objects, next: ObjId, stack: seq<ObjId>, nextId: nat,
                          c: ObjId, prefab: Option<ObjId>, prefabName: string, issued: seq<ObjId>) {
    && WellFormed(objs, next) && c in objs
    && (prefab.Some? ==> prefab.value in objs && objs[prefab.value].name == prefabName)
    && Shelved(objs, c, stack)
    && Named(objs, c, prefabName, issued, nextId)
  }

  /** Spawn keeps the pool's invariant, recording a created instance as
      issued, and touches only what a step of this pool may touch. */
  lemma SpawnedKeeps(st: PoolState, c: ObjId, prefab: Option<ObjId>, position: Vector3, rotation: Quaternion,
                     prefabName: string, issued: seq<ObjId>)
    requires PoolInv(st.objs, st.next, st.stack, st.nextId, c, prefab, prefabName, issued)
    ensures var s := Spawned(st, c, prefab, position, rotation);
      && Confined(st.objs, s.after.objs, c)
      && (s.after.nextId == st.nextId ==> PoolInv(s.after.objs, s.after.next, s.after.stack, s.after.nextId, c, prefab, prefabName, issued))
      && (s.after.nextId != st.nextId ==>
            s.result.Ok? && PoolInv(s.after.objs, s.after.next, s.after.stack, s.after.nextId, c, prefab, prefabName, issued + [s.result.value]))
  {
    SpawnedWellFormed(st, c, prefab, position, rotation);
    SpawnedShelved(st, c, prefab, position, rotation);
    SpawnedConfined(st, c, prefab, position, rotation);
    SpawnedNamed(st, c, prefab, position, rotation, prefabName, issued);
  }

  /** Every instance Spawn hands out is a child of the container. */
  lemma SpawnedInContainer(st: PoolState, c: ObjId, prefab: Option<ObjId>, position: Vector3, rotation: Quaternion)
    requires Shelved(st.objs, c, st.stack)
    ensures var s := Spawned(st, c, prefab, position, rotation);
      s.result.Ok? ==> IsChild(s.after.objs, s.result.value, c)
  {
    var live := TrimDead(st.objs, st.stack);
    if live != [] {
      assert live[|live| - 1] == st.stack[|live| - 1];
    }
  }

  lemma ShelvedPop(objs: Objects, c: ObjId, stack: seq<ObjId>)
    requires stack != [] && Shelved(objs, c, stack)
    ensures Shelved(objs, c, stack[..|stack| - 1])
  {
  }

  /** A destroyed entry on top of the stack is dropped and Spawn carries on as
      if it had never been there. */
  lemma SpawnedSkipsDead(st: PoolState, c: ObjId, prefab: Option<ObjId>, position: Vector3, rotation: Quaternion)
    requires st.stack != [] && !Live(st.objs, st.stack[|st.stack| - 1])
    ensures Spawned(st, c, prefab, position, rotation)
         == Spawned(st.(stack := st.stack[..|st.stack| - 1]), c, prefab, position, rotation)
  {
  }

  // ---------------------------------------------------------------------------
  // Despawn

  /** Despawn(obj): an active object is deactivated, pushed and parented under
      the container; an inactive one is left alone. (A destroyed one throws
      in the source; the state is unchanged.) */
  function Despawned(st: PoolState, c: ObjId, obj: ObjId): (after: PoolState)
    ensures after.next == st.next && after.nextId == st.nextId && after.objs.Keys == st.objs.Keys
  {
    if Live(st.objs, obj) && st.objs[obj].active then
      st.(objs := st.objs[obj := st.objs[obj].(active := false, parent := Some(c))], stack := st.stack + [obj])
    else st
  }

  /** Despawning an active object pushes it exactly once and leaves it an
      inactive child of the container; despawning anything else changes
      nothing, so a second Despawn never adds a second entry. */
  lemma DespawnedPushesOnce(st: PoolState, c: ObjId, obj: ObjId)
    requires Shelved(st.objs, c, st.stack)
    ensures var after := Despawned(st, c, obj);
      if Live(st.objs, obj) && st.objs[obj].active then
        && after.stack == st.stack + [obj]
        && multiset(after.stack)[obj] == 1
        && IsChild(after.objs, obj, c) && !after.objs[obj].active
        && (forall id :: id in st.objs && id != obj ==> after.objs[id] == st.objs[id])
      else after == st
  {
    if Live(st.objs, obj) && st.objs[obj].active {
      assert obj !in st.stack;
      assert multiset(st.stack)[obj] == 0;
    }
  }

  lemma DespawnedIdempotent(st: PoolState, c: ObjId, obj: ObjId)
    ensures Despawned(Despawned(st, c, obj), c, obj) == Despawned(st, c, obj)
  {
  }

  /** Despawn keeps the world well formed and the free-stack invariant, and
      touches only what a step of this pool may touch. */
  lemma DespawnedKeeps(st: PoolState, c: ObjId, obj: ObjId)
    requires WellFormed(st.objs, st.next) && c in st.objs
    requires Shelved(st.objs, c, st.stack)
    ensures var after := Despawned(st, c, obj);
      && WellFormed(after.objs, after.next)
      && Shelved(after.objs, c, after.stack)
      && Confined(st.objs, after.objs, c)
  {
    DespawnedPushesOnce(st, c, obj);
    if Live(st.objs, obj) && st.objs[obj].active {
      ConfinedUpdate(st.objs, obj, st.objs[obj].(active := false, parent := Some(c)), c);
    } else {
      ConfinedRefl(st.objs, c);
    }
  }

  /** ... and so the pool's whole invariant. */
  lemma DespawnedInv(st: PoolState, c: ObjId, obj: ObjId, prefab: Option<ObjId>, prefabName: string, issued: seq<ObjId>)
    requires PoolInv(st.objs, st.next, st.stack, st.nextId, c, prefab, prefabName, issued)
    ensures var after := Despawned(st, c, obj);
      PoolInv(after.objs, after.next, after.stack, after.nextId, c, prefab, prefabName, issued)
    ensures Confined(st.objs, Despawned(st, c, obj).objs, c)
  {
    DespawnedKeeps(st, c, obj);
    ConfinedKeepsNamed(st.objs, Despawned(st, c, obj).objs, c, c, prefabName, issued, st.nextId);
  }

  /** Despawning an object that is not a live active object elsewhere does not
      change the container's child list. */
  lemma DespawnedKeepsChildren(st: PoolState, c: ObjId, obj: ObjId, n: nat)
    requires Live(st.objs, obj) && st.objs[obj].active ==> IsChild(st.objs, obj, c)
    ensures ChildrenBelow(Despawned(st, c, obj).objs, c, n) == ChildrenBelow(st.objs, c, n)
  {
    ChildrenBelowFrame(Despawned(st, c, obj).objs, st.objs, c, n);
  }

  /** Spawning right after an active object was despawned recycles that
      object: it is handed out again, the stack is back as it was, and no
      object is created. */
  lemma SpawnedRecycles(st: PoolState, c: ObjId, obj: ObjId, prefab: Option<ObjId>,
                        position: Vector3, rotation: Quaternion)
    requires Live(st.objs, obj) && st.objs[obj].active
    ensures var s := Spawned(Despawned(st, c, obj), c, prefab, position, rotation);
      && s.result == Ok(obj) && s.after.stack == st.stack
      && s.after.next == st.next && s.after.nextId == st.nextId && s.after.objs.Keys == st.objs.Keys
      && s.after.objs[obj] == st.objs[obj].(parent := Some(c), position := position, rotation := rotation)
  {
    var d := Despawned(st, c, obj);
    assert d.stack[|d.stack| - 1] == obj;
    assert d.stack[..|d.stack| - 1] == st.stack;
  }

  // ---------------------------------------------------------------------------
  // ReturnPool, and the second half of Preload

  /** Despawn applied to each of kids in turn. */
  function ReturnedAll(st: PoolState, c: ObjId, kids: seq<ObjId>): (after: PoolState)
    ensures after.next == st.next && after.nextId == st.nextId && after.objs.Keys == st.objs.Keys
  {
    if kids == [] then st
    else Despawned(ReturnedAll(st, c, kids[..|kids| - 1]), c, kids[|kids| - 1])
  }

  /** The live active objects among ids, in order. */
  function ActiveAmong(objs: Objects, ids: seq<ObjId>): (r: seq<ObjId>)
    ensures forall i :: 0 <= i < |r| ==> r[i] in ids && Live(objs, r[i]) && objs[r[i]].active
    ensures forall i :: 0 <= i < |ids| && Live(objs, ids[i]) && objs[ids[i]].active ==> ids[i] in r
  {
    if ids == [] then []
    else
      var last := ids[|ids| - 1];
      ActiveAmong(objs, ids[..|ids| - 1]) + (if Live(objs, last) && objs[last].active then [last] else [])
  }

  /** Returning every child of the container leaves each of them an inactive
      child, pushes exactly those that were active, in child order, after the
      existing entries, and changes no other object. */
  lemma {:induction false} ReturnedAllEffect(st: PoolState, c: ObjId, kids: seq<ObjId>)
    requires forall i :: 0 <= i < |kids| ==> IsChild(st.objs, kids[i], c)
    requires forall i, j :: 0 <= i < j < |kids| ==> kids[i] != kids[j]
    ensures var after := ReturnedAll(st, c, kids);
      && after.stack == st.stack + ActiveAmong(st.objs, kids)
      && (forall i :: 0 <= i < |kids| ==> kids[i] in after.objs && after.objs[kids[i]] == st.objs[kids[i]].(active := false))
      && (forall id :: id in st.objs && id !in kids ==> after.objs[id] == st.objs[id])
  {
    if kids != [] {
      var init := kids[..|kids| - 1];
      var last := kids[|kids| - 1];
      ReturnedAllEffect(st, c, init);
      var mid := ReturnedAll(st, c, init);
      assert last !in init;
      assert mid.objs[last] == st.objs[last];
      var after := Despawned(mid, c, last);
      assert ActiveAmong(st.objs, kids) == ActiveAmong(st.objs, init) + (if st.objs[last].active then [last] else []);
      forall i | 0 <= i < |kids|
        ensures after.objs[kids[i]] == st.objs[kids[i]].(active := false)
      {
        if i < |kids| - 1 {
          assert kids[i] == init[i];
        }
      }
    }
  }

  /** ReturnAll keeps the world well formed, the free-stack invariant and the
      container's child list, and touches only what this pool may touch. */
  lemma {:induction false} ReturnedAllKeeps(st: PoolState, c: ObjId, kids: seq<ObjId>)
    requires WellFormed(st.objs, st.next) && c in st.objs
    requires Shelved(st.objs, c, st.stack)
    requires forall i :: 0 <= i < |kids| ==> IsChild(st.objs, kids[i], c)
    ensures var after := ReturnedAll(st, c, kids);
      && WellFormed(after.objs, after.next)
      && Shelved(after.objs, c, after.stack)
      && Confined(st.objs, after.objs, c)
      && ChildrenBelow(after.objs, c, st.next) == ChildrenBelow(st.objs, c, st.next)
  {
    if kids == [] {
    } else {
      var init := kids[..|kids| - 1];
      var last := kids[|kids| - 1];
      ReturnedAllKeeps(st, c, init);
      var mid := ReturnedAll(st, c, init);
      assert IsChild(mid.objs, last, c) by {
        ChildrenBelowComplete(st.objs, c, st.next, last);
      }
      DespawnedKeeps(mid, c, last);
      DespawnedKeepsChildren(mid, c, last, st.next);
      ConfinedTrans(st.objs, mid.objs, Despawned(mid, c, last).objs, c);
    }
  }

  lemma ReturnedAllSnoc(st: PoolState, c: ObjId, kids: seq<ObjId>, i: nat)
    requires i < |kids|
    ensures ReturnedAll(st, c, kids[..i + 1]) == Despawned(ReturnedAll(st, c, kids[..i]), c, kids[i])
  {
    assert kids[..i + 1][..i] == kids[..i];
  }

  /** Despawning objects none of which is a live active object changes
      nothing. */
  lemma {:induction false} ReturnedAllInactive(st: PoolState, c: ObjId, kids: seq<ObjId>)
    requires forall i :: 0 <= i < |kids| ==> !(Live(st.objs, kids[i]) && st.objs[kids[i]].active)
    ensures ReturnedAll(st, c, kids) == st
  {
    if kids != [] {
      ReturnedAllInactive(st, c, kids[..|kids| - 1]);
    }
  }

  /** ReturnPool(): every active child of the container is despawned, in
      child order. Reading the child list of a destroyed container throws. */
  function Returned(st: PoolState, c: ObjId): Step<Outcome>
  {
    if !Live(st.objs, c) then Step(Fail(DestroyedObject), st)
    else Step(Pass, ReturnedAll(st, c, ChildrenBelow(st.objs, c, st.next)))
  }

  /** ReturnPool leaves every child of the container an inactive child,
      pushes exactly the children that were active, in child order, and
      changes no other object; only a destroyed container makes it fail. */
  lemma ReturnedDeactivates(st: PoolState, c: ObjId)
    requires WellFormed(st.objs, st.next)
    ensures var s := Returned(st, c);
      && (s.result == Pass <==> Live(st.objs, c))
      && (s.result == Pass ==>
            && s.after.stack == st.stack + ActiveAmong(st.objs, ChildrenBelow(st.objs, c, st.next))
            && (forall id :: IsChild(st.objs, id, c) ==> IsChild(s.after.objs, id, c) && !s.after.objs[id].active))
      && s.after.objs.Keys == st.objs.Keys
      && (forall id :: id in st.objs && !IsChild(st.objs, id, c) ==> s.after.objs[id] == st.objs[id])
  {
    if Live(st.objs, c) {
      var kids := ChildrenBelow(st.objs, c, st.next);
      ChildrenBelowIncreasing(st.objs, c, st.next);
      ReturnedAllEffect(st, c, kids);
      var after := ReturnedAll(st, c, kids);
      forall id | IsChild(st.objs, id, c)
        ensures IsChild(after.objs, id, c) && !after.objs[id].active
      {
        ChildrenBelowComplete(st.objs, c, st.next, id);
      }
      forall id | id in st.objs && !IsChild(st.objs, id, c)
        ensures after.objs[id] == st.objs[id]
      {
        assert id !in kids;
      }
    }
  }

  /** Returning the pool a second time changes nothing: no child is active
      any more. */
  lemma ReturnedIdempotent(st: PoolState, c: ObjId)
    requires WellFormed(st.objs, st.next) && c in st.objs && Shelved(st.objs, c, st.stack)
    ensures var once := Returned(st, c);
      Returned(once.after, c) == once
  {
    var once := Returned(st, c);
    if Live(st.objs, c) {
      var kids := ChildrenBelow(st.objs, c, st.next);
      ReturnedAllKeeps(st, c, kids);
      ReturnedDeactivates(st, c);
      assert ChildrenBelow(once.after.objs, c, once.after.next) == kids;
      ReturnedAllInactive(once.after, c, kids);
    }
  }

  // ---------------------------------------------------------------------------
  // Preload

  /** The first n of Preload's Spawn calls at the origin, stopping at the
      first one that throws. */
  function SpawnedN(st: PoolState, c: ObjId, prefab: Option<ObjId>, n: nat): Step<Outcome>
  {
    if n == 0 then Step(Pass, st)
    else
      var s := SpawnedN(st, c, prefab, n - 1);
      if s.result.Fail? then s
      else
        var t := Spawned(s.after, c, prefab, Zero, Identity);
        Step(if t.result.Ok? then Pass else Fail(t.result.fault), t.after)
  }

  /** Preload(count): spawn count times, then despawn every child of the
      container. Reading the child list of a destroyed container throws. */
  function Preloaded(st: PoolState, c: ObjId, prefab: Option<ObjId>, count: int): Step<Outcome>
  {
    var s := SpawnedN(st, c, prefab, if count < 0 then 0 else count);
    if s.result.Fail? then s else Returned(s.after, c)
  }

  /** The ids from a up to, not including, a + n. */
  function Range(a: nat, n: nat): (r: seq<ObjId>)
    ensures |r| == n && forall i :: 0 <= i < n ==> r[i] == a + i
  {
    if n == 0 then [] else Range(a, n - 1) + [a + n - 1]
  }

  /** after is before grown by n new objects at ids a, a + 1, ...: active
      children of c, marked as its pool's; every object of before is kept as
      it was. */
  ghost predicate Grown(before: Objects, after: Objects, a: nat, n: nat, c: ObjId) {
    && (forall id :: id in before ==> id in after && after[id] == before[id])
    && (forall id :: id in after && id < a ==> id in before)
    && (forall id: ObjId :: a <= id < a + n ==>
          IsChild(after, id, c) && after[id].active && after[id].tag == Some(c))
  }

  lemma GrownStep(before: Objects, mid: Objects, after: Objects, a: nat, n: nat, c: ObjId)
    requires n > 0 && Grown(before, mid, a, n - 1, c)
    requires a + n - 1 !in mid && after.Keys == mid.Keys + {a + n - 1}
    requires forall id :: id in mid ==> after[id] == mid[id]
    requires IsChild(after, a + n - 1, c) && after[a + n - 1].active && after[a + n - 1].tag == Some(c)
    ensures Grown(before, after, a, n, c)
  {
    forall id: ObjId | a <= id < a + n
      ensures IsChild(after, id, c) && after[id].active && after[id].tag == Some(c)
    {
      if id < a + n - 1 {
        assert IsChild(mid, id, c);
      }
    }
  }

  /** Spawning n times from an empty stack with a live prefab creates n
      consecutive objects, all active children of the container, named with
      the next n counter values, and changes nothing that existed. (The names
      are the naming invariant's business; see SpawnedNamed.) */
  lemma {:induction false} SpawnedNFromEmpty(st: PoolState, c: ObjId, p: ObjId, n: nat)
    requires WellFormed(st.objs, st.next) && c in st.objs
    requires st.stack == [] && Live(st.objs, p)
    ensures var s := SpawnedN(st, c, Some(p), n);
      && s.result == Pass && s.after.stack == []
      && s.after.next == st.next + n && s.after.nextId == st.nextId + n
      && WellFormed(s.after.objs, s.after.next)
      && Grown(st.objs, s.after.objs, st.next, n, c)
  {
    if n > 0 {
      var m := n - 1;
      SpawnedNFromEmpty(st, c, p, m);
      var s := SpawnedN(st, c, Some(p), m);
      SpawnedGrows(st, s.after, c, p, m);
      SpawnedNStep(st, c, Some(p), m);
    }
  }

  /** One more spawn after m successful ones. */
  lemma SpawnedNStep(st: PoolState, c: ObjId, prefab: Option<ObjId>, m: nat)
    requires SpawnedN(st, c, prefab, m).result == Pass
    ensures var t := Spawned(SpawnedN(st, c, prefab, m).after, c, prefab, Zero, Identity);
      SpawnedN(st, c, prefab, m + 1) == Step(if t.result.Ok? then Pass else Fail(t.result.fault), t.after)
  {
  }

  /** One turn of Preload's first loop, after i passing turns: a passing
      Spawn makes it i + 1 passing turns, and a throwing one is the outcome
      of all n turns. */
  lemma SpawnedNNext(st: PoolState, mid: PoolState, c: ObjId, prefab: Option<ObjId>, i: nat, n: nat,
                     s: Result<ObjId>, after: PoolState)
    requires i < n && SpawnedN(st, c, prefab, i) == Step(Pass, mid)
    requires Step(s, after) == Spawned(mid, c, prefab, Zero, Identity)
    ensures s.Ok? ==> SpawnedN(st, c, prefab, i + 1) == Step(Pass, after)
    ensures s.Err? ==> SpawnedN(st, c, prefab, n) == Step(Fail(s.fault), after)
  {
    SpawnedNStep(st, c, prefab, i);
    if s.Err? {
      SpawnedNStopped(st, c, prefab, i + 1, n);
    }
  }

  /** Once a spawn has thrown, Preload's first loop is over. */
  lemma {:induction false} SpawnedNStopped(st: PoolState, c: ObjId, prefab: Option<ObjId>, k: nat, n: nat)
    requires k <= n && SpawnedN(st, c, prefab, k).result.Fail?
    ensures SpawnedN(st, c, prefab, n) == SpawnedN(st, c, prefab, k)
  {
    if k < n {
      SpawnedNStopped(st, c, prefab, k, n - 1);
    }
  }

  /** One more of those spawns. */
  lemma SpawnedGrows(st: PoolState, mid: PoolState, c: ObjId, p: ObjId, m: nat)
    requires WellFormed(mid.objs, mid.next) && c in st.objs && Live(st.objs, p)
    requires mid.stack == [] && mid.next == st.next + m && mid.nextId == st.nextId + m
    requires Grown(st.objs, mid.objs, st.next, m, c)
    ensures var t := Spawned(mid, c, Some(p), Zero, Identity);
      && t.result.Ok? && t.after.stack == []
      && t.after.next == st.next + (m + 1) && t.after.nextId == st.nextId + (m + 1)
      && WellFormed(t.after.objs, t.after.next)
      && Grown(st.objs, t.after.objs, st.next, m + 1, c)
  {
    assert mid.objs[p] == st.objs[p];
    SpawnedCreates(mid, c, p, Zero, Identity);
    var t := Spawned(mid, c, Some(p), Zero, Identity);
    GrownStep(st.objs, mid.objs, t.after.objs, st.next, m + 1, c);
  }

  /** The children of c below a + n, when below a there are none and the n
      ids from a on are all children. */
  lemma {:induction false} ChildrenOfRange(objs: Objects, c: ObjId, a: nat, n: nat)
    requires ChildrenBelow(objs, c, a) == []
    requires forall id: ObjId :: a <= id < a + n ==> IsChild(objs, id, c)
    ensures ChildrenBelow(objs, c, a + n) == Range(a, n)
  {
    if n > 0 {
      ChildrenOfRange(objs, c, a, n - 1);
      ChildrenSnoc(objs, c, a + n - 1);
    }
  }

  lemma ChildrenSnoc(objs: Objects, c: ObjId, m: nat)
    requires IsChild(objs, m, c)
    ensures ChildrenBelow(objs, c, m + 1) == ChildrenBelow(objs, c, m) + [m]
  {
  }

  /** Preloading a pool that has an empty stack, a live container with no
      children and a live prefab leaves exactly the count new instances on the
      stack, in creation order, every one of them alive, inactive, a child of
      the container and marked as the pool's. */
  lemma PreloadedFresh(st: PoolState, c: ObjId, p: ObjId, count: int)
    requires WellFormed(st.objs, st.next)
    requires st.stack == [] && Live(st.objs, p) && Live(st.objs, c)
    requires ChildrenBelow(st.objs, c, st.next) == []
    ensures var n := if count < 0 then 0 else count;
      var s := Preloaded(st, c, Some(p), count);
      && s.result == Pass
      && s.after.stack == Range(st.next, n)
      && s.after.nextId == st.nextId + n && s.after.next == st.next + n
      && (forall id: ObjId :: st.next <= id < st.next + n ==>
            IsChild(s.after.objs, id, c) && !s.after.objs[id].active && s.after.objs[id].tag == Some(c))
  {
    var n := if count < 0 then 0 else count;
    SpawnedNFromEmpty(st, c, p, n);
    SpawnedNChildren(st, c, p, n);
    var s := SpawnedN(st, c, Some(p), n);
    PreloadedPasses(st, c, Some(p), count);
    ReturnedFresh(st.objs, s.after, st.next, n, c);
  }

  /** When the spawns all succeed and the container is alive, Preload ends by
      returning the container's children. */
  lemma PreloadedPasses(st: PoolState, c: ObjId, prefab: Option<ObjId>, count: int)
    requires var s := SpawnedN(st, c, prefab, if count < 0 then 0 else count);
      s.result == Pass && Live(s.after.objs, c)
    ensures var s := SpawnedN(st, c, prefab, if count < 0 then 0 else count);
      Preloaded(st, c, prefab, count) == Step(Pass, ReturnedAll(s.after, c, ChildrenBelow(s.after.objs, c, s.after.next)))
  {
  }

  /** Returning n freshly grown active children leaves them all on the stack,
      in creation order, as inactive children. */
  lemma ReturnedFresh(before: Objects, mid: PoolState, a: nat, n: nat, c: ObjId)
    requires mid.stack == [] && Grown(before, mid.objs, a, n, c)
    ensures var after := ReturnedAll(mid, c, Range(a, n));
      && after.stack == Range(a, n)
      && (forall id: ObjId :: a <= id < a + n ==>
            IsChild(after.objs, id, c) && !after.objs[id].active && after.objs[id].tag == Some(c))
  {
    var kids := Range(a, n);
    GrownRange(before, mid.objs, a, n, c);
    ReturnedAllEffect(mid, c, kids);
    ActiveAmongAll(mid.objs, kids);
    var after := ReturnedAll(mid, c, kids);
    forall id: ObjId | a <= id < a + n
      ensures IsChild(after.objs, id, c) && !after.objs[id].active && after.objs[id].tag == Some(c)
    {
      assert kids[id - a] == id;
    }
  }

  /** The grown objects, listed in id order: live active children of c, none
      twice. */
  lemma GrownRange(before: Objects, objs: Objects, a: nat, n: nat, c: ObjId)
    requires Grown(before, objs, a, n, c)
    ensures forall i :: 0 <= i < n ==> IsChild(objs, Range(a, n)[i], c) && objs[Range(a, n)[i]].active
    ensures forall i, j :: 0 <= i < j < n ==> Range(a, n)[i] != Range(a, n)[j]
  {
    var kids := Range(a, n);
    forall i | 0 <= i < n
      ensures IsChild(objs, kids[i], c) && objs[kids[i]].active
    {
      assert a <= kids[i] < a + n;
    }
  }

  /** After those n spawns the container's children are exactly the n new
      instances, in creation order. */
  lemma SpawnedNChildren(st: PoolState, c: ObjId, p: ObjId, n: nat)
    requires WellFormed(st.objs, st.next)
    requires st.stack == [] && Live(st.objs, p) && Live(st.objs, c)
    requires ChildrenBelow(st.objs, c, st.next) == []
    ensures var s := SpawnedN(st, c, Some(p), n);
      && Live(s.after.objs, c)
      && ChildrenBelow(s.after.objs, c, s.after.next) == Range(st.next, n)
  {
    SpawnedNFromEmpty(st, c, p, n);
    var s := SpawnedN(st, c, Some(p), n);
    ChildrenOfAppended(st.objs, s.after.objs, c, st.next, n);
    assert s.after.next == st.next + n;
    assert s.after.objs[c] == st.objs[c];
  }

  /** A world grown by n children of c at ids a.. , and otherwise unchanged
      below a, lists exactly those children when c had none before. */
  lemma ChildrenOfAppended(before: Objects, after: Objects, c: ObjId, a: nat, n: nat)
    requires ChildrenBelow(before, c, a) == []
    requires forall id :: id in before ==> id in after && after[id] == before[id]
    requires forall id :: id in after && id < a ==> id in before
    requires forall id: ObjId :: a <= id < a + n ==> IsChild(after, id, c)
    ensures ChildrenBelow(after, c, a + n) == Range(a, n)
  {
    forall x: ObjId | x < a
      ensures IsChild(before, x, c) <==> IsChild(after, x, c)
    {
      if x in before {
        assert after[x] == before[x];
      } else {
        assert x !in after;
      }
    }
    ChildrenBelowFrame(before, after, c, a);
    ChildrenOfRange(after, c, a, n);
  }

  /** When every id is live and active, all of them are kept. */
  lemma {:induction false} ActiveAmongAll(objs: Objects, ids: seq<ObjId>)
    requires forall i :: 0 <= i < |ids| ==> Live(objs, ids[i]) && objs[ids[i]].active
    ensures ActiveAmong(objs, ids) == ids
  {
    if ids != [] {
      ActiveAmongAll(objs, ids[..|ids| - 1]);
      assert ids[..|ids| - 1] + [ids[|ids| - 1]] == ids;
    }
  }

  // ---------------------------------------------------------------------------
  // DestroyAll

  /** The scene after Destroy on each of ids in turn, each searching the
      hierarchy depth links deep: an object dies when it lies below one of
      ids, and nothing else about any object changes. */
  function Razed(objs: Objects, ids: seq<ObjId>, depth: nat): (r: Objects)
    ensures r.Keys == objs.Keys
    ensures forall id :: id in objs ==> r[id] == objs[id].(alive := r[id].alive)
    ensures forall id :: id in objs ==>
              (r[id].alive <==> objs[id].alive && forall i :: 0 <= i < |ids| ==> !Under(objs, id, ids[i], depth))
  {
    if ids == [] then objs
    else
      var m := Razed(objs, ids[..|ids| - 1], depth);
      var x := ids[|ids| - 1];
      assert forall id :: Under(m, id, x, depth) == Under(objs, id, x, depth) by {
        forall id { UnderFrame(m, objs, id, x, depth); }
      }
      Demolished(m, x, depth)
  }

  lemma RazedSnoc(objs: Objects, ids: seq<ObjId>, i: nat, depth: nat)
    requires i < |ids|
    ensures Razed(objs, ids[..i + 1], depth) == Demolished(Razed(objs, ids[..i], depth), ids[i], depth)
  {
    assert ids[..i + 1][..i] == ids[..i];
  }

  lemma RazedLast(objs: Objects, ids: seq<ObjId>, x: ObjId, depth: nat)
    ensures Razed(objs, ids + [x], depth) == Demolished(Razed(objs, ids, depth), x, depth)
  {
    assert (ids + [x])[..|ids|] == ids;
  }

  /** DestroyAll(): the prefab reference and the stack are cleared, then every
      child of the container and the container itself are destroyed, each
      with its subtree. Reading the child list of a destroyed container
      throws, after the clearing. */
  function DestroyedAll(st: PoolState, c: ObjId): Step<Outcome>
  {
    if !Live(st.objs, c) then Step(Fail(DestroyedObject), st.(stack := []))
    else Step(Pass, st.(objs := Razed(st.objs, ChildrenBelow(st.objs, c, st.next) + [c], st.next), stack := []))
  }

  /** DestroyAll empties the stack; when the container is alive it destroys
      the container and its whole subtree, so the container has no children
      left. Every object outside that subtree is unchanged, and the objects
      it touches change only in being destroyed. */
  lemma DestroyedAllEffect(st: PoolState, c: ObjId)
    requires WellFormed(st.objs, st.next)
    ensures var s := DestroyedAll(st, c);
      && s.after.stack == [] && s.after.next == st.next && s.after.nextId == st.nextId
      && (s.result == Pass <==> Live(st.objs, c))
      && s.after.objs.Keys == st.objs.Keys
      && (forall id :: id in st.objs ==> s.after.objs[id] == st.objs[id].(alive := s.after.objs[id].alive))
      && (s.result == Pass ==>
            && !Live(s.after.objs, c)
            && (forall id :: IsChild(st.objs, id, c) ==> !Live(s.after.objs, id))
            && (forall id :: id in st.objs && Under(st.objs, id, c, st.next) ==> !Live(s.after.objs, id))
            && (forall id :: !IsChild(s.after.objs, id, c)))
      && (forall id :: id in st.objs && !Under(st.objs, id, c, st.next + 1) ==> s.after.objs[id] == st.objs[id])
  {
    if Live(st.objs, c) {
      var kids := ChildrenBelow(st.objs, c, st.next);
      RazedTree(st.objs, kids, c, st.next);
      var after := Razed(st.objs, kids + [c], st.next);
      assert DestroyedAll(st, c) == Step(Pass, st.(objs := after, stack := []));
      assert c < st.next;
      forall id | IsChild(st.objs, id, c)
        ensures !Live(after, id)
      {
        assert Under(st.objs, id, c, st.next);
      }
    }
  }

  /** Destroying the children of c and then c destroys everything below c
      and changes nothing outside c's subtree searched one link deeper. */
  lemma RazedTree(objs: Objects, kids: seq<ObjId>, c: ObjId, depth: nat)
    requires forall i :: 0 <= i < |kids| ==> IsChild(objs, kids[i], c)
    ensures forall id :: id in objs && Under(objs, id, c, depth) ==> !Razed(objs, kids + [c], depth)[id].alive
    ensures forall id :: id in objs && !Under(objs, id, c, depth + 1) ==> Razed(objs, kids + [c], depth)[id] == objs[id]
  {
    var ids := kids + [c];
    var r := Razed(objs, ids, depth);
    assert ids[|kids|] == c;
    forall id | id in objs && Under(objs, id, c, depth)
      ensures !r[id].alive
    {
      assert Under(objs, id, ids[|kids|], depth);
    }
    forall id | id in objs && !Under(objs, id, c, depth + 1)
      ensures r[id] == objs[id]
    {
      forall i | 0 <= i < |ids|
        ensures !Under(objs, id, ids[i], depth)
      {
        if i < |kids| {
          assert IsChild(objs, ids[i], c);
          if Under(objs, id, ids[i], depth) {
            UnderThrough(objs, id, ids[i], c, depth);
          }
        } else if Under(objs, id, c, depth) {
          UnderDeeper(objs, id, c, depth);
        }
      }
      assert r[id].alive == objs[id].alive;
    }
  }

  /** DestroyAll keeps the pool's invariant, with the prefab cleared, and
      touches only what a step of this pool may touch. */
  lemma DestroyedAllKeeps(st: PoolState, c: ObjId, prefab: Option<ObjId>, prefabName: string, issued: seq<ObjId>)
    requires PoolInv(st.objs, st.next, st.stack, st.nextId, c, prefab, prefabName, issued)
    ensures var s := DestroyedAll(st, c);
      && PoolInv(s.after.objs, s.after.next, s.after.stack, s.after.nextId, c, None, prefabName, issued)
      && Confined(st.objs, s.after.objs, c)
  {
    var s := DestroyedAll(st, c);
    if Live(st.objs, c) {
      RazedKeeps(st.objs, st.next, ChildrenBelow(st.objs, c, st.next) + [c], st.next, c);
    } else {
      ConfinedRefl(st.objs, c);
    }
    ConfinedKeepsNamed(st.objs, s.after.objs, c, c, prefabName, issued, st.nextId);
  }

  /** Destroying objects keeps the scene well formed and is confined to any
      pool. */
  lemma RazedKeeps(objs: Objects, next: ObjId, ids: seq<ObjId>, depth: nat, c: ObjId)
    requires WellFormed(objs, next)
    ensures WellFormed(Razed(objs, ids, depth), next) && Confined(objs, Razed(objs, ids, depth), c)
  {
  }

  // ---------------------------------------------------------------------------
  // The pool object

  class Pool {
    const world: World
    /** The container transform every pooled instance is parented under. */
    const container: ObjId
    /** The prefab instances are copied from; DestroyAll sets it to null. */
    var prefab: Option<ObjId>
    /** The counter the next created instance is named after. */
    var nextId: nat
    /** The free stack of inactive instances; its top is the last element. */
    var inactive: seq<ObjId>
    /** The prefab's name when the pool was made. */
    ghost const prefabName: string
    /** The instances this pool created, in order of creation. */
    ghost var issued: seq<ObjId>

    ghost function State(): PoolState
      reads this, world
    {
      PoolState(world.objs, world.next, inactive, nextId)
    }

    /** The pool's invariant, over a given world state. */
    ghost predicate ValidIn(objs: Objects, next: ObjId)
      reads this
    {
      PoolInv(objs, next, inactive, nextId, container, prefab, prefabName, issued)
    }

    ghost predicate Valid()
      reads this, world
    {
      ValidIn(world.objs, world.next)
    }

    /** A pool over a container just built for a live prefab: the stack is
        empty and the counter at zero. */
    constructor (world: World, container: ObjId, prefab: ObjId)
      requires world.Valid() && container in world.objs && Live(world.objs, prefab)
      ensures Valid() && this.world == world && this.container == container
      ensures this.prefab == Some(prefab) && prefabName == world.objs[prefab].name
      ensures nextId == 0 && inactive == [] && issued == []
    {
      this.world := world;
      this.container := container;
      this.prefab := Some(prefab);
      this.prefabName := world.objs[prefab].name;
      nextId := 0;
      inactive := [];
      issued := [];
    }

    /** new Pool(prefab, initQuantify): a container named after the prefab is
        created under the registry's own object root, then the free stack is
        made with initial capacity initQuantify. A negative capacity throws
        there, and the container stays behind in the scene; any other
        capacity has no effect the pool can observe. */
    static method Make(world: World, prefab: ObjId, root: ObjId, initQuantify: int) returns (r: Result<Pool>)
      requires world.Valid() && Live(world.objs, prefab) && root in world.objs
      modifies world
      ensures world.Valid() && world.next == old(world.next) + 1
      ensures world.objs == old(world.objs)[old(world.next) :=
        GameObject(true, true, Some(root), old(world.objs[prefab].name) + "_pool", None, Zero, Identity)]
      ensures initQuantify < 0 ==> r == Err(NegativeCapacity)
      ensures initQuantify >= 0 ==>
        && r.Ok? && fresh(r.value) && r.value.world == world && r.value.Valid()
        && r.value.container == old(world.next)
        && r.value.prefab == Some(prefab) && r.value.prefabName == old(world.objs[prefab].name)
        && r.value.nextId == 0 && r.value.inactive == [] && r.value.issued == []
    {
      var name := world.objs[prefab].name;
      var c := world.NewGameObject(name + "_pool");
      world.SetParent(c, root);
      if initQuantify < 0 {
        return Err(NegativeCapacity);
      }
      var p := new Pool(world, c, prefab);
      return Ok(p);
    }

    /** Spawn(position, rotation), following Spawned. */
    method Spawn(position: Vector3, rotation: Quaternion) returns (r: Result<ObjId>)
      requires Valid()
      modifies this, world
      decreases |inactive|
      ensures Valid() && prefab == old(prefab)
      ensures Step(r, State()) == Spawned(old(State()), container, prefab, position, rotation)
      ensures nextId == old(nextId) ==> issued == old(issued)
      ensures nextId != old(nextId) ==> r.Ok? && issued == old(issued) + [r.value]
      ensures Confined(old(world.objs), world.objs, container)
    {
      if |inactive| == 0 {
        r := SpawnFresh(position, rotation);
        return;
      }
      ghost var st := State();
      var obj := inactive[|inactive| - 1];
      inactive := inactive[..|inactive| - 1];
      if !Live(world.objs, obj) {
        assert State() == st.(stack := st.stack[..|st.stack| - 1]);
        SpawnedSkipsDead(st, container, prefab, position, rotation);
        ShelvedPop(world.objs, container, st.stack);
        r := Spawn(position, rotation);
        return;
      }
      Place(obj, position, rotation);
      r := Ok(obj);
      SpawnedKeeps(st, container, prefab, position, rotation, prefabName, issued);
      assert Step(r, State()) == Spawned(st, container, prefab, position, rotation);
    }

    /** Spawn with an empty stack: create an instance from the prefab, or
        throw when there is none. */
    method SpawnFresh(position: Vector3, rotation: Quaternion) returns (r: Result<ObjId>)
      requires Valid() && inactive == []
      modifies this, world
      ensures Valid() && prefab == old(prefab)
      ensures Step(r, State()) == Spawned(old(State()), container, prefab, position, rotation)
      ensures nextId == old(nextId) ==> issued == old(issued)
      ensures nextId != old(nextId) ==> r.Ok? && issued == old(issued) + [r.value]
      ensures Confined(old(world.objs), world.objs, container)
    {
      ghost var st := State();
      if prefab.None? || !Live(world.objs, prefab.value) {
        return Err(NullOriginal);
      }
      var obj := Create(position, rotation);
      Place(obj, position, rotation);
      r := Ok(obj);
      SpawnedKeeps(st, container, prefab, position, rotation, prefabName, old(issued));
      assert Step(r, State()) == Spawned(st, container, prefab, position, rotation);
    }

    /** Spawn's creation branch: a copy of the prefab, named after it and the
        counter, marked with this pool and parented under the container. */
    method Create(position: Vector3, rotation: Quaternion) returns (obj: ObjId)
      requires world.Valid() && container in world.objs
      requires prefab.Some? && Live(world.objs, prefab.value)
      modifies this, world
      ensures world.Valid() && obj == old(world.next) && world.next == old(world.next) + 1
      ensures world.objs == old(world.objs)[obj := old(world.objs[prefab.value]).(
        name := InstanceName(old(world.objs[prefab.value]).name, old(nextId)),
        parent := Some(container), tag := Some(container), position := position, rotation := rotation)]
      ensures nextId == old(nextId) + 1 && issued == old(issued) + [obj]
      ensures prefab == old(prefab) && inactive == old(inactive)
    {
      obj := world.Instantiate(prefab.value, position, rotation);
      var name := InstanceName(world.objs[prefab.value].name, nextId);
      nextId := nextId + 1;
      world.SetName(obj, name);
      // GetComponent<PoolIdentify>() or AddComponent<PoolIdentify>(): either
      // way the marker ends up pointing at this pool.
      world.SetTag(obj, container);
      world.SetParent(obj, container);
      issued := issued + [obj];
    }

    /** Spawn's common tail: the instance is placed and activated. */
    method Place(obj: ObjId, position: Vector3, rotation: Quaternion)
      requires world.Valid() && Live(world.objs, obj)
      modifies world
      ensures world.Valid() && world.next == old(world.next)
      ensures world.objs == old(world.objs)[obj := old(world.objs)[obj].(
        position := position, rotation := rotation, active := true)]
    {
      world.SetPosition(obj, position);
      world.SetRotation(obj, rotation);
      world.SetActive(obj, true);
    }

    method Despawn(obj: ObjId) returns (r: Outcome)
      requires Valid()
      modifies this, world
      ensures Valid() && prefab == old(prefab) && nextId == old(nextId) && issued == old(issued)
      ensures r == if Live(old(world.objs), obj) then Pass else Fail(DestroyedObject)
      ensures State() == Despawned(old(State()), container, obj)
      ensures Confined(old(world.objs), world.objs, container)
    {
      ghost var st := State();
      if !Live(world.objs, obj) {
        ConfinedRefl(world.objs, container);
        return Fail(DestroyedObject);
      }
      if world.objs[obj].active {
        world.SetActive(obj, false);
        inactive := inactive + [obj];
        world.SetParent(obj, container);
      }
      assert State() == Despawned(st, container, obj);
      DespawnedInv(st, container, obj, prefab, prefabName, issued);
      return Pass;
    }

    /** ReturnPool(), following Returned: the child list is read afresh on
        every turn of the loop, and Despawn never changes it. */
    method ReturnPool() returns (r: Outcome)
      requires Valid()
      modifies this, world
      ensures Valid() && prefab == old(prefab) && nextId == old(nextId) && issued == old(issued)
      ensures Step(r, State()) == Returned(old(State()), container)
      ensures Confined(old(world.objs), world.objs, container)
    {
      ghost var st := State();
      if !Live(world.objs, container) {
        ConfinedRefl(world.objs, container);
        return Fail(DestroyedObject);
      }
      ghost var kids := world.Children(container);
      ConfinedRefl(world.objs, container);
      var i := 0;
      while i < |world.Children(container)|
        invariant 0 <= i <= |kids|
        invariant Valid() && prefab == old(prefab) && nextId == old(nextId) && issued == old(issued)
        invariant State() == ReturnedAll(st, container, kids[..i])
        invariant world.Children(container) == kids
        invariant Confined(st.objs, world.objs, container)
      {
        var child := world.Children(container)[i];
        ghost var mid := State();
        DespawnedKeepsChildren(mid, container, child, world.next);
        ReturnedAllSnoc(st, container, kids, i);
        if world.objs[child].active {
          var _ := Despawn(child);
          ConfinedTrans(st.objs, mid.objs, world.objs, container);
        }
        i := i + 1;
      }
      assert kids[..i] == kids;
      return Pass;
    }

    /** Preload(count), following Preloaded: count spawns at the origin,
        then Despawn on every child of the container. */
    method Preload(count: int) returns (r: Outcome)
      requires Valid()
      modifies this, world
      ensures Valid() && prefab == old(prefab)
      ensures Step(r, State()) == Preloaded(old(State()), container, prefab, count)
      ensures Confined(old(world.objs), world.objs, container)
    {
      ghost var st := State();
      r := SpawnRepeatedly(count);
      if r.Fail? {
        return;
      }
      if !Live(world.objs, container) {
        return Fail(DestroyedObject);
      }
      ghost var mid := State();
      DespawnChildren();
      ConfinedTrans(st.objs, mid.objs, world.objs, container);
      return Pass;
    }

    /** Preload's first loop: Spawn at the origin count times, stopping at
        the first Spawn that throws. */
    method SpawnRepeatedly(count: int) returns (r: Outcome)
      requires Valid()
      modifies this, world
      ensures Valid() && prefab == old(prefab)
      ensures Step(r, State()) == SpawnedN(old(State()), container, prefab, if count < 0 then 0 else count)
      ensures Confined(old(world.objs), world.objs, container)
    {
      ghost var st := State();
      ghost var n := if count < 0 then 0 else count;
      ConfinedRefl(world.objs, container);
      var i := 0;
      while i < count
        invariant 0 <= i <= n
        invariant Valid() && prefab == old(prefab)
        invariant SpawnedN(st, container, prefab, i) == Step(Pass, State())
        invariant Confined(st.objs, world.objs, container)
      {
        var s := SpawnNext(st, i, n);
        if s.Err? {
          return Fail(s.fault);
        }
        i := i + 1;
      }
      return Pass;
    }

    /** One turn of Preload's first loop, after i passing turns out of n. */
    method SpawnNext(ghost st: PoolState, ghost i: nat, ghost n: nat) returns (s: Result<ObjId>)
      requires Valid() && i < n && SpawnedN(st, container, prefab, i) == Step(Pass, State())
      requires Confined(st.objs, world.objs, container)
      modifies this, world
      ensures Valid() && prefab == old(prefab)
      ensures s.Ok? ==> SpawnedN(st, container, prefab, i + 1) == Step(Pass, State())
      ensures s.Err? ==> SpawnedN(st, container, prefab, n) == Step(Fail(s.fault), State())
      ensures Confined(st.objs, world.objs, container)
    {
      ghost var mid := State();
      s := Spawn(Zero, Identity);
      SpawnedNNext(st, mid, container, prefab, i, n, s, State());
      ConfinedTrans(st.objs, mid.objs, world.objs, container);
    }

    /** Preload's second loop: Despawn on every child of a live container. */
    method DespawnChildren()
      requires Valid() && Live(world.objs, container)
      modifies this, world
      ensures Valid() && prefab == old(prefab) && nextId == old(nextId) && issued == old(issued)
      ensures State() == ReturnedAll(old(State()), container, old(world.Children(container)))
      ensures Confined(old(world.objs), world.objs, container)
    {
      ghost var st := State();
      ghost var kids := world.Children(container);
      ConfinedRefl(world.objs, container);
      var i := 0;
      while i < |world.Children(container)|
        invariant 0 <= i <= |kids|
        invariant Valid() && prefab == old(prefab) && nextId == old(nextId) && issued == old(issued)
        invariant State() == ReturnedAll(st, container, kids[..i])
        invariant world.Children(container) == kids
        invariant Confined(st.objs, world.objs, container)
      {
        var child := world.Children(container)[i];
        ghost var mid := State();
        DespawnedKeepsChildren(mid, container, child, world.next);
        ReturnedAllSnoc(st, container, kids, i);
        var _ := Despawn(child);
        ConfinedTrans(st.objs, mid.objs, world.objs, container);
        i := i + 1;
      }
      assert kids[..i] == kids;
    }

    /** DestroyAll(), following DestroyedAll. Destruction is deferred to the
        end of the frame in the engine, so the child list does not change
        while the loop runs; the model destroys at once and reads the list
        before the loop. */
    method DestroyAll() returns (r: Outcome)
      requires Valid()
      modifies this, world
      ensures Valid() && prefab.None? && nextId == old(nextId) && issued == old(issued)
      ensures Step(r, State()) == DestroyedAll(old(State()), container)
      ensures Confined(old(world.objs), world.objs, container)
    {
      ghost var st := State();
      DestroyedAllKeeps(st, container, prefab, prefabName, issued);
      prefab := None;
      inactive := [];
      if !Live(world.objs, container) {
        r := Fail(DestroyedObject);
        assert Step(r, State()) == DestroyedAll(st, container);
        return;
      }
      var kids := world.Children(container);
      DestroyEach(kids);
      world.Destroy(container);
      RazedLast(st.objs, kids, container, st.next);
      r := Pass;
      assert Step(r, State()) == DestroyedAll(st, container);
    }

    /** DestroyAll's loop: destroy each of ids, with its subtree, in turn. */
    method DestroyEach(ids: seq<ObjId>)
      requires world.Valid() && forall i :: 0 <= i < |ids| ==> ids[i] in world.objs
      modifies world
      ensures world.Valid() && world.next == old(world.next)
      ensures world.objs == Razed(old(world.objs), ids, old(world.next))
    {
      var i := 0;
      while i < |ids|
        invariant 0 <= i <= |ids|
        invariant world.Valid() && world.next == old(world.next)
        invariant world.objs == Razed(old(world.objs), ids[..i], old(world.next))
      {
        RazedSnoc(old(world.objs), ids, i, old(world.next));
        world.Destroy(ids[i]);
        i := i + 1;
      }
      assert ids[..i] == ids;
    }
  }
}
