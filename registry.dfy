/** The pool registry (class SmartPool in SmartPool.cs): a dictionary from
    prefab to pool, filled lazily, that routes Spawn, Preload, Despawn and
    ReturnPool to the right pool.

    The registry is a singleton in the source; here it is an ordinary object
    whose own game object, under which every pool container is parented, is
    root. Its dictionary is never null. A null prefab argument is None; a
    prefab that has been destroyed is Some(id) with id no longer live: it
    compares equal to null, but is still a dictionary key of its own. */
module Registry {
  import opened Engine
  import opened Naming
  import opened Pooling

  /** DEFAULT_POOL_SIZE: the stack capacity Init passes when none is given. */
  const DefaultPoolSize := 3

  /** The pool state right after Init has built a pool for the live prefab
      key under root: one new container, named after the prefab, parented
      under root and unmarked; an empty stack and a counter at zero. */
  function Opened(objs: Objects, next: ObjId, root: ObjId, key: ObjId): PoolState
    requires key in objs
  {
    PoolState(objs[next := GameObject(true, true, Some(root), objs[key].name + "_pool", None, Zero, Identity)],
              next + 1, [], 0)
  }

  /** A freshly built container has no children yet. */
  lemma OpenedEmpty(objs: Objects, next: ObjId, root: ObjId, key: ObjId)
    requires WellFormed(objs, next) && key in objs && root in objs
    ensures var st := Opened(objs, next, root, key);
      WellFormed(st.objs, st.next) && ChildrenBelow(st.objs, next, st.next) == []
  {
    var st := Opened(objs, next, root, key);
    forall x: ObjId | x < st.next
      ensures !IsChild(st.objs, x, next)
    {
      if x < next && x in objs {
        assert st.objs[x] == objs[x];
      }
    }
    ChildrenBelowNone(st.objs, next, st.next);
  }

  /** Spawning from a pool Init has just built always creates: the instance
      is the next id after the container, an active child of the container
      at the given place, marked with the pool and named with counter 0. */
  lemma SpawnOpened(objs: Objects, next: ObjId, root: ObjId, key: ObjId, position: Vector3, rotation: Quaternion)
    requires WellFormed(objs, next) && Live(objs, key) && root in objs
    ensures var st := Opened(objs, next, root, key);
      var s := Spawned(st, next, Some(key), position, rotation);
      && s.result == Ok(next + 1)
      && IsChild(s.after.objs, next + 1, next) && s.after.objs[next + 1].active
      && s.after.objs[next + 1].tag == Some(next)
      && s.after.objs[next + 1].name == InstanceName(objs[key].name, 0)
      && s.after.objs[next + 1].position == position && s.after.objs[next + 1].rotation == rotation
      && s.after.stack == [] && s.after.nextId == 1 && s.after.next == next + 2
  {
    var st := Opened(objs, next, root, key);
    SpawnedCreates(st, next, key, position, rotation);
  }

  /** Preloading a pool Init has just built always passes and leaves exactly
      the count new instances on the stack, in creation order, each an
      inactive child of the container marked with the pool. A negative count
      preloads nothing. */
  lemma PreloadOpened(objs: Objects, next: ObjId, root: ObjId, key: ObjId, count: int)
    requires WellFormed(objs, next) && Live(objs, key) && root in objs
    ensures var n := if count < 0 then 0 else count;
      var s := Preloaded(Opened(objs, next, root, key), next, Some(key), count);
      && s.result == Pass
      && s.after.stack == Range(next + 1, n)
      && s.after.nextId == n && s.after.next == next + 1 + n
      && (forall id: ObjId :: next + 1 <= id < next + 1 + n ==>
            IsChild(s.after.objs, id, next) && !s.after.objs[id].active && s.after.objs[id].tag == Some(next))
  {
    OpenedEmpty(objs, next, root, key);
    PreloadedFresh(Opened(objs, next, root, key), next, key, count);
  }

  class SmartPool {
    const world: World
    /** The registry's own game object. */
    const root: ObjId
    /** Dictionary<GameObject, Pool>, keyed by prefab. */
    var pools: map<ObjId, Pool>

    /** The registered pool, by container: which prefab key owns it. */
    ghost var owner: map<ObjId, ObjId>
    /** Every pool object the registry holds. */
    ghost var repr: set<Pool>

    /** The pools' half of the registry invariant, over the scene
        objs/next: every registered pool is held in rp, shares the world,
        still holds the prefab it is registered under and is valid in that
        scene; own maps each pool's container back to its key, so no two
        pools share a container. */
    ghost predicate Holds(ps: map<ObjId, Pool>, own: map<ObjId, ObjId>, rp: set<Pool>, objs: Objects, next: ObjId)
      reads rp
    {
      && (forall k :: k in ps ==> ps[k] in rp)
      && (forall k :: k in ps ==>
            && ps[k].world == world && ps[k].prefab == Some(k) && ps[k].ValidIn(objs, next)
            && ps[k].container in own && own[ps[k].container] == k)
      && (forall c :: c in own ==> own[c] in ps && ps[own[c]].container == c)
    }

    /** Every pool marker in the scene belongs to a registered pool. */
    ghost predicate Marked(own: map<ObjId, ObjId>, objs: Objects) {
      forall id :: id in objs && objs[id].tag.Some? ==> objs[id].tag.value in own
    }

    /** The registry invariant, for a given dictionary and owner map. */
    ghost predicate Registered(ps: map<ObjId, Pool>, own: map<ObjId, ObjId>, rp: set<Pool>)
      reads world, rp
    {
      && world.Valid() && root in world.objs
      && Holds(ps, own, rp, world.objs, world.next)
      && Marked(own, world.objs)
    }

    ghost predicate Valid()
      reads this, world, repr
    {
      Registered(pools, owner, repr)
    }

    /** After one pool has taken a step confined to its own container, with
        the registry and every other pool untouched, the registry is valid
        again: the other pools' invariants survive the step. */
    twostate lemma Rejoined(key: ObjId)
      requires old(Valid()) && key in old(pools) && unchanged(this)
      requires forall q :: q in old(repr) && q != old(pools[key]) ==> unchanged(q)
      requires old(pools[key]).Valid() && old(pools[key]).prefab == Some(key)
      requires Confined(old(world.objs), world.objs, old(pools[key]).container)
      ensures Valid()
    {
      var p := pools[key];
      var c := p.container;
      assert c in owner && owner[c] == key;
      forall id | id in world.objs && world.objs[id].tag.Some?
        ensures world.objs[id].tag.value in owner
      {
        if id in old(world.objs) {
          assert world.objs[id].tag == old(world.objs[id].tag);
        }
      }
      forall k | k in pools
        ensures pools[k].world == world && pools[k].prefab == Some(k)
      {
        if k != key {
          assert unchanged(pools[k]);
        }
      }
      forall k | k in pools
        ensures pools[k].ValidIn(world.objs, world.next)
      {
        if k != key {
          var q := pools[k];
          assert old(q.ValidIn(world.objs, world.next));
          ConfinedKeepsInv(old(world.objs), world.objs, old(world.next), world.next, c, q.container, q.inactive, q.nextId,
                           q.prefab, q.prefabName, q.issued);
        }
      }
    }

    /** A registry with no pools, in a world where no object carries a pool
        marker yet. */
    constructor (world: World, root: ObjId)
      requires world.Valid() && root in world.objs
      requires forall id :: id in world.objs ==> world.objs[id].tag.None?
      ensures Valid() && this.world == world && this.root == root && pools == map[]
    {
      this.world := world;
      this.root := root;
      pools := map[];
      owner := map[];
      repr := {};
    }

    /** Init(prefab, quantify): registers a new pool for a live prefab that
        has none, and says whether it did. Building the pool throws on a
        negative quantify, after its container has been added to the scene;
        the dictionary is then left as it was. */
    method Init(prefab: Option<ObjId>, quantify: int) returns (r: Result<bool>)
      requires Valid()
      modifies this, world
      ensures Valid()
      ensures r == if !(prefab.Some? && Live(old(world.objs), prefab.value) && prefab.value !in old(pools)) then Ok(false)
                   else if quantify < 0 then Err(NegativeCapacity)
                   else Ok(true)
      ensures r == Ok(false) ==> unchanged(this) && unchanged(world) && unchanged(repr)
      ensures r.Err? ==>
        && unchanged(this) && world.next == old(world.next) + 1
        && world.objs == old(world.objs)[old(world.next) :=
             GameObject(true, true, Some(root), old(world.objs[prefab.value].name) + "_pool", None, Zero, Identity)]
      ensures r == Ok(true) ==>
        && prefab.value in pools && pools == old(pools)[prefab.value := pools[prefab.value]]
        && fresh(pools[prefab.value])
        && pools[prefab.value].container == old(world.next)
        && pools[prefab.value].State() == Opened(old(world.objs), old(world.next), root, prefab.value)
    {
      if prefab.Some? && Live(world.objs, prefab.value) && prefab.value !in pools {
        ghost var objs0 := world.objs;
        ghost var next0 := world.next;
        ghost var pools0 := pools;
        var made := Pool.Make(world, prefab.value, root, quantify);
        ConfinedAdd(objs0, next0, world.objs[next0], next0);
        Regained(objs0, next0, next0);
        if made.Err? {
          return Err(made.fault);
        }
        var p := made.value;
        assert p.State() == Opened(objs0, next0, root, prefab.value);
        Adopt(prefab.value, p);
        assert pools == pools0[prefab.value := p];
        return Ok(true);
      }
      return Ok(false);
    }

    /** Registers pool p under key. */
    method Adopt(key: ObjId, p: Pool)
      requires Valid() && key !in pools && p.container !in owner
      requires p.world == world && p.prefab == Some(key) && p.Valid()
      modifies this
      ensures pools == old(pools)[key := p] && owner == old(owner)[p.container := key] && repr == old(repr) + {p}
      ensures unchanged(world) && unchanged(p)
      ensures Valid()
    {
      ghost var ps, own, rp := pools, owner, repr;
      pools := pools[key := p];
      owner := owner[p.container := key];
      repr := repr + {p};
      RegisterKeeps(ps, own, rp, key, p);
    }

    /** The registry invariant holds again after a step confined to c, a
        new object, which added no pool marker: the pools were valid in the
        scene objs0/next0 before the step, and are valid after it. */
    lemma Regained(objs0: Objects, next0: ObjId, c: ObjId)
      requires world.Valid() && root in world.objs
      requires Holds(pools, owner, repr, objs0, next0) && Marked(owner, objs0)
      requires c !in objs0 && Confined(objs0, world.objs, c)
      requires forall id :: id in world.objs && id !in objs0 ==> world.objs[id].tag.None?
      ensures Valid() && c !in owner
    {
      forall k | k in pools
        ensures pools[k].ValidIn(world.objs, world.next)
      {
        var q := pools[k];
        ConfinedKeepsInv(objs0, world.objs, next0, world.next, c, q.container, q.inactive, q.nextId,
                         q.prefab, q.prefabName, q.issued);
      }
      forall id | id in world.objs && world.objs[id].tag.Some?
        ensures world.objs[id].tag.value in owner
      {
        assert id in objs0 && world.objs[id].tag == objs0[id].tag;
      }
    }

    /** Adding a new pool, valid and with a container of its own, keeps the
        registry invariant. */
    lemma RegisterKeeps(ps: map<ObjId, Pool>, own: map<ObjId, ObjId>, rp: set<Pool>, key: ObjId, p: Pool)
      requires Registered(ps, own, rp)
      requires key !in ps && p.container !in own
      requires p.world == world && p.prefab == Some(key) && p.ValidIn(world.objs, world.next)
      ensures Registered(ps[key := p], own[p.container := key], rp + {p})
    {
    }

    /** GetPool(prefab): Init, then the dictionary lookup, which throws on a
        null key or a key with no pool. */
    method GetPool(prefab: Option<ObjId>) returns (r: Result<Pool>)
      requires Valid()
      modifies this, world
      ensures Valid()
      ensures r == if prefab.None? then Err(NullKey)
                   else if prefab.value in pools then Ok(pools[prefab.value])
                   else Err(MissingKey)
      ensures r.Err? <==> prefab.None? || (prefab.value !in old(pools) && !Live(old(world.objs), prefab.value))
      ensures r.Err? || prefab.value in old(pools) ==> unchanged(this) && unchanged(world) && unchanged(repr)
      ensures r.Ok? && prefab.value !in old(pools) ==>
        && pools == old(pools)[prefab.value := r.value]
        && fresh(r.value)
        && r.value.container == old(world.next)
        && r.value.State() == Opened(old(world.objs), old(world.next), root, prefab.value)
    {
      // DefaultPoolSize is not negative, so Init does not throw here.
      var _ := Init(prefab, DefaultPoolSize);
      if prefab.None? {
        return Err(NullKey);
      }
      if prefab.value !in pools {
        return Err(MissingKey);
      }
      return Ok(pools[prefab.value]);
    }

    /** Spawn(prefab, position, rotation): GetPool, then that pool's Spawn.
        Three cases: no pool and none can be made, a registered pool, or a
        pool that Init builds on the way. */
    method Spawn(prefab: Option<ObjId>, position: Vector3, rotation: Quaternion) returns (r: Result<ObjId>)
      requires Valid()
      modifies this, world, if prefab.Some? && prefab.value in pools then {pools[prefab.value]} else {}
      ensures Valid()
      ensures prefab.None? || (prefab.value !in old(pools) && !Live(old(world.objs), prefab.value)) ==>
        r == Err(if prefab.None? then NullKey else MissingKey) && unchanged(this, world)
      ensures prefab.Some? && prefab.value in old(pools) ==>
        && pools == old(pools)
        && Step(r, pools[prefab.value].State()) ==
             Spawned(old(pools[prefab.value].State()), pools[prefab.value].container,
                     old(pools[prefab.value].prefab), position, rotation)
      ensures prefab.Some? && prefab.value !in old(pools) && Live(old(world.objs), prefab.value) ==>
        && prefab.value in pools && pools == old(pools)[prefab.value := pools[prefab.value]]
        && fresh(pools[prefab.value]) && pools[prefab.value].container == old(world.next)
        && Step(r, pools[prefab.value].State()) ==
             Spawned(Opened(old(world.objs), old(world.next), root, prefab.value), old(world.next),
                     prefab, position, rotation)
    {
      var g := GetPool(prefab);
      if g.Err? {
        return Err(g.fault);
      }
      r := SpawnIn(prefab.value, position, rotation);
    }

    /** The registered pool under key spawns; the registry stays valid. */
    method SpawnIn(key: ObjId, position: Vector3, rotation: Quaternion) returns (r: Result<ObjId>)
      requires Valid() && key in pools
      modifies world, pools[key]
      ensures Valid() && unchanged(this)
      ensures Step(r, pools[key].State()) ==
                Spawned(old(pools[key].State()), pools[key].container, old(pools[key].prefab), position, rotation)
    {
      var p := pools[key];
      r := p.Spawn(position, rotation);
      Rejoined(key);
    }

    /** Preload(prefab, count): only a pool that Init has just built is
        preloaded; for any other prefab nothing happens. */
    method Preload(prefab: Option<ObjId>, count: int) returns (r: Outcome)
      requires Valid()
      modifies this, world
      ensures Valid()
      ensures !(prefab.Some? && prefab.value !in old(pools) && Live(old(world.objs), prefab.value)) ==>
        r == Pass && pools == old(pools) && world.objs == old(world.objs) && world.next == old(world.next)
      ensures prefab.Some? && prefab.value !in old(pools) && Live(old(world.objs), prefab.value) ==>
        && prefab.value in pools && pools == old(pools)[prefab.value := pools[prefab.value]]
        && fresh(pools[prefab.value]) && pools[prefab.value].container == old(world.next)
        && Step(r, pools[prefab.value].State()) ==
             Preloaded(Opened(old(world.objs), old(world.next), root, prefab.value), old(world.next),
                       prefab, count)
    {
      var created := Init(prefab, DefaultPoolSize);
      if created == Ok(true) {
        r := PreloadIn(prefab.value, count);
      } else {
        r := Pass;
      }
    }

    /** The registered pool under key preloads; the registry stays valid. */
    method PreloadIn(key: ObjId, count: int) returns (r: Outcome)
      requires Valid() && key in pools
      modifies world, pools[key]
      ensures Valid() && unchanged(this)
      ensures Step(r, pools[key].State()) ==
                Preloaded(old(pools[key].State()), pools[key].container, old(pools[key].prefab), count)
    {
      var p := pools[key];
      r := p.Preload(count);
      Rejoined(key);
    }

    /** ReturnPool(prefab): the pool registered under prefab, if any, takes
        back all its children. A null prefab throws on the lookup. */
    method ReturnPool(prefab: Option<ObjId>) returns (r: Outcome)
      requires Valid()
      modifies world, if prefab.Some? && prefab.value in pools then {pools[prefab.value]} else {}
      ensures Valid()
      ensures forall q :: q in repr && !(prefab.Some? && prefab.value in pools && q == pools[prefab.value]) ==> unchanged(q)
      ensures prefab.None? || prefab.value !in pools ==>
        && r == (if prefab.None? then Fail(NullKey) else Pass)
        && world.objs == old(world.objs) && world.next == old(world.next)
      ensures prefab.Some? && prefab.value in pools ==>
        Step(r, pools[prefab.value].State()) ==
          Returned(old(pools[prefab.value].State()), pools[prefab.value].container)
    {
      if prefab.None? {
        return Fail(NullKey);
      }
      if prefab.value !in pools {
        return Pass;
      }
      r := ReturnIn(prefab.value);
    }

    /** The registered pool under key takes back its children; the registry
        stays valid. */
    method ReturnIn(key: ObjId) returns (r: Outcome)
      requires Valid() && key in pools
      modifies world, pools[key]
      ensures Valid() && unchanged(this)
      ensures Step(r, pools[key].State()) == Returned(old(pools[key].State()), pools[key].container)
    {
      var p := pools[key];
      r := p.ReturnPool();
      Rejoined(key);
    }

    /** Despawn(obj, destroyIfNotPool): an object carrying a pool marker goes
        back to that pool; one without a marker is destroyed when the flag is
        set, and otherwise the missing marker is dereferenced, which throws.
        A null or destroyed object throws when its marker is read. */
    method Despawn(obj: Option<ObjId>, destroyIfNotPool: bool) returns (r: Outcome)
      requires Valid()
      modifies world, set k | k in pools && obj.Some? && Live(world.objs, obj.value) &&
                                world.objs[obj.value].tag == Some(pools[k].container) :: pools[k]
      ensures Valid()
      ensures r == if obj.None? then Fail(NullReference)
                   else if !Live(old(world.objs), obj.value) then Fail(DestroyedObject)
                   else if old(world.objs)[obj.value].tag.Some? || destroyIfNotPool then Pass
                   else Fail(NullReference)
      ensures r.Fail? ==> world.objs == old(world.objs) && world.next == old(world.next)
      ensures r.Pass? && old(world.objs)[obj.value].tag.None? ==>
        world.objs == Demolished(old(world.objs), obj.value, old(world.next)) && world.next == old(world.next)
      ensures r.Pass? && old(world.objs)[obj.value].tag.Some? ==>
        exists k :: k in pools && pools[k].container == old(world.objs)[obj.value].tag.value
          && pools[k].State() == Despawned(old(pools[k].State()), pools[k].container, obj.value)
    {
      if obj.None? {
        return Fail(NullReference);
      }
      var id := obj.value;
      if !Live(world.objs, id) {
        return Fail(DestroyedObject);
      }
      var tag := world.objs[id].tag;
      if tag.None? {
        if destroyIfNotPool {
          DestroyUnmarked(id);
          return Pass;
        }
        return Fail(NullReference);
      }
      var key :| key in pools && pools[key].container == tag.value;
      r := DespawnIn(key, id);
    }

    /** DestroyImmediate on an object that belongs to no pool, which also
        destroys everything below it; the registry stays valid. */
    method DestroyUnmarked(id: ObjId)
      requires Valid() && id in world.objs && world.objs[id].tag.None?
      modifies world
      ensures Valid()
      ensures world.objs == Demolished(old(world.objs), id, old(world.next))
      ensures world.next == old(world.next)
    {
      ghost var objs0 := world.objs;
      world.Destroy(id);
      DemolishedConfined(objs0, id, world.next, world.next);
      Regained(objs0, world.next, world.next);
    }

    /** The registered pool under key takes back obj; the registry stays
        valid. */
    method DespawnIn(key: ObjId, obj: ObjId) returns (r: Outcome)
      requires Valid() && key in pools
      modifies world, pools[key]
      ensures Valid() && unchanged(this)
      ensures r == if Live(old(world.objs), obj) then Pass else Fail(DestroyedObject)
      ensures pools[key].State() == Despawned(old(pools[key].State()), pools[key].container, obj)
    {
      var p := pools[key];
      r := p.Despawn(obj);
      Rejoined(key);
    }
  }
}
