/** The part of the host game engine the pool relies on, as state the model
    can reason about. Every scene object is an abstract id into a map that
    records whether the object is still alive (the engine makes a destroyed
    object compare equal to null), whether it is active, its parent, its
    name, the pool marker component attached to it, and its position and
    rotation. Ids are handed out in increasing order and never reused.

    The marker component holds a reference to the pool that made the object.
    Every pool owns a container object of its own, so the model identifies the
    pool by the id of that container. */
module Engine {

  type ObjId = nat

  datatype Option<T> = None | Some(value: T)

  /** Positions and rotations are only ever copied; their float arithmetic is
      not part of the model. */
  datatype Vector3 = Vector3(x: real, y: real, z: real)
  datatype Quaternion = Quaternion(x: real, y: real, z: real, w: real)

  const Zero := Vector3(0.0, 0.0, 0.0)
  const Identity := Quaternion(0.0, 0.0, 0.0, 1.0)

  datatype GameObject = GameObject(
    alive: bool,
    active: bool,
    parent: Option<ObjId>,
    name: string,
    tag: Option<ObjId>,     // the marker: the container id of the owning pool
    position: Vector3,
    rotation: Quaternion)

  /** The object exists and has not been destroyed (it is not "== null"). */
  predicate Live(objs: map<ObjId, GameObject>, id: ObjId) {
    id in objs && objs[id].alive
  }

  /** A live object whose transform parent is c. */
  predicate IsChild(objs: map<ObjId, GameObject>, id: ObjId, c: ObjId) {
    Live(objs, id) && objs[id].parent == Some(c)
  }

  /** The children of c among the ids below n, in sibling order. Objects are
      appended to their parent's child list when parented, and pool objects
      never leave their container, so sibling order is creation order, which
      is id order. */
  function ChildrenBelow(objs: map<ObjId, GameObject>, c: ObjId, n: nat): (r: seq<ObjId>)
    ensures forall i :: 0 <= i < |r| ==> r[i] < n && IsChild(objs, r[i], c)
  {
    if n == 0 then []
    else ChildrenBelow(objs, c, n - 1) + (if IsChild(objs, n - 1, c) then [n - 1] else [])
  }

  /** The list is in increasing id order, so no child appears twice. */
  lemma {:induction false} ChildrenBelowIncreasing(objs: map<ObjId, GameObject>, c: ObjId, n: nat)
    ensures forall i, j :: 0 <= i < j < |ChildrenBelow(objs, c, n)| ==>
              ChildrenBelow(objs, c, n)[i] < ChildrenBelow(objs, c, n)[j]
  {
    if n > 0 {
      ChildrenBelowIncreasing(objs, c, n - 1);
      var prev := ChildrenBelow(objs, c, n - 1);
      var r := ChildrenBelow(objs, c, n);
      assert r == prev + (if IsChild(objs, n - 1, c) then [n - 1] else []);
      forall i, j | 0 <= i < j < |r|
        ensures r[i] < r[j]
      {
        assert r[i] == prev[i];
        if j < |prev| {
          assert r[j] == prev[j];
        } else {
          assert r[j] == n - 1;
        }
      }
    }
  }

  /** ... and every child of c below n is listed. */
  lemma {:induction false} ChildrenBelowComplete(objs: map<ObjId, GameObject>, c: ObjId, n: nat, x: ObjId)
    requires x < n && IsChild(objs, x, c)
    ensures x in ChildrenBelow(objs, c, n)
  {
    if x < n - 1 {
      ChildrenBelowComplete(objs, c, n - 1, x);
    }
  }

  /** Two worlds that agree on who is a child of c list the same children. */
  lemma {:induction false} ChildrenBelowFrame(a: map<ObjId, GameObject>, b: map<ObjId, GameObject>, c: ObjId, n: nat)
    requires forall x: ObjId :: x < n ==> (IsChild(a, x, c) <==> IsChild(b, x, c))
    ensures ChildrenBelow(a, c, n) == ChildrenBelow(b, c, n)
  {
    if n > 0 {
      ChildrenBelowFrame(a, b, c, n - 1);
    }
  }

  /** With no child of c below n, the list is empty. */
  lemma {:induction false} ChildrenBelowNone(objs: map<ObjId, GameObject>, c: ObjId, n: nat)
    requires forall x: ObjId :: x < n ==> !IsChild(objs, x, c)
    ensures ChildrenBelow(objs, c, n) == []
  {
    if n > 0 {
      ChildrenBelowNone(objs, c, n - 1);
    }
  }

  /** id is x, or lies in x's subtree no more than depth parent links below
      x. The engine's hierarchy has no cycles, so a chain of parents through
      distinct ids below next is shorter than next links. */
  predicate Under(objs: map<ObjId, GameObject>, id: ObjId, x: ObjId, depth: nat)
    decreases depth
  {
    id == x || (depth > 0 && id in objs && objs[id].parent.Some? && Under(objs, objs[id].parent.value, x, depth - 1))
  }

  /** Whether an object is below x depends only on the parent links. */
  lemma {:induction false} UnderFrame(a: map<ObjId, GameObject>, b: map<ObjId, GameObject>, id: ObjId, x: ObjId, depth: nat)
    requires a.Keys == b.Keys && forall y :: y in a ==> a[y].parent == b[y].parent
    ensures Under(a, id, x, depth) == Under(b, id, x, depth)
    decreases depth
  {
    if depth > 0 && id in a && a[id].parent.Some? {
      UnderFrame(a, b, a[id].parent.value, x, depth - 1);
    }
  }

  /** Looking one link deeper finds everything found before. */
  lemma {:induction false} UnderDeeper(objs: map<ObjId, GameObject>, id: ObjId, x: ObjId, depth: nat)
    requires Under(objs, id, x, depth)
    ensures Under(objs, id, x, depth + 1)
    decreases depth
  {
    if id != x {
      UnderDeeper(objs, objs[id].parent.value, x, depth - 1);
    }
  }

  /** The subtree of a child of x lies in the subtree of x, one link deeper. */
  lemma {:induction false} UnderThrough(objs: map<ObjId, GameObject>, id: ObjId, k: ObjId, x: ObjId, depth: nat)
    requires Under(objs, id, k, depth) && k in objs && objs[k].parent == Some(x)
    ensures Under(objs, id, x, depth + 1)
    decreases depth
  {
    if id != k {
      UnderThrough(objs, objs[id].parent.value, k, x, depth - 1);
    }
  }

  /** The scene after x and its whole subtree, searched depth links deep,
      have been destroyed: they are dead, and nothing else about them or
      about any other object changes. */
  function Demolished(objs: map<ObjId, GameObject>, x: ObjId, depth: nat): (r: map<ObjId, GameObject>)
    ensures r.Keys == objs.Keys
    ensures forall id :: id in objs ==> r[id] == objs[id].(alive := r[id].alive) && (r[id].alive ==> objs[id].alive)
    ensures x in objs ==> !r[x].alive
    ensures forall id :: id in objs && !Under(objs, id, x, depth) ==> r[id] == objs[id]
  {
    map id | id in objs :: if Under(objs, id, x, depth) then objs[id].(alive := false) else objs[id]
  }

  /** Destroying x also destroys its children and, one link less deep,
      everything below each of them. */
  lemma DemolishedSubtree(objs: map<ObjId, GameObject>, x: ObjId, depth: nat)
    requires depth > 0
    ensures forall id :: IsChild(objs, id, x) ==> !Demolished(objs, x, depth)[id].alive
    ensures forall id, k :: id in objs && IsChild(objs, k, x) && Under(objs, id, k, depth - 1) ==>
              !Demolished(objs, x, depth)[id].alive
  {
    forall id, k | id in objs && IsChild(objs, k, x) && Under(objs, id, k, depth - 1)
      ensures !Demolished(objs, x, depth)[id].alive
    {
      UnderThrough(objs, id, k, x, depth - 1);
    }
  }

  /** Ids in use are below next, and every parent is a known object. */
  ghost predicate WellFormed(objs: map<ObjId, GameObject>, next: ObjId) {
    forall id :: id in objs ==> id < next && (objs[id].parent.Some? ==> objs[id].parent.value in objs)
  }

  /** The scene: every object ever created, and the next free id. */
  class World {
    var objs: map<ObjId, GameObject>
    var next: ObjId

    ghost predicate Valid()
      reads this
    {
      WellFormed(objs, next)
    }

    constructor ()
      ensures Valid() && objs == map[] && next == 0
    {
      objs := map[];
      next := 0;
    }

    /** transform.childCount and transform.GetChild(i), as one list. */
    function Children(c: ObjId): seq<ObjId>
      reads this
    {
      ChildrenBelow(objs, c, next)
    }

    /** new GameObject(name): an active root object with no marker. */
    method NewGameObject(name: string) returns (id: ObjId)
      requires Valid()
      modifies this
      ensures Valid() && id == old(next) && next == old(next) + 1 && id !in old(objs)
      ensures objs == old(objs)[id := GameObject(true, true, None, name, None, Zero, Identity)]
    {
      id := next;
      objs := objs[id := GameObject(true, true, None, name, None, Zero, Identity)];
      next := next + 1;
    }

    /** GameObject.Instantiate(original, position, rotation): a root-level
        copy of a live object, with its active flag and components, named
        after it with "(Clone)". */
    method Instantiate(original: ObjId, position: Vector3, rotation: Quaternion) returns (id: ObjId)
      requires Valid() && Live(objs, original)
      modifies this
      ensures Valid() && id == old(next) && next == old(next) + 1 && id !in old(objs)
      ensures objs == old(objs)[id := old(objs)[original].(
        name := old(objs)[original].name + "(Clone)", parent := None,
        position := position, rotation := rotation)]
    {
      id := next;
      var o := objs[original];
      objs := objs[id := o.(name := o.name + "(Clone)", parent := None, position := position, rotation := rotation)];
      next := next + 1;
    }

    /** Object.Destroy and Object.DestroyImmediate on a game object: the
        object and every object below it in the hierarchy are gone, and
        compare equal to null from now on. Destroying them again changes
        nothing. */
    method Destroy(id: ObjId)
      requires Valid() && id in objs
      modifies this
      ensures Valid() && next == old(next)
      ensures objs == Demolished(old(objs), id, old(next))
    {
      objs := Demolished(objs, id, next);
    }

    /** GameObject.SetActive(value). */
    method SetActive(id: ObjId, value: bool)
      requires Valid() && Live(objs, id)
      modifies this
      ensures Valid() && next == old(next)
      ensures objs == old(objs)[id := old(objs)[id].(active := value)]
    {
      objs := objs[id := objs[id].(active := value)];
    }

    /** Transform.SetParent(parent, false). */
    method SetParent(id: ObjId, parent: ObjId)
      requires Valid() && Live(objs, id) && parent in objs
      modifies this
      ensures Valid() && next == old(next)
      ensures objs == old(objs)[id := old(objs)[id].(parent := Some(parent))]
    {
      objs := objs[id := objs[id].(parent := Some(parent))];
    }

    /** Setting Object.name. */
    method SetName(id: ObjId, name: string)
      requires Valid() && Live(objs, id)
      modifies this
      ensures Valid() && next == old(next)
      ensures objs == old(objs)[id := old(objs)[id].(name := name)]
    {
      objs := objs[id := objs[id].(name := name)];
    }

    /** Pointing the object's marker component at the pool with container
        tag, adding the component first when the object has none. */
    method SetTag(id: ObjId, tag: ObjId)
      requires Valid() && Live(objs, id)
      modifies this
      ensures Valid() && next == old(next)
      ensures objs == old(objs)[id := old(objs)[id].(tag := Some(tag))]
    {
      objs := objs[id := objs[id].(tag := Some(tag))];
    }

    /** Setting transform.position. */
    method SetPosition(id: ObjId, position: Vector3)
      requires Valid() && Live(objs, id)
      modifies this
      ensures Valid() && next == old(next)
      ensures objs == old(objs)[id := old(objs)[id].(position := position)]
    {
      objs := objs[id := objs[id].(position := position)];
    }

    /** Setting transform.rotation. */
    method SetRotation(id: ObjId, rotation: Quaternion)
      requires Valid() && Live(objs, id)
      modifies this
      ensures Valid() && next == old(next)
      ensures objs == old(objs)[id := old(objs)[id].(rotation := rotation)]
    {
      objs := objs[id := objs[id].(rotation := rotation)];
    }
  }
}
