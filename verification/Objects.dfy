/** The server-side object registry (src/object.cpp): ids are handed out downwards from -1, objects are reference
    counted and deleted with their last reference. */
module Objects {
  import opened Bytes
  import opened Sets

  const I32_MIN: int := -0x8000_0000

  /** One live object: its type, its reference count, and whether it notifies through the subscription registry. */
  datatype Info = Info(typeId: nat, refs: int, linked: bool)

  /** The registry's value. */
  datatype Registry = Registry(objects: map<int, Info>, nextId: int, factories: set<nat>)

  const EMPTY: Registry := Registry(map[], -1, {})

  /** create_object: no factory, a factory that throws or one that returns no object make no change. */
  function Created(r: Registry, typeId: nat, made: bool): (Registry, Option<int>) {
    if typeId in r.factories && made
    then (r.(objects := r.objects[r.nextId := Info(typeId, 1, false)], nextId := r.nextId - 1), Some(r.nextId))
    else (r, None)
  }

  function AddedRef(r: Registry, id: int): Registry {
    if id in r.objects then r.(objects := r.objects[id := r.objects[id].(refs := r.objects[id].refs + 1)]) else r
  }

  function Released(r: Registry, id: int): Registry {
    if id !in r.objects then r
    else if r.objects[id].refs == 1 then r.(objects := r.objects - {id})
    else r.(objects := r.objects[id := r.objects[id].(refs := r.objects[id].refs - 1)])
  }

  /** Which object a release deletes. */
  function Deleted(r: Registry, ids: set<int>): set<int> {
    set id | id in ids && id in r.objects && r.objects[id].refs == 1
  }

  /** Releasing every id of a set once. */
  function ReleasedAll(r: Registry, ids: set<int>): Registry {
    r.(objects := map id | id in r.objects && !(id in ids && r.objects[id].refs == 1) ::
         if id in ids then r.objects[id].(refs := r.objects[id].refs - 1) else r.objects[id])
  }

  function Linked(r: Registry, id: int): Registry {
    if id in r.objects then r.(objects := r.objects[id := r.objects[id].(linked := true)]) else r
  }

  predicate Counted(r: Registry) {
    forall id :: id in r.objects ==> r.objects[id].refs > 0
  }

  function AddedRefs(r: Registry, id: int, n: nat): Registry { if n == 0 then r else AddedRef(AddedRefs(r, id, n - 1), id) }

  function ReleasedTimes(r: Registry, id: int, n: nat): Registry {
    if n == 0 then r else Released(ReleasedTimes(r, id, n - 1), id)
  }

  lemma {:induction false} RefsAdd(r: Registry, id: int, n: nat)
    requires id in r.objects
    ensures id in AddedRefs(r, id, n).objects && AddedRefs(r, id, n).objects[id].refs == r.objects[id].refs + n
  {
    if n > 0 {
      RefsAdd(r, id, n - 1);
    }
  }

  lemma {:induction false} RefsDrop(r: Registry, id: int, n: nat)
    requires id in r.objects && r.objects[id].refs > 0
    ensures var after := ReleasedTimes(r, id, n).objects;
            && (id in after <==> n < r.objects[id].refs) && (id in after ==> after[id].refs == r.objects[id].refs - n)
  {
    if n > 0 {
      RefsDrop(r, id, n - 1);
    }
  }

  /** However many references are added to a live object and however often it is released: it goes with the release of its
      last reference, and not before. */
  lemma LastReferenceDeletes(r: Registry, id: int, added: nat, released: nat)
    requires id in r.objects && r.objects[id].refs > 0
    ensures id in ReleasedTimes(AddedRefs(r, id, added), id, released).objects <==> released < r.objects[id].refs + added
  {
    RefsAdd(r, id, added);
    RefsDrop(AddedRefs(r, id, added), id, released);
  }

  class RemoteObject {
    const objectId: int
    const typeId: nat
    var refCount: int
    var linked: bool

    constructor (objectId: int, typeId: nat)
      ensures this.objectId == objectId && this.typeId == typeId && refCount == 1 && !linked
    {
      this.objectId, this.typeId, refCount, linked := objectId, typeId, 1, false;
    }

    /** True when that was the last reference. */
    method Release() returns (last: bool)
      modifies this`refCount
      ensures refCount == old(refCount) - 1 && (last <==> old(refCount) == 1)
    {
      last := refCount == 1;
      refCount := refCount - 1;
    }
  }

  class ObjectRegistry {
    var objects: map<int, RemoteObject>
    var factories: set<nat>
    var nextId: int

    ghost predicate Valid()
      reads this, objects.Values
    {
      && (forall id :: id in objects ==> objects[id].objectId == id && objects[id].refCount > 0)
      && (forall i, j :: i in objects && j in objects && i != j ==> objects[i] != objects[j])
    }

    ghost function State(): Registry
      requires Valid()
      reads this, objects.Values
    {
      Registry(map id | id in objects :: Info(objects[id].typeId, objects[id].refCount, objects[id].linked), nextId, factories)
    }

    constructor ()
      ensures Valid() && State() == EMPTY
    {
      objects, factories, nextId := map[], {}, -1;
    }

    method RegisterFactory(typeId: nat)
      requires Valid()
      modifies this`factories
      ensures Valid() && State() == old(State()).(factories := old(factories) + {typeId})
    {
      factories := factories + {typeId};
    }

    /** `made` is what the factory does: returns an object, or throws / returns none. */
    method CreateObject(typeId: nat, made: bool) returns (id: Option<int>)
      requires Valid() && nextId !in objects
      modifies this`objects, this`nextId
      ensures Valid() && (State(), id) == Created(old(State()), typeId, made)
      ensures forall o :: o in objects.Values ==> o in old(objects).Values || fresh(o)
    {
      if typeId !in factories || !made {
        return None;
      }
      var obj := new RemoteObject(nextId, typeId);
      id := Some(nextId);
      objects := objects[nextId := obj];
      nextId := nextId - 1;
      assert State().objects == Created(old(State()), typeId, made).0.objects;
    }

    method Get(id: int) returns (obj: RemoteObject?)
      ensures obj == if id in objects then objects[id] else null
    {
      obj := if id in objects then objects[id] else null;
    }

    method AddRef(id: int) returns (found: bool)
      requires Valid()
      modifies objects.Values
      ensures Valid() && State() == AddedRef(old(State()), id) && (found <==> id in objects)
    {
      found := id in objects;
      if found {
        var obj := objects[id];
        assert forall k :: k in objects && k != id ==> objects[k] != obj;
        obj.refCount := obj.refCount + 1;
        assert State().objects == AddedRef(old(State()), id).objects;
      }
    }

    method Link(id: int)
      requires Valid()
      modifies objects.Values
      ensures Valid() && State() == Linked(old(State()), id)
    {
      if id in objects {
        var obj := objects[id];
        assert forall k :: k in objects && k != id ==> objects[k] != obj;
        obj.linked := true;
        assert State().objects == Linked(old(State()), id).objects;
      }
    }

    /** Deletes the object when its count reaches zero; an unknown id is ignored. */
    method Release(id: int)
      requires Valid()
      modifies this`objects, objects.Values
      ensures Valid() && State() == Released(old(State()), id)
      ensures objects.Values <= old(objects.Values)
    {
      if id in objects {
        var obj := objects[id];
        assert forall k :: k in objects && k != id ==> objects[k] != obj;
        var last := obj.Release();
        if last {
          objects := objects - {id};
        }
        assert State().objects == Released(old(State()), id).objects;
      }
    }

    /** release_connection_objects: one release per tracked id. */
    method ReleaseTracked(tracked: set<int>)
      requires Valid()
      modifies this`objects, objects.Values
      ensures Valid() && State() == ReleasedAll(old(State()), tracked)
      ensures objects.Values <= old(objects.Values)
    {
      var todo := tracked;
      ghost var before := State();
      while todo != {}
        invariant Valid() && todo <= tracked && objects.Values <= old(objects.Values)
        invariant State() == ReleasedAll(before, tracked - todo)
        decreases todo
      {
        ghost var some := SomeMember(todo);
        var id :| id in todo;
        ReleaseOneMore(before, tracked - todo, id);
        Release(id);
        assert tracked - (todo - {id}) == (tracked - todo) + {id};
        todo := todo - {id};
      }
      assert tracked - todo == tracked;
    }
  }

  lemma ReleaseOneMore(r: Registry, done: set<int>, id: int)
    requires id !in done
    ensures Released(ReleasedAll(r, done), id) == ReleasedAll(r, done + {id})
  {
    assert Released(ReleasedAll(r, done), id).objects == ReleasedAll(r, done + {id}).objects;
  }

  // ---------------------------------------------------------------- what release and create keep

  /** Ids below -1 down to nextId have been handed out; everything live is among them and has a reference. */
  predicate Sound(r: Registry) {
    r.nextId < 0 && Counted(r) && forall id :: id in r.objects ==> r.nextId < id < 0
  }

  /** A created object gets a negative id that no object has had before. */
  lemma CreateIsFresh(r: Registry, typeId: nat, made: bool)
    requires Sound(r)
    ensures var (r', id) := Created(r, typeId, made);
            && Sound(r') && (id.Some? <==> typeId in r.factories && made)
            && (id.Some? ==> id.value < 0 && id.value !in r.objects && r'.objects.Keys == r.objects.Keys + {id.value}
                             && r'.nextId < id.value <= r.nextId)
            && (id.None? ==> r' == r)
  {
  }

  /** Releasing a set of ids deletes exactly those whose last reference that was. */
  lemma ReleaseDeletes(r: Registry, ids: set<int>)
    requires Sound(r)
    ensures Sound(ReleasedAll(r, ids))
    ensures ReleasedAll(r, ids).objects.Keys == r.objects.Keys - Deleted(r, ids)
    ensures forall id :: ReleasedAll(r, {id}) == Released(r, id)
  {
    forall id
      ensures ReleasedAll(r, {id}) == Released(r, id)
    {
      assert ReleasedAll(r, {id}).objects == Released(r, id).objects;
    }
  }
}
