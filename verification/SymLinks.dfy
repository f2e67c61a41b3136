/** The symbolic links in the name list: creating, deleting, switching and resolving.

    Each list operation is one step under the name lock.
 */
module SymLinks {
  import opened Common
  import opened Names

  datatype NtStatus = Success | ObjectNameExists | ObjectNameNotFound | InsufficientResources

  class Namespace {
    /** DdkNameList, newest name first. */
    var names: seq<Name>
    var objects: map<Id, Object>
    const fold: Folding

    ghost predicate Valid()
      reads this
    {
      RefsOk(Value())
    }

    ghost function Value(): Space
      reads this
    {
      Space(names, objects)
    }

    constructor (fold: Folding)
      ensures Valid() && Value() == Space([], map[]) && this.fold == fold
    {
      names, objects := [], map[];
      this.fold := fold;
    }

    // ---- References

    method Reference(id: Id)
      requires id in objects
      modifies this`objects
      ensures Value() == Counted(old(Value()), id, 1)
    {
      objects := objects[id := objects[id].(refcount := objects[id].refcount + 1)];
    }

    /** DdkDereferenceObject, by someone who holds a reference of his own. */
    method Dereference(id: Id)
      requires Valid() && Held(Value(), id)
      modifies this
      ensures Valid() && Value() == Released(old(Value()), id)
      ensures names == old(names)
      ensures objects == if old(objects[id]).refcount == 1 then old(objects) - {id}
                         else old(objects)[id := old(objects[id]).(refcount := old(objects[id]).refcount - 1)]
    {
      ReleasedKeeps(Value(), id);
      ReleasedForm(Value(), id);
      ghost var before := objects;
      objects := objects[id := objects[id].(refcount := objects[id].refcount - 1)];
      if objects[id].refcount == 0 {
        FreeObject(id);
        assert objects == before - {id};
      }
    }

    /** DdkFreeObject, for an object without names. */
    method FreeObject(id: Id)
      requires id in objects && NamesOf(names, id) == 0
      modifies this
      ensures names == old(names) && objects == old(objects) - {id}
    {
      WithoutNamesCounts(names, id);
      RemoveObjectName(id);
      objects := objects - {id};
    }

    /** DdkRemoveObjectName: unlinks every name of an object and drops the reference of each. */
    method RemoveObjectName(id: Id)
      requires id in objects && (objects[id].refcount > NamesOf(names, id) || NamesOf(names, id) == 0)
      modifies this
      ensures names == WithoutNames(old(names), id) && Picked(names, old(names), (n: Name) => n.obj != id)
      ensures objects == Less(old(objects), id, NamesOf(old(names), id))
      ensures NamesOf(old(names), id) == |old(names)| - |names|
    {
      ghost var all, before := names, objects;
      var i := 0;
      assert names[..0] + WithoutNames(names[0..], id) == WithoutNames(all, id) && objects == Less(before, id, 0);
      while i < |names|
        invariant 0 <= i <= |names| && id in before && Unlinking(all, before, names, objects, i, id)
        decreases |names| - i
      {
        UnlinkNext(all, before, names, objects, i, id);
        if names[i].obj == id {
          names := names[..i] + names[i + 1..];
          ghost var less := Less(objects, id, 1);
          objects := objects[id := objects[id].(refcount := objects[id].refcount - 1)];
          assert objects == less;
        } else {
          i := i + 1;
        }
      }
      UnlinkEnds(all, before, names, objects, id);
      OtherNamesLeft(all, id);
    }

    // ---- Names

    /** DdkFindName */
    method FindName(path: string) returns (r: Option<Id>)
      ensures r == Find(Value(), fold, path)
      ensures IsFirst(names, objects, fold, path, r)
    {
      FindIsFirst(names, objects, fold, path);
      var i := 0;
      while i < |names|
        invariant 0 <= i <= |names|
        invariant FindIn(names[i..], objects, fold, path) == Find(Value(), fold, path)
      {
        assert names[i..][1..] == names[i + 1..];
        var id := names[i].obj;
        if fold(path) == fold(names[i].path) {
          if id in objects && objects[id].refcount != 0 {
            return Some(id);
          }
        }
        i := i + 1;
      }
      return None;
    }

    /** DdkLookupName: the object found comes with a reference for the caller. */
    method LookupName(name: string) returns (r: Option<Id>)
      requires Valid()
      modifies this`objects
      ensures Valid() && r == Find(old(Value()), fold, ToNul(name))
      ensures r.Some? ==> r.value in old(objects) && Held(Value(), r.value)
      ensures Value() == if r.Some? then Counted(old(Value()), r.value, 1) else old(Value())
      ensures IsFirst(names, old(objects), fold, ToNul(name), r)
    {
      r := FindName(ToNul(name));
      if r.Some? {
        FindInNamed(names, objects, fold, ToNul(name));
        Reference(r.value);
      }
    }

    /** DdkCreateName: the object already of that name, or the given one under it, comes with a reference for
        the caller; the reference the caller had to an object that is not used is given up. */
    method CreateName(name: string, id: Id) returns (r: Id)
      requires Valid() && Held(Value(), id)
      modifies this
      ensures Valid() && Held(Value(), r)
      ensures var sp := old(Value());
              match Find(sp, fold, ToNul(name))
              case Some(found) => r == found && ReferenceMoved(sp, Value(), id, Some(found))
              case None => r == id && Value() == Inserted(sp, name, id)
      ensures r == id && Find(old(Value()), fold, ToNul(name)).None? ==>
                && names == [Name(ToNul(name), id)] + old(names)
                && objects == old(objects)[id := old(objects[id]).(refcount := old(objects[id].refcount) + 1)]
    {
      ghost var sp := Value();
      var path := ToNul(name);
      var found := FindName(path);
      FindInNamed(names, objects, fold, path);
      if found.Some? {
        Exchange(id, found.value);
        return found.value;
      }
      InsertedKeeps(sp, name, id);
      names := [Name(path, id)] + names;
      Reference(id);
      return id;
    }

    /** A reference to `to` is taken and one to `from` given up. */
    method Exchange(from: Id, to: Id)
      requires Valid() && Held(Value(), from) && to in objects
      modifies this
      ensures Valid() && Held(Value(), to) && ReferenceMoved(old(Value()), Value(), from, Some(to))
    {
      ghost var sp := Value();
      MovedMeans(sp, from, Some(to));
      MovedKeepsNames(sp, fold, from, Some(to), "");
      Reference(to);
      Dereference(from);
      assert Value() == Moved(sp, from, Some(to));
    }

    /** DdkInsertName: whether the object has the name now; if not, the caller's reference is given up. */
    method InsertName(name: string, id: Id) returns (inserted: bool)
      requires Valid() && Held(Value(), id) && Find(Value(), fold, ToNul(name)) != Some(id)
      modifies this
      ensures Valid() && inserted == Find(old(Value()), fold, ToNul(name)).None?
      ensures if inserted then Value() == Inserted(old(Value()), name, id) && Held(Value(), id)
              else ReferenceMoved(old(Value()), Value(), id, None)
      ensures inserted ==>
                && names == [Name(ToNul(name), id)] + old(names)
                && objects == old(objects)[id := old(objects[id]).(refcount := old(objects[id].refcount) + 1)]
    {
      ghost var sp := Value();
      var r := CreateName(name, id);
      if r != id {
        ghost var sp' := Value();
        FindInNamed(sp.names, sp.objects, fold, ToNul(name));
        MovedMeans(sp', r, None);
        Dereference(r);
        assert Value() == Moved(sp', r, None);
        MovedAgain(sp, sp', Value(), id, r, None);
        return false;
      }
      return true;
    }

    // ---- Symbolic links

    /** IoCreateSymbolicLink; `id` is the memory the new link gets, if any. */
    method CreateSymbolicLink(name: string, deviceName: string, id: Option<Id>) returns (status: NtStatus)
      requires Valid() && name != [] && deviceName != [] && (id.Some? ==> id.value !in objects)
      modifies this
      ensures Valid()
      ensures status == if id.None? then InsufficientResources
                        else if Find(old(Value()), fold, ToNul(name)).Some? then ObjectNameExists else Success
      ensures status != Success ==> Value() == old(Value())
      ensures status == Success ==> Value() == Linked(old(Value()), name, deviceName, id.value)
      ensures status == Success ==> names == [Name(ToNul(name), id.value)] + old(names)
      ensures status == Success ==> objects == old(objects)[id.value := Object(Link, 2, ToNul(deviceName), true)]
    {
      if id.None? {
        return InsufficientResources;
      }
      ghost var sp := Value();
      NewObject(sp, fold, id.value, ToNul(deviceName), ToNul(name));
      objects := objects[id.value := Object(Link, 1, ToNul(deviceName), true)];
      assert Value() == WithNew(sp, id.value, ToNul(deviceName));
      var inserted := InsertName(name, id.value);
      if !inserted {
        NewObjectUndone(sp, Value(), id.value, ToNul(deviceName));
        return ObjectNameExists;
      }
      return Success;
    }

    /** IoDeleteSymbolicLink */
    method DeleteSymbolicLink(name: string) returns (status: NtStatus)
      requires Valid() && name != []
      modifies this
      ensures Valid()
      ensures var sp, found := old(Value()), Find(old(Value()), fold, ToNul(name));
              && (found.Some? ==> found.value in sp.objects) && (status != Success ==> status == ObjectNameNotFound)
              && (status == Success <==> found.Some? && sp.objects[found.value].kind.Link?)
              && (found.None? ==> Value() == sp)
              && (found.Some? && status != Success ==> Value() == Counted(sp, found.value, 1))
              && (status == Success ==> Value() == Unnamed(sp, found.value))
      ensures var found := Find(old(Value()), fold, ToNul(name));
              status == Success ==> Picked(names, old(names), (n: Name) => n.obj != found.value)
    {
      ghost var sp := Value();
      var found := LookupName(name);
      if found.None? || !objects[found.value].kind.Link? {
        return ObjectNameNotFound;
      }
      RemoveFound(sp, found.value);
      Dereference(found.value);
      return Success;
    }

    /** The names of an object just looked up are removed; the reference of the look-up is left to give up. */
    method RemoveFound(ghost sp: Space, id: Id)
      requires RefsOk(sp) && id in sp.objects && Value() == Counted(sp, id, 1) && Held(Value(), id)
      modifies this
      ensures Valid() && Held(Value(), id) && Released(Value(), id) == Unnamed(sp, id)
      ensures Picked(names, sp.names, (n: Name) => n.obj != id)
    {
      ghost var n := NamesOf(names, id);
      ghost var sp' := Space(WithoutNames(names, id), Less(objects, id, n));
      UnnamedAfterLookup(sp, Value(), sp'.objects, id, n);
      UnnamedKeeps(sp, sp', id);
      RemoveObjectName(id);
      assert Value() == sp';
    }

    /** IoSetDeviceInterfaceState */
    method SetDeviceInterfaceState(name: string, enable: bool) returns (status: NtStatus)
      requires Valid()
      modifies this
      ensures Valid() && names == old(names)
      ensures var sp, found := old(Value()), Find(old(Value()), fold, ToNul(name));
              if found.Some? && found.value in sp.objects && sp.objects[found.value].kind.Link? then
                && objects == sp.objects[found.value := sp.objects[found.value].(enabled := enable)]
                && status == if sp.objects[found.value].enabled != enable then Success
                             else if enable then ObjectNameExists else ObjectNameNotFound
              else objects == sp.objects && status == ObjectNameNotFound
    {
      ghost var sp := Value();
      status := ObjectNameNotFound;
      var found := LookupName(name);
      if found.Some? {
        var id := found.value;
        SwitchedOnly(sp, Value(), id, sp.objects[id].enabled);
        if objects[id].kind.Link? {
          status := if !objects[id].enabled && !enable then ObjectNameNotFound
                    else if objects[id].enabled && enable then ObjectNameExists else Success;
          objects := objects[id := objects[id].(enabled := enable)];
          SwitchedOnly(sp, Value(), id, enable);
        }
        Dereference(id);
      }
    }

    /** DdkResolveSymbolicLink; `failed` stands for the "Recursive Symbolic Link" failure. */
    method ResolveSymbolicLink(start: Option<Id>) returns (r: Option<Id>, failed: bool)
      requires Valid() && (start.Some? ==> Held(Value(), start.value))
      modifies this
      ensures failed == TooLong(old(Value()), fold, start)
      ensures !failed ==> Valid() && r == Follow(old(Value()), fold, start, LIMIT + 1) && !Followed(old(Value()), r)
      ensures !failed && start.Some? ==> ReferenceMoved(old(Value()), Value(), start.value, r)
      ensures start.None? ==> !failed && Value() == old(Value())
      ensures exists way :: Resolves(old(Value()), fold, way, r, failed) && way[0] == start
    {
      ghost var sp, steps := Value(), 0;
      var count := 0;
      r := start;
      WayStarts(sp, start);
      while r.Some? && objects[r.value].kind.Link?
        invariant 0 <= count <= LIMIT + 1 && steps == count
        invariant r == Follow(sp, fold, start, steps) && OnTheWay(sp, Value(), start, r)
        invariant count > 0 ==> Followed(sp, Follow(sp, fold, start, count - 1))
        decreases LIMIT + 1 - count
      {
        SameOnTheWay(sp, Value(), start, r, fold, "");
        count := count + 1;
        if count - 1 > LIMIT {
          ghost var way := FollowResolves(sp, fold, start, r, true);
          return r, true;
        }
        if !objects[r.value].enabled {
          break;
        }
        r := FollowOne(sp, start, r.value);
        steps := count;
      }
      SameOnTheWay(sp, Value(), start, r, fold, "");
      ChainEnds(sp, fold, start, steps);
      ghost var way := FollowResolves(sp, fold, start, r, false);
      failed := false;
    }

    /** One enabled link: its destination is looked up and the reference to it given up. */
    method FollowOne(ghost sp: Space, ghost start: Option<Id>, id: Id) returns (next: Option<Id>)
      requires OnTheWay(sp, Value(), start, Some(id)) && Followed(sp, Some(id)) && id in objects
      modifies this
      ensures OnTheWay(sp, Value(), start, next) && next == Next(sp, fold, Some(id))
    {
      ghost var sp1 := Value();
      SameOnTheWay(sp, sp1, start, Some(id), fold, ToNul(sp.objects[id].destination));
      next := LookupName(objects[id].destination);
      Dereference(id);
      WayGoesOn(sp, sp1, start, id, next);
      assert Value() == Moved(sp1, id, next);
    }
  }

}
