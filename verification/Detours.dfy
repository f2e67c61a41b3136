/** The detour registry: a slab allocator of detour slots and the intercepts dispatched through them.

    The public calls run under the registry lock, so each is one method.
    The outcomes of the allocators and of the Detours library are arbitrary.
 */
module Detours {
  import opened Common
  import opened DetourTable
  import opened DetourHistory
  import opened DetourSteps

  class Registry {
    var regionlist: seq<Address>
    var regions: map<Address, Region>
    ghost var live: seq<Attachment>

    ghost function T(): Table
      reads this
    {
      Table(regionlist, regions)
    }

    ghost predicate Valid()
      reads this
    {
      Sound(T(), live)
    }

    constructor ()
      ensures Valid() && live == [] && regionlist == []
    {
      regionlist := [];
      regions := map[];
      live := [];
    }

    // ---- Regions

    /** DdkAddReference: from now on the region stays listed. */
    method AddReference(a: Address)
      requires Valid() && a in regionlist
      modifies this`regions
      ensures regions == old(regions)[a := old(regions[a]).(refcount := old(regions[a].refcount) + 1)]
      ensures Consistent(T(), live, a, NULL, NONE) && SameSlots(old(T()), T())
    {
      ghost var t := T();
      SetReferences(a, regions[a].refcount + 1);
      Referenced(t, live, a);
    }

    method SetReferences(a: Address, n: nat)
      requires a in regions
      modifies this`regions
      ensures regions == old(regions)[a := old(regions[a]).(refcount := n)]
      ensures T() == WithReferences(old(T()), a, n)
    {
      regions := regions[a := regions[a].(refcount := n)];
    }

    /** Drops a region that is wholly free and not referenced. */
    method FreeRegion(a: Address)
      requires a in regions
      modifies this`regions, this`regionlist
      ensures if old(regions[a].refcount == 0 && regions[a].freecount == |regions[a].detour|)
              then regions == old(regions) - {a} && regionlist == Unlinked(old(regionlist), a)
              else regions == old(regions) && regionlist == old(regionlist)
    {
      if regions[a].refcount != 0 || regions[a].freecount != |regions[a].detour| {
        return;
      }
      regionlist := Unlinked(regionlist, a);
      regions := regions - {a};
    }

    // ---- The Detours library

    /** Begin, update the threads, attach or detach, commit: any of the four can fail. */
    method UpdateDetour() returns (status: NtStatus, trampoline: Address)
      ensures trampoline != NULL
    {
      trampoline := *;
      if trampoline == NULL {
        trampoline := 1;
      }
      var rc: int := *;
      if rc != NO_ERROR {
        return DetourStatus(rc), trampoline;
      }
      rc := *;
      if rc != NO_ERROR {
        return DetourStatus(rc), trampoline;
      }
      rc := *;
      if rc != NO_ERROR {
        return DetourStatus(rc), trampoline;
      }
      rc := *;
      return DetourStatus(rc), trampoline;
    }

    method AttachDetour(s: SlotRef) returns (status: NtStatus)
      requires HasSlot(T(), s)
      modifies this`regions
      ensures old(SlotAt(T(), s)).trampoline != NULL ==> status == Success && regions == old(regions)
      ensures old(SlotAt(T(), s)).trampoline == NULL ==>
                exists trampoline :: (trampoline != NULL <==> status == Success)
                  && T() == WithSlot(old(T()), s, old(SlotAt(T(), s)).(trampoline := trampoline))
    {
      if regions[s.region].detour[s.index].trampoline != NULL {
        return Success;
      }
      SetSlot(s, regions[s.region].detour[s.index].(trampoline := regions[s.region].detour[s.index].func));
      var trampoline;
      status, trampoline := UpdateDetour();
      if status != Success {
        trampoline := NULL;
      }
      SetSlot(s, regions[s.region].detour[s.index].(trampoline := trampoline));
      SlotRewritten(old(T()), s, old(SlotAt(T(), s)).(trampoline := old(SlotAt(T(), s)).func),
        old(SlotAt(T(), s)).(trampoline := trampoline));
    }

    method DetachDetour(s: SlotRef) returns (status: NtStatus)
      requires HasSlot(T(), s)
      modifies this`regions
      ensures regionlist == old(regionlist)
      ensures T() == if status == Success then WithSlot(old(T()), s, old(SlotAt(T(), s)).(trampoline := NULL))
              else old(T())
      ensures status != Success ==> old(SlotAt(T(), s)).trampoline != NULL
    {
      if regions[s.region].detour[s.index].trampoline == NULL {
        SlotRewritten(T(), s, FREE_SLOT, FREE_SLOT);
        return Success;
      }
      var unused;
      status, unused := UpdateDetour();
      if status == Success {
        SetSlot(s, regions[s.region].detour[s.index].(trampoline := NULL));
      }
    }

    method SetSlot(s: SlotRef, d: Detour)
      requires HasSlot(T(), s)
      modifies this`regions
      ensures T() == WithSlot(old(T()), s, d)
    {
      var r := regions[s.region];
      regions := regions[s.region := r.(detour := r.detour[s.index := d])];
    }

    /** Lowers the high water mark past free slots at the end. */
    method LowerMark(a: Address)
      requires a in regions && regions[a].hwm <= |regions[a].detour|
      requires forall i :: regions[a].hwm <= i < |regions[a].detour| ==> regions[a].detour[i].func == NULL
      modifies this`regions
      ensures regions.Keys == old(regions.Keys)
      ensures MarkOk(regions[a]) && regions == old(regions)[a := old(regions[a]).(hwm := regions[a].hwm)]
    {
      while regions[a].hwm > 0 && regions[a].detour[regions[a].hwm - 1].func == NULL
        invariant a in regions && regions[a].hwm <= |regions[a].detour|
        invariant regions == old(regions)[a := old(regions[a]).(hwm := regions[a].hwm)]
        invariant forall i :: regions[a].hwm <= i < |regions[a].detour| ==> regions[a].detour[i].func == NULL
        decreases regions[a].hwm
      {
        regions := regions[a := regions[a].(hwm := regions[a].hwm - 1)];
      }
    }

    /** Gives up a slot that has no intercepts: unpatch, free the slot, lower the mark, and drop the
        region when it is wholly free.  A failed unpatch leaves everything as it was. */
    method FreeDetour(s: SlotRef, ghost held: Address) returns (status: NtStatus)
      requires Consistent(T(), live, held, NULL, s) && HasSlot(T(), s)
      requires SlotAt(T(), s).func != NULL
      requires SlotAt(T(), s).intercepts != [] ==> SlotAt(T(), s).trampoline != NULL
      modifies this`regions, this`regionlist
      ensures Consistent(T(), live, held, NULL, NONE)
      ensures old(SlotAt(T(), s)).intercepts != [] ==> status == Success && T() == old(T())
      ensures status != Success ==> T() == old(T())
      ensures old(SlotAt(T(), s)).trampoline == NULL ==> status == Success
      ensures old(SlotAt(T(), s)).intercepts == [] && status == Success ==> Replaced(old(T()), T(), s, FREE_SLOT)
      ensures s.region == held ==> regionlist == old(regionlist) && held in regions
      ensures old(SlotAt(T(), s)).intercepts == [] && status == Success ==> Given(old(T()), T(), s, held)
    {
      var a := s.region;
      if regions[a].detour[s.index].intercepts != [] {
        NothingPending(T(), s);
        return Success;
      }
      ghost var t := T();
      status := ClearSlot(s, held);
      ghost var r' := regions[a];
      FreeRegion(a);
      if status == Success {
        GivenUp(t, T(), live, held, s, r');
      } else {
        KeptWhole(t, live, held, s, r');
      }
    }

    /** Unpatches a slot, frees it if that succeeds, and lowers the mark. */
    method ClearSlot(s: SlotRef, ghost held: Address) returns (status: NtStatus)
      requires Consistent(T(), live, held, NULL, s) && HasSlot(T(), s)
      requires SlotAt(T(), s).func != NULL && SlotAt(T(), s).intercepts == []
      modifies this`regions
      ensures s.region in regions && T() == WithRegion(old(T()), s.region, regions[s.region])
      ensures status == Success ==> Cleared(old(T()), s, regions[s.region])
      ensures status != Success ==> old(SlotAt(T(), s)).trampoline != NULL
      ensures status != Success ==> MarkOk(regions[s.region])
                                    && regions[s.region] == old(regions[s.region]).(hwm := regions[s.region].hwm)
    {
      var a := s.region;
      ghost var t := T();
      assert RegionOk(a, t.regions[a], held, NULL);
      status := UnpatchSlot(s);
      ghost var t1 := T();
      LowerMark(a);
      RegionTwice(t, t1, T(), a);
    }

    /** Unpatches a slot, and frees it if that succeeds. */
    method UnpatchSlot(s: SlotRef) returns (status: NtStatus)
      requires HasSlot(T(), s) && SlotAt(T(), s).func != NULL && SlotAt(T(), s).intercepts == []
      modifies this`regions
      ensures s.region in regions && T() == WithRegion(old(T()), s.region, regions[s.region])
      ensures regions[s.region] == if status == Success then Freed(old(regions[s.region]), s.index)
                                   else old(regions[s.region])
      ensures status != Success ==> old(SlotAt(T(), s)).trampoline != NULL
    {
      var a := s.region;
      ghost var t := T();
      status := DetachDetour(s);
      SlotRewritten(t, s, FREE_SLOT, FREE_SLOT);
      if regions[a].detour[s.index].trampoline == NULL {
        SetSlot(s, regions[a].detour[s.index].(func := NULL));
        SlotRewritten(t, s, SlotAt(t, s).(trampoline := NULL), FREE_SLOT);
        SlotRewritten(t, s, SlotAt(t, s), FREE_SLOT);
        assert T() == WithSlot(t, s, FREE_SLOT);
        regions := regions[a := regions[a].(freecount := regions[a].freecount + 1)];
      }
    }

    // ---- Finding and allocating

    /** Looks only at regions within jump bounds and only below their marks. */
    method FindDetour(func: Address) returns (found: bool, s: SlotRef)
      requires Valid() && func != NULL
      ensures found ==> HasSlot(T(), s) && SlotAt(T(), s).func == func
      ensures !found ==> forall s' :: SlotAt(T(), s').func != func
    {
      var k := 0;
      while k < |regionlist|
        invariant 0 <= k <= |regionlist|
        invariant forall k' :: 0 <= k' < k ==> NotIn(T(), regionlist[k'], func)
      {
        var a := regionlist[k];
        assert RegionOk(a, regions[a], NULL, NULL);
        if WithinJumpBounds(a, regions[a].size, func, 0) {
          var i := 0;
          while i < regions[a].hwm
            invariant 0 <= i <= regions[a].hwm
            invariant forall i' :: 0 <= i' < i ==> regions[a].detour[i'].func != func
          {
            if regions[a].detour[i].func == func {
              return true, SlotRef(a, i);
            }
            i := i + 1;
          }
        }
        NotInRegion(T(), a, func);
        k := k + 1;
      }
      found, s := false, NONE;
      NowhereFound(T(), func);
    }

    /** A new region of zero-filled slots, as many as the memory holds. */
    method AllocateRegion(func: Address, memory: Memory) returns (status: NtStatus, a: Address)
      requires Valid() && Offered(T(), func, memory)
      modifies this`regions, this`regionlist
      ensures status == Success <==> memory.address != NULL && memory.size >= 96
      ensures status != Success ==> T() == old(T()) && status == InsufficientResources
      ensures status == Success ==>
                && a == memory.address && a in regions && regions == old(regions)[a := regions[a]]
                && regionlist == [a] + old(regionlist)
                && FreshRegion(regions[a]) && regions[a].size == memory.size
      ensures status == Success ==>
                40 + 56 * |regions[a].detour| <= memory.size < 40 + 56 * (|regions[a].detour| + 1)
    {
      if memory.address == NULL || memory.size < SIZEOF_REGION {
        return InsufficientResources, NULL;
      }
      a := memory.address;
      var count := (memory.size - SIZEOF_REGION) / SIZEOF_DETOUR + 1;
      regions := regions[a := Region(memory.size, 0, count, 0, seq(count, i => FREE_SLOT))];
      regionlist := [a] + regionlist;
      status := Success;
    }

    /** The first region with a free slot and room for a jump, or NULL. */
    method FindRegion(func: Address) returns (a: Address)
      requires Valid()
      ensures a != NULL ==> FirstWithRoom(T(), a, func) && WithinJumpBounds(a, regions[a].size, func, 0)
      ensures a != NULL ==> regions[a].freecount > 0 && WithinJumpBounds(a, regions[a].size, func, 0x100)
      ensures a == NULL ==> forall b :: !HasRoom(T(), b, func)
      ensures a == NULL ==> forall b :: b in regions ==>
                regions[b].freecount == 0 || !WithinJumpBounds(b, regions[b].size, func, 0x100)
    {
      var k := 0;
      while k < |regionlist|
        invariant 0 <= k <= |regionlist|
        invariant forall i :: 0 <= i < k ==> !HasRoom(T(), regionlist[i], func)
      {
        a := regionlist[k];
        if regions[a].freecount > 0 && WithinJumpBounds(a, regions[a].size, func, 0x100) {
          return;
        }
        k := k + 1;
      }
      a := NULL;
    }

    /** The first free slot of a region; the failure "Region has no free detours" cannot happen. */
    method FindFreeSlot(a: Address) returns (i: nat)
      requires a in regions && regions[a].freecount > 0 && regions[a].freecount == FreeCount(regions[a].detour)
      ensures i < |regions[a].detour| && regions[a].detour[i].func == NULL
      ensures forall j :: 0 <= j < i ==> regions[a].detour[j].func != NULL
    {
      FreeCountBounds(regions[a].detour);
      i := 0;
      while i < |regions[a].detour|
        invariant 0 <= i <= |regions[a].detour|
        invariant forall j :: 0 <= j < i ==> regions[a].detour[j].func != NULL
      {
        if regions[a].detour[i].func == NULL {
          return;
        }
        i := i + 1;
      }
    }

    /** The region a new slot goes to: the first with room, else a new one, which is then `spare`. */
    method SelectRegion(func: Address, memory: Memory) returns (status: NtStatus, a: Address, ghost spare: Address)
      requires Valid() && Offered(T(), func, memory)
      modifies this`regions, this`regionlist
      ensures status != Success ==> T() == old(T())
      ensures status == Success ==>
                && Consistent(T(), live, NULL, spare, NONE) && Grown(old(T()), T(), a, spare)
                && a in regions && regions[a].freecount > 0 && WithinJumpBounds(a, regions[a].size, func, 0)
                && forall s :: SlotAt(T(), s) == SlotAt(old(T()), s)
      ensures status == Success ==>
                if spare == NULL then FirstWithRoom(old(T()), a, func)
                else a == memory.address && forall b :: !HasRoom(old(T()), b, func)
    {
      ghost var t := T();
      spare := NULL;
      a := FindRegion(func);
      if a != NULL {
        return Success, a, NULL;
      }
      status, a := AllocateRegion(func, memory);
      if status == Success {
        spare := a;
        RegionAdded(t, live, a, regions[a]);
      }
    }

    /** Takes the first free slot of a region; it is not patched yet. */
    method TakeSlot(a: Address, func: Address, ghost spare: Address) returns (s: SlotRef)
      requires Consistent(T(), live, NULL, spare, NONE) && a in regions && (spare == NULL || spare == a)
      requires regions[a].freecount > 0 && WithinJumpBounds(a, regions[a].size, func, 0)
      requires func != NULL && forall s' :: SlotAt(T(), s').func != func
      modifies this`regions
      ensures s.region == a && HasSlot(old(T()), s) && HasSlot(T(), s)
      ensures Consistent(T(), live, NULL, NULL, s)
      ensures Replaced(old(T()), T(), s, Detour(func, NULL, []))
      ensures SlotTaking(old(T()), T(), s)
      ensures forall i :: 0 <= i < s.index ==> old(regions)[a].detour[i].func != NULL
    {
      ghost var t := T();
      assert RegionOk(a, regions[a], NULL, spare);
      var i := FindFreeSlot(a);
      s := SlotRef(a, i);
      var r := regions[a];
      if i >= r.hwm {
        r := r.(hwm := i + 1);
      }
      r := r.(detour := r.detour[i := Detour(func, NULL, [])]);
      r := r.(freecount := r.freecount - 1);
      regions := regions[a := r];
      SlotAtFree(t, live, spare, s);
      RaisedMark(t.regions[a], r, i);
      TakenTable(t, T(), live, s, func, spare, r);
    }

    /** Takes a slot for a function that has none and patches the function.  On any failure the whole
        table is as it was. */
    method AllocateDetour(func: Address, memory: Memory) returns (status: NtStatus, s: SlotRef)
      requires Valid() && func != NULL && Offered(T(), func, memory)
      requires forall s' :: SlotAt(T(), s').func != func
      modifies this`regions, this`regionlist
      ensures Valid()
      ensures status != Success ==> T() == old(T())
      ensures status == Success ==>
                && HasSlot(T(), s) && SlotAt(old(T()), s) == FREE_SLOT
                && SlotAt(T(), s).func == func && SlotAt(T(), s).intercepts == []
                && Replaced(old(T()), T(), s, SlotAt(T(), s))
      ensures status == Success ==> Chosen(old(T()), s, func, memory)
    {
      ghost var t0 := T();
      s := NONE;
      var a;
      ghost var spare;
      status, a, spare := SelectRegion(func, memory);
      if status != Success {
        return;
      }
      ghost var t1 := T();
      s := TakeSlot(a, func, spare);
      ghost var t2 := T();
      ChosenFrom(t0, t1, s, spare, func, memory);
      status := AttachDetour(s);
      if status == Success {
        Patched(t2, T(), live, s);
      } else {
        SlotRewritten(t2, s, FREE_SLOT, FREE_SLOT);
        status := FreeFailed(s, status);
        RolledBack(t0, t1, t2, T(), s, spare);
      }
    }

    /** The failure path of DdkAllocateDetour: the slot is given up, the first failure is returned. */
    method FreeFailed(s: SlotRef, failure: NtStatus) returns (status: NtStatus)
      requires Consistent(T(), live, NULL, NULL, s) && HasSlot(T(), s)
      requires SlotAt(T(), s).func != NULL && SlotAt(T(), s).intercepts == [] && SlotAt(T(), s).trampoline == NULL
      modifies this`regions, this`regionlist
      ensures Valid() && Given(old(T()), T(), s, NULL) && status == failure
    {
      var unused := FreeDetour(s, NULL);
      status := failure;
    }

    // ---- Public calls

    /** DdkAttachIntercept.  `memory` is what the allocator gives for the entry, `regionMemory` what it
        would give for a new region. */
    method AttachIntercept(func: Address, code: Address, identity: Address, instance: Address, thread: Address,
        memory: Address, regionMemory: Memory) returns (status: NtStatus)
      requires Valid() && Offered(T(), func, regionMemory)
      requires forall n :: 0 <= n < |live| ==> live[n].entry.address != memory
      modifies this
      ensures Valid()
      ensures status == Success ==>
                && func != NULL && code != NULL && memory != NULL && |live| == |old(live)| + 1 && live[1..] == old(live)
                && live[0] == Attachment(func, Intercept(memory, live[0].entry.detour, code, identity, instance,
                      thread))
      ensures status != Success ==> T() == old(T()) && live == old(live)
      ensures func == NULL || code == NULL ==> status == InvalidParameter
      ensures func != NULL && code != NULL && memory == NULL ==> status == InsufficientResources
      ensures func != NULL && code != NULL && memory != NULL && EntriesOn(old(live), func) != [] ==> status == Success
      ensures Keeps(old(T()), T())
    {
      if func == NULL || code == NULL {
        return InvalidParameter;
      }
      if memory == NULL {
        return InsufficientResources;
      }
      var s;
      status, s := SlotFor(func, regionMemory);
      if status == Success {
        LinkEntry(s, Intercept(memory, s, code, identity, instance, thread));
      }
    }

    /** The slot of a function, taken now if it has none. */
    method SlotFor(func: Address, regionMemory: Memory) returns (status: NtStatus, s: SlotRef)
      requires Valid() && Offered(T(), func, regionMemory) && func != NULL
      modifies this`regions, this`regionlist
      ensures Valid() && Keeps(old(T()), T())
      ensures status != Success ==> T() == old(T())
      ensures status == Success ==> HasSlot(T(), s) && SlotAt(T(), s).func == func
      ensures EntriesOn(live, func) != [] ==> status == Success
    {
      var found;
      found, s := FindDetour(func);
      if found {
        return Success, s;
      }
      NoEntries(T(), live, func);
      status, s := AllocateDetour(func, regionMemory);
    }

    /** Puts a new entry at the head of the list of its slot. */
    method LinkEntry(s: SlotRef, entry: Intercept)
      requires Valid() && HasSlot(T(), s) && SlotAt(T(), s).func != NULL
      requires entry.detour == s && entry.code != NULL
      requires forall n :: 0 <= n < |live| ==> live[n].entry.address != entry.address
      modifies this`regions, this`live
      ensures Valid() && live == [Attachment(SlotAt(old(T()), s).func, entry)] + old(live)
      ensures Replaced(old(T()), T(), s, SlotAt(old(T()), s).(intercepts := [entry] + SlotAt(old(T()), s).intercepts))
    {
      var r := regions[s.region];
      var d := r.detour[s.index];
      EntryLinked(T(), live, s, entry);
      SlotsAfter(T(), s, r.(detour := r.detour[s.index := d.(intercepts := [entry] + d.intercepts)]),
        d.(intercepts := [entry] + d.intercepts));
      SetSlot(s, d.(intercepts := [entry] + d.intercepts));
      live := [Attachment(d.func, entry)] + live;
    }

    /** DdkFreeIntercept: unlink the entry, then give up its slot if that was the last one. */
    method FreeIntercept(e: Intercept, ghost held: Address, ghost j: nat) returns (status: NtStatus)
      requires Consistent(T(), live, held, NULL, NONE) && held == e.detour.region && HasSlot(T(), e.detour)
      requires SlotAt(T(), e.detour).func != NULL
      requires j < |SlotAt(T(), e.detour).intercepts| && SlotAt(T(), e.detour).intercepts[j] == e
      modifies this
      ensures Consistent(T(), live, held, NULL, NONE) && HasRegion(T(), held)
      ensures regionlist == old(regionlist) && live == Without(old(live), {e.address})
      ensures EntryFreed(old(T()), T(), e.detour, j, status == Success)
    {
      var s := e.detour;
      var d := regions[s.region].detour[s.index];
      var i := FindEntry(d.intercepts, e.address, j);
      ghost var t := T();
      OneEntry(t, live, s, i, j);
      UnlinkedPending(t, live, held, s, j);
      SetSlot(s, d.(intercepts := d.intercepts[..i] + d.intercepts[i + 1..]));
      live := Without(live, {e.address});
      ghost var t1 := T();
      status := FreeDetour(s, held);
      FreedAfterUnlink(t, t1, T(), s, j, status == Success);
    }

    /** One step of the walk over the intercepts of a slot. */
    method DetachEntry(s: SlotRef, p: nat, sel: Selector, ghost held: Address)
      returns (status: NtStatus, removed: bool, ghost gone: set<Address>)
      requires Consistent(T(), live, held, NULL, NONE) && held == s.region && HasSlot(T(), s)
      requires SlotAt(T(), s).func != NULL && p < |SlotAt(T(), s).intercepts|
      modifies this
      ensures Consistent(T(), live, held, NULL, NONE) && HasRegion(T(), held)
      ensures regionlist == old(regionlist)
      ensures Progress(old(T()), old(live), T(), live, sel, gone, status == Success)
      ensures removed == Selected(sel, old(SlotAt(T(), s)).func, old(SlotAt(T(), s)).intercepts[p])
      ensures if removed then EntryFreed(old(T()), T(), s, p, status == Success) else T() == old(T())
    {
      ghost var t, l := T(), live;
      var e := regions[s.region].detour[s.index].intercepts[p];
      PointsHere(t, l, s, p);
      removed := Selected(sel, regions[s.region].detour[s.index].func, e);
      if removed {
        status := FreeIntercept(e, held, p);
        gone := {e.address};
        EntryProgress(t, l, T(), live, s, p, sel, status == Success);
      } else {
        status, gone := Success, {};
        NoProgress(t, l, sel);
      }
    }

    /** The walk over the intercepts of one slot. */
    method DetachSlot(s: SlotRef, sel: Selector, ghost held: Address)
        returns (status: NtStatus, ghost gone: set<Address>)
      requires Consistent(T(), live, held, NULL, NONE) && held == s.region && HasSlot(T(), s)
      requires SlotAt(T(), s).func != NULL
      modifies this
      ensures Consistent(T(), live, held, NULL, NONE) && HasRegion(T(), held)
      ensures regionlist == old(regionlist)
      ensures Progress(old(T()), old(live), T(), live, sel, gone, status == Success)
      ensures SlotDone(old(T()), T(), s, sel)
    {
      ghost var t0, live0 := T(), live;
      status, gone := Success, {};
      NoProgress(t0, live0, sel);
      var p := 0;
      while p < |regions[s.region].detour[s.index].intercepts|
        invariant Consistent(T(), live, held, NULL, NONE) && HasSlot(T(), s)
        invariant regionlist == old(regionlist)
        invariant Progress(t0, live0, T(), live, sel, gone, status == Success)
        invariant SlotWalked(t0, T(), s, sel, p)
        decreases |SlotAt(T(), s).intercepts| - p
      {
        ghost var t, l := T(), live;
        var rc, removed;
        ghost var more;
        rc, removed, more := DetachEntry(s, p, sel, held);
        MoreProgress(t0, live0, t, l, T(), live, sel, gone, more, status == Success, rc == Success);
        WalkStep(t0, t, T(), s, sel, p, removed, rc == Success);
        gone := gone + more;
        if rc != Success {
          status := rc;
        }
        if !removed {
          p := p + 1;
        }
      }
    }

    /** The walk over the slots of one region, while a reference to it is held. */
    method DetachRegion(a: Address, sel: Selector) returns (status: NtStatus, ghost gone: set<Address>)
      requires Consistent(T(), live, a, NULL, NONE) && a in regions
      modifies this
      ensures Consistent(T(), live, a, NULL, NONE) && HasRegion(T(), a)
      ensures regionlist == old(regionlist)
      ensures Progress(old(T()), old(live), T(), live, sel, gone, status == Success)
      ensures RegionDone(live, a, sel)
    {
      ghost var t0, live0 := T(), live;
      status, gone := Success, {};
      NoProgress(t0, live0, sel);
      var i := 0;
      while i < regions[a].hwm
        invariant Consistent(T(), live, a, NULL, NONE) && HasRegion(T(), a)
        invariant regionlist == old(regionlist)
        invariant Progress(t0, live0, T(), live, sel, gone, status == Success)
        invariant RegionWalked(live, a, sel, i)
        invariant Slots(T(), a) == Slots(t0, a)
        decreases Slots(t0, a) - i
      {
        ghost var t, l := T(), live;
        MarkBelow(t, a, a);
        if regions[a].detour[i].func != NULL {
          ghost var more;
          var rc;
          rc, more := DetachSlot(SlotRef(a, i), sel, a);
          MoreProgress(t0, live0, t, l, T(), live, sel, gone, more, status == Success, rc == Success);
          SlotWalkedInRegion(t, T(), l, live, SlotRef(a, i), sel, more, rc == Success);
          gone := gone + more;
          if rc != Success {
            status := rc;
          }
        } else {
          EmptySlotWalked(t, l, SlotRef(a, i), sel);
        }
        i := i + 1;
      }
      MarkBelow(T(), a, a);
      RegionWalkEnds(T(), live, a, sel, i);
    }

    /** DdkDeleteReference */
    method DeleteReference(a: Address)
      requires Consistent(T(), live, a, NULL, NONE) && a in regions
      modifies this`regions, this`regionlist
      ensures Valid() && SameSlots(old(T()), T())
      ensures regionlist == old(regionlist) || regionlist == Unlinked(old(regionlist), a)
    {
      ghost var t := T();
      regions := regions[a := regions[a].(refcount := regions[a].refcount - 1)];
      Unreferenced(t, live, a);
      ghost var t1 := T();
      FreeRegion(a);
      if t1.regions[a].freecount == |t1.regions[a].detour| {
        Dropped(t1, live, NULL, a);
      } else {
        RegionsTight(t1, NULL, a);
      }
    }

    /** One region of a walk, referenced and walked. */
    method WalkRegion(a: Address, sel: Selector) returns (status: NtStatus, ghost gone: set<Address>)
      requires Valid() && a in regionlist
      modifies this
      ensures Consistent(T(), live, a, NULL, NONE) && a in regions
      ensures regionlist == old(regionlist)
      ensures Progress(old(T()), old(live), T(), live, sel, gone, status == Success)
      ensures RegionDone(live, a, sel)
    {
      ghost var t, l := T(), live;
      AddReference(a);
      ghost var t1 := T();
      status, gone := DetachRegion(a, sel);
      SameProgress(t, l, t1, T(), T(), live, sel, gone, status == Success);
    }

    /** One region of a walk: referenced, walked, released.  Returns the next region. */
    method VisitRegion(a: Address, sel: Selector, ghost k: nat)
      returns (status: NtStatus, next: Address, ghost gone: set<Address>)
      requires Valid() && k < |regionlist| && regionlist[k] == a
      modifies this
      ensures Valid() && Progress(old(T()), old(live), T(), live, sel, gone, status == Success)
      ensures RegionDone(live, a, sel)
      ensures next == if k + 1 < |old(regionlist)| then old(regionlist)[k + 1] else NULL
      ensures regionlist == old(regionlist) || regionlist == old(regionlist)[..k] + old(regionlist)[k + 1..]
    {
      ghost var t, l := T(), live;
      NextAt(t.regionlist, k);
      UnlinkedAt(t.regionlist, k);
      status, gone := WalkRegion(a, sel);
      next := NextOf(regionlist, a);
      ReleaseRegion(a, t, l, sel, gone, status == Success);
    }

    /** The reference of a walk is given up; what the walk has done stands. */
    method ReleaseRegion(a: Address, ghost t: Table, ghost l: seq<Attachment>, ghost sel: Selector,
        ghost gone: set<Address>, ghost clean: bool)
      requires Consistent(T(), live, a, NULL, NONE) && a in regions && Progress(t, l, T(), live, sel, gone, clean)
      modifies this`regions, this`regionlist
      ensures Valid() && Progress(t, l, T(), live, sel, gone, clean)
      ensures regionlist == old(regionlist) || regionlist == Unlinked(old(regionlist), a)
    {
      ghost var t2 := T();
      DeleteReference(a);
      SameProgress(t, l, t, t2, T(), live, sel, gone, clean);
    }

    /** The walk over all regions. */
    method Detach(sel: Selector) returns (status: NtStatus)
      requires Valid()
      modifies this
      ensures Valid() && live == Survivors(old(live), sel)
      ensures Shrunk(old(T()), T()) && (status == Success <==> NoNewIdle(old(T()), T()))
    {
      ghost var t0, live0 := T(), live;
      status := Success;
      ghost var gone := {};
      NoProgress(t0, live0, sel);
      var pRegion := if regionlist == [] then NULL else regionlist[0];
      ghost var k := 0;
      while pRegion != NULL
        invariant Valid() && Progress(t0, live0, T(), live, sel, gone, status == Success)
        invariant k <= |regionlist| && pRegion == if k < |regionlist| then regionlist[k] else NULL
        invariant RegionsDone(live, regionlist, k, sel)
        decreases |regionlist| - k
      {
        ghost var t, l := T(), live;
        var rc, next;
        ghost var more;
        rc, next, more := VisitRegion(pRegion, sel, k);
        MoreProgress(t0, live0, t, l, T(), live, sel, gone, more, status == Success, rc == Success);
        StillDone(t, l, T(), live, sel, more, rc == Success);
        RegionVisited(t.regionlist, regionlist, k, l, live, sel);
        gone := gone + more;
        if rc != Success {
          status := rc;
        }
        if regionlist == t.regionlist {
          k := k + 1;
        }
        pRegion := next;
      }
      NothingSelectedLeft(T(), live, sel);
      AllGone(t0, live0, T(), live, sel, gone, status == Success);
    }

    /** DdkDetachIntercept */
    method DetachIntercept(id: Address, thread: Address) returns (status: NtStatus)
      requires Valid()
      modifies this
      ensures Valid() && live == Survivors(old(live), ByOwner(id, thread))
      ensures Picked(live, old(live), (a: Attachment) =>
                || (thread != NULL && a.entry.thread != thread)
                || (id != NULL && a.entry.identity != id && a.entry.instance != id))
      ensures Shrunk(old(T()), T()) && (status == Success <==> NoNewIdle(old(T()), T()))
    {
      if regionlist == [] {
        NothingAttached(T(), live);
        OwnersLeft(live, live, id, thread);
        return Success;
      }
      ghost var before := live;
      status := Detach(ByOwner(id, thread));
      OwnersLeft(before, live, id, thread);
    }

    /** DdkDetachAddressRange */
    method DetachAddressRange(address: Address, len: nat, inModule: Module) returns (status: NtStatus)
      requires Valid()
      modifies this
      ensures Valid() && live == Survivors(old(live), ByRange(address, address + len, inModule))
      ensures Picked(live, old(live), (a: Attachment) =>
                || a.func < address || a.func >= address + len
                || (inModule.Module? && (a.entry.code < inModule.start || a.entry.code >= inModule.end)))
      ensures Shrunk(old(T()), T()) && (status == Success <==> NoNewIdle(old(T()), T()))
    {
      if regionlist == [] || len == 0 {
        NothingInRange(T(), live, address, len, inModule);
        OutsideLeft(live, live, address, len, inModule);
        return Success;
      }
      ghost var before := live;
      status := Detach(ByRange(address, address + len, inModule));
      OutsideLeft(before, live, address, len, inModule);
    }

    /** DdkGetIntercept: the code a call of the function reaches in a thread, and the real pointer. */
    method GetIntercept(s: SlotRef, currentThread: Address) returns (code: Address, realpointer: Address)
      requires Valid() && HasSlot(T(), s) && SlotAt(T(), s).func != NULL && currentThread != NULL
      ensures realpointer == SlotAt(T(), s).trampoline != NULL
      ensures code == Dispatch(EntriesOn(live, SlotAt(T(), s).func), currentThread, realpointer) != NULL
      ensures Reaches(live, SlotAt(T(), s).func, currentThread, realpointer, code)
    {
      DispatchReaches(live, SlotAt(T(), s).func, currentThread, SlotAt(T(), s).trampoline);
      var d := regions[s.region].detour[s.index];
      code, realpointer := d.trampoline, d.trampoline;
      assert SlotOk(T(), s, NONE);
      forall j | 0 <= j < |d.intercepts| ensures d.intercepts[j].code != NULL {
        EntriesFrom(live, d.func, d.intercepts[j]);
      }
      var j := 0;
      while j < |d.intercepts|
        invariant 0 <= j <= |d.intercepts| && code != NULL
        invariant Dispatch(d.intercepts[j..], currentThread, code)
                == Dispatch(d.intercepts, currentThread, d.trampoline)
      {
        DispatchCons(d.intercepts[j..], currentThread, code);
        assert d.intercepts[j..][1..] == d.intercepts[j + 1..];
        if d.intercepts[j].thread == currentThread {
          code := d.intercepts[j].code;
          return;
        }
        if d.intercepts[j].thread == NULL {
          code := d.intercepts[j].code;
        }
        j := j + 1;
      }
      if code == NULL {
        code := d.func;
      }
    }
  }
}
