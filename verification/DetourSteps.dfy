/** What the statements of the registry do, as lemmas about tables.

    Walks over lists and slots that shrink under way, the rollback of a failed attachment, references held
    during a walk, and the statuses and offers the calls deal in.
    The registry's methods apply them to the table before and after each statement.
 */
module DetourSteps {
  import opened DetourTable
  import opened DetourHistory

  datatype NtStatus =
    | Success | InvalidParameter | InsufficientResources | OperationInProgress | AccessDenied
    | InvalidBlockLength | InvalidHandle | DataError | Unsuccessful

  const NO_ERROR := 0
  const ERROR_ACCESS_DENIED := 5
  const ERROR_INVALID_HANDLE := 6
  const ERROR_NOT_ENOUGH_MEMORY := 8
  const ERROR_INVALID_BLOCK := 9
  const ERROR_INVALID_DATA := 13
  const ERROR_INVALID_OPERATION := 4317

  function DetourStatus(rc: int): (status: NtStatus)
    ensures status == Success <==> rc == 0
    ensures status == AccessDenied <==> rc == 5
    ensures status == InvalidHandle <==> rc == 6
    ensures status == InsufficientResources <==> rc == 8
    ensures status == InvalidBlockLength <==> rc == 9
    ensures status == DataError <==> rc == 13
    ensures status == OperationInProgress <==> rc == 4317
    ensures status != InvalidParameter
  {
    if rc == NO_ERROR then Success
    else if rc == ERROR_INVALID_OPERATION then OperationInProgress
    else if rc == ERROR_ACCESS_DENIED then AccessDenied
    else if rc == ERROR_NOT_ENOUGH_MEMORY then InsufficientResources
    else if rc == ERROR_INVALID_BLOCK then InvalidBlockLength
    else if rc == ERROR_INVALID_HANDLE then InvalidHandle
    else if rc == ERROR_INVALID_DATA then DataError
    else Unsuccessful
  }

  /** What the system offers for a new region near a function: NULL, or zero-filled memory. */
  datatype Memory = Memory(address: Address, size: nat)

  /** The region after `a` on the list. */
  function NextOf(list: seq<Address>, a: Address): Address {
    if |list| < 2 then NULL else if list[0] == a then list[1] else NextOf(list[1..], a)
  }

  function Unlinked(list: seq<Address>, a: Address): seq<Address> {
    if list == [] then [] else if list[0] == a then list[1..] else [list[0]] + Unlinked(list[1..], a)
  }

  lemma {:induction false} NextAt(list: seq<Address>, k: nat)
    requires k < |list| && forall i, j :: 0 <= i < j < |list| ==> list[i] != list[j]
    ensures NextOf(list, list[k]) == if k + 1 < |list| then list[k + 1] else NULL
  {
    if k > 0 {
      NextAt(list[1..], k - 1);
    }
  }

  lemma {:induction false} UnlinkedAt(list: seq<Address>, k: nat)
    requires k < |list| && forall i, j :: 0 <= i < j < |list| ==> list[i] != list[j]
    ensures Unlinked(list, list[k]) == list[..k] + list[k + 1..]
  {
    if k > 0 {
      UnlinkedAt(list[1..], k - 1);
      assert list[..k] == [list[0]] + list[1..][..k - 1];
    }
  }

  ghost predicate SameSlots(t: Table, t': Table) {
    forall s :: SlotAt(t', s) == SlotAt(t, s)
  }

  ghost function WithReferences(t: Table, a: Address, n: nat): Table
    requires a in t.regions
  {
    WithRegion(t, a, t.regions[a].(refcount := n))
  }

  lemma Referenced(t: Table, live: seq<Attachment>, a: Address)
    requires Sound(t, live) && a in t.regionlist
    ensures a in t.regions
    ensures var t' := WithReferences(t, a, t.regions[a].refcount + 1);
            Consistent(t', live, a, NULL, NONE) && SameSlots(t, t')
  {
    var t' := WithReferences(t, a, t.regions[a].refcount + 1);
    assert RegionOk(a, t.regions[a], NULL, NULL);
    assert SameSlots(t, t');
    forall b | b in t'.regions ensures RegionOk(b, t'.regions[b], a, NULL) {
      assert RegionOk(b, t.regions[b], NULL, NULL);
    }
    forall s ensures SlotOk(t', s, NONE) {
      assert SlotOk(t, s, NONE);
    }
  }

  lemma Unreferenced(t: Table, live: seq<Attachment>, a: Address)
    requires Consistent(t, live, a, NULL, NONE) && a in t.regions
    ensures t.regions[a].refcount == 1
    ensures var t' := WithRegion(t, a, t.regions[a].(refcount := 0));
            Consistent(t', live, NULL, a, NONE) && SameSlots(t, t')
  {
    assert RegionOk(a, t.regions[a], a, NULL);
    var t' := WithRegion(t, a, t.regions[a].(refcount := 0));
    assert SameSlots(t, t');
    forall b | b in t'.regions ensures RegionOk(b, t'.regions[b], NULL, a) {
      assert RegionOk(b, t.regions[b], a, NULL);
    }
    forall s ensures SlotOk(t', s, NONE) {
      assert SlotOk(t, s, NONE);
    }
  }

  lemma SameProgress(t: Table, live: seq<Attachment>, t1: Table, t2: Table, t3: Table, live': seq<Attachment>,
      sel: Selector, gone: set<Address>, clean: bool)
    requires SameSlots(t, t1) && SameSlots(t2, t3) && Progress(t1, live, t2, live', sel, gone, clean)
    ensures Progress(t, live, t3, live', sel, gone, clean)
  {
  }

  lemma StillDone(t: Table, live: seq<Attachment>, t': Table, live': seq<Attachment>, sel: Selector,
      gone: set<Address>, clean: bool)
    requires Progress(t, live, t', live', sel, gone, clean)
    ensures forall a :: RegionDone(live, a, sel) ==> RegionDone(live', a, sel)
  {
    WithoutMembers(live, gone);
  }

  /** The walk has been through the first `k` regions of the list. */
  ghost predicate RegionsDone(live: seq<Attachment>, list: seq<Address>, k: nat, sel: Selector) {
    k <= |list| && forall i :: 0 <= i < k ==> RegionDone(live, list[i], sel)
  }

  lemma RegionVisited(list: seq<Address>, list': seq<Address>, k: nat, live: seq<Attachment>, live': seq<Attachment>,
      sel: Selector)
    requires k < |list| && RegionsDone(live, list, k, sel) && RegionDone(live', list[k], sel)
    requires forall a :: RegionDone(live, a, sel) ==> RegionDone(live', a, sel)
    requires list' == list || list' == list[..k] + list[k + 1..]
    ensures RegionsDone(live', list', if list' == list then k + 1 else k, sel)
  {
  }

  lemma NothingSelectedLeft(t: Table, live: seq<Attachment>, sel: Selector)
    requires Sound(t, live) && RegionsDone(live, t.regionlist, |t.regionlist|, sel)
    ensures forall x :: x in live ==> !Selected(sel, x.func, x.entry)
  {
    forall x | x in live ensures !Selected(sel, x.func, x.entry) {
      var n :| 0 <= n < |live| && live[n] == x;
      assert SlotAt(t, live[n].entry.detour).func != NULL;
      assert x.entry.detour.region in t.regionlist;
    }
  }

  lemma NothingAttached(t: Table, live: seq<Attachment>)
    requires Sound(t, live)
    ensures t.regionlist == [] ==> live == []
  {
    if live != [] {
      var x := live[0];
      assert SlotAt(t, x.entry.detour).func != NULL;
      assert |t.regionlist| > 0;
    }
  }

  lemma NothingInRange(t: Table, live: seq<Attachment>, address: Address, len: nat, inModule: Module)
    requires Sound(t, live) && (t.regionlist == [] || len == 0)
    ensures Survivors(live, ByRange(address, address + len, inModule)) == live
    ensures Shrunk(t, t) && NoNewIdle(t, t)
  {
    NothingAttached(t, live);
    SurvivorsUnselected(live, ByRange(address, address + len, inModule));
  }

  /** Nothing selected is left in the first `i` slots of region `a`. */
  ghost predicate RegionWalked(live: seq<Attachment>, a: Address, sel: Selector, i: nat) {
    forall x :: x in live && x.entry.detour.region == a && x.entry.detour.index < i ==> !Selected(sel, x.func, x.entry)
  }

  /** Nothing selected is left in region `a`. */
  ghost predicate RegionDone(live: seq<Attachment>, a: Address, sel: Selector) {
    forall x :: x in live && x.entry.detour.region == a ==> !Selected(sel, x.func, x.entry)
  }

  lemma MarkBelow(t: Table, a: Address, held: Address)
    requires RegionsOk(t, held, NULL) && a in t.regions
    ensures MarkOk(t.regions[a])
  {
    assert RegionOk(a, t.regions[a], held, NULL);
  }

  lemma SlotWalkedInRegion(t: Table, t': Table, live: seq<Attachment>, live': seq<Attachment>, s: SlotRef,
      sel: Selector, gone: set<Address>, clean: bool)
    requires RegionWalked(live, s.region, sel, s.index) && ListsOk(t', live')
    requires Progress(t, live, t', live', sel, gone, clean) && SlotDone(t, t', s, sel)
    ensures RegionWalked(live', s.region, sel, s.index + 1)
  {
    WithoutMembers(live, gone);
    forall x | x in live' && x.entry.detour.region == s.region && x.entry.detour.index <= s.index
      ensures !Selected(sel, x.func, x.entry)
    {
      if x.entry.detour.index == s.index {
        assert x.entry.detour == s;
        var n :| 0 <= n < |live'| && live'[n] == x;
        EntriesHave(live', n);
        assert SlotAt(t', s).func == x.func != NULL;
        assert x.entry in SlotAt(t', s).intercepts;
      }
    }
  }

  lemma EmptySlotWalked(t: Table, live: seq<Attachment>, s: SlotRef, sel: Selector)
    requires RegionWalked(live, s.region, sel, s.index) && ListsOk(t, live) && SlotAt(t, s).func == NULL
    ensures RegionWalked(live, s.region, sel, s.index + 1)
  {
    forall x | x in live && x.entry.detour.region == s.region && x.entry.detour.index <= s.index
      ensures !Selected(sel, x.func, x.entry)
    {
      var n :| 0 <= n < |live| && live[n] == x;
      assert SlotAt(t, live[n].entry.detour).func != NULL;
    }
  }

  lemma RegionWalkEnds(t: Table, live: seq<Attachment>, a: Address, sel: Selector, i: nat)
    requires RegionWalked(live, a, sel, i) && ListsOk(t, live) && a in t.regions
    requires MarkOk(t.regions[a]) && t.regions[a].hwm <= i
    ensures RegionDone(live, a, sel)
  {
    forall x | x in live && x.entry.detour.region == a ensures !Selected(sel, x.func, x.entry) {
      var n :| 0 <= n < |live| && live[n] == x;
      assert SlotAt(t, live[n].entry.detour).func != NULL;
    }
  }

  lemma OneEntry(t: Table, live: seq<Attachment>, s: SlotRef, i: nat, j: nat)
    requires ListsOk(t, live) && SlotAt(t, s).func != NULL
    requires i <= j < |SlotAt(t, s).intercepts|
    requires SlotAt(t, s).intercepts[i].address == SlotAt(t, s).intercepts[j].address
    ensures i == j
  {
    var list := SlotAt(t, s).intercepts;
    assert list == EntriesOn(live, SlotAt(t, s).func);
    EntriesApart(live, SlotAt(t, s).func, i, j);
  }

  lemma WalkStep(t0: Table, t: Table, t': Table, s: SlotRef, sel: Selector, p: nat, removed: bool, success: bool)
    requires SlotWalked(t0, t, s, sel, p) && HasSlot(t, s) && SlotAt(t, s).func != NULL && p < |SlotAt(t, s).intercepts|
    requires removed == Selected(sel, SlotAt(t, s).func, SlotAt(t, s).intercepts[p])
    requires if removed then EntryFreed(t, t', s, p, success) else t' == t
    ensures SlotWalked(t0, t', s, sel, if removed then p else p + 1)
    ensures HasSlot(t', s)
    ensures removed ==> |SlotAt(t', s).intercepts| == |SlotAt(t, s).intercepts| - 1
  {
    var list, list' := SlotAt(t, s).intercepts, SlotAt(t', s).intercepts;
    assert removed ==> list' == list[..p] + list[p + 1..];
    forall i | 0 <= i < p ensures list'[i] == list[i] {
    }
  }

  /** The walk over slot `s` has kept the first `p` entries of what is left, none of them selected. */
  ghost predicate SlotWalked(t0: Table, t: Table, s: SlotRef, sel: Selector, p: nat) {
    && SlotAt(t0, s).func != NULL
    && (SlotAt(t, s).func == SlotAt(t0, s).func || SlotAt(t, s) == FREE_SLOT)
    && p <= |SlotAt(t, s).intercepts|
    && (forall i :: 0 <= i < p ==> !Selected(sel, SlotAt(t0, s).func, SlotAt(t, s).intercepts[i]))
    && (forall s' :: s' != s ==> SlotAt(t, s') == SlotAt(t0, s'))
    && Slots(t, s.region) == Slots(t0, s.region)
  }

  ghost predicate SlotDone(t0: Table, t: Table, s: SlotRef, sel: Selector) {
    SlotWalked(t0, t, s, sel, |SlotAt(t, s).intercepts|)
  }

  lemma UnlinkedPending(t: Table, live: seq<Attachment>, held: Address, s: SlotRef, j: nat)
    requires Consistent(t, live, held, NULL, NONE) && HasSlot(t, s)
    requires SlotAt(t, s).func != NULL && j < |SlotAt(t, s).intercepts|
    ensures var d := SlotAt(t, s);
            var d' := d.(intercepts := d.intercepts[..j] + d.intercepts[j + 1..]);
            var t' := WithSlot(t, s, d');
            && Consistent(t', Without(live, {d.intercepts[j].address}), held, NULL, s)
            && Replaced(t, t', s, d') && d.trampoline != NULL
  {
    var d := SlotAt(t, s);
    EntryUnlinked(t, live, held, s, j);
    SlotsPending(WithSlot(t, s, d.(intercepts := d.intercepts[..j] + d.intercepts[j + 1..])), s);
    assert SlotOk(t, s, NONE);
    assert SlotAt(t, NONE) == FREE_SLOT;
  }

  lemma FreedAfterUnlink(t: Table, t1: Table, t2: Table, s: SlotRef, j: nat, success: bool)
    requires HasSlot(t, s) && j < |SlotAt(t, s).intercepts| && s.region in t2.regions
    requires var d := SlotAt(t, s);
             && Replaced(t, t1, s, d.(intercepts := d.intercepts[..j] + d.intercepts[j + 1..]))
             && t1 == WithSlot(t, s, d.(intercepts := d.intercepts[..j] + d.intercepts[j + 1..]))
    requires SlotAt(t1, s).intercepts != [] ==> success && t2 == t1
    requires !success ==> t2 == t1
    requires SlotAt(t1, s).intercepts == [] && success ==>
               Replaced(t1, t2, s, FREE_SLOT) && |t2.regions[s.region].detour| == |t1.regions[s.region].detour|
    ensures EntryFreed(t, t2, s, j, success)
  {
  }

  /** The walk along a list to an entry that is on it. */
  method FindEntry(list: seq<Intercept>, address: Address, ghost j: nat) returns (i: nat)
    requires j < |list| && list[j].address == address
    ensures i <= j && list[i].address == address
  {
    i := 0;
    while list[i].address != address
      invariant 0 <= i <= j
      decreases j - i
    {
      i := i + 1;
    }
  }

  ghost predicate HasRegion(t: Table, a: Address) {
    a in t.regions
  }

  /** What freeing the entry at position `j` of slot `s` does to the table. */
  ghost predicate EntryFreed(t: Table, t': Table, s: SlotRef, j: nat, success: bool)
    requires j < |SlotAt(t, s).intercepts|
  {
    var d := SlotAt(t, s);
    var rest := d.intercepts[..j] + d.intercepts[j + 1..];
    && (forall s' :: s' != s ==> SlotAt(t', s') == SlotAt(t, s'))
    && SlotAt(t', s) == (if rest == [] && success then FREE_SLOT else d.(intercepts := rest))
    && (!success ==> rest == [])
    && Slots(t', s.region) == Slots(t, s.region)
  }

  /** The number of slots of a region. */
  ghost function Slots(t: Table, a: Address): nat {
    if a in t.regions then |t.regions[a].detour| else 0
  }

  lemma SlotsPending(t: Table, s: SlotRef)
    requires SlotsOk(t, NONE) && NULL !in t.regions
    ensures SlotsOk(t, s)
  {
    assert SlotAt(t, NONE) == FREE_SLOT;
    forall s' ensures SlotOk(t, s', s) {
      assert SlotOk(t, s', NONE);
    }
  }

  /** An entry on the list of a slot points to that slot. */
  lemma PointsHere(t: Table, live: seq<Attachment>, s: SlotRef, p: nat)
    requires ListsOk(t, live) && Unique(t) && SlotAt(t, s).func != NULL && p < |SlotAt(t, s).intercepts|
    ensures SlotAt(t, s).intercepts[p].detour == s
    ensures Attachment(SlotAt(t, s).func, SlotAt(t, s).intercepts[p]) in live
  {
    EntriesFrom(live, SlotAt(t, s).func, SlotAt(t, s).intercepts[p]);
  }

  lemma EntryProgress(t: Table, live: seq<Attachment>, t': Table, live': seq<Attachment>, s: SlotRef, p: nat,
      sel: Selector, success: bool)
    requires ListsOk(t, live) && Unique(t) && SlotAt(t, s).func != NULL && p < |SlotAt(t, s).intercepts|
    requires Selected(sel, SlotAt(t, s).func, SlotAt(t, s).intercepts[p])
    requires live' == Without(live, {SlotAt(t, s).intercepts[p].address})
    requires EntryFreed(t, t', s, p, success)
    ensures Progress(t, live, t', live', sel, {SlotAt(t, s).intercepts[p].address}, success)
  {
    PointsHere(t, live, s, p);
  }

  /** Every slot in use stays in use for the same function, with the same trampoline. */
  ghost predicate Keeps(t: Table, t': Table) {
    forall s :: SlotAt(t, s).func != NULL ==>
      SlotAt(t', s).func == SlotAt(t, s).func && SlotAt(t', s).trampoline == SlotAt(t, s).trampoline
  }

  lemma NoEntries(t: Table, live: seq<Attachment>, func: Address)
    requires ListsOk(t, live) && forall s :: SlotAt(t, s).func != func
    ensures EntriesOn(live, func) == []
  {
    if EntriesOn(live, func) != [] {
      EntriesFrom(live, func, EntriesOn(live, func)[0]);
    }
  }

  /** A new slot can be taken from region `b`. */
  ghost predicate HasRoom(t: Table, b: Address, func: Address) {
    b in t.regions && t.regions[b].freecount > 0 && WithinJumpBounds(b, t.regions[b].size, func, 0x100)
  }

  /** `a` is the first region on the list that a new slot can be taken from. */
  ghost predicate FirstWithRoom(t: Table, a: Address, func: Address) {
    exists k :: 0 <= k < |t.regionlist| && t.regionlist[k] == a && HasRoom(t, a, func)
      && forall i :: 0 <= i < k ==> !HasRoom(t, t.regionlist[i], func)
  }

  /** Slot `s` is the first free one of the first region with room, or of a new region if there is none. */
  ghost predicate Chosen(t: Table, s: SlotRef, func: Address, memory: Memory) {
    if exists b :: HasRoom(t, b, func) then
      && FirstWithRoom(t, s.region, func) && HasSlot(t, s)
      && forall i :: 0 <= i < s.index ==> t.regions[s.region].detour[i].func != NULL
    else s == SlotRef(memory.address, 0)
  }

  lemma ChosenFrom(t0: Table, t1: Table, s: SlotRef, spare: Address, func: Address, memory: Memory)
    requires Grown(t0, t1, s.region, spare) && HasSlot(t1, s)
    requires forall i :: 0 <= i < s.index ==> t1.regions[s.region].detour[i].func != NULL
    requires if spare == NULL then FirstWithRoom(t0, s.region, func)
             else s.region == memory.address && forall b :: !HasRoom(t0, b, func)
    ensures Chosen(t0, s, func, memory)
  {
    if spare == NULL {
      assert HasRoom(t0, s.region, func);
    } else {
      assert t1.regions[s.region].detour[0] == FREE_SLOT;
    }
  }

  /** No slot of region `a` belongs to `func`. */
  ghost predicate NotIn(t: Table, a: Address, func: Address) {
    forall i :: SlotAt(t, SlotRef(a, i)).func != func
  }

  /** A region out of jump bounds, or without the function below its mark, does not have it. */
  lemma NotInRegion(t: Table, a: Address, func: Address)
    requires RegionsOk(t, NULL, NULL) && SlotsOk(t, NONE) && a in t.regions && func != NULL
    requires WithinJumpBounds(a, t.regions[a].size, func, 0) ==>
               forall i :: 0 <= i < t.regions[a].hwm && i < |t.regions[a].detour| ==>
                   t.regions[a].detour[i].func != func
    ensures NotIn(t, a, func)
  {
    assert RegionOk(a, t.regions[a], NULL, NULL);
    forall i ensures SlotAt(t, SlotRef(a, i)).func != func {
      assert SlotOk(t, SlotRef(a, i), NONE);
    }
  }

  lemma NowhereFound(t: Table, func: Address)
    requires ListOk(t) && func != NULL && forall k :: 0 <= k < |t.regionlist| ==> NotIn(t, t.regionlist[k], func)
    ensures forall s :: SlotAt(t, s).func != func
  {
    forall s ensures SlotAt(t, s).func != func {
      if s.region in t.regions {
        var k :| 0 <= k < |t.regionlist| && t.regionlist[k] == s.region;
        assert SlotAt(t, SlotRef(t.regionlist[k], s.index)).func != func;
      }
    }
  }

  /** What DetourAllocateRegionWithinJumpBounds can offer for a function. */
  ghost predicate Offered(t: Table, func: Address, memory: Memory) {
    memory.address != NULL ==>
      memory.address !in t.regions && WithinJumpBounds(memory.address, memory.size, func, 0)
  }

  ghost predicate FreshRegion(r: Region) {
    && |r.detour| >= 1 && r.freecount == |r.detour| && r.hwm == 0 && r.refcount == 0
    && forall i :: 0 <= i < |r.detour| ==> r.detour[i] == FREE_SLOT
  }

  lemma SlotAtFree(t: Table, live: seq<Attachment>, spare: Address, s: SlotRef)
    requires Consistent(t, live, NULL, spare, NONE) && HasSlot(t, s) && SlotAt(t, s).func == NULL
    ensures SlotAt(t, s) == FREE_SLOT
  {
    assert SlotOk(t, s, NONE);
  }

  /** Slot `s` was free before and is taken after, in a region otherwise the same. */
  ghost predicate SlotTaking(t: Table, t': Table, s: SlotRef) {
    && HasSlot(t, s) && SlotAt(t, s) == FREE_SLOT
    && HasSlot(t', s) && t' == WithRegion(t, s.region, t'.regions[s.region])
    && Taken(t.regions[s.region], t'.regions[s.region], s.index)
  }

  lemma TakenTable(t: Table, t': Table, live: seq<Attachment>, s: SlotRef, func: Address, spare: Address, r: Region)
    requires Consistent(t, live, NULL, spare, NONE) && HasSlot(t, s) && SlotAt(t, s) == FREE_SLOT
    requires spare == NULL || spare == s.region
    requires func != NULL && forall s' :: SlotAt(t, s').func != func
    requires WithinJumpBounds(s.region, t.regions[s.region].size, func, 0)
    requires var r0 := t.regions[s.region];
             && r.detour == r0.detour[s.index := Detour(func, NULL, [])] && r.freecount == r0.freecount - 1
             && r.size == r0.size && r.refcount == r0.refcount && MarkOk(r)
    requires t' == Table(t.regionlist, t.regions[s.region := r])
    ensures HasSlot(t', s) && Consistent(t', live, NULL, NULL, s)
    ensures Replaced(t, t', s, Detour(func, NULL, []))
    ensures SlotTaking(t, t', s)
  {
    SlotTaken(t, live, s, func, NULL, spare, r);
  }

  lemma RaisedMark(r: Region, r': Region, i: nat)
    requires MarkOk(r) && i < |r.detour| == |r'.detour| && r'.detour[i].func != NULL
    requires forall j :: 0 <= j < |r.detour| && j != i ==> r'.detour[j] == r.detour[j]
    requires forall j :: 0 <= j < i ==> r.detour[j].func != NULL
    requires r'.hwm == if i >= r.hwm then i + 1 else r.hwm
    ensures MarkOk(r')
  {
  }

  /** `t` before and after selecting region `a`: the same, or one fresh region longer. */
  ghost predicate Grown(t0: Table, t1: Table, a: Address, spare: Address) {
    if spare == NULL then t1 == t0
    else
      && spare == a && spare !in t0.regions && spare in t1.regions && FreshRegion(t1.regions[spare])
      && t1.regionlist == [spare] + t0.regionlist && t1.regions == t0.regions[spare := t1.regions[spare]]
  }

  /** A region before and after one of its free slots is taken. */
  ghost predicate Taken(r1: Region, r2: Region, i: nat) {
    && r2.size == r1.size && r2.refcount == r1.refcount && r2.freecount == r1.freecount - 1
    && i < |r1.detour| == |r2.detour| && r1.detour == r2.detour[i := FREE_SLOT]
  }

  /** Giving up a slot just taken restores the table, down to the mark and the region list. */
  lemma RolledBack(t0: Table, t1: Table, t2: Table, t3: Table, s: SlotRef, spare: Address)
    requires RegionsOk(t1, NULL, spare) && NULL !in t1.regions
    requires Grown(t0, t1, s.region, spare) && SlotTaking(t1, t2, s)
    requires Given(t2, t3, s, NULL)
    ensures t3 == t0
  {
    var r1 := t1.regions[s.region];
    assert RegionOk(s.region, r1, NULL, spare);
    var r' :| Cleared(t2, s, r')
      && t3 == if r'.freecount == |r'.detour| && s.region != NULL
               then Table(Unlinked(t2.regionlist, s.region), t2.regions - {s.region})
               else WithRegion(t2, s.region, r');
    MarkUnique(r1, r');
    assert r' == r1;
    if spare == NULL {
      assert WithRegion(t2, s.region, r1).regions == t1.regions;
    } else {
      assert t2.regions - {s.region} == t0.regions;
    }
  }

  /** A slot whose function has been patched is no longer pending. */
  lemma Patched(t: Table, t': Table, live: seq<Attachment>, s: SlotRef)
    requires Consistent(t, live, NULL, NULL, s) && HasSlot(t, s)
    requires SlotAt(t, s).func != NULL && SlotAt(t, s).intercepts == []
    requires HasSlot(t', s) && t' == WithSlot(t, s, SlotAt(t', s))
    requires SlotAt(t', s) == SlotAt(t, s).(trampoline := SlotAt(t', s).trampoline) && SlotAt(t', s).trampoline != NULL
    ensures Sound(t', live) && Replaced(t, t', s, SlotAt(t', s))
  {
    var d', r := SlotAt(t', s), t.regions[s.region];
    SlotsAfter(t, s, r.(detour := r.detour[s.index := d']), d');
    UniqueAfter(t, t', s, d');
    PatchedRegions(t, t', s);
    PatchedSlots(t, t', s);
  }

  lemma PatchedRegions(t: Table, t': Table, s: SlotRef)
    requires ListOk(t) && RegionsOk(t, NULL, NULL) && HasSlot(t, s) && SlotAt(t, s).func != NULL
    requires HasSlot(t', s) && t' == WithSlot(t, s, SlotAt(t', s)) && SlotAt(t', s).func != NULL
    ensures ListOk(t') && RegionsOk(t', NULL, NULL)
  {
    var d', r := SlotAt(t', s), t.regions[s.region];
    FreeCountUpdate(r.detour, s.index, d');
    assert RegionOk(s.region, r, NULL, NULL);
    RegionsAfter(t, s.region, r.(detour := r.detour[s.index := d']), NULL, NULL, NULL);
  }

  lemma PatchedSlots(t: Table, t': Table, s: SlotRef)
    requires ListOk(t) && SlotsOk(t, s) && HasSlot(t, s) && SlotAt(t, s).func != NULL
    requires HasSlot(t', s) && t' == WithSlot(t, s, SlotAt(t', s))
    requires SlotAt(t', s).func == SlotAt(t, s).func && SlotAt(t', s).trampoline != NULL
    requires Replaced(t, t', s, SlotAt(t', s))
    ensures SlotsOk(t', NONE)
  {
    var d', r := SlotAt(t', s), t.regions[s.region];
    assert SlotOk(t, s, s);
    SlotsOkAfter(t, s, r.(detour := r.detour[s.index := d']), d', s, NONE);
  }


  /** A region with one slot given up. */
  ghost function Freed(r: Region, i: nat): Region
    requires i < |r.detour|
  {
    r.(detour := r.detour[i := FREE_SLOT], freecount := r.freecount + 1)
  }

  lemma RegionTwice(t: Table, t1: Table, t2: Table, a: Address)
    requires a in t1.regions && a in t2.regions && t1 == WithRegion(t, a, t1.regions[a])
    requires t2.regionlist == t1.regionlist && t2.regions == t1.regions[a := t2.regions[a]]
    ensures t2 == WithRegion(t, a, t2.regions[a])
  {
  }

  /** What freeing slot `s` makes of its region. */
  ghost predicate Cleared(t: Table, s: SlotRef, r': Region)
    requires HasSlot(t, s)
  {
    var r := t.regions[s.region];
    && r'.detour == r.detour[s.index := FREE_SLOT] && r'.freecount == r.freecount + 1
    && r'.size == r.size && r'.refcount == r.refcount && MarkOk(r')
  }

  lemma GivenUp(t: Table, t': Table, live: seq<Attachment>, held: Address, s: SlotRef, r': Region)
    requires Consistent(t, live, held, NULL, s) && HasSlot(t, s)
    requires SlotAt(t, s).func != NULL && SlotAt(t, s).intercepts == [] && Cleared(t, s, r')
    requires t' == if r'.refcount == 0 && r'.freecount == |r'.detour|
                   then Table(Unlinked(t.regionlist, s.region), WithRegion(t, s.region, r').regions - {s.region})
                   else WithRegion(t, s.region, r')
    ensures Consistent(t', live, held, NULL, NONE)
    ensures Replaced(t, t', s, FREE_SLOT) && Given(t, t', s, held)
  {
    var t1 := WithRegion(t, s.region, r');
    SlotCleared(t, live, held, s, r');
    assert RegionOk(s.region, t.regions[s.region], held, NULL);
    if r'.refcount == 0 && r'.freecount == |r'.detour| {
      assert t1.regions - {s.region} == t.regions - {s.region};
      Dropped(t1, live, held, s.region);
    } else {
      RegionsTight(t1, held, s.region);
    }
  }

  lemma Dropped(t: Table, live: seq<Attachment>, held: Address, a: Address)
    requires Consistent(t, live, held, a, NONE) && a in t.regions && a != held
    requires t.regions[a].freecount == |t.regions[a].detour|
    ensures var t' := Table(Unlinked(t.regionlist, a), t.regions - {a});
            Consistent(t', live, held, NULL, NONE) && forall s :: SlotAt(t', s) == SlotAt(t, s)
  {
    var k :| 0 <= k < |t.regionlist| && t.regionlist[k] == a;
    UnlinkedAt(t.regionlist, k);
    RegionDropped(t, live, held, k);
  }

  lemma KeptWhole(t: Table, live: seq<Attachment>, held: Address, s: SlotRef, r': Region)
    requires Consistent(t, live, held, NULL, s) && HasSlot(t, s)
    requires SlotAt(t, s).func != NULL && SlotAt(t, s).trampoline != NULL
    requires MarkOk(r') && r' == t.regions[s.region].(hwm := r'.hwm)
    ensures WithRegion(t, s.region, r') == t && r'.freecount != |r'.detour|
    ensures SlotsOk(t, NONE)
  {
    assert RegionOk(s.region, t.regions[s.region], held, NULL);
    MarkUnique(t.regions[s.region], r');
    FreeCountBounds(t.regions[s.region].detour);
    NothingPending(t, s);
  }

  lemma RegionsTight(t: Table, held: Address, a: Address)
    requires RegionsOk(t, held, a) && a in t.regions && NULL !in t.regions
    requires t.regions[a].refcount != 0 || t.regions[a].freecount != |t.regions[a].detour|
    ensures RegionsOk(t, held, NULL)
  {
    assert RegionOk(a, t.regions[a], held, a);
  }

  /** `t'` is `t` with slot `s` given up: its region is as it was but for the slot, the free count and
      the mark, or is gone when it would be wholly free and nobody holds it. */
  ghost predicate Given(t: Table, t': Table, s: SlotRef, held: Address)
    requires HasSlot(t, s)
  {
    exists r' :: Cleared(t, s, r')
      && t' == if r'.freecount == |r'.detour| && s.region != held
               then Table(Unlinked(t.regionlist, s.region), t.regions - {s.region})
               else WithRegion(t, s.region, r')
  }
}
