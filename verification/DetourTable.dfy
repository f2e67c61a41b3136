/** The state of the detour registry as values.

    Regions of slots and the intercepts attached to them, the invariants that every public call keeps,
    and what the single steps of the calls do to a table that has them.  The history of attachments, newest
    first, stands beside the table: the lists of the slots are its projections.
 */
module DetourTable {

  type Address = nat

  const NULL: Address := 0
  const MAXIMUM_JUMP := 0x8000_0000
  const SIZEOF_DETOUR := 56
  const SIZEOF_REGION := 96

  /** A pointer to a detour: the region it lies in and its index there. */
  datatype SlotRef = SlotRef(region: Address, index: nat)

  datatype Intercept = Intercept(address: Address, detour: SlotRef,
                                 code: Address, identity: Address, instance: Address, thread: Address)

  datatype Detour = Detour(func: Address, trampoline: Address, intercepts: seq<Intercept>)

  datatype Region = Region(size: nat, refcount: nat, freecount: nat, hwm: nat, detour: seq<Detour>)

  datatype Table = Table(regionlist: seq<Address>, regions: map<Address, Region>)

  /** An intercept together with the function it was attached to. */
  datatype Attachment = Attachment(func: Address, entry: Intercept)

  const FREE_SLOT := Detour(NULL, NULL, [])

  predicate WithinJumpBounds(region: Address, size: nat, func: Address, slack: nat)
    requires slack <= MAXIMUM_JUMP
  {
    || (func >= region && func - region <= MAXIMUM_JUMP - slack)
    || (region + size > func && region + size - func <= MAXIMUM_JUMP - slack)
  }

  predicate Near(p: int, q: int, distance: int) {
    p - q <= distance && q - p <= distance
  }

  /** A function outside of a region is within bounds exactly when every place in the region is near it, up to its end,
      and a function inside exactly when one of the two ends of the region is. */
  lemma JumpsFitExactlyWhen(region: Address, size: nat, func: Address, slack: nat, most: nat)
    requires most + slack == 0x8000_0000
    ensures func < region || func >= region + size ==>
              (WithinJumpBounds(region, size, func, slack) <==>
                (forall p :: region <= p <= region + size ==> Near(p, func, most)))
    ensures region <= func < region + size ==>
              (WithinJumpBounds(region, size, func, slack) <==>
                Near(region, func, most) || Near(region + size, func, most))
  {
    assert Near(region, func, most) ==> func - region <= most;
    assert Near(region + size, func, most) ==> region + size - func <= most;
  }

  ghost function SlotAt(t: Table, s: SlotRef): Detour {
    if s.region in t.regions && s.index < |t.regions[s.region].detour| then t.regions[s.region].detour[s.index]
    else FREE_SLOT
  }

  function FreeCount(detour: seq<Detour>): nat {
    if detour == [] then 0
    else FreeCount(detour[..|detour| - 1]) + if detour[|detour| - 1].func == NULL then 1 else 0
  }

  // ---- Invariants

  ghost predicate ListOk(t: Table) {
    && (forall i, j :: 0 <= i < j < |t.regionlist| ==> t.regionlist[i] != t.regionlist[j])
    && (forall a :: a in t.regionlist <==> a in t.regions)
    && NULL !in t.regions
  }

  /** Every used slot lies below the high water mark and the slot just below the mark is used. */
  ghost predicate MarkOk(r: Region) {
    && r.hwm <= |r.detour|
    && (forall i :: r.hwm <= i < |r.detour| ==> r.detour[i].func == NULL)
    && (r.hwm > 0 ==> r.detour[r.hwm - 1].func != NULL)
  }

  /** `held` is the region a walk holds a reference to; only `held` and `spare` may be wholly free. */
  ghost predicate RegionOk(a: Address, r: Region, held: Address, spare: Address) {
    && |r.detour| >= 1
    && r.freecount == FreeCount(r.detour)
    && MarkOk(r)
    && r.refcount == (if a == held then 1 else 0)
    && (r.freecount == |r.detour| ==> a == held || a == spare)
  }

  ghost predicate RegionsOk(t: Table, held: Address, spare: Address) {
    forall a :: a in t.regions ==> RegionOk(a, t.regions[a], held, spare)
  }

  /** A slot is either free or patched in; only `pending` may be taken and not yet patched. */
  ghost predicate SlotOk(t: Table, s: SlotRef, pending: SlotRef) {
    var d := SlotAt(t, s);
    if d.func == NULL then d == FREE_SLOT
    else
      && (d.trampoline != NULL || (s == pending && d.intercepts == []))
      && s.region in t.regions && WithinJumpBounds(s.region, t.regions[s.region].size, d.func, 0)
  }

  ghost predicate SlotsOk(t: Table, pending: SlotRef) {
    forall s :: SlotOk(t, s, pending)
  }

  /** Each function owns at most one slot across all regions. */
  ghost predicate Unique(t: Table) {
    forall s, s' :: SlotAt(t, s).func == SlotAt(t, s').func != NULL ==> s == s'
  }

  /** The entries attached to `func`, newest first. */
  function EntriesOn(live: seq<Attachment>, func: Address): seq<Intercept> {
    if live == [] then []
    else if live[0].func == func then [live[0].entry] + EntriesOn(live[1..], func)
    else EntriesOn(live[1..], func)
  }

  /** Every live intercept is on exactly the list of the slot it points to, the lists keep the
      order of attachment and no allocation is used twice. */
  ghost predicate ListsOk(t: Table, live: seq<Attachment>) {
    && (forall s :: SlotAt(t, s).func != NULL ==> SlotAt(t, s).intercepts == EntriesOn(live, SlotAt(t, s).func))
    && (forall n :: 0 <= n < |live| ==> SlotAt(t, live[n].entry.detour).func == live[n].func != NULL)
    && (forall n :: 0 <= n < |live| ==> live[n].entry.code != NULL)
    && Distinct(live)
  }

  ghost predicate Distinct(live: seq<Attachment>) {
    forall m, n :: 0 <= m < n < |live| ==> live[m].entry.address != live[n].entry.address
  }

  ghost predicate Consistent(t: Table, live: seq<Attachment>, held: Address, spare: Address, pending: SlotRef) {
    ListOk(t) && RegionsOk(t, held, spare) && SlotsOk(t, pending) && Unique(t) && ListsOk(t, live)
  }

  const NONE := SlotRef(NULL, 0)

  /** What holds between public calls. */
  ghost predicate Sound(t: Table, live: seq<Attachment>) {
    Consistent(t, live, NULL, NULL, NONE)
  }

  // ---- Free counts

  lemma {:induction false} FreeCountUpdate(detour: seq<Detour>, i: nat, d: Detour)
    requires i < |detour|
    ensures FreeCount(detour[i := d])
         == FreeCount(detour) - (if detour[i].func == NULL then 1 else 0) + if d.func == NULL then 1 else 0
  {
    var n := |detour| - 1;
    if i == n {
      assert detour[i := d][..n] == detour[..n];
    } else {
      FreeCountUpdate(detour[..n], i, d);
      assert detour[i := d][..n] == detour[..n][i := d];
    }
  }

  lemma {:induction false} FreeCountBounds(detour: seq<Detour>)
    ensures FreeCount(detour) <= |detour|
    ensures FreeCount(detour) == |detour| <==> forall i :: 0 <= i < |detour| ==> detour[i].func == NULL
    ensures FreeCount(detour) == 0 <==> forall i :: 0 <= i < |detour| ==> detour[i].func != NULL
  {
    if detour != [] {
      var n := |detour| - 1;
      FreeCountBounds(detour[..n]);
      assert forall i :: 0 <= i < n ==> detour[..n][i] == detour[i];
    }
  }

  // ---- Lists of entries

  lemma {:induction false} EntriesHave(live: seq<Attachment>, n: nat)
    requires n < |live|
    ensures live[n].entry in EntriesOn(live, live[n].func)
  {
    if n > 0 {
      EntriesHave(live[1..], n - 1);
    }
  }

  lemma {:induction false} EntriesFrom(live: seq<Attachment>, func: Address, e: Intercept)
    requires e in EntriesOn(live, func)
    ensures exists n :: 0 <= n < |live| && live[n] == Attachment(func, e)
  {
    if live[0].func == func && live[0].entry == e {
    } else {
      EntriesFrom(live[1..], func, e);
      var n :| 0 <= n < |live[1..]| && live[1..][n] == Attachment(func, e);
      assert live[n + 1] == Attachment(func, e);
    }
  }

  /** `live` without the entries allocated at the given addresses. */
  ghost function Without(live: seq<Attachment>, gone: set<Address>): seq<Attachment> {
    if live == [] then []
    else if live[0].entry.address in gone then Without(live[1..], gone)
    else [live[0]] + Without(live[1..], gone)
  }

  lemma {:induction false} WithoutMembers(live: seq<Attachment>, gone: set<Address>)
    ensures forall a :: a in Without(live, gone) <==> a in live && a.entry.address !in gone
    ensures |Without(live, gone)| <= |live|
    ensures Distinct(live) ==> Distinct(Without(live, gone))
  {
    if live != [] {
      WithoutMembers(live[1..], gone);
      assert live == [live[0]] + live[1..];
      if Distinct(live) {
        assert Distinct(live[1..]);
        var rest := Without(live[1..], gone);
        forall n | 0 <= n < |rest| ensures rest[n].entry.address != live[0].entry.address {
          assert rest[n] in live[1..];
        }
      }
    }
  }

  lemma {:induction false} WithoutTwice(live: seq<Attachment>, gone: set<Address>, more: set<Address>)
    ensures Without(Without(live, gone), more) == Without(live, gone + more)
  {
    if live != [] {
      WithoutTwice(live[1..], gone, more);
      if live[0].entry.address !in gone {
        var w := Without(live, gone);
        assert w[1..] == Without(live[1..], gone);
      }
    }
  }

  lemma {:induction false} WithoutNone(live: seq<Attachment>)
    ensures Without(live, {}) == live
  {
    if live != [] {
      WithoutNone(live[1..]);
    }
  }

  /** Entries of one list have different addresses. */
  lemma {:induction false} EntriesApart(live: seq<Attachment>, func: Address, m: nat, n: nat)
    requires Distinct(live) && m <= n < |EntriesOn(live, func)|
    requires EntriesOn(live, func)[m].address == EntriesOn(live, func)[n].address
    ensures m == n
  {
    var list, rest := EntriesOn(live, func), EntriesOn(live[1..], func);
    assert Distinct(live[1..]);
    if live[0].func != func {
      EntriesApart(live[1..], func, m, n);
    } else if m > 0 {
      assert list[m] == rest[m - 1] && list[n] == rest[n - 1];
      EntriesApart(live[1..], func, m - 1, n - 1);
    } else if n > 0 {
      EntriesFrom(live[1..], func, rest[n - 1]);
    }
  }

  /** Removing an entry that is not on the list of `func` leaves that list alone. */
  lemma {:induction false} EntriesOfOthers(live: seq<Attachment>, func: Address, address: Address)
    requires forall n :: 0 <= n < |live| && live[n].func == func ==> live[n].entry.address != address
    ensures EntriesOn(Without(live, {address}), func) == EntriesOn(live, func)
  {
    if live != [] {
      EntriesOfOthers(live[1..], func, address);
      if live[0].entry.address != address {
        var w := Without(live, {address});
        assert w[1..] == Without(live[1..], {address});
      }
    }
  }

  /** Unlinking the entry at position `j` of the list of `func` is removing it from the history. */
  lemma {:induction false} EntriesUnlinked(live: seq<Attachment>, func: Address, j: nat)
    requires Distinct(live) && j < |EntriesOn(live, func)|
    ensures var list := EntriesOn(live, func);
            EntriesOn(Without(live, {list[j].address}), func) == list[..j] + list[j + 1..]
  {
    var list := EntriesOn(live, func);
    var address := list[j].address;
    var rest := EntriesOn(live[1..], func);
    assert Distinct(live[1..]);
    if live[0].func == func && j == 0 {
      EntriesOfOthers(live[1..], func, address);
      assert list[..0] + list[1..] == rest;
    } else {
      var j' := if live[0].func == func then j - 1 else j;
      EntriesUnlinked(live[1..], func, j');
      EntriesFrom(live[1..], func, rest[j']);
      assert live[0].entry.address != address;
      var w := Without(live, {address});
      assert w == [live[0]] + Without(live[1..], {address});
      assert w[1..] == Without(live[1..], {address});
      if live[0].func == func {
        assert list[..j] == [live[0].entry] + rest[..j'];
        assert list[j + 1..] == rest[j' + 1..];
      }
    }
  }

  // ---- What a sound table means

  /** An intercept found on a list of some slot is the live one of that allocation, attached to the function of
      the slot, and the slot is the one it points to. */
  lemma SitsWhereItPoints(t: Table, live: seq<Attachment>, n: nat, s: SlotRef, j: nat)
    requires Sound(t, live) && n < |live|
    requires j < |SlotAt(t, s).intercepts| && SlotAt(t, s).intercepts[j].address == live[n].entry.address
    ensures s == live[n].entry.detour && SlotAt(t, s).func == live[n].func
            && SlotAt(t, s).intercepts[j] == live[n].entry
  {
    assert SlotOk(t, s, NONE);
    var e := SlotAt(t, s).intercepts[j];
    EntriesFrom(live, SlotAt(t, s).func, e);
    var m :| 0 <= m < |live| && live[m] == Attachment(SlotAt(t, s).func, e);
    assert m == n;
  }

  /** Every live intercept sits exactly once on a list: that of the slot it points to, which belongs to its function. */
  lemma InterceptSitsOnce(t: Table, live: seq<Attachment>, n: nat) returns (j: nat)
    requires Sound(t, live) && n < |live|
    ensures HasSlot(t, live[n].entry.detour)
    ensures j < |SlotAt(t, live[n].entry.detour).intercepts|
            && SlotAt(t, live[n].entry.detour).intercepts[j] == live[n].entry
    ensures forall s, k: nat ::
              k < |SlotAt(t, s).intercepts| && SlotAt(t, s).intercepts[k].address == live[n].entry.address ==>
              s == live[n].entry.detour && k == j
  {
    var home := live[n].entry.detour;
    EntriesHave(live, n);
    var list := SlotAt(t, home).intercepts;
    assert live[n].entry in list;
    j :| 0 <= j < |list| && list[j] == live[n].entry;
    forall s, k: nat | k < |SlotAt(t, s).intercepts| && SlotAt(t, s).intercepts[k].address == live[n].entry.address
      ensures s == home && k == j
    {
      SitsWhereItPoints(t, live, n, s, k);
      EntriesApart(live, live[n].func, if j < k then j else k, if j < k then k else j);
    }
  }

  // ---- What the steps of the registry do to a consistent table

  ghost function WithRegion(t: Table, a: Address, r: Region): Table {
    t.(regions := t.regions[a := r])
  }

  ghost predicate HasSlot(t: Table, s: SlotRef) {
    s.region in t.regions && s.index < |t.regions[s.region].detour|
  }

  ghost function WithSlot(t: Table, s: SlotRef, d: Detour): Table
    requires HasSlot(t, s)
  {
    var r := t.regions[s.region];
    WithRegion(t, s.region, r.(detour := r.detour[s.index := d]))
  }

  /** `t'` is `t` with slot `s` replaced by `d`. */
  ghost predicate Replaced(t: Table, t': Table, s: SlotRef, d: Detour) {
    forall s' :: SlotAt(t', s') == if s' == s then d else SlotAt(t, s')
  }

  lemma SlotsAfter(t: Table, s: SlotRef, r': Region, d: Detour)
    requires HasSlot(t, s) && r'.detour == t.regions[s.region].detour[s.index := d]
    ensures Replaced(t, WithRegion(t, s.region, r'), s, d)
  {
  }

  lemma SlotRewritten(t: Table, s: SlotRef, d: Detour, d': Detour)
    requires HasSlot(t, s)
    ensures WithSlot(WithSlot(t, s, d), s, d') == WithSlot(t, s, d')
    ensures WithSlot(t, s, SlotAt(t, s)) == t
    ensures SlotAt(WithSlot(t, s, d), s) == d
  {
    var r := t.regions[s.region];
    assert r.detour[s.index := d][s.index := d'] == r.detour[s.index := d'];
    assert r.detour[s.index := r.detour[s.index]] == r.detour;
    assert t.regions[s.region := r] == t.regions;
    assert WithSlot(WithSlot(t, s, d), s, d').regions == WithSlot(t, s, d').regions;
  }

  /** A patched slot needs no exception. */
  lemma NothingPending(t: Table, s: SlotRef)
    requires SlotsOk(t, s) && (SlotAt(t, s).func == NULL || SlotAt(t, s).trampoline != NULL)
    ensures SlotsOk(t, NONE)
  {
    forall s' ensures SlotOk(t, s', NONE) {
      assert SlotOk(t, s', s);
    }
  }

  lemma RegionsAfter(t: Table, a: Address, r': Region, held: Address, spare: Address, spare': Address)
    requires RegionsOk(t, held, spare) && RegionOk(a, r', held, spare')
    requires NULL !in t.regions && (spare == NULL || spare == a)
    ensures RegionsOk(WithRegion(t, a, r'), held, spare')
  {
  }

  lemma SlotsOkAfter(t: Table, s: SlotRef, r': Region, d: Detour, pending: SlotRef, pending': SlotRef)
    requires HasSlot(t, s) && SlotsOk(t, pending) && (pending == NONE || pending == s)
    requires r'.size == t.regions[s.region].size && Replaced(t, WithRegion(t, s.region, r'), s, d)
    requires SlotOk(WithRegion(t, s.region, r'), s, pending')
    requires NULL !in t.regions
    ensures SlotsOk(WithRegion(t, s.region, r'), pending')
  {
    var t' := WithRegion(t, s.region, r');
    forall s' ensures SlotOk(t', s', pending') {
      assert SlotOk(t, s', pending);
      assert SlotAt(t, NONE) == FREE_SLOT;
    }
  }

  lemma UniqueAfter(t: Table, t': Table, s: SlotRef, d: Detour)
    requires Unique(t) && Replaced(t, t', s, d)
    requires d.func == NULL || d.func == SlotAt(t, s).func || forall s' :: SlotAt(t, s').func != d.func
    ensures Unique(t')
  {
  }

  /** A region's mark is determined by its slots. */
  lemma MarkUnique(r: Region, r': Region)
    requires MarkOk(r) && MarkOk(r') && r.detour == r'.detour
    ensures r.hwm == r'.hwm
  {
  }

  /** A slot without intercepts that is detached becomes free; its region may be wholly free now. */
  lemma SlotCleared(t: Table, live: seq<Attachment>, held: Address, s: SlotRef, r': Region)
    requires Consistent(t, live, held, NULL, s) && HasSlot(t, s)
    requires SlotAt(t, s).func != NULL && SlotAt(t, s).intercepts == []
    requires var r := t.regions[s.region];
             && r'.detour == r.detour[s.index := FREE_SLOT] && r'.freecount == r.freecount + 1
             && r'.size == r.size && r'.refcount == r.refcount && MarkOk(r')
    ensures Consistent(WithRegion(t, s.region, r'), live, held, s.region, NONE)
    ensures Replaced(t, WithRegion(t, s.region, r'), s, FREE_SLOT)
  {
    var t', r := WithRegion(t, s.region, r'), t.regions[s.region];
    SlotsAfter(t, s, r', FREE_SLOT);
    FreeCountUpdate(r.detour, s.index, FREE_SLOT);
    RegionsAfter(t, s.region, r', held, NULL, s.region);
    SlotsOkAfter(t, s, r', FREE_SLOT, s, NONE);
    UniqueAfter(t, t', s, FREE_SLOT);
    ListsCleared(t, t', live, s);
  }

  lemma ListsCleared(t: Table, t': Table, live: seq<Attachment>, s: SlotRef)
    requires ListsOk(t, live) && SlotAt(t, s).func != NULL && SlotAt(t, s).intercepts == []
    requires Replaced(t, t', s, FREE_SLOT)
    ensures ListsOk(t', live)
  {
    forall n | 0 <= n < |live| ensures live[n].entry.detour != s {
      EntriesHave(live, n);
    }
  }

  /** A wholly free region can be unlinked: it holds no used slot. */
  lemma RegionDropped(t: Table, live: seq<Attachment>, held: Address, k: nat)
    requires k < |t.regionlist| && t.regionlist[k] in t.regions
    requires Consistent(t, live, held, t.regionlist[k], NONE) && t.regionlist[k] != held
    requires var r := t.regions[t.regionlist[k]]; r.freecount == |r.detour|
    ensures var t' := Table(t.regionlist[..k] + t.regionlist[k + 1..], t.regions - {t.regionlist[k]});
            && Consistent(t', live, held, NULL, NONE)
            && forall s :: SlotAt(t', s) == SlotAt(t, s)
  {
    var a := t.regionlist[k];
    var t' := Table(t.regionlist[..k] + t.regionlist[k + 1..], t.regions - {a});
    FreeCountBounds(t.regions[a].detour);
    forall s ensures SlotAt(t', s) == SlotAt(t, s) && SlotOk(t', s, NONE) {
      assert SlotOk(t, s, NONE);
    }
    ListDropped(t, k);
    assert RegionsOk(t', held, NULL);
    assert Unique(t');
    assert ListsOk(t', live);
  }

  lemma ListDropped(t: Table, k: nat)
    requires ListOk(t) && k < |t.regionlist|
    ensures ListOk(Table(t.regionlist[..k] + t.regionlist[k + 1..], t.regions - {t.regionlist[k]}))
  {
    var list := t.regionlist[..k] + t.regionlist[k + 1..];
    var old_ := t.regionlist;
    assert forall i :: 0 <= i < |list| ==> list[i] == old_[if i < k then i else i + 1];
    forall i, j | 0 <= i < j < |list| ensures list[i] != list[j] {
    }
    forall i | 0 <= i < |list| ensures list[i] in t.regions && list[i] != old_[k] {
      assert old_[if i < k then i else i + 1] in old_;
    }
    forall b | b in t.regions && b != t.regionlist[k] ensures b in list {
      var i :| 0 <= i < |t.regionlist| && t.regionlist[i] == b;
      assert list[if i < k then i else i - 1] == b;
    }
  }

  /** Unlinking one entry from the list of its slot. */
  lemma EntryUnlinked(t: Table, live: seq<Attachment>, held: Address, s: SlotRef, j: nat)
    requires Consistent(t, live, held, NULL, NONE) && HasSlot(t, s)
    requires SlotAt(t, s).func != NULL && j < |SlotAt(t, s).intercepts|
    ensures var d := SlotAt(t, s);
            var d' := d.(intercepts := d.intercepts[..j] + d.intercepts[j + 1..]);
            && Consistent(WithSlot(t, s, d'), Without(live, {d.intercepts[j].address}), held, NULL, NONE)
            && Replaced(t, WithSlot(t, s, d'), s, d')
  {
    var d, r := SlotAt(t, s), t.regions[s.region];
    var d' := d.(intercepts := d.intercepts[..j] + d.intercepts[j + 1..]);
    var t', r' := WithSlot(t, s, d'), r.(detour := r.detour[s.index := d']);
    assert SlotOk(t, s, NONE);
    SlotsAfter(t, s, r', d');
    SameFunction(t, live, held, s, d');
    ListsUnlinked(t, t', live, s, j);
  }

  /** Changing only the list of a slot keeps everything but the lists. */
  lemma SameFunction(t: Table, live: seq<Attachment>, held: Address, s: SlotRef, d': Detour)
    requires Consistent(t, live, held, NULL, NONE) && HasSlot(t, s)
    requires SlotAt(t, s).func != NULL && SlotAt(t, s).trampoline != NULL
    requires d'.func == SlotAt(t, s).func && d'.trampoline == SlotAt(t, s).trampoline
    ensures var t' := WithSlot(t, s, d');
            ListOk(t') && RegionsOk(t', held, NULL) && SlotsOk(t', NONE) && Unique(t')
  {
    var r := t.regions[s.region];
    var r', t' := r.(detour := r.detour[s.index := d']), WithSlot(t, s, d');
    SlotsAfter(t, s, r', d');
    FreeCountUpdate(r.detour, s.index, d');
    assert RegionOk(s.region, r, held, NULL);
    RegionsAfter(t, s.region, r', held, NULL, NULL);
    assert SlotOk(t, s, NONE);
    SlotsOkAfter(t, s, r', d', NONE, NONE);
    UniqueAfter(t, t', s, d');
  }

  lemma ListsUnlinked(t: Table, t': Table, live: seq<Attachment>, s: SlotRef, j: nat)
    requires ListsOk(t, live) && Unique(t) && SlotAt(t, s).func != NULL && j < |SlotAt(t, s).intercepts|
    requires var d := SlotAt(t, s);
             Replaced(t, t', s, d.(intercepts := d.intercepts[..j] + d.intercepts[j + 1..]))
    ensures ListsOk(t', Without(live, {SlotAt(t, s).intercepts[j].address}))
  {
    var d := SlotAt(t, s);
    var address := d.intercepts[j].address;
    var live' := Without(live, {address});
    WithoutMembers(live, {address});
    EntriesUnlinked(live, d.func, j);
    EntriesFrom(live, d.func, d.intercepts[j]);
    forall s' | SlotAt(t', s').func != NULL && s' != s
      ensures SlotAt(t', s').intercepts == EntriesOn(live', SlotAt(t', s').func)
    {
      EntriesOfOthers(live, SlotAt(t, s').func, address);
    }
    forall n | 0 <= n < |live'|
      ensures SlotAt(t', live'[n].entry.detour).func == live'[n].func != NULL && live'[n].entry.code != NULL
    {
      assert live'[n] in live;
    }
  }

  /** Linking a new entry at the head of the list of its slot. */
  lemma EntryLinked(t: Table, live: seq<Attachment>, s: SlotRef, e: Intercept)
    requires Sound(t, live) && HasSlot(t, s) && SlotAt(t, s).func != NULL
    requires e.detour == s && e.code != NULL
    requires forall n :: 0 <= n < |live| ==> live[n].entry.address != e.address
    ensures var d := SlotAt(t, s);
            Sound(WithSlot(t, s, d.(intercepts := [e] + d.intercepts)), [Attachment(d.func, e)] + live)
  {
    var d, r := SlotAt(t, s), t.regions[s.region];
    var d' := d.(intercepts := [e] + d.intercepts);
    var t', r' := WithSlot(t, s, d'), r.(detour := r.detour[s.index := d']);
    assert SlotOk(t, s, NONE);
    SlotsAfter(t, s, r', d');
    SameFunction(t, live, NULL, s, d');
    ListsLinked(t, t', live, s, e);
  }

  lemma ListsLinked(t: Table, t': Table, live: seq<Attachment>, s: SlotRef, e: Intercept)
    requires ListsOk(t, live) && Unique(t) && SlotAt(t, s).func != NULL
    requires e.detour == s && e.code != NULL
    requires forall n :: 0 <= n < |live| ==> live[n].entry.address != e.address
    requires Replaced(t, t', s, SlotAt(t, s).(intercepts := [e] + SlotAt(t, s).intercepts))
    ensures ListsOk(t', [Attachment(SlotAt(t, s).func, e)] + live)
  {
    var func := SlotAt(t, s).func;
    var live' := [Attachment(func, e)] + live;
    assert live'[1..] == live;
    forall s' | SlotAt(t', s').func != NULL ensures SlotAt(t', s').intercepts == EntriesOn(live', SlotAt(t', s').func) {
      assert SlotAt(t', s').func == func ==> s' == s;
    }
  }

  /** Taking a free slot for a function that has none. */
  lemma SlotTaken(t: Table, live: seq<Attachment>, s: SlotRef, func: Address, trampoline: Address, spare: Address,
      r': Region)
    requires Consistent(t, live, NULL, spare, NONE) && HasSlot(t, s)
    requires spare == NULL || spare == s.region
    requires SlotAt(t, s).func == NULL != func
    requires forall s' :: SlotAt(t, s').func != func
    requires WithinJumpBounds(s.region, t.regions[s.region].size, func, 0)
    requires var r := t.regions[s.region];
             && r'.detour == r.detour[s.index := Detour(func, trampoline, [])] && r'.freecount == r.freecount - 1
             && r'.size == r.size && r'.refcount == r.refcount && MarkOk(r')
    ensures Consistent(WithRegion(t, s.region, r'), live, NULL, NULL, if trampoline == NULL then s else NONE)
    ensures Replaced(t, WithRegion(t, s.region, r'), s, Detour(func, trampoline, []))
  {
    var t', r, d := WithRegion(t, s.region, r'), t.regions[s.region], Detour(func, trampoline, []);
    SlotsAfter(t, s, r', d);
    FreeCountUpdate(r.detour, s.index, d);
    FreeCountBounds(r'.detour);
    RegionsAfter(t, s.region, r', NULL, spare, NULL);
    SlotsOkAfter(t, s, r', d, NONE, if trampoline == NULL then s else NONE);
    UniqueAfter(t, t', s, d);
    ListsTaken(t, t', live, s, d);
  }

  lemma ListsTaken(t: Table, t': Table, live: seq<Attachment>, s: SlotRef, d: Detour)
    requires ListsOk(t, live) && SlotAt(t, s).func == NULL != d.func && d.intercepts == []
    requires forall s' :: SlotAt(t, s').func != d.func
    requires Replaced(t, t', s, d)
    ensures ListsOk(t', live)
  {
    if EntriesOn(live, d.func) != [] {
      EntriesFrom(live, d.func, EntriesOn(live, d.func)[0]);
    }
  }

  /** A new, wholly free region at the head of the list. */
  lemma RegionAdded(t: Table, live: seq<Attachment>, a: Address, r: Region)
    requires Sound(t, live) && a != NULL && a !in t.regions
    requires |r.detour| >= 1 && r.freecount == |r.detour| && r.hwm == 0 && r.refcount == 0
    requires forall i :: 0 <= i < |r.detour| ==> r.detour[i] == FREE_SLOT
    ensures var t' := Table([a] + t.regionlist, t.regions[a := r]);
            Consistent(t', live, NULL, a, NONE) && forall s :: SlotAt(t', s) == SlotAt(t, s)
  {
    var t' := Table([a] + t.regionlist, t.regions[a := r]);
    FreeCountBounds(r.detour);
    forall s ensures SlotAt(t', s) == SlotAt(t, s) && SlotOk(t', s, NONE) {
      assert SlotOk(t, s, NONE);
    }
    assert ListOk(t') && RegionsOk(t', NULL, a) && Unique(t') && ListsOk(t', live);
  }
}
