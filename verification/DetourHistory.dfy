/** Detaching and dispatching, said about the history of attachments alone. */
module DetourHistory {
  import opened Common
  import opened DetourTable

  datatype Module = AnyModule | Module(start: Address, end: Address)

  /** What a detach call is asked to remove. */
  datatype Selector =
    | ByOwner(id: Address, thread: Address)                        // DdkDetachIntercept
    | ByRange(start: Address, end: Address, inModule: Module)      // DdkDetachAddressRange

  predicate Selected(sel: Selector, func: Address, e: Intercept) {
    match sel
    case ByOwner(id, thread) =>
      (thread == NULL || e.thread == thread) && (id == NULL || e.identity == id || e.instance == id)
    case ByRange(start, end, inModule) =>
      start <= func < end && (inModule == AnyModule || inModule.start <= e.code < inModule.end)
  }

  /** The history without the selected attachments, the others in their order. */
  ghost function Survivors(live: seq<Attachment>, sel: Selector): seq<Attachment> {
    if live == [] then []
    else if Selected(sel, live[0].func, live[0].entry) then Survivors(live[1..], sel)
    else [live[0]] + Survivors(live[1..], sel)
  }

  lemma {:induction false} SurvivorsAre(live: seq<Attachment>, sel: Selector, gone: set<Address>)
    requires forall a :: a in live ==> (a.entry.address in gone <==> Selected(sel, a.func, a.entry))
    ensures Without(live, gone) == Survivors(live, sel)
  {
    if live != [] {
      SurvivorsAre(live[1..], sel, gone);
    }
  }

  /** What a detach by owner leaves: in their order, the attachments of another thread than the one given, and those
      that have the given identity neither as identity nor as instance. */
  lemma {:induction false} OwnersLeft(live: seq<Attachment>, left: seq<Attachment>, id: Address, thread: Address)
    requires left == Survivors(live, ByOwner(id, thread))
    ensures Picked(left, live, (a: Attachment) =>
              || (thread != NULL && a.entry.thread != thread)
              || (id != NULL && a.entry.identity != id && a.entry.instance != id))
  {
    var keep := (a: Attachment) =>
      || (thread != NULL && a.entry.thread != thread)
      || (id != NULL && a.entry.identity != id && a.entry.instance != id);
    if live == [] {
      PickedNone(keep);
    } else {
      OwnersLeft(live[1..], Survivors(live[1..], ByOwner(id, thread)), id, thread);
      PickedNext(Survivors(live[1..], ByOwner(id, thread)), live, keep);
    }
  }

  /** What a detach by range leaves: in their order, the attachments to functions outside of the range, and those whose
      code is outside of the module if there is one. */
  lemma {:induction false} OutsideLeft(live: seq<Attachment>, left: seq<Attachment>, address: Address, len: nat,
      inModule: Module)
    requires left == Survivors(live, ByRange(address, address + len, inModule))
    ensures Picked(left, live, (a: Attachment) =>
              || a.func < address || a.func >= address + len
              || (inModule.Module? && (a.entry.code < inModule.start || a.entry.code >= inModule.end)))
  {
    var keep := (a: Attachment) =>
      || a.func < address || a.func >= address + len
      || (inModule.Module? && (a.entry.code < inModule.start || a.entry.code >= inModule.end));
    if live == [] {
      PickedNone(keep);
    } else {
      OutsideLeft(live[1..], Survivors(live[1..], ByRange(address, address + len, inModule)), address, len, inModule);
      PickedNext(Survivors(live[1..], ByRange(address, address + len, inModule)), live, keep);
    }
  }

  // ---- The progress of a detach

  /** No slot is taken or repatched. */
  ghost predicate Shrunk(t: Table, t': Table) {
    forall s :: SlotAt(t', s).func != NULL ==>
      SlotAt(t', s).func == SlotAt(t, s).func && SlotAt(t', s).trampoline == SlotAt(t, s).trampoline
  }

  /** A slot left patched without intercepts was so before. */
  ghost predicate NoNewIdle(t: Table, t': Table) {
    forall s :: SlotAt(t', s).func != NULL && SlotAt(t', s).intercepts == [] ==>
      SlotAt(t, s).func != NULL && SlotAt(t, s).intercepts == []
  }

  /** A slot patched without intercepts stays so: a walk looks at no slot twice. */
  ghost predicate IdleStays(t: Table, t': Table) {
    forall s :: SlotAt(t, s).func != NULL && SlotAt(t, s).intercepts == [] ==> SlotAt(t', s) == SlotAt(t, s)
  }

  /** From one state to another only the selected entries at `gone` have been removed; every unpatching
      succeeded exactly if no function is left patched for nothing that was not so before. */
  ghost predicate Progress(t: Table, live: seq<Attachment>, t': Table, live': seq<Attachment>, sel: Selector,
      gone: set<Address>, clean: bool)
  {
    && live' == Without(live, gone)
    && (forall a :: a in live && a.entry.address in gone ==> Selected(sel, a.func, a.entry))
    && Shrunk(t, t')
    && IdleStays(t, t')
    && (clean <==> NoNewIdle(t, t'))
  }

  lemma NoProgress(t: Table, live: seq<Attachment>, sel: Selector)
    ensures Progress(t, live, t, live, sel, {}, true)
  {
    WithoutNone(live);
  }

  lemma MoreProgress(t0: Table, live0: seq<Attachment>, t1: Table, live1: seq<Attachment>, t2: Table,
      live2: seq<Attachment>, sel: Selector, gone: set<Address>, more: set<Address>, clean: bool, clean': bool)
    requires Progress(t0, live0, t1, live1, sel, gone, clean) && Progress(t1, live1, t2, live2, sel, more, clean')
    ensures Progress(t0, live0, t2, live2, sel, gone + more, clean && clean')
  {
    WithoutTwice(live0, gone, more);
    WithoutMembers(live0, gone);
    IdleAdds(t0, t1, t2);
  }

  lemma IdleAdds(t0: Table, t1: Table, t2: Table)
    requires IdleStays(t0, t1) && IdleStays(t1, t2) && Shrunk(t0, t1) && Shrunk(t1, t2)
    ensures NoNewIdle(t0, t2) <==> NoNewIdle(t0, t1) && NoNewIdle(t1, t2)
  {
    if !NoNewIdle(t0, t1) {
      var s :| SlotAt(t1, s).func != NULL && SlotAt(t1, s).intercepts == []
               && !(SlotAt(t0, s).func != NULL && SlotAt(t0, s).intercepts == []);
      assert SlotAt(t2, s) == SlotAt(t1, s);
    } else if !NoNewIdle(t1, t2) {
      var s :| SlotAt(t2, s).func != NULL && SlotAt(t2, s).intercepts == []
               && !(SlotAt(t1, s).func != NULL && SlotAt(t1, s).intercepts == []);
    }
  }

  /** When nothing selected is left, exactly the survivors are left. */
  lemma AllGone(t: Table, live: seq<Attachment>, t': Table, live': seq<Attachment>, sel: Selector,
      gone: set<Address>, clean: bool)
    requires Progress(t, live, t', live', sel, gone, clean)
    requires forall a :: a in live' ==> !Selected(sel, a.func, a.entry)
    ensures live' == Survivors(live, sel)
  {
    WithoutMembers(live, gone);
    SurvivorsAre(live, sel, gone);
  }

  // ---- Dispatch

  /** The position of the newest entry for `thread`, or the length of the list. */
  ghost function Newest(es: seq<Intercept>, thread: Address): (i: nat)
    ensures i <= |es| && (i < |es| ==> es[i].thread == thread)
    ensures forall j :: 0 <= j < i ==> es[j].thread != thread
  {
    if es == [] || es[0].thread == thread then 0 else 1 + Newest(es[1..], thread)
  }

  /** The position of the oldest entry for all threads, or -1. */
  ghost function OldestShared(es: seq<Intercept>): (i: int)
    ensures -1 <= i < |es| && (i >= 0 ==> es[i].thread == NULL)
    ensures forall j :: i < j < |es| ==> es[j].thread != NULL
  {
    if es == [] then -1
    else if es[|es| - 1].thread == NULL then |es| - 1
    else OldestShared(es[..|es| - 1])
  }

  /** The newest entry for the thread, else the oldest entry for all threads, else the real code. */
  ghost function Dispatch(es: seq<Intercept>, thread: Address, real_: Address): Address {
    if Newest(es, thread) < |es| then es[Newest(es, thread)].code
    else if OldestShared(es) >= 0 then es[OldestShared(es)].code
    else real_
  }

  /** Dispatch seen from the newest entry on. */
  lemma DispatchCons(es: seq<Intercept>, thread: Address, real_: Address)
    requires es != [] && thread != NULL
    ensures Dispatch(es, thread, real_)
         == if es[0].thread == thread then es[0].code
            else Dispatch(es[1..], thread, if es[0].thread == NULL then es[0].code else real_)
  {
    var rest := es[1..];
    var o := OldestShared(rest);
    assert o >= 0 ==> es[o + 1] == rest[o] && OldestShared(es) == o + 1 by {
      if o >= 0 {
        assert forall j :: o + 1 < j < |es| ==> es[j] == rest[j - 1];
      }
    }
    assert o < 0 ==> OldestShared(es) <= 0 by {
      assert forall j :: 0 < j < |es| ==> es[j] == rest[j - 1];
    }
  }

  /** The `n`-th attachment, counted from the newest, is to `func` for `thread`. */
  ghost predicate For(live: seq<Attachment>, func: Address, thread: Address, n: int) {
    0 <= n < |live| && live[n].func == func && live[n].entry.thread == thread
  }

  /** `code` is what a call of `func` in `thread` reaches: of the newest attachment for the thread if there is one,
      else of the oldest for all threads if there is one, else the real code. */
  ghost predicate Reaches(live: seq<Attachment>, func: Address, thread: Address, real_: Address, code: Address) {
    if exists n :: For(live, func, thread, n) then
      exists n :: For(live, func, thread, n) && live[n].entry.code == code
        && forall m :: m < n ==> !For(live, func, thread, m)
    else if exists n :: For(live, func, NULL, n) then
      exists n :: For(live, func, NULL, n) && live[n].entry.code == code
        && forall m :: n < m ==> !For(live, func, NULL, m)
    else code == real_
  }

  /** What is reached, said of the attachments themselves. */
  lemma {:induction false} DispatchReaches(live: seq<Attachment>, func: Address, thread: Address, real_: Address)
    requires thread != NULL
    ensures Reaches(live, func, thread, real_, Dispatch(EntriesOn(live, func), thread, real_))
  {
    if live != [] {
      var es := EntriesOn(live, func);
      if live[0].func == func {
        DispatchCons(es, thread, real_);
        assert es[1..] == EntriesOn(live[1..], func);
      }
      if For(live, func, thread, 0) {
      } else {
        var next := if For(live, func, NULL, 0) then live[0].entry.code else real_;
        DispatchReaches(live[1..], func, thread, next);
        ReachesNext(live, func, thread, real_, Dispatch(es, thread, real_));
      }
    }
  }

  lemma ReachesNext(live: seq<Attachment>, func: Address, thread: Address, real_: Address, code: Address)
    requires live != [] && thread != NULL && !For(live, func, thread, 0)
    requires Reaches(live[1..], func, thread, if For(live, func, NULL, 0) then live[0].entry.code else real_, code)
    ensures Reaches(live, func, thread, real_, code)
  {
    var rest := live[1..];
    ForShifted(live, func, thread);
    ForShifted(live, func, NULL);
    if n :| For(rest, func, thread, n) && rest[n].entry.code == code && forall m :: m < n ==>
        !For(rest, func, thread, m) {
      assert For(live, func, thread, n + 1);
      forall m | m < n + 1 ensures !For(live, func, thread, m) {
        assert !For(rest, func, thread, m - 1);
      }
    } else if n :| For(rest, func, NULL, n) && rest[n].entry.code == code && forall m :: n < m ==>
        !For(rest, func, NULL, m) {
      assert For(live, func, NULL, n + 1);
      forall m | n + 1 < m ensures !For(live, func, NULL, m) {
        assert !For(rest, func, NULL, m - 1);
      }
    }
  }

  lemma ForShifted(live: seq<Attachment>, func: Address, thread: Address)
    requires live != []
    ensures forall n :: 0 < n ==> (For(live, func, thread, n) <==> For(live[1..], func, thread, n - 1))
    ensures forall n :: For(live[1..], func, thread, n) ==> For(live, func, thread, n + 1)
  {
  }

  /** The entries that can decide a dispatch for `thread`. */
  ghost function Relevant(es: seq<Intercept>, thread: Address): seq<Intercept> {
    if es == [] then []
    else if es[0].thread == thread || es[0].thread == NULL then [es[0]] + Relevant(es[1..], thread)
    else Relevant(es[1..], thread)
  }

  lemma {:induction false} OnlyRelevantMatter(es: seq<Intercept>, thread: Address, real_: Address)
    requires thread != NULL
    ensures Dispatch(es, thread, real_) == Dispatch(Relevant(es, thread), thread, real_)
    decreases |es|
  {
    if es != [] {
      DispatchCons(es, thread, real_);
      var next := if es[0].thread == NULL then es[0].code else real_;
      OnlyRelevantMatter(es[1..], thread, next);
      if es[0].thread == thread || es[0].thread == NULL {
        var r := Relevant(es, thread);
        assert r[1..] == Relevant(es[1..], thread);
        DispatchCons(r, thread, real_);
      }
    }
  }

  /** Attaching for another specific thread never changes the answer. */
  lemma AttachForAnotherThread(live: seq<Attachment>, a: Attachment, func: Address, thread: Address, real_: Address)
    requires thread != NULL && a.entry.thread != NULL && a.entry.thread != thread
    ensures Dispatch(EntriesOn([a] + live, func), thread, real_) == Dispatch(EntriesOn(live, func), thread, real_)
  {
    assert ([a] + live)[1..] == live;
    var es := EntriesOn([a] + live, func);
    if a.func == func {
      assert es[1..] == EntriesOn(live, func);
      DispatchCons(es, thread, real_);
    }
  }

  lemma {:induction false} SurvivorsRelevant(live: seq<Attachment>, id: Address, other: Address, func: Address,
      thread: Address)
    requires other != NULL && other != thread
    ensures Relevant(EntriesOn(Survivors(live, ByOwner(id, other)), func), thread)
            == Relevant(EntriesOn(live, func), thread)
  {
    if live != [] {
      var sel := ByOwner(id, other);
      SurvivorsRelevant(live[1..], id, other, func, thread);
      if !Selected(sel, live[0].func, live[0].entry) {
        var s := Survivors(live, sel);
        assert s[1..] == Survivors(live[1..], sel);
      }
      if live[0].func == func {
        var es := EntriesOn(live, func);
        assert es[1..] == EntriesOn(live[1..], func);
        var kept := EntriesOn(Survivors(live, sel), func);
        assert !Selected(sel, live[0].func, live[0].entry) ==> kept[1..] == EntriesOn(Survivors(live[1..], sel), func);
      }
    }
  }

  /** Detaching for another specific thread never changes the answer. */
  lemma DetachForAnotherThread(live: seq<Attachment>, id: Address, other: Address, func: Address, thread: Address,
      real_: Address)
    requires thread != NULL && other != NULL && other != thread
    ensures Dispatch(EntriesOn(Survivors(live, ByOwner(id, other)), func), thread, real_)
         == Dispatch(EntriesOn(live, func), thread, real_)
  {
    OnlyRelevantMatter(EntriesOn(live, func), thread, real_);
    OnlyRelevantMatter(EntriesOn(Survivors(live, ByOwner(id, other)), func), thread, real_);
    SurvivorsRelevant(live, id, other, func, thread);
  }

  /** Detaching an attachment by an identity of its own restores the answer from before it. */
  lemma {:induction false} SurvivorsUnselected(live: seq<Attachment>, sel: Selector)
    requires forall a :: a in live ==> !Selected(sel, a.func, a.entry)
    ensures Survivors(live, sel) == live
  {
    if live != [] {
      SurvivorsUnselected(live[1..], sel);
    }
  }

  lemma AttachThenDetach(live: seq<Attachment>, a: Attachment, sel: Selector)
    requires Selected(sel, a.func, a.entry)
    requires forall b :: b in live ==> !Selected(sel, b.func, b.entry)
    ensures Survivors([a] + live, sel) == live
  {
    assert ([a] + live)[1..] == live;
    SurvivorsUnselected(live, sel);
  }
}
