/** The name list and reference counts of named objects as values, and following links through them. */
module Names {
  import opened Common

  type Id = nat

  datatype Kind = Link | Device | Other

  /** `destination` and `enabled` matter for links only. */
  datatype Object = Object(kind: Kind, refcount: int, destination: string, enabled: bool)

  datatype Name = Name(path: string, obj: Id)

  /** Two paths are the same when they fold to the same string. */
  type Folding = string -> string

  datatype Space = Space(names: seq<Name>, objects: map<Id, Object>)

  /** A counted string copied into a buffer that is read up to its terminator. */
  function ToNul(s: string): (r: string)
    ensures |r| <= |s| && r == s[..|r|] && '\0' !in r && (|r| < |s| ==> s[|r|] == '\0')
  {
    if s == [] || s[0] == '\0' then [] else [s[0]] + ToNul(s[1..])
  }

  // ---- References

  function NamesOf(names: seq<Name>, id: Id): nat {
    if names == [] then 0 else (if names[0].obj == id then 1 else 0) + NamesOf(names[1..], id)
  }

  /** Every name and every object alive is referenced: an object is freed when its count reaches zero. */
  ghost predicate RefsOk(sp: Space) {
    && (forall i :: 0 <= i < |sp.names| ==> sp.names[i].obj in sp.objects)
    && (forall id :: id in sp.objects ==>
          sp.objects[id].refcount >= 1 && sp.objects[id].refcount >= NamesOf(sp.names, id))
  }

  /** Someone besides the name list refers to `id`. */
  predicate Held(sp: Space, id: Id) {
    id in sp.objects && sp.objects[id].refcount > NamesOf(sp.names, id)
  }

  function Counted(sp: Space, id: Id, more: int): Space
    requires id in sp.objects
  {
    sp.(objects := sp.objects[id := sp.objects[id].(refcount := sp.objects[id].refcount + more)])
  }

  /** The names of other objects than `id`, in order. */
  function WithoutNames(names: seq<Name>, id: Id): seq<Name> {
    if names == [] then []
    else if names[0].obj == id then WithoutNames(names[1..], id)
    else [names[0]] + WithoutNames(names[1..], id)
  }

  /** One object has lost some references. */
  function Less(objects: map<Id, Object>, id: Id, n: int): map<Id, Object>
    requires id in objects
  {
    objects[id := objects[id].(refcount := objects[id].refcount - n)]
  }

  lemma LessTwice(objects: map<Id, Object>, id: Id, m: int, n: int)
    requires id in objects
    ensures Less(Less(objects, id, m), id, n) == Less(objects, id, m + n)
  {
    var o := objects[id];
    var once := o.(refcount := o.refcount - m);
    assert once.(refcount := once.refcount - n) == o.(refcount := o.refcount - (m + n));
  }

  lemma CountedIsLess(sp: Space, id: Id)
    requires id in sp.objects
    ensures Counted(sp, id, 1).objects == Less(sp.objects, id, -1)
  {
  }

  /** Only the one count is lower, by so much. */
  lemma LessMeans(objects: map<Id, Object>, id: Id, n: int)
    requires id in objects
    ensures var less := Less(objects, id, n);
            && (forall k :: k in less <==> k in objects)
            && (forall k :: k in objects && k != id ==> less[k] == objects[k])
            && less[id].(refcount := 0) == objects[id].(refcount := 0)
            && less[id].refcount == objects[id].refcount - n
  {
  }

  /** Unlinking or passing the name at `i`. */
  lemma NextName(names: seq<Name>, i: nat, id: Id)
    requires i < |names|
    ensures var rest := names[i + 1..];
            if names[i].obj == id then
              var left := names[..i] + rest;
              && left[..i] == names[..i] && left[i..] == rest
              && WithoutNames(names[i..], id) == WithoutNames(rest, id)
              && NamesOf(names[i..], id) == NamesOf(rest, id) + 1
            else
              && names[..i] + WithoutNames(names[i..], id) == names[..i + 1] + WithoutNames(rest, id)
              && NamesOf(names[i..], id) == NamesOf(rest, id)
  {
    assert names[i..][1..] == names[i + 1..];
    assert names[..i + 1] == names[..i] + [names[i]];
    assert names[..i] + ([names[i]] + WithoutNames(names[i + 1..], id))
        == names[..i] + [names[i]] + WithoutNames(names[i + 1..], id);
  }

  /** The names before `i` are through: those of `id` are gone, with one reference each. */
  ghost predicate Unlinking(all: seq<Name>, before: map<Id, Object>, names: seq<Name>, objects: map<Id, Object>,
      i: nat, id: Id)
    requires i <= |names| && id in before
  {
    && names[..i] + WithoutNames(names[i..], id) == WithoutNames(all, id)
    && objects == Less(before, id, NamesOf(all, id) - NamesOf(names[i..], id))
  }

  lemma UnlinkNext(all: seq<Name>, before: map<Id, Object>, names: seq<Name>, objects: map<Id, Object>, i: nat, id: Id)
    requires i < |names| && id in before && Unlinking(all, before, names, objects, i, id)
    ensures id in objects
    ensures if names[i].obj == id then Unlinking(all, before, names[..i] + names[i + 1..], Less(objects, id, 1), i, id)
            else Unlinking(all, before, names, objects, i + 1, id)
  {
    NextName(names, i, id);
    LessTwice(before, id, NamesOf(all, id) - NamesOf(names[i..], id), 1);
  }

  lemma UnlinkEnds(all: seq<Name>, before: map<Id, Object>, names: seq<Name>, objects: map<Id, Object>, id: Id)
    requires id in before && Unlinking(all, before, names, objects, |names|, id)
    ensures names == WithoutNames(all, id) && objects == Less(before, id, NamesOf(all, id))
  {
    assert names[|names|..] == [];
    assert names[..|names|] + [] == names;
  }

  lemma {:induction false} WithoutNamesCounts(names: seq<Name>, id: Id)
    ensures NamesOf(WithoutNames(names, id), id) == 0
    ensures forall k :: k != id ==> NamesOf(WithoutNames(names, id), k) == NamesOf(names, k)
    ensures forall n :: n in WithoutNames(names, id) <==> n in names && n.obj != id
    ensures NamesOf(names, id) == 0 ==> WithoutNames(names, id) == names
  {
    if names != [] {
      WithoutNamesCounts(names[1..], id);
      var rest := WithoutNames(names[1..], id);
      assert names == [names[0]] + names[1..];
      if names[0].obj != id {
        assert ([names[0]] + rest)[1..] == rest;
      }
    }
  }

  /** Exactly the names of other objects are left, in their order. */
  lemma {:induction false} OtherNamesLeft(names: seq<Name>, id: Id)
    ensures Picked(WithoutNames(names, id), names, (n: Name) => n.obj != id)
    ensures |WithoutNames(names, id)| == |names| - NamesOf(names, id)
  {
    if names == [] {
      PickedNone((n: Name) => n.obj != id);
    } else {
      OtherNamesLeft(names[1..], id);
      PickedNext(WithoutNames(names[1..], id), names, (n: Name) => n.obj != id);
    }
  }

  /** Giving up a reference: the object goes, with its names, when that was the last. */
  function Released(sp: Space, id: Id): Space
    requires id in sp.objects
  {
    if sp.objects[id].refcount == 1 then Space(WithoutNames(sp.names, id), sp.objects - {id})
    else Counted(sp, id, -1)
  }

  lemma ReleasedKeeps(sp: Space, id: Id)
    requires RefsOk(sp) && Held(sp, id)
    ensures RefsOk(Released(sp, id)) && Released(sp, id).names == sp.names
  {
    WithoutNamesCounts(sp.names, id);
    forall i | 0 <= i < |sp.names| ensures sp.names[i].obj in Released(sp, id).objects {
      Named(sp.names, i);
    }
  }

  lemma {:induction false} Named(names: seq<Name>, i: nat)
    requires i < |names|
    ensures NamesOf(names, names[i].obj) >= 1
  {
    if i > 0 {
      Named(names[1..], i - 1);
    }
  }

  /** One reference goes from `from` to `to`. */
  function Moved(sp: Space, from: Id, to: Option<Id>): Space
    requires from in sp.objects && (to.Some? ==> to.value in sp.objects)
  {
    Released(if to.Some? then Counted(sp, to.value, 1) else sp, from)
  }

  // ---- Looking names up

  /** The object of the first name equal to `path` whose object is alive. */
  function Find(sp: Space, fold: Folding, path: string): Option<Id> {
    FindIn(sp.names, sp.objects, fold, path)
  }

  function FindIn(names: seq<Name>, objects: map<Id, Object>, fold: Folding, path: string): Option<Id> {
    if names == [] then None
    else
      var id := names[0].obj;
      if fold(path) == fold(names[0].path) && id in objects && objects[id].refcount != 0 then Some(id)
      else FindIn(names[1..], objects, fold, path)
  }

  /** The `n`-th name is the same as `path` and its object is alive. */
  ghost predicate Matches(names: seq<Name>, objects: map<Id, Object>, fold: Folding, path: string, n: int) {
    && 0 <= n < |names| && fold(names[n].path) == fold(path)
    && names[n].obj in objects && objects[names[n].obj].refcount != 0
  }

  /** `r` is the object of the first name that matches, or nothing if none does. */
  ghost predicate IsFirst(names: seq<Name>, objects: map<Id, Object>, fold: Folding, path: string, r: Option<Id>) {
    match r
    case None => forall n :: !Matches(names, objects, fold, path, n)
    case Some(id) => exists n :: Matches(names, objects, fold, path, n) && names[n].obj == id
                       && forall m :: m < n ==> !Matches(names, objects, fold, path, m)
  }

  lemma {:induction false} FindIsFirst(names: seq<Name>, objects: map<Id, Object>, fold: Folding, path: string)
    ensures IsFirst(names, objects, fold, path, FindIn(names, objects, fold, path))
  {
    if names != [] {
      FindIsFirst(names[1..], objects, fold, path);
      assert forall n :: n > 0 ==>
        (Matches(names, objects, fold, path, n) <==> Matches(names[1..], objects, fold, path, n - 1));
      var r := FindIn(names, objects, fold, path);
      if Matches(names, objects, fold, path, 0) {
      } else if r.Some? {
        var n :| Matches(names[1..], objects, fold, path, n) && names[1..][n].obj == r.value
                 && forall m :: m < n ==> !Matches(names[1..], objects, fold, path, m);
        assert Matches(names, objects, fold, path, n + 1);
      }
    }
  }

  lemma {:induction false} FindInNamed(names: seq<Name>, objects: map<Id, Object>, fold: Folding, path: string)
    ensures var r := FindIn(names, objects, fold, path);
            r.Some? ==> r.value in objects && NamesOf(names, r.value) >= 1
  {
    if names != [] {
      FindInNamed(names[1..], objects, fold, path);
    }
  }

  lemma {:induction false} FindInSame(names: seq<Name>, objects: map<Id, Object>, objects': map<Id, Object>,
      fold: Folding, path: string)
    requires forall i :: 0 <= i < |names| ==>
      && names[i].obj in objects && names[i].obj in objects'
      && (objects[names[i].obj].refcount == 0 <==> objects'[names[i].obj].refcount == 0)
    ensures FindIn(names, objects, fold, path) == FindIn(names, objects', fold, path)
  {
    if names != [] {
      assert forall i :: 0 <= i < |names[1..]| ==> names[1..][i] == names[i + 1];
      FindInSame(names[1..], objects, objects', fold, path);
    }
  }

  // ---- Following links

  /** A link that is followed. */
  predicate Followed(sp: Space, o: Option<Id>) {
    o.Some? && o.value in sp.objects && sp.objects[o.value].kind.Link? && sp.objects[o.value].enabled
  }

  predicate IsLink(sp: Space, o: Option<Id>) {
    o.Some? && o.value in sp.objects && sp.objects[o.value].kind.Link?
  }

  function Next(sp: Space, fold: Folding, o: Option<Id>): Option<Id> {
    if Followed(sp, o) then Find(sp, fold, ToNul(sp.objects[o.value].destination)) else o
  }

  /** Where `n` enabled links lead; it stays at the end of the chain. */
  function Follow(sp: Space, fold: Folding, o: Option<Id>, n: nat): Option<Id> {
    if n == 0 then o else Next(sp, fold, Follow(sp, fold, o, n - 1))
  }

  /** The chain comes back to a link it has been at. */
  ghost predicate Revisits(sp: Space, fold: Folding, o: Option<Id>) {
    exists i: nat, j: nat :: i < j && Follow(sp, fold, o, i) == Follow(sp, fold, o, j)
        && Followed(sp, Follow(sp, fold, o, i))
  }

  const LIMIT := 1000

  /** More links in a row than the resolver goes through. */
  predicate TooLong(sp: Space, fold: Folding, o: Option<Id>) {
    IsLink(sp, Follow(sp, fold, o, LIMIT + 1)) && Followed(sp, Follow(sp, fold, o, LIMIT))
  }

  lemma {:induction false} EndStays(sp: Space, fold: Folding, o: Option<Id>, i: nat, j: nat)
    requires i <= j && !Followed(sp, Follow(sp, fold, o, i))
    ensures Follow(sp, fold, o, j) == Follow(sp, fold, o, i)
    decreases j
  {
    if i < j {
      EndStays(sp, fold, o, i, j - 1);
    }
  }

  // ---- The way through the links

  /** The enabled link `link` leads to what its destination, up to the terminator, names. */
  ghost predicate Leads(sp: Space, fold: Folding, link: Option<Id>, next: Option<Id>) {
    && link.Some? && link.value in sp.objects
    && sp.objects[link.value].kind.Link? && sp.objects[link.value].enabled
    && IsFirst(sp.names, sp.objects, fold, ToNul(sp.objects[link.value].destination), next)
  }

  ghost predicate Way(sp: Space, fold: Folding, way: seq<Option<Id>>) {
    way != [] && forall k :: 0 <= k < |way| - 1 ==> Leads(sp, fold, way[k], way[k + 1])
  }

  /** What resolving answers, said of the way it goes: it fails when 1001 enabled links in a row lead to one more link,
      and otherwise is at the end of the way, which may be a disabled link unless 1001 links were followed. */
  ghost predicate Resolves(sp: Space, fold: Folding, way: seq<Option<Id>>, r: Option<Id>, failed: bool) {
    && Way(sp, fold, way) && |way| <= 1002
    && var last := way[|way| - 1];
       var link := last.Some? && last.value in sp.objects && sp.objects[last.value].kind.Link?;
       if failed then link && |way| == 1002
       else last == r && !(link && (sp.objects[last.value].enabled || |way| == 1002))
  }

  lemma {:induction false} WayTo(sp: Space, fold: Folding, o: Option<Id>, n: nat) returns (way: seq<Option<Id>>)
    requires n > 0 ==> Followed(sp, Follow(sp, fold, o, n - 1))
    ensures Way(sp, fold, way) && |way| == n + 1 && way[0] == o && way[n] == Follow(sp, fold, o, n)
  {
    if n == 0 {
      way := [o];
    } else {
      var before := WayTo(sp, fold, o, n - 1);
      var link := Follow(sp, fold, o, n - 1);
      FindIsFirst(sp.names, sp.objects, fold, ToNul(sp.objects[link.value].destination));
      way := before + [Follow(sp, fold, o, n)];
    }
  }

  /** Where a chain first comes to its end. */
  lemma {:induction false} FirstEnd(sp: Space, fold: Folding, o: Option<Id>, n: nat) returns (m: nat)
    requires !Followed(sp, Follow(sp, fold, o, n))
    ensures m <= n && Follow(sp, fold, o, m) == Follow(sp, fold, o, n)
    ensures m > 0 ==> Followed(sp, Follow(sp, fold, o, m - 1))
  {
    m := n;
    if n > 0 && !Followed(sp, Follow(sp, fold, o, n - 1)) {
      m := FirstEnd(sp, fold, o, n - 1);
    }
  }

  lemma FollowResolves(sp: Space, fold: Folding, o: Option<Id>, r: Option<Id>, failed: bool)
      returns (way: seq<Option<Id>>)
    requires failed == TooLong(sp, fold, o)
    requires !failed ==> r == Follow(sp, fold, o, LIMIT + 1) && !Followed(sp, r)
    ensures Resolves(sp, fold, way, r, failed) && way[0] == o
  {
    if failed {
      way := WayTo(sp, fold, o, LIMIT + 1);
    } else {
      var m := FirstEnd(sp, fold, o, LIMIT + 1);
      way := WayTo(sp, fold, o, m);
    }
  }

  lemma ChainEnds(sp: Space, fold: Folding, o: Option<Id>, n: nat)
    requires n <= LIMIT + 1 && !Followed(sp, Follow(sp, fold, o, n))
    requires n <= LIMIT || !IsLink(sp, Follow(sp, fold, o, n))
    ensures Follow(sp, fold, o, LIMIT + 1) == Follow(sp, fold, o, n) && !TooLong(sp, fold, o)
  {
    EndStays(sp, fold, o, n, LIMIT + 1);
    if n <= LIMIT {
      EndStays(sp, fold, o, n, LIMIT);
    }
  }

  /** Once the chain has come back to a link it goes round for ever. */
  lemma {:induction false} Round(sp: Space, fold: Folding, o: Option<Id>, i: nat, j: nat, n: nat)
    requires i < j && Follow(sp, fold, o, i) == Follow(sp, fold, o, j)
    ensures Follow(sp, fold, o, i + n) == Follow(sp, fold, o, j + n)
  {
    if n > 0 {
      Round(sp, fold, o, i, j, n - 1);
    }
  }

  lemma {:induction false} NeverEnds(sp: Space, fold: Folding, o: Option<Id>, i: nat, j: nat, n: nat)
    requires i < j && Follow(sp, fold, o, i) == Follow(sp, fold, o, j) && Followed(sp, Follow(sp, fold, o, i))
    ensures Followed(sp, Follow(sp, fold, o, n))
    decreases n
  {
    if n > i {
      var k := n - i;
      if k >= j - i {
        Round(sp, fold, o, i, j, k - (j - i));
        assert Follow(sp, fold, o, n) == Follow(sp, fold, o, n - (j - i));
        NeverEnds(sp, fold, o, i, j, n - (j - i));
      } else if !Followed(sp, Follow(sp, fold, o, n)) {
        EndStays(sp, fold, o, n, j);
      }
    } else if !Followed(sp, Follow(sp, fold, o, n)) {
      EndStays(sp, fold, o, n, i);
    }
  }

  ghost function Links(sp: Space): set<Option<Id>> {
    set id | id in sp.objects && sp.objects[id].kind.Link? :: Some(id)
  }

  /** Where the first `n` steps of a chain come by. */
  ghost function Seen(sp: Space, fold: Folding, o: Option<Id>, n: nat): set<Option<Id>> {
    if n == 0 then {} else Seen(sp, fold, o, n - 1) + {Follow(sp, fold, o, n - 1)}
  }

  lemma {:induction false} SeenIsFollowed(sp: Space, fold: Folding, o: Option<Id>, n: nat, x: Option<Id>)
      returns (k: nat)
    requires x in Seen(sp, fold, o, n)
    ensures k < n && Follow(sp, fold, o, k) == x
  {
    if x == Follow(sp, fold, o, n - 1) {
      k := n - 1;
    } else {
      k := SeenIsFollowed(sp, fold, o, n - 1, x);
    }
  }

  lemma {:induction false} SeenAreLinks(sp: Space, fold: Folding, o: Option<Id>, n: nat)
    requires forall k :: 0 <= k < n ==> IsLink(sp, Follow(sp, fold, o, k))
    ensures Seen(sp, fold, o, n) <= Links(sp)
  {
    if n > 0 {
      SeenAreLinks(sp, fold, o, n - 1);
      assert IsLink(sp, Follow(sp, fold, o, n - 1));
    }
  }

  /** A chain that is too long and does not come back sees something new with each step. */
  lemma {:induction false} AllDifferent(sp: Space, fold: Folding, o: Option<Id>, n: nat)
    requires TooLong(sp, fold, o) && !Revisits(sp, fold, o) && n <= LIMIT + 2
    ensures |Seen(sp, fold, o, n)| == n
  {
    if n > 0 {
      var m: nat := n - 1;
      AllDifferent(sp, fold, o, m);
      var last := Follow(sp, fold, o, m);
      if last in Seen(sp, fold, o, m) {
        var j := SeenIsFollowed(sp, fold, o, m, last);
        if !Followed(sp, Follow(sp, fold, o, j)) {
          EndStays(sp, fold, o, j, LIMIT);
        }
      }
      OneMore(Seen(sp, fold, o, m), last);
    }
  }

  lemma OneMore<T>(s: set<T>, x: T)
    requires x !in s
    ensures |s + {x}| == |s| + 1
  {
  }

  lemma Subset<T>(a: set<T>, b: set<T>)
    requires a <= b
    ensures |a| <= |b|
  {
    assert b == a + (b - a);
  }

  /** With at most 1001 links, the resolver gives up exactly when following enabled links comes back to a link. */
  lemma FailsExactlyOnCycles(sp: Space, fold: Folding, o: Option<Id>)
    requires |Links(sp)| <= LIMIT + 1
    ensures TooLong(sp, fold, o) <==> Revisits(sp, fold, o)
  {
    if TooLong(sp, fold, o) && !Revisits(sp, fold, o) {
      forall k | 0 <= k < LIMIT + 2 ensures IsLink(sp, Follow(sp, fold, o, k)) {
        if k <= LIMIT && !Followed(sp, Follow(sp, fold, o, k)) {
          EndStays(sp, fold, o, k, LIMIT);
        }
      }
      AllDifferent(sp, fold, o, LIMIT + 2);
      SeenAreLinks(sp, fold, o, LIMIT + 2);
      Subset(Seen(sp, fold, o, LIMIT + 2), Links(sp));
    }
    if Revisits(sp, fold, o) {
      var i: nat, j: nat :| i < j && Follow(sp, fold, o, i) == Follow(sp, fold, o, j)
          && Followed(sp, Follow(sp, fold, o, i));
      NeverEnds(sp, fold, o, i, j, LIMIT);
      NeverEnds(sp, fold, o, i, j, LIMIT + 1);
    }
  }

  /** A chain of 1002 links is given up although it ends: the bound is exact. */
  lemma {:induction false} LongChain(fold: Folding, paths: seq<string>, n: nat)
    requires |paths| == LIMIT + 3 && forall i, j :: 0 <= i < j < |paths| ==> fold(paths[i]) != fold(paths[j])
    requires forall i :: 0 <= i < |paths| ==> ToNul(paths[i]) == paths[i]
    requires n < |paths|
    ensures Follow(ChainSpace(paths), fold, Some(0), n) == Some(n)
  {
    if n > 0 {
      LongChain(fold, paths, n - 1);
      FoundAt(ChainSpace(paths).names, ChainSpace(paths).objects, fold, n);
    }
  }

  /** Object `i` is named `paths[i]`; each but the last is a link to the next one. */
  ghost function ChainSpace(paths: seq<string>): Space {
    Space(seq(|paths|, i requires 0 <= i < |paths| => Name(paths[i], i)),
          map i: nat {:trigger paths[i]} | i < |paths| ::
            if i + 1 < |paths| then Object(Link, 1, paths[i + 1], true) else Object(Device, 1, "", false))
  }

  lemma {:induction false} FoundAt(names: seq<Name>, objects: map<Id, Object>, fold: Folding, n: nat)
    requires n < |names| && names[n].obj in objects && objects[names[n].obj].refcount != 0
    requires forall i :: 0 <= i < n ==> fold(names[i].path) != fold(names[n].path)
    ensures FindIn(names, objects, fold, names[n].path) == Some(names[n].obj)
  {
    if n > 0 {
      FoundAt(names[1..], objects, fold, n - 1);
    }
  }

  lemma LongChainsFailWithoutCycle(fold: Folding, paths: seq<string>)
    requires |paths| == LIMIT + 3 && forall i, j :: 0 <= i < j < |paths| ==> fold(paths[i]) != fold(paths[j])
    requires forall i :: 0 <= i < |paths| ==> ToNul(paths[i]) == paths[i]
    ensures TooLong(ChainSpace(paths), fold, Some(0)) && !Revisits(ChainSpace(paths), fold, Some(0))
  {
    var sp := ChainSpace(paths);
    LongChain(fold, paths, LIMIT);
    LongChain(fold, paths, LIMIT + 1);
    LongChain(fold, paths, LIMIT + 2);
    if Revisits(sp, fold, Some(0)) {
      var i: nat, j: nat :| i < j && Follow(sp, fold, Some(0), i) == Follow(sp, fold, Some(0), j)
        && Followed(sp, Follow(sp, fold, Some(0), i));
      NeverEnds(sp, fold, Some(0), i, j, LIMIT + 2);
    }
  }

  // ---- What moving the caller's reference along the chain does

  /** Names and what they lead to are as before once a held reference has moved. */
  lemma MovedKeepsNames(sp: Space, fold: Folding, from: Id, to: Option<Id>, path: string)
    requires RefsOk(sp) && Held(sp, from) && (to.Some? ==> to.value in sp.objects)
    ensures Moved(sp, from, to).names == sp.names && RefsOk(Moved(sp, from, to))
    ensures Find(Moved(sp, from, to), fold, path) == Find(sp, fold, path)
    ensures to.Some? ==> Held(Moved(sp, from, to), to.value)
  {
    var counted := if to.Some? then Counted(sp, to.value, 1) else sp;
    assert RefsOk(counted);
    ReleasedKeeps(counted, from);
    var sp' := Moved(sp, from, to);
    forall i | 0 <= i < |sp.names|
      ensures sp.names[i].obj in sp.objects && sp.names[i].obj in sp'.objects
      ensures sp.objects[sp.names[i].obj].refcount >= 1 && sp'.objects[sp.names[i].obj].refcount >= 1
    {
      assert sp'.names[i].obj in sp'.objects;
    }
    FindInSame(sp.names, sp.objects, sp'.objects, fold, path);
  }

  /** What one reference moved means: one less for `from`, one more for `to`, nothing else changes, and an object
      with no reference left is gone. */
  ghost predicate ReferenceMoved(sp: Space, sp': Space, from: Id, to: Option<Id>) {
    sp'.names == sp.names && forall id :: MovedAt(sp, sp', from, to, id)
  }

  ghost predicate MovedAt(sp: Space, sp': Space, from: Id, to: Option<Id>, id: Id) {
    if id !in sp.objects then id !in sp'.objects
    else
      var count := sp.objects[id].refcount - (if id == from then 1 else 0) + if to == Some(id) then 1 else 0;
      if count == 0 then id !in sp'.objects
      else id in sp'.objects && sp'.objects[id] == sp.objects[id].(refcount := count)
  }

  lemma MovedMeans(sp: Space, from: Id, to: Option<Id>)
    requires RefsOk(sp) && Held(sp, from) && (to.Some? ==> to.value in sp.objects)
    ensures ReferenceMoved(sp, Moved(sp, from, to), from, to)
  {
    WithoutNamesCounts(sp.names, from);
  }

  lemma MovedAgain(sp: Space, sp': Space, sp'': Space, from: Id, mid: Id, to: Option<Id>)
    requires RefsOk(sp) && mid in sp.objects && (to.Some? ==> to.value in sp'.objects)
    requires ReferenceMoved(sp, sp', from, Some(mid)) && ReferenceMoved(sp', sp'', mid, to)
    requires sp.objects[mid].refcount >= 1
    ensures ReferenceMoved(sp, sp'', from, to)
  {
    forall id ensures MovedAt(sp, sp'', from, to, id) {
      assert MovedAt(sp, sp', from, Some(mid), id) && MovedAt(sp', sp'', mid, to, id);
    }
  }

  // ---- What the operations leave behind

  /** `id` has got a name, which refers to it. */
  function Inserted(sp: Space, name: string, id: Id): Space
    requires id in sp.objects
  {
    Counted(sp, id, 1).(names := [Name(ToNul(name), id)] + sp.names)
  }

  lemma InsertedKeeps(sp: Space, name: string, id: Id)
    requires RefsOk(sp) && Held(sp, id)
    ensures RefsOk(Inserted(sp, name, id)) && Held(Inserted(sp, name, id), id)
  {
    assert Inserted(sp, name, id).names[1..] == sp.names;
  }

  lemma {:induction false} NotNamed(names: seq<Name>, objects: map<Id, Object>, id: Id)
    requires id !in objects && forall i :: 0 <= i < |names| ==> names[i].obj in objects
    ensures NamesOf(names, id) == 0
  {
    if names != [] {
      assert forall i :: 0 <= i < |names[1..]| ==> names[1..][i] == names[i + 1];
      NotNamed(names[1..], objects, id);
    }
  }

  ghost function WithNew(sp: Space, id: Id, destination: string): Space {
    sp.(objects := sp.objects[id := Object(Link, 1, destination, true)])
  }

  lemma NewObject(sp: Space, fold: Folding, id: Id, destination: string, path: string)
    requires RefsOk(sp) && id !in sp.objects
    ensures RefsOk(WithNew(sp, id, destination)) && Held(WithNew(sp, id, destination), id)
    ensures Find(WithNew(sp, id, destination), fold, path) == Find(sp, fold, path) != Some(id)
  {
    NotNamed(sp.names, sp.objects, id);
    FindInSame(sp.names, sp.objects, WithNew(sp, id, destination).objects, fold, path);
    FindInNamed(sp.names, sp.objects, fold, path);
  }

  /** Giving up the only reference to a new object undoes its creation. */
  lemma NewObjectUndone(sp: Space, sp': Space, id: Id, destination: string)
    requires RefsOk(sp) && id !in sp.objects && ReferenceMoved(WithNew(sp, id, destination), sp', id, None)
    ensures sp' == sp
  {
    var sp1 := WithNew(sp, id, destination);
    forall k ensures (k in sp'.objects <==> k in sp.objects) && (k in sp.objects ==> sp'.objects[k] == sp.objects[k]) {
      assert MovedAt(sp1, sp', id, None, k);
    }
    assert sp'.objects == sp.objects;
  }

  /** A link with its name. */
  ghost function Linked(sp: Space, name: string, destination: string, id: Id): Space {
    Space([Name(ToNul(name), id)] + sp.names, sp.objects[id := Object(Link, 2, ToNul(destination), true)])
  }

  /** All names of `id` are gone with their references, and so is the object if there were no others. */
  function Unnamed(sp: Space, id: Id): Space
    requires id in sp.objects
  {
    var count := sp.objects[id].refcount - NamesOf(sp.names, id);
    Space(WithoutNames(sp.names, id),
          if count == 0 then sp.objects - {id} else sp.objects[id := sp.objects[id].(refcount := count)])
  }

  /** A look-up has taken one reference before the others are given up. */
  lemma UnnamedAfterLookup(sp: Space, sp1: Space, objects: map<Id, Object>, id: Id, n: nat)
    requires id in sp.objects && sp1 == Counted(sp, id, 1) && objects == Less(sp1.objects, id, n)
    ensures objects == Less(sp.objects, id, n - 1)
  {
    CountedIsLess(sp, id);
    LessTwice(sp.objects, id, -1, n);
  }

  lemma UnnamedKeeps(sp: Space, sp': Space, id: Id)
    requires RefsOk(sp) && id in sp.objects && sp'.names == WithoutNames(sp.names, id)
    requires sp'.objects == Less(sp.objects, id, NamesOf(sp.names, id) - 1)
    ensures RefsOk(sp') && Held(sp', id) && Released(sp', id) == Unnamed(sp, id)
  {
    UnnamedRefs(sp, sp', id);
    UnnamedReleased(sp, sp', id, NamesOf(sp.names, id));
  }

  lemma UnnamedReleased(sp: Space, sp': Space, id: Id, n: nat)
    requires id in sp.objects && sp'.names == WithoutNames(sp.names, id) && n == NamesOf(sp.names, id)
    requires Held(sp', id) && sp'.objects == Less(sp.objects, id, n - 1)
    ensures Released(sp', id) == Unnamed(sp, id)
  {
    ReleasedForm(sp', id);
    LastGivenUp(sp.objects, id, n);
  }

  /** Giving up one reference after all others but one. */
  lemma LastGivenUp(objects: map<Id, Object>, id: Id, n: int)
    requires id in objects
    ensures var left := Less(objects, id, n - 1);
            && left - {id} == objects - {id} && left[id].refcount == objects[id].refcount - n + 1
            && left[id := left[id].(refcount := left[id].refcount - 1)]
               == objects[id := objects[id].(refcount := objects[id].refcount - n)]
  {
    LessTwice(objects, id, n - 1, 1);
  }

  lemma UnnamedRefs(sp: Space, sp': Space, id: Id)
    requires RefsOk(sp) && id in sp.objects && sp'.names == WithoutNames(sp.names, id)
    requires sp'.objects == Less(sp.objects, id, NamesOf(sp.names, id) - 1)
    ensures RefsOk(sp') && Held(sp', id)
  {
    LessMeans(sp.objects, id, NamesOf(sp.names, id) - 1);
    forall i | 0 <= i < |sp'.names| ensures sp'.names[i].obj in sp'.objects {
      UnnamedName(sp, id, i);
    }
    forall k | k in sp'.objects ensures sp'.objects[k].refcount >= 1
        && sp'.objects[k].refcount >= NamesOf(sp'.names, k) {
      UnnamedCount(sp, id, k);
    }
    UnnamedCount(sp, id, id);
  }

  lemma UnnamedName(sp: Space, id: Id, i: nat)
    requires RefsOk(sp) && i < |WithoutNames(sp.names, id)|
    ensures WithoutNames(sp.names, id)[i].obj in sp.objects
  {
    WithoutNamesCounts(sp.names, id);
    assert WithoutNames(sp.names, id)[i] in sp.names;
  }

  lemma UnnamedCount(sp: Space, id: Id, k: Id)
    requires RefsOk(sp) && id in sp.objects && k in sp.objects
    ensures NamesOf(WithoutNames(sp.names, id), k) == if k == id then 0 else NamesOf(sp.names, k)
    ensures sp.objects[k].refcount >= 1 && sp.objects[k].refcount >= NamesOf(sp.names, k)
  {
    WithoutNamesCounts(sp.names, id);
  }

  /** Nothing is left to unlink when a held object is freed. */
  lemma ReleasedForm(sp: Space, id: Id)
    requires Held(sp, id)
    ensures Released(sp, id) ==
      if sp.objects[id].refcount == 1 then Space(sp.names, sp.objects - {id})
      else Space(sp.names, sp.objects[id := sp.objects[id].(refcount := sp.objects[id].refcount - 1)])
  {
    WithoutNamesCounts(sp.names, id);
  }

  /** Switching a link between taking and giving up a reference to it changes nothing else. */
  lemma SwitchedOnly(sp: Space, sp': Space, id: Id, enable: bool)
    requires RefsOk(sp) && id in sp.objects && sp'.names == sp.names
    requires sp'.objects
          == sp.objects[id := sp.objects[id].(refcount := sp.objects[id].refcount + 1, enabled := enable)]
    ensures RefsOk(sp') && Held(sp', id)
    ensures Released(sp', id) == Space(sp.names, sp.objects[id := sp.objects[id].(enabled := enable)])
  {
    ReleasedForm(sp', id);
  }

  /** Deleting a link that was just created leaves the name list as it was before, but never frees the link: the
      reference of its creation is still counted. */
  lemma DeletedLinkIsLeft(sp: Space, name: string, destination: string, id: Id)
    requires RefsOk(sp) && id !in sp.objects
    ensures Unnamed(Linked(sp, name, destination, id), id) == WithNew(sp, id, ToNul(destination))
  {
    var linked := Linked(sp, name, destination, id);
    assert linked.names[1..] == sp.names;
    NotNamed(sp.names, sp.objects, id);
    WithoutNamesCounts(sp.names, id);
    assert Unnamed(linked, id).objects == WithNew(sp, id, ToNul(destination)).objects;
  }

  // ---- Resolving

  /** The caller's reference to the start of a chain has moved to where the resolver is. */
  ghost predicate OnTheWay(sp: Space, sp': Space, start: Option<Id>, r: Option<Id>) {
    && RefsOk(sp) && RefsOk(sp')
    && match start
       case None => sp' == sp && r.None?
       case Some(id) => ReferenceMoved(sp, sp', id, r) && (r.Some? ==> Held(sp', r.value) && r.value in sp.objects)
  }

  lemma WayStarts(sp: Space, start: Option<Id>)
    requires RefsOk(sp) && (start.Some? ==> Held(sp, start.value))
    ensures OnTheWay(sp, sp, start, start)
  {
  }

  lemma SameOnTheWay(sp: Space, sp': Space, start: Option<Id>, r: Option<Id>, fold: Folding, path: string)
    requires OnTheWay(sp, sp', start, r)
    ensures Find(sp', fold, path) == Find(sp, fold, path)
    ensures r.Some? ==> r.value in sp'.objects
    ensures r.Some? ==> sp'.objects[r.value].(refcount := 0) == sp.objects[r.value].(refcount := 0)
  {
    if start.Some? {
      assert r.Some? ==> MovedAt(sp, sp', start.value, r, r.value);
      FindInSame(sp.names, sp.objects, sp'.objects, fold, path);
    }
  }

  lemma WayGoesOn(sp: Space, sp1: Space, start: Option<Id>, mid: Id, next: Option<Id>)
    requires OnTheWay(sp, sp1, start, Some(mid)) && start.Some? && (next.Some? ==> next.value in sp1.objects)
    ensures OnTheWay(sp, Moved(sp1, mid, next), start, next)
  {
    MovedMeans(sp1, mid, next);
    MovedKeepsNames(sp1, s => s, mid, next, "");
    MovedAgain(sp, sp1, Moved(sp1, mid, next), start.value, mid, next);
    if next.Some? {
      assert MovedAt(sp, sp1, start.value, Some(mid), next.value);
    }
  }
}
