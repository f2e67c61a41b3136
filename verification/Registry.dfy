/** Registry values: delivering all values of a key, and deleting them on the way. */
module Registry {
  import opened Common

  datatype NtStatus = Success | NotFound | Failed | InsufficientResources

  // ---- Enumerating a key

  const NAME_SIZE := 1024

  /** DWORD arithmetic wraps. */
  function Dword(x: int): nat {
    x % 0x1_0000_0000
  }

  /** Decrementing and incrementing again comes back, through the wrap at zero too. */
  lemma Steps(index: nat)
    requires FitsDword(index + 1)
    ensures Dword(Dword(index - 1) + 1) == index && Dword(index + 1) == index + 1
  {
    if index == 0 {
      assert Dword(-1) == 0xFFFF_FFFF;
    } else {
      assert Dword(index - 1) == index - 1;
    }
  }

  predicate FitsDword(n: nat) {
    n < 0x1_0000_0000
  }

  /** What becomes of the value visited at a given count: the query routine succeeds or not, and the deletion,
      if it is asked for, succeeds or not. */
  datatype Answer = Answer(success: bool, deleted: bool)

  /** `delivered` is what the query routine was given, `kept` what is left in the key. */
  datatype Outcome = Outcome(delivered: seq<string>, kept: seq<string>, status: NtStatus)

  /** Visiting `values` in order from the given count on. */
  function Visit(values: seq<string>, count: nat, delete: bool, answers: nat -> Answer): Outcome {
    if values == [] then Outcome([], [], Success)
    else if |values[0]| >= NAME_SIZE then Outcome([], values, Failed)
    else if !answers(count).success then Outcome([values[0]], values, Failed)
    else
      Joined([values[0]], if delete && answers(count).deleted then [] else [values[0]],
             Visit(values[1..], count + 1, delete, answers))
  }

  /** What came before an outcome, and the outcome. */
  function Joined(delivered: seq<string>, kept: seq<string>, o: Outcome): Outcome {
    Outcome(delivered + o.delivered, kept + o.kept, o.status)
  }

  lemma JoinedTwice(d: seq<string>, k: seq<string>, d': seq<string>, k': seq<string>, o: Outcome)
    ensures Joined(d, k, Joined(d', k', o)) == Joined(d + d', k + k', o)
  {
    assert d + (d' + o.delivered) == d + d' + o.delivered;
    assert k + (k' + o.kept) == k + k' + o.kept;
  }

  ghost predicate Distinct(values: seq<string>) {
    forall i, j :: 0 <= i < j < |values| ==> values[i] != values[j]
  }

  ghost predicate NamesFit(values: seq<string>) {
    forall i :: 0 <= i < |values| ==> |values[i]| < NAME_SIZE
  }

  ghost predicate Succeed(answers: nat -> Answer, from: nat, to: nat) {
    forall c :: from <= c < to ==> answers(c).success
  }

  ghost predicate Delete(answers: nat -> Answer, from: nat, to: nat) {
    forall c :: from <= c < to ==> answers(c).deleted
  }

  /** A visit ends exactly for lack of values, at the first failure, or before a name of 1024 characters or more. */
  lemma {:induction false} VisitEndsWhen(values: seq<string>, count: nat, delete: bool, answers: nat -> Answer)
    ensures var o := Visit(values, count, delete, answers);
            var n := |o.delivered|;
            var failed := n > 0 && !answers(count + n - 1).success;
            && n <= |values|
            && (forall k :: 0 <= k < n ==> |values[k]| < 1024)
            && (forall c :: count <= c < count + n - 1 ==> answers(c).success)
            && (n < |values| && !failed ==> |values[n]| >= 1024)
            && o.status == (if failed || n < |values| then Failed else Success)
  {
    if values != [] && |values[0]| < 1024 && answers(count).success {
      VisitEndsWhen(values[1..], count + 1, delete, answers);
      var rest := Visit(values[1..], count + 1, delete, answers);
      assert forall k :: 0 < k < |values| ==> values[k] == values[1..][k - 1];
      assert |Visit(values, count, delete, answers).delivered| == 1 + |rest.delivered|;
    }
  }

  /** Whatever fails, what was delivered are the first values of the key. */
  lemma {:induction false} FirstAreDelivered(values: seq<string>, count: nat, delete: bool, answers: nat -> Answer)
    ensures var d := Visit(values, count, delete, answers).delivered;
            |d| <= |values| && d == values[..|d|]
  {
    if values != [] && |values[0]| < NAME_SIZE && answers(count).success {
      FirstAreDelivered(values[1..], count + 1, delete, answers);
      var n := |Visit(values[1..], count + 1, delete, answers).delivered|;
      assert values[..n + 1] == [values[0]] + values[1..][..n];
    }
  }

  lemma {:induction false} WithoutDeletion(values: seq<string>, count: nat, answers: nat -> Answer)
    ensures Visit(values, count, false, answers).kept == values
  {
    if values != [] {
      WithoutDeletion(values[1..], count + 1, answers);
    }
  }

  lemma {:induction false} DeletionEmpties(values: seq<string>, count: nat, answers: nat -> Answer)
    requires Visit(values, count, true, answers).status == Success && Delete(answers, count, count + |values|)
    ensures Visit(values, count, true, answers).kept == []
  {
    if values != [] {
      assert answers(count).deleted;
      DeletionEmpties(values[1..], count + 1, answers);
    }
  }

  /** Every value is delivered once and in order exactly when every name fits and every query succeeds; deletion
      that always succeeds then leaves the key empty, and no deletion leaves it as it is. */
  lemma AllDeliveredExactlyWhen(values: seq<string>, count: nat, delete: bool, answers: nat -> Answer)
    ensures var o := Visit(values, count, delete, answers);
            && (o.status == Success <==> NamesFit(values) && Succeed(answers, count, count + |values|))
            && (o.status == Success ==> o.delivered == values)
            && (o.status == Success && delete && Delete(answers, count, count + |values|) ==> o.kept == [])
            && (!delete ==> o.kept == values)
  {
    VisitEndsWhen(values, count, delete, answers);
    FirstAreDelivered(values, count, delete, answers);
    WithoutDeletion(values, count, answers);
    var o := Visit(values, count, delete, answers);
    if o.status == Success && delete && Delete(answers, count, count + |values|) {
      DeletionEmpties(values, count, answers);
    }
    assert |o.delivered| < |values| && NamesFit(values) ==> |values[|o.delivered|]| < NAME_SIZE;
  }

  /** Exactly the values that were delivered with success and then deleted are not kept. */
  lemma {:induction false} KeptUnlessDeleted(values: seq<string>, count: nat, delete: bool, answers: nat -> Answer)
      returns (at: seq<nat>)
    ensures var o := Visit(values, count, delete, answers);
            PickedAt(o.kept, values, at) && KeptAt(at, |values|, |o.delivered|, count, delete, answers)
  {
    if values == [] || |values[0]| >= 1024 || !answers(count).success {
      at := AllKept(values, count, delete, answers);
    } else {
      var o, rest := Visit(values, count, delete, answers), Visit(values[1..], count + 1, delete, answers);
      assert o.kept == (if Deletes(delete, answers, count) then [] else [values[0]]) + rest.kept;
      assert |o.delivered| == |rest.delivered| + 1;
      var later := KeptUnlessDeleted(values[1..], count + 1, delete, answers);
      at := KeptNext(values, later, rest, count, delete, answers);
    }
  }

  /** Of `size` values of which `n` were delivered, those at the places `at` are kept. */
  ghost predicate KeptAt(at: seq<nat>, size: nat, n: nat, count: nat, delete: bool, answers: nat -> Answer) {
    forall k: nat :: k < size ==> (k in at <==> !(k < n && Deletes(delete, answers, count + k)))
  }

  lemma AllKept(values: seq<string>, count: nat, delete: bool, answers: nat -> Answer) returns (at: seq<nat>)
    requires values == [] || |values[0]| >= 1024 || !answers(count).success
    ensures var o := Visit(values, count, delete, answers);
            PickedAt(o.kept, values, at) && KeptAt(at, |values|, |o.delivered|, count, delete, answers)
  {
    at := seq(|values|, k => k);
    forall k: nat | k < |values| ensures k in at {
      assert at[k] == k;
    }
  }

  lemma KeptNext(values: seq<string>, later: seq<nat>, rest: Outcome, count: nat, delete: bool, answers: nat -> Answer)
      returns (at: seq<nat>)
    requires values != [] && PickedAt(rest.kept, values[1..], later)
    requires KeptAt(later, |values[1..]|, |rest.delivered|, count + 1, delete, answers)
    ensures PickedAt((if Deletes(delete, answers, count) then [] else [values[0]]) + rest.kept, values, at)
    ensures KeptAt(at, |values|, |rest.delivered| + 1, count, delete, answers)
  {
    at := PlacesNext(rest.kept, values, later, !Deletes(delete, answers, count));
    assert [] + rest.kept == rest.kept;
    forall k: nat | 0 < k < |values|
      ensures k in at <==> !(k < |rest.delivered| + 1 && Deletes(delete, answers, count + k))
    {
      assert count + 1 + (k - 1) == count + k;
      assert k - 1 in later <==> !(k - 1 < |rest.delivered| && Deletes(delete, answers, count + 1 + (k - 1)));
    }
  }

  predicate Deletes(delete: bool, answers: nat -> Answer, c: nat) {
    delete && answers(c).success && answers(c).deleted
  }

  /** What was not delivered is kept. */
  lemma {:induction false} OnlyDeliveredAreDeleted(values: seq<string>, count: nat, delete: bool,
      answers: nat -> Answer)
    ensures var o := Visit(values, count, delete, answers);
            |o.delivered| <= |values| && EndsWith(o.kept, values[|o.delivered|..])
  {
    if values != [] && |values[0]| < NAME_SIZE && answers(count).success {
      OnlyDeliveredAreDeleted(values[1..], count + 1, delete, answers);
      var rest := Visit(values[1..], count + 1, delete, answers);
      var kept := if delete && answers(count).deleted then [] else [values[0]];
      assert Visit(values, count, delete, answers) == Joined([values[0]], kept, rest);
      LongerEndsWith(kept, rest.kept, values[1..][|rest.delivered|..]);
      assert values[1..][|rest.delivered|..] == values[|rest.delivered| + 1..];
      assert |Visit(values, count, delete, answers).delivered| == |rest.delivered| + 1;
    }
  }

  ghost predicate EndsWith(s: seq<string>, end: seq<string>) {
    |end| <= |s| && s[|s| - |end|..] == end
  }

  lemma LongerEndsWith(more: seq<string>, s: seq<string>, end: seq<string>)
    requires EndsWith(s, end)
    ensures EndsWith(more + s, end)
  {
    assert (more + s)[|more + s| - |end|..] == s[|s| - |end|..];
  }

  /** A key: its values by name, in the order of enumeration. */
  class Key {
    var values: seq<string>

    /** RegDeleteKeyValueW: deletes the value of the given name. */
    method DeleteValue(name: string, ghost at: nat)
      requires Distinct(values) && at < |values| && values[at] == name
      modifies this
      ensures values == old(values)[..at] + old(values)[at + 1..] && Distinct(values)
    {
      var i := 0;
      while values[i] != name
        invariant 0 <= i <= at
        decreases at - i
      {
        i := i + 1;
      }
      assert i == at;
      ghost var all := values;
      values := values[..i] + values[i + 1..];
      assert forall k :: 0 <= k < |values| ==> values[k] == all[if k < i then k else k + 1];
    }

    /** DdkQueryEnumerateValues */
    method QueryEnumerateValues(delete: bool, required: bool, answers: nat -> Answer)
      returns (status: NtStatus, delivered: seq<string>)
      requires Distinct(values) && FitsDword(|values|)
      modifies this
      ensures Distinct(values)
      ensures delivered == Visit(old(values), 0, delete, answers).delivered
      ensures values == Visit(old(values), 0, delete, answers).kept
      ensures status == if required && (old(values) == [] || |old(values)[0]| >= 1024) then NotFound
                        else Visit(old(values), 0, delete, answers).status
    {
      var count;
      status, delivered, count := EnumerateValues(delete, answers);
      if required && count == 0 {
        status := NotFound;
      }
    }

    /** The loop over the indexes. */
    method EnumerateValues(delete: bool, answers: nat -> Answer)
      returns (status: NtStatus, delivered: seq<string>, count: nat)
      requires Distinct(values) && FitsDword(|values|)
      modifies this
      ensures Distinct(values) && Outcome(delivered, values, status) == Visit(old(values), 0, delete, answers)
      ensures count == |delivered|
    {
      ghost var all := values;
      var index := 0;
      count, status, delivered := 0, Success, [];
      assert values[index..] == values;
      while status == Success
        invariant 0 <= index && Distinct(values) && FitsDword(|values|)
        invariant Enumerating(all, values, index, count, delivered, status, delete, answers)
        invariant count == |delivered|
        decreases if status == Success then |values| + 1 - index else 0
      {
        if index >= |values| || |values[index]| >= NAME_SIZE {
          VisitEnds(all, values, index, count, delivered, delete, answers);
          status := if index >= |values| then Success else Failed;
          break;
        }
        status, index, delivered := VisitValue(index, count, delivered, delete, answers, all);
        count := count + 1;
      }
    }

    /** One turn of the loop; `next` is the index after the increment of the loop. */
    method VisitValue(index: nat, count: nat, delivered: seq<string>, delete: bool, answers: nat -> Answer,
        ghost all: seq<string>)
      returns (status: NtStatus, next: nat, more: seq<string>)
      requires Distinct(values) && FitsDword(|values|) && index < |values| && |values[index]| < NAME_SIZE
      requires VisitedSoFar(all, values, index, count, delivered, delete, answers)
      modifies this
      ensures Distinct(values) && |values| <= |old(values)|
      ensures Enumerating(all, values, next, count + 1, more, status, delete, answers)
      ensures status == Success ==> |values| - next == |old(values)| - index - 1
      ensures |more| == |delivered| + 1
    {
      VisitOne(all, values, index, count, delivered, delete, answers);
      Steps(index);
      var name := values[index];
      more, next := delivered + [name], index;
      var answer := answers(count);
      if !answer.success {
        return Failed, Dword(next + 1), more;
      }
      status := Success;
      if delete && answer.deleted {
        DeleteValue(name, index);
        next := Dword(index - 1);
      }
      next := Dword(next + 1);
    }
  }

  ghost predicate Enumerating(all: seq<string>, values: seq<string>, index: nat, count: nat, delivered: seq<string>,
      status: NtStatus, delete: bool, answers: nat -> Answer)
  {
    if status == Success then index <= |values| && VisitedSoFar(all, values, index, count, delivered, delete, answers)
    else Visit(all, 0, delete, answers) == Outcome(delivered, values, status)
  }

  lemma VisitOne(all: seq<string>, values: seq<string>, index: nat, count: nat, delivered: seq<string>,
      delete: bool, answers: nat -> Answer)
    requires index < |values| && VisitedSoFar(all, values, index, count, delivered, delete, answers)
    requires |values[index]| < NAME_SIZE
    ensures var more := delivered + [values[index]];
            if !answers(count).success then Visit(all, 0, delete, answers) == Outcome(more, values, Failed)
            else if delete && answers(count).deleted then
              VisitedSoFar(all, values[..index] + values[index + 1..], index, count + 1, more, delete, answers)
            else VisitedSoFar(all, values, index + 1, count + 1, more, delete, answers)
  {
    var name, left := [values[index]], values[..index] + values[index + 1..];
    assert values[index..][1..] == values[index + 1..];
    assert values[..index] + values[index..] == values;
    var rest := Visit(values[index + 1..], count + 1, delete, answers);
    if answers(count).success && delete && answers(count).deleted {
      JoinedTwice(delivered, values[..index], name, [], rest);
      assert left[index..] == values[index + 1..] && left[..index] == values[..index] + [];
    } else if answers(count).success {
      JoinedTwice(delivered, values[..index], name, name, rest);
      assert values[..index + 1] == values[..index] + name;
    }
  }

  lemma VisitEnds(all: seq<string>, values: seq<string>, index: nat, count: nat, delivered: seq<string>,
      delete: bool, answers: nat -> Answer)
    requires index <= |values| && VisitedSoFar(all, values, index, count, delivered, delete, answers)
    requires index == |values| || |values[index]| >= NAME_SIZE
    ensures Visit(all, 0, delete, answers) == Outcome(delivered, values, if index == |values| then Success else Failed)
  {
    assert values[..index] + values[index..] == values;
  }

  /** The values before `index` are kept, and visiting the rest completes the visit of all. */
  ghost predicate VisitedSoFar(all: seq<string>, values: seq<string>, index: nat, count: nat, delivered: seq<string>,
      delete: bool, answers: nat -> Answer)
    requires index <= |values|
  {
    Visit(all, 0, delete, answers) == Joined(delivered, values[..index], Visit(values[index..], count, delete, answers))
  }
}
