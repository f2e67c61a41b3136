/** What several components share.

    An optional value, the elements of a list that are kept when others are taken out, and the signed character
    in which stack sizes and stack locations are counted.  A counter of that width wraps from 127 to -128.
 */
module Common {

  datatype Option<T> = None | Some(value: T)

  function Char(x: int): int {
    (x + 128) % 256 - 128
  }

  predicate IsChar(x: int) {
    -128 <= x <= 127
  }

  /** `part` is `whole` at the places `at`, in order. */
  ghost predicate PickedAt<T>(part: seq<T>, whole: seq<T>, at: seq<nat>) {
    && |at| == |part|
    && (forall k :: 0 <= k < |at| ==> at[k] < |whole| && part[k] == whole[at[k]])
    && (forall j, k :: 0 <= j < k < |at| ==> at[j] < at[k])
  }

  /** `part` are the elements of `whole` that meet `keep`, in their order. */
  ghost predicate Picked<T>(part: seq<T>, whole: seq<T>, keep: T -> bool) {
    exists at :: PickedAt(part, whole, at) && forall n: nat :: n < |whole| ==> (n in at <==> keep(whole[n]))
  }

  /** Places further on by one. */
  lemma Shifted(at: seq<nat>) returns (up: seq<nat>)
    ensures |up| == |at| && forall k :: 0 <= k < |at| ==> up[k] == at[k] + 1
    ensures forall n: nat :: n in up <==> n > 0 && n - 1 in at
  {
    up := seq(|at|, k requires 0 <= k < |at| => at[k] + 1);
    forall n: nat | n > 0 && n - 1 in at ensures n in up {
      var k :| 0 <= k < |at| && at[k] == n - 1;
      assert up[k] == n;
    }
  }

  lemma ShiftedPlaces<T>(part: seq<T>, whole: seq<T>, at: seq<nat>, up: seq<nat>)
    requires whole != [] && PickedAt(part, whole[1..], at)
    requires |up| == |at| && forall k :: 0 <= k < |at| ==> up[k] == at[k] + 1
    ensures PickedAt(part, whole, up)
  {
    forall k | 0 <= k < |up| ensures up[k] < |whole| && part[k] == whole[up[k]] {
      assert whole[1..][at[k]] == whole[up[k]];
    }
  }

  lemma FirstPlace<T>(part: seq<T>, whole: seq<T>, up: seq<nat>)
    requires whole != [] && PickedAt(part, whole, up) && 0 !in up
    ensures PickedAt([whole[0]] + part, whole, [0] + up)
  {
    var all: seq<nat> := [0] + up;
    forall j, k | 0 <= j < k < |all| ensures all[j] < all[k] {
      assert all[k] == up[k - 1] && up[k - 1] in up;
    }
  }

  ghost predicate OneFurther(all: seq<nat>, at: seq<nat>, first: bool) {
    forall n: nat :: n in all <==> if n == 0 then first else n - 1 in at
  }

  /** The places in a list from those in its rest, with or without the first. */
  lemma PlacesNext<T>(part: seq<T>, whole: seq<T>, at: seq<nat>, first: bool) returns (all: seq<nat>)
    requires whole != [] && PickedAt(part, whole[1..], at)
    ensures PickedAt(if first then [whole[0]] + part else part, whole, all) && OneFurther(all, at, first)
  {
    var up := Shifted(at);
    ShiftedPlaces(part, whole, at, up);
    all := up;
    if first {
      FirstPlace(part, whole, up);
      all := [0] + up;
    }
  }

  lemma PickedNext<T>(part: seq<T>, whole: seq<T>, keep: T -> bool)
    requires whole != [] && Picked(part, whole[1..], keep)
    ensures Picked(if keep(whole[0]) then [whole[0]] + part else part, whole, keep)
  {
    var at :| PickedAt(part, whole[1..], at)
              && forall n: nat :: n < |whole[1..]| ==> (n in at <==> keep(whole[1..][n]));
    var all := PlacesNext(part, whole, at, keep(whole[0]));
    forall n: nat | n < |whole| ensures n in all <==> keep(whole[n]) {
      assert n > 0 ==> whole[1..][n - 1] == whole[n];
    }
  }

  lemma PickedNone<T>(keep: T -> bool)
    ensures Picked([], [], keep)
  {
    assert PickedAt<T>([], [], []);
  }
}
