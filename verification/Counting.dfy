/** Sums over the threads of a protocol.

    How a count changes when one thread takes a step, and what a count says about the threads.
 */
module Counting {

  function Total<T>(f: T -> int, s: seq<T>): int {
    if s == [] then 0 else f(s[0]) + Total(f, s[1..])
  }

  lemma {:induction false} TotalUpdate<T>(f: T -> int, s: seq<T>, i: nat, x: T)
    requires i < |s|
    ensures Total(f, s[i := x]) == Total(f, s) - f(s[i]) + f(x)
  {
    var s' := s[i := x];
    if i == 0 {
      assert s'[1..] == s[1..];
    } else {
      assert s'[1..] == s[1..][i - 1 := x];
      TotalUpdate(f, s[1..], i - 1, x);
    }
  }

  lemma {:induction false} TotalAppend<T>(f: T -> int, s: seq<T>, x: T)
    ensures Total(f, s + [x]) == Total(f, s) + f(x)
  {
    if s == [] {
      assert [x][1..] == [];
    } else {
      assert (s + [x])[1..] == s[1..] + [x];
      TotalAppend(f, s[1..], x);
    }
  }

  /** A sum of non-negative terms is at least each of them; when it is positive one of them is. */
  lemma {:induction false} TotalNonNegative<T>(f: T -> int, s: seq<T>)
    requires forall x :: f(x) >= 0
    ensures Total(f, s) >= 0
    ensures forall i :: 0 <= i < |s| ==> f(s[i]) <= Total(f, s)
    ensures Total(f, s) > 0 ==> exists i :: 0 <= i < |s| && f(s[i]) > 0
  {
    if s != [] {
      TotalNonNegative(f, s[1..]);
      assert forall i :: 0 < i < |s| ==> s[i] == s[1..][i - 1];
      if Total(f, s[1..]) > 0 {
        var i :| 0 <= i < |s[1..]| && f(s[1..][i]) > 0;
        assert f(s[i + 1]) > 0;
      }
    }
  }

  /** Two different terms that are one already make two. */
  lemma {:induction false} TotalOfTwo<T>(f: T -> int, s: seq<T>, i: nat, j: nat)
    requires forall x :: f(x) >= 0
    requires i < j < |s|
    ensures f(s[i]) + f(s[j]) <= Total(f, s)
  {
    if i > 0 {
      TotalOfTwo(f, s[1..], i - 1, j - 1);
    } else {
      TotalNonNegative(f, s[1..]);
      assert s[j] == s[1..][j - 1];
    }
  }

  lemma {:induction false} TotalZero<T>(f: T -> int, s: seq<T>)
    requires forall i :: 0 <= i < |s| ==> f(s[i]) == 0
    ensures Total(f, s) == 0
  {
    if s != [] {
      assert forall i :: 0 <= i < |s[1..]| ==> s[1..][i] == s[i + 1];
      TotalZero(f, s[1..]);
    }
  }
}
