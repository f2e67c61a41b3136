/** What the bitmap searches answer, on plain sequences of bits. */
module BitSearch {
  // `raw` is the whole buffer, `size` the number of bits in use; bits from `size` on are padding.  `Find` with
  // `exact == false` is what the routines compute, including the whole-word shortcut that counts 32 bits for
  // an all-clear last word even when part of that word is padding.  `Find` with `exact == true` is what they are
  // meant to compute.

  import opened BitWords

  const NOT_FOUND: nat := 0xFFFF_FFFF

  ghost predicate IsBitmap(raw: seq<bool>, size: nat) {
    1 <= size <= NOT_FOUND && size <= |raw| && |raw| % 32 == 0
  }

  function LastWord(size: nat): nat
    requires size >= 1
  {
    (size - 1) / 32
  }

  ghost predicate ClearRun(raw: seq<bool>, start: nat, n: nat) {
    start + n <= |raw| && forall k :: start <= k < start + n ==> !raw[k]
  }

  ghost predicate LastWordClear(raw: seq<bool>, size: nat)
    requires IsBitmap(raw, size)
  {
    ClearRun(raw, 32 * LastWord(size), 32)
  }

  /** A run of `n` clear bits that lies inside the bitmap. */
  ghost predicate InRange(raw: seq<bool>, size: nat, n: nat, start: nat) {
    start + n <= size && ClearRun(raw, start, n)
  }

  /** A run that ends in the padding of an all-clear last word and began before that word. */
  ghost predicate Overruns(raw: seq<bool>, size: nat, n: nat, start: nat)
    requires IsBitmap(raw, size)
  {
    && size < start + n <= 32 * LastWord(size) + 32
    && start < 32 * LastWord(size)
    && LastWordClear(raw, size)
    && ClearRun(raw, start, n)
  }

  ghost predicate Accepts(raw: seq<bool>, size: nat, n: nat, start: nat, exact: bool)
    requires IsBitmap(raw, size)
  {
    InRange(raw, size, n, start) || (!exact && Overruns(raw, size, n, start))
  }

  /** The least accepted start at or after `from`, or NOT_FOUND. */
  ghost function Least(raw: seq<bool>, size: nat, n: nat, from: nat, exact: bool): (start: nat)
    requires IsBitmap(raw, size) && n >= 1
    decreases size - from
  {
    if from >= size then NOT_FOUND
    else if Accepts(raw, size, n, from, exact) then from
    else Least(raw, size, n, from + 1, exact)
  }

  lemma {:induction false} LeastMeaning(raw: seq<bool>, size: nat, n: nat, from: nat, exact: bool)
    requires IsBitmap(raw, size) && n >= 1
    ensures var start := Least(raw, size, n, from, exact);
            && (start != NOT_FOUND ==> from <= start < size && Accepts(raw, size, n, start, exact))
            && (start != NOT_FOUND ==> forall s :: from <= s < start ==> !Accepts(raw, size, n, s, exact))
            && (start == NOT_FOUND ==> forall s :: from <= s ==> !Accepts(raw, size, n, s, exact))
    decreases size - from
  {
    if from < size && !Accepts(raw, size, n, from, exact) {
      LeastMeaning(raw, size, n, from + 1, exact);
    }
  }

  /** The answer of a search for `number` clear bits from `hint`; a request for 0 bits looks for 1. */
  ghost function Find(raw: seq<bool>, size: nat, number: nat, hint: nat, exact: bool): (start: nat)
    requires IsBitmap(raw, size)
  {
    if number >= size then NOT_FOUND else
    var n := if number == 0 then 1 else number;
    var first := if hint < size && number <= size - hint then Least(raw, size, n, hint, exact) else NOT_FOUND;
    if first != NOT_FOUND then first else Least(raw, size, n, 0, exact)
  }

  lemma LeastUnique(raw: seq<bool>, size: nat, n: nat, from: nat, exact: bool, start: nat)
    requires IsBitmap(raw, size) && n >= 1
    requires from <= start < size && Accepts(raw, size, n, start, exact)
    requires forall s :: from <= s < start ==> !Accepts(raw, size, n, s, exact)
    ensures Least(raw, size, n, from, exact) == start
  {
    LeastMeaning(raw, size, n, from, exact);
  }

  lemma LeastNone(raw: seq<bool>, size: nat, n: nat, from: nat, exact: bool)
    requires IsBitmap(raw, size) && n >= 1
    requires forall s :: from <= s ==> !Accepts(raw, size, n, s, exact)
    ensures Least(raw, size, n, from, exact) == NOT_FOUND
  {
    LeastMeaning(raw, size, n, from, exact);
  }

  /** A search with the shortcut or without: the first accepted start at or after the hint, if the requested number fits
      between the hint and the end and there is one, else the first anywhere, if there is one. */
  lemma FindMeans(raw: seq<bool>, size: nat, number: nat, n: nat, hint: nat, exact: bool)
    requires IsBitmap(raw, size) && n == (if number == 0 then 1 else number)
    ensures var start := Find(raw, size, number, hint, exact);
            var hinted := hint + number <= size && exists s: nat :: hint <= s && Accepts(raw, size, n, s, exact);
            var from := if hinted then hint else 0;
            && (start == 0xFFFF_FFFF <==> number >= size || forall s: nat :: !Accepts(raw, size, n, s, exact))
            && (start != 0xFFFF_FFFF ==> start >= from && Accepts(raw, size, n, start, exact))
            && (start != 0xFFFF_FFFF ==> forall s: nat :: from <= s < start ==> !Accepts(raw, size, n, s, exact))
  {
    if number < size {
      LeastMeaning(raw, size, n, hint, exact);
      LeastMeaning(raw, size, n, 0, exact);
    }
  }

  /** The intended search: the first run at or after the hint, else the first run anywhere,
      and no answer exactly when the bitmap holds no such run. */
  lemma ExactFind(raw: seq<bool>, size: nat, number: nat, n: nat, hint: nat)
    requires IsBitmap(raw, size) && number < size && n == (if number == 0 then 1 else number)
    ensures var start := Find(raw, size, number, hint, true);
            && (start == NOT_FOUND <==> forall s :: !InRange(raw, size, n, s))
            && (start != NOT_FOUND ==> InRange(raw, size, n, start))
            && ((exists s :: hint <= s && InRange(raw, size, n, s)) ==>
                  hint <= start && forall s :: hint <= s < start ==> !InRange(raw, size, n, s))
            && ((forall s :: hint <= s ==> !InRange(raw, size, n, s)) ==>
                  forall s :: 0 <= s < start ==> !InRange(raw, size, n, s))
  {
    LeastMeaning(raw, size, n, hint, true);
    LeastMeaning(raw, size, n, 0, true);
    assert forall s :: InRange(raw, size, n, s) <==> Accepts(raw, size, n, s, true);
    if s :| hint <= s && InRange(raw, size, n, s) {
      assert hint < size && number <= size - hint;
    }
  }

  /** A run of the requested length is there and not answered exactly when the whole of an all-clear bitmap is
      requested, with the shortcut or without. */
  lemma RefusedExactlyWhen(raw: seq<bool>, size: nat, number: nat, hint: nat, exact: bool)
    requires IsBitmap(raw, size) && number >= 1
    ensures (Find(raw, size, number, hint, exact) == NOT_FOUND && exists s: nat :: InRange(raw, size, number, s))
            <==> number == size && ClearRun(raw, 0, size)
  {
    if number < size {
      LeastMeaning(raw, size, number, hint, exact);
      LeastMeaning(raw, size, number, 0, exact);
      assert forall s: nat :: InRange(raw, size, number, s) ==> Accepts(raw, size, number, s, exact);
    }
    assert number == size && ClearRun(raw, 0, size) ==> InRange(raw, size, number, 0);
  }

  /** The bitmaps on which the whole-word shortcut cannot mislead a search: no padding, a last
      word that is not all clear, or a last clear run that begins in the last word or at bit 0 or 1. */
  ghost predicate TailSafe(raw: seq<bool>, size: nat)
    requires IsBitmap(raw, size)
  {
    || size % 32 == 0
    || !LastWordClear(raw, size)
    || LastWord(size) == 0
    || raw[32 * LastWord(size) - 1]
    || ClearRun(raw, 1, 32 * LastWord(size) - 1)
  }

  /** The shortcut never changes an answer exactly on the tail-safe bitmaps. */
  lemma ShortcutHarmlessExactlyWhen(raw: seq<bool>, size: nat)
    requires IsBitmap(raw, size)
    ensures TailSafe(raw, size) <==>
            forall number: nat, hint: nat :: Find(raw, size, number, hint, false) == Find(raw, size, number, hint, true)
  {
    if TailSafe(raw, size) {
      forall number: nat, hint: nat
        ensures Find(raw, size, number, hint, false) == Find(raw, size, number, hint, true)
      {
        SafeTailSearch(raw, size, number, hint);
      }
    } else {
      UnsafeTailSearch(raw, size, RunStart(raw, 32 * LastWord(size)));
    }
  }

  /** Where the run of clear bits that ends just before `end` begins. */
  ghost function RunStart(raw: seq<bool>, end: nat): (start: nat)
    requires end <= |raw|
    ensures start <= end && ClearRun(raw, start, end - start) && (start == 0 || raw[start - 1])
  {
    if end == 0 || raw[end - 1] then end else RunStart(raw, end - 1)
  }

  lemma OverrunHasEarlierRun(raw: seq<bool>, size: nat, n: nat, from: nat, start: nat)
    requires IsBitmap(raw, size) && TailSafe(raw, size)
    requires 1 <= n && from + n <= size && (from == 0 ==> n < size) && from <= start
    requires Overruns(raw, size, n, start)
    ensures exists s :: from <= s < start && InRange(raw, size, n, s)
  {
    var edge := 32 * LastWord(size);
    assert !raw[edge - 1];
    var early := if from == 0 then 1 else from;
    assert InRange(raw, size, n, early);
  }

  lemma SafeTailLeast(raw: seq<bool>, size: nat, n: nat, from: nat)
    requires IsBitmap(raw, size) && TailSafe(raw, size)
    requires 1 <= n && from + n <= size && (from == 0 ==> n < size || n == 1)
    ensures Least(raw, size, n, from, false) == Least(raw, size, n, from, true)
  {
    var start := Least(raw, size, n, from, false);
    LeastMeaning(raw, size, n, from, false);
    LeastMeaning(raw, size, n, from, true);
    forall s: nat ensures Accepts(raw, size, n, s, true) ==> Accepts(raw, size, n, s, false) {
    }
    if start != NOT_FOUND {
      if Overruns(raw, size, n, start) {
        OverrunHasEarlierRun(raw, size, n, from, start);
      }
      LeastUnique(raw, size, n, from, true, start);
    }
  }

  lemma SafeTailSearch(raw: seq<bool>, size: nat, number: nat, hint: nat)
    requires IsBitmap(raw, size) && TailSafe(raw, size)
    ensures Find(raw, size, number, hint, false) == Find(raw, size, number, hint, true)
  {
    if number < size {
      var n := if number == 0 then 1 else number;
      if hint < size && number <= size - hint {
        SafeTailLeast(raw, size, n, hint);
      }
      SafeTailLeast(raw, size, n, 0);
    }
  }

  /** On any other bitmap a search that begins on the set bit below the last clear run, and asks
      for one bit more than the run has inside the bitmap, is answered by a run that leaves it. */
  lemma UnsafeTailSearch(raw: seq<bool>, size: nat, s: nat)
    requires IsBitmap(raw, size) && !TailSafe(raw, size)
    requires s == RunStart(raw, 32 * LastWord(size))
    ensures 2 <= s < 32 * LastWord(size)
    ensures Find(raw, size, size - s + 1, s - 1, false) == s
    ensures !InRange(raw, size, size - s + 1, s)
    ensures Find(raw, size, size - s + 1, s - 1, true) != s
  {
    var n := size - s + 1;
    assert Overruns(raw, size, n, s);
    LeastUnique(raw, size, n, s - 1, false, s);
    LeastMeaning(raw, size, n, s - 1, true);
    LeastMeaning(raw, size, n, 0, true);
  }
}
