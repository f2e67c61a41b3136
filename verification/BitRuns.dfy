/** When the run lengths that the forward search reports are exact. */
module BitRuns {
  import opened BitSearch
  import opened BitScan

  /** No padding, only one word, a last word that is not all clear, or a set bit just before it. */
  ghost predicate RunSafe(raw: seq<bool>, size: nat)
    requires IsBitmap(raw, size)
  {
    size % 32 == 0 || LastWord(size) == 0 || !LastWordClear(raw, size) || raw[32 * LastWord(size) - 1]
  }

  /** The run of clear bits at `start` is reported with its length. */
  ghost predicate ReportedExactly(raw: seq<bool>, size: nat, start: nat)
    requires IsBitmap(raw, size) && start < size
  {
    ReportedLength(raw, size, start) == RunLength(raw, start, size)
  }

  /** Every run is reported with its length exactly on the bitmaps that are safe for counting runs. */
  lemma RunLengthsExactExactlyWhen(raw: seq<bool>, size: nat)
    requires IsBitmap(raw, size)
    ensures RunSafe(raw, size) <==>
            forall start: nat :: start < size && !raw[start] ==> ReportedExactly(raw, size, start)
  {
    if RunSafe(raw, size) {
      forall start: nat | start < size && !raw[start] ensures ReportedExactly(raw, size, start) {
        SafeRunIsExact(raw, size, start);
      }
    } else {
      UnsafeRunIsLonger(raw, size);
    }
  }

  lemma SafeRunIsExact(raw: seq<bool>, size: nat, start: nat)
    requires IsBitmap(raw, size) && RunSafe(raw, size) && start < size
    ensures ReportedExactly(raw, size, start)
  {
    var length, last := RunLength(raw, start, size), 32 * LastWord(size);
    if start < last && start + length == size {
      assert ClearRun(raw, start, length);
      assert !raw[last - 1];
    }
  }

  /** On any other bitmap the run of the bit before the last word is reported with the padding. */
  lemma UnsafeRunIsLonger(raw: seq<bool>, size: nat)
    requires IsBitmap(raw, size) && !RunSafe(raw, size)
    ensures var start := 32 * LastWord(size) - 1;
            && !raw[start] && RunLength(raw, start, size) == size - start
            && ReportedLength(raw, size, start) == 32 * LastWord(size) + 32 - start > size - start
            && RunReport(raw, size, start, start, 32 * LastWord(size) + 32 - start)
  {
    var start := 32 * LastWord(size) - 1;
    RunLengthUnique(raw, start, size, size - start);
  }

  /** An all-clear bitmap of 40 bits is safe for the searches, but its one run of 40 bits is reported as 64. */
  lemma SearchSafeIsNotRunSafe(raw: seq<bool>)
    requires |raw| == 64 && ClearRun(raw, 0, 64)
    ensures TailSafe(raw, 40) && !RunSafe(raw, 40)
    ensures RunLength(raw, 0, 40) == 40 && forall count: nat :: RunReport(raw, 40, 0, 0, count) <==> count == 64
  {
    RunLengthUnique(raw, 0, 40, 40);
  }
}
