/** Scanning words of a bitmap for runs.

    What the routines carry from word to word while they look for a run or count one, and the routines that
    work on one word.  A word is given with the bits of the bitmap it holds, complemented for a search of set bits.
 */
module BitScan {
  import opened BitWords
  import opened BitSearch

  const BITS_PER_ARRAY := 32

  /** The progress of a scan for clear bits over `raw[from..pos]`: whether a run of clear bits ends at
      `pos`, where it began, how long it is, and that no run of `n` bits has been passed over. */
  ghost predicate Scanned(raw: seq<bool>, n: nat, from: nat, pos: nat, runStarted: bool, startBit: nat, runCount: nat) {
    && from <= pos <= |raw|
    && (if runStarted then
          && from <= startBit < pos && runCount == pos - startBit < n
          && ClearRun(raw, startBit, runCount)
          && (startBit == from || raw[startBit - 1])
        else
          runCount == 0 && (pos == from || raw[pos - 1]))
    && NoRun(raw, n, from, pos)
  }

  /** No run of `n` clear bits lies inside `raw[from..pos]`. */
  ghost predicate NoRun(raw: seq<bool>, n: nat, from: nat, pos: nat) {
    forall s :: from <= s && s + n <= pos ==> !ClearRun(raw, s, n)
  }

  /** `startBit` is the least start of a run of `n` clear bits inside `raw[from..pos]`. */
  ghost predicate FirstRun(raw: seq<bool>, n: nat, from: nat, pos: nat, startBit: nat) {
    && from <= startBit && startBit + n <= pos
    && ClearRun(raw, startBit, n)
    && forall s :: from <= s < startBit ==> !ClearRun(raw, s, n)
  }

  /** One more clear bit at `pos`: either the run is now long enough, or the scan goes on. */
  lemma ScanClear(raw: seq<bool>, n: nat, from: nat, pos: nat, runStarted: bool, startBit: nat, runCount: nat)
    requires n >= 1 && pos < |raw| && !raw[pos]
    requires Scanned(raw, n, from, pos, runStarted, startBit, runCount)
    ensures var start := if runStarted then startBit else pos;
            if runCount + 1 >= n then FirstRun(raw, n, from, pos + 1, start)
            else Scanned(raw, n, from, pos + 1, true, start, runCount + 1)
  {
    var start := if runStarted then startBit else pos;
    forall s | from <= s < start ensures !ClearRun(raw, s, n) {
      if s + n > pos {
        assert s <= start - 1 < s + n && raw[start - 1];
      }
    }
  }

  /** A set bit at `pos` ends any run. */
  lemma ScanSet(raw: seq<bool>, n: nat, from: nat, pos: nat, runStarted: bool, startBit: nat, runCount: nat)
    requires n >= 1 && pos < |raw| && raw[pos]
    requires Scanned(raw, n, from, pos, runStarted, startBit, runCount)
    ensures Scanned(raw, n, from, pos + 1, false, startBit, 0)
  {
    forall s | from <= s && s + n <= pos + 1 ensures !ClearRun(raw, s, n) {
      if s + n == pos + 1 {
        assert s <= pos < s + n && raw[pos];
      }
    }
  }

  /** `count` clear bits at once. */
  lemma {:induction false} ScanBlock(raw: seq<bool>, n: nat, from: nat, pos: nat,
      runStarted: bool, startBit: nat, runCount: nat, count: nat)
    requires n >= 1 && count >= 1 && pos + count <= |raw| && ClearRun(raw, pos, count)
    requires Scanned(raw, n, from, pos, runStarted, startBit, runCount)
    ensures var start := if runStarted then startBit else pos;
            if runCount + count >= n then FirstRun(raw, n, from, pos + count, start)
            else Scanned(raw, n, from, pos + count, true, start, runCount + count)
    decreases count
  {
    ScanClear(raw, n, from, pos, runStarted, startBit, runCount);
    if count > 1 && runCount + 1 < n {
      ScanBlock(raw, n, from, pos + 1, true, if runStarted then startBit else pos, runCount + 1, count - 1);
    }
  }

  /** The shortcut over an all-clear partial last word, entered with a run that began earlier. */
  lemma ShortcutSearch(raw: seq<bool>, size: nat, n: nat, from: nat, startBit: nat, runCount: nat)
    requires IsBitmap(raw, size) && n >= 1 && LastWordClear(raw, size)
    requires Scanned(raw, n, from, 32 * LastWord(size), true, startBit, runCount)
    ensures Least(raw, size, n, from, false) == if runCount + 32 >= n then startBit else NOT_FOUND
  {
    var edge := 32 * LastWord(size);
    forall s | from <= s < startBit && s + n > edge ensures !ClearRun(raw, s, n) {
      assert raw[startBit - 1];
    }
    if runCount + 32 >= n {
      LeastUnique(raw, size, n, from, false, startBit);
    } else {
      LeastNone(raw, size, n, from, false);
    }
  }

  /** The last word scanned bit by bit, or whole with no padding, or from its own first bit. */
  lemma ScannedSearch(raw: seq<bool>, size: nat, n: nat, from: nat, runStarted: bool, startBit: nat, runCount: nat)
    requires IsBitmap(raw, size) && n >= 1
    requires from < 32 * LastWord(size) ==> Scanned(raw, n, from, 32 * LastWord(size), runStarted, startBit, runCount)
    requires from < 32 * LastWord(size) && runStarted && LastWordClear(raw, size) ==> size == 32 * LastWord(size) + 32
    requires NoRun(raw, n, from, size)
    ensures Least(raw, size, n, from, false) == NOT_FOUND
  {
    var edge := 32 * LastWord(size);
    assert from < edge && !runStarted ==> raw[edge - 1];
    LeastNone(raw, size, n, from, false);
  }

  /** How a scan stands at `pos`: the first run found, or none passed over yet. */
  ghost predicate Outcome(raw: seq<bool>, n: nat, from: nat, pos: nat, found: bool, runStarted: bool, startBit: nat,
      runCount: nat) {
    if found then FirstRun(raw, n, from, pos, startBit) else Scanned(raw, n, from, pos, runStarted, startBit, runCount)
  }

  /** How a scan stands after a word; `shortcut` when a run carried into an all-neutral word is given
      32 more bits although fewer than 32 bits of the word were to be scanned. */
  ghost predicate WordOutcome(raw: seq<bool>, n: nat, from: nat, pos: nat, shortcut: bool, startBitIn: nat,
      runCountIn: nat, found: bool, runStarted: bool, startBit: nat, runCount: nat)
  {
    if shortcut then startBit == startBitIn && found == (runCountIn + 32 >= n)
    else Outcome(raw, n, from, pos, found, runStarted, startBit, runCount)
  }

  lemma FirstRunLeast(raw: seq<bool>, size: nat, n: nat, from: nat, pos: nat, startBit: nat)
    requires IsBitmap(raw, size) && n >= 1 && pos <= size && FirstRun(raw, n, from, pos, startBit)
    ensures Least(raw, size, n, from, false) == startBit < NOT_FOUND
  {
    LeastUnique(raw, size, n, from, false, startBit);
  }

  lemma OneWordSearch(raw: seq<bool>, size: nat, n: nat, from: nat, found: bool, runStarted: bool, startBit: nat,
      runCount: nat)
    requires IsBitmap(raw, size) && n >= 1 && 32 * LastWord(size) <= from < size
    requires Outcome(raw, n, from, size, found, runStarted, startBit, runCount)
    ensures Least(raw, size, n, from, false) == if found then startBit else NOT_FOUND
    ensures found ==> startBit < NOT_FOUND
  {
    if found {
      FirstRunLeast(raw, size, n, from, size, startBit);
    } else {
      ScannedSearch(raw, size, n, from, runStarted, startBit, runCount);
    }
  }

  lemma FinishSearch(raw: seq<bool>, size: nat, n: nat, from: nat, bufferElement: Word, flip: bool,
      started: bool, start: nat, count: nat, found: bool, runStarted: bool, startBit: nat, runCount: nat)
    requires IsBitmap(raw, size) && n >= 1 && from < 32 * LastWord(size)
    requires WordAt(raw, LastWord(size), bufferElement, flip)
    requires Scanned(raw, n, from, 32 * LastWord(size), started, start, count)
    requires WordOutcome(raw, n, from, size,
               (if flip then IsAllOnes(bufferElement) else IsZero(bufferElement)) && started
                   && size < 32 * LastWord(size) + 32, start, count, found, runStarted, startBit, runCount)
    ensures Least(raw, size, n, from, false) == if found then startBit else NOT_FOUND
    ensures found ==> startBit < NOT_FOUND
  {
    WordClear(raw, LastWord(size), bufferElement, flip);
    if LastWordClear(raw, size) && started && size < 32 * LastWord(size) + 32 {
      ShortcutSearch(raw, size, n, from, start, count);
    } else if found {
      FirstRunLeast(raw, size, n, from, size, startBit);
    } else {
      ScannedSearch(raw, size, n, from, started, start, count);
    }
  }

  /** The progress of a scan for the first run of clear bits at or after `from`. */
  ghost predicate RunScan(raw: seq<bool>, from: nat, pos: nat, runStarted: bool, startBit: nat, runCount: nat) {
    && from <= pos <= |raw|
    && if runStarted then
         && from <= startBit < pos && startBit + runCount == pos
         && ClearRun(raw, startBit, runCount)
         && forall k :: from <= k < startBit ==> raw[k]
       else
         runCount == 0 && startBit == 0 && forall k :: from <= k < pos ==> raw[k]
  }

  /** The length of the run of clear bits that begins at `start`, up to `end`. */
  ghost function RunLength(raw: seq<bool>, start: nat, end: nat): (length: nat)
    requires start <= end <= |raw|
    ensures start + length <= end && ClearRun(raw, start, length)
    ensures start + length < end ==> raw[start + length]
    decreases end - start
  {
    if start == end || raw[start] then 0 else 1 + RunLength(raw, start + 1, end)
  }

  lemma {:induction false} RunLengthUnique(raw: seq<bool>, start: nat, end: nat, length: nat)
    requires start <= end <= |raw| && start + length <= end
    requires ClearRun(raw, start, length) && (start + length < end ==> raw[start + length])
    ensures RunLength(raw, start, end) == length
    decreases end - start
  {
    if start < end && !raw[start] {
      assert length >= 1;
      RunLengthUnique(raw, start + 1, end, length - 1);
    }
  }

  lemma CountStep(raw: seq<bool>, k: nat)
    requires k < |raw|
    ensures CountTrue(raw[..k + 1]) == CountTrue(raw[..k]) + if raw[k] then 1 else 0
  {
    assert raw[..k + 1][..k] == raw[..k];
  }

  lemma {:induction false} CountBlock(raw: seq<bool>, k: nat, n: nat)
    requires k + n <= |raw| && forall i :: k <= i < k + n ==> raw[i]
    ensures CountTrue(raw[..k + n]) == CountTrue(raw[..k]) + n
  {
    if n > 0 {
      CountBlock(raw, k, n - 1);
      CountStep(raw, k + n - 1);
    }
  }

  function ArrayIndex(bitNumber: nat): nat {
    bitNumber / BITS_PER_ARRAY
  }

  function BitPosition(bitNumber: nat, arrayIndex: nat): nat
    requires arrayIndex * BITS_PER_ARRAY <= bitNumber
  {
    bitNumber - arrayIndex * BITS_PER_ARRAY
  }

  function BitNumber(bufferIndex: nat, bitPosition: nat): nat {
    bufferIndex * BITS_PER_ARRAY + bitPosition
  }

  method ClearBitsInRange(bufferElement: Word, startingIndex: nat, endIndex: nat) returns (result: Word)
    requires startingIndex <= endIndex && startingIndex / 32 == endIndex / 32
    ensures forall j :: 0 <= j < 32 ==>
              result[j] == if startingIndex % 32 <= j <= endIndex % 32 then false else bufferElement[j]
  {
    result := bufferElement;
    var bitNum := startingIndex;
    while bitNum <= endIndex
      invariant startingIndex <= bitNum <= endIndex + 1
      invariant forall j :: 0 <= j < 32 ==>
                  result[j] == if startingIndex % 32 <= j < startingIndex % 32 + (bitNum - startingIndex) then false
                      else bufferElement[j]
    {
      result := AndNotMask(result, bitNum);
      bitNum := bitNum + 1;
    }
  }

  method SetBitsInRange(bufferElement: Word, startingIndex: nat, endIndex: nat) returns (result: Word)
    requires startingIndex <= endIndex && startingIndex / 32 == endIndex / 32
    ensures forall j :: 0 <= j < 32 ==>
              result[j] == if startingIndex % 32 <= j <= endIndex % 32 then true else bufferElement[j]
  {
    result := bufferElement;
    var bitNum := startingIndex;
    while bitNum <= endIndex
      invariant startingIndex <= bitNum <= endIndex + 1
      invariant forall j :: 0 <= j < 32 ==>
                  result[j] == if startingIndex % 32 <= j < startingIndex % 32 + (bitNum - startingIndex) then true
                      else bufferElement[j]
    {
      result := OrMask(result, bitNum);
      bitNum := bitNum + 1;
    }
  }

  function Needed(numToFind: nat): nat {
    if numToFind == 0 then 1 else numToFind
  }

  /** What RtlFindNextForwardRunClear reports for the run at `start`: its length, plus the padding
      bits of an all-clear last word when the run began in an earlier word and reaches the end. */
  ghost function ReportedLength(raw: seq<bool>, size: nat, start: nat): nat
    requires IsBitmap(raw, size) && start <= size
  {
    var length := RunLength(raw, start, size);
    if start < 32 * LastWord(size) && start + length == size && LastWordClear(raw, size) then
      length + (32 * LastWord(size) + 32 - size)
    else length
  }

  lemma WordClear(raw: seq<bool>, bufferIndex: nat, bufferElement: Word, flip: bool)
    requires WordAt(raw, bufferIndex, bufferElement, flip)
    ensures ClearRun(raw, 32 * bufferIndex, 32) <==> if flip then IsAllOnes(bufferElement) else IsZero(bufferElement)
  {
    if ClearRun(raw, 32 * bufferIndex, 32) {
      forall j | 0 <= j < 32 ensures bufferElement[j] == flip {
        assert !raw[32 * bufferIndex + j];
      }
    }
  }

  lemma NotClear(raw: seq<bool>, bufferElement: Word, bufferIndex: nat, first: nat, last: nat, start: nat,
      length: nat, flip: bool)
    requires WordAt(raw, bufferIndex, bufferElement, flip) && first <= last < 32
    requires start <= 32 * bufferIndex + first && 32 * bufferIndex + last < start + length
    requires exists j :: first <= j <= last && bufferElement[j] != flip
    ensures !ClearRun(raw, start, length)
  {
    var j :| first <= j <= last && bufferElement[j] != flip;
    assert raw[32 * bufferIndex + j];
  }

  /** The set bits of a whole word. */
  method CountWord(bufferElement: Word, n: nat, ghost raw: seq<bool>, ghost bufferIndex: nat) returns (bits: nat)
    requires n == 32 && WordAt(raw, bufferIndex, bufferElement, false)
    ensures CountTrue(raw[..32 * bufferIndex + n]) == CountTrue(raw[..32 * bufferIndex]) + bits
  {
    if IsAllOnes(bufferElement) {
      CountBlock(raw, 32 * bufferIndex, 32);
      bits := BITS_PER_ARRAY;
    } else {
      bits := CountSetBits(bufferElement, n, raw, bufferIndex);
    }
  }

  /** The set bits among the first `n` of a word. */
  method CountSetBits(bufferElement: Word, n: nat, ghost raw: seq<bool>, ghost bufferIndex: nat) returns (bits: nat)
    requires n <= 32 && WordAt(raw, bufferIndex, bufferElement, false)
    ensures CountTrue(raw[..32 * bufferIndex + n]) == CountTrue(raw[..32 * bufferIndex]) + bits
  {
    bits := 0;
    var bitNum := 0;
    while bitNum < n
      invariant 0 <= bitNum <= n
      invariant CountTrue(raw[..32 * bufferIndex + bitNum]) == CountTrue(raw[..32 * bufferIndex]) + bits
    {
      CountStep(raw, 32 * bufferIndex + bitNum);
      if TestMask(bufferElement, bitNum) {
        bits := bits + 1;
      }
      bitNum := bitNum + 1;
    }
  }

  /** How the scan for a run stands after the bits before `pos`. */
  ghost predicate RunOutcome(raw: seq<bool>, from: nat, pos: nat, runStarted: bool, runEnded: bool, startBit: nat,
      runCount: nat) {
    if runEnded then
      runStarted && startBit + runCount < pos <= |raw| && raw[startBit + runCount]
      && RunScan(raw, from, startBit + runCount, true, startBit, runCount)
    else
      RunScan(raw, from, pos, runStarted, startBit, runCount)
  }

  /** What the caller of RtlFindNextForwardRunClear learns. */
  ghost predicate RunReport(raw: seq<bool>, size: nat, from: nat, startBit: nat, runCount: nat)
    requires IsBitmap(raw, size)
  {
    if runCount == 0 then
      startBit == 0 && forall k :: from <= k < size ==> raw[k]
    else
      && from <= startBit < size && !raw[startBit]
      && (forall k :: from <= k < startBit ==> raw[k])
      && runCount == ReportedLength(raw, size, startBit)
  }

  lemma EndedReport(raw: seq<bool>, size: nat, from: nat, pos: nat, startBit: nat, runCount: nat)
    requires IsBitmap(raw, size) && pos <= size && RunOutcome(raw, from, pos, true, true, startBit, runCount)
    ensures RunReport(raw, size, from, startBit, runCount)
  {
    RunLengthUnique(raw, startBit, size, runCount);
  }

  lemma PlainReport(raw: seq<bool>, size: nat, from: nat, runStarted: bool, runEnded: bool, startBit: nat,
      runCount: nat)
    requires IsBitmap(raw, size) && 32 * LastWord(size) <= from < size
    requires RunOutcome(raw, from, size, runStarted, runEnded, startBit, runCount)
    ensures RunReport(raw, size, from, startBit, runCount)
  {
    if runStarted {
      RunLengthUnique(raw, startBit, size, runCount);
    }
  }

  lemma LastReport(raw: seq<bool>, size: nat, from: nat, bufferElement: Word, started: bool, start: nat, count: nat,
      runStarted: bool, runEnded: bool, startBit: nat, runCount: nat)
    requires IsBitmap(raw, size) && from < 32 * LastWord(size)
    requires WordAt(raw, LastWord(size), bufferElement, false)
    requires RunScan(raw, from, 32 * LastWord(size), started, start, count)
    requires if IsZero(bufferElement) && started then !runEnded && startBit == start && runCount == count + 32
             else RunOutcome(raw, from, size, runStarted, runEnded, startBit, runCount)
    ensures RunReport(raw, size, from, startBit, runCount)
  {
    WordClear(raw, LastWord(size), bufferElement, false);
    if IsZero(bufferElement) && started {
      RunLengthUnique(raw, startBit, size, size - startBit);
    } else if runStarted {
      assert !raw[startBit];
      RunLengthUnique(raw, startBit, size, runCount);
    }
  }

  /** RtlFindNextForwardRunClear begun in the last word. */
  method CountOnlyWord(bufferElement: Word, lastBufferIndex: nat, startBitPosition: nat, lastBitPosition: nat,
      ghost raw: seq<bool>, ghost size: nat)
    returns (startBit: nat, runCount: nat)
    requires IsBitmap(raw, size) && lastBufferIndex == LastWord(size)
    requires startBitPosition <= lastBitPosition < 32 && size == 32 * lastBufferIndex + lastBitPosition + 1
    requires WordAt(raw, lastBufferIndex, bufferElement, false)
    ensures RunReport(raw, size, 32 * lastBufferIndex + startBitPosition, startBit, runCount)
  {
    var runStarted, runEnded;
    ghost var from := 32 * lastBufferIndex + startBitPosition;
    runStarted, runEnded, startBit, runCount := CountClearRun(bufferElement, lastBufferIndex,
      startBitPosition, lastBitPosition, false, 0, 0, raw, from);
    PlainReport(raw, size, from, runStarted, runEnded, startBit, runCount);
  }

  /** The last word of RtlFindNextForwardRunClear. */
  method CountLastWord(bufferElement: Word, lastBufferIndex: nat, lastBitPosition: nat,
      runStarted: bool, startBitIn: nat, runCountIn: nat, ghost raw: seq<bool>, ghost size: nat, ghost from: nat)
    returns (startBit: nat, runCount: nat)
    requires IsBitmap(raw, size) && lastBufferIndex == LastWord(size) && from < 32 * lastBufferIndex
    requires lastBitPosition < 32 && size == 32 * lastBufferIndex + lastBitPosition + 1
    requires WordAt(raw, lastBufferIndex, bufferElement, false)
    requires RunScan(raw, from, 32 * lastBufferIndex, runStarted, startBitIn, runCountIn)
    ensures RunReport(raw, size, from, startBit, runCount)
  {
    var nowStarted, nowEnded;
    nowStarted, nowEnded, startBit, runCount := CountClearRun(bufferElement, lastBufferIndex,
      0, lastBitPosition, runStarted, startBitIn, runCountIn, raw, from);
    LastReport(raw, size, from, bufferElement, runStarted, startBitIn, runCountIn,
      nowStarted, nowEnded, startBit, runCount);
  }

  /** Extends a run of clear bits through one word; `runEnded` when a set bit ends it.  An all-clear
      word entered in the middle of a run counts for 32 bits whatever `lastBitPosition` is. */
  method CountClearRun(bufferElement: Word, bufferIndex: nat, startBitPosition: nat, lastBitPosition: nat,
      runStartedIn: bool, startBitIn: nat, runCountIn: nat, ghost raw: seq<bool>, ghost from: nat)
    returns (runStarted: bool, runEnded: bool, startBit: nat, runCount: nat)
    requires startBitPosition <= lastBitPosition < 32 && WordAt(raw, bufferIndex, bufferElement, false)
    requires runStartedIn ==> startBitPosition == 0
    requires RunScan(raw, from, 32 * bufferIndex + startBitPosition, runStartedIn, startBitIn, runCountIn)
    ensures IsZero(bufferElement) && runStartedIn ==>
              runStarted && !runEnded && startBit == startBitIn && runCount == runCountIn + 32
    ensures !(IsZero(bufferElement) && runStartedIn && lastBitPosition < 31) ==>
              RunOutcome(raw, from, 32 * bufferIndex + lastBitPosition + 1, runStarted, runEnded, startBit, runCount)
  {
    runStarted, startBit, runCount := runStartedIn, startBitIn, runCountIn;
    runEnded := false;
    WordClear(raw, bufferIndex, bufferElement, false);
    if IsZero(bufferElement) && !runStarted {
      startBit := BitNumber(bufferIndex, startBitPosition);
      runCount := lastBitPosition - startBitPosition + 1;
      runStarted := true;
    } else if IsZero(bufferElement) && runStarted {
      runCount := runCount + BITS_PER_ARRAY;
    } else {
      runStarted, runEnded, startBit, runCount := CountClearBits(bufferElement, bufferIndex, startBitPosition,
          lastBitPosition, runStarted, startBit, runCount, raw, from);
    }
  }

  /** The bit by bit part of CountClearRun. */
  method CountClearBits(bufferElement: Word, bufferIndex: nat, startBitPosition: nat, lastBitPosition: nat,
      runStartedIn: bool, startBitIn: nat, runCountIn: nat, ghost raw: seq<bool>, ghost from: nat)
    returns (runStarted: bool, runEnded: bool, startBit: nat, runCount: nat)
    requires startBitPosition <= lastBitPosition < 32 && WordAt(raw, bufferIndex, bufferElement, false)
    requires RunScan(raw, from, 32 * bufferIndex + startBitPosition, runStartedIn, startBitIn, runCountIn)
    ensures RunOutcome(raw, from, 32 * bufferIndex + lastBitPosition + 1, runStarted, runEnded, startBit, runCount)
  {
    runStarted, startBit, runCount := runStartedIn, startBitIn, runCountIn;
    runEnded := false;
    var bitPosition := startBitPosition;
    while bitPosition <= lastBitPosition
      invariant startBitPosition <= bitPosition <= lastBitPosition + 1
      invariant RunScan(raw, from, 32 * bufferIndex + bitPosition, runStarted, startBit, runCount)
    {
      if !TestMask(bufferElement, bitPosition) {
        if !runStarted {
          startBit := BitNumber(bufferIndex, bitPosition);
          runStarted := true;
        }
        runCount := runCount + 1;
      } else if runStarted {
        runEnded := true;
        return;
      }
      bitPosition := bitPosition + 1;
    }
  }

  /** One pass that begins in the last word. */
  method OnlyWordClear(bufferElement: Word, lastBufferIndex: nat, startBitPosition: nat, lastBitPosition: nat,
      numToFind: nat, ghost raw: seq<bool>, ghost size: nat)
    returns (found: bool, startBit: nat)
    requires IsBitmap(raw, size) && lastBufferIndex == LastWord(size)
    requires startBitPosition <= lastBitPosition < 32 && size == 32 * lastBufferIndex + lastBitPosition + 1
    requires WordAt(raw, lastBufferIndex, bufferElement, false)
    ensures Least(raw, size, Needed(numToFind), 32 * lastBufferIndex + startBitPosition, false)
         == if found then startBit else NOT_FOUND
    ensures found ==> startBit < NOT_FOUND
  {
    var runStarted, runCount;
    ghost var from := 32 * lastBufferIndex + startBitPosition;
    found, runStarted, startBit, runCount := NumClearBitsFound(bufferElement, lastBufferIndex, numToFind,
      startBitPosition, lastBitPosition, false, NOT_FOUND, 0, raw, from);
    OneWordSearch(raw, size, Needed(numToFind), from, found, runStarted, startBit, runCount);
  }

  /** The end of one pass: the last word, entered with the state of the scan. */
  method FinalWordClear(bufferElement: Word, lastBufferIndex: nat, lastBitPosition: nat, numToFind: nat,
      runStarted: bool, startBitIn: nat, runCount: nat, ghost raw: seq<bool>, ghost size: nat, ghost from: nat)
    returns (found: bool, startBit: nat)
    requires IsBitmap(raw, size) && lastBufferIndex == LastWord(size) && from < 32 * lastBufferIndex
    requires lastBitPosition < 32 && size == 32 * lastBufferIndex + lastBitPosition + 1
    requires WordAt(raw, lastBufferIndex, bufferElement, false)
    requires Scanned(raw, Needed(numToFind), from, 32 * lastBufferIndex, runStarted, startBitIn, runCount)
    ensures Least(raw, size, Needed(numToFind), from, false) == if found then startBit else NOT_FOUND
    ensures found ==> startBit < NOT_FOUND
  {
    var nowStarted, nowCount;
    found, nowStarted, startBit, nowCount := NumClearBitsFound(bufferElement, lastBufferIndex, numToFind,
      0, lastBitPosition, runStarted, startBitIn, runCount, raw, from);
    FinishSearch(raw, size, Needed(numToFind), from, bufferElement, false, runStarted, startBitIn, runCount,
      found, nowStarted, startBit, nowCount);
  }

  /** Looks for a run of clear bits in one word, carrying the state of the scan in and out.
      `raw` holds the bits of the whole buffer, a bit being false where it belongs to such a run. */
  method NumClearBitsFound(bufferElement: Word, bufferIndex: nat, numToFind: nat, startBitPosition: nat,
      endBitPosition: nat, runStartedIn: bool, startBitIn: nat, runCountIn: nat, ghost raw: seq<bool>, ghost from: nat)
    returns (found: bool, runStarted: bool, startBit: nat, runCount: nat)
    requires startBitPosition <= endBitPosition < 32
    requires WordAt(raw, bufferIndex, bufferElement, false)
    requires runStartedIn ==> startBitPosition == 0
    requires Scanned(raw, Needed(numToFind), from, 32 * bufferIndex + startBitPosition, runStartedIn, startBitIn,
            runCountIn)
    ensures WordOutcome(raw, Needed(numToFind), from, 32 * bufferIndex + endBitPosition + 1,
              IsZero(bufferElement) && runStartedIn && endBitPosition < 31, startBitIn, runCountIn,
              found, runStarted, startBit, runCount)
  {
    runStarted, startBit, runCount := runStartedIn, startBitIn, runCountIn;
    ghost var n, pos := Needed(numToFind), 32 * bufferIndex + startBitPosition;
    WordClear(raw, bufferIndex, bufferElement, false);
    if IsZero(bufferElement) && !runStarted {
      ScanBlock(raw, n, from, pos, false, startBit, runCount, endBitPosition - startBitPosition + 1);
      startBit := BitNumber(bufferIndex, startBitPosition);
      runStarted := true;
      runCount := runCount + (endBitPosition - startBitPosition) + 1;
      found := runCount >= numToFind;
    } else if IsZero(bufferElement) && runStarted {
      if endBitPosition == 31 {
        ScanBlock(raw, n, from, pos, true, startBit, runCount, 32);
      }
      runCount := runCount + BITS_PER_ARRAY;
      found := runCount >= numToFind;
    } else {
      found, runStarted, startBit, runCount := ScanClearBits(bufferElement, bufferIndex, numToFind, startBitPosition,
          endBitPosition, runStarted, startBit, runCount, raw, from);
    }
  }

  /** The bit by bit part of NumClearBitsFound. */
  method ScanClearBits(bufferElement: Word, bufferIndex: nat, numToFind: nat, startBitPosition: nat,
      endBitPosition: nat, runStartedIn: bool, startBitIn: nat, runCountIn: nat, ghost raw: seq<bool>, ghost from: nat)
    returns (found: bool, runStarted: bool, startBit: nat, runCount: nat)
    requires startBitPosition <= endBitPosition < 32
    requires WordAt(raw, bufferIndex, bufferElement, false)
    requires Scanned(raw, Needed(numToFind), from, 32 * bufferIndex + startBitPosition, runStartedIn, startBitIn,
            runCountIn)
    ensures Outcome(raw, Needed(numToFind), from, 32 * bufferIndex + endBitPosition + 1, found, runStarted, startBit,
            runCount)
  {
    runStarted, startBit, runCount := runStartedIn, startBitIn, runCountIn;
    var bitNum := startBitPosition;
    while bitNum <= endBitPosition
      invariant startBitPosition <= bitNum <= endBitPosition + 1
      invariant Scanned(raw, Needed(numToFind), from, 32 * bufferIndex + bitNum, runStarted, startBit, runCount)
    {
      if !TestMask(bufferElement, bitNum) {
        ScanClear(raw, Needed(numToFind), from, 32 * bufferIndex + bitNum, runStarted, startBit, runCount);
        if !runStarted {
          startBit := BitNumber(bufferIndex, bitNum);
          runStarted := true;
        }
        runCount := runCount + 1;
        if runCount >= numToFind {
          return true, runStarted, startBit, runCount;
        }
      } else {
        ScanSet(raw, Needed(numToFind), from, 32 * bufferIndex + bitNum, runStarted, startBit, runCount);
        runCount := 0;
        runStarted := false;
      }
      bitNum := bitNum + 1;
    }
    found := false;
  }

  /** One pass that begins in the last word. */
  method OnlyWordSet(bufferElement: Word, lastBufferIndex: nat, startBitPosition: nat, lastBitPosition: nat,
      numToFind: nat, ghost raw: seq<bool>, ghost size: nat)
    returns (found: bool, startBit: nat)
    requires IsBitmap(raw, size) && lastBufferIndex == LastWord(size)
    requires startBitPosition <= lastBitPosition < 32 && size == 32 * lastBufferIndex + lastBitPosition + 1
    requires WordAt(raw, lastBufferIndex, bufferElement, true)
    ensures Least(raw, size, Needed(numToFind), 32 * lastBufferIndex + startBitPosition, false)
         == if found then startBit else NOT_FOUND
    ensures found ==> startBit < NOT_FOUND
  {
    var runStarted, runCount;
    ghost var from := 32 * lastBufferIndex + startBitPosition;
    found, runStarted, startBit, runCount := NumSetBitsFound(bufferElement, lastBufferIndex, numToFind,
      startBitPosition, lastBitPosition, false, NOT_FOUND, 0, raw, from);
    OneWordSearch(raw, size, Needed(numToFind), from, found, runStarted, startBit, runCount);
  }

  /** The end of one pass: the last word, entered with the state of the scan. */
  method FinalWordSet(bufferElement: Word, lastBufferIndex: nat, lastBitPosition: nat, numToFind: nat,
      runStarted: bool, startBitIn: nat, runCount: nat, ghost raw: seq<bool>, ghost size: nat, ghost from: nat)
    returns (found: bool, startBit: nat)
    requires IsBitmap(raw, size) && lastBufferIndex == LastWord(size) && from < 32 * lastBufferIndex
    requires lastBitPosition < 32 && size == 32 * lastBufferIndex + lastBitPosition + 1
    requires WordAt(raw, lastBufferIndex, bufferElement, true)
    requires Scanned(raw, Needed(numToFind), from, 32 * lastBufferIndex, runStarted, startBitIn, runCount)
    ensures Least(raw, size, Needed(numToFind), from, false) == if found then startBit else NOT_FOUND
    ensures found ==> startBit < NOT_FOUND
  {
    var nowStarted, nowCount;
    found, nowStarted, startBit, nowCount := NumSetBitsFound(bufferElement, lastBufferIndex, numToFind,
      0, lastBitPosition, runStarted, startBitIn, runCount, raw, from);
    FinishSearch(raw, size, Needed(numToFind), from, bufferElement, true, runStarted, startBitIn, runCount,
      found, nowStarted, startBit, nowCount);
  }

  /** Looks for a run of set bits in one word, carrying the state of the scan in and out.
      `raw` holds the bits of the whole buffer, a bit being false where it belongs to such a run. */
  method NumSetBitsFound(bufferElement: Word, bufferIndex: nat, numToFind: nat, startBitPosition: nat,
      endBitPosition: nat, runStartedIn: bool, startBitIn: nat, runCountIn: nat, ghost raw: seq<bool>, ghost from: nat)
    returns (found: bool, runStarted: bool, startBit: nat, runCount: nat)
    requires startBitPosition <= endBitPosition < 32
    requires WordAt(raw, bufferIndex, bufferElement, true)
    requires runStartedIn ==> startBitPosition == 0
    requires Scanned(raw, Needed(numToFind), from, 32 * bufferIndex + startBitPosition, runStartedIn, startBitIn,
            runCountIn)
    ensures WordOutcome(raw, Needed(numToFind), from, 32 * bufferIndex + endBitPosition + 1,
              IsAllOnes(bufferElement) && runStartedIn && endBitPosition < 31, startBitIn, runCountIn,
              found, runStarted, startBit, runCount)
  {
    runStarted, startBit, runCount := runStartedIn, startBitIn, runCountIn;
    ghost var n, pos := Needed(numToFind), 32 * bufferIndex + startBitPosition;
    WordClear(raw, bufferIndex, bufferElement, true);
    if IsAllOnes(bufferElement) && !runStarted {
      ScanBlock(raw, n, from, pos, false, startBit, runCount, endBitPosition - startBitPosition + 1);
      startBit := BitNumber(bufferIndex, startBitPosition);
      runStarted := true;
      runCount := runCount + (endBitPosition - startBitPosition) + 1;
      found := runCount >= numToFind;
    } else if IsAllOnes(bufferElement) && runStarted {
      if endBitPosition == 31 {
        ScanBlock(raw, n, from, pos, true, startBit, runCount, 32);
      }
      runCount := runCount + BITS_PER_ARRAY;
      found := runCount >= numToFind;
    } else {
      found, runStarted, startBit, runCount := ScanSetBits(bufferElement, bufferIndex, numToFind, startBitPosition,
          endBitPosition, runStarted, startBit, runCount, raw, from);
    }
  }

  /** The bit by bit part of NumSetBitsFound. */
  method ScanSetBits(bufferElement: Word, bufferIndex: nat, numToFind: nat, startBitPosition: nat, endBitPosition: nat,
      runStartedIn: bool, startBitIn: nat, runCountIn: nat, ghost raw: seq<bool>, ghost from: nat)
    returns (found: bool, runStarted: bool, startBit: nat, runCount: nat)
    requires startBitPosition <= endBitPosition < 32
    requires WordAt(raw, bufferIndex, bufferElement, true)
    requires Scanned(raw, Needed(numToFind), from, 32 * bufferIndex + startBitPosition, runStartedIn, startBitIn,
            runCountIn)
    ensures Outcome(raw, Needed(numToFind), from, 32 * bufferIndex + endBitPosition + 1, found, runStarted, startBit,
            runCount)
  {
    runStarted, startBit, runCount := runStartedIn, startBitIn, runCountIn;
    var bitNum := startBitPosition;
    while bitNum <= endBitPosition
      invariant startBitPosition <= bitNum <= endBitPosition + 1
      invariant Scanned(raw, Needed(numToFind), from, 32 * bufferIndex + bitNum, runStarted, startBit, runCount)
    {
      if TestMask(bufferElement, bitNum) {
        ScanClear(raw, Needed(numToFind), from, 32 * bufferIndex + bitNum, runStarted, startBit, runCount);
        if !runStarted {
          startBit := BitNumber(bufferIndex, bitNum);
          runStarted := true;
        }
        runCount := runCount + 1;
        if runCount >= numToFind {
          return true, runStarted, startBit, runCount;
        }
      } else {
        ScanSet(raw, Needed(numToFind), from, 32 * bufferIndex + bitNum, runStarted, startBit, runCount);
        runCount := 0;
        runStarted := false;
      }
      bitNum := bitNum + 1;
    }
    found := false;
  }

  method WordBitsClear(bufferElement: Word, startBitNumber: nat, lastBitNumber: nat) returns (uniform: bool)
    requires startBitNumber <= lastBitNumber < 32
    ensures uniform <==> forall j :: startBitNumber <= j <= lastBitNumber ==> !bufferElement[j]
  {
    var bitNum := startBitNumber;
    while bitNum <= lastBitNumber
      invariant startBitNumber <= bitNum <= lastBitNumber + 1
      invariant forall j :: startBitNumber <= j < bitNum ==> !bufferElement[j]
    {
      if TestMask(bufferElement, bitNum) {
        return false;
      }
      bitNum := bitNum + 1;
    }
    return true;
  }

  method WordBitsSet(bufferElement: Word, startBitNumber: nat, lastBitNumber: nat) returns (uniform: bool)
    requires startBitNumber <= lastBitNumber < 32
    ensures uniform <==> forall j :: startBitNumber <= j <= lastBitNumber ==> bufferElement[j]
  {
    var bitNum := startBitNumber;
    while bitNum <= lastBitNumber
      invariant startBitNumber <= bitNum <= lastBitNumber + 1
      invariant forall j :: startBitNumber <= j < bitNum ==> bufferElement[j]
    {
      if !TestMask(bufferElement, bitNum) {
        return false;
      }
      bitNum := bitNum + 1;
    }
    return true;
  }
}
