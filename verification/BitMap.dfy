/** The bitmap routines over a buffer of 32-bit words that is changed in place. */
module BitMap {
  // Every contract speaks of `Bits()`, the buffer as a plain sequence of bits with its padding; the searches
  // are tied to `BitSearch.Find`.

  import opened BitWords
  import opened BitSearch
  import opened BitScan

  class RtlBitMap {
    var Buffer: array<Word>
    var SizeOfBitMap: nat

    ghost predicate Valid()
      reads this
    {
      1 <= SizeOfBitMap <= NOT_FOUND && SizeOfBitMap <= 32 * Buffer.Length
    }

    /** Every bit of the buffer, padding included. */
    ghost function Bits(): (raw: seq<bool>)
      reads this, Buffer
    {
      Raw(Buffer[..])
    }

    /** `raw` holds the bits of the buffer, complemented when `flip`. */
    ghost predicate Packs(raw: seq<bool>, flip: bool)
      reads this, Buffer
    {
      |raw| == 32 * Buffer.Length && forall w :: 0 <= w < Buffer.Length ==> WordAt(raw, w, Buffer[w], flip)
    }

    lemma BitsPacked()
      ensures Packs(Bits(), false) && Packs(Invert(Bits()), true)
    {
      RawWords(Buffer[..]);
      InvertedWords(Buffer[..]);
      forall w | 0 <= w < Buffer.Length
        ensures WordAt(Bits(), w, Buffer[w], false) && WordAt(Invert(Bits()), w, Buffer[w], true)
      {
        assert Buffer[w] == Buffer[..][w];
      }
    }

    /** RtlInitializeBitMap: the header adopts the buffer as it is. */
    constructor Initialize(buffer: array<Word>, size: nat)
      requires 1 <= size <= NOT_FOUND && size <= 32 * buffer.Length
      ensures Valid() && Buffer == buffer && SizeOfBitMap == size
    {
      Buffer := buffer;
      SizeOfBitMap := size;
    }

    method ClearBit(bitNumber: nat)
      requires Valid() && bitNumber < SizeOfBitMap
      modifies Buffer
      ensures Bits() == Fill(old(Bits()), bitNumber, 1, false)
    {
      var arrayIndex := ArrayIndex(bitNumber);
      Buffer[arrayIndex] := ClearBitsInRange(Buffer[arrayIndex], bitNumber, bitNumber);
      RawFill(old(Buffer[..]), Buffer[..], bitNumber, 1, false);
    }

    method SetBit(bitNumber: nat)
      requires Valid() && bitNumber < SizeOfBitMap
      modifies Buffer
      ensures Bits() == Fill(old(Bits()), bitNumber, 1, true)
    {
      var arrayIndex := ArrayIndex(bitNumber);
      Buffer[arrayIndex] := SetBitsInRange(Buffer[arrayIndex], bitNumber, bitNumber);
      RawFill(old(Buffer[..]), Buffer[..], bitNumber, 1, true);
    }

    method TestBit(bitNumber: nat) returns (isSet: bool)
      requires Valid() && bitNumber < SizeOfBitMap
      ensures isSet == Bits()[bitNumber]
    {
      var arrayIndex := ArrayIndex(bitNumber);
      isSet := TestMask(Buffer[arrayIndex], bitNumber);
      BitsPacked();
      assert WordAt(Bits(), arrayIndex, Buffer[arrayIndex], false);
    }

    method ClearAllBits()
      requires Valid()
      modifies Buffer
      ensures Bits() == Fill(old(Bits()), 0, SizeOfBitMap, false)
    {
      var lastBufferIndex := ArrayIndex(SizeOfBitMap - 1);
      var lastBitNumber := BitPosition(SizeOfBitMap - 1, lastBufferIndex);
      if lastBufferIndex > 0 {
        ClearArrayElements(0, lastBufferIndex - 1);
      }
      Buffer[lastBufferIndex] := ClearBitsInRange(Buffer[lastBufferIndex], 0, lastBitNumber);
      RawFill(old(Buffer[..]), Buffer[..], 0, SizeOfBitMap, false);
    }

    method SetAllBits()
      requires Valid()
      modifies Buffer
      ensures Bits() == Fill(old(Bits()), 0, SizeOfBitMap, true)
    {
      var lastBufferIndex := ArrayIndex(SizeOfBitMap - 1);
      var lastBitNumber := BitPosition(SizeOfBitMap - 1, lastBufferIndex);
      if lastBufferIndex > 0 {
        SetArrayElements(0, lastBufferIndex - 1);
      }
      Buffer[lastBufferIndex] := SetBitsInRange(Buffer[lastBufferIndex], 0, lastBitNumber);
      RawFill(old(Buffer[..]), Buffer[..], 0, SizeOfBitMap, true);
    }

    method ClearBits(startingIndex: nat, number: nat)
      requires Valid() && startingIndex + number <= SizeOfBitMap
      modifies Buffer
      ensures Bits() == Fill(old(Bits()), startingIndex, number, false)
    {
      if number != 0 {
        var startBufferIndex := ArrayIndex(startingIndex);
        var startBitPosition := BitPosition(startingIndex, startBufferIndex);
        var lastBit := startingIndex + number - 1;
        var lastBufferIndex := ArrayIndex(lastBit);
        var lastBitPosition := BitPosition(lastBit, lastBufferIndex);
        if startBufferIndex == lastBufferIndex {
          Buffer[lastBufferIndex] := ClearBitsInRange(Buffer[lastBufferIndex], startBitPosition, lastBitPosition);
        } else {
          Buffer[startBufferIndex] := ClearBitsInRange(Buffer[startBufferIndex], startBitPosition, BITS_PER_ARRAY - 1);
          ClearArrayElements(startBufferIndex + 1, lastBufferIndex - 1);
          Buffer[lastBufferIndex] := ClearBitsInRange(Buffer[lastBufferIndex], 0, lastBitPosition);
        }
      }
      RawFill(old(Buffer[..]), Buffer[..], startingIndex, number, false);
    }

    method SetBits(startingIndex: nat, number: nat)
      requires Valid() && startingIndex + number <= SizeOfBitMap
      modifies Buffer
      ensures Bits() == Fill(old(Bits()), startingIndex, number, true)
    {
      if number != 0 {
        var startBufferIndex := ArrayIndex(startingIndex);
        var startBitPosition := BitPosition(startingIndex, startBufferIndex);
        var lastBit := startingIndex + number - 1;
        var lastBufferIndex := ArrayIndex(lastBit);
        var lastBitPosition := BitPosition(lastBit, lastBufferIndex);
        if startBufferIndex == lastBufferIndex {
          Buffer[lastBufferIndex] := SetBitsInRange(Buffer[lastBufferIndex], startBitPosition, lastBitPosition);
        } else {
          Buffer[startBufferIndex] := SetBitsInRange(Buffer[startBufferIndex], startBitPosition, BITS_PER_ARRAY - 1);
          SetArrayElements(startBufferIndex + 1, lastBufferIndex - 1);
          Buffer[lastBufferIndex] := SetBitsInRange(Buffer[lastBufferIndex], 0, lastBitPosition);
        }
      }
      RawFill(old(Buffer[..]), Buffer[..], startingIndex, number, true);
    }

    method ClearArrayElements(startingIndex: nat, endIndex: nat)
      requires endIndex < Buffer.Length && startingIndex <= endIndex + 1
      modifies Buffer
      ensures forall w :: 0 <= w < Buffer.Length ==>
                Buffer[w] == if startingIndex <= w <= endIndex then ZERO else old(Buffer[w])
    {
      var bufferIndex := startingIndex;
      while bufferIndex <= endIndex
        invariant startingIndex <= bufferIndex <= endIndex + 1
        invariant forall w :: 0 <= w < Buffer.Length ==>
                    Buffer[w] == if startingIndex <= w < bufferIndex then ZERO else old(Buffer[w])
      {
        Buffer[bufferIndex] := ZERO;
        bufferIndex := bufferIndex + 1;
      }
    }

    method SetArrayElements(startingIndex: nat, endIndex: nat)
      requires endIndex < Buffer.Length && startingIndex <= endIndex + 1
      modifies Buffer
      ensures forall w :: 0 <= w < Buffer.Length ==>
                Buffer[w] == if startingIndex <= w <= endIndex then ALL_BITS_SET else old(Buffer[w])
    {
      var bufferIndex := startingIndex;
      while bufferIndex <= endIndex
        invariant startingIndex <= bufferIndex <= endIndex + 1
        invariant forall w :: 0 <= w < Buffer.Length ==>
                    Buffer[w] == if startingIndex <= w < bufferIndex then ALL_BITS_SET else old(Buffer[w])
      {
        Buffer[bufferIndex] := ALL_BITS_SET;
        bufferIndex := bufferIndex + 1;
      }
    }

    /** RtlFindNextForwardRunClear up to the last word. */
    method CountClearWords(startBufferIndex: nat, startBitPosition: nat, lastBufferIndex: nat, ghost raw: seq<bool>,
        ghost from: nat)
      returns (runStarted: bool, runEnded: bool, startBit: nat, runCount: nat)
      requires startBufferIndex < lastBufferIndex < Buffer.Length && Packs(raw, false)
      requires startBitPosition < 32 && from == 32 * startBufferIndex + startBitPosition
      ensures RunOutcome(raw, from, 32 * lastBufferIndex, runStarted, runEnded, startBit, runCount)
    {
      runStarted, runEnded, startBit, runCount := CountClearRun(Buffer[startBufferIndex], startBufferIndex,
        startBitPosition, BITS_PER_ARRAY - 1, false, 0, 0, raw, from);
      var bufferIndex := startBufferIndex + 1;
      while !runEnded && bufferIndex < lastBufferIndex
        invariant startBufferIndex < bufferIndex <= lastBufferIndex
        invariant RunOutcome(raw, from, 32 * bufferIndex, runStarted, runEnded, startBit, runCount)
        decreases lastBufferIndex - bufferIndex
      {
        runStarted, runEnded, startBit, runCount := CountClearRun(Buffer[bufferIndex], bufferIndex,
          0, BITS_PER_ARRAY - 1, runStarted, startBit, runCount, raw, from);
        bufferIndex := bufferIndex + 1;
      }
    }

    /** RtlFindNextForwardRunClear; RtlFindFirstRunClear is the call with `fromIndex == 0`. */
    method FindNextForwardRunClear(fromIndex: nat) returns (runCount: nat, startingRunIndex: nat)
      requires Valid() && fromIndex < SizeOfBitMap
      ensures RunReport(Bits(), SizeOfBitMap, fromIndex, startingRunIndex, runCount)
    {
      var startBufferIndex := ArrayIndex(fromIndex);
      var startBitPosition := BitPosition(fromIndex, startBufferIndex);
      var lastBufferIndex := ArrayIndex(SizeOfBitMap - 1);
      var lastBitPosition := BitPosition(SizeOfBitMap - 1, lastBufferIndex);
      ghost var raw := Bits();
      BitsPacked();
      if startBufferIndex == lastBufferIndex {
        startingRunIndex, runCount := CountOnlyWord(Buffer[startBufferIndex], lastBufferIndex,
          startBitPosition, lastBitPosition, raw, SizeOfBitMap);
        return;
      }
      var runStarted, runEnded;
      runStarted, runEnded, startingRunIndex, runCount :=
        CountClearWords(startBufferIndex, startBitPosition, lastBufferIndex, raw, fromIndex);
      if runEnded {
        EndedReport(raw, SizeOfBitMap, fromIndex, 32 * lastBufferIndex, startingRunIndex, runCount);
        return;
      }
      startingRunIndex, runCount := CountLastWord(Buffer[lastBufferIndex], lastBufferIndex, lastBitPosition,
        runStarted, startingRunIndex, runCount, raw, SizeOfBitMap, fromIndex);
    }

    /** RtlAreBitsClear; an empty range, or one that leaves the bitmap, is answered FALSE. */
    method AreBitsClear(startingIndex: nat, length: nat) returns (uniform: bool)
      requires Valid() && startingIndex + length <= NOT_FOUND
      ensures uniform <==> length != 0 && InRange(Bits(), SizeOfBitMap, length, startingIndex)
    {
      if length == 0 || SizeOfBitMap < startingIndex + length {
        return false;
      }
      ghost var raw := Bits();
      BitsPacked();
      var startBufferIndex := ArrayIndex(startingIndex);
      var startBitNumber := BitPosition(startingIndex, startBufferIndex);
      var lastBufferIndex := ArrayIndex(startingIndex + length - 1);
      var lastBitNumber := BitPosition(startingIndex + length - 1, lastBufferIndex);
      if startBufferIndex == lastBufferIndex {
        uniform := WordBitsClear(Buffer[lastBufferIndex], startBitNumber, lastBitNumber);
        if !uniform {
          NotClear(raw, Buffer[lastBufferIndex], lastBufferIndex, startBitNumber, lastBitNumber, startingIndex,
              length, false);
        }
        return;
      }
      uniform := WordBitsClear(Buffer[startBufferIndex], startBitNumber, BITS_PER_ARRAY - 1);
      if !uniform {
        NotClear(raw, Buffer[startBufferIndex], startBufferIndex, startBitNumber, BITS_PER_ARRAY - 1, startingIndex,
            length, false);
        return;
      }
      assert ClearRun(raw, startingIndex, 32 * (startBufferIndex + 1) - startingIndex);
      var bufferNum := startBufferIndex + 1;
      while bufferNum < lastBufferIndex
        invariant startBufferIndex < bufferNum <= lastBufferIndex
        invariant ClearRun(raw, startingIndex, 32 * bufferNum - startingIndex)
      {
        if !IsZero(Buffer[bufferNum]) {
          NotClear(raw, Buffer[bufferNum], bufferNum, 0, 31, startingIndex, length, false);
          return false;
        }
        bufferNum := bufferNum + 1;
      }
      uniform := WordBitsClear(Buffer[lastBufferIndex], 0, lastBitNumber);
      if !uniform {
        NotClear(raw, Buffer[lastBufferIndex], lastBufferIndex, 0, lastBitNumber, startingIndex, length, false);
      }
    }

    /** RtlAreBitsSet; an empty range, or one that leaves the bitmap, is answered FALSE. */
    method AreBitsSet(startingIndex: nat, length: nat) returns (uniform: bool)
      requires Valid() && startingIndex + length <= NOT_FOUND
      ensures uniform <==> length != 0 && InRange(Invert(Bits()), SizeOfBitMap, length, startingIndex)
    {
      if length == 0 || SizeOfBitMap < startingIndex + length {
        return false;
      }
      ghost var raw := Invert(Bits());
      BitsPacked();
      var startBufferIndex := ArrayIndex(startingIndex);
      var startBitNumber := BitPosition(startingIndex, startBufferIndex);
      var lastBufferIndex := ArrayIndex(startingIndex + length - 1);
      var lastBitNumber := BitPosition(startingIndex + length - 1, lastBufferIndex);
      if startBufferIndex == lastBufferIndex {
        uniform := WordBitsSet(Buffer[lastBufferIndex], startBitNumber, lastBitNumber);
        if !uniform {
          NotClear(raw, Buffer[lastBufferIndex], lastBufferIndex, startBitNumber, lastBitNumber, startingIndex,
              length, true);
        }
        return;
      }
      uniform := WordBitsSet(Buffer[startBufferIndex], startBitNumber, BITS_PER_ARRAY - 1);
      if !uniform {
        NotClear(raw, Buffer[startBufferIndex], startBufferIndex, startBitNumber, BITS_PER_ARRAY - 1, startingIndex,
            length, true);
        return;
      }
      assert ClearRun(raw, startingIndex, 32 * (startBufferIndex + 1) - startingIndex);
      var bufferNum := startBufferIndex + 1;
      while bufferNum < lastBufferIndex
        invariant startBufferIndex < bufferNum <= lastBufferIndex
        invariant ClearRun(raw, startingIndex, 32 * bufferNum - startingIndex)
      {
        if !IsAllOnes(Buffer[bufferNum]) {
          NotClear(raw, Buffer[bufferNum], bufferNum, 0, 31, startingIndex, length, true);
          return false;
        }
        bufferNum := bufferNum + 1;
      }
      uniform := WordBitsSet(Buffer[lastBufferIndex], 0, lastBitNumber);
      if !uniform {
        NotClear(raw, Buffer[lastBufferIndex], lastBufferIndex, 0, lastBitNumber, startingIndex, length, true);
      }
    }

    /** The words between the first and the last of one pass. */
    method NumClearWords(firstBufferIndex: nat, lastBufferIndex: nat, numberToFind: nat,
        runStartedIn: bool, startBitIn: nat, runCountIn: nat, ghost raw: seq<bool>, ghost from: nat)
      returns (found: bool, runStarted: bool, startBit: nat, runCount: nat)
      requires firstBufferIndex <= lastBufferIndex < Buffer.Length && Packs(raw, false)
      requires Scanned(raw, Needed(numberToFind), from, 32 * firstBufferIndex, runStartedIn, startBitIn, runCountIn)
      ensures Outcome(raw, Needed(numberToFind), from, 32 * lastBufferIndex, found, runStarted, startBit, runCount)
    {
      runStarted, startBit, runCount := runStartedIn, startBitIn, runCountIn;
      var bufferIndex := firstBufferIndex;
      while bufferIndex < lastBufferIndex
        invariant firstBufferIndex <= bufferIndex <= lastBufferIndex
        invariant Scanned(raw, Needed(numberToFind), from, 32 * bufferIndex, runStarted, startBit, runCount)
      {
        found, runStarted, startBit, runCount := NumClearBitsFound(Buffer[bufferIndex], bufferIndex, numberToFind,
          0, BITS_PER_ARRAY - 1, runStarted, startBit, runCount, raw, from);
        if found {
          return;
        }
        bufferIndex := bufferIndex + 1;
      }
      found := false;
    }

    /** The first word of one pass and the words before the last. */
    method ClearBeforeLast(startBufferIndex: nat, startBitPosition: nat, lastBufferIndex: nat, numberToFind: nat,
        ghost raw: seq<bool>)
      returns (found: bool, runStarted: bool, startBit: nat, runCount: nat)
      requires startBufferIndex < lastBufferIndex < Buffer.Length && startBitPosition < 32 && Packs(raw, false)
      ensures Outcome(raw, Needed(numberToFind), 32 * startBufferIndex + startBitPosition, 32 * lastBufferIndex,
                found, runStarted, startBit, runCount)
    {
      ghost var from := 32 * startBufferIndex + startBitPosition;
      found, runStarted, startBit, runCount := NumClearBitsFound(Buffer[startBufferIndex], startBufferIndex,
          numberToFind, startBitPosition, BITS_PER_ARRAY - 1, false, NOT_FOUND, 0, raw, from);
      if !found {
        found, runStarted, startBit, runCount := NumClearWords(startBufferIndex + 1, lastBufferIndex, numberToFind,
          runStarted, startBit, runCount, raw, from);
      }
    }

    /** One pass of RtlFindClearBits: from the given position to the end of the bitmap. */
    method SearchClear(startBufferIndex: nat, startBitPosition: nat, numberToFind: nat, ghost raw: seq<bool>)
      returns (found: bool, startBit: nat)
      requires Valid() && startBitPosition < 32 && 32 * startBufferIndex + startBitPosition < SizeOfBitMap
      requires Packs(raw, false)
      ensures (if found then startBit else NOT_FOUND)
           == Least(raw, SizeOfBitMap, Needed(numberToFind), 32 * startBufferIndex + startBitPosition, false)
      ensures found ==> startBit < NOT_FOUND
    {
      var lastBufferIndex := ArrayIndex(SizeOfBitMap - 1);
      var lastBitPosition := BitPosition(SizeOfBitMap - 1, lastBufferIndex);
      ghost var n, from := Needed(numberToFind), 32 * startBufferIndex + startBitPosition;
      if startBufferIndex == lastBufferIndex {
        found, startBit := OnlyWordClear(Buffer[startBufferIndex], lastBufferIndex, startBitPosition, lastBitPosition,
          numberToFind, raw, SizeOfBitMap);
        return;
      }
      var runStarted, runCount;
      found, runStarted, startBit, runCount :=
        ClearBeforeLast(startBufferIndex, startBitPosition, lastBufferIndex, numberToFind, raw);
      if found {
        FirstRunLeast(raw, SizeOfBitMap, n, from, 32 * lastBufferIndex, startBit);
        return;
      }
      found, startBit := FinalWordClear(Buffer[lastBufferIndex], lastBufferIndex, lastBitPosition, numberToFind,
        runStarted, startBit, runCount, raw, SizeOfBitMap, from);
    }

    /** RtlFindClearBits */
    method FindClearBits(numberToFind: nat, hintIndex: nat) returns (startBit: nat)
      requires Valid()
      ensures startBit == Find(Bits(), SizeOfBitMap, numberToFind, hintIndex, false)
    {
      if numberToFind < SizeOfBitMap {
        var startBufferIndex := ArrayIndex(hintIndex);
        var startBitPosition := BitPosition(hintIndex, startBufferIndex);
        var loopCount := 2;
        if SizeOfBitMap <= hintIndex || numberToFind > SizeOfBitMap - hintIndex {
          startBufferIndex, startBitPosition := 0, 0;
          loopCount := loopCount - 1;
        }
        ghost var raw, n := Bits(), Needed(numberToFind);
        BitsPacked();
        ghost var first := if loopCount == 2 then Least(raw, SizeOfBitMap, n, hintIndex, false) else NOT_FOUND;
        while loopCount != 0
          invariant 0 <= loopCount <= 2
          invariant loopCount == 2 ==> 32 * startBufferIndex + startBitPosition == hintIndex < SizeOfBitMap
          invariant loopCount == 2 ==> startBitPosition < 32
          invariant loopCount < 2 ==> startBufferIndex == 0 && startBitPosition == 0 && first == NOT_FOUND
          invariant loopCount == 0 ==> Least(raw, SizeOfBitMap, n, 0, false) == NOT_FOUND
          decreases loopCount
        {
          var found, bit := SearchClear(startBufferIndex, startBitPosition, numberToFind, raw);
          if found {
            return bit;
          }
          startBufferIndex, startBitPosition := 0, 0;
          loopCount := loopCount - 1;
        }
      }
      return NOT_FOUND;
    }

    /** The words between the first and the last of one pass. */
    method NumSetWords(firstBufferIndex: nat, lastBufferIndex: nat, numberToFind: nat,
        runStartedIn: bool, startBitIn: nat, runCountIn: nat, ghost raw: seq<bool>, ghost from: nat)
      returns (found: bool, runStarted: bool, startBit: nat, runCount: nat)
      requires firstBufferIndex <= lastBufferIndex < Buffer.Length && Packs(raw, true)
      requires Scanned(raw, Needed(numberToFind), from, 32 * firstBufferIndex, runStartedIn, startBitIn, runCountIn)
      ensures Outcome(raw, Needed(numberToFind), from, 32 * lastBufferIndex, found, runStarted, startBit, runCount)
    {
      runStarted, startBit, runCount := runStartedIn, startBitIn, runCountIn;
      var bufferIndex := firstBufferIndex;
      while bufferIndex < lastBufferIndex
        invariant firstBufferIndex <= bufferIndex <= lastBufferIndex
        invariant Scanned(raw, Needed(numberToFind), from, 32 * bufferIndex, runStarted, startBit, runCount)
      {
        found, runStarted, startBit, runCount := NumSetBitsFound(Buffer[bufferIndex], bufferIndex, numberToFind,
          0, BITS_PER_ARRAY - 1, runStarted, startBit, runCount, raw, from);
        if found {
          return;
        }
        bufferIndex := bufferIndex + 1;
      }
      found := false;
    }

    /** The first word of one pass and the words before the last. */
    method SetBeforeLast(startBufferIndex: nat, startBitPosition: nat, lastBufferIndex: nat, numberToFind: nat,
        ghost raw: seq<bool>)
      returns (found: bool, runStarted: bool, startBit: nat, runCount: nat)
      requires startBufferIndex < lastBufferIndex < Buffer.Length && startBitPosition < 32 && Packs(raw, true)
      ensures Outcome(raw, Needed(numberToFind), 32 * startBufferIndex + startBitPosition, 32 * lastBufferIndex,
                found, runStarted, startBit, runCount)
    {
      ghost var from := 32 * startBufferIndex + startBitPosition;
      found, runStarted, startBit, runCount := NumSetBitsFound(Buffer[startBufferIndex], startBufferIndex, numberToFind,
        startBitPosition, BITS_PER_ARRAY - 1, false, NOT_FOUND, 0, raw, from);
      if !found {
        found, runStarted, startBit, runCount := NumSetWords(startBufferIndex + 1, lastBufferIndex, numberToFind,
          runStarted, startBit, runCount, raw, from);
      }
    }

    /** One pass of RtlFindSetBits: from the given position to the end of the bitmap. */
    method SearchSet(startBufferIndex: nat, startBitPosition: nat, numberToFind: nat, ghost raw: seq<bool>)
      returns (found: bool, startBit: nat)
      requires Valid() && startBitPosition < 32 && 32 * startBufferIndex + startBitPosition < SizeOfBitMap
      requires Packs(raw, true)
      ensures (if found then startBit else NOT_FOUND)
           == Least(raw, SizeOfBitMap, Needed(numberToFind), 32 * startBufferIndex + startBitPosition, false)
      ensures found ==> startBit < NOT_FOUND
    {
      var lastBufferIndex := ArrayIndex(SizeOfBitMap - 1);
      var lastBitPosition := BitPosition(SizeOfBitMap - 1, lastBufferIndex);
      ghost var n, from := Needed(numberToFind), 32 * startBufferIndex + startBitPosition;
      if startBufferIndex == lastBufferIndex {
        found, startBit := OnlyWordSet(Buffer[startBufferIndex], lastBufferIndex, startBitPosition, lastBitPosition,
          numberToFind, raw, SizeOfBitMap);
        return;
      }
      var runStarted, runCount;
      found, runStarted, startBit, runCount :=
        SetBeforeLast(startBufferIndex, startBitPosition, lastBufferIndex, numberToFind, raw);
      if found {
        FirstRunLeast(raw, SizeOfBitMap, n, from, 32 * lastBufferIndex, startBit);
        return;
      }
      found, startBit := FinalWordSet(Buffer[lastBufferIndex], lastBufferIndex, lastBitPosition, numberToFind,
        runStarted, startBit, runCount, raw, SizeOfBitMap, from);
    }

    /** RtlFindSetBits */
    method FindSetBits(numberToFind: nat, hintIndex: nat) returns (startBit: nat)
      requires Valid()
      ensures startBit == Find(Invert(Bits()), SizeOfBitMap, numberToFind, hintIndex, false)
    {
      if numberToFind < SizeOfBitMap {
        var startBufferIndex := ArrayIndex(hintIndex);
        var startBitPosition := BitPosition(hintIndex, startBufferIndex);
        var loopCount := 2;
        if SizeOfBitMap <= hintIndex || numberToFind > SizeOfBitMap - hintIndex {
          startBufferIndex, startBitPosition := 0, 0;
          loopCount := loopCount - 1;
        }
        ghost var raw, n := Invert(Bits()), Needed(numberToFind);
        BitsPacked();
        ghost var first := if loopCount == 2 then Least(raw, SizeOfBitMap, n, hintIndex, false) else NOT_FOUND;
        while loopCount != 0
          invariant 0 <= loopCount <= 2
          invariant loopCount == 2 ==> 32 * startBufferIndex + startBitPosition == hintIndex < SizeOfBitMap
          invariant loopCount == 2 ==> startBitPosition < 32
          invariant loopCount < 2 ==> startBufferIndex == 0 && startBitPosition == 0 && first == NOT_FOUND
          invariant loopCount == 0 ==> Least(raw, SizeOfBitMap, n, 0, false) == NOT_FOUND
          decreases loopCount
        {
          var found, bit := SearchSet(startBufferIndex, startBitPosition, numberToFind, raw);
          if found {
            return bit;
          }
          startBufferIndex, startBitPosition := 0, 0;
          loopCount := loopCount - 1;
        }
      }
      return NOT_FOUND;
    }

    /** RtlNumberOfSetBits */
    method NumberOfSetBits() returns (numberOfSetBits: nat)
      requires Valid()
      ensures numberOfSetBits == CountTrue(Bits()[..SizeOfBitMap])
    {
      numberOfSetBits := 0;
      var lastBufferIndex := ArrayIndex(SizeOfBitMap - 1);
      var lastBitPosition := BitPosition(SizeOfBitMap - 1, lastBufferIndex);
      ghost var raw := Bits();
      BitsPacked();
      var bufferIndex := 0;
      while bufferIndex < lastBufferIndex
        invariant 0 <= bufferIndex <= lastBufferIndex
        invariant numberOfSetBits == CountTrue(raw[..32 * bufferIndex])
      {
        var bits := CountWord(Buffer[bufferIndex], BITS_PER_ARRAY, raw, bufferIndex);
        numberOfSetBits := numberOfSetBits + bits;
        bufferIndex := bufferIndex + 1;
      }
      var bits := CountSetBits(Buffer[lastBufferIndex], lastBitPosition + 1, raw, lastBufferIndex);
      numberOfSetBits := numberOfSetBits + bits;
    }

    /** RtlFindClearBitsAndSet; the assertion of RtlSetBits stops it when the run found
        leaves the bitmap. */
    method FindClearBitsAndSet(numberToFind: nat, hintIndex: nat) returns (asserted: bool, startBitIndex: nat)
      requires Valid()
      modifies Buffer
      ensures startBitIndex == Find(old(Bits()), SizeOfBitMap, numberToFind, hintIndex, false)
      ensures asserted == (startBitIndex != NOT_FOUND && startBitIndex + numberToFind > SizeOfBitMap)
      ensures Bits() == if startBitIndex == NOT_FOUND || asserted then old(Bits())
                        else Fill(old(Bits()), startBitIndex, numberToFind, true)
    {
      asserted := false;
      startBitIndex := FindClearBits(numberToFind, hintIndex);
      if startBitIndex != NOT_FOUND {
        asserted := startBitIndex + numberToFind > SizeOfBitMap;
        if !asserted {
          SetBits(startBitIndex, numberToFind);
        }
      }
    }

    /** RtlFindSetBitsAndClear; the assertion of RtlClearBits stops it when the run found
        leaves the bitmap. */
    method FindSetBitsAndClear(numberToFind: nat, hintIndex: nat) returns (asserted: bool, startBitIndex: nat)
      requires Valid()
      modifies Buffer
      ensures startBitIndex == Find(old(Invert(Bits())), SizeOfBitMap, numberToFind, hintIndex, false)
      ensures asserted == (startBitIndex != NOT_FOUND && startBitIndex + numberToFind > SizeOfBitMap)
      ensures Bits() == if startBitIndex == NOT_FOUND || asserted then old(Bits())
                        else Fill(old(Bits()), startBitIndex, numberToFind, false)
    {
      asserted := false;
      startBitIndex := FindSetBits(numberToFind, hintIndex);
      if startBitIndex != NOT_FOUND {
        asserted := startBitIndex + numberToFind > SizeOfBitMap;
        if !asserted {
          ClearBits(startBitIndex, numberToFind);
        }
      }
    }
  }
}
