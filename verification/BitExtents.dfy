/** A bitmap used as an allocator: any run of RtlFindClearBitsAndSet and RtlClearBits of live extents. */
module BitExtents {
  import opened BitWords
  import opened BitSearch
  import BitMap
  import BitScan

  datatype Extent = Extent(start: nat, length: nat)

  datatype Op =
    | Allocate(number: nat, hint: nat)   // RtlFindClearBitsAndSet
    | Free(index: nat)                   // RtlClearBits of the extent with this index

  datatype State = State(raw: seq<bool>, live: seq<Extent>)

  ghost predicate Covers(e: Extent, k: nat) {
    e.start <= k < e.start + e.length
  }

  /** The extents cover exactly the set bits of the bitmap, no bit twice. */
  ghost predicate Partition(raw: seq<bool>, size: nat, live: seq<Extent>)
    requires size <= |raw|
  {
    && (forall i :: 0 <= i < |live| ==> live[i].start + live[i].length <= size)
    && (forall i, j, k: nat :: 0 <= i < j < |live| && Covers(live[i], k) ==> !Covers(live[j], k))
    && (forall i, k: nat :: 0 <= i < |live| && Covers(live[i], k) && k < size ==> raw[k])
    && (forall k: nat :: k < size && raw[k] ==> exists i :: 0 <= i < |live| && Covers(live[i], k))
  }

  /** No padding, only one word, or a padding bit of the last word that is set. */
  ghost predicate SafePadding(raw: seq<bool>, size: nat)
    requires IsBitmap(raw, size)
  {
    size % 32 == 0 || LastWord(size) == 0 || exists k :: size <= k < 32 * LastWord(size) + 32 && raw[k]
  }

  ghost function TotalLength(live: seq<Extent>): nat {
    if live == [] then 0 else TotalLength(live[..|live| - 1]) + live[|live| - 1].length
  }

  ghost predicate Sound(size: nat, padding: seq<bool>, s: State) {
    && IsBitmap(s.raw, size)
    && s.raw[size..] == padding
    && Partition(s.raw, size, s.live)
    && CountTrue(s.raw[..size]) == TotalLength(s.live)
  }

  /** The search answers a run that leaves the bitmap, and the assertion of RtlSetBits fires. */
  ghost predicate Asserts(size: nat, s: State, op: Op)
    requires IsBitmap(s.raw, size)
  {
    op.Allocate? &&
    var start := Find(s.raw, size, op.number, op.hint, false);
    start != NOT_FOUND && start + op.number > size
  }

  /** An operation whose assertion fires changes nothing. */
  ghost function Step(size: nat, s: State, op: Op): State
    requires IsBitmap(s.raw, size)
  {
    match op
    case Allocate(number, hint) =>
      var start := Find(s.raw, size, number, hint, false);
      if start == NOT_FOUND || Asserts(size, s, op) then s
      else State(Fill(s.raw, start, number, true), s.live + [Extent(start, number)])
    case Free(i) =>
      if i < |s.live| then State(Fill(s.raw, s.live[i].start, s.live[i].length, false), s.live[..i] + s.live[i + 1..])
      else s
  }

  ghost function Run(size: nat, s: State, ops: seq<Op>): State
    requires IsBitmap(s.raw, size)
    decreases |ops|
  {
    if ops == [] then s else Run(size, Step(size, s, ops[0]), ops[1..])
  }

  /** The assertion fires at no operation of a run. */
  ghost predicate NeverAsserts(size: nat, s: State, ops: seq<Op>)
    requires IsBitmap(s.raw, size)
    decreases |ops|
  {
    ops == [] || (!Asserts(size, s, ops[0]) && NeverAsserts(size, Step(size, s, ops[0]), ops[1..]))
  }

  // ---- Counting

  lemma {:induction false} CountUpdate(bits: seq<bool>, k: nat, v: bool)
    requires k < |bits|
    ensures CountTrue(bits[k := v]) == CountTrue(bits) - (if bits[k] then 1 else 0) + if v then 1 else 0
  {
    var n := |bits| - 1;
    if k == n {
      assert bits[k := v][..n] == bits[..n];
    } else {
      CountUpdate(bits[..n], k, v);
      assert bits[k := v][..n] == bits[..n][k := v];
    }
  }

  lemma {:induction false} CountFill(raw: seq<bool>, size: nat, start: nat, n: nat, v: bool)
    requires start + n <= size <= |raw|
    requires forall k :: start <= k < start + n ==> raw[k] == !v
    ensures CountTrue(Fill(raw, start, n, v)[..size]) == if v then CountTrue(raw[..size]) + n
            else CountTrue(raw[..size]) - n
  {
    if n == 0 {
      assert Fill(raw, start, n, v) == raw;
    } else {
      CountFill(raw, size, start, n - 1, v);
      var before := Fill(raw, start, n - 1, v)[..size];
      assert Fill(raw, start, n, v)[..size] == before[start + n - 1 := v];
      CountUpdate(before, start + n - 1, v);
    }
  }

  lemma {:induction false} TotalRemove(live: seq<Extent>, i: nat)
    requires i < |live|
    ensures TotalLength(live[..i] + live[i + 1..]) == TotalLength(live) - live[i].length
  {
    var n := |live| - 1;
    var rest := live[..i] + live[i + 1..];
    if i == n {
      assert rest == live[..n];
    } else {
      TotalRemove(live[..n], i);
      assert rest[..n - 1] == live[..n][..i] + live[..n][i + 1..];
      assert rest[n - 1] == live[n];
    }
  }

  // ---- One step

  /** With safe padding no search answers a run that leaves the bitmap. */
  lemma SafePaddingNeverAsserts(size: nat, s: State, op: Op)
    requires IsBitmap(s.raw, size) && SafePadding(s.raw, size)
    ensures !Asserts(size, s, op)
  {
    if op.Allocate? && op.number < size {
      assert TailSafe(s.raw, size);
      SafeTailSearch(s.raw, size, op.number, op.hint);
      LeastMeaning(s.raw, size, BitScan.Needed(op.number), op.hint, true);
      LeastMeaning(s.raw, size, BitScan.Needed(op.number), 0, true);
    }
  }

  /** A run found that stays inside the bitmap is clear. */
  lemma FoundIsClear(raw: seq<bool>, size: nat, number: nat, hint: nat)
    requires IsBitmap(raw, size)
    ensures var start := Find(raw, size, number, hint, false);
            start != NOT_FOUND && start + number <= size ==> InRange(raw, size, number, start)
  {
    if number < size {
      LeastMeaning(raw, size, BitScan.Needed(number), hint, false);
      LeastMeaning(raw, size, BitScan.Needed(number), 0, false);
    }
  }

  lemma AllocatePartition(raw: seq<bool>, size: nat, live: seq<Extent>, e: Extent)
    requires size <= |raw| && Partition(raw, size, live) && InRange(raw, size, e.length, e.start)
    ensures Partition(Fill(raw, e.start, e.length, true), size, live + [e])
  {
    var raw', live' := Fill(raw, e.start, e.length, true), live + [e];
    forall k: nat | k < size && raw'[k] ensures exists i :: 0 <= i < |live'| && Covers(live'[i], k) {
      if Covers(e, k) {
        assert Covers(live'[|live|], k);
      } else {
        var i :| 0 <= i < |live| && Covers(live[i], k);
        assert Covers(live'[i], k);
      }
    }
    forall i, j, k: nat | 0 <= i < j < |live'| && Covers(live'[i], k) ensures !Covers(live'[j], k) {
      assert Covers(live[i], k) && raw[k];
    }
  }

  lemma AllocateSound(size: nat, padding: seq<bool>, s: State, start: nat, number: nat)
    requires Sound(size, padding, s) && InRange(s.raw, size, number, start)
    ensures Sound(size, padding, State(Fill(s.raw, start, number, true), s.live + [Extent(start, number)]))
  {
    var raw, live := Fill(s.raw, start, number, true), s.live + [Extent(start, number)];
    AllocatePartition(s.raw, size, s.live, Extent(start, number));
    CountFill(s.raw, size, start, number, true);
    assert live[..|live| - 1] == s.live;
    assert raw[size..] == s.raw[size..];
  }

  lemma FreePartition(raw: seq<bool>, size: nat, live: seq<Extent>, i: nat)
    requires size <= |raw| && Partition(raw, size, live) && i < |live|
    ensures Partition(Fill(raw, live[i].start, live[i].length, false), size, live[..i] + live[i + 1..])
  {
    var e := live[i];
    var raw', live' := Fill(raw, e.start, e.length, false), live[..i] + live[i + 1..];
    assert forall m :: 0 <= m < |live'| ==> live'[m] == live[if m < i then m else m + 1];
    forall m, k: nat | 0 <= m < |live'| && Covers(live'[m], k) && k < size ensures raw'[k] {
      var was := if m < i then m else m + 1;
      assert Covers(live[was], k) && !Covers(e, k);
    }
    forall k: nat | k < size && raw'[k] ensures exists m :: 0 <= m < |live'| && Covers(live'[m], k) {
      var was :| 0 <= was < |live| && Covers(live[was], k);
      var m := if was < i then was else was - 1;
      assert live'[m] == live[was];
    }
  }

  lemma FreeSound(size: nat, padding: seq<bool>, s: State, i: nat)
    requires Sound(size, padding, s) && i < |s.live|
    ensures Sound(size, padding, State(Fill(s.raw, s.live[i].start, s.live[i].length, false),
            s.live[..i] + s.live[i + 1..]))
  {
    var e := s.live[i];
    var raw := Fill(s.raw, e.start, e.length, false);
    forall k | e.start <= k < e.start + e.length ensures s.raw[k] {
      assert Covers(s.live[i], k);
    }
    FreePartition(s.raw, size, s.live, i);
    CountFill(s.raw, size, e.start, e.length, false);
    TotalRemove(s.live, i);
    assert raw[size..] == s.raw[size..];
  }

  lemma StepSound(size: nat, padding: seq<bool>, s: State, op: Op)
    requires Sound(size, padding, s)
    ensures Sound(size, padding, Step(size, s, op))
  {
    match op
    case Allocate(number, hint) =>
      FoundIsClear(s.raw, size, number, hint);
      var start := Find(s.raw, size, number, hint, false);
      if start != NOT_FOUND && start + number <= size {
        AllocateSound(size, padding, s, start, number);
      }
    case Free(i) =>
      if i < |s.live| {
        FreeSound(size, padding, s, i);
      }
  }

  // ---- Runs

  /** Over every run from an all-clear bitmap: live extents stay in range and pairwise disjoint, the set bits are
      exactly their union, the padding never changes and the number of set bits is the sum of their lengths. */
  lemma {:induction false} RunSound(size: nat, s: State, ops: seq<Op>)
    requires IsBitmap(s.raw, size) && Sound(size, s.raw[size..], s)
    ensures Sound(size, s.raw[size..], Run(size, s, ops))
    decreases |ops|
  {
    if ops != [] {
      StepSound(size, s.raw[size..], s, ops[0]);
      RunSound(size, Step(size, s, ops[0]), ops[1..]);
    }
  }

  /** Safe padding stays safe while the bits behind the bitmap stay. */
  lemma PaddingStays(raw: seq<bool>, raw': seq<bool>, size: nat)
    requires IsBitmap(raw, size) && IsBitmap(raw', size) && SafePadding(raw, size)
    requires |raw'| == |raw| && raw'[size..] == raw[size..]
    ensures SafePadding(raw', size)
  {
    if size % 32 != 0 && LastWord(size) != 0 {
      var k :| size <= k < 32 * LastWord(size) + 32 && raw[k];
      assert raw'[k] == raw'[size..][k - size] == raw[size..][k - size];
    }
  }

  lemma {:induction false} SafeRun(size: nat, s: State, ops: seq<Op>)
    requires IsBitmap(s.raw, size) && Sound(size, s.raw[size..], s) && SafePadding(s.raw, size)
    ensures NeverAsserts(size, s, ops)
    decreases |ops|
  {
    if ops != [] {
      var next := Step(size, s, ops[0]);
      SafePaddingNeverAsserts(size, s, ops[0]);
      StepSound(size, s.raw[size..], s, ops[0]);
      PaddingStays(s.raw, next.raw, size);
      SafeRun(size, next, ops[1..]);
    }
  }

  /** From an all-clear bitmap the assertion fires in no run exactly when there is no padding, only one word, or a
      padding bit of the last word that is set. */
  lemma AssertionNeverFiresExactlyWhen(raw: seq<bool>, size: nat)
    requires IsBitmap(raw, size) && ClearRun(raw, 0, size)
    ensures (forall ops: seq<Op> :: NeverAsserts(size, State(raw, []), ops)) <==> SafePadding(raw, size)
  {
    var s := State(raw, []);
    if SafePadding(raw, size) {
      InitiallySound(raw, size);
      forall ops: seq<Op> ensures NeverAsserts(size, s, ops) {
        SafeRun(size, s, ops);
      }
    } else {
      UnsafeRunAsserts(raw, size);
    }
  }

  /** On any other all-clear bitmap two bits taken at its start and a request for all but one bit. */
  lemma UnsafeRunAsserts(raw: seq<bool>, size: nat)
    requires IsBitmap(raw, size) && ClearRun(raw, 0, size) && !SafePadding(raw, size)
    ensures !NeverAsserts(size, State(raw, []), [Allocate(2, 0), Allocate(size - 1, 1)])
  {
    var s, ops := State(raw, []), [Allocate(2, 0), Allocate(size - 1, 1)];
    assert Accepts(raw, size, 2, 0, false);
    LeastUnique(raw, size, 2, 0, false, 0);
    var next := Step(size, s, ops[0]);
    assert next.raw == Fill(raw, 0, 2, true);
    StartAfterTwo(next.raw, 32 * LastWord(size));
    assert LastWordClear(next.raw, size) && !TailSafe(next.raw, size);
    UnsafeTailSearch(next.raw, size, 2);
    assert Asserts(size, next, ops[1]);
    assert ops[1..][0] == ops[1];
  }

  lemma {:induction false} StartAfterTwo(raw: seq<bool>, end: nat)
    requires 2 <= end <= |raw| && raw[1] && ClearRun(raw, 2, end - 2)
    ensures RunStart(raw, end) == 2
  {
    if end > 2 {
      StartAfterTwo(raw, end - 1);
    }
  }

  lemma {:induction false} RunAppend(size: nat, s: State, ops: seq<Op>, op: Op)
    requires IsBitmap(s.raw, size)
    ensures IsBitmap(Run(size, s, ops).raw, size)
    ensures Run(size, s, ops + [op]) == Step(size, Run(size, s, ops), op)
    ensures NeverAsserts(size, s, ops + [op]) <==> NeverAsserts(size, s, ops) && !Asserts(size, Run(size, s, ops), op)
    decreases |ops|
  {
    if ops == [] {
      assert (ops + [op])[1..] == [];
    } else {
      assert (ops + [op])[1..] == ops[1..] + [op];
      RunAppend(size, Step(size, s, ops[0]), ops[1..], op);
    }
  }

  lemma {:induction false} CountClear(bits: seq<bool>)
    requires forall k :: 0 <= k < |bits| ==> !bits[k]
    ensures CountTrue(bits) == 0
  {
    if bits != [] {
      CountClear(bits[..|bits| - 1]);
    }
  }

  /** The bitmap a driver starts from is sound, with no extents. */
  lemma InitiallySound(raw: seq<bool>, size: nat)
    requires IsBitmap(raw, size) && ClearRun(raw, 0, size)
    ensures Sound(size, raw[size..], State(raw, []))
  {
    CountClear(raw[..size]);
  }

  /** Performs one operation on a real bitmap, and tells whether its assertion fired. */
  method PerformOne(bitmap: BitMap.RtlBitMap, live: seq<Extent>, ghost padding: seq<bool>, op: Op)
    returns (asserted: bool, live': seq<Extent>)
    requires bitmap.Valid() && Sound(bitmap.SizeOfBitMap, padding, State(bitmap.Bits(), live))
    modifies bitmap.Buffer
    ensures State(bitmap.Bits(), live') == Step(bitmap.SizeOfBitMap, State(old(bitmap.Bits()), live), op)
    ensures Sound(bitmap.SizeOfBitMap, padding, State(bitmap.Bits(), live'))
    ensures asserted == Asserts(bitmap.SizeOfBitMap, State(old(bitmap.Bits()), live), op)
  {
    ghost var size, s := bitmap.SizeOfBitMap, State(bitmap.Bits(), live);
    StepSound(size, padding, s, op);
    asserted, live' := false, live;
    match op {
      case Allocate(number, hint) =>
        var start;
        asserted, start := bitmap.FindClearBitsAndSet(number, hint);
        if start != NOT_FOUND && !asserted {
          live' := live + [Extent(start, number)];
        }
      case Free(index) =>
        if index < |live| {
          bitmap.ClearBits(live[index].start, live[index].length);
          live' := live[..index] + live[index + 1..];
        }
    }
    assert State(bitmap.Bits(), live') == Step(size, s, op);
  }

  /** Performs a run on a real bitmap up to an operation whose assertion fires: the buffer follows `Run`,
      RtlNumberOfSetBits answers the total length of the live extents, and with safe padding the run is performed
      to its end. */
  method Perform(bitmap: BitMap.RtlBitMap, ops: seq<Op>) returns (performed: nat, live: seq<Extent>, setBits: nat)
    requires bitmap.Valid() && ClearRun(bitmap.Bits(), 0, bitmap.SizeOfBitMap)
    modifies bitmap.Buffer
    ensures performed <= |ops|
    ensures NeverAsserts(bitmap.SizeOfBitMap, State(old(bitmap.Bits()), []), ops[..performed])
    ensures State(bitmap.Bits(), live) == Run(bitmap.SizeOfBitMap, State(old(bitmap.Bits()), []), ops[..performed])
    ensures performed < |ops| ==> Asserts(bitmap.SizeOfBitMap, State(bitmap.Bits(), live), ops[performed])
    ensures SafePadding(old(bitmap.Bits()), bitmap.SizeOfBitMap) ==> performed == |ops|
    ensures setBits == TotalLength(live)
  {
    ghost var size, first := bitmap.SizeOfBitMap, bitmap.Bits();
    ghost var padding := first[size..];
    InitiallySound(first, size);
    live, performed := [], 0;
    var asserted := false;
    while performed < |ops| && !asserted
      invariant performed <= |ops| && Sound(size, padding, State(bitmap.Bits(), live))
      invariant NeverAsserts(size, State(first, []), ops[..performed])
      invariant State(bitmap.Bits(), live) == Run(size, State(first, []), ops[..performed])
      invariant asserted ==> performed < |ops| && Asserts(size, State(bitmap.Bits(), live), ops[performed])
      decreases |ops| - performed, !asserted
    {
      RunAppend(size, State(first, []), ops[..performed], ops[performed]);
      assert ops[..performed + 1] == ops[..performed] + [ops[performed]];
      asserted, live := PerformOne(bitmap, live, padding, ops[performed]);
      if !asserted {
        performed := performed + 1;
      }
    }
    if SafePadding(first, size) {
      if asserted {
        RunAppend(size, State(first, []), ops[..performed], ops[performed]);
        SafeRun(size, State(first, []), ops[..performed] + [ops[performed]]);
      }
    }
    setBits := bitmap.NumberOfSetBits();
  }

  /** RtlFindSetBits answers what RtlFindClearBits answers on the word-wise complement. */
  lemma SetSearchIsClearSearch(words: seq<Word>, flipped: seq<Word>, size: nat, number: nat, hint: nat)
    requires |flipped| == |words| && IsBitmap(Raw(words), size)
    requires forall w, j :: 0 <= w < |words| && 0 <= j < 32 ==> flipped[w][j] == !words[w][j]
    ensures Find(Invert(Raw(words)), size, number, hint, false) == Find(Raw(flipped), size, number, hint, false)
  {
    RawComplement(words, flipped);
  }
}
