module IrpCounter {
  // The counter CurrentLocation as the signed character it is: when completion ends, and how far calls get.

  import opened Common

  // ---- Completing

  /** CurrentLocation at the k-th test of the completion loop, from `c` before it. */
  function Counter(c: int, k: nat): int {
    if k == 0 then c else Char(Counter(c, k - 1) + 1)
  }

  lemma {:induction false} CounterIsChar(c: int, k: nat)
    requires IsChar(c)
    ensures IsChar(Counter(c, k))
  {
    if k > 0 {
      CounterIsChar(c, k - 1);
    }
  }

  lemma {:induction false} CounterCounts(c: int, k: nat)
    requires IsChar(c) && c + k <= 127
    ensures Counter(c, k) == c + k
  {
    if k > 0 {
      CounterCounts(c, k - 1);
    }
  }

  /** Wherever the request stands, some test of the completion loop ends it exactly with at most 125 locations: with
      more, every test at every turn lets the loop go on past the end of the stack. */
  lemma CompletionEndsExactlyWhen(stackCount: int, c: int)
    requires 0 <= stackCount <= 127 && IsChar(c) && c <= stackCount + 1
    ensures (exists k: nat :: k >= 1 && Counter(c, k) > stackCount + 1) <==> stackCount <= 125
  {
    if stackCount <= 125 {
      CounterCounts(c, stackCount + 2 - c);
      assert Counter(c, stackCount + 2 - c) > stackCount + 1;
    }
    forall k: nat | stackCount > 125 && k >= 1 ensures Counter(c, k) <= stackCount + 1 {
      CounterIsChar(c, k);
    }
  }

  /** Then it is the first test past the last location. */
  lemma CompletionEndsAt(stackCount: int, c: int, k: nat)
    requires 0 <= stackCount <= 125 && 1 <= c <= stackCount + 1 && 1 <= k <= stackCount + 2 - c
    ensures Counter(c, k) > stackCount + 1 <==> k == stackCount + 2 - c
  {
    CounterCounts(c, k);
  }

  // ---- Any calls and completions

  /** CurrentLocation of a new packet. */
  function NewCounter(stackCount: int): int {
    Char(stackCount + 1)
  }

  /** CurrentLocation after any mix of turns of the completion loop and calls. */
  function Moved(c: int, ups: seq<bool>): int {
    if ups == [] then c
    else Char(Moved(c, ups[..|ups| - 1]) + if ups[|ups| - 1] then 1 else -1)
  }

  lemma {:induction false} MovedIsChar(c: int, ups: seq<bool>)
    requires IsChar(c)
    ensures IsChar(Moved(c, ups))
  {
    if ups != [] {
      MovedIsChar(c, ups[..|ups| - 1]);
    }
  }

  /** Whatever is done with a packet, completing it is refused by the test for multiple completions at some time
      exactly with at most 125 locations. */
  lemma BugCheckFiresExactlyWhen(stackCount: int)
    requires 0 <= stackCount <= 127
    ensures (exists ups: seq<bool> :: Moved(NewCounter(stackCount), ups) > stackCount + 1) <==> stackCount <= 125
  {
    var c := NewCounter(stackCount);
    if stackCount <= 125 {
      assert [true][..0] == [];
      assert Moved(c, [true]) > stackCount + 1;
    }
    forall ups: seq<bool> | stackCount > 125 ensures Moved(c, ups) <= stackCount + 1 {
      MovedIsChar(c, ups);
    }
  }

  // ---- Calling

  /** CurrentLocation that the k-th call of IofCallDriver finds in a new packet. */
  function CallCounter(stackSize: int, k: nat): int {
    if k == 0 then NewCounter(stackSize) else Char(CallCounter(stackSize, k - 1) - 1)
  }

  lemma {:induction false} CallsCount(stackSize: int, k: nat)
    requires 0 <= stackSize <= 126 && k <= stackSize
    ensures CallCounter(stackSize, k) == stackSize + 1 - k
  {
    if k > 0 {
      CallsCount(stackSize, k - 1);
    }
  }

  /** The test of IofCallDriver. */
  predicate CallPasses(stackSize: int, k: nat) {
    CallCounter(stackSize, k) > 0
  }

  /** It passes for each of the first calls. */
  ghost predicate CallsPass(stackSize: int, calls: nat) {
    forall k: nat :: k < calls ==> CallPasses(stackSize, k)
  }

  /** The test of IofCallDriver passes for each of up to StackSize calls exactly with at most 126 locations: with
      127 the counter of a new packet is negative already. */
  lemma CallsPassExactlyWhen(stackSize: int, calls: nat)
    requires 1 <= calls <= stackSize <= 127
    ensures CallsPass(stackSize, calls) <==> stackSize <= 126
    ensures stackSize == 127 ==> CallCounter(stackSize, 0) == -128
  {
    if stackSize <= 126 {
      forall k: nat | k < calls ensures CallPasses(stackSize, k) {
        CallsCount(stackSize, k);
      }
    } else {
      assert !CallPasses(stackSize, 0);
    }
  }

  /** The test runs before the counter moves: it passes for one call more than there are locations. */
  lemma CallPastTheEndPasses(stackSize: int, k: nat)
    requires 0 <= stackSize <= 126 && k <= stackSize + 1
    ensures CallCounter(stackSize, k) > 0 <==> k <= stackSize
    ensures CallCounter(stackSize, stackSize) == 1
  {
    CallsCount(stackSize, stackSize);
    if k <= stackSize {
      CallsCount(stackSize, k);
    }
  }
}
