/** The lock table as an object: GetSRWLock statement by statement, while any other calls run between any two of
    its atomic steps. */
module SpinLockTable {
  import opened SpinLock

  /** The slot of a word, a failure, or still waiting for the exclusive lock. */
  datatype Result = Slot(block: nat, offset: nat) | Fail(why: Failure) | Blocked

  class Table {
    var lockcount: nat
    /** The blocks of `lockv` that are allocated. */
    var blocks: set<nat>
    var words: seq<nat>
    var held: bool
    /** Where each call stands. */
    var calls: seq<Pc>

    function Value(): State
      reads this
    {
      State(lockcount, blocks, words, held, calls)
    }

    ghost predicate Valid()
      reads this
    {
      Inv(Value())
    }

    constructor (n: nat, which: seq<nat>)
      requires forall c :: 0 <= c < |which| ==> which[c] < n
      ensures Valid() && Value() == Initial(n, which)
    {
      lockcount, blocks, words, held := 1, {}, seq(n, _ => 0), false;
      calls := seq(|which|, c requires 0 <= c < |which| => Called(which[c]));
      new;
      InitialHolds(n, which);
    }

    /** Another call takes a step. */
    method Other(d: nat, memory: bool)
      requires Valid() && d < |calls|
      modifies this
      ensures Valid() && Grows(old(Value()), Value())
      ensures |calls| == |old(calls)| && forall e :: 0 <= e < |calls| && e != d ==> calls[e] == old(calls[e])
    {
      StepKeeps(Value(), d, memory);
      StepMovesOne(Value(), d, memory);
      var s := Step(Value(), d, memory);
      lockcount, blocks, words, held, calls := s.lockcount, s.blocks, s.words, s.held, s.calls;
    }

    /** Other calls take any number of steps. */
    method Others(c: nat)
      requires Valid() && c < |calls|
      modifies this
      ensures Valid() && |calls| == |old(calls)| && calls[c] == old(calls[c]) && Grows(old(Value()), Value())
    {
      var n: int := *;
      for k := 0 to if n < 0 then 0 else n
        invariant Valid() && |calls| == |old(calls)| && calls[c] == old(calls[c]) && Grows(old(Value()), Value())
      {
        var d: int := *;
        var memory: bool := *;
        if 0 <= d < |calls| && d != c {
          Other(d, memory);
        }
      }
    }

    /** AcquireSRWLockExclusive: `patience` bounds how often the call tries. */
    method Acquire(c: nat, patience: nat) returns (ok: bool)
      requires Valid() && c < |calls| && calls[c].Unassigned?
      modifies this
      ensures Valid() && |calls| == |old(calls)| && Grows(old(Value()), Value())
      ensures calls[c] == if ok then Locked(old(calls[c]).w) else old(calls[c])
      ensures !ok && patience > 0 ==> held
    {
      ok := false;
      var tries := 0;
      while !ok && tries < patience
        invariant Valid() && |calls| == |old(calls)| && Grows(old(Value()), Value())
        invariant calls[c] == if ok then Locked(old(calls[c]).w) else old(calls[c])
        invariant !ok && tries > 0 ==> held
        decreases patience - tries, !ok
      {
        Others(c);
        StepKeeps(Value(), c, false);
        if !held {
          calls := calls[c := Locked(calls[c].w)];
          held, ok := true, true;
        }
        tries := tries + 1;
      }
    }

    /** Inside the lock: the index the word has got meanwhile, or the next one. */
    method Assign(c: nat, memory: bool) returns (failed: bool)
      requires Valid() && c < |calls| && calls[c].Locked?
      modifies this
      ensures Valid() && |calls| == |old(calls)|
      ensures calls[c].w == old(calls[c]).w && old(calls[c]).w < |old(words)|
      ensures var index, next := old(words)[old(calls[c]).w], old(lockcount);
              if !failed then calls[c] == Leaving(calls[c].w, if index != 0 then index else next)
              else index == 0 && calls[c].Failed? && calls[c].inside
                   && calls[c].why == (if next / 4096 >= 4096 then TooMany else NoMemory)
                   && (next / 4096 < 4096 ==> !memory && next == lockcount && next / 4096 !in blocks)
    {
      var w := calls[c].w;
      StepKeeps(Value(), c, memory);
      var i := words[w];
      if i != 0 {
        calls := calls[c := Leaving(w, i)];
        return false;
      }
      i := lockcount;
      if i / 4096 >= 4096 {
        calls := calls[c := Failed(w, TooMany, true)];
        return true;
      }
      calls := calls[c := Chosen(w, i)];
      Others(c);
      StepKeeps(Value(), c, memory);
      if i / 4096 !in blocks {
        if !memory {
          calls := calls[c := Failed(w, NoMemory, true)];
          return true;
        }
        blocks := blocks + {i / 4096};
      }
      calls := calls[c := Allocated(w, i)];
      Publish(c);
      return false;
    }

    /** `lockcount++`, then the exchange that publishes the index. */
    method Publish(c: nat)
      requires Valid() && c < |calls| && calls[c].Allocated?
      modifies this
      ensures Valid() && |calls| == |old(calls)| && calls[c] == Leaving(old(calls[c]).w, old(calls[c]).i)
    {
      var w, i := calls[c].w, calls[c].i;
      Others(c);
      StepKeeps(Value(), c, false);
      lockcount := lockcount + 1;
      calls := calls[c := Bumped(w, i)];
      Others(c);
      StepKeeps(Value(), c, false);
      words := words[w := i];
      calls := calls[c := Leaving(w, i)];
    }

    /** GetSRWLock */
    method GetSRWLock(c: nat, patience: nat, memory: bool) returns (r: Result)
      requires Valid() && c < |calls| && calls[c].Called?
      modifies this
      ensures Valid() && |calls| == |old(calls)| && r != Fail(Uninitialized)
      ensures r.Slot? ==> var w := old(calls[c]).w;
                          w < |words| && words[w] != 0 && r == Slot(words[w] / 4096, words[w] % 4096)
                          && calls[c] == Returned(w, words[w]) && r.block in blocks
      ensures r.Blocked? ==> calls[c] == Unassigned(old(calls[c]).w) && (patience > 0 ==> held)
      ensures r.Fail? ==> calls[c] == Failed(old(calls[c]).w, r.why, true)
      ensures r == Fail(TooMany) ==> lockcount / 4096 >= 4096
      ensures r == Fail(NoMemory) ==> !memory && lockcount / 4096 !in blocks
      ensures !r.Slot? ==> var w := old(calls[c]).w; w < |old(words)| && old(words)[w] == 0
    {
      var w := calls[c].w;
      StepKeeps(Value(), c, memory);
      var i := words[w];
      calls := calls[c := if i == 0 then Unassigned(w) else Testing(w, i)];
      if i == 0 {
        var ok := Acquire(c, patience);
        if !ok {
          return Blocked;
        }
        Others(c);
        var failed := Assign(c, memory);
        if failed {
          assert CallOk(Value(), calls[c]);
          return Fail(calls[c].why);
        }
        i := calls[c].i;
        Others(c);
        Release(c);
      }
      Others(c);
      r := Test(c);
    }

    method Release(c: nat)
      requires Valid() && c < |calls| && calls[c].Leaving?
      modifies this
      ensures Valid() && |calls| == |old(calls)| && calls[c] == Testing(old(calls[c]).w, old(calls[c]).i)
    {
      StepKeeps(Value(), c, false);
      held := false;
      calls := calls[c := Testing(calls[c].w, calls[c].i)];
    }

    /** The final tests: lockcount, then the block.  Neither "Uninitialized" failure can be reached. */
    method Test(c: nat) returns (r: Result)
      requires Valid() && c < |calls| && calls[c].Testing?
      modifies this
      ensures Valid() && |calls| == |old(calls)|
      ensures var w, i := old(calls[c]).w, old(calls[c]).i;
              w < |words| && i == words[w] != 0 && r == Slot(i / 4096, i % 4096)
              && calls[c] == Returned(w, i) && r.block in blocks
    {
      var w, i := calls[c].w, calls[c].i;
      StepKeeps(Value(), c, false);
      assert WordOk(Value(), w);
      if i >= lockcount {
        assert false;
      }
      calls := calls[c := Tested(w, i)];
      Others(c);
      StepKeeps(Value(), c, false);
      assert WordOk(Value(), w);
      if i / 4096 !in blocks {
        assert false;
      }
      calls := calls[c := Returned(w, i)];
      return Slot(i / 4096, i % 4096);
    }
  }

  lemma StepMovesOne(s: State, c: nat, memory: bool)
    requires c < |s.calls| && s.calls[c].w < |s.words|
    ensures var calls := Step(s, c, memory).calls;
            |calls| == |s.calls| && forall d :: 0 <= d < |calls| && d != c ==> calls[d] == s.calls[d]
  {
  }
}
