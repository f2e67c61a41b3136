/** A mutex as an object: the calls of one thread statement by statement, while other threads run between them. */
module MutexObject {
  import opened Mutex

  class KernelMutex {
    var threadid: nat
    var count: int
    /** What the system keeps, and where each thread stands. */
    var owner: nat
    var depth: nat
    var threads: seq<Pc>

    function Value(): State
      reads this
    {
      State(threadid, count, owner, depth, threads)
    }

    ghost predicate Valid()
      reads this
    {
      Inv(Value())
    }

    /** KeInitializeMutex */
    constructor (n: nat)
      ensures Valid() && Value() == Initial(n)
    {
      threadid, count, owner, depth, threads := 0, 0, 0, 0, seq(n, _ => Outside);
    }

    /** Another thread takes a step. */
    method Other(t: nat, step: Step)
      requires Valid() && t < |threads| && Enabled(Value(), step) && step.t != t
      modifies this
      ensures Valid() && |threads| == |old(threads)| && threads[t] == old(threads[t])
      ensures old(owner) == Id(t) ==> Value() == old(Value())
      ensures old(owner) != Id(t) ==> owner != Id(t)
    {
      NextKeeps(Value(), step);
      OthersWait(Value(), step);
      var s := Next(Value(), step).s;
      threadid, count, owner, depth, threads := s.threadid, s.count, s.owner, s.depth, s.threads;
    }

    method Others(t: nat)
      requires Valid() && t < |threads|
      modifies this
      ensures Valid() && |threads| == |old(threads)| && threads[t] == old(threads[t])
      ensures old(owner) == Id(t) ==> Value() == old(Value())
      ensures old(owner) != Id(t) ==> owner != Id(t)
    {
      var n: int := *;
      for k := 0 to if n < 0 then 0 else n
        invariant Valid() && |threads| == |old(threads)| && threads[t] == old(threads[t])
        invariant old(owner) == Id(t) ==> Value() == old(Value())
        invariant old(owner) != Id(t) ==> owner != Id(t)
      {
        var u: int := *;
        var which: int := *;
        if 0 <= u && u != t {
          var step := if which == 0 then Wait(u) else if which == 1 then Update(u) else Release(u);
          if Enabled(Value(), step) {
            Other(t, step);
          }
        }
      }
    }

    /** A granted wait and DdkUpdateMutex: the thread owns the mutex once more, in the system and in the shadow. */
    method WaitAndUpdate(t: nat)
      requires Valid() && Enabled(Value(), Wait(t))
      modifies this
      ensures Valid() && |threads| == |old(threads)| && threads[t].Outside?
      ensures owner == threadid == Id(t) && depth == count == old(depth) + 1
    {
      NextKeeps(Value(), Wait(t));
      owner, depth, threads := Id(t), depth + 1, threads[t := Granted];
      Others(t);
      NextKeeps(Value(), Update(t));
      if threadid != Id(t) {
        threadid, threads := Id(t), threads[t := Owned];
        Others(t);
        NextKeeps(Value(), Update(t));
        count, threads := 1, threads[t := Outside];
      } else {
        count, threads := count + 1, threads[t := Outside];
      }
    }

    /** KeReleaseMutex: for the owner it undoes one wait and returns zero exactly when that frees the mutex; for anybody
        else it returns one. */
    method ReleaseMutex(t: nat) returns (rc: int)
      requires Valid() && t < |threads| && threads[t].Outside?
      modifies this
      ensures Valid() && |threads| == |old(threads)| && threads[t].Outside?
      ensures old(owner) == Id(t) ==>
                && rc == (if old(depth) == 1 then 0 else 1) && depth == old(depth) - 1
                && owner == threadid == (if rc == 0 then 0 else Id(t)) && count == depth
      ensures old(owner) != Id(t) ==> rc == 1 && owner != Id(t)
    {
      rc := 1;
      Others(t);
      if threadid == Id(t) {
        NextKeeps(Value(), Release(t));
        count, threads := count - 1, threads[t := Decremented];
        Others(t);
        if count == 0 {
          NextKeeps(Value(), Release(t));
          threadid, threads := 0, threads[t := Cleared];
          rc := 0;
          Others(t);
        }
      }
      var released := ReleaseInSystem(t);
      if !released {
        return 1;
      }
    }

    /** The system's ReleaseMutex, which fails for a thread that is not the owner. */
    method ReleaseInSystem(t: nat) returns (ok: bool)
      requires Valid() && Enabled(Value(), Release(t))
      requires threads[t].Decremented? ==> count != 0
      requires threads[t].Outside? ==> owner != Id(t)
      modifies this`owner, this`depth, this`threads
      ensures Valid() && Value() == Next(old(Value()), Release(t)).s && ok == (old(owner) == Id(t))
    {
      NextKeeps(Value(), Release(t));
      ok := owner == Id(t) && depth > 0;
      if ok {
        if depth == 1 {
          owner := 0;
        }
        depth := depth - 1;
      }
      threads := threads[t := Outside];
    }
  }

  /** While a thread owns the mutex no step of another thread changes anything. */
  lemma OthersWait(s: State, step: Step)
    requires Inv(s) && Enabled(s, step)
    ensures s.owner != 0 && s.owner != Id(step.t) ==> Next(s, step).s == s
    ensures var s' := Next(s, step).s;
            && |s'.threads| == |s.threads|
            && (forall t :: 0 <= t < |s.threads| && t != step.t ==> s'.threads[t] == s.threads[t])
            && (s'.owner == s.owner || s'.owner == 0 || s'.owner == Id(step.t))
  {
    assert s.threads[step.t].Outside? ==> s.threads[step.t := Outside] == s.threads;
  }
}
