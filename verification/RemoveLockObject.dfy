/** The remove lock as an object: the calls of one thread, statement by statement, while any other
    threads run between any two of their atomic steps. */
module RemoveLockObject {
  import opened RemoveLock

  datatype NtStatus = Success | DeletePending

  class Lock {
    var ioCount: int
    var removed: bool
    var removeEvent: bool
    /** Where each acquisition stands. */
    var holds: seq<Pc>

    function Value(): State
      reads this
    {
      State(ioCount, removed, removeEvent, holds)
    }

    ghost predicate Valid()
      reads this
    {
      Inv(Value())
    }

    /** IoInitializeRemoveLockEx */
    constructor (n: nat)
      ensures Valid() && Value() == Initial(n)
    {
      ioCount, removed, removeEvent := 1, false, false;
      holds := seq(n, _ => Outside);
      new;
      InitialHolds(n);
    }

    /** Other acquisitions take any number of steps. */
    method Others(i: nat)
      requires Valid() && i < |holds|
      modifies this
      ensures Valid() && |holds| == |old(holds)| && holds[i] == old(holds[i]) && (old(removed) ==> removed)
    {
      var n: int := *;
      for k := 0 to if n < 0 then 0 else n
        invariant Valid() && |holds| == |old(holds)| && holds[i] == old(holds[i]) && (old(removed) ==> removed)
      {
        var j: int := *;
        var remove: bool := *;
        if 0 <= j < |holds| && j != i {
          Other(Move(j, remove));
        }
      }
    }

    method Other(m: Move)
      requires Valid() && m.i < |holds|
      modifies this
      ensures Valid() && Value() == Step(old(Value()), m) && (old(removed) ==> removed)
      ensures |holds| == |old(holds)| && forall i :: 0 <= i < |holds| && i != m.i ==> holds[i] == old(holds[i])
    {
      StepKeeps(Value(), m);
      StepMovesOne(Value(), m);
      var s := Step(Value(), m);
      ioCount, removed, removeEvent, holds := s.ioCount, s.removed, s.event, s.holds;
    }

    /** InterlockedDecrement, and KeSetEvent if it reached zero. */
    method Leave(i: nat)
      requires Valid() && i < |holds| && (holds[i].Refused? || holds[i].Held?)
      modifies this
      ensures Valid() && |holds| == |old(holds)| && holds[i].Outside? && (old(removed) ==> removed)
      ensures old(ioCount) == 1 ==> removeEvent
    {
      ghost var s := Value();
      DecrementKeeps(s, i);
      ioCount := ioCount - 1;
      var zero := ioCount == 0;
      holds := holds[i := if zero then Signalling else Outside];
      assert Value() == Decrement(s, i);
      Others(i);
      if zero {
        StepKeeps(Value(), Move(i, false));
        removeEvent := true;
        holds := holds[i := Outside];
      }
    }

    /** IoAcquireRemoveLockEx */
    method AcquireRemoveLock(i: nat) returns (status: NtStatus)
      requires Valid() && i < |holds| && holds[i].Outside?
      modifies this
      ensures Valid() && |holds| == |old(holds)|
      ensures holds[i] == if status == Success then Held else Outside
      ensures status == DeletePending ==> removed
      ensures old(removed) ==> status == DeletePending
    {
      Others(i);
      StepKeeps(Value(), Move(i, false));
      ioCount := ioCount + 1;
      holds := holds[i := Entered];
      Others(i);
      StepKeeps(Value(), Move(i, false));
      if removed {
        holds := holds[i := Refused];
        Others(i);
        Leave(i);
        return DeletePending;
      }
      holds := holds[i := Held];
      return Success;
    }

    /** IoReleaseRemoveLockEx; `at` is the state in which it decrements the count. */
    method ReleaseRemoveLock(i: nat) returns (ghost at: State)
      requires Valid() && i < |holds| && holds[i].Held?
      modifies this
      ensures Valid() && |holds| == |old(holds)| && holds[i].Outside?
      ensures Inv(at) && i < |at.holds| && at.holds[i].Held? && (at.ioCount == 1 ==> removeEvent)
    {
      Others(i);
      at := Value();
      Leave(i);
    }

    /** IoReleaseRemoveLockAndWaitEx by the one remover.  `patience` bounds how often a waiting remover looks at the
        event; `returned` tells whether it was set by then. */
    method ReleaseRemoveLockAndWait(i: nat, patience: nat) returns (returned: bool)
      requires Valid() && i < |holds| && holds[i].Held? && !removed
      modifies this
      ensures Valid() && |holds| == |old(holds)| && removed
      ensures returned ==> holds[i].Returned? && forall j :: 0 <= j < |holds| ==> !holds[j].Held?
      ensures !returned ==> holds[i].Waiting?
    {
      returned := GiveUp(i);
      var looks := 0;
      while !returned && looks < patience
        invariant Valid() && |holds| == |old(holds)| && removed
        invariant holds[i] == if returned then Returned else Waiting
        decreases patience - looks, !returned
      {
        Others(i);
        returned := LookAtEvent(i);
        looks := looks + 1;
      }
      if returned {
        DoneMeansDrained(Value(), i);
      }
    }

    /** Sets Removed and takes back the initial count and the remover's own. */
    method GiveUp(i: nat) returns (last: bool)
      requires Valid() && i < |holds| && holds[i].Held? && !removed
      modifies this
      ensures Valid() && |holds| == |old(holds)| && removed && holds[i] == if last then Returned else Waiting
    {
      StepKeeps(Value(), Move(i, true));
      removed := true;
      holds := holds[i := Announced];
      Others(i);
      StepKeeps(Value(), Move(i, false));
      ioCount := ioCount - 1;
      holds := holds[i := Unbiased];
      Others(i);
      StepKeeps(Value(), Move(i, false));
      ioCount := ioCount - 1;
      last := ioCount <= 0;
      holds := holds[i := if last then Returned else Waiting];
    }

    /** One look of KeWaitForSingleObject. */
    method LookAtEvent(i: nat) returns (signalled: bool)
      requires Valid() && i < |holds| && holds[i].Waiting?
      modifies this`holds
      ensures Valid() && |holds| == |old(holds)| && signalled == removeEvent
      ensures holds[i] == if signalled then Returned else Waiting
    {
      StepKeeps(Value(), Move(i, false));
      signalled := removeEvent;
      if signalled {
        holds := holds[i := Returned];
      }
    }
  }

  lemma StepMovesOne(s: State, m: Move)
    requires m.i < |s.holds|
    ensures var h := Step(s, m).holds;
            |h| == |s.holds| && forall i :: 0 <= i < |h| && i != m.i ==> h[i] == s.holds[i]
  {
  }

  lemma DoneMeansDrained(s: State, i: nat)
    requires Inv(s) && i < |s.holds| && s.holds[i].Returned?
    ensures forall j :: 0 <= j < |s.holds| ==> !s.holds[j].Held?
  {
    Sums(s.holds);
    forall j | 0 <= j < |s.holds| ensures !s.holds[j].Held? {
      assert Covered(s.holds, s.holds[j]) && Covered(s.holds, s.holds[i]);
    }
  }
}
