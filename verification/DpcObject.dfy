/** A DPC as an object: the calls on it statement by statement, while other calls, callbacks and the pool run, on it and
    on all other DPCs, between any two of their atomic steps. */
module DpcObject {
  import opened Dpc
  import opened DpcRuns
  import opened Counting

  /** Whose steps are left to the caller: an insert inside the critical section, a removal there, the removal that
      has set cancel, or the callback of one ticket. */
  datatype Role = Bystander | Inserter | Tester | Remover | Runner(t: nat)

  predicate Owns(role: Role, a: Action) {
    match role
    case Bystander => false
    case Inserter => a.CountInsert? || a.Submit?
    case Tester => a.Announce? || a.Refuse?
    case Remover => a.Drain? || a.Take? || a.CountRemoval? || a.ClearCancel?
    case Runner(t) => a == Exchange(t) || a == Disassociate(t) || a == Execute(t) || a == CountRun(t)
  }

  /** The caller is where its role says. */
  ghost predicate In(role: Role, d: DpcState) {
    match role
    case Bystander => true
    case Inserter => d.lock.Inserting? && d.tickets != []
    case Tester => d.lock.Testing?
    case Remover => !d.removal.NoRemoval?
    case Runner(t) =>
      && t < |d.tickets|
      && (d.tickets[t].Started? || d.tickets[t].Exchanged? || d.tickets[t].Running? || d.tickets[t].Ran?)
  }

  /** What others leave alone. */
  ghost predicate Stands(role: Role, d: DpcState, d': DpcState) {
    Grown(d, d') && Kept(role, d, d')
  }

  /** Tickets go on and routines run, never back. */
  ghost predicate Grown(d: DpcState, d': DpcState) {
    && |d'.tickets| >= |d.tickets| && d'.executions >= d.executions
    && (forall t :: 0 <= t < |d.tickets| ==> Follows(d.tickets[t], d'.tickets[t]))
  }

  ghost predicate Kept(role: Role, d: DpcState, d': DpcState) {
    && In(role, d')
    && match role
       case Bystander => true
       case Inserter =>
         0 < |d'.tickets| == |d.tickets| && d'.tickets[|d.tickets| - 1] == d.tickets[|d.tickets| - 1]
       case Tester => true
       case Remover =>
         && d'.removal == d.removal && |d.tickets| <= |d'.tickets|
         && forall t :: 0 <= t < |d.tickets| && d.tickets[t].Taken? ==> d'.tickets[t].Taken?
       case Runner(t) => t < |d.tickets| && d'.tickets[t] == d.tickets[t]
  }

  lemma OthersGrow(d: DpcState, a: Action)
    requires Enabled(d, a)
    ensures Grown(d, Act(d, a))
  {
    forall t | 0 <= t < |d.tickets| ensures t < |Act(d, a).tickets| && Follows(d.tickets[t], Act(d, a).tickets[t]) {
      TicketStep(d, a, t);
    }
    assert |Act(d, a).tickets| >= |d.tickets|;
  }

  lemma OthersKeep(role: Role, d: DpcState, a: Action)
    requires DpcOk(d) && In(role, d) && Enabled(d, a) && !Owns(role, a)
    ensures Kept(role, d, Act(d, a))
  {
    if role.Inserter? {
      assert Entering(d.tickets[|d.tickets| - 1]) == 1;
    }
  }

  lemma OthersStand(role: Role, d: DpcState, a: Action)
    requires DpcOk(d) && In(role, d) && Enabled(d, a) && !Owns(role, a)
    ensures Stands(role, d, Act(d, a))
  {
    OthersGrow(d, a);
    OthersKeep(role, d, a);
  }

  lemma StandsOn(role: Role, d: DpcState, d': DpcState, d'': DpcState)
    requires Stands(role, d, d') && Stands(role, d', d'')
    ensures Stands(role, d, d'')
  {
    forall t | 0 <= t < |d.tickets| ensures Follows(d.tickets[t], d''.tickets[t]) {
      assert Follows(d.tickets[t], d'.tickets[t]) && Follows(d'.tickets[t], d''.tickets[t]);
    }
  }

  /** How a removal ended, or where it still is: it never got the critical section, found nothing queued, found
      another removal, waits for the callbacks, found that the callback had started, or took the insert back. */
  datatype Verdict = NotEntered | NotQueued | InProgress | StillWaiting | TooLate | TookBack

  /** All DPCs, and the two global counters. */
  class Dpcs {
    var dpcs: seq<DpcState>
    var dpcsQueued: int
    var dpcsCompleted: int

    function Value(): State
      reads this
    {
      State(dpcs, dpcsQueued, dpcsCompleted)
    }

    ghost predicate Valid()
      reads this
    {
      Inv(Value())
    }

    /** KeInitializeDpc, of all of them. */
    constructor (n: nat)
      ensures Valid() && Value() == Initial(n)
    {
      dpcs, dpcsQueued, dpcsCompleted := seq(n, _ => INITIAL), 0, 0;
      new;
      InitialHolds(n);
    }

    /** A step of somebody else. */
    method Other(d: nat, role: Role, i: nat, a: Action)
      requires Valid() && d < |dpcs| && In(role, dpcs[d]) && i < |dpcs| && Enabled(dpcs[i], a)
      requires i == d ==> !Owns(role, a)
      modifies this
      ensures Valid() && |dpcs| == |old(dpcs)| && Stands(role, old(dpcs[d]), dpcs[d])
      ensures dpcsQueued >= old(dpcsQueued) && dpcsCompleted >= old(dpcsCompleted)
    {
      NextKeeps(Value(), i, a);
      if i == d {
        OthersStand(role, dpcs[d], a);
      }
      var s := Next(Value(), i, a);
      dpcs, dpcsQueued, dpcsCompleted := s.dpcs, s.dpcsQueued, s.dpcsCompleted;
    }

    /** Others take any number of steps. */
    method Others(d: nat, role: Role)
      requires Valid() && d < |dpcs| && In(role, dpcs[d])
      modifies this
      ensures Valid() && |dpcs| == |old(dpcs)| && Stands(role, old(dpcs[d]), dpcs[d])
      ensures dpcsQueued >= old(dpcsQueued) && dpcsCompleted >= old(dpcsCompleted)
    {
      var n: int := *;
      for k := 0 to if n < 0 then 0 else n
        invariant Valid() && |dpcs| == |old(dpcs)| && Stands(role, old(dpcs[d]), dpcs[d])
        invariant dpcsQueued >= old(dpcsQueued) && dpcsCompleted >= old(dpcsCompleted)
      {
        var i: int := *;
        var a: Action := *;
        if 0 <= i < |dpcs| && Enabled(dpcs[i], a) && (i != d || !Owns(role, a)) {
          ghost var before := dpcs[d];
          Other(d, role, i, a);
          StandsOn(role, old(dpcs[d]), before, dpcs[d]);
        }
      }
    }

    /** EnterCriticalSection: `patience` bounds how often the call tries. */
    method Enter(d: nat, patience: nat) returns (entered: bool)
      requires Valid() && d < |dpcs|
      modifies this
      ensures Valid() && |dpcs| == |old(dpcs)| && |dpcs[d].tickets| >= |old(dpcs[d]).tickets|
      ensures if entered then dpcs[d].lock.Free? else patience > 0 ==> !dpcs[d].lock.Free?
    {
      entered := false;
      var tries := 0;
      while !entered && tries < patience
        invariant Valid() && |dpcs| == |old(dpcs)| && |dpcs[d].tickets| >= |old(dpcs[d]).tickets|
        invariant if entered then dpcs[d].lock.Free? else tries > 0 ==> !dpcs[d].lock.Free?
        decreases patience - tries, !entered
      {
        Others(d, Bystander);
        entered := dpcs[d].lock.Free?;
        tries := tries + 1;
      }
    }

    /** KeInsertQueueDpc; `t` is the ticket of an insert that returned TRUE, `entered` whether the call got the critical
        section. */
    method InsertQueueDpc(d: nat, patience: nat) returns (rc: bool, entered: bool, t: nat)
      requires Valid() && d < |dpcs|
      modifies this
      ensures Valid() && |dpcs| == |old(dpcs)|
      ensures rc ==> |old(dpcs[d]).tickets| <= t < |dpcs[d].tickets| && dpcs[d].tickets[t].Pending? && dpcs[d].queued
      ensures !rc && entered ==> dpcs[d].lock.Free? && (dpcs[d].queued || dpcs[d].cancel)
      ensures !entered ==> !rc && (patience > 0 ==> !dpcs[d].lock.Free?)
    {
      rc, t := false, 0;
      entered := Enter(d, patience);
      if !entered || dpcs[d].queued || dpcs[d].cancel {
        return;
      }
      t := |dpcs[d].tickets|;
      NextKeeps(Value(), d, Mark);
      dpcs := dpcs[d := dpcs[d].(lock := Inserting, queued := true, tickets := dpcs[d].tickets + [Marked])];
      CountAndSubmit(d);
      rc := true;
    }

    /** The rest of an insert inside the critical section. */
    method CountAndSubmit(d: nat)
      requires Valid() && d < |dpcs| && dpcs[d].lock.Inserting? && TicketAt(dpcs[d], |dpcs[d].tickets| - 1, Marked)
      modifies this
      ensures Valid() && |dpcs| == |old(dpcs)| && |dpcs[d].tickets| == |old(dpcs[d]).tickets|
      ensures TicketAt(dpcs[d], |dpcs[d].tickets| - 1, Pending) && dpcs[d].queued
    {
      Others(d, Inserter);
      CountQueued(d);
      Others(d, Inserter);
      SubmitWork(d);
    }

    /** InterlockedIncrement64 of DpcsQueued. */
    method CountQueued(d: nat)
      requires Valid() && d < |dpcs| && dpcs[d].lock.Inserting? && TicketAt(dpcs[d], |dpcs[d].tickets| - 1, Marked)
      modifies this
      ensures Valid() && |dpcs| == |old(dpcs)| && |dpcs[d].tickets| == |old(dpcs[d]).tickets|
      ensures dpcs[d].lock.Inserting? && TicketAt(dpcs[d], |dpcs[d].tickets| - 1, Counted)
      ensures dpcsQueued == old(dpcsQueued) + 1
    {
      NextKeeps(Value(), d, CountInsert);
      dpcsQueued := dpcsQueued + 1;
      dpcs := dpcs[d := To(dpcs[d], |dpcs[d].tickets| - 1, Counted)];
    }

    /** SubmitThreadpoolWork and LeaveCriticalSection */
    method SubmitWork(d: nat)
      requires Valid() && d < |dpcs| && dpcs[d].lock.Inserting? && TicketAt(dpcs[d], |dpcs[d].tickets| - 1, Counted)
      modifies this`dpcs
      ensures Valid() && |dpcs| == |old(dpcs)| && |dpcs[d].tickets| == |old(dpcs[d]).tickets|
      ensures TicketAt(dpcs[d], |dpcs[d].tickets| - 1, Pending) && dpcs[d].queued
    {
      NextKeeps(Value(), d, Submit);
      dpcs := dpcs[d := To(dpcs[d], |dpcs[d].tickets| - 1, Pending).(lock := Free, inserts := dpcs[d].inserts + 1)];
      QueuedWhileWaiting(dpcs[d], |dpcs[d].tickets| - 1);
    }

    /** DdkDpcCallback of a ticket that the pool has started. */
    method DpcCallback(d: nat, t: nat)
      requires Valid() && d < |dpcs| && TicketAt(dpcs[d], t, Started)
      modifies this
      ensures Valid() && |dpcs| == |old(dpcs)| && TicketAt(dpcs[d], t, Done)
      ensures dpcs[d].executions > old(dpcs[d].executions) && dpcsCompleted > old(dpcsCompleted)
    {
      LeavePool(d, t);
      Others(d, Runner(t));
      RunRoutine(d, t);
      Others(d, Runner(t));
      CountCompleted(d, CountRun(t));
    }

    /** The deferred routine. */
    method RunRoutine(d: nat, t: nat)
      requires Valid() && d < |dpcs| && TicketAt(dpcs[d], t, Running)
      modifies this`dpcs
      ensures Valid() && |dpcs| == |old(dpcs)| && TicketAt(dpcs[d], t, Ran)
      ensures dpcs[d].executions == old(dpcs[d].executions) + 1
    {
      NextKeeps(Value(), d, Execute(t));
      dpcs := dpcs[d := To(dpcs[d], t, Ran).(executions := dpcs[d].executions + 1)];
    }

    /** InterlockedIncrement64 of DpcsCompleted, by a callback or a removal. */
    method CountCompleted(d: nat, a: Action)
      requires Valid() && d < |dpcs| && Enabled(dpcs[d], a) && (a.CountRun? || a.CountRemoval?)
      modifies this
      ensures Valid() && |dpcs| == |old(dpcs)|
      ensures TicketAt(dpcs[d], a.t, if a.CountRun? then Done else Removed)
      ensures dpcsCompleted == old(dpcsCompleted) + 1 && dpcs[d].executions == old(dpcs[d].executions)
      ensures a.CountRemoval? ==> dpcs[d].removal == Clearing(true)
    {
      NextKeeps(Value(), d, a);
      dpcsCompleted := dpcsCompleted + 1;
      dpcs := dpcs[d := if a.CountRun? then To(dpcs[d], a.t, Done)
          else To(dpcs[d], a.t, Removed).(removal := Clearing(true))];
    }

    /** The exchange of queued and DisassociateCurrentThreadFromCallback. */
    method LeavePool(d: nat, t: nat)
      requires Valid() && d < |dpcs| && TicketAt(dpcs[d], t, Started)
      modifies this
      ensures Valid() && |dpcs| == |old(dpcs)| && TicketAt(dpcs[d], t, Running)
      ensures dpcs[d].executions >= old(dpcs[d].executions) && dpcsCompleted >= old(dpcsCompleted)
    {
      NextKeeps(Value(), d, Exchange(t));
      dpcs := dpcs[d := To(dpcs[d], t, Exchanged).(queued := false)];
      Others(d, Runner(t));
      NextKeeps(Value(), d, Disassociate(t));
      dpcs := dpcs[d := To(dpcs[d], t, Running)];
    }

    /** KeRemoveQueueDpc returns TRUE for the verdict TookBack, of ticket `t`; `at` is the state in which it exchanged
        queued. */
    method RemoveQueueDpc(d: nat, patience: nat) returns (verdict: Verdict, t: nat, ghost at: DpcState)
      requires Valid() && d < |dpcs|
      modifies this
      ensures Valid() && |dpcs| == |old(dpcs)|
      ensures verdict.NotEntered? ==> patience > 0 ==> !dpcs[d].lock.Free?
      ensures verdict.NotQueued? ==> dpcs[d].lock.Free? && !dpcs[d].queued
      ensures verdict.InProgress? ==> dpcs[d].lock.Free? && dpcs[d].cancel
      ensures verdict.StillWaiting? ==> dpcs[d].removal.Waiting? && (patience > 0 ==> !PoolIdle(dpcs[d]))
      ensures verdict.TooLate? ==> DpcOk(at) && at.removal.Drained? && !at.queued
      ensures verdict.TookBack? ==> DpcOk(at) && at.removal.Drained? && at.queued
      ensures verdict.TookBack? ==> TicketAt(at, t, Cancelled) && TicketAt(dpcs[d], t, Removed)
    {
      t := 0;
      var entered := Enter(d, patience);
      at := dpcs[d];
      if !entered {
        return NotEntered, t, at;
      }
      if !dpcs[d].queued {
        return NotQueued, t, at;
      }
      var mine := Claim(d);
      if !mine {
        return InProgress, t, at;
      }
      var done := WaitForCallbacks(d, patience);
      if !done {
        return StillWaiting, t, at;
      }
      var rc;
      rc, t, at := TakeBack(d);
      verdict := if rc then TookBack else TooLate;
    }

    /** Inside the critical section with queued set: sets cancel unless another removal has. */
    method Claim(d: nat) returns (mine: bool)
      requires Valid() && d < |dpcs| && Enabled(dpcs[d], Test)
      modifies this
      ensures Valid() && |dpcs| == |old(dpcs)|
      ensures if mine then dpcs[d].removal.Waiting? else dpcs[d].lock.Free? && dpcs[d].cancel
    {
      NextKeeps(Value(), d, Test);
      dpcs := dpcs[d := dpcs[d].(lock := Testing)];
      Others(d, Tester);
      mine := !dpcs[d].cancel;
      if mine {
        NextKeeps(Value(), d, Announce);
        dpcs := dpcs[d := dpcs[d].(lock := Free, cancel := true, removal := Waiting)];
      } else {
        NextKeeps(Value(), d, Refuse);
        dpcs := dpcs[d := dpcs[d].(lock := Free)];
      }
    }

    /** WaitForThreadpoolWorkCallbacks */
    method WaitForCallbacks(d: nat, patience: nat) returns (done: bool)
      requires Valid() && d < |dpcs| && dpcs[d].removal.Waiting?
      modifies this
      ensures Valid() && |dpcs| == |old(dpcs)| && dpcs[d].removal == if done then Drained else Waiting
      ensures !done && patience > 0 ==> !PoolIdle(dpcs[d])
    {
      done := false;
      var looks := 0;
      while !done && looks < patience
        invariant Valid() && |dpcs| == |old(dpcs)| && dpcs[d].removal == if done then Drained else Waiting
        invariant !done && looks > 0 ==> !PoolIdle(dpcs[d])
        decreases patience - looks, !done
      {
        Others(d, Remover);
        if PoolIdle(dpcs[d]) {
          NextKeeps(Value(), d, Drain);
          dpcs := dpcs[d := dpcs[d].(removal := Drained)];
          done := true;
        }
        looks := looks + 1;
      }
    }

    /** The exchange of queued, in state `at`, and what follows. */
    method TakeBack(d: nat) returns (rc: bool, t: nat, ghost at: DpcState)
      requires Valid() && d < |dpcs| && dpcs[d].removal.Drained?
      modifies this
      ensures Valid() && |dpcs| == |old(dpcs)| && (rc ==> TicketAt(at, t, Cancelled) && TicketAt(dpcs[d], t, Removed))
      ensures DpcOk(at) && at.removal.Drained? && rc == at.queued
    {
      Others(d, Remover);
      at := dpcs[d];
      rc, t := ExchangeQueued(d);
      if rc {
        CountTaken(d, t);
      }
      Clear(d, rc, t);
    }

    method CountTaken(d: nat, t: nat)
      requires Valid() && d < |dpcs| && dpcs[d].removal == Took(true) && TicketAt(dpcs[d], t, Taken)
      modifies this
      ensures Valid() && |dpcs| == |old(dpcs)| && dpcs[d].removal == Clearing(true) && TicketAt(dpcs[d], t, Removed)
    {
      Others(d, Remover);
      CountCompleted(d, CountRemoval(t));
    }

    /** The exchange of queued in KeRemoveQueueDpc. */
    method ExchangeQueued(d: nat) returns (rc: bool, t: nat)
      requires Valid() && d < |dpcs| && dpcs[d].removal.Drained?
      modifies this`dpcs
      ensures Valid() && |dpcs| == |old(dpcs)| && dpcs[d].removal == Took(rc) && rc == old(dpcs[d]).queued
      ensures rc ==> TicketAt(old(dpcs[d]), t, Cancelled) && TicketAt(dpcs[d], t, Taken)
    {
      rc, t := dpcs[d].queued, 0;
      if rc {
        CancelledExists(dpcs[d]);
        t :| 0 <= t < |dpcs[d].tickets| && dpcs[d].tickets[t].Cancelled?;
        NextKeeps(Value(), d, Take(t));
        dpcs := dpcs[d := To(dpcs[d], t, Taken).(queued := false, removal := Took(true))];
      } else {
        NextKeeps(Value(), d, Take(0));
        dpcs := dpcs[d := dpcs[d].(removal := Took(false))];
      }
    }

    /** The exchange of cancel. */
    method Clear(d: nat, rc: bool, ghost t: nat)
      requires Valid() && d < |dpcs| && dpcs[d].removal == if rc then Clearing(true) else Took(false)
      requires rc ==> TicketAt(dpcs[d], t, Removed)
      modifies this
      ensures Valid() && |dpcs| == |old(dpcs)| && (rc ==> TicketAt(dpcs[d], t, Removed))
    {
      Others(d, Remover);
      NextKeeps(Value(), d, ClearCancel);
      dpcs := dpcs[d := dpcs[d].(cancel := false, removal := NoRemoval,
                                 removals := dpcs[d].removals + if rc then 1 else 0)];
    }

    /** KeFlushQueuedDpcs; `queued` is what it read. */
    method FlushQueuedDpcs(patience: nat) returns (done: bool, queued: int)
      requires Valid() && dpcs != []
      modifies this
      ensures Valid() && old(dpcsQueued) == queued <= dpcsQueued && (done <==> dpcsCompleted >= queued)
      ensures done ==> Total(Outstanding, dpcs) <= dpcsQueued - queued
      ensures done && dpcsQueued == queued ==> forall i :: 0 <= i < |dpcs| ==> Outstanding(dpcs[i]) == 0
    {
      queued := dpcsQueued;
      var looks := 0;
      while dpcsCompleted < queued && looks < patience
        invariant Valid() && dpcs != [] && queued <= dpcsQueued
        decreases patience - looks
      {
        Others(0, Bystander);
        looks := looks + 1;
      }
      done := dpcsCompleted >= queued;
      if done {
        CompletedUpTo(Value(), queued);
      }
    }
  }

  /** After the drain a set `queued` belongs to a ticket that the pool has dropped. */
  lemma CancelledExists(d: DpcState)
    requires DpcOk(d) && d.removal.Drained? && d.queued
    ensures exists t :: 0 <= t < |d.tickets| && d.tickets[t].Cancelled?
  {
    Bounds(d.tickets);
    TotalNonNegative(Dropped, d.tickets);
  }

  /** A ticket that is pending keeps `queued` set. */
  lemma QueuedWhileWaiting(d: DpcState, t: nat)
    requires DpcOk(d) && t < |d.tickets| && d.tickets[t].Pending?
    ensures d.queued
  {
    TotalNonNegative(InQueue, d.tickets);
  }
}
