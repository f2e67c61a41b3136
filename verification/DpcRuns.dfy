/** What the steps of DPCs promise over every run, for any number of DPCs and calls. */
module DpcRuns {
  import opened Dpc
  import opened Counting

  /** At most one instance of a DPC is waiting to start, in every reachable state. */
  lemma AtMostOneUnstarted(n: nat, moves: seq<Move>, i: nat, t: nat, u: nat)
    requires LegalRun(Initial(n), moves) && i < n
    ensures var dpcs := Run(Initial(n), moves).dpcs;
            i < |dpcs| && (t < u < |dpcs[i].tickets| ==> InQueue(dpcs[i].tickets[t]) + InQueue(dpcs[i].tickets[u]) <= 1)
  {
    InitialHolds(n);
    RunKeeps(Initial(n), moves);
    var d := Run(Initial(n), moves).dpcs[i];
    assert DpcOk(d);
    if t < u < |d.tickets| {
      TotalOfTwo(InQueue, d.tickets, t, u);
    }
  }

  /** DpcsQueued less DpcsCompleted is the number of outstanding inserts, in every reachable state. */
  lemma CountersAreExact(n: nat, moves: seq<Move>)
    requires LegalRun(Initial(n), moves)
    ensures var s := Run(Initial(n), moves);
            s.dpcsQueued - s.dpcsCompleted == Total(Outstanding, s.dpcs)
  {
    InitialHolds(n);
    RunKeeps(Initial(n), moves);
    TotalDifference(QueuedBy, CompletedBy, Outstanding, Run(Initial(n), moves).dpcs);
  }

  /** KeFlushQueuedDpcs reads DpcsQueued at `s` and returns at `s'` because DpcsCompleted has come up to it:
      no more inserts are outstanding than were counted in between, so none if there were none. */
  lemma FlushWaits(n: nat, before: seq<Move>, during: seq<Move>)
    requires LegalRun(Initial(n), before) && LegalRun(Run(Initial(n), before), during)
    requires var s := Run(Initial(n), before); Run(s, during).dpcsCompleted >= s.dpcsQueued
    ensures var s := Run(Initial(n), before);
            var s' := Run(s, during);
            && Total(Outstanding, s'.dpcs) <= s'.dpcsQueued - s.dpcsQueued
            && (s'.dpcsQueued == s.dpcsQueued ==> forall i :: 0 <= i < |s'.dpcs| ==> Outstanding(s'.dpcs[i]) == 0)
  {
    InitialHolds(n);
    RunKeeps(Initial(n), before);
    var s := Run(Initial(n), before);
    RunKeeps(s, during);
    CompletedUpTo(Run(s, during), s.dpcsQueued);
  }

  lemma CompletedUpTo(s: State, queued: int)
    requires Inv(s) && s.dpcsCompleted >= queued
    ensures Total(Outstanding, s.dpcs) <= s.dpcsQueued - queued
    ensures s.dpcsQueued == queued ==> forall i :: 0 <= i < |s.dpcs| ==> Outstanding(s.dpcs[i]) == 0
  {
    TotalDifference(QueuedBy, CompletedBy, Outstanding, s.dpcs);
    forall i | 0 <= i < |s.dpcs| ensures Outstanding(s.dpcs[i]) >= 0 {
      Bounds(s.dpcs[i].tickets);
    }
    AllZero(s.dpcs);
  }

  lemma {:induction false} AllZero(dpcs: seq<DpcState>)
    requires forall i :: 0 <= i < |dpcs| ==> Outstanding(dpcs[i]) >= 0
    ensures Total(Outstanding, dpcs) >= 0
    ensures Total(Outstanding, dpcs) == 0 ==> forall i :: 0 <= i < |dpcs| ==> Outstanding(dpcs[i]) == 0
  {
    if dpcs != [] {
      assert forall i :: 0 <= i < |dpcs[1..]| ==> dpcs[1..][i] == dpcs[i + 1];
      AllZero(dpcs[1..]);
      if Total(Outstanding, dpcs) == 0 {
        forall i | 0 <= i < |dpcs| ensures Outstanding(dpcs[i]) == 0 {
          assert i > 0 ==> dpcs[i] == dpcs[1..][i - 1];
        }
      }
    }
  }

  lemma {:induction false} TotalDifference(f: DpcState -> int, g: DpcState -> int, h: DpcState -> int,
      dpcs: seq<DpcState>)
    requires forall d :: h(d) == f(d) - g(d)
    ensures Total(h, dpcs) == Total(f, dpcs) - Total(g, dpcs)
  {
    if dpcs != [] {
      TotalDifference(f, g, h, dpcs[1..]);
    }
  }

  /** How a ticket may go on: one that has started to run the routine never comes to be removed, and one that
      the pool has dropped never runs it. */
  predicate Follows(g: Stage, g': Stage) {
    match g
    case Started | Exchanged | Running => g'.Started? || g'.Exchanged? || g'.Running? || g'.Ran? || g'.Done?
    case Ran => g'.Ran? || g'.Done?
    case Done => g'.Done?
    case Cancelled => g'.Cancelled? || g'.Taken? || g'.Removed?
    case Taken => g'.Taken? || g'.Removed?
    case Removed => g'.Removed?
    case _ => true
  }

  lemma {:induction false} TicketsNeverTurnBack(s: State, moves: seq<Move>, i: nat, t: nat)
    requires LegalRun(s, moves) && i < |s.dpcs| && t < |s.dpcs[i].tickets|
    ensures var dpcs := Run(s, moves).dpcs;
            i < |dpcs| && t < |dpcs[i].tickets| && Follows(s.dpcs[i].tickets[t], dpcs[i].tickets[t])
    decreases |moves|
  {
    if moves != [] {
      TicketStep(s.dpcs[moves[0].i], moves[0].a, t);
      TicketsNeverTurnBack(Next(s, moves[0].i, moves[0].a), moves[1..], i, t);
    }
  }

  lemma TicketStep(d: DpcState, a: Action, t: nat)
    requires Enabled(d, a)
    ensures t < |d.tickets| ==> t < |Act(d, a).tickets| && Follows(d.tickets[t], Act(d, a).tickets[t])
  {
  }

  /** Nobody is inside a call or a callback that could go on. */
  ghost predicate Quiescent(d: DpcState) {
    forall a: Action :: Enabled(d, a) ==> a.Mark? || a.Test?
  }

  /** No insert is lost: when nothing can go on any more, no call is stuck, every insert that returned TRUE has run
      exactly once or made exactly one removal return TRUE, and the counters meet. */
  lemma NothingIsLost(d: DpcState)
    requires DpcOk(d) && Quiescent(d)
    ensures forall t :: 0 <= t < |d.tickets| ==> d.tickets[t].Done? || d.tickets[t].Removed?
    ensures d.inserts == d.executions + d.removals && Outstanding(d) == 0
    ensures d.lock.Free? && d.removal.NoRemoval? && !d.queued
  {
    assert !Enabled(d, CountInsert) && !Enabled(d, Submit) && !Enabled(d, Announce) && !Enabled(d, Refuse);
    assert !Enabled(d, Drain) && !Enabled(d, ClearCancel);
    forall t | 0 <= t < |d.tickets|
      ensures Entering(d.tickets[t]) == 0 && InPool(d.tickets[t]) == 0 && !d.tickets[t].Running? && !d.tickets[t].Ran?
      ensures d.removal == Took(true) ==> !d.tickets[t].Taken?
      ensures d.removal.Drained? && d.queued ==> !d.tickets[t].Cancelled?
    {
      NotStuck(d, t);
    }
    RemovalGoesOn(d);
    forall t | 0 <= t < |d.tickets| ensures d.tickets[t].Done? || d.tickets[t].Removed? {
      Covers(d.tickets, t);
    }
    AllEnded(d.tickets);
  }

  lemma NotStuck(d: DpcState, t: nat)
    requires DpcOk(d) && Quiescent(d) && t < |d.tickets|
    ensures Entering(d.tickets[t]) == 0 && InPool(d.tickets[t]) == 0 && !d.tickets[t].Running? && !d.tickets[t].Ran?
    ensures d.removal == Took(true) ==> !d.tickets[t].Taken?
    ensures d.removal.Drained? && d.queued ==> !d.tickets[t].Cancelled?
  {
    assert !Enabled(d, CountInsert) && !Enabled(d, Submit);
    assert !Enabled(d, Start(t)) && !Enabled(d, Exchange(t)) && !Enabled(d, Disassociate(t));
    assert !Enabled(d, Execute(t)) && !Enabled(d, CountRun(t)) && !Enabled(d, Take(t)) && !Enabled(d, CountRemoval(t));
    Covers(d.tickets, t);
  }

  /** Each ticket is covered by the counts. */
  lemma Covers(h: seq<Stage>, t: nat)
    requires t < |h|
    ensures Entering(h[t]) <= Total(Entering, h) && InQueue(h[t]) <= Total(InQueue, h)
    ensures TakenBack(h[t]) <= Total(TakenBack, h) && Dropped(h[t]) <= Total(Dropped, h)
  {
    TotalNonNegative(Entering, h);
    TotalNonNegative(InQueue, h);
    TotalNonNegative(TakenBack, h);
    TotalNonNegative(Dropped, h);
  }

  lemma RemovalGoesOn(d: DpcState)
    requires DpcOk(d) && Quiescent(d)
    requires forall t :: 0 <= t < |d.tickets| ==> Entering(d.tickets[t]) == 0 && InPool(d.tickets[t]) == 0
    requires d.removal == Took(true) ==> forall t :: 0 <= t < |d.tickets| ==> !d.tickets[t].Taken?
    requires d.removal.Drained? && d.queued ==> forall t :: 0 <= t < |d.tickets| ==> !d.tickets[t].Cancelled?
    ensures d.removal.NoRemoval? && d.lock.Free? && !d.queued
  {
    assert !Enabled(d, Drain) && !Enabled(d, ClearCancel) && !Enabled(d, Take(0));
    assert !Enabled(d, Announce) && !Enabled(d, Refuse);
    TotalZero(Entering, d.tickets);
    TotalZero(InPool, d.tickets);
    Bounds(d.tickets);
    if d.removal == Took(true) {
      TotalZero(TakenBack, d.tickets);
    }
    if d.removal.Drained? && d.queued {
      TotalZero(Dropped, d.tickets);
    }
  }

  lemma {:induction false} AllEnded(h: seq<Stage>)
    requires forall t :: 0 <= t < |h| ==> h[t].Done? || h[t].Removed?
    ensures |h| == Total(Executed, h) + Total(RemovedOnes, h) == Total(Ended, h)
    ensures Total(Entering, h) == 0 && Total(Uncounted, h) == 0
  {
    if h != [] {
      assert forall t :: 0 <= t < |h[1..]| ==> h[1..][t] == h[t + 1];
      AllEnded(h[1..]);
    }
  }

  // ---- Removals get through

  /** Steps a ticket can still take. */
  function TicketRest(g: Stage): int {
    match g
    case Marked => 7
    case Counted => 6
    case Pending => 5
    case Started => 4
    case Exchanged => 3
    case Running => 2
    case Ran => 1
    case Done => 0
    case Cancelled => 2
    case Taken => 1
    case Removed => 0
  }

  /** Steps a removal can still take, in the critical section and after it. */
  function RemovalRest(d: DpcState): int {
    (if d.lock.Testing? then 5 else 0)
    + match d.removal
      case NoRemoval => 0
      case Waiting => 4
      case Drained => 3
      case Took(_) => 2
      case Clearing(_) => 1
  }

  function Rest(d: DpcState): int {
    Total(TicketRest, d.tickets) + RemovalRest(d)
  }

  lemma TicketGoesOn(h: seq<Stage>, t: nat, to: Stage)
    requires t < |h| && TicketRest(to) < TicketRest(h[t])
    ensures Total(TicketRest, h[t := to]) < Total(TicketRest, h)
  {
    TotalUpdate(TicketRest, h, t, to);
  }

  lemma TicketRestFalls(d: DpcState, a: Action)
    requires Enabled(d, a) && (a.CountInsert? || a.Submit? || a.Start? || a.Exchange? || a.Disassociate? || a.Execute?
                               || a.CountRun? || a.PoolCancel?)
    ensures Total(TicketRest, Act(d, a).tickets) < Total(TicketRest, d.tickets)
  {
    var t: nat := if a.CountInsert? || a.Submit? then |d.tickets| - 1 else a.t;
    TicketGoesOn(d.tickets, t, match a
      case CountInsert => Counted
      case Submit => Pending
      case Start(_) => Started
      case Exchange(_) => Exchanged
      case Disassociate(_) => Running
      case Execute(_) => Ran
      case CountRun(_) => Done
      case _ => Cancelled);
  }

  lemma RestFalls(d: DpcState, a: Action)
    requires DpcOk(d) && Enabled(d, a) && !a.Mark? && !a.Test?
    ensures Rest(Act(d, a)) < Rest(d)
  {
    if a.CountRemoval? || (a.Take? && d.queued) {
      TicketGoesOn(d.tickets, a.t, if a.Take? then Taken else Removed);
    } else if !a.Take? && !a.Announce? && !a.Refuse? && !a.Drain? && !a.ClearCancel? {
      TicketRestFalls(d, a);
    }
  }

  /** A run on one DPC in which no insert and no removal begins. */
  ghost predicate Settling(d: DpcState, actions: seq<Action>)
    decreases |actions|
  {
    actions == [] ||
    (Enabled(d, actions[0]) && !actions[0].Mark? && !actions[0].Test? && Settling(Act(d, actions[0]), actions[1..]))
  }

  ghost function Settled(d: DpcState, actions: seq<Action>): DpcState
    requires Settling(d, actions)
    decreases |actions|
  {
    if actions == [] then d else Settled(Act(d, actions[0]), actions[1..])
  }

  lemma {:induction false} SettlingIsFinite(d: DpcState, actions: seq<Action>)
    requires DpcOk(d) && Settling(d, actions)
    ensures DpcOk(Settled(d, actions)) && |actions| <= Rest(d) - Rest(Settled(d, actions))
    decreases |actions|
  {
    if actions != [] {
      ActKeeps(d, actions[0]);
      RestFalls(d, actions[0]);
      SettlingIsFinite(Act(d, actions[0]), actions[1..]);
    }
  }

  /** A removal that has set cancel refuses every insert, and once no further call begins at most `Rest(d)` steps
      of anybody are left, in whatever order; when none is left the removal has returned and every insert has come
      to its end. */
  lemma RemovalReturns(d: DpcState, actions: seq<Action>)
    requires DpcOk(d) && Settling(d, actions)
    ensures d.cancel ==> !Enabled(d, Mark)
    ensures |actions| <= Rest(d)
    ensures var d' := Settled(d, actions);
            Quiescent(d') ==> d'.removal.NoRemoval? && d'.lock.Free? && d'.inserts == d'.executions + d'.removals
  {
    SettlingIsFinite(d, actions);
    var d' := Settled(d, actions);
    TotalNonNegative(TicketRest, d'.tickets);
    if Quiescent(d') {
      NothingIsLost(d');
    }
  }
}
