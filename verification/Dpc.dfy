/** Deferred procedure calls: the state and the steps.

    Inserting, running and removing are at the grain of interlocked operations and of the critical section of each
    DPC, with the thread pool given by its contract.  The invariant and what every step does to it are here, what
    holds over every run is in `DpcRuns`.
 */
module Dpc {
  import opened Counting

  /** Where one successful KeInsertQueueDpc stands. */
  datatype Stage =
    | Marked       // queued is set
    | Counted      // DpcsQueued is incremented
    | Pending      // submitted to the thread pool
    | Started      // the pool has started DdkDpcCallback
    | Exchanged    // the callback has cleared queued
    | Running      // the callback no longer belongs to the pool
    | Ran          // the deferred routine has returned
    | Done         // counted in DpcsCompleted by the callback
    | Cancelled    // the pool has dropped it for KeRemoveQueueDpc
    | Taken        // KeRemoveQueueDpc has cleared queued
    | Removed      // counted in DpcsCompleted by KeRemoveQueueDpc

  /** Who is inside the critical section: an insert, or a removal that has read queued as set. */
  datatype Lock = Free | Inserting | Testing

  /** The removal that has set cancel. */
  datatype Removal = NoRemoval | Waiting | Drained | Took(found: bool) | Clearing(found: bool)

  /** `inserts` and `removals` count the calls that returned TRUE, `executions` the runs of the routine. */
  datatype DpcState = DpcState(queued: bool, cancel: bool, lock: Lock, removal: Removal, tickets: seq<Stage>,
                               inserts: nat, executions: nat, removals: nat)

  datatype State = State(dpcs: seq<DpcState>, dpcsQueued: int, dpcsCompleted: int)

  datatype Action =
    | Mark | CountInsert | Submit                                                       // KeInsertQueueDpc
    | Start(t: nat) | Exchange(t: nat) | Disassociate(t: nat) | Execute(t: nat) | CountRun(t: nat)
    | Test | Announce | Refuse | PoolCancel(t: nat) | Drain | Take(t: nat) | CountRemoval(t: nat) | ClearCancel

  const INITIAL := DpcState(false, false, Free, NoRemoval, [], 0, 0, 0)

  predicate TicketAt(d: DpcState, t: int, stage: Stage) {
    0 <= t < |d.tickets| && d.tickets[t] == stage
  }

  /** WaitForThreadpoolWorkCallbacks returns when no callback is pending or still belongs to the pool. */
  predicate PoolIdle(d: DpcState) {
    forall t :: 0 <= t < |d.tickets| ==>
      !d.tickets[t].Pending? && !d.tickets[t].Started? && !d.tickets[t].Exchanged?
  }

  predicate Enabled(d: DpcState, a: Action) {
    match a
    case Mark => d.lock.Free? && !d.queued && !d.cancel
    case CountInsert => d.lock.Inserting? && TicketAt(d, |d.tickets| - 1, Marked)
    case Submit => d.lock.Inserting? && TicketAt(d, |d.tickets| - 1, Counted)
    case Start(t) => TicketAt(d, t, Pending)
    case Exchange(t) => TicketAt(d, t, Started)
    case Disassociate(t) => TicketAt(d, t, Exchanged)
    case Execute(t) => TicketAt(d, t, Running)
    case CountRun(t) => TicketAt(d, t, Ran)
    case Test => d.lock.Free? && d.queued
    case Announce => d.lock.Testing? && !d.cancel
    case Refuse => d.lock.Testing? && d.cancel
    case PoolCancel(t) => d.removal.Waiting? && TicketAt(d, t, Pending)
    case Drain => d.removal.Waiting? && PoolIdle(d)
    case Take(t) => d.removal.Drained? && (d.queued ==> TicketAt(d, t, Cancelled))
    case CountRemoval(t) => d.removal == Took(true) && TicketAt(d, t, Taken)
    case ClearCancel => d.removal == Took(false) || d.removal.Clearing?
  }

  function To(d: DpcState, t: nat, stage: Stage): DpcState
    requires t < |d.tickets|
  {
    d.(tickets := d.tickets[t := stage])
  }

  function Act(d: DpcState, a: Action): DpcState
    requires Enabled(d, a)
  {
    match a
    case Mark => d.(lock := Inserting, queued := true, tickets := d.tickets + [Marked])
    case CountInsert => To(d, |d.tickets| - 1, Counted)
    case Submit => To(d, |d.tickets| - 1, Pending).(lock := Free, inserts := d.inserts + 1)
    case Start(t) => To(d, t, Started)
    case Exchange(t) => To(d, t, Exchanged).(queued := false)
    case Disassociate(t) => To(d, t, Running)
    case Execute(t) => To(d, t, Ran).(executions := d.executions + 1)
    case CountRun(t) => To(d, t, Done)
    case Test => d.(lock := Testing)
    case Announce => d.(lock := Free, cancel := true, removal := Waiting)
    case Refuse => d.(lock := Free)
    case PoolCancel(t) => To(d, t, Cancelled)
    case Drain => d.(removal := Drained)
    case Take(t) =>
      if d.queued then To(d, t, Taken).(queued := false, removal := Took(true)) else d.(removal := Took(false))
    case CountRemoval(t) => To(d, t, Removed).(removal := Clearing(true))
    case ClearCancel =>
      d.(cancel := false, removal := NoRemoval, removals := d.removals + if d.removal.found then 1 else 0)
  }

  // ---- What is counted

  /** Tickets of an insert that is still inside the critical section. */
  function Entering(g: Stage): int {
    if g.Marked? || g.Counted? then 1 else 0
  }

  function Uncounted(g: Stage): int {
    if g.Marked? then 1 else 0
  }

  /** Inserts that have neither run nor been taken back. */
  function InQueue(g: Stage): int {
    if g.Marked? || g.Counted? || g.Pending? || g.Started? || g.Cancelled? then 1 else 0
  }

  /** Callbacks that a removal cancels or waits for. */
  function InPool(g: Stage): int {
    if g.Pending? || g.Started? || g.Exchanged? then 1 else 0
  }

  function Dropped(g: Stage): int {
    if g.Cancelled? then 1 else 0
  }

  function TakenBack(g: Stage): int {
    if g.Taken? then 1 else 0
  }

  function Executed(g: Stage): int {
    if g.Ran? || g.Done? then 1 else 0
  }

  function RemovedOnes(g: Stage): int {
    if g.Removed? then 1 else 0
  }

  function Ended(g: Stage): int {
    if g.Done? || g.Removed? then 1 else 0
  }

  /** How all counts change when one ticket goes on. */
  ghost predicate Shifted(h: seq<Stage>, h': seq<Stage>, from: Stage, to: Stage) {
    && |h'| == |h|
    && Total(Entering, h') == Total(Entering, h) - Entering(from) + Entering(to)
    && Total(Uncounted, h') == Total(Uncounted, h) - Uncounted(from) + Uncounted(to)
    && Total(InQueue, h') == Total(InQueue, h) - InQueue(from) + InQueue(to)
    && Total(InPool, h') == Total(InPool, h) - InPool(from) + InPool(to)
    && Total(Dropped, h') == Total(Dropped, h) - Dropped(from) + Dropped(to)
    && Total(TakenBack, h') == Total(TakenBack, h) - TakenBack(from) + TakenBack(to)
    && Total(Executed, h') == Total(Executed, h) - Executed(from) + Executed(to)
    && Total(RemovedOnes, h') == Total(RemovedOnes, h) - RemovedOnes(from) + RemovedOnes(to)
    && Total(Ended, h') == Total(Ended, h) - Ended(from) + Ended(to)
  }

  /** No count is negative, and each covers what it is part of. */
  ghost predicate Bounded(h: seq<Stage>) {
    && 0 <= Total(Uncounted, h) <= Total(Entering, h) && 0 <= Total(Dropped, h)
    && Total(Entering, h) + Total(Dropped, h) <= Total(InQueue, h) <= Total(Entering, h)
         + Total(InPool, h) + Total(Dropped, h)
    && 0 <= Total(InPool, h) && 0 <= Total(TakenBack, h) && 0 <= Total(RemovedOnes, h)
    && 0 <= Total(Ended, h) && Total(Uncounted, h) + Total(Ended, h) <= |h|
  }

  lemma {:induction false} Bounds(h: seq<Stage>)
    ensures Bounded(h)
  {
    if h != [] {
      Bounds(h[1..]);
    }
  }

  lemma Shifts(h: seq<Stage>, t: nat, to: Stage)
    requires t < |h|
    ensures Shifted(h, h[t := to], h[t], to) && Bounded(h) && Bounded(h[t := to])
  {
    TotalUpdate(Entering, h, t, to);
    TotalUpdate(Uncounted, h, t, to);
    TotalUpdate(InQueue, h, t, to);
    TotalUpdate(InPool, h, t, to);
    TotalUpdate(Dropped, h, t, to);
    TotalUpdate(TakenBack, h, t, to);
    TotalUpdate(Executed, h, t, to);
    TotalUpdate(RemovedOnes, h, t, to);
    TotalUpdate(Ended, h, t, to);
    Bounds(h);
    Bounds(h[t := to]);
  }

  lemma Appends(h: seq<Stage>)
    ensures var h' := h + [Marked];
            && Total(Entering, h') == Total(Entering, h) + 1 && Total(Uncounted, h') == Total(Uncounted, h) + 1
            && Total(InQueue, h') == Total(InQueue, h) + 1 && Total(InPool, h') == Total(InPool, h)
            && Total(Dropped, h') == Total(Dropped, h) && Total(TakenBack, h') == Total(TakenBack, h)
            && Total(Executed, h') == Total(Executed, h) && Total(RemovedOnes, h') == Total(RemovedOnes, h)
            && Total(Ended, h') == Total(Ended, h)
  {
    TotalAppend(Entering, h, Marked);
    TotalAppend(Uncounted, h, Marked);
    TotalAppend(InQueue, h, Marked);
    TotalAppend(InPool, h, Marked);
    TotalAppend(Dropped, h, Marked);
    TotalAppend(TakenBack, h, Marked);
    TotalAppend(Executed, h, Marked);
    TotalAppend(RemovedOnes, h, Marked);
    TotalAppend(Ended, h, Marked);
  }

  // ---- The invariant of one DPC

  /** The insert inside the critical section has not submitted its ticket yet. */
  ghost predicate LockOk(d: DpcState) {
    && Total(Entering, d.tickets) == (if d.lock.Inserting? then 1 else 0)
    && (d.lock.Inserting? ==> !d.cancel && d.tickets != [] && Entering(d.tickets[|d.tickets| - 1]) == 1)
  }

  /** `queued` is set exactly while one insert has neither run nor been taken back: at most one. */
  ghost predicate QueueOk(d: DpcState) {
    Total(InQueue, d.tickets) == if d.queued then 1 else 0
  }

  ghost predicate RemovalOk(d: DpcState) {
    && (d.cancel <==> !d.removal.NoRemoval?)
    && (Total(Dropped, d.tickets) > 0 ==> d.removal.Waiting? || d.removal.Drained?)
    && (d.cancel && !d.removal.Waiting? ==> Total(InPool, d.tickets) == 0)
    && (d.removal.Took? || d.removal.Clearing? ==> !d.queued)
    && Total(TakenBack, d.tickets) == (if d.removal == Took(true) then 1 else 0)
  }

  /** The calls that returned TRUE and the runs of the routine are what the tickets say. */
  ghost predicate ResultsOk(d: DpcState) {
    && d.inserts == |d.tickets| - Total(Entering, d.tickets)
    && d.executions == Total(Executed, d.tickets)
    && d.removals == Total(RemovedOnes, d.tickets) - (if d.removal == Clearing(true) then 1 else 0)
  }

  ghost predicate DpcOk(d: DpcState) {
    LockOk(d) && QueueOk(d) && RemovalOk(d) && ResultsOk(d)
  }

  lemma StartKeeps(d: DpcState, t: nat)
    requires DpcOk(d) && Enabled(d, Start(t))
    ensures DpcOk(Act(d, Start(t)))
  {
    Shifts(d.tickets, t, Started);
  }

  lemma ExchangeKeeps(d: DpcState, t: nat)
    requires DpcOk(d) && Enabled(d, Exchange(t))
    ensures DpcOk(Act(d, Exchange(t)))
  {
    Shifts(d.tickets, t, Exchanged);
  }

  lemma RunningKeeps(d: DpcState, a: Action)
    requires DpcOk(d) && Enabled(d, a) && (a.Disassociate? || a.Execute? || a.CountRun?)
    ensures DpcOk(Act(d, a))
  {
    Shifts(d.tickets, a.t, if a.Disassociate? then Running else if a.Execute? then Ran else Done);
  }

  lemma PoolCancelKeeps(d: DpcState, t: nat)
    requires DpcOk(d) && Enabled(d, PoolCancel(t))
    ensures DpcOk(Act(d, PoolCancel(t)))
  {
    Shifts(d.tickets, t, Cancelled);
  }

  lemma MarkKeeps(d: DpcState)
    requires DpcOk(d) && Enabled(d, Mark)
    ensures DpcOk(Act(d, Mark))
  {
    Appends(d.tickets);
    Bounds(d.tickets);
  }

  lemma SubmitKeeps(d: DpcState, a: Action)
    requires DpcOk(d) && Enabled(d, a) && (a.CountInsert? || a.Submit?)
    ensures DpcOk(Act(d, a))
  {
    var last := |d.tickets| - 1;
    Shifts(d.tickets, last, Act(d, a).tickets[last]);
  }

  lemma TestingKeeps(d: DpcState, a: Action)
    requires DpcOk(d) && Enabled(d, a) && (a.Test? || a.Announce? || a.Refuse? || a.ClearCancel?)
    ensures DpcOk(Act(d, a))
  {
  }

  lemma DrainKeeps(d: DpcState)
    requires DpcOk(d) && Enabled(d, Drain)
    ensures DpcOk(Act(d, Drain))
  {
    TotalZero(InPool, d.tickets);
  }

  lemma TakeKeeps(d: DpcState, a: Action)
    requires DpcOk(d) && Enabled(d, a) && (a.Take? || a.CountRemoval?)
    ensures DpcOk(Act(d, a))
  {
    Bounds(d.tickets);
    if a.CountRemoval? || d.queued {
      Shifts(d.tickets, a.t, Act(d, a).tickets[a.t]);
    }
  }

  lemma ActKeeps(d: DpcState, a: Action)
    requires DpcOk(d) && Enabled(d, a)
    ensures DpcOk(Act(d, a))
  {
    match a
    case Mark => MarkKeeps(d);
    case CountInsert | Submit => SubmitKeeps(d, a);
    case Start(t) => StartKeeps(d, t);
    case Exchange(t) => ExchangeKeeps(d, t);
    case Disassociate(_) | Execute(_) | CountRun(_) => RunningKeeps(d, a);
    case Test | Announce | Refuse | ClearCancel => TestingKeeps(d, a);
    case PoolCancel(t) => PoolCancelKeeps(d, t);
    case Drain => DrainKeeps(d);
    case Take(_) | CountRemoval(_) => TakeKeeps(d, a);
  }

  // ---- All DPCs and the two counters

  function Next(s: State, i: nat, a: Action): State
    requires i < |s.dpcs| && Enabled(s.dpcs[i], a)
  {
    State(s.dpcs[i := Act(s.dpcs[i], a)],
          s.dpcsQueued + (if a.CountInsert? then 1 else 0),
          s.dpcsCompleted + (if a.CountRun? || a.CountRemoval? then 1 else 0))
  }

  datatype Move = Move(i: nat, a: Action)

  ghost predicate LegalRun(s: State, moves: seq<Move>)
    decreases |moves|
  {
    moves == [] || (moves[0].i < |s.dpcs| && Enabled(s.dpcs[moves[0].i], moves[0].a)
                    && LegalRun(Next(s, moves[0].i, moves[0].a), moves[1..]))
  }

  ghost function Run(s: State, moves: seq<Move>): State
    requires LegalRun(s, moves)
    decreases |moves|
  {
    if moves == [] then s else Run(Next(s, moves[0].i, moves[0].a), moves[1..])
  }

  /** Inserts counted in DpcsQueued, and the ones of them counted in DpcsCompleted. */
  ghost function QueuedBy(d: DpcState): int {
    |d.tickets| - Total(Uncounted, d.tickets)
  }

  ghost function CompletedBy(d: DpcState): int {
    Total(Ended, d.tickets)
  }

  /** Inserts that are counted and have come to no end yet. */
  ghost function Outstanding(d: DpcState): int {
    QueuedBy(d) - CompletedBy(d)
  }

  ghost predicate Inv(s: State) {
    && (forall i :: 0 <= i < |s.dpcs| ==> DpcOk(s.dpcs[i]))
    && s.dpcsQueued == Total(QueuedBy, s.dpcs)
    && s.dpcsCompleted == Total(CompletedBy, s.dpcs)
  }

  function Initial(n: nat): State {
    State(seq(n, _ => INITIAL), 0, 0)
  }

  lemma InitialHolds(n: nat)
    ensures Inv(Initial(n))
  {
    TotalZero(QueuedBy, Initial(n).dpcs);
    TotalZero(CompletedBy, Initial(n).dpcs);
  }

  /** The counters follow what a step does to the tickets. */
  ghost predicate CountsFollow(d: DpcState, a: Action)
    requires Enabled(d, a)
  {
    && QueuedBy(Act(d, a)) == QueuedBy(d) + (if a.CountInsert? then 1 else 0)
    && CompletedBy(Act(d, a)) == CompletedBy(d) + (if a.CountRun? || a.CountRemoval? then 1 else 0)
  }

  lemma InsertCounts(d: DpcState, a: Action)
    requires Enabled(d, a) && (a.Mark? || a.CountInsert? || a.Submit?)
    ensures CountsFollow(d, a)
  {
    if a.Mark? {
      Appends(d.tickets);
    } else {
      Recounted(d.tickets, |d.tickets| - 1, if a.Submit? then Pending else Counted);
    }
  }

  lemma CallbackCounts(d: DpcState, a: Action)
    requires Enabled(d, a) && (a.Start? || a.Exchange? || a.Disassociate? || a.Execute? || a.CountRun? || a.PoolCancel?)
    ensures CountsFollow(d, a)
  {
    Recounted(d.tickets, a.t, match a
      case Start(_) => Started
      case Exchange(_) => Exchanged
      case Disassociate(_) => Running
      case Execute(_) => Ran
      case CountRun(_) => Done
      case _ => Cancelled);
  }

  lemma RemovalCounts(d: DpcState, a: Action)
    requires Enabled(d, a)
    requires a.Test? || a.Announce? || a.Refuse? || a.Drain? || a.Take? || a.CountRemoval? || a.ClearCancel?
    ensures CountsFollow(d, a)
  {
    if a.CountRemoval? || (a.Take? && d.queued) {
      Recounted(d.tickets, a.t, if a.Take? then Taken else Removed);
    }
  }

  lemma ActCounts(d: DpcState, a: Action)
    requires Enabled(d, a)
    ensures CountsFollow(d, a)
  {
    if a.Mark? || a.CountInsert? || a.Submit? {
      InsertCounts(d, a);
    } else if a.Start? || a.Exchange? || a.Disassociate? || a.Execute? || a.CountRun? || a.PoolCancel? {
      CallbackCounts(d, a);
    } else {
      RemovalCounts(d, a);
    }
  }

  lemma Recounted(h: seq<Stage>, t: nat, to: Stage)
    requires t < |h|
    ensures Total(Uncounted, h[t := to]) == Total(Uncounted, h) - Uncounted(h[t]) + Uncounted(to)
    ensures Total(Ended, h[t := to]) == Total(Ended, h) - Ended(h[t]) + Ended(to)
  {
    TotalUpdate(Uncounted, h, t, to);
    TotalUpdate(Ended, h, t, to);
  }

  lemma NextKeeps(s: State, i: nat, a: Action)
    requires Inv(s) && i < |s.dpcs| && Enabled(s.dpcs[i], a)
    ensures Inv(Next(s, i, a))
  {
    var d := s.dpcs[i];
    ActKeeps(d, a);
    ActCounts(d, a);
    TotalUpdate(QueuedBy, s.dpcs, i, Act(d, a));
    TotalUpdate(CompletedBy, s.dpcs, i, Act(d, a));
  }

  lemma {:induction false} RunKeeps(s: State, moves: seq<Move>)
    requires Inv(s) && LegalRun(s, moves)
    ensures Inv(Run(s, moves)) && |Run(s, moves).dpcs| == |s.dpcs|
    ensures Run(s, moves).dpcsQueued >= s.dpcsQueued
    decreases |moves|
  {
    if moves != [] {
      NextKeeps(s, moves[0].i, moves[0].a);
      RunKeeps(Next(s, moves[0].i, moves[0].a), moves[1..]);
    }
  }
}
