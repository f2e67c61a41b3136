/** The remove lock: any number of acquisitions run through its interlocked steps in any order. */
module RemoveLock {
  // The steps are those of IoAcquireRemoveLockEx, IoReleaseRemoveLockEx and IoReleaseRemoveLockAndWaitEx.

  import opened Counting

  /** Where one acquisition of the lock stands. */
  datatype Pc =
    | Outside                // has not called, or has returned
    | Entered                // has incremented the count and not yet looked at Removed
    | Refused                // has seen Removed and not yet taken its increment back
    | Held                   // IoAcquireRemoveLockEx returned STATUS_SUCCESS
    | Signalling             // its decrement reached zero and it has not yet set the event
    | Announced              // the remover has set Removed
    | Unbiased               // the remover has taken back the initial count
    | Waiting                // the remover has given up its own hold and found others
    | Returned               // IoReleaseRemoveLockAndWaitEx has returned

  datatype State = State(ioCount: int, removed: bool, event: bool, holds: seq<Pc>)

  /** One scheduling decision: acquisition `i` takes its next step; a holder may leave or remove. */
  datatype Move = Move(i: nat, remove: bool)

  function At(s: State, i: nat, pc: Pc): State
    requires i < |s.holds|
  {
    s.(holds := s.holds[i := pc])
  }

  /** InterlockedDecrement followed by the test for zero. */
  function Decrement(s: State, i: nat): State
    requires i < |s.holds|
  {
    At(s, i, if s.ioCount - 1 == 0 then Signalling else Outside).(ioCount := s.ioCount - 1)
  }

  function Step(s: State, m: Move): State
    requires m.i < |s.holds|
  {
    match s.holds[m.i]
    case Outside => At(s, m.i, Entered).(ioCount := s.ioCount + 1)
    case Entered => At(s, m.i, if s.removed then Refused else Held)
    case Refused => Decrement(s, m.i)
    case Held =>
      if m.remove && !s.removed then At(s, m.i, Announced).(removed := true) else Decrement(s, m.i)
    case Signalling => At(s, m.i, Outside).(event := true)
    case Announced => At(s, m.i, Unbiased).(ioCount := s.ioCount - 1)
    case Unbiased =>
      At(s, m.i, if s.ioCount - 1 > 0 then Waiting else Returned).(ioCount := s.ioCount - 1)
    case Waiting => if s.event then At(s, m.i, Returned) else s
    case Returned => s
  }

  function Run(s: State, moves: seq<Move>): State
    requires forall k :: 0 <= k < |moves| ==> moves[k].i < |s.holds|
    ensures |Run(s, moves).holds| == |s.holds|
    decreases |moves|
  {
    if moves == [] then s else Run(Step(s, moves[0]), moves[1..])
  }

  /** IoInitializeRemoveLockEx, and `n` acquisitions to come. */
  function Initial(n: nat): State {
    State(1, false, false, seq(n, _ => Outside))
  }

  // ---- What is counted

  /** Acquisitions that hold the lock, the remover's own included until it gives it up. */
  function Holding(pc: Pc): int {
    if pc.Held? || pc.Announced? || pc.Unbiased? then 1 else 0
  }

  /** Acquirers that have incremented the count and not yet decided. */
  function InFlight(pc: Pc): int {
    if pc.Entered? || pc.Refused? then 1 else 0
  }

  function Remover(pc: Pc): int {
    if pc.Announced? || pc.Unbiased? || pc.Waiting? || pc.Returned? then 1 else 0
  }

  /** Removers that have taken the initial count back. */
  function BiasTaken(pc: Pc): int {
    if pc.Unbiased? || pc.Waiting? || pc.Returned? then 1 else 0
  }

  function Signals(pc: Pc): int {
    if pc.Signalling? then 1 else 0
  }

  /** A remover that has not yet decided whether to wait, or waits. */
  function Blocked(pc: Pc): int {
    if pc.Waiting? then 1 else 0
  }

  function Done(pc: Pc): int {
    if pc.Returned? then 1 else 0
  }

  /** The initial count is there until the remover takes it back. */
  function Bias(s: State): int {
    1 - Total(BiasTaken, s.holds)
  }

  // ---- The invariant

  ghost predicate Drained(s: State) {
    s.removed && Total(Holding, s.holds) == 0
  }

  ghost predicate Inv(s: State) {
    && s.ioCount == Bias(s) + Total(Holding, s.holds) + Total(InFlight, s.holds)
    && Total(Remover, s.holds) == (if s.removed then 1 else 0)
    && (s.event || Total(Signals, s.holds) > 0 || Total(Done, s.holds) > 0 ==> Drained(s))
    && (Total(Blocked, s.holds) > 0 && !s.event ==> s.ioCount > 0 || Total(Signals, s.holds) > 0)
  }

  lemma InitialHolds(n: nat)
    ensures Inv(Initial(n))
  {
    var h := Initial(n).holds;
    TotalZero(BiasTaken, h);
    TotalZero(Holding, h);
    TotalZero(InFlight, h);
    TotalZero(Remover, h);
    TotalZero(Signals, h);
    TotalZero(Done, h);
    TotalZero(Blocked, h);
  }

  /** How the sums change when acquisition `i` goes from one place to another. */
  lemma Moved(h: seq<Pc>, i: nat, pc: Pc)
    requires i < |h|
    ensures Shifted(h, h[i := pc], h[i], pc)
  {
    TotalUpdate(BiasTaken, h, i, pc);
    TotalUpdate(Holding, h, i, pc);
    TotalUpdate(InFlight, h, i, pc);
    TotalUpdate(Remover, h, i, pc);
    TotalUpdate(Signals, h, i, pc);
    TotalUpdate(Done, h, i, pc);
    TotalUpdate(Blocked, h, i, pc);
  }

  /** Each sum covers the acquisition that takes the step; a remover that has taken back the initial
      count is one of the removers. */
  lemma {:induction false} Sums(h: seq<Pc>)
    ensures Bounded(h)
    ensures forall i :: 0 <= i < |h| ==> Covered(h, h[i])
  {
    if h != [] {
      Sums(h[1..]);
      assert forall i :: 0 < i < |h| ==> h[i] == h[1..][i - 1];
    }
  }

  ghost predicate Covered(h: seq<Pc>, pc: Pc) {
    && Holding(pc) <= Total(Holding, h) && Remover(pc) <= Total(Remover, h)
    && Done(pc) <= Total(Done, h) && Blocked(pc) <= Total(Blocked, h)
  }

  /** All sums after acquisition `i` has gone to `pc`, with what bounds them. */
  lemma Placed(h: seq<Pc>, i: nat, pc: Pc)
    requires i < |h|
    ensures Covered(h, h[i]) && Bounded(h) && Covered(h[i := pc], pc) && Bounded(h[i := pc])
    ensures Shifted(h, h[i := pc], h[i], pc)
  {
    Moved(h, i, pc);
    Sums(h);
    Sums(h[i := pc]);
    assert h[i := pc][i] == pc;
  }

  ghost predicate Shifted(h: seq<Pc>, h': seq<Pc>, was: Pc, pc: Pc) {
    && Total(BiasTaken, h') == Total(BiasTaken, h) - BiasTaken(was) + BiasTaken(pc)
    && Total(Holding, h') == Total(Holding, h) - Holding(was) + Holding(pc)
    && Total(InFlight, h') == Total(InFlight, h) - InFlight(was) + InFlight(pc)
    && Total(Remover, h') == Total(Remover, h) - Remover(was) + Remover(pc)
    && Total(Signals, h') == Total(Signals, h) - Signals(was) + Signals(pc)
    && Total(Done, h') == Total(Done, h) - Done(was) + Done(pc)
    && Total(Blocked, h') == Total(Blocked, h) - Blocked(was) + Blocked(pc)
  }

  ghost predicate Bounded(h: seq<Pc>) {
    && Total(BiasTaken, h) <= Total(Remover, h) <= Total(BiasTaken, h) + Total(Holding, h)
    && Total(Blocked, h) + Total(Done, h) <= Total(BiasTaken, h)
    && Total(BiasTaken, h) <= Total(Holding, h) + Total(Blocked, h) + Total(Done, h)
    && Total(BiasTaken, h) >= 0 && Total(Holding, h) >= 0 && Total(InFlight, h) >= 0
    && Total(Signals, h) >= 0 && Total(Done, h) >= 0 && Total(Blocked, h) >= 0
  }

  lemma DecrementKeeps(s: State, i: nat)
    requires Inv(s) && i < |s.holds| && (s.holds[i].Held? || s.holds[i].Refused?)
    ensures Inv(Decrement(s, i))
  {
    Placed(s.holds, i, if s.ioCount - 1 == 0 then Signalling else Outside);
  }

  lemma RemovalKeeps(s: State, m: Move)
    requires Inv(s) && m.i < |s.holds|
    requires s.holds[m.i].Announced? || s.holds[m.i].Unbiased? || s.holds[m.i].Waiting?
    ensures Inv(Step(s, m))
  {
    Placed(s.holds, m.i, Unbiased);
    Placed(s.holds, m.i, Waiting);
    Placed(s.holds, m.i, Returned);
  }

  lemma EnteringKeeps(s: State, m: Move)
    requires Inv(s) && m.i < |s.holds| && (s.holds[m.i].Outside? || s.holds[m.i].Entered?)
    ensures Inv(Step(s, m))
  {
    Placed(s.holds, m.i, Step(s, m).holds[m.i]);
  }

  lemma AnnouncingKeeps(s: State, m: Move)
    requires Inv(s) && m.i < |s.holds|
    requires s.holds[m.i].Signalling? || (s.holds[m.i].Held? && m.remove && !s.removed)
    ensures Inv(Step(s, m))
  {
    Placed(s.holds, m.i, Step(s, m).holds[m.i]);
  }

  lemma StepKeeps(s: State, m: Move)
    requires Inv(s) && m.i < |s.holds|
    ensures Inv(Step(s, m))
    ensures s.removed ==> Step(s, m).removed
  {
    match s.holds[m.i]
    case Outside | Entered => EnteringKeeps(s, m);
    case Refused => DecrementKeeps(s, m.i);
    case Held =>
      if m.remove && !s.removed {
        AnnouncingKeeps(s, m);
      } else {
        DecrementKeeps(s, m.i);
      }
    case Signalling => AnnouncingKeeps(s, m);
    case Announced | Unbiased | Waiting => RemovalKeeps(s, m);
    case Returned =>
  }

  ghost predicate Moves(s: State, moves: seq<Move>) {
    forall k :: 0 <= k < |moves| ==> moves[k].i < |s.holds|
  }

  lemma {:induction false} RunKeeps(s: State, moves: seq<Move>)
    requires Inv(s) && Moves(s, moves)
    ensures Inv(Run(s, moves))
    ensures s.removed ==> Run(s, moves).removed
    decreases |moves|
  {
    if moves != [] {
      StepKeeps(s, moves[0]);
      RunKeeps(Step(s, moves[0]), moves[1..]);
    }
  }

  // ---- What the protocol promises

  /** In every reachable state the count is the initial count, while it is there, plus the holders
      plus the acquirers in flight; so it never falls below zero. */
  lemma CountIsExact(n: nat, moves: seq<Move>)
    requires Moves(Initial(n), moves)
    ensures var s := Run(Initial(n), moves);
            && s.ioCount == Bias(s) + Total(Holding, s.holds) + Total(InFlight, s.holds)
            && (Bias(s) == 0 || Bias(s) == 1) && s.ioCount >= 0
  {
    InitialHolds(n);
    RunKeeps(Initial(n), moves);
    Sums(Run(Initial(n), moves).holds);
  }

  /** Once IoReleaseRemoveLockAndWaitEx has returned nobody holds the lock, and nobody ever will,
      whatever the other threads go on to do. */
  lemma NoHolderAfterReturn(n: nat, moves: seq<Move>, more: seq<Move>, i: nat, j: nat)
    requires Moves(Initial(n), moves) && Moves(Initial(n), more) && i < n && j < n
    requires Run(Initial(n), moves).holds[i].Returned?
    ensures !Run(Run(Initial(n), moves), more).holds[j].Held?
    ensures Run(Run(Initial(n), moves), more).holds[i].Returned?
  {
    InitialHolds(n);
    RunKeeps(Initial(n), moves);
    StaysReturned(Run(Initial(n), moves), more, i);
    var s := Run(Run(Initial(n), moves), more);
    Sums(s.holds);
  }

  lemma {:induction false} StaysReturned(s: State, moves: seq<Move>, i: nat)
    requires Inv(s) && Moves(s, moves) && i < |s.holds| && s.holds[i].Returned?
    ensures Inv(Run(s, moves)) && Run(s, moves).holds[i].Returned?
    decreases |moves|
  {
    if moves != [] {
      StepKeeps(s, moves[0]);
      StaysReturned(Step(s, moves[0]), moves[1..], i);
    }
  }

  /** An acquisition whose coming steps decrement the count or set the event. */
  predicate WillSignal(pc: Pc) {
    pc.Held? || pc.Entered? || pc.Refused? || pc.Signalling?
  }

  /** No lost wakeup: while the remover waits on an event that is not set, someone still has to
      decrement the count or to set the event. */
  lemma NoLostWakeup(s: State, i: nat)
    requires Inv(s) && i < |s.holds| && s.holds[i].Waiting? && !s.event
    ensures exists j :: 0 <= j < |s.holds| && WillSignal(s.holds[j])
  {
    Sums(s.holds);
    TotalNonNegative(Holding, s.holds);
    TotalNonNegative(InFlight, s.holds);
    TotalNonNegative(Signals, s.holds);
    OnlyRemover(s, i);
  }

  lemma OnlyRemover(s: State, i: nat)
    requires Inv(s) && i < |s.holds| && s.holds[i].Waiting?
    ensures forall j :: 0 <= j < |s.holds| && j != i ==> Remover(s.holds[j]) == 0
  {
    Sums(s.holds);
    forall j | 0 <= j < |s.holds| && j != i ensures Remover(s.holds[j]) == 0 {
      TotalOfTwo(Remover, s.holds, if i < j then i else j, if i < j then j else i);
    }
  }

  // ---- The remover gets through

  /** Steps an acquisition can still take before it comes to rest. */
  function Remaining(pc: Pc): int {
    match pc
    case Outside | Returned => 0
    case Signalling | Waiting => 1
    case Refused | Unbiased => 2
    case Announced => 3
    case Held => 4
    case Entered => 5
  }

  /** Acquisition `i` is inside a call or holds the lock, and is not blocked on the event. */
  predicate Enabled(s: State, i: nat)
    requires i < |s.holds|
  {
    !s.holds[i].Outside? && !s.holds[i].Returned? && (s.holds[i].Waiting? ==> s.event)
  }

  /** The moves of a run in which nobody enters anew and nobody is scheduled while it is blocked. */
  ghost predicate Draining(s: State, moves: seq<Move>)
    decreases |moves|
  {
    moves == [] ||
    (moves[0].i < |s.holds| && Enabled(s, moves[0].i) && Draining(Step(s, moves[0]), moves[1..]))
  }

  ghost predicate Quiescent(s: State) {
    forall i :: 0 <= i < |s.holds| ==> !Enabled(s, i)
  }

  lemma StepCounts(s: State, m: Move)
    requires m.i < |s.holds| && Enabled(s, m.i)
    ensures Total(Remaining, Step(s, m).holds) < Total(Remaining, s.holds)
  {
    var pc := Step(s, m).holds[m.i];
    assert Step(s, m).holds == s.holds[m.i := pc];
    TotalUpdate(Remaining, s.holds, m.i, pc);
    assert Remaining(pc) < Remaining(s.holds[m.i]);
  }

  lemma {:induction false} DrainingIsFinite(s: State, moves: seq<Move>)
    requires Draining(s, moves)
    ensures Moves(s, moves)
    ensures |moves| <= Total(Remaining, s.holds) - Total(Remaining, Run(s, moves).holds)
    decreases |moves|
  {
    if moves != [] {
      StepCounts(s, moves[0]);
      DrainingIsFinite(Step(s, moves[0]), moves[1..]);
      assert forall k :: 0 < k < |moves| ==> moves[k] == moves[1..][k - 1];
    }
  }

  /** From any reachable state with a remover, however the threads are scheduled, once nobody enters
      anew at most `Total(Remaining, …)` steps remain, and when no step is left the remover has
      returned. */
  lemma RemoverReturns(s: State, moves: seq<Move>, i: nat)
    requires Inv(s) && i < |s.holds| && Remover(s.holds[i]) == 1
    requires Draining(s, moves) && Moves(s, moves) && Quiescent(Run(s, moves))
    ensures |moves| <= Total(Remaining, s.holds)
    ensures Run(s, moves).holds[i].Returned?
  {
    var s' := Run(s, moves);
    DrainingIsFinite(s, moves);
    TotalNonNegative(Remaining, s'.holds);
    RunKeeps(s, moves);
    StaysRemover(s, moves, i);
    assert !Enabled(s', i);
    forall j | 0 <= j < |s'.holds| ensures !WillSignal(s'.holds[j]) {
      assert !Enabled(s', j);
    }
    if s'.holds[i].Waiting? && !s'.event {
      NoLostWakeup(s', i);
    }
  }

  lemma StepStaysRemover(s: State, m: Move, i: nat)
    requires m.i < |s.holds| && i < |s.holds| && Remover(s.holds[i]) == 1
    ensures |Step(s, m).holds| == |s.holds| && Remover(Step(s, m).holds[i]) == 1
  {
  }

  lemma {:induction false} StaysRemover(s: State, moves: seq<Move>, i: nat)
    requires i < |s.holds| && Remover(s.holds[i]) == 1 && Moves(s, moves)
    ensures Remover(Run(s, moves).holds[i]) == 1
    decreases |moves|
  {
    if moves != [] {
      StepStaysRemover(s, moves[0], i);
      StaysRemover(Step(s, moves[0]), moves[1..], i);
    }
  }
}
