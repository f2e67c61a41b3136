/** An I/O request packet as values: calls, completion, and the events they cause. */
module IrpStack {
  import opened Common

  type Pointer = nat

  const NULL: Pointer := 0

  /** The SL_ bits of IO_STACK_LOCATION.Control. */
  datatype Control = Control(onSuccess: bool, onError: bool, onCancel: bool, pending: bool)

  const NO_CONTROL := Control(false, false, false, false)

  /** `parameters` stands for MinorFunction, Flags, FileObject and Parameters. */
  datatype Location = Location(device: Pointer, parameters: nat, routine: Pointer, context: Pointer, control: Control)

  const ZERO_LOCATION := Location(NULL, 0, NULL, NULL, NO_CONTROL)

  /** Location `l` (1-based, counted down by calls) is `stack[l - 1]`. */
  datatype Irp = Irp(stackCount: nat, current: int, stack: seq<Location>,
                     pendingReturned: bool, success: bool, cancel: bool)

  /** What a driver writes to the next location before it calls the next driver. */
  datatype Setup =
    | Parameters(parameters: nat)
    | Completion(parameters: nat, routine: Pointer, context: Pointer, onSuccess: bool, onError: bool, onCancel: bool)

  /** What a completion routine does: the status it leaves, whether it cancels the request, whether it
      marks the request pending, and whether it returns STATUS_MORE_PROCESSING_REQUIRED. */
  datatype Reply = Reply(success: bool, cancel: bool, mark: bool, more: bool)

  /** A completion routine sees the whole request. */
  type Oracle = Irp -> Reply

  datatype Event =
    | Pushed(location: int, device: Pointer, setup: Setup)
    | StatusSet(success: bool, cancel: bool)
    | Completing
    | Popped(location: int)
    | Fired(location: int, device: Pointer, routine: Pointer, context: Pointer)
    | Answered(reply: Reply)
    | Finished
    | BugCheck

  datatype Outcome = Outcome(irp: Irp, events: seq<Event>, stopped: bool)

  // ---- Steps

  ghost predicate WellFormed(s: Irp) {
    |s.stack| == s.stackCount && 1 <= s.current <= s.stackCount + 2
  }

  function Initialize(stackSize: nat): Irp {
    Irp(stackSize, stackSize + 1, seq(stackSize, _ => ZERO_LOCATION), false, true, false)
  }

  function Written(l: Location, setup: Setup): Location {
    match setup
    case Parameters(p) => l.(parameters := p)
    case Completion(p, routine, context, s, e, c) =>
      Location(l.device, p, routine, context, Control(s, e, c, false))
  }

  predicate CanCall(s: Irp) {
    1 < s.current <= s.stackCount + 1 && |s.stack| == s.stackCount
  }

  /** IoSetCompletionRoutine on the next location, then IofCallDriver. */
  function Call(s: Irp, device: Pointer, setup: Setup): Irp
    requires CanCall(s)
  {
    var n := s.current - 2;
    s.(current := s.current - 1, stack := s.stack[n := Written(s.stack[n], setup).(device := device)])
  }

  /** IoMarkIrpPending */
  function MarkPending(s: Irp): Irp
    requires WellFormed(s)
  {
    if s.current <= s.stackCount then
      var l := s.stack[s.current - 1];
      s.(stack := s.stack[s.current - 1 := l.(control := l.control.(pending := true))])
    else s
  }

  /** ClearStackLocation keeps the device and the routine. */
  function Cleared(l: Location): Location {
    l.(parameters := 0, control := NO_CONTROL)
  }

  predicate Invokes(control: Control, success: bool, cancel: bool) {
    (success && control.onSuccess) || (!success && control.onError) || (cancel && control.onCancel)
  }

  function DeviceAbove(s: Irp): Pointer
    requires WellFormed(s)
  {
    if s.current <= s.stackCount then s.stack[s.current - 1].device else NULL
  }

  function Replied(s: Irp, r: Reply): Irp
    requires WellFormed(s)
  {
    var s' := s.(success := r.success, cancel := s.cancel || r.cancel);
    if r.mark then MarkPending(s') else s'
  }

  /** The request while the routine of the popped location runs. */
  function Popping(s: Irp): Irp
    requires WellFormed(s) && s.current <= s.stackCount
  {
    var l := s.stack[s.current - 1];
    s.(current := s.current + 1, pendingReturned := l.control.pending,
       stack := s.stack[s.current - 1 := Cleared(l)])
  }

  /** One turn of the completion loop. */
  function Pop(s: Irp, oracle: Oracle): Outcome
    requires WellFormed(s) && s.current <= s.stackCount
  {
    var l, s' := s.stack[s.current - 1], Popping(s);
    if Invokes(l.control, s.success, s.cancel) then
      var r := oracle(s');
      Outcome(Replied(s', r), [Popped(s.current), Fired(s.current, DeviceAbove(s'), l.routine, l.context), Answered(r)],
        r.more)
    else
      Outcome(if l.control.pending then MarkPending(s') else s', [Popped(s.current)], false)
  }

  /** What the routine of the popped location sees: its location cleared but for the device and the routine. */
  ghost function Seen(s: Irp): Irp
    requires WellFormed(s) && s.current <= s.stackCount
  {
    var l := s.stack[s.current - 1];
    var left := Location(l.device, 0, l.routine, l.context, Control(false, false, false, false));
    Irp(s.stackCount, s.current + 1, s.stack[s.current - 1 := left], l.control.pending, s.success, s.cancel)
  }

  /** A pop on the fields: whether the routine fires by the status and the cancel flag of the request, what it is given
      and sees, and what is left.  Only the popped location is cleared, and only the one above may get a mark. */
  lemma PopMeans(s: Irp, oracle: Oracle)
    requires WellFormed(s) && s.current <= s.stackCount
    ensures var l, seen, reply, o := s.stack[s.current - 1], Seen(s), oracle(Seen(s)), Pop(s, oracle);
            var device := if s.current < s.stackCount then s.stack[s.current].device else NULL;
            var fires := || (s.success && l.control.onSuccess) || (!s.success && l.control.onError)
                         || (s.cancel && l.control.onCancel);
            && (fires ==> o.events == [Popped(s.current), Fired(s.current, device, l.routine, l.context),
                  Answered(reply)])
            && (!fires ==> o.events == [Popped(s.current)])
            && o.stopped == (fires && reply.more)
            && o.irp.success == (if fires then reply.success else s.success)
            && o.irp.cancel == (s.cancel || (fires && reply.cancel))
            && Above(seen, o.irp, if fires then reply.mark else l.control.pending)
  {
  }

  /** Two requests differ at most in status, cancel flag and, if it is marked, the current location's pending bit. */
  ghost predicate Above(s: Irp, s': Irp, mark: bool) {
    && s'.(success := s.success, cancel := s.cancel, stack := s.stack) == s && |s'.stack| == |s.stack|
    && (forall n :: 0 <= n < |s.stack| && n != s.current - 1 ==> s'.stack[n] == s.stack[n])
    && (forall n :: 0 <= n < |s.stack| && n == s.current - 1 ==>
          var control := s.stack[n].control;
          s'.stack[n] == s.stack[n].(control := control.(pending := control.pending || mark)))
  }

  lemma PopForm(s: Irp, oracle: Oracle)
    requires WellFormed(s) && s.current <= s.stackCount
    ensures var s' := Pop(s, oracle).irp;
            WellFormed(s') && s'.current == s.current + 1 && s'.stackCount == s.stackCount
  {
  }

  /** The completion loop from where the request stands. */
  function Walk(s: Irp, oracle: Oracle): Outcome
    requires WellFormed(s) && s.current <= s.stackCount + 1
    decreases s.stackCount + 1 - s.current
  {
    if s.current == s.stackCount + 1 then Outcome(s.(current := s.current + 1), [Finished], false)
    else
      PopForm(s, oracle);
      var first := Pop(s, oracle);
      if first.stopped then first
      else
        var rest := Walk(first.irp, oracle);
        Outcome(rest.irp, first.events + rest.events, rest.stopped)
  }

  /** IofCompleteRequest */
  function Complete(s: Irp, oracle: Oracle): Outcome
    requires WellFormed(s)
  {
    if s.current > s.stackCount + 1 then Outcome(s, [Completing, BugCheck], true)
    else
      var o := Walk(s, oracle);
      o.(events := [Completing] + o.events)
  }

  lemma {:induction false} WalkForm(s: Irp, oracle: Oracle)
    requires WellFormed(s) && s.current <= s.stackCount + 1
    ensures var o := Walk(s, oracle);
            WellFormed(o.irp) && o.irp.stackCount == s.stackCount && o.irp.current > s.current
    ensures !Walk(s, oracle).stopped <==> Walk(s, oracle).irp.current == s.stackCount + 2
    ensures !Walk(s, oracle).stopped <==> Finished in Walk(s, oracle).events
    ensures BugCheck !in Walk(s, oracle).events
    decreases s.stackCount + 1 - s.current
  {
    if s.current <= s.stackCount {
      PopForm(s, oracle);
      if !Pop(s, oracle).stopped {
        WalkForm(Pop(s, oracle).irp, oracle);
      }
    }
  }

  // ---- Stopping and resuming

  /** The same completion routines, none of which stops the completion. */
  function NeverStopping(oracle: Oracle): Oracle {
    s => oracle(s).(more := false)
  }

  /** Completing the request again each time a routine has stopped it. */
  function Resumed(s: Irp, oracle: Oracle): Outcome
    requires WellFormed(s) && s.current <= s.stackCount + 1
    decreases s.stackCount + 1 - s.current
  {
    WalkForm(s, oracle);
    var o := Walk(s, oracle);
    if !o.stopped then o
    else
      var rest := Resumed(o.irp, oracle);
      Outcome(rest.irp, o.events + rest.events, rest.stopped)
  }

  /** The same events, but no routine has asked to stop. */
  ghost function Unstopped(events: seq<Event>): seq<Event> {
    seq(|events|, i requires 0 <= i < |events| =>
      if events[i].Answered? then Answered(events[i].reply.(more := false)) else events[i])
  }

  lemma UnstoppedAppend(a: seq<Event>, b: seq<Event>)
    ensures Unstopped(a + b) == Unstopped(a) + Unstopped(b)
  {
  }

  /** Stopping any number of times and resuming ends in the same request, having popped the same locations
      and fired the same routines in the same order, with the same answers, as never stopping. */
  lemma {:induction false} ResumingIsNeverStopping(s: Irp, oracle: Oracle)
    requires WellFormed(s) && s.current <= s.stackCount + 1
    ensures Walk(s, NeverStopping(oracle)) == NotStopped(Resumed(s, oracle))
    decreases s.stackCount + 1 - s.current
  {
    if s.current <= s.stackCount {
      PopForm(s, oracle);
      var first := Pop(s, oracle);
      assert Pop(s, NeverStopping(oracle)) == NotStopped(first);
      ResumingIsNeverStopping(first.irp, oracle);
      UnstoppedAppend(first.events, Resumed(first.irp, oracle).events);
      ResumedNext(s, oracle);
    }
  }

  /** A request completed whether routines have asked to stop or not. */
  ghost function NotStopped(o: Outcome): Outcome {
    Outcome(o.irp, Unstopped(o.events), false)
  }

  /** A pop, and then completing the rest with as many stops as it takes. */
  lemma ResumedNext(s: Irp, oracle: Oracle)
    requires WellFormed(s) && s.current <= s.stackCount
    ensures var first := Pop(s, oracle);
            && WellFormed(first.irp) && first.irp.current <= first.irp.stackCount + 1
            && Resumed(s, oracle).irp == Resumed(first.irp, oracle).irp
            && Resumed(s, oracle).events == first.events + Resumed(first.irp, oracle).events
  {
    PopForm(s, oracle);
    var first := Pop(s, oracle);
    if !first.stopped {
      WalkForm(first.irp, oracle);
      var o := Walk(first.irp, oracle);
      if o.stopped {
        var rest := Resumed(o.irp, oracle);
        assert first.events + o.events + rest.events == first.events + (o.events + rest.events);
      }
    }
  }

  // ---- Runs

  datatype Op =
    | OpCall(device: Pointer, setup: Setup)
    | OpMark
    | OpStatus(success: bool, cancel: bool)
    | OpComplete(oracle: Oracle)

  /** A driver may call the next one while there is a location left, and may mark its own location. */
  predicate Legal(s: Irp, op: Op) {
    match op
    case OpCall(_, _) => CanCall(s)
    case OpMark => s.current <= s.stackCount
    case OpStatus(_, _) => true
    case OpComplete(_) => true
  }

  function Perform(s: Irp, op: Op): Outcome
    requires WellFormed(s) && Legal(s, op)
  {
    match op
    case OpCall(device, setup) => Outcome(Call(s, device, setup), [Pushed(s.current - 1, device, setup)], false)
    case OpMark => Outcome(MarkPending(s), [], false)
    case OpStatus(success, cancel) => 
      Outcome(s.(success := success, cancel := s.cancel || cancel), [StatusSet(success, cancel)], false)
    case OpComplete(oracle) => Complete(s, oracle)
  }

  lemma PerformForm(s: Irp, op: Op)
    requires WellFormed(s) && Legal(s, op)
    ensures WellFormed(Perform(s, op).irp) && Perform(s, op).irp.stackCount == s.stackCount
  {
    if op.OpComplete? && s.current <= s.stackCount + 1 {
      WalkForm(s, op.oracle);
    }
  }

  /** Each operation is legal where the run has come to. */
  ghost predicate LegalRun(s: Irp, ops: seq<Op>)
    requires WellFormed(s)
    decreases |ops|
  {
    ops == [] || (Legal(s, ops[0]) && (PerformForm(s, ops[0]); LegalRun(Perform(s, ops[0]).irp, ops[1..])))
  }

  /** Where a run of operations leads and all events on the way. */
  ghost function Run(s: Irp, ops: seq<Op>): (Irp, seq<Event>)
    requires WellFormed(s) && LegalRun(s, ops)
    decreases |ops|
  {
    if ops == [] then (s, [])
    else
      PerformForm(s, ops[0]);
      var o := Perform(s, ops[0]);
      var rest := Run(o.irp, ops[1..]);
      (rest.0, o.events + rest.1)
  }

  // ---- The ledger: reading a trace as pushes and pops of a stack

  /** A location that was called and not yet popped, and what its caller wrote. */
  datatype Frame = Frame(location: int, device: Pointer, setup: Setup)

  /** Whether a completion is going on, and in it whether the routine of the popped frame has to fire now, or runs. */
  datatype Stage = Outside | Looping | Firing(frame: Frame) | Running

  /** `frames` are the open calls, the newest first; `success` and `cancel` are what the last status set or answered and
      the cancellations so far have made of the request. */
  datatype Ledger = Ledger(frames: seq<Frame>, stage: Stage, success: bool, cancel: bool) | Broken

  const EMPTY := Ledger([], Outside, true, false)

  /** The routine that a caller set is to fire for the status and cancel flag at the pop. */
  predicate Due(setup: Setup, success: bool, cancel: bool) {
    && setup.Completion?
    && ((success && setup.onSuccess) || (!success && setup.onError) || (cancel && setup.onCancel))
  }

  /** A pop takes the newest open call, and is part of a completion that no routine has stopped.  Exactly if the
      bits of that call match the status and the cancel flag the request has by then, a routine fires next; it is
      the one that the caller set, and it gets the device of the frame above, or none.  A completion that is not
      stopped goes on until no call is open. */
  function Post(ledger: Ledger, e: Event): Ledger {
    match ledger
    case Broken => Broken
    case Ledger(frames, stage, success, cancel) =>
      match e
      case Pushed(location, device, setup) =>
        if stage.Outside? then ledger.(frames := [Frame(location, device, setup)] + frames) else Broken
      case StatusSet(success', cancel') =>
        if stage.Outside? then ledger.(success := success', cancel := cancel || cancel') else Broken
      case Completing => if stage.Outside? then ledger.(stage := Looping) else Broken
      case Popped(location) =>
        if stage.Looping? && frames != [] && frames[0].location == location then
          ledger.(frames := frames[1..],
                  stage := if Due(frames[0].setup, success, cancel) then Firing(frames[0]) else Looping)
        else Broken
      case Fired(location, device, routine, context) =>
        if stage.Firing? && stage.frame.location == location && stage.frame.setup.Completion?
           && stage.frame.setup.routine == routine && stage.frame.setup.context == context
           && device == (if frames != [] then frames[0].device else NULL)
        then ledger.(stage := Running) else Broken
      case Answered(reply) =>
        if stage.Running? then
          ledger.(success := reply.success, cancel := cancel || reply.cancel,
                  stage := if reply.more then Outside else Looping)
        else Broken
      case Finished => if stage.Looping? && frames == [] then ledger.(stage := Outside) else Broken
      case BugCheck => if stage.Looping? && frames == [] then ledger.(stage := Outside) else Broken
  }

  function Replay(ledger: Ledger, trace: seq<Event>): Ledger
    decreases |trace|
  {
    if trace == [] then ledger else Replay(Post(ledger, trace[0]), trace[1..])
  }

  lemma {:induction false} ReplayAppend(ledger: Ledger, a: seq<Event>, b: seq<Event>)
    ensures Replay(ledger, a + b) == Replay(Replay(ledger, a), b)
    decreases |a|
  {
    if a == [] {
      assert a + b == b;
    } else {
      assert (a + b)[1..] == a[1..] + b;
      ReplayAppend(Post(ledger, a[0]), a[1..], b);
    }
  }

  /** The open calls are the locations from the current one up, each with the device, the routine and the
      invoke bits its caller gave it; every location below is free of control bits. */
  ghost predicate FramesOk(s: Irp, frames: seq<Frame>) {
    && WellFormed(s)
    && |frames| == (if s.current <= s.stackCount then s.stackCount + 1 - s.current else 0)
    && (forall k :: 0 <= k < |frames| ==> FrameOk(s, frames[k], s.current + k))
    && (forall n :: 0 <= n < s.stackCount && n < s.current - 1 ==> s.stack[n].control == NO_CONTROL)
  }

  ghost predicate FrameOk(s: Irp, f: Frame, location: int) {
    && f.location == location && 1 <= location <= |s.stack|
    && s.stack[location - 1].device == f.device
    && var l := s.stack[location - 1];
       match f.setup
       case Parameters(parameters) => l.parameters == parameters && l.control.(pending := false) == NO_CONTROL
       case Completion(parameters, routine, context, onSuccess, onError, onCancel) =>
         l.parameters == parameters && l.routine == routine && l.context == context
         && l.control.(pending := false) == Control(onSuccess, onError, onCancel, false)
  }

  /** The ledger has followed the request to the given stage. */
  ghost predicate Follows(s: Irp, ledger: Ledger, stage: Stage) {
    && ledger.Ledger? && ledger.stage == stage && ledger.success == s.success && ledger.cancel == s.cancel
    && FramesOk(s, ledger.frames)
  }

  ghost predicate Agrees(s: Irp, ledger: Ledger) {
    Follows(s, ledger, Outside)
  }

  lemma MarkAgrees(s: Irp, frames: seq<Frame>)
    requires FramesOk(s, frames)
    ensures FramesOk(MarkPending(s), frames)
  {
    var s' := MarkPending(s);
    forall k | 0 <= k < |frames| ensures FrameOk(s', frames[k], s'.current + k) {
      assert FrameOk(s, frames[k], s.current + k);
    }
  }

  lemma CallAgrees(s: Irp, frames: seq<Frame>, device: Pointer, setup: Setup)
    requires FramesOk(s, frames) && CanCall(s)
    ensures FramesOk(Call(s, device, setup), [Frame(s.current - 1, device, setup)] + frames)
  {
    var s', frames' := Call(s, device, setup), [Frame(s.current - 1, device, setup)] + frames;
    forall k | 0 <= k < |frames'| ensures FrameOk(s', frames'[k], s'.current + k) {
      if k > 0 {
        assert FrameOk(s, frames[k - 1], s.current + (k - 1));
      }
    }
  }

  lemma PoppingAgrees(s: Irp, frames: seq<Frame>)
    requires FramesOk(s, frames) && s.current <= s.stackCount
    ensures FrameOk(s, frames[0], s.current) && FramesOk(Popping(s), frames[1..])
    ensures DeviceAbove(Popping(s)) == (if frames[1..] != [] then frames[1..][0].device else NULL)
  {
    var s' := Popping(s);
    assert FrameOk(s, frames[0], s.current + 0);
    forall k | 0 <= k < |frames[1..]| ensures FrameOk(s', frames[1..][k], s'.current + k) {
      assert FrameOk(s, frames[k + 1], s.current + (k + 1));
    }
    if frames[1..] != [] {
      assert FrameOk(s', frames[1..][0], s'.current + 0);
    }
  }

  lemma RepliedAgrees(s: Irp, frames: seq<Frame>, r: Reply)
    requires FramesOk(s, frames)
    ensures FramesOk(Replied(s, r), frames)
  {
    var s' := s.(success := r.success, cancel := s.cancel || r.cancel);
    forall k | 0 <= k < |frames| ensures FrameOk(s', frames[k], s'.current + k) {
      assert FrameOk(s, frames[k], s.current + k);
    }
    MarkAgrees(s', frames);
  }

  /** A routine that fires is the one its caller set, and it gets the device of the location above. */
  lemma FiringPosts(s: Irp, ledger: Ledger)
    requires Follows(s, ledger, Looping) && s.current <= s.stackCount
    ensures var frames, l := ledger.frames, s.stack[s.current - 1];
            var popped := Post(ledger, Popped(s.current));
            if Invokes(l.control, s.success, s.cancel) then
              && popped == ledger.(frames := frames[1..], stage := Firing(frames[0]))
              && Post(popped, Fired(s.current, DeviceAbove(Popping(s)), l.routine, l.context))
                 == popped.(stage := Running)
            else popped == ledger.(frames := frames[1..])
  {
    PoppingAgrees(s, ledger.frames);
    DueInvokes(s, ledger.frames[0]);
  }

  lemma DueInvokes(s: Irp, f: Frame)
    requires WellFormed(s) && s.current <= s.stackCount && FrameOk(s, f, s.current)
    ensures Due(f.setup, s.success, s.cancel) == Invokes(s.stack[s.current - 1].control, s.success, s.cancel)
  {
  }

  lemma PopAgrees(s: Irp, ledger: Ledger, oracle: Oracle)
    requires Follows(s, ledger, Looping) && s.current <= s.stackCount
    ensures var o := Pop(s, oracle);
            Follows(o.irp, Replay(ledger, o.events), if o.stopped then Outside else Looping)
  {
    PoppingAgrees(s, ledger.frames);
    FiringPosts(s, ledger);
    var l := s.stack[s.current - 1];
    if Invokes(l.control, s.success, s.cancel) {
      var reply := oracle(Popping(s));
      ReplayThree(ledger, Popped(s.current), Fired(s.current, DeviceAbove(Popping(s)), l.routine, l.context),
        Answered(reply));
      RepliedAgrees(Popping(s), ledger.frames[1..], reply);
    } else {
      MarkAgrees(Popping(s), ledger.frames[1..]);
      assert Pop(s, oracle).events[1..] == [];
    }
  }

  lemma ReplayThree(ledger: Ledger, a: Event, b: Event, c: Event)
    ensures Replay(ledger, [a, b, c]) == Post(Post(Post(ledger, a), b), c)
  {
    assert [a, b, c][1..] == [b, c] && [b, c][1..] == [c];
    assert Replay(Post(ledger, a), [b, c]) == Replay(Post(Post(ledger, a), b), [c]);
    assert [c][1..] == [];
    assert Replay(Post(Post(ledger, a), b), [c]) == Replay(Post(Post(Post(ledger, a), b), c), []);
  }

  lemma {:induction false} WalkAgrees(s: Irp, ledger: Ledger, oracle: Oracle)
    requires Follows(s, ledger, Looping) && s.current <= s.stackCount + 1
    ensures Agrees(Walk(s, oracle).irp, Replay(ledger, Walk(s, oracle).events))
    decreases s.stackCount + 1 - s.current
  {
    if s.current <= s.stackCount {
      var first := Pop(s, oracle);
      PopAgrees(s, ledger, oracle);
      PopForm(s, oracle);
      if !first.stopped {
        WalkAgrees(first.irp, Replay(ledger, first.events), oracle);
        ReplayAppend(ledger, first.events, Walk(first.irp, oracle).events);
      }
    }
  }

  lemma CompleteAgrees(s: Irp, ledger: Ledger, oracle: Oracle)
    requires Agrees(s, ledger)
    ensures Agrees(Complete(s, oracle).irp, Replay(ledger, Complete(s, oracle).events))
  {
    if s.current <= s.stackCount + 1 {
      WalkAgrees(s, Post(ledger, Completing), oracle);
      ReplayAppend(ledger, [Completing], Walk(s, oracle).events);
    } else {
      assert [Completing, BugCheck][1..] == [BugCheck];
    }
  }

  lemma PerformAgrees(s: Irp, ledger: Ledger, op: Op)
    requires Agrees(s, ledger) && Legal(s, op)
    ensures Agrees(Perform(s, op).irp, Replay(ledger, Perform(s, op).events))
  {
    match op
    case OpCall(device, setup) => CallAgrees(s, ledger.frames, device, setup);
    case OpMark => MarkAgrees(s, ledger.frames);
    case OpStatus(_, _) =>
      forall k | 0 <= k < |ledger.frames| ensures FrameOk(Perform(s, op).irp, ledger.frames[k], s.current + k) {
        assert FrameOk(s, ledger.frames[k], s.current + k);
      }
    case OpComplete(oracle) =>
      CompleteAgrees(s, ledger, oracle);
  }

  lemma {:induction false} RunAgrees(s: Irp, ops: seq<Op>, ledger: Ledger)
    requires Agrees(s, ledger) && LegalRun(s, ops)
    ensures Agrees(Run(s, ops).0, Replay(ledger, Run(s, ops).1)) && Run(s, ops).0.stackCount == s.stackCount
    decreases |ops|
  {
    if ops != [] {
      var o := Perform(s, ops[0]);
      PerformForm(s, ops[0]);
      PerformAgrees(s, ledger, ops[0]);
      RunAgrees(o.irp, ops[1..], Replay(ledger, o.events));
      ReplayAppend(ledger, o.events, Run(o.irp, ops[1..]).1);
    }
  }

  /** Over every run the ledger never breaks: locations are popped in the reverse order of the calls, each call
      is popped at most once, a routine fires for a call exactly if its bits match the status and cancel flag when
      the call is popped, it is the one set for that call, and it gets the device of the location above.  Locations are
      plain numbers here; with at most 125 of them the current one always fits the character that counts it. */
  lemma LedgerNeverBreaks(stackSize: nat, ops: seq<Op>)
    requires LegalRun(Initialize(stackSize), ops)
    ensures var (s, trace) := Run(Initialize(stackSize), ops);
            && s.stackCount == stackSize && Agrees(s, Replay(EMPTY, trace))
            && (stackSize <= 125 ==> IsChar(s.current))
  {
    RunAgrees(Initialize(stackSize), ops, EMPTY);
  }

  lemma {:induction false} RunFinishes(s: Irp, ops: seq<Op>)
    requires WellFormed(s) && LegalRun(s, ops)
    ensures var (s', trace) := Run(s, ops);
            && WellFormed(s') && s'.stackCount == s.stackCount
            && (s'.current == s.stackCount + 2 <==> s.current == s.stackCount + 2 || Finished in trace)
    decreases |ops|
  {
    if ops != [] {
      PerformForm(s, ops[0]);
      FinishedAtTheTop(s, ops[0]);
      RunFinishes(Perform(s, ops[0]).irp, ops[1..]);
    }
  }

  /** Completing bugchecks exactly when an earlier completion has run to its end, and then every call has been
      popped.  Locations are plain numbers here; with at most 125 of them the current one always fits the character that
      counts it, with more the character never gets to where the bugcheck is. */
  lemma BugCheckExactlyAfterFullCompletion(stackSize: nat, ops: seq<Op>, oracle: Oracle)
    requires LegalRun(Initialize(stackSize), ops)
    ensures var (s, trace) := Run(Initialize(stackSize), ops);
            && WellFormed(s)
            && (stackSize <= 125 ==> IsChar(s.current))
            && (BugCheck in Complete(s, oracle).events <==> Finished in trace)
            && (Finished in trace ==> Replay(EMPTY, trace).Ledger? && Replay(EMPTY, trace).frames == [])
  {
    LedgerNeverBreaks(stackSize, ops);
    RunFinishes(Initialize(stackSize), ops);
    var (s, trace) := Run(Initialize(stackSize), ops);
    if s.current <= s.stackCount + 1 {
      WalkForm(s, oracle);
    }
  }

  lemma FinishedAtTheTop(s: Irp, op: Op)
    requires WellFormed(s) && Legal(s, op)
    ensures Perform(s, op).irp.current == s.stackCount + 2 <==>
            s.current == s.stackCount + 2 || Finished in Perform(s, op).events
    ensures Perform(s, op).irp.stackCount == s.stackCount
  {
    if op.OpComplete? && s.current <= s.stackCount + 1 {
      WalkForm(s, op.oracle);
    }
  }

  /** Calls less pops of one location in a trace, and how often it is open. */
  function Net(trace: seq<Event>, location: int): int {
    if trace == [] then 0
    else (if trace[0].Pushed? && trace[0].location == location then 1
          else if trace[0].Popped? && trace[0].location == location then -1 else 0)
         + Net(trace[1..], location)
  }

  function Open(frames: seq<Frame>, location: int): nat {
    if frames == [] then 0 else (if frames[0].location == location then 1 else 0) + Open(frames[1..], location)
  }

  /** An unbroken ledger has popped each call but the open ones exactly once. */
  lemma {:induction false} EachCallPoppedOnce(ledger: Ledger, trace: seq<Event>, location: int)
    requires ledger.Ledger? && Replay(ledger, trace).Ledger?
    ensures Net(trace, location) == Open(Replay(ledger, trace).frames, location) - Open(ledger.frames, location)
    decreases |trace|
  {
    if trace != [] {
      var next := Post(ledger, trace[0]);
      BrokenStays(trace[1..]);
      assert next.Ledger?;
      if trace[0].Pushed? {
        assert next.frames[1..] == ledger.frames;
      }
      EachCallPoppedOnce(next, trace[1..], location);
    }
  }

  lemma {:induction false} BrokenStays(trace: seq<Event>)
    ensures Replay(Broken, trace) == Broken
    decreases |trace|
  {
    if trace != [] {
      BrokenStays(trace[1..]);
    }
  }

  // ---- Pending bits

  /** Routines that never stop and mark the request pending exactly when PendingReturned is set,
      as completion routines are asked to. */
  ghost predicate Propagating(oracle: Oracle) {
    forall s: Irp :: !oracle(s).more && oracle(s).mark == s.pendingReturned
  }

  ghost predicate AnyPending(s: Irp) {
    exists n :: 0 <= n < |s.stack| && n >= s.current - 1 && s.stack[n].control.pending
  }

  /** With such routines, whether they fire or not, the originator sees PendingReturned exactly when some driver
      of the stack marked the request pending; without any location the flag is left alone. */
  lemma {:induction false} PendingReachesTheTop(s: Irp, oracle: Oracle)
    requires WellFormed(s) && s.current <= s.stackCount && Propagating(oracle)
    ensures Walk(s, oracle).irp.pendingReturned <==> AnyPending(s)
    decreases s.stackCount - s.current
  {
    var o := Pop(s, oracle);
    PopForm(s, oracle);
    PendingCarried(s, oracle);
    if s.current < s.stackCount {
      PendingReachesTheTop(o.irp, oracle);
    } else {
      assert Walk(o.irp, oracle).irp.pendingReturned == o.irp.pendingReturned;
      assert AnyPending(s) <==> s.stack[s.current - 1].control.pending;
    }
  }

  lemma PendingCarried(s: Irp, oracle: Oracle)
    requires WellFormed(s) && s.current <= s.stackCount && Propagating(oracle)
    ensures var o := Pop(s, oracle);
            && !o.stopped && o.irp.pendingReturned == s.stack[s.current - 1].control.pending
            && (s.current < s.stackCount ==> (AnyPending(o.irp) <==> AnyPending(s)))
  {
    var s' := Pop(s, oracle).irp;
    var c := s.current - 1;
    assert |s'.stack| == |s.stack| && s'.current == s.current + 1;
    assert forall n :: c + 1 < n < |s.stack| ==> s'.stack[n] == s.stack[n];
    if s.current < s.stackCount {
      assert s'.stack[c + 1].control.pending == (s.stack[c + 1].control.pending || s.stack[c].control.pending);
      if AnyPending(s) {
        var n :| 0 <= n < |s.stack| && n >= c && s.stack[n].control.pending;
        assert s'.stack[if n == c then c + 1 else n].control.pending;
      }
      if AnyPending(s') {
        var n :| 0 <= n < |s'.stack| && n >= c + 1 && s'.stack[n].control.pending;
        assert s.stack[n].control.pending || s.stack[c].control.pending;
      }
    }
  }
}
