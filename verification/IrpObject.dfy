/** The packet itself: IoInitializeIrp, IofCallDriver and IofCompleteRequest on its fields and locations. */
module IrpObject {
  import opened Common
  import opened IrpCounter
  import opened IrpStack

  ghost function Prefixed(events: seq<Event>, o: Outcome): Outcome {
    o.(events := events + o.events)
  }

  lemma WalkTurn(s: Irp, oracle: Oracle, events: seq<Event>)
    requires WellFormed(s) && s.current <= s.stackCount
    ensures var o := Pop(s, oracle);
            && WellFormed(o.irp) && o.irp.current == s.current + 1 && o.irp.stackCount == s.stackCount
            && Prefixed(events, Walk(s, oracle))
               == if o.stopped then Prefixed(events, o) else Prefixed(events + o.events, Walk(o.irp, oracle))
  {
    PopForm(s, oracle);
    var o := Pop(s, oracle);
    if !o.stopped {
      var rest := Walk(o.irp, oracle);
      assert events + o.events + rest.events == events + (o.events + rest.events);
    }
  }

  class Packet {
    var stackCount: int
    var currentLocation: int
    /** Index into `stack` of the location CurrentStackLocation points at. */
    var currentStackLocation: int
    const stack: array<Location>
    var pendingReturned: bool
    var success: bool
    var cancel: bool
    ghost var trace: seq<Event>

    /** The counter has not wrapped. */
    ghost predicate Valid()
      reads this, stack
    {
      && stackCount == stack.Length <= 126
      && 1 <= currentLocation <= stackCount + 2 && currentLocation <= 127
      && currentStackLocation == currentLocation - 1
    }

    ghost function Value(): Irp
      reads this, stack
      requires Valid()
    {
      Irp(stackCount, currentLocation, stack[..], pendingReturned, success, cancel)
    }

    /** IoInitializeIrp.  With 127 locations the counter has wrapped from the beginning. */
    constructor (stackSize: int)
      requires 0 <= stackSize <= 127
      ensures fresh(stack) && trace == [] && stackCount == stackSize && currentLocation == NewCounter(stackSize)
      ensures Valid() <==> stackSize <= 126
      ensures Valid() ==> Value() == Initialize(stackSize)
      ensures stack.Length == stackSize && !pendingReturned && success && !cancel
      ensures forall i :: 0 <= i < stackSize ==> stack[i] == Location(0, 0, 0, 0, Control(false, false, false, false))
    {
      stack := new Location[stackSize](_ => ZERO_LOCATION);
      stackCount, currentLocation, currentStackLocation := stackSize, Char(stackSize + 1), stackSize;
      pendingReturned, success, cancel, trace := false, true, false, [];
      new;
      assert stack[..] == Initialize(stackSize).stack;
    }

    /** What a driver does before it calls the next one: fill in the next location. */
    method SetNext(setup: Setup)
      requires Valid() && CanCall(Value())
      modifies stack
      ensures Valid()
      ensures stack[..] == old(stack[..])[currentLocation - 2 := Written(old(stack[..])[currentLocation - 2], setup)]
    {
      stack[currentStackLocation - 1] := Written(stack[currentStackLocation - 1], setup);
    }

    /** IofCallDriver, up to the dispatch routine of the driver. */
    method CallDriver(device: Pointer, setup: Setup)
      requires Valid() && CanCall(Value())
      modifies this`currentLocation, this`currentStackLocation, this`trace, stack
      ensures Valid() && Value() == Call(old(Value()), device, setup)
      ensures trace == old(trace) + [Pushed(currentLocation, device, setup)]
      ensures currentLocation == old(currentLocation) - 1
      ensures forall i :: 0 <= i < stack.Length && i != currentLocation - 1 ==> stack[i] == old(stack[i])
      ensures var l, l' := old(stack[currentLocation - 2]), stack[currentLocation - 1];
              match setup
              case Parameters(parameters) => l' == Location(device, parameters, l.routine, l.context, l.control)
              case Completion(parameters, routine, context, onSuccess, onError, onCancel) =>
                l' == Location(device, parameters, routine, context, Control(onSuccess, onError, onCancel, false))
    {
      SetNext(setup);
      currentLocation := Char(currentLocation - 1);
      currentStackLocation := currentStackLocation - 1;
      stack[currentStackLocation] := stack[currentStackLocation].(device := device);
      trace := trace + [Pushed(currentLocation, device, setup)];
    }

    /** ClearStackLocation */
    method ClearStackLocation(index: nat)
      requires index < stack.Length
      modifies stack
      ensures stack[..] == old(stack[..])[index := Cleared(old(stack[index]))]
      ensures var l := old(stack[index]);
              stack[index] == Location(l.device, 0, l.routine, l.context, Control(false, false, false, false))
    {
      stack[index] := stack[index].(parameters := 0);
      stack[index] := stack[index].(control := NO_CONTROL);
    }

    /** IoMarkIrpPending */
    method MarkIrpPending()
      requires Valid() && currentLocation <= stackCount
      modifies stack
      ensures Valid() && Value() == MarkPending(old(Value()))
      ensures var l := old(stack[currentLocation - 1]);
              stack[currentLocation - 1] == l.(control := l.control.(pending := true))
      ensures forall i :: 0 <= i < stack.Length && i != currentLocation - 1 ==> stack[i] == old(stack[i])
    {
      var l := stack[currentStackLocation];
      stack[currentStackLocation] := l.(control := l.control.(pending := true));
    }

    /** The request before the completion loop moved its current location on. */
    ghost function Before(): Irp
      reads this, stack
      requires Valid()
    {
      Value().(current := currentLocation - 1)
    }

    /** Moves the current location on; the index of the one it leaves, and whether the counter wraps. */
    method Advance() returns (index: int, wrapped: bool)
      requires Valid() && currentLocation <= stackCount + 1
      modifies this`currentLocation, this`currentStackLocation
      ensures index == old(currentStackLocation) && wrapped == (old(currentLocation) == 127)
      ensures if wrapped then currentLocation == -128
              else Valid() && index == currentLocation - 2 && Before() == old(Value())
    {
      index, wrapped := currentStackLocation, currentLocation == 127;
      currentStackLocation, currentLocation := currentStackLocation + 1, Char(currentLocation + 1);
    }

    /** One turn of the loop for the location before the current one; `more` is the answer of its routine. */
    method CompleteLocation(index: nat, oracle: Oracle) returns (more: bool, ghost events: seq<Event>)
      requires Valid() && index < stackCount && currentLocation == index + 2
      modifies this`pendingReturned, this`success, this`cancel, stack
      ensures Valid() && Outcome(Value(), events, more) == Pop(old(Before()), oracle)
      ensures currentLocation == old(currentLocation) && pendingReturned == old(stack[index].control.pending)
      ensures var control := old(stack[index].control);
              var fires := || (old(success) && control.onSuccess) || (!old(success) && control.onError)
                           || (old(cancel) && control.onCancel);
              && |events| == (if fires then 3 else 1) && (more ==> fires)
              && (fires ==> events[1].Fired? && events[1].routine == old(stack[index].routine)
                            && events[1].context == old(stack[index].context))
              && (!fires ==> success == old(success) && cancel == old(cancel))
    {
      ghost var s := Value().(current := index + 1);
      var completion, context, control := stack[index].routine, stack[index].context, stack[index].control;
      pendingReturned := control.pending;
      ClearStackLocation(index);
      assert Value() == Popping(s);
      events := [Popped(currentLocation - 1)];
      if (success && control.onSuccess) || (!success && control.onError) || (cancel && control.onCancel) {
        ghost var fired;
        more, fired := Fire(completion, context, oracle);
        events := events + fired;
        return;
      }
      more := false;
      if pendingReturned && currentLocation <= stackCount {
        MarkIrpPending();
      }
    }

    /** Calls the routine of the location left behind, with the device of the current one. */
    method Fire(completion: Pointer, context: Pointer, oracle: Oracle) returns (more: bool, ghost events: seq<Event>)
      requires Valid()
      modifies this`success, this`cancel, stack
      ensures Valid() && Value() == Replied(old(Value()), oracle(old(Value()))) && more == oracle(old(Value())).more
      ensures events == [Fired(currentLocation - 1, DeviceAbove(old(Value())), completion, context),
                         Answered(oracle(old(Value())))]
    {
      var device := if currentLocation <= stackCount then stack[currentStackLocation].device else NULL;
      ghost var answer;
      more, answer := Invoke(oracle);
      events := [Fired(currentLocation - 1, device, completion, context), Answered(answer)];
    }

    /** The completion routine runs and answers. */
    method Invoke(oracle: Oracle) returns (more: bool, ghost answer: Reply)
      requires Valid()
      modifies this`success, this`cancel, stack
      ensures answer == oracle(old(Value())) && more == answer.more
      ensures Valid() && Value() == Replied(old(Value()), answer)
      ensures success == answer.success && cancel == (old(cancel) || answer.cancel)
    {
      var reply := oracle(Irp(stackCount, currentLocation, stack[..], pendingReturned, success, cancel));
      success, cancel := reply.success, cancel || reply.cancel;
      if reply.mark && currentLocation <= stackCount {
        MarkIrpPending();
      }
      more, answer := reply.more, reply;
    }

    /** IofCompleteRequest.  `escaped` is whether the loop goes on past the end of the stack: exactly when there
        are more than 125 locations and no routine stops the completion. */
    method CompleteRequest(oracle: Oracle) returns (stopped: bool, escaped: bool)
      requires Valid()
      modifies this`currentLocation, this`currentStackLocation, this`pendingReturned, this`success, this`cancel,
               this`trace, stack
      ensures escaped <==> stackCount > 125 && !Complete(old(Value()), oracle).stopped
      ensures stopped == Complete(old(Value()), oracle).stopped
      ensures !escaped ==> Valid() && Value() == Complete(old(Value()), oracle).irp
      ensures !escaped ==> trace == old(trace) + Complete(old(Value()), oracle).events
      ensures escaped ==> currentLocation == -128
      ensures escaped ==> trace + [Finished] == old(trace) + Complete(old(Value()), oracle).events
    {
      if currentLocation > stackCount + 1 {
        trace := trace + [Completing, BugCheck];
        return true, false;
      }
      ghost var events;
      stopped, escaped, events := CompleteLocations(oracle);
      trace := trace + ([Completing] + events);
    }

    /** The loop over the locations, with what happens in it. */
    method CompleteLocations(oracle: Oracle) returns (stopped: bool, escaped: bool, ghost events: seq<Event>)
      requires Valid() && currentLocation <= stackCount + 1
      modifies this`currentLocation, this`currentStackLocation, this`pendingReturned, this`success, this`cancel, stack
      ensures escaped <==> stackCount > 125 && !Walk(old(Value()), oracle).stopped
      ensures stopped == Walk(old(Value()), oracle).stopped
      ensures !escaped ==> Valid() && Value() == Walk(old(Value()), oracle).irp
      ensures !escaped ==> events == Walk(old(Value()), oracle).events
      ensures escaped ==> currentLocation == -128 && events + [Finished] == Walk(old(Value()), oracle).events
    {
      ghost var whole := Walk(Value(), oracle);
      events := [];
      assert whole == Prefixed(events, whole);
      WalkAtTheTop(Value(), oracle);
      var index, wrapped := Advance();
      var more;
      while currentLocation <= stackCount + 1
        invariant Going(index, whole, oracle, events)
        decreases stackCount - index
      {
        if index == stackCount {
          return false, true, events;
        }
        more, index, events := Turn(index, oracle, whole, events);
        if more {
          return true, false, events;
        }
      }
      return false, false, events + [Finished];
    }

    /** One turn of the loop, and the step to the next one unless the routine stops the completion. */
    method Turn(index: int, oracle: Oracle, ghost whole: Outcome, ghost events: seq<Event>)
      returns (more: bool, next: int, ghost events': seq<Event>)
      requires Going(index, whole, oracle, events) && index < stackCount
      modifies this`currentLocation, this`currentStackLocation, this`pendingReturned, this`success, this`cancel, stack
      ensures more ==> Valid() && whole == Outcome(Value(), events', true)
      ensures !more ==> Going(next, whole, oracle, events') && next == index + 1
    {
      WalkTurn(Before(), oracle, events);
      ghost var fired;
      more, fired := CompleteLocation(index, oracle);
      events', next := events + fired, index;
      if !more {
        WalkAtTheTop(Value(), oracle);
        var wrapped;
        next, wrapped := Advance();
      }
    }

    /** Where the loop is about to test the counter, with location `index` left behind.  If the counter has
        wrapped past the last location, all that is left of the completion is its end. */
    ghost predicate Going(index: int, whole: Outcome, oracle: Oracle, events: seq<Event>)
      reads this, stack
    {
      if index == stackCount == 126 then
        currentLocation == -128 && !whole.stopped && whole.events == events + [Finished]
      else
        && Valid() && 0 <= index == currentLocation - 2 <= stackCount
        && whole == Prefixed(events, Walk(Before(), oracle))
    }
  }

  lemma WalkAtTheTop(s: Irp, oracle: Oracle)
    requires WellFormed(s) && s.current <= s.stackCount + 1
    ensures s.current == s.stackCount + 1 ==> Walk(s, oracle).events == [Finished] && !Walk(s, oracle).stopped
  {
  }
}
