/** The timer as an object: the controller's calls statement by statement, while the clock and the callbacks
    of the pool run between any two of their atomic steps. */
module TimerObject {
  import opened Timer
  import opened Counting

  class KernelTimer {
    var timer: TimerState
    var dpc: nat
    var event: bool
    /** Whether the clock of the pool is set, where the controller stands, and what the pool has run. */
    var armed: bool
    var controller: Controller
    var settings: seq<Setting>
    var callbacks: seq<Callback>

    function Value(): State
      reads this
    {
      State(timer, dpc, event, armed, controller, settings, callbacks)
    }

    ghost predicate Valid()
      reads this
    {
      Inv(Value())
    }

    /** KeInitializeTimerEx */
    constructor ()
      ensures Valid() && Value() == INITIAL
    {
      timer, dpc, event, armed, controller, settings, callbacks := TimerIdle, 0, false, false, Ready, [], [];
    }

    /** The clock, a callback or a wait takes a step. */
    method Other(step: Step)
      requires Valid() && Enabled(Value(), step) && !step.Begin? && !step.Continue?
      modifies this
      ensures Valid() && SameControl(old(Value()), Value())
    {
      NextKeeps(Value(), step);
      PoolLeavesControl(Value(), step);
      var s := Next(Value(), step);
      timer, dpc, event, armed, controller, settings, callbacks :=
        s.timer, s.dpc, s.event, s.armed, s.controller, s.settings, s.callbacks;
    }

    method Others()
      requires Valid()
      modifies this
      ensures Valid() && SameControl(old(Value()), Value())
    {
      var n: int := *;
      for k := 0 to if n < 0 then 0 else n
        invariant Valid() && SameControl(old(Value()), Value())
      {
        var b: int := *;
        var which: int := *;
        if 0 <= b {
          var step := if which == 0 then Fire else if which == 1 then Run(b)
                      else if which == 2 then Drop(b) else Consume;
          if Enabled(Value(), step) {
            Other(step);
          }
        }
      }
    }

    /** A step of the controller. */
    method Advance()
      requires Valid() && Enabled(Value(), Continue)
      modifies this
      ensures Valid() && Value() == Control(old(Value()))
    {
      NextKeeps(Value(), Continue);
      match controller
      case Exchanged(again, rc) =>
        armed, controller := false, Disarmed(again, rc);
      case Disarmed(again, rc) =>
        controller := if again then Drained(rc) else Ready;
      case Drained(rc) =>
        dpc := |settings|;
        settings := settings + [Setting(0, 0, 0)];
        controller := Stored(rc);
      case Stored(rc) =>
        timer, controller := TimerActive, Activated(rc);
      case Activated(rc) =>
        event, controller := false, EventReset(rc);
      case EventReset(_) =>
        armed, controller := true, Ready;
    }

    /** InterlockedExchange of the state with TimerIdle. */
    method Exchange(again: bool) returns (taken: TimerState)
      requires Valid() && controller.Ready?
      modifies this
      ensures Valid() && controller == Exchanged(again, taken)
      ensures Reported(old(settings), settings, if taken.TimerActive? then 1 else 0)
    {
      Others();
      taken := timer;
      NextKeeps(Value(), Begin(again));
      settings := Took(Value(), taken);
      timer, controller := TimerIdle, Exchanged(again, taken);
    }

    /** SetThreadpoolTimer to stop the clock, then WaitForThreadpoolTimerCallbacks; `patience` bounds how often the wait
        looks. */
    method Stop(patience: nat) returns (done: bool)
      requires Valid() && controller.Exchanged?
      modifies this
      ensures Valid() && Reported(old(settings), settings, 0)
      ensures var again, rc := old(controller.again), old(controller.rc);
              controller == if !done then Disarmed(again, rc) else if again then Drained(rc) else Ready
      ensures done ==> timer.TimerIdle?
    {
      ghost var again, rc := controller.again, controller.rc;
      Others();
      Advance();
      done := false;
      var looks := 0;
      while !done && looks < patience
        invariant Valid() && Reported(old(settings), settings, 0)
        invariant controller == if !done then Disarmed(again, rc) else if again then Drained(rc) else Ready
        invariant done ==> timer.TimerIdle?
        decreases patience - looks, !done
      {
        Others();
        if Enabled(Value(), Continue) {
          Advance();
          done := true;
        }
        looks := looks + 1;
      }
    }

    /** KeCancelTimer.  When it is done the last setting has ended once, by this call exactly when it returns TRUE. */
    method CancelTimer(patience: nat) returns (rc: bool, done: bool)
      requires Valid() && controller.Ready?
      modifies this
      ensures Valid() && Reported(old(settings), settings, if rc then 1 else 0)
      ensures done ==> controller.Ready? && timer.TimerIdle?
      ensures done && settings != [] ==> Newest(settings).signals + Newest(settings).reported == 1
    {
      var taken := Exchange(false);
      rc := taken.TimerActive?;
      done := Stop(patience);
      if done {
        IdleHasEnded(Value());
      }
    }

    /** KeSetTimerEx for one shot.  The setting before has ended once, by this call exactly when it returns TRUE;
        the new one has ended at most by its one signal. */
    method SetTimerEx(patience: nat) returns (rc: bool, done: bool)
      requires Valid() && controller.Ready?
      modifies this
      ensures Valid() && (done ==> controller.Ready? && |settings| == |old(settings)| + 1)
      ensures done ==> Reported(old(settings), settings[..|old(settings)|], if rc then 1 else 0)
      ensures done && old(settings) != [] ==>
                Newest(settings[..|old(settings)|]).signals + Newest(settings[..|old(settings)|]).reported == 1
      ensures done ==> Newest(settings).signals <= 1 && Newest(settings).reported == 0
    {
      var taken := Exchange(true);
      rc := taken.TimerActive?;
      done := Stop(patience);
      if done {
        Arm();
      }
    }

    /** The writes of KeSetTimerEx after the wait: until the clock is started no callback is alive and none is
        queued. */
    method Arm()
      requires Valid() && controller.Drained?
      modifies this
      ensures Valid() && controller.Ready? && |settings| == |old(settings)| + 1
      ensures settings[..|old(settings)|] == old(settings) && Newest(settings) == Setting(0, 0, 0)
      ensures dpc == |old(settings)| && timer.TimerActive? && armed && !event
      ensures callbacks == old(callbacks) && Total(Alive, callbacks) == 0
      ensures old(settings) != [] ==> Newest(old(settings)).signals + Newest(old(settings)).reported == 1
    {
      IdleHasEnded(Value());
      Others();
      Advance();
      Start();
    }

    /** Makes the new setting active, resets the event and starts the clock. */
    method Start()
      requires Valid() && controller.Stored?
      modifies this
      ensures Valid() && controller.Ready? && timer.TimerActive? && armed && !event
      ensures settings == old(settings) && callbacks == old(callbacks) && dpc == old(dpc)
      ensures Total(Alive, callbacks) == 0
    {
      Others();
      Advance();
      Others();
      Advance();
      Others();
      Bounds(callbacks);
      Advance();
    }
  }

  ghost function Newest(settings: seq<Setting>): Setting
    requires settings != []
  {
    settings[|settings| - 1]
  }

  /** The same settings, the last of them reported as often again as given. */
  ghost predicate Reported(before: seq<Setting>, after: seq<Setting>, more: nat) {
    && |after| == |before|
    && (before != [] ==> Newest(after).reported == Newest(before).reported + more)
  }

  /** A timer that is idle with no callback alive has ended its last setting. */
  lemma IdleHasEnded(s: State)
    requires Inv(s) && s.timer.TimerIdle? && (s.controller.Ready? || s.controller.Drained?)
    ensures s.settings != [] ==> Newest(s.settings).signals + Newest(s.settings).reported == 1
  {
    Bounds(s.callbacks);
  }

  /** What the pool leaves alone. */
  ghost predicate SameControl(s: State, s': State) {
    && s'.controller == s.controller && |s'.settings| == |s.settings|
    && (forall n :: 0 <= n < |s.settings| ==> s'.settings[n].reported == s.settings[n].reported
                                              && s'.settings[n].signals >= s.settings[n].signals)
    && (s.timer.TimerIdle? ==> s'.timer.TimerIdle?)
    && (s'.armed ==> s.armed)
    && (Quiet(s) ==> s' == s.(event := s'.event))
  }

  lemma PoolLeavesControl(s: State, step: Step)
    requires Inv(s) && Enabled(s, step) && !step.Begin? && !step.Continue?
    ensures SameControl(s, Next(s, step))
  {
    TotalNonNegative(Alive, s.callbacks);
  }
}
