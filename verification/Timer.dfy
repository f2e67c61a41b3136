module Timer {
  // One-shot timers: one controller thread sets and cancels a timer while the callbacks of its settings run in the
  // thread pool, which is given by its contract.

  import opened Counting

  datatype TimerState = TimerIdle | TimerActive | TimerDone

  /** Where the controller stands; `again` tells KeSetTimerEx from KeCancelTimer, `rc` is what its exchange returned. */
  datatype Controller =
    | Ready
    | Exchanged(again: bool, rc: TimerState)   // state is TimerIdle
    | Disarmed(again: bool, rc: TimerState)    // the clock is stopped
    | Drained(rc: TimerState)                // KeSetTimerEx has waited for the callbacks
    | Stored(rc: TimerState)                 // Dpc and due time are written
    | Activated(rc: TimerState)              // state is TimerActive
    | EventReset(rc: TimerState)             // the event is reset, the clock not armed yet

  datatype Stage = Pending | Started | Won | Signalled | Finished | Dropped

  /** A callback of the `setting`-th setting. */
  datatype Callback = Callback(setting: nat, stage: Stage)

  /** What has become of a setting: signals of the event, DPC look-ups for it, and exchanges of a later call that
      found it active, which make that call return TRUE. */
  datatype Setting = Setting(signals: nat, dpcs: nat, reported: nat)

  /** `dpc` is the setting whose Dpc the timer holds. */
  datatype State = State(timer: TimerState, dpc: nat, event: bool, armed: bool, controller: Controller,
                         settings: seq<Setting>, callbacks: seq<Callback>)

  const INITIAL := State(TimerIdle, 0, false, false, Ready, [], [])

  datatype Step =
    | Begin(again: bool)       // the exchange of KeSetTimerEx or KeCancelTimer
    | Continue               // its next step
    | Fire                   // the clock queues a callback
    | Run(b: nat)            // a callback takes its next step
    | Drop(b: nat)           // the pool cancels a callback that has not started
    | Consume                // a wait resets the event of a synchronization timer

  /** Callbacks that are queued or running. */
  function Alive(c: Callback): int {
    if c.stage.Finished? || c.stage.Dropped? then 0 else 1
  }

  predicate Enabled(s: State, step: Step) {
    match step
    case Begin(_) => s.controller.Ready?
    case Continue =>
      !s.controller.Ready? &&
      (s.controller.Disarmed? ==> forall b :: 0 <= b < |s.callbacks| ==> Alive(s.callbacks[b]) == 0)
    case Fire => s.armed && s.settings != []
    case Run(b) => b < |s.callbacks| && Alive(s.callbacks[b]) == 1
                   && s.callbacks[b].setting < |s.settings| && s.dpc < |s.settings|
    case Drop(b) => s.controller.Disarmed? && b < |s.callbacks| && s.callbacks[b].stage.Pending?
    case Consume => true
  }

  function Last(s: State): int {
    |s.settings| - 1
  }

  function Took(s: State, rc: TimerState): seq<Setting> {
    if rc.TimerActive? && s.settings != [] then
      s.settings[Last(s) := s.settings[Last(s)].(reported := s.settings[Last(s)].reported + 1)]
    else s.settings
  }

  function Control(s: State): State {
    match s.controller
    case Ready => s
    case Exchanged(again, rc) => s.(armed := false, controller := Disarmed(again, rc))
    case Disarmed(again, rc) => s.(controller := if again then Drained(rc) else Ready)
    case Drained(rc) => s.(controller := Stored(rc), settings := s.settings + [Setting(0, 0, 0)], dpc := |s.settings|)
    case Stored(rc) => s.(controller := Activated(rc), timer := TimerActive)
    case Activated(rc) => s.(controller := EventReset(rc), event := false)
    case EventReset(rc) => s.(controller := Ready, armed := true)
  }

  function At(s: State, b: nat, stage: Stage): State
    requires b < |s.callbacks|
  {
    s.(callbacks := s.callbacks[b := s.callbacks[b].(stage := stage)])
  }

  /** DdkTimerCallback, for a period of zero. */
  function Callbacks(s: State, b: nat): State
    requires Enabled(s, Run(b))
  {
    var n := s.callbacks[b].setting;
    match s.callbacks[b].stage
    case Pending => At(s, b, Started)
    case Started =>
      if s.timer.TimerActive? then At(s, b, Won).(timer := TimerDone) else At(s, b, Finished)
    case Won =>
      At(s, b, Signalled).(event := true,
                           settings := s.settings[n := s.settings[n].(signals := s.settings[n].signals + 1)])
    case Signalled =>
      At(s, b, Finished).(settings := s.settings[s.dpc := s.settings[s.dpc].(dpcs := s.settings[s.dpc].dpcs + 1)])
    case Finished => s
    case Dropped => s
  }

  function Next(s: State, step: Step): State
    requires Enabled(s, step)
  {
    match step
    case Begin(again) => s.(timer := TimerIdle, controller := Exchanged(again, s.timer), settings := Took(s, s.timer))
    case Continue => Control(s)
    case Fire => s.(armed := false, callbacks := s.callbacks + [Callback(Last(s), Pending)])
    case Run(b) => Callbacks(s, b)
    case Drop(b) => At(s, b, Dropped)
    case Consume => s.(event := false)
  }

  ghost predicate LegalRun(s: State, steps: seq<Step>)
    decreases |steps|
  {
    steps == [] || (Enabled(s, steps[0]) && LegalRun(Next(s, steps[0]), steps[1..]))
  }

  ghost function After(s: State, steps: seq<Step>): State
    requires LegalRun(s, steps)
    decreases |steps|
  {
    if steps == [] then s else After(Next(s, steps[0]), steps[1..])
  }

  // ---- The invariant

  function Signalling(c: Callback): int {
    if c.stage.Won? then 1 else 0
  }

  function LookingUp(c: Callback): int {
    if c.stage.Signalled? then 1 else 0
  }

  /** Callbacks that have not yet looked at the state. */
  function Contending(c: Callback): int {
    if c.stage.Pending? || c.stage.Started? then 1 else 0
  }

  /** The last setting has been written and its state is not yet active. */
  predicate Fresh(s: State) {
    s.controller.Stored?
  }

  /** Between the drain and the arming no callback is alive. */
  predicate Quiet(s: State) {
    s.controller.Drained? || s.controller.Stored? || s.controller.Activated? || s.controller.EventReset?
  }

  /** How often the last setting has been signalled, is about to be, or has been reported. */
  ghost function Ends(s: State): int
    requires s.settings != []
  {
    s.settings[Last(s)].signals + Total(Signalling, s.callbacks) + s.settings[Last(s)].reported
  }

  ghost predicate EarlierOk(s: State) {
    forall n :: 0 <= n < |s.settings| - 1 ==>
      s.settings[n].signals + s.settings[n].reported == 1 && s.settings[n].dpcs == s.settings[n].signals
  }

  ghost predicate LastOk(s: State) {
    s.settings != [] ==>
      && Ends(s) == (if s.timer.TimerActive? || Fresh(s) then 0 else 1)
      && (s.timer.TimerDone? ==> s.settings[Last(s)].reported == 0)
      && s.settings[Last(s)].dpcs == s.settings[Last(s)].signals - Total(LookingUp, s.callbacks)
      && s.dpc == Last(s)
  }

  ghost predicate PoolOk(s: State) {
    && (forall b :: 0 <= b < |s.callbacks| && Alive(s.callbacks[b]) == 1 ==> s.callbacks[b].setting == Last(s))
    && (Quiet(s) ==> Total(Alive, s.callbacks) == 0 && !s.armed)
    && (s.controller.Disarmed? ==> !s.armed)
    && (s.controller.Ready? && s.timer.TimerIdle? ==> Total(Alive, s.callbacks) == 0 && !s.armed)
    && (s.armed ==> s.settings != [])
    && (s.settings == [] ==> Total(Alive, s.callbacks) == 0 && s.timer.TimerIdle?)
  }

  ghost predicate ControlOk(s: State) {
    && (s.controller.Exchanged? || s.controller.Disarmed? || s.controller.Drained? || s.controller.Stored? ==>
          s.timer.TimerIdle?)
    && (s.controller.Stored? || s.controller.Activated? || s.controller.EventReset? ==> s.settings != [])
    && (s.controller.Activated? || s.controller.EventReset? ==> s.timer.TimerActive?)
    && (s.event && !s.controller.Stored? && !s.controller.Activated? ==>
          s.settings != [] && s.settings[Last(s)].signals == 1)
  }

  /** Between calls an active timer has its clock armed or a callback that is going to claim it. */
  ghost predicate WillSignal(s: State) {
    s.controller.Ready? && s.timer.TimerActive? ==> s.armed || Total(Contending, s.callbacks) > 0
  }

  ghost predicate Inv(s: State) {
    EarlierOk(s) && LastOk(s) && PoolOk(s) && ControlOk(s) && WillSignal(s)
  }

  /** The sums follow one callback; each part is within the whole. */
  lemma Moved(h: seq<Callback>, b: nat, stage: Stage)
    requires b < |h|
    ensures var c, h' := h[b].(stage := stage), h[b := h[b].(stage := stage)];
            && Total(Alive, h') == Total(Alive, h) - Alive(h[b]) + Alive(c)
            && Total(Signalling, h') == Total(Signalling, h) - Signalling(h[b]) + Signalling(c)
            && Total(LookingUp, h') == Total(LookingUp, h) - LookingUp(h[b]) + LookingUp(c)
            && Total(Contending, h') == Total(Contending, h) - Contending(h[b]) + Contending(c)
    ensures Bounded(h) && Bounded(h[b := h[b].(stage := stage)]) && Alive(h[b]) <= Total(Alive, h)
    ensures Signalling(h[b]) <= Total(Signalling, h)
  {
    var c := h[b].(stage := stage);
    TotalUpdate(Alive, h, b, c);
    TotalUpdate(Signalling, h, b, c);
    TotalUpdate(LookingUp, h, b, c);
    TotalUpdate(Contending, h, b, c);
    Bounds(h);
    Bounds(h[b := c]);
    TotalNonNegative(Alive, h);
    TotalNonNegative(Signalling, h);
  }

  ghost predicate Bounded(h: seq<Callback>) {
    && 0 <= Total(Signalling, h) && 0 <= Total(LookingUp, h) && 0 <= Total(Contending, h)
    && Total(Signalling, h) + Total(LookingUp, h) + Total(Contending, h) <= Total(Alive, h)
  }

  lemma {:induction false} Bounds(h: seq<Callback>)
    ensures Bounded(h)
  {
    if h != [] {
      Bounds(h[1..]);
    }
  }

  lemma StartKeeps(s: State, b: nat)
    requires Inv(s) && Enabled(s, Run(b)) && s.callbacks[b].stage.Pending?
    ensures Inv(Callbacks(s, b))
  {
    Moved(s.callbacks, b, Started);
  }

  lemma ClaimKeeps(s: State, b: nat)
    requires Inv(s) && Enabled(s, Run(b)) && s.callbacks[b].stage.Started?
    ensures Inv(Callbacks(s, b))
  {
    if s.timer.TimerActive? {
      Moved(s.callbacks, b, Won);
    } else {
      Moved(s.callbacks, b, Finished);
    }
  }

  lemma SignalKeeps(s: State, b: nat)
    requires Inv(s) && Enabled(s, Run(b)) && s.callbacks[b].stage.Won?
    ensures Inv(Callbacks(s, b))
  {
    Moved(s.callbacks, b, Signalled);
  }

  lemma LookUpKeeps(s: State, b: nat)
    requires Inv(s) && Enabled(s, Run(b)) && s.callbacks[b].stage.Signalled?
    ensures Inv(Callbacks(s, b))
  {
    Moved(s.callbacks, b, Finished);
  }

  lemma RunKeeps(s: State, b: nat)
    requires Inv(s) && Enabled(s, Run(b))
    ensures Inv(Callbacks(s, b))
  {
    match s.callbacks[b].stage
    case Pending => StartKeeps(s, b);
    case Started => ClaimKeeps(s, b);
    case Won => SignalKeeps(s, b);
    case Signalled => LookUpKeeps(s, b);
    case Finished =>
    case Dropped =>
  }

  lemma DropKeeps(s: State, b: nat)
    requires Inv(s) && Enabled(s, Drop(b))
    ensures Inv(Next(s, Drop(b)))
  {
    Moved(s.callbacks, b, Dropped);
  }

  lemma FireKeeps(s: State)
    requires Inv(s) && Enabled(s, Fire)
    ensures Inv(Next(s, Fire))
  {
    var c := Callback(Last(s), Pending);
    TotalAppend(Alive, s.callbacks, c);
    TotalAppend(Signalling, s.callbacks, c);
    TotalAppend(LookingUp, s.callbacks, c);
    TotalAppend(Contending, s.callbacks, c);
    Bounds(s.callbacks);
  }

  lemma ContinueKeeps(s: State)
    requires Inv(s) && Enabled(s, Continue)
    ensures Inv(Next(s, Continue))
  {
    Bounds(s.callbacks);
    if s.controller.Disarmed? {
      TotalZero(Alive, s.callbacks);
    }
    TotalNonNegative(Alive, s.callbacks);
  }

  lemma BeginKeeps(s: State, again: bool)
    requires Inv(s) && Enabled(s, Begin(again))
    ensures Inv(Next(s, Begin(again)))
  {
    Bounds(s.callbacks);
  }

  lemma NextKeeps(s: State, step: Step)
    requires Inv(s) && Enabled(s, step)
    ensures Inv(Next(s, step))
  {
    match step
    case Begin(again) => BeginKeeps(s, again);
    case Continue => ContinueKeeps(s);
    case Fire => FireKeeps(s);
    case Run(b) => RunKeeps(s, b);
    case Drop(b) => DropKeeps(s, b);
    case Consume =>
  }

  lemma {:induction false} AfterKeeps(s: State, steps: seq<Step>)
    requires Inv(s) && LegalRun(s, steps)
    ensures Inv(After(s, steps))
    decreases |steps|
  {
    if steps != [] {
      NextKeeps(s, steps[0]);
      AfterKeeps(Next(s, steps[0]), steps[1..]);
    }
  }

  // ---- What is promised

  /** The clock has run out and no callback is queued or running. */
  ghost predicate AtRest(s: State) {
    s.controller.Ready? && !s.armed && forall b :: 0 <= b < |s.callbacks| ==> Alive(s.callbacks[b]) == 0
  }

  /** Whenever the controller is between calls, each setting but the last one has ended in exactly one of a single
      signal and one call that returned TRUE, and so has the last one when it is cancelled, and when its clock has run
      out and no callback is alive; while it is active it has ended in neither. */
  lemma EachSettingEndsOnce(steps: seq<Step>, n: nat)
    requires LegalRun(INITIAL, steps)
    ensures var s := After(INITIAL, steps);
            n < |s.settings| && s.controller.Ready? ==>
              var x := s.settings[n];
              if n < |s.settings| - 1 || s.timer.TimerIdle? || AtRest(s) then
                x.signals + x.reported == 1 && x.dpcs <= x.signals
              else if s.timer.TimerActive? then x.signals == 0 && x.reported == 0
              else x.signals <= 1 && x.reported == 0
  {
    AfterKeeps(INITIAL, steps);
    var s := After(INITIAL, steps);
    Bounds(s.callbacks);
    if AtRest(s) && s.settings != [] {
      RestHasEnded(s);
    }
  }

  /** A setting that nobody cancels is signalled by the time its clock has run out and its callbacks are through. */
  lemma RestHasEnded(s: State)
    requires Inv(s) && AtRest(s) && s.settings != []
    ensures !s.timer.TimerActive?
    ensures s.settings[Last(s)].signals + s.settings[Last(s)].reported == 1
    ensures s.settings[Last(s)].dpcs == s.settings[Last(s)].signals
  {
    TotalZero(Alive, s.callbacks);
    Bounds(s.callbacks);
  }

  /** A callback never acts for a later setting than its own: while it is queued or running its setting is the last one
      and the timer holds the Dpc of that setting; so an event found set between calls was signalled for the last
      setting, once. */
  lemma CallbacksActForTheirSetting(steps: seq<Step>, b: nat)
    requires LegalRun(INITIAL, steps)
    ensures var s := After(INITIAL, steps);
            && (b < |s.callbacks| && Alive(s.callbacks[b]) == 1 ==>
                  s.callbacks[b].setting == Last(s) == s.dpc && !Quiet(s))
            && (s.event && s.controller.Ready? ==> s.settings != [] && s.settings[Last(s)].signals == 1)
  {
    AfterKeeps(INITIAL, steps);
    TotalNonNegative(Alive, After(INITIAL, steps).callbacks);
  }

  /** A call returns TRUE exactly when it takes the last setting's only end away from its callbacks: none of them
      signals afterwards, however the pool goes on. */
  lemma ReportedNeverSignals(steps: seq<Step>, more: seq<Step>, n: nat)
    requires LegalRun(INITIAL, steps) && LegalRun(After(INITIAL, steps), more)
    requires n < |After(INITIAL, steps).settings| && After(INITIAL, steps).settings[n].reported == 1
    ensures var s := After(After(INITIAL, steps), more);
            n < |s.settings| && s.settings[n].reported == 1 && s.settings[n].signals == 0
  {
    AfterKeeps(INITIAL, steps);
    ReportedStays(After(INITIAL, steps), more, n);
  }

  lemma {:induction false} ReportedStays(s: State, steps: seq<Step>, n: nat)
    requires Inv(s) && LegalRun(s, steps) && n < |s.settings| && s.settings[n].reported == 1
    ensures Inv(After(s, steps))
    ensures var s' := After(s, steps); n < |s'.settings| && s'.settings[n].reported == 1 && s'.settings[n].signals == 0
    decreases |steps|
  {
    Bounds(s.callbacks);
    if steps != [] {
      NextKeeps(s, steps[0]);
      ReportedOnce(s, steps[0], n);
      ReportedStays(Next(s, steps[0]), steps[1..], n);
    }
  }

  lemma ReportedOnce(s: State, step: Step, n: nat)
    requires Inv(s) && Enabled(s, step) && n < |s.settings| && s.settings[n].reported == 1
    ensures var s' := Next(s, step); n < |s'.settings| && s'.settings[n].reported == 1
  {
    Bounds(s.callbacks);
  }

  // ---- The event

  /** The last setting has been signalled and its event is still set, if it has been signalled at all. */
  predicate Shown(s: State) {
    s.settings != [] && s.settings[Last(s)].signals > 0 ==> s.event
  }

  /** The step that counts a signal for a setting sets the event, and no other step sets it. */
  lemma SignalSets(s: State, step: Step)
    requires Inv(s) && Enabled(s, step)
    ensures var s' := Next(s, step);
            && |s.settings| <= |s'.settings|
            && (forall n :: 0 <= n < |s.settings| && s'.settings[n].signals != s.settings[n].signals ==>
                  n == Last(s) == Last(s') && s'.settings[n].signals == 1 && s'.event)
    ensures var s' := Next(s, step);
            s'.event && !s.event ==>
              s.settings != [] && s'.settings[Last(s)].signals == s.settings[Last(s)].signals + 1
  {
    NextKeeps(s, step);
    Bounds(s.callbacks);
  }

  /** A set event stays set until a wait consumes it or a later setting resets it. */
  lemma EventStays(s: State, step: Step)
    requires Inv(s) && Enabled(s, step) && s.event && !step.Consume?
    ensures Next(s, step).event || (s.controller.Activated? && step.Continue? && s.settings[Last(s)].signals == 0)
  {
    Bounds(s.callbacks);
  }

  lemma {:induction false} ShownStays(s: State, steps: seq<Step>)
    requires Inv(s) && Shown(s) && LegalRun(s, steps) && forall k :: 0 <= k < |steps| ==> !steps[k].Consume?
    ensures Inv(After(s, steps)) && Shown(After(s, steps))
    decreases |steps|
  {
    if steps != [] {
      NextKeeps(s, steps[0]);
      SignalSets(s, steps[0]);
      NewIsUnsignalled(s, steps[0]);
      if s.event {
        EventStays(s, steps[0]);
      }
      ShownStays(Next(s, steps[0]), steps[1..]);
    }
  }

  lemma NewIsUnsignalled(s: State, step: Step)
    requires Enabled(s, step)
    ensures var s' := Next(s, step);
            |s'.settings| > |s.settings| ==> s'.settings[Last(s')].signals == 0
  {
  }

  /** From where the last setting has not been signalled yet, or its signal has not been consumed: as long as no wait
      consumes the event, between calls it is set exactly when the last setting has been signalled. */
  lemma EventIsTheSignal(steps: seq<Step>, more: seq<Step>)
    requires LegalRun(INITIAL, steps) && LegalRun(After(INITIAL, steps), more)
    requires forall k :: 0 <= k < |more| ==> !more[k].Consume?
    requires var s := After(INITIAL, steps); s.settings == [] || s.settings[Last(s)].signals == 0 || s.event
    ensures var s' := After(After(INITIAL, steps), more);
            s'.controller.Ready? ==> (s'.event <==> s'.settings != [] && s'.settings[Last(s')].signals == 1)
  {
    AfterKeeps(INITIAL, steps);
    var s := After(INITIAL, steps);
    assert s.settings != [] && s.settings[Last(s)].signals > 0 ==> s.event;
    ShownStays(s, more);
  }

  // ---- Calls get through

  function CallbackRest(c: Callback): int {
    match c.stage
    case Pending => 4
    case Started => 3
    case Won => 2
    case Signalled => 1
    case Finished => 0
    case Dropped => 0
  }

  function ControllerRest(c: Controller): nat {
    match c
    case Ready => 0
    case Exchanged(again, _) => if again then 11 else 2
    case Disarmed(again, _) => if again then 10 else 1
    case Drained(_) => 9
    case Stored(_) => 8
    case Activated(_) => 7
    case EventReset(_) => 6
  }

  /** Steps that are left of a call, of the clock and of the callbacks. */
  function Rest(s: State): int {
    ControllerRest(s.controller) + (if s.armed then 5 else 0) + Total(CallbackRest, s.callbacks)
  }

  lemma CallbackGoesOn(s: State, b: nat)
    requires Enabled(s, Run(b))
    ensures Rest(Callbacks(s, b)) < Rest(s)
  {
    var h, h' := s.callbacks, Callbacks(s, b).callbacks;
    assert h' == h[b := h'[b]];
    TotalUpdate(CallbackRest, h, b, h'[b]);
  }

  lemma RestFalls(s: State, step: Step)
    requires Enabled(s, step) && !step.Begin? && !step.Consume?
    ensures Rest(Next(s, step)) < Rest(s)
  {
    match step
    case Continue =>
    case Fire => TotalAppend(CallbackRest, s.callbacks, Callback(Last(s), Pending));
    case Run(b) => CallbackGoesOn(s, b);
    case Drop(b) => TotalUpdate(CallbackRest, s.callbacks, b, s.callbacks[b].(stage := Dropped));
  }

  lemma {:induction false} SettlingIsFinite(s: State, steps: seq<Step>)
    requires LegalRun(s, steps) && forall k :: 0 <= k < |steps| ==> !steps[k].Begin? && !steps[k].Consume?
    ensures |steps| <= Rest(s) - Rest(After(s, steps))
    decreases |steps|
  {
    if steps != [] {
      RestFalls(s, steps[0]);
      SettlingIsFinite(Next(s, steps[0]), steps[1..]);
    }
  }

  /** However controller, clock and callbacks are scheduled, at most `Rest(s)` steps are left before another call
      begins; when none is left the call has returned, the clock has run out, no callback is alive, and the last
      setting has ended exactly once. */
  lemma CallReturns(s: State, steps: seq<Step>)
    requires Inv(s) && LegalRun(s, steps) && forall k :: 0 <= k < |steps| ==> !steps[k].Begin? && !steps[k].Consume?
    ensures |steps| <= Rest(s)
    ensures var s' := After(s, steps);
            (forall step: Step :: Enabled(s', step) ==> step.Begin? || step.Consume?) ==>
              && AtRest(s')
              && (s'.settings != [] ==>
                    s'.settings[Last(s')].signals + s'.settings[Last(s')].reported == 1 && !s'.timer.TimerActive?)
  {
    AfterKeeps(s, steps);
    SettlingIsFinite(s, steps);
    var s' := After(s, steps);
    TotalNonNegative(CallbackRest, s'.callbacks);
    if forall step: Step :: Enabled(s', step) ==> step.Begin? || step.Consume? {
      assert !Enabled(s', Fire) && !Enabled(s', Continue);
      forall b | 0 <= b < |s'.callbacks| ensures Alive(s'.callbacks[b]) == 0 {
        assert !Enabled(s', Run(b));
        TotalNonNegative(Alive, s'.callbacks);
      }
      if s'.settings != [] {
        RestHasEnded(s');
      }
    }
  }
}
