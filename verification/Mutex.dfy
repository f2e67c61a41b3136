/** The shadow owner and depth of a mutex against those the system keeps, with any number of threads. */
module Mutex {

  /** Where a thread stands in an update of its own. */
  datatype Pc =
    | Outside
    | Granted       // the system has granted the mutex, DdkUpdateMutex has not begun
    | Owned         // DdkUpdateMutex has written threadid
    | Decremented   // KeReleaseMutex has decremented count
    | Cleared       // KeReleaseMutex has cleared threadid

  /** Thread `t` has the identifier `t + 1`; `owner` and `depth` are the system's. */
  datatype State = State(threadid: nat, count: int, owner: nat, depth: nat, threads: seq<Pc>)

  datatype Step = Wait(t: nat) | Update(t: nat) | Release(t: nat)

  /** `rc` is what KeReleaseMutex returns when this step ends it, else -1. */
  datatype Outcome = Outcome(s: State, rc: int)

  function Id(t: nat): nat {
    t + 1
  }

  predicate Enabled(s: State, step: Step) {
    && step.t < |s.threads|
    && match step
       case Wait(t) => s.threads[t].Outside? && (s.owner == 0 || s.owner == Id(t))
       case Update(t) => s.threads[t].Granted? || s.threads[t].Owned?
       case Release(t) => s.threads[t].Outside? || s.threads[t].Decremented? || s.threads[t].Cleared?
  }

  function At(s: State, t: nat, pc: Pc): State
    requires t < |s.threads|
  {
    s.(threads := s.threads[t := pc])
  }

  /** ReleaseMutex, and the return of KeReleaseMutex with `rc` if it succeeds. */
  function SystemRelease(s: State, t: nat, rc: int): Outcome
    requires t < |s.threads|
  {
    if s.owner != Id(t) || s.depth == 0 then Outcome(At(s, t, Outside), 1)
    else Outcome(At(s, t, Outside).(depth := s.depth - 1, owner := if s.depth == 1 then 0 else s.owner), rc)
  }

  function Next(s: State, step: Step): Outcome
    requires Enabled(s, step)
  {
    match step
    case Wait(t) => Outcome(At(s, t, Granted).(owner := Id(t), depth := s.depth + 1), -1)
    case Update(t) =>
      if s.threads[t].Owned? then Outcome(At(s, t, Outside).(count := 1), -1)
      else if s.threadid != Id(t) then Outcome(At(s, t, Owned).(threadid := Id(t)), -1)
      else Outcome(At(s, t, Outside).(count := s.count + 1), -1)
    case Release(t) =>
      match s.threads[t]
      case Outside =>
        if s.threadid == Id(t) then Outcome(At(s, t, Decremented).(count := s.count - 1), -1)
        else SystemRelease(s, t, 1)
      case Decremented =>
        if s.count == 0 then Outcome(At(s, t, Cleared).(threadid := 0), -1) else SystemRelease(s, t, 1)
      case Cleared => SystemRelease(s, t, 0)
      case _ => Outcome(s, -1)
  }

  function Initial(n: nat): State {
    State(0, 0, 0, 0, seq(n, _ => Outside))
  }

  ghost predicate LegalRun(s: State, steps: seq<Step>)
    decreases |steps|
  {
    steps == [] || (Enabled(s, steps[0]) && LegalRun(Next(s, steps[0]).s, steps[1..]))
  }

  ghost function After(s: State, steps: seq<Step>): State
    requires LegalRun(s, steps)
    decreases |steps|
  {
    if steps == [] then s else After(Next(s, steps[0]).s, steps[1..])
  }

  // ---- The invariant

  /** Only the system's owner is inside an update; what the shadow is then depends on how far the update is. */
  ghost predicate Inv(s: State) {
    && (s.owner == 0 <==> s.depth == 0)
    && s.owner <= |s.threads|
    && (forall t :: 0 <= t < |s.threads| && Id(t) != s.owner ==> s.threads[t].Outside?)
    && if s.owner == 0 then s.threadid == 0 && s.count == 0
       else match s.threads[s.owner - 1]
         case Outside => s.threadid == s.owner && s.count == s.depth
         case Granted => s.count == s.depth - 1 && s.threadid == if s.depth == 1 then 0 else s.owner
         case Owned => s.threadid == s.owner && s.depth == 1 && s.count == 0
         case Decremented => s.threadid == s.owner && s.count == s.depth - 1
         case Cleared => s.threadid == 0 && s.depth == 1 && s.count == 0
  }

  lemma NextKeeps(s: State, step: Step)
    requires Inv(s) && Enabled(s, step)
    ensures Inv(Next(s, step).s)
  {
  }

  lemma {:induction false} AfterKeeps(s: State, steps: seq<Step>)
    requires Inv(s) && LegalRun(s, steps)
    ensures Inv(After(s, steps)) && |After(s, steps).threads| == |s.threads|
    decreases |steps|
  {
    if steps != [] {
      NextKeeps(s, steps[0]);
      AfterKeeps(Next(s, steps[0]).s, steps[1..]);
    }
  }

  // ---- What is promised

  /** A thread is in the window of an update of its own. */
  predicate Updating(s: State) {
    exists t :: 0 <= t < |s.threads| && !s.threads[t].Outside?
  }

  /** In every reachable state in which no thread is inside an update of its own, the shadow owner and count are
      the system's owner and depth; during an update only the owner is in one, and the count is at most one
      behind. */
  lemma ShadowIsExact(n: nat, steps: seq<Step>)
    requires LegalRun(Initial(n), steps)
    ensures var s := After(Initial(n), steps);
            && (!Updating(s) ==> s.threadid == s.owner && s.count == s.depth)
            && (forall t :: 0 <= t < |s.threads| && !s.threads[t].Outside? ==> s.owner == Id(t))
            && s.depth - 1 <= s.count <= s.depth
  {
    AfterKeeps(Initial(n), steps);
    var s := After(Initial(n), steps);
    assert s.owner != 0 && !s.threads[s.owner - 1].Outside? ==> Updating(s);
  }

  /** KeReleaseMutex returns zero exactly when it frees the mutex; a thread that does not own the mutex changes
      nothing. */
  lemma ReleaseFreesExactlyWhenZero(s: State, t: nat)
    requires Inv(s) && Enabled(s, Release(t))
    ensures var o := Next(s, Release(t));
            && (o.rc == 0 <==> s.owner == Id(t) && o.s.owner == 0)
            && (s.owner != Id(t) ==> o.rc == 1 && o.s == s)
  {
    assert s.threads[t].Outside? ==> s.threads[t := Outside] == s.threads;
  }
}
