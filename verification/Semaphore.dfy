/** The shadow count of semaphores against the count the system keeps, for any number of threads. */
module Semaphore {
  import opened Counting

  datatype Sem = Sem(count: int, system: int, limit: int)

  datatype Pc =
    | Idle
    | Announced(o: nat, adjustment: int)   // KeReleaseSemaphore has added to the shadow count
    | Recording(granted: seq<nat>)         // the system has granted these and WaitStatus has not recorded them yet
    | Stopped(o: nat, adjustment: int)     // the bugcheck for a limit exceeded

  datatype State = State(sems: seq<Sem>, threads: seq<Pc>)

  datatype Step =
    | Announce(t: nat, o: nat, adjustment: int)
    | Release(t: nat)
    | GrantAny(t: nat, objects: seq<nat>, i: nat)
    | GrantAll(t: nat, objects: seq<nat>)
    | Record(t: nat)

  predicate Available(s: State, o: nat) {
    o < |s.sems| && s.sems[o].system > 0
  }

  predicate Distinct(objects: seq<nat>) {
    forall i, j :: 0 <= i < j < |objects| ==> objects[i] != objects[j]
  }

  predicate Enabled(s: State, step: Step) {
    && step.t < |s.threads|
    && match step
       case Announce(t, o, _) => s.threads[t].Idle? && o < |s.sems|
       case Release(t) => s.threads[t].Announced? && s.threads[t].o < |s.sems|
       case GrantAny(t, objects, i) => s.threads[t].Idle? && i < |objects| && Available(s, objects[i])
       case GrantAll(t, objects) =>
         s.threads[t].Idle? && Distinct(objects) && forall i :: 0 <= i < |objects| ==> Available(s, objects[i])
       case Record(t) => s.threads[t].Recording? && (s.threads[t].granted != [] ==> s.threads[t].granted[0] < |s.sems|)
  }

  function Added(sems: seq<Sem>, o: nat, shadow: int, system: int): seq<Sem>
    requires o < |sems|
  {
    sems[o := sems[o].(count := sems[o].count + shadow, system := sems[o].system + system)]
  }

  /** ReleaseSemaphore fails for an adjustment that is not positive or goes over the limit. */
  predicate Releases(sem: Sem, adjustment: int) {
    adjustment > 0 && sem.system + adjustment <= sem.limit
  }

  function TakeAll(sems: seq<Sem>, objects: seq<nat>): seq<Sem>
    requires forall i :: 0 <= i < |objects| ==> objects[i] < |sems|
    ensures |TakeAll(sems, objects)| == |sems|
    decreases |objects|
  {
    if objects == [] then sems else TakeAll(Added(sems, objects[0], 0, -1), objects[1..])
  }

  function Next(s: State, step: Step): State
    requires Enabled(s, step)
  {
    match step
    case Announce(t, o, adjustment) =>
      State(Added(s.sems, o, adjustment, 0), s.threads[t := Announced(o, adjustment)])
    case Release(t) =>
      var o, adjustment := s.threads[t].o, s.threads[t].adjustment;
      if Releases(s.sems[o], adjustment) then State(Added(s.sems, o, 0, adjustment), s.threads[t := Idle])
      else State(s.sems, s.threads[t := Stopped(o, adjustment)])
    case GrantAny(t, objects, i) =>
      State(Added(s.sems, objects[i], 0, -1), s.threads[t := Recording([objects[i]])])
    case GrantAll(t, objects) => State(TakeAll(s.sems, objects), s.threads[t := Recording(objects)])
    case Record(t) =>
      var granted := s.threads[t].granted;
      if granted == [] then State(s.sems, s.threads[t := Idle])
      else State(Added(s.sems, granted[0], -1, 0), s.threads[t := Recording(granted[1..])])
  }

  function Initial(sems: seq<Sem>, n: nat): State {
    State(sems, seq(n, _ => Idle))
  }

  /** KeInitializeSemaphore */
  ghost predicate Initialized(sems: seq<Sem>) {
    forall o :: 0 <= o < |sems| ==> 0 <= sems[o].system == sems[o].count <= sems[o].limit
  }

  ghost predicate LegalRun(s: State, steps: seq<Step>)
    decreases |steps|
  {
    steps == [] || (Enabled(s, steps[0]) && LegalRun(Next(s, steps[0]), steps[1..]))
  }

  ghost function After(s: State, steps: seq<Step>): State
    requires LegalRun(s, steps)
    decreases |steps|
  {
    if steps == [] then s else After(Next(s, steps[0]), steps[1..])
  }

  // ---- What is counted

  function Occurrences(objects: seq<nat>, o: nat): nat {
    if objects == [] then 0 else (if objects[0] == o then 1 else 0) + Occurrences(objects[1..], o)
  }

  /** What a thread has added to the shadow count of `o` ahead of the system, or not yet taken off it. */
  function InFlight(o: nat): Pc -> int {
    (pc: Pc) => match pc
          case Idle => 0
          case Announced(p, adjustment) => if p == o then adjustment else 0
          case Recording(granted) => Occurrences(granted, o)
          case Stopped(p, adjustment) => if p == o then adjustment else 0
  }

  ghost predicate SemOk(s: State, o: nat)
    requires o < |s.sems|
  {
    s.sems[o].count == s.sems[o].system + Total(InFlight(o), s.threads) && 0 <= s.sems[o].system <= s.sems[o].limit
  }

  ghost predicate Inv(s: State) {
    forall o :: 0 <= o < |s.sems| ==> SemOk(s, o)
  }

  lemma {:induction false} TakenAll(sems: seq<Sem>, objects: seq<nat>, o: nat)
    requires (forall i :: 0 <= i < |objects| ==> objects[i] < |sems|) && o < |sems|
    ensures TakeAll(sems, objects)[o] == sems[o].(system := sems[o].system - Occurrences(objects, o))
    decreases |objects|
  {
    if objects != [] {
      TakenAll(Added(sems, objects[0], 0, -1), objects[1..], o);
    }
  }

  lemma {:induction false} AtMostOnce(objects: seq<nat>, o: nat)
    requires Distinct(objects)
    ensures Occurrences(objects, o) <= 1 && (Occurrences(objects, o) == 1 ==> o in objects)
  {
    if objects != [] {
      assert forall i, j :: 0 <= i < j < |objects[1..]| ==>
          objects[1..][i] == objects[i + 1] && objects[1..][j] == objects[j + 1];
      AtMostOnce(objects[1..], o);
      assert o in objects[1..] ==> o != objects[0];
    }
  }

  lemma NextKeepsOne(s: State, step: Step, o: nat)
    requires Inv(s) && Enabled(s, step) && o < |s.sems|
    ensures |Next(s, step).sems| == |s.sems| && SemOk(Next(s, step), o)
  {
    assert SemOk(s, o);
    TotalUpdate(InFlight(o), s.threads, step.t, Next(s, step).threads[step.t]);
    match step
    case GrantAll(_, objects) =>
      TakenAll(s.sems, objects, o);
      AtMostOnce(objects, o);
    case GrantAny(_, objects, i) =>
      assert Occurrences([objects[i]], o) == if objects[i] == o then 1 else 0;
    case _ =>
  }

  lemma {:induction false} AfterKeeps(s: State, steps: seq<Step>)
    requires Inv(s) && LegalRun(s, steps)
    ensures Inv(After(s, steps)) && |After(s, steps).sems| == |s.sems|
    decreases |steps|
  {
    if steps != [] {
      forall o | 0 <= o < |s.sems| ensures SemOk(Next(s, steps[0]), o) {
        NextKeepsOne(s, steps[0], o);
      }
      assert |Next(s, steps[0]).sems| == |s.sems| by {
        if |s.sems| > 0 {
          NextKeepsOne(s, steps[0], 0);
        }
      }
      AfterKeeps(Next(s, steps[0]), steps[1..]);
    }
  }

  // ---- What is promised

  lemma InitialHolds(sems: seq<Sem>, n: nat)
    requires Initialized(sems)
    ensures Inv(Initial(sems, n))
  {
    forall o | 0 <= o < |sems| ensures SemOk(Initial(sems, n), o) {
      TotalZero(InFlight(o), Initial(sems, n).threads);
    }
  }

  /** In every reachable state the shadow count is the system's count plus the releases announced and not made plus the
      waits granted and not recorded. */
  lemma ShadowIsExact(sems: seq<Sem>, n: nat, steps: seq<Step>, o: nat)
    requires Initialized(sems) && LegalRun(Initial(sems, n), steps) && o < |sems|
    ensures var s := After(Initial(sems, n), steps);
            o < |s.sems| && s.sems[o].count == s.sems[o].system + Total(InFlight(o), s.threads)
                         && 0 <= s.sems[o].system <= s.sems[o].limit
  {
    InitialHolds(sems, n);
    AfterKeeps(Initial(sems, n), steps);
    assert SemOk(After(Initial(sems, n), steps), o);
  }

  /** While nobody releases less than one, the shadow count is never below the system's; so KeReadStateSemaphore answers
      zero only for a semaphore that is not signalled, and exactly for those while no thread is inside a call. */
  lemma ReadStateIsRight(s: State, o: nat)
    requires Inv(s) && o < |s.sems|
    requires forall t :: 0 <= t < |s.threads| ==> PositiveRelease(s.threads[t])
    ensures s.sems[o].count >= s.sems[o].system
    ensures s.sems[o].count == 0 ==> s.sems[o].system == 0
    ensures (forall t :: 0 <= t < |s.threads| ==> s.threads[t].Idle?) ==> s.sems[o].count == s.sems[o].system
  {
    assert SemOk(s, o);
    NotNegative(s.threads, o);
    if forall t :: 0 <= t < |s.threads| ==> s.threads[t].Idle? {
      TotalZero(InFlight(o), s.threads);
    }
  }

  predicate PositiveRelease(pc: Pc) {
    pc.Announced? || pc.Stopped? ==> pc.adjustment > 0
  }

  lemma {:induction false} NotNegative(threads: seq<Pc>, o: nat)
    requires forall t :: 0 <= t < |threads| ==> PositiveRelease(threads[t])
    ensures Total(InFlight(o), threads) >= 0
  {
    if threads != [] {
      assert forall t :: 0 <= t < |threads[1..]| ==> threads[1..][t] == threads[t + 1];
      NotNegative(threads[1..], o);
    }
  }
}
