/** Semaphores as objects: releasing, waiting for several objects and recording the waits granted, while other threads
    run between any two statements. */
module SemaphoreObject {
  import opened Common
  import opened Semaphore

  /** What can be waited for: a semaphore, or an object without a count. */
  datatype Dispatch = Counted(o: nat) | Other

  /** The semaphores among the objects, in order. */
  function SemsOf(objects: seq<Dispatch>): seq<nat> {
    if objects == [] then []
    else (if objects[0].Counted? then [objects[0].o] else []) + SemsOf(objects[1..])
  }

  /** They are the counted objects, each one once and in their order. */
  lemma {:induction false} SemsOfAre(objects: seq<Dispatch>) returns (counted: seq<Dispatch>)
    ensures Picked(counted, objects, (x: Dispatch) => x.Counted?)
    ensures |counted| == |SemsOf(objects)|
            && forall k :: 0 <= k < |counted| ==> counted[k] == Counted(SemsOf(objects)[k])
  {
    if objects == [] {
      counted := [];
      PickedNone((x: Dispatch) => x.Counted?);
    } else {
      var rest := SemsOfAre(objects[1..]);
      counted := if objects[0].Counted? then [objects[0]] + rest else rest;
      PickedNext(rest, objects, (x: Dispatch) => x.Counted?);
    }
  }

  class Semaphores {
    var sems: seq<Sem>
    /** Where each thread stands. */
    var threads: seq<Pc>

    function Value(): State
      reads this
    {
      State(sems, threads)
    }

    ghost predicate Valid()
      reads this
    {
      Inv(Value())
    }

    /** KeInitializeSemaphore, for each of them */
    constructor (sems: seq<Sem>, n: nat)
      requires Initialized(sems)
      ensures Valid() && Value() == Initial(sems, n)
    {
      this.sems, threads := sems, seq(n, _ => Idle);
      new;
      InitialHolds(sems, n);
    }

    /** A step of any thread. */
    method Take(step: Step)
      requires Valid() && Enabled(Value(), step)
      modifies this
      ensures Valid() && Value() == Next(old(Value()), step)
      ensures |sems| == |old(sems)| && |threads| == |old(threads)|
      ensures forall t :: 0 <= t < |threads| && t != step.t ==> threads[t] == old(threads[t])
    {
      StepKeeps(Value(), step);
      var s := Next(Value(), step);
      sems, threads := s.sems, s.threads;
    }

    method Others(t: nat)
      requires Valid() && t < |threads|
      modifies this
      ensures Valid() && |sems| == |old(sems)| && |threads| == |old(threads)| && threads[t] == old(threads[t])
    {
      var n: int := *;
      for k := 0 to if n < 0 then 0 else n
        invariant Valid() && |sems| == |old(sems)| && |threads| == |old(threads)| && threads[t] == old(threads[t])
      {
        var step: Step := *;
        if step.t != t && Enabled(Value(), step) {
          Take(step);
        }
      }
    }

    /** KeReleaseSemaphore; `stopped` stands for the bugcheck, `at` is the state in which the system was asked. */
    method ReleaseSemaphore(t: nat, o: nat, adjustment: int) returns (signalled: bool, stopped: bool, ghost at: State)
      requires Valid() && t < |threads| && threads[t].Idle? && o < |sems|
      modifies this
      ensures Valid() && |sems| == |old(sems)| && |threads| == |old(threads)|
      ensures threads[t] == if stopped then Stopped(o, adjustment) else Idle
      ensures Enabled(at, Release(t)) && at.threads[t] == Announced(o, adjustment) && Value() == Next(at, Release(t))
      ensures signalled == (at.sems[o].system != 0) && stopped == !Releases(at.sems[o], adjustment)
      ensures stopped <==> adjustment <= 0 || at.sems[o].system + adjustment > at.sems[o].limit
      ensures sems == if stopped then at.sems
                      else at.sems[o := at.sems[o].(system := at.sems[o].system + adjustment)]
    {
      Others(t);
      StepKeeps(Value(), Announce(t, o, adjustment));
      sems := sems[o := sems[o].(count := sems[o].count + adjustment)];
      threads := threads[t := Announced(o, adjustment)];
      Others(t);
      StepKeeps(Value(), Release(t));
      at := Value();
      var previous := sems[o].system;
      signalled := previous != 0;
      stopped := adjustment <= 0 || previous + adjustment > sems[o].limit;
      if !stopped {
        sems := sems[o := sems[o].(system := previous + adjustment)];
      }
      threads := threads[t := if stopped then Stopped(o, adjustment) else Idle];
    }

    /** WaitStatus after the system has granted the object `rc`, or all objects: each semaphore granted is
        recorded once. */
    method WaitStatus(t: nat, objects: seq<Dispatch>, all: bool, rc: nat)
      requires Valid() && t < |threads| && rc < |objects| && (all ==> rc == 0)
      requires forall i :: 0 <= i < |objects| && objects[i].Counted? ==> objects[i].o < |sems|
      requires threads[t] == Recording(SemsOf(if all then objects else [objects[rc]]))
      modifies this
      ensures Valid() && |sems| == |old(sems)| && |threads| == |old(threads)|
      ensures threads[t] == Recording([])
    {
      var i := if all then 0 else rc;
      ghost var end := if all then |objects| else rc + 1;
      assert objects[i..end] == if all then objects else [objects[rc]];
      while i < |objects|
        invariant Valid() && |sems| == |old(sems)| && |threads| == |old(threads)|
        invariant i <= end <= |objects| && (all || i == rc) && threads[t] == Recording(SemsOf(objects[i..end]))
        decreases |objects| - i
      {
        assert objects[i..end][1..] == objects[i + 1..end];
        if objects[i].Counted? {
          UpdateSemaphore(t, objects[i].o);
        }
        i := i + 1;
        if !all {
          break;
        }
      }
      assert objects[end..end] == [];
    }

    /** DdkUpdateSemaphore, for the next semaphore granted. */
    method UpdateSemaphore(t: nat, o: nat)
      requires Valid() && t < |threads| && o < |sems|
      requires threads[t].Recording? && threads[t].granted != [] && threads[t].granted[0] == o
      modifies this
      ensures Valid() && |sems| == |old(sems)| && |threads| == |old(threads)|
      ensures threads[t] == Recording(old(threads[t]).granted[1..])
    {
      Others(t);
      StepKeeps(Value(), Record(t));
      sems := sems[o := sems[o].(count := sems[o].count - 1)];
      threads := threads[t := Recording(threads[t].granted[1..])];
    }

    /** KeReadStateSemaphore: a zero answer is right while nobody releases less than one, any answer while no thread is
        inside a call. */
    method ReadStateSemaphore(o: nat) returns (signalled: bool)
      requires Valid() && o < |sems| && forall t :: 0 <= t < |threads| ==> PositiveRelease(threads[t])
      ensures !signalled ==> sems[o].system == 0
      ensures (forall t :: 0 <= t < |threads| ==> threads[t].Idle?) ==> (signalled <==> sems[o].system > 0)
    {
      ReadStateIsRight(Value(), o);
      assert SemOk(Value(), o);
      signalled := sems[o].count != 0;
    }
  }

  lemma StepKeeps(s: State, step: Step)
    requires Inv(s) && Enabled(s, step)
    ensures Inv(Next(s, step)) && |Next(s, step).sems| == |s.sems| && |Next(s, step).threads| == |s.threads|
    ensures forall t :: 0 <= t < |s.threads| && t != step.t ==> Next(s, step).threads[t] == s.threads[t]
  {
    if |s.sems| > 0 {
      NextKeepsOne(s, step, 0);
    }
    forall o | 0 <= o < |s.sems| ensures SemOk(Next(s, step), o) {
      NextKeepsOne(s, step, o);
    }
  }
}
