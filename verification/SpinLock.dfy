/** The table behind reader-writer spin locks: any calls of GetSRWLock, in any order of their steps. */
module SpinLock {
  import opened Counting

  /** `maxv` and the number of blocks in `lockv`. */
  predicate InTable(i: nat) {
    i / 4096 < 4096
  }

  function Block(i: nat): nat {
    i / 4096
  }

  datatype Failure = TooMany | NoMemory | Uninitialized

  /** Where a call for lock word `w` stands. */
  datatype Pc =
    | Called(w: nat)
    | Unassigned(w: nat)            // has read zero without the lock
    | Locked(w: nat)                // is inside the exclusive lock
    | Chosen(w: nat, i: nat)        // has read zero again and taken the next index
    | Allocated(w: nat, i: nat)     // the block of the index is there
    | Bumped(w: nat, i: nat)        // lockcount is incremented
    | Leaving(w: nat, i: nat)       // the word holds the index
    | Testing(w: nat, i: nat)       // is outside the lock, about to test lockcount
    | Tested(w: nat, i: nat)        // about to test the block
    | Returned(w: nat, i: nat)
    | Failed(w: nat, why: Failure, inside: bool)

  datatype State = State(lockcount: nat, blocks: set<nat>, words: seq<nat>, held: bool, calls: seq<Pc>)

  function Initial(words: nat, calls: seq<nat>): State
    requires forall c :: 0 <= c < |calls| ==> calls[c] < words
  {
    State(1, {}, seq(words, _ => 0), false, seq(|calls|, c requires 0 <= c < |calls| => Called(calls[c])))
  }

  function At(s: State, c: nat, pc: Pc): State
    requires c < |s.calls|
  {
    s.(calls := s.calls[c := pc])
  }

  /** Call `c` takes its next step; a call that waits for the lock stays where it is.  `memory` is whether
      an allocation succeeds. */
  function Step(s: State, c: nat, memory: bool): State
    requires c < |s.calls| && s.calls[c].w < |s.words|
  {
    match s.calls[c]
    case Called(w) => At(s, c, if s.words[w] == 0 then Unassigned(w) else Testing(w, s.words[w]))
    case Unassigned(w) => if s.held then s else At(s, c, Locked(w)).(held := true)
    case Locked(w) =>
      if s.words[w] != 0 then At(s, c, Leaving(w, s.words[w]))
      else if !InTable(s.lockcount) then At(s, c, Failed(w, TooMany, true))
      else At(s, c, Chosen(w, s.lockcount))
    case Chosen(w, i) =>
      if Block(i) in s.blocks then At(s, c, Allocated(w, i))
      else if memory then At(s, c, Allocated(w, i)).(blocks := s.blocks + {Block(i)})
      else At(s, c, Failed(w, NoMemory, true))
    case Allocated(w, i) => At(s, c, Bumped(w, i)).(lockcount := s.lockcount + 1)
    case Bumped(w, i) => At(s, c, Leaving(w, i)).(words := s.words[w := i])
    case Leaving(w, i) => At(s, c, Testing(w, i)).(held := false)
    case Testing(w, i) => At(s, c, if i >= s.lockcount then Failed(w, Uninitialized, false) else Tested(w, i))
    case Tested(w, i) => At(s, c, if Block(i) !in s.blocks then Failed(w, Uninitialized, false) else Returned(w, i))
    case Returned(_, _) => s
    case Failed(_, _, _) => s
  }

  datatype Move = Move(c: nat, memory: bool)

  ghost predicate Moves(s: State, moves: seq<Move>) {
    forall k :: 0 <= k < |moves| ==> moves[k].c < |s.calls|
  }

  ghost predicate WordsExist(s: State) {
    forall c :: 0 <= c < |s.calls| ==> s.calls[c].w < |s.words|
  }

  ghost function Run(s: State, moves: seq<Move>): State
    requires WordsExist(s) && Moves(s, moves)
    ensures |Run(s, moves).calls| == |s.calls|
    decreases |moves|
  {
    if moves == [] then s else Run(Step(s, moves[0].c, moves[0].memory), moves[1..])
  }

  // ---- The invariant

  function InLock(pc: Pc): int {
    if pc.Locked? || pc.Chosen? || pc.Allocated? || pc.Bumped? || pc.Leaving? || (pc.Failed? && pc.inside) then 1 else 0
  }

  /** A call that has taken an index which is not published yet. */
  function Taking(pc: Pc): int {
    if pc.Chosen? || pc.Allocated? || pc.Bumped? then 1 else 0
  }

  ghost predicate CallOk(s: State, pc: Pc) {
    && pc.w < |s.words|
    && match pc
       case Chosen(w, i) => i == s.lockcount && s.words[w] == 0 && InTable(i)
       case Allocated(w, i) => i == s.lockcount && s.words[w] == 0 && InTable(i) && Block(i) in s.blocks
       case Bumped(w, i) => i + 1 == s.lockcount && s.words[w] == 0 && Block(i) in s.blocks && i != 0 && i !in s.words
       case Leaving(w, i) => i != 0 && s.words[w] == i
       case Testing(w, i) => i != 0 && s.words[w] == i
       case Tested(w, i) => i != 0 && s.words[w] == i
       case Returned(w, i) => i != 0 && s.words[w] == i
       case Failed(_, why, _) => why != Uninitialized && (why == TooMany ==> !InTable(s.lockcount))
       case _ => true
  }

  ghost predicate WordOk(s: State, w: nat)
    requires w < |s.words|
  {
    s.words[w] != 0 ==> s.words[w] < s.lockcount && Block(s.words[w]) in s.blocks
  }

  ghost predicate Distinct(words: seq<nat>) {
    forall v, w :: 0 <= v < w < |words| && words[v] != 0 ==> words[v] != words[w]
  }

  ghost predicate Inv(s: State) {
    && s.lockcount >= 1
    && (forall w :: 0 <= w < |s.words| ==> WordOk(s, w))
    && Distinct(s.words)
    && (forall c :: 0 <= c < |s.calls| ==> CallOk(s, s.calls[c]))
    && Total(InLock, s.calls) == (if s.held then 1 else 0)
  }

  lemma InitialHolds(words: nat, calls: seq<nat>)
    requires forall c :: 0 <= c < |calls| ==> calls[c] < words
    ensures Inv(Initial(words, calls))
  {
    TotalZero(InLock, Initial(words, calls).calls);
  }

  /** The call inside the lock is alone there. */
  lemma Alone(s: State, c: nat, d: nat)
    requires Inv(s) && c < |s.calls| && d < |s.calls| && d != c && InLock(s.calls[c]) == 1
    ensures InLock(s.calls[d]) == 0 && s.held
  {
    TotalNonNegative(InLock, s.calls);
    TotalOfTwo(InLock, s.calls, if c < d then c else d, if c < d then d else c);
  }

  /** What a step may change while other calls stand where they do. */
  ghost predicate Grows(s: State, s': State) {
    && s'.lockcount >= s.lockcount && s'.blocks >= s.blocks && |s'.words| == |s.words|
    && (forall w :: 0 <= w < |s.words| && s.words[w] != 0 ==> s'.words[w] == s.words[w])
  }

  /** A step that keeps its own call, the words and the lock right keeps everything. */
  lemma CallsKept(s: State, s': State, c: nat)
    requires Inv(s) && c < |s.calls| && |s'.calls| == |s.calls| && Grows(s, s')
    requires s' == s.(lockcount := s'.lockcount, blocks := s'.blocks, words := s'.words, held := s'.held,
                      calls := s.calls[c := s'.calls[c]])
    requires (s'.lockcount, s'.words) == (s.lockcount, s.words) || InLock(s.calls[c]) == 1
    requires s'.lockcount > s.lockcount ==> InTable(s.lockcount)
    requires CallOk(s', s'.calls[c])
    ensures forall d :: 0 <= d < |s'.calls| ==> CallOk(s', s'.calls[d])
  {
    forall d | 0 <= d < |s'.calls| ensures CallOk(s', s'.calls[d]) {
      assert CallOk(s, s.calls[d]);
      if d != c && InLock(s.calls[c]) == 1 {
        Alone(s, c, d);
      }
    }
  }

  lemma StepKeeps(s: State, c: nat, memory: bool)
    requires Inv(s) && c < |s.calls|
    ensures CallOk(s, s.calls[c]) && Inv(Step(s, c, memory)) && Grows(s, Step(s, c, memory))
  {
    assert CallOk(s, s.calls[c]);
    var s' := Step(s, c, memory);
    TotalNonNegative(InLock, s.calls);
    TotalUpdate(InLock, s.calls, c, s'.calls[c]);
    assert s'.calls == s.calls[c := s'.calls[c]];
    WordsKept(s, c, memory);
    OwnCallKept(s, c, memory);
    CallsKept(s, s', c);
  }

  lemma WordsKept(s: State, c: nat, memory: bool)
    requires Inv(s) && c < |s.calls| && CallOk(s, s.calls[c])
    ensures var s' := Step(s, c, memory);
            && Grows(s, s') && Distinct(s'.words) && (forall w :: 0 <= w < |s'.words| ==> WordOk(s', w))
  {
    var s' := Step(s, c, memory);
    forall w | 0 <= w < |s'.words| ensures WordOk(s', w) {
      assert WordOk(s, w);
    }
    if s.calls[c].Bumped? {
      var i := s.calls[c].i;
      assert forall w :: 0 <= w < |s.words| ==> s.words[w] != i;
    }
  }

  lemma OwnCallKept(s: State, c: nat, memory: bool)
    requires Inv(s) && c < |s.calls| && CallOk(s, s.calls[c])
    ensures var s' := Step(s, c, memory); CallOk(s', s'.calls[c])
  {
    assert WordOk(s, s.calls[c].w);
    forall w | 0 <= w < |s.words| ensures s.words[w] != s.lockcount {
      assert WordOk(s, w);
    }
  }

  lemma {:induction false} RunKeeps(s: State, moves: seq<Move>)
    requires Inv(s) && Moves(s, moves)
    ensures WordsExist(s) && Inv(Run(s, moves)) && Grows(s, Run(s, moves))
    ensures |Run(s, moves).calls| == |s.calls|
    decreases |moves|
  {
    forall c | 0 <= c < |s.calls| ensures s.calls[c].w < |s.words| {
      assert CallOk(s, s.calls[c]);
    }
    if moves != [] {
      StepKeeps(s, moves[0].c, moves[0].memory);
      RunKeeps(Step(s, moves[0].c, moves[0].memory), moves[1..]);
    }
  }

  // ---- What is promised

  /** In every reachable state no call has failed with "Uninitialized", and every call that has returned for a word has
      the index of that word: one slot of an allocated block below lockcount, not that of any other word. */
  lemma EachWordHasItsSlot(words: nat, calls: seq<nat>, moves: seq<Move>, c: nat, d: nat)
    requires (forall k :: 0 <= k < |calls| ==> calls[k] < words) && Moves(Initial(words, calls), moves)
    requires c < |calls| && d < |calls|
    ensures var s := Run(Initial(words, calls), moves);
            && c < |s.calls| && d < |s.calls|
            && !(s.calls[c].Failed? && s.calls[c].why == Uninitialized)
            && (s.calls[c].Returned? ==> 1 <= s.calls[c].i < s.lockcount && Block(s.calls[c].i) in s.blocks)
            && (s.calls[c].Returned? && s.calls[d].Returned? ==>
                  (s.calls[c].i == s.calls[d].i <==> s.calls[c].w == s.calls[d].w))
  {
    InitialHolds(words, calls);
    RunKeeps(Initial(words, calls), moves);
    var s := Run(Initial(words, calls), moves);
    assert CallOk(s, s.calls[c]) && CallOk(s, s.calls[d]);
    assert WordOk(s, s.calls[c].w) && WordOk(s, s.calls[d].w);
  }

  /** The index of a word is permanent: whatever goes on after a call returned, the word keeps the index. */
  lemma IndexIsPermanent(words: nat, calls: seq<nat>, moves: seq<Move>, more: seq<Move>, c: nat)
    requires (forall k :: 0 <= k < |calls| ==> calls[k] < words) && c < |calls|
    requires Moves(Initial(words, calls), moves) && Moves(Initial(words, calls), more)
    requires Run(Initial(words, calls), moves).calls[c].Returned?
    ensures var s := Run(Initial(words, calls), moves);
            && WordsExist(s) && Moves(s, more)
            && var pc := s.calls[c]; pc.w < words && |Run(s, more).words| == words && Run(s, more).words[pc.w] == pc.i
  {
    InitialHolds(words, calls);
    RunKeeps(Initial(words, calls), moves);
    var s := Run(Initial(words, calls), moves);
    assert CallOk(s, s.calls[c]);
    RunKeeps(s, more);
  }

  /** "Too many" is reported only when the whole table, sixteen million indexes, is handed out. */
  lemma TooManyOnlyWhenFull(words: nat, calls: seq<nat>, moves: seq<Move>, c: nat)
    requires (forall k :: 0 <= k < |calls| ==> calls[k] < words) && Moves(Initial(words, calls), moves) && c < |calls|
    requires var pc := Run(Initial(words, calls), moves).calls[c]; pc.Failed? && pc.why == TooMany
    ensures Run(Initial(words, calls), moves).lockcount >= 4096 * 4096
  {
    InitialHolds(words, calls);
    RunKeeps(Initial(words, calls), moves);
    var s := Run(Initial(words, calls), moves);
    assert CallOk(s, s.calls[c]);
  }

  // ---- Calls get through

  /** Steps that are left of a call. */
  function Rest(pc: Pc): int {
    match pc
    case Called(_) => 9
    case Unassigned(_) => 8
    case Locked(_) => 7
    case Chosen(_, _) => 6
    case Allocated(_, _) => 5
    case Bumped(_, _) => 4
    case Leaving(_, _) => 3
    case Testing(_, _) => 2
    case Tested(_, _) => 1
    case Returned(_, _) => 0
    case Failed(_, _, _) => 0
  }

  /** The call can take a step: it is not at its end and does not wait for the lock. */
  predicate Enabled(s: State, c: nat)
    requires c < |s.calls|
  {
    Rest(s.calls[c]) > 0 && !(s.calls[c].Unassigned? && s.held)
  }

  ghost predicate Progressing(s: State, moves: seq<Move>)
    requires WordsExist(s)
    decreases |moves|
  {
    moves == [] ||
    (moves[0].c < |s.calls| && Enabled(s, moves[0].c) && Progressing(Step(s, moves[0].c, moves[0].memory), moves[1..]))
  }

  /** A step leaves each call with its word. */
  lemma WordsStay(s: State, c: nat, memory: bool)
    requires WordsExist(s) && c < |s.calls|
    ensures WordsExist(Step(s, c, memory)) && |Step(s, c, memory).calls| == |s.calls|
  {
    var s' := Step(s, c, memory);
    assert |s'.words| == |s.words| && s'.calls[c].w == s.calls[c].w;
    forall d | 0 <= d < |s'.calls| ensures s'.calls[d].w < |s'.words| {
      assert d != c ==> s'.calls[d] == s.calls[d];
    }
  }

  lemma StepCounts(s: State, c: nat, memory: bool)
    requires WordsExist(s) && c < |s.calls| && Enabled(s, c)
    ensures Total(Rest, Step(s, c, memory).calls) < Total(Rest, s.calls)
  {
    var pc := Step(s, c, memory).calls[c];
    assert Step(s, c, memory).calls == s.calls[c := pc];
    TotalUpdate(Rest, s.calls, c, pc);
  }

  lemma {:induction false} ProgressMoves(s: State, moves: seq<Move>)
    requires WordsExist(s) && Progressing(s, moves)
    ensures Moves(s, moves)
    decreases |moves|
  {
    if moves != [] {
      var s' := Step(s, moves[0].c, moves[0].memory);
      ProgressMoves(s', moves[1..]);
      MovesCons(s, s', moves);
    }
  }

  lemma {:induction false} ProgressIsFinite(s: State, moves: seq<Move>)
    requires WordsExist(s) && Progressing(s, moves)
    ensures |moves| <= Total(Rest, s.calls)
    decreases |moves|
  {
    TotalNonNegative(Rest, s.calls);
    if moves != [] {
      StepCounts(s, moves[0].c, moves[0].memory);
      WordsStay(s, moves[0].c, moves[0].memory);
      ProgressIsFinite(Step(s, moves[0].c, moves[0].memory), moves[1..]);
    }
  }

  lemma MovesCons(s: State, s': State, moves: seq<Move>)
    requires moves != [] && moves[0].c < |s.calls| == |s'.calls| && Moves(s', moves[1..])
    ensures Moves(s, moves)
  {
    assert forall k :: 0 < k < |moves| ==> moves[k] == moves[1..][k - 1];
  }

  /** No call waits for ever: however the calls are scheduled a bounded number of steps is left, and when none is
      left every call has returned or failed, unless one has failed inside the lock. */
  lemma CallsReturn(s: State, moves: seq<Move>)
    requires Inv(s) && WordsExist(s) && Progressing(s, moves)
    ensures Moves(s, moves) && |moves| <= Total(Rest, s.calls)
    ensures var s' := Run(s, moves);
            (forall c :: 0 <= c < |s'.calls| ==> !Enabled(s', c)) ==>
              (forall c :: 0 <= c < |s'.calls| ==> s'.calls[c].Returned? || s'.calls[c].Failed?)
              || exists c :: 0 <= c < |s'.calls| && s'.calls[c].Failed? && s'.calls[c].inside
  {
    ProgressMoves(s, moves);
    ProgressIsFinite(s, moves);
    RunKeeps(s, moves);
    var s' := Run(s, moves);
    TotalNonNegative(InLock, s'.calls);
    if forall c :: 0 <= c < |s'.calls| ==> !Enabled(s', c) {
      if s'.held {
        var c :| 0 <= c < |s'.calls| && InLock(s'.calls[c]) > 0;
        assert !Enabled(s', c);
      } else {
        forall c | 0 <= c < |s'.calls| ensures s'.calls[c].Returned? || s'.calls[c].Failed? {
          assert !Enabled(s', c);
        }
      }
    }
  }
}
