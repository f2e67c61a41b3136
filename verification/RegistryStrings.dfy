/** Registry data: the growing read buffer, and splitting and measuring lists of strings. */
module RegistryStrings {
  import opened Common

  type Byte = x: int | 0 <= x < 256

  type Wide = x: int | 0 <= x < 65536

  const PAGE_SIZE := 4096
  const NULL_BYTES := 6

  // ---- Reading a value

  datatype ReadStatus = Read | Missing | NoMemory

  /** From read `s` on the value does not change. */
  ghost predicate StableFrom(answer: nat -> Option<seq<Byte>>, s: nat) {
    forall k :: k >= s ==> answer(k) == answer(s)
  }

  /** The read loop of DdkQueryValue.  `answer(k)` is the value when it is read the k-th time, `memory(k)` whether
      the k-th allocation succeeds.  Contents between the data and the padding's end are zero. */
  method QueryValue(answer: nat -> Option<seq<Byte>>, memory: nat -> bool, ghost s: nat)
    returns (status: ReadStatus, buffer: seq<Byte>, bytes: nat, attempts: nat)
    requires StableFrom(answer, s)
    ensures 1 <= attempts <= s + 3
    ensures (forall k: nat :: answer(k) == answer(0)) && answer(0).Some? && (forall k: nat :: memory(k)) ==>
              status == Read && attempts == (if |answer(0).value| <= 4090 then 1
                                             else if 8186 < |answer(0).value| <= 8192 then 3 else 2)
    ensures status == NoMemory <==> !memory(attempts - 1)
    ensures status == Missing <==> memory(attempts - 1) && answer(attempts - 1).None?
    ensures status == Read ==> bytes + NULL_BYTES == |buffer| && buffer[bytes..] == [0, 0, 0, 0, 0, 0]
    ensures status == Read ==> bytes <= |buffer| && answer(attempts - 1) == Some(buffer[..bytes])
  {
    var len;
    len, bytes, attempts, buffer := 0, 0, 0, [];
    while true
      invariant attempts == 0 ==> len == bytes == 0
      invariant attempts > 0 ==> answer(attempts - 1).Some? && bytes == |answer(attempts - 1).value|
      invariant attempts > 0 ==> bytes > len - NULL_BYTES && len >= PAGE_SIZE
      invariant attempts <= s + 2
      invariant attempts >= s + 2 ==> len - NULL_BYTES < bytes <= len
      invariant (forall k: nat :: answer(k) == answer(0)) && attempts > 0 ==> Remaining(len, bytes, attempts)
      decreases s + 3 - attempts
    {
      len := len + PAGE_SIZE;
      if bytes > len {
        len := bytes + NULL_BYTES;
      }
      attempts := attempts + 1;
      if !memory(attempts - 1) {
        status := NoMemory;
        return;
      }
      match answer(attempts - 1) {
        case None =>
          status := Missing;
          return;
        case Some(data) =>
          bytes := |data|;
          if |data| <= len - NULL_BYTES {
            status, buffer := Read, data + [0, 0, 0, 0, 0, 0];
            return;
          }
      }
    }
  }

  ghost predicate Remaining(len: nat, bytes: nat, attempts: nat) {
    (attempts == 1 && len == PAGE_SIZE) || (attempts == 2 && len == PAGE_SIZE * 2 && bytes <= len)
  }

  // ---- The buffer as wide characters

  function Pair(low: Byte, high: Byte): Wide {
    var x: int := low;
    x + 256 * high
  }

  function Widen(b: seq<Byte>): seq<Wide> {
    if |b| < 2 then [] else [Pair(b[0], b[1])] + Widen(b[2..])
  }

  /** Characters are pairs of bytes, the low byte first; an odd byte at the end is left out. */
  lemma {:induction false} WidenMeans(b: seq<Byte>)
    ensures |Widen(b)| == |b| / 2
    ensures forall k :: 0 <= k < |Widen(b)| ==> Widen(b)[k] as int == b[2 * k] as int + 256 * b[2 * k + 1] as int
  {
    if |b| >= 2 {
      WidenMeans(b[2..]);
      assert forall k :: 0 < k < |Widen(b)| ==> Widen(b)[k] == Widen(b[2..])[k - 1];
    }
  }

  /** Whatever the data, the padding ends the wide characters of the buffer with two zeros. */
  lemma {:induction false} PaddedEndsInZeros(data: seq<Byte>)
    ensures var w := Widen(data + [0, 0, 0, 0, 0, 0]);
            |w| >= 2 && w[|w| - 1] == 0 && w[|w| - 2] == 0
  {
    var b := data + [0, 0, 0, 0, 0, 0];
    if |data| < 2 {
      assert Widen(b) == [Pair(b[0], b[1])] + Widen(b[2..]);
      assert Widen(b[2..]) == [Pair(b[2..][0], b[2..][1])] + Widen(b[2..][2..]);
      var c := b[2..][2..];
      assert |c| >= 2 && c[0] == 0 && c[1] == 0;
      assert Widen(c) == [Pair(c[0], c[1])] + Widen(c[2..]);
    } else {
      assert b[2..] == data[2..] + [0, 0, 0, 0, 0, 0];
      PaddedEndsInZeros(data[2..]);
    }
  }

  // ---- Lists of strings

  /** The index of the first NUL from `i` on. */
  function End(w: seq<Wide>, i: nat): (e: nat)
    requires i <= |w|
    ensures i <= e <= |w| && (forall k :: i <= k < e ==> w[k] != 0) && (e < |w| ==> w[e] == 0)
    decreases |w| - i
  {
    if i == |w| || w[i] == 0 then i else End(w, i + 1)
  }

  lemma EndIs(w: seq<Wide>, i: nat, e: nat)
    requires i <= e < |w| && w[e] == 0 && forall k :: i <= k < e ==> w[k] != 0
    ensures End(w, i) == e
  {
  }

  /** The strings of a list from `i` on, up to its empty string. */
  function SplitFrom(w: seq<Wide>, i: nat): seq<seq<Wide>>
    decreases |w| - i
  {
    if i >= |w| then []
    else
      var e := End(w, i);
      if e == i then [] else [w[i..e]] + SplitFrom(w, e + 1)
  }

  function Split(w: seq<Wide>): seq<seq<Wide>> {
    SplitFrom(w, 0)
  }

  /** REG_MULTI_SZ */
  function Encode(strings: seq<seq<Wide>>): seq<Wide> {
    if strings == [] then [0] else strings[0] + [0] + Encode(strings[1..])
  }

  ghost predicate Plain(s: seq<Wide>) {
    s != [] && 0 !in s
  }

  ghost predicate AllPlain(strings: seq<seq<Wide>>) {
    forall i :: 0 <= i < |strings| ==> Plain(strings[i])
  }

  /** Splitting an encoded list, whatever follows it in the buffer, gives back exactly the list, precisely when it holds
      no empty string and no NUL. */
  lemma SplitEncodedExactly(strings: seq<seq<Wide>>, rest: seq<Wide>)
    ensures Split(Encode(strings) + rest) == strings <==> AllPlain(strings)
  {
    if AllPlain(strings) {
      SplitEncoded(Encode(strings) + rest, 0, strings);
    }
    SplitIsPlain(Encode(strings) + rest, 0);
  }

  /** `e` is at `i` in `w`. */
  ghost predicate At(w: seq<Wide>, i: nat, e: seq<Wide>) {
    i + |e| <= |w| && forall k :: 0 <= k < |e| ==> w[i + k] == e[k]
  }

  lemma {:induction false} SplitEncoded(w: seq<Wide>, i: nat, strings: seq<seq<Wide>>)
    requires AllPlain(strings) && At(w, i, Encode(strings))
    ensures SplitFrom(w, i) == strings
    decreases |strings|
  {
    if strings == [] {
      assert w[i + 0] == Encode(strings)[0];
    } else {
      var s, tail := strings[0], Encode(strings[1..]);
      AtParts(w, i, s, tail);
      SplitEncoded(w, i + |s| + 1, strings[1..]);
    }
  }

  lemma AtParts(w: seq<Wide>, i: nat, s: seq<Wide>, tail: seq<Wide>)
    requires 0 !in s && At(w, i, s + [0] + tail)
    ensures At(w, i + |s| + 1, tail) && i + |s| < |w| && End(w, i) == i + |s| && w[i..i + |s|] == s
  {
    var e := s + [0] + tail;
    forall k | 0 <= k < |tail| ensures w[i + |s| + 1 + k] == tail[k] {
      assert w[i + (|s| + 1 + k)] == e[|s| + 1 + k];
    }
    forall k | i <= k < i + |s| ensures w[k] != 0 && w[k] == s[k - i] {
      assert w[i + (k - i)] == e[k - i] && s[k - i] in s;
    }
    assert w[i + |s|] == e[|s|] == 0;
    EndIs(w, i, i + |s|);
  }

  lemma {:induction false} SplitIsPlain(w: seq<Wide>, i: nat)
    ensures AllPlain(SplitFrom(w, i))
    decreases |w| - i
  {
    if i < |w| && End(w, i) != i {
      SplitIsPlain(w, End(w, i) + 1);
    }
  }

  /** Whatever a buffer with two zeros at its end holds, what is split off is the list encoded at its front. */
  lemma {:induction false} EncodedAtFront(w: seq<Wide>, i: nat)
    requires i < |w| && |w| >= 2 && w[|w| - 1] == 0 && w[|w| - 2] == 0
    ensures At(w, i, Encode(SplitFrom(w, i)))
    decreases |w| - i
  {
    var e := End(w, i);
    if e != i {
      assert e <= |w| - 2;
      EncodedAtFront(w, e + 1);
      var tail := Encode(SplitFrom(w, e + 1));
      forall k | 0 <= k < e - i + 1 + |tail| ensures w[i + k] == (w[i..e] + [0] + tail)[k] {
        if k > e - i {
          assert w[(e + 1) + (k - (e - i + 1))] == tail[k - (e - i + 1)];
        }
      }
      assert SplitFrom(w, i)[1..] == SplitFrom(w, e + 1);
    }
  }

  // ---- Delivering the strings

  datatype RegType = Sz | ExpandSz | MultiSz | OtherType

  /** What the query routine is given: the data as it is, or one string. */
  datatype Call = Raw(regType: RegType, data: seq<Byte>) | Str(chars: seq<Wide>)

  /** The calls made so far and those for the strings from `i` on, up to one that fails. */
  function CallsFrom(w: seq<Wide>, i: nat, answers: nat -> bool, calls: seq<Call>): seq<Call>
    decreases |w| - i
  {
    if i >= |w| || End(w, i) == i then calls
    else
      var more := calls + [Str(w[i..End(w, i)])];
      if answers(|calls|) then CallsFrom(w, End(w, i) + 1, answers, more) else more
  }

  /** The calls made so far stay, in front of the others. */
  lemma {:induction false} CallsGrow(w: seq<Wide>, i: nat, answers: nat -> bool, calls: seq<Call>)
    ensures var all := CallsFrom(w, i, answers, calls);
            |calls| <= |all| && all[..|calls|] == calls
    decreases |w| - i
  {
    if i < |w| && End(w, i) != i && answers(|calls|) {
      var more := calls + [Str(w[i..End(w, i)])];
      CallsGrow(w, End(w, i) + 1, answers, more);
      assert CallsFrom(w, i, answers, calls)[..|calls|] == more[..|calls|];
    }
  }

  /** Every call before the last has succeeded, and the last has failed if strings are left out. */
  lemma {:induction false} CallsEnd(w: seq<Wide>, i: nat, answers: nat -> bool, calls: seq<Call>)
    ensures var n, all := |CallsFrom(w, i, answers, calls)|, |calls| + |SplitFrom(w, i)|;
            && |calls| <= n <= all
            && (forall k :: |calls| <= k < n - 1 ==> answers(k))
            && (n < all ==> n > |calls| && !answers(n - 1))
    decreases |w| - i
  {
    if i < |w| && End(w, i) != i && answers(|calls|) {
      CallsEnd(w, End(w, i) + 1, answers, calls + [Str(w[i..End(w, i)])]);
    }
  }

  /** The calls are for the strings of the list in order, and end exactly at the first one that fails, or at the end of
      the list if none does. */
  lemma {:induction false} CallsAreSplit(w: seq<Wide>, i: nat, answers: nat -> bool, calls: seq<Call>)
    ensures var all, strings := CallsFrom(w, i, answers, calls), SplitFrom(w, i);
            && |calls| <= |all| <= |calls| + |strings| && all[..|calls|] == calls
            && (forall k :: |calls| <= k < |all| ==> all[k] == Str(strings[k - |calls|]))
            && (forall k :: |calls| <= k < |all| - 1 ==> answers(k))
            && (|all| < |calls| + |strings| ==> |all| > |calls| && !answers(|all| - 1))
  {
    CallsGrow(w, i, answers, calls);
    CallsEnd(w, i, answers, calls);
    forall k | |calls| <= k < |CallsFrom(w, i, answers, calls)|
      ensures CallsFrom(w, i, answers, calls)[k] == Str(SplitFrom(w, i)[k - |calls|])
    {
      CallAt(w, i, answers, calls, k);
    }
  }

  lemma {:induction false} CallAt(w: seq<Wide>, i: nat, answers: nat -> bool, calls: seq<Call>, k: nat)
    requires |calls| <= k < |CallsFrom(w, i, answers, calls)|
    ensures k - |calls| < |SplitFrom(w, i)|
            && CallsFrom(w, i, answers, calls)[k] == Str(SplitFrom(w, i)[k - |calls|])
    decreases |w| - i
  {
    var more := calls + [Str(w[i..End(w, i)])];
    if k == |calls| {
      CallsGrow(w, End(w, i) + 1, answers, more);
      var all := CallsFrom(w, i, answers, calls);
      assert all[..|more|] == more;
      assert all[k] == all[..|more|][k];
    } else {
      CallAt(w, End(w, i) + 1, answers, more, k);
    }
  }

  /** DdkQueryCallback on a buffer of the read loop; `answers(k)` is whether the k-th call of the routine succeeds.
      Every access is inside the buffer. */
  method QueryCallback(regType: RegType, noExpand: bool, buffer: seq<Byte>, bytes: nat, answers: nat -> bool)
    returns (calls: seq<Call>, success: bool)
    requires bytes + NULL_BYTES == |buffer| && forall k :: bytes <= k < |buffer| ==> buffer[k] == 0
    ensures noExpand || regType.Sz? || regType.OtherType? ==> calls == [Raw(regType, buffer[..bytes])]
    ensures !noExpand && regType.MultiSz? ==> calls == CallsFrom(Widen(buffer), 0, answers, [])
    ensures !noExpand && regType.MultiSz? ==> Delivered(calls, Split(Widen(buffer)), answers)
    ensures !noExpand && regType.ExpandSz? ==>
              calls == if Split(Widen(buffer)) == [] then [] else [Str(Split(Widen(buffer))[0])]
    ensures success <==> AllSucceed(answers, |calls|)
  {
    if noExpand || (regType != MultiSz && regType != ExpandSz) {
      calls := [Raw(regType, buffer[..bytes])];
      success := answers(0);
      return;
    }
    var dp := Widen(buffer);
    assert buffer == buffer[..bytes] + [0, 0, 0, 0, 0, 0];
    PaddedEndsInZeros(buffer[..bytes]);
    calls, success := DeliverStrings(dp, regType.MultiSz?, answers);
    CallsAreSplit(dp, 0, answers, []);
  }

  /** One call for each of the strings in order, up to and with the first that fails. */
  ghost predicate Delivered(calls: seq<Call>, strings: seq<seq<Wide>>, answers: nat -> bool) {
    && |calls| <= |strings|
    && (forall k :: 0 <= k < |calls| ==> calls[k] == Str(strings[k]))
    && (forall k :: 0 <= k < |calls| - 1 ==> answers(k))
    && (|calls| < |strings| ==> calls != [] && !answers(|calls| - 1))
  }

  ghost predicate AllSucceed(answers: nat -> bool, n: nat) {
    forall k :: 0 <= k < n ==> answers(k)
  }

  lemma SucceedOne(answers: nat -> bool, n: nat)
    ensures AllSucceed(answers, n + 1) <==> AllSucceed(answers, n) && answers(n)
  {
    assert AllSucceed(answers, n + 1) ==> answers(n);
  }

  /** The loop over the strings of a buffer. */
  method DeliverStrings(dp: seq<Wide>, multi: bool, answers: nat -> bool) returns (calls: seq<Call>, success: bool)
    requires |dp| >= 2 && dp[|dp| - 1] == 0 && dp[|dp| - 2] == 0
    ensures multi ==> calls == CallsFrom(dp, 0, answers, [])
    ensures !multi ==> calls == if Split(dp) == [] then [] else [Str(Split(dp)[0])]
    ensures success <==> AllSucceed(answers, |calls|)
  {
    calls, success := [], true;
    var i := 0;
    while true
      invariant 0 <= i < |dp| && success && (!multi ==> i == 0) && (i == 0 ==> calls == [])
      invariant AllSucceed(answers, |calls|) && CallsFrom(dp, 0, answers, []) == CallsFrom(dp, i, answers, calls)
      decreases |dp| - i
    {
      var base := i;
      i := SkipString(dp, i, if i <= |dp| - 2 then |dp| - 2 else |dp| - 1);
      if i == base + 1 {
        break;
      }
      calls := calls + [Str(dp[base..i - 1])];
      success := answers(|calls| - 1);
      SucceedOne(answers, |calls| - 1);
      if !(success && multi) {
        break;
      }
    }
  }

  /** `while (dp[i++] != L'\0')`: the index after the first NUL from `base` on. */
  method SkipString(dp: seq<Wide>, base: nat, ghost stop: nat) returns (i: nat)
    requires base <= stop < |dp| && dp[stop] == 0
    ensures base < i <= stop + 1 && i == End(dp, base) + 1
    ensures dp[i - 1] == 0 && forall k :: base <= k < i - 1 ==> dp[k] != 0
  {
    i := base;
    while dp[i] != 0
      invariant base <= i <= stop
      invariant forall k :: base <= k < i ==> dp[k] != 0
      decreases |dp| - i
    {
      i := i + 1;
    }
    EndIs(dp, base, i);
    i := i + 1;
  }

  // ---- The round trip

  function Low(x: Wide): Byte {
    x % 256
  }

  function High(x: Wide): Byte {
    x / 256
  }

  function Narrow(w: seq<Wide>): seq<Byte> {
    if w == [] then [] else [Low(w[0]), High(w[0])] + Narrow(w[1..])
  }

  lemma PairOfParts(x: Wide)
    ensures Pair(Low(x), High(x)) == x
  {
  }

  lemma {:induction false} WidenNarrow(w: seq<Wide>, b: seq<Byte>)
    ensures Widen(Narrow(w) + b) == w + Widen(b)
  {
    if w == [] {
      assert Narrow(w) + b == b;
    } else {
      var low, high, narrow, rest := Low(w[0]), High(w[0]), Narrow(w[1..]), Narrow(w[1..]) + b;
      calc {
        Widen(Narrow(w) + b);
        { Regroup([low, high], narrow, b); }
        Widen([low, high] + rest);
        { WidenTwo(low, high, rest); PairOfParts(w[0]); }
        [w[0]] + Widen(rest);
        { WidenNarrow(w[1..], b); }
        [w[0]] + (w[1..] + Widen(b));
        { Regroup([w[0]], w[1..], Widen(b)); assert [w[0]] + w[1..] == w; }
        w + Widen(b);
      }
    }
  }

  lemma Regroup<T>(a: seq<T>, b: seq<T>, c: seq<T>)
    ensures a + b + c == a + (b + c)
  {
  }

  lemma WidenTwo(low: Byte, high: Byte, rest: seq<Byte>)
    ensures Widen([low, high] + rest) == [Pair(low, high)] + Widen(rest)
  {
    assert ([low, high] + rest)[2..] == rest;
  }

  lemma AllCalled(w: seq<Wide>, answers: nat -> bool)
    requires forall k: nat :: answers(k)
    ensures var calls := CallsFrom(w, 0, answers, []);
            |calls| == |Split(w)| && forall k :: 0 <= k < |calls| ==> calls[k] == Str(Split(w)[k])
  {
    CallsAreSplit(w, 0, answers, []);
  }

  /** A list stored as REG_MULTI_SZ and read into a padded buffer comes back string by string through the query routine,
      exactly when it holds no empty string and no NUL. */
  lemma RoundTripExactlyWhen(strings: seq<seq<Wide>>, answers: nat -> bool)
    requires forall k: nat :: answers(k)
    ensures var calls := CallsFrom(Widen(Narrow(Encode(strings)) + [0, 0, 0, 0, 0, 0]), 0, answers, []);
            AllPlain(strings) <==>
            (|calls| == |strings| && forall k :: 0 <= k < |calls| ==> calls[k] == Str(strings[k]))
  {
    var pad: seq<Byte> := [0, 0, 0, 0, 0, 0];
    WidenNarrow(Encode(strings), pad);
    SplitEncodedExactly(strings, Widen(pad));
    var w := Encode(strings) + Widen(pad);
    AllCalled(w, answers);
    var calls := CallsFrom(w, 0, answers, []);
    if |calls| == |strings| && forall k :: 0 <= k < |calls| ==> calls[k] == Str(strings[k]) {
      forall k | 0 <= k < |strings| ensures strings[k] == Split(w)[k] {
        assert Str(strings[k]) == calls[k] == Str(Split(w)[k]);
      }
      assert Split(w) == strings;
    }
  }

  // ---- Measuring a default value

  /** A string that ends at `n` follows a NUL: the list ends here. */
  predicate EndsAt(dp: seq<Wide>, n: nat) {
    2 <= n <= |dp| && dp[n - 1] == 0 && dp[n - 2] == 0
  }

  /** DdkGetDefaultValue without a given length, in characters.  `dp` is the memory that can be read from the default
      data on; `stop` is somewhere the loop has to end at the latest. */
  method GetDefaultLength(regType: RegType, dp: seq<Wide>, ghost stop: nat) returns (i: nat)
    requires if regType.MultiSz? then EndsAt(dp, stop + 1) else stop < |dp| && dp[stop] == 0
    ensures if regType.MultiSz? then EndsAt(dp, i) && forall n :: EndsAt(dp, n) ==> i <= n
            else i == End(dp, 0) + 1 <= |dp|
  {
    i := SkipString(dp, 0, stop);
    while regType.MultiSz? && (i < 2 || dp[i - 1] != 0 || dp[i - 2] != 0)
      invariant regType.MultiSz? ==> 0 < i <= stop + 1 && dp[i - 1] == 0 && forall n :: EndsAt(dp, n) ==> i <= n
      invariant !regType.MultiSz? ==> i == End(dp, 0) + 1 <= |dp|
      decreases |dp| - i
    {
      assert !EndsAt(dp, i);
      i := SkipString(dp, i, stop);
    }
  }

  /** Measuring an encoded list of plain strings gives its length exactly when the list is not empty, whatever follows
      it in memory: an empty list is read beyond its end. */
  lemma MeasuredExactlyWhen(strings: seq<seq<Wide>>, rest: seq<Wide>, n: nat)
    requires AllPlain(strings)
    requires EndsAt(Encode(strings) + rest, n) && forall m :: EndsAt(Encode(strings) + rest, m) ==> n <= m
    ensures n == |Encode(strings)| <==> strings != []
  {
    if strings != [] {
      EndsFirst(Encode(strings) + rest, 0, strings, n);
    }
  }

  /** An encoded list ends at its own end and nowhere before. */
  lemma {:induction false} EndsFirst(w: seq<Wide>, i: nat, strings: seq<seq<Wide>>, n: nat)
    requires strings != [] && AllPlain(strings) && At(w, i, Encode(strings))
    ensures EndsAt(w, i + |Encode(strings)|)
    ensures EndsAt(w, n) && n > i ==> n >= i + |Encode(strings)|
    decreases |strings|
  {
    var s, tail := strings[0], Encode(strings[1..]);
    var next := i + |s| + 1;
    assert 0 !in s;
    AtParts(w, i, s, tail);
    assert w[next - 1] == 0 && w[next - 2] != 0;
    if strings[1..] == [] {
      assert w[next + 0] == tail[0] == 0;
    } else {
      EndsFirst(w, next, strings[1..], n);
    }
  }
}
