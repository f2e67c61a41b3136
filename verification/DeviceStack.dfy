/** Device stacks: attaching, detaching, the walks up and down, and how far an IRP can be forwarded.

    The links of all devices are one map, so that what a call does to them is a function of it.
 */
module DeviceStack {
  import opened Common
  import opened IrpCounter
  import I = IrpStack

  class Device {
    var attachedTo: Device?
    var attachedDevice: Device?
    var stackSize: int
    var references: int

    /** What IoCreateDevice sets up of a stack. */
    constructor ()
      ensures attachedTo == null && attachedDevice == null && stackSize == 1 && references == 1
    {
      attachedTo, attachedDevice, stackSize, references := null, null, 1, 1;
    }
  }

  // ---- The links of a set of devices, as a value

  datatype Links = Links(attachedTo: Device?, attachedDevice: Device?, stackSize: int)

  type Shape = map<Device, Links>

  ghost function ShapeOf(S: set<Device>): (h: Shape)
    ensures h.Keys == S
    reads S
  {
    map d | d in S :: Links(d.attachedTo, d.attachedDevice, d.stackSize)
  }

  /** The two links are inverse to each other and the stack size strictly increases along them. */
  ghost predicate LinkedAt(h: Shape, d: Device)
    requires d in h
  {
    var l := h[d];
    && 1 <= l.stackSize <= 127
    && (l.attachedTo != null ==> l.attachedTo in h && h[l.attachedTo].attachedDevice == d)
    && (l.attachedDevice != null ==> l.attachedDevice in h && h[l.attachedDevice].attachedTo == d
                                     && l.stackSize < h[l.attachedDevice].stackSize)
  }

  ghost predicate Linked(h: Shape) {
    forall d :: d in h ==> LinkedAt(h, d)
  }

  ghost function Last(p: seq<Device>): Device
    requires p != []
  {
    p[|p| - 1]
  }

  /** The devices of `p` are attached each to the one before it, and none to the last. */
  ghost predicate UpPath(h: Shape, p: seq<Device>) {
    && p != [] && (forall i :: 0 <= i < |p| ==> p[i] in h)
    && (forall i :: 0 <= i < |p| - 1 ==> h[p[i]].attachedDevice == p[i + 1])
    && h[Last(p)].attachedDevice == null
  }

  ghost predicate DownPath(h: Shape, p: seq<Device>) {
    && p != [] && (forall i :: 0 <= i < |p| ==> p[i] in h)
    && (forall i :: 0 <= i < |p| - 1 ==> h[p[i]].attachedTo == p[i + 1])
    && h[Last(p)].attachedTo == null
  }

  /** `d` and the devices attached above it, in order. */
  ghost function Up(h: Shape, d: Device): (p: seq<Device>)
    requires Linked(h) && d in h
    ensures UpPath(h, p) && p[0] == d
    decreases 127 - h[d].stackSize
  {
    assert LinkedAt(h, d);
    if h[d].attachedDevice == null then [d]
    else
      assert LinkedAt(h, h[d].attachedDevice);
      [d] + Up(h, h[d].attachedDevice)
  }

  /** `d` and the devices it is attached to, in order. */
  ghost function Down(h: Shape, d: Device): (p: seq<Device>)
    requires Linked(h) && d in h
    ensures DownPath(h, p) && p[0] == d && |p| <= h[d].stackSize
    decreases h[d].stackSize
  {
    assert LinkedAt(h, d);
    if h[d].attachedTo == null then [d]
    else
      assert LinkedAt(h, h[d].attachedTo);
      [d] + Down(h, h[d].attachedTo)
  }

  lemma {:induction false} UpIs(h: Shape, p: seq<Device>)
    requires Linked(h) && UpPath(h, p)
    ensures Up(h, p[0]) == p
  {
    if |p| > 1 {
      UpIs(h, p[1..]);
    }
  }

  lemma {:induction false} DownIs(h: Shape, p: seq<Device>)
    requires Linked(h) && DownPath(h, p)
    ensures Down(h, p[0]) == p
  {
    if |p| > 1 {
      DownIs(h, p[1..]);
    }
  }

  ghost function Reverse(p: seq<Device>): (r: seq<Device>)
    ensures |r| == |p| && forall i :: 0 <= i < |r| ==> r[i] == p[|p| - 1 - i]
  {
    seq(|p|, i requires 0 <= i < |p| => p[|p| - 1 - i])
  }

  /** Walking up from the base of a stack visits the devices that walking down from its top visits, in reverse. */
  lemma WalksAreInverse(h: Shape, d: Device)
    requires Linked(h) && d in h
    ensures h[d].attachedTo == null ==> Down(h, Last(Up(h, d))) == Reverse(Up(h, d))
    ensures h[d].attachedDevice == null ==> Up(h, Last(Down(h, d))) == Reverse(Down(h, d))
  {
    if h[d].attachedTo == null {
      var up := Up(h, d);
      var r := Reverse(up);
      forall i | 0 <= i < |r| - 1 ensures h[r[i]].attachedTo == r[i + 1] {
        assert LinkedAt(h, up[|up| - 2 - i]);
        assert h[up[|up| - 2 - i]].attachedDevice == up[|up| - 2 - i + 1];
      }
      DownIs(h, r);
    }
    if h[d].attachedDevice == null {
      var down := Down(h, d);
      var r := Reverse(down);
      forall i | 0 <= i < |r| - 1 ensures h[r[i]].attachedDevice == r[i + 1] {
        assert LinkedAt(h, down[|down| - 2 - i]);
        assert h[down[|down| - 2 - i]].attachedTo == down[|down| - 2 - i + 1];
      }
      UpIs(h, r);
    }
  }

  lemma {:induction false} Rising(h: Shape, p: seq<Device>, i: nat, j: nat)
    requires Linked(h) && UpPath(h, p) && i <= j < |p|
    ensures h[p[i]].stackSize <= h[p[j]].stackSize && (i < j ==> h[p[i]].stackSize < h[p[j]].stackSize)
    decreases j
  {
    if i < j {
      assert LinkedAt(h, p[j - 1]) && h[p[j - 1]].attachedDevice == p[j - 1 + 1];
      Rising(h, p, i, j - 1);
    }
  }

  lemma {:induction false} Falling(h: Shape, p: seq<Device>, j: nat)
    requires Linked(h) && DownPath(h, p) && j < |p|
    ensures h[p[j]].stackSize <= h[p[0]].stackSize
  {
    if j > 0 {
      assert LinkedAt(h, p[j]) && h[p[j - 1]].attachedTo == p[j - 1 + 1];
      Falling(h, p, j - 1);
    }
  }

  // ---- Attaching and detaching, on the value

  /** Attaching and detaching on the fields: the two links and the size of the source, and nothing else. */
  lemma OnlyLinksChange(h: Shape, source: Device, top: Device)
    requires source in h && top in h && 1 <= h[top].stackSize <= 127
    ensures var h' := Attached(h, source, top);
            && h'.Keys == h.Keys && h'[source].attachedTo == top && h'[top].attachedDevice == source
            && h'[source].stackSize == (if h[top].stackSize == 127 then -128 else h[top].stackSize + 1)
            && (forall d :: d in h && d != source ==>
                  h'[d].attachedTo == h[d].attachedTo && h'[d].stackSize == h[d].stackSize)
            && (forall d :: d in h && d != top ==> h'[d].attachedDevice == h[d].attachedDevice)
    ensures var h' := Detached(h, top, source);
            && h'.Keys == h.Keys && h'[source].attachedTo == null && h'[top].attachedDevice == null
            && (forall d :: d in h ==> h'[d].stackSize == h[d].stackSize)
            && (forall d :: d in h && d != source ==> h'[d].attachedTo == h[d].attachedTo)
            && (forall d :: d in h && d != top ==> h'[d].attachedDevice == h[d].attachedDevice)
  {
  }

  /** The source is not the device it would be put on, fits below what is attached to it already, and its stack
      size does not wrap. */
  ghost predicate Fits(h: Shape, source: Device, top: Device)
    requires Linked(h) && source in h && top in h
  {
    assert LinkedAt(h, source);
    && source != top && h[top].stackSize < 127
    && (h[source].attachedDevice != null ==> h[top].stackSize + 1 < h[h[source].attachedDevice].stackSize)
  }

  /** What attaching writes. */
  ghost function Attached(h: Shape, source: Device, top: Device): Shape
    requires source in h && top in h
  {
    var h' := h[source := h[source].(stackSize := Char(h[top].stackSize + 1), attachedTo := top)];
    h'[top := h'[top].(attachedDevice := source)]
  }

  /** Attaching an unattached device keeps the invariant exactly when it fits, and then it puts the source,
      with all that is attached to it, on top of the target's stack. */
  lemma AttachingKeepsExactlyWhen(h: Shape, source: Device, target: Device)
    requires Linked(h) && source in h && target in h && h[source].attachedTo == null
    ensures var h' := Attached(h, source, Last(Up(h, target)));
            && (Linked(h') <==> Fits(h, source, Last(Up(h, target))))
            && (Linked(h') ==> Up(h', target) == Up(h, target) + Up(h, source))
  {
    var top := Last(Up(h, target));
    LinkedWhenFitting(h, source, top);
    if Fits(h, source, top) {
      StacksJoin(h, source, target);
    }
  }

  lemma LinkedWhenFitting(h: Shape, source: Device, top: Device)
    requires Linked(h) && source in h && top in h && h[source].attachedTo == null && h[top].attachedDevice == null
    ensures Linked(Attached(h, source, top)) <==> Fits(h, source, top)
  {
    var h' := Attached(h, source, top);
    assert LinkedAt(h, source) && LinkedAt(h, top);
    if Linked(h') {
      assert LinkedAt(h', source) && LinkedAt(h', top);
    }
    if Fits(h, source, top) {
      forall d | d in h' ensures LinkedAt(h', d) {
        assert LinkedAt(h, d);
      }
    }
  }

  lemma StacksJoin(h: Shape, source: Device, target: Device)
    requires Linked(h) && source in h && target in h && h[source].attachedTo == null
    requires var top := Last(Up(h, target)); Fits(h, source, top) && Linked(Attached(h, source, top))
    ensures Up(Attached(h, source, Last(Up(h, target))), target) == Up(h, target) + Up(h, source)
  {
    var below, above := Up(h, target), Up(h, source);
    forall k | 0 <= k < |above| ensures above[k] != Last(below) {
      if k > 0 {
        Rising(h, above, 1, k);
      }
    }
    PathsJoin(h, below, above);
    UpIs(Attached(h, source, Last(below)), below + above);
  }

  lemma PathsJoin(h: Shape, below: seq<Device>, above: seq<Device>)
    requires UpPath(h, below) && UpPath(h, above) && Last(below) !in above
    ensures UpPath(Attached(h, above[0], Last(below)), below + above)
  {
    var h', p := Attached(h, above[0], Last(below)), below + above;
    forall i | 0 <= i < |p| - 1 ensures h'[p[i]].attachedDevice == p[i + 1] {
      assert i < |below| - 1 ==> h[below[i]].attachedDevice == below[i + 1];
    }
  }

  /** What detaching writes. */
  ghost function Detached(h: Shape, target: Device, above: Device): Shape
    requires target in h && above in h
  {
    var h' := h[above := h[above].(attachedTo := null)];
    h'[target := h'[target].(attachedDevice := null)]
  }

  /** Detaching keeps the invariant and cuts the stack in two. */
  lemma DetachingCuts(h: Shape, target: Device, above: Device)
    requires Linked(h) && target in h && above in h && h[target].attachedDevice == above
    ensures var h' := Detached(h, target, above);
            && Linked(h')
            && Up(h', target) == [target] && Up(h', above) == Up(h, target)[1..]
            && Down(h', above) == [above] && Down(h', target) == Down(h, target)
  {
    var h', up, down := Detached(h, target, above), Up(h, target), Down(h, target);
    assert LinkedAt(h, target) && LinkedAt(h, above);
    forall d | d in h' ensures LinkedAt(h', d) {
      assert LinkedAt(h, d);
    }
    forall k | 0 < k < |up| ensures up[k] != target {
      Rising(h, up, 0, k);
    }
    forall k | 0 <= k < |down| ensures down[k] != above {
      Falling(h, down, k);
    }
    UpIs(h', [target]);
    DownIs(h', [above]);
    UpIs(h', up[1..]);
    DownIs(h', down);
  }

  // ---- The calls

  /** IoGetAttachedDevice */
  method GetAttachedDevice(S: set<Device>, device: Device) returns (r: Device)
    requires Linked(ShapeOf(S)) && device in S
    ensures r in S && r.attachedDevice == null && r == Last(Up(ShapeOf(S), device))
  {
    ghost var h := ShapeOf(S);
    r := device;
    while r.attachedDevice != null
      invariant r in S && Last(Up(h, r)) == Last(Up(h, device))
      decreases 127 - r.stackSize
    {
      assert LinkedAt(h, r) && LinkedAt(h, h[r].attachedDevice);
      r := r.attachedDevice;
    }
  }

  /** IoGetAttachedDeviceReference */
  method GetAttachedDeviceReference(S: set<Device>, device: Device) returns (r: Device)
    requires Linked(ShapeOf(S)) && device in S
    modifies S`references
    ensures ShapeOf(S) == old(ShapeOf(S)) && r == Last(Up(ShapeOf(S), device))
    ensures forall d :: d in S ==> d.references == old(d.references) + if d == r then 1 else 0
  {
    r := GetAttachedDevice(S, device);
    r.references := r.references + 1;
  }

  /** IoGetLowerDeviceObject */
  method GetLowerDeviceObject(S: set<Device>, device: Device) returns (r: Device?)
    requires Linked(ShapeOf(S)) && device in S
    modifies S`references
    ensures ShapeOf(S) == old(ShapeOf(S))
    ensures r == device.attachedTo && (r != null ==> r in S && r.attachedDevice == device)
    ensures forall d :: d in S ==> d.references == old(d.references) + if d == r then 1 else 0
  {
    assert LinkedAt(ShapeOf(S), device);
    r := device.attachedTo;
    if r != null {
      r.references := r.references + 1;
    }
  }

  /** IoGetDeviceAttachmentBaseRef */
  method GetDeviceAttachmentBaseRef(S: set<Device>, device: Device) returns (r: Device)
    requires Linked(ShapeOf(S)) && device in S
    modifies S`references
    ensures ShapeOf(S) == old(ShapeOf(S)) && r == Last(Down(ShapeOf(S), device)) && r.attachedTo == null
    ensures forall d :: d in S ==> d.references == old(d.references) + if d == r then 1 else 0
  {
    ghost var h := ShapeOf(S);
    r := device;
    while r.attachedTo != null
      invariant r in S && Last(Down(h, r)) == Last(Down(h, device))
      decreases r.stackSize
    {
      assert LinkedAt(h, r) && LinkedAt(h, h[r].attachedTo);
      r := r.attachedTo;
    }
    r.references := r.references + 1;
  }

  /** IoAttachDeviceToDeviceStackSafe of a device that is attached to nothing. */
  method AttachDeviceToDeviceStackSafe(S: set<Device>, source: Device, target: Device) returns (attachedTo: Device)
    requires Linked(ShapeOf(S)) && source in S && target in S && source.attachedTo == null
    modifies S`stackSize, S`attachedTo, S`attachedDevice
    ensures attachedTo == Last(old(Up(ShapeOf(S), target)))
    ensures ShapeOf(S) == Attached(old(ShapeOf(S)), source, attachedTo)
    ensures attachedTo in S && source.attachedTo == attachedTo && attachedTo.attachedDevice == source
  {
    attachedTo := GetAttachedDevice(S, target);
    source.stackSize := Char(attachedTo.stackSize + 1);
    source.attachedTo := attachedTo;
    attachedTo.attachedDevice := source;
  }

  /** IoDetachDevice: what is attached to the target comes off. */
  method DetachDevice(S: set<Device>, target: Device)
    requires Linked(ShapeOf(S)) && target in S && target.attachedDevice != null
    modifies S`attachedTo, S`attachedDevice
    ensures old(target.attachedDevice) in S
    ensures ShapeOf(S) == Detached(old(ShapeOf(S)), target, old(target.attachedDevice))
    ensures Linked(ShapeOf(S)) && Up(ShapeOf(S), target) == [target]
  {
    ghost var h := ShapeOf(S);
    assert LinkedAt(h, target);
    target.attachedDevice.attachedTo := null;
    target.attachedDevice := null;
    DetachingCuts(h, target, h[target].attachedDevice);
  }

  // ---- Runs

  datatype Change = Attach(source: Device, target: Device) | Detach(target: Device)

  /** A step of a run: attaching an unattached device that fits, or detaching what is attached. */
  ghost predicate CanChange(h: Shape, c: Change)
    requires Linked(h)
  {
    && c.target in h
    && match c
       case Attach(source, target) =>
         source in h && h[source].attachedTo == null && Fits(h, source, Last(Up(h, target)))
       case Detach(target) => h[target].attachedDevice != null
  }

  ghost function Changed(h: Shape, c: Change): Shape
    requires Linked(h) && CanChange(h, c)
  {
    match c
    case Attach(source, target) => Attached(h, source, Last(Up(h, target)))
    case Detach(target) => assert LinkedAt(h, target); Detached(h, target, h[target].attachedDevice)
  }

  lemma ChangingKeeps(h: Shape, c: Change)
    requires Linked(h) && CanChange(h, c)
    ensures Linked(Changed(h, c)) && Changed(h, c).Keys == h.Keys
  {
    match c
    case Attach(source, target) => AttachingKeepsExactlyWhen(h, source, target);
    case Detach(target) =>
      assert LinkedAt(h, target);
      DetachingCuts(h, target, h[target].attachedDevice);
  }

  ghost predicate CanRun(h: Shape, run: seq<Change>)
    requires Linked(h)
    decreases |run|
  {
    run == [] || (CanChange(h, run[0]) && (ChangingKeeps(h, run[0]); CanRun(Changed(h, run[0]), run[1..])))
  }

  ghost function After(h: Shape, run: seq<Change>): Shape
    requires Linked(h) && CanRun(h, run)
    decreases |run|
  {
    if run == [] then h else ChangingKeeps(h, run[0]); After(Changed(h, run[0]), run[1..])
  }

  /** Devices as IoCreateDevice makes them. */
  ghost predicate Created(h: Shape) {
    forall e :: e in h ==> h[e] == Links(null, null, 1)
  }

  lemma CreatedIsLinked(h: Shape)
    requires Created(h)
    ensures Linked(h)
  {
    forall e | e in h ensures LinkedAt(h, e) {
    }
  }

  /** Whatever run of attaching and detaching put the stacks together from devices just created, a request
      allocated for a device with its StackSize and forwarded to the device below by each driver passes the test of
      IofCallDriver at every device exactly when the StackSize is at most 126; then every call has a location
      left, and the counter is that of the location it stands for. */
  lemma ForwardingSucceedsExactlyWhen(h: Shape, run: seq<Change>, d: Device, ops: seq<I.Op>)
    requires Created(h) && d in h
    requires (CreatedIsLinked(h); CanRun(h, run))
    requires forall k :: 0 <= k < |ops| ==> ops[k].OpCall?
    ensures Linked(h) && Linked(After(h, run)) && d in After(h, run)
    ensures var h' := After(h, run);
            var size := h'[d].stackSize;
            && (CallsPass(size, |Down(h', d)|) <==> size <= 126)
            && (size <= 126 && |ops| <= |Down(h', d)| ==>
                  && I.LegalRun(I.Initialize(size), ops)
                  && I.Run(I.Initialize(size), ops).0.current == CallCounter(size, |ops|) >= 1)
  {
    CreatedIsLinked(h);
    RunKeeps(h, run);
    var h' := After(h, run);
    var size := h'[d].stackSize;
    assert LinkedAt(h', d);
    CallsPassExactlyWhen(size, |Down(h', d)|);
    if size <= 126 && |ops| <= |Down(h', d)| {
      CallsAreLegal(I.Initialize(size), ops);
      CallsCount(size, |ops|);
    }
  }

  // ---- The stack of 127 devices

  ghost predicate Different(devices: seq<Device>) {
    forall i, j :: 0 <= i < j < |devices| ==> devices[i] != devices[j]
  }

  /** The n-th device is the top of a stack of `n + 1`, those after it are as created. */
  ghost predicate Standing(h: Shape, devices: seq<Device>, n: nat) {
    && Linked(h) && n < |devices| && Different(devices)
    && (forall i :: 0 <= i < |devices| ==> devices[i] in h)
    && h[devices[n]].attachedDevice == null && h[devices[n]].stackSize == n + 1
    && (forall i :: n < i < |devices| ==> h[devices[i]] == Links(null, null, 1))
  }

  /** Each device onto the one before it, from the n-th on. */
  ghost function Stacking(devices: seq<Device>, n: nat): seq<Change>
    decreases |devices| - n
  {
    if n + 1 >= |devices| then [] else [Attach(devices[n + 1], devices[n])] + Stacking(devices, n + 1)
  }

  /** The next device fits and goes on top. */
  lemma StackGrows(h: Shape, devices: seq<Device>, n: nat)
    requires Standing(h, devices, n) && n + 1 < |devices| <= 127
    ensures var c := Attach(devices[n + 1], devices[n]);
            CanChange(h, c) && Standing(Changed(h, c), devices, n + 1)
  {
    var source, top := devices[n + 1], devices[n];
    UpIs(h, [top]);
    assert Fits(h, source, top);
    AttachingKeepsExactlyWhen(h, source, top);
    assert Char(n + 1 + 1) == n + 2;
    forall i | n + 1 < i < |devices| ensures Attached(h, source, top)[devices[i]] == Links(null, null, 1) {
      assert devices[i] != source && devices[i] != top;
    }
  }

  lemma {:induction false} StackIsBuilt(h: Shape, devices: seq<Device>, n: nat)
    requires Standing(h, devices, n) && |devices| <= 127
    ensures CanRun(h, Stacking(devices, n))
    ensures Standing(After(h, Stacking(devices, n)), devices, |devices| - 1)
    decreases |devices| - n
  {
    if n + 1 < |devices| {
      var c := Attach(devices[n + 1], devices[n]);
      StackGrows(h, devices, n);
      StackIsBuilt(Changed(h, c), devices, n + 1);
      RunFromChange(h, c, Stacking(devices, n + 1));
    }
  }

  lemma RunFromChange(h: Shape, c: Change, run: seq<Change>)
    requires Linked(h) && CanChange(h, c) && Linked(Changed(h, c)) && CanRun(Changed(h, c), run)
    ensures CanRun(h, [c] + run) && After(h, [c] + run) == After(Changed(h, c), run)
  {
    assert ([c] + run)[1..] == run;
  }

  /** 127 devices just created and attached one on the other keep every invariant, but a request for the topmost
      fails the test of the very first call. */
  lemma TallestStackCannotForward(h: Shape, devices: seq<Device>)
    requires Created(h) && |devices| == 127 && Different(devices) && forall i :: 0 <= i < 127 ==> devices[i] in h
    ensures Linked(h) && CanRun(h, Stacking(devices, 0))
    ensures var h' := After(h, Stacking(devices, 0));
            Linked(h') && devices[126] in h' && h'[devices[126]].stackSize == 127
    ensures CallCounter(127, 0) == -128 && !CallPasses(127, 0)
  {
    CreatedIsLinked(h);
    StackIsBuilt(h, devices, 0);
    CallsPassExactlyWhen(127, 1);
  }

  lemma {:induction false} RunKeeps(h: Shape, run: seq<Change>)
    requires Linked(h) && CanRun(h, run)
    ensures Linked(After(h, run)) && After(h, run).Keys == h.Keys
    decreases |run|
  {
    if run != [] {
      ChangingKeeps(h, run[0]);
      RunKeeps(Changed(h, run[0]), run[1..]);
    }
  }

  lemma {:induction false} CallsAreLegal(s: I.Irp, ops: seq<I.Op>)
    requires I.WellFormed(s) && s.current <= s.stackCount + 1
    requires |ops| < s.current && forall k :: 0 <= k < |ops| ==> ops[k].OpCall?
    ensures I.LegalRun(s, ops) && I.Run(s, ops).0.current == s.current - |ops|
    decreases |ops|
  {
    if ops != [] {
      CallsAreLegal(I.Perform(s, ops[0]).irp, ops[1..]);
    }
  }
}
