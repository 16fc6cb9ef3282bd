/** Maps the joints of a control board to the axes of its raw devices, for commands to one
    joint, to all joints or to any list of joints. */
module DeviceMapper {

  import opened FutureTask
  import opened Wrappers

  /** A raw device: the interfaces it implements, and how many axes it says it controls, if it
      has an interface to ask and if it answers. */
  datatype RawDevice = RawDevice(interfaces: set<nat>, answer: Answer)

  datatype Answer = NoInterface | Failure | Axes(axes: nat)

  function AxesOf(d: RawDevice): nat { if d.answer.Axes? then d.answer.axes else 0 }

  // ---------------------------------------------------------------- the simple mapping

  function Total(devices: seq<RawDevice>): nat {
    if devices == [] then 0 else Total(devices[..|devices| - 1]) + AxesOf(devices[|devices| - 1])
  }

  /** The global index at which a device starts: that of all axes before it. */
  function Offset(devices: seq<RawDevice>, k: nat): nat
    requires k <= |devices|
  {
    Total(devices[..k])
  }

  /** The device and axis of a joint. */
  function Locate(devices: seq<RawDevice>, joint: nat): Axis
    requires joint < Total(devices)
  {
    var n := |devices| - 1;
    if joint < Total(devices[..n]) then Locate(devices[..n], joint)
    else Axis(n, joint - Total(devices[..n]))
  }

  predicate IsAxis(devices: seq<RawDevice>, a: Axis) {
    a.device < |devices| && a.local < AxesOf(devices[a.device])
  }

  function Joint(devices: seq<RawDevice>, a: Axis): nat
    requires IsAxis(devices, a)
  {
    Offset(devices, a.device) + a.local
  }

  /** The slices of the devices tile the joints: each joint is one axis of one device. */
  lemma {:induction false} SlicesTile(devices: seq<RawDevice>, joint: nat)
    requires joint < Total(devices)
    ensures IsAxis(devices, Locate(devices, joint)) && Joint(devices, Locate(devices, joint)) == joint
  {
    var n := |devices| - 1;
    if joint < Total(devices[..n]) {
      SlicesTile(devices[..n], joint);
      assert devices[..n][..Locate(devices, joint).device] == devices[..Locate(devices, joint).device];
    }
  }

  /** ... and each axis is one joint. */
  lemma {:induction false} AxesAreJoints(devices: seq<RawDevice>, a: Axis)
    requires IsAxis(devices, a)
    ensures Joint(devices, a) < Total(devices) && Locate(devices, Joint(devices, a)) == a
  {
    var n := |devices| - 1;
    if a.device < n {
      assert devices[..n][..a.device] == devices[..a.device];
      AxesAreJoints(devices[..n], a);
    }
  }

  lemma {:induction false} OffsetsGrow(devices: seq<RawDevice>, j: nat, k: nat)
    requires j <= k <= |devices|
    ensures Offset(devices, j) <= Offset(devices, k)
  {
    if j < k {
      OffsetsGrow(devices, j, k - 1);
      assert devices[..k][..k - 1] == devices[..k - 1];
    }
  }

  /** Registering a device leaves the joints of the others where they were. */
  lemma LocateStays(devices: seq<RawDevice>, d: RawDevice, joint: nat)
    ensures Total(devices + [d]) == Total(devices) + AxesOf(d)
    ensures joint < Total(devices) ==> Locate(devices + [d], joint) == Locate(devices, joint)
    ensures Total(devices) <= joint < Total(devices + [d]) ==>
              Locate(devices + [d], joint) == Axis(|devices|, joint - Total(devices))
  {
    assert (devices + [d])[..|devices|] == devices;
  }

  // ---------------------------------------------------------------- groups

  /** Some axes of a device, and where their values start in the list of values. */
  datatype Group = Group(device: nat, locals: seq<nat>, offset: nat)

  /** The axis that a group addresses at a position, and the index of the value for it. */
  datatype Delivery = Delivery(axis: Axis, index: nat)

  function Deliveries(g: Group): seq<Delivery> {
    seq(|g.locals|, p requires 0 <= p < |g.locals| => Delivery(Axis(g.device, g.locals[p]), g.offset + p))
  }

  function AllDeliveries(groups: seq<Group>): seq<Delivery>
    decreases |groups|
  {
    if groups == [] then [] else AllDeliveries(groups[..|groups| - 1]) + Deliveries(groups[|groups| - 1])
  }

  predicate AreJoints(devices: seq<RawDevice>, joints: seq<nat>) {
    forall i | 0 <= i < |joints| :: joints[i] < Total(devices)
  }

  /** What the simple mapping delivers: to the axis of each listed joint, its value. */
  function Wanted(devices: seq<RawDevice>, joints: seq<nat>): seq<Delivery>
    requires AreJoints(devices, joints)
  {
    seq(|joints|, i requires 0 <= i < |joints| => Delivery(Locate(devices, joints[i]), i))
  }

  /** No more groups than needed: neighbours are of different devices. */
  predicate Coarse(groups: seq<Group>) {
    && (forall k | 0 <= k < |groups| :: groups[k].locals != [])
    && (forall k | 0 < k < |groups| :: groups[k].device != groups[k - 1].device)
  }

  lemma NewGroup(groups: seq<Group>, device: nat, local: nat, i: nat)
    ensures AllDeliveries(groups + [Group(device, [local], i)]) ==
            AllDeliveries(groups) + [Delivery(Axis(device, local), i)]
  {
    assert (groups + [Group(device, [local], i)])[..|groups|] == groups;
    assert Deliveries(Group(device, [local], i)) == [Delivery(Axis(device, local), i)];
  }

  function Extended(groups: seq<Group>, local: nat): seq<Group>
    requires groups != []
  {
    var n := |groups| - 1;
    groups[..n] + [groups[n].(locals := groups[n].locals + [local])]
  }

  lemma LongerGroup(groups: seq<Group>, local: nat)
    requires groups != []
    ensures var g := groups[|groups| - 1];
            AllDeliveries(Extended(groups, local)) ==
            AllDeliveries(groups) + [Delivery(Axis(g.device, local), g.offset + |g.locals|)]
  {
    var n := |groups| - 1;
    var g := groups[n];
    assert Extended(groups, local)[..n] == groups[..n];
    assert Deliveries(g.(locals := g.locals + [local])) ==
           Deliveries(g) + [Delivery(Axis(g.device, local), g.offset + |g.locals|)];
  }

  lemma WantedNext(devices: seq<RawDevice>, joints: seq<nat>, i: nat)
    requires AreJoints(devices, joints) && i < |joints|
    ensures AreJoints(devices, joints[..i]) && AreJoints(devices, joints[..i + 1])
    ensures Wanted(devices, joints[..i + 1]) == Wanted(devices, joints[..i]) + [Delivery(Locate(devices, joints[i]), i)]
  {
    hide Locate, Total;
  }

  // ---------------------------------------------------------------- the mapper

  class DeviceMapper {
    var rawDevicesWithOffsets: seq<(RawDevice, nat)>
    var rawDeviceIndexAtGlobalAxisIndex: seq<nat>
    var totalAxes: nat

    function Devices(): (r: seq<RawDevice>)
      reads this
      ensures |r| == |rawDevicesWithOffsets|
    {
      seq(|rawDevicesWithOffsets|, k requires 0 <= k < |rawDevicesWithOffsets| reads this => rawDevicesWithOffsets[k].0)
    }

    /** The offsets and the index of devices by joint are those of the simple mapping. */
    ghost predicate Valid()
      reads this
    {
      && totalAxes == |rawDeviceIndexAtGlobalAxisIndex| == Total(Devices())
      && (forall k | 0 <= k < |rawDevicesWithOffsets| :: rawDevicesWithOffsets[k].1 == Offset(Devices(), k))
      && (forall j | 0 <= j < totalAxes :: rawDeviceIndexAtGlobalAxisIndex[j] == Locate(Devices(), j).device)
    }

    constructor ()
      ensures Valid() && Devices() == []
    {
      rawDevicesWithOffsets, rawDeviceIndexAtGlobalAxisIndex, totalAxes := [], [], 0;
    }

    /** A device that does not answer is not registered. */
    method RegisterDevice(rd: RawDevice) returns (ok: bool)
      requires Valid()
      modifies this
      ensures Valid()
      ensures ok <==> rd.answer.Axes?
      ensures Devices() == if ok then old(Devices()) + [rd] else old(Devices())
    {
      hide Total, Locate;
      if rd.answer.NoInterface? { return false; }
      if rd.answer.Failure? { return false; }
      var axes := rd.answer.axes;
      ghost var before := Devices();
      var index := |rawDevicesWithOffsets|;
      rawDeviceIndexAtGlobalAxisIndex := rawDeviceIndexAtGlobalAxisIndex + seq(axes, _ => index);
      rawDevicesWithOffsets := rawDevicesWithOffsets + [(rd, totalAxes)];
      totalAxes := totalAxes + axes;
      assert Devices() == before + [rd];
      LocateStays(before, rd, 0);
      forall k | 0 <= k < |rawDevicesWithOffsets| ensures rawDevicesWithOffsets[k].1 == Offset(Devices(), k) {
        assert Devices()[..k] == before[..k];
        assert before[..|before|] == before;
      }
      forall j | 0 <= j < totalAxes ensures rawDeviceIndexAtGlobalAxisIndex[j] == Locate(Devices(), j).device {
        LocateStays(before, rd, j);
      }
      ok := true;
    }

    method Clear()
      modifies this
      ensures Valid() && Devices() == []
    {
      rawDevicesWithOffsets, rawDeviceIndexAtGlobalAxisIndex, totalAxes := [], [], 0;
    }

    /** The index agrees with the simple mapping. */
    method GetDevice(globalAxis: nat) returns (a: Axis)
      requires Valid() && globalAxis < Total(Devices())
      ensures a == Locate(Devices(), globalAxis)
    {
      SlicesTile(Devices(), globalAxis);
      var deviceIndex := rawDeviceIndexAtGlobalAxisIndex[globalAxis];
      a := Axis(deviceIndex, globalAxis - rawDevicesWithOffsets[deviceIndex].1);
    }

    /** In order, the groups deliver what the simple mapping does, to any list of joints. */
    method GetDevices(globalAxes: seq<nat>) returns (groups: seq<Group>)
      requires Valid() && AreJoints(Devices(), globalAxes)
      ensures AllDeliveries(groups) == Wanted(Devices(), globalAxes) && Coarse(groups)
    {
      hide Locate, Total, AllDeliveries, AreJoints;
      groups := [];
      NoGroups(Devices(), globalAxes);
      var previous: Option<nat> := None;
      var i := 0;
      while i < |globalAxes|
        invariant 0 <= i <= |globalAxes| && AreJoints(Devices(), globalAxes[..i])
        invariant AllDeliveries(groups) == Wanted(Devices(), globalAxes[..i]) && Coarse(groups)
        invariant groups == [] <==> previous.None?
        invariant groups != [] ==>
                    var g := groups[|groups| - 1];
                    previous == Some(g.device) && g.offset + |g.locals| == i
      {
        WantedNext(Devices(), globalAxes, i);
        var a := LocalOf(globalAxes, i);
        if previous != Some(a.device) {
          NewGroup(groups, a.device, a.local, i);
          groups := groups + [Group(a.device, [a.local], i)];
          previous := Some(a.device);
        } else {
          LongerGroup(groups, a.local);
          groups := Extended(groups, a.local);
        }
        i := i + 1;
      }
      assert globalAxes[..|globalAxes|] == globalAxes;
    }

    method LocalOf(globalAxes: seq<nat>, i: nat) returns (a: Axis)
      requires Valid() && AreJoints(Devices(), globalAxes) && i < |globalAxes|
      ensures a == Locate(Devices(), globalAxes[i])
    {
      a := GetDevice(globalAxes[i]);
    }

    /** False if the device of the joint lacks the interface `t`. */
    method MapSingleJoint<S, R>(t: nat, cmd: (S, R) -> (S, bool), w: World<S>, joint: nat, ref: R)
      returns (w': World<S>, ok: bool)
      requires Valid() && joint < Total(Devices()) && Complete(Devices(), w)
      ensures Locate(Devices(), joint) in w
      ensures (w', ok) == if Implements(Devices(), t, joint)
                          then Run(cmd, w, [Command(Locate(Devices(), joint), ref)]) else (w, false)
    {
      SlicesTile(Devices(), joint);
      var a := GetDevice(joint);
      if t !in rawDevicesWithOffsets[a.device].0.interfaces { return w, false; }
      var r: (S, bool) := cmd(w[a], ref);
      w', ok := w[a := r.0], r.1;
    }

    /** All devices of the listed joints must implement the interface, else nothing is called.
        Then every value is delivered exactly once, in some order, and true means that all the
        commands succeeded. The effect and the result are those of the simple mapping, one
        joint after another; with the calls dispatched in parallel too, if no joint is given
        different values in two groups. */
    method MapJointGroup<S, R(!new)>(t: nat, cmd: (S, R) -> (S, bool), w: World<S>, joints: seq<nat>, refs: seq<R>,
                               dispatch: Dispatch<R>)
      returns (w': World<S>, ok: bool, ghost order: seq<Command<R>>)
      requires Valid() && AreJoints(Devices(), joints) && |refs| == |joints| && Complete(Devices(), w)
      requires IsFair(dispatch)
      ensures Known(w, OneByOne(Devices(), joints, refs))
      ensures !AllImplement(Devices(), t, joints) ==> (w', ok) == (w, false)
      ensures Known(w, order) && multiset(order) == multiset(OneByOne(Devices(), joints, refs))
      ensures AllImplement(Devices(), t, joints) ==> (w', ok) == Run(cmd, w, order)
      ensures AllImplement(Devices(), t, joints) && (dispatch.Sequentially? || NoConflict(Devices(), joints, refs)) ==>
                (w', ok) == Run(cmd, w, OneByOne(Devices(), joints, refs))
    {
      hide Locate, Total, AllDeliveries, Run, Known, Completes, IsFair, NoConflict, Harmless;
      var groups := GetDevices(joints);
      GroupsCoverJoints(Devices(), joints, groups);
      OneByOneKnown(Devices(), joints, refs, w);
      var task: seq<seq<Command<R>>> := [];
      ok := true;
      var k := 0;
      while k < |groups|
        invariant 0 <= k <= |groups|
        invariant ok <==> forall j | 0 <= j < k :: t in Devices()[groups[j].device].interfaces
        invariant ok ==> task == CallsOf(groups[..k], refs)
      {
        if t in rawDevicesWithOffsets[groups[k].device].0.interfaces {
          task := task + [CallOf(groups[k], refs)];
        } else {
          ok := false;
        }
        k := k + 1;
      }
      ImplementedByGroups(Devices(), t, joints, groups);
      if !ok { return w, false, OneByOne(Devices(), joints, refs); }
      assert groups[..|groups|] == groups;
      CallsAreOneByOne(Devices(), joints, refs, groups, w);
      w', ok, order := DispatchTask(cmd, w, task, dispatch);
      GroupsAreHarmless(Devices(), joints, refs, groups);
    }

    /** Devices without the interface are passed over, but one at least must have it. The
        effect and the result are those of the simple mapping to the joints of the others,
        however the calls are dispatched. */
    method MapAllJoints<S, R(!new)>(t: nat, cmd: (S, R) -> (S, bool), w: World<S>, refs: seq<R>, dispatch: Dispatch<R>)
      returns (w': World<S>, ok: bool)
      requires Valid() && |refs| == Total(Devices()) && Complete(Devices(), w) && IsFair(dispatch)
      ensures Known(w, Implemented(Devices(), t, refs, |refs|))
      ensures (w', ok) == if SomeImplements(Devices(), t) then Run(cmd, w, Implemented(Devices(), t, refs, |refs|))
                          else (w, false)
    {
      hide Total, Offset, Run, Known, Completes, IsFair, Implemented, CallsUpTo, Apart, Harmless;
      ghost var devices := Devices();
      var task: seq<seq<Command<R>>> := [];
      NoDeviceYet(devices, t, refs);
      ok := false;
      var k := 0;
      while k < |rawDevicesWithOffsets|
        invariant 0 <= k <= |rawDevicesWithOffsets| && CallsUpTo(devices, t, refs, k, task)
        invariant ok <==> exists j | 0 <= j < k :: t in devices[j].interfaces
      {
        var (rd, offset) := rawDevicesWithOffsets[k];
        NextDevice(devices, t, refs, k, task);
        if t in rd.interfaces {
          task := task + [CallOf(Group(k, seq(AxesOf(rd), l => l), offset), refs)];
          ok := true;
        }
        k := k + 1;
      }
      AllDevicesSeen(devices, t, refs, task, w);
      ApartIsHarmless(task);
      if !ok { return w, false; }
      ghost var order;
      w', ok, order := DispatchTask(cmd, w, task, dispatch);
    }
  }

  lemma NoGroups(devices: seq<RawDevice>, joints: seq<nat>)
    ensures AreJoints(devices, joints[..0]) && AllDeliveries([]) == Wanted(devices, joints[..0]) && Coarse([])
  {
  }

  // ---------------------------------------------------------------- commands to many joints

  /** All axes of all devices have a state. */
  ghost predicate Complete<S>(devices: seq<RawDevice>, w: World<S>) {
    forall a | IsAxis(devices, a) :: a in w
  }

  /** The simple mapping, joint after joint. */
  function OneByOne<R>(devices: seq<RawDevice>, joints: seq<nat>, refs: seq<R>): seq<Command<R>>
    requires AreJoints(devices, joints) && |refs| == |joints|
  {
    seq(|joints|, i requires 0 <= i < |joints| => Command(Locate(devices, joints[i]), refs[i]))
  }

  predicate AllImplement(devices: seq<RawDevice>, t: nat, joints: seq<nat>)
    requires AreJoints(devices, joints)
  {
    forall i | 0 <= i < |joints| :: Implements(devices, t, joints[i])
  }

  predicate Implements(devices: seq<RawDevice>, t: nat, joint: nat)
    requires joint < Total(devices)
  {
    SlicesTile(devices, joint);
    t in devices[Locate(devices, joint).device].interfaces
  }

  /** Two places of the list fall into one group: all joints in between are of the same
      device. */
  predicate OneGroup(devices: seq<RawDevice>, joints: seq<nat>, i: nat, j: nat)
    requires AreJoints(devices, joints) && i < j < |joints|
  {
    forall m | i < m < j :: Locate(devices, joints[m]).device == Locate(devices, joints[i]).device
  }

  /** A joint that is listed twice is listed for the same group. */
  predicate InOneGroup(devices: seq<RawDevice>, joints: seq<nat>)
    requires AreJoints(devices, joints)
  {
    forall i, j | 0 <= i < j < |joints| && joints[i] == joints[j] :: OneGroup(devices, joints, i, j)
  }

  /** A joint that is given two different values is given them in the same group. */
  ghost predicate NoConflict<R>(devices: seq<RawDevice>, joints: seq<nat>, refs: seq<R>)
    requires AreJoints(devices, joints) && |refs| == |joints|
  {
    forall i, j | 0 <= i < j < |joints| && joints[i] == joints[j] && refs[i] != refs[j] ::
      OneGroup(devices, joints, i, j)
  }

  /** How a task is dispatched; in parallel, the threads take turns as some scheduler says. */
  datatype Dispatch<!R> = Sequentially | InParallel(scheduler: seq<seq<Command<R>>> -> seq<nat>)

  ghost predicate IsFair<R(!new)>(d: Dispatch<R>) {
    d.InParallel? ==> forall calls :: Completes(calls, d.scheduler(calls))
  }

  method DispatchTask<S, R(!new)>(cmd: (S, R) -> (S, bool), w: World<S>, task: seq<seq<Command<R>>>,
                                  dispatch: Dispatch<R>)
    returns (w': World<S>, ok: bool, ghost order: seq<Command<R>>)
    requires AllKnown(w, task) && IsFair(dispatch)
    ensures Known(w, Flatten(task))
    ensures Known(w, order) && multiset(order) == multiset(Flatten(task)) && (w', ok) == Run(cmd, w, order)
    ensures dispatch.Sequentially? || Harmless(task) ==> (w', ok) == Run(cmd, w, Flatten(task))
  {
    hide Run, Known, Completes, Merge;
    match dispatch
    case Sequentially =>
      order := Flatten(task);
      w', ok := DispatchSequentially(cmd, w, task);
    case InParallel(scheduler) =>
      FlattenKnown(w, task);
      order := Merge(task, scheduler(task));
      MergePermutes(task, scheduler(task));
      w', ok := DispatchInParallel(cmd, w, task, scheduler(task));
      if Harmless(task) { ParallelIsSequential(cmd, w, task, scheduler(task)); }
  }

  /** The groups address the listed joints, by position, and only those. */
  ghost predicate Covers(devices: seq<RawDevice>, joints: seq<nat>, groups: seq<Group>) {
    && Fits(groups, |joints|)
    && forall k, p | 0 <= k < |groups| && 0 <= p < |groups[k].locals| ::
         && joints[groups[k].offset + p] < Total(devices)
         && Locate(devices, joints[groups[k].offset + p]) == Axis(groups[k].device, groups[k].locals[p])
  }

  predicate Fits(groups: seq<Group>, n: nat) {
    forall k | 0 <= k < |groups| :: groups[k].offset + |groups[k].locals| <= n
  }

  lemma {:induction false} InAll(groups: seq<Group>, d: Delivery)
    ensures d in AllDeliveries(groups) <==> exists k | 0 <= k < |groups| :: d in Deliveries(groups[k])
    decreases |groups|
  {
    hide Deliveries;
    if groups != [] {
      var n := |groups| - 1;
      InAll(groups[..n], d);
      assert forall k | 0 <= k < n :: groups[..n][k] == groups[k];
    }
  }

  lemma Position(devices: seq<RawDevice>, joints: seq<nat>, groups: seq<Group>, k: nat, p: nat)
    requires AreJoints(devices, joints) && AllDeliveries(groups) == Wanted(devices, joints)
    requires k < |groups| && p < |groups[k].locals|
    ensures groups[k].offset + p < |joints|
    ensures Locate(devices, joints[groups[k].offset + p]) == Axis(groups[k].device, groups[k].locals[p])
  {
    hide AllDeliveries, Locate, Total;
    var d := Deliveries(groups[k])[p];
    InAll(groups, d);
    assert d in Wanted(devices, joints);
  }

  lemma GroupsCoverJoints(devices: seq<RawDevice>, joints: seq<nat>, groups: seq<Group>)
    requires AreJoints(devices, joints) && AllDeliveries(groups) == Wanted(devices, joints) && Coarse(groups)
    ensures Covers(devices, joints, groups) && forall k | 0 <= k < |groups| :: groups[k].device < |devices|
  {
    hide AllDeliveries, Locate, Total;
    forall k, p | 0 <= k < |groups| && 0 <= p < |groups[k].locals|
      ensures groups[k].offset + p < |joints|
      ensures joints[groups[k].offset + p] < Total(devices)
      ensures Locate(devices, joints[groups[k].offset + p]) == Axis(groups[k].device, groups[k].locals[p])
    {
      Position(devices, joints, groups, k, p);
    }
    forall k | 0 <= k < |groups|
      ensures groups[k].offset + |groups[k].locals| <= |joints| && groups[k].device < |devices|
    {
      Position(devices, joints, groups, k, |groups[k].locals| - 1);
      SlicesTile(devices, joints[groups[k].offset + |groups[k].locals| - 1]);
    }
  }

  lemma OneByOneKnown<S, R>(devices: seq<RawDevice>, joints: seq<nat>, refs: seq<R>, w: World<S>)
    requires AreJoints(devices, joints) && |refs| == |joints| && Complete(devices, w)
    ensures Known(w, OneByOne(devices, joints, refs))
  {
    hide Locate, Total;
    forall i | 0 <= i < |joints| ensures Locate(devices, joints[i]) in w { SlicesTile(devices, joints[i]); }
  }

  lemma ImplementedByGroups(devices: seq<RawDevice>, t: nat, joints: seq<nat>, groups: seq<Group>)
    requires AreJoints(devices, joints) && AllDeliveries(groups) == Wanted(devices, joints) && Coarse(groups)
    requires forall k | 0 <= k < |groups| :: groups[k].device < |devices|
    ensures (forall k | 0 <= k < |groups| :: t in devices[groups[k].device].interfaces) <==>
            AllImplement(devices, t, joints)
  {
    hide AllDeliveries, Locate, Total;
    GroupsCoverJoints(devices, joints, groups);
    if forall k | 0 <= k < |groups| :: t in devices[groups[k].device].interfaces {
      forall i | 0 <= i < |joints| ensures Implements(devices, t, joints[i]) {
        var d := Wanted(devices, joints)[i];
        assert d in AllDeliveries(groups);
        InAll(groups, d);
        var k :| 0 <= k < |groups| && d in Deliveries(groups[k]);
      }
    }
    if AllImplement(devices, t, joints) {
      forall k | 0 <= k < |groups| ensures t in devices[groups[k].device].interfaces {
        Position(devices, joints, groups, k, 0);
        assert Implements(devices, t, joints[groups[k].offset]);
      }
    }
  }

  // ---------------------------------------------------------------- the calls of the groups

  function CallOf<R>(g: Group, refs: seq<R>): seq<Command<R>>
    requires g.offset + |g.locals| <= |refs|
  {
    seq(|g.locals|, p requires 0 <= p < |g.locals| => Command(Axis(g.device, g.locals[p]), refs[g.offset + p]))
  }

  function CallsOf<R>(groups: seq<Group>, refs: seq<R>): seq<seq<Command<R>>>
    requires Fits(groups, |refs|)
  {
    seq(|groups|, k requires 0 <= k < |groups| => CallOf(groups[k], refs))
  }

  predicate IndexedBelow(ds: seq<Delivery>, n: nat) { forall i | 0 <= i < |ds| :: ds[i].index < n }

  function Commands<R>(ds: seq<Delivery>, refs: seq<R>): seq<Command<R>>
    requires IndexedBelow(ds, |refs|)
  {
    seq(|ds|, i requires 0 <= i < |ds| => Command(ds[i].axis, refs[ds[i].index]))
  }

  lemma CommandsAppend<R>(a: seq<Delivery>, b: seq<Delivery>, refs: seq<R>)
    requires IndexedBelow(a + b, |refs|)
    ensures IndexedBelow(a, |refs|) && IndexedBelow(b, |refs|)
    ensures Commands(a + b, refs) == Commands(a, refs) + Commands(b, refs)
  {
    assert forall i | 0 <= i < |a| :: a[i] == (a + b)[i];
    assert forall i | 0 <= i < |b| :: b[i] == (a + b)[|a| + i];
  }

  lemma CallsAppend<R>(groups: seq<Group>, refs: seq<R>)
    requires groups != [] && Fits(groups, |refs|)
    ensures var n := |groups| - 1;
            Flatten(CallsOf(groups, refs)) == Flatten(CallsOf(groups[..n], refs)) + CallOf(groups[n], refs)
  {
    hide Flatten, CallOf;
    var n := |groups| - 1;
    var calls: seq<seq<Command<R>>> := CallsOf(groups, refs);
    FlattenNext(calls, n);
    assert calls[..n] == CallsOf(groups[..n], refs);
    assert calls[..n + 1] == calls;
  }

  lemma {:induction false} CallsFlatten<R>(groups: seq<Group>, refs: seq<R>)
    requires Fits(groups, |refs|) && IndexedBelow(AllDeliveries(groups), |refs|)
    ensures Flatten(CallsOf(groups, refs)) == Commands(AllDeliveries(groups), refs)
    decreases |groups|
  {
    hide Deliveries, CallOf, CallsOf, Commands, IndexedBelow, Flatten;
    if groups == [] {
      NoCalls(groups, refs);
    } else {
      var n := |groups| - 1;
      CommandsAppend(AllDeliveries(groups[..n]), Deliveries(groups[n]), refs);
      CallsFlatten(groups[..n], refs);
      CallIsCommands(groups[n], refs);
      CallsAppend(groups, refs);
    }
  }

  lemma NoCalls<R>(groups: seq<Group>, refs: seq<R>)
    requires groups == []
    ensures Fits(groups, |refs|) && Flatten(CallsOf(groups, refs)) == []
    ensures IndexedBelow(AllDeliveries(groups), |refs|) && Commands(AllDeliveries(groups), refs) == []
  {
  }

  lemma CallIsCommands<R>(g: Group, refs: seq<R>)
    requires g.offset + |g.locals| <= |refs| && IndexedBelow(Deliveries(g), |refs|)
    ensures CallOf(g, refs) == Commands(Deliveries(g), refs)
  {
  }

  lemma CallsAreOneByOne<S, R>(devices: seq<RawDevice>, joints: seq<nat>, refs: seq<R>, groups: seq<Group>, w: World<S>)
    requires AreJoints(devices, joints) && AllDeliveries(groups) == Wanted(devices, joints) && Coarse(groups)
    requires |refs| == |joints| && Fits(groups, |refs|) && Complete(devices, w)
    ensures Flatten(CallsOf(groups, refs)) == OneByOne(devices, joints, refs) && AllKnown(w, CallsOf(groups, refs))
  {
    hide AllDeliveries, Locate, Total;
    CallsFlatten(groups, refs);
    GroupsCoverJoints(devices, joints, groups);
    forall k, p | 0 <= k < |groups| && 0 <= p < |groups[k].locals|
      ensures Axis(groups[k].device, groups[k].locals[p]) in w
    {
      SlicesTile(devices, joints[groups[k].offset + p]);
    }
  }

  /** Groups come in the order of their offsets. */
  lemma {:induction false} GroupsInOrder(devices: seq<RawDevice>, joints: seq<nat>, groups: seq<Group>, j: nat, k: nat)
    requires AreJoints(devices, joints) && AllDeliveries(groups) <= Wanted(devices, joints) && Coarse(groups)
    requires j < k < |groups|
    ensures groups[j].offset + |groups[j].locals| <= groups[k].offset
    decreases |groups|
  {
    hide Locate, Total;
    var n := |groups| - 1;
    var rest := AllDeliveries(groups[..n]);
    assert forall i | 0 <= i < |rest| :: rest[i] == AllDeliveries(groups)[i];
    if k < n {
      GroupsInOrder(devices, joints, groups[..n], j, k);
    } else {
      var d := Deliveries(groups[j])[|groups[j].locals| - 1];
      InAll(groups[..n], d);
      assert groups[..n][j] == groups[j];
      assert d in rest;
      assert AllDeliveries(groups)[|rest|] == Deliveries(groups[n])[0];
    }
  }

  /** Where the `i`-th listed joint is found among the groups. */
  lemma Occurs(devices: seq<RawDevice>, joints: seq<nat>, groups: seq<Group>, i: nat) returns (k: nat, p: nat)
    requires AreJoints(devices, joints) && AllDeliveries(groups) == Wanted(devices, joints) && i < |joints|
    ensures k < |groups| && p < |groups[k].locals| && groups[k].offset + p == i
  {
    hide AllDeliveries, Locate, Total;
    var d := Wanted(devices, joints)[i];
    assert d in AllDeliveries(groups);
    InAll(groups, d);
    k :| 0 <= k < |groups| && d in Deliveries(groups[k]);
    p :| 0 <= p < |groups[k].locals| && Deliveries(groups[k])[p] == d;
  }

  /** Two groups have a joint of another device between any joint of the one and any equal
      joint of the other. */
  lemma BetweenGroups(devices: seq<RawDevice>, joints: seq<nat>, groups: seq<Group>, j: nat, k: nat, x: nat, y: nat)
    requires AreJoints(devices, joints) && AllDeliveries(groups) == Wanted(devices, joints) && Coarse(groups)
    requires j < k < |groups| && x < |groups[j].locals| && y < |groups[k].locals|
    requires Axis(groups[j].device, groups[j].locals[x]) == Axis(groups[k].device, groups[k].locals[y])
    ensures var i, i' := groups[j].offset + x, groups[k].offset + y;
            i < i' < |joints| && joints[i] == joints[i'] && !OneGroup(devices, joints, i, i')
  {
    hide AllDeliveries, Locate, Total;
    var i, i' := groups[j].offset + x, groups[k].offset + y;
    var m := groups[j + 1].offset;
    Position(devices, joints, groups, j, x);
    Position(devices, joints, groups, k, y);
    Position(devices, joints, groups, j + 1, 0);
    GroupsInOrder(devices, joints, groups, j, j + 1);
    if j + 1 < k { GroupsInOrder(devices, joints, groups, j + 1, k); }
    SlicesTile(devices, joints[i]);
    SlicesTile(devices, joints[i']);
    assert m == i' ==> k == j + 1;
    assert i < m < i' && Locate(devices, joints[m]).device != Locate(devices, joints[i]).device;
  }

  /** And conversely, places with a joint of another device between them are in two groups. */
  lemma InTwoGroups(devices: seq<RawDevice>, joints: seq<nat>, groups: seq<Group>, i: nat, i': nat)
    returns (j: nat, x: nat, k: nat, y: nat)
    requires AreJoints(devices, joints) && AllDeliveries(groups) == Wanted(devices, joints) && Coarse(groups)
    requires i < i' < |joints| && joints[i] == joints[i'] && !OneGroup(devices, joints, i, i')
    ensures j < k < |groups| && x < |groups[j].locals| && y < |groups[k].locals|
    ensures groups[j].offset + x == i && groups[k].offset + y == i'
    ensures Axis(groups[j].device, groups[j].locals[x]) == Axis(groups[k].device, groups[k].locals[y])
  {
    hide AllDeliveries, Locate, Total;
    j, x := Occurs(devices, joints, groups, i);
    k, y := Occurs(devices, joints, groups, i');
    Position(devices, joints, groups, j, x);
    Position(devices, joints, groups, k, y);
    if k < j { GroupsInOrder(devices, joints, groups, k, j); }
    var m :| i < m < i' && Locate(devices, joints[m]).device != Locate(devices, joints[i]).device;
    if j == k { Position(devices, joints, groups, j, m - groups[j].offset); }
  }

  /** No two calls command the same axis. */
  predicate Apart<R>(calls: seq<seq<Command<R>>>) {
    forall j, k, x, y | 0 <= j < k < |calls| && 0 <= x < |calls[j]| && 0 <= y < |calls[k]| ::
      calls[j][x].axis != calls[k][y].axis
  }

  /** Groups share no axis if and only if no joint is listed in two of them. */
  lemma GroupsAreApart<R>(devices: seq<RawDevice>, joints: seq<nat>, refs: seq<R>, groups: seq<Group>)
    requires AreJoints(devices, joints) && AllDeliveries(groups) == Wanted(devices, joints) && Coarse(groups)
    requires |refs| == |joints| && Fits(groups, |refs|)
    ensures Apart(CallsOf(groups, refs)) <==> InOneGroup(devices, joints)
  {
    hide AllDeliveries, Locate, Total, OneGroup;
    var calls: seq<seq<Command<R>>> := CallsOf(groups, refs);
    if InOneGroup(devices, joints) {
      forall j, k, x, y | 0 <= j < k < |calls| && 0 <= x < |calls[j]| && 0 <= y < |calls[k]|
        ensures calls[j][x].axis != calls[k][y].axis
      {
        if calls[j][x].axis == calls[k][y].axis { BetweenGroups(devices, joints, groups, j, k, x, y); }
      }
    } else {
      var i, i' :| 0 <= i < i' < |joints| && joints[i] == joints[i'] && !OneGroup(devices, joints, i, i');
      var j, x, k, y := InTwoGroups(devices, joints, groups, i, i');
      assert calls[j][x].axis == calls[k][y].axis;
    }
  }

  /** Groups may be dispatched in parallel if and only if no joint is given different values in
      two of them. */
  lemma GroupsAreHarmless<R>(devices: seq<RawDevice>, joints: seq<nat>, refs: seq<R>, groups: seq<Group>)
    requires AreJoints(devices, joints) && AllDeliveries(groups) == Wanted(devices, joints) && Coarse(groups)
    requires |refs| == |joints| && Fits(groups, |refs|)
    ensures Harmless(CallsOf(groups, refs)) <==> NoConflict(devices, joints, refs)
  {
    hide AllDeliveries, Locate, Total, OneGroup;
    var calls: seq<seq<Command<R>>> := CallsOf(groups, refs);
    if NoConflict(devices, joints, refs) {
      forall j, k, x, y | 0 <= j < k < |calls| && 0 <= x < |calls[j]| && 0 <= y < |calls[k]|
        ensures calls[j][x].axis == calls[k][y].axis ==> calls[j][x].value == calls[k][y].value
      {
        if calls[j][x].axis == calls[k][y].axis { BetweenGroups(devices, joints, groups, j, k, x, y); }
      }
    } else {
      var i, i' :| 0 <= i < i' < |joints| && joints[i] == joints[i'] && refs[i] != refs[i'] &&
                   !OneGroup(devices, joints, i, i');
      var j, x, k, y := InTwoGroups(devices, joints, groups, i, i');
      assert calls[j][x].axis == calls[k][y].axis && calls[j][x].value != calls[k][y].value;
    }
  }

  // ---------------------------------------------------------------- all joints

  /** The simple mapping to the first `n` joints, without those whose device lacks the
      interface. */
  function Implemented<R>(devices: seq<RawDevice>, t: nat, refs: seq<R>, n: nat): seq<Command<R>>
    requires n <= Total(devices) && n <= |refs|
  {
    if n == 0 then []
    else
      Implemented(devices, t, refs, n - 1)
      + if Implements(devices, t, n - 1) then [Command(Locate(devices, n - 1), refs[n - 1])] else []
  }

  /** All axes of a device. */
  function Whole(devices: seq<RawDevice>, k: nat): Group
    requires k < |devices|
  {
    Group(k, seq(AxesOf(devices[k]), l => l), Offset(devices, k))
  }

  function Slice<R>(devices: seq<RawDevice>, t: nat, refs: seq<R>, k: nat, n: nat): seq<Command<R>>
    requires k < |devices| && Offset(devices, k) + n <= |refs|
  {
    if t in devices[k].interfaces
    then seq(n, l requires 0 <= l < n => Command(Axis(k, l), refs[Offset(devices, k) + l])) else []
  }

  lemma OffsetNext(devices: seq<RawDevice>, k: nat)
    requires k < |devices|
    ensures Offset(devices, k + 1) == Offset(devices, k) + AxesOf(devices[k])
    ensures Offset(devices, k + 1) <= Offset(devices, |devices|) == Total(devices)
  {
    OffsetsGrow(devices, k + 1, |devices|);
    assert devices[..k + 1][..k] == devices[..k] && devices[..|devices|] == devices;
  }

  function Single<R>(devices: seq<RawDevice>, t: nat, refs: seq<R>, a: Axis): seq<Command<R>>
    requires IsAxis(devices, a) && Joint(devices, a) < |refs|
  {
    if t in devices[a.device].interfaces then [Command(a, refs[Joint(devices, a)])] else []
  }

  lemma SliceNext<R>(devices: seq<RawDevice>, t: nat, refs: seq<R>, k: nat, n: nat)
    requires k < |devices| && n < AxesOf(devices[k]) && Offset(devices, k) + n < |refs|
    ensures Slice(devices, t, refs, k, n + 1) == Slice(devices, t, refs, k, n) + Single(devices, t, refs, Axis(k, n))
  {
    hide Total, Offset;
    var longer, shorter := Slice(devices, t, refs, k, n + 1), Slice(devices, t, refs, k, n);
    if t in devices[k].interfaces {
      assert longer[..n] == shorter;
      assert longer[n] == Single(devices, t, refs, Axis(k, n))[0];
    }
  }

  lemma ImplementedNext<R>(devices: seq<RawDevice>, t: nat, refs: seq<R>, a: Axis)
    requires IsAxis(devices, a) && |refs| == Total(devices)
    ensures var j := Joint(devices, a);
            && j < Total(devices)
            && Implemented(devices, t, refs, j + 1) == Implemented(devices, t, refs, j) + Single(devices, t, refs, a)
  {
    hide Total, Locate, Joint;
    AxesAreJoints(devices, a);
  }

  /** The values for a device are a slice of those for all joints. */
  lemma {:induction false} SliceIsImplemented<R>(devices: seq<RawDevice>, t: nat, refs: seq<R>, k: nat, n: nat)
    requires k < |devices| && n <= AxesOf(devices[k]) && |refs| == Total(devices)
    ensures Offset(devices, k) + n <= Total(devices)
    ensures Implemented(devices, t, refs, Offset(devices, k) + n) ==
            Implemented(devices, t, refs, Offset(devices, k)) + Slice(devices, t, refs, k, n)
    decreases n
  {
    hide Total, Locate, Implemented, Slice, Offset, Single;
    OffsetNext(devices, k);
    if n == 0 {
      EmptySlice(devices, t, refs, k);
    } else {
      SliceIsImplemented(devices, t, refs, k, n - 1);
      SliceNext(devices, t, refs, k, n - 1);
      ImplementedNext(devices, t, refs, Axis(k, n - 1));
    }
  }

  lemma EmptySlice<R>(devices: seq<RawDevice>, t: nat, refs: seq<R>, k: nat)
    requires k < |devices| && Offset(devices, k) <= |refs|
    ensures Slice(devices, t, refs, k, 0) == []
  {
  }

  lemma SliceIsCall<R>(devices: seq<RawDevice>, t: nat, refs: seq<R>, k: nat)
    requires k < |devices| && |refs| == Total(devices)
    ensures Offset(devices, k) + AxesOf(devices[k]) <= |refs|
    ensures Slice(devices, t, refs, k, AxesOf(devices[k])) ==
            if t in devices[k].interfaces then CallOf(Whole(devices, k), refs) else []
  {
    hide Total, Offset;
    OffsetNext(devices, k);
  }

  // What this comes to when a command sets its axis to a value.

  lemma OneAxisEach(devices: seq<RawDevice>, i: nat, j: nat)
    requires i < Total(devices) && j < Total(devices) && i != j
    ensures Locate(devices, i) != Locate(devices, j)
  {
    hide Locate, Total;
    SlicesTile(devices, i);
    SlicesTile(devices, j);
  }

  /** A list of joints that all differ: the axis of each has the value given for it, and every other
      axis is as it was. */
  lemma GroupSets<R(!new)>(devices: seq<RawDevice>, cmd: (R, R) -> (R, bool), joints: seq<nat>, refs: seq<R>,
                           w: World<R>)
    requires AreJoints(devices, joints) && |refs| == |joints| && Complete(devices, w) && Overwrites(cmd)
    requires forall i, j | 0 <= i < j < |joints| :: joints[i] != joints[j]
    ensures Known(w, OneByOne(devices, joints, refs))
    ensures var (w', ok) := Run(cmd, w, OneByOne(devices, joints, refs));
            && ok && w'.Keys == w.Keys
            && forall a | IsAxis(devices, a) ::
                 && a in w && a in w' && Joint(devices, a) < Total(devices)
                 && (Joint(devices, a) !in joints ==> w'[a] == w[a])
                 && forall i | 0 <= i < |joints| && joints[i] == Joint(devices, a) :: w'[a] == refs[i]
  {
    hide Locate, Total, Joint, Run, IsAxis, Complete;
    OneByOneKnown(devices, joints, refs, w);
    var cs: seq<Command<R>> := OneByOne(devices, joints, refs);
    forall i, j | 0 <= i < j < |cs| ensures cs[i].axis != cs[j].axis {
      OneAxisEach(devices, joints[i], joints[j]);
    }
    OverwritingRun(cmd, w, cs);
    forall a | IsAxis(devices, a)
      ensures a in w && Joint(devices, a) < Total(devices) && Locate(devices, Joint(devices, a)) == a
    {
      AxesAreJoints(devices, a);
      AxisIsKnown(devices, w, a);
    }
    forall a | IsAxis(devices, a) && Joint(devices, a) !in joints ensures Run(cmd, w, cs).0[a] == w[a] {
      forall i | 0 <= i < |cs| ensures cs[i].axis != a { OneAxisEach(devices, joints[i], Joint(devices, a)); }
    }
    forall a, i | IsAxis(devices, a) && 0 <= i < |joints| && joints[i] == Joint(devices, a)
      ensures Run(cmd, w, cs).0[a] == refs[i]
    {
      assert cs[i] == Command(a, refs[i]);
    }
  }

  lemma AxisIsKnown<S>(devices: seq<RawDevice>, w: World<S>, a: Axis)
    requires Complete(devices, w) && IsAxis(devices, a)
    ensures a in w
  {
  }

  /** All joints: each axis whose device implements the interface has the value of its joint, and
      every other axis is as it was. */
  lemma {:induction false} AllJointsSet<R(!new)>(devices: seq<RawDevice>, t: nat, cmd: (R, R) -> (R, bool),
                                                 refs: seq<R>, n: nat, w: World<R>)
    requires n <= Total(devices) && n <= |refs| && Complete(devices, w) && Overwrites(cmd)
    ensures Known(w, Implemented(devices, t, refs, n))
    ensures var (w', ok) := Run(cmd, w, Implemented(devices, t, refs, n));
            && ok && w'.Keys == w.Keys
            && forall a | IsAxis(devices, a) ::
                 && a in w && a in w'
                 && w'[a] == if t in devices[a.device].interfaces && Joint(devices, a) < n
                             then refs[Joint(devices, a)] else w[a]
    decreases n
  {
    hide Locate, Total, Joint, Run, Complete, Known;
    forall a | IsAxis(devices, a) ensures a in w { AxisIsKnown(devices, w, a); }
    if n == 0 {
      NothingToRun(cmd, w);
    } else {
      AllJointsSet(devices, t, cmd, refs, n - 1, w);
      SlicesTile(devices, n - 1);
      var at := Locate(devices, n - 1);
      var before: seq<Command<R>> := Implemented(devices, t, refs, n - 1);
      if t in devices[at.device].interfaces {
        RunNext(cmd, w, before, Command(at, refs[n - 1]));
      } else {
        assert before + [] == before;
      }
      forall a | IsAxis(devices, a) && Joint(devices, a) == n - 1 ensures a == at { AxesAreJoints(devices, a); }
    }
  }

  predicate SomeImplements(devices: seq<RawDevice>, t: nat) {
    exists k | 0 <= k < |devices| :: t in devices[k].interfaces
  }

  /** The calls of the task so far: those of the first `k` devices that implement the
      interface, one each, in order. */
  ghost predicate CallsUpTo<R>(devices: seq<RawDevice>, t: nat, refs: seq<R>, k: nat, task: seq<seq<Command<R>>>)
    requires |refs| == Total(devices)
  {
    && k <= |devices| && Offset(devices, k) <= Total(devices)
    && Flatten(task) == Implemented(devices, t, refs, Offset(devices, k))
    && Apart(task)
    && forall j, x | 0 <= j < |task| && 0 <= x < |task[j]| ::
         task[j][x].axis.device < k && IsAxis(devices, task[j][x].axis)
  }

  lemma {:induction false} NextDevice<R>(devices: seq<RawDevice>, t: nat, refs: seq<R>, k: nat,
                                         task: seq<seq<Command<R>>>)
    requires |refs| == Total(devices) && CallsUpTo(devices, t, refs, k, task) && k < |devices|
    ensures Offset(devices, k) + AxesOf(devices[k]) <= |refs|
    ensures CallsUpTo(devices, t, refs, k + 1,
                      if t in devices[k].interfaces then task + [CallOf(Whole(devices, k), refs)] else task)
  {
    hide Total, Implemented, Flatten, Offset, Slice, Apart;
    OffsetNext(devices, k);
    SliceIsImplemented(devices, t, refs, k, AxesOf(devices[k]));
    SliceIsCall(devices, t, refs, k);
    if t in devices[k].interfaces {
      var call := CallOf(Whole(devices, k), refs);
      FlattenOneMore(task, call);
      ApartFromOneMore(devices, k, task, call);
    }
  }

  lemma ApartIsHarmless<R>(task: seq<seq<Command<R>>>)
    requires Apart(task)
    ensures Harmless(task)
  {
  }

  lemma FlattenOneMore<R>(task: seq<seq<Command<R>>>, call: seq<Command<R>>)
    ensures Flatten(task + [call]) == Flatten(task) + call
  {
    FlattenNext(task + [call], |task|);
    assert (task + [call])[..|task|] == task && (task + [call])[..|task| + 1] == task + [call];
  }

  lemma ApartFromOneMore<R>(devices: seq<RawDevice>, k: nat, task: seq<seq<Command<R>>>, call: seq<Command<R>>)
    requires Apart(task) && forall x | 0 <= x < |call| :: call[x].axis.device == k
    requires forall j, x | 0 <= j < |task| && 0 <= x < |task[j]| :: task[j][x].axis.device < k
    ensures Apart(task + [call])
  {
  }

  lemma AllDevicesSeen<S, R>(devices: seq<RawDevice>, t: nat, refs: seq<R>, task: seq<seq<Command<R>>>, w: World<S>)
    requires |refs| == Total(devices) && CallsUpTo(devices, t, refs, |devices|, task) && Complete(devices, w)
    ensures Flatten(task) == Implemented(devices, t, refs, |refs|) && Apart(task) && AllKnown(w, task)
    ensures Known(w, Flatten(task))
  {
    hide Total, Implemented, Flatten, Apart;
    assert devices[..|devices|] == devices;
    FlattenKnown(w, task);
  }

  lemma NoDeviceYet<R>(devices: seq<RawDevice>, t: nat, refs: seq<R>)
    requires |refs| == Total(devices)
    ensures CallsUpTo(devices, t, refs, 0, [])
  {
    assert devices[..0] == [];
  }
}
