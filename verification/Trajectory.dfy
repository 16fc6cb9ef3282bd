/** What a drive receives over a whole trajectory, however the setpoints were batched. */
module Trajectory {
  import opened Bytes
  import opened InterpolatedPosition

  // ---------------------------------------------------------------- runs of a buffer

  datatype Op = Add(point: Point) | Pop(fullBuffer: bool)

  function Apply(c: Config, q: Queue, op: Op): (Queue, seq<Frame>)
    requires c.Valid()
  {
    match op
    case Add(p) => (q.(pending := q.pending + [p]), [])
    case Pop(fullBuffer) => PopBatchSpec(c, q, fullBuffer)
  }

  /** The final queue and the concatenation of all batches. */
  function Run(c: Config, q: Queue, ops: seq<Op>): (Queue, seq<Frame>)
    requires c.Valid()
    decreases |ops|
  {
    if ops == [] then (q, [])
    else
      var (q', batch) := Apply(c, q, ops[0]);
      var (end, rest) := Run(c, q', ops[1..]);
      (end, batch + rest)
  }

  function Added(ops: seq<Op>): seq<Point> {
    if ops == [] then []
    else (if ops[0].Add? then [ops[0].point] else []) + Added(ops[1..])
  }

  /** A call that finds one last point in a PVT queue has no point to look ahead to. */
  predicate Starved(c: Config, q: Queue, op: Op) {
    op.Pop? && c.subMode.Pvt? && |q.pending| == 1
  }

  /** The places, in the output, of the points popped by starved calls; `k` records
      precede. */
  function Blind(c: Config, q: Queue, ops: seq<Op>, k: nat): set<nat>
    requires c.Valid()
    decreases |ops|
  {
    if ops == [] then {}
    else
      var (q', batch) := Apply(c, q, ops[0]);
      (if Starved(c, q, ops[0]) then {k} else {}) + Blind(c, q', ops[1..], k + |batch|)
  }

  /** The record a single pass over all points makes at place i; a blind one sees no
      further than its own point. */
  function Expected(c: Config, q: Queue, points: seq<Point>, blind: set<nat>, i: nat): Frame
    requires c.Valid() && i < |points|
  {
    RecordAt(c, q, if i in blind then points[..i + 1] else points, i)
  }

  ghost predicate Timed(points: seq<Point>) {
    forall p | p in points :: p.time != 0.0
  }

  /** `out` is what a single pass over `points` puts out from place k on, and `end` the
      queue it leaves. */
  ghost predicate Passes(c: Config, q: Queue, points: seq<Point>, k: nat, end: Queue, out: seq<Frame>, blind: set<nat>)
    requires c.Valid()
  {
    && k + |out| <= |points|
    && end == Advanced(c, q, points, k + |out|)
    && (forall i | i in blind :: k <= i < k + |out|)
    && (forall i | 0 <= i < |out| :: out[i] == Expected(c, q, points, blind, k + i))
    && (c.subMode.Pvt? ==> forall i | k <= i < k + |out| :: i in blind || i + 1 < |points|)
  }

  /** Points added later do not change a record that already had its look-ahead. */
  lemma Prefix(c: Config, q: Queue, points: seq<Point>, more: seq<Point>, i: nat)
    requires c.Valid() && i < |points|
    ensures i + 1 < |points| || c.subMode.Pt? ==> RecordAt(c, q, points, i) == RecordAt(c, q, points + more, i)
    ensures i + 1 == |points| ==> points == (points + more)[..i + 1]
  {
  }

  /** `batch` is what popping n points in one go makes of the known `points`. */
  ghost predicate IsBatch(c: Config, q: Queue, points: seq<Point>, k: nat, n: nat, batch: seq<Frame>)
    requires c.Valid()
  {
    && k + n <= |points| && |batch| == n
    && (c.subMode.Pvt? ==> k + n < |points| || (n == 1 && k + 1 == |points|))
    && forall j | 0 <= j < n :: batch[j] == RecordAt(c, q, points, k + j)
  }

  /** A batch in front of a pass is a pass. */
  lemma PassExtends(c: Config, q: Queue, points: seq<Point>, more: seq<Point>, k: nat, n: nat,
                    batch: seq<Frame>, end: Queue, rest: seq<Frame>, blind: set<nat>)
    requires c.Valid() && n > 0 && IsBatch(c, q, points, k, n, batch)
    requires Passes(c, q, points + more, k + n, end, rest, blind)
    ensures var blind' := (if c.subMode.Pvt? && k + 1 == |points| then {k} else {}) + blind;
            Passes(c, q, points + more, k, end, batch + rest, blind')
  {
    hide RecordAt;
    var blind' := (if c.subMode.Pvt? && k + 1 == |points| then {k} else {}) + blind;
    var out := batch + rest;
    forall i | 0 <= i < |out|
      ensures out[i] == Expected(c, q, points + more, blind', k + i)
    {
      if i < n {
        assert out[i] == RecordAt(c, q, points, k + i);
        Prefix(c, q, points, more, k + i);
      } else {
        assert out[i] == rest[i - n] == Expected(c, q, points + more, blind, k + n + (i - n));
      }
    }
  }

  /** One batch, in terms of the pass that it is part of. */
  lemma {:induction false} BatchOfPass(c: Config, q: Queue, points: seq<Point>, k: nat, fullBuffer: bool)
    requires c.Valid() && 0 < k <= |points| && Timed(points)
    ensures var n := BatchCount(c, |points| - k, fullBuffer);
            var (q', batch) := PopBatchSpec(c, Advanced(c, q, points, k), fullBuffer);
            q' == Advanced(c, q, points, k + n) && |batch| == n && (n > 0 ==> IsBatch(c, q, points, k, n, batch))
  {
    hide RecordAt;
    var mid := Advanced(c, q, points, k);
    assert points[k - 1] in points;
    assert Amended(mid) == mid;
    var n := BatchCount(c, |points| - k, fullBuffer);
    Compose(c, q, points, k, n);
    forall j | 0 <= j < n
      ensures Batch(c, mid, n)[j] == RecordAt(c, q, points, k + j)
    {
      Compose(c, q, points, k, j);
    }
  }

  /** Adding a point puts nothing out. */
  lemma AddIsSilent(c: Config, q: Queue, ops: seq<Op>, k: nat)
    requires c.Valid() && ops != [] && ops[0].Add?
    ensures var q' := q.(pending := q.pending + [ops[0].point]);
            && Run(c, q, ops) == Run(c, q', ops[1..])
            && Blind(c, q, ops, k) == Blind(c, q', ops[1..], k)
            && q.pending + Added(ops) == q'.pending + Added(ops[1..])
  {
    var q' := q.(pending := q.pending + [ops[0].point]);
    var r := Run(c, q', ops[1..]);
    assert [] + r.1 == r.1;
    assert {} + Blind(c, q', ops[1..], k) == Blind(c, q', ops[1..], k);
    assert q.pending + ([ops[0].point] + Added(ops[1..])) == q'.pending + Added(ops[1..]);
  }

  lemma PopIsBatch(c: Config, q: Queue, ops: seq<Op>, k: nat)
    requires c.Valid() && ops != [] && ops[0].Pop?
    ensures var (q', batch) := PopBatchSpec(c, q, ops[0].fullBuffer);
            && Run(c, q, ops) == (Run(c, q', ops[1..]).0, batch + Run(c, q', ops[1..]).1)
            && Blind(c, q, ops, k) == (if c.subMode.Pvt? && |q.pending| == 1 then {k} else {})
                                      + Blind(c, q', ops[1..], k + |batch|)
            && Added(ops) == Added(ops[1..])
  {
    hide PopBatchSpec;
    assert [] + Added(ops[1..]) == Added(ops[1..]);
  }

  ghost predicate RunPasses(c: Config, q: Queue, mid: Queue, points: seq<Point>, k: nat, ops: seq<Op>)
    requires c.Valid()
  {
    Passes(c, q, points, k, Run(c, mid, ops).0, Run(c, mid, ops).1, Blind(c, mid, ops, k))
  }

  lemma {:induction false} AddInsidePass(c: Config, q: Queue, points: seq<Point>, k: nat, ops: seq<Op>)
    requires c.Valid() && k <= |points| && ops != [] && ops[0].Add?
    ensures var p := ops[0].point;
            && points + Added(ops) == (points + [p]) + Added(ops[1..])
            && (RunPasses(c, q, Advanced(c, q, points + [p], k), points + Added(ops), k, ops[1..]) ==>
                  RunPasses(c, q, Advanced(c, q, points, k), points + Added(ops), k, ops))
  {
    hide Passes;
    var p, mid := ops[0].point, Advanced(c, q, points, k);
    AddIsSilent(c, mid, ops, k);
    assert points + Added(ops) == (points + [p]) + Added(ops[1..]);
    assert (points + [p])[k..] == points[k..] + [p];
    assert mid.(pending := mid.pending + [p]) == Advanced(c, q, points + [p], k);
  }

  lemma {:induction false} PopInsidePass(c: Config, q: Queue, points: seq<Point>, k: nat, ops: seq<Op>)
    requires c.Valid() && 0 < k <= |points| && Timed(points) && ops != [] && ops[0].Pop?
    ensures var n := BatchCount(c, |points| - k, ops[0].fullBuffer);
            && points + Added(ops) == points + Added(ops[1..])
            && (RunPasses(c, q, Advanced(c, q, points, k + n), points + Added(ops), k + n, ops[1..]) ==>
                  RunPasses(c, q, Advanced(c, q, points, k), points + Added(ops), k, ops))
  {
    hide Passes, RecordAt, PopBatchSpec, IsBatch, Run, Blind, Added;
    var mid, n := Advanced(c, q, points, k), BatchCount(c, |points| - k, ops[0].fullBuffer);
    PopIsBatch(c, mid, ops, k);
    BatchOfPass(c, q, points, k, ops[0].fullBuffer);
    var (q', batch) := PopBatchSpec(c, mid, ops[0].fullBuffer);
    var (end, rest) := Run(c, q', ops[1..]);
    var blind := Blind(c, q', ops[1..], k + n);
    if n == 0 {
      assert batch + rest == rest && {} + blind == blind;
    } else if RunPasses(c, q, Advanced(c, q, points, k + n), points + Added(ops), k + n, ops[1..]) {
      PassExtends(c, q, points, Added(ops[1..]), k, n, batch, end, rest, blind);
    }
  }

  /** The part of a run that follows the first batch. */
  lemma {:induction false} RunInsidePass(c: Config, q: Queue, points: seq<Point>, k: nat, ops: seq<Op>)
    requires c.Valid() && 0 < k <= |points| && Timed(points + Added(ops))
    ensures RunPasses(c, q, Advanced(c, q, points, k), points + Added(ops), k, ops)
    decreases |ops|
  {
    hide RecordAt;
    if ops == [] {
      assert points + [] == points;
    } else if ops[0].Add? {
      AddInsidePass(c, q, points, k, ops);
      RunInsidePass(c, q, points + [ops[0].point], k, ops[1..]);
    } else {
      assert forall p | p in points :: p in points + Added(ops);
      PopInsidePass(c, q, points, k, ops);
      RunInsidePass(c, q, points, k + BatchCount(c, |points| - k, ops[0].fullBuffer), ops[1..]);
    }
  }

  /** A run up to and from its first batch. */
  ghost predicate RunFromGatePasses(c: Config, q: Queue, points: seq<Point>, ops: seq<Op>)
    requires c.Valid()
  {
    var (end, out) := Run(c, q, ops);
    if out == [] then end == q.(pending := points) && Blind(c, q, ops, 0) == {}
    else Passes(c, Amended(q), points, 0, end, out, Blind(c, q, ops, 0))
  }

  lemma {:induction false} AddAtGate(c: Config, q: Queue, ops: seq<Op>)
    requires c.Valid() && |q.pending| > 1 && ops != [] && ops[0].Add?
    ensures var q' := q.(pending := q.pending + [ops[0].point]);
            && q.pending + Added(ops) == q'.pending + Added(ops[1..])
            && (RunFromGatePasses(c, q', q.pending + Added(ops), ops[1..]) ==>
                  RunFromGatePasses(c, q, q.pending + Added(ops), ops))
  {
    hide Passes;
    AddIsSilent(c, q, ops, 0);
    var q' := q.(pending := q.pending + [ops[0].point]);
    var (end, out) := Run(c, q', ops[1..]);
    var blind, whole := Blind(c, q, ops, 0), q.pending + Added(ops);
    assert Amended(q') == Amended(q).(pending := q'.pending);
    if RunFromGatePasses(c, q', whole, ops[1..]) && out != [] {
      PassesIgnoresPending(c, Amended(q), q'.pending, whole, 0, end, out, blind);
    }
  }

  lemma PopAtGate(c: Config, q: Queue, ops: seq<Op>)
    requires c.Valid() && |q.pending| > 1 && Timed(q.pending + Added(ops)) && ops != [] && ops[0].Pop?
    ensures RunFromGatePasses(c, q, q.pending + Added(ops), ops)
  {
    hide Passes, RecordAt, PopBatchSpec, IsBatch, Run, Blind, Added;
    PopIsBatch(c, q, ops, 0);
    var more := Added(ops[1..]);
    var n := BatchCount(c, |q.pending|, ops[0].fullBuffer);
    FirstBatch(c, q, ops[0].fullBuffer);
    var (q', batch) := PopBatchSpec(c, q, ops[0].fullBuffer);
    RunInsidePass(c, Amended(q), q.pending, n, ops[1..]);
    var (end, rest) := Run(c, q', ops[1..]);
    PassExtends(c, Amended(q), q.pending, more, 0, n, batch, end, rest, Blind(c, q', ops[1..], n));
  }

  /** Before the first batch the initial point is still a dummy; its amendment depends on
      the two oldest points only. */
  lemma {:induction false} RunFromGate(c: Config, q: Queue, ops: seq<Op>)
    requires c.Valid() && |q.pending| > 1 && Timed(q.pending + Added(ops))
    ensures RunFromGatePasses(c, q, q.pending + Added(ops), ops)
    decreases |ops|
  {
    hide RecordAt;
    if ops == [] {
      assert q.pending + [] == q.pending;
    } else if ops[0].Add? {
      AddAtGate(c, q, ops);
      RunFromGate(c, q.(pending := q.pending + [ops[0].point]), ops[1..]);
    } else {
      PopAtGate(c, q, ops);
    }
  }

  lemma PassesIgnoresPending(c: Config, q: Queue, pending: seq<Point>, points: seq<Point>, k: nat, end: Queue,
                             out: seq<Frame>, blind: set<nat>)
    requires c.Valid() && Passes(c, q.(pending := pending), points, k, end, out, blind)
    ensures Passes(c, q, points, k, end, out, blind)
  {
    hide MakeRecord;
    forall i | 0 <= i < |out| ensures out[i] == Expected(c, q, points, blind, k + i) {
      assert out[i] == Expected(c, q.(pending := pending), points, blind, k + i);
    }
  }

  lemma FirstBatch(c: Config, q: Queue, fullBuffer: bool)
    requires c.Valid() && |q.pending| > 1
    ensures var n := BatchCount(c, |q.pending|, fullBuffer);
            var (q', batch) := PopBatchSpec(c, q, fullBuffer);
            && n > 0 && |batch| == n && q' == Advanced(c, Amended(q), q.pending, n)
            && IsBatch(c, Amended(q), q.pending, 0, n, batch)
  {
    hide RecordAt;
  }

  /** Batching is invisible: once two points are queued (as the gate before the first
      batch demands), any interleaving of additions and batches puts out, point by point
      and in order, the records of one pass over all points. Nothing is lost or repeated. A
      PVT record that no starved call emitted had its look-ahead: there is a next point. */
  lemma BatchingIsInvisible(c: Config, q: Queue, ops: seq<Op>)
    requires c.Valid() && |q.pending| > 1 && Timed(q.pending + Added(ops))
    ensures var whole := q.pending + Added(ops);
            var (end, out) := Run(c, q, ops);
            var blind := Blind(c, q, ops, 0);
            && |out| <= |whole| && end.pending == whole[|out|..]
            && (forall i | 0 <= i < |out| :: out[i] == Expected(c, Amended(q), whole, blind, i))
            && (forall i | i in blind :: i < |out|)
            && (if c.subMode.Pt? then blind == {} else forall i | 0 <= i < |out| :: i in blind || i + 1 < |whole|)
  {
    hide RecordAt;
    RunFromGate(c, q, ops);
    var whole := q.pending + Added(ops);
    var (end, out) := Run(c, q, ops);
    forall i | 0 <= i < |out|
      ensures out[i] == Expected(c, Amended(q), whole, Blind(c, q, ops, 0), i)
    {
      assert out[i] == Expected(c, Amended(q), whole, Blind(c, q, ops, 0), 0 + i);
    }
    if c.subMode.Pt? {
      PtNeverStarves(c, q, ops);
      NeverBlind(c, q, ops, 0);
    }
  }

  /** No call of the run is starved. */
  predicate NeverStarved(c: Config, q: Queue, ops: seq<Op>)
    requires c.Valid()
    decreases |ops|
  {
    ops != [] ==> !Starved(c, q, ops[0]) && NeverStarved(c, Apply(c, q, ops[0]).0, ops[1..])
  }

  /** There are blind places if and only if some call starts with one last PVT point. */
  lemma {:induction false} NeverBlind(c: Config, q: Queue, ops: seq<Op>, k: nat)
    requires c.Valid()
    ensures NeverStarved(c, q, ops) <==> Blind(c, q, ops, k) == {}
    decreases |ops|
  {
    hide PopBatchSpec;
    if ops != [] {
      var (q', batch) := Apply(c, q, ops[0]);
      NeverBlind(c, q', ops[1..], k + |batch|);
      if Starved(c, q, ops[0]) { assert k in Blind(c, q, ops, k); }
    }
  }

  lemma {:induction false} PtNeverStarves(c: Config, q: Queue, ops: seq<Op>)
    requires c.Valid() && c.subMode.Pt?
    ensures NeverStarved(c, q, ops)
    decreases |ops|
  {
    hide PopBatchSpec;
    if ops != [] { PtNeverStarves(c, Apply(c, q, ops[0]).0, ops[1..]); }
  }

  /** The velocity that a record with look-ahead carries is the one that a record without it
      has in its place. */
  predicate LooksBlind(c: Config, q: Queue, points: seq<Point>, i: nat)
    requires i < |points|
  {
    i + 1 == |points| || EncodeFixedPoint(Velocity(c, PointBefore(q, points, i), points[i], points[i + 1])) == (0, 0)
  }

  lemma VelocityBytes(v: uint16, w: uint16, frac: byte, frac': byte, a: seq<byte>, b: byte, d: seq<byte>)
    requires |a| == 2
    ensures a + [frac, b] + Encode16(v) + d == a + [frac', b] + Encode16(w) + d <==> v == w && frac == frac'
  {
    hide Encode16, Decode16;
    var f, g := a + [frac, b] + Encode16(v) + d, a + [frac', b] + Encode16(w) + d;
    assert f[2] == frac && f[4..6] == Encode16(v) && g[2] == frac' && g[4..6] == Encode16(w);
    Decode16Encode16(v);
    Decode16Encode16(w);
  }

  lemma MakeBlindRecord(c: Config, previous: Point, current: Point, next: Point, window: uint16, counter: byte)
    requires c.subMode.Pvt? && next.time != 0.0
    ensures MakeRecord(c, previous, current, NO_POINT, window, counter) ==
            MakeRecord(c, previous, current, next, window, counter) <==>
            EncodeFixedPoint(Velocity(c, previous, current, next)) == (0, 0)
  {
    hide EncodeFixedPoint, Velocity, Encode16;
    var ic: byte := 2 * counter % 0x100;
    var p := Wrap32(c.toPosition(current.target));
    var (v, frac) := EncodeFixedPoint(Velocity(c, previous, current, next));
    VelocityBytes(0, v, 0, frac, Encode16(p % 0x1_0000), p / 0x1_0000 % 0x100,
                  Encode16((window % 0x200 + 0x100 * ic) % 0x1_0000));
  }

  /** A record made without look-ahead is that of the single pass if and only if it is that of
      the last point or its velocity encodes to zero. */
  lemma BlindRecord(c: Config, q: Queue, points: seq<Point>, i: nat)
    requires c.Valid() && c.subMode.Pvt? && i < |points| && Timed(points)
    ensures RecordAt(c, q, points[..i + 1], i) == RecordAt(c, q, points, i) <==> LooksBlind(c, q, points, i)
  {
    hide MakeRecord, EncodeFixedPoint, Velocity, Window;
    if i + 1 == |points| {
      assert points[..i + 1] == points;
    } else {
      assert points[i + 1] in points;
      MakeBlindRecord(c, PointBefore(q, points, i), points[i], points[i + 1],
                      Window(c, q.initialTime, CountBefore(c, q, points, i), points[i].time), (q.counter + i) % 0x100);
    }
  }

  /** The output is that of a single pass if and only if every blind record looks as if it were
      not. */
  lemma SinglePassIff(c: Config, q: Queue, ops: seq<Op>)
    requires c.Valid() && |q.pending| > 1 && Timed(q.pending + Added(ops))
    ensures var whole, out := q.pending + Added(ops), Run(c, q, ops).1;
            && |out| <= |whole| && (forall i | i in Blind(c, q, ops, 0) :: i < |out|)
            && ((forall i | 0 <= i < |out| :: out[i] == RecordAt(c, Amended(q), whole, i)) <==>
                forall i | i in Blind(c, q, ops, 0) :: LooksBlind(c, Amended(q), whole, i))
  {
    hide RecordAt, Run, Blind, LooksBlind, Amended;
    BatchingIsInvisible(c, q, ops);
    var whole, out, blind := q.pending + Added(ops), Run(c, q, ops).1, Blind(c, q, ops, 0);
    forall i | 0 <= i < |out|
      ensures out[i] == RecordAt(c, Amended(q), whole, i) <==> (i in blind ==> LooksBlind(c, Amended(q), whole, i))
    {
      assert out[i] == Expected(c, Amended(q), whole, blind, i);
      if i in blind { BlindRecord(c, Amended(q), whole, i); }
    }
  }

  // Two calls on two queued points: the second one finds the last of them.

  /** A call on two queued points or on one pops one of them. */
  lemma PopsOne(c: Config, q: Queue)
    requires c.Valid() && c.subMode.Pvt? && 1 <= |q.pending| <= 2
    ensures var (q', batch) := Apply(c, q, Pop(true));
            |batch| == 1 && |q'.pending| == |q.pending| - 1 && (Starved(c, q, Pop(true)) <==> |q.pending| == 1)
  {
    hide RecordAt, Window, Samples;
  }

  lemma SecondCallStarves(c: Config, q: Queue, p: Point)
    requires c.Valid() && c.subMode.Pvt? && |q.pending| == 2
    ensures var ops := [Pop(true), Pop(true), Add(p)];
            Added(ops) == [p] && Blind(c, q, ops, 0) == {1} && |Run(c, q, ops).1| == 2
  {
    hide Apply, Starved;
    var ops := [Pop(true), Pop(true), Add(p)];
    assert ops[1..] == [Pop(true), Add(p)] && ops[1..][1..] == [Add(p)] && [Add(p)][1..] == [];
    var (q', batch) := Apply(c, q, ops[0]);
    var (q'', batch') := Apply(c, q', ops[1]);
    PopsOne(c, q);
    PopsOne(c, q');
    AddIsSilent(c, q'', [Add(p)], 2);
    assert Blind(c, q', ops[1..], 1) == {1} && |Run(c, q', ops[1..]).1| == 1;
    assert Added([Add(p)]) == [p] && Added(ops[1..]) == [p];
  }

  /** A steady motion, one unit each second. */
  function SteadyConfig(): Config { Config(Pvt, 0, 1.0, _ => 0, v => v) }

  function SteadyPoint(i: nat): Point { Point(i as real, 1.0 + i as real) }

  const STEADY_QUEUE := Queue([SteadyPoint(1), SteadyPoint(2)], SteadyPoint(0), 1.0, 0, 0)

  /** A starved run: the record of the second point says that the motion stops there. */
  lemma StarvedRun()
    ensures var c, ops := SteadyConfig(), [Pop(true), Pop(true), Add(SteadyPoint(3))];
            var whole, out := STEADY_QUEUE.pending + Added(ops), Run(c, STEADY_QUEUE, ops).1;
            && !NeverStarved(c, STEADY_QUEUE, ops) && |whole| == 3 && |out| == 2
            && out[1] != RecordAt(c, Amended(STEADY_QUEUE), whole, 1)
  {
    hide RecordAt, Run, Blind, NeverStarved, Added;
    var c, q, ops := SteadyConfig(), STEADY_QUEUE, [Pop(true), Pop(true), Add(SteadyPoint(3))];
    SecondCallStarves(c, q, SteadyPoint(3));
    NeverBlind(c, q, ops, 0);
    BatchingIsInvisible(c, q, ops);
    var whole := q.pending + Added(ops);
    SteadyVelocity(whole);
    BlindRecord(c, Amended(q), whole, 1);
    assert Run(c, q, ops).1[1] == Expected(c, Amended(q), whole, Blind(c, q, ops, 0), 1);
  }

  lemma SteadyVelocity(whole: seq<Point>)
    requires whole == [SteadyPoint(1), SteadyPoint(2), SteadyPoint(3)]
    ensures !LooksBlind(SteadyConfig(), Amended(STEADY_QUEUE), whole, 1)
  {
    assert Velocity(SteadyConfig(), SteadyPoint(1), SteadyPoint(2), SteadyPoint(3)) == 1.0;
    assert EncodeFixedPoint(1.0).0 == 1;
  }

  /** Without starved calls the output is that of a single pass, point by point. */
  lemma OutputIsOnePass(c: Config, q: Queue, ops: seq<Op>)
    requires c.Valid() && |q.pending| > 1 && Timed(q.pending + Added(ops)) && NeverStarved(c, q, ops)
    ensures var whole, out := q.pending + Added(ops), Run(c, q, ops).1;
            |out| <= |whole| && forall i | 0 <= i < |out| :: out[i] == RecordAt(c, Amended(q), whole, i)
  {
    hide RecordAt, Run, Blind, NeverStarved;
    BatchingIsInvisible(c, q, ops);
    NeverBlind(c, q, ops, 0);
    var whole, out := q.pending + Added(ops), Run(c, q, ops).1;
    forall i | 0 <= i < |out| ensures out[i] == RecordAt(c, Amended(q), whole, i) {
      assert out[i] == Expected(c, Amended(q), whole, Blind(c, q, ops, 0), i);
    }
  }

  // ---------------------------------------------------------------- contents of the records

  /** Every record of a run has the position of its point, the time of the operation if that is
      synchronous, and no velocity if it had no look-ahead. */
  lemma {:induction false} RecordsOfRun(c: Config, q: Queue, ops: seq<Op>, i: nat)
    requires c.Valid() && |q.pending| > 1 && Timed(q.pending + Added(ops)) && i < |Run(c, q, ops).1|
    ensures var whole, f := q.pending + Added(ops), Run(c, q, ops).1[i];
            && i < |whole|
            && (PositionOf(c, f) == c.toPosition(whole[i].target) as int <==>
                  -PositionHalfRange(c) <= c.toPosition(whole[i].target) < PositionHalfRange(c))
            && (c.fixedSamples != 0 ==> TimeOf(c, f) == c.fixedSamples % TimeField(c))
            && (c.subMode.Pvt? && i in Blind(c, q, ops, 0) ==> VelocityOf(f) == 0.0)
  {
    hide Run, Blind, PositionOf, TimeOf, MakeRecord, VelocityOf, Added, Amended;
    BatchingIsInvisible(c, q, ops);
    var whole, start, blind := q.pending + Added(ops), Amended(q), Blind(c, q, ops, 0);
    assert Run(c, q, ops).1[i] == Expected(c, start, whole, blind, i);
    var points := if i in blind then whole[..i + 1] else whole;
    var window := Window(c, start.initialTime, CountBefore(c, start, points, i), points[i].time);
    var next := if i + 1 < |points| then points[i + 1] else NO_POINT;
    RecordIsLossless(c, PointBefore(start, points, i), points[i], next, window, (start.counter + i) % 0x100);
    FieldsOfRecord(c, PointBefore(start, points, i), points[i], next, window, (start.counter + i) % 0x100);
    if c.subMode.Pvt? {
      PvtFields(c, PointBefore(start, points, i), points[i], next, window, (start.counter + i) % 0x100);
    }
  }

  /** A record with look-ahead, and what it is made of. */
  lemma {:induction false} SeeingRecord(c: Config, q: Queue, ops: seq<Op>, i: nat)
    requires c.Valid() && c.subMode.Pvt? && |q.pending| > 1 && Timed(q.pending + Added(ops))
    requires i < |Run(c, q, ops).1| && i !in Blind(c, q, ops, 0)
    ensures var whole, start := q.pending + Added(ops), Amended(q);
            && i + 1 < |whole| && whole[i + 1].time != 0.0
            && Run(c, q, ops).1[i] ==
               MakeRecord(c, PointBefore(start, whole, i), whole[i], whole[i + 1],
                          Window(c, start.initialTime, CountBefore(c, start, whole, i), whole[i].time),
                          (start.counter + i) % 0x100)
  {
    hide Run, Blind, MakeRecord, Added, Amended, Window, CountBefore;
    BatchingIsInvisible(c, q, ops);
    var whole := q.pending + Added(ops);
    assert Run(c, q, ops).1[i] == Expected(c, Amended(q), whole, Blind(c, q, ops, 0), i);
    assert whole[i + 1] in whole;
  }

  /** Every record with look-ahead carries the average of the velocities before and after its
      point, if and only if that can be encoded. The first point is preceded by the initial one,
      by as much as it precedes the second. */
  lemma {:induction false} VelocityOfRun(c: Config, q: Queue, ops: seq<Op>, i: nat, before: real, after: real)
    requires c.Valid() && c.subMode.Pvt? && |q.pending| > 1 && Timed(q.pending + Added(ops))
    requires i < |Run(c, q, ops).1| && i !in Blind(c, q, ops, 0) && i + 1 < |q.pending + Added(ops)|
    requires var whole := q.pending + Added(ops);
             && before != 0.0 && (i > 0 || q.prev.time == 0.0)
             && Lasts(c, whole[Max(i, 1) - 1], whole[Max(i, 1)], before)
             && after != 0.0 && Lasts(c, whole[i], whole[i + 1], after)
    ensures var whole, sent := q.pending + Added(ops), VelocityOf(Run(c, q, ops).1[i]);
            var arrival := whole[i].target - if i == 0 then q.prev.target else whole[i - 1].target;
            var v := c.toVelocity((arrival / before + (whole[i + 1].target - whole[i].target) / after) / 2.0);
            Encodable(v) <==> -1.0 / 512.0 <= sent - v <= 1.0 / 512.0
  {
    hide Run, Blind, MakeRecord, Added, VelocityOf, Encodable, Window, CountBefore, Amended;
    SeeingRecord(c, q, ops, i);
    var whole, start := q.pending + Added(ops), Amended(q);
    if i == 0 { AmendedStart(q); }
    RecordVelocity(c, PointBefore(start, whole, i), whole[i], whole[i + 1],
                   Window(c, start.initialTime, CountBefore(c, start, whole, i), whole[i].time),
                   (start.counter + i) % 0x100, before, after);
  }

  /** The points go along a line, from an initial position as far before the first as that is before
      the second. */
  ghost predicate Straight(c: Config, start: real, points: seq<Point>, a: real, v: real) {
    && |points| > 1
    && OnLine(Point(start, points[0].time - (points[1].time - points[0].time)), a, v)
    && (forall i | 0 <= i < |points| :: OnLine(points[i], a, v))
    && (forall i | 0 < i < |points| :: Paced(c, points[i - 1], points[i]))
  }

  /** A motion along a line is sent with its velocity in every record with look-ahead. */
  lemma {:induction false} LineOfRun(c: Config, q: Queue, ops: seq<Op>, i: nat, a: real, v: real)
    requires c.Valid() && c.subMode.Pvt? && |q.pending| > 1 && Timed(q.pending + Added(ops))
    requires i < |Run(c, q, ops).1| && i !in Blind(c, q, ops, 0)
    requires q.prev.time == 0.0 && Straight(c, q.prev.target, q.pending + Added(ops), a, v)
    ensures var sent := VelocityOf(Run(c, q, ops).1[i]);
            Encodable(c.toVelocity(v)) <==> -1.0 / 512.0 <= sent - c.toVelocity(v) <= 1.0 / 512.0
  {
    hide Run, Blind, MakeRecord, Added, VelocityOf, Encodable, Window, CountBefore, Amended;
    SeeingRecord(c, q, ops, i);
    var whole, start := q.pending + Added(ops), Amended(q);
    AmendedStart(q);
    assert Paced(c, whole[i + 1 - 1], whole[i + 1]) && Paced(c, whole[1 - 1], whole[1]);
    assert i == 0 ==> OnLine(start.prev, a, v) && Paced(c, start.prev, whole[0]);
    LineVelocity(c, PointBefore(start, whole, i), whole[i], whole[i + 1],
                 Window(c, start.initialTime, CountBefore(c, start, whole, i), whole[i].time),
                 (start.counter + i) % 0x100, a, v);
  }

  // ---------------------------------------------------------------- time and counter

  lemma CounterWraps(n: nat)
    ensures (n % 0x100) % 0x80 == n % 0x80
  {
  }

  lemma {:induction false} FieldsOfRecord(c: Config, previous: Point, current: Point, next: Point, window: uint16,
                                          counter: byte)
    ensures var f := MakeRecord(c, previous, current, next, window, counter);
            TimeOf(c, f) == window % TimeField(c) && CounterOf(f) == counter % 0x80
  {
    hide MakeRecord, TimeOf, CounterOf;
    if c.subMode.Pt? {
      PtFields(c, previous, current, next, window, counter);
    } else {
      PvtFields(c, previous, current, next, window, counter);
    }
  }

  lemma {:induction false} RecordTimeAndCounter(c: Config, q: Queue, points: seq<Point>, i: nat)
    requires c.Valid() && i < |points|
    ensures TimeOf(c, RecordAt(c, q, points, i)) ==
            Window(c, q.initialTime, CountBefore(c, q, points, i), points[i].time) % TimeField(c)
    ensures CounterOf(RecordAt(c, q, points, i)) == (q.counter + i) % 0x80
  {
    hide MakeRecord, TimeOf, CounterOf, TimeField, Window, CountBefore, PointBefore;
    var window := Window(c, q.initialTime, CountBefore(c, q, points, i), points[i].time);
    var next := if i + 1 < |points| then points[i + 1] else NO_POINT;
    CounterWraps(q.counter + i);
    FieldsOfRecord(c, PointBefore(q, points, i), points[i], next, window, (q.counter + i) % 0x100);
  }

  lemma {:induction false} ExpectedTimeAndCounter(c: Config, q: Queue, points: seq<Point>, blind: set<nat>, i: nat)
    requires c.Valid() && i < |points|
    ensures TimeOf(c, Expected(c, q, points, blind, i)) ==
            Window(c, q.initialTime, CountBefore(c, q, points, i), points[i].time) % TimeField(c)
    ensures CounterOf(Expected(c, q, points, blind, i)) == (q.counter + i) % 0x80
  {
    hide TimeOf, CounterOf, RecordAt;
    RecordTimeAndCounter(c, q, if i in blind then points[..i + 1] else points, i);
  }

  /** The time a drive spends on the records. */
  function Duration(c: Config, fs: seq<Frame>): nat {
    if fs == [] then 0 else Duration(c, fs[..|fs| - 1]) + TimeOf(c, fs[|fs| - 1])
  }

  /** The segment that ends at point i is no longer than its field can say, and not
      negative. */
  predicate Fits(c: Config, q: Queue, points: seq<Point>, i: nat)
    requires c.Valid() && i < |points|
  {
    0 <= Samples(c, q.initialTime, points[i].time) - CountBefore(c, q, points, i) < TimeField(c)
  }

  ghost predicate HasTimes(c: Config, q: Queue, points: seq<Point>, out: seq<Frame>)
    requires c.Valid()
  {
    |out| <= |points| && forall i | 0 <= i < |out| ::
      TimeOf(c, out[i]) == Window(c, q.initialTime, CountBefore(c, q, points, i), points[i].time) % TimeField(c)
  }

  lemma WindowFits(c: Config, q: Queue, points: seq<Point>, i: nat)
    requires c.Valid() && c.fixedSamples == 0 && i < |points|
    ensures var window := Window(c, q.initialTime, CountBefore(c, q, points, i), points[i].time) % TimeField(c);
            Fits(c, q, points, i) <==>
            window == Samples(c, q.initialTime, points[i].time) - CountBefore(c, q, points, i)
  {
    hide Samples;
  }

  /** The windows of the records up to place n, for every n up to `count`, add up. */
  ghost predicate Telescopes(c: Config, q: Queue, points: seq<Point>, out: seq<Frame>, count: nat)
    requires c.Valid() && count <= |out| <= |points|
  {
    forall n | 0 <= n <= count :: Duration(c, out[..n]) == CountBefore(c, q, points, n) - q.sampleCount
  }

  ghost predicate AllFit(c: Config, q: Queue, points: seq<Point>, count: nat)
    requires c.Valid() && count <= |points|
  {
    forall i | 0 <= i < count :: Fits(c, q, points, i)
  }

  lemma DurationGrows(c: Config, out: seq<Frame>, n: nat)
    requires n < |out|
    ensures Duration(c, out[..n + 1]) == Duration(c, out[..n]) + TimeOf(c, out[n])
  {
    hide TimeOf;
    assert out[..n + 1][..n] == out[..n];
  }

  lemma OneMorePoint(c: Config, q: Queue, points: seq<Point>, out: seq<Frame>, n: nat)
    requires c.Valid() && n < |out| <= |points|
    ensures AllFit(c, q, points, n + 1) <==> AllFit(c, q, points, n) && Fits(c, q, points, n)
    ensures Telescopes(c, q, points, out, n + 1) <==>
            && Telescopes(c, q, points, out, n)
            && Duration(c, out[..n]) + TimeOf(c, out[n]) == CountBefore(c, q, points, n + 1) - q.sampleCount
    ensures Telescopes(c, q, points, out, n) ==> Duration(c, out[..n]) == CountBefore(c, q, points, n) - q.sampleCount
  {
    hide TimeOf, Fits, Duration, CountBefore;
    DurationGrows(c, out, n);
  }

  lemma {:induction false} WindowsTelescope(c: Config, q: Queue, points: seq<Point>, out: seq<Frame>, count: nat)
    requires c.Valid() && c.fixedSamples == 0 && HasTimes(c, q, points, out) && count <= |out|
    ensures AllFit(c, q, points, count) <==> Telescopes(c, q, points, out, count)
  {
    hide Samples, TimeOf, Fits, Duration, Telescopes, AllFit, Window, TimeField;
    if count == 0 {
      NothingYet(c, q, points, out);
    } else {
      WindowsTelescope(c, q, points, out, count - 1);
      WindowFits(c, q, points, count - 1);
      OneMorePoint(c, q, points, out, count - 1);
    }
  }

  lemma NothingYet(c: Config, q: Queue, points: seq<Point>, out: seq<Frame>)
    requires c.Valid() && |out| <= |points|
    ensures AllFit(c, q, points, 0) && Telescopes(c, q, points, out, 0)
  {
    assert out[..0] == [];
  }

  lemma TruncIsClose(x: real)
    ensures -1.0 < x - Trunc(x) as real < 1.0
    ensures x >= 0.0 ==> Trunc(x) == x.Floor
  {
  }

  lemma SamplesAreClose(c: Config, initialTime: real, time: real)
    requires c.Valid()
    ensures var error := (time - initialTime) - Samples(c, initialTime, time) as real * c.samplingPeriod;
            -c.samplingPeriod < error < c.samplingPeriod
  {
    var x := (time - initialTime) / c.samplingPeriod;
    TruncIsClose(x);
    Scaled(time - initialTime, c.samplingPeriod, Trunc(x) as real);
  }

  lemma Scaled(t: real, p: real, n: real)
    requires p > 0.0 && -1.0 < t / p - n < 1.0
    ensures -p < t - n * p < p
  {
    var e := t / p - n;
    assert t == (t / p) * p;
    assert t - n * p == e * p;
    assert e * p < p by { assert (1.0 - e) * p > 0.0; }
    assert -p < e * p by { assert (1.0 + e) * p > 0.0; }
  }

  /** No drift: in asynchronous mode, whatever the batches, the windows of the records of
      the first n points add up to the truncated time of the n-th, for every n, if and only
      if every segment fits its field. */
  lemma {:induction false} NoDrift(c: Config, q: Queue, ops: seq<Op>)
    requires c.Valid() && c.fixedSamples == 0 && |q.pending| > 1 && Timed(q.pending + Added(ops))
    ensures var whole, out := q.pending + Added(ops), Run(c, q, ops).1;
            && |out| <= |whole|
            && (AllFit(c, Amended(q), whole, |out|) <==> Telescopes(c, Amended(q), whole, out, |out|))
  {
    hide Run, Blind, Expected, TimeOf, CounterOf, Window, Telescopes, AllFit;
    BatchingIsInvisible(c, q, ops);
    var whole, start := q.pending + Added(ops), Amended(q);
    var out, blind := Run(c, q, ops).1, Blind(c, q, ops, 0);
    forall i | 0 <= i < |out|
      ensures TimeOf(c, out[i]) ==
              Window(c, start.initialTime, CountBefore(c, start, whole, i), whole[i].time) % TimeField(c)
    {
      ExpectedTimeAndCounter(c, start, whole, blind, i);
    }
    WindowsTelescope(c, start, whole, out, |out|);
  }

  /** The records of the first n points then take as long as the points themselves, to
      within one sampling period, for every n. */
  lemma ErrorStaysBelowOnePeriod(c: Config, q: Queue, ops: seq<Op>, n: nat)
    requires c.Valid() && c.fixedSamples == 0 && |q.pending| > 1 && Timed(q.pending + Added(ops))
    requires q.sampleCount == 0 && 0 < n <= |Run(c, q, ops).1| <= |q.pending + Added(ops)|
    requires AllFit(c, Amended(q), q.pending + Added(ops), |Run(c, q, ops).1|)
    ensures var whole := q.pending + Added(ops);
            var start := if q.prev.time == 0.0 then whole[0].time - (whole[1].time - whole[0].time) else q.initialTime;
            var error := (whole[n - 1].time - start) - Duration(c, Run(c, q, ops).1[..n]) as real * c.samplingPeriod;
            -c.samplingPeriod < error < c.samplingPeriod
  {
    hide Run, Duration, Samples, Added;
    NoDrift(c, q, ops);
    var whole, out := q.pending + Added(ops), Run(c, q, ops).1;
    assert Duration(c, out[..n]) == CountBefore(c, Amended(q), whole, n) - Amended(q).sampleCount;
    SamplesAreClose(c, Amended(q).initialTime, whole[n - 1].time);
  }

  /** The integrity counter steps by one from each record to the next, across batches. */
  lemma {:induction false} CounterSteps(c: Config, q: Queue, ops: seq<Op>, i: nat)
    requires c.Valid() && |q.pending| > 1 && Timed(q.pending + Added(ops))
    requires i < |Run(c, q, ops).1|
    ensures CounterOf(Run(c, q, ops).1[i]) == (q.counter + i) % 0x80
  {
    hide CounterOf, Run, Blind, Expected;
    BatchingIsInvisible(c, q, ops);
    ExpectedTimeAndCounter(c, Amended(q), q.pending + Added(ops), Blind(c, q, ops, 0), i);
  }

  // ---------------------------------------------------------------- the gate before the first batch

  /** The part of `TechnosoftIpos` that takes references in position direct mode, with a buffer
      or, in synchronous operation, without. */
  class PositionDirect {
    const buffer: InterpolatedPositionBuffer?
    var ipBufferEnabled: bool
    var ipBufferFilled: bool
    var ipMotionStarted: bool
    var synchronousCommandTarget: real
    /** Records handed to the third RPDO, in order. */
    var written: seq<Frame>

    constructor (buffer: InterpolatedPositionBuffer?)
      ensures this.buffer == buffer && written == []
      ensures !ipBufferEnabled && !ipBufferFilled && !ipMotionStarted
    {
      this.buffer := buffer;
      ipBufferEnabled, ipBufferFilled, ipMotionStarted, written := false, false, false, [];
    }

    /** Whether the first batch goes out once one more point is queued. */
    predicate GateOpens()
      reads this, buffer
    {
      buffer != null && ipBufferEnabled && !ipBufferFilled && !ipMotionStarted &&
      |buffer.pendingTargets| + 1 > buffer.config.BufferSize() + buffer.config.Offset()
    }

    /** `encoder` is the position the drive reports, `accepts` what becomes of each write.
        When the gate opens, a whole buffer goes out, as the start of a pass over all the
        queued points, whether or not some writes are refused; else the point is only queued.
        Without a buffer the reference is the target of the next synchronous command. */
    method SetPositionRaw(ref: real, now: real, encoder: real, accepts: nat -> bool) returns (ok: bool)
      requires buffer != null ==> buffer.config.Valid()
      modifies this, buffer
      ensures ipBufferEnabled == old(ipBufferEnabled) && ipMotionStarted == old(ipMotionStarted)
      ensures synchronousCommandTarget == if buffer == null then ref else old(synchronousCommandTarget)
      ensures !old(GateOpens()) ==> ok && written == old(written) && ipBufferFilled == old(ipBufferFilled)
      ensures buffer != null && !old(GateOpens()) ==>
                buffer.State() == old(buffer.State()).(pending := old(buffer.pendingTargets) + [Point(ref, now)])
      ensures old(GateOpens()) ==>
                var q := Queue(old(buffer.pendingTargets) + [Point(ref, now)], Point(encoder, 0.0), 0.0, 0,
                               old(buffer.integrityCounter));
                var n := buffer.config.BufferSize();
                && |q.pending| > n + buffer.config.Offset()
                && buffer.State() == Advanced(buffer.config, Amended(q), q.pending, n)
                && written == old(written) + Batch(buffer.config, Amended(q), n)
                && ok == (forall i | 0 <= i < n :: accepts(i)) && ipBufferFilled == ok
    {
      hide RecordAt, Advanced;
      ok := true;
      if buffer == null {
        synchronousCommandTarget := ref;
        return;
      }
      buffer.AddSetpoint(ref, now);
      if ipBufferEnabled && !ipBufferFilled && !ipMotionStarted && buffer.IsQueueReady() {
        buffer.SetInitial(encoder);
        var batch := buffer.PopBatch(true);
        var i := 0;
        while i < |batch|
          modifies `written
          invariant 0 <= i <= |batch|
          invariant written == old(written) + batch[..i]
          invariant ok == (forall j | 0 <= j < i :: accepts(j))
        {
          ok := ok && accepts(i);
          written := written + [batch[i]];
          i := i + 1;
        }
        ipBufferFilled := ok;
      }
    }
  }
}
