/** The queue of PT/PVT setpoints of a Technosoft drive: points are added one at a time,
    popped in batches and packed into 8-byte interpolation records (object 60C1h). */
module InterpolatedPosition {
  import opened Bytes

  type int32 = p: int | -0x8000_0000 <= p < 0x8000_0000

  /** A position target and the time at which it was registered. */
  datatype Point = Point(target: real, time: real)

  /** Stands for the absent next point, as in the source: its time is zero. */
  const NO_POINT := Point(0.0, 0.0)

  datatype SubMode = Pt | Pvt

  /** What never changes in a buffer. The unit conversions belong to the drive and are
      left abstract. */
  datatype Config = Config(
    subMode: SubMode,
    fixedSamples: uint16,        // zero in asynchronous mode
    samplingPeriod: real,
    toPosition: real -> int32,
    toVelocity: real -> real)
  {
    ghost predicate Valid() { samplingPeriod > 0.0 }

    function BufferSize(): nat { if subMode.Pt? then 9 else 7 }

    /** How many points a batch leaves in the queue as look-ahead. */
    function Offset(): nat { if subMode.Pt? then 0 else 1 }
  }

  const BUFFER_LOW: nat := 4

  /** The changing part of a buffer. */
  datatype Queue = Queue(
    pending: seq<Point>,
    prev: Point,
    initialTime: real,
    sampleCount: int,
    counter: byte)

  // ---------------------------------------------------------------- numbers

  /** Conversion of a floating-point number to an integer: towards zero. */
  function Trunc(x: real): int {
    if x >= 0.0 then x.Floor else -((-x).Floor)
  }

  /** `std::round`: to the nearest integer, halves away from zero. */
  function Round(x: real): int {
    if x >= 0.0 then (x + 0.5).Floor else -((0.5 - x).Floor)
  }

  /** A quotient; what a zero divisor yields is not modelled. */
  function Quotient(x: real, y: real): real {
    if y == 0.0 then 0.0 else x / y
  }

  /** Two's complement of 16 and 32 bits, in Dafny's Euclidean terms. */
  function Wrap16(x: int): uint16 { x % 0x1_0000 }

  function Wrap32(x: int): uint32 { x % 0x1_0000_0000 }

  function Signed(u: nat, half: nat): int { if u < half then u else u - 2 * half }

  // ---------------------------------------------------------------- fixed point

  /** Integer part (16 bits) and fraction (8 bits) of a velocity. */
  function EncodeFixedPoint(value: real): (uint16, byte) {
    var whole := Trunc(value);
    (Wrap16(whole), Round((value - whole as real) * 256.0) % 0x100)
  }

  function DecodeFixedPoint(integer: int, fractional: byte): real {
    var frac := fractional as real / 256.0;
    integer as real + if integer >= 0 then frac else -frac
  }

  function Abs(x: real): real { if x >= 0.0 then x else -x }

  /** The fraction of a value, without its sign, in 256ths. */
  function Fraction256(value: real): (r: nat)
    ensures r <= 0x100
    ensures -0.5 <= r as real - 256.0 * (Abs(value) - Abs(value).Floor as real) <= 0.5
  {
    (256.0 * (Abs(value) - Abs(value).Floor as real) + 0.5).Floor
  }

  /** The values that the encoding serves: an integer part of 16 bits, and a fraction that does
      not round up to one. As the sign of the fraction is lost, a negative value must besides
      round to an integer, or to a half unless the integer part is zero. */
  predicate Encodable(value: real) {
    -0x8001 as real < value < 0x8000 as real &&
    if value >= 0.0 then Fraction256(value) < 0x100
    else Fraction256(value) == 0 || (Fraction256(value) == 0x80 && value <= -1.0)
  }

  /** What the encoding yields, in terms of the value without its sign. */
  lemma EncodedParts(value: real)
    ensures var whole, r := Abs(value).Floor, Fraction256(value);
            EncodeFixedPoint(value) ==
            if value >= 0.0 then (Wrap16(whole), r % 0x100) else (Wrap16(-whole), (0x100 - r) % 0x100)
  {
    var whole := Abs(value).Floor;
    if value >= 0.0 {
      assert Trunc(value) == whole;
      assert (value - whole as real) * 256.0 == 256.0 * (value - whole as real);
    } else {
      assert Trunc(value) == -whole;
      var f := -value - whole as real;
      assert value - (-whole) as real == -f && (-f) * 256.0 == -(256.0 * f);
      assert 0.5 - (-(256.0 * f)) == 256.0 * f + 0.5;
    }
  }

  lemma Signed16(x: int)
    ensures -0x8000 <= x < 0x8000 ==> Signed(Wrap16(x), 0x8000) == x
    ensures x >= 0x8000 ==> Signed(Wrap16(x), 0x8000) < 0x8000
    ensures x < -0x8000 ==> Signed(Wrap16(x), 0x8000) >= x + 0x1_0000
  {
  }

  /** Two fractions, with the same and with opposite signs. */
  lemma FractionError(b: nat, r: nat, f: real)
    requires r <= 0x100 && -0.5 <= r as real - 256.0 * f <= 0.5
    requires b == (if r == 0x100 then 0 else r) || b == (if r == 0 || r == 0x100 then 0 else 0x100 - r)
    ensures b == r <==> -1.0 / 512.0 <= b as real / 256.0 - f <= 1.0 / 512.0
    ensures r == 0 <==> -1.0 / 512.0 <= b as real / 256.0 + f <= 1.0 / 512.0
  {
  }

  lemma PositiveRoundTrip(value: real)
    requires value >= 0.0
    ensures var (integer, fractional) := EncodeFixedPoint(value);
            var decoded := DecodeFixedPoint(Signed(integer, 0x8000), fractional);
            Encodable(value) <==> -1.0 / 512.0 <= decoded - value <= 1.0 / 512.0
  {
    hide EncodeFixedPoint, Fraction256, Wrap16, Signed;
    EncodedParts(value);
    var whole, r := value.Floor, Fraction256(value);
    Signed16(whole);
    FractionError(r % 0x100, r, value - whole as real);
  }

  lemma NegativeRoundTrip(value: real)
    requires value < 0.0
    ensures var (integer, fractional) := EncodeFixedPoint(value);
            var decoded := DecodeFixedPoint(Signed(integer, 0x8000), fractional);
            Encodable(value) <==> -1.0 / 512.0 <= decoded - value <= 1.0 / 512.0
  {
    hide EncodeFixedPoint, Fraction256, Wrap16, Signed;
    EncodedParts(value);
    var whole, r := (-value).Floor, Fraction256(value);
    Signed16(-whole);
    NegativeFraction(r);
    FractionError((0x100 - r) % 0x100, r, -value - whole as real);
  }

  /** A decoded velocity is off by at most half of the last bit, if and only if the value is one
      that the encoding serves. */
  lemma FixedPointRoundTrip(value: real)
    ensures var (integer, fractional) := EncodeFixedPoint(value);
            var decoded := DecodeFixedPoint(Signed(integer, 0x8000), fractional);
            Encodable(value) <==> -1.0 / 512.0 <= decoded - value <= 1.0 / 512.0
  {
    hide EncodeFixedPoint, DecodeFixedPoint, Signed, Encodable;
    if value >= 0.0 { PositiveRoundTrip(value); } else { NegativeRoundTrip(value); }
  }

  lemma NegativeFraction(r: nat)
    requires r <= 0x100
    ensures (0x100 - r) % 0x100 == if r == 0 || r == 0x100 then 0 else 0x100 - r
  {
  }

  /** A velocity that the encoding does not serve. */
  lemma NegativeVelocityIsLost()
    ensures !Encodable(-1.25)
    ensures var (integer, fractional) := EncodeFixedPoint(-1.25);
            DecodeFixedPoint(Signed(integer, 0x8000), fractional) == -1.75
  {
    assert (1.25).Floor == 1 && Fraction256(-1.25) == 0x40;
    EncodedParts(-1.25);
  }

  // ---------------------------------------------------------------- records

  /** Time of a point in samples since the start of the trajectory. */
  function Samples(c: Config, initialTime: real, time: real): int
    requires c.Valid()
  {
    Trunc((time - initialTime) / c.samplingPeriod)
  }

  /** Length of the segment that ends at `time`, as the code computes it: 16 bits. */
  function Window(c: Config, initialTime: real, sampleCount: int, time: real): uint16
    requires c.Valid()
  {
    if c.fixedSamples != 0 then c.fixedSamples
    else Wrap16(Samples(c, initialTime, time) - sampleCount)
  }

  function NextSampleCount(c: Config, initialTime: real, sampleCount: int, time: real): int
    requires c.Valid()
  {
    if c.fixedSamples != 0 then sampleCount else Samples(c, initialTime, time)
  }

  function MeanVelocity(c: Config, earliest: Point, latest: Point): real {
    var distance := latest.target - earliest.target;
    if c.fixedSamples != 0 then Quotient(distance, c.fixedSamples as real * c.samplingPeriod)
    else Quotient(distance, latest.time - earliest.time)
  }

  function Velocity(c: Config, previous: Point, current: Point, next: Point): real {
    c.toVelocity((MeanVelocity(c, previous, current) + MeanVelocity(c, current, next)) / 2.0)
  }

  /** The record of one point, given its neighbours, its window and the counter. */
  function MakeRecord(c: Config, previous: Point, current: Point, next: Point, window: uint16, counter: byte): Frame
  {
    var ic: byte := 2 * counter % 0x100;
    var p := Wrap32(c.toPosition(current.target));
    match c.subMode
    case Pt =>
      Encode32(p) + Encode16(window) + [0, ic]
    case Pvt =>
      var low, high := p % 0x1_0000, p / 0x1_0000 % 0x100;
      var (v, frac) := if next.time != 0.0 then EncodeFixedPoint(Velocity(c, previous, current, next)) else (0, 0);
      var tic := (window % 0x200 + 0x100 * ic) % 0x1_0000;
      Encode16(low) + [frac, high] + Encode16(v) + Encode16(tic)
  }

  // What a drive reads in a record.

  function PositionOf(c: Config, f: Frame): int {
    match c.subMode
    case Pt => Signed(Decode32(f[0..4]), 0x8000_0000)
    case Pvt => Signed(Decode16(f[0..2]) + 0x1_0000 * (f[3] as int), 0x80_0000)
  }

  function TimeOf(c: Config, f: Frame): nat {
    match c.subMode
    case Pt => Decode16(f[4..6])
    case Pvt => Decode16(f[6..8]) % 0x200
  }

  function VelocityOf(f: Frame): real {
    DecodeFixedPoint(Signed(Decode16(f[4..6]), 0x8000), f[2])
  }

  function CounterOf(f: Frame): nat { f[7] / 2 }

  /** Room in the time field of a record. */
  function TimeField(c: Config): nat { if c.subMode.Pt? then 0x1_0000 else 0x200 }

  function PositionHalfRange(c: Config): int { if c.subMode.Pt? then 0x8000_0000 else 0x80_0000 }

  /** A record gives back what was put into it, as far as its fields reach. */
  lemma {:induction false} RecordIsLossless(c: Config, previous: Point, current: Point, next: Point, window: uint16,
                                            counter: byte)
    ensures var f := MakeRecord(c, previous, current, next, window, counter);
            var p := c.toPosition(current.target) as int;
            && (PositionOf(c, f) == p <==> -PositionHalfRange(c) <= p < PositionHalfRange(c))
            && (TimeOf(c, f) == window <==> window < TimeField(c))
            && CounterOf(f) == counter % 0x80
            && (c.subMode.Pvt? && next.time != 0.0 ==>
                  var v := Velocity(c, previous, current, next);
                  Encodable(v) <==> -1.0 / 512.0 <= VelocityOf(f) - v <= 1.0 / 512.0)
  {
    hide MakeRecord, PositionOf, TimeOf, CounterOf, VelocityOf, Encodable, Velocity;
    match c.subMode
    case Pt =>
      PtFields(c, previous, current, next, window, counter);
    case Pvt =>
      PvtFields(c, previous, current, next, window, counter);
      if next.time != 0.0 { SentVelocity(c, previous, current, next, window, counter); }
  }

  lemma SentVelocity(c: Config, previous: Point, current: Point, next: Point, window: uint16, counter: byte)
    requires c.subMode.Pvt? && next.time != 0.0
    ensures var sent := VelocityOf(MakeRecord(c, previous, current, next, window, counter));
            var v := Velocity(c, previous, current, next);
            Encodable(v) <==> -1.0 / 512.0 <= sent - v <= 1.0 / 512.0
  {
    hide MakeRecord, EncodeFixedPoint, DecodeFixedPoint, Encodable, Velocity;
    PvtFields(c, previous, current, next, window, counter);
    FixedPointRoundTrip(Velocity(c, previous, current, next));
  }

  lemma PtFields(c: Config, previous: Point, current: Point, next: Point, window: uint16, counter: byte)
    requires c.subMode.Pt?
    ensures var f := MakeRecord(c, previous, current, next, window, counter);
            && PositionOf(c, f) == c.toPosition(current.target) && TimeOf(c, f) == window
            && CounterOf(f) == counter % 0x80 && f[6] == 0
  {
    var f := MakeRecord(c, previous, current, next, window, counter);
    var p := Wrap32(c.toPosition(current.target));
    var ic: byte := 2 * counter % 0x100;
    assert ic / 2 == counter % 0x80;
    assert f[0..4] == Encode32(p) && f[4..6] == Encode16(window);
    Decode32Encode32(p);
    Decode16Encode16(window);
  }

  /** The two bytes that share window and counter. */
  lemma TimeAndCounter(window: uint16, counter: byte)
    ensures var ic: byte := 2 * counter % 0x100;
            var tic := (window % 0x200 + 0x100 * ic) % 0x1_0000;
            tic % 0x200 == window % 0x200 && tic / 0x100 / 2 == counter % 0x80
  {
    var ic: byte := 2 * counter % 0x100;
    var t, k := window % 0x200, counter % 0x80;
    assert counter == if counter < 0x80 then k else k + 0x80;
    assert ic == 2 * k;
    SharedBytes(t, k);
  }

  lemma SharedBytes(t: nat, k: nat)
    requires t < 0x200 && k < 0x80
    ensures var tic := (t + 0x100 * (2 * k)) % 0x1_0000; tic % 0x200 == t && tic / 0x100 / 2 == k
  {
    var tic := t + 0x200 * k;
    assert tic < 0x1_0000;
    assert tic / 0x100 == 2 * k + t / 0x100;
  }

  /** The three bytes that hold the position. */
  lemma Position24(p: int)
    ensures var u := Wrap32(p);
            Signed(u % 0x1_0000 + 0x1_0000 * (u / 0x1_0000 % 0x100), 0x80_0000) == p <==> -0x80_0000 <= p < 0x80_0000
  {
    var u, q := Wrap32(p), p / 0x1_0000_0000;
    var low, a := u % 0x1_0000, u / 0x1_0000;
    var mid, high := a % 0x100, a / 0x100;
    var b := low + 0x1_0000 * mid;
    assert p == 0x100_0000 * (0x100 * q + high) + b;
    assert 0 <= b < 0x100_0000;
  }

  lemma {:induction false} PvtFields(c: Config, previous: Point, current: Point, next: Point, window: uint16,
                                     counter: byte)
    requires c.subMode.Pvt?
    ensures var f := MakeRecord(c, previous, current, next, window, counter);
            var p := c.toPosition(current.target) as int;
            && (PositionOf(c, f) == p <==> -0x80_0000 <= p < 0x80_0000)
            && TimeOf(c, f) == window % 0x200
            && CounterOf(f) == counter % 0x80
            && (next.time != 0.0 ==>
                  (Decode16(f[4..6]), f[2]) == EncodeFixedPoint(Velocity(c, previous, current, next)))
            && (next.time == 0.0 ==> VelocityOf(f) == 0.0)
  {
    var f := MakeRecord(c, previous, current, next, window, counter);
    var p := Wrap32(c.toPosition(current.target));
    var ic: byte := 2 * counter % 0x100;
    var tic := (window % 0x200 + 0x100 * ic) % 0x1_0000;
    TimeAndCounter(window, counter);
    Position24(c.toPosition(current.target));
    assert f[0..2] == Encode16(p % 0x1_0000) && f[6..8] == Encode16(tic);
    Decode16Encode16(p % 0x1_0000);
    Decode16Encode16(tic);
    if next.time != 0.0 {
      var v := EncodeFixedPoint(Velocity(c, previous, current, next)).0;
      assert f[4..6] == Encode16(v);
      Decode16Encode16(v);
    } else {
      assert f[4..6] == Encode16(0);
      Decode16Encode16(0);
    }
  }

  /** How long the segment between two points lasts. */
  predicate Lasts(c: Config, earliest: Point, latest: Point, time: real) {
    time == if c.fixedSamples != 0 then c.samplingPeriod * c.fixedSamples as real else latest.time - earliest.time
  }

  lemma MeanOver(c: Config, earliest: Point, latest: Point, time: real)
    requires Lasts(c, earliest, latest, time) && time != 0.0
    ensures MeanVelocity(c, earliest, latest) == (latest.target - earliest.target) / time
  {
    assert c.samplingPeriod * c.fixedSamples as real == c.fixedSamples as real * c.samplingPeriod;
  }

  lemma VelocityIsAverage(c: Config, previous: Point, current: Point, next: Point, before: real, after: real)
    requires MeanVelocity(c, previous, current) == before && MeanVelocity(c, current, next) == after
    ensures Velocity(c, previous, current, next) == c.toVelocity((before + after) / 2.0)
  {
    hide MeanVelocity;
  }

  /** The velocity of a record with look-ahead is the average of those before and after its
      point, within the accuracy of the encoding, if and only if that can be encoded. */
  lemma {:induction false} RecordVelocity(c: Config, previous: Point, current: Point, next: Point, window: uint16,
                                          counter: byte, before: real, after: real)
    requires c.subMode.Pvt? && next.time != 0.0 && before != 0.0 && after != 0.0
    requires Lasts(c, previous, current, before) && Lasts(c, current, next, after)
    ensures var sent := VelocityOf(MakeRecord(c, previous, current, next, window, counter));
            var v := c.toVelocity(
                       ((current.target - previous.target) / before + (next.target - current.target) / after) / 2.0);
            Encodable(v) <==> -1.0 / 512.0 <= sent - v <= 1.0 / 512.0
  {
    hide MakeRecord, VelocityOf, Encodable, MeanVelocity, Velocity, Lasts;
    SentVelocity(c, previous, current, next, window, counter);
    MeanOver(c, previous, current, before);
    MeanOver(c, current, next, after);
    VelocityIsAverage(c, previous, current, next, (current.target - previous.target) / before,
                      (next.target - current.target) / after);
  }

  /** The point lies on a line in time. */
  predicate OnLine(p: Point, a: real, v: real) { p.target == a + v * p.time }

  /** Times go forward, and at the pace of synchronous operation if there is one. */
  predicate Paced(c: Config, earliest: Point, latest: Point) {
    && earliest.time < latest.time
    && (c.fixedSamples != 0 ==> latest.time - earliest.time == c.samplingPeriod * c.fixedSamples as real)
  }

  lemma SlopeOfLine(p: Point, q: Point, a: real, v: real)
    requires OnLine(p, a, v) && OnLine(q, a, v) && p.time < q.time
    ensures (q.target - p.target) / (q.time - p.time) == v
  {
    var dt := q.time - p.time;
    assert q.target - p.target == v * dt;
  }

  /** Points on a line are sent with its slope. */
  lemma {:induction false} LineVelocity(c: Config, previous: Point, current: Point, next: Point, window: uint16,
                                        counter: byte, a: real, v: real)
    requires c.subMode.Pvt? && next.time != 0.0 && Paced(c, previous, current) && Paced(c, current, next)
    requires OnLine(previous, a, v) && OnLine(current, a, v) && OnLine(next, a, v)
    ensures var sent := VelocityOf(MakeRecord(c, previous, current, next, window, counter));
            Encodable(c.toVelocity(v)) <==> -1.0 / 512.0 <= sent - c.toVelocity(v) <= 1.0 / 512.0
  {
    hide MakeRecord, VelocityOf, Encodable, OnLine;
    SlopeOfLine(previous, current, a, v);
    SlopeOfLine(current, next, a, v);
    RecordVelocity(c, previous, current, next, window, counter, current.time - previous.time,
                   next.time - current.time);
  }

  // ---------------------------------------------------------------- batches, specified

  /** Number of points a call pops. */
  function BatchCount(c: Config, pending: nat, fullBuffer: bool): (n: nat)
    ensures n <= pending
    ensures pending > 0 ==> n > 0
  {
    if pending == 0 then 0
    else
      var size := if fullBuffer then c.BufferSize() else c.BufferSize() - BUFFER_LOW;
      Min(size, Max(pending - c.Offset(), c.Offset()))
  }

  /** A batch fits into the room that the drive has, 9 or 7 records at the start and all but the
      4 that are left when its buffer runs low; it is smaller only because the queue keeps one
      PVT point for the look-ahead, unless that is the last. */
  lemma BatchFillsRoom(c: Config, pending: nat, fullBuffer: bool)
    ensures var n, whole := BatchCount(c, pending, fullBuffer), if c.subMode.Pt? then 9 else 7;
            var room := if fullBuffer then whole else whole - 4;
            && n <= room
            && (n < room ==> n == if c.subMode.Pt? || pending <= 1 then pending else pending - 1)
            && (c.subMode.Pvt? && pending > 1 ==> n < pending)
  {
  }

  /** The call made before any motion replaces the dummy time of the initial point. */
  function Amended(q: Queue): Queue {
    if q.prev.time == 0.0 && |q.pending| > 1 then
      var start := q.pending[0].time - (q.pending[1].time - q.pending[0].time);
      q.(prev := q.prev.(time := start), initialTime := start)
    else q
  }

  /** The dummy point is placed one interval before the first one. */
  lemma AmendedStart(q: Queue)
    requires q.prev.time == 0.0 && |q.pending| > 1
    ensures var start := Amended(q);
            && start.prev.target == q.prev.target && start.initialTime == start.prev.time
            && q.pending[0].time - start.prev.time == q.pending[1].time - q.pending[0].time
            && (start.pending, start.sampleCount, start.counter) == (q.pending, q.sampleCount, q.counter)
  {
  }

  function PointBefore(q: Queue, points: seq<Point>, i: nat): Point
    requires i <= |points|
  {
    if i == 0 then q.prev else points[i - 1]
  }

  /** The sample count on reaching point i of `points`, which follow `q.prev`. */
  function CountBefore(c: Config, q: Queue, points: seq<Point>, i: nat): int
    requires c.Valid() && i <= |points|
  {
    if i == 0 || c.fixedSamples != 0 then q.sampleCount else Samples(c, q.initialTime, points[i - 1].time)
  }

  /** The record of point i of `points`, in a single pass that starts at `q`: it depends on
      the neighbours of the point and on its place, not on how the points are popped. */
  function RecordAt(c: Config, q: Queue, points: seq<Point>, i: nat): Frame
    requires c.Valid() && i < |points|
  {
    MakeRecord(c, PointBefore(q, points, i), points[i], if i + 1 < |points| then points[i + 1] else NO_POINT,
               Window(c, q.initialTime, CountBefore(c, q, points, i), points[i].time), (q.counter + i) % 0x100)
  }

  /** The queue once the first n of `points` have gone by and the others are pending. */
  function Advanced(c: Config, q: Queue, points: seq<Point>, n: nat): Queue
    requires c.Valid() && n <= |points|
  {
    Queue(points[n..], PointBefore(q, points, n), q.initialTime, CountBefore(c, q, points, n), (q.counter + n) % 0x100)
  }

  function Batch(c: Config, q: Queue, n: nat): (batch: seq<Frame>)
    requires c.Valid() && n <= |q.pending|
    ensures |batch| == n
  {
    seq(n, i requires 0 <= i < n => RecordAt(c, q, q.pending, i))
  }

  function PopBatchSpec(c: Config, q: Queue, fullBuffer: bool): (Queue, seq<Frame>)
    requires c.Valid()
  {
    var n := BatchCount(c, |q.pending|, fullBuffer);
    (Advanced(c, Amended(q), q.pending, n), Batch(c, Amended(q), n))
  }

  /** Where a pass is interrupted does not matter. */
  lemma {:induction false} Compose(c: Config, q: Queue, points: seq<Point>, i: nat, j: nat)
    requires c.Valid() && i + j <= |points|
    ensures Advanced(c, Advanced(c, q, points, i), points[i..], j) == Advanced(c, q, points, i + j)
    ensures i + j < |points| ==> RecordAt(c, Advanced(c, q, points, i), points[i..], j) == RecordAt(c, q, points, i + j)
  {
    assert points[i..][j..] == points[i + j..];
    assert ((q.counter + i) % 0x100 + j) % 0x100 == (q.counter + i + j) % 0x100;
  }

  lemma BatchGrows(c: Config, q: Queue, n: nat)
    requires c.Valid() && n < |q.pending|
    ensures Batch(c, q, n + 1) == Batch(c, q, n) + [RecordAt(c, q, q.pending, n)]
  {
  }

  // ---------------------------------------------------------------- the buffer

  class InterpolatedPositionBuffer {
    const config: Config
    var pendingTargets: seq<Point>
    var prevTarget: Point
    var initialTimestamp: real
    var sampleCount: int
    var integrityCounter: byte

    constructor (config: Config)
      ensures this.config == config
      ensures State() == Queue([], Point(0.0, 0.0), 0.0, 0, 0)
    {
      this.config := config;
      pendingTargets, prevTarget := [], Point(0.0, 0.0);
      initialTimestamp, sampleCount, integrityCounter := 0.0, 0, 0;
    }

    function State(): Queue
      reads this
    {
      Queue(pendingTargets, prevTarget, initialTimestamp, sampleCount, integrityCounter)
    }

    method SetInitial(initialTarget: real)
      modifies this
      ensures State() == old(State()).(prev := Point(initialTarget, 0.0), initialTime := 0.0, sampleCount := 0)
    {
      initialTimestamp := 0.0;
      prevTarget := Point(initialTarget, initialTimestamp);
      sampleCount := 0;
    }

    method AddSetpoint(target: real, now: real)
      modifies this
      ensures State() == old(State()).(pending := old(pendingTargets) + [Point(target, now)])
    {
      pendingTargets := pendingTargets + [Point(target, now)];
    }

    method ClearQueue()
      modifies this
      ensures State() == old(State()).(pending := [])
    {
      pendingTargets := [];
    }

    predicate IsQueueReady()
      reads this
    {
      |pendingTargets| > config.BufferSize() + config.Offset()
    }

    method GetSampledTime(currentTimestamp: real) returns (window: uint16)
      requires config.Valid()
      modifies this
      ensures window == Window(config, initialTimestamp, old(sampleCount), currentTimestamp)
      ensures State() == old(State()).(sampleCount :=
                NextSampleCount(config, initialTimestamp, old(sampleCount), currentTimestamp))
    {
      if config.fixedSamples != 0 { return config.fixedSamples; }
      var elapsed := currentTimestamp - initialTimestamp;
      var samplesSinceStart := Trunc(elapsed / config.samplingPeriod);
      window := Wrap16(samplesSinceStart - sampleCount);
      sampleCount := samplesSinceStart;
    }

    /** One batch is `PopBatchSpec` of the queue: the records of its first points, each
        made from its place in the queue alone. */
    method PopBatch(fullBuffer: bool) returns (batch: seq<Frame>)
      requires config.Valid()
      modifies this
      ensures (State(), batch) == PopBatchSpec(config, old(State()), fullBuffer)
    {
      batch := [];
      if pendingTargets == [] { return; }
      if prevTarget.time == 0.0 && |pendingTargets| > 1 {
        var diff := pendingTargets[1].time - pendingTargets[0].time;
        initialTimestamp := pendingTargets[0].time - diff;
        prevTarget := prevTarget.(time := initialTimestamp);
      }
      var batchSize := if fullBuffer then config.BufferSize() else config.BufferSize() - BUFFER_LOW;
      var pending := Max(|pendingTargets| - config.Offset(), config.Offset());
      batch := GenerateN(Min(batchSize, pending));
    }

    /** `std::generate_n` over `PopOne`. */
    method GenerateN(count: nat) returns (batch: seq<Frame>)
      requires config.Valid() && count <= |pendingTargets|
      modifies this
      ensures batch == Batch(config, old(State()), count)
      ensures State() == Advanced(config, old(State()), old(pendingTargets), count)
    {
      ghost var q, points := State(), pendingTargets;
      batch := [];
      var i := 0;
      while i < count
        invariant 0 <= i <= count <= |points|
        invariant batch == Batch(config, q, i)
        invariant State() == Advanced(config, q, points, i)
      {
        var setpoint := PopOne();
        Compose(config, q, points, i, 0);
        Compose(config, q, points, i, 1);
        BatchGrows(config, q, i);
        batch := batch + [setpoint];
        i := i + 1;
      }
    }

    /** The generator of a batch. */
    method PopOne() returns (setpoint: Frame)
      requires config.Valid() && pendingTargets != []
      modifies this
      ensures setpoint == RecordAt(config, old(State()), old(pendingTargets), 0)
      ensures State() == Advanced(config, old(State()), old(pendingTargets), 1)
    {
      hide MakeRecord;
      var currTarget := pendingTargets[0];
      pendingTargets := pendingTargets[1..];
      var nextTarget := if pendingTargets != [] then pendingTargets[0] else NO_POINT;
      var window := GetSampledTime(currTarget.time);
      setpoint := MakeRecord(config, prevTarget, currTarget, nextTarget, window, integrityCounter);
      prevTarget := currTarget;
      integrityCounter := (integrityCounter + 1) % 0x100;
    }
  }
}
