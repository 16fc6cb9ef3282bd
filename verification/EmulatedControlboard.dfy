/** The emulated joint controller: joints move at constant speed between the ticks of a
    periodic thread, which stops them at their targets and limits. Real arithmetic. */
module EmulatedControlboard {

  datatype Status = NotControlling | PositionMove | VelocityMove

  datatype Joint = Joint(
    encRaw: real,
    velRaw: real,
    status: Status,
    target: real,
    // configuration
    tol: real,
    minLimit: real,
    maxLimit: real,
    refSpeed: real,
    encRawExposed: real,
    velRawExposed: real)

  function Abs(x: real): real { if x >= 0.0 then x else -x }

  /** A joint whose positions and speeds can be computed. */
  predicate WellFormed(j: Joint) { j.encRawExposed != 0.0 && j.refSpeed != 0.0 }

  function Exposed(j: Joint): real
    requires WellFormed(j)
  {
    j.encRaw / j.encRawExposed
  }

  function Stopped(j: Joint): Joint { j.(velRaw := 0.0, status := NotControlling) }

  /** Whether the joint goes on, seen at a position. */
  function Checked(j: Joint, x: real): Joint {
    if j.status == NotControlling then j
    else if x > j.maxLimit && j.velRaw > 0.0 then Stopped(j)
    else if x < j.minLimit && j.velRaw < 0.0 then Stopped(j)
    else if j.status == PositionMove && j.velRaw > 0.0 && x > j.target - j.tol then Stopped(j)
    else if j.status == PositionMove && j.velRaw < 0.0 && x < j.target + j.tol then Stopped(j)
    else j
  }

  /** One tick. The decisions are taken on the position before the tick, while the joint has
      already moved on. */
  function Tick(j: Joint, dt: real): Joint
    requires WellFormed(j)
  {
    Checked(j, Exposed(j)).(encRaw := j.encRaw + j.velRaw * dt)
  }

  function Travel(j: Joint, dts: seq<real>): Joint
    requires WellFormed(j)
    decreases |dts|
  {
    if dts == [] then j else Travel(Tick(j, dts[0]), dts[1..])
  }

  /** The move of a single joint, at its reference speed. */
  function Moved(j: Joint, ref: real): Joint
    requires WellFormed(j)
  {
    var x := Exposed(j);
    if Abs(ref - x) < j.tol then Stopped(j.(target := ref))
    else if ref > x then j.(target := ref, velRaw := j.refSpeed * j.velRawExposed, status := PositionMove)
    else j.(target := ref, velRaw := -(j.refSpeed * j.velRawExposed), status := PositionMove)
  }

  /** The move of a single joint at a given speed. */
  function Driven(j: Joint, speed: real): Joint {
    j.(velRaw := speed * j.velRawExposed, status := VelocityMove)
  }

  /** How long a joint takes at its reference speed. */
  function MoveTime(j: Joint, ref: real): real
    requires WellFormed(j)
  {
    Abs((ref - Exposed(j)) / j.refSpeed)
  }

  /** The longest of them. */
  function MaxTime(joints: seq<Joint>, refs: seq<real>): (t: real)
    requires |joints| == |refs| && forall i | 0 <= i < |joints| :: WellFormed(joints[i])
    ensures t >= 0.0 && forall i | 0 <= i < |joints| :: MoveTime(joints[i], refs[i]) <= t
    ensures t == 0.0 || exists i | 0 <= i < |joints| :: t == MoveTime(joints[i], refs[i])
    decreases |joints|
  {
    if joints == [] then 0.0
    else
      var n := |joints| - 1;
      var t := MaxTime(joints[..n], refs[..n]);
      assert forall i | 0 <= i < n :: joints[..n][i] == joints[i] && refs[..n][i] == refs[i];
      if MoveTime(joints[n], refs[n]) > t then MoveTime(joints[n], refs[n]) else t
  }

  /** The move of a joint along with others that take `maxTime`; if they take no time, there is
      nowhere to go, and the speed that is not a number is replaced by zero. */
  function MovedAlong(j: Joint, ref: real, maxTime: real): Joint
    requires WellFormed(j)
  {
    var x := Exposed(j);
    var vel := if maxTime == 0.0 then 0.0 else (ref - x) / maxTime * j.velRawExposed;
    var moving := j.(target := ref, velRaw := vel, status := PositionMove);
    if Abs(ref - x) < j.tol then Stopped(moving) else moving
  }

  // ---------------------------------------------------------------- arithmetic

  lemma MulOrder(a: real, b: real, c: real)
    requires a >= 0.0 && b <= c
    ensures a * b <= a * c
  {
  }

  lemma DivAdd(a: real, b: real, dt: real, r: real)
    requires r != 0.0
    ensures (a + b * dt) / r == a / r + b / r * dt
  {
    var q := b / r;
    assert b == q * r;
    assert b * dt == q * dt * r;
    assert (a + q * dt * r) / r == a / r + q * dt;
  }

  // ---------------------------------------------------------------- one joint moves

  /** The speed in the units of positions. */
  function Speed(j: Joint): real
    requires WellFormed(j)
  {
    j.velRaw / j.encRawExposed
  }

  /** Equal, positive ratios; positive speed and tolerance. */
  predicate Plain(j: Joint) {
    j.encRawExposed == j.velRawExposed > 0.0 && j.refSpeed > 0.0 && j.tol > 0.0
  }

  lemma TickMoves(j: Joint, dt: real)
    requires WellFormed(j)
    ensures WellFormed(Tick(j, dt)) && Exposed(Tick(j, dt)) == Exposed(j) + Speed(j) * dt
  {
    DivAdd(j.encRaw, j.velRaw, dt, j.encRawExposed);
  }

  lemma SignOfSpeed(j: Joint)
    requires Plain(j)
    ensures Speed(j) > 0.0 <==> j.velRaw > 0.0
    ensures Speed(j) < 0.0 <==> j.velRaw < 0.0
  {
    var q := j.velRaw / j.encRawExposed;
    assert j.velRaw == q * j.encRawExposed;
  }

  /** Tick lengths between `d` and `D`. */
  predicate Between(dts: seq<real>, d: real, D: real) {
    forall i | 0 <= i < |dts| :: d <= dts[i] <= D
  }

  function Times(n: nat, step: real): real { n as real * step }

  /** The course of a joint that moves up at speed `v` from where `from` is, by `least` to `most`
      each tick, `n` ticks so far. While it moves, it is at most one tick past the points where
      it should stop, and at least `n` ticks ahead; once it has stopped, it is past one of them,
      by two ticks at most. Only a position move stops at a target. */
  predicate OnCourse(j: Joint, from: Joint, v: real, n: nat, least: real, most: real)
    requires WellFormed(from)
  {
    && WellFormed(j) && Plain(j)
    && j == from.(encRaw := j.encRaw, velRaw := j.velRaw, status := j.status)
    && var x, x0, edge, moves := Exposed(j), Exposed(from), from.target - from.tol, from.status.PositionMove?;
       && x0 <= x
       && if j.status == NotControlling then
            && j.velRaw == 0.0
            && (x > from.maxLimit || (moves && x > edge))
            && (moves ==> x <= edge + 2.0 * most)
            && (x0 <= from.maxLimit ==> x <= from.maxLimit + 2.0 * most)
          else
            && j.status == from.status && Speed(j) == v
            && (moves ==> x <= edge + most)
            && (x0 <= from.maxLimit ==> x <= from.maxLimit + most)
            && x >= x0 + Times(n, least)
            && (n > 0 ==> x0 + Times(n - 1, least) <= from.maxLimit && (moves ==> x0 + Times(n - 1, least) <= edge))
  }

  lemma NoSpeed(j: Joint)
    requires WellFormed(j) && j.velRaw == 0.0
    ensures Speed(j) == 0.0
  {
  }

  lemma OneMore(n: nat, step: real)
    ensures Times(n + 1, step) == Times(n, step) + step
  {
    assert (n + 1) as real == n as real + 1.0;
  }

  lemma SpeedOfTick(j: Joint, dt: real)
    requires WellFormed(j)
    ensures Tick(j, dt).velRaw == j.velRaw ==> Speed(Tick(j, dt)) == Speed(j)
  {
  }

  lemma TickStaysOnCourse(j: Joint, from: Joint, v: real, n: nat, least: real, most: real, dt: real)
    requires WellFormed(from) && OnCourse(j, from, v, n, least, most) && v > 0.0 && 0.0 < least <= v * dt <= most
    ensures OnCourse(Tick(j, dt), from, v, n + 1, least, most)
  {
    hide Exposed, Speed, Times;
    TickMoves(j, dt);
    SignOfSpeed(j);
    if j.status == NotControlling {
      NoSpeed(j);
    } else {
      OneMore(n, least);
      SpeedOfTick(j, dt);
      assert Exposed(Tick(j, dt)) == Exposed(j) + v * dt;
      assert Tick(j, dt).status == NotControlling || Speed(Tick(j, dt)) == v;
    }
  }

  lemma {:induction false} TravelStaysOnCourse(j: Joint, from: Joint, v: real, n: nat, d: real, D: real, dts: seq<real>)
    requires WellFormed(from) && OnCourse(j, from, v, n, v * d, v * D) && v > 0.0 && 0.0 < d && Between(dts, d, D)
    ensures OnCourse(Travel(j, dts), from, v, n + |dts|, v * d, v * D)
    decreases |dts|
  {
    hide OnCourse, Tick;
    if dts != [] {
      OnCourseIsWellFormed(j, from, v, n, v * d, v * D);
      MulOrder(v, d, dts[0]);
      MulOrder(v, dts[0], D);
      TickStaysOnCourse(j, from, v, n, v * d, v * D, dts[0]);
      TravelStaysOnCourse(Tick(j, dts[0]), from, v, n + 1, d, D, dts[1..]);
    }
  }

  lemma OnCourseIsWellFormed(j: Joint, from: Joint, v: real, n: nat, least: real, most: real)
    requires WellFormed(from) && OnCourse(j, from, v, n, least, most)
    ensures WellFormed(j)
  {
  }

  // ---------------------------------------------------------------- the mirror image

  /** The same joint, with its axis turned around. */
  function Mirror(j: Joint): Joint {
    j.(encRaw := -j.encRaw, velRaw := -j.velRaw, target := -j.target, minLimit := -j.maxLimit, maxLimit := -j.minLimit)
  }

  lemma MirrorExposed(j: Joint)
    requires WellFormed(j)
    ensures WellFormed(Mirror(j)) && Exposed(Mirror(j)) == -Exposed(j) && Mirror(Mirror(j)) == j
    ensures Speed(Mirror(j)) == -Speed(j)
  {
  }

  lemma MirrorTick(j: Joint, dt: real)
    requires WellFormed(j)
    ensures WellFormed(Mirror(j)) && Tick(Mirror(j), dt) == Mirror(Tick(j, dt))
  {
    hide Exposed;
    MirrorExposed(j);
    assert (-j.velRaw) * dt == -(j.velRaw * dt);
  }

  lemma {:induction false} MirrorTravel(j: Joint, dts: seq<real>)
    requires WellFormed(j)
    ensures WellFormed(Mirror(j)) && Travel(Mirror(j), dts) == Mirror(Travel(j, dts))
    decreases |dts|
  {
    hide Tick, Mirror;
    MirrorExposed(j);
    if dts != [] {
      MirrorTick(j, dts[0]);
      TickMoves(j, dts[0]);
      MirrorTravel(Tick(j, dts[0]), dts[1..]);
    }
  }

  // ---------------------------------------------------------------- motion ends

  /** A joint that moves at a constant speed, on the way to its target if that is what it is to
      reach. */
  predicate Launched(j: Joint) {
    && Plain(j) && j.status != NotControlling && Speed(j) != 0.0
    && (j.status.PositionMove? ==>
          if Speed(j) > 0.0 then Exposed(j) <= j.target - j.tol else Exposed(j) >= j.target + j.tol)
  }

  /** How far the joint has got, in the direction of the move it was launched on. */
  function Progress(from: Joint, j: Joint): real
    requires WellFormed(from) && WellFormed(j)
  {
    if Speed(from) > 0.0 then Exposed(j) - Exposed(from) else Exposed(from) - Exposed(j)
  }

  /** How far it is beyond the near edge of its tolerance band. */
  function Beyond(from: Joint, j: Joint): real
    requires WellFormed(from) && WellFormed(j)
  {
    if Speed(from) > 0.0 then Exposed(j) - (from.target - from.tol) else from.target + from.tol - Exposed(j)
  }

  /** How far it is beyond the joint limit ahead. */
  function PastLimit(from: Joint, j: Joint): real
    requires WellFormed(from) && WellFormed(j)
  {
    if Speed(from) > 0.0 then Exposed(j) - from.maxLimit else from.minLimit - Exposed(j)
  }

  /** How far the joint gets in a time. */
  function Covered(from: Joint, dt: real): real
    requires WellFormed(from)
  {
    Abs(Speed(from)) * dt
  }

  /** What holds of a launched joint after any number of ticks that cover `least` to `most`: it
      has not moved back; it is at most two ticks beyond the near edge of its tolerance band,
      and beyond the limit ahead if it started inside of it; it has not stopped before one of
      the two, and goes on at its speed until then; and it has stopped once the ticks suffice to
      get to either of them. Only a position move has a tolerance band. */
  predicate Bounded(from: Joint, j: Joint, ticks: nat, least: real, most: real)
    requires WellFormed(from)
  {
    var moves := from.status.PositionMove?;
    && WellFormed(j)
    && Progress(from, j) >= 0.0
    && (moves ==> Beyond(from, j) <= 2.0 * most)
    && (PastLimit(from, from) <= 0.0 ==> PastLimit(from, j) <= 2.0 * most)
    && (j.status == NotControlling ==>
          j.velRaw == 0.0 && (PastLimit(from, j) > 0.0 || (moves && Beyond(from, j) > 0.0)))
    && (j.status != NotControlling ==> j.status == from.status && Speed(j) == Speed(from))
    && (ticks > 0 && Times(ticks - 1, least) > -PastLimit(from, from) ==> j.status == NotControlling)
    && (ticks > 0 && moves && Times(ticks - 1, least) > -Beyond(from, from) ==> j.status == NotControlling)
  }

  lemma UpIsBounded(from: Joint, j: Joint, n: nat, v: real, least: real, most: real)
    requires WellFormed(from) && Launched(from) && v == Speed(from) > 0.0 && 0.0 <= most
    requires OnCourse(j, from, v, n, least, most)
    ensures Bounded(from, j, n, least, most)
  {
    hide Exposed, Speed, Times;
  }

  lemma DownIsBounded(from: Joint, j: Joint, n: nat, least: real, most: real)
    requires WellFormed(from) && Launched(from) && Speed(from) < 0.0 && WellFormed(Mirror(from))
    requires Bounded(Mirror(from), Mirror(j), n, least, most)
    ensures Bounded(from, j, n, least, most)
  {
    hide Exposed, Speed, Times;
    MirrorWellFormed(j);
    MirrorExposed(j);
    MirrorExposed(from);
  }

  lemma MirrorWellFormed(j: Joint)
    ensures WellFormed(Mirror(j)) ==> WellFormed(j)
  {
  }

  lemma MirrorLaunched(j: Joint)
    requires Launched(j)
    ensures WellFormed(Mirror(j)) && Launched(Mirror(j)) && Speed(Mirror(j)) == -Speed(j)
  {
    MirrorExposed(j);
  }

  lemma StartsOnCourse(j: Joint, least: real, most: real)
    requires Launched(j) && Speed(j) > 0.0 && 0.0 <= most
    ensures OnCourse(j, j, Speed(j), 0, least, most)
  {
  }

  lemma {:induction false} UpEnds(j: Joint, dts: seq<real>, d: real, D: real)
    requires Launched(j) && Speed(j) > 0.0 && 0.0 < d <= D && Between(dts, d, D)
    ensures Bounded(j, Travel(j, dts), |dts|, Covered(j, d), Covered(j, D))
  {
    hide OnCourse, Launched, Travel, Bounded, Exposed, Speed;
    LaunchedIsWellFormed(j);
    var v := Speed(j);
    MulOrder(v, 0.0, D);
    assert v * 0.0 == 0.0;
    StartsOnCourse(j, v * d, v * D);
    TravelStaysOnCourse(j, j, v, 0, d, D, dts);
    assert Covered(j, d) == v * d && Covered(j, D) == v * D;
    UpIsBounded(j, Travel(j, dts), |dts|, v, v * d, v * D);
  }

  lemma LaunchedIsWellFormed(j: Joint)
    requires Launched(j)
    ensures WellFormed(j)
  {
  }

  /** Motion ends, near the target or a limit: after every sequence of ticks. */
  lemma MotionEnds(j: Joint, dts: seq<real>, d: real, D: real)
    requires Launched(j) && 0.0 < d <= D && Between(dts, d, D)
    ensures Bounded(j, Travel(j, dts), |dts|, Covered(j, d), Covered(j, D))
  {
    hide Travel, Bounded, Exposed, Speed, Mirror;
    if Speed(j) > 0.0 {
      UpEnds(j, dts, d, D);
    } else {
      MirrorLaunched(j);
      UpEnds(Mirror(j), dts, d, D);
      MirrorTravel(j, dts);
      assert Covered(Mirror(j), d) == Covered(j, d) && Covered(Mirror(j), D) == Covered(j, D);
      DownIsBounded(j, Travel(j, dts), |dts|, Covered(j, d), Covered(j, D));
    }
  }

  lemma SpeedFromRaw(j: Joint, v: real)
    requires Plain(j) && j.velRaw == v * j.velRawExposed
    ensures Speed(j) == v
  {
    assert v * j.velRawExposed / j.velRawExposed == v;
  }

  /** The move of a single joint launches it at its reference speed, unless it is there. */
  lemma MovedIsLaunched(j: Joint, ref: real)
    requires Plain(j)
    ensures Moved(j, ref).target == ref && Exposed(Moved(j, ref)) == Exposed(j)
    ensures if Abs(ref - Exposed(j)) < j.tol then Moved(j, ref).status == NotControlling && Moved(j, ref).velRaw == 0.0
            else && Launched(Moved(j, ref)) && Moved(j, ref).status.PositionMove?
                 && Abs(Speed(Moved(j, ref))) == j.refSpeed
  {
    hide Speed;
    assert Exposed(Moved(j, ref)) == Exposed(j);
    hide Exposed;
    if Abs(ref - Exposed(j)) >= j.tol {
      if ref > Exposed(j) {
        SpeedFromRaw(Moved(j, ref), j.refSpeed);
      } else {
        assert -(j.refSpeed * j.velRawExposed) == -j.refSpeed * j.velRawExposed;
        SpeedFromRaw(Moved(j, ref), -j.refSpeed);
      }
    }
  }

  // ---------------------------------------------------------------- a coordinated move

  lemma QuotientSigns(a: real, t: real)
    requires t > 0.0
    ensures a > 0.0 <==> a / t > 0.0
    ensures a < 0.0 <==> a / t < 0.0
    ensures Abs(a / t) == Abs(a) / t && Abs(a / t) * t == Abs(a)
  {
    assert a == a / t * t;
  }

  lemma SpeedWithin(dist: real, speed: real, t: real)
    requires t > 0.0 && speed > 0.0 && Abs(dist / speed) <= t
    ensures Abs(dist / t) <= speed
  {
    QuotientSigns(dist, speed);
    QuotientSigns(dist, t);
    var q := Abs(dist / speed);
    assert Abs(dist) == q * speed;
    assert q * speed <= t * speed;
  }

  /** In a coordinated move each joint that is not there yet is launched within its reference
      speed, and all would arrive at the same time. */
  lemma MovedAlongIsLaunched(j: Joint, ref: real, maxTime: real)
    requires Plain(j) && MoveTime(j, ref) <= maxTime
    ensures var m := MovedAlong(j, ref, maxTime);
            && m.target == ref && Exposed(m) == Exposed(j)
            && if Abs(ref - Exposed(j)) < j.tol then m.status == NotControlling && m.velRaw == 0.0
               else && maxTime > 0.0 && Launched(m) && m.status.PositionMove? && Abs(Speed(m)) <= j.refSpeed
                    && Covered(m, maxTime) == Abs(ref - Exposed(j))
  {
    hide Speed;
    var m := MovedAlong(j, ref, maxTime);
    var dist := ref - Exposed(j);
    assert Exposed(m) == Exposed(j);
    hide Exposed;
    if Abs(dist) >= j.tol {
      QuotientSigns(dist, j.refSpeed);
      assert maxTime > 0.0;
      QuotientSigns(dist, maxTime);
      SpeedWithin(dist, j.refSpeed, maxTime);
      SpeedFromRaw(m, dist / maxTime);
    }
  }

  // ---------------------------------------------------------------- whole moves

  /** A joint without speed stays where it is, whatever its status. */
  lemma {:induction false} StandsStill(j: Joint, dts: seq<real>)
    requires WellFormed(j) && j.velRaw == 0.0
    ensures Travel(j, dts) == j
    decreases |dts|
  {
    if dts != [] {
      assert 0.0 * dts[0] == 0.0;
      assert Tick(j, dts[0]) == j;
      StandsStill(j, dts[1..]);
    }
  }

  /** How many ticks suffice to cover a distance. */
  function TicksFor(distance: real, least: real): int
    requires least > 0.0
  {
    (distance / least).Floor + 2
  }

  lemma QuotientBelow(distance: real, least: real, n: nat)
    requires least > 0.0 && distance / least < n as real
    ensures distance < n as real * least
  {
    var q, m := distance / least, n as real;
    assert distance == q * least;
    LessTimes(q, m, least);
  }

  lemma LessTimes(a: real, b: real, c: real)
    requires a < b && c > 0.0
    ensures a * c < b * c
  {
    PositiveProduct(b - a, c);
    assert (b - a) * c == b * c - a * c;
  }

  lemma PositiveProduct(a: real, b: real)
    requires a > 0.0 && b > 0.0
    ensures a * b > 0.0
  {
  }

  lemma TicksSuffice(distance: real, least: real, ticks: nat)
    requires least > 0.0 && ticks >= TicksFor(distance, least) && distance >= 0.0
    ensures ticks > 0 && Times(ticks - 1, least) > distance
  {
    var q := distance / least;
    QuotientIsNotNegative(distance, least);
    assert q < (q.Floor + 1) as real;
    QuotientBelow(distance, least, ticks - 1);
  }

  lemma QuotientIsNotNegative(a: real, b: real)
    requires a >= 0.0 && b > 0.0
    ensures a / b >= 0.0
  {
    QuotientSigns(a, b);
  }

  /** The outcome of a position move, after any ticks of `d` to `D`. */
  predicate Outcome(from: Joint, end: Joint, ticks: nat, enough: int, most: real)
    requires WellFormed(from)
  {
    && WellFormed(end)
    && Beyond(from, from) <= Beyond(from, end) <= 2.0 * most
    && (PastLimit(from, from) <= 0.0 ==> PastLimit(from, end) <= 2.0 * most)
    && (end.status == NotControlling ==> end.velRaw == 0.0 && (Beyond(from, end) > 0.0 || PastLimit(from, end) > 0.0))
    && (end.status != NotControlling ==> Speed(end) == Speed(from))
    && (ticks >= enough ==> end.status == NotControlling)
  }

  lemma BoundedOutcome(from: Joint, end: Joint, ticks: nat, enough: int, least: real, most: real)
    requires WellFormed(from) && from.status.PositionMove? && Bounded(from, end, ticks, least, most)
    requires ticks >= enough ==> ticks > 0 && Times(ticks - 1, least) > -Beyond(from, from)
    ensures Outcome(from, end, ticks, enough, most)
  {
    hide Times, Speed, Exposed;
  }

  lemma DistanceAhead(j: Joint)
    requires Launched(j) && j.status.PositionMove?
    ensures -Beyond(j, j) == Abs(j.target - Exposed(j)) - j.tol >= 0.0
  {
  }

  /** A position move stops after boundedly many ticks, past the near edge of its tolerance band
      by at most what two ticks cover unless a limit stopped it, and past a limit that it started
      inside of by no more than that. */
  lemma {:induction false} PositionMoveEnds(j: Joint, ref: real, dts: seq<real>, d: real, D: real)
    requires Plain(j) && 0.0 < d <= D && Between(dts, d, D)
    ensures var m, end := Moved(j, ref), Travel(Moved(j, ref), dts);
            var distance := Abs(ref - Exposed(j)) - j.tol;
            if distance < 0.0 then end == m && m.status == NotControlling && Exposed(m) == Exposed(j)
            else j.refSpeed * d > 0.0 && Outcome(m, end, |dts|, TicksFor(distance, j.refSpeed * d), j.refSpeed * D)
  {
    hide Travel, Exposed, Speed, Bounded, Outcome, TicksFor, Launched, Moved;
    MovedIsLaunched(j, ref);
    var m := Moved(j, ref);
    MovedKeeps(j, ref);
    if Abs(ref - Exposed(j)) < j.tol {
      StandsStill(m, dts);
    } else {
      MotionEnds(m, dts, d, D);
      DistanceAhead(m);
      PositiveProduct(j.refSpeed, d);
      var least, distance := j.refSpeed * d, Abs(ref - Exposed(j)) - j.tol;
      assert Covered(m, d) == least && Covered(m, D) == j.refSpeed * D;
      if |dts| >= TicksFor(distance, least) { TicksSuffice(distance, least, |dts|); }
      BoundedOutcome(m, Travel(m, dts), |dts|, TicksFor(distance, least), least, j.refSpeed * D);
    }
  }

  lemma MovedKeeps(j: Joint, ref: real)
    requires Plain(j)
    ensures WellFormed(Moved(j, ref)) && Moved(j, ref).tol == j.tol
  {
  }

  lemma MovedAlongKeeps(j: Joint, ref: real, maxTime: real)
    requires Plain(j)
    ensures WellFormed(MovedAlong(j, ref, maxTime)) && MovedAlong(j, ref, maxTime).tol == j.tol
  {
  }

  /** Ticks that last longer than the nominal time cover more than the distance. */
  lemma TimeSuffices(m: Joint, d: real, maxTime: real, enough: int, ticks: nat)
    requires WellFormed(m) && 0.0 < d && 1 <= enough <= ticks && (enough - 1) as real * d >= maxTime
    ensures Times(ticks - 1, Covered(m, d)) >= Covered(m, maxTime)
  {
    hide Speed;
    var s, n := Abs(Speed(m)), (ticks - 1) as real;
    MulOrder(d, (enough - 1) as real, n);
    MulOrder(s, maxTime, n * d);
    assert n * (s * d) == s * (n * d);
  }

  lemma CoveredWithin(m: Joint, speed: real, D: real)
    requires WellFormed(m) && Abs(Speed(m)) <= speed && D > 0.0
    ensures Covered(m, D) <= speed * D
  {
    hide Speed;
    MulOrder(D, Abs(Speed(m)), speed);
  }

  /** In a coordinated move every joint stops in this way, within its reference speed, and all
      of them once the ticks have lasted for the longest of the nominal times. */
  lemma CoordinatedMoveEnds(j: Joint, ref: real, maxTime: real, dts: seq<real>, d: real, D: real, enough: int)
    requires Plain(j) && MoveTime(j, ref) <= maxTime && 0.0 < d <= D && Between(dts, d, D)
    requires enough >= 1 && (enough - 1) as real * d >= maxTime
    ensures var m, end := MovedAlong(j, ref, maxTime), Travel(MovedAlong(j, ref, maxTime), dts);
            if Abs(ref - Exposed(j)) < j.tol then end == m && m.status == NotControlling && Exposed(m) == Exposed(j)
            else && Abs(Speed(m)) <= j.refSpeed && Covered(m, maxTime) == Abs(ref - Exposed(j))
                 && Outcome(m, end, |dts|, enough, Covered(m, D)) && Covered(m, D) <= j.refSpeed * D
  {
    hide Travel, Exposed, Speed, Bounded, Outcome, Launched, MovedAlong, MoveTime, Covered, Times;
    MovedAlongIsLaunched(j, ref, maxTime);
    var m := MovedAlong(j, ref, maxTime);
    MovedAlongKeeps(j, ref, maxTime);
    if Abs(ref - Exposed(j)) < j.tol {
      StandsStill(m, dts);
    } else {
      MotionEnds(m, dts, d, D);
      DistanceAhead(m);
      CoveredWithin(m, j.refSpeed, D);
      if |dts| >= enough { TimeSuffices(m, d, maxTime, enough, |dts|); }
      BoundedOutcome(m, Travel(m, dts), |dts|, enough, Covered(m, d), Covered(m, D));
    }
  }

  /** A coordinated move of joints that are all there already takes no time and moves none of
      them, even one without tolerance, which counts as moving. */
  lemma {:induction false} NowhereToGo(j: Joint, ref: real, dts: seq<real>)
    requires WellFormed(j) && MoveTime(j, ref) <= 0.0
    ensures var m := MovedAlong(j, ref, 0.0);
            WellFormed(m) && Travel(m, dts) == m && Exposed(m) == Exposed(j) == ref
  {
    var m := MovedAlong(j, ref, 0.0);
    var q := (ref - Exposed(j)) / j.refSpeed;
    assert ref - Exposed(j) == q * j.refSpeed;
    StandsStill(m, dts);
  }

  lemma DrivenIsLaunched(j: Joint, speed: real)
    requires Plain(j) && speed != 0.0
    ensures WellFormed(Driven(j, speed)) && Launched(Driven(j, speed)) && Speed(Driven(j, speed)) == speed
    ensures Exposed(Driven(j, speed)) == Exposed(j)
  {
    SpeedFromRaw(Driven(j, speed), speed);
  }

  /** A velocity move goes on at its speed until the limit ahead, wherever target and tolerance of
      an earlier move are: after any ticks of `d` to `D` it has not stopped before the limit, it
      has stopped once the ticks suffice to get there, and a joint that started inside of the
      limit is past it by at most what two ticks cover. */
  lemma VelocityMoveEnds(j: Joint, speed: real, dts: seq<real>, d: real, D: real)
    requires Plain(j) && speed != 0.0 && 0.0 < d <= D && Between(dts, d, D)
    ensures var end, v := Travel(Driven(j, speed), dts), Abs(speed);
            && WellFormed(end)
            && var room := if speed > 0.0 then j.maxLimit - Exposed(j) else Exposed(j) - j.minLimit;
               var gone := if speed > 0.0 then Exposed(end) - Exposed(j) else Exposed(j) - Exposed(end);
               && gone >= 0.0
               && (room >= 0.0 ==> gone - room <= 2.0 * (v * D))
               && (|dts| > 0 && Times(|dts| - 1, v * d) > room ==> end.status == NotControlling)
               && if end.status == NotControlling then end.velRaw == 0.0 && gone > room
                  else end.status == VelocityMove && Speed(end) == speed
  {
    hide Travel, Exposed, Speed, Launched, Times;
    DrivenIsLaunched(j, speed);
    MotionEnds(Driven(j, speed), dts, d, D);
    assert Covered(Driven(j, speed), d) == Abs(speed) * d;
  }

  // ---------------------------------------------------------------- where exactly a joint stops

  function Sum(dts: seq<real>): real {
    if dts == [] then 0.0 else dts[0] + Sum(dts[1..])
  }

  /** A joint on the move is to stop when it is seen at this position. */
  predicate Past(j: Joint, x: real) {
    var moves := j.status == PositionMove;
    || (j.velRaw > 0.0 && (x > j.maxLimit || (moves && x > j.target - j.tol)))
    || (j.velRaw < 0.0 && (x < j.minLimit || (moves && x < j.target + j.tol)))
  }

  /** Where the joint is if nothing stops it. */
  function Onward(j: Joint, dts: seq<real>): (j': Joint)
    ensures WellFormed(j') <==> WellFormed(j)
  {
    j.(encRaw := j.encRaw + j.velRaw * Sum(dts))
  }

  /** Where the joint is at the end of its first tick, if nothing stops it. */
  function Moving(j: Joint, dt: real): Joint { j.(encRaw := j.encRaw + j.velRaw * dt) }

  lemma SumFirst(dts: seq<real>, k: nat)
    requires k < |dts|
    ensures Sum(dts[..k + 1]) == dts[0] + Sum(dts[1..][..k]) && Sum(dts[..0]) == 0.0
  {
    assert dts[..k + 1][1..] == dts[1..][..k];
  }

  lemma OnwardPrefix(j: Joint, dts: seq<real>, k: nat)
    requires k < |dts|
    ensures Onward(Moving(j, dts[0]), dts[1..][..k]) == Onward(j, dts[..k + 1])
  {
    hide Sum;
    SumFirst(dts, k);
    var rest := Sum(dts[1..][..k]);
    assert j.velRaw * (dts[0] + rest) == j.velRaw * dts[0] + j.velRaw * rest;
  }

  lemma NotYetMoved(j: Joint)
    ensures Onward(j, []) == j
  {
  }

  lemma PastStops(j: Joint, dt: real)
    requires WellFormed(j) && j.status != NotControlling
    ensures Tick(j, dt) == if Past(j, Exposed(j)) then Stopped(Moving(j, dt)) else Moving(j, dt)
  {
  }

  /** The positions still to come, seen from the end of the first tick. */
  lemma PastLater(j: Joint, dts: seq<real>, k: nat)
    requires WellFormed(j) && k < |dts|
    ensures Past(j, Exposed(Onward(j, dts[..k + 1]))) <==>
            Past(Moving(j, dts[0]), Exposed(Onward(Moving(j, dts[0]), dts[1..][..k])))
  {
    OnwardPrefix(j, dts, k);
    hide Exposed;
  }

  /** A joint on the move, whatever its configuration and the ticks, stops at the end of the first
      tick before which it was past a point where it is to stop: `m` is that tick, or there is
      none. */
  lemma {:induction false} StopsAfterPast(j: Joint, dts: seq<real>, m: nat)
    requires WellFormed(j) && j.status != NotControlling && m <= |dts|
    requires forall k | 0 <= k < m :: !Past(j, Exposed(Onward(j, dts[..k])))
    requires m < |dts| ==> Past(j, Exposed(Onward(j, dts[..m])))
    ensures Travel(j, dts) == if m == |dts| then Onward(j, dts) else Stopped(Onward(j, dts[..m + 1]))
    decreases |dts|
  {
    hide Exposed, Past, Onward, Tick;
    NotYetMoved(j);
    if dts != [] {
      var j' := Moving(j, dts[0]);
      assert dts[..0] == [];
      PastStops(j, dts[0]);
      if m == 0 {
        NotYetMoved(j');
        OnwardPrefix(j, dts, 0);
        assert dts[1..][..0] == [];
        StandsStill(Stopped(j'), dts[1..]);
      } else {
        forall k | 0 <= k < m - 1 ensures !Past(j', Exposed(Onward(j', dts[1..][..k]))) { PastLater(j, dts, k); }
        PastLater(j, dts, m - 1);
        StopsAfterPast(j', dts[1..], m - 1);
        OnwardPrefix(j, dts, if m < |dts| then m else m - 1);
        assert dts[1..][..|dts| - 1] == dts[1..] && dts[..|dts|] == dts;
      }
    }
  }

  // ---------------------------------------------------------------- the board

  datatype Mode = PositionMode | VelocityMode | PositionDirectMode

  /** What a call returns, unless it reaches past the vectors of the board. */
  datatype Reply = Answer(ok: bool) | OutOfBounds

  class Board {
    var joints: seq<Joint>
    var lastTime: real
    var controlMode: Mode

    predicate Valid()
      reads this
    {
      forall i | 0 <= i < |joints| :: WellFormed(joints[i])
    }

    constructor (joints: seq<Joint>, mode: Mode, now: real)
      requires forall i | 0 <= i < |joints| :: WellFormed(joints[i])
      ensures Valid() && this.joints == joints && controlMode == mode && lastTime == now
    {
      this.joints, controlMode, lastTime := joints, mode, now;
    }

    /** The bound check lets the number of joints itself pass, and nothing else out of bounds. */
    method Stop(j: int) returns (r: Reply)
      requires Valid()
      modifies this`joints
      ensures Valid() && |joints| == |old(joints)|
      ensures r == if j == |joints| then OutOfBounds else Answer(0 <= j < |joints|)
      ensures joints == if 0 <= j < |joints| then old(joints)[j := Stopped(old(joints)[j])] else old(joints)
    {
      if j < 0 || j > |joints| { return Answer(false); }
      if j == |joints| { return OutOfBounds; }
      joints := joints[j := joints[j].(velRaw := 0.0, status := NotControlling)];
      r := Answer(true);
    }

    method Check(motor: nat, exposed: real)
      requires Valid() && motor < |joints|
      modifies this`joints
      ensures Valid() && joints == old(joints)[motor := Checked(old(joints)[motor], exposed)]
    {
      var j := joints[motor];
      assert joints == joints[motor := j];
      if j.status != NotControlling {
        if exposed > j.maxLimit && j.velRaw > 0.0 {
          var _ := Stop(motor);
        } else if exposed < j.minLimit && j.velRaw < 0.0 {
          var _ := Stop(motor);
        } else if j.status == PositionMove {
          if j.velRaw > 0.0 && exposed > j.target - j.tol {
            var _ := Stop(motor);
          } else if j.velRaw < 0.0 && exposed < j.target + j.tol {
            var _ := Stop(motor);
          }
        }
      }
    }

    method SetEncsRaw(encsRaw: seq<real>)
      requires Valid() && |encsRaw| == |joints|
      modifies this`joints
      ensures Valid() && |joints| == |old(joints)|
      ensures forall i | 0 <= i < |joints| :: joints[i] == old(joints)[i].(encRaw := encsRaw[i])
    {
      var before := joints;
      joints := seq(|before|, i requires 0 <= i < |before| == |encsRaw| => before[i].(encRaw := encsRaw[i]));
    }

    /** One tick of the periodic thread: it runs at `now`, until `after`. */
    method Run(now: real, after: real)
      requires Valid()
      modifies this`joints, this`lastTime
      ensures Valid() && lastTime == after && |joints| == |old(joints)|
      ensures forall i | 0 <= i < |joints| :: joints[i] == Tick(old(joints)[i], now - old(lastTime))
    {
      hide Checked, Exposed;
      var before := joints;
      var encsRaw := seq(|before|, i requires 0 <= i < |before| => before[i].encRaw);
      var motor := 0;
      while motor < |joints|
        invariant 0 <= motor <= |joints| == |before| == |encsRaw| && Valid() && lastTime == old(lastTime)
        invariant forall i | 0 <= i < motor :: joints[i] == Checked(before[i], Exposed(before[i]))
        invariant forall i | 0 <= i < motor :: encsRaw[i] == before[i].encRaw + before[i].velRaw * (now - lastTime)
        invariant forall i | motor <= i < |joints| :: joints[i] == before[i] && encsRaw[i] == before[i].encRaw
      {
        encsRaw := encsRaw[motor := encsRaw[motor] + joints[motor].velRaw * (now - lastTime)];
        Check(motor, Exposed(joints[motor]));
        motor := motor + 1;
      }
      SetEncsRaw(encsRaw);
      lastTime := after;
    }

    /** The mode is checked before the joint is reached for. */
    method PositionMoveOne(j: int, ref: real) returns (r: Reply)
      requires Valid()
      modifies this`joints
      ensures Valid() && |joints| == |old(joints)|
      ensures r == if j == |joints| && controlMode == PositionMode then OutOfBounds
                   else Answer(0 <= j < |joints| && controlMode == PositionMode)
      ensures joints == if 0 <= j < |joints| && controlMode == PositionMode
                        then old(joints)[j := Moved(old(joints)[j], ref)] else old(joints)
    {
      if j < 0 || j > |joints| { return Answer(false); }
      if controlMode != PositionMode { return Answer(false); }
      if j == |joints| { return OutOfBounds; }
      joints := joints[j := joints[j].(target := ref)];
      var q := joints[j];
      var exposed := Exposed(q);
      if Abs(q.target - exposed) < q.tol {
        r := Stop(j);
        assert joints[j] == Moved(old(joints)[j], ref);
        assert joints == old(joints)[j := joints[j]];
        return;
      } else if ref > exposed {
        q := q.(velRaw := q.refSpeed * q.velRawExposed);
      } else {
        q := q.(velRaw := -(q.refSpeed * q.velRawExposed));
      }
      joints := joints[j := q.(status := PositionMove)];
      assert joints[j] == Moved(old(joints)[j], ref);
      assert joints == old(joints)[j := joints[j]];
      r := Answer(true);
    }

    /** The mode is checked before the joint is reached for, here too. */
    method VelocityMoveOne(j: int, speed: real) returns (r: Reply)
      requires Valid()
      modifies this`joints
      ensures Valid() && |joints| == |old(joints)|
      ensures r == if j == |joints| && controlMode == VelocityMode then OutOfBounds
                   else Answer(0 <= j < |joints| && controlMode == VelocityMode)
      ensures joints == if 0 <= j < |joints| && controlMode == VelocityMode
                        then old(joints)[j := Driven(old(joints)[j], speed)] else old(joints)
    {
      if j < 0 || j > |joints| { return Answer(false); }
      if controlMode != VelocityMode { return Answer(false); }
      if j == |joints| { return OutOfBounds; }
      var q := joints[j].(velRaw := speed * joints[j].velRawExposed);
      joints := joints[j := q.(status := VelocityMove)];
      r := Answer(true);
    }

    method VelocityMoveAll(speeds: seq<real>) returns (ok: bool)
      requires Valid() && |speeds| == |joints|
      modifies this`joints
      ensures Valid() && |joints| == |old(joints)|
      ensures ok <==> controlMode == VelocityMode || joints == []
      ensures forall i | 0 <= i < |joints| ::
                joints[i] == if controlMode == VelocityMode then Driven(old(joints)[i], speeds[i]) else old(joints)[i]
    {
      ok := true;
      var i := 0;
      while i < |joints|
        invariant 0 <= i <= |joints| == |speeds| && Valid() && |joints| == |old(joints)|
        invariant ok <==> controlMode == VelocityMode || i == 0
        invariant forall k | 0 <= k < |joints| ::
                    joints[k] == if controlMode == VelocityMode && k < i then Driven(old(joints)[k], speeds[k])
                                 else old(joints)[k]
      {
        var r := VelocityMoveOne(i, speeds[i]);
        ok := ok && r == Answer(true);
        i := i + 1;
      }
    }

    /** All joints move along for the longest of their times. */
    method PositionMoveAll(refs: seq<real>) returns (ok: bool)
      requires Valid() && |refs| == |joints|
      modifies this`joints
      ensures Valid() && (ok <==> controlMode == PositionMode) && |joints| == |old(joints)|
      ensures !ok ==> joints == old(joints)
      ensures ok ==> forall i | 0 <= i < |joints| ::
                joints[i] == MovedAlong(old(joints)[i], refs[i], MaxTime(old(joints), refs))
    {
      hide MaxTime, MovedAlong, Exposed;
      if controlMode != PositionMode { return false; }
      var before := joints;
      var maxTime := 0.0;
      NoTime(before, refs);
      var motor := 0;
      while motor < |joints|
        invariant 0 <= motor <= |joints| && joints == before
        invariant maxTime == MaxTime(before[..motor], refs[..motor])
      {
        NextTime(before, refs, motor);
        var time := Abs((refs[motor] - Exposed(joints[motor])) / joints[motor].refSpeed);
        if time > maxTime { maxTime := time; }
        motor := motor + 1;
      }
      assert before[..|before|] == before && refs[..|refs|] == refs;
      motor := 0;
      while motor < |joints|
        invariant 0 <= motor <= |joints| == |before| && Valid() && controlMode == PositionMode
        invariant forall i | 0 <= i < motor :: joints[i] == MovedAlong(before[i], refs[i], maxTime)
        invariant forall i | motor <= i < |joints| :: joints[i] == before[i]
      {
        MoveOneAlong(motor, refs[motor], maxTime);
        motor := motor + 1;
      }
      ok := true;
    }

    /** The turn of one joint. */
    method MoveOneAlong(motor: nat, ref: real, maxTime: real)
      requires Valid() && motor < |joints|
      modifies this`joints
      ensures Valid() && joints == old(joints)[motor := MovedAlong(old(joints)[motor], ref, maxTime)]
    {
      var q := joints[motor].(target := ref);
      var distance := ref - Exposed(q);
      var vel := if maxTime == 0.0 then 0.0 else distance / maxTime * q.velRawExposed;
      q := q.(velRaw := vel, status := PositionMove);
      joints := joints[motor := q];
      if Abs(distance) < q.tol {
        var _ := Stop(motor);
      }
      assert joints[motor] == MovedAlong(old(joints)[motor], ref, maxTime);
      assert joints == old(joints)[motor := joints[motor]];
    }
  }

  lemma NoTime(joints: seq<Joint>, refs: seq<real>)
    ensures MaxTime(joints[..0], refs[..0]) == 0.0
  {
  }

  lemma NextTime(joints: seq<Joint>, refs: seq<real>, i: nat)
    requires |joints| == |refs| && (forall i | 0 <= i < |joints| :: WellFormed(joints[i])) && i < |joints|
    ensures var t := MaxTime(joints[..i], refs[..i]);
            MaxTime(joints[..i + 1], refs[..i + 1]) ==
            if MoveTime(joints[i], refs[i]) > t then MoveTime(joints[i], refs[i]) else t
  {
    assert joints[..i + 1][..i] == joints[..i] && refs[..i + 1][..i] == refs[..i];
  }
}
