/** Mouse traces: 20-byte points and the average speed over a trace. */
module Mouse {
  import opened Wrappers
  import opened Bytes

  const POINT_SIZE := 20
  const MAX_POINTS := 20_000_000

  datatype Point = Point(ts: int64, x: int32, y: int32, buttons: int32)

  function PutPoint(p: Point): (b: Text)
    ensures |b| == POINT_SIZE
  {
    PutU64(Bits64(p.ts)) + PutU32(Bits32(p.x)) + PutU32(Bits32(p.y)) + PutU32(Bits32(p.buttons))
  }

  function PointOf(b: Text): Point
    requires |b| == POINT_SIZE
  {
    Point(Wrap64(U64(b[..8])), Wrap32(U32(b[8..12])), Wrap32(U32(b[12..16])), Wrap32(U32(b[16..])))
  }

  lemma PointRoundTrip(p: Point)
    ensures PointOf(PutPoint(p)) == p
  {
    FixedRoundTrips();
    SignedRoundTrips();
    hide U32, U64, PutU32, PutU64, Wrap32, Wrap64, Bits32, Bits64;
    var b := PutPoint(p);
    assert b[..8] == PutU64(Bits64(p.ts));
    assert b[8..12] == PutU32(Bits32(p.x));
    assert b[12..16] == PutU32(Bits32(p.y));
    assert b[16..] == PutU32(Bits32(p.buttons));
  }

  lemma BytesOfPoint(b: Text)
    requires |b| == POINT_SIZE
    ensures PutPoint(PointOf(b)) == b
  {
    FixedRoundTrips();
    SignedRoundTrips();
    hide U32, U64, PutU32, PutU64, Wrap32, Wrap64, Bits32, Bits64;
    assert b == b[..8] + b[8..12] + b[12..16] + b[16..];
  }

  function PutPoints(ps: seq<Point>): (b: Text)
    ensures |b| == POINT_SIZE * |ps|
  {
    if |ps| == 0 then [] else PutPoint(ps[0]) + PutPoints(ps[1..])
  }

  /** The first `count` points of a byte string. */
  function TakePoints(b: Text, count: nat): (ps: seq<Point>)
    requires POINT_SIZE * count <= |b|
    ensures |ps| == count
    decreases count
  {
    if count == 0 then [] else [PointOf(b[..POINT_SIZE])] + TakePoints(b[POINT_SIZE..], count - 1)
  }

  lemma {:induction false} PointsRoundTrip(ps: seq<Point>, rest: Text)
    ensures TakePoints(PutPoints(ps) + rest, |ps|) == ps
  {
    hide PointOf, PutPoint;
    if |ps| > 0 {
      var b := PutPoints(ps) + rest;
      PointRoundTrip(ps[0]);
      PointsRoundTrip(ps[1..], rest);
      assert b[..POINT_SIZE] == PutPoint(ps[0]);
      assert b[POINT_SIZE..] == PutPoints(ps[1..]) + rest;
    }
  }

  lemma {:induction false} BytesOfPoints(b: Text, count: nat)
    requires POINT_SIZE * count <= |b|
    ensures PutPoints(TakePoints(b, count)) == b[..POINT_SIZE * count]
    decreases count
  {
    hide PointOf, PutPoint;
    if count > 0 {
      BytesOfPoint(b[..POINT_SIZE]);
      BytesOfPoints(b[POINT_SIZE..], count - 1);
      var ps := TakePoints(b, count);
      assert ps[1..] == TakePoints(b[POINT_SIZE..], count - 1);
      assert b[..POINT_SIZE * count] == b[..POINT_SIZE] + b[POINT_SIZE..][..POINT_SIZE * (count - 1)];
    }
  }

  lemma SliceOfDrop(b: Text, n: nat, lo: nat, hi: nat)
    requires lo <= hi && n + hi <= |b|
    ensures b[n..][lo..hi] == b[n + lo..n + hi]
  {}

  lemma {:induction false} TakePointsSnoc(b: Text, count: nat)
    requires POINT_SIZE * (count + 1) <= |b|
    ensures TakePoints(b, count + 1) ==
            TakePoints(b, count) + [PointOf(b[POINT_SIZE * count..POINT_SIZE * (count + 1)])]
    decreases count
  {
    hide PointOf;
    if count > 0 {
      TakePointsSnoc(b[POINT_SIZE..], count - 1);
      SliceOfDrop(b, POINT_SIZE, POINT_SIZE * (count - 1), POINT_SIZE * count);
    } else {
      assert b[POINT_SIZE * 0..POINT_SIZE * 1] == b[..POINT_SIZE];
    }
  }

  /** Each point is 20 bytes: time, x, y and buttons, in this order. */
  lemma {:induction false} PointsLieInOrder(b: Text, count: nat, i: nat)
    requires 20 * count <= |b| && i < count
    ensures var p, at := TakePoints(b, count)[i], 20 * i;
      && p.ts == Wrap64(U64(b[at..at + 8])) && p.x == Wrap32(U32(b[at + 8..at + 12]))
      && p.y == Wrap32(U32(b[at + 12..at + 16])) && p.buttons == Wrap32(U32(b[at + 16..at + 20]))
    decreases count
  {
    hide U32, U64, Wrap32, Wrap64;
    if i == 0 {
      assert b[..20][..8] == b[..8] && b[..20][8..12] == b[8..12] && b[..20][12..16] == b[12..16]
          && b[..20][16..] == b[16..20];
    } else {
      PointsLieInOrder(b[20..], count - 1, i - 1);
      var at := 20 * (i - 1);
      SliceOfDrop(b, 20, at, at + 8);
      SliceOfDrop(b, 20, at + 8, at + 12);
      SliceOfDrop(b, 20, at + 12, at + 16);
      SliceOfDrop(b, 20, at + 16, at + 20);
    }
  }

  // ---- Metrics ----

  /** `math.Hypot` on the two integer displacements; floating-point rounding is not modelled. */
  type Hypot = (int32, int32) -> real

  /** Milliseconds from p to q, in wrapping 64-bit arithmetic. */
  function StepMillis(p: Point, q: Point): int64 {
    Wrap64(q.ts - p.ts)
  }

  function StepDistance(hypot: Hypot, p: Point, q: Point): real {
    hypot(Wrap32(q.x - p.x), Wrap32(q.y - p.y))
  }

  /** Total time of the steps that move forward in time. */
  function Millis(ps: seq<Point>): nat {
    if |ps| < 2 then 0
    else
      var step := StepMillis(ps[|ps| - 2], ps[|ps| - 1]);
      Millis(ps[..|ps| - 1]) + if step > 0 then step else 0
  }

  /** Total distance of the same steps. */
  function Distance(hypot: Hypot, ps: seq<Point>): real {
    if |ps| < 2 then 0.0
    else
      var p, q := ps[|ps| - 2], ps[|ps| - 1];
      Distance(hypot, ps[..|ps| - 1]) + if StepMillis(p, q) > 0 then StepDistance(hypot, p, q) else 0.0
  }

  function Seconds(ps: seq<Point>): real {
    Millis(ps) as real / 1000.0
  }

  function AvgSpeed(hypot: Hypot, ps: seq<Point>): Option<real> {
    if Seconds(ps) > 0.0 then Some(Distance(hypot, ps) / Seconds(ps)) else None
  }

  /** Adding one point to a trace. */
  lemma MetricsSnoc(hypot: Hypot, ps: seq<Point>, q: Point)
    requires |ps| > 0
    ensures var p := ps[|ps| - 1];
      if StepMillis(p, q) > 0 then
        && Distance(hypot, ps + [q]) == Distance(hypot, ps) + StepDistance(hypot, p, q)
        && Seconds(ps + [q]) == Seconds(ps) + StepMillis(p, q) as real / 1000.0
      else Distance(hypot, ps + [q]) == Distance(hypot, ps) && Seconds(ps + [q]) == Seconds(ps)
  {
    assert (ps + [q])[..|ps|] == ps;
    hide StepMillis, StepDistance;
  }

  /** Running totals of a trace: from point to point, time and distance grow where the time moves forward. */
  predicate Totals(hypot: Hypot, ps: seq<Point>, millis: seq<int>, distance: seq<real>) {
    && |millis| == |distance| == |ps| > 0 && millis[0] == 0 && distance[0] == 0.0
    && forall i | 0 <= i < |ps| - 1 ::
         var (dt, dx, dy) :=
           (Wrap64(ps[i + 1].ts - ps[i].ts), Wrap32(ps[i + 1].x - ps[i].x), Wrap32(ps[i + 1].y - ps[i].y));
         && millis[i + 1] == millis[i] + (if dt > 0 then dt else 0)
         && distance[i + 1] == distance[i] + (if dt > 0 then hypot(dx, dy) else 0.0)
  }

  /** The average speed is the whole distance over the whole time in seconds. */
  lemma {:induction false} SpeedIsDistanceOverTime(hypot: Hypot, ps: seq<Point>)
    returns (millis: seq<int>, distance: seq<real>)
    requires |ps| > 0
    ensures |millis| == |distance| == |ps| && Totals(hypot, ps, millis, distance)
    ensures var (ms, d) := (millis[|ps| - 1], distance[|ps| - 1]);
      && ms == Millis(ps) && d == Distance(hypot, ps)
      && AvgSpeed(hypot, ps) == if ms == 0 then None else Some(d / (ms as real / 1000.0))
  {
    hide *;
    if |ps| == 1 {
      millis, distance := [0], [0.0];
      OnePoint(hypot, ps);
    } else {
      var init := ps[..|ps| - 1];
      millis, distance := SpeedIsDistanceOverTime(hypot, init);
      TotalsSnoc(hypot, init, millis, distance, ps[|ps| - 1]);
      LastStep(hypot, ps);
      assert ps == init + [ps[|ps| - 1]];
      millis, distance := millis + [Millis(ps)], distance + [Distance(hypot, ps)];
    }
    AveragedTotals(hypot, ps);
  }

  lemma OnePoint(hypot: Hypot, ps: seq<Point>)
    requires |ps| == 1
    ensures Totals(hypot, ps, [0], [0.0]) && Millis(ps) == 0 && Distance(hypot, ps) == 0.0
  {}

  lemma LastStep(hypot: Hypot, ps: seq<Point>)
    requires |ps| >= 2
    ensures var (init, p, q) := (ps[..|ps| - 1], ps[|ps| - 2], ps[|ps| - 1]); var dt := Wrap64(q.ts - p.ts);
      && Millis(ps) == Millis(init) + (if dt > 0 then dt else 0)
      && Distance(hypot, ps) ==
          Distance(hypot, init) + if dt > 0 then hypot(Wrap32(q.x - p.x), Wrap32(q.y - p.y)) else 0.0
  {
    hide Wrap32, Wrap64;
  }

  lemma AveragedTotals(hypot: Hypot, ps: seq<Point>)
    ensures AvgSpeed(hypot, ps) ==
            if Millis(ps) == 0 then None else Some(Distance(hypot, ps) / (Millis(ps) as real / 1000.0))
  {}

  /** One point more. */
  lemma TotalsSnoc(hypot: Hypot, ps: seq<Point>, millis: seq<int>, distance: seq<real>, q: Point)
    requires Totals(hypot, ps, millis, distance)
    ensures var p := ps[|ps| - 1]; var dt := Wrap64(q.ts - p.ts);
      Totals(hypot, ps + [q], millis + [millis[|ps| - 1] + if dt > 0 then dt else 0],
             distance + [distance[|ps| - 1] + if dt > 0 then hypot(Wrap32(q.x - p.x), Wrap32(q.y - p.y)) else 0.0])
  {
    hide Wrap32, Wrap64;
  }

  predicate MovesForward(ps: seq<Point>, i: nat) {
    i + 1 < |ps| && StepMillis(ps[i], ps[i + 1]) > 0
  }

  /** A trace has an average speed exactly when some step moves forward in (wrapped) time. */
  lemma {:induction false} SpeedPresentExactly(hypot: Hypot, ps: seq<Point>)
    ensures AvgSpeed(hypot, ps).Some? <==> exists i: nat :: MovesForward(ps, i)
  {
    MillisPositive(ps);
  }

  lemma {:induction false} MillisPositive(ps: seq<Point>)
    ensures Millis(ps) > 0 <==> exists i: nat :: MovesForward(ps, i)
  {
    hide StepMillis;
    if |ps| >= 2 {
      var init := ps[..|ps| - 1];
      MillisPositive(init);
      if Millis(init) > 0 {
        var i: nat :| MovesForward(init, i);
        assert MovesForward(ps, i);
      } else if StepMillis(ps[|ps| - 2], ps[|ps| - 1]) > 0 {
        assert MovesForward(ps, |ps| - 2);
      } else {
        forall i: nat ensures !MovesForward(ps, i) {
          assert !MovesForward(init, i);
        }
      }
    }
  }

  /** Timestamps that never go back and whose steps fit 64 bits. */
  predicate Chronological(ps: seq<Point>) {
    forall i: nat | i + 1 < |ps| :: 0 <= ps[i + 1].ts - ps[i].ts < 0x8000_0000_0000_0000
  }

  lemma {:induction false} TimeTelescopes(ps: seq<Point>)
    requires |ps| > 0 && Chronological(ps)
    ensures Millis(ps) == ps[|ps| - 1].ts - ps[0].ts
  {
    hide StepMillis;
    if |ps| >= 2 {
      TimeTelescopes(ps[..|ps| - 1]);
      assert 0 <= ps[(|ps| - 2) + 1].ts - ps[|ps| - 2].ts;
      StepFits(ps[|ps| - 2], ps[|ps| - 1]);
    }
  }

  lemma StepFits(p: Point, q: Point)
    requires 0 <= q.ts - p.ts < 0x8000_0000_0000_0000
    ensures StepMillis(p, q) == q.ts - p.ts
  {}

  /** Moves a trace by (dx, dy) modulo 2^32 and by dt modulo 2^64. */
  function Shift(p: Point, dx: int, dy: int, dt: int): Point {
    Point(Wrap64(p.ts + dt), Wrap32(p.x + dx), Wrap32(p.y + dy), p.buttons)
  }

  function ShiftAll(ps: seq<Point>, dx: int, dy: int, dt: int): (qs: seq<Point>)
    ensures |qs| == |ps|
  {
    seq(|ps|, i requires 0 <= i < |ps| => Shift(ps[i], dx, dy, dt))
  }

  lemma ShiftedStep(hypot: Hypot, p: Point, q: Point, dx: int, dy: int, dt: int)
    ensures var p', q' := Shift(p, dx, dy, dt), Shift(q, dx, dy, dt);
      StepMillis(p', q') == StepMillis(p, q) && StepDistance(hypot, p', q') == StepDistance(hypot, p, q)
  {
    Wrap64Difference(q.ts, p.ts, dt);
    Wrap32Difference(q.x, p.x, dx);
    Wrap32Difference(q.y, p.y, dy);
    hide Wrap32, Wrap64;
  }

  lemma Wrap64Difference(a: int, b: int, d: int)
    ensures Wrap64(Wrap64(a + d) - Wrap64(b + d)) == Wrap64(a - b)
  {
    var j := Wrap64Multiple(a + d);
    var k := Wrap64Multiple(b + d);
    hide Wrap64;
    Wrap64Shift(a - b, j - k);
  }

  lemma Wrap64Multiple(x: int) returns (k: int)
    ensures Wrap64(x) == x + k * 0x1_0000_0000_0000_0000
  {
    k := -((x + 0x8000_0000_0000_0000) / 0x1_0000_0000_0000_0000);
  }

  lemma Wrap32Difference(a: int, b: int, d: int)
    ensures Wrap32(Wrap32(a + d) - Wrap32(b + d)) == Wrap32(a - b)
  {
    var j := Wrap32Multiple(a + d);
    var k := Wrap32Multiple(b + d);
    hide Wrap32;
    Wrap32Shift(a - b, j - k);
  }

  lemma Wrap32Multiple(x: int) returns (k: int)
    ensures Wrap32(x) == x + k * 0x1_0000_0000
  {
    k := -((x + 0x8000_0000) / 0x1_0000_0000);
  }

  /** The metrics depend only on wrapped differences, so no shift of the trace can change them. */
  lemma {:induction false} ShiftInvariance(hypot: Hypot, ps: seq<Point>, dx: int, dy: int, dt: int)
    ensures Millis(ShiftAll(ps, dx, dy, dt)) == Millis(ps)
    ensures Distance(hypot, ShiftAll(ps, dx, dy, dt)) == Distance(hypot, ps)
    ensures AvgSpeed(hypot, ShiftAll(ps, dx, dy, dt)) == AvgSpeed(hypot, ps)
  {
    hide StepMillis, StepDistance, Shift;
    if |ps| >= 2 {
      var init := ps[..|ps| - 1];
      ShiftInvariance(hypot, init, dx, dy, dt);
      ShiftedStep(hypot, ps[|ps| - 2], ps[|ps| - 1], dx, dy, dt);
      assert ShiftAll(ps, dx, dy, dt)[..|ps| - 1] == ShiftAll(init, dx, dy, dt);
    }
  }
}
