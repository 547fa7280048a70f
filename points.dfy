/** The point history of the points viewer (points/main.cc): a bounded FIFO
    of samples, the tick index each sample is stamped with, the linear map
    and the voltage-to-hue colouring, and the rule that decides which
    neighbouring samples are joined by a segment. Drawing, the camera and
    the network subscription are not modelled. */
module Points {

  import opened Numeric

  /** The capacity the viewer creates its buffer with. */
  const BufferSize: nat := 2000

  /** One received sample: its tick stamp, position (m), velocity (m/s) and
      voltage (V). */
  datatype Point = Point(tick: int, position: real, velocity: real, voltage: real)

  /** map: the affine map taking [inMin, inMax] onto [outMin, outMax]. The
      result is the point on the line through (inMin, outMin) and
      (inMax, outMax) above x. */
  function Map(x: real, inMin: real, inMax: real, outMin: real, outMax: real): (y: real)
    requires inMin != inMax
    ensures (y - outMin) * (inMax - inMin) == (x - inMin) * (outMax - outMin)
  {
    var q := (x - inMin) / (inMax - inMin);
    assert q * (inMax - inMin) == x - inMin;
    q * (outMax - outMin) + outMin
  }

  /** The map sends the input interval's ends to the output interval's ends. */
  lemma {:induction false} MapEndpoints(inMin: real, inMax: real, outMin: real, outMax: real)
    requires inMin != inMax
    ensures Map(inMin, inMin, inMax, outMin, outMax) == outMin
    ensures Map(inMax, inMin, inMax, outMin, outMax) == outMax
  {
    assert (inMax - inMin) / (inMax - inMin) == 1.0;
  }

  /** The map is affine: it preserves weighted means. */
  lemma {:induction false} MapIsAffine(x: real, y: real, w: real, inMin: real, inMax: real, outMin: real, outMax: real)
    requires inMin != inMax
    ensures Map(w * x + (1.0 - w) * y, inMin, inMax, outMin, outMax)
            == w * Map(x, inMin, inMax, outMin, outMax) + (1.0 - w) * Map(y, inMin, inMax, outMin, outMax)
  {
    var d := inMax - inMin;
    var k := outMax - outMin;
    var z := w * x + (1.0 - w) * y;
    assert z - inMin == w * (x - inMin) + (1.0 - w) * (y - inMin);
    assert (z - inMin) / d == w * ((x - inMin) / d) + (1.0 - w) * ((y - inMin) / d);
    assert (z - inMin) / d * k == w * ((x - inMin) / d * k) + (1.0 - w) * ((y - inMin) / d * k);
  }

  /** With both intervals increasing, the map is strictly increasing. */
  lemma {:induction false} MapIncreasing(x: real, y: real, inMin: real, inMax: real, outMin: real, outMax: real)
    requires inMin < inMax && outMin < outMax && x < y
    ensures Map(x, inMin, inMax, outMin, outMax) < Map(y, inMin, inMax, outMin, outMax)
  {
    var d := inMax - inMin;
    var k := outMax - outMin;
    var qx := (x - inMin) / d;
    var qy := (y - inMin) / d;
    assert qy - qx == (y - x) / d;
    QuotientSign(y - x, d);
    ProductPositive(qy - qx, k);
    assert qy * k - qx * k == (qy - qx) * k;
    assert Map(x, inMin, inMax, outMin, outMax) == qx * k + outMin;
    assert Map(y, inMin, inMax, outMin, outMax) == qy * k + outMin;
  }

  /** Hue: negative voltages are coloured from 180 (−12 V and below) towards
      210, the others from 0 up to 30 (12 V and above). */
  function Hue(p: Point): (h: real)
    ensures p.voltage < 0.0 ==> 180.0 <= h < 210.0
    ensures p.voltage >= 0.0 ==> 0.0 <= h <= 30.0
    ensures p.voltage <= -12.0 ==> h == 180.0
    ensures p.voltage >= 12.0 ==> h == 30.0
  {
    if p.voltage < 0.0 then
      var v := Clamp(p.voltage, -12.0, 0.0);
      MapWithin(v, -12.0, 0.0, 180.0, 210.0);
      Map(v, -12.0, 0.0, 180.0, 210.0)
    else
      var v := Clamp(p.voltage, 0.0, 12.0);
      MapWithin(v, 0.0, 12.0, 0.0, 30.0);
      Map(v, 0.0, 12.0, 0.0, 30.0)
  }

  /** On an increasing interval the map stays inside the output interval,
      reaching its ends exactly at the input interval's ends. */
  lemma {:induction false} MapWithin(x: real, inMin: real, inMax: real, outMin: real, outMax: real)
    requires inMin < inMax && outMin < outMax && inMin <= x <= inMax
    ensures outMin <= Map(x, inMin, inMax, outMin, outMax) <= outMax
    ensures x > inMin ==> outMin < Map(x, inMin, inMax, outMin, outMax)
    ensures x < inMax ==> Map(x, inMin, inMax, outMin, outMax) < outMax
    ensures x == inMin ==> Map(x, inMin, inMax, outMin, outMax) == outMin
    ensures x == inMax ==> Map(x, inMin, inMax, outMin, outMax) == outMax
  {
    MapEndpoints(inMin, inMax, outMin, outMax);
    if x > inMin { MapIncreasing(inMin, x, inMin, inMax, outMin, outMax); }
    if x < inMax { MapIncreasing(x, inMax, inMin, inMax, outMin, outMax); }
  }

  /** More negative voltages get smaller hues, down to the −12 V floor. */
  lemma {:induction false} HueOrdersNegativeVoltages(p: Point, q: Point)
    requires -12.0 <= p.voltage < q.voltage < 0.0
    ensures Hue(p) < Hue(q)
  {
    MapIncreasing(p.voltage, q.voltage, -12.0, 0.0, 180.0, 210.0);
  }

  /** The buffer's contents after push: on a full buffer the oldest sample is
      dropped first; the new sample is always appended. */
  function Pushed(points: seq<Point>, maxPoints: nat, p: Point): seq<Point>
    requires |points| == maxPoints ==> |points| > 0
  {
    if |points| == maxPoints then points[1..] + [p] else points + [p]
  }

  /** Pushing never takes the buffer beyond its capacity. */
  lemma {:induction false} PushKeepsBound(points: seq<Point>, maxPoints: nat, p: Point)
    requires 0 < |points| <= maxPoints || |points| < maxPoints
    ensures |Pushed(points, maxPoints, p)| <= maxPoints
    ensures |Pushed(points, maxPoints, p)| == if |points| == maxPoints then maxPoints else |points| + 1
  {
  }

  /** After push the newest sample is last and the retained samples keep
      their order: they are the old contents without at most the oldest. */
  lemma {:induction false} PushAppendsInOrder(points: seq<Point>, maxPoints: nat, p: Point)
    requires |points| == maxPoints ==> |points| > 0
    ensures var r := Pushed(points, maxPoints, p);
            |r| > 0 && r[|r| - 1] == p
            && r[..|r| - 1] == points[|points| + 1 - |r|..]
  {
  }

  /** Below capacity nothing is dropped. */
  lemma {:induction false} PushBelowCapacityKeepsAll(points: seq<Point>, maxPoints: nat, p: Point)
    requires |points| < maxPoints
    ensures Pushed(points, maxPoints, p)[..|points|] == points
  {
  }

  /** The stamp of a sample: the frame counter modulo the capacity. */
  function TickIndex(tick: nat, maxPoints: nat): (i: nat)
    requires maxPoints > 0
    ensures i < maxPoints
    ensures tick < maxPoints ==> i == tick
  {
    tick % maxPoints
  }

  /** Consecutive frames get consecutive stamps except at the wrap-around,
      where the stamp falls back to 0. */
  lemma {:induction false} TickIndexSteps(tick: nat, maxPoints: nat)
    requires maxPoints > 0
    ensures TickIndex(tick, maxPoints) < maxPoints - 1
            ==> TickIndex(tick + 1, maxPoints) == TickIndex(tick, maxPoints) + 1
    ensures TickIndex(tick, maxPoints) == maxPoints - 1 ==> TickIndex(tick + 1, maxPoints) == 0
  {
    var q := tick / maxPoints;
    var r := tick % maxPoints;
    if r < maxPoints - 1 {
      ModUnique(tick + 1, maxPoints, q, r + 1);
    } else {
      ModUnique(tick + 1, maxPoints, q + 1, 0);
    }
  }

  /** The remainder is the unique r in [0, m) with n = q·m + r. */
  lemma ModUnique(n: int, m: int, q: int, r: int)
    requires m > 0 && 0 <= r < m && n == q * m + r
    ensures n % m == r
  {
    var k := n / m - q;
    assert k * m == (n / m) * m - q * m;
    assert k * m == r - n % m;
    MultipleBounds(k, m);
  }

  lemma MultipleBounds(k: int, m: int)
    requires m > 0
    ensures k >= 1 ==> k * m >= m
    ensures k <= -1 ==> k * m <= -m
  {
  }

  /** Two neighbours are joined when the later one's stamp is exactly one more. */
  predicate Joined(points: seq<Point>, i: int)
    requires 0 <= i < |points| - 1
  {
    points[i + 1].tick - points[i].tick == 1
  }

  /** Samples stamped on consecutive frames are joined, except across the
      wrap-around from the last stamp back to 0. */
  lemma {:induction false} ConsecutiveFramesJoined(points: seq<Point>, i: nat, tick: nat, maxPoints: nat)
    requires maxPoints > 1 && i < |points| - 1
    requires points[i].tick == TickIndex(tick, maxPoints)
    requires points[i + 1].tick == TickIndex(tick + 1, maxPoints)
    ensures Joined(points, i) <==> TickIndex(tick, maxPoints) != maxPoints - 1
  {
    TickIndexSteps(tick, maxPoints);
  }

  /** The segment filter: walks the neighbouring pairs in order and keeps the
      index of every pair whose stamps are consecutive. */
  method DrawnSegments(points: seq<Point>) returns (segments: seq<nat>)
    ensures forall k :: 0 <= k < |segments| ==> segments[k] < |points| - 1 && Joined(points, segments[k])
    ensures forall i :: 0 <= i < |points| - 1 && Joined(points, i) ==> i in segments
    ensures forall k, l :: 0 <= k < l < |segments| ==> segments[k] < segments[l]
  {
    segments := [];
    var i := 0;
    while i < |points| - 1
      invariant 0 <= i <= if |points| == 0 then 0 else |points| - 1
      invariant forall k :: 0 <= k < |segments| ==> segments[k] < i && Joined(points, segments[k])
      invariant forall j :: 0 <= j < i && Joined(points, j) ==> j in segments
      invariant forall k, l :: 0 <= k < l < |segments| ==> segments[k] < segments[l]
    {
      if points[i + 1].tick - points[i].tick == 1 {
        segments := segments + [i];
      }
      i := i + 1;
    }
  }

  /** A wrap-around never draws a segment: the last stamp of a cycle and the
      first stamp of the next differ by 1 − capacity. */
  lemma {:induction false} WrapAroundNotJoined(a: Point, b: Point)
    requires a.tick == (BufferSize as int) - 1 && b.tick == 0
    ensures !Joined([a, b], 0)
  {
  }

  class PointBuffer {
    var points: seq<Point>
    const maxPoints: nat

    constructor (maxPoints: nat)
      ensures points == [] && this.maxPoints == maxPoints
    {
      points := [];
      this.maxPoints := maxPoints;
    }

    /** The capacity is never exceeded. */
    predicate Valid()
      reads this
    {
      |points| <= maxPoints
    }

    /** push: drop the oldest sample when full, then append. */
    method Push(p: Point)
      requires |points| == maxPoints ==> |points| > 0
      modifies this`points
      ensures points == Pushed(old(points), maxPoints, p)
      ensures old(Valid()) ==> Valid()
    {
      if |points| == maxPoints {
        points := points[1..];
      }
      points := points + [p];
    }
  }

  /** The viewer's frame loop: each frame stamps the received sample with the
      frame counter modulo the capacity and pushes it. */
  class Viewer {
    const buffer: PointBuffer
    var tick: nat

    constructor ()
      ensures fresh(buffer) && buffer.points == [] && buffer.maxPoints == BufferSize && tick == 0
    {
      buffer := new PointBuffer(BufferSize);
      tick := 0;
    }

    method Receive(position: real, velocity: real, voltage: real)
      requires buffer.maxPoints > 0
      modifies this`tick, buffer`points
      ensures tick == old(tick) + 1
      ensures buffer.points
              == Pushed(old(buffer.points), buffer.maxPoints,
                        Point(TickIndex(old(tick), buffer.maxPoints), position, velocity, voltage))
      ensures old(buffer.Valid()) ==> buffer.Valid()
    {
      var stamp := TickIndex(tick, buffer.maxPoints);
      tick := tick + 1;
      buffer.Push(Point(stamp, position, velocity, voltage));
    }
  }
}
