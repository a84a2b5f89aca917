/** The track centreline (ingest/geometry.py): a reference lap resampled to evenly spaced
    nodes, and a car's position projected onto it.

    `hypot` is the length of a step; all that is used of it is in `IsLength`. */
module Centreline {
  import opened Model

  type Hypot = (real, real) -> real

  ghost predicate IsLength(hypot: Hypot) {
    forall dx, dy :: hypot(dx, dy) >= 0.0 && (hypot(dx, dy) == 0.0 ==> dx == 0.0 && dy == 0.0)
  }

  datatype Resampled = TooFewPoints | TooFewNodes | ZeroLength | Lap(nodes: seq<Point>, length: real)

  // ------------------------------------------------------------------ arc length

  function Step(hypot: Hypot, p: Point, q: Point): real {
    hypot(q.x - p.x, q.y - p.y)
  }

  /** Arc length from the first point to the k-th. */
  ghost function Arc(pts: seq<Point>, hypot: Hypot, k: nat): real
    requires k < |pts|
  {
    if k == 0 then 0.0 else Arc(pts, hypot, k - 1) + Step(hypot, pts[k - 1], pts[k])
  }

  /** It starts at nothing and grows by the length of each step. */
  lemma ArcSteps(pts: seq<Point>, hypot: Hypot, k: nat)
    requires k + 1 < |pts|
    ensures Arc(pts, hypot, 0) == 0.0
    ensures Arc(pts, hypot, k + 1)
            == Arc(pts, hypot, k) + hypot(pts[k + 1].x - pts[k].x, pts[k + 1].y - pts[k].y)
  {
  }

  lemma {:induction false} ArcAscends(pts: seq<Point>, hypot: Hypot, j: nat, k: nat)
    requires IsLength(hypot) && j <= k < |pts|
    ensures 0.0 <= Arc(pts, hypot, j) <= Arc(pts, hypot, k)
  {
    if j < k {
      ArcAscends(pts, hypot, j, k - 1);
      assert Step(hypot, pts[k - 1], pts[k]) >= 0.0;
    } else if k > 0 {
      ArcAscends(pts, hypot, k - 1, k - 1);
      assert Step(hypot, pts[k - 1], pts[k]) >= 0.0;
    }
  }

  /** Where no distance has been covered, nothing has moved. */
  lemma {:induction false} NoArcNoMove(pts: seq<Point>, hypot: Hypot, k: nat)
    requires IsLength(hypot) && k < |pts| && Arc(pts, hypot, k) == 0.0
    ensures pts[k] == pts[0]
  {
    if k > 0 {
      ArcAscends(pts, hypot, 0, k - 1);
      assert Step(hypot, pts[k - 1], pts[k]) >= 0.0;
      NoArcNoMove(pts, hypot, k - 1);
    }
  }

  method CumulativeArc(pts: seq<Point>, hypot: Hypot) returns (cum: seq<real>)
    requires pts != []
    ensures |cum| == |pts| && forall k :: 0 <= k < |pts| ==> cum[k] == Arc(pts, hypot, k)
  {
    cum := [0.0];
    for k := 1 to |pts|
      invariant |cum| == k && forall i :: 0 <= i < k ==> cum[i] == Arc(pts, hypot, i)
    {
      var next := cum[k - 1] + Step(hypot, pts[k - 1], pts[k]);
      assert next == Arc(pts, hypot, k);
      cum := cum + [next];
    }
  }

  // ------------------------------------------------------------------ resampling

  /** The arc length of node k of n. */
  function Target(length: real, n: nat, k: nat): real
    requires n > 0
  {
    length * (k as real) / (n as real)
  }

  /** Nodes are evenly spaced, the first at 0 and the last one step short of a full lap. */
  lemma EvenSpacing(length: real, n: nat, k: nat)
    requires n > 0 && k < n && length > 0.0
    ensures Target(length, n, 0) == 0.0
    ensures Target(length, n, k + 1) - Target(length, n, k) == length / (n as real) > 0.0
    ensures Target(length, n, n) == length
  {
    var r, c := n as real, k as real;
    assert length * (c + 1.0) == length * c + length;
    assert (length * c + length) / r == length * c / r + length / r;
  }

  lemma {:induction false} TargetAscends(length: real, n: nat, j: nat, k: nat)
    requires n > 0 && j <= k <= n && length > 0.0
    ensures Target(length, n, j) <= Target(length, n, k)
    ensures j < k ==> Target(length, n, j) < Target(length, n, k)
    decreases k
  {
    if j < k {
      TargetAscends(length, n, j, k - 1);
      EvenSpacing(length, n, k - 1);
    }
  }

  function Between(p: Point, q: Point, f: real): Point {
    Point(p.x + f * (q.x - p.x), p.y + f * (q.y - p.y))
  }

  /** Arc length a is reached within segment j, which is not a repeated point. */
  ghost predicate InSegment(pts: seq<Point>, hypot: Hypot, a: real, j: nat) {
    j + 1 < |pts| && Arc(pts, hypot, j) <= a < Arc(pts, hypot, j + 1)
  }

  ghost function OnSegment(pts: seq<Point>, hypot: Hypot, a: real, j: nat): Point
    requires InSegment(pts, hypot, a, j)
  {
    Between(pts[j], pts[j + 1], (a - Arc(pts, hypot, j)) / (Arc(pts, hypot, j + 1) - Arc(pts, hypot, j)))
  }

  /** p is the point of the polyline at arc length a. */
  ghost predicate AtArc(pts: seq<Point>, hypot: Hypot, a: real, p: Point) {
    exists j: nat :: InSegment(pts, hypot, a, j) && p == OnSegment(pts, hypot, a, j)
  }

  /** There is only one point at each arc length. */
  lemma AtArcUnique(pts: seq<Point>, hypot: Hypot, a: real, p: Point, q: Point)
    requires IsLength(hypot) && AtArc(pts, hypot, a, p) && AtArc(pts, hypot, a, q)
    ensures p == q
  {
    var i: nat :| InSegment(pts, hypot, a, i) && p == OnSegment(pts, hypot, a, i);
    var j: nat :| InSegment(pts, hypot, a, j) && q == OnSegment(pts, hypot, a, j);
    if i < j { ArcAscends(pts, hypot, i + 1, j); } else if j < i { ArcAscends(pts, hypot, j + 1, i); }
  }

  /** The point at arc length 0 is the first, even if the lap starts with repeated points. */
  lemma AtArcZero(pts: seq<Point>, hypot: Hypot, p: Point)
    requires IsLength(hypot) && AtArc(pts, hypot, 0.0, p)
    ensures p == pts[0]
  {
    var j: nat :| InSegment(pts, hypot, 0.0, j) && p == OnSegment(pts, hypot, 0.0, j);
    ArcAscends(pts, hypot, 0, j);
    NoArcNoMove(pts, hypot, j);
    var d := Arc(pts, hypot, j + 1) - Arc(pts, hypot, j);
    assert 0.0 / d == 0.0;
  }

  function Closed(xy: seq<Point>): seq<Point>
    requires xy != []
  {
    xy + [xy[0]]
  }

  ghost predicate AscendingBelow(targets: seq<real>, length: real) {
    && (forall k :: 0 <= k < |targets| ==> 0.0 <= targets[k] < length)
    && (forall j, k :: 0 <= j <= k < |targets| ==> targets[j] <= targets[k])
  }

  /** One walk along the lap puts a node at each of the ascending arc lengths asked for. */
  method PlaceNodes(pts: seq<Point>, cum: seq<real>, targets: seq<real>, hypot: Hypot) returns (nodes: seq<Point>)
    requires |pts| == |cum| >= 2 && forall k :: 0 <= k < |pts| ==> cum[k] == Arc(pts, hypot, k)
    requires AscendingBelow(targets, cum[|cum| - 1])
    ensures |nodes| == |targets|
    ensures forall k :: 0 <= k < |targets| ==> AtArc(pts, hypot, targets[k], nodes[k])
  {
    nodes := [];
    var j := 0;
    for k := 0 to |targets|
      invariant |nodes| == k && j + 1 < |cum|
      invariant forall i :: k <= i < |targets| ==> cum[j] <= targets[i]
      invariant forall i :: 0 <= i < k ==> AtArc(pts, hypot, targets[i], nodes[i])
    {
      while j + 1 < |cum| - 1 && cum[j + 1] <= targets[k]
        invariant j + 1 < |cum| && cum[j] <= targets[k]
      {
        j := j + 1;
      }
      var seg := cum[j + 1] - cum[j];
      var f := if seg <= 0.0 then 0.0 else (targets[k] - cum[j]) / seg;
      var node := Between(pts[j], pts[j + 1], f);
      assert InSegment(pts, hypot, targets[k], j) && node == OnSegment(pts, hypot, targets[k], j);
      nodes := nodes + [node];
    }
  }

  method Targets(length: real, n: nat) returns (targets: seq<real>)
    requires n > 0 && length > 0.0
    ensures |targets| == n && forall k :: 0 <= k < n ==> targets[k] == Target(length, n, k)
    ensures AscendingBelow(targets, length)
  {
    targets := seq(n, k requires 0 <= k < n => Target(length, n, k));
    EvenSpacing(length, n, 0);
    forall j, k | 0 <= j <= k < n ensures 0.0 <= targets[j] <= targets[k] < length {
      TargetAscends(length, n, 0, j);
      TargetAscends(length, n, j, k);
      TargetAscends(length, n, k, n);
      EvenSpacing(length, n, k);
    }
  }

  /** Node k of n lies at k n-ths of the length. */
  ghost predicate EvenNodes(pts: seq<Point>, hypot: Hypot, length: real, nodes: seq<Point>) {
    forall k :: 0 <= k < |nodes| ==> AtArc(pts, hypot, Target(length, |nodes|, k), nodes[k])
  }

  lemma NodesAreEven(pts: seq<Point>, hypot: Hypot, length: real, targets: seq<real>, nodes: seq<Point>)
    requires IsLength(hypot) && length > 0.0 && |targets| == |nodes| > 0
    requires forall k :: 0 <= k < |nodes| ==> targets[k] == Target(length, |nodes|, k)
    requires forall k :: 0 <= k < |nodes| ==> AtArc(pts, hypot, targets[k], nodes[k])
    ensures EvenNodes(pts, hypot, length, nodes) && pts != [] && nodes[0] == pts[0]
  {
    EvenSpacing(length, |nodes|, 0);
    assert AtArc(pts, hypot, targets[0], nodes[0]);
    AtArcZero(pts, hypot, nodes[0]);
  }

  method SpreadNodes(pts: seq<Point>, cum: seq<real>, n: nat, hypot: Hypot) returns (r: Resampled)
    requires IsLength(hypot) && n > 0
    requires |pts| == |cum| >= 2 && forall k :: 0 <= k < |pts| ==> cum[k] == Arc(pts, hypot, k)
    ensures r.ZeroLength? || r.Lap?
    ensures r.ZeroLength? <==> Arc(pts, hypot, |pts| - 1) == 0.0
    ensures r.Lap? ==>
              && r.length == Arc(pts, hypot, |pts| - 1) > 0.0 && |r.nodes| == n
              && EvenNodes(pts, hypot, r.length, r.nodes) && r.nodes[0] == pts[0]
  {
    var length := cum[|cum| - 1];
    ArcAscends(pts, hypot, 0, |pts| - 1);
    if length <= 0.0 { return ZeroLength; }
    var targets := Targets(length, n);
    var nodes := PlaceNodes(pts, cum, targets, hypot);
    NodesAreEven(pts, hypot, length, targets, nodes);
    return Lap(nodes, length);
  }

  /** Resamples a closed lap: node k of n is the lap's point at k n-ths of its length, node 0
      the lap's own first point. The three errors are exactly the three degenerate inputs. */
  method ResampleClosedLoop(xy: seq<Point>, n: nat, hypot: Hypot) returns (r: Resampled)
    requires IsLength(hypot)
    ensures r.TooFewPoints? <==> |xy| < 3
    ensures r.TooFewNodes? <==> |xy| >= 3 && n < 3
    ensures r.ZeroLength? <==> |xy| >= 3 && n >= 3 && Arc(Closed(xy), hypot, |xy|) == 0.0
    ensures r.Lap? ==>
              && r.length == Arc(Closed(xy), hypot, |xy|) > 0.0 && |r.nodes| == n
              && EvenNodes(Closed(xy), hypot, r.length, r.nodes)
              && r.nodes[0] == xy[0]
  {
    if |xy| < 3 { return TooFewPoints; }
    if n < 3 { return TooFewNodes; }
    var closed := Closed(xy);
    var cum := CumulativeArc(closed, hypot);
    r := SpreadNodes(closed, cum, n, hypot);
    assert closed[0] == xy[0];
  }

  // ------------------------------------------------------------------ projection

  function Times(x: real, y: real): real {
    x * y
  }

  function Square(x: real): real {
    Times(x, x)
  }

  function Dot(w: Point, u: Point): real {
    Times(w.x, u.x) + Times(w.y, u.y)
  }

  function Minus(p: Point, q: Point): Point {
    Point(p.x - q.x, p.y - q.y)
  }

  function Clamp01(t: real): real {
    if t <= 0.0 then 0.0 else if t >= 1.0 then 1.0 else t
  }

  /** How far along the vector u the projection of w falls, kept on the vector. */
  function Foot(w: Point, u: Point): (t: real)
    ensures 0.0 <= t <= 1.0
  {
    if Dot(u, u) <= 0.0 then 0.0 else Clamp01(Dot(w, u) / Dot(u, u))
  }

  /** The squared distance from w to the point a fraction t along u. */
  function Off(w: Point, u: Point, t: real): real {
    Square(w.x - Times(t, u.x)) + Square(w.y - Times(t, u.y))
  }

  /** The same, as a quadratic in t without its constant. */
  function Along(wu: real, uu: real, t: real): real {
    t * (t * uu) - 2.0 * (t * wu)
  }

  lemma OneAxis(w: real, u: real, t: real)
    ensures Square(w - Times(t, u)) == Square(w) + Along(Times(w, u), Times(u, u), t)
  {
  }

  lemma AlongSum(wu: real, uu: real, wv: real, vv: real, t: real)
    ensures Along(wu + wv, uu + vv, t) == Along(wu, uu, t) + Along(wv, vv, t)
  {
  }

  lemma OffAlong(w: Point, u: Point, t: real)
    ensures Off(w, u, t) == Square(w.x) + Square(w.y) + Along(Dot(w, u), Dot(u, u), t)
  {
    OneAxis(w.x, u.x, t);
    OneAxis(w.y, u.y, t);
    AlongSum(Times(w.x, u.x), Times(u.x, u.x), Times(w.y, u.y), Times(u.y, u.y), t);
  }

  /** The clamped minimum of the quadratic over 0..1. */
  lemma AlongLeast(wu: real, uu: real, t: real)
    requires uu > 0.0 && 0.0 <= t <= 1.0
    ensures Along(wu, uu, Clamp01(wu / uu)) <= Along(wu, uu, t)
  {
    var m := wu / uu;
    assert m * uu == wu;
    var c := Clamp01(m);
    var e := t - c;
    assert e * (e * uu) >= 0.0;
    assert e * (c - m) >= 0.0;
    assert e * ((c - m) * uu) == (e * (c - m)) * uu >= 0.0;
  }

  lemma OffNoVector(w: Point, t: real)
    ensures Off(w, Point(0.0, 0.0), t) == Square(w.x) + Square(w.y)
  {
    assert Times(t, 0.0) == 0.0;
  }

  lemma OffLeast(w: Point, u: Point, t: real)
    requires 0.0 <= t <= 1.0 && Dot(u, u) > 0.0
    ensures Off(w, u, Clamp01(Dot(w, u) / Dot(u, u))) <= Off(w, u, t)
  {
    OffAlong(w, u, t);
    OffAlong(w, u, Clamp01(Dot(w, u) / Dot(u, u)));
    AlongLeast(Dot(w, u), Dot(u, u), t);
  }

  lemma PositiveTimes(x: real, y: real)
    requires x > 0.0 && y > 0.0
    ensures Times(x, y) > 0.0
  {
  }

  lemma SquareZero(x: real)
    ensures Square(x) >= 0.0 && (Square(x) == 0.0 ==> x == 0.0)
  {
    if x > 0.0 {
      PositiveTimes(x, x);
    } else if x < 0.0 {
      PositiveTimes(-x, -x);
      assert Times(-x, -x) == Times(x, x);
    }
  }

  lemma NoVector(u: Point)
    requires Dot(u, u) <= 0.0
    ensures u == Point(0.0, 0.0)
  {
    SquareZero(u.x);
    SquareZero(u.y);
  }

  /** The clamped projection is the nearest point of the segment. */
  lemma FootIsNearest(w: Point, u: Point, t: real)
    requires 0.0 <= t <= 1.0
    ensures Off(w, u, Foot(w, u)) <= Off(w, u, t)
  {
    if Dot(u, u) <= 0.0 {
      NoVector(u);
      OffNoVector(w, t);
      OffNoVector(w, Foot(w, u));
    } else {
      OffLeast(w, u, t);
    }
  }

  lemma WrapBounds(s: real, length: real, q: real, ratio: real)
    requires length > 0.0 && ratio == s / length && q <= ratio < q + 1.0
    ensures q * length <= s < q * length + length
  {
    var above, below := ratio - q, q + 1.0 - ratio;
    assert above * length >= 0.0 && below * length > 0.0;
    assert ratio * length == s;
    assert above * length == ratio * length - q * length;
    assert below * length + above * length == (below + above) * length == length;
  }

  /** Python's remainder by a positive length. */
  function Wrap(s: real, length: real): (r: real)
    requires length > 0.0
    ensures 0.0 <= r < length
  {
    var ratio := s / length;
    WrapBounds(s, length, ratio.Floor as real, ratio);
    s - (s / length).Floor as real * length
  }

  function Next(n: nat, i: nat): nat
    requires n > 0
  {
    (i + 1) % n
  }

  /** The two segments that meet at the nearest node. */
  function Adjacent(n: nat, nearest: int): (int, int)
    requires n > 0
  {
    ((nearest - 1) % n, nearest % n)
  }

  lemma Multiples(a: int, b: int, n: nat)
    requires a < b
    ensures a * n + n <= b * n
  {
    assert (b - a - 1) * n >= 0;
  }

  lemma ModIs(x: int, n: nat, q: int, r: int)
    requires 0 <= r < n && x == q * n + r
    ensures x % n == r
  {
    var p := x / n;
    assert x == p * n + x % n;
    if p < q { Multiples(p, q, n); } else if q < p { Multiples(q, p, n); }
  }

  /** The first of them ends where the second begins, at the nearest node. */
  lemma NextAfterPrevious(n: nat, nearest: int)
    requires n > 0
    ensures Next(n, Adjacent(n, nearest).0) == nearest % n
  {
    var q, r := (nearest - 1) / n, (nearest - 1) % n;
    assert nearest == q * n + r + 1;
    if r + 1 == n {
      ModIs(nearest, n, q + 1, 0);
    } else {
      ModIs(nearest, n, q, r + 1);
    }
  }

  /** Segment i as a vector, and p as seen from its start. */
  function Vector(nodes: seq<Point>, i: nat): Point
    requires i < |nodes|
  {
    Minus(nodes[Next(|nodes|, i)], nodes[i])
  }

  function Seen(p: Point, nodes: seq<Point>, i: nat): Point
    requires i < |nodes|
  {
    Minus(p, nodes[i])
  }

  /** The arc length of p's projection on segment i, before and after it is kept within a lap. */
  function RawArc(p: Point, nodes: seq<Point>, i: nat, length: real, hypot: Hypot): real
    requires i < |nodes|
  {
    var u := Vector(nodes, i);
    i as real * (length / (|nodes| as real)) + Foot(Seen(p, nodes, i), u) * hypot(u.x, u.y)
  }

  function SegmentArc(p: Point, nodes: seq<Point>, i: nat, length: real, hypot: Hypot): real
    requires i < |nodes| && length > 0.0
  {
    Wrap(RawArc(p, nodes, i, length, hypot), length)
  }

  lemma AlongGap(m: real, uu: real, c: real, e: real)
    ensures Along(m * uu, uu, c + e) - Along(m * uu, uu, c) == e * e * uu + 2.0 * (e * (c - m) * uu)
  {
  }

  lemma NoSquare(e: real, uu: real)
    requires uu > 0.0 && e * e * uu <= 0.0
    ensures e == 0.0
  {
    SquareZero(e);
    if e * e > 0.0 { PositiveTimes(e * e, uu); }
  }

  lemma ClampSide(m: real, t: real, uu: real)
    requires uu > 0.0 && 0.0 <= t <= 1.0
    ensures (t - Clamp01(m)) * (Clamp01(m) - m) * uu >= 0.0
  {
    var x := (t - Clamp01(m)) * (Clamp01(m) - m);
    assert x >= 0.0;
  }

  lemma AlongLeastOnly(wu: real, uu: real, t: real)
    requires uu > 0.0 && 0.0 <= t <= 1.0 && Along(wu, uu, t) <= Along(wu, uu, Clamp01(wu / uu))
    ensures t == Clamp01(wu / uu)
  {
    var m := wu / uu;
    var c := Clamp01(m);
    AlongGap(m, uu, c, t - c);
    ClampSide(m, t, uu);
    NoSquare(t - c, uu);
  }

  /** The nearest point of a segment is the only one so near. */
  lemma FootIsOnly(w: Point, u: Point, f: real)
    requires 0.0 <= f <= 1.0 && Dot(u, u) > 0.0
    requires forall t :: 0.0 <= t <= 1.0 ==> Off(w, u, f) <= Off(w, u, t)
    ensures Foot(w, u) == f
  {
    var wu, uu, c := Dot(w, u), Dot(u, u), Foot(w, u);
    OffAlong(w, u, f);
    OffAlong(w, u, c);
    AlongLeastOnly(wu, uu, f);
  }

  /** s is a, whole laps apart. */
  predicate LapsFrom(a: real, s: real, length: real, laps: int) {
    s == a - laps as real * length
  }

  lemma PartOfOne(a: real, length: real)
    requires 0.0 <= a < length
    ensures 0.0 <= a / length < 1.0
  {
  }

  lemma WrapMeaning(a: real, length: real)
    requires length > 0.0
    ensures 0.0 <= Wrap(a, length) < length
    ensures exists laps :: LapsFrom(a, Wrap(a, length), length, laps)
    ensures 0.0 <= a < length ==> Wrap(a, length) == a
  {
    var ratio := a / length;
    assert LapsFrom(a, Wrap(a, length), length, ratio.Floor);
    if 0.0 <= a < length {
      assert ratio * length == a;
      PartOfOne(a, length);
    }
  }

  /** The segment's nearest point to p is a fraction f along it. */
  ghost predicate NearestAt(p: Point, nodes: seq<Point>, i: nat, f: real)
    requires i < |nodes|
  {
    && 0.0 <= f <= 1.0 && Vector(nodes, i) != Point(0.0, 0.0)
    && forall t :: 0.0 <= t <= 1.0 ==>
                     Off(Seen(p, nodes, i), Vector(nodes, i), f) <= Off(Seen(p, nodes, i), Vector(nodes, i), t)
  }

  lemma FootIsNearestAt(p: Point, nodes: seq<Point>, i: nat, f: real)
    requires i < |nodes| && NearestAt(p, nodes, i, f)
    ensures Foot(Seen(p, nodes, i), Vector(nodes, i)) == f
  {
    var u := Vector(nodes, i);
    if Dot(u, u) <= 0.0 { NoVector(u); }
    FootIsOnly(Seen(p, nodes, i), u, f);
  }

  lemma SameProduct(x: real, y: real, z: real)
    requires x == y
    ensures x * z == y * z
  {
  }

  /** Arc length up to the point a fraction f along segment i: the nodes before it, a step
      apart, then the part of the segment. */
  function ArcTo(nodes: seq<Point>, i: nat, f: real, length: real, hypot: Hypot): real
    requires i < |nodes|
  {
    Target(length, |nodes|, i) + f * Step(hypot, nodes[i], nodes[Next(|nodes|, i)])
  }

  lemma StepIsVector(nodes: seq<Point>, i: nat, hypot: Hypot)
    requires i < |nodes|
    ensures Step(hypot, nodes[i], nodes[Next(|nodes|, i)]) == hypot(Vector(nodes, i).x, Vector(nodes, i).y)
  {
  }

  lemma NodesBefore(length: real, n: nat, i: nat)
    requires n > 0
    ensures i as real * (length / (n as real)) == Target(length, n, i)
  {
  }

  lemma RawArcIs(p: Point, nodes: seq<Point>, i: nat, f: real, length: real, hypot: Hypot)
    requires i < |nodes| && Foot(Seen(p, nodes, i), Vector(nodes, i)) == f
    ensures RawArc(p, nodes, i, length, hypot) == ArcTo(nodes, i, f, length, hypot)
  {
    NodesBefore(length, |nodes|, i);
    StepIsVector(nodes, i, hypot);
    SameProduct(Foot(Seen(p, nodes, i), Vector(nodes, i)), f, Step(hypot, nodes[i], nodes[Next(|nodes|, i)]));
  }

  /** The arc length counted is that of the segment's point nearest to p, less whole laps. */
  lemma ArcOfNearestPoint(p: Point, nodes: seq<Point>, i: nat, f: real, length: real, hypot: Hypot)
    requires i < |nodes| && length > 0.0 && NearestAt(p, nodes, i, f)
    ensures 0.0 <= SegmentArc(p, nodes, i, length, hypot) < length
    ensures exists laps ::
              LapsFrom(ArcTo(nodes, i, f, length, hypot), SegmentArc(p, nodes, i, length, hypot), length, laps)
    ensures var along := ArcTo(nodes, i, f, length, hypot);
            0.0 <= along < length ==> SegmentArc(p, nodes, i, length, hypot) == along
  {
    FootIsNearestAt(p, nodes, i, f);
    RawArcIs(p, nodes, i, f, length, hypot);
    WrapMeaning(ArcTo(nodes, i, f, length, hypot), length);
  }

  lemma OnVector(nodes: seq<Point>, i: nat, f: real)
    requires i < |nodes|
    ensures Seen(Between(nodes[i], nodes[Next(|nodes|, i)], f), nodes, i)
            == Point(Times(f, Vector(nodes, i).x), Times(f, Vector(nodes, i).y))
  {
  }

  lemma OnVectorNearest(nodes: seq<Point>, i: nat, f: real)
    requires i < |nodes| && 0.0 <= f <= 1.0 && Vector(nodes, i) != Point(0.0, 0.0)
    ensures NearestAt(Between(nodes[i], nodes[Next(|nodes|, i)], f), nodes, i, f)
    ensures var p := Between(nodes[i], nodes[Next(|nodes|, i)], f);
            Off(Seen(p, nodes, i), Vector(nodes, i), f) == 0.0
  {
    OnVector(nodes, i, f);
    var u := Vector(nodes, i);
    var w := Seen(Between(nodes[i], nodes[Next(|nodes|, i)], f), nodes, i);
    assert Square(0.0) == 0.0;
    forall t | 0.0 <= t <= 1.0 ensures 0.0 <= Off(w, u, t) {
      SquareZero(w.x - Times(t, u.x));
      SquareZero(w.y - Times(t, u.y));
    }
  }

  lemma PartOf(f: real, step: real)
    requires 0.0 <= f < 1.0 && step > 0.0
    ensures 0.0 <= f * step < step
  {
    PositiveTimes(1.0 - f, step);
    assert Times(1.0 - f, step) == step - f * step;
  }

  lemma PartStep(length: real, n: nat, i: nat, f: real)
    requires i < n && length > 0.0 && 0.0 <= f < 1.0
    ensures 0.0 <= Target(length, n, i) + f * (length / (n as real)) < length
  {
    EvenSpacing(length, n, i);
    EvenSpacing(length, n, 0);
    TargetAscends(length, n, i + 1, n);
    TargetAscends(length, n, 0, i);
    PartOf(f, length / (n as real));
  }

  lemma FullStep(nodes: seq<Point>, i: nat, f: real, length: real, hypot: Hypot)
    requires i < |nodes| && Step(hypot, nodes[i], nodes[Next(|nodes|, i)]) == length / (|nodes| as real)
    ensures ArcTo(nodes, i, f, length, hypot) == Target(length, |nodes|, i) + f * (length / (|nodes| as real))
  {
    SameProduct(Step(hypot, nodes[i], nodes[Next(|nodes|, i)]), length / (|nodes| as real), f);
  }

  /** The squared distance of p from its projection on segment i. */
  function SegmentOff(p: Point, nodes: seq<Point>, i: nat): real
    requires i < |nodes|
  {
    var w, u := Seen(p, nodes, i), Vector(nodes, i);
    Off(w, u, Foot(w, u))
  }

  lemma WithinLap(nodes: seq<Point>, i: nat, f: real, length: real, hypot: Hypot)
    requires i < |nodes| && length > 0.0 && 0.0 <= f < 1.0
    requires Step(hypot, nodes[i], nodes[Next(|nodes|, i)]) == length / (|nodes| as real)
    ensures 0.0 <= ArcTo(nodes, i, f, length, hypot) < length
  {
    FullStep(nodes, i, f, length, hypot);
    PartStep(length, |nodes|, i, f);
  }

  /** A point of the lap is projected to its own arc length: where segment i is one step long,
      the point a fraction f along it is on it, i + f steps from the start. */
  lemma LapPointProjectsToItself(nodes: seq<Point>, i: nat, f: real, length: real, hypot: Hypot)
    requires i < |nodes| && length > 0.0 && 0.0 <= f < 1.0 && Vector(nodes, i) != Point(0.0, 0.0)
    requires Step(hypot, nodes[i], nodes[Next(|nodes|, i)]) == length / (|nodes| as real)
    ensures SegmentOff(Between(nodes[i], nodes[Next(|nodes|, i)], f), nodes, i) == 0.0
    ensures SegmentArc(Between(nodes[i], nodes[Next(|nodes|, i)], f), nodes, i, length, hypot)
            == ArcTo(nodes, i, f, length, hypot)
    ensures ArcTo(nodes, i, f, length, hypot) == Target(length, |nodes|, i) + f * (length / (|nodes| as real))
  {
    var p := Between(nodes[i], nodes[Next(|nodes|, i)], f);
    OnVectorNearest(nodes, i, f);
    FootIsNearestAt(p, nodes, i, f);
    WithinLap(nodes, i, f, length, hypot);
    ArcOfNearestPoint(p, nodes, i, f, length, hypot);
    FullStep(nodes, i, f, length, hypot);
  }

  /** p's projection on segment i is no farther from p than any point of segment k. */
  ghost predicate NoFarther(p: Point, nodes: seq<Point>, i: nat, k: nat)
    requires i < |nodes| && k < |nodes|
  {
    forall t :: 0.0 <= t <= 1.0 ==> SegmentOff(p, nodes, i) <= Off(Seen(p, nodes, k), Vector(nodes, k), t)
  }

  lemma NearestSegment(p: Point, nodes: seq<Point>, i: nat, k: nat)
    requires i < |nodes| && k < |nodes| && SegmentOff(p, nodes, i) <= SegmentOff(p, nodes, k)
    ensures NoFarther(p, nodes, i, k)
  {
    forall t | 0.0 <= t <= 1.0
      ensures SegmentOff(p, nodes, i) <= Off(Seen(p, nodes, k), Vector(nodes, k), t)
    {
      FootIsNearest(Seen(p, nodes, k), Vector(nodes, k), t);
    }
  }

  /** Projects p onto whichever of the two adjacent segments is nearer, the first on a tie:
      the answer is an arc length within one lap, and belongs to the nearest point of the two
      segments. */
  method ProjectToArc(p: Point, nodes: seq<Point>, nearest: int, length: real, hypot: Hypot) returns (s: real, i: nat)
    requires nodes != [] && length > 0.0
    ensures 0.0 <= s < length
    ensures var (j, k) := Adjacent(|nodes|, nearest);
            && (i == j || i == k) && k == nearest % |nodes| == Next(|nodes|, j)
            && s == SegmentArc(p, nodes, i, length, hypot)
            && NoFarther(p, nodes, i, j) && NoFarther(p, nodes, i, k)
            && (i != j ==> SegmentOff(p, nodes, k) < SegmentOff(p, nodes, j))
  {
    var (j, k) := Adjacent(|nodes|, nearest);
    NextAfterPrevious(|nodes|, nearest);
    i, s := j, SegmentArc(p, nodes, j, length, hypot);
    if SegmentOff(p, nodes, k) < SegmentOff(p, nodes, j) {
      i, s := k, SegmentArc(p, nodes, k, length, hypot);
    }
    NearestSegment(p, nodes, i, j);
    NearestSegment(p, nodes, i, k);
  }
}
