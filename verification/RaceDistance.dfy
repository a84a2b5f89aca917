/** Race distance from arc length (ingest/geometry.py `wrap_counts`, ingest/record.py): a
    car's position around the lap, frame by frame, unwrapped into metres of race distance.
    Numbers are reals: rounding of floats is not modelled. */
module RaceDistance {
  import opened Sorting

  // ------------------------------------------------------------------ counting crossings

  /** How one frame changes the crossing count: a drop of more than half a lap is a crossing,
      a rise of more than half a lap un-counts one. */
  function Crossing(prev: real, s: real, lapLength: real): int {
    if prev - s > lapLength / 2.0 then 1
    else if s - prev > lapLength / 2.0 then -1
    else 0
  }

  function WrapCount(s: seq<real>, lapLength: real, i: nat): int
    requires i < |s|
  {
    if i == 0 then 0 else WrapCount(s, lapLength, i - 1) + Crossing(s[i - 1], s[i], lapLength)
  }

  method WrapCounts(s: seq<real>, lapLength: real) returns (counts: seq<int>)
    ensures |counts| == |s|
    ensures forall i :: 0 <= i < |s| ==> counts[i] == WrapCount(s, lapLength, i)
  {
    var half := lapLength / 2.0;
    counts := [];
    var k := 0;
    for i := 0 to |s|
      invariant |counts| == i
      invariant i > 0 ==> k == WrapCount(s, lapLength, i - 1)
      invariant i == 0 ==> k == 0
      invariant forall j :: 0 <= j < i ==> counts[j] == WrapCount(s, lapLength, j)
    {
      if i > 0 {
        if s[i - 1] - s[i] > half {
          k := k + 1;
        } else if s[i] - s[i - 1] > half {
          k := k - 1;
        }
      }
      counts := counts + [k];
    }
  }

  /** The length of q laps. */
  ghost function Laps(lapLength: real, q: int): real
    decreases if q < 0 then -q else q
  {
    if q == 0 then 0.0
    else if q > 0 then Laps(lapLength, q - 1) + lapLength
    else Laps(lapLength, q + 1) - lapLength
  }

  lemma {:induction false} LapsIsProduct(lapLength: real, q: int)
    ensures Laps(lapLength, q) == (q as real) * lapLength
    decreases if q < 0 then -q else q
  {
    if q > 0 {
      LapsIsProduct(lapLength, q - 1);
      assert ((q - 1) as real) * lapLength == (q as real) * lapLength - lapLength;
    } else if q < 0 {
      LapsIsProduct(lapLength, q + 1);
      assert ((q + 1) as real) * lapLength == (q as real) * lapLength + lapLength;
    }
  }

  lemma {:induction false} LapsSum(lapLength: real, a: int, b: int)
    ensures Laps(lapLength, a + b) == Laps(lapLength, a) + Laps(lapLength, b)
    decreases if b < 0 then -b else b
  {
    if b > 0 {
      LapsSum(lapLength, a, b - 1);
    } else if b < 0 {
      LapsSum(lapLength, a, b + 1);
    }
  }

  lemma {:induction false} LapsBound(lapLength: real, q: int)
    requires lapLength > 0.0
    ensures q >= 0 ==> Laps(lapLength, q) >= 0.0
    ensures q >= 2 ==> Laps(lapLength, q) >= 2.0 * lapLength
    ensures q <= -2 ==> Laps(lapLength, q) <= -2.0 * lapLength
    ensures q == 1 ==> Laps(lapLength, q) == lapLength
    ensures q == -1 ==> Laps(lapLength, q) == -lapLength
    decreases if q < 0 then -q else q
  {
    if q > 0 { LapsBound(lapLength, q - 1); } else if q < 0 { LapsBound(lapLength, q + 1); }
  }

  /** `dist` is a car's true distance, `laps` and `s` its whole laps and its place in the lap. */
  ghost predicate OnLap(dist: seq<real>, laps: seq<int>, s: seq<real>, lapLength: real) {
    && lapLength > 0.0
    && |dist| == |laps| == |s|
    && forall i :: 0 <= i < |s| ==> 0.0 <= s[i] < lapLength && dist[i] == Laps(lapLength, laps[i]) + s[i]
  }

  /** A step the unwrapping can follow: less than half a lap, or exactly half a lap without
      crossing the line. */
  predicate Followed(d0: real, q0: int, d1: real, q1: int, lapLength: real) {
    (-lapLength / 2.0 < d1 - d0 < lapLength / 2.0)
    || (q0 == q1 && (d1 - d0 == lapLength / 2.0 || d1 - d0 == -lapLength / 2.0))
  }

  /** One frame: the crossing counted is the true change of lap if and only if the car's true
      step is one the unwrapping can follow. */
  lemma CrossingIsExact(s0: real, q0: int, s1: real, q1: int, lapLength: real)
    requires lapLength > 0.0 && 0.0 <= s0 < lapLength && 0.0 <= s1 < lapLength
    ensures Crossing(s0, s1, lapLength) == q1 - q0
            <==> Followed(Laps(lapLength, q0) + s0, q0, Laps(lapLength, q1) + s1, q1, lapLength)
  {
    LapsSum(lapLength, q0, q1 - q0);
    LapsBound(lapLength, q1 - q0);
  }

  /** On a lap of 100, a car that goes from 10 to 70 between two frames is counted a lap down,
      and one that goes from 60 over the line to 10 is not counted a lap up. */
  lemma LongStepsAreMiscounted()
    ensures Crossing(10.0, 70.0, 100.0) == -1 && !Followed(Laps(100.0, 0) + 10.0, 0, Laps(100.0, 0) + 70.0, 0, 100.0)
    ensures Crossing(60.0, 10.0, 100.0) == 0 && !Followed(Laps(100.0, 0) + 60.0, 0, Laps(100.0, 1) + 10.0, 1, 100.0)
  {
    CrossingIsExact(10.0, 0, 70.0, 0, 100.0);
    CrossingIsExact(60.0, 0, 10.0, 1, 100.0);
  }

  ghost predicate AllFollowed(dist: seq<real>, laps: seq<int>, lapLength: real)
    requires |dist| == |laps|
  {
    forall i :: 1 <= i < |dist| ==> Followed(dist[i - 1], laps[i - 1], dist[i], laps[i], lapLength)
  }

  /** The displacement since the first frame, put back together from count and place. */
  ghost function Unwrapped(s: seq<real>, lapLength: real, i: nat): real
    requires i < |s|
  {
    Laps(lapLength, WrapCount(s, lapLength, i)) + s[i]
  }

  ghost predicate UnwrapsTo(dist: seq<real>, laps: seq<int>, s: seq<real>, lapLength: real)
    requires |dist| == |laps| == |s|
  {
    forall i :: 0 <= i < |s| ==> Unwrapped(s, lapLength, i) == dist[i] - Laps(lapLength, laps[0])
  }

  lemma {:induction false} CountsAreLaps(dist: seq<real>, laps: seq<int>, s: seq<real>, lapLength: real, i: nat)
    requires OnLap(dist, laps, s, lapLength) && i < |s|
    requires AllFollowed(dist, laps, lapLength)
    ensures WrapCount(s, lapLength, i) == laps[i] - laps[0]
  {
    if i > 0 {
      CountsAreLaps(dist, laps, s, lapLength, i - 1);
      CrossingIsExact(s[i - 1], laps[i - 1], s[i], laps[i], lapLength);
    }
  }

  lemma CountFromUnwrapped(dist: seq<real>, laps: seq<int>, s: seq<real>, lapLength: real, i: nat)
    requires OnLap(dist, laps, s, lapLength) && i < |s|
    ensures Unwrapped(s, lapLength, i) == dist[i] - Laps(lapLength, laps[0])
            <==> WrapCount(s, lapLength, i) == laps[i] - laps[0]
  {
    var c := WrapCount(s, lapLength, i);
    var q := laps[i] - laps[0];
    LapsSum(lapLength, laps[0], q);
    LapsSum(lapLength, q, c - q);
    LapsBound(lapLength, c - q);
  }

  lemma StepFollowed(dist: seq<real>, laps: seq<int>, s: seq<real>, lapLength: real, i: nat)
    requires OnLap(dist, laps, s, lapLength) && 1 <= i < |s|
    requires Unwrapped(s, lapLength, i - 1) == dist[i - 1] - Laps(lapLength, laps[0])
    requires Unwrapped(s, lapLength, i) == dist[i] - Laps(lapLength, laps[0])
    ensures Followed(dist[i - 1], laps[i - 1], dist[i], laps[i], lapLength)
  {
    CountFromUnwrapped(dist, laps, s, lapLength, i);
    CountFromUnwrapped(dist, laps, s, lapLength, i - 1);
    CrossingIsExact(s[i - 1], laps[i - 1], s[i], laps[i], lapLength);
  }

  lemma FollowedUnwraps(dist: seq<real>, laps: seq<int>, s: seq<real>, lapLength: real)
    requires OnLap(dist, laps, s, lapLength) && AllFollowed(dist, laps, lapLength)
    ensures UnwrapsTo(dist, laps, s, lapLength)
  {
    forall i | 0 <= i < |s| ensures Unwrapped(s, lapLength, i) == dist[i] - Laps(lapLength, laps[0]) {
      CountsAreLaps(dist, laps, s, lapLength, i);
      CountFromUnwrapped(dist, laps, s, lapLength, i);
    }
  }

  /** Phase unwrapping is exact: it reproduces the true displacement at every frame,
      backward jitter over the line included, if and only if every step is one it can
      follow. */
  lemma UnwrapIsExact(dist: seq<real>, laps: seq<int>, s: seq<real>, lapLength: real)
    requires OnLap(dist, laps, s, lapLength)
    ensures UnwrapsTo(dist, laps, s, lapLength) <==> AllFollowed(dist, laps, lapLength)
  {
    if AllFollowed(dist, laps, lapLength) {
      FollowedUnwraps(dist, laps, s, lapLength);
    } else if UnwrapsTo(dist, laps, s, lapLength) {
      forall i | 1 <= i < |s| ensures Followed(dist[i - 1], laps[i - 1], dist[i], laps[i], lapLength) {
        StepFollowed(dist, laps, s, lapLength, i);
      }
    }
  }

  // ------------------------------------------------------------------ the pit lane

  /** The frame whose arc length frame i carries: its own, or in the pit lane that of the
      frame the car came in on. */
  function HeldFrame(inPit: seq<bool>, i: nat): (h: nat)
    requires i < |inPit|
    ensures h <= i
  {
    if i > 0 && inPit[i] then HeldFrame(inPit, i - 1) else i
  }

  /** It is the last frame out of the pit lane, or the first frame of all; every frame since is in
      the pit lane. */
  lemma {:induction false} HeldMeaning(inPit: seq<bool>, i: nat)
    requires i < |inPit|
    ensures HeldFrame(inPit, i) == 0 || !inPit[HeldFrame(inPit, i)]
    ensures forall k :: HeldFrame(inPit, i) < k <= i ==> inPit[k]
  {
    if i > 0 && inPit[i] { HeldMeaning(inPit, i - 1); }
  }

  function Frozen(s: seq<real>, inPit: seq<bool>): (f: seq<real>)
    requires |s| == |inPit|
  {
    seq(|s|, i requires 0 <= i < |s| => s[HeldFrame(inPit, i)])
  }

  method FreezeInPit(s: seq<real>, inPit: seq<bool>) returns (frozen: seq<real>)
    requires |s| == |inPit|
    ensures frozen == Frozen(s, inPit)
    ensures forall i :: 0 <= i < |s| ==> frozen[i] == if i > 0 && inPit[i] then frozen[i - 1] else s[i]
  {
    frozen := [];
    var held := 0.0;
    for i := 0 to |s|
      invariant |frozen| == i
      invariant i > 0 ==> held == s[HeldFrame(inPit, i - 1)]
      invariant forall j :: 0 <= j < i ==> frozen[j] == s[HeldFrame(inPit, j)]
    {
      if inPit[i] && i > 0 {
        frozen := frozen + [held];
      } else {
        frozen := frozen + [s[i]];
        held := s[i];
      }
    }
  }

  // ------------------------------------------------------------------ the running maximum

  function RunningMax(d: seq<real>, i: nat): (m: real)
    requires i < |d|
    ensures m >= d[i]
  {
    if i == 0 then d[0] else if RunningMax(d, i - 1) >= d[i] then RunningMax(d, i - 1) else d[i]
  }

  lemma {:induction false} RunningMaxMeaning(d: seq<real>, i: nat)
    requires i < |d|
    ensures forall j :: 0 <= j <= i ==> d[j] <= RunningMax(d, i)
    ensures exists j :: 0 <= j <= i && d[j] == RunningMax(d, i)
  {
    if i > 0 {
      RunningMaxMeaning(d, i - 1);
      if RunningMax(d, i - 1) >= d[i] {
        var j :| 0 <= j <= i - 1 && d[j] == RunningMax(d, i - 1);
      } else {
        assert d[i] == RunningMax(d, i);
      }
    } else {
      assert d[0] == RunningMax(d, 0);
    }
  }

  method Accumulate(d: seq<real>) returns (out: seq<real>)
    ensures |out| == |d| && forall i :: 0 <= i < |d| ==> out[i] == RunningMax(d, i)
  {
    out := [];
    for i := 0 to |d|
      invariant |out| == i && forall j :: 0 <= j < i ==> out[j] == RunningMax(d, j)
    {
      out := out + [if i > 0 && out[i - 1] >= d[i] then out[i - 1] else d[i]];
    }
  }

  // ------------------------------------------------------------------ the whole build

  /** Metres of race distance before the running maximum. */
  function RawDistance(s: seq<real>, inPit: seq<bool>, lap0: int, lapLength: real): (d: seq<real>)
    requires |s| == |inPit|
    ensures |d| == |s|
  {
    var frozen := Frozen(s, inPit);
    seq(|s|, i requires 0 <= i < |s| =>
          (((lap0 + WrapCount(frozen, lapLength, i)) as real) * lapLength + frozen[i]) / 10.0)
  }

  lemma {:induction false} WrapStays(s: seq<real>, lapLength: real, i: nat)
    requires 0 < i < |s| && s[i] == s[i - 1] && lapLength > 0.0
    ensures WrapCount(s, lapLength, i) == WrapCount(s, lapLength, i - 1)
  {
  }

  /** In the pit lane the raw distance stands still, so the running maximum does. */
  lemma PitStandsStill(s: seq<real>, inPit: seq<bool>, lap0: int, lapLength: real, i: nat)
    requires |s| == |inPit| && 0 < i < |s| && inPit[i] && lapLength > 0.0
    ensures RunningMax(RawDistance(s, inPit, lap0, lapLength), i)
            == RunningMax(RawDistance(s, inPit, lap0, lapLength), i - 1)
  {
    var d, frozen := RawDistance(s, inPit, lap0, lapLength), Frozen(s, inPit);
    assert frozen[i] == frozen[i - 1];
    WrapStays(frozen, lapLength, i);
    assert d[i] == d[i - 1];
  }

  /** Over any stretch of pit frames the finished curve is what it was at the frame the car came
      in on. */
  lemma {:induction false} PitStretchStandsStill(
    s: seq<real>, inPit: seq<bool>, lap0: int, lapLength: real, a: nat, b: nat)
    requires |s| == |inPit| && a <= b < |s| && lapLength > 0.0 && forall k :: a < k <= b ==> inPit[k]
    ensures Frozen(s, inPit)[b] == Frozen(s, inPit)[a] && (a == 0 || !inPit[a] ==> Frozen(s, inPit)[b] == s[a])
    ensures RunningMax(RawDistance(s, inPit, lap0, lapLength), b)
            == RunningMax(RawDistance(s, inPit, lap0, lapLength), a)
  {
    if a < b {
      PitStretchStandsStill(s, inPit, lap0, lapLength, a, b - 1);
      PitStandsStill(s, inPit, lap0, lapLength, b);
    }
  }

  lemma CurveStandsStill(s: seq<real>, inPit: seq<bool>, lap0: int, lapLength: real, curve: seq<real>)
    requires |s| == |inPit| == |curve| && lapLength > 0.0
    requires forall i :: 0 <= i < |s| ==> curve[i] == RunningMax(RawDistance(s, inPit, lap0, lapLength), i)
    ensures forall i :: 0 < i < |s| && inPit[i] ==> curve[i] == curve[i - 1]
  {
    forall i | 0 < i < |s| && inPit[i] ensures curve[i] == curve[i - 1] {
      PitStandsStill(s, inPit, lap0, lapLength, i);
    }
  }

  /** One car's curve, from raw arc lengths. */
  method BuildCurve(s: seq<real>, inPit: seq<bool>, lap0: int, lapLength: real) returns (curve: seq<real>)
    requires |s| == |inPit|
    ensures |curve| == |s|
    ensures forall i :: 0 <= i < |s| ==> curve[i] == RunningMax(RawDistance(s, inPit, lap0, lapLength), i)
    ensures lapLength > 0.0 ==> forall i :: 0 < i < |s| && inPit[i] ==> curve[i] == curve[i - 1]
  {
    var frozen := FreezeInPit(s, inPit);
    var counts := WrapCounts(frozen, lapLength);
    var d := [];
    for i := 0 to |s|
      invariant |d| == i
      invariant forall j :: 0 <= j < i ==> d[j] == RawDistance(s, inPit, lap0, lapLength)[j]
    {
      d := d + [((lap0 + counts[i]) as real * lapLength + frozen[i]) / 10.0];
    }
    assert d == RawDistance(s, inPit, lap0, lapLength);
    curve := Accumulate(d);
    if lapLength > 0.0 { CurveStandsStill(s, inPit, lap0, lapLength, curve); }
  }

  lemma {:induction false} RunningMaxAscends(d: seq<real>, i: nat, j: nat)
    requires i <= j < |d|
    ensures RunningMax(d, i) <= RunningMax(d, j)
  {
    if i < j { RunningMaxAscends(d, i, j - 1); }
  }

  lemma {:induction false} RunningMaxOfAscending(d: seq<real>, i: nat)
    requires NonDecreasing(d) && i < |d|
    ensures RunningMax(d, i) == d[i]
  {
    if i > 0 { RunningMaxOfAscending(d, i - 1); }
  }

  /** The true distances at the frames whose arc length is carried. */
  function Held<T>(xs: seq<T>, inPit: seq<bool>): (h: seq<T>)
    requires |xs| == |inPit|
  {
    seq(|xs|, i requires 0 <= i < |xs| => xs[HeldFrame(inPit, i)])
  }

  /** Whatever the samples, the curve a car ends up with never decreases. */
  lemma CurveNeverDecreases(s: seq<real>, inPit: seq<bool>, lap0: int, lapLength: real, curve: seq<real>)
    requires |s| == |inPit| == |curve|
    requires forall i :: 0 <= i < |s| ==> curve[i] == RunningMax(RawDistance(s, inPit, lap0, lapLength), i)
    ensures NonDecreasing(curve)
  {
    forall i, j | 0 <= i <= j < |curve| ensures curve[i] <= curve[j] {
      RunningMaxAscends(RawDistance(s, inPit, lap0, lapLength), i, j);
    }
  }

  lemma TotalLaps(lapLength: real, lap0: int, c: int)
    ensures ((lap0 + c) as real) * lapLength == Laps(lapLength, lap0 + c)
  {
    LapsSum(lapLength, lap0, c);
    LapsIsProduct(lapLength, lap0);
    LapsIsProduct(lapLength, c);
  }

  /** When every step between carried frames can be followed, the raw curve is the car's true
      race distance there (in metres; arc lengths are tenths), up to where the laps start. */
  lemma RawDistanceIsTrue(
    dist: seq<real>, laps: seq<int>, s: seq<real>, inPit: seq<bool>, lap0: int, lapLength: real, i: nat)
    requires OnLap(dist, laps, s, lapLength) && |s| == |inPit| && i < |s|
    requires AllFollowed(Held(dist, inPit), Held(laps, inPit), lapLength)
    ensures RawDistance(s, inPit, lap0, lapLength)[i]
            == (Laps(lapLength, lap0 - laps[0]) + dist[HeldFrame(inPit, i)]) / 10.0
  {
    var frozen := Frozen(s, inPit);
    var hd, hl := Held(dist, inPit), Held(laps, inPit);
    assert OnLap(hd, hl, frozen, lapLength);
    CountsAreLaps(hd, hl, frozen, lapLength, i);
    var c := WrapCount(frozen, lapLength, i);
    assert hl[0] == laps[0] && c == hl[i] - laps[0];
    TotalLaps(lapLength, lap0, c);
    LapsSum(lapLength, lap0 - laps[0], hl[i]);
    assert lap0 + c == lap0 - laps[0] + hl[i];
  }

  lemma {:induction false} HeldFrameAscends(inPit: seq<bool>, j: nat, k: nat)
    requires j <= k < |inPit|
    ensures HeldFrame(inPit, j) <= HeldFrame(inPit, k)
  {
    if j < k { HeldFrameAscends(inPit, j, k - 1); }
  }

  /** A car that only moves forward: the finished curve is its true race distance, frozen at
      pit entry while it is in the pit lane; a stop that straddles the line still counts its
      lap. */
  lemma ForwardCurveIsTrue(
    dist: seq<real>, laps: seq<int>, s: seq<real>, inPit: seq<bool>, lap0: int, lapLength: real, i: nat)
    requires OnLap(dist, laps, s, lapLength) && |s| == |inPit| && i < |s|
    requires NonDecreasing(dist)
    requires AllFollowed(Held(dist, inPit), Held(laps, inPit), lapLength)
    ensures RunningMax(RawDistance(s, inPit, lap0, lapLength), i)
            == (Laps(lapLength, lap0 - laps[0]) + dist[HeldFrame(inPit, i)]) / 10.0
    ensures !inPit[i] ==> HeldFrame(inPit, i) == i
  {
    var d := RawDistance(s, inPit, lap0, lapLength);
    forall j, k | 0 <= j <= k < |d| ensures d[j] <= d[k] {
      RawDistanceIsTrue(dist, laps, s, inPit, lap0, lapLength, j);
      RawDistanceIsTrue(dist, laps, s, inPit, lap0, lapLength, k);
      HeldFrameAscends(inPit, j, k);
    }
    RunningMaxOfAscending(d, i);
    RawDistanceIsTrue(dist, laps, s, inPit, lap0, lapLength, i);
  }
}
