/** Metres to seconds (ingest/geometry.py `invert_distance_curve` and `lap_deficit`, and the
    gap/interval pass of ingest/record.py): how long ago was the reference car here?

    A curve is a car's race distance at each instant of the shared time grid. Numbers are
    reals; `round` is Python's, half to even. */
module Gaps {
  import opened Model
  import opened Sorting

  // ------------------------------------------------------------------ inverting a curve

  /** Python's bisect_left between lo and hi. */
  function Bisect(a: seq<real>, x: real, lo: nat, hi: nat): (r: nat)
    requires lo <= hi <= |a|
    ensures lo <= r <= hi
    ensures lo < hi && r == hi ==> a[hi - 1] < x
    decreases hi - lo
  {
    if lo == hi then lo
    else
      var mid := (lo + hi) / 2;
      if a[mid] < x then Bisect(a, x, mid + 1, hi) else Bisect(a, x, lo, mid)
  }

  /** The straight line through (x0, y0) and (x1, y1), at x. */
  function Line(x0: real, x1: real, y0: real, y1: real, x: real): real
    requires x0 < x1
  {
    y0 + ((x - x0) / (x1 - x0)) * (y1 - y0)
  }

  function InvertDistanceCurve(times: seq<real>, dists: seq<real>, d: real): Option<real>
    requires |times| == |dists|
  {
    if |dists| == 0 || d < dists[0] || d > dists[|dists| - 1] then None
    else
      var i := Bisect(dists, d, 0, |dists|);
      if i == 0 then Some(times[0])
      else
        var d0, d1 := dists[i - 1], dists[i];
        if d1 <= d0 then Some(times[i])
        else Some(Line(d0, d1, times[i - 1], times[i], d))
  }

  ghost predicate Ascending(t: seq<real>) {
    forall i, j :: 0 <= i < j < |t| ==> t[i] < t[j]
  }

  /** A usable curve: instants strictly ascend, distance never decreases. */
  ghost predicate Curve(times: seq<real>, dists: seq<real>) {
    |times| == |dists| > 0 && Ascending(times) && NonDecreasing(dists)
  }

  /** The curve between its k-th and (k+1)-th instants: a straight line. */
  function OnSegment(times: seq<real>, dists: seq<real>, k: nat, t: real): real
    requires k + 1 < |times| == |dists| && times[k] < times[k + 1]
  {
    Line(times[k], times[k + 1], dists[k], dists[k + 1], t)
  }

  ghost predicate BelowUpTo(a: seq<real>, x: real, n: nat)
    requires n <= |a|
  {
    forall k :: 0 <= k < n ==> a[k] < x
  }

  ghost predicate ReachedFrom(a: seq<real>, x: real, n: nat) {
    forall k :: n <= k < |a| ==> a[k] >= x
  }

  lemma {:induction false} BisectMeaning(a: seq<real>, x: real, lo: nat, hi: nat)
    requires NonDecreasing(a) && lo <= hi <= |a| && BelowUpTo(a, x, lo) && ReachedFrom(a, x, hi)
    ensures BelowUpTo(a, x, Bisect(a, x, lo, hi)) && ReachedFrom(a, x, Bisect(a, x, lo, hi))
    decreases hi - lo
  {
    if lo < hi {
      var mid := (lo + hi) / 2;
      if a[mid] < x {
        BisectMeaning(a, x, mid + 1, hi);
      } else {
        BisectMeaning(a, x, lo, mid);
      }
    }
  }

  /** The index the inversion works at: the first instant at or past distance d. */
  ghost function ReachIndex(dists: seq<real>, d: real): (i: nat)
    requires NonDecreasing(dists) && |dists| > 0 && d <= dists[|dists| - 1]
    ensures i < |dists| && dists[i] >= d && forall k :: 0 <= k < i ==> dists[k] < d
  {
    BisectMeaning(dists, d, 0, |dists|);
    Bisect(dists, d, 0, |dists|)
  }

  lemma Divide(x: real, y: real)
    requires y > 0.0
    ensures (x / y) * y == x
    ensures 0.0 <= x ==> 0.0 <= x / y
    ensures x <= y ==> x / y <= 1.0
    ensures 0.0 < x ==> 0.0 < x / y
    ensures x < 0.0 ==> x / y < 0.0
  {
  }

  /** A fraction of a positive span. */
  lemma Fraction(f: real, span: real)
    requires span > 0.0
    ensures 0.0 <= f ==> 0.0 <= f * span
    ensures f <= 1.0 ==> f * span <= span
    ensures 0.0 < f ==> 0.0 < f * span
    ensures f < 1.0 ==> f * span < span
  {
    if f <= 1.0 { assert (1.0 - f) * span >= 0.0; }
    if f < 1.0 { assert (1.0 - f) * span > 0.0; }
  }

  lemma LineBetween(x0: real, x1: real, y0: real, y1: real, x: real)
    requires x0 <= x <= x1 && x0 < x1 && y0 <= y1
    ensures y0 <= Line(x0, x1, y0, y1, x) <= y1
    ensures x0 < x && y0 < y1 ==> y0 < Line(x0, x1, y0, y1, x)
  {
    Divide(x - x0, x1 - x0);
    if y0 < y1 { Fraction((x - x0) / (x1 - x0), y1 - y0); }
  }

  lemma LineRises(x0: real, x1: real, y0: real, y1: real, x: real, x': real)
    requires x0 < x1 && y0 < y1 && x < x'
    ensures Line(x0, x1, y0, y1, x) < Line(x0, x1, y0, y1, x')
  {
    var w, h := x1 - x0, y1 - y0;
    var f, f' := (x - x0) / w, (x' - x0) / w;
    Divide(x' - x, w);
    assert f' - f == (x' - x) / w;
    Fraction(f' - f, h);
    assert f' * h - f * h == (f' - f) * h;
  }

  /** Reading a line one way and then the other. */
  lemma LineBack(x0: real, x1: real, y0: real, y1: real, x: real)
    requires x0 < x1 && y0 < y1
    ensures Line(y0, y1, x0, x1, Line(x0, x1, y0, y1, x)) == x
  {
    var w, h := x1 - x0, y1 - y0;
    var f := (x - x0) / w;
    var y := Line(x0, x1, y0, y1, x);
    Divide(x - x0, w);
    Divide(f * h, h);
    assert y - y0 == f * h;
  }

  /** Where the inversion lands: within the segment that first reaches d, exactly where that
      segment is at d. */
  lemma InversionOnCurve(times: seq<real>, dists: seq<real>, d: real)
    requires Curve(times, dists)
    ensures InvertDistanceCurve(times, dists, d).None? <==> d < dists[0] || d > dists[|dists| - 1]
    ensures dists[0] <= d <= dists[|dists| - 1] ==>
              var r := InvertDistanceCurve(times, dists, d).value;
              var i := ReachIndex(dists, d);
              if i == 0 then r == times[0] && d == dists[0]
              else times[i - 1] < r <= times[i] && OnSegment(times, dists, i - 1, r) == d
  {
    if dists[0] <= d <= dists[|dists| - 1] {
      var i := ReachIndex(dists, d);
      if i > 0 {
        LineBetween(dists[i - 1], dists[i], times[i - 1], times[i], d);
        LineBack(dists[i - 1], dists[i], times[i - 1], times[i], d);
      }
    }
  }

  lemma SegmentBounds(times: seq<real>, dists: seq<real>, k: nat, t: real)
    requires Curve(times, dists) && k + 1 < |times| && times[k] <= t <= times[k + 1]
    ensures dists[k] <= OnSegment(times, dists, k, t) <= dists[k + 1]
  {
    LineBetween(times[k], times[k + 1], dists[k], dists[k + 1], t);
  }

  lemma SegmentRises(times: seq<real>, dists: seq<real>, k: nat, t: real, u: real)
    requires Curve(times, dists) && k + 1 < |times| && dists[k] < dists[k + 1] && t < u
    ensures OnSegment(times, dists, k, t) < OnSegment(times, dists, k, u)
  {
    LineRises(times[k], times[k + 1], dists[k], dists[k + 1], t, u);
  }

  /** Before the segment that first reaches d, or earlier within it, the curve is below d. */
  lemma BelowBefore(times: seq<real>, dists: seq<real>, d: real, k: nat, t: real)
    requires Curve(times, dists) && dists[0] <= d <= dists[|dists| - 1]
    requires k + 1 < |times| && times[k] <= t <= times[k + 1]
    requires t < InvertDistanceCurve(times, dists, d).value
    ensures OnSegment(times, dists, k, t) < d
  {
    InversionOnCurve(times, dists, d);
    var r := InvertDistanceCurve(times, dists, d).value;
    var i := ReachIndex(dists, d);
    assert k > 0 ==> times[0] < times[k];
    assert 0 < i && k < i;
    SegmentBounds(times, dists, k, t);
    if k + 1 < i {
      assert dists[k + 1] < d;
    } else {
      SegmentRises(times, dists, k, t, r);
    }
  }

  /** The inversion returns the least instant at which the interpolated curve reaches d: it
      is there at d, and at every earlier instant, on whichever segment, it is still below. */
  lemma InversionIsLeast(times: seq<real>, dists: seq<real>, d: real)
    requires Curve(times, dists) && dists[0] <= d <= dists[|dists| - 1]
    ensures InvertDistanceCurve(times, dists, d).Some?
    ensures var r := InvertDistanceCurve(times, dists, d).value;
            && times[0] <= r <= times[|times| - 1]
            && ((r == times[0] && d == dists[0])
                || exists k :: 0 <= k < |times| - 1 && times[k] < r <= times[k + 1]
                               && OnSegment(times, dists, k, r) == d)
            && forall k: nat, t: real ::
                 k + 1 < |times| && times[k] <= t <= times[k + 1] && t < r ==> OnSegment(times, dists, k, t) < d
  {
    InversionOnCurve(times, dists, d);
    var r := InvertDistanceCurve(times, dists, d).value;
    var i := ReachIndex(dists, d);
    if i > 0 {
      assert times[0] <= times[i - 1] && times[i] <= times[|times| - 1];
      assert OnSegment(times, dists, i - 1, r) == d;
    }
    forall k: nat, t: real | k + 1 < |times| && times[k] <= t <= times[k + 1] && t < r
      ensures OnSegment(times, dists, k, t) < d
    {
      BelowBefore(times, dists, d, k, t);
    }
  }

  /** Farther takes no less time. */
  lemma InversionMonotone(times: seq<real>, dists: seq<real>, d: real, e: real)
    requires Curve(times, dists) && dists[0] <= d <= e <= dists[|dists| - 1]
    ensures InvertDistanceCurve(times, dists, d).Some? && InvertDistanceCurve(times, dists, e).Some?
    ensures InvertDistanceCurve(times, dists, d).value <= InvertDistanceCurve(times, dists, e).value
  {
    InversionOnCurve(times, dists, d);
    InversionOnCurve(times, dists, e);
    var r, q := InvertDistanceCurve(times, dists, d).value, InvertDistanceCurve(times, dists, e).value;
    var i, j := ReachIndex(dists, d), ReachIndex(dists, e);
    assert i <= j;
    if i < j {
      assert times[i] <= times[j - 1];
    } else if i > 0 && q < r {
      SegmentRises(times, dists, i - 1, q, r);
    }
  }

  /** A car has been wherever it now is: distances up to the j-th sample were reached by the
      j-th instant. */
  lemma ReachedBy(times: seq<real>, dists: seq<real>, d: real, j: nat)
    requires Curve(times, dists) && j < |dists| && dists[0] <= d <= dists[j]
    ensures InvertDistanceCurve(times, dists, d).Some? && InvertDistanceCurve(times, dists, d).value <= times[j]
  {
    assert dists[j] <= dists[|dists| - 1];
    InversionOnCurve(times, dists, d);
    var i := ReachIndex(dists, d);
    assert i <= j;
    assert i == j || times[i] < times[j];
  }

  /** Inverting a curve at its own sample gives that sample's instant back if and only if the
      curve rose into it: a car that stood still is dated to when it stopped. */
  lemma InversionRoundTrip(times: seq<real>, dists: seq<real>, j: nat)
    requires Curve(times, dists) && j < |dists|
    ensures InvertDistanceCurve(times, dists, dists[j]) == Some(times[j]) <==> j == 0 || dists[j - 1] < dists[j]
  {
    assert dists[0] <= dists[j] <= dists[|dists| - 1];
    InversionOnCurve(times, dists, dists[j]);
    var i := ReachIndex(dists, dists[j]);
    assert i <= j;
    if j > 0 && dists[j - 1] == dists[j] {
      ReachedBy(times, dists, dists[j], j - 1);
    } else {
      if i > 0 {
        var r := InvertDistanceCurve(times, dists, dists[j]).value;
        assert OnSegment(times, dists, i - 1, times[i]) == dists[i];
        if r < times[i] { SegmentRises(times, dists, i - 1, r, times[i]); }
      }
    }
  }

  // ------------------------------------------------------------------ rounding, laps

  /** Python's round: to the nearest integer, halves to even. */
  function RoundHalfEven(x: real): int {
    var f := x.Floor;
    if x - f as real < 0.5 then f
    else if x - f as real > 0.5 then f + 1
    else if f % 2 == 0 then f else f + 1
  }

  lemma RoundMonotone(x: real, y: real)
    requires x <= y
    ensures RoundHalfEven(x) <= RoundHalfEven(y)
  {
  }

  /** Every number rounds to the one integer within a half of it, a half to the even one. */
  lemma RoundMeaning(x: real, n: int)
    ensures RoundHalfEven(x) == n
            <==> n as real - 0.5 < x < n as real + 0.5
                 || ((x == n as real - 0.5 || x == n as real + 0.5) && n % 2 == 0)
  {
  }

  function LapDeficit(metresBehind: real, lapLength: real): int {
    if lapLength <= 0.0 || metresBehind <= 0.0 then 0 else (metresBehind / lapLength + 0.1).Floor
  }

  /** Whole laps behind: k laps from a tenth of a lap short of k laps on. */
  lemma LapDeficitMeaning(metresBehind: real, lapLength: real, k: int)
    requires lapLength > 0.0 && metresBehind > 0.0
    ensures LapDeficit(metresBehind, lapLength) == k
            <==> k as real - 0.1 <= metresBehind / lapLength < k as real + 0.9
    ensures LapDeficit(metresBehind, lapLength) >= 0
  {
    Divide(metresBehind, lapLength);
  }

  // ------------------------------------------------------------------ one frame's pass

  /** One car of a frame, in classified order: where it is and what may be quoted for it. */
  datatype Entry = Entry(driverNum: int, hasLap: bool, inPit: bool, dist: real)

  datatype Quote = Quote(gapMs: Option<int>, gapLaps: Option<int>, intMs: Option<int>)

  /** The frame: the time grid, the frame's index, every car's curve, the cars. */
  datatype FrameData = FrameData(
    times: seq<real>, i: nat, curves: map<int, seq<real>>, cars: seq<Entry>, lapLengthM: real)

  ghost predicate CarOk(f: FrameData, c: Entry)
    requires f.i < |f.times|
  {
    c.driverNum in f.curves && Curve(f.times, f.curves[c.driverNum]) && c.dist == f.curves[c.driverNum][f.i]
  }

  ghost predicate Valid(f: FrameData) {
    && f.i < |f.times|
    && f.cars != []
    && forall k :: 0 <= k < |f.cars| ==> CarOk(f, f.cars[k])
  }

  /** Milliseconds since the car with this curve was at d; None when it was never seen there
      or is somehow behind. */
  function BehindMs(times: seq<real>, curve: seq<real>, d: real, now: real): Option<int>
    requires |times| == |curve|
  {
    var ref := InvertDistanceCurve(times, curve, d);
    if ref.None? || ref.value > now then None else Some(RoundHalfEven((now - ref.value) * 1000.0))
  }

  predicate Quotable(f: FrameData, k: nat)
    requires k < |f.cars|
  {
    f.cars[k].hasLap && f.cars[0].hasLap && !f.cars[k].inPit
  }

  /** Gap to the leader before the zero check. */
  function RawGap(f: FrameData, k: nat): Option<int>
    requires k < |f.cars| && f.i < |f.times|
    requires f.cars[0].driverNum in f.curves && |f.curves[f.cars[0].driverNum]| == |f.times|
  {
    if Quotable(f, k) then BehindMs(f.times, f.curves[f.cars[0].driverNum], f.cars[k].dist, f.times[f.i]) else None
  }

  function Positive(x: Option<int>): Option<int> {
    if x.Some? && x.value > 0 then x else None
  }

  ghost predicate Shaped(f: FrameData) {
    && f.i < |f.times| && f.cars != []
    && forall k :: 0 <= k < |f.cars| ==> f.cars[k].driverNum in f.curves && |f.curves[f.cars[k].driverNum]| == |f.times|
  }

  /** Interval to the car ahead before the zero check: against that car's own curve, or when
      that does not reach back far enough, the difference of the two gaps to the leader. */
  ghost function RawInterval(f: FrameData, k: nat): Option<int>
    requires Shaped(f) && k < |f.cars|
  {
    if k == 0 || !Quotable(f, k) || !f.cars[k - 1].hasLap || f.cars[k - 1].inPit then None
    else
      var direct := BehindMs(f.times, f.curves[f.cars[k - 1].driverNum], f.cars[k].dist, f.times[f.i]);
      if direct.Some? then direct
      else if RawGap(f, k).Some? && RawGap(f, k - 1).Some? then Some(RawGap(f, k).value - RawGap(f, k - 1).value)
      else None
  }

  ghost function QuoteOf(f: FrameData, k: nat): Quote
    requires Shaped(f) && k < |f.cars|
  {
    var laps := LapDeficit(f.cars[0].dist - f.cars[k].dist, f.lapLengthM);
    Quote(Positive(RawGap(f, k)), if laps > 0 then Some(laps) else None, Positive(RawInterval(f, k)))
  }

  /** The pass over a frame's cars, in classified order, carrying the car ahead and its gap;
      each car's quote is written in place. */
  method QuotePass(f: FrameData, quotes: array<Quote>)
    requires Shaped(f) && quotes.Length == |f.cars|
    modifies quotes
    ensures forall k :: 0 <= k < |f.cars| ==> quotes[k] == QuoteOf(f, k)
  {
    var leaderCurve := f.curves[f.cars[0].driverNum];
    var now := f.times[f.i];
    var prevGap: Option<int> := None;
    for k := 0 to |f.cars|
      invariant k > 0 ==> prevGap == RawGap(f, k - 1)
      invariant forall j :: 0 <= j < k ==> quotes[j] == QuoteOf(f, j)
    {
      var car := f.cars[k];
      var quotable := car.hasLap && f.cars[0].hasLap && !car.inPit;
      var gap: Option<int> := None;
      if quotable { gap := BehindMs(f.times, leaderCurve, car.dist, now); }
      var q := Quote(None, None, None);
      if gap.Some? && gap.value > 0 { q := q.(gapMs := gap); }
      var laps := LapDeficit(f.cars[0].dist - car.dist, f.lapLengthM);
      if laps > 0 { q := q.(gapLaps := Some(laps)); }
      if k > 0 && quotable && f.cars[k - 1].hasLap && !f.cars[k - 1].inPit {
        var int_ := BehindMs(f.times, f.curves[f.cars[k - 1].driverNum], car.dist, now);
        if int_.None? && gap.Some? && prevGap.Some? {
          int_ := Some(gap.value - prevGap.value);
        }
        if int_.Some? && 0 < int_.value { q := q.(intMs := int_); }
      }
      quotes[k] := q;
      prevGap := gap;
    }
  }

  // ------------------------------------------------------------------ what is quoted

  /** A gap is quoted only on track and once car and leader have both completed a lap; an
      interval only if so has the car ahead, on track too. */
  lemma QuotedOnTrack(f: FrameData, k: nat)
    requires Shaped(f) && k < |f.cars|
    ensures QuoteOf(f, k).gapMs.Some? ==> f.cars[k].hasLap && f.cars[0].hasLap && !f.cars[k].inPit
    ensures QuoteOf(f, k).intMs.Some? ==>
              && 0 < k && f.cars[k].hasLap && f.cars[0].hasLap && !f.cars[k].inPit
              && f.cars[k - 1].hasLap && !f.cars[k - 1].inPit
  {
  }

  /** A lap deficit is quoted exactly from a tenth of a lap short of one lap on, in the pit lane
      or not, and is k from a tenth of a lap short of k. */
  lemma LapsQuotedIff(f: FrameData, k: nat, laps: int)
    requires Shaped(f) && k < |f.cars| && f.lapLengthM > 0.0
    ensures var behind := (f.cars[0].dist - f.cars[k].dist) / f.lapLengthM;
            && (QuoteOf(f, k).gapLaps.Some? <==> behind >= 0.9)
            && (QuoteOf(f, k).gapLaps == Some(laps) <==>
                  behind >= 0.9 && laps as real - 0.1 <= behind < laps as real + 0.9)
  {
    var metres := f.cars[0].dist - f.cars[k].dist;
    if metres > 0.0 {
      LapDeficitMeaning(metres, f.lapLengthM, laps);
      LapDeficitMeaning(metres, f.lapLengthM, 0);
      LapDeficitMeaning(metres, f.lapLengthM, LapDeficit(metres, f.lapLengthM));
    } else {
      Divide(-metres, f.lapLengthM);
      assert metres / f.lapLengthM == -(-metres / f.lapLengthM);
    }
  }

  /** A raw gap is never negative, and a car no farther along than another has at least its
      gap: quoted gaps are ordered by distance. */
  lemma GapsOrdered(f: FrameData, j: nat, k: nat)
    requires Valid(f) && Shaped(f) && j < |f.cars| && k < |f.cars|
    requires RawGap(f, j).Some? && RawGap(f, k).Some? && f.cars[k].dist <= f.cars[j].dist
    ensures 0 <= RawGap(f, j).value <= RawGap(f, k).value
  {
    assert CarOk(f, f.cars[0]);
    var curve := f.curves[f.cars[0].driverNum];
    InversionOnCurve(f.times, curve, f.cars[j].dist);
    InversionOnCurve(f.times, curve, f.cars[k].dist);
    InversionMonotone(f.times, curve, f.cars[k].dist, f.cars[j].dist);
    var rj := InvertDistanceCurve(f.times, curve, f.cars[j].dist).value;
    var rk := InvertDistanceCurve(f.times, curve, f.cars[k].dist).value;
    RoundMonotone(0.0, (f.times[f.i] - rj) * 1000.0);
    RoundMonotone((f.times[f.i] - rj) * 1000.0, (f.times[f.i] - rk) * 1000.0);
  }

  /** A quotable car at or behind the leader goes unquoted by the leader's curve exactly when
      its distance lies before that curve starts. */
  lemma UnquotedOnlyBeforeCurve(f: FrameData, k: nat)
    requires Valid(f) && Shaped(f) && k < |f.cars| && Quotable(f, k) && f.cars[k].dist <= f.cars[0].dist
    ensures RawGap(f, k).None? <==> f.cars[k].dist < f.curves[f.cars[0].driverNum][0]
  {
    assert CarOk(f, f.cars[0]);
    var curve := f.curves[f.cars[0].driverNum];
    if curve[0] <= f.cars[k].dist {
      ReachedBy(f.times, curve, f.cars[k].dist, f.i);
    }
  }

  /** Both forms of the interval are non-negative for a car no farther along than the one
      ahead, so dropping non-positive values drops only zeros. */
  lemma IntervalNotNegative(f: FrameData, k: nat)
    requires Valid(f) && Shaped(f) && 0 < k < |f.cars| && f.cars[k].dist <= f.cars[k - 1].dist
    requires RawInterval(f, k).Some?
    ensures 0 <= RawInterval(f, k).value
  {
    var ahead := f.curves[f.cars[k - 1].driverNum];
    var direct := BehindMs(f.times, ahead, f.cars[k].dist, f.times[f.i]);
    if direct.Some? {
      RoundMonotone(0.0, (f.times[f.i] - InvertDistanceCurve(f.times, ahead, f.cars[k].dist).value) * 1000.0);
    } else {
      GapsOrdered(f, k - 1, k);
    }
  }

  lemma RoundNear(x: real)
    ensures x - 0.5 <= RoundHalfEven(x) as real <= x + 0.5
  {
  }

  /** A car the one ahead of it was never seen behind at, and both seen by the leader. */
  ghost predicate FallsBack(f: FrameData, k: nat)
    requires Valid(f) && Shaped(f) && k < |f.cars|
  {
    && 0 < k && Quotable(f, k) && f.cars[k - 1].hasLap && !f.cars[k - 1].inPit
    && f.cars[k].dist <= f.cars[k - 1].dist
    && f.cars[k].dist < f.curves[f.cars[k - 1].driverNum][0]
  }

  /** Where the car ahead was never seen where this one is, there is an interval if and only if
      both have a gap to the leader; it then completes the gap of the car ahead to this one's,
      and is within a millisecond of the time the leader took from one place to the other. */
  lemma FallbackIsLeadersTime(f: FrameData, k: nat)
    requires Valid(f) && Shaped(f) && k < |f.cars| && FallsBack(f, k)
    ensures RawInterval(f, k).Some? <==> RawGap(f, k).Some? && RawGap(f, k - 1).Some?
    ensures RawInterval(f, k).Some? ==>
              var curve := f.curves[f.cars[0].driverNum];
              var here := InvertDistanceCurve(f.times, curve, f.cars[k].dist);
              var ahead := InvertDistanceCurve(f.times, curve, f.cars[k - 1].dist);
              && RawGap(f, k - 1).value + RawInterval(f, k).value == RawGap(f, k).value
              && here.Some? && ahead.Some?
              && var took := (ahead.value - here.value) * 1000.0;
                 took - 1.0 <= RawInterval(f, k).value as real <= took + 1.0
  {
    assert CarOk(f, f.cars[k - 1]) && CarOk(f, f.cars[0]);
    InversionOnCurve(f.times, f.curves[f.cars[k - 1].driverNum], f.cars[k].dist);
    if RawGap(f, k).Some? && RawGap(f, k - 1).Some? {
      var curve, now := f.curves[f.cars[0].driverNum], f.times[f.i];
      RoundNear((now - InvertDistanceCurve(f.times, curve, f.cars[k].dist).value) * 1000.0);
      RoundNear((now - InvertDistanceCurve(f.times, curve, f.cars[k - 1].dist).value) * 1000.0);
    }
  }

  /** The leader's own raw gap is dated to when it reached where it is: the instant of this
      frame, so zero, if its curve rose into the frame. */
  lemma LeaderGapMoving(f: FrameData)
    requires Valid(f) && Shaped(f) && Quotable(f, 0)
    requires f.i == 0 || f.curves[f.cars[0].driverNum][f.i - 1] < f.curves[f.cars[0].driverNum][f.i]
    ensures RawGap(f, 0) == Some(0)
  {
    assert CarOk(f, f.cars[0]);
    InversionRoundTrip(f.times, f.curves[f.cars[0].driverNum], f.i);
  }

  /** The instant a leader's curve first reached where it is in this frame. */
  ghost function StandsSince(f: FrameData): (since: nat)
    requires Valid(f) && Shaped(f)
    ensures since <= f.i
    ensures var curve := f.curves[f.cars[0].driverNum];
            curve[since] == curve[f.i] && forall k :: 0 <= k < since ==> curve[k] < curve[since]
  {
    assert CarOk(f, f.cars[0]);
    var curve := f.curves[f.cars[0].driverNum];
    var since := ReachIndex(curve, curve[f.i]);
    assert since <= f.i;
    since
  }

  /** A leader's gap to itself is exactly the rounded time it has stood still, and it is
      quoted if and only if that rounds to something: a stop of more than half a millisecond. */
  lemma LeaderGapStopped(f: FrameData)
    requires Valid(f) && Shaped(f) && Quotable(f, 0)
    ensures var stood := (f.times[f.i] - f.times[StandsSince(f)]) * 1000.0;
            && RawGap(f, 0) == Some(RoundHalfEven(stood))
            && (QuoteOf(f, 0).gapMs.Some? <==> stood > 0.5)
  {
    assert CarOk(f, f.cars[0]);
    var curve := f.curves[f.cars[0].driverNum];
    var since := StandsSince(f);
    InversionRoundTrip(f.times, curve, since);
  }

  /** What reaches the wire for a frame: every gap and interval quoted is positive, gaps never
      shrink going back along the road, and lap deficits are at least one. */
  lemma QuotesAreSound(f: FrameData, j: nat, k: nat)
    requires Valid(f) && Shaped(f) && j < |f.cars| && k < |f.cars|
    ensures QuoteOf(f, k).gapMs.Some? ==> QuoteOf(f, k).gapMs.value > 0
    ensures QuoteOf(f, k).intMs.Some? ==> QuoteOf(f, k).intMs.value > 0
    ensures QuoteOf(f, k).gapLaps.Some? ==> QuoteOf(f, k).gapLaps.value > 0
    ensures QuoteOf(f, j).gapMs.Some? && QuoteOf(f, k).gapMs.Some? && f.cars[k].dist <= f.cars[j].dist ==>
              QuoteOf(f, j).gapMs.value <= QuoteOf(f, k).gapMs.value
  {
    if QuoteOf(f, j).gapMs.Some? && QuoteOf(f, k).gapMs.Some? && f.cars[k].dist <= f.cars[j].dist {
      GapsOrdered(f, j, k);
    }
  }
}
