/** From raw arc lengths to quoted gaps (ingest/record.py): every car's curve is built from its
    samples, and each frame's pass reads gaps and intervals off those curves. */
module Recording {
  import opened Model
  import opened Sorting
  import opened RaceDistance
  import opened Gaps

  /** One car's samples: arc length in tenths of a metre and pit lane, frame by frame. */
  datatype Track = Track(driverNum: int, s: seq<real>, inPit: seq<bool>, lap0: int)

  datatype Recording = Recording(times: seq<real>, tracks: seq<Track>, lapRaw: real)

  /** A car of a frame in classified order: which, and whether it has completed a lap. */
  datatype Slot = Slot(car: nat, hasLap: bool)

  /** One sample of every car at each instant of the grid. Nothing is asked of the samples. */
  ghost predicate Sampled(r: Recording) {
    && Gaps.Ascending(r.times)
    && (forall c :: 0 <= c < |r.tracks| ==> |r.tracks[c].s| == |r.tracks[c].inPit| == |r.times|)
    && (forall b, c :: 0 <= b < c < |r.tracks| ==> r.tracks[b].driverNum != r.tracks[c].driverNum)
  }

  ghost predicate Classified(r: Recording, i: nat, order: seq<Slot>) {
    Sampled(r) && i < |r.times| && order != [] && forall k :: 0 <= k < |order| ==> order[k].car < |r.tracks|
  }

  function FinishedCurve(t: Track, lapRaw: real): (curve: seq<real>)
    requires |t.s| == |t.inPit|
    ensures |curve| == |t.s|
  {
    seq(|t.s|, i requires 0 <= i < |t.s| => RunningMax(RawDistance(t.s, t.inPit, t.lap0, lapRaw), i))
  }

  /** The curves of the first n cars, by driver. */
  ghost function Curves(r: Recording, n: nat): map<int, seq<real>>
    requires Sampled(r) && n <= |r.tracks|
  {
    if n == 0 then map[] else Curves(r, n - 1)[r.tracks[n - 1].driverNum := FinishedCurve(r.tracks[n - 1], r.lapRaw)]
  }

  lemma {:induction false} CurveOf(r: Recording, n: nat, c: nat)
    requires Sampled(r) && c < n <= |r.tracks|
    ensures var d := r.tracks[c].driverNum;
            d in Curves(r, n) && Curves(r, n)[d] == FinishedCurve(r.tracks[c], r.lapRaw)
  {
    if c < n - 1 { CurveOf(r, n - 1, c); }
  }

  /** A car's entry in frame i, given its curve. */
  function EntryOf(t: Track, hasLap: bool, i: nat, curve: seq<real>): Entry
    requires i < |t.inPit| && i < |curve|
  {
    Entry(t.driverNum, hasLap, t.inPit[i], curve[i])
  }

  function Entries(r: Recording, i: nat, order: seq<Slot>): (cars: seq<Entry>)
    requires Classified(r, i, order)
    ensures |cars| == |order|
  {
    seq(|order|, k requires 0 <= k < |order| =>
      EntryOf(r.tracks[order[k].car], order[k].hasLap, i, FinishedCurve(r.tracks[order[k].car], r.lapRaw)))
  }

  /** What the pass over frame i works on. */
  ghost function FrameOf(r: Recording, i: nat, order: seq<Slot>): FrameData
    requires Classified(r, i, order)
  {
    FrameData(r.times, i, Curves(r, |r.tracks|), Entries(r, i, order), r.lapRaw / 10.0)
  }

  // ------------------------------------------------------------------ any samples

  lemma FinishedIsCurve(r: Recording, c: nat)
    requires Sampled(r) && c < |r.tracks| && r.times != []
    ensures Curve(r.times, FinishedCurve(r.tracks[c], r.lapRaw))
  {
    var t := r.tracks[c];
    CurveNeverDecreases(t.s, t.inPit, t.lap0, r.lapRaw, FinishedCurve(t, r.lapRaw));
  }

  /** Whatever was sampled, what the pass works on is what its theorems ask for. */
  lemma RecordedIsValid(r: Recording, i: nat, order: seq<Slot>)
    requires Classified(r, i, order)
    ensures Valid(FrameOf(r, i, order)) && Shaped(FrameOf(r, i, order))
  {
    var f := FrameOf(r, i, order);
    forall k | 0 <= k < |f.cars| ensures CarOk(f, f.cars[k]) && |f.curves[f.cars[k].driverNum]| == |f.times| {
      CurveOf(r, |r.tracks|, order[k].car);
      FinishedIsCurve(r, order[k].car);
    }
  }

  /** So from any raw samples: everything quoted is positive, gaps never shrink going back
      along the road, a quotable car at or behind the leader goes without a gap only where the
      leader's curve does not reach back, and no interval is negative. */
  lemma RecordedQuotesAreSound(r: Recording, i: nat, order: seq<Slot>, j: nat, k: nat)
    requires Classified(r, i, order) && j < |order| && k < |order|
    ensures Shaped(FrameOf(r, i, order))
    ensures var f := FrameOf(r, i, order);
            var q, p := QuoteOf(f, j), QuoteOf(f, k);
            && (p.gapMs.Some? ==> p.gapMs.value > 0)
            && (p.intMs.Some? ==> p.intMs.value > 0)
            && (p.gapLaps.Some? ==> p.gapLaps.value > 0)
            && (q.gapMs.Some? && p.gapMs.Some? && f.cars[k].dist <= f.cars[j].dist ==> q.gapMs.value <= p.gapMs.value)
            && (Quotable(f, k) && f.cars[k].dist <= f.cars[0].dist ==>
                  (RawGap(f, k).None? <==> f.cars[k].dist < f.curves[f.cars[0].driverNum][0]))
            && (k > 0 && f.cars[k].dist <= f.cars[k - 1].dist && RawInterval(f, k).Some? ==>
                  RawInterval(f, k).value >= 0)
  {
    var f := FrameOf(r, i, order);
    RecordedIsValid(r, i, order);
    QuotesAreSound(f, j, k);
    if Quotable(f, k) && f.cars[k].dist <= f.cars[0].dist { UnquotedOnlyBeforeCurve(f, k); }
    if k > 0 && f.cars[k].dist <= f.cars[k - 1].dist && RawInterval(f, k).Some? { IntervalNotNegative(f, k); }
  }

  // ------------------------------------------------------------------ true samples

  /** Where a car truly was: its race distance, and the laps in it, frame by frame. */
  datatype Truth = Truth(dist: seq<real>, laps: seq<int>)

  /** The samples are of a car that only moves forward, in steps the unwrapping can follow,
      with the laps counted from the one it was on at the first frame. */
  ghost predicate TrueTo(t: Track, u: Truth, lapRaw: real) {
    && |t.s| == |t.inPit| > 0 && OnLap(u.dist, u.laps, t.s, lapRaw)
    && NonDecreasing(u.dist) && AllFollowed(Held(u.dist, t.inPit), Held(u.laps, t.inPit), lapRaw)
    && t.lap0 == u.laps[0]
  }

  /** The car's true distance in metres, held at pit entry while it is in the pit lane. */
  ghost function TrueCurve(t: Track, u: Truth): (curve: seq<real>)
    requires |t.inPit| == |u.dist|
    ensures |curve| == |u.dist|
  {
    seq(|u.dist|, i requires 0 <= i < |u.dist| => u.dist[HeldFrame(t.inPit, i)] / 10.0)
  }

  lemma FinishedIsTrue(t: Track, u: Truth, lapRaw: real)
    requires TrueTo(t, u, lapRaw)
    ensures FinishedCurve(t, lapRaw) == TrueCurve(t, u)
  {
    forall i | 0 <= i < |t.s| ensures FinishedCurve(t, lapRaw)[i] == TrueCurve(t, u)[i] {
      ForwardCurveIsTrue(u.dist, u.laps, t.s, t.inPit, t.lap0, lapRaw, i);
    }
  }

  /** At t a car on this curve is at d for the first time. */
  ghost predicate FirstAt(times: seq<real>, curve: seq<real>, d: real, t: real)
    requires Curve(times, curve)
  {
    && ((t == times[0] && d == curve[0])
        || exists k :: 0 <= k < |times| - 1 && times[k] < t <= times[k + 1] && OnSegment(times, curve, k, t) == d)
    && forall k: nat, t': real ::
         k + 1 < |times| && times[k] <= t' <= times[k + 1] && t' < t ==> OnSegment(times, curve, k, t') < d
  }

  /** A car now at `here` is behind the one with this curve: by more than the recording shows,
      or by the rounded time since that one was first there. */
  ghost predicate GapSince(times: seq<real>, i: nat, ahead: seq<real>, here: real, gap: Option<int>)
    requires Curve(times, ahead) && i < |times|
  {
    match gap
    case None => here < ahead[0]
    case Some(ms) => exists t :: FirstAt(times, ahead, here, t) && ms == RoundHalfEven((times[i] - t) * 1000.0)
  }

  lemma BehindIsSince(times: seq<real>, ahead: seq<real>, here: real, i: nat)
    requires Curve(times, ahead) && i < |times| && here <= ahead[i]
    ensures GapSince(times, i, ahead, here, BehindMs(times, ahead, here, times[i]))
  {
    if ahead[0] <= here {
      ReachedBy(times, ahead, here, i);
      assert ahead[i] <= ahead[|ahead| - 1];
      InversionIsLeast(times, ahead, here);
      assert FirstAt(times, ahead, here, InvertDistanceCurve(times, ahead, here).value);
    }
  }

  lemma TrueEntry(r: Recording, u: Truth, i: nat, order: seq<Slot>, k: nat)
    requires Classified(r, i, order) && k < |order| && TrueTo(r.tracks[order[k].car], u, r.lapRaw)
    ensures Curve(r.times, TrueCurve(r.tracks[order[k].car], u))
    ensures var f := FrameOf(r, i, order);
            && f.cars[k].driverNum in f.curves
            && f.curves[f.cars[k].driverNum] == TrueCurve(r.tracks[order[k].car], u)
            && f.cars[k].dist == TrueCurve(r.tracks[order[k].car], u)[i]
            && (!f.cars[k].inPit ==> f.cars[k].dist == u.dist[i] / 10.0)
  {
    CurveOf(r, |r.tracks|, order[k].car);
    FinishedIsCurve(r, order[k].car);
    FinishedIsTrue(r.tracks[order[k].car], u, r.lapRaw);
  }

  /** A quotable car at or behind the leader has no gap if and only if the leader was already
      past it when the recording starts; otherwise its gap is the rounded time since the leader
      was first, truly, where the car truly is. */
  lemma GapIsTrue(r: Recording, leader: Truth, u: Truth, i: nat, order: seq<Slot>, k: nat)
    requires Classified(r, i, order) && k < |order| && Shaped(FrameOf(r, i, order)) && Quotable(FrameOf(r, i, order), k)
    requires TrueTo(r.tracks[order[0].car], leader, r.lapRaw) && TrueTo(r.tracks[order[k].car], u, r.lapRaw)
    requires u.dist[i] / 10.0 <= TrueCurve(r.tracks[order[0].car], leader)[i]
    ensures var ahead := TrueCurve(r.tracks[order[0].car], leader);
            Curve(r.times, ahead) && GapSince(r.times, i, ahead, u.dist[i] / 10.0, RawGap(FrameOf(r, i, order), k))
  {
    TrueEntry(r, leader, i, order, 0);
    TrueEntry(r, u, i, order, k);
    BehindIsSince(r.times, TrueCurve(r.tracks[order[0].car], leader), u.dist[i] / 10.0, i);
  }

  lemma SameRatio(x: real, y: real)
    requires y > 0.0
    ensures (x / 10.0) / (y / 10.0) == x / y
  {
  }

  lemma LapsFromRaw(f: FrameData, k: nat, laps: int, raw: real, lapRaw: real)
    requires Shaped(f) && k < |f.cars| && lapRaw > 0.0
    requires f.cars[0].dist - f.cars[k].dist == raw / 10.0 && f.lapLengthM == lapRaw / 10.0
    ensures QuoteOf(f, k).gapLaps.Some? <==> raw / lapRaw >= 0.9
    ensures QuoteOf(f, k).gapLaps == Some(laps)
            <==> raw / lapRaw >= 0.9 && laps as real - 0.1 <= raw / lapRaw < laps as real + 0.9
  {
    LapsQuotedIff(f, k, laps);
    SameRatio(raw, lapRaw);
  }

  /** Laps are quoted exactly from nine tenths of a lap truly behind on, counted from a tenth
      short of each. */
  lemma LapsAreTrue(r: Recording, leader: Truth, u: Truth, i: nat, order: seq<Slot>, k: nat, laps: int)
    requires Classified(r, i, order) && k < |order| && r.lapRaw > 0.0 && Shaped(FrameOf(r, i, order))
    requires TrueTo(r.tracks[order[0].car], leader, r.lapRaw) && TrueTo(r.tracks[order[k].car], u, r.lapRaw)
    requires !r.tracks[order[0].car].inPit[i] && !r.tracks[order[k].car].inPit[i]
    ensures var behind := (leader.dist[i] - u.dist[i]) / r.lapRaw;
            && (QuoteOf(FrameOf(r, i, order), k).gapLaps.Some? <==> behind >= 0.9)
            && (QuoteOf(FrameOf(r, i, order), k).gapLaps == Some(laps) <==>
                  behind >= 0.9 && laps as real - 0.1 <= behind < laps as real + 0.9)
  {
    TrueEntry(r, leader, i, order, 0);
    TrueEntry(r, u, i, order, k);
    LapsFromRaw(FrameOf(r, i, order), k, laps, leader.dist[i] - u.dist[i], r.lapRaw);
  }

  /** And an interval, where the car ahead in the classification was there within the recording,
      is the rounded time since that car first was. */
  lemma IntervalIsSinceThere(f: FrameData, k: nat)
    requires Shaped(f) && 0 < k < |f.cars| && Quotable(f, k) && f.cars[k - 1].hasLap && !f.cars[k - 1].inPit
    requires Curve(f.times, f.curves[f.cars[k - 1].driverNum])
    requires var ahead := f.curves[f.cars[k - 1].driverNum]; ahead[0] <= f.cars[k].dist <= ahead[f.i]
    ensures GapSince(f.times, f.i, f.curves[f.cars[k - 1].driverNum], f.cars[k].dist, RawInterval(f, k))
  {
    var ahead := f.curves[f.cars[k - 1].driverNum];
    ReachedBy(f.times, ahead, f.cars[k].dist, f.i);
    BehindIsSince(f.times, ahead, f.cars[k].dist, f.i);
  }

  // ------------------------------------------------------------------ the program

  method BuildCurves(r: Recording) returns (curves: map<int, seq<real>>)
    requires Sampled(r)
    ensures curves == Curves(r, |r.tracks|)
  {
    curves := map[];
    for n := 0 to |r.tracks|
      invariant curves == Curves(r, n)
    {
      var t := r.tracks[n];
      var curve := BuildCurve(t.s, t.inPit, t.lap0, r.lapRaw);
      assert curve == FinishedCurve(t, r.lapRaw);
      curves := curves[t.driverNum := curve];
    }
  }

  method BuildEntries(r: Recording, i: nat, order: seq<Slot>, curves: map<int, seq<real>>) returns (cars: seq<Entry>)
    requires Classified(r, i, order) && curves == Curves(r, |r.tracks|)
    ensures cars == Entries(r, i, order)
  {
    cars := [];
    for k := 0 to |order|
      invariant cars == Entries(r, i, order)[..k]
    {
      CurveOf(r, |r.tracks|, order[k].car);
      var t := r.tracks[order[k].car];
      cars := cars + [EntryOf(t, order[k].hasLap, i, curves[t.driverNum])];
    }
  }

  /** One frame's gaps and intervals, from the samples. */
  method QuoteFrame(r: Recording, i: nat, order: seq<Slot>, quotes: array<Quote>)
    requires Classified(r, i, order) && quotes.Length == |order|
    modifies quotes
    ensures Shaped(FrameOf(r, i, order))
    ensures forall k :: 0 <= k < |order| ==> quotes[k] == QuoteOf(FrameOf(r, i, order), k)
  {
    var curves := BuildCurves(r);
    var cars := BuildEntries(r, i, order, curves);
    RecordedIsValid(r, i, order);
    QuotePass(FrameData(r.times, i, curves, cars, r.lapRaw / 10.0), quotes);
  }
}
