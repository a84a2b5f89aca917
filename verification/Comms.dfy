/** The front end's radio cursor (web/src/state/comms.ts): which clips fire as the race clock
    moves. */
module Comms {
  import opened Model
  import opened Sorting

  datatype Step = Step(lastClock: int, fired: seq<RadioRef>, history: seq<RadioRef>)

  /** The messages with lo < timeMs <= hi, in timeline order. */
  function Between(timeline: seq<RadioRef>, lo: int, hi: int): seq<RadioRef> {
    if timeline == [] then []
    else
      var front, last := Between(timeline[..|timeline| - 1], lo, hi), timeline[|timeline| - 1];
      if lo < last.timeMs <= hi then front + [last] else front
  }

  function UpTo(timeline: seq<RadioRef>, hi: int): seq<RadioRef> {
    if timeline == [] then []
    else
      var front, last := UpTo(timeline[..|timeline| - 1], hi), timeline[|timeline| - 1];
      if last.timeMs <= hi then front + [last] else front
  }

  function StepComms(lastClock: int, clock: int, timeline: seq<RadioRef>, isSnapshot: bool): Step {
    if isSnapshot then Step(clock, [], SortBy(UpTo(timeline, clock), EarlierOrSame))
    else if clock < lastClock then Step(clock, [], [])
    else Step(clock, SortBy(Between(timeline, lastClock, clock), EarlierOrSame), [])
  }

  /** Everything fired over a run of frame clocks, in firing order. */
  function FiredOver(lastClock: int, clocks: seq<int>, timeline: seq<RadioRef>): seq<RadioRef>
    decreases clocks
  {
    if clocks == [] then []
    else
      var step := StepComms(lastClock, clocks[0], timeline, false);
      step.fired + FiredOver(step.lastClock, clocks[1..], timeline)
  }

  /** A run of frame clocks that never steps back. */
  ghost predicate NonDecreasing(c0: int, clocks: seq<int>) {
    clocks != [] ==> c0 <= clocks[0] && forall i, j :: 0 <= i <= j < |clocks| ==> clocks[i] <= clocks[j]
  }

  // ------------------------------------------------------------------ what each window holds

  lemma {:induction false} BetweenMeaning(timeline: seq<RadioRef>, lo: int, hi: int)
    ensures forall m :: m in Between(timeline, lo, hi) <==> m in timeline && lo < m.timeMs <= hi
  {
    if timeline != [] {
      BetweenMeaning(timeline[..|timeline| - 1], lo, hi);
      assert timeline == timeline[..|timeline| - 1] + [timeline[|timeline| - 1]];
    }
  }

  lemma {:induction false} BetweenCount(timeline: seq<RadioRef>, lo: int, hi: int, m: RadioRef)
    ensures multiset(Between(timeline, lo, hi))[m] == if lo < m.timeMs <= hi then multiset(timeline)[m] else 0
  {
    if timeline != [] {
      BetweenCount(timeline[..|timeline| - 1], lo, hi, m);
      assert timeline == timeline[..|timeline| - 1] + [timeline[|timeline| - 1]];
    }
  }

  /** The messages of a window in the order they fire. */
  function Fires(timeline: seq<RadioRef>, lo: int, hi: int): seq<RadioRef> {
    SortBy(Between(timeline, lo, hi), EarlierOrSame)
  }

  lemma FiresOneMore(front: seq<RadioRef>, x: RadioRef, lo: int, hi: int)
    ensures Fires(front + [x], lo, hi)
            == if lo < x.timeMs <= hi then Insert(Fires(front, lo, hi), x, EarlierOrSame) else Fires(front, lo, hi)
  {
    assert (front + [x])[..|front|] == front;
    var window := Between(front, lo, hi);
    assert (window + [x])[..|window|] == window;
  }

  lemma InWindow(timeline: seq<RadioRef>, lo: int, hi: int)
    ensures forall m :: m in Fires(timeline, lo, hi) ==> lo < m.timeMs <= hi
  {
    var s := Fires(timeline, lo, hi);
    SortMultiset(Between(timeline, lo, hi), EarlierOrSame);
    BetweenMeaning(timeline, lo, hi);
    forall m | m in s ensures lo < m.timeMs <= hi { assert m in multiset(s); }
  }

  /** Splitting a window in two splits its sorted firing order in two. */
  lemma {:induction false} SplitWindow(timeline: seq<RadioRef>, lo: int, mid: int, hi: int)
    requires lo <= mid <= hi
    ensures Fires(timeline, lo, hi) == Fires(timeline, lo, mid) + Fires(timeline, mid, hi)
  {
    if timeline != [] {
      var front, x := timeline[..|timeline| - 1], timeline[|timeline| - 1];
      SplitWindow(front, lo, mid, hi);
      assert front + [x] == timeline;
      FiresOneMore(front, x, lo, hi);
      FiresOneMore(front, x, lo, mid);
      FiresOneMore(front, x, mid, hi);
      InWindow(front, lo, mid);
      InWindow(front, mid, hi);
      if lo < x.timeMs <= mid {
        InsertLeft(Fires(front, lo, mid), Fires(front, mid, hi), x, EarlierOrSame);
      } else if mid < x.timeMs <= hi {
        InsertRight(Fires(front, lo, mid), Fires(front, mid, hi), x, EarlierOrSame);
      }
    }
  }

  // ------------------------------------------------------------------ one pass

  lemma {:induction false} EmptyWindow(timeline: seq<RadioRef>, c: int)
    ensures Between(timeline, c, c) == []
  {
    if timeline != [] { EmptyWindow(timeline[..|timeline| - 1], c); }
  }

  /** Over any run of clocks that never steps back, what fires, in order, is the stable
      time-sort of the messages in the window the run covers. */
  lemma {:induction false} PassFiresWindow(c0: int, clocks: seq<int>, timeline: seq<RadioRef>)
    requires NonDecreasing(c0, clocks)
    ensures var end := if clocks == [] then c0 else clocks[|clocks| - 1];
            FiredOver(c0, clocks, timeline) == SortBy(Between(timeline, c0, end), EarlierOrSame)
    decreases clocks
  {
    if clocks == [] {
      EmptyWindow(timeline, c0);
    } else {
      var rest := clocks[1..];
      assert NonDecreasing(clocks[0], rest) by {
        forall i, j | 0 <= i <= j < |rest| ensures rest[i] <= rest[j] { assert clocks[i + 1] <= clocks[j + 1]; }
      }
      PassFiresWindow(clocks[0], rest, timeline);
      var end := clocks[|clocks| - 1];
      if rest != [] { assert rest[|rest| - 1] == end; }
      SplitWindow(timeline, c0, clocks[0], end);
    }
  }

  /** However a pass is cut into frames, the same clips fire in the same order. */
  lemma CutIndependent(c0: int, xs: seq<int>, ys: seq<int>, timeline: seq<RadioRef>)
    requires NonDecreasing(c0, xs) && NonDecreasing(c0, ys)
    requires xs != [] && ys != [] && xs[|xs| - 1] == ys[|ys| - 1]
    ensures FiredOver(c0, xs, timeline) == FiredOver(c0, ys, timeline)
  {
    PassFiresWindow(c0, xs, timeline);
    PassFiresWindow(c0, ys, timeline);
  }

  /** Each clip of the window fires exactly as often as the timeline lists it, and in time
      order; clips outside it do not fire. */
  lemma ExactlyOncePerPass(c0: int, clocks: seq<int>, timeline: seq<RadioRef>, m: RadioRef)
    requires NonDecreasing(c0, clocks) && clocks != []
    ensures multiset(FiredOver(c0, clocks, timeline))[m]
            == if c0 < m.timeMs <= clocks[|clocks| - 1] then multiset(timeline)[m] else 0
    ensures Sorted(FiredOver(c0, clocks, timeline), EarlierOrSame)
  {
    PassFiresWindow(c0, clocks, timeline);
    var w := Between(timeline, c0, clocks[|clocks| - 1]);
    SortMultiset(w, EarlierOrSame);
    BetweenCount(timeline, c0, clocks[|clocks| - 1], m);
    SortSorted(w, EarlierOrSame);
  }

  /** How often a run of clocks steps forward over instant t. */
  function Crossings(lastClock: int, clocks: seq<int>, t: int): nat
    decreases clocks
  {
    if clocks == [] then 0
    else (if lastClock < t <= clocks[0] then 1 else 0) + Crossings(clocks[0], clocks[1..], t)
  }

  lemma FiredCount(lastClock: int, clock: int, timeline: seq<RadioRef>, m: RadioRef)
    ensures multiset(StepComms(lastClock, clock, timeline, false).fired)[m]
            == if lastClock < m.timeMs <= clock then multiset(timeline)[m] else 0
  {
    SortMultiset(Between(timeline, lastClock, clock), EarlierOrSame);
    BetweenCount(timeline, lastClock, clock, m);
  }

  lemma CountOfBoth(a: seq<RadioRef>, b: seq<RadioRef>, m: RadioRef)
    ensures multiset(a + b)[m] == multiset(a)[m] + multiset(b)[m]
  {
  }

  lemma OnceMore(n: nat, over: bool, rest: nat, fired: nat)
    requires fired == (if over then n else 0) + n * rest
    ensures fired == n * ((if over then 1 else 0) + rest)
  {
  }

  /** However the clock moves, a clip fires exactly once for each time the clock steps forward
      over it: winding the clock back fires nothing, and the next pass fires the clip again. */
  lemma {:induction false} FiresPerCrossing(lastClock: int, clocks: seq<int>, timeline: seq<RadioRef>, m: RadioRef)
    ensures multiset(FiredOver(lastClock, clocks, timeline))[m]
            == multiset(timeline)[m] * Crossings(lastClock, clocks, m.timeMs)
    decreases clocks
  {
    if clocks != [] {
      var step, rest := StepComms(lastClock, clocks[0], timeline, false), FiredOver(clocks[0], clocks[1..], timeline);
      FiredCount(lastClock, clocks[0], timeline, m);
      FiresPerCrossing(clocks[0], clocks[1..], timeline, m);
      CountOfBoth(step.fired, rest, m);
      OnceMore(multiset(timeline)[m], lastClock < m.timeMs <= clocks[0],
               Crossings(clocks[0], clocks[1..], m.timeMs), multiset(step.fired + rest)[m]);
    }
  }

  lemma {:induction false} UpToCount(timeline: seq<RadioRef>, hi: int, m: RadioRef)
    ensures multiset(UpTo(timeline, hi))[m] == if m.timeMs <= hi then multiset(timeline)[m] else 0
  {
    if timeline != [] {
      UpToCount(timeline[..|timeline| - 1], hi, m);
      assert timeline == timeline[..|timeline| - 1] + [timeline[|timeline| - 1]];
    }
  }

  /** A snapshot splits the timeline: what it seeds as history and what later fires never
      overlap, and together they are everything up to the clock reached. */
  lemma HistoryThenFired(clock: int, clocks: seq<int>, timeline: seq<RadioRef>, m: RadioRef)
    requires NonDecreasing(clock, clocks) && clocks != []
    ensures var snap := StepComms(0, clock, timeline, true);
            && snap.fired == [] && snap.lastClock == clock
            && multiset(snap.history)[m] + multiset(FiredOver(snap.lastClock, clocks, timeline))[m]
               == if m.timeMs <= clocks[|clocks| - 1] then multiset(timeline)[m] else 0
  {
    ExactlyOncePerPass(clock, clocks, timeline, m);
    SortMultiset(UpTo(timeline, clock), EarlierOrSame);
    UpToCount(timeline, clock, m);
  }

  // ------------------------------------------------------------------ the live lane

  /** The refs a frame just appended to the timeline: on the live lane arrival is the
      trigger. A snapshot, or a timeline that shrank, counts as no arrivals. */
  function LiveArrivals(timeline: seq<RadioRef>, prevLen: nat, isSnapshot: bool): seq<RadioRef> {
    if isSnapshot || |timeline| <= prevLen then [] else timeline[prevLen..]
  }

  /** What arrives over a run of frames, each seeing the timeline as it then is. */
  function ArrivedOver(prevLen: nat, timelines: seq<seq<RadioRef>>): seq<RadioRef>
    decreases timelines
  {
    if timelines == [] then []
    else LiveArrivals(timelines[0], prevLen, false) + ArrivedOver(|timelines[0]|, timelines[1..])
  }

  ghost predicate Growing(first: seq<RadioRef>, timelines: seq<seq<RadioRef>>)
    decreases timelines
  {
    timelines != [] ==> first <= timelines[0] && Growing(timelines[0], timelines[1..])
  }

  /** On a timeline that only grows, every ref appended fires once, in the order appended,
      however the appends are batched onto frames. */
  lemma {:induction false} ArrivalsAreAppends(first: seq<RadioRef>, timelines: seq<seq<RadioRef>>)
    requires Growing(first, timelines)
    ensures var last := if timelines == [] then first else timelines[|timelines| - 1];
            first <= last && first + ArrivedOver(|first|, timelines) == last
    decreases timelines
  {
    if timelines == [] {
      assert first + [] == first;
    } else {
      var t, rest := timelines[0], timelines[1..];
      ArrivalsAreAppends(t, rest);
      assert LiveArrivals(t, |first|, false) == t[|first|..];
      assert first + (t[|first|..] + ArrivedOver(|t|, rest)) == t + ArrivedOver(|t|, rest);
      if rest != [] { assert rest[|rest| - 1] == timelines[|timelines| - 1]; }
    }
  }
}
