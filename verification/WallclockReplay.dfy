/** Wall-clock-phased playback (internal/feed/replay/play.go): lanes that share nothing but
    the clock show the same frame at the same instant.

    The clip repeats for ever, so its schedule is an infinite sequence of slots: in each loop
    of `loopLen` milliseconds, frame i is due at offset `rels[i]`. Clocks are Unix
    milliseconds, so not negative. */
module WallclockReplay {
  import opened Model

  datatype Slot = Slot(loop: nat, i: nat)

  /** Frame times relative to the first frame, in file order. */
  ghost predicate Offsets(rels: seq<int>) {
    |rels| > 0 && rels[0] == 0 && forall i, j :: 0 <= i <= j < |rels| ==> rels[i] <= rels[j]
  }

  /** When a slot's frame is due. */
  function Due(rels: seq<int>, loopLen: int, s: Slot): int
    requires s.i < |rels|
  {
    s.loop * loopLen + rels[s.i]
  }

  predicate Precedes(a: Slot, b: Slot) {
    a.loop < b.loop || (a.loop == b.loop && a.i < b.i)
  }

  function Succ(n: nat, s: Slot): Slot {
    if s.i + 1 == n then Slot(s.loop + 1, 0) else Slot(s.loop, s.i + 1)
  }

  /** k slots later. */
  function Advance(n: nat, s: Slot, k: nat): (t: Slot)
    requires s.i < n
    ensures t.i < n
  {
    if k == 0 then s else Succ(n, Advance(n, s, k - 1))
  }

  /** The loop period: the last frame's offset plus the average gap, and never below 1. */
  function LoopLength(rels: seq<int>): (len: int)
    requires Offsets(rels)
    ensures len > 0 && len >= rels[|rels| - 1]
    ensures len > rels[|rels| - 1] <==> rels[|rels| - 1] == 0 || rels[|rels| - 1] >= |rels| - 1
    ensures rels[|rels| - 1] == 0 ==> len == 1
    ensures rels[|rels| - 1] > 0 ==>
              var gap := len - rels[|rels| - 1];
              gap * (|rels| - 1) <= rels[|rels| - 1] < (gap + 1) * (|rels| - 1)
  {
    var n := |rels|;
    var gap := if n > 1 then rels[n - 1] / (n - 1) else 0;
    if rels[n - 1] + gap <= 0 then 1 else rels[n - 1] + gap
  }

  lemma LoopsApart(a: nat, b: nat, loopLen: int)
    requires a < b && loopLen > 0
    ensures a * loopLen + loopLen <= b * loopLen
  {
    assert (b - a - 1) * loopLen >= 0;
  }

  lemma OneMore(k: int, d: int)
    ensures (k + 1) * d == k * d + d
  {
  }

  lemma SameQuotient(gap: nat, k: nat, d: nat)
    requires k > 0 && gap * k <= d * k < (gap + 1) * k
    ensures gap == d
  {
    OneMore(gap, k);
    if gap < d { LoopsApart(gap, d, k); } else if gap > d { LoopsApart(d, gap, k); }
  }

  lemma LoopLengthOfEven(rels: seq<int>, d: nat)
    requires Offsets(rels) && |rels| > 1 && d > 0 && rels[|rels| - 1] == (|rels| - 1) * d
    ensures LoopLength(rels) == |rels| * d
  {
    var k := |rels| - 1;
    assert k * d > 0;
    SameQuotient(LoopLength(rels) - k * d, k, d);
    OneMore(k, d);
  }

  /** A clip of frames d milliseconds apart goes on at that pace for ever, from one loop into
      the next: every slot is due d after the one before it. */
  lemma EvenClipKeepsPace(rels: seq<int>, d: nat, s: Slot)
    requires Offsets(rels) && |rels| > 1 && d > 0 && s.i < |rels|
    requires forall i :: 0 <= i < |rels| ==> rels[i] == i * d
    ensures Due(rels, LoopLength(rels), Succ(|rels|, s)) == Due(rels, LoopLength(rels), s) + d
  {
    LoopLengthOfEven(rels, d);
    OneMore(s.i, d);
    OneMore(s.loop, LoopLength(rels));
  }

  /** Later slots are never due earlier. */
  lemma DueAscends(rels: seq<int>, loopLen: int, a: Slot, b: Slot)
    requires Offsets(rels) && 0 < loopLen && rels[|rels| - 1] <= loopLen
    requires a.i < |rels| && b.i < |rels| && !Precedes(b, a)
    ensures Due(rels, loopLen, a) <= Due(rels, loopLen, b)
  {
    if a.loop < b.loop { LoopsApart(a.loop, b.loop, loopLen); }
  }

  // ------------------------------------------------------------------ where to start

  /** Index of the first offset at or after `phase`, or n. */
  ghost function FirstAtOrAfter(rels: seq<int>, phase: int): (i: nat)
    ensures i <= |rels| && (forall k :: 0 <= k < i ==> rels[k] < phase) && (i < |rels| ==> rels[i] >= phase)
  {
    if rels == [] || rels[0] >= phase then 0 else 1 + FirstAtOrAfter(rels[1..], phase)
  }

  /** The slot that playback started at `now` targets first. */
  ghost function StartSlot(rels: seq<int>, loopLen: int, now: nat): (s: Slot)
    requires |rels| > 0 && loopLen > 0
    ensures s.i < |rels|
  {
    var i := FirstAtOrAfter(rels, now % loopLen);
    if i == |rels| then Slot(now / loopLen + 1, 0) else Slot(now / loopLen, i)
  }

  /** Go's binary search for the first index whose offset is at or after `phase`. */
  method Search(rels: seq<int>, phase: int) returns (i: nat)
    requires Offsets(rels)
    ensures i <= |rels| && (forall k :: 0 <= k < i ==> rels[k] < phase) && (i < |rels| ==> rels[i] >= phase)
  {
    i := 0;
    var j := |rels|;
    while i < j
      invariant i <= j <= |rels|
      invariant forall k :: 0 <= k < i ==> rels[k] < phase
      invariant forall k :: j <= k < |rels| ==> rels[k] >= phase
    {
      var h := (i + j) / 2;
      if rels[h] < phase { i := h + 1; } else { j := h; }
    }
  }

  lemma Phase(now: nat, loopLen: int)
    requires loopLen > 0
    ensures now / loopLen >= 0 && now - (now / loopLen) * loopLen == now % loopLen && 0 <= now % loopLen < loopLen
  {
  }

  method FrameAtWallclock(rels: seq<int>, loopLen: int, now: nat) returns (i: nat, target: int)
    requires Offsets(rels) && loopLen > 0
    ensures var s := StartSlot(rels, loopLen, now);
            i == s.i && target == Due(rels, loopLen, s)
  {
    var loopBase := (now / loopLen) * loopLen;
    Phase(now, loopLen);
    i := Search(rels, now - loopBase);
    if i == |rels| {
      i := 0;
      loopBase := loopBase + loopLen;
    }
    target := loopBase + rels[i];
  }

  /** Slot s is the next one due at `now`. */
  ghost predicate FirstDue(rels: seq<int>, loopLen: int, s: Slot, now: int)
    requires s.i < |rels|
  {
    && Due(rels, loopLen, s) >= now
    && forall t: Slot :: t.i < |rels| && Precedes(t, s) ==> Due(rels, loopLen, t) < now
  }

  /** The slots ascend, so the one just before s decides whether s is the first due. */
  lemma LastBefore(rels: seq<int>, loopLen: int, prev: Slot, now: int)
    requires Offsets(rels) && 0 < loopLen && rels[|rels| - 1] <= loopLen && prev.i < |rels|
    requires Due(rels, loopLen, Succ(|rels|, prev)) >= now
    ensures FirstDue(rels, loopLen, Succ(|rels|, prev), now) <==> Due(rels, loopLen, prev) < now
  {
    var s := Succ(|rels|, prev);
    forall t: Slot | t.i < |rels| && Precedes(t, s) ensures Due(rels, loopLen, t) <= Due(rels, loopLen, prev) {
      DueAscends(rels, loopLen, t, prev);
    }
    assert Precedes(prev, s);
  }

  /** Playback starts at the first slot that is due, with one exception: when the period is
      no longer than the last offset (frames under a millisecond apart on average), a start
      exactly on a loop boundary skips the slots that tie with it. */
  lemma StartsAtFirstDue(rels: seq<int>, loopLen: int, now: nat)
    requires Offsets(rels) && loopLen > 0 && rels[|rels| - 1] <= loopLen
    ensures FirstDue(rels, loopLen, StartSlot(rels, loopLen, now), now)
            <==> rels[|rels| - 1] < loopLen || now % loopLen != 0 || now < loopLen
  {
    var n, q, phase := |rels|, now / loopLen, now % loopLen;
    Phase(now, loopLen);
    var i := FirstAtOrAfter(rels, phase);
    if i == n {
      assert (q + 1) * loopLen == q * loopLen + loopLen;
      LastBefore(rels, loopLen, Slot(q, n - 1), now);
    } else if i > 0 {
      LastBefore(rels, loopLen, Slot(q, i - 1), now);
    } else if q > 0 {
      LoopsApart(q - 1, q, loopLen);
      assert (q - 1) * loopLen == q * loopLen - loopLen && (q - 1) * loopLen >= 0;
      LastBefore(rels, loopLen, Slot(q - 1, n - 1), now);
    }
  }

  /** With the period the player computes, the exception is clips of less than one
      millisecond per frame; all others start at the first slot due, whenever they start. */
  lemma PlayerStartsAtFirstDue(rels: seq<int>)
    requires Offsets(rels)
    ensures (forall now: nat :: FirstDue(rels, LoopLength(rels), StartSlot(rels, LoopLength(rels), now), now))
            <==> rels[|rels| - 1] == 0 || rels[|rels| - 1] >= |rels| - 1
  {
    var len := LoopLength(rels);
    forall now: nat ensures FirstDue(rels, len, StartSlot(rels, len, now), now)
                            <==> rels[|rels| - 1] < len || now % len != 0 || now < len {
      StartsAtFirstDue(rels, len, now);
    }
    assert len % len == 0;
    assert FirstDue(rels, len, StartSlot(rels, len, len), len) <==> rels[|rels| - 1] < len;
  }

  /** Three frames at 0, 0 and 1 ms repeat every millisecond; started at 1 ms, the lane skips
      the last slot of the loop just over, which is due at that very instant. */
  lemma CrowdedClipSkipsASlot()
    ensures var rels := [0, 0, 1];
            && Offsets(rels) && LoopLength(rels) == 1 && StartSlot(rels, 1, 1) == Slot(1, 0)
            && Precedes(Slot(0, 2), Slot(1, 0)) && Due(rels, 1, Slot(0, 2)) == 1
            && !FirstDue(rels, 1, StartSlot(rels, 1, 1), 1)
  {
  }

  // ------------------------------------------------------------------ walking the slots

  datatype Emission = Emission(index: nat, target: int, at: int, frame: Frame)

  /** What goes out for a slot: its frame, when it is due, or at once when the clock has
      already passed that. */
  ghost predicate PlaysSlot(e: Emission, frames: seq<Frame>, rels: seq<int>, loopLen: int, s: Slot, clock: int)
    requires s.i < |rels| == |frames|
  {
    && e.index == s.i && e.target == Due(rels, loopLen, s) && e.frame == frames[s.i]
    && e.at == if e.target > clock then e.target else clock
  }

  ghost predicate PlaysFrom(
    out: seq<Emission>, frames: seq<Frame>, rels: seq<int>, loopLen: int, first: Slot, clock: seq<int>)
    requires first.i < |rels| == |frames|
  {
    |out| <= |clock|
    && forall k :: 0 <= k < |out| ==> PlaysSlot(out[k], frames, rels, loopLen, Advance(|rels|, first, k), clock[k])
  }

  /** The playback loop, stopped when `clock` runs out: `clock[k]` is the wall clock read
      before the k-th wait. */
  method Walk(
    frames: seq<Frame>, rels: seq<int>, loopLen: int, i0: nat, target0: int, clock: seq<int>, ghost first: Slot)
    returns (out: seq<Emission>)
    requires |rels| == |frames| && first.i < |rels| && i0 == first.i && target0 == Due(rels, loopLen, first)
    ensures |out| == |clock|
    ensures PlaysFrom(out, frames, rels, loopLen, first, clock)
  {
    var i, target, loopBase := i0, target0, target0 - rels[i0];
    ghost var s := first;
    out := [];
    for k := 0 to |clock|
      invariant |out| == k && s == Advance(|rels|, first, k) && s.i == i
      invariant target == Due(rels, loopLen, s) && loopBase == target - rels[i]
      invariant PlaysFrom(out, frames, rels, loopLen, first, clock)
    {
      var at := clock[k];
      if target - clock[k] > 0 { at := target; }
      var e := Emission(i, target, at, frames[i]);
      out := out + [e];
      s := Succ(|rels|, s);
      i := i + 1;
      if i == |rels| {
        i := 0;
        loopBase := loopBase + loopLen;
      }
      target := loopBase + rels[i];
    }
  }

  /** A lane started at `start` plays the slots from its start slot on, one after another,
      for ever. */
  method PlayWallclock(frames: seq<Frame>, rels: seq<int>, start: nat, clock: seq<int>) returns (out: seq<Emission>)
    requires Offsets(rels) && |frames| == |rels|
    ensures |out| == |clock|
    ensures PlaysFrom(out, frames, rels, LoopLength(rels), StartSlot(rels, LoopLength(rels), start), clock)
    ensures forall k :: 0 <= k < |out| ==>
                          && out[k].index < |frames| && out[k].frame == frames[out[k].index]
                          && out[k].target <= out[k].at && clock[k] <= out[k].at
                          && (out[k].at == out[k].target || out[k].at == clock[k])
  {
    var loopLen := LoopLength(rels);
    var i, target := FrameAtWallclock(rels, loopLen, start);
    out := Walk(frames, rels, loopLen, i, target, clock, StartSlot(rels, loopLen, start));
  }

  // ------------------------------------------------------------------ two lanes

  lemma StartSlotMonotone(rels: seq<int>, loopLen: int, a: nat, b: nat)
    requires |rels| > 0 && loopLen > 0 && a <= b
    ensures !Precedes(StartSlot(rels, loopLen, b), StartSlot(rels, loopLen, a))
  {
    Phase(a, loopLen);
    Phase(b, loopLen);
    var qa, qb := a / loopLen, b / loopLen;
    if qa > qb { LoopsApart(qb, qa, loopLen); }
  }

  /** How many slots b is after a. */
  ghost function Distance(n: nat, a: Slot, b: Slot): nat
    requires a.i < n && b.i < n && !Precedes(b, a)
    decreases b.loop - a.loop, n - a.i
  {
    if a == b then 0 else 1 + Distance(n, Succ(n, a), b)
  }

  lemma {:induction false} AdvanceAdd(n: nat, s: Slot, j: nat, k: nat)
    requires s.i < n
    ensures Advance(n, Advance(n, s, j), k) == Advance(n, s, j + k)
  {
    if k > 0 { AdvanceAdd(n, s, j, k - 1); }
  }

  lemma {:induction false} AdvanceDistance(n: nat, a: Slot, b: Slot)
    requires a.i < n && b.i < n && !Precedes(b, a)
    ensures Advance(n, a, Distance(n, a, b)) == b
    decreases b.loop - a.loop, n - a.i
  {
    if a != b {
      AdvanceDistance(n, Succ(n, a), b);
      AdvanceAdd(n, a, 1, Distance(n, Succ(n, a), b));
      assert Advance(n, a, 1) == Succ(n, Advance(n, a, 0));
    }
  }

  /** Two lanes on clips of the same timing, started at any two instants and with any stalls:
      for one d, whatever the later one targets as its k-th frame the earlier one targets as
      its (d + k)-th, the same frame index due at the same instant. */
  lemma LanesAlign(rels: seq<int>, a: nat, b: nat)
    requires Offsets(rels) && a <= b
    ensures var n := |rels|;
            var sa := StartSlot(rels, LoopLength(rels), a);
            var sb := StartSlot(rels, LoopLength(rels), b);
            !Precedes(sb, sa)
            && forall k: nat :: Advance(n, sa, Distance(n, sa, sb) + k) == Advance(n, sb, k)
  {
    var n, len := |rels|, LoopLength(rels);
    var sa, sb := StartSlot(rels, len, a), StartSlot(rels, len, b);
    StartSlotMonotone(rels, len, a, b);
    AdvanceDistance(n, sa, sb);
    forall k: nat ensures Advance(n, sa, Distance(n, sa, sb) + k) == Advance(n, sb, k) {
      AdvanceAdd(n, sa, Distance(n, sa, sb), k);
    }
  }

  /** Seen from outside: from the later start onwards, two lanes playing different frames to
      different clocks target the same frame index at the same instant. */
  lemma LanesShowTheSame(
    outA: seq<Emission>, outB: seq<Emission>, framesA: seq<Frame>, framesB: seq<Frame>, rels: seq<int>,
    a: nat, b: nat, clockA: seq<int>, clockB: seq<int>, k: nat) returns (d: nat)
    requires Offsets(rels) && a <= b && |framesA| == |framesB| == |rels|
    requires PlaysFrom(outA, framesA, rels, LoopLength(rels), StartSlot(rels, LoopLength(rels), a), clockA)
    requires PlaysFrom(outB, framesB, rels, LoopLength(rels), StartSlot(rels, LoopLength(rels), b), clockB)
    ensures k < |outB| && d + k < |outA| ==> outA[d + k].index == outB[k].index && outA[d + k].target == outB[k].target
    ensures var sa, sb := StartSlot(rels, LoopLength(rels), a), StartSlot(rels, LoopLength(rels), b);
            !Precedes(sb, sa) && d == Distance(|rels|, sa, sb)
  {
    var len := LoopLength(rels);
    LanesAlign(rels, a, b);
    d := Distance(|rels|, StartSlot(rels, len, a), StartSlot(rels, len, b));
    assert Advance(|rels|, StartSlot(rels, len, a), d + k) == Advance(|rels|, StartSlot(rels, len, b), k);
  }

  /** A lane never repeats or skips: the k-th slot of its walk is the only one at distance k,
      and due times never go backwards along it. */
  lemma {:induction false} WalkAscends(rels: seq<int>, s: Slot, j: nat, k: nat)
    requires Offsets(rels) && s.i < |rels| && j <= k
    ensures !Precedes(Advance(|rels|, s, k), Advance(|rels|, s, j))
    ensures j < k ==> Precedes(Advance(|rels|, s, j), Advance(|rels|, s, k))
    ensures Due(rels, LoopLength(rels), Advance(|rels|, s, j)) <= Due(rels, LoopLength(rels), Advance(|rels|, s, k))
    decreases k
  {
    if j < k { WalkAscends(rels, s, j, k - 1); }
    DueAscends(rels, LoopLength(rels), Advance(|rels|, s, j), Advance(|rels|, s, k));
  }

  /** The k-th frame of a walk is the k-th on from where it started, counting round the clip:
      none is played twice running and none left out. */
  lemma {:induction false} WalkCounts(n: nat, s: Slot, k: nat)
    requires s.i < n
    ensures var t := Advance(n, s, k);
            t.loop * n + t.i == s.loop * n + s.i + k
  {
    if k > 0 {
      WalkCounts(n, s, k - 1);
      OneMore(Advance(n, s, k - 1).loop, n);
    }
  }
}
