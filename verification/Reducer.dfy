/** The browser-side reducer (web/src/state/race.ts) and exactly when it agrees with the
    server-side fold in `Model`. */
module Reducer {
  import opened Model

  // How far the clock must jump back before the browser reads it as a clip wrap.
  const LOOP_REWIND_MS := 5000

  datatype RaceState = RaceState(
    header: Header, cars: map<int, Car>, timeMs: int, rev: int, radio: seq<RadioRef>,
    weather: Option<Weather>, messages: seq<RaceControl>, snapshotSeq: nat, loopSeq: nat)

  datatype Msg = SnapshotMsg(snap: Snap) | FrameMsg(frame: Frame)

  function EmptyState(): RaceState {
    RaceState(Header("", "", "", [], 0), map[], 0, 0, [], None, [], 0, 0)
  }

  /** JavaScript's `slice(-n)` for n > 0. */
  function SliceLast<T>(s: seq<T>, n: nat): seq<T> {
    s[if |s| < n then 0 else |s| - n..]
  }

  function SpreadCars(cars: map<int, Car>, updates: seq<Car>): map<int, Car>
    decreases updates
  {
    if updates == [] then cars
    else SpreadCars(cars[updates[0].driverNum := updates[0]], updates[1..])
  }

  predicate Looped(s: RaceState, f: Frame) {
    s.rev > 0 && f.timeMs < s.timeMs - LOOP_REWIND_MS
  }

  function ApplyMessage(s: RaceState, msg: Msg): RaceState {
    match msg
    case SnapshotMsg(d) =>
      RaceState(d.header, d.cars, d.timeMs, d.rev, d.radio, d.weather, d.messages,
                s.snapshotSeq + 1, s.loopSeq)
    case FrameMsg(d) =>
      if d.rev <= s.rev then s
      else
        var carried := if Looped(s, d) then [] else s.messages;
        s.(cars := SpreadCars(s.cars, d.cars), timeMs := d.timeMs, rev := d.rev,
        messages := if |d.messages| > 0 then SliceLast(carried + d.messages, MAX_MESSAGES) else carried,
        radio := if |d.radio| > 0 then s.radio + d.radio else s.radio,
        weather := if d.weather.Some? then d.weather else s.weather,
        loopSeq := if Looped(s, d) then s.loopSeq + 1 else s.loopSeq)
  }

  /** The fields the browser shares with the server's snapshot. */
  function Shared(s: RaceState): Snap {
    Snap(s.header, s.cars, s.messages, s.radio, s.weather, s.timeMs, s.rev)
  }

  /** What the browser's reducer makes of messages read in order, from its empty state. */
  function Browser(msgs: seq<Msg>): RaceState {
    if msgs == [] then EmptyState()
    else ApplyMessage(Browser(msgs[..|msgs| - 1]), msgs[|msgs| - 1])
  }

  function ReduceFrames(s: RaceState, fs: seq<Frame>): RaceState {
    if fs == [] then s
    else ApplyMessage(ReduceFrames(s, fs[..|fs| - 1]), FrameMsg(fs[|fs| - 1]))
  }

  /** When one frame is read the same way on both sides. The two loop tests differ: the
      server drops the message buffer on any step back of the clock, the browser only on
      one of more than five seconds, and never on its first frame. That shows unless the
      buffer is empty or the frame alone refills it. */
  predicate Agrees(s: Snap, f: Frame) {
    || f.rev <= s.rev
    || s.timeMs <= f.timeMs
    || (s.rev > 0 && f.timeMs < s.timeMs - LOOP_REWIND_MS)
    || s.messages == []
    || |f.messages| >= MAX_MESSAGES
  }

  // ------------------------------------------------------------------ one frame

  lemma {:induction false} SpreadCarsIsFold(cars: map<int, Car>, updates: seq<Car>)
    ensures SpreadCars(cars, updates) == FoldCars(cars, updates)
    decreases updates
  {
    if updates != [] {
      SpreadCarsIsFold(cars[updates[0].driverNum := updates[0]], updates[1..]);
      FoldCarsAppend(cars, [updates[0]], updates[1..]);
      assert FoldCars(cars, [updates[0]]) == cars[updates[0].driverNum := updates[0]];
      assert [updates[0]] + updates[1..] == updates;
    }
  }

  function CarriedMessages(keep: bool, buffer: seq<RaceControl>, more: seq<RaceControl>): seq<RaceControl> {
    AppendCapped(if keep then buffer else [], more)
  }

  /** Keeping and dropping the old buffer give the same new one in exactly two cases. */
  lemma CarriedMessagesAgree(buffer: seq<RaceControl>, more: seq<RaceControl>)
    ensures CarriedMessages(true, buffer, more) == CarriedMessages(false, buffer, more)
            <==> buffer == [] || |more| >= MAX_MESSAGES
  {
    if buffer == [] {
    } else if |more| >= MAX_MESSAGES {
      assert LastN(buffer + more, MAX_MESSAGES) == LastN([] + more, MAX_MESSAGES);
    } else if more != [] {
      assert |LastN(buffer + more, MAX_MESSAGES)| > |more|;
      assert [] + more == more;
    }
  }

  /** One frame: both sides stay equal on every shared field if and only if `Agrees`. */
  lemma StepAgreement(s: RaceState, f: Frame)
    ensures Shared(ApplyMessage(s, FrameMsg(f))) == ApplyFrame(Shared(s), f) <==> Agrees(Shared(s), f)
  {
    if s.rev < f.rev {
      SpreadCarsIsFold(s.cars, f.cars);
      assert s.radio + [] == s.radio;
      CarriedMessagesAgree(s.messages, f.messages);
      var browser := ApplyMessage(s, FrameMsg(f));
      var server := ApplyFrame(Shared(s), f);
      assert browser.messages == CarriedMessages(!Looped(s, f), s.messages, f.messages);
      assert server.messages == CarriedMessages(s.timeMs <= f.timeMs, s.messages, f.messages);
      assert Shared(browser).(messages := []) == server.(messages := []);
    }
  }

  // ------------------------------------------------------------------ whole runs

  /** The two sides are equal after the first k frames. */
  ghost predicate EqualAfter(s: RaceState, fs: seq<Frame>, k: nat)
    requires k <= |fs|
  {
    Shared(ReduceFrames(s, fs[..k])) == Fold(Shared(s), fs[..k])
  }

  ghost predicate AgreesAt(s: Snap, fs: seq<Frame>, k: nat)
    requires k < |fs|
  {
    Agrees(Fold(s, fs[..k]), fs[k])
  }

  ghost predicate EqualThroughout(s: RaceState, fs: seq<Frame>) {
    forall k :: 0 <= k <= |fs| ==> EqualAfter(s, fs, k)
  }

  ghost predicate AgreesThroughout(s: Snap, fs: seq<Frame>) {
    forall k :: 0 <= k < |fs| ==> AgreesAt(s, fs, k)
  }

  /** The last frame of a run that was equal before it. */
  lemma LastFrameAgrees(s: RaceState, fs: seq<Frame>)
    requires fs != [] && EqualAfter(s, fs, |fs| - 1)
    ensures EqualAfter(s, fs, |fs|) <==> AgreesAt(Shared(s), fs, |fs| - 1)
  {
    var n := |fs| - 1;
    assert fs[..n] + [fs[n]] == fs == fs[..n + 1];
    FoldSnoc(Shared(s), fs[..n], fs[n]);
    StepAgreement(ReduceFrames(s, fs[..n]), fs[n]);
  }

  lemma {:induction false} EqualPrefix(s: RaceState, fs: seq<Frame>)
    requires fs != []
    ensures var n := |fs| - 1;
            EqualThroughout(s, fs) <==> EqualThroughout(s, fs[..n]) && EqualAfter(s, fs, n + 1)
    ensures EqualThroughout(s, fs[..|fs| - 1]) ==> EqualAfter(s, fs, |fs| - 1)
  {
    var n := |fs| - 1;
    forall k | 0 <= k <= n ensures EqualAfter(s, fs[..n], k) == EqualAfter(s, fs, k) {
      assert fs[..n][..k] == fs[..k];
    }
    if EqualThroughout(s, fs[..n]) { assert EqualAfter(s, fs[..n], n); }
  }

  lemma {:induction false} AgreesPrefix(s: Snap, fs: seq<Frame>)
    requires fs != []
    ensures var n := |fs| - 1;
            AgreesThroughout(s, fs) <==> AgreesThroughout(s, fs[..n]) && AgreesAt(s, fs, n)
  {
    var n := |fs| - 1;
    forall k | 0 <= k < n ensures AgreesAt(s, fs[..n], k) == AgreesAt(s, fs, k) {
      assert fs[..n][..k] == fs[..k];
    }
  }

  /** Whole runs: the browser tracks the server after every frame if and only if every
      frame satisfies `Agrees` against the server's snapshot at that point. */
  lemma {:induction false} RunAgreement(s: RaceState, fs: seq<Frame>)
    ensures EqualThroughout(s, fs) <==> AgreesThroughout(Shared(s), fs)
  {
    if fs == [] {
      assert EqualAfter(s, fs, 0);
    } else {
      RunAgreement(s, fs[..|fs| - 1]);
      EqualPrefix(s, fs);
      AgreesPrefix(Shared(s), fs);
      if EqualAfter(s, fs, |fs| - 1) { LastFrameAgrees(s, fs); }
    }
  }

  /** No accepted frame steps the clock back by 1 to 5000 ms. */
  ghost predicate NoSmallRewind(s: Snap, fs: seq<Frame>) {
    forall k :: 0 <= k < |fs| ==>
                  var at := Fold(s, fs[..k]);
                  fs[k].rev <= at.rev || !(at.timeMs - LOOP_REWIND_MS <= fs[k].timeMs < at.timeMs)
  }

  /** The documented reading: from a snapshot that has a Rev, or has no messages yet, a run
      whose accepted frames never step back by 1 to 5000 ms is read identically. */
  lemma NoSmallRewindAgrees(s: Snap, fs: seq<Frame>)
    requires 0 <= s.rev && (s.rev == 0 ==> s.messages == [])
    requires NoSmallRewind(s, fs)
    ensures AgreesThroughout(s, fs)
  {
    forall k | 0 <= k < |fs| ensures AgreesAt(s, fs, k) {
      FoldRev(s, fs[..k]);
      var at := Fold(s, fs[..k]);
      if at.rev == s.rev {
        forall f | f in fs[..k] ensures f.rev <= s.rev { }
        FoldStale(s, fs[..k]);
      }
    }
  }

  /** The browser ignores anything it has already folded, like the server. */
  lemma {:induction false} ReduceStale(s: RaceState, fs: seq<Frame>)
    requires forall f :: f in fs ==> f.rev <= s.rev
    ensures ReduceFrames(s, fs) == s
  {
    if fs != [] {
      ReduceStale(s, fs[..|fs| - 1]);
      assert fs[|fs| - 1] in fs;
    }
  }

  lemma {:induction false} ReduceRev(s: RaceState, fs: seq<Frame>)
    ensures ReduceFrames(s, fs).rev == Fold(Shared(s), fs).rev
  {
    if fs != [] {
      ReduceRev(s, fs[..|fs| - 1]);
    }
  }

  /** Applying any already-seen frame again changes nothing, on either side. */
  lemma SeenFramesAreInert(s: RaceState, fs: seq<Frame>, f: Frame)
    requires f in fs
    ensures ApplyMessage(ReduceFrames(s, fs), FrameMsg(f)) == ReduceFrames(s, fs)
    ensures ApplyFrame(Fold(Shared(s), fs), f) == Fold(Shared(s), fs)
  {
    ReduceRev(s, fs);
    FoldRev(Shared(s), fs);
  }

  /** A concrete small rewind: one message is held, and a frame 100 ms early arrives. The
      server forgets the message and the browser keeps it. */
  lemma SmallRewindDiverges()
    ensures exists s: RaceState, f: Frame ::
              s.rev < f.rev && Shared(s).timeMs - f.timeMs == 100
              && Shared(ApplyMessage(s, FrameMsg(f))) != ApplyFrame(Shared(s), f)
  {
    var s := EmptyState().(rev := 1, timeMs := 1000, messages := [RaceControl(1, 1000, "Flag", "GREEN", None)]);
    var f := Frame("s", 2, 0, 900, [], [], [], None);
    StepAgreement(s, f);
    assert !Agrees(Shared(s), f);
  }

  // ------------------------------------------------------------------ the two counters

  /** Message k is a newer frame that takes the clock back by more than five seconds, on a board
      that has had a frame. */
  ghost predicate Rewinds(msgs: seq<Msg>, k: nat)
    requires k < |msgs|
  {
    var board := Browser(msgs[..k]);
    msgs[k].FrameMsg? && 0 < board.rev < msgs[k].frame.rev && board.timeMs - msgs[k].frame.timeMs > 5000
  }

  ghost function RewindsIn(msgs: seq<Msg>): nat {
    if msgs == [] then 0
    else RewindsIn(msgs[..|msgs| - 1]) + (if Rewinds(msgs, |msgs| - 1) then 1 else 0)
  }

  function SnapshotsIn(msgs: seq<Msg>): nat {
    if msgs == [] then 0
    else SnapshotsIn(msgs[..|msgs| - 1]) + (if msgs[|msgs| - 1].SnapshotMsg? then 1 else 0)
  }

  /** `snapshotSeq` counts the snapshots read, and `loopSeq` the wraps of the clip: a page that
      watches them sees each reconnect or switch, and each new pass, exactly once. */
  lemma {:induction false} CountersCount(msgs: seq<Msg>)
    requires forall k :: 0 <= k < |msgs| && msgs[k].SnapshotMsg? ==> msgs[k].snap.rev >= 0
    ensures Browser(msgs).rev >= 0
    ensures Browser(msgs).snapshotSeq == SnapshotsIn(msgs)
    ensures Browser(msgs).loopSeq == RewindsIn(msgs)
  {
    if msgs != [] { CountersCount(msgs[..|msgs| - 1]); }
  }
}
