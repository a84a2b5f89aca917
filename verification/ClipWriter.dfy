/** The Python writer of the same seam (ingest/live.py): it streams a baked clip for ever, folds
    each frame into its own snapshot, stores the snapshot and publishes the frame.

    A line of the clip is a `Frame` whose own Rev and session are ignored. The snapshot holds
    the very car objects of the frame, which building the frame renumbers in place. */
module ClipWriter {
  import opened Model
  import opened Sorting
  import Reducer
  import R = RunningOrder
  import L = SessionLane

  function FoldMessages(existing: seq<RaceControl>, more: seq<RaceControl>): seq<RaceControl> {
    LastN(existing + more, MAX_MESSAGES)
  }

  /** It mirrors the server's rolling buffer unless nothing is added to an over-long one. */
  lemma FoldMessagesMirrors(existing: seq<RaceControl>, more: seq<RaceControl>)
    ensures FoldMessages(existing, more) == AppendCapped(existing, more) <==> more != [] || |existing| <= MAX_MESSAGES
  {
    assert existing + [] == existing;
  }

  /** The frame that goes out: cars reconciled, radio left behind. */
  function Wire(session: string, rev: int, line: Frame): Frame {
    line.(session := session, rev := rev, cars := R.Reconcile(line.cars), radio := [])
  }

  /** The writer's snapshot after publishing one line. */
  function Store(s: Snap, line: Frame): Snap {
    s.(cars := FoldCars(s.cars, R.WithRanks(line.cars, R.Reconcile(line.cars))),
    messages := if line.messages == [] then s.messages else FoldMessages(s.messages, line.messages),
    weather := if line.weather.Some? then line.weather else s.weather,
    timeMs := line.timeMs,
    rev := s.rev + 1)
  }

  /** When the stored snapshot is what a subscriber folds: unlike the server's reducer, this
      writer never empties its message buffer when the clip starts over. */
  predicate Mirrors(s: Snap, line: Frame) {
    s.timeMs <= line.timeMs || s.messages == [] || |line.messages| >= MAX_MESSAGES
  }

  // ------------------------------------------------------------------ cars

  /** One driver's entry is the same object in the snapshot and in the frame. */
  lemma SameEntry(cars: seq<Car>, driver: int)
    requires R.DistinctDrivers(cars)
    ensures var w, f := R.WithRanks(cars, R.Reconcile(cars)), R.Reconcile(cars);
            var i, j := LastCarIndex(w, driver), LastCarIndex(f, driver);
            (i < 0 <==> j < 0) && (i >= 0 ==> w[i] == f[j])
  {
    var f := R.Reconcile(cars);
    var i, j := LastCarIndex(R.WithRanks(cars, f), driver), LastCarIndex(f, driver);
    R.WithRanksAt(cars, f);
    R.RankIsLast(f, driver);
    if j >= 0 {
      var place := R.OriginalPlace(cars, j);
      assert R.WithRanks(cars, f)[place].driverNum == driver;
    }
    if i >= 0 { R.PlaceInReconciled(cars, i); }
  }

  lemma SameCars(before: map<int, Car>, cars: seq<Car>)
    requires R.DistinctDrivers(cars)
    ensures FoldCars(before, R.WithRanks(cars, R.Reconcile(cars))) == FoldCars(before, R.Reconcile(cars))
  {
    var a, b := FoldCars(before, R.WithRanks(cars, R.Reconcile(cars))), FoldCars(before, R.Reconcile(cars));
    forall d ensures (d in a <==> d in b) && (d in a ==> a[d] == b[d]) {
      SameEntry(cars, d);
      FoldCarsMeaning(before, R.WithRanks(cars, R.Reconcile(cars)), d);
      FoldCarsMeaning(before, R.Reconcile(cars), d);
    }
  }

  /** Building a frame leaves its own cars sorted and renumbered in the clip; the next pass
      publishes and stores the same from them. */
  lemma NextPassAlike(s: Snap, rev: int, line: Frame)
    requires R.DistinctDrivers(line.cars)
    ensures var reread := line.(cars := R.Reconcile(line.cars));
            && Wire(s.header.session, rev, reread) == Wire(s.header.session, rev, line)
            && Store(s, reread) == Store(s, line)
  {
    R.ReconcileIdempotent(line.cars);
    R.ReconciledDistinct(line.cars);
    SameCars(s.cars, line.cars);
    SameCars(s.cars, R.Reconcile(line.cars));
  }

  // ------------------------------------------------------------------ one frame

  /** One line: the stored snapshot is what folding the published frame gives if and only if
      the clock does not step back over held messages. */
  lemma StepMirrors(s: Snap, line: Frame)
    requires R.DistinctDrivers(line.cars)
    ensures Store(s, line) == ApplyFrame(s, Wire(s.header.session, s.rev + 1, line)) <==> Mirrors(s, line)
  {
    SameCars(s.cars, line.cars);
    Reducer.CarriedMessagesAgree(s.messages, line.messages);
    assert s.radio + [] == s.radio;
    var here, there := Store(s, line), ApplyFrame(s, Wire(s.header.session, s.rev + 1, line));
    assert here.messages == Reducer.CarriedMessages(true, s.messages, line.messages);
    assert there.messages == Reducer.CarriedMessages(s.timeMs <= line.timeMs, s.messages, line.messages);
    assert here.(messages := []) == there.(messages := []);
  }

  // ------------------------------------------------------------------ whole runs

  /** What is stored after a run of lines, and what is published over it. */
  function Stored(s: Snap, lines: seq<Frame>): Snap {
    if lines == [] then s else Store(Stored(s, lines[..|lines| - 1]), lines[|lines| - 1])
  }

  function Sent(s: Snap, lines: seq<Frame>): seq<Frame> {
    if lines == [] then []
    else
      var front := lines[..|lines| - 1];
      Sent(s, front) + [Wire(s.header.session, Stored(s, front).rev + 1, lines[|lines| - 1])]
  }

  ghost predicate DistinctInEach(lines: seq<Frame>) {
    forall k :: 0 <= k < |lines| ==> R.DistinctDrivers(lines[k].cars)
  }

  /** The stored snapshot is the fold of what was published. */
  ghost predicate TrueNow(s: Snap, lines: seq<Frame>) {
    Stored(s, lines) == Fold(s, Sent(s, lines))
  }

  /** It is after every line. */
  ghost predicate TrueThroughout(s: Snap, lines: seq<Frame>) {
    TrueNow(s, lines) && (lines != [] ==> TrueThroughout(s, lines[..|lines| - 1]))
  }

  /** Every line mirrors, where a subscriber of every frame then stands. */
  ghost predicate MirrorsThroughout(s: Snap, lines: seq<Frame>) {
    lines != [] ==>
      var front := lines[..|lines| - 1];
      MirrorsThroughout(s, front) && Mirrors(Fold(s, Sent(s, front)), lines[|lines| - 1])
  }

  lemma {:induction false} RevsRise(s: Snap, lines: seq<Frame>)
    ensures Stored(s, lines).rev == s.rev + |lines|
    ensures |Sent(s, lines)| == |lines| && Fresh(s.rev, Sent(s, lines))
    ensures forall k :: 0 <= k < |lines| ==> Sent(s, lines)[k].rev == s.rev + k + 1
  {
    if lines != [] { RevsRise(s, lines[..|lines| - 1]); }
  }

  /** What went out for a line: the line's own content under this session, its cars in running
      order, without radio. */
  ghost predicate Carries(f: Frame, line: Frame, session: string) {
    && f.session == session && f.timeMs == line.timeMs
    && f.messages == line.messages && f.weather == line.weather && f.radio == []
    && f.cars == R.Reconcile(line.cars)
  }

  /** Line by line, what is published is the clip's own content. */
  lemma {:induction false} SentCarriesLines(s: Snap, lines: seq<Frame>)
    ensures |Sent(s, lines)| == |lines|
    ensures forall k :: 0 <= k < |lines| ==> Carries(Sent(s, lines)[k], lines[k], s.header.session)
  {
    if lines != [] { SentCarriesLines(s, lines[..|lines| - 1]); }
  }

  lemma {:induction false} HeaderKept(s: Snap, lines: seq<Frame>)
    ensures Stored(s, lines).header == s.header
  {
    if lines != [] { HeaderKept(s, lines[..|lines| - 1]); }
  }

  lemma {:induction false} StoredAppend(s: Snap, xs: seq<Frame>, line: Frame)
    ensures Stored(s, xs + [line]) == Store(Stored(s, xs), line)
    ensures Sent(s, xs + [line]) == Sent(s, xs) + [Wire(s.header.session, Stored(s, xs).rev + 1, line)]
  {
    assert (xs + [line])[..|xs|] == xs;
  }

  /** The same, in terms of where the writer stands. */
  lemma OneMoreStored(s: Snap, xs: seq<Frame>, line: Frame)
    ensures var at := Stored(s, xs);
            && Stored(s, xs + [line]) == Store(at, line)
            && Sent(s, xs + [line]) == Sent(s, xs) + [Wire(at.header.session, at.rev + 1, line)]
  {
    HeaderKept(s, xs);
    StoredAppend(s, xs, line);
  }

  /** One more line, from where stored snapshot and subscribers agree. */
  lemma LineMirrors(s: Snap, front: seq<Frame>, line: Frame)
    requires R.DistinctDrivers(line.cars) && TrueNow(s, front)
    ensures TrueNow(s, front + [line]) <==> Mirrors(Stored(s, front), line)
  {
    HeaderKept(s, front);
    var at := Stored(s, front);
    StoredAppend(s, front, line);
    FoldSnoc(s, Sent(s, front), Wire(s.header.session, at.rev + 1, line));
    StepMirrors(at, line);
  }

  /** Whole runs, any number of passes: whoever reads the stored snapshot sees what a
      subscriber of every frame sees, after every frame, if and only if no line steps the
      clock back over held messages. */
  lemma {:induction false} RunMirrors(s: Snap, lines: seq<Frame>)
    requires DistinctInEach(lines)
    ensures TrueThroughout(s, lines) <==> MirrorsThroughout(s, lines)
  {
    if lines != [] {
      var front, last := lines[..|lines| - 1], lines[|lines| - 1];
      RunMirrors(s, front);
      assert lines == front + [last];
      if TrueThroughout(s, front) {
        assert TrueNow(s, front);
        LineMirrors(s, front, last);
      }
    }
  }

  // ------------------------------------------------------------------ the clip starts over

  ghost predicate NoMessages(lines: seq<Frame>) {
    lines != [] ==> NoMessages(lines[..|lines| - 1]) && lines[|lines| - 1].messages == []
  }

  /** The buffer is only ever added to. */
  lemma {:induction false} StoredMessages(s: Snap, lines: seq<Frame>)
    ensures Stored(s, lines).messages == [] <==> s.messages == [] && NoMessages(lines)
    ensures Stored(s, lines).timeMs == if lines == [] then s.timeMs else lines[|lines| - 1].timeMs
  {
    if lines != [] {
      StoredMessages(s, lines[..|lines| - 1]);
    }
  }

  /** Over a first pass, whose clock never steps back, the stored snapshot is true throughout. */
  lemma {:induction false} FirstPassIsTrue(s: Snap, clip: seq<Frame>)
    requires DistinctInEach(clip) && OnePass(s.timeMs, clip)
    ensures TrueThroughout(s, clip)
  {
    if clip != [] {
      var front, last := clip[..|clip| - 1], clip[|clip| - 1];
      OnePassPrefix(s.timeMs, clip);
      FirstPassIsTrue(s, front);
      StoredMessages(s, front);
      assert TrueNow(s, front) && clip == front + [last];
      LineMirrors(s, front, last);
    }
  }

  /** When the clip starts over, the stored snapshot stays what subscribers fold if and only
      if no message is held by then or the first line alone refills the buffer. Otherwise a
      client that joins from the stored snapshot shows messages that the others dropped. */
  lemma SecondPass(s: Snap, clip: seq<Frame>)
    requires clip != [] && DistinctInEach(clip) && OnePass(s.timeMs, clip)
    requires clip[0].timeMs < clip[|clip| - 1].timeMs
    ensures TrueNow(s, clip + [clip[0]])
            <==> (s.messages == [] && NoMessages(clip)) || |clip[0].messages| >= MAX_MESSAGES
  {
    FirstPassIsTrue(s, clip);
    StoredMessages(s, clip);
    LineMirrors(s, clip, clip[0]);
  }

  /** What is shown after one more line to whoever reads the stored snapshot, and to a
      subscriber of every frame. */
  lemma OneMoreLine(s: Snap, xs: seq<Frame>, line: Frame)
    requires Fold(s, Sent(s, xs)).(messages := []) == Stored(s, xs).(messages := []) && line.cars == []
    ensures var at, sub := Stored(s, xs), Fold(s, Sent(s, xs));
            var at', sub' := Stored(s, xs + [line]), Fold(s, Sent(s, xs + [line]));
            && sub'.(messages := []) == at'.(messages := []) && at'.timeMs == line.timeMs
            && at'.messages == Reducer.CarriedMessages(true, at.messages, line.messages)
            && sub'.messages == Reducer.CarriedMessages(at.timeMs <= line.timeMs, sub.messages, line.messages)
  {
    var at, sub := Stored(s, xs), Fold(s, Sent(s, xs));
    HeaderKept(s, xs);
    StoredAppend(s, xs, line);
    FoldSnoc(s, Sent(s, xs), Wire(s.header.session, at.rev + 1, line));
    SameCars(at.cars, line.cars);
    Reducer.CarriedMessagesAgree(at.messages, line.messages);
    Reducer.CarriedMessagesAgree(sub.messages, line.messages);
    assert sub.radio + [] == sub.radio;
  }

  /** Two lines, each with a message: when the clip starts over, every client that was there
      drops both and shows the first anew, and one that joins from the stored snapshot is
      still shown them all. */
  lemma MessageOutlivesTheClip(header: Header, m: RaceControl, n: RaceControl)
    ensures var s, a := Snap(header, map[], [], [], None, 0, 0), Frame("", 0, 0, 0, [], [m], [], None);
            var again := [] + [a] + [a.(timeMs := 1000, messages := [n])] + [a];
            Stored(s, again).messages == [m, n, m] && Fold(s, Sent(s, again)).messages == [m]
  {
    var s, a := Snap(header, map[], [], [], None, 0, 0), Frame("", 0, 0, 0, [], [m], [], None);
    var b := a.(timeMs := 1000, messages := [n]);
    OneMoreLine(s, [], a);
    OneMoreLine(s, [] + [a], b);
    OneMoreLine(s, [] + [a] + [b], a);
  }

  // ------------------------------------------------------------------ starting again

  /** What GET finds. */
  datatype Text = Missing | Corrupt | Readable(s: Snap)

  function StartingRev(text: Text): int {
    if text.Readable? then text.s.rev else 0
  }

  /** The lane's last stored snapshot, if any, is what GET finds unless it does not parse. */
  ghost predicate Finds(l: L.Lane, text: Text) {
    match text
    case Missing => l.stores == []
    case Corrupt => l.stores != []
    case Readable(s) => l.stores != [] && s == l.stores[|l.stores| - 1]
  }

  /** A restarted writer's first Rev is above everything published before it if and only if
      the stored snapshot parses or nothing was published. */
  lemma RestartIsAbove(l: L.Lane, text: Text)
    requires L.Inv(l) && Finds(l, text)
    ensures (forall f :: f in l.log ==> f.rev < StartingRev(text) + 1) <==> !text.Corrupt? || l.log == []
  {
    if text.Corrupt? && l.log != [] {
      assert l.log[0] in l.log && 0 < l.log[0].rev;
    }
  }

  /** A lane whose one stored snapshot does not parse, and one frame of Rev 1 published: the
      writer that starts again publishes Rev 1 a second time. */
  lemma CorruptStoreRepeatsARev()
    ensures exists l: L.Lane ::
              L.Inv(l) && Finds(l, Corrupt) && |l.log| == 1 && l.log[0].rev == StartingRev(Corrupt) + 1
  {
    var f := Frame("", 1, 0, 0, [], [], [], None);
    var l := L.Lane([NewSnap("").(rev := 1)], [f], None, 1, 1, 0);
    assert L.Inv(l);
  }

  // ------------------------------------------------------------------ the writer, in place

  function Passes(clip: seq<Frame>, n: nat): seq<Frame> {
    if n == 0 then [] else Passes(clip, n - 1) + clip
  }

  /** n whole passes and the first i lines of the next. */
  function UpTo(clip: seq<Frame>, n: nat, i: nat): seq<Frame>
    requires i <= |clip|
  {
    Passes(clip, n) + clip[..i]
  }

  lemma PassBounds(clip: seq<Frame>, n: nat)
    ensures UpTo(clip, n, 0) == Passes(clip, n) && UpTo(clip, n, |clip|) == Passes(clip, n + 1)
  {
    assert clip[..|clip|] == clip;
  }

  lemma PassStep(clip: seq<Frame>, n: nat, i: nat)
    requires i < |clip|
    ensures UpTo(clip, n, i + 1) == UpTo(clip, n, i) + [clip[i]]
  {
    assert clip[..i + 1] == clip[..i] + [clip[i]];
  }

  class Publisher {
    const header: Header
    var cars: map<int, Car>
    var messages: seq<RaceControl>
    var radio: seq<RadioRef>
    var weather: Option<Weather>
    var timeMs: int
    var rev: int
    var stored: Option<Snap>
    var sent: seq<Frame>

    ghost function View(): Snap
      reads this
    {
      Snap(header, cars, messages, radio, weather, timeMs, rev)
    }

    /** The fields and the channel are what publishing `lines` from `start` leaves. */
    ghost predicate Reached(start: Snap, lines: seq<Frame>)
      reads this
    {
      View() == Stored(start, lines) && sent == Sent(start, lines)
    }

    /** Starts above what GET finds, with no cars and no messages. */
    constructor (header: Header, radio: seq<RadioRef>, text: Text)
      ensures Reached(Snap(header, map[], [], radio, None, 0, StartingRev(text)), [])
    {
      this.header, this.radio := header, radio;
      cars, messages, weather, timeMs, rev := map[], [], None, 0, StartingRev(text);
      stored, sent := None, [];
    }

    method FoldCarsIn(held: seq<Car>)
      modifies `cars
      ensures cars == FoldCars(old(cars), held)
    {
      for i := 0 to |held|
        invariant cars == FoldCars(old(cars), held[..i])
      {
        assert held[..i + 1][..i] == held[..i];
        cars := cars[held[i].driverNum := held[i]];
      }
      assert held[..|held|] == held;
    }

    /** Folds, builds, SETs and PUBLISHes one line. */
    method PublishLine(line: Frame)
      modifies this
      ensures View() == Store(old(View()), line)
      ensures stored == Some(View())
      ensures sent == old(sent) + [Wire(header.session, old(rev) + 1, line)]
    {
      rev := rev + 1;
      var frame := Wire(header.session, rev, line);
      FoldCarsIn(R.WithRanks(line.cars, frame.cars));
      if line.messages != [] { messages := FoldMessages(messages, line.messages); }
      if line.weather.Some? { weather := line.weather; }
      timeMs := line.timeMs;
      stored := Some(Snap(header, cars, messages, radio, weather, timeMs, rev));
      sent := sent + [frame];
    }

    method PublishNext(line: Frame, ghost start: Snap, ghost lines: seq<Frame>)
      requires Reached(start, lines)
      modifies this
      ensures Reached(start, lines + [line]) && stored == Some(View())
    {
      ghost var next, out := Stored(start, lines + [line]), Sent(start, lines + [line]);
      OneMoreStored(start, lines, line);
      assert next == Store(View(), line) && out == sent + [Wire(header.session, rev + 1, line)];
      PublishLine(line);
    }

    /** Loops the clip; `passes` is how often before the process ends. */
    method PublishClip(clip: seq<Frame>, passes: nat)
      requires sent == []
      modifies this
      ensures Reached(old(View()), Passes(clip, passes))
      ensures clip != [] && passes > 0 ==> stored == Some(View())
    {
      ghost var start := View();
      for n := 0 to passes
        invariant Reached(start, Passes(clip, n))
        invariant clip != [] && n > 0 ==> stored == Some(View())
      {
        PassBounds(clip, n);
        for i := 0 to |clip|
          invariant Reached(start, UpTo(clip, n, i))
          invariant i > 0 ==> stored == Some(View())
        {
          PassStep(clip, n, i);
          PublishNext(clip[i], start, UpTo(clip, n, i));
        }
      }
    }
  }
}
