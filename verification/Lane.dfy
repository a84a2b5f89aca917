/** One session's lane across the seam: the stored snapshot, the frame channel and the one
    writer at a time that feeds them (internal/app/writer.go, internal/bus/redis.go,
    ingest/live.py).

    A writer folds a frame into its own snapshot, SETs the snapshot, then PUBLISHes the
    frame. Any of the two may fail (the frame is then never published), and the writer may
    crash between any two steps; its successor resumes above the stored Rev with an empty
    car map. `stores` and `log` keep everything ever stored and published; `run`, `storedRun`
    and `storedAt` say which writer stored the latest snapshot and after how many frames. */
module SessionLane {
  import opened Model

  datatype Phase = Idle | Folded(f: Frame) | Stored(f: Frame)

  datatype Writer = Writer(
    start: Snap, applied: seq<Frame>, snap: Snap, rev: int, phase: Phase, epoch: nat, lossless: bool)

  datatype Lane = Lane(
    stores: seq<Snap>, log: seq<Frame>, writer: Option<Writer>,
    run: nat, storedRun: nat, storedAt: nat)

  const EMPTY_LANE := Lane([], [], None, 0, 0, 0)

  function StoredRev(l: Lane): int {
    if l.stores == [] then 0 else l.stores[|l.stores| - 1].rev
  }

  // ------------------------------------------------------------------ steps

  /** A writer reads the stored snapshot and takes the clip's baked fields for its own. */
  function StartWriter(l: Lane, baked: Snap): Lane {
    var start := baked.(cars := map[], rev := StoredRev(l));
    l.(writer := Some(Writer(start, [], start, start.rev, Idle, |l.log|, true)), run := l.run + 1)
  }

  /** The frame as the writer stamps it: the source's own Rev and session are ignored. */
  function Stamp(w: Writer, f: Frame): Frame {
    f.(rev := w.rev + 1, session := w.start.header.session)
  }

  function FoldOne(w: Writer, f: Frame): Writer {
    var fr := Stamp(w, f);
    w.(applied := w.applied + [fr], snap := ApplyFrame(w.snap, fr), rev := w.rev + 1, phase := Folded(fr))
  }

  function Store(l: Lane, w: Writer): Lane {
    l.(stores := l.stores + [w.snap], storedRun := l.run, storedAt := |w.applied|)
  }

  function Append(l: Lane, f: Frame): Lane {
    l.(log := l.log + [f])
  }

  datatype Step =
    | Start(baked: Snap)
    | StoreInitial
    | Take(f: Frame)
    | SetOk
    | SetFails
    | PublishOk
    | PublishFails
    | Crash

  predicate Enabled(l: Lane, step: Step) {
    match step
    case Start(baked) => l.writer.None?
    case StoreInitial => l.writer.Some? && l.writer.value.applied == []
    case Take(f) => l.writer.Some? && l.writer.value.phase.Idle?
    case SetOk => l.writer.Some? && l.writer.value.phase.Folded?
    case SetFails => l.writer.Some? && l.writer.value.phase.Folded?
    case PublishOk => l.writer.Some? && l.writer.value.phase.Stored?
    case PublishFails => l.writer.Some? && l.writer.value.phase.Stored?
    case Crash => l.writer.Some?
  }

  function Next(l: Lane, step: Step): Lane
    requires Enabled(l, step)
  {
    match step
    case Start(baked) => StartWriter(l, baked)
    case StoreInitial => Store(l, l.writer.value)
    case Take(f) => l.(writer := Some(FoldOne(l.writer.value, f)))
    case SetOk =>
      var w := l.writer.value;
      Store(l, w).(writer := Some(w.(phase := Stored(w.phase.f))))
    case SetFails => l.(writer := Some(l.writer.value.(phase := Idle, lossless := false)))
    case PublishOk =>
      var w := l.writer.value;
      Append(l, w.phase.f).(writer := Some(w.(phase := Idle)))
    case PublishFails => l.(writer := Some(l.writer.value.(phase := Idle, lossless := false)))
    case Crash => l.(writer := None)
  }

  /** The frame a step puts on the channel, if any. */
  function Published(l: Lane, step: Step): Option<Frame>
    requires Enabled(l, step)
  {
    if step.PublishOk? then Some(l.writer.value.phase.f) else None
  }

  // ------------------------------------------------------------------ the invariant

  function Pending(w: Writer): seq<Frame> {
    match w.phase
    case Idle => []
    case Folded(f) => [f]
    case Stored(f) => [f]
  }

  ghost predicate WriterOk(w: Writer) {
    && w.snap == Fold(w.start, w.applied)
    && w.rev == w.snap.rev
    && Fresh(w.start.rev, w.applied)
    && (!w.phase.Idle? ==> w.applied != [] && w.applied[|w.applied| - 1] == w.phase.f)
  }

  ghost predicate WriterInLane(l: Lane, w: Writer) {
    && 0 <= w.start.rev <= StoredRev(l) <= w.rev
    && w.epoch <= |l.log|
    && (forall i :: 0 <= i < w.epoch ==> l.log[i].rev <= w.start.rev)
    && (w.phase.Folded? ==> StoredRev(l) < w.rev)
    && (w.phase.Stored? ==> StoredRev(l) == w.rev && forall i :: 0 <= i < |l.log| ==> l.log[i].rev < w.rev)
    && (w.lossless ==> l.log[w.epoch..] + Pending(w) == w.applied)
    && (l.storedRun == l.run && l.stores != [] ==>
          l.storedAt <= |w.applied| && l.stores[|l.stores| - 1] == Fold(w.start, w.applied[..l.storedAt]))
  }

  /** Stored Revs never decrease and never fall below a published one; published Revs
      strictly increase. */
  ghost predicate RevsOk(l: Lane) {
    && (forall i, j :: 0 <= i <= j < |l.stores| ==> 0 <= l.stores[i].rev <= l.stores[j].rev)
    && Ascending(l.log)
    && (forall i :: 0 <= i < |l.log| ==> 0 < l.log[i].rev <= StoredRev(l))
    && (l.stores == [] ==> l.log == [])
  }

  ghost predicate Inv(l: Lane) {
    && RevsOk(l)
    && l.storedRun <= l.run
    && (l.stores != [] <==> 0 < l.storedRun)
    && (l.writer.Some? ==> 0 < l.run && WriterOk(l.writer.value) && WriterInLane(l, l.writer.value))
  }

  lemma FoldOneOk(w: Writer, f: Frame)
    requires WriterOk(w) && w.phase.Idle?
    ensures WriterOk(FoldOne(w, f))
    ensures w.rev < FoldOne(w, f).rev
    ensures FoldOne(w, f).applied == w.applied + [Stamp(w, f)]
  {
    var fr := Stamp(w, f);
    FoldSnoc(w.start, w.applied, fr);
    FoldClock(w.start, w.applied);
  }

  lemma TakeKeepsPlace(l: Lane, w: Writer, f: Frame)
    requires l.writer == Some(w) && WriterInLane(l, w) && w.phase.Idle? && w.snap == Fold(w.start, w.applied)
    ensures WriterInLane(Next(l, Take(f)), FoldOne(w, f))
  {
    var w' := FoldOne(w, f);
    assert w.lossless ==> l.log[w.epoch..] + [] == w.applied;
    assert Pending(w') == [Stamp(w, f)];
    assert l.storedAt <= |w.applied| ==> w'.applied[..l.storedAt] == w.applied[..l.storedAt];
  }

  lemma TakeKeeps(l: Lane, f: Frame)
    requires Inv(l) && Enabled(l, Take(f))
    ensures Inv(Next(l, Take(f)))
  {
    FoldOneOk(l.writer.value, f);
    TakeKeepsPlace(l, l.writer.value, f);
    var l' := Next(l, Take(f));
    assert l'.stores == l.stores && l'.log == l.log;
  }

  lemma GiveUpKeeps(l: Lane, step: Step)
    requires Inv(l) && Enabled(l, step) && (step.SetFails? || step.PublishFails?)
    ensures Inv(Next(l, step))
  {
  }

  lemma SetKeeps(l: Lane)
    requires Inv(l) && Enabled(l, SetOk)
    ensures Inv(Next(l, SetOk))
  {
    var w := l.writer.value;
    assert w.applied[..|w.applied|] == w.applied;
  }

  lemma StoredIsWriters(l: Lane)
    requires Inv(l) && Enabled(l, PublishOk)
    ensures var w := l.writer.value;
            && 0 < w.phase.f.rev == w.rev == StoredRev(l)
            && forall i :: 0 <= i < |l.log| ==> l.log[i].rev < w.phase.f.rev
  {
    FoldClock(l.writer.value.start, l.writer.value.applied);
  }

  lemma PublishKeepsRevs(l: Lane)
    requires Inv(l) && Enabled(l, PublishOk)
    ensures RevsOk(Next(l, PublishOk))
  {
    StoredIsWriters(l);
    var l' := Next(l, PublishOk);
    assert l'.stores == l.stores && l'.log == l.log + [l.writer.value.phase.f];
  }

  lemma PublishKeeps(l: Lane)
    requires Inv(l) && Enabled(l, PublishOk)
    ensures Inv(Next(l, PublishOk))
  {
    PublishKeepsRevs(l);
    var w, l' := l.writer.value, Next(l, PublishOk);
    assert l'.stores == l.stores && l'.log == l.log + [w.phase.f];
    assert w.lossless ==> l'.log[w.epoch..] + [] == w.applied;
  }

  lemma StepKeepsInv(l: Lane, step: Step)
    requires Inv(l) && Enabled(l, step)
    ensures Inv(Next(l, step))
  {
    match step
    case Start(baked) =>
    case StoreInitial =>
    case Take(f) =>
      TakeKeeps(l, f);
    case SetOk =>
      SetKeeps(l);
    case SetFails =>
      GiveUpKeeps(l, step);
    case PublishOk =>
      PublishKeeps(l);
    case PublishFails =>
      GiveUpKeeps(l, step);
    case Crash =>
  }

  // ------------------------------------------------------------------ whole runs

  ghost predicate IsRun(lanes: seq<Lane>, steps: seq<Step>) {
    && |lanes| == |steps| + 1
    && lanes[0] == EMPTY_LANE
    && forall i :: 0 <= i < |steps| ==> Enabled(lanes[i], steps[i]) && lanes[i + 1] == Next(lanes[i], steps[i])
  }

  lemma {:induction false} RunKeepsInv(lanes: seq<Lane>, steps: seq<Step>, i: nat)
    requires IsRun(lanes, steps) && i < |lanes|
    ensures Inv(lanes[i])
  {
    if i > 0 {
      RunKeepsInv(lanes, steps, i - 1);
      StepKeepsInv(lanes[i - 1], steps[i - 1]);
    }
  }

  lemma {:induction false} RunOnlyAdds(lanes: seq<Lane>, steps: seq<Step>, i: nat, j: nat)
    requires IsRun(lanes, steps) && i <= j < |lanes|
    ensures lanes[i].log <= lanes[j].log && lanes[i].stores <= lanes[j].stores
  {
    if i < j {
      RunOnlyAdds(lanes, steps, i, j - 1);
    }
  }

  /** Across any crashes, restarts and failed publishes: at every two moments i <= j of a run
      the stored Rev has not gone down, it is at least every Rev published so far, and
      whatever was published in between is above everything published before. */
  lemma RevSafety(lanes: seq<Lane>, steps: seq<Step>, i: nat, j: nat)
    requires IsRun(lanes, steps) && i <= j < |lanes|
    ensures 0 <= StoredRev(lanes[i]) <= StoredRev(lanes[j])
    ensures forall f :: f in lanes[j].log ==> f.rev <= StoredRev(lanes[j])
    ensures lanes[i].log <= lanes[j].log
    ensures forall a, b :: 0 <= a < |lanes[i].log| <= b < |lanes[j].log| ==> lanes[j].log[a].rev < lanes[j].log[b].rev
  {
    RunKeepsInv(lanes, steps, i);
    RunKeepsInv(lanes, steps, j);
    RunOnlyAdds(lanes, steps, i, j);
    var si, sj := lanes[i].stores, lanes[j].stores;
    if si != [] { assert sj[|si| - 1] == si[|si| - 1]; }
  }

  /** A frame reaches the channel only after the snapshot that contains it was stored. */
  lemma StoredBeforePublished(l: Lane, step: Step)
    requires Inv(l) && Enabled(l, step) && step.PublishOk?
    ensures var f := Published(l, step).value;
            && StoredRev(l) == f.rev
            && forall g :: g in l.log ==> g.rev < f.rev
  {
    FoldClock(l.writer.value.start, l.writer.value.applied);
  }

  // ------------------------------------------------------------------ what a writer carries

  /** A writer that starts on this lane: nothing of the baked snapshot but its cars and Rev is
      replaced, by no cars and the stored Rev. */
  ghost predicate BeginsFrom(l: Lane, baked: Snap, start: Snap) {
    && start.cars == map[] && start.rev == StoredRev(l)
    && start.header == baked.header && start.messages == baked.messages && start.radio == baked.radio
    && start.weather == baked.weather && start.timeMs == baked.timeMs
  }

  /** Every writer began where the lane stood when it started, without a car. */
  lemma {:induction false} WriterBegins(lanes: seq<Lane>, steps: seq<Step>, i: nat)
    requires IsRun(lanes, steps) && i < |lanes| && lanes[i].writer.Some?
    ensures exists j: nat :: j < i && steps[j].Start?
                             && BeginsFrom(lanes[j], steps[j].baked, lanes[i].writer.value.start)
  {
    assert i > 0;
    if steps[i - 1].Start? {
      assert BeginsFrom(lanes[i - 1], steps[i - 1].baked, lanes[i].writer.value.start);
    } else {
      WriterBegins(lanes, steps, i - 1);
    }
  }

  /** In every reachable state a writer's board holds exactly the drivers its own frames have
      carried, each as last carried: no car of an earlier writer or of the clip is left on it. */
  lemma WriterShowsItsOwn(lanes: seq<Lane>, steps: seq<Step>, i: nat, driver: int)
    requires IsRun(lanes, steps) && i < |lanes| && lanes[i].writer.Some?
    ensures var w := lanes[i].writer.value;
            var cars, k := AllCars(w.applied), LastCarIndex(AllCars(w.applied), driver);
            if k < 0 then driver !in w.snap.cars
            else driver in w.snap.cars && w.snap.cars[driver] == cars[k]
  {
    RunKeepsInv(lanes, steps, i);
    WriterBegins(lanes, steps, i);
    var w := lanes[i].writer.value;
    FoldMeaning(w.start, w.applied);
    FoldCarsMeaning(w.start.cars, AllCars(w.applied), driver);
  }

  // ------------------------------------------------------------------ what the steps leave

  /** What one step adds to the store and the channel, and where it leaves the writer. */
  lemma StepEffects(l: Lane, step: Step)
    requires Enabled(l, step)
    ensures var l' := Next(l, step);
            && (l'.writer.Some? <==> step.Start? || (l.writer.Some? && !step.Crash?))
            && l'.log == l.log + (if step.PublishOk? then [l.writer.value.phase.f] else [])
            && l'.stores == l.stores + (if step.SetOk? || step.StoreInitial? then [l.writer.value.snap] else [])
            && l'.run == l.run + (if step.Start? then 1 else 0)
    ensures var l' := Next(l, step);
            l'.writer.Some? && !step.StoreInitial? ==>
              && (l'.writer.value.phase.Folded? <==> step.Take?)
              && (l'.writer.value.phase.Stored? <==> step.SetOk?)
  {
  }

  /** Whether nothing failed at a writer since it started. */
  predicate Unfailed(steps: seq<Step>, i: nat)
    requires i <= |steps|
  {
    i > 0 && match steps[i - 1]
             case Start(_) => true
             case SetFails => false
             case PublishFails => false
             case _ => Unfailed(steps, i - 1)
  }

  predicate Running(steps: seq<Step>, i: nat)
    requires i <= |steps|
  {
    i > 0 && (steps[i - 1].Start? || (!steps[i - 1].Crash? && Running(steps, i - 1)))
  }

  /** A lane has a writer if and only if one started and has not crashed since; and the writer
      counts as lossless if and only if no SET and no PUBLISH of its own has failed. */
  lemma {:induction false} WriterIff(lanes: seq<Lane>, steps: seq<Step>, i: nat)
    requires IsRun(lanes, steps) && i < |lanes|
    ensures lanes[i].writer.Some? <==> Running(steps, i)
    ensures lanes[i].writer.Some? ==> (lanes[i].writer.value.lossless <==> Unfailed(steps, i))
  {
    if i > 0 {
      WriterIff(lanes, steps, i - 1);
      assert Enabled(lanes[i - 1], steps[i - 1]);
    }
  }

  /** Step a took the source frame that went on as f: with the writer's own session and next
      Rev, and otherwise as it came. */
  ghost predicate TakenAs(lanes: seq<Lane>, steps: seq<Step>, a: nat, f: Frame) {
    && a < |steps| && a < |lanes| && steps[a].Take? && lanes[a].writer.Some?
    && var w, g := lanes[a].writer.value, steps[a].f;
       && f.session == w.start.header.session && f.rev == w.rev + 1
       && f.t == g.t && f.timeMs == g.timeMs && f.cars == g.cars
       && f.messages == g.messages && f.radio == g.radio && f.weather == g.weather
  }

  ghost predicate WasTaken(lanes: seq<Lane>, steps: seq<Step>, i: nat, f: Frame) {
    exists a: nat :: a < i && TakenAs(lanes, steps, a, f)
  }

  lemma TakenBefore(lanes: seq<Lane>, steps: seq<Step>, i: nat, j: nat, f: Frame)
    requires i <= j && WasTaken(lanes, steps, i, f)
    ensures WasTaken(lanes, steps, j, f)
  {
  }

  /** Nothing goes out on a lane, or is on its way out, but frames a writer of it took. */
  lemma {:induction false} EverythingWasTaken(lanes: seq<Lane>, steps: seq<Step>, i: nat)
    requires IsRun(lanes, steps) && i < |lanes|
    ensures forall f :: f in lanes[i].log ==> WasTaken(lanes, steps, i, f)
    ensures lanes[i].writer.Some? ==>
              forall f :: f in Pending(lanes[i].writer.value) ==> WasTaken(lanes, steps, i, f)
  {
    if i > 0 {
      EverythingWasTaken(lanes, steps, i - 1);
      var l, step := lanes[i - 1], steps[i - 1];
      forall f | f in l.log ensures WasTaken(lanes, steps, i, f) { TakenBefore(lanes, steps, i - 1, i, f); }
      if l.writer.Some? {
        forall f | f in Pending(l.writer.value) ensures WasTaken(lanes, steps, i, f) {
          TakenBefore(lanes, steps, i - 1, i, f);
        }
        if step.Take? { assert TakenAs(lanes, steps, i - 1, Stamp(l.writer.value, step.f)); }
      }
    }
  }
}
