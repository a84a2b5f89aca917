/** The wire types every layer shares and the Rev-gated fold of a frame into a snapshot
    (internal/model/model.go, internal/model/apply.go).

    `Snap` is a snapshot as a value, `Fold` is what a run of frames makes of one, and the
    class `Snapshot` is the object that the writer and the hub update in place. */
module Model {
  datatype Option<+T> = None | Some(value: T)

  // Cap on the rolling race-control buffer.
  const MAX_MESSAGES: nat := 30

  datatype CarStatus = OnTrack | Pit | Out

  datatype Point = Point(x: real, y: real)

  // `timing` holds the optional integer fields (tyreAge, lastLapMs, gapMs, ...): absent on
  // the wire is absent here.
  datatype Car = Car(
    driverNum: int, code: string, team: string, pos: int, lap: int,
    p: Point, status: CarStatus, tyre: string, timing: map<string, int>)

  datatype RaceControl = RaceControl(rev: int, t: int, category: string, message: string, driver: Option<int>)

  datatype RadioRef = RadioRef(timeMs: int, driverNum: int, clip: string)

  /** The order of radio refs wherever they are sorted: by time alone, so ties keep their place. */
  predicate EarlierOrSame(a: RadioRef, b: RadioRef) {
    a.timeMs <= b.timeMs
  }

  datatype Weather = Weather(airTempC: real, trackTempC: real, rainfall: bool)

  // The session-constant part of a snapshot: frames never touch it.
  datatype Header = Header(session: string, mode: string, title: string, track: seq<Point>, totalLaps: int)

  datatype Snap = Snap(
    header: Header, cars: map<int, Car>, messages: seq<RaceControl>, radio: seq<RadioRef>,
    weather: Option<Weather>, timeMs: int, rev: int)

  datatype Frame = Frame(
    session: string, rev: int, t: int, timeMs: int, cars: seq<Car>,
    messages: seq<RaceControl>, radio: seq<RadioRef>, weather: Option<Weather>)

  /** An empty snapshot ready to receive frames. */
  function NewSnap(session: string): Snap {
    Snap(Header(session, "", "", [], 0), map[], [], [], None, 0, 0)
  }

  function LastN<T>(s: seq<T>, n: nat): seq<T> {
    if |s| <= n then s else s[|s| - n..]
  }

  function FoldCars(cars: map<int, Car>, updates: seq<Car>): map<int, Car> {
    if updates == [] then cars
    else
      var c := updates[|updates| - 1];
      FoldCars(cars, updates[..|updates| - 1])[c.driverNum := c]
  }

  /** Appends to the rolling buffer; an empty addition leaves an over-long buffer alone. */
  function AppendCapped(buffer: seq<RaceControl>, more: seq<RaceControl>): seq<RaceControl> {
    if more == [] then buffer else LastN(buffer + more, MAX_MESSAGES)
  }

  function ApplyFrame(s: Snap, f: Frame): Snap {
    if f.rev <= s.rev then s
    else
      s.(cars := FoldCars(s.cars, f.cars),
      messages := AppendCapped(if f.timeMs < s.timeMs then [] else s.messages, f.messages),
      radio := s.radio + f.radio,
      weather := if f.weather.Some? then f.weather else s.weather,
      timeMs := f.timeMs,
      rev := f.rev)
  }

  /** What a run of frames, oldest first, makes of a snapshot. */
  function Fold(s: Snap, fs: seq<Frame>): Snap {
    if fs == [] then s else ApplyFrame(Fold(s, fs[..|fs| - 1]), fs[|fs| - 1])
  }

  ghost predicate Ascending(fs: seq<Frame>) {
    forall i, j :: 0 <= i < j < |fs| ==> fs[i].rev < fs[j].rev
  }

  // ------------------------------------------------------------------ laws of the fold

  lemma FoldSnoc(s: Snap, fs: seq<Frame>, f: Frame)
    ensures Fold(s, fs + [f]) == ApplyFrame(Fold(s, fs), f)
  {
    assert (fs + [f])[..|fs|] == fs;
  }

  lemma {:induction false} FoldAppend(s: Snap, xs: seq<Frame>, ys: seq<Frame>)
    ensures Fold(s, xs + ys) == Fold(Fold(s, xs), ys)
  {
    if ys == [] {
      assert xs + ys == xs;
    } else {
      var front, last := ys[..|ys| - 1], ys[|ys| - 1];
      assert xs + ys == (xs + front) + [last];
      FoldSnoc(s, xs + front, last);
      FoldAppend(s, xs, front);
    }
  }

  /** The fold's Rev is the highest seen: no frame of the run is above it, and it is the
      starting Rev or the Rev of one of the frames. */
  lemma {:induction false} FoldRev(s: Snap, fs: seq<Frame>)
    ensures s.rev <= Fold(s, fs).rev
    ensures forall f :: f in fs ==> f.rev <= Fold(s, fs).rev
    ensures Fold(s, fs).rev == s.rev || exists f :: f in fs && f.rev == Fold(s, fs).rev
    ensures Fold(s, fs).header == s.header
  {
    if fs != [] {
      var front := fs[..|fs| - 1];
      FoldRev(s, front);
      assert fs == front + [fs[|fs| - 1]];
    }
  }

  /** Frames at or below the snapshot's Rev change nothing. */
  lemma {:induction false} FoldStale(s: Snap, fs: seq<Frame>)
    requires forall f :: f in fs ==> f.rev <= s.rev
    ensures Fold(s, fs) == s
  {
    if fs != [] {
      FoldStale(s, fs[..|fs| - 1]);
      assert fs[|fs| - 1] in fs;
    }
  }

  /** Redelivery of anything already folded is invisible, in any order and number. */
  lemma FoldIdempotent(s: Snap, fs: seq<Frame>, again: seq<Frame>)
    requires forall f :: f in again ==> f in fs
    ensures Fold(s, fs + again) == Fold(s, fs)
  {
    FoldAppend(s, fs, again);
    FoldRev(s, fs);
    FoldStale(Fold(s, fs), again);
  }

  /** The seam law: a snapshot read part-way through a run, folded with frames that start
      before the point it was read at, lands where the whole run lands. */
  lemma FoldOverlap(s: Snap, both: seq<Frame>, after: seq<Frame>)
    ensures Fold(Fold(s, both), both + after) == Fold(s, both + after)
  {
    FoldRev(s, both);
    FoldStale(Fold(s, both), both);
    FoldAppend(Fold(s, both), both, after);
    FoldAppend(s, both, after);
  }

  /** The frames above a Rev, in order. */
  function Newer(rev: int, fs: seq<Frame>): seq<Frame> {
    if fs == [] then []
    else
      var front, last := fs[..|fs| - 1], fs[|fs| - 1];
      if rev < last.rev then Newer(rev, front) + [last] else Newer(rev, front)
  }

  lemma {:induction false} NewerAppend(rev: int, xs: seq<Frame>, ys: seq<Frame>)
    ensures Newer(rev, xs + ys) == Newer(rev, xs) + Newer(rev, ys)
  {
    if ys == [] {
      assert xs + ys == xs;
    } else {
      assert (xs + ys)[..|xs + ys| - 1] == xs + ys[..|ys| - 1];
      NewerAppend(rev, xs, ys[..|ys| - 1]);
    }
  }

  lemma {:induction false} NewerNone(rev: int, fs: seq<Frame>)
    requires forall i :: 0 <= i < |fs| ==> fs[i].rev <= rev
    ensures Newer(rev, fs) == []
  {
    if fs != [] { NewerNone(rev, fs[..|fs| - 1]); }
  }

  /** In a run of rising Revs, exactly the frames above the snapshot's Rev are folded in. */
  lemma {:induction false} FoldNewer(s: Snap, fs: seq<Frame>)
    requires Ascending(fs)
    ensures Fold(s, fs) == Fold(s, Newer(s.rev, fs))
    ensures Fold(s, fs).rev == if fs == [] || fs[|fs| - 1].rev <= s.rev then s.rev else fs[|fs| - 1].rev
  {
    if fs != [] {
      var front, last := fs[..|fs| - 1], fs[|fs| - 1];
      FoldNewer(s, front);
      assert front != [] ==> front[|front| - 1].rev < last.rev;
      FoldSnoc(s, Newer(s.rev, front), last);
    }
  }

  // ------------------------------------------------- what the fold means, field by field

  /** Index of the last car for `driver` in a list, or -1. */
  function LastCarIndex(cars: seq<Car>, driver: int): (i: int)
    ensures -1 <= i < |cars|
    ensures i == -1 ==> forall k :: 0 <= k < |cars| ==> cars[k].driverNum != driver
    ensures i >= 0 ==> cars[i].driverNum == driver && forall k :: i < k < |cars| ==> cars[k].driverNum != driver
  {
    if cars == [] then -1
    else if cars[|cars| - 1].driverNum == driver then |cars| - 1
    else LastCarIndex(cars[..|cars| - 1], driver)
  }

  function AllCars(fs: seq<Frame>): seq<Car> {
    if fs == [] then [] else AllCars(fs[..|fs| - 1]) + fs[|fs| - 1].cars
  }

  function AllRadio(fs: seq<Frame>): seq<RadioRef> {
    if fs == [] then [] else AllRadio(fs[..|fs| - 1]) + fs[|fs| - 1].radio
  }

  function AllMessages(fs: seq<Frame>): seq<RaceControl> {
    if fs == [] then [] else AllMessages(fs[..|fs| - 1]) + fs[|fs| - 1].messages
  }

  lemma {:induction false} FoldCarsMeaning(cars: map<int, Car>, updates: seq<Car>, driver: int)
    ensures var i := LastCarIndex(updates, driver);
            if i >= 0 then driver in FoldCars(cars, updates) && FoldCars(cars, updates)[driver] == updates[i]
            else (driver in FoldCars(cars, updates) <==> driver in cars)
                 && (driver in cars ==> FoldCars(cars, updates)[driver] == cars[driver])
  {
    if updates != [] {
      FoldCarsMeaning(cars, updates[..|updates| - 1], driver);
    }
  }

  lemma {:induction false} FoldCarsAppend(cars: map<int, Car>, xs: seq<Car>, ys: seq<Car>)
    ensures FoldCars(cars, xs + ys) == FoldCars(FoldCars(cars, xs), ys)
  {
    if ys == [] {
      assert xs + ys == xs;
    } else {
      assert (xs + ys)[..|xs + ys| - 1] == xs + ys[..|ys| - 1];
      FoldCarsAppend(cars, xs, ys[..|ys| - 1]);
    }
  }

  /** Every frame of the run is newer than the one before it, and than the snapshot. */
  ghost predicate Fresh(rev: int, fs: seq<Frame>) {
    Ascending(fs) && forall i :: 0 <= i < |fs| ==> rev < fs[i].rev
  }

  /** The clock just before frame i of a run that starts at clock t0. */
  function ClockBefore(t0: int, fs: seq<Frame>, i: nat): int
    requires i <= |fs|
  {
    if i == 0 then t0 else fs[i - 1].timeMs
  }

  /** The clock starts at `t0` and never steps back. */
  ghost predicate OnePass(t0: int, fs: seq<Frame>) {
    forall i :: 0 <= i < |fs| ==> ClockBefore(t0, fs, i) <= fs[i].timeMs
  }

  lemma OnePassPrefix(t0: int, fs: seq<Frame>)
    requires OnePass(t0, fs) && fs != []
    ensures OnePass(t0, fs[..|fs| - 1])
    ensures ClockBefore(t0, fs, |fs| - 1) <= fs[|fs| - 1].timeMs
  {
    forall i | 0 <= i < |fs| - 1 ensures ClockBefore(t0, fs[..|fs| - 1], i) <= fs[i].timeMs {
      assert ClockBefore(t0, fs, i) <= fs[i].timeMs;
    }
  }

  lemma {:induction false} FoldClock(s: Snap, fs: seq<Frame>)
    requires Fresh(s.rev, fs)
    ensures Fold(s, fs).rev == if fs == [] then s.rev else fs[|fs| - 1].rev
    ensures Fold(s, fs).timeMs == if fs == [] then s.timeMs else fs[|fs| - 1].timeMs
  {
    if fs != [] {
      FoldClock(s, fs[..|fs| - 1]);
    }
  }

  /** One more accepted frame. */
  lemma MeaningSnoc(s: Snap, fs: seq<Frame>, f: Frame)
    requires Fold(s, fs).rev < f.rev
    requires Fold(s, fs).radio == s.radio + AllRadio(fs) && Fold(s, fs).cars == FoldCars(s.cars, AllCars(fs))
    ensures Fold(s, fs + [f]).radio == s.radio + AllRadio(fs + [f])
    ensures Fold(s, fs + [f]).cars == FoldCars(s.cars, AllCars(fs + [f]))
  {
    FoldSnoc(s, fs, f);
    FoldCarsAppend(s.cars, AllCars(fs), f.cars);
    assert (fs + [f])[..|fs|] == fs;
  }

  /** Over any run of accepted frames: radio only accumulates, and each driver's entry is
      the last one any frame carried for that driver. */
  lemma {:induction false} FoldMeaning(s: Snap, fs: seq<Frame>)
    requires Fresh(s.rev, fs)
    ensures Fold(s, fs).radio == s.radio + AllRadio(fs)
    ensures Fold(s, fs).cars == FoldCars(s.cars, AllCars(fs))
  {
    if fs != [] {
      var front, last := fs[..|fs| - 1], fs[|fs| - 1];
      FoldMeaning(s, front);
      FoldClock(s, front);
      assert fs == front + [last];
      MeaningSnoc(s, front, last);
    }
  }

  /** An empty snapshot takes over whatever its first frame with a Rev carries, and nothing else. */
  lemma FirstFrameIsAll(session: string, f: Frame)
    requires f.rev > 0
    ensures var s := ApplyFrame(NewSnap(session), f);
            && s.header == Header(session, "", "", [], 0)
            && s.cars == FoldCars(map[], f.cars) && s.messages == LastN(f.messages, 30)
            && s.radio == f.radio && s.weather == f.weather && s.timeMs == f.timeMs && s.rev == f.rev
    ensures NewSnap(session).timeMs == NewSnap(session).rev == 0
  {
    assert [] + f.messages == f.messages && [] + f.radio == f.radio;
  }

  /** Index of the last frame that carries the weather, or -1. */
  function LastWeatherIndex(fs: seq<Frame>): (i: int)
    ensures -1 <= i < |fs|
    ensures forall k :: i < k < |fs| ==> fs[k].weather.None?
    ensures i >= 0 ==> fs[i].weather.Some?
  {
    if fs == [] then -1
    else if fs[|fs| - 1].weather.Some? then |fs| - 1
    else LastWeatherIndex(fs[..|fs| - 1])
  }

  /** The weather shown is the last one carried. */
  lemma {:induction false} FoldWeather(s: Snap, fs: seq<Frame>)
    requires Fresh(s.rev, fs)
    ensures var i := LastWeatherIndex(fs);
            Fold(s, fs).weather == if i < 0 then s.weather else fs[i].weather
  {
    if fs != [] {
      FoldWeather(s, fs[..|fs| - 1]);
      FoldClock(s, fs[..|fs| - 1]);
    }
  }

  lemma {:induction false} AllMessagesSnoc(base: seq<RaceControl>, fs: seq<Frame>)
    requires fs != []
    ensures base + AllMessages(fs) == base + AllMessages(fs[..|fs| - 1]) + fs[|fs| - 1].messages
  {
  }

  /** Over one pass (accepted frames, clock never stepping back) the rolling buffer is the
      last 30 of everything the pass carried. */
  lemma {:induction false} MessageWindow(s: Snap, fs: seq<Frame>)
    requires Fresh(s.rev, fs) && OnePass(s.timeMs, fs)
    requires |s.messages| <= MAX_MESSAGES
    ensures Fold(s, fs).messages == LastN(s.messages + AllMessages(fs), 30)
  {
    if fs == [] {
      assert s.messages + [] == s.messages;
    } else {
      var front, last := fs[..|fs| - 1], fs[|fs| - 1];
      OnePassPrefix(s.timeMs, fs);
      MessageWindow(s, front);
      FoldClock(s, front);
      AllMessagesSnoc(s.messages, fs);
    }
  }

  // ----------------------------------------------------------------- the in-place object

  /** The snapshot object. `Apply` updates the fields one at a time and reports whether the
      frame was accepted. */
  class Snapshot {
    var header: Header
    var cars: map<int, Car>
    var messages: seq<RaceControl>
    var radio: seq<RadioRef>
    var weather: Option<Weather>
    var timeMs: int
    var rev: int

    ghost function View(): Snap
      reads this
    {
      Snap(header, cars, messages, radio, weather, timeMs, rev)
    }

    constructor (s: Snap)
      ensures View() == s
    {
      header, cars, messages, radio := s.header, s.cars, s.messages, s.radio;
      weather, timeMs, rev := s.weather, s.timeMs, s.rev;
    }

    /** The object's value as it goes on the wire. */
    function Encode(): (s: Snap)
      reads this
      ensures s == View()
    {
      Snap(header, cars, messages, radio, weather, timeMs, rev)
    }

    method FoldCarsIn(held: seq<Car>)
      modifies `cars
      ensures cars == FoldCars(old(cars), held)
    {
      for i := 0 to |held|
        invariant cars == FoldCars(old(cars), held[..i])
      {
        assert held[..i + 1][..i] == held[..i];
        cars := cars[held[i].driverNum := held[i]];
      }
      assert held[..|held|] == held;
    }

    method Apply(f: Frame) returns (applied: bool)
      modifies this
      ensures View() == ApplyFrame(old(View()), f)
      ensures applied <==> old(rev) < f.rev
    {
      if f.rev <= rev { return false; }
      FoldCarsIn(f.cars);
      if f.timeMs < timeMs {
        messages := [];
      }
      if |f.messages| > 0 {
        messages := messages + f.messages;
        if |messages| > MAX_MESSAGES {
          messages := messages[|messages| - MAX_MESSAGES..];
        }
      }
      if |f.radio| > 0 {
        radio := radio + f.radio;
      }
      if f.weather.Some? {
        weather := f.weather;
      }
      timeMs := f.timeMs;
      rev := f.rev;
      return true;
    }
  }
}
