/** The running order (ingest/resample.py, ingest/live_signalr.py, ingest/live.py and
    web/src/components/timingHelpers.ts): how a frame's raw positions become a unique
    1..N, and that the front end's order agrees with it. */
module RunningOrder {
  import opened Model
  import opened Sorting

  const UNKNOWN_POS := 99

  predicate KeyLe(a: Car, b: Car) {
    a.pos < b.pos || (a.pos == b.pos && (a.lap > b.lap || (a.lap == b.lap && a.driverNum <= b.driverNum)))
  }

  /** The server's sort key: retired cars tie with each other after everyone else. */
  predicate RankLe(a: Car, b: Car) {
    b.status.Out? || (!a.status.Out? && KeyLe(a, b))
  }

  function Renumber(cars: seq<Car>): seq<Car> {
    if cars == [] then [] else Renumber(cars[..|cars| - 1]) + [cars[|cars| - 1].(pos := |cars|)]
  }

  function Reconcile(cars: seq<Car>): seq<Car> {
    Renumber(SortBy(cars, RankLe))
  }

  // ------------------------------------------------------------------ pieces

  function Running(cars: seq<Car>): seq<Car> {
    if cars == [] then []
    else
      var front, last := Running(cars[..|cars| - 1]), cars[|cars| - 1];
      if last.status.Out? then front else front + [last]
  }

  function Retired(cars: seq<Car>): seq<Car> {
    if cars == [] then []
    else
      var front, last := Retired(cars[..|cars| - 1]), cars[|cars| - 1];
      if last.status.Out? then front + [last] else front
  }

  /** Everything about each car but its position. */
  function Bare(cars: seq<Car>): seq<Car> {
    if cars == [] then [] else Bare(cars[..|cars| - 1]) + [cars[|cars| - 1].(pos := 0)]
  }

  ghost predicate Numbered(cars: seq<Car>) {
    forall i :: 0 <= i < |cars| ==> cars[i].pos == i + 1
  }

  ghost predicate DistinctDrivers(cars: seq<Car>) {
    forall i, j :: 0 <= i < j < |cars| ==> cars[i].driverNum != cars[j].driverNum
  }

  /** Two different cars of such a list never tie. */
  lemma DistinctStrict(cars: seq<Car>, c: Car, d: Car)
    requires DistinctDrivers(cars) && c in cars && d in cars
    ensures c != d ==> c.driverNum != d.driverNum
  {
  }

  lemma {:induction false} RenumberAt(cars: seq<Car>)
    ensures |Renumber(cars)| == |cars|
    ensures forall i :: 0 <= i < |cars| ==> Renumber(cars)[i] == cars[i].(pos := i + 1)
  {
    if cars != [] { RenumberAt(cars[..|cars| - 1]); }
  }

  lemma {:induction false} BareAt(cars: seq<Car>)
    ensures |Bare(cars)| == |cars|
    ensures forall i :: 0 <= i < |cars| ==> Bare(cars)[i] == cars[i].(pos := 0)
  {
    if cars != [] { BareAt(cars[..|cars| - 1]); }
  }

  lemma {:induction false} SplitMeaning(cars: seq<Car>)
    ensures forall c :: c in Running(cars) ==> !c.status.Out? && c in cars
    ensures forall c :: c in Retired(cars) ==> c.status.Out? && c in cars
  {
    if cars != [] {
      SplitMeaning(cars[..|cars| - 1]);
      assert forall c :: c in cars[..|cars| - 1] ==> c in cars;
    }
  }

  // ------------------------------------------------------------------ one frame

  lemma RunningStillRuns(cars: seq<Car>)
    ensures forall c :: c in SortBy(Running(cars), KeyLe) ==> !c.status.Out?
  {
    SplitMeaning(cars);
    SortMultiset(Running(cars), KeyLe);
    var s := SortBy(Running(cars), KeyLe);
    forall c | c in s ensures !c.status.Out? { assert c in multiset(s); }
  }

  /** Among running cars the two orders coincide. */
  lemma {:induction false} InsertSameOrder(s: seq<Car>, x: Car)
    requires !x.status.Out? && forall c :: c in s ==> !c.status.Out?
    ensures Insert(s, x, RankLe) == Insert(s, x, KeyLe)
  {
    if s != [] && !KeyLe(s[|s| - 1], x) {
      assert forall c :: c in s[..|s| - 1] ==> c in s;
      InsertSameOrder(s[..|s| - 1], x);
    }
  }

  /** Sorting puts the running cars first, by raw key, then the retired ones as they came. */
  lemma {:induction false} SortSplits(cars: seq<Car>)
    ensures SortBy(cars, RankLe) == SortBy(Running(cars), KeyLe) + Retired(cars)
  {
    if cars != [] {
      var front, x := cars[..|cars| - 1], cars[|cars| - 1];
      SortSplits(front);
      SplitMeaning(front);
      var run, out := SortBy(Running(front), KeyLe), Retired(front);
      RunningStillRuns(front);
      if x.status.Out? {
        InsertRight(run + out, [], x, RankLe);
        assert (run + out) + [] == run + out;
        assert Insert([], x, RankLe) == [x];
        assert run + out + [x] == run + (out + [x]);
      } else {
        InsertLeft(run, out, x, RankLe);
        InsertSameOrder(run, x);
        assert (Running(front) + [x])[..|Running(front)|] == Running(front);
      }
    } else {
      assert SortBy([], KeyLe) + [] == [];
    }
  }

  /** The whole of what reconciling promises: the same cars, untouched but for `pos`;
      numbered 1..N without gap or repeat; the running ones first in raw-key order; the
      retired ones last, in the order they came. */
  lemma ReconcileMeaning(cars: seq<Car>)
    ensures |Reconcile(cars)| == |cars| && Numbered(Reconcile(cars))
    ensures Bare(Reconcile(cars)) == Bare(SortBy(Running(cars), KeyLe) + Retired(cars))
    ensures Sorted(SortBy(Running(cars), KeyLe), KeyLe)
    ensures multiset(SortBy(Running(cars), KeyLe) + Retired(cars)) == multiset(cars)
  {
    SortSplits(cars);
    SortMultiset(cars, RankLe);
    var s := SortBy(cars, RankLe);
    RenumberAt(s);
    BareAt(s);
    BareAt(Renumber(s));
    assert Bare(Renumber(s)) == Bare(s);
    SortSorted(Running(cars), KeyLe);
  }

  /** Of two running cars the one ahead has the lower raw position; on a tie more laps; on a
      tie again the lower number. */
  lemma TiesAreBroken(cars: seq<Car>, i: nat, j: nat)
    requires i < j < |SortBy(Running(cars), KeyLe)|
    ensures var s := SortBy(Running(cars), KeyLe);
            && s[i].pos <= s[j].pos
            && (s[i].pos == s[j].pos ==> s[i].lap >= s[j].lap)
            && (s[i].pos == s[j].pos && s[i].lap == s[j].lap ==> s[i].driverNum <= s[j].driverNum)
  {
    SortSorted(Running(cars), KeyLe);
  }

  /** A retired car is never ahead of a running one. */
  ghost predicate RetiredLast(cars: seq<Car>) {
    forall i, j :: 0 <= i < j < |cars| && cars[i].status.Out? ==> cars[j].status.Out?
  }

  lemma ReconciledRetiredLast(cars: seq<Car>)
    ensures RetiredLast(Reconcile(cars))
  {
    var s := SortBy(cars, RankLe);
    SortSorted(cars, RankLe);
    RenumberAt(s);
  }

  /** A list already numbered with its retired cars last is left exactly as it is. */
  lemma NumberedIsFixed(cars: seq<Car>)
    requires Numbered(cars) && RetiredLast(cars)
    ensures Reconcile(cars) == cars
  {
    SortedIsFixed(cars, RankLe);
    RenumberAt(cars);
  }

  lemma ReconcileIdempotent(cars: seq<Car>)
    ensures Reconcile(Reconcile(cars)) == Reconcile(cars)
  {
    ReconcileMeaning(cars);
    ReconciledRetiredLast(cars);
    NumberedIsFixed(Reconcile(cars));
  }

  // ------------------------------------------------------------------ the front end

  /** The browser's running order over whatever enumeration of the cars it is given. */
  function OrderCars(values: seq<Car>): seq<Car> {
    SortBy(values, KeyLe)
  }

  lemma SortedNumberedIsUnique(o: seq<Car>, r: seq<Car>)
    requires multiset(o) == multiset(r) && Sorted(o, KeyLe) && Sorted(r, KeyLe) && Numbered(r)
    ensures o == r
  {
    forall a, b | a in o && b in o && KeyLe(a, b) && KeyLe(b, a) ensures a == b {
      SameMembers(o, r, a);
      SameMembers(o, r, b);
    }
    SortedUnique(o, r, KeyLe);
  }

  /** The browser and the server agree: however the browser enumerates a reconciled frame's
      cars, its own sort gives the server's order. */
  lemma OrderCarsAgrees(cars: seq<Car>, values: seq<Car>)
    requires multiset(values) == multiset(Reconcile(cars))
    ensures OrderCars(values) == Reconcile(cars)
  {
    ReconcileMeaning(cars);
    SortSorted(values, KeyLe);
    SortMultiset(values, KeyLe);
    SortedNumberedIsUnique(OrderCars(values), Reconcile(cars));
  }

  lemma {:induction false} InsertKeepsHead(s: seq<Car>, x: Car)
    requires s != [] && KeyLe(s[0], x)
    ensures |Insert(s, x, KeyLe)| > 0 && Insert(s, x, KeyLe)[0] == s[0]
  {
    if !KeyLe(s[|s| - 1], x) { InsertKeepsHead(s[..|s| - 1], x); }
  }

  lemma {:induction false} InsertTakesHead(s: seq<Car>, x: Car)
    requires Sorted(s, KeyLe) && (s != [] ==> !KeyLe(s[0], x))
    ensures |Insert(s, x, KeyLe)| > 0 && Insert(s, x, KeyLe)[0] == x
  {
    if s != [] {
      assert !KeyLe(s[|s| - 1], x) by { if |s| > 1 { assert KeyLe(s[0], s[|s| - 1]); } }
      InsertTakesHead(s[..|s| - 1], x);
    }
  }

  /** Inserting changes the front only for a car strictly ahead of it. */
  lemma InsertHead(s: seq<Car>, x: Car)
    requires s != [] ==> Sorted(s, KeyLe)
    ensures |Insert(s, x, KeyLe)| > 0
    ensures Insert(s, x, KeyLe)[0] == if s == [] || !KeyLe(s[0], x) then x else s[0]
  {
    if s != [] {
      InsertSorted(s, x, KeyLe);
      InsertMultiset(s, x, KeyLe);
      if KeyLe(s[0], x) { InsertKeepsHead(s, x); } else { InsertTakesHead(s, x); }
    }
  }

  /** The front of the running order, found in one walk. */
  method LeaderOf(values: seq<Car>) returns (leader: Option<Car>)
    ensures leader == if values == [] then None else Some(OrderCars(values)[0])
  {
    leader := None;
    for i := 0 to |values|
      invariant leader == if i == 0 then None else Some(OrderCars(values[..i])[0])
    {
      assert values[..i + 1][..i] == values[..i];
      SortSorted(values[..i], KeyLe);
      InsertHead(OrderCars(values[..i]), values[i]);
      if leader.None? || !KeyLe(leader.value, values[i]) {
        leader := Some(values[i]);
      }
    }
    assert values[..|values|] == values;
  }

  // ------------------------------------------------------------------ in place

  /** Sorts the list and renumbers it where it stands. */
  method ReconcileInPlace(cars: array<Car>)
    modifies cars
    ensures cars[..] == Reconcile(old(cars[..]))
  {
    ghost var was := cars[..];
    var sorted := SortBy(cars[..], RankLe);
    SortMultiset(was, RankLe);
    for i := 0 to cars.Length
      invariant forall k :: 0 <= k < i ==> cars[k] == sorted[k].(pos := k + 1)
    {
      cars[i] := sorted[i].(pos := i + 1);
    }
    RenumberAt(sorted);
    assert cars[..] == Renumber(sorted);
  }

  // ------------------------------------------------------------------ live publishes

  /** The live publisher's state: the latest car per driver, in the order first seen, and the
      feed's own positions. `pos` in `latest` is whatever was last written there, a raw
      position or an earlier rank. */
  datatype Board = Board(latest: seq<Car>, positions: map<int, int>)

  datatype Event = Sample(car: Car) | Timing(driverNum: int, pos: int) | Publish

  function RawPos(positions: map<int, int>, driverNum: int): int {
    if driverNum in positions then positions[driverNum] else UNKNOWN_POS
  }

  function Stamp(c: Car, positions: map<int, int>): Car {
    c.(pos := RawPos(positions, c.driverNum))
  }

  /** Every car stamped with its raw feed position. */
  function Stamped(cars: seq<Car>, positions: map<int, int>): seq<Car> {
    if cars == [] then []
    else Stamped(cars[..|cars| - 1], positions) + [Stamp(cars[|cars| - 1], positions)]
  }

  /** Replaces the driver's car, or appends a driver not seen before. */
  function Replace(cars: seq<Car>, c: Car): seq<Car> {
    if cars == [] then [c]
    else if cars[0].driverNum == c.driverNum then [c] + cars[1..]
    else [cars[0]] + Replace(cars[1..], c)
  }

  /** The rank a published frame gives a driver. */
  function RankIn(frame: seq<Car>, driverNum: int): int {
    if frame == [] then UNKNOWN_POS
    else if frame[|frame| - 1].driverNum == driverNum then frame[|frame| - 1].pos
    else RankIn(frame[..|frame| - 1], driverNum)
  }

  /** Publishing writes each car's rank into the very object the board keeps. */
  function WithRanks(cars: seq<Car>, frame: seq<Car>): seq<Car> {
    if cars == [] then []
    else
      var last := cars[|cars| - 1];
      WithRanks(cars[..|cars| - 1], frame) + [last.(pos := RankIn(frame, last.driverNum))]
  }

  function PublishedFrame(b: Board): seq<Car> {
    Reconcile(Stamped(b.latest, b.positions))
  }

  function Handle(b: Board, e: Event): Board {
    match e
    case Sample(car) =>
      b.(latest := Replace(b.latest, Stamp(car, b.positions)))
    case Timing(d, pos) => b.(positions := b.positions[d := pos])
    case Publish => b.(latest := WithRanks(b.latest, PublishedFrame(b)))
  }

  function Run(es: seq<Event>): Board {
    if es == [] then Board([], map[]) else Handle(Run(es[..|es| - 1]), es[|es| - 1])
  }

  /** The same events with every publish left out. */
  function Unpublished(es: seq<Event>): seq<Event> {
    if es == [] then []
    else if es[|es| - 1].Publish? then Unpublished(es[..|es| - 1])
    else Unpublished(es[..|es| - 1]) + [es[|es| - 1]]
  }

  /** The rank written into a car is that of its driver's last entry in the frame. */
  lemma {:induction false} RankIsLast(frame: seq<Car>, driver: int)
    ensures var j := LastCarIndex(frame, driver);
            RankIn(frame, driver) == if j < 0 then UNKNOWN_POS else frame[j].pos
  {
    if frame != [] { RankIsLast(frame[..|frame| - 1], driver); }
  }

  lemma {:induction false} WithRanksAt(cars: seq<Car>, frame: seq<Car>)
    ensures |WithRanks(cars, frame)| == |cars|
    ensures forall i :: 0 <= i < |cars| ==>
                          WithRanks(cars, frame)[i] == cars[i].(pos := RankIn(frame, cars[i].driverNum))
  {
    if cars != [] { WithRanksAt(cars[..|cars| - 1], frame); }
  }

  /** Where a car of the list went when the list was sorted. */
  lemma SortedPlace(cars: seq<Car>, i: nat) returns (j: nat)
    requires i < |cars|
    ensures j < |Reconcile(cars)| == |SortBy(cars, RankLe)|
    ensures SortBy(cars, RankLe)[j] == cars[i] && Reconcile(cars)[j] == cars[i].(pos := j + 1)
  {
    var s := SortBy(cars, RankLe);
    SortMultiset(cars, RankLe);
    SameMembers(cars, s, cars[i]);
    j :| 0 <= j < |s| && s[j] == cars[i];
    RenumberAt(s);
  }

  lemma OriginalPlace(cars: seq<Car>, j: nat) returns (i: nat)
    requires j < |Reconcile(cars)|
    ensures i < |cars| && j < |SortBy(cars, RankLe)|
    ensures SortBy(cars, RankLe)[j] == cars[i] && Reconcile(cars)[j] == cars[i].(pos := j + 1)
  {
    var s := SortBy(cars, RankLe);
    SortMultiset(cars, RankLe);
    RenumberAt(s);
    SameMembers(s, cars, s[j]);
    i :| 0 <= i < |cars| && cars[i] == s[j];
  }

  lemma ReconciledDistinct(cars: seq<Car>)
    requires DistinctDrivers(cars)
    ensures DistinctDrivers(Reconcile(cars))
  {
    var s := SortBy(cars, RankLe);
    SortMultiset(cars, RankLe);
    RearrangedNoRepeats(cars, s);
    RenumberAt(s);
    forall i, j | 0 <= i < j < |s| ensures s[i].driverNum != s[j].driverNum {
      SameMembers(s, cars, s[i]);
      SameMembers(s, cars, s[j]);
      DistinctStrict(cars, s[i], s[j]);
    }
  }

  lemma RunSnoc(es: seq<Event>, e: Event)
    ensures Run(es + [e]) == Handle(Run(es), e)
  {
    assert (es + [e])[..|es|] == es;
  }

  lemma {:induction false} ReplaceKeeps(cars: seq<Car>, c: Car)
    requires DistinctDrivers(cars)
    ensures DistinctDrivers(Replace(cars, c))
    ensures forall x :: x in Replace(cars, c) <==> x == c || (x in cars && x.driverNum != c.driverNum)
    decreases |cars|
  {
    if cars != [] && cars[0].driverNum != c.driverNum {
      var rest := Replace(cars[1..], c);
      ReplaceKeeps(cars[1..], c);
      assert cars == [cars[0]] + cars[1..];
      assert forall x :: x in cars[1..] ==> x.driverNum != cars[0].driverNum;
      assert forall x :: x in [cars[0]] + rest <==> x == cars[0] || x in rest;
      forall j | 0 <= j < |rest| ensures rest[j].driverNum != cars[0].driverNum {
        assert rest[j] in rest;
      }
    } else if cars != [] {
      assert cars == [cars[0]] + cars[1..];
      forall x | x in cars[1..] ensures x.driverNum != c.driverNum { }
    }
  }

  lemma WithRanksKeeps(cars: seq<Car>, frame: seq<Car>)
    requires DistinctDrivers(cars)
    ensures DistinctDrivers(WithRanks(cars, frame))
  {
    WithRanksAt(cars, frame);
  }

  /** However the feed comes, the board holds one car per driver. */
  lemma {:induction false} BoardIsDistinct(es: seq<Event>)
    ensures DistinctDrivers(Run(es).latest)
  {
    if es != [] {
      var front, last := es[..|es| - 1], es[|es| - 1];
      BoardIsDistinct(front);
      match last
      case Sample(car) => ReplaceKeeps(Run(front).latest, Stamp(car, Run(front).positions));
      case Timing(d, pos) =>
      case Publish => WithRanksKeeps(Run(front).latest, PublishedFrame(Run(front)));
    }
  }

  lemma {:induction false} StampedAt(cars: seq<Car>, positions: map<int, int>)
    ensures |Stamped(cars, positions)| == |cars|
    ensures forall i :: 0 <= i < |cars| ==> Stamped(cars, positions)[i] == Stamp(cars[i], positions)
  {
    if cars != [] { StampedAt(cars[..|cars| - 1], positions); }
  }

  /** Stamping depends on nothing a publish wrote. */
  lemma StampedIgnoresPos(a: seq<Car>, b: seq<Car>, positions: map<int, int>)
    requires Bare(a) == Bare(b)
    ensures Stamped(a, positions) == Stamped(b, positions)
  {
    StampedAt(a, positions);
    StampedAt(b, positions);
    BareAt(a);
    BareAt(b);
    forall i | 0 <= i < |a| ensures Stamped(a, positions)[i] == Stamped(b, positions)[i] {
      assert Bare(a)[i] == Bare(b)[i];
    }
  }

  lemma {:induction false} WithRanksBare(cars: seq<Car>, frame: seq<Car>)
    ensures Bare(WithRanks(cars, frame)) == Bare(cars)
  {
    if cars != [] {
      WithRanksBare(cars[..|cars| - 1], frame);
      var w := WithRanks(cars, frame);
      assert w[..|w| - 1] == WithRanks(cars[..|cars| - 1], frame);
    }
  }

  lemma BareCons(c: Car, cars: seq<Car>)
    ensures Bare([c] + cars) == [c.(pos := 0)] + Bare(cars)
  {
    BareAt([c] + cars);
    BareAt(cars);
  }

  lemma {:induction false} ReplaceBare(a: seq<Car>, b: seq<Car>, c: Car, d: Car)
    requires Bare(a) == Bare(b) && c.(pos := 0) == d.(pos := 0)
    ensures Bare(Replace(a, c)) == Bare(Replace(b, d))
    decreases |a|
  {
    BareAt(a);
    BareAt(b);
    BareAt(Replace(a, c));
    BareAt(Replace(b, d));
    if a != [] {
      assert Bare(a)[0] == Bare(b)[0];
      BareAt(a[1..]);
      BareAt(b[1..]);
      assert Bare(a[1..]) == Bare(b[1..]) by {
        forall i | 0 <= i < |a| - 1 ensures Bare(a[1..])[i] == Bare(b[1..])[i] {
          assert Bare(a)[i + 1] == Bare(b)[i + 1];
        }
      }
      if a[0].driverNum == c.driverNum {
        BareCons(c, a[1..]);
        BareCons(d, b[1..]);
      } else {
        ReplaceBare(a[1..], b[1..], c, d);
        BareCons(a[0], Replace(a[1..], c));
        BareCons(b[0], Replace(b[1..], d));
      }
    }
  }

  lemma {:induction false} PublishesLeaveNoTrace(es: seq<Event>)
    ensures Bare(Run(es).latest) == Bare(Run(Unpublished(es)).latest)
    ensures Run(es).positions == Run(Unpublished(es)).positions
  {
    if es != [] {
      var front, last := es[..|es| - 1], es[|es| - 1];
      PublishesLeaveNoTrace(front);
      if last.Publish? {
        WithRanksBare(Run(front).latest, PublishedFrame(Run(front)));
      } else {
        assert (Unpublished(front) + [last])[..|Unpublished(front)|] == Unpublished(front);
        if last.Sample? {
          var c := Stamp(last.car, Run(front).positions);
          ReplaceBare(Run(front).latest, Run(Unpublished(front)).latest, c, c);
        }
      }
    }
  }

  /** Across any run of samples, timing updates and publishes, the frame a publish sends is
      the reconciliation of the raw feed positions afresh: what it would be had no frame ever
      been published before. No earlier rank survives into it. */
  lemma PublishIsAfresh(es: seq<Event>)
    ensures PublishedFrame(Run(es)) == PublishedFrame(Run(Unpublished(es)))
  {
    PublishesLeaveNoTrace(es);
    StampedIgnoresPos(Run(es).latest, Run(Unpublished(es)).latest, Run(es).positions);
  }

  // ------------------------------------------------------------------ what a frame is made of

  /** The last sample of a driver, and the last position the feed gave it: 99 until it gives one. */
  function LastSample(es: seq<Event>, driver: int): Option<Car> {
    if es == [] then None
    else
      var last := es[|es| - 1];
      if last.Sample? && last.car.driverNum == driver then Some(last.car) else LastSample(es[..|es| - 1], driver)
  }

  function LastPosition(es: seq<Event>, driver: int): int {
    if es == [] then 99
    else
      var last := es[|es| - 1];
      if last.Timing? && last.driverNum == driver then last.pos else LastPosition(es[..|es| - 1], driver)
  }

  lemma {:induction false} PositionIsLast(es: seq<Event>, driver: int)
    ensures RawPos(Run(es).positions, driver) == LastPosition(es, driver)
  {
    if es != [] { PositionIsLast(es[..|es| - 1], driver); }
  }

  lemma InBare(cars: seq<Car>, x: Car)
    ensures x in Bare(cars) <==> exists c :: c in cars && x == c.(pos := 0)
  {
    BareAt(cars);
    if x in Bare(cars) {
      var i :| 0 <= i < |Bare(cars)| && Bare(cars)[i] == x;
      assert cars[i] in cars;
    }
    forall c | c in cars && x == c.(pos := 0) ensures x in Bare(cars) {
      var i :| 0 <= i < |cars| && cars[i] == c;
      assert Bare(cars)[i] == x;
    }
  }

  lemma ReplacedBare(cars: seq<Car>, c: Car, x: Car)
    requires DistinctDrivers(cars)
    ensures x in Bare(Replace(cars, c)) <==> x == c.(pos := 0) || (x in Bare(cars) && x.driverNum != c.driverNum)
  {
    ReplaceKeeps(cars, c);
    InBare(Replace(cars, c), x);
    InBare(cars, x);
  }

  /** The board holds, but for its position, the last sample of every driver sampled. */
  lemma {:induction false} BoardHoldsLast(es: seq<Event>, x: Car)
    ensures x in Bare(Run(es).latest)
            <==> LastSample(es, x.driverNum).Some? && x == LastSample(es, x.driverNum).value.(pos := 0)
  {
    if es != [] {
      var front, last := es[..|es| - 1], es[|es| - 1];
      BoardHoldsLast(front, x);
      BoardIsDistinct(front);
      match last
      case Sample(car) => ReplacedBare(Run(front).latest, Stamp(car, Run(front).positions), x);
      case Timing(d, pos) =>
      case Publish => WithRanksBare(Run(front).latest, PublishedFrame(Run(front)));
    }
  }

  lemma InStamped(cars: seq<Car>, positions: map<int, int>, c: Car)
    ensures c in Stamped(cars, positions) <==> c.(pos := 0) in Bare(cars) && c.pos == RawPos(positions, c.driverNum)
  {
    StampedAt(cars, positions);
    BareAt(cars);
    if c in Stamped(cars, positions) {
      var i :| 0 <= i < |cars| && Stamped(cars, positions)[i] == c;
      assert Bare(cars)[i] == c.(pos := 0);
    }
    if c.(pos := 0) in Bare(cars) && c.pos == RawPos(positions, c.driverNum) {
      var i :| 0 <= i < |cars| && Bare(cars)[i] == c.(pos := 0);
      assert Stamped(cars, positions)[i] == c;
    }
  }

  /** What a publish reconciles, after any run: for every driver sampled its last sample, with
      the position the feed last gave it, and no other car. */
  lemma FrameShowsTheFeed(es: seq<Event>, c: Car)
    ensures c in Stamped(Run(es).latest, Run(es).positions)
            <==> LastSample(es, c.driverNum).Some?
                 && c == LastSample(es, c.driverNum).value.(pos := LastPosition(es, c.driverNum))
    ensures DistinctDrivers(Stamped(Run(es).latest, Run(es).positions))
  {
    InStamped(Run(es).latest, Run(es).positions, c);
    BoardHoldsLast(es, c.(pos := 0));
    PositionIsLast(es, c.driverNum);
    BoardIsDistinct(es);
    StampedAt(Run(es).latest, Run(es).positions);
  }

  // ------------------------------------------------------------------ the trailing frame

  /** The frame at stream end reconciles the board as it stands, without stamping. */
  function TrailingFrame(b: Board): seq<Car> {
    Reconcile(b.latest)
  }

  /** What `pos` says about any two running cars is what their raw positions say. */
  ghost predicate RanksConsistent(b: Board) {
    forall c, d :: c in Running(b.latest) && d in Running(b.latest) ==>
      (KeyLe(c, d) <==> KeyLe(Stamp(c, b.positions), Stamp(d, b.positions)))
  }

  lemma {:induction false} StampedSplits(cars: seq<Car>, positions: map<int, int>)
    ensures Running(Stamped(cars, positions)) == Stamped(Running(cars), positions)
    ensures Retired(Stamped(cars, positions)) == Stamped(Retired(cars), positions)
  {
    if cars != [] {
      var front, last := cars[..|cars| - 1], cars[|cars| - 1];
      StampedSplits(front, positions);
      var st := Stamped(cars, positions);
      assert st[..|st| - 1] == Stamped(front, positions);
      if last.status.Out? {
        assert (Retired(front) + [last])[..|Retired(front)|] == Retired(front);
      } else {
        assert (Running(front) + [last])[..|Running(front)|] == Running(front);
      }
    }
  }

  lemma {:induction false} InsertStamped(s: seq<Car>, x: Car, positions: map<int, int>)
    requires forall c :: c in s ==> (KeyLe(c, x) <==> KeyLe(Stamp(c, positions), Stamp(x, positions)))
    ensures Insert(Stamped(s, positions), Stamp(x, positions), KeyLe) == Stamped(Insert(s, x, KeyLe), positions)
  {
    StampedAt(s, positions);
    if s == [] || KeyLe(s[|s| - 1], x) {
      assert (s + [x])[..|s|] == s;
      if s != [] { assert s[|s| - 1] in s; }
    } else {
      var front, last := s[..|s| - 1], s[|s| - 1];
      assert last in s && forall c :: c in front ==> c in s;
      InsertStamped(front, x, positions);
      var t := Stamped(s, positions);
      assert t[..|t| - 1] == Stamped(front, positions);
      assert (Insert(front, x, KeyLe) + [last])[..|Insert(front, x, KeyLe)|] == Insert(front, x, KeyLe);
    }
  }

  lemma {:induction false} SortStamped(s: seq<Car>, positions: map<int, int>)
    requires forall c, d :: c in s && d in s ==> (KeyLe(c, d) <==> KeyLe(Stamp(c, positions), Stamp(d, positions)))
    ensures SortBy(Stamped(s, positions), KeyLe) == Stamped(SortBy(s, KeyLe), positions)
  {
    if s != [] {
      var front, last := s[..|s| - 1], s[|s| - 1];
      assert last in s && forall c :: c in front ==> c in s;
      SortStamped(front, positions);
      SortMultiset(front, KeyLe);
      forall c | c in SortBy(front, KeyLe) ensures c in front { assert c in multiset(SortBy(front, KeyLe)); }
      InsertStamped(SortBy(front, KeyLe), last, positions);
      var t := Stamped(s, positions);
      assert t[..|t| - 1] == Stamped(front, positions);
    }
  }

  lemma {:induction false} StampedAppend(a: seq<Car>, b: seq<Car>, positions: map<int, int>)
    ensures Stamped(a + b, positions) == Stamped(a, positions) + Stamped(b, positions)
  {
    StampedAt(a + b, positions);
    StampedAt(a, positions);
    StampedAt(b, positions);
  }

  lemma RenumberIgnoresStamp(cars: seq<Car>, positions: map<int, int>)
    ensures Renumber(Stamped(cars, positions)) == Renumber(cars)
  {
    StampedAt(cars, positions);
    RenumberAt(cars);
    RenumberAt(Stamped(cars, positions));
  }

  lemma ConsistentIsFresh(b: Board)
    requires RanksConsistent(b)
    ensures TrailingFrame(b) == PublishedFrame(b)
  {
    SortSplits(b.latest);
    SortSplits(Stamped(b.latest, b.positions));
    StampedSplits(b.latest, b.positions);
    SortStamped(Running(b.latest), b.positions);
    StampedAppend(SortBy(Running(b.latest), KeyLe), Retired(b.latest), b.positions);
    RenumberIgnoresStamp(SortBy(b.latest, RankLe), b.positions);
  }

  lemma StampedDriver(b: Board, c: Car, x: Car)
    requires DistinctDrivers(b.latest) && c in b.latest
    requires x in Stamped(b.latest, b.positions) && x.driverNum == c.driverNum
    ensures x == Stamp(c, b.positions)
  {
    var st := Stamped(b.latest, b.positions);
    StampedAt(b.latest, b.positions);
    var i :| 0 <= i < |st| && st[i] == x;
    var j :| 0 <= j < |b.latest| && b.latest[j] == c;
  }

  /** Two lists that renumber alike hold the same drivers place by place. */
  lemma SameDriverAt(s: seq<Car>, t: seq<Car>, p: nat)
    requires Renumber(s) == Renumber(t) && p < |s|
    ensures |s| == |t| && s[p].driverNum == t[p].driverNum
  {
    RenumberAt(s);
    RenumberAt(t);
    assert Renumber(s)[p] == Renumber(t)[p];
  }

  /** In a frame equal to the fresh one, a driver's place under both orders is the same. */
  lemma SamePlace(b: Board, c: Car) returns (p: nat)
    requires DistinctDrivers(b.latest) && TrailingFrame(b) == PublishedFrame(b) && c in b.latest
    ensures var s, t := SortBy(b.latest, RankLe), SortBy(Stamped(b.latest, b.positions), RankLe);
            p < |s| && |s| == |t| && s[p] == c && t[p] == Stamp(c, b.positions)
  {
    var st := Stamped(b.latest, b.positions);
    var s, t := SortBy(b.latest, RankLe), SortBy(st, RankLe);
    SortMultiset(b.latest, RankLe);
    SortMultiset(st, RankLe);
    SameMembers(b.latest, s, c);
    p :| 0 <= p < |s| && s[p] == c;
    SameDriverAt(s, t, p);
    SameMembers(t, st, t[p]);
    StampedDriver(b, c, t[p]);
  }

  lemma FreshIsConsistent(b: Board)
    requires DistinctDrivers(b.latest) && TrailingFrame(b) == PublishedFrame(b)
    ensures RanksConsistent(b)
  {
    SortSorted(b.latest, RankLe);
    SortSorted(Stamped(b.latest, b.positions), RankLe);
    SplitMeaning(b.latest);
    forall c, d | c in Running(b.latest) && d in Running(b.latest)
      ensures KeyLe(c, d) <==> KeyLe(Stamp(c, b.positions), Stamp(d, b.positions))
    {
      var p := SamePlace(b, c);
      var q := SamePlace(b, d);
      DistinctStrict(b.latest, c, d);
      if p < q {
        assert RankLe(c, d) && RankLe(Stamp(c, b.positions), Stamp(d, b.positions));
      } else if q < p {
        assert RankLe(d, c) && RankLe(Stamp(d, b.positions), Stamp(c, b.positions));
      }
    }
  }

  /** Exactly when the trailing frame is right, after any run: it shows the fresh order if and
      only if, for every two running cars, the `pos` values left on the board compare as their
      raw feed positions do. */
  lemma TrailingFreshIff(es: seq<Event>)
    ensures TrailingFrame(Run(es)) == PublishedFrame(Run(es)) <==> RanksConsistent(Run(es))
  {
    BoardIsDistinct(es);
    if TrailingFrame(Run(es)) == PublishedFrame(Run(es)) { FreshIsConsistent(Run(es)); }
    if RanksConsistent(Run(es)) { ConsistentIsFresh(Run(es)); }
  }

  // ------------------------------------------------------------------ when it is right

  /** The rank a frame gives the driver of its i-th raw entry is where sorting put it. */
  lemma RankIsPlace(cars: seq<Car>, i: nat) returns (p: nat)
    requires DistinctDrivers(cars) && i < |cars|
    ensures p < |SortBy(cars, RankLe)| && SortBy(cars, RankLe)[p] == cars[i]
    ensures RankIn(Reconcile(cars), cars[i].driverNum) == p + 1
  {
    var d := cars[i].driverNum;
    var there := SortedPlace(cars, i);
    p := LastCarIndex(Reconcile(cars), d);
    RankIsLast(Reconcile(cars), d);
    var from := OriginalPlace(cars, p);
    assert from == i;
  }

  /** A car's place in the frame published from a board: its rank, and its raw entry in the
      order behind it. */
  lemma PlaceInFrame(b: Board, c: Car) returns (p: nat)
    requires DistinctDrivers(b.latest) && c in WithRanks(b.latest, PublishedFrame(b))
    ensures var s := SortBy(Stamped(b.latest, b.positions), RankLe);
            p < |s| && s[p] == Stamp(c, b.positions) && c.pos == p + 1
  {
    var st := Stamped(b.latest, b.positions);
    WithRanksAt(b.latest, PublishedFrame(b));
    StampedAt(b.latest, b.positions);
    var i :| 0 <= i < |b.latest| && WithRanks(b.latest, PublishedFrame(b))[i] == c;
    p := RankIsPlace(st, i);
  }

  lemma RankedAt(cars: seq<Car>, p: nat, q: nat)
    requires p < q < |SortBy(cars, RankLe)|
    ensures RankLe(SortBy(cars, RankLe)[p], SortBy(cars, RankLe)[q])
  {
    SortSorted(cars, RankLe);
  }

  lemma RanksAreOrder(b: Board, c: Car, d: Car)
    requires DistinctDrivers(b.latest)
    requires c in WithRanks(b.latest, PublishedFrame(b)) && d in WithRanks(b.latest, PublishedFrame(b))
    requires !c.status.Out? && !d.status.Out?
    ensures KeyLe(c, d) <==> KeyLe(Stamp(c, b.positions), Stamp(d, b.positions))
  {
    var p := PlaceInFrame(b, c);
    var q := PlaceInFrame(b, d);
    WithRanksKeeps(b.latest, PublishedFrame(b));
    DistinctStrict(WithRanks(b.latest, PublishedFrame(b)), c, d);
    if p < q {
      RankedAt(Stamped(b.latest, b.positions), p, q);
    } else if q < p {
      RankedAt(Stamped(b.latest, b.positions), q, p);
    }
  }

  /** Right after a frame: nothing sampled and no position changed since. */
  lemma TrailingFreshAfterPublish(es: seq<Event>)
    ensures TrailingFrame(Run(es + [Publish])) == PublishedFrame(Run(es + [Publish]))
  {
    var b := Run(es);
    BoardIsDistinct(es);
    RunSnoc(es, Publish);
    SplitMeaning(Run(es + [Publish]).latest);
    forall c, d | c in Running(Run(es + [Publish]).latest) && d in Running(Run(es + [Publish]).latest)
      ensures KeyLe(c, d) <==> KeyLe(Stamp(c, b.positions), Stamp(d, b.positions))
    {
      RanksAreOrder(b, c, d);
    }
    TrailingFreshIff(es + [Publish]);
  }

  /** The drivers sampled since both the last frame and the last change of their position. */
  function RawOnBoard(es: seq<Event>): set<int> {
    if es == [] then {}
    else
      var front := RawOnBoard(es[..|es| - 1]);
      match es[|es| - 1]
      case Sample(car) => front + {car.driverNum}
      case Timing(d, _) => front - {d}
      case Publish => {}
  }

  /** Nothing from event a on publishes a frame or moves the driver. */
  ghost predicate LeftAlone(es: seq<Event>, a: nat, driver: int) {
    forall b :: a <= b < |es| ==> !es[b].Publish? && !(es[b].Timing? && es[b].driverNum == driver)
  }

  ghost predicate SampledAt(es: seq<Event>, a: nat, driver: int) {
    a < |es| && es[a].Sample? && es[a].car.driverNum == driver && LeftAlone(es, a, driver)
  }

  lemma {:induction false} RawOnBoardIff(es: seq<Event>, driver: int)
    ensures driver in RawOnBoard(es) <==> exists a: nat :: SampledAt(es, a, driver)
  {
    if es != [] {
      var front := es[..|es| - 1];
      RawOnBoardIff(front, driver);
      var kept := !es[|es| - 1].Publish? && !(es[|es| - 1].Timing? && es[|es| - 1].driverNum == driver);
      assert forall a: nat :: a < |front| ==> (LeftAlone(es, a, driver) <==> LeftAlone(front, a, driver) && kept);
      assert forall a: nat :: a < |front| ==> (SampledAt(es, a, driver) <==> SampledAt(front, a, driver) && kept);
      assert SampledAt(es, |es| - 1, driver)
             <==> es[|es| - 1].Sample? && es[|es| - 1].car.driverNum == driver;
    }
  }

  lemma {:induction false} RawStays(es: seq<Event>)
    ensures forall c :: c in Run(es).latest && c.driverNum in RawOnBoard(es) ==> c == Stamp(c, Run(es).positions)
  {
    if es != [] {
      var front, last := es[..|es| - 1], es[|es| - 1];
      RawStays(front);
      BoardIsDistinct(front);
      if last.Sample? { ReplaceKeeps(Run(front).latest, Stamp(last.car, Run(front).positions)); }
    }
  }

  /** When every car on the board was sampled since the last frame and since the feed last
      moved it, the trailing frame is fresh. */
  lemma TrailingFreshWhenSampled(es: seq<Event>)
    requires forall c :: c in Run(es).latest ==> c.driverNum in RawOnBoard(es)
    ensures TrailingFrame(Run(es)) == PublishedFrame(Run(es))
  {
    var b := Run(es);
    RawStays(es);
    StampedAt(b.latest, b.positions);
    forall i | 0 <= i < |b.latest| ensures Stamped(b.latest, b.positions)[i] == b.latest[i] {
      assert b.latest[i] in b.latest;
    }
    assert Stamped(b.latest, b.positions) == b.latest;
  }

  // ------------------------------------------------------------------ a rank is a count

  /** The running cars that go before c by raw key. */
  function Below(cars: seq<Car>, c: Car): nat {
    if cars == [] then 0
    else
      var last := cars[|cars| - 1];
      Below(cars[..|cars| - 1], c) + (if !last.status.Out? && !KeyLe(c, last) then 1 else 0)
  }

  /** The cars that go before the i-th: for a running one, the running ones below it by key;
      for a retired one, all running ones and the retired ones listed earlier. */
  function Ahead(cars: seq<Car>, i: nat): nat
    requires i < |cars|
  {
    if cars[i].status.Out? then |Running(cars)| + |Retired(cars[..i])| else Below(cars, cars[i])
  }

  lemma {:induction false} BelowInsert(s: seq<Car>, x: Car, c: Car)
    ensures Below(Insert(s, x, RankLe), c) == Below(s + [x], c)
  {
    assert (s + [x])[..|s|] == s;
    if s != [] && !RankLe(s[|s| - 1], x) {
      var front, last := s[..|s| - 1], s[|s| - 1];
      BelowInsert(front, x, c);
      assert (front + [x])[..|front|] == front;
      assert (Insert(front, x, RankLe) + [last])[..|Insert(front, x, RankLe)|] == Insert(front, x, RankLe);
    }
  }

  lemma {:induction false} BelowSorted(cars: seq<Car>, c: Car)
    ensures Below(SortBy(cars, RankLe), c) == Below(cars, c)
  {
    if cars != [] {
      var front, last := cars[..|cars| - 1], cars[|cars| - 1];
      BelowSorted(front, c);
      BelowInsert(SortBy(front, RankLe), last, c);
      var t := SortBy(front, RankLe) + [last];
      assert t[..|t| - 1] == SortBy(front, RankLe);
    }
  }

  lemma {:induction false} BelowIsIndex(s: seq<Car>, c: Car, p: nat)
    requires p <= |s|
    requires forall q :: 0 <= q < |s| ==> (q < p <==> !s[q].status.Out? && !KeyLe(c, s[q]))
    ensures Below(s, c) == p
  {
    if s != [] { BelowIsIndex(s[..|s| - 1], c, if p < |s| then p else p - 1); }
  }

  lemma {:induction false} RetiredAt(cars: seq<Car>, i: nat)
    requires i < |cars| && cars[i].status.Out?
    ensures |Retired(cars[..i])| < |Retired(cars)| && Retired(cars)[|Retired(cars[..i])|] == cars[i]
  {
    var front := cars[..|cars| - 1];
    if i < |front| {
      RetiredAt(front, i);
      assert front[..i] == cars[..i];
    }
  }

  lemma SortedDistinct(cars: seq<Car>)
    requires DistinctDrivers(cars)
    ensures DistinctDrivers(SortBy(cars, RankLe))
  {
    ReconciledDistinct(cars);
    RenumberAt(SortBy(cars, RankLe));
    forall i, j | 0 <= i < j < |SortBy(cars, RankLe)|
      ensures SortBy(cars, RankLe)[i].driverNum != SortBy(cars, RankLe)[j].driverNum
    {
      assert Reconcile(cars)[i].driverNum != Reconcile(cars)[j].driverNum;
    }
  }

  lemma RetiredPlace(cars: seq<Car>, i: nat)
    requires i < |cars| && cars[i].status.Out?
    ensures Ahead(cars, i) < |SortBy(cars, RankLe)| && SortBy(cars, RankLe)[Ahead(cars, i)] == cars[i]
  {
    SortSplits(cars);
    SortMultiset(Running(cars), KeyLe);
    RetiredAt(cars, i);
  }

  lemma RunningPlace(cars: seq<Car>, i: nat)
    requires DistinctDrivers(cars) && i < |cars| && !cars[i].status.Out?
    ensures Ahead(cars, i) < |SortBy(cars, RankLe)| && SortBy(cars, RankLe)[Ahead(cars, i)] == cars[i]
  {
    var s, c := SortBy(cars, RankLe), cars[i];
    var p := SortedPlace(cars, i);
    SortSorted(cars, RankLe);
    SortedDistinct(cars);
    forall q | 0 <= q < |s| ensures q < p <==> !s[q].status.Out? && !KeyLe(c, s[q]) {
      if q < p { assert RankLe(s[q], s[p]); } else if p < q { assert RankLe(s[p], s[q]); }
    }
    BelowIsIndex(s, c, p);
    BelowSorted(cars, c);
  }

  /** Sorting puts each car behind exactly the cars ahead of it, and the frame numbers it so. */
  lemma RankIsCount(cars: seq<Car>, i: nat)
    requires DistinctDrivers(cars) && i < |cars|
    ensures Ahead(cars, i) < |Reconcile(cars)|
    ensures Reconcile(cars)[Ahead(cars, i)] == cars[i].(pos := 1 + Ahead(cars, i))
  {
    if cars[i].status.Out? { RetiredPlace(cars, i); } else { RunningPlace(cars, i); }
    RenumberAt(SortBy(cars, RankLe));
  }

  /** A driver's entry in the frame. */
  lemma PlaceInReconciled(cars: seq<Car>, i: nat)
    requires DistinctDrivers(cars) && i < |cars|
    ensures LastCarIndex(Reconcile(cars), cars[i].driverNum) == Ahead(cars, i) < |Reconcile(cars)|
    ensures Reconcile(cars)[Ahead(cars, i)] == cars[i].(pos := 1 + Ahead(cars, i))
  {
    RankIsCount(cars, i);
    ReconciledDistinct(cars);
  }

  // ------------------------------------------------------------------ what the trailing frame stores

  /** The drivers whose car was sampled, and so replaced by a new object, since the last
      frame. */
  function SampledSince(es: seq<Event>): set<int> {
    if es == [] then {}
    else
      var front := SampledSince(es[..|es| - 1]);
      match es[|es| - 1]
      case Sample(car) => front + {car.driverNum}
      case Timing(_, _) => front
      case Publish => {}
  }

  /** The snapshot's cars: each frame writes its own in. This is also what a subscriber of the
      published frames folds. */
  function StoredCars(es: seq<Event>): map<int, Car> {
    if es == [] then map[]
    else
      var front := es[..|es| - 1];
      if es[|es| - 1].Publish? then FoldCars(StoredCars(front), PublishedFrame(Run(front))) else StoredCars(front)
  }

  /** A car not sampled since is one object on the board and in the snapshot. */
  ghost predicate SharedObjects(es: seq<Event>) {
    forall c :: c in Run(es).latest && c.driverNum !in SampledSince(es) ==>
      c.driverNum in StoredCars(es) && StoredCars(es)[c.driverNum] == c
  }

  /** Publishing makes every car on the board one object with the snapshot's. */
  lemma PublishShares(before: map<int, Car>, b: Board, c: Car)
    requires DistinctDrivers(b.latest) && c in WithRanks(b.latest, PublishedFrame(b))
    ensures var cars := FoldCars(before, PublishedFrame(b));
            c.driverNum in cars && cars[c.driverNum].(pos := 0) == c.(pos := 0) && cars[c.driverNum] == c
  {
    var st, frame := Stamped(b.latest, b.positions), PublishedFrame(b);
    WithRanksAt(b.latest, frame);
    StampedAt(b.latest, b.positions);
    var i :| 0 <= i < |b.latest| && WithRanks(b.latest, frame)[i] == c;
    var p := RankIsPlace(st, i);
    RankIsLast(frame, c.driverNum);
    FoldCarsMeaning(before, frame, c.driverNum);
    var there := SortedPlace(st, i);
    var j := LastCarIndex(frame, c.driverNum);
    var from := OriginalPlace(st, j);
    assert from == i;
  }

  lemma {:induction false} ObjectsAreShared(es: seq<Event>)
    ensures SharedObjects(es)
    ensures forall d :: d in SampledSince(es) ==> exists c :: c in Run(es).latest && c.driverNum == d
  {
    if es != [] {
      var front, last := es[..|es| - 1], es[|es| - 1];
      var b := Run(front);
      ObjectsAreShared(front);
      BoardIsDistinct(front);
      match last
      case Sample(car) =>
        var now := Stamp(car, b.positions);
        ReplaceKeeps(b.latest, now);
        forall d | d in SampledSince(es) ensures exists c :: c in Run(es).latest && c.driverNum == d {
          if d == car.driverNum {
            assert now in Run(es).latest;
          } else {
            var c :| c in b.latest && c.driverNum == d;
            assert c in Run(es).latest;
          }
        }
      case Timing(d, pos) =>
      case Publish =>
        forall c | c in Run(es).latest ensures c.driverNum in StoredCars(es) && StoredCars(es)[c.driverNum] == c {
          PublishShares(StoredCars(front), b, c);
        }
    }
  }

  /** The snapshot's cars after the trailing frame: no car is written in, but building the
      frame renumbers the objects it shares with the snapshot. */
  function StoredByTrailing(es: seq<Event>): map<int, Car> {
    var frame := TrailingFrame(Run(es));
    map d | d in StoredCars(es) ::
      if d in SampledSince(es) || LastCarIndex(frame, d) < 0 then StoredCars(es)[d] else frame[LastCarIndex(frame, d)]
  }

  /** The i-th car on the board, sampled since, is stored already with the rank it now has. */
  ghost predicate StoredAsRanked(es: seq<Event>, i: nat)
    requires i < |Run(es).latest|
  {
    var cars := Run(es).latest;
    var d := cars[i].driverNum;
    d in StoredCars(es) && StoredCars(es)[d] == cars[i].(pos := 1 + Ahead(cars, i))
  }

  ghost predicate StoredWhereSampled(es: seq<Event>) {
    forall i :: 0 <= i < |Run(es).latest| && Run(es).latest[i].driverNum in SampledSince(es) ==> StoredAsRanked(es, i)
  }

  /** A driver's entry is the same stored and folded. */
  ghost predicate SameEntry(es: seq<Event>, d: int) {
    var stored, folded := StoredByTrailing(es), FoldCars(StoredCars(es), TrailingFrame(Run(es)));
    (d in stored <==> d in folded) && (d in stored ==> stored[d] == folded[d])
  }

  lemma OnBoard(es: seq<Event>, d: int) returns (i: nat)
    requires d in SampledSince(es)
    ensures i < |Run(es).latest| && Run(es).latest[i].driverNum == d
  {
    ObjectsAreShared(es);
    var c :| c in Run(es).latest && c.driverNum == d;
    i :| 0 <= i < |Run(es).latest| && Run(es).latest[i] == c;
  }

  lemma SampledEntry(es: seq<Event>, i: nat)
    requires i < |Run(es).latest| && Run(es).latest[i].driverNum in SampledSince(es)
    ensures SameEntry(es, Run(es).latest[i].driverNum) <==> StoredAsRanked(es, i)
  {
    BoardIsDistinct(es);
    PlaceInReconciled(Run(es).latest, i);
    FoldCarsMeaning(StoredCars(es), TrailingFrame(Run(es)), Run(es).latest[i].driverNum);
  }

  /** A car not sampled is one object on the board and in the snapshot. */
  lemma UnsampledEntry(es: seq<Event>, d: int)
    requires d !in SampledSince(es)
    ensures SameEntry(es, d)
  {
    var cars, frame := Run(es).latest, TrailingFrame(Run(es));
    FoldCarsMeaning(StoredCars(es), frame, d);
    if LastCarIndex(frame, d) >= 0 {
      ObjectsAreShared(es);
      var from := OriginalPlace(cars, LastCarIndex(frame, d));
      assert cars[from] in cars;
    }
  }

  /** After a trailing frame the stored snapshot has the cars that subscribers fold if and only
      if every car sampled since the last frame is stored already as the board now has it, with
      one more than the number of cars ahead of it for its position. */
  lemma TrailingStoredIff(es: seq<Event>)
    ensures StoredByTrailing(es) == FoldCars(StoredCars(es), TrailingFrame(Run(es))) <==> StoredWhereSampled(es)
  {
    var stored, folded := StoredByTrailing(es), FoldCars(StoredCars(es), TrailingFrame(Run(es)));
    if StoredWhereSampled(es) {
      forall d ensures SameEntry(es, d) {
        if d in SampledSince(es) {
          var i := OnBoard(es, d);
          SampledEntry(es, i);
        } else {
          UnsampledEntry(es, d);
        }
      }
      forall d ensures (d in stored <==> d in folded) && (d in stored ==> stored[d] == folded[d]) {
        assert SameEntry(es, d);
      }
    } else {
      var i :| 0 <= i < |Run(es).latest| && Run(es).latest[i].driverNum in SampledSince(es) && !StoredAsRanked(es, i);
      SampledEntry(es, i);
    }
  }

  /** So it has when no car was sampled since. */
  lemma TrailingStoredWhenNoneSampled(es: seq<Event>)
    requires SampledSince(es) == {}
    ensures StoredByTrailing(es) == FoldCars(StoredCars(es), TrailingFrame(Run(es)))
  {
    TrailingStoredIff(es);
  }

  /** The short run of the next two lemmas: 1 is third on the feed and 2 fourth, a frame goes
      out ranking them first and second, then 1 alone is sampled again and the stream ends. */
  function ShortRun(c1: Car, c2: Car): seq<Event> {
    [Timing(1, 3), Timing(2, 4)] + [Sample(c1)] + [Sample(c2)] + [Publish] + [Sample(c1)]
  }

  ghost predicate TwoRunners(c1: Car, c2: Car) {
    c1.driverNum == 1 && c2.driverNum == 2 && !c1.status.Out? && !c2.status.Out?
  }

  lemma TwoSampled(c1: Car, c2: Car)
    requires c1.driverNum == 1 && c2.driverNum == 2
    ensures var b := Board([], map[1 := 3, 2 := 4]);
            Handle(Handle(b, Sample(c1)), Sample(c2)) == Board([c1.(pos := 3), c2.(pos := 4)], b.positions)
    ensures var b := Board([c1.(pos := 1), c2.(pos := 2)], map[1 := 3, 2 := 4]);
            Handle(b, Sample(c1)) == Board([c1.(pos := 3), c2.(pos := 2)], b.positions)
  {
    assert Replace([], c1.(pos := 3)) == [c1.(pos := 3)];
    assert [c1.(pos := 3)][1..] == [] && Replace([], c2.(pos := 4)) == [c2.(pos := 4)];
    assert Replace([c1.(pos := 3)], c2.(pos := 4)) == [c1.(pos := 3), c2.(pos := 4)];
    assert [c1.(pos := 1), c2.(pos := 2)][1..] == [c2.(pos := 2)];
  }

  lemma RanksWritten(raw: seq<Car>, ranked: seq<Car>)
    requires |raw| == |ranked| == 2 && raw[0].driverNum == ranked[0].driverNum == 1
    requires raw[1].driverNum == ranked[1].driverNum == 2
    ensures WithRanks(raw, ranked) == [raw[0].(pos := ranked[0].pos), raw[1].(pos := ranked[1].pos)]
  {
    assert raw[..1] == [raw[0]] && ranked[..1] == [ranked[0]];
    assert RankIn(ranked, 2) == ranked[1].pos;
    assert RankIn([ranked[0]], 1) == ranked[0].pos;
    assert RankIn(ranked, 1) == ranked[0].pos;
    assert [raw[0]][..0] == [];
    assert WithRanks([], ranked) == [];
    assert WithRanks([raw[0]], ranked) == [raw[0].(pos := ranked[0].pos)];
  }

  lemma TwoPublished(d1: Car, d2: Car)
    requires d1.driverNum == 1 && d2.driverNum == 2 && !d1.status.Out? && !d2.status.Out?
    requires d1.pos == 3 && d2.pos == 4
    ensures Handle(Board([d1, d2], map[1 := 3, 2 := 4]), Publish)
            == Board([d1.(pos := 1), d2.(pos := 2)], map[1 := 3, 2 := 4])
  {
    var raw := [d1, d2];
    StampedAt(raw, map[1 := 3, 2 := 4]);
    assert Stamped(raw, map[1 := 3, 2 := 4]) == raw;
    SortedIsFixed(raw, RankLe);
    RenumberAt(raw);
    var ranked := [d1.(pos := 1), d2.(pos := 2)];
    assert Reconcile(raw) == ranked;
    RanksWritten(raw, ranked);
  }

  lemma ShortRunEnds(c1: Car, c2: Car)
    requires TwoRunners(c1, c2)
    ensures Run(ShortRun(c1, c2)) == Board([c1.(pos := 3), c2.(pos := 2)], map[1 := 3, 2 := 4])
    ensures Run([Timing(1, 3), Timing(2, 4)] + [Sample(c1)] + [Sample(c2)] + [Publish])
            == Board([c1.(pos := 1), c2.(pos := 2)], map[1 := 3, 2 := 4])
  {
    var start := [Timing(1, 3), Timing(2, 4)];
    RunSnoc(start, Sample(c1));
    RunSnoc(start + [Sample(c1)], Sample(c2));
    RunSnoc(start + [Sample(c1)] + [Sample(c2)], Publish);
    RunSnoc(start + [Sample(c1)] + [Sample(c2)] + [Publish], Sample(c1));
    TwoSampled(c1, c2);
    TwoPublished(c1.(pos := 3), c2.(pos := 4));
  }

  lemma ResampledInconsistent(c1: Car, c2: Car)
    requires c1.driverNum == 1 && c2.driverNum == 2 && !c1.status.Out? && !c2.status.Out?
    ensures !RanksConsistent(Board([c1.(pos := 3), c2.(pos := 2)], map[1 := 3, 2 := 4]))
  {
    var x, y := c1.(pos := 3), c2.(pos := 2);
    assert [x, y][..1] == [x] && [x][..0] == [];
    assert Running([]) == [];
    assert Running([x]) == [x];
    assert Running([x, y]) == [x, y];
    assert x in Running([x, y]) && y in Running([x, y]);
  }

  /** The trailing frame can be wrong: 1's raw third loses to the rank 2 still carries. */
  lemma TrailingCanKeepEarlierRank(c1: Car, c2: Car)
    requires TwoRunners(c1, c2)
    ensures TrailingFrame(Run(ShortRun(c1, c2))) != PublishedFrame(Run(ShortRun(c1, c2)))
  {
    ShortRunEnds(c1, c2);
    ResampledInconsistent(c1, c2);
    TrailingFreshIff(ShortRun(c1, c2));
  }

  /** And the stored snapshot is then not what subscribers fold: it keeps 1 first. */
  lemma TrailingCanMissTheStore(c1: Car, c2: Car)
    requires TwoRunners(c1, c2)
    ensures var es := ShortRun(c1, c2);
            StoredByTrailing(es) != FoldCars(StoredCars(es), TrailingFrame(Run(es)))
  {
    var es := ShortRun(c1, c2);
    var before := [Timing(1, 3), Timing(2, 4)] + [Sample(c1)] + [Sample(c2)] + [Publish];
    ShortRunEnds(c1, c2);
    ObjectsAreShared(before);
    assert before[|before| - 1] == Publish && SampledSince(before) == {};
    assert c1.(pos := 1) in Run(before).latest;
    assert es[..|before|] == before;
    assert 1 in SampledSince(es) && StoredCars(es) == StoredCars(before);
    var last := [c1.(pos := 3), c2.(pos := 2)];
    assert last[..1] == [last[0]] && [last[0]][..0] == [];
    assert Below([last[0]], last[0]) == 0 && Below(last, last[0]) == 1;
    assert !StoredAsRanked(es, 0);
    TrailingStoredIff(es);
  }
}
