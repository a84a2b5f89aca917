/** The reconnecting socket (web/src/realtime/socket.ts): backoff, the attempt budget and
    manual recovery.

    `Conn` is the closure's variables with what the browser holds for them: the sockets that
    have not closed yet and the armed retry timers. `dials` and `delay` count dials made and
    milliseconds scheduled since the budget was last refilled (at the start, by the first
    readable message on a connection, or by a manual retry). */
module RaceSocket {
  import opened Model
  import opened Reducer

  const MAX_RECONNECT_ATTEMPTS: nat := 20

  datatype Status = Connecting | Live | Reconnecting | Offline

  datatype Phase = Dialling | Opened | Closing

  datatype Socket = Socket(phase: Phase, live: bool)

  datatype Conn = Conn(
    state: RaceState, sockets: map<nat, Socket>, timers: map<nat, int>, nextId: nat,
    closed: bool, backoff: int, attempted: bool, attempts: nat, exhausted: bool, status: Status,
    dials: nat, delay: int)

  // ------------------------------------------------------------------ events

  function Dial(c: Conn): Conn {
    c.(attempted := true, status := if c.attempted then c.status else Connecting,
    sockets := c.sockets[c.nextId := Socket(Dialling, false)], nextId := c.nextId + 1, dials := c.dials + 1)
  }

  function Connect(): Conn {
    Dial(Conn(EmptyState(), map[], map[], 0, false, 500, false, 0, false, Connecting, 0, 0))
  }

  datatype Event =
    | OnOpen(id: nat)
    | OnMessage(id: nat, msg: Option<Msg>)   // None: unparsable or the wrong shape
    | OnError(id: nat)
    | OnClose(id: nat)
    | TimerFires(id: nat)
    | Retry
    | CallerCloses

  /** The browser opens only a dialling socket, delivers only on an open one, and closes any. */
  predicate Enabled(c: Conn, e: Event) {
    match e
    case OnOpen(id) => id in c.sockets && c.sockets[id].phase.Dialling?
    case OnMessage(id, _) => id in c.sockets && c.sockets[id].phase.Opened?
    case OnError(id) => id in c.sockets
    case OnClose(id) => id in c.sockets
    case TimerFires(id) => id in c.timers
    case Retry => true
    case CallerCloses => true
  }

  function CloseSockets(sockets: map<nat, Socket>): map<nat, Socket> {
    map id | id in sockets :: sockets[id].(phase := Closing)
  }

  function Message(c: Conn, id: nat, m: Msg): Conn
    requires id in c.sockets
  {
    var c' := c.(state := ApplyMessage(c.state, m));
    if c.sockets[id].live then c'
    else
      c'.(sockets := c.sockets[id := c.sockets[id].(live := true)],
      attempts := 0, status := Live, dials := 1, delay := 0)
  }

  function Closed(c: Conn, id: nat): Conn {
    var c' := c.(sockets := c.sockets - {id});
    if c.closed then c'
    else if c.attempts + 1 > MAX_RECONNECT_ATTEMPTS then
      c'.(attempts := c.attempts + 1, exhausted := true, status := Offline)
    else
      c'.(attempts := c.attempts + 1, status := Reconnecting,
      timers := c.timers[c.nextId := c.backoff], nextId := c.nextId + 1, delay := c.delay + c.backoff,
      backoff := if c.backoff * 2 < 8000 then c.backoff * 2 else 8000)
  }

  function ManualRetry(c: Conn): Conn {
    if c.closed || !c.exhausted then c
    else Dial(c.(exhausted := false, attempts := 0, backoff := 500, status := Reconnecting, dials := 0, delay := 0))
  }

  function Next(c: Conn, e: Event): Conn
    requires Enabled(c, e)
  {
    match e
    case OnOpen(id) =>
      c.(sockets := c.sockets[id := c.sockets[id].(phase := Opened)], backoff := 500, status := Connecting)
    case OnMessage(id, msg) => if msg.None? then c else Message(c, id, msg.value)
    case OnError(id) => if c.closed then c else c.(sockets := CloseSockets(c.sockets))
    case OnClose(id) => Closed(c, id)
    case TimerFires(id) => Dial(c.(timers := c.timers - {id}))
    case Retry => ManualRetry(c)
    case CallerCloses => c.(closed := true, sockets := CloseSockets(c.sockets))
  }

  ghost predicate IsRun(conns: seq<Conn>, events: seq<Event>) {
    && |conns| == |events| + 1
    && conns[0] == Connect()
    && forall i :: 0 <= i < |events| ==> Enabled(conns[i], events[i]) && conns[i + 1] == Next(conns[i], events[i])
  }

  // ------------------------------------------------------------------ bounds

  /** The longest backoff after so many failed attempts. */
  function Cap(attempts: nat): int {
    if attempts == 0 then 500 else if 2 * Cap(attempts - 1) < 8000 then 2 * Cap(attempts - 1) else 8000
  }

  function Pow2(n: nat): int {
    if n == 0 then 1 else 2 * Pow2(n - 1)
  }

  lemma {:induction false} CapIsDoubling(attempts: nat)
    ensures Cap(attempts) == if 500 * Pow2(attempts) < 8000 then 500 * Pow2(attempts) else 8000
    ensures Pow2(attempts) >= 1
  {
    if attempts > 0 { CapIsDoubling(attempts - 1); }
  }

  /** The longest total delay scheduled over so many failed attempts. */
  function Budget(attempts: nat): int {
    if attempts == 0 then 0 else Budget(attempts - 1) + Cap(attempts - 1)
  }

  lemma CapFlat(attempts: nat)
    requires attempts >= 4
    ensures Cap(attempts) == 8000
  {
    if attempts == 4 {
      assert Cap(1) == 1000 && Cap(2) == 2000 && Cap(3) == 4000;
    } else {
      CapFlat(attempts - 1);
    }
  }

  lemma BudgetAfter(attempts: nat)
    requires attempts >= 4
    ensures Budget(attempts) == 7500 + 8000 * (attempts - 4)
  {
    if attempts == 4 {
      assert Budget(1) == 500 && Budget(2) == 1500 && Budget(3) == 3500;
    } else {
      BudgetAfter(attempts - 1);
      CapFlat(attempts - 1);
    }
  }

  lemma {:induction false} BudgetAscends(a: nat, b: nat)
    requires a <= b
    ensures Budget(a) <= Budget(b)
    ensures 0 < Cap(b)
  {
    CapIsDoubling(b);
    if a < b {
      BudgetAscends(a, b - 1);
      CapIsDoubling(b - 1);
    }
  }

  // ------------------------------------------------------------------ the invariant

  /** Exactly one thing is going on: one socket, one pending retry, or the exhausted state. */
  ghost predicate OneActivity(c: Conn) {
    || (!c.exhausted && c.timers == map[] && exists id :: c.sockets.Keys == {id})
    || (!c.exhausted && c.sockets == map[] && exists id :: c.timers.Keys == {id})
    || (c.exhausted && c.sockets == map[] && c.timers == map[])
  }

  ghost predicate BudgetOk(c: Conn) {
    && c.attempts <= MAX_RECONNECT_ATTEMPTS + (if c.exhausted then 1 else 0)
    && (c.exhausted ==> c.attempts == MAX_RECONNECT_ATTEMPTS + 1)
    && c.dials == c.attempts + (if c.sockets == map[] then 0 else 1)
    && 500 <= c.backoff <= Cap(c.attempts)
    && 0 <= c.delay <= Budget(if c.exhausted then MAX_RECONNECT_ATTEMPTS else c.attempts)
    && (forall id :: id in c.sockets && c.sockets[id].phase.Opened? ==> c.backoff == 500)
    && (forall id :: id in c.timers ==> 500 <= c.timers[id] <= 8000)
    && (forall id :: id in c.sockets && c.sockets[id].live ==> c.attempts == 0)
  }

  ghost predicate StatusOk(c: Conn) {
    && (c.status.Offline? <==> c.exhausted)
    && (c.timers != map[] ==> c.status.Reconnecting?)
    && (c.status.Live? <==> exists id :: id in c.sockets && c.sockets[id].live)
    && c.attempted
    && (forall id :: id in c.sockets && c.sockets[id].live ==> !c.sockets[id].phase.Dialling?)
  }

  ghost predicate IdsOk(c: Conn) {
    (forall id :: id in c.sockets ==> id < c.nextId) && (forall id :: id in c.timers ==> id < c.nextId)
  }

  ghost predicate Inv(c: Conn) {
    !c.closed ==> OneActivity(c) && BudgetOk(c) && StatusOk(c) && IdsOk(c)
  }

  lemma {:induction false} CapBounds(attempts: nat)
    ensures 500 <= Cap(attempts) <= 8000
  {
    if attempts > 0 { CapBounds(attempts - 1); }
  }

  lemma CloseKeepsInv(c: Conn, id: nat)
    requires !c.closed && Inv(c) && id in c.sockets
    ensures Inv(Closed(c, id))
  {
    if c.attempts == MAX_RECONNECT_ATTEMPTS {
    } else {
      CapBounds(c.attempts);
      var c' := Closed(c, id);
      assert c'.sockets == map[] && c'.timers.Keys == {c.nextId};
      assert Budget(c.attempts + 1) == Budget(c.attempts) + Cap(c.attempts);
    }
  }

  lemma OpenKeepsInv(c: Conn, id: nat)
    requires !c.closed && Inv(c) && Enabled(c, OnOpen(id))
    ensures Inv(Next(c, OnOpen(id)))
  {
    var c' := Next(c, OnOpen(id));
    assert c'.sockets.Keys == {id};
    CapBounds(c.attempts);
  }

  lemma MessageKeepsInv(c: Conn, id: nat, m: Msg)
    requires !c.closed && Inv(c) && id in c.sockets && c.sockets[id].phase.Opened?
    ensures Inv(Message(c, id, m))
  {
    var c' := Message(c, id, m);
    assert c'.sockets.Keys == {id} && c'.sockets[id].live;
  }

  lemma ErrorKeepsInv(c: Conn, id: nat)
    requires !c.closed && Inv(c) && id in c.sockets
    ensures Inv(Next(c, OnError(id)))
  {
    var c' := Next(c, OnError(id));
    assert c'.sockets.Keys == {id} && c'.sockets[id].live == c.sockets[id].live;
  }

  lemma TimerKeepsInv(c: Conn, id: nat)
    requires !c.closed && Inv(c) && id in c.timers
    ensures Inv(Next(c, TimerFires(id)))
  {
    var c' := Next(c, TimerFires(id));
    assert c.timers - {id} == map[];
    assert c'.sockets.Keys == {c.nextId};
  }

  lemma RetryKeepsInv(c: Conn)
    requires !c.closed && Inv(c)
    ensures Inv(ManualRetry(c))
  {
    if c.exhausted {
      assert ManualRetry(c).sockets.Keys == {c.nextId};
    }
  }

  lemma StepKeepsInv(c: Conn, e: Event)
    requires Inv(c) && Enabled(c, e)
    ensures Inv(Next(c, e))
  {
    if !c.closed {
      match e
      case OnOpen(id) => OpenKeepsInv(c, id);
      case OnMessage(id, msg) => if msg.Some? { MessageKeepsInv(c, id, msg.value); }
      case OnError(id) => ErrorKeepsInv(c, id);
      case OnClose(id) => CloseKeepsInv(c, id);
      case TimerFires(id) => TimerKeepsInv(c, id);
      case Retry => RetryKeepsInv(c);
      case CallerCloses =>
    }
  }

  lemma {:induction false} RunKeepsInv(conns: seq<Conn>, events: seq<Event>, i: nat)
    requires IsRun(conns, events) && i < |conns|
    ensures Inv(conns[i])
  {
    if i == 0 {
      assert Connect().sockets.Keys == {0};
    } else {
      RunKeepsInv(conns, events, i - 1);
      StepKeepsInv(conns[i - 1], events[i - 1]);
    }
  }

  /** In every reachable state, until the caller closes it: exactly one socket, one pending
      retry, or the exhausted state; since the budget was last refilled at most 21 dials and
      at most 135500 ms of scheduled delay; the backoff no more than its doubling cap; and
      'live' is shown exactly while a connection that has delivered is up. */
  lemma ReconnectBudget(conns: seq<Conn>, events: seq<Event>, i: nat)
    requires IsRun(conns, events) && i < |conns| && !conns[i].closed
    ensures var c := conns[i];
            && OneActivity(c)
            && c.dials <= 21
            && c.delay <= 135500
            && c.backoff <= (if 500 * Pow2(c.attempts) < 8000 then 500 * Pow2(c.attempts) else 8000)
            && (c.exhausted ==> c.dials == 21)
            && (c.status.Live? <==> exists id :: id in c.sockets && c.sockets[id].live)
  {
    RunKeepsInv(conns, events, i);
    var c := conns[i];
    CapIsDoubling(c.attempts);
    BudgetAscends(if c.exhausted then MAX_RECONNECT_ATTEMPTS else c.attempts, MAX_RECONNECT_ATTEMPTS);
    BudgetAfter(MAX_RECONNECT_ATTEMPTS);
  }

  /** The events that refill the budget. */
  predicate Refills(c: Conn, e: Event)
    requires Enabled(c, e)
  {
    || (e.OnMessage? && e.msg.Some? && !c.sockets[e.id].live)
    || (e.Retry? && !c.closed && c.exhausted)
  }

  /** Sockets created by a step. */
  function DialsOf(c: Conn, e: Event): nat
    requires Enabled(c, e)
  {
    |Next(c, e).sockets.Keys - c.sockets.Keys|
  }

  function DialsIn(conns: seq<Conn>, events: seq<Event>, a: nat, b: nat): nat
    requires |conns| == |events| + 1 && a <= b < |conns|
    requires forall i :: a <= i < b ==> Enabled(conns[i], events[i])
  {
    if a == b then 0 else DialsIn(conns, events, a, b - 1) + DialsOf(conns[b - 1], events[b - 1])
  }

  /** Delays of the timers armed by a step. */
  function DelayOf(c: Conn, e: Event): int
    requires Enabled(c, e)
  {
    if e.OnClose? && c.nextId in Next(c, e).timers then Next(c, e).timers[c.nextId] else 0
  }

  function DelayIn(conns: seq<Conn>, events: seq<Event>, a: nat, b: nat): int
    requires |conns| == |events| + 1 && a <= b < |conns|
    requires forall i :: a <= i < b ==> Enabled(conns[i], events[i])
  {
    if a == b then 0 else DelayIn(conns, events, a, b - 1) + DelayOf(conns[b - 1], events[b - 1])
  }

  lemma TimerDialsOnce(c: Conn, id: nat)
    requires IdsOk(c) && id in c.timers
    ensures DialsOf(c, TimerFires(id)) == 1
  {
    assert Next(c, TimerFires(id)).sockets.Keys - c.sockets.Keys == {c.nextId};
  }

  lemma NothingDials(c: Conn, e: Event)
    requires Enabled(c, e) && !e.TimerFires? && (e.Retry? ==> c.closed || !c.exhausted)
    ensures DialsOf(c, e) == 0
  {
    assert Next(c, e).sockets.Keys <= c.sockets.Keys;
    assert Next(c, e).sockets.Keys - c.sockets.Keys == {};
  }

  /** Each step that does not refill accounts for what it dials and schedules. */
  lemma StepCounts(c: Conn, e: Event)
    requires Inv(c) && Enabled(c, e) && !c.closed && !Refills(c, e)
    ensures DialsOf(c, e) == Next(c, e).dials - c.dials
    ensures DelayOf(c, e) == Next(c, e).delay - c.delay
  {
    if e.TimerFires? { TimerDialsOnce(c, e.id); } else { NothingDials(c, e); }
  }

  /** Over a whole stretch of a run with no refill, the counters account for every dial and
      every scheduled millisecond, so at most 21 dials and 135500 ms lie between refills. */
  lemma {:induction false} BudgetBetweenRefills(conns: seq<Conn>, events: seq<Event>, a: nat, b: nat)
    requires IsRun(conns, events) && a <= b < |conns| && !conns[b].closed
    requires forall i :: a <= i < b ==> !conns[i].closed && !Refills(conns[i], events[i])
    ensures conns[a].dials <= conns[b].dials <= 21
    ensures DialsIn(conns, events, a, b) == conns[b].dials - conns[a].dials
    ensures DelayIn(conns, events, a, b) == conns[b].delay - conns[a].delay <= 135500
  {
    ReconnectBudget(conns, events, b);
    RunKeepsInv(conns, events, a);
    if a < b {
      BudgetBetweenRefills(conns, events, a, b - 1);
      RunKeepsInv(conns, events, b - 1);
      StepCounts(conns[b - 1], events[b - 1]);
    }
  }

  /** The caller touches nothing and no readable message arrives; handshakes may still be
      accepted, and unreadable messages delivered. */
  predicate Silent(e: Event) {
    !e.Retry? && !e.CallerCloses? && (e.OnMessage? ==> e.msg.None?)
  }

  function Closes(events: seq<Event>): nat {
    if events == [] then 0
    else Closes(events[..|events| - 1]) + (if events[|events| - 1].OnClose? then 1 else 0)
  }

  lemma SilentStep(c: Conn, e: Event)
    requires Inv(c) && Enabled(c, e) && !c.closed && Silent(e) && c.state == EmptyState()
    requires forall id :: id in c.sockets ==> !c.sockets[id].live
    ensures var c' := Next(c, e);
            && !c'.closed && c'.state == EmptyState()
            && (forall id :: id in c'.sockets ==> !c'.sockets[id].live)
            && c'.attempts == c.attempts + (if e.OnClose? then 1 else 0)
            && !Refills(c, e)
  {
  }

  lemma {:induction false} SilentStretch(conns: seq<Conn>, events: seq<Event>, i: nat)
    requires IsRun(conns, events) && i < |conns|
    requires forall k :: 0 <= k < i ==> Silent(events[k])
    ensures !conns[i].closed && conns[i].state == EmptyState() && conns[i].attempts == Closes(events[..i])
    ensures forall id :: id in conns[i].sockets ==> !conns[i].sockets[id].live
    ensures forall k :: 0 <= k < i ==> !conns[k].closed && !Refills(conns[k], events[k])
  {
    if i > 0 {
      SilentStretch(conns, events, i - 1);
      RunKeepsInv(conns, events, i - 1);
      SilentStep(conns[i - 1], events[i - 1]);
      assert events[..i][..i - 1] == events[..i - 1];
    }
  }

  /** Against a server that never says anything readable, the connection gives up at the
      21st close and at no other moment, after 21 dials in all; whether it accepted the
      handshakes makes no difference. */
  lemma SilentServerGoesOffline(conns: seq<Conn>, events: seq<Event>, i: nat)
    requires IsRun(conns, events) && i < |conns|
    requires forall k :: 0 <= k < i ==> Silent(events[k])
    ensures !conns[i].closed && conns[i].state == EmptyState()
    ensures conns[i].status.Offline? <==> Closes(events[..i]) == 21
    ensures Closes(events[..i]) <= 21
    ensures 1 + DialsIn(conns, events, 0, i) <= 21
    ensures conns[i].status.Offline? ==> 1 + DialsIn(conns, events, 0, i) == 21
  {
    SilentStretch(conns, events, i);
    RunKeepsInv(conns, events, i);
    BudgetBetweenRefills(conns, events, 0, i);
  }

  lemma RetryStep(c: Conn)
    requires !c.closed && IdsOk(c)
    ensures DialsOf(c, Retry) == if c.exhausted then 1 else 0
    ensures !ManualRetry(c).closed && !ManualRetry(c).exhausted && (!c.exhausted ==> ManualRetry(c) == c)
  {
    var dialled := ManualRetry(c).sockets.Keys - c.sockets.Keys;
    assert dialled == if c.exhausted then {c.nextId} else {};
  }

  /** However often the retry handle is pressed with nothing else happening, it dials once,
      and only from the exhausted state. */
  lemma {:induction false} RetriesDialOnce(conns: seq<Conn>, events: seq<Event>, a: nat, b: nat)
    requires IsRun(conns, events) && a < b < |conns| && !conns[a].closed
    requires forall i :: a <= i < b ==> events[i] == Retry
    ensures conns[b] == conns[a + 1] && !conns[b].closed && !conns[b].exhausted
    ensures DialsIn(conns, events, a, b) == if conns[a].exhausted then 1 else 0
  {
    RunKeepsInv(conns, events, a);
    if b == a + 1 {
      RetryStep(conns[a]);
      assert DialsIn(conns, events, a, a) == 0;
    } else {
      RetriesDialOnce(conns, events, a, b - 1);
      RetryStep(conns[b - 1]);
    }
  }

  // ------------------------------------------------------------------ the backoff, exactly

  /** A failed attempt after which another is scheduled. */
  predicate Schedules(c: Conn, e: Event) {
    e.OnClose? && !c.closed && c.attempts < 20
  }

  /** What sets the backoff back: an accepted handshake, or a retry that takes effect. */
  predicate Resets(c: Conn, e: Event) {
    e.OnOpen? || (e.Retry? && !c.closed && c.exhausted)
  }

  /** How many attempts were scheduled since the backoff was last set back. */
  function Failures(conns: seq<Conn>, events: seq<Event>, i: nat): nat
    requires i <= |events| && i <= |conns|
  {
    if i == 0 || Resets(conns[i - 1], events[i - 1]) then 0
    else Failures(conns, events, i - 1) + (if Schedules(conns[i - 1], events[i - 1]) then 1 else 0)
  }

  /** Half a second, doubled n times, and never more than eight seconds. */
  function Doubled(n: nat): int {
    if 500 * Pow2(n) < 8000 then 500 * Pow2(n) else 8000
  }

  lemma {:induction false} DoubledOnce(n: nat)
    ensures Doubled(n + 1) == if Doubled(n) * 2 < 8000 then Doubled(n) * 2 else 8000
    ensures Doubled(0) == 500 && Pow2(n) >= 1
  {
    CapIsDoubling(n);
  }

  lemma StepBackoff(c: Conn, e: Event)
    requires Enabled(c, e)
    ensures Next(c, e).backoff
            == if Resets(c, e) then 500
               else if Schedules(c, e) then (if c.backoff * 2 < 8000 then c.backoff * 2 else 8000)
               else c.backoff
    ensures Schedules(c, e) ==> Next(c, e).timers == c.timers[c.nextId := c.backoff]
    ensures !Schedules(c, e) ==> forall id :: id in Next(c, e).timers ==> id in c.timers
  {
  }

  /** In every reachable state the backoff is half a second doubled for every attempt scheduled
      since it was last set back, up to eight seconds. */
  lemma {:induction false} BackoffIsExact(conns: seq<Conn>, events: seq<Event>, i: nat)
    requires IsRun(conns, events) && i < |conns|
    ensures conns[i].backoff == Doubled(Failures(conns, events, i))
  {
    DoubledOnce(0);
    if i > 0 {
      BackoffIsExact(conns, events, i - 1);
      DoubledOnce(Failures(conns, events, i - 1));
      StepBackoff(conns[i - 1], events[i - 1]);
    }
  }

  /** And a failed attempt arms one timer more, which waits for exactly that. */
  lemma RetryWaitsBackoff(conns: seq<Conn>, events: seq<Event>, i: nat)
    requires IsRun(conns, events) && i < |events| && Schedules(conns[i], events[i])
    ensures conns[i + 1].timers == conns[i].timers[conns[i].nextId := Doubled(Failures(conns, events, i))]
  {
    BackoffIsExact(conns, events, i);
    StepBackoff(conns[i], events[i]);
  }

  /** The first n delays in all. */
  function Waits(n: nat): int {
    if n == 0 then 0 else Waits(n - 1) + Doubled(n - 1)
  }

  lemma {:induction false} WaitsInAll(n: nat)
    ensures Waits(n) == Budget(n)
    ensures n >= 4 ==> Waits(n) == 7500 + 8000 * (n - 4)
  {
    if n > 0 {
      WaitsInAll(n - 1);
      CapIsDoubling(n - 1);
    }
    if n >= 4 { BudgetAfter(n); }
  }

  lemma RefusedStep(c: Conn, e: Event)
    requires Inv(c) && Enabled(c, e) && !c.closed && Silent(e) && !e.OnOpen?
    ensures DelayOf(c, e) == (if Schedules(c, e) then c.backoff else 0) && !Resets(c, e)
  {
  }

  ghost predicate Refused(events: seq<Event>, i: nat) {
    forall k :: 0 <= k < i && k < |events| ==> Silent(events[k]) && !events[k].OnOpen?
  }

  function UpTo20(n: nat): nat {
    if n < 20 then n else 20
  }

  lemma {:induction false} RefusedFailures(conns: seq<Conn>, events: seq<Event>, i: nat)
    requires IsRun(conns, events) && i < |conns| && Refused(events, i)
    ensures Failures(conns, events, i) == UpTo20(conns[i].attempts)
  {
    if i > 0 {
      RefusedFailures(conns, events, i - 1);
      SilentStretch(conns, events, i - 1);
      RunKeepsInv(conns, events, i - 1);
      RefusedStep(conns[i - 1], events[i - 1]);
      SilentStep(conns[i - 1], events[i - 1]);
    }
  }

  lemma {:induction false} RefusedDelays(conns: seq<Conn>, events: seq<Event>, i: nat)
    requires IsRun(conns, events) && i < |conns| && Refused(events, i)
    ensures DelayIn(conns, events, 0, i) == Waits(UpTo20(conns[i].attempts))
  {
    if i > 0 {
      var c, e := conns[i - 1], events[i - 1];
      RefusedDelays(conns, events, i - 1);
      SilentStretch(conns, events, i - 1);
      RunKeepsInv(conns, events, i - 1);
      RefusedFailures(conns, events, i - 1);
      BackoffIsExact(conns, events, i - 1);
      RefusedStep(c, e);
      SilentStep(c, e);
    }
  }

  /** Against a server that refuses every handshake the waits are half a second, one, two, four,
      and eight from then on: 135500 ms in all when the connection gives up. */
  lemma RefusedWaitsAreExact(conns: seq<Conn>, events: seq<Event>, i: nat)
    requires IsRun(conns, events) && i < |conns| && Refused(events, i)
    ensures DelayIn(conns, events, 0, i) == Waits(UpTo20(Closes(events[..i])))
    ensures conns[i].status.Offline? ==> DelayIn(conns, events, 0, i) == 135500
  {
    SilentStretch(conns, events, i);
    RefusedDelays(conns, events, i);
    SilentServerGoesOffline(conns, events, i);
    WaitsInAll(20);
  }

  // ------------------------------------------------------------------ after the caller closes

  lemma TimerDials(c: Conn, id: nat)
    requires IdsOk(c) && id in c.timers
    ensures DialsOf(c, TimerFires(id)) == 1 && |Next(c, TimerFires(id)).timers| == |c.timers| - 1
    ensures IdsOk(Next(c, TimerFires(id)))
  {
    var c' := Next(c, TimerFires(id));
    assert c'.sockets.Keys - c.sockets.Keys == {c.nextId};
    assert c.timers.Keys == c'.timers.Keys + {id};
  }

  lemma ClosedMakesNothing(c: Conn, e: Event)
    requires c.closed && Enabled(c, e) && !e.TimerFires?
    ensures var c' := Next(c, e);
            && c'.sockets.Keys <= c.sockets.Keys && c'.timers == c.timers && c'.nextId == c.nextId
            && c'.closed && DialsOf(c, e) == 0
  {
    var c' := Next(c, e);
    match e
    case OnMessage(id, msg) => assert c'.sockets.Keys == c.sockets.Keys;
    case _ =>
    assert c'.sockets.Keys - c.sockets.Keys == {};
  }

  lemma ClosedStep(c: Conn, e: Event)
    requires c.closed && IdsOk(c) && Enabled(c, e)
    ensures var c' := Next(c, e);
            c'.closed && IdsOk(c') && DialsOf(c, e) + |c'.timers| == |c.timers|
  {
    if e.TimerFires? { TimerDials(c, e.id); } else { ClosedMakesNothing(c, e); }
  }

  lemma CloseDialsNothing(c: Conn)
    requires OneActivity(c) && IdsOk(c)
    ensures DialsOf(c, CallerCloses) == 0 && |c.timers| <= 1 && Next(c, CallerCloses).timers == c.timers
    ensures Next(c, CallerCloses).closed && IdsOk(Next(c, CallerCloses))
  {
    assert Next(c, CallerCloses).sockets.Keys - c.sockets.Keys == {};
    if c.timers != map[] {
      var id :| c.timers.Keys == {id};
      assert |c.timers.Keys| == 1;
    }
  }

  lemma OneMoreStep(conns: seq<Conn>, events: seq<Event>, a: nat, b: nat) returns (c: Conn, e: Event)
    requires IsRun(conns, events) && a < b < |conns|
    ensures c == conns[b - 1] && e == events[b - 1] && Enabled(c, e) && conns[b] == Next(c, e)
    ensures DialsIn(conns, events, a, b) == DialsIn(conns, events, a, b - 1) + DialsOf(c, e)
    ensures DialsIn(conns, events, a, a) == 0
  {
    c, e := conns[b - 1], events[b - 1];
  }

  /** Closing does not cancel a retry that is waiting: from then on the dials made and the
      timers still armed make up what was armed, so there is at most one dial more, and none
      if and only if no retry was waiting or it never fires. */
  lemma {:induction false} ClosedDialsWhatWaited(conns: seq<Conn>, events: seq<Event>, a: nat, b: nat)
    requires IsRun(conns, events) && a < b < |conns| && !conns[a].closed && events[a] == CallerCloses
    ensures conns[b].closed && IdsOk(conns[b])
    ensures DialsIn(conns, events, a, b) + |conns[b].timers| == |conns[a].timers| <= 1
  {
    var c, e := OneMoreStep(conns, events, a, b);
    if b == a + 1 {
      RunKeepsInv(conns, events, a);
      CloseDialsNothing(c);
    } else {
      ClosedDialsWhatWaited(conns, events, a, b - 1);
      ClosedStep(c, e);
    }
  }

  /** Two events after which it does dial: the first connection fails, and the caller closes. */
  lemma CloseMissesTheRetry()
    ensures var c := Next(Next(Connect(), OnClose(0)), CallerCloses);
            c.closed && Enabled(c, TimerFires(1)) && |Next(c, TimerFires(1)).sockets| == 1
  {
    var c := Next(Next(Connect(), OnClose(0)), CallerCloses);
    assert Next(c, TimerFires(1)).sockets.Keys == {c.nextId};
    assert |Next(c, TimerFires(1)).sockets.Keys| == 1;
  }

  // ------------------------------------------------------------------ the object

  /** The closure's variables, with the browser's sockets and timers. */
  class Connection {
    var state: RaceState
    var sockets: map<nat, Socket>
    var timers: map<nat, int>
    var nextId: nat
    var closed: bool
    var backoff: int
    var attempted: bool
    var attempts: nat
    var exhausted: bool
    var status: Status
    ghost var dials: nat
    ghost var delay: int

    ghost function View(): Conn
      reads this
    {
      Conn(state, sockets, timers, nextId, closed, backoff, attempted, attempts, exhausted, status, dials, delay)
    }

    constructor ()
      ensures View() == Connect()
    {
      state, sockets, timers, nextId := EmptyState(), map[], map[], 0;
      closed, backoff, attempted, attempts, exhausted, status := false, 500, false, 0, false, Connecting;
      dials, delay := 0, 0;
      new;
      Open();
    }

    method Open()
      modifies this
      ensures View() == Dial(old(View()))
    {
      if !attempted {
        attempted := true;
        status := Connecting;
      }
      sockets := sockets[nextId := Socket(Dialling, false)];
      nextId := nextId + 1;
      dials := dials + 1;
    }

    method HandleOpen(id: nat)
      requires Enabled(View(), OnOpen(id))
      modifies this
      ensures View() == Next(old(View()), OnOpen(id))
    {
      sockets := sockets[id := sockets[id].(phase := Opened)];
      backoff := 500;
      status := Connecting;
    }

    method HandleMessage(id: nat, msg: Option<Msg>)
      requires Enabled(View(), OnMessage(id, msg))
      modifies this
      ensures View() == Next(old(View()), OnMessage(id, msg))
    {
      if msg.None? { return; }
      state := ApplyMessage(state, msg.value);
      if !sockets[id].live {
        sockets := sockets[id := sockets[id].(live := true)];
        attempts := 0;
        status := Live;
        dials, delay := 1, 0;
      }
    }

    method HandleClose(id: nat)
      requires Enabled(View(), OnClose(id))
      modifies this
      ensures View() == Next(old(View()), OnClose(id))
    {
      sockets := sockets - {id};
      if closed { return; }
      attempts := attempts + 1;
      if attempts > MAX_RECONNECT_ATTEMPTS {
        exhausted := true;
        status := Offline;
        return;
      }
      status := Reconnecting;
      timers := timers[nextId := backoff];
      nextId := nextId + 1;
      delay := delay + backoff;
      backoff := if backoff * 2 < 8000 then backoff * 2 else 8000;
    }

    method HandleError(id: nat)
      requires Enabled(View(), OnError(id))
      modifies this
      ensures View() == Next(old(View()), OnError(id))
    {
      if closed { return; }
      sockets := CloseSockets(sockets);
    }

    method HandleTimer(id: nat)
      requires Enabled(View(), TimerFires(id))
      modifies this
      ensures View() == Next(old(View()), TimerFires(id))
    {
      timers := timers - {id};
      Open();
    }

    method PressRetry()
      modifies this
      ensures View() == Next(old(View()), Retry)
    {
      if closed || !exhausted { return; }
      exhausted := false;
      attempts := 0;
      backoff := 500;
      status := Reconnecting;
      dials, delay := 0, 0;
      Open();
    }

    method CloseByCaller()
      modifies this
      ensures View() == Next(old(View()), CallerCloses)
    {
      closed := true;
      sockets := CloseSockets(sockets);
    }
  }

  // ------------------------------------------------------------------ what is shown

  /** The readable messages among the events, in order. */
  function Readable(events: seq<Event>): seq<Msg> {
    if events == [] then []
    else
      var front, last := Readable(events[..|events| - 1]), events[|events| - 1];
      if last.OnMessage? && last.msg.Some? then front + [last.msg.value] else front
  }

  lemma StepState(c: Conn, e: Event)
    requires Enabled(c, e)
    ensures Next(c, e).state
            == if e.OnMessage? && e.msg.Some? then ApplyMessage(c.state, e.msg.value) else c.state
  {
  }

  lemma BrowserSnoc(msgs: seq<Msg>, m: Msg)
    ensures Browser(msgs + [m]) == ApplyMessage(Browser(msgs), m)
  {
    assert (msgs + [m])[..|msgs|] == msgs;
  }

  lemma ReadableSnoc(events: seq<Event>, i: nat)
    requires 0 < i <= |events|
    ensures var e, front := events[i - 1], Readable(events[..i - 1]);
            Readable(events[..i]) == if e.OnMessage? && e.msg.Some? then front + [e.msg.value] else front
  {
    assert events[..i][..i - 1] == events[..i - 1];
  }

  /** The state handed to the page is that of every readable message so far, in order, whatever
      connections they came over and whatever else happened. */
  lemma {:induction false} StateIsMessages(conns: seq<Conn>, events: seq<Event>, i: nat)
    requires IsRun(conns, events) && i < |conns|
    ensures conns[i].state == Browser(Readable(events[..i]))
  {
    if i > 0 {
      StateIsMessages(conns, events, i - 1);
      var e := events[i - 1];
      StepState(conns[i - 1], e);
      ReadableSnoc(events, i);
      if e.OnMessage? && e.msg.Some? { BrowserSnoc(Readable(events[..i - 1]), e.msg.value); }
    }
  }

  // ------------------------------------------------------------------ what each event leaves

  /** The event makes a socket of this number. */
  predicate Makes(c: Conn, e: Event, id: nat)
    requires Enabled(c, e)
  {
    id == c.nextId && (e.TimerFires? || (e.Retry? && !c.closed && c.exhausted))
  }

  /** Which sockets there are, and how far each is. */
  lemma SocketFields(c: Conn, e: Event, id: nat)
    requires Enabled(c, e)
    ensures id in Next(c, e).sockets <==> Makes(c, e, id) || (id in c.sockets && e != OnClose(id))
    ensures id in Next(c, e).sockets ==>
              var s' := Next(c, e).sockets[id];
              if Makes(c, e, id) then s' == Socket(Dialling, false)
              else
                && (s'.live <==> c.sockets[id].live || (e.OnMessage? && e.id == id && e.msg.Some?))
                && s'.phase == (if e.CallerCloses? || (e.OnError? && !c.closed) then Closing
                                else if e == OnOpen(id) then Opened else c.sockets[id].phase)
  {
  }

  /** What the page is told, event by event: connecting again once a socket opens, live from a
      connection's first readable message, reconnecting or offline once it is gone. */
  lemma StatusFields(c: Conn, e: Event)
    requires Enabled(c, e) && c.attempted
    ensures Next(c, e).status
            == match e
               case OnOpen(_) => Connecting
               case OnMessage(id, msg) => if msg.Some? && !c.sockets[id].live then Live else c.status
               case OnClose(_) =>
                 if c.closed then c.status else if c.attempts >= 20 then Offline else Reconnecting
               case Retry => if !c.closed && c.exhausted then Reconnecting else c.status
               case _ => c.status
    ensures Next(c, e).attempted
  {
  }

  // ------------------------------------------------------------------ a socket told to close

  /** Socket id is closing or gone, and its number is used up. */
  ghost predicate Quiet(c: Conn, id: nat) {
    id < c.nextId && (id in c.sockets ==> c.sockets[id].phase.Closing?)
  }

  lemma StaysQuiet(c: Conn, e: Event, id: nat)
    requires Enabled(c, e) && Quiet(c, id)
    ensures Quiet(Next(c, e), id)
    ensures !e.OnOpen? || e.id != id
    ensures !e.OnMessage? || e.id != id
  {
  }

  lemma {:induction false} IdsInOrder(conns: seq<Conn>, events: seq<Event>, i: nat)
    requires IsRun(conns, events) && i < |conns|
    ensures forall id :: id in conns[i].sockets ==> id < conns[i].nextId
  {
    if i > 0 {
      IdsInOrder(conns, events, i - 1);
      assert Enabled(conns[i - 1], events[i - 1]);
    }
  }

  /** Once the caller has closed, or an error is met before that, no socket then held ever opens
      or delivers again. */
  lemma {:induction false} ClosedSocketsAreQuiet(conns: seq<Conn>, events: seq<Event>, i: nat, j: nat, id: nat)
    requires IsRun(conns, events) && i < j <= |events| && id in conns[i].sockets
    requires events[i].CallerCloses? || (events[i].OnError? && !conns[i].closed)
    ensures Quiet(conns[j], id)
    ensures j < |events| ==> !(events[j].OnOpen? && events[j].id == id) && !(events[j].OnMessage? && events[j].id == id)
    decreases j
  {
    IdsInOrder(conns, events, i);
    if i + 1 < j {
      ClosedSocketsAreQuiet(conns, events, i, j - 1, id);
      StaysQuiet(conns[j - 1], events[j - 1], id);
    } else {
      assert conns[j] == Next(conns[i], events[i]);
    }
    if j < |events| { StaysQuiet(conns[j], events[j], id); }
  }
}
