/** The fan-out hub (internal/ws/hub.go, internal/ws/client.go, internal/ws/frame.go).

    `HubView` is the hub as a value; its steps are what one critical section, or one turn of
    a client's write loop, does. The classes `Client` and `Hub` are the objects, whose
    methods are proved to make exactly those steps. Two things are recorded that the
    program does not keep: what a client has been sent so far, and whether a send to it (into
    the queue or onto the socket) has ever failed. */
module HubFanout {
  import opened Model
  import opened Reducer

  const SEND_BUFFER: nat := 64

  datatype ClientView = ClientView(out: seq<Msg>, delivered: seq<Msg>, failed: bool, closed: bool)

  datatype HubView<!K> = HubView(snap: Snap, clients: map<K, ClientView>)

  // ------------------------------------------------------------------ steps

  function Send(c: ClientView, m: Msg): ClientView {
    if |c.out| < SEND_BUFFER then c.(out := c.out + [m]) else c.(failed := true)
  }

  function Broadcast<K>(clients: map<K, ClientView>, m: Msg): map<K, ClientView> {
    map k | k in clients :: Send(clients[k], m)
  }

  /** The encoder refuses a zero-value frame. */
  predicate Refused(f: Frame) {
    f.rev == 0 && f.cars == []
  }

  function ApplyStep<K>(h: HubView<K>, f: Frame): HubView<K> {
    if f.rev <= h.snap.rev then h
    else if Refused(f) then h.(snap := ApplyFrame(h.snap, f))
    else HubView(ApplyFrame(h.snap, f), Broadcast(h.clients, FrameMsg(f)))
  }

  function ResetStep<K>(h: HubView<K>, s: Snap): HubView<K> {
    HubView(s, Broadcast(h.clients, SnapshotMsg(s)))
  }

  function NewClient(s: Snap): ClientView {
    ClientView([SnapshotMsg(s)], [], false, false)
  }

  function RegisterStep<K>(h: HubView<K>, k: K): HubView<K> {
    h.(clients := h.clients[k := NewClient(h.snap)])
  }

  function DeliverOne(c: ClientView): ClientView
    requires c.out != []
  {
    c.(out := c.out[1..], delivered := c.delivered + [c.out[0]])
  }

  /** The socket write failed: the message is gone and the client closes itself. */
  function LoseOne(c: ClientView): ClientView
    requires c.out != []
  {
    c.(out := c.out[1..], failed := true, closed := true)
  }

  datatype Step<!K> =
    | ApplyFrames(f: Frame)
    | Reset(s: Snap)
    | Register(k: K)
    | Unregister(k: K)
    | Deliver(k: K)
    | LoseWrite(k: K)
    | Close(k: K)

  /** A registering client is fresh; the others must exist; delivery needs something queued. */
  predicate Enabled<K>(h: HubView<K>, step: Step<K>) {
    match step
    case ApplyFrames(f) => true
    case Reset(s) => s.rev >= 0
    case Register(k) => k !in h.clients
    case Unregister(k) => k in h.clients
    case Deliver(k) => k in h.clients && h.clients[k].out != []
    case LoseWrite(k) => k in h.clients && h.clients[k].out != []
    case Close(k) => k in h.clients
  }

  function Next<K>(h: HubView<K>, step: Step<K>): HubView<K>
    requires Enabled(h, step)
  {
    match step
    case ApplyFrames(f) => ApplyStep(h, f)
    case Reset(s) => ResetStep(h, s)
    case Register(k) => RegisterStep(h, k)
    case Unregister(k) => h.(clients := h.clients - {k})
    case Deliver(k) => h.(clients := h.clients[k := DeliverOne(h.clients[k])])
    case LoseWrite(k) => h.(clients := h.clients[k := LoseOne(h.clients[k])])
    case Close(k) => h.(clients := h.clients[k := h.clients[k].(closed := true)])
  }

  ghost predicate IsRun<K>(states: seq<HubView<K>>, steps: seq<Step<K>>) {
    && |states| == |steps| + 1
    && states[0].snap.rev >= 0 && states[0].clients == map[]
    && forall i :: 0 <= i < |steps| ==> Enabled(states[i], steps[i]) && states[i + 1] == Next(states[i], steps[i])
  }

  // ------------------------------------------------------------------ the client's view

  /** What a client that receives `msgs` in order ends up holding: nothing before its first
      snapshot. */
  function Received(msgs: seq<Msg>): Option<Snap> {
    if msgs == [] then None
    else
      var before := Received(msgs[..|msgs| - 1]);
      match msgs[|msgs| - 1]
      case SnapshotMsg(s) => Some(s)
      case FrameMsg(f) => if before.None? then None else Some(ApplyFrame(before.value, f))
  }

  ghost predicate MsgAgrees(msgs: seq<Msg>, k: nat)
    requires k < |msgs|
  {
    msgs[k].SnapshotMsg? ||
    (Received(msgs[..k]).Some? && Agrees(Received(msgs[..k]).value, msgs[k].frame))
  }

  /** Every frame among `msgs` is one both reducers read the same way where it arrives. */
  ghost predicate AgreesAlong(msgs: seq<Msg>) {
    forall k :: 0 <= k < |msgs| ==> MsgAgrees(msgs, k)
  }

  function Stream(c: ClientView): seq<Msg> {
    c.delivered + c.out
  }

  /** Every frame among `msgs` is newer than what its receiver holds when it arrives. */
  ghost predicate NeverStale(msgs: seq<Msg>) {
    msgs != [] ==>
      var front, last := msgs[..|msgs| - 1], msgs[|msgs| - 1];
      NeverStale(front) && (last.FrameMsg? ==> Received(front).Some? && Received(front).value.rev < last.frame.rev)
  }

  lemma {:induction false} AgreesAlongSnoc(msgs: seq<Msg>, m: Msg)
    ensures AgreesAlong(msgs + [m]) <==>
            AgreesAlong(msgs) && (m.SnapshotMsg? || (Received(msgs).Some? && Agrees(Received(msgs).value, m.frame)))
  {
    var all := msgs + [m];
    assert all[..|msgs|] == msgs && all[|msgs|] == m;
    forall k | 0 <= k < |msgs| ensures MsgAgrees(all, k) == MsgAgrees(msgs, k) {
      assert all[..k] == msgs[..k];
    }
    assert MsgAgrees(all, |msgs|) ==
                                   (m.SnapshotMsg? || (Received(msgs).Some? && Agrees(Received(msgs).value, m.frame)));
  }

  /** Where the reducers agree along a stream, the browser holds what the server folds. */
  lemma {:induction false} BrowserMatchesReceived(msgs: seq<Msg>)
    requires msgs != [] && AgreesAlong(msgs)
    ensures Received(msgs) == Some(Shared(Browser(msgs)))
  {
    var n := |msgs| - 1;
    var front, last := msgs[..n], msgs[n];
    assert front + [last] == msgs;
    AgreesAlongSnoc(front, last);
    if last.FrameMsg? {
      BrowserMatchesReceived(front);
      StepAgreement(Browser(front), last.frame);
    }
  }

  // ------------------------------------------------------------------ the invariant

  ghost predicate ClientOk(c: ClientView, snap: Snap) {
    && |c.out| <= SEND_BUFFER
    && (!c.failed ==> Received(Stream(c)) == Some(snap) && NeverStale(Stream(c)))
  }

  ghost predicate Inv<K>(h: HubView<K>) {
    && h.snap.rev >= 0
    && forall k :: k in h.clients ==> ClientOk(h.clients[k], h.snap)
  }

  lemma SendKeepsUp(c: ClientView, before: Snap, m: Msg, now: Snap)
    requires ClientOk(c, before)
    requires m == SnapshotMsg(now) || (m.FrameMsg? && before.rev < m.frame.rev && now == ApplyFrame(before, m.frame))
    ensures ClientOk(Send(c, m), now)
  {
    if |c.out| < SEND_BUFFER {
      assert Stream(Send(c, m)) == Stream(c) + [m];
    }
  }

  lemma NewClientOk(snap: Snap)
    ensures ClientOk(NewClient(snap), snap)
  {
    assert Stream(NewClient(snap)) == [] + [SnapshotMsg(snap)];
  }

  lemma StepKeepsInv<K>(h: HubView<K>, step: Step<K>)
    requires Inv(h) && Enabled(h, step)
    ensures Inv(Next(h, step))
  {
    var h' := Next(h, step);
    forall k | k in h'.clients ensures ClientOk(h'.clients[k], h'.snap) {
      match step
      case ApplyFrames(f) =>
        if h.snap.rev < f.rev { SendKeepsUp(h.clients[k], h.snap, FrameMsg(f), h'.snap); }
      case Reset(s) =>
        SendKeepsUp(h.clients[k], h.snap, SnapshotMsg(s), s);
      case Register(j) =>
        if k == j { NewClientOk(h.snap); }
      case Unregister(j) =>
      case Deliver(j) =>
        if k == j { assert Stream(DeliverOne(h.clients[k])) == Stream(h.clients[k]); }
      case LoseWrite(j) =>
      case Close(j) =>
        if k == j { assert Stream(h'.clients[k]) == Stream(h.clients[k]); }
    }
  }

  lemma {:induction false} RunKeepsInv<K>(states: seq<HubView<K>>, steps: seq<Step<K>>, i: nat)
    requires IsRun(states, steps) && i < |states|
    ensures Inv(states[i])
  {
    if i > 0 {
      RunKeepsInv(states, steps, i - 1);
      StepKeepsInv(states[i - 1], steps[i - 1]);
    }
  }

  /** In every reachable state, whatever mix of registrations, frames, resets, deliveries,
      closes and overflows led there: no queue is longer than 64, and a client none of whose
      sends failed holds, once its queue is drained, exactly the hub's snapshot. */
  lemma ClientsConverge<K>(states: seq<HubView<K>>, steps: seq<Step<K>>, i: nat, k: K)
    requires IsRun(states, steps) && i < |states| && k in states[i].clients
    ensures |states[i].clients[k].out| <= SEND_BUFFER
    ensures !states[i].clients[k].failed ==> Received(Stream(states[i].clients[k])) == Some(states[i].snap)
  {
    RunKeepsInv(states, steps, i);
  }

  /** In every run, a frame that moves the hub's snapshot is sent to every client: the
      encoder's refusal never costs one. */
  lemma AppliedIsBroadcast<K>(states: seq<HubView<K>>, steps: seq<Step<K>>, i: nat)
    requires IsRun(states, steps) && i < |steps| && steps[i].ApplyFrames?
    ensures states[i + 1] == if steps[i].f.rev <= states[i].snap.rev then states[i]
                             else HubView(ApplyFrame(states[i].snap, steps[i].f),
                                          Broadcast(states[i].clients, FrameMsg(steps[i].f)))
  {
    RunKeepsInv(states, steps, i);
    assert states[i + 1] == Next(states[i], steps[i]);
  }

  // ------------------------------------------------------------------ the browser too

  lemma {:induction false} BrowserRev(msgs: seq<Msg>)
    ensures Received(msgs).Some? ==> Browser(msgs).rev == Received(msgs).value.rev
  {
    if msgs != [] { BrowserRev(msgs[..|msgs| - 1]); }
  }

  lemma {:induction false} NeverStaleAt(msgs: seq<Msg>, n: nat)
    requires NeverStale(msgs) && n < |msgs| && msgs[n].FrameMsg?
    ensures Received(msgs[..n]).Some? && Received(msgs[..n]).value.rev < msgs[n].frame.rev
  {
    if n < |msgs| - 1 {
      NeverStaleAt(msgs[..|msgs| - 1], n);
      assert msgs[..|msgs| - 1][..n] == msgs[..n];
    }
  }

  /** In every reachable state, for a client none of whose sends failed: the browser takes
      every frame it was ever sent. None is stale to it, across resets, switches and
      restarts. */
  lemma NoBrowserRejectsAFrame<K>(states: seq<HubView<K>>, steps: seq<Step<K>>, i: nat, k: K, n: nat)
    requires IsRun(states, steps) && i < |states| && k in states[i].clients && !states[i].clients[k].failed
    requires n < |Stream(states[i].clients[k])| && Stream(states[i].clients[k])[n].FrameMsg?
    ensures var msgs := Stream(states[i].clients[k]);
            Browser(msgs[..n]).rev < msgs[n].frame.rev && Browser(msgs[..n + 1]).rev == msgs[n].frame.rev
  {
    RunKeepsInv(states, steps, i);
    var msgs := Stream(states[i].clients[k]);
    NeverStaleAt(msgs, n);
    BrowserRev(msgs[..n]);
    assert msgs[..n + 1][..n] == msgs[..n];
  }

  /** Every frame the hub applied in the run is one both reducers read the same way. */
  ghost predicate AllAgree<K>(states: seq<HubView<K>>, steps: seq<Step<K>>)
    requires |states| == |steps| + 1
  {
    forall i :: 0 <= i < |steps| && steps[i].ApplyFrames? ==> Agrees(states[i].snap, steps[i].f)
  }

  lemma StepKeepsAgreement<K>(h: HubView<K>, step: Step<K>, k: K)
    requires Inv(h) && Enabled(h, step)
    requires step.ApplyFrames? ==> Agrees(h.snap, step.f)
    requires k in Next(h, step).clients && !Next(h, step).clients[k].failed
    requires k in h.clients && !h.clients[k].failed ==> AgreesAlong(Stream(h.clients[k]))
    ensures AgreesAlong(Stream(Next(h, step).clients[k]))
  {
    var c' := Next(h, step).clients[k];
    if k in h.clients {
      var c := h.clients[k];
      match step
      case ApplyFrames(f) =>
        if h.snap.rev < f.rev {
          assert Stream(c') == Stream(c) + [FrameMsg(f)];
          AgreesAlongSnoc(Stream(c), FrameMsg(f));
        }
      case Reset(s) =>
        assert Stream(c') == Stream(c) + [SnapshotMsg(s)];
        AgreesAlongSnoc(Stream(c), SnapshotMsg(s));
      case _ =>
        assert Stream(c') == Stream(c);
    } else {
      assert Stream(c') == [] + [SnapshotMsg(h.snap)];
      AgreesAlongSnoc([], SnapshotMsg(h.snap));
    }
  }

  lemma {:induction false} RunKeepsAgreement<K>(states: seq<HubView<K>>, steps: seq<Step<K>>, i: nat, k: K)
    requires IsRun(states, steps) && AllAgree(states, steps)
    requires i < |states| && k in states[i].clients && !states[i].clients[k].failed
    ensures AgreesAlong(Stream(states[i].clients[k]))
  {
    if i > 0 {
      if k in states[i - 1].clients && !states[i - 1].clients[k].failed {
        RunKeepsAgreement(states, steps, i - 1, k);
      }
      RunKeepsInv(states, steps, i - 1);
      StepKeepsAgreement(states[i - 1], steps[i - 1], k);
    }
  }

  /** End to end: if the hub applied only frames both reducers agree on, the browser behind
      every client with no failed send shows the hub's snapshot once its queue is empty. */
  lemma BrowsersConverge<K>(states: seq<HubView<K>>, steps: seq<Step<K>>, i: nat, k: K)
    requires IsRun(states, steps) && AllAgree(states, steps)
    requires i < |states| && k in states[i].clients
    requires !states[i].clients[k].failed && states[i].clients[k].out == []
    ensures Shared(Browser(states[i].clients[k].delivered)) == states[i].snap
  {
    var c := states[i].clients[k];
    RunKeepsAgreement(states, steps, i, k);
    ClientsConverge(states, steps, i, k);
    assert Stream(c) == c.delivered;
    if c.delivered != [] { BrowserMatchesReceived(c.delivered); }
  }

  // ------------------------------------------------------------------ the objects

  /** One connected browser: a bounded queue and a one-shot closed flag. */
  class Client {
    var out: seq<Msg>
    var closed: bool
    ghost var delivered: seq<Msg>
    ghost var failed: bool

    ghost function View(): ClientView
      reads this
    {
      ClientView(out, delivered, failed, closed)
    }

    constructor ()
      ensures View() == ClientView([], [], false, false)
    {
      out, closed, delivered, failed := [], false, [], false;
    }

    /** Queues m, or reports that the queue is full. */
    method TrySend(m: Msg) returns (ok: bool)
      modifies this
      ensures View() == Send(old(View()), m)
      ensures ok <==> |old(out)| < 64
      ensures out == if ok then old(out) + [m] else old(out)
      ensures delivered == old(delivered) && closed == old(closed) && (failed <==> old(failed) || !ok)
    {
      if |out| < SEND_BUFFER {
        out := out + [m];
        return true;
      }
      failed := true;
      return false;
    }

    method Close()
      modifies this
      ensures View() == old(View()).(closed := true)
      ensures closed && out == old(out) && delivered == old(delivered) && failed == old(failed)
    {
      closed := true;
    }

    /** One turn of the write loop whose socket write succeeds or fails. */
    method WriteOne(ok: bool) returns (m: Msg)
      requires out != []
      modifies this
      ensures m == old(out)[0]
      ensures View() == if ok then DeliverOne(old(View())) else LoseOne(old(View()))
      ensures out == old(out)[1..] && delivered == old(delivered) + (if ok then [m] else [])
      ensures (failed <==> old(failed) || !ok) && (closed <==> old(closed) || !ok)
    {
      m := out[0];
      out := out[1..];
      if ok {
        delivered := delivered + [m];
      } else {
        failed := true;
        Close();
      }
    }
  }

  function CloseAllOf<K>(clients: map<K, ClientView>, stale: set<K>): map<K, ClientView> {
    map k | k in clients :: if k in stale then clients[k].(closed := true) else clients[k]
  }

  function FullClients<K>(clients: map<K, ClientView>): set<K> {
    set k | k in clients && |clients[k].out| >= SEND_BUFFER
  }

  /** The hub after a frame and after a reset, the clients they could not reach closed. */
  ghost function AfterApply<K>(h: HubView<K>, f: Frame): HubView<K> {
    var h' := ApplyStep(h, f);
    if f.rev <= h.snap.rev || Refused(f) then h' else h'.(clients := CloseAllOf(h'.clients, FullClients(h.clients)))
  }

  ghost function AfterReset<K>(h: HubView<K>, s: Snap): HubView<K> {
    HubView(s, CloseAllOf(ResetStep(h, s).clients, FullClients(h.clients)))
  }

  /** A client that is sent a message, if any: it is queued, or the client is closed for a queue
      of 64 that has no room. */
  ghost predicate Heard(c: ClientView, c': ClientView, m: Option<Msg>) {
    var full := m.Some? && |c.out| >= 64;
    && c'.out == (if m.Some? && !full then c.out + [m.value] else c.out) && c'.delivered == c.delivered
    && (c'.closed <==> c.closed || full) && (c'.failed <==> c.failed || full)
  }

  /** h' is reached from h by these steps. */
  ghost predicate Reaches<K>(h: HubView<K>, steps: seq<Step<K>>, h': HubView<K>)
    decreases |steps|
  {
    if steps == [] then h' == h else Enabled(h, steps[0]) && Reaches(Next(h, steps[0]), steps[1..], h')
  }

  /** Closing any set of clients, after the lock is released, is a run of single closes. */
  lemma {:induction false} CloseAllIsARun<K>(h: HubView<K>, stale: set<K>) returns (steps: seq<Step<K>>)
    requires stale <= h.clients.Keys
    ensures Reaches(h, steps, h.(clients := CloseAllOf(h.clients, stale)))
    ensures forall step :: step in steps ==> step.Close?
    decreases |stale|
  {
    if stale == {} {
      assert CloseAllOf(h.clients, stale) == h.clients;
      steps := [];
    } else {
      var k :| k in stale;
      var h' := Next(h, Close(k));
      var rest := CloseAllIsARun(h', stale - {k});
      assert CloseAllOf(h'.clients, stale - {k}) == CloseAllOf(h.clients, stale);
      steps := [Close(k)] + rest;
    }
  }

  /** What the hub object does for one frame is one fan-out step and then closes. */
  lemma ApplyIsARun<K>(h: HubView<K>, f: Frame) returns (steps: seq<Step<K>>)
    ensures Reaches(h, steps, AfterApply(h, f))
    ensures steps != [] && steps[0] == ApplyFrames(f) && forall i :: 1 <= i < |steps| ==> steps[i].Close?
  {
    var h' := ApplyStep(h, f);
    var closes: seq<Step<K>> := [];
    if f.rev > h.snap.rev && !Refused(f) {
      closes := CloseAllIsARun(h', FullClients(h.clients));
    }
    steps := [ApplyFrames(f)] + closes;
  }

  /** And for a reset to a snapshot with a Rev. */
  lemma ResetIsARun<K>(h: HubView<K>, s: Snap) returns (steps: seq<Step<K>>)
    requires s.rev >= 0
    ensures Reaches(h, steps, AfterReset(h, s))
    ensures steps != [] && steps[0] == Step<K>.Reset(s) && forall i :: 1 <= i < |steps| ==> steps[i].Close?
  {
    var closes := CloseAllIsARun(ResetStep(h, s), FullClients(h.clients));
    steps := [Step<K>.Reset(s)] + closes;
  }

  /** The hub object: the snapshot it owns and the clients it broadcasts to. */
  class Hub {
    var snapshot: Snapshot
    var clients: set<Client>

    ghost function ClientViews(): map<Client, ClientView>
      reads this, clients
    {
      map c | c in clients :: c.View()
    }

    ghost function View(): HubView<Client>
      reads this, snapshot, clients
    {
      HubView(snapshot.View(), ClientViews())
    }

    constructor (initial: Snapshot)
      ensures snapshot == initial && clients == {}
    {
      snapshot, clients := initial, {};
    }

    /** Queues m for every client, returning those whose queue was full. */
    method BroadcastLocked(m: Msg) returns (stale: set<Client>)
      modifies clients
      ensures ClientViews() == Broadcast(old(ClientViews()), m)
      ensures stale == FullClients(old(ClientViews()))
    {
      stale := {};
      var todo := clients;
      while todo != {}
        invariant todo <= clients
        invariant forall c :: c in todo ==> c.View() == old(c.View())
        invariant forall c :: c in clients - todo ==> c.View() == Send(old(c.View()), m)
        invariant stale == set c | c in clients - todo && |old(c.out)| >= SEND_BUFFER
        decreases todo
      {
        var c :| c in todo;
        var ok := c.TrySend(m);
        if !ok { stale := stale + {c}; }
        todo := todo - {c};
      }
    }

    method CloseAll(stale: set<Client>)
      requires stale <= clients
      modifies clients
      ensures ClientViews() == CloseAllOf(old(ClientViews()), stale)
      ensures forall c :: c in clients ==> (c.closed <==> old(c.closed) || c in stale)
    {
      var todo := stale;
      while todo != {}
        invariant todo <= stale
        invariant forall c :: c in clients && (c in todo || c !in stale) ==> c.View() == old(c.View())
        invariant forall c :: c in stale - todo ==> c.View() == old(c.View()).(closed := true)
        decreases todo
      {
        var c :| c in todo;
        c.Close();
        todo := todo - {c};
      }
    }

    /** A broadcast, and the closing of the clients it could not reach. */
    method SendAndClose(m: Msg)
      modifies clients
      ensures ClientViews() == CloseAllOf(Broadcast(old(ClientViews()), m), FullClients(old(ClientViews())))
      ensures forall c :: c in clients ==> Heard(old(c.View()), c.View(), Some(m))
    {
      ghost var before := ClientViews();
      var stale := BroadcastLocked(m);
      assert ClientViews() == Broadcast(before, m);
      CloseAll(stale);
      assert forall c :: c in clients ==> c.View() == ClientViews()[c];
    }

    /** Folds f in and broadcasts it; the clients it could not reach are closed once the
        lock is released. */
    method ApplyFrame(f: Frame) returns (applied: bool)
      modifies this, snapshot, clients
      ensures clients == old(clients) && snapshot == old(snapshot)
      ensures applied <==> old(snapshot.rev) < f.rev && !Refused(f)
      ensures View() == AfterApply(old(View()), f)
      ensures forall c :: c in clients ==> Heard(old(c.View()), c.View(), if applied then Some(FrameMsg(f)) else None)
    {
      ghost var before := ClientViews();
      var folded := snapshot.Apply(f);
      assert ClientViews() == before;
      if !folded { return false; }
      if f.rev == 0 && |f.cars| == 0 { return false; }
      SendAndClose(FrameMsg(f));
      return true;
    }

    /** Queues the snapshot as the client's first message and adds it to the broadcast set
        in one critical section. */
    method Register(c: Client)
      requires c !in clients && c.View() == ClientView([], [], false, false)
      modifies this, c
      ensures snapshot == old(snapshot) && View() == RegisterStep(old(View()), c)
      ensures clients == old(clients) + {c} && c.out == [SnapshotMsg(snapshot.View())]
    {
      c.out := c.out + [SnapshotMsg(snapshot.Encode())];
      clients := clients + {c};
      assert c.View() == NewClient(snapshot.View());
      assert forall d :: d in old(clients) ==> d.View() == old(d.View());
    }

    /** Takes the client out of the broadcast set, and no other; none if it is not there. */
    method Unregister(c: Client)
      modifies `clients
      ensures clients == old(clients) - {c}
      ensures forall d :: d in clients ==> d.View() == old(d.View())
      ensures c in old(clients) ==> View() == Next(old(View()), Step<Client>.Unregister(c))
    {
      clients := clients - {c};
    }

    /** Swaps the snapshot wholesale, whatever its Rev, and sends it to every client. */
    method Reset(s: Snapshot)
      modifies this, clients
      ensures clients == old(clients) && snapshot == s
      ensures View() == AfterReset(old(View()), old(s.View()))
      ensures forall c :: c in clients ==> Heard(old(c.View()), c.View(), Some(SnapshotMsg(old(s.View()))))
    {
      ghost var before := ClientViews();
      snapshot := s;
      assert ClientViews() == before;
      SendAndClose(SnapshotMsg(s.Encode()));
    }
  }
}
