/** Who is in a hub's broadcast set and what becomes of each client (internal/ws/hub.go,
    internal/ws/client.go, internal/ws/handler.go), read off the steps that name it and the
    broadcasts that reach it. */
module HubClients {
  import opened Model
  import opened Reducer
  import opened HubFanout

  // ------------------------------------------------------------------ one step

  /** A step changes the broadcast set by the client it registers or unregisters, and by no
      other. */
  lemma StepMembers<K>(h: HubView<K>, step: Step<K>, j: K)
    requires Enabled(h, step)
    ensures j in Next(h, step).clients
            <==> step == Step<K>.Register(j) || (j in h.clients && step != Step<K>.Unregister(j))
  {
  }

  /** What a step sends to every client: a frame that moves the snapshot, unless it is the
      zero-value frame, or the snapshot of a reset. */
  function Sent<K>(h: HubView<K>, step: Step<K>): Option<Msg> {
    match step
    case ApplyFrames(f) => if h.snap.rev < f.rev && (f.rev != 0 || f.cars != []) then Some(FrameMsg(f)) else None
    case Reset(s) => Some(SnapshotMsg(s))
    case _ => None
  }

  /** A newcomer has its first snapshot queued and nothing else. */
  lemma NewcomerFields<K>(h: HubView<K>, k: K)
    requires k !in h.clients
    ensures var c := Next(h, Step<K>.Register(k)).clients[k];
            c.out == [SnapshotMsg(h.snap)] && c.delivered == [] && !c.failed && !c.closed
  {
  }

  /** A client that stays: what is queued, delivered, closed and failed, one by one. */
  lemma StepFields<K>(h: HubView<K>, step: Step<K>, j: K)
    requires Enabled(h, step) && j in h.clients && j in Next(h, step).clients && |h.clients[j].out| <= 64
    ensures var c, c' := h.clients[j], Next(h, step).clients[j];
            var takes := step == Step<K>.Deliver(j) || step == Step<K>.LoseWrite(j);
            && c'.out == (if takes then c.out[1..]
                          else if Sent(h, step).Some? && |c.out| < 64 then c.out + [Sent(h, step).value]
                          else c.out)
            && c'.delivered == c.delivered + (if step == Step<K>.Deliver(j) then [c.out[0]] else [])
            && (c'.closed <==> c.closed || step == Step<K>.Close(j) || step == Step<K>.LoseWrite(j))
            && (c'.failed <==> c.failed || step == Step<K>.LoseWrite(j) || (Sent(h, step).Some? && |c.out| == 64))
  {
  }

  // ------------------------------------------------------------------ whole runs

  /** The frames a stretch of steps hands to the hub, in order. */
  function FramesIn<K>(steps: seq<Step<K>>, a: nat, i: nat): seq<Frame>
    requires a <= i <= |steps|
  {
    if a == i then []
    else if steps[i - 1].ApplyFrames? then FramesIn(steps, a, i - 1) + [steps[i - 1].f]
    else FramesIn(steps, a, i - 1)
  }

  lemma StepSnapshot<K>(h: HubView<K>, step: Step<K>)
    requires Enabled(h, step) && !step.Reset?
    ensures Next(h, step).snap == if step.ApplyFrames? then ApplyFrame(h.snap, step.f) else h.snap
  {
  }

  /** Where a stretch of steps begins: the snapshot just switched to, or the one held. */
  function Begins<K>(h: HubView<K>, steps: seq<Step<K>>, a: nat): Snap
    requires a <= |steps|
  {
    if a > 0 && steps[a - 1].Reset? then steps[a - 1].s else h.snap
  }

  /** The hub's snapshot is the fold of the frames it was handed over the snapshot it last
      switched to, or started from; clients come and go without moving it. */
  lemma {:induction false} SnapshotIsFold<K>(states: seq<HubView<K>>, steps: seq<Step<K>>, a: nat, i: nat)
    requires IsRun(states, steps) && a <= i <= |steps|
    requires forall b :: a <= b < i ==> !steps[b].Reset?
    ensures states[i].snap == Fold(Begins(states[a], steps, a), FramesIn(steps, a, i))
  {
    if a < i {
      SnapshotIsFold(states, steps, a, i - 1);
      StepSnapshot(states[i - 1], steps[i - 1]);
      if steps[i - 1].ApplyFrames? {
        FoldSnoc(Begins(states[a], steps, a), FramesIn(steps, a, i - 1), steps[i - 1].f);
      }
    }
  }

  /** k has not unregistered from step a on. */
  ghost predicate Stays<K>(steps: seq<Step<K>>, a: nat, i: nat, k: K) {
    forall b :: a <= b < i && b < |steps| ==> steps[b] != Step<K>.Unregister(k)
  }

  /** In every run a client is in the broadcast set if and only if it registered and has not
      unregistered since. */
  lemma {:induction false} InBroadcastIff<K>(states: seq<HubView<K>>, steps: seq<Step<K>>, i: nat, k: K)
    requires IsRun(states, steps) && i < |states|
    ensures k in states[i].clients
            <==> exists a :: 0 <= a < i && steps[a] == Step<K>.Register(k) && Stays(steps, a, i, k)
  {
    if i > 0 {
      InBroadcastIff(states, steps, i - 1, k);
      StepMembers(states[i - 1], steps[i - 1], k);
      var leaves := steps[i - 1] == Step<K>.Unregister(k);
      assert forall a :: 0 <= a < i ==> (Stays(steps, a, i, k) <==> Stays(steps, a, i - 1, k) && !leaves);
      assert Stays(steps, i - 1, i - 1, k);
    }
  }

  /** Step a closes client k. */
  ghost predicate Closes<K>(steps: seq<Step<K>>, a: nat, k: K) {
    a < |steps| && (steps[a] == Step<K>.Close(k) || steps[a] == Step<K>.LoseWrite(k))
  }

  /** Step a finds client k's queue full, or loses a message on the socket. */
  ghost predicate Fails<K>(states: seq<HubView<K>>, steps: seq<Step<K>>, a: nat, k: K) {
    && a < |steps| && a < |states| && k in states[a].clients
    && (steps[a] == Step<K>.LoseWrite(k) || (Sent(states[a], steps[a]).Some? && |states[a].clients[k].out| == 64))
  }

  /** What holds of a stretch up to now is what held one step ago, or is the last step. */
  lemma Onward<K>(states: seq<HubView<K>>, steps: seq<Step<K>>, i: nat, k: K)
    requires 0 < i <= |steps| && steps[i - 1] != Step<K>.Unregister(k)
    ensures (exists a: nat :: a < i && Closes(steps, a, k) && Stays(steps, a, i, k))
            <==> Closes(steps, i - 1, k)
                 || exists a: nat :: a < i - 1 && Closes(steps, a, k) && Stays(steps, a, i - 1, k)
    ensures (exists a: nat :: a < i && Fails(states, steps, a, k) && Stays(steps, a, i, k))
            <==> Fails(states, steps, i - 1, k)
                 || exists a: nat :: a < i - 1 && Fails(states, steps, a, k) && Stays(steps, a, i - 1, k)
  {
    assert forall a: nat :: a < i - 1 ==> (Stays(steps, a, i, k) <==> Stays(steps, a, i - 1, k));
    assert Stays(steps, i - 1, i, k);
  }

  lemma {:induction false} StillIn<K>(states: seq<HubView<K>>, steps: seq<Step<K>>, a: nat, i: nat, k: K)
    requires IsRun(states, steps) && a <= i < |states| && k in states[a].clients
    ensures Stays(steps, a, i, k) ==> k in states[i].clients
  {
    if a < i && Stays(steps, a, i, k) {
      assert Stays(steps, a, i - 1, k);
      StillIn(states, steps, a, i - 1, k);
      StepMembers(states[i - 1], steps[i - 1], k);
    }
  }

  /** Before a client's first step here, or since its last leave, nothing closed or failed it. */
  lemma NeverBefore<K>(states: seq<HubView<K>>, steps: seq<Step<K>>, i: nat, k: K)
    requires IsRun(states, steps) && 0 < i < |states| && k !in states[i - 1].clients
    requires steps[i - 1] == Step<K>.Register(k)
    ensures !exists a: nat :: a < i && Closes(steps, a, k) && Stays(steps, a, i, k)
    ensures !exists a: nat :: a < i && Fails(states, steps, a, k) && Stays(steps, a, i, k)
  {
    forall a: nat | a < i && (Closes(steps, a, k) || Fails(states, steps, a, k)) ensures !Stays(steps, a, i, k) {
      if a < i - 1 {
        assert k in states[a].clients by { assert Enabled(states[a], steps[a]); }
        StillIn(states, steps, a, i - 1, k);
      }
    }
  }

  /** A connected client is closed if and only if it was closed, or a write to it failed, since
      it registered; and a send to it counts as failed if and only if it met a full queue of 64
      or was lost on the socket since. */
  lemma {:induction false} FateIff<K>(states: seq<HubView<K>>, steps: seq<Step<K>>, i: nat, k: K)
    requires IsRun(states, steps) && i < |states| && k in states[i].clients
    ensures states[i].clients[k].closed <==> exists a: nat :: a < i && Closes(steps, a, k) && Stays(steps, a, i, k)
    ensures states[i].clients[k].failed
            <==> exists a: nat :: a < i && Fails(states, steps, a, k) && Stays(steps, a, i, k)
  {
    InBroadcastIff(states, steps, i, k);
    var h, step := states[i - 1], steps[i - 1];
    RunKeepsInv(states, steps, i - 1);
    StepMembers(h, step, k);
    if k in h.clients {
      FateIff(states, steps, i - 1, k);
      assert ClientOk(h.clients[k], h.snap);
      StepFields(h, step, k);
      Onward(states, steps, i, k);
    } else {
      NewcomerFields(h, k);
      NeverBefore(states, steps, i, k);
    }
  }
}
