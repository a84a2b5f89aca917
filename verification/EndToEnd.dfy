/** The whole way: lanes, the gateway, its hubs and the hubs' clients in one run.

    A system step that consumes a frame with a hub's own consumer, or that commits a switch,
    moves that hub as well: the first broadcasts the frame, the second resets every client.
    Committing a read-only hub founds it without clients. Clients come, go, receive and fail in
    between, at any hub and in any order. */
module EndToEnd {
  import opened Model
  import opened Reducer
  import H = HubFanout
  import HC = HubClients
  import S = Seam

  datatype World<!K> = World(sys: S.System, hubs: map<S.Where, H.HubView<K>>)

  datatype Step<!K> = OfSystem(sys: S.SysStep) | OfClient(at: S.Where, hub: H.Step<K>)

  /** What a step does to the hubs, if anything. */
  datatype Move<!K> = NoMove | Moves(at: S.Where, step: H.Step<K>) | Founds(key: string, s: Snap)

  function HubMove<K>(sys: S.System, step: S.SysStep): Move<K>
    requires S.SysEnabled(sys, step)
  {
    if !step.GwStep? then NoMove
    else
      match step.g
      case Consume(i) =>
        if i == |sys.gw.feeds| - 1 then Moves(S.Toggle, H.ApplyFrames(sys.gw.feeds[i].inHand[0])) else NoMove
      case CommitSwitch => Moves(S.Toggle, H.Reset(sys.gw.op.feed.read))
      case RegConsume(key) => Moves(S.Registry(key), H.ApplyFrames(sys.gw.registry[key].feed.inHand[0]))
      case RegCommit => Founds(sys.gw.regOp.feed.key, sys.gw.regOp.feed.read)
      case _ => NoMove
  }

  predicate Enabled<K>(w: World<K>, step: Step<K>) {
    match step
    case OfSystem(ss) => S.SysEnabled(w.sys, ss)
    case OfClient(at, hs) =>
      S.Fed(w.sys.gw, at) && at in w.hubs && !hs.ApplyFrames? && !hs.Reset? && H.Enabled(w.hubs[at], hs)
  }

  function MovedHub<K>(hub: H.HubView<K>, step: H.Step<K>): H.HubView<K> {
    match step
    case ApplyFrames(f) => H.ApplyStep(hub, f)
    case Reset(s) => H.ResetStep(hub, s)
    case _ => hub
  }

  function Moved<K>(hubs: map<S.Where, H.HubView<K>>, move: Move<K>): map<S.Where, H.HubView<K>> {
    match move
    case NoMove => hubs
    case Moves(at, step) => if at in hubs then hubs[at := MovedHub(hubs[at], step)] else hubs
    case Founds(key, s) => hubs[S.Registry(key) := H.HubView(s, map[])]
  }

  function Next<K>(w: World<K>, step: Step<K>): World<K>
    requires Enabled(w, step)
  {
    match step
    case OfSystem(ss) => World(S.SysNext(w.sys, ss), Moved(w.hubs, HubMove(w.sys, ss)))
    case OfClient(at, hs) => w.(hubs := w.hubs[at := H.Next(w.hubs[at], hs)])
  }

  // ------------------------------------------------------------------ the invariant

  predicate Exists(gw: S.Gateway, at: S.Where) {
    at.Toggle? || at.key in gw.registry
  }

  function SnapAt(gw: S.Gateway, at: S.Where): Snap
    requires Exists(gw, at)
  {
    if at.Toggle? then gw.hub else gw.registry[at.key].hub
  }

  ghost predicate HubOk<K>(w: World<K>, at: S.Where) {
    && (at in w.hubs <==> Exists(w.sys.gw, at))
    && (at in w.hubs ==> H.Inv(w.hubs[at]) && w.hubs[at].snap == SnapAt(w.sys.gw, at))
  }

  ghost predicate Inv<K>(w: World<K>) {
    S.SysInv(w.sys) && forall at :: HubOk(w, at)
  }

  /** Only a hub's own consumer, and a commit, move its snapshot. */
  lemma OthersStand<K>(w: World<K>, step: S.SysStep, at: S.Where)
    requires HubOk(w, at) && S.SysEnabled(w.sys, step)
    requires var move: Move<K> := HubMove(w.sys, step);
             !(move.Moves? && move.at == at) && !(move.Founds? && at == S.Registry(move.key))
    ensures HubOk(Next(w, OfSystem(step)), at)
  {
  }

  lemma OwnMoves<K>(w: World<K>, step: S.SysStep, at: S.Where)
    requires Inv(w) && S.SysEnabled(w.sys, step)
    requires var move: Move<K> := HubMove(w.sys, step); move.Moves? && move.at == at
    ensures HubOk(Next(w, OfSystem(step)), at)
  {
    var move: Move<K> := HubMove(w.sys, step);
    assert HubOk(w, at);
    assert move.step.Reset? ==> S.OpOk(w.sys.lanes, w.sys.gw.op);
    H.StepKeepsInv(w.hubs[at], move.step);
  }

  lemma RegCommitFounds<K>(sys: S.System) returns (move: Move<K>)
    requires S.SysEnabled(sys, S.GwStep(S.RegCommit))
    ensures var fd := sys.gw.regOp.feed;
            && move == HubMove(sys, S.GwStep(S.RegCommit)) == Founds(fd.key, fd.read)
            && S.SysNext(sys, S.GwStep(S.RegCommit)).gw.registry
               == sys.gw.registry[fd.key := S.RegistryHub(fd.read, fd)]
  {
    move := HubMove(sys, S.GwStep(S.RegCommit));
  }

  lemma OwnIsFounded<K>(w: World<K>)
    requires S.OpOk(w.sys.lanes, w.sys.gw.regOp) && S.SysEnabled(w.sys, S.GwStep(S.RegCommit))
    ensures HubOk(Next(w, OfSystem(S.GwStep(S.RegCommit))), S.Registry(w.sys.gw.regOp.feed.key))
  {
    var fd := w.sys.gw.regOp.feed;
    var move: Move<K> := RegCommitFounds(w.sys);
    var founded: H.HubView<K> := H.HubView(fd.read, map[]);
    assert Next(w, OfSystem(S.GwStep(S.RegCommit))).hubs == w.hubs[S.Registry(fd.key) := founded];
    assert H.Inv(founded);
  }

  lemma SysStepKeepsInv(s: S.System, step: S.SysStep)
    requires S.SysInv(s) && S.SysEnabled(s, step)
    ensures S.SysInv(S.SysNext(s, step))
  {
    match step
    case LaneStep(key, ls) => S.LaneStepKeepsInv(s, key, ls);
    case GwStep(g) => S.GwStepKeepsInv(s.lanes, s.gw, g);
  }

  lemma SystemKeepsHub<K>(w: World<K>, step: S.SysStep, at: S.Where)
    requires Inv(w) && S.SysEnabled(w.sys, step)
    ensures HubOk(Next(w, OfSystem(step)), at)
  {
    var move: Move<K> := HubMove(w.sys, step);
    assert HubOk(w, at);
    if move.Moves? && move.at == at {
      OwnMoves(w, step, at);
    } else if move.Founds? && at == S.Registry(move.key) {
      OwnIsFounded(w);
    } else {
      OthersStand(w, step, at);
    }
  }

  lemma ClientKeepsHub<K>(w: World<K>, at: S.Where, hs: H.Step<K>, other: S.Where)
    requires Inv(w) && Enabled(w, OfClient(at, hs))
    ensures HubOk(Next(w, OfClient(at, hs)), other)
  {
    assert HubOk(w, at) && HubOk(w, other);
    H.StepKeepsInv(w.hubs[at], hs);
  }

  lemma StepKeepsInv<K>(w: World<K>, step: Step<K>)
    requires Inv(w) && Enabled(w, step)
    ensures Inv(Next(w, step))
  {
    if step.OfSystem? { SysStepKeepsInv(w.sys, step.sys); }
    forall at ensures HubOk(Next(w, step), at) {
      match step
      case OfSystem(ss) => SystemKeepsHub(w, ss, at);
      case OfClient(from, hs) => ClientKeepsHub(w, from, hs, at);
    }
  }

  // ------------------------------------------------------------------ whole runs

  ghost predicate IsRun<K>(worlds: seq<World<K>>, steps: seq<Step<K>>) {
    && |worlds| == |steps| + 1
    && worlds[0] == World(S.INITIAL, map[S.Toggle := H.HubView(NewSnap(""), map[])])
    && forall i :: 0 <= i < |steps| ==> Enabled(worlds[i], steps[i]) && worlds[i + 1] == Next(worlds[i], steps[i])
  }

  lemma {:induction false} RunKeepsInv<K>(worlds: seq<World<K>>, steps: seq<Step<K>>, i: nat)
    requires IsRun(worlds, steps) && i < |worlds|
    ensures Inv(worlds[i])
  {
    if i > 0 {
      RunKeepsInv(worlds, steps, i - 1);
      StepKeepsInv(worlds[i - 1], steps[i - 1]);
    }
  }

  /** A step that has a hub apply a frame has it apply one that both reducers read the same way. */
  ghost predicate StepAgrees<K>(w: World<K>, step: Step<K>)
    requires Enabled(w, step)
  {
    step.OfSystem? ==>
      var move: Move<K> := HubMove(w.sys, step.sys);
      move.Moves? && move.step.ApplyFrames? && move.at in w.hubs ==> Agrees(w.hubs[move.at].snap, move.step.f)
  }

  /** Every frame a hub applied in the run is one both reducers read the same way. */
  ghost predicate AllAgree<K>(worlds: seq<World<K>>, steps: seq<Step<K>>)
    requires IsRun(worlds, steps)
  {
    forall i :: 0 <= i < |steps| ==> StepAgrees(worlds[i], steps[i])
  }

  ghost predicate InStep<K>(hub: H.HubView<K>, k: K) {
    k in hub.clients && !hub.clients[k].failed ==> H.AgreesAlong(H.Stream(hub.clients[k]))
  }

  ghost predicate InStepAt<K>(w: World<K>, at: S.Where, k: K) {
    at in w.hubs ==> InStep(w.hubs[at], k)
  }

  lemma HubStepKeepsAgreement<K>(hub: H.HubView<K>, step: H.Step<K>, k: K)
    requires H.Inv(hub) && H.Enabled(hub, step) && InStep(hub, k)
    requires step.ApplyFrames? ==> Agrees(hub.snap, step.f)
    ensures InStep(H.Next(hub, step), k)
  {
    var hub' := H.Next(hub, step);
    if k in hub'.clients && !hub'.clients[k].failed { H.StepKeepsAgreement(hub, step, k); }
  }

  lemma SystemKeepsAgreement<K>(w: World<K>, step: S.SysStep, at: S.Where, k: K)
    requires Inv(w) && S.SysEnabled(w.sys, step) && StepAgrees(w, OfSystem(step)) && InStepAt(w, at, k)
    ensures InStepAt(Next(w, OfSystem(step)), at, k)
  {
    var move: Move<K> := HubMove(w.sys, step);
    assert HubOk(w, at);
    if move.Moves? && move.at == at && at in w.hubs {
      assert move.step.Reset? ==> S.OpOk(w.sys.lanes, w.sys.gw.op);
      HubStepKeepsAgreement(w.hubs[at], move.step, k);
    }
  }

  lemma StepKeepsAgreement<K>(w: World<K>, step: Step<K>, at: S.Where, k: K)
    requires Inv(w) && Enabled(w, step) && StepAgrees(w, step) && InStepAt(w, at, k)
    ensures InStepAt(Next(w, step), at, k)
  {
    match step
    case OfSystem(ss) => SystemKeepsAgreement(w, ss, at, k);
    case OfClient(from, hs) =>
      assert HubOk(w, at);
      if from == at { HubStepKeepsAgreement(w.hubs[at], hs, k); }
  }

  lemma {:induction false} RunKeepsAgreement<K>(
    worlds: seq<World<K>>, steps: seq<Step<K>>, i: nat, at: S.Where, k: K)
    requires IsRun(worlds, steps) && AllAgree(worlds, steps) && i < |worlds|
    ensures InStepAt(worlds[i], at, k)
  {
    if i > 0 {
      RunKeepsAgreement(worlds, steps, i - 1, at, k);
      RunKeepsInv(worlds, steps, i - 1);
      StepKeepsAgreement(worlds[i - 1], steps[i - 1], at, k);
    }
  }

  // ------------------------------------------------------------------ from the writer to the browser

  /** A client of a hub none of whose sends failed. */
  ghost predicate Reached<K>(w: World<K>, at: S.Where, k: K) {
    at in w.hubs && k in w.hubs[at].clients && !w.hubs[at].clients[k].failed
  }

  /** A browser that reads on where the reducers agree shows what the server folds. */
  lemma ReadingOn(board: RaceState, rest: seq<Frame>)
    ensures AgreesThroughout(Shared(board), rest) ==> Shared(ReduceFrames(board, rest)) == Fold(Shared(board), rest)
  {
    RunAgreement(board, rest);
    if AgreesThroughout(Shared(board), rest) {
      assert EqualAfter(board, rest, |rest|);
      assert rest[..|rest|] == rest;
    }
  }

  /** Every reachable state of every interleaving, at the toggle hub and at every read-only one:
      a client none of whose sends failed, once its queue is drained, has a browser that shows
      the hub's snapshot; if the hub follows the running writer, that board folded with what is
      still under way is the writer's own snapshot; and a browser that goes on to read it
      arrives there too, where the reducers agree. Provided the reducers agreed on the frames
      applied so far. */
  lemma BrowserConvergesToWriter<K>(worlds: seq<World<K>>, steps: seq<Step<K>>, i: nat, at: S.Where, k: K)
    requires IsRun(worlds, steps) && AllAgree(worlds, steps) && i < |worlds| && Reached(worlds[i], at, k)
    ensures var board := Browser(H.Stream(worlds[i].hubs[at].clients[k]));
            && Shared(board) == worlds[i].hubs[at].snap
            && (S.Follows(worlds[i].sys, at) ==>
                  var rest := S.UnderWay(worlds[i].sys, at);
                  && Fold(Shared(board), rest) == S.TheWriter(worlds[i].sys, at).snap
                  && (AgreesThroughout(Shared(board), rest) ==>
                        Shared(ReduceFrames(board, rest)) == S.TheWriter(worlds[i].sys, at).snap))
  {
    var w := worlds[i];
    var msgs := H.Stream(w.hubs[at].clients[k]);
    RunKeepsInv(worlds, steps, i);
    RunKeepsAgreement(worlds, steps, i, at, k);
    assert HubOk(w, at) && H.ClientOk(w.hubs[at].clients[k], w.hubs[at].snap);
    H.BrowserMatchesReceived(msgs);
    if S.Follows(w.sys, at) {
      S.FollowerConverges(w.sys, at);
      ReadingOn(Browser(msgs), S.UnderWay(w.sys, at));
    }
  }

  // ------------------------------------------------------------------ who is connected where

  /** No read-only hub is being founded under a key that has one. */
  ghost predicate OneHubAKey(gw: S.Gateway) {
    && (gw.regOp.Subscribed? ==> gw.regOp.sub.key !in gw.registry)
    && (gw.regOp.Ready? ==> gw.regOp.feed.key !in gw.registry)
  }

  lemma StepKeepsOneHub(s: S.System, step: S.SysStep)
    requires S.SysEnabled(s, step) && OneHubAKey(s.gw)
    ensures OneHubAKey(S.SysNext(s, step).gw)
  {
  }

  lemma {:induction false} RunKeepsOneHub<K>(worlds: seq<World<K>>, steps: seq<Step<K>>, i: nat)
    requires IsRun(worlds, steps) && i < |worlds|
    ensures OneHubAKey(worlds[i].sys.gw)
  {
    if i > 0 {
      RunKeepsOneHub(worlds, steps, i - 1);
      if steps[i - 1].OfSystem? { StepKeepsOneHub(worlds[i - 1].sys, steps[i - 1].sys); }
    }
  }

  /** A step of the whole takes a hub by a step of the hub itself: its own client's, or the
      system's that has it apply a frame or reset. */
  ghost predicate Takes<K>(w: World<K>, step: Step<K>, at: S.Where, hs: H.Step<K>)
    requires Enabled(w, step) && at in w.hubs
  {
    && H.Enabled(w.hubs[at], hs)
    && at in Next(w, step).hubs && Next(w, step).hubs[at] == H.Next(w.hubs[at], hs)
    && if step.OfSystem? then hs.ApplyFrames? || hs.Reset? else step == OfClient(at, hs)
  }

  lemma MovedAt<K>(hubs: map<S.Where, H.HubView<K>>, move: Move<K>, at: S.Where)
    requires at in hubs && (move.Founds? ==> at != S.Registry(move.key))
    ensures at in Moved(hubs, move)
    ensures Moved(hubs, move)[at]
            == if move.Moves? && move.at == at then MovedHub(hubs[at], move.step) else hubs[at]
  {
  }

  /** What moves a hub is a frame or a switch to a stored snapshot, and no hub is founded twice. */
  lemma MoveIsSound<K>(w: World<K>, step: S.SysStep)
    requires S.OpOk(w.sys.lanes, w.sys.gw.op) && OneHubAKey(w.sys.gw) && S.SysEnabled(w.sys, step)
    ensures var move: Move<K> := HubMove(w.sys, step);
            && (move.Moves? ==> move.step.ApplyFrames? || (move.step.Reset? && move.step.s.rev >= 0))
            && (move.Founds? ==> move.key !in w.sys.gw.registry)
  {
  }

  lemma SystemTakesHub<K>(w: World<K>, step: S.SysStep, at: S.Where)
    requires HubOk(w, at) && S.OpOk(w.sys.lanes, w.sys.gw.op) && OneHubAKey(w.sys.gw)
    requires S.SysEnabled(w.sys, step) && at in w.hubs
    ensures at in Next(w, OfSystem(step)).hubs
    ensures Next(w, OfSystem(step)).hubs[at] == w.hubs[at] || exists hs :: Takes(w, OfSystem(step), at, hs)
  {
    var move: Move<K> := HubMove(w.sys, step);
    MoveIsSound(w, step);
    MovedAt(w.hubs, move, at);
    assert Next(w, OfSystem(step)).hubs == Moved(w.hubs, move);
    if move.Moves? && move.at == at { assert Takes(w, OfSystem(step), at, move.step); }
  }

  /** A step of the whole takes each hub that exists where that hub's own step takes it, if it
      is one of that hub's, and nowhere else. */
  lemma EachHubsOwnStep<K>(w: World<K>, step: Step<K>, at: S.Where)
    requires Inv(w) && OneHubAKey(w.sys.gw) && Enabled(w, step) && at in w.hubs
    ensures at in Next(w, step).hubs
    ensures Next(w, step).hubs[at] == w.hubs[at] || exists hs :: Takes(w, step, at, hs)
    ensures step.OfClient? && step.at == at ==> Takes(w, step, at, step.hub)
  {
    match step
    case OfSystem(ss) => SystemTakesHub(w, ss, at);
    case OfClient(from, hs) => if from == at { assert Takes(w, step, at, hs); }
  }

  /** Only its own client steps change who is in a hub's broadcast set. */
  lemma StepMembers<K>(w: World<K>, step: Step<K>, at: S.Where, j: K)
    requires Inv(w) && OneHubAKey(w.sys.gw) && Enabled(w, step) && at in w.hubs
    ensures at in Next(w, step).hubs
    ensures j in Next(w, step).hubs[at].clients
            <==> step == OfClient(at, H.Step<K>.Register(j))
                 || (j in w.hubs[at].clients && step != OfClient(at, H.Step<K>.Unregister(j)))
  {
    EachHubsOwnStep(w, step, at);
    if Next(w, step).hubs[at] != w.hubs[at] {
      var hs :| Takes(w, step, at, hs);
      HC.StepMembers(w.hubs[at], hs, j);
    }
  }

  /** Only its own client steps hand a client a message, and it is the oldest queued. */
  lemma StepDelivers<K>(w: World<K>, step: Step<K>, at: S.Where, j: K)
    requires Inv(w) && OneHubAKey(w.sys.gw) && Enabled(w, step) && at in w.hubs && j in w.hubs[at].clients
    ensures at in Next(w, step).hubs
    ensures j in Next(w, step).hubs[at].clients ==>
              var c := w.hubs[at].clients[j];
              Next(w, step).hubs[at].clients[j].delivered
              == if step == OfClient(at, H.Step<K>.Deliver(j)) && c.out != [] then c.delivered + [c.out[0]]
                 else c.delivered
  {
    EachHubsOwnStep(w, step, at);
    if Next(w, step).hubs[at] != w.hubs[at] && j in Next(w, step).hubs[at].clients {
      var hs :| Takes(w, step, at, hs);
      assert HubOk(w, at) && H.ClientOk(w.hubs[at].clients[j], w.hubs[at].snap);
      HC.StepFields(w.hubs[at], hs, j);
    }
  }

  ghost predicate Stays<K>(steps: seq<Step<K>>, at: S.Where, a: nat, i: nat, k: K) {
    forall b :: a <= b < i && b < |steps| ==> steps[b] != OfClient(at, H.Step<K>.Unregister(k))
  }

  /** k has registered with that hub and has not left it since. */
  ghost predicate Joined<K>(steps: seq<Step<K>>, at: S.Where, i: nat, k: K)
    requires i <= |steps|
  {
    exists a :: 0 <= a < i && steps[a] == OfClient(at, H.Step<K>.Register(k)) && Stays(steps, at, a, i, k)
  }

  lemma JoinedOnward<K>(steps: seq<Step<K>>, at: S.Where, i: nat, k: K)
    requires 0 < i <= |steps|
    ensures Joined(steps, at, i, k)
            <==> steps[i - 1] == OfClient(at, H.Step<K>.Register(k))
                 || (Joined(steps, at, i - 1, k) && steps[i - 1] != OfClient(at, H.Step<K>.Unregister(k)))
  {
    var leaves := steps[i - 1] == OfClient(at, H.Step<K>.Unregister(k));
    assert forall a :: 0 <= a < i ==> (Stays(steps, at, a, i, k) <==> Stays(steps, at, a, i - 1, k) && !leaves);
    assert Stays(steps, at, i - 1, i - 1, k);
  }

  /** A hub that was not there has no client yet. */
  lemma HubsBegin<K>(w: World<K>, step: Step<K>, at: S.Where)
    requires Enabled(w, step) && at !in w.hubs
    ensures at in Next(w, step).hubs ==> Next(w, step).hubs[at].clients == map[]
    ensures step.OfClient? ==> step.at != at
  {
  }

  ghost predicate Connected<K>(w: World<K>, at: S.Where, k: K) {
    at in w.hubs && k in w.hubs[at].clients
  }

  lemma ConnectedStep<K>(w: World<K>, step: Step<K>, at: S.Where, k: K)
    requires Inv(w) && OneHubAKey(w.sys.gw) && Enabled(w, step)
    ensures Connected(Next(w, step), at, k)
            <==> step == OfClient(at, H.Step<K>.Register(k))
                 || (Connected(w, at, k) && step != OfClient(at, H.Step<K>.Unregister(k)))
  {
    if at in w.hubs { StepMembers(w, step, at, k); } else { HubsBegin(w, step, at); }
  }

  lemma RunStep<K>(worlds: seq<World<K>>, steps: seq<Step<K>>, at: S.Where, i: nat, k: K)
    requires IsRun(worlds, steps) && 0 < i < |worlds|
    ensures Connected(worlds[i], at, k)
            <==> steps[i - 1] == OfClient(at, H.Step<K>.Register(k))
                 || (Connected(worlds[i - 1], at, k) && steps[i - 1] != OfClient(at, H.Step<K>.Unregister(k)))
  {
    RunKeepsInv(worlds, steps, i - 1);
    RunKeepsOneHub(worlds, steps, i - 1);
    ConnectedStep(worlds[i - 1], steps[i - 1], at, k);
  }

  /** A client is connected to a hub if and only if it registered there and has not left since,
      whatever the lanes, the gateway and the other hubs did. */
  lemma {:induction false} ConnectedIff<K>(worlds: seq<World<K>>, steps: seq<Step<K>>, at: S.Where, i: nat, k: K)
    requires IsRun(worlds, steps) && i < |worlds|
    ensures Connected(worlds[i], at, k) <==> Joined(steps, at, i, k)
  {
    if i > 0 {
      ConnectedIff(worlds, steps, at, i - 1, k);
      JoinedOnward(steps, at, i, k);
      RunStep(worlds, steps, at, i, k);
    }
  }
}
