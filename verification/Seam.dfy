/** The seam protocol: lanes on one side, a gateway on the other, every step interleaved
    (internal/app/gateway.go with internal/app/writer.go and internal/bus/redis.go).

    The gateway subscribes to a lane before it reads the lane's stored snapshot, seeds its
    hub with what it read, and consumes the frames its subscription has queued. `SwitchTo`
    does the same for another lane under the gateway's mutex and cancels the consumer before
    it; that consumer may still hold one frame it took off its channel. Read-only registry
    hubs are fed the same way and are never switched.

    Channels are lossless first-in first-out queues to live subscribers. */
module Seam {
  import opened Model
  import opened SessionLane

  /** A live subscription that has not read its snapshot yet; `from` is where in the lane's
      log it starts. */
  datatype Sub = Sub(key: string, from: nat, queue: seq<Frame>)

  /** A consumer: the snapshot it was seeded with (and which writer stored it, after how many
      frames), what it has applied, the frame it holds, what is queued. */
  datatype Feed = Feed(
    key: string, from: nat, read: Snap, readRun: nat, readAt: nat,
    consumed: seq<Frame>, inHand: seq<Frame>, queue: seq<Frame>, cancelled: bool, alive: bool)

  datatype Op = NoOp | Subscribed(sub: Sub) | Ready(feed: Feed)

  datatype RegistryHub = RegistryHub(hub: Snap, feed: Feed)

  /** `feeds[g]` is the consumer of generation g; the last one is current. */
  datatype Gateway = Gateway(
    key: string, hub: Snap, feeds: seq<Feed>, op: Op,
    registry: map<string, RegistryHub>, regOp: Op)

  datatype System = System(lanes: map<string, Lane>, gw: Gateway)

  function LaneAt(lanes: map<string, Lane>, key: string): Lane {
    if key in lanes then lanes[key] else EMPTY_LANE
  }

  // ------------------------------------------------------------------ steps

  function Hear(fd: Feed, key: string, f: Frame): Feed {
    if fd.key == key && fd.alive then fd.(queue := fd.queue + [f]) else fd
  }

  function HearOp(op: Op, key: string, f: Frame): Op {
    match op
    case NoOp => op
    case Subscribed(sub) => if sub.key == key then Subscribed(sub.(queue := sub.queue + [f])) else op
    case Ready(fd) => Ready(Hear(fd, key, f))
  }

  function HearAll(gw: Gateway, key: string, f: Frame): Gateway {
    gw.(feeds := seq(|gw.feeds|, i requires 0 <= i < |gw.feeds| => Hear(gw.feeds[i], key, f)),
    op := HearOp(gw.op, key, f),
    registry := (map k | k in gw.registry :: gw.registry[k].(feed := Hear(gw.registry[k].feed, key, f))),
    regOp := HearOp(gw.regOp, key, f))
  }

  /** The gateway after a lane step: it has heard whatever the step published. */
  function Heard(gw: Gateway, key: string, out: Option<Frame>): Gateway {
    if out.Some? then HearAll(gw, key, out.value) else gw
  }

  /** The snapshot GET returns, or an empty one when the lane has never stored any. */
  function Seeded(l: Lane, sub: Sub): Feed {
    var read := if l.stores == [] then NewSnap(sub.key) else l.stores[|l.stores| - 1];
    Feed(sub.key, sub.from, read, l.storedRun, l.storedAt, [], [], sub.queue, false, true)
  }

  function TakeFrame(fd: Feed): Feed
    requires fd.queue != []
  {
    fd.(inHand := [fd.queue[0]], queue := fd.queue[1..])
  }

  function Consumed(fd: Feed): Feed
    requires fd.inHand != []
  {
    fd.(consumed := fd.consumed + fd.inHand, inHand := [])
  }

  function Stopped(fd: Feed): Feed {
    fd.(inHand := [], queue := [], alive := false)
  }

  /** The current consumer's context is cancelled. */
  function CancelLast(feeds: seq<Feed>): (cancelled: seq<Feed>)
    ensures |cancelled| == |feeds|
  {
    seq(|feeds|, i requires 0 <= i < |feeds| =>
          if i == |feeds| - 1 then feeds[i].(cancelled := true) else feeds[i])
  }

  function Commit(gw: Gateway): Gateway
    requires gw.op.Ready?
  {
    gw.(key := gw.op.feed.key, hub := gw.op.feed.read, feeds := CancelLast(gw.feeds) + [gw.op.feed], op := NoOp)
  }

  datatype GwStep =
    | Subscribe(key: string)   // NewGateway, or SwitchTo to another lane
    | ReadSnapshot
    | ReadFails
    | CommitSwitch
    | Receive(i: nat)
    | Consume(i: nat)
    | Stop(i: nat)             // cancelled between frames, or the connection dropped
    | RegSubscribe(key: string)
    | RegRead
    | RegReadFails
    | RegCommit
    | RegReceive(key: string)
    | RegConsume(key: string)
    | RegStop(key: string)

  datatype SysStep = LaneStep(key: string, step: SessionLane.Step) | GwStep(g: GwStep)

  predicate GwEnabled(gw: Gateway, g: GwStep) {
    match g
    case Subscribe(key) => gw.op.NoOp? && (gw.feeds == [] || key != gw.key)
    case ReadSnapshot => gw.op.Subscribed?
    case ReadFails => gw.op.Subscribed?
    case CommitSwitch => gw.op.Ready?
    case Receive(i) => i < |gw.feeds| && gw.feeds[i].alive && gw.feeds[i].inHand == [] && gw.feeds[i].queue != []
    case Consume(i) => gw.op.NoOp? && i < |gw.feeds| && gw.feeds[i].alive && gw.feeds[i].inHand != []
    case Stop(i) => i < |gw.feeds| && gw.feeds[i].alive && gw.feeds[i].inHand == []
    case RegSubscribe(key) => gw.regOp.NoOp? && key !in gw.registry
    case RegRead => gw.regOp.Subscribed?
    case RegReadFails => gw.regOp.Subscribed?
    case RegCommit => gw.regOp.Ready?
    case RegReceive(key) => key in gw.registry && gw.registry[key].feed.alive
                            && gw.registry[key].feed.inHand == [] && gw.registry[key].feed.queue != []
    case RegConsume(key) => key in gw.registry && gw.registry[key].feed.alive && gw.registry[key].feed.inHand != []
    case RegStop(key) => key in gw.registry && gw.registry[key].feed.alive && gw.registry[key].feed.inHand == []
  }

  /** A consumer applies the frame it holds only while its generation is the current one;
      otherwise it drops the frame and returns. */
  function ConsumeStep(gw: Gateway, i: nat): Gateway
    requires i < |gw.feeds| && gw.feeds[i].inHand != []
  {
    if i == |gw.feeds| - 1 then
      gw.(hub := ApplyFrame(gw.hub, gw.feeds[i].inHand[0]), feeds := gw.feeds[i := Consumed(gw.feeds[i])])
    else
      gw.(feeds := gw.feeds[i := Stopped(gw.feeds[i])])
  }

  function GwNext(lanes: map<string, Lane>, gw: Gateway, g: GwStep): Gateway
    requires GwEnabled(gw, g)
  {
    match g
    case Subscribe(key) => gw.(op := Subscribed(Sub(key, |LaneAt(lanes, key).log|, [])))
    case ReadSnapshot => gw.(op := Ready(Seeded(LaneAt(lanes, gw.op.sub.key), gw.op.sub)))
    case ReadFails => gw.(op := NoOp)
    case CommitSwitch => Commit(gw)
    case Receive(i) => gw.(feeds := gw.feeds[i := TakeFrame(gw.feeds[i])])
    case Consume(i) => ConsumeStep(gw, i)
    case Stop(i) => gw.(feeds := gw.feeds[i := Stopped(gw.feeds[i])])
    case RegSubscribe(key) => gw.(regOp := Subscribed(Sub(key, |LaneAt(lanes, key).log|, [])))
    case RegRead => gw.(regOp := Ready(Seeded(LaneAt(lanes, gw.regOp.sub.key), gw.regOp.sub)))
    case RegReadFails => gw.(regOp := NoOp)
    case RegCommit =>
      gw.(registry := gw.registry[gw.regOp.feed.key := RegistryHub(gw.regOp.feed.read, gw.regOp.feed)], regOp := NoOp)
    case RegReceive(key) =>
      var r := gw.registry[key];
      gw.(registry := gw.registry[key := r.(feed := TakeFrame(r.feed))])
    case RegConsume(key) =>
      var r := gw.registry[key];
      gw.(registry := gw.registry[key := RegistryHub(ApplyFrame(r.hub, r.feed.inHand[0]), Consumed(r.feed))])
    case RegStop(key) =>
      var r := gw.registry[key];
      gw.(registry := gw.registry[key := r.(feed := Stopped(r.feed))])
  }

  predicate SysEnabled(s: System, step: SysStep) {
    match step
    case LaneStep(key, ls) => SessionLane.Enabled(LaneAt(s.lanes, key), ls)
    case GwStep(g) => GwEnabled(s.gw, g)
  }

  function SysNext(s: System, step: SysStep): System
    requires SysEnabled(s, step)
  {
    match step
    case LaneStep(key, ls) =>
      var l := LaneAt(s.lanes, key);
      var lanes := s.lanes[key := SessionLane.Next(l, ls)];
      var out := Published(l, ls);
      System(lanes, Heard(s.gw, key, out))
    case GwStep(g) => System(s.lanes, GwNext(s.lanes, s.gw, g))
  }

  const INITIAL := System(map[], Gateway("", NewSnap(""), [], NoOp, map[], NoOp))

  // ------------------------------------------------------------------ the invariant

  /** Everything the feed has received and not dropped, oldest first. */
  function Taken(fd: Feed): seq<Frame> {
    fd.consumed + fd.inHand + fd.queue
  }

  ghost predicate ReadFromWriter(fd: Feed, w: Writer) {
    fd.readAt <= |w.applied| && fd.read == Fold(w.start, w.applied[..fd.readAt])
  }

  /** The feed's snapshot covers everything published before it subscribed, and what it has
      received is a run of the log from there: all of it, while the feed is alive. */
  ghost predicate FeedOk(l: Lane, fd: Feed) {
    && fd.from <= |l.log|
    && Taken(fd) <= l.log[fd.from..]
    && (fd.alive ==> Taken(fd) == l.log[fd.from..])
    && |fd.inHand| <= 1
    && (forall i :: 0 <= i < fd.from ==> l.log[i].rev <= fd.read.rev)
    && 0 <= fd.read.rev <= StoredRev(l)
    && (fd.read in l.stores || fd.read == NewSnap(fd.key))
    && fd.readRun <= l.run
    && (l.writer.Some? && fd.readRun == l.run ==> ReadFromWriter(fd, l.writer.value))
  }

  ghost predicate SubOk(l: Lane, sub: Sub) {
    sub.from <= |l.log| && sub.queue == l.log[sub.from..]
  }

  ghost predicate OpOk(lanes: map<string, Lane>, op: Op) {
    match op
    case NoOp => true
    case Subscribed(sub) => SubOk(LaneAt(lanes, sub.key), sub)
    case Ready(fd) => FeedOk(LaneAt(lanes, fd.key), fd) && fd.alive && fd.consumed == [] && !fd.cancelled
  }

  ghost predicate RegistryOk(lanes: map<string, Lane>, key: string, r: RegistryHub) {
    && r.feed.key == key
    && FeedOk(LaneAt(lanes, key), r.feed)
    && r.hub == Fold(r.feed.read, r.feed.consumed)
  }

  ghost predicate Isolated(gw: Gateway) {
    && (gw.feeds != [] ==>
          var cur := gw.feeds[|gw.feeds| - 1];
          cur.key == gw.key && !cur.cancelled && gw.hub == Fold(cur.read, cur.consumed))
    && forall i :: 0 <= i < |gw.feeds| - 1 ==> gw.feeds[i].cancelled
  }

  ghost predicate GwOk(lanes: map<string, Lane>, gw: Gateway) {
    && Isolated(gw)
    && (forall i :: 0 <= i < |gw.feeds| ==> FeedOk(LaneAt(lanes, gw.feeds[i].key), gw.feeds[i]))
    && OpOk(lanes, gw.op)
    && (forall k :: k in gw.registry ==> RegistryOk(lanes, k, gw.registry[k]))
    && OpOk(lanes, gw.regOp)
  }

  ghost predicate LanesOk(lanes: map<string, Lane>) {
    forall k :: k in lanes ==> SessionLane.Inv(lanes[k])
  }

  ghost predicate SysInv(s: System) {
    LanesOk(s.lanes) && GwOk(s.lanes, s.gw)
  }

  lemma LaneAtOk(lanes: map<string, Lane>, key: string)
    requires LanesOk(lanes)
    ensures SessionLane.Inv(LaneAt(lanes, key))
  {
  }

  // --------------------------------------------------- a lane moves under its feeds

  lemma StoredRevGrows(l: Lane, ls: SessionLane.Step)
    requires SessionLane.Inv(l) && SessionLane.Enabled(l, ls)
    ensures StoredRev(l) <= StoredRev(SessionLane.Next(l, ls))
    ensures forall s :: s in l.stores ==> s in SessionLane.Next(l, ls).stores
  {
  }

  lemma LaneStepKeepsReading(l: Lane, ls: SessionLane.Step, fd: Feed)
    requires SessionLane.Inv(l) && SessionLane.Enabled(l, ls)
    requires fd.readRun <= l.run
    requires l.writer.Some? && fd.readRun == l.run ==> ReadFromWriter(fd, l.writer.value)
    ensures var l' := SessionLane.Next(l, ls);
            && fd.readRun <= l'.run
            && (l'.writer.Some? && fd.readRun == l'.run ==> ReadFromWriter(fd, l'.writer.value))
  {
    if ls.Take? && fd.readRun == l.run {
      var w := l.writer.value;
      assert (w.applied + [Stamp(w, ls.f)])[..fd.readAt] == w.applied[..fd.readAt];
    }
  }

  /** A writer's step keeps a feed's claims, once the feed has heard what it published. */
  lemma LaneStepKeepsFeed(l: Lane, ls: SessionLane.Step, fd: Feed)
    requires SessionLane.Inv(l) && SessionLane.Enabled(l, ls) && FeedOk(l, fd)
    ensures var out := Published(l, ls);
            FeedOk(SessionLane.Next(l, ls), if out.Some? then Hear(fd, fd.key, out.value) else fd)
  {
    LaneStepKeepsReading(l, ls, fd);
    StoredRevGrows(l, ls);
  }

  /** A subscription hears what its lane publishes. */
  lemma LaneStepKeepsSub(l: Lane, ls: SessionLane.Step, sub: Sub)
    requires SessionLane.Enabled(l, ls) && SubOk(l, sub)
    ensures var out := Published(l, ls);
            SubOk(SessionLane.Next(l, ls), if out.Some? then sub.(queue := sub.queue + [out.value]) else sub)
  {
    if ls.PublishOk? {
      var f := l.writer.value.phase.f;
      assert (l.log + [f])[sub.from..] == l.log[sub.from..] + [f];
    }
  }

  lemma LaneStepKeepsOp(lanes: map<string, Lane>, key: string, ls: SessionLane.Step, op: Op)
    requires LanesOk(lanes) && SessionLane.Enabled(LaneAt(lanes, key), ls) && OpOk(lanes, op)
    ensures var l := LaneAt(lanes, key);
            var lanes' := lanes[key := SessionLane.Next(l, ls)];
            var out := Published(l, ls);
            OpOk(lanes', if out.Some? then HearOp(op, key, out.value) else op)
  {
    var l := LaneAt(lanes, key);
    match op
    case NoOp =>
    case Subscribed(sub) => if sub.key == key { LaneStepKeepsSub(l, ls, sub); }
    case Ready(fd) => if fd.key == key { LaneAtOk(lanes, key); LaneStepKeepsFeed(l, ls, fd); }
  }

  lemma HeardFeeds(lanes: map<string, Lane>, key: string, ls: SessionLane.Step, gw: Gateway)
    requires LanesOk(lanes) && SessionLane.Enabled(LaneAt(lanes, key), ls) && GwOk(lanes, gw)
    ensures var l := LaneAt(lanes, key);
            var lanes' := lanes[key := SessionLane.Next(l, ls)];
            var gw' := Heard(gw, key, Published(l, ls));
            forall i :: 0 <= i < |gw'.feeds| ==> FeedOk(LaneAt(lanes', gw'.feeds[i].key), gw'.feeds[i])
  {
    var l := LaneAt(lanes, key);
    var gw' := Heard(gw, key, Published(l, ls));
    var lanes' := lanes[key := SessionLane.Next(l, ls)];
    forall i | 0 <= i < |gw'.feeds| ensures FeedOk(LaneAt(lanes', gw'.feeds[i].key), gw'.feeds[i]) {
      assert FeedOk(LaneAt(lanes, gw.feeds[i].key), gw.feeds[i]);
      if gw.feeds[i].key == key { LaneStepKeepsFeed(l, ls, gw.feeds[i]); }
    }
  }

  lemma HeardRegistry(lanes: map<string, Lane>, key: string, ls: SessionLane.Step, gw: Gateway)
    requires LanesOk(lanes) && SessionLane.Enabled(LaneAt(lanes, key), ls) && GwOk(lanes, gw)
    ensures var l := LaneAt(lanes, key);
            var lanes' := lanes[key := SessionLane.Next(l, ls)];
            var gw' := Heard(gw, key, Published(l, ls));
            forall k :: k in gw'.registry ==> RegistryOk(lanes', k, gw'.registry[k])
  {
    var l := LaneAt(lanes, key);
    var gw' := Heard(gw, key, Published(l, ls));
    var lanes' := lanes[key := SessionLane.Next(l, ls)];
    forall k | k in gw'.registry ensures RegistryOk(lanes', k, gw'.registry[k]) {
      assert RegistryOk(lanes, k, gw.registry[k]);
      if k == key {
        LaneStepKeepsFeed(l, ls, gw.registry[k].feed);
      } else {
        assert LaneAt(lanes', k) == LaneAt(lanes, k) && gw'.registry[k] == gw.registry[k];
      }
    }
  }

  lemma HeardIsolated(gw: Gateway, key: string, out: Option<Frame>)
    requires Isolated(gw)
    ensures Isolated(Heard(gw, key, out))
  {
  }

  lemma LaneStepKeepsInv(s: System, key: string, ls: SessionLane.Step)
    requires SysInv(s) && SysEnabled(s, LaneStep(key, ls))
    ensures SysInv(SysNext(s, LaneStep(key, ls)))
  {
    var l := LaneAt(s.lanes, key);
    LaneAtOk(s.lanes, key);
    SessionLane.StepKeepsInv(l, ls);
    LaneStepKeepsOp(s.lanes, key, ls, s.gw.op);
    LaneStepKeepsOp(s.lanes, key, ls, s.gw.regOp);
    HeardFeeds(s.lanes, key, ls, s.gw);
    HeardRegistry(s.lanes, key, ls, s.gw);
    HeardIsolated(s.gw, key, Published(l, ls));
  }

  // --------------------------------------------------- the gateway moves

  lemma TakeFrameOk(l: Lane, fd: Feed)
    requires FeedOk(l, fd) && fd.inHand == [] && fd.queue != []
    ensures FeedOk(l, TakeFrame(fd))
  {
    assert Taken(TakeFrame(fd)) == Taken(fd);
  }

  lemma ConsumedOk(l: Lane, fd: Feed)
    requires FeedOk(l, fd) && fd.inHand != []
    ensures FeedOk(l, Consumed(fd))
    ensures Fold(fd.read, Consumed(fd).consumed) == ApplyFrame(Fold(fd.read, fd.consumed), fd.inHand[0])
  {
    assert Taken(Consumed(fd)) == Taken(fd);
    assert fd.inHand == [fd.inHand[0]];
    FoldSnoc(fd.read, fd.consumed, fd.inHand[0]);
  }

  lemma StoppedOk(l: Lane, fd: Feed)
    requires FeedOk(l, fd)
    ensures FeedOk(l, Stopped(fd))
  {
    assert Taken(Stopped(fd)) == fd.consumed;
    assert fd.consumed <= Taken(fd);
  }

  /** Replacing one consumer by one that has applied the same frames of the same lane. */
  lemma SetFeedOk(lanes: map<string, Lane>, gw: Gateway, i: nat, fd: Feed)
    requires GwOk(lanes, gw) && i < |gw.feeds|
    requires fd.key == gw.feeds[i].key && fd.read == gw.feeds[i].read && fd.consumed == gw.feeds[i].consumed
    requires fd.cancelled == gw.feeds[i].cancelled && FeedOk(LaneAt(lanes, fd.key), fd)
    ensures GwOk(lanes, gw.(feeds := gw.feeds[i := fd]))
  {
    var feeds := gw.feeds[i := fd];
    forall j | 0 <= j < |feeds| ensures FeedOk(LaneAt(lanes, feeds[j].key), feeds[j]) {
      if j != i { assert feeds[j] == gw.feeds[j]; }
    }
    forall j | 0 <= j < |feeds| - 1 ensures feeds[j].cancelled {
      assert gw.feeds[j].cancelled;
    }
  }

  lemma SetRegistryOk(lanes: map<string, Lane>, gw: Gateway, key: string, r: RegistryHub)
    requires GwOk(lanes, gw) && RegistryOk(lanes, key, r)
    ensures GwOk(lanes, gw.(registry := gw.registry[key := r]))
  {
  }

  lemma SetOpsOk(lanes: map<string, Lane>, gw: Gateway, op: Op, regOp: Op)
    requires GwOk(lanes, gw) && OpOk(lanes, op) && OpOk(lanes, regOp)
    ensures GwOk(lanes, gw.(op := op, regOp := regOp))
  {
  }

  lemma ReadOk(lanes: map<string, Lane>, op: Op)
    requires LanesOk(lanes) && OpOk(lanes, op) && op.Subscribed?
    ensures OpOk(lanes, Ready(Seeded(LaneAt(lanes, op.sub.key), op.sub)))
  {
    LaneAtOk(lanes, op.sub.key);
  }

  lemma OpStepKeepsInv(lanes: map<string, Lane>, gw: Gateway, g: GwStep)
    requires LanesOk(lanes) && GwOk(lanes, gw) && GwEnabled(gw, g)
    requires g.Subscribe? || g.ReadSnapshot? || g.ReadFails? || g.RegSubscribe? || g.RegRead? || g.RegReadFails?
    ensures GwOk(lanes, GwNext(lanes, gw, g))
  {
    var gw' := GwNext(lanes, gw, g);
    if g.ReadSnapshot? {
      ReadOk(lanes, gw.op);
    } else if g.RegRead? {
      ReadOk(lanes, gw.regOp);
    }
    SetOpsOk(lanes, gw, gw'.op, gw'.regOp);
  }

  lemma FeedStepKeepsInv(lanes: map<string, Lane>, gw: Gateway, g: GwStep)
    requires LanesOk(lanes) && GwOk(lanes, gw) && GwEnabled(gw, g)
    requires g.Receive? || g.Stop?
    ensures GwOk(lanes, GwNext(lanes, gw, g))
  {
    var fd := gw.feeds[g.i];
    var fd' := if g.Receive? then TakeFrame(fd) else Stopped(fd);
    var l := LaneAt(lanes, fd.key);
    assert FeedOk(l, fd);
    if g.Receive? { TakeFrameOk(l, fd); } else { StoppedOk(l, fd); }
    SetFeedOk(lanes, gw, g.i, fd');
  }

  lemma RegistryStepKeepsInv(lanes: map<string, Lane>, gw: Gateway, g: GwStep)
    requires LanesOk(lanes) && GwOk(lanes, gw) && GwEnabled(gw, g)
    requires g.RegReceive? || g.RegConsume? || g.RegStop?
    ensures GwOk(lanes, GwNext(lanes, gw, g))
  {
    var r := gw.registry[g.key];
    var l := LaneAt(lanes, g.key);
    assert RegistryOk(lanes, g.key, r);
    var r' := match g
      case RegReceive(_) => r.(feed := TakeFrame(r.feed))
      case RegConsume(_) => RegistryHub(ApplyFrame(r.hub, r.feed.inHand[0]), Consumed(r.feed))
      case _ => r.(feed := Stopped(r.feed));
    if g.RegReceive? {
      TakeFrameOk(l, r.feed);
    } else if g.RegConsume? {
      ConsumedOk(l, r.feed);
    } else {
      StoppedOk(l, r.feed);
    }
    SetRegistryOk(lanes, gw, g.key, r');
  }

  lemma RegCommitKeepsInv(lanes: map<string, Lane>, gw: Gateway)
    requires GwOk(lanes, gw) && gw.regOp.Ready?
    ensures GwOk(lanes, GwNext(lanes, gw, RegCommit))
  {
    var fd := gw.regOp.feed;
    SetRegistryOk(lanes, gw, fd.key, RegistryHub(fd.read, fd));
    SetOpsOk(lanes, gw.(registry := gw.registry[fd.key := RegistryHub(fd.read, fd)]), gw.op, NoOp);
  }

  lemma CancelledOk(l: Lane, fd: Feed)
    requires FeedOk(l, fd)
    ensures FeedOk(l, fd.(cancelled := true))
  {
    assert Taken(fd.(cancelled := true)) == Taken(fd);
  }

  lemma CommittedOk(lanes: map<string, Lane>, feeds: seq<Feed>, i: nat)
    requires i < |feeds| && FeedOk(LaneAt(lanes, feeds[i].key), feeds[i])
    ensures FeedOk(LaneAt(lanes, CancelLast(feeds)[i].key), CancelLast(feeds)[i])
  {
    CancelledOk(LaneAt(lanes, feeds[i].key), feeds[i]);
  }

  lemma CommitIsolated(gw: Gateway)
    requires Isolated(gw) && gw.op.Ready? && gw.op.feed.consumed == [] && !gw.op.feed.cancelled
    ensures Isolated(Commit(gw))
  {
  }

  lemma ConsumeOk(lanes: map<string, Lane>, gw: Gateway, i: nat)
    requires GwOk(lanes, gw) && GwEnabled(gw, Consume(i))
    ensures GwOk(lanes, ConsumeStep(gw, i))
  {
    var fd := gw.feeds[i];
    var l := LaneAt(lanes, fd.key);
    assert FeedOk(l, fd);
    if i == |gw.feeds| - 1 {
      ConsumedOk(l, fd);
    } else {
      StoppedOk(l, fd);
      SetFeedOk(lanes, gw, i, Stopped(fd));
    }
  }

  lemma CommitKeepsInv(lanes: map<string, Lane>, gw: Gateway)
    requires GwOk(lanes, gw) && gw.op.Ready?
    ensures GwOk(lanes, Commit(gw))
  {
    CommitIsolated(gw);
    forall i | 0 <= i < |gw.feeds| { CommittedOk(lanes, gw.feeds, i); }
  }

  lemma GwStepKeepsInv(lanes: map<string, Lane>, gw: Gateway, g: GwStep)
    requires LanesOk(lanes) && GwOk(lanes, gw) && GwEnabled(gw, g)
    ensures GwOk(lanes, GwNext(lanes, gw, g))
  {
    match g
    case CommitSwitch => CommitKeepsInv(lanes, gw);
    case RegCommit => RegCommitKeepsInv(lanes, gw);
    case Consume(i) => ConsumeOk(lanes, gw, i);
    case Receive(i) => FeedStepKeepsInv(lanes, gw, g);
    case Stop(i) => FeedStepKeepsInv(lanes, gw, g);
    case RegReceive(_) => RegistryStepKeepsInv(lanes, gw, g);
    case RegConsume(_) => RegistryStepKeepsInv(lanes, gw, g);
    case RegStop(_) => RegistryStepKeepsInv(lanes, gw, g);
    case _ => OpStepKeepsInv(lanes, gw, g);
  }

  // ------------------------------------------------------------------ whole runs

  ghost predicate IsRun(states: seq<System>, steps: seq<SysStep>) {
    && |states| == |steps| + 1
    && states[0] == INITIAL
    && forall i :: 0 <= i < |steps| ==> SysEnabled(states[i], steps[i]) && states[i + 1] == SysNext(states[i], steps[i])
  }

  lemma {:induction false} RunKeepsInv(states: seq<System>, steps: seq<SysStep>, i: nat)
    requires IsRun(states, steps) && i < |states|
    ensures SysInv(states[i])
  {
    if i > 0 {
      RunKeepsInv(states, steps, i - 1);
      match steps[i - 1]
      case LaneStep(key, ls) => LaneStepKeepsInv(states[i - 1], key, ls);
      case GwStep(g) => GwStepKeepsInv(states[i - 1].lanes, states[i - 1].gw, g);
    }
  }

  // ------------------------------------------------------- what the seam guarantees

  /** What a feed has taken, entry by entry, is the log from where it subscribed. */
  lemma TakenIsLog(l: Lane, fd: Feed, i: nat)
    requires FeedOk(l, fd) && i < |Taken(fd)|
    ensures fd.from + i < |l.log| && Taken(fd)[i] == l.log[fd.from + i]
  {
    assert l.log[fd.from..][i] == l.log[fd.from + i];
  }

  lemma ConsumedIsLog(l: Lane, fd: Feed)
    requires SessionLane.Inv(l) && FeedOk(l, fd)
    ensures fd.consumed <= l.log[fd.from..] && Ascending(fd.consumed)
    ensures 0 <= Fold(fd.read, fd.consumed).rev <= StoredRev(l)
  {
    var n := |fd.consumed|;
    forall i | 0 <= i < n ensures fd.from + i < |l.log| && fd.consumed[i] == l.log[fd.from + i] {
      TakenIsLog(l, fd, i);
    }
    FoldNewer(fd.read, fd.consumed);
  }

  lemma ReadCoversEarlier(l: Lane, fd: Feed)
    requires FeedOk(l, fd)
    ensures Newer(fd.read.rev, l.log) == Newer(fd.read.rev, l.log[fd.from..])
    ensures Fold(fd.read, l.log) == Fold(fd.read, l.log[fd.from..])
  {
    var head, tail := l.log[..fd.from], l.log[fd.from..];
    assert l.log == head + tail;
    NewerAppend(fd.read.rev, head, tail);
    NewerNone(fd.read.rev, head);
    assert [] + Newer(fd.read.rev, tail) == Newer(fd.read.rev, tail);
    FoldAppend(fd.read, head, tail);
    FoldStale(fd.read, head);
  }

  lemma FoldThree(s: Snap, a: seq<Frame>, b: seq<Frame>, c: seq<Frame>)
    ensures Fold(Fold(s, a), b + c) == Fold(s, a + b + c)
  {
    FoldAppend(s, a, b + c);
    assert a + b + c == a + (b + c);
  }

  lemma AliveCoversLog(l: Lane, fd: Feed)
    requires FeedOk(l, fd) && fd.alive
    ensures Newer(fd.read.rev, Taken(fd)) == Newer(fd.read.rev, l.log)
    ensures Fold(Fold(fd.read, fd.consumed), fd.inHand + fd.queue) == Fold(fd.read, l.log)
  {
    ReadCoversEarlier(l, fd);
    FoldThree(fd.read, fd.consumed, fd.inHand, fd.queue);
  }

  /** Subscribe-before-snapshot, for one feed: the hub it fills is the fold of the snapshot
      it read over exactly the newer frames it consumed; while it is alive, what it has
      consumed, holds and has queued is, above that snapshot's Rev, exactly what has been
      published: nothing missing, nothing twice, in order. */
  lemma FeedCoversLog(l: Lane, fd: Feed)
    requires SessionLane.Inv(l) && FeedOk(l, fd)
    ensures Fold(fd.read, fd.consumed) == Fold(fd.read, Newer(fd.read.rev, fd.consumed))
    ensures fd.consumed <= l.log[fd.from..] && Ascending(fd.consumed)
    ensures fd.alive ==> Newer(fd.read.rev, Taken(fd)) == Newer(fd.read.rev, l.log)
    ensures fd.alive ==> Fold(Fold(fd.read, fd.consumed), fd.inHand + fd.queue) == Fold(fd.read, l.log)
    ensures 0 <= Fold(fd.read, fd.consumed).rev <= StoredRev(l)
  {
    ConsumedIsLog(l, fd);
    FoldNewer(fd.read, fd.consumed);
    if fd.alive { AliveCoversLog(l, fd); }
  }

  /** Every reachable state of every interleaving, the toggle hub: it belongs to the session
      the gateway names, was seeded with a snapshot stored for that session (or the empty
      one), and equals that snapshot folded over exactly what its own consumer consumed.
      Folding in what that consumer still holds and has queued gives everything published. */
  lemma HubIsItsSession(states: seq<System>, steps: seq<SysStep>, i: nat)
    requires IsRun(states, steps) && i < |states| && states[i].gw.feeds != []
    ensures var gw := states[i].gw;
            var cur := gw.feeds[|gw.feeds| - 1];
            var l := LaneAt(states[i].lanes, gw.key);
            && cur.key == gw.key
            && (cur.read in l.stores || cur.read == NewSnap(gw.key))
            && cur.from <= |l.log| && cur.consumed <= l.log[cur.from..]
            && gw.hub == Fold(cur.read, Newer(cur.read.rev, cur.consumed))
            && 0 <= gw.hub.rev <= StoredRev(l)
            && (cur.alive ==> Newer(cur.read.rev, Taken(cur)) == Newer(cur.read.rev, l.log))
            && (cur.alive ==> Fold(gw.hub, cur.inHand + cur.queue) == Fold(cur.read, l.log))
  {
    RunKeepsInv(states, steps, i);
    var gw := states[i].gw;
    var cur := gw.feeds[|gw.feeds| - 1];
    LaneAtOk(states[i].lanes, gw.key);
    assert FeedOk(LaneAt(states[i].lanes, cur.key), cur);
    FeedCoversLog(LaneAt(states[i].lanes, gw.key), cur);
  }

  /** The same for every read-only registry hub. */
  lemma RegistryHubIsItsSession(states: seq<System>, steps: seq<SysStep>, i: nat, key: string)
    requires IsRun(states, steps) && i < |states| && key in states[i].gw.registry
    ensures var r := states[i].gw.registry[key];
            var l := LaneAt(states[i].lanes, key);
            && r.feed.key == key
            && r.hub == Fold(r.feed.read, Newer(r.feed.read.rev, r.feed.consumed))
            && (r.feed.alive ==> Newer(r.feed.read.rev, Taken(r.feed)) == Newer(r.feed.read.rev, l.log))
            && (r.feed.alive ==> Fold(r.hub, r.feed.inHand + r.feed.queue) == Fold(r.feed.read, l.log))
  {
    RunKeepsInv(states, steps, i);
    LaneAtOk(states[i].lanes, key);
    assert RegistryOk(states[i].lanes, key, states[i].gw.registry[key]);
    FeedCoversLog(LaneAt(states[i].lanes, key), states[i].gw.registry[key].feed);
  }

  /** Without failed publishes, the log and what is in flight are what was published before
      this writer, then what it applied. */
  lemma LogIsApplied(l: Lane)
    requires SessionLane.Inv(l) && l.writer.Some? && l.writer.value.lossless
    ensures var w := l.writer.value;
            w.epoch <= |l.log| && l.log + Pending(w) == l.log[..w.epoch] + w.applied
  {
    var w := l.writer.value;
    assert l.log + Pending(w) == l.log[..w.epoch] + (l.log[w.epoch..] + Pending(w));
  }

  lemma FoldSkips(s: Snap, stale: seq<Frame>, fs: seq<Frame>)
    requires forall f :: f in stale ==> f.rev <= s.rev
    ensures Fold(s, stale + fs) == Fold(s, fs)
  {
    FoldAppend(s, stale, fs);
    FoldStale(s, stale);
  }

  lemma ReadSkipsEarlier(start: Snap, earlier: seq<Frame>, head: seq<Frame>, tail: seq<Frame>, applied: seq<Frame>)
    requires applied == head + tail && forall f :: f in earlier ==> f.rev <= start.rev
    ensures Fold(Fold(start, head), earlier + applied) == Fold(start, applied)
  {
    FoldRev(start, head);
    FoldSkips(Fold(start, head), earlier, applied);
    FoldOverlap(start, head, tail);
  }

  lemma EarlierIsStale(l: Lane)
    requires SessionLane.Inv(l) && l.writer.Some?
    ensures var w := l.writer.value;
            w.epoch <= |l.log| && forall f :: f in l.log[..w.epoch] ==> f.rev <= w.start.rev
  {
  }

  /** A snapshot the running writer stored, folded with the whole log and what is in flight,
      is the writer's snapshot. */
  lemma ReadPlusLogIsWriter(l: Lane, read: Snap, readAt: nat)
    requires SessionLane.Inv(l) && l.writer.Some? && l.writer.value.lossless
    requires readAt <= |l.writer.value.applied| && read == Fold(l.writer.value.start, l.writer.value.applied[..readAt])
    ensures Fold(read, l.log + Pending(l.writer.value)) == l.writer.value.snap
  {
    var w := l.writer.value;
    LogIsApplied(l);
    EarlierIsStale(l);
    ReadSkipsEarlier(w.start, l.log[..w.epoch], w.applied[..readAt], w.applied[readAt..], w.applied);
  }

  /** The hubs of a gateway: the one it switches, and the read-only ones by session. */
  datatype Where = Toggle | Registry(key: string)

  predicate Fed(gw: Gateway, at: Where) {
    if at.Toggle? then gw.feeds != [] else at.key in gw.registry
  }

  function FeedAt(gw: Gateway, at: Where): Feed
    requires Fed(gw, at)
  {
    if at.Toggle? then gw.feeds[|gw.feeds| - 1] else gw.registry[at.key].feed
  }

  function HubAt(gw: Gateway, at: Where): Snap
    requires Fed(gw, at)
  {
    if at.Toggle? then gw.hub else gw.registry[at.key].hub
  }

  /** The hub's consumer follows the running writer: it is alive, its snapshot was stored by
      that writer, and none of that writer's publishes failed. */
  ghost predicate Follows(s: System, at: Where) {
    Fed(s.gw, at) &&
    var l := LaneAt(s.lanes, FeedAt(s.gw, at).key);
    FeedAt(s.gw, at).alive && l.writer.Some? && l.writer.value.lossless && FeedAt(s.gw, at).readRun == l.run
  }

  function TheWriter(s: System, at: Where): SessionLane.Writer
    requires Fed(s.gw, at) && LaneAt(s.lanes, FeedAt(s.gw, at).key).writer.Some?
  {
    LaneAt(s.lanes, FeedAt(s.gw, at).key).writer.value
  }

  /** What is still under way from that writer to the hub, oldest first. */
  function UnderWay(s: System, at: Where): seq<Frame>
    requires Fed(s.gw, at) && LaneAt(s.lanes, FeedAt(s.gw, at).key).writer.Some?
  {
    FeedAt(s.gw, at).inHand + FeedAt(s.gw, at).queue + Pending(TheWriter(s, at))
  }

  lemma FedOk(s: System, at: Where)
    requires SysInv(s) && Fed(s.gw, at)
    ensures var fd := FeedAt(s.gw, at);
            && SessionLane.Inv(LaneAt(s.lanes, fd.key)) && FeedOk(LaneAt(s.lanes, fd.key), fd)
            && HubAt(s.gw, at) == Fold(fd.read, fd.consumed)
            && fd.key == if at.Toggle? then s.gw.key else at.key
  {
    LaneAtOk(s.lanes, FeedAt(s.gw, at).key);
    if at.Registry? { assert RegistryOk(s.lanes, at.key, s.gw.registry[at.key]); }
  }

  lemma FollowerConverges(s: System, at: Where)
    requires SysInv(s) && Follows(s, at)
    ensures Fold(HubAt(s.gw, at), UnderWay(s, at)) == TheWriter(s, at).snap
  {
    var fd := FeedAt(s.gw, at);
    var l := LaneAt(s.lanes, fd.key);
    FedOk(s, at);
    FeedCoversLog(l, fd);
    FoldAppend(HubAt(s.gw, at), fd.inHand + fd.queue, Pending(l.writer.value));
    ReadPlusLogIsWriter(l, fd.read, fd.readAt);
    FoldAppend(fd.read, l.log, Pending(l.writer.value));
  }

  /** Convergence to the writer: if a hub, the toggle or a read-only one, was seeded by a
      snapshot that the running writer stored, and none of that writer's publishes failed, then
      the hub folded with all that is still under way is the writer's own snapshot,
      session-constant fields included. */
  lemma HubConvergesToWriter(states: seq<System>, steps: seq<SysStep>, i: nat, at: Where)
    requires IsRun(states, steps) && i < |states| && Follows(states[i], at)
    ensures Fold(HubAt(states[i].gw, at), UnderWay(states[i], at)) == TheWriter(states[i], at).snap
  {
    RunKeepsInv(states, steps, i);
    FollowerConverges(states[i], at);
  }

  /** A feed's next frame is newer than its snapshot exactly when it is newer than all the
      feed has folded so far. */
  lemma NextIsNewer(l: Lane, fd: Feed)
    requires SessionLane.Inv(l) && FeedOk(l, fd) && fd.inHand != []
    ensures fd.read.rev < fd.inHand[0].rev <==> Fold(fd.read, fd.consumed).rev < fd.inHand[0].rev
  {
    var n := |fd.consumed|;
    FoldRev(fd.read, fd.consumed);
    assert Taken(fd)[n] == fd.inHand[0];
    TakenIsLog(l, fd, n);
    forall i | 0 <= i < n ensures fd.consumed[i].rev < fd.inHand[0].rev {
      assert Taken(fd)[i] == fd.consumed[i];
      TakenIsLog(l, fd, i);
    }
  }

  lemma RunConsumes(states: seq<System>, steps: seq<SysStep>, i: nat, g: nat)
    requires IsRun(states, steps) && i < |steps| && steps[i] == GwStep(Consume(g))
    ensures var gw := states[i].gw;
            g < |gw.feeds| && gw.feeds[g].inHand != [] && states[i + 1].gw == ConsumeStep(gw, g)
  {
    assert SysEnabled(states[i], steps[i]);
    assert states[i + 1] == SysNext(states[i], steps[i]);
  }

  lemma CurrentAccepts(lanes: map<string, Lane>, gw: Gateway)
    requires LanesOk(lanes) && GwOk(lanes, gw) && gw.feeds != [] && gw.feeds[|gw.feeds| - 1].inHand != []
    ensures var cur := gw.feeds[|gw.feeds| - 1];
            && (cur.read.rev < cur.inHand[0].rev <==> gw.hub.rev < cur.inHand[0].rev)
            && (cur.read.rev < cur.inHand[0].rev ==> ConsumeStep(gw, |gw.feeds| - 1).hub.rev == cur.inHand[0].rev)
  {
    var cur := gw.feeds[|gw.feeds| - 1];
    LaneAtOk(lanes, cur.key);
    assert FeedOk(LaneAt(lanes, cur.key), cur);
    NextIsNewer(LaneAt(lanes, cur.key), cur);
  }

  /** No frame newer than what the session's hub was seeded with is ever rejected as stale:
      when the current consumer applies it, the hub's Rev is below it. */
  lemma NewFramesAccepted(states: seq<System>, steps: seq<SysStep>, i: nat)
    requires IsRun(states, steps) && i < |steps|
    requires states[i].gw.feeds != [] && steps[i] == GwStep(Consume(|states[i].gw.feeds| - 1))
    ensures var gw := states[i].gw;
            var cur := gw.feeds[|gw.feeds| - 1];
            && cur.inHand != []
            && (cur.read.rev < cur.inHand[0].rev <==> gw.hub.rev < cur.inHand[0].rev)
            && (cur.read.rev < cur.inHand[0].rev ==> states[i + 1].gw.hub.rev == cur.inHand[0].rev)
  {
    RunKeepsInv(states, steps, i);
    RunConsumes(states, steps, i, |states[i].gw.feeds| - 1);
    CurrentAccepts(states[i].lanes, states[i].gw);
  }

  /** The same for a registry hub. */
  lemma RegistryAcceptsNewFrames(states: seq<System>, steps: seq<SysStep>, i: nat, key: string)
    requires IsRun(states, steps) && i < |states|
    requires key in states[i].gw.registry && states[i].gw.registry[key].feed.inHand != []
    ensures var r := states[i].gw.registry[key];
            && (r.feed.read.rev < r.feed.inHand[0].rev <==> r.hub.rev < r.feed.inHand[0].rev)
            && (r.feed.read.rev < r.feed.inHand[0].rev ==>
                  ApplyFrame(r.hub, r.feed.inHand[0]).rev == r.feed.inHand[0].rev)
  {
    RunKeepsInv(states, steps, i);
    LaneAtOk(states[i].lanes, key);
    assert RegistryOk(states[i].lanes, key, states[i].gw.registry[key]);
    NextIsNewer(LaneAt(states[i].lanes, key), states[i].gw.registry[key].feed);
  }

  /** A switch takes effect, or the newest generation's consumer takes its next frame. */
  predicate MovesHub(gw: Gateway, step: SysStep) {
    step.GwStep? && (step.g.CommitSwitch? || (step.g.Consume? && step.g.i == |gw.feeds| - 1))
  }

  lemma OthersLeaveHub(s: System, step: SysStep)
    requires SysEnabled(s, step) && !MovesHub(s.gw, step)
    ensures SysNext(s, step).gw.hub == s.gw.hub && SysNext(s, step).gw.key == s.gw.key
  {
  }

  /** Over any stretch of a run: while no switch takes effect and the current consumer takes
      no frame, the session's hub stands still, whatever the consumers of older generations
      still hold, the registry's consumers apply and the writers publish. */
  lemma {:induction false} OldConsumersMoveNothing(states: seq<System>, steps: seq<SysStep>, a: nat, b: nat)
    requires IsRun(states, steps) && a <= b < |states|
    requires forall i :: a <= i < b ==> !MovesHub(states[i].gw, steps[i])
    ensures states[b].gw.hub == states[a].gw.hub && states[b].gw.key == states[a].gw.key
  {
    if a < b {
      OldConsumersMoveNothing(states, steps, a, b - 1);
      OthersLeaveHub(states[b - 1], steps[b - 1]);
    }
  }

  /** What a consumer keeps: once cancelled, it applies nothing more; once it has returned,
      it does not come back. */
  ghost predicate KeepsHistory(before: Feed, after: Feed) {
    && (before.cancelled ==> after.cancelled && after.consumed == before.consumed)
    && (!before.alive ==> !after.alive && after.consumed == before.consumed)
  }

  lemma CommitKeepsHistory(gw: Gateway, j: nat)
    requires gw.op.Ready? && j < |gw.feeds|
    ensures j < |Commit(gw).feeds| && KeepsHistory(gw.feeds[j], Commit(gw).feeds[j])
  {
  }

  lemma GwStepKeepsHistory(lanes: map<string, Lane>, gw: Gateway, g: GwStep, j: nat)
    requires Isolated(gw) && GwEnabled(gw, g) && j < |gw.feeds|
    ensures j < |GwNext(lanes, gw, g).feeds| && KeepsHistory(gw.feeds[j], GwNext(lanes, gw, g).feeds[j])
  {
    match g
    case CommitSwitch => CommitKeepsHistory(gw, j);
    case Receive(i) =>
    case Consume(i) =>
    case Stop(i) =>
    case _ => assert GwNext(lanes, gw, g).feeds == gw.feeds;
  }

  lemma StepKeepsHistory(s: System, step: SysStep, j: nat)
    requires Isolated(s.gw) && SysEnabled(s, step) && j < |s.gw.feeds|
    ensures j < |SysNext(s, step).gw.feeds| && KeepsHistory(s.gw.feeds[j], SysNext(s, step).gw.feeds[j])
  {
    if step.GwStep? { GwStepKeepsHistory(s.lanes, s.gw, step.g, j); }
  }

  /** Over whole runs: from the switch that cancels it onwards, a consumer never applies
      another frame, whatever it still holds or has queued. */
  lemma {:induction false} CancelledAppliesNothing(states: seq<System>, steps: seq<SysStep>, a: nat, b: nat, j: nat)
    requires IsRun(states, steps) && a <= b < |states|
    requires j < |states[a].gw.feeds| && (states[a].gw.feeds[j].cancelled || !states[a].gw.feeds[j].alive)
    ensures j < |states[b].gw.feeds| && states[b].gw.feeds[j].consumed == states[a].gw.feeds[j].consumed
    ensures states[a].gw.feeds[j].cancelled ==> states[b].gw.feeds[j].cancelled
    ensures !states[a].gw.feeds[j].alive ==> !states[b].gw.feeds[j].alive
  {
    if a < b {
      CancelledAppliesNothing(states, steps, a, b - 1, j);
      RunKeepsInv(states, steps, b - 1);
      StepKeepsHistory(states[b - 1], steps[b - 1], j);
    }
  }
}
