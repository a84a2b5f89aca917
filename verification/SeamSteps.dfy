/** What each step of the gateway does to each of its parts, and where its operations land
    (internal/app/gateway.go). */
module SeamSteps {
  import opened Model
  import opened SessionLane
  import opened Seam

  // ------------------------------------------------------------------ one step, part by part

  /** Frame a consumer's step applies to the toggle hub, if any. */
  function Applied(gw: Gateway, g: GwStep): Option<Frame>
    requires GwEnabled(gw, g)
  {
    if g.Consume? && g.i + 1 == |gw.feeds| then Some(gw.feeds[g.i].inHand[0]) else None
  }

  /** Only a commit moves the session and adds a consumer; the hub moves by a commit or by the
      current consumer's frame; an operation goes from subscribed to read to none. */
  lemma StepFields(lanes: map<string, Lane>, gw: Gateway, g: GwStep)
    requires GwEnabled(gw, g)
    ensures var gw' := GwNext(lanes, gw, g);
            && gw'.key == (if g.CommitSwitch? then gw.op.feed.key else gw.key)
            && gw'.hub == (if g.CommitSwitch? then gw.op.feed.read
                           else if Applied(gw, g).Some? then ApplyFrame(gw.hub, Applied(gw, g).value)
                           else gw.hub)
            && |gw'.feeds| == |gw.feeds| + (if g.CommitSwitch? then 1 else 0)
            && (g.CommitSwitch? ==> gw'.feeds[|gw.feeds|] == gw.op.feed)
    ensures var op, op' := gw.op, GwNext(lanes, gw, g).op;
            && (op'.NoOp? <==> g.ReadFails? || g.CommitSwitch? || (op.NoOp? && !g.Subscribe?))
            && (op'.Subscribed? <==> g.Subscribe? || (op.Subscribed? && !g.ReadSnapshot? && !g.ReadFails?))
            && (op'.Ready? <==> g.ReadSnapshot? || (op.Ready? && !g.CommitSwitch?))
    ensures var op, op' := gw.regOp, GwNext(lanes, gw, g).regOp;
            && (op'.NoOp? <==> g.RegReadFails? || g.RegCommit? || (op.NoOp? && !g.RegSubscribe?))
            && (op'.Subscribed? <==> g.RegSubscribe? || (op.Subscribed? && !g.RegRead? && !g.RegReadFails?))
            && (op'.Ready? <==> g.RegRead? || (op.Ready? && !g.RegCommit?))
  {
  }

  /** A consumer stops by its own stop, or by a frame that comes after its generation; it is
      cancelled by the commit that succeeds it. */
  lemma FeedFields(lanes: map<string, Lane>, gw: Gateway, g: GwStep, i: nat)
    requires GwEnabled(gw, g) && i < |gw.feeds|
    ensures |gw.feeds| <= |GwNext(lanes, gw, g).feeds|
    ensures var fd, fd', last := gw.feeds[i], GwNext(lanes, gw, g).feeds[i], i + 1 == |gw.feeds|;
            && (fd'.alive <==> fd.alive && g != Stop(i) && !(g == Consume(i) && !last))
            && (fd'.cancelled <==> fd.cancelled || (g.CommitSwitch? && last))
            && fd'.consumed == fd.consumed + (if g == Consume(i) && last then fd.inHand else [])
            && fd'.key == fd.key && fd'.read == fd.read && fd'.from == fd.from
    ensures var fd, fd' := gw.feeds[i], GwNext(lanes, gw, g).feeds[i];
            fd'.alive ==>
              && fd'.queue == (if g == Receive(i) then fd.queue[1..] else fd.queue)
              && fd'.inHand == (if g == Receive(i) then fd.queue[..1] else if g == Consume(i) then [] else fd.inHand)
  {
  }

  /** The read-only hubs: founded once, then moved by their own consumers alone. */
  lemma RegistryFields(lanes: map<string, Lane>, gw: Gateway, g: GwStep, key: string)
    requires GwEnabled(gw, g) && key in gw.registry && !(g.RegCommit? && gw.regOp.feed.key == key)
    ensures key in GwNext(lanes, gw, g).registry
    ensures var r, r' := gw.registry[key], GwNext(lanes, gw, g).registry[key];
            && r'.hub == (if g == RegConsume(key) then ApplyFrame(r.hub, r.feed.inHand[0]) else r.hub)
            && (r'.feed.alive <==> r.feed.alive && g != RegStop(key))
            && r'.feed.consumed == r.feed.consumed + (if g == RegConsume(key) then r.feed.inHand else [])
    ensures var fd, fd' := gw.registry[key].feed, GwNext(lanes, gw, g).registry[key].feed;
            fd'.alive ==>
              && fd'.queue == (if g == RegReceive(key) then fd.queue[1..] else fd.queue)
              && fd'.inHand == (if g == RegReceive(key) then fd.queue[..1]
                                else if g == RegConsume(key) then [] else fd.inHand)
  {
  }

  // ------------------------------------------------------------------ a lane's step, heard

  /** What a system step publishes on a lane, if anything. */
  function Goes(s: System, step: SysStep, key: string): Option<Frame>
    requires SysEnabled(s, step)
  {
    if step == LaneStep(key, PublishOk) then Some(LaneAt(s.lanes, key).writer.value.phase.f) else None
  }

  /** Each lane moves by its own steps alone. */
  lemma LaneMoves(s: System, step: SysStep, key: string)
    requires SysEnabled(s, step)
    ensures LaneAt(SysNext(s, step).lanes, key)
            == if step.LaneStep? && step.key == key then SessionLane.Next(LaneAt(s.lanes, key), step.step)
               else LaneAt(s.lanes, key)
    ensures LaneAt(SysNext(s, step).lanes, key).log
            == LaneAt(s.lanes, key).log + (if Goes(s, step, key).Some? then [Goes(s, step, key).value] else [])
  {
  }

  /** What a lane publishes reaches the queue of every live subscription to it, and no other. */
  lemma EveryoneHears(s: System, key: string, ls: SessionLane.Step, i: nat, at: string)
    requires SysEnabled(s, LaneStep(key, ls))
    ensures var gw, gw' := s.gw, SysNext(s, LaneStep(key, ls)).gw;
            && gw'.key == gw.key && gw'.hub == gw.hub && |gw'.feeds| == |gw.feeds|
            && (i < |gw.feeds| ==>
                  var fd := gw.feeds[i];
                  var heard := fd.alive && fd.key == key && ls.PublishOk?;
                  gw'.feeds[i]
                  == if heard then fd.(queue := fd.queue + [LaneAt(s.lanes, key).writer.value.phase.f]) else fd)
            && gw'.registry.Keys == gw.registry.Keys
            && (at in gw.registry ==>
                  var fd := gw.registry[at].feed;
                  var heard := fd.alive && fd.key == key && ls.PublishOk?;
                  && gw'.registry[at].hub == gw.registry[at].hub
                  && gw'.registry[at].feed
                     == if heard then fd.(queue := fd.queue + [LaneAt(s.lanes, key).writer.value.phase.f]) else fd)
  {
  }

  /** The channel of a lane, over any run of the whole: one frame for each PUBLISH of it. */
  function Publishes(steps: seq<SysStep>, key: string): nat {
    if steps == [] then 0
    else Publishes(steps[..|steps| - 1], key) + (if steps[|steps| - 1] == LaneStep(key, PublishOk) then 1 else 0)
  }

  lemma {:induction false} ChannelCounts(states: seq<System>, steps: seq<SysStep>, i: nat, key: string)
    requires Seam.IsRun(states, steps) && i < |states|
    ensures |LaneAt(states[i].lanes, key).log| == Publishes(steps[..i], key)
  {
    if i > 0 {
      ChannelCounts(states, steps, i - 1, key);
      LaneMoves(states[i - 1], steps[i - 1], key);
      assert steps[..i][..i - 1] == steps[..i - 1];
    }
  }

  // ------------------------------------------------------------------ where operations land

  /** The snapshot a lane has stored last, or an empty one of that session. */
  function LastStored(l: Lane, key: string): Snap {
    if l.stores == [] then NewSnap(key) else l.stores[|l.stores| - 1]
  }

  /** A switch to another session, or the first one, can always be made when none is under way:
      it lands on that session's stored snapshot with a consumer of its own, whose subscription
      begins where the channel stands, and cancels the consumer before it. */
  lemma SwitchLands(lanes: map<string, Lane>, gw: Gateway, key: string)
    requires gw.op.NoOp? && (gw.feeds == [] || key != gw.key)
    ensures GwEnabled(gw, Subscribe(key))
    ensures var subscribed := GwNext(lanes, gw, Subscribe(key));
            GwEnabled(subscribed, ReadSnapshot)
            && var read := GwNext(lanes, subscribed, ReadSnapshot);
               GwEnabled(read, CommitSwitch)
               && var landed, l := GwNext(lanes, read, CommitSwitch), LaneAt(lanes, key);
                  && landed.key == key && landed.hub == LastStored(l, key) && landed.op == NoOp
                  && |landed.feeds| == |gw.feeds| + 1
                  && var fd := landed.feeds[|gw.feeds|];
                     && fd.key == key && fd.alive && !fd.cancelled && fd.from == |l.log| && Taken(fd) == []
                     && landed.registry == gw.registry && landed.regOp == gw.regOp
                     && forall i :: 0 <= i < |gw.feeds| ==>
                                      (landed.feeds[i].cancelled <==> gw.feeds[i].cancelled || i + 1 == |gw.feeds|)
  {
  }

  /** Nothing to do for the session that is on already. */
  lemma SameSessionStays(gw: Gateway)
    requires gw.feeds != []
    ensures !GwEnabled(gw, Subscribe(gw.key))
  {
  }

  /** A read-only hub is founded the same way, once for each session. */
  lemma RegistryLands(lanes: map<string, Lane>, gw: Gateway, key: string)
    requires gw.regOp.NoOp? && key !in gw.registry
    ensures GwEnabled(gw, RegSubscribe(key))
    ensures var subscribed := GwNext(lanes, gw, RegSubscribe(key));
            GwEnabled(subscribed, RegRead)
            && var read := GwNext(lanes, subscribed, RegRead);
               GwEnabled(read, RegCommit)
               && var landed, l := GwNext(lanes, read, RegCommit), LaneAt(lanes, key);
                  && landed.registry.Keys == gw.registry.Keys + {key} && landed.regOp == NoOp
                  && var r := landed.registry[key];
                     && r.hub == LastStored(l, key) && r.feed.key == key && r.feed.alive
                     && r.feed.from == |l.log| && Taken(r.feed) == []
                     && landed.hub == gw.hub && landed.key == gw.key && landed.feeds == gw.feeds && landed.op == gw.op
  {
  }

  /** The current consumer can always take its oldest queued frame while no switch is under way,
      and its hub then has that frame. */
  lemma ConsumeLands(lanes: map<string, Lane>, gw: Gateway)
    requires gw.op.NoOp? && gw.feeds != []
    requires var cur := gw.feeds[|gw.feeds| - 1]; cur.alive && cur.inHand == [] && cur.queue != []
    ensures var i := |gw.feeds| - 1;
            GwEnabled(gw, Receive(i))
            && var held := GwNext(lanes, gw, Receive(i));
               GwEnabled(held, Consume(i))
               && var fed := GwNext(lanes, held, Consume(i));
                  && fed.hub == ApplyFrame(gw.hub, gw.feeds[i].queue[0])
                  && fed.feeds[i].queue == gw.feeds[i].queue[1..] && fed.feeds[i].inHand == []
  {
  }

  /** A consumer of an earlier generation that takes a frame leaves the hub alone and returns. */
  lemma OldConsumerReturns(lanes: map<string, Lane>, gw: Gateway, i: nat)
    requires gw.op.NoOp? && i + 1 < |gw.feeds| && gw.feeds[i].alive && gw.feeds[i].inHand != []
    ensures GwEnabled(gw, Consume(i))
    ensures var after := GwNext(lanes, gw, Consume(i));
            && after.hub == gw.hub && after.key == gw.key
            && !after.feeds[i].alive && Taken(after.feeds[i]) == gw.feeds[i].consumed
  {
  }
}
