/** The objects that take the seam's steps: the bus, the writer and the gateway
    (internal/bus/redis.go, internal/app/writer.go, internal/app/gateway.go).

    Each method is proved to move the object it updates exactly as the steps of
    `SessionLane` and `Seam` move their values. What Redis answers is a parameter. */
module Roles {
  import opened Model
  import opened HubFanout
  import L = SessionLane
  import S = Seam

  // ------------------------------------------------------------------ the bus

  datatype Outcome = SetFailed | PublishFailed | Sent

  /** Redis as the roles see it: the stored snapshots and what each channel has carried. */
  class Bus {
    var stored: map<string, Snap>
    var published: map<string, seq<Frame>>

    ghost function Channel(session: string): seq<Frame>
      reads this
    {
      if session in published then published[session] else []
    }

    /** The bus holds what the lane says. */
    ghost predicate Matches(session: string, l: L.Lane)
      reads this
    {
      && Channel(session) == l.log
      && (if l.stores == [] then session !in stored
          else session in stored && stored[session] == l.stores[|l.stores| - 1])
    }

    /** What a GET answers on a lane: the last snapshot any of its writers stored, so nothing
        it published is above the answer's Rev, or None when none was ever stored. */
    method GetSnapshot(session: string, ghost l: L.Lane) returns (s: Option<Snap>)
      requires L.Inv(l) && Matches(session, l)
      ensures s.None? <==> l.stores == []
      ensures s.Some? ==> s.value == l.stores[|l.stores| - 1] && s.value.rev == L.StoredRev(l)
      ensures forall f :: f in Channel(session) ==> s.Some? && f.rev <= s.value.rev
    {
      return if session in stored then Some(stored[session]) else None;
    }

    /** SET, then PUBLISH; the first failure returns. */
    method Publish(snap: Snapshot, fr: Frame, outcome: Outcome) returns (ok: bool)
      modifies this
      ensures ok <==> outcome.Sent?
      ensures stored == if outcome.SetFailed? then old(stored) else old(stored)[snap.header.session := snap.View()]
      ensures outcome.Sent? ==> Channel(snap.header.session) == old(Channel(snap.header.session)) + [fr]
      ensures forall k :: k != snap.header.session || !outcome.Sent? ==> Channel(k) == old(Channel(k))
    {
      var key := snap.header.session;
      if outcome.SetFailed? { return false; }
      stored := stored[key := snap.Encode()];
      if outcome.PublishFailed? { return false; }
      published := published[key := (if key in published then published[key] else []) + [fr]];
      return true;
    }
  }

  // ------------------------------------------------------------------ the writer

  ghost predicate AtRest(l: L.Lane) {
    l.writer.Some? && l.writer.value.phase.Idle?
  }

  /** One turn of the writer's loop, as lane steps. */
  ghost function Turn(l: L.Lane, f: Frame, outcome: Outcome): (l': L.Lane)
    requires AtRest(l)
    ensures AtRest(l') && l'.writer.value.start == l.writer.value.start
  {
    var taken := L.Next(l, L.Take(f));
    match outcome
    case SetFailed => L.Next(taken, L.SetFails)
    case PublishFailed => L.Next(L.Next(taken, L.SetOk), L.PublishFails)
    case Sent => L.Next(L.Next(taken, L.SetOk), L.PublishOk)
  }

  ghost function Turns(l: L.Lane, fs: seq<Frame>, outcomes: seq<Outcome>): (l': L.Lane)
    requires AtRest(l) && |fs| == |outcomes|
    ensures AtRest(l')
  {
    if fs == [] then l
    else Turn(Turns(l, fs[..|fs| - 1], outcomes[..|fs| - 1]), fs[|fs| - 1], outcomes[|fs| - 1])
  }

  lemma TurnKeepsInv(l: L.Lane, f: Frame, outcome: Outcome)
    requires AtRest(l) && L.Inv(l)
    ensures L.Inv(Turn(l, f, outcome))
    ensures l.writer.value.rev < Turn(l, f, outcome).writer.value.rev
  {
    var taken := L.Next(l, L.Take(f));
    L.StepKeepsInv(l, L.Take(f));
    L.FoldOneOk(l.writer.value, f);
    match outcome
    case SetFailed => L.StepKeepsInv(taken, L.SetFails);
    case PublishFailed => L.StepKeepsInv(taken, L.SetOk); L.StepKeepsInv(L.Next(taken, L.SetOk), L.PublishFails);
    case Sent => L.StepKeepsInv(taken, L.SetOk); L.StepKeepsInv(L.Next(taken, L.SetOk), L.PublishOk);
  }

  /** What one turn leaves behind. */
  lemma TurnEffect(l: L.Lane, f: Frame, outcome: Outcome)
    requires AtRest(l) && L.Inv(l)
    ensures var w := l.writer.value;
            var fr := L.Stamp(w, f);
            var l' := Turn(l, f, outcome);
            && l'.writer.value.snap == ApplyFrame(w.snap, fr)
            && l'.writer.value.rev == w.rev + 1
            && w.snap.rev < fr.rev
            && l'.log == (if outcome.Sent? then l.log + [fr] else l.log)
            && l'.stores == (if outcome.SetFailed? then l.stores else l.stores + [l'.writer.value.snap])
  {
  }

  /** The source frames as a writer at this Rev names them, and those of them whose SET and PUBLISH
      both succeed. */
  function Named(session: string, rev: int, fs: seq<Frame>): seq<Frame> {
    if fs == [] then []
    else Named(session, rev, fs[..|fs| - 1]) + [fs[|fs| - 1].(rev := rev + |fs|, session := session)]
  }

  /** What one frame adds to the channel. */
  function Last(session: string, rev: int, f: Frame, outcome: Outcome): seq<Frame> {
    if outcome.Sent? then [f.(rev := rev, session := session)] else []
  }

  function Delivered(session: string, rev: int, fs: seq<Frame>, outcomes: seq<Outcome>): seq<Frame>
    requires |fs| == |outcomes|
  {
    if fs == [] then []
    else
      var n := |fs| - 1;
      Delivered(session, rev, fs[..n], outcomes[..n])
      + Last(session, rev + |fs|, fs[n], outcomes[n])
  }

  lemma TurnCounts(l: L.Lane, f: Frame, outcome: Outcome)
    requires AtRest(l)
    ensures Turn(l, f, outcome).writer.value.rev == l.writer.value.rev + 1
  {
  }

  lemma {:induction false} TurnsAt(l: L.Lane, fs: seq<Frame>, outcomes: seq<Outcome>)
    requires AtRest(l) && |fs| == |outcomes|
    ensures var w, w' := l.writer.value, Turns(l, fs, outcomes).writer.value;
            w'.start == w.start && w'.rev == w.rev + |fs|
  {
    if fs != [] {
      var n := |fs| - 1;
      TurnsAt(l, fs[..n], outcomes[..n]);
      TurnCounts(Turns(l, fs[..n], outcomes[..n]), fs[n], outcomes[n]);
    }
  }

  /** What a writer at this Rev makes of one frame, whether it goes out or not. */
  lemma TurnFolds(l: L.Lane, f: Frame, outcome: Outcome, session: string, rev: int)
    requires AtRest(l) && session == l.writer.value.start.header.session && rev == l.writer.value.rev + 1
    ensures Turn(l, f, outcome).writer.value.snap
            == ApplyFrame(l.writer.value.snap, f.(rev := rev, session := session))
  {
  }

  /** Under any failures every frame of the loop takes the next Rev and is folded. */
  lemma {:induction false} TurnsFold(l: L.Lane, fs: seq<Frame>, outcomes: seq<Outcome>)
    requires AtRest(l) && |fs| == |outcomes|
    ensures var w, w' := l.writer.value, Turns(l, fs, outcomes).writer.value;
            w'.rev == w.rev + |fs| && w'.snap == Fold(w.snap, Named(w.start.header.session, w.rev, fs))
  {
    TurnsAt(l, fs, outcomes);
    if fs != [] {
      var n, session, rev := |fs| - 1, l.writer.value.start.header.session, l.writer.value.rev;
      TurnsFold(l, fs[..n], outcomes[..n]);
      TurnsAt(l, fs[..n], outcomes[..n]);
      TurnFolds(Turns(l, fs[..n], outcomes[..n]), fs[n], outcomes[n], session, rev + |fs|);
      FoldSnoc(l.writer.value.snap, Named(session, rev, fs[..n]), fs[n].(rev := rev + |fs|, session := session));
    }
  }

  lemma TurnPublishes(l: L.Lane, f: Frame, outcome: Outcome, session: string, rev: int)
    requires AtRest(l)
    requires session == l.writer.value.start.header.session && rev == l.writer.value.rev + 1
    ensures Turn(l, f, outcome).log == l.log + Last(session, rev, f, outcome)
  {
  }

  /** And exactly those that did not fail are published, in order. */
  lemma {:induction false} TurnsPublish(l: L.Lane, fs: seq<Frame>, outcomes: seq<Outcome>)
    requires AtRest(l) && |fs| == |outcomes|
    ensures var w := l.writer.value;
            Turns(l, fs, outcomes).log == l.log + Delivered(w.start.header.session, w.rev, fs, outcomes)
  {
    if fs == [] {
      assert l.log + [] == l.log;
    } else {
      var n := |fs| - 1;
      TurnsPublish(l, fs[..n], outcomes[..n]);
      TurnsAt(l, fs[..n], outcomes[..n]);
      TurnPublishes(Turns(l, fs[..n], outcomes[..n]), fs[n], outcomes[n],
                    l.writer.value.start.header.session, l.writer.value.rev + |fs|);
    }
  }

  class Writer {
    const bus: Bus
    var rev: int
    var snap: Snapshot

    constructor (bus: Bus)
      ensures this.bus == bus && fresh(snap)
    {
      this.bus, rev := bus, 0;
      snap := new Snapshot(NewSnap(""));
    }

    ghost predicate Holds(l: L.Lane)
      reads this, snap
    {
      && AtRest(l) && L.Inv(l)
      && rev == l.writer.value.rev
      && snap.View() == l.writer.value.snap
    }

    /** Reads what an earlier run left and takes the clip's baked fields as the snapshot. */
    method Resume(session: string, baked: Snap, ghost l: L.Lane)
      requires L.Inv(l) && l.writer.None? && bus.Matches(session, l)
      requires baked.header.session == session
      modifies this
      ensures fresh(snap) && snap.header.session == session
      ensures Holds(L.Next(l, L.Start(baked)))
      ensures bus.Matches(session, L.Next(l, L.Start(baked)))
    {
      var existing := bus.GetSnapshot(session, l);
      var base := if existing.Some? then existing.value.rev else 0;
      snap := new Snapshot(baked.(cars := map[], rev := base));
      rev := base;
      L.StepKeepsInv(l, L.Start(baked));
    }

    /** One turn of the loop: stamps the frame, folds it, publishes. */
    method TakeOne(session: string, f: Frame, outcome: Outcome, ghost l: L.Lane)
      requires Holds(l) && bus.Matches(session, l)
      requires snap.header.session == session && l.writer.value.start.header.session == session
      modifies this`rev, snap, bus
      ensures snap == old(snap) && snap.header.session == session
      ensures Holds(Turn(l, f, outcome)) && bus.Matches(session, Turn(l, f, outcome))
      ensures forall k :: k != session ==> bus.Channel(k) == old(bus.Channel(k))
    {
      TurnKeepsInv(l, f, outcome);
      TurnEffect(l, f, outcome);
      ghost var l' := Turn(l, f, outcome);
      rev := rev + 1;
      var fr := f.(rev := rev, session := session);
      var applied := snap.Apply(fr);
      assert snap.View() == l'.writer.value.snap && applied;
      ghost var stored, log := bus.stored, bus.Channel(session);
      var sent := bus.Publish(snap, fr, outcome);
      assert l'.stores == [] ==> l.stores == [] && outcome.SetFailed?;
      assert bus.Channel(session) == (if outcome.Sent? then log + [fr] else log) == l'.log;
      assert bus.Matches(session, l');
    }

    /** Publishes every source frame; a failed publish is logged and the loop goes on. The
        bus ends up where the lane's steps say. */
    method Run(session: string, baked: Snap, frames: seq<Frame>, outcomes: seq<Outcome>, ghost l: L.Lane)
      requires |frames| == |outcomes|
      requires L.Inv(l) && l.writer.None? && bus.Matches(session, l)
      modifies this, bus
      ensures var named := baked.(header := baked.header.(session := session));
              var l' := Turns(L.Next(l, L.Start(named)), frames, outcomes);
              Holds(l') && bus.Matches(session, l')
      ensures forall k :: k != session ==> bus.Channel(k) == old(bus.Channel(k))
    {
      var named := baked.(header := baked.header.(session := session));
      Resume(session, named, l);
      ghost var at := L.Next(l, L.Start(named));
      ghost var l0 := at;
      for i := 0 to |frames|
        invariant fresh(snap) && snap.header.session == session
        invariant at == Turns(l0, frames[..i], outcomes[..i])
        invariant Holds(at) && bus.Matches(session, at) && at.writer.value.start.header.session == session
        invariant forall k :: k != session ==> bus.Channel(k) == old(bus.Channel(k))
      {
        assert frames[..i + 1][..i] == frames[..i] && outcomes[..i + 1][..i] == outcomes[..i];
        TakeOne(session, frames[i], outcomes[i], at);
        at := Turn(at, frames[i], outcomes[i]);
      }
      assert frames[..|frames|] == frames && outcomes[..|frames|] == outcomes;
    }
  }

  // ------------------------------------------------------------------ the gateway

  ghost function RegistryHubs(registry: map<string, S.RegistryHub>): map<string, Snap> {
    map k | k in registry :: registry[k].hub
  }

  /** What committing a read-only hub leaves of the gateway. */
  lemma RegCommitFields(g: S.Gateway, fd: S.Feed)
    ensures var g' := S.GwNext(map[], g.(regOp := S.Ready(fd)), S.RegCommit).(regOp := g.regOp);
            && g'.key == g.key && g'.hub == g.hub && g'.feeds == g.feeds
            && RegistryHubs(g'.registry) == RegistryHubs(g.registry)[fd.key := fd.read]
  {
  }

  class Gateway {
    var session: string
    var gen: int
    var hub: Hub
    var registry: map<string, Hub>

    /** No two hubs share a snapshot object or a client. */
    ghost predicate Valid()
      reads `hub, `registry, hub, registry.Values
    {
      && (forall k :: k in registry ==>
            registry[k] != hub && registry[k].snapshot != hub.snapshot && registry[k].clients !! hub.clients)
      && (forall j, k :: j in registry && k in registry && j != k ==>
            registry[j] != registry[k] && registry[j].snapshot != registry[k].snapshot
            && registry[j].clients !! registry[k].clients)
    }

    /** What each read-only hub holds. */
    ghost function RegistryViews(): map<string, Snap>
      reads `registry, registry.Values, set k | k in registry :: registry[k].snapshot
    {
      map k | k in registry :: registry[k].snapshot.View()
    }

    /** The object stands where the protocol's gateway does. */
    ghost predicate Stands(g: S.Gateway)
      reads this, hub, hub.snapshot, registry.Values, set k | k in registry :: registry[k].snapshot
    {
      && session == g.key
      && gen == |g.feeds| - 1
      && hub.snapshot.View() == g.hub
      && RegistryViews() == RegistryHubs(g.registry)
    }

    /** Starts on a session with the snapshot read after subscribing. */
    constructor (session: string, read: Snap, ghost fd: S.Feed)
      requires fd.key == session && fd.read == read
      ensures Valid()
      ensures Stands(S.Commit(S.INITIAL.gw.(op := S.Ready(fd))))
      ensures fresh(hub) && hub.clients == {}
    {
      this.session, gen, registry := session, 0, map[];
      var snap := new Snapshot(read);
      hub := new Hub(snap);
    }

    /** Resets the hub, and so every client on it, to a freshly read snapshot. */
    method ResetHub(read: Snap)
      requires Valid()
      modifies hub, hub.clients
      ensures Valid() && registry == old(registry) && RegistryViews() == old(RegistryViews())
      ensures hub.clients == old(hub.clients) && hub.snapshot.View() == read
      ensures hub.View() == AfterReset(old(hub.View()), read)
    {
      var snap := new Snapshot(read);
      ghost var before := hub.View();
      assert before == old(hub.View());
      hub.Reset(snap);
    }

    method NextGeneration(to: string)
      modifies `gen, `session
      ensures gen == old(gen) + 1 && session == to
    {
      gen := gen + 1;
      session := to;
    }

    /** The commit: hub, generation and session move together; the registry does not. */
    method Repoint(to: string, read: Snap)
      requires Valid()
      modifies this, hub, hub.clients
      ensures Valid() && hub == old(hub) && registry == old(registry) && RegistryViews() == old(RegistryViews())
      ensures gen == old(gen) + 1 && session == to
      ensures hub.View() == AfterReset(old(hub.View()), read)
    {
      ResetHub(read);
      NextGeneration(to);
    }

    /** Repoints the gateway. `read` is what subscribing and then reading the new lane gave,
        or None if either failed; the same session is a no-op. */
    method SwitchTo(to: string, read: Option<Snap>, ghost g: S.Gateway, ghost fd: S.Feed) returns (ok: bool)
      requires Valid() && Stands(g)
      requires read.Some? ==> fd.key == to && fd.read == read.value
      modifies this, hub, hub.clients
      ensures Valid() && hub == old(hub) && registry == old(registry)
      ensures ok <==> to == old(session) || read.Some?
      ensures to == old(session) || read.None? ==> Stands(g) && hub.View() == old(hub.View())
      ensures to != old(session) && read.Some? ==>
                && Stands(S.Commit(g.(op := S.Ready(fd))))
                && hub.View() == AfterReset(old(hub.View()), read.value)
    {
      if to == session { return true; }
      if read.None? { return false; }
      Repoint(to, read.value);
      return true;
    }

    /** What the consumer of generation `i` does with the frame it took off its channel. */
    method ConsumeOne(i: nat, f: Frame, ghost g: S.Gateway) returns (stop: bool)
      requires Valid() && Stands(g)
      requires i < |g.feeds| && g.feeds[i].alive && g.feeds[i].inHand != [] && f == g.feeds[i].inHand[0]
      modifies hub, hub.snapshot, hub.clients
      ensures Valid() && Stands(S.ConsumeStep(g, i))
      ensures stop <==> !S.ConsumeStep(g, i).feeds[i].alive
      ensures stop ==> hub.View() == old(hub.View())
      ensures !stop ==> hub.View() == AfterApply(old(hub.View()), f)
    {
      var current := gen == i;
      if current {
        var applied := hub.ApplyFrame(f);
      }
      return !current;
    }

    method AddHub(key: string, h: Hub)
      requires Valid() && key !in registry
      requires h != hub && h.snapshot != hub.snapshot && h.clients == {}
      requires forall k :: k in registry ==> registry[k] != h && registry[k].snapshot != h.snapshot
      modifies `registry
      ensures Valid() && registry == old(registry)[key := h]
      ensures RegistryViews() == old(RegistryViews())[key := h.snapshot.View()]
    {
      registry := registry[key := h];
    }

    method NewRegistryHub(key: string, read: Snap) returns (h: Hub)
      requires Valid() && key !in registry
      modifies `registry
      ensures Valid() && fresh(h) && h.clients == {} && registry == old(registry)[key := h]
      ensures RegistryViews() == old(RegistryViews())[key := read]
    {
      var snap := new Snapshot(read);
      h := new Hub(snap);
      AddHub(key, h);
    }

    /** The read-only hub of a session, made on first use. */
    method GetOrCreateHub(key: string, read: Option<Snap>, ghost g: S.Gateway, ghost fd: S.Feed) returns (h: Hub?)
      requires Valid() && Stands(g)
      requires read.Some? ==> fd.key == key && fd.read == read.value
      modifies `registry
      ensures Valid()
      ensures old(key in registry) ==> h == old(registry)[key] && Stands(g)
      ensures old(key !in registry) && read.None? ==> h == null && Stands(g)
      ensures old(key !in registry) && read.Some? ==>
                h != null && fresh(h) && h.clients == {} && registry == old(registry)[key := h]
                && Stands(S.GwNext(map[], g.(regOp := S.Ready(fd)), S.RegCommit).(regOp := g.regOp))
    {
      if key in registry { return registry[key]; }
      if read.None? { return null; }
      h := NewRegistryHub(key, read.value);
      RegCommitFields(g, fd);
    }

    /** Standing, key by key. */
    lemma StandsAt(g: S.Gateway)
      ensures Stands(g) <==>
              session == g.key && gen == |g.feeds| - 1 && hub.snapshot.View() == g.hub
              && registry.Keys == g.registry.Keys
              && forall k :: k in registry ==> registry[k].snapshot.View() == g.registry[k].hub
    {
      if Stands(g) {
        forall k | k in registry ensures k in g.registry && registry[k].snapshot.View() == g.registry[k].hub {
          assert k in RegistryViews();
        }
        forall k | k in g.registry ensures k in registry { assert k in RegistryHubs(g.registry); }
      }
    }

    lemma StandsAfterRegConsume(g: S.Gateway, key: string)
      requires S.GwEnabled(g, S.RegConsume(key))
      requires session == g.key && gen == |g.feeds| - 1 && hub.snapshot.View() == g.hub
      requires registry.Keys == g.registry.Keys
      requires registry[key].snapshot.View() == ApplyFrame(g.registry[key].hub, g.registry[key].feed.inHand[0])
      requires forall k :: k in registry && k != key ==> registry[k].snapshot.View() == g.registry[k].hub
      ensures Stands(S.GwNext(map[], g, S.RegConsume(key)))
    {
      StandsAt(S.GwNext(map[], g, S.RegConsume(key)));
    }

    /** Applies a frame to one registry hub and sends it to that hub's clients; every other
        hub and its clients stay as they were. */
    method ApplyTo(key: string, f: Frame)
      requires Valid() && key in registry
      modifies registry[key], registry[key].snapshot, registry[key].clients
      ensures Valid() && registry[key].View() == AfterApply(old(registry[key].View()), f)
      ensures registry[key].snapshot.View() == ApplyFrame(old(registry[key].snapshot.View()), f)
      ensures hub.View() == old(hub.View())
      ensures forall k :: k in registry && k != key ==> registry[k].View() == old(registry[k].View())
    {
      var applied := registry[key].ApplyFrame(f);
    }

    /** A registry hub's consumer applies every frame: it is never switched. */
    method ConsumeRegistry(key: string, f: Frame, ghost g: S.Gateway)
      requires Valid() && Stands(g) && S.GwEnabled(g, S.RegConsume(key))
      requires f == g.registry[key].feed.inHand[0] && key in registry
      modifies registry[key], registry[key].snapshot, registry[key].clients
      ensures Valid() && Stands(S.GwNext(map[], g, S.RegConsume(key)))
      ensures registry[key].View() == AfterApply(old(registry[key].View()), f)
    {
      StandsAt(g);
      ApplyTo(key, f);
      StandsAfterRegConsume(g, key);
    }
  }
}
