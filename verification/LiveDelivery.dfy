/** What the live connection's frames carry in the end (ingest/live_signalr.py): its dispatcher
    drops a message whose handling raises and goes on, and messages parked behind one that
    raises stay parked. */
module LiveDelivery {
  import opened Model
  import opened Sorting
  import opened LiveRadio
  import opened RadioEntries
  import opened RadioDelivery

  // ------------------------------------------------------------------ without an exception

  /** As long as nothing raises, the live connection is the replay. */
  lemma {:induction false} LiveIsReplay(es: seq<Event>)
    ensures !Run(es).raised ==> RunLive(es) == Run(es)
  {
    if es != [] { LiveIsReplay(es[..|es| - 1]); }
  }

  // ------------------------------------------------------------------ with one

  /** The messages that wait for the path, and those that come after it. */
  ghost function Parked(es: seq<Event>): seq<Payload> {
    if es == [] then []
    else
      var front, last := es[..|es| - 1], es[|es| - 1];
      if last.TeamRadio? && !PathArrives(front) then Parked(front) + [last.p] else Parked(front)
  }

  ghost function Later(es: seq<Event>): seq<Payload> {
    if es == [] then []
    else
      var front, last := es[..|es| - 1], es[|es| - 1];
      if last.TeamRadio? && PathArrives(front) then Later(front) + [last.p] else Later(front)
  }

  function Each(ps: seq<Payload>): seq<seq<Capture>> {
    if ps == [] then [] else Each(ps[..|ps| - 1]) + [PayloadCaptures(ps[|ps| - 1])]
  }

  /** What is read in one go, and dropped in one go if it raises: the parked messages together,
      then each later message by itself. */
  ghost function Groups(es: seq<Event>): seq<seq<Capture>> {
    [AllCaptures(Parked(es))] + Each(Later(es))
  }

  ghost predicate MarkedAmong(groups: seq<seq<Capture>>, full: string, clip: string) {
    exists k :: 0 <= k < |groups| && Marked(groups[k], full, clip)
  }

  /** The first group that marks the clip is one in which nothing escapes. */
  ghost predicate Survives(groups: seq<seq<Capture>>, full: string, clip: string) {
    exists k :: 0 <= k < |groups| && Marked(groups[k], full, clip) && !AnyEscapes(groups[k])
                && !MarkedAmong(groups[..k], full, clip)
  }

  lemma GroupsSnoc(groups: seq<seq<Capture>>, g: seq<Capture>, full: string, clip: string)
    ensures MarkedAmong(groups + [g], full, clip) <==> MarkedAmong(groups, full, clip) || Marked(g, full, clip)
    ensures Survives(groups + [g], full, clip)
            <==> Survives(groups, full, clip)
                 || (!MarkedAmong(groups, full, clip) && Marked(g, full, clip) && !AnyEscapes(g))
  {
    var all := groups + [g];
    assert all[|groups|] == g && all[..|groups|] == groups;
    assert forall k :: 0 <= k < |groups| ==> all[k] == groups[k] && all[..k] == groups[..k];
    if MarkedAmong(groups, full, clip) {
      var k :| 0 <= k < |groups| && Marked(groups[k], full, clip);
      assert Marked(all[k], full, clip);
    }
    if Survives(groups, full, clip) {
      var k :| 0 <= k < |groups| && Marked(groups[k], full, clip) && !AnyEscapes(groups[k])
               && !MarkedAmong(groups[..k], full, clip);
      assert Marked(all[k], full, clip) && !MarkedAmong(all[..k], full, clip);
    }
    if Survives(all, full, clip) {
      var k :| 0 <= k < |all| && Marked(all[k], full, clip) && !AnyEscapes(all[k])
               && !MarkedAmong(all[..k], full, clip);
      if k < |groups| { assert Marked(groups[k], full, clip) && !MarkedAmong(groups[..k], full, clip); }
    }
  }

  // ------------------------------------------------------------------ the loop, step by step

  function Kept(s: Ingest): seq<RadioRef> {
    Concat(s.published) + s.pending
  }

  /** What is marked and what is kept are what the groups say. */
  ghost predicate Tells(s: Ingest, groups: seq<seq<Capture>>, full: string) {
    && (forall clip :: clip in s.seen <==> MarkedAmong(groups, full, clip))
    && (forall clip :: clip in Clips(Kept(s)) <==> Survives(groups, full, clip))
  }

  ghost predicate LiveInStep(s: Ingest, es: seq<Event>, path: string) {
    if PathArrives(es) then
      && s.path == FullPath(path) && Tells(s, Groups(es), FullPath(path))
      && s.deferred == if AnyEscapes(AllCaptures(Parked(es))) then Parked(es) else []
    else
      s.path == "" && s.deferred == Parked(es) && Later(es) == [] && s.seen == {} && Kept(s) == []
  }

  /** One group more is read. */
  lemma GroupTells(s: Ingest, groups: seq<seq<Capture>>, b: Batch, g: seq<Capture>, full: string)
    requires Tells(s, groups, full) && FreshBatch(b, s.seen) && (b.raised <==> AnyEscapes(g))
    requires forall clip :: clip in b.seen <==> clip in s.seen || Marked(g, full, clip)
    ensures Tells(Take(s, b), groups + [g], full)
  {
    var s' := Take(s, b);
    assert Kept(s') == if b.raised then Kept(s) else Kept(s) + b.refs;
    assert Clips(Kept(s) + b.refs) == Clips(Kept(s)) + Clips(b.refs);
    forall clip ensures clip in s'.seen <==> MarkedAmong(groups + [g], full, clip) {
      GroupsSnoc(groups, g, full, clip);
    }
    forall clip ensures clip in Clips(Kept(s')) <==> Survives(groups + [g], full, clip) {
      GroupsSnoc(groups, g, full, clip);
    }
  }

  lemma PayloadFacts(p: Payload, full: string, seen: set<string>)
    ensures var b := FromPayload(p, full, seen);
            && FreshBatch(b, seen) && (b.raised <==> AnyEscapes(PayloadCaptures(p)))
            && forall clip :: clip in b.seen <==> clip in seen || Marked(PayloadCaptures(p), full, clip)
  {
    PayloadFresh(p, full, seen);
    CollectRaises(PayloadCaptures(p), full, seen);
    forall clip
      ensures clip in FromPayload(p, full, seen).seen <==> clip in seen || Marked(PayloadCaptures(p), full, clip)
    {
      CollectMarks(PayloadCaptures(p), full, seen, clip);
    }
  }

  lemma PayloadsFacts(ps: seq<Payload>, full: string, seen: set<string>)
    ensures var b := FromPayloads(ps, full, seen);
            && FreshBatch(b, seen) && (b.raised <==> AnyEscapes(AllCaptures(ps)))
            && forall clip :: clip in b.seen <==> clip in seen || Marked(AllCaptures(ps), full, clip)
  {
    PayloadsFresh(ps, full, seen);
    PayloadsMark(ps, full, seen, "");
    forall clip
      ensures clip in FromPayloads(ps, full, seen).seen <==> clip in seen || Marked(AllCaptures(ps), full, clip)
    {
      PayloadsMark(ps, full, seen, clip);
    }
  }

  lemma EachSnoc(ps: seq<Payload>, p: Payload)
    ensures Each(ps + [p]) == Each(ps) + [PayloadCaptures(p)]
  {
    assert (ps + [p])[..|ps|] == ps;
  }

  /** How an event moves the groups. */
  lemma StreamSnoc(es: seq<Event>, e: Event)
    ensures PathArrives(es + [e]) <==> PathArrives(es) || (e.SessionInfo? && e.path.Some?)
    ensures Parked(es + [e]) == if e.TeamRadio? && !PathArrives(es) then Parked(es) + [e.p] else Parked(es)
    ensures Later(es + [e]) == if e.TeamRadio? && PathArrives(es) then Later(es) + [e.p] else Later(es)
    ensures PathArrives(es) ==>
              Groups(es + [e]) == if e.TeamRadio? then Groups(es) + [PayloadCaptures(e.p)] else Groups(es)
  {
    assert (es + [e])[..|es|] == es;
    PathArrivesSnoc(es, e);
    if e.TeamRadio? { EachSnoc(Later(es), e.p); }
  }

  lemma LiveRadioStep(s: Ingest, es: seq<Event>, p: Payload, path: string)
    requires LiveInStep(s, es, path)
    ensures LiveInStep(Handle(s, TeamRadio(p)), es + [TeamRadio(p)], path)
  {
    StreamSnoc(es, TeamRadio(p));
    if PathArrives(es) {
      PayloadFacts(p, s.path, s.seen);
      GroupTells(s, Groups(es), FromPayload(p, s.path, s.seen), PayloadCaptures(p), s.path);
    }
  }

  /** Reading what waits, and leaving `rest` parked. */
  lemma ParkedTells(s: Ingest, rest: seq<Payload>, full: string)
    requires s.seen == {} && Kept(s) == []
    ensures var b := FromPayloads(s.deferred, full, {});
            && (b.raised <==> AnyEscapes(AllCaptures(s.deferred)))
            && Tells(Take(s.(path := full, deferred := rest), b), [AllCaptures(s.deferred)], full)
  {
    var s0 := s.(path := full, deferred := rest);
    assert Kept(s0) == Kept(s);
    assert Tells(s0, [], full);
    PayloadsFacts(s.deferred, full, {});
    GroupTells(s0, [], FromPayloads(s.deferred, full, {}), AllCaptures(s.deferred), full);
    assert [] + [AllCaptures(s.deferred)] == [AllCaptures(s.deferred)];
  }

  /** The path arrives: what waits is read, and stays parked if it raises. */
  lemma PathStep(s: Ingest, es: seq<Event>, path: string)
    requires LiveInStep(s, es, path) && !PathArrives(es)
    ensures LiveInStep(Handle(s, SessionInfo(Some(path))), es + [SessionInfo(Some(path))], path)
  {
    var full, info := FullPath(path), SessionInfo(Some(path));
    var b := FromPayloads(s.deferred, full, {});
    var rest := if b.raised then s.deferred else [];
    StreamSnoc(es, info);
    ParkedTells(s, rest, full);
    assert Groups(es + [info]) == [AllCaptures(s.deferred)];
    assert Handle(s, info) == Take(s.(path := full, deferred := rest), b);
  }

  /** An event that brings no message and no first path, and moves nothing that counts. */
  lemma QuietStep(s: Ingest, s': Ingest, es: seq<Event>, e: Event, path: string)
    requires LiveInStep(s, es, path) && !e.TeamRadio? && (PathArrives(es) || !e.SessionInfo? || e.path.None?)
    requires s'.path == s.path && s'.deferred == s.deferred && s'.seen == s.seen && Kept(s') == Kept(s)
    ensures LiveInStep(s', es + [e], path)
  {
    StreamSnoc(es, e);
  }

  lemma NoClips(refs: seq<RadioRef>)
    ensures refs == [] <==> Clips(refs) == {}
  {
    if refs != [] { assert refs[0].clip in Clips(refs); }
  }

  /** What is still parked raises again, and marks nothing that was not marked. */
  lemma StillParked(s: Ingest, es: seq<Event>, path: string)
    requires LiveInStep(s, es, path) && PathArrives(es) && s.deferred != []
    ensures FromPayloads(s.deferred, s.path, s.seen) == Batch([], s.seen, true)
  {
    var b := FromPayloads(s.deferred, s.path, s.seen);
    PayloadsFacts(s.deferred, s.path, s.seen);
    assert Groups(es)[0] == AllCaptures(s.deferred);
    forall clip ensures clip in b.seen <==> clip in s.seen {
      if Marked(AllCaptures(s.deferred), s.path, clip) { assert MarkedAmong(Groups(es), s.path, clip); }
    }
    assert b.seen == s.seen;
    NoClips(b.refs);
  }

  /** The path arrives again, or an info without one. */
  lemma AgainStep(s: Ingest, es: seq<Event>, info: Option<string>, path: string)
    requires LiveInStep(s, es, path) && PathArrives(es) && (info.Some? ==> info.value == path)
    ensures LiveInStep(Handle(s, SessionInfo(info)), es + [SessionInfo(info)], path)
  {
    if s.deferred != [] { StillParked(s, es, path); }
    QuietStep(s, Handle(s, SessionInfo(info)), es, SessionInfo(info), path);
  }

  lemma FrameStep(s: Ingest, es: seq<Event>, e: Event, path: string)
    requires LiveInStep(s, es, path) && (e.Position? || e.Unrelated?)
    ensures LiveInStep(Handle(s, e), es + [e], path)
  {
    ConcatSnoc(s.published, s.pending);
    assert Kept(Publish(s)) == Kept(s);
    QuietStep(s, Handle(s, e), es, e, path);
  }

  lemma {:induction false} LiveRunInStep(es: seq<Event>, path: string)
    requires OnePath(es, path)
    ensures LiveInStep(RunLive(es), es, path)
  {
    if es != [] {
      var front, last := es[..|es| - 1], es[|es| - 1];
      LiveRunInStep(front, path);
      assert front + [last] == es;
      match last
      case TeamRadio(p) => LiveRadioStep(RunLive(front), front, p, path);
      case SessionInfo(info) =>
        if PathArrives(front) {
          AgainStep(RunLive(front), front, info, path);
        } else if info.Some? {
          PathStep(RunLive(front), front, path);
        } else {
          QuietStep(RunLive(front), RunLive(es), front, last, path);
        }
      case _ => FrameStep(RunLive(front), front, last, path);
    }
  }

  // ------------------------------------------------------------------ what is delivered

  lemma FlushDistinct(s: Ingest)
    requires Account(s)
    ensures DistinctClips(Concat(Flush(s).published)) && Flush(s).deferred == s.deferred
  {
    var s' := Flush(s);
    if s.pending != [] { PublishAccount(s); }
    assert Concat(s'.published) + (s'.pending + s'.lost) == Emitted(s');
    PrefixDistinct(Concat(s'.published), s'.pending + s'.lost);
  }

  /** Over any live stream: each clip is carried at most once; a clip is carried if and only if
      the path arrives and the first group of entries that marks it is one in which nothing
      escapes; and what was parked when the path came is parked for good if an entry of it
      escapes. */
  lemma LiveDelivers(es: seq<Event>, path: string)
    requires OnePath(es, path)
    ensures var s := Flush(RunLive(es));
            && DistinctClips(Concat(s.published))
            && (forall clip :: clip in Clips(Concat(s.published))
                               <==> PathArrives(es) && Survives(Groups(es), FullPath(path), clip))
            && s.deferred == if PathArrives(es) && !AnyEscapes(AllCaptures(Parked(es))) then [] else Parked(es)
  {
    var s := RunLive(es);
    LiveRunInStep(es, path);
    RunAccount(es);
    FlushKept(s);
    FlushDistinct(s);
    assert Clips(Concat(Flush(s).published)) == Clips(Kept(s));
  }

  /** A message with an entry that escapes and a good one behind it, both parked: the good clip
      is neither carried nor marked, however often the path is sent again. */
  lemma ParkedBehindABadOne(bad: Capture, good: Capture, path: string)
    requires Judge(bad) == Escapes && Judge(good) == Good
    ensures var wait := [TeamRadio(Listed([Entry(bad)]))] + [TeamRadio(Listed([Entry(good)]))];
            var s := Flush(RunLive(wait + [SessionInfo(Some(path))] + [SessionInfo(Some(path))]));
            Concat(s.published) == [] && s.seen == {} && |s.deferred| == 2
  {
    var a, b := Listed([Entry(bad)]), Listed([Entry(good)]);
    var info := SessionInfo(Some(path));
    CapturesSnoc([], bad);
    assert [] + [Entry(bad)] == [Entry(bad)] && [] + [bad] == [bad];
    LiveSnoc([], TeamRadio(a));
    assert [] + [TeamRadio(a)] == [TeamRadio(a)];
    LiveSnoc([TeamRadio(a)], TeamRadio(b));
    var wait := [TeamRadio(a)] + [TeamRadio(b)];
    assert RunLive(wait).deferred == [a] + [b];
    LiveSnoc(wait, info);
    LiveSnoc(wait + [info], info);
    CollectOne(bad, FullPath(path));
    assert Collect([bad], FullPath(path), {}) == Batch([], {}, true);
    assert FromPayloads([a], FullPath(path), {}) == Batch([], {}, true);
    assert FromPayloads([a] + [b], FullPath(path), {}) == Batch([], {}, true) by {
      FromPayloadsSnoc([a], b, FullPath(path), {});
    }
  }
}
