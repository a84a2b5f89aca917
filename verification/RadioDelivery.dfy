/** What a replayed capture's frames carry in the end (ingest/live_signalr.py): the messages'
    clips, in order and once, however session info, team radio and frames interleave, and
    exactly when an entry whose parsing raises shows in it. */
module RadioDelivery {
  import opened Model
  import opened Sorting
  import opened LiveRadio
  import opened RadioEntries

  // ------------------------------------------------------------------ a replayed capture

  /** The longest beginning in which nothing escapes. */
  ghost function CleanPart(ps: seq<Payload>): seq<Payload> {
    if !EscapeAmong(ps) then ps else CleanPart(ps[..|ps| - 1])
  }

  lemma {:induction false} CleanPartIsClean(ps: seq<Payload>)
    ensures CleanPart(ps) <= ps && !EscapeAmong(CleanPart(ps))
  {
    if EscapeAmong(ps) { CleanPartIsClean(ps[..|ps| - 1]); }
  }

  /** What the messages so far give, and how far the loop has got with it. */
  ghost predicate Delivers(s: Ingest, ps: seq<Payload>, full: string) {
    var all := FromPayloads(ps, full, {});
    && Emitted(s) == all.refs && s.seen == all.seen && s.raised == all.raised
    && (s.raised ==> Concat(s.published) + s.pending <= FromPayloads(CleanPart(ps), full, {}).refs)
    && (!s.raised ==> s.lost == [])
  }

  /** Before the path is known everything waits; afterwards nothing does, and what has been
      published, is pending or was lost is what the messages so far give in arrival order. */
  ghost predicate InStep(s: Ingest, es: seq<Event>, path: string) {
    if PathArrives(es) then
      s.path == FullPath(path) && (!s.raised ==> s.deferred == []) && Delivers(s, Payloads(es), FullPath(path))
    else
      s.path == "" && s.deferred == Payloads(es) && s.seen == {} && s.pending == [] && s.lost == []
      && Concat(s.published) == [] && !s.raised
  }

  lemma PathArrivesSnoc(es: seq<Event>, e: Event)
    ensures PathArrives(es + [e]) <==> PathArrives(es) || (e.SessionInfo? && e.path.Some?)
  {
    var all := es + [e];
    assert all[|es|] == e;
    if PathArrives(es) {
      var i :| 0 <= i < |es| && es[i].SessionInfo? && es[i].path.Some?;
      assert all[i] == es[i];
    }
    if PathArrives(all) {
      var i :| 0 <= i < |all| && all[i].SessionInfo? && all[i].path.Some?;
      if i < |es| { assert all[i] == es[i]; }
    }
  }

  lemma PayloadsSnoc(es: seq<Event>, e: Event)
    ensures Payloads(es + [e]) == if e.TeamRadio? then Payloads(es) + [e.p] else Payloads(es)
    ensures PathArrives(es + [e]) <==> PathArrives(es) || (e.SessionInfo? && e.path.Some?)
  {
    assert (es + [e])[..|es|] == es;
    PathArrivesSnoc(es, e);
  }

  lemma PublishDelivers(s: Ingest, ps: seq<Payload>, full: string)
    requires Delivers(s, ps, full) && !s.raised
    ensures Delivers(Publish(s), ps, full)
  {
    ConcatSnoc(s.published, s.pending);
    assert Concat(s.published) + s.pending + [] + s.lost == Emitted(s);
  }

  lemma TakeEmits(s: Ingest, b: Batch)
    requires s.lost == []
    ensures Emitted(Take(s, b)) == Emitted(s) + b.refs
    ensures Concat(s.published) + s.pending == Emitted(s)
  {
    Regroup(Concat(s.published), s.pending, b.refs);
  }

  /** One more message, with the path known. */
  lemma RadioDelivers(s: Ingest, ps: seq<Payload>, p: Payload, full: string)
    requires Delivers(s, ps, full) && !s.raised && s.path == full && full != ""
    ensures Delivers(Handle(s, TeamRadio(p)), ps + [p], full)
  {
    TakeEmits(s, FromPayload(p, full, s.seen));
    FromPayloadsSnoc(ps, p, full, {});
    PayloadsRaise(ps, full, {});
    PayloadsRaise(ps + [p], full, {});
  }

  lemma RadioInStep(s: Ingest, es: seq<Event>, p: Payload, path: string)
    requires InStep(s, es, path) && !s.raised
    ensures InStep(Handle(s, TeamRadio(p)), es + [TeamRadio(p)], path)
  {
    PayloadsSnoc(es, TeamRadio(p));
    if PathArrives(es) { RadioDelivers(s, Payloads(es), p, FullPath(path)); }
  }

  /** The path arrives, or arrives again. */
  lemma InfoInStep(s: Ingest, es: seq<Event>, info: Option<string>, path: string)
    requires InStep(s, es, path) && !s.raised && (info.Some? ==> info.value == path)
    ensures InStep(Handle(s, SessionInfo(info)), es + [SessionInfo(info)], path)
  {
    PayloadsSnoc(es, SessionInfo(info));
    if !PathArrives(es) && info.Some? {
      var b := FromPayloads(s.deferred, FullPath(path), {});
      assert Concat(s.published) + s.pending == [];
      assert [] + b.refs + [] == b.refs && [] + [] + ([] + b.refs) == b.refs;
      PayloadsRaise(s.deferred, FullPath(path), {});
    }
  }

  lemma OtherInStep(s: Ingest, es: seq<Event>, e: Event, path: string)
    requires InStep(s, es, path) && !s.raised && (e.Position? || e.Unrelated?)
    ensures InStep(Handle(s, e), es + [e], path)
  {
    PayloadsSnoc(es, e);
    if e.Position? && e.decodes {
      var s' := s.(haveCars := s.haveCars || e.cars);
      ConcatSnoc(s.published, s.pending);
      assert Concat(s.published) + [] == Concat(s.published);
      if PathArrives(es) { PublishDelivers(s', Payloads(es), FullPath(path)); }
    }
  }

  /** After an exception nothing moves: what came before it decides the batch as well. */
  lemma RaisedDelivers(s: Ingest, ps: seq<Payload>, p: Payload, full: string)
    requires s.raised && Delivers(s, ps, full)
    ensures Delivers(s, ps + [p], full)
  {
    FromPayloadsSnoc(ps, p, full, {});
    PayloadsRaise(ps, full, {});
    EscapeAmongSnoc(ps, p);
  }

  lemma {:induction false} RunInStep(es: seq<Event>, path: string)
    requires OnePath(es, path)
    ensures InStep(Run(es), es, path)
  {
    if es != [] {
      var front, last := es[..|es| - 1], es[|es| - 1];
      RunInStep(front, path);
      assert front + [last] == es;
      if Run(front).raised {
        PayloadsSnoc(front, last);
        if last.TeamRadio? { RaisedDelivers(Run(front), Payloads(front), last.p, FullPath(path)); }
      } else {
        match last
        case TeamRadio(p) => RadioInStep(Run(front), front, p, path);
        case SessionInfo(info) => InfoInStep(Run(front), front, info, path);
        case _ => OtherInStep(Run(front), front, last, path);
      }
    }
  }

  // ------------------------------------------------------------------ what is delivered

  /** A stream of these messages whose one session path arrives at some point, in any order
      and with any frames between. */
  ghost predicate Stream(es: seq<Event>, ps: seq<Payload>, path: string) {
    OnePath(es, path) && PathArrives(es) && Payloads(es) == ps
  }

  /** What all published frames together carry. */
  function Delivered(es: seq<Event>): seq<RadioRef> {
    Concat(Finish(Run(es)).published)
  }

  /** The replay ends in an exception if and only if the path arrives and some entry escapes. */
  lemma RaisedIff(es: seq<Event>, path: string)
    requires OnePath(es, path)
    ensures Run(es).raised <==> PathArrives(es) && EscapeAmong(Payloads(es))
  {
    RunInStep(es, path);
    PayloadsRaise(Payloads(es), FullPath(path), {});
  }

  lemma PrefixDistinct(xs: seq<RadioRef>, ys: seq<RadioRef>)
    requires DistinctClips(xs + ys)
    ensures DistinctClips(xs)
  {
    forall i, j | 0 <= i < j < |xs| ensures xs[i].clip != xs[j].clip {
      assert (xs + ys)[i] == xs[i] && (xs + ys)[j] == xs[j];
    }
  }

  lemma FlushDelivers(s: Ingest, ps: seq<Payload>, full: string)
    requires Account(s) && Delivers(s, ps, full) && !s.raised
    ensures Concat(Flush(s).published) == FromPayloads(ps, full, {}).refs && Flush(s).pending == []
    ensures Account(Flush(s)) && Flush(s).seen == Clips(Concat(Flush(s).published))
    ensures DistinctClips(Concat(Flush(s).published))
  {
    var s' := Flush(s);
    if s.pending != [] { PublishAccount(s); }
    Regroup(Concat(s'.published), [], []);
    assert Emitted(s') == Concat(s'.published);
  }

  /** A whole stream: what is delivered, in order and each clip once, is exactly what the
      messages give with the path known from the start, the stored snapshot's radio is the
      same list and nothing is left behind, provided no entry escapes; otherwise it is a
      beginning of what comes before the first message that raises. */
  lemma StreamDelivers(es: seq<Event>, path: string)
    requires OnePath(es, path) && PathArrives(es)
    ensures var s := Finish(Run(es));
            var ps := Payloads(es);
            && s.snapshotRadio == Delivered(es) && DistinctClips(Delivered(es))
            && (if EscapeAmong(ps) then Delivered(es) <= FromPayloads(CleanPart(ps), FullPath(path), {}).refs
                else Delivered(es) == FromPayloads(ps, FullPath(path), {}).refs
                     && s.seen == Clips(Delivered(es)) && s.pending == [] && s.deferred == [])
  {
    RunInStep(es, path);
    RaisedIff(es, path);
    RunAccount(es);
    var s := Run(es);
    if s.raised {
      SeenIsPublishedPlusPending(es, false);
      PrefixDistinct(Concat(s.published), s.pending);
      assert Concat(s.published) <= Concat(s.published) + s.pending;
    } else {
      FlushDelivers(s, Payloads(es), FullPath(path));
    }
  }

  lemma {:induction false} PayloadsAppend(es: seq<Event>, more: seq<Event>)
    ensures Payloads(es + more) == Payloads(es) + Payloads(more)
  {
    if more == [] {
      assert es + more == es;
    } else {
      var front, last := more[..|more| - 1], more[|more| - 1];
      PayloadsAppend(es, front);
      assert es + more == es + front + [last];
      PayloadsSnoc(es + front, last);
    }
  }

  lemma PayloadsOne(e: Event)
    ensures Payloads([e]) == if e.TeamRadio? then [e.p] else []
  {
    PayloadsSnoc([], e);
    assert [] + [e] == [e];
  }

  lemma CleanRefsIff(ps: seq<Payload>, full: string)
    ensures !EscapeAmong(ps) ==> (FromPayloads(ps, full, {}).refs != [] <==> AnyGood(AllCaptures(ps)))
  {
    EscapesAreAmong(ps);
    RefsIff(ps, full);
    if !EscapeAmong(ps) { GoodWithoutEscapes(AllCaptures(ps)); }
  }

  /** A late session info loses nothing that arrives readable: without escapes, the stream
      delivers what it would have delivered had the info come first if and only if the info
      arrives at all or there is no good entry. */
  lemma OrderDoesNotMatter(es: seq<Event>, path: string)
    requires OnePath(es, path)
    ensures !EscapeAmong(Payloads(es)) ==>
              (Delivered(es) == Delivered([SessionInfo(Some(path))] + es)
               <==> PathArrives(es) || !AnyGood(AllCaptures(Payloads(es))))
  {
    CleanRefsIff(Payloads(es), FullPath(path));
    var info := SessionInfo(Some(path));
    var first := [info] + es;
    assert first[0] == info;
    assert OnePath(first, path) by {
      forall i | 0 <= i < |first| && first[i].SessionInfo? && first[i].path.Some? ensures first[i].path.value == path {
        if i > 0 { assert first[i] == es[i - 1]; }
      }
    }
    PayloadsAppend([info], es);
    PayloadsOne(info);
    assert [] + Payloads(es) == Payloads(es);
    StreamDelivers(first, path);
    if PathArrives(es) {
      StreamDelivers(es, path);
    } else {
      RunInStep(es, path);
    }
  }

  /** A good clip on a stream whose session info never carries a path is not delivered, and
      would have been had it carried one. */
  lemma PathNeverArrives(good: Capture, path: string)
    requires Judge(good) == Good
    ensures var es := [TeamRadio(Listed([Entry(good)]))];
            && Delivered(es) == []
            && Delivered([SessionInfo(Some(path))] + es) == [RefOf(good, FullPath(path))]
  {
    var info, radio := SessionInfo(Some(path)), TeamRadio(Listed([Entry(good)]));
    var first := [info] + [radio];
    assert [radio][..0] == [] && [info][..0] == [] && first[..1] == [info];
    assert [Entry(good)][..0] == [] && Captures([Entry(good)]) == [good];
    CollectOne(good, FullPath(path));
    assert Run([radio]).pending == [] && Run([radio]).published == [];
    assert Run([info]) == START.(path := FullPath(path));
    var refs := [RefOf(good, FullPath(path))];
    assert FromPayload(Listed([Entry(good)]), FullPath(path), {}).refs == SortBy(refs, EarlierOrSame);
    assert Run(first).pending == [RefOf(good, FullPath(path))] && Run(first).published == [];
    ConcatSnoc([], [RefOf(good, FullPath(path))]);
    assert [] + [[RefOf(good, FullPath(path))]] == [[RefOf(good, FullPath(path))]];
  }

  // ------------------------------------------------------------------ when an entry escapes

  function Radios(ps: seq<Payload>): seq<Event> {
    if ps == [] then [] else Radios(ps[..|ps| - 1]) + [TeamRadio(ps[|ps| - 1])]
  }

  lemma {:induction false} RadiosAre(ps: seq<Payload>)
    ensures |Radios(ps)| == |ps| && (forall i :: 0 <= i < |ps| ==> Radios(ps)[i].TeamRadio?)
    ensures Payloads(Radios(ps)) == ps
  {
    if ps != [] {
      RadiosAre(ps[..|ps| - 1]);
      PayloadsSnoc(Radios(ps[..|ps| - 1]), TeamRadio(ps[|ps| - 1]));
    }
  }

  /** The messages first, the session info last: all wait, and are read in one go. */
  function InfoLast(ps: seq<Payload>, path: string): seq<Event> {
    Radios(ps) + [SessionInfo(Some(path))]
  }

  lemma InfoLastIsStream(ps: seq<Payload>, path: string)
    ensures Stream(InfoLast(ps, path), ps, path)
    ensures OnePath(Radios(ps), path) && !PathArrives(Radios(ps)) && Payloads(Radios(ps)) == ps
  {
    var waiting, info := Radios(ps), SessionInfo(Some(path));
    RadiosAre(ps);
    PayloadsSnoc(waiting, info);
    assert OnePath(waiting, path) && !PathArrives(waiting);
    assert OnePath(waiting + [info], path);
  }

  lemma InfoLastIs(ps: seq<Payload>, path: string)
    requires EscapeAmong(ps)
    ensures Delivered(InfoLast(ps, path)) == []
    ensures Run(InfoLast(ps, path)).lost == FromPayloads(ps, FullPath(path), {}).refs
  {
    var waiting, refs := Radios(ps), FromPayloads(ps, FullPath(path), {}).refs;
    InfoLastIsStream(ps, path);
    RunInStep(waiting, path);
    PayloadsRaise(ps, FullPath(path), {});
    RunSnoc(waiting, SessionInfo(Some(path)));
    assert [] + refs == refs;
  }

  /** For which messages the account is right however they are ordered and batched: exactly
      those where no entry escapes, or no good one stands before the first that does. */
  lemma AlwaysAccountedIff(ps: seq<Payload>, path: string)
    ensures (forall es :: Stream(es, ps, path) ==> Accounted(Run(es)))
            <==> !EscapeAmong(ps) || !GoodFirst(AllCaptures(ps))
  {
    var refs := FromPayloads(ps, FullPath(path), {}).refs;
    RefsIff(ps, FullPath(path));
    if !EscapeAmong(ps) || refs == [] {
      forall es | Stream(es, ps, path) ensures Accounted(Run(es)) {
        RunInStep(es, path);
        RaisedIff(es, path);
        RunAccount(es);
        AccountedIff(Run(es));
      }
    } else {
      var es := InfoLast(ps, path);
      InfoLastIsStream(ps, path);
      InfoLastIs(ps, path);
      RunAccount(es);
      AccountedIff(Run(es));
      assert Stream(es, ps, path) && !Accounted(Run(es));
    }
  }

  /** The captures that do not escape, as a message of their own. */
  function Keep(caps: seq<Capture>): seq<Item> {
    if caps == [] then []
    else
      var front, last := Keep(caps[..|caps| - 1]), caps[|caps| - 1];
      if Judge(last) == Escapes then front else front + [Entry(last)]
  }

  function Tolerated(ps: seq<Payload>): seq<Payload> {
    if ps == [] then [] else Tolerated(ps[..|ps| - 1]) + [Listed(Keep(PayloadCaptures(ps[|ps| - 1])))]
  }

  /** What a tolerant reader would deliver: every malformed entry skipped, whatever is wrong
      with it. */
  function Wanted(ps: seq<Payload>, path: string): seq<RadioRef> {
    FromPayloads(Tolerated(ps), FullPath(path), {}).refs
  }

  lemma CapturesSnoc(items: seq<Item>, c: Capture)
    ensures Captures(items + [Entry(c)]) == Captures(items) + [c]
  {
    assert (items + [Entry(c)])[..|items|] == items;
  }

  lemma {:induction false} KeepIsClean(caps: seq<Capture>)
    ensures !AnyEscapes(Captures(Keep(caps)))
    ensures !AnyEscapes(caps) ==> Captures(Keep(caps)) == caps
  {
    if caps != [] {
      var front, last := caps[..|caps| - 1], caps[|caps| - 1];
      KeepIsClean(front);
      assert caps == front + [last];
      AnyEscapesSnoc(front, last);
      CapturesSnoc(Keep(front), last);
      AnyEscapesSnoc(Captures(Keep(front)), last);
    }
  }

  lemma {:induction false} ToleratedIsClean(ps: seq<Payload>)
    ensures !EscapeAmong(Tolerated(ps))
  {
    if ps != [] {
      var last := Listed(Keep(PayloadCaptures(ps[|ps| - 1])));
      ToleratedIsClean(ps[..|ps| - 1]);
      KeepIsClean(PayloadCaptures(ps[|ps| - 1]));
      EscapeAmongSnoc(Tolerated(ps[..|ps| - 1]), last);
    }
  }

  lemma {:induction false} KeepGood(caps: seq<Capture>)
    ensures AnyGood(Captures(Keep(caps))) <==> AnyGood(caps)
  {
    if caps != [] {
      var front, last := caps[..|caps| - 1], caps[|caps| - 1];
      KeepGood(front);
      assert caps == front + [last];
      AnyGoodAppend(front, [last]);
      CapturesSnoc(Keep(front), last);
      AnyGoodAppend(Captures(Keep(front)), [last]);
      if Judge(last) == Good { assert [last][0] == last; }
    }
  }

  lemma {:induction false} ToleratedGood(ps: seq<Payload>)
    ensures AnyGood(AllCaptures(Tolerated(ps))) <==> AnyGood(AllCaptures(ps))
  {
    if ps != [] {
      var front, last := ps[..|ps| - 1], ps[|ps| - 1];
      var kept := Listed(Keep(PayloadCaptures(last)));
      ToleratedGood(front);
      KeepGood(PayloadCaptures(last));
      AnyGoodAppend(AllCaptures(front), PayloadCaptures(last));
      AnyGoodAppend(AllCaptures(Tolerated(front)), PayloadCaptures(kept));
      assert (Tolerated(front) + [kept])[..|Tolerated(front)|] == Tolerated(front);
    }
  }

  /** Something is wanted if and only if some entry is good. */
  lemma WantedIff(ps: seq<Payload>, path: string)
    ensures Wanted(ps, path) != [] <==> AnyGood(AllCaptures(ps))
  {
    ToleratedIsClean(ps);
    CleanRefsIff(Tolerated(ps), FullPath(path));
    ToleratedGood(ps);
  }

  lemma {:induction false} ToleratedSame(ps: seq<Payload>, full: string)
    requires !EscapeAmong(ps)
    ensures FromPayloads(Tolerated(ps), full, {}) == FromPayloads(ps, full, {})
  {
    if ps != [] {
      var front, last := ps[..|ps| - 1], ps[|ps| - 1];
      assert ps == front + [last];
      EscapeAmongSnoc(front, last);
      ToleratedSame(front, full);
      KeepIsClean(PayloadCaptures(last));
      FromPayloadsSnoc(Tolerated(front), Listed(Keep(PayloadCaptures(last))), full, {});
    }
  }

  lemma {:induction false} WantedPrefix(ps: seq<Payload>, n: nat, path: string)
    requires n <= |ps|
    ensures Wanted(ps[..n], path) <= Wanted(ps, path)
  {
    if n == |ps| {
      assert ps[..n] == ps;
    } else {
      var front := ps[..|ps| - 1];
      assert front[..n] == ps[..n] && front + [ps[|ps| - 1]] == ps;
      WantedPrefix(front, n, path);
      PrefixOfPrefix(Wanted(ps[..n], path), Wanted(front, path), Wanted(ps, path));
    }
  }

  /** What comes before the first message that raises begins what is wanted. */
  lemma CleanBegins(ps: seq<Payload>, path: string)
    ensures FromPayloads(CleanPart(ps), FullPath(path), {}).refs <= Wanted(ps, path)
  {
    var clean := CleanPart(ps);
    CleanPartIsClean(ps);
    ToleratedSame(clean, FullPath(path));
    WantedPrefix(ps, |clean|, path);
    assert ps[..|clean|] == clean;
  }

  /** For which messages the promise that a malformed entry is skipped and never costs
      another one holds, however they are ordered and batched: exactly those where no entry
      escapes, or none is good. */
  lemma AlwaysDeliveredIff(ps: seq<Payload>, path: string)
    ensures (forall es :: Stream(es, ps, path) ==> Delivered(es) == Wanted(ps, path))
            <==> !EscapeAmong(ps) || !AnyGood(AllCaptures(ps))
  {
    WantedIff(ps, path);
    if !EscapeAmong(ps) || Wanted(ps, path) == [] {
      if !EscapeAmong(ps) { ToleratedSame(ps, FullPath(path)); }
      CleanBegins(ps, path);
      forall es | Stream(es, ps, path) ensures Delivered(es) == Wanted(ps, path) {
        StreamDelivers(es, path);
      }
    } else {
      InfoLastIsStream(ps, path);
      InfoLastIs(ps, path);
    }
  }

  // ------------------------------------------------------------------ when the order shows

  lemma OneMorePublishes(es: seq<Event>, e: Event)
    ensures Concat(Run(es).published) <= Concat(Run(es + [e]).published)
  {
    RunSnoc(es, e);
  }

  lemma {:induction false} PublishedGrows(es: seq<Event>, more: seq<Event>)
    ensures Concat(Run(es).published) <= Concat(Run(es + more).published)
  {
    if more == [] {
      assert es + more == es;
    } else {
      var front, last := more[..|more| - 1], more[|more| - 1];
      PublishedGrows(es, front);
      assert es + more == es + front + [last];
      OneMorePublishes(es + front, last);
      PrefixOfPrefix(Concat(Run(es).published), Concat(Run(es + front).published), Concat(Run(es + more).published));
    }
  }

  /** The session info first, and a frame just before the first message that raises. */
  function FrameBefore(clean: seq<Payload>, rest: seq<Payload>, path: string): seq<Event> {
    [SessionInfo(Some(path))] + Radios(clean) + [FRAME] + Radios(rest)
  }

  /** A stream that starts with the session info and has no other. */
  lemma InfoFirst(es: seq<Event>, path: string)
    requires forall i :: 0 <= i < |es| ==> !es[i].SessionInfo?
    ensures Stream([SessionInfo(Some(path))] + es, Payloads(es), path)
  {
    var info := SessionInfo(Some(path));
    PayloadsAppend([info], es);
    PayloadsOne(info);
    assert [] + Payloads(es) == Payloads(es);
    assert ([info] + es)[0] == info;
  }

  lemma FrameBeforeIsStream(clean: seq<Payload>, rest: seq<Payload>, path: string)
    ensures Stream(FrameBefore(clean, rest, path), clean + rest, path)
  {
    var es := Radios(clean) + [FRAME] + Radios(rest);
    RadiosAre(clean);
    RadiosAre(rest);
    PayloadsOne(FRAME);
    PayloadsAppend(Radios(clean), [FRAME]);
    PayloadsAppend(Radios(clean) + [FRAME], Radios(rest));
    assert clean + [] == clean;
    InfoFirst(es, path);
    assert FrameBefore(clean, rest, path) == [SessionInfo(Some(path))] + es;
  }

  lemma InfoFirstIs(clean: seq<Payload>, path: string)
    requires !EscapeAmong(clean)
    ensures var s := Run([SessionInfo(Some(path))] + Radios(clean));
            !s.raised && Concat(s.published) + s.pending == FromPayloads(clean, FullPath(path), {}).refs
  {
    var start := [SessionInfo(Some(path))] + Radios(clean);
    RadiosAre(clean);
    InfoFirst(Radios(clean), path);
    RunInStep(start, path);
    RaisedIff(start, path);
    TakeEmits(Run(start), Batch([], {}, false));
  }

  lemma FrameBeforeIs(clean: seq<Payload>, rest: seq<Payload>, path: string)
    requires !EscapeAmong(clean)
    ensures FromPayloads(clean, FullPath(path), {}).refs <= Concat(Run(FrameBefore(clean, rest, path)).published)
  {
    var start := [SessionInfo(Some(path))] + Radios(clean);
    InfoFirstIs(clean, path);
    RunSnoc(start, FRAME);
    ConcatSnoc(Run(start).published, Run(start).pending);
    PublishedGrows(start + [FRAME], Radios(rest));
  }

  /** For which messages the delivery is the same in every order: exactly those where no
      entry escapes, or no good one comes in a message before the first that raises. */
  lemma OrderNeverShowsIff(ps: seq<Payload>, path: string)
    ensures (forall es, es' :: Stream(es, ps, path) && Stream(es', ps, path) ==> Delivered(es) == Delivered(es'))
            <==> !EscapeAmong(ps) || !AnyGood(AllCaptures(CleanPart(ps)))
  {
    CleanPartIsClean(ps);
    CleanRefsIff(CleanPart(ps), FullPath(path));
    if !EscapeAmong(ps) || FromPayloads(CleanPart(ps), FullPath(path), {}).refs == [] {
      forall es, es' | Stream(es, ps, path) && Stream(es', ps, path) ensures Delivered(es) == Delivered(es') {
        StreamDelivers(es, path);
        StreamDelivers(es', path);
      }
    } else {
      var clean := CleanPart(ps);
      var es, es' := InfoLast(ps, path), FrameBefore(clean, ps[|clean|..], path);
      InfoLastIsStream(ps, path);
      InfoLastIs(ps, path);
      FrameBeforeIs(clean, ps[|clean|..], path);
      FrameBeforeIsStream(clean, ps[|clean|..], path);
      assert clean + ps[|clean|..] == ps;
      RaisedIff(es', path);
      assert Stream(es, ps, path) && Stream(es', ps, path) && Delivered(es) != Delivered(es');
    }
  }
}
