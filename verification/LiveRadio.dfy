/** Live team radio (ingest/live_signalr.py, ingest/radio.py): topics arrive in any order,
    refs are deferred until the session path is known, de-duplicated by clip URL, batched
    onto published frames and flushed at stream end.

    A capture's fields are what parsing them gives: missing, unreadable in a way the code
    catches, or out of a range that it does not (a number that is infinite, an instant that
    no calendar holds), or read. `Ingest` is the event loop's variables as a value, and the
    class `RadioIngest` updates them in place. `lost` keeps the refs that were marked as
    emitted by a message whose handling then raised: no program variable holds them. */
module LiveRadio {
  import opened Model
  import opened Sorting

  const STATIC_BASE := "https://livetiming.formula1.com"

  datatype Field = Missing | Unreadable | OutOfRange | Read(value: int)

  datatype PathField = NoPath | NotText | Text(path: string)

  datatype Capture = Capture(timeMs: Field, driverNum: Field, path: PathField)

  datatype Item = Entry(cap: Capture) | Junk

  /** A TeamRadio message: a list of captures, an index-keyed patch, or neither. */
  datatype Payload = Listed(items: seq<Item>) | Indexed(patch: seq<(int, Item)>) | Other

  // ------------------------------------------------------------------ one payload

  function TrimLeft(s: string): string {
    if s != [] && s[0] == '/' then TrimLeft(s[1..]) else s
  }

  function TrimRight(s: string): string {
    if s != [] && s[|s| - 1] == '/' then TrimRight(s[..|s| - 1]) else s
  }

  function ClipUrl(sessionPath: string, path: string): string {
    TrimRight(STATIC_BASE) + "/" + TrimRight(TrimLeft(sessionPath)) + "/" + TrimLeft(path)
  }

  /** What becomes of an entry: a ref, skipped, or an exception that leaves the loop. The
      number is parsed before the time, and the path is only used after both. */
  datatype Verdict = Good | Skipped | Escapes

  function Judge(c: Capture): Verdict {
    if c.timeMs.Missing? || c.driverNum.Missing? || c.path.NoPath? then Skipped
    else if c.driverNum.OutOfRange? then Escapes
    else if c.driverNum.Unreadable? then Skipped
    else if c.timeMs.OutOfRange? then Escapes
    else if c.timeMs.Unreadable? then Skipped
    else if c.path.NotText? then Escapes
    else Good
  }

  function RefOf(c: Capture, sessionPath: string): RadioRef
    requires Judge(c) == Good
  {
    RadioRef(c.timeMs.value, c.driverNum.value, ClipUrl(sessionPath, c.path.path))
  }

  /** Refs found, the seen set left behind, and whether an exception ended the search: then
      nobody receives the refs. */
  datatype Batch = Batch(refs: seq<RadioRef>, seen: set<string>, raised: bool)

  /** New refs of a capture list, in list order; a clip already seen is skipped. */
  function Collect(caps: seq<Capture>, sessionPath: string, seen: set<string>): Batch {
    if caps == [] then Batch([], seen, false)
    else
      var front, c := Collect(caps[..|caps| - 1], sessionPath, seen), caps[|caps| - 1];
      if front.raised then front
      else
        match Judge(c)
        case Skipped => front
        case Escapes => front.(raised := true)
        case Good =>
          if ClipUrl(sessionPath, c.path.path) in front.seen then front
          else Batch(front.refs + [RefOf(c, sessionPath)], front.seen + {ClipUrl(sessionPath, c.path.path)}, false)
  }

  predicate KeyLe(a: (int, Item), b: (int, Item)) {
    a.0 <= b.0
  }

  function Values(patch: seq<(int, Item)>): seq<Item> {
    if patch == [] then [] else Values(patch[..|patch| - 1]) + [patch[|patch| - 1].1]
  }

  function Captures(items: seq<Item>): seq<Capture> {
    if items == [] then []
    else
      var front, last := Captures(items[..|items| - 1]), items[|items| - 1];
      if last.Entry? then front + [last.cap] else front
  }

  function PayloadCaptures(p: Payload): seq<Capture> {
    match p
    case Listed(items) => Captures(items)
    case Indexed(patch) => Captures(Values(SortBy(patch, KeyLe)))
    case Other => []
  }

  /** What one TeamRadio message adds once the session path is known. */
  function FromPayload(p: Payload, sessionPath: string, seen: set<string>): Batch {
    var b := Collect(PayloadCaptures(p), sessionPath, seen);
    if b.raised then b else b.(refs := SortBy(b.refs, EarlierOrSame))
  }

  function Join(a: Batch, b: Batch): Batch {
    Batch(a.refs + b.refs, b.seen, b.raised)
  }

  /** What a run of TeamRadio messages adds, each batch in time order, up to an exception. */
  function FromPayloads(ps: seq<Payload>, sessionPath: string, seen: set<string>): Batch {
    if ps == [] then Batch([], seen, false)
    else
      var front := FromPayloads(ps[..|ps| - 1], sessionPath, seen);
      if front.raised then front else Join(front, FromPayload(ps[|ps| - 1], sessionPath, front.seen))
  }

  // ------------------------------------------------------------------ the event loop

  datatype Ingest = Ingest(
    path: string, seen: set<string>, pending: seq<RadioRef>, deferred: seq<Payload>,
    published: seq<seq<RadioRef>>, snapshotRadio: seq<RadioRef>, haveCars: bool,
    lost: seq<RadioRef>, raised: bool)

  const START := Ingest("", {}, [], [], [], [], false, [], false)

  /** `decodes` is whether the position payload parses, `cars` whether it carries any car,
      `due` whether the rate limiter lets a frame out. */
  datatype Event =
    | SessionInfo(path: Option<string>)
    | TeamRadio(p: Payload)
    | Position(decodes: bool, cars: bool, due: bool)
    | Unrelated

  function FullPath(path: string): (full: string)
    ensures full != ""
  {
    "/static/" + path
  }

  function Publish(s: Ingest): Ingest {
    s.(published := s.published + [s.pending], snapshotRadio := s.snapshotRadio + s.pending, pending := [])
  }

  /** A batch reaches `pending` unless its message raised. */
  function Take(s: Ingest, b: Batch): Ingest {
    if b.raised then s.(seen := b.seen, lost := s.lost + b.refs, raised := true)
    else s.(seen := b.seen, pending := s.pending + b.refs)
  }

  function Handle(s: Ingest, e: Event): Ingest {
    match e
    case SessionInfo(path) =>
      var s' := s.(path := if path.Some? then FullPath(path.value) else s.path);
      if s'.path == "" || s.deferred == [] then s'
      else
        var b := FromPayloads(s.deferred, s'.path, s.seen);
        Take(if b.raised then s' else s'.(deferred := []), b)
    case TeamRadio(p) =>
      if s.path == "" then s.(deferred := s.deferred + [p]) else Take(s, FromPayload(p, s.path, s.seen))
    case Position(decodes, cars, due) =>
      if !decodes then s
      else
        var s' := s.(haveCars := s.haveCars || cars);
        if due && s'.haveCars then Publish(s') else s'
    case Unrelated => s
  }

  /** Replaying a capture: an exception ends the process. */
  function Run(es: seq<Event>): Ingest {
    if es == [] then START
    else
      var s := Run(es[..|es| - 1]);
      if s.raised then s else Handle(s, es[|es| - 1])
  }

  /** Stream end: refs still pending ride one trailing frame. */
  function Flush(s: Ingest): Ingest {
    if s.pending == [] then s else Publish(s)
  }

  function Finish(s: Ingest): Ingest {
    if s.raised then s else Flush(s)
  }

  /** The live connection: the dispatcher logs an exception and goes on with the next
      message, and stream end flushes whatever happened. */
  function RunLive(es: seq<Event>): Ingest {
    if es == [] then START else Handle(RunLive(es[..|es| - 1]), es[|es| - 1])
  }

  function Concat(batches: seq<seq<RadioRef>>): seq<RadioRef> {
    if batches == [] then [] else Concat(batches[..|batches| - 1]) + batches[|batches| - 1]
  }

  function Payloads(es: seq<Event>): seq<Payload> {
    if es == [] then []
    else
      var front, last := Payloads(es[..|es| - 1]), es[|es| - 1];
      if last.TeamRadio? then front + [last.p] else front
  }

  ghost predicate PathArrives(es: seq<Event>) {
    exists i :: 0 <= i < |es| && es[i].SessionInfo? && es[i].path.Some?
  }

  ghost predicate OnePath(es: seq<Event>, path: string) {
    forall i :: 0 <= i < |es| && es[i].SessionInfo? && es[i].path.Some? ==> es[i].path.value == path
  }

  // ------------------------------------------------------------------ one entry

  /** Dropping this entry from this list changes nothing. */
  ghost predicate NoTrace(c: Capture, xs: seq<Capture>, ys: seq<Capture>, sessionPath: string, seen: set<string>) {
    Collect(xs + [c] + ys, sessionPath, seen) == Collect(xs + ys, sessionPath, seen)
  }

  lemma {:induction false} SkippedLeavesNoTrace(
    c: Capture, xs: seq<Capture>, ys: seq<Capture>, sessionPath: string, seen: set<string>)
    requires Judge(c) == Skipped
    ensures NoTrace(c, xs, ys, sessionPath, seen)
  {
    if ys == [] {
      assert (xs + [c] + ys)[..|xs|] == xs && xs + ys == xs;
    } else {
      assert (xs + [c] + ys)[..|xs + [c] + ys| - 1] == xs + [c] + ys[..|ys| - 1];
      assert (xs + ys)[..|xs + ys| - 1] == xs + ys[..|ys| - 1];
      SkippedLeavesNoTrace(c, xs, ys[..|ys| - 1], sessionPath, seen);
    }
  }

  lemma CollectOne(c: Capture, sessionPath: string)
    ensures Collect([c], sessionPath, {}).refs == if Judge(c) == Good then [RefOf(c, sessionPath)] else []
    ensures Collect([c], sessionPath, {}).raised <==> Judge(c) == Escapes
  {
    assert [c][..0] == [];
  }

  /** An entry leaves no trace, wherever it stands, if and only if a field is missing or the
      number or the time is unreadable in a way the code catches. A path that is not text
      and a value out of range do leave one: they end the message. */
  lemma NoTraceIff(c: Capture)
    ensures (forall xs, ys, sessionPath, seen :: NoTrace(c, xs, ys, sessionPath, seen)) <==> Judge(c) == Skipped
  {
    if Judge(c) == Skipped {
      forall xs, ys, sessionPath, seen ensures NoTrace(c, xs, ys, sessionPath, seen) {
        SkippedLeavesNoTrace(c, xs, ys, sessionPath, seen);
      }
    } else {
      var none: seq<Capture> := [];
      CollectOne(c, "");
      assert none + [c] + none == [c] && none + none == none;
      assert !NoTrace(c, none, none, "", {});
    }
  }

  // ------------------------------------------------------------------ escapes

  ghost predicate AnyEscapes(caps: seq<Capture>) {
    exists i :: 0 <= i < |caps| && Judge(caps[i]) == Escapes
  }

  ghost predicate EscapeAmong(ps: seq<Payload>) {
    exists i :: 0 <= i < |ps| && AnyEscapes(PayloadCaptures(ps[i]))
  }

  lemma AnyEscapesSnoc(caps: seq<Capture>, c: Capture)
    ensures AnyEscapes(caps + [c]) <==> AnyEscapes(caps) || Judge(c) == Escapes
  {
    var all := caps + [c];
    assert all[|caps|] == c;
    if AnyEscapes(caps) {
      var i :| 0 <= i < |caps| && Judge(caps[i]) == Escapes;
      assert all[i] == caps[i];
    }
    if AnyEscapes(all) {
      var i :| 0 <= i < |all| && Judge(all[i]) == Escapes;
      if i < |caps| { assert all[i] == caps[i]; }
    }
  }

  lemma {:induction false} CollectRaises(caps: seq<Capture>, sessionPath: string, seen: set<string>)
    ensures Collect(caps, sessionPath, seen).raised <==> AnyEscapes(caps)
  {
    if caps != [] {
      CollectRaises(caps[..|caps| - 1], sessionPath, seen);
      assert caps == caps[..|caps| - 1] + [caps[|caps| - 1]];
      AnyEscapesSnoc(caps[..|caps| - 1], caps[|caps| - 1]);
    }
  }

  lemma EscapeAmongSnoc(ps: seq<Payload>, p: Payload)
    ensures EscapeAmong(ps + [p]) <==> EscapeAmong(ps) || AnyEscapes(PayloadCaptures(p))
  {
    var all := ps + [p];
    assert all[|ps|] == p;
    if EscapeAmong(ps) {
      var i :| 0 <= i < |ps| && AnyEscapes(PayloadCaptures(ps[i]));
      assert all[i] == ps[i];
    }
    if EscapeAmong(all) {
      var i :| 0 <= i < |all| && AnyEscapes(PayloadCaptures(all[i]));
      if i < |ps| { assert all[i] == ps[i]; }
    }
  }

  lemma {:induction false} PayloadsRaise(ps: seq<Payload>, sessionPath: string, seen: set<string>)
    ensures FromPayloads(ps, sessionPath, seen).raised <==> EscapeAmong(ps)
  {
    if ps != [] {
      var front, last := ps[..|ps| - 1], ps[|ps| - 1];
      PayloadsRaise(front, sessionPath, seen);
      assert ps == front + [last];
      EscapeAmongSnoc(front, last);
      CollectRaises(PayloadCaptures(last), sessionPath, FromPayloads(front, sessionPath, seen).seen);
    }
  }

  // ------------------------------------------------------------------ batches

  lemma {:induction false} FromPayloadsSnoc(ps: seq<Payload>, p: Payload, sessionPath: string, seen: set<string>)
    ensures var front := FromPayloads(ps, sessionPath, seen);
            FromPayloads(ps + [p], sessionPath, seen)
            == if front.raised then front else Join(front, FromPayload(p, sessionPath, front.seen))
  {
    assert (ps + [p])[..|ps|] == ps;
  }

  lemma {:induction false} ConcatSnoc(bs: seq<seq<RadioRef>>, b: seq<RadioRef>)
    ensures Concat(bs + [b]) == Concat(bs) + b
  {
    assert (bs + [b])[..|bs|] == bs;
  }

  ghost predicate DistinctClips(refs: seq<RadioRef>) {
    forall i, j :: 0 <= i < j < |refs| ==> refs[i].clip != refs[j].clip
  }

  function Clips(refs: seq<RadioRef>): set<string> {
    set r | r in refs :: r.clip
  }

  /** A batch's refs are distinct clips, none seen before, and `seen` grows by just those. */
  ghost predicate FreshBatch(b: Batch, seen: set<string>) {
    DistinctClips(b.refs) && Clips(b.refs) !! seen && b.seen == seen + Clips(b.refs)
  }

  lemma OneMoreFresh(b: Batch, r: RadioRef, seen: set<string>)
    requires FreshBatch(b, seen) && r.clip !in b.seen
    ensures FreshBatch(Batch(b.refs + [r], b.seen + {r.clip}, b.raised), seen)
  {
    assert Clips(b.refs + [r]) == Clips(b.refs) + {r.clip};
    forall i | 0 <= i < |b.refs| ensures b.refs[i].clip != r.clip {
      assert b.refs[i].clip in Clips(b.refs);
    }
  }

  lemma {:induction false} CollectFresh(caps: seq<Capture>, sessionPath: string, seen: set<string>)
    ensures FreshBatch(Collect(caps, sessionPath, seen), seen)
  {
    if caps != [] {
      CollectFresh(caps[..|caps| - 1], sessionPath, seen);
      var front, c := Collect(caps[..|caps| - 1], sessionPath, seen), caps[|caps| - 1];
      if !front.raised && Judge(c) == Good && ClipUrl(sessionPath, c.path.path) !in front.seen {
        OneMoreFresh(front, RefOf(c, sessionPath), seen);
      }
    }
  }

  lemma SameClipSameRef(s: seq<RadioRef>, a: RadioRef, b: RadioRef)
    requires DistinctClips(s) && a in s && b in s && a.clip == b.clip
    ensures a == b
  {
    var i :| 0 <= i < |s| && s[i] == a;
    var j :| 0 <= j < |s| && s[j] == b;
  }

  lemma DistinctByCount(s: seq<RadioRef>, t: seq<RadioRef>)
    requires multiset(s) == multiset(t) && DistinctClips(s)
    ensures DistinctClips(t) && Clips(t) == Clips(s)
  {
    forall r | r in t ensures r in s { SameMembers(t, s, r); }
    forall r | r in s ensures r in t { SameMembers(s, t, r); }
    RearrangedNoRepeats(s, t);
    forall i, j | 0 <= i < j < |t| ensures t[i].clip != t[j].clip {
      if t[i].clip == t[j].clip { SameClipSameRef(s, t[i], t[j]); }
    }
  }

  lemma PayloadFresh(p: Payload, sessionPath: string, seen: set<string>)
    ensures FreshBatch(FromPayload(p, sessionPath, seen), seen)
  {
    var b := Collect(PayloadCaptures(p), sessionPath, seen);
    CollectFresh(PayloadCaptures(p), sessionPath, seen);
    SortMultiset(b.refs, EarlierOrSame);
    DistinctByCount(b.refs, SortBy(b.refs, EarlierOrSame));
  }

  lemma JoinFresh(a: Batch, b: Batch, seen: set<string>)
    requires FreshBatch(a, seen) && FreshBatch(b, a.seen)
    ensures FreshBatch(Join(a, b), seen)
  {
    assert Clips(a.refs + b.refs) == Clips(a.refs) + Clips(b.refs);
    forall i, j | 0 <= i < |a.refs| && 0 <= j < |b.refs| ensures a.refs[i].clip != b.refs[j].clip {
      assert a.refs[i].clip in Clips(a.refs) && b.refs[j].clip in Clips(b.refs);
    }
  }

  lemma {:induction false} PayloadsFresh(ps: seq<Payload>, sessionPath: string, seen: set<string>)
    ensures FreshBatch(FromPayloads(ps, sessionPath, seen), seen)
  {
    if ps != [] {
      var front := FromPayloads(ps[..|ps| - 1], sessionPath, seen);
      PayloadsFresh(ps[..|ps| - 1], sessionPath, seen);
      if !front.raised {
        PayloadFresh(ps[|ps| - 1], sessionPath, front.seen);
        JoinFresh(front, FromPayload(ps[|ps| - 1], sessionPath, front.seen), seen);
      }
    }
  }

  // ------------------------------------------------------------------ every clip accounted for

  /** Everything marked as emitted, in no particular order. */
  function Emitted(s: Ingest): seq<RadioRef> {
    Concat(s.published) + s.pending + s.lost
  }

  /** The seen set is the clips published, pending and lost, each exactly once; the stored
      snapshot's radio is what was published. Nothing is lost before an exception. */
  ghost predicate Account(s: Ingest) {
    && s.seen == Clips(Emitted(s)) && DistinctClips(Emitted(s))
    && s.snapshotRadio == Concat(s.published)
    && (!s.raised ==> s.lost == [])
  }

  lemma Regroup<T>(xs: seq<T>, ys: seq<T>, zs: seq<T>)
    ensures xs + ys + [] == xs + ys && xs + (ys + zs) + [] == xs + ys + [] + zs && [] + zs == zs
  {
    assert xs + (ys + zs) == xs + ys + zs;
  }

  lemma PrefixOfPrefix<T>(xs: seq<T>, ys: seq<T>, zs: seq<T>)
    requires xs <= ys && ys <= zs
    ensures xs <= zs
  {
  }

  lemma TakeAccount(s: Ingest, b: Batch)
    requires Account(s) && FreshBatch(b, s.seen)
    ensures Account(Take(s, b))
  {
    var all := Batch(Emitted(s), s.seen, false);
    assert FreshBatch(all, {});
    JoinFresh(all, b, {});
    var joined, now := all.refs + b.refs, Emitted(Take(s, b));
    assert multiset(joined) == multiset(now);
    DistinctByCount(joined, now);
  }

  lemma PublishAccount(s: Ingest)
    requires Account(s)
    ensures Account(Publish(s)) && Emitted(Publish(s)) == Emitted(s)
  {
    ConcatSnoc(s.published, s.pending);
    assert Concat(s.published) + s.pending + [] + s.lost == Emitted(s);
  }

  lemma HandleAccount(s: Ingest, e: Event)
    requires Account(s)
    ensures Account(Handle(s, e))
    ensures s.lost <= Handle(s, e).lost
  {
    match e
    case SessionInfo(path) =>
      var s' := s.(path := if path.Some? then FullPath(path.value) else s.path);
      if s'.path != "" && s.deferred != [] {
        var b := FromPayloads(s.deferred, s'.path, s.seen);
        PayloadsFresh(s.deferred, s'.path, s.seen);
        TakeAccount(if b.raised then s' else s'.(deferred := []), b);
      }
    case TeamRadio(p) =>
      if s.path != "" {
        PayloadFresh(p, s.path, s.seen);
        TakeAccount(s, FromPayload(p, s.path, s.seen));
      }
    case Position(decodes, cars, due) =>
      PublishAccount(s.(haveCars := s.haveCars || cars));
    case Unrelated =>
  }

  lemma {:induction false} RunAccount(es: seq<Event>)
    ensures Account(Run(es)) && Account(RunLive(es))
  {
    if es != [] {
      RunAccount(es[..|es| - 1]);
      HandleAccount(Run(es[..|es| - 1]), es[|es| - 1]);
      HandleAccount(RunLive(es[..|es| - 1]), es[|es| - 1]);
    } else {
      assert Emitted(START) == [];
    }
  }

  lemma InEmitted(s: Ingest, i: nat)
    ensures i < |Concat(s.published) + s.pending| ==> Emitted(s)[i] == (Concat(s.published) + s.pending)[i]
    ensures i < |s.lost| ==> Emitted(s)[|Concat(s.published) + s.pending| + i] == s.lost[i]
  {
  }

  /** What is lost is marked, and is neither published nor pending. */
  lemma LostNotKept(s: Ingest, r: RadioRef)
    requires Account(s) && r in s.lost
    ensures r.clip in s.seen && r.clip !in Clips(Concat(s.published) + s.pending)
  {
    var kept := Concat(s.published) + s.pending;
    var j :| 0 <= j < |s.lost| && s.lost[j] == r;
    InEmitted(s, j);
    assert r in Emitted(s);
    forall k | k in kept ensures k.clip != r.clip {
      var i :| 0 <= i < |kept| && kept[i] == k;
      InEmitted(s, i);
    }
  }

  lemma AccountedIff(s: Ingest)
    requires Account(s)
    ensures s.seen == Clips(Concat(s.published) + s.pending) <==> s.lost == []
  {
    if s.lost == [] {
      Regroup(Concat(s.published), s.pending, []);
    } else {
      LostNotKept(s, s.lost[0]);
    }
  }

  /** At every step, in a replayed capture and on the live connection: `seen` is the clips
      published plus those pending, each exactly once, if and only if nothing was lost; and
      nothing is lost unless an exception escaped. */
  lemma SeenIsPublishedPlusPending(es: seq<Event>, live: bool)
    ensures var s := if live then RunLive(es) else Run(es);
            && (s.seen == Clips(Concat(s.published) + s.pending) <==> s.lost == [])
            && (!s.raised ==> s.lost == [])
            && DistinctClips(Concat(s.published) + s.pending)
            && s.snapshotRadio == Concat(s.published)
  {
    RunAccount(es);
    var s := if live then RunLive(es) else Run(es);
    AccountedIff(s);
    var kept := Concat(s.published) + s.pending;
    forall i, j | 0 <= i < j < |kept| ensures kept[i].clip != kept[j].clip {
      assert Emitted(s)[i] == kept[i] && Emitted(s)[j] == kept[j];
    }
  }

  // ------------------------------------------------------------------ the live connection

  /** A position message that a frame goes out on. */
  const FRAME := Position(true, true, true)

  /** `seen` is what was published and is pending. */
  ghost predicate Accounted(s: Ingest) {
    s.seen == Clips(Concat(s.published) + s.pending)
  }

  lemma LiveSnoc(es: seq<Event>, e: Event)
    ensures RunLive(es + [e]) == Handle(RunLive(es), e)
  {
    assert (es + [e])[..|es|] == es;
  }

  lemma LostGrows(s: Ingest, e: Event)
    ensures s.lost <= Handle(s, e).lost
  {
  }

  lemma LiveGrowsOne(es: seq<Event>, e: Event)
    ensures RunLive(es).lost <= RunLive(es + [e]).lost
  {
    LiveSnoc(es, e);
    LostGrows(RunLive(es), e);
  }

  lemma OneByOne(es: seq<Event>, more: seq<Event>)
    requires more != []
    ensures (es + more[..|more| - 1]) + [more[|more| - 1]] == es + more
  {
  }

  lemma {:induction false} LiveGrows(es: seq<Event>, more: seq<Event>)
    ensures RunLive(es).lost <= RunLive(es + more).lost
  {
    if more == [] {
      assert es + more == es;
    } else {
      var before := es + more[..|more| - 1];
      LiveGrows(es, more[..|more| - 1]);
      LiveGrowsOne(before, more[|more| - 1]);
      OneByOne(es, more);
      PrefixOfPrefix(RunLive(es).lost, RunLive(before).lost, RunLive(es + more).lost);
    }
  }

  lemma FlushKept(s: Ingest)
    ensures Clips(Concat(Flush(s).published)) == Clips(Concat(s.published) + s.pending)
  {
    ConcatSnoc(s.published, s.pending);
    assert Concat(s.published) + [] == Concat(s.published);
  }

  /** On the live connection a clip lost to an exception stays lost: whatever is sent again,
      no later frame carries it, for its URL counts as emitted. */
  lemma LostForGood(es: seq<Event>, more: seq<Event>, r: RadioRef)
    requires r in RunLive(es).lost
    ensures r.clip in RunLive(es + more).seen
    ensures r.clip !in Clips(Concat(Flush(RunLive(es + more)).published))
  {
    LiveGrows(es, more);
    RunAccount(es + more);
    FlushKept(RunLive(es + more));
    LostNotKept(RunLive(es + more), r);
  }

  lemma TwoCaptures(good: Capture, bad: Capture, full: string)
    requires Judge(good) == Good && Judge(bad) == Escapes
    ensures FromPayload(Listed([Entry(good), Entry(bad)]), full, {})
            == Batch([RefOf(good, full)], {RefOf(good, full).clip}, true)
  {
    var items := [Entry(good), Entry(bad)];
    assert items[..1] == [Entry(good)] && [Entry(good)][..0] == [];
    assert Captures([Entry(good)]) == [good];
    assert Captures(items) == [good, bad];
    assert [good, bad][..1] == [good];
    CollectOne(good, full);
    assert [good][..0] == [];
  }

  lemma ResendSkipped(good: Capture, s: Ingest, full: string)
    requires Judge(good) == Good && s.path == full && full != "" && RefOf(good, full).clip in s.seen
    requires s.published == [] && s.pending == []
    ensures var s' := Handle(Handle(s, TeamRadio(Listed([Entry(good)]))), FRAME);
            Concat(s'.published) == [] && s'.pending == []
  {
    assert [Entry(good)][..0] == [] && Captures([Entry(good)]) == [good] && [good][..0] == [];
    assert Collect([good], full, s.seen).refs == [];
    ConcatSnoc([], []);
  }

  /** A readable clip, then an entry whose path is a number: the clip is lost, and sending
      the list again without the bad entry does not bring it back. */
  lemma OneBadPathLosesAClip(good: Capture, bad: Capture)
    requires Judge(good) == Good && bad.driverNum.Read? && bad.timeMs.Read? && bad.path.NotText?
    ensures var es := [SessionInfo(Some("2024/"))] + [TeamRadio(Listed([Entry(good), Entry(bad)]))];
            && RunLive(es).lost == [RefOf(good, FullPath("2024/"))] && !Accounted(RunLive(es))
            && Concat(Flush(RunLive(es + [TeamRadio(Listed([Entry(good)]))] + [FRAME])).published) == []
  {
    var info, first := SessionInfo(Some("2024/")), TeamRadio(Listed([Entry(good), Entry(bad)]));
    var again := TeamRadio(Listed([Entry(good)]));
    var full := FullPath("2024/");
    LiveSnoc([], info);
    assert [] + [info] == [info];
    LiveSnoc([info], first);
    TwoCaptures(good, bad, full);
    var s := RunLive([info] + [first]);
    assert s == Take(START.(path := full), FromPayload(first.p, full, {}));
    RunAccount([info] + [first]);
    AccountedIff(s);
    LiveSnoc([info] + [first], again);
    LiveSnoc([info] + [first] + [again], FRAME);
    ResendSkipped(good, s, full);
  }

  // ------------------------------------------------------------------ nothing follows an exception

  lemma RunSnoc(es: seq<Event>, e: Event)
    ensures Run(es + [e]) == if Run(es).raised then Run(es) else Handle(Run(es), e)
  {
    assert (es + [e])[..|es|] == es;
  }

  lemma {:induction false} CollectStops(caps: seq<Capture>, i: nat, sessionPath: string, seen: set<string>)
    requires i <= |caps| && Collect(caps[..i], sessionPath, seen).raised
    ensures Collect(caps, sessionPath, seen) == Collect(caps[..i], sessionPath, seen)
  {
    if i == |caps| {
      assert caps[..i] == caps;
    } else {
      assert caps[..|caps| - 1][..i] == caps[..i];
      CollectStops(caps[..|caps| - 1], i, sessionPath, seen);
    }
  }

  lemma {:induction false} PayloadsStop(ps: seq<Payload>, i: nat, sessionPath: string, seen: set<string>)
    requires i <= |ps| && FromPayloads(ps[..i], sessionPath, seen).raised
    ensures FromPayloads(ps, sessionPath, seen) == FromPayloads(ps[..i], sessionPath, seen)
  {
    if i == |ps| {
      assert ps[..i] == ps;
    } else {
      assert ps[..|ps| - 1][..i] == ps[..i];
      PayloadsStop(ps[..|ps| - 1], i, sessionPath, seen);
    }
  }

  lemma {:induction false} RunStops(es: seq<Event>, i: nat)
    requires i <= |es| && Run(es[..i]).raised
    ensures Run(es) == Run(es[..i])
  {
    if i == |es| {
      assert es[..i] == es;
    } else {
      assert es[..|es| - 1][..i] == es[..i];
      RunStops(es[..|es| - 1], i);
    }
  }

  // ------------------------------------------------------------------ the object

  /** The event loop's variables. Its methods report an exception instead of returning. */
  class RadioIngest {
    var sessionPath: string
    var seenClips: set<string>
    var pendingRadio: seq<RadioRef>
    var deferredRadio: seq<Payload>
    var published: seq<seq<RadioRef>>
    var snapshotRadio: seq<RadioRef>
    var haveCars: bool
    ghost var lost: seq<RadioRef>
    ghost var hasRaised: bool

    ghost function View(): Ingest
      reads this
    {
      Ingest(sessionPath, seenClips, pendingRadio, deferredRadio, published, snapshotRadio, haveCars, lost, hasRaised)
    }

    constructor ()
      ensures View() == START
    {
      sessionPath, seenClips, pendingRadio, deferredRadio := "", {}, [], [];
      published, snapshotRadio, haveCars := [], [], false;
      lost, hasRaised := [], false;
    }

    /** Maps captures to refs, parsing each entry before touching `seenClips`; an exception
        leaves what was already marked. */
    method LiveRadioRefs(caps: seq<Capture>, path: string) returns (out: seq<RadioRef>, raised: bool)
      modifies this`seenClips
      ensures var b := Collect(caps, path, old(seenClips));
              Batch(out, seenClips, raised) == if b.raised then b else b.(refs := SortBy(b.refs, EarlierOrSame))
    {
      out, raised := [], false;
      for i := 0 to |caps|
        invariant !raised && Batch(out, seenClips, false) == Collect(caps[..i], path, old(seenClips))
      {
        assert caps[..i + 1][..i] == caps[..i];
        var c := caps[i];
        var verdict := Judge(c);
        if verdict == Skipped { continue; }
        if verdict == Escapes {
          CollectStops(caps, i + 1, path, old(seenClips));
          return out, true;
        }
        var clip := ClipUrl(path, c.path.path);
        if clip in seenClips { continue; }
        seenClips := seenClips + {clip};
        out := out + [RadioRef(c.timeMs.value, c.driverNum.value, clip)];
      }
      assert caps[..|caps|] == caps;
      out := SortBy(out, EarlierOrSame);
    }

    /** Drains the parked messages; an exception leaves them parked. */
    method FlushDeferred() returns (refs: seq<RadioRef>, raised: bool)
      modifies this`seenClips, this`deferredRadio
      ensures if sessionPath == "" || old(deferredRadio) == []
              then refs == [] && !raised && View() == old(View())
              else
                && Batch(refs, seenClips, raised) == FromPayloads(old(deferredRadio), sessionPath, old(seenClips))
                && deferredRadio == if raised then old(deferredRadio) else []
    {
      refs, raised := [], false;
      if sessionPath == "" || deferredRadio == [] { return; }
      for i := 0 to |deferredRadio|
        invariant deferredRadio == old(deferredRadio) && !raised
        invariant Batch(refs, seenClips, false) == FromPayloads(deferredRadio[..i], sessionPath, old(seenClips))
      {
        assert deferredRadio[..i + 1][..i] == deferredRadio[..i];
        var more, failed := LiveRadioRefs(PayloadCaptures(deferredRadio[i]), sessionPath);
        refs := refs + more;
        if failed {
          PayloadsStop(deferredRadio, i + 1, sessionPath, old(seenClips));
          return refs, true;
        }
      }
      assert deferredRadio[..|deferredRadio|] == deferredRadio;
      deferredRadio := [];
    }

    /** What was found reaches `pendingRadio` only when nothing raised. */
    method Extend(refs: seq<RadioRef>, raised: bool)
      modifies this`pendingRadio, this`lost, this`hasRaised
      ensures pendingRadio == if raised then old(pendingRadio) else old(pendingRadio) + refs
      ensures lost == if raised then old(lost) + refs else old(lost)
      ensures hasRaised == (old(hasRaised) || raised)
    {
      if raised {
        lost, hasRaised := lost + refs, true;
      } else {
        pendingRadio := pendingRadio + refs;
      }
    }

    method PublishFrame()
      modifies this
      ensures View() == Publish(old(View()))
    {
      var radio := pendingRadio;
      pendingRadio := [];
      if |radio| > 0 {
        snapshotRadio := snapshotRadio + radio;
      }
      published := published + [radio];
    }

    /** Handles one event. */
    method HandleEvent(e: Event) returns (raised: bool)
      modifies this
      ensures View() == Handle(old(View()), e)
      ensures hasRaised == (old(hasRaised) || raised)
    {
      raised := false;
      match e {
        case SessionInfo(path) =>
          if path.Some? { sessionPath := FullPath(path.value); }
          var refs;
          refs, raised := FlushDeferred();
          Extend(refs, raised);
        case TeamRadio(p) =>
          if sessionPath == "" {
            deferredRadio := deferredRadio + [p];
          } else {
            var refs;
            refs, raised := LiveRadioRefs(PayloadCaptures(p), sessionPath);
            Extend(refs, raised);
          }
        case Position(decodes, cars, due) =>
          if !decodes { return; }
          haveCars := haveCars || cars;
          if !due || !haveCars { return; }
          PublishFrame();
        case Unrelated =>
      }
    }

    /** The event loop over a whole capture, then the flush at stream end; an exception ends
        both. */
    method ReplayCapture(events: seq<Event>)
      requires View() == START
      modifies this
      ensures View() == Finish(Run(events))
    {
      for i := 0 to |events|
        invariant View() == Run(events[..i]) && !hasRaised
      {
        assert events[..i + 1] == events[..i] + [events[i]];
        RunSnoc(events[..i], events[i]);
        var raised := HandleEvent(events[i]);
        assert View() == Run(events[..i + 1]);
        if raised {
          RunStops(events, i + 1);
          return;
        }
      }
      assert events[..|events|] == events;
      if pendingRadio != [] {
        PublishFrame();
      }
    }

    /** The live connection: exceptions are logged, the next message is handled, and the flush
        always runs. */
    method RunConnection(events: seq<Event>)
      requires View() == START
      modifies this
      ensures View() == Flush(RunLive(events))
    {
      for i := 0 to |events|
        invariant View() == RunLive(events[..i])
      {
        assert events[..i + 1][..i] == events[..i];
        var raised := HandleEvent(events[i]);
      }
      assert events[..|events|] == events;
      if pendingRadio != [] {
        PublishFrame();
      }
    }
  }
}
