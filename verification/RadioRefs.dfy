/** What a radio ref says (ingest/radio.py, ingest/live_signalr.py): the time and the driver of
    the entry it was made from, and that entry's path under the session's. */
module RadioRefs {
  import opened Model
  import opened Sorting
  import opened LiveRadio
  import opened RadioEntries
  import opened RadioDelivery

  // ------------------------------------------------------------------ one entry

  /** An entry gives a ref when all three fields are there and read; it is skipped when one is
      missing, or the number or, after it, the time is unreadable in a way the loop catches; in
      every other case an exception leaves the loop. */
  lemma VerdictsAre(c: Capture)
    ensures Judge(c) == Good <==> c.timeMs.Read? && c.driverNum.Read? && c.path.Text?
    ensures Judge(c) == Skipped
            <==> c.timeMs.Missing? || c.driverNum.Missing? || c.path.NoPath?
                 || c.driverNum.Unreadable? || (c.driverNum.Read? && c.timeMs.Unreadable?)
  {
  }

  ghost predicate Slashes(s: string) {
    forall i :: 0 <= i < |s| ==> s[i] == '/'
  }

  lemma {:induction false} TrimLeftIs(s: string) returns (n: nat)
    ensures n <= |s| && Slashes(s[..n]) && TrimLeft(s) == s[n..] && (n < |s| ==> s[n] != '/')
  {
    if s != [] && s[0] == '/' {
      var m := TrimLeftIs(s[1..]);
      n := m + 1;
      assert forall i :: 1 <= i < n ==> s[..n][i] == s[1..][..m][i - 1];
    } else {
      n := 0;
    }
  }

  lemma {:induction false} TrimRightIs(s: string) returns (n: nat)
    ensures n <= |s| && Slashes(s[n..]) && TrimRight(s) == s[..n] && (0 < n ==> s[n - 1] != '/')
  {
    if s != [] && s[|s| - 1] == '/' {
      var front := s[..|s| - 1];
      n := TrimRightIs(front);
      assert s[n..] == front[n..] + [s[|s| - 1]];
    } else {
      n := |s|;
    }
  }

  /** A clip's URL is the host, the session's path without its outer slashes and the entry's path
      without its leading ones, with one slash between each two. */
  lemma ClipUrlIs(sessionPath: string, path: string) returns (a: nat, b: nat, c: nat)
    ensures a <= b <= |sessionPath| && c <= |path|
    ensures ClipUrl(sessionPath, path) == "https://livetiming.formula1.com" + "/" + sessionPath[a..b] + "/" + path[c..]
    ensures Slashes(sessionPath[..a]) && Slashes(sessionPath[b..]) && Slashes(path[..c])
    ensures a < b ==> sessionPath[a] != '/' && sessionPath[b - 1] != '/'
    ensures c < |path| ==> path[c] != '/'
  {
    a := TrimLeftIs(sessionPath);
    var n := TrimRightIs(sessionPath[a..]);
    b := a + n;
    c := TrimLeftIs(path);
    assert sessionPath[a..][..n] == sessionPath[a..b] && sessionPath[a..][n..] == sessionPath[b..];
    assert TrimRight(STATIC_BASE) == STATIC_BASE;
  }

  lemma OuterSlashes(s: string, a: nat, b: nat)
    requires a <= b <= |s| && Slashes(s[..a]) && Slashes(s[b..])
    ensures forall i :: 0 <= i < |s| && s[i] != '/' ==> a <= i < b
  {
    forall i | 0 <= i < |s| && (i < a || b <= i) ensures s[i] == '/' {
      if i < a { assert s[..a][i] == s[i]; } else { assert s[b..][i - b] == s[i]; }
    }
  }

  /** With the feed's own path: below `/static` on the host, then that path without its trailing
      slashes, then the entry's. */
  lemma ClipAddress(path: string, entry: string) returns (n: nat, c: nat)
    ensures n <= |path| && c <= |entry|
    ensures ClipUrl(FullPath(path), entry)
            == "https://livetiming.formula1.com/static" + (if n == 0 then "" else "/" + path[..n]) + "/" + entry[c..]
    ensures Slashes(path[n..]) && Slashes(entry[..c])
    ensures n > 0 ==> path[n - 1] != '/'
    ensures c < |entry| ==> entry[c] != '/'
  {
    var full := FullPath(path);
    var a, b, c' := ClipUrlIs(full, entry);
    c := c';
    assert full == "/static/" + path;
    assert full[0] == '/' && full[1] == 's' && full[6] == 'c' && full[7] == '/';
    OuterSlashes(full, a, b);
    assert a == 1;
    n := if b == 7 then 0 else b - 8;
    if b == 7 {
      assert full[1..7] == "static";
      assert path == full[7..][1..];
    } else {
      assert full[1..b] == "static/" + path[..n] && full[b..] == path[n..];
    }
  }

  // ------------------------------------------------------------------ one message

  /** What is read of a list: its entries in order, and nothing of what is not one. */
  lemma {:induction false} CapturesAppend(xs: seq<Item>, ys: seq<Item>)
    ensures Captures(xs + ys) == Captures(xs) + Captures(ys)
    ensures forall c :: Captures([Entry(c)]) == [c]
    ensures Captures([Junk]) == []
  {
    assert forall c :: [Entry(c)][..0] == [];
    assert [Junk][..0] == [];
    if ys == [] {
      assert xs + ys == xs;
    } else {
      var front, last := ys[..|ys| - 1], ys[|ys| - 1];
      CapturesAppend(xs, front);
      assert (xs + ys)[..|xs + ys| - 1] == xs + front;
    }
  }

  ghost predicate DistinctKeys(patch: seq<(int, Item)>) {
    forall a, b :: a in patch && b in patch && a.0 == b.0 ==> a == b
  }

  lemma {:induction false} ValuesAt(patch: seq<(int, Item)>)
    ensures |Values(patch)| == |patch| && forall i :: 0 <= i < |patch| ==> Values(patch)[i] == patch[i].1
  {
    if patch != [] { ValuesAt(patch[..|patch| - 1]); }
  }

  /** An index-keyed patch is read in the order of its keys, whatever order it comes in. */
  lemma PatchIsReadByKey(patch: seq<(int, Item)>, byKey: seq<(int, Item)>)
    requires multiset(byKey) == multiset(patch) && DistinctKeys(patch)
    requires forall i, j :: 0 <= i < j < |byKey| ==> byKey[i].0 <= byKey[j].0
    ensures |Values(byKey)| == |byKey| && forall i :: 0 <= i < |byKey| ==> Values(byKey)[i] == byKey[i].1
    ensures PayloadCaptures(Indexed(patch)) == Captures(Values(byKey))
  {
    var s := SortBy(patch, KeyLe);
    SortMultiset(patch, KeyLe);
    SortSorted(patch, KeyLe);
    forall a, b | a in s && b in s && KeyLe(a, b) && KeyLe(b, a) ensures a == b {
      SameMembers(s, patch, a);
      SameMembers(s, patch, b);
    }
    SortedUnique(s, byKey, KeyLe);
    ValuesAt(byKey);
  }

  /** The refs of a message are in the order of their times. */
  lemma BatchIsInTimeOrder(p: Payload, full: string, seen: set<string>)
    ensures var b := FromPayload(p, full, seen);
            !b.raised ==> forall i, j :: 0 <= i < j < |b.refs| ==> b.refs[i].timeMs <= b.refs[j].timeMs
  {
    SortSorted(Collect(PayloadCaptures(p), full, seen).refs, EarlierOrSame);
  }

  // ------------------------------------------------------------------ where a ref comes from

  /** One of these entries reads this ref's time and driver, and has its clip for a path. */
  ghost predicate ComesFrom(r: RadioRef, caps: seq<Capture>, full: string) {
    exists c :: c in caps && c.timeMs == Read(r.timeMs) && c.driverNum == Read(r.driverNum)
                && c.path.Text? && r.clip == ClipUrl(full, c.path.path)
  }

  ghost predicate AllComeFrom(refs: seq<RadioRef>, caps: seq<Capture>, full: string) {
    forall r :: r in refs ==> ComesFrom(r, caps, full)
  }

  lemma FromMore(refs: seq<RadioRef>, caps: seq<Capture>, more: seq<Capture>, full: string)
    requires AllComeFrom(refs, caps, full) && forall c :: c in caps ==> c in more
    ensures AllComeFrom(refs, more, full)
  {
    forall r | r in refs ensures ComesFrom(r, more, full) {
      var c :| c in caps && c.timeMs == Read(r.timeMs) && c.driverNum == Read(r.driverNum)
               && c.path.Text? && r.clip == ClipUrl(full, c.path.path);
      assert c in more;
    }
  }

  lemma {:induction false} CollectedComeFrom(caps: seq<Capture>, full: string, seen: set<string>)
    ensures AllComeFrom(Collect(caps, full, seen).refs, caps, full)
  {
    if caps != [] {
      var front, last := caps[..|caps| - 1], caps[|caps| - 1];
      CollectedComeFrom(front, full, seen);
      FromMore(Collect(front, full, seen).refs, front, caps, full);
      assert last in caps;
    }
  }

  lemma BatchComesFrom(p: Payload, full: string, seen: set<string>)
    ensures AllComeFrom(FromPayload(p, full, seen).refs, PayloadCaptures(p), full)
  {
    var found := Collect(PayloadCaptures(p), full, seen).refs;
    CollectedComeFrom(PayloadCaptures(p), full, seen);
    SortMultiset(found, EarlierOrSame);
    forall r | r in SortBy(found, EarlierOrSame) ensures r in found {
      SameMembers(SortBy(found, EarlierOrSame), found, r);
    }
  }

  lemma {:induction false} BatchesComeFrom(ps: seq<Payload>, full: string, seen: set<string>)
    ensures AllComeFrom(FromPayloads(ps, full, seen).refs, AllCaptures(ps), full)
  {
    if ps != [] {
      var front, last := ps[..|ps| - 1], ps[|ps| - 1];
      var before := FromPayloads(front, full, seen);
      BatchesComeFrom(front, full, seen);
      BatchComesFrom(last, full, before.seen);
      FromMore(before.refs, AllCaptures(front), AllCaptures(ps), full);
      FromMore(FromPayload(last, full, before.seen).refs, PayloadCaptures(last), AllCaptures(ps), full);
    }
  }

  // ------------------------------------------------------------------ over whole streams

  ghost predicate Sourced(s: Ingest, es: seq<Event>, full: string) {
    && AllComeFrom(Emitted(s), AllCaptures(Payloads(es)), full)
    && (forall c :: c in AllCaptures(s.deferred) ==> c in AllCaptures(Payloads(es)))
    && (s.path == "" || s.path == full)
  }

  lemma TakeIsSourced(s: Ingest, b: Batch, caps: seq<Capture>, full: string)
    requires AllComeFrom(Emitted(s), caps, full) && AllComeFrom(b.refs, caps, full)
    ensures AllComeFrom(Emitted(Take(s, b)), caps, full)
  {
    forall r | r in Emitted(Take(s, b)) ensures r in Emitted(s) || r in b.refs { }
  }

  lemma AllCapturesGrow(ps: seq<Payload>, more: seq<Payload>)
    requires |more| <= 1
    ensures AllCaptures(ps + more) == AllCaptures(ps) + (if more == [] then [] else PayloadCaptures(more[0]))
  {
    if more == [] { assert ps + more == ps; } else { assert (ps + more)[..|ps|] == ps; }
  }

  lemma InfoIsSourced(s: Ingest, es: seq<Event>, info: Option<string>, path: string)
    requires Sourced(s, es, FullPath(path)) && (info.Some? ==> info.value == path)
    ensures Sourced(Handle(s, SessionInfo(info)), es + [SessionInfo(info)], FullPath(path))
  {
    var full, caps := FullPath(path), AllCaptures(Payloads(es));
    PayloadsSnoc(es, SessionInfo(info));
    var s' := s.(path := if info.Some? then full else s.path);
    if s'.path != "" && s.deferred != [] {
      var b := FromPayloads(s.deferred, full, s.seen);
      BatchesComeFrom(s.deferred, full, s.seen);
      FromMore(b.refs, AllCaptures(s.deferred), caps, full);
      TakeIsSourced(if b.raised then s' else s'.(deferred := []), b, caps, full);
    }
  }

  lemma ParkedMore(xs: seq<Capture>, ys: seq<Capture>, more: seq<Capture>)
    requires forall c :: c in xs ==> c in ys
    ensures forall c :: c in xs + more ==> c in ys + more
  {
  }

  lemma RadioIsSourced(s: Ingest, es: seq<Event>, p: Payload, path: string)
    requires Sourced(s, es, FullPath(path))
    ensures Sourced(Handle(s, TeamRadio(p)), es + [TeamRadio(p)], FullPath(path))
  {
    var full, was, caps := FullPath(path), AllCaptures(Payloads(es)), AllCaptures(Payloads(es + [TeamRadio(p)]));
    PayloadsSnoc(es, TeamRadio(p));
    AllCapturesGrow(Payloads(es), [p]);
    FromMore(Emitted(s), was, caps, full);
    if s.path == "" {
      AllCapturesGrow(s.deferred, [p]);
      ParkedMore(AllCaptures(s.deferred), was, PayloadCaptures(p));
    } else {
      var b := FromPayload(p, full, s.seen);
      BatchComesFrom(p, full, s.seen);
      FromMore(b.refs, PayloadCaptures(p), caps, full);
      TakeIsSourced(s, b, caps, full);
      assert Handle(s, TeamRadio(p)) == Take(s, b) && Take(s, b).deferred == s.deferred;
    }
  }

  lemma OtherIsSourced(s: Ingest, es: seq<Event>, e: Event, full: string)
    requires Sourced(s, es, full) && (e.Position? || e.Unrelated?)
    ensures Sourced(Handle(s, e), es + [e], full)
  {
    PayloadsSnoc(es, e);
    ConcatSnoc(s.published, s.pending);
    assert Concat(s.published) + s.pending + [] + s.lost == Emitted(s);
  }

  lemma HandleIsSourced(s: Ingest, es: seq<Event>, e: Event, path: string)
    requires Sourced(s, es, FullPath(path)) && (e.SessionInfo? && e.path.Some? ==> e.path.value == path)
    ensures Sourced(Handle(s, e), es + [e], FullPath(path))
  {
    match e
    case SessionInfo(info) => InfoIsSourced(s, es, info, path);
    case TeamRadio(p) => RadioIsSourced(s, es, p, path);
    case _ => OtherIsSourced(s, es, e, FullPath(path));
  }

  /** In every state of every stream, replayed or live: each ref published, pending or lost has
      the time and the driver number of an entry that was sent, and that entry's path under the
      session's for its clip. */
  lemma {:induction false} RefsComeFromEntries(es: seq<Event>, path: string)
    requires OnePath(es, path)
    ensures Sourced(Run(es), es, FullPath(path)) && Sourced(RunLive(es), es, FullPath(path))
  {
    if es != [] {
      var front, last := es[..|es| - 1], es[|es| - 1];
      assert OnePath(front, path);
      RefsComeFromEntries(front, path);
      assert front + [last] == es;
      HandleIsSourced(RunLive(front), front, last, path);
      if Run(front).raised {
        PayloadsSnoc(front, last);
        AllCapturesGrow(Payloads(front), if last.TeamRadio? then [last.p] else []);
        FromMore(Emitted(Run(front)), AllCaptures(Payloads(front)), AllCaptures(Payloads(es)), FullPath(path));
      } else {
        HandleIsSourced(Run(front), front, last, path);
      }
    }
  }

  lemma {:induction false} InConcat(batches: seq<seq<RadioRef>>, k: nat, r: RadioRef)
    requires k < |batches| && r in batches[k]
    ensures r in Concat(batches)
  {
    if k < |batches| - 1 { InConcat(batches[..|batches| - 1], k, r); }
  }

  /** So it is on every frame that goes out. */
  lemma PublishedComeFromEntries(es: seq<Event>, path: string, live: bool, k: nat, r: RadioRef)
    requires OnePath(es, path)
    requires var s := if live then Flush(RunLive(es)) else Finish(Run(es)); k < |s.published| && r in s.published[k]
    ensures ComesFrom(r, AllCaptures(Payloads(es)), FullPath(path))
  {
    var s0 := if live then RunLive(es) else Run(es);
    var s := if live then Flush(s0) else Finish(s0);
    RefsComeFromEntries(es, path);
    InConcat(s.published, k, r);
    ConcatSnoc(s0.published, s0.pending);
    assert r in Emitted(s0);
  }

  // ------------------------------------------------------------------ when frames go out

  ghost predicate CarsBy(es: seq<Event>, n: nat) {
    exists j :: 0 <= j < n && j < |es| && es[j].Position? && es[j].decodes && es[j].cars
  }

  /** The i-th event lets a frame out: it decodes, it is due, and a car is known by then. */
  ghost predicate GoesOut(es: seq<Event>, i: nat) {
    i < |es| && es[i].Position? && es[i].decodes && es[i].due && CarsBy(es, i + 1)
  }

  lemma FrameStep(s: Ingest, e: Event)
    ensures Handle(s, e).haveCars <==> s.haveCars || (e.Position? && e.decodes && e.cars)
    ensures Handle(s, e).published
            == if e.Position? && e.decodes && e.due && (s.haveCars || e.cars) then s.published + [s.pending]
               else s.published
  {
  }

  lemma CarsStep(es: seq<Event>, n: nat)
    requires 0 < n <= |es|
    ensures CarsBy(es, n) <==> CarsBy(es, n - 1) || (es[n - 1].Position? && es[n - 1].decodes && es[n - 1].cars)
  {
  }

  lemma {:induction false} CarsKnown(es: seq<Event>, n: nat)
    requires n <= |es|
    ensures RunLive(es[..n]).haveCars <==> CarsBy(es, n)
  {
    if n > 0 {
      CarsKnown(es, n - 1);
      assert es[..n] == es[..n - 1] + [es[n - 1]];
      LiveSnoc(es[..n - 1], es[n - 1]);
      FrameStep(RunLive(es[..n - 1]), es[n - 1]);
      CarsStep(es, n);
    }
  }

  /** Live, a frame goes out at exactly these events, each with all that was pending. */
  lemma FramesGoOutWhenDue(es: seq<Event>, n: nat)
    requires n < |es|
    ensures RunLive(es[..n + 1]).published
            == if GoesOut(es, n) then RunLive(es[..n]).published + [RunLive(es[..n]).pending]
               else RunLive(es[..n]).published
  {
    CarsKnown(es, n);
    CarsStep(es, n + 1);
    assert es[..n + 1] == es[..n] + [es[n]];
    LiveSnoc(es[..n], es[n]);
    FrameStep(RunLive(es[..n]), es[n]);
  }

  lemma {:induction false} RaisedStays(es: seq<Event>, more: seq<Event>)
    requires Run(es).raised
    ensures Run(es + more) == Run(es)
  {
    if more == [] {
      assert es + more == es;
    } else {
      RaisedStays(es, more[..|more| - 1]);
      assert (es + more)[..|es + more| - 1] == es + more[..|more| - 1];
    }
  }

  /** A replay ends with the exception: nothing goes out after it, pending or not. Otherwise what
      is pending at the end rides one more frame. */
  lemma WhatGoesOutLast(es: seq<Event>, more: seq<Event>)
    ensures Run(es).raised ==> Finish(Run(es + more)).published == Run(es).published
    ensures !Run(es).raised ==>
              var s := Run(es);
              Finish(s).published == s.published + (if s.pending == [] then [] else [s.pending])
  {
    if Run(es).raised {
      RaisedStays(es, more);
    } else {
      assert Run(es).published + [] == Run(es).published;
    }
  }
}
