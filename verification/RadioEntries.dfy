/** What the entries of a run of TeamRadio messages say (ingest/radio.py), read off the entries
    themselves: which clips they mark as emitted, and whether any ref comes of them. */
module RadioEntries {
  import opened Model
  import opened Sorting
  import opened LiveRadio

  /** Some good entry stands before the first that escapes. */
  ghost predicate GoodFirst(caps: seq<Capture>) {
    exists i :: 0 <= i < |caps| && Judge(caps[i]) == Good && !AnyEscapes(caps[..i])
  }

  ghost predicate AnyGood(caps: seq<Capture>) {
    exists i :: 0 <= i < |caps| && Judge(caps[i]) == Good
  }

  /** And it is one for this clip: reading the entries marks it. */
  ghost predicate Marked(caps: seq<Capture>, full: string, clip: string) {
    exists i :: 0 <= i < |caps| && Judge(caps[i]) == Good && ClipUrl(full, caps[i].path.path) == clip
                && !AnyEscapes(caps[..i])
  }

  /** The entries of all messages, in the order they are read. */
  function AllCaptures(ps: seq<Payload>): seq<Capture> {
    if ps == [] then [] else AllCaptures(ps[..|ps| - 1]) + PayloadCaptures(ps[|ps| - 1])
  }

  // ------------------------------------------------------------------ one entry more

  lemma MarkedSnoc(caps: seq<Capture>, c: Capture, full: string, clip: string)
    ensures Marked(caps + [c], full, clip)
            <==> Marked(caps, full, clip)
                 || (!AnyEscapes(caps) && Judge(c) == Good && ClipUrl(full, c.path.path) == clip)
  {
    var all := caps + [c];
    assert all[|caps|] == c && all[..|caps|] == caps;
    if Marked(caps, full, clip) {
      var i :| 0 <= i < |caps| && Judge(caps[i]) == Good && ClipUrl(full, caps[i].path.path) == clip
               && !AnyEscapes(caps[..i]);
      assert all[i] == caps[i] && all[..i] == caps[..i];
    }
    if Marked(all, full, clip) {
      var i :| 0 <= i < |all| && Judge(all[i]) == Good && ClipUrl(full, all[i].path.path) == clip
               && !AnyEscapes(all[..i]);
      if i < |caps| { assert all[i] == caps[i] && all[..i] == caps[..i]; }
    }
  }

  lemma {:induction false} AnyEscapesAppend(xs: seq<Capture>, ys: seq<Capture>)
    ensures AnyEscapes(xs + ys) <==> AnyEscapes(xs) || AnyEscapes(ys)
  {
    if ys == [] {
      assert xs + ys == xs;
    } else {
      var front, last := ys[..|ys| - 1], ys[|ys| - 1];
      AnyEscapesAppend(xs, front);
      assert xs + ys == xs + front + [last] && ys == front + [last];
      AnyEscapesSnoc(xs + front, last);
      AnyEscapesSnoc(front, last);
    }
  }

  lemma {:induction false} MarkedAppend(xs: seq<Capture>, ys: seq<Capture>, full: string, clip: string)
    ensures Marked(xs + ys, full, clip) <==> Marked(xs, full, clip) || (!AnyEscapes(xs) && Marked(ys, full, clip))
  {
    if ys == [] {
      assert xs + ys == xs;
    } else {
      var front, last := ys[..|ys| - 1], ys[|ys| - 1];
      MarkedAppend(xs, front, full, clip);
      AnyEscapesAppend(xs, front);
      assert xs + ys == xs + front + [last] && ys == front + [last];
      MarkedSnoc(xs + front, last, full, clip);
      MarkedSnoc(front, last, full, clip);
    }
  }

  lemma AnyGoodAppend(xs: seq<Capture>, ys: seq<Capture>)
    ensures AnyGood(xs + ys) <==> AnyGood(xs) || AnyGood(ys)
  {
    if AnyGood(xs) {
      var i :| 0 <= i < |xs| && Judge(xs[i]) == Good;
      assert (xs + ys)[i] == xs[i];
    }
    if AnyGood(ys) {
      var i :| 0 <= i < |ys| && Judge(ys[i]) == Good;
      assert (xs + ys)[|xs| + i] == ys[i];
    }
  }

  lemma GoodIsMarked(caps: seq<Capture>, full: string)
    ensures GoodFirst(caps) <==> exists clip :: Marked(caps, full, clip)
  {
    if GoodFirst(caps) {
      var i :| 0 <= i < |caps| && Judge(caps[i]) == Good && !AnyEscapes(caps[..i]);
      assert Marked(caps, full, ClipUrl(full, caps[i].path.path));
    }
  }

  /** Where nothing escapes, any good entry will do. */
  lemma GoodWithoutEscapes(caps: seq<Capture>)
    requires !AnyEscapes(caps)
    ensures GoodFirst(caps) <==> AnyGood(caps)
  {
    forall i | 0 <= i < |caps| ensures !AnyEscapes(caps[..i]) {
      assert caps == caps[..i] + caps[i..];
      AnyEscapesAppend(caps[..i], caps[i..]);
    }
  }

  // ------------------------------------------------------------------ what reading them does

  lemma {:induction false} CollectMarks(caps: seq<Capture>, full: string, seen: set<string>, clip: string)
    ensures clip in Collect(caps, full, seen).seen <==> clip in seen || Marked(caps, full, clip)
  {
    if caps != [] {
      var front, last := caps[..|caps| - 1], caps[|caps| - 1];
      CollectMarks(front, full, seen, clip);
      CollectRaises(front, full, seen);
      assert caps == front + [last];
      MarkedSnoc(front, last, full, clip);
    }
  }

  lemma {:induction false} PayloadsMark(ps: seq<Payload>, full: string, seen: set<string>, clip: string)
    ensures clip in FromPayloads(ps, full, seen).seen <==> clip in seen || Marked(AllCaptures(ps), full, clip)
    ensures FromPayloads(ps, full, seen).raised <==> AnyEscapes(AllCaptures(ps))
  {
    if ps != [] {
      var front, last := ps[..|ps| - 1], ps[|ps| - 1];
      var before := FromPayloads(front, full, seen);
      PayloadsMark(front, full, seen, clip);
      MarkedAppend(AllCaptures(front), PayloadCaptures(last), full, clip);
      AnyEscapesAppend(AllCaptures(front), PayloadCaptures(last));
      CollectMarks(PayloadCaptures(last), full, before.seen, clip);
      CollectRaises(PayloadCaptures(last), full, before.seen);
    }
  }

  lemma EscapesAreAmong(ps: seq<Payload>)
    ensures EscapeAmong(ps) <==> AnyEscapes(AllCaptures(ps))
  {
    PayloadsRaise(ps, "", {});
    PayloadsMark(ps, "", {}, "");
  }

  /** From a clean start some ref comes of the messages if and only if some good entry stands
      before the first that escapes. */
  lemma RefsIff(ps: seq<Payload>, full: string)
    ensures FromPayloads(ps, full, {}).refs != [] <==> GoodFirst(AllCaptures(ps))
  {
    var b := FromPayloads(ps, full, {});
    PayloadsFresh(ps, full, {});
    GoodIsMarked(AllCaptures(ps), full);
    if b.refs != [] {
      assert b.refs[0] in b.refs && b.refs[0].clip in b.seen;
      PayloadsMark(ps, full, {}, b.refs[0].clip);
    }
    if GoodFirst(AllCaptures(ps)) {
      var clip :| Marked(AllCaptures(ps), full, clip);
      PayloadsMark(ps, full, {}, clip);
    }
  }
}
