/** A clip's whole way: from the feed's messages, through the live writer's frames, the lane, a
    hub and a client's queue, to what the browser's page lists and plays.

    The browser keeps radio in arrival order and compares nothing but Revs for it, so unlike the
    rest of the board it needs no agreement of the two reducers. */
module ClipJourney {
  import opened Model
  import opened Reducer
  import L = LiveRadio
  import D = LiveDelivery
  import C = Comms
  import H = HubFanout
  import W = SessionLane
  import S = Seam
  import E = EndToEnd

  // ------------------------------------------------------------------ the browser's list

  /** Whatever the clocks do, the browser lists the radio the server folds. */
  lemma {:induction false} BrowserRadio(msgs: seq<Msg>)
    ensures H.Received(msgs).Some? ==>
              && Browser(msgs).rev == H.Received(msgs).value.rev
              && Browser(msgs).radio == H.Received(msgs).value.radio
  {
    if msgs != [] {
      var front := msgs[..|msgs| - 1];
      BrowserRadio(front);
      assert Browser(front).radio + [] == Browser(front).radio;
    }
  }

  /** The list once `read` messages have been read. */
  function ListAt(msgs: seq<Msg>, read: nat): seq<RadioRef>
    requires read <= |msgs|
  {
    Browser(msgs[..read]).radio
  }

  /** Message n is a snapshot, the last one. */
  predicate LastSnapshot(msgs: seq<Msg>, n: nat) {
    n < |msgs| && msgs[n].SnapshotMsg? && forall j :: n < j < |msgs| ==> msgs[j].FrameMsg?
  }

  lemma {:induction false} ListGrows(msgs: seq<Msg>, n: nat, a: nat, b: nat)
    requires LastSnapshot(msgs, n) && n < a <= b <= |msgs|
    ensures ListAt(msgs, a) <= ListAt(msgs, b)
  {
    if a < b {
      ListGrows(msgs, n, a, b - 1);
      assert msgs[..b][..b - 1] == msgs[..b - 1] && msgs[b - 1].FrameMsg?;
    }
  }

  /** The moments at which the page looks at its list, counted in messages read: any since the
      last snapshot, in order, the last of them now. */
  ghost predicate Looks(msgs: seq<Msg>, n: nat, looks: seq<nat>) {
    && looks != [] && looks[|looks| - 1] == |msgs|
    && (forall i :: 0 <= i < |looks| ==> n < looks[i] <= |msgs|)
    && forall i, j :: 0 <= i <= j < |looks| ==> looks[i] <= looks[j]
  }

  function Lists(msgs: seq<Msg>, looks: seq<nat>): seq<seq<RadioRef>>
    requires forall i :: 0 <= i < |looks| ==> looks[i] <= |msgs|
    decreases looks
  {
    if looks == [] then [] else [ListAt(msgs, looks[0])] + Lists(msgs, looks[1..])
  }

  lemma {:induction false} ListsGrow(msgs: seq<Msg>, n: nat, a: nat, looks: seq<nat>)
    requires LastSnapshot(msgs, n) && n < a && (looks != [] ==> a <= looks[0])
    requires forall i :: 0 <= i < |looks| ==> n < looks[i] <= |msgs|
    requires forall i, j :: 0 <= i <= j < |looks| ==> looks[i] <= looks[j]
    ensures a <= |msgs| ==> C.Growing(ListAt(msgs, a), Lists(msgs, looks))
    ensures looks != [] ==> Lists(msgs, looks) != []
                            && Lists(msgs, looks)[|Lists(msgs, looks)| - 1] == ListAt(msgs, looks[|looks| - 1])
    decreases looks
  {
    if looks != [] {
      ListGrows(msgs, n, a, looks[0]);
      ListsGrow(msgs, n, looks[0], looks[1..]);
    }
  }

  /** What the page's list held at the last snapshot, and what arrived on it since, are together
      its list now, each ref once and in order, however often it looked. */
  lemma HistoryThenArrivals(msgs: seq<Msg>, n: nat, looks: seq<nat>)
    requires LastSnapshot(msgs, n) && Looks(msgs, n, looks)
    ensures ListAt(msgs, n + 1) + C.ArrivedOver(|ListAt(msgs, n + 1)|, Lists(msgs, looks)) == ListAt(msgs, |msgs|)
  {
    ListsGrow(msgs, n, n + 1, looks);
    C.ArrivalsAreAppends(ListAt(msgs, n + 1), Lists(msgs, looks));
  }

  /** Whenever the page looked, what it held at the last snapshot and its arrivals are its list. */
  ghost predicate AccountsFor(msgs: seq<Msg>, list: seq<RadioRef>) {
    forall n: nat, looks: seq<nat> :: LastSnapshot(msgs, n) && Looks(msgs, n, looks) ==>
      ListAt(msgs, n + 1) + C.ArrivedOver(|ListAt(msgs, n + 1)|, Lists(msgs, looks)) == list
  }

  lemma PageAccounts(msgs: seq<Msg>)
    ensures AccountsFor(msgs, Browser(msgs).radio)
  {
    assert msgs[..|msgs|] == msgs;
    forall n: nat, looks: seq<nat> | LastSnapshot(msgs, n) && Looks(msgs, n, looks)
      ensures ListAt(msgs, n + 1) + C.ArrivedOver(|ListAt(msgs, n + 1)|, Lists(msgs, looks)) == Browser(msgs).radio
    {
      HistoryThenArrivals(msgs, n, looks);
    }
  }

  // ------------------------------------------------------------------ the writer's frames

  /** The lane's writer is the live one: it starts with no radio, and its frames are the ones
      the ingest published, batch for batch. */
  ghost predicate Carries(w: W.Writer, s: L.Ingest) {
    && w.start.radio == [] && |w.applied| == |s.published|
    && forall j :: 0 <= j < |w.applied| ==> w.applied[j].radio == s.published[j]
  }

  lemma {:induction false} RadioOfBatches(fs: seq<Frame>, batches: seq<seq<RadioRef>>)
    requires |fs| == |batches| && forall j :: 0 <= j < |fs| ==> fs[j].radio == batches[j]
    ensures AllRadio(fs) == L.Concat(batches)
  {
    if fs != [] { RadioOfBatches(fs[..|fs| - 1], batches[..|batches| - 1]); }
  }

  lemma WriterRadio(w: W.Writer, s: L.Ingest)
    requires W.WriterOk(w) && Carries(w, s)
    ensures w.snap.radio == L.Concat(s.published)
  {
    FoldMeaning(w.start, w.applied);
    RadioOfBatches(w.applied, s.published);
    assert [] + AllRadio(w.applied) == AllRadio(w.applied);
  }

  lemma {:induction false} FoldKeepsRadio(s: Snap, fs: seq<Frame>)
    ensures s.radio <= Fold(s, fs).radio
  {
    if fs != [] { FoldKeepsRadio(s, fs[..|fs| - 1]); }
  }

  // ------------------------------------------------------------------ the whole way

  /** A browser behind a client none of whose sends failed, at a hub that follows the writer:
      its list begins what the writer carried, and is all of it once nothing is under way. */
  lemma ListFollowsWriter<K>(w: E.World<K>, at: S.Where, k: K, s: L.Ingest)
    requires E.Inv(w) && E.Reached(w, at, k) && S.Follows(w.sys, at) && Carries(S.TheWriter(w.sys, at), s)
    ensures var list := Browser(H.Stream(w.hubs[at].clients[k])).radio;
            && list <= L.Concat(s.published)
            && (S.UnderWay(w.sys, at) == [] ==> list == L.Concat(s.published))
  {
    var msgs := H.Stream(w.hubs[at].clients[k]);
    assert E.HubOk(w, at) && H.ClientOk(w.hubs[at].clients[k], w.hubs[at].snap);
    BrowserRadio(msgs);
    S.FedOk(w.sys, at);
    S.FollowerConverges(w.sys, at);
    FoldKeepsRadio(w.hubs[at].snap, S.UnderWay(w.sys, at));
    WriterRadio(S.TheWriter(w.sys, at), s);
  }

  /** The clips listed are those whose first marking is in a message that does not raise. */
  ghost predicate ListsSurvivors(list: seq<RadioRef>, es: seq<L.Event>, path: string) {
    forall clip :: clip in L.Clips(list) <==> L.PathArrives(es) && D.Survives(D.Groups(es), L.FullPath(path), clip)
  }

  lemma PublishedSurvive(es: seq<L.Event>, path: string)
    requires L.OnePath(es, path)
    ensures var all := L.Concat(L.Flush(L.RunLive(es)).published); L.DistinctClips(all) && ListsSurvivors(all, es, path)
  {
    D.LiveDelivers(es, path);
  }

  /** In every reachable state of lanes, gateway, hubs and clients together, at any hub that
      follows the live writer: no clip is ever listed twice by a browser none of whose sends
      failed, and once nothing is under way it lists exactly the clips whose first marking is
      in a message that does not raise. What the list held at its last snapshot and what arrived
      since make it up, however often the page looked: each such clip arrives exactly once, or
      was there already. */
  lemma EachClipOnce<K>(
    worlds: seq<E.World<K>>, steps: seq<E.Step<K>>, i: nat, at: S.Where, k: K, es: seq<L.Event>, path: string)
    requires E.IsRun(worlds, steps) && i < |worlds| && E.Reached(worlds[i], at, k)
    requires L.OnePath(es, path)
    requires S.Follows(worlds[i].sys, at) && Carries(S.TheWriter(worlds[i].sys, at), L.Flush(L.RunLive(es)))
    ensures var msgs := H.Stream(worlds[i].hubs[at].clients[k]);
            var list := Browser(msgs).radio;
            && L.DistinctClips(list) && AccountsFor(msgs, list)
            && (S.UnderWay(worlds[i].sys, at) == [] ==> ListsSurvivors(list, es, path))
  {
    var list := Browser(H.Stream(worlds[i].hubs[at].clients[k])).radio;
    E.RunKeepsInv(worlds, steps, i);
    ListFollowsWriter(worlds[i], at, k, L.Flush(L.RunLive(es)));
    PublishedSurvive(es, path);
    PageAccounts(H.Stream(worlds[i].hubs[at].clients[k]));
  }
}
