/** When the static player shows what (web/src/realtime/staticReplay.ts), in the clip's own
    clock: the armed timer's instant after every event, and what pausing costs. */
module StaticPacing {
  import opened Model
  import opened Reducer
  import opened StaticReplay

  // ------------------------------------------------------------------ the clip's clock

  /** The clock a frame carries; a snapshot stands at the first frame's. */
  function ClipClock(ms: seq<Msg>, i: nat): int
    requires Playable(ms) && i < |ms|
  {
    if ms[i].FrameMsg? then ms[i].frame.timeMs else ms[FirstFrame(ms)].frame.timeMs
  }

  lemma OffsetIsClock(ms: seq<Msg>, i: nat)
    requires Playable(ms) && i < |ms|
    ensures Offset(ms, i) == ClipClock(ms, i) - ClipClock(ms, FirstFrame(ms))
  {
  }

  function Later(a: int, b: int): int {
    if a < b then b else a
  }

  // ------------------------------------------------------------------ the armed timer

  /** The one timer a playing player has armed. */
  function Armed(p: Player): Timer
    requires p.timer.Some? && p.timer.value in p.pending
  {
    p.pending[p.timer.value]
  }

  /** It fires where the anchor says, and the schedule ends in it. */
  ghost predicate Anchored(ms: seq<Msg>, p: Player)
    requires Playable(ms)
  {
    && TimerOk(ms, p)
    && (!p.paused && !p.closed ==>
          if Armed(p).action.Show? then
            && p.loopStart == Armed(p).at - Offset(ms, p.nextIndex)
            && p.sched != [] && p.sched[|p.sched| - 1] == Scheduled(p.nextIndex, Armed(p).at, p.epoch)
          else p.loopStart == Armed(p).at)
  }

  /** Going on from message i arms exactly this. */
  ghost predicate GoesOn(ms: seq<Msg>, q: Player, i: nat, at: int, now: int)
    requires Playable(ms)
  {
    && !q.paused && !q.closed && Anchored(ms, q)
    && (if i < |ms| then Armed(q) == Timer(at, Show(i)) && q.nextIndex == i
        else Armed(q) == Timer(now, PlayFrom(FirstFrame(ms))))
  }

  lemma PlayGoesOn(ms: seq<Msg>, p: Player, i: nat, now: int)
    requires Playable(ms) && !p.paused && !p.closed && p.pending == map[] && p.nextIndex <= |ms|
    ensures GoesOn(ms, Play(ms, p, i, now), i, if i < |ms| then Later(now, p.loopStart + Offset(ms, i)) else now, now)
  {
    PlayArmsOne(ms, p, i, now);
  }

  /** A frame shown when its timer fires: the next is due as much later as the clip has it, or at
      once when the clock is past that. After the last one the next lap starts at once. */
  lemma FiredGoesOn(ms: seq<Msg>, p: Player, id: nat, now: int)
    requires Playable(ms) && Anchored(ms, p) && id in p.pending
    ensures Armed(p) == p.pending[id] && !p.paused && !p.closed
    ensures p.pending[id].action.i == p.nextIndex < |ms|
    ensures var due, i := p.pending[id].at, p.nextIndex;
            if p.pending[id].action.PlayFrom? then GoesOn(ms, Fire(ms, p, id, now), i, Later(now, due), now)
            else GoesOn(ms, Fire(ms, p, id, now), i + 1,
                        if i + 1 < |ms| then Later(now, due + Offset(ms, i + 1) - Offset(ms, i)) else now, now)
  {
    var fired := p.(pending := p.pending - {id});
    assert fired.pending == map[];
    match p.pending[id].action
    case PlayFrom(i) => PlayGoesOn(ms, fired, i, now);
    case Show(i) => PlayGoesOn(ms, ShowFrame(ms, fired, i), i + 1, now);
  }

  lemma ResumeGoesOn(ms: seq<Msg>, p: Player, now: int)
    requires Playable(ms) && TimerOk(ms, p) && p.paused && !p.closed
    ensures var i := p.nextIndex;
            GoesOn(ms, Resume(ms, p, now), i,
                   if i < |ms| then now + Later(0, Offset(ms, i) - p.lastOffset) else now, now)
  {
    var q := p.(paused := false, loopStart := now - p.lastOffset, epoch := p.epoch + 1);
    PlayGoesOn(ms, q, p.nextIndex, now);
  }

  lemma JumpFields(ms: seq<Msg>, p: Player, end: nat, now: int)
    requires Playable(ms) && TimerOk(ms, p) && end < |ms|
    ensures var q := Jump(ms, p, end, now);
            && q.pending == map[] && q.loopStart == now - Offset(ms, end) && q.nextIndex == end + 1
            && q.paused == p.paused && q.closed == p.closed
  {
    assert ClearTimer(p).pending == map[];
  }

  lemma JumpGoesOn(ms: seq<Msg>, p: Player, end: nat, now: int)
    requires Playable(ms) && TimerOk(ms, p) && !p.paused && !p.closed && end < |ms|
    ensures GoesOn(ms, Play(ms, Jump(ms, p, end, now), end + 1, now), end + 1,
                   if end + 1 < |ms| then now + Later(0, ClipClock(ms, end + 1) - ClipClock(ms, end)) else now, now)
  {
    JumpFields(ms, p, end, now);
    OffsetIsClock(ms, end);
    if end + 1 < |ms| { OffsetIsClock(ms, end + 1); }
    PlayGoesOn(ms, Jump(ms, p, end, now), end + 1, now);
  }

  /** What each event does to the two switches. */
  lemma StepSwitches(ms: seq<Msg>, p: Player, e: Event)
    requires Playable(ms) && Enabled(p, e)
    ensures Next(ms, p, e).paused <==> e.Paused? || (p.paused && !e.Resumed?)
    ensures Next(ms, p, e).closed <==> p.closed || e.Closed?
  {
  }

  lemma ResumeKeepsAnchor(ms: seq<Msg>, p: Player, now: int)
    requires Playable(ms) && Anchored(ms, p) && TimerOk(ms, Next(ms, p, Resumed(now)))
    ensures Anchored(ms, Next(ms, p, Resumed(now)))
  {
    if p.paused && !p.closed { ResumeGoesOn(ms, p, now); }
  }

  lemma JumpStaysOn(ms: seq<Msg>, p: Player, end: nat, now: int)
    requires Playable(ms) && end < |ms|
    ensures Jump(ms, p, end, now).paused == p.paused
  {
  }

  lemma ScrubJumps(ms: seq<Msg>, p: Player, t: int, now: int, end: nat, q: Player)
    requires Playable(ms) && !p.paused && end == ScrubTarget(ms, t, FirstFrame(ms)) && q == Jump(ms, p, end, now)
    ensures Next(ms, p, Scrubbed(t, now)) == Play(ms, q, end + 1, now)
  {
    JumpStaysOn(ms, p, end, now);
  }

  lemma ScrubKeepsAnchor(ms: seq<Msg>, p: Player, t: int, now: int)
    requires Playable(ms) && Anchored(ms, p) && !p.paused && !p.closed
    ensures Anchored(ms, Next(ms, p, Scrubbed(t, now)))
  {
    var end := ScrubTarget(ms, t, FirstFrame(ms));
    JumpGoesOn(ms, p, end, now);
    ScrubJumps(ms, p, t, now, end, Jump(ms, p, end, now));
  }

  lemma StepKeepsAnchor(ms: seq<Msg>, p: Player, e: Event)
    requires Playable(ms) && Anchored(ms, p) && Enabled(p, e)
    ensures Anchored(ms, Next(ms, p, e))
  {
    StepKeepsTimer(ms, p, e);
    StepSwitches(ms, p, e);
    match e
    case Fired(id, now) => FiredGoesOn(ms, p, id, now);
    case Resumed(now) => ResumeKeepsAnchor(ms, p, now);
    case Scrubbed(t, now) => if !p.paused && !p.closed { ScrubKeepsAnchor(ms, p, t, now); }
    case Paused =>
    case Closed =>
  }

  lemma {:induction false} RunAnchored(ms: seq<Msg>, players: seq<Player>, events: seq<Event>, n: nat)
    requires Playable(ms) && IsRun(ms, players, events) && n < |players|
    ensures Anchored(ms, players[n])
  {
    if n == 0 {
      var now :| players[0] == Start(ms, now);
      PlayGoesOn(ms, Player(EmptyState(), false, false, false, map[], None, 1, 0, 0, now, 0, [], 0), 0, now);
    } else {
      RunAnchored(ms, players, events, n - 1);
      StepKeepsAnchor(ms, players[n - 1], events[n - 1]);
    }
  }

  // ------------------------------------------------------------------ over whole runs

  predicate Shows(p: Player, e: Event) {
    e.Fired? && e.id in p.pending && p.pending[e.id].action.Show?
  }

  /** The last message shown before state n, by its timer or by a scrub. */
  function LastShown(ms: seq<Msg>, players: seq<Player>, events: seq<Event>, n: nat): Option<nat>
    requires Playable(ms) && n <= |events| && n <= |players|
  {
    if n == 0 then None
    else
      var before := LastShown(ms, players, events, n - 1);
      match events[n - 1]
      case Fired(id, _) =>
        if Shows(players[n - 1], events[n - 1]) then Some(players[n - 1].pending[id].action.i) else before
      case Scrubbed(t, _) => Some(ScrubTarget(ms, t, FirstFrame(ms)))
      case _ => before
  }

  /** The clip's clock at the message last shown; where nothing was, at the first frame. */
  function Reached(ms: seq<Msg>, players: seq<Player>, events: seq<Event>, n: nat): int
    requires Playable(ms) && n <= |events| && n <= |players|
  {
    var last := LastShown(ms, players, events, n);
    if last.Some? && last.value < |ms| then ClipClock(ms, last.value) else ClipClock(ms, FirstFrame(ms))
  }

  lemma PlayKeepsOffset(ms: seq<Msg>, p: Player, i: nat, now: int)
    requires Playable(ms)
    ensures Play(ms, p, i, now).lastOffset == p.lastOffset && Play(ms, p, i, now).live == p.live
  {
  }

  lemma FiredOffset(ms: seq<Msg>, p: Player, id: nat, now: int)
    requires Playable(ms) && id in p.pending && p.pending[id].action.i < |ms|
    ensures var q, i := Fire(ms, p, id, now), p.pending[id].action.i;
            if p.pending[id].action.Show? then q.lastOffset == Offset(ms, i) && q.live
            else q.lastOffset == p.lastOffset && q.live == p.live
  {
    var fired := p.(pending := p.pending - {id});
    var i := p.pending[id].action.i;
    PlayKeepsOffset(ms, fired, i, now);
    PlayKeepsOffset(ms, ShowFrame(ms, fired, i), i + 1, now);
  }

  lemma ScrubOffset(ms: seq<Msg>, p: Player, t: int, now: int)
    requires Playable(ms)
    ensures Scrub(ms, p, t, now).lastOffset == Offset(ms, ScrubTarget(ms, t, FirstFrame(ms)))
    ensures Scrub(ms, p, t, now).live == p.live
  {
    var end := ScrubTarget(ms, t, FirstFrame(ms));
    PlayKeepsOffset(ms, Jump(ms, p, end, now), end + 1, now);
  }

  lemma StepOffset(ms: seq<Msg>, p: Player, e: Event)
    requires Playable(ms) && Enabled(p, e) && (e.Fired? ==> p.pending[e.id].action.i < |ms|)
    ensures var q := Next(ms, p, e);
            && q.lastOffset == (if Shows(p, e) then Offset(ms, p.pending[e.id].action.i)
                                else if e.Scrubbed? then Offset(ms, ScrubTarget(ms, e.ms, FirstFrame(ms)))
                                else p.lastOffset)
            && (q.live <==> p.live || Shows(p, e))
  {
    match e
    case Fired(id, now) => FiredOffset(ms, p, id, now);
    case Scrubbed(t, now) => ScrubOffset(ms, p, t, now);
    case Resumed(now) =>
      PlayKeepsOffset(ms, p.(paused := false, loopStart := now - p.lastOffset, epoch := p.epoch + 1), p.nextIndex, now);
    case _ =>
  }

  /** In every reachable state the offset kept is the clip's clock at the message last shown, and
      'live' was said if and only if a timer has shown a message. */
  lemma {:induction false} OffsetIsReached(ms: seq<Msg>, players: seq<Player>, events: seq<Event>, n: nat)
    requires Playable(ms) && IsRun(ms, players, events) && n < |players|
    ensures players[n].lastOffset == Reached(ms, players, events, n) - ClipClock(ms, FirstFrame(ms))
    ensures players[n].live <==> exists a :: 0 <= a < n && Shows(players[a], events[a])
  {
    if n == 0 {
      var now :| players[0] == Start(ms, now);
    } else {
      var p, e := players[n - 1], events[n - 1];
      OffsetIsReached(ms, players, events, n - 1);
      RunAnchored(ms, players, events, n - 1);
      if e.Fired? { FiredGoesOn(ms, p, e.id, e.now); }
      StepOffset(ms, p, e);
    }
  }

  /** A timer that fires shows its message or starts a lap; the next frame is due as much later
      than it was due itself as the clip has it, or at once when the clock is past that; a lap
      that ends starts over at once. */
  lemma NextTimerIsExact(ms: seq<Msg>, players: seq<Player>, events: seq<Event>, n: nat)
    requires Playable(ms) && IsRun(ms, players, events) && n < |events| && events[n].Fired?
    ensures var p, now := players[n], events[n].now;
            var fired := p.pending[events[n].id];
            var i := fired.action.i;
            && i < |ms| && players[n + 1].timer.Some? && players[n + 1].timer.value in players[n + 1].pending
            && Armed(players[n + 1])
               == if fired.action.PlayFrom? then Timer(Later(now, fired.at), Show(FirstFrame(ms)))
                  else if i + 1 < |ms|
                  then Timer(Later(now, fired.at + (ClipClock(ms, i + 1) - ClipClock(ms, i))), Show(i + 1))
                  else Timer(now, PlayFrom(FirstFrame(ms)))
  {
    RunAnchored(ms, players, events, n);
    FiredGoesOn(ms, players[n], events[n].id, events[n].now);
  }

  /** A resume waits for as long as the next message comes after the one last shown on the clip's
      clock, and never less than nothing. */
  lemma ResumeIsExact(ms: seq<Msg>, players: seq<Player>, events: seq<Event>, n: nat)
    requires Playable(ms) && IsRun(ms, players, events) && n < |events| && events[n].Resumed?
    requires players[n].paused && !players[n].closed
    ensures var next, now := players[n].nextIndex, events[n].now;
            && players[n + 1].timer.Some? && players[n + 1].timer.value in players[n + 1].pending
            && Armed(players[n + 1])
               == if next < |ms|
                  then Timer(now + Later(0, ClipClock(ms, next) - Reached(ms, players, events, n)), Show(next))
                  else Timer(now, PlayFrom(FirstFrame(ms)))
  {
    RunAnchored(ms, players, events, n);
    OffsetIsReached(ms, players, events, n);
    ResumeGoesOn(ms, players[n], events[n].now);
  }

  /** So does a scrub, from the message it lands on. */
  lemma ScrubIsExact(ms: seq<Msg>, players: seq<Player>, events: seq<Event>, n: nat, end: nat)
    requires Playable(ms) && IsRun(ms, players, events) && n < |events| && events[n].Scrubbed?
    requires !players[n].paused && !players[n].closed && end == ScrubTarget(ms, events[n].ms, FirstFrame(ms))
    ensures var now := events[n].now;
            && players[n + 1].timer.Some? && players[n + 1].timer.value in players[n + 1].pending
            && Armed(players[n + 1])
               == if end + 1 < |ms| then
                    Timer(now + Later(0, ClipClock(ms, end + 1) - ClipClock(ms, end)), Show(end + 1))
                  else Timer(now, PlayFrom(FirstFrame(ms)))
  {
    var p, e := players[n], events[n];
    RunAnchored(ms, players, events, n);
    JumpGoesOn(ms, p, end, e.now);
    ScrubJumps(ms, p, e.ms, e.now, end, Jump(ms, p, end, e.now));
    assert players[n + 1] == Next(ms, p, e);
  }

  // ------------------------------------------------------------------ what a pause costs

  /** A pause at instant t and a resume leave to wait what was left at t if and only if none of
      the gap before the next frame had passed by then: the gap is waited for all over again. */
  lemma PauseKeepsWaitIff(ms: seq<Msg>, players: seq<Player>, events: seq<Event>, n: nat, t: int)
    requires Playable(ms) && IsRun(ms, players, events) && n + 1 < |events|
    requires events[n] == Paused && events[n + 1].Resumed? && !players[n].paused && !players[n].closed
    ensures players[n].timer.Some? && players[n].timer.value in players[n].pending
    ensures players[n + 2].timer.Some? && players[n + 2].timer.value in players[n + 2].pending
    ensures Armed(players[n]).action.Show? ==>
              var due, i := Armed(players[n]).at, Armed(players[n]).action.i;
              var waits := Armed(players[n + 2]).at - events[n + 1].now;
              && i < |ms| && waits == Later(0, ClipClock(ms, i) - Reached(ms, players, events, n))
              && (waits == due - t <==> t == due - Later(0, ClipClock(ms, i) - Reached(ms, players, events, n)))
  {
    RunAnchored(ms, players, events, n);
    StepSwitches(ms, players[n], events[n]);
    ResumeIsExact(ms, players, events, n + 1);
    assert players[n + 1].nextIndex == players[n].nextIndex;
    assert Reached(ms, players, events, n + 1) == Reached(ms, players, events, n);
  }

  /** Two frames 100 ms apart: paused 60 ms after the first, with 40 left, the player waits the
      whole 100 when it resumes. */
  lemma PauseWaitsAgain(f: Frame, g: Frame)
    requires g.timeMs == f.timeMs + 100
    ensures var ms := [FrameMsg(f), FrameMsg(g)];
            && Playable(ms)
            && (var shown := Next(ms, Start(ms, 0), Fired(1, 0));
                var p := Next(ms, Next(ms, shown, Paused), Resumed(1000));
                && shown.pending == map[2 := Timer(100, Show(1))]
                && p.pending == map[3 := Timer(1100, Show(1))])
  {
    var ms := [FrameMsg(f), FrameMsg(g)];
    assert ms[0].FrameMsg?;
    assert FirstFrame(ms) == 0 && Offset(ms, 0) == 0 && Offset(ms, 1) == 100;
    var start := Start(ms, 0);
    assert start.pending == map[1 := Timer(0, Show(0))] && start.timer == Some(1);
    var shown := Next(ms, start, Fired(1, 0));
    assert start.pending - {1} == map[];
    assert shown.pending == map[2 := Timer(100, Show(1))];
    assert shown.pending - {2} == map[];
  }
}
