/** The paced, looping player of the static build (web/src/realtime/staticReplay.ts).

    `Player` is the closure's variables as a value, with the event loop's armed timers; the
    event functions say what each callback and control does to it, and the class
    `Playback` updates the same variables in place. `now` is the wall clock an event
    reads. `sched` keeps every frame ever scheduled; `epoch` counts control actions and laps,
    so frames of one epoch are those paced without interruption. */
module StaticReplay {
  import opened Model
  import opened Reducer

  datatype Action = PlayFrom(i: nat) | Show(i: nat)

  datatype Timer = Timer(at: int, action: Action)

  datatype Scheduled = Scheduled(i: nat, at: int, epoch: nat)

  datatype Player = Player(
    state: RaceState, closed: bool, live: bool, paused: bool,
    pending: map<nat, Timer>, timer: Option<nat>, nextId: nat,
    nextIndex: nat, lastOffset: int, loopStart: int, lapsCompleted: nat,
    sched: seq<Scheduled>, epoch: nat)

  // ------------------------------------------------------------------ the clip

  /** Only a clip with at least one frame is ever scheduled. */
  predicate Playable(ms: seq<Msg>) {
    exists i :: 0 <= i < |ms| && ms[i].FrameMsg?
  }

  function FirstFrame(ms: seq<Msg>): (i: nat)
    requires Playable(ms)
    ensures i < |ms| && ms[i].FrameMsg? && forall j :: 0 <= j < i ==> ms[j].SnapshotMsg?
  {
    if ms[0].FrameMsg? then 0
    else
      assert Playable(ms[1..]) by {
        var i :| 0 <= i < |ms| && ms[i].FrameMsg?;
        assert ms[1..][i - 1] == ms[i];
      }
      1 + FirstFrame(ms[1..])
  }

  function Offset(ms: seq<Msg>, i: nat): int
    requires Playable(ms) && i < |ms|
  {
    if ms[i].FrameMsg? then ms[i].frame.timeMs - ms[FirstFrame(ms)].frame.timeMs else 0
  }

  function MaxRev(ms: seq<Msg>): int {
    if ms == [] then 0
    else
      var rest := MaxRev(ms[..|ms| - 1]);
      var last := ms[|ms| - 1];
      if last.FrameMsg? && last.frame.rev > rest then last.frame.rev else rest
  }

  /** A frame as it plays in a later lap: its Rev keeps climbing. */
  function Bump(ms: seq<Msg>, i: nat, laps: nat): Msg
    requires i < |ms|
  {
    if ms[i].FrameMsg? && laps > 0
    then FrameMsg(ms[i].frame.(rev := ms[i].frame.rev + laps * MaxRev(ms)))
    else ms[i]
  }

  // ------------------------------------------------------------------ events

  function Arm(p: Player, at: int, action: Action): Player {
    p.(pending := p.pending[p.nextId := Timer(at, action)], timer := Some(p.nextId), nextId := p.nextId + 1)
  }

  function ClearTimer(p: Player): Player {
    if p.timer.Some? then p.(pending := p.pending - {p.timer.value}) else p
  }

  function Play(ms: seq<Msg>, p: Player, i: nat, now: int): Player
    requires Playable(ms)
  {
    if p.closed || p.paused then p
    else if i >= |ms| then
      Arm(p.(lapsCompleted := p.lapsCompleted + 1, loopStart := now, nextIndex := FirstFrame(ms), epoch := p.epoch + 1),
          now, PlayFrom(FirstFrame(ms)))
    else
      var start := if now - p.loopStart > Offset(ms, i) then now - Offset(ms, i) else p.loopStart;
      var wait := if Offset(ms, i) - (now - start) > 0 then Offset(ms, i) - (now - start) else 0;
      Arm(p.(loopStart := start, nextIndex := i, sched := p.sched + [Scheduled(i, now + wait, p.epoch)]),
          now + wait, Show(i))
  }

  function ShowFrame(ms: seq<Msg>, p: Player, i: nat): Player
    requires Playable(ms) && i < |ms|
  {
    p.(state := ApplyMessage(p.state, Bump(ms, i, p.lapsCompleted)), lastOffset := Offset(ms, i), live := true)
  }

  /** The clip has loaded. */
  function Start(ms: seq<Msg>, now: int): Player
    requires Playable(ms)
  {
    Play(ms, Player(EmptyState(), false, false, false, map[], None, 1, 0, 0, now, 0, [], 0), 0, now)
  }

  function Fire(ms: seq<Msg>, p: Player, id: nat, now: int): Player
    requires Playable(ms) && id in p.pending
  {
    var fired := p.(pending := p.pending - {id});
    match p.pending[id].action
    case PlayFrom(i) => Play(ms, fired, i, now)
    case Show(i) => if i < |ms| then Play(ms, ShowFrame(ms, fired, i), i + 1, now) else fired
  }

  function Pause(p: Player): Player {
    if p.paused then p else ClearTimer(p.(paused := true, epoch := p.epoch + 1))
  }

  function Resume(ms: seq<Msg>, p: Player, now: int): Player
    requires Playable(ms)
  {
    if !p.paused then p
    else Play(ms, p.(paused := false, loopStart := now - p.lastOffset, epoch := p.epoch + 1), p.nextIndex, now)
  }

  /** First frame at or after `ms` on the clip's clock, or the last one. */
  function ScrubTarget(clip: seq<Msg>, ms: int, from: nat): (end: nat)
    requires Playable(clip) && from < |clip|
    ensures from <= end < |clip|
    ensures forall j :: from <= j < end ==> Offset(clip, j) < ms
    ensures Offset(clip, end) >= ms || end == |clip| - 1
    decreases |clip| - from
  {
    if Offset(clip, from) >= ms || from == |clip| - 1 then from else ScrubTarget(clip, ms, from + 1)
  }

  /** What replaying the first `upTo` messages of the current lap from nothing gives. */
  function Replayed(ms: seq<Msg>, upTo: nat, laps: nat): RaceState
    requires upTo <= |ms|
  {
    if upTo == 0 then EmptyState()
    else ApplyMessage(Replayed(ms, upTo - 1, laps), Bump(ms, upTo - 1, laps))
  }

  function Jump(clip: seq<Msg>, p: Player, end: nat, now: int): Player
    requires Playable(clip) && end < |clip|
  {
    ClearTimer(p).(state := Replayed(clip, end + 1, p.lapsCompleted), lastOffset := Offset(clip, end),
    nextIndex := end + 1, loopStart := now - Offset(clip, end), epoch := p.epoch + 1)
  }

  function Scrub(clip: seq<Msg>, p: Player, ms: int, now: int): Player
    requires Playable(clip)
  {
    var end := ScrubTarget(clip, ms, FirstFrame(clip));
    var q := Jump(clip, p, end, now);
    if p.paused then q else Play(clip, q, end + 1, now)
  }

  function Close(p: Player): Player {
    ClearTimer(p.(closed := true))
  }

  datatype Event = Fired(id: nat, now: int) | Paused | Resumed(now: int) | Scrubbed(ms: int, now: int) | Closed

  predicate Enabled(p: Player, e: Event) {
    e.Fired? ==> e.id in p.pending
  }

  function Next(ms: seq<Msg>, p: Player, e: Event): Player
    requires Playable(ms) && Enabled(p, e)
  {
    match e
    case Fired(id, now) => Fire(ms, p, id, now)
    case Paused => Pause(p)
    case Resumed(now) => Resume(ms, p, now)
    case Scrubbed(t, now) => Scrub(ms, p, t, now)
    case Closed => Close(p)
  }

  ghost predicate IsRun(ms: seq<Msg>, players: seq<Player>, events: seq<Event>)
    requires Playable(ms)
  {
    && |players| == |events| + 1
    && (exists now :: players[0] == Start(ms, now))
    && forall i :: 0 <= i < |events| ==>
         Enabled(players[i], events[i]) && players[i + 1] == Next(ms, players[i], events[i])
  }

  // ------------------------------------------------------------------ one timer

  /** Exactly one timer is armed while the player is neither paused nor closed, and it is
      the one the variable names; none otherwise. It carries the next message. */
  ghost predicate TimerOk(ms: seq<Msg>, p: Player)
    requires Playable(ms)
  {
    && (p.paused || p.closed ==> p.pending == map[])
    && (!p.paused && !p.closed ==>
          p.timer.Some? && p.pending.Keys == {p.timer.value}
          && var a := p.pending[p.timer.value].action;
             (a == Show(p.nextIndex) && p.nextIndex < |ms|)
             || (a == PlayFrom(p.nextIndex) && p.nextIndex == FirstFrame(ms)))
    && p.nextIndex <= |ms|
  }

  lemma PlayArmsOne(ms: seq<Msg>, p: Player, i: nat, now: int)
    requires Playable(ms) && p.pending == map[] && p.nextIndex <= |ms|
    ensures TimerOk(ms, Play(ms, p, i, now))
  {
  }

  lemma FireKeepsTimer(ms: seq<Msg>, p: Player, id: nat, now: int)
    requires Playable(ms) && TimerOk(ms, p) && id in p.pending
    ensures TimerOk(ms, Fire(ms, p, id, now))
  {
    var fired := p.(pending := p.pending - {id});
    assert fired.pending == map[];
    match p.pending[id].action
    case PlayFrom(i) => PlayArmsOne(ms, fired, i, now);
    case Show(i) => PlayArmsOne(ms, ShowFrame(ms, fired, i), i + 1, now);
  }

  lemma JumpKeepsTimer(clip: seq<Msg>, p: Player, end: nat, now: int)
    requires Playable(clip) && TimerOk(clip, p) && end < |clip|
    ensures var q := Jump(clip, p, end, now);
            TimerOk(clip, if p.paused then q else Play(clip, q, end + 1, now))
  {
    assert ClearTimer(p).pending == map[];
    PlayArmsOne(clip, Jump(clip, p, end, now), end + 1, now);
  }

  lemma StepKeepsTimer(ms: seq<Msg>, p: Player, e: Event)
    requires Playable(ms) && TimerOk(ms, p) && Enabled(p, e)
    ensures TimerOk(ms, Next(ms, p, e))
  {
    match e
    case Fired(id, now) =>
      FireKeepsTimer(ms, p, id, now);
    case Paused =>
      if !p.paused { assert ClearTimer(p.(paused := true, epoch := p.epoch + 1)).pending == map[]; }
    case Resumed(now) =>
      if p.paused {
        PlayArmsOne(ms, p.(paused := false, loopStart := now - p.lastOffset, epoch := p.epoch + 1), p.nextIndex, now);
      }
    case Scrubbed(t, now) =>
      JumpKeepsTimer(ms, p, ScrubTarget(ms, t, FirstFrame(ms)), now);
    case Closed =>
      assert Close(p).pending == map[];
  }

  /** In every reachable state of every run of timers and controls: at most one timer is
      armed, none while paused or closed, and exactly one otherwise, so playback can neither
      double up nor silently die. */
  lemma {:induction false} OneTimer(ms: seq<Msg>, players: seq<Player>, events: seq<Event>, i: nat)
    requires Playable(ms) && IsRun(ms, players, events) && i < |players|
    ensures TimerOk(ms, players[i])
    ensures |players[i].pending| == if players[i].paused || players[i].closed then 0 else 1
  {
    if i == 0 {
      var now :| players[0] == Start(ms, now);
    } else {
      OneTimer(ms, players, events, i - 1);
      StepKeepsTimer(ms, players[i - 1], events[i - 1]);
    }
    if !players[i].paused && !players[i].closed {
      assert |players[i].pending.Keys| == 1;
    }
  }

  // ------------------------------------------------------------------ pacing

  ghost function Offsets(ms: seq<Msg>): (offs: seq<int>)
    requires Playable(ms)
    ensures |offs| == |ms| && forall i :: 0 <= i < |ms| ==> offs[i] == Offset(ms, i)
  {
    seq(|ms|, i requires 0 <= i < |ms| => Offset(ms, i))
  }

  /** Within an epoch the schedule is at least as spread out as the clip; everything in the
      current epoch was scheduled no later than the current anchor says. */
  ghost predicate Paced(offs: seq<int>, sched: seq<Scheduled>, epoch: nat, anchor: int) {
    && (forall a :: 0 <= a < |sched| ==> sched[a].i < |offs| && sched[a].epoch <= epoch)
    && (forall a :: 0 <= a < |sched| && sched[a].epoch == epoch ==> sched[a].at - offs[sched[a].i] <= anchor)
    && (forall a, b :: 0 <= a < b < |sched| && sched[a].epoch == sched[b].epoch ==>
          sched[b].at - sched[a].at >= offs[sched[b].i] - offs[sched[a].i])
  }

  ghost predicate PaceOk(ms: seq<Msg>, p: Player)
    requires Playable(ms)
  {
    Paced(Offsets(ms), p.sched, p.epoch, p.loopStart)
  }

  /** Anchors only move later within an epoch, and a frame is scheduled where its anchor says. */
  lemma ScheduleAt(offs: seq<int>, sched: seq<Scheduled>, epoch: nat, anchor: int, anchor': int, i: nat)
    requires Paced(offs, sched, epoch, anchor) && anchor <= anchor' && i < |offs|
    ensures Paced(offs, sched + [Scheduled(i, anchor' + offs[i], epoch)], epoch, anchor')
  {
  }

  lemma NextEpoch(offs: seq<int>, sched: seq<Scheduled>, epoch: nat, anchor: int, anchor': int)
    requires Paced(offs, sched, epoch, anchor)
    ensures Paced(offs, sched, epoch + 1, anchor')
  {
  }

  lemma PlayKeepsPace(ms: seq<Msg>, p: Player, i: nat, now: int)
    requires Playable(ms) && PaceOk(ms, p)
    ensures PaceOk(ms, Play(ms, p, i, now))
  {
    if i >= |ms| {
      NextEpoch(Offsets(ms), p.sched, p.epoch, p.loopStart, now);
    } else {
      var start := if now - p.loopStart > Offset(ms, i) then now - Offset(ms, i) else p.loopStart;
      ScheduleAt(Offsets(ms), p.sched, p.epoch, p.loopStart, start, i);
    }
  }

  lemma FireKeepsPace(ms: seq<Msg>, p: Player, id: nat, now: int)
    requires Playable(ms) && PaceOk(ms, p) && id in p.pending
    ensures PaceOk(ms, Fire(ms, p, id, now))
  {
    var fired := p.(pending := p.pending - {id});
    match p.pending[id].action
    case PlayFrom(i) => PlayKeepsPace(ms, fired, i, now);
    case Show(i) => if i < |ms| { PlayKeepsPace(ms, ShowFrame(ms, fired, i), i + 1, now); }
  }

  /** A control action starts an epoch of its own. */
  lemma FreshEpoch(ms: seq<Msg>, p: Player, q: Player, i: nat, now: int)
    requires Playable(ms) && PaceOk(ms, p) && q.sched == p.sched && q.epoch == p.epoch + 1
    ensures PaceOk(ms, q) && PaceOk(ms, Play(ms, q, i, now))
  {
    NextEpoch(Offsets(ms), p.sched, p.epoch, p.loopStart, q.loopStart);
    PlayKeepsPace(ms, q, i, now);
  }

  lemma ResumeKeepsPace(ms: seq<Msg>, p: Player, now: int)
    requires Playable(ms) && PaceOk(ms, p)
    ensures PaceOk(ms, Resume(ms, p, now))
  {
    FreshEpoch(ms, p, p.(paused := false, loopStart := now - p.lastOffset, epoch := p.epoch + 1), p.nextIndex, now);
  }

  lemma ScrubKeepsPace(clip: seq<Msg>, p: Player, ms: int, now: int)
    requires Playable(clip) && PaceOk(clip, p)
    ensures PaceOk(clip, Scrub(clip, p, ms, now))
  {
    var end := ScrubTarget(clip, ms, FirstFrame(clip));
    FreshEpoch(clip, p, Jump(clip, p, end, now), end + 1, now);
  }

  lemma StepKeepsPace(ms: seq<Msg>, p: Player, e: Event)
    requires Playable(ms) && PaceOk(ms, p) && Enabled(p, e)
    ensures PaceOk(ms, Next(ms, p, e))
  {
    match e
    case Fired(id, now) => FireKeepsPace(ms, p, id, now);
    case Paused => NextEpoch(Offsets(ms), p.sched, p.epoch, p.loopStart, p.loopStart);
    case Resumed(now) => ResumeKeepsPace(ms, p, now);
    case Scrubbed(t, now) => ScrubKeepsPace(ms, p, t, now);
    case Closed =>
  }

  /** Between control actions within one lap, any two scheduled instants are at least as far
      apart as their frames are in the clip, whatever stalls came between: no burst. */
  lemma {:induction false} NoBurst(ms: seq<Msg>, players: seq<Player>, events: seq<Event>, n: nat, a: nat, b: nat)
    requires Playable(ms) && IsRun(ms, players, events) && n < |players|
    ensures PaceOk(ms, players[n])
    ensures a < b < |players[n].sched| && players[n].sched[a].epoch == players[n].sched[b].epoch ==>
              players[n].sched[a].i < |ms| && players[n].sched[b].i < |ms|
              && players[n].sched[b].at - players[n].sched[a].at
                 >= Offset(ms, players[n].sched[b].i) - Offset(ms, players[n].sched[a].i)
  {
    if n == 0 {
      var now :| players[0] == Start(ms, now);
    } else {
      NoBurst(ms, players, events, n - 1, a, b);
      StepKeepsPace(ms, players[n - 1], events[n - 1]);
    }
  }

  // ------------------------------------------------------------------ baked clips

  /** A clip as the bake tool writes it: one snapshot at Rev 0, then frames at Revs 1..N. */
  ghost predicate Baked(ms: seq<Msg>) {
    && |ms| >= 2 && ms[0].SnapshotMsg? && ms[0].snap.rev == 0
    && forall i :: 1 <= i < |ms| ==> ms[i].FrameMsg? && ms[i].frame.rev == i
  }

  lemma {:induction false} BakedMaxRev(ms: seq<Msg>, k: nat)
    requires Baked(ms) && 1 <= k <= |ms|
    ensures MaxRev(ms[..k]) == k - 1
  {
    if k > 1 {
      BakedMaxRev(ms, k - 1);
      assert ms[..k][..k - 1] == ms[..k - 1];
    } else {
      assert ms[..1][..0] == [];
    }
  }

  lemma BakedFacts(ms: seq<Msg>)
    requires Baked(ms)
    ensures Playable(ms) && FirstFrame(ms) == 1 && MaxRev(ms) == |ms| - 1
  {
    assert ms[1].FrameMsg?;
    BakedMaxRev(ms, |ms|);
    assert ms[..|ms|] == ms;
  }

  /** The Rev of frame i in lap k. */
  function LapRev(ms: seq<Msg>, k: nat, i: nat): int
    requires i <= |ms|
  {
    if i <= 1 && k == 0 then 0 else k * (|ms| - 1) + (if i == 0 then 0 else i - 1)
  }

  lemma BumpRev(ms: seq<Msg>, i: nat, k: nat)
    requires Baked(ms) && 1 <= i < |ms|
    ensures Bump(ms, i, k).FrameMsg?
    ensures Bump(ms, i, k).frame == ms[i].frame.(rev := i + k * (|ms| - 1))
  {
    BakedFacts(ms);
  }

  lemma {:induction false} ReplayedRev(ms: seq<Msg>, i: nat, k: nat)
    requires Baked(ms) && i <= |ms|
    ensures Replayed(ms, i, k).rev == if i <= 1 then 0 else k * (|ms| - 1) + (i - 1)
  {
    if i > 0 {
      ReplayedRev(ms, i - 1, k);
      if i > 1 {
        BumpRev(ms, i - 1, k);
        assert k * (|ms| - 1) >= 0;
      }
    }
  }

  ghost predicate RevOk(ms: seq<Msg>, p: Player)
    requires Playable(ms)
  {
    && TimerOk(ms, p)
    && (p.lapsCompleted > 0 ==> 1 <= p.nextIndex)
    && p.state.rev == LapRev(ms, p.lapsCompleted, p.nextIndex)
  }

  /** The end of a lap is the start of the next. */
  lemma LapRolls(ms: seq<Msg>, k: nat)
    requires Baked(ms) && Playable(ms)
    ensures LapRev(ms, k, |ms|) == LapRev(ms, k + 1, FirstFrame(ms))
  {
    BakedFacts(ms);
    assert (k + 1) * (|ms| - 1) == k * (|ms| - 1) + (|ms| - 1);
  }

  lemma PlayKeepsRev(ms: seq<Msg>, p: Player, i: nat, now: int)
    requires Baked(ms) && Playable(ms) && p.pending == map[] && i <= |ms|
    requires p.closed || p.paused ==> p.nextIndex == i
    requires p.lapsCompleted > 0 ==> 1 <= i
    requires p.state.rev == LapRev(ms, p.lapsCompleted, i)
    ensures RevOk(ms, Play(ms, p, i, now))
  {
    BakedFacts(ms);
    if i == |ms| { LapRolls(ms, p.lapsCompleted); }
  }

  lemma ShowKeepsRev(ms: seq<Msg>, p: Player, i: nat)
    requires Baked(ms) && Playable(ms) && i < |ms| && (p.lapsCompleted > 0 ==> 1 <= i)
    requires p.state.rev == LapRev(ms, p.lapsCompleted, i)
    ensures ShowFrame(ms, p, i).state.rev == LapRev(ms, p.lapsCompleted, i + 1)
    ensures 1 <= i ==> Bump(ms, i, p.lapsCompleted).FrameMsg? && p.state.rev < Bump(ms, i, p.lapsCompleted).frame.rev
  {
    if 1 <= i { BumpRev(ms, i, p.lapsCompleted); }
  }

  lemma FireKeepsRev(ms: seq<Msg>, p: Player, id: nat, now: int)
    requires Baked(ms) && Playable(ms) && RevOk(ms, p) && id in p.pending
    ensures RevOk(ms, Fire(ms, p, id, now))
  {
    var fired := p.(pending := p.pending - {id});
    assert fired.pending == map[];
    if p.pending[id].action.Show? {
      ShowKeepsRev(ms, fired, p.nextIndex);
      PlayKeepsRev(ms, ShowFrame(ms, fired, p.nextIndex), p.nextIndex + 1, now);
    } else {
      BakedFacts(ms);
      PlayKeepsRev(ms, fired, p.nextIndex, now);
    }
  }

  lemma {:induction false} ScrubKeepsRev(ms: seq<Msg>, p: Player, t: int, now: int)
    requires Baked(ms) && Playable(ms) && RevOk(ms, p)
    ensures RevOk(ms, Scrub(ms, p, t, now))
  {
    BakedFacts(ms);
    var end := ScrubTarget(ms, t, FirstFrame(ms));
    var q := Jump(ms, p, end, now);
    ReplayedRev(ms, end + 1, p.lapsCompleted);
    assert q.pending == map[];
    PlayKeepsRev(ms, q, end + 1, now);
  }

  lemma {:induction false} StepKeepsRev(ms: seq<Msg>, p: Player, e: Event)
    requires Baked(ms) && Playable(ms) && RevOk(ms, p) && Enabled(p, e)
    ensures RevOk(ms, Next(ms, p, e))
  {
    match e
    case Fired(id, now) => FireKeepsRev(ms, p, id, now);
    case Paused => StepKeepsTimer(ms, p, e);
    case Resumed(now) =>
      if p.paused {
        PlayKeepsRev(ms, p.(paused := false, loopStart := now - p.lastOffset, epoch := p.epoch + 1), p.nextIndex, now);
      }
    case Scrubbed(t, now) => ScrubKeepsRev(ms, p, t, now);
    case Closed => StepKeepsTimer(ms, p, e);
  }

  lemma {:induction false} RunKeepsRev(ms: seq<Msg>, players: seq<Player>, events: seq<Event>, n: nat)
    requires Baked(ms) && Playable(ms) && IsRun(ms, players, events) && n < |players|
    ensures RevOk(ms, players[n])
  {
    if n == 0 {
      var now :| players[0] == Start(ms, now);
    } else {
      RunKeepsRev(ms, players, events, n - 1);
      StepKeepsRev(ms, players[n - 1], events[n - 1]);
    }
  }

  /** For clips baked 1..N, in every reachable state the next frame's bumped Rev exceeds the
      state's: no lap, pause or scrub ever makes the reducer drop a frame as stale. */
  lemma NextFrameAccepted(ms: seq<Msg>, players: seq<Player>, events: seq<Event>, n: nat)
    requires Baked(ms) && Playable(ms) && IsRun(ms, players, events) && n < |players|
    ensures var p := players[n];
            1 <= p.nextIndex < |ms| ==>
              Bump(ms, p.nextIndex, p.lapsCompleted).FrameMsg?
              && p.state.rev < Bump(ms, p.nextIndex, p.lapsCompleted).frame.rev
  {
    RunKeepsRev(ms, players, events, n);
    var p := players[n];
    if 1 <= p.nextIndex < |ms| { ShowKeepsRev(ms, p, p.nextIndex); }
  }

  // ------------------------------------------------------------------ seek equals play

  /** The state of a player nobody touches, in lap k, with every message before i shown. */
  function Uninterrupted(ms: seq<Msg>, k: nat, i: nat): RaceState
    requires Playable(ms) && i <= |ms|
    decreases k, i
  {
    if k > 0 && i <= FirstFrame(ms) then Uninterrupted(ms, k - 1, |ms|)
    else if i == 0 then EmptyState()
    else ApplyMessage(Uninterrupted(ms, k, i - 1), Bump(ms, i - 1, k))
  }

  function Drivers(cars: seq<Car>): set<int> {
    set c | c in cars :: c.driverNum
  }

  /** The clips a loop can be told apart from by nothing but its counters: a clean starting
      snapshot, the same full roster in every frame, weather on the first frame, no radio on
      frames, and more than five seconds from first frame to last. */
  ghost predicate Steady(ms: seq<Msg>) {
    && Baked(ms)
    && ms[0].snap.messages == []
    && ms[0].snap.cars.Keys <= Drivers(ms[1].frame.cars)
    && ms[1].frame.weather.Some?
    && (forall i :: 1 <= i < |ms| ==> ms[i].frame.radio == [] && Drivers(ms[i].frame.cars) == Drivers(ms[1].frame.cars))
    && ms[|ms| - 1].frame.timeMs - ms[1].frame.timeMs > LOOP_REWIND_MS
  }

  lemma {:induction false} SpreadKeys(cars: map<int, Car>, updates: seq<Car>)
    ensures SpreadCars(cars, updates).Keys == cars.Keys + Drivers(updates)
    decreases updates
  {
    if updates != [] {
      SpreadKeys(cars[updates[0].driverNum := updates[0]], updates[1..]);
      assert updates == [updates[0]] + updates[1..];
    }
  }

  /** A full roster overwrites whatever was there. */
  lemma SpreadCovers(a: map<int, Car>, b: map<int, Car>, updates: seq<Car>)
    requires a.Keys <= Drivers(updates) && b.Keys <= Drivers(updates)
    ensures SpreadCars(a, updates) == SpreadCars(b, updates)
  {
    SpreadCarsIsFold(a, updates);
    SpreadCarsIsFold(b, updates);
    SpreadKeys(a, updates);
    SpreadKeys(b, updates);
    forall d | d in Drivers(updates) ensures FoldCars(a, updates)[d] == FoldCars(b, updates)[d] {
      FoldCarsMeaning(a, updates, d);
      FoldCarsMeaning(b, updates, d);
    }
  }

  /** What stays put as a steady clip plays. */
  ghost predicate SteadyState(ms: seq<Msg>, k: nat, i: nat, s: RaceState)
    requires Steady(ms) && 1 <= i <= |ms|
  {
    && s.rev == LapRev(ms, k, i)
    && s.header == ms[0].snap.header && s.radio == ms[0].snap.radio
    && s.cars.Keys <= Drivers(ms[1].frame.cars)
    && (i > 1 ==> s.timeMs == ms[i - 1].frame.timeMs)
    && (i == 1 && k > 0 ==> s.timeMs == ms[|ms| - 1].frame.timeMs)
  }

  lemma {:induction false} UninterruptedSteady(ms: seq<Msg>, k: nat, i: nat)
    requires Steady(ms) && Playable(ms) && 1 <= i <= |ms|
    ensures SteadyState(ms, k, i, Uninterrupted(ms, k, i))
    decreases k, i
  {
    BakedFacts(ms);
    if k > 0 && i == 1 {
      UninterruptedSteady(ms, k - 1, |ms|);
      assert k * (|ms| - 1) == (k - 1) * (|ms| - 1) + (|ms| - 1);
    } else if i == 1 {
      assert Uninterrupted(ms, 0, 0) == EmptyState();
    } else {
      UninterruptedSteady(ms, k, i - 1);
      BumpRev(ms, i - 1, k);
      SpreadKeys(Uninterrupted(ms, k, i - 1).cars, ms[i - 1].frame.cars);
    }
  }

  lemma {:induction false} FirstLap(ms: seq<Msg>, i: nat)
    requires Playable(ms) && i <= |ms|
    ensures Replayed(ms, i, 0) == Uninterrupted(ms, 0, i)
  {
    if i > 0 { FirstLap(ms, i - 1); }
  }

  /** Crossing the loop: the first frame of lap k shows the same board over the end of lap
      k - 1 as over the clip's own snapshot. */
  lemma LoopCrossing(ms: seq<Msg>, k: nat)
    requires Steady(ms) && Playable(ms) && k > 0
    ensures Shared(Replayed(ms, 2, k)) == Shared(Uninterrupted(ms, k, 2))
  {
    BakedFacts(ms);
    var end := Uninterrupted(ms, k, 1);
    UninterruptedSteady(ms, k, 1);
    var base := ApplyMessage(EmptyState(), ms[0]);
    assert Replayed(ms, 0, k) == EmptyState() && Replayed(ms, 1, k) == base;
    BumpRev(ms, 1, k);
    var f := Bump(ms, 1, k).frame;
    SpreadCovers(end.cars, base.cars, f.cars);
    assert k * (|ms| - 1) > 0 by {
      assert (k - 1) * (|ms| - 1) >= 0;
      assert k * (|ms| - 1) == (k - 1) * (|ms| - 1) + (|ms| - 1);
    }
    assert Looped(end, f) && !Looped(base, f);
  }

  /** Once past the first frame of the lap, equal boards stay equal. */
  lemma MidLap(ms: seq<Msg>, k: nat, i: nat)
    requires Steady(ms) && Playable(ms) && 2 < i <= |ms|
    requires Shared(Replayed(ms, i - 1, k)) == Shared(Uninterrupted(ms, k, i - 1))
    ensures Shared(Replayed(ms, i, k)) == Shared(Uninterrupted(ms, k, i))
  {
    BakedFacts(ms);
  }

  /** Seek equals play: replaying from nothing up to message i, as a scrub in lap k does,
      shows the same board (cars, clock, Rev, messages, radio, weather, header) as
      uninterrupted play that has reached that message in that lap. */
  lemma {:induction false} SeekEqualsPlay(ms: seq<Msg>, k: nat, i: nat)
    requires Steady(ms) && Playable(ms) && 2 <= i <= |ms|
    ensures Shared(Replayed(ms, i, k)) == Shared(Uninterrupted(ms, k, i))
  {
    BakedFacts(ms);
    if k == 0 {
      FirstLap(ms, i);
    } else if i == 2 {
      LoopCrossing(ms, k);
    } else {
      SeekEqualsPlay(ms, k, i - 1);
      MidLap(ms, k, i);
    }
  }

  /** The board is the one uninterrupted play shows at this lap and index. */
  ghost predicate BoardOk(ms: seq<Msg>, p: Player)
    requires Playable(ms)
  {
    p.nextIndex <= |ms| && Shared(p.state) == Shared(Uninterrupted(ms, p.lapsCompleted, p.nextIndex))
  }

  lemma PlayKeepsBoard(ms: seq<Msg>, p: Player, i: nat, now: int)
    requires Steady(ms) && Playable(ms) && i <= |ms|
    requires p.closed || p.paused ==> p.nextIndex == i
    requires Shared(p.state) == Shared(Uninterrupted(ms, p.lapsCompleted, i))
    ensures BoardOk(ms, Play(ms, p, i, now))
  {
    BakedFacts(ms);
  }

  lemma {:induction false} FireKeepsBoard(ms: seq<Msg>, p: Player, id: nat, now: int)
    requires Steady(ms) && Playable(ms) && RevOk(ms, p) && BoardOk(ms, p) && id in p.pending
    ensures BoardOk(ms, Fire(ms, p, id, now))
  {
    BakedFacts(ms);
    var fired := p.(pending := p.pending - {id});
    if p.pending[id].action.Show? {
      PlayKeepsBoard(ms, ShowFrame(ms, fired, p.nextIndex), p.nextIndex + 1, now);
    } else {
      PlayKeepsBoard(ms, fired, p.nextIndex, now);
    }
  }

  lemma {:induction false} ScrubKeepsBoard(ms: seq<Msg>, p: Player, t: int, now: int)
    requires Steady(ms) && Playable(ms)
    ensures BoardOk(ms, Scrub(ms, p, t, now))
  {
    BakedFacts(ms);
    var end := ScrubTarget(ms, t, FirstFrame(ms));
    SeekEqualsPlay(ms, p.lapsCompleted, end + 1);
    PlayKeepsBoard(ms, Jump(ms, p, end, now), end + 1, now);
  }

  lemma {:induction false} StepKeepsBoard(ms: seq<Msg>, p: Player, e: Event)
    requires Steady(ms) && Playable(ms) && RevOk(ms, p) && BoardOk(ms, p) && Enabled(p, e)
    ensures BoardOk(ms, Next(ms, p, e))
  {
    match e
    case Fired(id, now) => FireKeepsBoard(ms, p, id, now);
    case Paused =>
    case Resumed(now) =>
      if p.paused {
        var playing := p.(paused := false, loopStart := now - p.lastOffset, epoch := p.epoch + 1);
        PlayKeepsBoard(ms, playing, p.nextIndex, now);
      }
    case Scrubbed(t, now) => ScrubKeepsBoard(ms, p, t, now);
    case Closed =>
  }

  /** Over whole runs, with any pauses, resumes and scrubs in any lap, the board is at every
      moment the one an untouched player shows at the same lap and index. */
  lemma {:induction false} ControlsAreInvisible(ms: seq<Msg>, players: seq<Player>, events: seq<Event>, n: nat)
    requires Steady(ms) && Playable(ms) && IsRun(ms, players, events) && n < |players|
    ensures BoardOk(ms, players[n])
  {
    if n == 0 {
      var now :| players[0] == Start(ms, now);
      assert Uninterrupted(ms, 0, 0) == EmptyState();
    } else {
      ControlsAreInvisible(ms, players, events, n - 1);
      RunKeepsRev(ms, players, events, n - 1);
      StepKeepsBoard(ms, players[n - 1], events[n - 1]);
    }
  }

  /** A scrub lands on the first frame at or after `ms` (or the last one), showing what
      uninterrupted play shows there in the current lap. */
  lemma ScrubLands(clip: seq<Msg>, p: Player, ms: int, now: int)
    requires Steady(clip) && Playable(clip)
    ensures var end := ScrubTarget(clip, ms, FirstFrame(clip));
            && Shared(Scrub(clip, p, ms, now).state) == Shared(Uninterrupted(clip, p.lapsCompleted, end + 1))
            && (Offset(clip, end) >= ms || end == |clip| - 1)
            && forall j :: FirstFrame(clip) <= j < end ==> Offset(clip, j) < ms
  {
    BakedFacts(clip);
    SeekEqualsPlay(clip, p.lapsCompleted, ScrubTarget(clip, ms, FirstFrame(clip)) + 1);
  }

  // ------------------------------------------------------------------ the object

  /** The closure's variables, with the event loop's timers. */
  class Playback {
    const messages: seq<Msg>
    const offsets: seq<int>
    const loopRestartIndex: nat
    const maxRev: int
    var state: RaceState
    var closed: bool
    var live: bool
    var paused: bool
    var pending: map<nat, Timer>
    var timer: Option<nat>
    var nextId: nat
    var nextIndex: nat
    var lastOffset: int
    var loopStart: int
    var lapsCompleted: nat
    ghost var sched: seq<Scheduled>
    ghost var epoch: nat

    ghost predicate Valid() {
      && Playable(messages)
      && |offsets| == |messages| && (forall i :: 0 <= i < |offsets| ==> offsets[i] == Offset(messages, i))
      && loopRestartIndex == FirstFrame(messages)
      && maxRev == MaxRev(messages)
    }

    ghost function View(): Player
      reads this
    {
      Player(state, closed, live, paused, pending, timer, nextId, nextIndex, lastOffset, loopStart,
             lapsCompleted, sched, epoch)
    }

    /** The clip has loaded: measure it and play from the top. */
    constructor (messages: seq<Msg>, now: int)
      requires Playable(messages)
      ensures this.messages == messages && Valid() && View() == Start(messages, now)
    {
      this.messages := messages;
      loopRestartIndex := FirstFrame(messages);
      offsets := seq(|messages|, i requires 0 <= i < |messages| => Offset(messages, i));
      maxRev := MaxRev(messages);
      state, closed, live, paused := EmptyState(), false, false, false;
      pending, timer, nextId := map[], None, 1;
      nextIndex, lastOffset, loopStart, lapsCompleted := 0, 0, now, 0;
      sched, epoch := [], 0;
      new;
      PlayNext(0, now);
    }

    method SetTimeout(at: int, action: Action)
      modifies this
      ensures View() == Arm(old(View()), at, action)
    {
      pending := pending[nextId := Timer(at, action)];
      timer := Some(nextId);
      nextId := nextId + 1;
    }

    method ClearTimeout()
      modifies this
      ensures View() == ClearTimer(old(View()))
    {
      if timer.Some? {
        pending := pending - {timer.value};
      }
    }

    function Bumped(i: nat): (m: Msg)
      requires Valid() && i < |messages|
      reads this
      ensures m == Bump(messages, i, lapsCompleted)
    {
      if messages[i].FrameMsg? && lapsCompleted > 0
      then FrameMsg(messages[i].frame.(rev := messages[i].frame.rev + lapsCompleted * maxRev))
      else messages[i]
    }

    method PlayNext(i: nat, now: int)
      requires Valid()
      modifies this
      ensures View() == Play(messages, old(View()), i, now)
    {
      if closed || paused { return; }
      if i >= |messages| {
        lapsCompleted := lapsCompleted + 1;
        loopStart := now;
        nextIndex := loopRestartIndex;
        epoch := epoch + 1;
        SetTimeout(now, PlayFrom(loopRestartIndex));
        assert View() == Play(messages, old(View()), i, now);
        return;
      }
      if now - loopStart > offsets[i] {
        loopStart := now - offsets[i];
      }
      var wait := offsets[i] - (now - loopStart);
      if wait < 0 { wait := 0; }
      nextIndex := i;
      sched := sched + [Scheduled(i, now + wait, epoch)];
      SetTimeout(now + wait, Show(i));
    }

    /** The event loop runs an armed timer's callback. */
    method RunTimer(id: nat, now: int)
      requires Valid() && id in pending
      modifies this
      ensures View() == Fire(messages, old(View()), id, now)
    {
      var action := pending[id].action;
      pending := pending - {id};
      match action {
        case PlayFrom(i) =>
          PlayNext(i, now);
        case Show(i) =>
          if i < |messages| {
            state := ApplyMessage(state, Bumped(i));
            lastOffset := offsets[i];
            live := true;
            PlayNext(i + 1, now);
          }
      }
    }

    method DoPause()
      modifies this
      ensures View() == Pause(old(View()))
    {
      if paused { return; }
      paused := true;
      epoch := epoch + 1;
      ClearTimeout();
    }

    method DoResume(now: int)
      requires Valid()
      modifies this
      ensures View() == Resume(messages, old(View()), now)
    {
      if !paused { return; }
      paused := false;
      loopStart := now - lastOffset;
      epoch := epoch + 1;
      PlayNext(nextIndex, now);
    }

    method FindTarget(ms: int) returns (end: nat)
      requires Valid()
      ensures end < |messages| && end == ScrubTarget(messages, ms, FirstFrame(messages))
    {
      end := loopRestartIndex;
      while end < |messages| - 1 && offsets[end] < ms
        invariant loopRestartIndex <= end < |messages|
        invariant ScrubTarget(messages, ms, end) == ScrubTarget(messages, ms, loopRestartIndex)
      {
        end := end + 1;
      }
    }

    method Rebuild(end: nat) returns (replayed: RaceState)
      requires Valid() && end < |messages|
      ensures replayed == Replayed(messages, end + 1, lapsCompleted)
    {
      replayed := EmptyState();
      for j := 0 to end + 1
        invariant replayed == Replayed(messages, j, lapsCompleted)
      {
        replayed := ApplyMessage(replayed, Bumped(j));
      }
    }

    method DoScrub(ms: int, now: int)
      requires Valid()
      modifies this
      ensures View() == Scrub(messages, old(View()), ms, now)
    {
      ClearTimeout();
      var end := FindTarget(ms);
      state := Rebuild(end);
      lastOffset := offsets[end];
      nextIndex := end + 1;
      loopStart := now - lastOffset;
      epoch := epoch + 1;
      ghost var q := Jump(messages, old(View()), end, now);
      assert View() == q;
      if !paused { PlayNext(nextIndex, now); }
      assert View() == if q.paused then q else Play(messages, q, end + 1, now);
    }

    method DoClose()
      modifies this
      ensures View() == Close(old(View()))
    {
      closed := true;
      ClearTimeout();
    }
  }
}
