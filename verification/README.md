# Verified model of the race board's real-time pipeline

This project models how a frame of race data travels from a writer to every browser, and
proves what that journey keeps. A *writer* owns a session's revision counter (Rev), folds each
frame into a snapshot, stores the snapshot and then publishes the frame. A *gateway*
subscribes, reads the stored snapshot, seeds a *hub* with it and consumes frames; the hub fans
them out into bounded client queues; each *browser* folds them with its own reducer. Around
this core stand the playback schedulers, the live radio path, the gap estimator and a few
self-contained state machines.

| file | what it models |
|---|---|
| `Model.dfy` | the wire model, the snapshot reducer `Apply` and the laws of folding a run of frames |
| `Reducer.dfy` | the browser's reducer, and exactly when it agrees with the server's |
| `Lane.dfy` | one session's writers, store and channel, with crashes and failed publishes |
| `ClipWriter.dfy` | the Python writer of the same seam, against what a subscriber folds |
| `Seam.dfy`, `SeamSteps.dfy` | lanes and a gateway interleaved step by step: subscribe before snapshot, generations, registry hubs; what each step moves and where each operation lands |
| `Hub.dfy`, `HubClients.dfy` | fan-out into client queues of 64, and who is in the broadcast set and what becomes of each client |
| `EndToEnd.dfy` | lanes, gateway, all its hubs and their clients in one run, from the writer's snapshot to a browser's board |
| `ClipJourney.dfy` | a radio clip's whole way, from the feed's messages to the list and arrivals of a browser's page |
| `Roles.dfy` | the bus, writer and gateway as objects, proved to take the protocol's steps |
| `StaticReplay.dfy`, `StaticPacing.dfy` | the paced, looping player with pause, resume and scrub, and the exact instants it shows frames at |
| `WallclockReplay.dfy` | wall-clock-phased lanes |
| `LiveRadio.dfy`, `RadioEntries.dfy` | radio refs from feed messages to published frames, with the exceptions that end a message, and what the entries say |
| `RadioDelivery.dfy`, `LiveDelivery.dfy`, `RadioRefs.dfy` | what a whole stream delivers, replayed and live, and that each ref says what its entry says |
| `Comms.dfy` | radio refs from the timeline to fired clips |
| `RunningOrder.dfy`, `Sorting.dfy` | one running order on server and browser, over stable sorting |
| `Centreline.dfy` | the reference lap resampled to evenly spaced nodes, and positions projected onto it |
| `RaceDistance.dfy`, `Gaps.dfy` | phase unwrapping, race-distance curves, their inversion and the gap pass |
| `Recording.dfy` | both together: gaps quoted from raw arc lengths, and from true ones |
| `RaceSocket.dfy` | the reconnecting socket and its attempt budget |
| `LatencyHistogram.dfy` | the fixed-bucket histogram against the samples it stands for |
| `Routing.dfy` | the hash parser and printer |

State that the program updates in place is modelled twice: as a value with one specification
function per step, over which invariants and whole runs are proved, and as a class whose methods
are proved to move their fields exactly as those functions say. A run is a sequence of states
and a sequence of steps; a theorem about `states[i]` holds in every reachable state of every
interleaving. Goroutines, timers and sockets are steps that may happen whenever they are enabled.

## What the proofs found

Some promises hold only under a condition. The condition is proved to be exact, and a concrete
input on which the promise fails is given where there is one.

- The two reducers differ when an accepted frame steps the clock back by 1 to 5000 ms while
  messages are held: the server empties the buffer, the browser keeps it
  (`Reducer.RunAgreement`, with a concrete case in `Reducer.SmallRewindDiverges`).
- The Python writer never empties its message buffer. Over a first pass its stored snapshot is
  what subscribers fold; when the clip starts over it stays so exactly when no message is held by
  then or the first line alone refills the buffer (`ClipWriter.SecondPass`). Otherwise a client
  that joins from the stored snapshot shows messages that every other client dropped
  (`ClipWriter.MessageOutlivesTheClip`).
- A writer that restarts over a stored snapshot that does not parse begins at Rev 0, so it is
  above what was published exactly when nothing was (`ClipWriter.RestartIsAbove`). The Go writer
  stops instead.
- The encoder's refusal of a zero-value frame could only lose an applied frame over a negative
  Rev, which no run reaches (`HubFanout.AppliedIsBroadcast`).
- A wall-clock lane starts at the first slot due, except for clips of less than one millisecond
  a frame, where a start exactly on a loop boundary skips tied slots
  (`WallclockReplay.PlayerStartsAtFirstDue`).
- A malformed radio entry leaves no trace exactly when a field is missing or the number or time
  is unreadable in a way the code catches (`LiveRadio.NoTraceIff`). A path that is not text raises
  past the handler (`ingest/radio.py:100`), and so do a number that is infinite and a time that no
  calendar holds. The replay then ends; the live connection goes on, but the clips of that message
  found before the entry count as emitted and no frame ever carries them, re-sent or not
  (`LiveRadio.LostForGood`, with a concrete case in `LiveRadio.OneBadPathLosesAClip`). So the seen
  set is the clips published plus those pending exactly when nothing was lost
  (`LiveRadio.SeenIsPublishedPlusPending`), and for given messages it is so in every order and
  batching exactly when no entry escapes or no good one stands before the first that does
  (`RadioDelivery.AlwaysAccountedIff`). Messages parked behind a bad one while the path is unknown
  are never read (`LiveDelivery.ParkedBehindABadOne`). What the live connection delivers is exactly
  the clips whose first marking is in a message, or a parked run of them, in which nothing escapes
  (`LiveDelivery.LiveDelivers`).
- Where nothing escapes, late session info loses nothing exactly when it arrives at all, or when
  no entry is good (`RadioDelivery.OrderDoesNotMatter`). Where something does, the delivery depends
  on the order exactly when a good entry comes in a message before the first that raises
  (`RadioDelivery.OrderNeverShowsIff`).
- The trailing radio frame is not re-stamped with raw feed positions, so it can carry an earlier
  rank (`RunningOrder.TrailingCanKeepEarlierRank`). It is right exactly when the ranks left on the
  board compare as the raw positions do (`RunningOrder.TrailingFreshIff`), which a run guarantees
  right after a frame and once every car was sampled again with its current position. Nor does it
  write cars into the snapshot: what is stored is what subscribers fold exactly when every car
  sampled since the last frame is stored already as the board has it, with one more than the
  number of cars ahead of it for its position (`RunningOrder.TrailingStoredIff`), so certainly
  when none was sampled.
- A pause does not keep what was left to wait: a resume waits for the whole gap after the frame
  last shown, so it waits what was left exactly when none of the gap had passed before the pause
  (`StaticPacing.PauseKeepsWaitIff`, with a concrete case in `StaticPacing.PauseWaitsAgain`).
- Phase unwrapping counts a lap correctly exactly when the true step is less than half a lap;
  a step of exactly half a lap is followed only where the code's strict comparisons agree with it
  (`RaceDistance.CrossingIsExact`).
- A leader that stands still is dated to when it stopped: its gap to itself is the rounded time
  it has stood, and it is quoted exactly from more than half a millisecond on
  (`Gaps.LeaderGapStopped`).
- Closing a connection does not cancel a retry that is waiting, so one more dial follows exactly
  when one waited and its timer fires (`RaceSocket.ClosedDialsWhatWaited`).
- The table of retired route names is an object literal, so the hashes `#constructor` and
  `#__proto__` do not fall back to the board: re-printing such a hash is not stable, and these are
  the only ones for which it is not (`Routing.CanonicalFormIsStable`; the printed text of the
  inherited value is modelled as V8 prints it).
- The comment above `buildHash` promises the shortest hash that reads back. Among links that begin
  with `#` and are ASCII, as a serialised fragment is, the printed one is a shortest exactly when
  it is not a board link with a query: there the name could have been left out
  (`Routing.ShortestIff`).

## Model

| member | source | states |
|---|---|---|
| Model.Snapshot.Apply | internal/model/apply.go:11-45 | updating the fields one at a time gives the Rev-gated fold of the frame, and reports acceptance exactly for a larger Rev |
| Model.FoldAppend | internal/model/apply.go:11-45 | folding two runs one after the other is folding their concatenation |
| Model.FoldRev | internal/model/apply.go:11-14 | the Rev after a run is the highest seen, and session-constant fields never move |
| Model.FoldIdempotent | internal/model/apply.go:11-14 | redelivering frames already folded, in any order and number, changes nothing |
| Model.FoldOverlap | internal/model/apply.go:11-14 | a snapshot taken part-way, folded with frames that start before it, lands where the whole run lands |
| Model.FoldNewer | internal/model/apply.go:11-14 | over a run of rising Revs exactly the frames above the snapshot's Rev are folded in |
| Model.FoldMeaning | internal/model/apply.go:15-45 | over accepted frames radio only accumulates and each driver's entry is the last one carried for it |
| Model.FoldCarsMeaning | internal/model/apply.go:15-20 | a driver's car is the last update for it, or the old one where there is none |
| Model.MessageWindow | internal/model/apply.go:21-35 | over one pass the rolling buffer is the last 30 of everything carried |
| Model.FirstFrameIsAll | internal/model/model.go:167-169 | an empty snapshot takes over whatever its first frame with a Rev carries, and nothing else |
| Model.FoldWeather | internal/model/apply.go:39-41 | over accepted frames the weather is the last one carried |
| Reducer.StepAgreement | web/src/state/race.ts:174-200 | one frame: browser and server stay equal on every shared field if and only if the frame meets a stated test |
| Reducer.RunAgreement | web/src/state/race.ts:174-200 | whole runs: equal after every frame if and only if every frame meets that test where it arrives |
| Reducer.NoSmallRewindAgrees | web/src/state/race.ts:29-31 | runs whose accepted frames never step back by 1 to 5000 ms are read identically, from a snapshot with a Rev or with no messages |
| Reducer.SmallRewindDiverges | web/src/state/race.ts:174-200 | a concrete frame 100 ms early on which the two reducers differ |
| Reducer.SeenFramesAreInert | web/src/state/race.ts:174-176 | applying any frame of a run again changes nothing on either side |
| Reducer.CountersCount | web/src/state/race.ts:158-201 | the two counters of the page count the snapshots read and the wraps of the clip, each exactly once |
| HubFanout.AppliedIsBroadcast | internal/ws/frame.go:26-38 | in every run, each frame that moves the hub's snapshot is sent to every client: the encoder's refusal never costs one |
| HubFanout.StepKeepsInv | internal/ws/hub.go:28-104 | every hub step keeps queues within 64 and every client without a failed send in step with the hub |
| HubFanout.ClientsConverge | internal/ws/hub.go:28-104 | in every reachable state, delivered plus queued messages of a client with no failed send fold to the hub's snapshot |
| HubFanout.BrowsersConverge | web/src/state/race.ts:158-201 | behind every such client with an empty queue, the browser's reducer shows the hub's snapshot, where both reducers agree on the applied frames |
| HubFanout.NoBrowserRejectsAFrame | web/src/state/race.ts:174-176 | no frame ever sent to a client without a failed send is stale to its browser, across resets, switches and restarts |
| HubFanout.CloseAllIsARun | internal/ws/hub.go:61-65 | closing any set of overflowed clients after the lock is a run of single closes of the fan-out |
| HubFanout.ApplyIsARun | internal/ws/hub.go:28-44 | what the hub object does for one frame, however many clients overflow, is a broadcast step followed by closes |
| HubFanout.ResetIsARun | internal/ws/hub.go:92-104 | and so it is for a reset to a snapshot with a Rev |
| HubFanout.Client.TrySend | internal/ws/client.go:42-49 | queues the message, or reports a full queue of 64 and changes nothing in it |
| HubFanout.Client.Close | internal/ws/client.go:51-61 | closes once and keeps what is queued and delivered |
| HubFanout.Client.WriteOne | internal/ws/client.go:63-83 | one turn of the write loop delivers the oldest message, or loses it and closes the client |
| HubFanout.Hub.BroadcastLocked | internal/ws/hub.go:51-59 | every client gets the message or is returned as stale, exactly the ones whose queue was full |
| HubFanout.Hub.CloseAll | internal/ws/hub.go:61-65 | closes exactly the given clients |
| HubFanout.Hub.ApplyFrame | internal/ws/hub.go:28-44 | folds and broadcasts in one step, closes the unreachable afterwards, and reports true only for an applied and encodable frame |
| HubFanout.Hub.Register | internal/ws/hub.go:70-80 | the snapshot becomes the client's first message in the same critical section that adds it to the broadcast set |
| HubFanout.Hub.Unregister | internal/ws/hub.go:82-86 | the broadcast set is what it was without that client, and no other client's view changes |
| HubFanout.Hub.Reset | internal/ws/hub.go:92-104 | swaps the snapshot whatever its Rev and sends it to every client |
| HubClients.StepMembers | internal/ws/hub.go:70-86 | a step changes the broadcast set by the client it registers or unregisters and by no other |
| HubClients.StepFields | internal/ws/client.go:42-83 | what every step leaves queued, delivered, closed and failed for a client that stays: the steps that name it, and the full queue of 64 |
| HubClients.InBroadcastIff | internal/ws/hub.go:70-86 | over runs a client is in the broadcast set if and only if it registered and has not unregistered since |
| HubClients.FateIff | internal/ws/hub.go:51-65 | over runs a client is closed, or has failed, if and only if a write to it was lost, it was closed, or a send met its full queue since it registered |
| HubClients.SnapshotIsFold | internal/ws/hub.go:28-104 | over runs the hub's snapshot is the fold of the frames handed to it over the snapshot last switched to, whatever its clients do |
| SessionLane.StepKeepsInv | internal/app/writer.go:54-76 | start, fold, SET, PUBLISH, either failure and a crash each keep the lane's invariant |
| SessionLane.RevSafety | internal/app/writer.go:45-74 | over any crashes and restarts the stored Rev never drops, covers every published Rev, and later frames are above all earlier ones |
| SessionLane.StoredBeforePublished | internal/bus/redis.go:26-42 | a frame is published only once the stored snapshot is at its Rev, above everything published before |
| SessionLane.WriterBegins | internal/app/writer.go:45-59 | every writer of a run began at the Rev stored when it started, with the baked fields and no cars |
| SessionLane.WriterShowsItsOwn | internal/app/writer.go:54-76 | in every reachable state a writer's board holds exactly the drivers its own frames carried, each as last carried |
| SessionLane.StepEffects | internal/bus/redis.go:26-42 | what each step adds to the store and the channel and where it leaves the writer |
| SessionLane.WriterIff | internal/app/writer.go:54-76 | a lane has a writer if and only if one started and has not crashed since, lossless if and only if none of its SETs and PUBLISHes failed |
| SessionLane.EverythingWasTaken | internal/app/writer.go:66-74 | nothing goes out but frames a writer took, with that writer's session and next Rev and otherwise as they came |
| ClipWriter.FoldMessagesMirrors | ingest/live.py:85-88 | the Python buffer is the server's unless nothing is added to an over-long one |
| ClipWriter.SameCars | ingest/live.py:118-130 | the snapshot's cars, renumbered in place by building the frame, are those a subscriber folds from it |
| ClipWriter.NextPassAlike | ingest/live.py:69-73 | a later pass over the renumbered clip stores and publishes the same |
| ClipWriter.StepMirrors | ingest/live.py:117-132 | one line: the stored snapshot is the fold of the published frame if and only if the clock does not step back over held messages |
| ClipWriter.RunMirrors | ingest/live.py:110-132 | whole runs: stored snapshot and subscribers agree after every line if and only if every line meets that test |
| ClipWriter.RevsRise | ingest/live.py:117-132 | published Revs are consecutive and start right above the Rev resumed from |
| ClipWriter.SentCarriesLines | ingest/live.py:117-132 | line by line what is published is the clip's own content under the writer's session, in running order and without radio |
| ClipWriter.FirstPassIsTrue | ingest/live.py:110-132 | over a pass whose clock never steps back they agree throughout |
| ClipWriter.SecondPass | ingest/live.py:110-132 | when the clip starts over they still agree if and only if no message is held or the first line refills the buffer |
| ClipWriter.MessageOutlivesTheClip | ingest/live.py:85-88 | a two-line clip after whose restart the stored snapshot shows messages that subscribers dropped |
| ClipWriter.RestartIsAbove | ingest/live.py:40-50 | a restart is above everything published if and only if the stored snapshot parses or nothing was published |
| ClipWriter.CorruptStoreRepeatsARev | ingest/live.py:40-50 | a lane whose stored snapshot does not parse, where the restarted writer publishes a Rev again |
| ClipWriter.Publisher.constructor | ingest/live.py:99-106 | starts above what GET finds, with no cars and no messages |
| ClipWriter.Publisher.PublishLine | ingest/live.py:117-132 | folds in place, stores the snapshot and publishes the frame with the next Rev |
| ClipWriter.Publisher.PublishClip | ingest/live.py:110-132 | looping the clip leaves what those steps make of the start, line by line |
| Seam.LaneStepKeepsInv | internal/app/gateway.go:110-186 | any writer step, heard by every live subscription, keeps the system's invariant |
| Seam.GwStepKeepsInv | internal/app/gateway.go:110-204 | any gateway step keeps the system's invariant |
| Seam.FeedCoversLog | internal/app/gateway.go:113-127 | consumed, held and queued frames above the snapshot read are exactly the published ones above it: none missing, none twice, in order |
| Seam.HubIsItsSession | internal/app/gateway.go:132-186 | in every reachable state the hub is the fold of a snapshot of the session it names over the newer frames its own consumer applied |
| Seam.RegistryHubIsItsSession | internal/app/gateway.go:190-204 | the same for every read-only registry hub |
| Seam.HubConvergesToWriter | internal/app/writer.go:54-76 | the toggle hub, or a read-only one, plus everything under way equals the writer's own snapshot, when it read from that writer and no publish failed |
| Seam.NewFramesAccepted | internal/app/gateway.go:155-186 | the current consumer's frame is above the hub's Rev exactly when it is above the snapshot read, and is then applied |
| Seam.RegistryAcceptsNewFrames | internal/app/gateway.go:155-186 | the same for a registry hub's consumer |
| Seam.OldConsumersMoveNothing | internal/app/gateway.go:168-186 | over any stretch of a run with no switch and no frame of the current consumer the hub stands still, whatever older generations' consumers still hold |
| Seam.CancelledAppliesNothing | internal/app/gateway.go:132-150 | over whole runs, a cancelled or returned consumer never applies another frame |
| SeamSteps.StepFields | internal/app/gateway.go:132-186 | only a commit moves the session and adds a consumer, and only a commit or the current consumer's frame moves the hub; which steps open and close an operation |
| SeamSteps.FeedFields | internal/app/gateway.go:155-186 | what each step leaves of every consumer: alive, cancelled, consumed, held, queued |
| SeamSteps.EveryoneHears | internal/bus/redis.go:60-66 | what a lane publishes reaches the queue of every live subscription to it and no other |
| SeamSteps.SwitchLands | internal/app/gateway.go:132-150 | a switch to another session can be made whenever none is under way, and lands on that session's stored snapshot with one new consumer whose subscription misses nothing, cancelling the one before |
| SeamSteps.RegistryLands | internal/app/gateway.go:190-204 | a read-only hub is founded the same way, once for each session, and moves nothing else |
| SeamSteps.ConsumeLands | internal/app/gateway.go:155-186 | the current consumer can always take its oldest frame while no switch is under way, and the hub then has it |
| SeamSteps.OldConsumerReturns | internal/app/gateway.go:168-186 | a consumer of an earlier generation drops the frame it took, leaves the hub alone and returns |
| EndToEnd.BrowserConvergesToWriter | web/src/realtime/socket.ts:99-123 | in every reachable state of lanes, gateway, all hubs and clients together: at the toggle hub and at every read-only one a drained client with no failed send shows the hub's snapshot, which folded with everything under way is the writer's own, and reading that on brings the browser there, where the reducers agree on the frames |
| EndToEnd.StepKeepsInv | internal/app/gateway.go:132-186 | every step of the whole keeps the system's and every hub's invariants, and one snapshot between gateway and fan-out for each hub that exists |
| EndToEnd.ConnectedIff | internal/ws/hub.go:70-86 | in every run of the whole a client is connected to a hub if and only if it registered there and has not left since, whatever lanes, gateway and other hubs did |
| EndToEnd.StepDelivers | internal/ws/client.go:63-83 | a client's messages arrive only by its own turns, oldest first |
| ClipJourney.BrowserRadio | web/src/state/race.ts:174-200 | the browser lists exactly the radio the server folds, whatever the clocks do |
| ClipJourney.HistoryThenArrivals | web/src/state/comms.ts:44-51 | what a page's list held at the last snapshot and what arrived since are its list now, each ref once and in order, however often it looked |
| ClipJourney.ListFollowsWriter | internal/ws/hub.go:28-44 | behind a client with no failed send the list begins what the live writer carried, and is all of it once nothing is under way |
| ClipJourney.EachClipOnce | ingest/live_signalr.py:726-755 | in every reachable state, from the feed's messages to any such browser: no clip is listed twice, every clip listed arrived once or was there at the last snapshot, and once nothing is under way the clips listed are exactly those whose first marking is in a message that does not raise |
| Roles.Bus.GetSnapshot | internal/bus/redis.go:45-58 | on any lane, the last snapshot stored and so nothing published is above its Rev; nothing exactly when none was ever stored |
| Roles.Bus.Publish | internal/bus/redis.go:26-42 | SET, then PUBLISH, stopping at the first failure; no other channel changes |
| Roles.Writer.Resume | internal/app/writer.go:45-59 | resumes above the stored Rev with the baked fields and no cars |
| Roles.Writer.TakeOne | internal/app/writer.go:62-74 | stamps, folds and publishes one frame exactly as the lane's steps do |
| Roles.Writer.Run | internal/app/writer.go:34-77 | over any source frames and any failures the bus ends where the lane's steps say |
| Roles.TurnsFold | internal/app/writer.go:62-74 | under any failures every frame of the loop takes the next Rev and the session and is folded |
| Roles.TurnsPublish | internal/app/writer.go:62-74 | and exactly those whose SET and PUBLISH succeed go out, in order |
| Roles.Gateway.constructor | internal/app/gateway.go:52-64 | a new gateway stands where subscribing, reading and committing put the protocol |
| Roles.Gateway.ResetHub | internal/ws/hub.go:92-104 | resets the toggle hub and its clients; the registry does not move |
| Roles.Gateway.SwitchTo | internal/app/gateway.go:132-150 | a failed or same-session switch changes nothing; otherwise hub, clients, session and generation move together |
| Roles.Gateway.ConsumeOne | internal/app/gateway.go:168-186 | applies the frame and broadcasts it to the hub's clients only for the current generation, otherwise stops and leaves hub and clients alone |
| Roles.Gateway.GetOrCreateHub | internal/app/gateway.go:190-204 | returns the existing hub, or none on failure, or registers a fresh one |
| Roles.Gateway.ConsumeRegistry | internal/app/gateway.go:155-186 | a registry consumer applies and broadcasts every frame to its own hub and that hub's clients, and touches no other |
| StaticReplay.OneTimer | web/src/realtime/staticReplay.ts:121-195 | in every reachable state exactly one timer is armed, and none while paused or closed |
| StaticReplay.NoBurst | web/src/realtime/staticReplay.ts:144-155 | between control actions within one lap, scheduled instants are at least as far apart as their frames |
| StaticReplay.NextFrameAccepted | web/src/realtime/staticReplay.ts:99-117 | for clips baked 1..N the next frame's bumped Rev is above the state's, in every reachable state |
| StaticReplay.SeekEqualsPlay | web/src/realtime/staticReplay.ts:181-195 | replaying from nothing in lap k shows the same board as uninterrupted play at that message of that lap |
| StaticReplay.ControlsAreInvisible | web/src/realtime/staticReplay.ts:159-196 | over whole runs of pauses, resumes and scrubs the board is the untouched player's at the same lap and index |
| StaticReplay.ScrubLands | web/src/realtime/staticReplay.ts:181-195 | a scrub lands on the first frame at or after the target, or the last, showing what play shows there |
| StaticPacing.OffsetIsReached | web/src/realtime/staticReplay.ts:148-194 | in every reachable state the offset kept is the clip time of the message last shown, by its timer or a scrub |
| StaticPacing.NextTimerIsExact | web/src/realtime/staticReplay.ts:121-155 | after a frame the next is due as much later than it was due as the clip has it, or at once when late; a lap that ends starts over at once |
| StaticPacing.ResumeIsExact | web/src/realtime/staticReplay.ts:165-173 | a resume arms the next frame after exactly the clip time between the frame last shown and it, never less than none |
| StaticPacing.ScrubIsExact | web/src/realtime/staticReplay.ts:181-195 | so does a scrub while playing, from the frame it lands on |
| StaticPacing.PauseKeepsWaitIff | web/src/realtime/staticReplay.ts:160-173 | a pause and a resume leave to wait what was left if and only if none of the gap had passed |
| StaticPacing.PauseWaitsAgain | web/src/realtime/staticReplay.ts:165-173 | a pause 60 ms into a gap of 100 after which the whole 100 is waited again |
| StaticReplay.Playback.constructor | web/src/realtime/staticReplay.ts:83-119 | the closure's variables once the clip has loaded |
| StaticReplay.Playback.PlayNext | web/src/realtime/staticReplay.ts:121-155 | schedules the next frame, re-anchoring after a stall, or starts the next lap |
| StaticReplay.Playback.RunTimer | web/src/realtime/staticReplay.ts:148-154 | shows the frame and schedules the one after it |
| StaticReplay.Playback.DoPause | web/src/realtime/staticReplay.ts:160-164 | stops the clock and disarms the timer |
| StaticReplay.Playback.DoResume | web/src/realtime/staticReplay.ts:165-173 | re-anchors at the offset reached and schedules the next frame, by the step whose timing `StaticPacing.ResumeIsExact` states |
| StaticReplay.Playback.FindTarget | web/src/realtime/staticReplay.ts:183-184 | the first index from the loop start at or after the target, or the last |
| StaticReplay.Playback.Rebuild | web/src/realtime/staticReplay.ts:185-188 | replays the lap from the empty state |
| StaticReplay.Playback.DoScrub | web/src/realtime/staticReplay.ts:181-195 | jumps, rebuilds, re-anchors and goes on unless paused |
| StaticReplay.Playback.DoClose | web/src/realtime/staticReplay.ts:199-202 | closes and disarms the timer |
| WallclockReplay.Search | internal/feed/replay/play.go:235 | the least index whose offset is at or after the phase, or n |
| WallclockReplay.FrameAtWallclock | internal/feed/replay/play.go:232-241 | the index and due time of the start slot |
| WallclockReplay.LoopLength | internal/feed/replay/play.go:194-203 | the last offset and one average gap, rounded down, more; 1 for a clip that takes no time |
| WallclockReplay.EvenClipKeepsPace | internal/feed/replay/play.go:194-203 | a clip of evenly spaced frames goes on at its own pace from one loop into the next |
| WallclockReplay.StartsAtFirstDue | internal/feed/replay/play.go:232-241 | that slot is the first one due if and only if the period exceeds the last offset or the start is not on a loop boundary |
| WallclockReplay.PlayerStartsAtFirstDue | internal/feed/replay/play.go:194-203 | with the period the player computes, every start is right if and only if the clip lasts at least a millisecond a frame |
| WallclockReplay.CrowdedClipSkipsASlot | internal/feed/replay/play.go:232-241 | three frames within a millisecond and a start that skips a slot due at that instant |
| WallclockReplay.Walk | internal/feed/replay/play.go:204-226 | emits slot after slot, each frame when due or at once when late |
| WallclockReplay.PlayWallclock | internal/feed/replay/play.go:188-227 | a lane plays the slots from its start slot on, one after another, each its own frame, when due or at once when late and never before |
| WallclockReplay.LanesAlign | internal/feed/replay/play.go:186-187 | two lanes started at any instants walk the same slots from the later start on |
| WallclockReplay.LanesShowTheSame | internal/feed/replay/play.go:186-227 | what two lanes emit has the same index and due time, slot for slot, at one fixed distance |
| WallclockReplay.WalkAscends | internal/feed/replay/play.go:219-226 | a lane never repeats or goes back: slots strictly advance and due times never decrease |
| WallclockReplay.WalkCounts | internal/feed/replay/play.go:219-226 | the k-th frame of a walk is the k-th on from its start, counting round the clip |
| LiveRadio.SeenIsPublishedPlusPending | ingest/live_signalr.py:586-632 | at every step, replayed or live, the seen set is the clips published plus pending if and only if nothing was lost to an exception; each is carried once, and the snapshot's radio is what was published |
| RadioDelivery.AlwaysAccountedIff | ingest/live_signalr.py:586-632 | for given messages that account is right in every order and batching if and only if no entry escapes or no good one stands before the first that does |
| RadioDelivery.RaisedIff | ingest/radio.py:89-105 | a replay ends in an exception if and only if the path arrives and some entry escapes |
| RadioDelivery.StreamDelivers | ingest/live_signalr.py:571-643 | all frames together carry, in order and each clip once, what the messages give with the path known from the start; after an exception, a beginning of what comes before the message that raised |
| RadioDelivery.OrderDoesNotMatter | ingest/live_signalr.py:256-278 | where no entry escapes, the stream delivers as if session info had come first if and only if it arrives or no entry is good |
| RadioDelivery.PathNeverArrives | ingest/live_signalr.py:256-278 | one good clip that is not delivered because no path ever comes |
| RadioDelivery.OrderNeverShowsIff | ingest/live_signalr.py:256-278 | for given messages the delivery is the same in every order and batching if and only if no entry escapes or no good one comes in a message before the first that raises |
| LiveRadio.NoTraceIff | ingest/radio.py:89-105 | an entry leaves no trace, wherever it stands, if and only if it is one the loop skips: a field missing, or number or time unreadable in a way it catches |
| RadioDelivery.AlwaysDeliveredIff | ingest/radio.py:82-105 | malformed entries never cost another clip, in any order and batching, if and only if none escapes or none is good |
| RadioEntries.RefsIff | ingest/radio.py:87-106 | from a clean start some ref comes of the messages if and only if some good entry stands before the first that escapes |
| LiveDelivery.LiveIsReplay | ingest/live_signalr.py:696-841 | as long as nothing raises, the live connection is the replay, so all that is proved of the replay's delivery holds of it |
| LiveDelivery.LiveDelivers | ingest/live_signalr.py:696-841 | over any live stream each clip is carried at most once, and exactly the clips whose first marking is in a group of entries in which nothing escapes, the parked messages being one group; what was parked stays parked if an entry of it escapes |
| LiveDelivery.ParkedBehindABadOne | ingest/live_signalr.py:270-278 | a good message parked behind a bad one is neither carried nor marked, however often the path is sent again |
| LiveRadio.LostForGood | ingest/live_signalr.py:817-841 | on the live connection a clip lost to an exception is carried by no later frame, whatever is sent again |
| LiveRadio.OneBadPathLosesAClip | ingest/radio.py:98-104 | a good clip, then an entry whose path is not text: the clip is lost, and a clean re-send does not bring it back |
| RadioRefs.VerdictsAre | ingest/radio.py:89-104 | an entry gives a ref exactly when number, time and path are there and read, and the ref has that time, that number and that path's URL |
| RadioRefs.ClipUrlIs | ingest/radio.py:100 | the URL is the host, the session path without its outer slashes and the entry's path without its leading ones |
| RadioRefs.ClipAddress | ingest/live_signalr.py:281-285 | with the feed's own path the URL is below `/static` on the feed's host |
| RadioRefs.PatchIsReadByKey | ingest/live_signalr.py:237-253 | an index-keyed patch is read in the order of its keys, whatever order it comes in |
| RadioRefs.BatchIsInTimeOrder | ingest/radio.py:105 | each message's refs are in the order of their times |
| RadioRefs.RefsComeFromEntries | ingest/radio.py:75-106 | in every state of every stream each ref published, pending or lost has an entry of some message whose time, driver and path it says |
| RadioRefs.PublishedComeFromEntries | ingest/live_signalr.py:571-643 | so it is for every ref of every frame that goes out, replayed or live |
| RadioRefs.FramesGoOutWhenDue | ingest/live_signalr.py:726-755 | live, a frame goes out at exactly the due events once a car is known, with all that was pending |
| RadioRefs.WhatGoesOutLast | ingest/live_signalr.py:632-643 | a replay ends with an exception, and nothing goes out after it; otherwise what is pending at the end rides one more frame |
| LiveRadio.RadioIngest.LiveRadioRefs | ingest/radio.py:75-106 | the loop collects unseen refs in list order, grows the seen set in place and sorts by time, or raises with the seen set as far as it got; what each ref says is `RadioRefs.VerdictsAre` |
| LiveRadio.RadioIngest.FlushDeferred | ingest/live_signalr.py:270-278 | drains the parked messages once a path is known, and does nothing otherwise; an exception leaves them parked |
| LiveRadio.RadioIngest.HandleEvent | ingest/live_signalr.py:571-632 | one event of the loop, each branch as the code takes it, exceptions included |
| LiveRadio.RadioIngest.PublishFrame | ingest/live_signalr.py:626-632 | a frame carries exactly the pending refs and empties them |
| LiveRadio.RadioIngest.ReplayCapture | ingest/live_signalr.py:571-643 | the whole loop and the flush at stream end, cut short by an exception |
| LiveRadio.RadioIngest.RunConnection | ingest/live_signalr.py:726-841 | the same events live: an exception is dropped with its message, and the flush always runs |
| Comms.PassFiresWindow | web/src/state/comms.ts:19-36 | over clocks that never step back, what fires is the stable time-sort of the messages in the window covered |
| Comms.CutIndependent | web/src/state/comms.ts:19-36 | the firing order does not depend on how the pass is cut into frames |
| Comms.ExactlyOncePerPass | web/src/state/comms.ts:19-36 | each clip of the window fires as often as it is listed, in time order, and no other fires |
| Comms.FiresPerCrossing | web/src/state/comms.ts:19-36 | however the clock moves a clip fires exactly once for each step forward over it: winding back fires nothing, and the next pass fires it again |
| Comms.HistoryThenFired | web/src/state/comms.ts:19-36 | a snapshot's history and what fires afterwards partition everything up to the clock reached |
| Comms.ArrivalsAreAppends | web/src/state/comms.ts:44-51 | on a timeline that only grows, every appended ref arrives once and in order, however batched |
| RunningOrder.SortSplits | ingest/resample.py:107-112 | the server's sort puts running cars first by key, then retired ones as they came |
| RunningOrder.ReconcileMeaning | ingest/resample.py:64-115 | the same cars, numbered 1..N without gap or repeat, running ones by raw key, retired ones in original order |
| RunningOrder.RankIsCount | ingest/resample.py:107-115 | each car's number is one more than the number of cars ahead of it: for a running car the running ones below it by raw key, for a retired one all running cars and the retired ones listed earlier |
| RunningOrder.TiesAreBroken | ingest/resample.py:107-112 | of two running cars the one ahead has the lower raw position, on a tie more laps, on a tie again the lower number |
| RunningOrder.ReconciledRetiredLast | ingest/resample.py:107-112 | no retired car is ahead of a running one |
| RunningOrder.ReconcileIdempotent | ingest/resample.py:64-115 | reconciling twice is reconciling once |
| RunningOrder.ReconcileInPlace | ingest/resample.py:112-115 | sorting and renumbering where the list stands gives that reconciliation |
| RunningOrder.OrderCarsAgrees | web/src/components/timingHelpers.ts:172-178 | however the browser enumerates a reconciled frame's cars, its sort gives the server's order |
| RunningOrder.LeaderOf | web/src/components/timingHelpers.ts:196-202 | the single walk finds the first car of the sorted order |
| RunningOrder.PublishIsAfresh | ingest/live_signalr.py:386-391 | across any run, a published frame equals what it would be had no frame been published before |
| RunningOrder.FrameShowsTheFeed | ingest/live_signalr.py:337-391 | what a publish reconciles is every driver's last sample with the position the feed last gave it, 99 if none, and no other car |
| RunningOrder.BoardIsDistinct | ingest/live_signalr.py:337-370 | after any run the board holds one car per driver |
| RunningOrder.TrailingFreshIff | ingest/live_signalr.py:400-433 | after any run, the trailing frame shows the fresh order if and only if ranks left on the board compare as raw positions do |
| RunningOrder.TrailingFreshAfterPublish | ingest/live_signalr.py:400-433 | with nothing since the last frame it does |
| RunningOrder.TrailingFreshWhenSampled | ingest/live_signalr.py:400-433 | when every car on the board was sampled since the last frame and the feed's last change of its position, it does |
| RunningOrder.RawOnBoardIff | ingest/live_signalr.py:337-391 | a car carries its raw position if and only if it was sampled with no frame and no change of its position since |
| RunningOrder.TrailingStoredIff | ingest/live_signalr.py:421-433 | after a trailing frame the stored cars are those subscribers fold if and only if, on the board before it, every car sampled since the last frame is the one stored once its position is one more than the number of cars ahead of it |
| RunningOrder.TrailingStoredWhenNoneSampled | ingest/live_signalr.py:421-433 | they are when no car was sampled since the last frame |
| RunningOrder.TrailingCanMissTheStore | ingest/live_signalr.py:421-433 | a six-event run after which they are not |
| RunningOrder.TrailingCanKeepEarlierRank | ingest/live_signalr.py:400-433 | the same run's trailing frame keeps an earlier rank |
| Centreline.CumulativeArc | ingest/geometry.py:38-43 | the running sum is the arc length to every point |
| Centreline.EvenSpacing | ingest/geometry.py:53-54 | nodes are one n-th of the lap apart, the first at 0 and the last one step short of the lap |
| Centreline.AtArcUnique | ingest/geometry.py:67-77 | the lap has one point at each arc length, repeated points notwithstanding |
| Centreline.PlaceNodes | ingest/geometry.py:65-77 | one walk that never turns back puts a node at each of the ascending arc lengths |
| Centreline.ResampleClosedLoop | ingest/geometry.py:46-78 | node k lies on the closed lap at k n-ths of its length and node 0 is the first point; the errors are exactly the degenerate inputs |
| Centreline.FootIsNearest | ingest/geometry.py:92-101 | the clamped projection is the nearest point of the segment |
| Centreline.ProjectToArc | ingest/geometry.py:81-105 | an arc length within the lap, belonging to the nearest point of the two segments that meet at the nearest node, the first segment on a tie |
| Centreline.ArcOfNearestPoint | ingest/geometry.py:92-104 | the arc length counted is that of the segment's nearest point: the nodes before it, then the part of the segment, less whole laps |
| Centreline.LapPointProjectsToItself | ingest/geometry.py:81-105 | a point of the lap on a segment one step long is projected to its own arc length |
| RaceDistance.WrapCounts | ingest/geometry.py:108-128 | the loop's running count is the sum of the crossings so far |
| RaceDistance.CrossingIsExact | ingest/geometry.py:108-128 | the crossing counted is the true change of lap if and only if the true step can be followed |
| RaceDistance.LongStepsAreMiscounted | ingest/geometry.py:108-128 | two concrete steps that are not followed, one longer than half a lap and one of exactly half over the line |
| RaceDistance.UnwrapIsExact | ingest/geometry.py:108-128 | unwrapping reproduces the true displacement at every frame, jitter over the line included, if and only if every step can be followed |
| RaceDistance.FreezeInPit | ingest/record.py:761-776 | in the pit lane each entry is the one before it, off it the car's own: the arc length of the last frame on track |
| RaceDistance.HeldMeaning | ingest/record.py:768-775 | the frame held is the last one out of the pit lane, or the first of all, and every frame since is in it |
| RaceDistance.Accumulate | ingest/record.py:782 | each entry becomes the largest so far |
| RaceDistance.BuildCurve | ingest/record.py:761-782 | one car's curve from raw arc lengths: freeze, unwrap, scale, running maximum; it stands still in the pit lane |
| RaceDistance.CurveNeverDecreases | ingest/record.py:780-782 | whatever the samples, the curve never decreases |
| RaceDistance.PitStretchStandsStill | ingest/record.py:761-782 | over any stretch of pit frames frozen arc and finished curve are what they were at the frame the car came in on |
| RaceDistance.RawDistanceIsTrue | ingest/record.py:776-779 | where steps can be followed, the raw curve is the true race distance at the frame held |
| RaceDistance.ForwardCurveIsTrue | ingest/record.py:776-782 | for forward motion the finished curve is the true distance, frozen at pit entry |
| Gaps.BisectMeaning | ingest/geometry.py:131-148 | everything before the index is below the distance and everything from it on has reached it |
| Gaps.LineBack | ingest/geometry.py:131-148 | reading a rising segment from distance to time and back gives the distance again |
| Gaps.InversionIsLeast | ingest/geometry.py:131-148 | the inversion is the least instant, on any segment, at which the interpolated curve reaches the distance |
| Gaps.InversionMonotone | ingest/geometry.py:131-148 | farther takes no less time |
| Gaps.ReachedBy | ingest/geometry.py:131-148 | a distance up to the j-th sample was reached by the j-th instant |
| Gaps.InversionRoundTrip | ingest/geometry.py:131-148 | inverting at a sample gives its own instant if and only if the curve rose into it |
| Gaps.RoundMonotone | ingest/record.py:905 | Python's rounding, half to even, is monotone |
| Gaps.RoundMeaning | ingest/record.py:905 | it gives the one integer within a half, a half going to the even one |
| Gaps.LapDeficitMeaning | ingest/geometry.py:151-161 | k laps behind exactly from a tenth of a lap short of k laps on |
| Gaps.LapsQuotedIff | ingest/record.py:918-920 | a lap deficit is quoted if and only if the car is at least nine tenths of a lap behind, pit lane or not, and is k from a tenth of a lap short of k |
| Gaps.QuotePass | ingest/record.py:880-934 | the in-place pass writes for every car its gap, lap deficit and interval, with the fallback interval |
| Gaps.GapsOrdered | ingest/record.py:892-910 | gaps are not negative and a car no farther along has at least the other's gap |
| Gaps.UnquotedOnlyBeforeCurve | ingest/record.py:892-910 | a quotable car at or behind the leader is unquoted if and only if its distance lies before the leader's curve starts |
| Gaps.IntervalNotNegative | ingest/record.py:919-930 | both forms of the interval are not negative for a car no farther along than the one ahead |
| Gaps.FallbackIsLeadersTime | ingest/record.py:925-930 | where the car ahead was never seen at a car's distance there is an interval if and only if both have gaps; it completes the one gap to the other and is within a millisecond of the time the leader took between the two places |
| Gaps.LeaderGapMoving | ingest/record.py:906-910 | a leader whose curve rose into the frame has gap zero to itself |
| Gaps.LeaderGapStopped | ingest/record.py:906-910 | a leader's gap to itself is exactly the rounded time since the curve first stood where it is, quoted if and only if that is more than half a millisecond |
| Gaps.QuotesAreSound | ingest/record.py:906-930 | everything quoted is positive and quoted gaps are ordered by distance |
| Gaps.QuotedOnTrack | ingest/record.py:911-930 | gap and interval are quoted only on track and once both ends have a completed lap |
| Recording.BuildCurves | ingest/record.py:752-782 | every car's finished curve from its raw arc lengths |
| Recording.QuoteFrame | ingest/record.py:880-934 | one frame's gaps and intervals from the samples: what the pass quotes off the built curves |
| Recording.RecordedIsValid | ingest/record.py:780-782 | whatever was sampled, the built curves are what the gap pass relies on |
| Recording.RecordedQuotesAreSound | ingest/record.py:880-934 | from any raw samples everything quoted is positive and ordered by distance, no interval is negative, and only a car the leader's curve does not reach back to goes without a gap |
| Recording.FinishedIsTrue | ingest/record.py:761-782 | for a car that moves forward in steps the unwrapping can follow, the whole finished curve is its true distance, held at pit entry |
| Recording.GapIsTrue | ingest/record.py:892-910 | for such cars a quoted gap is the rounded time since the leader was first, truly, where the car truly is, and there is none exactly where the leader was past it from the start |
| Recording.LapsAreTrue | ingest/record.py:918-920 | laps are quoted if and only if the car is truly nine tenths of a lap behind or more, counted from a tenth short of each |
| Recording.IntervalIsSinceThere | ingest/record.py:919-930 | an interval to a car that was there within the recording is the rounded time since that car first was |
| RaceSocket.StepKeepsInv | web/src/realtime/socket.ts:78-150 | every browser event, timer and control keeps the connection's invariant |
| RaceSocket.SocketFields | web/src/realtime/socket.ts:78-150 | which sockets there are after each event, how far each is and which has delivered |
| RaceSocket.StatusFields | web/src/realtime/socket.ts:78-137 | what the page is told event by event: connecting, live, reconnecting, offline |
| RaceSocket.ReconnectBudget | web/src/realtime/socket.ts:31-154 | until closed: exactly one socket, retry timer or exhausted state, at most 21 dials, 135500 ms and the doubling backoff |
| RaceSocket.BackoffIsExact | web/src/realtime/socket.ts:90-136 | after n scheduled retries since the last reset the backoff is 500 ms doubled n times, at most 8000 |
| RaceSocket.RetryWaitsBackoff | web/src/realtime/socket.ts:135-136 | the timer a close arms waits for exactly that |
| RaceSocket.RefusedWaitsAreExact | web/src/realtime/socket.ts:124-137 | against a server that refuses every handshake the first n waits add up to the exact sum, 135500 ms in all when it goes offline |
| RaceSocket.StateIsMessages | web/src/realtime/socket.ts:99-123 | over runs the state shown is what the reducer makes of every readable message, in order, over whatever connections |
| RaceSocket.ClosedSocketsAreQuiet | web/src/realtime/socket.ts:138-153 | once the caller closes, or an error is met before that, no socket then held opens or delivers again |
| RaceSocket.BudgetBetweenRefills | web/src/realtime/socket.ts:124-137 | between refills the dials made and delays scheduled in the run itself stay within the budget |
| RaceSocket.SilentServerGoesOffline | web/src/realtime/socket.ts:90-137 | while no readable message arrives, handshakes or not, the connection gives up exactly at the 21st close, after 21 dials in all |
| RaceSocket.RetriesDialOnce | web/src/realtime/socket.ts:51-58 | over any run of presses of retry there is one dial, from the exhausted state, and otherwise none; all presses after the first change nothing |
| RaceSocket.ClosedDialsWhatWaited | web/src/realtime/socket.ts:135-153 | from the caller's close on, the dials made and the timers still armed make up the timers armed then: at most one dial more, and only of a retry that was waiting |
| RaceSocket.CloseMissesTheRetry | web/src/realtime/socket.ts:135-153 | a connection fails, the caller closes, and the retry that was waiting still dials |
| RaceSocket.Connection.constructor | web/src/realtime/socket.ts:36-48 | starts with one dialling socket and a full budget |
| RaceSocket.Connection.Open | web/src/realtime/socket.ts:78-89 | dials, saying connecting only the first time |
| RaceSocket.Connection.HandleOpen | web/src/realtime/socket.ts:90-98 | resets the backoff but not the attempts |
| RaceSocket.Connection.HandleMessage | web/src/realtime/socket.ts:99-123 | an unreadable message changes nothing; a connection's first readable one refills the budget |
| RaceSocket.Connection.HandleClose | web/src/realtime/socket.ts:124-137 | spends an attempt and schedules a retry after the backoff, which it doubles up to 8000, or goes offline |
| RaceSocket.Connection.HandleError | web/src/realtime/socket.ts:138-149 | closes the socket unless the caller has closed |
| RaceSocket.Connection.HandleTimer | web/src/realtime/socket.ts:135 | the retry timer dials |
| RaceSocket.Connection.PressRetry | web/src/realtime/socket.ts:51-58 | refills and dials, only while exhausted |
| RaceSocket.Connection.CloseByCaller | web/src/realtime/socket.ts:153 | marks the connection closed and closes its socket |
| LatencyHistogram.Histogram.Add | cmd/loadtest/hist.go:26-35 | the histogram stands for one more clamped sample |
| LatencyHistogram.Histogram.Merge | cmd/loadtest/hist.go:38-45 | the histogram stands for its own and the other's samples, itself included |
| LatencyHistogram.Histogram.ValueOfRank | cmd/loadtest/hist.go:57-64 | the accumulating loop finds the sorted sample of that rank, or 5000 for an overflow |
| LatencyHistogram.Histogram.Percentile | cmd/loadtest/hist.go:50-65 | the sample of rank ceil(q * count), kept within 1..count, in sorted order and at most 5000 |
| LatencyHistogram.RankInSorted | cmd/loadtest/hist.go:57-63 | a sorted entry is at most v exactly when its rank is within the running count at v |
| LatencyHistogram.PercentileIsLeast | cmd/loadtest/hist.go:47-65 | the percentile is at most v exactly when some sample is and the samples up to v are at least the fraction q of them, or all |
| LatencyHistogram.Histogram.Max | cmd/loadtest/hist.go:67 | the largest sample, attained, or 0 |
| LatencyHistogram.Histogram.Count | cmd/loadtest/hist.go:68 | the number of samples |
| LatencyHistogram.PercentileOfMultiset | cmd/loadtest/hist.go:37-45 | percentiles depend only on which samples were recorded, so merged histograms answer as one |
| Routing.SplitJoin | web/src/routing.ts:82 | splitting a joined query gives its parts back |
| Routing.SideReads | web/src/routing.ts:57-65 | a printed overlay side reads back as itself |
| Routing.BuildThenParse | web/src/routing.ts:70-107 | a printed hash reads back as everything but a lone overlay side |
| Routing.RoundTrip | web/src/routing.ts:94-107 | printing then reading is the identity on a well-formed selection if and only if it has both overlay sides or neither |
| Routing.ParseIsWellFormed | web/src/routing.ts:70-88 | what is read from any string is well formed if and only if its name is not one of the two inherited ones |
| Routing.CanonicalFormIsStable | web/src/routing.ts:70-107 | re-printing is stable if and only if the name is not one of the two inherited ones |
| Routing.ShortestIff | web/src/routing.ts:94-107 | among the links that read back the same the printed one is a shortest if and only if it is not a board link with a query |
| Routing.ShorterBoardLink | web/src/routing.ts:94-97 | the shorter link of a board selection with a query: the one without the name |
| Routing.InheritedNameIsNoRoute | web/src/routing.ts:70-88 | a plain word names no route at all if and only if it is one of the inherited names, as `#constructor` is |
| Routing.RouteIs | web/src/routing.ts:70-76 | which view a hash opens, by its name in lower case |
| Routing.OldLinksStillOpen | web/src/routing.ts:12-15 | a link to the retired view opens the overlay with the same selection |

## Left out

- JSON, WebSocket and Redis internals: encoding is an identity copy, pub/sub a lossless first-in first-out queue to live subscribers, and one socket has one close event.
- Machine integers and floating point: Rev, times and counts are unbounded integers, distances and fractions are reals, so overflow and rounding error do not appear.
- The instant between a broadcast and the closing of overflowed clients: a broadcast is one step, since draining a queue commutes with sending to another.
- A PUBLISH that reports failure after it was delivered: it is the step that delivers, with the writer none the wiser.
- Seam.HubConvergesToWriter: claims the writer's whole snapshot only for a hub seeded by a snapshot that writer stored; a hub seeded before any was stored lacks the session-constant fields the frames do not carry, and one seeded before a restart keeps its old cars.
- SessionLane.RevSafety: assumes one writer at a time on a session; a stored snapshot that does not decode stops the Go writer before it starts and is not a step (for the Python writer see `ClipWriter.RestartIsAbove`).
- ClipWriter.StepMirrors: assumes one entry per driver in a line, as the recorder writes them. The pacing of lines and the wall-clock stamp are left out.
- StaticReplay.SeekEqualsPlay: assumes the same full roster in every frame, weather on the first frame, no radio on frames and a clip longer than 5000 ms; loop and snapshot counters are left out of the comparison. Controls called from inside the state callback are not modelled.
- Loading and parsing the static clip, and its failure states.
- LiveRadio.NoTraceIff: the exceptions modelled are those of the number, the time and the path; the host check on the base URL is not part of this model, nor are entries or fields whose lookup itself fails.
- LiveRadio.SeenIsPublishedPlusPending: has no failing Redis call. A frame's refs leave the pending list, and enter the snapshot, before SET and PUBLISH (ingest/live_signalr.py:745-750 and 393-397), so on the live connection a failure of either loses them from every frame while they stay marked as emitted.
- ClipJourney.EachClipOnce: is about a page's list and arrivals. What the page plays also comes of its clock window, minus what arrived in the same look (web/src/hooks/useComms.ts:84-97), which is not part of this model; nor is its queue.
- The live SignalR connection's transport, subscription and log lines (ingest/live_signalr.py:652-787); its handlers, its dispatcher's catch and its flush are in `LiveRadio.RadioIngest.RunConnection`.
- RunningOrder.PublishIsAfresh: the dictionaries shared between the publisher and its snapshot are modelled by writing each frame's ranks back into the board's cars, not by aliasing.
- Library calls specified, not proved as code: Python's `list.sort`, JavaScript's `Array.sort` (stable sorting, `Sorting.dfy`), bisection in Python, Unicode case folding and percent-coding (`Routing.LeavesPlainText` says what is used of them).
- Routing.ShortestIff: ranges over ASCII links, and of case folding and percent-decoding it uses that on such text they never lengthen (`Routing.NeverLengthens`).
- Routing.RoundTrip: the query string is split as section 5.1 of the WHATWG URL Standard splits it, while decoding a name or value is any function that leaves plain text alone.
- Centreline.ResampleClosedLoop: `hypot` is any non-negative length that is zero only for no step; the search for the nearest node is numpy's and is a parameter of the projection.
- Nearest-sample and step look-ups (ingest/resample.py:10-33) and the FastF1 loading around them.
- `playFromStart` pacing without wall-clock phasing, playback speed, and the session allow-list, HTTP routes and origin checks of the gateway.
- Small pure helpers (formatters, sector bins, weather, pit windows, gap smoothing, lane counts) and all rendering: they would add only easier members.
