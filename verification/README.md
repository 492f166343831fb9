# Update delivery, session lifecycle and assembly comparison: a verified model

This project models three parts of the stock market game and proves what they promise.

**Update delivery.** One actor owns the game, commits tick frames and civil days, and broadcasts them on a
bounded, lossy channel. Every WebSocket connection turns that channel into "a baseline, then every later
update" for its client, with a bounded backlog, a resync barrier, a latch for the first fatal failure and a
heartbeat. `Protocol`, `Publisher`, `PublishedLog`, `Connection`, `EventLoop`, `Engine` and `Actor` hold the
pieces in the form the program gives them (classes whose methods are proved against values); `Validation`,
`SequenceNumbers`, `BacklogWeight` and `Announcing` say what these values mean without using their definitions;
`Delivery`, `GapFreedom` and `Contiguity` are the state machine of actor, channel and connection with all
interleavings; `Heartbeat` is the liveness check and its supervisor.

The central results:

* `GapFreedom.GapFreeExactly`: over every run, the frames delivered since the last healthy baseline followed
  by the pending ones equal the owed segment of the published log in every state with the barrier down, if
  and only if no step of the run is a losing one. A losing step is one of two things: a strict
  correction-prepare rejection arrives behind a raised barrier after frames were dropped and lowers it, or a
  resync whose baseline command fails leaves the barrier down over a cleared backlog. `LossExamples` gives a
  concrete run for the first and, for the second, every state with a pending update.
* `Contiguity.ContiguousExactly`: what the client has been sent, and the backlog behind it, is a prefix of the
  owed part of the log at every moment, barrier up or down, mid-turn failures and closed connections
  included, if and only if the connection never takes an update in blindly: in its loop with the barrier
  down, after dropping frames, and without even a stale cursor left to refuse the update. A connection becomes
  blind exactly by a losing step without a cursor (`StepGoesBlind`), and the next owed update it
  receives breaks the prefix (`BlindReceiveIsSilent`). `LossExamples.UnansweredResyncBreaksTheStream` is a
  concrete run: the client is sent the second of two updates without the first.
  In every run without such a taking the client is told every sequence number after its baseline, up to the last
  update it was sent, exactly once (`ClientIsToldOnce`).
* `Announcing`: a client whose barrier goes up is told so in the same turn, whatever raises it
  (`RaisingIsAnnounced`); which updates a connection takes in, ignores or closes on is stated as equivalences; and
  with the barrier down n pushes or pulls hand over the n oldest updates in order (`HandsOverInOrder`).
  `BacklogWeight.CapacityExactly` says when a backlog is full, from sequence numbers and quiet frames alone.
* `Actor.SessionActor` proves, for every exit of the batch loop, that each committed frame is in exactly one
  published batch, in order, or in a batch that the engine refused and whose range the latched fatal failure names;
  that a turn of the clock commits frames until its limit, a waiting command, a spent time slice or a due day ends
  it, settles the due days, and stops for faults of the engine and nothing else (`BatchRan`); and that every settled
  day is given to the archive, in order, and its loss announced. `Actor.SessionActor.Run` carries this through the
  actor's whole life, for any sequence of clocks, commands and replacements: it reacts to each of them as specified,
  at most one non-recoverable failure is ever broadcast, nothing is broadcast after it, and nothing is lost.
  `GapFreedom.ActorRunIsPublished` joins the actor's log to the delivery runs.
* `Heartbeat`: at most one ping is outstanding and an overdue one is outstanding for good. The supervisor
  tests the deadline only at the head of its loop and its wait has no fixed branch order, so the connection
  can still be polled past its deadline after a late wake-up (`LatePollCanHappen`). It never is if and
  only if the wait never prefers the connection while the supervisor's exit is at hand: its fired timer, or a
  newly published deadline that has passed before it looked (`NeverPollsOverdueExactly`). Looking at its own
  branches first suffices (`PollsLastNeverOverdue`), and in no case does the connection come back (`OverdueForever`).
  For the same reason the supervisor can end a connection that answered in time, when its timer has fired before it
  looked at the answer (`OutdatedTimerCanFire`): exactly if the wait prefers such an outdated timer
  (`NeverEndsHealthyExactly`).

**Timelines, sessions and handles.** `Timeline` follows intents under Restore and Reset: an accepted intent
is always in the mailbox of the game that owns its generation exactly when no failed archive renewal meets an
accepted intent for the new generation, submitted before the failure or after it; the reset swaps the mailbox
before it renews the archive. In every run the mailbox cell is at the timeline's generation or one ahead, and
between replacements it is ahead exactly when the last one failed to renew its archive (`GenerationsInStep`).
`Sessions` proves the capacity counter exact in every interleaving and one shared market under the gate.
Resuming a session does not test the limit of two, so ungated creation beside it can pass it: by one at most,
and exactly when a resumption reserves on a full count (`LimitHoldsExactly`). The ungated creator,
`SessionManager::new_session`, is part of the manager's interface, but within `apps/server` only tests and an
example call it; with the creators that the server itself uses the limit holds (`OneSharedMarket`).
`WasmRegistry` is the browser host's handle counter with its two maps; a token that was taken away, also by a
removal whose close failed, never resolves again (`RevocationIsFinal`), and in every concurrent run each handle is
where its own history puts it (`RunsTellStages`).

**The assembly comparator.** `AsmText` to `AsmConservation` model `asm-equiv-cmp.py` from characters to exit
code. `AsmAlpha.OutputDecidesAlphaEquivalence` and `AsmCompare.SingleFileVerdict` say that for listings which
do not spell the comparator's own marks and whose section names leave no reference ambiguous, equal output (exit 0
for one file a side) holds if and only if the listings are alpha-equivalent: a one-to-one renaming of local labels
maps every section, matched by name and occurrence, onto its partner line for line, up to the digits of instance
hashes. Both conditions are needed.

* Names: a name can contain the rest of a reference to another section, such as `x#0:0]` beside `x`, and then two
  different references are written alike. The exact condition is that no name starts with another section's key, an
  ordinal and a closing bracket, followed by text that can stand behind a label. For every set of section names that
  spell no mark, equal outputs mean alpha-equivalence for all listings with these names if and only if no name runs
  on from another in this way: `AsmBrackets.SoundExactly` for outputs, `AsmBracketFiles.VerdictSoundExactly` for the
  exit code on files. `AsmBracketFiles.BracketsBreakSoundness` is the smallest input: two files with exit code 0
  that jump to different labels.
* Marks: a spelled mark is written like the label it stands for, and a spelled attribute line like the start of
  another section. For each of the three marks `AsmReserved` gives listings of which one spells it and which have exit
  code 0 without being alpha-equivalent, under every section name (for a spelled reference, under every name that
  reads without labels).

The patterns are stated independently as regular expressions: labels are exactly the symbols that they find
(`AsmTokens.TokensRead`), and erasing replaces exactly the hashes that they find (`AsmTokens.PiecesErased`).
`AsmRawLines` says what each kind of raw line does to the exit code, with the kinds told by what is written: blank
lines, comments, `.cfi_` and `.file` lines never change it, bare sections and content without a section give 2, and
a difference in any other line without labels, in a section's name or in its attributes gives 1, alignment included.

For several files only what the tool promises is claimed: equal multisets of bodies. Renaming the labels in the
content lines of raw listings, one to one on each listing's own labels, never changes the exit code
(`AsmListing.VerdictIgnoresLabelNames`). Other digits in the instance hashes of raw listings never change it either
(`AsmRehashFiles.VerdictIgnoresHashDigits`), as long as they are digits the comparator erases: in a line that is
all of them except those inside a closed string or inside a local label (`AsmRehash.DigitsShowExactly`). The tool's
description calls any consistent renaming identical; the code copies section attributes as written, so a renaming
that reaches them shows, exactly when it changes some section's stripped attributes
(`AsmAttributes.RenamingIsInvisibleExactly`); `AsmAttributes.RenamingInAttributesShows` is a listing for which it
does.

`Decimal` and `Deployment` cover the canonical decimal parsers and the command line. `Deployment.AcceptedExactly` says
which command lines are accepted and with which options, and `FirstErrorExactly` and `RefusedFor` which error any
other gets. Round trips of the command line fail for one family of options, addresses that start with a dash, which
only the environment variable can give; `Deployment.RoundTrip` states this as an equivalence.

`dafny verify dfyconfig.toml` checks the whole project.

## Model

| member | source | states |
|---|---|---|
| Protocol.ValidUpdateAdvances | packages/engine/src/session/protocol/civil/mod.rs:90-140 | a validated update that continues a position moves it strictly on: a batch its tick, a civil update its sequence number |
| Protocol.ValidFramesAppend | packages/engine/src/session/protocol.rs:234-257 | a valid run of frames stays valid when the frame after its end is added |
| Validation.ValidFramesExactly | packages/engine/src/session/protocol.rs:201-231 | frames are valid exactly if their ticks are consecutive, each carries every sequence number of its range, and the ranges join |
| Validation.ValidBatchExactly | packages/engine/src/session/protocol.rs:234-257 | a batch is valid exactly if its frames are and it reports its end by a snapshot, its stretch by a delta, or neither |
| Validation.ValidCivilExactly | packages/engine/src/session/protocol/civil/mod.rs:90-140 | a civil update is valid exactly if it carries every number of its range, moves the date once, reports its own position, and repeats the finished day tick for tick |
| SequenceNumbers.CoversEachOnce | packages/engine/src/session/protocol.rs:201-231 | the test by count, bounds and pairwise difference accepts exactly the facts that carry every number of the range once |
| SequenceNumbers.FramesCarryEachOnce | packages/engine/src/session/protocol.rs:201-231 | a valid run of frames carries each number of its range in exactly one frame |
| SequenceNumbers.ChainTellsEachOnce | apps/server/src/publisher.rs:68-80 | updates that continue each other tell every sequence number after the cursor in exactly one update |
| Publisher.PushKeepsConsistent | apps/server/src/publisher.rs:49-95 | a push, accepted or refused, keeps the pending chain contiguous up to the cursor, the exact unit sum and the unit bound |
| Publisher.TakeKeepsConsistent | apps/server/src/publisher.rs:97-103 | taking the oldest update keeps the chain, the sum (which never underflows) and the cursor |
| Publisher.BacklogBounded | apps/server/src/publisher.rs:84-93 | a consistent backlog never holds more than 65536 updates |
| Publisher.CapacityRefusalClearsByDraining | apps/server/src/publisher.rs:68-90 | an update refused for capacity fits once the backlog is drained, because the cursor was checked first and survives |
| BacklogWeight.FramesWeigh | apps/server/src/publisher.rs:112-118 | a run of frames weighs the sequence numbers it spans plus its frames without facts |
| BacklogWeight.UpdateWeighs | apps/server/src/publisher.rs:112-129 | an update weighs what it spans, the numbers it repeats from the finished day, and its frames without facts |
| BacklogWeight.BacklogWeighs | apps/server/src/publisher.rs:81-92 | a chained backlog weighs the sequence numbers it spans and repeats plus its frames without facts |
| BacklogWeight.BacklogSpans | apps/server/src/publisher.rs:84-93 | a backlog of two or more updates spans at most 65536 sequence numbers, and together with what it repeats and its quiet frames carries no more |
| BacklogWeight.CapacityExactly | apps/server/src/publisher.rs:49-95 | a push is refused for capacity exactly if the update fits the backlog otherwise, something is pending, and together they would carry more than 65536; it is accepted exactly if it fits and they would not |
| Publisher.ClientFrameBuffer.Configured | apps/server/src/publisher.rs:35-47 | a buffer exists exactly for a day with a trading tick after the auction, and starts empty |
| Publisher.ClientFrameBuffer.Push | apps/server/src/publisher.rs:49-95 | push accepts or refuses exactly as the specification, whose refusals BacklogWeight.CapacityExactly describes, and a refusal changes nothing |
| Publisher.ClientFrameBuffer.Take | apps/server/src/publisher.rs:97-103 | take removes and returns the oldest update |
| Publisher.ClientFrameBuffer.Clear | apps/server/src/publisher.rs:105-109 | clear empties backlog, units and cursor |
| PublishedLog.EntryAdvances | apps/server/src/actor.rs:2917-2959 | no broadcast moves the head back, and an update moves tick plus sequence number strictly on within its generation |
| PublishedLog.HeadsAdvance | apps/server/src/actor.rs:2161-2225 | over any stretch of the log generations, ticks and sequence numbers never go back, and every update counts |
| PublishedLog.CoveredIffPublishedBefore | apps/server/src/routes.rs:2151-2163 | the connection's "covered" test holds for exactly the updates published before its baseline |
| PublishedLog.StaleCursorFitsNothing | apps/server/src/publisher.rs:68-80 | a cursor left at an earlier position accepts a later update exactly when nothing was published in between |
| PublishedLog.FramesChain | apps/server/src/actor.rs:2161-2321 | the updates of one generation after any position form a chain from that position's head to the current one |
| PublishedLog.FatalEndsTheLog | apps/server/src/actor.rs:2887-2910 | a broadcast non-recoverable failure is the last entry of the log and is the latched one |
| PublishedLog.LatchedLogStays | apps/server/src/actor.rs:2887-2910 | a log whose head has a latched failure never grows |
| PublishedLog.FramesPublishedOnce | apps/server/src/actor.rs:2161-2259 | of two frames of one generation in different broadcasts the later broadcast has the later tick: none is published twice |
| PublishedLog.WindowNeverBreaksTheCursor | apps/server/src/publisher.rs:49-103 | any window of one generation fed to a fresh buffer, with any takes between, is refused for capacity only |
| Connection.FlushesAll | apps/server/src/routes.rs:2387-2422 | a failure or a flush sends the whole backlog in order and only then the failure, or accepts the update |
| Connection.TurnKeepsBarrier | apps/server/src/routes.rs:2122-2264 | between turns a raised barrier means an empty backlog, and a recorded failure that is no strict correction rejection means a raised barrier |
| Connection.BarrierFallsOnlyTwoWays | apps/server/src/routes.rs:2122-2264 | the barrier falls only by a healthy baseline or a strict correction rejection of the current generation |
| Connection.LowersExactly | apps/server/src/routes.rs:2122-2137 | a received update lowers a raised barrier exactly if it is a strict correction rejection of the connection's generation and no fatal failure was noted |
| Connection.NoFrameBehindTheBarrier | apps/server/src/routes.rs:2229-2264 | no frame leaves by push or pull while the barrier is up |
| Connection.FatalDisplacedOnlyByBaseline | apps/server/src/routes.rs:2122-2137 | a noted non-recoverable failure stays until a new baseline, and later failures are dropped |
| Connection.OverflowRecovers | apps/server/src/routes.rs:2170-2195 | push mode sends the full backlog and then accepts the update; pull mode empties the backlog and raises the barrier |
| Announcing.RaisingIsAnnounced | apps/server/src/routes.rs:2122-2212 | whenever an open turn raises the barrier it sends the client a resync request, a failure, or a baseline with a failure |
| Announcing.TimelineChangeIsAnnounced | apps/server/src/routes.rs:2138-2144 | an update of another timeline empties the backlog, raises the barrier and sends exactly the resync request that says so |
| Announcing.LagIsAnnounced | apps/server/src/routes.rs:2436-2443 | lag does the same and says how many updates were lost |
| Announcing.FailureIsForwarded | apps/server/src/routes.rs:2122-2137 | a failure is sent behind the whole backlog and noted exactly if no fatal one and not the same one was noted last |
| Announcing.ClosesExactly | apps/server/src/routes.rs:2145-2195 | a connection ends itself on exactly the relevant updates that fail validation or do not continue its cursor, and says so |
| Announcing.TakesInExactly | apps/server/src/routes.rs:2145-2195 | an update is taken in behind the backlog exactly if it is relevant, in order, and does not overflow a pull client |
| Announcing.IgnoredExactly | apps/server/src/routes.rs:2145-2163 | of the updates of its timeline without a failure a connection ignores exactly those that are covered, empty or behind the barrier |
| Announcing.HandsOverInOrder | apps/server/src/routes.rs:2229-2264 | with the barrier down n push ticks or n pulls send the n oldest pending updates in order and change nothing else |
| Announcing.WrongRequests | apps/server/src/routes.rs:2252-2264 | frame requests behind the barrier and from push clients are answered as such, and the push clock is silent otherwise |
| Announcing.BaselineIsAnswered | apps/server/src/routes.rs:2492-2512 | a resync sends its baseline, and a healthy one brings the barrier down at its position over an empty backlog |
| Connection.WsPublisherConnection.constructor | apps/server/src/routes.rs:2104-2120 | a connection starts at its baseline, with the barrier up if the baseline carried a failure |
| Connection.WsPublisherConnection.Ingest | apps/server/src/routes.rs:2122-2168 | ingestion decides and changes state as specified, branch for branch |
| Connection.WsPublisherConnection.BufferError | apps/server/src/routes.rs:2170-2195 | a refusal becomes a flush, a resync or a rejection by kind and delivery mode |
| Connection.WsPublisherConnection.FailureDelivered | apps/server/src/routes.rs:2197-2207 | a delivered failure is noted unless a non-recoverable one was, and sets the barrier |
| Connection.WsPublisherConnection.RequireResync | apps/server/src/routes.rs:2209-2212 | the backlog is dropped and the barrier raised |
| Connection.WsPublisherConnection.PrepareResync | apps/server/src/routes.rs:2214-2216 | a resync request drops the backlog and leaves the barrier as it was |
| Connection.WsPublisherConnection.InstallBaselineCursor | apps/server/src/routes.rs:2218-2222 | a healthy baseline sets tick, sequence and generation |
| Connection.WsPublisherConnection.BaselineDelivered | apps/server/src/routes.rs:2224-2227 | a delivered baseline sets barrier and noted failure from the failure it carries |
| Connection.WsPublisherConnection.TakePushFrame | apps/server/src/routes.rs:2233-2239 | the push clock takes the oldest frame only in push mode with the barrier down |
| Connection.WsPublisherConnection.TakeFlushFrame | apps/server/src/routes.rs:2241-2243 | a flush takes the oldest frame whatever the barrier |
| Connection.WsPublisherConnection.AcceptAfterFlush | apps/server/src/routes.rs:2245-2250 | the update is offered again to the buffer after a flush |
| Connection.WsPublisherConnection.RequestFrame | apps/server/src/routes.rs:2252-2264 | a pull request answers resync first, wrong mode second, and otherwise the oldest frame or none |
| EventLoop.WsConnectionLoop.HandleUpdate | apps/server/src/routes.rs:2385-2433 | one received update performs exactly the specified turn and the loop goes on exactly if the turn does not end it, unless the transport breaks: then a prefix of its messages is sent |
| EventLoop.WsConnectionLoop.HandleLagged | apps/server/src/routes.rs:2436-2443 | lag drops the backlog, raises the barrier and announces the resync |
| EventLoop.WsConnectionLoop.HandlePushClock | apps/server/src/routes.rs:2450-2456 | one push-clock tick performs the specified turn |
| EventLoop.WsConnectionLoop.HandleGetFrame | apps/server/src/routes.rs:2514-2530 | one pull request performs the specified turn |
| EventLoop.WsConnectionLoop.HandleResync | apps/server/src/routes.rs:2492-2513 | one resync drops the backlog and installs the answered baseline, reports the failed command, or forwards the catalog failure and ends |
| Delivery.CutTurnFrames | apps/server/src/routes.rs:2385-2433 | a turn sends frames only from the front of the backlog, even when the transport fails inside it |
| GapFreedom.TakenInIsOwed | apps/server/src/routes.rs:2122-2168 | a frame the connection takes in is one its baseline owes the client |
| GapFreedom.OwedIsNotIgnored | apps/server/src/routes.rs:2138-2163 | with the barrier down no owed frame is ignored |
| GapFreedom.ReceivedAccounts | apps/server/src/routes.rs:2385-2433 | one received update moves frames between log, backlog and wire without losing count |
| GapFreedom.StepKeepsGrounded | apps/server/src/routes.rs:2311-2569 | every step keeps positions inside the log and the baseline equal to the head it was taken at |
| GapFreedom.StepKeepsAccounted | apps/server/src/routes.rs:2311-2569 | every step keeps delivered plus pending plus missed equal to the owed segment |
| GapFreedom.StepGapFree | apps/server/src/routes.rs:2122-2264 | one step out of a gap-free state ends in a gap-free state exactly when it is not a losing one |
| GapFreedom.GapFreeExactly | apps/server/src/routes.rs:2311-2569 | over every run the frames in hand equal the owed segment whenever the barrier is down, if and only if no step is a losing one |
| GapFreedom.ActorRunIsPublished | apps/server/src/actor.rs:2917-2959 | whatever an actor adds to its log is a run of publishing steps beside any state of the connection |
| Contiguity.TakenInContinues | apps/server/src/publisher.rs:68-80 | a backlog with a stale cursor takes nothing in, so an update taken in, unless blindly, leaves no gap |
| Contiguity.BlindReceiveIsSilent | apps/server/src/routes.rs:2138-2168 | an owed update that a blind connection receives is taken in and leaves frames in hand that are no prefix of the owed log, with the barrier down |
| Contiguity.StepInLine | apps/server/src/routes.rs:2311-2569 | one step keeps the frames in hand in line with the log unless it takes an update in blindly, which breaks the prefix |
| Contiguity.StepGoesBlind | apps/server/src/routes.rs:2311-2569 | a connection becomes blind exactly by a losing step without a cursor |
| Contiguity.StepKeepsContiguous | apps/server/src/routes.rs:2311-2569 | a step leaves the frames in hand a prefix of the owed ones, with any loss noticeable, exactly when it does not lose blindly |
| Contiguity.ContiguousExactly | apps/server/src/routes.rs:2311-2569 | over every run what was sent and what is pending is a prefix of the owed log in every state if and only if nothing is taken in blindly; no loss goes unnoticed if and only if no step loses blindly |
| Contiguity.DeliveredIsContiguous | apps/server/src/routes.rs:2319-2569 | in every run that takes nothing in blindly the delivered frames are a prefix of the owed log and chain from the baseline |
| Contiguity.ClientIsToldOnce | apps/server/src/routes.rs:2122-2264 | in every run without a blind taking the client is told each sequence number after its baseline by exactly one update |
| Contiguity.BlindLossIsSilent | apps/server/src/routes.rs:2131-2134 | the next update published to a blind connection with nothing unread enters its backlog behind a gap, without a resync |
| Contiguity.LastPendingIsSent | apps/server/src/routes.rs:2233-2264 | with the barrier down a single pending update is sent with the next push or pull |
| LossExamples.CorrectionRejectionCanHideAnUpdate | apps/server/src/routes.rs:2197-2207 | a concrete run: an archive failure, a civil update and a correction rejection leave a live connection without the update |
| LossExamples.UnansweredResyncDropsTheBacklog | apps/server/src/routes.rs:2492-2512 | from every live state with pending frames, a resync that nobody answers loses them with the barrier down |
| LossExamples.UnansweredResyncBreaksTheStream | apps/server/src/routes.rs:2492-2512 | a concrete run: after a resync that nobody answers the client is sent the second of two updates without the first |
| Engine.ProtocolSession.StepFrame | packages/engine/src/session/protocol/civil/session.rs:461-545 | the engine contract: a frame one tick on, chained in sequence, or a failure that may poison |
| Engine.ProtocolSession.EndCivilDay | packages/engine/src/session/protocol/civil/session.rs:546-600 | the engine contract: a valid civil update on the same tick with a later sequence, or a rejection |
| Actor.StrictExactly | apps/server/src/actor.rs:2289-2320 | of all failures the actor announces exactly the rejected corrections of the current timeline have the strict form |
| Actor.StrictIsCorrection | apps/server/src/actor.rs:2289-2320 | a failure has the strict form exactly if it is such a rejection at some position of the current timeline |
| Actor.BothHalves | apps/server/src/actor.rs:2161-2225 | committing and publishing followed by settling is one turn of the clock as specified |
| Actor.SessionActor.StopWithFailure | apps/server/src/actor.rs:2887-2910 | a recoverable failure only pauses and is announced; the first other one closes the mailbox, latches and is announced; later ones are neither |
| Actor.SessionActor.PublishFrames | apps/server/src/actor.rs:2200-2216 | the committed prefix becomes one batch that ends at the engine, or nothing is published and the engine refused exactly this batch |
| Actor.SessionActor.StopCycleWithUnpublishedFrames | apps/server/src/actor.rs:2233-2259 | after a failing step the committed prefix is published, unless the engine refuses it: then its range goes into the fatal failure |
| Actor.SessionActor.CommitNext | apps/server/src/actor.rs:2174-2191 | one iteration commits one chained frame exactly if no civil day is due, and fails only with the one error the engine reported |
| Actor.SessionActor.CommitFrames | apps/server/src/actor.rs:2169-2199 | the loop commits a chained prefix that exactly the limit, a waiting command, a spent slice, a due day or an error ends |
| Actor.SessionActor.RunProtocolBatch | apps/server/src/actor.rs:2161-2225 | every exit leaves log, latch, engine and archive in agreement, publishes every committed frame or names it, commits exactly the frames nothing cut short, settles the due days unless paused, and stops for engine faults only |
| Actor.SessionActor.TickAndBroadcast | apps/server/src/actor.rs:2148-2151 | one clock tick commits and publishes exactly one frame unless a day is due or the engine reports a fault |
| Actor.SessionActor.RunFastestBatch | apps/server/src/actor.rs:2157-2159 | one time slice commits at most 100000 frames, as many as nothing cuts short |
| Actor.SessionActor.PersistDayEnd | apps/server/src/actor.rs:2325-2343 | a settled day is given to the archive, and a failed save only announces a recoverable failure and pauses |
| Actor.SessionActor.PublishCivilUpdate | apps/server/src/actor.rs:2278-2287 | a settled day is archived and then published at the engine's position under the next revision, and pauses as preferred |
| Actor.SessionActor.SettleNext | apps/server/src/actor.rs:2289-2312 | a due day is settled, and a fault is a correction rejection exactly if the engine rejected the correction, is healthy, and has the same day of the same date still to settle |
| Actor.SessionActor.PrepareCivilUpdates | apps/server/src/actor.rs:2289-2320 | due days are published one by one until none is due, one pauses the clock, or the engine reports a fault, which is classified |
| Actor.SessionActor.PublicBaseline | apps/server/src/actor.rs:2839-2885 | the baseline is at the engine and carries the latched failure, a healthy one stands at the head of the log, and a catalog fault or a poisoned engine latches |
| Actor.SessionActor.CompanyWriteFatal | apps/server/src/actor.rs:2356-2372 | a step fatal in a company command stops the actor |
| Actor.SessionActor.Restore | apps/server/src/actor.rs:3069-3121 | a restore succeeds exactly on a healthy actor with a loaded slot and a generation left: then game, generation, mailbox and roster move together, paused, and the old mailbox closes; otherwise nothing changes |
| Actor.SessionActor.Reset | apps/server/src/actor.rs:2511-2583 | a reset succeeds exactly for the current generation, with market control, on a healthy actor with a replacement and a renewed archive; without one of the first it changes nothing, and without the last the mailbox is one generation ahead |
| Actor.SessionActor.SettleCivilDay | apps/server/src/actor.rs:3123-3155 | an explicit advance publishes the settled day or stops the actor on a step fault, and is refused after a fatal failure or for another timeline |
| Actor.SessionActor.Handle | apps/server/src/actor.rs:2105-2140 | one turn of the loop reacts to each event as specified, and keeps log, latch, engine, archive and conservation in agreement |
| Actor.SessionActor.Run | apps/server/src/actor.rs:2096-2140 | over any sequence of events, up to a shutdown, each is reacted to as specified; every non-recoverable failure in the log is its last entry and the latched one, and an actor that starts stopped broadcasts nothing |
| Actor.SessionActor.BroadcastTimelineReset | apps/server/src/actor.rs:2950-2959 | the next generation is announced with one entry standing at the new game |
| Heartbeat.BigEndianRoundTrip | apps/server/src/routes.rs:1967-1968 | a payload determines its sequence number |
| Heartbeat.WsHeartbeat.SendPing | apps/server/src/routes.rs:1962-1970 | a ping is sent only with none outstanding, with a wrapping sequence and a deadline ten seconds on |
| Heartbeat.WsHeartbeat.ReceivePong | apps/server/src/routes.rs:1972-1982 | only the identical payload strictly before the deadline clears the ping |
| Heartbeat.AnsweredBeforeNext | apps/server/src/routes.rs:1962-1982 | between two pings there is a pong with the first one's payload strictly before its deadline |
| Heartbeat.ExpiredStays | apps/server/src/routes.rs:1972-1982 | a ping whose deadline has passed stays outstanding for good |
| Heartbeat.OverdueExactly | apps/server/src/routes.rs:1955-1987 | a connection is overdue exactly if some ping was left without its own answer for ten seconds |
| Heartbeat.PingsAreNumbered | apps/server/src/routes.rs:1955-1987 | the k-th ping carries the number k, as eight bytes, counted modulo 2^64 |
| Heartbeat.StalePongIgnored | apps/server/src/routes.rs:1972-1982 | a pong for the preceding ping never clears the current one, also when the sequence wraps |
| Heartbeat.OverdueForever | apps/server/src/routes.rs:2282-2309 | past an unanswered deadline no run revives the connection, and the supervisor never starts to wait again |
| Heartbeat.ExitIsReady | apps/server/src/routes.rs:2282-2309 | past the deadline the supervisor's own exit is always ready |
| Heartbeat.ExitAtHandExactly | apps/server/src/routes.rs:2282-2309 | the waiting supervisor's own view is exact: overdue means a fired timer if nothing was published since it read the deadline, and a change that ends the connection if something was |
| Heartbeat.NeverPollsOverdueExactly | apps/server/src/routes.rs:2293-2307 | in every run the connection is never polled past an unanswered deadline if and only if no poll is chosen while the supervisor's exit is at hand |
| Heartbeat.EndsHealthyExactly | apps/server/src/routes.rs:2282-2309 | the supervisor ends a connection that is not overdue exactly by a timer that fired before it looked at the answer |
| Heartbeat.NeverEndsHealthyExactly | apps/server/src/routes.rs:2282-2309 | over every run it ends none that answered in time if and only if the wait never prefers such an outdated timer |
| Heartbeat.OutdatedTimerCanFire | apps/server/src/routes.rs:2293-2307 | the wait as written can do so: a concrete run |
| Heartbeat.PollsLastNeverOverdue | apps/server/src/routes.rs:2293-2307 | a wait that looks at its own branches first never polls the connection past an unanswered deadline |
| Heartbeat.LatePollCanHappen | apps/server/src/routes.rs:2293-2307 | the wait as written can poll it after a late wake-up: a concrete run |
| Timeline.SessionHandles.EnqueueAs | apps/server/src/actor.rs:1042-1064 | an accepted intent enters the named generation's mailbox, and a refused one is refused for the first reason that applies |
| Timeline.SessionHandles.EnqueueFor | apps/server/src/actor.rs:1068-1098 | the same for a member, whose account is that of the current roster; others are refused |
| Timeline.StepKeepsSound | apps/server/src/actor.rs:2511-2583 | one step keeps the mailbox generation at the timeline's or one ahead, and generations and their games only grow |
| Timeline.RunKeepsSound | apps/server/src/actor.rs:2511-2583 | over every run generations only grow, and no game or accepted intent loses its generation |
| Timeline.GenerationsInStep | apps/server/src/actor.rs:2511-2583 | in every run the mailbox generation is the timeline's or one ahead, and between replacements the timeline's exactly when the last replacement did not fail to renew its archive |
| Timeline.RenewedArchivesStayInStep | apps/server/src/actor.rs:2511-2583 | if archive renewal always succeeds the two agree whenever no replacement is in flight |
| Timeline.FailedRenewalDeafensTheGame | apps/server/src/actor.rs:2565-2576 | after a failed renewal the running game's own generation is refused |
| Timeline.OpenMailboxAccepts | apps/server/src/actor.rs:1042-1098 | between replacements intents are accepted exactly for the running generation while its mailbox is open, and closing it ends that |
| Timeline.SwappedMailboxAccepts | apps/server/src/actor.rs:3069-3121 | from the swap on intents are accepted exactly for the next generation, in its mailbox |
| Timeline.StepHomed | apps/server/src/actor.rs:1042-1064 | one step keeps every accepted intent with the owner of its generation exactly when it strands none |
| Timeline.IntentsReachTheirOwnGame | apps/server/src/actor.rs:3069-3121 | over every run accepted intents are in their own game's mailbox if and only if no failed renewal meets one accepted for the new generation, before the failure or after it |
| Timeline.RenewedArchivesStrandNothing | apps/server/src/actor.rs:2566-2576 | if archive renewal always succeeds no intent is ever stranded |
| Timeline.FailedRenewalCanStrandAnIntent | apps/server/src/actor.rs:2565-2576 | a concrete run in which an accepted intent reaches no game of its generation |
| Sessions.SessionManager.NewSessionBound | apps/server/src/actor.rs:1801-1826 | creation reserves a place below the limit, gives it back on failure, or registers one session |
| Sessions.SessionManager.RegisterGame | apps/server/src/actor.rs:1872-1962 | registration keeps the reserved place on success and gives it back on every failure |
| Sessions.SessionManager.NewSharedSession | apps/server/src/actor.rs:1776-1791 | under the gate an existing market is returned instead of a second one |
| Sessions.SessionManager.ResumeSession | apps/server/src/actor.rs:1829-1852 | resuming works only on an empty manager and counts exactly one session |
| Sessions.SessionManager.Remove | apps/server/src/actor.rs:1970-1976 | removal lowers the count exactly when a session was removed |
| Sessions.StepKeepsAccounted | apps/server/src/actor.rs:1776-1976 | every step keeps the count equal to sessions plus reservations plus removals in flight |
| Sessions.CountIsExact | apps/server/src/actor.rs:1776-1981 | after every interleaving the count is exact, and no decrement on the way met a zero |
| Sessions.RegisteredUntilRemoved | apps/server/src/actor.rs:1926-1976 | in every interleaving a session is in the map exactly from its registration to its removal |
| Sessions.GateIsGivenBack | apps/server/src/actor.rs:1776-1852 | after every interleaving the thread that holds the shared-market gate can give it back by at most two steps of its own |
| Sessions.OneSharedMarket | apps/server/src/actor.rs:1776-1868 | if only the gated creators run there is at most one session and the limit holds |
| Sessions.StepKeepsBounded | apps/server/src/actor.rs:1801-1852 | no step takes the count further than one past the limit, and the step that first passes it is a resumption reserving on a full count |
| Sessions.LimitHoldsExactly | apps/server/src/actor.rs:1801-1852 | in every run the count stays within the limit if and only if no resumption reserves on a full count, and never passes it by more than one |
| Sessions.UngatedCreationCanPassTheLimit | apps/server/src/actor.rs:1829-1852 | resuming beside ungated creation can pass the limit: a concrete interleaving |
| WasmRegistry.HandleCounter.Reserve | apps/web-wasm/src/lib.rs:293-307 | handles are handed out in order from the counter, and exhaustion stays |
| WasmRegistry.SessionRegistry.Register | apps/web-wasm/src/lib.rs:318-346 | registration adds one handle to both maps or to neither |
| WasmRegistry.SessionRegistry.Remove | apps/web-wasm/src/lib.rs:371-383 | removal takes the handle out of both maps; a failed close keeps the session but not the token |
| WasmRegistry.SessionRegistry.ShutdownWithIngressRevoke | apps/web-wasm/src/shutdown.rs:29-70 | shutdown consumes the session first, and the failure report names the revoke before the stop |
| WasmRegistry.HandlesAreSound | apps/web-wasm/src/lib.rs:293-383 | in every run handles are non-zero, strictly increasing and distinct, and tokens belong to live sessions |
| WasmRegistry.RunsTellStages | apps/web-wasm/src/lib.rs:293-383 | in every concurrent run handles count up from one, a token resolves exactly from its publication to its revocation, and each handle is registered, live, stopping or retired as its own steps say |
| WasmRegistry.RevocationIsFinal | apps/web-wasm/src/lib.rs:371-383 | an issued handle's token can never resolve again if and only if it has no token and is past its registration, its session closed or not |
| WasmRegistry.RetirementAndExhaustionAreFinal | apps/web-wasm/src/lib.rs:1021-1036 | a retired token never resolves again and an exhausted counter stays exhausted |
| Decimal.ParsesExactlyPrinted | apps/server/src/routes.rs:648-656 | the parser accepts exactly the decimal texts of 64-bit numbers, with their values |
| Decimal.ParsersAgree | apps/web-wasm/src/lib.rs:117-125 | the server's two parsers and the browser's agree on every string, and the browser's tells a number that is too large |
| AsmText.RenderItems | scripts/verify/asm-equiv-cmp.py:67 | splitting a line into plain characters and labels loses nothing |
| AsmText.EraseRender | scripts/verify/asm-equiv-cmp.py:80-100 | erasing hashes after writing label marks is erasing them around the labels first: the two passes do not interfere |
| AsmTokens.StringsExactly | scripts/verify/asm-equiv-cmp.py:67-76 | the reading finds strings exactly where the string pattern matches |
| AsmTokens.HashesExactly | scripts/verify/asm-equiv-cmp.py:65 | the reading finds an instance hash exactly where 17h, sixteen lower-case hexadecimal digits and E are written |
| AsmTokens.SymbolCharactersExactly | scripts/verify/asm-equiv-cmp.py:67 | the characters of symbols, listed |
| AsmTokens.TokensRead | scripts/verify/asm-equiv-cmp.py:67 | the labels of a line are exactly the symbols with .L in front that the pattern finds, leftmost alternative first |
| AsmTokens.PiecesErased | scripts/verify/asm-equiv-cmp.py:65-83 | normalising a line replaces exactly the hashes that the pattern finds outside strings |
| AsmMarkers.RefMarkerHarmless | scripts/verify/asm-equiv-cmp.py:94-98 | a reference mark neither closes a string nor contains or completes an instance hash |
| AsmMarkers.SectionKeyInjective | scripts/verify/asm-equiv-cmp.py:139-143 | a section key determines name and occurrence |
| AsmMarkers.RefMarkerInjective | scripts/verify/asm-equiv-cmp.py:98 | a reference mark determines section key and ordinal |
| AsmMarkers.DecodeRender | scripts/verify/asm-equiv-cmp.py:87-100 | a canonical line can be read back into characters and labels unless the line spells a mark |
| AsmContent.ContentDefines | scripts/verify/asm-equiv-cmp.py:68 | the definition pattern sees exactly the lines whose first items are a label and a colon |
| AsmContent.ErasedUnreserved | scripts/verify/asm-equiv-cmp.py:80-84 | erasing hashes never makes a line spell a mark it did not spell |
| AsmFile.ReadSections | scripts/verify/asm-equiv-cmp.py:103-134 | the reading loop attributes lines to sections as specified |
| AsmFile.NoLineIsLost | scripts/verify/asm-equiv-cmp.py:108-134 | sections keep all content lines in order, and a listing is untrusted exactly when some content has no section or a bare section directive occurs |
| AsmRawLines.SilentLinesDoNotMatter | scripts/verify/asm-equiv-cmp.py:108-128 | blank, comment, .cfi_ and .file lines, anywhere and in any number, never change the exit code |
| AsmRawLines.BareSectionsAreRefused | scripts/verify/asm-equiv-cmp.py:118-125 | a bare .text, .data or .bss on either side gives exit code 2 |
| AsmRawLines.BareEndsSection | scripts/verify/asm-equiv-cmp.py:118-125 | a bare section ends the section before it: nothing is attributed up to the next directive |
| AsmRawLines.UnattributedIsRefused | scripts/verify/asm-equiv-cmp.py:129-131 | so does any other line in front of the first section directive |
| AsmRawLines.ComparedLineShows | scripts/verify/asm-equiv-cmp.py:127-132 | any other line without labels is compared: replacing it gives exit code 1 exactly if the texts differ outside instance hashes |
| AsmRawLines.AttributesShow | scripts/verify/asm-equiv-cmp.py:111-116 | replacing the attributes of one section directive gives exit code 1 exactly if they differ outside instance hashes |
| AsmRawLines.NamesShow | scripts/verify/asm-equiv-cmp.py:111-116 | replacing the name of one section directive by one that differs outside instance hashes gives exit code 1 |
| AsmRawLines.NameCharactersExactly | scripts/verify/asm-equiv-cmp.py:69 | a section name has any characters but blanks, quotes and commas, the blanks listed |
| AsmRawLines.AlignmentShows | scripts/verify/asm-equiv-cmp.py:38 | alignment directives are compared: different amounts give exit code 1 |
| AsmFile.NumberDefinitions | scripts/verify/asm-equiv-cmp.py:136-155 | the loops over sections and lines number definitions as specified and stop at the first duplicate |
| AsmFile.ParseFile | scripts/verify/asm-equiv-cmp.py:103-165 | the parser returns exactly the specified bodies or label error |
| AsmLabels.DefinitionsDescribed | scripts/verify/asm-equiv-cmp.py:145-155 | every label is mapped to the section of its definition and the number of definitions before it there |
| AsmLabels.DuplicatesAreFound | scripts/verify/asm-equiv-cmp.py:152-153 | numbering fails exactly when some label is defined twice |
| AsmLabels.SameTextSameAddress | scripts/verify/asm-equiv-cmp.py:87-100 | seen from partner sections, two labels get the same text exactly when they are defined at the same place |
| AsmBodies.FlattenInjective | scripts/verify/asm-equiv-cmp.py:157-164 | a body determines the sections it is made of |
| AsmBodies.CollectedBodies | scripts/verify/asm-equiv-cmp.py:157-165 | every section's lines end up in the body of its name, in file order, and nothing else does |
| AsmBodies.FunctionsExactly | scripts/verify/asm-equiv-cmp.py:157-159 | a body is counted among the functions exactly if its name starts with .text, and among the data otherwise |
| AsmBodies.RejectedExactly | scripts/verify/asm-equiv-cmp.py:92-93 | a listing is rejected exactly when a label is defined twice or used without a definition |
| AsmReading.RenderedAlike | scripts/verify/asm-equiv-cmp.py:87-100 | two lines that spell no mark and are written alike agree item by item, unless a label text of one runs on into one of the other |
| AsmReading.RunningOnNeedsNames | scripts/verify/asm-equiv-cmp.py:98 | in a line, a reference runs on into a reference to another section only if that section's name starts with the first reference's key, an ordinal and a bracket, with text that can follow a label behind |
| AsmAlpha.NoBracketsUnambiguous | scripts/verify/asm-equiv-cmp.py:98 | in particular section names without closing brackets are unambiguous |
| AsmAlpha.EqualOutputsAlphaEquivalent | scripts/verify/asm-equiv-cmp.py:87-165 | soundness: equal outputs of unmarked listings with unambiguous section names come from alpha-equivalent ones |
| AsmAlpha.AlphaEquivalentEqualOutputs | scripts/verify/asm-equiv-cmp.py:87-165 | completeness: alpha-equivalent accepted listings have equal outputs |
| AsmAlpha.OutputDecidesAlphaEquivalence | scripts/verify/asm-equiv-cmp.py:87-165 | for accepted unmarked listings with unambiguous section names the output decides alpha-equivalence |
| AsmBrackets.BracketsMakeReferencesAmbiguous | scripts/verify/asm-equiv-cmp.py:98 | for any key, a reference followed by more text can be written like a reference to a section whose name starts with the first one's key, ordinal and bracket |
| AsmBrackets.AmbiguousNamesBreakSoundness | scripts/verify/asm-equiv-cmp.py:87-165 | for every two section names of which one runs on from the other there are two accepted, unmarked listings with equal outputs that are not alpha-equivalent |
| AsmBrackets.SoundExactly | scripts/verify/asm-equiv-cmp.py:87-165 | for section names that spell no mark, equal outputs mean alpha-equivalence for all unmarked listings with these names if and only if no name runs on from another |
| AsmBracketFiles.FileScans | scripts/verify/asm-equiv-cmp.py:103-134 | sections written out as a file are read back as the same sections |
| AsmBracketFiles.AmbiguousFilesExitZero | scripts/verify/asm-equiv-cmp.py:245-258 | for every two such names the comparator exits 0 on two trusted files that are not alpha-equivalent |
| AsmBracketFiles.VerdictSoundExactly | scripts/verify/asm-equiv-cmp.py:245-258 | for section names that spell no mark, exit 0 for one unmarked listing a side means alpha-equivalence for all files with these names if and only if no name runs on from another |
| AsmBracketFiles.BracketsBreakSoundness | scripts/verify/asm-equiv-cmp.py:87-165 | the smallest such files, with section names x and x#0:0]: accepted, no mark spelled, equal outputs, exit 0, not alpha-equivalent |
| AsmReserved.SpelledLocalMarkBreaksSoundness | scripts/verify/asm-equiv-cmp.py:87-100 | for every section name: a jump to a label and a jump that spells its local mark have equal outputs without being alpha-equivalent |
| AsmReserved.SpelledReferenceBreaksSoundness | scripts/verify/asm-equiv-cmp.py:98 | the same for a spelled reference to another section, whenever the mark itself reads without labels |
| AsmReserved.SpelledAttributesBreakSoundness | scripts/verify/asm-equiv-cmp.py:157-164 | for every section name: a section that spells the attribute line and two sections have equal outputs without being alpha-equivalent |
| AsmReserved.SpelledLocalMarkExitsZero | scripts/verify/asm-equiv-cmp.py:245-258 | the comparator exits 0 on the files with the local mark |
| AsmReserved.SpelledReferenceExitsZero | scripts/verify/asm-equiv-cmp.py:245-258 | the comparator exits 0 on the files with the reference |
| AsmReserved.SpelledAttributesExitZero | scripts/verify/asm-equiv-cmp.py:245-258 | the comparator exits 0 on the files with the attribute line |
| AsmRename.LineOfRenamed | scripts/verify/asm-equiv-cmp.py:66-67 | renaming labels in the text of a line and splitting it commute, unclosed strings and comments included |
| AsmRename.RenamingKeepsOutcome | scripts/verify/asm-equiv-cmp.py:66-165 | any one-to-one renaming of local labels in the lines of all sections keeps the bodies, or the complaint about the renamed label |
| AsmRename.RenamingExtends | scripts/verify/asm-equiv-cmp.py:66 | a renaming that is one to one on finitely many labels is part of one that is one to one on all labels |
| AsmAttributes.OutcomeShowsAttributes | scripts/verify/asm-equiv-cmp.py:157-164 | listings that differ in attributes only get the same verdict, and the same output exactly when their stripped attributes agree outside instance hashes |
| AsmAttributes.RenamingIsInvisibleExactly | scripts/verify/asm-equiv-cmp.py:157-164 | a one-to-one renaming everywhere, attributes included, keeps the verdict, and keeps the output exactly when no section's stripped attributes change outside instance hashes |
| AsmAttributes.RenamingInAttributesShows | scripts/verify/asm-equiv-cmp.py:157-164 | a concrete accepted listing whose consistent renaming has a different output |
| AsmListing.ContentRenamed | scripts/verify/asm-equiv-cmp.py:103-131 | a content line of a raw listing stays one under renaming, and its stripped text is the renamed one |
| AsmListing.ParsingRenamed | scripts/verify/asm-equiv-cmp.py:103-165 | renaming the labels in the content lines of a raw listing changes nothing in what it contributes, apart from the label named in a complaint |
| AsmListing.OwnLabelsRenamed | scripts/verify/asm-equiv-cmp.py:103-165 | the same needs a renaming that is one to one on the listing's own labels only |
| AsmListing.VerdictIgnoresLabelNames | scripts/verify/asm-equiv-cmp.py:168-258 | renaming local labels in the listings of both directories, each one to one on its own labels, never changes the exit code |
| AsmHashes.HashesAreErased | scripts/verify/asm-equiv-cmp.py:80-84 | an instance hash outside strings is erased whatever its digits and does not affect its surroundings |
| AsmHashes.ChangedHashDoesNotShow | scripts/verify/asm-equiv-cmp.py:80-84 | replacing one instance hash outside strings by another leaves the normalised line unchanged |
| AsmHashes.StringsAreKept | scripts/verify/asm-equiv-cmp.py:80-84 | the inside of a string is kept byte for byte |
| AsmHashes.HashesDoNotMatter | scripts/verify/asm-equiv-cmp.py:80-165 | listings whose sections agree once hashes are erased have the same verdict and output |
| AsmRehash.DigitsShowExactly | scripts/verify/asm-equiv-cmp.py:66-100 | other digits for a hash in a line leave what the line says unchanged if and only if the hash is outside closed strings and outside local labels |
| AsmRehash.TextShowsExactly | scripts/verify/asm-equiv-cmp.py:80-84 | in text without labels, such as attributes, erasing leaves other digits for a hash visible exactly inside closed strings |
| AsmRehash.RehashedListingsAgree | scripts/verify/asm-equiv-cmp.py:80-165 | any number of invisible edits to section names, attributes and lines keeps the verdict and the output |
| AsmRehashFiles.RehashedIsNotSeen | scripts/verify/asm-equiv-cmp.py:103-131 | any number of edits to erased digits of a raw line, whatever its kind, keeps its kind and what is taken from it |
| AsmRehashFiles.RehashedFileParses | scripts/verify/asm-equiv-cmp.py:103-165 | a raw listing with such edits contributes the same bodies, or is rejected too |
| AsmRehashFiles.VerdictIgnoresHashDigits | scripts/verify/asm-equiv-cmp.py:168-258 | such edits in the raw listings of either directory never change the exit code |
| AsmGather.GatherBodies | scripts/verify/asm-equiv-cmp.py:187-190 | the loop adds every body of a listing under its name |
| AsmGather.DiffSets | scripts/verify/asm-equiv-cmp.py:227-242 | the total counts names on one side only and changed names; every changed name is reported in its category and no other |
| AsmGather.ClassifiedExactly | scripts/verify/asm-equiv-cmp.py:219-224 | the categories of the report by the parts that occur in a name |
| AsmGather.NoDifferences | scripts/verify/asm-equiv-cmp.py:227-242 | the total is zero exactly when the two gatherings are equal |
| AsmCompare.LoadDirectory | scripts/verify/asm-equiv-cmp.py:168-216 | loading returns the gathered bodies or the first reason for distrust |
| AsmCompare.Compare | scripts/verify/asm-equiv-cmp.py:245-258 | the exit code is the specified one |
| AsmCompare.RefusedExactly | scripts/verify/asm-equiv-cmp.py:171-211 | a directory is refused exactly when no listing has a section, or one has unattributed content or label errors |
| AsmCompare.DistrustExactly | scripts/verify/asm-equiv-cmp.py:168-211 | which reason a directory is refused for: no files, the first label error, no section at all, or content without one |
| AsmCompare.IdenticalExactly | scripts/verify/asm-equiv-cmp.py:245-258 | exit 0 says exactly that both directories are trusted and have the same bodies per name with multiplicity; exit 2 exactly that one is not trusted |
| AsmCompare.VerdictUnordered | scripts/verify/asm-equiv-cmp.py:170-190 | the order of files makes no difference to the exit code |
| AsmCompare.SingleFileVerdict | scripts/verify/asm-equiv-cmp.py:245-258 | for one unmarked listing with unambiguous section names on each side exit 0 says exactly that they are alpha-equivalent |
| AsmConservation.CollectingConserves | scripts/verify/asm-equiv-cmp.py:157-164 | sorting contributions into bodies loses and invents no line |
| AsmConservation.EveryLineIsCompared | scripts/verify/asm-equiv-cmp.py:103-165 | in a trusted listing every content line lands exactly once in the compared bodies, beside one attribute line per section |
| Deployment.CheckAddress | apps/server/src/deployment.rs:185-202 | an address is accepted exactly if it is a socket address or a host and a port split at the last colon |
| Deployment.HostPortExactly | apps/server/src/deployment.rs:185-202 | a host and a port are an address exactly if the host has only letters, digits, dots, dashes and underscores and the port is below 2^16 |
| Deployment.WhiteSpaceExactly | apps/server/src/deployment.rs:101-106 | the blanks that alone make no slot name, listed |
| Deployment.ReadOptions | apps/server/src/deployment.rs:53-135 | the loop collects options or stops at the first error as specified |
| Deployment.Parse | apps/server/src/deployment.rs:27-169 | parsing returns exactly the specified options or error |
| Deployment.AcceptedExactly | apps/server/src/deployment.rs:27-169 | a line of options is accepted exactly if its values suit, no two clash and what they ask for is granted, and then every option has its given value or its default |
| Deployment.AcceptedLines | apps/server/src/deployment.rs:48-62 | whatever is accepted is such a line or a call for help |
| Deployment.FirstErrorExactly | apps/server/src/deployment.rs:56-135 | the error of a line is that of its first word that goes wrong |
| Deployment.RefusedFor | apps/server/src/deployment.rs:136-168 | options that are not granted are refused for the first reason that applies |
| Deployment.OrderDoesNotMatter | apps/server/src/deployment.rs:53-135 | any permutation of option groups is accepted or rejected alike and gives the same options |
| Deployment.RoundTrip | apps/server/src/deployment.rs:82-87 | writing valid options as a command line gives them back exactly when their address does not start with a dash |
| Deployment.AcceptedIsValid | apps/server/src/deployment.rs:136-168 | whatever the parser accepts is valid |

## Left out

- The game engine (order book, money, calendar, accounting): only its contract towards the actor is modelled, with nondeterministic results.
- Identity keys of facts and calendar metadata in update validation: one boolean stands for the calendar checks; neither involves ticks or sequence numbers.
- Company, stock and report payloads of baselines and updates, and the wording of errors: no result depends on them.
- Pacing, speed meters and the 14 ms time slice: after which frames a slice is spent or a command waits are inputs of a clock turn. Pause preferences are any function of the settled day.
- HTTP routes, authentication, serialisation, SQLite and static files: plumbing over libraries. Storage outcomes are nondeterministic inputs.
- Lock poisoning, identifier collisions and the host-parity feature, except its command that settles a civil day: assumed absent.
- Queued intents inside the engine: the model records which mailbox accepted an intent, not its execution.
- Broadcast channel internals: a receiver further behind than 1024 entries loses the overwritten ones; the rounding of the channel's capacity is not modelled.
- Heartbeat scheduling: timer granularity and missed interval ticks; waits may end at any later time.
- Deployment.CheckAddress: whether a text is a socket address, and whether a path names the in-memory database, are library judgements taken as parameters.
- AsmListing.VerdictIgnoresLabelNames: raw section directives are left as they are; AsmAttributes.RenamingIsInvisibleExactly covers renamed attributes once a listing is split into sections.
- Word boundaries after `.file` and letters beyond ASCII: the boundary is decided for ASCII letters, digits and underscore.
- Printing in the comparator, the partial-coverage warning and the report's limit of twenty names per group.
- Section names that spell the comparator's own `__LAB` and `__REF`: for them unambiguous names are proved sufficient for soundness, not necessary.
- Several listings a side: the tool promises only a necessary condition there, and no alpha-equivalence across files is claimed.
