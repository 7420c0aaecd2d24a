# A verified model of the room's turn-taking, delivery and encodings

GreenRoom lets a person talk to a cast of personas. Four parts of it carry the hard guarantees, and
this project models each of them in Dafny and proves those guarantees. `dafny verify dfyconfig.toml`
checks everything.

## What is modelled

**The director** (`ios-web/director.js`) decides who speaks next. `DirectorModel` is its state as a
value, with every branch of `schedule`, `setMuted`, `cancel`, `snapshot` and `restore`.
`DirectorProofs` shows that the checks of the restore validator are an inductive invariant.
`DirectorRuns` draws the consequences over whole runs: round-robin choice, fairness, the guaranteed
speaker, the duplicate window. `DirectorOutcomes` writes out the refusals, the order of the record, what
a cancel ends and what the validator accepts. `DirectorClass` is the mutable object with its two-level duplicate
index and its loops, proved against the value. `RestartContinuity` is the room runtime that rebuilds a
director from its snapshot on every turn (`ios-web/room-runtime.js`), `ProviderTurn` joins it with the
request that is packed before the turn is stored, and `RoomTurn` is that turn on the mutable director.

**The event channel** (`public/app.js`) merges paged replay with a live stream. `ChannelModel` makes
every `await` boundary, timer firing, stream callback and public call a separate step; the environment
chooses the order, the pages and the records, and may call back with arbitrarily stale work.
`options.connect` is a call on the stack, during which its callbacks and the public methods may run.
`ChannelProofs` has the invariant, `ChannelRuns` the guarantees, `ChannelStreams` the closing of streams,
`ChannelConvergence` the convergence of catch-up and recovery, `ChannelLive` what each record, page and
failure does and the delivery of a live stream. `ChannelClass` is the object with the variables of the program: timers,
connections and operations are objects told apart by identity, each handler gets what its closure
captured, and what the event loop holds is a ghost state that every method advances by exactly one
step. `Lifecycle` composes the page lifecycle binder with channels, `LifecycleOutcomes` says what each page
event does and when nothing runs, and `LifecycleClass` is the binder calling real channel objects.
`SelectionFence` is the fence around overlapping room selections, `SelectionOutcomes` how they end.

**Runtime algorithms** (`ios-web/room-runtime.js`): `DraftQueue` is the coalescing draft writer and
`DraftOutcomes` what it does with each draft, `GreedyPacking`, `ContextPacking` and `Utf8` the bounded provider request, `JsonText` and `CanonicalJson` the
canonical printer behind the request digest.

**Encodings** (`docs/persona-builder/verify_golden.py`): `CandidateDigest` is the framed byte stream
that is hashed, `Slug` the one-pass slug machine for any table of transliterations, `SlugTable` the
pinned table.

The classes refine the transition systems: each method's new ghost state is one step of the old one, so
the invariants and run theorems proved about those systems hold of every sequence of calls.

JavaScript strings are sequences of UTF-16 code units (`Text`); Python bytes are integers below 256.

## What the proofs found

- COOLDOWN is never answered, from any restorable state: only the latest speaker can be cooling
  down, and that speaker is last in scan order. BUDGET_EXHAUSTED is never answered either.
- Mutes are not part of a snapshot, so a restored director equals the live one exactly when nobody
  is muted; re-applying the mute flags is what makes restarts exact.
- The demonstration turn (`ios-web/room-runtime.js:570`) throws before it stores anything when no
  speaker is chosen, although the director has by then recorded and counted the event. It stays in
  step with a live director exactly when it is not given a fresh undirected event while uncancelled with
  every persona muted (`RestartContinuity.DemoTurnContinuity`; `DemoTurnDiverges` is such a room).
- A provider turn throws after the director has chosen, and stores nothing, when no request can be made for
  the speaker (`ios-web/room-runtime.js:747`, `ios-web/room-runtime.js:819`): exactly when the newest
  message that fits beside the system prompt is not a person's, or the persona is not bundled. A room
  stays in step with a live director exactly as long as no turn aborts that way, and in every run an
  aborted turn is as if it had never been asked (`RestartContinuity.ExactRestartContinuity`,
  `AbortedTurnsLeaveNoTrace`). A first message that is too long is such a turn
  (`ProviderTurn.LongFirstMessageDiverges`).
- A provider request ends with its source message exactly when that message fits beside the system
  prompt (`ContextPacking.SourceIsLast`). The check at `ios-web/room-runtime.js:747` looks only at the
  role of the last message, so a source message that does not fit may silently give way to an older one
  (`ContextPacking.OlderMessageStandsIn`; `LongMessageDoesNotFit` is such an input).
- The assignment on `public/app.js:632` never happens: when line 630 finds the generation over, `stop`
  has already cleared the connection (`ChannelProofs.FinishAttachInv`).

## Model

| member | source | states |
|---|---|---|
| DirectorProofs.StepInv | ios-web/director.js:116-184 | Every call keeps the invariant the restore validator checks, and moves the event counter by at most one. |
| DirectorProofs.ScheduleInv | ios-web/director.js:143-184 | A turn keeps the invariant and never touches the roster, the mutes, the budget or the cancelled flag. |
| DirectorProofs.SelectingInv | ios-web/director.js:180-182 | The new fallback is the successor of the new latest speaker, and selection numbers stay distinct. |
| DirectorProofs.RememberCoherent | ios-web/director.js:270-287 | Recording an unseen identity keeps the tracked list distinct, canonical, and long enough for the events counted. |
| DirectorProofs.CoolingIsLatest | ios-web/director.js:260-261 | A persona that is cooling down is the latest speaker, and the fallback is its successor. |
| DirectorProofs.OnlyLatestCools | ios-web/director.js:254-266 | The only persona that can be cooling down sits last in scan order. |
| DirectorProofs.SoloCools | ios-web/director.js:254-266 | A room of one whose persona has just spoken: the scan alone would find nobody. |
| DirectorProofs.PairStarts | ios-web/director.js:254-266 | At the first event of a room of two the scan picks the first persona. |
| DirectorProofs.ScanFindsFirstUnmuted | ios-web/director.js:254-266 | The cooldown-filtered scan never skips an unmuted persona. |
| DirectorProofs.UndirectedChoice | ios-web/director.js:167-183 | Scan and sole-unmuted shortcut together pick the first unmuted persona at or cyclically after the fallback. |
| DirectorProofs.UnmutedComplete | ios-web/director.js:169 | Every unmuted persona is in the filtered roster. |
| DirectorRuns.GuaranteedSpeaker | ios-web/director.js:143-184 | A speaker is named exactly for a fresh verified human event that wants a response while somebody is unmuted and nothing is cancelled; a directed turn names its target; COOLDOWN and BUDGET_EXHAUSTED are never answered; refusal and DUPLICATE have exact conditions. |
| DirectorRuns.SilenceReasons | ios-web/director.js:153-171 | The exact condition of each silent answer. |
| DirectorRuns.SpeakerRecorded | ios-web/director.js:180-183 | A speaker is recorded under the new event number, the fallback is its successor, nobody else's selection moves; a silent turn moves none of it. |
| DirectorRuns.UndirectedIsRoundRobin | ios-web/director.js:172-183 | The undirected choice is plain round-robin in every state with the invariant, restored or reached. |
| DirectorRuns.SpeakersGoRound | ios-web/director.js:158-184 | The speakers of an undirected run go round the unmuted cast one place at a time. |
| DirectorRuns.Fairness | ios-web/director.js:158-184 | With k unmuted personas any k consecutive selections name each exactly once, whatever silent events come between. |
| DirectorRuns.CountersCount | ios-web/director.js:162-182 | Over a run the turn counter counts the speakers named and the event counter the human events heard. |
| DirectorRuns.DuplicateWindow | ios-web/director.js:158-161 | After any run the tracked list is the most recent min(500, total) recorded identities, in order, without repeats. |
| DirectorRuns.DuplicateExactlyInWindow | ios-web/director.js:267-287 | DUPLICATE is answered exactly for identities in that window. |
| DirectorOutcomes.CanonicalIsTrimmed | ios-web/director.js:48-56 | An identifier is canonical exactly when it is nonempty and its own trimmed form. |
| DirectorOutcomes.SpacesAre | ios-web/director.js:49 | The white space that trimming removes, unit by unit. |
| DirectorOutcomes.RefusalReasons | ios-web/director.js:144-152 | Which of the three refusals a directed turn gets, and that a refusal changes nothing. |
| DirectorOutcomes.RecordOrder | ios-web/director.js:180 | Over a run the selection record lists the speakers in the order in which each first spoke. |
| DirectorOutcomes.CancelIsFinal | ios-web/director.js:116-154 | After a cancel nobody speaks and nothing is recorded in any run; only mutes still change. |
| DirectorOutcomes.CancelledStep | ios-web/director.js:153-154 | Every turn that is not refused is then answered as cancelled. |
| DirectorOutcomes.OtherCalls | ios-web/director.js:116-142 | A cancel and a mute change what they name and nothing else. |
| DirectorOutcomes.SnapshotFields | ios-web/director.js:122-133 | The eight fields of a snapshot. |
| DirectorOutcomes.AcceptedExactly | ios-web/director.js:185-253 | The validator's acceptance, check by check with its limits in figures. |
| DirectorClass.AddIndexes | ios-web/director.js:271-276 | Adding to the two-level index and to the list keeps them in agreement. |
| DirectorClass.RemoveIndexes | ios-web/director.js:279-286 | Evicting the oldest keeps index and list in agreement and leaves no empty inner set. |
| DirectorClass.Director.constructor | ios-web/director.js:93-112 | A new director is the fresh state. |
| DirectorClass.Director.Cancel | ios-web/director.js:116-118 | Sets only the cancelled flag. |
| DirectorClass.Director.TakeSnapshot | ios-web/director.js:122-133 | The snapshot of the abstract state. |
| DirectorClass.Director.SetMuted | ios-web/director.js:134-142 | Changes one mute flag, or reports an unknown persona. |
| DirectorClass.Director.HasSeen | ios-web/director.js:267-269 | The two-level lookup answers membership in the FIFO list. |
| DirectorClass.Director.RecordSeen | ios-web/director.js:270-287 | Index and list together become the bounded append. |
| DirectorClass.Director.EligibleSpeaker | ios-web/director.js:254-266 | The scan loop computes the specified scan. |
| DirectorClass.Director.CheckDirective | ios-web/director.js:144-152 | The three refusals of a directed turn. |
| DirectorClass.Director.Schedule | ios-web/director.js:143-184 | The whole new state and the decision are those of the value model; validity is kept. |
| DirectorClass.Director.Restore | ios-web/director.js:113-115 | Yields a director exactly for the admissible snapshots, in the restored state, valid. |
| DirectorClass.Director.RestoreCounters | ios-web/director.js:186-201 | Accepts exactly consistent counters and fallback. |
| DirectorClass.Director.RestoreSelections | ios-web/director.js:206-221 | Accepts exactly distinct personas of the roster with distinct positive numbers up to the event counter. |
| DirectorClass.Director.CheckHistory | ios-web/director.js:222-240 | Accepts exactly when the fallback follows the latest selection and the turn count fits. |
| DirectorClass.Director.RestoreSeen | ios-web/director.js:244-252 | Accepts exactly distinct canonical identities, and rebuilds the index. |
| RestartContinuity.AcceptedIsValid | ios-web/director.js:185-253 | Every accepted snapshot, even one no run produced, satisfies the full invariant and snapshots back to itself. |
| RestartContinuity.SnapshotRoundTrip | ios-web/director.js:122-133 | A snapshot of a state with the invariant is accepted exactly while its event number is a safe integer and the budgets agree, and loses exactly the mutes. |
| RestartContinuity.ReapplyMutes | ios-web/room-runtime.js:796 | The loop over the personas sets exactly the flags of the room. |
| RestartContinuity.RebuildIsLive | ios-web/room-runtime.js:794-796 | The rebuilt director is the live one. |
| RestartContinuity.PersistedStepIsLive | ios-web/room-runtime.js:794-832 | One persisted call replies like the live director and stays in step with it, exactly when the turn does not abort between choosing and storing. |
| RestartContinuity.AbortsExactly | ios-web/room-runtime.js:802-823 | What a caller can check beforehand: a turn aborts exactly when the director would name a speaker and there is no request for the next speaker. |
| RestartContinuity.AbortedTurnsLeaveNoTrace | ios-web/room-runtime.js:794-832 | Over any run, the machine rebuilt from its snapshot on every call shows the same replies and snapshots as one director kept alive and never asked the turns that abort. |
| RestartContinuity.ExactRestartContinuity | ios-web/room-runtime.js:794-832 | Such a run cannot be told apart from one director kept alive and asked every turn, exactly when no turn aborts. |
| ProviderTurn.SendableExactly | ios-web/room-runtime.js:815-824 | A bundled persona has a request exactly when the newest message that fits beside its prompt is a person's; always when the new message fits. |
| ProviderTurn.RequestIsPacked | ios-web/room-runtime.js:815-824 | A request is the prompt and the greedy choice of the room's history with the new message after it. |
| ProviderTurn.WholeConversation | ios-web/room-runtime.js:731-749 | A conversation within 65,536 bytes and thirty messages is sent whole: the prompt, people as users and personas as assistants in room order, the new message. |
| ProviderTurn.ProviderTurnContinuity | ios-web/room-runtime.js:794-832 | A provider turn falls out of step exactly when the director would name a speaker and nothing can be packed for the next one; then nothing is stored. |
| ProviderTurn.LongFirstMessageDiverges | ios-web/room-runtime.js:743-747 | Such a turn: a first message of the longest length line 776 accepts, in three-byte characters. |
| RestartContinuity.DemoTurnContinuity | ios-web/room-runtime.js:564-572 | The exact condition under which the demonstration turn stays in step with the live director. |
| RestartContinuity.DemoTurnDiverges | ios-web/room-runtime.js:564-572 | A concrete room where it does not: one muted persona, nothing stored, a first event. |
| RoomTurn.RebuildDirector | ios-web/room-runtime.js:794-796 | The mutable director is built exactly when the stored snapshot is accepted, with the room's mutes. |
| RoomTurn.BuildRequest | ios-web/room-runtime.js:818-824 | The request for the speaker, or nothing when the persona is not bundled or nothing can be packed. |
| RoomTurn.TakeTurn | ios-web/room-runtime.js:794-832 | A turn on the mutable director, with its request packed by the loop, is one step of the persisted machine; a request is made exactly when a speaker is answered. |
| ChannelProofs.StepInv | public/app.js:541-673 | Every step keeps the committed order, the ownership of stale work and the single recovery mode. |
| ChannelProofs.BeginCatchUpInv | public/app.js:554-581 | Starting or joining a catch-up pays back the missing recovery mode. |
| ChannelProofs.FailAttachInv | public/app.js:625-628 | A failed connect leaves exactly one recovery mode, even when its callbacks already ran. |
| ChannelProofs.FinishAttachInv | public/app.js:629-633 | After `connect` returns nothing is left to clear: a superseded connection was cleared by whoever superseded it. |
| ChannelRuns.ExactlyOnceInOrder | public/app.js:545-581 | In every interleaving exactly the records 1..cursor are committed, each once, in order, never taken back. |
| ChannelRuns.CommitsLogPrefix | public/app.js:545-552 | If every served record agrees with a server log, the committed records are that log's prefix. |
| ChannelRuns.SinglePath | public/app.js:583-674 | A started channel has exactly one of: a current reconnect in flight, a backoff timer, a live connection; a stopped one has none. |
| ChannelRuns.StaleStepIsInert | public/app.js:541-643 | A step resuming work of another generation commits, attaches, schedules and requests nothing. |
| ChannelRuns.NoLateWork | public/app.js:656-672 | After `stop`, whatever runs next, no work of that or an older generation has any such effect. |
| ChannelRuns.NeverStalls | public/app.js:583-643 | A started channel without a live connection always has a step of its own generation to run. |
| ChannelRuns.ReconnectCompletes | public/app.js:636-644 | A settled catch-up ends in a connection attempt on success, else in a timer with the delay of that attempt. |
| ChannelRuns.BackoffDoubles | public/app.js:586 | The backoff starts at half a second and doubles up to eight seconds. |
| ChannelConvergence.CommitConsecutive | public/app.js:566-571 | A held page of consecutive records never gaps, however far live records moved the cursor. |
| ChannelConvergence.PageAdvances | public/app.js:561-572 | Each page moves the request position strictly forward, or ends the catch-up at the end of the log. |
| ChannelConvergence.FreshCatchUp | public/app.js:557-575 | A start, or a public catch-up with none in flight, begins an operation with one page per missing record and one empty page to go. |
| ChannelConvergence.CatchUpConverges | public/app.js:554-581 | At most one page per missing record plus an empty one, and a settled catch-up has succeeded with the cursor at the log's end. |
| ChannelConvergence.RecoveryConverges | public/app.js:554-644 | In any interleaving a reconnect served from the log takes at most its distance of own steps, and the run then has opened a connection with the whole log committed. |
| ChannelConvergence.RecoveryMoves | public/app.js:554-644 | While recovering, one of its own steps can run. |
| ChannelConvergence.StartReachesLog | public/app.js:648-654 | A started channel reaches a connection at the end of the log within one own step per missing record and three more. |
| ChannelConvergence.TimerReachesLog | public/app.js:590-594 | The same after a backoff timer fires, whether its reconnect starts a catch-up or joins one in flight. |
| ChannelStreams.StepAccounted | public/app.js:597-634 | Every step keeps each returned stream either the live connection's or closed once. |
| ChannelStreams.StreamsClosedOnce | public/app.js:597-672 | In every interleaving each stream `connect` returned has been closed exactly once, except the live connection's; at most one is open, and none after a stop. |
| ChannelLive.LiveRecordCommits | public/app.js:545-551 | The next record of the live stream is committed and changes nothing else. |
| ChannelLive.LiveDuplicateIgnored | public/app.js:547 | A malformed or already committed record changes nothing. |
| ChannelLive.LiveGapDisconnects | public/app.js:597-622 | A record that leaves a gap is not committed, gives the connection up and backs off. |
| ChannelLive.LiveErrorDisconnects | public/app.js:597-623 | So does an error. |
| ChannelLive.ThrownConnectBacksOff | public/app.js:625-643 | So does a `connect` that throws. |
| ChannelLive.OpeningResetsBackoff | public/app.js:612-616 | A connection that has opened starts its next backoff at half a second. |
| ChannelLive.PageOutcome | public/app.js:566-571 | After a page every valid record of it is committed, or one of them left a gap, which stops the page there. |
| ChannelLive.FetchOutcomes | public/app.js:561-572 | How each response ends a catch-up or lets it go on. |
| ChannelLive.UnwindClears | public/app.js:576-580 | The creating call clears the operation, a joining call does not. |
| ChannelLive.FailedCatchUpRetries | public/app.js:576-595 | A failed catch-up backs off and then asks again for what follows the cursor. |
| ChannelLive.CatchUpJoins | public/app.js:556 | A public catch-up joins the operation in flight. |
| ChannelLive.LiveDelivers | public/app.js:617-622 | A live connection that receives the log in order stays live and commits all it receives, whatever runs in between. |
| ChannelLive.LiveReachesEnd | public/app.js:617-622 | Fed with the rest of the log, it ends with the whole log committed. |
| ChannelClass.RoomEventChannel.constructor | public/app.js:529-536 | The initial state. |
| ChannelClass.RoomEventChannel.CommitPage | public/app.js:566-571 | The loop over a page commits as specified and reports a gap. |
| ChannelClass.RoomEventChannel.Commit | public/app.js:545-552 | Stale, duplicate, gap or committed, with the record handed over exactly when committed. |
| ChannelClass.RoomEventChannel.BeginCatchUp | public/app.js:554-581 | Returns at once when stale, joins the operation of its generation, or creates one. |
| ChannelClass.RoomEventChannel.ScheduleReconnect | public/app.js:583-595 | Installs a new timer object with the delay of the attempt, unless stale or already pending. |
| ChannelClass.RoomEventChannel.Attach | public/app.js:604-610 | Installs a new connection object and asks the stream to follow the cursor. |
| ChannelClass.RoomEventChannel.OnFetched | public/app.js:562-572 | From a response to the next request or the end of the operation: one step, and the position requested next. |
| ChannelClass.RoomEventChannel.OnUnwind | public/app.js:576-580 | The `finally` block: the creator of an operation clears it, and only while it is still the installed object. |
| ChannelClass.RoomEventChannel.OnProceed | public/app.js:636-644 | What `reconnect` does after its catch-up. |
| ChannelClass.RoomEventChannel.OnTimer | public/app.js:590-594 | Only the timer object that is installed, in its own generation, reconnects. |
| ChannelClass.RoomEventChannel.OnOpen | public/app.js:612-616 | Only the installed connection resets the backoff. |
| ChannelClass.RoomEventChannel.OnEvent | public/app.js:617-622 | Only the installed connection commits; a gap disconnects it. |
| ChannelClass.RoomEventChannel.OnError | public/app.js:597-602 | Only the installed connection disconnects, closing its stream if `connect` has returned it, and schedules. |
| ChannelClass.RoomEventChannel.OnConnected | public/app.js:629-633 | A stream superseded while `connect` ran is closed again. |
| ChannelClass.RoomEventChannel.OnConnectThrew | public/app.js:625-643 | A throwing `connect` clears its own connection and schedules a reconnect. |
| ChannelClass.RoomEventChannel.Start | public/app.js:648-654 | Starts a new generation, unless started. |
| ChannelClass.RoomEventChannel.CatchUp | public/app.js:655 | The public catch-up joins or creates an operation. |
| ChannelClass.RoomEventChannel.Stop | public/app.js:656-672 | Ends the generation, clears all recovery and closes the live stream. |
| Lifecycle.StepInv | public/app.js:698-791 | Every page step keeps the started flag equal to "the current channel runs". |
| Lifecycle.StepValid | public/app.js:676-791 | Whatever the page does, every channel keeps its own invariant. |
| Lifecycle.OneRunningChannel | public/app.js:698-791 | At most one channel ever created runs, the flag tells which, and none runs while hidden, suspended or disposed. |
| Lifecycle.StartsWhenAllowed | public/app.js:719-771 | The current channel is started whenever it is allowed to run: on activation, on return of a kept page, on becoming visible. |
| Lifecycle.CommitsOnlyInSight | public/app.js:698-791 | Whatever happens next, only the running current channel commits: nothing is committed while hidden, suspended or disposed, nor by a replaced channel. |
| LifecycleOutcomes.StopsWhenTold | public/app.js:740-788 | Nothing runs after a page hide, a hidden document, a suspension or a disposal. |
| LifecycleOutcomes.ReplaceOutcome | public/app.js:773-779 | A replaced channel is stopped and the new one is current and not yet running. |
| LifecycleOutcomes.StartedOnce | public/app.js:720 | A channel that runs is not started again. |
| LifecycleOutcomes.FirstActivation | public/app.js:705 | A new page starts its channel on activation, unless its document is hidden. |
| LifecycleOutcomes.UnansweredEvents | public/app.js:732-756 | What the binder ignores: a page that was not kept, and everything after a disposal. |
| LifecycleOutcomes.NothingRunsInQuiet | public/app.js:698-791 | Through any quiet stretch of a run nothing runs and nothing is committed. |
| LifecycleOutcomes.QuietAfterPageHide | public/app.js:740-744 | From a page hide until the page shows again; for ever when the page was not kept. |
| LifecycleOutcomes.QuietAfterHiding | public/app.js:752-756 | From a hidden document until it shows again. |
| LifecycleOutcomes.QuietAfterSuspend | public/app.js:781-784 | From a suspension until the next activation. |
| LifecycleOutcomes.QuietAfterDispose | public/app.js:785-789 | For ever after a disposal. |
| LifecycleClass.RoomChannelLifecycle.constructor | public/app.js:698-706 | The initial page. |
| LifecycleClass.RoomChannelLifecycle.StopCurrent | public/app.js:713-717 | Stops the current channel object if it was started. |
| LifecycleClass.RoomChannelLifecycle.StartIfActive | public/app.js:719-730 | Starts the current channel object under the five guards. |
| LifecycleClass.RoomChannelLifecycle.Replace | public/app.js:773-779 | Stops the old channel before installing the new one. |
| LifecycleClass.RoomChannelLifecycle.OnPageHide | public/app.js:740-744 | Hides, stops, and disposes unless the page is kept. |
| LifecycleClass.RoomChannelLifecycle.OnPageShow | public/app.js:746-750 | Resumes a kept page according to its visibility. |
| LifecycleClass.RoomChannelLifecycle.OnVisibilityChange | public/app.js:752-760 | Stops on hiding, starts on showing. |
| LifecycleClass.DeliverEvent | public/app.js:617-622 | A stream record handled by one of the page's channels is one step of the page. |
| LifecycleClass.DeliverPage | public/app.js:561-572 | So is a replay response. |
| LifecycleClass.DeliverTimer | public/app.js:590-594 | So is a backoff timer. |
| SelectionFence.StepInv | public/app.js:857-885 | Every suspension point keeps busy signal, controller and commit order in agreement. |
| SelectionFence.OnlyLatestCommits | public/app.js:869-872 | A room commit starts only for the call that is then the latest. |
| SelectionFence.LastSelectionWins | public/app.js:861-883 | Commits start in increasing order of selection; busy is on exactly while the latest call is unsettled; of the unsettled calls exactly the superseded ones were told to abort; a call resolving true has committed. |
| SelectionFence.SupersededResolvesFalse | public/app.js:869-876 | A superseded call resolves false and never rejects, however its requests end. |
| SelectionOutcomes.SelectOutcome | public/app.js:862-866 | A selection becomes the latest, starts requesting and aborts an unsettled one before it. |
| SelectionOutcomes.LatestAdvances | public/app.js:868-873 | Each answer takes the latest call one stage on, to a commit and a result. |
| SelectionOutcomes.LatestFails | public/app.js:874-882 | A failure rejects the latest call, unless it was an abort. |
| SelectionOutcomes.SupersededEnds | public/app.js:869-875 | A superseded call ends with false at its next answer or failure and starts no commit. |
| SelectionOutcomes.LastSelectionCommits | public/app.js:861-883 | Over any run without a later selection, a call that does not fail commits once and settles to whether it was accepted. |
| SelectionOutcomes.SelectionSettles | public/app.js:861-883 | The same from the selection on. |
| SelectionOutcomes.SelectionAlone | public/app.js:861-883 | Undisturbed, a selection commits its room and settles. |
| SelectionOutcomes.LatestFailureEnds | public/app.js:874-882 | In any run, a call still the latest when a request fails rejects. |
| SelectionFence.RoomSelectionFence.Select | public/app.js:861-868 | Aborts the active controller and begins the next generation with its own. |
| SelectionFence.RoomSelectionFence.OnRequested | public/app.js:868-870 | Goes on to read the room only while latest. |
| SelectionFence.RoomSelectionFence.OnRoomRead | public/app.js:870-872 | Starts the room commit exactly while latest. |
| SelectionFence.RoomSelectionFence.OnCommitEnded | public/app.js:873-882 | The result and the `finally` block. |
| DraftQueue.StepInv | ios-web/room-runtime.js:1632-1674 | Every edit, room change, gate change and completion keeps one writer, one slot and every queued draft accounted for. |
| DraftQueue.SingleLatestWriter | ios-web/room-runtime.js:1632-1674 | At most one save in flight, started in increasing revision order; at quiescence every draft has met its fate, and the newest revision is stored, the retryable failure, or skipped. |
| DraftQueue.EveryRoomEditQueues | ios-web/room-runtime.js:1666-1674 | A draft exists exactly when some edit was made with a room open. |
| DraftOutcomes.EditOutcome | ios-web/room-runtime.js:1632-1674 | An idle writer saves the edit, or skips it when writes are blocked; a busy one keeps it as the draft that waits. |
| DraftOutcomes.RoomlessEdit | ios-web/room-runtime.js:1667-1671 | An edit with no room open is counted and changes nothing else. |
| DraftOutcomes.SaveOutcome | ios-web/room-runtime.js:1640-1659 | What a completed save stores and records, and that the waiting draft is taken next. |
| DraftOutcomes.SkippedWasBlocked | ios-web/room-runtime.js:1639 | Whenever a run skips a draft, writes were blocked at the step that took it. |
| DraftOutcomes.NothingSkippedWhileAllowed | ios-web/room-runtime.js:1636-1659 | With writes allowed throughout nothing is skipped, and at quiescence the newest draft is stored or the retryable failure. |
| DraftOutcomes.FirstEditIsSaved | ios-web/room-runtime.js:1666-1674 | A room is opened and a line typed: its save starts, and ends stored. |
| DraftQueue.DraftWriter.DrainDrafts | ios-web/room-runtime.js:1636-1661 | The drain loop up to its next suspension or end. |
| DraftQueue.DraftWriter.QueueVisibleDraft | ios-web/room-runtime.js:1666-1674 | An edit replaces the waiting draft and starts the writer if idle. |
| DraftQueue.DraftWriter.OnSaveEnded | ios-web/room-runtime.js:1640-1663 | A completion changes the recorded failure only for the newest revision, and the loop goes on, perhaps with another save. |
| GreedyPacking.PackIsGreedy | ios-web/room-runtime.js:735-746 | A message is taken exactly when it is eligible, a place is left by the newer ones, and it fits beside them. |
| GreedyPacking.GreedyIsUnique | ios-web/room-runtime.js:735-746 | That rule determines the choice. |
| GreedyPacking.GreedyWithinLimits | ios-web/room-runtime.js:735-743 | A greedy choice respects the count limit and the byte budget. |
| GreedyPacking.LeftOut | ios-web/room-runtime.js:735-743 | An eligible message is left out exactly when thirty-one newer ones were taken or it does not fit beside them. |
| Utf8.LengthOfEncoding | ios-web/room-runtime.js:742 | The weight of a text is the number of bytes of its UTF-8 encoding. |
| ContextPacking.ProviderMessages | ios-web/room-runtime.js:731-749 | The backward loop computes the packed request, or nothing when the newest message is not the user's. |
| ContextPacking.RequestWithinBounds | ios-web/room-runtime.js:731-749 | Every request is the prompt and the greedy choice in room order, at most 32 messages, never more bytes than the larger of budget and prompt. |
| ContextPacking.RequestExactly | ios-web/room-runtime.js:735-748 | There is a request exactly when the newest eligible message that fits beside the prompt is a person's. |
| ContextPacking.SourceIsLast | ios-web/room-runtime.js:823 | The request ends with the appended source message exactly when that message fits beside the prompt. |
| ContextPacking.OlderMessageStandsIn | ios-web/room-runtime.js:743-747 | When it does not fit but an older message does, the request is made and ends with the older one. |
| ContextPacking.LongMessageDoesNotFit | ios-web/room-runtime.js:743-747 | Such an input, with a source message of the longest length line 776 accepts. |
| JsonText.ReadChunkBack | ios-web/room-runtime.js:93 | Each escaped unit or surrogate pair reads back to itself. |
| JsonText.QuotedUnique | ios-web/room-runtime.js:93 | A quoted string ends at its own quote and tells its text, in any context. |
| JsonText.SortSorts | ios-web/room-runtime.js:93 | Distinct keys are put in strictly ascending code-unit order (the order of section 3.2.3 of RFC 8785). |
| JsonText.SameKeysSortAlike | ios-web/room-runtime.js:93 | Two key lists sort to the same list exactly when they hold the same keys. |
| JsonText.LessExactly | ios-web/room-runtime.js:93 | The order of keys is decided by the first differing unit, or by which key ends first. |
| JsonText.QuotedUnit | ios-web/room-runtime.js:93 | How each unit is quoted (section 7 of RFC 8259). |
| JsonText.QuotedAppends | ios-web/room-runtime.js:93 | A text is quoted unit by unit, a surrogate pair as it is. |
| CanonicalJson.PrintedScalar | ios-web/room-runtime.js:95 | The literals, numbers and strings. |
| CanonicalJson.PrintedArray | ios-web/room-runtime.js:91 | An array is its items in order, separated by commas, in brackets. |
| CanonicalJson.PrintedObject | ios-web/room-runtime.js:92-94 | An object is its members in ascending order of their keys, each its quoted key, a colon and its value, separated by commas, in braces. |
| CanonicalJson.EquivalentPrintAlike | ios-web/room-runtime.js:90-96 | Values equal up to key order print to the same text. |
| CanonicalJson.UniqueReading | ios-web/room-runtime.js:90-96 | A printed value determines, in any context, the value up to key order and where it ends. |
| CanonicalJson.CanonicalText | ios-web/room-runtime.js:829-830 | Two values print to the same text exactly when they are equal up to object key order. |
| CandidateDigest.DecimalRoundTrip | docs/persona-builder/verify_golden.py:1455 | Parsing the printed length gives the length. |
| CandidateDigest.DecimalIsUnique | docs/persona-builder/verify_golden.py:1455 | A length is printed in the one way without leading zeros. |
| CandidateDigest.FieldUnique | docs/persona-builder/verify_golden.py:1455-1456 | A length-prefixed field reads back in any context, whatever digits, colons or frames it holds. |
| CandidateDigest.FeedAll | docs/persona-builder/verify_golden.py:1450-1456 | The loop feeds the frames of the present files, in order. |
| CandidateDigest.CandidateStream | docs/persona-builder/verify_golden.py:1448-1457 | All bytes the hash is fed. |
| CandidateDigest.FramingIsInjective | docs/persona-builder/verify_golden.py:1448-1457 | Two file maps feed the same bytes exactly when they agree on every name of the file order, present or absent. |
| CandidateDigest.WrittenPart | docs/persona-builder/verify_golden.py:1451-1456 | A present file is length, colon, name, line feed, length, colon, content; an absent one is nothing. |
| CandidateDigest.WrittenStream | docs/persona-builder/verify_golden.py:30-40 | The nine parts in their fixed order. |
| Slug.CanonicalSlug | docs/persona-builder/verify_golden.py:189-207 | The one-pass loop equals: split at separators, drop empty runs, transliterate, join with hyphens, or `persona`. |
| SlugTable.PersonaSlug | docs/persona-builder/verify_golden.py:49-81 | The slug for the pinned table, whose characters are all non-ASCII and whose replacements are all words. |
| SlugTable.TableIs | docs/persona-builder/verify_golden.py:77-81 | A character is in the table exactly when some group lists it, and the last such group replaces it. |
| Slug.ValueIs | docs/persona-builder/verify_golden.py:194-199 | Letters and digits pass, capitals are lowered, the table decides the rest, what it does not list separates. |
| Slug.OneKept | docs/persona-builder/verify_golden.py:200-204 | A kept character extends the last word or starts one after a hyphen. |
| Slug.SlugIsCanonical | docs/persona-builder/verify_golden.py:189-207 | A slug is never empty, has only lower-case letters, digits and single inner hyphens. |
| Slug.FixedExactlyWhenCanonical | docs/persona-builder/verify_golden.py:189-207 | The fixed points of the machine are exactly the canonical names. |
| Slug.SlugTwice | docs/persona-builder/verify_golden.py:189-207 | Slugging twice equals slugging once. |
| Slug.SharedSlug | docs/persona-builder/verify_golden.py:53-81 | Two names share a slug exactly when they transliterate to the same words. |

## Left out

- The run-time shape checks of a snapshot (its key list, array-ness, entry lengths, `typeof cancelled`): snapshots are typed here. Error messages and event texts are not modelled.
- Counters are unbounded integers: what `+= 1` does beyond 2^53 - 1 is not modelled, and `RestartContinuity.ExactRestartContinuity` is stated while event numbers are safe integers, the only snapshots the validator accepts.
- The constructor's refusal of a malformed roster or budget is a precondition of `DirectorClass.Director.constructor`.
- `maxAutonomousTurns` is carried and checked by `restore`, but `schedule` never consults it, so there is no budget bound to prove.
- Native SQL guards, transaction failures and the generation command that surround a persisted turn: a stored turn is assumed to commit as a whole. Cancelling a persisted room is modelled as load, cancel, store.
- Re-entrant or throwing `commit`, `onConnectionChange` and `setTimer` callbacks, the `AbortController` signals and the status notices of the channel. Streams may send anything, whatever position they were asked to follow.
- `validRecord`'s shape checks are one flag of a record; the safe-integer bound on its number is part of that flag.
- The rejection branch of `startIfActive`: a real channel's `start` never rejects. Channels started by anybody but the binder, and the shape assertions of the holder. A visibility change and its listener are one step.
- What an abort does to a request of the fence: requests may fail as aborted at any time, aborted or not.
- Closing a room: after boot, which assigns the room before the input listener exists (`ios-web/room-runtime.js:1830`, `ios-web/room-runtime.js:1912`), a room is only ever replaced by another (`ios-web/room-runtime.js:1147`).
- `persistVisibleDraft` writes outside the draft queue; the queue's guarantees are about the queued path.
- The Node runtime's own turn decision in `src/runtime/room-service.ts`, which line 11 of the repository's `README.md` also speaks of: separate code over SQL rows. The restart continuity proved here is that of `ios-web/room-runtime.js`.
- JSON numbers stand for their rendered lexemes, so number rendering itself (and that it is injective) is not part of the model; nor are values outside JSON, such as `undefined`.
- SHA-256 itself, and the UTF-8 encoding of file contents before they are framed. Names outside the ASCII range cannot occur in the file order.
- A lone surrogate in a name to be slugged is not a Dafny character; the machine treats it as a separator like any other unknown character.
- DOM rendering, provider and credential persistence, the server wiring under `src/`, and the rest of `verify_golden.py` and `verify_sources.py`: user interface, I/O or single-branch checks.
