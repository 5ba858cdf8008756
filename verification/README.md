# Wireglass in Dafny

A model of the parts of Wireglass where its behaviour is hard to see from one function, with proofs about all inputs,
all runs and all interleavings. `dafny verify dfyconfig.toml` checks everything.

- **Capture store and session files** (`PacketRepository.dfy`, `PacketRepositoryLaws.dfy`, `ReloadLaws.dfy`,
  `RunRepository.dfy`, `SessionController.dfy`, `LinkedMap.dfy`): classes over a ring and an id index, proved against
  functions of the store; what every history of adds, loads and clears keeps; what loading a file twice, and saving,
  clearing and loading, come to.
- **Publishing, runs, ingestion, live streams** (`PacketBus.dfy`, `TestRunService.dfy`, `IngestionHandler.dfy`,
  `IngestionSharing.dfy`, `TrafficStream.dfy`): step systems in which every read and every write of shared state is a
  step of its own, with invariants over all interleavings; where a promise goes too far, the exact condition under
  which it holds.
- **The page** (`BrowserApp.dfy`, `BrowserModel.dfy`, `BrowserLaws.dfy`, `HeldPackets.dfy`, `SchemaRules.dfy`,
  `RuleEdits.dfy`, `RemoteConfig.dfy`, `StableSort.dfy`): a class whose methods are the uninterrupted pieces of the
  page's code; the packets it holds, its caches, its derived rules and its incrementally kept table are right over every
  sequence of events.
- **Validator, paths, markup** (`Json.dfy`, `SchemaValidator.dfy`, `SchemaViolations.dfy`, `ErrorsOnce.dfy`,
  `JsonPath.dfy`, `PrettyXml.dfy`, `PrettyXmlLaws.dfy`, `XmlTree.dfy`, `Text.dfy`): the schema validator decides a
  declarative relation and reports exactly the violations, its error paths can be taken apart and followed, and
  re-indenting keeps content, is idempotent, and shows the depth of a tree.
- **Bytes** (`HexDump.dfy`, `Utf8Text.dfy`): hex dumps read back, and text is told from binary by a UTF-8 criterion
  (sections 3 and 4 of RFC 3629).

## Where the code and its documentation differ

- The README promises that loading the same file twice changes nothing (README.md:207-209). The exact condition, for a
  file without repeated ids, is `SessionFiles.SecondLoadChangesNothingIff`: after the first load all its packets are
  still there, or the file overflows the ring and the ring holds its last packets, so that the second load turns the
  ring over once. `PacketStoreLaws.ReloadCanChangeTheRing` is a store of capacity 2 whose ring a second load changes.
- "Reset" is meant to bring back the source's version of a rule (docs/server-config-format.md:9-14). For a rule whose id
  is a name that every JavaScript object answers to, such as `constructor`, the page still shows the rule as edited:
  `SchemaRules.ResetRestoresSourceIff`.
- The summary of a finished run can show RUNNING again.  From a moment between the unsubscribe and the reading of the
  counters on, it can exactly if a publish is inside the run's counter at that moment: `RunLifecycle.SummarySettlesIff`.
- Sessions that send packets of one run can lose a count, exactly when two of them claim the run:
  `IngestionSharing.CountsStayRightIff`.
- If a send can fail before the request for the stream has been answered, the stream can stay subscribed for good
  (`TrafficStream.EarlyCallbackCanWin`); if not, it never does (`TrafficStream.LateFailuresUnsubscribe`). Whether the
  server's emitter lets a send fail so early is not decided by this repository.
- A rule of the local file that the page does not accept still hides the remote file's rule of the same id
  (`SchemaRules.FilePrecedence`).

## Model

| member | source | states |
|---|---|---|
| `PacketStore.PacketRepository.constructor` | wireglass-app/src/main/java/com/wireglass/listview/store/PacketRepository.java:25-27 | The capacity is the configured ring size, but at least 1, and the store starts empty. |
| `PacketStoreLaws.EvictUnindexes` | wireglass-app/src/main/java/com/wireglass/listview/store/PacketRepository.java:33-36 | Eviction drops packets from the old end only, unindexes exactly the ids of those it drops, and leaves every other id as it was. |
| `PacketStore.PacketRepository.Add` | wireglass-app/src/main/java/com/wireglass/listview/store/PacketRepository.java:29-41 | The in-place loop refines the store function that the laws are about: append, index under the id, evict from the old end with the evicted ids unindexed, the ring never above capacity. |
| `PacketStore.PacketRepository.ImportPackets` | wireglass-app/src/main/java/com/wireglass/listview/store/PacketRepository.java:43-58 | The in-place loop takes in exactly the packets that have an id not indexed when their turn comes, evicting while it runs, and returns how many they were. |
| `PacketStore.PacketRepository.Clear` | wireglass-app/src/main/java/com/wireglass/listview/store/PacketRepository.java:99-107 | Ring and index are empty together. |
| `PacketStoreLaws.RingIsWindow` | wireglass-app/src/main/java/com/wireglass/listview/store/PacketRepository.java:29-58 | Over every history of live adds, file loads and clears, the ring is the last `capacity` of the packets accepted since the last clear. |
| `PacketStoreLaws.LookupFindsNewest` | wireglass-app/src/main/java/com/wireglass/listview/store/PacketRepository.java:60-67 | Over every history, for any input including reused ids, a lookup that answers gives the newest ring packet of that id. |
| `PacketStoreLaws.AddKeepsAgreementIff` | wireglass-app/src/main/java/com/wireglass/listview/store/PacketRepository.java:29-41 | From a store whose index holds exactly the ring's packets in ring order, a live add keeps it so if and only if its id is not in the ring. |
| `PacketStoreLaws.ImportKeepsAgreement` | wireglass-app/src/main/java/com/wireglass/listview/store/PacketRepository.java:43-58 | A bulk import keeps that agreement for arbitrary lists: nulls, missing ids, duplicates, overflow. |
| `PacketStoreLaws.FreshHistoriesAgree` | wireglass-app/src/main/java/com/wireglass/listview/store/PacketRepository.java:29-58 | Over every history whose live adds carry ids not in the ring, index and ring agree exactly. |
| `PacketStoreLaws.AgreementInFull` | wireglass-app/src/main/java/com/wireglass/listview/store/PacketRepository.java:20-21 | What agreement means for a reader: no key twice, index keys and values are the ring's in ring order, and every ring packet is found under its id. |
| `PacketStoreLaws.RecentMeans` | wireglass-app/src/main/java/com/wireglass/listview/store/PacketRepository.java:73-88 | A reader gets all packets of the run it asks for, or of all runs, from some point of the ring on: from the oldest without a limit, and with a positive one exactly that many, or all when there are no more. |
| `PacketStoreLaws.LoadIsNoOpIff` | wireglass-app/src/main/java/com/wireglass/listview/store/PacketRepository.java:43-58 | A load adds nothing, and then changes nothing, if and only if every id it offers is already indexed. |
| `PacketStoreLaws.ReloadAfterRoomyLoad` | README.md:207-209 | Loading the same file twice changes nothing when the first load, into any store, evicted nothing. |
| `PacketStoreLaws.ReloadIntoEmptyIff` | README.md:207-209 | Into an empty store, a second load of any file adds nothing if and only if the distinct ids it offers fit the capacity; and then it changes nothing. |
| `PacketStoreLaws.DuplicateFreeReload` | wireglass-app/src/main/java/com/wireglass/listview/store/PacketRepository.java:43-58 | A duplicate-free file loaded twice into an empty store of any capacity leaves the same ring and index as once; above capacity the second load re-adds every packet, in one full rotation. |
| `PacketStoreLaws.SlidingLoad` | wireglass-app/src/main/java/com/wireglass/listview/store/PacketRepository.java:43-58 | A load whose packets find their ids absent in their turn takes all of them, and the ring slides along what was accepted before. |
| `PacketStoreLaws.ReloadCanChangeTheRing` | README.md:207-209 | Counterexample to the promise: a store of capacity 2 holding other packets, where the second load of a file adds a packet again and leaves a different ring. |
| `ReloadLaws.LoadKeepsStoreIff` | wireglass-app/src/main/java/com/wireglass/listview/store/PacketRepository.java:43-58 | A load of any file leaves an agreeing store as it was if and only if it adds nothing, or it adds at least as many packets as the ring holds and the last of them are the ring. |
| `ReloadLaws.DistinctLoadKeepsStoreIff` | wireglass-app/src/main/java/com/wireglass/listview/store/PacketRepository.java:43-58 | For a file in which no id occurs twice: if and only if every id it offers is indexed already, or it has more packets than the ring can hold and the ring holds its last ones. |
| `RunStore.RunRepository.Upsert` | wireglass-app/src/main/java/com/wireglass/listview/store/RunRepository.java:19-26 | A known id keeps its place in the order and a new one goes to the end; the id shows the new summary, and every other id what it showed before. |
| `SessionFiles.SessionController.Export` | wireglass-app/src/main/java/com/wireglass/listview/web/SessionController.java:41-51 | Position by position: the file lists every run from the newest id back to the oldest, and every packet of the ring from the oldest on. |
| `SessionFiles.SessionController.ImportSession` | wireglass-app/src/main/java/com/wireglass/listview/web/SessionController.java:53-71 | A file of another version changes nothing; otherwise the new state is that of the import function, and the reply's added and skipped packets add up to the packets of the file. |
| `SessionFiles.RestoredRunIsLastOffered` | wireglass-app/src/main/java/com/wireglass/listview/web/SessionController.java:62-66 | After a load every id shows the file's last run of that id, marked as restored, or else what it showed before. |
| `SessionFiles.RestoringTwiceIsRestoringOnce` | wireglass-app/src/main/java/com/wireglass/listview/web/SessionController.java:62-66 | Loading the runs of any file a second time changes neither a run nor their order. |
| `SessionFiles.SecondLoadAddsNothingIff` | README.md:207-209 | After a first load, a second load of any file adds nothing if and only if every packet id the file offers survived the first load; and then it changes nothing. |
| `SessionFiles.SecondLoadChangesNothingIff` | README.md:207-209 | The exact condition of the promise, for a file in which no packet id occurs twice: a second load changes nothing, in packets and runs, if and only if every packet id it offers survived the first load, or it has more packets than the ring can hold and the ring holds its last ones after the first load. |
| `SessionFiles.SecondLoadOfAnyFile` | README.md:207-209 | For any file at all: if and only if the second load adds nothing, or adds at least as many packets as the ring holds and the last of them are the ring. |
| `SessionFiles.SessionRoundTrip` | wireglass-app/src/main/java/com/wireglass/listview/web/SessionController.java:41-71 | Export, clear, import with distinct non-null ids and enough room: the ring comes back exactly with nothing skipped, the index comes back exactly if and only if it agreed with the ring, every run comes back with only `restored` set, and the run list comes back exactly reversed. |
| `SessionFiles.TwoRoundTripsRestoreTheOrder` | wireglass-app/src/main/java/com/wireglass/listview/web/SessionController.java:41-71 | Two round trips list the runs in their first order again and leave the packets alone. |
| `PacketBus.InvHolds` | wireglass-app/src/main/java/com/wireglass/listview/capture/PacketBus.java:22-36 | In every interleaving the store is the window of the accepted packets, and every packet accepted after a subscriber read the store has been handed to it or is still on its way to it. |
| `PacketBus.LosslessHandover` | wireglass-app/src/main/java/com/wireglass/listview/capture/PacketBus.java:22-36 | In every interleaving of publishers, subscribers, imports and clears, a consumer that subscribes and then reads the store misses nothing: a packet whose publish is done was gone from the store before the read, stands at its place in the snapshot, or was delivered live. |
| `PacketBus.ReadingWindow` | wireglass-app/src/main/java/com/wireglass/listview/capture/PacketBus.java:22-36 | What such a read returns: everything since the last clear, or the last `capacity` packets accepted. |
| `PacketBus.DeliveryReachesAll` | wireglass-app/src/main/java/com/wireglass/listview/capture/PacketBus.java:24-30 | A publish calls every subscriber of the list it took, whichever of them threw. |
| `PacketBus.PublishAlone` | wireglass-app/src/main/java/com/wireglass/listview/capture/PacketBus.java:22-31 | A publish that is not interfered with adds its packet to the ring, evicting from the old end, and hands it to exactly the subscribers of that moment, whichever of them throws. |
| `PacketBus.ReadingAfterReset` | wireglass-app/src/main/java/com/wireglass/listview/store/PacketRepository.java:43-107 | A consumer that reads right after a clear finds nothing, and right after an import exactly what the import left. |
| `PacketBus.SubscribedStays` | wireglass-app/src/main/java/com/wireglass/listview/capture/PacketBus.java:33-34 | A new consumer goes to the end of the list, and in every continuation is on it until it unsubscribes. |
| `PacketBus.UnsubscribedIsLeftAlone` | wireglass-app/src/main/java/com/wireglass/listview/capture/PacketBus.java:33-36 | Unsubscribing takes exactly that consumer off the list, the others keep their order, and in every continuation it stays off and is never handed a packet accepted from then on. |
| `RunLifecycle.ExactlyOneWins` | wireglass-app/src/main/java/com/wireglass/listview/capture/TestRunService.java:99-126 | In every interleaving of the worker's end and any number of stop calls, as soon as one caller has come through the remove, exactly one caller has won it and no other goes on. |
| `RunLifecycle.TerminalStatusIsFinal` | wireglass-app/src/main/java/com/wireglass/listview/capture/TestRunService.java:99-111 | A recorded status is terminal, and no continuation changes it. |
| `RunLifecycle.NullPollOverlapsFinish` | wireglass-app/src/main/java/com/wireglass/listview/capture/TestRunService.java:128-135 | A poll of a started run that comes back with nothing overlapped its finish: the remove came before its last read and the status was not stored before its first. |
| `RunLifecycle.QuietFinishSettlesTheSummary` | wireglass-app/src/main/java/com/wireglass/listview/capture/TestRunService.java:99-111 | If no publish is inside the counter at some moment between the unsubscribe and the reading of the counters, then in every continuation the summary after the winner's return is the recorded status: the winner's terminal state, as many captured packets as publishes took the list while the counter was on it, and as many errors as failed ones among them. |
| `RunLifecycle.PublisherInsideCanUnsettle` | wireglass-app/src/main/java/com/wireglass/listview/capture/TestRunService.java:60-111 | If a publish is inside at such a moment, wherever it stands, the run can go on so that the summary of the finished run shows RUNNING. |
| `RunLifecycle.SummarySettlesIff` | wireglass-app/src/main/java/com/wireglass/listview/capture/TestRunService.java:99-111 | The exact condition: from such a moment on every continuation ends with the recorded status in the summary if and only if no publish is inside the counter at that moment. |
| `RunLifecycle.FinishedRunCanShowRunning` | wireglass-app/src/main/java/com/wireglass/listview/capture/TestRunService.java:60-73 | A run from the very start that writes RUNNING into the summary of a run that has finished. |
| `RunLifecycle.RunsAreIndependent` | wireglass-app/src/main/java/com/wireglass/listview/capture/TestRunService.java:45-46 | In a service with any number of runs each run goes through exactly the steps made on it, so the laws of one run hold of all. |
| `RunLifecycle.CountersAreThePublishes` | wireglass-app/src/main/java/com/wireglass/listview/capture/TestRunService.java:63-72 | In every interleaving the counters are the publishes, and the failed publishes, that took the subscriber list while the counter was on it, less those that are still before their increment. |
| `RunLifecycle.PublishAlone` | wireglass-app/src/main/java/com/wireglass/listview/capture/TestRunService.java:63-72 | A publish to a subscribed counter counts the packet, counts it as an error exactly if it failed, and writes both counts into the RUNNING summary. |
| `RunLifecycle.FinishAlone` | wireglass-app/src/main/java/com/wireglass/listview/capture/TestRunService.java:99-111 | A finish of an active run unsubscribes the counter and leaves its state and counts both as the recorded status and as the summary; one of a run no longer active changes nothing. |
| `RunLifecycle.WorkerAlone` | wireglass-app/src/main/java/com/wireglass/listview/capture/TestRunService.java:86-97 | The end of a submitted plan is recorded as the state it ended in, with the counts. |
| `RunLifecycle.StopAlone` | wireglass-app/src/main/java/com/wireglass/listview/capture/TestRunService.java:113-126 | A stop records STOPPED for an active run whose task is known, fails on one whose task is not yet known, and refuses a run no longer active. |
| `RunLifecycle.PollAlone` | wireglass-app/src/main/java/com/wireglass/listview/capture/TestRunService.java:128-135 | A poll answers with the recorded status, or else with the counts of an active run as RUNNING, or else with nothing. |
| `Ingestion.InvHolds` | wireglass-app/src/main/java/com/wireglass/listview/web/IngestionWebSocketHandler.java:51-142 | While no run is claimed by two sessions (remembered by an open one, or still to be finished by a closing one), what a session read before its write is still what is stored, in every interleaving. |
| `Ingestion.CountsMatchTouches` | wireglass-app/src/main/java/com/wireglass/listview/web/IngestionWebSocketHandler.java:106-142 | While no run is claimed by two sessions, each run's captured and error counts are the packets and failed packets it was touched with, and it is RUNNING, without an end, exactly when a packet followed its last close. |
| `Ingestion.StartIsKept` | wireglass-app/src/main/java/com/wireglass/listview/web/IngestionWebSocketHandler.java:106-142 | While no run is claimed by two sessions, a run keeps the time of its first packet in every continuation, also when it goes on after a close. |
| `Ingestion.CountsMatchPublished` | wireglass-app/src/main/java/com/wireglass/listview/web/IngestionWebSocketHandler.java:51-66 | While no run is claimed by two sessions, and whenever no counted message is still to be published, each run's counts are the packets and failed packets the handler has published for it. |
| `Ingestion.EveryPacketHasItsRun` | wireglass-app/src/main/java/com/wireglass/listview/web/IngestionWebSocketHandler.java:86-104 | In every interleaving every published packet has a run, and one that came without has its session's fallback. |
| `Ingestion.RunlessPacketsShareOneRun` | wireglass-app/src/main/java/com/wireglass/listview/web/IngestionWebSocketHandler.java:86-98 | All packets that one session sent without a run went to one and the same run. |
| `Ingestion.MessageAlone` | wireglass-app/src/main/java/com/wireglass/listview/web/IngestionWebSocketHandler.java:52-123 | A packet message that is not interfered with is published with only its run filled in, counted once in that run's summary and as an error exactly if it failed, with the first packet's time kept; nothing else changes, and a blank or malformed message changes nothing. |
| `Ingestion.CloseAlone` | wireglass-app/src/main/java/com/wireglass/listview/web/IngestionWebSocketHandler.java:74-142 | A close that is not interfered with finishes every run that the session remembers and that has a summary, changing only its state and its end, and touches no other run. |
| `IngestionSharing.CountsStayRightIff` | wireglass-app/src/main/java/com/wireglass/listview/web/IngestionWebSocketHandler.java:51-142 | The exact condition, from any history up to which no run was claimed twice: if the sessions go on with packets of the runs they have, no interleaving can lose a count if and only if no run is claimed by two sessions now. |
| `IngestionSharing.SharedClaimCanLoseACount` | wireglass-app/src/main/java/com/wireglass/listview/web/IngestionWebSocketHandler.java:73-142 | While one session has in hand a packet of a run that another claims, a count can be lost, whatever the other is doing: idle, in the middle of a message, or closing. |
| `IngestionSharing.TwoOpenSessionsCanLoseACount` | wireglass-app/src/main/java/com/wireglass/listview/web/IngestionWebSocketHandler.java:106-123 | Any two open idle sessions, after any history without sharing, can lose a count of any run: both packets are published and one is counted. |
| `IngestionSharing.SharedRunLosesACount` | wireglass-app/src/main/java/com/wireglass/listview/web/IngestionWebSocketHandler.java:106-123 | In particular two sessions that have just connected. |
| `TrafficStream.InvHolds` | wireglass-app/src/main/java/com/wireglass/listview/web/TrafficStreamController.java:31-75 | What every interleaving of callbacks, completion, timeout and error keeps: one winner of the compare-and-set, counts that say how far it has come, and sends that began before the close. |
| `TrafficStream.ClosedAtMostOnce` | wireglass-app/src/main/java/com/wireglass/listview/web/TrafficStreamController.java:63-75 | The stream is unsubscribed at most once and completed at most once. |
| `TrafficStream.NoSendAfterClose` | wireglass-app/src/main/java/com/wireglass/listview/web/TrafficStreamController.java:36-39 | Whatever was sent was sent by a callback that began before `closed` was set. |
| `TrafficStream.StillSubscribedIffEarlyCallbackWon` | wireglass-app/src/main/java/com/wireglass/listview/web/TrafficStreamController.java:31-75 | When the winner is done the stream is completed, and still subscribed if and only if the winner was a failing callback that ran before the reference to the subscription was set. |
| `TrafficStream.EarlyWinLeavesItSubscribed` | wireglass-app/src/main/java/com/wireglass/listview/web/TrafficStreamController.java:63-75 | In that case nothing that happens later unsubscribes it. |
| `TrafficStream.LateFailuresUnsubscribe` | wireglass-app/src/main/java/com/wireglass/listview/web/TrafficStreamController.java:31-75 | If a send can fail only after the stream has been set up, the stream is always unsubscribed and completed when the winner is done. |
| `TrafficStream.EarlyCallbackCanWin` | wireglass-app/src/main/java/com/wireglass/listview/web/TrafficStreamController.java:36-53 | If a send can fail while the stream is still being set up, that case is reachable. |
| `TrafficStream.SetUpAlone` | wireglass-app/src/main/java/com/wireglass/listview/web/TrafficStreamController.java:32-60 | A stream that is set up is subscribed, has its reference set, and listens for the container's events. |
| `TrafficStream.SendAlone` | wireglass-app/src/main/java/com/wireglass/listview/web/TrafficStreamController.java:36-43 | A callback on an open stream sends its packet, on a closed one nothing; either way it is done and closes nothing. |
| `TrafficStream.FailedSendCloses` | wireglass-app/src/main/java/com/wireglass/listview/web/TrafficStreamController.java:40-75 | A failing send closes an open stream: completed, and unsubscribed exactly if the reference was set. |
| `TrafficStream.EventCloses` | wireglass-app/src/main/java/com/wireglass/listview/web/TrafficStreamController.java:54-75 | A completion, timeout or error closes an open stream: unsubscribed and completed. |
| `RemoteConfig.MergeById` | wireglass-app/src/main/java/com/wireglass/listview/capture/RemoteConfigService.java:109-114 | The two loops over the map give the merged list that the precedence and order laws are about. |
| `RemoteConfig.Load` | wireglass-app/src/main/java/com/wireglass/listview/capture/RemoteConfigService.java:52-101 | The list holds exactly the rules that the two files come to, field by field: an id's last local rule whose five parts are there and not blank, or, where there is none, the first such rule of a remote file of version 1, each with only its origin filled in; one for each id, in the order of first mention. |
| `RemoteConfig.MergePrecedence` | wireglass-app/src/main/java/com/wireglass/listview/capture/RemoteConfigService.java:109-114 | Each id occurs at most once in the merged list, and stands for the last local rule of that id, or else the first remote one. |
| `RemoteConfig.OriginTells` | wireglass-app/src/main/java/com/wireglass/listview/capture/RemoteConfigService.java:103-114 | A rule in the merged list says that it is local exactly when the local file has a usable rule of its id, and otherwise that it is remote. |
| `RemoteConfig.MergeOrder` | wireglass-app/src/main/java/com/wireglass/listview/capture/RemoteConfigService.java:109-114 | The merged list holds the ids in the order in which the local and then the remote file first mentions them. |
| `RemoteConfig.MergedIsListed` | wireglass-app/src/main/java/com/wireglass/listview/capture/RemoteConfigService.java:52-114 | A rule is in the merged map if and only if the two files come to it in that way. |
| `SchemaRules.EffectiveResolves` | wireglass-app/src/main/resources/static/app.js:203-229 | Among the derived rules an enabled id on offer has exactly one entry, the rule of the most recently loaded URL source that offers it, or else the server's, with the local edit on top; a disabled id has none. |
| `SchemaRules.EffectiveInForce` | wireglass-app/src/main/resources/static/app.js:203-229 | The rules in force, in full: the enabled ids on offer in the order of first mention, each once as the rule it stands for with the edit's fields, and after them exactly the user's own rules, all of them in their order. |
| `SchemaRules.ResolveMeans` | wireglass-app/src/main/resources/static/app.js:203-211 | The rule an id stands for is the last of that id in the latest source that offers it, or, if no source does, the last of the server's. |
| `SchemaRules.FilePrecedence` | wireglass-app/src/main/resources/static/app.js:255-274 | From the files to the page: without a URL source an id stands for the local file's rule, or else the remote file's, provided the page accepts that rule; if not, nothing takes its place. |
| `SchemaRules.LoadedSourceWins` | wireglass-app/src/main/resources/static/app.js:319-335 | The source loaded last decides every id it offers and leaves the others as they resolve without its former rules. |
| `SchemaRules.RemovalKeepsOthers` | wireglass-app/src/main/resources/static/app.js:2029-2033 | Removing a source leaves every id it does not offer as it was. |
| `SchemaRules.SameEditShows` | wireglass-app/src/main/resources/static/app.js:213-229 | Whatever sources now offer an edited, enabled rule, its one entry has the edit's fields and the offering source's identity. |
| `SchemaRules.ResetRestoresSourceIff` | wireglass-app/src/main/resources/static/app.js:1980-1988 | Reset gives what the sources alone say if and only if the id is not one of the names every JavaScript object answers to. |
| `RuleEdits.ChangeHasItsEffect` | wireglass-app/src/main/resources/static/app.js:1929-2033 | What each change of the rules does, field by field, and that it does nothing else: a toggle, an answer of the server or of a URL (with the page's conditions on a rule and the fields it takes), a removal, an edit of a user's or of a derived rule, a new rule, a reset, a deletion. |
| `BrowserApp.App.constructor` | wireglass-app/src/main/resources/static/app.js:3-38 | A page starts coherent, with an empty table that is right. |
| `BrowserApp.App.ComputeValidation` | wireglass-app/src/main/resources/static/app.js:1655-1667 | The loop over the rules in force gives the results that the marks are about, and for each body all its findings, none of which lacks the path it is marked by. |
| `BrowserApp.App.ValidatePacket` | wireglass-app/src/main/resources/static/app.js:1645-1653 | For every listed packet, memoised or not, the answer is the validation computed from the rules derived now. |
| `BrowserApp.App.DetectLangCached` | wireglass-app/src/main/resources/static/app.js:859-867 | For every listed packet, memoised or not, the answer is the language detected from its own body. |
| `BrowserApp.App.AppendRow` | wireglass-app/src/main/resources/static/app.js:500-541 | One row more, numbered after the last, with the mark of the packet's current validation. |
| `BrowserApp.App.RebuildList` | wireglass-app/src/main/resources/static/app.js:2518-2528 | From any coherent state the loop leaves exactly the table of a full rebuild. |
| `BrowserApp.App.AddPacket` | wireglass-app/src/main/resources/static/app.js:370-413 | A repeated id changes nothing. Any other packet is added behind those held, as it is but for a missing run, which becomes the active one or else the selected one, and its id is seen; and a right table stays right, at once without a sort, or by the rebuild then scheduled. |
| `BrowserApp.App.FrameFires` | wireglass-app/src/main/resources/static/app.js:408-413 | When the pending frame fires, the table is the full rebuild. |
| `BrowserApp.App.ChangeFilter` | wireglass-app/src/main/resources/static/app.js:2408 | A filter change leaves the full rebuild under the new filter. |
| `BrowserApp.App.ToggleSort` | wireglass-app/src/main/resources/static/app.js:2554-2561 | A column goes through ascending, descending and off, and the table is the full rebuild each time. |
| `BrowserApp.App.UseInputs` | wireglass-app/src/main/resources/static/app.js:223-245 | After any change to what the rules derive from, the rules in force are those that the sources, edits, switches and the user's own rules come to, and memo and table follow. |
| `BrowserApp.App.LoadSchemaRulesFromUrl` | wireglass-app/src/main/resources/static/app.js:319-335 | Succeeds exactly for a readable document of version 1 with a usable rule, and then puts it last; otherwise changes nothing at all. |
| `BrowserApp.App.Clear` | wireglass-app/src/main/resources/static/app.js:1806-1822 | Nothing is held or remembered, and the empty table is right. |
| `BrowserApp.App.SelectRun` | wireglass-app/src/main/resources/static/app.js:471-479 | The table is emptied at once; coherence is kept while the packets are fetched. |
| `BrowserApp.App.AfterStart` | wireglass-app/src/main/resources/static/app.js:2306-2313 | The run becomes active and selected, and takes exactly the packets without one; nothing remembered becomes wrong by it. |
| `BrowserApp.App.ForgetActive` | wireglass-app/src/main/resources/static/app.js:2335 | A run that has ended is active no longer. |
| `BrowserApp.App.HistoryAnswered` | wireglass-app/src/main/resources/static/app.js:423-426 | Packets, seen ids and memo are dropped together. |
| `BrowserApp.App.HistoryRead` | wireglass-app/src/main/resources/static/app.js:427-431 | From any coherent state, whatever arrived live in between: the page holds what has arrived with the answer, in order and the first of each id, and the table is the full rebuild. |
| `BrowserApp.App.ChangeRules` | wireglass-app/src/main/resources/static/app.js:1929-2033 | Every handler of the rule panel, and every answer, changes the inputs of its own kind and no others, keeps the page coherent, and leaves a right table; only a rule file from a URL can be turned away. |
| `BrowserApp.App.Handle` | wireglass-app/src/main/resources/static/app.js:370-479 | Every event keeps the page coherent, keeps or restores the right table unless it is one of the three that leave it behind, and moves the rule inputs only if it is a rule event. |
| `BrowserApp.RunPage` | wireglass-app/src/main/resources/static/app.js:223-541 | Over every sequence of events: the page holds the packets that came in, live or in an answer, since everything was last dropped, the first of each id, in their order; seen is their ids; the rules in force are what the inputs come to; everything remembered is what would be computed now; the table is a full rebuild's (or one is pending) whenever the last run change or history answer has been followed by something that rebuilds. |
| `BrowserApp.ArrivalsMean` | wireglass-app/src/main/resources/static/app.js:370-431 | A packet has come in since everything was last dropped if and only if some event brought it and no later event dropped all. |
| `HeldPackets.HeldMeans` | wireglass-app/src/main/resources/static/app.js:370-382 | Every id that came in is held, and every packet held is the first that came in with its id, in every field but a run it lacked. |
| `HeldPackets.ArrivalHeld` | wireglass-app/src/main/resources/static/app.js:370-382 | One more arrival keeps the packets held those that came in, the first of each id, in order. |
| `BrowserApp.EditsSurviveTheRun` | docs/server-config-format.md:9-14 | Over every sequence of events that does not edit, reset or toggle that very rule, its edit and its disabled state survive all reloads, refreshes and removals. |
| `BrowserModel.SeenIsHeld` | wireglass-app/src/main/resources/static/app.js:370-379 | In a coherent page an id is seen exactly if a held packet has it, and no two held packets share one. |
| `BrowserModel.EntryOf` | wireglass-app/src/main/resources/static/app.js:1636-1653 | In a coherent page the memo of every listed packet is right, entry by entry. |
| `BrowserModel.AppendIsRebuild` | wireglass-app/src/main/resources/static/app.js:390-397 | Without a sort, one appended row for a visible matching packet gives the table that a rebuild with that packet gives. |
| `BrowserModel.HiddenPacketChangesNothing` | wireglass-app/src/main/resources/static/app.js:386-397 | A packet of another run, or one the filter rejects, changes the rebuilt table of no order. |
| `BrowserModel.RulesReplaced` | wireglass-app/src/main/resources/static/app.js:223-229 | Bumping the version makes every remembered validation stale, and no remembered language wrong. |
| `BrowserModel.StampedEntries` | wireglass-app/src/main/resources/static/app.js:2309-2313 | Giving packets a run leaves everything remembered of them right. |
| `BrowserModel.EveryFindingHasAPath` | wireglass-app/src/main/resources/static/app.js:1664 | No finding of a body is dropped from the marks for want of a path. |
| `BrowserLaws.MarkMeans` | wireglass-app/src/main/resources/static/app.js:505-515 | A row is unmarked exactly when no rule applies to its packet, and marked as failed exactly when some applying rule finds its body missing, not JSON, or not satisfying the schema. |
| `BrowserLaws.ValidateMeans` | wireglass-app/src/main/resources/static/app.js:1655-1678 | A packet's validation has one result for each rule whose pattern matches, in the order of the rules, with the findings of the body the rule is about; the marks of each body are the findings of the rules about it. |
| `BrowserLaws.OrderedIsStable` | wireglass-app/src/main/resources/static/app.js:2518-2541 | Under any sort, upwards or downwards, the rows' ranks never fall, and the packets of each rank stay in the order in which they came. |
| `BrowserLaws.RankMeans` | wireglass-app/src/main/resources/static/app.js:2530-2542 | What each column sorts by. |
| `BrowserLaws.TableMeans` | wireglass-app/src/main/resources/static/app.js:2518-2528 | Consecutive numbers, and rows for exactly the held packets of the selected run that pass every facet of the filter that is set, one for each. |
| `BrowserLaws.LanguageMeans` | wireglass-app/src/main/resources/static/app.js:869-884 | A body of at most 204800 code units is shown as JSON exactly if it begins with a brace or bracket and parses, and as XML, re-indented, exactly if it begins with an angle bracket; any other is shown as it is. |
| `StableSort.SortIsStable` | wireglass-app/src/main/resources/static/app.js:2522-2523 | The sort is sorted by rank and keeps the order within each rank. |
| `StableSort.StableSortIsUnique` | wireglass-app/src/main/resources/static/app.js:2522-2523 | There is only one such arrangement, so any stable sort gives the table modelled here. |
| `SchemaValidator.ValidatorSound` | wireglass-app/src/main/resources/static/app.js:1680-1736 | For every value and schema, at any path, the validator reports no errors if and only if the value satisfies the declarative relation for type, enum, lengths, bounds, required, properties, additionalProperties and items. Which errors it reports is said by `SchemaViolations.ErrorsAreTheViolations`. |
| `SchemaValidator.PropertiesSound` | wireglass-app/src/main/resources/static/app.js:1707-1711 | The errors below `properties` are none exactly when every present declared field satisfies its schema. |
| `SchemaValidator.ItemsSound` | wireglass-app/src/main/resources/static/app.js:1720-1722 | The errors below `items` are none exactly when every element satisfies the schema. |
| `SchemaViolations.ErrorsAreTheViolations` | wireglass-app/src/main/resources/static/app.js:1680-1736 | The validator reports exactly the violations: an error is among those reported if and only if its path is printed from parts at whose end the schema is violated in the way it says, a relation defined on the fields of value and schema alone; so no violation stops the search for others, except that a value of a wrong type violates nothing else. |
| `SchemaViolations.ViolationIsReported` | wireglass-app/src/main/resources/static/app.js:1680-1736 | Every violation, at any depth, is reported under the path of its parts and as the kind it is. |
| `SchemaViolations.ReportIsViolation` | wireglass-app/src/main/resources/static/app.js:1680-1736 | For every error reported there are such parts. |
| `SchemaViolations.ErrorsByParts` | wireglass-app/src/main/resources/static/app.js:1680-1736 | Where all keys on the way to violations fit the path grammar, an error stands at given parts if and only if the schema is violated at these very parts. |
| `ErrorsOnce.NoErrorTwice` | wireglass-app/src/main/resources/static/app.js:1680-1736 | No violation is reported twice: no two reported errors agree in path and kind, provided that no object and no `required` list has a key twice and that no key has a dot or a bracket in it. |
| `JsonPath.JsonPathParts` | wireglass-app/src/main/resources/static/app.js:958-967 | The scanning loop gives the parts that the inversion law is about. |
| `JsonPath.PartsInvertPrintIff` | wireglass-app/src/main/resources/static/app.js:958-967 | A path comes back as the parts it was printed from if and only if every key is a name of ASCII letters, digits, underscores, dollar signs and hyphens that starts with neither digit nor hyphen. |
| `JsonPath.ErrorLocated` | wireglass-app/src/main/resources/static/app.js:1680-1724 | Every error lies where its own path says: the parts lead to an existing node, or for a missing field to an existing object that lacks exactly the last key. |
| `JsonPath.EveryErrorIsLocatable` | wireglass-app/src/main/resources/static/app.js:927-967 | For a whole document: the scanner recovers exactly those parts if and only if their keys fit the grammar, and then the path cut off for the marker is that of the object lacking the field. |
| `JsonPath.CutAtLastKey` | wireglass-app/src/main/resources/static/app.js:927-931 | Cutting a dot and the last key off a path leaves the parent's path. |
| `PrettyXml.PrettyXml` | wireglass-app/src/main/resources/static/app.js:836-852 | The loop over the lines, with its running depth, gives the layout that the laws are about. |
| `PrettyXmlLaws.PrettyKeepsContent` | wireglass-app/src/main/resources/static/app.js:836-852 | On every string the sequence of characters other than white space is unchanged. |
| `PrettyXmlLaws.PrettyIsIdempotent` | wireglass-app/src/main/resources/static/app.js:836-852 | On every string a second application changes nothing. |
| `PrettyXmlLaws.ReadBack` | wireglass-app/src/main/resources/static/app.js:837-850 | Lines that have been laid out are read back as the lines they were, at whatever depth. |
| `XmlTree.PrettyShowsTreeDepth` | wireglass-app/src/main/resources/static/app.js:836-851 | A document printed from element trees, with any white space around its pieces and lines of text among them, comes out with each piece and each line of text on its own line, indented by two spaces times its tree depth; the running depth returns to 0 and the clamp never fires. |
| `XmlTree.TreeLaysOut` | wireglass-app/src/main/resources/static/app.js:839-851 | The same for one tree at any depth: it ends at the depth at which it began. |
| `XmlTree.LineMovesDepth` | wireglass-app/src/main/resources/static/app.js:843-849 | How any one line moves the depth, as patterns of the line: a closing tag stands one level out; what follows a tag that is neither closing nor self-closing, nor a comment or instruction, nor closed again at the end of its line, stands one level in; no other line, such as one of text, moves anything. |
| `HexDump.HexDump` | wireglass-client/src/main/java/com/wireglass/listview/client/protocol/PacketPayload.java:60-79 | The nested loops give the dump that the reader takes apart, and fail exactly when four times the shortened length is negative as a 32-bit int. |
| `HexDump.HexDumpReadsBack` | wireglass-client/src/main/java/com/wireglass/listview/client/protocol/PacketPayload.java:60-79 | For all bytes and lengths: a reader of the hex cells recovers exactly the first `len` bytes, there is one line for every 16 bytes or part of them, and line `k` starts with offset `16 k`. |
| `HexDump.LineReads` | wireglass-client/src/main/java/com/wireglass/listview/client/protocol/PacketPayload.java:63-74 | Each line alone reads back as its up to 16 bytes. |
| `HexDump.OffsetReads` | wireglass-client/src/main/java/com/wireglass/listview/client/protocol/PacketPayload.java:64 | An offset reads back as its number also past four digits. |
| `HexDump.GutterShows` | wireglass-client/src/main/java/com/wireglass/listview/client/protocol/PacketPayload.java:70-73 | Beside the cells stands the byte itself when it is printable ASCII and a dot otherwise. |
| `HexDump.LineLooks` | wireglass-client/src/main/java/com/wireglass/listview/client/protocol/PacketPayload.java:63-75 | The columns of every line: offset, two blanks, sixteen cells of two upper-case digits and a blank, left blank past the end, a blank, and the characters. |
| `HexDump.OffsetDigits` | wireglass-client/src/main/java/com/wireglass/listview/client/protocol/PacketPayload.java:64 | An offset has four digits as long as they are enough, and then no leading zero. |
| `Utf8Text.LooksLikeText` | wireglass-client/src/main/java/com/wireglass/listview/client/protocol/PacketPayload.java:86-110 | The loop answers yes exactly when the first 8192 bytes are the UTF-8 encoding of some characters without ISO controls but tab, LF and CR. |
| `Utf8Text.DecodesWhatWasEncoded` | wireglass-client/src/main/java/com/wireglass/listview/client/protocol/PacketPayload.java:91-98 | The strict decoder gives back the characters of everything that was encoded. |
| `Utf8Text.AcceptsOnlyEncoded` | wireglass-client/src/main/java/com/wireglass/listview/client/protocol/PacketPayload.java:91-98 | The strict decoder accepts nothing else. |
| `Utf8Text.LongTextLooksLikeTextIffBoundary` | wireglass-client/src/main/java/com/wireglass/listview/client/protocol/PacketPayload.java:90-95 | Control-free text longer than 8192 bytes looks like text if and only if byte 8192 is a character boundary. |
| `Utf8Text.TextIffDecodedAllowed` | wireglass-client/src/main/java/com/wireglass/listview/client/protocol/PacketPayload.java:91-108 | Bytes are the encoding of control-free characters exactly when the strict decoder accepts them and no decoded code unit is a refused control. |

## Left out

- PacketBus, TestRunService, IngestionWebSocketHandler and TrafficStreamController are step systems over values, not classes: what matters about them is the interleaving of threads, which a method body does not show. Callbacks, a subscriber that throws, and the engine of a run are steps that may happen at any time.
- Ingestion.CountsMatchTouches: other writers of summaries (imports, clears, internal runs) are not part of the ingestion model.
- SessionFiles.SecondLoadChangesNothingIff: speaks of stores whose index agrees with the ring, as it does unless a live packet reuses an id that is in the ring. For files that repeat an id the exact condition is that of `SessionFiles.SecondLoadOfAnyFile`, in terms of the packets that the second load takes.
- TrafficStream.EarlyCallbackCanWin: assumes that a send can fail before the handler has returned, which depends on the server's emitter.
- RunLifecycle.QuietFinishSettlesTheSummary: says nothing about imports, clears or ingestion writing to the summary of an internal run. That the executor has one thread is not used: the worker may end at any time after it was submitted. Run ids are never reused.
- PacketBus.LosslessHandover: a subscriber subscribes once; a new subscription is a new subscriber. Errors that are not runtime exceptions, which the bus does not catch, are not modelled.
- BrowserApp.RunPage: does not say that no live packet is lost. A packet that arrives between the server's answer and the page's reset is dropped by the reset, and a failure while the answer is being read leaves the table behind until something rebuilds it.
- BrowserApp.App.ChangeRules: dashboard links, which are merged and disabled in the same way, are left out, as are config fields that are not strings and the random ids given to rules without one (a new id is a parameter).
- BrowserModel.SeenIsHeld: packets without an id, which the page would hold without marking them as seen, are not modelled; the server gives every packet an id.
- BrowserApp.App.AppendRow: a row is its packet's id, number and mark; markup, waterfalls, counts, run chips, translations and the detail pane's contents are left out.
- BrowserLaws.OrderedIsStable: dates and words are compared through opaque ranks; words are ranked by real numbers, in which every total preorder of strings can be embedded. Letter case and substring search in the filter, and the matching of URL patterns and of the user's regular expressions, are opaque as well.
- SchemaRules.EffectiveResolves: an override saved under the id `__proto__`, which would become the prototype of the overrides object, is not modelled.
- SchemaValidator.ValidatorSound: numbers are reals, so the rounding of doubles, negative zero and literals that overflow to infinity are left out; messages are reduced to kinds; the conversion of required keys that are not strings and of bounds that are not numbers is opaque. Enum equality, string length in UTF-16 units and arrays passed as schemas follow the code.
- JsonPath.PartsInvertPrintIff: an index is an unbounded number, where the page's numbers lose precision above 2^53. Finding the place of a path in the formatted text is left out.
- XmlTree.PrettyShowsTreeDepth: comments and attribute values that contain angle brackets, tags broken over lines, and lines that begin with a tag and end in text are not in the trees; the laws on all strings cover them, and `XmlTree.LineMovesDepth` says that after such a mixed line the depth is one too many.
- PrettyXml.PrettyXml: strings are sequences of Unicode characters, so lone surrogates are not represented; none of the characters that the code looks at is one.
- HexDump.HexDump: an absent result stands for the exception on a negative capacity; running out of memory is left out.
- Utf8Text.LooksLikeText: the platform's decoder is modelled by a strict decoder that is proved to accept exactly the encoded sequences.
- Network, files, clocks and generated ids are parameters or events; HTTP, WebSocket and SSE transport, JSON parsing, JMeter, and saving to local storage are left out.
- Header and cookie parsing, sample capture, charset and content-type helpers, request defaults and the demo endpoint are short and are left out.
