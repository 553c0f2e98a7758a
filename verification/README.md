# Executor control plane, recording and data-migration proofs

This project models the parts of the recorder whose correctness depends on order, interleaving or exact data
layout, and proves what they keep. `dafny verify dfyconfig.toml` checks everything.

**Slot leases.** The control plane keeps one set of leases in three maps (by slot, by session, by trajectory) and a
per-node count of soft reservations. `SlotLeases` follows the map operations and proves them against a plain set of
leases; `LeaseStores` is the module state updated in place; `NodePicking` is the choice of a node; `OpenSession` is
the reserve / wait / confirm protocol as a state machine with one event per stretch between two awaits, and
`SessionOpeners` is the same protocol as an object working on the lease store, and `Overbooking` says what a purge in
flight leads to.

**Executor link.** `Registry` and `ExecutorRegistries` model which connection owns a node through registration,
socket close, grace timers and immediate detach. `ReplayBuffer` and `WsClients` model the byte-bounded replay buffer of
the executor's client, `Reconnect` and `Connections` its connect / back-off / stop life cycle. `SessionLock` and `SessionManagers`
model the per-session promise chain around attach and close.

**Action log.** `Actions` holds the entries and trimming, `ActionLog` is one recording with `from_record`, `ActionRules`
what a recording skips, removes and stores, read off log and request, `ActionRuns` whole runs and the emitted messages,
`ActionRecorders` the log updated in place. `Coalescing` is the collapsing of neighbours for any key, `Dedup` its
batch use on action files, `DedupKeys` what its keys mean. `ActionRuns` relates the online recorder to the batch one.

**Data.** `HierarchyMerge` and `SessionBackfill` / `BackfillDatabases` are the two migrations, `Rscf` the screencast
frame layout with its packer, its three readers and the broadcast filter, `FrameCache` the last-frame cache,
`StdoutLines` the chunked line splitter with the busy flag, `MessageWindow` the history trimmer with its inline
fallback.

Maps keyed by objects (connections, registry entries, timers, calls) use numbers as references, so a replaced entry
and the one that replaced it stay distinct. Fields declared `ghost` and fields described as history record what
happened and are read by no operation.

## Where a promise does not hold

Each item names the input that breaks the promise and the exact condition under which the code keeps it.

- `confirmLease` replaces every clashing lease unless the clashing one is filed under the empty session id, which no
  release reaches: `EmptySessionBreaksConfirm` is such an input, `ConfirmRefinesExactly` the condition
  (`Confirmable`). Runs whose opens carry session ids never meet it (`LeasesNeverClash`).
- Purging a node zeroes its reservations. With an open in flight there, a one-slot node takes two leases
  (`PurgeInFlightOverbooks`); the counters stay right, and no later interleaving can take the node over its capacity,
  if and only if nobody waits there (`PurgeConservesExactly`, `PurgeOverbooksExactly`).
- An immediate detach removes a live connection's entry; it leaves the owner in place if and only if the node has no
  entry, or its entry has no socket, or that socket has closed (`DropKeepsExactly`).
- A connection that closes while its registration is awaited leaves an entry with a dead socket and no grace timer
  (`LateRegistrationStrands`). The timer of a node whose latest connection has closed is armed if and only if the
  close was for that node and came after the registration (`ClosedNodeExpiresExactly`); a connection that
  registered for a second node, or with node id zero, is the other way to miss it.
- A process exit or a ghost reclaim that hits an attach in flight ends with a bridge on a closed session
  (`ExitDuringAttachLeaksBridge`, a run of five steps); some continuation does so if and only if an attach is in
  flight on the session or, for a reclaim, its bridge is still there (`LossLeaksExactly`).
- `_record_action` compares a new action by its captured xpath but a logged one by its stored xpath, and
  `from_record` (`scripts/models/action.py:341-360`) stores the smart xpath in place of the captured one, fills in
  the full xpath when there is none, and stores no `bu_xpath`. Two clicks captured with both a plain and a smart
  xpath are therefore both logged (`SmartXpathIsNotSettled`), and the log is not the batch one
  (`SmartXpathRunDiffers`). Neighbours stay distinct, whatever the log holds, if and only if the two identities of
  the request agree (`KeepsNoRepeatsExactly`); the online log equals the batch coalescing if and only if, on each
  consecutive pair of unlabelled requests, the captured and the stored path of the second locate the first alike
  (`OnlineEqualsBatchOnPaths`).
- Comments promise that replayed events precede new ones (`executor/ws-client.js:127`). A direct send between the
  open and the registration overtakes the buffer (`DirectSendOvertakes`). Messages leave in the order of submission
  if and only if no direct send meets a filled buffer and no replay hands over a message behind one it leaves
  (`OrderKeptExactly`).
- The hierarchy migration may be interrupted before it drops the old tables. A second attempt then finds every row of
  the first, but moves a trajectory from one function to another (`SecondAttemptMovesTrajectory`); it changes nothing
  if and only if no trajectory names a function whose new row has the old id of another (`SecondAttemptKeepsExactly`).

## Model

| member | source | states |
|---|---|---|
| SlotLeases.SlotKeyInjective | src/executor-slot-lease.js:45-47 | two slots share a key exactly when node and index are the same, whatever characters the node uuid contains |
| SlotLeases.MemberKeys | src/executor-slot-lease.js:15-24 | while the maps agree, a lease is held exactly when its slot, its session and its trajectory each look it up |
| SlotLeases.UniqueKeys | src/executor-slot-lease.js:15-24 | session, slot and trajectory are each a unique key of the lease set |
| SlotLeases.ReleaseSessionRefines | src/executor-slot-lease.js:173-183 | a release removes exactly the session's lease from the set and keeps the maps inverse; an empty session id changes nothing |
| SlotLeases.ReleaseTrajectoryRefines | src/executor-slot-lease.js:190-196 | releasing a trajectory removes exactly its lease, unless that lease has the empty session id |
| SlotLeases.MakeRoomRefines | src/executor-slot-lease.js:144-151 | the three releases inside `confirmLease` remove exactly the clashing leases that have a session id |
| SlotLeases.ConfirmRefinesExactly | src/executor-slot-lease.js:142-166 | `confirmLease` replaces exactly the leases sharing session, slot or trajectory and keeps the maps inverse, if and only if the lease filed under the empty session id is absent, not in the way, or overwritten whole |
| SlotLeases.ConfirmRefines | src/executor-slot-lease.js:142-166 | with non-empty session ids the replacement is always exact and no empty id appears |
| SlotLeases.EmptySessionBreaksConfirm | src/executor-slot-lease.js:142-174 | two leases under the empty session id leave the maps inconsistent |
| SlotLeases.ConfirmCounts | src/executor-slot-lease.js:142-166 | a confirm adds at most one lease to its node and none to any other, for any state of the maps |
| SlotLeases.CountIsLeases | src/executor-slot-lease.js:54-60 | a node's count is the number of leases on it, whatever session or trajectory they carry |
| SlotLeases.ReleaseAllRefines | src/executor-slot-lease.js:203-209 | releasing a list of sessions removes exactly their leases, in any order and with repetitions |
| SlotLeases.ReleaseListed | src/executor-slot-lease.js:206-208 | releasing the sessions of a snapshot of leases removes exactly that snapshot, apart from leases without a session id |
| LeaseStores.LeaseStore.constructor | src/executor-slot-lease.js:15-26 | the module starts with empty maps that agree |
| LeaseStores.LeaseStore.CountHardLeases | src/executor-slot-lease.js:54-60 | the loop answers the number of leases whose node is the given one |
| LeaseStores.LeaseStore.CountInUse | src/executor-slot-lease.js:67-69 | the number of leases on the node plus its reservations |
| LeaseStores.LeaseStore.ReservePending | src/executor-slot-lease.js:76-78 | the node's counter rises by one, other nodes' counters stay |
| LeaseStores.LeaseStore.ReleasePending | src/executor-slot-lease.js:85-89 | a positive counter falls by one and the entry goes at zero; at zero nothing changes |
| LeaseStores.LeaseStore.ReleaseBySession | src/executor-slot-lease.js:173-183 | the maps become the released ones, the lease set loses exactly that session, and the answer says whether it was there |
| LeaseStores.LeaseStore.ReleaseByTrajectory | src/executor-slot-lease.js:190-196 | the maps become those after releasing the session of the trajectory's lease, and the answer says whether there was one to release |
| LeaseStores.LeaseStore.ConfirmLease | src/executor-slot-lease.js:142-166 | the in-place writes leave the replaced set, under the exact condition |
| LeaseStores.LeaseStore.ReleaseByNode | src/executor-slot-lease.js:203-209 | exactly the node's leases with a session id and its reservations go; the answer counts all its leases; an empty node id changes nothing |
| LeaseStores.LeaseStore.Reconcile | src/executor-session-client.js:302-308 | exactly the node's leases whose session id is set and no longer live go, and the answer counts them |
| NodePicking.PickIsSoundAndComplete | src/executor-session-client.js:23-127 | a pick succeeds exactly when an eligible node exists (the preferred one, if named); the node is connected, not draining, has room, and no eligible node sorts before it |
| NodePicking.PickIsLeastLoaded | src/executor-session-client.js:29-119 | read off rows and counts: the picked node is up with a free slot; none has an idle browser that was asked for while the picked one has not; among nodes alike in that none holds fewer sessions, nor as many under an earlier name |
| NodePicking.PickFailsExactly | src/executor-session-client.js:29-82 | a pick fails exactly when no node (or not the preferred one) is connected, up and below its capacity |
| NodePicking.PickReusesIdleBrowser | src/executor-session-client.js:52-119 | an idle browser is reused exactly when asked for and available on an eligible node (the preferred one, if named) |
| NodePicking.PickReportsCause | src/executor-session-client.js:35-76 | a failed pick names its cause: not connected, draining, no free slot, or no executor online |
| OpenSession.StepConserves | src/executor-session-client.js:205-237 | every step keeps each node's counter equal to the number of opens with an unsettled reservation there |
| OpenSession.OnlyReserveRaises | src/executor-slot-lease.js:33-89 | outside a reservation no step raises any node's use count |
| OpenSession.StepKeepsInv | src/executor-session-client.js:182-250 | every step keeps capacity, counters, mutex order and the free place of a pick that has not reserved yet |
| OpenSession.RunsStayWithinCapacity | src/executor-session-client.js:193-249 | over every interleaving without a purge in flight, leases plus reservations never exceed a node's capacity and counters are exact |
| OpenSession.SlotsAndWaitersFit | src/executor-session-client.js:193-249 | in the same runs the slots held on a node and the opens waiting for one never outnumber its capacity |
| OpenSession.LeasesStayWithinCapacity | src/executor-session-client.js:193-249 | with non-empty session ids, the leases on a node and the opens waiting there never outnumber its capacity |
| OpenSession.StepOnLeases | src/executor-slot-lease.js:142-209 | what each step does to the lease set: a close takes the session's lease, a release the trajectory's, a reconcile or purge those of the listed sessions; a confirm adds the open's lease for whatever shares session, slot or trajectory; nothing else changes it |
| OpenSession.StepOnOpens | src/executor-session-client.js:182-237 | a call adds its own open and queues it; every later step changes only one open's phase |
| OpenSession.NothingLeaks | src/executor-session-client.js:205-237 | when every open has settled, no reservation and no mutex entry is left |
| OpenSession.LeasesNeverClash | src/executor-slot-lease.js:142-209 | over every interleaving with non-empty session ids the maps stay inverse and no two leases share a session, slot or trajectory |
| OpenSession.PurgeConservesExactly | src/executor-slot-lease.js:203-205 | a purge keeps the counters right if and only if no open waits on the node |
| OpenSession.PurgeInFlightOverbooks | src/executor-slot-lease.js:203-209 | nine steps with one purge in flight end with two leases on a one-slot node |
| Overbooking.PurgeOverbooksExactly | src/executor-slot-lease.js:203-209 | from every state within capacity, some interleaving after a purge, free of further purges, exceeds the node's capacity if and only if an open waited there |
| SessionOpeners.SessionOpener.constructor | src/executor-session-client.js:182-195 | a fresh store starts within capacity |
| SessionOpeners.SessionOpener.Begin | src/executor-slot-lease.js:33-37 | a call queues on the mutex in arrival order |
| SessionOpeners.SessionOpener.CountAll | src/executor-session-client.js:74-80 | a pick reads the current use count of every connected node |
| SessionOpeners.SessionOpener.PickNode | src/executor-session-client.js:193-204 | inside the mutex the pick sees the present counts, and a chosen node has a free place; a failed pick leaves the mutex |
| SessionOpeners.SessionOpener.ReserveNode | src/executor-session-client.js:205-206 | the reservation is the protocol's reserve step and stays within capacity |
| SessionOpeners.SessionOpener.OnReady | src/executor-session-client.js:219-227 | the open then holds its lease, with its session, trajectory, node and slot; its reservation is undone in the same step, and the node stays within capacity |
| SessionOpeners.SessionOpener.OnFailure | src/executor-session-client.js:236-237 | the error path undoes the reservation once |
| SessionOpeners.SessionOpener.CloseSession | src/executor-session-client.js:334-337 | closing leaves exactly the leases of other sessions and keeps every invariant |
| Registry.AttachKeeps | src/executor-registry.js:25-69 | attaching, rejection of a duplicate process included, keeps every node's ownership and timer invariant |
| Registry.SocketClosedKeeps | src/executor-ws.js:312-326 | a close event, stale ones included, keeps them too |
| Registry.FireKeeps | src/executor-registry.js:86-92 | so does any grace timer that fires |
| Registry.RejectedLeavesOwner | src/executor-registry.js:28-47 | a registration while another process serves the node over an open socket changes nothing but to close its own socket |
| Registry.AcceptedTakesOver | src/executor-registry.js:49-68 | any other registration leaves the node with this connection, id and process, no live timer and no other open socket; other nodes keep theirs |
| Registry.DetachKeepsRecord | src/executor-registry.js:84-92 | a graceful detach takes the socket, arms a timer and keeps id and process; other nodes keep theirs |
| Registry.CloseOutcome | src/executor-ws.js:312-326 | a close event takes the socket of exactly the node its connection last registered for with an id, if no other socket serves it |
| Registry.LatestOpenConnectionOwnsNode | src/executor-registry.js:25-93 | in every run the last attached connection that is still open keeps its node's entry |
| Registry.SocketOrGrace | src/executor-registry.js:84-92 | in every run an entry has no socket exactly when a live grace timer is armed for it, and a node has at most one |
| Registry.DropKeepsExactly | src/executor-registry.js:78-82 | an immediate detach leaves the owner in place if and only if the node has no entry, its entry has no socket, or that socket has closed |
| Registry.ClosedNodeExpiresExactly | src/executor-ws.js:312-326 | in every run an entry whose latest connection has closed has a grace timer armed if and only if the close was for this node and came after the registration |
| Registry.LateRegistrationStrands | src/executor-ws.js:57-65 | a connection that closes while its registration is awaited ends as a dead socket without a timer |
| Registry.ComparisonProtectsReattach | src/executor-registry.js:86-91 | in every run of a registry whose re-attach cancels no timer, the last attached open connection still keeps its entry, and an entry has no socket exactly when a live timer is armed for it |
| Registry.RepeatedDetachNeedsCancel | src/executor-registry.js:84-92 | in a grace period a second detach without cancelling lets the older timer delete the node while the newer runs; with it exactly the newer one ends the period |
| Registry.RepeatedDetachHappens | src/executor-ws.js:312-326 | a run in which a node in its grace period is detached again, by the late close of a replaced connection |
| ExecutorRegistries.ExecutorRegistry.AttachConnection | src/executor-registry.js:25-69 | attaches exactly when no other known process serves the node over an open socket, with the given connection, id and process; a rejection leaves the registry as it was and closes the socket |
| ExecutorRegistries.ExecutorRegistry.Detach | src/executor-registry.js:74-93 | the handler makes exactly the immediate or the graceful detach step |
| ExecutorRegistries.ExecutorRegistry.OnClose | src/executor-ws.js:312-326 | a close keeps the invariant, and every other node's open owner stays |
| ExecutorRegistries.ExecutorRegistry.OnGraceTimer | src/executor-registry.js:86-92 | every live timer that fires expires its node |
| ReplayBuffer.LongestFittingSuffixUnique | executor/ws-client.js:164-173 | the longest fitting suffix of a history is one buffer only |
| ReplayBuffer.EnqueueKeepsLongest | executor/ws-client.js:164-173 | one disconnected send keeps the buffer the longest suffix of the submitted messages that fits, or the last message alone |
| ReplayBuffer.BufferIsLongestFittingSuffix | executor/ws-client.js:155-199 | in every run the buffer is that suffix of everything buffered since the last replay, leftovers first, and the byte counter is its exact size |
| ReplayBuffer.EveryMessageHasOneFate | executor/ws-client.js:155-199 | in every run each submitted message is exactly one of handed over, queued, dropped, refused, thrown back |
| ReplayBuffer.SendFate | executor/ws-client.js:155-175 | which fate a message meets: an open socket takes it or throws it back, a stopping client without one refuses it, else it ends the buffer and only the oldest make room |
| ReplayBuffer.FlushFate | executor/ws-client.js:181-196 | a replay hands over exactly the messages the open socket takes and keeps exactly the others |
| ReplayBuffer.StepOnSocket | executor/ws-client.js:78-107 | socket and stop events change the socket or the flag and no message |
| ReplayBuffer.ReplayKeepsOrder | executor/ws-client.js:186-193 | one replay sends in buffer order and leaves failures in their order |
| ReplayBuffer.OrderKeptExactly | executor/ws-client.js:155-199 | in every run messages leave in the order of submission, buffered before later ones, if and only if no direct send meets a non-empty buffer and no replay takes a message behind one it leaves |
| ReplayBuffer.StepKeepsOrderExactly | executor/ws-client.js:155-199 | from an ordered state one send, replay, open, close or stop keeps the order if and only if it does not overtake |
| ReplayBuffer.FlushMovesBoundary | executor/ws-client.js:186-193 | a replay that refuses nothing before something it takes only moves the boundary between handed over and waiting |
| ReplayBuffer.DirectSendOvertakes | executor/ws-client.js:82 | a message sent between open and registration precedes the buffered ones |
| WsClients.WsClient.SendMessage | executor/ws-client.js:155-175 | the in-place send is the specified one; it answers false only when stopping, and throws only when the socket does |
| WsClients.WsClient.DropOldest | executor/ws-client.js:164-171 | the overflow loop drops the fewest oldest messages that make room, down to an empty queue |
| WsClients.WsClient.FlushPending | executor/ws-client.js:181-196 | the in-place replay is the specified one and starts a new history from its leftovers |
| WsClients.WsClient.SumBytes | executor/ws-client.js:195 | the recomputed counter is the byte sum of the queue |
| WsClients.WsClient.OnSocket | executor/ws-client.js:78-107 | the socket event in place keeps the buffer as it is |
| WsClients.WsClient.BeginStop | executor/ws-client.js:317-318 | stopping in place keeps the buffer as it is |
| Reconnect.ClientNeverStalls | executor/ws-client.js:72-113 | in every run a client that is not stopping has either one live socket or one armed reconnect timer, never both; heartbeats run exactly while registered, and the pending delay is the back-off of the closes since the last open |
| Reconnect.StopIsFinal | executor/ws-client.js:317-321 | once stopping, no reconnect timer is armed and no new connection is dialled |
| Reconnect.BackoffBounds | executor/ws-client.js:286-291 | delays never shrink as closes accumulate and stay between the smaller of the two bounds and the upper one |
| Reconnect.BackoffDoubles | executor/ws-client.js:286-291 | the delay starts at the lower bound, doubles with each close, and stays at the upper bound once there |
| Reconnect.StepOnTimers | executor/ws-client.js:71-107 | what each callback does to watchdog, heartbeat and reconnect timer |
| Connections.Connection.constructor | executor/ws-client.js:71-76 | the first `connect` call leaves one dialling socket |
| Connections.Connection.DelayMs | executor/ws-client.js:288-291 | the delay is the capped power of two |
| Connections.Connection.Schedule | executor/ws-client.js:286-300 | scheduling does nothing while stopping or when a timer is armed, else arms one with the current back-off |
| Connections.Connection.OnSocketOpen | executor/ws-client.js:78-83 | an open resets the back-off, clears the watchdog and keeps the invariant |
| Connections.Connection.OnRegisteredMessage | executor/ws-client.js:122-129 | registration starts the heartbeats and keeps the invariant |
| Connections.Connection.OnSocketClose | executor/ws-client.js:95-107 | a close arms watchdog and reconnect timer unless stopping, with the back-off of the closes so far, and keeps the invariant |
| Connections.Connection.OnReconnectTimer | executor/ws-client.js:294-299 | a reconnect timer that fires dials again |
| Connections.Connection.OnWatchdogTimer | executor/ws-client.js:205-214 | a watchdog that fires is disarmed and nothing else changes |
| Connections.Connection.BeginStop | executor/ws-client.js:317-321 | stopping disarms the reconnect timer and the heartbeats |
| SessionLock.BodiesExcludeEachOther | executor/session-manager.js:188-209 | in every run at most one attach or close body of a session runs, in arrival order, and a lock entry exists exactly while someone holds or waits |
| SessionLock.ChainProgresses | executor/session-manager.js:194-199 | while a lock entry exists, some call of its session runs or may enter |
| SessionLock.RunsStayProtected | executor/session-manager.js:219-242 | without a harmful exit or reclaim, every session with a bridge is open, in every run |
| SessionLock.NoAttachLandsOnClosed | executor/session-manager.js:327-375 | in such runs a bridge is registered only while its session is open |
| SessionLock.CloseIsFinal | executor/session-manager.js:219-224 | in every run a close whose slot has shut down ends with its session gone, which stays gone, and without a harmful loss bare of bridges, until it is opened again |
| SessionLock.ClosedRefusesBodies | executor/session-manager.js:327-329 | meanwhile an attach or close of it gives up at its first check and touches neither map |
| SessionLock.StepOnMaps | executor/session-manager.js:219-375 | what each step does to the open sessions and the bridges |
| SessionLock.StepOnPhases | executor/session-manager.js:219-392 | each body goes through its awaits in order, and a stretch moves its own call only |
| SessionLock.OldBridgeIsGone | executor/session-manager.js:333-346 | in every run a session has no bridge while an attach has not registered its own, or while a close runs |
| SessionLock.LossLeaksExactly | executor/session-manager.js:26-45 | after losing a session, some continuation without further harmful losses leaves a bridge on a closed session if and only if an attach is in flight on it or, for a reclaim, it has a bridge |
| SessionLock.ExitDuringAttachLeaksBridge | executor/session-manager.js:26-44 | a run of five steps from the start ends with a bridge on a session that has exited |
| SessionManagers.SessionManager.constructor | executor/session-manager.js:20-55 | the manager starts with empty maps that satisfy the invariants |
| SessionManagers.SessionManager.Queue | executor/session-manager.js:280-285 | a call stores its tail behind the one it found |
| SessionManagers.SessionManager.Release | executor/session-manager.js:202-208 | the `finally` block frees the lock and removes the entry only if no later call has queued |
| SessionManagers.SessionManager.StartBody | executor/session-manager.js:327-346 | a body's first stretch takes the session's bridge away unless it gives up, and keeps the lock and what it protects |
| SessionManagers.SessionManager.ContinueBody | executor/session-manager.js:219-392 | a later stretch registers the bridge of an attach that succeeded, takes away the session of a slot that shut down, changes the two maps in no other way, and keeps the lock and what it protects |
| SessionManagers.SessionManager.OnProcessExit | executor/session-manager.js:26-45 | the exit callback keeps the lock, and the protection exactly when harmless |
| ActionLog.RecordKeepsNoRepeats | scripts/state.py:745-812 | recording a settled request leaves no two neighbours with the same source and identity, date-picker removal included |
| ActionRules.SkippedExactly | scripts/state.py:745-764 | a request is passed over, without touching the log, exactly when it is a manual click right after a manual fill, with the same text or both dates |
| ActionRules.RemovedExactly | scripts/state.py:766-807 | a recorded request first removes a hand-made click on a day, a date or the filled text if it fills in a date, then an entry of the same source on the same element, and reports those ids in that order |
| ActionRules.EntryCarriesRequest | scripts/models/action.py:326-425 | the entry carries the request's id, action, source and parameters less the smart xpath, the element's text for a click without one, and the smart, plain or full xpath in that order |
| ActionRules.DateShape | scripts/state.py:755-781 | a date is four digits, two and two joined by dashes |
| ActionRules.DigitsRead | scripts/state.py:779 | a printed day number is read back as that number |
| Actions.TrimExact | scripts/state.py:677 | trimming cuts white space off both ends and nothing else |
| Actions.TrimUnique | scripts/state.py:677 | only one text is left by such a cut |
| ActionLog.KeepsNoRepeatsExactly | scripts/state.py:788-804 | a request with a fresh id keeps every log free of repeating neighbours if and only if its captured and stored identities agree or its source is never coalesced |
| ActionLog.SmartXpathIsNotSettled | scripts/models/action.py:341-360 | two clicks on one element with different plain and smart xpaths, recorded under their own ids, both stay in the log |
| ActionLog.IdentitiesByPath | scripts/state.py:674-715 | captured and stored identity are both the field label of a labelled field action, else they follow the captured and the stored path |
| ActionRuns.EveryIdIsAccountedFor | scripts/state.py:743-812 | in every run the appended ids are exactly the logged and the reported ones, each as often |
| ActionRuns.LoggedAndReportedAreDisjoint | scripts/state.py:743-812 | with fresh ids no id is both logged and reported, and none is reported twice |
| ActionRuns.RowsFollowLog | scripts/state.py:659-671 | a listener that deletes the reported ids and stores the listed ones holds exactly the final log, in every run |
| ActionRuns.RunsLeaveNoRepeats | scripts/state.py:745-812 | no run of settled requests leaves repeating neighbours |
| ActionRuns.OnlineKeepsUnreplaced | scripts/state.py:787-807 | the log of an agent run is exactly the requests that their successor does not replace, in order |
| ActionRuns.OnlineEqualsBatchExactly | scripts/state.py:787-807 | the online log of an agent run equals the batch coalescing of its raw stream if and only if both decide alike on each consecutive pair |
| ActionRuns.AgreeExactly | scripts/state.py:787-807 | for two identified requests both recorders decide alike if and only if one is a labelled field action or the second's captured and stored paths locate the first alike |
| ActionRuns.OnlineEqualsBatchOnPaths | scripts/state.py:787-807 | an identified agent run leaves the batch coalescing if and only if that holds of each consecutive pair |
| ActionRuns.SmartXpathRunDiffers | scripts/models/action.py:341-360 | a run of two requests with fresh ids whose online log is not the batch coalescing |
| ActionRuns.KeysAgree | scripts/state.py:674-705 | on every stored entry the online recorder identifies, the batch key is the same text |
| ActionRuns.OnlineRefinesBatch | scripts/state.py:674-807 | every settled, identified agent run leaves the batch coalescing of its raw stream, and coalescing it again changes nothing |
| ActionRecorders.ActionRecorder.constructor | scripts/state.py:718-720 | the log starts empty and accounted for |
| ActionRecorders.ActionRecorder.RecordAction | scripts/state.py:718-813 | the in-place recording extends the run, emits the whole log with the removed ids, and is silent exactly for a manual click that repeats what was just filled in |
| ActionRecorders.ActionRecorder.Clear | scripts/state.py:764-804 | the two removals happen in order and report exactly the ids they remove |
| Coalescing.KeepsLastOfEachRun | src/dedup.js:65-77 | for any key, exactly the last entry of each maximal run of equal keys is kept, in order |
| Coalescing.LengthExact | src/dedup.js:65-77 | the result is never longer, and as long as the input exactly when no neighbours had equal keys |
| Coalescing.CoalescesExactly | src/dedup.js:65-77 | a selection of distinct entries is the coalescing exactly when it drops what an equal key follows |
| DedupKeys.SameKeyExactly | src/dedup.js:18-60 | two actions have the same key exactly when they are of one kind and known by the same label, path or text, or are of no kind and agree in action and every parameter |
| Dedup.DeduplicateByXPath | src/dedup.js:65-77 | the overwriting loop computes the coalescing |
| Dedup.FixedExactly | src/dedup.js:65-77 | coalescing changes nothing exactly when no neighbours have equal keys |
| Dedup.Idempotent | src/dedup.js:65-77 | the result has no equal neighbours and is a fixed point |
| Dedup.Compositional | src/dedup.js:65-77 | a prefix may be coalesced before the rest arrives |
| Dedup.ActionFile.Deduplicate | src/dedup.js:84-103 | the file's list becomes its coalescing in the right place, a second call removes nothing, and the counts add up |
| HierarchyMerge.MergePreservesMeaning | migrations/20260716114536_merge_hierarchy_to_system.js:40-121 | a trajectory's new function id names a row with its function's UUID, whose parent has the process's UUID and whose grandparent is the unchanged system |
| HierarchyMerge.MergeOnlyAdds | migrations/20260716114536_merge_hierarchy_to_system.js:43-91 | no existing row changes, and only the listed processes and functions are added |
| HierarchyMerge.NewRowsCarryRecords | migrations/20260716114536_merge_hierarchy_to_system.js:43-91 | every added row carries the listed process or function of its UUID: kind 1 or 2, name, parent, and sort order or 0; every listed UUID has a row |
| HierarchyMerge.FunctionRowsHang | migrations/20260716114536_merge_hierarchy_to_system.js:66-91 | on any tables, an added function row hangs under the row its process is mapped to, and a function without one gets no row |
| HierarchyMerge.TrajectoriesNameRows | migrations/20260716114536_merge_hierarchy_to_system.js:93-112 | a remapped trajectory names a row or no function; it loses an id exactly if that is neither listed nor a row, and keeps an unlisted one that is a row |
| HierarchyMerge.SecondAttemptFindsAll | migrations/20260716114536_merge_hierarchy_to_system.js:43-91 | a second attempt on the migrated table finds every row by its UUID: the table stays and both id maps are the same |
| HierarchyMerge.SecondAttemptKeepsExactly | migrations/20260716114536_merge_hierarchy_to_system.js:40-112 | a second attempt changes nothing if and only if no trajectory names a function whose new row has the old id of another function |
| HierarchyMerge.SecondAttemptMovesTrajectory | migrations/20260716114536_merge_hierarchy_to_system.js:40-112 | well-formed tables on which the second attempt moves a trajectory to another function |
| HierarchyMerge.Database.MoveAndRemap | migrations/20260716114536_merge_hierarchy_to_system.js:40-121 | everything before the drops, in place |
| HierarchyMerge.Database.Up | migrations/20260716114536_merge_hierarchy_to_system.js:35-124 | the migration in place inserts, maps and remaps as specified, changes nothing when both tables are gone, and drops them |
| HierarchyMerge.Database.MoveProcesses | migrations/20260716114536_merge_hierarchy_to_system.js:43-64 | the process loop, reusing rows that already carry the UUID |
| HierarchyMerge.Database.MoveFunctions | migrations/20260716114536_merge_hierarchy_to_system.js:66-91 | the function loop, skipping functions without a mapped process |
| HierarchyMerge.Database.RemapTrajectories | migrations/20260716114536_merge_hierarchy_to_system.js:101-111 | each trajectory is mapped, kept if it already names a unified row, or cleared |
| SessionBackfill.BackfillLinks | migrations/20260811200000_remote_session_grace_until.js:16-59 | afterwards every link points at an active or idle session owned by its trajectory, and no session is shared |
| SessionBackfill.OwnersRespected | migrations/20260811200000_remote_session_grace_until.js:27-46 | existing owners never change, an ownerless session goes to the lowest trajectory that names it, and statuses stay |
| SessionBackfill.SecondPassIsNoOp | migrations/20260811200000_remote_session_grace_until.js:16-59 | repairing twice is repairing once |
| SessionBackfill.LinkKeptExactly | migrations/20260811200000_remote_session_grace_until.js:16-59 | a link survives exactly when its session is occupied and either owned by the trajectory or claimed by it |
| SessionBackfill.LinksAfter | migrations/20260811200000_remote_session_grace_until.js:16-59 | a link to an existing session survives exactly when it is active or idle and owned by the trajectory, or ownerless with the trajectory the first to name it; dangling links stay |
| SessionBackfill.StatusesAfter | migrations/20260811200000_remote_session_grace_until.js:16-26 | no row is added or dropped, unlinked trajectories stay as they are, and a recording's status changes exactly from live to draft, where its link named another trajectory's session |
| SessionBackfill.LinkedMeans | migrations/20260811200000_remote_session_grace_until.js:1-4 | the linked tables are those whose every link is to an active or idle session owned by its trajectory |
| BackfillDatabases.BackfillDatabase.Up | migrations/20260811200000_remote_session_grace_until.js:16-59 | the three loops in place are the specified repair, and leave the tables linked |
| BackfillDatabases.BackfillDatabase.ClearCrossed | migrations/20260811200000_remote_session_grace_until.js:16-25 | the first loop clears exactly the links to sessions of another trajectory and demotes live recordings |
| BackfillDatabases.BackfillDatabase.ClaimHalfEmpty | migrations/20260811200000_remote_session_grace_until.js:27-46 | the second loop with its growing `claimed` set gives each ownerless occupied session to its first row and clears the others |
| BackfillDatabases.BackfillDatabase.ClearStale | migrations/20260811200000_remote_session_grace_until.js:48-58 | the third loop clears exactly the links to closed or crashed sessions |
| Rscf.PackFrame | executor/bib-bridge.js:493-521 | writing the fields into the allocated header builds the packet |
| Rscf.PackParses | executor/bib-bridge.js:513-521 | a packet exists for uuids of 1 to 65535 bytes; every reader recovers what was packed, and the cache takes it exactly when the image is not empty |
| Rscf.PackBytes | executor/bib-bridge.js:516-521 | the packet byte by byte: `RSCF`, frame id and uuid length in big-endian order, uuid, image |
| Rscf.PackInjective | executor/bib-bridge.js:513-521 | two packets are equal exactly when uuid, image and frame id modulo 2^32 are |
| Rscf.ReadersAgree | src/ws-server.js:147-157 | every buffer the cache accepts gives the broadcast filter and the frame parser the same uuid |
| Rscf.CacheTakesExactlyPacked | src/executor-ws.js:274-278 | the cache takes exactly the packed frames with an image, each under the uuid it was packed for |
| Rscf.FilterReadsExactlyPacked | src/ws-server.js:147-157 | the filter reads a non-empty uuid off exactly the packed frames |
| Rscf.ParseRemoteFrameExactly | src/cdp/remote-bridge/index.js:208-216 | what the frame parser makes of any buffer: nothing without header or magic, else the rest cut at the stated length or the buffer's end |
| Rscf.AudienceExactly | src/ws-server.js:168-192 | a buffer goes to the open clients with at most 2 MiB waiting whose `send` succeeds, if they have no subscriptions or it is a packed frame of a subscribed session |
| Rscf.Dashboard.AddBinarySubscription | src/ws-server.js:106-114 | exactly one uuid is added for exactly one client |
| Rscf.Dashboard.ClearBinarySubscriptions | src/ws-server.js:121-123 | exactly one client's subscriptions go |
| Rscf.Dashboard.BroadcastBinary | src/ws-server.js:168-192 | the frame reaches exactly the ready clients without subscriptions or subscribed to its session, and the answer counts them |
| Rscf.SubscribersGetTheirFrames | src/ws-server.js:147-184 | a packed frame passes a client's filter exactly when the client subscribed to its session |
| FrameCache.CacheHoldsLatest16 | src/executor-ws.js:279-284 | for any history the cache is exactly the newest packets of the 16 most recently seen sessions, oldest first |
| FrameCache.CacheAnswersAsHistory | src/executor-ws.js:260-284 | a lookup answers what a backward search through the whole history would |
| FrameCache.CacheFindsRecent | src/executor-ws.js:260-284 | the newest packet of a session is found exactly if fewer than 16 other sessions have been seen since |
| FrameCache.CacheFindsNothingElse | src/executor-ws.js:260-284 | a session without a frame is not found, and at most 16 are held |
| FrameCache.LastFrames.OnBinary | src/executor-ws.js:269-291 | the handler keeps that cache, stores exactly the frames with a uuid and an image, and hands short buffers on |
| FrameCache.LastFrames.GetLastRscfPacket | src/executor-ws.js:260-263 | the lookup is the search through the history; an empty uuid finds nothing |
| StdoutLines.SplitIsExact | executor/session-slot.js:209-211 | lines and tail are the text cut at its newlines and nowhere else |
| StdoutLines.ChunkingIsIrrelevant | executor/session-slot.js:207-211 | however the stream is cut, lines and buffer are those of the whole text |
| StdoutLines.BusyExactly | executor/session-slot.js:225-235 | the flag is set exactly when some starting event is not followed by an ending one |
| StdoutLines.BusyByEvents | executor/session-slot.js:229-234 | the same in the agent's words: busy since the last `phase_start` or `step` not followed by `phase_done`, `done`, `phase_error` or `error` |
| StdoutLines.MessagesExactly | executor/session-slot.js:212-227 | the messages are those of the lines that are not blank, parse and name an event, each behind exactly the earlier ones |
| StdoutLines.SessionStdout.OnStdout | executor/session-slot.js:207-218 | buffer, emitted messages and flag are functions of the text received so far |
| StdoutLines.SessionStdout.HandleLines | executor/session-slot.js:212-217 | blank, unparsable and eventless lines are passed over, the others emitted in order |
| StdoutLines.SessionStdout.HandleAgentMessage | executor/session-slot.js:225-242 | a message with an event is emitted once and moves the flag |
| MessageWindow.CompileMessageWindow | scripts/context_compiler.py:45-89 | kept and dropped partition the messages in order; above the threshold the kept ones are exactly the first, the keepalives, the last `max_recent`, and one predecessor of each tool message among those |
| MessageWindow.PinnedIndices | scripts/context_compiler.py:56-66 | the three rules that keep a message for its own sake |
| MessageWindow.InlineWindow | scripts/agent_utils.py:302-342 | the inline fallback keeps exactly the window of 16, and the dropped count is the rest |
| MessageWindow.GetMessages | scripts/agent_utils.py:269-342 | whether or not the compiler fails, the result is a window, of the budget or of 16 |
| MessageWindow.WindowUnique | scripts/context_compiler.py:45-89 | a list has one window of a given size, so compiled and inline windows of the same size are equal |
| MessageWindow.FallbackAgreesExactly | scripts/agent_utils.py:269-342 | a failing compiler changes no result, on any list, if and only if the budget is 16 |
| MessageWindow.KeepToolPairs | scripts/context_compiler.py:68-75 | the pairing rule reads a snapshot, so it is applied one hop only |

## Left out

- `acquiredAt`, wall-clock time and timer durations: timers are tokens that are armed, cancelled or fired.
- Slot indexes and trajectory ids that are not integers (`Number(...)` may yield `NaN`).
- Empty node uuids in an open: registration ignores them, so the `if (uuid)` guard on the error path is always true.
- `localeCompare`: the collation of node names is a parameter; its numeric ranks stand for any total preorder.
- JSON text, UTF-8 and base64: messages are values or characters, uuids and images are bytes, and the parser of an agent's line is a parameter.
- `strip`, `trim` and `\d` beyond ASCII white space and ASCII digits.
- The fallback key of `elementDedupKey` is the pair of action and parameters, so it never equals a prefixed key by accident of its text; parameters are maps from text to text.
- Stored elements keep only their xpath fields; candidates, regions, page keys, rectangles, phases, results and the trajectory URL are not modelled.
- `updated_at`, timestamps and descriptions of migrated rows, the foreign-key statements around the remapping, and the `down` migrations.
- Previews and roles of dropped messages: the trimmer returns indices.
- Which slot `SessionManager.open` takes under concurrency: ports are awaited before the session id is set.
- A deadline for the disconnect watchdog: each close arms it again.
- Half-open detection and heartbeats, the unregister message and the waits inside `stop`.
- The listing request of `reconcileLeasesWithExecutor` and its failure, which changes nothing: the model starts at the answer.
- The idle-browser probe's result is part of what a pick sees; the chosen browser's URL and port are not returned.
- Chrome, CDP, screenshots, prompts, HTTP routes, authentication and file stores.
