# Verified model of the GCM tunnel's connection pool, routing and records

This project models the hard core of the Go library under `golib/` and proves what it promises.

* **Connection pool and stream managers** (`golib/pool`). A pool of WebSocket connections, each with a
  256-ID stream manager: idle list, manager index, affinity targets, outstanding heartbeats, atomic flags
  and counters. `pool.dfy` and `stream_manager.dfy` are the imperative classes; every method is proved to
  do to the object exactly what a function on values says. `pool_runs.dfy` lets any number of threads
  interleave the critical sections and atomic updates in any order, and separates what *every*
  interleaving keeps (capacity, slot accounting, flag counting, stream limits, affinity targets that have
  a manager) from what holds if and only if each step respects a guard (the idle/active partition,
  finality of retirement, the ledger). `pool_theorems.dfy` and `heartbeat_runs.dfy` hold
  the theorems about whole runs, `pool_races.dfy` runs in which the source breaks a guard, and
  `pool_life.dfy` a guarded run through a connection's whole life. `pool_steps.dfy` shows what the
  multi-section methods do to be guarded runs of their sections.
* **Interrupted passes.** A connection's closed flag is set without the pool's lock
  (`golib/pool/connection.go:61-66`), so connections close while a request's pass holds it. `idle_drain.dfy`
  follows the loop over the idle list while an arbitrary wave of closes precedes every round;
  `acquisition.dfy` lets the rest of a pass see every flag at its own moment and proves that such a pass has
  the effect of an undisturbed one between the closes it saw and the others; `pool_passes.dfy` turns it into
  steps of a run. The methods of the class close what they like before every look at a flag.
* **Stream windows** (`stream_window.dfy`): AIMD sizing, and the compare-and-swap loops on the send
  credit with arbitrary interference by other threads.
* **Routing matcher** (`addresses.dfy`, `domain_names.dfy`, `matcher.dfy`): prefix tables by length against
  the plain scan, the suffix walk, name normalisation.
* **HTTPS records** (`texts.dfy`, `https_record.dfy`): the generic text form and the wire decoder, which is
  shown to accept exactly the encodings and to invert them.
* **Runtime log** (`utf8.dfy`, `runtime_log.dfy`): bounded log and UTF-8 truncation.
* **Relay list and addresses** (`relay.dfy`, `host_port.dfy`): in-place sort, failure reports, host:port text.

Connections are `ConnItem` objects; the value model of the pool refers to them by identity only, so that
whole runs can be stated without a heap. The class `Pools.ConnectionPool` mirrors the flags and managers
in ghost fields which `Valid` ties to the real ones, and `View()` is the value.

What the proofs found about the source:

* A new connection is published in two critical sections
  (`golib/pool/connection.go:656-673`, `golib/pool/connection.go:836-861`). A request served between the two
  can fill the connection before it joins the idle list (`PoolRaces.GrantWhilePublishingStrands`); the loop
  that empties the idle list then turns, holding the pool's lock, until another thread closes that
  connection, and for ever if none does (`PoolRaces.StrandedHangsUntilClosed`). A connection that closes
  between the two is counted as closed twice (`PoolRaces.DetachWhilePublishingCountsTwice`).
* Whatever other threads close, that loop ends exactly if some entry is open and has room at its first turn,
  or every full connection in the list is closed in time (`IdleDrain.DrainEndsIff`). It is sure to end
  exactly if all open connections in the list have room (`IdleDrain.RoomyListDrains`,
  `IdleDrain.FullListCanHang`), which a guarded run with a positive stream limit guarantees
  (`PoolTheorems.DrainIsShort`).
* A pass cannot serve a request on a half-published connection, whatever other threads close meanwhile,
  exactly if before it starts streams are not shared, none is allowed, or no half-published connection is open
  (`PoolPasses.CheckedInterruptedPassIsTidy`, `PoolPasses.UncheckedInterruptedPassCanBreak`). Checked so, whole
  runs stay tidy (`PoolPasses.CheckedActsAreGuarded`). A takeable idle connection is enough only if nobody
  disturbs the pass (`PoolRuns.CheckedPassIsTidy`, `PoolRaces.CloseWhilePassingBreaks`).
* Heartbeats are kept by connection ID, three random bytes. Of several connections with one ID, a pass
  retires the first it visits (`Heartbeats.TimesOutExactly`), and a silent one is not found as long as
  another with its ID is acknowledged (`HeartbeatRuns.AnsweringIsSafe`).
* Nothing keeps two relay nodes from sharing an address (`golib/relay/manager.go:134-170`,
  `golib/relay/manager.go:500-513`); the address is then gone after as many reports as its nodes have
  failures left together (`Relays.AddressLeavesOnBudget`).
* Registering a handler on a retired connection gives it a manager again (`PoolRaces.RegisterRevivesRetired`).
* A log with a byte budget of exactly 1 stores nothing although an empty line would fit
  (`RuntimeLogs.RuntimeLogStore.HoldsLongestUnlessOneByte`).
* A bare IPv6 address whose last group is a decimal number loses it to the port
  (`HostPorts.BareHostIsKeptUnlessNumbered`, `HostPorts.BareLoopbackIsMisread`).
* The generic record form declares a length, which the decoder does not compare (`HttpsRecords.RawReadsBack`).
* The comment in `golib/pool/connection.go:1711` says that culling goes by creation time; the code takes the
  idle list in its own order, and so does the model (`PoolStates.CullTakesFirstAged`).

## Model

| member | source | states |
|---|---|---|
| PoolRuns.EveryStepIsSafe | golib/pool/connection.go:317-352 | no step of any thread, in any interleaving of critical sections and single atomic updates, exceeds the capacity with open connections and unpublished reservations, miscounts slots or active flags, points an affinity target at a connection without a manager or puts a connection over its stream limit |
| PoolRuns.StepIsTidyIffGuarded | golib/pool/connection.go:1086-1121 | one step keeps the idle/active/publishing partition, retired connections out of every index and the ledger exact, if and only if it does not grant on, give back or detach a half-published connection and registers handlers on managed connections only |
| PoolRuns.CheckedPassIsTidy | golib/pool/connection.go:1161-1271 | every pass that nobody disturbs keeps the pool tidy when an idle connection can be taken, or the affine connection is not half published, or there is none and no half-published connection is open for sharing |
| PoolRuns.UncheckedPassCanBreak | golib/pool/connection.go:1208-1246 | whenever that check fails, some undisturbed pass does not |
| PoolRuns.LiveAreManaged | golib/pool/connection.go:317-330 | the connections counted against capacity are the open ones with a manager |
| PoolTheorems.CapacityHolds | golib/pool/connection.go:338-352 | after every run, live connections plus reservations not yet published stay within the pool size |
| PoolTheorems.CountersAndTargetsHold | golib/pool/connection.go:1522-1553 | after every run, slots are counted exactly, the active counter is the number of set flags up to the updates still to come, every affinity target points at a connection with a manager and no connection exceeds its stream limit |
| PoolTheorems.RunIsTidyIffGuarded | golib/pool/connection.go:654-673 | a run has the partition, final retirement and the ledger at every moment exactly if all its steps are guarded |
| PoolTheorems.CheckedRunIsGuarded | golib/pool/connection.go:1161-1271 | a run of undisturbed passes, checked when they start, and of other steps that are guarded, is guarded |
| PoolTheorems.PartitionHolds | golib/pool/connection.go:1161-1204 | after a guarded run the live connections are the idle ones (listed once, inactive, no streams), the active ones and those being published, pairwise disjoint, and the active counter is the number of set flags up to the updates still to come |
| PoolPasses.AllocationIsComplete | golib/pool/connection.go:1168-1255 | with sharing on and a limit of 1 to 256, whatever closes during a pass after a guarded run: it grants a fresh ID on a connection that was open and never retired, or every connection open at its end carries exactly the limit; it refuses only when the connections it counted, all live before and among them all live afterwards, fill the pool |
| PoolTheorems.DrainIsShort | golib/pool/connection.go:1169-1204 | after a guarded run with a positive limit and whatever closes meanwhile, every round takes a connection or drops a closed one, so the drain loop is over within the length of the list |
| PoolTheorems.DrainHangsIffNoStreams | golib/pool/connection.go:1169-1204 | in a tidy state and under any closes meanwhile, the drain loop ends exactly if some stream is allowed or every listed connection is closed in time |
| PoolTheorems.RetirementIsFinal | golib/pool/connection.go:1086-1137 | once detached, a connection is in no index at any later moment of a guarded run, no target points at it and it is never handed out |
| PoolTheorems.CountedOnce | golib/pool/connection.go:1112-1117 | a repeated retirement finds the connection in no index and adds nothing to the closed count |
| PoolTheorems.RetiredCallsChangeNothing | golib/pool/connection.go:1083-1088 | what close callbacks call on a retired connection changes nothing but its active flag, and a second retirement nothing but a ping |
| PoolTheorems.LedgerHolds | golib/pool/connection.go:540-601 | created = failures + closed + managed + in flight after every guarded run, with no remainder at rest |
| PoolRaces.GrantWhilePublishingStrands | golib/pool/connection.go:654-673 | a run from the empty pool that leaves an open, full connection alone in the idle list |
| PoolRaces.StrandedHangsUntilClosed | golib/pool/connection.go:1169-1204 | the drain loop over such a list ends exactly if somebody closes the connection |
| PoolRaces.CloseWhilePassingBreaks | golib/pool/connection.go:1169-1246 | after a guarded run with a takeable idle and a half-published connection, a close during the pass makes it grant on the latter |
| PoolRaces.DetachWhilePublishingCountsTwice | golib/pool/connection.go:836-861 | a run with one creation and a closed count of two |
| PoolRaces.RegisterRevivesRetired | golib/pool/connection.go:1522-1553 | a run after which a retired connection has a manager and an affinity target again |
| PoolLife.WholeLife | golib/pool/connection.go:532-676 | a guarded run creates, uses, gives back and retires a connection; the ledger closes and no index names it |
| PoolSteps.CreateIsSteps | golib/pool/connection.go:682-863 | what an uninterrupted creation does is the end of a guarded run: reservation, count, failure or the two publication sections, and giving the slot back |
| PoolSteps.CloseIsSteps | golib/pool/connection.go:1086-1121 | what an uninterrupted close does is the end of a guarded run: closed flag, indexes, active flag, counter and statistics, each a step of its own |
| PoolSteps.CloseAllIsSteps | golib/pool/connection.go:1869-1884 | so is closing a list of published connections one after the other |
| PoolSteps.ReleaseIsSteps | golib/pool/connection.go:1451-1494 | so is giving back a connection that is not half published, its counter update being a step of its own |
| PoolSteps.SendIsSteps | golib/pool/connection.go:1822-1861 | so is a heartbeat, with its pass and the closes that follow |
| PoolPasses.CheckedInterruptedPassIsTidy | golib/pool/connection.go:1161-1271 | whatever others close during it, a pass keeps the pool tidy if before it starts streams are not shared, none is allowed, or no half-published connection is open |
| PoolPasses.UncheckedInterruptedPassCanBreak | golib/pool/connection.go:1169-1246 | otherwise, for every target, some closes make the pass grant on a half-published connection and break the partition |
| PoolPasses.InterruptedPassIsRun | golib/pool/connection.go:1161-1271 | a pass checked before it starts, during which connections close, is the end of a guarded run: the closes it saw, the undisturbed pass, the other closes |
| PoolPasses.CheckedActsAreGuarded | golib/pool/connection.go:1161-1271 | a run of sections, updates and passes during which connections close, each checked before it starts without knowing what the pass will see or grant, is a guarded run and safe and tidy at every moment |
| PoolPasses.InterruptedCreationIsRun | golib/pool/connection.go:338-352 | a creation during whose count connections close is the end of a guarded run, the slot it saw free being free |
| PoolPasses.InterruptedPassIsSafe | golib/pool/connection.go:1161-1271 | in every run, guarded or not, a pass during which connections close keeps capacity, counts, targets and stream limits |
| IdleDrain.DrainEndsIff | golib/pool/connection.go:1169-1204 | however other threads close connections, the drain loop ends if and only if some entry is open and has room when its first turn comes, or every full connection of the list is closed in time |
| IdleDrain.TakesInTurn | golib/pool/connection.go:1169-1204 | the loop takes the first entry from the end that is open and has room at its turn; full ones before it have moved to the front, those closed at their turn are gone, the rest keeps its order |
| IdleDrain.RoomyListDrains | golib/pool/connection.go:1169-1204 | if every open connection of the list has room, each round takes its entry or drops it, whatever others close |
| IdleDrain.FullListCanHang | golib/pool/connection.go:1200-1203 | otherwise some closes make the loop turn for ever |
| IdleDrain.QuietDrainEndsIffNotStuck | golib/pool/connection.go:1169-1204 | with no closes meanwhile the loop ends if and only if it is not the case that an open connection is listed and all open ones are full |
| Acquisition.GrantIsFresh | golib/pool/connection.go:1187-1246 | a grant adds one ID that was free, on an open connection, and changes no other connection's streams |
| Acquisition.RefusalMeansFull | golib/pool/connection.go:1248-1271 | a pass that grants nothing leaves no open connection with room, and refuses exactly when live plus pending reaches the pool size |
| Acquisition.IdleComesFirst | golib/pool/connection.go:1168-1204 | whenever a listed connection stays open during a pass, the pass grants on a listed one, and with sharing off on no other |
| Acquisition.AffinityComesNext | golib/pool/connection.go:1206-1218 | if no listed connection was taken and sharing is on, the connection the target last used serves the request unless it has gone, closes or is full, and serves nothing if it had gone, was closed or was full |
| Acquisition.FirstWaiterCreates | golib/pool/connection.go:1248-1268 | a request that waits asks for a new connection exactly if none is under way, and a pass that grants nothing changes nothing but the emptied list |
| Acquisition.SharedIsLeastLoaded | golib/pool/connection.go:1221-1246 | a connection shared by the last step of a pass was open when the pass started and has no more streams than any connection still open at its end, whatever closes meanwhile |
| Acquisition.PassLinearizes | golib/pool/connection.go:1161-1271 | a pass during which connections close, seeing each flag at its own moment, has the outcome and effect of an undisturbed pass between the closes it saw and the others |
| HeartbeatRuns.AnsweringIsSafe | golib/pool/connection.go:1063-1072 | in every run, no connection whose ID was acknowledged since the previous pass is retired by this one, a silent one that shares the ID included |
| HeartbeatRuns.SilenceIsDetected | golib/pool/connection.go:1822-1846 | an ID pinged at t and silent since: a pass retires a connection with it exactly if the pass is later than t plus the timeout and the connection is the first open one with this ID that it visits |
| HeartbeatRuns.SilentAloneIsFound | golib/pool/connection.go:1822-1846 | the first one visited exists whenever an open managed connection has the ID, and is that connection if no other has it |
| Heartbeats.NothingOutstanding | golib/pool/connection.go:1832-1845 | with no ping outstanding for an ID, a pass in any order retires nobody with that ID and enters the ping exactly for the IDs of open managed connections |
| Heartbeats.YoungPingStays | golib/pool/connection.go:1836-1840 | a ping that is not too old stays with its time, and nobody with that ID is retired |
| Heartbeats.OldPingTimesOut | golib/pool/connection.go:1836-1840 | a ping that is too old retires the first open connection with its ID that the pass visits and no other, and the ping is gone or renewed |
| Heartbeats.TimesOutExactly | golib/pool/connection.go:1832-1845 | a pass retires exactly the connections that are the first open one visited with an ID whose ping is too old |
| Heartbeats.PingsFirstBearer | golib/pool/connection.go:1841-1845 | a pass pings exactly the first open connection visited with an ID that has no ping outstanding, and nobody with an ID whose ping is young |
| Heartbeats.SendIs | golib/pool/connection.go:1848-1858 | after a heartbeat exactly those that timed out and those whose ping could not be written are closed and without a manager |
| PoolStates.CullTakesFirstAged | golib/pool/connection.go:1709-1722 | culling takes exactly the over-age connections up to the position where the budget is used up, and keeps the order of everything else |
| PoolStates.CullStaysInBudget | golib/pool/connection.go:1709-1722 | culling takes connections over age only, no more than the budget, and all of them unless the budget is used up |
| PoolStates.CloseAllDropsManagers | golib/pool/connection.go:1869-1884 | closing a list of connections removes exactly their managers and marks exactly these closed |
| PoolStates.CloseTakesOnlyItsOwn | golib/pool/connection.go:1092-1109 | closing takes out the targets that point at this connection, its manager, the pings of its ID and its first entry in the idle list, in order; every other target, manager, ping and entry stays as it is |
| PoolStates.CloseSettles | golib/pool/connection.go:1087-1117 | it sets the closed and clears the active flag; the active count goes down if the flag was set, the closed count up if some index named the connection |
| PoolStates.AttemptIs | golib/pool/connection.go:540-601 | an attempt counts as created; a new connection joins the idle list at its end with an empty manager, a failure counts and changes nothing else |
| PoolStates.RegisterIs | golib/pool/connection.go:1522-1553 | the target points at this connection afterwards, whichever it pointed at before; a manager it had is kept, and other targets and managers stay |
| PoolStates.UnregisterFrees | golib/pool/connection.go:1581-1600 | the ID is free on this connection, its other streams and its cursor are as before, and so is every other manager |
| PoolStates.LastStreamTakesTarget | golib/pool/connection.go:1592-1598 | exactly the target of the last stream on a connection is forgotten with it |
| PoolStates.ReleaseIs | golib/pool/connection.go:1451-1494 | a connection with streams stays as it is; one without turns idle and, unless closed or listed, stands in the idle list at the given position with the rest in order |
| Pools.ConnectionPool.LiveConnectionCount | golib/pool/connection.go:317-330 | the two loops, looking at one closed flag after the other, count connections once each: all that are live afterwards, and only such as were live before |
| Pools.ConnectionPool.ReserveConnectionSlot | golib/pool/connection.go:338-348 | a slot is reserved exactly if the connections counted plus pending are below the limit |
| Pools.ConnectionPool.CreateConnection | golib/pool/connection.go:532-676 | creation with a free slot publishes a new connection with its ID and time of creation or counts a failure, and gives the slot back; without a free slot it changes nothing, whatever closes during the count |
| Pools.ConnectionPool.TakeIdle | golib/pool/connection.go:1168-1204 | the rounds of the drain loop on the object, under any closes and for as long as it is watched, do what their value description says |
| Pools.ConnectionPool.FindLeastLoaded | golib/pool/connection.go:1221-1234 | the scan returns a managed connection with the fewest streams of those it saw open, or all of these are above the limit; it saw every connection open that still is, and none that was closed before |
| Pools.ConnectionPool.AcquirePass | golib/pool/connection.go:1161-1271 | one pass of a request under any closes meanwhile, idle, then affine, then least loaded, then refuse or wait, is the pass of the value model; it comes to no result only if its drain loop has not ended |
| Pools.ConnectionPool.ReleaseConnection | golib/pool/connection.go:1451-1494 | a connection without streams turns idle and, unless closed or listed, joins the idle list behind all that are at least as good and before the first worse one; a sorted list stays sorted |
| Pools.InsertKeepsSorted | golib/pool/connection.go:1476-1489 | releasing keeps a list sorted by descending quality sorted |
| Pools.ConnectionPool.RegisterStreamHandler | golib/pool/connection.go:1522-1553 | the connection has a manager afterwards, a new one if need be, and the target points at it when sharing is on |
| Pools.ConnectionPool.UnregisterStreamHandler | golib/pool/connection.go:1581-1600 | frees the ID on this connection and leaves its other streams and every other manager alone, returns the target and whether the connection is empty, and drops the affinity of the last stream |
| Pools.ConnectionPool.HandleConnectionClose | golib/pool/connection.go:1086-1121 | the connection leaves every index before its callbacks run, its flag and the statistics are settled once, and its manager ends empty whatever the callbacks unregister |
| Pools.ConnectionPool.RetireConnection | golib/pool/connection.go:1125-1137 | retiring has the effect of closing |
| Pools.ConnectionPool.Reconnect | golib/pool/connection.go:1869-1884 | closes every connection that had a manager, each once; none is left |
| Pools.ConnectionPool.SendHeartbeat | golib/pool/connection.go:1822-1861 | a pass over the managed connections in some order, then closing exactly the timed out ones and those whose ping could not be written |
| Pools.ConnectionPool.AcknowledgeHeartbeat | golib/pool/connection.go:1063-1072 | removes the ping of this ID and no other, and reports whether there was one |
| Pools.ConnectionPool.CullOldConnections | golib/pool/connection.go:1697-1722 | splits the idle list: what expires is closed and over age, no fewer than the minimum stay, and beyond that minimum nothing over age stays; the rest keeps its order |
| StreamIds.FirstFreeIsFirst | golib/pool/stream_manager.go:129-146 | the search returns the cyclically first free ID from the cursor and fails only when all 256 are taken |
| StreamIds.AllocateIsComplete | golib/pool/stream_manager.go:150-197 | allocation succeeds exactly when there is room, so for a limit of at most 256 the bitmap search never fails; it adds one fresh ID and leaves the others alone |
| StreamIds.ReleaseFrees | golib/pool/stream_manager.go:287-291 | releasing an ID frees it, keeps every other one with its target and does not move the cursor |
| StreamIds.ReuseIsFair | golib/pool/stream_manager.go:129-146 | between two grants of the same ID, every other ID is in use at some moment |
| Bitmap.SetBitRefinesInsert | golib/pool/stream_manager.go:107-111 | setting a bit of the four words adds exactly that ID to the set they stand for, and keeps the words within 64 bits |
| Bitmap.ClearBitRefinesRemove | golib/pool/stream_manager.go:114-118 | clearing a bit removes exactly that ID |
| StreamManagers.StreamManager.FindFreeBit | golib/pool/stream_manager.go:129-146 | the scan of the bitmap finds the first free key of the stream map and moves the cursor just past it |
| StreamManagers.StreamManager.TryAllocateStream | golib/pool/stream_manager.go:150-197 | bitmap, stream map, cursor and both counters change together, exactly as the allocation on values does |
| StreamManagers.StreamManager.UnregisterStream | golib/pool/stream_manager.go:273-308 | removes exactly this stream, or nothing for an unknown ID, keeps the cursor, and lowers both counters by one if there was one |
| StreamManagers.StreamManager.HandleConnectionClose | golib/pool/stream_manager.go:323-363 | whatever the callbacks unregister, no stream is left and both counters are zero |
| StreamWindow.WindowStaysWithinLimits | golib/pool/stream_manager.go:608-641 | the window size stays between its limits over every run of ticks |
| StreamWindow.CongestedRun | golib/pool/stream_manager.go:608-616 | k congested ticks give the larger of the minimum and the size divided by 2 to the k |
| StreamWindow.ClearRun | golib/pool/stream_manager.go:632-640 | k clear ticks give the smaller of the maximum and the size plus 8192 k |
| StreamWindow.CreditConservation | golib/pool/stream_manager.go:451-525 | under every interleaving the credit is never negative and equals the initial credit plus refills minus grants minus cuts |
| StreamWindow.Stream.WaitForSendWindow | golib/pool/stream_manager.go:451-481 | whatever others do meanwhile, success is one compare-and-swap that takes the bytes off a value that covered the request, and a timeout takes nothing |
| StreamWindow.Stream.RefillSendWindow | golib/pool/stream_manager.go:512-525 | a refill adds its bytes to the credit, and nothing if there are none |
| StreamWindow.Stream.AdjustWindowSize | golib/pool/stream_manager.go:608-641 | sets the size by one tick, and cuts the credit to it by at most one compare-and-swap, only downwards |
| Addresses.StoredMeansCovers | golib/routing/matcher.go:232-255 | the masked, unmapped form in which a prefix is stored stands for exactly the addresses that share its leading bits |
| Addresses.CoversIs | golib/routing/matcher.go:232-255 | a prefix of IPv4 or mapped addresses covers the IPv4 and mapped ones that share its bits behind the mapped part, any other one the IPv6 addresses that are not mapped and share its bits; a mapped one is acceptable from 96 bits on |
| Addresses.MappedIs | golib/routing/matcher.go:233-242 | a mapped address has 80 clear bits followed by 16 set ones |
| Addresses.HostRuleCoversOnlyHost | golib/routing/matcher.go:136-142 | a rule for one address covers its plain and mapped form and nothing else |
| Matchers.Matcher.AddParsedPrefix | golib/routing/matcher.go:232-255 | a prefix is added unless it cuts into the mapped part, and the tables keep standing for all prefixes added |
| Matchers.AddressHitGrows | golib/routing/matcher.go:232-255 | adding a prefix makes exactly the addresses it covers match in addition |
| Matchers.Matcher.MatchAddr | golib/routing/matcher.go:257-277 | the lookup by prefix length is true exactly if some added prefix covers the address |
| Matchers.Matcher.MatchDomain | golib/routing/matcher.go:279-304 | true exactly if the name is an exact rule, equals a suffix or ends in a dot and a suffix, contains a keyword or hits a pattern |
| Matchers.DotTailIs | golib/routing/matcher.go:283-292 | a name hits a suffix exactly if it is the suffix or ends in a dot and the suffix |
| Matchers.ContainsIs | golib/routing/matcher.go:293-297 | a name hits a keyword exactly if it is the keyword with something before and after it |
| Matchers.SuffixHitGrows | golib/routing/matcher.go:157-158 | adding a suffix makes exactly that name and the names below it match in addition |
| Matchers.Matcher.Match | golib/routing/matcher.go:81-95 | true exactly if the original or resolved host is a covered address or the normalised original host hits a domain rule |
| Matchers.HostTextIs | golib/routing/matcher.go:306-309 | spaces and one pair of brackets around a host make no difference |
| Matchers.Matcher.AddManualRule | golib/routing/matcher.go:132-163 | adds exactly the prefix, suffix or exact name that the line means, or rejects it and changes nothing |
| Matchers.AddressRuleIs | golib/routing/matcher.go:133-142 | a line that is a prefix is that rule unless it cuts into the mapped part, and one that is an address covers that address in both forms only |
| Matchers.NamedRuleIs | golib/routing/matcher.go:144-162 | a line without a colon is a suffix, "full:" in any spelling makes one exact name, "suffix:" and "domain:" a suffix |
| Matchers.OtherKindsAreRejected | golib/routing/matcher.go:153-161 | a line with any other word before its first colon is rejected |
| DomainNames.NormalizeDomain | golib/routing/matcher.go:317-335 | the label loops compute the normalised name |
| DomainNames.NormalizedIsWellFormed | golib/routing/matcher.go:317-335 | a name is accepted exactly if its trimmed, lower-cased form is well formed as told by its characters alone: letters, digits, hyphens and dots, a letter or digit beside every dot and at both ends, no 64 in a row without a dot |
| DomainNames.NormalizedTwice | golib/routing/matcher.go:317-335 | normalising is idempotent |
| DomainNames.SpellingIsNormalized | golib/routing/matcher.go:317-321 | spaces around a well-formed name, one dot behind it and capitals make no difference to what it is read as |
| DomainNames.NormalizedIsSpelling | golib/routing/matcher.go:317-321 | nothing else is accepted: an accepted text is the name in some spelling with at most these around it |
| HttpsRecords.PrintReadsBack | golib/dns/doh.go:322-323 | record data printed in the generic notation is read back unchanged |
| HttpsRecords.RawReadsBack | golib/dns/doh.go:556-566 | it is so whatever length the text declares |
| HttpsRecords.PrintIs | golib/dns/doh.go:322-323 | the printed form has three parts: the mark, the number of bytes in decimal, and the bytes in hexadecimal |
| HttpsRecords.SpacedReadsBack | golib/dns/doh.go:556-566 | spaces anywhere between the digits make no difference to what is read |
| Texts.HighDigitFirst | golib/dns/doh.go:322-323 | a byte is written with two small digits, the high one first |
| Texts.BytesInOrder | golib/dns/doh.go:322-323 | bytes are written in their order |
| Texts.FromHexReadsPairs | golib/dns/doh.go:562-566 | exactly the texts of pairs of hexadecimal digits are read |
| HttpsRecords.ParseDomainName | golib/dns/doh.go:619-641 | the label loop reads the name within bounds and ends |
| HttpsRecords.ParseHttpsRecordWire | golib/dns/doh.go:555-616 | the loops decode the record or report the fault, and ignore only a tail of fewer than four bytes |
| HttpsRecords.DecodeInvertsEncode | golib/dns/doh.go:568-616 | every encoded record is decoded to its priority, target, parameters and ECH configuration |
| HttpsRecords.DecodedIsEncoding | golib/dns/doh.go:568-616 | whatever the decoder accepts is an encoding of what it returns, followed by fewer than four bytes |
| HttpsRecords.RecordLayout | golib/dns/doh.go:568-573 | the priority comes first, the high byte first, then the name and the parameters |
| HttpsRecords.NameLayout | golib/dns/doh.go:619-641 | a name is its labels, each behind its length, and a zero |
| HttpsRecords.ParamLayout | golib/dns/doh.go:583-594 | a parameter is its key and the length of its value, two bytes each with the high one first, and the value |
| HttpsRecords.NameFaultIs | golib/dns/doh.go:619-641 | a name that ends without a zero and one that ends within a label are told apart |
| HttpsRecords.ParamFaultIs | golib/dns/doh.go:590-592 | the only fault in the parameters is data that end within a value |
| HttpsRecords.TableIsExact | golib/dns/doh.go:579-609 | with distinct keys the table holds every parameter under its own name and nothing else |
| HttpsRecords.KeysAreShown | golib/dns/doh.go:596-606 | key 5 is listed as "ech" in base64, key 1 as "alpn_hex" and any other as "key" and its number, both in hexadecimal |
| HttpsRecords.TableSize | golib/dns/doh.go:596-606 | with distinct keys there are as many entries as parameters |
| HttpsRecords.EchIsLastKey5 | golib/dns/doh.go:598-602 | the ECH configuration is the value of the last parameter with key 5 |
| HttpsRecords.NoKey5NoEch | golib/dns/doh.go:576-577 | without key 5 there is no ECH configuration |
| HttpsRecords.TargetTellsLabels | golib/dns/doh.go:637-640 | labels without dots can be recovered from the target |
| RuntimeLogs.RuntimeLogStore.Append | golib/logger/logger.go:32-49 | after any appends the lines are the longest end of the cut history within both budgets and the byte counter is exact; the last one is the line appended if it fits, or else its longest valid beginning that does |
| RuntimeLogs.CutLineIsLongest | golib/logger/logger.go:36-38 | a line is kept whole if it fits, and otherwise cut to its longest valid beginning that fits, losing at most three bytes more than it must |
| RuntimeLogs.RuntimeLogStore.DropsForRoomOnly | golib/logger/logger.go:43-46 | both budgets are kept, and a line is dropped only if it would be one line or some bytes too many |
| RuntimeLogs.LongestIsUnique | golib/logger/logger.go:43-46 | there is only one such end, so the contract fixes the contents |
| RuntimeLogs.RuntimeLogStore.HoldsLongestUnlessOneByte | golib/logger/logger.go:33-35 | the log holds the longest fitting end exactly unless the byte budget is 1, a line is allowed and something was appended |
| RuntimeLogs.RuntimeLogStore.Clear | golib/logger/logger.go:71-76 | clearing starts an empty history |
| RuntimeLogs.RuntimeLogStore.Snapshot | golib/logger/logger.go:65-69 | the text is one byte shorter than the byte counter and so within the budget, and cutting it at line ends gives back the lines, those with line ends inside in pieces |
| Utf8.TruncationIsTight | golib/logger/logger.go:51-63 | valid text is cut to its longest valid prefix within the limit, losing at most three bytes below it |
| Utf8.TruncateUtf8 | golib/logger/logger.go:51-63 | the shrinking loop ends with that prefix |
| Utf8.EncodedIsValid | golib/logger/logger.go:59-61 | the bytes of every text of code points without surrogates are valid |
| Utf8.ValidIsEncoded | golib/logger/logger.go:59-61 | and valid bytes are those of such a text |
| Relays.RelayManager.ResortByScore | golib/relay/manager.go:272-281 | the nested exchanges leave a permutation sorted by score |
| Relays.RelayManager.ReportFailure | golib/relay/manager.go:291-324 | only the first node with the address is charged; it is removed at the threshold, otherwise the list is sorted again |
| Relays.RunKeepsSorted | golib/relay/manager.go:291-324 | over any run of reports a sorted list stays sorted |
| Relays.FailureCosts500 | golib/relay/manager.go:197-200 | a failure adds 500 points to the latency in milliseconds and so never improves a rank |
| Relays.AddressLeavesOnBudget | golib/relay/manager.go:291-324 | however many nodes share an address, every report about it uses up one of the failures they have left together, reports about others use up none, and no node with the address is listed exactly when none is left |
| Relays.NodeLeavesAtThreshold | golib/relay/manager.go:301-320 | over any run of reports about any nodes, a node alone at its address is listed, with every failure counted and scored, until its threshold-th failure (or its next, if it is over the threshold already) and never after |
| HostPorts.ParseInvertsJoin | golib/relay/manager.go:35-61 | parsing inverts the library's joining for every host without brackets, IPv6 included, and every port |
| HostPorts.HostWithoutColonGetsDefault | golib/relay/manager.go:36-52 | a host without a colon gets port 443 |
| HostPorts.BracketedHostGetsDefault | golib/relay/manager.go:54-58 | a bracketed IPv6 address without a port keeps its colons and gets port 443 |
| HostPorts.BareHostIsKeptUnlessNumbered | golib/relay/manager.go:39-52 | a host without a port is kept with port 443 exactly if no number follows its last colon |
| HostPorts.BareLoopbackIsMisread | golib/relay/manager.go:39-52 | the bare address `::1` is read as host `:` and port 1 |

## Left out

- Dialing, TLS and ECH set-up, WebSocket and HTTP traffic, tickers, goroutines and deadlines: whether a dial succeeds, which writes fail, when a pass runs and what the clock says are parameters or events.
- The deprecated `GetConnection`, `AllocateStreamID` and `AllocateStream`, the pool's shutdown and reading from a tunnel connection. Without `AllocateStream`, streams of listed connections change only under the pool's lock.
- Pool entries without a socket, which the source guards against but never creates.
- Requests retry a pass until a deadline; only the passes are modelled.
- The list of idle connections is re-sorted by quality with a library sort; runs allow any reordering instead.
- The pending counter is read once at the start of a pass and may change before its end; a pass sees one value.
- Closed flags change during a pass and a count; every other section looks at a flag at most once, so a close inside it is one before or after it.
- The creation time of a connection is constant, although `golib/pool/quality_monitor.go:233` moves it back when a relay is replaced; a cull takes the set of over-age connections as it is given.
- Pools.ConnectionPool.TakeIdle: is watched for a number of rounds that the caller chooses, because the source's loop does not always end; when it does is told by `IdleDrain.DrainEndsIff`.
- Pools.ConnectionPool.AcquirePass: is watched in the same way.
- Pools.ConnectionPool.CreateConnection: a new connection is not handed straight to a queued request.
- Pools.ConnectionPool.RegisterStreamHandler: the handler's callbacks and the connection's own set of targets are not part of the model.
- Pools.ConnectionPool.SendHeartbeat: the per-connection failure counters are not part of the model.
- Pools.ConnectionPool.AcknowledgeHeartbeat: the round-trip averages are not part of the model.
- PoolRuns.EveryStepIsSafe: the pass that is one step of a run is the undisturbed one; interrupted passes are several steps by `PoolPasses.InterruptedPassIsRun`, and one whose drain loop does not end is none.
- PoolPasses.InterruptedPassIsRun: requires the check that `PoolPasses.UncheckedInterruptedPassCanBreak` shows to be needed; without it, `PoolPasses.GuardedPassIsRun` asks of the outcome that the connection granted is not half published.
- HeartbeatRuns.AnsweringIsSafe: assumes that the heartbeat timeout is not negative, as the other heartbeat theorems do.
- StreamManagers.StreamManager.HandleConnectionClose: callbacks are arbitrary sequences of unregistrations; other effects of theirs are separate events of a run.
- StreamWindow.Stream.RefillSendWindow: the wake-up of waiting senders is not part of the model; a waiting sender may look at the credit at any moment.
- StreamWindow.Stream.AdjustWindowSize: whether congestion was detected is a parameter, because the detector uses floating-point loss rates.
- DomainNames.NormalizeDomain: text is code points; lower-casing covers the characters that can yield ASCII, since a name with any other character is rejected.
- Matchers.Matcher.Match: the library's address and prefix parsers and regular expressions are parameters; zones are taken off by the address parser.
- HttpsRecords.ParseHttpsRecordWire: base64 is a parameter; the text form of the record is not part of the model.
- Relays.RelayManager.ReportFailure: latency is a whole number of milliseconds and sums are unbounded; load balancing, latency tests and rescoring are left out.
- Quality scoring, weights, dynamic pool sizes, traffic rates, DNS caching, rule files and built-in rule data, file logging, configuration, the Android application and the C tunnel.
