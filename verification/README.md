# A verified model of the FDBus middleware

FDBus is a publish/subscribe and remote-call middleware with a name server, message
framing over stream sockets, a worker with two job queues, and an event loop with timers
and file watches. CommonAPI's `Event` sits on top of it in the same code base. This
project models the state these components change and proves what they keep over whole
runs. `dafny verify dfyconfig.toml` checks everything.

| file | what it models |
|---|---|
| Subscriptions, Publishing, EventCache, Receiving | the nested subscription tables, broadcasts over them, the cache that suppresses unchanged events, and who receives what over runs |
| Addresses, Registry, NameServer, UrlTable, Interfaces, Rebinding, NameServerRuns, Provision, BracketRun | URLs, port allocation, the service registry, bind reports and reissues, and runs of the name server |
| Serializer, Header, Framing | the wire format: scalars and strings, message headers, frames, fragmentation |
| JobQueue, WorkerLoop | the worker's queues, first as steps that any interleaving may take, then as loops in place |
| Pending, SyncWakeup | pending requests of a session, and the wake-up of blocked callers by use count |
| Timers, Watches, Lists | the timer pass and the watch pass of the event loop |
| Listeners | CommonAPI's `Event` |
| Tokens | security levels carried by tokens |
| Common | options, bytes, facts about sequences |

Threads are modelled as interleavings of atomic steps, one per locked region. Sockets,
clocks, random numbers, user callbacks and other threads are parameters over which every
statement quantifies. Integers are unbounded except where the width matters: serial
numbers, subscription numbers, string lengths, scalars on the wire, and the wait time
are cut to their widths. Sessions, timers, watches and jobs are identified by numbers
that stand for their addresses.

## Findings

Where a property one would expect does not hold of the code, the failing case and the
exact condition are proved.

- A blocked caller is not woken when its request is resolved while the vector of the
  running pass still refers to it, for instance by a job of the same pass that
  disconnects the session: the use count is then one too high
  (`SyncWakeup.LostWakeup`, with the exact condition in
  `SyncWakeup.PostedOnceIffResolvedAndNotCut` and `SyncWakeup.CutIffHeld`).
- A targeted broadcast, and an initial value given late, are stored for everybody but
  reach only their target, so other subscribers hold an old value or none while the cache
  suppresses the next equal broadcast (`EventCache.PublishToCanStale`,
  `EventCache.InitCacheCanStale`; exactly when, in `EventCache.StepCoherentIff` and, over
  runs, `EventCache.RunCoherentIff`).
- `discardQueuedJobs` is refused when the queue is full or the worker is exiting. Jobs
  queued before it then run, except those that were reached between its two halves
  (`JobQueue.RefusedDiscardRuns`, `JobQueue.RefusedDiscardSkips`; exactly how such a run
  differs from one without the discard, in `JobQueue.RefusedDiscard`).
- Parsing a URL drops the square brackets of its host, so a reissued address leaves the
  interface it was allocated on (`Addresses.TcpParseBuild`,
  `NameServer.ReissueKeepsInterfaceIff`). Two failures can put two TCP addresses of a
  service on one host (`BracketRun.BracketsDouble`, a run for every interface in brackets;
  exactly when, in `Interfaces.FailureOneTcpIff` for one failure and
  `Interfaces.ReportOneTcpIff` for a report). URLs stay unique all the same
  (`NameServerRuns.RunsKeepUrlsUnique`).
- The host server's fallback branch can register one URL twice
  (`NameServer.FallbackDuplicates`; exactly when, in `NameServer.FallbackUniqueIff` and,
  from the state before, `NameServer.FallbackUniqueIffBefore`).
- `onLastListenerRemoved` can fire twice for one departure, or not at all
  (`Listeners.LastFiresTwice`, `Listeners.LastNeverFires`, counted in
  `Listeners.HookBalance`). A subscription number that is still in use when the counter
  comes round loses a listener (`Listeners.StaleNumber`, `Listeners.JoinWorksIff`).
- The level "none" is 0, so a client without a token cannot be told from one of level 0
  (`Tokens.NoTokenIsLevelZero`).
- A string survives serialisation only without NULs and if its length with the
  terminator fits 16 bits (`Serializer.GetPutString`).

Two header classes exist. `public/common_base/CFdbIfMessageHeader.h` is the one that is
included and the one the frames use; the layout of `fdbus/CFdbMessageHeader.h`, with a
sender name and a wider type, is covered by the same theorem through the `WithSender`
layout.

## Model

| member | source | states |
|---|---|---|
| EventCodes.MakeGroup | sources/fdbus/public/common_base/common_defs.h:130-142 | The group code of an event is a group code of the same group, under C bit semantics for negative codes too. |
| EventCodes.GroupCodeUnique | sources/fdbus/public/common_base/common_defs.h:130-142 | Two group codes are equal exactly if their groups are, and a group code is its own group: the group table has one entry per group. |
| EventCodes.GroupBits | sources/fdbus/public/common_base/common_defs.h:130-142 | By bits: making a group code sets the low 24 bits and keeps the others, and a code is a group code exactly if they are all set. |
| Subscriptions.Put | sources/fdbus/fdbus/CFdbBaseObject.cpp:946-959 | Exactly the addressed entry of the four-level table changes, and no inner map is left empty. |
| Subscriptions.Remove | sources/fdbus/fdbus/CFdbBaseObject.cpp:961-1007 | Exactly the entries of one object under one code and session go, for one filter or for all; emptied levels are erased. |
| Subscriptions.RemoveSession | sources/fdbus/fdbus/CFdbBaseObject.cpp:1009-1029 | Exactly the entries of one session go, under every code. |
| Subscriptions.RemoveObjectFromSessions | sources/fdbus/fdbus/CFdbBaseObject.cpp:1046-1063 | The two inner loops: an object goes from every session of a code, emptied sessions are erased. |
| Subscriptions.RemoveObject | sources/fdbus/fdbus/CFdbBaseObject.cpp:1037-1069 | Exactly the entries of one object go, from every session of every code. |
| Subscriptions.PutRefines | sources/fdbus/fdbus/CFdbBaseObject.cpp:946-959 | An update of the nested tables that sets one entry sets that entry of the flat relation (code, session, object, filter) to type. |
| Subscriptions.RemoveRefines | sources/fdbus/fdbus/CFdbBaseObject.cpp:961-1075 | A removal from both nested tables is the removal of the same entries from the flat relation. |
| Subscriptions.SubscriptionTables.Subscribe | sources/fdbus/fdbus/CFdbBaseObject.cpp:946-959 | The flat relation is updated at the one key; group codes stay in the group table, others in the event table. |
| Subscriptions.SubscriptionTables.Unsubscribe | sources/fdbus/fdbus/CFdbBaseObject.cpp:961-1007 | The flat relation loses exactly the selected entries, whichever table holds them. |
| Subscriptions.SubscriptionTables.UnsubscribeSession | sources/fdbus/fdbus/CFdbBaseObject.cpp:1031-1035 | The flat relation loses exactly the entries of the session. |
| Subscriptions.SubscriptionTables.UnsubscribeObject | sources/fdbus/fdbus/CFdbBaseObject.cpp:1071-1075 | The flat relation loses exactly the entries of the object. |
| Publishing.SendOne | sources/fdbus/fdbus/CFdbBaseObject.cpp:1077-1085 | One frame is handed over exactly if the entry is normal or the update is manual, and the header in it names the right object. |
| Publishing.BroadcastToObjects | sources/fdbus/fdbus/CFdbBaseObject.cpp:1100-1126 | Within a session each object whose exact entry, or wildcard entry when there is no exact one, is eligible gets exactly one frame, although the header is rebuilt and reused across objects. |
| Publishing.BroadcastToTable | sources/fdbus/fdbus/CFdbBaseObject.cpp:1087-1129 | One table: each eligible (session, object) pair gets exactly one frame of the message, and no other pair gets any. |
| Publishing.BroadcastToSession | sources/fdbus/fdbus/CFdbBaseObject.cpp:1158-1201 | One session and object: sends by the same rule and reports whether an entry was found. |
| Publishing.SubscribedSessions | sources/fdbus/fdbus/CFdbBaseObject.cpp:1305-1358 | The result is the set of sessions with some object that a non-manual broadcast would reach. |
| Publishing.AnyNormal | sources/fdbus/fdbus/CFdbBaseObject.cpp:1321-1355 | The early-exit loop finds a normal deciding entry exactly if there is one. |
| Publishing.EventMatch | sources/fdbus/fdbus/CFdbBaseObject.cpp:1103-1121 | What the event table decides is what the flat relation decides for the same code and topic. |
| Publishing.GroupMatch | sources/fdbus/fdbus/CFdbBaseObject.cpp:1149-1156 | The same for the group table under the event's group code. |
| Publishing.ReceivingSessions | sources/fdbus/fdbus/CFdbBaseObject.cpp:1149-1156 | The sessions reached by a non-manual broadcast over both tables are those getSubscribeTable(code, filter) returns. |
| Receiving.PublishDeliversIff | sources/fdbus/fdbus/CFdbBaseObject.cpp:1077-1156 | A broadcast the cache does not suppress goes to an object of a session if and only if under the event or its group the entry with the exact filter, or without one that with the empty filter, is normal or the update is manual. |
| Receiving.TargetedIff | sources/fdbus/fdbus/CFdbBaseObject.cpp:1158-1213 | For a targeted frame the deciding entry is exact before empty filter and event before group, and it is sent if and only if that is normal or the update manual. |
| Receiving.PublishToDeliversIff | sources/fdbus/fdbus/CFdbBaseObject.cpp:1203-1213 | A targeted broadcast extends the log by that frame, or by nothing if the cache suppresses it. |
| Receiving.CachedDeliversIff | sources/fdbus/fdbus/CFdbBaseObject.cpp:577-610 | An update request sends exactly the cached values of the listed entries that have a deciding entry of any type, an authorised subscribe request those whose deciding entry is normal. |
| Receiving.SubscribedAsListed | sources/fdbus/fdbus/CFdbSession.cpp:456-476 | After an authorised request every listed entry is in the relation with the type listed for it last, normal if none is given, the empty filter if none is. |
| Receiving.SubscribeLeavesOthers | sources/fdbus/fdbus/CFdbSession.cpp:456-476 | No entry that is not listed changes. |
| Receiving.RemovedExactly | sources/fdbus/fdbus/CFdbSession.cpp:477-535 | A rejected request and an unsubscribe list remove exactly the listed entries, all filters where none is named; an empty list removes the object everywhere, a lost session all its entries. |
| Receiving.RunSubscriptions | sources/fdbus/fdbus/CFdbSession.cpp:440-538 | In every state of every run an entry and its type are what the requests so far said about it last. |
| Receiving.RunDelivers | sources/fdbus/fdbus/CFdbBaseObject.cpp:1077-1156 | Over whole runs, a broadcast of a payload other than the last one stored reaches an object if and only if the last word about it was a normal subscription, or any for a manual update. |
| EventCache.SetEventCacheMeaning | sources/fdbus/fdbus/CFdbBaseObject.cpp:1676-1715 | The stored value becomes the payload; the update goes unreported exactly if the payload is not empty and equals the stored bytes. |
| EventCache.UpdateMeaning | sources/fdbus/fdbus/CFdbBaseObject.cpp:1131-1147 | The cached value of one (event, topic) becomes the payload and no other changes; a send is suppressed if and only if the payload is not empty and equals the cached value, and the update is neither forced nor always on. |
| EventCache.UpdateIdempotent | sources/fdbus/fdbus/CFdbBaseObject.cpp:577-607 | Re-sending a cached value leaves the cache as it is. |
| EventCache.CachedSendsMeaning | sources/fdbus/fdbus/CFdbBaseObject.cpp:577-607 | broadcastCached sends cached values only, and reaches every listed exact normal subscription that has one. |
| EventCache.BothTables | sources/fdbus/fdbus/CFdbBaseObject.cpp:1149-1156 | Event and group broadcasts together reach exactly the pairs the relation makes eligible. |
| EventCache.PublishCoherent | sources/fdbus/fdbus/CFdbBaseObject.cpp:1149-1156 | A broadcast to all keeps every exact normal subscriber's last received value equal to the cached one, sent or suppressed. |
| EventCache.StepCoherent | sources/fdbus/fdbus/CFdbSession.cpp:440-558 | Every subscribe, unsubscribe and update request, session loss and broadcast to all keeps that coherence. |
| EventCache.RunStores | sources/fdbus/fdbus/CFdbBaseObject.cpp:1676-1715 | Over every run the cached value is the payload broadcast or set last. |
| EventCache.RunCoherent | sources/fdbus/fdbus/CFdbBaseObject.cpp:577-624 | Over every run of harmless operations each exact normal subscriber was last handed the payload that was broadcast or set last, although unchanged broadcasts are suppressed. |
| EventCache.RunCoherentIff | sources/fdbus/fdbus/CFdbBaseObject.cpp:577-624 | A run is coherent throughout if and only if all its operations are harmless. |
| EventCache.PublishToCoherentIff | sources/fdbus/fdbus/CFdbBaseObject.cpp:1203-1213 | A targeted broadcast, of a topic with or without a cached value, keeps coherence if and only if its payload is the cached value or nobody but its target has an exact normal subscription. |
| EventCache.PublishToCanStale | sources/fdbus/fdbus/CFdbBaseObject.cpp:1203-1213 | It fails: a subscriber is left behind by a broadcast to another one, with nothing cached as well as with a value it has. |
| EventCache.InitCacheCanStale | sources/fdbus/fdbus/CFdbBaseObject.cpp:1596-1609 | So it does for an initial value, in both cases. |
| EventCache.InitCacheCoherentIff | sources/fdbus/fdbus/CFdbBaseObject.cpp:1596-1609 | Setting an initial value, with or without one cached, keeps coherence if and only if it is the cached one or nobody has an exact normal subscription. |
| EventCache.StepBacked | sources/fdbus/fdbus/CFdbBaseObject.cpp:1131-1213 | Every operation keeps that nothing was ever handed over which is not cached. |
| EventCache.StepCoherentIff | sources/fdbus/fdbus/CFdbBaseObject.cpp:1131-1213 | Any operation keeps coherence if and only if it is harmless: not a targeted broadcast or initial value outside those conditions. |
| EventCache.InitMeaning | sources/fdbus/fdbus/CFdbBaseObject.cpp:1596-1609 | One cached value and its always-update flag are set, no other value changes. |
| EventCache.EventSource.ApplyItems | sources/fdbus/fdbus/CFdbSession.cpp:440-538 | The loop over a subscribe list performs the listed flat updates in order. |
| EventCache.EventSource.SubscribeRequest | sources/fdbus/fdbus/CFdbSession.cpp:440-538 | A subscribe request is the model step: entries added and cached values sent, or all listed entries removed when not authorised. |
| EventCache.EventSource.UpdateRequest | sources/fdbus/fdbus/CFdbSession.cpp:540-558 | A manual update request is the model step. |
| EventCache.EventSource.UnsubscribeRequest | sources/fdbus/fdbus/CFdbSession.cpp:440-538 | An unsubscribe request is the model step; an empty list drops the object for every session, as the code does. |
| EventCache.EventSource.LoseSession | sources/fdbus/fdbus/CFdbBaseObject.cpp:1031-1035 | Losing a session is the model step. |
| EventCache.EventSource.StoreInCache | sources/fdbus/fdbus/CFdbBaseObject.cpp:1131-1147 | The payload becomes the cached value and no other changes; it is not to be sent if and only if it is not empty and was the cached value, and neither force nor always-update is set. |
| EventCache.EventBuffer.Set | sources/fdbus/fdbus/CFdbBaseObject.cpp:1676-1715 | In place on the buffer: afterwards it holds the payload; false if and only if the payload is not empty and was there before. |
| EventCache.EventBuffer.Compare | sources/fdbus/fdbus/CFdbBaseObject.cpp:1684 | True if and only if the bytes are equal. |
| EventCache.EventBuffer.Copy | sources/fdbus/fdbus/CFdbBaseObject.cpp:1711-1714 | The buffer holds the payload. |
| EventCache.EventSource.Broadcast | sources/fdbus/fdbus/CFdbBaseObject.cpp:1149-1156 | In place: a broadcast to all is the model step, and its frames are one per eligible pair. |
| EventCache.EventSource.BroadcastTo | sources/fdbus/fdbus/CFdbBaseObject.cpp:1203-1213 | In place: a targeted broadcast stores for everybody and sends by the event entry, or by the group entry when there is none. |
| EventCache.EventSource.BroadcastCached | sources/fdbus/fdbus/CFdbBaseObject.cpp:577-607 | In place: the cached value of every listed (code, topic) that has one is sent by the same rule. |
| EventCache.EventSource.InitEventCache | sources/fdbus/fdbus/CFdbBaseObject.cpp:1576-1609 | The payload becomes the cached value and the flag is set; no other value changes and nothing is sent. |
| Addresses.AtoiDecimal | sources/fdbus/platform/socket/CBaseSocketFactory.cpp:210-215 | A number printed with %u is read back by atoi. |
| Addresses.TcpUrlInjective | sources/fdbus/platform/socket/CBaseSocketFactory.cpp:197-215 | Different interface or port, different URL. |
| Addresses.UrlDeterminesAddress | sources/fdbus/platform/socket/CBaseSocketFactory.cpp:56-107 | A well-formed address is determined by its URL, across IPC and TCP. |
| Addresses.TcpParseBuild | sources/fdbus/platform/socket/CBaseSocketFactory.cpp:56-145 | Parsing a built TCP URL gives the address back if and only if the interface is not written in square brackets; otherwise only the brackets are lost. |
| Addresses.IpcParseBuild | sources/fdbus/platform/socket/CBaseSocketFactory.cpp:56-107 | Parsing a built IPC URL gives the address back. |
| Addresses.TcpParseCut | sources/fdbus/platform/socket/CBaseSocketFactory.cpp:108-145 | A port beyond 16 bits is cut to its low 16, and refused if they are zero. |
| Addresses.WildcardPort | sources/fdbus/platform/socket/CBaseSocketFactory.cpp:108-145 | The wildcard port is read as zero. |
| Addresses.OtherUrls | sources/fdbus/platform/socket/CBaseSocketFactory.cpp:56-145 | Service URLs are read as names, a TCP URL without a port and a URL without a rest are refused. |
| Registry.AllocateAddress | sources/fdbus/server/CNameServer.cpp:926-950 | The retry loop returns the first unregistered address among the allocator's next ones, within registry size plus seven attempts. |
| Registry.WellKnownAddresses | sources/fdbus/server/CAddressAllocator.cpp:43-119 | Name server and host server have their fixed ports and paths, which no user service is offered, and take nothing from the allocator. |
| Registry.UserAddresses | sources/fdbus/server/CAddressAllocator.cpp:43-119 | A user service is offered the port or path the allocator stands at, which then moves on by one and wraps. |
| Registry.IpcPathsDiffer | sources/fdbus/server/CAddressAllocator.cpp:43-68 | Different numbers give different IPC URLs. |
| Registry.AttemptsSound | sources/fdbus/server/CNameServer.cpp:926-950 | An address that is returned is not registered, is well formed and lies on the allocator's interface; the allocator stays in range. |
| Registry.TriedMembers | sources/fdbus/server/CAddressAllocator.cpp:82-104 | After n cyclic allocations exactly the ports at cyclic distance below n have been tried. |
| Registry.TriedCount | sources/fdbus/server/CAddressAllocator.cpp:82-104 | As long as n does not exceed the range, n allocations try n different ports. |
| Registry.TakenPorts | sources/fdbus/server/CNameServer.cpp:906-924 | Pigeonhole: ports taken on one interface are no more than the services holding them. |
| Registry.FailureTakesAll | sources/fdbus/server/CNameServer.cpp:926-950 | If every attempt fails, every port tried is taken by a service. |
| Registry.BudgetSuffices | sources/fdbus/server/CNameServer.cpp:926-950 | With at most one address per service and interface and fewer services than ports, the budget always finds an unused port for a user service. |
| NameServer.AllocateAllFresh | sources/fdbus/server/CNameServer.cpp:1005-1024 | One pass over all allocators yields addresses that are unused, pairwise different and on interfaces with an allocator, and keeps the allocators valid. |
| NameServer.AppendAllKeeps | sources/fdbus/server/CNameServer.cpp:156-179 | Adding them, except on interfaces the service already has, keeps URLs unique and one TCP address per interface. |
| NameServer.CreateServesKeys | sources/fdbus/server/CNameServer.cpp:952-1003 | Whatever the interfaces, every allocator serves the interface it is filed under, existing ones are kept (setInterfaceIp works once), and there is at least one. |
| NameServer.CreateKeeps | sources/fdbus/server/CNameServer.cpp:952-1003 | With interfaces not in brackets the allocators also stay usable for reissues. |
| NameServer.ReissueSound | sources/fdbus/server/CNameServer.cpp:626-677 | A reissued address keeps kind and interface, has an unused URL and one more retry; with five retries behind it there is none. |
| NameServer.ReissueKeepsInterfaceIff | sources/fdbus/server/CNameServer.cpp:626-677 | A reissued address stays on its interface if and only if that is not written in brackets; otherwise, unless the bare host has an allocator of its own, the next failure ends it, retries or not. |
| NameServer.ItemKeepsIff | sources/fdbus/server/CNameServer.cpp:442-521 | An item of a report keeps the registry valid if and only if an address bound elsewhere than asked is on a free URL and interface; bound, reissued and erased ones always do. |
| NameServer.ItemsKeepIff | sources/fdbus/server/CNameServer.cpp:442-521 | The registry is valid after each item if and only if all items are safe in this sense at their turn. |
| NameServer.FinishExtends | sources/fdbus/server/CNameServer.cpp:522-572 | At the end the service has what the items left and what arrived (unrequested addresses, and the fallback); without either it is gone. |
| NameServer.ReportKeepsIff | sources/fdbus/server/CNameServer.cpp:394-572 | A report with safe items keeps the registry valid if and only if the unrequested addresses it brings, and the fallback address if it comes to that, are on free URLs and interfaces. |
| NameServer.ReportKeeps | sources/fdbus/server/CNameServer.cpp:394-547 | A report that answers only what was asked, and does not reach the fallback, always does. |
| NameServer.FallbackUniqueIff | sources/fdbus/server/CNameServer.cpp:549-572 | A report as asked that reaches the fallback keeps URLs unique if and only if the host server's IPC URL is unused then. |
| NameServer.FallbackUniqueIffBefore | sources/fdbus/server/CNameServer.cpp:549-572 | The same told from the table and the items before the report: no other service has that URL, and the host server neither keeps it nor is reissued it for another IPC address that failed. |
| NameServer.FallbackDuplicates | sources/fdbus/server/CNameServer.cpp:549-572 | It fails, for instance, when an empty report meets a pending IPC address. |
| Rebinding.FailedItemOutcome | sources/fdbus/server/CNameServer.cpp:442-521 | Whatever else the report says, an item that fails an address not yet bound reissues it in the same status with one more retry or erases it, after five reissues always, and touches no other address. |
| Rebinding.BoundItemOutcome | sources/fdbus/server/CNameServer.cpp:447-470 | An item that reports an address of the table as bound makes exactly that one bound, with its retry count, at the reported address if it is not IPC and that parses; its retries are gone. |
| Rebinding.ItemKeepsBound | sources/fdbus/server/CNameServer.cpp:442-521 | An item that does not move it leaves a bound address as it is, failures included. |
| Rebinding.RunKeepsBound | sources/fdbus/server/CNameServer.cpp:394-572 | So does every run of reports that do not move it. |
| Rebinding.SuccessLasts | sources/fdbus/server/CNameServer.cpp:394-572 | An address reported as bound is bound at once and stays so, with no retries left, through any such run. |
| Rebinding.ReportLeaves | sources/fdbus/server/CNameServer.cpp:522-547 | After any report other services are untouched, and its own is gone if and only if no address is left and none arrived. |
| Rebinding.ReportRetries | sources/fdbus/server/CNameServer.cpp:394-572 | No report, whatever its items, raises the sum of retries left of pending addresses; of all addresses not bound it does only by the fallback address, six; one that fails such an address at its turn stays below. |
| Rebinding.FailuresBounded | sources/fdbus/server/CNameServer.cpp:626-677 | In any run of reports, those that fail a pending address are at most the retries used up, and those that fail any address not bound at most these and six per fallback address, so rebinding ends. |
| Rebinding.NoRetriesNoneLeft | sources/fdbus/utils/CNsConfig.h:36 | No retries are left in the registry if and only if nothing in it is pending, or, counting all, everything is bound. |
| NameServerRuns.ApplyKeeps | sources/fdbus/server/CNameServer.cpp:140-246 | Each of allocate, host-online, bind report, unregister and offline keeps the registry valid; reports may bind elsewhere, bring unrequested addresses and reach the fallback, on free URLs and interfaces. |
| NameServerRuns.RunsKeepAddressesUnique | sources/fdbus/server/CNameServer.cpp:140-179 | In every state of every run no two descriptors share a URL, no service has two TCP addresses on an interface, and each allocator's interface is its key. |
| UrlTable.UnregisteredFree | sources/fdbus/server/CNameServer.cpp:906-924 | An address that findAddress does not find has a URL used nowhere, whatever addresses services have reported. |
| UrlTable.AllocateAllOk | sources/fdbus/server/CNameServer.cpp:1005-1024 | One pass over all allocators, interfaces written in any way, yields addresses with unused and different URLs. |
| UrlTable.AppendAllOk | sources/fdbus/server/CNameServer.cpp:156-179 | Adding them keeps URLs unique. |
| UrlTable.ReissueOk | sources/fdbus/server/CNameServer.cpp:626-677 | A reissued address has an unused URL, interfaces written in any way. |
| UrlTable.ReportUniqueIff | sources/fdbus/server/CNameServer.cpp:394-572 | A report whose addresses bound elsewhere find their URLs unused keeps all URLs unique if and only if the URLs that arrive unasked or by the fallback are unused and different. |
| NameServerRuns.ApplyOk | sources/fdbus/server/CNameServer.cpp:140-246 | Every operation, interfaces written in any way, keeps URLs unique and allocators under their interface. |
| NameServerRuns.RunsKeepUrlsUnique | sources/fdbus/server/CNameServer.cpp:140-179 | In every state of every run, interfaces written in any way, no two descriptors share a URL and each allocator's interface is its key. |
| Interfaces.AppendAllOneTcp | sources/fdbus/server/CNameServer.cpp:156-179 | Allocation never gives a service a second TCP address on an interface, whatever the interfaces. |
| Interfaces.ItemOneTcpIff | sources/fdbus/server/CNameServer.cpp:442-521 | An item of a report keeps one TCP address per interface if and only if what it puts in place, bound elsewhere or reissued, is on an interface no other address of the service is on. |
| Interfaces.ReportOneTcpIff | sources/fdbus/server/CNameServer.cpp:394-572 | So does a whole report whose items do, if and only if what arrives at the end is on free interfaces. |
| Interfaces.FailureOneTcpIff | sources/fdbus/server/CNameServer.cpp:626-677 | A failure that is reissued keeps one TCP address per interface if and only if no other address of the service is on the host without its brackets. |
| Interfaces.UnbracketedLandsFree | sources/fdbus/server/CNameServer.cpp:626-677 | For an interface that is not in brackets this is always so. |
| NameServerRuns.ApplyOneTcp | sources/fdbus/server/CNameServer.cpp:140-246 | Every operation, interfaces written in any way, keeps one TCP address per interface, a report if it lands on free ones. |
| NameServerRuns.RunsKeepOneTcp | sources/fdbus/server/CNameServer.cpp:140-179 | In every run, interfaces written in any way, whose reports land on free interfaces no service has two TCP addresses on one. |
| BracketRun.BracketsDouble | sources/fdbus/server/CNameServer.cpp:626-720 | For every interface in brackets and every user service: host online, one allocation, a failure, host online again and another failure are a run from the start that ends with two TCP addresses of the service on one host. |
| NameServerRuns.AllocateAllEach | sources/fdbus/server/CNameServer.cpp:926-1024 | With fewer services than ports every allocator finds a user service an address, on its own interface. |
| NameServerRuns.ReachableStatesAllocate | sources/fdbus/server/CNameServer.cpp:140-246 | In every reachable state, entering a new user service gives it exactly one TCP address on each interface, as long as all services are fewer than the ports. |
| Provision.AllocationEnters | sources/fdbus/server/CNameServer.cpp:181-246 | A known name is refused; any other is entered under the asking session with pending addresses, an IPC one first exactly if the session is local and one is found; no other service changes. |
| Provision.BeforeOnline | sources/fdbus/server/CNameServer.cpp:1026-1062 | Before a host is online no allocator is kept, only the host server gets TCP addresses, and it gets one on each interface it names. |
| Provision.AllInterfaces | sources/fdbus/server/CNameServer.cpp:1026-1062 | A connected name server without allocators makes one for all interfaces, keeps it and uses it. |
| Provision.OnlineReachesAll | sources/fdbus/server/CNameServer.cpp:692-720 | In every reachable state with fewer services than ports, after a host is online every user service has exactly one TCP address on every interface and keeps what it had; the host server is passed over. |
| Provision.OnlineNameServer | sources/fdbus/server/CNameServer.cpp:692-720 | The name server, if it gets new addresses then, is bound exactly where it manages to and where it was. |
| Provision.NameServerBound | sources/fdbus/server/CNameServer.cpp:1110-1133 | Binding marks exactly the name server's addresses it succeeds on, and changes nothing else. |
| Provision.DepartsExactly | sources/fdbus/server/CNameServer.cpp:1096-1108 | Unregistering takes one service and a lost session exactly its own; the allocators stay. |
| Provision.ReissuedIff | sources/fdbus/server/CNameServer.cpp:626-677 | In every reachable state with fewer services than ports a failed TCP address of a user service is reissued if and only if it was so fewer than five times and its interface has an allocator. |
| Provision.StrangerItem | sources/fdbus/server/CNameServer.cpp:472-487 | An unrequested address is adopted as bound if it parses; else the item does nothing. |
| Provision.ReporterOwns | sources/fdbus/server/CNameServer.cpp:394-436 | A service belongs to the session that reported last. |
| Provision.UrlFound | sources/fdbus/server/CNameServer.cpp:489-530 | Exactly a bound address, other than TCP on all interfaces seen over a local session, makes the fallback unnecessary. |
| Provision.FallbackAdds | sources/fdbus/server/CNameServer.cpp:531-572 | The fallback adds the host server's IPC address, neither pending nor bound, behind the others. |
| NameServerRuns.Server.AllocateTcpAddresses | sources/fdbus/server/CNameServer.cpp:1005-1024 | The loop over the allocators computes the specification. |
| NameServerRuns.Server.AppendAddresses | sources/fdbus/server/CNameServer.cpp:156-179 | The loop that appends new addresses computes the specification in place. |
| NameServerRuns.Server.AddTcpAddresses | sources/fdbus/server/CNameServer.cpp:1026-1062 | TCP addresses come from the live allocators, or from temporary ones before the host server is online, and then only for it. |
| NameServerRuns.Server.AllocServiceAddress | sources/fdbus/server/CNameServer.cpp:218-246 | A known name is refused; otherwise the service is entered, and the answer is positive exactly if it got an address. |
| NameServerRuns.Server.CreateAllocators | sources/fdbus/server/CNameServer.cpp:952-1003 | The loop over the interfaces computes the specification. |
| NameServerRuns.Server.BindNsAddresses | sources/fdbus/server/CNameServer.cpp:1110-1133 | The addresses the name server managed to bind are marked, others are left. |
| NameServerRuns.Server.BringOnline | sources/fdbus/server/CNameServer.cpp:692-720 | One service gets addresses on the new interfaces; the host server is passed over. |
| NameServerRuns.Server.OnHostOnline | sources/fdbus/server/CNameServer.cpp:692-720 | All services, in place: the registry and the allocators are those of the model step. |
| NameServerRuns.Server.ApplyResult | sources/fdbus/server/CNameServer.cpp:442-530 | One element of a bind report, in place. |
| NameServerRuns.Server.Reconnect | sources/fdbus/server/CNameServer.cpp:626-677 | reconnectToAddress, in place, computes the specification. |
| NameServerRuns.Server.ApplyResults | sources/fdbus/server/CNameServer.cpp:442-530 | The loop of a bind report computes the specification. |
| NameServerRuns.Server.OnRegisterService | sources/fdbus/server/CNameServer.cpp:394-572 | A whole bind report computes the specification. |
| NameServerRuns.Server.Finish | sources/fdbus/server/CNameServer.cpp:522-572 | The service has what was left of its table followed by what arrived, or is gone if that is nothing; no other service changes. |
| NameServerRuns.Server.OnOffline | sources/fdbus/server/CNameServer.cpp:1096-1108 | Exactly the services of the lost session leave the registry. |
| Serializer.LeRoundTrip | sources/fdbus/fdbus/CFdbSimpleSerializer.cpp:121-139 | Little-endian bytes of a number that fits its width read back as that number. |
| Serializer.LeByteAt | sources/fdbus/fdbus/CFdbSimpleSerializer.cpp:121-139 | Byte i of an encoded scalar is the one of weight 256^i. |
| Serializer.StringLayout | sources/fdbus/fdbus/CFdbSimpleSerializer.cpp:82-87 | A string is its length with the terminator in two bytes, low byte first, the string and a NUL. |
| Serializer.NativeRead | sources/fdbus/fdbus/CFdbSimpleSerializer.cpp:204-221 | Reading into native order and then as a native scalar gives the little-endian value on hosts of either endianness. |
| Serializer.GetPutScalar | sources/fdbus/fdbus/CFdbSimpleSerializer.cpp:121-139 | A written scalar is read back, and nothing after it is consumed. |
| Serializer.GetPutString | sources/fdbus/fdbus/CFdbSimpleSerializer.cpp:167-190 | Whatever follows, a written string is read back if and only if it is free of NULs and fits a 16-bit length with its terminator. |
| Serializer.SimpleSerializer.AddMemory | sources/fdbus/fdbus/CFdbSimpleSerializer.cpp:89-119 | There is room for the bytes asked for within the capacity, and everything written before is kept. |
| Serializer.SimpleSerializer.Reallocate | sources/fdbus/fdbus/CFdbSimpleSerializer.cpp:101-117 | A larger buffer with the same contents. |
| Serializer.SimpleSerializer.AddBasicType | sources/fdbus/fdbus/CFdbSimpleSerializer.cpp:121-139 | The native bytes are appended in little-endian order. |
| Serializer.SimpleSerializer.AddRawData | sources/fdbus/fdbus/CFdbSimpleSerializer.cpp:141-149 | The bytes are appended unchanged. |
| Serializer.SimpleSerializer.AddScalar | sources/fdbus/fdbus/CFdbSimpleSerializer.cpp:121-139 | What is appended does not depend on the host's endianness. |
| Serializer.SimpleSerializer.AddString | sources/fdbus/fdbus/CFdbSimpleSerializer.cpp:82-87 | Length and terminated string are appended. |
| Serializer.SimpleDeserializer.RetrieveBasicData | sources/fdbus/fdbus/CFdbSimpleSerializer.cpp:204-221 | The next bytes, in the host's own order. |
| Serializer.SimpleDeserializer.Scalar | sources/fdbus/fdbus/CFdbSimpleSerializer.cpp:204-233 | The value the specification decodes, or the error flag, after which nothing is read. |
| Serializer.SimpleDeserializer.String | sources/fdbus/fdbus/CFdbSimpleSerializer.cpp:167-190 | The string the specification decodes, or the error flag. |
| Header.OptionBits | sources/fdbus/public/common_base/CFdbIfMessageHeader.h:135-156 | Each option bit tells whether its field is present. |
| Header.HeaderLayout | sources/fdbus/public/common_base/CFdbIfMessageHeader.h:135-156 | One byte of type, five 32-bit numbers and the option mask in 22 bytes, then filter, arrival and reply time where present. |
| Header.FixedRoundTrip | sources/fdbus/public/common_base/CFdbIfMessageHeader.h:135-168 | The seven scalars, signed ones included, are read back. |
| Header.OptionalRoundTrip | sources/fdbus/public/common_base/CFdbIfMessageHeader.h:144-181 | Every subset of optional fields is read back. |
| Header.HeaderRoundTrip | sources/fdbus/public/common_base/CFdbIfMessageHeader.h:135-182 | Decoding an encoded header followed by any bytes gives the same header and those bytes. |
| Header.Serialize | sources/fdbus/public/common_base/CFdbIfMessageHeader.h:135-156 | Appends exactly the encoding, whatever the host. |
| Header.SerializeFixed | sources/fdbus/public/common_base/CFdbIfMessageHeader.h:137-143 | Appends exactly the encoding of the scalars. |
| Header.SerializeOptional | sources/fdbus/public/common_base/CFdbIfMessageHeader.h:144-155 | Appends exactly the present optional fields. |
| Header.Deserialize | sources/fdbus/public/common_base/CFdbIfMessageHeader.h:158-182 | Yields the decoded header or raises the error flag, whatever the host. |
| Header.DeserializeFixed | sources/fdbus/public/common_base/CFdbIfMessageHeader.h:158-168 | Yields the decoded scalars or raises the error flag. |
| Framing.OutMessage.constructor | sources/fdbus/fdbus/CFdbMessage.cpp:621-634 | The payload is copied behind the space reserved for prefix and header. |
| Framing.OutMessage.BuildHeader | sources/fdbus/fdbus/CFdbMessage.cpp:511-556 | A header that is too long is refused; otherwise the buffer holds prefix, header and payload without gaps, the payload untouched. |
| Framing.OutMessage.Justify | sources/fdbus/fdbus/CFdbMessage.cpp:540-553 | Header right before the payload, prefix right before the header, with the right lengths. |
| Framing.FrameLayout | sources/fdbus/fdbus/CFdbMessage.cpp:511-555 | Frame length and header length in four bytes each, low byte first, then header and payload. |
| Framing.KindDecides | sources/fdbus/fdbus/CFdbSession.cpp:259-297 | A readable frame is taken for a message if and only if its kind is one of the seven that are dispatched. |
| Framing.FramePrefix | sources/fdbus/fdbus/CFdbMessage.cpp:511-556 | The prefix of a frame announces the frame's own length and its header's. |
| Framing.DeframeNext | sources/fdbus/fdbus/CFdbSession.cpp:206-297 | The next message of a stream of frames is the one sent, and exactly its frame is consumed. |
| Framing.DeframeCut | sources/fdbus/fdbus/CFdbSession.cpp:206-297 | A cut frame is never taken for a message. |
| Framing.DeliveredIsSentPrefix | sources/fdbus/fdbus/CFdbSession.cpp:206-297 | Whatever the fragmentation and wherever the stream ends, what is delivered is a prefix of what was sent, frame by frame. |
| Framing.StreamRoundTrip | sources/fdbus/fdbus/CFdbSession.cpp:206-297 | A complete stream of any messages delivers them all and leaves nothing. |
| Framing.Receiver.ReceiveData | sources/fdbus/fdbus/CFdbSession.cpp:168-204 | All bytes asked for, in order, for every way the socket may split them; else the session is fatal. |
| Framing.Receiver.ReceiveFrame | sources/fdbus/fdbus/CFdbSession.cpp:206-259 | One frame's header length and data, or a fatal session. |
| Framing.Receiver.OnInput | sources/fdbus/fdbus/CFdbSession.cpp:206-297 | Delivers one message and consumes exactly its frame, or marks the session fatal and delivers nothing. |
| Framing.Sender.Push | sources/fdbus/fdbus/CFdbSession.cpp:67-119 | The socket has taken a prefix of the frame; success means all of it. |
| Framing.Sender.Send | sources/fdbus/fdbus/CFdbSession.cpp:67-119 | What the socket has taken is the frames offered, one after the other, the last possibly cut by a failure, after which nothing is sent. |
| Framing.SentIsReceived | sources/fdbus/fdbus/CFdbSession.cpp:67-297 | Sender and receiver together: from whatever part of the wire has arrived, what is delivered is a prefix of the messages sent; without a failure the whole wire delivers them all. |
| JobQueue.RunHeadKeeps | sources/fdbus/worker/CBaseWorker.cpp:629-662 | Handling a job keeps the queue's order and the meaning of the discard counter. |
| JobQueue.EndDiscardKeeps | sources/fdbus/worker/CBaseWorker.cpp:889-903 | So does the second half of a discard, whether its unlock job is queued or refused. |
| JobQueue.NextKeeps | sources/fdbus/worker/CBaseWorker.cpp:669-713 | Every atomic step of every thread keeps the invariant of both queues. |
| JobQueue.RunsKeepInv | sources/fdbus/worker/CBaseWorker.cpp:467-713 | The invariant holds in every state of every interleaving. |
| JobQueue.RunsConserveJobs | sources/fdbus/worker/CBaseWorker.cpp:467-493 | Per queue, handled, dumped and queued jobs are always the accepted jobs in order: none lost, doubled or reordered. |
| JobQueue.PlainJobRunsIff | sources/fdbus/worker/CBaseWorker.cpp:669-713 | In either queue a job that is not forced runs if and only if no unlock job is behind it and no discard is under way; in the normal queue before any exit. |
| JobQueue.DiscardedJobsNeverRun | sources/fdbus/worker/CBaseWorker.cpp:861-903 | Whatever happens later, no unforced job accepted before an effective discard and not handled by then is run. |
| JobQueue.DiscardRefusedIff | sources/fdbus/worker/CBaseWorker.cpp:889-903 | A discard is refused if and only if, when its unlock job is sent, the queue is full or the worker exiting; then only the counter is taken back. |
| JobQueue.RefusedDiscard | sources/fdbus/worker/CBaseWorker.cpp:889-903 | Compared with the same run without it, a refused discard changes nothing but that unforced jobs reached while it was under way were skipped. |
| JobQueue.NoneRunMeanwhile | sources/fdbus/worker/CBaseWorker.cpp:889-903 | While a discard is under way, refused in the end or not, no unforced job is run. |
| JobQueue.RefusedDiscardRuns | sources/fdbus/worker/CBaseWorker.cpp:889-903 | A job queued before a refused discard is run after it. |
| JobQueue.RefusedDiscardSkips | sources/fdbus/worker/CBaseWorker.cpp:889-903 | A job reached while a discard was under way is skipped although the discard is refused. |
| JobQueue.AcceptedIsHandled | sources/fdbus/worker/CBaseWorker.cpp:467-713 | The p-th job handled is the p-th job accepted. |
| JobQueue.SendEnters | sources/fdbus/worker/CBaseWorker.cpp:715-734 | A job enters the queue it is sent to, at the end, if and only if the worker is not exiting and there is room; the other queue does not change. |
| JobQueue.UrgentOvertakes | sources/fdbus/worker/CBaseWorker.cpp:679-713 | What the urgent queue accepted before a normal job was handled or a pass began is handled before the next normal job. |
| JobQueue.UrgentSentOvertakes | sources/fdbus/worker/CBaseWorker.cpp:679-734 | So an urgent job that is sent and not refused by then is handled before the next normal job. |
| JobQueue.ExitsExactly | sources/fdbus/worker/CBaseWorker.cpp:695-734 | The exit code changes only by an exit job that is run and by a broken wakeup descriptor; while it is set normal jobs are not run and urgent ones are. |
| JobQueue.UrgentBeforeNormal | sources/fdbus/worker/CBaseWorker.cpp:695-713 | Every urgent job accepted before the drain that precedes a normal job is handled before that job. |
| JobQueue.PassHandlesAll | sources/fdbus/worker/CBaseWorker.cpp:695-713 | When a pass is over, every job accepted before it began has been handled. |
| WorkerLoop.Queue.TryEnqueue | sources/fdbus/worker/CBaseWorker.cpp:475-487 | A job is accepted if and only if there is room, after all accepted before; order is conserved. |
| WorkerLoop.Queue.DumpJobs | sources/fdbus/worker/CBaseWorker.cpp:489-493 | The queue is empty afterwards, and what is still to be handled is the same in the same order. |
| WorkerLoop.Queue.RunOldest | sources/fdbus/worker/CBaseWorker.cpp:629-662 | The job handled is the one accepted next after those handled; unforced and allowed to run, it is run if and only if no unlock job is behind it and no discard is under way. |
| WorkerLoop.Queue.FinishDiscard | sources/fdbus/worker/CBaseWorker.cpp:889-898 | The unlock job is queued, or the counter taken back. |
| WorkerLoop.BaseWorker.constructor | sources/fdbus/worker/CBaseWorker.cpp:467-473 | A new worker satisfies the invariant. |
| WorkerLoop.BaseWorker.Act | sources/fdbus/worker/CBaseWorker.cpp:715-734 | A send or half a discard by any thread is the model step. |
| WorkerLoop.BaseWorker.Interfere | sources/fdbus/worker/CBaseWorker.cpp:715-734 | Whatever other threads do leaves vectors, handled jobs and exit code alone. |
| WorkerLoop.BaseWorker.OnError | sources/fdbus/worker/CFdEventLoop.cpp:79-88 | A broken wakeup descriptor found between passes is the model step that sets the exit code. |
| WorkerLoop.BaseWorker.ProcessDumpedUrgent | sources/fdbus/worker/CBaseWorker.cpp:669-677 | The loop over an urgent vector ends with the vector handled. |
| WorkerLoop.BaseWorker.DrainUrgent | sources/fdbus/worker/CBaseWorker.cpp:679-690 | Every urgent job accepted before the drain is handled when it returns. |
| WorkerLoop.BaseWorker.ProcessJobQueue | sources/fdbus/worker/CBaseWorker.cpp:695-713 | With any interference at every point the pass ends, and every job accepted before it has been handled in order. |
| Pending.ApplyKeeps | sources/fdbus/fdbus/CFdbSession.cpp:142-166 | Every send, response and termination keeps the table consistent. |
| Pending.RunsLeaveOnce | sources/fdbus/fdbus/CFdbSession.cpp:350-425 | In every run a request that entered the table is in it or has left it exactly once, never both. |
| Pending.RunsHandOverOnce | sources/fdbus/fdbus/CFdbSession.cpp:350-425 | In every run a completion is handed over at most once, never while the request waits, never to a blocked caller. |
| Pending.FailuresHandedOverOnce | sources/fdbus/fdbus/CFdbSession.cpp:565-589 | In every run an asynchronous request that ends by mismatch, timeout or loss of the session is handed over exactly once, a blocking one never. |
| Pending.AnswerHandedOverIff | sources/fdbus/fdbus/CFdbSession.cpp:350-425 | A response takes the request out, and hands its completion over if and only if the caller does not block and the object does not match, or is known and the response is a reply, a sideband reply or a status. |
| Pending.AnswerCallback | sources/fdbus/fdbus/CFdbSession.cpp:350-425 | Exactly which callback a response leads to: doReply, doGetEvent, onSidebandReply or doStatus, by its kind, the request's kind and the event-get flag. |
| Pending.SendOutcome | sources/fdbus/fdbus/CFdbSession.cpp:142-166 | A written message waits under its number unless another does; one not written waits nowhere and is reported to its caller by doReply. |
| Pending.DepartsFor | sources/fdbus/fdbus/CFdbSession.cpp:350-425 | A request leaves the table for the reason that caused it: answered, object mismatch, or the status given. |
| Pending.LateChangesNothingIff | sources/fdbus/fdbus/CFdbSession.cpp:350-425 | A late response, duplicate or timer changes nothing if and only if no later request waits under the same 32-bit number. |
| Pending.LateChangesNothing | sources/fdbus/fdbus/CFdbMessage.cpp:33-50 | Within the first 2^32 sends it changes nothing. |
| Pending.UntrackedIff | sources/fdbus/public/common_base/CEntityContainer.h:43-53 | A written request is not entered if and only if its number is still in use. |
| Pending.RequestSession.constructor | sources/fdbus/public/common_base/CEntityContainer.h:28-31 | The table starts empty. |
| Pending.RequestSession.SendMessage | sources/fdbus/fdbus/CFdbSession.cpp:142-166 | In place: number taken, entry made or refused, a failed send reported to an asynchronous caller. |
| Pending.RequestSession.DoResponse | sources/fdbus/fdbus/CFdbSession.cpp:350-425 | In place: the callback chosen by the response and request kinds, the entry removed on every branch. |
| Pending.RequestSession.TerminateMessage | sources/fdbus/fdbus/CFdbSession.cpp:565-589 | In place: the entry removed and, unless the caller blocks, its completion handed over; nothing if there is none. |
| Pending.RequestSession.Destroy | sources/fdbus/fdbus/CFdbSession.cpp:42-51 | Afterwards every request that ever entered has left, those left over because the peer vanished. |
| SyncWakeup.NextKeeps | sources/fdbus/worker/CBaseWorker.cpp:40-61 | Every step keeps a blocked caller's job at exactly one stage, with exactly the references of that stage. |
| SyncWakeup.RunHeadKeeps | sources/fdbus/worker/CBaseWorker.cpp:629-662 | Running a job and its wake-up check keep that. |
| SyncWakeup.ResolveKeeps | sources/fdbus/fdbus/CFdbSession.cpp:565-589 | Resolving a request and its wake-up check keep that. |
| SyncWakeup.PostedOnceIffResolvedAndNotCut | sources/fdbus/worker/CBaseWorker.cpp:766-794 | In every state of every run a caller is posted at most once and only after its request is resolved; while it waits it has been posted if and only if the request was resolved with no dumped vector referring to it. |
| SyncWakeup.CutIffHeld | sources/fdbus/worker/CBaseWorker.cpp:40-49 | The use count is the initial count plus one if and only if no dumped vector refers to the request. |
| SyncWakeup.PostedIffResolved | sources/fdbus/fdbus/CFdbSession.cpp:422-423 | If responses, timeouts and losses come between passes, a waiting caller is posted exactly once, exactly if its request is resolved. |
| SyncWakeup.CutCallersWaitForever | sources/fdbus/worker/CBaseWorker.cpp:40-49 | A caller that missed its post is never posted later. |
| SyncWakeup.SendEnters | sources/fdbus/worker/CBaseWorker.cpp:715-790 | A job that is accepted goes to the end of the queue it is sent to, and a synchronous caller waits. |
| SyncWakeup.AbandonedNeverRuns | sources/fdbus/worker/CBaseWorker.cpp:629-651 | A job whose caller gave up before it was run is not run in any continuation, until it is sent again. |
| SyncWakeup.LostWakeup | sources/fdbus/worker/CBaseWorker.cpp:695-713 | It happens: a job that disconnects the session later in the same pass resolves the request without waking its caller. |
| Timers.EnableKeeps | sources/fdbus/worker/CBaseEventLoop.cpp:42-80 | Enabling a timer keeps the working list sorted, free of duplicates and equal to the enabled timers. |
| Timers.EnableMeaning | sources/fdbus/worker/CBaseEventLoop.cpp:42-80 | Enabling arms the timer for the start time or now, plus the initial value or the interval; with neither it is disabled; no other timer changes. |
| Timers.InsertBehind | sources/fdbus/worker/CBaseEventLoop.cpp:69-80 | A timer is inserted behind exactly those that expire no later. |
| Timers.ConfiguredMeaning | sources/fdbus/worker/CBaseEventLoop.cpp:82-106 | A configuration changes exactly the given fields, and arms, disarms or leaves the timer. |
| Timers.AttachedAndRemoved | sources/fdbus/worker/CBaseEventLoop.cpp:128-154 | A new timer goes to the end, disabled; a removed one is in neither list. |
| Timers.DisableKeeps | sources/fdbus/worker/CBaseEventLoop.cpp:44-48 | So does disabling it. |
| Timers.RemoveKeeps | sources/fdbus/worker/CBaseEventLoop.cpp:143-149 | So does removing it, after which it is in neither list. |
| Timers.CapturedExact | sources/fdbus/worker/CBaseEventLoop.cpp:206-221 | The scan that stops at the first timer not due captures exactly the enabled timers that are due. |
| Timers.RearmedAreAhead | sources/fdbus/worker/CBaseEventLoop.cpp:225-228 | A captured timer is enabled after rearming if and only if it repeats with a positive interval, and then expires after now; others are untouched. |
| Timers.RearmingLeavesNoneDue | sources/fdbus/worker/CBaseEventLoop.cpp:206-228 | Once rearming is done every enabled timer expires strictly after now. |
| Timers.EventLoop.EnableTimer | sources/fdbus/worker/CBaseEventLoop.cpp:50-79 | The scan inserts the timer behind those that expire no later; a non-positive delay only disables. |
| Timers.EventLoop.DisableTimer | sources/fdbus/worker/CBaseEventLoop.cpp:44-48 | The timer leaves the working list. |
| Timers.EventLoop.ConfigTimer | sources/fdbus/worker/CBaseEventLoop.cpp:82-106 | Fields not given stay; then enabled or disabled as told. |
| Timers.EventLoop.AddTimer | sources/fdbus/worker/CBaseEventLoop.cpp:128-141 | A timer already in the loop is left alone; a new one is added and enabled or not. |
| Timers.EventLoop.RemoveTimer | sources/fdbus/worker/CBaseEventLoop.cpp:143-149 | In place, with the timer on the black list. |
| Timers.EventLoop.GetMostRecentTime | sources/fdbus/worker/CBaseEventLoop.cpp:166-184 | -1 without timers, else the least wait over all enabled timers, not below zero; the cast to int32 loses nothing. |
| Timers.EventLoop.Capture | sources/fdbus/worker/CBaseEventLoop.cpp:206-221 | The capturing loop computes the specification. |
| Timers.EventLoop.RearmCaptured | sources/fdbus/worker/CBaseEventLoop.cpp:225-228 | The rearming loop computes the specification. |
| Timers.EventLoop.RunOne | sources/fdbus/worker/CBaseEventLoop.cpp:230-247 | One turn: run unless removed since the pass began; a callback that throws removes its timer. |
| Timers.EventLoop.ProcessTimers | sources/fdbus/worker/CBaseEventLoop.cpp:206-250 | The whole pass for any callbacks: exactly the due timers are captured; after rearming none is due; each captured timer has one turn in order of expiry and is run at it if and only if it was not removed since the outermost pass began. |
| Watches.SafeAppend | sources/fdbus/worker/CFdEventLoop.cpp:489-507 | The black list grows by exactly the removals of the pass. |
| Watches.TurnMeaning | sources/fdbus/worker/CFdEventLoop.cpp:211-330 | A fatal watch or an error goes to onError, else a hang-up to onHup, else input before output; a removed or idle watch is passed over. |
| Watches.EventLoop.SetEnabled | sources/fdbus/worker/CFdEventLoop.cpp:445-477 | The watch is in the working list exactly if enabled, once; enabling clears its fatal mark. |
| Watches.EventLoop.Add | sources/fdbus/worker/CFdEventLoop.cpp:430-435 | A watch is registered and enabled or not; the black list is untouched. |
| Watches.EventLoop.Remove | sources/fdbus/worker/CFdEventLoop.cpp:437-443 | A removed watch is black-listed and in neither list. |
| Watches.EventLoop.Call | sources/fdbus/worker/CFdEventLoop.cpp:241-322 | A handler call is allowed only on a watch that is registered and not removed in this pass; whatever it does, re-entry included, keeps the black list exact. |
| Watches.EventLoop.DispatchInput | sources/fdbus/worker/CFdEventLoop.cpp:334-376 | An input pass, nested to any depth or outermost, keeps all of that. |
| Watches.EventLoop.Pollable | sources/fdbus/worker/CFdEventLoop.cpp:180-209 | The nested poll array holds registered watches only. |
| Watches.EventLoop.Fail | sources/fdbus/worker/CFdEventLoop.cpp:227-245 | onError is called, and a throwing handler leaves the watch removed. |
| Watches.EventLoop.Transfer | sources/fdbus/worker/CFdEventLoop.cpp:284-327 | Input, output and the error they report are handled in this order, each unless the watch was removed before. |
| Watches.EventLoop.ProcessOne | sources/fdbus/worker/CFdEventLoop.cpp:222-329 | At its turn a watch is passed over if and only if it was removed since the outermost pass began or has nothing to report; otherwise the right handler is called first. |
| Watches.EventLoop.ProcessWatches | sources/fdbus/worker/CFdEventLoop.cpp:211-332 | A pass over live watches: each has one turn, last to first, and in the whole pass, nested ones included, no handler is called on a watch after it was removed. |
| Listeners.NobodyLiveIff | sources/capicxx-core-runtime/include/CommonAPI/Event.hpp:112-113 | Comparing the sizes of the pending sets is the test that no listener is live. |
| Listeners.FlushRefines | sources/capicxx-core-runtime/include/CommonAPI/Event.hpp:171-184 | A flush changes nobody's membership. |
| Listeners.SubscribeRefines | sources/capicxx-core-runtime/include/CommonAPI/Event.hpp:105-125 | subscribe adds its listener; onFirstListenerAdded fires if and only if nobody was live, onLastListenerRemoved if and only if moreover removals are still deferred. |
| Listeners.UnsubscribeRefines | sources/capicxx-core-runtime/include/CommonAPI/Event.hpp:128-164 | unsubscribe takes its listener away; onListenerRemoved fires if and only if it was live, onLastListenerRemoved if and only if that leaves nobody. |
| Listeners.DropRefines | sources/capicxx-core-runtime/include/CommonAPI/Event.hpp:255-271 | The removal after a failed notification takes the listener away, too. |
| Listeners.RunsRefine | sources/capicxx-core-runtime/include/CommonAPI/Event.hpp:105-191 | In every run whose subscriptions find a number not in use the deferred sets refine one plain table of live listeners. |
| Listeners.FewJoinsAreFresh | sources/capicxx-core-runtime/include/CommonAPI/Event.hpp:111 | So it is in every run with at most 2^32 subscriptions. |
| Listeners.NumbersCount | sources/capicxx-core-runtime/include/CommonAPI/Event.hpp:111 | Numbers count subscriptions modulo 2^32. |
| Listeners.JoinWorksIff | sources/capicxx-core-runtime/include/CommonAPI/Event.hpp:105-125 | A subscription is new, is live after the next flush and can be taken back if and only if its number is not in use. |
| Listeners.StaleNumber | sources/capicxx-core-runtime/include/CommonAPI/Event.hpp:105-125 | Otherwise a waiting listener is replaced, or the new one is dropped by the next flush, or it cannot be taken back before that. |
| Listeners.HookBalance | sources/capicxx-core-runtime/include/CommonAPI/Event.hpp:105-164 | Over every such run the first-listener hook fires as often as the last-listener hook, plus one while somebody is live, corrected by exactly the repeated and the silent departures. |
| Listeners.ListenerBalance | sources/capicxx-core-runtime/include/CommonAPI/Event.hpp:105-164 | Per listener, it was reported as added as often as reported as removed or dropped silently, and once more while it is live. |
| Listeners.LastFiresTwice | sources/capicxx-core-runtime/include/CommonAPI/Event.hpp:117-121 | A last departure is reported again by a subscription that comes before the next notification. |
| Listeners.LastNeverFires | sources/capicxx-core-runtime/include/CommonAPI/Event.hpp:255-271 | A last departure by a failed notification that is then flushed is never reported. |
| Listeners.EventSource.constructor | sources/capicxx-core-runtime/include/CommonAPI/Event.hpp:42 | A new event has no listeners. |
| Listeners.EventSource.DoSubscribe | sources/capicxx-core-runtime/include/CommonAPI/Event.hpp:105-125 | In place: tables, number and hooks are those of the specification. |
| Listeners.EventSource.DoUnsubscribe | sources/capicxx-core-runtime/include/CommonAPI/Event.hpp:128-164 | In place: tables and hooks are those of the specification. |
| Listeners.EventSource.FlushPending | sources/capicxx-core-runtime/include/CommonAPI/Event.hpp:171-184 | The two loops compute the specification. |
| Listeners.EventSource.EraseRemoved | sources/capicxx-core-runtime/include/CommonAPI/Event.hpp:171-176 | Exactly the deferred removals are erased. |
| Listeners.EventSource.InsertAdded | sources/capicxx-core-runtime/include/CommonAPI/Event.hpp:178-183 | Exactly the deferred additions are inserted, replacing nothing. |
| Listeners.EventSource.Act | sources/capicxx-core-runtime/include/CommonAPI/Event.hpp:105-164 | One thing a callback does: the tables are those of the specification. |
| Listeners.EventSource.Callback | sources/capicxx-core-runtime/include/CommonAPI/Event.hpp:186-188 | What a callback subscribes and unsubscribes is applied in order. |
| Listeners.EventSource.NotifyListeners | sources/capicxx-core-runtime/include/CommonAPI/Event.hpp:167-191 | Every listener live at the flush is called exactly once, in order of number, whatever callbacks subscribe or unsubscribe. |
| Listeners.EventSource.NotifySpecificError | sources/capicxx-core-runtime/include/CommonAPI/Event.hpp:225-273 | The error callback of the one listener is called if it has one; after a failure the listener is dropped without a hook. |
| Tokens.AllocateTokens | sources/fdbus/security/CFdbToken.cpp:23-50 | On exit there is one token per level, all different, all drawn from the random source; it exits if and only if the source yields enough different strings. |
| Tokens.DrawNew | sources/fdbus/security/CFdbToken.cpp:28-47 | The inner loop returns the first string drawn that is not a token yet. |
| Tokens.CheckSecurityLevel | sources/fdbus/security/CFdbToken.cpp:57-72 | The first position of a non-empty token that occurs, else none, which is 0. |
| Tokens.LevelIff | sources/fdbus/security/CFdbToken.cpp:57-72 | The level is the place of the token, and none for an empty or unknown string. |
| Tokens.FirstTokenCounts | sources/fdbus/fdbus/CBaseServer.cpp:270-281 | A client that shows several tokens is seen at the place of the first. |
| Tokens.RemoteTokens | sources/fdbus/server/CNameServer.cpp:273-293 | A host gets the tokens of all levels up to its own. |
| Tokens.LocalLevel | sources/fdbus/server/CNameServer.cpp:335-352 | A local client of level L is seen by the service at min(L, n - 1), or at none if L is negative. |
| Tokens.RemoteLevel | sources/fdbus/server/CInterNameProxy.cpp:242-261 | A client of level L behind a host of level H is seen at min(L, H, n - 1), or at none if either is negative. |
| Tokens.LevelsNeverRise | sources/fdbus/fdbus/CBaseServer.cpp:270-281 | Relaying through a host never raises a level, and no level above 0 exceeds what client or host was given. |
| Tokens.NoTokenIsLevelZero | sources/fdbus/fdbus/CBaseServer.cpp:270-281 | The service tells a client from one without a token if and only if its level is above 0 and there is more than one token. |

## Left out

- Sockets, poll, eventfd, threads and mutexes: environment parameters and atomic steps.
- Re-entrant flush, and input dispatched in the middle of a send: they break queue order and the use-count argument.
- Interleaved sends on one session: frames are sent one after the other.
- Building the poll array with fatal watches: a pass starts from a live array.
- Windows branches, and the system-port mode of the allocators.
- The name server's notifications, queries and host information, and the tokens field of the registry.
- Endpoint session counts, service queries across hosts, host token exchange, and encryption hooks with empty bodies.
- JSON configuration and user and group lookups: a security level is a parameter.
- The C and Python bindings, log server and tools, vsomeip samples and libraries outside the core: plumbing.
- CommonAPI's other classes, and `notifySpecificListener` and `notifyErrorListeners`, whose loops are those of the members above.
- Hooks of `Event` that subscribe or unsubscribe themselves.
- The boolean result of the targeted broadcast: delivery is stated over a log of frames instead.
- Logging, debug time stamps in messages, and message buffers after they are handed over.
- A job whose `sendSync` was refused stays marked as waited for; sending it again asynchronously, which the code does not guard, is not modelled.
- A synchronous job whose caller gave up is not run: the queue model runs it, the wake-up model does not.
- Timer callbacks that start a timer pass: `processTimers` is called from the dispatcher only.
- Clock values near the end of 64 bits.
- NameServerRuns.RunsKeepAddressesUnique: excludes interfaces written in brackets, for which NameServerRuns.RunsKeepUrlsUnique still holds and NameServerRuns.RunsKeepOneTcp as far as it can, and addresses that a service binds elsewhere or unasked on a URL or interface that is taken, which break it.
- Serializer.SimpleSerializer.AddMemory: sizes are taken to fit 32 bits, which the code does not check; so do the members that call it, and Header.Serialize.
- Framing.Receiver.OnInput: relies, as the code does, on the lengths in the prefix staying within the frame.
- Listeners.RunsRefine: covers runs whose subscriptions find a number not in use; Listeners.StaleNumber says what happens otherwise.
- Pending.LateChangesNothing: covers the first 2^32 sends; Pending.LateChangesNothingIff is the exact condition beyond.
- SyncWakeup.PostedIffResolved: covers runs that resolve requests between passes; SyncWakeup.PostedOnceIffResolvedAndNotCut covers all runs.
- Pending.RequestSession.Destroy: leaves the order in which waiting requests are ended open.
- Listeners.EventSource.FlushPending: leaves the order within the two loops open; it does not affect the result.
