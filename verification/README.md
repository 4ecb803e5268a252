# relayd, modelled and verified in Dafny

relayd is a port forwarder: an HTTP control plane hands out relay ports, stores them in SQLite and
drives one of two data planes, a user-space TCP/UDP proxy or a set of nftables DNAT rules.  This
project models the parts of it where several pieces of state have to agree, and proves what they
promise for all inputs, all failures and all interleavings of the steps modelled.

`dafny verify dfyconfig.toml` checks the whole project.

| file | models | main theorems |
|---|---|---|
| `Model.dfy` | the shared records | |
| `UdpSessions.dfy`, `UdpRuns.dfy` | one UDP listener as interleaved atomic steps of the receive, reply, cleanup and update tasks | `QuietMeansCurrent`, `NoStaleReply`, `TableSafety`, `UpdateSafeIffCounterAdvances` |
| `UdpSending.dfy`, `UdpGrouping.dfy`, `UdpReceiver.dfy` | the receive task's loops, run against that machine with the other tasks interfering at every access | `ReceiveTask.ProcessBatch` |
| `NftCompiler.dfy`, `NftBackend.dfy` | the nftables backend as a compiler from a rule list to register programs | `CompileCorrect`, `ReplaceRuleset` |
| `IdOrder.dfy`, `NetlinkRules.dfy`, `NetlinkSteps.dfy`, `NetlinkRuntime.dfy` | from allocations to rules, and the runtime that keeps the kernel in step with a failing backend, as atomic steps and as whole calls | `DispatchExact`, `ReportsTrulyIffSettled`, `Netlink.Run` |
| `PortSearch.dfy`, `Storage.dfy`, `Repository.dfy` | the gap query, the two tables with their three readings, the transactions | `LeastGap`, `ReadingsAgree`, `MigrationInvisible` |
| `Runtimes.dfy`, `ServiceFacts.dfy`, `AllocationService.dfy`, `ServiceRuns.dfy` | the allocation service over store and runtime, every call of which may fail | `Service.CreateAllocation`, `InsertsSafeIffPlain`, `ServiceRuns.Run` |
| `EndToEnd.dfy` | from the stored rows to the verdict on a packet, and the service over the netlink runtime | `StoreDecidesDispatch`, `RunOverNetlink` |
| `DualRuntime.dfy`, `ProxyRuns.dfy` | the proxy runtime's two listener tables and its index, and the service over it | `BindKeepsIndexIff`, `RunKeepsIndex`, `RunOverProxy` |
| `Rates.dfy` | the generation-tagged rate cache | `RateCalculator.Calculate`, `RatesConserveBytes` |

## How to read the model

- **UDP interleavings.** A `Listener` is the shared state and a `Step` is one critical section or one
  atomic access, so a run of steps is one interleaving.  `update` is three steps (publish the
  generation, commit the entry state, drain the table) and any number of updates may be between
  them; the check, the generation load and the insert of a new session are separate steps, and the
  insert may be overtaken by a publish.  Sessions have identities because the code compares
  pointers.  `ReceiveTask` runs the code's loops on this machine: before each of its accesses the
  other tasks take the steps a schedule `others` gives them, and the schedule is an arbitrary
  parameter, as are the outcomes of connecting sockets and of each send.
- **nftables.** A packet is the header bytes the programs load plus the FIB type of its destination.
  The machine has four registers; a comparison or a lookup that fails breaks off the program and the
  chain goes on with the next one.  Address and port registers double as protocol and port
  registers, as in the code, so the order of the two lookups matters to the proof.
- **Failures.** Every repository and runtime call takes a parameter saying whether it fails; a failed
  transaction changes nothing; after a failed nftables call the kernel holds an arbitrary ruleset.
- **Service runs.** The ghost set `suspect` holds ids that may be out of step; everything else is in
  step.  `ServiceRuns.Run` bounds it by what the callers were told: an id is in `FailedAfter` only if
  its last mutation ended in an error, where a failed create counts against the id it had generated
  (the ghost result `born`), and then only if undoing it failed too.
- **Kinds of runtime.** The service is generic over its runtime.  `Runtime` stands for all of them:
  with `keepsFailed` a failed update or restore is remembered, as the netlink runtime does, and
  without it nothing changes, as in the in-memory runtime and the proxy.  It notes its calls and their
  outcomes, so `RunOverNetlink` and `RunOverProxy` can give a `Netlink` or a `RealRuntime` the very
  calls the service made; since either depends on nothing but its calls and on what the backend and
  the ports do, this is the service run over it.  `kindred` says that the runtime started with the
  protocols the rows name, as an empty one does.
- **Netlink steps.** A call that changes the netlink runtime is three steps: project the rules, run the
  backend, record the outcome.  Such calls are serialized by a lock that snapshots do not take
  (`src/runtime/netlink.rs:792-806`, `src/runtime/netlink.rs:841-842`), so a snapshot may see the state
  after any step.  The methods of `Netlink` are whole calls, equal to their three steps.
- **Byte order.** The FIB expression writes a 32-bit address type and the code compares one byte of
  it (`src/runtime/netlink.rs:313-316`).  The model stores the type low byte first, as on a
  little-endian host; on a big-endian host that comparison would not see it.

## Where a promise holds only under a condition

- The generation counter saturates (`src/runtime/udp.rs:1048`).  `UpdateSafeIffCounterAdvances`
  shows that an update is safe against a concurrent receive task exactly while the counter can still
  advance, and `OvertakenRun` builds the failing interleaving at the top of the counter.  The run
  theorems therefore ask that the counter has room for the updates of the run.
- A snapshot taken between a backend call and the recording of its outcome can report an allocation
  active that the kernel no longer serves as reported.  `ReportsTrulyIffSettled` shows that snapshots
  report truly whatever the backend answers if and only if no call is at that point, or nothing is
  reported active; `OvertakenSnapshot` builds the failing run, and `OthersServedMeanwhile` shows that
  after a success the report is still right for every allocation the call is not about.
- The port query compares the protocol column as text while reading it ignores case
  (`src/storage/sqlite.rs:338-386`, `src/model.rs:33-37`).  For a store without overlaps,
  `InsertsSafeIffPlain` shows that every insert a search over a range of ports allows keeps it so if
  and only if every row with a readable protocol and a port in that range has lower-case text, which
  is what the repository itself writes.  `UpperCaseOverlooked` gives a store with one row reading `TCP` from which the port is
  handed out a second time, and `IndexIsNotEnough` shows that the unique index alone never prevents it.
- `RealRuntime` keeps its protocol index right under every bind outcome if and only if the id is not
  already in a table the bind would leave or roll back (`BindKeepsIndexIff`).
- `delete_allocation` puts the runtime entry back only on the failpoint path
  (`src/service/allocation_service.rs:419-430`).  `DeleteAllocation` states when an id that was in
  step stays so: unless the runtime dropped the entry and then either the store failed, or the
  failpoint was on and restoring failed in a runtime that does not keep failed restores.
- The repository's README says that batching drains up to 15 further datagrams (`README.md:31`); the
  code grows batches to 64 (`src/runtime/udp.rs:22-26`, `src/runtime/udp.rs:52-60`), and the model
  follows the code.

## Model

| member | source | states |
|---|---|---|
| `UdpSessions.StepKeepsInv` | src/runtime/udp.rs:596-741 | every step of every task keeps the invariant: the counter, the entry state and the history of published targets agree, every mapped session is under its own client with all newer generations still to be drained, a closed or doomed mapped session is outdated, and the table fits its cap |
| `UdpSessions.PublishKeepsInv` | src/runtime/udp.rs:1046-1052 | publishing a generation leaves older sessions covered by the drain that is still to come |
| `UdpSessions.DrainKeepsInv` | src/runtime/udp.rs:890-904 | draining, in whatever order several updates reach it, keeps the invariant |
| `UdpSessions.InsertKeepsInv` | src/runtime/udp.rs:722-741 | inserting keeps the cap and the invariant although the cap check, the generation load and the insert are separate, and a publish may fall between the last two |
| `UdpSessions.RemoveKeepsInv` | src/runtime/udp.rs:763-786 | removing a session only while it is still the mapped one keeps the invariant, whichever task asks and for whatever reason |
| `UdpSessions.ReplyStaleKeepsInv` | src/runtime/udp.rs:607-611 | a reply task that closes its session after a failed check never closes a mapped session of the current generation |
| `UdpSessions.MarkStaleKeepsInv` | src/runtime/udp.rs:859-866 | the receive task's own closing of a whole batch never closes a current mapped session |
| `UdpRuns.RunKeepsInv` | src/runtime/udp.rs:1046-1054 | at every position of every interleaving the invariant holds and the counter equals the number of updates so far |
| `UdpRuns.QuietMeansCurrent` | src/runtime/udp.rs:700-744 | in every interleaving, whenever no update is between its publish and its drain, every mapped session has the current generation and the current target |
| `UdpRuns.PublishedAsGiven` | src/runtime/udp.rs:1042-1052 | along every run, the generation an update publishes stands ever after for the target that update was given |
| `UdpRuns.EntryIsLastGiven` | src/runtime/udp.rs:1042-1052 | the entry state always has the target the last update was given, or the initial one |
| `UdpRuns.QuietMeansLastGiven` | src/runtime/udp.rs:1034-1057 | whenever no update is pending, every mapped session is connected to the target the last update was given |
| `UdpRuns.NoStaleReply` | src/runtime/udp.rs:596-611 | once a generation is published, a reply that passes the check belongs to a mapped, open session of that or a newer generation, connected to the target published with it |
| `UdpRuns.TableSafety` | src/runtime/udp.rs:707-741 | in every interleaving the table never exceeds `max_sessions`, each key is its session's client, and a mapped session of the current generation is not closed |
| `UdpRuns.GenerationGrows` | src/runtime/udp.rs:1048-1051 | the counter never decreases along a run |
| `UdpRuns.StoppedStaysEmpty` | src/runtime/udp.rs:908-919 | once a stopped listener has been drained its table stays empty in every continuation |
| `UdpRuns.NoReplyTaskForgotten` | src/runtime/udp.rs:890-904 | in every interleaving, every session that has had a reply task is mapped, closed, or about to be closed by whoever unmapped it |
| `UdpRuns.StaleReplyCloses` | src/runtime/udp.rs:607-611 | a session whose reply task failed its check is closed or about to be, for good |
| `UdpRuns.UpdateSafeIffCounterAdvances` | src/runtime/udp.rs:1048-1051 | no interleaving with one update leaves a stale session behind if and only if the saturating counter can still advance |
| `UdpRuns.OvertakenRun` | src/runtime/udp.rs:1046-1054 | at the saturated counter, the interleaving in which a receive task overtaken by a whole update inserts an outdated session |
| `UdpSending.SendIndividually` | src/runtime/udp.rs:353-367 | sends a prefix of the requested datagrams in order and reports that prefix's length |
| `UdpSending.OneByOnePrefix` | src/runtime/udp.rs:358-366 | the first refused position determines the whole outcome |
| `UdpSending.SendBatch` | src/runtime/udp.rs:370-422 | terminates whatever share of each call the kernel takes, puts a prefix of the requested datagrams on the wire in order, reports exactly its length, and so does what some run of the one-by-one form does |
| `UdpGrouping.IndexesOfExact` | src/runtime/udp.rs:496-507 | a group lists exactly its session's positions, each once, in receive order |
| `UdpGrouping.CollectGroup` | src/runtime/udp.rs:496-507 | the inner loop fills the index array with the group and marks exactly its positions |
| `UdpGrouping.TakeGroup` | src/runtime/udp.rs:488-507 | the grouped flags mark exactly the handled positions and the handled positions grow by exactly this group |
| `UdpGrouping.GroupIsNew` | src/runtime/udp.rs:489-507 | a group that is opened contains no position handled before |
| `UdpGrouping.AllHandled` | src/runtime/udp.rs:489-507 | after the last position, the handled positions are exactly those with a session |
| `UdpReceiver.OthersRespectRely` | src/runtime/udp.rs:763-786 | no step of another task creates a session, moves the receive task, lowers the generation or adds to the table |
| `UdpReceiver.OwnStepIsOnward` | src/runtime/udp.rs:700-744 | a session that has left the table never comes back |
| `UdpReceiver.EarlierGroupFirst` | src/runtime/udp.rs:488-523 | a datagram of an earlier group was received before the same client's datagrams of a later group |
| `UdpReceiver.AppendGroup` | src/runtime/udp.rs:488-523 | appending any sent prefix of a group keeps every client's order |
| `UdpReceiver.ReceiveTask.SessionFor` | src/runtime/udp.rs:700-744 | under any interference a datagram gets its client's session, all others of that client being out of the table for good, or is counted once, as stale only if the generation has moved on; without interference: with room it gets a session that can answer and no other session that could is lost, with a full table it is dropped, with an outdated generation it is stale |
| `UdpReceiver.ReceiveTask.AssignSessions` | src/runtime/udp.rs:848-857 | every datagram of the batch is given a session of its client or counted, and no client returns to a session it has left |
| `UdpReceiver.ReceiveTask.DiscardAll` | src/runtime/udp.rs:859-867 | when the generation has moved on, every prepared session is closed, given up and counted once |
| `UdpReceiver.ReceiveTask.DiscardClosed` | src/runtime/udp.rs:869-886 | exactly closed sessions are given up and counted, and what is left was open when the checks began |
| `UdpReceiver.ReceiveTask.Discard` | src/runtime/udp.rs:859-887 | there is one state after the last lookup in which every session that is left was open and of the published generation; every session given up is closed |
| `UdpReceiver.ReceiveTask.PrepareBatch` | src/runtime/udp.rs:831-888 | datagrams with a session plus those counted as dropped, stale or rejected make up the batch, rejecting all or none; all sessions share one generation no older than the entry state at arrival, and in one state after the last lookup all were open and of the published generation |
| `UdpReceiver.ReceiveTask.RemoveSession` | src/runtime/udp.rs:763-786 | after a failed send the session is out of the table and the invariant holds; undisturbed, it is the only change |
| `UdpReceiver.ReceiveTask.ForwardGroup` | src/runtime/udp.rs:509-542 | a prefix of the group is forwarded and the rest is counted as dropped, and then the session is out of the table |
| `UdpReceiver.ReceiveTask.ProcessBatch` | src/runtime/udp.rs:485-543 | under any interference and any partial sends: forwarded plus dropped, stale and rejected equals received; each client's datagrams go out in receive order, none twice, whole, on its own session, connected to the target published with that session's generation, which was open and of the published generation in one state after the last lookup; an unbound listener rejects all; undisturbed and with room, all go out |
| `NftCompiler.MapsAgree` | src/runtime/netlink.rs:205-220 | the address map and the port map answer a port with the target of the same rule, the first of the group |
| `NftCompiler.LookupsAndNat` | src/runtime/netlink.rs:317-331 | the two lookups in this order, sharing registers, followed by DNAT give that rule's target |
| `NftCompiler.ProgramCorrect` | src/runtime/netlink.rs:286-332 | one program does to every packet what its group does as a first-match list |
| `NftCompiler.GroupFirstMatch` | src/runtime/netlink.rs:192-195 | for a packet a group can serve, only that group's rules decide the first match |
| `NftCompiler.ChainCorrect` | src/runtime/netlink.rs:189-231 | the programs from any position of the nested loops on, with any map numbering, serve exactly the packets of their groups |
| `NftCompiler.CompileCorrect` | src/runtime/netlink.rs:189-231 | for every rule list and every packet the generated programs give exactly the first-match verdict, and there are at most four |
| `NftCompiler.PortRoundTrip` | src/runtime/netlink/maps.rs:50-73 | a port survives its encoding as a map key |
| `NftBackend.PortMap.AddElement` | src/runtime/netlink/maps.rs:50-73 | adds one element keyed by the big-endian port |
| `NftBackend.FillMaps` | src/runtime/netlink.rs:205-220 | the loop with its seen-set fills both maps with the first rule of each port |
| `NftBackend.ReplaceRuleset` | src/runtime/netlink.rs:189-231 | the loops build the compiled ruleset, so every packet is treated as the rule list says, with at most four programs |
| `NftBackend.MapsAcceptable` | src/runtime/netlink.rs:197-220 | however many duplicate ports the rules have, every map has distinct keys and data of its declared length |
| `IdOrder.OrderUnique` | src/runtime/netlink.rs:895 | a strictly id-ordered list is determined by its set of ids, so an unstable sort gives one result |
| `IdOrder.LeqAtDifference` | src/runtime/netlink.rs:895 | ids are compared where they first differ, a prefix coming first |
| `NetlinkRules.FilterKeepsRules` | src/runtime/netlink.rs:889-900 | leaving out allocations without host or target port loses no rule |
| `NetlinkRules.RulesForAllocations` | src/runtime/netlink.rs:888-912 | whatever order the hash map yields, the result is the id-ordered projection of all allocations |
| `NetlinkRules.ProjectionServes` | src/runtime/netlink.rs:897-927 | a projected rule with a given target matches a local packet if and only if an allocation bound to that target covers it |
| `NetlinkRules.BoundTargetExact` | src/runtime/netlink.rs:914-919 | the bound target is the address the host reads as and the target port, if and only if there are both |
| `NetlinkRules.DispatchExact` | src/runtime/netlink.rs:888-927 | without overlapping allocations, a local packet is sent to an address and a port if and only if an allocation covers its port and protocol whose host reads as that address, of the packet's family, and whose target port is that port |
| `NetlinkRules.RemoteUntouched` | src/runtime/netlink.rs:313-316 | a packet for a destination that is not local is never redirected |
| `NetlinkRuntime.Netlink.ProjectUpsert` | src/runtime/netlink.rs:100-112 | yields the rules of the table with the candidate and leaves the table as it was |
| `NetlinkRuntime.Netlink.ProjectDelete` | src/runtime/netlink.rs:114-122 | yields the rules of the table without the id and leaves the table as it was |
| `NetlinkRuntime.Netlink.Initialize` | src/runtime/netlink.rs:758-773 | success installs the projection of everything stored; failure marks the runtime stale |
| `NetlinkRuntime.Netlink.Create` | src/runtime/netlink.rs:775-790 | success stores and installs; failure stores nothing and marks stale |
| `NetlinkRuntime.Netlink.Update` | src/runtime/netlink.rs:792-807 | stores in any case; in step exactly on success |
| `NetlinkRuntime.Netlink.Delete` | src/runtime/netlink.rs:809-822 | success removes and installs; failure keeps the allocation and marks stale |
| `NetlinkRuntime.Netlink.Restore` | src/runtime/netlink.rs:824-839 | stores in any case; in step exactly on success |
| `NetlinkSteps.StepKeepsInv` | src/runtime/netlink.rs:758-839 | each of the three steps of every call, with any backend answer, keeps the invariant that ties the kernel to the stored allocations or to the candidate in flight |
| `NetlinkSteps.RunKeepsInv` | src/runtime/netlink.rs:758-839 | the invariant holds at every position of every run of steps |
| `NetlinkSteps.ActiveMeansInStep` | src/runtime/netlink.rs:841-860 | at any position of any run that is not between a backend call and the recording of its outcome, an active status means that the kernel holds exactly the projection of everything stored and, without overlaps, sends the allocation's packets to its target |
| `NetlinkSteps.ReportsTrulyIffSettled` | src/runtime/netlink.rs:792-860 | snapshots report truly for every backend answer if and only if no call is between its backend call and the recording of its outcome, or nothing is reported active |
| `NetlinkSteps.OvertakenSnapshot` | src/runtime/netlink.rs:792-806 | for any bound allocation and any other target port, the run in which a snapshot reports the old port as active while the kernel already sends its packets to the new one |
| `NetlinkSteps.OthersServedMeanwhile` | src/runtime/netlink.rs:775-839 | even then, after a success, every allocation the call is not about is served as reported |
| `NetlinkRuntime.Netlink.Snapshot` | src/runtime/netlink.rs:841-886 | what is reported in any state, field by field: active with the bound target, rejecting without one, degraded with the backend's message; between calls an allocation reported active means that the kernel holds exactly the projection of all stored allocations and, without overlaps, that every local packet it covers goes to what it is bound to |
| `NetlinkRuntime.Netlink.Run` | src/runtime/netlink.rs:758-839 | after any run of whole calls with any backend failures, a successful last call leaves the kernel in step with everything stored, failed updates included; a failed one leaves the runtime marked stale |
| `PortSearch.ScanLeast` | src/storage/sqlite.rs:329-393 | the linear search finds the least free port, and nothing if and only if all are taken |
| `PortSearch.GapExact` | src/storage/sqlite.rs:338-386 | the least candidate that is not occupied is the linear search's answer |
| `PortSearch.LeastGap` | src/storage/sqlite.rs:338-386 | the gap query equals the linear search for every set of occupied ports and every range, empty ones included |
| `Storage.FindAvailablePort` | src/storage/sqlite.rs:329-393 | for each of the three protocol filters the query equals the linear search and its port always converts |
| `Storage.ReadingsAgree` | src/storage/sqlite.rs:502-613 | on every pair of tables the three readings succeed on the same rows and agree there, and the joined binding is what `get_binding` reads |
| `Storage.HydratedFrom` | src/storage/sqlite.rs:502-613 | what a row hydrates to, column by column, the binding's target and host coming before the row's own |
| `Storage.MigrationInvisible` | src/storage/sqlite.rs:448-460 | the migration changes no readable allocation and no existing binding |
| `Storage.MigrationCompletes` | src/storage/sqlite.rs:448-460 | after the migration `get_binding` reads nothing for an allocation without a target, the binding there was, or else one with exactly the allocation's target, host and times |
| `Storage.CompleteReading` | src/storage/sqlite.rs:271-292 | where every row with a target has its binding, `get_binding` reads one exactly when the allocation hydrates to a target, with the same port and, where the row repeats it, the same host |
| `Storage.MigrationIdempotent` | src/storage/sqlite.rs:448-460 | migrating twice is migrating once |
| `Storage.ProtocolRoundTrip` | src/model.rs:14-40 | a written protocol column is read back as the same protocol |
| `Storage.FilterExactIffCanonical` | src/storage/sqlite.rs:338-386 | the text filter selects exactly the conflicting rows if and only if the stored text is lower case |
| `Storage.IndexIsNotEnough` | src/storage/sqlite.rs:428-436 | a store that satisfies the unique index and still gives one port to two rows |
| `Repositories.Repository.InsertAllocation` | src/storage/sqlite.rs:148-164 | adds exactly one row, or nothing when it fails or a key or the index is taken |
| `Repositories.Repository.InsertWithBinding` | src/storage/sqlite.rs:166-200 | adds both rows or none |
| `Repositories.Repository.PutBinding` | src/storage/sqlite.rs:202-233 | upserts the binding with its first creation time and mirrors it into the legacy columns, or changes nothing |
| `Repositories.Repository.DeleteBinding` | src/storage/sqlite.rs:235-255 | removes the binding and clears the mirrored columns, or reports that there was none |
| `Repositories.Repository.DeleteAllocation` | src/storage/sqlite.rs:257-269 | removes both rows, or changes nothing |
| `Repositories.Repository.ListAllocations` | src/storage/sqlite.rs:395-414 | lists exactly the hydrated rows, and fails if and only if the query does or one row is unreadable |
| `Runtimes.Runtime.Create` | src/runtime/facade.rs:155-168 | a failed create leaves what is held as it was in either kind of runtime |
| `Runtimes.Runtime.Update` | src/runtime/facade.rs:170-181 | a failed update changes nothing in memory and is remembered by a runtime that keeps failed writes |
| `Runtimes.Runtime.Restore` | src/runtime/facade.rs:193-203 | like update, for a restored allocation |
| `Runtimes.Runtime.Delete` | src/runtime/facade.rs:183-191 | a failed delete leaves what is held as it was; what is held is always what the noted calls have left |
| `ServiceFacts.PutHydrates` | src/service/allocation_service.rs:472-477 | what the service hands to the runtime after a put is what a later read hydrates |
| `ServiceFacts.ClearHydrates` | src/service/allocation_service.rs:312-328 | after a delete of the binding a read hydrates an unbound allocation |
| `ServiceFacts.InsertHydrates` | src/service/allocation_service.rs:159-180 | a created allocation reads back as itself, with or without a target port |
| `ServiceFacts.TakenIsConflict` | src/storage/sqlite.rs:338-386 | where the store is plain a port is taken for the filter if and only if a conflicting row has it, or an unreadable one when both protocols are asked for |
| `ServiceFacts.InsertSound` | src/service/allocation_service.rs:104-142 | adding a row on a port of a range that is not taken keeps the store free of overlaps and plain on that range |
| `ServiceFacts.InsertsSafeIffPlain` | src/storage/sqlite.rs:338-386 | from a store without overlaps and for any range of ports, every insert a search over that range allows keeps it so if and only if every row with a readable protocol and a port in that range has lower-case text |
| `ServiceFacts.OverlookedRow` | src/storage/sqlite.rs:338-386 | for any readable row in another spelling, the allocation that the search and the index let through onto the same port |
| `ServiceFacts.UpperCaseOverlooked` | src/storage/sqlite.rs:338-386 | a concrete store with one upper-case row from which an allowed insert makes an overlap |
| `ServiceFacts.IndexGuards` | src/storage/sqlite.rs:428-436 | the index check lets through exactly the rows that keep the pairs of protocol text and port unique |
| `AllocationService.Service.StoreAndApply` | src/service/allocation_service.rs:277-284 | the shared tail of put and update: on success store and runtime hold the same allocation; the first thing to go wrong is the error; all other ids untouched |
| `AllocationService.Service.StoreBinding` | src/service/allocation_service.rs:277-278 | the write half of that tail: reads hydrate the allocation with the new binding, or nothing changed |
| `AllocationService.Service.ClearBinding` | src/service/allocation_service.rs:312-322 | the write half of deleting a binding: reads hydrate the unbound allocation, or nothing changed |
| `AllocationService.Service.Apply` | src/service/allocation_service.rs:282-284 | once the runtime is told what the store says, the id is in step, also when a runtime that keeps failed writes refuses |
| `AllocationService.Service.PutBinding` | src/service/allocation_service.rs:251-298 | on success the runtime was asked once, to update to exactly what reads hydrate, `created_at_ms` is that of the first bind, all other ids are untouched; each error and when it is given |
| `AllocationService.Service.UpdateAllocation` | src/service/allocation_service.rs:346-406 | the missing part of the target comes from what is stored; on success the runtime was asked once, to update to the result, which is what reads hydrate; each error and when it is given |
| `AllocationService.Service.DeleteBinding` | src/service/allocation_service.rs:300-340 | on success reads hydrate the unbound allocation and the runtime was asked once, to update to it; each error and when it is given |
| `AllocationService.Service.DeleteAllocation` | src/service/allocation_service.rs:408-442 | success removes the id everywhere; every error leaves the store alone; an id in step stays so if and only if the runtime did not drop the entry for good, which is when the store fails, or the failpoint is on and restoring fails |
| `AllocationService.Service.RemoveRow` | src/service/allocation_service.rs:428-430 | after the runtime has dropped the entry the store drops both rows, or keeps a row the runtime no longer knows |
| `AllocationService.Service.PutBack` | src/service/allocation_service.rs:421-426 | on the failpoint path the runtime entry is restored and the id is in step, unless restoring fails |
| `AllocationService.Service.StoreCreated` | src/service/allocation_service.rs:136-142 | the accepted allocation is stored whole, or taken back from the runtime; its id is out of step only if both fail |
| `AllocationService.Service.CreateAllocation` | src/service/allocation_service.rs:93-157 | terminates; the runtime is asked only to create, and on success last for the result; success takes the least port that no conflicting row has and the runtime could bind, stored and applied as one allocation; `NoAvailablePort` if and only if every port in range is taken or could not be bound; a failed create adds no row |
| `AllocationService.PassedOver` | src/service/allocation_service.rs:104-112 | every port the query passes over is taken and the one it finds is not |
| `AllocationService.Service.RestoreAll` | src/service/allocation_service.rs:444-453 | asks the runtime to initialize and then only to restore; succeeds if and only if nothing faults and every row is readable, and then the runtime holds exactly the hydrated store on top of what it held, so exactly the hydrated store from an empty runtime |
| `ServiceRuns.Run` | src/service/allocation_service.rs:93-453 | after any run with any failures: every id whose last mutation did not end in an error is in the runtime if and only if it is in the store, holding the hydrated row; a store without overlaps that is plain on the ports the service hands out stays so; rows that have their bindings, as after the migration, and rows that repeat them go on doing so; from one operation to the next every binding keeps its creation time or was taken away by an operation on its own id |
| `ServiceRuns.CreationAlong` | src/service/allocation_service.rs:260-284 | over any stretch of a run in which no operation actually takes the binding away, attempted deletes included, it is still there with its first creation time |
| `ServiceRuns.CreatedKeeps` | src/service/allocation_service.rs:131-142 | a create on a port of a range keeps every binding with its creation time, and a store without overlaps that is plain on that range stays so |
| `EndToEnd.StoreNoOverlap` | src/service/allocation_service.rs:104-142 | a store without overlaps, in whatever spelling, gives the data plane allocations without overlaps |
| `EndToEnd.StoreDecidesDispatch` | src/runtime/netlink.rs:888-927 | with the runtime in step with a store without overlaps, a local packet goes to a target if and only if the row covering it hydrates to an allocation bound to that target |
| `EndToEnd.StoredIsReplay` | src/runtime/netlink.rs:758-839 | the netlink runtime stores after any calls and any failures what the service's runtime is taken to hold |
| `EndToEnd.InStepHoldsStore` | src/service/allocation_service.rs:444-453 | with every id in step the runtime holds the hydrated store and nothing else |
| `EndToEnd.RunOverNetlink` | src/service/allocation_service.rs:93-453 | the service over netlink with a store and a backend that fail at will: if no id's last mutation failed and the last backend call succeeded, the kernel holds exactly the compiled rules of the hydrated store and, without overlaps, sends a local packet to a target if and only if the row covering it is bound to that target; a sound store stays sound |
| `DualRuntime.RealRuntime.Create` | src/runtime/real.rs:130-163 | binds TCP first and takes it back when UDP fails; the new tables and index as a function of the old ones, with the error of the failed side; restore differs only in that error |
| `DualRuntime.RealRuntime.Update` | src/runtime/real.rs:165-178 | succeeds if and only if every protocol the allocation uses has a listener, and then refreshes exactly those |
| `DualRuntime.RealRuntime.Delete` | src/runtime/real.rs:180-185 | removes the id from both tables and the index |
| `DualRuntime.RealRuntime.Snapshot` | src/runtime/real.rs:226-237 | reports the state of the tables the index names |
| `DualRuntime.BindKeepsIndexIff` | src/runtime/real.rs:130-224 | under every bind outcome the index still records exactly which tables hold each id, if and only if the id is not in a table the bind would leave or roll back |
| `DualRuntime.BindAllOrNothing` | src/runtime/real.rs:130-224 | for a fresh id, create and restore change both tables and the index completely or not at all |
| `DualRuntime.BoundIsReported` | src/runtime/real.rs:130-237 | a fresh id that was bound is reported active with the allocation's own host and port, or rejecting when it lacks one |
| `DualRuntime.ApartIsDegraded` | src/runtime/real.rs:249-267 | with one side of Both missing or in another state the report is degraded, says which, and shows the side that is there |
| `DualRuntime.RunKeepsIndex` | src/runtime/real.rs:130-224 | over every run with any bind failures the index records exactly which tables hold each id |
| `DualRuntime.ActiveMeansBoth` | src/runtime/real.rs:226-267 | an active status means that every protocol the id uses has a listener in that very state, target included |
| `ProxyRuns.UpdateHeld` | src/runtime/real.rs:165-178 | an update of an allocation with the protocol that is held finds all of its listeners or none, so it is never half done |
| `ProxyRuns.ListeningIsReported` | src/runtime/real.rs:226-237 | an allocation with exactly its listeners is reported active with its own host and port, or rejecting when it lacks one |
| `ProxyRuns.CallKeepsHolds` | src/runtime/real.rs:130-224 | whatever ports can be bound, every call leaves exactly the listeners of what is then held |
| `ProxyRuns.ReplayHolds` | src/runtime/real.rs:130-224 | after any calls with the answers the proxy gives, it has exactly the listeners of what the service's runtime is taken to hold |
| `ProxyRuns.Follow` | src/runtime/real.rs:126-224 | the proxy's own methods, given these calls, end in that state and give those answers |
| `ProxyRuns.RunOverProxy` | src/service/allocation_service.rs:93-453 | the service over the proxy with a failing store and ports that may be taken: every id whose last mutation did not fail has a listener in exactly the tables its row's protocol covers and is reported active with its hydrated row's host and port, or rejecting when it lacks one, and an id without a row has no listener and no report |
| `Rates.RateCalculator.Calculate` | src/prometheus.rs:60-88 | the rates are those of comparing with the previous scrape and the cache then stands for exactly this scrape, also across the wrap-around of its tag |
| `Rates.RunScrapes` | src/prometheus.rs:60-88 | over every run of scrapes each one's rates depend on the scrape just before it and on nothing older |
| `Rates.OrderIrrelevant` | src/prometheus.rs:66-85 | reordering the rows of a scrape changes no listener's rate and nothing that is remembered |
| `Rates.ListenerKeyInjective` | src/prometheus.rs:95-102 | ports and protocols that pack to the same key are the same |
| `Rates.RateSinceMeans` | src/prometheus.rs:104-142 | a rate is zero without a previous reading, without elapsed time or without gain, and otherwise the gain per second |
| `Rates.TrackedRate` | src/prometheus.rs:104-142 | between two scrapes rate times elapsed time is what the counter gained |
| `Rates.RatesConserveBytes` | src/prometheus.rs:104-142 | for a listener in every scrape with non-decreasing totals and increasing times, the rates times their elapsed times add up to last total minus first total |

## Left out

- The TCP data path (`src/runtime/tcp.rs`): copying between sockets; it has no generation check between reading its state and registering a session, so none of the UDP statements are claimed for it.
- Socket calls, `recv_batch` and address decoding: a received batch is a list of peers and payloads of at most 64, and a send answers with an error or a count.
- `last_seen`, the session TTL and `expire_idle_sessions` timing: expiry is a removal that may happen at any time.
- Relaxed memory ordering: the interleaving model is sequentially consistent.
- The sending of a reply after its check has passed: the statement about replies is about the check.
- `empty_since`, table compaction, growth of the receive buffers and the session gauges kept by `Drop`: performance and bookkeeping of object lifetimes.
- `shutdown_all` and its best-effort variants: no statement beyond that of stopping one listener.
- libnftnl and libmnl messages, acknowledgements, timeouts and C strings: a backend call that returns success has applied the batch exactly.
- Host and address syntax: parsing and printing are arbitrary functions (`AddrSyntax`, `validHost`).
- HTTP routing, authentication, JSON, command line, configuration, logging, metrics structures and Prometheus text: plumbing.
- SQLite files, permissions, WAL mode and schema creation: a transaction is applied whole or not at all.
- The ordering of `list_allocations` by protocol and port: nothing proved here depends on it.
- Operations cut off before they end: a request dropped between two awaits, say between the runtime's create and the insert (`src/service/allocation_service.rs:119-142`), gives no answer; every operation here runs to its end.
- Id generation and the wall clock: an id is one that nothing uses, a timestamp is any number.
- The failure sets of `InMemoryRuntime`: which calls fail is a parameter.
- ProxyRuns.RunOverProxy: takes from the operating system that a port with a listener cannot be bound again, and does not model which other processes hold ports.
- Views and resources built for the API (`src/service/allocation_service.rs:182-249`, `src/service/allocation_service.rs:462-522`): projections of what the readings return.
- Floating-point rounding in `src/prometheus.rs`: rates are real numbers.
- UdpReceiver.ReceiveTask.ProcessBatch: the other tasks' schedules exclude an update at the saturated counter and the abort of the receive task, because a batch cut off by an abort is not processed to its end.
