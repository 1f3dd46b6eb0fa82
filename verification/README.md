# Module hand-off between a kernel and a partition server

A Dafny model of how modules inserted in containers are handed from the proxy kernel module
(`lxc-uio-proxy-kernel-module`) to the user-space KVM server (`kvm-host-server`), with proofs about every call and about
every run. `dafny verify dfyconfig.toml` checks the project.

| file | what it models |
|---|---|
| `Common.dfy`, `Growth.dfy` | C integer conversions; the doubling policy both tables share |
| `KernelTable.dfy` | the kernel's `module_table`: specification on values, and the array that is put, popped and un-popped in place |
| `HandOff.dfy`, `HandOffLaws.dfy` | the whole system as a state machine, one action per lock section and one per step outside a lock that touches shared state, any number of producers, any number of servers one after the other; and the laws of its runs |
| `ProxyModule.dfy` | the kernel's entry points as calls on mutable state, each equal to a step or steps of the state machine |
| `LockOrder.dfy` | the three mutexes and the data they are for, any number of threads |
| `UuidTable.dfy` | the server's table, its growth computed in C `int` |
| `EntryCycle.dfy` | `initialize_memory_uuid`, the guest run, `process_entry` |
| `Server.dfy` | `get_new_entry` and the three loops of `main` |
| `Joint.dfy` | the state machine joined to the server's table: storing and processing beside everything the kernel does |
| `Agreement.dfy` | what the kernel answers about a delivered uuid against what the server maps for it |
| `Flags.dfy`, `A20.dfy`, `A20Machine.dfy` | a small real-mode machine with its flags, and the A20 program on it |
| `ProcText.dfy` | the major number printed to /proc and parsed back |

The outside world (ioctl, mmap, malloc, KVM, user-space copies, select, the guest) appears as parameters holding its
answers. Notifications are counted exactly: `Pending` is what waits in the table, `Overdrawn` what the start-up loop took
beyond what was waiting unannounced, `swallowed` the sum of (value - 1) over the eventfd reads, `Debt` the difference,
`Shortfall` the debt together with what the next read is going to swallow.

## Findings

* A server in select can ever again be in select with nothing waiting if and only if each waiting entry has its own notice,
  all notices already signalled counting for one, since one read swallows them (`CatchesUpExactly`); what must be left
  otherwise is known to the entry (`LeastBacklog`). That the waiting entries are covered by notices, which is so exactly
  while the debt is not positive, is not enough: two puts announced before one wake-up leave an entry behind for good
  (`CoveredButStranded`, and `ParkedWithBacklog` for what comes of it).
* The exit for a wake-up with nothing to fetch is marked as unexpected in the source. While the kernel's table is there, it
  is reachable from the end of a start-up loop exactly when a notification had been signalled and not read, or was still
  to be sent, at that moment: a producer may look into the table before, and signal after, the entry it saw was fetched.
  If not, the exit is out of reach for the rest of that server's life.
* A uuid that gets into a server's table twice ends that server (`NoUuidTwice`), since `initialize_memory_uuid` refuses an
  entry that has regions. `Serve` says of all answers together when a server is parked, and how it ends otherwise.
* `get_pending_module` reads the uuid through the popped pointer after the table's lock was released. A put that grows the
  table in between frees the block, and something arbitrary is handed out in place of the uuid. It happens exactly then
  (`FetchIsOwnExactly`); `GarbledDelivery` is a run with 257 insertions that delivers any chosen number.
* Every write of the table and of the registration is under its mutex. The only accesses that can race with one are the
  read through the popped pointer and the /proc text (`OnlyUnlockedReadsRace`, `FetchRacesInsertion`). The comment on
  `process_packet` says that it is called with a lock held; `cdev_write` has released it by then, and the scripts follow
  the code.
* The exit for "processed zero events" is taken exactly when the server's table was full and could not grow, the entry
  having arrived and the scan having got its copies: the result of `table_put` is ignored. `RefusedEntryEndsServer` is such
  a life. The exit for an unknown `process_entry` result is never taken.
* The server's `int` byte count for growth wraps, but never to an undersized request: the first count that does not fit is
  negative, which no allocator grants. The table then stays at its size.
* `get_major_number` steps over a minus sign, so the round trip holds exactly for numbers that are not negative (the
  initial -1 would be read as 1).
* A failed copy of entry 0 loses that entry, and no other entry can be lost this way.
* The comment on `initialize_memory_uuid` promises 0 for success and a negative result on error. A failure goes unreported
  exactly when the first step to fail is asking for a layout (`ErrorIsReportedExactly`): the code then returns the previous,
  non-negative result. An entry may so be processed, its guest run to a halt, with no core region: the kernel was told to
  copy the core to an address that was never set (`ProcessedWithoutCore`). "All processed" in the statements about the
  server includes such entries; which ones they are is stated exactly beside it. The model follows the code.
* When the kernel's table is lost to a failed `krealloc` before the first pop, a fetch moves the cursor and reports that
  there is nothing; after later pops it reads through an invalid pointer.

## Model

| member | source | states |
|---|---|---|
| Growth.CapacityIsLeastDoubling | lxc-uio-proxy-kernel-module/lxc-uio-proxy.c:103-120 | after any number of puts the capacity is the least 256·2^k that holds the entries |
| Growth.MovesAreCapacityMinusInitial | kvm-host-server/uuid-table.h:87-110 | the entries moved by all reallocations together number exactly capacity - 256 |
| Growth.AmortisedMoves | kvm-host-server/uuid-table.h:87-110 | n puts move fewer than 2n entries |
| KernelTable.GrantedPutsAppend | lxc-uio-proxy-kernel-module/lxc-uio-proxy.c:94-125 | while allocations succeed, any list of puts succeeds and the table is that list, in order, with the capacity the policy gives |
| KernelTable.FindIsFirst | lxc-uio-proxy-kernel-module/lxc-uio-proxy.c:131-146 | a lookup yields the first entry with the uuid, and the uninitialised copy exactly when there is none |
| KernelTable.FindSurvivesAppend | lxc-uio-proxy-kernel-module/lxc-uio-proxy.c:131-146 | what a uuid resolves to is not changed by later puts |
| KernelTable.ModuleTable.Put | lxc-uio-proxy-kernel-module/lxc-uio-proxy.c:94-125 | in place, with the entries moved so far accounted for: result and whole table as specified, with the table lost on a failed krealloc; the "greater than" branch is dead |
| KernelTable.ModuleTable.Pop | lxc-uio-proxy-kernel-module/lxc-uio-proxy.c:147-156 | the cursor moves to, and the pointer is that of, the oldest entry not popped yet, if any; with the table lost, position 0 has the address NULL |
| KernelTable.ModuleTable.PopReverse | lxc-uio-proxy-kernel-module/lxc-uio-proxy.c:158-171 | the last pop is undone unless it popped entry 0 |
| KernelTable.ModuleTable.Peek | lxc-uio-proxy-kernel-module/lxc-uio-proxy.c:173-183 | the pointer the next pop would return, NULL included |
| KernelTable.ModuleTable.GetCopy | lxc-uio-proxy-kernel-module/lxc-uio-proxy.c:131-146 | the search loop finds what the recursive lookup specifies; NULL only without memory |
| KernelTable.AnyInterleavingIsValid | lxc-uio-proxy-kernel-module/lxc-uio-proxy.c:94-183 | whatever threads put, pop and un-pop, in whatever order, with or without memory: -1 <= cursor < entries <= capacity, the capacity being the one the growth policy gives |
| HandOff.InvKept | lxc-uio-proxy-kernel-module/cdev.c:143-235 | every action of producers, kernel and server, with or without memory, keeps cursor range, delivery order and accounts |
| HandOff.ReachableInv | lxc-uio-proxy-kernel-module/lxc-uio-proxy.c:259-285 | these hold in every state of every run, up to the first fetch of an entry from a lost table |
| HandOffLaws.AccountingLaw | kvm-host-server/kvm-host-server.c:160-220 | while a server runs: pending = counter + in flight + swallowed + lost - overdraft, one less between pop and read; for the first server the base is the number of notifications that saw no server |
| HandOffLaws.LookSeesExactly | lxc-uio-proxy-kernel-module/lxc-uio-proxy.c:357-371 | a producer's look is followed by a signal if and only if a server is registered and an entry waits (with the table lost, also only if something was popped before); which account it goes to otherwise; it changes neither table nor counter |
| HandOffLaws.SignalRaisesExactly | lxc-uio-proxy-kernel-module/lxc-uio-proxy.c:372-381 | the signal raises the counter by one for a usable registration whose file is found, and is given up otherwise |
| HandOffLaws.EmptyLookNeedsOverdraft | lxc-uio-proxy-kernel-module/lxc-uio-proxy.c:364-370 | past the start-up loop, the "module_table empty" case needs an overdraft of that loop |
| HandOffLaws.RegistrationExactly | lxc-uio-proxy-kernel-module/cdev.c:143-183 | a registration starts a life if and only if all its steps succeed; a failure before the allocation leaves nothing set, one after it an orphan |
| HandOffLaws.OrphanedStaysSilent | lxc-uio-proxy-kernel-module/cdev.c:160-180 | over any run up to the next registration, an orphaned registration is never signalled and nothing is delivered |
| HandOffLaws.ReadNeverBlocks | kvm-host-server/kvm-host-server.c:204-219 | the eventfd read after a fetched entry always finds a positive counter |
| HandOffLaws.ParkedBacklog | kvm-host-server/kvm-host-server.c:188-199 | a parked server's backlog equals its debt, which is never negative |
| HandOffLaws.CoveredExactly | kvm-host-server/kvm-host-server.c:160-213 | at every select, pending exceeds neither what is signalled nor in flight if and only if the debt is not positive, and then a waiting entry wakes the server once more when all notices are sent |
| HandOffLaws.CoalescingIsPermanent | kvm-host-server/kvm-host-server.c:204-221 | over the rest of a life neither debt nor shortfall (the debt, and what the next read will swallow) ever shrinks, the overdraft never grows, and the backlog stays at or above both |
| HandOffLaws.BacklogNeverEmpties | kvm-host-server/kvm-host-server.c:204-221 | in every reachable state past the start-up loop: the backlog never falls below the shortfall in that server's life |
| HandOffLaws.LeastBacklog | kvm-host-server/kvm-host-server.c:188-221 | the shortfall, or zero if it is negative, is the least backlog with which this server can be back in select: some run reaches it and none goes below |
| HandOffLaws.CatchesUpExactly | kvm-host-server/kvm-host-server.c:188-221 | for every reachable select: some run of the same life is back in select with nothing waiting if and only if nothing waits, or the table is not lost and pending <= notices in flight + one if the eventfd is signalled |
| HandOffLaws.CoveredButStranded | kvm-host-server/kvm-host-server.c:204-221 | from every initial state a run leads to a select with two entries, two signalled notices and no debt, from where one entry stays behind for good |
| HandOffLaws.ParkedWithBacklog | kvm-host-server/kvm-host-server.c:204-221 | from every initial state a run parks the server with one entry waiting and nothing announced |
| HandOffLaws.SpuriousExitExactly | lxc-uio-proxy-kernel-module/lxc-uio-proxy.c:357-391 | the "no new entry" exit can be reached, in the same life, from the end of the start-up loop if and only if the eventfd is signalled there, or a producer has looked and not signalled, or a notice is in flight and the table not lost; with the table there: counter + notices in flight > 0 |
| HandOffLaws.SpuriousExitNeedsOverdraft | kvm-host-server/kvm-host-server.c:199-209 | a wake-up ends in that exit exactly when the debt is minus what is signalled and in flight, which needs an overdraft of the start-up loop |
| HandOffLaws.DeliveredInOrderOnce | lxc-uio-proxy-kernel-module/cdev.c:200-235 | across restarts and failed copies one uuid is delivered for each popped entry, in order; only entry 0 can be missing, exactly if its copy failed; each uuid is the entry's own except where the read hit a freed block |
| HandOffLaws.FetchIsOwnExactly | lxc-uio-proxy-kernel-module/cdev.c:210-220 | whatever else happens between the pop and the read, a lost table included: the uuid delivered by reading and copying is sure to be the popped entry's if and only if no put grew the table in between; else it is what the freed block holds, and the position counts as garbled |
| HandOffLaws.GarbledDelivery | lxc-uio-proxy-kernel-module/lxc-uio-proxy.c:108-120 | for any 256 entries, one more, and any number: a run that delivers that number in place of the first uuid |
| HandOffLaws.DrainDeliversAll | kvm-host-server/kvm-host-server.c:159-169 | when a start-up loop ends, one uuid has been delivered for every insertion so far, whatever earlier servers left, each its own but for reads of a freed block |
| HandOffLaws.LookupIsStable | lxc-uio-proxy-kernel-module/lxc-uio-proxy.c:94-146 | over any run a uuid keeps resolving to the same entry as long as the table is there |
| HandOffLaws.DeliveredEntryResolves | lxc-uio-proxy-kernel-module/lxc-uio-proxy.c:131-156 | a popped entry whose uuid no earlier entry carries is what every later lookup returns |
| HandOffLaws.CursorInRange | lxc-uio-proxy-kernel-module/lxc-uio-proxy.c:94-183 | for any interleaving: -1 <= cursor < entries <= capacity, the capacity being the one the growth policy gives |
| ProxyModule.FailedFetchIsUndone | lxc-uio-proxy-kernel-module/cdev.c:208-235 | a fetch whose copy fails leaves the table as it was if and only if the popped entry was not entry 0 |
| ProxyModule.FetchIsPopCopyUnpop | lxc-uio-proxy-kernel-module/cdev.c:200-235 | an undisturbed fetch, at start-up or in the main loop, is the pop, read, copy and un-pop actions of the state machine, never garbled; code 0 if and only if nothing waits, 1 if and only if an entry was handed over, and a negative one, the bytes not copied, if and only if the server is to leave |
| ProxyModule.PutModuleIsPutThenEvent | lxc-uio-proxy-kernel-module/lxc-uio-proxy.c:259-285 | an undisturbed insertion is the put, look and signal actions, or the put alone if it fails; it raises the counter exactly when it stored the entry and a live server is registered |
| ProxyModule.SendEventIsPeekThenSignal | lxc-uio-proxy-kernel-module/lxc-uio-proxy.c:357-391 | `send_event` is a look into the table and then, only if an entry is in sight, a signal |
| ProxyModule.Proxy.SendEvent | lxc-uio-proxy-kernel-module/lxc-uio-proxy.c:357-391 | in place: the counter rises by one if and only if there is a live server, its file is found, and the cursor is not at the last entry (of a lost table, not before the first either); -1 if there is a server and it does not rise |
| ProxyModule.Proxy.PutModule | lxc-uio-proxy-kernel-module/lxc-uio-proxy.c:259-285 | 0 if and only if the entry was appended, which is if there was room or memory; then, and only then, a live server is notified, and the notice's result does not matter |
| ProxyModule.Proxy.Register | lxc-uio-proxy-kernel-module/cdev.c:143-183 | code, registration and counter after each outcome; a failure after the allocation leaves the pointer set |
| ProxyModule.Proxy.GetPendingModule | lxc-uio-proxy-kernel-module/cdev.c:200-235 | from cursor, count and bytes not copied: 0 if and only if nothing waits, 1 with the next entry's uuid if and only if it was copied, minus the bytes not copied otherwise, the cursor then back unless it was before entry 0; also what a lost table does |
| ProxyModule.Proxy.GetLayout | lxc-uio-proxy-kernel-module/cdev.c:271-315 | the layout of the first entry with the uuid, or which error, or the undefined case for an unknown uuid |
| ProxyModule.Proxy.Write | lxc-uio-proxy-kernel-module/cdev.c:110-137 | succeeds exactly for a known uuid with both copies done, and then copies the whole core region |
| LockOrder.ScriptsAreDisciplined | lxc-uio-proxy-kernel-module/lxc-uio-proxy.c:357-391 | every path of every call takes its mutexes in one order, releases all of them, and writes only under the mutex; it reads only under the mutex if and only if it is neither a fetch that has an entry nor the /proc text |
| LockOrder.LocksExactly | lxc-uio-proxy-kernel-module/cdev.c:110-315 | which calls take which mutex |
| LockOrder.WritersExactly | lxc-uio-proxy-kernel-module/cdev.c:143-235 | which calls change the table and the registration, and which look at the registration |
| LockOrder.NotifyParts | lxc-uio-proxy-kernel-module/lxc-uio-proxy.c:357-391 | a notification holds the registration's mutex from first to last and looks into the table inside |
| LockOrder.NoDeadlock | lxc-uio-proxy-kernel-module/cdev.c:110-235 | for any number of threads and calls, while one is unfinished some thread can go on |
| LockOrder.AllFinish | lxc-uio-proxy-kernel-module/cdev.c:110-235 | from whatever threads have done, some moves without new calls bring all of them to their end; no such list is longer than the work left, and one is as long exactly if it leaves all finished |
| LockOrder.OnlyUnlockedReadsRace | lxc-uio-proxy-kernel-module/cdev.c:210-220 | for any number of threads and calls: no two ever write at once, and a thread that reads what another is about to write is a fetch that reads through the popped pointer, or the /proc text |
| LockOrder.FetchRacesInsertion | lxc-uio-proxy-kernel-module/cdev.c:210-220 | threads can get to where an insertion is about to write the table while a fetch is about to read an entry of it |
| UuidTable.ByteCountExactly | kvm-host-server/uuid-table.h:90-91 | the `int` byte count is the true one if and only if 2·capacity·E <= 2^31 - 1 |
| UuidTable.GrowthNeverUndersized | kvm-host-server/uuid-table.h:87-101 | a request is either the true byte count or larger than any allocator grants |
| UuidTable.Table.Put | kvm-host-server/uuid-table.h:79-115 | in place: appends, or changes nothing; fails exactly when a full table cannot grow; never writes outside the allocation |
| UuidTable.Table.NumEntries | kvm-host-server/uuid-table.h:117-123 | the conversion to `int` never changes the count |
| EntryCycle.RegionsExactly | kvm-host-server/uuid-table.h:188-246 | for every table and all answers, with literal values: which of the three regions is set, slot, guest address, size and user address of each, and how many count |
| EntryCycle.FillRegions | kvm-host-server/uuid-table.h:188-246 | in place, the regions and the count after each possible failure, and the result's sign |
| EntryCycle.InitializeMemory | kvm-host-server/uuid-table.h:155-265 | touches only the first entry with the uuid; non-negative exactly under a condition on table and answers |
| EntryCycle.AcceptedMeansThreeRegions | kvm-host-server/uuid-table.h:155-265 | a non-negative result: the entry went from no region to three, if and only if both layouts were fetched: slot 0 at 0, slot 1 at the init base, slot 2 at 0x1000, each at its own mapping, in the only entry with the uuid; no other entry changed |
| EntryCycle.ErrorIsReportedExactly | kvm-host-server/uuid-table.h:149-265 | the sign of the result tells whether all three regions were set if and only if the first step to fail is not a layout request; a missed layout is always reported as success |
| EntryCycle.UnreportedFailure | kvm-host-server/uuid-table.h:206-211 | in every table with an untouched entry, answers that make it fail with a non-negative result and one region |
| EntryCycle.RegionsOnlyGrow | kvm-host-server/uuid-table.h:168-180 | one call: the region count never drops and an entry with regions is not touched |
| Joint.SlotsAreSetOnce | kvm-host-server/uuid-table.h:168-246 | over any moves of a server's life: each slot of each entry is set at most once, counts never drop, no entry is lost, and a processed one is never touched again |
| Joint.ProcessedStaysAsCalled | kvm-host-server/kvm-host-server.c:338-588 | for the rest of the life a processed entry keeps the descriptors and regions of its own call |
| EntryCycle.EndlessExactly | kvm-host-server/kvm-host-server.c:537-580 | the run loop goes on for good exactly if no exit is a halt, an entry failure, an internal error or a failed call |
| EntryCycle.FirstFinalDecides | kvm-host-server/kvm-host-server.c:537-580 | for every guest: the first final exit alone decides whether it halted, broke or never ended, and it printed exactly the bytes written before that exit |
| EntryCycle.RunGuest | kvm-host-server/kvm-host-server.c:537-580 | how the guest ends and what it prints |
| EntryCycle.HandleEntry | kvm-host-server/kvm-host-server.c:338-588 | every field of every entry after each exit: early failures mark the entry, late ones leave both flags false |
| EntryCycle.ProcessEntry | kvm-host-server/kvm-host-server.c:303-605 | handles the lowest entry not settled, or changes nothing |
| EntryCycle.ResultCodes | kvm-host-server/kvm-host-server.c:297-302 | 1 exactly if the lowest unsettled entry became processed, 0 exactly if there is none, and no other entry changes in any case |
| EntryCycle.HandledExactly | kvm-host-server/kvm-host-server.c:338-588 | the handled entry field by field: machine descriptor as soon as there is a machine, CPU descriptor only after machine, memory, code and both reloads; processed if and only if its guest started and halted; marked if and only if one of five steps failed first |
| EntryCycle.ProcessedIsBuilt | kvm-host-server/kvm-host-server.c:338-588 | a processed entry is, in every field, what the answers to its own call make of it |
| EntryCycle.ProcessedCompleteExactly | kvm-host-server/kvm-host-server.c:404-435 | a processed entry has its three regions if and only if the kernel gave both layouts, though the packet was written and the guest ran in any case |
| EntryCycle.ProcessedWithoutCore | kvm-host-server/kvm-host-server.c:404-435 | answers under which the next entry ends as processed with no core region |
| EntryCycle.HandlingIsLocal | kvm-host-server/kvm-host-server.c:404-413 | in a live server's table handling an entry never fills in another's memory, even with equal uuids |
| EntryCycle.CallKeepsConsistent | kvm-host-server/kvm-host-server.c:332-337 | however a call ends, no flag is cleared and no entry gets both, so the contradiction check never fires in a server's life |
| Server.GetNewEntry | kvm-host-server/kvm-host-server.c:637-684 | adds exactly one fresh entry, or none; reports 1 even when the table refused it |
| Server.DrainedIsReceived | kvm-host-server/kvm-host-server.c:637-684 | the entries of a start-up loop are fresh, and are exactly those received, in order, if each found room in a table of all before it; if not, some are missing |
| Server.Drain | kvm-host-server/kvm-host-server.c:159-169 | it ends with the first reply that is not positive and with that result; the table is what the replies so far lead to; everything was stored if and only if each entry found room, and then the table holds exactly the uuids received, in order |
| Server.ProcessAll | kvm-host-server/kvm-host-server.c:171-185 | result, number of calls and table are those of calling until a call does not report one entry done; it hangs only in a guest that never ends, so never if all guests end; on fresh entries 0 if and only if no uuid is repeated and each call's answers are good; the result of each call from uuids and answers alone; 0 means all processed, the k-th entry made by the k-th call |
| Server.StartUpSucceedsExactly | kvm-host-server/kvm-host-server.c:171-185 | the start-up processing of fresh entries ends with 0 if and only if no uuid comes twice, the answers to each call are good, and the last scan gets its copies |
| Server.StartUpExactly | kvm-host-server/kvm-host-server.c:171-185 | which call ends the start-up processing and with what result, from the uuids and the answers alone |
| Server.ProcessNew | kvm-host-server/kvm-host-server.c:221-238 | zero if and only if the entry was refused and the scan got its copies; success if and only if the entry was stored and its handling succeeds |
| Server.Round | kvm-host-server/kvm-host-server.c:188-251 | exactly when each exit is taken, from the table before and the answers: zero events if and only if an arrived entry met a full table that cannot grow; back at select everything is processed and only the new entry was added; the unknown-result exit never |
| Server.RefusedEntryEndsServer | kvm-host-server/kvm-host-server.c:223-227 | a server that processed 256 entries without a fault ends in the zero-events exit at the next one if its table cannot grow |
| Server.RoundGoesOnExactly | kvm-host-server/kvm-host-server.c:188-251 | with everything processed, a round goes back to select if and only if nothing came, or: an entry came with a new uuid, found room, the read gave 8 bytes, and the answers to its processing are good |
| Server.RoundEndExactly | kvm-host-server/kvm-host-server.c:188-251 | with everything processed, a round ends with the exit that the known uuids and the answers alone give |
| Server.RoundsExactly | kvm-host-server/kvm-host-server.c:188-251 | the main loop ends with the exit of the first round that has one, each exit told from uuids and answers alone |
| Server.NoUuidTwice | kvm-host-server/uuid-table.h:175-180 | a uuid that comes twice is fatal: among those of a server whose wake-ups all went well no two are the same |
| Server.SelectLoop | kvm-host-server/kvm-host-server.c:188-251 | exit, number of completed rounds and table are those of the first round that has an exit; parked if and only if each wake-up goes well given all uuids before it; in every case the exit that uuids and answers alone say; parked: every uuid brought has been processed, in order, each entry made by its own call; older entries unchanged |
| Server.Serve | kvm-host-server/kvm-host-server.c:140-251 | over the server's life, which of its ends it comes to, after how many calls and rounds, from the answers alone: parked if and only if the kernel ended the start-up loop, no uuid came twice, every entry of the main loop found room, and all answers were good; parked means all uuids received, once each and in order if all were stored, which is so exactly if each found room; all processed, each entry in every field what its own call made of it, including entries without a core region, which are exactly those whose call missed a layout; no entry is ever contradictory |
| Server.ServedAndParked | kvm-host-server/kvm-host-server.c:140-251 | one uuid before and another after the server started, all answers good: it is parked with both, processed |
| Joint.SelectingTableIsSlice | kvm-host-server/kvm-host-server.c:159-251 | over every run of kernel, producers and server: a server in select has processed all its entries, and if it refused none they are, in order, the kernel entries popped since it registered, with their uuids but for reads of a freed block |
| Joint.ParkedTableLacksDebt | kvm-host-server/kvm-host-server.c:188-251 | a parked server that refused none has as many entries as were inserted since where it began, less its debt |
| Joint.RegionsAreTheModules | kvm-host-server/uuid-table.h:206-240 | in select, an entry's regions have slot, guest address and size as the module whose insertion it stands for wants, and the kernel copies as many bytes as were mapped, unless the read was garbled or an earlier module had the uuid |
| Joint.OneEntryServed | kvm-host-server/kvm-host-server.c:159-251 | from every beginning, for every module: a run that inserts, fetches and processes it, and waits with the one complete entry |
| Agreement.DeliveredIsKnown | lxc-uio-proxy-kernel-module/cdev.c:271-302 | while the table is there, requests about a delivered uuid avoid the uninitialised copy if and only if an entry carries it, as one does unless the read had hit a freed block |
| Agreement.MappedSizeIsCopiedSize | lxc-uio-proxy-kernel-module/lxc-uio-proxy.c:302-316 | the bytes copied into the core region equal in number the bytes the server mapped for it, whatever happens in between |
| Agreement.FetchSteersServer | kvm-host-server/kvm-host-server.c:159-211 | what the server does with each code of a fetch, in both loops: a failed copy ends it, nothing waiting ends the start-up loop and is an error in the main loop, an entry is taken in |
| Flags.CmpSetsFlags | kvm-host-server/a20_line.asm:41 | after a comparison ZF means equal, CF less as unsigned, SF and OF together less as signed numbers; AF the half borrow; IF untouched |
| Flags.AddSetsFlags | kvm-host-server/a20_line.asm:62 | after an addition CF is the carry, OF says the signed sum does not fit, ZF and SF are of the result |
| A20.ExecSetsFlags | kvm-host-server/a20_line.asm:22-62 | what each instruction leaves in the flags |
| A20.ProbedUndisturbed | kvm-host-server/a20_line.asm:20-58 | IF is clear from the instruction after CLI until the flags are restored |
| A20.CheckA20 | kvm-host-server/a20_line.asm:14-59 | for all memories, registers and stacks clear of the probed bytes: AX is 0 if and only if bit 20 is masked; DS, ES, DI, SI, SP, flags and every byte outside the used stack are restored, also when the probed bytes alias |
| A20.PrintsAnswer | kvm-host-server/a20_line.asm:61-64 | the one character sent to port 0x3f8 is '0' if masked and '1' if not, then the machine halts |
| A20Machine.Cpu.Run | kvm-host-server/a20_line.asm:14-64 | the machine updated in place runs as specified, and ends |
| A20Machine.Cpu.CheckA20Line | kvm-host-server/a20_line.asm:14-64 | the in-place run gives the same answer |
| ProcText.GetMajorNumber | kvm-host-server/kvm-host-server.c:687-817 | on any text: the first number of the second line if it fits an int and errno was clear, else -1; the scan stays inside the line |
| ProcText.DigitsAreRead | kvm-host-server/kvm-host-server.c:754 | reading printed digits gives back the number |
| ProcText.SecondLineIsParsed | kvm-host-server/kvm-host-server.c:726-789 | for any text: the digits that come first on the second line are read, whatever stands before and after, if they spell an int and errno was clear |
| ProcText.ShownIsRead | lxc-uio-proxy-kernel-module/lxc-uio-proxy.c:400-405 | a reader of signed numbers in brackets gets back exactly the four numbers printed, for every int, whatever the address looks like |
| ProcText.ShownApart | lxc-uio-proxy-kernel-module/lxc-uio-proxy.c:400-405 | two texts are equal only if all four numbers are |
| ProcText.ParsedIsAbsolute | kvm-host-server/kvm-host-server.c:726-789 | for every int printed and any other fields, the absolute value is read, except that -2^31 is rejected |
| ProcText.RoundTrip | lxc-uio-proxy-kernel-module/lxc-uio-proxy.c:400-405 | the number read is the number printed if and only if it is not negative |

## Left out

- HandOff.Step: a run ends where an entry is first fetched from a table lost to a failed krealloc, since the code then goes through an invalid pointer (what one such call does is in `ProxyModule.FetchSpec`).
- HandOff: growth is taken to move the block, since twice the byte count (8192 bytes at first) never fits the block it doubles; a read from the freed block gives an arbitrary number, not a fault.
- HandOff.SignalSpec: `eventfd_ctx_fileget` may fail with an error pointer, which the test for NULL does not catch; the model takes any failure as the error return.
- HandOff: one server process at a time; a second one that replaces a live registration is not modelled.
- HandOff: a registration whose file is not usable (failed registration, or a server that died without de-registering) makes notifications unreachable; what the kernel does with the stale file pointer is not modelled.
- ProxyModule.Proxy.GetLayout: requires the table pointer to be present, as the source walks the table unchecked; so does `Write`.
- ProxyModule.LayoutReply: layouts are values of the entry; a change that the kernel makes to a module's layout after insertion is not modelled.
- `kvm_host_server_get_uuid_size`: the same lookup with two sizes added; nothing calls it.
- EntryCycle.ProcessEntry: file descriptors, mappings and copies that are never released are not tracked; a failed mmap of the run area is the answer NULL that the code compares with.
- EntryCycle.RunGuest: a guest is the list of its exits; once the list is used up it never returns control.
- Server.SelectLoop: the endless loop is modelled over any finite list of rounds, after which the server is parked in select.
- UuidTable.Table.Put: assumes that `realloc` refuses more than PTRDIFF_MAX bytes; a failure is reported as -ENOMEM for every errno.
- A20: the program is fetched from a fixed list, so a stack that overwrites the code is not modelled; a push at SP = 1 wraps in the segment as on the 8086, where later processors fault.
- A20: AF after XOR, which is undefined, keeps its value.
- UuidTable: `base_IDT` and `size_IDT` repeat what the IDT region holds, and the two layout copies in `vm_memory` are never set.
- ProcText: `%p` is any text; path building and closing the file are not modelled.
- Creating and removing the device, loading and unloading, table deletion and the signal handler's clean-up: resource plumbing; a signal is the `Die` action.
- Kernel patches, `hello_world2.c`, `temp2.asm`, generated files and commented-out code.
