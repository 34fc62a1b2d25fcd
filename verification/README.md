# lone / nvsim: verified model

lone is a userspace NVMe host stack; nvsim is a simulated NVMe controller that shares its
memory. This project models the three stateful parts of the pair and proves what they
promise over every input and every run.

**Queue pairs.** Host and simulator build their own queue objects over the same slot memory
and doorbells (`Queues.dfy`, `System.dfy`). `Protocol.dfy` gives the same calls as steps of
a transition system: the host posts, the device fetches a command *by reference*, the device
completes it, the host polls. Any number of SQs may share a CQ, queue sizes and run lengths
are unbounded, and each assertion or exception of the source is an explicit crash outcome.
A history of everything posted and completed turns the registers into counters modulo the
queue size. The invariant over that history (`ProtocolSafety.dfy`) yields the whole-run
theorems in `Conservation.dfy`: what the rings, phase bits and heads promise holds for every
legal run and all queue sizes, and every entry a poll finds carries the status of its own
command (`Statuses.dfy`); only "CQ FULL" depends on those sizes, and only the lookup of
a command on CID reuse. `Limits.dfy` gives the exact conditions for both, with the runs that
reach them. The objects refine the steps one to one, so the theorems hold of the objects. On
top sit the dispatch loop `check_commands` (`RoundRobin.dfy`, `Serving.dfy`,
`Dispatch.dfy`), the simulated device that runs it inside every post (`Simulator.dfy`), its IO
commands with the storage handler's exceptions (`SimulatedIo.dfy`), and the queue tables of
both sides from creation to teardown (`QueueTable.dfy`, `QueueTeardown.dfy`,
`QueueDeletion.dfy`).

**DMA memory.** `Iova.dfy`, `PageTable.dfy` and `HugePages.dfy` model the IOVA pool and the
first-fit page allocator, `Fragmentation.dfy` runs in which it fails. `Prp.dfy`,
`PrpBuffer.dfy` and `PrpRoundTrip.dfy` model PRPs over a flat byte memory with little-endian
words and Python's slice rules. `Storage.dfy` and `StorageRefinement.dfy` show that host
buffer, PRP, handlers and byte store together behave like a plain array of blocks.

**Random LBAs.** `Lfsr.dfy` and `LbaGen.dfy` model the shift register with rejection;
`Orbits.dfy` is the theory of an invertible step with rejected states that they instantiate.
`MaxPeriod.dfy` derives full coverage from taps of maximal period, `ShiftBits.dfy` and
`SmallWidths.dfy` compute that the narrow rows of the table have it, and `NegativeSeeds.dfy`
follows the seeds the constructor lets through below zero.

Where the code does not do what a reader would expect, the code is modelled as it is and the
exact condition is proved:

- `RoomIsExact`: "CQ FULL" can fire in some run if and only if some CQ has fewer entries than
  the SQs that feed it can have commands outstanding, plus one; for any number of queues.
- `StaleCidLosesCommand`, `StaleMisdelivers`, `LossIsExact`: a post under a CID still
  outstanding on its SQ replaces an outstanding command. The older command's completion then
  completes the newer one's object, handled or not; the older object is never completed, and
  the poll that finds the newer one's own entry raises. Some run does that if and only if some
  SQ has at least three entries and its CQ at least two, however many CIDs there are, because
  refused posts use CIDs up too. Fewer allocations than the CID range since the oldest
  outstanding command exclude it (`CidWindowGivesFresh`).
- `StartCmd`, `WriteStart`: an exception in a handler gets out of the host's own `start_cmd`,
  exactly when the dispatch call inside it takes a command on which the handler raises. The
  command is then fetched and never completed, its CID is used up, and the command just posted
  is not outstanding. A Write in range of exactly two pages does it.
- `SyncCmd`: when the start goes through, its assertion holds after the first successful poll
  if and only if the command was next in line on its CQ when it was posted; `StartThenSync` is
  a sequence of calls in which it fails.
- `CopyFailureSticks`: a command is off the outstanding ones before its data is copied out, so
  a copy that raises leaves a completion at the head of its CQ that every later poll trips over.
- `TwoPagesExact`, `WholeBuffer`: with exactly two pages PRP2 is read as a list, so only the
  first page is found. A Write of that size raises, a Read fills one page only.
- `FillPages`, `WriteIo`, `ReadIo`: data that ends inside a page raises when there is more than
  one page.
- `HugePagesIovaMgr.Reset`: succeeds only when the ranges supply more than 1000 IOVAs, since
  it moves to the next range even after the last one it needs; `ThousandWindows` shows a range
  of exactly 1000 windows failing.
- `HugePagesMemoryMgr.Malloc`: fails on fragmentation without trying another hugepage,
  whenever enough single pages are free; `Fragments` is a sequence of calls that gets there.
  With no IOVA to be had it raises after linking the pages. Nothing is lost then if and only
  if the run was one page and the size that of a page (`StrandedLeaks`, reached by `Strands`).
- `MallocFits`, `Overlaps`: live allocations share no byte as long as every size is a whole
  number of pages or less than one. Any other size is rounded down, and runs into the page
  behind it.
- `Free`, `FreesOnePage`: one page is unmapped and cleared, however long the allocation was.
- `DeleteIoQueues`: succeeds if and only if the IO pairs have nonzero ids and no two share an
  SQ id.
- `NegativeSeed`: a negative seed yields negative LBAs, and never ends unless it is -1.

Integers are unbounded. Register values stay below the number of entries, so the 32-bit
registers of the source cannot wrap there; bytes and the 64-bit words of PRP lists are
modelled with their widths.

## Model

| member | source | states |
|---|---|---|
| Ring.AdvanceFollows | python3/lone/nvme/spec/queues.py:17-29 | a head or tail register that follows a growing index modulo the queue size keeps following it through an advance, and wraps to 0 exactly once per lap |
| Ring.OccupancyExact | python3/lone/nvme/spec/queues.py:47-59 | for a head and tail in ring order the register comparisons give the true number of items, and full means entries - 1 of them |
| Queues.CidMgr.Alloc | python3/lone/nvme/device/__init__.py:41-50 | hands out the current value and moves on cyclically through [init, max) |
| Queues.NVMeSubmissionQueue.PostCommand | python3/lone/nvme/spec/queues.py:68-78 | refuses exactly when the tail's successor is the private head; otherwise only the tail slot and the tail doorbell change |
| Queues.NVMeSubmissionQueue.GetCommand | python3/lone/nvme/spec/queues.py:80-88 | returns a reference to the slot at the private head and advances it, or nothing when empty |
| Queues.NVMeCompletionQueue.ConsumeCompletion | python3/lone/nvme/spec/queues.py:103-106 | advances the shared head doorbell; the phase flips exactly on wrap to 0 |
| Queues.NVMeCompletionQueue.PostCompletion | python3/lone/nvme/spec/queues.py:108-118 | refuses exactly when full; otherwise writes the entry with the inverse of the phase bit already in the slot |
| System.NVMeSystem.constructor | python3/lone/nvme/device/__init__.py:237-250 | host and simulator objects share slot memory and doorbells and nothing else |
| System.Start | python3/lone/nvme/device/__init__.py:252-264 | freshly created queues form a started system: zero registers, zeroed phase bits, phase 1, nothing outstanding |
| System.NVMeSystem.PostToQueue | python3/lone/nvme/device/__init__.py:298-304 | takes a CID and posts; a refused post still uses up the CID; the command is not yet outstanding |
| System.NVMeSystem.StartCmd | python3/lone/nvme/device/__init__.py:298-310 | on the shared objects a start is exactly the protocol's post step, refused exactly when the host's view of the queue is full |
| System.NVMeSystem.Fetch | python3/lone/nvme/spec/queues.py:80-88 | on the shared objects a fetch is exactly the protocol's fetch step and leaves the device holding the slot by reference |
| System.NVMeSystem.Complete | python3/nvsim/cmd_handlers/__init__.py:17-27 | reads the CID through that reference at completion time and is exactly the protocol's completion step: the entry in the slot at the CQ's tail then carries that CID, the SQID, the SQHD and the handler's status code; on CQ FULL nothing changes |
| System.NVMeSystem.CompleteCommand | python3/lone/nvme/device/__init__.py:405-433 | raises on a command not posted, a CID or SQID mismatch, and then nothing changes; otherwise drops the command, raises if its data cannot be copied out, and else consumes in the command's CQ and sets its SQ's head from SQHD |
| System.NVMeSystem.GetCompletion | python3/lone/nvme/device/__init__.py:343-360 | on the shared objects a poll is exactly the protocol's poll step, each of its exceptions included, and a failed copy leaves the command dropped and the completion in place |
| System.CopyFailureSticks | python3/lone/nvme/device/__init__.py:350-433 | after a failed copy the next poll of that CQ looks up an unknown command |
| ProtocolSafety.SqPosts | python3/lone/nvme/spec/queues.py:68-78 | the stale-head test accepts exactly when fewer than entries - 1 commands are unconsumed, and a post then keeps every pending command in its slot |
| ProtocolSafety.SqFetches | python3/lone/nvme/spec/queues.py:80-88 | the device sees an empty queue exactly when every posted command was fetched, and otherwise reads the next one in posting order |
| ProtocolSafety.CqPosts | python3/lone/nvme/spec/queues.py:108-118 | flipping whatever bit is in the slot keeps every slot's bit equal to the parity of its writes and keeps unconsumed entries intact |
| ProtocolSafety.ReadyIffUnconsumed | python3/lone/nvme/device/__init__.py:350-360 | the ready test holds if and only if a completion is unconsumed |
| ProtocolSafety.CqConsumes | python3/lone/nvme/spec/queues.py:103-106 | consuming keeps head and phase in step with the number consumed |
| ProtocolSafety.CqNotFull | python3/lone/nvme/spec/queues.py:108-118 | unconsumed completions are bounded by the host's windows, so a CQ large enough for its SQs is never full at a completion |
| ProtocolSafety.FlightReadsFetched | python3/nvsim/cmd_handlers/__init__.py:17-27 | the slot the device refers to still holds the command it fetched, and that is the next command to complete |
| ProtocolSafety.PollFinds | python3/lone/nvme/device/__init__.py:343-360 | a ready poll finds the oldest completion, and it belongs to its SQ's oldest unconsumed command |
| ProtocolSafety.PostOutstanding | python3/lone/nvme/device/__init__.py:298-310 | with a fresh CID a post keeps the outstanding map exact |
| ProtocolSafety.StaleCidLosesCommand | python3/lone/nvme/device/__init__.py:28-50 | with a CID still outstanding on that SQ a successful post breaks the outstanding map: a pending command is lost from it |
| ProtocolSafety.CidFollows | python3/lone/nvme/device/__init__.py:35-50 | the n-th allocated CID is init + n modulo the range |
| ProtocolSafety.CidWindowGivesFresh | python3/lone/nvme/device/__init__.py:28-50 | fewer allocations than the CID range since the SQ's oldest outstanding command make the next CID fresh |
| ProtocolSafety.PostKeeps | python3/lone/nvme/device/__init__.py:298-310 | a post, accepted under a fresh CID or refused under any, keeps the whole invariant |
| ProtocolSafety.FetchKeeps | python3/lone/nvme/spec/queues.py:80-88 | a fetch keeps the invariant |
| ProtocolSafety.CompleteKeeps | python3/nvsim/cmd_handlers/__init__.py:17-27 | a completion never finds the CQ full and keeps the invariant |
| ProtocolSafety.PollKeeps | python3/lone/nvme/device/__init__.py:405-433 | a poll never raises and keeps the invariant |
| ProtocolSafety.StepKeeps | python3/lone/nvme/device/__init__.py:298-433 | with room in every CQ and no CID reuse, no step fires an assertion or raises, and every one keeps the whole invariant |
| ProtocolSafety.StepSound | python3/lone/nvme/device/__init__.py:298-433 | for any queue sizes and any CIDs: the only assertions a legal step can fire are CQ FULL at a completion and the lookup of an unknown command at a poll, never a CID or SQID mismatch, and every other outcome keeps rings, phase bits and entries in step |
| ProtocolSafety.StepRoom | python3/lone/nvme/spec/queues.py:108-118 | room in every CQ alone excludes CQ FULL |
| ProtocolSafety.StepOut | python3/lone/nvme/device/__init__.py:298-360 | no CID reuse alone excludes the unknown command and keeps the outstanding map exact |
| Conservation.RunsAreSafe | python3/lone/nvme/spec/queues.py:62-118 | every legal run from fresh queues, in any interleaving, keeps the queues sound; it never mismatches CID or SQID, never fires CQ FULL when every CQ has room, and never looks up an unknown command when no CID is reused |
| Conservation.RingsHoldOutstanding | python3/lone/nvme/device/__init__.py:405-433 | unconsumed completions in CQ order, then the command in the device's hands, then unfetched slots in ring order, read from the registers alone, are exactly the unconsumed commands in posting order |
| Conservation.OutstandingExactlyOnce | python3/lone/nvme/device/__init__.py:307-308 | the outstanding map holds exactly those commands, no CID twice, none missing, none left over, for any queue sizes |
| Conservation.PollDeliversOldest | python3/lone/nvme/device/__init__.py:343-360 | a poll completes at most one command, the oldest of its SQ, with the entry carrying its own CID and SQID |
| Conservation.PhaseTagExact | python3/lone/nvme/spec/queues.py:97-118 | after any legal run from fresh queues of any sizes, over any number of wraps and whatever CIDs, the slot at the host's head carries its phase if and only if a completion is unconsumed |
| Conservation.HeadsInRingOrder | python3/lone/nvme/spec/queues.py:47-88 | in every reachable state the host's stale head, the device's head and the tail stay in ring order |
| Conservation.PostOverwritesNothing | python3/lone/nvme/spec/queues.py:68-78 | in every reachable state an accepted post never touches the slot of a command that is unfetched, or fetched by reference and not yet completed |
| Statuses.RunCoded | python3/nvsim/cmd_handlers/__init__.py:17-27 | in every legal run whose handlers answer by a function of the command, each completion carries that function's status of the command it belongs to |
| Statuses.PolledStatus | python3/lone/nvme/device/__init__.py:343-360 | after any such run from fresh queues the entry a poll finds, read from the ring, carries the SQID, the CID and the status of the oldest unconsumed command of its SQ |
| Limits.RoomIsExact | python3/lone/nvme/spec/queues.py:108-118 | for any queues sharing CQs in any way, CQ FULL can fire in some run if and only if some CQ has fewer entries than its SQs can have commands outstanding, plus one; runs without CID reuse already show it when there are as many CIDs as CQ entries |
| Limits.Overflow | python3/lone/nvme/spec/queues.py:108-118 | the run that fires it: fill the SQs, then serve them while the host consumes nothing |
| Limits.LossIsExact | python3/lone/nvme/device/__init__.py:28-50 | a poll can meet an unknown command in some run if and only if some SQ has at least three entries and its CQ at least two |
| Limits.ReuseIsReachable | python3/lone/nvme/device/__init__.py:28-50 | for such an SQ a run without any CID reuse leads to a state where the next post goes through under a CID that is still outstanding |
| Limits.StaleMisdelivers | python3/lone/nvme/device/__init__.py:298-433 | after such a post, in any run that posts nothing more to that SQ: the key stands for the newer command until the older one's entry is consumed and for nothing afterwards, the poll of that entry completes the newer command's object, and the newer one's own entry is never consumed, since the poll that finds it raises |
| RoundRobin.PassesMembers | python3/nvsim/simulators/generic.py:483-489 | after r whole passes a busy queue has been served min(r, waiting) times |
| RoundRobin.PassProgress | python3/nvsim/simulators/generic.py:483-489 | while fewer commands were handled than are waiting, a pass handles at least one, so the loop ends |
| RoundRobin.DispatchedExact | python3/nvsim/simulators/generic.py:465-489 | one call drains the admin queue and serves IO queue q min(rounds, waiting) times; with up to 100 IO commands waiting it serves every queue to its end |
| RoundRobin.DispatchedBatch | python3/nvsim/simulators/generic.py:481-489 | of more than 100 waiting IO commands at least 100 are served, fewer than 100 before the last pass, and fewer than 100 more than the number of busy queues in all |
| RoundRobin.TurnOrder | python3/nvsim/simulators/generic.py:465-489 | the whole order of a call: at turn j + 1 of an IO queue the admin queue is empty and every other IO queue had j + 1 turns if it stands before it in the table and j if behind, as far as it had commands |
| RoundRobin.NoStarvation | python3/nvsim/simulators/generic.py:465-489 | every queue with a waiting command is served at least once per call |
| RoundRobin.DispatchedInOrder | python3/nvsim/simulators/generic.py:475-489 | whoever is served, every queue before it in the table that had commands waiting was served before |
| Serving.ServeWaiting | python3/lone/nvme/spec/queues.py:50-88 | a schedule takes from each queue exactly the turns it gave it |
| Serving.ServeKeeps | python3/nvsim/cmd_handlers/__init__.py:17-27 | a schedule with its commands waiting goes through if and only if no handler raises on a command it takes; it then keeps the invariant, fills each CQ in schedule order with completions that carry the status of their commands, and nothing but a handler can raise |
| Serving.TurnStatus | python3/nvsim/cmd_handlers/__init__.py:17-27 | turn k of a schedule leaves, at its place in its CQ, the completion of the command it took, with that command's CID and status |
| Serving.BreaksAt | python3/nvsim/simulators/generic.py:465-489 | otherwise it ends at the first such command: all turns before went through, that command is fetched and not completed, the rest is not served |
| Serving.WaitingExact | python3/lone/nvme/spec/queues.py:50-59 | what the device counts as waiting is what was posted and not completed |
| Serving.FirstOnto | python3/nvsim/simulators/generic.py:465-489 | the first completion a CQ receives in a call is for the first SQ in the table that feeds it and has a command waiting |
| Serving.ServeIgnoresOutstanding | python3/nvsim/simulators/generic.py:510-511 | device turns do not depend on the host's outstanding map, so running them before the command is entered changes nothing |
| Dispatch.HandleOne | python3/nvsim/simulators/generic.py:470-473 | one fetch and its handler are one protocol turn, with the state an exception of the handler or CQ FULL leaves; nothing happens on an empty queue |
| Dispatch.DrainAdmin | python3/nvsim/simulators/generic.py:467-473 | the admin queue is served until empty, in exactly as many turns as commands were waiting, or up to the first exception |
| Dispatch.BusyQueues | python3/nvsim/simulators/generic.py:475-481 | lists the IO queues with a waiting command in table order, deleted SQs passed over, and their total |
| Dispatch.CheckCommands | python3/nvsim/simulators/generic.py:465-489 | without a queue pair the lookup of the admin pair raises; otherwise the loop over the shared objects, deleted SQs passed over, ends, and its outcome and state are those of the round robin schedule with the least sufficient number of passes, run up to the first exception of a handler; if none raises and at most 100 IO commands were waiting, no SQ that is left has a command waiting |
| Simulator.PostedCommand | python3/nvsim/simulators/generic.py:510-511 | under the invariant the dispatch loop goes through if and only if no handler raises on a command of that schedule, and then keeps the invariant; otherwise the exception gets out, with the schedule cut short at that command |
| Simulator.ServeUnseen | python3/lone/nvme/device/__init__.py:298-308 | serving before the command is outstanding comes to the same as serving after the whole post, but for the outstanding commands |
| Simulator.StartCmd | python3/lone/nvme/device/__init__.py:453-478 | on the simulated device a start is refused exactly when the queue looks full, raises exactly when a handler raises on a command of the schedule, leaving that command fetched and the one just posted not outstanding, and otherwise is a post followed by the schedule |
| Simulator.GetCompletion | python3/lone/nvme/device/__init__.py:343-360 | under the invariant a poll finds a completion exactly when one is waiting, and raises exactly when the data of its command cannot be copied out |
| Simulator.SyncCmd | python3/lone/nvme/device/__init__.py:438-451 | ends like its start when that is refused or raises; otherwise the first poll always finds a completion, and it completes the command just posted, so that the assertion holds, if and only if nothing was ready on its CQ and nothing waiting on the SQs of that CQ up to its own |
| Simulator.SyncDelivers | python3/lone/nvme/device/__init__.py:438-451 | for a command next in line the entry that poll finds is its own, with the status its handler came to |
| Simulator.QuietIsNext | python3/lone/nvme/device/__init__.py:438-451 | nothing outstanding on the SQs that feed the CQ suffices for that |
| SimulatedIo.QuietStart | python3/lone/nvme/device/__init__.py:298-308 | with nothing waiting a start goes through if and only if the handler does not raise on that command, and the entry it leaves at the CQ's tail then carries its CID, SQID and status; if it raises, the command waits nowhere, has no completion and is not outstanding, and its CID and slot are used up |
| SimulatedIo.LostBreaks | python3/nvsim/simulators/generic.py:483-489 | that state is none the history of posts and completions accounts for |
| SimulatedIo.WriteStart | python3/nvsim/cmd_handlers/nvm.py:16-39 | for a Write the host laid out, start_cmd raises exactly in range with exactly two pages; otherwise the slot at the CQ's tail holds status 0x80 if the Write is out of range and 0 if it is in range |
| SimulatedIo.StartThenSync | python3/lone/nvme/device/__init__.py:438-478 | a start and then a sync_cmd on the same queue with no poll between: the sync's poll completes the first command, and its assertion fails |
| QueueTable.QueueMgr.Add | python3/lone/nvme/spec/queues.py:131-141 | sets the pair under its key, keeping dictionary order, and rebuilds both id lists |
| QueueTable.PutExact | python3/lone/nvme/spec/queues.py:131-132 | an existing key keeps its place and takes the new pair, a new key is appended, no other item changes, and keys stay distinct |
| QueueTable.IoIdsAre | python3/lone/nvme/spec/queues.py:134-141 | the id lists hold one id for each pair with both ids nonzero, in table order, and no other |
| QueueTable.QueueMgr.RemoveSq | python3/lone/nvme/spec/queues.py:159-164 | takes the SQ out of exactly the pairs of that id and drops the id once per pair, all else unchanged; fails exactly when an IO id is listed less often than it has pairs |
| QueueTable.QueueMgr.RemoveCq | python3/lone/nvme/spec/queues.py:143-157 | takes the CQ out of exactly the pairs of that id and then drops the pairs with nothing left, all else unchanged; fails exactly when a pair of that id still has its SQ or an IO id is listed less often than it has pairs |
| QueueTable.RemoveFirst | python3/lone/nvme/spec/queues.py:143-164 | an id is dropped where it is listed first |
| QueueTable.AliveIs | python3/lone/nvme/spec/queues.py:143-157 | a pair stays in the table exactly as long as one of its queues is left |
| QueueTable.QueueMgr.NextIosqId | python3/lone/nvme/spec/queues.py:227-235 | hands out the IO SQ ids cyclically; fails only when removals left the index out of range |
| QueueTeardown.AddStage | python3/lone/nvme/spec/queues.py:131-141 | adding a pair with fresh ids extends the table and both id lists by exactly that pair |
| QueueTeardown.SqSteps | python3/lone/nvme/spec/queues.py:159-164 | with fresh ids, removing the SQs in creation order takes the table through its stages one pair at a time |
| QueueTeardown.RemoveCqStage | python3/lone/nvme/spec/queues.py:143-157 | once all SQs are gone, removing a CQ drops its pair and the not-None-SQ assertion does not fire |
| QueueTeardown.CqBeforeSq | python3/lone/nvme/spec/queues.py:143-149 | removing a CQ before its SQ always fires that assertion |
| QueueTeardown.QueueController.HandleCreateCq | python3/nvsim/cmd_handlers/admin.py:77-108 | a CQ that is not physically contiguous is refused; any other is kept for a later SQ, with a zero-based size |
| QueueTeardown.QueueController.HandleCreateSq | python3/nvsim/cmd_handlers/admin.py:115-147 | the new SQ is paired with the first CQ of that id; without one the command fails and the table is unchanged |
| QueueTeardown.QueueController.HandleDeleteSq | python3/nvsim/cmd_handlers/admin.py:173-185 | id 0 is an assertion failure; otherwise the simulator's table loses that SQ |
| QueueTeardown.QueueController.HandleDeleteCq | python3/nvsim/cmd_handlers/admin.py:154-166 | id 0 is an assertion failure; otherwise the simulator's table loses that CQ |
| QueueTeardown.QueueController.CreateIoQueuePair | python3/lone/nvme/device/__init__.py:190-250 | whatever the ids, it succeeds exactly for contiguous memory; the host's table gets the new pair, the simulator's the new SQ with the first CQ ever created under that id, and the tables stay in step |
| QueueTeardown.QueueController.CreateFreshPair | python3/lone/nvme/device/__init__.py:190-250 | with fresh ids both tables gain the same pair |
| QueueDeletion.AddedIntact | python3/lone/nvme/spec/queues.py:131-141 | creating a pair under any ids but the admin pair's leaves a table with every queue alive, the admin pair first and the id lists those of the pairs |
| QueueDeletion.CqStep | python3/lone/nvme/spec/queues.py:143-157 | once the SQs are gone, removing a CQ drops all pairs on it at once |
| QueueDeletion.DeleteIoQueues | python3/lone/nvme/device/__init__.py:266-290 | on any such tables, ids shared or not, it succeeds if and only if the IO pairs have nonzero ids and no two share an SQ id; the two tables have the same keys and the same live queues after every step, and at the end only the admin pair is left |
| Iova.HugePagesIovaMgr.Reset | python3/lone/system/linux/hugepages_mgr.py:28-50 | succeeds exactly when the ranges can start and supply more than 1000 IOVAs; the pool is then the first 1000 in range order |
| Iova.PoolIsSound | python3/lone/system/linux/hugepages_mgr.py:15-50 | for separate ranges with room for a window each, reset succeeds if and only if they hold more than 1000 windows, and then the 1000 windows are pairwise disjoint and inside the ranges |
| Iova.ThousandWindows | python3/lone/system/linux/hugepages_mgr.py:28-50 | on a range of exactly 1000 windows of 2 MiB reset fails |
| Iova.LoneRange | python3/lone/system/linux/hugepages_mgr.py:15-50 | the IOVAs of a lone range are 2 MiB apart from its start, or from 0x1000 when it starts at 0 |
| Iova.HugePagesIovaMgr.Get | python3/lone/system/linux/hugepages_mgr.py:55-57 | takes the front of the pool; fails exactly on an oversized request or an empty pool |
| Iova.HugePagesIovaMgr.Free | python3/lone/system/linux/hugepages_mgr.py:59-60 | puts the IOVA at the end of the pool |
| PageTable.RunsDisjoint | python3/lone/system/linux/hugepages_mgr.py:148-158 | no page belongs to two live allocations |
| PageTable.BytesDisjoint | python3/lone/system/linux/hugepages_mgr.py:117-180 | while live allocations are no longer than their pages, no two of them share a byte |
| PageTable.MarkKeeps | python3/lone/system/linux/hugepages_mgr.py:148-180 | linking a contiguous run of free pages keeps every page either free or owned by exactly one live head |
| PageTable.ReleaseKeeps | python3/lone/system/linux/hugepages_mgr.py:218-247 | releasing a live head keeps that too, and its pages have their own size and no links again |
| PageTable.PagesConserved | python3/lone/system/linux/hugepages_mgr.py:95-96 | free and used pages add up to the pages carved |
| PageTable.MarkCutsFreeList | python3/lone/system/linux/hugepages_mgr.py:148-158 | an allocation takes exactly its run out of the free list, order kept |
| PageTable.CarvedHasRun | python3/lone/system/linux/hugepages_mgr.py:101-115 | a freshly carved hugepage contains a run of every size up to it |
| HugePages.HugePagesMemoryMgr.constructor | python3/lone/system/linux/hugepages_mgr.py:68-93 | starts with exactly one hugepage carved, no allocation, and the whole IOVA pool |
| HugePages.NewManager | python3/lone/system/linux/hugepages_mgr.py:68-93 | construction fails exactly when there is no hugepage |
| HugePages.HugePagesMemoryMgr.MallocHps | python3/lone/system/linux/hugepages_mgr.py:101-115 | appends exactly the pages of the hugepages it took, in order, and fails exactly when they run out, having taken all there were |
| HugePages.HugePagesMemoryMgr.FreePages | python3/lone/system/linux/hugepages_mgr.py:95-96 | lists the unused pages in table order; with the used ones they are all pages |
| HugePages.HugePagesMemoryMgr.Search | python3/lone/system/linux/hugepages_mgr.py:135-164 | finds the earliest contiguous run of that many free pages, or nothing exactly when there is none |
| HugePages.HugePagesMemoryMgr.Link | python3/lone/system/linux/hugepages_mgr.py:152-177 | the head gets the size and the links; the other pages are only marked used |
| HugePages.HugePagesMemoryMgr.Malloc | python3/lone/system/linux/hugepages_mgr.py:117-186 | first fit, sound and complete: takes the earliest run after growth, fails exactly when there is none or hugepages run out, and finds one whenever it grew and the run fits a hugepage; it maps the run with its IOVA and size, raises exactly when the pool is empty or the size above 2 MiB, the run already linked, or for a direction it cannot map, the allocation already tracked; when too few pages are free for a run that fits a hugepage it takes exactly one hugepage and finds the run, or fails with the table unchanged if and only if there is none; the mapping call is the read or the write one by direction, over the whole size, and over a system page for anything smaller |
| HugePages.HugePagesMemoryMgr.GrowthIs | python3/lone/system/linux/hugepages_mgr.py:130-133 | when pages are short it asks for one hugepage, or for the most that fit into what is missing |
| HugePages.HugePagesMemoryMgr.NeedIs | python3/lone/system/linux/hugepages_mgr.py:122-127 | it needs one page, or as many as the bytes fill completely, which are at least those of a system page |
| HugePages.MallocFits | python3/lone/system/linux/hugepages_mgr.py:117-180 | an allocation fits its pages exactly when its size is a whole number of pages or less than one |
| PageTable.ReleaseFits | python3/lone/system/linux/hugepages_mgr.py:218-247 | freeing an allocation keeps the others within their pages |
| HugePages.StrandedLeaks | python3/lone/system/linux/hugepages_mgr.py:148-180 | after that exception some account of owners covers the table again if and only if the run was one page and the size that of a page; otherwise linked pages are in use that belong to no live allocation, or an unused page has the wrong size |
| Fragmentation.Fragments | python3/lone/system/linux/hugepages_mgr.py:117-186 | four allocations and two frees leave two free pages and hugepages to be had, and a malloc of two pages fails |
| Fragmentation.Strands | python3/lone/system/linux/hugepages_mgr.py:117-171 | with an empty IOVA pool the first malloc of two pages raises and strands one |
| Fragmentation.Overlaps | python3/lone/system/linux/hugepages_mgr.py:117-180 | two allocations of one and a half pages share bytes |
| Fragmentation.FreesOnePage | python3/lone/system/linux/hugepages_mgr.py:218-247 | an allocation of two pages is mapped with its size, and unmapped and cleared with that of one page |
| HugePages.HugePagesMemoryMgr.Free | python3/lone/system/linux/hugepages_mgr.py:218-247 | of a live allocation: no assertion fires, its pages are unused again, one page is unmapped and cleared, and its IOVA returns to the pool, whose IOVAs together with the live ones stay those it started with |
| HugePages.HugePagesMemoryMgr.FreeAll | python3/lone/system/linux/hugepages_mgr.py:249-263 | frees every allocation in order, gives the hugepages back, empties the tracking list and completes the IOVA pool |
| Prp.ListLayoutExact | python3/lone/nvme/spec/prp.py:196-219 | with a list page the data pages are found if and only if the nonzero words of the whole list page are their addresses |
| Prp.TwoPagesExact | python3/lone/nvme/spec/prp.py:196-219 | with two pages both are found if and only if the second page's only nonzero word is its own address; a zeroed second page is not found at all |
| Prp.FilledExact | python3/lone/nvme/spec/prp.py:234-244 | under Python's clamping and negative bounds, exactly when the slice assignment into one page raises, and what the page holds when it does not |
| Prp.BufferAt | python3/lone/nvme/spec/prp.py:221-229 | byte j of page n is byte n * page size + j of the buffer |
| Prp.CeilIs | python3/lone/nvme/spec/prp.py:27-40 | pages are rounded up: the least number the bytes fit into |
| Bytes.WordBytes | python3/lone/nvme/spec/prp.py:196-219 | a list entry is eight bytes, the lowest first |
| PrpBuffer.AllPagesOk | python3/lone/nvme/spec/prp.py:231-244 | no page of a transfer raises if and only if the data is whole pages, covers every page, or there is at most one page |
| PrpBuffer.PRP.constructor | python3/lone/nvme/spec/prp.py:27-40 | pages needed are the data pages by rounding up, plus list pages beyond two |
| PrpBuffer.PRP.Alloc | python3/lone/nvme/spec/prp.py:51-96 | succeeds exactly when the data pages are at most prps_per_page + 1, then has exactly the pages needed, and the list page names the data pages in order |
| PrpBuffer.PRP.FromAddress | python3/lone/nvme/spec/prp.py:98-145 | fails exactly on a zero address it needs; otherwise lists both addresses and every word of the list page |
| PrpBuffer.PRP.GetDataSegments | python3/lone/nvme/spec/prp.py:196-219 | the nested loops find the segments the specification describes, or hit the assertion on a word that is not exactly one known page |
| PrpBuffer.PRP.GetDataBuffer | python3/lone/nvme/spec/prp.py:221-229 | all segments one after the other, whole pages each |
| PrpBuffer.PRP.SetDataBuffer | python3/lone/nvme/spec/prp.py:231-244 | exactly when it raises; otherwise byte k of the buffer is byte k of the data as far as the data goes, and what it was from there on; no byte outside the pages changes |
| PrpBuffer.StoredAt | python3/lone/nvme/spec/prp.py:231-244 | of pages that overlap, an address gets its byte from the last one that has data for it |
| PrpBuffer.StoredKeeps | python3/lone/nvme/spec/prp.py:231-244 | and keeps its own when none has |
| PrpRoundTrip.AllocLays | python3/lone/nvme/spec/prp.py:51-96 | over distinct nonzero addresses and a zeroed list page, what alloc leaves is a laid-out PRP |
| PrpRoundTrip.HostFindsPages | python3/lone/nvme/spec/prp.py:196-219 | the host finds its own data pages in order unless there are two |
| PrpRoundTrip.DeviceFindsPages | python3/lone/nvme/spec/prp.py:98-145 | from the two raw addresses the device finds exactly the host's data pages in the same order unless there are two |
| PrpRoundTrip.NewPrp | python3/lone/nvme/spec/prp.py:27-96 | over zeroed, distinct pages the host's PRP is laid out for a transfer exactly when one list page can address the buffer |
| PrpRoundTrip.SetThenGet | python3/lone/nvme/spec/prp.py:221-244 | a write and then a read return, byte by byte, the data and behind it what the buffer held before, of the pages the code transfers; exactly when the write raises |
| PrpRoundTrip.WholeBuffer | python3/lone/nvme/spec/prp.py:196-244 | a whole buffer written and read comes back if and only if it does not have exactly two pages; of two pages the first comes back |
| Storage.SpliceBlocks | python3/nvsim/simulators/generic.py:75-78 | a byte-range assignment replaces exactly the addressed blocks, in order |
| Storage.SpliceAt | python3/nvsim/simulators/generic.py:75-78 | the same byte by byte |
| Storage.Namespace.Read | python3/nvsim/simulators/generic.py:70-73 | the addressed blocks go over the front of the PRP's pages; exactly when it raises |
| Storage.Namespace.Write | python3/nvsim/simulators/generic.py:75-78 | exactly the addressed blocks are replaced by the buffer's front; raises exactly when the buffer is too short, and then nothing changes |
| Storage.NVSimWrite | python3/nvsim/cmd_handlers/nvm.py:16-39 | for any addresses that are memory: out of range nothing changes; in range it raises exactly when the addresses and list words do not name known pages or their pages hold too little, and otherwise stores their front at the addressed blocks |
| Storage.NVSimRead | python3/nvsim/cmd_handlers/nvm.py:46-70 | for any addresses that are memory: out of range nothing changes; in range it raises exactly when they do not name known pages or the data ends inside one of several, and otherwise stores the addressed blocks into the pages found one after the other, which lays them over those pages unless some overlap |
| Storage.WriteDescribed | python3/nvsim/cmd_handlers/nvm.py:16-39 | of a PRP as the host lays it out, a Write in range raises exactly for two pages |
| Storage.ReadDescribed | python3/nvsim/cmd_handlers/nvm.py:46-70 | into such a PRP a Read in range raises exactly when more than two pages end inside a page, and fills only the first of two |
| StorageRefinement.WriteAgrees | python3/nvsim/simulators/generic.py:75-78 | after a write every addressed block is the written one and every other block is untouched |
| StorageRefinement.ReadAgrees | python3/nvsim/simulators/generic.py:70-73 | every block read is the last one written to its LBA |
| StorageRefinement.BlockDevice.WriteIo | python3/nvsim/cmd_handlers/nvm.py:23-39 | host buffer to byte store, for any buffer size: the Write succeeds, is logged and leaves the store the array of last-written blocks exactly for one page or at least three whole ones; otherwise it raises or is out of range, and the store is what it was |
| StorageRefinement.BlockDevice.ReadIo | python3/nvsim/cmd_handlers/nvm.py:53-70 | over any sequence of writes and for any buffer size, block j of the data a read returns is the last data written to SLBA + j, and all blocks are there unless the buffer has two pages; it raises exactly on a ragged buffer |
| StorageRefinement.BlockDevice.AllocBuffer | python3/lone/nvme/spec/prp.py:27-96 | a PRP the host allocated describes the buffer of the IO, and carries it if and only if its size is one of those |
| Lfsr.UnshiftShift | python3/lone/util/lba_gen.py:117-121 | the shift can be undone: the dropped bit is recoverable from the fed-back bit and the other taps |
| Lfsr.ShiftUnshift | python3/lone/util/lba_gen.py:117-121 | every state is the shift of another: a bijection on the states of that width |
| Lfsr.ShiftZero | python3/lone/util/lba_gen.py:117-121 | 0 is fixed and nothing else reaches it |
| Lfsr.RejectedGrows | python3/lone/util/lba_gen.py:123-126 | each rejection in a row adds a leading one to the state, and never past the width |
| Lfsr.Shifts | python3/lone/util/lba_gen.py:117-128 | one call makes at least one and at most num_bits + 1 shifts, fewer by the rejections already made |
| Lfsr.FirstAcceptedIsSucc | python3/lone/util/lba_gen.py:117-128 | a call lands on the first accepted state of the orbit after the current one |
| Orbits.LapExact | python3/lone/util/lba_gen.py:56-66 | one lap visits each accepted state of the orbit exactly once and returns to the seed |
| Orbits.IterationIsDuplicateFree | python3/lone/util/lba_gen.py:56-66 | one iteration yields no LBA twice, ends with its only 0, and has at most max_value + 1 values |
| Orbits.PermutationIffOrbitFull | python3/lone/util/lba_gen.py:56-66 | one iteration is a permutation of all multiples up to the largest if and only if the orbit of the seed meets every accepted state |
| MaxPeriod.MaximalPeriodVisitsEverything | python3/lone/util/lba_gen.py:56-128 | if the unfiltered register comes back to 1 only after all its nonzero states, then from every seed and for every max of that width one iteration yields every multiple up to the largest exactly once |
| MaxPeriod.MaximalPeriodIff | python3/lone/util/lba_gen.py:56-128 | and only then: full iterations from every seed for every max mean maximal period |
| LbaGen.PolyTaps | python3/lone/util/lba_gen.py:73-109 | in every row the first tap is 0 and the others are distinct and below the width |
| LbaGen.GenFor | python3/lone/util/lba_gen.py:22-46 | the constructor's width fits max_value with its top bit set, and every positive seed it accepts is a valid state |
| LbaGen.GenForRow | python3/lone/util/lba_gen.py:68-115 | its taps are those of the table's row for that width |
| LbaGen.GenForRange | python3/lone/util/lba_gen.py:22-29 | its largest state is the number of the last multiple from which a whole IO fits below max_lba |
| LbaGen.AcceptsIff | python3/lone/util/lba_gen.py:25-46 | accepted are nonzero seeds below that number, and numbers from 16 to 2^40 - 1 |
| LbaGen.TopIsParity | python3/lone/util/lba_gen.py:115-121 | a shift puts the parity of bits 0, n - b, n - c and n - d of the row (n, b, c, d) on top and moves the others down by one |
| ShiftBits.ShiftsRow | python3/lone/util/lba_gen.py:117-121 | on the binary digits the shift drops the lowest and appends the parity of the tapped ones |
| SmallWidths.TabledMaximal | python3/lone/util/lba_gen.py:74-77 | the taps for 5, 6, 7 and 8 bits have maximal period |
| LbaGen.SmallWidthsMaximal | python3/lone/util/lba_gen.py:22-77 | so has every generator the constructor makes with up to 8 bits |
| LbaGen.SmallRangesVisited | python3/lone/util/lba_gen.py:56-77 | with up to 256 multiples below max_lba every seed's iteration yields all of them |
| LbaGen.LBARandGenLFSR.Generate | python3/lone/util/lba_gen.py:117-128 | the recursive closure ends after at most num_bits + 1 shifts, on the first accepted state |
| LbaGen.LBARandGenLFSR.Next | python3/lone/util/lba_gen.py:56-66 | the i-th call since reset yields element i of the iteration, and every later call stops |
| LbaGen.LBARandGenLFSR.Reset | python3/lone/util/lba_gen.py:48-51 | starts the same iteration again |
| LbaGen.WholeIoFits | python3/lone/util/lba_gen.py:22-29 | every LBA yielded is a multiple of the IO size and leaves room for a whole IO below max_lba |
| NegativeSeeds.NegativeSeed | python3/lone/util/lba_gen.py:22-66 | a negative seed passes the assertions; every LBA is then negative, and the iteration comes back to the seed exactly for -1 |
| NegativeSeeds.ShiftIntIsShift | python3/lone/util/lba_gen.py:117-121 | the shift on integers of either sign is the register's on its states |

## Left out

- MemoryLocation objects: pages are entries of the manager's table and are referred to by index. The objects `malloc` returns, their `client` names, and changes a caller makes to them are not captured.
- HugePages.HugePagesMemoryMgr.Malloc: `malloc_pages` is not modelled; the mapping callbacks are a list of the calls made, and do not raise.
- HugePages.HugePagesMemoryMgr.Free: that the memory is really unmapped or cleared is not modelled, only the calls for it.
- HugePages.HugePagesMemoryMgr.FreeAll: the extension that takes the hugepages back is not modelled, only the call.
- HugePagesMemory: the hugepage extension hands out given regions, disjoint and at least one page long.
- PrpRoundTrip.DeviceFindsPages: only where IOVAs are virtual addresses, as in the simulator's memory manager; an IOMMU is not modelled.
- PRP pages: `malloc` of a page hands out the next of a list of given pages; that fresh pages are zero is a hypothesis of the layout lemmas. `free_all_memory` and the pretty printer are not modelled.
- Storage.NVSimRead: an address outside memory is not modelled, for reads and writes.
- Storage.NVSimWrite: one namespace; lookup by NSID and the file behind the store are not modelled.
- StorageRefinement.BlockDevice.WriteIo: with two pages the second is zero, as it is read as a list; other contents are covered by NVSimWrite and NVSimRead.
- Protocol steps: queues are fixed during a run and there is one device actor. What the handlers do to storage and tables is modelled beside the protocol and not inside it.
- Conservation: its whole-run theorems, and those of Limits, cover runs in which every fetched command is completed. After an exception in a handler the state is described by Serving.BreaksAt, and what later turns make of it is not.
- Serving.ServeKeeps: what a handler makes of a command, a status or an exception, is a function of the command. SimulatedIo.WriteStart fills it in for Writes, over one content of memory.
- Shared CQs: the model has one CQ object a side for each CQ, over one memory. `create_io_queue_pair` builds a host CQ object for each pair, so two pairs created on one CQ id (python3/lone/nvme/device/__init__.py:194-250) differ in phase and also in memory: the host allocates new CQ memory for the second, while the simulator finds the first CQ of that id (python3/nvsim/cmd_handlers/admin.py:115-147) and goes on writing into the first one's.
- System.NVMeSystem.CompleteCommand: whether a command is marked as posted and whether its data can be copied out are inputs; the copy itself is not modelled.
- Simulator.StartCmd: looking queues up by id, and the checks on a command object that is started twice (its old CID, its posted and complete flags), are not modelled.
- Queues.CidMgr.Alloc: nothing in the source keeps a CID from being outstanding; freshness is a hypothesis of the invariant of the outstanding map only, and LossIsExact says when it fails.
- Simulator.SyncCmd: one poll, which is what polling for one completion comes to here; status checks, MSI-X, the polling loops with their time limits and CFS handling are not modelled.
- NVMeHeadTail: two of its objects at one address are one doorbell cell here.
- Dispatch.CheckCommands: queue 0 is the admin pair and is never deleted, as the handlers' assertions ensure; before the controller is enabled the table is empty.
- Queue lifecycle: disabling and enabling again, and `QueueMgr.get` beyond the admin pair, are not modelled.
- Admin commands other than creating and deleting queues, Flush, Identify, log pages, format and features are payload plumbing.
- LbaGen.GenFor: a max_lba below the IO size, which only a negative seed gets past, is not modelled; maximal period of the tap table is computed for 5 to 8 bits and a hypothesis beyond them, where the rows are stated as data.
- Page counts: the source rounds up through a float; here the division is exact.
