# A model of PCM's measurement engine

This Dafny project models the measurement engine of Processor Counter Monitor (`src/cpucounters.cpp`,
`src/cpucounters.h`) and two small components around it (`src/cpuasynchcounter.h`, the control registers of
`src/lspci.h`), and proves properties of it over all inputs, all hardware behaviours and all interleavings.
Check it with `dafny verify dfyconfig.toml`.

| file | what it models |
|---|---|
| `Options.dfy` | a value that may be absent |
| `Sums.dfy` | finite sums and 64-bit wrap-around |
| `CounterStates.dfy` | the accumulators of a counter state and the `+=` operators |
| `CoreTaskQueue.dfy` | the per-core task queues as a step system: workers, mutexes, condition variables, the pushing main thread, spurious wakeups |
| `CounterCollection.dfy` | `getAllCounterStates` on top of the queues, against the sequential `getSystemCounterState` |
| `UncorePmu.dfy` | one uncore box: freezing, programming and releasing it while its counters may advance between any two register accesses |
| `FreezeBrackets.dfy` | freeze-read-unfreeze brackets of several threads on the same boxes, interleaved in any way |
| `ServerUncorePmus.dfy` | the vectors of boxes of a socket: bracketed reads, `programXPI`, `cleanupQPIHandles` |
| `TopologyDomains.dfy` | the domains of CPUID leaf 1FH and the APIC ID fields (Intel SDM Vol. 2A, CPUID instruction, leaf 1FH) |
| `SystemTopology.dfy` | the rest of `discoverSystemTopology`: threads per core, dense socket numbers, reference cores |
| `Rdt.dfy` | RMID assignment in IA32_PQR_ASSOC and IA32_QM_EVTSEL |
| `UncoreCounters.dfy` | reading and looking up uncore PMUs by one flat unit number |
| `ImcChannels.dfy` | memory channels, their controllers, and the read totals |
| `TopDownSlots.dfy` | apportioning of top-down slots with truncation |
| `Instance.dfy` | the double-checked singleton |
| `AsynchronCounters.dfy` | the two-generation snapshot buffer with a writer and many readers |
| `ControlRegisters.dfy` | the packed register `ccr` in two layouts and the shared filter word of the IDX PMUs |
| `BitCount.dfy` | `weight32` |

Concurrent code is modelled as states and atomic steps, and the theorems are about every reachable state of
every run. Code that updates objects in place is modelled by classes and loops proved against specification
functions. Integer widths are explicit where they matter: accumulators are 64-bit sums modulo 2^64, registers are
bit vectors.

## What the proofs found out about the code

Where an expected property does not hold of the code in general, the lemma says exactly when it does.

- `UncoreCounterState::operator +=` leaves out near-memory hits and misses and power-plane energies, so the parallel
  system total of these fields is always 0 (`CounterCollection.DroppedFieldsAreZero`), and agrees with the sequential
  one exactly if that is 0 modulo 2^64. All other fields agree exactly if what the sockets without a reference core
  counted is 0 modulo 2^64, since the sequential form skips those sockets (`CounterCollection.ParallelEqualsSequential`);
  with all sockets online they always agree (`CounterCollection.SummedFieldsAgree`). A machine whose memory controllers
  counted one near-memory hit shows the loss: the parallel form returns 0, the sequential one 1
  (`CounterCollection.ParallelLosesHit`). The states of single sockets lose nothing: with uncore counters on, each
  equals what `getSocketCounterState` returns for that socket, in every field
  (`CounterCollection.SocketEqualsSequential`).
- A read inside a freeze bracket returns the counter at which the bracket stopped the box, in every execution, exactly
  if nobody unfreezes that box between the bracket's freeze and the read (`FreezeBrackets.ReadsAreFaithful`). Further
  freezes do no harm. The socket tasks and `readQPICounters` bracket the same boxes from different threads, and the
  smallest overlap that tears is `FreezeBrackets.OverlapTears`.
- The fields sliced out of an APIC ID tile it exactly if no domain of leaf 1FH is empty
  (`TopologyDomains.FieldsTileApicId`). The upper bound of an empty domain lies below its lower bound, and
  `extract_bits_32` swaps the two instead of returning 0; at shift 0 the upper bound wraps around and is cut to 31, so
  that the whole APIC ID is read (a build with assertions stops instead). For a single APIC ID the tiling holds exactly
  if every empty domain reads 0 in it (`TopologyDomains.FieldsTileThisApicId`, `TopologyDomains.EmptyFieldZero`). With
  one thread per core and a logical-processor domain of width 0, core 1 is read as thread 1 of core 1
  (`TopologyDomains.CoreReadTwice`).
- The per-controller reads add up to `getImcReads` exactly if the channel counts reach the number of channels. Every
  path of `initDirect` ensures that. `initPerf` truncates a division and ensures it exactly if the division leaves
  no remainder (`ImcChannels.ControllersAddUp`, `ImcChannels.PerfAddsUp`).
- `initRDT` gives usable, pairwise different RMIDs exactly if no socket has more online cores than the ten low bits of
  the number of RMIDs minus one; the core after that gets RMID 0 (`Rdt.RmidsGood`). Up to 1024 RMIDs these are all
  RMIDs but RMID 0 (`Rdt.AllButZeroUsable`).
- `initQOSevent` clears four bits of the event id but sets eight: the last requested event is selected exactly if it
  contains bits 4 to 7 of all earlier requests (`Rdt.LastEventSelected`), which event 0x10 followed by event 0x1 does
  not (`Rdt.EventsMixed`). The requests that the code makes are 1, 2 and 3, and requests below 16 are always selected
  (`Rdt.SmallEventsSelected`).
- The constants with which the IDX filters clear their field are 60 bits wide, so any filter write also clears bits
  60 to 63 of `config1` (`ControlRegisters.FiltersPackLast`). Reading a filter register back agrees with the field
  that the hardware uses exactly if the last value written to it fits (`ControlRegisters.WriteFilters`).
- A top-down read whose four fractions are all 0 drops all its slots; every other read drops at most three
  (`TopDownSlots.Deficit`, `TopDownSlots.DeficitTight`).
- On the default families, `freeze(extra)` stops a box and `unfreeze(extra)` restarts it exactly if the freeze bit of
  `extra` is clear and its freeze-enable bit is set (`UncorePmu.FreezeBits`); the constants passed in the code are of
  this kind.

## Model

| member | source | states |
|---|---|---|
| CoreTaskQueue.StepControl | src/cpucounters.cpp:3144-3181 | every step of a worker or of the pushing thread keeps the control invariant: who holds each mutex, which tasks are queued, running or done, and in which order |
| CoreTaskQueue.NoLostWakeup | src/cpucounters.cpp:3144-3181 | in every reachable state, if a mutex is free and its queue is not empty, the worker is not waiting un-notified |
| CoreTaskQueue.RunsInPushOrder | src/cpucounters.cpp:3144-3181 | a task that has begun finds every earlier task of its queue complete |
| CoreTaskQueue.RunsExactlyOnce | src/cpucounters.cpp:3150-3160 | when the main thread has waited for all futures, every task has executed each of its operations once and was taken off its queue once, in push order |
| CoreTaskQueue.StepInv | src/cpucounters.cpp:7194-7227 | every step keeps the memory invariant: for each accumulator, memory plus what is still to be added equals the plan's total modulo 2^64, and no loaded value goes stale |
| CoreTaskQueue.HeadsDisjoint | src/cpucounters.cpp:7200-7227 | two workers never add plainly to the same location at the same time |
| CoreTaskQueue.FinalMemory | src/cpucounters.cpp:7183-7238 | whatever the interleaving, after the last wait every accumulator holds the sum of everything the tasks add to it, modulo 2^64 |
| CoreTaskQueue.NoDeadlock | src/cpucounters.cpp:7194-7238 | until the main thread has finished, some thread can take a step that is not a spurious wakeup |
| CoreTaskQueue.StepWork | src/cpucounters.cpp:3150-3160 | every step reduces the remaining work, except that a spurious wakeup adds four |
| CoreTaskQueue.BoundedRun | src/cpucounters.cpp:7194-7238 | a round takes at most its initial work plus five steps per spurious wakeup, under any scheduling |
| CoreTaskQueue.CanFinish | src/cpucounters.cpp:7194-7238 | from every state that satisfies the invariant some steps lead to a finished one |
| CoreTaskQueue.FinishReachable | src/cpucounters.cpp:7194-7238 | from every reachable state of a round a finished one can be reached |
| CoreTaskQueue.LeftoverPop | src/cpucounters.cpp:3156-3159 | when a round has finished, a worker whose queue is not empty is about to pop its last task |
| CoreTaskQueue.RoundsChain | src/cpucounters.cpp:7183-7238 | after any finished round the next one begins in an initial state, so the results hold for every later call |
| CoreTaskQueue.StepsBetweenRounds | src/cpucounters.cpp:3150-3160 | what workers do between two rounds is the same step of the next round's start |
| CounterCollection.CollectionExclusive | src/cpucounters.cpp:7194-7227 | the tasks of a round are race-free: each plain accumulator has one writing task, and only package C-state residencies are shared, atomically |
| CounterCollection.CoreTaskContribution | src/cpucounters.cpp:6858-6876 | what one core task adds: its core's readings to its own state and, with uncore counters on, the non-zero package residencies to its socket |
| CounterCollection.CollectionTotal | src/cpucounters.cpp:7194-7227 | what all tasks of a round add to each accumulator |
| CounterCollection.AggregateStates | src/cpucounters.cpp:7240-7252 | the two aggregation loops leave in every field of the system the sum over the sockets modulo 2^64, and 0 in near-memory hits and misses and power-plane energies |
| CounterCollection.SystemAfterGet | src/cpucounters.h:4122-4128 | folding sockets into the system sums every field except near-memory hits and misses and power-plane energies, which stay 0 |
| CounterCollection.SocketsAfterGet | src/cpucounters.cpp:7240-7244 | folding cores into sockets adds each basic field of the cores of that socket, and nothing else |
| CounterCollection.Regroup | src/cpucounters.cpp:7240-7252 | summing per socket and then over sockets equals summing over cores |
| CounterCollection.SocketResult | src/cpucounters.cpp:7183-7244 | the returned state of a socket does not depend on the interleaving |
| CounterCollection.ParallelResult | src/cpucounters.cpp:7183-7254 | the returned system state is, field by field, the sum of all readings modulo 2^64, or 0 for near-memory hits and misses and power-plane energies, for every interleaving |
| CounterCollection.GetSystemCounterState | src/cpucounters.cpp:6599-6624 | the sequential loops execute exactly the core readings followed by those of the online sockets |
| CounterCollection.SequentialResult | src/cpucounters.cpp:6599-6624 | each field of the sequential result is the sum of its readings modulo 2^64 |
| CounterCollection.ParallelEqualsSequential | src/cpucounters.cpp:7183-7254 | with uncore counters on, a field of the two forms agrees if and only if what the sockets without reference core counted is 0 modulo 2^64; for near-memory hits and misses and power-plane energies, if and only if the sequential total is 0 modulo 2^64 |
| CounterCollection.SummedFieldsAgree | src/cpucounters.h:3819-3840 | with all sockets online and uncore counters on, each of the fields listed by name is the same in both forms, whatever was read |
| CounterCollection.DroppedFieldsAreZero | src/cpucounters.h:3819-3840 | near-memory hits and misses and power-plane energies are 0 in every parallel system state |
| CounterCollection.WithoutUncoreCounters | src/cpucounters.cpp:7194-7235 | without uncore counters every field but those of the cores is 0 |
| CounterCollection.CoreStateResult | src/cpucounters.cpp:7198-7212 | the state of an online core equals that of executing its own read alone, in every field, whatever the other tasks do |
| CounterCollection.OneReadingArrives | src/cpucounters.cpp:7183-7254 | for every field and value: a machine with that single reading returns the value modulo 2^64 in the sequential form, and in the parallel one unless += leaves the field out |
| CounterCollection.CStateAmount | src/cpucounters.cpp:6858-6876 | reading the package residencies adds value j to C-state j only |
| CounterCollection.ResidencyResult | src/cpucounters.cpp:7183-7254 | in both forms the residency of a package C-state is the sum of what the online cores read for that state |
| CounterCollection.CanCollect | src/cpucounters.cpp:7183-7254 | on every machine some run of getAllCounterStates finishes |
| CounterCollection.ParallelLosesHit | src/cpucounters.h:3819-3840 | a machine with one near-memory hit on which the parallel form returns 0 and the sequential one 1 |
| CounterCollection.ParallelCoreCounters | src/cpucounters.cpp:7183-7254 | the core counters agree with the sequential form with or without uncore counters, and whichever sockets are online |
| CounterCollection.GetSocketCounterState | src/cpucounters.cpp:7163-7181 | the sequential loop executes exactly the readings of the socket's online cores, in order, followed by the socket's own |
| CounterCollection.SocketEqualsSequential | src/cpucounters.cpp:7163-7244 | with uncore counters on, the parallel state of each socket equals that of getSocketCounterState in every field, for every interleaving and whichever sockets are online |
| CounterCollection.SocketTaskAfterCoreTask | src/cpucounters.cpp:7214-7227 | a socket's task starts only after the core task of its reference core is complete |
| CounterStates.AddReadingsGet | src/cpucounters.cpp:6858-6876 | executing a list of `field += value` statements adds exactly their amount modulo 2^64 |
| UncorePmu.Hardware.WriteUnitControl | src/cpucounters.cpp:11401-11433 | the hardware assumption: what a write of the unit control does to a box, after any events were counted |
| UncorePmu.Freeze | src/cpucounters.cpp:11401-11416 | the box stops, once if it was counting, and holds the counters of that moment; other boxes only see time pass |
| UncorePmu.Unfreeze | src/cpucounters.cpp:11418-11433 | the box counts again from where it stopped |
| UncorePmu.InitFreeze | src/cpucounters.cpp:11435-11479 | without a unit control nothing happens; otherwise the box ends up frozen, with controls reset on the newer families, or its unit control is dropped exactly if the requested check fails |
| UncorePmu.EnableAndCheck | src/cpucounters.cpp:11455-11465 | the read-back check succeeds exactly if the box returns the valid bits that were written |
| UncorePmu.ReadsBackBits | src/cpucounters.cpp:11455-11465 | a box fails the check if and only if it is of the default families and absent and its valid bits do not happen to read as written |
| UncorePmu.ValidBitsAreLow | src/cpucounters.cpp:11455-11465 | the valid bits are the low 17 bits |
| UncorePmu.ResetUnfreeze | src/cpucounters.cpp:11481-11500 | the box ends up counting, with counters reset and controls kept |
| UncorePmu.Program | src/cpucounters.h:1258-1289 | each control that is there and has an event holds that event, with the enable bit on default families, and every other control what it held; nothing is written to a control of a counting box if the box was frozen; with non-zero extra the box ends up counting from zero |
| UncorePmu.InitAndProgram | src/cpucounters.cpp:9903-9925 | initFreeze then program writes no control register of a counting box and leaves each control with its own event, or reset or unchanged by family, and the box counting from zero |
| UncorePmu.FreezeBits | src/cpucounters.cpp:11413-11431 | freeze and unfreeze work on default families if and only if extra has the freeze bit clear and the freeze-enable bit set |
| UncorePmu.ControlValues | src/cpucounters.cpp:11401-11433 | the values written by freeze and unfreeze stop and restart the box and reset nothing, in both encodings |
| FreezeBrackets.OthersKeepCounters | src/cpucounters.cpp:10044-10064 | whatever accesses brackets make to a frozen box and to others, the box keeps its counters in every execution if and only if none of them unfreezes it |
| FreezeBrackets.ReadsAreFaithful | src/cpucounters.cpp:7125-7138 | for any brackets of any threads on any boxes, interleaved in any way: every read returns, in every execution, what the counter was when its bracket froze the box, if and only if nobody unfreezes the box between that freeze and the read |
| FreezeBrackets.StaysStopped | src/cpucounters.cpp:7602-7640 | a box that is frozen after some access keeps its counters until the first unfreeze, whatever else happens |
| FreezeBrackets.DisturbedReadTears | src/cpucounters.cpp:6734-6768 | an unfreeze between the freeze and the read makes some execution return a larger counter |
| FreezeBrackets.OverlapTears | src/cpucounters.cpp:6734-6768 | the smallest such overlap: two brackets freeze a box, the first releases it, and a counter moves on before the second has read it |
| ServerUncorePmus.ServerUncorePMUs.FreezeCounters | src/cpucounters.cpp:10044-10053 | freezes exactly the boxes of all seven vectors, with the unit control value of the family |
| ServerUncorePmus.ServerUncorePMUs.UnfreezeCounters | src/cpucounters.cpp:10055-10064 | releases exactly the boxes of all seven vectors, with the unit control value of the family |
| ServerUncorePmus.GetPMUCounter | src/cpucounters.cpp:10103-10117 | a counter of a box, or 0 outside the vector or beyond its counters |
| ServerUncorePmus.ReadVectors | src/cpucounters.cpp:7607-7638 | while the boxes are frozen, the c-th value read of a box is its c-th counter at the moment it stopped, or 0 if it has none, whatever time passes |
| ServerUncorePmus.ReadClocks | src/cpucounters.cpp:10081-10100 | while the boxes are frozen, every DRAM or HBM clock read is the one at which its box stopped |
| ServerUncorePmus.ServerUncorePMUs.ReadBracket | src/cpucounters.cpp:7602-7640 | a bracket on boxes nobody else has frozen reads, for each box, each of its counters by number and its clock at the one moment it stopped that box, stops it exactly once, and leaves all boxes counting |
| ServerUncorePmus.BracketResult | src/cpucounters.cpp:7602-7640 | the stop values lie between those before and after the bracket |
| ServerUncorePmus.ValidOnesErase | src/cpucounters.cpp:9627-9638 | erasing a box without unit control leaves the others and their order unchanged |
| ServerUncorePmus.ServerUncorePMUs.CleanupQPIHandles | src/cpucounters.cpp:9627-9638 | erase and recurse terminates and leaves exactly the boxes with a unit control, in order |
| ServerUncorePmus.ProgramXpiVector | src/cpucounters.cpp:9607-9623 | the loop marks exactly the boxes whose read-back fails, and programs all others without writing a counting box |
| ServerUncorePmus.ServerUncorePMUs.ProgramXPI | src/cpucounters.cpp:9607-9638 | afterwards xpiPMUs are, in original order, exactly the boxes that answered, all programmed and counting, and freezeCounters may be called; each of their controls holds its own event |
| ServerUncorePmus.AnsweringMembers | src/cpucounters.cpp:9607-9638 | a box is among the remaining ones if and only if it was there and answered |
| ServerUncorePmus.AnsweringInOrder | src/cpucounters.cpp:9607-9638 | the boxes that remain keep their order |
| TopologyDomains.BuildTopologyDomains | src/cpucounters.cpp:1169-1199 | the loop builds the domains of all subleaves up to the first invalid one, each starting where the previous ended, and the package domain up to bit 32 |
| TopologyDomains.RebuildPrefix | src/cpucounters.cpp:1226-1235 | the fields of the first n domains hold at least the APIC ID's bits below the n-th shift, and exactly those if no domain is empty |
| TopologyDomains.FieldsTileApicId | src/cpucounters.cpp:1169-1207 | the fields of all domains shifted back add up to every 32-bit APIC ID if and only if no domain is empty |
| TopologyDomains.EmptyDomainExcess | src/types.h:1588-1610 | with all bits set, an empty domain makes the sum of the fields too large |
| TopologyDomains.CoreReadTwice | src/cpucounters.cpp:1226-1235 | without hyper-threading, a logical-processor domain of width 0 reads the whole of APIC ID 1, as the core domain does: the fields add up to 2 |
| TopologyDomains.FieldsTileThisApicId | src/cpucounters.cpp:1226-1235 | for each APIC ID by itself, its fields add up to it if and only if every empty domain reads 0 in it |
| TopologyDomains.EmptyFieldZero | src/types.h:1568-1610 | an empty domain at shift s reads 0 if and only if bits s-1 and s are clear; at shift 0, if and only if the whole APIC ID is 0 |
| TopologyDomains.IdsDetermineApicId | src/cpucounters.cpp:1226-1260 | if the core domain directly follows the logical-processor domain, two APIC IDs with equal thread, socket-unique core and socket numbers are equal, whether or not domains are empty |
| TopologyDomains.IdsRebuildApicId | src/cpucounters.cpp:1226-1260 | if moreover the thread and core fields are not empty, the three numbers shifted to their places add up to the APIC ID |
| TopologyDomains.IdsAreFields | src/cpucounters.cpp:1226-1260 | if the thread and core domains are not empty, the thread, core, socket-unique core and socket numbers are each the quotient of the APIC ID by the power of two at which the field starts, modulo its range |
| SystemTopology.SameCoreAdjacent | src/topologyentry.h:96-121 | sorting puts the threads of one core next to each other |
| SystemTopology.ScanNew | src/cpucounters.cpp:1545-1562 | when the scan meets a new core, no thread of it was seen before and the finished group is counted in full |
| SystemTopology.ThreadsPerCore | src/cpucounters.cpp:1535-1567 | the scan finds exactly the largest number of online entries that have all six ids of a core in common |
| SystemTopology.ThreadsWithinDomain | src/cpucounters.cpp:1545-1562 | if entries of one core have different thread ids below m, threads_per_core is at most m, and at least 1 |
| SystemTopology.OneThreadPerCore | src/topologyentry.h:96-98 | if all online entries have different core ids, threads_per_core is 1 |
| SystemTopology.SiblingsPermuted | src/cpucounters.cpp:1535-1537 | the count of a core's threads does not depend on the order of the entries |
| SystemTopology.RenumberSockets | src/cpucounters.cpp:1506-1524 | each online entry's package id becomes its position among the sorted observed ids, nothing else changes |
| SystemTopology.RenumberingIsDense | src/cpucounters.cpp:1506-1524 | the new socket numbers are exactly 0..n-1 and keep order and equality of the ids |
| SystemTopology.ChooseRefCores | src/cpucounters.cpp:1589-1605 | each reference core is the highest-numbered online core of its socket, and the online sockets are those that have one |
| SystemTopology.DiscoverSockets | src/cpucounters.cpp:1506-1605 | after discovery every socket has a reference core, and all count as online, if and only if some core is online |
| SystemTopology.EverySocketHasCore | src/cpucounters.cpp:1589-1605 | every renumbered socket has an online core if and only if there is one at all |
| Rdt.RmidValue | src/cpucounters.cpp:667-704 | the k-th online core of a socket gets the RMID k below the number of usable ones, the ten low bits of maxRMID-1, down to 0 |
| Rdt.AllButZeroUsable | src/cpucounters.cpp:667-704 | up to 1024 RMIDs, maxRMID-1 of them are usable |
| Rdt.RmidsGood | src/cpucounters.cpp:663-704 | for every maxRMID, n consecutive RMIDs are different and in 1..maxRMID-1 if and only if n is at most the number of usable ones |
| Rdt.RanksGood | src/cpucounters.cpp:672-704 | over all cores: distinct RMIDs in range per socket if no socket has more online cores than usable RMIDs, else some online core has RMID 0 |
| Rdt.Halves | src/cpucounters.cpp:678-699 | the two halves in terms of which the registers are described are 32 bits wide and make up the register |
| Rdt.AssignedHolds | src/cpucounters.cpp:678-699 | both registers of a core get the same RMID, no event, and the class of service stays |
| Rdt.FirstEvent | src/cpucounters.cpp:678-723 | after the assignment and one request the two halves of IA32_QM_EVTSEL are the RMID and the low byte of the event |
| Rdt.NextEvent | src/cpucounters.cpp:712-723 | one more initQOSevent turns the event id of the earlier requests into that of all requests |
| Rdt.LastEventSelected | src/cpucounters.cpp:712-723 | after any requests the last one is selected if and only if it contains bits 4 to 7 of all earlier ones |
| Rdt.SmallEventsSelected | src/cpucounters.cpp:5836-5842 | requests below 16, the only ones the code makes, are always selected |
| Rdt.EventsMixed | src/cpucounters.cpp:712-723 | event 0x10 followed by event 0x1 selects 0x11 |
| Rdt.WithEventKeepsRmid | src/cpucounters.cpp:712-723 | initQOSevent keeps the RMID |
| Rdt.Monitoring.InitRDT | src/cpucounters.cpp:667-704 | every online core's two registers hold the RMID of its rank on its socket, the one in its lower and the other in its upper half; the upper half of IA32_PQR_ASSOC, the class of service, stays, and offline cores are untouched |
| Rdt.Monitoring.InitQOSevent | src/cpucounters.cpp:712-723 | only QM_EVTSEL of that core changes, and all RMIDs stay assigned |
| Rdt.Monitoring.Monitor | src/cpucounters.cpp:663-723 | after initRDT and any sequence of initQOSevent calls, every online core has kept its RMID, and its event id is what its own requests amount to |
| Rdt.Monitoring.CleanupRDT | src/cpucounters.cpp:5397-5419 | online cores get RMID 0 and no event and keep their class of service |
| Rdt.Monitoring.DistinctRmids | src/cpucounters.cpp:663-704 | while assigned, RMIDs of one socket are distinct and in range if and only if no socket has more online cores than there are usable RMIDs |
| UncoreCounters.ServerUncoreCounterState.ReadUncoreCounterValues | src/cpucounters.h:768-794 | after the read each die has a row per unit, whose c-th entry is the c-th counter of that unit; null units and missing counters keep what was there, or are 0 |
| UncoreCounters.GetMaxNumOfUncorePMUs | src/cpucounters.h:881-897 | the length of the concatenation of the per-die unit vectors |
| UncoreCounters.GetUncoreCounter | src/cpucounters.h:3402-3421 | the flat lookup equals indexing the concatenated rows, and is 0 past the end |
| UncoreCounters.FlatUnit | src/cpucounters.h:3402-3421 | unit u of die d has flat number u plus the numbers of units of the earlier dies, and returns the difference of its own counter |
| UncoreCounters.PastTheUnits | src/cpucounters.h:3402-3421 | flat numbers past the last unit and counters past the eighth return 0 |
| UncoreCounters.GetUncoreCounterState | src/cpucounters.cpp:11176-11199 | the sum of the counter over all units of the concatenation that are not null, modulo 2^64 |
| UncoreCounters.PairsAreUnits | src/cpucounters.h:768-794 | the rows of two fresh samples are, unit by unit, those of the concatenated unit vectors |
| UncoreCounters.SumOverUnits | src/cpucounters.h:3402-3421 | summed over all units below getMaxNumOfUncorePMUs, getUncoreCounter is the difference of getUncoreCounterState at the two samples, modulo 2^64 |
| ImcChannels.MemoryChannels.GetImcReadsForChannels | src/cpucounters.cpp:9681-9698 | the reads of the channels from begin to end that exist, both events on the families that have two |
| ImcChannels.MemoryChannels.GetImcReads | src/cpucounters.cpp:9664-9667 | the reads of all channels |
| ImcChannels.ReadsAddUp | src/cpucounters.cpp:9681-9698 | the sum over the channels is that of the first events, plus that of the second events on the families that have them |
| ImcChannels.MemoryChannels.GetImcReadsForController | src/cpucounters.cpp:9669-9679 | the reads of the channels that follow those of the earlier controllers |
| ImcChannels.ControllerChannels | src/cpucounters.cpp:9669-9698 | controller k reads as many channels as it has, from the sum of the earlier counts on, as far as there are channels |
| ImcChannels.MemoryChannels.SumOverControllers | src/cpucounters.cpp:9664-9698 | if the counts reach the number of channels, adding up all controllers gives getImcReads |
| ImcChannels.ControllersAddUp | src/cpucounters.cpp:9664-9698 | the controllers add up to the socket for all counter values if and only if the counts reach the number of channels |
| ImcChannels.MemoryChannels.FromRegisterLocations | src/cpucounters.cpp:8390-8440 | one count per controller with an answering channel, and one PMU per answering channel in order |
| ImcChannels.AnsweredInOrder | src/cpucounters.cpp:8390-8440 | exactly the channels that answered are kept, in their order |
| ImcChannels.MemoryChannels.FromMemBars | src/cpucounters.cpp:8551-8566 | a fixed number of channels per memory BAR |
| ImcChannels.MemoryChannels.FromDiscovery | src/cpucounters.cpp:8626-8633 | two channels per controller, rounded up |
| ImcChannels.MemoryChannels.FromScfBar | src/cpucounters.cpp:8639-8651 | one channel per controller |
| ImcChannels.MemoryChannels.InitDirect | src/cpucounters.cpp:8393-8676 | whatever path is taken, the channels are those found and the controllers add up to the socket |
| ImcChannels.MemoryChannels.InitPerf | src/cpucounters.cpp:9336-9349 | the controllers add up if and only if there are no channels or the controllers divide them evenly |
| ImcChannels.PerfAddsUp | src/cpucounters.cpp:9343-9348 | the same condition for every number of channels and controllers |
| TopDownSlots.DecodeEncode | src/cpucounters.cpp:5797-5806 | the eight fractions come out of PERF_METRICS as they were put in |
| TopDownSlots.ShareBounds | src/cpucounters.cpp:5810-5813 | a share is the truncated exact quotient part * slots / total |
| TopDownSlots.ShareIsQuotient | src/cpucounters.cpp:5810-5813 | a share is the integer quotient part * slots / total, or 0 for a zero total |
| TopDownSlots.ShareDeficit | src/cpucounters.cpp:5807-5813 | one read loses at most three slots, or all of them if its fractions are all 0 |
| TopDownSlots.Deficit | src/cpucounters.cpp:5797-5823 | over any run, the categories never exceed the raw slots and fall short by the slots of zero reads plus at most three per other read |
| TopDownSlots.DeficitTight | src/cpucounters.cpp:5797-5823 | both ends of that range are reached by runs of any length |
| TopDownSlots.LevelsNest | src/cpucounters.cpp:5814-5820 | nested level 2 fractions stay nested in the accumulators |
| TopDownSlots.TopDown.ReadAndAggregate | src/cpucounters.cpp:5786-5825 | each of the eight accumulators of the core gains its own byte of PERF_METRICS * slots / total, rounded down, modulo 2^64; level 2 gains nothing without its support; the raw one gains the slots; other cores are untouched |
| TopDownSlots.SlotsBetween | src/cpucounters.h:5292-5312 | between any two states, wherever the accumulators wrapped, getAllSlots is bounded by getAllSlotsRaw with exactly that slack, and the four asserted differences are non-negative |
| TopDownSlots.AggregatedTotals | src/cpucounters.h:3201-3239 | adding up the slots of any number of cores gives the totals over all their reads, wherever the accumulators wrapped |
| TopDownSlots.AggregatedFields | src/cpucounters.h:3201-3239 | adding up states adds up each of the nine accumulators by itself, modulo 2^64 |
| TopDownSlots.AggregatedSlotsBetween | src/cpucounters.h:5292-5312 | the same bound and differences between two socket or system states, over any reads of any number of cores |
| Instance.StepKeepsInv | src/cpucounters.cpp:146-159 | every step keeps the invariant that ties the pointer, the mutex and the threads together |
| Instance.OneInstance | src/cpucounters.cpp:146-159 | for any threads, calls and interleaving at most one object is constructed, and every call returns it |
| Instance.InstanceStable | src/cpucounters.cpp:146-159 | once published the pointer never changes |
| Instance.NoDeadlock | src/cpucounters.cpp:146-159 | a thread is blocked only by the holder of the mutex, which is at most four of its own steps from releasing it |
| AsynchronCounters.AsynchronCounterState.constructor | src/cpuasynchcounter.h:41-70 | both generations of cores and sockets are sampled once, the system pair stays default |
| AsynchronCounters.AsynchronCounterState.WriterStep | src/cpuasynchcounter.h:187-210 | each step of the writer keeps the generations: units already done hold the current and the last round, the others the last two |
| AsynchronCounters.AsynchronCounterState.ReaderStep | src/cpuasynchcounter.h:106-184 | each step of a getter keeps the same invariant, and what it returns is a pair of successive rounds |
| AsynchronCounters.AsynchronCounterState.Get | src/cpuasynchcounter.h:115-122 | a getter returns the last two published samples of its unit |
| AsynchronCounters.AsynchronCounterState.UpdateCounters | src/cpuasynchcounter.h:187-210 | an uncontended round publishes exactly the samples taken |
| AsynchronCounters.AsynchronCounterState.Run | src/cpuasynchcounter.h:106-210 | in any interleaving with any samples, published rounds never change, readers never mix rounds, and while the mutex is free all units hold the last two rounds |
| AsynchronCounters.DeltasTelescope | src/cpuasynchcounter.h:187-210 | differences of successive rounds add up to the difference of the last and the first, modulo 2^64 |
| AsynchronCounters.ReadersCoverEveryRound | src/cpuasynchcounter.h:115-122 | a reader that gets one pair per round covers the whole interval, nothing twice and nothing lost |
| ControlRegisters.MasksDisjoint | src/lspci.h:38-62 | in both layouts no two fields overlap and none reaches the reserved bits |
| ControlRegisters.GetAfterSet | src/lspci.h:77-155 | a getter returns what the setter wrote, cut to the field's width |
| ControlRegisters.OthersAfterSet | src/lspci.h:77-155 | a setter changes neither another field nor a reserved bit |
| ControlRegisters.SetRefines | src/lspci.h:77-155 | a setter refines the update of one field of a record |
| ControlRegisters.AbstractInjective | src/lspci.h:38-62 | the record of fields and reserved bits determines the register |
| ControlRegisters.SkxWordOfFields | src/lspci.h:38-155 | in the Skylake layout the register is its field values at their bit positions and the reserved bits |
| ControlRegisters.IcxWordOfFields | src/lspci.h:38-155 | the same for the Ice Lake layout |
| ControlRegisters.SetAllRefines | src/lspci.h:77-155 | any sequence of setters refines the same sequence of record updates |
| ControlRegisters.GettersReturnLast | src/lspci.h:77-155 | after any setters, each getter returns its last written value cut to its width, or the original one, and reserved bits are unchanged |
| ControlRegisters.Ccr.Set | src/lspci.h:77-155 | the setters of the class update the register the object refers to as the record says |
| ControlRegisters.Ccr.Get | src/lspci.h:77-155 | the getters return the record's field |
| ControlRegisters.FilterAfterSet | src/cpucounters.cpp:9103-9122 | a filter write sets its own field, keeps the others and clears bits 60 to 63 |
| ControlRegisters.FiltersPackLast | src/cpucounters.cpp:9103-9122 | any writes leave the last five values packed into the word if and only if bits 60 to 63 were clear before or anything was written |
| ControlRegisters.WordOfLastValues | src/cpucounters.cpp:9103-9122 | the packed word is the last values, each cut to its width and shifted to its bit position |
| ControlRegisters.IDXPerfVirtualFilterRegister.Assign | src/cpucounters.cpp:9087-9126 | a write through filter register 0 to 4 remembers the value, which is what reading it back returns, and sets the work queue, traffic class, page size, transfer size or engine field of the shared word; any other number leaves the word alone |
| ControlRegisters.WriteFilters | src/cpucounters.cpp:9075-9130 | any writes through the five registers of a fresh counter leave the last values packed into the word; each register, written or not, reads back its last value, which is the field the hardware uses if and only if that value fits |
| BitCount.AtMost32Digits | src/cpucounters.cpp:10596-10606 | a word has at most 32 binary digits, so the loop runs at most 32 times |
| BitCount.DigitsOfWord | src/cpucounters.cpp:10596-10606 | the binary digits that are counted recombine to the word |
| BitCount.ClearsOneBit | src/cpucounters.cpp:10596-10606 | n & (n-1) has exactly one set bit less than n |
| BitCount.Weight32 | src/cpucounters.cpp:10596-10606 | terminates with the number of set bits of every 32-bit word, at most 32 |

## Left out

- Device access: MSR, PCI configuration, MMIO, perf and sysfs are register values or hardware steps of the model; the raw register maps of readMSRs, PMT and TPMI are not modelled.
- Finite tables: CPUID and model names, event codes, C-state MSR addresses, the availability predicates.
- Counter collection: L3 occupancy, memory bandwidth with its invalid sentinels, thermal headroom and top-down slots are not among the fields. Nor are QPI and system energy values, which the main thread reads into fields of its own, and CXL values, which only getSystemCounterState reads (6617): in getAllCounterStates they stay 0.
- Counter collection: the core-counter tasks are modelled as the additions they execute; errors thrown inside a task are not modelled.
- CoreTaskQueue: modelled as states and steps on values rather than as a class, since its point is interleaving; tasks that push to their own queue, thread creation failures and weak memory are left out.
- UncorePmu.Hardware: counters are unbounded and only grow while counting. The hardware's freeze is modelled as taking effect with the write. On default families a box freezes only while freezing is enabled.
- UncorePmu.InitFreeze: the optional status check, a message under PCM_UNCORE_PMON_BOX_CHECK_STATUS, is left out.
- UncorePmu.Program: a box without unit control is only covered for extra = 0; otherwise the original dereferences the null register. On default families non-zero extra must have the freeze and reset bits clear and the freeze-enable bit set (GoodExtra), as in all callers; the same holds for Freeze, Unfreeze, InitFreeze and ResetUnfreeze.
- ServerUncorePmus.ServerUncorePMUs.ReadBracket: one thread against passing time; other threads' brackets on the same boxes are the subject of FreezeBrackets.
- FreezeBrackets: the accesses of all threads are one interleaved sequence; who runs which bracket when is left open.
- ServerUncorePmus: programming of the box kinds that repeat the pattern of InitAndProgram.
- TopologyDomains: the fallback for processors without leaf 1FH, the tile number taken from leaf 0BH, and a later domain of the same type replacing an earlier one beyond what Find says.
- SystemTopology: std::sort is taken to return a sorted permutation; the hybrid core types and the object tree of SystemRoot are left out. The assertions that some core is online are preconditions of ThreadsPerCore.
- Rdt: the resctrl path, the CPUID query for the number of RMIDs, and the memory bandwidth counters that initRDT creates.
- UncoreCounters.GetUncoreCounterState: a unit with fewer counters than asked for is excluded; the original reads past its vector.
- ImcChannels: the 32-bit wrap of the channel index sum, which would need billions of channels.
- TopDownSlots: rounding of the double arithmetic (shares are exact quotients, truncated), and the branch that reads the accumulators from perf. The assertions inside += that compare an accumulator with its old value are left out; they would stop a build with assertions when an accumulator wraps.
- Instance: the constructor's own work, destruction, and weak-memory effects on the pointer.
- AsynchronCounters: thread cancellation, the destructor, and failures of the mutex calls.
- ControlRegisters: the named accessors of ccr are one getter and one setter indexed by the field.
