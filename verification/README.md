# Verified model of the profilers' kernel drivers

This project models the stateful parts of two kernel drivers: the sampling driver (`vtunedk/sepdk`) and the SOCWatch
power driver (`socwatchdk`). It states what those parts promise over whole runs and proves it. `dafny verify dfyconfig.toml` checks everything.

Code that the drivers run as loops over arrays, lists and per-cpu records is modelled as classes and methods with
loops, each proved against a specification function on values; what the drivers promise is then proved about those
functions for every input and every run. Protocols between concurrent parties are state machines whose steps may
interleave in any order.

## Parts

| files | what they model |
|---|---|
| `Bits.dfy`, `Records.dfy` | powers of two, masks and shifts; messages as byte strings |
| `Ecb.dfy`, `Multiplexing.dfy`, `Programming.dfy`, `Overflow.dfy`, `StatusBits.dfy`, `Refinement.dfy`, `Cadence.dfy`, `Pmu.dfy` | time-sharing one bank of counters among event groups |
| `PauseProtocol.dfy`, `PauseSampling.dfy` | pausing and resuming while interrupt handlers run on every cpu |
| `Session.dfy`, `Direct2Core.dfy` | saving hardware registers at the start of a session and restoring them at its end |
| `TrackerSpec.dfy`, `MemoryTracker.dfy`, `Compaction.dfy`, `PrintedCompaction.dfy` | the tracker of large allocations |
| `SegmentSpec.dfy`, `SegmentRuns.dfy`, `SegmentLine.dfy`, `SegmentRing.dfy`, `SegmentPolls.dfy`, `SegmentOrder.dfy`, `SegmentFailures.dfy`, `SegmentFlip.dfy`, `SegmentStore.dfy`, `SegmentBuffers.dfy`, `PerCpuBuffers.dfy` | the per-cpu segment buffers of the power driver |
| `OutputSpec.dfy`, `OutputRuns.dfy`, `OutputFaults.dfy`, `OutputStore.dfy`, `OutputBuffers.dfy` | the output buffers of the sampling driver |
| `SystemInfo.dfy`, `Topology.dfy` | the system-information builder and the APIC id split |
| `Accumulators.dfy` | running counts of counters that wrap |

## Conventions and assumptions

- Model-specific registers are a finite map with plain read and write; a register nobody has written reads as 0.
  A status mask is the set of its bit positions. Counters are 48 bits wide.
- Event groups are well formed: registers of a group are distinct, general counters lie below `max_gp_events`
  (at most 8), the control and ESCR ranges name no counter, and there are at least two groups. Collection is not in
  event-based-count mode.
- While the errata routine has the counters enabled, hardware may write anything into the four counters it uses.
- The processor freezes the counters when it takes their interrupt, so nothing is counted during the handler's scan and
  swap. The timer's swap (`eventmux.c:128-143`) does not stop them; a timer's swap and an interrupt on the same cpu do not
  overlap.
- A cpu runs one thing at a time, so a freeze or restart call on a cpu never overlaps a handler on that cpu. A session
  that starts paused is taken from the moment its phase is set to paused. At the start every cpu accepts samples as the
  cpu mask says, and no handler has counted itself in.
- No producer touches a segment that is being consumed. In runs, as against single calls, copies to user memory succeed.
- A search over the segment buffers is one step. In runs it reads one flush flag; that the code rereads it at every segment
  is modelled for single searches (`SegmentFlip`, `PerCpuBuffers`).
- The reader of the segment buffers consumes exactly what its last search handed it. Nothing else is assumed of the
  order of searches, polls, productions, pauses and resumes.
- In the tracker the allocator returns addresses that are not NULL and not already in use.
- Uncore results lie within the all-ones counter mask of their device.
- The CPUID oracle answers the same in the counting and in the filling pass, and its leaf 4 and leaf 0xB sub-leaves end.

## Where the code and its documentation differ

- `control.c:459-466` and `control.c:485-492`: the scans of the compaction do not stop at the slot they find, so the
  indices that follow lie outside the node. `Compaction` proves the search that the header comment describes;
  `PrintedCompaction` proves that the printed routine leaves its arrays exactly when there is an entry to move.
- `control.c:275`: the comment says that a new entry goes to the first hole; the scan goes on after a hit and takes the
  last empty slot of the first node that has one. The model does the same.
- `control.c:396`: teardown gives every remaining allocation to `free_pages`, also those made with `vmalloc`. The lemma
  `TeardownMatchesAllocator` says exactly when that matches. It also leaves `mem_tr_tail` set; the model does too.
- `core2.c:1068`: the errata routine turns the counters on for a moment even while collection is paused, so "paused
  means not counting" holds outside that routine only.
- `pmi.c:453`: a wrap is compensated with the mask instead of the mask plus one, so the sum falls short by one for every
  wrap.
- `sys_info.c:158` counts leaf 0xB once too often, and the filling loop then reads one extended leaf beyond the last.
  It also asks leaves other than 4 and 0xB with whatever the previous answer left in `rcx`.
- `sys_info.c:549` masks with the cores per die less one, which is a bit mask only for a power of two.
- `apwr_driver.c:5445`: a poll moves the reader's cursors without reading. `apwr_driver.c:6447-6454`: a resume does not
  reset the buffers, so the cursors stay where the draining of the pause has left them, and a drop leaves the producer on a
  full segment. Each of the three alone can make a buffer be delivered out of order (`SegmentFailures`). Exactly when that
  happens: for the driver's two segments, when a read stops at a buffer that is crossed, that is, both segments hold
  messages, the cursor's next segment is the producer's, and that one may be taken (`SegmentPolls`); for any number of
  segments, when the cursor's next segment may be taken and the one before it holds messages and is not the producer's,
  as long as messages fit a segment (`SegmentRing`), and in general when a younger segment is nearer ahead of the cursor
  than the oldest (`SegmentLine`).
- `pw_output_buffer.c:507-523`: the flush flag is reread at every segment; when it is raised during a search, the search
  reports that all writes are done although messages may lie where it has already looked.
- `output.c:278`: the reader looks for data first and tests the flush flag afterwards; a flush in between makes it report
  end of file with data unread.
- `output.c:117-143`: a refused reservation marks the buffer that is still being written. The reader then takes it early,
  and its records are marked and delivered again. `OutputFaults` shows a run and says exactly when records are delivered
  once.
- `lwpmudrv.c:1181` lets a session be initialized more than once before it starts. `core2.c:813` then saves the programmed
  control registers over the original ones, and `core2.c:232-236` the bypass register with its bit already set; `Session`
  says exactly when that matters, and `Direct2Core` the same of the direct-to-core registers (`core2.c:115-116`).
- `eventmux.c:143`: the timer swaps groups without stopping the counters; what general counters count between being saved
  and being reloaded is lost (`Multiplexing`, `Refinement`).
- `core2.c:89-207`: with several socket masters, all save and restore the same registers.

## Model

| member | source | states |
|---|---|---|
| EventControl.ApplyTarget | vtunedk/sepdk/core2.c:743-749 | when a list of writes names a register with one value only, the register ends with that value |
| EventControl.Ecb.DataGpVisits | vtunedk/sepdk/inc/ecb_iterators.h:109-121 | the data walk over general counters meets exactly the marked entries of the data range |
| EventControl.Ecb.DataVisits | vtunedk/sepdk/inc/ecb_iterators.h:83-95 | the data walk meets exactly the entries of the data range whose register id is not 0 |
| Multiplexing.SlotInjective | vtunedk/sepdk/core2.c:276-278 | two counters of any two groups never share a place in the save area |
| Multiplexing.SaveAt | vtunedk/sepdk/core2.c:712-718 | after the save loop a group's slots hold its counters' registers and all other slots are untouched |
| Multiplexing.InitTableAt | vtunedk/sepdk/core2.c:273-283 | the initial loop leaves every general counter of every group at its reload value |
| Multiplexing.Restored | vtunedk/sepdk/core2.c:742-749 | the restore loop puts every listed counter back from its slot and leaves every register that is not listed alone |
| Multiplexing.ErrataClobbers | vtunedk/sepdk/core2.c:1034-1085 | the errata routine leaves the four counters it uses and the global control at 0, whatever was counted meanwhile |
| Multiplexing.SwapSaves | vtunedk/sepdk/core2.c:710-721 | after a swap every group's slot holds the value its counter had, read from the register if the group was current |
| Multiplexing.ProgramRestores | vtunedk/sepdk/core2.c:723-754 | programming a group restores its counters although the errata routine has overwritten the registers |
| Multiplexing.SwapForgetsLateCounts | vtunedk/sepdk/core2.c:710-750 | whatever counts between saving and reloading, a swap leaves every counter of every group at the value it was saved with, and the fixed counters at what they have counted |
| Multiplexing.SwapKeepsCounters | vtunedk/sepdk/core2.c:690-768 | while the counters stand still a swap changes no counter of any group and no fixed counter |
| Programming.SwapPrograms | vtunedk/sepdk/core2.c:727-754 | after a swap every event-select register and every ESCR that the arriving group lists holds the listed value |
| Programming.SwapKeepsOthers | vtunedk/sepdk/core2.c:723-754 | a register that the arriving group lists in none of the three passes is 0 if the errata routine writes it, and keeps its value otherwise |
| Programming.SwapSchedules | vtunedk/sepdk/core2.c:701-765 | a swap leads to the next group, or from the last to the first, with a full trigger count, no reset mask and the swap flag set |
| Programming.ErrataLeaves | vtunedk/sepdk/core2.c:1034-1085 | the errata routine leaves 0 in global control, the four event selects and counters it uses, and with precise sampling in its enable register, and changes no other register |
| Programming.ErrataArms | vtunedk/sepdk/core2.c:1040-1066 | when it turns the four counters on, they are at 0 and select its own three events |
| Programming.WritePrograms | vtunedk/sepdk/core2.c:291-322 | after the initial write every listed register of the current group holds its value, but for global control, the compound control and, with precise sampling, its enable register, which hold 0 |
| Programming.WriteKeepsOthers | vtunedk/sepdk/core2.c:267-322 | every other register is 0 if the errata routine writes it and as it was otherwise, and no group but the first touches the tables |
| Overflow.VisitDecides | vtunedk/sepdk/core2.c:609-661 | a visit to a data register decides overflow from its running status exactly as the status before the scan says |
| Overflow.ScanIsExact | vtunedk/sepdk/core2.c:594-667 | the scan reloads exactly the overflowed registers, records exactly their events in order up to the capacity, and counts exactly their triggers |
| Overflow.ScanReloads | vtunedk/sepdk/core2.c:609-661 | an overflowed register ends at its reload value |
| Overflow.ScanKeeps | vtunedk/sepdk/core2.c:609-661 | a register that did not overflow is unchanged by the scan |
| StatusBits.ScanReloadsByBits | vtunedk/sepdk/core2.c:609-628 | general counter k is reloaded if and only if status bit k is set, fixed counter k if and only if bit 32 + k is, fixed counter 1 also when the errata test holds, a compound counter if and only if bit 12 is, a compound sub-counter and any other entry never |
| StatusBits.ScanRecordsByBits | vtunedk/sepdk/core2.c:629-660 | the events recorded are those of the registers so found, in order, each with its own index, precise, LBR and uncore flags, up to eleven, and each trigger among all of them is counted |
| StatusBits.ScanKeepsOthers | vtunedk/sepdk/core2.c:609-661 | the scan changes no register that is not in the data range |
| StatusBits.CheckByBits | vtunedk/sepdk/core2.c:580-670 | the whole check reloads data registers by the same bits |
| StatusBits.CheckLeaves | vtunedk/sepdk/core2.c:658-668 | the check writes the bits to clear to the overflow control and the reset mask, lowers the trigger count by the triggers found and changes nothing else of the state |
| Refinement.CheckSimulates | vtunedk/sepdk/core2.c:594-667 | checking overflow on shared registers is checking it on the current group's private bank |
| Refinement.SwapSimulates | vtunedk/sepdk/core2.c:690-768 | a swap, also one during which counters count, is a change of the current group in the private machine, in which only the fixed counters see what is counted meanwhile |
| Refinement.WriteSimulates | vtunedk/sepdk/core2.c:259-324 | the initial write puts every group's private bank at its reload values |
| Refinement.MultiplexingRefinesPrivateCounters | vtunedk/sepdk/core2.c:701-750 | after any run of counting, control writes, interrupts and timer swaps that do not stop the counters, every counter of every group has the value it would have with a bank of its own, less what a timer's swap lets it count between saving and reloading |
| Cadence.TriggerCadence | vtunedk/sepdk/core2.c:658-705 | after any handler runs with T trigger overflows and S swaps, T = S * em_factor + (em_factor - trigger_count), the count stays within 1 and em_factor and the group is S modulo the groups |
| Cadence.CadenceExactly | vtunedk/sepdk/pmi.c:479-481 | the handler keeps the trigger count in range from every state if and only if each group has at most one trigger entry |
| Cadence.MissedSwap | vtunedk/sepdk/core2.c:658-660 | with two trigger entries one handler run can step over zero, so that the swap is missed |
| Cadence.StuckForever | vtunedk/sepdk/pmi.c:479-481 | once the count is below zero the handler never swaps again |
| Pmu.SlicesApart | vtunedk/sepdk/eventmux.c:315-322 | the slices of the save area of different cpus are disjoint and inside the allocation |
| Pmu.LoopStep | vtunedk/sepdk/core2.c:712-749 | one iteration of the save, initial and restore loops changes exactly the slot or register of its entry |
| Pmu.CpuState.constructor | vtunedk/sepdk/eventmux.c:62-76 | a cpu's tables start at its multiple of the slice size |
| Pmu.CpuState.SaveGroup | vtunedk/sepdk/core2.c:711-719 | the save loop writes the specified table into this cpu's slice and nothing outside it |
| Pmu.CpuState.HwErrataFix | vtunedk/sepdk/core2.c:1034-1085 | the errata routine's writes in order, around what hardware does meanwhile |
| Pmu.CpuState.RestoreGroup | vtunedk/sepdk/core2.c:742-749 | the restore loop makes the specified writes |
| Pmu.CpuState.SwapGroup | vtunedk/sepdk/core2.c:690-768 | the swap in place does what the specification says, within this cpu's slice, and leaves the arriving group's event selects and ESCRs in their registers |
| Pmu.CpuState.CheckOverflow | vtunedk/sepdk/core2.c:580-670 | the overflow check in place does what the specification says and returns the exact event list |
| Pmu.CpuState.HandleInterrupt | vtunedk/sepdk/pmi.c:356-481 | the handler's counter part: check, then swap exactly when the trigger count reaches 0 |
| Pmu.CpuState.WritePmu | vtunedk/sepdk/core2.c:259-324 | the initial write in place does what the specification says |
| PauseProtocol.HandlerQuiet | vtunedk/sepdk/pmi.c:345-484 | while collection is not running, a handler's step on a quiet cpu neither starts counting nor records |
| PauseProtocol.HandlerLive | vtunedk/sepdk/pmi.c:345-484 | while collection runs, a handler's step keeps a restarted cpu counting or sure to be restarted |
| PauseProtocol.StepKeeps | vtunedk/sepdk/lwpmudrv.c:928-1061 | every step of pausing, resuming and handling, in any interleaving, keeps the protocol's invariant |
| PauseProtocol.PauseQuiesces | vtunedk/sepdk/lwpmudrv.c:942-964 | for any number of cpus and any interleaving, from paused until a resume wins its exchange, a cpu's global control is 0 if and only if it is not in the window the errata routine opens, its interrupt vector is masked, and no step records a sample |
| PauseProtocol.ResumeRestarts | vtunedk/sepdk/lwpmudrv.c:1016-1043 | when the newest resume has returned and no pause has begun since, every cpu holds entry 0 of its current group, but for one whose handler is between its group switch and the end of its enable routine |
| PauseProtocol.HandlerRestarts | vtunedk/sepdk/pmi.c:479-482 | such a handler, by its own next steps while collection runs, at most six, comes to leave with entry 0 of the current group in the register |
| PauseSampling.MaskDecides | vtunedk/sepdk/lwpmudrv.c:1029-1039 | over every run from a start, a cpu that the newest resume has flagged accepts samples if and only if the mask allows it, until a pause begins, and a cpu outside the mask never does |
| PauseSampling.RunningRecordsByMask | vtunedk/sepdk/pmi.c:357-380 | in every state reached while collection runs, a handler at its phase test on a flagged cpu records by its own steps exactly what it is given if the mask allows the cpu, and nothing otherwise |
| PauseSampling.UnmaskedRecordsNothing | vtunedk/sepdk/pmi.c:357-380 | over every run from a start, a cpu outside the mask records nothing |
| PauseSampling.RunningHandler | vtunedk/sepdk/pmi.c:345-484 | a whole handler while collection runs records if its cpu accepts samples, changes the group if the trigger is used up, rewrites the control value if something is to be reset or the group is new, and leaves the cpu unmasked and counted out |
| PauseSampling.StoppedHandler | vtunedk/sepdk/pmi.c:345-484 | a whole handler while it does not run records nothing and leaves the cpu stopped and masked, its group switched if the trigger is used up |
| PauseSampling.PauseClears | vtunedk/sepdk/lwpmudrv.c:942-950 | from the start of a pause until a resume flags a cpu, no cpu that the pauser has passed accepts samples |
| PauseSampling.PauserWaits | vtunedk/sepdk/lwpmudrv.c:951-958 | the pauser freezes no cpu before it has seen every cpu, since it began to wait, without a handler that has counted itself in |
| PauseSampling.PauserProceeds | vtunedk/sepdk/lwpmudrv.c:951-958 | with no handler counted in, the pauser by its own steps comes to freeze, wherever in its checks it stands |
| PauseProtocol.ErrataCountsWhilePaused | vtunedk/sepdk/core2.c:1067-1073 | a run from a start that is not paused, in which every interrupt is raised by a counting, unmasked cpu before it is taken, and in which the errata routine turns the counters on while collection is paused |
| Session.SessionRestores | vtunedk/sepdk/core2.c:788-908 | a session initialized once, with any work and any requests, then stopped and terminated, leaves debug control, global control and the bypass register as it found them |
| Session.LastInitDecides | vtunedk/sepdk/core2.c:812-908 | termination brings back what the last initialization found, whatever happened in between |
| Session.PreparedControls | vtunedk/sepdk/core2.c:259-324 | after any requests that open a session or initialize the counters, global control is 0 if initializing writes it and debug control is the value the first group lists last, if any; otherwise they are as found |
| Session.PreparedBypass | vtunedk/sepdk/core2.c:232-236 | after any such requests the bypass register holds the value the first group lists last, if any, else has its bit set where the cpu sets it, else is as found |
| Session.SessionRestoresExactly | vtunedk/sepdk/lwpmudrv.c:1181-1199 | after any such requests before the last initialization, the three registers come back if and only if there was no earlier initialization, or the listed debug-control value is the original one or none is listed, the original global control is 0 or initializing does not write it, and the bypass register is listed with its own value or not listed and its bit was set or this cpu does not set it; the control registers and the bypass register each by their own part |
| Session.RequestsLead | vtunedk/sepdk/lwpmudrv.c:2190-2424 | a request out of its phase changes nothing, and one that is served leads to its own phase, a start to paused or running as asked |
| Session.HookedExactly | vtunedk/sepdk/lwpmudrv.c:582-690 | after any requests, interrupts reach the handler in every phase from idle to paused and in none before or after, and a stopped session still has its memory |
| Session.SetBypassBits | vtunedk/sepdk/core2.c:232-236 | disabling the bypass sets bit 0 of its register and leaves every other bit |
| Session.RunHolds | vtunedk/sepdk/lwpmudrv.c:2279-2373 | between saving and restoring, every request keeps the saved pair, and the bypass value saved or back |
| Session.SecondInitForgets | vtunedk/sepdk/core2.c:812-847 | for any configuration and registers, a whole session of reserve, initialize, two counter initializations, start, stop and terminate ends with what the first initialization left in the three registers, and with the original values if and only if that is what it found |
| Session.SecondInitLoses | vtunedk/sepdk/core2.c:812-814 | a well-formed configuration for which that session does not bring the control registers back |
| Session.SecondInitLosesBypass | vtunedk/sepdk/core2.c:1026-1028 | one for which the control registers come back and the bypass register does not |
| Direct2Core.AfterDisabling | vtunedk/sepdk/core2.c:93-207 | after all initializations, a master possibly more than once, a master's restore buffer holds the original values if its last initialization was the first of all, else the changed ones |
| Direct2Core.RestoredExactly | vtunedk/sepdk/core2.c:962-1025 | the registers of all buses come back if and only if the last master to clean up initialized first of all and never again, or the bits were already set |
| Direct2Core.SingleMasterRestores | vtunedk/sepdk/core2.c:966-1025 | with one socket master the registers of all buses come back if and only if it initialized once, or the bits were already set |
| Direct2Core.TwiceInitialized | vtunedk/sepdk/core2.c:115-116 | a master that initializes twice and cleans up leaves the bits set |
| Direct2Core.OthersUntouched | vtunedk/sepdk/core2.c:102-107 | registers of buses without the device are never changed |
| Direct2Core.HostsIs | vtunedk/sepdk/core2.c:98-107 | a bus is a home agent's if the lower half of its word is 0x8086 and the upper 0x3CA0, and a QPI link's if the upper is 0x3C80 or 0x3C90 |
| Direct2Core.DisabledBits | vtunedk/sepdk/core2.c:119-145 | where the device is present disabling sets bit 1 and leaves every other bit; elsewhere it leaves the register |
| Direct2Core.Family.SaveAndSet | vtunedk/sepdk/core2.c:147-207 | the saving loop then the setting loop over all devices and buses do what is specified |
| Direct2Core.Family.WriteBack | vtunedk/sepdk/core2.c:995-1024 | the restoring loop writes the saved values back where the device is present |
| Direct2Core.DisableDirect2core | vtunedk/sepdk/core2.c:92-207 | a master's initialization saves and sets the home agents' registers, then those of both QPI links, each by its own device ids |
| Direct2Core.RestoreDirect2core | vtunedk/sepdk/core2.c:966-1025 | a master's clean-up writes both families back |
| TrackerSpec.AddAdds | vtunedk/sepdk/control.c:289-326 | a successful add puts in exactly the one entry, and a failed one nothing |
| TrackerSpec.AddPlaces | vtunedk/sepdk/control.c:289-326 | the entry goes to the last empty slot of the first node that has one, or to the first slot of a new node if all are full, and no other slot changes |
| TrackerSpec.FreeFrees | vtunedk/sepdk/control.c:690-711 | a free takes out one entry for the address, or nothing if it is not tracked |
| TrackerSpec.UntrackKeepsBook | vtunedk/sepdk/control.c:676-723 | freeing gives a tracked vmalloc allocation to vfree, any other tracked one to free_pages with its size, any untracked address to kfree and NULL to nobody, and keeps the book |
| TrackerSpec.FreesAsMade | vtunedk/sepdk/control.c:694-720 | the same after any run of add and free |
| TrackerSpec.TrackerHoldsExactlyTheLive | vtunedk/sepdk/control.c:276-332 | over any run of add and free the slots in use are exactly the allocations tracked and not yet freed |
| TrackerSpec.TeardownReleasesOnce | vtunedk/sepdk/control.c:388-405 | teardown releases every remaining allocation exactly once and nothing else |
| TrackerSpec.TeardownMatchesAllocator | vtunedk/sepdk/control.c:396 | teardown releases every allocation the way it was made if and only if no vmalloc allocation is left |
| TrackerSpec.MoveKeepsContents | vtunedk/sepdk/control.c:513-520 | moving an entry from the back into a hole keeps the multiset of entries |
| TrackerSpec.MoveKeepsCursors | vtunedk/sepdk/control.c:513-529 | after a move all slots before the forward cursor are in use and all behind the backward one empty |
| TrackerSpec.MetIsCompact | vtunedk/sepdk/control.c:467-479 | when the cursors have met, occupied slots come before all empty ones |
| MemoryTracker.DeleteNode | vtunedk/sepdk/control.c:168-179 | deleting a node links its neighbours to each other |
| MemoryTracker.Tracker.CreateNode | vtunedk/sepdk/control.c:227-255 | a new empty node is linked behind the tail, or nothing changes when memory is refused |
| MemoryTracker.Tracker.Add | vtunedk/sepdk/control.c:276-332 | add in place does what is specified, at most one slot besides a fresh node, and keeps the list well linked |
| MemoryTracker.Tracker.FreeMemory | vtunedk/sepdk/control.c:676-723 | free in place empties the slot found for the address and gives it to vfree or free_pages as its entry says, or else gives the address to kfree and changes nothing |
| MemoryTracker.Tracker.Teardown | vtunedk/sepdk/control.c:376-412 | teardown in place releases the specified entries and leaves an empty list |
| Compaction.CompactTracker | vtunedk/sepdk/control.c:433-535 | the documented compaction terminates, keeps the entries, removes nodes from the end only, keeps the list well linked and leaves all nodes but the last full and the last packed |
| PrintedCompaction.ScanForward | vtunedk/sepdk/control.c:459-466 | the forward scan as printed always ends one past the node |
| PrintedCompaction.Compact | vtunedk/sepdk/control.c:443-530 | the routine as printed leaves its arrays if and only if a node with a hole stands before a node with an entry, and otherwise only trims empty nodes |
| PrintedCompaction.PrintedCompactionFails | vtunedk/sepdk/control.c:275-332 | for every node size, tracking one allocation more than fit a node and freeing the first leads to such a list |
| SegmentSpec.SearchIsComplete | socwatchdk/src/src/pw_output_buffer.c:163-176 | the search fails if and only if no segment has room |
| SegmentSpec.FindIsFirst | socwatchdk/src/src/pw_output_buffer.c:163-176 | it takes the first segment with room going round the ring from the producer's |
| SegmentSpec.ProduceFits | socwatchdk/src/src/pw_output_buffer.c:178-218 | a message is dropped if and only if no segment has room, is otherwise stored within its segment's size, and is counted once |
| SegmentSpec.ScanStops | socwatchdk/src/src/pw_output_buffer.c:489-514 | the reader's search cannot pass a buffer that holds data for it |
| SegmentSpec.ScanIsExact | socwatchdk/src/src/pw_output_buffer.c:477-528 | a search without flush fails if and only if no segment is full; one with flush reports all writes done if and only if every segment is empty and not full |
| SegmentFlip.FlipIsExact | socwatchdk/src/src/pw_output_buffer.c:507-526 | a search during which flush is raised reports all writes done if and only if nothing full was left where it looked before and nothing at all where it looked after |
| SegmentFlip.FlipForgetsExactly | socwatchdk/src/src/pw_output_buffer.c:518-526 | it does so with messages unread if and only if it looked at a segment holding some before the flag was raised |
| SegmentFlip.FlipSteady | socwatchdk/src/src/pw_output_buffer.c:507 | raised before the first look or after the last, the flag is as good as constant |
| SegmentFlip.FlipFindsFirst | socwatchdk/src/src/pw_output_buffer.c:489-514 | a search that finds data hands out the first segment, in the order of looking, that holds any for it, and its cursors stop there |
| SegmentFlip.NothingReturns | socwatchdk/src/src/pw_output_buffer.c:489-528 | a search that finds nothing brings every cursor back to where it was |
| SegmentRuns.NothingLostOrDuplicated | socwatchdk/src/src/pw_output_buffer.c:178-218 | after any run, attempts are produced plus dropped, and the produced messages are delivered once each or still held |
| SegmentRuns.FullSegmentIsHandedOut | socwatchdk/src/src/pw_output_buffer.c:489-514 | a full segment is handed out within segments-per-buffer times buffers searches, whatever producers do |
| SegmentRuns.ScanShortensWait | socwatchdk/src/src/pw_output_buffer.c:496-511 | every search that hands out something else brings the full segment strictly nearer |
| SegmentRuns.DrainDelivers | socwatchdk/src/src/pw_output_buffer.c:515-570 | with producers stopped, searching and consuming in flush mode ends, with all writes done and every stored message delivered |
| SegmentOrder.CollectingMoves | socwatchdk/src/src/pw_output_buffer.c:195-212 | without a drop the producer goes on to the next segment of the ring and the message joins the end of the line |
| SegmentOrder.AdvanceOrdered | socwatchdk/src/src/pw_output_buffer.c:500-511 | the reader's cursor stops at the oldest segment holding data |
| SegmentOrder.FirstCollectionInOrder | socwatchdk/src/src/pw_output_buffer.c:441-511 | in the first collection after a reset, where producers stop for good at the first draining search and nobody polls, for any number of segments, a cpu without a dropped sample has its bytes delivered in production order, all of them once all writes are done |
| SegmentLine.OfferLine | socwatchdk/src/src/pw_output_buffer.c:178-218 | with the segments that hold messages in line by age, an offered message goes to the end of the line, whichever segment stores it, and a dropped one changes nothing |
| SegmentLine.HandsOut | socwatchdk/src/src/pw_output_buffer.c:499-512 | a search hands out a segment that is not the front of the line if and only if a younger one is nearer ahead of the cursor than all else it may take |
| SegmentLine.DeliveredInOrderExactly | socwatchdk/src/src/apwr_driver.c:5398-5447 | for any number of segments and any run of productions, drops, reads, polls, pauses and resumes, a cpu is delivered in production order if, and with distinct messages only if, no read that stops at it finds the front of its line overtaken |
| SegmentFailures.PollBreaksOrder | socwatchdk/src/src/apwr_driver.c:5438-5450 | a run without a drop in which a poll before the stop makes a buffer drain out of order |
| SegmentFailures.ResumeBreaksOrder | socwatchdk/src/src/apwr_driver.c:6758-6765 | a run without a poll or a drop in which a pause drains a buffer, a resume goes on without a reset and the stop drains it out of order |
| SegmentRing.AstrideExactly | socwatchdk/src/src/pw_output_buffer.c:499-512 | when the segments in line lie side by side on the ring and end at the producer's, the front is overtaken if and only if the cursor's next segment may be taken and the one before it holds messages and is not the producer's |
| SegmentRing.OfferKeepsStretch | socwatchdk/src/src/pw_output_buffer.c:163-218 | a message that fits a segment, dropped or not, leaves the line side by side on the ring, ending at the producer's segment |
| SegmentRing.RingInOrderExactly | socwatchdk/src/src/apwr_driver.c:5398-5447 | for any number of segments and messages that fit one, drops, polls, pauses and resumes included, a cpu is delivered in production order if, and with distinct messages only if, no read that stops at it finds its buffer so |
| SegmentPolls.CrossedExactly | socwatchdk/src/src/pw_output_buffer.c:500-511 | with two segments the front of the line is overtaken if and only if both hold messages, the cursor's next segment is the producer's, and that one is full or the search drains |
| SegmentPolls.TwoInOrderExactly | socwatchdk/src/src/pw_output_buffer.c:489-514 | with two segments, drops and all, a cpu is delivered in production order if, and with distinct messages only if, no read that stops at it finds its buffer so crossed |
| SegmentPolls.UndroppedCrossing | socwatchdk/src/src/pw_output_buffer.c:195-212 | in every state reached, a buffer that has dropped nothing is crossed if and only if it is drained while the cursor stands on an unread full segment and the producer's segment holds messages |
| SegmentPolls.PolledInOrderExactly | socwatchdk/src/src/apwr_driver.c:6696-6775 | with two segments, over any number of pauses that drain and resumes, and any polls, a cpu without a dropped sample is delivered in production order if, and with distinct messages only if, no phase of draining that reads it began with its cursor so standing |
| SegmentFailures.DropBreaksOrder | socwatchdk/src/src/pw_output_buffer.c:195-206 | a run without a poll in which, after a drop, a buffer is delivered out of order |
| SegmentStore.DataBuffer.Append | socwatchdk/src/src/pw_output_buffer.c:312-319 | header and payload follow the bytes already written, which stay |
| SegmentStore.Clear | socwatchdk/src/src/pw_output_buffer.c:444-446 | a reset zeroes a segment's flags and bytes and leaves the others alone |
| SegmentBuffers.MaskedNext | socwatchdk/include/pw_defines.h:91 | for a power of two segments the masked increment is one step round the ring |
| SegmentBuffers.OutputBuffer.FindSegment | socwatchdk/src/src/pw_output_buffer.c:163-176 | the masked search loop finds what the specified search finds |
| SegmentBuffers.OutputBuffer.ProduceMsg | socwatchdk/src/src/pw_output_buffer.c:276-350 | producing in place does what is specified and wakes the reader exactly when the producer's segment was too small, the caller allows it and the reader waits |
| SegmentBuffers.OutputBuffer.ScanSegments | socwatchdk/src/src/pw_output_buffer.c:499-513 | one round over a buffer's segments in place, with the flush flag reread at each and raised after any number of looks, does what is specified |
| SegmentBuffers.OutputBuffer.Reset | socwatchdk/src/src/pw_output_buffer.c:434-450 | a reset leaves every segment empty, the producer at 0 and the reader before 0 |
| PerCpuBuffers.MaskRoundTrip | socwatchdk/src/src/pw_output_buffer.c:509-550 | below 65535 buffers a mask names its buffer and segment exactly and is neither sentinel |
| PerCpuBuffers.Output.ProduceOnCpu | socwatchdk/src/src/pw_output_buffer.c:276-350 | producing on a cpu changes that cpu's buffer as specified and no other, and wakes the reader as specified |
| PerCpuBuffers.Output.AnySegFull | socwatchdk/src/src/pw_output_buffer.c:477-528 | with the flush flag reread at every segment and at the end and raised after any number of looks: a search that finds nothing answers true with 0xffffffff if the flag is up by the end and false with 0xfffffffe otherwise; one that finds something answers true with a mask that names the first segment, in the order of looking, that holds data for it; with the flag up throughout there is nothing to find exactly if every segment is empty and not full, with it down exactly if none is full |
| PerCpuBuffers.Output.ConsumeData | socwatchdk/src/src/pw_output_buffer.c:534-571 | consuming returns the segment's bytes, less those the copy to user memory cannot place, and empties it either way; a wrong size or segment number is refused and changes nothing |
| OutputSpec.PutRefuses | vtunedk/sepdk/output.c:115-143 | a reservation is refused if and only if the record does not fit beside the current ones and every other buffer waits to be read |
| OutputSpec.StaysInsideExactly | vtunedk/sepdk/output.c:115-149 | a reservation stays inside its buffer if and only if the record fits an empty one or every other buffer waits to be read |
| OutputSpec.TargetIsLast | vtunedk/sepdk/output.c:123-138 | the producer enters the read buffer that lies farthest round the ring |
| OutputSpec.PutAddsOne | vtunedk/sepdk/output.c:115-149 | an accepted record joins the unread ones of one buffer and disturbs no other unread record |
| OutputSpec.PickIsExact | vtunedk/sepdk/output.c:269-276 | the reader finds nothing if and only if no buffer is ready, and then waits on the current one |
| OutputSpec.PickIsFirst | vtunedk/sepdk/output.c:269-276 | the reader takes the first buffer after the current one that is ready |
| OutputSpec.TakeRemoves | vtunedk/sepdk/output.c:303-309 | reading a marked buffer takes exactly its unread records |
| OutputRuns.ExactlyOnce | vtunedk/sepdk/output.c:115-309 | for any number of buffers, refused records and all, when every read takes the whole of a buffer the producer has left and no flush comes late, every accepted record is delivered once or still unread, and all are delivered at end of file |
| OutputRuns.ExactlyOnceUnrefused | vtunedk/sepdk/output.c:115-309 | without a refusal every read is whole, so all accepted records are delivered once by end of file unless the flush comes late |
| OutputRuns.InReservationOrder | vtunedk/sepdk/output.c:269-309 | with two buffers, in the same runs, records are delivered in reservation order, all of them at end of file |
| OutputRuns.ReadOutDelivers | vtunedk/sepdk/output.c:546-573 | after the flush the reader reaches end of file and has every record exactly once |
| OutputFaults.UnrefusedExactly | vtunedk/sepdk/output.c:269-309 | without a refusal, all accepted records are delivered by end of file if and only if the flush does not fall between a scan that found nothing and its test while anything is unread |
| OutputFaults.ExactlyOnceExactly | vtunedk/sepdk/output.c:115-309 | with refusals and distinct records, and no late flush, each is delivered exactly once by end of file if and only if every read takes the whole of a buffer the producer has left |
| OutputFaults.RefusalRepeats | vtunedk/sepdk/output.c:117-143 | a run in which a refused record makes the reader take a buffer early and deliver its record twice |
| OutputFaults.StaleTestForgets | vtunedk/sepdk/output.c:278-309 | a read that looked before the flush and tests after it forgets exactly what its buffer holds unread |
| OutputFaults.LateFlushLoses | vtunedk/sepdk/output.c:278-309 | a run in which that loses a record |
| OutputBuffers.BufferDesc.constructor | vtunedk/sepdk/output.c:429-469 | initialization leaves all buffers empty and the first current |
| OutputBuffers.BufferDesc.BufferFill | vtunedk/sepdk/output.c:105-197 | reserving and filling in place does what is specified, signals exactly when it closed a buffer and no other was waiting, and overruns a buffer exactly when a record larger than one is not refused |
| OutputBuffers.BufferDesc.ScanReady | vtunedk/sepdk/output.c:269-276 | the reader's loop chooses what is specified and reports that buffer's byte count |
| OutputBuffers.BufferDesc.CopyOut | vtunedk/sepdk/output.c:295-317 | copying returns the buffer's ready bytes, less those the copy to user memory cannot place, and marks it empty; too small a user buffer is refused and changes nothing, and an abnormal termination copies and changes nothing |
| OutputBuffers.BufferDesc.MarkCurrent | vtunedk/sepdk/output.c:563-564 | flushing publishes all records of the current buffer |
| SystemInfo.CountAgrees | vtunedk/sepdk/sys_info.c:143-185 | the counting pass counts exactly the entries of the listing, which ends one extended leaf late if and only if leaf 0xB exists |
| SystemInfo.ListingAt | vtunedk/sepdk/sys_info.c:418-530 | the listing place by place: the basic leaves in order, leaves 4 and 0xB with all their sub-leaves, then the extended leaves, a leaf of one entry asked with what the entry before it left in rcx |
| SystemInfo.GetNumCpuidFuncs | vtunedk/sepdk/sys_info.c:109-186 | the counting loops return the basic leaves, the extended leaves that the answer names or one if it makes no sense, and their sum with the sub-leaves of leaves 4 and 0xB |
| SystemInfo.FillSubLeaves | vtunedk/sepdk/sys_info.c:421-489 | the sub-leaf loops write the sub-leaves up to and including the one that ends them |
| SystemInfo.FillCpuid | vtunedk/sepdk/sys_info.c:418-530 | the filling loop, in a buffer of the counted size, never writes past it and ends with it holding the whole listing |
| SystemInfo.RegionsDisjoint | vtunedk/sepdk/sys_info.c:618-632 | the regions of distinct cpus are disjoint and inside the buffer, behind the per-cpu records |
| SystemInfo.RegionsSpan | vtunedk/sepdk/sys_info.c:247-253 | the regions begin right behind the per-cpu records and end at the computed size |
| SystemInfo.RegionsCover | vtunedk/sepdk/sys_info.c:627-632 | every byte behind the per-cpu records belongs to some cpu's region |
| SystemInfo.PlaceRegions | vtunedk/sepdk/sys_info.c:758-764 | the loop leaves the prefix sums of the entry counts and the size of the buffer |
| Topology.NBits | vtunedk/sepdk/sys_info.c:81-95 | the shift count less one is the position of the highest set bit, and -1 for 0 |
| Topology.SplitIs | vtunedk/sepdk/sys_info.c:539-550 | for any number of cores the thread is the low bit where there are two, the core the next bits under the mask, and the package what lies above them |
| Topology.SplitApicId | vtunedk/sepdk/sys_info.c:539-550 | the split in place is the specified one |
| Topology.SplitJoin | vtunedk/sepdk/sys_info.c:549-550 | for a power of two cores a die the triple gives the APIC id back, with core and thread in range |
| Topology.SplitInjective | vtunedk/sepdk/sys_info.c:539-550 | distinct ids get distinct triples if and only if the cores a die are a power of two |
| Topology.SplitCollides | vtunedk/sepdk/sys_info.c:549 | for any other number of cores a second id shares the triple of id 0 |
| Accumulators.Telescopes | vtunedk/sepdk/pmi.c:446-466 | after any samples the accumulator is last less first plus a mask for every wrap |
| Accumulators.NeverDecreases | vtunedk/sepdk/pmi.c:461 | the accumulated sum, before it is cut to 64 bits, never decreases |
| Accumulators.ShortByWraps | vtunedk/sepdk/pmi.c:451-459 | with less than a full range between samples it is the true count less the number of wraps, so exact if and only if none occurred |
| Accumulators.FormsAgree | vtunedk/sepdk/gmch.c:375-382 | from zero, the accumulator and the form value plus overflows times mask are the same |
| Accumulators.UncoreResults.Accumulate | vtunedk/sepdk/pmi.c:444-466 | the loop over events folds each result into its accumulator, modulo 2^64, and skips the group number |
| Accumulators.GmchCounters.TriggerRead | vtunedk/sepdk/gmch.c:335-383 | the loop over counters turns each masked reading into the running count of its history |

## Left out

- The pcl (`use_pcl`) mode, IA64 code, EMON paths, abnormal termination, event-based-count mode: other paths around the protocols modelled.
- The PEBS and general-counter errata hooks of the overflow check: their effect is an arbitrary overflow status handed to the scan.
- The hyper-threading-off check, `core2_Errata_Fix_2` and the second enable routine: variants of the routines modelled.
- `silvermont.c` and the uncore device files: the same loops with fewer features. `powerdk`: an older variant of the segment buffers.
- `lwpmudrv_Switch_Group` (`lwpmudrv.c:1082`), the request that pauses, moves every cpu to its next group, rewrites the registers and resumes.
- Timer-driven swaps and the stopping phase in `PauseProtocol`: the protocol is that of pause, resume and the handler.
- PauseProtocol.PauseQuiesces: is proved with interrupts taken at any time, raised or not, which allows more runs than the hardware has.
- The handler's acknowledgement of the interrupt controller, target-process filters and the layout of a sample.
- Session.SessionRestores: assumes that no event group lists the bypass register, which the driver does not check.
- Direct2Core.RestoredExactly: one set of shared registers stands for a family of devices, and each master's calls are taken as one step; register by register interleaving of two masters is not modelled.
- SegmentSpec.ScanIsExact: the flush flag is constant during the search; `SegmentFlip.FlipIsExact` is the statement without that.
- SegmentLine.DeliveredInOrderExactly: the only-if half takes the messages as distinct and the last segment handed out as consumed; equal messages can hide an exchange. Each search has one flush flag.
- OutputFaults.ExactlyOnceExactly: runs with a refusal and a late flush as well are left out; one can undo the harm of the other.
- SegmentStore.DataBuffer.Append: does not model that the copied header structure ends eight bytes past the header, under the payload.
- `pw_count_samples_produced_dropped`, buffer allocation failures, the wait queue and the reader map: plain sums and I/O.
- OutputRuns.ExactlyOnce: says nothing about runs with a record larger than a buffer, a failing copy to user memory, an abnormal termination, or a reader between the two marking passes of the flush.
- The count of flush writers and the loop over cpus in the flush: each cpu's marking is one step.
- OutputBuffers.BufferDesc.BufferFill: stops before a write that overruns its buffer; what that write destroys is not modelled.
- SystemInfo.GetNumCpuidFuncs: counts are unbounded, so 32-bit wrap of a bogus leaf count is not modelled.
- The node and header fields of the system-information buffer, cache sizes and the module number: stores without branches.
- Topology.SplitInjective: the 16-bit fields that the triple is stored in are not modelled.
- Accumulators.GmchCounters.TriggerRead: the 32-bit overflow number and 64-bit sum are unbounded, and the exchange of the two result buffers is left out.
- Accumulators.NeverDecreases: the 64-bit stored sum wraps, and then does decrease.
- Locks, the allocator and the small-allocation path of the tracker beyond which routine releases an address.
- Module and process records, character devices, ioctl decoding and debug printing.
