# Verified model of PMSI and its support code

This project models, in Dafny, the parts of the PMSI repository (a gem5 tree with
the Predictable MSI cache coherence protocol) whose behaviour is hardest to see
from the code, and proves what they promise.

* **PMSI protocol** (`Pmsi*.dfy`): one cache line, any number of private caches, the
  directory and the snooping bus, as a state machine whose transition tables are
  the SLICC tables. Over every run: single writer, agreeing readers, loads see the
  last store, what every access does told by the order of the bus alone, exactly when
  a controller meets an undefined pair of state and event,
  no deadlock, and termination of every run without new accesses. The
  time-division arbiter is a refinement of this machine that makes every
  write-back arrive in time, and under which every access, from the cycle in which
  the sequencer records it, completes within 4n² + 17n + 12 slots in a system of n
  caches.
* **libelf layout and image writer** (`Stailq.dfy`, `Elf*.dfy`): the tail queue as a
  heap structure, section extents, the pass that reorders the section list while
  it walks over it, the file image as a buffer filled piece by piece, a second
  layout of the same file, the whole of an update byte by byte, the string-table lookup
  that recomputes the layout, and the life of descriptors.
* **Internet checksum** (`InternetChecksum.dfy`), **fp64/fp80 conversion**
  (`FpBits.dfy`, `Fp80.dfy`, `FpValue.dfy`).
* **Python tools**: the reorder buffer of the pipeline viewer (`PipeView.dfy`), the
  port binder (`BindPorts.dfy`), the memory tester's tree (`MemTest.dfy`), the
  cluster topology (`ClusterTopology.dfy`) and year ranges (`YearRanges.dfy`,
  `YearText.dfy`).

Code that updates objects is modelled by classes and methods with loops; each is
proved against a function, and the promises are lemmas about that function. All
lemmas carry `{:induction false}`: every induction is written out.
`dafny verify dfyconfig.toml` checks everything.

## How the protocol is modelled

A grant on the bus is seen by all caches and put in the directory's queue in one
step, as in the ordered network. A processor access, a memory reply, write-back
data and a data delivery are steps of their own, in any order. A processor has at
most one access to the line in progress, as the sequencer enforces. Two facts about
the surrounding machinery are built in:

* The GETM that follows a lost upgrade (the side packet) is the next packet on the
  bus after its UPG.
* Write-back data reaches the directory before the next slot starts.

Requests put aside by stall-and-wait are taken up again as the message buffer does
it: they become due one cycle later, in their old order, but behind any request in
transit that is due by then. A wake-up step says how many requests overtake.

Three conditions on runs are explicit predicates, and `PmsiHazards` has an execution
for each that shows what happens without it.

* `Timely`: a PUTM is granted only when the directory already records its sender as
  the owner. `PmsiTdm` proves that the time-division arbiter guarantees this when a
  slot covers one memory fetch.
* `Polite`: a cache does not choose as a victim a line in IM_W, the state of an
  upgrade that another write has overtaken; `CrashExactly` shows that this is the
  only way to reach an undefined pair.
* `Orderly`: requests put aside are overtaken, when they are taken up again, only where
  all of them are reads and by reads only. The stricter `Prompt` allows no overtaking;
  `WakeKeepsOrder` shows that the queue keeps bus order exactly then. The bounds on
  waiting for data use `Prompt` (`AllInTurn`), everything else `Orderly`.

`PmsiFair` adds what the arbiter does in a slot: the owner's request or write-back
present at the slot's start is granted first, and data present for the owner at the
start is delivered in the slot. (The flag that is meant to hold data back in
write-back slots is set on the caches' links and tested on the memory's, so it never
does.) `PmsiBound` derives from this the bound on an access that has its request out.

An access that finds the line in MS_A is put aside by the cache, while the sequencer
already has it in its table and lets no other access to the line through. The cache's
own PUTM wakes it; it is then at the head of the processor's queue in the next cycle, so
it is tried again before the slot ends. `PmsiAccess` adds this and bounds every access
in the table.

## Where code and intention differ

These are proved as stated in the table.

* The replacement of a line in IM_W stops the simulation (`OvertakenUpgrade`).
* A write-back granted before the directory has processed the sender's upgrade has
  no directory transition (`UntimelyWriteBack`).
* A read in transit can overtake a write that was put aside before it; two caches then
  share the line with different values (`OvertakenWrite`). A write in transit can
  overtake a read that was put aside; the new owner owes no write-back, so the reader
  waits and no protocol step is left (`OvertakenRead`).
* A cache with the only copy of a line puts its own loads and stores aside once another
  cache's read has been granted, although its copy is valid (`WriterHits`).
* Program headers are written at the current position, not at their offset
  (`PhdrsAtOffset`); the two agree exactly when the table follows the ELF header.
* A file with 0xff00 or more sections is laid out with a section header table that
  the writer leaves out, so the final size assertion fails (`RegularImage`).
* Program headers that nobody has fetched cannot be written: a file opened for update
  has a size but the update fails (`UnfetchedPhdrs`).
* Sections that merely touch are refused unless they are in order (`TouchingRefused`);
  `PassesExactly` says exactly which lists are accepted.
* A section without file space can spoil the order of the section list
  (`NobitsMisplaces`); `InOrderExactly` says exactly when.
* A section that ends before the headers do can be visited twice by the pass that
  orders the list (`VisitedTwice`); `VisitsExactly` says exactly when none is.
* Laying out a file again, as a request for its size before writing it does, fails
  when a section's descriptors have different alignments (`OnlyOnce`); `ResyncTwice`
  says exactly when it does not.
* A string-table lookup disagrees with the layout when descriptors have different
  alignments (`MixedAlignments`); `LookupExactly` says exactly when it agrees.
* When the application does the layout, a section passes if and only if, among other
  things, every descriptor has exactly the section's alignment (`UserLayout`); so a
  well placed descriptor with a larger alignment is refused (`StricterDescriptor`).
* The checksum of fewer than two bytes reads 32 bytes past the buffer
  (`ShortBuffer`).
* A subnormal double becomes an extended double of half its value (`ValueKept`), and
  an extended double in the subnormal range becomes a double of twice its value
  (`SubnormalDoubled`), so that round trips are exact (`RoundTrip`); one exponent
  below the normal range the leading bit is lost (`LeadingBitLost`). So conversion to
  a double truncates, and keeps order, only under exact conditions (`TruncatesExactly`,
  `MonotoneExactly`).
* Below two to the power of -1086, and so for zero, the conversion to a double shifts
  by 64 places or more, which C leaves undefined (`ShiftDefinedExactly`); a machine
  that takes the count modulo 64 gets a wrong result unless the remainder is at least
  53 (`WildShift`).
* The pipeline viewer can print out of order, whatever its thresholds are
  (`PrintsOutOfOrder`); `OrderedExactly` says exactly when instructions leave its queue
  in order, and `OutputExactly` when those it shows do.
* Sorting the connections does not make one of each pair bindable
  (`SortingIsNotEnough`); `BindsExactly` says for which orders the binder succeeds.

## Model

| member | source | states |
|---|---|---|
| PmsiSafety.CrashExactly | gem5-stable/src/mem/protocol/MSI_Snooping_One_Level_RT-cache.sm:1514-2050 | In every state that satisfies the invariant, a step reaches an undefined pair of state and event if and only if it is the replacement of a line in IM_W. |
| PmsiSafety.WriteBackExactly | gem5-stable/src/mem/protocol/MSI_Snooping_One_Level_RT-dir.sm:806-840 | Every cache accepts every PUTM, and the directory accepts the write-back data if and only if it recorded the sender as owner before the PUTM was granted. |
| PmsiSafety.WriteBackAwaited | gem5-stable/src/mem/protocol/MSI_Snooping_One_Level_RT-dir.sm:806-840 | In every state of every run with write-back data in flight the directory waits for it and puts reads and writes aside. |
| PmsiSafety.WakeKeepsOrder | gem5-stable/src/mem/ruby/network/MessageBuffer.cc:367-423 | A wake-up keeps the requests in bus order if and only if it is prompt: nothing was put aside, or nothing in transit is due before it. |
| PmsiWake.Overtakes | gem5-stable/src/mem/ruby/network/MessageBuffer.cc:367-423 | A wake-up in which reads overtake only reads gives the state of one without overtaking, but for the order of the reads at the head of the queue. |
| PmsiWake.ShuffledInv | gem5-stable/src/mem/protocol/MSI_Snooping_One_Level_RT-dir.sm:755-850 | The protocol invariant does not depend on the order of reads at the head of the directory's queue. |
| PmsiTable.AccessTracked | gem5-stable/src/mem/protocol/MSI_Snooping_One_Level_RT-cache.sm:1514-2050 | A load or store is put aside exactly in MS_A and three states that no run enters; otherwise it completes at once or is in progress in the next state, and the access ends exactly with its hit; which of these it is, `PmsiRights` says. |
| PmsiSafety.StepInv | gem5-stable/src/mem/protocol/MSI_Snooping_One_Level_RT-cache.sm:1514-2050 | Every timely, polite and orderly step is defined and keeps the protocol invariant. |
| PmsiSafety.RunInv | gem5-stable/src/mem/protocol/MSI_Snooping_One_Level_RT-cache.sm:1514-2050 | The invariant holds in every state of every run, for any number of caches. |
| PmsiSafety.SingleWriter | gem5-stable/src/mem/protocol/MSI_Snooping_One_Level_RT-cache.sm:1699-1750 | In every state of every run, when one cache can complete a store at once, no other cache can complete a load or store at once. |
| PmsiSafety.ReadersAgree | gem5-stable/src/mem/protocol/MSI_Snooping_One_Level_RT-cache.sm:2004-2026 | In every state of every run, all copies that a load may hit hold the same value. |
| PmsiRights.FollowsBus | gem5-stable/src/mem/protocol/MSI_Snooping_One_Level_RT-cache.sm:1514-2050 | In every state of every run each cache has the right to the line that the order of grants and replacements gives it, as in a protocol without transient states: the transient states refine that one. |
| PmsiRights.LoadsExactly | gem5-stable/src/mem/protocol/MSI_Snooping_One_Level_RT-cache.sm:1894-2026 | In every state of every run, a load by a cache with a right to read completes in its own step, returns the last stored value and changes nothing; without a copy it puts a GETS in the queue; while the copy is being written back for readers it is put aside. |
| PmsiRights.StoresExactly | gem5-stable/src/mem/protocol/MSI_Snooping_One_Level_RT-cache.sm:1703-2035 | In every state of every run, a store by a cache with the only copy completes in its own step and changes only the value; with a copy to read it asks for an upgrade, without one for the line. |
| PmsiRights.ReplacesExactly | gem5-stable/src/mem/protocol/MSI_Snooping_One_Level_RT-cache.sm:1880-1900 | A replacement drops a copy to read without traffic, asks for the write-back of the only copy, and has to wait otherwise; the right left is as the bus order says. |
| PmsiRights.ReaderHits | gem5-stable/src/mem/protocol/MSI_Snooping_One_Level_RT-cache.sm:2004-2026 | After its read was granted and is over, a cache's loads complete in their own step until it gives the copy up itself or another cache's GETM or UPG is granted. |
| PmsiRights.WriterHits | gem5-stable/src/mem/protocol/MSI_Snooping_One_Level_RT-cache.sm:1871-1896 | After its write was granted and is over, a cache's loads and stores complete in their own step until it gives the copy up, except exactly when another cache's read, and no write, has been granted since: then they are put aside. |
| PmsiRights.DroppedMisses | gem5-stable/src/mem/protocol/MSI_Snooping_One_Level_RT-cache.sm:1898-1900 | After the replacement of a copy to read, or another cache's write, a load asks for the line again. |
| PmsiRights.DoesAsAsked | gem5-stable/src/mem/protocol/MSI_Snooping_One_Level_RT-cache.sm:1556-1720 | In every run the step that completes a cache's access returns a value if the last access given to it was a load, and writes one if it was a store. |
| PmsiSafety.NeverStuck | gem5-stable/src/mem/protocol/MSI_Snooping_One_Level_RT-dir.sm:755-850 | Every run can be continued with every enabled, timely, polite and orderly step. |
| PmsiSafety.LatestIsLastWritten | gem5-stable/src/mem/protocol/MSI_Snooping_One_Level_RT-cache.sm:1713-1719 | The ghost value used by the invariant is the value of the last completed store. |
| PmsiSafety.LoadsSeeLastStore | gem5-stable/src/mem/protocol/MSI_Snooping_One_Level_RT-cache.sm:1556-1580 | In every run, a load that completes with a valid copy returns the value of the last store by any processor. |
| PmsiSafety.DeadStates | gem5-stable/src/mem/protocol/MSI_Snooping_One_Level_RT-cache.sm:69-117 | Twelve declared transient states are entered in no run. |
| PmsiLinear.MissesAreLinear | gem5-stable/src/mem/protocol/MSI_Snooping_One_Level_RT-cache.sm:1583-1604 | Every load that misses, the one invalidated while it waits included, returns the last stored value of some instant between its grant and its completion. |
| PmsiLinear.RunWindow | gem5-stable/src/mem/protocol/MSI_Snooping_One_Level_RT-dir.sm:755-786 | The memory value sent to a waiting reader is one the line has had since the reader's grant. |
| PmsiGrant.GrantLegal | gem5-stable/src/mem/protocol/MSI_Snooping_One_Level_RT-cache.sm:1544-1760 | A granted request is one of five legal kinds, and every other cache moves by the snoop function. |
| PmsiGrant.GrantNever | gem5-stable/src/mem/protocol/MSI_Snooping_One_Level_RT-cache.sm:1936-2000 | Under the invariant no cache meets a granted request without a transition for it. |
| PmsiGrant.GrantInv | gem5-stable/src/mem/protocol/MSI_Snooping_One_Level_RT-cache.sm:1544-1760 | Granting a request on the bus keeps the invariant. |
| PmsiDirectory.DirRequestCases | gem5-stable/src/mem/protocol/MSI_Snooping_One_Level_RT-dir.sm:755-850 | The directory can do four things with a request: put it aside, serve it from idle, serve its owner's own request, or drop an upgrade. |
| PmsiDirectory.DirRequestExactly | gem5-stable/src/mem/protocol/MSI_Snooping_One_Level_RT-dir.sm:755-850 | Which of the four it does, told by the owner and by whether a fetch or a write-back is under way. |
| PmsiDirectory.DirRequestInv | gem5-stable/src/mem/protocol/MSI_Snooping_One_Level_RT-dir.sm:755-850 | Under the invariant the directory always has a transition for the next request, and it keeps the invariant. |
| PmsiSteps.SoleWriter | gem5-stable/src/mem/protocol/MSI_Snooping_One_Level_RT-cache.sm:1876-1950 | Under the invariant a cache that may write excludes every other reader and writer, even before the directory knows it as the owner. |
| PmsiTdm.SlotIsTimely | gem5-stable/src/mem/ruby/network/simple/Throttle.cc:139-399 | On the time-division bus a cache that writes back in its slot is recorded as owner by the directory. |
| PmsiTdm.FewAhead | gem5-stable/src/mem/ruby/network/simple/Throttle.hh:102-131 | When an upgrade is granted, fewer requests than there are other caches wait before it. |
| PmsiTdm.TRunInv | gem5-stable/src/mem/ruby/network/simple/Throttle.cc:139-399 | In every run on the time-division bus an unprocessed upgrade is reached before its cache's next slot. |
| PmsiTdm.TdmWriteBacksAccepted | gem5-stable/src/mem/ruby/network/simple/Throttle.cc:139-399 | In every run on the time-division bus the directory accepts every granted write-back. |
| PmsiTdm.TdmRefines | gem5-stable/src/mem/ruby/network/simple/Throttle.cc:139-399 | Every run on the time-division bus, without its slot ends, is a run of the protocol. |
| PmsiFair.SlotsGoRound | gem5-stable/src/mem/ruby/network/simple/Throttle.hh:102-131 | In every run it is the turn of the cache whose number is the count of slot ends modulo the number of caches. |
| PmsiFair.OncePerSlot | gem5-stable/src/mem/ruby/network/simple/Throttle.cc:139-399 | In every run the bus is given at most once in a slot, side packets apart. |
| PmsiFair.FairNeverStuck | gem5-stable/src/mem/ruby/network/simple/Throttle.cc:139-399 | The arbiter that serves the slot's owner first never blocks: in every state some step it allows is possible without a processor. |
| PmsiFair.FairRefines | gem5-stable/src/mem/ruby/network/simple/Throttle.cc:139-399 | Every run under that arbiter is a run on the time-division bus. |
| PmsiBound.GrantedWithin | gem5-stable/src/mem/ruby/network/simple/Throttle.hh:102-131 | In a system of n caches a pending request or write-back is granted before more than n slots have ended. |
| PmsiBound.LeftShrinks | gem5-stable/src/mem/ruby/network/simple/Throttle.cc:139-399 | For a cache that waits for data, a measure of the work ahead of it never grows, whatever other caches request, and every slot end makes it smaller. |
| PmsiBound.AnsweredWithin | gem5-stable/src/mem/ruby/network/simple/Throttle.cc:139-399 | A cache that waits for data receives it before 4n² + 15n + 12 slots have ended, in every run without overtaking. |
| PmsiBound.AccessWithin | gem5-stable/src/mem/ruby/network/simple/Throttle.cc:139-399 | Every load or store whose request is out completes within 4n² + 16n + 12 slots, from every state of every run without overtaking. |
| PmsiAccess.TableTracked | gem5-stable/src/mem/ruby/system/Sequencer.cc:244-291 | In every run the sequencer holds an access from the step that brings it to the step in which it completes, whether the cache puts it aside on the way or not. |
| PmsiAccess.AccessNeverStuck | gem5-stable/src/mem/protocol/MSI_Snooping_One_Level_RT-cache.sm:1890-1923 | With accesses put aside the arbiter still never blocks: some step it allows is possible, needing from the processors at most an access that has been woken. |
| PmsiAccess.TakenUp | gem5-stable/src/mem/protocol/MSI_Snooping_One_Level_RT-cache.sm:1890-1923 | An access that was put aside is tried with success within n slots: the cache's own PUTM is granted by then and wakes it. |
| PmsiAccess.CompletesWithin | gem5-stable/src/mem/ruby/network/simple/Throttle.cc:139-399 | Every access in the sequencer's table, put aside or requested, stays there until it completes, within 4n² + 17n + 12 slots, from every state of every run without overtaking. |
| PmsiProgress.RunTracked | gem5-stable/src/mem/protocol/MSI_Snooping_One_Level_RT-dir.sm:755-850 | In every run a cache that waits for data has its request queued, being fetched, answered or about to be sent. |
| PmsiProgress.NoDeadlock | gem5-stable/src/mem/protocol/MSI_Snooping_One_Level_RT-cache.sm:1977-2000 | After every run, as long as some line is between stable states, some protocol step is enabled and defined. |
| PmsiLiveness.StepRank | gem5-stable/src/mem/protocol/MSI_Snooping_One_Level_RT-dir.sm:755-850 | Every step that is not a processor access makes a well-founded rank smaller. |
| PmsiLiveness.ComesToRest | gem5-stable/src/mem/protocol/MSI_Snooping_One_Level_RT-cache.sm:1514-2050 | Every run can be extended by protocol steps alone to one in which all lines are stable. |
| PmsiRest.RestWithin | gem5-stable/src/mem/protocol/MSI_Snooping_One_Level_RT-dir.sm:755-850 | However a run is continued without new accesses, it takes at most as many steps as a function of the state says. |
| PmsiRest.EndsAtRest | gem5-stable/src/mem/protocol/MSI_Snooping_One_Level_RT-cache.sm:1977-2000 | When no protocol step is left, every line is stable; so every such continuation comes to rest. |
| PmsiHazards.UntimelyWriteBack | gem5-stable/src/mem/protocol/MSI_Snooping_One_Level_RT-dir.sm:819-840 | A run after which a write-back arrives in a directory state without a transition for it. |
| PmsiHazards.OvertakenUpgrade | gem5-stable/src/mem/protocol/MSI_Snooping_One_Level_RT-cache.sm:1721-1745 | A run after which the replacement of the line whose upgrade was overtaken is undefined. |
| PmsiHazards.OvertakenWrite | gem5-stable/src/mem/ruby/network/MessageBuffer.cc:367-423 | An execution, timely and polite throughout, in which a read overtakes a write that was put aside and two caches end up sharing the line with different values. |
| PmsiHazards.OvertakenRead | gem5-stable/src/mem/ruby/network/MessageBuffer.cc:367-423 | An execution, timely and polite throughout, in which a write overtakes a read that was put aside; the reader then waits and no protocol step is enabled. |
| Stailq.Queue.constructor | gem5-stable/ext/libelf/elf_queue.h:209-217 | A new queue is the empty sequence and is well formed. |
| Stailq.Queue.Init | gem5-stable/ext/libelf/elf_queue.h:249-252 | The queue becomes the empty sequence with its tail pointer at the head slot. |
| Stailq.Queue.InsertHead | gem5-stable/ext/libelf/elf_queue.h:260-264 | The sequence gets the element in front; next pointers, tail slot and absence of cycles are kept. |
| Stailq.Queue.InsertAfter | gem5-stable/ext/libelf/elf_queue.h:254-258 | The sequence gets the element right after the given one. |
| Stailq.Queue.InsertTail | gem5-stable/ext/libelf/elf_queue.h:266-270 | The sequence gets the element at the end. |
| Stailq.Queue.RemoveHead | gem5-stable/ext/libelf/elf_queue.h:295-299 | The sequence loses its first element. |
| Stailq.Queue.Remove | gem5-stable/ext/libelf/elf_queue.h:280-293 | The sequence loses exactly the given element, wherever it is. |
| Stailq.Queue.Concat | gem5-stable/ext/libelf/elf_queue.h:226-232 | The sequence becomes the concatenation and the other queue becomes empty. |
| Stailq.Queue.Values | gem5-stable/ext/libelf/elf_queue.h:238-242 | The foreach loop ends and visits the elements once each, in order. |
| ElfTypes.Roundup | gem5-stable/ext/libelf/elf_update.c:162-173 | The rounding macro gives the least multiple that is not smaller. |
| ElfLayout.PowerTest | gem5-stable/ext/libelf/elf_update.c:154-157 | The bit test accepts exactly the powers of two. |
| ElfLayout.ComputeAlignment | gem5-stable/ext/libelf/elf_update.c:140-160 | The loop finds the largest descriptor alignment, or the error of the first descriptor that fails a check. |
| ElfLayout.ComputePlacement | gem5-stable/ext/libelf/elf_update.c:162-173 | The loop puts each descriptor at the next multiple of the section alignment. |
| ElfLayout.ComputeExtents | gem5-stable/ext/libelf/elf_update.c:74-226 | The extent of a section in both layout modes, with 32-bit truncation of stored fields and all error cases. |
| ElfLayout.LibraryLayout | gem5-stable/ext/libelf/elf_update.c:185-226 | In library layout a dirty section starts at or after the end so far, is aligned, ends at the new end, its header has the offset and size, and its descriptors are in order and disjoint inside it. |
| ElfLayout.LibraryAccepts | gem5-stable/ext/libelf/elf_update.c:140-160 | Library layout accepts a section if and only if its type can be translated and every descriptor has that type, the version, and an alignment that is a power of two and a multiple of the section's. |
| ElfLayout.FirstRefused | gem5-stable/ext/libelf/elf_update.c:140-160 | Otherwise the error is that of the first descriptor that is not accepted, by what is wrong with it. |
| ElfLayout.LibraryPlaces | gem5-stable/ext/libelf/elf_update.c:162-226 | The section goes to the least multiple of the largest alignment behind the end so far, each descriptor to the least multiple of the largest descriptor alignment behind the one before; the header gets offset, size and alignment; nothing else changes. |
| ElfLayout.LibraryAligned | gem5-stable/ext/libelf/elf_update.c:140-173 | In library layout every descriptor starts at a file offset that is a multiple of every descriptor's alignment. |
| ElfLayout.UserLayout | gem5-stable/ext/libelf/elf_update.c:164-184 | In application layout a section passes if and only if its type can be translated, its offset is aligned, its descriptors end inside it, and each has the type, the version and exactly the section's alignment, a power of two; it then keeps its place. |
| ElfLayout.StricterDescriptor | gem5-stable/ext/libelf/elf_update.c:164-184 | In application layout a section is refused whose descriptor is well placed but has a larger alignment than the section. |
| ElfResync.ExtentsPass | gem5-stable/ext/libelf/elf_update.c:266-285 | The first pass gives every section its extent in list order, or fails with the error of the first section that has none. |
| ElfResync.InsertSection | gem5-stable/ext/libelf/elf_update.c:233-264 | A section goes in front of the first one that starts later, unless it touches or overlaps it. |
| ElfResync.OrderPass | gem5-stable/ext/libelf/elf_update.c:286-318 | Relinking the list under the walk ends, does what the walk function says and gives a permutation; the position reached is the largest section end; the order, the number of visits and success are as the three exact conditions say. |
| ElfResync.ResyncSections | gem5-stable/ext/libelf/elf_update.c:266-318 | Success leaves a permutation with computed extents; both passes end at the largest section end; exactly when the list is ascending and when each section was visited once; a list in order is left alone; a layout error occurs only when sections touch, overlap or straddle the headers, or one without file space is in the way, and, where sections without file space are not in the way and the others start behind the headers, exactly when some section does not fit among those before it. |
| ElfOrder.WalkInv | gem5-stable/ext/libelf/elf_update.c:286-318 | The walk from any state keeps the pass's invariant, and fails only if sections touch, overlap or straddle the headers, or one without file space is in the way. |
| ElfPasses.PassesExactly | gem5-stable/ext/libelf/elf_update.c:233-318 | When sections without file space are not in the way and the others start behind the headers, the pass succeeds if and only if every section starts where all earlier ones in the list have ended, or touches none of them. |
| ElfPasses.TouchingRefused | gem5-stable/ext/libelf/elf_update.c:233-264 | Two sections that touch: the pass accepts them in one order and refuses them in the other. |
| ElfOrder.VisitsExactly | gem5-stable/ext/libelf/elf_update.c:286-318 | A successful pass visits every section exactly once if and only if it moves none ahead of the walk, as the list and the end of the headers tell. |
| ElfOrder.VisitedTwice | gem5-stable/ext/libelf/elf_update.c:286-318 | Two sections before the end of the headers for which the pass makes three visits. |
| ElfNobits.InOrderExactly | gem5-stable/ext/libelf/elf_update.c:233-318 | For sections that are apart and behind the headers, the list comes out ascending if and only if no three sections, in list order, are one without file space, one kept in place and one moved back, where the third belongs after the second and starts before or at the end of the first. |
| ElfNobits.NobitsMisplaces | gem5-stable/ext/libelf/elf_update.c:233-318 | A list on which the pass succeeds and a NOBITS section makes it put a section in the wrong place. |
| ElfImage.PutAllComplete | gem5-stable/ext/libelf/elf_update.c:501-600 | Pieces in order put into an empty buffer land whole at their places, the gaps are filler, and nothing before the final position stays unwritten. |
| ElfImage.WriteOnce | gem5-stable/ext/libelf/elf_update.c:501-600 | Each step of the writer writes only bytes not yet written, and no later step touches them. |
| ElfImage.ListPiecesWithin | gem5-stable/ext/libelf/elf_update.c:723-730 | The pieces of sections in order lie in order between the headers and the largest section end. |
| ElfImage.WriteScn | gem5-stable/ext/libelf/elf_update.c:501-600 | Writing a section puts its descriptors or its raw contents, or fails with the first error: no file to copy from, a descriptor without a buffer or of a size that is not a multiple of its type's, or an empty or misaligned buffer. |
| ElfImage.WriteScns | gem5-stable/ext/libelf/elf_update.c:723-730 | The loop over the list writes the pieces of all sections, or fails with the error of the first that cannot be written. |
| ElfImage.WriteShdrs | gem5-stable/ext/libelf/elf_update.c:731-768 | The loop writes one section header after the other from the table's offset. |
| ElfUpdate.ResyncElf | gem5-stable/ext/libelf/elf_update.c:320-495 | The offsets of both tables, the order and extents of the sections, the stored header fields with extended section numbering, and the returned file size. |
| ElfUpdate.HeaderExactly | gem5-stable/ext/libelf/elf_update.c:363-392 | A header is refused for its version, else its class, else, unless the object is new, its byte order; exactly when. |
| ElfUpdate.TableExactly | gem5-stable/ext/libelf/elf_update.c:393-460 | The application's table offset is taken if and only if it is behind what precedes it and aligned; the library's is the least such. |
| ElfUpdate.UserSized | gem5-stable/ext/libelf/elf_update.c:393-495 | When the application places everything the header keeps its offsets, both tables are aligned behind what precedes them, and the file ends with the section headers. |
| ElfUpdate.CountReadBack | gem5-stable/ext/libelf/elf_update.c:462-490 | However many sections there are, their number can be read back from the header or from section 0, which is then marked for writing. |
| ElfUpdate.FreshInOrder | gem5-stable/ext/libelf/elf_update.c:266-318 | In library layout with all sections dirty the list is in order as it stands, the end is the largest section end, and the writer's assertions about section types, offsets, descriptor types and versions hold. |
| ElfWrite.WriteElf | gem5-stable/ext/libelf/elf_update.c:619-775 | The image is that of the header, the program headers, the sections and the section headers; it succeeds exactly when the byte order can be translated, program headers that are to be written are in memory at an aligned offset, no section or descriptor is refused, the section headers start behind the contents at an aligned offset and the final position is the size; and which error comes first otherwise. |
| ElfWrite.PhdrsAtOffset | gem5-stable/ext/libelf/elf_update.c:685-722 | The program headers always land after the ELF header; they are at their offset if and only if that is the end of the ELF header. |
| ElfWrite.RegularImage | gem5-stable/ext/libelf/elf_update.c:619-775 | For sections in order behind the headers, every byte of the image is the byte of the one piece that covers it or filler, and the final position is the file size if and only if the section count is below 0xff00. |
| ElfContents.ImageContents | gem5-stable/ext/libelf/elf_update.c:619-775 | In the image of a file every byte of the headers, of the whole objects of every descriptor, of raw contents and of the section headers is at its place, and every other byte is filler. |
| ElfFile.Update | gem5-stable/ext/libelf/elf_update.c:834-886 | Update in library layout, for the size only or writing the file, succeeds if and only if the header is acceptable, every section can be laid out and, if it writes, the object is open for writing with a file, its byte order and program headers can be translated, every section can be written, and the section count is below 0xff00; the error otherwise; the header then has the tables' offsets and sizes, the image holds exactly the contents of all sections and headers, and each section's header says where its bytes are. |
| ElfFile.SucceedsExactly | gem5-stable/ext/libelf/elf_update.c:834-886 | The first error of an update is none if and only if all of that is so. |
| ElfFile.FirstUnwritable | gem5-stable/ext/libelf/elf_update.c:575-600 | The writer's error for a section is that of its first descriptor that cannot be written. |
| ElfFile.PlacedBehind | gem5-stable/ext/libelf/elf_update.c:266-285 | Each section is laid out behind the end of all before it in the list. |
| ElfFile.HeadersDescribe | gem5-stable/ext/libelf/elf_update.c:205-222 | Where a section's header says its bytes are, the image has only them and filler. |
| ElfFile.UnfetchedPhdrs | gem5-stable/ext/libelf/elf_update.c:685-722 | A file opened for update whose program headers nobody has fetched: asking for its size succeeds, writing it fails, and writing it with the headers fetched succeeds. |
| ElfTwice.SectionTwice | gem5-stable/ext/libelf/elf_update.c:140-226 | Laying a section out again succeeds if and only if its descriptors all have the same alignment, and then changes nothing. |
| ElfTwice.ListTwice | gem5-stable/ext/libelf/elf_update.c:266-285 | The same for a list: the second layout gives the same extents and end, or a layout error. |
| ElfTwice.HeaderTwice | gem5-stable/ext/libelf/elf_update.c:363-490 | The header that a layout leaves passes the checks on version, class and byte order, and the next layout leaves it as it is. |
| ElfTwice.ResyncTwice | gem5-stable/ext/libelf/elf_update.c:320-495 | Two layouts of a file in a row: the second gives the same size and header if and only if the descriptors of each section all have the same alignment, and otherwise fails. |
| ElfTwice.OnlyOnce | gem5-stable/ext/libelf/elf_update.c:140-226 | A section of two descriptors with different alignments that can be laid out once only. |
| ElfStrptr.StrPtr | gem5-stable/ext/libelf/elf_strptr.c:42-133 | The lookup by stored offsets gives the first descriptor that covers the offset; the other is the recomputing lookup; all error cases. |
| ElfStrptr.FindFails | gem5-stable/ext/libelf/elf_strptr.c:88-133 | A recomputing lookup that fails reports bad data if and only if it reaches a descriptor that is not made of bytes or not aligned to a power of two with no more than the offset counted. |
| ElfStrptr.LookupExactly | gem5-stable/ext/libelf/elf_strptr.c:88-133 | For byte descriptors the recomputing lookup finds, at every offset, exactly the usable descriptor that covers it where the layout put it, if and only if each usable descriptor lies where its own alignment puts it after the usable one before. |
| ElfStrptr.SteadyExactly | gem5-stable/ext/libelf/elf_strptr.c:106-113 | With buffers throughout, the condition is that rounding up the end of the last non-empty descriptor by the next one's alignment and by the section's gives the same. |
| ElfStrptr.StringsFound | gem5-stable/ext/libelf/elf_strptr.c:42-133 | After the library has laid out a string table, the whole lookup, its size test included, succeeds at exactly the covered offsets if and only if that condition holds and the descriptors end within the stored size. |
| ElfStrptr.MixedAlignments | gem5-stable/ext/libelf/elf_strptr.c:106-113 | Two descriptors with different alignments for which lookup and layout disagree. |
| ElfLifetime.Library.End | gem5-stable/ext/libelf/elf_end.c:36-85 | Closing decrements the activations and runs the release cascade; the loop ends. |
| ElfLifetime.Library.Begin | gem5-stable/ext/libelf/elf_begin.c:82-154 | Opening by command, with all argument errors, archive members and repeated activation. |
| ElfLifetime.Library.OpenObject | gem5-stable/ext/libelf/elf_begin.c:38-79 | Opening a file; an archive opened for update is closed again and refused. |
| ElfLifetime.EndExact | gem5-stable/ext/libelf/elf_end.c:50-82 | After closing, a descriptor is live if and only if it has activations or a live member; the others are released, the remaining keep their activations. |
| ElfLifetime.EndInv | gem5-stable/ext/libelf/elf_end.c:36-85 | Closing keeps the invariant: member counts are exact, a member's archive is live, every live descriptor is in use. |
| ElfLifetime.BeginInv | gem5-stable/ext/libelf/libelf_ar.c:279-317 | Opening keeps the invariant, and a returned handle is live and active. |
| ElfLifetime.BeginExactly | gem5-stable/ext/libelf/elf_begin.c:82-154 | Exactly when opening succeeds, and what it does: one more activation of an open descriptor, or a new descriptor with one, counted by its archive; nothing else changes, and nothing at all if it fails. |
| ElfLifetime.RunInv | gem5-stable/ext/libelf/elf_begin.c:82-154 | The invariant holds in every state of every run of opens and closes on live handles; no handle is released twice. |
| ElfLifetime.ActivationsCount | gem5-stable/ext/libelf/elf_begin.c:82-154 | In every run the activations of a handle are the times it was returned and not yet closed. |
| ElfLifetime.LiveExactly | gem5-stable/ext/libelf/elf_end.c:36-85 | In every run a handle is live if and only if it was opened more often than closed or a member of it is live. |
| ElfLifetime.EndReturns | gem5-stable/ext/libelf/elf_end.c:42-47 | In every run closing returns how often the handle still has to be closed. |
| ElfLifetime.ReleasedForever | gem5-stable/ext/libelf/elf_end.c:74-82 | A handle released at some point of a run is not live at any later point. |
| InternetChecksum.CksumAdd | gem5-stable/ext/dnet/ip.h:427-476 | For a buffer of at least two bytes Duff's device adds the plain sum of the words, an odd byte padded with zero. |
| InternetChecksum.ShortBuffer | gem5-stable/ext/dnet/ip.h:433-437 | For fewer than two bytes the result is the plain sum if and only if the bytes read past the buffer are zero. |
| InternetChecksum.SumConcat | gem5-stable/ext/dnet/ip.h:427-476 | Sums of parts add up at every even cut. |
| InternetChecksum.OddPadded | gem5-stable/ext/dnet/ip.h:472-473 | An odd last byte counts as if a zero followed it. |
| InternetChecksum.SumOfBytes | gem5-stable/ext/dnet/ip.h:427-476 | The sum is 256 times every other byte plus the rest, which ones by the byte order. |
| InternetChecksum.NoOverflow | gem5-stable/ext/dnet/ip.h:22-22 | The sum of any packet of at most 65535 bytes fits in a signed 32-bit integer. |
| InternetChecksum.CarryResidue | gem5-stable/ext/dnet/ip.h:478-483 | The fold is the complement of the ones' complement residue, with the right choice between 0 and 0xffff (section 2 of RFC 1071). |
| InternetChecksum.PacketVerifies | gem5-stable/ext/dnet/ip.h:427-483 | A packet with its checksum in any even field verifies to zero (section 3.1 of RFC 791). |
| InternetChecksum.ByteOrderIndependent | gem5-stable/ext/dnet/ip.h:427-483 | With swapped words the checksum is the swapped checksum, so the bytes in memory are the same (section 2 of RFC 1071). |
| FpBits.Fields64 | gem5-stable/ext/fputils/fpbits.h:61-76 | The fields of a built double are the ones it was built from. |
| FpBits.Fields80 | gem5-stable/ext/fputils/fpbits.h:77-112 | The fields of a built extended double are the ones it was built from. |
| Fp80.ConvertFromDouble | gem5-stable/ext/fputils/fp80.c:193-225 | The normalising loop ends and computes the conversion. |
| Fp80.RoundTrip | gem5-stable/ext/fputils/fp80.c:148-225 | Every double that is a number, subnormals, zeros and infinities included, comes back with the same 64 bits. |
| Fp80.NanTrip | gem5-stable/ext/fputils/fp80.c:169-181 | A not-a-number keeps its sign and quietness, and a second round trip changes nothing. |
| Fp80.ClassKept | gem5-stable/ext/fputils/fp80.c:122-140 | The conversion keeps sign and class, except that subnormals become normal. |
| FpValue.ValueKept | gem5-stable/ext/fputils/fp80.c:193-225 | The exact value is kept if and only if the double is not subnormal; a subnormal is halved. |
| FpValue.Truncates | gem5-stable/ext/fputils/fp80.c:148-162 | A normalised value in the range of normal doubles is truncated toward zero by less than one unit in the last place. |
| FpValue.TruncatesExactly | gem5-stable/ext/fputils/fp80.c:148-166 | Of all normalised values whose shift is defined and that do not overflow, conversion truncates those in the normal range, those one exponent below it with the largest fraction, and those below half of the smallest double, and no others. |
| FpValue.BackAgain | gem5-stable/ext/fputils/fp80.c:148-225 | Converting such a value there and back clears its low 11 bits and changes nothing else. |
| FpValue.Monotone | gem5-stable/ext/fputils/fp80.c:148-162 | On the range of normal doubles the conversion is monotone in magnitude. |
| FpValue.MonotoneExactly | gem5-stable/ext/fputils/fp80.c:148-166 | No smaller number becomes a larger double than the given one if and only if that one does not lie one exponent below the normal range, or has the largest fraction there. |
| FpValue.LeadingBitLost | gem5-stable/ext/fputils/fp80.c:163-166 | One exponent below the normal range the result is the fraction without the leading bit. |
| FpValue.SubnormalDoubled | gem5-stable/ext/fputils/fp80.c:163-166 | Further below the normal range, where the shift is defined, the result is twice the value, truncated to the subnormal grid. |
| FpValue.ShiftDefinedExactly | gem5-stable/ext/fputils/fp80.c:163-166 | The shift is by fewer than 64 places if and only if the magnitude is at least two to the power of -1086. |
| FpValue.WildShift | gem5-stable/ext/fputils/fp80.c:163-166 | Where it is not, a shift by the count modulo 64 gives the zero of the full shift if and only if the remainder is at least 53. |
| FpValue.TripDefined | gem5-stable/ext/fputils/fp80.c:148-225 | On the way back from an extended double the shift is defined for every double but zero. |
| FpValue.OverflowExactly | gem5-stable/ext/fputils/fp80.c:167-170 | A finite value becomes infinite if and only if it is two to the power of 1024 or larger; the sign is kept. |
| PipeView.Viewer.PrintInsts | gem5-stable/util/o3-pipeview.py:167-188 | The queue is sorted and its smallest elements leave it, filtered, until the threshold is reached. |
| PipeView.Viewer.QueueInst | gem5-stable/util/o3-pipeview.py:159-164 | An instruction is appended, and the queue is flushed when it is over the upper threshold. |
| PipeView.TakenBelow | gem5-stable/util/o3-pipeview.py:47-52 | An instruction taken by a flush is not larger than one that at most as many arrived instructions exceed as stay behind. |
| PipeView.Viewer.ProcessTrace | gem5-stable/util/o3-pipeview.py:120-188 | Nothing is lost or taken twice in any trace; the instructions leave in order if and only if none is late, and for distinct numbers the output is then the sorted trace, filtered; for distinct numbers the output is in order if and only if no shown instruction is late for a shown one; the output has exactly the instructions of the trace that meet every bound that is set, as often as the trace has them. |
| PipeView.TakesExactly | gem5-stable/util/o3-pipeview.py:159-172 | Instructions leave the queue at exactly the arrivals that the thresholds determine: the first that exceeds both, then periodically. |
| PipeView.OrderedExactly | gem5-stable/util/o3-pipeview.py:47-52 | The trace leaves in order if and only if at every such arrival no instruction still to come is exceeded by more than the lower threshold of those that have arrived. |
| PipeView.LeftExactly | gem5-stable/util/o3-pipeview.py:159-188 | For distinct numbers, after a flush exactly those instructions have left that at least as many as the lower threshold exceed. |
| PipeView.OutputExactly | gem5-stable/util/o3-pipeview.py:167-188 | For distinct numbers, the filtered output is in order if and only if no shown instruction arrives, after a flush, behind a larger shown one that at least as many as the lower threshold exceed at that flush. |
| PipeView.NearlyInTime | gem5-stable/util/o3-pipeview.py:51-52 | That holds if no instruction is out of order by more than the lower threshold. |
| PipeView.PrintsOutOfOrder | gem5-stable/util/o3-pipeview.py:51-52 | For all thresholds, a trace that the viewer prints out of order. |
| BindPorts.Bind | gem5-stable/configs/example/read_config.py:278-332 | Binding succeeds if and only if the order of the list contains a binding of all connections; then one direction of each connection is made and every port's indices are bound in the order 0, 1, 2 and so on. |
| BindPorts.BindsExactly | gem5-stable/configs/example/read_config.py:297-324 | The pass makes half of the list if and only if some selection of the list, in its order, makes each connection once with both ends next in turn: taking a connection as soon as it is in turn is never worse than waiting. |
| BindPorts.SortingIsNotEnough | gem5-stable/configs/example/read_config.py:299-301 | A symmetric list of connections that another order binds but the sorted order does not. |
| BindPorts.OneDirection | gem5-stable/configs/example/read_config.py:299-324 | Connections that share no end are at most half of a symmetric list, and one of each pair if they are half. |
| MemTest.NumTesters | gem5-stable/configs/example/memtest.py:114-125 | The two loops compute the weighted sum of the testers. |
| MemTest.CheckSpec | gem5-stable/configs/example/memtest.py:150-175 | The checks pass exactly the valid specifications. |
| MemTest.TestersWeighted | gem5-stable/configs/example/memtest.py:114-125 | The recursive tree has as many testers as the weighted sum. |
| MemTest.SubsystemsFanout | gem5-stable/configs/example/memtest.py:223-287 | Each level has as many subsystems as the product of the caches below it. |
| MemTest.System.MakeCacheLevel | gem5-stable/configs/example/memtest.py:223-284 | The recursion creates the testers of its subtree, binds each port once, numbers the subsystems of a level once each, and fails only on level zero without a cache. |
| MemTest.System.Make | gem5-stable/configs/example/memtest.py:286-287 | For every valid specification the tree has exactly the computed number of testers, each bound once, with distinctly named subsystems, as many per level as the product says. |
| ClusterTopology.Network.MakeTopology | gem5-stable/configs/topologies/Cluster.py:76-117 | The recursion builds the specified network and returns the first new router. |
| ClusterTopology.LenLeaves | gem5-stable/configs/topologies/Cluster.py:119-121 | The length of a cluster is the number of controllers in it. |
| ClusterTopology.Topology | gem5-stable/configs/topologies/Cluster.py:39-121 | From fresh counters: routers 0 to R-1, R-1 internal links numbered from 0 with one into each router but the first from an older router, and one external link for each controller, in order, numbered from 0. |
| ClusterTopology.Wiring | gem5-stable/configs/topologies/Cluster.py:76-117 | Every controller is linked to the router of the cluster it is directly in, with that cluster's internal bandwidth and latency, and every cluster to that of the cluster around it, with its own external values where it has them. |
| ClusterTopology.Spanning | gem5-stable/configs/topologies/Cluster.py:76-121 | Every router is reached from the outer router, by one link less than there are routers. |
| YearRanges.FindRuns | gem5-stable/util/find_copyrights.py:175-197 | The loop finds non-empty ascending runs with gaps between them whose union is the set of years. |
| YearRanges.Shortest | gem5-stable/util/find_copyrights.py:175-199 | No list of ranges for the same years is shorter. |
| YearRanges.UniqueForm | gem5-stable/util/find_copyrights.py:175-199 | Only one list of runs with gaps has the same years. |
| YearText.ProcessDates | gem5-stable/util/find_copyrights.py:98-116 | The result is the union of what the comma-separated entries mean: a range, a number or nothing. |
| YearText.DatesSpaced | gem5-stable/util/find_copyrights.py:98-100 | Spaces around the entries of a list do not change its years. |
| YearText.RangeMeans | gem5-stable/util/find_copyrights.py:98-108 | Two four-digit numbers with a dash and any spaces around it between them mean the years from the first to the last. |
| YearText.ReadNumber | gem5-stable/util/find_copyrights.py:109-114 | Every whole number is read back from its decimal form, signed or not. |
| YearText.JunkIgnored | gem5-stable/util/find_copyrights.py:109-116 | An entry without digits means no year. |
| YearText.DateStr | gem5-stable/util/find_copyrights.py:175-199 | The text is read back as the same set for every non-empty set of four-digit years, and has the fewest ranges; the empty set has no text. |

## Left out

- PMSI, instruction fetches: GETI is GETS for this purpose, but the table has no row for it in IM_DS and SM_W.
- PMSI, atomic and read-modify-write states (M_L, IM_DL and their kin), DMA, INV and latency profiling.
- PMSI, several lines: lines do not interact in the protocol except through the bus and cache replacement; the bounds in slots count the traffic of one line only.
- PMSI, cycle counts: a slot is long enough for one memory fetch by assumption, and bounds are counted in slots.
- PMSI, the MESI and two-level variants of the protocol and the rest of the ruby network.
- PmsiTdm.TRunInv: asks of a run that wake-ups are orderly, because the arbiter does not rule out that a request falls due in the cycle of a wake-up.
- PmsiTdm.TdmWriteBacksAccepted: the same.
- PmsiTdm.TdmRefines: the same.
- PmsiBound.GrantedWithin: the same.
- PmsiBound.AnsweredWithin: holds of runs in which no request overtakes another, since the bound counts the requests ahead in bus order; reads that overtake reads are covered by the other results only.
- PmsiBound.AccessWithin: the same, and rests on a processor that does not replace a line in IM_W.
- PmsiAccess.CompletesWithin: the same; an access to another line that waits for this line's replacement is not part of it.
- PMSI, the random orders that compile-time switches of the message buffer and the arbiter select.
- ElfLayout.ComputeExtents: does not model `sh_entsize`, which no other computation reads.
- ElfUpdate.ResyncElf: leaves out extended numbering of program headers (0xffff or more) and the magic bytes of the header.
- ElfUpdate.ResyncElf: 64-bit overflow of offsets is not modelled, offsets are unbounded; 32-bit truncation of stored fields is.
- ElfWrite.WriteElf: bytes are labelled by what they are part of, the translators of file representations and the C library are not modelled; raw contents have the size in the section header.
- ElfImage.WriteScn: the sizes and alignments of types in memory are those of a host that aligns 64-bit words to eight bytes; a descriptor's buffer is its address.
- ElfTwice.ResyncTwice: for fewer than 0xff00 sections whose alignments fit in their header fields.
- ElfWrite.WriteElf: the executable header is in memory, and memory exhaustion is left out.
- ElfFile.Update: the object, its class and the command are valid arguments, and memory exhaustion is left out.
- ElfWrite.WriteElf: writing the buffer to the file and releasing sections and headers afterwards are left out.
- ElfStrptr.StrPtr: the loading of section data on first access is left out; a pointer is a descriptor and a position in its buffer.
- ElfLifetime.Library.Begin: the file system is a parameter that says what is found and whether a file can be written; library version and memory exhaustion are left out.
- InternetChecksum.CksumAdd: a pass of the unrolled body is written as a loop over its cases.
- Fp80.RoundTrip: a shift by 64 or more, undefined in C, is taken as a shift of a natural number; for doubles it only happens to zero, as `TripDefined` shows.
- PipeView.Viewer.ProcessTrace: reading the trace file, the early return at a stop tick and text formatting are left out.
- BindPorts.Bind: the order in which connections are considered is a parameter, of which the sorted order is one; setting the attributes is left out.
- MemTest.System.Make: cache parameters and the random specification are left out.
- YearText.DateStr: takes the elements of the set in any order instead of the set object.
- libelf's accessors and flag functions, its hash, note and archive name code, the trace protobuf library, the parse tables, DSENT and the configuration scripts are one-branch facts, foreign calls or plumbing.
