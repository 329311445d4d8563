# A model of the rtgc collector

rtgc is a concurrent, non-moving mark/sweep collector for C programs.  One collector
thread works beside up to MAX_THREADS = 20 mutator threads.  A cycle takes a snapshot of the roots
(the flip), traces from it while a write barrier records overwritten references in a bit
vector, and then turns what is still white into free memory.  This project models the
collector, the allocator and the handshake between them, and proves what they promise.

`dafny verify dfyconfig.toml` checks all of it.

## Layout

- `Colours.dfy`: header colours and the three changes the collector makes to them.
- `Protocol.dfy`: collector and mutators as one transition system.  A step is one access
  to shared memory: the write barrier is five of them (test of the flag, load of the old
  word, white test, mark, store), an allocation two, the collector loads and traces one
  slot at a time, and its sweep of the write vector goes bit by bit while mutators set
  bits.  `ProtocolInvariant.dfy` holds the invariant, `ProtocolTraced.dfy` what the
  collector can come across in a cycle, `ProtocolSafety.dfy` safety and exactness over whole
  runs, `ProtocolBounds.dfy` the termination bounds, `ProtocolLone.dfy` the cycle no mutator
  disturbs, `ProtocolExact.dfy` when a cycle is exact, `ProtocolWitness.dfy` runs that keep
  garbage, `ProtocolHypothesis.dfy` what goes wrong without the guard on the flip,
  `ProtocolWindow.dfy` what goes wrong when threads run on between saving and the swap,
  `ProtocolMutator.dfy` what the mutators get for their steps.
- `Links.dfy`, `GroupList.dfy`: the two linked chains of a size group, as a class whose
  methods rewrite link words in place.  `GroupRaces.dfy` interleaves graying with
  allocation at the grain of single link-word reads and writes; `RaceEffects.dfy` says what
  each operation has done when it is over.
- `Marking.dfy`: the nested loops of `scan_gray_set` over all groups.
- `Pages.dfy`, `PageTable.dfy`: the page table and the hole list.  `Layout.dfy`: how pages
  are cut into objects, and interior pointers.  `Heap.dfy`: page table and groups
  together.  `Conservation.dfy`: every page and byte accounted for.  `FullCycle.dfy`: whole
  cycles over the heap, without mutators.
- `WriteVector.dfy`, `Objects.dfy`, `InfoBits.dfy`: the bit vector, object sizes and
  metadata, the packing of link words.
- `Handshake.dfy`: the start of a cycle, up to the end of its barrier.
- `Refinement.dfy`: each operation on groups and pages is one or more steps of the
  transition system.  `Simulation.dfy`: whole runs over headers and page table are runs of
  it.  `Conformance.dfy`: the methods, called one after the other, make such a run.

## Hypotheses

The source does not establish these; the theorems that use `Protocol` or `Heaps` rest on them.

- Atomic flip.  Saving all roots, turning the barrier on and swapping the colours is one
  step, taken when no mutator is between the barrier's first test and its store
  (`Protocol.Enabled`).  The comment at rtstop.c:172 speaks of stopping the world, but the
  code does not hold threads in the handler: `Handshake.AThreadRunsAheadOfTheSwap` is a run
  in which a thread has saved and runs on with the barrier off while the collector waits for
  another one.  The model follows the code there, and the transition system assumes what is
  missing.  Neither half can be done without: `ProtocolHypothesis.FlipInsideABarrierLosesAnObject`
  has a thread in the barrier, `ProtocolWindow.WindowLosesAnObject` has none, but one that
  went on after saving.  A swap is as good as an atomic flip exactly when what the threads
  hold by then has been saved (`ProtocolWindow.SwapIsAFlip`).
- Page publication.  A page taken from a hole and not yet entered in the page table is
  empty to the coalescer.  `PageTables.TakenPageIsSwallowed` shows a hole swallow one.  The
  merging is right when no hole ends at such a page, that is when no page without an
  allocated object lies just before one (`Heaps.ClearIffBounded`); the contracts require it.
- Mutators store only references they hold, in slots that hold nothing else.  The words
  searched conservatively, on the other hand, are anything at all: `Flip` saves an arbitrary
  set of words besides what the mutators hold, and while it scans the globals or an object
  the collector may come across stray words that are in no slot (`Protocol.LoadStray`), as
  in a body whose every word is a possible pointer.  Either kind may name live, garbage,
  free, unpublished or nonexistent headers.  A barrier on a slot that holds such a word is
  not modelled: it could set the bit of garbage late, and that object can be freed before
  the sweep finds the bit.  That no bit ever names a free header rests on this.
- Clearing the body of a new object is one step.  The body may be traced before it; the
  theorems say what that costs.

Headers are numbered by their bit in the write vector in `Protocol`; they are byte offsets
from the page-aligned start of the partition elsewhere.  NULL is -1.

## Model

| member | source | states |
|---|---|---|
| ProtocolInvariant.InvRun | rtgc.c:599-614 | In every state of every run, with up to MAX_THREADS mutators, whatever words the flips save besides references held and whatever stray words the collector comes across: what a mutator can reach is not free, each slot of the snapshot still holds its snapshot value or that value cannot be lost (it is non-white or its bit is set), and what the collector has left behind is traced (weak tricolour invariant) |
| ProtocolInvariant.MutatorsMakeNoGray | rtgc.c:255-266 | Of all the mutator steps, those inside the write barrier and inside an allocation included, none turns an object gray, none changes the colour of an allocated object, white is white before and after, and what becomes allocated is black; graying is the collector's alone |
| ProtocolInvariant.InvMark | rtgc.c:219-226 | Setting a bit, even late, keeps the invariant |
| ProtocolInvariant.InvStore | rtgc.c:255-266 | The barrier's store keeps the invariant wherever the collector is and whatever has happened since the barrier's test; what it stores is ProtocolMutator.AssignmentLands |
| ProtocolMutator.AssignmentLands | rtgc.c:255-266 | Over runs, with the barrier on or off and whatever other threads and the collector do in between: when a thread that has started to assign rhs to a slot is ready again, the last step has put exactly rhs into that slot and changed no other, and the thread holds what it held |
| ProtocolMutator.LoadFindsAssignment | rtgc.c:265 | A load of the slot right after that, by any thread, adds exactly the reference assigned to the words of the thread |
| ProtocolMutator.AllocationDelivers | rtalloc.c:330-354 | Over runs: from the moment an object is given to a thread until it has been cleared nobody can reach it and it is not freed; then that thread and no other holds it, its slots are those asked for and all empty, and no other slot has changed |
| ProtocolMutator.OnlyOwnStepsMove | rtgc.c:255-266 | No step of another thread or of the collector changes what a thread holds or where in the barrier it is |
| ProtocolMutator.ReadyIsFree | rtgc.c:255-266 | The collector never holds a ready thread up: loads, assignments, allocations of free objects, starting and ending threads are enabled wherever it is |
| ProtocolMutator.ExitLeaves | rtalloc.c:497-519 | The end of a thread removes it and nothing else |
| ProtocolMutator.SpawnHandsOver | rtalloc.c:488-495 | A new thread starts with exactly the references it is given, which its parent holds and keeps |
| ProtocolInvariant.InvFlip | rtgc.c:493-534 | The flip, with any conservative words among the saved roots and any stray words to come, starts a cycle in which every slot of the snapshot is still owed to the collector |
| ProtocolInvariant.CleanSweepFinishes | rtgc.c:604-608 | At the end of a sweep that found no bit set, though bits can have been set behind it, the invariant implies that nothing in use is white: recycling may start |
| ProtocolSafety.ReachIffPath | rtgc.c:421-428 | Reachable (in every set closed under the slots) is the same as: at the end of a path from a root, a global or a set bit |
| ProtocolSafety.NothingLiveIsFree | rtgc.c:599-614 | In every reachable state no object in use is free, and no bit of the vector names a free header, across any number of cycles |
| ProtocolSafety.SnapshotSafety | rtgc.c:599-614 | What was reachable at a flip, or has been allocated since, is not freed before the next flip |
| ProtocolTraced.TracedRun | rtgc.c:462-490 | In every state of every run, until the cycle ends only what the words of the cycle, saved or stray, and the bits of its flip led to, in the heap as it was then, or what was allocated since, is gray or black |
| ProtocolSafety.UntracedIsFreed | rtgc.c:541-614 | Whatever the words of a cycle and the bits found at its flip did not lead to is freed by the end of the cycle |
| ProtocolSafety.LiveIsNotFreed | rtgc.c:541-614 | Nothing in use at a flip is freed in its cycle |
| ProtocolSafety.CycleIsExact | rtgc.c:541-614 | When the words of a cycle and the bits found at its flip lead to nothing but what is in use, the cycle frees an object allocated at the flip if and only if it was not in use then, set bits counting as use |
| ProtocolSafety.ReachIsUsableIff | rtgc.c:192-226 | A set bit counts as a root: reachable and usable by mutators agree exactly when every set bit is usable anyway |
| ProtocolSafety.TwoCyclesFreeAllGarbage | rtalloc.c:205-219 | Once gc_count has advanced by 2 a whole cycle, flip and end, lies within the wait, and an object allocated when the wait began has been freed if some whole cycle of the wait did not come across it, whatever the other flips found |
| ProtocolSafety.TwoCyclesHoldAWholeOne | rtalloc.c:205-219 | Wherever the collector is when the wait begins, a wait in which gc_count advances by 2 contains one whole cycle with its flip |
| ProtocolLone.LoneCycle | rtgc.c:599-614 | From any state a flip leaves, the collector alone reaches the end of the cycle, in which exactly what the words of the cycle and the bits found led to is still allocated, and the vector is empty |
| ProtocolExact.ExactIff | rtgc.c:541-614 | A flip makes its cycle exact, whatever the mutators do after it, if and only if the words of the cycle and the bits it finds lead to nothing but what is in use, set bits counting as use |
| ProtocolExact.CycleFreesExactlyTheUnusable | rtgc.c:541-614 | If they lead to nothing but what is in use, and every bit found at the flip is that of an object some mutator can use, the cycle frees exactly the objects that no mutator could use and that no allocation was still clearing |
| ProtocolExact.FreesTheUnusableIff | rtgc.c:541-614 | A flip makes its cycle free exactly what no mutator could use and no allocation was still clearing, whatever the mutators do after it, if and only if the words of the cycle and the bits it finds lead to nothing else |
| ProtocolExact.OnlyBitsMatter | rtgc.c:192-226 | That condition is the one of ExactIff together with: every bit found is that of an object some mutator can use |
| ProtocolExact.NeverLateLeavesNoBit | rtgc.c:219-226 | If no bit has ever been set late the flip finds none, and the two conditions are the same |
| ProtocolExact.LastFlipDecides | rtalloc.c:205-219 | An object still allocated at the last flip of a wait for gc_count + 2 is freed by the end of the wait, whatever the mutators do, if and only if the words of that cycle and the bits its flip finds do not lead to it |
| ProtocolWitness.StaleWordKeepsGarbage | rtalloc.c:346-352 | A run from the initial state with a whole cycle that does not free an unreachable object, because a stale word of a body not cleared yet names it at the flip |
| ProtocolWitness.StaleWordKeepsGarbageForever | rtalloc.c:205-219 | For every n a run from the initial state in which an object is unreachable, n more cycles pass, and it has not been freed: no number of cycles frees all garbage |
| ProtocolWitness.LateBitKeepsGarbage | rtgc.c:255-263 | A run from the initial state with a whole cycle that does not free an unusable object, because its bit was set after the cycle before had ended; the words of the cycle lead to nothing else, and all that is traced is in use by that bit |
| ProtocolHypothesis.OnlyTheGuardDiffers | rtstop.c:171-222 | The system without the guard has all the steps of the other, and no more than those from a state with no thread inside the barrier |
| ProtocolHypothesis.FlipInsideABarrierLosesAnObject | rtgc.c:255-266 | In the system whose flip does not wait for barriers to be left there is a run from the initial state at whose end an object is on a free list while a thread holds it; all its steps but that flip are steps of the guarded system |
| ProtocolWindow.SwapIsAFlip | rtstop.c:203-206 | With the roots saved thread by thread beforehand, the swap is a flip of the other system if and only if all that the threads hold at the swap has been saved |
| ProtocolWindow.SplitRunIsRun | rtstop.c:171-222 | A run with such split flips in which that is so at every swap ends where some run of the other system ends |
| ProtocolWindow.WindowLosesAnObject | rtstop.c:91-137 | Otherwise an object can be lost with nobody in the barrier: a run from the initial state in which a thread saves, then loads a reference and overwrites it with the barrier off; after the swap the cycle frees the object, which the thread still holds |
| ProtocolBounds.SweepBound | rtgc.c:604-608 | The drain loop runs at most (objects white at the flip) + 1 times, plus one for each late mark, and late marks are at most 20 for each of those objects, whatever mutators do |
| ProtocolBounds.ScanBound | rtgc.c:462-490 | No more objects are scanned in a cycle than were white at its flip |
| ProtocolBounds.ScanPays | rtgc.c:462-490 | Every step of the mark phase leaves all colours alone or decreases 2 white + gray |
| GroupList.TenRows | doc/gc-states.txt:20-51 | The null pattern of (gray, black, free, last, white) is one of the ten rows not marked Invalid |
| GroupList.ColourIsPlace | rtgc.c:453-458 | A header's colour says exactly which part of which chain it is in, and the other way round |
| GroupList.GrayGood | rtgc.c:38-82 | Whichever of its three branches it takes, graying moves one header from the white chain to the gray end of the main chain; both chains stay mutually linked and every other colour stays |
| GroupList.FlipGood | rtgc.c:497-531 | Cutting the chain before the free list and exchanging the two colours turns exactly the black objects white and changes no header's bits |
| GroupList.RecycleGood | rtgc.c:541-587 | The whole white chain becomes the tail of the free list, whichever of free, black and last are NULL |
| GroupList.DropGood | rtcoalesce.c:93-117 | Removing any green header, first, last or in the middle, keeps both chains and all five pointers right |
| GroupList.ExtendGood | rtalloc.c:234-255 | Fresh blocks become the free list behind whatever the chain holds, also when it is empty |
| GroupList.Group.constructor | rtalloc.c:50-66 | An empty group satisfies the group invariant |
| GroupList.Group.MakeGray | rtgc.c:38-82 | In place, on link words: keeps the invariant and shades exactly the given object; white_count follows |
| GroupList.Group.Allocate | rtalloc.c:339-350 | Pops the first free header, colours it black and sets its storage class; the boundary between black and green moves by one |
| GroupList.Group.NextToScan | rtgc.c:469-475 | The cursor is the last gray object of the chain, or NULL when none is left, wherever the black pointer stands |
| GroupList.Group.Scanned | rtgc.c:453-458 | The last gray object becomes the first black one and its prev link is the next object to scan |
| GroupList.Group.Flip | rtgc.c:497-531 | White becomes what was retained, white_count becomes its number, the invariant holds with the colours exchanged |
| GroupList.Group.Recycle | rtgc.c:541-587 | Every white object turns green and no other; the number walked equals white_count in every cycle |
| GroupList.Group.InitPages | rtalloc.c:234-255 | The laid-out blocks are new green headers, linked in address order behind the chain |
| GroupList.Group.RemoveFromFreeList | rtcoalesce.c:93-117 | Exactly the given green header leaves the group |
| GroupRaces.RaceInvariant | rtgc.c:38-82 | Holds in every interleaving of single word accesses of graying and scanning with RTallocate and init_pages_for_group |
| GroupRaces.RacesAreHarmless | rtgc.c:57-81 | Whenever nothing is under way the group invariant holds: no colour, link or storage-class update has been lost |
| GroupRaces.GrayingAssertions | rtgc.c:62-77 | The two assertions in RTmake_object_gray hold in every interleaving |
| RaceEffects.GrayingArrives | rtgc.c:38-82 | In every interleaving, when the graying of an object is over the object is gray and group->gray points to it |
| RaceEffects.ScanArrives | rtgc.c:453-458 | In every interleaving the object at the cursor is gray when its scan begins to end, and when that is over it is black and group->black points to it |
| RaceEffects.AllocationArrives | rtalloc.c:339-350 | In every interleaving the header taken off the free list was free, and when free_lock is given back it is black and has the class the allocation wrote |
| RaceEffects.FreshBlocksArrive | rtalloc.c:234-255 | In every interleaving, when a fresh block has been linked in its objects are free, head the free list and end the chain |
| RaceEffects.NothingElseChanges | rtgc.c:38-82 | In every interleaving no header changes its colour or its class but by the last write of its own graying, scan or allocation |
| RaceEffects.TouchedInfo | info-bits.h:36-49 | Those writes take white to gray, gray to black and green to black, and no other colour to any |
| GroupRaces.WithoutFreeLockAColourIsLost | rtgc.c:68-73 | If the collector wrote black's prev word without free_lock: a run from a good group at rest to a group at rest that is not good, in which an allocated object is green |
| Marking.ScanGraySet | rtgc.c:462-490 | The loops over all groups end and leave no gray object; every object named by one they blacken is non-white; words that name no object are skipped |
| Marking.ScanGraySetMarksTheReachable | rtgc.c:462-490 | What has turned black is exactly what was gray, or white and reachable from gray through white; the rest is still white |
| Marking.ScanObjectWithGroup | rtgc.c:453-458 | Scanning one object brings 2 white + gray down and finds the next object of the group by its prev link, although the chain grew meanwhile |
| Pages.HolesAndCommittedFillTheHeap | rtcoalesce.c:228-230 | The holes and the pages that are not empty, or taken and not published yet, fill the partition |
| Pages.ClosedOffIsMaximal | rtcoalesce.c:317-344 | Disjoint holes that stop at non-empty pages are exactly the longest runs of empty pages |
| Pages.FitsIffRunExists | rtalloc.c:143-163 | With the holes merged, some hole has n pages exactly when n consecutive empty pages exist |
| PageTables.PageTable.InitEmptyPages | rtalloc.c:76-94 | The run becomes one hole at the head of the list, and the holes still cover exactly the empty pages |
| PageTables.PageTable.FindBestFit | rtalloc.c:149-163 | Finds the first hole with the smallest remainder, with its predecessor; NULL exactly when none is big enough |
| PageTables.PageTable.AllocateEmptyPages | rtalloc.c:143-185 | Takes the pages from the front of that hole and leaves the rest of it in its place in the list, or unlinks it |
| PageTables.PageTable.Publish | rtalloc.c:261-268 | The pages taken get their owner and base; the holes are not concerned |
| PageTables.PageTable.CoalesceFreePages | rtcoalesce.c:64-88 | Exactly the FREE pages become EMPTY, and new holes in front of the old list cover them |
| PageTables.MergeStep | rtcoalesce.c:323-337 | A hole that ends at an empty page swallows the hole that starts there, wherever in the list that is, and one more hole has length 0 |
| PageTables.PageTable.MergeAdjacentHoles | rtcoalesce.c:317-344 | When no hole ends at a page in flight: ends for any order of the list, and the holes left are exactly the longest runs of empty pages that are not in flight, in their old order |
| PageTables.MergeIntoFlight | rtcoalesce.c:323-337 | A hole that ends at a page in flight swallows it, with whatever its first word says, and is no longer a hole of free pages; if the word is 0 the loop turns forever |
| PageTables.TakenPageIsSwallowed | rtcoalesce.c:317-344 | A page table of three pages, built by the operations themselves, in which a block given back ends at a page just taken, and one turn of the loop makes a hole of all three |
| PageTables.PageTable.DeleteMergedHoles | rtcoalesce.c:296-315 | Given the number of holes of length 0 it unlinks exactly those, and its final assertion holds |
| PageTables.AllocationSucceedsIff | rtalloc.c:143-185 | After merging, an allocation of n pages succeeds exactly when there are n consecutive empty pages that no allocation has taken |
| Layout.BlockIsFull | rtalloc.c:189-193 | The objects laid out on a block of pages fill it exactly, in every size group |
| Layout.InteriorFindsItsObject | rtgc.c:89-98 | Every address of a page of a group leads to the header of the one object whose block contains it |
| Layout.NearPointersRetain | rtgc.c:84-87 | A word keeps an object exactly when it points into the first 528 bytes of it, hence anywhere into an object of up to 512 |
| Layout.HeadersAreAligned | rtalloc.c:234-246 | Every header is 32-byte aligned |
| Heaps.AllGreenPage | rtcoalesce.c:119-132 | Answers whether every object on the page is green |
| Heaps.Heap.IdentifyFreePages | rtcoalesce.c:185-202 | One pass frees exactly the blocks all of whose objects are green, takes exactly their headers off the free lists, and touches no other header |
| Heaps.Heap.CoalesceAllFreePages | rtcoalesce.c:347-351 | When no page without an allocated object lies just before a page in flight: exactly the pages that held no allocated object are empty now and the holes are the longest runs of those not in flight; exactly the headers on the other pages are left, with the colours they had; no FREE page remains |
| Heaps.ClearIffBounded | rtcoalesce.c:317-344 | After the unused blocks have been given up, some hole ends at a page in flight if and only if some page without an allocated object lay just before one |
| Heaps.FitsIffUnusedRun | rtalloc.c:143-163 | After that, n pages can be taken exactly when there are n consecutive pages that held no allocated object and are not in flight |
| Heaps.Heap.InitPagesForGroup | rtalloc.c:189-269 | One attempt: commits one block from the best-fitting hole to the group, with its page-table entries and headers in agreement, or changes nothing when no hole fits |
| Heaps.Heap.Allocate | rtalloc.c:330-354 | One attempt: the object returned was green or is of a fresh block, is black now, and no other object of any group has changed; gray and white objects and pages in flight are as before; fails exactly when the group has no free object and no hole fits, and then changes nothing |
| Heaps.Heap.Flip | rtgc.c:493-534 | All groups at once: with the colours exchanged every group satisfies its invariant and no header has changed |
| Heaps.Heap.RecycleAllGarbage | rtgc.c:590-596 | Every white object turns green, then the pages without an allocated object become holes, around the pages in flight, and their headers go; no object is white afterwards, so that the next flip can follow |
| Conservation.EveryPageHasOnePlace | rtcoalesce.c:185-202 | With nothing in flight every page is part of exactly one hole or of exactly one block of one group, never of both |
| Conservation.BytesAddUp | rtcoalesce.c:214-230 | Hole bytes, plus objects times object size over all groups, plus pages in flight, is the size of the partition |
| Conservation.HeapBytesAddUp | rtcoalesce.c:214-230 | The same sum in every valid state of the heap, the objects counted in the headers of its groups |
| FullCycle.FullGc | rtgc.c:599-614 | Flip, root scan, the loop of marking and sweeping the write vector, recycling and coalescing on the heap, with no mutator running: the headers left are those of blocks with an object reachable from the roots or from headers whose bits were set, what is reachable is marked and the rest free, the holes are the longest runs of pages with nothing reachable on them, no bit is set any more, and another cycle can follow |
| FullCycle.SweepVector | rtgc.c:192-216 | The sweep over words and bits on the groups themselves, no mutator running: every header whose bit was set is traced, its bit cleared, and the number returned is how many there were |
| FullCycle.Drain | rtgc.c:603-608 | The loop of marking and sweeping ends, with no object gray, no bit set, and exactly what roots and bits lead to traced |
| FullCycle.CollectedExactly | rtgc.c:599-614 | After such a cycle an address is an allocated object if and only if it was one before and was reachable from the roots and bits |
| FullCycle.SecondCycle | rtgc.c:620-631 | Two cycles, the roots of the second being among those of the first, leave the pages and headers that the second would have left alone |
| FullCycle.SecondCycleKeepsPages | rtgc.c:620-631 | A second cycle with the same roots and words changes no page |
| FullCycle.CollectTwice | rtgc.c:620-631 | The two cycles of the collector's loop together leave exactly what the roots lead to, whatever bits were set before the first, and restore the two colour codes |
| FullCycle.AllocateWaiting | rtalloc.c:189-232 | Allocation with the wait for two cycles and the second attempt, nobody else running: it gives up exactly when there was no memory the first time, every block of the group with an object in use is full of them, and no block fits between the pages in use; the object given was free or did not exist when the attempt that gave it began, is marked and has its class now, and that attempt changed no other object; every object in use before the call is still allocated and is not the one given |
| WriteVectors.HeaderRoundTrip | rtgc.c:192-226 | The sweep's map from word and bit to header inverts the marking's map from header to word and bit, and the word is in bounds |
| WriteVectors.EveryHeaderHasABit | rtalloc.c:438-440 | A partition of whole pages has a bit for every 32-byte boundary |
| WriteVectors.OrSetsOneBit | rtgc.c:219-226 | The locked or with the mask sets that bit of the 64-bit word and leaves the other 63 as they were |
| WriteVectors.AndClearsOneBit | rtgc.c:192-216 | The locked and with the complement clears that bit and leaves the other 63 as they were |
| WriteVectors.WriteVector.MarkWriteVector | rtgc.c:219-226 | Marks the given header and no other |
| WriteVectors.WriteVector.ScanWriteVector | rtgc.c:192-216 | With other threads marking before every access of the sweep: only marked objects are grayed, no mark is lost on an object that stays white, and the number returned is that of the bits cleared, which are those of all headers marked at the start and of none but those and the ones marked meanwhile |
| WriteVectors.SweepMeaning | rtgc.c:192-216 | After a sweep what was marked at its start is non-white, what was marked since is still marked or non-white, the bits cleared lie between what was marked at the start and that with what was marked since, and undisturbed they are exactly the former and the vector is clear |
| Handshake.InvRun | rtstop.c:171-222 | Locks, counters, slots, handlers and the barrier agree in every state of every run, for any number of threads |
| Handshake.EveryThreadSavedOnce | rtstop.c:208-221 | When the copied wait ends every live thread has saved its registers and stack exactly once, in a slot of its own |
| Handshake.NoAllocationBeforeTheSwap | rtstop.c:156-206 | From the moment all free_locks are taken until the colours are swapped no allocation step happens or can happen |
| Handshake.BarrierAndSwap | rtstop.c:200-206 | Over runs: after the collector has taken all free_locks, and until it does so again, the barrier is on from before the swap until the marking is done and off otherwise, and the colours are swapped once, when the barrier is on and before any free_lock is released |
| Handshake.LockIsHeld | rtalloc.c:330-350 | A free_lock that a thread has taken stays its own until the thread lets it go; meanwhile the collector does not have all of them |
| Handshake.CountsAndThreads | rtalloc.c:330-354 | Allocations are counted, and a thread is live from its start to its end |
| Handshake.HandlerReturnsBeforeTheSwap | rtstop.c:91-137 | A signalled thread can finish its handler and run on while the barrier is off and the colours unswapped; the collector can go on then only if it was the last |
| Handshake.AThreadRunsAheadOfTheSwap | rtstop.c:171-222 | A run from the initial state in which one thread has saved, left its handler and runs on, while another has not entered its own: the barrier is off, the colours are unswapped and the collector cannot go on |
| Objects.SizeToGroupIndex | rtalloc.c:37-47 | The class is the least one, from the minimum on, that holds the size |
| Objects.LeastFitIsLeast | rtalloc.c:37-47 | A class holds the size if and only if it is not below that one |
| Objects.AllocationGroup | rtalloc.c:274-302 | Rejects negative sizes and exactly those for which header, payload and, for described objects, the metadata word exceed the largest class; otherwise they fit the class returned and no smaller one from the minimum on |
| Objects.InitializeObject | rtalloc.c:305-328 | The metadata word survives the clearing of the body, and the rest of the body is zero; the storage class is the one the metadata argument stands for |
| Objects.ScanWithMetadata | rtgc.c:160-183 | Reads the metadata from the object's last word and then the word at each listed offset of each element that fits before it, counted from the start of that element, and no other word |
| Objects.ScanObject | rtgc.c:431-450 | By storage class: no word, every word of the body in order, what the foreign scanner reads, or the listed fields |
| Objects.InitializeThenScan | rtalloc.c:305-328 | An object initialized without pointers is not scanned, one with pointers in every word, a described one at its listed fields: the class written is the one the scanner acts on |
| Objects.ScanCoversTheElements | rtgc.c:160-183 | For an object allocated for n elements the scan reads every field of all n, and no word it reads overlaps the metadata word |
| InfoBits.PointerRoundTrip | info-bits.h:26-34 | A pointer stored in a link word is read back exactly when it is 16-byte aligned |
| InfoBits.InfoKeepsPointer | info-bits.h:36-49 | Setting the colour or the storage class leaves the pointer alone |
| InfoBits.LinkWordIsARecord | info-bits.h:26-49 | For aligned pointers and two info bits a link word is a record: each half is read as last written, and writes to the two halves commute |
| Refinement.EveryHeapShowsAColourMap | mem-internals.h:92-95 | The headers of all groups are those of one colour map: each header belongs to one group and has a number of its own |
| Refinement.MakeGrayRefines | rtgc.c:38-82 | Graying the header that TraceRoot, TraceSlot or ShadeHit is about is that step of the transition system |
| Refinement.ScannedRefines | rtgc.c:453-458 | The end of a scan is SlotsDone |
| Refinement.AllocateRefines | rtalloc.c:339-345 | Allocating from a free list is Alloc, enabled because the header is green |
| Refinement.CommitRefines | rtalloc.c:234-268 | Committing a block is Publish of objects that did not exist |
| Refinement.ReleaseRefines | rtcoalesce.c:134-183 | Giving an all-green block back is Unpublish |
| Refinement.CoalesceRefines | rtcoalesce.c:347-351 | Giving all unused blocks back at once is Unpublish of their objects, all of them green |
| Refinement.RecycleRefines | rtgc.c:541-587 | Recycling a group is a sequence of RecycleOne steps |
| Refinement.CycleCanEnd | rtgc.c:590-614 | EndCycle is enabled exactly when no header of any group is white |
| Simulation.EveryRunIsARun | rtgc.c:599-614 | Every run over headers and page table from the empty heap, each move being what a method's contract says or a step that touches no header, is a run of the transition system that passes through the states the headers show, in order; every property of its runs holds there |
| Simulation.NothingInUseIsGreen | rtgc.c:599-614 | In every state of such a run no header in use is on a free list, and every set bit is the bit of a header that is not green |
| Conformance.Start | rtalloc.c:50-66 | A new heap is where a run of one state is |
| Conformance.PerformAllocate | rtalloc.c:330-354 | On a heap that is where a run of the machine has got to, for a thread that is ready: Heap.Allocate makes the move Allocate, and the heap is where the longer run has got to, or there is no memory and nothing changes |
| Conformance.PerformFlip | rtgc.c:493-534 | The same for Heap.Flip whenever the flip is enabled: that no group has a gray or white object follows from the run |
| Conformance.PerformGray | rtgc.c:38-82 | The same for the white test and Group.MakeGray on what the collector is tracing; no cursor moves |
| Conformance.PerformPick | rtgc.c:469-475 | The object at the cursor of any group can be picked to be scanned next |
| Conformance.PerformScanned | rtgc.c:453-458 | When every slot of the object has been traced it still is at the cursor of its group, and Group.Scanned makes the move |
| Conformance.SweepMayBegin | rtgc.c:462-490 | The sweep of the write vector is enabled exactly when no group has a gray object left |
| Conformance.PerformRecycle | rtgc.c:541-587 | The same for Group.Recycle of any group while garbage is recycled |
| Conformance.PerformCoalesce | rtcoalesce.c:347-351 | The same for Heap.CoalesceAllFreePages, when no unused page lies just before a page in flight |
| Conformance.PerformControl | rtgc.c:599-614 | Every enabled step that touches no header, other than picking, leaves heap and run together |
| Conformance.PerformRecycling | rtgc.c:590-614 | recycle_all_garbage and the end of full_gc, move by move, are a stretch of a run that ends between two cycles with gc_count one higher |

## Left out

- ProtocolSafety.CycleIsExact: counts set bits as use.  The source would like a cycle to free all that no mutator can use any more; it does so exactly when the words and bits of the cycle lead to nothing else (ProtocolExact.FreesTheUnusableIff), and ProtocolWitness.StaleWordKeepsGarbage and ProtocolWitness.LateBitKeepsGarbage are runs in which garbage outlives a cycle.
- ProtocolSafety.TwoCyclesFreeAllGarbage: does not promise that the wait frees all garbage, which is false: ProtocolWitness.StaleWordKeepsGarbageForever is garbage that outlasts any number of cycles.  What the wait frees is decided by its last flip (ProtocolExact.LastFlipDecides).
- FullCycle.FullGc: no mutator runs during it; mutators are in Protocol, Simulation and Conformance.
- Simulation.EveryRunIsARun: allocation, flip, the recycling of one group and coalescing are each one move, as their locks make them; GroupRaces is finer for allocation and graying.
- ProtocolBounds.SweepBound: lets each late mark cost one more sweep, because the barrier's white test and its mark are two steps; with none late it is the bound (white at the flip) + 1.
- Handshake.EveryThreadSavedOnce: registers and stacks are the identity of the thread that saved them, not their words; signal delivery is a pending flag.
- Heaps.Heap.Allocate: returns NULL where the source waits for two cycles and tries again, or gives up; the wait is FullCycle.AllocateWaiting with no mutator running, and ProtocolSafety.TwoCyclesHoldAWholeOne and ProtocolExact.LastFlipDecides with any number of them.
- FullCycle.AllocateWaiting: the collector's two cycles are called where the source polls gc_count.
- Heaps.Heap.CoalesceAllFreePages: the allocation-race branch of identify_multiple_free_pages (rtcoalesce.c:174-181) is left out: it answers a block whose page-table entries are half written, and publishing is one step here.
- Conformance.PerformCoalesce: requires that no unused page lies just before a page in flight, since the source does not ensure it (PageTables.TakenPageIsSwallowed).
- ProtocolWindow.WindowLosesAnObject: the swap comes after all have saved; in the source it can come while some are still in their handlers, which does not matter to the window.
- Marking.ScanGraySet: no mutator runs during it; the interleaved scan is Protocol's, slot by slot.
- WriteVectors.WriteVector.ScanWriteVector: a word is a sequence of 64 bits; WriteVectors.OrSetsOneBit and WriteVectors.AndClearsOneBit say that the locked operations on machine words act on single bits.
- Layout.InteriorFindsItsObject: the address mask is written as rounding down to a multiple of the object size.
- Words in Protocol and Marking are given as the objects they resolve to; Layout.InteriorFindsItsObject and Layout.NearPointersRetain say which those are.
- Hole words kept in the empty pages themselves are arrays indexed by page, and a link word is a record of pointer, colour and class; InfoBits has the packing.
- Machine integer widths of sizes and counters, which the source does not check either.
- Atomic-GC mode, custom and root scanners, the "no write barrier" state word, static space, global-root registration: foreign or separate root sources, all covered by an arbitrary set of root words and global slots.
- memory_segment_write_barrier and its callers, and the byte-vector barrier: disabled or never reached code.
- The thread pool of rtalloc.c:475-519 and the finalizer ring of rtutil.c: nothing in the collector depends on them.
- Printing, timing, pause statistics, RTroom and verify_heap: diagnostics.
