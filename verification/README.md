# Verified models of a teaching kernel's core algorithms

This project models the parts of the kernel whose correctness rests on long chains of pointer surgery, arithmetic or
interleaving, and proves what they promise for every input and every run. Code that works in place is modelled in place:
objects whose fields are reassigned, arrays, and maps that stand for memory.

- **Thread tree** (`Rb*.dfy`, `Tids.dfy`). The red-black tree with parent pointers and a shared sentinel, on heap
  objects. A tree in memory is seen as a context around a focus, and each pointer step is a step of that view. Insertion,
  deletion (with the sentinel's parent as scratch), search, successor, node replacement, and the tid allocator on top.
- **64-bit division** (`Digits.dfy`, `Estimate.dfy`, `ProgramD.dfy`, `Shifts.dfy`, `Divide.dfy`). Knuth's Algorithm D in
  base 2^16 (The Art of Computer Programming, volume 2, section 4.3.1) on digit arrays with 32-bit wrap-around.
- **Physical pages** (`PageLayout.dfy`, `BinList.dfy`, `Pages.dfy`). Boundary tags, the end-of-chunk bitmap and nine
  cyclic bins inside the managed pages.
- **List memory manager** (`LmmBlocks.dfy`, `LmmCells.dfy`, `Alignment.dfy`, `Lmm.dfy`). Address-ordered free lists kept
  in the free memory: aligned and bounded allocation, freeing with coalescing, finding and removing free memory.
- **Shadow page tables** (`PageEntries.dfy`, `ShadowPages.dfy`, `ShadowAdjust.dfy`, `ShadowVm.dfy`, `ShadowBoot.dfy`,
  `ShadowRun.dfy`). A guest's boot directory, full translation of its two-level table, repair of one page, and a whole run
  of guest writes, adjustments, and directories that come and go by reference count. The hardware's walk is that of
  32-bit paging (Intel SDM volume 3A, sections 4.3 and 4.6).
- **The user heap** (`HeapTags.dfy`, `UserHeap.dfy`). Blocks with a header and a footer in the bytes they manage: first fit,
  splitting, coalescing, growing, and `_realloc` with its copy.
- **Blocking and scheduling** (`Seqs.dfy`, `Lists.dfy`, `Queues.dfy`, `ThreadQueues.dfy`, `Blocking.dfy`). Cyclic queues
  through links in their elements; hand-off mutexes, condition variables, deschedule and make_runnable, yield, sleep, on
  several processors; each section under a spinlock is one method.
- **Process families** (`Families.dfy`). Fork, exit with adoption by init, wait, how many waits can still begin, and which
  waiters may be asleep.
- **Sleep timers** (`HeapOrder.dfy`, `Timers.dfy`, `Sleeping.dfy`). The binary heap in a growing and shrinking vector, its
  draining, and the timer interrupt, which ties the heap to the scheduler.
- **Sorting** (`SortSpec.dfy`, `Qsort.dfy`). Bentley and McIlroy's quicksort on an array.
- **Numbers as text** (`Numerals.dfy`, `Parsing.dfy`, `RoundTrip.dfy`). The printer's numeric path and the two parsers.

`Words.dfy` holds 32-bit arithmetic and powers of two, `Wrappers.dfy` values that may be missing. `dafny verify
dfyconfig.toml` checks everything.

## What turned out not to hold

The code is modelled as it is; where it does not do what its callers may expect, the exact condition is proved.

- Adjusting one page agrees with a full translation exactly when the guest's directory entry does not alone keep users
  out of the page (`PageEntries.AdjustedAgrees`, `ShadowAdjust.AdjustedFresh`): the two functions test the user bit
  differently. `PageEntries.SupervisorEntry` is a case.
- With write protection off, the user shadow of a page is writable although the guest's directory entry forbids it; it
  agrees with the guest's walk exactly otherwise (`PageEntries.UserShadow`; a case is `PageEntries.ReadOnlyEntry`).
- A guest frame at exactly the memory limit is mapped to the frame after the guest's memory instead of the overflow frame
  (`PageEntries.MappedInside`; a case is `PageEntries.PageAtLimit`).
- A guest whose boot directory cannot be finished gives its frames back, but not the directory itself when there was no
  memory for the list node: only listed directories are destroyed (`ShadowRun.CreatePv`).
- A thread that is switched to itself keeps the status it got when it entered the ready queue, because the switch is
  skipped whole. `yield` to such a thread, by itself or from another processor, leaves it in two places; in every other
  case the invariants are kept (`Blocking.Kernel.YieldTo`, `Blocking.YieldStale`). `Blocking.YieldToSelf` is a run to it.
  Such a thread is on no queue when it is detached; its links point to itself, so that nothing else is harmed
  (`Queues.Detach`).
- A child that is dead may be left beside a waiter that sleeps, but only when a wait has faulted since the last waiter fell
  asleep: the fault keeps the child and passes no signal on (`Families.Justified`; a run is `Families.FaultStrands`).
- A sleep that reaches past tick 2^31 makes a negative key, which hides due sleepers behind it: after a drain somebody who
  is due is left exactly when, before it, there were a due sleeper with a key that is not negative and one with a
  negative key that was not due (`Timers.TimerHeap.CheckTimers`). `Timers.LongSleepHides` is a case.
- `lmm_alloc_gen` compares a 32-bit sum with the size of a block. When the requested address is less than 2^32 the
  comparison is right exactly when the sum is (`Lmm.SumTest`); otherwise a request may be let through that does not fit
  (`Lmm.SumWraps`). The kernel's own requests stay below (`Lmm.RoomEnough`, `Lmm.KernelPage`).
- `lmm_remove_free` starts at the first whole unit of the block, so that bytes before it stay free, and goes on to the end
  of the last unit (`Lmm.Lmm.RemoveFree`; `Lmm.UnalignedRemoval` is a run).
- `strtol` does not skip a plus sign, so a positive number printed with one reads back as 0 (`RoundTrip.SignedBack`), and
  `%#p` prints two prefixes, of which `strtoul` skips one (`RoundTrip.PointerBack`). `RoundTrip.SevenLost` shows both.
- The number buffer is said to be large enough for binary. It is for 32-bit numbers only; from base 4 on it is for 64-bit
  numbers too (`Numerals.BufferFits`, `Numerals.BinaryTooLong`).
- After the tid counter wraps, `alloc_tid` hands out the idle threads' number, which is never in the tree, exactly when the
  search comes to it: `Tids.Threads.AllocTid` says when, and `Tids.WrapAround` is a run. It never hands out a number that
  is in the tree.
- `_malloc` computes the block size in 32 bits, so the block has room for the request exactly up to 2^32 - 32 bytes
  (`UserHeap.RequestFits`, `UserHeap.TooLarge`). Past that it gives out a live block of 16 bytes without a payload, or, when
  the size wraps to 0, a pointer into a block that stays free; then the heap is in order exactly when that is the first
  block, as the footer before it is overwritten (`UserHeap.Heap.Malloc`).

## Model

| member | source | states |
|---|---|---|
| RbShape.PlugRb | kern/common.c:215-253 | a red-black subtree of the height and colour that its surroundings need makes the whole tree red-black again |
| RbShape.Locate | kern/common.c:370-372 | every node of a valid tree has a place, with surroundings and a subtree that fit each other |
| RbRotate.RotateLeft | kern/common.c:169-185 | the pointers describe the rotated tree in the same place and every other cell is unchanged |
| RbRotate.RotateRight | kern/common.c:192-208 | the mirror image |
| RbInsert.Fixup | kern/common.c:215-253 | a tree that is red-black but for one red node below a red one becomes a valid tree with the same nodes |
| RbInsert.Insert | kern/common.c:255-272 | inserting a fresh key keeps the tree sorted, red-black and correctly linked and adds exactly that node |
| RbDelete.DeleteFixup | kern/common.c:315-368 | a subtree one black short of its surroundings is repaired, whichever side it hangs on and whether or not it is the sentinel |
| RbDelete.DeleteInner | kern/common.c:379-397 | a node with two children is replaced by its successor and the tree repaired |
| RbDelete.Delete | kern/common.c:370-398 | deleting any node leaves a valid tree of exactly the other nodes; of the sentinel only the parent is used as scratch, its colour and children end as they were |
| RbShortLeft.Step | kern/common.c:317-340 | one round of the repair on the left: it ends, or the shortage moves one level up |
| RbShortRight.Step | kern/common.c:341-364 | one round on the right |
| RbQuery.RbSize | kern/common.c:215-253 | a tree of black height h has at least 2^h - 1 nodes |
| RbQuery.Find | kern/common.c:153-162 | the search answers membership and takes at most 2 log2(n + 1) rounds |
| RbQuery.MinOf | kern/common.c:291-296 | the least node, or the sentinel when there is none |
| RbQuery.Next | kern/common.c:298-308 | the node with the next larger key, or the sentinel when there is none |
| RbSwap.Swap | kern/sched.c:620-638 | a node with the same key takes a node's place, the tree stays valid, and the old node gets the mark of a node outside the tree |
| RbSwap.Unmarked | kern/sched.c:687-689 | no node in the tree carries that mark |
| Tids.Threads.AllocTid | kern/sched.c:384-422 | the id handed out is in no window and not in the tree, and when it is the idle threads' one; the panic comes exactly when all ids from the least used one to 2^31 - 1 are used |
| Tids.Threads.FindGap | kern/sched.c:389-419 | the gap scan ends and finds the lowest ids above the least used one that are not in the tree, exactly when there is a gap, and when it stops at the idle threads' id |
| Tids.WrapAround | kern/sched.c:384-422 | a run in which a thread gets the idle threads' id |
| Tids.GapNotFull | kern/sched.c:396-417 | a gap shows that the ids are not contiguous up to the largest |
| Tids.Threads.Spawn | kern/sched.c:384-422 | allocating an id and adding its thread keeps every used id out of the window of unused ones |
| Tids.Threads.Remove | kern/sched.c:807-811 | removing a thread keeps it too |
| Digits.ValConcat | 410kern/misc/gccisms.c:55-73 | the number that a digit string stands for, cut anywhere |
| Estimate.TestFails | 410kern/misc/gccisms.c:217-231 | a guess that the three-digit test turns down is too large |
| Estimate.TestHolds | 410kern/misc/gccisms.c:217-231 | a guess that the test accepts is at most one too large |
| Estimate.QHat | 410kern/misc/gccisms.c:207-232 | the estimated digit is right or one too large, after at most two corrections |
| ProgramD.DifferenceVal | 410kern/misc/gccisms.c:233-245 | the digits and the borrow of the multiply-and-subtract loop are worth the difference, no 32-bit product or sum losing bits |
| ProgramD.SumVal | 410kern/misc/gccisms.c:253-259 | the digits and the carry of the add-back loop are worth the sum |
| ProgramD.Subtract | 410kern/misc/gccisms.c:233-252 | the window loses the product; the upper half of t tells whether it wrapped |
| ProgramD.AddBack | 410kern/misc/gccisms.c:252-260 | adding the divisor once makes a wrapped window the remainder |
| ProgramD.QuotientDigit | 410kern/misc/gccisms.c:206-261 | one round yields a quotient digit and leaves the remainder in the window, with one add-back at most |
| Shifts.LeftVal | 410kern/misc/gccisms.c:291-299 | shifted digits are worth the number times a power of two |
| Shifts.RightVal | 410kern/misc/gccisms.c:268-275 | digits shifted back are worth the number divided by it, but for the bits lost |
| Shifts.Shl | 410kern/misc/gccisms.c:291-299 | the in-place shift loop computes the shifted digits |
| Divide.ShortDivision | 410kern/misc/gccisms.c:142-170 | division by one digit, unrolled |
| Divide.MainLoop | 410kern/misc/gccisms.c:198-262 | after all rounds the quotient digits and the remainder are those of the normalised numbers |
| Divide.Normalise | 410kern/misc/gccisms.c:188-196 | dividend and divisor are multiplied by the same power of two, the divisor's first digit reaches B/2 |
| Divide.Remainder | 410kern/misc/gccisms.c:263-278 | the remainder of the original numbers is the unshifted rest |
| Divide.QDivRem | 410kern/misc/gccisms.c:90-283 | for every 64-bit u and v the result is u / v and u % v, and a trap exactly for v = 0 |
| Divide.UDivDi3 | 410kern/misc/gccisms.c:318-322 | unsigned division |
| Divide.SignedQuotient | 410kern/misc/gccisms.c:329-346 | the sign put back modulo 2^64 is right for all but the one quotient that does not fit |
| Divide.TruncatedMeans | 410kern/misc/gccisms.c:329-346 | a truncated quotient leaves a remainder that is smaller than the divisor and has the sign of the dividend |
| Divide.DivDi3 | 410kern/misc/gccisms.c:329-346 | signed division truncates toward zero, modulo 2^64 |
| Pages.FindBin | kern/mm.c:100-111 | the bin of a size is the position of its highest bit, at most the last bin |
| Pages.LowerBin | kern/mm.c:147-160 | a chunk in a lower bin is too small |
| PageLayout.RunInChunk | kern/mm.c:162-196 | free pages in a row lie in one free chunk, as free chunks never touch |
| PageLayout.ReleasedPages | kern/mm.c:162-196 | merging frees the chunk's pages and no others |
| PageLayout.ReleasedChained | kern/mm.c:162-196 | after merging with both neighbours each chunk still ends where the next one starts |
| PageLayout.Partition | kern/mm.c:134-317 | every page is free or allocated, never both |
| PageLayout.LiveApart | kern/mm.c:147-160 | allocated ranges do not overlap |
| BinList.Inserted | kern/mm.c:215-235 | the relinked heads form the cyclic list with the chunk in front |
| BinList.Deleted | kern/mm.c:242-257 | the relinked heads form the cyclic list without the chunk |
| Pages.ReleasedTagged | kern/mm.c:190-196 | bits and sizes at the ends of the merged chunk are all that needs writing; stale bits inside do not matter |
| Pages.PageAllocator.constructor | kern/mm.c:134-145 | all pages are free in one chunk |
| Pages.PageAllocator.BinInsert | kern/mm.c:215-235 | the bins file exactly the chunks before and the new one |
| Pages.PageAllocator.BinDelete | kern/mm.c:242-257 | the bins file exactly the other chunks |
| Pages.PageAllocator.AllocFromBin | kern/mm.c:284-317 | a large enough chunk of the bin, its rest filed again, or none is large enough |
| Pages.PageAllocator.AllocUserPages | kern/mm.c:147-160 | fails exactly when there are not n free pages in a row; otherwise exactly those pages become one allocated range |
| Pages.PageAllocator.FreeUserPages | kern/mm.c:162-196 | exactly the range's pages become free, merged with free neighbours, all invariants kept |
| Pages.PageAllocator.Scribble | kern/mm.c:24-34 | what owners write into allocated pages does not affect the allocator |
| LmmBlocks.Canonical | 410kern/lmm/lmm_free.c:57-108 | a set of free bytes has only one ascending list of blocks with gaps between them |
| LmmBlocks.OneBlock | 410kern/lmm/lmm_alloc_gen.c:57-96 | consecutive free bytes lie in one block |
| LmmBlocks.CutHas | 410kern/lmm/lmm_alloc_gen.c:98-139 | the two-sided split removes exactly the bytes taken |
| LmmBlocks.AddedHas | 410kern/lmm/lmm_free.c:63-107 | inserting with coalescing on both sides adds exactly the bytes given back |
| LmmCells.Spliced | 410kern/lmm/lmm_alloc_gen.c:98-135 | the linked cells list the blocks after some of them are replaced |
| Alignment.AlignUp | 410kern/lmm/lmm_alloc_gen.c:75-85 | the loop over the bits finds the least address with the low bits asked for |
| Lmm.Candidate | 410kern/lmm/lmm_alloc_gen.c:87-96 | the first candidate decides about its block, and past the upper bound about all later ones |
| Lmm.FlagsMean | 410kern/lmm/lmm_alloc_gen.c:51 | a region is eligible exactly when it has all of the flags asked for |
| Lmm.WholeUnits | 410kern/lmm/lmm_free.c:30-38 | units are the next multiples of 8 below and above |
| Lmm.FirstIsLowest | 410kern/lmm/lmm_alloc_gen.c:57-96 | the first candidate in the first suitable block is the lowest address that would do |
| Lmm.Lmm.FindIn | 410kern/lmm/lmm_alloc_gen.c:57-96 | the first block of a region that can give what is asked for, or none can |
| Lmm.Lmm.FindRegion | 410kern/lmm/lmm_alloc_gen.c:42-148 | the first region with the flags and a suitable block |
| Lmm.Lmm.AllocGen | 410kern/lmm/lmm_alloc_gen.c:27-155 | the address has the low bits and lies within the bounds, and no lower one in its region would do; only its whole units leave the free list; failure means that no eligible region has such bytes |
| Lmm.SumTest | 410kern/lmm/lmm_alloc_gen.c:87-91 | the 32-bit comparison of the sum with the block's size is right exactly when the sum does not wrap |
| Lmm.RoomEnough | 410kern/lmm/lmm_alloc_gen.c:60-91 | it is right for every request that leaves room for its size and alignment above the lower bound |
| Lmm.KernelManager | 410kern/boot/util_lmm.c:80-88 | the kernel's three regions, from address 0 and up to 2^32 - 8, hold after the removals exactly the memory from 1 MB to 16 MB |
| Lmm.KernelPage | kern/paging.c:35-39 | that manager gives out an aligned page of it |
| Lmm.Lmm.FreeIn | 410kern/lmm/lmm_free.c:53-107 | the region's list is again the list of maximal free blocks and its counter their total |
| Lmm.Lmm.Free | 410kern/lmm/lmm_free.c:27-108 | exactly the block's units become free, in its region |
| Lmm.Restored | 410kern/lmm/lmm_free.c:27-108 | freeing what was allocated restores the list exactly |
| Lmm.Lmm.TakeAndReturn | 410kern/lmm/lmm_free.c:27-108 | an allocation that is freed again leaves every region's list as it was |
| Lmm.Lmm.FindFree | 410kern/lmm/lmm_find_free.c:27-74 | the lowest free address from the next unit on in any region, and how far it goes |
| Lmm.Lmm.RemoveFree | 410kern/lmm/lmm_remove_free.c:27-49 | exactly the bytes from the block's first whole unit to the end of its last unit leave the free lists |
| Lmm.UnalignedRemoval | 410kern/lmm/lmm_remove_free.c:27-49 | a run after which the second half of the block's first unit is still free |
| UserHeap.RequestFits | 410user/libmalloc/malloc.c:224 | the block size has room for the request, a header and a footer exactly up to the bound |
| UserHeap.AsizeInBytes | 410user/libmalloc/malloc.c:224-231 | the block size and the growth in bytes |
| UserHeap.Heap.FindFit | 410user/libmalloc/malloc.c:451-465 | the first free block that is large enough, or there is none |
| UserHeap.Heap.Place | 410user/libmalloc/malloc.c:425-445 | the block is live; the rest is a free block unless it would be too small; no payload changes; with a size of 0 the block stays free and the heap is in order exactly when it is the first |
| UserHeap.Heap.Coalesce | 410user/libmalloc/malloc.c:378-416 | the tags next to the block decide the four cases, and it is merged with exactly its free neighbours |
| UserHeap.ReleasedTagged | 410user/libmalloc/malloc.c:378-416 | the outer two tags of the merged block are all that needs writing |
| UserHeap.Heap.ExtendHeap | 410user/libmalloc/malloc.c:350-371 | the new units are a free block, merged with one before them, behind the new last header |
| UserHeap.Heap.Malloc | 410user/libmalloc/malloc.c:202-245 | a request takes itself rounded up to 16 and 16 bytes more, from the first free block that has as many, split unless the rest would be too small; when none has, the heap grows by exactly the larger of that and 4096, and the result is null exactly for 0 bytes or when this is not granted, reaches 2^31 or passes the limit; all payloads are as they were |
| UserHeap.Heap.Free | 410user/libmalloc/malloc.c:251-266 | one live block less, the other payloads as they were |
| UserHeap.Heap.Realloc | 410user/libmalloc/malloc.c:276-315 | the new block is what an allocation gives and begins with the old payload, as much of it as there is and as was asked for; the old block is freed, or on failure untouched |
| UserHeap.Heap.Store | 410user/libmalloc/malloc.c:37-43 | what a client writes into its payload affects no tag and no other payload |
| HeapTags.BytesBack | 410user/libmalloc/malloc.c:544-559 | a word written as bytes reads back |
| HeapTags.EndWords | 410user/libmalloc/malloc.c:544-559 | both ends of a block hold its size in bytes, and 1 more when it is live |
| PageEntries.KernelShadow | kern/hvcall.c:406-437 | an access through the kernel shadow meets what the guest maps, always writable when wp is 0 |
| PageEntries.UserShadow | kern/hvcall.c:424-437 | an access through the user shadow meets the pages both levels give to users; exactly when it also agrees on writing |
| PageEntries.TableEntryBits | kern/hvcall.c:406-437 | of a shadow's table entry bits 9 to 11 are the guest's and bits 3 to 8 are 0; an absent one is 0 |
| PageEntries.DirectoryEntryBits | kern/hvcall.c:450-456 | of a shadow's directory entry bits 8 to 11 are the guest's and bits 3 to 7 are 0 |
| PageEntries.AdjustedAgrees | kern/hvcall.c:425-430 | when the adjusted entry equals the translated one |
| PageEntries.MappedInside | kern/hvcall.c:406-412 | exactly the frames below the limit are mapped inside the guest's memory |
| PageEntries.SupervisorEntry | kern/hvcall.c:425-430 | entries for which adjusting and translating differ |
| PageEntries.ReadOnlyEntry | kern/hvcall.c:424-437 | entries for which the user shadow is writable and the guest's page is not |
| PageEntries.PageAtLimit | kern/hvcall.c:406-412 | a frame that is mapped to the host's page after the guest's memory |
| ShadowPages.FreshWalk | kern/hvcall.c:337-470 | walking the shadows of a fresh page is walking the guest's tables; the bits that the walk does not read are the guest's or 0 as well |
| ShadowPages.TablePlace | kern/hvcall.c:386-399 | the guest's table is read where its memory has the frame that the entry names |
| ShadowPages.BuiltMore | kern/hvcall.c:386-457 | one more directory entry is translated without harm to the others |
| ShadowVm.Vm.FillTables | kern/hvcall.c:399-437 | both tables translate the guest's table entry by entry |
| ShadowVm.Vm.FillDirectories | kern/hvcall.c:386-457 | the translation goes through exactly when all tables lie in the guest and there are enough frames |
| ShadowVm.Vm.Translate | kern/hvcall.c:337-486 | success owns two directories and two tables per present entry, all pages fresh; failure gives every frame back; which of the two is decided exactly |
| ShadowVm.Vm.DestroyPd | kern/sched.c:370-382 | a directory and each of its tables are given back once |
| ShadowVm.Vm.Adjust | kern/hvcall.c:488-609 | the page is fresh again unless its directory entry alone keeps users out, all other fresh pages stay fresh, and frames are neither lost nor shared |
| ShadowAdjust.AdjustedFresh | kern/hvcall.c:535-594 | when an adjusted page holds what a translation would build now |
| ShadowAdjust.OtherEntryFresh | kern/hvcall.c:535-594 | pages of other directory entries are not disturbed |
| ShadowAdjust.SameEntryFresh | kern/hvcall.c:535-594 | nor are other pages of the same entry |
| ShadowAdjust.HeldDrop | kern/hvcall.c:511-526 | dropping a table keeps the shadow's frames its own |
| ShadowRun.WriteElsewhere | kern/hvcall.c:337-470 | a guest write that a page's walk does not read leaves the page fresh |
| ShadowBoot.BootWalk | kern/pv.c:45-66 | in a boot directory the guest's pages are its memory's pages in order, and there are no others; no entry has other bits than present, writable and user |
| ShadowBoot.CreateBoot | kern/pv.c:33-74 | the directory and its tables are built and the memory cleared exactly when there are enough frames for the tables |
| ShadowRun.CreatePv | kern/pv.c:76-178 | a started guest owns the boot directory's frames, referenced once; otherwise which frames are back |
| ShadowRun.Pv.constructor | kern/pv.c:38-43 | a guest starts with the boot directory, referenced once |
| ShadowRun.Pv.GuestWrite | kern/hvcall.c:488-609 | over any run only the pages whose walk reads a written word may be stale |
| ShadowRun.Pv.AdjustPage | kern/hvcall.c:488-609 | adjusting keeps the run's invariants and takes the page off the stale ones |
| ShadowRun.SwitchedCounted | kern/pv.c:212-228 | after a switch every listed directory still has a reference |
| ShadowRun.Pv.Select | kern/pv.c:212-228 | the directory before goes, with exactly its frames, exactly when its last reference does; any listed directory, the active one as well, may be switched to |
| ShadowRun.Pv.SetPd | kern/hvcall.c:301-330 | the new directory is active with one reference and no stale page |
| ShadowRun.Pv.RefPd | kern/hvcall.c:766-769 | one more reference to the active directory |
| ShadowRun.Pv.UnrefPd | kern/hvcall.c:770-775 | one less, and the end of a guest that drops the last one |
| ShadowRun.Pv.DestroyPv | kern/pv.c:180-195 | every frame of the guest's directories is free again |
| Queues.InsertHead | kern/common.c:12-22 | the relinked cycle holds the element in front of the others |
| Queues.InsertTail | kern/common.c:24-34 | the relinked cycle holds the element after the others |
| Queues.RemoveHead | kern/common.c:36-46 | the first element is taken off the cycle; the last one's links then point to itself |
| Queues.RemoveTail | kern/common.c:48-57 | the last element is taken off the cycle |
| Queues.Detach | kern/common.c:59-69 | any element is taken off the cycle, the only one and the first one included; one that is not on it and whose links point to itself changes nothing |
| ThreadQueues.Fifo | kern/sync.c:15-48 | the waiter at place k owns the mutex after exactly k + 1 unlocks, whatever else happens |
| ThreadQueues.SignalOrder | kern/sync.c:50-78 | signals wake waiters in the order in which they joined, none skipped or lost |
| ThreadQueues.NeverMissed | kern/sync.c:50-78 | a thread that has joined behind k others is woken by the signal number k + 1 after that, and waits until then |
| Blocking.Kernel.Reschedule | kern/sched.c:567-594 | the head of the ready queue runs next, and a thread switched to itself keeps its status |
| Blocking.PutSwitches | kern/sched.c:567-594 | a processor whose thread goes elsewhere turns to the first ready thread, or idles when there is none; the others run what they ran |
| Blocking.Kernel.MutexLock | kern/sync.c:15-32 | the mutex is the thread's, or the thread is its last waiter and the first ready thread runs |
| Blocking.Kernel.MutexUnlock | kern/sync.c:34-48 | ownership goes to the first waiter, who is put in front of all who were ready; without waiters the mutex is free |
| Blocking.Kernel.CvEnter | kern/sync.c:50-54 | the thread joins the variable's queue, before it releases the mutex |
| Blocking.Kernel.CvLeave | kern/sync.c:56-59 | the guard is released only once another thread runs |
| Blocking.Kernel.CvSignal | kern/sync.c:66-78 | the variable's first waiter is woken and put in front of all who were ready, and no other queue changes |
| Blocking.FirstRunsNext | kern/sync.c:34-78 | a thread that was put first is the one that runs on whichever processor a thread is chosen next, wherever the one before goes |
| Blocking.Kernel.Deschedule | kern/syscall_thread.c:92-117 | the thread stops unless it was told not to |
| Blocking.Kernel.MakeRunnable | kern/syscall_thread.c:123-153 | exactly a descheduled thread becomes ready, behind all others |
| Blocking.Kernel.YieldAny | kern/syscall_thread.c:169-176 | the first of those who were ready and, behind them, the yielding thread runs, and the rest stay ready in this order |
| Blocking.YieldTarget | kern/syscall_thread.c:187-208 | who runs and who is ready, in which order, after a thread yields to another one |
| Blocking.StatusMeans | kern/syscall_thread.c:187-204 | a thread counts as running or ready exactly when it runs or is in the ready queue |
| Blocking.YieldStale | kern/syscall_thread.c:187-208 | yielding to a running thread that counts as ready, which is on no queue and whose links point to itself, leaves it in two places |
| Blocking.YieldToSelf | kern/syscall_thread.c:187-208 | a run that comes to that case |
| Blocking.Kernel.YieldTo | kern/syscall_thread.c:167-209 | a ready thread that is named runs, the others stay ready in their order with the yielding thread behind them; for a running one the first ready thread runs, or nobody; the result code tells where the thread was; the invariants are kept in all cases but one |
| Blocking.Kernel.Sleep | kern/syscall_process.c:365-388 | the thread sleeps, or the call is refused |
| Sleeping.Clock.Sleep | kern/syscall_process.c:365-388 | the heap gains a node for exactly the thread that joins the sleepers; it will wake in time exactly when its tick is before 2^31 |
| Sleeping.Clock.Tick | kern/timer.c:85-104 | the due sleepers become ready in the order of their keys and the heap still holds exactly the sleepers; once every sleeper's tick is yet to come that remains so, and each wakes exactly at its tick |
| Sleeping.Clock.Interrupt | kern/timer.c:101-113 | after the tick the interrupted thread waits behind those that woke, and the head of the ready queue runs |
| Sleeping.RousedReady | kern/timer.c:92-96 | those who wake come after those who were ready, in their order, and the other queues stay as they are |
| Sleeping.WhoIsLeft | kern/timer.c:88-99 | when somebody who is due sleeps on, in terms of the sleepers' keys |
| Blocking.Kernel.Exit | kern/sched.c:738-763 | the thread is gone, and the mutexes that it owned belong to the clean-up after it |
| Blocking.Kernel.Vanish | kern/sched.c:739-772 | a mutex that an exiting thread owns, as the allocator's, goes to its first waiter all the same |
| Blocking.OnePlace | kern/sync.c:15-78 | every thread is in exactly one place and its status says which, but for a thread switched to itself |
| Families.Processes.Fork | kern/syscall_process.c:53-105 | one more live child, on one list and counted, whatever ids other processes have |
| Families.Processes.WaitBegin | kern/syscall_process.c:320-327 | refused exactly when every child has somebody waiting for it |
| Families.Processes.WaitBlock | kern/syscall_process.c:331-333 | a waiter that sees no dead child falls asleep, and the run's invariants are kept |
| Families.Justified | kern/syscall_process.c:329-343 | in every state of a run: with no fault since the last waiter fell asleep, waiters sleep only while each dead child has a waiter awake to collect it |
| Families.FaultStrands | kern/syscall_process.c:338-343 | a run in which a waiter sleeps on beside a dead child |
| Families.Processes.WaitEnd | kern/syscall_process.c:331-348 | the first dead child is collected, its id returned, and counted off, or it stays when its status cannot be delivered; every exit of a child is collected once or still waits to be |
| Families.Balance | kern/syscall_process.c:310-359 | over any run, the children nobody waits for are those before and those gained, less those a wait began for and those dropped |
| Families.Pigeonhole | kern/syscall_process.c:321-327 | after a refusal at most as many waits begin as children are gained; without any gained, every later wait is refused and no child is left over |
| Families.Adopted | kern/sched.c:700-719 | one adoption keeps all lists and counts right |
| Families.Processes.Exit | kern/sched.c:696-754 | the children go behind those of init, on the same kind of list, none lost; the process goes to the end of its parent's dead children; one waiter is woken for each dead child, as far as there are any |
| Families.Processes.Reclaim | kern/sched.c:648-666 | init's dead children are dropped and counted off |
| HeapOrder.RootLeast | kern/common.c:95-97 | the root has the least key |
| HeapOrder.Raise | kern/common.c:80-91 | one step up keeps all other pairs in order |
| HeapOrder.Sink | kern/common.c:109-143 | one step down keeps all other pairs in order |
| Timers.TimerHeap.Push | kern/common.c:417-431 | the vector doubles when it is full, and keeps its contents |
| Timers.TimerHeap.Pop | kern/common.c:437-457 | the vector halves when it is less than a third full, unless that makes it too small |
| Timers.TimerHeap.Insert | kern/common.c:75-93 | the heap has one node more, or there was no memory to grow |
| Timers.TimerHeap.HeapPop | kern/common.c:99-144 | the heap loses exactly its root, through shrinking as well |
| Timers.TimerHeap.Sleep | kern/syscall_process.c:371-380 | the sleeper's key is the wrapped sum |
| Timers.TimerHeap.CheckTimers | kern/timer.c:85-99 | threads are woken in ascending order of keys, all of them due, the rest is the heap that remains, and exactly when somebody who is due remains |
| Timers.Drained | kern/timer.c:88-99 | when a drain leaves somebody who is due, in terms of the heap before it; with no negative keys it wakes exactly those who are due |
| Timers.InTime | kern/timer.c:88-91 | a sleeper whose sum does not wrap is due exactly from its tick on |
| Timers.SleepKeys | kern/syscall_process.c:371-380 | a sleeper's key is negative exactly when its tick is past 2^31 |
| Timers.LongSleepHides | kern/timer.c:88-91 | a sleep past tick 2^31 hides a due sleeper |
| SortSpec.Kept | 410kern/stdlib/qsort.c:162-167 | a permuted stretch holds the same elements |
| Qsort.Med3 | 410kern/stdlib/qsort.c:80-89 | one of the three places, with the middle element |
| Qsort.VecSwap | 410kern/stdlib/qsort.c:69-77 | two blocks are exchanged |
| Qsort.InsertionSort | 410kern/stdlib/qsort.c:104-110 | the stretch is sorted and permuted |
| Qsort.Partition | 410kern/stdlib/qsort.c:121-143 | equal elements at both ends, smaller and larger ones between them |
| Qsort.Gathered | 410kern/stdlib/qsort.c:152-156 | the two block swaps bring the equal elements into the middle |
| Qsort.Qsort | 410kern/stdlib/qsort.c:90-170 | for any total preorder the stretch ends sorted and permuted and nothing else changes |
| Numerals.PrintNum | 410kern/stdio/doprnt.c:582-635 | blanks, sign, prefix, zeros and digits, as the flags and the width ask, in every base whose digits fit the buffer |
| Numerals.DigitsAt | 410kern/stdio/doprnt.c:586-604 | each place of the text holds the character of its digit, in lower case or in upper case as asked for |
| Numerals.NoLeadingZero | 410kern/stdio/doprnt.c:601-604 | only zero begins with a zero digit |
| Numerals.RenderedCases | 410kern/stdio/doprnt.c:594-635 | sign, prefix and digits; in a wider field zeros before the digits, or blanks after them, or blanks before it all |
| Numerals.RenderedLength | 410kern/stdio/doprnt.c:606-612 | the text is as long as the wider of field and number |
| Numerals.DigitsLength | 410kern/stdio/doprnt.c:601-604 | a number has at most k digits exactly when it is less than the base to the power of k |
| Numerals.BufferFits | 410kern/stdio/doprnt.c:584-604 | when the digits fit the buffer |
| Parsing.Strtol | 410kern/stdlib/strtol.c:26-67 | white space, a minus, a prefix and digits, in 32-bit arithmetic |
| Parsing.Strtoul | 410kern/stdlib/strtoul.c:26-61 | the same without a sign |
| Parsing.StripSpace | 410kern/stdlib/strtol.c:31-32 | white space is skipped, all of it and nothing else |
| Parsing.SpaceMeans | 410kern/stdlib/strtol.c:31-32 | which characters are white space |
| Parsing.DigitMeans | 410kern/stdlib/strtol.c:52-60 | a digit is a decimal digit or a letter in either case that is worth less than the base |
| Parsing.DigitsEnd | 410kern/stdlib/strtol.c:50-64 | reading stops at the first character that is no digit |
| Parsing.ValueMore | 410kern/stdlib/strtol.c:50-64 | what is before a digit counts base times |
| Parsing.BaseZero | 410kern/stdlib/strtol.c:37-49 | with base 0 a number is hexadecimal after 0x, otherwise octal after a 0, otherwise decimal |
| Parsing.Twelve | 410kern/stdlib/strtol.c:37-49 | twelve in the three ways |
| RoundTrip.DigitsBack | 410kern/stdio/doprnt.c:601-604 | the digits of a number are worth the number |
| RoundTrip.SignedBack | 410kern/stdlib/strtol.c:26-67 | a signed decimal of any width and flags reads back as the number, exactly unless a plus sign was printed before a positive one |
| RoundTrip.UnsignedBack | 410kern/stdlib/strtoul.c:26-61 | octal and hexadecimal numbers read back with and without prefix |
| RoundTrip.PointerBack | 410kern/stdlib/strtoul.c:26-61 | so do pointers, exactly unless a second prefix was asked for |
| RoundTrip.SevenLost | 410kern/stdlib/strtol.c:26-67 | a signed number and a pointer that do not read back |

## Left out

- Keys of tree nodes are constant: the kernel sets them before linking (kern/sched.c:233) and copies them in a replacement.
- RbSwap.Swap: the null parent that marks a node outside the tree is modelled as a node that is its own parent.
- Locks around the tree, the page allocator and the list memory manager: their methods are single-threaded.
- Pages.PageAllocator.AllocUserPages: addresses are page numbers and the null address is -1; the bitmap has N + 2 bits, while
  the kernel allocates floor((N + 2) / 8) bytes for it (kern/mm.c:137).
- Pages.PageAllocator.FreeUserPages: takes back whole allocated ranges only; the kernel trusts its callers with this.
- Divide.QDivRem: the deliberate division by zero is a Trap result.
- Lmm.Lmm.AllocGen: asks that the sums it compares stay below 2^32 in the regions it looks into (`Lmm.Lmm.NoWrap`), as
  past that it lets requests through that do not fit. Sizes of 0 and null arguments are assertion failures in the original
  and not modelled.
- Lmm.Lmm.FindRegion: asks for the same.
- Lmm.Lmm.FindIn: asks for the same of its region.
- Lmm.KernelManager: is for a machine of 128 MB, and the kernel's image is left out of account.
- Lmm.Lmm.RemoveFree: asks that the block starts at 2^32 - 8 or before and ends below 2^32: past that the rounding wraps.
- Lmm.Lmm.Free: takes a block that lies in one region, is not free and does not begin in the unit at address 0, as the
  original's assertions demand.
- `lmm_alloc`, `lmm_alloc_aligned`, `lmm_alloc_page` and the setup functions of the list memory manager are simpler than
  what is modelled.
- ShadowRun.CreatePv: the host's memory for the guest is given, and reading the program file into it is not modelled.
- ShadowRun.Pv.constructor: takes a boot directory that `ShadowBoot.CreateBoot` has built.
- ShadowRun.Pv.AdjustPage: is for directories that the guest has set; the boot directory has no guest directory to adjust from.
- `hvcall_loadpd` frees list entries while it searches (kern/hvcall.c:778-797) and is not modelled; hypercall argument copying,
  interrupt injection, mode switches and TLB invalidation are not either.
- Guest pages are numbered by directory and table index; the bits of an entry are separate fields, joined by addition.
- Blocking.Kernel.MutexUnlock: only the owner unlocks, which is the callers' obligation; the unlock in `sys_exec_real`
  (kern/syscall_process.c:223) is not modelled.
- Blocking.Kernel.Exit: the memory that the clean-up frees is not modelled, and interrupts may come before it unlocks.
- `yield_to_spl_unlock` and the spinlocks are atomic; sections under different spinlocks interleave, sections under one do not.
- Families.Processes.Exit: adoption and death are one step; fork's memory copy, exit statuses and exec are not modelled.
- Qsort.Qsort: an element is one array cell; the choice between word and byte swaps by element size is not modelled.
- Numerals.PrintNum: asks for a base from 2 to 16, as there are 16 digit characters, and for a number whose digits fit the
  buffer; the parsing of the format string, the non-numeric conversions and `_doprnt_truncates` are not modelled.
- Parsing.Strtol: reading stops at the end of the sequence as the original stops at the NUL.
- UserHeap.Heap.Malloc: the heap's first 16 bytes are taken to be granted; `mem_sbrk` succeeds or not as the caller says
  and the limit allows; nothing is said of a heap that a request of more than 2^32 - 32 bytes has left in disorder.
- UserHeap.Heap.Realloc: a request of more than 2^32 - 32 bytes must come with a null pointer or find no block. Otherwise
  the new block has no room (`UserHeap.Heap.Malloc`), and the copy runs over what follows it, which is not modelled.
- UserHeap.Heap.Free: takes a pointer that was handed out and not freed since, or null, as the original trusts its callers.
- `_calloc` and the debugging checks of the user heap.
- `user/libthread`, drivers, loading, start-up and the console.
