# Verified models of a small x86 kernel

A Dafny model of the core of a Pintos-style kernel: its scheduler and synchronisation
primitives, linked lists and their merge sort, 64-bit division, memory allocators,
paging, file system, hash table, heap sort, and archive headers. `dafny verify dfyconfig.toml`
covers all files; none needs anything outside this directory.

| files | what they model |
|---|---|
| `KernelState`, `KernelInvariant`, `KernelRuns`, `KernelTheorems`, `KernelWaits`, `KernelWakeups` | threads, semaphores, locks and condition variables as a transition system over arbitrary interleavings |
| `MergeSpec`, `KernelList` | doubly linked lists with sentinels and the in-place natural merge sort |
| `Arithmetic` | 64-bit division built from a 64-by-32-bit divide instruction |
| `Bitmaps`, `Palloc`, `Malloc` | word-packed bitmaps, the page allocator over them, and the block allocator over that, down to the bytes of memory |
| `Pagedir`, `Swap`, `SecondChance`, `PagingState`, `PagingInvariant`, `PagingTheorems`, `PagingProgress` | two-level page directories, swap slots, the choice of a frame to evict, and paging as a transition system |
| `FileSystem`, `InodeIO`, `BlockDevice` | ownership of sectors by inodes, and byte-level file access through whole sectors |
| `HashTable` | the chained hash table with its bit tricks |
| `Octal`, `Ustar` | printing of integers, octal fields, and the headers of the ustar interchange format (pax utility, IEEE Std 1003.1-2001) |
| `HeapSort` | one-based in-place heap sort and binary search |
| `Basics` | notions shared by all parts |

## How the code is modelled

**Concurrency.** A region that runs with interrupts off is one step of the thread machine;
everything else interleaves, and each thread has a program counter inside `sema_down`,
`lock_acquire`, `lock_release`, `cond_wait`, `cond_signal` and `cond_broadcast`. The paging
machine splits eviction and loading wherever another process can notice: picking the
victim, unmapping it, writing it out, marking it, taking its page, filling, mapping and
unpinning are separate steps, with `frame_lock` held where the code holds it. The machines
keep history variables (for example the logical bytes of a page, or who took a lock's
semaphore) that no step reads. A page pool likewise keeps the sequence of groups it has
handed out and taken back.

**Data.** Lists of the merge sort, bitmaps, page directories, the swap device, hash buckets,
headers and sorted arrays are changed in place, by classes and methods with `modifies`
clauses. Free lists, the frame table, the root directory and hash buckets are sequences.
Machine integers are unbounded except where their width matters: the division functions,
page-table words, bitmap words, octal fields, the sizes given to the block allocator and
the unsigned reading of a file size are modelled at their width. Memory is a function from
addresses to bytes; what the allocators write into headers and list links is arbitrary.
Physical page-table words are wrapped in a datatype around a 32-bit vector. All page
directories keep their page tables in one memory, so what the kernel's tables say is seen
through every one of them.

**The environment.** Whether an allocation succeeds, a free-map or directory write
succeeds, how many directory entries can be read before memory for a buffer runs out, what
a file contains, and when the timer ticks are parameters of the operations or
nondeterministic steps.

**Where a run of the paging machine ends.** Two panics are reachable. `pick_frame_to_evict`
panics when there is no frame or the first one is pinned (vm/frame.c:206-242), and
`virtualmemory_swap_out` uses the result of its scan unchecked, so that the block layer
panics when the swap area is full (vm/swap.c:32-50). A process at such a point has no next
step. `PickPossibleIff` and `WriteOutPossibleIff` say exactly when that is, `StuckIff` that
nothing else but waiting for `frame_lock` can stop a process, and `ReachesNoVictim` and
`ReachesSwapFull` are runs that get there.

**Where the code and its comments differ.** The code is followed.
- SECOND_CHANCE resets its position in every round, so it only ever considers the first
  frame of the list, and it reads and clears the accessed bit in the page directory of the
  current thread rather than of the frame's owner (vm/frame.c:208-229).
- `install_frame` sets only `upage`, because the other assignments stand inside a comment
  (vm/page.c:45-49); the model leaves status and swap index of such an entry arbitrary.
- vm/page.h calls the hash element of a page-table entry `hash_element` while vm/page.c
  uses `elem` as well; both are read as the same element.
- A file that cannot be entered into the directory gives back its inode sector but not its
  data sectors (filesys/filesys.c:54-55). `FilesysCreate` states exactly when that happens
  and which sectors then stay marked without an owner; `CreateTwice` is a run that does it.
- A comment in `dir_add` says that a short read means the end of the directory
  (filesys/directory.c:163), but reading also stops without memory for a buffer
  (filesys/inode.c:232-237). `FilesysCreate` says when the volume then stays valid;
  `EnteredTwice` and `Overwritten` are runs from formatting on in which a name is entered
  twice and a file loses its entry and its sectors.
- `malloc` rounds its request up in 32 bits. Most sizes for which that wraps around ask for
  no page at all and are refused; only those from 0xfffffff5 on get one page, which is too
  small (`WrappedPages`). `calloc` looks for overflow only after the product has wrapped around. `Malloc` and
  `Calloc` state for which sizes the block is big enough, and `GuardMisses` gives a product
  that this guard lets through.
- The comments of `umod64` and `smod64` promise remainders that the 32-bit results cannot
  always hold; the two exactness lemmas say precisely when they do.
- A page that was installed as read-only comes back from swap writable, because only pages
  from a file set `writable` anew (vm/page.c:152-176). `WritableIff` says when a page can be
  written.
- A negative width for `%0*d` sets the minus flag after the zero flag was last dropped for it
  (lib/stdio.c:373-394), so that such a number is padded on both sides. `LayoutIs` says when
  the width is exceeded.

## Model

| member | source | states |
|---|---|---|
| `KernelRuns.StepKeepsInv` | threads/synch.c:60-338 | every step of every thread keeps the whole invariant, and no assertion inside the primitives can fail |
| `KernelRuns.RunInv` | threads/thread.c:228-258 | the invariant holds in every state of every run from the state after `thread_start` |
| `KernelWakeups.FirstState` | threads/thread.c:86-121 | there is a state to start from, with semaphores, locks and conditions, so there are runs |
| `KernelRuns.RunAssertions` | threads/synch.c:60-338 | no ASSERT of the thread and synchronisation code fails on any run: those inside the primitives, that of `thread_current`, and those of `schedule` and `thread_schedule_tail` wherever a step calls them |
| `KernelRuns.SwitchAsserted` | threads/thread.c:557-608 | every step that calls `schedule` ends with the switch, by a thread that is no longer running, to an existing thread, and a dying thread never switches to itself |
| `KernelTheorems.NoLostWakeup` | threads/synch.c:60-121 | on every run, value plus completed downs equals initial value plus ups, and while threads sleep on a semaphore its value is at most the number of woken threads that have not retried |
| `KernelWakeups.WokenInTurn` | threads/synch.c:107-124 | on every run, a thread at position k of the wait list of a semaphore stays blocked there and moves up one place with each up of it; the (k+1)-th takes it off the list and makes it ready |
| `KernelWakeups.ValueIsCalls` | threads/synch.c:60-124 | on every run, the value of a semaphore is its first value and one for each call that raised it, less one for each call that took a unit: the counters above are the numbers of those calls |
| `KernelWakeups.RunningGoesOn` | threads/synch.c:60-338 | in every state of every run the running thread can take the next step of the primitive it is in |
| `KernelTheorems.QuietMeansZero` | threads/synch.c:66-78 | when nothing is ready and the running thread is outside `sema_down`, a semaphore somebody sleeps on is zero |
| `KernelTheorems.ThreadStates` | threads/thread.c:532-608 | on every run exactly one thread is running, the current one; non-idle threads are ready iff queued, once; sleeping threads are blocked and on one list only; a dying thread is the initial thread and on no list |
| `KernelTheorems.FreedBySuccessor` | threads/thread.c:557-585 | a thread disappears only by its own exit, in favour of another running thread, and never if it is the initial thread |
| `KernelWakeups.CreateAdds` | threads/thread.c:166-219 | a new thread has a number no thread has and is ready after all others; no other thread changes |
| `KernelWakeups.UnparkReadies` | threads/thread.c:246-258 | an unblocked thread, and no other, becomes ready, after all others |
| `KernelWakeups.ExitLeaves` | threads/thread.c:311-328 | exit hands over to another thread; the thread is then gone, or dying if it is the initial one |
| `KernelTheorems.MutualExclusion` | threads/synch.c:192-236 | at most one thread is between the decrement and the increment of a lock's semaphore, which is then zero, and `holder` names nobody else |
| `KernelWakeups.TakenLock` | threads/synch.c:192-201 | whoever takes the unit of a lock, by the call or after a wait, goes on to become its holder |
| `KernelWakeups.HolderSet` | threads/synch.c:192-201 | and is the holder when `lock_acquire` returns |
| `KernelTheorems.SignalState` | threads/synch.c:287-325 | a waiter's private semaphore is zero while it is queued or being popped and one once signalled |
| `KernelTheorems.SignalWakes` | threads/synch.c:287-325 | a signalled waiter is not asleep, even if the signal came between its release of the lock and its sleep |
| `KernelTheorems.OnlyOwnerTests` | threads/synch.c:287-305 | a waiter asleep on its private semaphore has not been signalled |
| `KernelTheorems.SignalReleasesOne` | threads/synch.c:311-325 | a signal turns the private semaphore of exactly one waiting call from zero to one, and none that waited longer is still queued |
| `KernelTheorems.SignalPopsFront` | threads/synch.c:311-325 | `cond_signal` takes the waiter that has waited longest |
| `KernelTheorems.SignalledWaiterPasses` | threads/synch.c:287-305 | on every run, a signalled waiter that tests its private semaphore passes and goes on to acquire the lock |
| `KernelWakeups.BroadcastSignalsAll` | threads/synch.c:331-338 | on every run, a broadcast that has ended has signalled every call of `cond_wait` that was queued when it began |
| `KernelWaits.WaitReturnsHolding` | threads/synch.c:287-305 | on every run, a call of `cond_wait` returns only after some signal raised that call's own semaphore, and then its thread holds the lock of the condition it waited on |
| `KernelTheorems.DispatchedInTurn` | threads/thread.c:532-608 | a thread at position k of the run queue is dispatched by the (k+1)-th later call of `schedule`, whatever others do |
| `KernelTheorems.TicksForceSchedule` | threads/thread.c:123-141 | every fourth tick of a slice forces a call of `schedule` |
| `KernelTheorems.BoundedWait` | threads/thread.c:123-141 | a thread at position k of the run queue is dispatched within 4(k + 1) ticks |
| `KernelList.ListInsert` | lib/kernel/list.c:165-178 | the chain with the element linked in before the given one, in both directions |
| `KernelList.ListRemove` | lib/kernel/list.c:222-255 | the chain without the element, and its successor |
| `KernelList.ListSplice` | lib/kernel/list.c:180-204 | a range moves before another element of the same or another list; both stay well linked |
| `KernelList.FindEndOfRun` | lib/kernel/list.c:352-372 | the end of the nondecreasing run, not beyond the limit |
| `KernelList.InplaceMerge` | lib/kernel/list.c:374-399 | two adjacent runs become their stable merge and nothing else moves |
| `KernelList.List.Sort` | lib/kernel/list.c:401-440 | the list ends well linked, sorted, a permutation of the input and stable; the loop terminates on the number of runs |
| `KernelList.List.InsertOrdered` | lib/kernel/list.c:442-459 | the element goes behind exactly those it is not less than, and the list stays sorted |
| `KernelList.List.Reverse` | lib/kernel/list.c:324-338 | the list is well linked in both directions and in reverse order |
| `KernelList.List.constructor` | lib/kernel/list.c:59-68 | an empty, well linked list |
| `MergeSpec.PassHalvesRuns` | lib/kernel/list.c:401-440 | one pass writes half as many runs as there were, rounded up |
| `MergeSpec.PassRuns` | lib/kernel/list.c:401-440 | the result of a pass has at most as many runs as it counted |
| `MergeSpec.PassStable` | lib/kernel/list.c:374-399 | a pass keeps the order of equal elements |
| `MergeSpec.StableSortUnique` | lib/kernel/list.c:401-440 | sorted and stable determines the result |
| `Arithmetic.Nlz` | lib/arithmetic.c:41-73 | the shift that brings the highest set bit to the top |
| `Arithmetic.Divl` | lib/arithmetic.c:25-37 | the quotient, or a divide error exactly when it does not fit in 32 bits |
| `Arithmetic.Udiv64` | lib/arithmetic.c:77-127 | exactly floor(n/d) for all 64-bit n and nonzero d, and no divide error |
| `Arithmetic.OverestimateByAtMostOne` | lib/arithmetic.c:96-126 | dividing by a truncated divisor overestimates by at most one |
| `Arithmetic.QuotientEstimate` | lib/arithmetic.c:96-126 | the estimate of the large-divisor branch is exact or one too big |
| `Arithmetic.CorrectEstimate` | lib/arithmetic.c:96-126 | the final comparison, with wraparound, corrects the estimate |
| `Arithmetic.Umod64` | lib/arithmetic.c:131-135 | the remainder modulo 2^32 |
| `Arithmetic.Umod64ExactIff` | lib/arithmetic.c:131-135 | exact for every dividend if and only if d is at most 2^32 |
| `Arithmetic.Sdiv64` | lib/arithmetic.c:139-146 | C's truncating division, with wraparound for the one overflowing case |
| `Arithmetic.Smod64` | lib/arithmetic.c:150-154 | C's remainder wrapped to a 32-bit int |
| `Arithmetic.Smod64ExactIff` | lib/arithmetic.c:150-154 | exact for every dividend if and only if the absolute value of d is at most 2^31 |
| `Bitmaps.Bitmap.Mark` | lib/kernel/bitmap.c:275-286 | one bit of the boolean sequence becomes true |
| `Bitmaps.Bitmap.Reset` | lib/kernel/bitmap.c:288-299 | one bit becomes false |
| `Bitmaps.Bitmap.Test` | lib/kernel/bitmap.c:316-323 | the value of one bit |
| `Bitmaps.Bitmap.SetMultiple` | lib/kernel/bitmap.c:336-347 | exactly the given range takes the value |
| `Bitmaps.Bitmap.Contains` | lib/kernel/bitmap.c:369-383 | true iff some bit of the range has the value |
| `Bitmaps.Bitmap.Scan` | lib/kernel/bitmap.c:416-460 | the least index from start of a matching group, or an error iff there is none |
| `Bitmaps.Bitmap.ScanAndFlip` | lib/kernel/bitmap.c:727-740 | the group found is flipped and nothing else |
| `Palloc.Pool.constructor` | threads/palloc.c:158-177 | the pool starts behind its own bitmap, with no page used |
| `Palloc.PageAllocator.Init` | threads/palloc.c:48-65 | the user pool with its bitmap takes half of the free pages or the limit, whichever is less, and ends with memory; the kernel pool takes the rest, from the first free page on; both are unused, and it panics exactly if one cannot hold its bitmap |
| `Palloc.BitmapPagesAreEnough` | threads/palloc.c:158-177 | a pool spends on its bitmap the fewest pages that hold the header and a bit for each page in whole words |
| `Palloc.PageAllocator.GetMultiple` | threads/palloc.c:75-109 | the first group of that many contiguous pages of the requested pool that are not in use, filled with zeros if asked; none exactly if that pool has no such group, which is a panic exactly if the call must succeed; the history of the pool gains the group |
| `Palloc.FirstIff` | threads/palloc.c:75-109 | a first fit exists if and only if there is a group, and no group starts before it |
| `Palloc.PageAllocator.FreeMultiple` | threads/palloc.c:123-148 | exactly those pages are free again and overwritten; the pool found from the address is the one that has them in use, and its history gains the group |
| `Palloc.NoOverlap` | threads/palloc.c:75-148 | for every pool that gets and frees have led to, a page handed out twice was given back in between |
| `Palloc.GivenBackOnce` | threads/palloc.c:123-148 | a page given back to a pool had been handed out by that pool and not given back since |
| `Palloc.InUseIff` | threads/palloc.c:75-148 | the bitmap marks exactly the pages handed out and not given back since |
| `Palloc.PoolsNeverMix` | threads/palloc.c:132-137 | no page ever appears in the histories of both pools |
| `Malloc.BlockInPage` | threads/malloc.c:264-296 | a block is found again from its address: page, descriptor and index |
| `Malloc.BlockAligned` | threads/malloc.c:264-281 | the alignment assertion of `block_to_arena` holds for every block |
| `Malloc.Heap.constructor` | threads/malloc.c:71-87 | empty free lists and no arena |
| `Malloc.ArenaFull` | threads/malloc.c:71-87 | a descriptor counts exactly as many blocks as fit into a page behind its header, and each size doubles the one before, from 16 on |
| `Malloc.Heap.Malloc` | threads/malloc.c:91-156 | a block that was not live, of the smallest fitting size, and big enough if and only if rounding up the size does not overflow; all other live blocks stay and keep their bytes; failure changes no block and means that the page allocator had no room or was asked for no page |
| `Malloc.PagesHold` | threads/malloc.c:106-114 | the pages of a big block hold the request if and only if the 32-bit rounding does not wrap around, and are then the fewest that do |
| `Malloc.WrappedPages` | threads/malloc.c:106-114 | for every size whose rounding wraps around, the number of pages asked for: none below 0xfffffff5, one from there on |
| `Malloc.WrapsAround` | threads/malloc.c:106-114 | the last size that is refused and the largest, which gets one page |
| `Malloc.Heap.Calloc` | threads/malloc.c:160-177 | zeros in a new block that holds the full product if and only if that does not overflow; a product that is not zero and fits into 32 bits fails only if the page allocator had no room for it or its rounding wraps around to no page |
| `Malloc.GuardMisses` | threads/malloc.c:166-169 | a product that overflows and passes the guard against overflow |
| `Malloc.Heap.Free` | threads/malloc.c:220-261 | exactly that block stops being live and every other one keeps its bytes; its pages go back exactly if it was the arena's last live block |
| `Malloc.Heap.Realloc` | threads/malloc.c:195-217 | the new block replaces the old one among the live blocks and starts with its bytes, or nothing changes, which happens only if the page allocator had no room or was asked for no page; every other live block keeps its bytes; size 0 frees the block |
| `Malloc.IdleIffLast` | threads/malloc.c:241-254 | the free count reaches its limit if and only if the last live block is freed |
| `Malloc.AllFree` | threads/malloc.c:241-254 | the count is at its limit if and only if every block of the arena is on the free list |
| `Malloc.LiveApart` | threads/malloc.c:91-156 | live blocks do not overlap |
| `Malloc.HeadersApart` | threads/malloc.c:91-156 | no live block overlaps an arena header |
| `Malloc.FreeApart` | threads/malloc.c:91-156 | no live block overlaps a block on a free list |
| `Malloc.HeaderSpares` | threads/malloc.c:116-151 | writing an arena header changes no live block |
| `Malloc.ListSpares` | threads/malloc.c:138-151 | writing into free blocks, as their links do, changes no live block |
| `Malloc.PagesSpare` | threads/malloc.c:245-258 | writing to pages not in use changes no live block |
| `Malloc.Moved` | threads/malloc.c:206-213 | the bytes that `realloc` copies arrive unharmed by the allocation before and the release after |
| `Malloc.ArenaHasLive` | threads/malloc.c:241-254 | every arena holds a live block, so no page is kept without one |
| `Pagedir.PageDirectory.Create` | userprog/pagedir.c:16-23 | fails exactly without a page for it; otherwise a new directory with the mappings of `init_page_dir`, none for a user page, that shares the kernel's page tables with every other directory and no table for users |
| `Pagedir.PageDirectory.LookupPage` | userprog/pagedir.c:56-86 | the entry of a user or kernel page, creating a user page table if asked and possible; the flat map gains only empty entries, and no entry that is followed is not present |
| `Pagedir.PageDirectory.SetPage` | userprog/pagedir.c:98-120 | the flat map maps the page; user code then reaches the frame, and for writing if and only if the page is writable, through both levels of the directory; fails exactly if a page table is missing and cannot be allocated |
| `Pagedir.PageDirectory.GetPage` | userprog/pagedir.c:126-139 | the frame and offset of any user address, exactly if its page is present |
| `Pagedir.PageDirectory.ClearPage` | userprog/pagedir.c:145-159 | the entry is no longer present and otherwise unchanged, and user code reaches nothing there |
| `Pagedir.PageDirectory.IsDirty` | userprog/pagedir.c:165-170 | the dirty bit of any user or kernel page, false without a page table |
| `Pagedir.PageDirectory.SetDirty` | userprog/pagedir.c:174-188 | only the dirty bit of that user or kernel page changes, in no page table but its own |
| `Pagedir.PageDirectory.IsAccessed` | userprog/pagedir.c:194-199 | the accessed bit, false without a page table |
| `Pagedir.PageDirectory.SetAccessed` | userprog/pagedir.c:203-218 | only the accessed bit of that page changes, in no page table but its own |
| `Pagedir.DecodeMeans` | threads/pte.h:61-101 | the bits of an entry are where the processor has them |
| `Pagedir.TranslateIs` | threads/pte.h:61-101 | what the processor reaches in user mode through the words of both levels, for reading and for writing, is what the flat map says |
| `Pagedir.OnePageOnly` | userprog/pagedir.c:98-218 | setting, clearing or flagging one page disturbs no other |
| `Pagedir.ClearKeepsDirty` | vm/frame.c:90-94 | clearing hides the frame but keeps the dirty bit that eviction reads afterwards |
| `Pagedir.StoreWord` | threads/pte.h:31-39 | writing one word of one page table changes the entry of one page only |
| `Pagedir.SetPageBeside` | userprog/pagedir.c:98-120 | mapping a user page through one directory changes nothing that any other directory shows, with and without a new page table |
| `Pagedir.ClearPageBeside` | userprog/pagedir.c:145-159 | nor does clearing one |
| `Pagedir.SetDirtyBeside` | userprog/pagedir.c:174-188 | the dirty bit of a user page changes in one directory only, that of a kernel page in all |
| `Pagedir.SetAccessedBeside` | userprog/pagedir.c:203-218 | likewise for the accessed bit |
| `Pagedir.Noticed` | userprog/pagedir.c:16-23 | a new entry of a page is noticed through another directory if and only if the page is the kernel's |
| `Pagedir.TwoProcesses` | userprog/pagedir.c:16-120 | two directories made from one map the same user page to different frames, and each shows its own |
| `Pagedir.Destroy` | userprog/pagedir.c:27-48 | every frame and every page table that the user part refers to is freed, once for each reference, and nothing else |
| `Pagedir.FreedOnceIff` | userprog/pagedir.c:27-48 | no page is freed twice if and only if no two references are to the same page |
| `Pagedir.DestroyBeside` | userprog/pagedir.c:27-48 | a page table of another directory, the kernel's included, is freed if and only if a user page was mapped to it |
| `Swap.SwapDevice.Out` | vm/swap.c:32-50 | the first available slot holds the page and is no longer available; all other sectors are unchanged; failure iff no slot is available |
| `Swap.SwapDevice.In` | vm/swap.c:53-70 | the page the slot holds, and the slot is available again |
| `Swap.HoldsUnique` | vm/swap.c:32-70 | a slot holds only one page, so swapping in gives back what was swapped out |
| `SecondChance.PickFrameToEvict` | vm/frame.c:206-242 | the first frame of the list if it is not pinned, after clearing its accessed bit; otherwise a panic |
| `PagingProgress.OldestFirst` | vm/frame.c:108-242 | on every run the frame that is evicted is the one that was taken before all others in the frame table |
| `PagingTheorems.StepKeepsInv` | vm/frame.c:73-177 | every step that a process can take keeps the paging invariant and meets no failing ASSERT; the two panics of eviction are not steps, see `StuckIff` |
| `PagingTheorems.RunInv` | vm/frame.c:73-126 | the paging invariant holds in every state of every run |
| `PagingTheorems.RunAsserted` | vm/frame.c:153-177 | on no run is a frame or an entry missing where the code assumes one, nor the slot of a swapped-out page, nor does the page allocator come back empty after an eviction; whether there is a frame to evict and a free slot is not promised, see the next rows |
| `PagingTheorems.PickPossibleIff` | vm/frame.c:206-242 | on every run, when the pool is used up, a process can go on if and only if there is a frame and the first of the list is not pinned; that first one always has an entry |
| `PagingTheorems.WriteOutPossibleIff` | vm/swap.c:32-50 | a process that has unmapped its victim can go on if and only if a slot is available |
| `PagingTheorems.StuckIff` | vm/frame.c:73-126 | on every run a process has a next step if and only if it does not wait for `frame_lock` and is at neither panic |
| `PagingTheorems.NoDeadlock` | vm/frame.c:73-177 | whoever waits for `frame_lock` waits for a process that can go on, unless the swap area is full |
| `PagingProgress.HandledInNineSteps` | vm/page.c:133-192 | on every run a process takes at most nine steps from leaving user code, evictions included, to being back there |
| `PagingProgress.FaultBegins` | vm/page.c:133-147 | a fault begins the handling, unless the page is only about to leave its frame; then the access is tried again |
| `PagingProgress.HandledIsPresent` | vm/page.c:179-192 | when it is done the page is present, in a frame that holds its bytes |
| `PagingProgress.FaultHandled` | vm/page.c:133-192 | on every run, a process that has handled its fault on a page has that page present with its bytes |
| `PagingProgress.InstallDoes` | userprog/process.c:693-702 | installing a page begins with asking for a frame |
| `PagingProgress.InstalledAsAsked` | userprog/process.c:693-702 | on every run, a page that a process has installed is present with the bytes and the permission that were asked for |
| `PagingTheorems.ReachesNoVictim` | vm/frame.c:206-242 | a run to the panic at a pinned frame |
| `PagingTheorems.ReachesSwapFull` | vm/swap.c:32-50 | a run to the panic at a full swap area |
| `PagingTheorems.PageAfterEviction` | vm/frame.c:100-105 | on every run, once a victim is marked as swapped out its page is in use and can be taken after it is freed |
| `PagingTheorems.MapStep` | vm/page.c:179-186 | mapping finds the page absent, and cannot fail for a page that comes back from swap |
| `PagingTheorems.LogicalIsMemory` | vm/page.c:133-192 | allocation, eviction and loading change no page's logical bytes: only writes and newly created pages do |
| `PagingTheorems.ReadsLastWrite` | vm/page.c:133-192 | on every run a read returns what was last written there, or what the page was created with, whatever was evicted and reloaded in between |
| `PagingTheorems.ReadIff` | vm/page.c:133-192 | on every run a process can read every byte of a present page, and only as the value last written there |
| `PagingTheorems.WritableIff` | vm/page.c:152-186 | on every run a process can write to a page if and only if it is present and was last mapped as writable: as it was installed before its first eviction, and always after it has come back |
| `PagingTheorems.InstalledReadOnly` | userprog/process.c:693-702 | on every run a page installed as read-only stays present and cannot be written until it is first evicted |
| `PagingTheorems.FramesNotShared` | vm/frame.c:108-123 | two present pages never share a frame |
| `PagingTheorems.UnpinnedIsPresent` | vm/page.c:179-189 | every unpinned frame that is not being evicted is present in its owner's page directory |
| `PagingTheorems.SlotsNotShared` | vm/page.c:89-102 | a swapped-out page owns a slot that is in use and holds its bytes, and no two share one |
| `PagingProgress.FramesAccounted` | vm/frame.c:108-123 | on every run the pages in use that have no entry in the frame table are exactly those lost when memory for the entry ran out |
| `PagingProgress.SlotsAccounted` | vm/swap.c:32-70 | on every run every slot is available, belongs to a page, or was just written by a process that will name it: no slot is lost |
| `FileSystem.FreeMap.Allocate` | filesys/free-map.c:27-41 | the first free group becomes marked, or nothing changes if there is none or the free map cannot be written |
| `FileSystem.FreeMap.Release` | filesys/free-map.c:44-50 | exactly those sectors are unmarked |
| `FileSystem.Volume.InodeCreate` | filesys/inode.c:72-106 | succeeds exactly with memory, a free group and a written free map; then a new inode whose extent was free, and the extents of live inodes stay marked and disjoint; otherwise nothing changes |
| `FileSystem.SectorsHold` | filesys/inode.c:25-29 | a file gets the fewest sectors that hold its length |
| `FileSystem.Volume.InodeOpen` | filesys/inode.c:111-142 | one shared in-memory inode per sector: the open one with its count raised, or a new one |
| `FileSystem.Volume.InodeReopen` | filesys/inode.c:145-151 | one more opener |
| `FileSystem.Volume.InodeClose` | filesys/inode.c:163-186 | the last close of a removed inode releases exactly its extent; every other close releases nothing; no sector is orphaned |
| `FileSystem.Volume.Lookup` | filesys/directory.c:91-112 | an entry in use with that name among those that can be read, or there is none |
| `FileSystem.Volume.DirAdd` | filesys/directory.c:141-179 | exactly when it succeeds and which slot it then writes, for complete and for short reads; no other slot changes |
| `FileSystem.AfterAdd` | filesys/directory.c:141-179 | after an entry is written the directory is well formed if and only if no other entry has the name; the sectors named are those before, less that of the overwritten entry, and the new one |
| `FileSystem.CompleteReads` | filesys/directory.c:141-179 | with complete reads exactly the valid new names are entered, into the first free slot |
| `FileSystem.ShortReads` | filesys/directory.c:158-170 | short reads that lead to a duplicate name and to a lost file |
| `FileSystem.EnteredTwice` | filesys/filesys.c:45-103 | a run from formatting on that enters a name twice |
| `FileSystem.OverwriteFirst` | filesys/directory.c:158-174 | without memory to look for a slot, a new file takes the entry of the first one wherever that is not open; the old name is gone and its inode's sector is orphaned |
| `FileSystem.Overwritten` | filesys/filesys.c:45-103 | a run from formatting on in which that happens |
| `FileSystem.Volume.DirRemove` | filesys/directory.c:184-216 | exactly when it succeeds; then the entry of that name, and no other, is erased; an inode that nobody has open is released, one that is open stays live and becomes removed; open handles keep their counts; no sector is orphaned |
| `FileSystem.Volume.FilesysCreate` | filesys/filesys.c:45-59 | succeeds exactly if sectors can be allocated and the name entered; then one directory slot names an inode in sectors that were free, and the volume stays valid if and only if no other entry has the name and no open file lost its own; what is orphaned then is the file overwritten, if any. A failed call leaves the free map unchanged if and only if no sectors could be allocated or the file has no data; otherwise exactly its data sectors stay marked and are orphaned. Existing inodes and other entries are untouched |
| `FileSystem.Volume.CreateComplete` | filesys/filesys.c:45-59 | with complete reads of the directory the volume always stays valid, the name must be valid and new and a slot free, the first free slot is used, and a successful call orphans nothing |
| `FileSystem.CreateAgain` | filesys/filesys.c:45-59 | creating an existing name with one sector of data, wherever two sectors are free, orphans one sector |
| `FileSystem.CreateTwice` | filesys/filesys.c:45-103 | a run from formatting on that orphans a sector |
| `FileSystem.OrphansAfterCreate` | filesys/inode.c:72-106 | a created inode orphans no sector |
| `FileSystem.OrphansAfterRelease` | filesys/inode.c:176-182 | nor does a released one |
| `FileSystem.OrphansAfterLoss` | filesys/filesys.c:54-55 | giving up an inode but not its data orphans exactly the data |
| `FileSystem.OrphansAfterOverwrite` | filesys/directory.c:158-174 | overwriting the entry of a file that nobody has open orphans exactly its extent |
| `FileSystem.Volume.FilesysOpen` | filesys/filesys.c:66-77 | exactly when it succeeds; then the inode that the name denotes: the shared one with one more opener if its sector was open, and only then, otherwise a new one; on failure no handle has changed, and other handles never do |
| `FileSystem.OpenMany` | filesys/filesys.c:66-77 | any number of opens of one name give one shared inode, with that many more openers |
| `FileSystem.LastCloseReleases` | filesys/inode.c:163-194 | a file opened n times, removed while open and closed n times: no sector is released before the last close, which releases exactly the file's extent |
| `FileSystem.Volume.Format` | filesys/filesys.c:94-103 | succeeds exactly if the device has room for the free map and the root directory and nothing runs out; then a valid volume with an empty directory, packed at its start, without orphans |
| `FileSystem.Disown` | filesys/inode.c:176-182 | releasing the extent of one inode takes nothing from the others |
| `InodeIO.ByteToSector` | filesys/inode.c:46-54 | the data sector that contains the byte, and -1 exactly past the end of the file |
| `InodeIO.ReadAt` | filesys/inode.c:200-250 | exactly the bytes of the file from the offset, clipped to its length; fewer only without memory for a bounce buffer |
| `InodeIO.WriteAt` | filesys/inode.c:257-318 | exactly those bytes of the disk are replaced and every other byte is unchanged; none if writes are denied |
| `InodeIO.ReadAfterWrite` | filesys/inode.c:200-318 | reading gives back what was written |
| `InodeIO.OthersUntouched` | filesys/inode.c:257-318 | writing to one live inode changes no sector of another |
| `HashTable.Hash.Init` | lib/kernel/hash.c:24-43 | fails exactly without memory for the buckets; otherwise an empty table of four |
| `HashTable.Hash.FindBucket` | lib/kernel/hash.c:307-326 | the masked hash is the hash modulo the number of buckets |
| `HashTable.Hash.Find` | lib/kernel/hash.c:131-138 | the equal element, or none is equal |
| `HashTable.Hash.Insert` | lib/kernel/hash.c:99-112 | the element is added if none was equal; otherwise the equal one is returned and nothing is added; with memory the bucket count suits the element count afterwards |
| `HashTable.Hash.Replace` | lib/kernel/hash.c:116-129 | the equal element, if any, is exchanged for the new one; with memory the bucket count suits the element count afterwards |
| `HashTable.Hash.Delete` | lib/kernel/hash.c:147-157 | the equal element, if any, is removed, and otherwise no bucket changes; with memory the bucket count suits the element count after a removal |
| `HashTable.Hash.Rehash` | lib/kernel/hash.c:370-432 | the contents are unchanged; with memory the bucket count is the greatest power of two not above half the element count, but at least four, and without memory it is unchanged |
| `HashTable.NewBucketCnt` | lib/kernel/hash.c:383-391 | the greatest power of two not above half the element count, but at least four |
| `Bits.TurnOff` | lib/kernel/hash.c:347-359 | turning off the lowest bit gives zero exactly for powers of two and otherwise keeps the highest bit |
| `Bits.AndMask` | lib/kernel/hash.c:307-326 | masking with a power of two less one is the remainder |
| `HashTable.HashIterator.Next` | lib/kernel/hash.c:221-238 | the remaining elements of the table come out one by one, each once |
| `HashTable.Walk` | lib/kernel/hash.c:185-238 | a full iteration yields exactly the table's contents, and no two equal elements |
| `Octal.FormatInteger` | lib/stdio.c:469-547 | sign, prefix, padding and digits laid out by flags, width and precision |
| `Octal.BodyMeaning` | lib/stdio.c:501-524 | whatever the flags, the digits printed stand for the value |
| `Octal.SignIs` | lib/stdio.c:482-495 | a minus sign stands for a negative number of a signed conversion; otherwise the flags choose a plus sign or a space |
| `Octal.PrefixIs` | lib/stdio.c:497-500 | the mark of the base appears exactly with the # flag on a value that is not 0 in a base that has one |
| `Octal.LayoutIs` | lib/stdio.c:526-547 | the text fills the width exactly, with the padding on the side and of the kind that the flags ask for; it exceeds the width if and only if a short text has both the minus and the zero flag |
| `Octal.CommasBetweenGroups` | lib/stdio.c:507-514 | with grouping, commas stand between whole groups of digits and nowhere else |
| `Octal.NoLeadingZero` | lib/stdio.c:507-514 | the most significant digit is not 0 |
| `Octal.LeadingZerosAsAsked` | lib/stdio.c:516-526 | zeros lead as far as the precision asks for, and no further unless the # flag does; octal with # starts with 0; value 0 is one digit unless the precision is 0 |
| `Octal.OctalTextOk` | lib/stdio.c:469-547 | a value that fits fills its field with octal digits that mean it |
| `Octal.ParseOctalField` | lib/ustar.c:129-162 | a value if and only if the field is octal digits that say it in 32 bits, ended by a space or null byte |
| `Octal.OctalFieldIff` | lib/ustar.c:129-162 | a field says at most one value, and is read if and only if it says one |
| `Octal.FieldRoundTrip` | lib/ustar.c:129-162 | printing into an octal field and parsing it gives the value back |
| `Ustar.StripPrefixes` | lib/ustar.c:65-73 | the name without antisocial prefixes, as long as there are any, and "." in place of nothing and of ".." |
| `Ustar.StripIs` | lib/ustar.c:65-73 | what is dropped is a sequence of "/", "./" and "../", and what stays starts with none of them |
| `Ustar.StripOnly` | lib/ustar.c:65-73 | there is only one name like that |
| `Ustar.StripIdempotent` | lib/ustar.c:65-73 | a stripped name is not stripped further |
| `Ustar.CalculateChksum` | lib/ustar.c:36-54 | the sum of all bytes with the checksum field as spaces, also as a plain sum over the bytes before and after the field |
| `Ustar.SumIgnoresField` | lib/ustar.c:36-54 | the checksum does not depend on its own field |
| `Ustar.MakeHeader` | lib/ustar.c:82-118 | succeeds exactly for stripped names of at most 99 bytes; then every byte of the buffer is as the format lays it out: name, mode, owner, size, time, checksum, type, magic, version and zeros; otherwise the buffer is unchanged |
| `Ustar.HeaderIsMade` | lib/ustar.c:82-118 | the bytes of a header, given as literals and sums |
| `Ustar.ParseHeader` | lib/ustar.c:181-227 | end of archive exactly for zeros; a file if and only if the bytes have the magic, the version, the right checksum, a name that ends, a known type and a size that fits, and then the file they say; a failure otherwise |
| `Ustar.ParseIff` | lib/ustar.c:181-227 | the same of the function that it computes |
| `Ustar.MessageIff` | lib/ustar.c:199-219 | each message is given if and only if its condition is the first that does not hold |
| `Ustar.OneByteChanged` | lib/ustar.c:204-207 | a header with the right checksum is refused once any byte outside the checksum field has changed |
| `Ustar.MadeThenChanged` | lib/ustar.c:82-227 | so is every made header |
| `Ustar.RoundTrip` | lib/ustar.c:82-227 | parsing a made header gives back the stripped name, the type and the size, 0 for a directory, for every size from 0 to INT_MAX |
| `HeapSort.Heapify` | lib/stdlib.c:96-123 | restores the heap below an index, permuting only the first cnt elements |
| `HeapSort.FloatDown` | lib/stdlib.c:96-123 | one exchange moves the only violation one level down |
| `HeapSort.Root` | lib/stdlib.c:96-152 | the first element of a heap is the greatest |
| `HeapSort.Sort` | lib/stdlib.c:131-152 | a sorted permutation for every consistent comparison |
| `HeapSort.BinarySearch` | lib/stdlib.c:184-207 | a match if and only if one exists |

## Left out

- Threads and synchronisation objects are values of the thread machine's state, not objects: aliasing of `struct thread` fields is represented by the disjointness of the lists, which is proved.
- Frames, supplemental page tables and page directories of the paging machine are values, because its point is interleaving; `PageDirectory`, `SwapDevice` and `PickFrameToEvict` are the imperative counterparts.
- Free lists of the block allocator, hash buckets and the list of open inodes are sequences rather than linked elements.
- FileSystem.Volume.FilesysCreate, FileSystem.Volume.FilesysOpen and FileSystem.Volume.DirRemove: the root directory is already open; opening and closing it around each call only raises and lowers its open count.
- FileSystem.Volume.Lookup: reads directory entries as records rather than as bytes of the directory's inode.
- Octal.FormatInteger: starts from a parsed conversion; the format string and the other conversions of `printf` are not modelled.
- Pagedir.PageDirectory.SetDirty: the flushing of the translation buffer has no counterpart.
- Pagedir.Destroy: returns the pages it frees, before that of the directory itself, instead of giving them to the page allocator.
- PagingTheorems.StepKeepsInv: the paging machine has no dirty bits of the kernel's own mapping of a frame, which eviction also reads, but which are only consulted when a memory-mapped file is unmapped.
- `list_unique`, `list_max`, `list_min`, `hash_apply`, `hash_clear`, `dir_readdir`: easy once the operations above are there.
- NEXT_FIT, BEST_FIT and BUDDY_SYSTEM scans, CLOCK and LRU eviction: not selected by the code.
- Memory mapping of files and pages from the file system, which alone keep their permission across a reload.
- Installing a page at an address that already has an entry, as overlapping program segments would.
- Boot, interrupt entry, device drivers, system calls, program loading, priorities and process waiting.
