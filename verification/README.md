# IdyllaOS: a verified model of the kernel's hard parts

IdyllaOS is a small monolithic kernel. This project models the four parts of it that keep
invariants over unbounded runs, and proves those invariants for every run. The modules are
under `model/`:

- `heap/` is the kernel heap, dlmalloc 2.8.3 as configured by `src/sys/mm/heap.c`: boundary
  tags, small bins, bitwise-trie bins, the designated victim, the top chunk, realloc and
  memalign. `TreeBins`, `TreeSearch`, `TreeLoops`, `BinIndex`, `Bins`, `BitMaps` and `BestFit`
  are the bins, their bitmaps and the best-fit search, `Tags` the head and foot words,
  `HeapState` the invariant, `DlMalloc`, `DlFree`, `Memalign` and `Realloc` the calls, `Placement`
  where a request is served from and when, `Payload` and `Links` the words that the calls write,
  `Memory` the memory that these words share with the blocks, `HeapRuns` whole runs, and `MallocState` the allocator as a class that writes word by word.
- `mm/` is virtual memory: the range allocator (`Sma`, and its runs in `SmaRuns`), the frame
  bitmap (`Phys`), two-level page tables (`Paging`) and copy-on-write spaces. `VmState` is the
  invariant, `VmFault`, `VmClone`, `VmUnmap` and `VmSpaces` the operations, `VmRights` who may
  store where, `VmRuns` the comparison with a machine that copies at every fork, `VmLeak` a run
  that defeats read-only mappings, `VmFrames` the page frames over a run, `VmKernel` the code as
  a class with its loops, and `Aspaces` the frames behind the page tables themselves.
- `kernel/` is blocking synchronisation: `RwLock`, `Semaphore`, `Mutex`, `Scheduler` (with the
  wait queues), the circular lists of `lib/list.h` (`Rings`) and `Pipe`. A step is one section
  of code under the object's spinlock; `wait_sleep` is one step that queues, releases and
  blocks.
- `fs/` is the ext2 read path (`Ext2`) and the descriptor tables (`Files`).
- `common/` holds 32-bit words and set cardinalities.

Each imperative operation is a method of a class whose fields are those the source updates.
Its contract equates the new state with a function of the old one, and the lemmas prove what
the source promises about that function. Objects that the kernel reaches through pointers are
kept in maps from the pointer to the object.

## Main results

- Heap: over every run of malloc, memalign, realloc and free the conditions of
  `do_check_malloc_state` on chunks, bins, dv and top hold, and the chunks in use are exactly
  those handed out and not given back (`HeapRuns.RunSound`); no call writes a byte of a live
  block, be it as head, foot or link, and nothing that users write into their blocks matters to
  the allocator (`Memory`); the tree search returns the smallest fitting chunk of all bins
  (`BestFit.LargeFitIsBest`) in a bounded number of rounds; malloc serves every request from the
  best free memory there is, and fails exactly when neither that nor the system has any
  (`Placement.MallocPlaces`, `Placement.MallocServed`).
- Memory: for every run of create, mmap, load, store, fork and exit, and every choice of
  frames, a process sees of each step what it would see on a machine that copies every page at
  fork (`VmRuns.LazyIsEager`), with exact reference counts and no page frame lost
  (`VmFrames.RunRam`).
- Synchronisation: mutual exclusion, exact counts, exact admission and no lost wakeup over every
  interleaving; every thread is in exactly one place (`Scheduler.OnePlace`) and runs in its turn
  (`Scheduler.RunsInTurn`, `Scheduler.NoStarvation`); a pipe loses no byte while its reader's end
  is open (`Pipe.FirstRun`).
- Files: the tiered ext2 read equals a flat one, and `ext2_read` is described byte by byte
  (`Ext2.ReadDelivers`, `Ext2.ReadExact`); reference counts of files and pipes are exact over
  every run.

## Where the code falls short

The model follows the code. These are the places where a natural promise fails, each with the
exact condition proved. The run theorems ask for these conditions step by step.

- malloc goes wrong on two kinds of request, and on no other (`DlMalloc.MallocExact`): the first
  of all, if its segment size rounds up to 2^32, gets a segment of size 0; and one that must ask
  the system for so much that the break wraps past 2^32 is granted memory that does not exist
  (`DlMalloc.HalfGigabyte`), because `ksbrk` tests the wrapped sum. realloc and memalign inherit
  both (`Realloc.ResizeExact`, `Memalign.MemalignExact`).
- memalign never returns for an alignment above 2^31 that is no power of two
  (`Memalign.EffectiveAlignmentIs`, `Memalign.NeverSettles`).
- `sma_alloc` follows a non-fixed hint into a block too short for it, and a fixed range that
  wraps (`Sma.AllocTiled`); through mmap any process can do this to its own space
  (`VmSpaces.MapExact`, `VmSpaces.WrappingMap`).
- `sma_free` does not join free neighbours: an area that is free all over may refuse a request that
  it granted when it was new (`SmaRuns.Fragments`). A request is refused exactly when no single
  free block will do (`Sma.AllocPlace`).
- `phys_alloc` takes frame 0 for "none": it fails with a frame free exactly when frame 0 is free
  and no zone that was asked for has a free frame (`Phys.FrameMap.Alloc`).
- The first fault in a mapping without PROT_WRITE leaves a writable entry. A store through it is
  let through (`VmRuns.WriteExact`), and other processes see it exactly when the region has more
  than one mapping (`VmFault.StoreConfined`), as it does after a fork
  (`VmLeak.ReadOnlyStoreLeaks`).
- A fault that finds no frame clears the slot of the page it was to copy, or maps frame 0 for a
  fresh page, and the counts or frames are wrong from then on (`VmFault.FaultExact`).
- Each address space that ends loses the frame of its page directory, and nothing else is lost
  (`Aspaces.RunLoses`): when the last space has ended, exactly as many frames are missing as
  spaces have ended (`Aspaces.DirectoriesLeak`).
- `wait_wakeup_all` wakes in order but reverses that order on the ready ring
  (`Scheduler.WakeAllReverses`).
- `sched_wakeup` puts a thread in front of the ready ring, so that two threads which keep waking
  each other starve a third (`Scheduler.Starves`).
- A read that makes room in a pipe does not wake the writer (`Pipe.WriterWakesOnlyOnEmpty`).
- `pipe_free` wakes nobody. A sleeper at a pipe can still be woken exactly while the other end is
  open (`Pipe.ReaderStranded`, `Pipe.WriterStranded`), and the step that strands it is the close
  of that end (`Pipe.CloseStrands`).
- `inode_rw_content` indexes before its table after a hole among the direct blocks, and hangs
  past the double-indirect range (`Ext2.Reader.ReadBlocks`).
- `ext2_read` does not look at how many blocks it got. It reads every byte that it reports
  exactly when no block of the request is a hole; a request of no bytes reads a block all the same
  if it is not aligned (`Ext2.ReadExact`). In a file of two blocks without its second it reports
  both and has read the first, or strays before a table (`Ext2.SparseRead`).
- `fcntl(F_DUPFD)` passes a negative start on, and an open descriptor is then duplicated to a place
  before the table (`Files.DupInv`); `sys_dup2` of an open descriptor onto itself dereferences NULL
  (`Files.Dup2Inv`). No other call on descriptors crashes (`Files.CrashExact`).

## Model

| member | source | states |
|---|---|---|
| `TreeBins.TrieRange` | src/sys/mm/malloc.c:2605-2653 | every chunk below a node lies in the size range that the node's bit path leaves |
| `TreeBins.LeftBelowRight` | src/sys/mm/malloc.c:2605-2653 | in a trie every size in the left subtree is below every size in the right subtree |
| `TreeBins.RegisterStep` | src/sys/mm/malloc.c:2953-2958 | the top bit of the shifted register tells which half of the remaining range a size is in, and the shift re-establishes this one level down |
| `TreeBins.RegisterPath` | src/sys/mm/malloc.c:2244-2252 | a register set up for a bin steers down exactly the bit path of the size, to the last distinguishing bit |
| `TreeBins.HeightBound` | src/sys/mm/malloc.c:2954-2958 | a path has at most one node more than there are bits left to tell sizes apart |
| `TreeBins.InsertTrie` | src/sys/mm/malloc.c:2942-2991 | inserting a chunk keeps the bitwise trie |
| `TreeBins.InsertCount` | src/sys/mm/malloc.c:2942-2991 | inserting adds exactly one occurrence of the chunk and changes no other count |
| `TreeBins.InsertHasSize` | src/sys/mm/malloc.c:2942-2991 | the sizes present afterwards are those before plus the new one |
| `TreeBins.InsertUnique` | src/sys/mm/malloc.c:2968-2978 | a size occurs in one node only; equal chunks join that node's ring |
| `TreeLoops.InsertLoop` | src/sys/mm/malloc.c:2954-2990 | the descent loop with its shift register computes the trie insertion, in no more rounds than the tree is high |
| `TreeLoops.InsertByBits` | src/sys/mm/malloc.c:2942-2990 | the same from the size alone, with the bin's own left shift, in at most one round more than the shift leaves bits in the register |
| `TreeLoops.LeafLoop` | src/sys/mm/malloc.c:3026-3035 | the loop that prefers the right child finds and cuts off the leaf that replaces an inner node, in fewer rounds than the tree is high |
| `TreeLoops.UnlinkNode` | src/sys/mm/malloc.c:3010-3079 | unlink_large_chunk with that loop: the bk neighbour or the leaf takes the chunk's place |
| `TreeLoops.LinkChunk` | src/sys/mm/malloc.c:3083-3085 | insert_chunk with its loop inserts the chunk into its bin |
| `TreeLoops.UnlinkFromBin` | src/sys/mm/malloc.c:3087-3089 | unlink_chunk with its loop takes the chunk out of its bin |
| `TreeBins.LeafRemoved` | src/sys/mm/malloc.c:3026-3035 | cutting that leaf off keeps the trie, and the leaf is one ring of equal sizes in range |
| `TreeBins.ReplaceTrie` | src/sys/mm/malloc.c:3040-3075 | an inner node replaced by its rightmost leaf leaves a trie over the same range |
| `TreeBins.RingRemoved` | src/sys/mm/malloc.c:3013-3023 | unlinking from a ring takes away one occurrence, whoever is linked into the tree |
| `TreeBins.UnlinkTrie` | src/sys/mm/malloc.c:3010-3079 | unlinking any chunk keeps the bitwise trie |
| `TreeBins.UnlinkCount` | src/sys/mm/malloc.c:3010-3079 | unlinking takes away exactly one occurrence of the chunk |
| `TreeBins.UnlinkHasSize` | src/sys/mm/malloc.c:3010-3079 | the sizes in the trie stay as they were, except that the removed chunk's own size goes with its last chunk |
| `TreeBins.UnlinkUnique` | src/sys/mm/malloc.c:3010-3079 | sizes stay unique to their node |
| `BinIndex.TreeIndexRange` | src/sys/mm/malloc.c:2205-2252 | a size lies between the minimum sizes of its bin and of the next bin |
| `BinIndex.BinsOrdered` | src/sys/mm/malloc.c:2205-2252 | a size in a lower bin is smaller than a size in a higher bin |
| `BinIndex.InRootRange` | src/sys/mm/malloc.c:2205-2252 | a size lies in the range that the root of its bin splits |
| `BinIndex.ShiftedPath` | src/sys/mm/malloc.c:2244-2248 | the size shifted by leftshift_for_tree_index follows its own bit path |
| `TreeSearch.WalkLeftmost` | src/sys/mm/malloc.c:3669-3676 | the leftmost walk keeps the best fit seen and equals the recursive minimum, in no more rounds than the tree is high |
| `TreeSearch.SmallestCovers` | src/sys/mm/malloc.c:3669-3676 | the leftmost walk finds a chunk no larger than any fitting chunk of the subtree |
| `TreeSearch.DescendLoop` | src/sys/mm/malloc.c:3633-3658 | the bit-guided descent computes the best fit on the path and the deepest untaken right subtree, in no more rounds than the tree is high |
| `TreeSearch.DescendCovers` | src/sys/mm/malloc.c:3633-3658 | every fitting chunk of the bin is covered by the path's best or lies in that right subtree |
| `TreeSearch.SearchBinBest` | src/sys/mm/malloc.c:3633-3676 | path and right subtree together give the smallest fitting chunk of the bin |
| `BestFit.LargeFitIsBest` | src/sys/mm/malloc.c:3628-3676 | tmalloc_large finds the smallest tree chunk of at least the requested size over all bins, or there is none |
| `BestFit.SmallFitIsBest` | src/sys/mm/malloc.c:3701-3717 | tmalloc_small finds the smallest tree chunk of all bins |
| `BestFit.ProbeOwnBin` | src/sys/mm/malloc.c:3628-3660 | the probe of the request's own bin, in at most one round more than there are bits in the register |
| `BestFit.SearchLarge` | src/sys/mm/malloc.c:3628-3676 | the loops of tmalloc_large compute that best fit and visit at most 66 nodes |
| `BestFit.SearchSmall` | src/sys/mm/malloc.c:3701-3717 | the loop of tmalloc_small computes the smallest chunk of the least marked bin, with the same bound on its rounds |
| `DlMalloc.DvPreferred` | src/sys/mm/malloc.c:3678-3697 | the tree chunk is declined exactly when dv fits the request at least as well |
| `Bins.OnlyOwnBin` | src/sys/mm/malloc.c:2656-2700 | a chunk is held in the bin of its own size and nowhere else |
| `Bins.ChunkInserted` | src/sys/mm/malloc.c:2871-2888 | insert_chunk keeps all bins and maps valid and adds that chunk once |
| `Bins.ChunkUnlinked` | src/sys/mm/malloc.c:2890-2923 | unlink_chunk keeps all bins and maps valid and removes that chunk once |
| `BitMaps.NegateValue` | src/sys/mm/malloc.c:2299-2302 | complement and increment of a word give its negative modulo the word |
| `BitMaps.ScanLeast` | src/sys/mm/malloc.c:2271-2299 | x & -x isolates the least set bit, and scanning for it gives that bit's index |
| `BitMaps.FirstBit` | src/sys/mm/malloc.c:3705-3706 | least_bit of the whole map leads to the least marked bin |
| `BitMaps.NextBit` | src/sys/mm/malloc.c:3660-3664 | left_bits, least_bit and the bit scan find the least marked bin above an index |
| `BitMaps.SmallBits` | src/sys/mm/malloc.c:4061-4065 | the two low bits of the shifted small map tell whether the request's own bin or the next is marked |
| `BitMaps.NextSmall` | src/sys/mm/malloc.c:4081-4083 | the same scan on the small map shifted down and up again |
| `Tags.MergeTagged` | src/sys/mm/malloc.c:2557-2589 | joining neighbouring chunks keeps tiling, pinuse bits, feet and top |
| `Tags.MergeChunks` | src/sys/mm/malloc.c:2557-2589 | the joined range is one chunk and nothing outside it changes |
| `Tags.CutTagged` | src/sys/mm/malloc.c:2379-2390 | cutting a chunk in use keeps tiling, pinuse bits, feet and top |
| `Tags.TakeTopTagged` | src/sys/mm/malloc.c:4139-4149 | splitting top keeps the tags |
| `Tags.GiveTopTagged` | src/sys/mm/malloc.c:4213-4225 | giving the end of the segment to top keeps the tags |
| `Tags.GrowTagged` | src/sys/mm/malloc.c:3770-3780 | growing the last chunk into top keeps the tags |
| `Tags.ResizeTopTagged` | src/sys/mm/malloc.c:3186-3198 | init_top with a new size keeps every chunk |
| `Tags.WalkIsStarts` | src/sys/mm/malloc.c:2727-2756 | a traversal along the heads visits every chunk, and the chunk sizes add up to the distance from base to top |
| `Tags.NoAdjacentFree` | src/sys/mm/malloc.c:2568-2589 | two neighbouring chunks are never both free, and no free chunk borders top |
| `HeapState.TakenWhole` | src/sys/mm/malloc.c:4070-4072 | using a free chunk whole makes exactly that chunk live |
| `HeapState.TakenSplit` | src/sys/mm/malloc.c:4093-4096 | splitting a free chunk makes its front live and its rest free, and nothing else |
| `DlMalloc.RequestToSize` | src/sys/mm/malloc.c:4056-4059 | a padded request is a chunk size that holds the bytes and the overhead |
| `DlMalloc.UsedBinned` | src/sys/mm/malloc.c:4063-4074 | a binned chunk used whole leaves a sound heap with that one block more |
| `DlMalloc.SplitBinnedServed` | src/sys/mm/malloc.c:3680-3693 | a tree chunk split with the rest binned leaves a sound heap |
| `DlMalloc.SplitToDvServed` | src/sys/mm/malloc.c:4087-4097 | a binned chunk split with the rest as dv, the old dv binned, leaves a sound heap |
| `DlMalloc.UseDvServed` | src/sys/mm/malloc.c:4119-4137 | dv split or used up leaves a sound heap and a fitting block |
| `DlMalloc.UseTopServed` | src/sys/mm/malloc.c:4139-4149 | top split leaves a sound heap and a fitting block |
| `DlMalloc.GranularityAlign` | src/sys/mm/malloc.c:2054-2057 | the next page boundary strictly above a size, modulo 2^32 |
| `DlMalloc.ExtendedReady` | src/sys/mm/malloc.c:3457-3495 | memory from MORECORE goes to top and keeps the heap sound |
| `DlMalloc.SysAllocGood` | src/sys/mm/malloc.c:3328-3515 | unless the segment size or the break wraps, sys_alloc keeps the heap sound and returns a fitting block or none |
| `DlMalloc.WrappedBreak` | src/sys/mm/heap.c:75-88 | when the break plus the bytes asked for reach 2^32, ksbrk lets the sum wrap, and the heap is left without its invariant |
| `DlMalloc.MallocGood` | src/sys/mm/malloc.c:4030-4159 | every malloc that does not overflow keeps the heap invariant and all live blocks, and returns one new block of the padded size plus less than a minimum chunk, or none (`Placement.MallocServed` says when) |
| `DlMalloc.LargeChoice` | src/sys/mm/malloc.c:3678-3697 | when neither dv nor top will do, tmalloc_large serves a request exactly if some binned chunk is large enough |
| `DlMalloc.WrapsFirstBreaks` | src/sys/mm/malloc.c:3366-3379 | a first request whose segment size wraps to zero leaves top larger than the segment |
| `DlMalloc.MallocExact` | src/sys/mm/malloc.c:4030-4159 | malloc is correct exactly on the requests that do not overflow: those that some free chunk or top can serve, and those for which neither the first segment size nor the break reaches 2^32 |
| `Placement.MallocPlaces` | src/sys/mm/malloc.c:4049-4153 | every request is served from a smallest free chunk that fits, if that is preferred to dv (small requests: when it need not be split or dv is too small; large ones: unless dv fits at least as well), else from dv if that is large enough, else from the front of top if top is larger, and only else by the system; what is left of a chunk split for a small request becomes dv |
| `Placement.MallocServed` | src/sys/mm/malloc.c:4049-4153 | malloc returns a block exactly if a free chunk, dv or top can serve the request, or sys_alloc has something to ask for and the heap area is not exhausted; it panics exactly if nothing can serve it and the area is exhausted |
| `Placement.AskedIs` | src/sys/mm/malloc.c:3330-3420 | what sys_alloc asks for covers what top lacks, with at most a page more while MORECORE is contiguous, and is nothing only for a request of almost 2 GB |
| `DlMalloc.HalfGigabyte` | src/sys/mm/heap.c:75-88 | the first request, for half a gigabyte: granted, with a block that runs past the address space |
| `MallocState.SplitWords` | src/sys/mm/malloc.c:2388-2390 | the words written for a split are those of the split chunk, because the pinuse bit behind it is clear already |
| `MallocState.State.TakeBinned` | src/sys/mm/malloc.c:4069-4070 | unlinking and set_inuse_and_pinuse take a binned chunk whole |
| `MallocState.State.SplitBinnedToDv` | src/sys/mm/malloc.c:4087-4097 | the macros for a split with replace_dv |
| `MallocState.State.SplitBinnedToBin` | src/sys/mm/malloc.c:3683-3693 | the macros for a split with insert_chunk |
| `MallocState.State.TakeFromDv` | src/sys/mm/malloc.c:4119-4137 | serving from dv word by word |
| `MallocState.State.TakeFromTop` | src/sys/mm/malloc.c:4139-4149 | serving from top word by word |
| `MallocState.State.SystemAlloc` | src/sys/mm/malloc.c:3328-3515 | sys_alloc with contiguous MORECORE, the break modulo 2^32 |
| `MallocState.State.GrowNoncontiguous` | src/sys/mm/malloc.c:3431-3448 | the last call of MORECORE, which moves the break even when its memory is not used |
| `MallocState.State.SmallRequest` | src/sys/mm/malloc.c:4056-4108 | the branches for a small request |
| `MallocState.State.LargeRequest` | src/sys/mm/malloc.c:4111-4117 | the branches for a large request |
| `MallocState.State.Allocate` | src/sys/mm/malloc.c:4030-4159 | dlmalloc as it updates its state reaches the heap MallocGood speaks of |
| `DlFree.Neighbours` | src/sys/mm/malloc.c:4182-4214 | prev_foot, pinuse and size lead to the true neighbours of a chunk in use |
| `DlFree.CoalesceGood` | src/sys/mm/malloc.c:4184-4247 | freeing inside the segment absorbs both free neighbours, rebins or moves dv, and releases exactly that block |
| `DlFree.JoinTopGood` | src/sys/mm/malloc.c:4213-4225 | freeing before top joins top and releases exactly that block |
| `DlFree.TrimGood` | src/sys/mm/malloc.c:3560-3623 | a trim keeps the heap sound and every block |
| `DlFree.TrimLeaves` | src/sys/mm/malloc.c:3560-3621 | a trim gives back whole pages and leaves the reserve and at most a page in top |
| `DlFree.FreeGood` | src/sys/mm/malloc.c:4161-4259 | every free keeps the heap invariant and releases exactly that block |
| `DlFree.FreeTrims` | src/sys/mm/malloc.c:4213-4227 | a chunk freed in front of top joins it with its free neighbour, and top is trimmed when it has grown past the threshold |
| `DlFree.VictimKept` | src/sys/mm/malloc.c:4186-4253 | after a free dv is the free chunk that holds the old one, or none if that went to top |
| `MallocState.State.GiveToTop` | src/sys/mm/malloc.c:4213-4225 | the statements for a chunk that joins top |
| `MallocState.State.Consolidate` | src/sys/mm/malloc.c:4184-4247 | the statements that absorb the neighbours, in every combination with dv |
| `MallocState.State.TrimTop` | src/sys/mm/malloc.c:3560-3623 | sys_trim as it updates top and the segment |
| `MallocState.State.Release` | src/sys/mm/malloc.c:4161-4259 | dlfree as it updates its state reaches the heap FreeGood speaks of |
| `Payload.MallocKeeps` | src/sys/mm/malloc.c:4030-4159 | malloc changes no head and no foot inside a live block |
| `Payload.FreeUntouched` | src/sys/mm/malloc.c:4161-4259 | free changes no head and no foot inside any other live block |
| `Links.LinkTouched` | src/sys/mm/malloc.c:2871-2991 | every chunk whose links insert_chunk writes is in a bin before, or is the one inserted |
| `Links.CutTouched` | src/sys/mm/malloc.c:2890-3079 | every chunk whose links unlink_chunk writes is in a bin before |
| `Memory.MallocTraced` | src/sys/mm/malloc.c:4063-4117 | the bin steps of malloc lead from the bins before to the bins after, and bin only chunks that are free before or after |
| `Memory.FreeTraced` | src/sys/mm/malloc.c:4184-4247 | the same for free |
| `Memory.TouchedFree` | src/sys/mm/malloc.c:2871-3079 | every chunk whose links a call writes is free before or after the call |
| `Memory.MallocQuiet` | src/sys/mm/malloc.c:4030-4159 | malloc writes no byte of any live block: no head, no foot, no link and no mark behind top |
| `Memory.FreeQuiet` | src/sys/mm/malloc.c:4161-4259 | free writes no byte of any other live block |
| `Memory.AlignQuiet` | src/sys/mm/malloc.c:3861-3890 | no step of memalign after its malloc writes a byte of any other live block |
| `Memory.StaleReady` | src/sys/mm/malloc.c:1602-1608 | the heap invariant and the chunks do not depend on words where no chunk starts and no free chunk ends |
| `Memory.UsersWriteFreely` | src/sys/mm/malloc.c:1602-1608 | whatever the users write into their blocks, the heap read back from memory is as sound as before |
| `Memalign.EffectiveAlignmentIs` | src/sys/mm/malloc.c:3813-3821 | the search for a power of two in a 32-bit word ends exactly for powers of two and alignments up to 2^31; the alignment used is then a power of two, at least the one asked for and at least 16 |
| `Memalign.NeverSettles` | src/sys/mm/malloc.c:3818-3820 | at 0x80000001 the loop never ends |
| `Memalign.AlignUpIs` | src/sys/mm/malloc.c:3847-3850 | the masked sum is the next multiple of the alignment |
| `Memalign.LeadIsChunk` | src/sys/mm/malloc.c:3838-3855 | a lead is absent or a possible chunk, and what follows it is aligned |
| `Memalign.CutPieces` | src/sys/mm/malloc.c:3861-3879 | cutting lead and trailer leaves live pieces that make up the block |
| `Memalign.PiecesFreed` | src/sys/mm/malloc.c:3885-3890 | giving lead and trailer back leaves just the aligned part |
| `Memalign.MemalignExact` | src/sys/mm/malloc.c:3812-3895 | memalign returns an address that is a multiple of the alignment in a block of at least the padded size, with every other block in place, exactly when its loop ends and its malloc does not overflow |
| `Memalign.MemalignSucceeds` | src/sys/mm/malloc.c:3822-3895 | memalign fails exactly if the size test refuses the request or its malloc fails |
| `MallocState.State.AllocateAligned` | src/sys/mm/malloc.c:3812-3895 | internal_memalign as it updates the state, or hangs |
| `MallocState.State.NextPower` | src/sys/mm/malloc.c:3818-3820 | the loop to the next power of two, which is 0 once it can no longer end |
| `Realloc.ShrinkGood` | src/sys/mm/malloc.c:3760-3769 | shrinking frees a surplus of at least a minimum chunk and touches nothing in the block |
| `Realloc.GrowGood` | src/sys/mm/malloc.c:3770-3780 | growing into top keeps the block where it is |
| `Realloc.MoveGood` | src/sys/mm/malloc.c:3797-3805 | moving copies no more than the new block holds, and frees only the old block |
| `Realloc.ResizeExact` | src/sys/mm/malloc.c:3741-3808 | realloc replaces the one block, wastes less than a minimum chunk, and on failure leaves the old block live, except exactly when it moves the block and the malloc of the new one overflows |
| `Realloc.ResizeSucceeds` | src/sys/mm/malloc.c:3741-3808 | a realloc that shrinks or can grow into top never fails and stays in place; one that has to move fails exactly if malloc does |
| `Memory.ResizeKeepsBytes` | src/sys/mm/malloc.c:3741-3808 | in the memory that heads, feet and links share with the blocks, realloc keeps the first min(old usable, new) bytes |
| `Memory.ResizeSparesOthers` | src/sys/mm/malloc.c:3741-3808 | and every byte of every other block |
| `MallocState.State.Reallocate` | src/sys/mm/malloc.c:3741-3808 | internal_realloc as it updates the state |
| `HeapRuns.RunSound` | src/sys/mm/malloc.c:2758-2784 | over every run of malloc, memalign, realloc and free on requests that the code serves correctly, the invariant holds and the chunks in use are those handed out and not given back |
| `HeapRuns.FirstRun` | src/sys/mm/malloc.c:2758-2784 | the same from the zeroed state on |
| `HeapRuns.BlocksDisjoint` | src/sys/mm/malloc.c:2591-2602 | two live blocks never overlap and are 8-aligned inside the heap |
| `HeapRuns.PayloadPrivate` | src/sys/mm/malloc.c:2557-2589 | no head, and no foot of a free chunk, lies inside the user's bytes |
| `Sma.ListAdd` | src/sys/mm/sma.c:30-45 | sma_list_add puts a block before the first that starts later |
| `Sma.AllocTiled` | src/sys/mm/sma.c:125-234 | sma_alloc keeps used and free blocks sorted, positive and covering each address of the area exactly once, if and only if it does not follow a hint whose block is too short; sums wrap at the size of a word |
| `Sma.HintsOk` | src/sys/mm/sma.c:137-179 | address 0 and fixed ranges that do not wrap are always such hints |
| `Sma.FixedAlloc` | src/sys/mm/sma.c:137-156 | a fixed request is granted, at its address, exactly when one free block holds the range |
| `Sma.AllocPlace` | src/sys/mm/sma.c:125-234 | a wanted address that a free block holds with room behind it is granted; any other request is refused if fixed, and else granted exactly when some free block is large enough, in the one with the least start |
| `Sma.AppendAlloc` | src/sys/mm/sma.c:125-234 | fixed requests in ascending order into a fresh area always succeed |
| `Sma.FreedTiled` | src/sys/mm/sma.c:236-300 | freeing a whole block keeps the tiling |
| `Sma.AllocFreeRoundTrip` | src/sys/mm/sma.c:125-300 | allocating and freeing leaves every address as free as before |
| `Sma.AreaLists.Allocate` | src/sys/mm/sma.c:125-234 | sma_alloc with its loops |
| `Sma.AreaLists.Release` | src/sys/mm/sma.c:236-300 | sma_free of exactly one block |
| `Sma.AreaLists.GetBlock` | src/sys/mm/sma.c:328-353 | sma_getblock returns the only block that holds an address, and whether it is used |
| `Sma.AreaLists.NextUsed` | src/sys/mm/sma.c:355-368 | sma_get_next_used returns the used block with the least start behind the given one, or none is behind it |
| `SmaRuns.RunTiled` | src/sys/mm/sma.c:125-300 | over every run of sma_alloc and sma_free the area stays tiled and the used blocks are those granted and not given back |
| `SmaRuns.HeldApart` | src/sys/mm/sma.c:125-300 | no two blocks held after a run share an address |
| `SmaRuns.Fragments` | src/sys/mm/sma.c:236-330 | free neighbours are not joined: two pages taken and given back one by one leave an area that refuses the request for two pages it granted before |
| `SmaRuns.AllocUp` | src/sys/mm/sma.c:125-234 | sma_alloc on page-aligned bytes does what it does on pages, wrap included |
| `Phys.FrameMap.FindFirstZero` | src/sys/mm/phys.c:92-102 | the first free frame from a word on; 0 means none, or that frame 0 itself is free |
| `Phys.FrameMap.AllocFrom` | src/sys/mm/phys.c:104-140 | one frame is marked, exactly when the search finds one |
| `Phys.FrameMap.Alloc` | src/sys/mm/phys.c:142-193 | phys_alloc marks one free frame and nothing else, or fails; it fails with a frame free exactly when frame 0 is free and no zone asked for has a free frame |
| `Phys.FrameMap.Release` | src/sys/mm/phys.c:53-66 | phys_free clears that frame's bit and no other |
| `Phys.MarkedOnly` | src/sys/mm/phys.c:36-38 | setting or clearing a bit changes one frame |
| `Phys.RoundTrip` | src/sys/mm/phys.c:53-66 | freeing an allocated frame restores the map |
| `Paging.Directory.MapPage` | src/sys/arch/x86/page_32.c:43-74 | mapping a page changes the lookup of that page only, with a zeroed table on demand |
| `Paging.Directory.UnmapPage` | src/sys/arch/x86/page_32.c:76-95 | unmapping a page clears the lookup of that page only |
| `VmState.HeldOnce` | src/sys/mm/vm_getpage.c:66-71 | a page with one reference is held by one slot of one region |
| `VmState.WritableAlone` | src/sys/mm/vm_mmap.c:209-213 | no other virtual page of any space stands for the slot of a writable one |
| `VmFault.ProvideCore` | src/sys/mm/vm_getpage.c:92-122 | copying a page or fetching a fresh one keeps reference counts, frames and page tables in step |
| `VmFault.ProvideViews` | src/sys/mm/vm_getpage.c:92-122 | a fault changes what no process reads |
| `VmFault.FaultGood` | src/sys/mm/vm_getpage.c:76-126 | every fault that gets the frame it needs keeps the invariant and all views, succeeds exactly on permitted accesses, and then the entry allows the access |
| `VmFault.FaultExact` | src/sys/mm/vm_getpage.c:51-122 | a fault keeps the invariant exactly when it needs no frame or phys_alloc finds one: otherwise a copy clears the slot and leaves the old page's count, and a getpage hook maps frame 0 |
| `VmFault.LoadIsView` | src/sys/mm/vm_getpage.c:92-122 | a load through a present entry reads the page recorded in the region |
| `VmFault.StoreIsolated` | src/sys/mm/vm_getpage.c:92-122 | a permitted store changes one virtual page of one space |
| `VmFault.StoreConfined` | src/sys/mm/vm_getpage.c:81-122 | through an entry with the RW bit no store shows up elsewhere exactly when the region has one mapping |
| `VmLeak.ReadOnlyStoreLeaks` | src/sys/mm/vm_getpage.c:81-122 | a run from boot of create, mmap without PROT_WRITE, fork and one load, after which a store by one process changes what the other reads |
| `VmClone.OnlyUser` | src/sys/mm/vm_mmap.c:204-213 | a region mapped with PROT_WRITE has one mapping |
| `VmClone.CloneSharedCore` | src/sys/mm/vm_mmap.c:209-213 | sharing a read-only region keeps every count |
| `VmClone.CloneSharedViews` | src/sys/mm/vm_mmap.c:209-213 | the clone reads what its model reads |
| `VmClone.CloneSplitCore` | src/sys/mm/vm_mmap.c:214-267 | two new regions for one keep page counts exact, drop the old region, and leave no writable entry on a shared page |
| `VmClone.CloneSplitViews` | src/sys/mm/vm_mmap.c:214-267 | both sides read what was read before |
| `VmUnmap.MmapCore` | src/sys/mm/vm_mmap.c:60-107 | a new mapping keeps the invariant |
| `VmUnmap.MmapViews` | src/sys/mm/vm_mmap.c:60-107 | the new block reads as zeros or as the file |
| `VmUnmap.UnmapCore` | src/sys/mm/vm_mmap.c:132-183 | destroying a mapping keeps the counts, and frees exactly the frames whose last slot goes |
| `VmUnmap.UnmapViews` | src/sys/mm/vm_mmap.c:161-183 | only the mapping's own pages disappear from view |
| `VmSpaces.SpawnGood` | src/sys/mm/vm_space.c:35-56 | a new space changes nobody's view |
| `VmSpaces.MapGood` | src/sys/mm/vm_mmap.c:60-115 | mmap that follows no bad hint maps a block that was unmapped, and nothing else changes |
| `VmSpaces.MapExact` | src/sys/mm/vm_mmap.c:60-115 | mmap keeps all spaces in order exactly when it does not follow a hint whose block is too short, addresses counted modulo 2^20 pages |
| `VmSpaces.MapPlace` | src/sys/mm/vm_mmap.c:60-115 | mmap is refused exactly when sma_alloc finds no place, and otherwise gets the wanted address or the least block that is large enough |
| `VmSpaces.WrappingMap` | src/sys/mm/sma.c:143-144 | mmap of 0x50000000 bytes at 0xBF000000 with MAP_FIXED into a fresh space is granted and breaks the tiling |
| `VmSpaces.CloneNext` | src/sys/mm/vm_space.c:100-111 | cloning the next mapping into a fresh space never fails |
| `VmSpaces.ForkGood` | src/sys/mm/vm_space.c:91-116 | fork never fails in sma_alloc, the child reads what the parent reads, and no other view changes |
| `VmSpaces.ExitGood` | src/sys/mm/vm_space.c:58-80 | exit takes away one space and no other view |
| `VmRights.ForkRights` | src/sys/mm/vm_mmap.c:197-213 | the child may store exactly where the parent may, and its area is filled block by block |
| `VmRuns.StepRefines` | src/sys/mm/vm_space.c:91-116 | one step of the lazy spaces is one step of a machine that copies every page at fork, with its own rights and areas, and the process sees the same of it |
| `VmRuns.WriteExact` | src/sys/mm/vm_getpage.c:81-122 | a store is let through or refused as on that machine exactly unless the entry has an RW bit that the mapping does not grant |
| `VmRuns.LazyIsEager` | src/sys/mm/vm_space.c:91-116 | over every run, every load, store, placement and refusal is what that machine shows |
| `VmRuns.RunInv` | src/sys/mm/vm_mmap.c:132-267 | reference counts, frames and page tables are right after every run |
| `VmRuns.BootRefines` | src/sys/mm/vm_space.c:91-116 | the same from boot on |
| `VmFrames.RunRam` | src/sys/mm/vm_mmap.c:132-159 | over every run page frames are neither lost nor shared by two pages nor both free and used |
| `VmFrames.ForkCopiesNothing` | src/sys/mm/vm_mmap.c:161-213 | fork takes no frame and copies no byte |
| `VmFrames.NothingLeft` | src/sys/mm/vm_mmap.c:132-159 | a run after which no space is left leaves no page, and every page frame is free again |
| `Aspaces.EndInv` | src/sys/arch/x86/page_32.c:114-125 | ending a space frees its tables and loses its directory, a frame that was not lost before |
| `Aspaces.RunLoses` | src/sys/arch/x86/page_32.c:97-125 | over every run of creating, filling and ending spaces, the frames lost are as many as spaces ended |
| `Aspaces.DirectoriesLeak` | src/sys/arch/x86/page_32.c:97-125 | from boot until the last space has ended, the free frames have become fewer by the number of spaces ended |
| `Aspaces.PageTables.CreateAspace` | src/sys/arch/x86/page_32.c:97-112 | paging_create_aspace takes one frame for the directory, or fails |
| `Aspaces.PageTables.DestroyAspace` | src/sys/arch/x86/page_32.c:114-125 | paging_destroy_aspace, whose loop frees every table of the user's entries |
| `VmKernel.Kernel.TakePages` | src/sys/mm/vm_mmap.c:244-253 | the loop that copies page pointers counts two holders per page |
| `VmKernel.Kernel.Protect` | src/sys/mm/vm_mmap.c:256-260 | the loop that remaps the source's pages without the RW bit |
| `VmKernel.Kernel.DestroyRegion` | src/sys/mm/vm_mmap.c:132-159 | vm_destroy_region drops one holder per page and frees the frames of the last ones |
| `VmKernel.Kernel.CloneMapping` | src/sys/mm/vm_mmap.c:185-270 | vm_clone statement by statement |
| `VmKernel.Kernel.CloneSpace` | src/sys/mm/vm_space.c:91-116 | vm_space_clone's loop succeeds |
| `VmKernel.Kernel.DestroyMapping` | src/sys/mm/vm_mmap.c:161-183 | vm_destroy with its unmapping loop |
| `VmKernel.Kernel.DestroySpace` | src/sys/mm/vm_space.c:58-80 | the teardown loop over the used blocks |
| `VmKernel.Kernel.PageFault` | src/sys/mm/vm_pagefault.c:33-62 | vm_pagefault and vm_getpage statement by statement, with or without a frame |
| `VmKernel.Kernel.CopyPage` | src/sys/mm/vm_getpage.c:36-74 | vm_copy_page, which gives the slot NULL when there is no frame |
| `VmKernel.Kernel.FillPage` | src/sys/mm/vm_mmap_anon.c:44-68 | the getpage hook |
| `RwLock.StepInv` | src/sys/kernel/rwlock.c:32-118 | every section keeps: active is -1 exactly under one writer and else the number of readers; rd_count and wr_count are sleeping plus woken waiters; the wakeup conditions |
| `RwLock.RunInv` | src/sys/kernel/rwlock.c:32-118 | the same after every run, in any interleaving |
| `RwLock.FirstRun` | src/sys/kernel/rwlock.c:24-118 | after any run from a lock as rwlock_init leaves it, the invariant holds and a writer is alone |
| `RwLock.WriterAlone` | src/sys/include/kernel/rwlock.h:25-35 | a writer holds the lock alone |
| `RwLock.NoLostWakeup` | src/sys/kernel/rwlock.c:49-87 | a sleeper at a free lock means a woken waiter is about to run |
| `RwLock.SleeperHasReason` | src/sys/kernel/rwlock.c:49-118 | a sleeper implies a holder or a woken waiter |
| `RwLock.NewcomerAdmitted` | src/sys/kernel/rwlock.c:33-74 | a new reader gets in unless a writer holds the lock or waits for it, a new writer unless anybody holds it; who does not get in joins the back of its queue |
| `RwLock.WaiterAdmitted` | src/sys/kernel/rwlock.c:39-74 | a woken reader gets in unless a writer holds the lock, however many wait, and a woken writer unless anybody holds it |
| `RwLock.UpgradeAdmitted` | src/sys/kernel/rwlock.c:89-108 | an upgrade succeeds at once for the only holder, and otherwise gives up the share and waits |
| `RwLock.HandOver` | src/sys/kernel/rwlock.c:49-118 | a writer that leaves wakes all sleeping readers if any reader waits, else the oldest sleeping writer; the last reader that leaves wakes the oldest sleeping writer |
| `RwLock.Lock.LockSharedStart` | src/sys/kernel/rwlock.c:32-47 | rwlock_lock_shared up to its first sleep or its return |
| `RwLock.Lock.ResumeWaiter` | src/sys/kernel/rwlock.c:40-41 | a woken thread runs on in its loop |
| `RwLock.Lock.ReleaseShared` | src/sys/kernel/rwlock.c:49-59 | rwlock_unlock_shared |
| `RwLock.Lock.LockExclusiveStart` | src/sys/kernel/rwlock.c:61-73 | rwlock_lock_exclusive up to its first sleep or its return |
| `RwLock.Lock.ReleaseExclusive` | src/sys/kernel/rwlock.c:75-87 | rwlock_unlock_exclusive |
| `RwLock.Lock.UpgradeStart` | src/sys/kernel/rwlock.c:89-108 | rwlock_upgrade up to its first sleep or its return |
| `RwLock.Lock.DowngradeLock` | src/sys/kernel/rwlock.c:110-118 | rwlock_downgrade |
| `RwLock.Lock.WakeReaders` | src/sys/kernel/wait.c:54-60 | wait_wakeup_all on the readers' queue |
| `Semaphore.StepInv` | src/sys/kernel/sem.c:29-51 | value is initial plus releases less acquisitions, and while a thread sleeps at least value woken threads are under way |
| `Semaphore.RunInv` | src/sys/kernel/sem.c:29-51 | the same after every run |
| `Semaphore.FirstRun` | src/sys/kernel/sem.c:22-51 | after any run from sem_init on, value is the initial one plus releases less acquisitions and never sinks below it and 0 |
| `Semaphore.NeverOverdrawn` | src/sys/kernel/sem.c:29-40 | acquisitions never outrun what the semaphore has |
| `Semaphore.NoLostWakeup` | src/sys/kernel/sem.c:42-51 | a sleeper at a raised semaphore means a woken thread is about to take it |
| `Semaphore.Admission` | src/sys/kernel/sem.c:29-51 | who comes gets through exactly if the acquisitions leave something, and else joins the back of the queue; a release that leaves the semaphore positive wakes the oldest sleeper |
| `Semaphore.Sem.AcquireRound` | src/sys/kernel/sem.c:29-40 | sem_acquire, one round of its loop |
| `Semaphore.Sem.Raise` | src/sys/kernel/sem.c:42-51 | sem_release |
| `Mutex.StepInv` | src/sys/kernel/mutex.c:30-48 | locked exactly under one holder, and an unlocked mutex with sleepers has a woken thread |
| `Mutex.RunInv` | src/sys/kernel/mutex.c:30-48 | the same after every run |
| `Mutex.FirstRun` | src/sys/kernel/mutex.c:23-48 | after any run from mutex_init on, no two threads hold the mutex |
| `Mutex.MutualExclusion` | src/sys/kernel/mutex.c:30-40 | two threads never hold the mutex together |
| `Mutex.NoLostWakeup` | src/sys/kernel/mutex.c:42-48 | a sleeper implies a holder, or a woken thread at an unlocked mutex |
| `Mutex.Admission` | src/sys/kernel/mutex.c:30-48 | who comes gets the mutex exactly if nobody holds it, and else joins the back of the queue; an unlock wakes the oldest sleeper |
| `Mutex.Cell.LockRound` | src/sys/kernel/mutex.c:30-40 | mutex_lock, one round of its loop |
| `Mutex.Cell.Open` | src/sys/kernel/mutex.c:42-48 | mutex_unlock |
| `Scheduler.ScheduleInv` | src/sys/kernel/sched.c:69-130 | schedule keeps every thread in its place |
| `Scheduler.NextInLine` | src/sys/kernel/sched.c:68-113 | the thread that gives up with its slice used up goes to the back of the line, the front of the line runs next for a slice of its priority, and with nobody in line the idle thread runs |
| `Scheduler.SliceLeft` | src/sys/kernel/sched.c:75-80 | with some of its slice left a thread runs on with one tick less |
| `Scheduler.RunsInTurn` | src/sys/kernel/sched.c:68-113 | over any run in which nobody is woken, the thread in position i of the ready ring runs after exactly i + 1 turns |
| `Scheduler.NoStarvation` | src/sys/kernel/sched.c:68-113 | and so within i + 1 full slices |
| `Scheduler.Starves` | src/sys/kernel/sched.c:56-66 | two threads that wake each other before they sleep keep a ready third one from running for any number of rounds |
| `Scheduler.SleepInv` | src/sys/kernel/wait.c:23-44 | wait_sleep keeps every thread in its place |
| `Scheduler.SleepLast` | src/sys/kernel/wait.c:22-42 | wait_sleep puts the current thread at the back of its wait ring and changes no other |
| `Scheduler.WakeUpInv` | src/sys/kernel/sched.c:58-67 | sched_wakeup moves a thread from wherever it is to the ready ring |
| `Scheduler.StepInv` | src/sys/kernel/sched.c:58-130 | every step keeps all threads and the placement invariant |
| `Scheduler.RunInv` | src/sys/kernel/sched.c:58-130 | the same after every run |
| `Scheduler.FirstRun` | src/sys/kernel/sched.c:132-155 | after any run from the idle thread alone, each other thread is in exactly one place, the one its state says |
| `Scheduler.OnePlace` | src/sys/kernel/sched.c:58-114 | each thread but idle is current, on the ready ring, on one wait ring or detached, exactly one of these; Ready exactly on the ready ring |
| `Scheduler.IdleUnqueued` | src/sys/kernel/sched.c:93-95 | the idle thread is on no ring |
| `Scheduler.WakeOneIsOldest` | src/sys/kernel/wait.c:46-52 | wait_wakeup takes the thread that slept longest, and leaves other queues alone |
| `Scheduler.NoOvertaking` | src/sys/kernel/wait.c:22-60 | over any run, while a thread sleeps nobody behind it in its queue is woken, unless by name |
| `Scheduler.WakeAllReverses` | src/sys/kernel/wait.c:54-60 | wait_wakeup_all puts the sleepers in front of the ready ring in reverse order |
| `Scheduler.Cpu.Reschedule` | src/sys/kernel/sched.c:69-130 | schedule as it updates its fields |
| `Scheduler.Cpu.SleepCurrent` | src/sys/kernel/wait.c:23-44 | wait_sleep as one step |
| `Scheduler.Cpu.WakeEveryone` | src/sys/kernel/wait.c:54-60 | the loop of wait_wakeup_all |
| `Scheduler.Cpu.MakeReady` | src/sys/kernel/sched.c:58-67 | sched_wakeup as it updates its fields |
| `Rings.AddRing` | src/sys/include/lib/list.h:46-57 | list_add takes a node out of its ring and puts it behind another; both rings stay well-formed and every third one as it is |
| `Rings.RemoveRing` | src/sys/include/lib/list.h:59-66 | list_remove leaves the rest of the ring, the node on its own and every other ring |
| `Rings.PushFront` | src/sys/kernel/sched.c:64-64 | list_add behind the head makes the node the first element |
| `Rings.PushBack` | src/sys/kernel/wait.c:31-31 | list_add behind the head's predecessor makes the node the last element |
| `Rings.PopFront` | src/sys/kernel/sched.c:106-107 | removing the first element leaves the rest in order |
| `Rings.LinkMemory.ListAdd` | src/sys/include/lib/list.h:46-57 | list_add pointer by pointer, and no other ring changes |
| `Rings.LinkMemory.ListRemove` | src/sys/include/lib/list.h:59-66 | list_remove pointer by pointer, and no other ring changes |
| `Pipe.Buffer.Take` | src/sys/kernel/pipe.c:224-244 | the copying loop of pipe_read hands out the oldest bytes, as many as there are or are wanted |
| `Pipe.Buffer.Put` | src/sys/kernel/pipe.c:258-285 | the copying loop of pipe_write appends as many bytes as fit |
| `Pipe.StepInv` | src/sys/kernel/pipe.c:217-293 | accepted is delivered plus in flight; a sleeping reader left the pipe empty and the writer awake; while the reader's end is open every byte of a write is accepted or still with the writer |
| `Pipe.WriteTakes` | src/sys/kernel/pipe.c:249-293 | with both ends open a write sleeps, with a full pipe, exactly if it has more bytes than there is room, and otherwise all its bytes are accepted; without a reader it takes what fits; a sleeping reader is woken |
| `Pipe.ReadGives` | src/sys/kernel/pipe.c:217-247 | a read hands out min(n, bytes there) of the oldest bytes and sleeps exactly if it wants some, there is none and the writer's end is open |
| `Pipe.RunInv` | src/sys/kernel/pipe.c:217-293 | delivered is a prefix of accepted, at most PIPE_SIZE - 1 bytes are in flight, reader and writer are never asleep together, and while the reader's end is open the bytes accepted and those left with the writer are the bytes of all writes |
| `Pipe.FirstRun` | src/sys/kernel/pipe.c:309-323 | from the empty pipe that sys_pipe makes: what was read, what is in the pipe and what is still to be written is what was written, while the reader's end is open |
| `Pipe.WriterWakesOnlyOnEmpty` | src/sys/kernel/pipe.c:227-239 | a read wakes a sleeping writer exactly if it starts on an empty pipe and asks for something |
| `Pipe.ReaderStranded` | src/sys/kernel/pipe.c:217-239 | a sleeping reader can still be woken by some run exactly while the writer's end is open |
| `Pipe.WriterStranded` | src/sys/kernel/pipe.c:249-274 | a sleeping writer can still be woken by some run exactly while the reader's end is open |
| `Pipe.CloseStrands` | src/sys/kernel/pipe.c:295-307 | a step leaves a sleeper that no run wakes exactly if it closes the other end |
| `Pipe.Shared.FreeEnd` | src/sys/kernel/pipe.c:295-307 | pipe_free, which counts one end less and wakes nobody |
| `Pipe.Shared.ReadOn` | src/sys/kernel/pipe.c:217-247 | pipe_read from entry or wakeup to its return or its sleep |
| `Pipe.Shared.WriteOn` | src/sys/kernel/pipe.c:249-293 | pipe_write from entry or wakeup to its return or its sleep |
| `Ext2.FlatStops` | src/sys/modules/fs/ext2/inode.c:333-358 | the flat reading stops early only at a hole |
| `Ext2.FlatAt` | src/sys/modules/fs/ext2/inode.c:333-358 | each block it returns is the content of the logical block's device block |
| `Ext2.Reader.ReadDirect` | src/sys/modules/fs/ext2/inode.c:334-358 | the loop over the direct blocks continues the flat reading |
| `Ext2.Reader.ReadIndirect` | src/sys/modules/fs/ext2/inode.c:418-447 | the loop over the indirect block continues the flat reading |
| `Ext2.Reader.ReadDouble` | src/sys/modules/fs/ext2/inode.c:502-600 | the nested loops over the second-level tables continue the flat reading |
| `Ext2.Reader.ReadBlocks` | src/sys/modules/fs/ext2/inode.c:307-626 | the tiered read equals the flat reading up to the first hole, except after a hole in the direct tier with an indirect table, where it indexes before the table, and past the double-indirect range, where it hangs |
| `Ext2.AllRead` | src/sys/modules/fs/ext2/inode.c:307-626 | the tiered read returns every block asked for exactly when none of them is a hole |
| `Ext2.Read` | src/sys/modules/fs/ext2/ext2.c:101-173 | ext2_read with its calls for the head, the whole blocks and the tail, for every inode, offset and length |
| `Ext2.ReadDelivers` | src/sys/modules/fs/ext2/ext2.c:101-173 | a read that returns reports the bytes up to the end of the request or of the file, and delivers the file's byte wherever the block is there and no block before it in the same call is a hole, and an old byte of a buffer elsewhere |
| `Ext2.ReadExact` | src/sys/modules/fs/ext2/ext2.c:101-173 | every byte reported was read exactly when no block of the request is a hole; a request of no bytes goes wrong exactly if it is unaligned and its block is a direct hole in an inode with an indirect table |
| `Ext2.SparseRead` | src/sys/modules/fs/ext2/ext2.c:142-154 | a file of two blocks without its second: both are reported, the first alone was read, or the read strays before a table |
| `Files.FirstFree` | src/sys/kernel/vfs.c:530-545 | the lowest free descriptor from a start on |
| `Files.OpenInv` | src/sys/kernel/vfs.c:514-552 | open succeeds exactly while a descriptor is free and gives the lowest one a new file |
| `Files.DropInv` | src/sys/kernel/vfs.c:561-601 | closing a slot keeps every file's and every pipe's count exact |
| `Files.CloseInv` | src/sys/kernel/vfs.c:561-601 | close takes that one name away, and fails exactly on a descriptor that is not open |
| `Files.DupInv` | src/sys/kernel/vfs.c:790-810 | dup names the file at the lowest free descriptor from the start on, fails exactly on a bad descriptor or when none is free, keeps the counts, and runs before the table exactly for an open descriptor and a negative start |
| `Files.Dup2Inv` | src/sys/kernel/vfs.c:817-834 | dup2 makes the target name the file and leaves every other slot; it fails exactly on a bad descriptor, keeps the counts, and crashes exactly when an open descriptor is duplicated onto itself |
| `Files.MakePipeInv` | src/sys/kernel/pipe.c:309-388 | pipe succeeds exactly while two descriptors are free; the two lowest then name two new files, the counted ends of a new pipe; otherwise nothing changes |
| `Files.ForkInv` | src/sys/kernel/vfs.c:1295-1317 | the child's table names the parent's files, each counted once more |
| `Files.ExitInv` | src/sys/kernel/vfs.c:1282-1293 | exit closes every slot of the process and no other |
| `Files.StepInv` | src/sys/kernel/vfs.c:514-601 | every call that does not crash keeps: a file counts its names in all processes, a pipe its open ends |
| `Files.CrashExact` | src/sys/kernel/vfs.c:790-834 | a call crashes exactly if it duplicates an open descriptor from a negative start on or onto itself |
| `Files.RunInv` | src/sys/kernel/vfs.c:514-601 | the same after every run of such calls |
| `Files.FirstRun` | src/sys/kernel/vfs.c:514-601 | the same from empty tables on |
| `Files.LastCloseReleases` | src/sys/kernel/vfs.c:573-596 | a close releases the file exactly when it takes away the last name in any process |
| `Files.NothingLeft` | src/sys/kernel/vfs.c:1282-1293 | when all processes have exited no file is open |
| `Files.Descriptors.OpenFile` | src/sys/kernel/vfs.c:514-545 | the descriptor part of sys_open |
| `Files.Descriptors.CloseFile` | src/sys/kernel/vfs.c:561-601 | sys_close |
| `Files.Descriptors.DupFile` | src/sys/kernel/vfs.c:790-810 | do_sys_dup, for every start |
| `Files.Descriptors.Dup2File` | src/sys/kernel/vfs.c:817-834 | sys_dup2 |
| `Files.Descriptors.PipePair` | src/sys/kernel/pipe.c:309-388 | sys_pipe, which clears the first slot again if the second is missing |
| `Files.Descriptors.CloneTable` | src/sys/kernel/vfs.c:1295-1317 | the loop of vfs_clone |
| `Files.Descriptors.FreeTable` | src/sys/kernel/vfs.c:1282-1293 | the loop of vfs_free |

## Left out

- dlmalloc: options that are not compiled in (mmap, mspaces, FOOTERS, statistics and with them the footprint counters), `ialloc` and `calloc`, and the error actions of the runtime checks, which never fire under the invariant.
- dlmalloc bins: a small bin is a sequence and a tree bin a tree value, not chunks linked by pointers; the loops that descend a tree store through a path. `Links` says which chunks' link words each update writes, not what it writes there.
- dlmalloc segment: the order of `ksbrk`'s page mapping; running out of kernel address space is the outcome `Panic`, running out of frames there is not modelled.
- Memalign.Memalign, Realloc.Resize: once the malloc inside has overflowed, what they do to the broken heap is not followed further.
- vm_mmap: the checks of alignment, protection flags and descriptors; addresses and lengths, which these checks make multiples of a page, are counted in pages, and `SmaRuns.AllocUp` shows that nothing is lost by it. MAP_SHARED contents, and `vm_unmap`, which is not implemented in the kernel.
- VmFault.Fault: file contents are a fixed parameter of a region, and I/O errors are not modelled.
- VmRuns.LazyIsEager: TLB invalidation, other processors, vfork's shared spaces and `vm_space_switch` are not part of the model; `Paging` treats the two-level tables and `Aspaces` the frames behind them by themselves.
- Sma.AreaLists.Release: partial and multi-block frees are stubs in the kernel, and a free of an address in no used block never returns there; in the model both end with found == false.
- Phys: allocations of more than one frame.
- Kernel synchronisation: interleavings inside `wait_sleep` before `schedule`, several processors, and spurious wakeups by `sys_exit` inside the lock models; `Scheduler` has them as a step of its own.
- Pipe: several readers or several writers.
- Ext2: write, link and allocation paths, device errors, and what a buffer holds that nothing was read into.
- Files.Dup, Files.Dup2: after a crash the table is left as it was; what the stray access does to memory is not followed.
- Files: path resolution, devices, sockets and file positions; a file's object is taken to be gone with its last name.
- The storage cache, console, ELF loading, interrupt hardware, context switch and user programs.
