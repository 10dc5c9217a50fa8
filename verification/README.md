# Verified models of xv6's storage, tree, memory and scheduling code

Dafny models of six parts of this xv6-riscv kernel, with proofs of what they are for:

- **Crash-safe storage**: the buffer cache (`BufList`, `BufCache`), the redo log (`LogSpec`, `LogCache`,
  `LogImpl`, `LogRuns`, `LogFull`) and the file layer above it (`FsBits`, `FsOwner`, `FsMap`, `FsBytes`,
  `FsInode`, `FsState`, `FsFile`). A block write is the atomic step, a crash drops all memory, recovery can
  itself be cut off. `FsCrash` and `FsLog` join the two: a file operation is a log transaction, its blocks go
  through the log's own steps in any interleaving with other operations and readers, and after any history of
  operations and crashes the disk holds a sound file system with the files of the last one that committed.
- **Red-black tree** with parent pointers (`RbShape`, `RbHeap`, `RbBalance`, `RbOrder`, `RbRun`, `RbTree`).
  Nodes are heap objects; a ghost tree with a hole (a zipper) says where the fixup loops are.
- **Virtual memory**: Sv39 page tables in pages of physical memory, and the page allocator (`VmTable`,
  `VmTree`, `VmPages`, `VmMem`), what mapping costs (`VmCost`), for one process and for all of them together
  (`VmPool`).
- **Scheduling**: the policies (`SchedPick`, `SchedBudget`), the runnable counter (`SchedCounter`), arrival
  order and wait accounting (`SchedTable`), sleep and wakeup (`SleepWake`), span accounting (`SpanTime`, `SpanAcc`).
- **User allocator**: malloc and free (`AllocList`, `AllocHeap`).
- **mmap regions**: placement, faults and trimming (`MmapRegions`).

`Blocks`, `Common` and `Sums` hold what several of them share.

Code that changes things in place is modelled by classes whose methods are proved against functions and
predicates on values; concurrent protocols (the runnable counter, sleep and wakeup, the sleep-lock) are state
machines over the steps of any number of processes, with invariants proved for every run. Between the steps of
a commit other processes may read and release buffers in any way. A panic is an outcome (`ok == false`,
`Panic`, `Panicked`, `Halt`, `Stopped`), after which nothing is claimed.

Four results are about limits of the code rather than promises it keeps:

- A log that is completely full cannot be committed by a quiet system: every one of the 30 buffers is pinned,
  `bget` finds none for the first log block and panics. `LogImpl.Log.EndOp` states that with no other process
  in the cache a commit finishes exactly when fewer than 30 blocks are logged, and `LogFull.FullCommitFails`
  is a run that gets there.
- `log_write` refuses even a block that is already logged once the log is full (`LogImpl.Log.LogWrite`), as
  the run of `LogFull.AbsorbRefused` shows.
- The budget tracker takes the charges of an earlier window for those of the current one exactly when there
  are some, the window index is the same and the window is not (`SchedBudget.BudgetWindowTracker.Observe`).
  Clock readings up to 2^32 - WindowTicks apart rule that out; `SchedBudget.MissedTurn` is a run with readings
  one tick further apart that denies a budget of which nothing is used.
- `sys_munmap` checks neither the alignment nor the sign of its arguments. For all of them
  `MmapRegions.Maps.Munmap` states what happens: the region stays inside its old bytes exactly when the length is
  not negative, and is then page-aligned exactly when a part cut off its head is in whole pages; the kernel
  panics exactly when the loop meets a resident page from an unaligned start; and no page stays mapped outside
  the regions exactly when the range starts at a page boundary or its last page is not resident. The runs
  `Overlaps`, `Unaligned`, `Halts` and `StaysMapped` show each failure.

## Model

| member | source | states |
|---|---|---|
| `BufCache.Bcache.constructor` | kernel/bio.c:36-53 | binit's loop of pushes leaves a circular list that is a permutation of all 30 buffers, all unreferenced |
| `BufCache.Bcache.Lookup` | kernel/bio.c:65-73 | the scan finds the buffer of the block, and finds none only if no buffer holds it |
| `BufCache.Bcache.Victim` | kernel/bio.c:75-87 | the backward scan returns the unreferenced buffer that has been unreferenced longest; none only if all are referenced |
| `BufCache.Bcache.Bget` | kernel/bio.c:58-89 | at most one buffer per block afterwards, only an unreferenced buffer changes identity, the one idle longest; panics exactly when the block is uncached and all buffers are referenced |
| `BufCache.Bcache.Fill` | kernel/bio.c:97-102 | the locked buffer is valid and holds the disk block unless it was valid already |
| `BufCache.Bcache.Bread` | kernel/bio.c:92-103 | bget and fill together: the buffer comes back locked with the disk block, or the caller joins the waiters of the buffer that another process holds; panics exactly when bget does; keeps list, uniqueness and reference counts |
| `BufCache.Bcache.Bwrite` | kernel/bio.c:106-112 | exactly one disk write, of the buffer's data to its block; panics exactly when the buffer is not held |
| `BufCache.Bcache.Bpin` | kernel/bio.c:139-144 | one more pin; reference counts stay users plus pins plus waiters |
| `BufCache.Bcache.Bunpin` | kernel/bio.c:146-151 | undoes one pin while the buffer is held |
| `BufCache.Bcache.MoveToFront` | kernel/bio.c:128-133 | the six link writes unlink the buffer and push it at the front |
| `BufCache.Bcache.Brelse` | kernel/bio.c:116-137 | gives up lock and reference; the last user's buffer becomes most recent and all other buffers keep identity and contents, and the list stays ordered by time of release; panics exactly when the buffer is not held |
| `BufList.UnlinkOk` | kernel/bio.c:128-129 | unlinking keeps a circular doubly linked list of the other buffers in order |
| `BufList.PushFrontOk` | kernel/bio.c:130-133 | pushing keeps it circular and doubly linked with the buffer first |
| `LogImpl.Log.Read` | kernel/bio.c:92-103 | in every state of cache and log a locked buffer holds the logical block: the disk overlaid by logged writes |
| `LogImpl.Log.ReadWait` | kernel/bio.c:92-103 | a bread that must wait lets other processes take any steps and then returns a locked buffer with the logical block, never one the caller holds already; it gets none only when the cache is exhausted or the holder keeps it |
| `LogImpl.Log.Others` | kernel/file.c:121-124 | any sequence of other processes' reads, waits and releases keeps cache, log and logical blocks in agreement and does not touch held buffers |
| `LogCache.TakeOk` | kernel/bio.c:58-89 | recycling a buffer never loses a logged write, because logged blocks are pinned |
| `LogCache.InstallOk` | kernel/log.c:75-82 | installing a block makes disk and logical block agree, so its pin can go |
| `LogImpl.Log.WriteLog` | kernel/log.c:179-192 | its disk writes are the logical contents of the logged blocks, to the log area, in order; stopping early leaves a prefix |
| `LogImpl.Log.EncodeHead` | kernel/log.c:107-112 | the loop stores the count and the block numbers and leaves the rest of the header block |
| `LogImpl.Log.WriteHead` | kernel/log.c:103-115 | exactly one disk write, of the header that lists the logged blocks |
| `LogImpl.Log.InstallTrans` | kernel/log.c:66-84 | its disk writes copy the log area home in order; outside recovery the logical blocks do not change |
| `LogImpl.Log.Commit` | kernel/log.c:194-204 | whatever other processes read and release between its steps, its disk writes are log blocks, header, home blocks, empty header, in that order; it stops early only when no buffer is left for a block it needs or it waits for one that is held, and leaves a prefix; left alone it finishes on a quiet system with a spare buffer |
| `LogImpl.Log.DecodeHead` | kernel/log.c:90-96 | reads back the block numbers the header lists |
| `LogImpl.Log.ReadHead` | kernel/log.c:87-98 | the in-memory header becomes the one on disk |
| `LogImpl.Log.Recover` | kernel/log.c:117-124 | every home block gets its logical content and the log becomes empty; the writes are a prefix of the recovery writes if it stops |
| `LogSpec.HeaderCommits` | kernel/log.c:100-115 | the header write switches the logical content of every home block from old to new |
| `LogSpec.HeadWords` | kernel/log.c:107-112 | the words of a header block: the count, the block numbers, and the old words after them |
| `LogSpec.CommitWritesAre` | kernel/log.c:194-204 | commit's writes one by one: each block to the log area, the header that lists them, each block to its place, a header that lists none |
| `LogSpec.RecoveryWritesAre` | kernel/log.c:117-124 | recovery's writes one by one: each listed block from the log area to its place, then a header that lists none |
| `LogSpec.CommitTail` | kernel/log.c:194-204 | after the header write commit does exactly what recovery would do |
| `LogSpec.RecoveryPrefix` | kernel/log.c:117-124 | recovery cut off after any number of writes leaves a disk with the same logical content |
| `LogSpec.RecoveryIdempotent` | kernel/log.c:117-124 | recovery interrupted any number of times ends with the logical content in place and an empty log |
| `LogSpec.CommitPrefix` | kernel/log.c:179-204 | commit cut off after any k writes stands for the old contents up to the header write and for the new ones after it |
| `LogSpec.CrashAtomic` | kernel/log.c:66-204 | any crash in commit and any further crashes in recovery end with all home blocks old or all new, new exactly when the header write was done |
| `LogImpl.Log.CrashSafe` | kernel/log.c:194-204 | the same for the running system: old is what the disk had, new is what the processes saw |
| `LogRuns.RunAtomic` | kernel/log.c:66-204 | after any history of transactions, crashes and interrupted recoveries each home block holds what the last committed transaction wrote |
| `LogImpl.Log.BeginOp` | kernel/log.c:127-143 | admits exactly when no commit runs and ten more blocks per operation fit; keeps logged blocks plus unspent reservations within the log |
| `LogImpl.Log.FindLogged` | kernel/log.c:226-229 | finds the block's place in the log, or the end |
| `LogImpl.Log.LogWrite` | kernel/log.c:215-236 | absorbs or appends, keeps logged blocks distinct and pinned, updates the logical block; panics exactly when the log is full, never with an unspent reservation |
| `LogImpl.Log.EndOp` | kernel/log.c:147-176 | the last operation commits everything while other processes read on, and then disk and logical blocks agree; it fails only when a process needs a buffer and none is left or it is held; committing implies no outstanding operation; with no other process in the cache it finishes exactly when fewer than 30 blocks are logged, and otherwise writes nothing |
| `LogImpl.Log.SpareIffRoom` | kernel/param.h:10-11 | with no other process in the cache some buffer is unreferenced exactly when fewer than 30 blocks are logged |
| `LogFull.FillLog` | kernel/log.c:127-143 | from a quiet system with an empty log three admitted operations of ten blocks each fill the log |
| `LogFull.AbsorbRefused` | kernel/log.c:215-229 | in that state log_write refuses a block that is in the log already |
| `LogFull.FullCommitFails` | kernel/log.c:147-204 | in that state the last end_op fails without a disk write |
| `LogFull.Boot` | kernel/log.c:53-63 | such a quiet system with an empty log is what recovery leaves on any disk with a readable log |
| `FsBits.BlockBitPut` | kernel/fs.c:76-78 | setting or clearing a bit of a bitmap block changes that bit and no other |
| `FsBits.BlockBitIs` | kernel/fs.c:76-78 | the bit of a block is bit bi % 8 of byte bi / 8 of its bitmap block |
| `FsOwner.UsedIs` | kernel/fs.c:75-77 | whether a block is in use is bit i % 8 of byte i / 8, i = b % 8192, of bitmap block b / 8192 |
| `FsFile.Fs.ScanBits` | kernel/fs.c:75-77 | the inner scan stops at the first clear bit of the bitmap block, the end of the block or the end of the disk |
| `FsFile.Fs.Balloc` | kernel/fs.c:66-89 | returns the first block the bitmap has free, marked and zeroed; 0 only when none is free |
| `FsFile.Fs.Bfree` | kernel/fs.c:92-106 | clears exactly the block's bit and logs the bitmap block; panics exactly when the bit was clear |
| `FsOwner.Allocate` | kernel/fs.c:66-89 | an allocated block belongs to no inode and the bitmap stays exact |
| `FsOwner.Release` | kernel/fs.c:92-106 | freeing a block that no inode owns keeps the bitmap exact |
| `FsFile.Fs.Bmap` | kernel/fs.c:405-444 | gives the inode's word bn below 12 and word bn - 12 of its indirect block above; a block mapped before the call stays the same, a missing data or indirect block is allocated; used blocks stay metadata plus owned blocks with no block owned twice, other slots and files keep theirs; every block that changes is logged; 0 only when the disk is full; panics exactly beyond the largest file |
| `FsMap.DataAddrIs` | kernel/fs.c:405-444 | the address the theory gives a file block is the inode's word below 12 and the indirect block's word above |
| `FsBytes.ByteIs` | kernel/fs.c:505-516 | byte o of a file is byte o % 1024 of the block that the inode or its indirect block lists for o / 1024 |
| `FsInode.RoundTrip` | kernel/fs.c:226-242 | an inode with type, device numbers, link count, size and addresses reads back as it was written to its block, and its neighbours are untouched |
| `FsInode.InodeLayout` | kernel/fs.h:32-39 | the bytes of an inode are four little-endian shorts, then little-endian words for the size and the 13 addresses |
| `FsFile.Fs.Iupdate` | kernel/fs.c:226-242 | slot i % 16 of block i / 16 of the inode area holds all fields of the inode and is logged, and no file changes |
| `FsFile.Fs.WriteChunk` | kernel/fs.c:539-551 | one round of writei puts its bytes at off % 1024 of the mapped block and keeps all other bytes; every block that changes is logged |
| `FsFile.Fs.Writei` | kernel/fs.c:528-562 | replaces exactly the bytes [off, off+tot), extends the size, keeps all blocks below the size allocated and all other files; every block that changes is logged; stops short only when the disk is full; -1 exactly for a bad range |
| `FsFile.Fs.ReadPiece` | kernel/fs.c:505-516 | one round of readi returns the file's bytes and allocates nothing |
| `FsFile.Fs.Readi` | kernel/fs.c:494-519 | returns exactly the clamped slice of the file and changes nothing |
| `FsBytes.WriteCost` | kernel/file.c:149-153 | the blocks a write of at most three blocks' length logs, alignment, indirect block, bitmap and inode included, are at most ten |
| `FsFile.Fs.WriteOp` | kernel/file.c:160-165 | one chunk is a transaction from one sound file system to another in which all blocks changed or logged are at most ten; -1 exactly for a bad range, and less than the chunk only on a full disk |
| `FsFile.Fs.Filewrite` | kernel/file.c:134-179 | the file gets exactly the bytes up to the new offset, which is the end of the data unless the disk is full, the offset lies beyond the file or the next chunk passes the largest file; the result tells whether all were written, a write that finishes takes one transaction for every 3072 bytes or part of them, and the chunks are a chain of such transactions |
| `FsFile.Fs.Itrunc` | kernel/fs.c:448-476 | frees exactly the inode's direct, indirect and listed blocks, without meeting the free-block panic, and logs every block that changes: bitmap blocks and the inode's block; other files keep their contents |
| `FsFile.Fs.TruncOp` | kernel/fs.c:448-476 | truncating is a transaction from one sound file system to another that changes or logs at most the bitmap and one block more |
| `FsMap.TruncExact` | kernel/fs.c:448-476 | if an inode lost all its slots and the others kept theirs, exactly its blocks became free |
| `FsState.SameFrom` | kernel/fs.h:8-24 | the blocks from the inode blocks on decide whether the file system is sound and what its files are |
| `FsCrash.OperationAtomic` | kernel/log.c:10-24 | a file operation whose commit completes or is cut off anywhere, with any number of interrupted recoveries, leaves a sound file system whose files are all as before or all as after it |
| `FsCrash.Carried` | kernel/file.c:149-165 | the log can carry every operation that changes or logs at most thirty blocks, so each chunk of filewrite, and its commit may stop after any number of writes |
| `FsCrash.FilesSurvive` | kernel/log.c:66-204 | after any history of file operations, crashes and interrupted recoveries the disk holds a sound file system with the files of the last operation that committed |
| `FsLog.Interleave` | kernel/log.c:206-236 | any interleaving of the block changes of several operations, each with its blocks reserved and with any steps of readers in between, gives the blocks what the changes make of them; log_write panics only on a full log, bread fails only when a process is blocked |
| `FsLog.Together` | kernel/log.c:127-236 | operations so interleaved take the disk from one sound file system to another: when the last has ended, the disk holds exactly the files they make |
| `FsLog.CrashedFiles` | kernel/log.c:194-204 | a crash at any write of their commit and any interrupted recoveries leave all files as before them or all as after them |
| `FsLog.Planned` | kernel/file.c:149-165 | every operation that changes or logs at most ten blocks, so every chunk of filewrite, can be carried out so within its reservation |
| `FsLog.Operation` | kernel/file.c:160-165 | begin_op, the operation and end_op on an empty log leave the files of the operation on the disk |
| `FsLog.Chain` | kernel/file.c:155-173 | a chain of such operations, as filewrite makes, leaves the files of the last one on the disk |
| `RbTree.Tree.LeftRotate` | kernel/rbtree.cpp:3-17 | exactly the link changes of a left rotation, at the root or below |
| `RbTree.Tree.RightRotate` | kernel/rbtree.cpp:19-33 | exactly the link changes of a right rotation |
| `RbHeap.TurnedOk` | kernel/rbtree.cpp:3-33 | those link changes turn the linked tree into the rotated tree with consistent parent links |
| `RbHeap.RotateShape` | kernel/rbtree.cpp:3-33 | a rotation keeps the in-order sequence |
| `RbBalance.GrandparentExists` | kernel/rbtree.cpp:36-38 | a red parent is never the root, so the fixup never follows a null grandparent |
| `RbBalance.InsertRedUncle` | kernel/rbtree.cpp:39-44 | recolouring moves the red-red pair two levels up and keeps the black heights |
| `RbBalance.InsertOuter` | kernel/rbtree.cpp:45-55 | the outer rotation ends the repair |
| `RbTree.Tree.InsertFixup` | kernel/rbtree.cpp:35-79 | terminates with a red-black tree of the same in-order sequence, on either side |
| `RbTree.Tree.Insert` | kernel/rbtree.cpp:81-108 | keeps the red-black and parent-link invariants and places z after all keys not greater than its own and before all greater ones |
| `RbBalance.SiblingExists` | kernel/rbtree.cpp:121-130 | a node short of one black has a sibling, so the fixup never follows a null one |
| `RbBalance.DeleteRedSibling` | kernel/rbtree.cpp:125-131 | the case that does not move up leaves the node short in a tree with a black sibling and a red parent |
| `RbBalance.DeleteBlackNephews` | kernel/rbtree.cpp:132-137 | recolouring the sibling moves the shortage to the parent and keeps everything else |
| `RbBalance.DeleteFarRed` | kernel/rbtree.cpp:145-151 | the last rotation ends the shortage |
| `RbTree.Tree.Transplant` | kernel/rbtree.cpp:110-119 | exactly the link changes of replacing one child |
| `RbTree.Tree.DeleteFixup` | kernel/rbtree.cpp:121-188 | terminates with a red-black tree of the same in-order sequence, on either side |
| `RbOrder.SuccessorOrder` | kernel/rbtree.cpp:204-219 | putting the successor in z's place drops exactly z from the in-order sequence |
| `RbTree.Tree.Delete` | kernel/rbtree.cpp:190-224 | keeps all invariants and removes exactly z from the in-order node sequence |
| `RbTree.Tree.First` | kernel/rbtree.cpp:226-231 | the first node in order, null exactly for an empty tree |
| `RbTree.Tree.Last` | kernel/rbtree.cpp:233-238 | the last node in order, null exactly for an empty tree |
| `RbRun.RunStable` | kernel/rbtree.cpp:81-108 | after every run of insertions and deletions nodes are ordered by key, equal keys by time of insertion |
| `RbRun.FirstIsEarliest` | kernel/rbtree.cpp:226-231 | so the first node is the earliest-inserted one of least key |
| `RbRun.RunMembers` | kernel/rbtree.cpp:81-224 | a node is in the tree exactly when its last operation was its insertion |
| `RbBalance.LogHeight` | kernel/rbtree.cpp:35-79 | a red-black tree of n nodes is at most 2 log2(n + 1) high |
| `VmTable.PxInjective` | kernel/riscv.h:383-399 | addresses below MAXVA with equal indices at all three levels are in the same page |
| `VmTable.SlotInjective` | kernel/vm.c:97-115 | different virtual pages have different page-table words |
| `VmTable.AddMid` | kernel/vm.c:107-111 | hanging a zeroed page below the root keeps the flat map |
| `VmTable.AddLow` | kernel/vm.c:107-111 | hanging a zeroed page at the next level keeps the flat map |
| `VmTable.SetLeaf` | kernel/vm.c:167-167 | writing one word of a lowest-level table changes exactly one entry of the flat map |
| `VmMem.Machine.Kalloc` | kernel/kalloc.c:68-82 | pops the first free page and fills it; 0 exactly when none is free |
| `VmMem.Machine.Kfree` | kernel/kalloc.c:46-63 | pushes the page; panics exactly for an unaligned page or one outside the pool |
| `VmMem.Machine.Freerange` | kernel/kalloc.c:33-40 | exactly the whole pages of the range become free |
| `VmMem.Machine.Walk` | kernel/vm.c:97-115 | leads to the word of va, growing tables from free pages only when asked, exactly the missing ones; asked, it returns null exactly when fewer pages are free than tables are missing, not asked exactly when a table is missing; panics exactly at MAXVA and above |
| `VmMem.SlotWord` | kernel/vm.c:114-114 | the word walk leads to is the flat map's entry: a quarter of the address plus the flags, with the valid bit |
| `VmTable.FlagMeaning` | kernel/riscv.h:377-381 | the flag tests read the bits 1, 2, 4, 8 and 16 of the word, each as a digit of its binary form |
| `VmTable.PteFormat` | kernel/riscv.h:384-388 | an entry made from a page address and flags is a quarter of the address plus the flags |
| `VmMem.Machine.Walkaddr` | kernel/vm.c:120-138 | the flat map restricted to pages whose flags have bit 16 set, PTE_U, and 0 elsewhere |
| `VmMem.UserFlags` | kernel/vm.c:134-233 | walkaddr finds the pages that uvmalloc maps, and not those mapped for the kernel alone |
| `VmMem.Machine.Mappages` | kernel/vm.c:145-174 | on success the flat map gains exactly the range, which was unmapped, for exactly the tables that were missing; otherwise exactly its first k pages; panics only on bad arguments, a mapped page or MAXVA; fails only when the free pages do not pay for the tables; every other page is untouched |
| `VmCost.TablesAdd` | kernel/vm.c:101-112 | a set of pages and one more miss the tables of the set and those on the way to the new page that the set did not bring |
| `VmCost.NeedBound` | kernel/vm.c:101-112 | so mapping a set of new pages never takes more than three free pages for each |
| `VmMem.Machine.AddPage` | kernel/vm.c:225-236 | one new page costs itself and the missing tables; it fails exactly when fewer pages are free and panics exactly when the place is mapped and a page is free; on failure nothing leaks |
| `VmMem.Machine.Uvmcreate` | kernel/vm.c:178-187 | an empty page table in one zeroed page, 0 exactly when memory is out |
| `VmMem.Machine.Uvmunmap` | kernel/vm.c:192-212 | the flat map loses exactly the range; freed pages go to the free list once, all other pages stay; panics exactly for an unaligned address or a range beyond MAXVA |
| `VmMem.Machine.Uvmdealloc` | kernel/vm.c:246-258 | unmaps and frees exactly the pages between the rounded sizes and never panics |
| `VmMem.Machine.Uvmalloc` | kernel/vm.c:216-240 | on success adds exactly the new pages, zeroed, with the given flags, for exactly the pages and missing tables; fails only when fewer pages are free than that, and then the map is as before and free list plus tables hold the same pages; panics only on a page already mapped that the free pages reach |
| `VmMem.Machine.Uvmcopy` | kernel/vm.c:296-324 | the child gets exactly the parent's pages below sz with equal flags and contents, for exactly these pages and the missing tables; it fails only when fewer pages are free, at the first page they do not pay for: the child then loses its pages below that one, and if it had none there its map is as before and nothing leaks; the parent is untouched; panics only on a page both have |
| `VmTree.Entry` | kernel/vm.c:266-275 | an entry without read, write and execute bits leads to the next table, any other valid entry is a leaf |
| `VmMem.Machine.Freewalk` | kernel/vm.c:262-278 | returns every table page below exactly once; panics exactly when a leaf is left |
| `VmMem.Machine.Uvmfree` | kernel/vm.c:282-288 | every table page and user page is on the free list, counted once; succeeds exactly when no leaf lies at or above sz |
| `VmPool.PoolConserved` | kernel/vm.c:192-324 | whatever is done to one process's table, free pages and all processes' pages still cover the pool and share nothing, and other processes' pages keep their contents |
| `VmPool.CreateTable` | kernel/vm.c:178-187 | uvmcreate on a machine with any number of processes adds one sound table; the pool stays covered, nothing is shared and all other tables stay sound with their contents |
| `VmPool.CopyTable` | kernel/vm.c:296-324 | the same for uvmcopy from one process to another: only the child changes, and it fails only when the free pages do not pay for the copy |
| `VmPool.FreeTable` | kernel/vm.c:282-288 | the same for uvmfree: the table is gone and its pages are free |
| `VmPool.GrowTable` | kernel/vm.c:216-240 | the same for uvmalloc: only that process changes, and it fails only when the free pages do not pay for the growth |
| `VmPool.ShrinkTable` | kernel/vm.c:246-258 | the same for uvmdealloc: only that process changes |
| `VmPool.UnmapTable` | kernel/vm.c:192-212 | the same for uvmunmap with its pages freed |
| `VmPool.Boot` | kernel/kalloc.c:26-40 | after kinit the free pages are the pool, exactly the whole pages of the range, and there is no table |
| `VmPool.RunCovers` | kernel/vm.c:178-324 | through every run of creating, changing and freeing page tables, free pages and the processes' pages cover the pool and share nothing |
| `SchedPick.Scan` | kernel/sched_rr.hpp:19-27 | the first eligible slot in circular order after `last`, -1 exactly when there is none |
| `SchedPick.RR.PickNext` | kernel/sched_rr.hpp:18-28 | idle exactly when nothing is runnable, and then `last` stays; else the runnable slot with no other between `last` and it, which becomes `last` |
| `SchedPick.PriorityPreempt.PickNext` | kernel/sched_priority.hpp:36-63 | idle exactly when nothing is runnable, and then `last` stays; else the nearest runnable latency-sensitive slot if the first pass is made and there is one, else the nearest runnable slot, and it becomes `last` |
| `SchedPick.Bypass` | kernel/sched_rr.hpp:18-28 | while a slot stays eligible and unpicked, fewer than n picks go elsewhere, all to different slots in circular order |
| `SchedPick.IdleSkipped` | kernel/sched_rr.hpp:18-28 | picks that find nothing to run can be left out of a run: the others return the same slots from the same `last` |
| `SchedPick.BypassIdle` | kernel/sched_rr.hpp:18-28 | the bypass bound for runs with idle picks anywhere: fewer than n picks go elsewhere, all to different slots |
| `SchedPick.RoundRobin` | kernel/sched_rr.hpp:18-28 | of n picks during which a slot is runnable one is that slot, and no other is picked twice before |
| `SchedPick.LsRoundRobin` | kernel/sched_priority.hpp:44-52 | the same for latency-sensitive slots under PriorityPreempt, whatever the others do |
| `SchedPick.PlainRoundRobin` | kernel/sched_priority.hpp:206-217 | the same for every runnable slot while the budget stays exhausted |
| `SchedPick.CounterStandsIn` | kernel/sched_priority.hpp:42-53 | a counter that is positive whenever a latency-sensitive process is runnable gives the same choice and the same `last` as a scan |
| `SchedCounter.StepExact` | kernel/proc.c:80-103 | each step of mark_runnable, dispatch, setpriority, sleep, exit, allocation and freeing keeps the counter equal to runnable latency-sensitive processes plus transitions in flight |
| `SchedCounter.CounterSound` | kernel/scheduler.cpp:36-46 | after any interleaving from boot the counter never under-counts, is exact between transitions, and both forms of PriorityPreempt pick alike |
| `SchedTable.FcfsPick` | kernel/sched_fcfs.hpp:18-28 | the runnable process with the smallest arrival number, the first on a tie; -1 exactly when none is runnable |
| `SchedTable.FcfsHead` | kernel/sched_fcfs.hpp:18-28 | that is the process that became runnable first |
| `SchedTable.Table.Tick` | kernel/trap.c:217-246 | one tick more for every process that is RUNNABLE, with the tick counter wrapping at 2^32 |
| `SchedTable.Table.MarkRunnable` | kernel/proc.c:80-103 | the process joins the arrival order at the end and its waiting interval opens |
| `SchedTable.Table.Dispatch` | kernel/scheduler.cpp:38-86 | re-checks, takes the process out of the arrival order wherever it stands and closes its interval |
| `SchedTable.Table.FcfsRound` | kernel/scheduler.cpp:36-46 | pick and dispatch under FCFS: the first of the arrival order leaves, -1 exactly when it is empty, and in runs of such rounds the dispatched processes are a prefix of those made runnable |
| `SchedTable.Table.Leave` | kernel/proc.c:602-629 | going to sleep, exiting or being freed leaves arrival order and accounts as they are |
| `SchedTable.Table.Alloc` | kernel/proc.c:199-212 | a new process starts with priority 0 and nothing on its account |
| `SchedTable.SeenSum` | kernel/scheduler.cpp:69-76 | the 32-bit differences add up to the true waits exactly when every wait is below 2^32 ticks, to less otherwise |
| `SchedTable.Table.Stats` | kernel/sysproc.c:184-189 | closed waits plus the open one are the ticks spent RUNNABLE since allocation exactly when no wait reached 2^32 ticks; the longest is no shorter than any closed wait and is one of them |
| `SchedBudget.SameIndex` | kernel/sched_priority.hpp:143-150 | within 2^32 - WindowTicks ticks an unchanged index means an unchanged window, across the wrap of the clock |
| `SchedBudget.BoundTight` | kernel/sched_priority.hpp:114-128 | one tick further apart there are readings with equal index in different windows |
| `SchedBudget.MissedTurn` | kernel/sched_priority.hpp:143-156 | a run at such readings, for every budget and window: the tracker denies the budget of a window without charges |
| `SchedBudget.BudgetWindowTracker.Observe` | kernel/sched_priority.hpp:143-150 | the charge stays min(BudgetTicks, charges in the current window) exactly when no charges of another window with the same index are taken over |
| `SchedBudget.BudgetWindowTracker.BudgetAvailable` | kernel/sched_priority.hpp:153-156 | true exactly when the window of the true time has had fewer than BudgetTicks charges, unless the count is so mistaken; then still true only in that case |
| `SchedBudget.BudgetWindowTracker.Charge` | kernel/sched_priority.hpp:161-172 | counts one charge, and an exhaustion exactly on the charge that uses up the window unless the count is mistaken; exhaustions times BudgetTicks never exceed the charges |
| `SchedBudget.PrioritySelectBudget.PickNext` | kernel/sched_priority.hpp:184-219 | idle exactly when nothing is runnable, and then `last` stays; else the nearest slot, a latency-sensitive one if there is one exactly while the window's budget lasts; counts normal picks made over a waiting latency-sensitive process |
| `SchedBudget.PrioritySelectBudget.ChargeTick` | kernel/sched_priority.hpp:226-231 | a tick is charged exactly when it hit a latency-sensitive process |
| `SleepWake.StepInv` | kernel/proc.c:602-647 | every step of sleep, wakeup, kill and dispatch keeps the lock discipline and the fact that a sleeper on a true condition is still ahead of a wakeup in progress |
| `SleepWake.NoLostWakeup` | kernel/proc.c:602-647 | in every reachable state, a process SLEEPING while the condition lock is free has a false condition, and no process sleeps on a true one when a wakeup ends |
| `SleepWake.LockStep` | kernel/sleeplock.c:21-41 | every step keeps: a test of `locked` stays true until the write that follows it, and the lock is clear exactly when nobody has it or is taking it |
| `SleepWake.MutualExclusion` | kernel/sleeplock.c:21-52 | in every state that any number of processes reaches from an unlocked sleep-lock, the test and the writes being separate steps under its spinlock, it has at most one holder, and while the spinlock is free it is locked exactly when it has one and holdingsleep names it |
| `SpanTime.Lengthen` | kernel/span_window_accumulator.hpp:58-73 | a piece inside one window adds its length to that window and to no other |
| `SpanAcc.Accumulator.FindOrCreate` | kernel/span_window_accumulator.hpp:29-40 | the window's slot, listed once; -1 only when all 32 are taken by others |
| `SpanAcc.Accumulator.AddSegment` | kernel/span_window_accumulator.hpp:54-74 | the total is the sum of all durations, every listed window has the exact latency-sensitive time inside it, and without overflow the others have none |
| `SpanAcc.Accumulator.AddSpan` | kernel/span_window_accumulator.hpp:79-90 | the same for a span, cut at the change of priority when it lies inside |
| `SpanAcc.PiecesExact` | kernel/span_window_accumulator.hpp:79-90 | the cut pieces last as long as the span and their latency-sensitive time is the number of instants at priority 1 |
| `SpanAcc.Observer.DispatchEnter` | kernel/span_observe.cpp:93-99 | opens a segment at the current priority |
| `SpanAcc.Observer.SetPriority` | kernel/span_observe.cpp:119-132 | a real change closes and reopens the segment, a call with the same value does not, and the account stays exact |
| `SpanAcc.Observer.DispatchExit` | kernel/span_observe.cpp:103-111 | accounts for the whole dispatch with all its setpriority calls |
| `SpanAcc.Observer.Report` | kernel/span_observe.cpp:134-157 | at any time, also inside a dispatch, every listed window holds exactly the instants at priority 1 of all dispatches so far and of the closed part of the current one, and the total is their duration |
| `AllocHeap.Heap.FindSpot` | user/umalloc.c:30-32 | the circular search ends at the last free block below the given address |
| `AllocList.FreedOrdered` | user/umalloc.c:33-43 | after free the list is address-ordered with one wrap and no two adjacent free blocks |
| `AllocHeap.FreeWrites` | user/umalloc.c:33-43 | the header writes link exactly that list, in all four cases of coalescing |
| `AllocHeap.Heap.Free` | user/umalloc.c:24-44 | the block becomes free, every other allocated block stays, free and live blocks still tile what sbrk gave, and the next search starts at the block before it |
| `AllocHeap.Heap.Morecore` | user/umalloc.c:46-61 | the new region joins the free list and makes a block that is large enough; nothing changes if sbrk fails |
| `AllocHeap.Heap.TakeFrom` | user/umalloc.c:76-84 | unlinks the block or cuts exactly n units off its end; the result is a new live block of that size |
| `AllocHeap.LeastUnits` | user/umalloc.c:69-69 | the units asked for are the least number whose units after the header hold nbytes |
| `AllocHeap.Heap.Malloc` | user/umalloc.c:63-90 | the block has the least number of 16-byte units whose units after the header hold nbytes; it is the end of the first block that large from the search start; ends after at most one sbrk, of at least 4096 units; 0 exactly when no free block has that many units and sbrk fails |
| `MmapRegions.RoundUp` | kernel/sysfile_mmap.cpp:23-25 | the least multiple of the page size not below the length |
| `MmapRegions.NoCollision` | kernel/sysfile_mmap.cpp:59-59 | no overlap in bytes is no overlap in pages, although lengths are kept unrounded |
| `MmapRegions.Maps.Place` | kernel/sysfile_mmap.cpp:49-65 | the address is page-aligned, below TRAPFRAME, in no used region's pages, right below TRAPFRAME or a used region, and there is no room at any higher address; the loop restarts once for each region it runs into |
| `MmapRegions.Maps.Mmap` | kernel/sysfile_mmap.cpp:27-80 | fills the first free slot with a region at the highest address that has room, and keeps all regions disjoint in pages and all resident pages backed; -1 exactly for a bad length, a bad descriptor or a full table |
| `MmapRegions.Maps.Fault` | kernel/sysfile.c:560-592 | a fault in any page of a region, its partial last one included, makes that page resident with its part of the file; it fails exactly outside the regions, on a resident page or without memory |
| `MmapRegions.TrimExact` | kernel/sysfile.c:547-556 | trimming takes away exactly the pages asked for, and every surviving page keeps its file offset |
| `MmapRegions.CutBytes` | kernel/sysfile.c:547-556 | for every int length, byte by byte what a cut leaves of the region, in the same places of the same file |
| `MmapRegions.TrimAligned` | kernel/sysfile.c:547-551 | a region stays page-aligned and inside its old pages exactly when a part cut off its head is in whole pages |
| `MmapRegions.NoWrap` | kernel/sysfile.c:525-532 | a 64-bit sum that wraps around can pass the scan and never passes the test that follows, so the tests decide as they would on integers |
| `MmapRegions.Maps.UnmapPages` | kernel/sysfile.c:534-546 | unmaps exactly the resident pages of the range; those of a shared region are each written back once at their file offsets, no other page is, and a private region writes none; from an unaligned address it panics exactly when a round meets a resident page |
| `MmapRegions.WritesAll` | kernel/sysfile.c:534-546 | the write-backs of the loop are the resident pages of the range, each once, and none for a private region |
| `MmapRegions.Maps.Munmap` | kernel/sysfile.c:513-558 | for every address and int length: refuses exactly when the first region that the scan accepts is not cut at head or tail, else trims that region; the resident pages of the range, and no others, are written back if the region is shared, each once and where it was read from, and none if it is private; says exactly when it panics, when the region stays inside its bytes, when regions stay aligned and disjoint, and when resident pages stay backed |
| `MmapRegions.WrittenHome` | kernel/sysfile.c:534-546 | what munmap writes back goes to the file and offset the page came from |
| `MmapRegions.StaysMapped` | kernel/sysfile.c:534-556 | a run of mmap, fault and munmap after which a page is mapped in no region |
| `MmapRegions.Halts` | kernel/sysfile.c:534-546 | a run of mmap, fault and munmap that ends in the alignment panic of uvmunmap |
| `MmapRegions.Unaligned` | kernel/sysfile.c:547-551 | a run of mmap and munmap that leaves a region which does not start at a page |
| `MmapRegions.Overlaps` | kernel/sysfile.c:525-551 | two mmaps and a munmap of negative length, after which two regions share a page |

## Left out

- SpanAcc.Accumulator.AddSegment: 64-bit wrap-around of times and totals is not modelled.
- SchedTable.Table.Dispatch: 64-bit wrap-around of totals and arrival numbers is not modelled.
- SchedTable.Table.Alloc: run_ticks_total, which only counts, is not modelled.
- SchedCounter.StepExact: reading a priority and changing the counter are one step, because only the process itself changes its priority and the process's lock is held.
- AllocHeap.Heap.Malloc: sbrk's answer is a parameter, a region above `base` that shares no unit with earlier ones; requests for which the int argument of sbrk would overflow are not modelled.
- AllocHeap.Heap.Free: the caller frees a live block and has not overwritten its header.
- MmapRegions.Maps.UnmapPages: writing a page back is one step; its own transaction and the length of the file are in `FsFile`.
- MmapRegions.Maps.Fault: a page's contents are its place in the file; the bytes are `FsFile.Fs.Readi`'s.
- FsFile.Fs.Writei: copies from user memory do not fault part-way.
- FsFile.Fs.Bmap: the block layer below it is the logical disk that `LogImpl` provides; `FsLog` runs the resulting block changes on the log's steps, not the lines of bmap one by one.
- FsLog.Interleave: what an operation reads to find its changes is part of `FsFile`; here its changes are given, and another operation's change of a block falls between two of them, not inside one.
- VmMem.Machine.Uvmunmap: the end of the range does not exceed 64 bits, and pages freed lie below TRAPFRAME, since the two pages above belong to the kernel or to the process slot.
- VmMem.Machine.Uvmalloc: the new size is at most TRAPFRAME, as the callers check, and heap growth into mmap regions is a panic on a mapped page.
- VmMem.Machine.Uvmdealloc: the old size is at most TRAPFRAME, as the callers check.
- VmMem.Machine.Uvmcopy: sz is at most TRAPFRAME, as for every process size.
- VmMem.Machine.Kfree: the page is not free already; the code does not detect a second free, and every caller in the model is shown not to make one.
- VmMem.Machine.Freewalk: every leaf is readable, writable or executable, since that is how the code tells a leaf from a table.
- VmMem.Machine.Uvmfree: the same, and sz is at most TRAPFRAME.
- BufCache.Bcache.Bread: a wait is an outcome here; `LogImpl.Log.ReadWait` is the whole call with other processes' steps in it, and the sleep-lock protocol is in `SleepWake`.
- BufCache.Bcache.Bwrite: a buffer is held or not; which process holds it is `SleepWake.MutualExclusion`.
- BufCache.Bcache.Brelse: the same, and giving up the sleep-lock and the reference is one step.
- BufCache.Bcache.Bunpin: the buffer is pinned and held, as in install_trans, its only caller.
- SleepWake.NoLostWakeup: one channel and one condition lock; processes on other channels do not take part.
- RbTree.Tree.Insert: keys are integers and do not change while a node is in a tree; rbtree.h is not part of this model.
- Spinlock internals, memory fences, interrupts and context switches: locks are atomic steps.
- The races of several CPUs on one policy object: fairness, budget and span results are for one CPU.
- The virtio disk, the console, pipes, path names, directories, the inode table, exec, the shell and the user tools.
- vmfault, copyin, copyout and the kernel page table: easier than the page-table properties above.
- Benchmarks and self-test harnesses.
