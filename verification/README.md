# Verified core of the xv6 kernel

A model, in Dafny, of the xv6 RISC-V kernel in `TDT4186 - OS/Labs/Lab3` with its copy-on-write
additions, and of three user programs, together with proofs of what they are for.

| files | what they model |
|---|---|
| `BufferCache`, `LogSpec`, `Log`, `GroupCommit`, `Durability` | the block cache, the write-ahead log over it, crash recovery, group commit, and all of them end to end |
| `Cow`, `CowMachine` | copy-on-write memory: page allocator, reference counts, fork, the store-fault handler |
| `PageTableSpec`, `PageTable` | Sv39 three-level page tables (section 4.4 of the RISC-V Privileged Architecture specification) as a flat map |
| `FsSpec`, `Fs` | block allocation, the block map of an inode, truncation, byte-range reads and writes, the chunking of `filewrite` |
| `FsDisk`, `CrashSafety` | where a file system lies on disk, and the file system over the log: what a crash at any disk write leaves of it |
| `Path`, `Inodes` | path components, the inode table, path lookup |
| `Proc` | process lifecycle: fork, exit, wait, sleep, wakeup, kill |
| `Virtio` | the disk driver's virtqueue against a device that works in any order (sections 2.6 and 5.2 of virtio 1.1) |
| `Pipe` | the kernel pipe |
| `Heap`, `Umalloc` | the K&R allocator in user space |
| `ShellSpec`, `ShellGrammar`, `Shell` | the shell's parser, and the grammar it accepts |
| `Grep` | the regular-expression matcher and line filter |

Code that updates state in place is a class whose methods carry `modifies` clauses and are proved
against functions of the old state; the laws are lemmas about those functions.  Protocols that
interleave are step relations (`GroupCommit`, `Proc`) or classes whose methods are the sections under
one lock (`Virtio`, `Pipe`, `CowMachine`).  A panic is a result value, not a precondition, wherever
callers can reach it.

`dafny verify dfyconfig.toml` checks everything.

## Where the code does less than it says

- The comments of `log.c` promise that operations of up to MAXOPBLOCKS blocks never overflow the log.
  `begin_op` admits three of them, but `log_write` refuses the thirtieth block, and with a larger log
  `bget` runs out of buffers; readers outside the log make that worse, since every block that a process
  refers to, whether it has it locked, waits for its lock or has just unlocked it, keeps a buffer as well.
  `GroupCommit.NeverPanicsIff` gives the exact condition and `GroupCommit.ReachPanic` the run.
- `copyout` ignores PTE_COW, so the kernel can write into a page that another process shares.
  `Cow.CopyoutIsolatedIff` gives the exact condition, and `CowMachine.ReachLeak` a run from boot.
- `morecore` passes its byte count to `sbrk` as an int.  `Umalloc.SbrkArgExact` gives the exact bound.
- `kill(0)` marks a free process slot, and `allocproc` does not clear the mark.
  `Proc.KillHitsFree` and `Proc.BornKilledIff` say exactly when that happens, and `Proc.BornKilled` is a run.
- `kalloc` asserts that a page is left, so the failure paths of its callers cannot be reached in the kernel.
  `CowMachine` models the panic; `PageTable` models the failure paths, with an allocator that may return none.
- `grep` stops reading at a line that fills its buffer, and never prints an unterminated last line.
  `Grep.GrepFile` says exactly where it stops and exactly when it reads the whole file, and
  `Grep.LongLineLost` gives inputs whose matching lines are lost.

## Model

| member | source | states |
|---|---|---|
| `BufferCache.Bcache.constructor` | TDT4186 - OS/Labs/Lab3/kernel/bio.c:36-54 | binit builds a ring of all n buffers, none of them valid, over any disk |
| `BufferCache.Bcache.Bget` | TDT4186 - OS/Labs/Lab3/kernel/bio.c:58-89 | finds the one buffer of a cached block, else recycles the least recently used of the unreferenced ones; it panics exactly when the block is not cached and as many blocks are locked or pinned as there are buffers |
| `BufferCache.Bcache.Bread` | TDT4186 - OS/Labs/Lab3/kernel/bio.c:92-103 | the returned buffer is locked and holds the latest logical contents of the block; it sleeps, holding a reference, exactly when the block is locked; it panics exactly when Bget does; no other buffer and no other block changes |
| `BufferCache.Bcache.Wake` | TDT4186 - OS/Labs/Lab3/kernel/bio.c:63-69 | a process that slept on a buffer gets the lock exactly when it is free, and finds in that very buffer the latest contents of the block it asked for |
| `BufferCache.Bcache.Bwrite` | TDT4186 - OS/Labs/Lab3/kernel/bio.c:106-112 | the disk changes at the buffer's block only, in one write of the history |
| `BufferCache.Bcache.Brelse` | TDT4186 - OS/Labs/Lab3/kernel/bio.c:116-137 | unlocks; a buffer nobody refers to moves to the front of the LRU ring, and the ring stays a permutation of all buffers |
| `BufferCache.Bcache.Splice` | TDT4186 - OS/Labs/Lab3/kernel/bio.c:126-134 | the pointer surgery on next and prev is a move to the front of the abstract order |
| `BufferCache.Bcache.Bpin` | TDT4186 - OS/Labs/Lab3/kernel/bio.c:139-144 | adds one pin to the block, and nothing else changes |
| `BufferCache.Bcache.Bunpin` | TDT4186 - OS/Labs/Lab3/kernel/bio.c:146-151 | removes one pin from the block, and nothing else changes |
| `BufferCache.Unlink` | TDT4186 - OS/Labs/Lab3/kernel/bio.c:128-129 | unlinking an element of a doubly linked ring leaves the ring of the others, in the same order |
| `BufferCache.PushFront` | TDT4186 - OS/Labs/Lab3/kernel/bio.c:130-133 | inserting behind the head leaves the ring with that element first |
| `BufferCache.Replace` | TDT4186 - OS/Labs/Lab3/kernel/bio.c:64-86 | recycling an unreferenced buffer keeps: one buffer per block, every buffer that differs from disk pinned or locked, exact reference counts |
| `BufferCache.AllTaken` | TDT4186 - OS/Labs/Lab3/kernel/bio.c:78-88 | all buffers are referenced exactly when as many blocks are locked or pinned as there are buffers |
| `LogSpec.CrashAtomicity` | TDT4186 - OS/Labs/Lab3/kernel/log.c:178-204 | for every transaction and every crash point of commit, recovery leaves outside the log exactly the disk before, or exactly the disk after; the latter exactly when the header write was reached |
| `LogSpec.RecoveryRestarts` | TDT4186 - OS/Labs/Lab3/kernel/log.c:116-123 | any state that a crash during recovery leaves can be recovered, to the same contents outside the log |
| `LogSpec.CrashesDuringRecovery` | TDT4186 - OS/Labs/Lab3/kernel/log.c:116-123 | any number of crashes during recovery, one after the other, change nothing about where recovery ends |
| `LogSpec.ReinstallSame` | TDT4186 - OS/Labs/Lab3/kernel/log.c:68-83 | install_trans is idempotent from each of its intermediate states |
| `LogSpec.BeforePoint` | TDT4186 - OS/Labs/Lab3/kernel/log.c:178-191 | until the header is written, recovery gives back the old disk |
| `LogSpec.AfterPoint` | TDT4186 - OS/Labs/Lab3/kernel/log.c:193-204 | from the header write on, recovery gives the whole transaction |
| `LogSpec.LoggedAt` | TDT4186 - OS/Labs/Lab3/kernel/log.c:178-191 | the i-th logged block lies at the i-th place behind the header, with the contents readers see |
| `LogSpec.InstalledAt` | TDT4186 - OS/Labs/Lab3/kernel/log.c:68-83 | install_trans gives each logged block what lies at its place in the log, and leaves every other block alone |
| `Log.Log.constructor` | TDT4186 - OS/Labs/Lab3/kernel/log.c:54-65 | initlog recovers: the disk becomes the recovered one, the log is empty, nothing is pinned |
| `Log.Log.ReadHead` | TDT4186 - OS/Labs/Lab3/kernel/log.c:86-98 | the in-memory header is the one on disk |
| `Log.Log.WriteHead` | TDT4186 - OS/Labs/Lab3/kernel/log.c:102-114 | one write, which changes the header block to the in-memory header and nothing else |
| `Log.Log.LogBlock` | TDT4186 - OS/Labs/Lab3/kernel/log.c:178-191 | one logged block is copied into its log block in one write; it fails exactly when the cache is full |
| `Log.Log.InstallBlock` | TDT4186 - OS/Labs/Lab3/kernel/log.c:72-82 | one logged block is copied home in one write and, after a commit, unpinned |
| `Log.Log.InstallTrans` | TDT4186 - OS/Labs/Lab3/kernel/log.c:68-83 | the disks it writes, one by one, are those of the specification |
| `Log.Log.RecoverFromLog` | TDT4186 - OS/Labs/Lab3/kernel/log.c:116-123 | the disk ends up recovered and every intermediate disk is a recovery state |
| `Log.Log.Commit` | TDT4186 - OS/Labs/Lab3/kernel/log.c:193-204 | panics exactly when the blocks in use fill the cache, and then before any write; otherwise the disk goes through the states of the crash theorem, no contents change outside the log, and of the pins those of the transaction are gone and those of sleeping readers stay |
| `Log.Log.LogWrite` | TDT4186 - OS/Labs/Lab3/kernel/log.c:214-235 | panics exactly on a full log or outside an operation, also for a block already logged; otherwise absorbs, or appends and pins; other processes may hold or wait for any file blocks |
| `Log.Log.BeginOp` | TDT4186 - OS/Labs/Lab3/kernel/log.c:126-142 | admits an operation exactly when no commit runs and every operation could still use its full budget |
| `Log.Log.EndOp` | TDT4186 - OS/Labs/Lab3/kernel/log.c:146-176 | commits exactly when the last operation ends; the commit is the one of Commit |
| `Log.CommitIsAtomic` | TDT4186 - OS/Labs/Lab3/kernel/log.c:193-204 | cache and log together: a crash at any write of a commit recovers to exactly the disk before it or exactly what readers of the cache saw |
| `Log.QuietDiffers` | TDT4186 - OS/Labs/Lab3/kernel/log.c:214-235 | for clients that log before releasing, whatever they hold or wait for, cache and disk differ only in the logged blocks |
| `Log.DoneView` | TDT4186 - OS/Labs/Lab3/kernel/log.c:193-204 | a commit changes no contents that a reader sees outside the log |
| `Durability.Do` | TDT4186 - OS/Labs/Lab3/kernel/log.c:126-235 | each call of a process, up to the next point where it may wait, refines the block store: it panics exactly when the log or the buffers are full, finds the contents that the store holds, and makes exactly the disk writes of a commit or none, each of which recovers to the old contents up to the header write and to the new ones from then on |
| `Durability.Run` | TDT4186 - OS/Labs/Lab3/kernel/log.c:126-235 | over any interleaving of begin_op, bread, the wake-up of a sleeper, changes with log_write, brelse and end_op by any processes, with buffers held and waited for across calls, on the log and the cache themselves: no call before the last panics and the last panics exactly when the log or the buffers are full, every bread finds what a block store with group commit holds, and every disk ever written recovers to what was committed before the call that wrote it, or with it, the switch being the header write |
| `Durability.Durable` | TDT4186 - OS/Labs/Lab3/kernel/log.c:116-123 | end to end: after any run, a crash at any disk write and any number of crashes during recovery leave exactly the contents committed before the call that was writing, if the header of its commit was not among the writes, and exactly those committed with it if it was |
| `FsDisk.DiskDetermines` | TDT4186 - OS/Labs/Lab3/kernel/fs.h:10-51 | a disk holds at most one file system: the same bitmap, the same inodes and the same bytes of every file |
| `FsDisk.UnloggedHolds` | TDT4186 - OS/Labs/Lab3/kernel/log.c:207-235 | a block that a transaction did not log, be it of data, of inodes or of the bitmap, holds the file system after the transaction as well as the one before: logging what changed is enough |
| `FsDisk.IupdateHolds` | TDT4186 - OS/Labs/Lab3/kernel/fs.c:225-242 | after iupdate the inode block holds the file system with the new inode, and still all other inodes of the block |
| `FsDisk.BitmapHolds` | TDT4186 - OS/Labs/Lab3/kernel/fs.c:73-80 | setting or clearing one bit of a bitmap block, as balloc and bfree do, gives the block of the new bitmap |
| `FsDisk.PutGetBit` | TDT4186 - OS/Labs/Lab3/kernel/fs.c:75-77 | a bit that is set or cleared in a word reads back, and the others stay |
| `FsDisk.BitmapByte` | TDT4186 - OS/Labs/Lab3/kernel/fs.c:73-77 | bit c of the bitmap is bit c % 8 of byte c % BPB / 8 of its block |
| `FsDisk.InodeWord` | TDT4186 - OS/Labs/Lab3/kernel/fs.h:32-39 | the size and the block numbers of an inode lie at their offsets in its 64 bytes |
| `CrashSafety.Completes` | TDT4186 - OS/Labs/Lab3/kernel/log.c:207-235 | when the blocks of a transaction have their contents, readers see the whole file system after it, whatever it left alone |
| `CrashSafety.BetweenAt` | TDT4186 - OS/Labs/Lab3/kernel/log.c:126-176 | at every point of a run, what is committed is the file system after some number of whole transactions, and readers see the one after all that are complete, but for the blocks of the one under way |
| `CrashSafety.CrashSafe` | TDT4186 - OS/Labs/Lab3/kernel/log.c:10-22 | for any run that carries out transactions of the file system, any number to a commit: a crash at any disk write, and any number of crashes while recovering, leave a disk on which recovery finds a file system with exact ownership and bitmap, namely the one after exactly the transactions committed, those of the commit under way counting from its header write on |
| `CrashSafety.FilewriteCrash` | TDT4186 - OS/Labs/Lab3/kernel/file.c:155-174 | a crash anywhere during filewrite leaves a file system in which the file has a prefix of the data written at the offset and every other file is as it was |
| `CrashSafety.Perform` | TDT4186 - OS/Labs/Lab3/kernel/file.c:162-167 | begin_op, log_write of each block and end_op of any transaction of the file system, run on the log and the cache: panics exactly when log or cache is too small for its blocks; otherwise the disk holds the file system after it, and a crash at any of its disk writes leaves the one before, up to the header write, or the one after |
| `GroupCommit.GroupCommitSafety` | TDT4186 - OS/Labs/Lab3/kernel/log.c:126-176 | in every run of operations within MAXOPBLOCKS: logged blocks are distinct, they and the unused budgets fit in LOGSIZE, and a commit contains whole operations only |
| `GroupCommit.RunKeeps` | TDT4186 - OS/Labs/Lab3/kernel/log.c:126-235 | the accounting of log space is kept by every run of begin, log_write, end and commit, with references to buffers taken, waited with, locked and dropped in between |
| `GroupCommit.NeverPanicsIff` | TDT4186 - OS/Labs/Lab3/kernel/log.c:214-235 | for every budget, log size, number of buffers and number of blocks that processes, readers included, may refer to at once, having them locked, waiting for the lock or having just unlocked them: no interleaving panics if and only if the peak of 10 + 2 * budget logged blocks stays below LOGSIZE and below size - 1, and the peak plus the blocks referred to stays below the number of buffers |
| `GroupCommit.PromisedBudgetPanics` | TDT4186 - OS/Labs/Lab3/kernel/log.c:220-223 | the documented budget of MAXOPBLOCKS blocks lets some run panic for every log size and every number of buffers; with the sizes used, a budget b is safe exactly if b is at most 9 and processes refer to at most 19 - 2 * b blocks at once, sleepers included |
| `GroupCommit.ReachPanic` | TDT4186 - OS/Labs/Lab3/kernel/log.c:214-235 | whenever one of the three limits is reached, a run from boot that panics |
| `Cow.UnmapGood` | TDT4186 - OS/Labs/Lab3/kernel/vm.c:186-190 | dropping one mapping keeps counts exact and frees the page exactly with its last mapping |
| `Cow.ShareGood` | TDT4186 - OS/Labs/Lab3/kernel/vm.c:306-330 | sharing a page copy-on-write keeps the invariant, takes PTE_W from both entries and sets PTE_COW, and changes no other flag; the twin reads what the original reads |
| `Cow.InstallGood` | TDT4186 - OS/Labs/Lab3/kernel/vm.c:226-250 | a newly mapped page is read by its own process only |
| `Cow.UnshareGood` | TDT4186 - OS/Labs/Lab3/kernel/trap.c:68-89 | the fault handler gives the process a page of its own, writable, and changes what no process reads |
| `Cow.StoreIsolated` | TDT4186 - OS/Labs/Lab3/kernel/trap.c:68-89 | a store through a writable entry is seen by its own process only |
| `Cow.CopyoutIsolatedIff` | TDT4186 - OS/Labs/Lab3/kernel/vm.c:349-369 | copyout is isolated if and only if the page's count is one or the bytes are already there |
| `Cow.RefsBounded` | TDT4186 - OS/Labs/Lab3/kernel/kalloc.c:33-56 | a page has at most one mapping per process |
| `CowMachine.Machine.constructor` | TDT4186 - OS/Labs/Lab3/kernel/kalloc.c:58-74 | kinit puts every page on the free list, with FREE_PAGES its length |
| `CowMachine.Machine.Kalloc` | TDT4186 - OS/Labs/Lab3/kernel/kalloc.c:104-124 | takes the head of the free list, or panics exactly when it is empty; FREE_PAGES stays the list's length |
| `CowMachine.Machine.Kfree` | TDT4186 - OS/Labs/Lab3/kernel/kalloc.c:80-99 | pushes the page, filled with junk; FREE_PAGES stays the list's length |
| `CowMachine.Machine.KrefInc` | TDT4186 - OS/Labs/Lab3/kernel/kalloc.c:41-47 | adds one to a uint8 count |
| `CowMachine.Machine.KrefDec` | TDT4186 - OS/Labs/Lab3/kernel/kalloc.c:49-56 | drops one from a count and frees the page exactly at zero |
| `CowMachine.Machine.Take` | TDT4186 - OS/Labs/Lab3/kernel/kalloc.c:104-124 | the kernel takes a page for itself: it comes from the free list, is named by no entry and is in no view |
| `CowMachine.Machine.Give` | TDT4186 - OS/Labs/Lab3/kernel/kalloc.c:80-99 | a kernel page comes back to the free list, and no view changes |
| `CowMachine.Machine.CountBounded` | TDT4186 - OS/Labs/Lab3/kernel/kalloc.c:33-56 | in every reachable state a mapped page's count equals the number of entries naming it and is at most NPROC, so it never wraps |
| `CowMachine.PagesExact` | TDT4186 - OS/Labs/Lab3/kernel/riscv.h:338-338 | rounding a size up gives exactly the pages that start below it |
| `CowMachine.StepBytes` | TDT4186 - OS/Labs/Lab3/kernel/vm.c:226-330 | byte by byte: fork gives the child the parent's byte at every address, a store changes one byte of one process, growing adds zeros up to the end of the last page and keeps the rest, shrinking and exit remove exactly the pages at and above the size |
| `CowMachine.DidMeans` | TDT4186 - OS/Labs/Lab3/kernel/proc.c:353-424 | the entry of an operation names that operation, its process, its address and its value |
| `CowMachine.RefusedIff` | TDT4186 - OS/Labs/Lab3/kernel/proc.c:353-424 | an operation is refused exactly when its process or the child's slot is missing, its address is not mapped, or there is nothing to change |
| `CowMachine.Machine.StoreFault` | TDT4186 - OS/Labs/Lab3/kernel/trap.c:68-95 | handles exactly user copy-on-write entries, kills the process for any other, panics only without memory, and never changes a view |
| `CowMachine.Machine.Store` | TDT4186 - OS/Labs/Lab3/kernel/trap.c:68-95 | a user store, with its fault, changes one byte of its own process's view and no other |
| `CowMachine.Machine.Load` | TDT4186 - OS/Labs/Lab3/kernel/vm.c:109-126 | a user load returns the byte of the process's view |
| `CowMachine.Machine.CopyoutPage` | TDT4186 - OS/Labs/Lab3/kernel/vm.c:349-369 | writes through the entry whatever its PTE_W and PTE_COW |
| `CowMachine.Machine.UnmapPage` | TDT4186 - OS/Labs/Lab3/kernel/vm.c:170-193 | the page rejoins the free list exactly when this was the last entry naming it |
| `CowMachine.Machine.UvmUnmap` | TDT4186 - OS/Labs/Lab3/kernel/vm.c:170-193 | removes exactly the mappings of its range, and exactly those pages leave the views |
| `CowMachine.Machine.UvmAlloc` | TDT4186 - OS/Labs/Lab3/kernel/vm.c:226-250 | adds exactly the zeroed pages of its range, or panics exactly when memory is short |
| `CowMachine.Machine.UvmCopy` | TDT4186 - OS/Labs/Lab3/kernel/vm.c:306-330 | the child's view is a copy of the parent's; every shared page is read-only and counted |
| `CowMachine.Machine.Fork` | TDT4186 - OS/Labs/Lab3/kernel/proc.c:376-424 | fork does to the views what the copying machine does |
| `CowMachine.Machine.Exit` | TDT4186 - OS/Labs/Lab3/kernel/proc.c:250-267 | freeing a process removes its view and no other |
| `CowMachine.Machine.Growproc` | TDT4186 - OS/Labs/Lab3/kernel/proc.c:353-372 | growing and shrinking follow the copying machine, byte by byte; afterwards every process can address exactly the bytes up to the end of the page that holds its last one; shrinking below zero changes nothing |
| `CowMachine.Machine.Do` | TDT4186 - OS/Labs/Lab3/kernel/proc.c:353-424 | one operation makes exactly its own event, changes the bytes that processes see as that event says, and panics exactly when memory is short; afterwards every process can address exactly what its size gives it |
| `CowMachine.Machine.Run` | TDT4186 - OS/Labs/Lab3/kernel/vm.c:306-330 | over every interleaving of forks, loads, stores with faults, growing, shrinking, exits and kernel allocations, with one entry per operation: the entry is the event of that operation, or none exactly when the operation is refused; the machine that copies at fork accepts all entries, with the same value for every load, and ends with the same views; it panics exactly when memory is short |
| `CowMachine.Machine.CopyoutLeaks` | TDT4186 - OS/Labs/Lab3/kernel/vm.c:349-369 | after any fork, copyout into any user page of the parent, whatever the data, shows up in the child |
| `CowMachine.ReachLeak` | TDT4186 - OS/Labs/Lab3/kernel/vm.c:353-361 | a run from boot, by growing, forking and one copyout into the parent, after which the child reads 7 where the parent's page held 0 |
| `Heap.InsertSorted` | TDT4186 - OS/Labs/Lab3/user/umalloc.c:24-44 | freeing keeps the list sorted by address, without overlap and without two adjacent free blocks |
| `Heap.InsertCovers` | TDT4186 - OS/Labs/Lab3/user/umalloc.c:24-44 | the free bytes after free are those before and those of the block |
| `Heap.FreeLinks` | TDT4186 - OS/Labs/Lab3/user/umalloc.c:33-43 | the four assignments of free realise the sorted insertion with merging on the circular list |
| `Heap.TakeSorted` | TDT4186 - OS/Labs/Lab3/user/umalloc.c:75-85 | taking units from a block keeps the list sorted and coalesced |
| `Heap.TakeCovers` | TDT4186 - OS/Labs/Lab3/user/umalloc.c:75-85 | taking splits the free bytes into those left and those handed out |
| `Heap.TakeLinks` | TDT4186 - OS/Labs/Lab3/user/umalloc.c:75-85 | malloc's pointer updates realise the taking on the circular list |
| `Heap.FreeKeeps` | TDT4186 - OS/Labs/Lab3/user/umalloc.c:24-44 | free moves a block from live to free; free and live bytes stay a partition of the bytes obtained |
| `Heap.TakeKeeps` | TDT4186 - OS/Labs/Lab3/user/umalloc.c:75-85 | malloc moves units from free to live; free and live bytes stay a partition of the bytes obtained |
| `Umalloc.SbrkArgExact` | TDT4186 - OS/Labs/Lab3/user/umalloc.c:46-61 | for every request, sbrk is asked for what morecore needs if and only if the request is at most 2^31 - 32 bytes |
| `Umalloc.PayloadFits` | TDT4186 - OS/Labs/Lab3/user/umalloc.c:63-90 | the payload lies inside the block, behind its header |
| `Umalloc.Allocator.FindPlace` | TDT4186 - OS/Labs/Lab3/user/umalloc.c:29-32 | the ring search terminates and finds the place that the address order asks for, across the wrap point too |
| `Umalloc.Allocator.Join` | TDT4186 - OS/Labs/Lab3/user/umalloc.c:33-42 | links and merges as the specification of free |
| `Umalloc.Allocator.Free` | TDT4186 - OS/Labs/Lab3/user/umalloc.c:24-44 | the block is no longer live, the heap invariant holds, and the list has a block at least as large |
| `Umalloc.Allocator.Morecore` | TDT4186 - OS/Labs/Lab3/user/umalloc.c:46-61 | adds exactly the granted units to the heap, or reports failure with nothing changed |
| `Umalloc.Allocator.TakeFrom` | TDT4186 - OS/Labs/Lab3/user/umalloc.c:75-85 | hands out the tail of the block found and leaves the rest on the list |
| `Umalloc.Allocator.Scan` | TDT4186 - OS/Labs/Lab3/user/umalloc.c:70-90 | goes around the ring once and finds the first block that is large enough, or none exactly if there is none |
| `Umalloc.Allocator.Malloc` | TDT4186 - OS/Labs/Lab3/user/umalloc.c:63-90 | terminates; fails exactly when no free block is large enough and sbrk refuses; asks for memory at most once; otherwise the result is the end of the first block on the ring, from freep on, that is large enough, and is disjoint from every live block |
| `FsSpec.PutGetWord` | TDT4186 - OS/Labs/Lab3/kernel/fs.c:400-415 | a word written into an indirect block is read back, and the others stay |
| `FsSpec.WordDigits` | TDT4186 - OS/Labs/Lab3/kernel/fs.c:400-415 | a word of an indirect block is its four bytes, lowest first |
| `FsSpec.FillKeeps` | TDT4186 - OS/Labs/Lab3/kernel/fs.c:382-421 | giving an inode a block keeps: bitmap bit set exactly for owned blocks, one owner each |
| `FsSpec.FillOwned` | TDT4186 - OS/Labs/Lab3/kernel/fs.c:382-421 | exactly the new block becomes owned |
| `FsSpec.FillBytes` | TDT4186 - OS/Labs/Lab3/kernel/fs.c:382-421 | allocating a block changes no byte of any file, because it is zeroed |
| `FsSpec.WriteBytes` | TDT4186 - OS/Labs/Lab3/kernel/fs.c:506-539 | writing a file's block changes its own bytes and no other file's |
| `FsSpec.DropKeeps` | TDT4186 - OS/Labs/Lab3/kernel/fs.c:425-453 | freeing an inode's block keeps ownership exact |
| `FsSpec.DropOwned` | TDT4186 - OS/Labs/Lab3/kernel/fs.c:425-453 | exactly the dropped block stops being owned |
| `FileSystem.Disk.Balloc` | TDT4186 - OS/Labs/Lab3/kernel/fs.c:65-88 | the first free block, marked and zeroed; 0 exactly when there is none |
| `FileSystem.Disk.Bfree` | TDT4186 - OS/Labs/Lab3/kernel/fs.c:91-105 | clears the bit; panics exactly when it was clear |
| `FileSystem.Disk.Bmap` | TDT4186 - OS/Labs/Lab3/kernel/fs.c:382-421 | returns the block that the inode has for the file's block number, addrs[bn] for the first twelve and then word bn - 12 of the indirect block, allocating it, and the indirect block, only if missing; fails exactly on a full disk; keeps ownership and all file contents |
| `FileSystem.Disk.Itrunc` | TDT4186 - OS/Labs/Lab3/kernel/fs.c:425-453 | never reaches "freeing free block"; clears every slot of the inode and touches no other; if every byte of every file had its block, that stays so |
| `FileSystem.TruncateFrees` | TDT4186 - OS/Labs/Lab3/kernel/fs.c:425-453 | after itrunc exactly the blocks the inode owned are free in addition |
| `FileSystem.Disk.Readi` | TDT4186 - OS/Labs/Lab3/kernel/fs.c:471-500 | returns the slice of the file's byte sequence and changes nothing: a read never allocates |
| `FileSystem.FileByte` | TDT4186 - OS/Labs/Lab3/kernel/fs.c:382-421 | byte x of a file is byte x % BSIZE of the block in addrs[x / BSIZE], or beyond the first twelve in word x / BSIZE - 12 of the indirect block |
| `FileSystem.Disk.Writei` | TDT4186 - OS/Labs/Lab3/kernel/fs.c:505-539 | writes the bytes at the offset and no others, sets size to the maximum, is short only on a full disk, refuses exactly the bad offsets; every block, bitmap block and inode block that it changes is logged, and the number logged is bounded |
| `FileSystem.WriteSplices` | TDT4186 - OS/Labs/Lab3/kernel/fs.c:505-539 | as byte sequences: the file becomes the splice, every other file stays |
| `FileSystem.ReadAfterWrite` | TDT4186 - OS/Labs/Lab3/kernel/fs.c:471-539 | in any state that a write leaves, the file's bytes in the range written are the bytes written |
| `FileSystem.Disk.ReadBack` | TDT4186 - OS/Labs/Lab3/kernel/fs.c:471-539 | writei and then readi of the same range returns exactly the bytes written |
| `FileSystem.Disk.WriteOp` | TDT4186 - OS/Labs/Lab3/kernel/file.c:155-174 | the transaction of one chunk, whatever its offset and allocations, logs every block it changes and at most MAXOPBLOCKS distinct ones |
| `FileSystem.ChunkSpan` | TDT4186 - OS/Labs/Lab3/kernel/file.c:155-174 | a chunk touches at most three file blocks if aligned and four if not |
| `FileSystem.Disk.Filewrite` | TDT4186 - OS/Labs/Lab3/kernel/file.c:155-174 | for every write: each transaction starts where the last one ended, logs every block it changes and at most MAXOPBLOCKS of them, and leaves a prefix of the source spliced into the file; together they splice one into the file and touch no other file; -1 exactly when the prefix is short, which means a bad offset, a file too large or a full disk |
| `PageTableSpec.PxInjective` | TDT4186 - OS/Labs/Lab3/kernel/vm.c:86-103 | a page number is determined by its three indices |
| `PageTableSpec.HardwareWalk` | TDT4186 - OS/Labs/Lab3/kernel/vm.c:72-103 | the flat map is what the hardware's walk finds: bits 38 to 30, 29 to 21 and 20 to 12 of the address index the three levels, from the root down |
| `PageTableSpec.PutLeaf` | TDT4186 - OS/Labs/Lab3/kernel/vm.c:143-166 | writing the entry that walk finds changes the flat map at one page number only |
| `PageTableSpec.HangKeeps` | TDT4186 - OS/Labs/Lab3/kernel/vm.c:91-101 | a new, empty table changes no translation |
| `PageTable.Tables.Walk` | TDT4186 - OS/Labs/Lab3/kernel/vm.c:86-103 | finds the leaf table of a page number, creating tables only if asked; no translation changes |
| `PageTable.Tables.Mappages` | TDT4186 - OS/Labs/Lab3/kernel/vm.c:143-166 | maps exactly the pages of its range up to where it stopped; reports a remap, a bad address or lack of memory exactly there |
| `PageTable.Tables.Uvmunmap` | TDT4186 - OS/Labs/Lab3/kernel/vm.c:170-193 | succeeds exactly when the whole range is mapped, and then removes exactly the range and returns its pages |
| `PageTable.Tables.Release` | TDT4186 - OS/Labs/Lab3/kernel/vm.c:180-190 | every page given is on the free list afterwards, with all that was there before |
| `PageTable.Tables.Uvmalloc` | TDT4186 - OS/Labs/Lab3/kernel/vm.c:226-250 | maps distinct fresh pages in exactly the range, or restores the old mappings; then every page that was free is free again or a table of the tree, and the free list was too short for the next page and its tables |
| `PageTable.Tables.Undo` | TDT4186 - OS/Labs/Lab3/kernel/vm.c:256-268 | the error path of uvmalloc gives back every page it had taken, exactly those, and restores the old mappings |
| `PageTable.Tables.Freewalk` | TDT4186 - OS/Labs/Lab3/kernel/vm.c:272-289 | returns every table page of the tree exactly once; panics exactly when a leaf remains |
| `PageTable.Tables.Uvmfree` | TDT4186 - OS/Labs/Lab3/kernel/vm.c:292-297 | uvmfree panics exactly when a page below the size is not mapped or one above it is; otherwise every table of the tree goes to the free list exactly once and every page mapped is given up |
| `Proc.LifecycleSafety` | TDT4186 - OS/Labs/Lab3/kernel/proc.c:376-541 | in every state that any interleaving reaches: outside wait_lock no process sleeps in wait with a zombie child, every process that fork has linked, runnable yet or not, has a live, older, non-zombie parent, and live pids are distinct |
| `Proc.StepKeeps` | TDT4186 - OS/Labs/Lab3/kernel/proc.c:376-728 | every step of fork, exit, wait, sleep, wakeup, kill and the scheduler keeps the lifecycle invariant |
| `Proc.ZombieLeaves` | TDT4186 - OS/Labs/Lab3/kernel/proc.c:489-541 | a zombie leaves the table exactly when its current parent reaps it |
| `Proc.ReapedOnce` | TDT4186 - OS/Labs/Lab3/kernel/proc.c:489-541 | a process that has been reaped is never seen again, in any continuation of the run |
| `Proc.StateDiagram` | TDT4186 - OS/Labs/Lab3/kernel/proc.c:376-728 | every step changes the state of exactly the process it should, along the edges of the state diagram: allocated, started, dispatched, yielding, sleeping, woken, killed in its sleep, dead, reaped |
| `Proc.SleeperLeaves` | TDT4186 - OS/Labs/Lab3/kernel/proc.c:680-728 | a sleeping process stops sleeping exactly by a wakeup of its channel or by a kill, and is runnable then |
| `Proc.KillMarks` | TDT4186 - OS/Labs/Lab3/kernel/proc.c:707-728 | kill(pid) marks the first process with that pid, makes it runnable if it slept, and changes nothing else |
| `Proc.HolderMoves` | TDT4186 - OS/Labs/Lab3/kernel/proc.c:445-541 | wait_lock never gets stuck: its holder, or the process whose lock it waits for, can always take a step, and never by a failed copyout or by a kill; with a zombie child the step is to reap it |
| `Proc.RankFalls` | TDT4186 - OS/Labs/Lab3/kernel/proc.c:445-541 | no step of any process raises that measure, and every step of a process that holds a lock lowers it |
| `Proc.HolderReleases` | TDT4186 - OS/Labs/Lab3/kernel/proc.c:445-541 | from every reachable state in which wait_lock is held, the holder releases it within a number of such steps that a measure of the state bounds |
| `Proc.KillHitsFree` | TDT4186 - OS/Labs/Lab3/kernel/proc.c:707-728 | in every reachable state kill(pid), which stops at the first match, finds a free slot if and only if pid is 0 and some slot is free |
| `Proc.MarkedIff` | TDT4186 - OS/Labs/Lab3/kernel/proc.c:707-728 | a slot that stays free is marked if and only if some kill in between stopped at it |
| `Proc.BornKilledIff` | TDT4186 - OS/Labs/Lab3/kernel/proc.c:198-245 | a process is born killed if and only if a kill(0) found its slot since the slot last became free |
| `Proc.BornKilled` | TDT4186 - OS/Labs/Lab3/kernel/proc.c:707-728 | from boot: kill(0) and then fork, and the child is born killed |
| `Proc.BornUnkilled` | TDT4186 - OS/Labs/Lab3/kernel/proc.c:198-245 | in a run in which nobody calls kill(0), no process is born killed |
| `ShellSpec.ParsePrint` | TDT4186 - OS/Labs/Lab3/user/sh.c:384-492 | a fully parenthesised printout parses back to its tree if every command has fewer than MAXARGS words, and otherwise to "too many args" |
| `ShellSpec.ParseFaithful` | TDT4186 - OS/Labs/Lab3/user/sh.c:384-492 | every word and operator accepted occurs in the tree exactly as often as in the input, and the tree survives printing and parsing |
| `ShellSpec.LineTrip` | TDT4186 - OS/Labs/Lab3/user/sh.c:384-401 | the round trip inside any context that a closing parenthesis or the end follows |
| `ShellGrammar.ParserIsGrammar` | TDT4186 - OS/Labs/Lab3/user/sh.c:384-492 | the parser accepts a sequence of tokens as a tree if and only if the grammar derives that tree from it: `|` binds tighter than `&` and `&` tighter than `;`, `|` and `;` nest to the right, and the words and the redirections of each command are in the order of the text, the last redirection outermost |
| `ShellGrammar.Unambiguous` | TDT4186 - OS/Labs/Lab3/user/sh.c:384-492 | no line has two trees |
| `ShellGrammar.SimpleComplete` | TDT4186 - OS/Labs/Lab3/user/sh.c:460-492 | words and redirections in any order are read as one command, each in the order of the text |
| `ShellGrammar.BlockComplete` | TDT4186 - OS/Labs/Lab3/user/sh.c:444-458 | a parenthesised line is read as its tree, under the redirections behind it |
| `Shell.LexGood` | TDT4186 - OS/Labs/Lab3/user/sh.c:304-348 | every text splits into operators and non-empty words free of blanks and symbols |
| `Shell.LexRender` | TDT4186 - OS/Labs/Lab3/user/sh.c:304-348 | tokens printed with blanks between them are read back as the same tokens |
| `Shell.LexIsSpelling` | TDT4186 - OS/Labs/Lab3/user/sh.c:304-348 | every text spells exactly one sequence of tokens, the one the shell reads: tokens lie end to end with blanks between them, a word stops only at a blank or a symbol, and `>>` is one token |
| `Shell.TextRoundTrip` | TDT4186 - OS/Labs/Lab3/user/sh.c:366-492 | the round trip on characters: the shell reads the printed text of a tree back, exactly when no command is too long |
| `Shell.TextFaithful` | TDT4186 - OS/Labs/Lab3/user/sh.c:366-492 | for every text the shell accepts, nothing is lost, and printing and parsing again gives the same tree |
| `Shell.Parser.Peek` | TDT4186 - OS/Labs/Lab3/user/sh.c:350-359 | skips blanks and tells whether the next token is one of the given operators |
| `Shell.Parser.GetToken` | TDT4186 - OS/Labs/Lab3/user/sh.c:304-348 | returns the next token and leaves the cursor before the one after it |
| `Shell.Parser.ParseRedirs` | TDT4186 - OS/Labs/Lab3/user/sh.c:417-442 | wraps the command in the redirections ahead, or reports a missing file |
| `Shell.Parser.ParseBlock` | TDT4186 - OS/Labs/Lab3/user/sh.c:444-458 | reads a parenthesised line and its redirections |
| `Shell.Parser.ParseExec` | TDT4186 - OS/Labs/Lab3/user/sh.c:460-492 | reads a block, or words and redirections in any order |
| `Shell.Parser.ParseArgs` | TDT4186 - OS/Labs/Lab3/user/sh.c:474-491 | fills the fixed argv array within its bounds and agrees with the grammar for every text |
| `Shell.Parser.ParsePipe` | TDT4186 - OS/Labs/Lab3/user/sh.c:403-415 | agrees with the grammar for every text; pipes nest to the right, the command read first on the left |
| `Shell.Parser.ParseLine` | TDT4186 - OS/Labs/Lab3/user/sh.c:384-401 | agrees with the grammar for every text, and terminates |
| `Shell.ParseCmd` | TDT4186 - OS/Labs/Lab3/user/sh.c:366-382 | accepts a text as a tree if and only if the text spells a line of the grammar that reads as that tree |
| `Virtio.RingPush` | TDT4186 - OS/Labs/Lab3/kernel/virtio_disk.c:271-277 | writing the next slot of a ring keeps every pending entry, for every value of the 16-bit indices |
| `Virtio.SectorExact` | TDT4186 - OS/Labs/Lab3/kernel/virtio_disk.c:217-217 | a request starts at the byte where its block lies if and only if the block number is below 2^31, where the 32-bit product does not wrap |
| `Virtio.BlocksApart` | TDT4186 - OS/Labs/Lab3/kernel/virtio_disk.c:217-217 | a write to a block changes the bytes of that block on the device and no others: reading it gives what was written, and reading any other block gives what it gave before |
| `Virtio.Queue.constructor` | TDT4186 - OS/Labs/Lab3/kernel/virtio_disk.c:22-59 | all descriptors free, both rings empty |
| `Virtio.Queue.AllocDesc` | TDT4186 - OS/Labs/Lab3/kernel/virtio_disk.c:156-166 | the first free descriptor, or none exactly when none is free |
| `Virtio.Queue.FreeDesc` | TDT4186 - OS/Labs/Lab3/kernel/virtio_disk.c:169-182 | frees one descriptor; panics exactly for an index out of range or a free descriptor, which no caller passes |
| `Virtio.Queue.Alloc3` | TDT4186 - OS/Labs/Lab3/kernel/virtio_disk.c:201-213 | three distinct descriptors, or none taken exactly when fewer than three are free |
| `Virtio.Queue.FreeChain` | TDT4186 - OS/Labs/Lab3/kernel/virtio_disk.c:185-197 | gives every descriptor of a chain back exactly once, and no other |
| `Virtio.Queue.Submit` | TDT4186 - OS/Labs/Lab3/kernel/virtio_disk.c:215-281 | posts a chain that describes the transfer, at the block's byte position, or waits exactly when fewer than three descriptors are free |
| `Virtio.Queue.Fetch` | TDT4186 - OS/Labs/Lab3/kernel/virtio_disk.c:271-281 | the device takes requests in the order posted, and each once |
| `Virtio.Queue.Complete` | TDT4186 - OS/Labs/Lab3/kernel/virtio_disk.c:238-265 | what the device reads in the descriptors makes it transfer exactly the bytes of the request between disk and buffer |
| `Virtio.Queue.Intr` | TDT4186 - OS/Labs/Lab3/kernel/virtio_disk.c:294-327 | never sees a bad status; marks exactly the buffers of completed requests |
| `Virtio.Queue.Finish` | TDT4186 - OS/Labs/Lab3/kernel/virtio_disk.c:283-292 | virtio_disk_rw returns only after the device has completed this buffer's request, with its data in place, and gives the chain back |
| `Virtio.RingSafety` | TDT4186 - OS/Labs/Lab3/kernel/virtio_disk.c:156-327 | between any two steps of driver and device: free descriptors plus three per request equal NUM, chains are disjoint, every pending ring entry is intact |
| `Grep.Match` | TDT4186 - OS/Labs/Lab3/user/grep.c:71-81 | returns 1 exactly when the text, from some position on, can be cut into segments that fit the items of the pattern |
| `Grep.MatchHere` | TDT4186 - OS/Labs/Lab3/user/grep.c:84-95 | exactly when such cuts start at this position; terminates |
| `Grep.MatchStar` | TDT4186 - OS/Labs/Lab3/user/grep.c:98-105 | shortest-first search finds a star length exactly when one exists |
| `Grep.FirstItem` | TDT4186 - OS/Labs/Lab3/user/grep.c:84-95 | a match of a pattern splits into one of its first item and one of the rest |
| `Grep.MatchesIff` | TDT4186 - OS/Labs/Lab3/user/grep.c:71-105 | reading the pattern from left to right, `c*` as any run of c, `.` as any character, a final `$` as the end and a leading `^` as the start, means the same as cutting the text into segments |
| `Grep.GrepFile` | TDT4186 - OS/Labs/Lab3/user/grep.c:10-34 | however the reads are cut, the output is the matching lines of what was read, in order; what was read ends at the first position where the last BUFSIZE - 1 characters have no newline, and it is the whole file exactly when there is no such position before its end |
| `Grep.StuckIff` | TDT4186 - OS/Labs/Lab3/user/grep.c:18-31 | those positions are exactly the ones at which the unfinished line fills the buffer |
| `Grep.LongLineLost` | TDT4186 - OS/Labs/Lab3/user/grep.c:18-31 | a file whose first line has BUFSIZE - 1 characters or more: grep stops inside it and prints nothing, whatever matches |
| `Grep.NewlineFirst` | TDT4186 - OS/Labs/Lab3/user/grep.c:19-27 | the end found for a line is its first newline |
| `Grep.FilterApp` | TDT4186 - OS/Labs/Lab3/user/grep.c:15-33 | lines complete so far do not depend on what is read later |
| `Grep.GrepPrints` | TDT4186 - OS/Labs/Lab3/user/grep.c:15-33 | what is printed of a text is its complete lines that match, all of them, in order, each with its newline, and nothing else |
| `Pipe.Distance` | TDT4186 - OS/Labs/Lab3/kernel/pipe.c:88-112 | the tests for full and empty are exact for every number of counter wraps |
| `Pipe.Fifo.constructor` | TDT4186 - OS/Labs/Lab3/kernel/pipe.c:33-36 | empty and open at both ends |
| `Pipe.Fifo.Close` | TDT4186 - OS/Labs/Lab3/kernel/pipe.c:58-75 | closes one end; frees the pipe exactly when both are closed |
| `Pipe.Fifo.Put` | TDT4186 - OS/Labs/Lab3/kernel/pipe.c:95-95 | appends one byte; no byte inside is overwritten |
| `Pipe.Fifo.Take` | TDT4186 - OS/Labs/Lab3/kernel/pipe.c:123-123 | removes the oldest byte |
| `Pipe.Fifo.Write` | TDT4186 - OS/Labs/Lab3/kernel/pipe.c:76-103 | appends a prefix of the source; sleeps exactly when full, fails exactly when the reader is gone or the writer killed |
| `Pipe.Fifo.Read` | TDT4186 - OS/Labs/Lab3/kernel/pipe.c:105-130 | returns the oldest bytes in order; a byte whose copyout fails is removed and not counted; sleeps exactly when empty with a writer open |
| `Pipe.Run` | TDT4186 - OS/Labs/Lab3/kernel/pipe.c:76-130 | over any interleaving of sections of readers and writers, each with its outcome by its own rule: what the readers took out, lost bytes included, followed by the bytes inside, is the bytes inside at first followed by the prefixes the writers put in |
| `Path.SkipElem` | TDT4186 - OS/Labs/Lab3/kernel/fs.c:622-645 | yields the slash-separated components one by one, cut to DIRSIZ; an empty rest means the last |
| `Path.ComponentsJoin` | TDT4186 - OS/Labs/Lab3/kernel/fs.c:622-645 | names joined by slashes are split into the same names |
| `Path.ComponentsArePath` | TDT4186 - OS/Labs/Lab3/kernel/fs.c:622-645 | every path is its components, with slashes between them and perhaps around them, and nothing else is: empty names never count, and slashes may repeat |
| `Path.TruncEqual` | TDT4186 - OS/Labs/Lab3/kernel/fs.c:543-547 | cutting to DIRSIZ makes two names equal exactly when they agree on the first DIRSIZ characters |
| `Path.Namecmp` | TDT4186 - OS/Labs/Lab3/kernel/fs.c:543-547 | compares at most DIRSIZ characters, and says whether the names agree on them |
| `Inodes.Itable.constructor` | TDT4186 - OS/Labs/Lab3/kernel/fs.c:181-190 | no handles |
| `Inodes.Itable.Iget` | TDT4186 - OS/Labs/Lab3/kernel/fs.c:246-277 | adds one handle; no two live entries for one inode; panics exactly when the table is full and lacks the inode |
| `Inodes.Itable.Idup` | TDT4186 - OS/Labs/Lab3/kernel/fs.c:281-288 | adds one handle |
| `Inodes.Itable.Ilock` | TDT4186 - OS/Labs/Lab3/kernel/fs.c:292-317 | panics exactly for an inode without type |
| `Inodes.Itable.Iput` | TDT4186 - OS/Labs/Lab3/kernel/fs.c:336-362 | drops one handle; frees the inode on disk exactly when that was the only handle, the inode is loaded, and it has no links |
| `Inodes.Itable.DirLookup` | TDT4186 - OS/Labs/Lab3/kernel/fs.c:551-575 | finds nothing exactly when no entry in use has a name that agrees on the first DIRSIZ characters; otherwise it adds exactly one handle, on the inode of the first entry that does |
| `Inodes.Itable.Namex` | TDT4186 - OS/Labs/Lab3/kernel/fs.c:651-684 | one more handle on success and none on failure, whatever is on disk; from the root for a path that starts with a slash and else from the current directory, the inode found is the one that the path's names lead to, first entry by first entry, or the directory that all but the last lead to, with that last name; it finds nothing exactly when they lead nowhere |
| `Inodes.LookupFinds` | TDT4186 - OS/Labs/Lab3/kernel/fs.c:551-575 | the directory search yields the first entry in use with the name, or nothing exactly if there is none |
| `Inodes.WalkIs` | TDT4186 - OS/Labs/Lab3/kernel/fs.c:651-684 | a path leads to an inode if and only if there is a chain of directory entries, each the first with its name, from the start to it |
| `Inodes.ParentIs` | TDT4186 - OS/Labs/Lab3/kernel/fs.c:651-684 | the parent is found if and only if all names but the last lead to a directory, and it is that one |
| `Inodes.BrokenIs` | TDT4186 - OS/Labs/Lab3/kernel/fs.c:292-317 | the walk meets an inode without a type if and only if some proper part of the path leads to one |

## Left out

- Log.Log.Commit: runs in one piece, while no process has a block of the transaction locked; others may be locked, and processes may sleep on any buffer.  The kernel's commit would wait for such a holder, and go on from there.
- Log.Log.EndOp: the same, for the operation that commits.
- Durability.Do: the same, for the last end_op; every other call may come while any buffers are held or waited for.
- CrashSafety.CrashSafe: the transactions of the file system write one after the other, in any grouping into operations and commits; two whose writes alternate, as two processes allocating at once can make them, are covered block by block in `Durability` only.
- CrashSafety.Perform: the blocks it logs and their contents are parameters; that the operations of `Fs` change nothing else is proved there, and that the source's changes to a buffer give these contents in `FsDisk`.
- Waiting for an inode's sleep-lock: path lookup runs by itself.
- CowMachine.Machine.UvmAlloc: tables are flat, so the pages that `mappages` takes for page tables come and go as operations of their own, `Take` and `Give`, which a run may place anywhere.
- CowMachine.Machine.Fork: the same, for the trapframe and the page tables of the child.
- Disk writes are atomic per block, there is one device, and memory ordering and the TLB are taken as the locks and fences promise.
- `writei` and `readi` with failing copies between user and kernel memory; the write path there can release a changed buffer without logging it.
- `Fs` keeps the bitmap as a sequence of booleans and the inodes in memory; `FsDisk` says where they are on disk.  The type, the device numbers and the link count of an inode, and `ialloc`, are not in it.
- `dirlink`, `sys_unlink` and the other directory updates; a directory is a sequence of entries.
- Trampoline, trapframe and kernel pages in the copy-on-write model, which has flat tables; the page-table model covers the tree.
- `exec`, and `copyin` and `copyinstr`, which only read.
- The race on `FREE_PAGES`, which `kalloc` tests and decrements outside the free-list lock; and `kfree`'s checks of the address range and of MAX_PAGES.
- Permissions after a copy-on-write fault: the handler may make a read-only page writable, so views of contents are claimed and permissions are not.
- Proc.LifecycleSafety: pids are unbounded integers here; a wrap of the 32-bit counter after 2^31 forks is not modelled.
- Proc.KillHitsFree: the scan of kill is one step, although it locks one slot after the other.
- Proc.StepKeeps: the scan loops of wait and reparent are one step each per child, since wait_lock keeps the children from changing; a kill that arrives between the check and the sleep in wait is allowed and nothing is claimed about it.
- Inodes.Itable.Iput: the reference count is unbounded; the in-memory link count is the one on disk.
- Virtio.Queue.Complete: the device succeeds; a device error makes the driver panic.  The sector number is the 32-bit product that the driver computes.
- Umalloc.Allocator.Free: the argument is a block that malloc returned and that has not been freed.
- Shell.Parser.ParseArgs: the EXEC node is a value filled at the end, so nothing is said about aliasing; `nulterminate`, which cuts the words out of the line, and `runcmd` are not modelled.
- Grep.GrepFile: the input has no NUL characters.
- `filealloc`, `filedup` and `fileclose`, the console, `ramdisk.c`, `mkfs`, system-call plumbing, string functions and the other user programs: easy members or I/O.
- `virtio_disk_init` and the other device registers.
