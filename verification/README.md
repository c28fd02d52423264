# xv6 with copy-on-write fork, verified in Dafny

A model of the stateful core of xv6 for RISC-V, in the variant whose `fork` shares pages and copies them on the
first write, with proofs of what each subsystem promises over whole runs. Code that updates state in place is
modelled by classes and methods with loops; protocols between processes, CPUs and devices are step systems whose
theorems quantify over every interleaving.

| files | subsystem | main results |
|---|---|---|
| `Kalloc`, `PageTable`, `Cow`, `VmState`, `VmSteps`, `Vm`, `CowRun`, `VmWitness`, `Riscv` | physical pages, Sv39 tables, copy-on-write | every run refines a machine in which fork copies all pages; reference counts equal the number of mappings; how many pages fork and growth need is exact; a failed fork, exec or growth gives back every page, and so does the last exit |
| `BufferCache`, `Recovery`, `Log` | buffer cache and redo log | any crash during commit, followed by any number of crashes during recovery, leaves all of a transaction or none of it, and of a history of transactions exactly those whose header was written |
| `LogSpace` | reservation of log space | entries plus unused budgets fit in `LOGSIZE` in every interleaving; exactly which log sizes, and how many buffers in other hands, avoid each panic |
| `FsLayout`, `FsInode`, `FsState`, `FsWrite`, `Fs`, `FsChunk`, `FsTight`, `FsCrash`, `Mkfs`, `MkfsRun` | inodes, bitmap, files, the initial image | every block has one owner and the bitmap marks exactly the owned blocks; `writei` and `readi` act on a plain byte sequence; every changed block is logged; a chunk of `filewrite` stays within `MAXOPBLOCKS`, and can need all of them; a crash at any disk write of `filewrite` leaves a consistent disk on which the file has the chunks committed by then |
| `Sched`, `Family` | sleep and wakeup, scheduler, sleep locks; fork, exit, wait, reparent | no lost wakeup, one CPU per process, one holder per sleep lock; every parent is alive and the maker of its children (or init), every child is reaped at most once and none is lost |
| `Virtio`, `VirtioRun` | disk queue with the device as an actor | descriptors are conserved through 16-bit wrap-around; in every interleaving each request is completed, seen and freed once, and no completion is missed |
| `Malloc` | user-level allocator | one address-ordered cycle without touching blocks; free and live blocks tile the memory from `sbrk` |
| `Pipe` | pipes | what is read is a prefix of what was written, through 32-bit wrap-around |
| `ShellGrammar`, `Shell`, `ShellRound`, `ShellPlain`, `ShellStrings` | shell parser | the parser undoes two unparsers, one that puts everything in parentheses and one that puts only what needs them; after `nulterminate` every token is a C string of its own |
| `Grep` | pattern matcher | sound and complete for a declarative meaning of patterns |

`dafny verify dfyconfig.toml` checks the whole project.

## How the model reads the code

- Panics and undefined behaviour are outcomes (`Panicked`, `Dead`, `Crash`, `ok == false`), and the contracts say
  when they occur.
- Integers are unbounded; 16-, 32- and 64-bit widths are written out where the code depends on them (pipe counters,
  ring indices, `off + n` overflow, the `int` argument of `sbrk`, page-table entries).
- A disk write is one atomic step. The ghost `trace` of the cache lists the disk states a crash could leave.
- The physical memory of the model is a map from page numbers to page contents. A page is data, a page table or a
  free-list node, as the code uses it.
- Virtual memory is abstracted to a `View`: for each process and page, the bytes and the rights the process sees.
  A copy-on-write page counts as writable in the view.

## Where the code differs from what one would expect

Each item has a lemma or method with the exact condition.

- Log size: `log_write` refuses at `log.size - 1` entries while `begin_op` reserves up to `LOGSIZE`. The image built
  by `mkfs` has `nlog == LOGSIZE`, so operations with budget left can still reach "too big a transaction"
  (`LogSpace.LogWriteSafe`). The same test comes before the search for the block, so logging a block again panics on
  a full log of any size (`LogSpace.RelogSafe`).
- Cache size: `commit` needs a buffer besides those that the transaction has pinned and those that readers hold, who
  need no transaction. It panics in `bget` exactly when these leave none (`Log.Journal.Commit`). Which log sizes are
  safe for a number of holders is `LogSpace.CommitSafe`; with the image of `mkfs` one reader is enough
  (`LogSpace.OneReader`). No log size is free of panics with these constants (`LogSpace.NoSafeSize`).
- `update` does not test the result of its allocation, and `copyout` and `cow_fault_handler` use the entry before they
  test for a missing table. `Vm.AddressSpaces.Update`, `CowFault`, `CopyOut` and `StoreByte` say exactly when that
  happens; `VmWitness.MissingTable` and `VmWitness.StarvedSplit` are states in which it does.
- A store that the handler refuses panics the kernel instead of killing the process; the `setkilled` after
  that panic is never reached. The model follows the code (`Vm.AddressSpaces.StoreByte`).
- `pipewrite` returns without waking readers when its process is found killed after it has put bytes into the pipe
  (`Pipe.StrandedReader`; the exact condition on the state before the call is in `Pipe.Pipe.Write`).
- `morecore` passes a size to `sbrk`, which takes an `int`. From 2 GB on the process gets less memory than the
  allocator records (`Malloc.SbrkTruncates`, `Malloc.BackedIff`; when `malloc` gets there is in `Malloc.Allocator.Alloc`).
- `mkfs` rounds the root directory up to the next block even when it ends on a block boundary. The file then has a
  hole (`Mkfs.RootRounding`, `Mkfs.Image.Finish`). In terms of the command line, this happens exactly if the number of
  files plus 2 is a multiple of 64 (`MkfsRun.Build`).
- `mkfs` stores an inode wherever its number leads. As far as the first bitmap block, which is written as a whole at the
  end, that is harmless; behind it the inode overwrites bitmap or file data. `Mkfs.Image.IAlloc` and `Mkfs.Stray` say
  exactly when the image survives that; with the constants of the repository, inode 224 is stored over the root
  directory (`MkfsRun.StrayRoot`).
- `writei` with a source that cannot be read to its end leaves what it could read in the cached block, without
  logging it and without counting it. `Fs.FileSystem.WriteI` says exactly which bytes these are (from `r` to `e`);
  `FsTight.TornRun` is a write that returns 0 and changes the file. What the log makes of it is in `FsChunk.KeptIs`.

## Model

| member | source | states |
|---|---|---|
| `Kalloc.PhysicalMemory.KFree` | kernel/kalloc.c:67-88 | one reference less; the last one puts the page in front of the free list; fails exactly on a bad page without other references |
| `Kalloc.PhysicalMemory.KAlloc` | kernel/kalloc.c:94-110 | null exactly when no managed page has count 0; otherwise a page of count 0 gets count 1 and the fill pattern, and there is one free page less |
| `Kalloc.PhysicalMemory.KFreeNoLock` | kernel/kalloc.c:114-131 | the unconditional decrement keeps the acyclic free list; the last reference frees the page |
| `Kalloc.PhysicalMemory.Retain` | kernel/kalloc.c:46-54 | one reference more, the free pages stay |
| `Kalloc.PhysicalMemory.FreeRange` | kernel/kalloc.c:36-42 | after boot exactly the pages of the range are managed, each free once with count 0 |
| `PageTable.SlotsAreDistinct` | kernel/riscv.h:375-383 | distinct pages below MAXVA never share a leaf slot |
| `PageTable.SlotHasPage` | kernel/riscv.h:375-383 | every leaf slot belongs to a page below MAXVA |
| `PageTable.StoreLeaf` | kernel/vm.c:86-103 | a store through the slot that walk returns changes the flat map at that page only |
| `PageTable.AttachTable` | kernel/vm.c:86-103 | a zeroed table under an empty entry extends the tree and keeps the flat map |
| `PageTable.Walk` | kernel/vm.c:86-103 | panics exactly from MAXVA on; otherwise finds or creates the leaf slot; the flat map is the same whatever the outcome; each table made takes one free page, and failure means that there were fewer than tables missing |
| `PageTable.MapPages` | kernel/vm.c:144-174 | success changes exactly the pages of the range; failure leaves a prefix mapped and means that memory ran out; free pages turn into exactly the tables that were missing |
| `PageTable.FreeWalk` | kernel/vm.c:281-296 | frees each table page of an unmapped tree exactly once and touches nothing else |
| `PageTable.CountWays` | kernel/vm.c:70-103 | the tables below the root for the first n pages are one for every 512 pages and one for every 512 * 512, rounded up |
| `Riscv.EncodeDecode` | kernel/riscv.h:357-372 | address and flags survive the trip through a page-table word |
| `Riscv.AddressSurvives` | kernel/riscv.h:368-372 | PTE2PA and PTE_FLAGS undo PA2PTE with flags |
| `Riscv.ShareWord` | kernel/vm.c:380-400 | the flag arithmetic of uvmcopy on words is the record update used by the model |
| `Riscv.PrivateWord` | kernel/kalloc.c:160-196 | likewise for update |
| `Riscv.IndicesDetermineAddress` | kernel/riscv.h:374-383 | below MAXVA the three indices and the offset determine the address |
| `Cow.Share` | kernel/vm.c:368-412 | sharing one page keeps the counting invariant; the child sees a copy and nobody else a change |
| `Cow.Split` | kernel/kalloc.c:160-196 | moving one mapping of a shared page to a copy keeps the invariant and every view |
| `Cow.Claim` | kernel/kalloc.c:160-196 | making the only mapping of a page writable keeps the invariant and every view |
| `Cow.Write` | kernel/vm.c:432-466 | a store through a writable entry changes one page of one process |
| `Cow.Unmap` | kernel/vm.c:180-201 | dropping a mapping keeps the invariant; the page is unused exactly if the count was 1 |
| `VmState.Partition` | kernel/kalloc.c:46-148 | in every valid state a managed page is free with count 0, or its count is the number of user mappings (1 for kernel pages and tables), and a page with count above 1 is writable nowhere |
| `Vm.AddressSpaces.UvmUnmap` | kernel/vm.c:180-201 | succeeds exactly if all pages are mapped; then exactly these leave the map and the view |
| `Vm.AddressSpaces.UvmAlloc` | kernel/vm.c:235-258 | the view grows by zeroed pages; out of memory exactly if the free pages do not suffice for the new pages and the tables missing on the way to them; then every view, mapping and count of a page is as it was, and only tables that were made on the way stay |
| `Vm.AddressSpaces.UvmDealloc` | kernel/vm.c:265-276 | exactly the pages above the new size leave the view |
| `Vm.AddressSpaces.UvmCreate` | kernel/vm.c:206-214 | succeeds exactly if a page is free; the new table is empty and no view changes |
| `Vm.AddressSpaces.UvmFree` | kernel/vm.c:301-306 | no table of the process is left, its pages lose exactly its references, and the kernel and other processes keep what they have; no other view changes |
| `Vm.AddressSpaces.UvmCopy` | kernel/vm.c:368-412 | the child sees what an eager copy gives, the parent no change; succeeds exactly if the free pages suffice for the tables that the child lacks; failure changes no view and gives back every count |
| `Vm.AddressSpaces.Update` | kernel/kalloc.c:160-196 | makes the page private without changing any view; fails exactly if a copy is needed and no page is free |
| `Vm.AddressSpaces.CowFault` | kernel/vm.c:317-352 | succeeds exactly on a user copy-on-write page for which a private page can be had; crashes exactly without a slot in the tables or a page for the copy; changes nothing unless it succeeds, and never a view |
| `Vm.AddressSpaces.StoreByte` | kernel/trap.c:84-96 | a user store with its fault writes one byte of one process; succeeds exactly if the page is writable in the view and a private page can be had |
| `Vm.AddressSpaces.CopyOut` | kernel/vm.c:432-466 | writes a prefix of the source at the address, all of it exactly when it returns 0; otherwise it stops at the first page whose state makes it fail or die, and which of the two is decided by that state |
| `Vm.AddressSpaces.UserPage` | kernel/vm.c:109-126 | walkaddr succeeds exactly on a user page of the view |
| `Vm.AddressSpaces.CopyIn` | kernel/vm.c:472-491 | returns what the process sees, or fails at the first unreadable byte |
| `Vm.AddressSpaces.CopyInStr` | kernel/vm.c:498-534 | copies up to the first NUL, or fails at the first unreadable byte or after max bytes |
| `CowRun.EagerKeepsInv` | kernel/vm.c:235-412 | the reference machine keeps its invariant: each process has exactly the pages its size says |
| `CowRun.Isolation` | kernel/vm.c:317-412 | over any run, operations of other processes never change the memory of a process |
| `VmSteps.CountsOf` | kernel/vm.c:301-306 | once a process is freed each count is the number of mappings of the others, and its tables have none |
| `VmSteps.AllocUndone` | kernel/vm.c:235-258 | what a failed uvmalloc took is given back with the process: the counts after freeing it are as if it had not been tried |
| `CowRun.SameCounts` | kernel/kalloc.c:46-148 | the counts depend on the user entries and the owners of the other pages only |
| `CowRun.Undone` | kernel/proc.c:280-300 | a process that is created, fails to get its memory and is freed leaves every reference count as it was |
| `CowRun.ForkMemory` | kernel/proc.c:280-300 | fork gives the child an eager copy exactly if there are free pages for a root and for the tables of the parent's pages; otherwise it changes no view, no table and no count |
| `CowRun.ExecMemory` | kernel/exec.c:49-137 | exec gets a table and zeroed pages with the rights asked for, or gives back every page and count it took; the latter exactly if the free pages do not suffice |
| `CowRun.FailedGrowth` | kernel/vm.c:235-306 | a process that fails to grow and exits leaves exactly the counts it would have left without trying |
| `CowRun.AllFree` | kernel/kalloc.c:67-88 | without processes every managed page is free |
| `CowRun.Machine.Do` | kernel/vm.c:235-466 | each operation is a step of the reference machine; create, fork and growth are refused exactly if they make no sense or need more pages than are free, which is computed from sizes and tables; stores, copies and growths kill the kernel exactly under the stated conditions |
| `CowRun.Machine.Execute` | kernel/vm.c:235-466 | every run of the copy-on-write kernel, up to and including its death, is a run of the machine whose fork copies all pages; fork, shrink and exit never kill it; operations are refused only for lack of free pages, fork and create exactly then; after the last exit all pages are free |
| `CowRun.Machine.ExecuteApart` | kernel/vm.c:317-466 | a process that no operation of a run is about sees the same memory before and after, even if the kernel dies |
| `VmWitness.MissingTable` | kernel/vm.c:317-330 | a fault on page 0 of a new process, and a copy to it, dereference a null entry |
| `VmWitness.StarvedSplit` | kernel/kalloc.c:160-196 | with no page left a store to a shared page, its fault, the copy and update all fail |
| `BufferCache.Unlink` | kernel/bio.c:117-137 | taking a buffer out of the doubly linked ring leaves a ring of the others |
| `BufferCache.InsertFront` | kernel/bio.c:117-137 | putting a buffer behind the head gives a ring |
| `BufferCache.Cache.BInit` | kernel/bio.c:37-53 | the ring goes through all buffers and the cache agrees with the disk |
| `BufferCache.Cache.FindCached` | kernel/bio.c:59-75 | finds the buffer of a block, or there is none |
| `BufferCache.Cache.FindUnused` | kernel/bio.c:76-89 | finds the least recently used buffer without references, or all are referenced |
| `BufferCache.Cache.BGet` | kernel/bio.c:59-89 | succeeds exactly if the block is cached or a buffer is unreferenced; recycles only unreferenced buffers; at most one buffer per block |
| `BufferCache.Cache.BRead` | kernel/bio.c:93-103 | the buffer holds the latest contents of the block |
| `BufferCache.Cache.BWrite` | kernel/bio.c:107-112 | one atomic disk write; what callers read does not change |
| `BufferCache.Cache.BRelse` | kernel/bio.c:117-137 | drops a reference; the last one moves the buffer to the front of the ring and keeps the order of the others |
| `BufferCache.Cache.BPin` | kernel/bio.c:140-144 | one reference more on that buffer only |
| `BufferCache.Cache.BUnpin` | kernel/bio.c:147-151 | one reference less; no contents are lost |
| `Recovery.ReplayAgain` | kernel/log.c:69-83 | restarting after a crash inside install_trans ends on the same disk |
| `Recovery.RecoveredIsClean` | kernel/log.c:117-123 | after recovery the log is empty and recovering again changes nothing |
| `Recovery.ManyCrashes` | kernel/log.c:69-123 | however often recovery is interrupted, it ends on the same disk |
| `Recovery.CrashBeforeHeader` | kernel/log.c:179-203 | until the header is written, recovery restores the blocks before the transaction |
| `Recovery.CrashAtHeader` | kernel/log.c:103-114 | once the header is written, recovery completes the transaction |
| `Recovery.CrashAtomicity` | kernel/log.c:69-203 | for a crash after any write of a commit and any number of crashes in recovery: exactly the blocks before up to the header write, exactly those after from then on |
| `Log.Journal.WriteLog` | kernel/log.c:179-191 | every logged block reaches its log slot; fails exactly if pinned and held buffers are all, and then before any write |
| `Log.Journal.InstallTrans` | kernel/log.c:69-83 | the logged blocks go home and lose their pins; the disk goes through the states of a replay |
| `Log.Journal.Commit` | kernel/log.c:194-203 | the disk goes through exactly the states that CrashAtomicity covers; panics in bget exactly if the blocks that are pinned or held by others take every buffer, and then with the disk untouched |
| `Log.Journal.ReadHead` | kernel/log.c:87-97 | reads back the block list that is on disk |
| `Log.Journal.RecoverFromLog` | kernel/log.c:117-123 | the disk becomes the recovered disk, through the states of a replay |
| `Log.Journal.LogWrite` | kernel/log.c:215-235 | logs each block once and pins it once; its two panics have exact conditions and change nothing |
| `Log.Journal.Update` | kernel/log.c:205-235 | bread, modify, log_write, brelse: callers see the new contents, the disk does not change yet |
| `Log.Journal.Transaction` | kernel/log.c:147-235 | a sequence of updates and its commit install all of them; every disk state before the header write recovers to none of them, every one from it on to all; succeeds if log and cache have room, and writes nothing otherwise |
| `Log.Journal.History` | kernel/log.c:117-203 | over any sequence of transactions a crash at any disk write, and any number in recovery, leaves exactly the transactions whose header write had happened; at the end all of them are there and the log is empty |
| `Log.NoneLost` | kernel/log.c:117-203 | from the parts to the whole: which transactions a disk state recovers to depends only on which commits are not after it |
| `Log.AppliedIsView` | kernel/log.c:179-203 | what commit applies to the home blocks is what the cache showed |
| `LogSpace.RunKeeps` | kernel/log.c:127-235 | the reservation invariant over every run of begin_op, log_write, end_op, the steps of commit, and buffers taken and released by others |
| `LogSpace.Reservation` | kernel/log.c:127-175 | the entries are distinct, entries plus unused budgets never exceed LOGSIZE, no operation is active during a commit, and log_write outside an operation and a second commit are never met |
| `LogSpace.TooBigExactly` | kernel/log.c:215-221 | log_write panics exactly on a full log, whether or not the block is in it |
| `LogSpace.LogWriteSafe` | kernel/log.c:215-221 | for operations with budget left "too big a transaction" is unreachable if and only if the log has more than LOGSIZE blocks |
| `LogSpace.RelogSafe` | kernel/log.c:215-235 | for blocks that are in the log already it is reachable for every log that can hold a block |
| `LogSpace.CommitSafe` | kernel/log.c:179-203 | "no buffers" in commit is unreachable if and only if a full log and all holders of other buffers leave one over |
| `LogSpace.OneReader` | kernel/file.c:120-124 | with the image of mkfs one reader and 29 logged blocks make commit panic; without the reader it goes on |
| `LogSpace.NoSafeSize` | kernel/param.h:9-11 | for every log size some reachable write with budget left or some step of commit panics |
| `FsLayout.WordRoundTrip` | kernel/fs.c:404-415 | storing an entry of an indirect block changes that entry only |
| `FsInode.DecodeEncode` | kernel/fs.h:31-40 | nothing of an inode is lost in the 64 bytes of struct dinode |
| `FsInode.PutThenGet` | kernel/fs.c:226-241 | an inode stored in an inode block is read back, and the other fifteen stay |
| `FsInode.StoredInode` | kernel/fs.c:226-241 | storing an inode in its inode block replaces it in the table that the inode blocks hold, and no other |
| `Fs.FileSystem.IUpdate` | kernel/fs.c:226-241 | afterwards the inode blocks hold the inode from memory; only its block changed and is logged; no file, block owner or bitmap bit is affected |
| `Fs.FileSystem.ILock` | kernel/fs.c:292-320 | ilock reads from its inode block the inode last stored; panics exactly if it has no type |
| `FsLayout.MarkedBit` | kernel/fs.c:66-105 | setting or clearing a bitmap bit changes that bit only |
| `FsState.AttachKeeps` | kernel/fs.c:383-421 | a fresh block in an empty slot keeps ownership unique and files without holes |
| `FsState.FlippedBits` | kernel/fs.c:66-105 | flipping one bit marks exactly one block more or less |
| `FsState.StoredData` | kernel/fs.c:506-539 | storing to block bn of a file changes the bytes of that block and of no other file |
| `FsState.TruncKeeps` | kernel/fs.c:426-453 | truncation keeps the invariant, empties the inode and no other |
| `FsState.AllBlocks` | kernel/fs.c:426-453 | the blocks itrunc frees are exactly those the inode owns |
| `FsState.NotYetFreed` | kernel/fs.c:426-453 | itrunc frees no block twice |
| `Fs.FileSystem.BAlloc` | kernel/fs.c:66-88 | the lowest free block, marked and zeroed; 0 exactly if there is none |
| `Fs.FileSystem.BFree` | kernel/fs.c:92-105 | unmarks the block; panics exactly on a free block |
| `Fs.FileSystem.BMap` | kernel/fs.c:383-421 | the address of the block, allocated if need be with its indirect block; 0 only if the disk is full; every block it changed is logged |
| `Fs.FileSystem.ReadI` | kernel/fs.c:472-496 | returns the slice of the file's contents, truncated at its size; never allocates; -1 exactly if the destination ends early |
| `Fs.FileSystem.WriteI` | kernel/fs.c:506-539 | the contents become the old ones overwritten at off by what got into blocks, cut at the new size; r is n, or the write stopped at a block that a full disk lacks, or in front of the block in which the source ends; other files stay; -1 exactly on a bad range; the exact set of logged blocks, which covers every change, inodes included, but that of a block whose copy was cut short |
| `Fs.FileSystem.ITrunc` | kernel/fs.c:426-453 | every block of the inode is freed once and no bfree panics, so "freeing free block" is unreachable; other files stay; every changed block is logged |
| `Fs.FileSystem.IAlloc` | kernel/fs.c:199-219 | the lowest free inode, emptied; none exactly if all are in use; its inode block is the only one changed and logged |
| `Fs.FileSystem.IFree` | kernel/fs.c:337-362 | an unlinked inode gives up all its blocks and becomes free; other files stay; every changed block is logged |
| `FsChunk.ChunkBound` | kernel/file.c:149-175 | one chunk of filewrite logs at most MAXOPBLOCKS distinct blocks |
| `FsChunk.ChunkBoundTight` | kernel/file.c:149-175 | a full chunk from inside block 11 logs MAXOPBLOCKS blocks if its four new blocks lie under four bitmap blocks |
| `FsTight.StartInv` | kernel/fs.c:56-105 | a disk with four free blocks under four bitmap blocks satisfies the invariant |
| `FsTight.TightRun` | kernel/file.c:149-175 | on it writei of one chunk logs exactly MAXOPBLOCKS blocks: the bound is reached |
| `FsTight.TornRun` | kernel/fs.c:506-539 | a write whose source ends early returns 0, and yet the file has changed in a block that is not logged |
| `FsChunk.KeptIs` | kernel/file.c:149-175 | what the log takes to disk is a consistent file system in which the file has the bytes that count, even if a copy was cut short |
| `FsChunk.WrittenTwice` | kernel/file.c:149-175 | two adjacent writes are one |
| `FsChunk.FileWrite` | kernel/file.c:135-181 | all chunks together write a prefix of the source, the offset moves by its length, n exactly if all of it was written, short only at a bad range, a short source or a full disk; each transaction stays within MAXOPBLOCKS, and after each of them the disk is consistent and has the bytes of the chunks so far |
| `Mkfs.LayoutHolds` | mkfs/mkfs.c:22-101 | the regions of the image are in order and the bitmap covers the disk |
| `Mkfs.Image.constructor` | mkfs/mkfs.c:89-125 | the zeroed image satisfies the invariant |
| `Mkfs.Image.IAlloc` | mkfs/mkfs.c:223-234 | the next inode, stored wherever its number leads; dies exactly past the end of the image; up to the first bitmap block nothing else is affected; behind it image and contents survive if and only if it falls on bytes of a data block that are the same already or past the end of the file |
| `Mkfs.Image.IAppend` | mkfs/mkfs.c:255-296 | appends the bytes to the contents of the file and changes no other; dies only if the file or the image is full |
| `Mkfs.Image.BAlloc` | mkfs/mkfs.c:237-250 | the bitmap marks exactly the first blocks; fails exactly if they need a second bitmap block |
| `Mkfs.Image.Finish` | mkfs/mkfs.c:165-174 | the finished image satisfies the invariant of kernel/fs.c if and only if the root directory did not end on a block boundary; its inode blocks hold the inodes |
| `Mkfs.RootRounding` | mkfs/mkfs.c:165-171 | the rounding leaves a hole if and only if the size was a multiple of BSIZE |
| `Mkfs.Stray` | mkfs/mkfs.c:186-198 | when an inode stored behind the first bitmap block does no harm |
| `MkfsRun.Build` | mkfs/mkfs.c:69-177 | the finished image holds exactly the files given and a root directory that names them, and satisfies the invariant if and only if the number of files plus 2 is no multiple of 64 |
| `MkfsRun.StrayRoot` | mkfs/mkfs.c:223-234 | with the constants of the repository inode 224 overwrites the entry "." of the root directory |
| `FsCrash.WriteDurably` | kernel/file.c:135-181 | filewrite on top of the log: a crash at any disk write, and any number in recovery, leaves a consistent file system in which the file has the bytes of the chunks committed by then and every other file is as it was |
| `FsCrash.ReadBack` | kernel/fs.c:56-105 | whoever reads the recovered disk finds that file system and no other |
| `FsCrash.WordsTell` | kernel/log.c:38-41 | the words in which the log sees a block determine its bytes |
| `Sched.RunKeeps` | kernel/proc.c:445-616 | the invariant of locks, states, CPUs and channels over every interleaving, any number of channels per lock |
| `Sched.NoLostWakeup` | kernel/proc.c:548-592 | whenever a condition holds and no holder of its lock owes a wakeup, nobody sleeps on the channel or is about to; the wakeup may come before or after the change, as in exit |
| `Sched.FreeLock` | kernel/proc.c:548-592 | in particular nobody sleeps on a condition that holds while its lock is free |
| `Sched.OneCpu` | kernel/proc.c:445-481 | no process runs on two CPUs |
| `Sched.SleepLockExclusive` | kernel/sleeplock.c:22-52 | a sleep lock has at most one holder, and holdingsleep names it |
| `Sched.SchedNeverPanics` | kernel/proc.c:491-508 | whoever calls sched holds its own lock and no other and is not RUNNING |
| `Family.ParentsLive` | kernel/proc.c:331-386 | in every interleaving parents are alive, and every process but init has one |
| `Family.ReapedOnce` | kernel/proc.c:391-435 | no pid is returned by wait twice |
| `Family.ParentIsMaker` | kernel/proc.c:316-341 | over a whole run the parent of a process is the one that forked it; it is init only if that one has called exit |
| `Family.NobodyLost` | kernel/proc.c:280-435 | every pid given out is in the table, was returned by wait or belongs to a failed fork, and only one of these |
| `Family.NoUnnoticedZombie` | kernel/proc.c:347-435 | while wait_lock is free nobody sleeps in wait with a zombie child |
| `Family.ReapsOnlyGone` | kernel/proc.c:391-435 | wait frees only a child of the caller, and only after it has left its CPU |
| `Family.NoChildrenMeansNone` | kernel/proc.c:391-435 | wait reports no children only if there are none |
| `Virtio.PostKeeps` | kernel/virtio_disk.c:216-275 | posting a request keeps the queue invariant |
| `Virtio.TakeKeeps` | kernel/virtio_disk.c:261-275 | the device finds in the avail ring the oldest head posted, also after the 16-bit index wraps |
| `Virtio.CompleteKeeps` | kernel/virtio_disk.c:295-327 | a completion by the device, in any order and with any status, keeps the queue invariant |
| `Virtio.ConsumeKeeps` | kernel/virtio_disk.c:295-327 | the driver finds the oldest completion in the used ring, with its own buffer still busy; taking it when the status is 0 keeps the invariant |
| `Virtio.ReleaseKeeps` | kernel/virtio_disk.c:276-292 | a chain is freed only after its completion was consumed |
| `Virtio.Conserved` | kernel/virtio_disk.c:157-213 | free descriptors and three per request are always NUM |
| `Virtio.EndIffHealthy` | kernel/virtio_disk.c:295-327 | the interrupt handler comes to the end of the used ring if and only if no request in it failed |
| `Virtio.ClearsExactly` | kernel/virtio_disk.c:295-327 | an interrupt clears b->disk for exactly the requests it takes from the used ring |
| `Virtio.Disk.AllocDesc` | kernel/virtio_disk.c:157-166 | the lowest free descriptor, -1 exactly if there is none |
| `Virtio.Disk.FreeDesc` | kernel/virtio_disk.c:170-182 | clears and frees one descriptor; panics exactly on a bad index or a double free |
| `Virtio.Disk.Alloc3Desc` | kernel/virtio_disk.c:202-213 | three distinct free descriptors exactly if there are three, otherwise none is taken |
| `Virtio.Disk.FreeChain` | kernel/virtio_disk.c:186-197 | following the chain frees exactly its three descriptors |
| `Virtio.Disk.Submit` | kernel/virtio_disk.c:216-275 | posts one well-formed chain for the buffer, or takes nothing exactly if fewer than three descriptors are free |
| `Virtio.Disk.Collect` | kernel/virtio_disk.c:276-292 | returns the descriptors exactly once the completion was consumed |
| `Virtio.Disk.Intr` | kernel/virtio_disk.c:295-327 | consumes the completions in order; reaches its status panic exactly if a request in the used ring failed, and then at the first of them |
| `VirtioRun.RunKeeps` | kernel/virtio_disk.c:216-327 | the queue invariant and the history of every request over every interleaving of posts, device steps, interrupts and releases |
| `VirtioRun.OnceEach` | kernel/virtio_disk.c:216-327 | in every run each request is posted, taken, completed, seen and freed at most once and in this order; those not in flight have been through all of it; free descriptors and three per request in flight are NUM |
| `VirtioRun.BusyChanges` | kernel/virtio_disk.c:216-327 | b->disk is set exactly when a request for the buffer is posted and cleared exactly when the completion of that request is seen |
| `VirtioRun.NoneMissed` | kernel/virtio_disk.c:295-327 | a completion that the handler has not seen has an interrupt pending or the handler still running, also when it arrives during the loop; when the handler returns none is left |
| `Malloc.InsertKeeps` | user/umalloc.c:25-44 | linking a block in between keeps order and tiling; only neighbours can touch |
| `Malloc.AbsorbKeeps` | user/umalloc.c:31-42 | a merge keeps order and tiling and makes no new contact |
| `Malloc.FreedKeeps` | user/umalloc.c:25-44 | after free no two free blocks touch, no unit is lost, live blocks keep their sizes |
| `Malloc.SplitKeeps` | user/umalloc.c:76-84 | cutting the tail off a block keeps the invariant and the memory |
| `Malloc.GrantedKeeps` | user/umalloc.c:47-61 | a block from sbrk joins the tiling as a live block |
| `Malloc.FreedFits` | user/umalloc.c:25-44 | what free leaves on the list is at least as large as the freed block, so the search after morecore ends |
| `Malloc.NoFit` | user/umalloc.c:73-88 | a search that is back at freep has seen every block, and none fits |
| `Malloc.SbrkExact` | user/umalloc.c:47-61 | sbrk yields the recorded memory if and only if the request is below 2 GB |
| `Malloc.SbrkTruncates` | user/umalloc.c:47-61 | malloc(0xFFFFFFFF) asks for 16 bytes and records more than 4 GB |
| `Malloc.BackedIff` | user/umalloc.c:47-61 | the heap lies in memory of the process if and only if the request is below 2 GB |
| `Malloc.Allocator.FindPlace` | user/umalloc.c:30-33 | from any starting point the loop ends at the one place of the block in address order |
| `Malloc.Allocator.Free` | user/umalloc.c:25-44 | the block is no longer live, nothing else changes hands, the list is in order |
| `Malloc.Allocator.MoreCore` | user/umalloc.c:47-61 | exactly the new memory joins the heap and the list has a fitting block; 0 exactly if sbrk fails |
| `Malloc.Allocator.Alloc` | user/umalloc.c:64-90 | a new live block of the right size in heap memory; calls morecore exactly if nothing fits; 0 exactly if sbrk then fails; live blocks stay; the heap stays within the process exactly if it need not grow or the request is below 2 GB |
| `Pipe.Index` | kernel/pipe.c:93-119 | counters that wrap at 2^32 still index the ring |
| `Pipe.Counters` | kernel/pipe.c:77-130 | the tests on wrapped counters tell empty and full exactly |
| `Pipe.PutByte` | kernel/pipe.c:93-97 | a byte put into the ring is behind all bytes not yet read |
| `Pipe.GetByte` | kernel/pipe.c:115-119 | the byte taken is the oldest unread one |
| `Pipe.Pipe.Write` | kernel/pipe.c:77-103 | appends a prefix of the source to what was written; fails exactly on a closed pipe or when it gets as far as where it is found killed; strands sleeping readers if and only if that is after its first byte and before it fills the pipe or reaches its end |
| `Pipe.Pipe.Read` | kernel/pipe.c:106-130 | takes the next bytes in order, as many as asked for, there or writable; sleeps or fails exactly on an empty open pipe; loses a byte exactly if the destination ends first; strands no reader |
| `Pipe.Pipe.Close` | kernel/pipe.c:59-74 | wakes everybody asleep on the other end; freed exactly when both ends are closed |
| `Pipe.StrandedReader` | kernel/pipe.c:84-88 | a killed writer leaves a byte in the pipe and a reader asleep |
| `Shell.Parser.PeekAt` | user/sh.c:312-321 | skips blanks and tells whether the next character is one of toks |
| `Shell.Parser.NextToken` | user/sh.c:267-309 | the next token, its extent and the position after the blanks behind it |
| `Shell.Parser.ParseRedirs` | user/sh.c:376-398 | wraps the command in the redirections of the grammar, or the error for a missing file |
| `Shell.Parser.ParseArgs` | user/sh.c:426-447 | the argument loop yields the arguments inside all redirections met, or its errors |
| `Shell.Parser.ParseExecAt` | user/sh.c:417-447 | agrees with the grammar for a simple command or a block |
| `Shell.Parser.ParseBlockAt` | user/sh.c:401-414 | agrees with the grammar for a block |
| `Shell.Parser.ParsePipeAt` | user/sh.c:363-373 | agrees with the grammar for a pipeline |
| `Shell.Parser.ParseLineAt` | user/sh.c:346-360 | agrees with the grammar for a line |
| `Shell.Parser.ParseCommand` | user/sh.c:329-343 | terminates on every input with the command of the grammar, or its error for left-over text |
| `ShellRound.ArgsRound` | user/sh.c:417-447 | arguments separated by blanks come back in order |
| `ShellRound.TreeComes` | user/sh.c:346-447 | the parser undoes the unparser at any position of any text |
| `ShellRound.RoundTrip` | user/sh.c:329-447 | every command tree with legal words and fewer than MAXARGS arguments per command has a fully parenthesised text that parses to that tree |
| `ShellPlain.RdsRound` | user/sh.c:376-398 | redirections one after the other come back in order |
| `ShellPlain.SimpleComes` | user/sh.c:417-447 | words and redirections in any order give the words with all redirections round them in the order they come |
| `ShellPlain.PlainComes` | user/sh.c:346-447 | the parser function of each level undoes the unparser that uses parentheses only where needed |
| `ShellPlain.PlainRoundTrip` | user/sh.c:329-447 | every legal command is what the parser makes of such a text: pipelines and lists nest to the right |
| `ShellPlain.ParsePlain` | user/sh.c:329-343 | parsing such a text gives the command back, each word a C string of its own in the buffer |
| `ShellStrings.LineWords` | user/sh.c:346-447 | every token of a parsed line is a maximal word, so no two tokens meet |
| `ShellStrings.NulTerminate` | user/sh.c:451-494 | writes a NUL behind each token of the command and nothing else |
| `ShellStrings.Terminated` | user/sh.c:451-494 | afterwards each token, read as a C string, is what stood in the text |
| `ShellStrings.ParseAndTerminate` | user/sh.c:329-343 | parse and cut: every argument and file name is a C string equal to its token |
| `Grep.LangFirst` | user/grep.c:85-96 | the language of a sequence of atoms is that of the first followed by the rest |
| `Grep.StartsFirst` | user/grep.c:85-96 | a pattern starts a text exactly if its first atom does and the rest follows |
| `Grep.MatchHere` | user/grep.c:85-96 | true exactly if the text starts with a string of the pattern |
| `Grep.MatchStar` | user/grep.c:99-106 | true exactly if some number of accepted characters is followed by the rest of the pattern |
| `Grep.Match` | user/grep.c:73-82 | true exactly if some position (only the first under ^) starts a string of the pattern |

Pure functions without a contract (the grammar of `ShellGrammar`, the reference machine `CowRun.EagerStep`, the
disk states of `Recovery`, the step functions of the step systems) are the specifications that these members are
proved against. `VmSteps` and `FsWrite` hold the step lemmas behind `Vm` and `Fs`.

## Left out

- `uvmclear`, the kernel page table, the trampoline and trapframe mappings: easy members, no user-visible sharing.
- Vm.AddressSpaces.UvmUnmap: only the `do_free` case, the only one in which user pages lose their mapping.
- Trap entry, TLB and fences, context switch, CSR code: hardware effects. A store fault is a call of the handler.
- Concurrency inside the memory system: every operation of `Vm` is one atomic step, so the interleavings of two
  forks, or of a fault on another CPU between the steps of `uvmcopy`, are not covered.
- Vm.AddressSpaces.CopyOut: the fate of a later page is stated on the state in which the copy comes to it, since private copies of the earlier pages have used up memory by then; for the first page that is the state before the call.
- Page-table entries are records in `PageTable` and `Vm`; `Riscv` relates records to words, flag by flag.
- Sleep locks of buffers and concurrent users of one buffer: a buffer is used by one caller at a time.
- `LogSpace` and `Log` are separate: group commit by several operations and readers that come and go during a commit
  are covered in the first, the disk states of a commit with a fixed set of held buffers in the second.
- The inode reference table (`iget`, `idup`), directories and path names, the file table and its reference counts:
  easier versions of the arguments that are here.
- Mkfs.Image.IAppend: only to inodes of the table; a file whose inode lies past it is reported as `Crowded` by `MkfsRun.Build`.
- FsCrash.WriteDurably: its transactions are committed one by one, without other operations in the same commit, and sizes and offsets are those of one writer.
- "No buffers" inside kernel/fs.c: its blocks are read and written directly; `Log.Journal.Update` has that case.
- Fs.FileSystem.BAlloc: assumes that the number of blocks plus BPB is below 2^31, so the `int` block counter does not overflow.
- Family.ReachableInv: takes `sleep` as one atomic step; that this loses no wakeup under `wait_lock`, whose channels are the processes, is what `Sched.NoLostWakeup` shows.
- Sched.NoLostWakeup: conditions are one flag per channel, and fairness of the scheduler is not stated.
- Spinlock internals: acquire and release are atomic steps.
- Virtio.Disk.Intr: the device stands still during the loop; that it need not is what `VirtioRun` shows.
- Virtio feature negotiation, fences and the physical addresses in descriptors: a descriptor names what it points to.
- `runcmd`, `getcmd` and `cd` of the shell; the buffer loop of `grep` around `match`.
- Shell.Parser.ParseArgs: the exec node that the C code fills through a pointer inside the redirections is a value that is rebuilt.
- Malloc.Allocator.Alloc: addresses are in units of the 16-byte header, and calls to `free` are single frees of live blocks.
- Drivers, console, the loading of programs, system-call plumbing and the user programs other than those above.
