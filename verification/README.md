# Verified models of an xv6 kernel and its user programs

This project models the parts of an xv6 system for RISC-V, with copy-on-write fork and a
priority scheduler, whose correctness is hard to see from the code, and proves what the
code is meant to guarantee.  `dafny verify dfyconfig.toml` checks all of it.

| files | what they model |
|---|---|
| `Common` | what several modules share |
| `Blocks`, `CrashSpec`, `Bio`, `Log`, `Reservation` | disk blocks as bytes, what a crash can leave behind, the buffer cache, the redo log, log space under concurrency |
| `Files`, `Mkfs`, `Storage`, `Stack` | free map, inode mapping, file contents, the image the system starts from, inodes on disk, and transactions through the whole stack across crashes |
| `Cow`, `PageTable`, `Paging` | reference-counted pages and lazy copying against an eager reference; three-level tables against a flat map; the flat page table of the first refined by the tree of the second |
| `Heap` | the user-level allocator's free ring |
| `Monitor`, `SleepLock`, `ExitWait`, `Scheduler` | kernel protocols as step systems over any number of processes: sleep and wakeup in general, two of their uses with more to say, and the scheduler |
| `Virtio`, `Pipe` | descriptor table and rings with wrapping indices; the byte ring |
| `Grep`, `ShellSyntax`, `Shell` | a backtracking matcher against its language; a recursive-descent parser against a printer |

Code that updates state in place is modelled by classes and loops, proved against functions
of the old state; properties of whole runs are lemmas about those functions, or about step
systems where a step is what a process does between two spinlock operations.  A block write,
a page copy and a critical section are atomic.  Time, interrupts, memory contents handed in by
users and the success of `sbrk` are parameters.

## Where code and comments disagree

The model follows the code.

- `param.h` allows MAXOPBLOCKS blocks per file system operation.  With ten new blocks per
  operation, three operations can reach the panic of `log_write`; nine is the exact limit
  (`Reservation.ReservationExact`).
- `copyout` tests PTE_V and PTE_U and resolves copy-on-write pages, but not PTE_W.  Writing into
  a read-only page that two processes share changes both (`Cow.ReadOnlyLeak`); `Cow.Vm.CopyOut`
  says exactly when the bytes stay in one process.
- `fork` sets the child's parent field without `wait_lock`, against the rule in
  `proc.h`.  The handshake of exit and wait holds all the same (`ExitWait.StepKeeps`).
- mkfs rounds the size of the root directory up past its last entry even when the entries fill
  their blocks.  With 64 entries the second block of the directory is then not mapped, and the
  kernel starts from an image with a hole (`Mkfs.Build`, `Mkfs.HoleInRoot`).
- `pipewrite` returns without a wakeup when it finds its process killed, even after it has put
  bytes into an empty pipe.  A reader that slept through that goes on sleeping with data in the
  pipe until another call wakes it (`Pipe.KilledWriter`, `Pipe.ReaderLeftAsleep`); that is the
  only way the pipe breaks the rules of sleep and wakeup (`Pipe.Pipe.Write`).
- `malloc` records more memory than it gets for requests above 2^31 - 32 bytes, because `sbrk`
  takes an int (`Heap.SbrkExact`).

## Model

| member | source | states |
|---|---|---|
| `CrashSpec.CrashAtomicity` | initial-xv6/src/kernel/log.c:68-203 | if the machine stops after any prefix of a commit's block writes, and again after any prefix of the writes of each recovery, the first recovery that completes leaves every home block as before the transaction, or every one as after it; always the latter once the header write has reached the disk |
| `CrashSpec.CommitCrash` | initial-xv6/src/kernel/log.c:178-203 | after a crash at write k of a commit the disk is recoverable, to the old state up to the last log-area write and to the new state from the header write on |
| `CrashSpec.CrashInWriteLog` | initial-xv6/src/kernel/log.c:178-191 | stopping inside write_log changes nothing that a recovery can see |
| `CrashSpec.CrashAfterHeader` | initial-xv6/src/kernel/log.c:68-114 | stopping anywhere from the header write through the installation leaves a disk whose recovery gives the whole transaction |
| `CrashSpec.RecoveryRestartable` | initial-xv6/src/kernel/log.c:116-123 | stopping recovery after any of its writes leaves a disk that recovers to the same result |
| `CrashSpec.CrashesDuringRecovery` | initial-xv6/src/kernel/log.c:116-123 | the same for any number of interrupted recoveries in a row |
| `CrashSpec.HeaderRoundTrip` | initial-xv6/src/kernel/log.c:86-114 | read_head reads back the block numbers write_head wrote, through the little-endian words of the block |
| `CrashSpec.CommitFinished` | initial-xv6/src/kernel/log.c:193-203 | an uninterrupted commit leaves the new contents at home and a cleared header |
| `Log.Log.constructor` | initial-xv6/src/kernel/log.c:54-65 | initlog performs exactly the recovery writes and starts with an empty header |
| `Log.Log.WriteLog` | initial-xv6/src/kernel/log.c:178-191 | write_log sends exactly the log-slot writes of the transaction's cached contents, in order, and leaves home blocks alone |
| `Log.Log.WriteHead` | initial-xv6/src/kernel/log.c:102-114 | write_head makes one block write, of a header holding lh |
| `Log.Log.ReadHead` | initial-xv6/src/kernel/log.c:86-97 | read_head sets lh to the header on disk and writes nothing |
| `Log.Log.InstallTrans` | initial-xv6/src/kernel/log.c:68-83 | install_trans writes each log slot to its home block, in order, and unpins every block it installed unless recovering |
| `Log.Log.Recover` | initial-xv6/src/kernel/log.c:116-123 | recovery performs exactly the recovery writes of the specification |
| `Log.Log.Commit` | initial-xv6/src/kernel/log.c:193-203 | commit sends exactly the trace that CrashAtomicity speaks of, empties the header, unpins everything, and leaves on disk what the cache showed |
| `Log.CommitEffect` | initial-xv6/src/kernel/log.c:193-203 | the trace applied to a disk that agrees with the cache outside the transaction gives the cache's view and an empty log |
| `Log.Log.BeginOp` | initial-xv6/src/kernel/log.c:126-142 | an operation starts exactly when no commit runs and its reservation fits the log |
| `Log.Log.LogWrite` | initial-xv6/src/kernel/log.c:214-235 | a block is recorded once and pinned the first time; absorption and both panics happen exactly when the guards say |
| `Log.Log.EndOp` | initial-xv6/src/kernel/log.c:146-175 | the last operation out commits, with the commit's trace and effect; earlier ones change nothing but the count |
| `Reservation.ReservationExact` | initial-xv6/src/kernel/log.c:126-235 | over every interleaving of any number of operations, the panic for a too big transaction is unreachable if and only if each operation adds fewer than MAXOPBLOCKS new blocks, for a log of LOGSIZE blocks |
| `Reservation.PanicAtPromisedLimit` | initial-xv6/src/kernel/param.h:9-10 | with the MAXOPBLOCKS blocks per operation that the comment promises, a run reaches the panic |
| `Reservation.RunInv` | initial-xv6/src/kernel/log.c:126-175 | in every run below the limit the reserved space covers the log, block numbers stay distinct, and a commit runs only with no operation outstanding |
| `Reservation.SectionsObey` | initial-xv6/src/kernel/log.c:126-175 | every critical section under log.lock keeps the rules of sleep and wakeup: begin_op sleeps only while it must wait, and whoever ends that wakes the sleepers before it lets go |
| `Reservation.BeginOpSleepers` | initial-xv6/src/kernel/log.c:126-142 | so in every run no process sleeps in begin_op while log.lock is free and it could start |
| `Bio.BufferCache.constructor` | initial-xv6/src/kernel/bio.c:36-53 | binit links all buffers in one ring |
| `Bio.BufferCache.FindCached` | initial-xv6/src/kernel/bio.c:66-73 | the forward scan finds the one buffer of a block exactly when there is one |
| `Bio.BufferCache.FindFree` | initial-xv6/src/kernel/bio.c:77-88 | the backward scan finds the unreferenced buffer used longest ago, and fails exactly when all are referenced |
| `Bio.BufferCache.Lookup` | initial-xv6/src/kernel/bio.c:58-89 | bget returns the block's only buffer or recycles the least recently used free one, counting one reference; it panics exactly when neither exists |
| `Bio.BufferCache.Bread` | initial-xv6/src/kernel/bio.c:92-103 | bread returns a locked buffer holding the block's latest contents, logged or written, never a stale copy; it waits, with a reference counted, exactly while another process has the buffer locked |
| `Bio.BufferCache.LockAndFill` | initial-xv6/src/kernel/bio.c:92-103 | and gives the same contents once the wait is over |
| `Bio.BufferCache.Bwrite` | initial-xv6/src/kernel/bio.c:106-112 | bwrite makes one disk write, of the buffer's contents to its block |
| `Bio.BufferCache.Unlock` | initial-xv6/src/kernel/bio.c:119-122 | releasing the sleep lock of a buffer that was written or pinned leaves the cache showing the same contents and keeps the caller's reference, so that others may lock the buffer but not recycle it |
| `Bio.BufferCache.Drop` | initial-xv6/src/kernel/bio.c:124-136 | giving up that reference later, whatever others did between, moves the buffer to the front of the ring exactly when it was the last one; the others keep their order |
| `Bio.BufferCache.Brelse` | initial-xv6/src/kernel/bio.c:116-137 | the two together, when no other process comes between |
| `Bio.BufferCache.MoveToFront` | initial-xv6/src/kernel/bio.c:126-134 | the six pointer assignments keep a doubly linked ring of all buffers and promote one |
| `Bio.BufferCache.Bpin` | initial-xv6/src/kernel/bio.c:139-144 | bpin adds a reference that keeps a logged block from being recycled |
| `Bio.BufferCache.Bunpin` | initial-xv6/src/kernel/bio.c:146-151 | bunpin takes it back |
| `Files.FileSystem.Balloc` | initial-xv6/src/kernel/fs.c:65-88 | balloc returns the first free data block, zeroed and marked, and 0 if and only if none is free |
| `Files.FileSystem.Bfree` | initial-xv6/src/kernel/fs.c:91-105 | bfree clears exactly one bit and panics if and only if it was clear |
| `Files.FileSystem.Bmap` | initial-xv6/src/kernel/fs.c:382-421 | bmap gives the address of a file block across direct slots and the indirect table, allocating only where none is mapped; every block keeps one owner and its bit, nothing any file had changes, and 0 only means the disk is full |
| `Files.FileSystem.Readi` | initial-xv6/src/kernel/fs.c:471-496 | readi returns content[off..min(off+n, size)], nothing when off is past the end or off+n wraps in 32 bits, and changes nothing |
| `Files.FileSystem.Writei` | initial-xv6/src/kernel/fs.c:505-539 | writei replaces exactly the first r bytes it reports, r falling short only when the disk is full; -1 exactly for a bad range, and then nothing changes; no other file changes, and every block it changed was logged, the inode block too |
| `Files.FileSystem.WriteOp` | initial-xv6/src/kernel/file.c:155-174 | one filewrite chunk logs at most 7 blocks when the free map fits one block |
| `Files.LoggedCount` | initial-xv6/src/kernel/file.c:155-174 | the count behind it: free map, inode block and indirect block, and the data blocks the chunk spans |
| `Files.FileSystem.FileWrite` | initial-xv6/src/kernel/file.c:134-181 | the chunking loop writes one contiguous prefix of the source, advances the offset by it, and returns the length or -1 by whether all was written; it falls short only past the end of the file, for a chunk beyond the largest file, or with no data block free |
| `Files.FileSystem.Itrunc` | initial-xv6/src/kernel/fs.c:425-453 | itrunc releases exactly the file's blocks, without ever freeing a free block, changes no other file, and logs every block it changes |
| `Mkfs.Balloc` | initial-xv6/src/mkfs/mkfs.c:234-248 | mkfs's free map has exactly the first used bits set |
| `Mkfs.MapExact` | initial-xv6/src/mkfs/mkfs.c:234-248 | that map is exact when blocks were handed out in order |
| `Mkfs.EmptyImage` | initial-xv6/src/mkfs/mkfs.c:110-111 | an image without files meets the invariant that every operation keeps |
| `Mkfs.Make` | initial-xv6/src/mkfs/mkfs.c:110-173 | mkfs stops exactly when the files do not fit: one too long, the root directory too long to round up, or too few blocks for all their data and indirect blocks; otherwise each file holds what was appended to it, the blocks handed out are one run from the first data block with one owner each and an exact free map, and the image meets the kernel's invariant if and only if the entries of the root directory do not fill their blocks |
| `Mkfs.Build` | initial-xv6/src/mkfs/mkfs.c:117-170 | main for any list of files: it succeeds exactly when their sizes and number fit, the root directory then starts with the entries of ., .. and the files, each file holds its bytes, and the root directory has a hole if and only if the number of files is two short of a multiple of 64 |
| `Mkfs.FitsFiles` | initial-xv6/src/mkfs/mkfs.c:252-294 | whether an image can be built depends on the sizes and number of the files alone: the blocks taken are those of each file and of the directory, indirect blocks included |
| `Mkfs.AppendedPieces` | initial-xv6/src/mkfs/mkfs.c:117-161 | of everything main appends, piece by piece, each inode gets its own bytes and the root the directory entries in order |
| `Mkfs.HoleInRoot` | initial-xv6/src/mkfs/mkfs.c:163-168 | with 62 empty files on a disk of the size mkfs makes it succeeds and leaves a hole in the root directory |
| `Mkfs.Maker.Append` | initial-xv6/src/mkfs/mkfs.c:252-294 | iappend succeeds exactly when the file stays within MAXFILE blocks and the disk has the blocks its new size needs beyond those of the old; it then hands out just those, appends exactly the data across direct and indirect blocks, and changes no other file |
| `Mkfs.Maker.BlockFor` | initial-xv6/src/mkfs/mkfs.c:266-281 | a file block's address is there afterwards, at the price of exactly the data block and the indirect block that were missing, and it fails exactly when the disk has fewer left |
| `Mkfs.NeededIs` | initial-xv6/src/mkfs/mkfs.c:266-282 | what the next chunk of an append takes is the difference that its bytes make to the blocks of the file's size |
| `Mkfs.Maker.FixRoot` | initial-xv6/src/mkfs/mkfs.c:163-168 | rounding the root directory up keeps its contents as a prefix, and leaves a hole exactly when its size was a multiple of the block size |
| `Mkfs.Maker.Finish` | initial-xv6/src/mkfs/mkfs.c:234-248 | the free map written last is exact and changes no file |
| `Blocks.PutThenGet` | initial-xv6/src/kernel/log.c:86-114 | words written into a block are read back, and the others are untouched |
| `Blocks.SetThenGetBit` | initial-xv6/src/kernel/fs.c:65-105 | setting or clearing one bit of the free map changes that bit alone |
| `Stack.Transact` | initial-xv6/src/kernel/log.c:126-203 | operations on any inodes between begin_op and end_op, run through inodes, log and buffer cache: the files become what the operations make of byte sequences, and wherever the machine stops, in the commit or in any number of recoveries, recovery gives all files as before or all as after; the size panic of log_write cannot happen if they log no more blocks than the log takes |
| `Stack.Transactions` | initial-xv6/src/kernel/log.c:126-203 | any number of transactions in a row: wherever the machine stops, in any commit or any recovery after it, recovery gives the files after some number of transactions, at least those that had finished by then and at most those that had begun |
| `Stack.DurableThen` | initial-xv6/src/kernel/log.c:126-203 | one more transaction keeps that: a crash before its writes is a crash of the earlier ones, and one within them gives the state before it or after it |
| `Stack.FileWrite` | initial-xv6/src/kernel/file.c:134-181 | filewrite through the whole stack, a transaction to a chunk: no transaction is too big, the file gets a prefix of the source as without crashes, and a crash anywhere leaves, after recovery, some first bytes of it written and every other file as it was; all of it once the last commit is done |
| `Stack.WriteNext` | initial-xv6/src/kernel/file.c:162-167 | one chunk of it: begin_op, writei, iupdate, end_op |
| `Stack.Operations` | initial-xv6/src/kernel/fs.c:425-539 | a sequence of writei and itrunc calls with their iupdates keeps the disk sound, has the effect of the same operations on byte sequences, and changes only logged blocks outside the log area |
| `Stack.Operate` | initial-xv6/src/kernel/fs.c:425-539 | the same for one operation on one inode |
| `Stack.CommitAtomic` | initial-xv6/src/kernel/log.c:68-203 | a commit that takes one sound disk to another recovers, from a crash anywhere, to all files of the one or all of the other |
| `Stack.LogStore` | initial-xv6/src/kernel/log.c:214-235 | a block changed through the cache: its new contents show at once, the disk is unchanged, the block is in the transaction; the size panic happens exactly when the guards say |
| `Storage.OperationAtomic` | initial-xv6/src/kernel/log.c:68-203 | the whole stack: an operation on one inode, whose changed blocks and inode were all logged, leaves after any crashes and interrupted recoveries every file as before it, or every file as after it, on a disk that again meets the file system's invariant |
| `Storage.FilesAtomic` | initial-xv6/src/kernel/log.c:68-203 | the same for any transaction, such as a group commit of several operations |
| `Storage.TransactionView` | initial-xv6/src/kernel/fs.c:225-243 | after an operation and its iupdate the cache shows a sound disk that holds the operation's files and differs from the old one only in logged blocks |
| `Storage.InodeRoundTrip` | initial-xv6/src/kernel/fs.h:32-39 | size and addresses stored in the block's bytes are read back, and the other fifteen inodes of the block are untouched |
| `Storage.DinodeRoundTrip` | initial-xv6/src/kernel/fs.c:225-243 | ilock reads back every field iupdate stored, the four short ones included |
| `Storage.Iupdate` | initial-xv6/src/kernel/fs.c:225-243 | iupdate on disk replaces one inode's size and addresses in the table |
| `Storage.HomeHoldsFiles` | initial-xv6/src/kernel/fs.c:471-496 | files, free map and inodes do not depend on the log area |
| `Cow.Vm.Run` | initial-xv6/src/kernel/vm.c:30-517 | over every sequence of fork, exit, grow, shrink, stores, copyin and copyout, each process's memory equals that of a reference system that copies all pages at fork, and each copyin returns what it would there, as long as copyout is aimed at pages the process may write; counts and free list stay exact |
| `Cow.Vm.Step` | initial-xv6/src/kernel/vm.c:30-517 | the same for one operation, for every outcome including running out of memory; for copyout, if and only if it is clean in the sense of CopyOut |
| `Cow.Vm.Uvmcopy` | initial-xv6/src/kernel/vm.c:356-394 | sharing pages at fork looks like copying them, and the child maps the very pages of the parent; it succeeds when enough memory is free, and a failed copy restores every mapping's page and reference count and loses no page |
| `Cow.Vm.CowAlloc` | initial-xv6/src/kernel/vm.c:30-62 | a write fault gives the process its own writable copy and changes no process's memory; it fails exactly for an unmapped page or a copy-on-write page with no memory left |
| `Cow.Vm.StoreByte` | initial-xv6/src/kernel/trap.c:70-80 | a user store is done, kills the process, or faults again without end, exactly by the test of the page below the stack pointer, MAXVA, the entry's bits and the memory left; done, it changes that byte of that process only, and otherwise memory stays |
| `Cow.Vm.CopyOut` | initial-xv6/src/kernel/vm.c:468-492 | copyout changes memory as a store by that process alone would if and only if each byte it stored went to a page with PTE_W or PTE_COW, to a page with count 1, or was there already; otherwise, and only then, another process sees a change; it stops early only at a page above MAXVA, missing, not for the user, or copy-on-write without memory left |
| `Cow.Vm.CopyIn` | initial-xv6/src/kernel/vm.c:497-517 | copyin succeeds exactly when all pages are readable by the user, and returns their bytes |
| `Cow.StoreExact` | initial-xv6/src/kernel/vm.c:485 | the memmove alone: a store into a mapped page shows in one entry only if and only if the page's count is 1 or the bytes do not change |
| `Cow.StoreView` | initial-xv6/src/kernel/vm.c:485 | and what it shows everywhere: every entry that maps the page, and no other |
| `Cow.ReadOnlyLeak` | initial-xv6/src/kernel/vm.c:468-492 | a run that shows it: process 1 gets a page without PTE_W, forks, and a copyout of one byte to process 1 changes the memory of process 2 |
| `Cow.WritableSole` | initial-xv6/src/kernel/vm.c:356-394 | a page mapped with PTE_W has count 1 |
| `Cow.ShareGood` | initial-xv6/src/kernel/vm.c:369-386 | sharing one page and marking both entries keeps counts, free list and entries exact |
| `Cow.GrantGood` | initial-xv6/src/kernel/vm.c:44-60 | replacing a shared page by a private copy keeps them exact |
| `Cow.UnmapGood` | initial-xv6/src/kernel/vm.c:220-242 | unmapping one page keeps them exact, freeing the page with its last reference |
| `Cow.Vm.constructor` | initial-xv6/src/kernel/kalloc.c:35-60 | after kinit every managed page is free, listed once |
| `Cow.Vm.Kalloc` | initial-xv6/src/kernel/kalloc.c:92-108 | kalloc takes the head of the list with count 1, and fails exactly when it is empty |
| `Cow.Vm.Kfree` | initial-xv6/src/kernel/kalloc.c:66-126 | kfree drops one reference and links the page into the list exactly with the last one; it panics exactly for an unmanaged page or count 0 |
| `Cow.Vm.IncRef` | initial-xv6/src/kernel/kalloc.c:128-137 | increase_pgreference adds one |
| `Cow.Vm.Uvmunmap` | initial-xv6/src/kernel/vm.c:220-242 | uvmunmap removes exactly the range and panics exactly when some page of it is not mapped |
| `Cow.Vm.Fork` | initial-xv6/src/kernel/proc.c:296-339 | fork gives the child a copy of the parent's memory, or leaves the system as it was |
| `Cow.Vm.Grow` | initial-xv6/src/kernel/vm.c:275-299 | uvmalloc adds zeroed pages, or leaves every mapping and count as it was; beyond MAXVA it never succeeds, and panics unless memory runs out before |
| `Cow.Vm.Shrink` | initial-xv6/src/kernel/vm.c:305-317 | uvmdealloc removes exactly the pages beyond the new size |
| `Cow.Vm.Exit` | initial-xv6/src/kernel/vm.c:341-347 | freeing a process's memory returns its pages and its page-table pages, and changes no other process |
| `PageTable.EntryRoundTrip` | initial-xv6/src/kernel/riscv.h:349-354 | PTE2PA and PTE_FLAGS invert the construction of an entry, for every Sv39 physical address and all flag bits |
| `PageTable.EntryRebuild` | initial-xv6/src/kernel/riscv.h:349-354 | and an entry is rebuilt from its parts |
| `PageTable.IndicesNamePage` | initial-xv6/src/kernel/riscv.h:356-365 | below MAXVA two addresses have the same three indices if and only if they lie in the same page |
| `PageTable.SlotsDiffer` | initial-xv6/src/kernel/vm.c:135-153 | different pages, of one process or two, have different entries |
| `Paging.Space.MapOne` | initial-xv6/src/kernel/vm.c:192-215 | mappages of a page on the tree is adding one entry to the flat page table, with exactly the table pages and the free list that the same walk gives there; it fails exactly when that walk does |
| `Paging.Space.Unmap` | initial-xv6/src/kernel/vm.c:220-242 | uvmunmap on the tree is dropping a range of the flat page table, with the same panics |
| `Paging.Space.WalkAlloc` | initial-xv6/src/kernel/vm.c:135-153 | walk with alloc takes exactly the table pages from the free list that the flat model takes, with the same outcome, and changes no entry |
| `PageTable.WalkCost` | initial-xv6/src/kernel/vm.c:135-153 | such a walk costs nothing where the table pages are there, takes at most two pages, from the front of the free list, and succeeds whenever two are free |
| `Paging.SameWalk` | initial-xv6/src/kernel/vm.c:135-153 | walks on the tree and on the flat map add the same table pages from the same list and succeed together |
| `Paging.Space.SetEntry` | initial-xv6/src/kernel/vm.c:374-378 | storing over a mapped entry, as uvmcopy does, is the same change of one entry of the flat table |
| `Paging.Space.Replace` | initial-xv6/src/kernel/vm.c:47-61 | unmapping a page and mapping another in its place changes one entry, takes no table page, and frees the old page with its last reference |
| `Paging.WalkBoth` | initial-xv6/src/kernel/vm.c:135-153 | walk run on the flat table of the memory model and on the tree leaves both with the same entries, table pages and free list |
| `Paging.GrowBoth` | initial-xv6/src/kernel/vm.c:276-300 | so does a page of uvmalloc, with the kfree when mappages fails |
| `Paging.ShareBoth` | initial-xv6/src/kernel/vm.c:364-386 | so does a page of uvmcopy, the change of the parent's entry in place included |
| `Paging.ReplaceBoth` | initial-xv6/src/kernel/vm.c:47-61 | so does the replacement of a shared page by its copy |
| `Paging.CreateBoth` | initial-xv6/src/kernel/vm.c:246-255 | and uvmcreate |
| `Paging.Space.Lookup` | initial-xv6/src/kernel/vm.c:135-153 | walk without alloc finds the flat entry |
| `Paging.Space.Create` | initial-xv6/src/kernel/vm.c:246-255 | uvmcreate adds one root table and no entry |
| `Paging.Space.Free` | initial-xv6/src/kernel/vm.c:341-347 | freewalk takes away exactly the table pages of a process without pages |
| `Paging.TablesLead` | initial-xv6/src/kernel/vm.c:135-153 | the table pages that lead to a mapped page are there |
| `Paging.TablesDiffer` | initial-xv6/src/kernel/vm.c:135-153 | and table pages of all processes are different pages |
| `Paging.EncodeExact` | initial-xv6/src/kernel/riscv.h:342-354 | entries of the flat table and words of the tree correspond one to one |
| `PageTable.Tables.Walk` | initial-xv6/src/kernel/vm.c:135-153 | walk finds or makes the page's entry, changes no translation, takes exactly the missing tables from the free list, and fails exactly for a missing table when it may not allocate or memory is out |
| `PageTable.Tables.MapPages` | initial-xv6/src/kernel/vm.c:192-215 | mappages sets exactly the range it got through and nothing else, with the tables of as many walks; it stops early only on a mapped page or without memory, and says which |
| `PageTable.Tables.UnmapPages` | initial-xv6/src/kernel/vm.c:220-242 | unmapping clears exactly the range, and panics exactly when a page of it is unmapped or not a leaf |
| `PageTable.Tables.Create` | initial-xv6/src/kernel/vm.c:246-255 | a new table maps nothing, and fails exactly without memory |
| `PageTable.Tables.FreeWalk` | initial-xv6/src/kernel/vm.c:321-337 | freewalk terminates, meets no leaf, and frees exactly the table pages below the given one |
| `PageTable.Tables.FreeTree` | initial-xv6/src/kernel/vm.c:341-347 | once no leaf remains, exactly the tables of that process are freed and no other translation changes |
| `Heap.Allocator.Malloc` | initial-xv6/src/user/umalloc.c:63-90 | malloc serves the tail of the first large enough block after freep, or all of it when it fits exactly; it calls morecore at most once, exactly when no block is large enough, and fails exactly when that fails too; the block is disjoint from all live and free ones |
| `Heap.Allocator.Free` | initial-xv6/src/user/umalloc.c:24-44 | free inserts the block in address order and merges it with each neighbour it touches; the search terminates at the one place where it belongs |
| `Heap.Allocator.Morecore` | initial-xv6/src/user/umalloc.c:46-61 | morecore adds at least 4096 units at the old break, or changes nothing |
| `Heap.Allocator.Search` | initial-xv6/src/user/umalloc.c:30-32 | the two exits of the search loop stop at the right block from any freep |
| `Heap.SearchStops` | initial-xv6/src/user/umalloc.c:30-32 | they fire at that block and at no other, the wrap included |
| `Heap.InsertSorted` | initial-xv6/src/user/umalloc.c:33-42 | after the joins blocks are in address order and no two of them touch |
| `Heap.FreedRing` | initial-xv6/src/user/umalloc.c:33-43 | the four assignments keep the ring linked through every block once |
| `Heap.InsertUnits` | initial-xv6/src/user/umalloc.c:33-42 | freeing adds exactly the block's units to the free ones |
| `Heap.TakenRing` | initial-xv6/src/user/umalloc.c:75-83 | unlinking or shortening a block keeps the ring |
| `Heap.TakenUnits` | initial-xv6/src/user/umalloc.c:75-83 | and takes exactly the units served; with InsertUnits, free plus live units equal those obtained from sbrk |
| `Heap.SbrkExact` | initial-xv6/src/user/umalloc.c:53-58 | the int argument of sbrk equals the bytes morecore records if and only if the request is at most 2^31 - 32 |
| `Heap.SbrkTruncates` | initial-xv6/src/user/umalloc.c:53-58 | for the largest request sbrk is asked for 16 bytes and 2^28 + 1 units are recorded |
| `SleepLock.MutualExclusion` | initial-xv6/src/kernel/sleeplock.c:21-52 | in every run of any number of processes a sleep lock has at most one holder, locked says whether it has one, and holdingsleep answers truly |
| `SleepLock.NoSleeperOnFreeLock` | initial-xv6/src/kernel/sleeplock.c:21-41 | no process sleeps on a lock that is free while its inner spinlock is free |
| `SleepLock.WakeupFindsAll` | initial-xv6/src/kernel/proc.c:658-704 | whoever found the lock taken before it was cleared has been found when the wakeup ends |
| `SleepLock.NoDeadlock` | initial-xv6/src/kernel/proc.c:658-704 | whenever an inner spinlock is held, its owner can go on, or the very slot its wakeup waits for can |
| `SleepLock.RunKeeps` | initial-xv6/src/kernel/proc.c:658-730 | every run keeps: a process committed to sleeping has its lock still taken, or a wakeup under way that has yet to visit it; kill included |
| `Monitor.SleepersBlocked` | initial-xv6/src/kernel/proc.c:658-704 | sleep and wakeup for any condition on any data under any spinlock: if everyone tests before sleeping and wakes the channels whose condition it ended before letting go, then in every run, while the lock is free, a process sleeps only on a channel whose condition blocks it now |
| `Monitor.RunKeeps` | initial-xv6/src/kernel/proc.c:658-730 | what every run of any number of processes keeps for that: a process committed to sleeping is blocked, or a wakeup that has yet to visit it is owed; kill included |
| `Monitor.WakeupFindsAll` | initial-xv6/src/kernel/proc.c:688-704 | whoever waits on the channel as a wakeup ends is blocked again |
| `Monitor.LeaveExact` | initial-xv6/src/kernel/proc.c:658-704 | without the rules: letting go of the lock loses a wakeup if and only if some process waits on a channel still owed one |
| `Monitor.SectionEvents` | initial-xv6/src/kernel/proc.c:658-704 | while a process has the lock, the data and what is owed are those of its own stores and wakeups, whatever the others do |
| `Monitor.ObeysEnough` | initial-xv6/src/kernel/proc.c:658-704 | so code whose stores and wakeups leave nothing owed may let go, or sleep |
| `Monitor.OneInside` | initial-xv6/src/kernel/proc.c:658-704 | at most one process is inside a critical section or on its way out of it into sleep |
| `ExitWait.NoSleeperWithZombie` | initial-xv6/src/kernel/proc.c:343-456 | in every run, whenever wait_lock is free no process sleeping in wait has a ZOMBIE child |
| `ExitWait.ParentAlive` | initial-xv6/src/kernel/proc.c:343-402 | every process but initproc has a parent that has not exited |
| `ExitWait.OrphansToInit` | initial-xv6/src/kernel/proc.c:343-355 | a process changes its parent only in reparent of that parent, and then to initproc |
| `ExitWait.ReapedOnce` | initial-xv6/src/kernel/proc.c:406-456 | an exited process is a ZOMBIE in one slot or was reaped, not both; it is reaped at most once, with the status it passed to exit |
| `ExitWait.WaitFails` | initial-xv6/src/kernel/proc.c:406-456 | wait gives up only for a process with no child, or killed, or whose copy of the status failed |
| `ExitWait.StepKeeps` | initial-xv6/src/kernel/proc.c:296-456 | every step of fork, exit, wait, wakeup and kill keeps the invariant, the parent field being set without wait_lock |
| `Virtio.Conservation` | initial-xv6/src/kernel/virtio_disk.c:156-213 | free descriptors and three per request in flight make up the table, so at most two requests are in flight |
| `Virtio.Disk.Start` | initial-xv6/src/kernel/virtio_disk.c:215-283 | a request gets three descriptors of its own, formatted as the device reads them; it has to wait if and only if two are in flight |
| `Virtio.Disk.AllocDesc` | initial-xv6/src/kernel/virtio_disk.c:156-166 | the first free descriptor, or none exactly when none is free |
| `Virtio.Disk.FreeDesc` | initial-xv6/src/kernel/virtio_disk.c:169-182 | frees and blanks one descriptor; the two panics happen exactly when the guards say |
| `Virtio.Disk.FreeChain` | initial-xv6/src/kernel/virtio_disk.c:185-197 | following the chain frees exactly its three descriptors and stops, without a panic |
| `Virtio.Disk.Alloc3Desc` | initial-xv6/src/kernel/virtio_disk.c:201-213 | three different free descriptors if there are three; otherwise all are given back |
| `Virtio.Disk.DeviceTake` | initial-xv6/src/kernel/virtio_disk.c:264-275 | the device takes the oldest request not yet taken, whatever the 16-bit indices |
| `Virtio.Disk.DeviceComplete` | initial-xv6/src/kernel/virtio_disk.c:228-262 | following the tables the device finds the command and buffer that were asked for and the status byte of that request, which gets its verdict; its completion overwrites no entry not yet seen |
| `Virtio.Disk.Intr` | initial-xv6/src/kernel/virtio_disk.c:294-327 | the handler sees every completion once and clears the disk field of exactly the buffers whose requests completed; it panics if and only if the device reported a failure |
| `Virtio.Disk.Finish` | initial-xv6/src/kernel/virtio_disk.c:285-292 | once the buffer's disk field is clear its request has been seen, and its three descriptors become free |
| `Virtio.RingPut` | initial-xv6/src/kernel/virtio_disk.c:264-272 | writing the next ring slot overwrites no pending entry, also after the index wraps |
| `Virtio.RingGet` | initial-xv6/src/kernel/virtio_disk.c:311-324 | reading at the 16-bit index yields the oldest pending entry |
| `Pipe.Pipe.Write` | initial-xv6/src/kernel/pipe.c:76-103 | what a writer puts in is a contiguous part of its bytes, in order; it sleeps only when the ring is full and fails only for a closed reader or a killed process; it keeps the rules of sleep and wakeup if and only if it is not killed after putting bytes into an empty pipe |
| `Pipe.Pipe.Read` | initial-xv6/src/kernel/pipe.c:105-130 | bytes taken out continue the ones taken before as a prefix of all bytes put in; a read returns min(n, available) bytes, waits exactly on an empty pipe with a writer, and keeps the rules of sleep and wakeup |
| `Pipe.Pipe.PutByte` | initial-xv6/src/kernel/pipe.c:95-96 | storing at the wrapped counter overwrites no unread byte |
| `Pipe.Pipe.GetByte` | initial-xv6/src/kernel/pipe.c:117-122 | and loading yields the oldest unread one |
| `Pipe.Counters` | initial-xv6/src/kernel/pipe.c:88-122 | wrapped 32-bit counters still tell empty from full |
| `Pipe.Pipe.Close` | initial-xv6/src/kernel/pipe.c:58-74 | closes one end and wakes whom that ends the wait of; the pipe is dead exactly when both are closed |
| `Pipe.PipeSleepers` | initial-xv6/src/kernel/pipe.c:76-130 | in every run that keeps the rules, while the pipe's lock is free a reader sleeps only on an empty pipe that can be written, a writer only on a full one that can be read, and never both |
| `Pipe.KilledWriter` | initial-xv6/src/kernel/pipe.c:82-86 | a writer of two bytes to an empty pipe, killed after the first, leaves owing the readers a wakeup |
| `Pipe.ReaderLeftAsleep` | initial-xv6/src/kernel/pipe.c:82-86 | and a run in which a reader then sleeps on a pipe that holds a byte |
| `Scheduler.Select` | initial-xv6/src/kernel/proc.c:542-575 | the scan ends with the lexicographically best RUNNABLE process, holding its lock and no other, having taken the locks in slot order |
| `Scheduler.ChooseBest` | initial-xv6/src/kernel/proc.c:551-572 | the three comparisons keep the best by lower dynamic priority, more schedulings, earlier creation, lower slot |
| `Scheduler.BestUnique` | initial-xv6/src/kernel/proc.c:551-572 | that order determines the winner |
| `Scheduler.PassesSafe` | initial-xv6/src/kernel/proc.c:542-575 | with any number of processors scanning, no lock is held by two and every finished pass holds its winner's lock alone |
| `Scheduler.NoCycle` | initial-xv6/src/kernel/proc.c:542-575 | no chain of scanning processors, each waiting for a lock the next one holds, comes back to its start |
| `Scheduler.ChainEnds` | initial-xv6/src/kernel/proc.c:542-575 | following the holders from any processor ends at one that can go on or that waits for other kernel code |
| `Scheduler.WaitRises` | initial-xv6/src/kernel/proc.c:542-575 | the one waited for is at a later slot, or has the lock and only to compare |
| `Grep.Match` | initial-xv6/src/user/grep.c:71-81 | match holds if and only if some suffix of the text, or the text itself after ^, has a prefix in the pattern's language |
| `Grep.MatchHere` | initial-xv6/src/user/grep.c:84-95 | matchhere holds if and only if a prefix of the text is in the pattern's language; the mutual recursion terminates |
| `Grep.MatchStar` | initial-xv6/src/user/grep.c:98-105 | matchstar holds if and only if some run of fitting characters is followed by a match of the rest |
| `Grep.ReadLiteral` | initial-xv6/src/user/grep.c:84-95 | a leading *, an inner ^ and a $ that is not last stand for themselves |
| `ShellSyntax.RoundTrip` | initial-xv6/src/user/sh.c:266-447 | printing a command tree with parentheses where precedence needs them, and parsing the text, gives the same tree with nothing left over; for every tree with at most nine arguments per command and legal words |
| `ShellSyntax.ParsedLegal` | initial-xv6/src/user/sh.c:328-447 | every text that parses gives such a tree, and printing it gives a text with the same parse |
| `ShellSyntax.ShowInjective` | initial-xv6/src/user/sh.c:328-447 | different trees print differently |
| `ShellSyntax.LineRound` | initial-xv6/src/user/sh.c:345-360 | parseline reads back a printed line before ) or the end |
| `ShellSyntax.PipeRound` | initial-xv6/src/user/sh.c:362-373 | parsepipe reads back a printed pipeline |
| `ShellSyntax.ExecRound` | initial-xv6/src/user/sh.c:400-447 | parseexec and parseblock read back a printed simple command or block with its redirections |
| `ShellSyntax.LexText` | initial-xv6/src/user/sh.c:266-309 | the tokens of a spelled-out text are the tokens spelled |
| `ShellSyntax.TooManyArgs` | initial-xv6/src/user/sh.c:434-442 | a tenth argument is a panic |
| `Shell.Parser.GetToken` | initial-xv6/src/user/sh.c:266-309 | gettoken returns the kind and the extent of the next token and moves past it |
| `Shell.Parser.Peek` | initial-xv6/src/user/sh.c:311-321 | peek moves over blanks only and tells whether the next token starts with one of the symbols |
| `Shell.Parser.ReadRedirs` | initial-xv6/src/user/sh.c:375-398 | parseredirs collects all redirections at the pointer, with their open modes, or panics exactly for a missing file |
| `Shell.Parser.ReadExec` | initial-xv6/src/user/sh.c:416-447 | parseexec on the moving pointer computes the parser on tokens, each panic included |
| `Shell.Parser.ReadBlock` | initial-xv6/src/user/sh.c:400-414 | so does parseblock |
| `Shell.Parser.ReadPipe` | initial-xv6/src/user/sh.c:362-373 | so does parsepipe |
| `Shell.Parser.ReadLine` | initial-xv6/src/user/sh.c:345-360 | so does parseline, its loop over & included; parsing terminates on every text |
| `Shell.Parser.ReadCmd` | initial-xv6/src/user/sh.c:328-343 | parsecmd returns the tree, or panics with the message of the first fault or for leftovers |

## Left out

- Log.Log.LogWrite: asks that the block lies outside the log area, as every caller in fs.c ensures; the code does not test it.
- Log.Log.EndOp: commit is one call on a cache that no process is using; readers that run beside a commit are not modelled.
- Files.FileSystem.Writei: the source buffer is in the kernel; a user copy that fails midway is not modelled.
- Stack.Transact: the changed blocks go through the cache after the operations of the transaction, where the code interleaves the two; one transaction runs at a time, and system calls that touch several inodes appear as their writes and truncations.
- Storage.Iupdate: keeps the four short fields as they are on disk; Storage.DinodeRoundTrip covers storing them.
- Cow.Vm.Run: its condition is for pages with PTE_W or PTE_COW; the exact one, which needs the reference counts at the time of the call, is stated for each operation by Cow.Vm.Step.
- Cow.Vm.Step: refuses to grow a process beyond MAXVA; Cow.Vm.Grow says what happens then.
- Paging.Space.Free: says which table pages go back to the free list, not in which order.
- Mkfs.Make: stops where mkfs, out of blocks, fails to read past the end of the image, and also where rounding would make the root directory longer than a file can be, which mkfs does not test.
- Mkfs.Build: asks for an inode for each file, which mkfs does not test.
- Stack.FileWrite: asks for a free map of one block and a log of more than seven, as mkfs makes them; iunlock and another process's use of the inode between chunks are not modelled.
- Reservation.SectionsObey: the store that empties the log after a commit, made without the lock while committing is set, appears at the start of the section that clears it.
- Heap.Allocator.Malloc: asks for at most 2^31 - 32 bytes, the exact range in which morecore gets the memory it records (Heap.SbrkExact).
- Heap.Allocator.Morecore: asks for a size that fits an int, for the same reason.
- Heap.Allocator.Free: asks for a block that malloc returned and that is still live, as the C library does; sizes do not overflow 32 bits.
- Pipe.Pipe.Read: the byte whose copy to the user fails leaves the ring and is lost, as in the code; what the user memory holds then is not modelled.
- Virtio.Disk.Start: feature negotiation, memory barriers and register writes are not modelled.
- Scheduler.Select: the table does not change during the pass, and priority, RBI and scheduling count are given; computing them is not modelled.
- ExitWait.ReapedOnce: process identifiers do not wrap around; waitx, which repeats wait with more results, is not modelled.
- Shell.Parser.ReadExec: builds its redirections around the command at the end instead of updating the argument array inside a tree already built; nulterminate is not modelled, words are the characters between their two pointers.
- Trampoline and trapframe mappings, the kernel's own page table, exec and usertrap beyond the store fault.
- Directories, path names, inode reference counts and file descriptors.
- Trap entry, context switch, start-up, timer arithmetic and all assembly.
- Console, serial port, interrupt controller, printf and the RAM disk.
- The programs under concurrency/, which depend on wall-clock time.
