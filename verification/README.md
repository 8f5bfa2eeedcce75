# Relix, modelled and proved in Dafny

Relix is a small 64-bit operating system that descends from xv6. This project models the
parts of it whose correctness is hardest to see, and proves what they promise. Code that
works in place is modelled in place: classes with fields, arrays and loops with invariants.
Concurrent code is modelled as step systems, with theorems about every run.

- **Redo log** (`RedoLog`, `Log`, `LogProtocol`, `GroupCommit`). The disk is a sequence of
  blocks, and each block write is atomic. `Log` is kernel/log.c with the list of all disk
  images that a crash could leave. `LogProtocol` is group commit: any number of operations,
  crashes anywhere, and a refinement to a disk that takes whole transactions atomically.
  `GroupCommit` shows that the calls of `Log` are the steps of `LogProtocol`.
- **Buffer cache** (`LinkedList`, `BlockCache`). The doubly linked list, the search for a
  buffer, the choice of a victim, and transparency: the cache never changes what a block contains.
- **Files** (`Blocks`, `Bitmap`, `BlockTree`, `FileShape`, `FileContents`, `BlockMap`,
  `FileWrite`, `FileRead`, `FileTruncate`, `InodeBlocks`, `FreeSpace`, `FileSystem`, `File`).
  The bitmap, the three-tier block map, inodes in their blocks, ownership and conservation of
  blocks, freedom from holes, truncation, and files as byte strings, up to every run of reads,
  writes and truncations.
- **Files over the log** (`Journal`, `Reboot`). Groups of file operations as transactions:
  whatever a crash leaves, recovery finds the files as a prefix of the run made them, mounts
  them, and goes on to the next run and the next crash.
- **Allocators** (`Tiling`, `Allocator`, `Kalloc`). The free list of Section 8.7 of
  *The C Programming Language*, in libc and in the kernel.
- **Processes** (`ProcTable`, `ProcessLife`, `SleepLock`, `Ring`, `Pipe`). The process table on
  any number of CPUs, what its steps come to for a process, sleeping locks at the grain of
  single lock operations, and pipes.
- **Address spaces** (`PageTable`, `FourLevels`, `AddressSpace`). Two-level page tables as a map
  from pages to frames, growing, shrinking and copying, and the four levels that the processor
  walks.
- **Algorithms** (`Qsort`, `Calendar`, `Grep`).

`Arithmetic` and `Wrappers` hold division facts, the word size and an option type.
`dafny verify dfyconfig.toml` checks everything.

## What the proofs found

- The early `break` in inode_truncate, on which kernel/fs.c:498 raises a question, is safe
  exactly for trees without a hole, and the kernel writes no other (`TruncateFreesAllIff`,
  `ShapedNoGaps`).
- log_write tests for a full log before it looks for the block, so a write that would be
  absorbed panics at a full log. It never panics exactly if the log has more than LOGSIZE
  blocks and no operation calls it with its budget spent (`NeverPanicsIff`). mkfs makes logs
  of LOGSIZE blocks.
- The cache has as many buffers as a transaction may have blocks (NBUF and LOGSIZE are both 30).
  A commit finds no buffer for its log blocks exactly if all of them are pinned
  (`CommitHasRoomIff`, `BlockCache.WriteLog`). In a log of LOGSIZE blocks at most 29 are; in
  the larger log that would keep log_write from panicking, commit can panic instead.
- A writer killed at a full ring leaves without waking readers, so a reader can sleep in front
  of a full ring (`AKilledWriterStrandsAReader`). Nothing else can bring that about
  (`RunReadersWaitIff`).
- A stop or continue signal breaks the process table unless its target is asleep, runnable or
  stopped (`SignalKeepsIff`): a process that continues itself can run on two CPUs
  (`AContinuedProcessRunsTwice`), and one that continues all of them makes free slots runnable
  (`AContinuedFreeSlotIsDispatched`).
- deallocuvm skips a whole table's worth of pages wherever it stands, and so misses mapped
  pages in some sparse ranges (`VisitsIff`, `ASkippedPageStays`), never in contiguous memory.
- A failing copyuvm loses its two upper tables, and every page it had copied from 0x1da00000 on,
  where freevm stops (`CopyUvm`).
- malloc hands out too small a block for requests above 2^64 - 16 bytes (`RequestFitsIff`).
- localtime is the inverse of the clock arithmetic exactly for day numbers below 2^31
  (`RoundTrip`).
- On an error vfs_write moves the offset back by the error number (`VfsWrite`).

## Reading the model

Integers are unbounded, and wrap-around is written out where the code can meet it: counters of
the ring, sizes in malloc, day numbers, the address that block_alloc returns on a full disk.
Code between taking and releasing a lock is one step. `SleepLock` is finer: it shows that sleep
and wakeup justify that for sleeping code. Where the source panics, a method reports it in its
result or requires the contrary, as its comment says.

## Model

| member | source | states |
|---|---|---|
| `RedoLog.HeaderRoundTrip` | kernel/log.c:88-114 | the header that write_head stores is the list of block numbers that read_head loads, for every list of at most LOGSIZE 64-bit numbers, whatever the block held before; recovery accepts it exactly if they are distinct home blocks that fit the log |
| `RedoLog.RecoveredAt` | kernel/log.c:72-85 | block by block, what recovery makes of an image: a logged home block gets the log copy at its position, every other block keeps its contents |
| `RedoLog.RecoverEmpty` | kernel/log.c:116-123 | with an empty header recovery changes nothing |
| `RedoLog.RecoverWhileAppending` | kernel/log.c:179-192 | a crash after any number of log writes recovers the old contents |
| `RedoLog.RecoverSealed` | kernel/log.c:103-114 | after the header write recovery gives the new contents of every logged block, so that single write is the commit point |
| `RedoLog.RecoverWhileInstalling` | kernel/log.c:72-85 | a crash after any number of installed blocks recovers the same contents and finds the same header: replay is idempotent |
| `RedoLog.RecoverErased` | kernel/log.c:116-123 | once all blocks are installed, erasing the header keeps the recovered contents |
| `RedoLog.RepeatedCrashes` | kernel/log.c:116-123 | any number of crashes inside recovery, each after any number of installed blocks or after the erasing write, end in the same contents |
| `Log.TransactionLog.WriteLog` | kernel/log.c:179-192 | the log blocks hold the cached contents of the logged blocks, image by image; every image on the way recovers the old contents |
| `Log.TransactionLog.WriteHead` | kernel/log.c:103-114 | one disk write, after which the header on disk lists the entries in memory |
| `Log.TransactionLog.InstallTrans` | kernel/log.c:72-85 | the disk becomes what recovery promised and every buffer is clean; every image on the way recovers to the same contents |
| `Log.TransactionLog.ReadHead` | kernel/log.c:88-98 | the entries in memory become those of the header on disk |
| `Log.TransactionLog.Persist` | kernel/log.c:194-204 | write_log and write_head: images before the header write recover the old contents, the last one the new |
| `Log.TransactionLog.Commit` | kernel/log.c:194-204 | crash atomicity of commit, with the exact images: each image up to the n-th log write recovers the old contents, each later one the new contents, the header write being the switch; the log is empty and nothing pinned at the end |
| `Log.TransactionLog.RecoverFromLog` | kernel/log.c:116-123 | recovery reaches the committed contents, and a crash at any of its writes leaves an image from which recovery reaches them too |
| `Log.TransactionLog.LogWrite` | kernel/log.c:215-239 | panics exactly at a full log or outside an operation; otherwise the block is absorbed or appended, and readers see the new data at once while the disk, and whether a commit runs, are unchanged |
| `Log.TransactionLog.BlockWrite` | kernel/bio.c:103-110 | one atomic disk write that leaves the buffer clean |
| `Log.TransactionLog.BeginOp` | kernel/log.c:126-142 | admits an operation exactly if no commit runs and the budgets of all operations, this one included, fit behind the entries |
| `Log.TransactionLog.EndOp` | kernel/log.c:146-176 | only the last operation writes to the disk; its commit is atomic under a crash at any of its writes, and afterwards the log is empty and the home blocks hold what operations saw |
| `LogProtocol.UnusedBounds` | kernel/log.c:126-142 | the unused budget of one operation is at most that of all operations together |
| `LogProtocol.StepKeepsInv` | kernel/log.c:126-239 | every step of begin_op, log_write, end_op, commit and crash recovery keeps: commit only without outstanding operations, none starts or logs meanwhile, and lh.n plus unused budgets within LOGSIZE |
| `LogProtocol.StepRefines` | kernel/log.c:126-239 | every step does to the contents exactly what its meaning says, as an equality with a specification without a log: a log_write changes one block of what operations see and nothing durable, the first header write makes durable what operations see, a crash brings back what is durable, and no other step changes either; the header write finds no operation in progress |
| `LogProtocol.AtRestAllIsDurable` | kernel/log.c:146-176 | when the last operation has left and the disk is at rest, everything that operations wrote is durable |
| `LogProtocol.CommitGoesOn` | kernel/log.c:194-204 | from the last end_op on, each disk write brings the disk one write closer to rest, and only a crash can intervene |
| `LogProtocol.RunKeepsInv` | kernel/log.c:126-239 | the invariant holds throughout every run of any number of operations with crashes anywhere |
| `LogProtocol.CurrentIsWritten` | kernel/log.c:126-239 | in every run, what operations see is what survived the latest crash with the data of every log_write since, in order; operations in progress are those begun and not ended |
| `LogProtocol.DurableIsATransactionBoundary` | kernel/log.c:126-239 | in every run, what recovery would restore is what operations saw at the latest commit point, or at the start if there was none, and no operation was in progress then |
| `LogProtocol.DurableIsWhatEndedOperationsWrote` | kernel/log.c:126-239 | in every run, what recovery would restore is what survived an earlier crash with the data of every log_write up to the latest commit point, at which every operation begun had ended: committed transactions are never lost, reordered or made up |
| `LogProtocol.LogNeverOverflows` | kernel/log.c:126-142 | in every run the transaction has at most LOGSIZE entries, and still has with all budgets spent |
| `LogProtocol.SafeCalls` | kernel/log.c:215-222 | with a log of more than LOGSIZE blocks, an operation within its budget does not panic in log_write |
| `LogProtocol.FillLog` | kernel/log.c:126-239 | three operations can fill the log block by block, by a run that is constructed |
| `LogProtocol.NeverPanicsIff` | kernel/log.c:215-222 | no run panics in log_write if and only if the log has more than LOGSIZE blocks and no operation calls it with its budget spent, not even for a block that would be absorbed |
| `GroupCommit.CommitIsTheProtocol` | kernel/log.c:179-204 | the images that the loops of commit leave are those of the protocol, write by write |
| `GroupCommit.Finished` | kernel/log.c:194-204 | the protocol's writes end with the last of those images, an empty log and nothing pinned |
| `GroupCommit.Callers.Begin` | kernel/log.c:126-142 | begin_op is the Begin step of the protocol, and admits exactly where the protocol does |
| `GroupCommit.Callers.Write` | kernel/log.c:215-239 | log_write is the Write step of the protocol, and panics exactly at a transaction too big |
| `GroupCommit.Callers.End` | kernel/log.c:146-176 | end_op is the End step of the protocol, followed for the last operation by every write of the commit; the disk goes through the protocol's images |
| `LinkedList.Unlink` | kernel/bio.c:124-125 | taking a node out leaves a well-formed doubly linked list of the others, in order |
| `LinkedList.PushFront` | kernel/bio.c:126-129 | putting a node in front leaves a well-formed list that starts with it |
| `BlockCache.RecycleCoherent` | kernel/bio.c:77-83 | recycling a buffer that is neither referenced nor dirty changes what no block contains |
| `BlockCache.MoveToFront` | kernel/bio.c:122-130 | the list stays complete and ordered by time of last release |
| `BlockCache.BlockCache.constructor` | kernel/bio.c:35-53 | the list of all buffers is well formed, and no buffer holds a block of a real device |
| `BlockCache.BlockCache.Find` | kernel/bio.c:66-73 | the walk finds the buffer of a block exactly if there is one |
| `BlockCache.BlockCache.FindVictim` | kernel/bio.c:77-88 | the victim is the least recently released buffer that is neither referenced nor dirty, and there is none exactly if every buffer is one or the other |
| `BlockCache.BlockCache.Get` | kernel/bio.c:58-89 | a cached block is found with one more reference; otherwise that victim is recycled; no two buffers ever hold the same block of a real device |
| `BlockCache.BlockCache.Fill` | kernel/bio.c:92-101 | the locked buffer becomes valid with the current contents of its block |
| `BlockCache.BlockCache.BlockRead` | kernel/bio.c:58-101 | the caller gets the current contents of the block, cached or not, in a buffer whose new state is given, and no block's contents change; it fails if and only if the block is not cached and every buffer is referenced or dirty |
| `BlockCache.BlockCache.Pin` | kernel/log.c:237 | a pinned buffer is dirty and thereby exempt from recycling |
| `BlockCache.BlockCache.Write` | kernel/bio.c:104-110 | the disk gets the current contents of the block and the buffer is clean |
| `BlockCache.BlockCache.Unlock` | kernel/bio.c:117-119 | an unlocked valid clean buffer equals its disk block, which callers owe by pinning or writing what they changed |
| `BlockCache.BlockCache.Put` | kernel/bio.c:121-131 | one reference less; the last one moves the buffer to the front of the list and stamps it as released now |
| `BlockCache.BlockCache.BlockRelease` | kernel/bio.c:114-132 | lock and reference are given up and no block's contents change; a clean buffer that loses its last reference can be recycled |
| `BlockCache.BlockCache.CopyToLog` | kernel/log.c:183-190 | one round of write_log over the cache: it gets its buffers if and only if some buffer is neither pinned nor referenced; then the log block holds the pinned contents, and pinned buffers stay as they are |
| `BlockCache.BlockCache.WriteLog` | kernel/log.c:179-192 | all of write_log over the cache: it goes through if and only if there is nothing to copy or some buffer is neither pinned nor referenced; then each log block holds the contents of its home block and nothing else changes |
| `BlockCache.CommitHasRoomIff` | kernel/include/param.h:12-13 | with no other buffer in use, a commit finds a buffer if and only if the transaction has fewer blocks than the cache has buffers |
| `Blocks.SetWordReads` | kernel/fs.c:425-435 | a pointer stored in a table block is read back and the other 255 are untouched |
| `Blocks.XlongReads` | tools/mkfs.c:102-116 | the bytes that mkfs makes of a 64-bit number are read by the kernel as that number |
| `Bitmap.PutMarks` | kernel/fs.c:76-80 | rewriting one bit of the bitmap changes the mark of one block only |
| `Bitmap.Balloc` | tools/mkfs.c:356-369 | the bitmap block that mkfs writes, byte by byte; the kernel reads it as: exactly the first blocks are taken |
| `BlockTree.NoSharing` | kernel/fs.c:409-471 | two different places (inode and position, at any tier) never hold the same block |
| `BlockTree.GrowPtrs` | kernel/fs.c:416-468 | a fill sets one pointer; no other pointer of any inode changes, and the entries of a new table are null |
| `BlockTree.GrowOwned` | kernel/fs.c:68-89 | allocation keeps every block in use marked and owned by exactly one place |
| `FileShape.InUseGrows` | kernel/fs.c:409-471 | growing a file by one block fills exactly the places on the path to that block |
| `FileShape.GrownShape` | kernel/fs.c:623-633 | a file without holes that gets its next block has no holes, and other files keep their shape |
| `FileShape.MissingAtEnd` | kernel/fs.c:409-471 | the blocks that an append of one block takes are the growth of the tree, across all three tiers |
| `FileContents.SpliceSplice` | kernel/file.c:563-582 | writing in two pieces is writing in one |
| `FileContents.SpliceBytes` | kernel/fs.c:600-640 | byte by byte: what is written is there and every other byte is as it was |
| `FileContents.PutBlockEffect` | kernel/fs.c:628-632 | copying into a data block changes exactly one block of one file |
| `FileWrite.WriteStep` | kernel/fs.c:623-633 | one round of the write loop keeps ownership, shapes, contents written so far, all other files and the count of free blocks |
| `FileWrite.FinishContents` | kernel/fs.c:635-638 | at the end the file is its old contents with the data spliced in, and every other file is as before |
| `FileWrite.OutOfBlocks` | kernel/fs.c:623-627 | if the block map runs out, the free blocks did not cover the growth of the whole write |
| `FileRead.ReadBlock` | kernel/fs.c:585-589 | every block below the file size exists, so reading allocates nothing |
| `FileRead.ReadChunk` | kernel/fs.c:590-593 | the bytes copied from one block are the next bytes of the file |
| `FileTruncate.TruncateFreesAllIff` | kernel/fs.c:484-532 | after truncation every block of the inode's tree is free if and only if no table of it has a non-null entry behind a null one: the answer to the question about the early break |
| `FileTruncate.ShapedNoGaps` | kernel/fs.c:616-638 | a file without holes has no such table, so truncation of files the kernel wrote is complete |
| `FileTruncate.TruncateKeepsOwned` | kernel/fs.c:478-536 | after truncation every marked block has exactly one owner if and only if no table of the inode had a non-null entry behind a null one |
| `FileTruncate.TruncateKeepsFiles` | kernel/fs.c:478-536 | the truncated file is empty, all others are untouched, and there is still no hole |
| `InodeBlocks.StoreReads` | kernel/include/fs.h:85-101 | word by word, what storing an inode does to its block: its size and addresses change and no other word does |
| `InodeBlocks.InodeRoundTrip` | kernel/fs.c:239-257 | an inode stored in its block is read back, and the other fifteen inodes of the block are untouched |
| `InodeBlocks.StoreOne` | kernel/fs.c:239-257 | the same over all inode blocks: exactly one inode on the disk changes |
| `FreeSpace.UsedCount` | kernel/fs.c:409-471 | a tree without holes has as many blocks, tables included, as the closed formula in the number of its data blocks says |
| `FreeSpace.Conservation` | kernel/fs.c:68-105 | conservation: in every file system with proper ownership and without holes, the free blocks are all blocks less metadata and the trees of all files, which their sizes determine |
| `FileSystem.Disk.constructor` | kernel/include/fs.h:39-110 | a new file system with empty inodes is consistent |
| `FileSystem.Disk.Load` | kernel/fs.c:308-345 | inodes read from their blocks agree with them, so a sound medium gives a consistent file system |
| `FileSystem.Disk.BlockZero` | kernel/fs.c:54-63 | the block becomes zero and is logged |
| `FileSystem.Disk.BlockAlloc` | kernel/fs.c:68-89 | the lowest free block, now marked and zeroed; fails exactly if no block is free; changes only blocks it logs |
| `FileSystem.Disk.BlockFree` | kernel/fs.c:92-105 | exactly the mark of the block is cleared |
| `FileSystem.Disk.Bmap` | kernel/fs.c:409-471 | the address of any block of the file through any tier; it allocates what the path lacks, succeeds exactly if that many blocks are free, and keeps every other pointer |
| `FileSystem.Disk.BmapIndirect` | kernel/fs.c:422-437 | the same for the single indirect tier |
| `FileSystem.Disk.BmapDouble` | kernel/fs.c:438-468 | the same for the doubly indirect tier |
| `FileSystem.Disk.InodeUpdate` | kernel/fs.c:239-257 | the inode's place in its block holds the size and the addresses in memory; the other inodes on the disk are as before, and the block is logged |
| `FileSystem.Disk.InodeRead` | kernel/fs.c:562-596 | the slice of the file clipped to its size, or the domain error exactly outside the file; nothing is allocated or logged |
| `FileSystem.Disk.InodeWrite` | kernel/fs.c:600-640 | splices the bytes, touches no other file, leaves no hole, brings the inode block up to date, takes from the pool what the larger tree needs; fails exactly if out of range or if the pool is too small; changes only bitmap, inode and data blocks that it logs, and bounds their number |
| `FileSystem.Disk.FreeEntries` | kernel/fs.c:494-502 | frees the entries of a table up to the first null one and no others |
| `FileSystem.Disk.InodeTruncate` | kernel/fs.c:478-536 | on every properly owned file system exactly the released blocks become free, the addresses and the size are cleared, the inode on the disk agrees and the others are as before; changes only blocks it logs, which are bitmap blocks and one inode block |
| `File.ChunkBudget` | kernel/file.c:557-582 | each chunk logs at most 8 distinct blocks, below MAXOPBLOCKS, at any offset and through all three tiers |
| `File.OpenFile.WriteChunk` | kernel/file.c:574-581 | one transaction of vfs_write: a splice of the chunk through at most 8 logged blocks, with nothing else changed; fails exactly if out of range or if the pool is too small; moves the offset by the result, error numbers included |
| `File.OpenFile.VfsRead` | kernel/file.c:505-526 | the slice at the offset, which moves on by the number of bytes read |
| `File.OpenFile.VfsWrite` | kernel/file.c:547-597 | runs out of disk if and only if the growth of the file's tree exceeds the free blocks, and then after exactly the chunks for which there was room; otherwise sends all bytes if they stay within the limits and whole chunks up to the limit if not, as one splice at the starting offset, in one transaction for each chunk, each changing only the at most 8 blocks it logs; the offset moves on by what went out and, after an error, back by the error number |
| `File.ReadBack` | kernel/file.c:505-597 | what was written at an offset is what a read at that offset returns |
| `File.SpaceLeft` | kernel/fs.c:68-105 | the free blocks as a function of the files as byte strings |
| `File.PerformTruncate` | kernel/fs.c:478-536 | empties one file, keeps all others, and gives every block of its tree back to the pool; logs at most the bitmap and one inode block |
| `File.Perform` | kernel/file.c:505-597 | one operation does to the files what it does to byte strings; it succeeds if and only if the files it makes fit the disk; a read logs nothing, a write of one chunk at most 8 blocks |
| `File.Run` | kernel/file.c:505-597 | every run of reads, writes and truncations over any number of inodes does to the files what it does to byte strings, and keeps ownership, freedom from holes and agreement with the inode blocks; it gets to its end if and only if the files, as byte strings, fit the disk at every point of the run; it changes only blocks it logs, within the sum of the operations' budgets |
| `Journal.LogAll` | kernel/log.c:215-239 | what readers see after operations have logged their blocks is the new contents of exactly those; it panics if and only if they are more than the log holds |
| `Journal.BeginAll` | kernel/log.c:126-142 | an empty log admits up to LOGSIZE / MAXOPBLOCKS operations at once |
| `Journal.EndAll` | kernel/log.c:146-176 | of operations that leave one after the other only the last commits, all of them at once |
| `Journal.Complete` | kernel/log.c:215-239 | blocks that an operation did not log did not change, so the logged ones make up the whole disk after the operation |
| `Journal.Transact` | kernel/log.c:126-239 | a group of file operations that begin before any of them ends, as one transaction: each disk image on the way recovers to the file system before the group or, from the commit point on, to the one after all of it; it goes through if and only if the files fit the disk all along and the blocks logged fit the log |
| `Journal.RunDurably` | kernel/file.c:547-597 | in every run of groups of writes, truncations and reads over the log, each image that a crash can leave recovers to a sound file system without holes whose files are what a prefix of the groups made of them; later images never recover a shorter prefix; a run stops only at a group that does not fit the log or the disk, with everything before it done and durable |
| `Journal.OneByOne` | kernel/file.c:563-591 | operations that commit one by one mean what they mean as one run |
| `Journal.ChunkedWrite` | kernel/file.c:563-591 | a long write cut short after k transactions has written exactly its first k chunks |
| `Reboot.DataBlocksSuffice` | kernel/fs.c:409-596 | ownership, freedom from holes and the files depend on data blocks, marks and inodes alone, so the blocks ahead may hold anything |
| `Reboot.Mount` | kernel/log.c:116-123 | recovery from an image that a crash left, and inodes read back from their blocks: a mounted, consistent file system with the files that the image recovers to |
| `Reboot.RunAndReboot` | kernel/log.c:56-70 | a run, a loss of power at any disk write or at rest, and recovery: a mounted file system whose files are what a prefix of the groups made, all of them if the run fits and ended at rest |
| `Reboot.Live` | kernel/log.c:56-70 | any number of such episodes in a row: the files are what a prefix of each run made of them, one after the other |
| `Tiling.NoOverlap` | userspace/libc/umalloc.c:27-57 | two blocks of a tiling share no byte |
| `Allocator.Heap.Free` | userspace/libc/umalloc.c:27-57 | keeps the list circular, in address order and fully merged; the block goes back inside the free block named; exactly its bytes become free, every other live block and the memory obtained stay; freeing NULL does nothing |
| `Allocator.Heap.FindPlace` | userspace/libc/umalloc.c:38-42 | the search ends at the place in address order where the block belongs, from any starting point |
| `Allocator.Heap.FirstFit` | userspace/libc/umalloc.c:101-124 | one round finds a block if and only if there are that many free bytes in a row |
| `Allocator.Heap.Carve` | userspace/libc/umalloc.c:105-115 | all of an exact fit or the tail of a larger block is handed out; its bytes were free, and exactly those are no longer |
| `Allocator.Heap.AllocateUnits` | userspace/libc/umalloc.c:62-83 | the region obtained becomes a free block, merged with its neighbours, and exactly its bytes become free; refusal leaves the heap alone |
| `Allocator.Heap.Malloc` | userspace/libc/umalloc.c:87-126 | hands out a block of the size computed, of bytes that were free or just obtained; asks the system if and only if there are not that many free bytes in a row, and fails if and only if the system then refuses |
| `Allocator.FitIff` | userspace/libc/umalloc.c:27-57 | since the list is fully merged, some free block is large enough if and only if there are that many free bytes in a row |
| `Allocator.CarvedFree` | userspace/libc/umalloc.c:105-115 | handing out a block takes its bytes, all of them free before, from the free ones |
| `Allocator.RequestFitsIff` | userspace/libc/umalloc.c:95 | the block has room for the request if and only if the rounding does not wrap around, that is nbytes is at most 2^64 - 16; no smaller block would do |
| `Allocator.Partition` | userspace/libc/umalloc.c:27-126 | every byte obtained from the system lies in exactly one block, either live or on the free list |
| `Kalloc.KernelHeap.PageAlloc` | kernel/kalloc.c:108-127 | takes the head of the page list, or fails exactly if it is empty |
| `Kalloc.KernelHeap.PageFree` | kernel/kalloc.c:71-103 | puts the page on the list |
| `Kalloc.KernelHeap.Morecore` | kernel/kalloc.c:184-202 | adds one page to the heap, free all over, or fails exactly if no page is left |
| `Kalloc.KernelHeap.Search` | kernel/kalloc.c:223-250 | takes pages one by one, all of which join the heap, exactly until there are enough free bytes in a row |
| `Kalloc.KernelHeap.Kmalloc` | kernel/kalloc.c:205-251 | terminates for every request, as each round ends it or uses up a page; takes the least number of pages with which there are enough free bytes in a row, all of which join the heap, and hands out bytes that were free or on them; fails if and only if all pages together are not enough |
| `ProcTable.FirstUnused` | kernel/proc.c:131-135 | the lowest free slot, if there is one |
| `ProcTable.FirstReapable` | kernel/proc.c:417-422 | the lowest slot with a zombie child that matches, if there is one |
| `ProcTable.StepKeepsInv` | kernel/proc.c:361-554 | every step of every CPU keeps the whole invariant: RUNNING means current on one CPU; parents live; waiters have nothing to reap; process ids differ and grow from parent to child; fork slots belong to one fork and none leaks; who exited never runs |
| `ProcTable.RunKeepsInv` | kernel/proc.c:361-554 | the invariant holds throughout every run from boot, with any number of CPUs and slots |
| `ProcTable.RunningIffCurrent` | kernel/proc.c:472-554 | in every run a process is RUNNING if and only if it is current on a CPU, and then on one only |
| `ProcTable.ParentsAndWaiters` | kernel/proc.c:361-456 | in every run no free or zombie slot is anyone's parent, and a process asleep in waitpid, for any pid argument, has no zombie child that matches |
| `ProcTable.ProcessTree` | kernel/proc.c:281-401 | following parents from any live or zombie process ends at init: no cycle and no orphan |
| `ProcTable.ExitWakesParent` | kernel/proc.c:384-385 | an exit makes a parent asleep in waitpid runnable |
| `ProcTable.ExitWaiter` | kernel/proc.c:384-395 | who still sleeps in waitpid after an exit is not the parent, and is init only if no zombie was handed over |
| `ProcTable.SignalKeepsIff` | kernel/proc.c:694-703 | a stop or continue signal keeps the invariant if and only if its target is asleep, runnable or stopped |
| `ProcTable.AContinuedProcessRunsTwice` | kernel/proc.c:700-703 | from every boot state with two CPUs: a running process that is sent SIGCONT is dispatched on a second CPU |
| `ProcTable.AContinuedFreeSlotIsDispatched` | kernel/proc.c:757-765 | from every boot state with two CPUs: init sends SIGCONT to all slots, every free slot is runnable, and the scheduler may take one |
| `ProcTable.Table.constructor` | kernel/proc.c:215-252 | the table after userinit is an initial state of the system: init runnable with process id 1, every other slot free |
| `ProcTable.Table.Wakeup1` | kernel/proc.c:621-629 | exactly the sleepers on the channel become runnable |
| `ProcTable.Table.Dispatch` | kernel/proc.c:482-505 | the next runnable slot from a given one on is put on the CPU; none means there is none |
| `ProcTable.Table.Yield` | kernel/proc.c:547-554 | the step of the system that gives up the CPU |
| `ProcTable.Table.Sleep` | kernel/proc.c:580-617 | the step that sleeps on a channel and gives up the CPU |
| `ProcTable.Table.Wakeup` | kernel/proc.c:632-638 | the step that wakes the sleepers on a channel |
| `ProcTable.Table.AllocProc` | kernel/proc.c:124-161 | the lowest free slot becomes the fork's with a process id never used before; fails exactly if no slot is free |
| `ProcTable.Table.Exit` | kernel/proc.c:380-400 | the scanning loops amount to the exit step: parent woken, children handed to init, init woken if one is a zombie, the process a zombie off its CPU |
| `ProcTable.Table.WaitPid` | kernel/proc.c:407-456 | one pass amounts to the wait step; it reaps if and only if there is a zombie child that matches, and returns its id; otherwise it reports no children if there are none or the process is killed, and sleeps if and only if there are children and it is not killed |
| `ProcessLife.StateDiagram` | kernel/proc.c:124-554 | every step of every CPU takes every process that is not asleep where the diagram of states says, from its old state alone: who is dispatched runs, who yields is runnable, who exits is a zombie, the lowest free slot is taken, a finished fork is runnable, the lowest matching zombie is freed, and all others stay as they are |
| `ProcessLife.CpuDiagram` | kernel/proc.c:472-554 | a CPU gets a process by dispatching it and loses it when the process yields, exits or falls asleep, and at no other step |
| `ProcessLife.FamilyDiagram` | kernel/proc.c:281-401 | a child is its forker's, and init's once the forker has exited, until it is reaped; it keeps its process id |
| `ProcessLife.PidsUsed` | kernel/proc.c:124-145 | a process id is used up by every fork that finds a slot, and by nothing else |
| `ProcessLife.WokenIff` | kernel/proc.c:361-638 | in every run, whatever came between: a process that went to sleep at an address is made runnable exactly by a wakeup of that address or a signal to it, and one that went to sleep in waitpid exactly by the exit of a child of its own, by a signal or, for init, by an exit that leaves it a zombie |
| `ProcessLife.RunnableUntilDispatched` | kernel/proc.c:472-554 | a runnable process stays so until it is dispatched, and any idle CPU may |
| `ProcessLife.ForkMakesAChild` | kernel/proc.c:281-355 | in every run: a fork that comes to its end leaves a runnable child of the forking process with the process id that was next when it began; one that fails leaves a free slot |
| `ProcessLife.ALife` | kernel/proc.c:215-505 | from every boot state, a run on one CPU in which init forks, waits asleep, is woken by the exit of its child and reaps it; then only a process id has been used up |
| `SleepLock.StepKeepsWakeups` | kernel/proc.c:580-638 | no interleaving of acquiresleep, sleep and wakeup lets a wakeup pass between the test and the sleep |
| `SleepLock.StepKeepsInv` | kernel/sleeplock.c:17-37 | every step of every thread keeps the exclusion of both spinlocks, the single owner and the wakeups |
| `SleepLock.RunKeepsInv` | kernel/sleeplock.c:17-37 | throughout every run of any number of threads |
| `SleepLock.MutualExclusion` | kernel/sleeplock.c:17-26 | in every run at most one thread is past acquiresleep |
| `SleepLock.NeverAsleepOnAFreeLock` | kernel/sleeplock.c:17-37 | in every run a sleeping thread faces an owner, or a wakeup that is on its way |
| `SleepLock.SomeoneCanStep` | kernel/sleeplock.c:17-37 | no deadlock: while a thread is busy with the lock some such thread can take a step |
| `SleepLock.CallsInTurn` | kernel/sleeplock.c:17-37 | a thread enters and leaves acquiresleep and releasesleep by its own steps and in turn; it comes out of acquiresleep only as the holder, the only owner, named as such |
| `SleepLock.AcquireEndsWithTheLock` | kernel/sleeplock.c:17-27 | in every run: a thread that has left acquiresleep left it with the lock, however often it slept on the way |
| `SleepLock.ReleaseWakesEveryone` | kernel/sleeplock.c:29-37 | in every run: a thread that leaves releasesleep leaves nobody asleep or on the way to sleep |
| `SleepLock.HoldingSleepIff` | kernel/sleeplock.c:39-48 | in every run: holdingsleep is true of the owner and of nobody else |
| `SleepLock.AloneItAcquires` | kernel/sleeplock.c:17-27 | wherever in acquiresleep a thread is, alone it gets the lock within four steps |
| `SleepLock.UndisturbedItSleeps` | kernel/proc.c:580-617 | a thread that comes to a taken lock is asleep after six steps, holds no spinlock and waits to be woken |
| `SleepLock.UndisturbedItReleases` | kernel/sleeplock.c:29-37 | a holder gives the lock back in six steps: it is free, who slept is awake and nothing else has changed |
| `Ring.CellsIff` | lib/ring_buffer.c:5-23 | counters that wrap at 2^64 select the right cells for ever if and only if the size divides 2^64 |
| `Ring.Ring.constructor` | lib/ring_buffer.c:5-23 | an empty ring of PIPE_BUF bytes |
| `Ring.Ring.IsFull` | kernel/pipe.c:95-96 | the test on wrapped counters is true exactly for a full ring |
| `Ring.Ring.Fill` | kernel/pipe.c:94-106 | appends the next bytes of the argument, as many as fit, in order |
| `Ring.Ring.Drain` | kernel/pipe.c:126-132 | removes the oldest bytes, as many as asked for and there, in order |
| `Pipe.SharedPipe.constructor` | kernel/pipe.c:12-44 | a new pipe is an initial state of the system, open at both ends |
| `Pipe.SharedPipe.Wakeup` | kernel/proc.c:621-638 | exactly the sleepers on the counter become runnable |
| `Pipe.SharedPipe.WriteOn` | kernel/pipe.c:94-109 | the loop on the ring amounts to the write section; it returns the length exactly if all bytes went in, and otherwise fails or sleeps by the tests at the full ring |
| `Pipe.SharedPipe.PipeWrite` | kernel/pipe.c:82-110 | amounts to the write step; fails at once without a reader or if killed, and otherwise returns the length exactly if all bytes fit, fails if killed at the full ring and sleeps there if not |
| `Pipe.SharedPipe.PipeRead` | kernel/pipe.c:112-136 | amounts to the read step; returns the oldest bytes, as many as asked for and there, and otherwise sleeps or fails exactly at an empty ring with a writer open |
| `Pipe.SharedPipe.PipeClose` | kernel/pipe.c:62-80 | amounts to the close step, which wakes those who wait for the other end |
| `Pipe.StepKeepsInv` | kernel/pipe.c:62-136 | every section of every reader and writer, every close and every signal keeps the stream and the sleeping writers |
| `Pipe.RunKeepsInv` | kernel/pipe.c:62-136 | in every run: bytes read followed by the ring are the bytes written; the bytes of each thread are, in order, those of its calls; occupancy is within the ring; a sleeping writer faces a full ring with a reader open |
| `Pipe.ReadIsAPrefix` | kernel/pipe.c:112-136 | in every run what was read is a prefix of what was written, short by what is in the ring |
| `Pipe.ReadersWaitIff` | kernel/pipe.c:95-103 | a step keeps sleeping readers at an empty ring with a writer open if and only if it is not a writer that fills the ring, finds itself killed there and leaves without waking them |
| `Pipe.RunReadersWaitIff` | kernel/pipe.c:95-103 | sleeping readers face an empty ring with a writer open throughout a run if and only if no such step occurs in it |
| `Pipe.AKilledWriterStrandsAReader` | kernel/pipe.c:95-103 | for every size of ring, a run of two steps after which a reader sleeps in front of a full ring |
| `Pipe.NeverBothAsleep` | kernel/pipe.c:82-136 | in runs without such a step a reader and a writer never sleep at the same time |
| `Pipe.EndOfFile` | kernel/pipe.c:119-135 | a read of at least one byte that returns none has seen the end: no writer is open and every byte written has been read |
| `Pipe.WriteSendsAll` | kernel/pipe.c:82-110 | in every run: as long as a write goes on, however often it sleeps, what its thread has sent since it began is a prefix of its bytes; when it ends that is all of them, unless it ends at a full ring because the thread is killed or the last reader has gone |
| `Pipe.RefusedWriteSendsNothing` | kernel/pipe.c:85-93 | a write without a reader or by a killed thread sends nothing |
| `Pipe.ReadTakesItsBytes` | kernel/pipe.c:112-136 | in every run: each step of a read gets the oldest bytes of the ring, as many as the call asked for or as there are, and ends the call; at an empty ring with a writer open it gets none, and ends the call if and only if the thread is killed |
| `Pipe.EndsOpen` | kernel/pipe.c:62-80 | in every run an end is open as long as it has descriptors left |
| `Pipe.SignalWakes` | kernel/proc.c:717-720 | a sleeping reader or writer can go on after a signal |
| `PageTable.SlotsIff` | kernel/vm.c:71-87 | two pages share an entry if and only if they are a multiple of 1 GiB apart; below 510 * 2 MiB none does, and no back-pointer is hit |
| `PageTable.AddTableLookup` | kernel/vm.c:74-86 | adding a page table changes no translation of any space |
| `PageTable.SetEntryLookup` | kernel/vm.c:110 | writing an entry changes the translation of one page of one space |
| `PageTable.VisitsIff` | kernel/vm.c:281-302 | exactly which pages deallocuvm skips: those with no table before them in the range and closer to the start of their table than the range to its own |
| `PageTable.ContiguousVisited` | kernel/vm.c:281-302 | in contiguous memory it skips none |
| `FourLevels.ProcessorAgrees` | kernel/vm.c:567-592 | the walk of the processor through four levels, from the table that switchuvm loads, gives every user page as its page table entry says, with its permissions: the upper levels take nothing away |
| `FourLevels.SharedKernel` | kernel/vm.c:582-583 | the kernel's half of memory is the same in every space |
| `FourLevels.StaysRooted` | kernel/vm.c:65-208 | work on one space keeps the four levels of all |
| `FourLevels.OthersRooted` | kernel/vm.c:308-323 | taking a space apart keeps the four levels of the others |
| `AddressSpace.NewSpaceLinked` | kernel/vm.c:567-592 | a new space has all four levels, and the others keep theirs |
| `AddressSpace.Memory.SwitchUvm` | kernel/vm.c:639-656 | what it loads gives the processor the space of the directory, page by page |
| `AddressSpace.Memory.Walk` | kernel/vm.c:65-88 | the table of the page, added if asked for; no translation changes, no frame is lost; fails exactly without a table and without permission or frames |
| `AddressSpace.Memory.MapPage` | kernel/vm.c:93-124 | one translation changes and no other; panics exactly on a mapped page; fails only with no frame for a table |
| `AddressSpace.Memory.MapPages` | kernel/vm.c:93-118 | the pages of the range up to the failing one are mapped and nothing else changes; the tables added are those of these pages, and only they leave the free list; without memory there is no frame left and the next table is missing |
| `AddressSpace.Memory.DeallocUvm` | kernel/vm.c:271-304 | exactly the mapped pages that its walk visits are unmapped and their frames freed; no other translation changes |
| `AddressSpace.ASkippedPageStays` | kernel/vm.c:281-302 | a space of one page, page 512: deallocuvm down to one page leaves it mapped |
| `AddressSpace.NeedNew` | kernel/vm.c:390-407 | a new space takes one frame for each page and one for each table begun |
| `AddressSpace.HowFar` | kernel/vm.c:390-407 | how many pages a number of free frames is enough for, page tables included |
| `AddressSpace.Memory.AllocUvm` | kernel/vm.c:179-208 | succeeds if and only if the free list covers the pages and the missing tables: then they are zeroed, in frames of their own, and nothing else changed; otherwise every translation is as before, the page where memory ran out is given, and the frames missing from the free list are the tables that the directory gained up to there, no other; new pages are for users to write, and every space keeps its four levels |
| `AddressSpace.Memory.UndoGrowth` | kernel/vm.c:194-205 | the failure path restores all translations and returns all data frames; the directory keeps the tables of the pages it got to, and no others |
| `AddressSpace.FramesAccounted` | kernel/vm.c:65-88 | a frame leaves the free list only to become a page or a table that the directory names |
| `AddressSpace.Memory.SetupKvm` | kernel/vm.c:567-592 | a new empty space that the processor reaches through four levels, with the kernel's half; the others are untouched |
| `AddressSpace.Memory.FreeVm` | kernel/vm.c:308-323 | returns the visited pages, the tables and the directory, and leaves every other space alone; every other space keeps its four levels |
| `AddressSpace.Memory.Discard` | kernel/vm.c:410-412 | taking a failed copy apart returns every frame but the two upper tables and the pages that freevm does not reach, and leaves every space alone |
| `AddressSpace.Memory.CopyUvm` | kernel/vm.c:378-413 | succeeds if and only if the free list covers upper tables, directory, pages and page tables, and then takes exactly those; on failure every space and all memory in use is as before, and exactly the two upper tables and the pages copied from 0x1da00000 on are lost: their number is given, and is zero if and only if memory ran out before the first of them; the processor reaches every page of the copy, and every space keeps its four levels |
| `AddressSpace.CopyIsDisjoint` | kernel/vm.c:390-408 | a successful copy has equal flags and contents, in frames that no other space maps, and the original is unchanged |
| `Qsort.Med3IsMedian` | lib/qsort.c:82-94 | of the other two elements one is not above the chosen one and one not below |
| `Qsort.Swap` | lib/qsort.c:56-66 | two elements change places |
| `Qsort.VecSwap` | lib/qsort.c:68-70 | two disjoint ranges change places, element by element |
| `Qsort.InsertionSort` | lib/qsort.c:121-126 | a sorted permutation of the range |
| `Qsort.Split` | lib/qsort.c:127-167 | the range is rearranged into equal, smaller, larger and equal parts around the pivot |
| `Qsort.Gather` | lib/qsort.c:175-187 | the two vecswaps move the elements equal to the pivot from both ends to the middle |
| `Qsort.Partition` | lib/qsort.c:168-187 | with a swap, the parts are gathered as smaller, equal, larger and the outer two together are shorter than the range |
| `Qsort.LocalQsort` | lib/qsort.c:107-212 | for every total preorder a sorted permutation of the range and nothing else changed; calls nest less than depth deep for fewer than 2^depth elements, which the termination measure enforces |
| `Qsort.Levels` | lib/qsort.c:188-211 | the levels of calls that suffice for n elements: one more than the logarithm of n to base 2, rounded down |
| `Qsort.Sort` | lib/qsort.c:253-256 | the array is a sorted permutation of itself |
| `Calendar.YearStartClosedForm` | kernel/dev/lapic.c:233-242 | the days that the loop over years counts are those of the formula in section 4.16 of POSIX.1-2017 Base Definitions |
| `Calendar.MonthStartClosedForm` | kernel/dev/lapic.c:213-232 | the days ahead of a month by a formula without a table of month lengths |
| `Calendar.DateUnique` | kernel/dev/lapic.c:224-242 | two valid dates with the same day number are equal |
| `Calendar.FindYear` | userspace/libc/time.c:46-60 | the year in which the day lies and the day within it |
| `Calendar.FindMonth` | userspace/libc/time.c:71-113 | the month and the day of the month, for leap and other years |
| `Calendar.LocalTime` | userspace/libc/time.c:31-128 | for every 64-bit time a valid time of day, and a valid date with the right day number while the day number fits an int; otherwise what the wrapped number gives |
| `Calendar.DayOfYear` | kernel/dev/lapic.c:224-232 | the day within the year, in unsigned arithmetic |
| `Calendar.DaysSinceEpoch` | kernel/dev/lapic.c:233-242 | the day number modulo 2^32 |
| `Calendar.ToSeconds` | kernel/dev/lapic.c:300-303 | the seconds of day number and time of day |
| `Calendar.RoundTrip` | userspace/libc/time.c:31-128 | localtime and then rtc_now's arithmetic give the time back if and only if its day number is below 2^31 |
| `Calendar.RoundTripDate` | kernel/dev/lapic.c:300-303 | seconds of a valid date and then localtime give the date back |
| `Grep.MatchHere` | userspace/programs/grep.c:88-104 | true if and only if a prefix of the text is in the language of the pattern and, with a final $, is all of it |
| `Grep.MatchStar` | userspace/programs/grep.c:107-116 | true if and only if some number of accepted characters is followed by a match of the rest |
| `Grep.Match` | userspace/programs/grep.c:73-85 | sound and complete: true if and only if some substring, the prefix after a leading ^, matches |
| `Grep.DotIsAny` | userspace/programs/grep.c:100 | a dot stands for every character, and any other character for itself alone |
| `Grep.WrittenParse` | userspace/programs/grep.c:88-104 | every string, read as a pattern and written out, is itself |
| `Grep.ParseWritten` | userspace/programs/grep.c:88-104 | a pattern written out is read as itself if and only if no star follows a single character and no single character is a final $ |

## Left out

- Hardware: port I/O, disk and timer registers, `swtch`, interrupts. A disk transfer is an atomic read or write of one block.
- Signal delivery beyond its effect on process states; `killed` is an input wherever code tests it.
- Inode locks, inode reference counts, directories, path names, device inodes and symbolic links.
- FileSystem.Disk.InodeUpdate: stores size and addresses; times, mode, owner, link count and device numbers, which the source copies as well, are not part of the model.
- FileSystem.Disk.Bmap: stops at the first failed allocation; the source goes on with the error code as an address and panics on it. Of the state there it says only that logged blocks alone have changed.
- FileSystem.Disk.BmapIndirect: the same.
- FileSystem.Disk.BmapDouble: the same.
- FileSystem.Disk.InodeWrite: says of the blocks after running out only that logged ones alone have changed, since the source panics there.
- Log.TransactionLog.WriteLog: takes a buffer for each log block for granted; BlockCache.WriteLog says when there is one.
- Log.TransactionLog.Commit: the same.
- Journal.LogAll: hands each logged block to the log once, with its final contents; the source calls log_write at every change and panics at a full log even for a block that is there already, which NeverPanicsIff covers.
- Journal.Transact: the operations of a group all begin first and then run one after the other; begin_op between log writes, and log writes of several operations in turn, are in LogProtocol.
- Journal.RunDurably: for a write of more than one chunk in one operation, or a bitmap as large as the log, the number of logged blocks is not bounded in advance.
- Reboot.Mount: the superblock is given, and inodes are read all at once rather than when they are first used.
- File.OpenFile.VfsWrite: ends the model at a full disk, as inode_write does; pipes and devices behind the same call are not part of it.
- The pairing of begin_op and end_op in system calls, which the log model takes as what callers owe.
- BlockCache.BlockCache.BlockRead: requires that nobody holds the block's lock; waiting for it is the subject of SleepLock.
- Files made by mkfs: its root directory size is rounded, so freedom from holes is stated for what the kernel writes.
- realloc, krealloc and calloc.
- Allocator.Heap.Malloc: requires that the units asked for come to less than 2^64 bytes; beyond that the request to sbrk wraps around.
- AddressSpace.Memory.SetupKvm: requires three free frames, since the source writes through what it gets unchecked.
- The kernel's own tables below its upper one, which setupkvm only links.
- AddressSpace.Memory.FreeVm: requires that nothing else maps the frames it frees, as DeallocUvm does.
- AddressSpace.Memory.CopyUvm: requires three free frames and a parent mapped below its size; setupkvm does not check its frames, and copyuvm panics on an absent page.
- AddressSpace.Memory.AllocUvm: requires empty entries in the range and addresses below 510 * 2 MiB; mappages panics on a mapped page, and the code does not check the address limit.
- AddressSpace.Memory.MapPages: requires at least one page; with size 0 the source steps past its end.
- AddressSpace.Memory.DeallocUvm: requires that nothing else maps the frames it frees; the code has no reference counts.
- ProcTable.Table.AllocProc: does not model the wrap-around of the 32-bit process id.
- ProcTable.Table.Sleep: is the part under ptable.lock; the hand-over of the other lock is in SleepLock.
- Pipe.RunKeepsInv: does not model the 32-bit loop index of pipewrite, nor the opening of FIFOs.
- Pipe.SharedPipe.constructor: does not model failed allocations.
- Pipe.SharedPipe.PipeWrite: does not send SIGPIPE.
- Pipe.SharedPipe.PipeClose: does not free the memory of the pipe at the last close.
- Ring.Ring.constructor: makes the size that pipes use and does not model failed allocations; ring_buffer_push and ring_buffer_is_full are not used by pipes.
- Kalloc.KernelHeap.PageFree: does not model the return for device addresses and the panics on addresses outside memory.
- Descriptor counts: exit closes files without clearing the table, so they are not an invariant.
- Qsort.LocalQsort: sorts elements, not bytes of a given element size, and takes comparators that are total preorders.
- Calendar.LocalTime: does not fill the week day and the day of the year, which the source takes from stale values.
- Grep.Match: takes the pattern and one line; reading lines is not part of it.
- kernel/ticketlock.c, kernel/exec.c, kernel/sysfile.c, drivers, tools and the other user programs, which would only add easy members or hardware.
