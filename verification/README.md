# xv6 kernel and library proofs

A Dafny model of the hard parts of the xv6 operating system kept under
`ASO/ASO2018-2019/xv6` (a teaching kernel with a double-indirect block tree,
`dup2` and lazy `sbrk`), and proofs about it. `dafny verify dfyconfig.toml`
checks everything.

## What is modelled

- **Write-ahead log** (`log.c`, `bio.c`). `RedoLog` is the log on disk values:
  commit and recovery as sequences of single-block writes, with a crash between
  any two. `BufferCache` and `Log` are the code itself, over a cache with its
  linked ring; `Log` shows that the code makes exactly the writes of `RedoLog`.
  `LogProtocol` and `LogRuns` are the concurrent protocol as a transition system
  that refines a store with atomic transactions; in `LogProgress` a commit or a
  recovery that was begun can always be finished. `LogPanic` has two reachable
  runs in which `log_write` panics although every operation keeps to its
  reservation, which `LogBudget` is about, and `CommitPanic` one in which `commit`
  finds no buffer.
- **Files** (`fs.c`, `file.c`, `mkfs.c`). `FileTree` describes the three-level
  block tree by places that hold pointers and a map from each block in use to its
  one place. `FileContent` reads it as bytes. `Filling` says which places an
  allocation fills, with which blocks, and what it logs; `LogRoom` whether the log
  header has room for that. `FileSystem` is `balloc`, `bmap`, `readi` and `writei`;
  `Truncate` is `itrunc`; `FileWrite` cuts a write into transactions and computes
  their size; `TightDisk` is a disk on which one is larger than its reservation.
  `Mkfs` builds the first image, `Mount` starts a file system on it, and `Holes` is
  about the hole it can have. `CrashSafe` puts the files on the log: a kernel
  restarted after a crash in `filewrite` or `itrunc` finds whole transactions.
  `DiskFormat` spells out the bytes of each structure on disk.
- **Storage allocator** (`umalloc.c`): `Umalloc`, and in `UmallocLaws` that the
  free list is determined by the live blocks.
- **Sleep and wakeup** (`proc.c`, `sleeplock.c`): `SleepWakeup` for any data and
  any code that keeps one rule; `Waiters` and `PipeWaiters` for sleep locks,
  `begin_op` and pipes. `Holders` counts who is between taking and giving back, and
  `LogSections` ties the code of `Waiters` to `LogProtocol`.
- **Processes** (`proc.c`): `Processes` for every run, `ProcTable` for the loops.
- **Page tables and frames** (`vm.c`, `kalloc.c`): `PageTables`, `Vm`.
- **Pipes and descriptors** (`pipe.c`, `file.c`, `sysfile.c`): `Pipe`,
  `FileTable`, `FileDescriptors`.
- **Matcher** (`grep.c`): `Matcher`. **Shell parser** (`sh.c`): `Shell` is the
  recursive descent on positions and `ShellParser` the cursor; `ShellGrammar` is the
  language with its meaning, apart from any parser, and `ShellRoundTrip` prints.

The disk is a sequence of blocks with atomic single-block writes, spinlocks are
atomic, and what `kalloc` or `sbrk` can give is part of the state. Methods
return a flag where the source panics.

## What the code does that its comments do not say

- `log.c:218` tests for a full header before it looks for the block in it, and
  against `log.size - 1`, which `mkfs.c:25` makes `LOGSIZE - 1`
  (`LogBudget.PanicExactly`, `LogPanic`).
- So `writei` over more blocks than the header has entries panics, whatever is free
  (`FileWrite.LongWritePanics`), and `itrunc` does when the bitmap blocks of the
  file fill the header (`Truncate.Itrunc`). A chunk of `filewrite` never does, with
  the log of `mkfs`, if others log nothing meanwhile (`FileWrite.ChunkFits`).
- `fs.c:217-220` calls the inode cache write-through, but `writei` updates the
  inode on disk only when the file grows, and `readi`, which fills holes by
  allocating, never does. It falls behind exactly when a slot of `addrs` was empty
  below the size (`FileContent.StaleExactly`, `FileSystem.FileSys.Readi`). The
  rounding at `mkfs.c:158-163` makes such a hole in the root directory iff its
  size was a multiple of `BSIZE` (`Mkfs.Image.Finish`).
- `fileread` calls `readi` outside of a transaction, so reading that hole panics
  in `log_write` (`Holes.ReadHole`).
- `file.c:127-132` budgets one indirect block and two bitmap blocks per
  transaction, and `param.h:10` promises at most ten blocks. How many a chunk logs
  is decided by the state before it (`FileWrite.LogSizeParts`); with the lowest
  free blocks in two bitmap blocks it is at most ten, but there is a consistent
  disk of the layout of `mkfs` on which it is eleven (`TightDisk.Overrun`).
- `commit` panics in `bget` when logged blocks and readers together use all
  buffers and its log area is not cached (`Log.Logger.Commit`, `Log.BuffersLeft`):
  three operations that log 29 blocks and one reader are enough
  (`CommitPanic.CommitCanPanic`).
- `malloc` of more than 0x7FFFFFF0 bytes gets a block without memory, and may lower
  the break, or, where the rounding wraps, gets one without room
  (`Umalloc.Heap.Malloc`).
- `allocproc` does not clear `killed`, and `kill` also matches free slots: pid 0
  finds one (`Processes.CleanExactly`, `Processes.BornKilled`).
- `pipewrite` returns without a wakeup when it has filled the pipe and the writer
  was killed or the read end closed. Exactly such a write to an empty pipe can leave
  a reader asleep (`PipeWaiters.CalmExactly`, `PipeWaiters.SilentWriteLosesWakeup`).
- `mappages` reports success at an entry that is present, so a page fault on such
  a page, like the guard page below the stack, loses the frame that `trap.c:90-97`
  took for it, every time (`Vm.Space.PageFault`).

## Model

| member | source | states |
|---|---|---|
| RedoLog.CrashAtomicity | ASO/ASO2018-2019/xv6/log.c:69-122 | For every transaction and a crash after any of the 2n+2 disk writes of commit, followed by any number of recoveries that themselves crash anywhere, recovery leaves an empty log and the home blocks either all old (crash before the header write) or all new (after it). |
| RedoLog.CommitCrash | ASO/ASO2018-2019/xv6/log.c:192-202 | A crash after k writes of commit and one full recovery: the old home blocks iff k is at most n, else the transaction applied. |
| RedoLog.RecoveryCrash | ASO/ASO2018-2019/xv6/log.c:115-122 | A crash after any write of recovery leaves a valid log from which recovery reaches the same home blocks. |
| RedoLog.CrashingRecoveriesConverge | ASO/ASO2018-2019/xv6/log.c:115-122 | Any sequence of recoveries cut short anywhere, then a full one, ends where one uninterrupted recovery does. |
| RedoLog.ApplyAt | ASO/ASO2018-2019/xv6/log.c:69-82 | Applying a transaction puts the i-th content in the i-th block and changes no other block. |
| RedoLog.RecoveredIsApply | ASO/ASO2018-2019/xv6/log.c:115-122 | Recovery of a committed log is the transaction applied to the home blocks. |
| RedoLog.CommitTraceStates | ASO/ASO2018-2019/xv6/log.c:192-202 | The disks between two writes of commit are exactly the states a crash can leave. |
| RedoLog.RecoveryTraceStates | ASO/ASO2018-2019/xv6/log.c:115-122 | The same for recovery. |
| Ring.Unlink | ASO/ASO2018-2019/xv6/bio.c:132-133 | The two stores that unlink a buffer leave a doubly linked cycle of the others, in order. |
| Ring.PushFront | ASO/ASO2018-2019/xv6/bio.c:134-137 | The four stores that relink it put it first in the cycle. |
| BufferCache.UniqueBuffer | ASO/ASO2018-2019/xv6/bio.c:61-76 | At most one buffer holds a given block of a device other than 0. |
| BufferCache.Cache.constructor | ASO/ASO2018-2019/xv6/bio.c:38-56 | binit links all buffers into one ring, all free. |
| BufferCache.Cache.Lookup | ASO/ASO2018-2019/xv6/bio.c:68-76 | The forward scan finds a buffer of the block iff there is one. |
| BufferCache.Cache.Victim | ASO/ASO2018-2019/xv6/bio.c:78-91 | The backward scan finds the free clean buffer whose count fell to 0 longest ago, or none if none is free. |
| BufferCache.Cache.Bget | ASO/ASO2018-2019/xv6/bio.c:61-93 | Returns the buffer of the block, or recycles such a victim; panics iff the block is not cached and every buffer is in use or dirty; no buffer in use or dirty changes identity. |
| BufferCache.Cache.Bread | ASO/ASO2018-2019/xv6/bio.c:95-106 | The one buffer of the block, locked and valid, with the cached or the disk contents; waits iff somebody holds its lock; panics iff no buffer can be had or the block is not on the disk; no other buffer changes. |
| BufferCache.Cache.Bwrite | ASO/ASO2018-2019/xv6/bio.c:108-116 | The disk block becomes the contents, the buffer clean; one disk write. |
| BufferCache.Cache.Brelse | ASO/ASO2018-2019/xv6/bio.c:118-141 | Gives the buffer up, whatever its contents; at count 0 it moves to the front of the ring, which stays a permutation ordered by release. |
| BufferCache.Cache.MoveToFront | ASO/ASO2018-2019/xv6/bio.c:131-138 | The relinking keeps the ring and its recency order. |
| Log.Logger.WriteLogBlocks | ASO/ASO2018-2019/xv6/log.c:176-190 | write_log copies the current cached contents of every logged block into the log area, through the cache, in order, while others may use other buffers; panics iff no buffer can be recycled and a log block is not cached. |
| Log.Logger.InstallTrans | ASO/ASO2018-2019/xv6/log.c:68-82 | install_trans copies each log block home; nothing stays dirty; buffers of others stay theirs. |
| Log.Logger.WriteHead | ASO/ASO2018-2019/xv6/log.c:98-113 | Writes the header with the listed blocks, and no other block; panics iff it finds no buffer. |
| Log.Logger.ReadHead | ASO/ASO2018-2019/xv6/log.c:84-96 | The in-memory header is the one on disk. |
| Log.Logger.Commit | ASO/ASO2018-2019/xv6/log.c:192-202 | From a state in which the dirty buffers are exactly the logged blocks, commit is, disk write by disk write, the commit of the redo log with the cached contents; afterwards nothing is logged or dirty; it panics iff it finds neither a buffer to recycle nor its whole log area in the cache. |
| Log.BuffersLeft | ASO/ASO2018-2019/xv6/bio.c:78-92 | With n blocks logged and r other buffers in use there is one to recycle iff n + r is less than NBUF. |
| CommitPanic.CommitCanPanic | ASO/ASO2018-2019/xv6/log.c:143-190 | On every disk with the log of mkfs: after recovery three operations log 29 blocks within their reservations, a reader holds the thirtieth buffer, the operations end, and the last end_op panics in bget. |
| Log.PinAdded | ASO/ASO2018-2019/xv6/log.c:223-231 | log_write keeps: the dirty buffers are exactly the listed blocks, each once. |
| Log.Logger.Read | ASO/ASO2018-2019/xv6/bio.c:95-106 | bread waits iff the block is held and panics iff it is neither cached nor a buffer can be recycled; it keeps the invariant, and of a logged block gives the pinned buffer with the latest contents. |
| Log.Logger.Release | ASO/ASO2018-2019/xv6/bio.c:118-141 | brelse keeps it. |
| Log.Logger.Recover | ASO/ASO2018-2019/xv6/log.c:115-122 | recover_from_log is, write by write, the recovery of the redo log; it establishes the invariant of the logger with every buffer free. |
| Log.Logger.BeginOp | ASO/ASO2018-2019/xv6/log.c:124-141 | Admits an operation iff no commit is under way and all reservations fit the log; keeps the invariant. |
| Log.Logger.EndOp | ASO/ASO2018-2019/xv6/log.c:143-174 | The last operation out commits, with the trace of commit; panics iff a commit is under way, or it is the last one and commit has no buffer; keeps the invariant. |
| Log.Logger.LogWrite | ASO/ASO2018-2019/xv6/log.c:204-233 | Panics iff the header is too full or no operation is outstanding; else the block is in the header once, new at the end, and its buffer is pinned; keeps the invariant. |
| LogProtocol.StepRefines | ASO/ASO2018-2019/xv6/log.c:124-233 | Every step of the concurrent protocol (buffer cache, operations of any size, commit, crash, recovery) keeps the invariant and is a step of an atomic transaction store: only the header write makes a transaction durable, and then all of it. |
| LogBudget.NewBlockFits | ASO/ASO2018-2019/xv6/log.c:124-141 | While every operation stays in its reservation, a block new to the header finds a slot. |
| LogBudget.RunBudgeted | ASO/ASO2018-2019/xv6/log.c:124-141 | In every run in which no operation logs more than MAXOPBLOCKS blocks, the header and the unused reservations fit the log. |
| LogRuns.RunInv | ASO/ASO2018-2019/xv6/log.c:124-233 | The invariant holds in every state of every run. |
| LogRuns.QuietIsDurable | ASO/ASO2018-2019/xv6/log.c:143-174 | In every run from boot, whenever no operation is outstanding and no commit is under way, what the operations see is durable: the last end_op never goes without a commit. |
| LogRuns.RunSettled | ASO/ASO2018-2019/xv6/log.c:143-174 | At such a moment the log lists no block. |
| LogRuns.DurableIsLastCommit | ASO/ASO2018-2019/xv6/log.c:176-202 | In every run with crashes anywhere, what recovery would restore is what the last header write committed. |
| LogRuns.RecoveryRestoresLastCommit | ASO/ASO2018-2019/xv6/log.c:115-122 | After recovery the file system sees that state. |
| LogRuns.CommitIsQuiescent | ASO/ASO2018-2019/xv6/log.c:143-174 | At the header write no operation is active and none can begin, write or end. |
| LogRuns.HomeWritesAreInstalls | ASO/ASO2018-2019/xv6/log.c:68-82 | A home block changes on disk only by installing a block the committed header lists. |
| LogRuns.LoggedIsPinned | ASO/ASO2018-2019/xv6/bio.c:78-91 | While a block is logged and not installed it is cached and dirty, cannot be recycled, and has the contents the operations see. |
| LogRuns.PinnedUntilInstalled | ASO/ASO2018-2019/xv6/log.c:204-233 | In every run, from log_write of a block until a crash or its installation, it is so in every state. |
| LogRuns.LatestIsWritten | ASO/ASO2018-2019/xv6/log.c:182-189 | write_log copies, and install_trans writes home, those latest contents. |
| LogRuns.RunBuffers | ASO/ASO2018-2019/xv6/bio.c:78-92 | No run caches more blocks than there are buffers. |
| LogRuns.UsedStays | ASO/ASO2018-2019/xv6/bio.c:61-141 | In every run a buffer keeps its block as long as it was gotten more often than released, and its count is the difference. |
| LogProgress.CommitCompletes | ASO/ASO2018-2019/xv6/log.c:176-202 | From every state after the last end_op, with no buffer locked and one buffer left, the commit can be brought to its end, whatever is cached; then the log is empty and everything the operations saw is durable. |
| LogProgress.RecoveryCompletes | ASO/ASO2018-2019/xv6/log.c:84-122 | After a crash in any state recovery can be brought to its end, and the operations then see what was durable at the crash. |
| LogSections.SectionsAgree | ASO/ASO2018-2019/xv6/log.c:124-233 | Each step of the protocol changes lh.n, outstanding and committing as the critical section of begin_op, end_op or log_write does, and an operation may begin exactly when begin_op does not sleep. |
| LogBudget.PanicExactly | ASO/ASO2018-2019/xv6/log.c:213-221 | In such a run log_write panics iff the header has log.size-1 blocks, or is full and the block is already in it. |
| LogPanic.NewBlockCanPanic | ASO/ASO2018-2019/xv6/log.c:218-219 | With the log size mkfs writes (LOGSIZE), a run within its reservations and within NBUF buffers panics on its 30th block. |
| LogPanic.AbsorbedWriteCanPanic | ASO/ASO2018-2019/xv6/log.c:218-227 | With one block more, such a run panics on a block that would be absorbed. |
| Bits.PutBit | ASO/ASO2018-2019/xv6/fs.c:66-68 | Setting or clearing bit i of a bitmap block changes that bit only. |
| FileTree.PtrInjective | ASO/ASO2018-2019/xv6/fs.c:373-426 | No block is in two places of two block trees. |
| FileTree.PutRootOwned | ASO/ASO2018-2019/xv6/fs.c:379-389 | Storing a fresh zero block in an empty slot of addrs adds one place and moves no other pointer. |
| FileTree.PutChildOwned | ASO/ASO2018-2019/xv6/fs.c:390-420 | The same for an empty word of an index block. |
| FileTree.ExtendsStable | ASO/ASO2018-2019/xv6/fs.c:371-426 | bmap is stable: a pointer that was there stays, and other inodes keep theirs. |
| FileTree.LeafInjective | ASO/ASO2018-2019/xv6/fs.c:373-426 | Different blocks of a file are in different places, at all three levels. |
| FileTree.LeafPtr | ASO/ASO2018-2019/xv6/fs.c:373-426 | Block bn of a file is addrs[bn], or word bn-11 of the block addrs[11], or word (bn-139)%128 of the block in word (bn-139)/128 of the block addrs[12]. |
| FileTree.PathAllocated | ASO/ASO2018-2019/xv6/fs.c:386-422 | An allocated block has every index block on its path allocated. |
| FileContent.ExtendsByteAt | ASO/ASO2018-2019/xv6/fs.c:371-426 | Allocation changes no byte of any file. |
| FileContent.ByteAtIs | ASO/ASO2018-2019/xv6/fs.c:500-526 | Byte x of a file is byte x%512 of that block for bn = x/512. |
| FileContent.PatchByteAt | ASO/ASO2018-2019/xv6/fs.c:547-551 | Writing into a data block changes those bytes of that file and no other byte of any file. |
| FileContent.PutInode | ASO/ASO2018-2019/xv6/fs.c:221-237 | iupdate stores the inode in its slot and leaves the other seven. |
| FileContent.StaleExactly | ASO/ASO2018-2019/xv6/fs.c:546-557 | Without growth, the inode on disk is up to date after the write iff nothing was written or every slot of addrs on the way was in use. |
| FileContent.DenseRoots | ASO/ASO2018-2019/xv6/fs.c:546-557 | In a file without holes every such slot below the size is in use. |
| Filling.FilledTrans | ASO/ASO2018-2019/xv6/fs.c:371-426 | Two allocations in a row are one: the places filled are disjoint, the blocks taken are together the lowest free ones, and what was logged is what the two together have to log. |
| Filling.GrownCount | ASO/ASO2018-2019/xv6/fs.c:55-78 | As many blocks are taken as places are filled. |
| LogRoom.FilledLogged | ASO/ASO2018-2019/xv6/log.c:204-233 | What an allocation logged, told from the state before: the k lowest free blocks with their bitmap blocks for k places to fill, and the blocks already in the other places it touches. |
| LogRoom.WroteThen | ASO/ASO2018-2019/xv6/log.c:204-233 | What a second allocation logs after a first one is what the two together log from the state before both. |
| LogRoom.MapThen | ASO/ASO2018-2019/xv6/fs.c:509-523 | The next block of a range can be had after the ones before it iff, in the state before all of them, the range up to it can. |
| FileSystem.FileSys.FindFree | ASO/ASO2018-2019/xv6/fs.c:62-76 | The bit loops find the first free block. |
| FileSystem.FileSys.Balloc | ASO/ASO2018-2019/xv6/fs.c:55-78 | Takes the lowest free block, zeroed and marked, and logs it and its bitmap block; panics iff no block is free, no operation is outstanding, or the log header is full before its second log_write; bitmap and trees stay consistent; what changed was logged. |
| FileSystem.FileSys.Bfree | ASO/ASO2018-2019/xv6/fs.c:80-96 | Clears the bit of a block in use and logs the bitmap block; panics iff the block was free, no operation is outstanding or the log header is full. |
| FileSystem.FileSys.Bmap | ASO/ASO2018-2019/xv6/fs.c:371-426 | The block of bn, found by addrs and the index words it must be found by at each of the three levels: exactly the empty places on its path are filled, with the lowest free blocks, zeroed; nothing owned moves; exactly the new blocks, their parents and their bitmap blocks are logged; panics iff out of range, or the block is absent and the places to fill are more than the free blocks, no operation is outstanding, or the log header is full before the last log_write. |
| FileSystem.FileSys.WriteBlocks | ASO/ASO2018-2019/xv6/fs.c:546-552 | The writei loop has stored exactly the bytes of src at the offset, filled exactly the empty places on the paths to them, and logged exactly those blocks, their parents, their bitmap blocks and the data blocks; it panics iff, in the state before, there are too few free blocks, no operation is outstanding, or the blocks to log before the last one fill the log header. |
| FileSystem.FileSys.Iupdate | ASO/ASO2018-2019/xv6/fs.c:217-237 | The inode block holds the inode; nothing else changes; panics iff no operation is outstanding or the log header is full. |
| FileSystem.FileSys.BeginOp | ASO/ASO2018-2019/xv6/log.c:124-141 | Admits an operation iff the blocks in the header and all reservations fit the log. |
| FileSystem.FileSys.EndOp | ASO/ASO2018-2019/xv6/log.c:143-174 | The last operation out empties the header; the header is empty whenever no operation is outstanding. |
| FileSystem.FileSys.Writei | ASO/ASO2018-2019/xv6/fs.c:527-559 | Refused, without effect, iff the offset is beyond the size or the end beyond MAXFILE*BSIZE (the sum may wrap); else panics iff, in the state before, no operation is outstanding, the empty places on the paths are more than the free blocks, or the blocks to log before the last one (the inode block if the file grows) fill the log header; else the content is spliced, other files, sizes and dinodes are unchanged, dense files stay dense, exactly the stated blocks are taken and logged; the exact case in which the inode on disk falls behind. |
| FileSystem.FileSys.Readi | ASO/ASO2018-2019/xv6/fs.c:497-525 | Returns the slice of the content; no file changes; panics outside of a transaction iff a block of the range is absent, inside of one iff there is such a block and the places to fill are more than the free blocks or the log header is full before the last log_write; the disk changes iff a block was a hole, and the inode on disk then falls behind iff a slot of addrs was empty. |
| FileWrite.WriteThenRead | ASO/ASO2018-2019/xv6/fs.c:497-559 | readi returns what writei wrote; the two panic iff the write does. |
| Truncate.UnderSplit | ASO/ASO2018-2019/xv6/fs.c:437-480 | What hangs below a place is the place and what hangs below each word of its block. |
| Truncate.FreeIndirect | ASO/ASO2018-2019/xv6/fs.c:447-457 | An index block and everything it points to are freed once each, all of them in use before; panics iff there is one, and no operation is outstanding or the bitmap blocks of what it points to fill the log header. |
| Truncate.FreeDouble | ASO/ASO2018-2019/xv6/fs.c:458-480 | The same for the double-indirect block. |
| Truncate.Itrunc | ASO/ASO2018-2019/xv6/fs.c:428-483 | Frees exactly the blocks of the inode, once each; panics iff no operation is outstanding or the log with the bitmap blocks of the file fills the header; else the size is 0, the inode is on disk, other files, dinodes and blocks are untouched, and exactly those bitmap blocks and the inode block are logged. |
| Truncate.TruncFits | ASO/ASO2018-2019/xv6/log.c:218-219 | It does not panic in a transaction whose log has room for all bitmap blocks of the disk. |
| FileWrite.TransactionSize | ASO/ASO2018-2019/xv6/file.c:127-145 | One chunk of filewrite, at any offset, logs at most 4 data, 3 index and 1 inode block beside the bitmap blocks of the lowest free blocks it takes, which are at most 7, hence at most MAXOPBLOCKS when those lie in two bitmap blocks and at most 15 ever. |
| FileWrite.ChunkFits | ASO/ASO2018-2019/xv6/log.c:124-141 | A chunk that begin_op lets in, with at least 25 entries in the log header and nobody else logging, finds room for all its log_writes: it can be written iff there are enough free blocks. |
| FileWrite.LongWritePanics | ASO/ASO2018-2019/xv6/log.c:218-219 | A write over more blocks than the log header has entries panics, whatever is free. |
| FileWrite.LogSizeExact | ASO/ASO2018-2019/xv6/file.c:140-145 | The number of blocks writei gives to log_write is a function of the state before it, and the log grows by exactly those blocks; so it exceeds MAXOPBLOCKS iff that number does. |
| FileWrite.LogSizeParts | ASO/ASO2018-2019/xv6/file.c:127-132 | That number is the data blocks visited, the index blocks that are new or gain a word, the bitmap blocks of the k lowest free blocks with k the empty places on the paths, and the inode block iff the file grows. |
| FileWrite.OverrunExactly | ASO/ASO2018-2019/xv6/param.h:10 | writei gives more than MAXOPBLOCKS blocks to log_write iff the sum of those four parts, in the state before, does. |
| FileWrite.WriteChunk | ASO/ASO2018-2019/xv6/file.c:140-145 | One turn of the loop, with other operations outstanding or not: it waits iff begin_op does; its effect, exactly when it panics, how many blocks it logs, that every block it changed is one of those, and that a sound file system (consistent, no holes) stays sound. |
| TightDisk.Overrun | ASO/ASO2018-2019/xv6/file.c:133-145 | A kernel started on the tight disk, and a write of one chunk at the end of the file: no panic, everything written, the file system sound, and the one transaction logs 11 blocks. |
| TightDisk.Eleven | ASO/ASO2018-2019/xv6/param.h:10 | In that state the write needs three data blocks, three index blocks, four bitmap blocks and the inode block. |
| TightDisk.FourMaps | ASO/ASO2018-2019/xv6/fs.c:62-76 | The four lowest free blocks of that disk are in four bitmap blocks. |
| TightDisk.TightConsistent | ASO/ASO2018-2019/xv6/mkfs.c:94-168 | The disk has the superblock of mkfs, a root directory with its block, every dinode where it belongs, one place for every block in use and a bitmap that says so. |
| TightDisk.TightSound | ASO/ASO2018-2019/xv6/fs.c:371-426 | No file of that disk has a hole. |
| TightDisk.TightOwned | ASO/ASO2018-2019/xv6/fs.c:371-426 | On the tight disk every block in use has exactly one place and every pointer is to a block in use. |
| TightDisk.TightBitmap | ASO/ASO2018-2019/xv6/fs.c:44-51 | Its bitmap marks exactly the metadata and the blocks in use. |
| TightDisk.TightPtr | ASO/ASO2018-2019/xv6/fs.c:371-426 | Every place of its block trees holds the address planned for it, or nothing. |
| FileWrite.Filewrite | ASO/ASO2018-2019/xv6/file.c:126-154 | Cut into chunks, the write splices the whole source, or the largest prefix of chunks that fits MAXFILE*BSIZE; it waits only for other operations; with at least 25 log header entries it panics only if, and returns only if not, the empty places on the paths to those bytes are more than the free blocks; it returns n iff everything was written; every transaction takes the next chunk, logs exactly the number its state before says and keeps a sound file system sound. |
| Mkfs.Image.constructor | ASO/ASO2018-2019/xv6/mkfs.c:94-115 | The empty image, with its superblock, satisfies the invariant. |
| Mkfs.Image.Ialloc | ASO/ASO2018-2019/xv6/mkfs.c:223-235 | The next dinode is in use, on disk, and no file changes. |
| Mkfs.Image.Iappend | ASO/ASO2018-2019/xv6/mkfs.c:255-297 | Appends the bytes to the file through direct and indirect blocks taken from the counter, changes no other file, and keeps: every block in one place, every dinode on disk, and allocated exactly the blocks below the size of each file. |
| Mkfs.Image.Balloc | ASO/ASO2018-2019/xv6/mkfs.c:237-251 | The bitmap block has exactly the first `used` bits set. |
| Mkfs.Image.Finish | ASO/ASO2018-2019/xv6/mkfs.c:158-165 | If fewer than 4096 blocks are used the disk is a consistent file system: every block in use is marked and in one place, every dinode on disk is the inode. The rounded root size leaves a hole iff the size was a multiple of BSIZE. |
| Mkfs.LayoutOk | ASO/ASO2018-2019/xv6/mkfs.c:94-103 | The layout main computes puts the data after nmeta blocks, and its log header takes LOGSIZE - 1 blocks. |
| Mount.SuperBlock | ASO/ASO2018-2019/xv6/mkfs.c:97-115 | readsb gives back the layout that mkfs stored. |
| Mount.Start | ASO/ASO2018-2019/xv6/fs.c:286-313 | A kernel started on a consistent disk has the inodes of the disk, and the invariant holds. |
| Mount.SplicedSound | ASO/ASO2018-2019/xv6/fs.c:527-559 | On a consistent disk without holes writei leaves one: the inode on disk never falls behind. |
| DiskFormat.WordBytes | ASO/ASO2018-2019/xv6/fs.c:386-391 | A word is four bytes, little-endian; storing one changes no other byte. |
| DiskFormat.UsedIs | ASO/ASO2018-2019/xv6/fs.c:56-77 | Block b is in use iff bit b%8 of byte b%4096/8 of bitmap block b/4096 is set. |
| DiskFormat.PutBitByteIs | ASO/ASO2018-2019/xv6/fs.c:67-91 | Marking or freeing a block changes that byte, by that power of two, and no other. |
| DiskFormat.FlushedIs | ASO/ASO2018-2019/xv6/fs.h:28-42 | The inode on disk agrees iff type, links, size and the thirteen addrs stand in its 64 bytes of block inodestart + i/8. |
| DiskFormat.SuperIs | ASO/ASO2018-2019/xv6/fs.h:14-22 | The seven words of the superblock, in order. |
| DiskFormat.HeaderIs | ASO/ASO2018-2019/xv6/log.c:84-113 | The log header is n and then n block numbers, for writing and for reading. |
| CrashSafe.HeaderAgrees | ASO/ASO2018-2019/xv6/log.c:213-233 | The set of logged blocks that FileSys keeps stands for the list of the log header: log_write and begin_op decide the same on both, and absorb the same. |
| CrashSafe.TransactionCrash | ASO/ASO2018-2019/xv6/log.c:115-202 | A transaction committed on a disk that shows a sound file system, a crash at any disk write of commit, any number of crashes in recovery, and a full recovery: the disk is a consistent file system, with exactly the files before or exactly the files after. |
| CrashSafe.RestartAfterWrite | ASO/ASO2018-2019/xv6/file.c:126-154 | A kernel restarted after a crash in any transaction of filewrite has the file with a whole number of chunks written and all other files as before. |
| CrashSafe.TruncateAndCrash | ASO/ASO2018-2019/xv6/fs.c:428-483 | itrunc in a transaction of its own keeps a sound file system sound, and a crash in its commit leaves the whole file or an empty one. |
| CrashSafe.RunsRestart | ASO/ASO2018-2019/xv6/log.c:53-66 | In every run of the log protocol, with any interleaving and any crashes: if every state committed was one a kernel can be started on, so is what every recovery leaves. |
| Holes.RootOf32 | ASO/ASO2018-2019/xv6/mkfs.c:117-168 | mkfs with 32 directory entries makes a root directory of one full block. |
| Holes.ReadHole | ASO/ASO2018-2019/xv6/file.c:105-110 | On every image whose root size is a multiple of BSIZE, reading there as fileread does panics although blocks are free. |
| Holes.ReadInTransaction | ASO/ASO2018-2019/xv6/fs.c:500-524 | Inside of a transaction with room in the log the read fills the hole and the inode on disk falls behind. |
| Holes.WriteHole | ASO/ASO2018-2019/xv6/fs.c:529-559 | So does a write into the hole. |
| Holes.RootOf32Fails | ASO/ASO2018-2019/xv6/mkfs.c:158-163 | On the image with 32 entries the read panics, and the write leaves the inode on disk behind. |
| Umalloc.Merge | ASO/ASO2018-2019/xv6/umalloc.c:33-42 | Joining two blocks that meet keeps the partition of the heap into blocks. |
| Umalloc.Split | ASO/ASO2018-2019/xv6/umalloc.c:79-81 | Cutting the upper end off a free block keeps it. |
| Umalloc.TakeNext | ASO/ASO2018-2019/xv6/umalloc.c:33-35 | A freed block that reaches the next free block takes its place in the ring. |
| Umalloc.JoinPrev | ASO/ASO2018-2019/xv6/umalloc.c:38-40 | A free block that reaches the freed block takes it in. |
| Umalloc.PutAfter | ASO/ASO2018-2019/xv6/umalloc.c:41-42 | Otherwise it is linked in, in address order. |
| Umalloc.SearchStep | ASO/ASO2018-2019/xv6/umalloc.c:30-32 | The two tests of the search single out one place in the ring. |
| Umalloc.Heap.Search | ASO/ASO2018-2019/xv6/umalloc.c:30-32 | The search ends at the greatest entry below the block, wherever in the ring it started. |
| Umalloc.Heap.Free | ASO/ASO2018-2019/xv6/umalloc.c:24-44 | The free list stays one address-ordered cycle of blocks that never meet and that with the live blocks partition the memory; only the freed block leaves the live ones. |
| Umalloc.Request | ASO/ASO2018-2019/xv6/umalloc.c:54-54 | The bytes asked of sbrk are the units in bytes below 2^31, else not positive as an int. |
| Umalloc.Heap.Sbrk | ASO/ASO2018-2019/xv6/sysproc.c:45-66 | Memory at the old break, unless it would reach KERNBASE; for a negative size the break goes down, stays when the unsigned sum wraps, and the call fails when nothing would be left. |
| Umalloc.Heap.Morecore | ASO/ASO2018-2019/xv6/umalloc.c:46-61 | Adds the new memory to the free list, or changes nothing iff the break would reach KERNBASE; asks for no positive size iff 8*nu reaches 2^31, and then lowers the break by what the request came out as. |
| Umalloc.Units | ASO/ASO2018-2019/xv6/umalloc.c:69-69 | The rounded size holds nbytes iff nbytes+7 does not wrap. |
| Umalloc.Heap.Carve | ASO/ASO2018-2019/xv6/umalloc.c:75-85 | The block found is taken off the list or its upper end is; the result has exactly the units asked for and overlaps no live block. |
| Umalloc.Heap.FindFit | ASO/ASO2018-2019/xv6/umalloc.c:72-90 | One turn round the ring finds a block that is large enough iff there is one. |
| Umalloc.Heap.Malloc | ASO/ASO2018-2019/xv6/umalloc.c:63-90 | Terminates with at most one call of sbrk, made iff no free block is large enough; returns 0 iff none is and sbrk refuses; the new block is disjoint from all live ones, which keep their bytes; the heap gains exactly what sbrk gave; the block lies in memory of the process iff nbytes is at most 0x7FFFFFF0 or so large that the rounding wraps. |
| UmallocLaws.Canonical | ASO/ASO2018-2019/xv6/umalloc.c:24-44 | Memory and live blocks determine the free list, its links and sizes. |
| UmallocLaws.MallocThenFree | ASO/ASO2018-2019/xv6/umalloc.c:24-90 | free undoes a malloc served from the list: the list, its sizes and links are as before. |
| SleepWakeup.StepInv | ASO/ASO2018-2019/xv6/proc.c:415-474 | Every step of sleep, wakeup, the lock holders and kill keeps: a sleeper waits for something that is not so, or the holder of the lock owes the wakeup. |
| SleepWakeup.WakeupReachesAll | ASO/ASO2018-2019/xv6/proc.c:455-474 | After wakeup nobody is in sleep on the channel, not even between release(lk) and SLEEPING. |
| SleepWakeup.SleepsUntil | ASO/ASO2018-2019/xv6/proc.c:415-497 | A process asleep on a channel stays so in every step but a wakeup of that channel or its own kill, and after one of these it can take the lock as soon as it is free. |
| SleepWakeup.MoveInv | ASO/ASO2018-2019/xv6/proc.c:415-474 | Code that pays its wakeups before giving up the lock takes only allowed steps, in every interleaving. |
| SleepWakeup.NoLostWakeup | ASO/ASO2018-2019/xv6/proc.c:415-474 | In every interleaving of such code: while the lock is free whoever is in sleep finds the condition to sleep still true; while it is held and false, the holder settles before it gives the lock up. |
| Waiters.LockDisciplined | ASO/ASO2018-2019/xv6/sleeplock.c:22-42 | acquiresleep, releasesleep and holdingsleep are such code. |
| Waiters.SleepLockWaiters | ASO/ASO2018-2019/xv6/sleeplock.c:22-42 | Whoever sleeps on a sleep lock finds it locked. |
| Waiters.LogDisciplined | ASO/ASO2018-2019/xv6/log.c:124-174 | begin_op, end_op and log_write are such code. |
| Waiters.LogWaiters | ASO/ASO2018-2019/xv6/log.c:124-174 | Whoever sleeps in begin_op finds a commit under way or no room. |
| Waiters.CommitClearsAlone | ASO/ASO2018-2019/xv6/log.c:199-199 | commit may clear lh.n without the lock: no waiter could go on. |
| Holders.SleepLockExcludes | ASO/ASO2018-2019/xv6/sleeplock.c:22-42 | In every interleaving at most one process is between the return of acquiresleep and the call of releasesleep, and then the lock is locked. |
| Holders.OutstandingCounts | ASO/ASO2018-2019/xv6/log.c:124-174 | In every interleaving outstanding is the number of processes that begin_op let in and end_op has not yet let out. |
| Holders.CallMetered | ASO/ASO2018-2019/xv6/sleeplock.c:22-42 | The step under both: every move of any such code keeps the data equal to the number of units taken. |
| PipeWaiters.PipeWriters | ASO/ASO2018-2019/xv6/pipe.c:77-121 | A writer asleep finds the pipe full and its read end open, killed processes included. |
| PipeWaiters.PipeReaders | ASO/ASO2018-2019/xv6/pipe.c:77-121 | A reader asleep finds it empty and its write end open, in every run without silent writes: writes that fill an empty pipe and give up because the writer was killed or the read end is closed. |
| PipeWaiters.WriteExactly | ASO/ASO2018-2019/xv6/pipe.c:77-98 | From any state pipewrite keeps the rule of sleep and wakeup iff it does not fill the pipe and give up while it owes the readers a wakeup. |
| PipeWaiters.CalmExactly | ASO/ASO2018-2019/xv6/pipe.c:77-121 | The calls of pipe.c that keep the rule are exactly those that are not silent writes. |
| PipeWaiters.SilentWriteLosesWakeup | ASO/ASO2018-2019/xv6/pipe.c:85-89 | For every empty pipe and every silent write to it there is a run in which that write leaves a reader asleep on a full pipe. |
| PipeWaiters.TakeLeaves | ASO/ASO2018-2019/xv6/pipe.c:113-119 | The copying loop takes what there is, up to n bytes, wakes the writers and returns. |
| PipeWaiters.WriteLeaves | ASO/ASO2018-2019/xv6/pipe.c:84-96 | pipewrite puts in what fits; it returns after a wakeup iff that was all, and else fails iff killed or without readers, and else sleeps. |
| PipeWaiters.CloseLeaves | ASO/ASO2018-2019/xv6/pipe.c:59-75 | Closes the one end, and wakes those at the other. |
| PipeWaiters.PipeRead | ASO/ASO2018-2019/xv6/pipe.c:100-121 | On the ring buffer: sleeps iff nothing is in it, the write end is open and the reader is not killed, fails iff it is, and else returns the next bytes; it leaves the counters of ReadOps. |
| PipeWaiters.PipeWrite | ASO/ASO2018-2019/xv6/pipe.c:77-98 | On the ring buffer: the bytes it appends, how it ends, and that it leaves the counters of WriteOps. |
| Processes.StepInv | ASO/ASO2018-2019/xv6/proc.c:73-497 | Each critical section keeps the invariant of the process table. |
| Processes.RunInv | ASO/ASO2018-2019/xv6/proc.c:180-392 | In every run: no process has a ZOMBIE or UNUSED parent, none sleeps in wait beside a zombie child, RUNNING means on exactly one CPU, pids of processes are distinct. |
| Processes.ReapedOnce | ASO/ASO2018-2019/xv6/proc.c:279-300 | An exited process is reaped at most once, by its parent of that moment. |
| Processes.KillWakes | ASO/ASO2018-2019/xv6/proc.c:476-497 | In every run a killed process is awake and marked from then on, until it is reaped or calls sleep itself. |
| Processes.ZombieStays | ASO/ASO2018-2019/xv6/proc.c:264-300 | A zombie stays one, with its pid, until it is reaped. |
| Processes.ZombieHasParent | ASO/ASO2018-2019/xv6/proc.c:250-268 | Its parent is alive and not asleep in wait. |
| Processes.CleanExactly | ASO/ASO2018-2019/xv6/proc.c:88-98 | A free slot is marked killed afterwards iff kill hit a free slot or a killed EMBRYO was given back. |
| Processes.BornKilled | ASO/ASO2018-2019/xv6/proc.c:479-497 | The first process runs and calls kill(0), which marks a free slot; the child it forks next starts killed. |
| ProcTable.Table.constructor | ASO/ASO2018-2019/xv6/proc.c:120-154 | userinit makes the first state. |
| ProcTable.Table.Allocproc | ASO/ASO2018-2019/xv6/proc.c:73-98 | The first free slot becomes an EMBRYO with the next pid, its other fields and all other slots as before, or there is none. |
| ProcTable.Table.Wakeup1 | ASO/ASO2018-2019/xv6/proc.c:455-465 | Exactly the sleepers on the channel become RUNNABLE. |
| ProcTable.Table.Reparent | ASO/ASO2018-2019/xv6/proc.c:255-262 | The children pass to init, which wakes iff one of them is a zombie. |
| ProcTable.Table.ExitProc | ASO/ASO2018-2019/xv6/proc.c:227-268 | The CPU is idle and the process a zombie; its children pass to init; awake are exactly those who slept in wait as its parent or, if it leaves a zombie, as init; nothing else changes; init panics. |
| ProcTable.Table.Wait | ASO/ASO2018-2019/xv6/proc.c:272-312 | Reaps the first zombie child iff there is one, whose slot is then free and clean; else fails iff there is no child or the caller is killed; else the caller sleeps on itself and its CPU is idle; no other slot changes. |
| ProcTable.Table.Schedule | ASO/ASO2018-2019/xv6/proc.c:333-347 | The first RUNNABLE process from a slot on is RUNNING on the CPU; no other slot or CPU changes. |
| ProcTable.Table.KillPid | ASO/ASO2018-2019/xv6/proc.c:476-497 | The first slot with the pid, whatever its state, is marked killed, and RUNNABLE iff it was SLEEPING or RUNNABLE; its pid, parent and channel and every other slot are as before; -1 iff no slot has the pid. |
| ProcTable.Table.YieldCpu | ASO/ASO2018-2019/xv6/proc.c:384-392 | The process is RUNNABLE and its CPU idle; nothing else changes. |
| ProcTable.Table.SleepOn | ASO/ASO2018-2019/xv6/proc.c:415-452 | The process is SLEEPING on the channel and its CPU idle; nothing else changes. |
| ProcTable.Table.WakeupChan | ASO/ASO2018-2019/xv6/proc.c:467-474 | Exactly the sleepers on the channel become RUNNABLE. |
| ProcTable.Table.Fork | ASO/ASO2018-2019/xv6/proc.c:178-222 | Keeps the invariant; fails iff no slot is free or the copy fails, and then the slot is free again; else one child, RUNNABLE with a new pid and the caller as parent; no other slot changes. |
| PageTables.SkipTable | ASO/ASO2018-2019/xv6/vm.c:266-268 | Where a page table is missing, jumping over its pages frees what visiting them would. |
| PageTables.PutMapping | ASO/ASO2018-2019/xv6/vm.c:73-73 | Storing an entry changes that translation only. |
| PageTables.AddTable | ASO/ASO2018-2019/xv6/vm.c:42-53 | A new page table moves no translation. |
| Vm.Space.Kalloc | ASO/ASO2018-2019/xv6/kalloc.c:79-95 | Takes the first frame of the free list. |
| Vm.Space.Kfree | ASO/ASO2018-2019/xv6/kalloc.c:55-77 | Puts the frame first; panics iff it is out of range. |
| Vm.Space.Walkpgdir | ASO/ASO2018-2019/xv6/vm.c:32-55 | Finds or makes the table of the page, moves no translation, fails iff a frame is needed and none is free. |
| Vm.Space.Mappages | ASO/ASO2018-2019/xv6/vm.c:57-80 | For any range, user or kernel: sets exactly the requested translations up to the first entry that is present, or up to the first missing table for which there is no frame; user frames pass from hand to their pages; the frames used are the tables that were missing. |
| Vm.Space.PageFault | ASO/ASO2018-2019/xv6/trap.c:81-103 | A page fault at any address: the process is killed iff there is no frame for the page or for its table; else an absent page gets a zeroed frame, and a fault on a page that is present loses one. |
| Vm.Space.Deallocuvm | ASO/ASO2018-2019/xv6/vm.c:251-279 | The skipping loop has the effect of visiting every page of the range: those translations go, their frames are freed in order, once each, and nothing else changes. |
| Vm.Space.Allocuvm | ASO/ASO2018-2019/xv6/vm.c:219-249 | Succeeds iff the free list has a frame for every page of the range and every table that is missing, and then maps every unmapped page to a fresh zeroed frame; else unmaps the whole range; on success exactly one frame is lost per page that was already mapped, and on failure none if none was. |
| Vm.Space.Freevm | ASO/ASO2018-2019/xv6/vm.c:281-298 | Every user frame, page table and the directory go back to the free list exactly once. |
| Pipe.SlotOf | ASO/ASO2018-2019/xv6/pipe.c:93-93 | A wrapped counter names the right slot, because PIPESIZE divides 2^32. |
| Pipe.FullTest | ASO/ASO2018-2019/xv6/pipe.c:85-114 | The tests on wrapped counters are the tests for full and empty. |
| Pipe.PipeBuf.Write | ASO/ASO2018-2019/xv6/pipe.c:84-94 | Appends the bytes in order until all are in or the pipe is full. |
| Pipe.PipeBuf.Read | ASO/ASO2018-2019/xv6/pipe.c:113-117 | Returns the next bytes written, as many as asked for or there are. |
| FileTable.SlotSet | ASO/ASO2018-2019/xv6/file.c:26-80 | Storing into a descriptor slot moves one count from the old file to the new. |
| FileTable.LastEnd | ASO/ASO2018-2019/xv6/file.c:68-74 | Closing the last reference to a pipe end closes that end, and frees the pipe iff both are closed. |
| FileTable.EndsKept | ASO/ASO2018-2019/xv6/file.c:55-80 | Where every file still open is what it was, a pipe end is open iff it was and its file still is. |
| FileTable.NewPipe | ASO/ASO2018-2019/xv6/pipe.c:33-45 | Two new files become the ends of a new pipe. |
| FileDescriptors.Descriptors.Filealloc | ASO/ASO2018-2019/xv6/file.c:25-41 | A free file gets its first reference, or all are in use. |
| FileDescriptors.Descriptors.Filedup | ASO/ASO2018-2019/xv6/file.c:43-53 | One reference more; panics iff the file is free. |
| FileDescriptors.Descriptors.Fileclose | ASO/ASO2018-2019/xv6/file.c:55-80 | One reference less; the last one closes the pipe end; never panics and never frees a pipe twice. |
| FileDescriptors.Descriptors.Pipeclose | ASO/ASO2018-2019/xv6/pipe.c:59-75 | Closes one end and frees the page iff both are closed. |
| FileDescriptors.Descriptors.Fdalloc | ASO/ASO2018-2019/xv6/sysfile.c:38-53 | The lowest free descriptor, or -1 iff none. |
| FileDescriptors.Descriptors.Dup | ASO/ASO2018-2019/xv6/sysfile.c:55-67 | The lowest free descriptor points to the same file, which has one reference more; no other file, descriptor or pipe changes; every count stays the number of its descriptors. |
| FileDescriptors.Descriptors.Dup2 | ASO/ASO2018-2019/xv6/sysfile.c:69-91 | fd2 points to the file of fd, whatever it was before; nothing happens for equal descriptors; every file still open is what it was, and every count and pipe end stays right. |
| FileDescriptors.Descriptors.Close | ASO/ASO2018-2019/xv6/sysfile.c:117-128 | The descriptor is free; every file still open is what it was, and every count and pipe end stays right. |
| FileDescriptors.Descriptors.Pipealloc | ASO/ASO2018-2019/xv6/pipe.c:22-57 | Two files and a pipe iff there are two free files and a page; else nothing. |
| FileDescriptors.Descriptors.SysPipe | ASO/ASO2018-2019/xv6/sysfile.c:447-469 | Succeeds iff there are a page, two free files and two free descriptors: the ends are then in the two lowest; else files, descriptors and pipes are as before. |
| FileDescriptors.Descriptors.CopyAll | ASO/ASO2018-2019/xv6/proc.c:206-208 | The child of fork has the descriptors of the parent; files and pipes are what they were. |
| FileDescriptors.Descriptors.CloseAll | ASO/ASO2018-2019/xv6/proc.c:237-243 | exit leaves no descriptor open; every file still open is what it was. |
| Matcher.HereStar | ASO/ASO2018-2019/xv6/grep.c:98-106 | c* takes some number of matching characters and the rest of the expression goes on from there. |
| Matcher.MatchHere | ASO/ASO2018-2019/xv6/grep.c:84-96 | True iff some start of the text is in the language of the expression. |
| Matcher.MatchStar | ASO/ASO2018-2019/xv6/grep.c:98-106 | True iff c* and the rest match for some number of repetitions. |
| Matcher.Match | ASO/ASO2018-2019/xv6/grep.c:72-82 | True iff some substring, at the start for ^, is in the language; terminates always. |
| Matcher.StarFreeHere | ASO/ASO2018-2019/xv6/grep.c:83-96 | Without a star the language is what one reads: each character, any for a dot, and with a final $ nothing after them. |
| Shell.ParseCmd | ASO/ASO2018-2019/xv6/sh.c:327-342 | Terminates on every line; every token of the command is a run of plain characters up to the first other one, and no command has MAXARGS arguments or more. Which command it is: ShellGrammar.ParsesExactly. |
| ShellGrammar.ParsesExactly | ASO/ASO2018-2019/xv6/sh.c:327-446 | parsecmd returns a command iff the line is a spelling of a line of the grammar, with any white space, and then the command is its meaning: the words of a simple command in order inside its redirections, which may stand anywhere, the last outermost; pipes and lists to the right; one background command per &; parentheses with redirections after them. |
| ShellGrammar.ParseSpelled | ASO/ASO2018-2019/xv6/sh.c:327-446 | The same from the line: any spelling of it parses as its meaning. |
| ShellGrammar.SpellsExactly | ASO/ASO2018-2019/xv6/sh.c:265-308 | gettoken splits a text into lexemes iff the text spells them: white space anywhere between, words as long as they can be, and > apart from >. |
| ShellGrammar.ArgsRead | ASO/ASO2018-2019/xv6/sh.c:429-445 | The loop of parseexec over words and redirections in any order. |
| ShellGrammar.LineRead | ASO/ASO2018-2019/xv6/sh.c:344-424 | parseline reads every line of the grammar that stands before a closing parenthesis or the end, and stops there. |
| ShellGrammar.LineAccepted | ASO/ASO2018-2019/xv6/sh.c:344-424 | What parseline accepts is such a line. |
| ShellRoundTrip.ParsePrint | ASO/ASO2018-2019/xv6/sh.c:327-446 | For every command with legal words and at most MAXARGS-1 arguments, parsing its printing gives it back. |
| ShellParser.Parser.GetToken | ASO/ASO2018-2019/xv6/sh.c:265-308 | The scanning loops return the token that ShellGrammar.SpellsExactly is about. |
| ShellParser.Parser.PeekAt | ASO/ASO2018-2019/xv6/sh.c:310-320 | Whether the next character is one of those given. |
| ShellParser.Parser.ParseRedirs | ASO/ASO2018-2019/xv6/sh.c:374-397 | The loop reads the redirections of Shell.Redirs. |
| ShellParser.Parser.ParseArgs | ASO/ASO2018-2019/xv6/sh.c:429-445 | The loop reads the arguments and redirections that ShellGrammar.ArgsRead is about. |
| ShellParser.Parser.ParseCommand | ASO/ASO2018-2019/xv6/sh.c:327-342 | The methods with their cursor compute ParseCmd, panics included. |
| ShellParser.Nulterminate | ASO/ASO2018-2019/xv6/sh.c:448-493 | Stores a NUL right behind each token and nowhere else. |
| ShellParser.TokensIntact | ASO/ASO2018-2019/xv6/sh.c:448-493 | So every token reads back as a string, unchanged by the NULs of the others. |

## Left out

- Hardware, boot code, `ide.c` and the interrupt side of `spinlock.c`: locks are atomic, disk writes are single steps.
- Devices: `readi` and `writei` on `T_DEV`, the console and `devsw`.
- Inode cache and directories (`iget`, `iput`, `dirlookup`, `dirlink`, `namex`), link counts, and the path-based system calls.
- The inode cache (`ip->ref`, `ip->valid`): inodes are read once, by `Mount.Start`, and `Flushed` says when the copy on disk agrees later.
- `ialloc` of `fs.c`.
- What `sys_sbrk` with a negative size does to the heap of `malloc`, `copyuvm`, `setupkvm` and `exec`. `copyuvm` also returns early at an absent page (`vm.c:328-329`) without freeing what it built.
- Memory contents other than the byte a frame was last filled with.
- FileSystem.FileSys.Writei: the state left by a panic is not described.
- FileSystem.FileSys.Readi: the same.
- TightDisk.Overrun: the disk is consistent and a kernel starts on it; the run of system calls that leads to it is not given.
- Log.Logger.Commit: others may use buffers, but nobody holds the sleep lock of a log block or of a logged block at that moment; in `LogProtocol` commit waits for it.
- Log.Logger.LogWrite: the block is not one of the log area, which the file system never writes.
- Filling.FilledTrans: operations of the file system run one after the other; `LogProtocol` has them interleaved, on blocks.
- FileWrite.Filewrite: other operations may be outstanding and have blocks in the log, but they do nothing while it runs. With fewer than 25 header entries only `FileWrite.WriteChunk` says when it panics.
- CrashSafe.RestartAfterWrite: for a write with no other operation outstanding, so that every transaction is committed on its own.
- Mkfs.Image.Iappend: files of up to NDIRECT+NINDIRECT blocks, beyond which `mkfs.c:281` indexes outside its buffer; an image that runs out of blocks ends in a flag.
- Umalloc.Heap.Malloc: when sbrk is asked for no positive size the model stops with the outcome Unbacked and does not follow the heap further. Programs that also call sbrk themselves may only raise the break.
- Processes.RunInv: pids are unbounded; in C `nextpid` is an int that overflows.
- Waiters.LockDisciplined: `lk->pid`, and so the answer of `holdingsleep`, is not part of the data.
- SleepWakeup.NoLostWakeup: safety only; that a woken process is scheduled is not stated.
- FileDescriptors.Descriptors.SysPipe: system calls run one after the other; `held` stands for the references of others under way. Storing the two numbers in user memory is not modelled.
- Vm.Space.Mappages: user pages get frames in hand, as all callers do; ranges that wrap around the address space are not covered.
- ShellRoundTrip.ParsePrint: printing is ours; the shell only parses. Whether the file of a redirection is truncated or appended is not part of the tree in the source either.
- The order in which `grep.c` tries matches, and its line buffer.
- The two `simplesh.c` shells, `web_sstt.c`, the user programs and the test programs.
