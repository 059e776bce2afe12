# A verified model of RAF-OS (xv6 for x86)

This project models the parts of the RAF-OS kernel, its `mkfs` tool and two of its user programs that are
hard to get right, and proves what they promise. It is self-contained: `dafny verify dfyconfig.toml` checks
everything.

**Storage.** The disk is a sequence of blocks and one block write is atomic, as in `kernel/memide.c`.
`LogMachine` describes the redo log as a machine whose steps are single block writes and a crash, over any number
of concurrent operations; buffers may also change without `log_write` and be recycled. `LogSafety` and `LogRuns`
prove crash atomicity over every run, `LogSpace` how much room in the log header operations may count on. `Log` is
`kernel/log.c` as a class whose fields are the kernel's; every method keeps a ghost run of that machine in step
with them. `Cache` is the buffer cache with its doubly linked list of heap objects, and `CacheLog` shows that its
operations are steps of the log machine, that its pinned buffers are the header's blocks, and when it runs out of
buffers. `FsLayout`, `FsOwnership`, `FsState`, `FsWrite`, `FsTrunc` and `FsCommit`
hold the on-disk format, the block trees (direct, indirect, double-indirect) and what keeps them in order;
`FileSystem` is `kernel/fs.c` as a class over them. Every change it makes to a buffer is recorded in its `trace`
(`FsTrace`), and every finished operation leaves the set of blocks it logged in `ended` and the set it had logged
at its last `log_write` in `prior`. `FsFootprint` and `Transactions` count those blocks. `Files` adds open files, the cutting of writes into transactions and the two
cipher system calls. `Mkfs` builds the first image. `Tower` and `Storage` join the log and the file system: the
trace reaches the log call by call, `end_op` commits, a crash at any moment leads through recovery to the files
of the last commit, and `Storage.Boot` starts all of it from the image `mkfs` wrote. `FileCrash` runs `filewrite`
and the cipher calls on that and says what a power failure leaves of them.

The key to the file system is the ghost map `owner` from a block to the one place in an inode tree that
points to it. `Owned` says that the map bits that are set are exactly the metadata blocks and the blocks in
`owner`, and that pointers and `owner` agree, so trees are disjoint. `Good` adds that every inode on disk agrees
with the one in memory, that free inodes are empty, and that no file has a hole.

**Waiting.** `Waiting` is a machine over any number of processes, sleep locks and pipes in which a step takes
or releases one spinlock or does what the kernel does while holding one. It covers `sleep`, `wakeup`, `kill`,
sleep locks, `begin_op`, `log_write` and `end_op`, and pipes with their wrapping 32-bit counters (`Ring`).
`WaitingSafety` proves what each step keeps, `WaitingRuns` and `WaitingReaders` what holds in every state of every
run. `ProcTree` and `Procs` are the process table: fork, exit, wait and kill.

**Memory.** `PageTables` and `Vm` are the two-level page tables and the frame allocator, with a ghost owner
for every frame. `FreeList` and `Umalloc` are the user-level `malloc` and `free`.

**Text.** `ShellGrammar` states the shell's language without its parser, `ShellParse` shows that recursive
descent on tokens accepts exactly that language, and `Shell` is the parser on the buffer with its cursor and the
NULs it writes into the line. `Grep` is the matcher against the meaning of its patterns.

Five things the code does differ from what one would expect; the model follows the code and says when the
expected property holds.

- The reservation of `begin_op` is not enforced, and `log_write` tests for a full header before it looks for the
  block, so a call that would only be absorbed panics too. `LogSpace.PanicExactly` shows, for operations that call
  `log_write` only while they have logged at most `limit` blocks, that its panic can be reached exactly when
  `log.size <= MAXOPBLOCKS + 2 * (limit + 1)` or `limit >= MAXOPBLOCKS`. With `limit` one below the reservation
  that is `log.size <= LOGSIZE`, which is the log `mkfs` makes. So what counts is how much an operation had logged
  at its last call, not only how much it logs in all. A write on its own makes no call after its MAXOPBLOCKS-th
  block exactly when it logs at most that many (`FsFootprint.WriteCalls`), and `FsFootprint.WriteCostExact` counts
  those beforehand. For `sys_encr` and `sys_decr` the two differ: `Transactions.CipherFits` decides when every
  transaction logs at most MAXOPBLOCKS blocks, `Transactions.CipherCalm` when every call comes before the
  operation has logged that many, and from offset 1 with 5119 bytes to go the first holds and the second does not
  (`Transactions.RelogExample`). From an unaligned offset with 5120 bytes to go eleven blocks are logged
  (`Transactions.UnalignedCipherOverruns`).
- A log of more than LOGSIZE blocks avoids that panic and meets another. NBUF equals LOGSIZE, so a full header pins
  every buffer, and the commit finds none for its first log block although every operation kept to its reservation
  (`CacheLog.CommitStarves`). `CacheLog.OutOfBuffers` says exactly when `bget` has nothing to recycle.
- `sys_encr` commits every ten passes and sets its mark at the end. After a power failure in between, the call is
  allowed again and encrypts the first transactions twice: `FileCrash.CipherThenCrash` and
  `FileCrash.EncryptedTwice`, with the exact condition for the outcome to be right.
- The cipher loses bytes with the high bit set, and 7-bit bytes for keys above 128: `Cipher.RoundTripExactly` and
  `Cipher.FileRoundTrip` give the exact conditions.
- A killed `pipewrite` may leave a full pipe without waking its readers: `WaitingRuns.ReaderLeftAsleep` is such a
  run. `WaitingReaders.ReaderSleeper` says exactly when a sleeping reader has bytes to read, and
  `WaitingReaders.ReaderSleepsForCause` that without kills and with the read end open it never has.

Also noted: `itrunc` clears entries of the double-indirect block in the cache without logging that block, so
the cached block may differ from what the log knows until the buffer is recycled (`FsCommit.EvictKeepsFiles` and
`FsCommit.FreeBlocksDoNotMatter` show that no file notices).
`sys_encr` and `sys_decr` compare the file's descriptor kind with an inode type, a test that never holds for an
inode; a device is noticed when `readi` is called. `malloc` computes its unit count in 32 bits and passes a
signed byte count to `sbrk`: `Umalloc.PayloadFits` and `Umalloc.AskIsHonest` say for which sizes both are right.

Parameters stand for what the model cannot see: the answer of `sbrk`, the reference count `iput` looks up, the
names of operations, the addresses at which the kernel was linked.

## Model

| member | source | states |
|---|---|---|
| LogMachine.HeadRoundTrip | kernel/log.c:85-113 | reading back the header block that was written gives the same block numbers, whatever else the block held |
| LogSafety.InvStep | kernel/log.c:69-202 | every step of every operation, commit, crash and recovery keeps the log invariant, and what is durable only grows |
| LogSafety.CrashAtomicity | kernel/log.c:69-202 | in every state of every run the disk is worth the initial state plus the durable writes, which contain each operation whole or not at all, and whole only after it ended |
| LogRuns.RecoveryCompletes | kernel/log.c:69-122 | from any crash, also one inside recovery, recovery runs to its end and leaves every home block equal to the state after the durable transactions |
| LogRuns.GroupCommit | kernel/log.c:125-174 | in every state of every run a commit and a recovery run with no operation outstanding, so a transaction is made of whole operations |
| LogRuns.CommitPoint | kernel/log.c:192-202 | once the header write of a commit finished, its transaction is durable in every later state of every continuation |
| LogSpace.ReservedAlways | kernel/log.c:125-141 | in every run in which operations call log_write only while they have logged at most `limit` < MAXOPBLOCKS different blocks, the used slots and what outstanding operations may still use fit MAXOPBLOCKS + 2 * (limit + 1), which is LOGSIZE for the whole reservation |
| LogSpace.NeverTooBig | kernel/log.c:213-222 | then, with a log larger than that, an operation that has logged at most `limit` blocks never meets the "too big a transaction" panic |
| LogSpace.PanicExactly | kernel/log.c:213-222 | where operations call log_write while they have logged at most `limit` blocks, for every limit, some run reaches that panic if and only if log.size <= MAXOPBLOCKS + 2 * (limit + 1) or the limit is MAXOPBLOCKS or more |
| LogSpace.SmallLogPanics | tools/mkfs.c:25 | one half of it; with the log size mkfs chooses there is a run within the reservation that reaches the panic |
| LogSpace.FullHeaderPanics | kernel/log.c:218 | in a log of any larger size operations that log ten blocks or one fill the header, and the next log_write of one that has logged ten panics even for a block it has logged |
| LogSpace.FullCommit | kernel/log.c:145-174 | in such a log operations that keep to their reservation can leave the header full when the last of them ends |
| Log.Log.BeginOp | kernel/log.c:125-141 | an operation starts exactly when no commit runs and its reservation fits, and is then the Begin step of the machine; otherwise nothing changes |
| Log.Log.LogWrite | kernel/log.c:213-233 | absorbs or appends the block as the machine's Write step does; panics exactly when the header is full or no operation is outstanding, and then changes nothing |
| Log.Log.Scribble | kernel/fs.c:497 | a buffer changes without log_write, as the machine's Scribble step |
| Log.Log.Evict | kernel/bio.c:77-90 | a buffer that is not pinned is recycled, as the machine's Evict step |
| Log.Log.WriteLog | kernel/log.c:177-190 | one block write per logged block, up to the point before the header write or to where power fails; nothing becomes durable and no home buffer changes |
| Log.Log.WriteHead | kernel/log.c:101-113 | one block write, which makes the pending transaction durable when committing and clears the log otherwise |
| Log.Log.InstallTrans | kernel/log.c:69-82 | one block write per logged block, or as many as happen before power fails; durable state unchanged, in commit and in recovery |
| Log.Log.Commit | kernel/log.c:192-202 | the commit is log blocks, header, home blocks, header, in this order, as a run of the machine, and makes exactly the pending writes durable; nothing for an empty transaction |
| Log.Log.CommitCut | kernel/log.c:192-202 | a commit cut off after k block writes has made the pending writes durable if and only if the header is among them |
| Log.Log.EndOp | kernel/log.c:145-174 | the last operation commits: what was pending is durable, nothing is pending, and disk and cache are equal on every home block but those changed without log_write; any other only gives its reservation back; the panic is unreachable |
| Log.Log.EndOpCut | kernel/log.c:145-174 | the same for the end_op of the last operation |
| Log.Log.RecoverFromLog | kernel/log.c:115-122 | after a crash at any point, disk and cache hold the state after the durable transactions |
| Log.Log.ReadHeader | kernel/log.c:85-96 | brings the header into memory, as the machine's recovery step |
| Log.Log.Crash | kernel/log.c:53-66 | loses everything but the disk |
| FsTrace.BlockIsApplied | kernel/log.c:213-233 | every buffer but those changed without log_write holds the last commit plus the writes logged since |
| FsTrace.CommitApplies | kernel/log.c:192-202 | installing the logged buffers and applying the logged writes give the same home blocks |
| FsTrace.EarlyAtLast | kernel/log.c:213-233 | at each log_write an operation has logged no block that it had not at its last one |
| Tower.FeedStep | kernel/log.c:213-233 | each buffer change of the file system, handed to the log, keeps header, pending writes, footprints and every home buffer of the two in agreement |
| Tower.FeedCalm | kernel/log.c:213-222 | an operation that had logged fewer than MAXOPBLOCKS blocks at its last log_write keeps its reservation, and each of its calls finds room in a log of more than LOGSIZE blocks |
| Tower.CommitInstalls | kernel/log.c:69-82 | what a commit makes durable is exactly the logged blocks of the file system, with their cached contents |
| Tower.WorthyCommit | kernel/log.c:192-202 | from the header write on, home blocks half installed included, the disk is worth the files in memory |
| Tower.JoinedLogging | kernel/log.c:177-190 | the writes into the log area before the header write leave that agreement in place |
| Tower.AllOrNothing | kernel/log.c:115-202 | from any moment between calls or before the header write of a commit, whatever crashes, recoveries and commit steps follow, the idle disk mounts either to the files in memory or to those of the last commit |
| Tower.CommittedFilesSurvive | kernel/log.c:192-202 | once the header is written it is the files in memory: same inodes, same bytes in every file |
| Tower.UncommittedFilesVanish | kernel/log.c:115-122 | a crash before that, with any operations open, brings back the files of the last commit |
| Storage.Storage.constructor | kernel/log.c:53-66 | mounting a good disk with an empty log puts log and file system in agreement |
| Storage.Storage.Begin | kernel/log.c:125-141 | starts an operation exactly when its reservation fits; files unchanged |
| Storage.Storage.Write | kernel/fs.c:553-583 | a write inside an operation reaches the log whole, or panics; without a full disk it panics only if the operation had logged MAXOPBLOCKS blocks at its last call, given a log of more than LOGSIZE blocks and operations that kept to theirs; even then the disk is worth the last commit |
| Storage.Storage.Read | kernel/fs.c:526-549 | readi gives the slice of the file and is no step of the log |
| Storage.Storage.Truncate | kernel/fs.c:444-508 | the same for itrunc |
| Storage.Storage.Create | kernel/fs.c:193-213 | the same for ialloc |
| Storage.Storage.Put | kernel/fs.c:330-351 | the same for iput |
| Storage.Storage.Evict | kernel/bio.c:77-90 | recycling any buffer that is not pinned changes no file and keeps the agreement |
| Storage.Storage.End | kernel/log.c:145-174 | when the last operation ends the files on disk are the files in memory; before, the last commit stays; the footprint of the operation and that at its last call are recorded |
| Storage.Storage.CrashRecover | kernel/log.c:115-122 | from any such moment, after a panic too, a crash and recovery give a working system with exactly the files of the last commit |
| Storage.Boot | tools/mkfs.c:171-236 | the image mkfs wrote mounts to a working system with the files mkfs put there |
| Storage.FreshWrite | kernel/file.c:124-152 | a write by an operation that has logged nothing finds room in the log unless it logs more than MAXOPBLOCKS blocks, and how many it logs is WriteCost; a chunk of filewrite finds room unless its allocations touch three free-map blocks, and always on a disk with two |
| Storage.EndThenCrash | kernel/log.c:145-202 | power fails after k block writes of the commit in the last end_op: recovery gives a working system, with the files in memory if the header was among the k and those of the last commit if not |
| Storage.LostWrite | kernel/log.c:115-122 | a write whose operation is open when the power fails changes no file |
| Storage.KeptWrite | kernel/log.c:145-174 | a write whose operation was the last to end is there afterwards, and every other file is as before |
| FileCrash.Filewrite | kernel/file.c:116-155 | filewrite through the log: at its end, by a panic too, the files on disk are those before with exactly the chunks written so far; it fails exactly behind the end of the file or beyond the largest; where the log is larger than LOGSIZE, the disk has two bitmap blocks and operations kept to theirs, its only panic is a full disk |
| FileCrash.FilewriteThenCrash | kernel/file.c:133-152 | power fails between two chunks, inside one, or inside its commit after k block writes: recovery gives a working system in which the file holds whole chunks, all that had ended and the last if its header was written |
| FileCrash.CipherPass | kernel/sysfile.c:537-542 | one pass of the cipher loop through the log shifts up to 512 bytes |
| FileCrash.CipherCommit | kernel/sysfile.c:537-554 | ten passes and end_op: all of them are on disk, or none |
| FileCrash.CipherThenCrash | kernel/sysfile.c:535-561 | power fails in a transaction of sys_encr or sys_decr: after recovery exactly the bytes of the transactions before it are shifted, once, and the mark is not set |
| FileCrash.EncryptedTwice | kernel/sysfile.c:530-561 | encrypting such a file again, for 7-bit bytes and a key not negative, gives what one undisturbed call gives if and only if no transaction had ended, the file is empty or the key is a multiple of 128 |
| Cache.BCache.constructor | kernel/bio.c:38-55 | all buffers are on a well-formed circular list, none holding a block of the root device |
| Cache.BCache.Bget | kernel/bio.c:60-92 | a hit is the one buffer with that block; a miss recycles the least recently released clean unreferenced buffer; null exactly when there is none |
| Cache.BCache.Bread | kernel/bio.c:95-105 | a locked valid buffer whose bytes are those last logged or written to the block; none only if no buffer holds it and none can be recycled |
| Cache.BCache.Bwrite | kernel/bio.c:108-115 | the disk and the current contents of the block become the buffer's bytes, and it is clean |
| Cache.BCache.Pin | kernel/log.c:228-231 | the buffer becomes dirty and its bytes the current contents of the block |
| Cache.BCache.Brelse | kernel/bio.c:119-140 | at the last reference the buffer becomes the most recently used one; the list stays a doubly linked permutation of all buffers |
| CacheLog.ReadRefines | kernel/bio.c:95-105 | bread returns the log machine's cached block and is no step of it |
| CacheLog.ReferenceRefines | kernel/bio.c:66-75 | neither is a hit |
| CacheLog.ReleaseRefines | kernel/bio.c:119-140 | nor a release |
| CacheLog.RecycleRefines | kernel/bio.c:77-90 | at any moment, in a commit too, recycling a buffer that holds an unlogged change is the machine's Evict step and recycling any other is none |
| CacheLog.ModifyRefines | kernel/fs.c:497 | changing a locked buffer is the machine's Scribble step |
| CacheLog.PinRefines | kernel/log.c:228-231 | pinning it is the machine's Write step; the blocks with a dirty buffer stay exactly those of the header that are not installed |
| CacheLog.BwriteRefines | kernel/log.c:69-113 | filling a buffer and bwrite is the machine's next disk step, in write_log, write_head and install_trans, and unpins the block it goes to and no other |
| CacheLog.RestRefines | kernel/log.c:125-174 | begin_op, end_op and reading the header are steps of the machine that leave the buffers alone |
| CacheLog.CrashRefines | kernel/bio.c:38-55 | after a crash the empty buffers of binit again agree with the machine |
| CacheLog.PinnedBuffers | kernel/log.c:228-231 | as many buffers are dirty as the header has blocks that are not installed |
| CacheLog.OutOfBuffers | kernel/bio.c:77-91 | bget has no buffer to recycle if and only if the blocks of the header that are not installed and the clean buffers somebody holds are as many as there are buffers |
| CacheLog.CommitBuffer | kernel/log.c:177-190 | with NBUF buffers and none held, write_log finds one for its log block if and only if the header is not full, which is always so with the log of mkfs |
| CacheLog.CommitStarves | kernel/param.h:11-12 | with any larger log some run within the reservation starts a commit for whose first log block no buffer is cached or can be recycled, whatever the NBUF buffers are |
| Cache.HitStep | kernel/bio.c:66-75 | referencing a buffer keeps cache and disk one block map and the order of release |
| Cache.RecycleStep | kernel/bio.c:77-90 | so does recycling, which leaves at most one buffer per block |
| Cache.ReleaseStep | kernel/bio.c:125-138 | releasing keeps the list ordered by when each buffer became unreferenced |
| FsLayout.PutDinodeSame | kernel/fs.c:219-235 | an inode written into its slot of an inode block is read back unchanged |
| FsLayout.PutDinodeOther | kernel/fs.c:219-235 | and the other inodes of the block keep every field |
| FsOwnership.OwnershipConserved | kernel/fs.c:56-95 | in every good state two pointers never share a block, and a map bit is set exactly for metadata and for blocks some pointer of an inode tree names |
| FsState.GrowRoot | kernel/fs.c:370-437 | a fresh zeroed block put into an inode's address slot keeps ownership and every other pointer and byte |
| FsState.GrowEntry | kernel/fs.c:370-437 | the same for an entry of an index block |
| FsWrite.WriteStep | kernel/fs.c:569-575 | one round of writei changes exactly the bytes it copies |
| FsWrite.WriteGrown | kernel/fs.c:577-582 | a write that extends the file, with the inode written back, leaves a good file system with exactly the new bytes, and logged exactly the data blocks, what the new blocks cost and the inode's block |
| FsWrite.WriteSettled | kernel/fs.c:577-582 | so does one inside the file, which allocates nothing and needs no inode update |
| FsTrunc.AllReturned | kernel/fs.c:444-508 | an inode without addresses owns no block |
| FsTrunc.TruncFinish | kernel/fs.c:444-508 | after the walk over the tree the inode's blocks, and no others, are free and the file system is good |
| FsCommit.FreeBlocksDoNotMatter | kernel/fs.c:486-504 | pointers, ownership and all bytes of files depend on owned blocks only |
| FsCommit.EvictKeepsFiles | kernel/bio.c:77-90 | losing the contents of any buffer that was not logged changes no file |
| FsCommit.HomesDecide | kernel/log.c:53-66 | what a disk mounts to does not depend on the blocks of the log |
| FsCommit.CommitIsDurable | kernel/log.c:192-202 | the disk after a commit, mounted afresh, has the inodes and the bytes the cache had |
| FsCommit.CommittedGood | kernel/log.c:192-202 | a commit leaves a good file system with an empty log |
| FsFootprint.WriteFootprint | kernel/file.c:124-152 | a chunk of at most 1536 bytes logs at most 4 data, 3 index and 1 inode block plus the bitmap blocks its allocations touch |
| FsFootprint.WriteFitsReservation | kernel/file.c:124-152 | so it fits MAXOPBLOCKS when they touch at most two, and leaves a block to spare when they touch one |
| FsFootprint.SmallDiskWriteFits | kernel/file.c:124-152 | which is always so on a disk with two bitmap blocks, and with one |
| FsFootprint.WriteSet | kernel/fs.c:370-583 | exactly which blocks a write logs: its data blocks, the index blocks that are new or get an entry, the bitmap blocks of the new blocks, and the inode's block if the file grew |
| FsFootprint.WriteCostExact | kernel/file.c:124-152 | how many that are, counted from the state before the write: it keeps to MAXOPBLOCKS if and only if that count does |
| FsFootprint.WriteCalls | kernel/fs.c:553-583 | a write on its own has logged all its blocks but one at its last log_write, so each call comes before the MAXOPBLOCKS-th block if and only if it logs at most that many |
| Transactions.ChunkOpFits | kernel/file.c:124-152 | the bound for every transaction of filewrite |
| Transactions.ChunkOpCost | kernel/file.c:124-152 | the exact count for every transaction of filewrite |
| Transactions.ChunkOpCalls | kernel/file.c:124-152 | the same for every transaction of filewrite |
| Transactions.CipherFits | kernel/sysfile.c:482-508 | every transaction of sys_encr and sys_decr logs at most MAXOPBLOCKS blocks if and only if a condition on the offset in its block, the bytes to the end and the bitmap blocks of a file it frees holds |
| Transactions.FitsReservationKept | kernel/sysfile.c:482-508 | for a file that stays, with r the offset in its block and n the bytes to the end, the condition is r = 0, or r + n <= 4608, or n > 4608 and r + n <= 5120 |
| Transactions.CipherCalm | kernel/sysfile.c:482-508 | every log_write of these transactions is made with fewer than MAXOPBLOCKS blocks logged if and only if another condition on the same numbers holds |
| Transactions.CallsFitKept | kernel/sysfile.c:482-508 | for a file that stays that condition is r = 0 or r + n <= 4608 |
| Transactions.FittingCipherRelogs | kernel/sysfile.c:484-502 | a transaction that covers ten blocks from an unaligned offset keeps to the reservation, and yet calls log_write with ten blocks logged |
| Transactions.RelogExample | kernel/sysfile.c:484-502 | such a call: 5119 bytes from offset 1 |
| Transactions.UnalignedCipherOverruns | kernel/sysfile.c:484-502 | from an unaligned offset with 5120 bytes to go the first transaction logs eleven blocks |
| FileSystem.Fs.BeginOp | kernel/log.c:125-141 | a new operation has logged nothing |
| FileSystem.Fs.EndOp | kernel/log.c:145-174 | the operation's footprint is recorded; the last one out makes the files on disk those in memory, by applying exactly the logged writes |
| FileSystem.Fs.Bzero | kernel/fs.c:42-51 | the block becomes zero and is logged |
| FileSystem.Fs.Balloc | kernel/fs.c:56-78 | the lowest free block, marked and zeroed, with the map block and itself logged; fails exactly when no block is free |
| FileSystem.Fs.Bfree | kernel/fs.c:81-95 | frees a block of the tree; "freeing free block" is unreachable |
| FileSystem.Fs.Bmap | kernel/fs.c:370-437 | the block of any file block number through all three levels; allocates only missing blocks on the path, always the lowest free one, and logs exactly those, their bitmap blocks and the index blocks above them; nothing when it is mapped |
| FileSystem.Fs.Iupdate | kernel/fs.c:219-235 | the inode on disk becomes the one in memory |
| FileSystem.Fs.Ilock | kernel/fs.c:286-311 | loads an inode that was not valid and panics exactly when that one is free |
| FileSystem.Fs.Ialloc | kernel/fs.c:193-213 | a free inode number, stored with the type, every file as before; fails only when all are taken |
| FileSystem.Fs.Iput | kernel/fs.c:330-351 | an unlinked inode without other references is truncated and freed, otherwise nothing changes |
| FileSystem.Fs.Itrunc | kernel/fs.c:444-508 | exactly the inode's tree is freed, every other file keeps its bytes, and exactly the bitmap blocks of that tree and the inode block are logged |
| FileSystem.Fs.Readi | kernel/fs.c:525-549 | returns the slice of the file's bytes and changes nothing, so it never allocates; rejects exactly bad offsets and overflowing counts |
| FileSystem.Fs.Writei | kernel/fs.c:553-583 | replaces exactly the bytes at off, extends the size if needed, leaves all other files alone, and logs exactly the blocks of WriteSet; a rejected call changes nothing; panics only on a full disk |
| FileSystem.Fs.Commit | kernel/log.c:192-202 | the committed image has the same inodes and file contents |
| FileSystem.Fs.Crash | kernel/log.c:53-66 | a disk whose home blocks are those of the last commit, whatever its log blocks hold, mounts to a good file system with the inodes and the bytes of every file as of that commit |
| Cipher.RoundTrip | kernel/sysfile.c:488-552 | decrypting undoes encrypting for 7-bit bytes and keys up to 128 |
| Cipher.RoundTripExactly | kernel/sysfile.c:488-552 | all 7-bit bytes come back if and only if the key is at most 128 |
| Cipher.LargeKeyLosesBytes | kernel/sysfile.c:488-552 | every larger key loses some 7-bit byte |
| Cipher.HighByteIsLost | kernel/sysfile.c:488-552 | a byte with the high bit set never comes back for keys 0 to 128 |
| Cipher.FileRoundTrip | kernel/sysfile.c:488-552 | a sequence of bytes comes back if and only if all of them are 7-bit |
| Files.OpenFile.Fileread | kernel/file.c:96-113 | returns the slice at the offset and advances it; fails exactly when not readable or at a bad offset; outside a transaction, and it logs and allocates nothing |
| Files.OpenFile.WriteOp | kernel/file.c:139-144 | one transaction from begin_op to end_op, with one write between, whose footprint it leaves, in all and at its last log_write |
| Files.OpenFile.Filewrite | kernel/file.c:116-155 | the file is overwritten with the prefix of the data that was written, all of it on success; unless the disk is full it fails exactly when not writable, behind the end of the file or beyond the largest file; its transactions are one write of each chunk in turn, nothing in between, their recorded footprints those writes', in all and at their last log_write, each at most 8 blocks plus the bitmap blocks its allocations touch |
| Files.OpenFile.RewriteBlock | kernel/sysfile.c:484-489 | one pass shifts up to 512 bytes in place and logs exactly the blocks that hold them; at its last log_write it has logged all but the last of them |
| Files.OpenFile.Rewrite | kernel/sysfile.c:482-503 | every byte from the offset on is shifted once, in transactions of ten passes, each of which logged exactly the blocks of its bytes, and at its last call those of all but the last block |
| Files.OpenFile.CipherFile | kernel/sysfile.c:482-508 | every byte from the offset on is shifted exactly once and the size is kept; the recorded footprints are exactly the data blocks of each ten passes, the last with the inode's block and the bitmap blocks of a file that is freed; those at the last calls are recorded too |
| Files.OpenFile.Encr | kernel/sysfile.c:515-564 | encrypts from the offset to the end and marks the file, or changes nothing without a key or on a marked file; its transactions log at most MAXOPBLOCKS blocks if and only if FitsReservation holds, and call log_write only before that many if and only if CallsFit does |
| Files.OpenFile.Decr | kernel/sysfile.c:462-511 | decrypts and unmarks, or changes nothing; the same about its transactions |
| Files.EncryptThenDecrypt | kernel/sysfile.c:462-564 | the file is restored if and only if all its bytes are 7-bit; inodes and all other files are as before |
| Files.RewrittenBlocks | kernel/sysfile.c:484-489 | a pass inside an existing file, aligned or not, logs exactly the blocks that hold its bytes |
| Mkfs.Builder.constructor | tools/mkfs.c:171-236 | the empty image satisfies the builder's invariant |
| Mkfs.Builder.Ialloc | tools/mkfs.c:294-306 | the next inode with a link count of one; every file as before |
| Mkfs.Builder.Iappend | tools/mkfs.c:326-368 | the file's bytes become the old ones followed by the new ones; every other file is as before |
| Mkfs.Builder.Balloc | tools/mkfs.c:308-322 | the finished image, mounted, is a good file system with all the files built, and its log is empty |
| Mkfs.FinishedGood | tools/mkfs.c:308-322 | marking the used prefix of blocks makes the bitmap exact |
| WaitingSafety.InvStep | kernel/proc.c:425-504 | every step of every process keeps the locks, the sleep locks, the log counters, the pipes and the promise to waiters in order |
| WaitingSafety.SpinExclusion | kernel/proc.c:425-481 | two processes never hold one spinlock |
| WaitingSafety.WaitWake | kernel/proc.c:464-481 | when wakeup has run, with both locks held, nobody is left asleep on the channel or on the way to sleep on it |
| WaitingSafety.LogEnd | kernel/log.c:145-160 | end_op never meets its "log.committing" panic and keeps outstanding equal to the number of processes inside an operation |
| WaitingRuns.SleepLockExclusion | kernel/sleeplock.c:22-42 | in every reachable state two processes never have one sleep lock |
| WaitingRuns.NoLostWakeup | kernel/proc.c:425-481 | in every reachable state in which the lock of a channel is free, a process asleep on the channel still has to wait |
| WaitingRuns.SleepLockSleeper | kernel/sleeplock.c:22-42 | a process asleep in acquiresleep implies that some process has the lock |
| WaitingRuns.BeginOpSleeper | kernel/log.c:125-174 | a process asleep in begin_op implies a commit in progress or a process inside an operation |
| WaitingRuns.CommitAlone | kernel/log.c:145-174 | while one process commits, none is inside an operation and no other commits |
| WaitingRuns.WriterSleeper | kernel/pipe.c:76-96 | a process asleep in pipewrite implies a full ring whose read end is open |
| WaitingReaders.OpenStep | kernel/pipe.c:58-74 | every step keeps: a reader waits only at a pipe whose write end is open, or will be woken by whoever closed it |
| WaitingReaders.ReaderSleeper | kernel/pipe.c:98-119 | a process asleep in piperead with the lock free implies an open write end, and an empty ring if and only if no writer left bytes in the ring without a wakeup |
| WaitingReaders.ReaderSleepsForCause | kernel/pipe.c:76-119 | in every run without kills in which nobody closes the read end, it implies an empty ring and an open write end |
| WaitingRuns.ReaderLeftAsleep | kernel/pipe.c:82-87 | a run in which a killed writer fills the ring and a reader stays asleep |
| WaitingRuns.PipeOrder | kernel/pipe.c:76-119 | in every reachable state the bytes read are a prefix of those written, and 0 to PIPESIZE are in between |
| Ring.CountersExact | kernel/pipe.c:83-103 | comparing the wrapped 32-bit counters tells empty and full exactly, after any number of bytes |
| Ring.StoreFifo | kernel/pipe.c:91 | storing a byte into a ring that is not full keeps the order |
| Ring.TakeFifo | kernel/pipe.c:114 | so does taking one from a ring that is not empty |
| ProcTree.ExitInv | kernel/proc.c:245-264 | exit hands the children to init, wakes whom it must, and keeps the tree, the waiters and the pids in order |
| ProcTree.ReapInv | kernel/proc.c:284-298 | collecting a zombie keeps them too; its pid had exited and was not collected |
| ProcTree.SlotInv | kernel/proc.c:74-220 | so does taking, naming, starting or abandoning a slot, and going to sleep in wait only without zombie children |
| ProcTree.WokeInv | kernel/proc.c:464-504 | and waking, killing and scheduling |
| ProcTree.TreeSafe | kernel/proc.c:180-312 | in every state of every run a parent is alive, so zombies have no children, and nobody sleeping in wait has a zombie child |
| ProcTree.CollectedOnce | kernel/proc.c:272-312 | a pid that a wait returned stays collected and is never a zombie again |
| ProcTree.UserInitInv | kernel/proc.c:121-155 | the table userinit makes, from which every run starts, is in order |
| Procs.Ptable.constructor | kernel/proc.c:121-155 | the table is the one userinit makes |
| Procs.Ptable.Wakeup1 | kernel/proc.c:464-472 | exactly the processes asleep on the channel become RUNNABLE |
| Procs.Ptable.Wakeup | kernel/proc.c:475-481 | the same, as a step of a run |
| Procs.Ptable.Allocproc | kernel/proc.c:74-96 | a free slot with a pid never used before, or none exactly when all are taken |
| Procs.Ptable.Abandon | kernel/proc.c:186-190 | the slot is free again |
| Procs.Ptable.SetParent | kernel/proc.c:193 | the new process gets its parent |
| Procs.Ptable.Start | kernel/proc.c:215-221 | the new process may run |
| Procs.Ptable.Adopt | kernel/proc.c:251-258 | the children of the exiting process belong to init, whose wait is woken exactly if one of them is a zombie |
| Procs.Ptable.Exit | kernel/proc.c:245-267 | the whole critical section of exit, as a step of a run |
| Procs.Ptable.Wait | kernel/proc.c:278-311 | collects a zombie child exactly when there is one, gives up exactly without children or when killed, else sleeps |
| Procs.Ptable.Sleep | kernel/proc.c:425-450 | the process sleeps on another channel, as a step of a run |
| Procs.Ptable.Switch | kernel/proc.c:321-364 | a process starts or stops running, as a step of a run |
| Procs.Ptable.Kill | kernel/proc.c:486-504 | the first slot with that pid is flagged and no longer asleep; fails exactly when there is none |
| PageTables.Kalloc | kernel/kalloc.c:82-95 | taking the first free frame keeps every frame free once or owned |
| PageTables.Kfree | kernel/kalloc.c:59-77 | so does giving back a frame nothing points to |
| PageTables.NewTable | kernel/vm.c:41-53 | a new page table keeps the owners and the entries in agreement |
| PageTables.PutUser | kernel/vm.c:68-73 | so does mapping a frame into the user half |
| PageTables.ClearUser | kernel/vm.c:268-275 | so does unmapping one, which belongs to that entry alone |
| PageTables.OtherEntries | kernel/vm.c:35-80 | mapping into one address space changes no entry of another |
| PageTables.PagesShown | kernel/vm.c:35-80 | the frames a directory owns as user pages are exactly those its user entries show |
| PageTables.GoneBeside | kernel/vm.c:283-298 | giving a new address space back restores the owners exactly |
| Vm.TablesExact | kernel/vm.c:35-55 | how many page tables a range of pages needs |
| PageTables.GrowthUndone | kernel/vm.c:221-249 | growth that was undone leaves page tables behind and nothing else |
| Vm.Kernel.constructor | kernel/kalloc.c:30-44 | the state before kinit1, all frames in use |
| Vm.Kernel.Freerange | kernel/kalloc.c:46-53 | exactly the whole pages of the range become free |
| Vm.Kernel.Kalloc | kernel/kalloc.c:82-95 | a frame nobody had, or 0 exactly when none is free |
| Vm.Kernel.Kfree | kernel/kalloc.c:59-77 | the frame is overwritten and put in front of the free list |
| Vm.Kernel.Walkpgdir | kernel/vm.c:35-55 | the table for a page, made if asked and missing, for one frame; no entry changes; 0 only when it is missing and not asked for or no frame is free |
| Vm.Kernel.MapPage | kernel/vm.c:68-73 | one entry changes, or none when it is taken or no table can be had |
| Vm.Kernel.Mappages | kernel/vm.c:60-80 | the entries of the pages up to where it stopped map consecutive frames, all other entries and all other address spaces are unchanged; it takes exactly one frame for each table that was missing and stops for want of memory only when they do not suffice |
| Vm.Kernel.MapKernel | kernel/vm.c:111-132 | the kernel's mappings never meet each other, and each succeeds exactly when its missing tables can be had |
| Vm.Kernel.Setupkvm | kernel/vm.c:118-136 | with at least 65 free frames, and only then, a new address space with exactly the kernel half, everything else untouched; on failure every owner and every owned frame is as before |
| Vm.Kernel.FreeRound | kernel/vm.c:265-276 | one round frees one page or skips pages that are not there |
| Vm.Kernel.Deallocuvm | kernel/vm.c:255-279 | exactly the pages between the sizes are freed, as a walk page by page would, in spite of the jump |
| Vm.Kernel.Freevm | kernel/vm.c:283-298 | the directory, its tables and its pages are free, all other frames and owners untouched |
| Vm.Kernel.Allocuvm | kernel/vm.c:221-249 | new zeroed pages on fresh frames between the sizes and nothing else, exactly when there are frames for them and for the missing tables; on failure no page is mapped between the sizes, all other entries are as before and only page tables stay |
| Vm.Kernel.Copyuvm | kernel/vm.c:315-345 | every page of the copy has the bytes and flags of the original on a frame of its own, the rest is the kernel half, the original untouched; succeeds exactly with 65 frames and one for each page and each 1024 pages; on failure every owner and every owned frame is as before |
| FreeList.FreeStep | user/umalloc.c:24-44 | inserting a freed block with merging keeps the list ascending with gaps, and free and live blocks a partition of the units from sbrk |
| FreeList.MallocStep | user/umalloc.c:74-84 | taking a block or its tail keeps them too, and the new block overlaps no live one |
| FreeList.GrowStep | user/umalloc.c:46-61 | a new region joins the partition |
| FreeList.Canonical | user/umalloc.c:24-44 | two lists with the same free units are equal, because free blocks are fully merged |
| FreeList.ListDetermined | user/umalloc.c:24-90 | the free list follows from what was obtained and what is live |
| Umalloc.PayloadFits | user/umalloc.c:69 | the units hold the requested bytes if and only if the request is at most 2^32 - 8 |
| Umalloc.AskIsHonest | user/umalloc.c:52-54 | the byte count given to sbrk is the one meant if and only if it is below 2^28 units |
| Umalloc.FreedHolds | user/umalloc.c:30-43 | the header updates of free turn the circular list into the one with the block inserted and merged |
| Umalloc.Heap.FindPlace | user/umalloc.c:29-32 | the search ends at the one block behind which the freed one belongs |
| Umalloc.Heap.Relink | user/umalloc.c:33-42 | the headers after linking and merging in both directions |
| Umalloc.Heap.Free | user/umalloc.c:24-44 | the block leaves the live ones, everything else stays live, nothing is lost |
| Umalloc.Heap.Morecore | user/umalloc.c:46-61 | the free list gains the region and has a block large enough, or sbrk failed and nothing changed |
| Umalloc.Heap.Malloc | user/umalloc.c:63-90 | a new live block of the right size, after asking for memory at most once and only if no block was large enough; none exactly if sbrk fails then |
| Umalloc.MallocFree | user/umalloc.c:24-90 | freeing what was just allocated gives the very same free list back |
| ShellGrammar.LineWords | user/sh.c:330-449 | the words of the line and the strings of the command are the same, each as often |
| ShellGrammar.WordsInOrder | user/sh.c:268-311 | the words are maximal runs of word characters, in order |
| ShellGrammar.SlicesApart | user/sh.c:330-449 | no two strings of a command overlap |
| ShellParse.LineSound | user/sh.c:347-449 | what recursive descent returns is a command the grammar gives to the tokens it read |
| ShellParse.LineComplete | user/sh.c:347-449 | and it returns every command of the grammar, leaving the tokens behind it |
| ShellParse.ParsesExactly | user/sh.c:330-449 | a whole line is accepted with a command if and only if the grammar gives it that command |
| ShellParse.Unambiguous | user/sh.c:330-449 | no line has two meanings |
| Shell.Parser.Peek | user/sh.c:313-323 | skips spaces and tells whether the next character is one of those asked for |
| Shell.Parser.GetToken | user/sh.c:268-311 | the next token and where it starts and ends; the cursor moves unless at the end |
| Shell.Parser.ParseRedirs | user/sh.c:377-400 | the cursor code refines the parser on tokens: same command, same tokens left, panic exactly on a syntax error |
| Shell.Parser.ParseExec | user/sh.c:418-449 | the same for a command with arguments |
| Shell.Parser.ParseBlock | user/sh.c:402-416 | the same for a block |
| Shell.Parser.ParsePipe | user/sh.c:364-375 | the same for a pipeline |
| Shell.Parser.ParseLine | user/sh.c:347-362 | the same for a line; the parser ends on every input |
| Shell.Parser.Nulterminate | user/sh.c:452-496 | exactly the characters behind the strings of the command become NUL |
| Shell.Parser.ParseCmd | user/sh.c:330-345 | returns the one command the grammar gives to the line and panics exactly when there is none, leaving the buffer alone; the strings of the command do not overlap, and each read from the buffer afterwards is exactly its word |
| Shell.Terminated | user/sh.c:452-496 | no NUL falls into a word |
| Grep.First | user/grep.c:85-97 | a pattern sits at the beginning of a text exactly if its first item covers a piece and the others sit behind it |
| Grep.MatchHere | user/grep.c:85-97 | true exactly if the text begins with pieces that the items of the pattern cover |
| Grep.MatchStar | user/grep.c:100-108 | true exactly if some number of fitting characters can be passed over before the rest sits |
| Grep.Match | user/grep.c:72-82 | true exactly if the pattern means so: at the beginning after '^', else anywhere, also at the end |

## Left out

- Device drivers, interrupts, trap entry, boot code and context switches: hardware setup; the disk is that of `kernel/memide.c`.
- Spinlock internals and memory ordering: taking and releasing a lock is one step.
- Directories, path lookup and link counts: many easy cases.
- The cipher branches of `sys_read` and `sys_write`: no round trip holds there.
- `exec`, `syscall` and argument copying: plumbing around the modelled parts.
- `growproc`: with `-sz` it frees every page and reports failure; allocuvm and deallocuvm are modelled, their caller is not.
- The read loop of `grep` and the rest of the user programs: thin wrappers.
- Overflow of the cipher's `int` arithmetic for huge keys: the key is an unbounded integer.
- Byte order and layout of in-memory structures: only what is on disk is modelled in bytes.
- Interleaving inside one call of the file system: operations interleave between calls, each of which holds its inode's lock.
- FileCrash.Filewrite: no other operation is open, so that each chunk is a commit of its own; `Storage.Storage` has the general case, call by call.
- FileCrash.CipherThenCrash: no other operation is open, and power fails before an `end_op`; inside one it is `Storage.EndThenCrash`. The last transaction, which sets the mark, is in Files.OpenFile.CipherFile.
- Cache.BCache.Bread: the buffer must not be locked by somebody else; waiting for it is part of the waiting machine, not of the cache.
- Mkfs.Builder.Iappend: files of at most NDIRECT + NINDIRECT blocks, because the tool has no double-indirect case.
- Vm.Kernel.Copyuvm: the pages of the original must be there; the code panics otherwise.
- Vm.Kernel.Deallocuvm: sizes above KERNBASE, which no caller passes, are excluded.
- Procs.Ptable: the address space, files and kernel stack of a process are not part of the table; nextpid does not wrap.
- Shell.Parser.ParseExec: nodes are values; that the code fills in the arguments of a node already wrapped is modelled by replacing them inside the wrapping.
- Umalloc.Heap.Malloc: the region sbrk returns is assumed to be new and as large as asked for, which is the case for the sizes of AskIsHonest.
