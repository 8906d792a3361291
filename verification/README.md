# xv6 in Dafny: log, cache, files, processes, pages, heap, shell, pipe, grep

A model of the parts of this xv6 fork that carry state from one call to the next, and
proofs of what those parts promise.  Each component has its own modules:

- `LogDisk`, `LogCode`, `LogStore`, `GroupCommit`: the redo log of log.c.  A disk is a sequence of
  blocks written one block at a time, and a crash may come between any two writes.
- `BufList`, `Bio`, `Coherence`: the buffer cache of bio.c, its linked LRU list, and its
  use by any number of processes.  `LogCache`: the log on top of that cache.
- `FsData`, `Fs`, `FsCode`, `FsFile`, `FsRun`: the free map, the direct, indirect and
  doubly-indirect blocks of files, and file contents (fs.c).
- `Extent`, `ExtentRun`, `ExtentFile`: extent files of fs.c, their truncation and contents.
- `Heap`: the user allocator of umalloc.c.
- `Proc`, `Sleeplock`: process life cycle, sleep and wakeup (proc.c, sleeplock.c).
- `VmState`, `VmCount`, `VmCode`, `VmSpace`: physical pages and page tables (kalloc.c, vm.c).
- `ShellLex`, `ShellGrammar`, `ShellCode`: the shell's parser (sh.c).
- `Pipe`: the pipe of pipe.c.  `Grep`: the matcher of grep.c.
- `CTypes`: machine integers that several modules use.

Code that updates state in place is a class whose methods run the same loops; their
contracts equate the new state with a function of the old one, or state the promised
property, and the lemmas are about those functions and properties.  Code that runs
concurrently is a step system: one step per section that runs under a lock or tests shared
state without one, any number of processes, any interleaving.  The disk, sbrk, the answer of balloc in `Extent` and the
position of the kernel's data are parameters.  A kernel panic, and the shell's panic, is an
outcome of its own.

Where the code does not keep a promise, the model follows the code, and a lemma gives the
exact condition:

- `log_write` can panic for an operation that is within its budget exactly when the log
  area has fewer than LOGSIZE data blocks; mkfs makes it one short
  (`GroupCommit.WritersNeverStarveIff`).
- `log_write` tests the log's length before it takes the lock, so two operations can both
  pass for the last block.  write_log then writes past the log area, and a crash leaves part
  of an uncommitted transaction in a home block.  Operations that keep to their budgets are
  safe from this exactly when the log area has LOGSIZE data blocks, or none
  (`GroupCommit.CrashSafeIff`, with the run of `GroupCommit.OverrunReachable`).
- commit can get a buffer for its first log block exactly when fewer blocks are logged than
  there are buffers; NBUF and LOGSIZE are equal (`LogCache.CommitGetsBufferIff`).
- A pipe reader can be left asleep with data to read exactly when a pipewrite of more than
  PIPESIZE bytes fills the pipe and then gives up (`Pipe.ReaderStrandedIff`).
- `itrunc` frees everything a file owned exactly when the file has no doubly-indirect block
  (`Fs.TruncationFreesAllIff`).
- Extent `bmap` appends the new block exactly when the block is representable: it has 24
  bits or continues the last run, and on an inode without entries it does not continue the
  word before `addrs`, which is the file size (`Extent.AppendIff`).  That last case needs an
  inode with a size and no entries, which no run reaches (`Extent.SoundAppends`).  The
  answer is stable exactly for the block number at the end of the file
  (`Extent.SecondLookupIff`); `Extent.AskedTwice` gives a block number that gets two blocks.
- What `writei` stores in an extent file is read back from where it was asked to go exactly
  when the write starts at most one block past the last one (`ExtentFile.ReadBackIff`).
- `itrunc` takes the packed entries of an extent file for block numbers: it frees exactly the
  file's blocks only if there are none (`ExtentRun.TruncationFreesFileIff`), and can panic
  (`ExtentRun.UnlinkPanics`).
- Bytes beyond the size of a truncated file read as zero later exactly when the file held
  only zeros past the range of its indirect block (`FsRun.TruncationKeepsFilesIff`).
- A failed `allocuvm` leaves the user mappings as they were exactly when no page it was to
  add was mapped already (`VmSpace.AllocFailureIff`); `VmSpace.FailureUnmaps` loses one.
- `kfree` keeps the free list a finite chain exactly when the page was not on it
  (`VmCode.PushChainedIff`).
- malloc's block has room for the request exactly when the request plus 7 does not wrap
  (`Heap.RoomForRequestIff`); the largest request gets one unit
  (`Heap.LargestRequestHasNoRoom`).

## Model

| member | source | states |
|---|---|---|
| LogDisk.CommitStatesAt | log.c:192-202 | the disks commit's loops leave behind, one per block write, are numbered by the 2n + 2 writes |
| LogDisk.InstallKeepsDurable | log.c:69-82 | installing any number of log entries changes no recoverable value and not the header |
| LogDisk.ClearKeepsDurable | log.c:115-122 | clearing the header after a full install changes no recoverable value |
| LogDisk.CopyKeepsDurable | log.c:177-190 | filling the log area while the header is empty changes no recoverable value |
| LogDisk.WithHeaderReadsBack | log.c:84-113 | read_head reads back exactly the entries write_head wrote |
| LogDisk.HeaderWriteCommits | log.c:98-113 | the header write turns every recoverable value into the transaction's newest value of that block |
| LogDisk.CommitIsAtomic | log.c:192-202 | after any k writes of commit, every recoverable value is old if k <= n and new otherwise |
| LogDisk.RecoveryKeepsDurable | log.c:115-122 | recovery cut short after any write changes no recoverable value |
| LogDisk.AttemptsKeepDurable | log.c:115-122 | neither does any chain of recoveries, each cut short anywhere |
| LogDisk.RecoveredIsDurable | log.c:115-122 | a finished recovery leaves every home block at its recoverable value and the log empty |
| LogDisk.CrashAtomicity | log.c:69-122 | a crash after any write of commit, then any crashing recoveries, then one that ends: all blocks old or all new, by whether the header write happened |
| LogCode.Log.WriteLog | log.c:176-190 | the loop writes the cached contents of the logged blocks in order, one disk state per write |
| LogCode.Log.WriteHead | log.c:98-113 | the header block on disk becomes count and entries, other words kept |
| LogCode.Log.InstallTrans | log.c:69-82 | every entry is copied home in order, one disk state per write, and unpinned |
| LogCode.Log.ReadHead | log.c:84-96 | the in-memory header becomes the one on disk |
| LogCode.Log.RecoverFromLog | log.c:115-122 | recovery goes through exactly the recovery states and every block then reads as its recoverable value |
| LogCode.Log.Commit | log.c:192-202 | commit goes through exactly the commit states, and every block reads as before, from disk |
| LogCode.Log.BeginOp | log.c:125-141 | an operation is admitted exactly when no commit runs and its reservation fits LOGSIZE, and sleeps otherwise; a process sleeps only if it would not be admitted |
| LogCode.Log.LogAppend | log.c:223-232 | whatever happened since the tests, the block is logged once and pinned, or the header is full; the log stays in order if and only if it fits its area |
| LogCode.Log.LogWrite | log.c:213-233 | test and append in one go: the block is logged once (absorbed if it was), pinned with its contents, or exactly the two panics |
| LogCode.Log.EndOp | log.c:143-174 | the last operation commits the transaction; every process asleep in begin_op is woken; the panic happens exactly while committing |
| LogCode.CommittedReadsBack | log.c:176-202 | after commit's last write the disk holds what the cache showed |
| LogStore.CommitAdvances | log.c:176-202 | each write of commit, read through the cache and written through it, takes the disk from one numbered commit state to the next and unpins what it installs |
| GroupCommit.StepBooks | log.c:125-233 | every step keeps the in-memory books: operations, commit, waiters, whole operations durable, no block logged twice |
| GroupCommit.StepKeeps | log.c:125-233 | every step whose append has room keeps the whole invariant, of operations, commit, crash and recovery |
| GroupCommit.RunKeeps | log.c:125-233 | the invariant holds in every state of every run whose appends have room |
| GroupCommit.DurableStateIsWholeOps | log.c:143-202 | in such a run what a crash would leave is at all times the effect of whole finished operations, and the disk is written only with none outstanding |
| GroupCommit.ReadsSeeAllWrites | log.c:192-233 | in such a run each block reads as the last write that no crash undid; after recovery the disk holds those values |
| GroupCommit.EndOpNeverPanics | log.c:145-156 | an open operation never meets a commit, so the log.committing panic is unreachable |
| GroupCommit.SpaceIsReserved | log.c:125-141 | while operations keep to MAXOPBLOCKS blocks each, log entries plus unspent budgets stay within LOGSIZE |
| GroupCommit.LoggedOnce | log.c:223-230 | in every run no block is logged twice |
| GroupCommit.WaiterHasWaker | log.c:128-172 | in every run a process asleep in begin_op would not be admitted, and a commit or an open operation is there to wake it |
| GroupCommit.WritersNeverStarveIff | log.c:213-221 | no run of operations that keep to their budgets meets log_write's panic if and only if the log area has LOGSIZE data blocks |
| GroupCommit.FillingReachable | mkfs.c:25 | a run that fills the log up to any number of blocks log_write allows |
| GroupCommit.PromiseHasRoom | log.c:125-141 | operations that keep to their budgets always have room if the log area has LOGSIZE data blocks |
| GroupCommit.UnracedHasRoom | log.c:218-232 | appends that follow their tests at once always have room, whatever the operations do |
| GroupCommit.RaceReachable | log.c:218-232 | two operations within budget pass the tests for the last block and both append |
| GroupCommit.OverrunReachable | log.c:176-190 | write_log then writes past the log area while nothing is committed |
| GroupCommit.CrashSafeIff | log.c:125-233 | every state of every run of operations within budget leaves whole operations after a crash, if and only if the log area has LOGSIZE data blocks or none |
| BufList.UnlinkKeeps | bio.c:132-133 | unlinking a node leaves a well-formed circle without it |
| BufList.InsertKeeps | bio.c:134-137 | inserting at the head leaves a well-formed circle with the node first |
| BufList.ToFrontComplete | bio.c:130-138 | moving a buffer to the head keeps every buffer in the list exactly once |
| Bio.FindRange | bio.c:68-76 | the forward search returns the first buffer of the block, or none has it |
| Bio.VictimRange | bio.c:78-92 | the backward search returns the last recyclable buffer, or none is |
| Bio.BufferCache.constructor | bio.c:38-56 | binit links each buffer once, the last one first |
| Bio.BufferCache.Lookup | bio.c:68-76 | the walk over next links computes the forward search |
| Bio.BufferCache.FindVictim | bio.c:78-92 | the walk over prev links computes the backward search |
| Bio.BufferCache.Bget | bio.c:58-93 | hit, recycle or panic, with the exact new buffer fields and the order unchanged |
| Bio.BufferCache.InsertFront | bio.c:49-55 | the four link writes put the buffer first and keep the circle |
| Bio.BufferCache.Unlink | bio.c:132-133 | the two link writes take the buffer out and keep the circle |
| Bio.BufferCache.Drop | bio.c:118-141 | one reference less; at zero the buffer moves to the head and the links stay a full circle |
| Coherence.StepKeeps | bio.c:58-141 | every step of bget, locking, reading, changing, logging, writing and releasing keeps the cache invariant |
| Coherence.RunKeeps | bio.c:58-141 | the cache invariant holds in every state of every run |
| Coherence.BreadReturnsLatest | bio.c:95-106 | in every run a locked, read buffer holds the last value written to the block it was asked for |
| Coherence.CacheIsCoherent | bio.c:58-141 | one buffer per block, transaction blocks stay cached and dirty, other idle valid buffers equal the disk |
| Coherence.RecyclesLeastRecent | bio.c:78-91 | bget recycles the idle clean buffer whose count fell to zero longest ago, and panics only if there is none |
| Coherence.StepRefinesStore | log.c:213-233 | through the cache, log_write and bwrite act on one flat store of disk and pinned blocks, and nothing else changes it |
| Coherence.UndirtyIsDisk | memide.c:36-60 | a valid, clean, unlocked buffer holds what the disk holds |
| LogCache.RunIsStore | log.c:213-233 | every run of the cache is a run of the flat store of log.c's model: log_write pins, bwrite writes through, nothing else changes it, and locked unchanged buffers read from it |
| LogCache.CommitThroughCache | log.c:176-202 | in every run of the cache, commit's writes leave the disk in exactly the numbered commit states, with the values the cache showed when commit began |
| LogCache.CrashThroughCache | log.c:69-202 | stop such a run anywhere, crash any recoveries, finish one: all home blocks as on disk before commit, or all as the cache showed them |
| LogCache.CommitGetsBufferIff | bio.c:58-92 | with no other buffer in use, bget finds a buffer for a block that is not logged if and only if fewer blocks are logged than there are buffers |
| FsData.WordOfWithWord | fs.c:461-466 | storing a 32-bit entry in a block changes that entry and no other |
| FsData.BitOfWithBit | fs.c:65-68 | setting or clearing a bit of the free map changes that bit and no other |
| Fs.TakenKeepsOwned | fs.c:53-78 | taking a free block keeps the ownership of all blocks and marks exactly that block |
| Fs.FilledRefs | fs.c:447-503 | storing a new block's number in an empty slot changes that slot and no other slot of any file |
| Fs.FilledKeepsOwned | fs.c:447-503 | it keeps all blocks of all files marked and pairwise distinct |
| Fs.FillExtends | fs.c:447-503 | and it keeps the data of every file |
| Fs.ExtendsTrans | fs.c:447-503 | so does any sequence of such fills on one path |
| Fs.NextIsMarked | fs.c:512-539 | the next block itrunc frees is marked, so bfree does not panic |
| Fs.TruncationDone | fs.c:505-539 | the end state of itrunc frees exactly the direct and indirect blocks and keeps ownership |
| Fs.TruncationFreesAllIff | fs.c:505-539 | every block the file owned is free afterwards if and only if addrs[NDIRECT+1] was zero |
| FsCode.DataSlotInjective | fs.c:447-503 | different block indexes use different slots |
| FsCode.DataSlotOnto | fs.c:447-503 | every data slot belongs to some block index |
| FsCode.FileSystem.Balloc | fs.c:53-78 | the two loops take, mark and zero the first free block, and panic exactly if there is none |
| FsCode.FileSystem.Bfree | fs.c:80-95 | clears the block's bit and no other, and panics exactly on a free block |
| FsCode.FileSystem.Bmap | fs.c:447-503 | returns the address for the index: of the inode below 11, of a word of the block of address 11 below 139, and of a word of a block named by the block of address 12 beyond; filled if it was empty; ownership and all data kept; newly marked blocks are exactly those now on the path; panics exactly out of range, or out of blocks with the index unmapped |
| FsCode.PlaceOf | fs.c:447-503 | a mapped index is at that place of the inode and the blocks |
| FsCode.FileSystem.AddrOf | fs.c:447-451 | the load-or-allocate step on an inode address |
| FsCode.FileSystem.EntryOf | fs.c:461-468 | the load-or-allocate step on an entry of an indirect block |
| FsCode.FileSystem.FreeEntries | fs.c:525-531 | the loop over the indirect block frees each entry's block once |
| FsCode.FileSystem.FreeDirect | fs.c:518-523 | the loop over the direct addresses frees and clears each |
| FsCode.FileSystem.Itrunc | fs.c:505-539 | frees exactly the direct and indirect blocks, never reaches the freeing-free-block panic, keeps all other files |
| FsFile.PutKeepsOwned | fs.c:607-613 | overwriting a data block keeps ownership |
| FsFile.PatchByte | fs.c:607-613 | patching part of a block changes exactly those bytes of that file |
| FsFile.RawDone | fs.c:607-618 | a finished write leaves exactly the source bytes in range, every other stored byte of every file, and the larger size |
| FsFile.WriteDone | fs.c:582-620 | such a write leaves contents overwritten with a zero-filled gap, all other files as they were, and zeros beyond every size |
| FsFile.ExtendsKeepsRaw | fs.c:447-503 | filling holes changes no stored byte of any file |
| FsFile.ByteIsIn | fs.c:447-503 | byte k of a file is byte k % 512 of the block that index k / 512 names through the inode and its blocks, or 0 in a hole |
| FsFile.SameRawKeepsFiles | fs.c:447-503 | so it changes no file's contents |
| FsFile.OverwrittenAt | fs.c:582-620 | the written file byte by byte: source bytes inside the range, old bytes or zeros outside |
| FsFile.Writei | fs.c:583-620 | contents become the old ones overwritten at off; -1 exactly on the 32-bit size test; panics only past bmap's range, or with every block marked and a hole in the range |
| FsFile.Readi | fs.c:554-580 | returns exactly the slice of the contents; -1 exactly on its two tests; panics only with every block marked and a hole in the range; no file's contents change |
| FsFile.BlockIsSlice | fs.c:573-578 | part of one block is the matching slice of the contents |
| FsRun.Execute | fs.c:447-620 | any sequence of bmap, itrunc, readi and writei calls: all blocks of all files stay marked and distinct; mapped blocks of files not truncated stay in place; every file is the replay of the calls on its stored bytes, and on a plain byte sequence if its truncations were clean; every read returns the slice of what was there; it stops at each call out of bmap's range, and else only at one that meets a hole with every block marked |
| FsRun.Call | fs.c:447-620 | one call does exactly its effect on every file's stored bytes; it panics out of bmap's range and else only on a hole with every block marked; itrunc never does |
| FsRun.MapIsInjective | fs.c:447-503 | equal block numbers mean the same file and the same index |
| FsRun.ReplayIsPlain | fs.c:505-620 | replaying calls on stored bytes is replaying them on a plain byte sequence, over every run whose truncations are clean |
| FsRun.TruncIsPlainIff | fs.c:505-539 | a truncation leaves only zeros beyond the size if and only if the file was clean |
| FsRun.FilesRefineBytes | fs.c:505-620 | so what a run leaves in a file is the replay on its contents |
| FsRun.TruncationKeepsFilesIff | fs.c:505-539 | zeros beyond every size survive itrunc if and only if the file held only zeros past the indirect range |
| FsRun.TruncationLeaks | fs.c:505-539 | a file whose itrunc leaves three blocks marked and a non-zero byte beyond the size |
| FsRun.SmallVolumeIsOk | fs.c:53-95 | that file is in a sound volume with zeros beyond its size |
| Extent.PackRoundTripIff | fs.c:361-373 | packing keeps the length always and the address exactly when it has 24 bits |
| Extent.UnpackRoundTrip | fs.c:361-373 | unpacking and packing an entry gives it back |
| Extent.NextRun | fs.c:402-420 | an entry's blocks follow those of the entries before it in the list |
| Extent.ExtentInode.Search | fs.c:400-420 | the loop finds block bn of the decoded list, or the first free entry |
| Extent.ExtentInode.Bmap | fs.c:396-443 | inside the list: its element and no change; past it: exactly the append or, with 12 entries in use, the panic |
| Extent.ExtentInode.Append | fs.c:428-442 | merges the new block into the word before the first free entry or opens an entry |
| Extent.AppendIff | fs.c:428-442 | the list grows by exactly the new block, earlier translations kept, if and only if the block is representable |
| Extent.SecondLookupIff | fs.c:396-443 | asking again gives the added block if and only if it was asked for at the end of the list |
| Extent.AskedTwice | fs.c:396-443 | block 1 of an empty file, asked for twice, is two different blocks |
| Extent.SoundAppends | fs.c:428-442 | from an inode that has a size only if it has entries, every block below 2^24 is appended and the size is never taken for an entry |
| ExtentRun.FreeAllMarks | fs.c:80-95 | what a sequence of bfree calls frees was marked, and no other mark changes |
| ExtentRun.Itrunc | fs.c:511-539 | on an extent file itrunc frees every packed entry as a block number, and the words of the block that entry NDIRECT names; then the inode is empty, or a bfree or the disk panicked |
| ExtentRun.TruncationFreesFileIff | fs.c:511-539 | itrunc unmarks exactly the file's blocks if and only if the file has none |
| ExtentRun.UnlinkPanics | fs.c:518-523 | a file of one block whose itrunc panics |
| ExtentRun.Execute | fs.c:396-539 | any sequence of bmap calls, size updates and truncations: the entries stand for the plain list, lookups are answered from it, and the panic comes exactly with twelve entries in use or inside itrunc |
| ExtentFile.File.Bmap | fs.c:396-443 | the block of the index, or a zeroed one at the end of the list; all data kept; the panic exactly past the list with twelve entries in use or no block left |
| ExtentFile.WroteMore | fs.c:607-613 | one round of writei continues where the last one ended, also in a write that lands early |
| ExtentFile.File.Writei | fs.c:585-620 | exactly the source bytes are stored, at the offset asked for or, past the end of the list, at the end of the list; all other bytes kept; the size as if they had gone where asked; takes exactly the blocks that the landing range lacks; panics exactly if there are too few of them or entries run out |
| ExtentFile.WriteIsOverwritten | fs.c:585-620 | a write that starts at most one block past the end leaves the contents overwritten at its offset |
| ExtentFile.ReadBackIff | fs.c:585-620 | all writes at an offset are read back from it if and only if it is at most one block past the end |
| ExtentFile.File.Readi | fs.c:556-580 | returns exactly the slice of the contents; -1 exactly on its two tests; no byte changes; adds a block for every index past the list, and panics exactly if it cannot |
| Heap.FreeKeepsSound | umalloc.c:24-44 | merging a live block into the list keeps it sorted, apart from live blocks, without adjacent blocks, and tiling all memory |
| Heap.TakeKeepsSound | umalloc.c:63-90 | cutting a request off the end of a free block keeps the same |
| Heap.GrowKeepsSound | umalloc.c:46-61 | memory from sbrk enters without overlap |
| Heap.Allocator.FindPlace | umalloc.c:29-32 | the walk of free ends at the block after which the address belongs |
| Heap.Allocator.Coalesce | umalloc.c:33-42 | the header writes merge with the upper and lower neighbours as they touch |
| Heap.Allocator.Free | umalloc.c:24-44 | exactly the freed block leaves the live set and heap integrity is kept |
| Heap.Allocator.MoreCore | umalloc.c:46-61 | adds exactly what sbrk returned, at least the request, or fails with sbrk |
| Heap.Allocator.Search | umalloc.c:73-88 | one turn around the circle finds a block large enough, or none is |
| Heap.Allocator.Take | umalloc.c:74-83 | the taken units become live and the rest stays a sound heap |
| Heap.Allocator.Allocate | umalloc.c:73-89 | the loop ends: with a new live block, or with NULL when no block fits and sbrk fails |
| Heap.Allocator.Malloc | umalloc.c:63-90 | heap integrity over every call; fresh memory is used exactly when no free block is large enough |
| Heap.Allocator.constructor | umalloc.c:21-22 | the heap before the first call is empty and sound |
| Heap.RoomForRequestIff | umalloc.c:69 | the units handed out hold nbytes if and only if nbytes + 7 does not wrap |
| Heap.LargestRequestHasNoRoom | umalloc.c:69 | a request of 2^32 - 1 bytes counts as one unit |
| Sleeplock.AcquireKeeps | sleeplock.c:22-33 | each step of acquiresleep keeps the invariant of any process and lock; what it returns with is AcquireReturns |
| Sleeplock.SleepKeeps | proc.c:513-549 | each step of sleep keeps it |
| Sleeplock.ReleaseKeeps | sleeplock.c:35-43 | each step of releasesleep and its wakeup keeps it |
| Sleeplock.StepKeeps | proc.c:513-593 | every step, of kill and the scheduler too, keeps the whole invariant |
| Sleeplock.RunKeeps | proc.c:513-593 | the invariant holds in every state of every run |
| Sleeplock.NoLostWakeup | proc.c:513-569 | whenever the inner lock is free and the sleep-lock is not taken, no process sleeps on it |
| Sleeplock.HeldByOne | sleeplock.c:45-54 | at most one process holds the lock, and holdingsleep's test says whether the caller does |
| Sleeplock.AcquireReturns | sleeplock.c:22-33 | in every run acquiresleep goes on until it returns, and when it returns the caller has the lock |
| Sleeplock.ReleaseReturns | sleeplock.c:35-43 | releasesleep goes on until it returns, and then the caller does not have the lock |
| Sleeplock.BetweenHolds | sleeplock.c:22-43 | from the return of acquiresleep to the call of releasesleep the lock stays with the caller, whatever others do |
| Sleeplock.OneBetween | sleeplock.c:22-43 | no two processes are between acquiresleep and releasesleep of one lock at once |
| Sleeplock.FreeLockIsTaken | sleeplock.c:22-33 | an undisturbed acquiresleep of a free lock returns with it taken |
| Sleeplock.SleeperHasWaker | sleeplock.c:35-43 | a sleeper waits for a taken lock or for a wakeup that is about to run |
| Proc.Table.Wakeup1 | proc.c:551-561 | each process asleep on the channel becomes runnable; nothing else of it changes, and no other process changes |
| Proc.Table.AllocProc | proc.c:79-98 | the first unused slot becomes an embryo with the next pid, or none is unused |
| Proc.Table.Exit | proc.c:244-291 | panics exactly for init; otherwise the caller is a zombie, its children are init's, every sleeper on its parent's channel, and on init's if an exited child was handed over, is runnable, and nothing else changes |
| Proc.Table.Wait | proc.c:294-336 | reaps the first exited child, whose pid it returns and whose slot alone becomes unused; gives up exactly without children or when killed; or sleeps on itself |
| Proc.Table.Kill | proc.c:571-593 | the first process with the pid is marked, and runnable if it slept; no other process changes; -1 exactly if there is none |
| Proc.StepKeeps | proc.c:190-336 | every section of fork, exit, wait, sleep, wakeup, kill and the scheduler keeps the invariant |
| Proc.RunKeeps | proc.c:190-336 | the invariant holds in every state of every run |
| Proc.NoLostChildExit | proc.c:266-336 | a process asleep in wait has no exited child, inherited ones included |
| Proc.ParentsAreAlive | proc.c:266-291 | the parent of a live or exited process, init aside, is alive |
| Proc.EveryoneDescendsFromInit | proc.c:190-291 | every live or exited process descends from init |
| Proc.PidsAreUnique | proc.c:79-98 | no two slots in use share a pid |
| Proc.WakeupLeavesNone | proc.c:551-569 | in every run a wakeup leaves no process asleep on its channel and changes nothing else |
| Proc.KillReaches | proc.c:571-593 | in every run a kill marks the one process with the pid and leaves it awake |
| Proc.KilledStays | proc.c:294-336 | a killed process stays marked until its slot is free, and wait never puts it to sleep |
| Proc.SleepsOn | proc.c:513-593 | in every run a process asleep on a channel that is not a process sleeps on until a wakeup of that channel or a kill of its pid |
| Proc.ForkMakesChild | proc.c:190-242 | fork, where nothing fails, makes the first unused slot a runnable process with the next pid and the caller as parent, and changes no other slot |
| VmState.OwnersArePlaces | vm.c:222-299 | each page is a table, or a user page, exactly when its owner says so |
| VmState.MappedOnce | vm.c:222-346 | no page is mapped twice, in one address space or in two |
| VmState.SwapKeeps | kalloc.c:55-95 | moving a page between free list and hand, with any contents, disturbs no page table |
| VmState.AddTableKeeps | vm.c:44-54 | adding a zeroed page table keeps ownership and every translation |
| VmState.SetUserKeeps | vm.c:72-74 | mapping a page in hand keeps ownership |
| VmState.SetKernelKeeps | vm.c:72-74 | a kernel mapping owns nothing and keeps ownership |
| VmState.SetPte | vm.c:72-74 | writing an entry changes one translation of one directory |
| VmState.DropOne | vm.c:271-276 | freeing a mapped page and clearing its entry gives up exactly that page |
| VmState.DropNone | vm.c:266-270 | where nothing is mapped nothing is given up |
| VmState.FreevmDone | vm.c:282-299 | user pages, tables and directory together are exactly the pages of the address space |
| VmState.NewSpaceUndone | vm.c:119-137 | building an address space and freeing it restores every owner, all contents and all translations |
| VmState.KernelView | vm.c:106-116 | kmap shows all physical memory at KERNBASE, devices at DEVSPACE and nothing else |
| VmState.KernelPerms | vm.c:106-116 | from KERNBASE up no mapped page is the user's, and exactly the kernel's text is not writable |
| VmState.RowIsFresh | vm.c:106-116 | the rows of kmap do not overlap, so mappages does not panic |
| VmCode.PushChainedIff | kalloc.c:66-73 | after pushing a page the free list is a finite chain without repetition if and only if the page was not on it |
| VmCode.PopChained | kalloc.c:89-91 | so does popping |
| VmCode.Machine.constructor | kalloc.c:31-44 | before kinit1 the free list is empty |
| VmCode.Machine.Kfree | kalloc.c:55-77 | the page is junked and becomes the head of the list; panics exactly outside the allocatable pages |
| VmCode.Machine.Kalloc | kalloc.c:79-95 | the head of the list leaves it, or the list is empty and 0 is returned |
| VmCode.Machine.Freerange | kalloc.c:46-53 | exactly the pages of the range become free |
| VmCode.Machine.Walk | vm.c:32-55 | finds or creates the table of a page; a new table is zeroed, takes one page and is entered present, writable and for the user; no translation and no other directory entry changes; 0 exactly without a table and without memory to make one |
| VmCode.Machine.MapOne | vm.c:70-75 | one entry is set; or there is no memory for a table; or the panic, exactly if the page was mapped |
| VmCount.MissingIsCount | vm.c:40-53 | the number of tables a range of directory entries lacks is the number of entries that are not present |
| VmCount.TablesNext | vm.c:40-53 | one more page needs a table exactly if the directory, with the tables made so far, lacks it |
| VmCount.RowTables | vm.c:106-116 | how many tables each row of kmap adds: 56 up to the end of memory and 8 for the devices |
| VmCode.Machine.Mappages | vm.c:57-81 | consecutive frames are mapped, all other translations kept; takes exactly the tables that were missing; out of memory only with fewer free pages than that; the remap panic exactly at a page that was mapped |
| VmCode.Machine.Setupkvm | vm.c:118-137 | a new space with exactly kmap's mappings, for 65 pages; or everything as it was, exactly with fewer than 65 pages free |
| VmCode.SkipVisits | vm.c:268-270 | visiting the pages of a missing table does nothing |
| VmCode.Machine.DropPage | vm.c:271-276 | a mapped user page is freed and its entry cleared, and kfree does not panic; a page of the kernel image is the panic |
| VmCode.Machine.DeallocStep | vm.c:265-278 | one round of the loop, with or without the skip, does what visiting each page does |
| VmCode.Machine.Deallocuvm | vm.c:252-280 | the loop with its 4 MB skip ends and equals visiting every page; exactly the user pages of the range are freed; it panics exactly on a range that reaches the kernel |
| VmCode.Machine.FreeTables | vm.c:291-297 | the loop over the directory frees exactly its tables |
| VmCode.Machine.Freevm | vm.c:282-299 | exactly the pages of the address space become free, all else is kept |
| VmSpace.AllocNext | vm.c:233-248 | one more page: zeroed, for the user, taken from the free list |
| VmCount.TakenNext | vm.c:233-248 | mapping a page leaves the free pages as far from what any longer range needs as before |
| VmSpace.AllocUndone | vm.c:234-247 | the failure exits leave nothing mapped in the range |
| VmSpace.Allocuvm | vm.c:220-250 | the whole range maps new zeroed pages, for one page each and one for each missing table, and all else is kept; or the failure state, only with fewer pages free; or the remap panic, exactly if memory lasts to the first mapped page of the range |
| VmSpace.AllocFailureIff | vm.c:234-247 | a failed call leaves the user mappings as they were if and only if no page of the range was mapped |
| VmSpace.FailureUnmaps | vm.c:234-247 | a space whose page 1 is mapped loses it in a failed call |
| VmSpace.CopyNext | vm.c:326-340 | one more page with the parent's contents and flags |
| VmSpace.Copyuvm | vm.c:314-346 | the child has the parent's bytes and flags on every page, nothing else, and the kernel, for 65 pages, one per page and one per 1024 of them; or 0, only with fewer pages free, and every page has its old owner, contents and translations; or the panic, exactly if memory lasts to the first page that is not present; beyond KERNBASE it never succeeds |
| VmSpace.NothingShared | vm.c:326-340 | no page of the child is a page of the parent |
| ShellLex.WordsAreWords | sh.c:262-263 | the listed words are exactly the maximal runs of word characters, each once |
| ShellLex.WordToken | sh.c:295-299 | a word token holds exactly that word |
| ShellGrammar.ParsesIff | sh.c:327-446 | the parser accepts a line with a tree if and only if the grammar derives that tree and no command has MAXARGS arguments; in the grammar < opens for reading as descriptor 0, and > and >> for writing and creating as descriptor 1 |
| ShellGrammar.OneTree | sh.c:344-446 | a line has at most one tree |
| ShellGrammar.LineComplete | sh.c:344-359 | every derivation of a line is found |
| ShellGrammar.LineSound | sh.c:344-359 | every line found is a derivation |
| ShellGrammar.ParseKeepsWords | sh.c:327-446 | every word of an accepted line is in the tree exactly once |
| ShellCode.Gettoken | sh.c:265-308 | returns the next token: a symbol, + exactly for >>, a maximal run of word characters, or the end; only whitespace is skipped before and after it |
| ShellCode.PeekFor | sh.c:310-320 | skips whitespace and tests the next character |
| ShellCode.Parseline | sh.c:344-359 | computes the parse of a line; the recursion ends |
| ShellCode.Parsepipe | sh.c:361-372 | computes the parse of a pipe |
| ShellCode.Parseredirs | sh.c:374-397 | computes the redirections around a command, or the missing-file panic |
| ShellCode.Parseblock | sh.c:399-413 | computes the parse of a block, or the panic at either missing parenthesis |
| ShellCode.Parseexec | sh.c:415-446 | computes the parse of a command with words and redirections in any order, or its panics |
| ShellCode.Nulterminate | sh.c:448-493 | writes a NUL at the end of every word of the tree and nowhere else |
| ShellCode.WordReadsBack | sh.c:448-493 | every word of the tree then reads back as its own text |
| ShellCode.Parsecmd | sh.c:327-342 | accepts exactly the lines the parser accepts; then every argument and file name in the buffer reads back as its token |
| Pipe.RunIsFifo | pipe.c:77-121 | in every run the bytes read are a prefix of the bytes stored, at most PIPESIZE are held, and writers sleep only on a full open pipe |
| Pipe.CallStoresItsBytes | pipe.c:77-98 | in every run the sections of one pipewrite call put in, together and in order, exactly the bytes of addr up to where the call stands, and all n when it is done |
| Pipe.ReadsArePrefixOfWrites | pipe.c:77-121 | what readers got is, in order, the beginning of what the sections of pipewrite put in |
| Pipe.ReaderStrandedIff | pipe.c:84-98 | each section keeps readers asleep only on an empty open pipe, if and only if it is not a pipewrite that fills the pipe and gives up |
| Pipe.RunNeverStrandsReader | pipe.c:77-121 | without such a section no run leaves a reader asleep |
| Pipe.StrandedReaderRun | pipe.c:84-92 | a run that leaves a reader asleep before 512 bytes |
| Pipe.EmptyReadMeansClosed | pipe.c:100-121 | a read of n > 0 bytes returns 0 only from a drained pipe without a writer |
| Pipe.RingIndex | pipe.c:93 | the wrapping counter indexes the ring as the true count would |
| Pipe.WrappedCompare | pipe.c:85 | the wrapped counters tell full and empty as the true counts would |
| Pipe.Ring.constructor | pipe.c:22-45 | a new pipe is empty and open |
| Pipe.Ring.Put | pipe.c:93 | the ring stores the byte after those held |
| Pipe.Ring.Get | pipe.c:116 | the ring returns the oldest byte held |
| Pipe.Ring.Pipewrite | pipe.c:77-98 | a section of pipewrite puts in the bytes of addr from where the call stood to where it now stands, as many as fit, and finishes; or, full, fails exactly if the readers are gone or the caller is killed, and else sleeps; readers are woken unless it fails |
| Pipe.Ring.Piperead | pipe.c:100-121 | a section of piperead returns the oldest bytes held, as many as are there and asked for, and wakes the writers; or, empty and open, fails exactly if the caller is killed, and else sleeps |
| Pipe.Ring.Pipeclose | pipe.c:59-75 | one end closes, the other stays as it was, and the sleepers of the other end wake; the pipe is freed exactly if the other end was closed |
| Grep.MatchHere | grep.c:84-96 | true exactly if the pattern's meaning fits the start of the text |
| Grep.MatchStar | grep.c:98-106 | true exactly if some repetition count of the character leaves a match |
| Grep.Match | grep.c:72-82 | true exactly if the meaning of literals, dot, star and the anchors holds at the start or at some suffix |
| Grep.StarItem | grep.c:89-90 | the meaning of c* is the existence of a repetition count |
| Grep.OneItem | grep.c:93-94 | the meaning of a literal or dot |

## Left out

- Hardware and boot code, interrupts, console.c, mkfs.c, the user utilities and the tests.
- Copies between disk inode and memory inode (fs.c:233, fs.c:306): the disk inode has 12
  addresses and the memory inode 13.
- Directories, path names, symbolic links, device files and sysfile.c, filewrite's loop of
  file.c among them.
- The buffer that the doubly-indirect path of bmap does not release (fs.c:488-499): `Fs`
  models block contents without buffer locks.
- grep's line buffering (grep.c:10-36).
- clone, the FIFO and PRIORITY schedulers, page-fault handling and sys_sbrk.
- Context switch, interrupt flags and memory ordering: a spinlock is an atomic step.
- Memory for fork: whether kalloc and copyuvm succeed is a choice of the step system.
- Heap.Allocator.Malloc: a request of 2^31 bytes or more that no free block can hold is not
  covered, because malloc would then ask sbrk for a negative amount.
- Bio.BufferCache.Bget: stops before acquiresleep, which is the Lock step of `Coherence` and
  the subject of `Sleeplock`.
- Bio.BufferCache.Drop: starts after the holdingsleep test and releasesleep, which are the
  Unlock step of `Coherence`.
- VmCode.Machine.Kfree: pages are frame numbers, so the panic on an address that is not
  page-aligned cannot arise; the PHYSTOP test of setupkvm (vm.c:128) is decided by constants.
- VmCode.Machine.Mappages: addresses are page numbers, and pages mapped below KERNBASE are
  pages taken from kalloc, as in every call.
- VmCode.Machine.DropPage: pages above the kernel image are not covered; freeing them would
  take pages in use.
- VmCode.Machine.DeallocStep: the same.
- VmCode.Machine.Deallocuvm: a range that starts above the kernel image is not covered, as
  for DropPage.
- VmSpace.Copyuvm: with a size beyond KERNBASE the parent's entry there names a page of
  physical memory, as kmap's does.
- FsCode.FileSystem.Bmap: regular files only; extent files are the module Extent, where the
  block that balloc returns is a parameter.
- ShellCode.Parseexec: the exec node that parseexec fills while redirections already point
  to it is modelled on values, so the aliasing of that node is not.
- Proc.StepKeeps: pids do not overflow, and yield and dispatch are single steps.
- Sleeplock.StepKeeps: a process is not preempted inside sleep or while it holds a spinlock.
- Proc.Table.Wait: freeing the child's stack and page table is not part of the process table.
- Proc.Table.Exit: closing files and the working directory is not modelled.
- LogCode.Log.LogWrite: no other append comes between its tests and its own; LogTest,
  LogAppend and `GroupCommit` are about those that do.
- GroupCommit.StepBooks: log_write's tests read the log's length at one instant; the commit of
  a header of more than LOGSIZE entries, and recovery from a header that does not fit the log
  area, are not modelled.
- ExtentRun.Itrunc: a bfree that needs the buffer of the block taken for the indirect one
  would wait for itself; the model reads on.
- ExtentFile.File.Writei: offset and length together stay below 2^32.
