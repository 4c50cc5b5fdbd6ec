# A verified model of the xv6 x86-64 kernel's core and of its user library's algorithms

This project models, in Dafny 4.11, the parts of the system whose correctness is hardest to see
from the code, and proves what they are for:

- **Storage stack.** `BufferCache.dfy` is the LRU buffer cache, `Log.dfy` the redo log with crash
  recovery on top of it, `DiskFormat.dfy` the on-disk format, `FileSystem.dfy` block allocation,
  block mapping, truncation and file content, `File.dfy` the chunking of writes into transactions,
  `Crash.dfy` what a crash during a write leaves of the files, `Path.dfy` directories, path names and
  inode references, `Mkfs.dfy` the image builder, `BlockCount.dfy` how many blocks a file takes.
- **User-mode allocator.** `Umalloc.dfy` is the circular, address-ordered, coalescing free list.
- **Processes and pipes.** `Proc.dfy` and `Pipe.dfy` are machines of small steps; their theorems
  are about every interleaving. `PipeCalls.dfy` says what read and write of a pipe do for their callers.
- **Address spaces.** `Vm.dfy` is the page directory with its tables below and above, fork's copy,
  growth and release.
- **Algorithms.** `Shell.dfy` (command parser) and `ShellGrammar.dfy` (the language it parses),
  `Lzw.dfy` (GIF decompression), `LzwEncode.dfy` (an encoder that it inverts) and `LzwOverflow.dfy`,
  `HashTable.dfy`, `Regex.dfy` and `Line.dfy`.

Check the whole project with `dafny verify dfyconfig.toml`.

## How the model reads

Code that changes things in place is a class or works on arrays, with loops and their invariants;
each such method is proved against a function or a predicate on values, and the theorems are
lemmas about those. Concurrent code is a state machine: one step is what the code does between
two points where it waits for, takes or gives up a lock.

- A `panic` is a result: `false`, `-1`, `-2` or a constructor, as the comment on the method says.
  Sleeping is a result too (`MustSleep`, `BeginTrans` returning false): one pass of the loop is
  modelled.
- `iderw` is an atomic read or write of one block. A crash may come between any two block writes.
- Disk contents are sequences of blocks of 1024 bytes; 16- and 32-bit fields are stored byte by byte.
  `short` fields of inodes are kept as 16-bit patterns.
- Some invariants stand behind `forall k :: Look(k) ==> ...` with a predicate of `Guard.dfy` that is
  always true. This changes nothing about what they say; it only keeps the solver from unfolding them
  where they are not needed. `Sets.dfy` holds the counting facts that several modules use.
- `FileSystem.dfy` works on the disk as cache and log present it (a read sees the last log_write of
  the block), which is what `BufferCache` and `Log` prove of them. `writes` records the calls of
  log_write and `logged` their sectors.
- The inode table in `FileSystem.dfy` is the in-memory copy of the inode in use and the disk's copy
  of the others; `owner` is a ghost map from each block in use to the slot that names it.

Where the code does not do what one would expect, the model follows the code and the exact
condition is a theorem:

- `CarelessBreaks`, `CarelessHappens`: a writer killed inside pipewrite can leave a reader asleep on
  a full pipe; on all other runs nobody sleeps without reason (`PipeSafe`). The order of the bytes
  and what the calls return do not depend on it (`FirstInFirstOut`, `Pipewrite`, `Piperead`).
- `UpStep`, `KilledAwake`, `UnnoticedHappens`: a kill that comes between a pipe call's test of
  proc->killed and its sleep goes unnoticed, and the killed process sleeps; without such a kill no
  killed process sleeps in a pipe.
- `RootSizeFix`: mkfs's rounding of the root directory's size keeps the kernel's invariant exactly
  if the size was not already a multiple of the block size; `RoundingBreaks` builds an image with a
  root of 64 entries, where it does not.
- `BallocData`: balloc hands out a data block exactly if a bit below the log is clear. On a full disk
  with the log's bits clear it hands out the log's header block and zeroes it (`BallocWhenFull`); mkfs
  leaves those bits clear, and a full image exists (`BallocOnFull`, `FullImage`).
- `ThoroughExactly`: deallocuvm's jump over a missing page table may pass over pages of the next one;
  `PassesOver` runs it over one.
- `AllocUvm`: allocuvm does not look at the result of mappages. If memory runs out at a page table, the
  page in hand is lost (`Strands`, `LossHappens`), and the tables made on the way stay. If that page is
  the last one, success is reported with it missing (`OneShort`, `OneShortHappens`).
- `CopyUvm`: when memory runs out, the two upper tables stay lost, and a third page exactly if the free
  pages besides those of setupkvm leave the remainder 1 modulo 513 (`Stranded`).
- `Decode` ends in `Overflow` at a 4097th dictionary entry, because the decoder's test for a full
  table never holds: `Uncompress` then is about to write just past the dictionary. A count of the
  codes since the last clear code tells which streams get there (`OverflowExactly`); every stream of
  6144 zero bytes does (`OverflowHappens`).
- `>>` is parsed like `>` (user/sh.c:392-394), which the grammar in `ShellGrammar.dfy` says outright.

## Model

| member | source | states |
|---|---|---|
| `BufferCache.Cache.constructor` | kernel/bio.c:47-66 | binit leaves a valid cache: the list is one ring of all buffers, nothing held or pinned, and it shows the disk |
| `BufferCache.Cache.Lookup` | kernel/bio.c:81-95 | the walk along next finds the buffer that caches the block, if there is one, and terminates |
| `BufferCache.Cache.Victim` | kernel/bio.c:98-115 | the walk along prev finds the least recently released buffer that is neither busy nor dirty, and the panic means there is none |
| `BufferCache.Cache.Bget` | kernel/bio.c:71-117 | at most one buffer per block; a miss recycles only a clean buffer, the least recently released one; every other buffer is untouched |
| `BufferCache.Cache.Bread` | kernel/bio.c:122-135 | a read returns the data last passed to bwrite or log_write for the block, else the disk's |
| `BufferCache.Cache.Fill` | kernel/log.c:164-171 | a holder's change of its buffer's data is what the cache shows from then on |
| `BufferCache.Cache.Bwrite` | kernel/bio.c:138-147 | exactly this block of the disk changes, to the buffer's data, and the pin is gone |
| `BufferCache.Cache.Pin` | kernel/log.c:195-195 | log_write's dirty flag pins the buffer and changes nothing else |
| `BufferCache.Cache.Brelse` | kernel/bio.c:151-171 | the buffer becomes the most recently released one, the list stays a ring of all buffers, and nothing shown changes |
| `BufferCache.Relink` | kernel/bio.c:159-164 | the six pointer updates turn the ring of a walk into the ring of the walk with that buffer moved to the front |
| `BufferCache.ToFrontRecency` | kernel/bio.c:159-164 | list order stays the order of release |
| `BufferCache.Cache.Settled` | kernel/bio.c:97-111 | what is shown differs from the disk only for held or pinned buffers, so evicting a clean one loses nothing |
| `BufferCache.Cache.Room` | kernel/bio.c:98-115 | while fewer than NBUF blocks are held or pinned, "bget: no buffers" is not reached |
| `Log.RecoverySurvivesCrashes` | kernel/log.c:124-131 | recovery cut short after any of its block writes, any number of times, and then completed gives the blocks the log meant at first |
| `Log.RecoveryStepMeans` | kernel/log.c:78-91 | every disk that recovery passes through means the same home blocks |
| `Log.RecoveredMeaning` | kernel/log.c:124-131 | completed recovery leaves every home block as the log's last entry for it says, and an empty header |
| `Log.CommitPoint` | kernel/log.c:150-152 | the write of the header switches the meaning of the disk from the old home blocks to those with the logged ones |
| `Log.LogOne` | kernel/log.c:183-194 | logging a block, absorbed or appended, keeps the log holding the last data of each distinct sector |
| `Log.CrashAtomicity` | kernel/log.c:110-196 | after a crash at any write of a transaction and any crashes of recovery, the home blocks are exactly those before or exactly those after; the switch is commit's first header write |
| `Log.Log.constructor` | kernel/log.c:60-75 | initlog recovers: the home blocks are what the disk meant at boot, by exactly the writes of RecoverySteps |
| `Log.Log.RecoverFromLog` | kernel/log.c:124-131 | the method performs exactly the writes that the crash theorems quantify over |
| `Log.Log.ReadHead` | kernel/log.c:94-105 | the in-memory list is the header's list |
| `Log.Log.WriteHead` | kernel/log.c:110-122 | one block write, after which the header lists exactly the in-memory list; no panic while held and pinned blocks leave one buffer |
| `Log.Log.InstallTrans` | kernel/log.c:78-91 | the copies, one block write each, unpin exactly the home blocks; no panic while held and pinned blocks leave two buffers |
| `Log.ListedOnce` | kernel/log.c:183-194 | the list has at most one place for each block logged |
| `Log.Log.RoomFor` | kernel/log.c:177-180 | if the blocks logged and this one fit the log, the list and the buffers, neither "too big a transaction" nor "no buffers" is reached |
| `Log.Log.LogWrite` | kernel/log.c:172-196 | records the buffer's data under its sector, pins it, and leaves the meaning of the disk alone; refuses exactly outside a transaction or when the log is full |
| `Log.Log.CommitTrans` | kernel/log.c:147-162 | from its first write on every disk, through any panic, means the old home blocks overridden by the logged ones; on success they are in place and the log is empty; it succeeds whenever held and pinned blocks leave two buffers |
| `Log.Log.Transaction` | kernel/log.c:133-196 | a whole transaction: disks before the commit index mean the old blocks, disks from it on the old blocks with all writes applied, the last write per block winning; no panic if its distinct blocks are fewer than LOGSIZE and than the log's blocks and leave two buffers |
| `Umalloc.Allocator.Free` | ulib/libc/stdlib/umalloc.c:31-54 | keeps the invariant (one cycle in address order with one wrap, blocks disjoint, no two free blocks touching), takes exactly this block back, touches no other block's payload; the search terminates |
| `Umalloc.Allocator.FindPlace` | ulib/libc/stdlib/umalloc.c:36-39 | the circular search ends at the one free block after which the freed block belongs |
| `Umalloc.Allocator.Splice` | ulib/libc/stdlib/umalloc.c:41-51 | the header updates are Link, which AfterChained shows to be insertion with coalescing |
| `Umalloc.AfterChained` | ulib/libc/stdlib/umalloc.c:41-51 | after the pointer updates memory holds the list with the block inserted and joined to its neighbours |
| `Umalloc.InsertApart` | ulib/libc/stdlib/umalloc.c:41-51 | insertion with coalescing keeps the list sorted, disjoint and without touching neighbours |
| `Umalloc.ReleasedPartition` | ulib/libc/stdlib/umalloc.c:31-54 | every unit from sbrk still belongs to exactly one free or given block |
| `Umalloc.UnitsAddUp` | ulib/libc/stdlib/umalloc.c:31-113 | the sizes of all free and given blocks, listed once each, add up to the units obtained from sbrk |
| `Umalloc.Allocator.Conserves` | ulib/libc/stdlib/umalloc.c:31-113 | conservation in every valid state: free units and given units together are the units obtained from sbrk |
| `Umalloc.Allocator.Store` | ulib/libc/stdlib/umalloc.c:106-106 | a program's write to a cell of its own block keeps the allocator's invariant |
| `Umalloc.Allocator.Morecore` | ulib/libc/stdlib/umalloc.c:56-76 | adds exactly the region sbrk returned and leaves a block large enough, also when it merges into its predecessor |
| `Umalloc.Allocator.TakeAll` | ulib/libc/stdlib/umalloc.c:98-99 | exact fit: the block leaves the list and is given out |
| `Umalloc.Allocator.TakePart` | ulib/libc/stdlib/umalloc.c:100-104 | split: the tail is given out and the rest stays on the list |
| `Umalloc.Allocator.Malloc` | ulib/libc/stdlib/umalloc.c:81-113 | gives out a new block of the right size disjoint from all others, asks sbrk only if nothing fits, fails only if sbrk does, touches no payload, and its loop terminates |
| `DiskFormat.InodeRoundTrip` | include/fs.h:28-36 | an inode is read back from the bytes of a block as it was stored |
| `DiskFormat.PutInodeOfAt` | kernel/fs.c:217-239 | storing an inode in its block changes no other inode of the block |
| `DiskFormat.PutUsedAt` | kernel/fs.c:71-74 | setting or clearing a block's bit changes no other block's bit |
| `Ownership.AllocKeeps` | kernel/fs.c:55-85 | taking a clear data bit and zeroing the block keeps every name with its one owner |
| `Ownership.FreeTaken` | kernel/fs.c:71-76 | it leaves exactly one data block fewer free |
| `Ownership.AttachSlot` | kernel/fs.c:405-417 | bmap's store of a fresh block in an inode slot keeps bit set if and only if exactly one slot names the block |
| `Ownership.AttachEntry` | kernel/fs.c:421-426 | the same for a slot of the indirect block |
| `Ownership.DetachSlot` | kernel/fs.c:448-454 | freeing a slot's block clears exactly its bit, which was set, so the panic is not reached |
| `Ownership.DetachEntry` | kernel/fs.c:461-464 | the same for a slot of the indirect block |
| `FileContent.WriteBlockFiles` | kernel/fs.c:534-540 | storing into a block of one file changes no other block of any file |
| `FileSystem.Fs.ScanBlock` | kernel/fs.c:71-80 | the inner loop finds the first clear bit of a bitmap block |
| `FileSystem.Fs.Balloc` | kernel/fs.c:55-85 | returns the lowest-numbered block with a clear bit, marked and zeroed, or panics if none |
| `FileSystem.Fs.BallocData` | kernel/fs.c:67-84 | it is a data block, one fewer being free then, exactly if some data bit is clear |
| `FileSystem.Fs.BallocWhenFull` | kernel/fs.c:67-84 | on a full disk with the log's bits clear the log's header block is handed out and zeroed |
| `FileSystem.Fs.Bfree` | kernel/fs.c:87-107 | clears exactly this bit; the panic comes exactly if it was clear |
| `FileSystem.Fs.Bmap` | kernel/fs.c:396-434 | returns the block of the file, allocating it only past the mapped length; fails exactly if it needs more blocks, the indirect one included, than are free; every other block and file is kept, and what is logged is bounded |
| `FileSystem.Fs.Iupdate` | kernel/fs.c:217-239 | the disk's copy of this inode becomes current and no file changes |
| `FileSystem.Fs.ReadLoop` | kernel/fs.c:505-510 | the chunks add up to the slice of the file, and bmap allocates nothing |
| `FileSystem.Fs.Readi` | kernel/fs.c:486-513 | returns exactly the clamped slice of the content, -1 exactly for an offset past the end or a wrapping sum, and changes nothing |
| `FileSystem.Fs.WriteLoop` | kernel/fs.c:534-540 | every byte written is in place and every other byte of the file is as it was; it stops short exactly if the file's growth needs more blocks than were free before |
| `BlockCount.WriteTakes` | kernel/fs.c:396-434 | a chunk takes the blocks that the file's growth in bytes accounts for |
| `FileSystem.Fs.Writei` | kernel/fs.c:515-548 | content becomes content[..off] + src + content[off+n..], every other file is kept, non-extending writes allocate nothing, every changed block was passed to log_write; -1 exactly in the refused cases with nothing changed, the full disk's panic exactly if the growth needs more blocks than are free |
| `FileSystem.WritingMore` | kernel/fs.c:534-540 | one pass of the loop, through bmap and the store, keeps the loop's invariant |
| `FileSystem.GrowDirect` | kernel/fs.c:405-409 | block bn is mapped if and only if bn * BSIZE is below the mapped length, across a direct allocation |
| `FileSystem.GrowIndirect` | kernel/fs.c:415-417 | the same when the indirect block is allocated |
| `FileSystem.GrowEntry` | kernel/fs.c:423-426 | the same when an entry of the indirect block is allocated |
| `FileSystem.Fs.TruncDirect` | kernel/fs.c:448-454 | the first loop of itrunc frees the direct blocks without a panic |
| `FileSystem.Fs.TruncEntries` | kernel/fs.c:458-466 | the second loop frees the blocks named in the indirect block without a panic |
| `FileSystem.Fs.Itrunc` | kernel/fs.c:436-473 | clears exactly the bits of the blocks the inode owned, never panics, ends with size 0 and no blocks, keeps every other file, and logs every changed block |
| `FileSystem.FreedExactly` | kernel/fs.c:448-469 | in the bitmap, freed means owned by this inode, both ways |
| `OpenFile.TransactionBound` | kernel/file.c:167-183 | each chunk of filewrite logs at most 7 distinct sectors when the bitmap is one block |
| `OpenFile.NextRefused` | kernel/file.c:179-204 | the chunk loop stops exactly when the next chunk would exceed the maximal file size |
| `OpenFile.OthersContent` | kernel/file.c:189-190 | every other file reads the same after a write |
| `OpenFile.File.WriteTransaction` | kernel/file.c:185-194 | one chunk: all of it or nothing, and at most 7 sectors logged; the full disk's panic exactly if the chunk needs more blocks than are free |
| `OpenFile.File.Filewrite` | kernel/file.c:153-205 | returns n or -1 and moves the offset by exactly the whole chunks accepted; "short filewrite" is not reached; the full disk's panic exactly if the bytes accepted need more blocks than are free before the call |
| `OpenFile.LacksLater` | kernel/file.c:179-204 | a later chunk for which blocks are missing means that the whole write needs more than there were |
| `CrashSafety.WriteSurvivesCrashes` | kernel/file.c:185-194 | the machine stops at any block write of a write's transaction and recovery at any of its own, any number of times: the file system found then is in order, the file has exactly its old or exactly its new content, every other file the content it had |
| `CrashSafety.CarriedOver` | kernel/log.c:164-171 | a transaction with the last data of every logged block takes the whole device from the old to the new disk, because nothing else changed |
| `CrashSafety.Carrier` | kernel/log.c:164-196 | the recorded log_writes leave on the device what they leave on the file system's disk |
| `CrashSafety.Carried` | kernel/log.c:183-194 | as a transaction they carry exactly the blocks logged, each with its last data |
| `CrashSafety.ChunkFits` | kernel/file.c:167-183 | the blocks of a chunk of filewrite fit a log of LOGSIZE blocks, its list and the buffer cache |
| `CrashSafety.AtomicWrite` | kernel/file.c:185-194 | for every crash point of the transaction and every run of interrupted recoveries the file system is found before or after the write |
| `CrashSafety.WriteThroughLog` | kernel/file.c:185-194 | begin_trans, writei and commit_trans run together: the device shows the new disk, every crash point is before or after, and a chunk of filewrite reaches no panic of the log or the cache |
| `CrashSafety.ChunkwiseMore` | kernel/file.c:179-204 | a crash in the transaction of one chunk leaves a whole number of chunks written |
| `CrashSafety.FilewriteThroughLog` | kernel/file.c:153-205 | all of filewrite through the log: at every crash point of every chunk, after any interrupted recoveries, the file has its old content with a whole number of chunks written and every other file its own; no panic of the log or the cache |
| `CrashSafety.LoggedBelowLog` | kernel/fs.c:515-548 | every sector that a write logs lies outside the log |
| `CrashSafety.BelowLog` | kernel/log.c:70-72 | nothing of the file system lies in the log area, so its contents do not matter |
| `Paths.SkipElemMeans` | kernel/fs.c:637-665 | skipelem takes the first of the non-empty pieces between slashes, truncated to DIRSIZ, and leaves the others |
| `Paths.Skipelem` | kernel/fs.c:637-665 | the three loops compute that |
| `Paths.Names.Iget` | kernel/fs.c:244-279 | one more reference to this inode and to no other, never two entries for one inode; the panic comes exactly if the inode is not cached and every entry is in use |
| `Paths.CrowdedMeans` | kernel/fs.c:251-270 | that is exactly if it is not cached and as many inodes are cached as there are entries |
| `Paths.Names.Ilock` | kernel/fs.c:295-334 | locks the entry; the panic comes exactly for an inode without a type |
| `Paths.Names.Iput` | kernel/fs.c:358-379 | one reference fewer to this inode and to no other; exactly the last reference to an inode without links frees it and its blocks, every other file kept; "iput busy" exactly if that one is locked |
| `Paths.Names.Dirlookup` | kernel/fs.c:559-586 | returns an entry for the inode of the first entry in use with that name, exactly if there is one; the panics exactly for no directory, a torn entry before it, or no place in the inode cache |
| `Paths.Names.Dirlink` | kernel/fs.c:588-621 | the name then leads to the inode, every other name to what it led to, every other file is kept; -1 exactly if the name was there, with nothing changed; success exactly if the directory has room: a free entry or space to grow and the blocks for it |
| `Paths.FindNew` | kernel/fs.c:606-618 | a name entered where dirlink enters it is found |
| `Paths.FindOther` | kernel/fs.c:606-618 | every other name is found as before |
| `Paths.Names.Namex` | kernel/fs.c:670-712 | equals folding directory lookup over the path's elements, one element short for the parent; the result gains exactly one reference, and on failure no count changes; a panic exactly for a broken path or one on which some inode finds no place in the cache |
| `Paths.CachedMore` | kernel/fs.c:691-699 | while one inode is held on the way the cache refers to it and to those it referred to before |
| `Mkfs.Builder.constructor` | tools/mkfs.c:125-152 | the blank image has only free inodes and no owned block |
| `Mkfs.Builder.Ialloc` | tools/mkfs.c:316-331 | the next inode is stored with its type and one link; no file changes |
| `Mkfs.Builder.Rinode` | tools/mkfs.c:287-301 | reads back what winode stored |
| `Mkfs.Builder.Winode` | tools/mkfs.c:273-285 | stores this inode and no other |
| `Mkfs.Builder.Iappend` | tools/mkfs.c:351-418 | appends exactly the bytes to this file and changes no other, across the direct/indirect boundary; possible exactly if the file stays within MAXFILE blocks and freeblock within the data blocks |
| `Mkfs.SetBits` | tools/mkfs.c:342-344 | the bitmap buffer has exactly the first bits set |
| `Mkfs.Builder.Balloc` | tools/mkfs.c:333-347 | the bitmap write makes the image satisfy the kernel's block-ownership invariant |
| `Mkfs.Taken` | tools/mkfs.c:376-380 | taking freeblock is what the kernel's balloc does to the image with its bits set |
| `Mkfs.RootSizeFix` | tools/mkfs.c:241-246 | rounding the root's size up keeps the invariant exactly if the size is not a multiple of BSIZE |
| `Mkfs.RoundingBreaks` | tools/mkfs.c:241-246 | an image with a root of 64 entries, on which it does not |
| `Mkfs.Builder.RoundSize` | tools/mkfs.c:241-246 | otherwise the root reads as before with zeros to the end of its block, because the bytes past the end of every file are zero |
| `Mkfs.Build` | tools/mkfs.c:145-250 | the calls of ialloc and iappend and the bitmap write make an image exactly if they fit, a condition on inode numbers, file sizes and block counts alone; then the kernel's invariant holds, every inode holds the bytes appended to it, and exactly the blocks taken are marked |
| `Mkfs.HoldsPrefix` | tools/mkfs.c:351-418 | what does not fit after some of the calls does not fit in the end |
| `Mkfs.BuildThenRead` | tools/mkfs.c:351-418 | kernel readi on the image of any run that fits returns exactly the concatenated appended bytes |
| `Mkfs.BuildMain` | tools/mkfs.c:125-250 | all of main: an image in order comes out exactly if the calls fit and the root's size is not a multiple of BSIZE |
| `Mkfs.MainThenRead` | tools/mkfs.c:125-250 | kernel readi on that image returns the appended bytes, for the root padded with zeros |
| `Mkfs.BallocOnFull` | tools/mkfs.c:333-347 | on an image whose data blocks are all taken the kernel's balloc hands out the log's header block |
| `Mkfs.FullImage` | tools/mkfs.c:351-418 | there is such an image |
| `Pipes.RingPut` | kernel/pipe.c:98-98 | a byte goes in behind the others whatever the counters have wrapped to |
| `Pipes.RingTake` | kernel/pipe.c:124-128 | the byte that comes out is the oldest |
| `Pipes.Counters` | kernel/pipe.c:86-86 | the wrapping counters still tell full from empty |
| `Pipes.StepKeeps` | kernel/pipe.c:59-135 | every step of every process, sleep and wakeup included, keeps the invariant |
| `Pipes.WriterFalls` | kernel/proc.c:507-540 | the handover from p->lock to ptable.lock in sleep loses no wakeup |
| `Pipes.RingStep` | kernel/pipe.c:59-135 | every step of every process keeps the ring holding the bytes on their way |
| `Pipes.FirstInFirstOut` | kernel/pipe.c:77-135 | over every interleaving the bytes read are a prefix of the bytes accepted, at most PIPESIZE behind |
| `PipeCalls.Pipewrite` | kernel/pipe.c:77-105 | for every call of pipewrite in every run, at any later moment, the bytes accepted from the caller since are the first of its buffer in order; all of them once it has returned n, not all if -1 |
| `PipeCalls.PipewriteReturns` | kernel/pipe.c:84-104 | it returns n exactly if all bytes were accepted, else -1 with the pipe full and the read end closed or the caller killed |
| `PipeCalls.Piperead` | kernel/pipe.c:107-135 | for every call of piperead in every run, what it returns and puts into the buffer are the next min(n, available) bytes; 0 for n > 0 only with the pipe empty and the write end closed; -1 only if killed with the pipe empty, and nothing read |
| `PipeCalls.WriteOwn` | kernel/pipe.c:77-105 | a step of the writer itself keeps the bytes accepted equal to buf[..i] |
| `PipeCalls.ReadOwn` | kernel/pipe.c:107-135 | a step of the reader itself keeps its buffer equal to the bytes taken last |
| `PipeCalls.LocksStep` | kernel/pipe.c:59-135 | p->lock has exactly one holder, in every run |
| `PipeCalls.LockedOut` | kernel/pipe.c:107-135 | while it is held no other process changes the pipe's contents |
| `PipeCalls.UpStep` | kernel/proc.c:566-589 | a step leaves a killed process asleep in a pipe, or on its way there, exactly if it is a kill between the test of proc->killed and the sleep |
| `PipeCalls.KilledAwake` | kernel/pipe.c:86-96 | over every interleaving without such a kill no killed process sleeps in a pipe |
| `PipeCalls.UnnoticedHappens` | kernel/pipe.c:113-121 | a run in which a killed reader sleeps |
| `Pipes.PipeSafe` | kernel/pipe.c:59-135 | over any interleaving without that careless step, with the lock free a sleeping reader means empty and write end open, a sleeping writer full and read end open |
| `Pipes.NoDeadlock` | kernel/pipe.c:77-135 | readers and writers never wait for each other |
| `Pipes.CarelessBreaks` | kernel/pipe.c:88-91 | a killed writer's return with a reader asleep breaks exactly that |
| `Pipes.CarelessHappens` | kernel/pipe.c:84-98 | and it can happen |
| `Processes.StepKeeps` | kernel/proc.c:87-348 | every step of allocproc, fork, exit, wait, sleep, wakeup, kill and scheduling keeps the process tree's invariant |
| `Processes.NoMissedExit` | kernel/proc.c:277-346 | in every reachable state a process asleep in wait has no zombie child |
| `Processes.HasParent` | kernel/proc.c:282-295 | every process but init that is past fork has a parent that is neither zombie nor unused |
| `Processes.PidsDistinct` | kernel/proc.c:103-106 | live pids are distinct |
| `Processes.ReapedOnce` | kernel/proc.c:312-336 | wait returns each exited pid at most once, and none is lost |
| `Processes.WaitReturns` | kernel/proc.c:316-335 | what wait returns is an exited child of the caller, not returned before |
| `Processes.WaitEnds` | kernel/proc.c:316-346 | whichever pass ends wait's scan, in every reachable state: with a zombie child it reaps one; without, it returns -1 exactly if the caller has no child or was killed, else it sleeps |
| `Processes.WaitReaps` | kernel/proc.c:312-336 | a wait that has a zombie child at any point of its scan ends by reaping one, whatever runs in between |
| `Processes.ChildStays` | kernel/proc.c:312-343 | while a process scans, its children stay its children and zombies zombies |
| `Processes.KilledReturns` | kernel/proc.c:566-589 | kill makes a sleeper runnable; a killed process is never asleep in wait, and its scan does not end in sleep |
| `Memory.Vm.KAlloc` | kernel/kalloc.c:95-112 | takes the first free page, in nobody's use, or reports that there is none |
| `Memory.Vm.Walk` | kernel/vm.c:56-79 | finds or makes the page table without changing any page of any space; fails exactly if there is no table and none may or can be made |
| `Memory.Vm.MapPage` | kernel/vm.c:84-111 | sets exactly this page of this space; "remap" exactly if it was present |
| `Memory.PtePlace` | kernel/vm.c:53-79 | writing one entry changes the lookup of that page of that space and of no other |
| `Memory.Vm.DeallocUvm` | kernel/vm.c:327-354 | frees exactly the pages its walk comes to and returns the new size; no frame is lost |
| `Memory.ThoroughExactly` | kernel/vm.c:338-342 | the walk comes to every page with a table exactly if it starts at a table's first page, in an existing table, or below no further table |
| `Memory.PassesOver` | kernel/vm.c:338-342 | a run that leaves a page mapped beyond the size it returns |
| `Memory.Vm.FreeVm` | kernel/vm.c:358-375 | frees every page, table and the directory of this space and nothing else |
| `Memory.Vm.SetupKvm` | kernel/vm64.c:117-137 | a new directory that maps no user page, on frames that were free; its entries 511 and 510 name two new upper tables, chained user-writable from the top table through the second to the directory, with the kernel's own table at entry 511 |
| `Memory.ChainMade` | kernel/vm64.c:128-134 | the entries setupkvm writes make that chain |
| `Memory.RootsStay` | kernel/vm64.c:128-134 | the chain of every directory stays while its last two entries and the upper tables do |
| `Memory.RootFound` | kernel/vm64.c:126-134 | in every good state, so after every operation, every directory has its chain, the kernel's table included |
| `Memory.MmuFinds` | kernel/vm64.c:208-210 | from the table that switchuvm loads, the walk through all four levels finds exactly the entry that walkpgdir finds |
| `Memory.RootsApart` | kernel/vm64.c:119-134 | no two spaces share an upper table |
| `Memory.Vm.CopyUvm` | kernel/vm.c:394-431 | the child has the parent's flags and bytes for every page below sz on frames not in use before, and nothing else, below upper tables chained as setupkvm does; the parent and all others are unchanged; which of copy, failure and panic it is, and how many pages are lost, is decided by the number of free pages and the parent's first missing page |
| `Memory.NeedFromEmpty` | kernel/vm.c:405-423 | n pages of a new space take n pages and a table for each 512 begun |
| `Memory.RanOut` | kernel/vm.c:416-430 | running out means fewer pages than that, with one in hand exactly at a table |
| `Memory.ForkedSpace` | kernel/vm.c:394-431 | parent and child agree on every page below sz and share no frame |
| `Memory.Vm.AllocUvm` | kernel/vm.c:291-321 | the new pages are zeroed, writable and on fresh frames; 0 exactly if the free pages are fewer than the new pages and their missing tables need, unless one short at a table for the last page, which is then missing; on failure all are unmapped again; the frames newly in use are exactly the new pages, new tables and one lost page, which there is exactly if memory runs out at a table |
| `Memory.UndoneRoles` | kernel/vm.c:308-313 | after a failure the frames newly in use are the lost page and tables made on the way |
| `Memory.TallyOut` | kernel/vm.c:308-313 | a failed kalloc means that memory did not suffice, and a page is lost exactly if it ran out at a table |
| `Memory.OneShortHappens` | kernel/vm.c:317-320 | a state in which success is reported and the page is not there |
| `Memory.LossHappens` | kernel/vm.c:308-320 | a state in which the only free page is lost and the call fails |
| `Memory.GrowingMeans` | kernel/vm.c:305-320 | which of the new pages are there in the end: all, or all but the last exactly in the exception of AllocUvm |
| `Shell.Parser.Gettoken` | user/sh.c:266-309 | the token and the new cursor are those of GetToken |
| `Shell.Parser.Parseredirs` | user/sh.c:375-398 | the loop refines ParseRedirs |
| `Shell.Parser.Parseexec` | user/sh.c:416-447 | refines ParseExec, panics included |
| `Shell.Parser.Parseblock` | user/sh.c:400-414 | refines ParseBlock |
| `Shell.Parser.Parsepipe` | user/sh.c:362-373 | refines ParsePipe |
| `Shell.Parser.Parseline` | user/sh.c:345-360 | refines ParseLine; the mutual recursion terminates on every input |
| `Shell.Parser.Parsecmd` | user/sh.c:328-343 | the tree, with the whole line consumed, or the panic of ParseCmd |
| `Shell.ParseCmd` | user/sh.c:328-343 | every tree it returns is legal: at most 9 arguments, words without symbols or white space |
| `Shell.ExecBack` | user/sh.c:400-447 | printing at the level of parseexec and parsing gives the tree back |
| `Shell.RoundTrip` | user/sh.c:328-447 | parsing the canonical text of any legal tree gives that tree and consumes the text |
| `Shell.Normal` | user/sh.c:328-447 | every accepted line means the same as the canonical text of its tree |
| `ShellGrammar.ParsesExactly` | user/sh.c:328-447 | parsecmd accepts a line with a tree exactly if the grammar derives that tree from the line's tokens, for any white space, `>>`, redirections before, between and after words, blocks, pipes, lists and background; every other line is refused |
| `ShellGrammar.LineSound` | user/sh.c:345-360 | what parseline takes off is a line of the grammar with the tree returned |
| `ShellGrammar.LineComplete` | user/sh.c:345-360 | a line of the grammar in front of `)` or the end is taken off whole with its tree |
| `ShellGrammar.RedirsComplete` | user/sh.c:375-398 | parseredirs takes every redirection, to descriptor 1 for > and >> and to 0 for < |
| `ShellGrammar.TokensFirst` | user/sh.c:266-309 | gettoken takes the first token off the line |
| `ShellGrammar.PeekToken` | user/sh.c:311-321 | peek looks at the first token |
| `Lzw.ReadCode` | gif.c:141-158 | the bit loop reads the code of the given width across byte boundaries |
| `Lzw.FirstByte` | gif.c:201-220 | following back pointers ends at the first byte of the code's string |
| `Lzw.CopyString` | gif.c:241-254 | the backward copy writes exactly the code's string and nothing else; the self-reference error is not reached |
| `Lzw.AddEntry` | gif.c:190-237 | the new entry spells the last string with the first byte of this one, KwKwK included; widths grow as in the table of strings |
| `Lzw.Uncompress` | gif.c:93-256 | on every stream the output is exactly that of the decoder with a table of strings, up to the same ending; at an overflow the next entry is one past the dictionary |
| `LzwEncode.RoundTrip` | gif.c:93-256 | decoding the packed codes of a greedy encoder, written on its own, gives back every string over bytes below the clear code, at every code length and of any length |
| `LzwEncode.Decodes` | gif.c:139-255 | from any point where encoder and decoder are in step the output is what the encoder has still to send |
| `LzwEncode.SameString` | gif.c:190-222 | every code the encoder sends stands for the same string in the decoder, KwKwK included |
| `LzwEncode.SameWidth` | gif.c:228-237 | both change to wider codes at the same code |
| `LzwEncode.CodeRead` | gif.c:141-158 | a code packed least significant bit first is read back, and the next one starts behind it |
| `LzwOverflow.OverflowExactly` | gif.c:190-237 | decoding ends in an overflow exactly if a count of the codes since the last clear code says so |
| `LzwOverflow.OverflowHappens` | gif.c:190-237 | 6144 zero bytes overflow the dictionary at every code length |
| `HashTables.MaskIsModulo` | ulib/libc/stdlib/hashtable.c:124-124 | masking with capacity - 1 is the remainder, for powers of two |
| `HashTables.Search` | ulib/libc/stdlib/hashtable.c:121-140 | probing terminates, at the key or at the first empty slot on its path |
| `HashTables.StopsMeans` | ulib/libc/stdlib/hashtable.c:126-142 | where it stops decides whether the key is in the map, and its value |
| `HashTables.StoreSound` | ulib/libc/stdlib/hashtable.c:171-208 | storing there keeps every key reachable from its own slot over filled slots |
| `HashTables.StoreContents` | ulib/libc/stdlib/hashtable.c:171-208 | and changes the map at this key alone |
| `HashTables.Table.Get` | ulib/libc/stdlib/hashtable.c:118-143 | returns the value last set for the key, exactly if there is one |
| `HashTables.Table.Expand` | ulib/libc/stdlib/hashtable.c:219-247 | doubles the capacity and keeps the map |
| `HashTables.Table.Set` | ulib/libc/stdlib/hashtable.c:249-267 | updates exactly one key, keeping capacity a power of two and length at most half of it |
| `HashTables.Iter.Next` | ulib/libc/stdlib/hashtable.c:284-301 | yields the next filled slot, false exactly at the end |
| `HashTables.Collect` | ulib/libc/stdlib/hashtable.c:275-301 | running the iterator to its end collects all filled slots in order |
| `HashTables.ItemsAreMap` | ulib/libc/stdlib/hashtable.c:275-301 | the iterator yields each key exactly once, with its value |
| `Regex.Matchhere` | user/grep.c:83-95 | true exactly if the text starts with a word of the pattern's language |
| `Regex.Matchstar` | user/grep.c:97-105 | true exactly if some number of c's is followed by a match of the rest |
| `Regex.Match` | user/grep.c:71-81 | true exactly if the pattern matches somewhere; the recursion terminates |
| `Regex.SomewhereMeans` | user/grep.c:71-95 | that is: some substring is in the language of the atoms, anchored by ^ and a final $ |
| `Regex.ParseExactly` | user/grep.c:83-95 | a pattern is read as the one list of atoms that is written so, with each star behind its character and $ at the end |
| `Lines.DrawLine` | kernel/graphics.c:670-690 | draws exactly max(dx, dy) + 1 pixels from one end to the other, neighbours touching, each within half a pixel of the ideal line |

## Left out

- Locks and sleeping below the file system: `BufferCache.dfy`, `Log.dfy`, `FileSystem.dfy`, `Path.dfy` and `Vm.dfy` model one process at a time; interleavings are modelled in `Pipe.dfy` and `Proc.dfy`.
- BufferCache.Cache.Brelse: asks that a changed buffer went to bwrite or log_write before, as every caller does.
- Log.Log.constructor: asks for a header block that lists at most LOGSIZE sectors outside the log region, as mkfs and commits leave it; a corrupt header is not modelled.
- Log.Log.RecoverFromLog: asks for the same header block.
- Log.Log.ReadHead: asks for the same header block.
- Log.Log.LogWrite: asks that the sector lies outside the log region, which LoggedBelowLog shows for the file system's writes.
- OpenFile.File.WriteTransaction: begin_trans and commit_trans are not run here; CrashSafety.WriteThroughLog and FilewriteThroughLog run all three.
- FileSystem.Fs.Bmap: what happens after balloc has handed out a log block is not modelled; the methods report a full disk instead.
- FileSystem.Fs.BallocData: reports a full disk where the code goes on to hand out a log block, which BallocWhenFull shows.
- FileSystem.Fs.Readi: device inodes (type T_DEV) are not modelled.
- FileSystem.Fs.Writei: device inodes (type T_DEV) are not modelled.
- Ownership.DetachEntry: clears the entry of the indirect block, which the code leaves in a block that it then frees; Itrunc is proved for the code's disk.
- Paths.Names.Namex: asks that no inode on the path is freed on the way, that is, each has links or another reference.
- Crash safety of dirlink and of iput's truncation is not stated; their log_writes are recorded as writei's are.
- Paths.Names.Dirlookup: an i-number beyond the inode table makes the next ilock panic in the model.
- Mkfs.Builder.Ialloc: the source does not check that an inode is left; the method asks for it, and Build reports otherwise.
- Mkfs.Builder.Iappend: the source does not check that a data block is left; the method reports it.
- Umalloc.Allocator.Malloc: what sbrk returns is a parameter that does not adjoin the static base header, and the request fits sbrk's int.
- Processes.StepKeeps: nextpid does not overflow; the scheduler's choice by priority is any choice of a runnable process.
- Memory.Vm.MapPage: mappages is modelled for one page at a time, which is how vm.c calls it.
- Memory.Vm.AllocUvm: sizes are at most 0x3fa00000 and nothing is mapped between the old and the new size; the test against KERNBASE never holds for a 32-bit size.
- Memory.Vm.CopyUvm: asks that kvmalloc has made the kernel's own table, as setupkvm does.
- Memory.Vm.SetupKvm: the code does not test its three kalloc results; the method returns 0 if one fails, where the code writes to a null page.
- Mkfs.Build: main's rounding of the root's size is part of BuildMain, not of this run.
- copyout, uva2ka, loaduvm and clearpteu: they would only add easy members.
- Lzw.Uncompress: what the C code does after it has left its memory (a code cut short, a code without a string, a 4097th entry) is not modelled; it stops there. Code lengths are 2 to 11.
- HashTables.Table.Set: values are shorter than 128 bytes; the NULL value and failures of strdup are not modelled.
- Shell.Parser.Parsecmd: nulterminate's writes of NULs into the line are not modelled; words are substrings. Command execution is left out.
- ShellGrammar.ParsesExactly: says which lines are refused, not with which message; that is in Parsecmd alone.
- PipeCalls.Pipewrite: byte counts are not negative.
- Lines.DrawLine: 32-bit overflow of coordinates and clipping to the screen are not modelled.
- Hardware (IDE, APIC, UART, timer, boot, context switch), the window system, printf, the remaining system calls and the disk-usage counters are left out.
