# A verified model of the xv6 kernel, allocator, shell and grep

This project models the hard parts of the xv6 kernel and user programs in `assignment1/` and
proves what they are there for.

- **Storage.** The write-ahead log is a machine whose every step makes at most one block write;
  it refines an atomic transactional disk, and a transaction cut by any number of crashes is
  all or nothing (`Log`, `LogCode`). The buffer cache never has two copies of a sector, never
  drops uncommitted data, always returns the latest, recycles the least recently used buffer and
  leaves nobody asleep on a free one (`Bio`, `BioCode`). The queued, interrupt-driven disk
  refines the synchronous one (`Ide`, `IdeCode`). Files are byte sequences, over a bitmap, 12 direct blocks and an indirect block, and every allocated block
  has one owner (`FsSpec`, `FsCode`, `Bitmap`, `Blocks`). The file system's sectors (`FsDisk`)
  are what the log carries: a write never overflows it (`Capacity`), and after any crashes the
  disk holds the file with a whole number of filewrite's chunks written (`FileCrash`). Link
  counts are exact and directories form a tree (`Links`), each call changes just the names it
  should (`LinkNames`), in the bytes of directory files too
  (`DirDisk`, `DirCode`), and after any crashes they are so on the disk (`TreeCrash`).
- **The heap.** Free blocks form one circular, address-ordered ring, nothing is adjacent, and
  free and live blocks tile the memory obtained from sbrk (`HeapSpec`, `Umalloc`).
- **Processes and pipes.** Any number of CPUs, processes, readers and writers, interleaved step
  by step: the context hand-off through `ptable.lock`, exit and wait, who wakes whom, pipe order,
  whole writes, no lost wakeup (`Proc`, `ProcCode`, `ProcProgress`, `Pipe`, `PipeCalls`).
- **Virtual memory.** Page tables that live in the memory they map refine a flat translation,
  and frames are conserved, with the exact number of frames each operation needs (`VmSpec`,
  `VmCode`).
- **The shell's parser** decides a declarative grammar (`ShGrammar`), and its in-place cut leaves
  every word as it was typed (`ShSpec`, `ShCode`, `ShAppend`). **grep's matcher** decides a
  declarative language (`Grep`).

`Params`, `Lists` and `Sets` hold what several modules share.

Protocols are machines: a `State`, a predicate per step, an invariant, one lemma per step, and
theorems over every run. Code that updates memory in place is a class or a method with loops,
proved against functions, and the machine's steps, of the old state. C panics are outcomes;
where a panic cannot happen the contract says so.

The code disagrees with what it is meant to do in these places, and the model follows the code:

- `pipewrite` returns without waking readers when its process is killed. The wakeup guarantee
  survives exactly when no reader is asleep (`KilledWriterKeepsIff`), and a run that loses a
  wakeup is given (`KilledWriterLosesWakeup`).
- `malloc` computes its block size in 32 bits, and morecore passes the product to sbrk as an
  int. When sbrk succeeds, the memory the heap then takes for its own is the process's, with room
  for the request, exactly up to 0x7ffffff0 bytes and given the frames. `growproc` takes a new
  size of zero for a failure: sbrk then returns -1 with all of the process's memory freed, which
  happens at one block size for each break (`GrowthBacked`, `EmptiesIff`, `EmptyingRequest`, and
  `Malloc` for one call).
- `deallocuvm` skips 1024 pages where there is no table, even from the middle of a table's
  range. `MissedIff` says exactly which mapped pages it misses; `MissesOne` gives one.
- `allocuvm` ignores mappages' result. It loses a frame exactly when the last free frame goes
  to a page whose table is missing (`Allocuvm`), and `LosesAFrame` does so.
- `setupkvm` keeps the frames it took when it fails, which is exactly with fewer than 65 free.
  `copyuvm` then loses all of these, and with more it loses one exactly when the last free
  frame goes to a page whose table is missing (`Copyuvm`).
- `>>` in the shell opens its file exactly as `>` does, wherever it stands (`AppendIsOutput`).

## Model

| member | source | states |
|---|---|---|
| LogMachine.StepRefines | assignment1/log.c:69-181 | every step of the log is a step of an atomic transactional disk; only the commit header commits, only a crash discards |
| LogMachine.WriteRefines | assignment1/log.c:159-181 | log_write adds one pending write, absorbed into the sector's slot if it has one |
| LogMachine.CommitRefines | assignment1/log.c:98-113 | the header write moves all pending writes to the durable disk at once |
| LogMachine.InstallRefines | assignment1/log.c:68-82 | install copies and the erasing header change neither the durable disk nor what is pending |
| LogMachine.ReadersSeeLatest | assignment1/log.c:151-158 | a read returns the committed block overlaid with the open transaction's |
| LogMachine.RunRefines | assignment1/log.c:69-181 | over every run, with crashes anywhere, the invariant holds and each step refines |
| LogMachine.RecoveryKeepsDurable | assignment1/log.c:115-122 | recovery, crashed and restarted any number of times, keeps the durable contents |
| LogMachine.CrashAtomicity | assignment1/log.c:69-181 | a transaction cut at any write, followed by any number of failed recoveries and one that ends, leaves all home sectors old or all as last log_written, the latter exactly when the commit header reached the disk |
| LogCode.Log.WriteHead | assignment1/log.c:101-113 | one block write, of a header that decodes to sector[..n] |
| LogCode.Log.ReadHead | assignment1/log.c:85-96 | memory then lists exactly what the header block lists |
| LogCode.Log.InstallTrans | assignment1/log.c:69-82 | every write it makes is an install step of the machine, and it ends with all slots copied |
| LogCode.Log.RecoverFromLog | assignment1/log.c:115-122 | every write is a recovery step, and the home sectors end as the durable ones of the start |
| LogCode.Log.BeginTrans | assignment1/log.c:124-133 | enters exactly when no transaction is active |
| LogCode.Log.FindSlot | assignment1/log.c:169-172 | the slot of the sector's first occurrence, or the next free one |
| LogCode.Log.LogWrite | assignment1/log.c:159-181 | panics exactly when full or outside a transaction, else is the machine's write step |
| LogCode.Log.CommitTrans | assignment1/log.c:135-149 | the home sectors end with the transaction's blocks, and recovery from any state passed through from the commit on would leave the same |
| LogCode.Log.Crash | assignment1/log.c:115-122 | loses memory and nothing on disk |
| Capacity.NeverTooBig | assignment1/log.c:164-179 | with at least eight slots, a transaction writing any number of times to at most seven sectors never meets the "too big a transaction" test |
| Capacity.LoggedIsWritten | assignment1/log.c:169-179 | the logged sectors are among those written, each once |
| FsCode.SevenSectors | assignment1/file.c:126-132 | a chunk of at most three blocks' bytes logs at most seven sectors when the bitmap is one block |
| Capacity.ChunkNeverTooBig | assignment1/file.c:126-150 | so whatever sequence of writes one chunk of filewrite makes to the sectors it may log, the "too big a transaction" test does not fire |
| BioMachine.CacheIsConsistent | assignment1/bio.c:61-138 | over every interleaving no sector is in two buffers and the ring is a permutation of the buffers |
| BioMachine.BreadReturnsLatest | assignment1/bio.c:96-105 | bread returns the block last log_written or bwritten, else the disk's, and its process alone holds the buffer |
| BioMachine.DirtyStays | assignment1/bio.c:82-91 | a dirty buffer keeps its sector and stays dirty until its data is on disk: it is never recycled |
| BioMachine.NobodyWaitsForFree | assignment1/bio.c:68-80 | over every interleaving a process asleep in bget waits for a buffer that is busy with its sector |
| BioMachine.RecyclesLeastRecentlyUsed | assignment1/bio.c:82-91 | of the buffers that are neither busy nor dirty, bget recycles the one whose last brelse is the longest ago |
| BioMachine.BgetGoesOn | assignment1/bio.c:61-93 | bget finds the sector or gets a buffer for it unless all are busy or dirty |
| BioMachine.BreadGoesOn | assignment1/bio.c:96-105 | and bread then has the sector's latest data |
| BioMachine.BwriteGoesOn | assignment1/bio.c:108-115 | bwrite puts the holder's data on the disk, leaves the buffer clean and everything else alone |
| BioMachine.BrelseGoesOn | assignment1/bio.c:119-138 | brelse leaves the buffer free and awake all who waited for it |
| BioMachine.FoundKeeps | assignment1/bio.c:68-80 | a hit, taken or slept on, keeps the cache consistent and coherent |
| BioMachine.RecycleKeeps | assignment1/bio.c:82-91 | recycling the least recently used clean idle buffer makes no second copy and loses no data |
| BioMachine.RecordKeeps | assignment1/bio.c:108-115 | bwrite and log_write record the holder's data as the sector's latest |
| BioMachine.ReleaseKeeps | assignment1/bio.c:119-138 | brelse keeps the invariant: the cache is consistent, nobody waits for a buffer that is free, and the ring is in the order of use; no dirty buffer is lost |
| BioMachine.FrontKeepsPermutation | assignment1/bio.c:127-132 | moving a buffer to the front keeps the ring a permutation |
| BioCode.FrontLinks | assignment1/bio.c:127-132 | the six pointer stores turn the doubly linked ring into the one with the buffer in front |
| BioCode.Cache.constructor | assignment1/bio.c:38-56 | builds a ring of all buffers, none caching a sector |
| BioCode.Cache.FindCached | assignment1/bio.c:70-80 | the buffer for the sector, or none exactly when it is not cached |
| BioCode.Cache.FindVictim | assignment1/bio.c:82-91 | the last clean idle buffer of the ring, or none exactly when all are busy or dirty |
| BioCode.Cache.Bget | assignment1/bio.c:61-93 | one pass: take, sleep, recycle or panic, with the whole new state of each |
| BioCode.Cache.Brelse | assignment1/bio.c:119-138 | panics exactly when the buffer is not busy, changing nothing; else the ring is the old one with the buffer moved to its front |
| IdeMachine.ServedInOrder | assignment1/ide.c:91-155 | the queue holds no buffer twice, and requests are served in the order of the calls, each once |
| IdeMachine.SleepersAreQueued | assignment1/ide.c:149-152 | a process asleep in iderw has its request queued, and the drive is at work |
| IdeMachine.QueuedDiskRefines | assignment1/ide.c:91-155 | every step is a step of memide's disk: nothing, a holder changing its buffer, or one whole request |
| IdeMachine.ReturnsAsMemide | assignment1/memide.c:36-58 | a call that can return was served at one moment in between, with the disk and the buffer that memide's iderw makes of them then |
| IdeMachine.InterruptKeeps | assignment1/ide.c:91-119 | completing the head and starting the next keeps the queue, the waiters and the drive consistent |
| IdeMachine.DriveGoesOn | assignment1/ide.c:91-155 | a queued request never gets stuck, nor a woken process |
| IdeMachine.InterruptReturns | assignment1/ide.c:91-155 | the process whose request an interrupt completes returns with its buffer in step with the disk |
| IdeCode.Ide.Idestart | assignment1/ide.c:69-88 | hands the drive a write of the data if the buffer is dirty, else a read |
| IdeCode.Ide.Iderw | assignment1/ide.c:125-147 | panics as the three tests say, else appends to the list and starts the drive exactly if the list was empty |
| IdeCode.Ide.Ideintr | assignment1/ide.c:91-119 | pops the head, syncs its buffer, starts the next; a spurious interrupt changes nothing |
| IdeCode.Memide.Iderw | assignment1/memide.c:36-58 | the synchronous request: its four panics; buffer and disk equal afterwards, a write keeping the buffer's data and a read the disk's, no other sector changed |
| FsSpec.WriteRefines | assignment1/fs.c:460-492 | after a write the file's bytes are the old ones with the source spliced in, no other file changes, no hole appears, and the inode on disk equals the one in memory |
| FsSpec.WriteInPlace | assignment1/fs.c:487-490 | a write within the file maps no block, so skipping iupdate is right |
| FsSpec.WriteLeavesNoHole | assignment1/fs.c:469-485 | every block below the new size is mapped |
| FsSpec.WroteChunk | assignment1/fs.c:479-485 | one turn of the loop writes exactly its bytes of one block |
| FsSpec.StoredBytes | assignment1/fs.c:480-484 | storing a data block changes that block of that file and no byte of any other |
| FsSpec.LinkedGrows | assignment1/fs.c:362-372 | linking a fresh zeroed block into a direct slot or the indirect slot keeps ownership and every file's bytes |
| FsSpec.LinkedWordGrows | assignment1/fs.c:373-380 | so does linking one into the indirect block |
| FsSpec.FreedOk | assignment1/fs.c:391-419 | truncation keeps ownership, empties the file and leaves the others alone |
| FsSpec.DroppedOk | assignment1/fs.c:317-336 | so does freeing an inode |
| FsSpec.StepKeepsOk | assignment1/fs.c:52-492 | each of these steps keeps ownership |
| FsSpec.EveryStateOwned | assignment1/fs.c:52-492 | in every state of every run of small steps (balloc and the store of its block in a slot or in the indirect block, bytes stored, a size set, a truncation) each block whose bit is set is owned by exactly one slot of one inode and no slot names a free block; ownership is assumed of the first state only |
| FsSpec.MapGrows | assignment1/fs.c:356-384 | one bmap, of at most two steps, maps the block asked for, changes no byte of any file, and does nothing if it was mapped |
| FsSpec.WritesWrote | assignment1/fs.c:479-485 | any number of turns of the write loop write exactly the source, whatever blocks they take |
| FsSpec.WriteLeads | assignment1/fs.c:460-492 | a whole write, with its iupdate, is a run of such steps |
| FsSpec.CallSound | assignment1/fs.c:391-492 | a whole write, a truncation or the freeing of an inode keeps ownership, leaves no hole and ends with the inode written back |
| FsSpec.EveryRunSound | assignment1/fs.c:391-492 | over every run of these calls, also no file has a hole and every inode on disk equals the one in memory between the calls |
| FsCode.FileSys.Balloc | assignment1/fs.c:52-76 | the first clear bit's block, marked and zeroed; panics only when all bits are set |
| FsCode.FileSys.Bfree | assignment1/fs.c:79-95 | clears the bit, and panics exactly when it is clear |
| FsCode.FileSys.Bmap | assignment1/fs.c:356-384 | the block of the file, allocated only if missing and step by step, with every other slot and byte kept; panics only past the largest file or when no block is left |
| FsCode.FileSys.WriteBlock | assignment1/fs.c:479-485 | one turn of writei's loop |
| FsCode.FileSys.WriteLoop | assignment1/fs.c:479-485 | the loop writes exactly the source |
| FsCode.FileSys.Writei | assignment1/fs.c:460-492 | both failure tests exactly, else a run of small steps with the splice as its effect, nothing else changed and only the sectors it may log logged |
| FsCode.FileSys.Readi | assignment1/fs.c:432-458 | exactly the clipped slice, with the 32-bit overflow test, allocating nothing |
| FsCode.FileSys.Itrunc | assignment1/fs.c:391-419 | frees the file's blocks, each once and no other; "freeing free block" cannot happen; every change is log_written, to the bitmap and the inode's sector alone |
| FsCode.FileSys.Iput | assignment1/fs.c:317-336 | the last reference to an inode without links frees it and its blocks, in a transaction of at most two sectors; any other changes nothing |
| FsCode.FileSys.WriteChunk | assignment1/file.c:139-146 | one turn of filewrite: both failures exactly, else one call of writei as one transaction of at most seven sectors |
| FsCode.FileSys.Filewrite | assignment1/file.c:125-153 | returns -1 exactly when the write starts past the end or would pass the largest file, else writes all of the source; each chunk is a transaction of at most seven sectors whose log_writes turn the sectors of the state before into those of the state after; it panics only when no block is left |
| FsDisk.FileReadBack | assignment1/fs.c:200-302 | a file system read back from the sectors it was written to has the same inodes and the same bytes in every file |
| FsDisk.SoundReadBack | assignment1/fs.c:200-302 | it is sound, and every block has the owner it had |
| FileCrash.ChunksSurvive | assignment1/file.c:125-153 | filewrite's transactions run on the log with crashes at any write and any number of failed recoveries: once recovered, what is read back from disk is the old file with the first bytes of the source spliced in, up to the end of a chunk, and every other file as before |
| FileCrash.CallsSurvive | assignment1/log.c:69-181 | any run of writes and freed inodes, each a transaction, cut by crashes at any write and any number of failed recoveries: once recovered, what is read back is sound, every block has one owner, and each file has the bytes it had after the calls committed |
| FileCrash.FilewriteCalls | assignment1/file.c:125-153 | filewrite's transactions are such a run |
| FileCrash.NextWriteFits | assignment1/log.c:164-179 | in any run of transactions to at most seven sectors each, cut by crashes or not, the log has a free slot whenever the next log_write is due |
| LinkSpec.LinkCountsExact | assignment1/sysfile.c:114-277 | over every run each nlink is the number of entries other than "." that name the inode in linked directories |
| LinkSpec.DirectoriesFormTree | assignment1/sysfile.c:163-277 | each linked directory but the root has exactly one entry, in the directory its ".." names, and the way up reaches the root |
| LinkSpec.LinkKeeps | assignment1/sysfile.c:115-160 | a link keeps counts, shape and tree |
| LinkSpec.UnlinkKeeps | assignment1/sysfile.c:179-232 | so does an unlink, of a file or of an empty directory |
| LinkSpec.CreateFileKeeps | assignment1/sysfile.c:234-277 | so does creating a file |
| LinkSpec.CreateDirKeeps | assignment1/sysfile.c:234-277 | so does creating a directory, with its two entries and its parent's count |
| LinkSpec.FreeKeeps | assignment1/fs.c:317-336 | so does freeing an inode whose count is zero |
| LinkSpec.EmptyCount | assignment1/sysfile.c:205-208 | an empty directory counts exactly one, so unlinking it always unlinks it for good |
| LinkSpec.ParentCount | assignment1/sysfile.c:213-216 | a directory with one below it counts at least two, so it stays linked |
| LinkSpec.UnlinkCounted | assignment1/sysfile.c:203-204 | "unlink: nlink < 1" cannot happen |
| LinkNames.PresentNamed | assignment1/fs.c:505-529 | dirlookup's test means that the directory gives the name to some inode |
| LinkNames.EmptyMeans | assignment1/sysfile.c:163-176 | isdirempty's test means that the directory names nothing but the dots |
| LinkNames.LinkSays | assignment1/sysfile.c:115-160 | a link adds one name to one directory and changes no other |
| LinkNames.UnlinkSays | assignment1/sysfile.c:179-232 | an unlink removes one |
| LinkNames.CreateSays | assignment1/sysfile.c:234-277 | creating a file adds one |
| LinkNames.MkdirSays | assignment1/sysfile.c:234-277 | creating a directory adds one, and its dots |
| LinkNames.FreeSays | assignment1/fs.c:317-336 | freeing an inode frees its number and takes only its own names with it |
| LinkCode.Directories.Dirlookup | assignment1/fs.c:505-529 | panics exactly on what is not a directory; else the first entry that gives the name, or none exactly when the directory does not name it |
| LinkCode.Directories.Dirlink | assignment1/fs.c:532-559 | fails exactly when the name is there, else fills the first free slot or appends, panicking only past the largest file |
| LinkCode.Directories.IsDirEmpty | assignment1/sysfile.c:163-176 | no used entry past the two dots, which EmptyMeans shows to mean that the directory names nothing but the dots |
| LinkCode.Directories.Link | assignment1/sysfile.c:115-160 | succeeds exactly when it should, and then the directory has just the one name more; a failed link leaves everything as it was |
| LinkCode.Directories.Unlink | assignment1/sysfile.c:179-232 | fails exactly for want of the name, for a dot or for a directory that names more than the dots, changing nothing; else just the one name is gone |
| LinkCode.Directories.Ialloc | assignment1/fs.c:175-198 | the first free inode, or none exactly when none is free |
| LinkCode.Directories.MakeDots | assignment1/sysfile.c:263-269 | the new directory has its two entries; "create dots" cannot happen |
| LinkCode.Directories.Create | assignment1/sysfile.c:234-277 | creates, and then there is just the one name more and a new directory's dots; returns the existing file or refuses exactly if the name is there; the last panic can only mean a full directory |
| DirDisk.EntryLayout | assignment1/fs.h:48-54 | the low byte of the number first, then the name's characters and zeros |
| DirDisk.EntryReadBack | assignment1/fs.h:50-53 | an entry's sixteen bytes read back as the entry |
| DirDisk.EntryWritten | assignment1/fs.c:553-556 | writing an entry's bytes at its offset replaces or appends that entry and no other |
| DirDisk.LinkTxView | assignment1/sysfile.c:126-149 | what sys_link writes to inodes and directory bytes is a link step of the inode table that they hold |
| DirDisk.UnlinkTxView | assignment1/sysfile.c:211-222 | what sys_unlink writes is an unlink step |
| DirDisk.CreateTxView | assignment1/sysfile.c:254-276 | what create writes for a file or device is a create step |
| DirDisk.MkdirTxView | assignment1/sysfile.c:254-276 | and for a directory, with its entries and its parent's count |
| DirDisk.IputTxView | assignment1/fs.c:317-336 | freeing an inode is a free step |
| DirDisk.TransactionKeeps | assignment1/sysfile.c:114-277 | so every transaction keeps the file system sound, the counts exact and the directories a tree |
| DirCode.SevenAgain | assignment1/sysfile.c:114-277 | a transaction on two inodes and one block of each logs at most seven sectors when the bitmap is one block |
| DirCode.LinkWrites | assignment1/sysfile.c:126-149 | sys_link's writes are the link transaction and every one is log_written; it fails only when no block is left |
| DirCode.UnlinkWrites | assignment1/sysfile.c:211-222 | so are sys_unlink's |
| DirCode.CreateWrites | assignment1/sysfile.c:254-276 | and create's for a file or device |
| DirCode.MkdirWrites | assignment1/sysfile.c:254-276 | and for a directory |
| TreeCrash.TreeSurvives | assignment1/log.c:69-181 | any run of link, unlink, create, iput and write transactions, cut by crashes at any write and any number of failed recoveries: once recovered, the inodes and entries on disk are those after the transactions committed, every block has one owner, every link count is exact and the directories form a tree |
| TreeCrash.FilewriteTrees | assignment1/file.c:125-153 | filewrite on a file is such a run |
| HeapSpec.InsertSeparated | assignment1/umalloc.c:33-42 | coalescing keeps the free list ordered with nothing adjacent |
| HeapSpec.InsertUnits | assignment1/umalloc.c:33-42 | free adds exactly the block's units to the free ones |
| HeapSpec.TakeUnits | assignment1/umalloc.c:76-82 | malloc removes exactly the returned block's units |
| HeapSpec.FreeUndoesMalloc | assignment1/umalloc.c:24-90 | freeing what malloc just returned restores the free list |
| Umalloc.RoomUnlessWrapped | assignment1/umalloc.c:69 | the block has room for the request if and only if the sum does not wrap |
| Umalloc.WrappedRequest | assignment1/umalloc.c:69 | a request of 2^32 - 1 bytes is given a block of one unit, the header alone |
| Umalloc.HonestRequest | assignment1/umalloc.c:52-58 | sbrk is asked for the block that morecore builds if and only if it is below 2^28 units |
| Umalloc.EmptiesIff | assignment1/proc.c:107-123 | sbrk is asked to take back the whole process if and only if the block is of 2^29 units less the break |
| Umalloc.EmptyingRequest | assignment1/proc.c:117-119 | a malloc by a process of 64 kilobytes that fails with all memory freed |
| Umalloc.SoundRequests | assignment1/umalloc.c:52-69 | sum and product are both right if and only if the request is at most 0x7ffffff0 bytes |
| Umalloc.Tiling | assignment1/umalloc.c:24-90 | each unit obtained from sbrk is in exactly one block, free or live |
| Umalloc.EveryRunTiles | assignment1/umalloc.c:24-90 | after any run of malloc, free and morecore free and live blocks tile the memory and no two free blocks are adjacent |
| Umalloc.FreedOk | assignment1/umalloc.c:24-44 | freeing a live block keeps the heap sound |
| Umalloc.AllocatedOk | assignment1/umalloc.c:74-85 | so does carving one from the end of a free block |
| Umalloc.ObtainedOk | assignment1/umalloc.c:46-61 | so does memory from sbrk |
| Umalloc.SbrkExact | assignment1/proc.c:107-123 | if sbrk succeeds, the block that morecore builds is the process's memory if and only if the argument was that block's size and every page was mapped; if it fails, the heap is still the process's memory if and only if the new size would not have been zero |
| Umalloc.GrowthBacked | assignment1/umalloc.c:46-69 | on every sound heap, for every request and break: if sbrk succeeds, the grown heap is the process's memory exactly below 2^28 units and has room too exactly up to 0x7ffffff0 bytes, given the frames; if it fails, the heap survives except at one block size |
| Umalloc.FreeEffect | assignment1/umalloc.c:33-43 | free's stores turn the ring of headers into that of the list with the block inserted and leave live headers alone |
| Umalloc.CarveEffect | assignment1/umalloc.c:75-84 | so do malloc's stores, with the block taken out |
| Umalloc.PayloadIsNoHeader | assignment1/umalloc.c:11-17 | the program's stores into its own block touch no header |
| Umalloc.Allocator.FindPlace | assignment1/umalloc.c:30-32 | the search ends, from any cursor, at the node below the block |
| Umalloc.Allocator.Free | assignment1/umalloc.c:24-44 | the heap is the old one with the block freed |
| Umalloc.Allocator.Store | assignment1/umalloc.c:11-17 | the program's stores into its own block leave the allocator as it was |
| Umalloc.Allocator.Sbrk | assignment1/sysproc.c:45-56 | the old break or -1, and the process's size and memory after growing, shrinking, wrapping or emptying it |
| Umalloc.SbrkBack | assignment1/proc.c:107-123 | what one sbrk has added another takes back, restoring size and memory |
| Umalloc.Allocator.Morecore | assignment1/umalloc.c:46-61 | fails exactly if sbrk fails, leaving the heap alone, else the heap grows by at least 4096 units and has a block that fits; exactly when the heap is still the process's memory, for both |
| Umalloc.Allocator.Malloc | assignment1/umalloc.c:63-90 | asks sbrk exactly when no free block fits and fails exactly if sbrk fails, else returns a block that fits from the old or once-grown heap; exactly when the heap is still the process's memory and the block has room, for success and failure; the loop ends |
| PipeMachine.PipeIsFifo | assignment1/pipe.c:77-120 | over every interleaving the bytes delivered are a prefix of those accepted and at most 512 are outstanding |
| PipeMachine.NoLostWakeup | assignment1/pipe.c:58-120 | with the lock free, a sleeping reader means empty with writers open, a sleeping writer full with readers open, so the two never sleep together |
| PipeMachine.CounterTests | assignment1/pipe.c:84-108 | the full and empty tests are right although the counters wrap at 2^32 |
| PipeMachine.PutFifo | assignment1/pipe.c:92 | one byte in keeps the ring equal to the undelivered bytes |
| PipeMachine.GetFifo | assignment1/pipe.c:112-116 | one byte out is the oldest |
| PipeMachine.KilledWriterKeepsIff | assignment1/pipe.c:85-88 | a killed writer's return keeps the guarantee if and only if no reader is asleep or on its way there |
| PipeMachine.KilledWriterLosesWakeup | assignment1/pipe.c:85-88 | a run that ends with a full pipe and a reader asleep on it |
| PipeCalls.WritesAll | assignment1/pipe.c:77-97 | over every interleaving a pipewrite that was not killed returns with all of its bytes in the pipe, or the read end is closed |
| PipeCalls.SendsItsBytes | assignment1/pipe.c:77-97 | the bytes a call has put in are the first bytes of its source, in order, whoever writes in between |
| PipeCalls.ReadsAll | assignment1/pipe.c:99-120 | a piperead ends with as many bytes as it asked for or the pipe empty, and with none only if it asked for none or no writer is left |
| PipeCalls.GetsItsBytes | assignment1/pipe.c:99-120 | the bytes a call has are those it has taken out, in order |
| PipeCalls.Closes | assignment1/pipe.c:58-74 | pipeclose leaves its end closed |
| PipeCode.Ring.Put | assignment1/pipe.c:83-93 | copies bytes in order until done or full |
| PipeCode.Ring.Get | assignment1/pipe.c:112-116 | takes up to n bytes, the oldest first |
| ProcMachine.RunningIffOnOneCpu | assignment1/proc.c:274-335 | with ptable.lock free a process is RUNNING if and only if exactly one CPU's proc points at it |
| ProcMachine.ResumesSavedContext | assignment1/proc.c:284-301 | the scheduler switches only to a saved context on an allocated stack that no other CPU is on |
| ProcMachine.ReapsUnusedStack | assignment1/proc.c:222-235 | wait frees a kernel stack only when no CPU is on it |
| ProcMachine.ChildrenAreMinded | assignment1/proc.c:166-247 | every process but init has a parent, a parent is alive whatever its child's state, and no parent sleeps in wait with a zombie child |
| ProcMachine.WaitersHaveReason | assignment1/proc.c:208-247 | a process that went to sleep in wait and still sleeps has a child and no zombie child |
| ProcMachine.WokenExactly | assignment1/proc.c:359-437 | a process that went to sleep on a channel and still sleeps is made RUNNABLE by a step if and only if that is a wakeup on the channel or a kill of it |
| ProcMachine.KilledStays | assignment1/proc.c:416-437 | kill wakes its process, which from then on is marked killed and never sleeps in wait, until its slot is free |
| ProcMachine.ExitIsFinal | assignment1/proc.c:166-247 | a process that has exited is a zombie, with its pid, until a wait has returned that pid |
| ProcMachine.ReapedOnce | assignment1/proc.c:208-247 | each pid is returned by at most one wait |
| ProcMachine.StepKeeps | assignment1/proc.c:34-437 | every step of every CPU and process keeps the invariant, wakeups from interrupts on an idle CPU included |
| ProcProgress.Dispatches | assignment1/proc.c:266-305 | from the scheduler's loop a CPU can switch to any RUNNABLE process, which then runs with its channel cleared |
| ProcProgress.SwitchesBack | assignment1/proc.c:307-335 | a CPU whose process has given up comes back to the loop, with the context saved and the lock free |
| ProcProgress.Forks | assignment1/proc.c:34-161 | fork leaves a RUNNABLE child with a fresh pid, a stack, a context and its parent |
| ProcProgress.Exits | assignment1/proc.c:163-204 | exit leaves a zombie and no children |
| ProcProgress.Waits | assignment1/proc.c:208-247 | wait with a zombie child returns its pid and frees its slot |
| ProcCode.Table.Wakeup1 | assignment1/proc.c:397-405 | wakes exactly the sleepers on the channel |
| ProcCode.Table.ExitScan | assignment1/proc.c:188-201 | the table afterwards is the one of the machine's exit step |
| ProcCode.Table.WaitScan | assignment1/proc.c:214-242 | reaps the first zombie child, gives up without children or when killed, else sleeps |
| ProcCode.Table.AllocScan | assignment1/proc.c:40-50 | the first UNUSED slot becomes an EMBRYO with a fresh pid; none exactly when no slot is UNUSED |
| ProcCode.Table.KillScan | assignment1/proc.c:416-437 | the first slot with the pid is marked killed and is not left asleep; none exactly when no slot has it |
| VmSpec.NewTable | assignment1/vm.c:45-65 | adding a zeroed table changes no translation, nor what later entries in it may allow |
| VmSpec.SetEntry | assignment1/vm.c:83 | storing an entry changes exactly that page's translation |
| VmSpec.VisitsIff | assignment1/vm.c:258-262 | which pages deallocuvm's loop looks at, with its jump over missing tables |
| VmSpec.AlignedMissesNone | assignment1/vm.c:257-271 | from a 4MB boundary it misses no mapped page |
| VmSpec.ContiguousMissesNone | assignment1/vm.c:257-271 | nor in memory mapped from page 0 without gaps |
| VmSpec.MissedIff | assignment1/vm.c:257-271 | exactly when it misses a mapped page |
| VmSpec.MissesOne | assignment1/vm.c:257-271 | an address space in which it does |
| VmSpec.Unmap | assignment1/vm.c:263-270 | freeing a page's frame and clearing its entry keeps frames owned once |
| VmSpec.KernelSlotsAre | assignment1/vm.c:115-125 | the kernel's map has a page table in each of the kernel's slots |
| VmSpec.LosesOnce | assignment1/vm.c:231-240 | allocuvm loses a frame at one page at most, and only with fewer frames than it needs |
| VmSpec.LosesNone | assignment1/vm.c:231-240 | it loses none with as many frames as it needs, or when they run out between two pages |
| VmSpec.UserNeed | assignment1/vm.c:128-243 | n user pages over the kernel's map need n frames, one for every 1024 begun and 65 for the kernel's, and a page starts a table exactly at multiples of 1024 |
| VmCode.KmapPages | assignment1/vm.c:115-125 | each region ends where its last page says, the last at 2^32 |
| VmCode.AllocEnds | assignment1/vm.c:231-240 | every way allocuvm's loop can end is the one the number of free frames says |
| VmCode.Vm.Kalloc | assignment1/kalloc.c:82-95 | pops the free list, failing exactly when it is empty |
| VmCode.Vm.Kfree | assignment1/kalloc.c:59-77 | pushes and fills the frame, panicking exactly outside the range |
| VmCode.Vm.WalkAlloc | assignment1/vm.c:45-65 | the entry's table exists afterwards unless memory ran out; no translation changes |
| VmCode.Vm.Mappages | assignment1/vm.c:70-90 | maps exactly the pages of the range, in 32-bit arithmetic and up to 2^32, changes no other and takes only table frames; panics on a page already mapped |
| VmCode.Vm.Setupkvm | assignment1/vm.c:128-144 | the kernel's map and nothing else, from frames that were free; succeeds if and only if 65 frames are free, and leaves none free when it fails |
| VmCode.Vm.Allocuvm | assignment1/vm.c:220-243 | the new pages are mapped to fresh zeroed frames, or all is undone; it succeeds and loses nothing if and only if the pages and missing tables have free frames, and loses one frame if and only if the last free frame goes to a page whose table is missing, reporting success exactly if that is the last page |
| VmCode.Vm.Deallocuvm | assignment1/vm.c:249-273 | the pages it looks at are unmapped and their frames free; no panic |
| VmCode.Vm.Freevm | assignment1/vm.c:277-292 | every frame of the space is free again, each once; no panic |
| VmCode.Vm.Copyuvm | assignment1/vm.c:309-336 | equal contents in disjoint frames, the parent untouched; which of copy, panic at the first absent page and out of memory happens, and what frames are lost, is told exactly by the number of free frames and the first absent page |
| VmCode.Vm.Lifetime | assignment1/vm.c:128-292 | set up, grow and free: the free list ends as the same set, without duplicates, up to a frame allocuvm lost; it sets up exactly with 65 free frames, and grows losing none exactly with the frames the whole space needs |
| VmCode.LosesAFrame | assignment1/vm.c:231-240 | a growth by one page that reports success, leaves the page unmapped and a frame neither free nor owned |
| ShSpec.RoundTrip | assignment1/sh.c:383-502 | parsing the bracketed printing of any command of valid words, at most nine arguments each, gives that command back |
| ShSpec.LineParses | assignment1/sh.c:400-415 | a printed command parses to itself wherever it stands before a stop |
| ShSpec.SaysExactlyItsWords | assignment1/sh.c:321-502 | on every input that parses, the arguments and file names are exactly the words of the input: none dropped, made up or cut short |
| ShGrammar.ParsesExactly | assignment1/sh.c:383-502 | for every input, parsecmd gives a command if and only if the grammar gives it to the input's tokens: pipelines bind tighter than &, & tighter than ;, both group to the right, redirections stand anywhere |
| ShGrammar.LineRead | assignment1/sh.c:400-428 | what the grammar calls a line parseline reads as that, up to where it ends |
| ShGrammar.LineMeans | assignment1/sh.c:400-428 | and what parseline reads the grammar calls a line with that meaning |
| ShGrammar.OneMeaning | assignment1/sh.c:383-502 | the grammar gives each input one meaning at most |
| ShGrammar.SpelledToks | assignment1/sh.c:321-364 | any sequence of words and symbols, spelled out with blanks, has just those tokens |
| ShGrammar.SpelledParses | assignment1/sh.c:383-502 | so every command of the grammar has a text that parses to it |
| ShAppend.AppendIsOutput | assignment1/sh.c:440-450 | for every input and every >> in it, the input with "> " instead parses to the same command, with the same words, or panics alike |
| ShAppend.TokenSame | assignment1/sh.c:321-364 | all tokens stay where they were and only the >> becomes > |
| ShCode.CutSeen | assignment1/sh.c:504-549 | cut at the ends of its words, the buffer shows every argument and file name exactly as typed |
| ShCode.EndsBetween | assignment1/sh.c:504-549 | a cut never falls inside a word |
| ShCode.Gettoken | assignment1/sh.c:321-364 | the token at the position, its bounds and the next position |
| ShCode.Peek | assignment1/sh.c:366-376 | whether one of the characters is next |
| ShCode.Parseredirs | assignment1/sh.c:430-453 | the redirections in order, or the panic for a missing file |
| ShCode.ParseWords | assignment1/sh.c:484-501 | the arguments and redirections in order, or the panics |
| ShCode.Parseexec | assignment1/sh.c:471-502 | a simple command or a block; ends on every input |
| ShCode.Parseblock | assignment1/sh.c:455-469 | a bracketed line and its redirections, or the panics |
| ShCode.Parsepipe | assignment1/sh.c:417-428 | a pipeline, grouped to the right |
| ShCode.Parseline | assignment1/sh.c:400-415 | a list, grouped to the right, with its background marks |
| ShCode.Nulterminate | assignment1/sh.c:504-549 | writes NUL at the ends of the command's words and nowhere else |
| ShCode.Parsecmd | assignment1/sh.c:383-398 | parses the whole string or panics, and what runcmd then sees in the buffer is what was parsed |
| Grep.Match | assignment1/grep.c:71-81 | true if and only if some substring, or prefix after '^', is in the pattern's language |
| Grep.MatchHere | assignment1/grep.c:83-95 | true if and only if some prefix of the text is in the pattern's language |
| Grep.MatchStar | assignment1/grep.c:97-105 | true if and only if some run of the character is followed by a match of the rest |
| Grep.OneStep | assignment1/grep.c:92-93 | one literal or '.' of the language |
| Grep.StarStep | assignment1/grep.c:88-89 | a starred character of the language |
| Grep.Anchor | assignment1/grep.c:90-91 | a final '$' matches only at the end |

## Left out

- LogCode.Log.LogWrite: requires a home sector below the log. mkfs marks only the blocks it has used in the bitmap (`mkfs.c:237`) while balloc scans to the disk's size (`fs.c:63`), so balloc could hand out one of the log's own sectors on a full disk.
- LogMachine.CrashAtomicity: covers writes between begin_trans and commit_trans. exit and sys_chdir call iput outside a transaction (`proc.c:183`, `sysfile.c:372`).
- FsCode.FileSys.Readi: requires a file without holes, which every modelled write keeps. The root directory whose size mkfs rounds up to a whole block is taken to have that block.
- FsCode.FileSys.Filewrite: the bitmap is one block, as in the image that mkfs writes, and the inode is no device: devsw's write routines are not modelled.
- FsCode.FileSys.Bfree: requires a block past the metadata. The blocks that are freed are those an inode's slots name, and ownership keeps these past it.
- FsCode.FileSys.Balloc: the model's blocks end at the log, where the code's scan goes on to the disk's size.
- FileCrash.ChunksSurvive: the home sectors are the model's blocks, which end at the log.
- DirCode.LinkWrites: the writes once sys_link's tests have passed, as for UnlinkWrites, CreateWrites and MkdirWrites; LinkCode has the tests, over the inode table. What ialloc and create write to one inode is one change to it.
- Umalloc.Allocator.Malloc: requires a heap below the break. After a call that leaves the heap beyond it the code stores outside the process's memory. The break is a multiple of eight bytes, as it is if malloc alone moves it.
- LinkCode.Directories.Unlink: acts in a linked directory, as Create and Link do; a process whose working directory has been removed could still make entries in it.
- LinkCode.Directories.Create: acts in a linked directory.
- LinkCode.Directories.Link: acts in linked directories. Link counts are integers, not shorts: the image has too few entries to wrap one.
- VmCode.Vm.Allocuvm: requires that nothing is mapped past the old size, which is what its callers pass.
- VmCode.Vm.Copyuvm: keeps contents, not permissions, as the code does.
- VmCode.Vm.Kalloc: the free list is a sequence; the links inside free pages are not modelled.
- IdeMachine.ReturnsAsMemide: for interrupts that report completion without error; the port I/O is not modelled.
- ProcMachine.ReapedOnce: pids are integers that do not wrap.
- PipeCalls.WritesAll: is about runs in which no writer is killed; a killed writer returns early. pipeclose's freeing of a pipe with both ends closed is not modelled.
- The inode cache (iget, ilock, iput's reference counts) and path lookup: directories and inodes are given to the model's operations directly.
- Raw layouts of dinodes and the superblock: records. The log header, the indirect block, the bitmap and directory entries are bytes.
- Spinlocks, xchg and memory ordering: a lock is an owner with atomic acquire and release.
- freerange, kinit, inituvm, loaduvm, clearpteu, copyout: they would only add easy members.
- runcmd, getcmd and main of the shell, and grep's read loop: system calls and I/O.
- exec, trap, syscall argument fetching, signals, the console, boot code and device drivers: plumbing around raw user memory and hardware.
- mkfs, usertests and the generated files; lab1 to lab11, stuff and temp: small programs with no such state.
