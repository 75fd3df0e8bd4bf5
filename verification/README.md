# A verified model of the kernel's memory, processes and file system

This project models the parts of a small Unix-like kernel, and of two of its user programs, that are hardest to get
right, and proves what they are for. Everything is checked by `dafny verify dfyconfig.toml`.

- **Crash safety and group commit.** The write-ahead log is modelled from its on-disk header up: `LogSpec` has the
  writes of `commit` and `recover` and what a crash leaves, `Log` the log object, `LogProtocol` all interleavings of any
  number of processes with a commit, `LogSteps` ties the last two together, and `LogRoom`
  and `LogBuffers` say when the log and the buffer cache can fill up. After any crash, recovery finds whole
  groups of whole operations.
- **Buffer cache.** `Bcache` has the LRU list with its links and refines the abstract cache of `BlockCache`, which the
  log is built on.
- **Files.** Below a file there are inodes, indirect blocks and a bitmap (`FsSpec`, `FsOwner`, `FsInode`, `Fs`); above it,
  a sequence of bytes (`FsFile`, `FsWrite`). `iread`, `try_iwrite` and `truncate` are proved against that sequence and
  against exact ownership of blocks; `FsFormat` has the empty file system, `FsDisk` what can be read after a restart.
- **Long writes.** `FileWrite` has `fwrite` with its batches and what each costs the log; `FileCommit` proves that a
  crash leaves a prefix of the batches; `FileRefused` has a call that fails after it has written.
- **Directories.** `DirSpec` and `DirSteps` have entries, link counts and references as a state machine; `Dir` has the
  methods, `DirRemoved` says what goes wrong in removed directories, and `DirBytes` puts the entries into files.
- **Page tables.** `PageTable` refines a flat map by the three-level tree of Sv39 (RISC-V Privileged Architecture,
  section 4.4).
- **Physical memory.** `BuddySpec`, `BuddyInit`, `KernelList` and `Kalloc` have the buddy allocator, its intrusive lists,
  its bitmaps and its start-up accounting.
- **Processes.** `ExitWait` has `fork`, `exiting`, `waiting` and reparenting over all interleavings; `SleepLock` the sleep
  lock and its wakeups.
- **User programs.** `Umalloc` has the allocator of `umalloc.c`, `Grep` the matcher of `grep.c`.

Objects that the kernel updates in place are classes; each method is proved against a function or predicate on values,
and the laws are lemmas about those. Ghost fields hold what the code does not store: who owns a block, which translation
a page table stands for, what has been written. Protocols are functions from states to states, and their laws hold for
every run. A panic is a result of the method that panics; where a contract rules the result out, the panic is unreachable.

## Model

| member | source | states |
|---|---|---|
| LogSpec.HeaderRoundTrip | kernel/src/fs/log.rs:141-166 | a header written to its block is read back unchanged |
| LogSpec.CommitInstalls | kernel/src/fs/log.rs:290-301 | without a crash, a commit leaves every logged block in its place and the log empty |
| LogSpec.CrashInCommit | kernel/src/fs/log.rs:290-301 | a crash inside a commit leaves either an empty log over the old disk, or the whole group in the log |
| LogSpec.CommitIsAtomic | kernel/src/fs/log.rs:128-138 | after a crash anywhere in a commit and any number of crashes in recovery, the recovered disk outside the log is the old one or the old one with every logged block replaced |
| Log.Log.constructor | kernel/src/fs/log.rs:91-104 | starting the log on any disk whose header a commit can have left recovers that disk and leaves the log empty and consistent |
| Log.Log.Recover | kernel/src/fs/log.rs:128-138 | makes exactly the recovery writes and ends with the recovered disk and an empty log |
| Log.Log.ReadHead | kernel/src/fs/log.rs:141-151 | the cached header becomes the one on disk, and the buffer is given back |
| Log.Log.WriteHead | kernel/src/fs/log.rs:155-166 | the only write is the header block with the cached header |
| Log.Log.EmptyHead | kernel/src/fs/log.rs:193-200 | the only write is the header block with length 0 |
| Log.Log.InstallTrans | kernel/src/fs/log.rs:238-256 | copies the logged blocks home in order; after a commit each also loses its pin, in recovery none does |
| Log.Log.Commit | kernel/src/fs/log.rs:290-301 | panics unless the committing flag is set; otherwise makes exactly the commit's writes, drops the pins, and empties the header |
| Log.Log.WriteLog | kernel/src/fs/log.rs:334-349 | copies the cached contents of the logged blocks into the log, in order |
| Log.Log.TryBegin | kernel/src/fs/log.rs:387-403 | one attempt of begin_op admits exactly if no commit is under way and MAXOPBLOCKS blocks per operation still fit |
| Log.Log.WriteBuf | kernel/src/fs/log.rs:439-466 | when write panics, absorbs or adds, and what it does to header, pins and the caller's handle |
| Log.Log.EndOp | kernel/src/fs/log.rs:506-534 | the last operation commits everything logged; an end during a commit panics |
| LogSteps.WriteIsWrite | kernel/src/fs/log.rs:439-466 | a write step of the protocol has the effect that the method has, with the same panics |
| LogSteps.BeginIsTryBegin | kernel/src/fs/log.rs:387-403 | the protocol admits an operation exactly when the method does |
| LogSteps.EndIsEndOp | kernel/src/fs/log.rs:506-534 | an ending step panics exactly when the method does, and starts a commit exactly when the method commits something |
| LogSteps.HeadIsWriteHead | kernel/src/fs/log.rs:155-166 | the committing step of the protocol meets what the method needs and has its effect |
| LogSteps.EmptyIsEmptyHead | kernel/src/fs/log.rs:193-200 | the emptying step of the protocol meets what the method needs and has its effect |
| LogSteps.CopyIsCopyOne | kernel/src/fs/log.rs:334-349 | the copying step of the protocol finds its block in a pinned buffer and writes what the method writes |
| LogSteps.InstallIsInstallOne | kernel/src/fs/log.rs:238-256 | the installing step of the protocol meets what the method needs and has its effect |
| LogProtocol.StepKeepsInv | kernel/src/fs/log.rs:387-534 | every step of every process keeps log, cache and disk in agreement |
| LogProtocol.PanicsOf | kernel/src/fs/log.rs:439-534 | the panics of end_op and unpin are unreachable; write finds the log full exactly for a new block when the header holds LOGSIZE - 2 |
| LogProtocol.QuietWhileCommitting | kernel/src/fs/log.rs:506-534 | in every run, while a commit is under way no operation is active, admitted or writing |
| LogProtocol.LogAndCacheAgree | kernel/src/fs/log.rs:439-466 | in every run, a buffer's references are its handles and its pin, a block is pinned exactly while it is in the header and not installed, and the cache shows the logical contents |
| LogProtocol.OneCommit | kernel/src/fs/log.rs:506-534 | in every run, all updates of one operation fall in one group |
| LogProtocol.CommittedInOrder | kernel/src/fs/log.rs:387-403 | in every run, if an update of an operation is committed, so are those of every operation that had begun when it had not |
| LogProtocol.CrashLeavesWholeGroups | kernel/src/fs/log.rs:128-138 | for every run, crash and number of crashes in recovery, the recovered disk is the initial one with the committed groups applied |
| LogRoom.RunKeepsSpace | kernel/src/fs/log.rs:387-403 | if operations enter fewer than MAXOPBLOCKS new blocks each, the log never fills |
| LogRoom.LogOverflows | kernel/src/fs/log.rs:387-403 | with operations that enter MAXOPBLOCKS new blocks there is a run in which write panics on a full log |
| LogRoom.RoomIffFewerBlocks | kernel/src/fs/log.rs:439-466 | write never finds the log full in any run if and only if operations enter fewer than MAXOPBLOCKS new blocks |
| LogRoom.FrugalKeepsSpace | kernel/src/fs/log.rs:387-403 | if operations log at most MAXOPBLOCKS blocks and at most six outside a set of seven shared blocks, the log never fills |
| LogRoom.RoomIffFewShared | kernel/src/fs/log.rs:439-466 | for such operations with n shared blocks, write never finds the log full in any run if and only if n is at most seven |
| LogBuffers.NoBufferIff | kernel/src/fs/bio.rs:127-162 | a step of the log protocol finds no buffer if and only if pinned blocks and others with handles take all NBUF buffers and it asks for one more |
| LogBuffers.OneHandleIsSafe | kernel/src/fs/bio.rs:127-162 | in every run in which at most one block that is not pinned has handles at a time, the cache never runs out of buffers |
| Bcache.BufLru.constructor | kernel/src/fs/bio.rs:73-95 | the initial list links all buffers once, in order |
| Bcache.BufLru.FindCached | kernel/src/fs/bio.rs:378-389 | finds the buffer of a block if and only if there is one, and takes a reference |
| Bcache.BufLru.Recycle | kernel/src/fs/bio.rs:425-438 | takes the unreferenced buffer that was released longest ago; fails exactly if all are referenced |
| Bcache.BufLru.MoveIfNoRef | kernel/src/fs/bio.rs:475-499 | drops a reference; a buffer without any moves to the front and the links stay one list in both directions |
| Bcache.Bcache.Bget | kernel/src/fs/bio.rs:127-162 | finds the buffer of a block or recycles one; fails exactly if every buffer is referenced and none is for the block |
| Bcache.Bcache.Bread | kernel/src/fs/bio.rs:192-199 | a read shows what the abstract cache shows, and fails exactly when that has no room |
| Bcache.Bcache.Bwrite | kernel/src/fs/bio.rs:257-260 | the disk receives the contents of the buffer |
| Bcache.Bcache.Brelse | kernel/src/fs/bio.rs:207-209 | the abstract cache loses exactly one reference |
| Bcache.Bcache.Pin | kernel/src/fs/bio.rs:278-285 | the abstract cache gains exactly one reference |
| Bcache.Bcache.Unpin | kernel/src/fs/bio.rs:289-296 | panics exactly if the caller's handle is the only reference; otherwise one reference less |
| FsSpec.InodeRoundTrip | kernel/src/fs/inode.rs:777-785 | an inode written to its place is read back unchanged |
| FsOwner.BitmapIsOwnership | kernel/src/fs/block.rs:46-76 | a block is marked if and only if it is metadata or some slot of some inode refers to it, and then exactly one does |
| FsFormat.FormatOk | mkfs/mkfs.c:111-173 | an empty formatted disk meets the invariant of the file system |
| Fs.FileSystem.FindFree | kernel/src/fs/block.rs:46-76 | finds the first unmarked block, or none exactly if all are marked |
| Fs.FileSystem.BmAlloc | kernel/src/fs/block.rs:46-76 | the first unmarked block is marked and zeroed, and nobody owned it; it fails only on a full disk |
| Fs.FileSystem.BmFree | kernel/src/fs/block.rs:107-120 | clears the mark, and panics exactly if there is none |
| Fs.FileSystem.InodeAlloc | kernel/src/fs/block.rs:154-169 | the first free inode after inode 0 becomes a fresh one on disk; no file changes |
| Fs.FileSystem.Update | kernel/src/fs/inode.rs:777-785 | the inode on disk becomes the cached one, the other inodes on disk stay |
| Fs.FileSystem.MapBlockno | kernel/src/fs/inode.rs:1075-1112 | gives the block of a file, allocating zeroed blocks where there are none; every mapped block stays mapped; fails only on a full disk |
| FsWrite.MidwayGoesOn | kernel/src/fs/inode.rs:985-1000 | a round of the write loop keeps the bytes written so far and the count of logged blocks right |
| Fs.FileSystem.TryIwrite | kernel/src/fs/inode.rs:970-1008 | the file becomes the old one with the written bytes spliced in, every other file is unchanged, all bytes are written unless copying fails, only logged blocks change and their number is bounded; refused exactly beyond the end or the maximum; panics only on a full disk |
| Fs.FileSystem.Iread | kernel/src/fs/inode.rs:820-847 | reads exactly the bytes of the file at the offset, changes nothing, and fails exactly if they reach beyond the end or copying fails |
| Fs.FileSystem.TryIread | kernel/src/fs/inode.rs:879-892 | reads the bytes from the offset to the count or the end of the file, and none behind the end; fails if copying fails, or if offset plus count is no 32-bit number and the offset is not behind the end |
| FsFile.SplicedFile | kernel/src/fs/inode.rs:970-1008 | block-wise writes amount to one splice of the byte sequence |
| FsFile.SpliceTwice | kernel/src/fs/file/mod.rs:254-280 | writing two pieces in a row is writing their concatenation |
| Fs.FileSystem.Truncate | kernel/src/fs/inode.rs:716-744 | never panics; exactly the blocks that the inode owned lose their mark, its slots are empty and its size 0, all other files and owners are as they were |
| FsTruncate.FreedExactly | kernel/src/fs/inode.rs:716-744 | a block loses its mark if and only if the inode owned it |
| FsOwner.LeafOnce | kernel/src/fs/inode.rs:724-740 | no block hangs twice on an indirect block, and none is the indirect block |
| Fs.FileSystem.FreeInode | kernel/src/fs/inode.rs:211-216 | a freed inode is empty, owns nothing, and no other inode or file changes |
| FileWrite.OpenFile.Fwrite | kernel/src/fs/file/mod.rs:247-286 | after each batch, also before the panic of a full disk, the disk holds the old file with the bytes so far spliced in, and every other file; the position advances by what is written; if all bytes can be copied, it fails exactly if offset or end is out of range, and has then written something exactly if the first batch is in range |
| FileRefused.RefusedAfterWriting | kernel/src/fs/file/mod.rs:254-280 | writing one byte more than a file can hold to a new file on an empty disk fails and leaves the whole batches that fit |
| FileRefused.FullOfOne | kernel/src/fs/block.rs:46-76 | a disk that is full with the blocks of one file has at most as many data blocks as an inode has slots |
| FileWrite.OpenFile.WriteBatch | kernel/src/fs/file/mod.rs:258-266 | one batch advances position and file together, changes only what it logs, and is refused exactly beyond the end or the maximum |
| FileWrite.BatchFitsLog | kernel/src/fs/file/mod.rs:254-255 | a batch logs at most MAXOPBLOCKS blocks, six besides bitmap blocks, 7 with one bitmap block, and fewer than MAXOPBLOCKS unless it starts inside a block and there are four bitmap blocks |
| FileCommit.FwriteIsAtomic | kernel/src/fs/file/mod.rs:254-280 | among any other operations that leave a set of blocks alone, after a crash at any point of a long write and any number in recovery, every file that lies in these blocks is what a whole number of leading batches has made of it |
| FileCommit.AloneIsAtomic | kernel/src/fs/file/mod.rs:254-280 | if no other process writes, this is so for all files |
| FileCommit.CrashKeepsFiles | kernel/src/fs/log.rs:128-138 | after a crash and any number in recovery, the disk holds the files of the committed groups |
| FileCommit.BatchesFitLog | kernel/src/fs/file/mod.rs:254-255 | with at most seven bitmap blocks no run of operations of that shape finds the log full; with eight or more such a run exists |
| FileCommit.BatchIsFrugal | kernel/src/fs/file/mod.rs:254-255 | every batch logs at most MAXOPBLOCKS blocks and at most six that are not bitmap blocks of the disk |
| FileCommit.BatchHasPlan | kernel/src/fs/file/mod.rs:254-280 | what a batch changes can be handed to the log within its cost |
| FsDisk.DiskIsCached | kernel/src/fs/inode.rs:566-583 | between operations, the files on disk are the cached ones |
| FsDisk.SameHomeSameFile | kernel/src/fs/log.rs:128-138 | disks that differ in the log only hold the same files |
| Dir.Tree.Get | kernel/src/fs/inode.rs:92-124 | one more reference in the inode's only place or in a free one; fails exactly if there is neither |
| Dir.Tree.Dup | kernel/src/fs/inode.rs:152-160 | one more reference |
| Dir.Tree.Lock | kernel/src/fs/inode.rs:566-583 | the inode is read in; panics exactly if it has not been and is free |
| Dir.Tree.Put | kernel/src/fs/inode.rs:196-229 | one reference less; the last one frees the inode exactly if it is read in and has no links |
| Dir.Tree.Matches | kernel/src/fs/inode.rs:1162-1170 | names are equal if they agree up to and including the first 0 |
| Dir.Tree.DirLookup | kernel/src/fs/inode.rs:1149-1176 | finds the first entry in use with the name, if any, and takes a reference to what it names |
| Dir.Tree.DirLink | kernel/src/fs/inode.rs:1211-1245 | enters a new name in the first free entry or at the end; an existing name is refused and nothing changes |
| Dir.Tree.DirIsEmpty | kernel/src/fs/inode.rs:1355-1370 | tells whether there are entries besides the first two |
| Dir.Tree.DirUnlink | kernel/src/fs/inode.rs:1282-1325 | removes the entry and lowers the counts, or keeps everything for ".", "..", a missing name or a directory with entries |
| Dir.Tree.Unlink | kernel/src/fs/inode.rs:1282-1325 | in a linked directory this keeps every count right and panics only if the inode cache is full |
| Dir.Tree.InodeAlloc | kernel/src/fs/block.rs:154-169 | the first free inode, cleared and typed |
| Dir.Tree.Create | kernel/src/fs/inode.rs:388-438 | makes a new inode with its links under a new name, gives back or refuses an old one, and says when there is no room |
| Dir.Tree.Link | kernel/src/process/proc/syscall.rs:664-721 | one more name for a file, or everything as before if it is a directory or the name cannot be entered |
| DirSteps.StepKeepsInv | kernel/src/fs/inode.rs:92-438 | every step in linked directories, and every lookup of an inode in use, keeps counts, references and the tree of directories right |
| DirSteps.CountsMatch | kernel/src/fs/inode.rs:388-438 | in every run of such steps, an inode's link count is the number of entries naming it in linked directories, its own "." aside, plus the links still to be entered |
| DirSteps.OnlyPutFrees | kernel/src/fs/inode.rs:196-229 | in every such run, an inode becomes free exactly when the last reference is put and no entry names it |
| DirSteps.NothingLost | kernel/src/fs/inode.rs:196-229 | an inode that nothing names is held by somebody, and the last to put it frees it |
| DirSteps.UnlinkKeepsInv | kernel/src/fs/inode.rs:1282-1325 | removing an entry keeps all counts right, and what it names has a link, so that the panic is unreachable |
| DirRemoved.KeepsInvIffProper | kernel/src/fs/inode.rs:92-438 | after every run of such steps, a further step keeps counts, references and tree right if and only if it is one of them |
| DirRemoved.CreateIffLinked | kernel/src/fs/inode.rs:388-438 | creating a file or directory keeps everything right if and only if its directory is linked |
| DirRemoved.FileIffLinked | kernel/src/fs/inode.rs:388-438 | the count of a newly created file is right if and only if its directory is linked |
| DirRemoved.DirIffLinked | kernel/src/fs/inode.rs:388-438 | a directory in which one has been created has links, and a right count and a place in the tree, if and only if it was linked before |
| DirRemoved.LinkIffLinked | kernel/src/fs/inode.rs:1211-1245 | entering a link leaves a right count if and only if the directory is linked |
| DirRemoved.LockPanicsIff | kernel/src/fs/inode.rs:566-583 | in every run of such steps, lock panics after a lookup if and only if that was of ".." in a removed directory whose parent is free |
| DirRemoved.FreedParentFound | kernel/src/process/proc/syscall.rs:364-387 | a run after which looking up ".." and locking what is found panics |
| DirRemoved.RemovedButHeld | kernel/src/fs/inode.rs:388-438 | a run that ends with a removed directory, held by a process, in which anything can be created |
| DirBytes.EntryRoundTrip | kernel/src/fs/inode.rs:1513-1521 | entries and their sixteen bytes determine each other |
| DirBytes.WriteIsPut | kernel/src/fs/inode.rs:1211-1245 | writing the bytes of an entry at its place in the file is setting that entry |
| DirBytes.Lookup | kernel/src/fs/inode.rs:1149-1176 | the search through the bytes of the file finds the first entry in use with the name |
| DirBytes.FindPlace | kernel/src/fs/inode.rs:1211-1245 | the search through the bytes finds the first free entry or the end |
| DirBytes.WriteEntry | kernel/src/fs/inode.rs:1211-1245 | the file then holds the entries with this one set, and no other file changes; refused exactly beyond the longest file |
| PageTable.EntryRoundTrip | kernel/src/mm/pagetable.rs:115-142 | address and each flag written to an entry are read back |
| PageTable.AddressSpace.FindPte | kernel/src/mm/pagetable.rs:352-364 | walks to the last-level entry, or none, as the flat map says |
| PageTable.AddressSpace.FindPteCreate | kernel/src/mm/pagetable.rs:318-332 | adds the missing tables without changing any translation; fails only without free pages |
| PageTable.AddressSpace.MapPages | kernel/src/mm/pagetable.rs:257-293 | maps pages in order up to the first failure, names its cause, and changes no other translation |
| PageTable.AddressSpace.UvmUnmap | kernel/src/mm/pagetable.rs:742-773 | unmaps and frees pages up to the first hole; panics exactly on a misaligned start or an entry that is no leaf |
| PageTable.AddressSpace.UvmDealloc | kernel/src/mm/pagetable.rs:704-717 | shrinking takes away exactly the pages between the two rounded sizes |
| PageTable.AddressSpace.UvmAlloc | kernel/src/mm/pagetable.rs:642-681 | grows by zeroed pages of its own, or restores all translations, loses no page, and has one of three causes |
| PageTable.AddressSpace.FindPa | kernel/src/mm/pagetable.rs:405-418 | the frame of a page exactly if it is mapped for users |
| PageTable.AddressSpace.CopyIn | kernel/src/mm/pagetable.rs:1043-1087 | copies exactly the bytes of the flat address space, and succeeds if and only if all pages up to that of the end are mapped for users |
| PageTable.CopyNeedsNext | kernel/src/mm/pagetable.rs:1043-1087 | bytes that are all mapped can be copied if and only if they do not end with their page or the next is mapped too |
| PageTable.WholePageRefused | kernel/src/mm/pagetable.rs:1043-1087 | one mapped page, all of which cannot be copied |
| PageTable.PutChangesOne | kernel/src/mm/pagetable.rs:130-142 | writing one last-level entry changes one translation |
| PageTable.GrowKeepsFlat | kernel/src/mm/pagetable.rs:318-332 | a new empty table changes no translation |
| BuddySpec.Partition | kernel/src/mm/kalloc.rs:332-389 | every leaf lies in exactly one block that is free, handed out or reserved |
| BuddySpec.ReleaseUndoesAlloc | kernel/src/mm/kalloc.rs:426-479 | dealloc of what alloc has just returned restores the state, down to the order of the lists |
| BuddySpec.LevelFromSplitBits | kernel/src/mm/kalloc.rs:433-446 | the split bits above an allocated block tell its level |
| BuddyInit.Accounting | kernel/src/mm/kalloc.rs:285-296 | the start-up accounting comes out right if and only if no level meets a block twice |
| BuddyInit.LastPairExists | kernel/src/mm/kalloc.rs:600-612 | the last pair that init looks at exists if and only if the region is not exactly a power of two |
| Kalloc.BuddySystem.Init | kernel/src/mm/kalloc.rs:230-299 | all memory that exists and is not metadata is free in maximal blocks, and no panic is reachable |
| Kalloc.BuddySystem.InitFree | kernel/src/mm/kalloc.rs:600-612 | the lists end up with exactly the maximal usable blocks |
| Kalloc.BuddySystem.Alloc | kernel/src/mm/kalloc.rs:332-389 | hands out a new block of the smallest level that holds the request, aligned as far as its size allows; fails exactly if no list at or above that level has one |
| Kalloc.BuddySystem.Dealloc | kernel/src/mm/kalloc.rs:426-479 | exactly the block that was handed out is released, merged as far as possible, and no panic is reachable |
| Kalloc.LevelForFits | kernel/src/mm/kalloc.rs:345-350 | the computed level is the smallest whose blocks hold the request |
| Kalloc.AlignedIff | kernel/src/mm/kalloc.rs:338-344 | all blocks of a level have the requested alignment if and only if it is at most the block size |
| KernelList.ListHeap.Push | kernel/src/mm/list.rs:43-58 | the node is first, and every other list is as it was |
| KernelList.ListHeap.Pop | kernel/src/mm/list.rs:69-80 | takes the first node, and every other list is as it was |
| KernelList.ListHeap.Remove | kernel/src/mm/list.rs:89-94 | exactly this node leaves its list |
| ExitWait.NoSleeperWithZombie | kernel/src/process/mod.rs:570-616 | in every run, while nobody holds the parents lock, no process sleeps in waiting with a zombie among its children |
| ExitWait.ZombieHasLivingParent | kernel/src/process/mod.rs:478-534 | in every run, a zombie has a parent that is alive |
| ExitWait.ReapedOnceByParent | kernel/src/process/mod.rs:570-616 | an exit is collected once, by the parent, with its own status, when the process is off every CPU |
| ExitWait.NoExitForgotten | kernel/src/process/mod.rs:478-534 | an exit is either collected with its status or still there as that zombie |
| ExitWait.StepKeepsFamily | kernel/src/process/proc/mod.rs:769-822 | fork, exit and wait keep each process with a parent that looks after it |
| SleepLock.MutualExclusion | kernel/src/sleeplock.rs:76-124 | in every run at most one process holds the lock |
| SleepLock.NoLostWakeup | kernel/src/sleeplock.rs:76-124 | in every run, a process asleep on the lock means that exactly somebody else holds it and will wake it |
| Umalloc.Heap.Malloc | user/umalloc.c:63-90 | hands out a block of its own of exactly the rounded size, and asks for more memory only if nothing fits |
| Umalloc.Heap.Free | user/umalloc.c:24-44 | exactly the bytes of the block join the free list, whatever it is joined with |
| Umalloc.Heap.MoreCore | user/umalloc.c:46-61 | the new memory joins the list and something fits; on failure nothing changes |
| Grep.Match | user/grep.c:70-80 | matches if and only if the pattern, as a list of items, cuts the text into matching segments |
| Grep.MatchHere | user/grep.c:83-94 | matches at the start if and only if a prefix of the text does |
| Grep.MatchStar | user/grep.c:97-104 | matches any number of the character, in all ways the rest allows |

## Findings

- The log can fill up and panic. `begin_op` (kernel/src/fs/log.rs:390-392) reserves MAXOPBLOCKS blocks for each operation
  and lets the sum reach LOGSIZE, while `write` (kernel/src/fs/log.rs:457) needs one free entry more than that.
  `LogOverflows` is a run that ends so; `RoomIffFewerBlocks` says exactly when it cannot happen.
- A batch of `fwrite` reaches MAXOPBLOCKS blocks only if it starts inside a block, on a disk with four bitmap blocks or
  more (`BatchFitsLog`). All but six of its blocks are bitmap blocks, and batches share those, so `fwrite` alone cannot
  fill the log as long as there are at most seven bitmap blocks (`BatchesFitLog`). For operations that log what batches
  may log, that bound is sharp (`RoomIffFewShared`). The disk that `mkfs` makes has one bitmap block.
- `fwrite` returns an error when a batch is refused, even if earlier batches have been written and the file position has
  advanced (kernel/src/fs/file/mod.rs:276). `RefusedAfterWriting` is such a call; the contract of `Fwrite` says exactly
  when it happens: when the first batch is in range and the last is not.
- `create` and `dir_link` do not ask whether the directory is still linked (kernel/src/fs/inode.rs:388-438 and 1211-1245).
  `RemovedButHeld` is a run that leads there. Both keep counts and tree right exactly in linked directories
  (`CreateIffLinked`, `LinkIffLinked`): a file gets a link that no linked directory accounts for, and a new directory
  makes the removed one count as linked although no entry names it.
- Looking up ".." in a removed directory finds its parent even if that has been freed, and `lock` then panics
  (kernel/src/fs/inode.rs:566-583, reached from kernel/src/process/proc/syscall.rs:364-387). `FreedParentFound` is a run
  that ends so, and by `LockPanicsIff` nothing else makes `lock` panic as long as nothing is entered in removed
  directories.
- `copy_in` needs the page behind the last byte to be mapped, even when no byte of it is read
  (kernel/src/mm/pagetable.rs:1062-1086). `WholePageRefused` shows it, and `CopyNeedsNext` says when it matters.
- `alloc` of the kernel takes for granted that sizes are multiples of their alignment; `AlignedIff` says exactly when a
  block is aligned without that.
- `init` of the buddy allocator looks at bits behind the end of its bitmaps if the region is exactly a power of two
  (`LastPairExists`).

## Left out

- Kalloc.BuddySystem.Init: requires that the region is not exactly a power of two, because the source reads beyond its bitmaps there; see Findings.
- Kalloc.BuddySystem.Alloc: requires an alignment of at most a page, since the source panics on others.
- Umalloc.Heap.Malloc: requires requests below 2 GB, because `sbrk` takes a signed count and the source does not check it.
- FileCommit.FwriteIsAtomic: whole blocks are told apart, so a process that changes another inode in the same block counts as touching the file.
- FsFormat.FormatOk: the disk is empty; `mkfs` also makes the root directory and files. It rounds the size of the root to `(off / BSIZE + 1) * BSIZE` (mkfs/mkfs.c:166-171), which leaves its last block unallocated when the entries fill a block exactly.
- FileCommit.BatchesFitLog: the run for eight bitmap blocks is one of operations that log what batches may log; no file system in which four calls of `fwrite` log just these blocks is constructed.
- DirSteps.CountsMatch: other steps than those named in its row break the counts or the tree, as `KeepsInvIffProper` says; what comes after them is not described.
- Dir.Tree.Create: directories are sequences of entries, so a full disk shows only as a limit on their length; counts do not wrap at 2^16. `DirBytes` ties entries to files one operation at a time, and there the full disk is a result.
- Fs.FileSystem.TryIwrite: `copy_in` of one block copies all of it or nothing, and the blocks for which it succeeds are a parameter; likewise for `copy_out` in reading.
- Log.Log.EndOp: has one process in sight; all interleavings are in LogProtocol, where a holder's changes to its buffer and the call of `write` are one step.
- Bcache.Bcache.Bread: one device; the panic "no usable buffer" is the result Null.
- ExitWait.ReapedOnceByParent: `kill`, the run queue and preemption are steps without their data; `waiting_pid` and threads are not modelled.
- Path names, file descriptors, pipes and devices: they call the modelled operations and add no law of their own.
- Spinlocks and the memory model: a critical section under a spinlock is one step, and memory is sequentially consistent.
- Address spaces of fork and exec (`uvm_copy`, `copy_out`, `copy_in_str`, stacks of threads): the same walks as the modelled ones.
- Traps, scheduling, interrupts, disk and console drivers, the choice of the superblock and the programs that `mkfs` copies: hardware, or data that the model takes as given.
- Other user programs: independent of the above.
