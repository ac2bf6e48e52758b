# A verified model of the xv6 kernel and two of its tools

This project models, in Dafny 4.11, the parts of the x86 xv6 kernel whose correctness
depends on more than one function at a time, and proves what those parts promise.
Check everything with `dafny verify dfyconfig.toml`.

**The write-ahead log** (`LogFormat`, `Log`, `LogMachine`, `LogRuns`). A disk is a map from block
numbers to blocks and changes by single-block writes. `Log` is log.c as an object whose
ghost history records the disk after every write; `CrashAtomicity` says that a commit
stopped after any write, followed by recoveries that are themselves stopped any number of
times, leaves all old or all new home blocks. `LogMachine` interleaves any number of
operations with commits, recoveries and crashes and proves durability, group commit and the
log reservation over every run. `LogRuns` says what that means to a client: a finished commit
lasts through any number of crashes, and an operation happens wholly or not at all.

**Files** (`Bitmap`, `BlockMap`, `WriteCost`, `WriteNeed`, `WriteTight`, `Files`, `FileWrite`,
`FileLog`). Inodes with direct and indirect blocks and the free bitmap, as an object. Reads and
writes behave as slice and overwrite on byte sequences, no block is ever reachable twice, the
inode cache is written through although it is flushed only on growth, a block that writei
changes is logged, and every chunk of a write fits in the ten log blocks that the log reserves
for it. `WriteNeed` counts the blocks a write needs, so that writei is known to run out exactly
when fewer are free. `WriteTight` builds a file system in which a chunk needs all ten log
blocks, and one with a hole in a file where it needs eleven. `FileLog` joins this to the log: in
every run a chunk of filewrite never lacks budget, and after a crash its bytes are all old or all
new.

**The buffer cache** (`BufferCache`). The doubly linked MRU list, reference counts and
pinning are invisible: a read returns what was last stored in the block, by anyone.

**The user heap** (`HeapLists`, `Heap`). The allocator of section 8.7 of Kernighan and
Ritchie, *The C Programming Language*, second edition, over a memory of header words: a
circular, sorted, coalesced free list, next fit, exact accounting, terminating loops, and no
write into a block that a caller holds, nor harm from the caller's writes there.

**Address spaces** (`PageTables`, `FlatMap`, `TableCount`, `Vm`). Physical pages in a forest
of directories, page tables and user pages; kalloc's list is threaded through the free pages.
The two-level tables (32-bit paging, section 4.3 of the Intel SDM, volume 3A) stand for a
flat map, `Pte`, and each operation is proved against that map and against an account of
every physical page, on its failing paths too. `TableCount` counts the page tables that a
range lacks, so that each operation is known to fail exactly when the free list is shorter
than what it needs. `UserMay` says what user code may do at a page, by the flags of both
levels (section 4.6): a directory entry never takes a right away, new pages are readable and
writable, a copied page has the rights of the original, and the kernel's addresses are shut.

**Processes** (`Processes`, `SleepLock`, `Pipe`). The process table with its CPUs; the sleep
lock as a state machine over sleep and wakeup for any number of processes; the pipe over
wrapping counters.

**The shell's parser and grep's matcher** (`ShellGrammar`, `ShellTokens`, `ShellSyntax`,
`ShellRoundTrip`, `Shell`, `Grep`). Recursive descent with its loops against a grammar given by
functions. `ShellTokens` relates texts to tokens, with any white space between them.
`ShellSyntax` has command lines as people type them, with their meaning: the shell accepts
exactly these, reads each as what it means, and the panics are told apart. `ShellRoundTrip`
prints any command as such a line, with few parentheses. Words are terminated in place. The
matcher is proved against a declarative meaning of patterns.

Code that changes state is modelled by classes with fields that its methods reassign, or by
arrays; loops are loops with invariants; a lock-protected stretch of code is one method, and
any interleaving is any order of calls. Panics that stop the kernel are results or
preconditions, as each member's contract says.

Three promises do not hold as one might expect; for each the exact condition is proved.

- A log_write within its operation's budget can hit the "too big a transaction" panic. While
  any operation inside has budget left, it can exactly when the log area has at most LOGSIZE
  blocks, which is the size mkfs gives it. When none has, it can exactly when the log area has
  more than MAXOPBLOCKS blocks: the guard comes before the search for a block that is already
  in the log, so writing such a block again panics once the log is full. No size of the log
  area excludes both; a log area of more than LOGSIZE blocks together with budget left does
  (`LogMachine.PanicIff`, `LogMachine.SafeWrite`).
- growproc that shrinks a process to size exactly 0 reports failure after the pages are gone;
  on every other failure the mappings are kept (`Vm.Memory.Growproc`, and `Vm.ShrinkToZero`
  for the call).
- pipewrite can leave a reader asleep although there is something to read: exactly when some
  reader sleeps, the bytes do not fit, and the writer is killed or finds the read end closed
  (`Pipe.Ring.Write`, and `Pipe.LostWakeup` for the call). Every other operation keeps the
  readers' side, as it does the writers'.

## Model

| member | source | states |
|---|---|---|
| `LogFormat.HeaderRoundTrip` | log.c:84-113 | read_head gets back exactly the block numbers that write_head wrote, whatever the block held before |
| `LogFormat.RepresentsUnique` | log.c:69-96 | a disk determines the home contents that recovery will produce |
| `LogFormat.RecoverWriteStep` | log.c:69-122 | each disk write of a recovery keeps the home contents the disk stands for |
| `LogFormat.CommitWriteStep` | log.c:177-202 | each disk write of a commit keeps the old home contents until the header is written and the new ones from then on |
| `Log.CommitTracePoint` | log.c:177-202 | the previous fact after any number of writes of a commit |
| `Log.RecoverTracePoint` | log.c:115-122 | the same for a recovery |
| `Log.RepeatedRecoveryKeeps` | log.c:115-122 | recoveries interrupted after any write, any number of times, keep the home contents |
| `Log.CrashAtomicity` | log.c:69-122 | after a stop at any disk write of a commit and any number of interrupted recoveries, a completed recovery leaves all home blocks old if the header was not written and all new if it was |
| `Log.WriteAheadLog.LogWrite` | log.c:214-233 | a block is added to the header unless it is there (absorption) and its contents pinned; fails exactly on the two panics, changing nothing |
| `Log.WriteAheadLog.WriteHead` | log.c:101-113 | the loop writes exactly the header block that encodes the in-memory header |
| `Log.WriteAheadLog.ReadHead` | log.c:85-96 | the loop loads exactly the header on disk |
| `Log.WriteAheadLog.WriteLog` | log.c:177-190 | makes exactly the copying writes of a commit, the disk standing for the old contents throughout |
| `Log.WriteAheadLog.InstallTrans` | log.c:69-82 | makes exactly the installing writes, unpins the blocks and keeps the home contents the disk stands for |
| `Log.WriteAheadLog.Commit` | log.c:193-202 | its disk writes are exactly those of a commit trace; at its end the home blocks hold the pinned contents and the log is empty |
| `Log.WriteAheadLog.RecoverFromLog` | log.c:116-122 | its disk writes are exactly those of a recovery trace; at its end the home blocks hold the contents the disk stood for and the log is empty |
| `Log.WriteAheadLog.EndOp` | log.c:146-174 | the last operation out commits the whole group; any other leaves disk and header alone |
| `LogMachine.InvStep` | log.c:126-233 | every step of every process, every disk write of commit and recovery and every crash keeps the log's invariants |
| `LogMachine.Durability` | log.c:126-233 | at every moment of every run the disk recovers to the durable contents, which change only, all at once, to what clients see, and only when no operation is inside |
| `LogMachine.ViewKept` | log.c:177-202 | commit, installation and recovery never change what clients read |
| `LogMachine.GroupCommit` | log.c:126-174 | over every run no operation is inside while a commit runs, no log_write happens then, and all blocks logged by one operation are in one transaction |
| `LogMachine.Reservation` | log.c:132-136 | over every run the logged blocks plus all unspent budgets stay within LOGSIZE and no block is logged twice |
| `LogMachine.PanicIff` | log.c:218-226 | on a disk with more than LOGSIZE home blocks and any log area, a write within budget, of a logged block or a new one, can hit the size panic in some run: with budget outstanding if and only if the area has at most LOGSIZE blocks, and with none outstanding if and only if it has more than MAXOPBLOCKS |
| `LogMachine.NewBlockPanicIff` | log.c:218-219 | a block new to the log, within budget, can hit the panic in some run if and only if the log area has at most LOGSIZE blocks |
| `LogMachine.LoggedBlockPanicIff` | log.c:218-226 | a block already in the log can hit it in some run if and only if the log area has room for a block |
| `LogMachine.SafeWrite` | log.c:218-219 | over every run, a log area of more than LOGSIZE blocks and budget outstanding rule the panic out |
| `LogMachine.UnderBudget` | log.c:218-226 | over every run, with such a log area an operation that has logged fewer than ten blocks never meets the panic, whatever block it logs next |
| `LogMachine.BudgetSuffices` | log.c:126-141 | over every run, an operation that logs only blocks of one set of at most ten, in any order and however often, never lacks budget |
| `LogRuns.CommitLasts` | log.c:193-202 | after a finished commit clients see what they saw before it, and it is durable, through any crashes and recoveries until the next log_write |
| `LogRuns.CrashRecovers` | log.c:116-122 | after a crash, and crashes during the recovery, clients see exactly what was durable at the crash |
| `LogRuns.OpAtomic` | log.c:126-202 | at every moment of the transaction an operation began in, nothing of the transaction is durable or all that the operation logged is |
| `LogRuns.CrashAtomic` | log.c:116-202 | so after a crash and its recoveries clients see none of the transaction, or all the operation ever logs; none if the operation was still inside |
| `LogRuns.PinnedIsLast` | log.c:222-231 | within a transaction, what the log will write of a block is what was last logged of it, by whomever |
| `Bitmap.SetOne` | fs.c:66-68 | setting a block's bit changes that bit and no other |
| `Bitmap.ClearOne` | fs.c:88-92 | clearing a block's bit changes that bit and no other |
| `BlockMap.Superblock.Iblock` | fs.h:38-42 | the block that holds all 64 bytes of the inode |
| `BlockMap.Superblock.Bblock` | fs.h:44-48 | the block that holds the bit of the block |
| `BlockMap.TakeBit` | fs.c:66-69 | the bit test says exactly whether the block is free, and taking it adds just that block to the set in use |
| `BlockMap.ReleaseBit` | fs.c:87-92 | the same for freeing |
| `BlockMap.NoSharing` | fs.c:373-400 | no disk block is reachable from two places |
| `BlockMap.WriteDataByte` | fs.c:498-504 | writing a mapped block changes the bytes of that file block only, in all files |
| `BlockMap.OverwriteBytes` | fs.c:498-509 | a file patched block by block holds the overwritten byte sequence |
| `BlockMap.ReadPiece` | fs.c:469-474 | a piece of a mapped block is the slice of the file's contents |
| `BlockMap.WrittenMeans` | fs.c:482-511 | the byte-by-byte account of a write says that the contents are the old ones overwritten and extended by the source, and that other files keep theirs |
| `Files.FileSystem.Balloc` | fs.c:56-78 | the lowest-numbered free block, never block 0, is marked, zeroed and logged; none exactly when all data blocks are owned |
| `Files.FileSystem.Bfree` | fs.c:81-95 | the panic on freeing a free block happens exactly when the block is not owned |
| `Files.FileSystem.Ilock` | fs.c:287-312 | loading an inode from disk between calls changes nothing, because the cache is written through |
| `Files.FileSystem.Bmap` | fs.c:373-400 | a mapped block is returned with no change; otherwise it and, if missing, the indirect block become owned, the lowest free blocks in turn, exactly the stated blocks are logged and only logged blocks change, and every other address and every byte of every file stays; fails exactly when fewer blocks are free than it needs |
| `Files.FileSystem.Readi` | fs.c:453-476 | exactly the slice of the file's contents, cut at its end; rejected exactly on the code's conditions; nothing changes |
| `Files.FileSystem.Writei` | fs.c:482-511 | overwrites and extends exactly the bytes asked for, leaves other files alone, keeps ownership, bitmap, no-holes and write-through; a rejected call changes nothing; runs out of blocks exactly when fewer are free than it needs, so never within the size |
| `Files.FileSystem.Itrunc` | fs.c:408-435 | never frees a free block, gives up exactly the blocks of the inode and leaves an empty file |
| `WriteCost.RoundsAccount` | fs.c:498-504 | what a whole writei loop allocates and logs, from what each bmap does |
| `WriteCost.LoopOnlyLogged` | fs.c:498-504 | every block that a writei loop changes is logged |
| `WriteNeed.LoopTakes` | fs.c:498-504 | the loop takes from the free blocks exactly one per file block not mapped, and one for a missing indirect block |
| `WriteNeed.WithinNeedsNone` | fs.c:498-504 | a write within the size of a file without holes needs no block |
| `WriteCost.TransactionBound` | file.c:127-145 | with no holes, a write of at most three blocks' bytes at any offset up to the size logs at most ten blocks, and at most nine before the inode |
| `WriteTight.BoundReached` | file.c:127-145 | writei of 1536 bytes at the end of a certain file without holes, on a disk with just four free blocks, completes and logs exactly ten blocks |
| `WriteTight.HolesBreakBound` | file.c:127-145 | the loop of writei and iupdate on such a file with a hole log exactly eleven |
| `WriteTight.TightFile` | fs.c:56-78 | both file systems exist, with inodes, owners, data blocks and a bitmap that agree; the first is consistent |
| `WriteCost.WriteThrough` | fs.c:498-509 | a write within the size maps nothing, so the inode on disk is up to date although iupdate is not called |
| `Files.LoggedBound` | file.c:133-145 | the blocks logged by a whole writei of one chunk, growth included, are at most ten, and at most nine before the inode block |
| `FileWrite.OpenFile.Write` | file.c:118-156 | the whole write, chunk by chunk: every transaction logs at most ten blocks, the file is overwritten as far as it got, the offset follows, and the result says whether it got to the end; halts only with no data block free and a file that has to grow |
| `FileWrite.ChunkFitsIff` | file.c:134-150 | after any number of chunks the next one finds enough free blocks if and only if there were enough at the beginning for all the bytes up to its end |
| `FileLog.LogChunk` | file.c:139-145 | a chunk that filewrite completes is a loop of rounds from a file without holes, with the logged blocks and the bytes that the next two rows speak of |
| `FileLog.ChunkFits` | file.c:127-145 | in every run of the log, the operation that writes one chunk never lacks budget for its next block; and with a log area of more than LOGSIZE blocks it never meets the panic, since writei logs the inode block last |
| `FileLog.ChunkAtomic` | file.c:127-145 | when nobody else logs the blocks that a chunk's bytes are read from: after a crash in the chunk's transaction and its recoveries these blocks are all as before and so are the bytes, or all as writei left them and the bytes are the ones written; before if the operation was still inside |
| `HeapLists.InsertCoalesced` | umalloc.c:33-42 | a block put in its place and joined with its neighbours leaves a sorted, fully coalesced list |
| `HeapLists.InsertUnits` | umalloc.c:33-42 | joining conserves units |
| `Heap.PlaceReached` | umalloc.c:30-32 | the search condition of free holds at exactly one place of the circle |
| `Heap.FreedLinks` | umalloc.c:33-43 | the pointer updates of free link exactly the list with the block inserted and joined |
| `Heap.FreedKept` | umalloc.c:33-42 | none of those updates writes into a block that stays live |
| `Heap.TakenKept` | umalloc.c:75-82 | neither do the updates of malloc |
| `Heap.Allocator.Nunits` | umalloc.c:69 | the least number of units that holds a header and the bytes |
| `Heap.Allocator.Free` | umalloc.c:25-44 | the block joins the free list behind the block where the next search then starts; the list stays circular, sorted and coalesced, apart from live blocks, no unit is lost, and no other live block is written to |
| `Heap.Allocator.Morecore` | umalloc.c:47-61 | at least 4096 units from sbrk go onto the list, where one block then has room |
| `Heap.Allocator.Malloc` | umalloc.c:64-90 | a returned block is new, large enough and apart from all others, and without morecore it is the end of the first free block that fits, going round from freep; morecore is called at most once and only if nothing fits; failure only when sbrk fails; free plus live units equal those obtained; no live block is written to |
| `Heap.Allocator.ClientWrite` | umalloc.c:64-90 | whatever a client writes behind the header of a block it holds, the allocator's invariant stays |
| `BufferCache.Cache.constructor` | bio.c:39-56 | binit builds a list of all buffers, all untouched |
| `BufferCache.Cache.FindCached` | bio.c:69-76 | the scan finds the most recent buffer with the key, or there is none |
| `BufferCache.Cache.FindIdle` | bio.c:81-91 | the scan finds the least recently released buffer that is idle and unpinned, or there is none |
| `BufferCache.Cache.Bget` | bio.c:62-93 | a hit counts a reference; a miss recycles the least recently released idle unpinned buffer; panics exactly when all others are busy; all invariants stay |
| `BufferCache.UsedUnique` | bio.c:62-93 | two buffers with one key have the initial key and one of them is untouched, so no key in use is held twice |
| `BufferCache.DiskCurrent` | bio.c:62-106 | a block whose buffer is claimed but not read is on disk in its latest form, despite any eviction |
| `BufferCache.Cache.Iderw` | ide.c:134-168 | a dirty buffer is written, else read, and is then valid and clean |
| `BufferCache.Cache.Bread` | bio.c:97-106 | the buffer holds what was last stored in the block by anyone |
| `BufferCache.Cache.Bwrite` | bio.c:110-116 | the disk has the latest contents and the buffer is unpinned |
| `BufferCache.Cache.Pin` | log.c:231 | the buffer is pinned, so its contents survive its release |
| `BufferCache.Cache.Unlock` | bio.c:123-126 | a buffer whose changes are saved or pinned may be unlocked without losing anything |
| `BufferCache.Cache.Drop` | bio.c:128-140 | with its last reference the buffer moves to the front; the list stays a permutation of all buffers in order of release |
| `PageTables.Attach` | vm.c:42-53 | giving an empty entry a page keeps every page in exactly one place |
| `PageTables.Detach` | vm.c:270-275 | so does taking a user page out |
| `PageTables.GiveUp` | vm.c:291-296 | so does giving up a directory entry with its page table |
| `FlatMap.NewTable` | vm.c:45-52 | a new page table changes no mapping |
| `FlatMap.RightsAre` | vm.c:46-52 | what user code may do at a page, by both levels, is what the entry in the page table allows |
| `FlatMap.StaysShut` | vm.c:82-86 | while the kernel's mappings stay, what is shut to user code stays shut |
| `FlatMap.SetEntry` | vm.c:73 | an entry write changes the mapping of exactly one virtual page |
| `FlatMap.UserPage` | vm.c:36-55 | the page behind a user mapping belongs to that mapping |
| `FlatMap.UserMapped` | vm.c:36-55 | conversely a user page is mapped where it belongs |
| `FlatMap.NoSharing` | vm.c:60-80 | no physical page is mapped twice for user addresses, in one address space or in two, and none that is mapped is free |
| `FlatMap.GrowWipe` | vm.c:283-298 | building an address space from free pages and wiping it restores the owner of every page |
| `FlatMap.OthersGrown` | vm.c:222-249 | growing one address space changes no mapping and no byte of another |
| `FlatMap.OthersShrunk` | vm.c:256-279 | neither does shrinking one |
| `FlatMap.OthersWiped` | vm.c:284-298 | neither does freeing one |
| `TableCount.TookOne` | vm.c:45-52 | a new page table lowers the number of missing ones by exactly the page it takes |
| `TableCount.TookTooMuch` | vm.c:45-47 | a page table that cannot be had anywhere in a range means that fewer pages were free than the range lacked tables |
| `Vm.KernelIsShut` | vm.c:82-114 | under kmap's mappings user code has no access from KERNBASE on |
| `Vm.Memory.Kfree` | kalloc.c:60-77 | the page goes in front of the free list, which stays linked through the pages |
| `Vm.Memory.Kalloc` | kalloc.c:83-95 | the newest free page, or none exactly when nothing is free |
| `Vm.Memory.Freerange` | kalloc.c:47-53 | exactly the whole pages of the range become free |
| `Vm.Memory.Walkpgdir` | vm.c:36-55 | finds or adds the page table of a virtual page, through a directory entry open to the user and to writes, and changes no mapping; fails exactly when there is none and none may be added or no page is free |
| `Vm.Memory.Mappages` | vm.c:61-80 | maps the range to consecutive physical pages in the flat map and nothing else; fails exactly when fewer pages are free than page tables are lacking, and then a prefix is mapped and nothing is free |
| `Vm.Memory.Deallocuvm` | vm.c:256-279 | unmaps and frees exactly the user pages between the sizes, the 4 MB leap included; every other page keeps its owner, and kernel addresses shut to the user stay shut |
| `Vm.Memory.Freevm` | vm.c:284-298 | frees exactly the pages of the address space |
| `Vm.Memory.Setupkvm` | vm.c:119-136 | the flat map is exactly kmap's, with no access for user code, and 65 pages are taken; fails exactly when fewer are free, and then every page is back where it was |
| `Vm.Memory.Allocuvm` | vm.c:222-249 | zeroed pages that user code may read and write for exactly the new virtual pages; kernel addresses shut to the user stay shut; fails exactly at KERNBASE or when fewer pages are free than those and the page tables they lack; on failure every mapping is as before and only page tables were added |
| `Vm.Memory.Copyuvm` | vm.c:316-345 | equal bytes, flags and rights of user code on pages that were free, only the kernel's part above, shut to user code, parent unchanged; fails exactly when fewer pages are free than 65, the user pages and one table per 1024 of them, and gives every page back |
| `Vm.Memory.Growproc` | proc.c:162-178 | growing fails exactly when allocuvm does; shrinking fails exactly from size 0 or to size 0; a failed call keeps the size, and the mappings if and only if it did not shrink a process with something mapped to 0; a successful one changes exactly the pages between the sizes |
| `Vm.ShrinkToZero` | proc.c:162-178 | a process of one page, shrunk by one page, keeps its size on record, gets -1 and has lost the page it had |
| `Vm.OnePage` | vm.c:222-249 | there is such a process: setupkvm and allocuvm make one from 100 free pages |
| `Processes.ProcTable.constructor` | proc.c:124-157 | only init, runnable, and idle CPUs |
| `Processes.ProcTable.Allocproc` | proc.c:75-95 | the first unused slot, if there is one, gets a pid no other slot has |
| `Processes.ProcTable.Abandon` | proc.c:98-101 | an embryo is given up when memory is short; the table's invariant stays |
| `Processes.ProcTable.SetParent` | proc.c:203 | the embryo gets its parent |
| `Processes.ProcTable.StartChild` | proc.c:218-222 | the embryo becomes runnable |
| `Processes.ProcTable.Exit` | proc.c:231-274 | children go to init, only the parent and init may be woken, the process is a zombie that had not exited before, and the table's invariant stays |
| `Processes.ProcTable.FindZombie` | proc.c:288-307 | the scan finds a zombie child if there is one and knows whether there are children |
| `Processes.ProcTable.Wait` | proc.c:279-318 | reaps the first zombie child, for the first and last time; without one it fails exactly when killed or childless, and sleeps otherwise |
| `Processes.ProcTable.Schedule` | proc.c:344-353 | the next runnable process, if any, runs on this CPU alone |
| `Processes.ProcTable.Yield` | proc.c:413-419 | the process is runnable and its CPU idle |
| `Processes.ProcTable.Sleep` | proc.c:445-469 | the process sleeps on the channel and its CPU is idle |
| `Processes.ProcTable.Tidy` | proc.c:471-472 | the channel is cleared |
| `Processes.ProcTable.Wakeup1` | proc.c:485-492 | exactly the sleepers on the channel become runnable |
| `Processes.ProcTable.Wakeup` | proc.c:496-501 | the same, keeping the table's invariant |
| `Processes.ProcTable.Kill` | proc.c:507-524 | the first process with the pid is marked and woken; -1 exactly when there is none |
| `Processes.ExitKeeps` | proc.c:253-268 | the table's invariant survives an exit |
| `Processes.NoMissedExit` | proc.c:255-265 | with the table's lock free, no process sleeps in wait while it has a zombie child |
| `Processes.ParentsInUse` | proc.c:258-265 | every live or zombie process but init has a live parent, and init lives |
| `Processes.RunningIffCurrent` | proc.c:344-365 | a process is RUNNING exactly when it is the current process of a CPU, and then of one only |
| `Processes.ExitedOnce` | proc.c:293-306 | exited processes are the reaped ones and the zombies, never both, and no pid is in two slots |
| `SleepLock.InvStep` | sleeplock.c:22-42 | every step of every process keeps the lock's invariants |
| `SleepLock.MutualExclusion` | sleeplock.c:22-42 | in every run at most one process owns the lock, and it is the one the pid field names |
| `SleepLock.HoldingSleep` | sleeplock.c:44-53 | holdingsleep is true exactly for the owner |
| `SleepLock.NoLostWakeup` | proc.c:445-501 | whenever the lock and its spinlock are free nobody sleeps on it or is about to |
| `SleepLock.SleeperHasWaker` | proc.c:445-501 | whoever sleeps, another process owns the lock or is about to wake all sleepers |
| `SleepLock.NoDeadlock` | sleeplock.c:22-42 | while any operation is in progress some process can move, or owns the lock and is using it |
| `Pipe.WrapCompare` | pipe.c:85 | comparing wrapped counters decides fullness and emptiness correctly with at most 512 bytes in flight |
| `Pipe.Ring.Write` | pipe.c:79-98 | the bytes go in behind all earlier ones, all of them exactly when they fit; else the pipe is filled and the writer sleeps, or fails exactly when killed or without a reader; the exact condition for leaving a reader asleep with bytes to read |
| `Pipe.LostWakeup` | pipe.c:79-98 | a killed writer of 513 bytes leaves the reader asleep before a full pipe |
| `Pipe.Ring.Read` | pipe.c:101-121 | sleeps exactly on an empty pipe with a write end, and fails there exactly when killed; otherwise the next bytes in order, all that are there up to n, so that none means the end of file; writers are woken, and no reader is left asleep with bytes to read |
| `Pipe.Ring.Close` | pipe.c:60-75 | one end closes, the other side is woken, and no writer is left asleep on a pipe that nobody reads |
| `ShellGrammar.ParseLine` | sh.c:344-359 | parsing never goes back or past the end; with the functions it calls, a terminating recursion on every input |
| `ShellTokens.SpelledToks` | sh.c:265-308 | tokens spelled out with any white space, where two could run together with some, are read as these tokens |
| `ShellTokens.EveryText` | sh.c:265-308 | every text is such a spelling of the tokens read from it |
| `ShellSyntax.ItemsTrip` | sh.c:415-446 | words and redirections in any order: the words are the arguments, each redirection goes around all before it, the last one outermost, >> like > |
| `ShellSyntax.LineTrip` | sh.c:344-446 | a line of pipes, lists, ampersands, simple commands and blocks is read as what it means, up to any token that does not continue it |
| `ShellSyntax.LineFound` | sh.c:344-446 | whatever parseline accepts is such a line, and the token behind does not continue it |
| `ShellSyntax.Typed` | sh.c:327-446 | a text that spells a line is accepted and read as what the line means |
| `ShellSyntax.Accepted` | sh.c:327-446 | a text is accepted exactly when it spells a line |
| `ShellSyntax.Leftover` | sh.c:327-342 | a text with tokens left over behind a line is a panic |
| `ShellSyntax.Broken` | sh.c:374-446 | each panic of a simple command: a redirection without a file, a tenth word, a parenthesis among the words |
| `ShellSyntax.Unclosed` | sh.c:399-413 | a block without its closing parenthesis is a panic |
| `ShellRoundTrip.LineOfMeans` | sh.c:344-446 | every command with ordinary words, at most nine to a simple command, is the meaning of a line |
| `ShellRoundTrip.RoundTrip` | sh.c:327-446 | every command with ordinary words, at most nine to a simple command, is read back from its printed form, which has parentheses only around pipes, lists and background commands inside others |
| `Shell.Reparse` | sh.c:327-446 | printing whatever the shell accepted and reading that gives the same command |
| `Shell.LineWhole` | sh.c:265-446 | every word of an accepted command is a whole word of the input |
| `Shell.GetToken` | sh.c:265-308 | the loops of gettoken compute the token, its text and the position behind it |
| `Shell.Peek` | sh.c:310-320 | the loop of peek finds the next character and whether it is one of the given ones |
| `Shell.ParseRedirs` | sh.c:374-397 | the loop collects the redirections of the grammar |
| `Shell.ParseExec` | sh.c:415-446 | the loop collects the arguments and redirections of the grammar, or the same panic |
| `Shell.ParseBlock` | sh.c:399-413 | agrees with the grammar |
| `Shell.ParsePipe` | sh.c:361-372 | agrees with the grammar |
| `Shell.ParseLine` | sh.c:344-359 | agrees with the grammar, loop over & included |
| `Shell.Nulterminate` | sh.c:449-493 | exactly the characters behind the words become NUL |
| `Shell.ReadsBack` | sh.c:449-493 | after that every pointer of the command reads exactly its own word |
| `Shell.ParseCmd` | sh.c:327-342 | on any C string: the grammar's command, with every pointer reading its word in the buffer, or a panic with the buffer untouched |
| `Grep.StarUnfolds` | grep.c:98-106 | a starred item matches here exactly when the rest matches here, or one character fits and it matches after it |
| `Grep.SpellItems` | grep.c:84-96 | reading a pattern as items loses nothing: they spell the pattern |
| `Grep.StarLaw` | grep.c:98-106 | c* and a rest match here exactly when some number of fitting characters, none included, stand here with a match of the rest behind them |
| `Grep.EndLaw` | grep.c:91-92 | a final $ matches exactly the end of the text |
| `Grep.CharLaw` | grep.c:93-95 | any other character, $ included, matches itself and . any one character, with a match of the rest behind it |
| `Grep.MatchHere` | grep.c:84-96 | true exactly when the pattern's items match at this position |
| `Grep.MatchStar` | grep.c:98-106 | true exactly when some number of repeats and then the rest match at this position |
| `Grep.Match` | grep.c:72-82 | terminates and is true exactly when the text has a match under the declarative meaning |

## Left out

- Devices, port I/O, boot code and assembly: hardware effects; the disk is a map of blocks and a context switch is a change of the current process.
- The growing time quantum: trap.c yields on every timer tick whatever it is, and its doubling is an easy bound.
- Turnaround times, ps and all printing.
- Directories, link counts, path lookup, the file table's reference counts and the system-call layer.
- grep's loop over lines, console editing, string helpers, exec, mkfs and the user test programs; mkfs's image is the initial state assumed by `Files`, with no holes (it can round the root directory past its blocks when its size is a multiple of the block size).
- inituvm, loaduvm, clearpteu, uva2ka and copyout: would add easy members; clearpteu changes a flag that copyuvm then copies.
- Files.FileSystem.Balloc: running out of blocks halts the kernel; the model stops with the blocks allocated so far, and no caller goes on.
- Files.FileSystem.Readi: device inodes are handed to their driver, which is not part of this model; so are they in Writei.
- Files.FileSystem.Iupdate: inodes on disk are records, not bytes within their block.
- Log.WriteAheadLog.LogWrite: one step, although the code reads the two guards before it takes the lock.
- FileLog.ChunkAtomic: the inode, a record here, is not among the blocks on the log; the bytes are read through the inode of before and the one of after.
- FileWrite.OpenFile.Write: the count of blocks needed is exact in Writei and, over chunks, in ChunkFitsIff; it is not repeated in this contract.
- Log.WriteAheadLog.BeginOp: one round of its loop; sleeping and waking between rounds are not modelled here.
- Heap.Allocator.Malloc: base is assumed to lie below the heap, and the unit arithmetic not to wrap.
- BufferCache.Cache.Iderw: the disk queue and the interrupt are one step.
- BufferCache.Cache.Unlock: asks that a change be followed by bwrite or log_write before the release, as the callers do; without that nothing is promised.
- SleepLock.MutualExclusion: only the owner releases the lock, as all callers do; releasesleep itself does not check.
- Vm.Memory.Mappages: the remap panic, ranges that cross from user to kernel addresses and user mappings of pages that the caller does not hold are excluded.
- Vm.Memory.Setupkvm: data is a parameter, page-aligned and between the kernel's link address and the top of memory, as the linker script makes it.
- Processes.ProcTable.Allocproc: pids do not wrap; the kernel stack, the trap frame and open files are not part of the table.
- Processes.ProcTable.Sleep: the hand-over from the caller's lock to ptable.lock is modelled in `SleepLock`, not here.
- Shell.ParseExec: the argument vector is filled on values; the C code fills it through a pointer while redirections already wrap it.
- ShellRoundTrip.RoundTrip: prints > for every output redirection, since >> is read like it, as in the code; `ShellSyntax.Typed` has both.
- ShellSyntax.Broken: which panic comes is stated for the first command of a text; that there is one, for every text that is no line, in Accepted.
