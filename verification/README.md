# xv6rs in Dafny

A model of the hard core of xv6rs, a port of the teaching kernel xv6 to Rust, with proofs that it does what it is
for. Constants such as the number of buffers, CPUs, processes and blocks are parameters wherever the argument does
not depend on them. The main statements are about every input, every run or every reachable state; a few name a
concrete failing one.

## What is modelled

**Log and buffer cache** (`Lru`, `Blocks`, `LogCore`, `CacheLog*`, `LogCommit`, `LogReserve`). The group-commit
redo log runs over the buffer cache. The disk is a sequence of blocks, a block write is atomic, and a crash
forgets all memory between any two block writes. `CacheLog` interleaves operations, eviction, commit, recovery
and crashes step by step; `LogCommit` has the loops of `commit` and recovery in place; `Lru` has the doubly linked
list of buffers in place. The shipped image reserves one block too few for the log: `begin_op` admits three
operations of ten blocks each, while a log of 30 blocks holds 29. `ReservationSuffices` gives the exact size, and
`ShippedLogCanPanic` the run.

**Page tables** (`PageWalk`, `TableCost`, `PageTable`, `UserSpace`, `AddressSpace`, `SpaceCases`, `UserCopy`).
Physical memory is explicit: page-table pages, data pages and free pages, so that each operation says how much
memory it needs. The three-level tables refine one finite map per address space (section 4.4, Sv39, of the RISC-V
Privileged Architecture manual). On top of it come growing, shrinking and copying an address space, copies between
kernel and user, and the end of an address space. The comment in `uvm_alloc` and its code disagree: the roll-back
calls `uvm_dealloc` with the larger size second, which does nothing. The model follows the code: `Sbrk` says from
the state before the call whether pages are left behind, `GrowAndEnd` that the end of the process panics exactly
then, and `LeftBehind` is such a run. The kernel is built in release mode, in which arithmetic wraps around, and so
it does in the model.

**Processes** (`Sched*`). Any number of CPUs run the scheduler loop, the context switch, yield, sleep, wakeup,
sleep locks, fork, exit and wait. A step is what a CPU does between two points where another could interfere; a
critical section of one lock, one update and one unlock is one step. Memory is sequentially consistent. A panic is
a state, which is shown to be out of reach. The pid order of parent and child fails for a moment inside `wait`:
freeing the entry of a child sets its pid to 0, and its parent is forgotten later. `OrderFails` (in `SchedCases`)
reaches such a state. The order holds whenever the `parents` lock is free. `sleep` takes its lock again while it
holds the lock of its process, against the order of `wakeup`; `Deadlock` reaches a state in which two CPUs wait for
each other, so only safety is stated beside it.

**File system** (`FsLayout`, `BlockMap`, `FileTree`, `Bitmap`, `Mkfs`, `KernelFs`, `RoundTrip`, `FileWrite`,
`FileRead`, `Directory`, `DirFile`, `FsCases`). mkfs and the kernel have the same layout twice. Bytes, words,
inodes and bitmaps are modelled down to the byte. `bmap` is documented to return the block it allocates; for a
block behind an indirect slot that was empty it returns 0, and for one behind an empty double-indirect slot it goes
on in block 0. The model follows the code; `Bmap` says exactly when the result is right, `WriteI` and `ReadI` what
becomes of the bytes, and `ITrunc` that the whole file is given back exactly when its double-indirect slot is
empty. Whether an operation panics for want of a free block is told by the count of free blocks before it. mkfs
rounds the size of the root up to the next multiple of BSIZE, beyond its blocks if it is one already. `FsCases` has
a concrete image for each of the failures.

**Heap** (`Heap`). The free list is threaded through the free memory itself; `nodes` is the memory at the addresses
where list nodes lie.

`Prelude` holds what is shared. `dafny verify dfyconfig.toml` checks the project.

## Reading the model

Ghost fields (`flat`, `own`, `holder`, `metas`, `files`, `live`) give the value that a mutable structure stands for.
`Valid` ties it to the real fields, and every method is specified by it. Functions named after a step give the state
after it, or `None` where the step is disabled.

## Model

| member | source | states |
|---|---|---|
| LruList.BufMetaLru.constructor | kernel/src/bio.rs:183-197 | `init` chains all entries: following `next` from `head` and `prev` from `tail` visits every entry once, in opposite orders |
| LruList.BufMetaLru.Find | kernel/src/bio.rs:202-215 | in place, `find` is the value function `FindBuf`/`Hit`: a hit counts one more reference and moves nothing |
| LruList.BufMetaLru.Recycle | kernel/src/bio.rs:217-232 | in place, `recycle` takes the last entry of the list that is free, and keeps the list intact |
| LruList.BufMetaLru.Brelse | kernel/src/bio.rs:237-260 | in place, `brelse` moves an entry to the front exactly when its count drops to zero, and both chains stay reverses of each other |
| LruList.ReleaseValid | kernel/src/bio.rs:237-260 | moving an entry to the front keeps the list a permutation of all entries |
| LruList.HappenKeepsRecency | kernel/src/bio.rs:110-260 | every find, recycle, release, pin and unpin keeps the list ordered by the time of the last release to zero |
| LruList.VictimIsOldest | kernel/src/bio.rs:217-232 | after any run from boot, `recycle` picks the free buffer that was released longest ago |
| Blocks.PutHeader | kernel/src/log.rs:205-213 | the header written into its block is the header read back, and the rest of the block is kept |
| LogCore.LogLock.TryBegin | kernel/src/log.rs:50-78 | `begin_op` passes exactly when no commit runs and the reservation of ten blocks per operation fits, in the arithmetic of a `usize` |
| LogCore.LogLock.Write | kernel/src/log.rs:84-113 | `write` panics exactly on its two guards, absorbs a block that is logged already, and adds any other once |
| LogCore.LogLock.EndOp | kernel/src/log.rs:117-148 | `end_op` panics exactly if a commit runs; otherwise exactly the last outstanding operation commits, and the counter of a call too many wraps around |
| CacheLogTheorems.NextKeeps | kernel/src/log.rs:50-223 | one invariant is kept by every step of operations, cache, commit, recovery and crash, in any interleaving |
| CacheLogTheorems.RecoveryIsExact | kernel/src/log.rs:170-223 | in every reachable state the disk recovers to the effect of exactly the commits whose header write landed |
| CacheLogTheorems.CommitPoint | kernel/src/log.rs:215-223 | the first header write is the one step that changes what the disk recovers to, and it adds exactly the pending writes; no other step, not even a crash, changes it |
| CacheLogTheorems.CommitsStay | kernel/src/log.rs:170-223 | what was committed stays committed, in order, through every later run with crashes anywhere |
| CacheLogTheorems.OperationsAreWhole | kernel/src/log.rs:50-148 | no operation has writes in two commits, or in a commit and among the pending writes |
| CacheLogTheorems.CommitRunsAlone | kernel/src/log.rs:117-148 | while a commit runs no operation is outstanding, and when it ends nothing logged is left |
| CacheLogTheorems.ReadsAreCurrent | kernel/src/bio.rs:41-49 | between commits a holder reads the commits and the writes logged since, applied in order |
| CacheLogTheorems.CacheIsTransparent | kernel/src/bio.rs:41-83 | whatever is evicted, a holder sees the bytes last put in its block, and no block is in two buffers |
| CacheLogTheorems.ViewIsPlain | kernel/src/bio.rs:56-83 | the cache seen from outside is a plain block map: only a holder's change or a crash changes it |
| CacheLogTheorems.PinsAreCounted | kernel/src/log.rs:84-113 | a buffer's count is its live guards plus one if its block is pinned by the log; after install no pin is left |
| CacheLogTheorems.VictimIsSafe | kernel/src/bio.rs:217-232 | `recycle` never takes a logged block, a held one, or one whose bytes are not on disk |
| CacheLogTheorems.LogGetsLatest | kernel/src/log.rs:225-236 | `write_log` copies the bytes that the operations last left in each logged block |
| CacheLogTheorems.CommitFindsBuffer | kernel/src/log.rs:187-236 | without other guards, a buffer can be had if and only if fewer blocks are pinned than there are buffers |
| CacheLogTheorems.RecoveryFindsBuffer | kernel/src/log.rs:187-203 | recovery, which holds two buffers at once and pins none, finds one whenever fewer are held than there are |
| CacheLogTheorems.ShippedSizesSuffice | kernel/src/bio.rs:217-232 | with the shipped sizes a commit without other guards never runs out of buffers |
| LogCommit.CommitPrefix | kernel/src/log.rs:215-236 | cut off after any number of block writes, a commit recovers to all-old before its header write and to all-new after it |
| LogCommit.RecoveryPrefix | kernel/src/log.rs:170-203 | cut off after any number of block writes, a recovery still recovers to the same blocks; when it ends they are in place |
| LogCommit.CommitIsAtomic | kernel/src/log.rs:170-236 | a commit cut off anywhere and then any number of recoveries cut off anywhere leave the home blocks all-old or all-new |
| LogCommit.CommitTraceAt | kernel/src/log.rs:215-236 | the disks that a commit goes through are the ones the prefix statements speak of |
| LogCommit.LogDisk.Commit | kernel/src/log.rs:215-223 | the loops of `commit` write exactly that sequence of disks |
| LogCommit.LogDisk.RecoverFromLog | kernel/src/log.rs:170-175 | the loops of recovery install the logged blocks and erase the header, through the disks of `RecoveryDisk` |
| LogCommit.LogDisk.WriteLog | kernel/src/log.rs:225-236 | the loop of `write_log`, disk by disk |
| LogCommit.LogDisk.InstallTrans | kernel/src/log.rs:187-203 | the loop of `install_trans`, disk by disk |
| LogReserve.NextReserved | kernel/src/log.rs:50-113 | logged blocks plus what the running operations may still write never exceed LOGSIZE |
| LogReserve.WriteFits | kernel/src/log.rs:84-113 | within its allowance a write meets a guard if and only if the log is full, and never if the log is larger than LOGSIZE |
| LogReserve.LoggedBound | kernel/src/log.rs:84-113 | a log of `size` blocks never logs more than `size - 1` |
| LogReserve.ReservationSuffices | kernel/src/log.rs:50-113 | no run in which every operation stays within ten writes reaches the panic, if and only if the log has more than LOGSIZE blocks |
| LogReserve.ShippedLogCanPanic | kernel/src/log.rs:84-113 | with the shipped size, a run in which each operation stays within ten writes ends in the panic of `write`, on the tenth write of the third operation |
| PageWalk.IndicesNamePage | kernel/src/page_table.rs:450-452 | the three indices of an address determine its page |
| PageWalk.EntryRoundTrip | kernel/src/page_table.rs:454-523 | frame and flags of an entry come out as they went in, with VALID added |
| PageWalk.EntryBits | kernel/src/page_table.rs:454-523 | the same with the shifts and masks of the code on 64-bit words |
| PageWalk.SetFound | kernel/src/page_table.rs:216-334 | writing the entry a walk reached changes the flat map at that page of that space and nowhere else |
| PageWalk.AddTable | kernel/src/page_table.rs:285-302 | hanging a zeroed table page under an entry changes no lookup of any space |
| PageTable.PhysMem.Walk | kernel/src/page_table.rs:304-318 | the walk loop reaches the bottom table, whose entry is valid exactly if the flat map has the page |
| TableCost.CostNext | kernel/src/page_table.rs:216-302 | the tables missing for a range are those missing for its first page and, once these are in place, those for the rest |
| PageTable.PhysMem.WalkAlloc | kernel/src/page_table.rs:285-302 | fails if and only if fewer pages are free than tables are missing on the way; otherwise takes exactly those, and no lookup of any space changes |
| PageTable.PhysMem.MapPages | kernel/src/page_table.rs:216-246 | adds exactly the pages of the range, on consecutive frames with the given flags; it succeeds if and only if none was mapped and there are as many free pages as tables missing for the range, and it takes exactly those; on failure the pages before the one it stopped at are mapped |
| PageTable.PhysMem.UnmapPages | kernel/src/page_table.rs:248-283 | removes exactly its pages, frees exactly their frames when asked to, and stops at the first page that is not mapped by a leaf |
| PageTable.PhysMem.DropTable | kernel/src/page_table.rs:432-436 | dropping a table gives back every table page below it once, and reaches the leaf panic if and only if a valid entry is left at the bottom |
| PageTable.PhysMem.DropRoot | kernel/src/page_table.rs:526-534 | dropping a page table panics if and only if a page is still mapped, and otherwise frees exactly its own table pages |
| UserSpace.UvmAlloc | kernel/src/page_table.rs:136-170 | adds exactly the pages between the two sizes, zeroed, on new frames with user rights; it succeeds if and only if none of them is mapped and there is memory for all of them and the missing tables; on failure the pages added so far stay, and there are none exactly if the first one could not be added |
| UserSpace.UvmCopy | kernel/src/page_table.rs:197-214 | every page below the size gets a new frame with the parent's bytes and flags, and nothing else changes; it succeeds if and only if there is memory for the pages and the tables the child lacks and none of them is mapped there |
| UserSpace.UvmDealloc | kernel/src/page_table.rs:172-188 | removes exactly the pages between the sizes rounded up and frees their frames; it fails iff one is not mapped |
| UserSpace.FramesHeld | kernel/src/page_table.rs:136-188 | the frames behind a range are exactly the frames held by its pages: no frame is mapped twice |
| AddressSpace.AllocUserPageTable | kernel/src/page_table.rs:71-94 | a new space with the trampoline and trapframe pages and nothing else; it succeeds if and only if three pages are free, and takes three; on failure no space changes, and dropping the half-built table never panics, because the two pages share their tables |
| AddressSpace.Sbrk | kernel/src/proc/syscall.rs:517-535 | growing succeeds if and only if the new pages end below the trapframe page and there is memory for them and the missing tables, and shrinking always; exactly the pages below the new size are mapped then; after a failed growth this still holds for the old size if and only if there was no room or memory for a single page, and otherwise the first new page stays mapped |
| SpaceCases.LeftBehind | kernel/src/proc/syscall.rs:517-535 | on a machine of a few pages, growing by two pages fails, the first page stays mapped above the recorded size, and the end of the space panics |
| AddressSpace.UnmapUserPageTable | kernel/src/page_table.rs:123-132 | no `expect` fails, every data frame below the recorded size is freed, and exactly the pages beyond it stay mapped |
| AddressSpace.FreeSpace | kernel/src/page_table.rs:123-132 | a space is freed to the last frame and table page, each once, if and only if its recorded size covers all its pages; otherwise the drop of its page table panics |
| AddressSpace.GrowAndEnd | kernel/src/proc/syscall.rs:517-535 | a process that calls `sbrk` and then ends makes the kernel panic if and only if the growth failed although there was room and memory for a page |
| UserCopy.WalkAddr | kernel/src/page_table.rs:336-349 | an address of any size is found if and only if its page, taken modulo 2^39, is mapped for the user |
| UserCopy.CopyIn | kernel/src/page_table.rs:384-405 | reads the bytes of a range across pages up to the first that is not reachable, at any address, with 64-bit wrap-around |
| UserCopy.CopyOut | kernel/src/page_table.rs:409-429 | changes exactly the bytes of the range, up to the first that is not reachable, and no byte of any other space, at any address, with 64-bit wrap-around; addresses 2^39 apart are one place |
| UserCopy.ForkIsExact | kernel/src/page_table.rs:197-214 | after the copy every byte below the size, and its flags, are the same in parent and child, on different frames |
| UserCopy.SpacesAreApart | kernel/src/page_table.rs:409-429 | over any run of stores every byte of every space is the last one stored there |
| UserCopy.ForkIsolation | kernel/src/page_table.rs:197-214 | whatever others store after a fork, the child keeps the bytes the parent had at the fork |
| SchedTheorems.NextInv | kernel/src/cpu.rs:31-58 | one invariant is kept by every step of every CPU, in any interleaving |
| SchedTheorems.NoPanic | kernel/src/spinlock.rs:69-98 | `acquire`, `release`, `sched` and the parent lookup of `exit` never panic, and no unsaved context is loaded |
| SchedTheorems.OneCpu | kernel/src/cpu.rs:31-58 | at most one CPU has a process, from picking it to giving it back |
| SchedTheorems.LoadsAreSaved | kernel/src/cpu.rs:121-148 | a CPU that loads a context finds it saved, with no other CPU on that stack |
| SchedTheorems.SchedHoldsOneLock | kernel/src/cpu.rs:121-148 | in `sched` a CPU holds the lock of its process and no other |
| SchedTheorems.NoExitMissed | kernel/src/process.rs:119-219 | whenever `parents` is free, a process asleep in `wait` has no zombie child |
| SchedTheorems.ParentsAreLive | kernel/src/process.rs:119-219 | a recorded parent is neither unused nor a zombie; it has a smaller pid than its child unless `wait` has just freed the child, and not while the freed entry is unused; in between, when a fork has taken the entry, the order is undecided |
| SchedCases.OrderFails | kernel/src/process.rs:119-175 | a run of boot, fork, wait, exit and wait reaches a state in which a recorded child has a smaller pid than its parent |
| SchedCases.Deadlock | kernel/src/proc.rs:411-429 | a run on two CPUs reaches a state without a panic in which no CPU has a step: one holds the lock of a woken process and waits for the lock that process slept with, which the other holds in `wakeup` while it waits for the lock of the process |
| SchedTheorems.ChainEndsAtInit | kernel/src/proc.rs:434-498 | whenever `parents` is free, the chain of parents of every process ends at init |
| SchedTheorems.SleepLockIsExclusive | kernel/src/sleeplock.rs:44-70 | at most one guard of a sleep lock exists, and then the lock is locked |
| SchedTheorems.NoLostWakeup | kernel/src/sleeplock.rs:44-70 | whenever the inner lock is free, a process that sleeps on a sleep lock finds it locked |
| SchedBase.ScanKeeps | kernel/src/process.rs:89-101 | picking a runnable process keeps every process on at most one CPU, every lock with the one holder its point in the code stands for, and all other CPUs as they are |
| SchedBase.DispatchKeeps | kernel/src/cpu.rs:41-48 | taking the lock of the picked process and marking it as running keeps the same |
| SchedSteps.YieldInv | kernel/src/proc.rs:399-407 | `yield_process` keeps the whole invariant: the process turns runnable under its own lock, so no other CPU picks it before its context is saved |
| SchedSteps.SleepUnlockInv | kernel/src/proc.rs:411-429 | `sleep` keeps it on giving up its lock: the process sleeps already, so no zombie child and no unlocked sleep lock is slept through |
| SchedSteps.WakeInv | kernel/src/process.rs:103-116 | `wakeup` keeps it: while the channel's lock is held, a process it has passed does not sleep past a zombie child or on an unlocked sleep lock |
| SchedSteps.WaitInv | kernel/src/process.rs:119-175 | `wait` keeps it in the scan, at the end of a child and on going to sleep: no zombie child is behind its position |
| SchedSteps.ExitScanInv | kernel/src/process.rs:193-208 | reparenting in `exit` keeps it: up to its position no process has the exiting one as its parent, and recorded parents are live and older |
| SchedSteps.ExitZombieInv | kernel/src/process.rs:210-217 | becoming a zombie keeps it: nobody has the process as a parent any more, and its own parent does not sleep in `wait` |
| SchedSteps.ForkFindInv | kernel/src/process.rs:57-76 | `alloc_proc` keeps it: an unused entry is on no CPU, and becomes the embryo of exactly one fork, with a pid larger than its forker's |
| SchedSteps.ForkParentInv | kernel/src/proc.rs:487-490 | recording the parent in `fork` keeps it: the parent is live and older than its child |
| FsLayout.WordSet | kernel/src/fs.rs:556-561 | a word written into a block is read back, and the other words are kept |
| FsLayout.PutInode | mkfs/src/main.rs:155-165 | an inode written into its block is read back, and the other inodes are kept |
| BlockMap.FindUse | kernel/src/fs.rs:531-605 | every slot of every inode leads to a block with the use the slot stands for, so no block is in two slots |
| BlockMap.FindKept | kernel/src/fs.rs:531-605 | changes that keep data blocks and used slots keep every mapped block |
| Mkfs.FsImage.IAlloc | mkfs/src/main.rs:140-153 | a new, empty file, without a block, and no other file changes |
| Mkfs.FsImage.WInode | mkfs/src/main.rs:155-165 | the inode goes to its place in the table, outside of everything that is mapped |
| Mkfs.FsImage.BlockFor | mkfs/src/main.rs:183-294 | the block for a file block at any of the three levels, with new zeroed blocks for exactly the empty slots, each used once |
| Mkfs.FsImage.IAppend | mkfs/src/main.rs:178-314 | the file is what it was followed by the new bytes, with zeros up to the end of its last block, in exactly the blocks that the longer file needs; every other file is unchanged |
| FileTree.PastEnd | mkfs/src/main.rs:178-314 | no block at or behind the end of a file is mapped |
| FileTree.TakenIs | mkfs/src/main.rs:183-294 | at the end of a file `iappend` takes as many blocks as a file of one more block has more, tables included |
| RoundTrip.BAlloc | mkfs/src/main.rs:316-324 | of the whole bitmap exactly the first `used` bits are set; it fails if and only if they do not fit in one block |
| RoundTrip.Mount | kernel/src/bmap.rs:22-56 | on an image whose used blocks are marked, the kernel's allocator has no block of the image as free |
| RoundTrip.Install | mkfs/src/main.rs:356-424 | for any calls of `ialloc` and `iappend`, the root fixed, the bitmap written and the image mounted: the kernel has exactly the blocks as free that no file and no metadata has |
| RoundTrip.ReadBack | kernel/src/fs.rs:607-640 | reading a file of an image gives the slice of the appended bytes that was asked for, up to the end of the file, and changes nothing; it panics exactly if the range starts past the end |
| RoundTrip.BuildAndRead | mkfs/src/main.rs:356-424 | after any calls of `ialloc` and `iappend`, reading any file gives the slice of its appended bytes, and zeros behind the old end of the root; it panics if and only if the range starts past the end, or reaches the block a root was not given while too few blocks are free |
| RoundTrip.FixSize | mkfs/src/main.rs:416-422 | with its size rounded up the root stays a file, padded with zeros, if and only if its size was no multiple of BSIZE; its slots and every other file stay as they are |
| FsCases.RootBeyondBlocks | mkfs/src/main.rs:416-422 | a root of 128 entries, appended one by one, gets the size of two blocks, and there is no second block |
| Bitmap.MarkBits | kernel/src/bmap.rs:22-71 | setting or clearing the bit of a block changes no other bit |
| KernelFs.Fs.Alloc | kernel/src/bmap.rs:22-56 | takes the first free block, zeroed; it was in no block map; it fails if and only if none is free |
| KernelFs.Fs.Free | kernel/src/bmap.rs:59-71 | clears the bit, and panics if and only if it is clear already |
| KernelFs.Fs.Bmap | kernel/src/fs.rs:531-605 | keeps all block maps apart and every mapped block in place; returns the block it maps if and only if the block is direct or was mapped before; it panics if and only if fewer blocks are free than slots on the way are empty, and takes exactly as many |
| KernelFs.Fs.BmapIndirect | kernel/src/fs.rs:546-566 | an empty indirect slot is filled with a zeroed block, no other block becomes mapped, and 0 is returned; panics as for `Bmap` |
| KernelFs.Fs.BmapDouble | kernel/src/fs.rs:570-602 | with an empty slot on the way through the double-indirect block, the returned block is never the mapped one; panics as for `Bmap` |
| KernelFs.Fs.FillBlockZero | kernel/src/fs.rs:590-600 | where the double-indirect slot was empty, the code reads and fills a slot of block 0; it panics if and only if that slot is empty and no block is free |
| KernelFs.Fs.ITrunc | kernel/src/fs.rs:723-751 | every `free` succeeds; exactly the bits of the direct and indirect blocks are cleared, every other block and map stays, and all blocks of the file are given back if and only if its double-indirect slot is empty |
| KernelFs.TruncLeaves | kernel/src/fs.rs:723-751 | once those bits are cleared, the double-indirect block, the tables in it and their blocks are all still marked, so no block of the file is left marked if and only if the double-indirect slot is empty; the free count grows by exactly the blocks cleared |
| KernelFs.EmptyDoubleStays | kernel/src/fs.rs:723-751 | a double-indirect block of zeros maps nothing, and still stays marked |
| FsCases.LostBlocks | kernel/src/fs.rs:723-751 | a file fills its direct and indirect blocks; one touch of the block behind its end takes three blocks, and after `itrunc` three data blocks are not free while no file has a byte |
| FsCases.FirstTouch | kernel/src/fs.rs:546-566 | on a file of eleven blocks `bmap` of the block behind its end fills an indirect slot and returns 0 |
| FileWrite.WriteI | kernel/src/fs.rs:643-678 | the file becomes the old bytes with the new ones over them, except that bytes for an indirect block not mapped before the call are lost and read as zeros; no other file changes; it fails if and only if the range starts past the end or ends past the end of the largest file, and panics if and only if fewer blocks are free than are missing or the size does not fit in 32 bits |
| FileWrite.StoredIsAsked | kernel/src/fs.rs:643-678 | the file is what was asked for if and only if every byte for such a block is zero |
| FsCases.LostByte | kernel/src/fs.rs:643-678 | any byte written behind the direct blocks of a file reads back as zero |
| FileRead.ReadI | kernel/src/fs.rs:607-640 | returns the mapped bytes of the range, zeros for direct holes and block 0 for indirect ones, which it fills while reading; it fails if and only if the range does not fit in 64 bits, and panics if and only if it starts past the end, where the count wraps around and the loop runs out of the largest file, or fewer blocks are free than are missing; without holes nothing changes |
| FileRead.HoldsSeen | kernel/src/fs.rs:607-640 | for a file the bytes seen are the bytes of the file |
| Directory.SameName | kernel/src/fs.rs:707-715 | names are compared up to and with the first NUL; a name without one equals nothing |
| Directory.CopyName | kernel/src/fs.rs:781-787 | the stored name stands for the given one, whatever bytes are left after its NUL |
| Directory.GetPut | kernel/src/fs.rs:690-719 | an entry written into the file is read back, and the other entries are kept |
| DirFile.Lookup | kernel/src/fs.rs:690-719 | through `readi`, lookup in a finite map from names to inode numbers; nothing changes |
| DirFile.FindAvailable | kernel/src/fs.rs:801-813 | the first free entry, or the end of the file |
| DirFile.Link | kernel/src/fs.rs:766-798 | through `writei`, insertion into the map if absent; the name is found again if and only if it has a NUL and its entry lands in a mapped or direct block; it panics if and only if the number does not fit in 16 bits or there is no room; no other file changes |
| DirFile.Unlink | kernel/src/fs.rs:272-281 | removal from the map, without a panic; no other file changes |
| Heap.SizeAlign | kernel/src/kalloc/linked_list.rs:112-119 | the padded layout covers the request, is a multiple of the node alignment and holds a node |
| Heap.TakenOk | kernel/src/kalloc/linked_list.rs:126-142 | splitting a region for a block keeps everything apart, aligned and in the heap, and loses only the padding |
| Heap.ReturnedOk | kernel/src/kalloc/linked_list.rs:144-147 | giving a block back keeps everything apart and loses nothing |
| Heap.LinkedListAllocator.AddFreeRegion | kernel/src/kalloc/linked_list.rs:48-72 | the aligned region becomes the first of the list; the assertions hold if and only if it has room for a node |
| Heap.LinkedListAllocator.FindRegion | kernel/src/kalloc/linked_list.rs:74-89 | unlinks the first region that fits and leaves the rest of the chain in order |
| Heap.LinkedListAllocator.Init | kernel/src/kalloc/linked_list.rs:43-45 | the heap starts as one region, less what its alignment costs |
| Heap.LinkedListAllocator.Alloc | kernel/src/kalloc/linked_list.rs:127-142 | the block is aligned, in the heap and apart from every other; free, live and lost bytes add up; no assertion fails |
| Heap.LinkedListAllocator.Dealloc | kernel/src/kalloc/linked_list.rs:144-147 | the block is the first free region again, and no assertion fails |

## Left out

- Progress and fairness: they fail, as `Deadlock` shows; what a run would have to avoid is not stated.
- NoPanic: leaves out the checks of `sched` and `pop_off` that interrupts are off; interrupt enabling (`intena`) is not modelled, only the nesting depth `noff`.
- FsImage.IAlloc: asks that the inode table has room, because the code has no check and would write behind it.
- FsImage.BlockFor: asks that block numbers fit in 32 bits, because the code truncates them otherwise.
- FsImage.IAppend: asks that sizes and block numbers fit in 32 bits, because the code truncates them otherwise.
- FixSize: asks that the new size fits in 32 bits, because the code truncates it otherwise.
- BuildAndRead: asks that inodes, block numbers and sizes fit, and the used blocks in one bitmap block, without which mkfs stops or truncates; and that a root with a size that is a multiple of BSIZE ends before the double-indirect part.
- WalkAlloc: asks for addresses below 2^39, beyond which the walk would alias lower pages.
- MapPages: asks the same of its range; `Sbrk` shows that no 32-bit argument leads there.
- UnmapPages: asks the same, and, when it frees, for pages on data frames of their own.
- UvmAlloc: asks the same.
- UvmDealloc: asks for pages on data frames below 2^39, as a space has.
- DropTable: asks that the valid entries of bottom tables are leaves, as every mapped page has some right.
- CopyOut: asks for at most 2^39 bytes, which is the whole space.
- LinkedListAllocator.Alloc: asks that the heap end lies at least one alignment below the top of the address space, where the code's address arithmetic would wrap around.
- ReadI: leaves out ranges with a hole in the double-indirect part, for which `bmap` returns whatever block 0 holds in a slot.
- WriteI: leaves out ranges with a hole in the double-indirect part too.
- DirFile.Link: leaves out an entry in such a hole, and the inode number 0, which marks a free entry.
- The contents and locking of the in-memory inode table (`iget`, `iput`, `ilock`, `iupdate`): the kernel model has the inodes as they are in memory.
- Freeing of memory-mapped areas and of open files in `Proc::free`, and the page table work of `fork`, in the process machine: they are part of one step there.
- The heap behind `Box`: page-table pages and frames come from a pool of free pages, and what an operation needs is counted in these.
- Weak memory orderings: steps are atomic and sequentially consistent.
- Device drivers, traps, assembly, system-call wrappers, network, pipes, the console, ELF loading, environment variables and user programs.
- `copy_in_str`, path lookup, `stati`, `is_dir_empty` and other members that would only add easy statements.
- Block 0 of device 0: at boot all buffers carry that number; transparency is stated for a real device.
