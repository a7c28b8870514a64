# Proofs about xv6

A Dafny model of the parts of the xv6 kernel (RISC-V), its user programs and its `mkfs` in which something can go wrong
silently, with proofs of what they promise.

- **Log and buffer cache** (`LogFormat`, `LogAdmission`, `LogProtocol`, `LogWitness`, `BufferCache`, `LogCode`): the
  write-ahead log as a machine of small steps with a crash possible between any two block writes, and the same code as
  imperative methods over an LRU buffer cache, each disk state on the way accounted for.
- **Address spaces** (`Sv39`, `PageTable`, `Kalloc`, `TableCount`, `Vm`, `UserVm`, `Teardown`, `ProcMemory`): three-level
  page tables in physical pages, proved to represent a map from virtual pages to entries, with every physical page
  accounted for through every success, failure and rollback, and failure exactly when too few pages are free.
- **Inodes and file data** (`FsFormat`, `Bitmap`, `Ownership`, `Dinodes`, `Inodes`, `FileData`): bit map bytes, direct and
  indirect blocks, truncation, and reading and writing as splicing of byte sequences within the log's budget.
- **mkfs** (`Mkfs`, `MkfsImage`): the image from the list of files, when it fits, and where it is wrong.
- **Directories and links** (`Names`, `Directories`, `DirFiles`, `InodeTable`, `Links`, `LinkSteps`, `LinkCalls`,
  `LinkCounts`, `LinkEntries`, `LinkCreate`, `LinkHomes`, `LinkRuns`, `LinkFailures`, `ImageBoot`): directory
  entries in file bytes, and link counts under every interleaving of link, unlink, create and iput, from the image of
  mkfs on.
- **Processes** (`SleepLock`, `ProcTree`): sleep locks with sleep and wakeup, and fork, exit and wait.
- **Devices and pipes** (`Virtio`, `Pipe`): the virtio rings with driver, device and interrupt, and the pipe's ring with
  readers, writers and closers.
- **User programs** (`Umalloc`, `Grep`, `ShellSyntax`, `ShellParser`, `ShellRoundTrip`).

`dafny verify dfyconfig.toml` checks everything.  Protocols are machines whose steps are the parts of the code that run
under one lock; a theorem about them is about every state of every run.  Code that works in place is a class or method
with the same loops, and panics and failures are results, not excluded inputs.

Where the code does less than one would expect, the model follows the code: `log_write()` refuses one block early and
before it tries to absorb (`LogAdmission.GuardUnreachableIff`); a killed pipe writer wakes nobody (`Pipe.LostWakeup`);
`mkfs` leaves a hole in the root directory for 62 files and loses inodes from 207 files on (`MkfsImage.MakeImage`); link
counts wrap at 32768, and ".." of a removed directory can lead into an inode that `create()` is still making, which
`create()` then counts wrongly (`LinkFailures`).

## Model

| member | source | states |
|---|---|---|
| `LogProtocol.CrashSafe` | kernel/log.c:69-235 | In every state of every run of any number of threads, with a crash possible between any two block writes and again during recovery, running recovery to its end leaves every home block as the committed prefix of the history makes it and the log empty, and no operation is split by that prefix. |
| `LogProtocol.RunKeepsInv` | kernel/log.c:69-235 | The invariant behind crash safety (what the disk stands for, which buffers are pinned, what each phase has written so far) holds in every state of every run. |
| `LogProtocol.CommitsAreForever` | kernel/log.c:147-203 | What is committed in one state of a run is committed, with the same events, in every later state, crashes included. |
| `LogProtocol.QuietMeansCommitted` | kernel/log.c:147-175 | Whenever the log is idle or past its commit point, everything done so far is committed. |
| `LogProtocol.ReadsSeeLatest` | kernel/bio.c:59-137 | A thread that holds a loaded buffer of a home block sees the latest contents of that block; a block of the log's list that is not installed yet, and no other, is pinned, and so cached, loaded and referenced. |
| `LogProtocol.RunProjects` | kernel/log.c:127-235 | Seen from the log's bookkeeping every run of the protocol is a run of the admission machine, so it obeys the space reservations. |
| `LogWitness.Commits` | kernel/log.c:69-235 | For every log with room for one block, every home block and every contents there is a run that commits exactly that write: the statements about committed operations are not empty. |
| `LogFormat.RecoverCorrect` | kernel/log.c:117-123 | Recovery turns a disk that stands for some home contents into one whose home blocks have these contents and whose log is empty, and that again stands for them. |
| `LogFormat.HeadRoundTrip` | kernel/log.c:87-114 | read_head() reads back exactly the list that write_head() stored, whatever the header block held before. |
| `LogFormat.RecoversToUnique` | kernel/log.c:69-123 | A disk stands for one home contents only. |
| `LogFormat.HeadWriteCommits` | kernel/log.c:103-114 | One header write, once the slots are filled, moves the disk from standing for the old contents to standing for the new ones. |
| `LogFormat.InstallHarmless` | kernel/log.c:69-83 | Installing a listed block, whether or not it is home already, changes nothing that recovery sees. |
| `LogFormat.SlotWriteHarmless` | kernel/log.c:179-191 | Writing a slot of an empty log changes nothing that recovery sees. |
| `LogFormat.ClearHarmless` | kernel/log.c:117-123 | Emptying the log once every listed block is home changes nothing that recovery sees. |
| `LogAdmission.ReservationHolds` | kernel/log.c:127-175 | If operations stay within MAXOPBLOCKS then in every state of every run the logged blocks and the unused reservations together fit the log, the entries are distinct home blocks with slots inside the log, and a commit runs only when nothing is outstanding. |
| `LogAdmission.GuardUnreachableIff` | kernel/log.c:215-235 | With a log of at least LOGSIZE blocks the refusal in log_write() is out of reach if and only if every operation stays strictly below MAXOPBLOCKS; for MAXOPBLOCKS itself a run that reaches it is constructed. |
| `LogCode.Log.WriteLog` | kernel/log.c:179-191 | The copying loop fills every slot with what the cache shows for its block, and every disk on the way still stands for the old contents. |
| `LogCode.Log.InstallTrans` | kernel/log.c:69-83 | The installing loop brings every logged block home and unpins it, and every disk on the way stands for the committed contents. |
| `LogCode.Log.WriteHead` | kernel/log.c:103-114 | Exactly one block write, of the header with the list in memory, and nothing else changes in the cache or on disk. |
| `LogCode.Log.ReadHead` | kernel/log.c:87-97 | The list in memory becomes the list in the header block. |
| `LogCode.Log.Commit` | kernel/log.c:194-203 | Every disk that the imperative commit passes through stands for the old contents before one point and for the new contents from there on; unless a panic cuts it short the home blocks end up new and the log empty. |
| `LogCode.Log.RecoverFromLog` | kernel/log.c:117-123 | From any disk that stands for some contents, every disk on the way stands for the same contents, and at the end they are home and the log is empty. |
| `LogCode.Log.BeginOp` | kernel/log.c:127-142 | One look at the log admits the operation or sends it to sleep exactly as the admission machine does. |
| `LogCode.Log.EndOp` | kernel/log.c:147-175 | The bookkeeping of the admission machine, with its panic exactly if a commit is under way; the last operation out is the one told to commit. |
| `LogCode.Log.LogWrite` | kernel/log.c:215-235 | A block already in the list is absorbed without a change, a new one is appended and its buffer pinned, and a refusal, which is tested first, changes nothing. |
| `BufferCache.BCache.FindCached` | kernel/bio.c:66-73 | The first scan finds the buffer of the block if and only if the block is cached. |
| `BufferCache.BCache.FindUnused` | kernel/bio.c:77-86 | The second scan finds the unreferenced buffer nearest to the least recently used end, and none only if every buffer is referenced. |
| `BufferCache.BCache.Bget` | kernel/bio.c:59-89 | A cached block gains a reference and nothing else changes; otherwise the least recently released unreferenced buffer is recycled and only its old block leaves the cache; the panic comes exactly if every buffer is referenced. |
| `BufferCache.BCache.Bread` | kernel/bio.c:93-103 | The buffer handed out is locked and shows the contents of the block. |
| `BufferCache.BCache.Bwrite` | kernel/bio.c:107-112 | One block of the disk becomes the buffer's contents; it panics exactly if the caller does not hold the buffer. |
| `BufferCache.BCache.Brelse` | kernel/bio.c:117-137 | The reference is dropped, and the last one moves the buffer to the front of the list and leaves the order of the others. |
| `BufferCache.BCache.MoveToFront` | kernel/bio.c:126-134 | Six pointer updates in the doubly linked list realise exactly: this buffer first, the others in their order. |
| `BufferCache.BCache.constructor` | kernel/bio.c:37-53 | The pointer updates of binit() leave a well-formed ring of all buffers. |
| `Sv39.PteRoundTrip` | kernel/riscv.h:341-352 | A page table entry gives back its page and its flags, with the valid bit set. |
| `Sv39.PteRoundTripBits` | kernel/riscv.h:341-352 | The same round trip on 64-bit vectors. |
| `Sv39.PxSpell` | kernel/riscv.h:355-357 | The three indices of an address spell its page number. |
| `PageTable.AddL1` | kernel/vm.c:81-98 | Hanging a zeroed page under the root keeps the three-level tree a representation of the same map with one more table page. |
| `PageTable.AddL0` | kernel/vm.c:81-98 | Hanging a zeroed page under a middle table keeps the tree a representation of the same map with one more table page. |
| `PageTable.SetLeaf` | kernel/vm.c:138-187 | Storing a last-level entry changes the map at exactly that page and nowhere else. |
| `Kalloc.Memory.Kfree` | kernel/kalloc.c:47-63 | The page goes to the head of the free list, or panic exactly if it is misaligned or out of range. |
| `Kalloc.Memory.Kalloc` | kernel/kalloc.c:69-82 | The head of the free list, filled with junk, and 0 exactly if the list is empty. |
| `Kalloc.Memory.Freerange` | kernel/kalloc.c:34-40 | Exactly the pages that lie wholly inside the range become free, and it panics exactly if one of them is outside managed memory. |
| `Vm.Walk` | kernel/vm.c:81-98 | The place of the entry for an address; tables made on the way come from the free list and stay, one page for each, only on the way to that address, and the map that the tree stands for does not change; without alloc it succeeds if and only if the tables are there. |
| `Vm.Mappages` | kernel/vm.c:138-160 | In every outcome the map has gained the entries of a run of pages from va on and nothing else, and no page is lost; on success the run is the whole range, and a failure means that there were fewer free pages than tables missing for the run and the page after it. |
| `UserVm.Walkaddr` | kernel/vm.c:104-121 | The physical page of a mapped user page, and 0 exactly for every other address. |
| `UserVm.Uvmunmap` | kernel/vm.c:166-187 | Exactly the pages of the range up to the first unmapped one are removed, each backing page is freed exactly once if asked, every other page keeps its entry, and a panic means an unaligned address or an unmapped page. |
| `UserVm.LeafFlags` | kernel/vm.c:179-180 | A valid last-level entry is never a bare pointer, so "uvmunmap: not a leaf" cannot happen. |
| `UserVm.Uvmalloc` | kernel/vm.c:221-244 | On success the new pages are zeroed, user-accessible and backed by distinct pages from the pool; on failure the map, the pages in use and the pool are as before; it succeeds if and only if there are as many free pages as the new pages and the tables they lack. |
| `UserVm.Uvmdealloc` | kernel/vm.c:251-262 | Exactly the pages between the rounded sizes are removed and freed, and the pool gains exactly their frames. |
| `UserVm.Uvmcopy` | kernel/vm.c:301-328 | The child gets the parent's pages with the same flags and contents on pages of its own, the parent is untouched; on failure the child's map, the pages in use and the pool are as before; it succeeds if and only if there are as many free pages as the copies and the tables they lack. |
| `TableCount.TowardCount` | kernel/vm.c:81-98 | A tree that has gained only tables of a range has at most as many tables more as the range lacked, and exactly as many if and only if it has them all. |
| `TableCount.Shortage` | kernel/vm.c:221-244 | If one page of a range cannot be had after those before it, then there were fewer free pages than the whole range and its missing tables take. |
| `Teardown.Freewalk` | kernel/vm.c:267-282 | It panics exactly if some page is still mapped below; otherwise every table page of the subtree is freed exactly once and nothing else changes. |
| `ProcMemory.Uvmcreate` | kernel/vm.c:192-200 | A page from the free list that represents the empty map, or 0 exactly if there is none. |
| `ProcMemory.Uvmfree` | kernel/vm.c:287-292 | It panics exactly unless the pages of [0, PGROUNDUP(sz)) and no others are mapped; otherwise all of them and all table pages are free again. |
| `ProcMemory.ProcPagetable` | kernel/proc.c:174-202 | A map of exactly the trampoline and the trapframe, or 0 with every page back on the free list, and 0 exactly if fewer than three pages are free. |
| `ProcMemory.ProcFreepagetable` | kernel/proc.c:207-212 | On a process's page table it never panics, and the free list gains exactly the user pages and the table pages. |
| `ProcMemory.Proc.Growproc` | kernel/proc.c:255-270 | For every n it never panics, the user pages stay exactly [0, PGROUNDUP(sz)), kept pages keep their entries, a failure changes neither map nor size, no page is lost, and it fails if and only if n > 0 and there are fewer free pages than the new pages and the tables they lack. |
| `ProcMemory.SizeBound` | kernel/proc.c:255-270 | Physical memory bounds the size of a process, so the 32-bit arithmetic of growproc() and uvmunmap() does not wrap. |
| `FsFormat.WordStored` | kernel/fs.c:391-400 | A word stored in the indirect block reads back, and the other words do not change. |
| `FsFormat.BitSet` | kernel/fs.c:73-76 | Setting a clear bit by addition sets that bit and no other. |
| `FsFormat.BitCleared` | kernel/fs.c:97-100 | Clearing a set bit by subtraction clears that bit and no other. |
| `FsFormat.BitChangeBits` | kernel/fs.c:73-100 | On 8-bit vectors the kernel's | and & ~ are that addition and subtraction. |
| `Bitmap.MarkedIs` | kernel/fs.c:73-77 | Marking a block changes that block's bit of the map and no other. |
| `Bitmap.UnmarkedIs` | kernel/fs.c:90-103 | Unmarking a block changes that block's bit of the map and no other. |
| `Ownership.Exclusive` | kernel/fs.c:378-437 | Under the ownership invariant no block is referenced by two slots of any inodes, and every referenced block is a marked data block. |
| `Inodes.FileSystem.Balloc` | kernel/fs.c:65-86 | The first unmarked block, now marked and zeroed and in nobody's possession, with no other bit changed; failure exactly if every block is marked. |
| `Inodes.FileSystem.Bfree` | kernel/fs.c:90-103 | Exactly that bit is cleared; it panics exactly if the block is free already. |
| `Inodes.FileSystem.Bmap` | kernel/fs.c:378-405 | The block gets a number if it had none, a new block is zeroed and the file's own, every other number of every file and every data block stays, at most the stated blocks are logged, and None means the number is out of range or every block is marked. |
| `Inodes.FileSystem.Itrunc` | kernel/fs.c:410-437 | "freeing free block" is never reached, exactly the blocks of the file are freed, no other file is touched, and the inode is empty. |
| `FileData.MappingBytes` | kernel/fs.c:378-405 | bmap() changes no byte of any file. |
| `FileData.DataBytes` | kernel/fs.c:487-517 | Writing one data block changes exactly that block's bytes of that file and no byte of another. |
| `FileData.Readi` | kernel/fs.c:456-477 | For any file, with or without holes: exactly its bytes in the range, clipped at its end, or -1 if and only if a copy to the user fails; no byte and no size of any file changes; something is allocated if and only if a block of the range had no number, and only then, on a full disk or past the largest file, it panics. |
| `FileData.Writei` | kernel/fs.c:487-517 | On success the file is the old one with the bytes spliced in and no other file changes; no file gets a hole; a failed copy keeps the bytes before it and leaves at most the rest of a block open; the disk-full panic means that every block is marked; at most Budget blocks are logged. |
| `FileData.BudgetFits` | kernel/file.c:148-175 | Every chunk that filewrite() chooses stays within MAXOPBLOCKS logged blocks, whatever its offset, unless it starts inside a block that is a hole, which costs one block more. |
| `FileData.WriteTransaction` | kernel/file.c:157-172 | One transaction logs at most MAXOPBLOCKS distinct blocks if the file has no hole or the offset is at a block, and one more otherwise; it moves the offset by what was written, splices exactly that, and returns -1 if and only if writei() refuses the range. |
| `FileData.Filewrite` | kernel/file.c:135-181 | The file reads as the old one with the first bytes spliced in at the old offset, no other file changes, the offset has moved by as many, the result is the whole count, or -1 and then the next part was refused or a copy failed, and for a file without holes no transaction exceeds MAXOPBLOCKS. |
| `Dinodes.InodeStored` | mkfs/mkfs.c:185-209 | An inode written to its 64 bytes of an inode block reads back, and the other fifteen inodes of the block do not change. |
| `Mkfs.BitmapBlock` | mkfs/mkfs.c:235-248 | The block written marks exactly the first blocks. |
| `Mkfs.Builder.Winode` | mkfs/mkfs.c:185-196 | The inode is in its place on disk and no byte of any file changes. |
| `Mkfs.Builder.Iappend` | mkfs/mkfs.c:253-294 | The file grows by exactly the bytes given, in exactly the blocks they need, no other file changes and every inode is in its place; it dies if and only if the file would be too large or the blocks run out. |
| `Mkfs.Builder.Ialloc` | mkfs/mkfs.c:221-232 | A new empty inode is in its place on disk and every file is as before. |
| `Mkfs.NextBlock` | mkfs/mkfs.c:253-294 | Handing out freeblock++ is what the kernel's own allocator would do on the image with its bit map written. |
| `MkfsImage.MakeImage` | mkfs/mkfs.c:69-173 | mkfs finishes (below 223 files) if and only if names, sizes and blocks fit; then the image obeys the kernel's ownership rules, every file has its contents without a hole, the root directory has its entries and zeroes behind them, and a hole exactly if its entries fill whole blocks, and an inode is in its place exactly if its number is below 208. |
| `MkfsImage.FixedHole` | mkfs/mkfs.c:163-168 | Rounding up the size of the root directory leaves a hole if and only if the size was a multiple of the block size. |
| `MkfsImage.HoleImage` | mkfs/mkfs.c:163-168 | mkfs on 62 empty files makes an image whose root directory has a hole. |
| `MkfsImage.MapIsNoInode` | mkfs/mkfs.c:185-248 | A bit map that marks the first blocks and no others never reads as the inode of a file, so in every finished image inode 208 and the fifteen after it are lost. |
| `MkfsImage.LostInode` | mkfs/mkfs.c:185-248 | mkfs on 207 empty files finishes, and exactly the last file's inode is not in the image. |
| `MkfsImage.Mount` | mkfs/mkfs.c:69-173 | The kernel's file layer on the image starts with its ownership invariant and with sizes in range, and without holes exactly if the root directory's entries do not fill whole blocks. |
| `Names.Strncmp` | kernel/string.c:61-68 | Zero exactly if the two names agree in the characters before a NUL, at most n of them. |
| `Names.Strncpy` | kernel/string.c:71-81 | The characters before a NUL, at most n, and NULs up to n. |
| `Names.StoredSame` | kernel/fs.c:577 | What dirlink() stores is the same name again for namecmp(). |
| `Names.Skipelem` | kernel/fs.c:600-622 | The next element of the path as a character-by-character definition splits it, cut to 14 characters, and the rest; 0 exactly if there is none. |
| `DirFiles.DecodeEncode` | kernel/fs.h:56-59 | A directory entry comes back from its sixteen bytes. |
| `DirFiles.EntrySpliced` | kernel/fs.c:557-583 | Writing sixteen bytes at the place of an entry changes exactly that entry of the directory, or adds one at the end. |
| `DirFiles.Dirlookup` | kernel/fs.c:530-553 | On the bytes of any directory file: the position of the only live entry with the name, or the size exactly if no entry has it; no file changes; only a directory with a hole, on a full disk, makes it panic. |
| `DirFiles.Dirlink` | kernel/fs.c:557-583 | Refused exactly if the name is there; otherwise the directory file gains exactly that entry in its first free place or at the end, names stay unique, no other file changes and none gets a hole; a panic means no free block or a directory of maximal size. |
| `DirFiles.Isdirempty` | kernel/sysfile.c:170-182 | With the two dots in front, true exactly if no named entry is left; only a directory with a hole, on a full disk, makes it panic. |
| `Directories.GainsUnique` | kernel/fs.c:557-583 | Adding a name that is absent keeps the live names of a directory unique under truncation to 14 characters. |
| `InodeTable.ITable.constructor` | kernel/fs.c:180-188 | The table starts without an entry in use. |
| `InodeTable.ITable.Iget` | kernel/fs.c:243-273 | The entry already in use for the inode, or a free one; at most one entry per inode stays true, and it panics exactly if there is neither. |
| `InodeTable.ITable.Idup` | kernel/fs.c:278-284 | One more reference to the same entry. |
| `LinkRuns.StepKeepsInv` | kernel/sysfile.c:120-284 | Every step of link, unlink, create, iget, idup, ilock and iput by any number of processes keeps the link-count invariant, unless a counter overflows or a lookup leads to an unfinished inode. |
| `LinkRuns.LinksSafe` | kernel/sysfile.c:120-284 | In every state of every run from the image of mkfs that does not overflow a counter and does not follow ".." out of a directory that has lost its name: the count is at least the number of named entries, at most one table entry per inode is in use, names are unique in every directory, an inode about to be freed has no named entry, unlink never finds a count below one, and no lookup leads to a free, half-made or half-freed inode. |
| `LinkRuns.RunKeepsInv` | kernel/fs.c:243-358 | The invariant, and with it where the dots lead, holds in every state of every such run. |
| `LinkRuns.LinksCoverNames` | kernel/sysfile.c:120-284 | The count covers the named entries in all directories, and for the root one link more. |
| `LinkRuns.FreedIsUnnamed` | kernel/fs.c:333-358 | When iput() frees an inode nothing names it, it is not the root, and nobody else refers to it. |
| `LinkSteps.LastAlone` | kernel/fs.c:337-342 | The last reference is the only one, so acquiresleep() in iput() does not wait. |
| `LinkRuns.RemovedIsEmpty` | kernel/sysfile.c:170-239 | A directory that unlink() removes has no named entry. |
| `LinkEntries.EntryMeans` | kernel/sysfile.c:205-214 | When unlink() has locked the inode, the entry it found still names it, its count is at least one, and a directory's parent has a link to give up. |
| `LinkRuns.BumpExact` | kernel/sysfile.c:141-142 | When link() raises a count, every count stays at least the number of named entries if and only if the count was below 32767. |
| `LinkRuns.MkdirExact` | kernel/sysfile.c:270-276 | When mkdir() raises its parent's count, every count stays at least the number of named entries if and only if the parent's count was below 32767. |
| `LinkRuns.WalkExact` | kernel/fs.c:629-661 | Following a directory entry keeps the invariant if and only if the inode it leads to is not free, half-made or half-freed; OnlyRemovedLeads says when that is sure. |
| `LinkHomes.OnlyRemovedLeads` | kernel/fs.c:629-661 | A lookup can lead to a free, half-made or half-freed inode only through ".." of a directory that is not the root and that no entry names any more. |
| `LinkHomes.StepKeepsHomed` | kernel/sysfile.c:242-284 | Every step that overflows no counter keeps the dots where they belong: "." at the directory itself, ".." of a directory with a name at the directory that names it, and both at the root for the root. |
| `LinkRuns.NamedNotStale` | kernel/fs.c:530-553 | An entry with a name never leads to such an inode. |
| `LinkFailures.CountOverflows` | kernel/sysfile.c:141-142 | A run from boot, with the names in two directories of less than maximal size, in which the 32768th link makes a link count negative. |
| `LinkFailures.StaleMiscounts` | kernel/sysfile.c:242-284 | A run from boot that follows ".." of a removed directory once, into an inode that create() is making, after which two entries name an inode with one link. |
| `LinkFailures.StaleFrees` | kernel/fs.c:333-358 | The same run continued until iput() frees an inode that an entry of the root directory names. |
| `LinkRuns.BootInv` | mkfs/mkfs.c:69-173 | The state at boot satisfies the invariant if and only if the file names are distinct in their first 14 characters and none is a dot name. |
| `ImageBoot.ImageBoots` | mkfs/mkfs.c:69-173 | Decoded from its bytes, a complete image with distinct names, with or without a hole, is such a state, so the runs above start from what mkfs writes. |
| `SleepLock.StepKeepsInv` | kernel/sleeplock.c:22-41 | Every step of acquiresleep(), releasesleep(), sleep(), wakeup(), sched() and kill() by any number of processes keeps the invariant. |
| `SleepLock.MutualExclusion` | kernel/sleeplock.c:22-41 | In every state of every run at most one process is past acquiresleep(), and it is the recorded owner. |
| `SleepLock.NobodySleepsOnFreeLock` | kernel/proc.c:532-576 | No wakeup is lost: when the lock and its spinlock are free nobody sleeps on it or is about to. |
| `SleepLock.SchedChecks` | kernel/proc.c:478-495 | A process that switches away holds its own p->lock, no other spinlock, and is not RUNNING. |
| `ProcTree.StepKeepsInv` | kernel/proc.c:275-431 | Every step of fork, exit, reparent, wait and sleep by any number of processes keeps the invariant of the process tree. |
| `ProcTree.LivingParents` | kernel/proc.c:327-382 | In every state of every run every started process but init has a parent that is neither UNUSED nor ZOMBIE. |
| `ProcTree.NoSleepOnZombie` | kernel/proc.c:343-431 | When wait_lock is free nobody who sleeps in wait(), or is about to, has a zombie child. |
| `ProcTree.ReapedOnce` | kernel/proc.c:387-431 | No process is collected twice. |
| `ProcTree.ReapedByParent` | kernel/proc.c:387-431 | A process is collected by its current parent, as a zombie that has left the CPU for good. |
| `Virtio.Disk.Submit` | kernel/virtio_disk.c:204-269 | A new request gets three descriptors of its own and the next slot of the avail ring, for its own buffer; it fails if and only if two requests are in flight, and then changes nothing. |
| `Virtio.Disk.DeviceTake` | kernel/virtio_disk.c:259-269 | The device takes requests off the avail ring once each and in order, across the wrap-around of the 16-bit index. |
| `Virtio.Disk.DeviceFinish` | kernel/virtio_disk.c:283-310 | The device finishes a taken request in any order, with a status byte and one used entry. |
| `Virtio.Disk.IntrOne` | kernel/virtio_disk.c:298-313 | One turn of the interrupt loop completes the oldest used entry for its own buffer and no other, and panics exactly on an error status. |
| `Virtio.Disk.Intr` | kernel/virtio_disk.c:283-315 | Unless it panics every used entry has been completed, each exactly once. |
| `Virtio.Disk.Alloc3Desc` | kernel/virtio_disk.c:190-201 | Three different free descriptors, or a failure that leaves the free set as it was and means that fewer than three are free. |
| `Virtio.Disk.FreeChain` | kernel/virtio_disk.c:174-185 | Exactly the three descriptors of the chain become free, without a panic. |
| `Virtio.Disk.Finish` | kernel/virtio_disk.c:271-279 | Exactly the descriptors of the finished request are given back. |
| `Virtio.AtMostTwo` | kernel/virtio_disk.c:204-280 | At most two requests are in flight, so neither ring overflows. |
| `Virtio.HoldsPush` | kernel/virtio_disk.c:259-265 | A new ring entry goes into a slot that no waiting entry uses. |
| `Pipe.BytesInOrder` | kernel/pipe.c:77-130 | In every state of every run of readers, writers and closers the bytes read are a prefix of the bytes written, and the 32-bit counters differ by exactly what is in the ring, at most 512. |
| `Pipe.NoLostWakeup` | kernel/pipe.c:59-130 | When the lock is free a writer sleeps only on a full pipe with an open reader end, a reader only with an open writer end, and a reader only on an empty pipe as long as no writer has left early with a non-empty ring while a reader slept. |
| `Pipe.LostWakeup` | kernel/pipe.c:84-87 | The condition is exact: whenever a writer does leave so, it has only to release the lock and a reader sleeps on a pipe that is not empty. |
| `Pipe.KilledWriter` | kernel/pipe.c:84-87 | A run in which this happens: a writer killed after its first byte. |
| `Umalloc.Heap.Malloc` | user/umalloc.c:64-90 | Null and nothing changes hands, or a block of enough units that was free or is fresh from sbrk() and now belongs to the caller alone; null if and only if every free block is too small and sbrk() has no room; the search of the circular list ends. |
| `Umalloc.Heap.Free` | user/umalloc.c:25-44 | Exactly the block's units become free, and every unit stays in exactly one free or live block. |
| `Umalloc.Heap.FindPlace` | user/umalloc.c:30-32 | The search loop stops, at the block after which the freed block belongs, wrap-around included. |
| `Umalloc.Heap.Morecore` | user/umalloc.c:47-61 | The larger of 4096 and the units asked for, from fresh memory, are on the list; it fails if and only if sbrk() has no room for them, and then changes nothing. |
| `Umalloc.InsertedOrdered` | user/umalloc.c:25-44 | Insertion with coalescing on either side keeps the list in address order with a gap between any two blocks, so no two free blocks touch. |
| `Umalloc.InsertedFree` | user/umalloc.c:25-44 | The list gains exactly the units of the block. |
| `Umalloc.LinkedRing` | user/umalloc.c:33-43 | The pointer and size updates in the headers realise that insertion in the circular list. |
| `Umalloc.CutFree` | user/umalloc.c:74-84 | Splitting the tail off a block removes exactly those units. |
| `Umalloc.LivesApart` | user/umalloc.c:64-90 | Two live blocks never overlap. |
| `Umalloc.LiveApart` | user/umalloc.c:25-44 | A live block and a free block never overlap. |
| `Grep.Match` | user/grep.c:71-80 | True exactly if some suffix of the text, or the text itself under '^', has a prefix in the language of the expression, with '$' at its end. |
| `Grep.MatchHere` | user/grep.c:83-94 | True exactly if the text has a prefix in the language of the expression. |
| `Grep.MatchStar` | user/grep.c:97-104 | True exactly if c* and the rest match a prefix of the text. |
| `Grep.PrefixStar` | user/grep.c:97-104 | The declarative meaning of a star: some run of matching characters and then the rest. |
| `ShellRoundTrip.RoundTrip` | user/sh.c:328-446 | Every command printed with parentheses around its parts parses back to itself. |
| `ShellRoundTrip.PrintParses` | user/sh.c:345-446 | The same inside any line, at any position. |
| `ShellParser.ParseCmd` | user/sh.c:328-342 | Parsing ends on every line, with the command of the grammar functions or a failure, and on success every string of the command, cut in place by NULs, reads as exactly its token. |
| `ShellParser.TokensSurvive` | user/sh.c:450-493 | The NULs that cut one token never cut into another, whatever the command. |
| `ShellParser.Nulterminate` | user/sh.c:450-493 | Exactly the ends of the command's tokens are overwritten. |
| `ShellParser.LineWords` | user/sh.c:266-446 | Every string of a parsed command is a whole word of the line. |
| `ShellParser.GetToken` | user/sh.c:266-308 | The token of the lexical grammar at the cursor, and the cursor after it and the blanks behind it. |
| `ShellParser.ParseRedirs` | user/sh.c:375-397 | The longest run of redirections, or a failure for a missing file name. |
| `ShellParser.ParseExec` | user/sh.c:416-446 | A block or a word list with redirections anywhere in it, or a failure for ten arguments or a syntax error. |

## Left out

- kernel/start.c, main.c, plic.c, trap.c and the assembly files: boot, interrupts and register saving on hardware.
- kernel/syscall.c and sysproc.c: argument fetching; system calls are modelled from their arguments on.
- kernel/uart.c, console.c, printf.c, exec.c, ramdisk.c and the other user programs: formatting, device registers and sequencing that would only add easy members.
- kernel/vm.c, kvmmake, uvminit, uvmclear, copyin, copyout and copyinstr: they add no harder property; user copies are parameters that may fail.
- Memory ordering: acquiring and releasing a spinlock are atomic steps.
- Leaks after a crash: the code does not reclaim inodes or blocks of an unfinished unlink, and nothing is claimed about them.
- A log header whose count exceeds LOGSIZE: the kernel would read past its list; the model reads it as empty and claims nothing.
- A change to a buffer that is not followed by log_write() before the buffer is released: the protocol assumes that callers follow the comment at kernel/log.c:205-213.
- BufferCache.BCache.Bread: does not wait for a buffer that another process holds; waiting is a step of LogProtocol.
- LogProtocol.CrashSafe: a block write is atomic and the disk keeps its order of writes.
- Kalloc.Memory.Kfree: a page that is already free is outside; kfree() does not test for it, and the list would become circular.
- Vm.Mappages: after a panic it claims what is mapped, and not that the kernel stops; permissions without R, W and X, which would make an entry look like a pointer to a table, are outside.
- UserVm.Uvmalloc: after a panic (a page already mapped) nothing is claimed about the map.
- UserVm.Uvmcopy: after a panic (a hole in the parent) nothing is claimed about the child.
- FileData.Filewrite: only the branch for files; devices and pipes are elsewhere or left out.
- FileData.Readi: a read outside a transaction that has to allocate panics in log_write(); the file layer does not know whether a transaction is open.
- FileData.Writei: an inode whose size is beyond the largest file is outside; neither writei() nor mkfs makes one.
- Inodes.FileSystem.Itrunc: inodes in memory and their blocks on disk are two maps here; their bytes are modelled in Dinodes for mkfs.
- MkfsImage.MakeImage: with more than 222 files mkfs writes inodes into data blocks; from there on the model stops, and only MapIsNoInode still applies.
- MkfsImage.Mount: the file system takes the inodes as they are in the builder's memory; that each is also in its place on disk is MakeImage's last clause.
- DirFiles.Dirlink: a directory whose size is not a multiple of sixteen is outside the model; the code would panic.
- LinkRuns.StepKeepsInv: directories are sequences of entries, and a walk along a path is a sequence of its steps; every token that no call is using may be followed, duplicated or put at any time, which allows more runs than the kernel has.
- LinkRuns.LinksSafe: false without its two conditions, which a caller can test beforehand: the link count that is about to be raised is below 32767 (BumpExact and MkdirExact: if and only if), and the directory whose ".." is about to be followed is the root or has a name; LinkFailures shows a run for each.
- InodeTable.ITable.Iget: one device.
- SleepLock.MutualExclusion: one sleep lock at a time; other channels are a single other value.
- ProcTree.ReapedOnce: process identifiers are unbounded here, a 32-bit int in the source.
- ProcTree.StepKeepsInv: critical sections of other processes under p->lock are single steps, and kill(0) on an unused slot is left out.
- Pipe.NoLostWakeup: sleep() and wakeup() are single steps, which SleepLock justifies.  A reader that sleeps while the reading end is closed needs a close that the file reference counts exclude.
- Virtio.Disk.Intr: device success is a status byte chosen by the device; descriptor contents are modelled, queue addresses and feature negotiation are not.
- Umalloc.Heap.Malloc: requests that overflow the int argument of sbrk() are left out, and sbrk() may place new memory anywhere above the old.
- Grep.Match: the line buffering of grep() is left out.
- ShellRoundTrip.RoundTrip: words of plain characters without NUL, at most nine arguments in a command, as the parser accepts.
- ShellParser.ParseCmd: allocation of command nodes always succeeds, and runcmd() is left out.
