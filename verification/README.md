# The MINIX file server and network buffers: a verified model

This project models the storage core of the MINIX file server (`src/fs`) and, from the TCP/IP server beside it (`src/inet`), the
network accumulators and the timer queue. It proves what they keep over every call and, where the source has a client or a main
loop, over every run. Tables are arrays of records whose links are indices, as in the source; the predicate `Valid()` of a class
ties them to sequences, sets and maps. Methods are the functions of the source; what their steps mean is proved of plain values
in the modules named `...Steps`.

- **Block cache** (`BlockTypes` to `CacheClient`): the two-level cache with its hash chains, LRU list, in-use counts, dirty bits,
  prefetch, sorted and batched transfers, flush on eviction, and the second level on the RAM disk. A client that holds any number
  of buffers and reads, writes, overwrites, reads ahead, purges and syncs sees a plain map from (device, block) to contents.
- **Bitmaps** (`BitWords`, `Bitmap`, `SuperBlocks`): the search for a free bit in words of either byte order, with the hints
  that make it first-fit for zones and inodes.
- **Files** (`BlockDevice`, `ZoneEntries` to `FileClient`): inodes and indirect blocks of both versions and byte orders, and regular
  files as byte strings over zones of any size, which are allocated whole and cleared lazily; a write runs out of space only when
  fewer zones are left than its next byte needs (`ZoneDemand`). All blocks go through the cache. The boot monitor's own reader of such file systems (`RawFs`) is compared with the server's.
- **Directories** (`Directories` to `TreeClient`): directories as maps from names to inodes, link counts, and the tree they form,
  through paths, create, mkdir, link, unlink, rmdir and rename. Every run of such calls gives the answers of a table of names
  (`NameTree`) in which there are no link counts.
- **Processes** (`Sleepers`, `SleepSteps`, `LockTable`, `LockWakeups`, `FileServer`): suspension and revival on pipes and record
  locks, as steps of the main loop of the server.
- **Accumulators** (`Accessors` to `NetBuffers`): reference-counted chains of slices over reference-counted buffers; what each
  call makes of the bytes, what every other reference still sees, and that all counts are exact, also when clients give up what
  they can spare in the middle of a call.
- **Timers** (`Timers`): the sorted chain, and the alarm or flag that is set whenever it is not empty.

## Findings

Properties that the code does not have, each with the exact condition under which it does.

- **A failed unlock can lose a wake-up** (`src/fs/lock.c:114`). An unlock that finds no slot for the second half of a split
  returns `ENOLCK` without `lock_revive()`, although it may have trimmed other entries. `FileServer.StrandsIff`: a process can be
  left asleep for a lock that nothing is in the way of exactly if at some byte of the range a process has lost a lock and what
  is left there belongs to one other process, or is a read lock of its own where a write lock went. `LockTable.TornUnlock` is
  an instance: process 1 unlocks bytes of its own.
- **Writing at the end of a file that ends in a hole brings old data into it** (`src/fs/write.c:191-238`). `new_block` does not
  clear a new zone for the byte just behind the end. If zones span several blocks and the end lies in the middle of a zone that
  is not there, blocks before the end show what the zone held. `HoleAtEnd.KeptIffSolid`: earlier bytes survive every write at the
  end, whatever free zones hold, if and only if that zone is there or begins at the end's block. A file comes to end so when a
  write behind the end fails before it has written anything, since `read_write` sets the size even then
  (`src/fs/read.c:164-168`): `HoleAtEnd.GapFailed`.
- **An append is checked at the wrong position** (`src/fs/read.c:110-113`). The size limit is tested against the old file position
  before `O_APPEND` replaces it. `FileSystem.FileSystem.WriteFile` and `FileSystem.AppendBeyond`: an append that passes the test
  leaves the map if and only if size and count exceed what can be mapped. Then `read_map` uses an entry behind the end of the double
  indirect block if that block is there; if it is not, `read_map` finds nothing and `write_map` says `EFBIG`.
- **The boot monitor takes a hole for a block** (`src/boot/rawfs.c:218-221`). `r_vir2abs` does not test zone numbers for zero when
  it has looked them up, and so gives a small block number for a hole in a zone of several blocks.
  `RawFs.Compare`: it agrees with `read_map` if and only if the block is there, or its indirect block is missing too, or it is the
  first of its zone.
- **A position beyond the map leaves an uncleared indirect block** (`src/fs/write.c:74-86`). `write_map` allocates a missing
  double indirect zone before it tests the index; on `EFBIG` the inode refers to whatever the zone held. This is part of the
  contract of `FileSystem.FileSystem.WriteMap`.
- **`truncate` frees zones of data only before the end** (`src/fs/link.c:342-347`): `TruncateSteps.FreesAll` says that it frees
  all zones of a file if and only if none begins at the end or behind it; tidy files have none.
- **Renaming a root directory loses count** (`src/fs/link.c:281-304`). When the old path is only slashes the old name is empty: the
  new entry is made, and there is none to delete. `FileTree.FileTree.Rename`: after a call the counts are exact if and only if it did
  not succeed in renaming a directory without a name to something else than itself (`TreeCalls.RootRenamed`, whatever dot-dot
  stood for before). If the new name is in the same directory, an empty directory of that name is removed although the call fails.
- **The superuser's links** (`src/fs/link.c:49-57`, `src/fs/link.c:139-148`). The superuser can give a directory another name, or
  unlink any entry that stands for one. `FileTree.FileTree.Link` and `FileTree.FileTree.Unlink`: what is left is a tree if and only
  if it was no directory. The counts stay exact, unless dot-dot is unlinked in the root directory of a process below the real root:
  then the link is taken from the wrong inode (`TreeCalls.WrongDotDot`, `src/fs/path.c:251-252`).
- Unlocking never compares owners (`src/fs/lock.c:72-76`); the contract of `LockTable.LockTable.Unlock` is for all owners.
- A writer that does not want to wait and writes exactly `PIPE_SIZE` bytes to a pipe that is not empty is suspended all the same
  (`src/fs/pipe.c:127-149`).

## Model

| member | source | states |
|---|---|---|
| CacheClient.Run | src/fs/cache.c:28-181 | for every run of requests by a client that holds any number of buffers, some of them more than once, it sees what it would see of a plain map, through both levels, eviction, prefetch and purges, up to the first request that panics |
| CacheClient.PanicIff | src/fs/cache.c:72-73 | get_block panics exactly if as many different blocks are held as there are buffers and this is none of them |
| CacheClient.Step | src/fs/cache.c:28-181 | one request keeps the cache a mirror of the map, and the buffers in use those held, each as often as its count says |
| CacheClient.Session | src/fs/main.c:196-217 | so does everything from a new pool on, with a second level of any size, starting from what the disk holds |
| BlockCache.BlockCache.constructor | src/fs/main.c:196-217 | a new pool is valid: all buffers on the LRU list, all on the hash chain of block 0, and the map is the disk |
| BlockCache.BlockCache.GetBlock | src/fs/cache.c:28-120 | the buffer returned is named for the block and counted; NORMAL shows the block's contents; the views of all other blocks stay the same |
| BlockCache.BlockCache.PutBlock | src/fs/cache.c:127-181 | a buffer no longer used goes to the end of the LRU list that its type asks for; no block's contents change |
| BlockCache.BlockCache.RwScatteredWrite | src/fs/cache.c:325-393 | a queue of any length is written out in batches, each buffer exactly once; all are clean and the disk holds their data |
| BlockCache.BlockCache.RwScatteredRead | src/fs/cache.c:325-393 | buffers without a device that have been read get it back and hold what the disk holds, or stay without one |
| BlockCache.BlockCache.RAhead | src/fs/read.c:406-516 | read-ahead returns the block asked for with its contents and changes the contents of none |
| BlockCache.BlockCache.FlushAll | src/fs/cache.c:307-320 | all dirty buffers of a device are written and clean; no view changes |
| BlockCache.BlockCache.Sync | src/fs/misc.c:131-152 | afterwards no buffer with a device is dirty and the disk alone holds every block's contents |
| BlockCache.BlockCache.Invalidate | src/fs/cache.c:288-300 | no buffer and no second-level entry names the device any more |
| BlockCache.BlockCache.GetBlock2 | src/fs/cache2.c:53-85 | the second level delivers the most recent copy that it holds, which is what the disk holds |
| BlockCache.BlockCache.PutBlock2 | src/fs/cache2.c:89-111 | storing a block keeps counts exact and the newest copies equal to the disk |
| ScatteredSort.ShellSort | src/fs/cache.c:340-352 | the gaps run down to 1, and the queue ends sorted by block number and a rearrangement of what it was |
| Coherence.FlushKeeps | src/fs/cache.c:307-320 | writing back the dirty buffers of a device changes no block as seen through the cache and keeps clean buffers equal to the disk |
| Coherence.WriteBackRd | src/fs/cache.c:371-385 | what a block on the disk holds after a list of buffers has been written: the data of the buffer named for it, if any |
| Coherence.Reuse | src/fs/cache.c:91-108 | giving an expendable buffer another name keeps names unique and clean buffers equal to the disk |
| Coherence.ReuseView | src/fs/cache.c:91-108 | and changes the view of no other block |
| CacheSteps.PoolLists | src/fs/main.c:196-217 | the links that buf_pool sets make one chain and one LRU list of all buffers |
| LruList.UnlinkLru | src/fs/cache.c:399-418 | taking a buffer out of the middle or either end leaves a well-formed doubly linked list of the rest |
| LruList.PushRear | src/fs/cache.c:165-174 | putting a buffer at the rear makes it the last of the list |
| HashChains.Unchain | src/fs/cache.c:76-90 | taking a buffer off its chain leaves every other buffer on its own, once |
| HashChains.Rechain | src/fs/cache.c:102-108 | giving it another block number and putting it first keeps the chains a partition by block number |
| SecondLevel.StoreAgrees | src/fs/cache2.c:89-111 | after a block has been stored the newest copy of every block not in the first level equals the disk, older copies notwithstanding |
| SecondLevel.ZeroCountMeansAbsent | src/fs/cache2.c:57-66 | a zero count at a hash slot means that no entry has that hash, so the early exit is exact |
| SecondLevel.NewestStored | src/fs/cache2.c:96-110 | what is stored is the newest copy of its block, and the newest copies of others move back or fall off the end |
| SecondLevel.NewestDropped | src/fs/cache2.c:116-131 | dropping a device removes its copies and no newest copy of another |
| ReadAheadQueue.AheadRead | src/fs/read.c:468-516 | views survive the prefetches of a read-ahead that are not complete when it returns |
| BlockDevice.BlockDevice.Write | src/fs/cache.c:28-181 | a block overwritten through the cache changes in what the device contains, and no other; there is always a buffer for it |
| BlockDevice.BlockDevice.ReadAhead | src/fs/read.c:406-516 | reading ahead through the cache gives the block's contents and changes none |
| BlockDevice.BlockDevice.Sync | src/fs/misc.c:131-152 | afterwards the disk alone contains what the device does |
| Bitmap.Bitmap.AllocBit | src/fs/super.c:27-98 | sets exactly the first clear bit from the origin's word on, or else from bit 0, in either byte order; NO_BIT, with nothing changed, exactly when all are set |
| Bitmap.Bitmap.FreeBit | src/fs/super.c:104-142 | clears exactly that bit; fails, with nothing changed, exactly if it was clear |
| BitWords.Conv2Ones | src/fs/utility.c:123-131 | the word of all ones, and no other, looks like it in either byte order, so full words can be skipped without swapping |
| BitWords.ChangeOne | src/fs/super.c:88-91 | setting or clearing one bit of a word changes no other |
| Bitmap.ChangeWord | src/fs/super.c:88-91 | setting or clearing a bit in a stored word of either byte order changes no other bit of the map |
| SuperBlocks.SuperBlock.AllocZone | src/fs/cache.c:188-222 | a zone that was free is in use; from the hint on it is the lowest free one, and NO_ZONE means that none was |
| SuperBlocks.SuperBlock.FreeZone | src/fs/cache.c:230-245 | exactly that zone is free again, and the hint stays a lower bound of the free ones |
| SuperBlocks.SuperBlock.AllocInode | src/fs/inode.c:123-139 | the lowest free inode is in use, unless the table has no slot, when it is given back |
| SuperBlocks.SuperBlock.FreeInode | src/fs/inode.c:185-200 | exactly that inode is free again |
| ZoneEntries.Conv4Twice | src/fs/utility.c:137-151 | swapping the bytes of a long twice gives it back |
| ZoneEntries.EntryPut | src/fs/write.c:128-144 | storing a zone number in an indirect block changes that entry and no other, in both versions and byte orders |
| ZoneMap.StoredAt | src/fs/write.c:58-118 | storing a zone number at its place changes what is kept there and at no other place of any file |
| ZoneMap.StoredInv | src/fs/write.c:58-118 | every zone number is still kept at one place only |
| MapSteps.DataStored | src/fs/write.c:58-118 | a zone stored in a file brings in its blocks with what they hold; all other zones and blocks of all files are as before |
| FileBlocks.DataRoleInjective | src/fs/read.c:311-337 | direct, single and double indirect places are different for different zones of a file |
| FileSystem.FileSystem.ReadMap | src/fs/read.c:290-348 | the block of every byte that can be mapped, through direct, single and double indirect zones; NO_BLOCK exactly for holes |
| FileSystem.FileSystem.RdIndir | src/fs/read.c:354-381 | the entry of an indirect block, always none or a zone of the device, so that the fatal error does not happen |
| FileSystem.FileSystem.WriteMap | src/fs/write.c:37-121 | after OK the zone is in its place and all other zones and blocks of all files are as before, and as many zones fewer are left as indirect blocks were missing; ENOSPC, with all files as before, only when none is left and one is missing; after EFBIG nothing has changed, or a free zone has become the double indirect block uncleared |
| FileSystem.FileSystem.NewBlock | src/fs/write.c:191-238 | the block of a byte is there and zero, its zone cleared unless the byte is at the end; it fails, with all files as before, exactly if fewer zones are left than that byte needs |
| FileSystem.FileSystem.ClearZone | src/fs/write.c:150-183 | from a position to the end of its zone all blocks behind it are zero, and nothing else changes |
| FileSystem.FileSystem.WriteFile | src/fs/read.c:108-208 | the file is the byte string with as much of the data written as succeeded, a gap filled with zeros, other files untouched; EFBIG exactly by the test made; ENOSPC only if fewer zones are left than the next byte needs; BEYOND exactly for an append past the map, unless there was no space before |
| FileSystem.FileSystem.ReadFile | src/fs/read.c:122-177 | exactly the bytes of the file from the position on, at most as many as asked for |
| FileSystem.AppendBeyond | src/fs/read.c:110-113 | an append that passes the test leaves the map if and only if size and count exceed what can be mapped; the first byte outside has an index behind the end of the double indirect block, which read_map uses if that block is there |
| FileSystem.FileSystem.Truncate | src/fs/link.c:318-372 | frees exactly the zones of data before the end and all indirect zones, each once, so that no free bit is freed |
| FileSystem.FileSystem.EmptyFile | src/fs/link.c:318-372 | a tidy file gives back exactly all its zones and is empty; other files are untouched |
| TruncateSteps.FreesAll | src/fs/link.c:342-369 | truncating frees all zones of a file if and only if none of its data begins at the end or behind it |
| TruncateSteps.WipedInv | src/fs/inode.c:165-179 | a wiped inode has no zones, and all others keep theirs |
| FileWrites.ChunkContent | src/fs/read.c:214-283 | writing a chunk within one block writes those bytes and changes no other of the file, unless it ends in a hole there |
| FileWrites.ClearedContent | src/fs/read.c:115-119 | once the end has been cleared the file may as well be longer: the gap reads as zeros |
| FileBytes.WrittenTwice | src/fs/read.c:130-161 | writing in chunks is writing at once |
| FileClient.Run | src/fs/read.c:44-208 | for every run of reads, writes and truncations the replies are those of plain byte strings, as long as no write behind the end failed with nothing written and no append left the map; a write ends early only when the files, so arranged as they are, leave too few zones for its next byte |
| FileClient.Session | src/fs/main.c:54-119 | the same for files whose data and indirect blocks are on a disk and are used through a cache of any size: after a sync the disk holds all those blocks, and with the inodes and bitmaps, which are kept in memory here, it can be used again |
| RawFs.RawFs.RVir2Abs | src/boot/rawfs.c:197-262 | -1 behind the end, else what the places for zone numbers say, whatever indirect blocks earlier calls have left in the two caches |
| RawFs.Compare | src/boot/rawfs.c:197-262 | both readers run side by side on one disk: the block they say is the same if and only if it is there, or nothing leads to its place, or it is the first of its zone |
| HoleAtEnd.KeptIffSolid | src/fs/write.c:191-238 | writes at the end of a file keep what is before it, whatever free zones hold, if and only if the zone its end lies in the middle of is there |
| HoleAtEnd.EndKept | src/fs/write.c:191-238 | otherwise the blocks before the end in that zone show what the new zone held, and the file is kept exactly if those are zeros |
| HoleAtEnd.GapFailed | src/fs/read.c:164-168 | a write behind the end that fails at once leaves such an end exactly if it lies in the middle of a zone that is not there |
| HoleAtEnd.Holey | src/fs/read.c:164-168 | there are such files that satisfy all that is kept between calls |
| Directories.EnteredLookup | src/fs/path.c:396-427 | entering a name that was not there adds it to the map and changes no other name |
| Directories.ErasedLookup | src/fs/path.c:375-386 | erasing an entry takes its name out of the map and changes no other name |
| FileTree.FileTree.LastDir | src/fs/path.c:92-178 | the directory that a path leads to from where it starts, which is the only one tested for having been removed; a directory reached has links |
| FileTree.FileTree.Enter | src/fs/path.c:344-437 | the first slot that is free is used, or one more; it fails exactly if that needs a block that cannot be had |
| FileTree.FileTree.Create | src/fs/open.c:218-312 | succeeds exactly if the path leads to a directory, the name is new, an inode is free and there is room for an entry: then the name stands for the lowest free inode, a file with one link; EEXIST exactly if the name is there; after an error all inodes are as before |
| FileTree.FileTree.Mkdir | src/fs/open.c:368-422 | succeeds exactly if, besides, the directory has less than the most links and there is a block for the dots: a new directory with both dots and exact counts; if it fails all names and counts are as before |
| FileTree.FileTree.Link | src/fs/link.c:35-99 | succeeds exactly if the inode has less than the most links, is no directory or the caller the superuser, the name is new and there is room: one more name and one more link; what is left is a tree exactly if it was no directory; after an error nothing has changed |
| FileTree.FileTree.Unlink | src/fs/link.c:105-158 | succeeds exactly if there is such an entry and it is not for the root, nor for a directory unless the caller is the superuser; exactly that name is gone, and its link; the inode of a file is freed exactly if that was the last and nobody uses it; what is left is a tree exactly if the name stood for no directory, and the counts are exact unless it was dot-dot in the root directory of a process |
| FileTree.FileTree.Rmdir | src/fs/link.c:378-413 | succeeds exactly for an empty directory that is not a root or busy; its name and dots are gone, its parent has one link less |
| FileTree.FileTree.Rename | src/fs/link.c:164-312 | succeeds exactly under the conditions of do_rename, what is to be displaced and room included; two names of one inode stay as they are; else exactly the old name goes, the new one stands for the inode, what had it loses it, and dot-dot follows a directory; after an error nothing has changed, but for a directory wasted when the old name is empty; the counts are exact afterwards if and only if it did not succeed in renaming a directory without a name to something else |
| FileTree.FileTree.RenameNameless | src/fs/link.c:281-304 | renaming a directory without a name into another directory makes the counts wrong whenever it succeeds |
| FileTree.FileTree.IsAbove | src/fs/link.c:197-216 | the climb along dot-dot ends, and tells whether a directory is above another |
| FileTree.FileTree.MoveWithin | src/fs/link.c:281-284 | after the old name has been deleted the new one can always be entered |
| LinkSteps.NewDirectory | src/fs/open.c:396-417 | a new directory is in the tree: one parent, dots that say so |
| LinkSteps.OldDirectory | src/fs/link.c:394-412 | removing an empty directory leaves a tree, and no links to it |
| LinkSteps.MovedDirectory | src/fs/link.c:281-304 | moving a directory, not below itself, leaves a tree |
| LinkSteps.NewRanks | src/fs/link.c:197-216 | if a directory is not above its new parent there is no cycle afterwards |
| LinkSteps.Freed | src/fs/inode.c:87-97 | freeing an inode without links keeps all counts: nothing in it named anything |
| TreeCalls.MadeDirectory | src/fs/open.c:387-417 | the steps of mkdir add up to exact counts |
| TreeCalls.MovedDirTree | src/fs/link.c:281-304 | the steps of rename with its new dot-dot add up to exact counts |
| TreeCalls.RootRenamed | src/fs/link.c:281-304 | entering a directory that has no name to lose makes the counts wrong at the end of the call, whatever its dot-dot stood for |
| TreeCalls.SuperUnlink | src/fs/link.c:139-148 | taking away an entry for a directory keeps the counts and leaves no tree |
| TreeCalls.SuperLink | src/fs/link.c:49-57 | a second name for a directory keeps the counts and leaves no tree |
| TreeCalls.WrongDotDot | src/fs/path.c:251-252 | unlinking dot-dot in the root directory of a process makes the counts wrong |
| Links.UnnamedDies | src/fs/link.c:85-93 | under the law an inode that no entry names has no links |
| TreeClient.Run | src/fs/main.c:54-119 | for every run of creations, links, unlinks, renames and the like, by any processes, the replies are those of a table of names and of who uses what, as long as the superuser links or unlinks no directory and none is renamed without a name |
| TreeClient.Session | src/fs/main.c:54-119 | the same from an empty device on |
| NameTree.ShowsLinks | src/fs/link.c:85-93 | an inode has as many links as names in the table, dots included |
| NameTree.ShowsSwept | src/fs/inode.c:87-97 | the inodes that are there after a call are those that have a name or a user |
| LockTable.LockTable.SetLock | src/fs/lock.c:65-158 | a lock is refused or waited for exactly if something is in its way, ENOLCK exactly if the table is full; if granted, exactly its bytes are locked in addition, and locks of different processes on a byte are still all for reading |
| LockTable.LockTable.Unlock | src/fs/lock.c:94-126 | the table is as the scan leaves it: no byte of the range is locked for anybody, all other locks are as before; ENOLCK only when an entry must be split and no slot is left |
| LockTable.LockTable.GetLock | src/fs/lock.c:78-80 | finds a lock that is in the way, exactly if there is one |
| LockTable.LockTable.CloseLocks | src/fs/open.c:491-501 | a process gives up exactly its own locks on a file |
| LockTable.LockTable.Range | src/fs/lock.c:48-63 | the tests in unsigned arithmetic accept exactly the whence, start and length whose bytes lie within the largest file and do not end before they begin, and give the first and last of them |
| LockTable.UsedAll | src/fs/lock.c:114 | the table is full exactly if no slot is unused, so the split always finds one |
| LockTable.TornUnlock | src/fs/lock.c:114 | an unlock that fails halfway can remove all that is in the way of a request |
| LockWakeups.TornOpens | src/fs/lock.c:114 | in that instance byte 15 is opened, and so a request stranded |
| LockWakeups.TornIff | src/fs/lock.c:94-126 | after a failed unlock some request that had to wait need not any more if and only if a byte of the range has been opened |
| LockWakeups.FreedIffOpened | src/fs/lock.c:94-126 | the same for whatever locks in a range are given up |
| LockWakeups.ScanUnlocks | src/fs/lock.c:67-125 | what the scan leaves, even when it breaks off, is what was there without parts of the range |
| FileServer.StrandsIff | src/fs/lock.c:114 | a failed unlock can leave a process asleep in vain if and only if it has opened a byte |
| FileServer.Server.Run | src/fs/main.c:54-119 | every run of reads, writes, locks, opens, closes, pipes, dups, forks, exits and signals keeps the tables sound: nobody sleeps in vain on a pipe or, unless a failed unlock opened a byte, for a lock, and never both a reader and a writer on one pipe |
| FileServer.Server.ReviveOne | src/fs/main.c:97-112 | whenever the count says that somebody is to be revived there is such a process, and the first one is taken |
| FileServer.Server.Release | src/fs/pipe.c:191-214 | with the count that callers pass, all that sleep in that call on the pipe are woken up, and no others |
| FileServer.Server.LockRevive | src/fs/lock.c:164-184 | all above INIT that wait for locks are woken up |
| FileServer.Server.PipeRead | src/fs/read.c:122-177 | the reader gets the oldest bytes of the pipe; an empty one suspends it or is its end, and sleeping writers are woken up |
| FileServer.Server.PipeWrite | src/fs/read.c:122-202 | bytes are appended as far as there is room; the rest waits, is refused or is reported, by the rules of pipe_check |
| FileServer.Server.CheckRead | src/fs/pipe.c:103-117 | when a reader goes on, waits or gives up |
| FileServer.Server.CheckWrite | src/fs/pipe.c:118-157 | when a writer goes on and how far, waits or gives up; sleeping readers are woken up before anything is written |
| FileServer.Server.Lock | src/fs/lock.c:20-158 | EBADF and EINVAL exactly for the requests that are wrong, the range computed from whence, start and length included; a process is suspended only while something is in the way of the bytes it asked for |
| FileServer.Server.Unlock | src/fs/lock.c:94-126 | after success with a change all waiters are woken up; after ENOLCK none are |
| FileServer.Server.Close | src/fs/open.c:428-503 | the descriptor is gone, the slot counts one less, the other end of a pipe is woken up, and the process's locks on the file are gone |
| FileServer.Server.Exit | src/fs/misc.c:226-257 | a process that ends, wherever it sleeps, has no descriptors left |
| FileServer.Server.Fork | src/fs/misc.c:158-190 | the child shares all that is open, and every slot counts it |
| FileServer.Server.MakePipe | src/fs/pipe.c:33-80 | the first two free descriptors are the ends of a new empty pipe; after an error nothing in use has changed |
| FileServer.NoPanic | src/fs/main.c:97-112 | the count of those to be revived is not zero exactly if there is one |
| SleepSteps.Closed | src/fs/open.c:467-489 | giving up one end of a pipe strands nobody once the other end has been woken up |
| SleepSteps.Emptied | src/fs/read.c:170-175 | starting both ends anew when all has been read keeps the tables sound |
| NetBuffers.NetBuffers.constructor | src/inet/buf.c:115-181 | every accessor is free or waits with its buffer on a buffer list, and no reference is held |
| NetBuffers.NetBuffers.BfMemreq | src/inet/buf.c:227-333 | a chain of fresh buffers of the size asked for; every other reference sees what it saw unless its holder gave it up; with enough of the biggest buffers nobody gives anything up, and it fails only if after all priorities have been asked there are still fewer of them than it takes |
| NetBuffers.NetBuffers.FreeBufs | src/inet/buf.c:274-296 | clients are asked by priorities until as many bytes are free as are missing: no count is lost, whatever they give up, and what they keep they still see |
| NetBuffers.NetBuffers.FreeAccs | src/inet/buf.c:1122-1143 | the same until an accessor is free |
| NetBuffers.NetBuffers.BfAfree | src/inet/buf.c:347-412 | one reference less; exactly what nobody refers to any more is free again |
| NetBuffers.NetBuffers.BfDupacc | src/inet/buf.c:414-445 | a second accessor with the same bytes, every count exact; clients give something up only if no accessor is free, and it fails only if then none is |
| NetBuffers.NetBuffers.BfBufsize | src/inet/buf.c:447-464 | the number of bytes of a chain |
| NetBuffers.NetBuffers.BfCut | src/inet/buf.c:546-634 | bytes offset to offset+length, sharing buffers; every other reference sees what it saw unless its holder gave it up; it fails only if no accessor can be had, and not with as many free ones as the chain is long |
| NetBuffers.NetBuffers.BfDelhead | src/inet/buf.c:637-684 | all but the first offset bytes; it fails only if no accessor can be had |
| NetBuffers.NetBuffers.BfPack | src/inet/buf.c:488-543 | the same bytes in a chain that nobody else sees, as few accessors as the biggest buffers allow; it fails only as bf_memreq does |
| NetBuffers.NetBuffers.BfPackIffLess | src/inet/buf.c:466-486 | the same bytes, the first accessor long enough; it fails only as bf_memreq does |
| NetBuffers.NetBuffers.BfAppend | src/inet/buf.c:691-837 | the bytes of the first followed by those of the second, also where a block is moved or filled in place; every other reference sees what it saw unless its holder gave it up; it fails only if no accessor or no biggest buffer can be had |
| Accessors.PrivateApart | src/inet/buf.c:710-735 | no other reference meets a chain that only one refers to |
| AccessorSteps.FreedInv | src/inet/buf.c:365-410 | freeing an accessor keeps all counts and the partition of the table into live, free and buffer-list accessors |
| AccessorSteps.DupedInv | src/inet/buf.c:418-444 | so does duplicating one |
| ChainSteps.AttachedInv | src/inet/buf.c:727-735 | so does linking a chain behind another |
| ChainSteps.RewrittenKeeps | src/inet/buf.c:758-790 | writing into a buffer that only a private chain uses changes what no other reference sees |
| PoolViews.KeptMeans | src/inet/buf.c:877-1001 | with exact counts, as bf_consistency_check tests them, every reference that a step keeps, and every one that could be spared but was not given up, sees the bytes it saw |
| PoolViews.TooLittle | src/inet/buf.c:292-293 | when clients have given up fewer bytes than are missing there are fewer of the biggest buffers than the request takes |
| JoinSteps.InPlaceDone | src/inet/buf.c:758-790 | filling up the last buffer in place appends exactly the block |
| InitSteps.BareInv | src/inet/buf.c:115-181 | the tables as bf_init first makes them pass bf_consistency_check |
| Timers.Clock.SetClock | src/inet/clock.c:68-104 | the timer is in the chain at its time, in order, and an alarm or the flag is set in time |
| Timers.Clock.Untimer | src/inet/clock.c:168-173 | the timer is not in the chain; all others are |
| Timers.Clock.SetTimer | src/inet/clock.c:134-166 | whenever the chain is not empty the flag is set or an alarm comes no later than the first timer |
| Timers.Clock.ExpireTimers | src/inet/clock.c:175-195 | at each turn the earliest timer that is due fires, whatever times the functions of earlier ones have set, until none is due; what is set then is what the functions left |
| Timers.EachOnce | src/inet/clock.c:175-195 | if functions set timers only for a time to come, each timer that is due fires once, in order of time, if and only if no function that ran before its turn has set or cancelled it |

## Left out

- NetBuffers.NetBuffers.BfMemreq: which references its clients give up at which priority is left to them (the functions that they
  log on with are parts of the protocols); when a call fails the server panics, and no more is stated of what it leaves.
- CacheClient.Run: a device is purged only while none of its blocks is held.
- FileSystem.FileSystem: inodes and bitmaps are tables in memory; that they too are kept in blocks of the device is left out. A
  buffer that the source holds while it changes it is given back and got again in between.
- RawFs.RawFs: the file system is native (no bytes are swapped, as in the source) and does not change; directories are left out.
- FileSystem.FileSystem.WriteFile: failing copies from and to user space, and transfer errors, are left out; the test for EFBIG is in unbounded integers.
- FileServer.Server.PipeRead: a pipe's bytes move at once, not in chunks of a block; FileServer.Server.PipeWrite likewise.
- FileServer.Server.Lock: position and size, which the range may be relative to, are parameters of the call and of its revival.
- FileTree.FileTree: directories are sequences of slots, not bytes of the files of `FileSystem`; whether a directory can have another
  block, and whether one is busy, are parameters of the calls.
- FileTree.FileTree.Rename: permissions, mounted file systems, file names that are too long and a full inode table are left out (with
  a full table a rename could enter a name twice, since any failure to get the inode counts as absence).
- FileTree.FileTree.Delete: the copy of the inode number that is left in an erased name is left out.
- FIFOs opened by name, with co-readers and co-writers sharing a slot.
- Special files, device drivers, character input and output, and messages as such.
- Symbolic links, mounting, permissions, time stamps and controlling terminals.
- I/O errors: transparency of the cache is stated for runs without them.
- Signals that interrupt a partial write to a pipe leave the count of bytes written so far behind, as in the source; no property is stated of it.
- bf_align and the debugging marks of the network buffers.
