# OnyxOS kernel: a verified model

This project models the parts of the OnyxOS kernel that keep state other code relies on, and
proves what they keep.

- **ext2** (`Ext2*.dfy`): a mounted volume as a byte array per file and a map per directory,
  stored as bitmaps, inode records, pointer blocks and directory records on a flat disk.
- **FAT32** (`Fat*.dfy`): cluster chains in mirrored tables, the long-name slot format, short
  names and aliases, the entries of a directory, a directory together with the chains of its
  files, and the date and time words.
- **Sector cache** (`BlockCache.dfy`): a write-through cache with second-chance eviction, miss
  coalescing and read-ahead.
- **Frame allocator** (`Frames.dfy`): a free list inside the free frames and a bump cursor over
  memory regions.
- **Scheduler** (`Sched.dfy`, `Scheduler.dfy`): picks under a lock, context switches after it,
  on any number of CPUs.
- **Pointer sprite** (`Cursor.dfy`): save-under drawing with transparency, and the damage box.
- **Calendar** (`Calendar.dfy`): two formulations of the Gregorian calendar that must agree.
- **Keyboard ring** (`KeyRing.dfy`): a single-producer, single-consumer queue of atomic loads
  and stores.

Code that changes things in place is a class whose methods have the loops of the original and
are proved against functions of the old state. The concurrent parts are state machines with one
step per critical section (scheduler) or per load and store (ring); their theorems range over
every run. On-disk formats follow *The Second Extended File System - Internal Layout* and the
Microsoft FAT32 File System Specification 1.03 where the code does.

## What holds

- ext2: every public operation keeps `Ext2.Ext2.Valid`, on success and on failure. It says that
  blocks hang in at most one place, reachable blocks and all metadata are marked used, records
  tile every directory block, no inode is named by two records, the cached counts equal the
  clear bits and the superblock, and bytes past the end of an undamaged file are zero. Writes over
  blocks that are there always succeed, and so does every run of writes with room to spare.
- FAT: in a directory with nothing behind its end marker, runs of creates, renames and deletes keep
  it so, keep every file's chain its own, and free exactly the chains of deleted files.
- The cache agrees with the drive after every call; a read returns the drive's contents.
- Scheduler and ring: the safety theorems hold for every interleaving; the scheduler also has a
  waiting bound.
- The screen is the background with one sprite, and presenting the damage box leaves nothing
  stale.

Where the code does not meet a property its comments or its callers expect, the model follows
the code, the exact condition is proved, and for most of them a member shows a failing case:

- ext2 free counts are written over the inode-table pointer (`kernel/src/ext2.rs:130` against
  `kernel/src/ext2.rs:333`): `Ext2.Ext2.SyncFreeCounts`, `Ext2Sample.MountedOnce`.
- ext2 offsets from 2^42 on wrap, and a file cut by one shows old bytes when it grows again:
  `Ext2.Ext2.WriteData`, `Ext2.Ext2.CutThenGrow`.
- A FAT entry written behind an end marker is never listed, and a rename into such a place loses
  the file: `FatFolder.Folder.CreateEntry`, `FatFolder.Folder.Move`, `FatFolder.LostEntry`.
- A FAT short name with a final dot shares its short name with the one without, and names that
  end in dots or spaces are not found again: `FatFolder.Folder.CreateEntry`,
  `FatFolder.DerivedAlias`, `FatFolder.DotTwins`.
- FAT limits of names, aliases and times: `FatSlots.LongNameRoundTrip`, `FatShort.CandidateLegal`,
  `FatTime.StampRoundTrip`.
- The free-frame figure counts pages that a contiguous allocation jumped over:
  `Frames.FrameAllocator.AllocateContiguous`, `Frames.FrameAllocator.Serve`, `Frames.LosesOne`.
- A killed task comes back by its own sleep: `Sched.DeadStays`, `Sched.KilledTaskReturns`.
- The pointer gain is one to one up to three counts, not seven: `Cursor.SlowIsExact`. A console
  write in the middle of a move makes the save buffer hold the pointer itself:
  `Cursor.Display.MoveCursor`, `Cursor.Display.TornTrue`, `Cursor.TornOnce`.
- Impossible boot dates: `Calendar.NowUtc`, `Calendar.FebruaryThirtieth`; the range of
  `Calendar.DateRoundTrip`.

## Assumptions

- A raw device write happens entirely or not at all; the cache's drive may fail any access, the
  file systems' disks never fail.
- ext2: the metadata areas of a volume do not overlap and lie in blocks 3 and up, and the inode
  bitmap covers all inodes. `mount` checks only part of this. Names are those that path splitting
  lets through: 1 to 255 bytes, not `.` or `..`. They are bytes here; the original decodes them
  from the disk as UTF-8 with replacement characters, so names on the disk are taken to be valid
  UTF-8. No inode has two names.
- FAT: a run of slots fits one cluster; with 512-byte clusters a name of more than 195 units does
  not, and indexing past the cluster buffer stops the kernel. Every directory consists of whole
  clusters whose long slots lead on to an entry in the same cluster.
- Bitmap padding past the volume may be clear or set; the free count alone keeps the allocator
  inside the volume.
- Frames: no usable region contains physical address 0, and addresses are far enough below 2^64
  that rounding up does not overflow. Callers free only frames they own.
- Scheduler: functions that take the scheduler lock are atomic, and a CPU in the middle of a
  switch runs with interrupts off.
- Ring: a load of the other side's index may be stale but never older than an earlier load, and
  release and acquire order the slot accesses with the index accesses.
- Pointer: everything done under the framebuffer lock is one step. The original releases the lock
  between storing the position of a move and repainting; nothing or one console write happens in
  that gap.
- Clocks, input queues, drawings and device faults are parameters or free choices.

## Model

| member | source | states |
|---|---|---|
| `Ext2.Mount` | kernel/src/ext2.rs:91-152 | what mounting accepts: every pointer it returns is non-zero and inside the volume, and the block bitmap covers the volume |
| `Ext2.Ext2.constructor` | kernel/src/ext2.rs:138-151 | mounting a consistent volume establishes everything the operations keep |
| `Ext2.Ext2.SyncFreeCounts` | kernel/src/ext2.rs:325-337 | the superblock holds the cached counts afterwards; the descriptor words go over the inode-table pointer, which then spells the counts, so a later mount finds the table if and only if they are its block number |
| `Ext2Sample.MountedOnce` | kernel/src/ext2.rs:325-337 | a full volume that mounts, and that no mount accepts once its counts were stored |
| `Ext2Layout.FindClear` | kernel/src/ext2.rs:276-281 | the lowest clear bit of a bitmap, or the certainty that there is none |
| `Ext2Layout.MarkTakesOne` | kernel/src/ext2.rs:281-285 | setting the bit of a free block takes exactly that block from the free set |
| `Ext2Layout.UnmarkReturnsOne` | kernel/src/ext2.rs:880-885 | clearing the bit of a used block gives exactly that block back |
| `Ext2Layout.EncodeInode` | kernel/src/ext2.rs:218-235 | an inode written into its record reads back as the same inode |
| `Ext2Layout.PutInodeAt` | kernel/src/ext2.rs:218-235 | storing inode n changes no other inode and no block outside the inode table |
| `Ext2Tree.NoSharing` | kernel/src/ext2.rs:341-389 | no block is reachable twice, from one inode or from two, and no reachable block is metadata |
| `Ext2Tree.LinkTopOk` | kernel/src/ext2.rs:367-375 | hanging a fresh block off a top-level pointer keeps the whole forest of trees well formed |
| `Ext2Tree.LinkTableOk` | kernel/src/ext2.rs:378-389 | the same for a pointer inside a table block |
| `Ext2.Ext2.AllocBlock` | kernel/src/ext2.rs:270-296 | fails if and only if no block is free; otherwise a zeroed block that hangs in no tree, taken from the free set alone, with no file byte changed |
| `Ext2.Ext2.EnsureTop` | kernel/src/ext2.rs:367-375 | top pointer i is mapped afterwards and no byte changed; a mapped one always succeeds and costs nothing, another costs one block; fails only when none is free, leaving the volume as it was |
| `Ext2.Ext2.EnsureSlot` | kernel/src/ext2.rs:378-389 | the same for pointer k of a table block |
| `Ext2.Ext2.EnsureBlock` | kernel/src/ext2.rs:341-364 | logical block idx is mapped afterwards and no byte of any file changed; one that is there already always succeeds and costs nothing, another at most three blocks; it fails only for lack of blocks or past the double-indirect tree |
| `Ext2.Ext2.MapBlock` | kernel/src/ext2.rs:239-254 | the block that the tree holds for a logical index, 0 for a hole, an error exactly past the tree |
| `Ext2.Ext2.IndirectLookup` | kernel/src/ext2.rs:257-264 | the pointer a table holds, 0 when the table is missing |
| `Ext2.Ext2.ReadInodeAt` | kernel/src/ext2.rs:525-553 | exactly the bytes of the file in the window, cut at its size, holes as zeros |
| `Ext2.Ext2.WriteInode` | kernel/src/ext2.rs:218-235 | stores the inode and moves no data, no free block and no free inode |
| `Ext2.Ext2.WriteChunk` | kernel/src/ext2.rs:753-766 | one turn of the write loop extends what is written by exactly the piece, in the tree of this file only |
| `Ext2.Ext2.WriteData` | kernel/src/ext2.rs:751-782 | the file reads as its old bytes, zero-filled to the offset and overlaid by the buffer, cut at its new size, if and only if what it held between its end and the offset was zero, as every file has that no write failed on or cut; the 32-bit block number makes the bytes land at the offset modulo 2^42, for every offset; free plus owned blocks are conserved; a write over blocks that are there succeeds and takes none, one with three blocks to spare per block touched succeeds; a failure names its cause and leaves other files alone |
| `Ext2Data.WroteContent` | kernel/src/ext2.rs:753-781 | bytes laid block by block over a file give the overlay, cut at the new size, if and only if the gap jumped over was zero; zeros past the end stay zeros unless the write cuts the file |
| `Ext2Data.KeptConserves` | kernel/src/ext2.rs:270-296 | through a write, the free blocks and the blocks of the file together are the same set; other trees keep theirs |
| `Ext2Data.StillMapped` | kernel/src/ext2.rs:341-364 | a block that is there stays the same block while trees only grow |
| `Ext2.ParseBlock` | kernel/src/ext2.rs:405-428 | a block of directory records parses into exactly the records that tile it; BadFs if and only if a walk from record to record meets a bad length |
| `Ext2.Ext2.DirEntries` | kernel/src/ext2.rs:395-431 | all records of a directory, in order, free ones included; holes are skipped, and BadFs comes if and only if a block has a record of bad length |
| `Ext2.Ext2.LookupIn` | kernel/src/ext2.rs:434-446 | the inode the directory map has for the name, None exactly when it has none |
| `Ext2Dir.TilesJoin` | kernel/src/ext2.rs:395-431 | two runs of records that meet tile the whole stretch, and their lists concatenate |
| `Ext2Dir.SplitBytesRecs` | kernel/src/ext2.rs:692-708 | the bytes written for an insertion read back as the split records: live slack split, free slot split or reused |
| `Ext2Dir.FreeBytesRecs` | kernel/src/ext2.rs:926-930 | freeing a record keeps its extent and the tiling |
| `Ext2Dir.RenameBytesRecs` | kernel/src/ext2.rs:965-969 | rewriting a name in place changes that record's name and nothing else in the block |
| `Ext2Names.InsertLink` | kernel/src/ext2.rs:668-722 | adding a record is insertion into the name map |
| `Ext2Names.RemoveLink` | kernel/src/ext2.rs:908-934 | freeing the record of a name is removal from the name map |
| `Ext2Names.RenameLink` | kernel/src/ext2.rs:939-971 | renaming a record moves the inode to the new name in the name map |
| `Ext2Names.EntriesReplace` | kernel/src/ext2.rs:686-711 | replacing one record inside one block replaces it in the list of the whole directory |
| `Ext2.Ext2.AddDirEntry` | kernel/src/ext2.rs:668-722 | the directory gains exactly the record for the name through the first room that fits, and takes exactly the blocks it gained from the free set; or fails for lack of blocks with all data unchanged |
| `Ext2.Ext2.AddBlock` | kernel/src/ext2.rs:713-722 | with no room left the directory grows by one block that a single record fills |
| `Ext2.Ext2.AllocInode` | kernel/src/ext2.rs:301-322 | the lowest free inode number, taken from the free set alone; fails if and only if none is free |
| `Ext2.Ext2.FreeInode` | kernel/src/ext2.rs:892-903 | gives exactly this inode number back |
| `Ext2.Ext2.CollectBlocks` | kernel/src/ext2.rs:825-865 | every block of the tree, data and tables, each once |
| `Ext2.ClearBits` | kernel/src/ext2.rs:876-886 | the bits of a list of distinct used blocks are cleared and counted, each once |
| `Ext2.Ext2.FreeInodeBlocks` | kernel/src/ext2.rs:868-889 | the free set grows by exactly the tree of the inode; no other file changes |
| `Ext2Life.ReachIsTree` | kernel/src/ext2.rs:825-865 | what the ownership map says a file reaches is what walking its pointers reaches |
| `Ext2.Ext2.CreateIn` | kernel/src/ext2.rs:589-614 | a new empty file under the name, every other file untouched; exactly its number leaves the free inodes, and the free blocks lose exactly what the directory gained; a failure names its cause and leaves the directory as it was |
| `Ext2.Ext2.ReadInode` | kernel/src/ext2.rs:191-215 | the inode stored in the table is the live inode |
| `Ext2.Ext2.ReadAt` | kernel/src/ext2.rs:556-569 | reading by name returns the window of the named bytes; NotFound and NotSupported exactly when the name is missing or a directory |
| `Ext2.Ext2.WriteAt` | kernel/src/ext2.rs:726-782 | write by name, creating if missing: the overlay on the named bytes for every sound file, the exact condition for the others and for every offset; which files a failure or a cut damages; the map changed at most by that name, every other file kept, all blocks and inode numbers accounted for; success whenever the blocks are there or there is room to spare |
| `Ext2.Ext2.CutThenGrow` | kernel/src/ext2.rs:751-782 | a run that always completes and in which the overlay law fails: a byte at offset 2^42 cuts a file of two bytes to one, and a later write past its end brings the second byte back |
| `Ext2.Ext2.WriteAll` | kernel/src/ext2.rs:726-782 | any run of writes to a sound file leaves the overlays laid one on the other, with blocks and inode numbers accounted for; it completes whenever there is room to spare, and stops only for want of room or because the name is a directory |
| `Ext2.Ext2.NewDirectory` | kernel/src/ext2.rs:620-650 | a new directory holds exactly the two dot names; one inode number and exactly the blocks of its tree leave the free sets |
| `Ext2.Ext2.Mkdir` | kernel/src/ext2.rs:653-663 | Exists exactly when the name is there; otherwise the map gains the name of a new directory with its dots, no file is damaged, and one inode number, the blocks of the new directory and those by which the parent grew leave the free sets |
| `Ext2.Ext2.FindRecord` | kernel/src/ext2.rs:917-920 | the first record with the inode's number is the record of the name, since every inode has one name |
| `Ext2.Ext2.Unlink` | kernel/src/ext2.rs:908-934 | the name goes, the inode and exactly the blocks of its tree become free, every other tree and file stays; NotFound and IsDir exactly in their cases |
| `Ext2.Ext2.Rename` | kernel/src/ext2.rs:939-971 | the inode moves to the new name in place, no file changes; NotFound, Exists and NotSupported exactly in their cases, the last when the one record of the old name is too short for the new one |
| `Ext2.Ext2.WriteAllThenUnlink` | kernel/src/ext2.rs:726-934 | create if missing, any run of writes, then unlink: blocks and inode number all come back, with what an older file held; a block by which create grew the directory stays with the directory; it completes whenever there is room to spare, and every other end names its cause |
| `FatChain.FatTable.SetFatEntry` | kernel/src/fat.rs:226-240 | the entry changes in every copy of the table, so the copies stay equal |
| `FatChain.FatTable.NextCluster` | kernel/src/fat.rs:243-252 | the link, the end of the chain or BadFs, by the low 28 bits |
| `FatChain.FatTable.WalkChain` | kernel/src/fat.rs:255-269 | a file's clusters in order; on any table a walk ends within its limit |
| `FatChain.FatTable.AllocCluster` | kernel/src/fat.rs:272-284 | the lowest free cluster becomes the tail of the chain, or a chain of its own; all other chains stay; fails if and only if no cluster is free |
| `FatChain.FatTable.FreeFrom` | kernel/src/fat.rs:287-298 | exactly the clusters past keep become free and the rest is one terminated chain; all other chains and the mirroring stay |
| `FatChain.FatTable.Grow` | kernel/src/fat.rs:650-657 | appending repeatedly adds distinct, previously free clusters at the tail, stopping early only when none is left |
| `FatChain.FatTable.GrowThenShrink` | kernel/src/fat.rs:272-298 | growing a file and truncating it back restores its chain and the free clusters |
| `FatChain.ChainFits` | kernel/src/fat.rs:288-288 | a chain cannot be longer than the volume, so the walk limit never cuts one |
| `FatSlots.ChecksumDetects` | kernel/src/fat.rs:1207-1217 | short names that differ in one byte have different checksums |
| `FatSlots.SlotReadsBack` | kernel/src/fat.rs:1263-1275 | the thirteen units of a slot are read from the offsets they were written to |
| `FatSlots.LongNameRoundTrip` | kernel/src/fat.rs:1234-1281 | slots of any name, collected by the reader, spell it if and only if it has at most 403 units, each of them sixteen bits wide and neither a terminator nor a surrogate |
| `FatSlots.ExtendAllOk` | kernel/src/fat.rs:352-360 | a collected run counts down strictly and has at most 31 parts, so the reader's sort changes nothing |
| `FatShort.ShortRoundTrip` | kernel/src/fat.rs:541-569 | an 8.3 name reads back in upper case without its final dot; so it reads back whole if and only if it does not end in one |
| `FatShort.CandidateLegal` | kernel/src/fat.rs:1307-1317 | a numbered alias is a legal short name if and only if the number is below 10 or the stem has fewer than six characters, contrary to the comment there |
| `FatShort.UniqueIsFresh` | kernel/src/fat.rs:1288-1320 | a generated alias folds to no short name already in the directory |
| `FatShort.MakeUniqueShort` | kernel/src/fat.rs:1307-1319 | the loop returns the first numbered alias nobody has |
| `FatDirectory.ScanDir` | kernel/src/fat.rs:302-411 | the forward scan lists exactly the live entries, each named by the unbroken run in front of it |
| `FatDirectory.ListingLive` | kernel/src/fat.rs:302-411 | the listing is the set of regular slots before the end marker |
| `FatDirectory.AllocRun` | kernel/src/fat.rs:736-774 | the first place with enough free slots in a row inside one cluster, None if and only if no cluster has one |
| `FatDirectory.PutKeeps` | kernel/src/fat.rs:783-812 | a run written into free slots, or into one more cluster, changes no listed entry's name, cluster, size or kind |
| `FatDirectory.PutReads` | kernel/src/fat.rs:783-812 | the new entry is read with exactly the run written in front of it |
| `FatDirectory.PutLive` | kernel/src/fat.rs:736-812 | what is listed after a run is written: the new entry unless an end marker lies in front of it, and whatever the end marker it overwrote, or the end of the last cluster, had hidden |
| `FatDirectory.PutWellFormed` | kernel/src/fat.rs:736-812 | a run inside one cluster crosses no boundary and leaves no long slot without its entry, in a further cluster if and only if that holds no stray long slot |
| `FatDirectory.RemovedKeeps` | kernel/src/fat.rs:1013-1045 | freeing an entry and its run changes no other entry |
| `FatDirectory.RemovedWellFormed` | kernel/src/fat.rs:1013-1045 | no orphaned run is left behind |
| `FatDirectory.QuietBarren` | kernel/src/fat.rs:736-812 | nothing comes to light behind a written run if and only if the directory goes on there or holds nothing to list |
| `FatDirectory.PutTight` | kernel/src/fat.rs:736-812 | a listed run leaves nothing behind the end marker if there was nothing |
| `FatFolder.ShortSlotReads` | kernel/src/fat.rs:1125-1145 | cluster, size and kind come back from the short slot they were packed into |
| `FatFolder.DerivedReads` | kernel/src/fat.rs:699-726 | the slots derived from any name spell it without trailing dots and spaces if and only if the format can hold that, in full when long and in upper case otherwise, and answer to the name itself if and only if nothing was trimmed either |
| `FatFolder.DerivedAlias` | kernel/src/fat.rs:707-719 | the derived short name is that of an entry that does not answer to the name if and only if the two differ in a final dot |
| `FatFolder.TrailingDotCollides` | kernel/src/fat.rs:1622-1647 | two short names become the same eleven bytes if and only if they fold together once a final dot is dropped |
| `FatFolder.DotTwins` | kernel/src/fat.rs:823-887 | creating A. beside A succeeds and leaves two entries with one short name |
| `FatFolder.Folder.Lookup` | kernel/src/fat.rs:415-425 | the first entry that answers to the name by either of its names |
| `FatFolder.Folder.WriteRun` | kernel/src/fat.rs:783-812 | only the slots of the run change |
| `FatFolder.Folder.PlaceRun` | kernel/src/fat.rs:736-812 | slots in a row inside one cluster, or one more cluster with whatever it held, get exactly the run; NoSpace if and only if there is neither |
| `FatFolder.Folder.RemoveDirSlots` | kernel/src/fat.rs:1013-1045 | only the entry and the long slots right in front of it in its cluster are marked |
| `FatFolder.Folder.CreateEntry` | kernel/src/fat.rs:823-887 | exactly the derived slots are written, and they read back as the trimmed name, cluster, size and kind; every listed entry reads as before; the new one is listed if and only if no end marker lies in front of its place, and is all that joins if and only if besides nothing to list lies behind that place, both told from the directory before the call; then a lookup finds it if and only if nothing was trimmed or lost, and short names stay distinct if and only if no entry has the name without its final dot; a directory with nothing behind its end marker stays so; fails if and only if no alias, no room and no cluster is to be had |
| `FatFolder.LostEntry` | kernel/src/fat.rs:736-774 | a directory whose one free slot is its end marker: creating a long name succeeds, in a new cluster, and no listing shows it |
| `FatFolder.Folder.DeriveName` | kernel/src/fat.rs:699-726 | alias and slots as the specification derives them from the listing |
| `FatFolder.Folder.Unlink` | kernel/src/fat.rs:1059-1069 | exactly the slots of the named entry are marked and exactly that entry leaves the listing; nothing behind the end marker stays nothing; fails if and only if it is missing or a directory |
| `FatFolder.Folder.Rename` | kernel/src/fat.rs:1085-1152 | the entry keeps its cluster, size and kind under the new name, every other entry reads as before; it leaves the listing altogether if and only if an end marker lies in front of its new place, and is all that joins under the condition of creating, told from the directory before the call; nothing behind the end marker stays nothing; same-slot rename changes nothing; errors exactly in their cases |
| `FatFolder.Folder.Move` | kernel/src/fat.rs:1117-1151 | exactly the new slots are written, then the old ones marked: the listing loses one entry and gains one, with the same exact conditions as creating |
| `FatFolder.StaysTight` | kernel/src/fat.rs:736-812 | a listed new entry leaves nothing behind the end marker if there was nothing, and in a directory of one cluster it always is listed |
| `FatVolume.Delete` | kernel/src/fat.rs:1048-1069 | the named entry leaves the listing and exactly its chain becomes free; every other entry keeps its own chain |
| `FatVolume.Perform` | kernel/src/fat.rs:823-1152 | a create, rename or delete in a directory with nothing behind its end marker: the entry is named and found as meant, all other entries and chains stay, and a refused one changes nothing |
| `FatVolume.Session` | kernel/src/fat.rs:823-1152 | over every run of creates, renames and deletes in such a directory the invariants hold, and what became free is exactly the chains of deleted files |
| `FatTime.StampRoundTrip` | kernel/src/fat.rs:45-94 | a stored moment reads back to the even second if and only if it lies between 1980 and the last second of 32 bits or is one of the two seconds that zero words stand for |
| `BlockCache.InsertEvictsOne` | kernel/src/blkcache.rs:90-120 | an insertion writes one slot and every other slot keeps its sector; a cached sector is updated in its own slot |
| `BlockCache.HandMoves` | kernel/src/blkcache.rs:98-119 | the hand passes each slot at most once before it stops on its victim |
| `BlockCache.InsertCoherent` | kernel/src/blkcache.rs:90-120 | inserting what the drive holds keeps one slot per sector and every slot true |
| `BlockCache.GuardedSweep` | kernel/src/blkcache.rs:98-119 | while a slot is left over, a sweep never takes one filled since the run began |
| `BlockCache.Residency` | kernel/src/blkcache.rs:90-120 | from any state, as many distinct uncached sectors as there are slots, inserted in a row, are all cached afterwards |
| `BlockCache.InsertAllCaches` | kernel/src/blkcache.rs:155-160 | insertions cache nothing but what was inserted |
| `BlockCache.Cache.constructor` | kernel/src/blkcache.rs:58-67 | an empty cache agrees with any drive |
| `BlockCache.Cache.Find` | kernel/src/blkcache.rs:71-79 | the data of the first slot that holds the sector, with its second chance set and nothing else changed |
| `BlockCache.Cache.Contains` | kernel/src/blkcache.rs:82-84 | presence, without touching the second chance |
| `BlockCache.Cache.Insert` | kernel/src/blkcache.rs:90-120 | the slots and the hand end exactly as the clock specification says |
| `BlockCache.Cache.ReadMisses` | kernel/src/blkcache.rs:145-163 | one raw read for the longest run of uncached sectors, and nothing outside the request is cached |
| `BlockCache.Cache.ReadAhead` | kernel/src/blkcache.rs:170-196 | prefetches only the four sectors after the read; if none was cached and the drive delivers, all are |
| `BlockCache.Cache.Read` | kernel/src/blkcache.rs:127-198 | returns the drive's contents for any mix of hits, misses and prefetch, counts every sector once, needs no drive when all is cached, and fails only if the drive does |
| `BlockCache.Cache.Write` | kernel/src/blkcache.rs:201-213 | drive first, then cache: coherent afterwards, uncached sectors all cached, a refused write changes nothing |
| `BlockCache.Cache.Flush` | kernel/src/blkcache.rs:217-224 | nothing is cached afterwards, and that agrees with any drive |
| `Frames.TotalCountsPages` | kernel/src/memory.rs:64-69 | on an ordered aligned map the start-up total is the number of usable pages |
| `Frames.FirstFitSkipsNone` | kernel/src/memory.rs:205-217 | on an ordered map the scan takes the first page left and skips none |
| `Frames.Conservation` | kernel/src/memory.rs:95-99 | every usable page is owned, free, skipped or still ahead, each once |
| `Frames.FrameAllocator.constructor` | kernel/src/memory.rs:64-79 | the allocator starts with nothing owned, free or skipped |
| `Frames.FrameAllocator.DeallocateFrame` | kernel/src/memory.rs:178-184 | the frame becomes the head of the list threaded through memory; used counts the owned frames |
| `Frames.FrameAllocator.AllocateFrame` | kernel/src/memory.rs:192-220 | a frame nobody owns, the last one freed first; it fails if and only if the list is empty and no page lies ahead, and then every page is owned or was skipped |
| `Frames.FrameAllocator.PopFree` | kernel/src/memory.rs:194-199 | the head leaves the list, and the word in it is the next head |
| `Frames.FrameAllocator.ReserveLowFrame` | kernel/src/memory.rs:113-130 | the first page below the first mebibyte that a region gives, None exactly when none lies past the cursor; on an ordered map nothing is skipped |
| `Frames.FrameAllocator.AllocateContiguous` | kernel/src/memory.rs:144-166 | fresh pages in one piece of the first region with room, the free list untouched; the pages ahead below the run are lost, none of them if and only if, on an ordered map, the run starts where a scan for one page would; fails exactly for size zero, a size that overflows, or no room, and counts only the last as out of memory |
| `Frames.FrameAllocator.OwnerWrites` | kernel/src/memory.rs:168-177 | writes of an owner to its frame never disturb the list |
| `Frames.FrameAllocator.Snapshot` | kernel/src/memory.rs:95-99 | total minus used is the free list, the pages ahead and the skipped pages |
| `Frames.SkipsUnlessFirst` | kernel/src/memory.rs:144-166 | on an ordered map a run skips no page if and only if it starts at the page a scan for one would give |
| `Frames.FrameAllocator.Serve` | kernel/src/memory.rs:95-220 | over every run of requests the cursor, the free list and the held frames follow the requests, and total minus used is the free list plus the pages ahead if and only if each granted run started at the page a scan for one would have given at that point |
| `Frames.LosesOne` | kernel/src/memory.rs:144-166 | two regions on which a run of two pages loses the page of the first |
| `Frames.FrameAllocator.FreeThenTake` | kernel/src/memory.rs:178-220 | frames freed in order come back in reverse order and the allocator ends where it began |
| `Sched.FreshSlice` | kernel/src/scheduler.rs:64-70 | a slice is between one and eight ticks |
| `Sched.WakePass` | kernel/src/scheduler.rs:1616-1683 | waking only turns sleepers and blocked tasks Ready |
| `Sched.BestIsFirst` | kernel/src/scheduler.rs:1465-1503 | the scan picks the most urgent Ready task of the CPU, and the first of them in rotation |
| `Sched.PickInv` | kernel/src/scheduler.rs:1505-1606 | a pick keeps every context owned, located and accounted for |
| `Sched.StepKeeps` | kernel/src/scheduler.rs:1347-1420 | every step of every CPU keeps the invariant |
| `Sched.EveryRunSafe` | kernel/src/scheduler.rs:1347-1388 | in every interleaving from boot no task is on two CPUs in any role, a CPU switches only into a saved context, and no Running task is lost |
| `Sched.SuspendedReturns` | kernel/src/scheduler.rs:1409-1420 | a suspended Running task is eligible again as soon as its CPU reschedules |
| `Sched.DeadStays` | kernel/src/scheduler.rs:657-686 | a Dead task comes back if and only if the step is its own sleep or block on the CPU it still runs on |
| `Sched.KilledTaskReturns` | kernel/src/scheduler.rs:657-686 | a run from boot in which a task killed from another CPU while it runs is Dead, then sleeps and becomes Ready |
| `Sched.RescheduleProgress` | kernel/src/scheduler.rs:1424-1607 | a reschedule picks the waiting task or lowers its rank |
| `Sched.BoundedWaiting` | kernel/src/scheduler.rs:1465-1568 | a Ready normal task that is never picked sees fewer than eight reschedules of its CPU per task |
| `Scheduler.Table.constructor` | kernel/src/scheduler.rs:214-215 | an empty table with every CPU idle satisfies the invariant |
| `Scheduler.Table.ReleasePendingPrev` | kernel/src/scheduler.rs:1409-1420 | one release step, keeping the invariant |
| `Scheduler.Table.HasDeadUnreapedChild` | kernel/src/scheduler.rs:1686-1696 | true exactly when a dead unreaped child exists |
| `Scheduler.Table.FindTask` | kernel/src/scheduler.rs:693-700 | the first task with the id |
| `Scheduler.Table.WakeState` | kernel/src/scheduler.rs:1616-1683 | the in-place pass is the wake specification |
| `Scheduler.Table.FindBest` | kernel/src/scheduler.rs:1465-1503 | the scan with its flags returns the specified best task |
| `Scheduler.Table.PlanSwitch` | kernel/src/scheduler.rs:1424-1607 | one planning step, true exactly when a switch must follow |
| `Scheduler.Table.Reschedule` | kernel/src/scheduler.rs:1347-1360 | release and plan under one lock are one step of the state machine |
| `Scheduler.Table.ContextSwitch` | kernel/src/scheduler.rs:1361-1387 | the switch step; the context it loads is saved |
| `Scheduler.LoadsSaved` | kernel/src/scheduler.rs:1347-1388 | a planned switch loads a saved context and saves a live one |
| `Scheduler.Table.YieldCurrent` | kernel/src/scheduler.rs:920-929 | one yield step, keeping the invariant |
| `Scheduler.Table.SleepCurrent` | kernel/src/scheduler.rs:777-820 | one sleep step, by ticks or by nanoseconds |
| `Scheduler.Table.BlockCurrent` | kernel/src/scheduler.rs:893-916 | one block step, for input, raw input or a child |
| `Scheduler.Table.RecordExit` | kernel/src/scheduler.rs:635-651 | one exit step |
| `Scheduler.Table.KillTask` | kernel/src/scheduler.rs:657-686 | one kill step, true exactly when a live task other than the caller has the id |
| `Scheduler.Table.WakeTaskNow` | kernel/src/scheduler.rs:847-892 | one wake step, true exactly when it changed something |
| `Scheduler.Table.SpawnTask` | kernel/src/scheduler.rs:419-455 | one spawn step |
| `Scheduler.Table.ChangePriority` | kernel/src/scheduler.rs:1714-1734 | one priority step, true exactly when a live task has the id |
| `Cursor.InkOver` | kernel/src/framebuffer.rs:113-143 | inking over ink is inking the pixel underneath, in every format |
| `Cursor.MotionLossless` | kernel/src/framebuffer.rs:650-661 | over any packets, pixels moved times eight plus the carry is all the motion that arrived |
| `Cursor.IdleStaysPut` | kernel/src/framebuffer.rs:635-661 | packets without motion never move the pointer |
| `Cursor.SlowIsExact` | kernel/src/framebuffer.rs:619-661 | motion is one to one if and only if it is at most three counts, where the comment says seven; four times from 96 on |
| `Cursor.Display.constructor` | kernel/src/framebuffer.rs:945-991 | a fresh surface starts with one sprite, a true save buffer and everything damaged |
| `Cursor.Display.EraseSprite` | kernel/src/framebuffer.rs:799-833 | the save buffer over the whole sprite rectangle, nothing else |
| `Cursor.Display.SaveRegion` | kernel/src/framebuffer.rs:1206-1236 | the save buffer is the screen under the position |
| `Cursor.Display.RestoreVacated` | kernel/src/framebuffer.rs:1243-1301 | old sprite pixels the new sprite leaves clear come back, pixels it covers and all others stay |
| `Cursor.Display.CaptureSave` | kernel/src/framebuffer.rs:1306-1348 | the overlap comes from the snapshot, the rest from the screen |
| `Cursor.Display.DrawArrow` | kernel/src/framebuffer.rs:1353-1378 | exactly the opaque cells, in blocks, are inked; nothing when the device draws the pointer |
| `Cursor.Display.Hide` | kernel/src/framebuffer.rs:799-836 | the screen is the bare background, and the erased rectangle is damaged |
| `Cursor.Display.Refresh` | kernel/src/framebuffer.rs:1854-1864 | one sprite and a true save buffer again, nothing changed outside the sprite |
| `Cursor.Display.ConsoleBytes` | kernel/src/framebuffer.rs:1787-1831 | a console write changes the background and leaves one sprite on it |
| `Cursor.Display.WithWriter` | kernel/src/framebuffer.rs:1054-1089 | a repaint that covers the sprite's opaque pixels leaves one sprite on the new background |
| `Cursor.Display.HandToHardware` | kernel/src/virtio.rs:2566-2572 | the sprite is erased while it is still accounted for, and is gone for good when the device takes over |
| `Cursor.Display.MoveCursor` | kernel/src/framebuffer.rs:1093-1202 | any packet moves the pointer to the clamped position; with nothing in the gap between storing and repainting the screen is the background with one sprite, the save buffer true; with a console write in the gap each of the two holds if and only if every pixel taken from the gap is the one meant; every changed pixel is damaged |
| `Cursor.Display.TornMove` | kernel/src/framebuffer.rs:1093-1202 | the same for the move itself: store, console write, repaint |
| `Cursor.Display.TornTrue` | kernel/src/framebuffer.rs:1132-1202 | any drawing, any two positions: after store, console write and repaint the save buffer and the picture are true if and only if their pixels come out right |
| `Cursor.Display.TipTears` | kernel/src/framebuffer.rs:1132-1176 | a tip that lands clear of the old sprite on a pixel that is not its outline makes the save buffer false |
| `Cursor.TornOnce` | kernel/src/framebuffer.rs:1093-1202 | a concrete screen, packet and empty console write after which the save buffer is not the background |
| `Cursor.Display.RepaintTrue` | kernel/src/framebuffer.rs:1144-1202 | repainting a true picture by difference gives a true picture at the new position |
| `Cursor.Display.RewriteTrue` | kernel/src/framebuffer.rs:1787-1831 | a console write around a pointer that is where it is said to be leaves one sprite on the new background and a true save buffer |
| `Cursor.Display.MarkDirty` | kernel/src/framebuffer.rs:320-363 | the box covers all it covered and the new rectangle |
| `Cursor.Display.Present` | kernel/src/framebuffer.rs:377-382 | presenting the box leaves no stale pixel anywhere |
| `Calendar.NextDayCounts` | kernel/src/rtc.rs:276-289 | the next day has the next day number, and from a day past the end of its month the number falls behind by exactly the excess |
| `Calendar.PrevDayCounts` | kernel/src/rtc.rs:291-304 | the day before has the day number before |
| `Calendar.NextPrev` | kernel/src/rtc.rs:276-304 | stepping forward and back are inverse on real dates |
| `Calendar.CivilRoundTrip` | kernel/src/rtc.rs:69-107 | the closed formulas invert each other on every real date |
| `Calendar.UnixRoundTrip` | kernel/src/rtc.rs:58-107 | a date and time comes back from its Unix seconds if and only if those are positive |
| `Calendar.DateRoundTrip` | kernel/src/rtc.rs:84-107 | Unix seconds come back from their date if and only if they lie after the epoch and before year 65536 |
| `Calendar.NowUtc` | kernel/src/rtc.rs:353-366 | the clock is boot time plus uptime, for every uptime, if and only if the boot date is real or midnight has not passed |
| `Calendar.FebruaryThirtieth` | kernel/src/rtc.rs:307-312 | 30 February passes the start-up check and costs two days at midnight |
| `Calendar.ToLocal` | kernel/src/rtc.rs:236-255 | the displayed time is offset by exactly the zone under the same condition, and always when the zone shifts backwards |
| `KeyRing.EveryRunSafe` | kernel/src/keyboard.rs:68-89 | in every interleaving of loads and stores, with stale loads, popped values are a prefix of accepted ones and no slot is read while it is written |
| `KeyRing.StepKeeps` | kernel/src/keyboard.rs:68-89 | every single load or store keeps the counts and the slots consistent |
| `KeyRing.DropsWhenFull` | kernel/src/keyboard.rs:68-78 | a key is dropped if and only if 255 are unread as far as the producer can see |
| `KeyRing.EmptyWhenSeen` | kernel/src/keyboard.rs:80-89 | a poll finds nothing if and only if all the consumer can see is popped |

## Left out

- Device I/O errors inside the ext2 and FAT drivers: every disk access there succeeds.
- ext2 `i_blocks`: kept modulo 2^32 as the code keeps it, with nothing proved about its value.
- ext2 `stat`, `fsync`, `list` and path walking: directories are given by inode number.
- ext2 remounting beyond the table pointer: one mounted instance is modelled.
- FAT file reads and writes: a short write frees the tail of a longer file and fresh clusters are
  not zeroed (`kernel/src/fat.rs:643-661`), so there is no overlay law to prove.
- FAT allocation of a further directory cluster: its contents, or its absence on a full volume, are
  a parameter of `FatFolder.Folder.CreateEntry` and `FatFolder.Folder.Rename`; the original does not
  zero it.
- FAT sector addressing: a table copy is a sequence of entries, a cluster a sequence of slots.
- Conformance of multi-slot long names to the FAT specification: only the driver's own round trip.
- FAT timestamps inside `FatFolder.Folder.Rename`: the time bytes of a slot are a parameter.
- Long names outside 16-bit characters: units are single characters without surrogates.
- `BlockCache.Cache.Read` and `BlockCache.Cache.Write` with a zero count or a short buffer: the
  original hands these to the raw transfer, whose assertions (`kernel/src/ata.rs:189-190`,
  `kernel/src/ata.rs:212-213`) stop the kernel; buffers are sequences of whole sectors.
- 64-bit overflow of sector and tick arithmetic, and of the hit and miss counters.
- Scheduler priorities as strict preemption, wake-up completeness and reaping: `try_reap`, the
  stall diagnostics and inter-processor interrupts are not steps of the model.
- `Sched.BoundedWaiting`: assumes that no real-time task of the CPU is Ready or current at a
  reschedule and that nobody is spawned or changes priority, as the policy keeps real-time tasks
  running unconditionally.
- Framebuffer byte addressing: a pixel is up to four bytes of a two-dimensional array; the length
  guards of the byte buffer, which only matter for one-byte pixels at its very end, are not
  modelled.
- Other drawings than a console write, or more than one, in the gap of a pointer move.
- Pointer drawings that neither hide the sprite nor cover it, such as the header clock.
- Text rendering and scrolling: a console write is any drawing on the bare background.
- Real-time clock registers, BCD decoding and the 16-bit wrap of stepping past year 65535.
- `line_pending` and line editing over the keyboard ring.
- Hardware set-up, paging, PCI, ACPI, GPU, system calls, TrueType and partition tables.
