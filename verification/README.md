# A verified model of Nachos

Nachos is an instructional operating system that runs on a simulated machine. This project models
its file system, its kernel protocols, its demand paging and its device simulators in Dafny, and
proves what they promise.

| file | what it models |
|---|---|
| `BitMap.dfy` | the bitmap of free sectors, packed in 32-bit words, as the set of its marked bits |
| `Codec.dfy`, `Disk.dfy` | bytes, little-endian words and sectors; the disk as the file system sees it |
| `FileIndex.dfy` | the two-level file index: allocation, growth and release on values |
| `FileHeader.dfy` | `FileHeader`, whose methods refine those functions |
| `SectorRuns.dfy`, `FileBytes.dfy`, `FileGrowth.dfy` | a file as a sequence of bytes over its sectors |
| `FileLife.dfy` | the life of a file on one map, and what the allocator's guards let through |
| `Regrowth.dfy`, `MapFault.dfy` | growth on a map that misses some of the file's sectors |
| `OpenFile.dfy` | `OpenFile`: reads and writes of byte ranges as slices and splices |
| `Directory.dfy`, `FileTree.dfy` | directories, the file system's invariant, and where paths lead |
| `FileCreation.dfy`, `FileRemoval.dfy`, `FileClearing.dfy` | create and remove, and what a removal takes away |
| `FileSystem.dfy`, `FileAccount.dfy` | format and open, whole runs of operations, and the account of every sector over them |
| `FileFaults.dfy` | states reached from a format in which an operation breaks the file system |
| `Transfer.dfy` | the locked transfer phases of concurrent reads and writes |
| `SynchDisk.dfy` | the synchronous disk over the asynchronous one |
| `Kernel.dfy` | threads, the ready list and semaphores |
| `RWLock.dfy` | the readers-writers lock |
| `Paging.dfy`, `Machine.dfy` | the inverted page table, LRU replacement, memory access and instruction restart |
| `Mult.dfy` | 64-bit multiplication by shift and add |
| `Interrupt.dfy` | simulated time and pending interrupts |
| `DiskTiming.dfy` | seek, rotation and the track buffer |
| `List.dfy` | linked lists |
| `PostOffice.dfy` | mail over a network that loses packets |

`dafny verify dfyconfig.toml` covers the whole project.

## How the model is built

Code that changes objects is a class whose methods are proved against functions on values; what is
promised is then proved about those functions. Protocols between threads and interrupts are
transition systems, with one step per access to shared state, and their theorems speak about every
run. Clocks, random choices, uninitialised memory and what interrupt handlers ask for are
parameters: `now` and `clock` for times, `junk`, `scratch` and `blank` for uninitialised objects and
buffers, `survives` for lost packets.

Some promises do not hold of the code as it stands. There the code is kept as it is and the exact
condition is proved:

- `Allocate` and `ExtendAllocate` compare the number of clear sectors with the data sectors only. They
  give a usable file exactly when the index sectors fit as well (`FileHeaders.AllocationSound`,
  `FileHeaders.ExtensionSound`); on a map with one clear sector they do not
  (`FileLives.AllocationBreaks`, `FileLives.ExtensionBreaks`).
- `WriteAt` does not write the bitmap back after growing a file. Everything the file owns is marked
  afterwards exactly when it needed no new sector (`OpenFiles.MapMissesNewSectors`,
  `MapFaults.UnsavedMapBreaks`). The next file to grow shares a sector with it
  (`OpenFiles.GrowthsOverlap`), and the same file, grown again, owns a sector twice
  (`OpenFiles.RegrowthBreaks`).
- A path goes on through a plain file, whose bytes are read over the table of the directory before it,
  and the changed table is written into that file. A removal keeps the file system in order exactly
  when the last table was a directory's own, or nothing went, or the file that went was in no directory
  and the table had sectors to go to (`FileRemoval.RemoveKeeps`,
  `FileFaults.PathThroughFileBreaks`); a creation, when that file has sectors
  (`FileCreation.CreateKeeps`, `FileFaults.CreateThroughFileBreaks`).
- A directory created with no bytes takes its own header sector for its index. A creation keeps the file
  system in order only for directories of at least one byte (`FileCreation.CreateKeeps`,
  `FileFaults.EmptyDirectoryBreaks`).
- Removing a directory by a path of one component looks for its entries in the root directory, and
  then writes back the root table it read before. An entry of the directory's own name stops the
  kernel; otherwise the file system stays in order exactly when the root has, for none of the entries'
  names, a directory or a file visited once (`FileRemoval.OneComponent`, `FileFaults.BareNameBreaks`).
- Removing a directory does not remove all below it: a plain file that was not visited exactly once
  stays, with its sectors, in no directory (`FileClearing.LeftBehind`, `FileFaults.OrphanStays`).
- `ExtendAllocate` that answers no has already put the new length into the header in memory, which its
  sectors do not hold (`FileHeaders.ExtendRefused`).
- `Lock::Release` clears the holder after V, when the next thread may have recorded itself already. The
  lock is lost exactly by a Release that does not find its own thread recorded
  (`SynchDisks.TokensKept`, `RWLocks.TokensKept`): two requesters can end with nobody able to use the
  disk, and two readers with neither able to leave (`SynchDisks.LockLost`, `RWLocks.LockLost`). As
  long as nobody takes the lock between another's V and the clearing, somebody can always go on
  (`SynchDisks.LockKept`, `RWLocks.LockKept`).
- The track buffer answers for a sector that has passed the head by the next sector boundary, which
  need not be by now (`DiskTiming.PassedOnlyByTheBoundary`, `DiskTiming.PassedByNow`).

Where comments and code disagree the model follows the code: the comment in `Semaphore::V` says that a
woken thread consumes the V at once, but the value is raised and the thread looks again when it runs.

## Model

| member | source | states |
|---|---|---|
| `BitMaps.BitMap.constructor` | userprog/bitmap.cc:20-28 | a new bitmap has nothing marked |
| `BitMaps.BitMap.Mark` | userprog/bitmap.cc:46-51 | exactly one more bit is marked in the packed words |
| `BitMaps.BitMap.Clear` | userprog/bitmap.cc:60-65 | exactly one bit is unmarked |
| `BitMaps.BitMap.Test` | userprog/bitmap.cc:76-85 | whether the bit is marked |
| `BitMaps.BitMap.Find` | userprog/bitmap.cc:96-105 | takes the lowest clear bit, or answers -1 and changes nothing when there is none |
| `BitMaps.BitMap.NumClear` | userprog/bitmap.cc:113-121 | the number of bits not marked |
| `BitMaps.BitMap.Load` | userprog/bitmap.cc:150-154 | the marked bits are those of the words read |
| `BitMaps.FindTakesOne` | userprog/bitmap.cc:96-121 | Find lowers NumClear by exactly one whenever it succeeds |
| `BitMaps.MarkedDetermines` | userprog/bitmap.cc:20-121 | a bitmap of whole words is determined bit for bit by its marked bits |
| `Codec.StoreThenLoad` | filesys/filehdr.cc:213-232 | words cast to bytes and back are the same words |
| `Codec.LoadThenStore` | filesys/filehdr.cc:213-232 | bytes cast to words and back are the same bytes |
| `Codec.SectorRoundTrip` | filesys/filehdr.cc:70-77 | a sector read as 32 ints and written again is unchanged |
| `Arith.SectorCountIsCeiling` | threads/utility.h:39-40 | the block-by-block count of sectors is the rounding macro |
| `Arith.SectorCountLeast` | threads/utility.h:39-40 | it is the least number of sectors that hold the bytes |
| `FileIndex.IndexCountIsCeiling` | filesys/filehdr.cc:55-56 | the number of index blocks the loop fills is the number the header computes |
| `FileIndex.TakeSlotsMeaning` | filesys/filehdr.cc:64-75 | the inner loop takes distinct fresh sectors while there are any, and records -1 after that |
| `FileIndex.AddBlocksEnough` | filesys/filehdr.cc:58-78 | with room for data and index sectors, the block loop gives fresh, distinct sectors and takes no others |
| `FileIndex.AddBlocksAborts` | filesys/filehdr.cc:58-78 | exactly when the loop hands the device an index sector of -1 |
| `FileIndex.AllocateMeaning` | filesys/filehdr.cc:41-81 | for every map: refused, stopped by the device, unusable or fresh and distinct, each exactly when |
| `FileIndex.ExtensionMeaning` | filesys/filehdr.cc:83-160 | for every map that marks the file's sectors: refused unchanged, or the old sectors stay in place and the added ones are fresh exactly when data and index fit |
| `FileIndex.IndexPosition` | filesys/filehdr.cc:58-78 | index sector j is the 33 j-th sector allocated |
| `FileIndex.DataPosition` | filesys/filehdr.cc:58-78 | data sector 32 j + t is the (33 j + 1 + t)-th sector allocated |
| `FileIndex.ReleasedMeaning` | filesys/filehdr.cc:168-200 | freeing block by block frees exactly the sectors owned |
| `FileLives.LifeOfFile` | filesys/filehdr.cc:41-204 | from Allocate through any number of ExtendAllocates by bytes that fit, early exits included: the file is usable and as long as asked, its data sectors have not moved, the map has lost exactly n + ceil(n / 32) clear bits, all of them fresh, and freeing restores it |
| `FileLives.RestoredBitForBit` | filesys/filehdr.cc:41-204 | the restored bitmap has the very words it had before |
| `FileLives.AllocationBreaks` | filesys/filehdr.cc:50-51 | with one clear sector the guard passes a file of one byte, which is not usable |
| `FileLives.ExtensionBreaks` | filesys/filehdr.cc:96-97 | with one clear sector the guard passes the first byte of an empty file, which is not usable then |
| `Regrowth.FirstTaken` | filesys/filehdr.cc:103-155 | what a growth takes begins with the lowest clear sector |
| `Regrowth.GrownAgain` | filesys/filehdr.cc:103-155 | a file that owns the lowest sector its map leaves clear, and grows on that map, owns a sector twice |
| `FileHeaders.HeaderRoundTrip` | filesys/filehdr.cc:213-232 | a header fills one sector and survives being written and fetched |
| `FileHeaders.HeaderLayout` | filesys/filehdr.h:61-69 | the 32 ints of a header sector are its fields in the order of the class |
| `FileHeaders.FileHeader.FetchFrom` | filesys/filehdr.cc:213-219 | the header is the one in the sector |
| `FileHeaders.FileHeader.WriteBack` | filesys/filehdr.cc:228-232 | the sector holds the header and no other sector changes |
| `FileHeaders.FileHeader.TakeSectors` | filesys/filehdr.cc:64-75 | slots lo..hi take what successive Finds return |
| `FileHeaders.FileHeader.AddIndexBlocks` | filesys/filehdr.cc:58-78 | the block loop over bitmap, primary table and disk is the block loop on values |
| `FileHeaders.FileHeader.Allocate` | filesys/filehdr.cc:41-81 | header fields, and bitmap, primary table and disk as specified for allocation |
| `FileHeaders.AllocationSound` | filesys/filehdr.cc:41-81 | the file is usable exactly when data and index sectors fit, and then owns only sectors that were free |
| `FileHeaders.FileHeader.FillLastIndex` | filesys/filehdr.cc:112-135 | the last index sector takes as many extra sectors as it has room for |
| `FileHeaders.FileHeader.GrowIndex` | filesys/filehdr.cc:103-155 | filling up the last index sector and adding blocks, or the stop where that sector is not on the disk |
| `FileHeaders.FileHeader.ExtendAllocate` | filesys/filehdr.cc:83-160 | header, bitmap and disk as specified, with the early exit, the refusal and the byte count that grows even when refused |
| `FileHeaders.ExtensionSound` | filesys/filehdr.cc:83-160 | old sectors stay, and the grown file is usable exactly when data and new index sectors fit; what it gained was free |
| `FileHeaders.ExtendRefused` | filesys/filehdr.cc:87-98 | refused exactly when fewer sectors are clear than the extra bytes would fill; map and disk are as before, and the header in memory is not usable |
| `FileHeaders.FileHeader.Deallocate` | filesys/filehdr.cc:168-204 | frees exactly what the file owns, and the ASSERT that index sectors are marked never fails |
| `FileHeaders.FileHeader.ByteToSector` | filesys/filehdr.cc:244-256 | the sector is the (offset / 128)-th data sector, through its index sector |
| `FileHeaders.DataBlock` | filesys/filehdr.cc:244-256 | that sector is the (k + k / 32 + 1)-th one allocated to the file, and a real sector |
| `SectorRuns.ReadRunMeaning` | filesys/openfile.cc:157-165 | a run of sector reads yields the bytes of its range |
| `SectorRuns.WriteRunMeaning` | filesys/openfile.cc:243-249 | a run of sector writes changes exactly the bytes of its range |
| `SectorRuns.SliceOfRun` | filesys/openfile.cc:145-168 | the part copied out of the whole sectors is the byte range asked for |
| `SectorRuns.SliceMeaning` | filesys/openfile.cc:125-170 | a read gives the bytes from the position on, as many as were asked for or all there are |
| `SectorRuns.BufferMerged` | filesys/openfile.cc:222-235 | WriteAt's buffer holds the new bytes and, around them, the old ones, for every alignment of first and last sector |
| `SectorRuns.SpliceOfRun` | filesys/openfile.cc:217-249 | writing the merged sectors back splices the new bytes in |
| `FileBytes.DataLayout` | filesys/filehdr.cc:244-256 | a usable file's data sectors are real and distinct |
| `FileBytes.DataWritesKeepIndex` | filesys/openfile.cc:243-249 | writing a file's data sectors does not change which sectors it has |
| `FileBytes.OtherFileKept` | filesys/openfile.cc:243-249 | a file whose sectors keep their contents keeps its bytes |
| `FileGrowth.ExtensionFrame` | filesys/filehdr.cc:103-155 | a growth writes no marked sector but the file's last, partly filled index sector |
| `FileGrowth.GrowthKeepsBytes` | filesys/filehdr.cc:83-160 | a grown file keeps every byte it had |
| `FileGrowth.LengthenedMeaning` | filesys/openfile.cc:195-213 | lengthening keeps the bytes, gains only sectors the map does not mark, and leaves marked sectors of others alone |
| `OpenFiles.OpenFile.constructor` | filesys/openfile.cc:30-44 | opening stamps the header and changes nothing else |
| `OpenFiles.StampKeeps` | filesys/openfile.cc:30-44 | the stamp leaves the file's sectors and bytes as they were |
| `OpenFiles.OpenFile.ReadSectors` | filesys/openfile.cc:157-165 | the sectors' bytes in order |
| `OpenFiles.OpenFile.WriteSectors` | filesys/openfile.cc:243-249 | the disk after the run of sector writes |
| `OpenFiles.OpenFile.ReadAt` | filesys/openfile.cc:125-173 | exactly the slice of the file's contents, clipped to its length |
| `OpenFiles.OpenFile.Gather` | filesys/openfile.cc:222-235 | the buffer with partial first and last sectors read in |
| `OpenFiles.OpenFile.Overwrite` | filesys/openfile.cc:217-253 | the contents are spliced, the header and sector list are kept, and no sector of anyone else is written |
| `OpenFiles.OpenFile.Grow` | filesys/openfile.cc:195-213 | the map is read from its file, the file takes what ExtendAllocate gives it, room or no room, and the header alone goes back |
| `OpenFiles.GrowthMeaning` | filesys/openfile.cc:195-213 | with room for data and index and a map that marks the file's sectors: refused exactly when the data sectors do not fit, otherwise all old bytes in place and every sector the map marks for others untouched |
| `OpenFiles.OpenFile.WriteAt` | filesys/openfile.cc:175-254 | nothing for no bytes, a splice in range, and growth then splice beyond the end |
| `OpenFiles.WriteMeaning` | filesys/openfile.cc:175-254 | a write changes exactly its byte range and keeps every other byte below the old length, grown or not |
| `OpenFiles.OverwriteLeavesOthers` | filesys/openfile.cc:217-253 | every file with disjoint sectors is unchanged |
| `OpenFiles.GrowthLeavesOthers` | filesys/openfile.cc:195-213 | so is every file that the map protects when a file grows |
| `OpenFiles.MapMissesNewSectors` | filesys/openfile.cc:199-212 | what the grown file owns is marked on disk exactly when it needed no new sector |
| `MapFaults.UnsavedMapBreaks` | filesys/openfile.cc:199-212 | a disk and a write of one byte after which the file owns sectors that the map does not mark |
| `OpenFiles.MapStays` | filesys/openfile.cc:199-212 | a growth leaves the map on disk as it was |
| `OpenFiles.GrowthsOverlap` | filesys/openfile.cc:195-213 | two files that grow one after the other own a sector in common |
| `OpenFiles.RegrowthBreaks` | filesys/openfile.cc:195-213 | one file that needs sectors twice is not usable after the second growth |
| `OpenFiles.OpenFile.Read` | filesys/openfile.cc:83-89 | the slice at the seek position, which moves past it |
| `OpenFiles.OpenFile.Write` | filesys/openfile.cc:91-97 | WriteAt at the seek position, which moves past what was written |
| `Directories.Directory.FindIndex` | filesys/directory.cc:95-110 | the first entry in use under the name, or -1 |
| `Directories.Directory.Find` | filesys/directory.cc:120-129 | its sector, or -1 |
| `Directories.Directory.Add` | filesys/directory.cc:142-165 | fills the first free entry, and fails exactly when the name is there or the table is full |
| `Directories.Directory.Remove` | filesys/directory.cc:173-183 | frees the entry, and fails exactly when the name is not there |
| `Directories.AddThenFind` | filesys/directory.cc:95-165 | after Add the name is found at its sector, every other name as before, and names stay unique |
| `Directories.RemoveThenFind` | filesys/directory.cc:95-183 | after Remove the name is gone, every other name as before |
| `FileTrees.FollowEnds` | filesys/filesys.cc:505-598 | whatever files a path leads through, it ends at a live file, and at a directory only with that directory's own table in memory |
| `FileTrees.StraightEnds` | filesys/filesys.cc:505-598 | a path that meets directories only ends in a directory as many levels down as it has names |
| `FileTrees.WrittenInPlace` | filesys/directory.cc:81-85 | a table written back to a file with sectors changes that file's bytes and perhaps its length, and nothing else |
| `FileTrees.WrittenIntoEmpty` | filesys/openfile.cc:195-213 | a table written back to a file without sectors makes it own the lowest sector that the map on disk leaves clear |
| `FileTrees.PlainWrite` | filesys/openfile.cc:217-253 | whatever is written into a plain file's sectors, the file system stays in order |
| `FileCreation.EntryAdded` | filesys/filesys.cc:221-258 | entering an unlisted file in a directory keeps everything in order |
| `FileCreation.CreateKeeps` | filesys/filesys.cc:179-271 | Create says no exactly when the name is there, the table is full, or header and data have no room, and changes nothing then; an ASSERT stops it exactly when the last index sector is missing or a directory of no bytes meets such a clock, and only sectors nobody owns have been written then; what it says yes to keeps the file system in order exactly when header, data and index fit, a directory has bytes, and the table's file has sectors |
| `FileCreation.CreatedThere` | filesys/filesys.cc:179-271 | for every table that has sectors: where the new file is then found, its header, its length and its times, the exact sectors the map has gained, and that all other tables, headers and marked sectors are as before |
| `FileRemoval.GoneTree` | filesys/filesys.cc:381-390 | a file can go without harm to the tree exactly when no directory lists it |
| `FileRemoval.DropKeeps` | filesys/filesys.cc:381-390 | freeing a file and its entry keeps everything in order and touches nothing above its directory |
| `FileRemoval.RemoveInKeeps` | filesys/filesys.cc:329-446 | recursive removal on the tree keeps the file system in order, whatever becomes of the entries below, which `FileClearing.RemoveInClears` states |
| `FileRemoval.PathIsTree` | filesys/filesys.cc:329-446 | removal by longer and longer paths, with the parent's table read beforehand, is removal on the tree wherever the last table is a directory's own |
| `FileRemoval.RemoveKeeps` | filesys/filesys.cc:329-446 | for every path that does not stray, plain files in it included: the file goes when it should, and order is kept exactly when the last table was a directory's own, nothing went, or striking the entry off did no harm; `FileClearing.RemoveClears` states all that goes |
| `FileRemoval.StraightRemoval` | filesys/filesys.cc:329-446 | removal by a path that meets directories only, and of a plain file by its bare name, always keeps order |
| `FileRemoval.RemoveUnbounded` | filesys/filesys.cc:396-415 | the depth bound of the model cuts nothing off once it covers the directories there are, for paths of any length |
| `FileRemoval.OneComponent` | filesys/filesys.cc:396-430 | removal of a directory by its bare name: stopped exactly when it has an entry of its own name, and otherwise in order exactly when the root has, for none of its entries' names, a directory or a file visited once |
| `FileClearing.SubtreeMeaning` | filesys/filesys.cc:396-416 | the files that the recursion visits are the file and all that directories list below it |
| `FileClearing.SubtreeUnique` | filesys/filesys.cc:396-416 | and there is only one such set |
| `FileClearing.BranchApart` | filesys/filesys.cc:404-416 | the subtrees of different entries have no file in common, so each file is tried once |
| `FileClearing.AllClears` | filesys/filesys.cc:404-416 | the loop over a directory's entries tries every file below them once: directories and files visited once go, other files have one visit less, and exactly the sectors of the files that went are given up |
| `FileClearing.RemoveInClears` | filesys/filesys.cc:329-446 | the same for a name of a directory, whose table loses the name exactly when the file goes; no other table changes |
| `FileClearing.RemoveClears` | filesys/filesys.cc:329-446 | the same for Remove by every path that does not stray, plain files in it included: live files, marks, headers and tables afterwards |
| `FileClearing.BareClears` | filesys/filesys.cc:396-430 | the same for a directory's bare name: the files tried are those that the root has under the names of its entries, and all below them |
| `FileClearing.LeftBehind` | filesys/filesys.cc:357-430 | of the files below a removed directory exactly the plain ones not visited once stay, marked and in no directory |
| `FileSystems.FormatInv` | filesys/filesys.cc:80-130 | a formatted disk is in order, with 1018 clear sectors |
| `FileSystems.FormatSizes` | filesys/filesys.cc:80-130 | the map's file has a bit for every sector and the root directory ten entries, in one sector each |
| `FileSystems.OpenKeeps` | filesys/filesys.cc:283-312 | one visit more for the file the path leads to, and nothing else; the file system stays in order, whatever files the path leads through |
| `FileSystems.OpenThenRemove` | filesys/filesys.cc:283-390 | opening and then removing a plain file changes nothing, unless it was the first visit; then the file goes |
| `FileSystems.RemoveInv` | filesys/filesys.cc:329-446 | removals that keep order are exactly the orderly ones, by bare names and longer paths alike |
| `FileSystems.NothingShared` | filesys/filesys.cc:80-446 | in every state reached from a format: no sector in two live files, all owned sectors and headers marked, names unique |
| `FileAccounts.NothingLost` | filesys/filesys.cc:80-446 | in every state reached from a format: every marked sector belongs to exactly one live file |
| `FileFaults.PathThroughFileBreaks` | filesys/filesys.cc:513-596 | after a format, two empty files f and x and one Open of x, the removal of root/f/x takes x away and leaves its entry |
| `FileFaults.CreateThroughFileBreaks` | filesys/filesys.cc:252-258 | after a format and an empty file f, the creation of root/f/y gives f the new header's sector |
| `FileFaults.BareNameBreaks` | filesys/filesys.cc:396-424 | a run from a format after which the removal of a directory by its bare name leaves an entry for a freed file |
| `FileFaults.OrphanStays` | filesys/filesys.cc:357-430 | a run from a format after which the removal of a directory leaves its file live and in no directory |
| `FileFaults.EmptyDirectoryBreaks` | filesys/filesys.cc:233-246 | a directory of no bytes stops the kernel, or is its own index sector when the clock passes for a sector number |
| `Transfers.StepKeepsInv` | filesys/openfile.cc:150-165 | what every step of every interleaving of transfer phases keeps |
| `Transfers.KeepOrder` | filesys/openfile.cc:237-249 | a sector reaches a request only after every request before it in the log has released it |
| `Transfers.FetchIsSerial` | filesys/openfile.cc:157-165 | the sector a read transfers has its serial value |
| `Transfers.Serialisable` | filesys/openfile.cc:150-249 | when all phases have finished, the disk and every read equal those of running them one at a time in the order they took the array mutex |
| `Transfers.NoDeadlock` | filesys/synchdisk.cc:120-140 | while a phase is unfinished some request can step |
| `Transfers.RunLength` | filesys/openfile.cc:150-249 | every step uses up one of finitely many, so every maximal run finishes all phases |
| `SynchDisks.NextInv` | filesys/synchdisk.cc:79-117 | one requester at a time between lock and unlock; the device is busy, or its completion pending, exactly while a requester waits |
| `SynchDisks.RequestsServed` | machine/disk.cc:115-168 | in every run the device is never given a request while active, and a requester passes the wait only after the interrupt for its own request |
| `SynchDisks.OutstandingIsWaiting` | filesys/synchdisk.cc:79-117 | the outstanding request is the latest one issued, and its requester is the one waiting |
| `SynchDisks.TokensKept` | threads/synch.cc:114-134 | every step keeps the lock free or with one requester, except a Release that does not find its own thread recorded, which loses it |
| `SynchDisks.LostForGood` | threads/synch.cc:114-134 | once lost it stays lost in every run |
| `SynchDisks.LockKept` | threads/synch.cc:114-134 | in every run in which nobody takes the lock between another's V and the clearing of the holder, it is not lost and somebody can go on |
| `SynchDisks.LockLost` | filesys/synchdisk.cc:79-117 | a run of two requesters after which nobody can go on |
| `Kernels.KeepPlaces` | threads/scheduler.cc:58-117 | every action keeps every live thread in exactly one place |
| `Kernels.KeepStatus` | threads/thread.cc:111-265 | every action keeps statuses in step with places |
| `Kernels.KeepSem` | threads/synch.cc:64-99 | every action keeps value = initial + Vs - Ps >= 0, and the bound that loses no wakeup |
| `Kernels.RunInv` | threads/thread.cc:179-265 | all of it in every state of every run |
| `Kernels.OnePlace` | threads/scheduler.cc:58-117 | a thread's status tells the one place where it is |
| `Kernels.WakeupsNotLost` | threads/synch.cc:64-99 | in every run a nonempty wait queue implies value at most the number of woken threads still to look again |
| `Kernels.FirstComeFirstServed` | threads/scheduler.cc:58-84 | the thread at ready position k gets exactly the (k+1)-th dispatch from then |
| `Kernels.FirstToWaitFirstToWake` | threads/synch.cc:64-99 | the thread at position i of a wait queue is woken by exactly the (i+1)-th V from then that wakes anybody |
| `Kernels.VWakesFirst` | threads/synch.cc:88-99 | the thread that a V takes off its queue joins the ready list last, and no other thread changes its place |
| `Kernels.NeverIdle` | threads/thread.cc:216-265 | after every action the processor has a thread if any is ready, except when an interrupt wakes one while all sleep |
| `RWLocks.StepInv` | threads/synch.cc:191-214 | readers are counted exactly, and wrlock is free, with one writer, or with the readers as a group |
| `RWLocks.WriterAlone` | threads/synch.cc:104-214 | in every run a writer inside is alone, with the gap in Release and whoever is the last reader out |
| `RWLocks.TokensKept` | threads/synch.cc:114-134 | every step keeps rdlock free or with one thread, except a Release that does not find its own thread recorded, which loses it |
| `RWLocks.LockKept` | threads/synch.cc:104-214 | in every run in which nobody takes rdlock between another's V and the clearing of the holder, it is not lost and somebody can go on |
| `RWLocks.LockLost` | threads/synch.cc:190-210 | a run of two readers after which both are reading and neither can leave |
| `Paging.FillFlat` | userprog/exception.cc:79-94 | loading a page into a free frame does not change flat memory |
| `Paging.EvictFlat` | userprog/exception.cc:96-118 | neither does writing back a page and loading another in its place |
| `Paging.TouchFlat` | machine/translate.cc:213-268 | an access changes its own page of flat memory and no other |
| `Paging.FaultKeeps` | userprog/exception.cc:72-120 | a page fault keeps flat memory and the table's invariant and brings the page in |
| `Paging.ResidentOnce` | machine/translate.cc:213-232 | no page sits in two slots |
| `Paging.StoreBytes` | machine/translate.cc:137-165 | a store changes exactly the bytes it names |
| `Paging.LoadBytes` | machine/translate.cc:87-123 | for 1, 2 and 4 bytes: a load is the little-endian sum of its bytes, or that less 2 to the number of its bits, in the range of its size |
| `Paging.LoadAfterStore` | machine/translate.cc:87-165 | for 1, 2 and 4 bytes: a load returns the value stored, modulo 2 to the number of its bits, in the range of its size |
| `Paging.FlatAllInTurn` | machine/translate.cc:87-165 | accesses to flat memory take effect one after the other |
| `Paging.ExecuteSees` | machine/mipssim.cc:93-105 | an instruction sees the word at its pc and then one value for each load, and changes memory by its data accesses only |
| `Machines.Machine.constructor` | machine/machine.cc:55-84 | an empty page table stands for the swap file |
| `Machines.Machine.Search` | machine/translate.cc:214-225 | the slot of the page, whose frame gets the time, or nothing |
| `Machines.Machine.Translate` | machine/translate.cc:186-271 | each exception exactly when, frame and offset, and the stamped entry |
| `Machines.Machine.FindVictim` | userprog/exception.cc:100-110 | the first slot with the least time of last use |
| `Machines.Machine.LRU` | userprog/exception.cc:72-120 | the first unused slot with the next frame, or the least recently used one with write-back |
| `Machines.Machine.ReadMem` | machine/translate.cc:87-125 | the value in flat memory when the page is in memory, otherwise a fault that leaves flat memory alone |
| `Machines.Machine.WriteMem` | machine/translate.cc:137-169 | the store in flat memory, likewise |
| `Machines.FaultMeaning` | userprog/exception.cc:96-118 | a fault never evicts the page used at the latest time |
| `Machines.Machine.OneInstruction` | machine/mipssim.cc:93-106 | an attempt has its effect on flat memory, or faults, leaves it alone and is closer to passing |
| `Machines.Machine.Execute` | machine/mipssim.cc:30-45 | every instruction gets past its accesses after at most two faults |
| `Machines.Machine.Run` | machine/mipssim.cc:30-45 | any number of instructions of any program load and leave exactly what they would with flat memory |
| `Multiplier.AddDouble` | machine/mipssim.cc:665-669 | adding with carry on two words is addition |
| `Multiplier.ShiftDouble` | machine/mipssim.cc:673-677 | shifting two words is doubling |
| `Multiplier.ComplementDouble` | machine/mipssim.cc:683-689 | complementing two words is negation modulo 2^64 |
| `Multiplier.Accumulate` | machine/mipssim.cc:658-679 | the loop with its early exit leaves the full unsigned product |
| `Multiplier.Mult` | machine/mipssim.cc:636-693 | hi:lo is the full product, signed and unsigned, for every pair of words |
| `Interrupts.Interrupt.Schedule` | machine/interrupt.cc:273-286 | the interrupt joins the sorted pending list |
| `Interrupts.Interrupt.CheckIfDue` | machine/interrupt.cc:299-345 | fires the first interrupt exactly when it should, never early and in nondecreasing due time, with time adding up |
| `Interrupts.Interrupt.FireDue` | machine/interrupt.cc:169-170 | the loop ends and leaves nothing due, unless the machine is idle and only the timer is left; what was pending and what handlers asked for is pending still or has fired, as multisets; a yield is asked for exactly when some handler asked |
| `Interrupts.Interrupt.OneTick` | machine/interrupt.cc:150-182 | time passes in the current mode; afterwards nothing is due, and what was pending and what handlers asked for is pending or has fired now; the running thread is to yield exactly when that was asked for before or by a handler that fired |
| `Interrupts.Interrupt.SetLevel` | machine/interrupt.cc:114-127 | a tick passes exactly when interrupts go from off to on, which handlers may not do, and otherwise nothing is fired or lost; whether to yield, as in a tick |
| `Interrupts.Interrupt.Idle` | machine/interrupt.cc:213-238 | the clock jumps exactly to the next interrupt; halts exactly when nothing is pending but perhaps the timer, otherwise something has fired; nothing is lost |
| `Interrupts.ScheduledMeaning` | machine/interrupt.cc:273-286 | what handlers schedule is added to the sorted list and nothing else, strictly later, so nothing more is due |
| `Interrupts.CheckedOnce` | machine/interrupt.cc:299-345 | one turn of the loop lowers the number of interrupts due |
| `Interrupts.CheckedConserves` | machine/interrupt.cc:299-345 | one turn of the loop loses no interrupt and makes none up |
| `Interrupts.ConservedMeaning` | machine/interrupt.cc:169-170 | interrupts that are not due stay, joined by those asked for; of those due, each that is no longer pending has fired, as often as it was pending, and nothing else has |
| `DiskTiming.ModuloDiff` | machine/disk.cc:204-211 | the rotation from one sector to the other |
| `DiskTiming.ModuloDiffLeast` | machine/disk.cc:204-211 | the least such rotation |
| `DiskTiming.Disk.TimeToSeek` | machine/disk.cc:181-197 | 500 ticks for every track the head steps over, and the wait for the next sector boundary |
| `DiskTiming.SeekIsWalk` | machine/disk.cc:181-187 | a seek is a walk of one track per 500 ticks, as long either way, and adds up over a track in between |
| `DiskTiming.MovedMeaning` | machine/disk.cc:263-273 | the buffer goes on while the head stays on its track, and otherwise starts at the first boundary after the seek |
| `DiskTiming.BufferTest` | machine/disk.cc:240-248 | the track-buffer test holds exactly when the whole sector has passed the head since the buffer was started |
| `DiskTiming.FirstStart` | machine/disk.cc:250-253 | the rotation added is the wait for the first time the sector comes under the head |
| `DiskTiming.Disk.ComputeLatency` | machine/disk.cc:234-254 | buffered exactly when, and otherwise the transfer starts the first time after the seek that the sector is under the head, within a fixed bound |
| `DiskTiming.Disk.UpdateLast` | machine/disk.cc:263-273 | a seek starts a new track buffer at the first boundary on the new track |
| `DiskTiming.Disk.Request` | machine/disk.cc:115-155 | the device becomes active for the time just described, and is done no earlier than the track buffer starts |
| `DiskTiming.Disk.HandleInterrupt` | machine/disk.cc:163-168 | the device becomes idle |
| `DiskTiming.BufferStartsOnBoundary` | machine/disk.cc:115-273 | over every sequence of requests the track buffer starts on a sector boundary that is past when the next request comes |
| `DiskTiming.PassedOnlyByTheBoundary` | machine/disk.cc:240-248 | a read that is served from the buffer though its sector has not passed by now |
| `DiskTiming.PassedByNow` | machine/disk.cc:240-248 | it has passed by now as well exactly when the test holds of the whole sectors up to now, not up to the next boundary |
| `Lists.List.Append` | threads/list.cc:77-91 | the item goes to the end |
| `Lists.List.Prepend` | threads/list.cc:104-118 | the item goes to the front |
| `Lists.List.SortedInsert` | threads/list.cc:181-210 | the item goes before the first one with a larger key |
| `Lists.List.SortedRemove` | threads/list.cc:222-243 | the first item and its key are taken, if there is one |
| `Lists.List.RemoveItem` | threads/list.cc:247-275 | the first occurrence of the item is taken out |
| `Lists.InsertedMeaning` | threads/list.cc:181-210 | a sorted insertion adds the item, loses none and keeps the list sorted |
| `Lists.InsertedAt` | threads/list.cc:181-210 | the item goes behind all items up to the first with a larger key, equal keys included |
| `Lists.WithoutAt` | threads/list.cc:247-275 | the items before and behind the first occurrence stay in their places |
| `PostOffices.WireRoundTrip` | machine/network.cc:121-126 | what goes onto the wire comes off it uncorrupted, whatever pads it |
| `PostOffices.NextInv` | network/post.cc:221-247 | received, box, worker, inbox and socket make up the mail that was not lost, in order, box by box |
| `PostOffices.NeverTrips` | machine/network.cc:130-139 | the worker never collects from an empty inbox, and box numbers are in range |
| `PostOffices.DeliveredInOrder` | network/post.cc:99-316 | for every sender and box, what is received is an order-preserving, uncorrupted, duplicate-free part of what was sent |

## Left out

- Condition variables.
- SynchDisks.LockKept: which threads the scheduler picks is not part of it, so it says that somebody can go on, not that everybody will; likewise `RWLocks.LockKept`.
- The wait inside `SynchList`: appending to and taking from a mailbox are single steps in `PostOffice.dfy`.
- `sendLock` and `messageSent`: sends are logged in the order in which `Network::Send` is called.
- Threads, the scheduler, semaphores, the readers-writers lock, the synchronous disk, the transfer phases and the post office are state machines on values: the objects and the lists they are linked through are not modelled there.
- The file system's operations are functions on values: free map, directory tables and headers appear as what they hold, not as the bytes that `OpenFile` reads and writes, and access times are not part of that state.
- FileRemoval.RemoveKeeps: `levels` bounds how deep the recursion goes; `FileRemoval.RemoveUnbounded` proves that a bound that covers the directories cuts nothing off. A directory that is to go is taken to lie beside the files on its path, neither among them nor above them, which can fail only through entries that a plain file's bytes make up.
- FileSystems.NothingShared: the runs are of Format, Create, Open, Remove and writes into the sectors that a plain file has. A Create that succeeds and a Remove meet the exact conditions of `FileCreation.CreateKeeps` and `FileSystems.RemoveInv`, and growing writes are covered by `OpenFiles.GrowthLeavesOthers`, `OpenFiles.GrowthsOverlap` and `OpenFiles.RegrowthBreaks` instead.
- Paths that the bytes of a plain file lead to a sector that is no file's header, which is then read and written as one.
- FileCreation.CreateKeeps: kinds of file other than 0 and 1, which Remove treats as directories and Create does not. When a directory of no bytes is created while the clock is below 1024, the table goes to the sector that the clock names; the damage to the new header is modelled, and the write to that sector is not.
- OpenFiles.OpenFile.WriteAt: a growth that passes the guard is taken to have room for its index sectors, and the map to mark what the file owns; otherwise the file is not usable after `ExtendAllocate` (`FileHeaders.ExtensionSound`, `OpenFiles.RegrowthBreaks`), and what the write then does to it is not described.
- OpenFiles.OpenFile.Write: as for `WriteAt`.
- Transfers.Serialisable: a request is one transfer phase with its list of sectors; the index reads that find those sectors come before it.
- Interrupts.Interrupt.CheckIfDue: interrupts due at the same time may change places when one of them is put back, so no order is claimed among them.
- Paths through a missing directory in `Create`, where the name becomes a null pointer, and names and paths as character buffers; the bytes of a directory entry that a file covers in part are a parameter, `blend`.
- File sizes that need more than 25 index sectors, and offsets or lengths that overflow an int.
- Negative positions in `ReadAt` and `WriteAt`, which index outside the buffer.
- Paging with a TLB or with several user threads, whose swap pages collide; the swap file is taken to cover the whole address space and appears as a sequence of pages.
- Machines.Machine.Run: an instruction is its fetch and its data accesses, which fall on one page; registers, delayed loads, branches and the other opcodes are the program's own business.
- Alignment errors in `ReadMem` and `WriteMem`, where the handler stops the kernel; `Translate` reports them.
- Interrupts.Interrupt.OneTick: it ends where the running thread yields; that other threads run then is the Yield action of `Kernel.dfy`.
- `blockedList`, which collects every thread that has slept and is only printed.
- The elevator, the console, the timer device, start-up, statistics, printing and the host system calls.
- The COFF tools, the assembler parts and the older threads demonstrations.
