# MicroNT: a verified model of its stateful cores

A Dafny model of the parts of the MicroNT kernel and its libraries that keep state, with proofs of
what they promise. `dafny verify dfyconfig.toml` checks all of it.

**FAT12/16/32 driver** (`Fat*.dfy`, `Arith.dfy`, `PathNames.dfy`). The disk is a sequence of 512-byte sectors, the volume a
class with the driver's globals (the sector buffer, the open file, the allocation cursor). Two
abstract views are proved to describe it: the FAT as an array of independent cells, one value for all
copies, and a forest of disjoint, acyclic chains; and each directory as a list of items, live entries and
erased slots, which the driver's slots spell. `FatVolume` holds the table and data operations,
`FatDirectory`, `FatEntries`, `FatGrow` and `FatCreate` the directory ones, `FatOps` and `FatMkdir` the
operations inside an open directory, `FatApi` the entry points that take a path, `FatEffects` what one call means for
all other paths, `FatCursor` the file descriptors above them. `FatOps.Ok` is the invariant of a volume written by this
driver: copies equal, every entry in range, chains of live entries disjoint, every directory in the driver's layout,
every entry on a chain just long enough for its size. Every operation keeps it, except where the driver does not, and
there the contract says so: overwriting a file on a full disk leaves an entry that points at freed clusters.
What the driver's users expect holds under conditions, each proved as an equivalence:

- what is written is read back: the rounding sum of the size must fit 32 bits (`FatPaths.ReadAfterWrite`,
  `FatApi.ReadBack`; `FatExamples.SizeWithoutClusters`);
- a new entry is found again: no 0x00 slot precedes its place (`FatFrame.EntryVisible`; `FatExamples.HiddenFile`), and its
  name does not start with byte 0xE5 (`FatOddNames.FoundAgain`);
- a new entry stays inside its cluster: some cluster had room for it or it fits one
  (`FatCreate.PickPlace`; `FatExamples.LongNameSpills`, `FatStray.SpillHits`);
- what is taken for the parent directory is one: the path leads to a directory, or to an empty file on FAT12 and
  FAT16, where its cluster number is the root's (`FatStray.HeadIsDirectory`; `FatExamples.FileAsDirectory`); below any other file a write
  damages that file (`FatStray.WriteBelowFile`);
- a file can be deleted by its own name: the name is no 8.3 name ending in a dot and no earlier entry answers to it
  (`FatEffects.TakesNew`; `FatExamples.DottedNameLost`);
- writing and deleting a new file gives its space back: the directory did not grow (`FatEffects.WriteThenDeletePath`);
- a read at an offset is the slice of the file: its 32-bit sums stay in reach (`FatReadAt.ReadAtIsSlice`;
  `FatExamples.ReadsPastTheEnd`);
- a seek is the clamped sum: the 64-bit sum does not overflow (`FatCursor.SeekIsClamped`).

The formats on the disk and the rules for names are stated apart from the functions that write and read them: table
entries as little-endian numbers (`FatCells.CellFormat12`), the bytes of both kinds of directory entry (`FatDir.SlotFormat`,
`FatNames.LfnFormat`), names compared without regard to case and nothing else (`FatNames.FoldIsCase`, `FatOps.VictimCase`), 8.3 names
(`FatNames.ShortAroundDot`, `FatNames.LongUnlessShort`), the run of slots picked (`FatDir.FirstRun`).

`FatOddNames` and `PathNames` say which names are left out elsewhere, and that resolved paths hold only two kinds of them.

**Memory** (`Pmm`, `PageTables`, `Vmm`, `Teardown`, `Spaces`). The page bitmap with pinning, and the
four-level tables in an array of frames, after the Intel SDM, volume 3A, section 4.5. The ghost map `owner` gives every
table frame its one space and index path; with it the tables are proved to be a partial map
from page to frame per space, where mapping and unmapping change exactly one page, other spaces
never notice below slot 256, and the kernel half is seen by all. `Spaces` puts creation, mapping, unmapping and
teardown together as steps of runs in which spaces come and go: a page below slot 256 changes only by a call on it
(`Spaces.IsolatedRun`), a page mapped for the user can be used by user code until then (`Spaces.UserRun`), what a new space
holds for the kernel never can, each frame a process maps belongs to one page of one space, and after a teardown, which
gives back each private table and owned leaf once and nothing else, no other space leads to what was given back (`Spaces.EndSpace`).

**Scheduler** (`Sched`, `Kernel`). `Sched` is the state machine of the timer tick, exec, sleep, waitpid, exit and
kill as atomic steps, with invariants over every run: each live thread's frame is in one place,
a thread gets back the frame it lost, a blocked thread has one reason and no wakeup is lost. A sleep lasts
the ticks its milliseconds make (`Sched.SleepLasts`) exactly when another thread can run, and else no time at all
(`Sched.SleepParks`); a wait lasts until the process ends (`Sched.WaitsForEnd`), for ever if a process waits for itself (`Sched.SelfWait`).
`Kernel.Machine` is the imperative code, each handler tied to a step of that machine.

**Kernel heap** (`Heap`). Headers in memory linked both ways, tied to a list of disjoint blocks: first
fit, splitting, growth, coalescing; no call writes into the payload of a block that stays live, and the counters
are the sums over the list. A freed block becomes one with its free neighbours, so that no two free blocks lie side by side unless
the heap grew against a free last block (`Heap.FreedSeamless`, `Heap.ExtendedSeamless`). Requests near 2^64 fall short in two ways, both with their exact condition: rounded to nothing
(`Heap.EnoughBytes`, `Heap.HugeRequest`), or never met while every page is taken (`Heap.KernelHeap.KmAlloc`, `Heap.EndlessRequest`).

**TCP receive path** (`Tcp`). Segments of one stream in any order, lost or repeated, against the 4096-byte
buffer: what the reader has, then the buffer, is always the stream's prefix (RFC 9293, sections 3.4 and 3.10.7.4). A FIN
ends this unless it comes in order behind data that was all taken (`Tcp.FinInOrder`; `Tcp.FinSkipsByte`, `Tcp.FinCutShort`).
Every segment is acknowledged with what the socket has (`Tcp.AckedAtOnce`); acknowledgements that come in are taken as the RFC
asks as long as the numbers sent have not wrapped (`Tcp.AckTaken`).

**Library algorithms.** `Sorting`: the Hoare sort with a moving pivot, the Lomuto sort, the binary search.
`ResolvePath` and `PathBuffers`: the two path canonicalisers, in place on their buffers, and exactly when they
agree.

Imperative code is a method over class fields or arrays, tied by its contract to a function or relation on
values; what is promised about whole runs is proved about those. Allocations that can fail, the loader's answers,
the boot memory map and granted pages are parameters.

## Model

| member | source | states |
|---|---|---|
| FatCells.CellAfterPut | Kernel/fs/fat32.c:68-116 | a stored entry reads back as the value cut to 12, 16 or 28 bits, in all three widths |
| FatCells.CellsIndependent | Kernel/fs/fat32.c:806-894 | storing one entry leaves every other entry as it was, also the FAT12 neighbour that shares a byte with it |
| FatCells.ReservedBitsKept | Kernel/fs/fat32.c:820-821 | a FAT32 store keeps the four reserved high bits of the entry |
| FatCells.CellFormat12 | Kernel/fs/fat32.c:91-116 | two FAT12 entries share three bytes, read as one little-endian number: the even one is its low twelve bits, the odd one its high twelve |
| FatCells.CellFormat16 | Kernel/fs/fat32.c:81-89 | a FAT16 entry is the number in two bytes |
| FatCells.CellFormat32 | Kernel/fs/fat32.c:71-79 | a FAT32 entry is the low 28 bits of the number in four bytes |
| FatWords.Store12 | Kernel/fs/fat32.c:881-887 | the masked 16-bit stores of a FAT12 entry change exactly the bytes of that entry |
| FatWords.Store32 | Kernel/fs/fat32.c:820-821 | the masked 32-bit store puts the 28-bit value into the four bytes of the entry |
| FatWords.Masked32 | Kernel/fs/fat32.c:68-80 | reading four bytes and masking gives the 28-bit entry |
| FatTables.InOneSector | Kernel/fs/fat32.c:91-108 | only FAT12 entries can cross a sector boundary |
| FatTables.StoredEntry | Kernel/fs/fat32.c:806-894 | storing an entry in every copy is an update of one cell of the abstract table and keeps all copies equal |
| FatTables.FatSame | Kernel/fs/fat32.c:68-116 | the abstract table depends on the sectors of the FAT copies only |
| FatVolume.Volume.GetFatEntry | Kernel/fs/fat32.c:68-116 | returns the cell of the abstract table, for an entry straddling two sectors too; changes no sector |
| FatVolume.Volume.SetFatEntry | Kernel/fs/fat32.c:806-894 | the abstract table afterwards is the old one with one cell replaced, all copies agree, data sectors are untouched |
| FatVolume.Volume.NextCluster | Kernel/fs/fat32.c:118-128 | the successor on the chain, and 0 at its end |
| FatVolume.Volume.AllocateCluster | Kernel/fs/fat32.c:904-939 | hands out the first free cluster at or cyclically behind the cursor and marks it as the end of a chain; 0 exactly when none is free |
| FatVolume.Volume.FreeClusterChain | Kernel/fs/fat32.c:941-952 | ends on every table with in-range entries, cyclic ones included, and zeroes exactly what the cluster reaches |
| FatVolume.Volume.AppendCluster | Kernel/fs/fat32.c:1477-1489 | claims a cluster and links it behind the previous one; on a full disk the table is as before the whole file was begun |
| FatVolume.Volume.AllocateChain | Kernel/fs/fat32.c:1473-1490 | a fresh chain of the asked length, or, when fewer clusters are free, the table restored |
| FatVolume.Volume.ReadFile | Kernel/fs/fat32.c:675-706 | the first size bytes of the chain, as far as it goes |
| FatVolume.Volume.ReadCluster | Kernel/fs/fat32.c:683-702 | one cluster of a file read, clamped to what is left of the size |
| FatVolume.Volume.WriteChain | Kernel/fs/fat32.c:1492-1519 | the stream of the chain starts with the data, its last sector padded with zeros; nothing outside the chain changes |
| FatVolume.Volume.WriteCluster | Kernel/fs/fat32.c:1497-1518 | one cluster of that loop |
| FatVolume.Volume.ReadOpenAt | Kernel/fs/fat32.c:715-773 | the outcome of a read at an offset in 32-bit arithmetic, clamps and wraps included |
| FatVolume.Volume.SkipClusters | Kernel/fs/fat32.c:731-735 | the skipping loop ends at the cluster of the offset, or runs off the chain when its 32-bit position wraps |
| FatChains.ChainDistinct | Kernel/fs/fat32.c:941-952 | a chain never visits a cluster twice |
| FatChains.ChainReach | Kernel/fs/fat32.c:941-952 | a chain is exactly the set of clusters its head reaches |
| FatChains.FreeChainInForest | Kernel/fs/fat32.c:941-952 | freeing one chain of a forest removes that chain and no other and gives back exactly its clusters |
| FatChains.ClaimInForest | Kernel/fs/fat32.c:904-939 | claiming a free cluster keeps the forest and adds a chain of one cluster |
| FatChains.LinkInForest | Kernel/fs/fat32.c:1483-1484 | linking that cluster behind a chain extends this chain and keeps all others |
| FatChains.FreshInForest | Kernel/fs/fat32.c:1473-1490 | a fresh chain joins the forest disjoint from every chain there was |
| FatChains.FreshUndone | Kernel/fs/fat32.c:1479-1482 | freeing a fresh chain gives back the table from before it |
| FatChains.FreeOffChains | Kernel/fs/fat32.c:904-939 | a free cluster lies on no chain |
| FatData.StreamsDisjoint | Kernel/fs/fat32.c:130-132 | disjoint chains use disjoint sectors |
| FatData.PaddedStream | Kernel/fs/fat32.c:1492-1519 | sectors holding the data in order, zero-padded at the end, give the data back |
| FatData.StreamInside | Kernel/fs/fat32.c:130-132 | the sectors of a chain lie in the data area, outside every FAT copy |
| FatDisk.ClusterInside | Kernel/fs/fat32.c:130-132 | clusters lie one behind the other inside the data area |
| FatReadAt.ReadAtIsSlice | Kernel/fs/fat32.c:715-773 | a read at an offset is the slice of the whole file if and only if the access is in reach: the offset is not in the last possible cluster, and the 32-bit sum does not wrap to a value up to the size unless the file fills its chain |
| FatReadAt.SkipStep | Kernel/fs/fat32.c:731-735 | one turn of the skipping loop with its wrapping position |
| FatStore.ClustersNeeded | Kernel/fs/fat32.c:1474-1475 | the computed number of clusters is just enough, and 0 exactly when the rounding sum wraps |
| FatStore.StoreData | Kernel/fs/fat32.c:1467-1519 | the data on a fresh chain, or a restored table and too few free bytes |
| FatNames.LongNameRoundTrip | Kernel/fs/fat32.c:998-1033 | for every name of 1 to 255 non-zero bytes the long entries in on-disk order rebuild the name over a zeroed buffer, also when the length is divisible by 13 |
| FatNames.ExtractStep | Kernel/fs/fat32.c:554-582 | reading one long entry after the later ones adds exactly its piece of the name |
| FatNames.FoldIsCase | Kernel/runtime.c:87-97 | the comparison of names finds no difference exactly when they differ in the case of letters only |
| FatNames.CaseSharesShort | Kernel/fs/fat32.c:775-804 | names that differ in case only generate the same 8.3 name |
| FatNames.ShownIsLower | Kernel/fs/fat32.c:436-450 | an 8.3 name is shown without capitals |
| FatNames.ShortAroundDot | Kernel/fs/fat32.c:775-804 | the 8.3 name holds the capitals of what stands before and behind the last dot, cut to 8 and 3 bytes and filled with spaces |
| FatNames.ShortWithoutDot | Kernel/fs/fat32.c:775-804 | the same for a name without a dot, with an empty extension |
| FatNames.LongUnlessShort | Kernel/fs/fat32.c:962-996 | a name gets a long entry unless it is of 8.3 form already |
| FatNames.PiecesAreLeast | Kernel/fs/fat32.c:1271-1282 | no fewer long-name entries hold the name |
| FatNames.LfnFormat | Kernel/fs/fat32.c:998-1033 | the bytes of a long-name entry are where the FAT specification puts them |
| FatNames.ShortSurvives | Kernel/fs/fat32.c:415-454 | an entry without long name shows a name that generates the same 8.3 name again |
| FatDir.FreeRunSafe | Kernel/fs/fat32.c:1156-1233 | the run of slots FatFindFreeSlots picks holds no live entry and stays inside one cluster or the fixed root |
| FatDir.FirstRun | Kernel/fs/fat32.c:1156-1233 | the run picked is the first one in the group; none is found exactly when there is none or each one there runs into too few 0x00 slots at the end |
| FatDir.SlotFormat | Kernel/fs/fat32.c:1290-1306 | the 32 bytes of an 8.3 entry are where the FAT specification puts them |
| FatItems.ChecksumStep | Kernel/fs/fat32.c:954-960 | each step turns the sum right by one bit and adds a byte |
| FatSlots.SlotStored | Kernel/fs/fat32.c:1264-1332 | storing one slot changes that slot of the directory and no other |
| FatSlots.DirSectorsGood | Kernel/fs/fat32.c:1156-1180 | the sectors of a directory are on the disk, outside the FAT and pairwise different |
| FatScans.ScanItems | Kernel/fs/fat32.c:1400-1454 | the scan finds the first entry that generates the 8.3 name, and only that |
| FatScans.ReadItems | Kernel/fs/fat32.c:584-673 | the listing reports the entries in order with their long names restored, up to the limit |
| FatScans.ShownMatches | Kernel/fs/fat32.c:486-500 | a listed entry answers to exactly the names that generate its 8.3 name |
| FatScans.DotsNeverMatch | Kernel/fs/fat32.c:1035-1154 | the dot entries answer to no name a file can have |
| FatScans.FindItems | Kernel/fs/fat32.c:1035-1154 | FatFindEntry finds the first item that answers to the name together with the start of its whole run of slots |
| FatScans.FirstAnswerCase | Kernel/fs/fat32.c:1119-1128 | the search for an entry does not look at the case of letters |
| FatEdits.SpellsAdded | Kernel/fs/fat32.c:1156-1332 | an entry written over the slots found by the free-slot scan adds one entry and keeps all others |
| FatEdits.SpellsErased | Kernel/fs/fat32.c:1606-1638 | erasing every slot of an entry removes that entry and keeps all others |
| FatEdits.SpellsOverwritten | Kernel/fs/fat32.c:1525-1526 | overwriting the 8.3 slot changes the fields of that entry and nothing else |
| FatEdits.RunCoversGone | Kernel/fs/fat32.c:1156-1233 | a run that starts inside the used part covers erased entries only or runs into the free end |
| FatDirectory.ScanDirectory | Kernel/fs/fat32.c:1390-1456 | the slot of the first entry with the 8.3 name, its attributes and first cluster |
| FatDirectory.ReadDir | Kernel/fs/fat32.c:584-673 | the first entries of the directory as the specification lists them, at most as many as asked for |
| FatDirectory.FindDirEntry | Kernel/fs/fat32.c:1035-1154 | the first entry that answers to the name, with the sector and offset of its run and of its 8.3 slot |
| FatDirectory.FindFreeSlots | Kernel/fs/fat32.c:1156-1233 | the first group with enough consecutive free slots, and where they start; not found exactly when no group has them |
| FatDirectory.TargetIs | Kernel/fs/fat32.c:1156-1233 | the place picked, as a function of the slots: the first fitting run of the first fitting group |
| FatEntries.WriteDirectoryEntries | Kernel/fs/fat32.c:1264-1332 | the slots of the entry stand in the run in on-disk order and no other slot of the disk changes |
| FatEntries.EraseRun | Kernel/fs/fat32.c:1606-1633 | the unbounded erasing loop ends at the 8.3 slot, having erased exactly the run of that entry |
| FatEntries.NextPlace | Kernel/fs/fat32.c:1627-1632 | the next slot in sector and byte arithmetic is the next slot of the directory |
| FatGrow.ExpandDirectory | Kernel/fs/fat32.c:1235-1262 | the directory chain grows by one zeroed cluster behind its last one; a full disk or the fixed root leaves everything as it was |
| FatGrow.SlotsGrown | Kernel/fs/fat32.c:1235-1262 | a grown directory shows its old slots and then free ones |
| FatCreate.CreateEntry | Kernel/fs/fat32.c:1528-1544 | the entry is written where the scan finds room, or into the cluster the directory grows by |
| FatCreate.PickPlace | Kernel/fs/fat32.c:1527-1540 | a run of free slots or a new cluster; the run stays in its group if and only if some group had room for it or it fits a cluster |
| FatCreate.PlaceEntry | Kernel/fs/fat32.c:1527-1544 | the entry stands in that run; if it did not stay in its group, it ran into the sector behind the new one-sector cluster |
| FatCreate.TakenBoth | Kernel/fs/fat32.c:1473-1544 | a new file takes from the free clusters exactly its chain and the cluster its directory grew by |
| FatCreate.SpellsZeroTail | Kernel/fs/fat32.c:1202-1209 | in every directory the driver writes, all slots of a cluster after a 0x00 are 0x00 |
| FatCreate.WrittenSeated | Kernel/fs/fat32.c:1264-1332 | a written entry keeps long-name slots in front of their 8.3 slot in neighbouring sectors, which the erasing loop needs |
| FatFrame.EntryVisible | Kernel/fs/fat32.c:1202-1209 | later scans see the new entry if and only if no 0x00 slot precedes the place that was picked |
| FatFrame.StreamKept | Kernel/fs/fat32.c:1492-1519 | a file keeps its bytes when the sectors of a disjoint chain are written |
| FatFrame.AddedFound | Kernel/fs/fat32.c:1525-1544 | after adding an entry its name finds it and every other name finds what it found before |
| FatFrame.ErasedOthers | Kernel/fs/fat32.c:1556-1641 | after erasing an entry every other name finds what it found before |
| FatFrame.GrownForest | Kernel/fs/fat32.c:1235-1262 | growing a directory keeps all chains acyclic and disjoint |
| FatFs.KeysApart | Kernel/fs/fat32.c:130-132 | different files and directories have disjoint chains on clusters of the volume |
| FatFs.ChainFreed | Kernel/fs/fat32.c:941-952 | freeing the chain of one file keeps the layout of all others |
| FatFs.FileLaid | Kernel/fs/fat32.c:1467-1519 | laying a file on a fresh chain keeps all other files and directories |
| FatFs.DirMade | Kernel/fs/fat32.c:1683-1720 | making a directory of one fresh cluster keeps all other files and directories |
| FatFs.DirEdited | Kernel/fs/fat32.c:1264-1332 | editing one directory, grown or not, keeps all other files and directories |
| FatRefs.RefsAdded | Kernel/fs/fat32.c:1525-1544 | every entry still names a chain just long enough for its size, once each, after an entry was added |
| FatRefs.RefsOverwritten | Kernel/fs/fat32.c:1525-1526 | the same after a file was overwritten |
| FatRefs.RefsErased | Kernel/fs/fat32.c:1556-1641 | the same after an entry was deleted together with its chain |
| FatFiles.StoreFile | Kernel/fs/fat32.c:1467-1519 | the file is on a fresh chain disjoint from all others and reads as the data; on a full disk the table is as before |
| FatFiles.AddEntry | Kernel/fs/fat32.c:1527-1544 | the directory gains the entry and later scans see it if and only if no 0x00 slot precedes its place |
| FatFiles.OverwriteEntry | Kernel/fs/fat32.c:1525-1526 | the entry keeps its name and gets the new first cluster and size |
| FatFiles.EraseEntry | Kernel/fs/fat32.c:1602-1638 | exactly the slots of that entry are erased |
| FatFiles.FreeOld | Kernel/fs/fat32.c:1463-1465 | the chain of the old file is free, all other chains are as before |
| FatFiles.FatRestored | Kernel/fs/fat32.c:1479-1482 | a failed allocation leaves every file and directory as it was |
| FatOps.LaidReads | Kernel/fs/fat32.c:1473-1475 | the entry reads as the data if and only if the data is empty or the rounding sum fits 32 bits |
| FatOps.ReplaceFile | Kernel/fs/fat32.c:1463-1526 | overwriting keeps a well-formed volume and every other file; on a full disk the outcome says that the old chain is gone |
| FatOps.NewFile | Kernel/fs/fat32.c:1473-1544 | a new file leaves every old one alone; on a full disk the FAT is restored; the entry is found again if and only if it is visible |
| FatOps.WriteFileIn | Kernel/fs/fat32.c:1380-1553 | both cases and the refusal to overwrite a directory, with the well-formedness of the volume afterwards |
| FatOps.DeleteFileIn | Kernel/fs/fat32.c:1599-1640 | deletes the first entry that answers to the name and frees its chain; NO_SUCH_FILE exactly when none answers |
| FatOps.DeletedLookups | Kernel/fs/fat32.c:1556-1641 | afterwards the name finds nothing in that directory unless shared, other names and directories find what they found before |
| FatOps.VictimCase | Kernel/fs/fat32.c:1599-1600 | deleting a name in any case takes the same entry |
| FatMkdir.CreateDirectoryIn | Kernel/fs/fat32.c:1683-1759 | a new directory holding only its dot entries, on a cluster of its own; a full disk restores the FAT |
| FatMkdir.DotsName | Kernel/fs/fat32.c:1702-1722 | the two dot entries name the new cluster and the parent |
| FatMkdir.NewDirLeads | Kernel/fs/fat32.c:1702-1722 | the first two slots of a directory just made lead to itself and to its parent |
| FatMkdir.GetFreeSize | Kernel/fs/fat32.c:1766-1777 | the number of free clusters of the table, in bytes |
| FatMkdir.WriteThenDelete | Kernel/fs/fat32.c:1334-1641 | writing a new file into a directory that did not grow and deleting it restores the FAT and the free size |
| FatMkdir.DeleteTakesNew | Kernel/fs/fat32.c:1599-1640 | deleting by the name just written takes the new entry if and only if it answers to its own name and no earlier entry does |
| FatMkdir.AnswersItself | Kernel/fs/fat32.c:1035-1154 | an entry answers to its own name unless that is an 8.3 name ending in a dot |
| FatPaths.LookupLimited | Kernel/fs/fat32.c:482-500 | looking only at the first 64 listed entries |
| FatPaths.WalkNeverReturns | Kernel/fs/fat32.c:456-518 | the walk along a path never comes back to a directory it has been in, so the directories form a tree |
| FatPaths.WalkLands | Kernel/fs/fat32.c:456-518 | a walk ends at a directory of the volume, at the chain of a file, or nowhere |
| FatPaths.WayKept | Kernel/fs/fat32.c:456-518 | editing a directory does not change the way to it |
| FatPaths.TargetMet | Kernel/fs/fat32.c:456-518 | a walk that ends at the chain of an entry has looked that entry up |
| FatPaths.OtherPathsKept | Kernel/fs/fat32.c:1334-1641 | every path that does not go through the changed name leads where it led before |
| FatPaths.WriteKeepsOthers | Kernel/fs/fat32.c:1334-1553 | after a write every path that does not go through the written name leads where it led, and a file there has the chain and the bytes it had |
| FatPaths.DeleteKeepsOthers | Kernel/fs/fat32.c:1556-1641 | the same after a deletion |
| FatPaths.ReadAfterWrite | Kernel/fs/fat32.c:1334-1553 | the written path leads to the new file, which reads as the data if and only if the data is empty or the rounding sum fits 32 bits |
| FatApi.OpenPath | Kernel/fs/fat32.c:456-518 | succeeds exactly when the walk over the components leads somewhere, and leaves the first cluster, size and kind of what it leads to |
| FatApi.NextComponent | Kernel/fs/fat32.c:470-480 | cuts off the next component of the path |
| FatApi.SplitComps | Kernel/fs/fat32.c:1342-1357 | splitting at the last slash splits off the last component |
| FatApi.SplitPath | Kernel/fs/fat32.c:1338-1359 | the parent and the last component of the path; refuses a path without one |
| FatApi.OpenParent | Kernel/fs/fat32.c:1361-1378 | what the driver takes for the parent directory is the cluster of whatever the path leads to, and it is a directory of the volume if and only if the path is not stray |
| FatApi.MissingParent | Kernel/fs/fat32.c:1654-1668 | below a file every path leads to the file, so a new directory is never made there |
| FatApi.ReadWhole | Kernel/fs/fat32.c:456-706 | open and read gives the bytes of the file the path names |
| FatApi.ReadFileAt | Kernel/fs/fat32.c:715-773 | by path: the 32-bit outcome of the read at an offset, END_OF_FILE for directories and empty files |
| FatApi.WriteFile | Kernel/fs/fat32.c:1334-1553 | every outcome by path, for every parent: which status when; with a directory as parent and a visible entry the well-formed volume that holds the data, every other chain and its bytes kept; a full disk with a new name restores the FAT; an invisible entry, one that ran over, and a parent that is a file are told apart |
| FatApi.ReadBack | Kernel/fs/fat32.c:1334-1553 | write then read of one path gives the data, for a visible entry in a directory of at most 64 entries, if and only if the data is empty or the rounding sum fits |
| FatApi.DeleteFile | Kernel/fs/fat32.c:1556-1641 | every outcome by path, for every parent; on success the entry and its chain are gone, the table is the old one without that chain, all other files are kept; below a file it answers NO_SUCH_FILE exactly when nothing in the file answers to the name |
| FatApi.CreateDirectory | Kernel/fs/fat32.c:1643-1759 | every outcome by path; an existing path is left alone, a full disk restores the FAT, a visible entry leads to a directory of its own, one that is not contained ran over its cluster |
| FatEffects.WriteThenReadOther | Kernel/fs/fat32.c:1334-1553 | writing one path and reading another that does not go through the written name gives the status and the bytes from before |
| FatEffects.DeleteThenReadOther | Kernel/fs/fat32.c:1556-1641 | the same for deleting one path and reading another |
| FatEffects.WriteThenDeletePath | Kernel/fs/fat32.c:1334-1641 | writes a new file and deletes the same path: if the deletion takes the new entry, the table and the free size are as before if and only if the directory did not grow; if it takes another entry or none, the table is not; and the free size in bytes for every case |
| FatEffects.RestoredWhen | Kernel/fs/fat32.c:1556-1641 | the table is as before both calls if and only if the directory did not grow and the chain that went is the one just made |
| FatEffects.TakesNew | Kernel/fs/fat32.c:1599-1640 | deletion takes the new entry if and only if the name is no 8.3 name ending in a dot and no entry in front of it answers to the name |
| FatEffects.GoneSpace | Kernel/fs/fat32.c:1599-1601 | a deletion gives back exactly the clusters of one chain of the volume |
| FatStray.HeadIsDirectory | Kernel/fs/fat32.c:493-510 | the cluster a path opens is a directory of the volume if and only if the path leads to a directory, or to an empty file where the root has the number 0 |
| FatStray.WriteBelowFile | Kernel/fs/fat32.c:1380-1553 | with a file taken for the parent, a write that succeeds has changed the chain or the bytes of that file; it is refused or replaces bytes exactly when something in the data passes for an entry of the name |
| FatStray.DeleteBelowFile | Kernel/fs/fat32.c:1599-1600 | with a file taken for the parent, nothing is found exactly when nothing in its data answers to the name |
| FatStray.FreeFound | Kernel/fs/fat32.c:1601-1601 | freeing the chain a slot inside a file names leaves no well-formed volume when that is the chain of a file |
| FatStray.SlotHarms | Kernel/fs/fat32.c:1264-1332 | one slot stored into the data of a file changes the bytes of the file |
| FatStray.GrownHarms | Kernel/fs/fat32.c:1235-1262 | a cluster linked behind a file changes the chain of the file |
| FatStray.SpillHits | Kernel/fs/fat32.c:1321-1328 | an entry that runs out of a cluster of one sector stands in the first slots of whoever owns the next cluster |
| FatOddNames.GoodNames | Kernel/fs/fat32.c:775-804 | the names set aside are exactly the ones that start with byte 0xE5 and those of one, two and three dots |
| FatOddNames.FoundAgain | Kernel/fs/fat32.c:1400-1454 | an entry just written, of any name, is found again by its 8.3 form if and only if its name does not start with byte 0xE5 |
| FatOddNames.WriteAndLook | Kernel/fs/fat32.c:1400-1544 | the same for the imperative code: writing an entry of any new name and scanning for it |
| FatOddNames.GoneNeverFound | Kernel/fs/fat32.c:1400-1410 | no scan finds a name that starts with byte 0xE5, so that writing it again makes a second entry |
| FatOddNames.StaysUnlisted | Kernel/fs/fat32.c:626-632 | an entry whose name starts with byte 0xE5 changes no listing, so no path leads to it |
| FatOddNames.DotsCollide | Kernel/fs/fat32.c:1400-1462 | below the root the names ".." and "..." are taken for the dot entries, and writing them is refused |
| FatOddNames.OwnNameMatches | Kernel/fs/fat32.c:486-500 | when a path is opened a listed entry matches its own name unless that is ".." |
| PathNames.SameComponents | Kernel/fs/fat32.c:470-480 | the driver splits a path into the components the resolver finds once every backslash is a slash |
| PathNames.SysNames | Kernel/arch/syscall.c:117-191 | what SysResolvePath writes has at most 32 components, none of them empty, "." or "..", and is a text of non-zero bytes when its inputs are |
| PathNames.ResolvedIsClean | Kernel/arch/syscall.c:117-191 | of the names set aside only three dots and a first byte 0xE5 are left in a resolved path; without them it meets what the operations by path ask for |
| FatCursor.Descriptors.Open | Kernel/arch/syscall.c:815-850 | the lowest free descriptor at position 0, or a refusal that changes nothing |
| FatCursor.Descriptors.Read | Kernel/arch/syscall.c:851-877 | delivers the bytes of the file from the position on, as many as asked for or left, and advances by that many |
| FatCursor.Descriptors.Lseek | Kernel/arch/syscall.c:878-898 | moves the position to the clamped target and nothing else |
| FatCursor.Descriptors.CloseFd | Kernel/arch/syscall.c:899-909 | frees that descriptor and no other |
| FatCursor.SeekIsClamped | Kernel/arch/syscall.c:878-898 | the seek is the clamped sum if and only if the 64-bit sum does not overflow or the file is empty |
| FatCursor.SeekLeads | Kernel/arch/syscall.c:878-898 | seeking by nothing stays, or gets to the end; by an offset, that far from the start, the position or the end, inside the file |
| FatCursor.SeeksAndReads | Kernel/arch/syscall.c:851-898 | at the end reads deliver nothing, a read taken back by a seek delivers the same again, a seek back from the end leaves the last bytes |
| FatCursor.ReadsJoin | Kernel/arch/syscall.c:851-877 | consecutive reads of any sizes deliver one contiguous piece of the file |
| FatCursor.RunSplits | Kernel/arch/syscall.c:851-898 | a run of reads and seeks may be cut anywhere: positions and bytes compose |
| FatCursor.RewindReadsAll | Kernel/arch/syscall.c:851-898 | after any run, seeking to the start and reading at least the size delivers the whole file |
| FatExamples.ReadsPastTheEnd | Kernel/fs/fat32.c:725-726 | a concrete read whose end wraps round 2^32 and which returns bytes behind the file |
| FatExamples.SizeWithoutClusters | Kernel/fs/fat32.c:1474-1475 | a size for which no cluster is allocated |
| FatExamples.DottedNameLost | Kernel/fs/fat32.c:1035-1154 | a file that cannot be deleted by the name it was created with |
| FatExamples.DeletedInAnyCase | Kernel/fs/fat32.c:1119-1128 | a file with a concrete 8.3 name is deleted by the name in small letters |
| FatExamples.LeftoverHides | Kernel/fs/fat32.c:1202-1209 | whenever the first cluster of a directory ends in too few 0x00 slots, the new entry goes behind them and is not found again |
| FatExamples.HiddenFile | Kernel/fs/fat32.c:1202-1209 | a concrete directory in which this happens |
| FatExamples.NoGroupHolds | Kernel/fs/fat32.c:1156-1233 | a name that needs more slots than a group has always makes the directory grow |
| FatExamples.LongNameSpills | Kernel/fs/fat32.c:1321-1328 | with clusters of one sector, every new name of 196 bytes or more runs out of its cluster, outside the fixed root |
| FatExamples.FileAsDirectory | Kernel/fs/fat32.c:1361-1378 | a concrete path whose parent is a file that is taken for a directory |
| Pmm.PageAllocator.constructor | Kernel/mm/pmm.c:36-105 | after start-up the free pages are exactly the usable ones that are neither reserved nor page 0, and the count matches |
| Pmm.PageAllocator.AllocPage | Kernel/mm/pmm.c:107-118 | the lowest free page, now used; 0 exactly when none is free |
| Pmm.PageAllocator.AllocPages | Kernel/mm/pmm.c:133-160 | the lowest run of the asked length, now used; 0 exactly when there is none |
| Pmm.PageAllocator.FreePage | Kernel/mm/pmm.c:162-177 | frees a used, unpinned, tracked page and ignores every other number |
| Pmm.PageAllocator.PinPage | Kernel/mm/pmm.c:179-184 | pins that page and changes no other bit |
| Pmm.PinnedForever | Kernel/mm/pmm.c:162-184 | over any run of calls, a page pinned while allocated is never handed out again |
| Pmm.ZeroNeverHandedOut | Kernel/mm/pmm.c:107-118 | over any run of calls page 0 is never handed out, so the answer 0 always means none |
| Pmm.ReleaseAllIs | Kernel/mm/pmm.c:162-190 | releasing distinct releasable pages frees exactly them and lowers the count by their number |
| PageTables.PathsDiffer | Kernel/mm/vmm.c:96-109 | different 48-bit pages have different index paths |
| PageTables.ReachRole | Kernel/mm/vmm.c:72-94 | the table a walk ends at belongs to the space and the path of that walk alone |
| PageTables.LeafWritten | Kernel/mm/vmm.c:96-139 | writing one entry of a last-level table changes exactly the translations that use it |
| PageTables.PrivateEntry | Kernel/mm/vmm.c:165-205 | one entry below top slot 256 serves a single page of a single space |
| PageTables.SharedReach | Kernel/mm/vmm.c:165-205 | in the kernel half, a space that shares the slot walks the kernel's own tables |
| PageTables.KernelSeenEverywhere | Kernel/mm/vmm.c:165-205 | a kernel mapping under a slot present at creation is seen identically in every space |
| PageTables.SpaceOpened | Kernel/mm/vmm.c:165-205 | a new top table is a new space: empty below slot 256, the kernel's above, all other spaces unchanged |
| PageTables.SpaceDropped | Kernel/proc/process.c:205-264 | forgetting a space keeps the ownership of all others |
| Vmm.AddressSpaces.constructor | Kernel/mm/vmm.c:22-36 | the kernel space, empty, its top table pinned |
| Vmm.AddressSpaces.GetNextLevel | Kernel/mm/vmm.c:72-94 | the table below an entry, made on a fresh zeroed frame when absent; for user mappings the entry then lets user code pass, otherwise no entry in use changes; 0 and nothing changed when no frame is left |
| Vmm.AddressSpaces.TableFor | Kernel/mm/vmm.c:96-104 | the last-level table for a page; making it changes no translation in any space |
| Vmm.AddressSpaces.MapPage | Kernel/mm/vmm.c:96-109 | the page, in every space that sees its entry, leads to the frame, all other translations are unchanged; mapped for the user, user code gets to it; every new table hangs on a writable entry that is open to user code exactly for user mappings; out of frames, no translation changes |
| Vmm.EntryWords | Kernel/mm/vmm.c:84-107 | the words written are the physical address with the flags: those of the call for a page, 3 or for user mappings 7 for a table |
| PageTables.UserWalkKept | Kernel/mm/vmm.c:72-109 | a page user code can use stays so while its own entry stays |
| PageTables.WaysTwice | Kernel/mm/vmm.c:72-109 | ways stay open, and new tables hang as the mapping asked, over any calls of one kind |
| Vmm.AddressSpaces.UnmapPage | Kernel/mm/vmm.c:117-139 | returns the frame, removes exactly this page from the spaces that see its entry; an unmapped page changes nothing |
| Vmm.AddressSpaces.GetPhysical | Kernel/mm/vmm.c:147-163 | frame address plus offset for a mapped page, 0 otherwise |
| Vmm.AddressSpaces.MapIdentity | Kernel/mm/vmm.c:184-202 | pages mapped to themselves; every other page of every space as before |
| Vmm.AddressSpaces.CreateAddressSpace | Kernel/mm/vmm.c:165-205 | a space that holds nothing but identity mappings below slot 256, none of them open to user code and those of the frame buffer and the devices not executable, and the kernel's mappings above; no other space changes; without frames nothing changes at all |
| Vmm.OnePageSet | Kernel/mm/vmm.c:96-139 | setting one entry sets one page for exactly the spaces that see it |
| Vmm.AddressSpaces.MapLowRanges | Kernel/mm/vmm.c:184-202 | the identity mappings of a new space below slot 256, and nothing else of any space |
| Spaces.IsolatedRun | Kernel/mm/vmm.c:72-205 | over any run of creations, maps, unmaps and teardowns a translation below slot 256 changes only by a call on that space and page |
| Spaces.UserRun | Kernel/mm/vmm.c:72-205 | over any run, a page user code could use stays usable until a call on that page of that space |
| Spaces.KernelRun | Kernel/mm/vmm.c:165-205 | a kernel mapping under a slot a space has is seen there as the kernel sees it for as long as the space lives |
| Spaces.CreatedSees | Kernel/mm/vmm.c:165-205 | a space made in a run has every slot the kernel had then |
| Spaces.SetKeeps | Kernel/mm/vmm.c:96-139 | mapping a frame nobody owns, or unmapping, keeps it so that each owned frame belongs to one page of one space |
| Spaces.FreedKeeps | Kernel/proc/process.c:205-264 | tearing a space down keeps that too, and no other space still leads to a page that was given back, other than by mapping it to itself |
| Spaces.ExclusiveIsOwned | Kernel/proc/process.c:205-264 | this ownership is all the teardown asks of the leaves it frees |
| Spaces.StartsExclusive | Kernel/mm/vmm.c:22-36 | at start-up nothing is owned |
| Spaces.NewSpace | Kernel/mm/vmm.c:165-205 | creation is a step of such a run and keeps ownership exclusive |
| Spaces.Map | Kernel/mm/vmm.c:96-109 | one mapping call is a step, and keeps ownership exclusive when the frame may be mapped there |
| Spaces.MapFresh | Kernel/arch/syscall.c:321-325 | mapping a page on a frame just allocated is a step, keeps ownership exclusive without any condition, and opens the page to user code |
| Spaces.Unmap | Kernel/mm/vmm.c:117-139 | unmapping is a step and keeps ownership exclusive |
| Spaces.EndSpace | Kernel/proc/process.c:205-298 | teardown is a step that gives back exactly the frames of the space, keeps ownership exclusive, and leaves nobody a way to them |
| Spaces.OtherPage | Kernel/mm/vmm.c:96-139 | a call on one page number leaves every other page number of the space alone |
| Teardown.ItemsAre | Kernel/proc/process.c:205-264 | the nested loops give back a page at a path if and only if it is a table or an owned leaf at that path |
| Teardown.ItemsDistinct | Kernel/proc/process.c:205-264 | no path is visited twice |
| Teardown.AllItems | Kernel/proc/process.c:205-264 | the pages given back are distinct and releasable and are exactly the private tables and owned leaves |
| Teardown.GivenBackIs | Kernel/proc/process.c:205-264 | in terms of the space: every table but a pointer table with an entry in its upper half, and every frame in memory a lower-half page leads to unless it is that page's own number or the entry has high bits |
| Teardown.FreeAddressSpace | Kernel/proc/process.c:205-264 | frees each of those pages exactly once and nothing else; the current space and 0 are left alone |
| Teardown.PinKernelPageTables | Kernel/mm/vmm.c:210-237 | pins exactly the tables of the kernel half and the top table |
| Sched.BootOk | Kernel/main.c:141-149 | the state at start-up, with any stale has_saved_frame flag of the current thread, is good |
| Sched.StepKeeps | Kernel/arch/syscall.c:605-740 | every enabled step keeps the invariant, and only the thread a step is about can have its frame changed or end |
| Sched.RunKeeps | Kernel/arch/syscall.c:230-1022 | in every reachable state each live thread has its frame in exactly one place, and each blocked one sleeps until a tick or waits for a listed, live process, never both |
| Sched.TickKeeps | Kernel/arch/pit.c:49-114 | a timer tick changes nobody's frame whoever it switches to |
| Sched.ExecKeeps | Kernel/arch/syscall.c:605-712 | the parent's frame is kept except that rax is the child's pid |
| Sched.SleepKeeps | Kernel/arch/syscall.c:713-740 | sleeping changes no frame, whether the thread parks or goes on |
| Sched.WaitPidKeeps | Kernel/arch/syscall.c:950-1022 | answered at once, or parked with its frame as it was |
| Sched.HltKeeps | Kernel/arch/syscall.c:972-995 | the waiting loop hands the CPU on or resumes its own thread |
| Sched.ExitKeeps | Kernel/arch/syscall.c:230-274 | the process ends, its waiters become ready, everybody else keeps the frame |
| Sched.ReapOk | Kernel/proc/process.c:266-298 | reaping takes terminated processes off the list and no others |
| Sched.NextIsFirst | Kernel/proc/process.c:188-203 | the thread handed the CPU stands before every other runnable one on the list |
| Sched.TickSwitches | Kernel/arch/pit.c:79-114 | a tick takes the CPU from the running thread exactly when another can run after the wakeups; that one gets its frame back, and the first one waits, ready, with its own |
| Sched.ChildStarts | Kernel/arch/syscall.c:655-701 | the child runs in user mode at its entry point and on its stack with interrupts on, and the parent waits for it |
| Sched.WaitParks | Kernel/arch/syscall.c:950-1022 | waiting for a live process waits for that process |
| Sched.WaitReaps | Kernel/arch/syscall.c:950-966 | waiting for an ended process answers 0 and leaves no ended process on the list |
| Sched.HltGoesOn | Kernel/arch/syscall.c:972-995 | the waiting loop hands the CPU on as soon as another thread can run |
| Sched.ExitGoesOn | Kernel/arch/syscall.c:230-274 | when a process ends another thread goes on if any can, else the machine halts |
| Sched.FrameComesBack | Kernel/arch/syscall.c:230-1022 | over any run, a descheduled thread gets back exactly the frame it lost |
| Sched.SleeperStep | Kernel/arch/pit.c:57-77 | no step but the tick that reaches its time touches a sleeper, and that tick makes it ready |
| Sched.SleepsUntilDue | Kernel/arch/pit.c:57-77 | over any run a sleeper is not ready before its tick and is ready after the first tick at or past it |
| Sched.SleepParks | Kernel/arch/syscall.c:713-740 | the thread parks if and only if another can run, for the number of 10 ms ticks in the milliseconds asked for, at least one; otherwise it goes on at once |
| Sched.SleepLasts | Kernel/arch/syscall.c:713-740 | from the call on: asleep through every run of fewer ticks than the milliseconds make, ready after the last of them |
| Sched.WaiterStep | Kernel/arch/syscall.c:230-1022 | a waiting thread is left alone by every step but the end of the process it waits for, which makes it ready |
| Sched.WaitsForEnd | Kernel/arch/syscall.c:230-1022 | over any run, a thread waits for a process as long as that lives and is ready when it ends |
| Sched.SelfWait | Kernel/arch/syscall.c:950-1022 | a process that waits for itself never runs again |
| Kernel.Machine.PitIrqHandler | Kernel/arch/pit.c:49-114 | the imperative handler takes the state to the one the specification gives for a tick |
| Kernel.Machine.WakeThreads | Kernel/arch/pit.c:57-77 | the wakeup scan gives every thread the state the specification gives it |
| Kernel.Machine.CleanupTerminated | Kernel/proc/process.c:266-298 | the list without its terminated processes |
| Kernel.Machine.ScheduleNext | Kernel/proc/process.c:188-203 | the first ready thread of the list other than the current one |
| Kernel.Machine.Find | Kernel/proc/process.c:169-176 | finds a process exactly when it is listed |
| Kernel.Machine.SysExec | Kernel/arch/syscall.c:605-712 | the new state is the specified one, for each answer of the loader |
| Kernel.Machine.SysSleep | Kernel/arch/syscall.c:713-740 | the new state is the specified one |
| Kernel.Machine.SysWaitPid | Kernel/arch/syscall.c:950-1022 | the new state is the specified one, up to the first HLT of the loop |
| Kernel.Machine.WaitLoop | Kernel/arch/syscall.c:972-995 | from one HLT to the next, as specified |
| Kernel.Machine.SysExit | Kernel/arch/syscall.c:230-274 | the new state is the specified one; with nobody ready the machine is halted |
| Kernel.Machine.ReleaseWaiters | Kernel/arch/syscall.c:240-250 | makes exactly the blocked waiters of the ended process ready |
| Heap.TakenOk | Kernel/mm/heap.c:60-74 | splitting and taking a block keeps the blocks disjoint and the sum of headers and sizes, and adds exactly one live block of at least the size |
| Heap.FreedOk | Kernel/mm/heap.c:76-132 | freeing and coalescing keeps the blocks disjoint and the sum, and ends exactly the freed block |
| Heap.FreedIntoOne | Kernel/mm/heap.c:76-93 | in place of the freed block and of each list neighbour that was free and lay against it there is one free block over all their bytes |
| Heap.FreedSeamless | Kernel/mm/heap.c:76-132 | freeing leaves no two free blocks side by side on the list if there were none |
| Heap.TakenIsCut | Kernel/mm/heap.c:60-74 | what is taken is no larger than it has to be, and what is over and can hold a block stays free behind it |
| Heap.TakenSeamless | Kernel/mm/heap.c:60-74 | taking leaves no two free blocks side by side if there were none |
| Heap.ExtendedSeamless | Kernel/mm/heap.c:24-48 | growing does, exactly when the new pages lie against a free last block |
| Heap.PagesAreLeast | Kernel/mm/heap.c:24-26 | the pages asked for are the fewest that hold the header and the bytes |
| Heap.ExtendedOk | Kernel/mm/heap.c:24-48 | growing adds the bytes of the pages to the total and changes no live block |
| Heap.RoundedIs | Kernel/mm/heap.c:97-98 | the rounded size is at least the size, unless the sum wraps to nothing |
| Heap.EnoughBytes | Kernel/mm/heap.c:95-116 | an allocation holds the requested bytes if and only if the request is at most 2^64 - 16 |
| Heap.HugeRequest | Kernel/mm/heap.c:97-98 | a request that is rounded to nothing |
| Heap.NothingThatBig | Kernel/mm/heap.c:95-116 | no block of the address space holds a request whose page sum wraps |
| Heap.EndlessRequest | Kernel/mm/heap.c:24-27 | a request that takes page after page |
| Heap.HeadersBesidePayloads | Kernel/mm/heap.c:24-132 | headers written inside a list of disjoint blocks overlap no payload of the list |
| Heap.InsertSpelled | Kernel/mm/heap.c:60-74 | linking a block in keeps the doubly linked list the spelling of the block list |
| Heap.RemoveSpelled | Kernel/mm/heap.c:76-93 | linking a block out keeps it too |
| Heap.KernelHeap.HeapExpand | Kernel/mm/heap.c:24-48 | the block list extended by the granted pages, no live payload written to; unchanged when none are granted |
| Heap.KernelHeap.TakeBlock | Kernel/mm/heap.c:60-74 | the block taken and its rest split off, no live payload written to |
| Heap.KernelHeap.KmAlloc | Kernel/mm/heap.c:95-116 | one more live block, from the first free block that is large enough and no larger than it has to be, disjoint from all others, no live payload written to, counters exact; at most one growth if the page sum does not wrap, and otherwise every grant is taken and the request is never met |
| Heap.KernelHeap.Coalesce | Kernel/mm/heap.c:76-93 | both neighbours joined when free and adjacent, live blocks unchanged |
| Heap.KernelHeap.KmFree | Kernel/mm/heap.c:118-132 | exactly that block stops being live and lies in one free block with its free neighbours, counters exact, no live payload written to; a free block is refused |
| Tcp.ConnectInStep | Kernel/net/tcp.c:361-373 | the handshake puts the socket in step with the empty prefix of the stream |
| Tcp.SegmentInStep | Kernel/net/tcp.c:375-401 | one piece of the stream, whenever it comes, keeps the socket in step |
| Tcp.RecvInStep | Kernel/net/tcp.c:264-312 | reading moves bytes from the buffer to the reader and nothing is lost or repeated |
| Tcp.StreamPrefix | Kernel/net/tcp.c:264-445 | over any arrivals, lost, doubled or reordered, mixed with reads: what was read and then the buffer is the prefix of the stream up to the expected number, and the buffer stays within 4096 bytes |
| Tcp.AcksAreTrue | Kernel/net/tcp.c:381-406 | the numbers acknowledged before any FIN are those of the bytes taken |
| Tcp.AckedAtOnce | Kernel/net/tcp.c:400-406 | every segment of an open connection is acknowledged, the last time with the number expected next; a FIN once more, one number on |
| Tcp.PieceAcked | Kernel/net/tcp.c:381-401 | the first acknowledgement of a piece of the stream is for all bytes the socket has then |
| Tcp.ElseSilent | Kernel/net/tcp.c:361-373 | a completed handshake is answered with the number of the first stream byte, and nothing else is answered in the other states |
| Tcp.NextIsTaken | Kernel/net/tcp.c:381-391 | the segment that comes next is taken as far as the buffer has room, any other brings nothing |
| Tcp.ReadGets | Kernel/net/tcp.c:264-312 | a read gets the first bytes of the buffer, as many as asked for or there, and leaves the rest |
| Tcp.AckTaken | Kernel/net/tcp.c:393-398 | an acknowledgement acceptable by RFC 9293, section 3.4, is taken exactly as long as the numbers sent have not wrapped |
| Tcp.HalvesClose | Kernel/net/tcp.c:403-445 | the two directions close independently, ours when our FIN is acknowledged and the peer's with its FIN |
| Tcp.FinInOrder | Kernel/net/tcp.c:381-415 | a FIN with any payload, in any open state, leaves the expected number where RFC 9293, section 3.10.7.4, puts it if and only if all bytes before it are there: they were, or its payload is the next one and fits the buffer |
| Tcp.FinSkipsByte | Kernel/net/tcp.c:403-406 | a concrete early FIN that makes the socket skip a byte |
| Tcp.FinCutShort | Kernel/net/tcp.c:382-406 | a FIN behind a payload that a full buffer cuts off skips a byte too |
| Tcp.TcpSocket.HandlePacket | Kernel/net/tcp.c:337-445 | the socket afterwards and the acknowledgements sent are those of the specification |
| Tcp.TcpSocket.TakeData | Kernel/net/tcp.c:381-391 | appends what fits of the next in-order segment |
| Tcp.TcpSocket.Recv | Kernel/net/tcp.c:264-312 | returns the front of the buffer and keeps the rest, moved down in place |
| Sorting.Partition | UserApps/userlib/userlib.c:838-849 | neither scan leaves the range, both sides are non-empty, the left is not above and the right not below one value, and the range is a permutation of what it was |
| Sorting.HoareSort | UserApps/userlib/userlib.c:834-852 | for any total preorder: the range is sorted and a permutation, the rest of the array is untouched, recursion is on strictly smaller parts |
| Sorting.ScanUp | UserApps/userlib/userlib.c:842-842 | stops inside the range at the first element not below the pivot |
| Sorting.ScanDown | UserApps/userlib/userlib.c:843-843 | stops inside the range at the last element not above the pivot |
| Sorting.Swapped | UserApps/userlib/userlib.c:845-849 | a swap with the pivot followed keeps a stopping element on either side |
| Sorting.BothSorted | UserApps/userlib/userlib.c:850-851 | sorting both sides of a partition sorts the whole |
| Sorting.LomutoPartition | DoomPort/micront_crt.c:574-580 | the pivot at its place, nothing above it on the left, nothing below it on the right, a permutation |
| Sorting.LomutoSort | DoomPort/micront_crt.c:572-583 | for any total preorder: sorted, a permutation, the rest untouched |
| Sorting.BinarySearch | DoomPort/micront_crt.c:585-596 | on a sorted array returns an element equal to the key if and only if there is one |
| ResolvePath.SysIsResolve | Kernel/arch/syscall.c:117-191 | within 32 components the kernel's result is the fold if and only if its text is below 224 bytes |
| ResolvePath.UserIsResolve | UserApps/userlib/userlib.c:1377-1457 | within 64 components and for a non-empty path the library's result is the fold if and only if its text is below 224 bytes |
| ResolvePath.Agree | Kernel/arch/syscall.c:117-191 | the two agree if and only if the kernel leaves no slash behind where the text is cut |
| ResolvePath.EmptyPath | UserApps/userlib/userlib.c:1381-1386 | on the empty path the two agree if and only if the working directory is empty or canonical |
| ResolvePath.FoldFromRight | Kernel/arch/syscall.c:150-172 | the fold keeps exactly the names that no later ".." cancels, read from the right |
| ResolvePath.ResolveFromRight | Kernel/arch/syscall.c:150-172 | resolution without a stack: read from the right, each ".." cancels one name |
| ResolvePath.DeepNames | Kernel/arch/syscall.c:150-172 | names beyond the limit of 32 or 64 are dropped, the ones before them kept |
| ResolvePath.FixedPoints | UserApps/userlib/userlib.c:1363-1376 | resolution leaves a path alone if and only if it is canonical |
| ResolvePath.CanonicalIs | UserApps/userlib/userlib.c:1363-1376 | canonical paths, read off the text: single slashes from the root on, none at the end, no name of one or two dots, no backslash |
| ResolvePath.Idempotent | UserApps/userlib/userlib.c:1363-1376 | resolving twice, from anywhere, is resolving once |
| ResolvePath.Composes | UserApps/userlib/userlib.c:1363-1376 | resolving below a resolved directory is resolving the joined path |
| ResolvePath.UserIdempotent | UserApps/userlib/userlib.c:1377-1457 | the library's function applied to its own result changes nothing, cut or not |
| ResolvePath.SysIdempotent | Kernel/arch/syscall.c:117-191 | the kernel's function applied to its own result changes nothing if and only if no slash was left behind |
| ResolvePath.SysComposes | Kernel/arch/syscall.c:741-752 | changing directory and resolving there gives what the joined path gives, within the limits |
| ResolvePath.SysClean | Kernel/arch/syscall.c:741-752 | the result is absolute, holds no backslash and fits every buffer, so the working directory always does |
| ResolvePath.TokensJoin | Kernel/arch/syscall.c:147-160 | the components of two texts joined by a slash are those of the first and then those of the second |
| PathBuffers.SysResolvePath | Kernel/arch/syscall.c:117-191 | the buffer afterwards holds the specified text; a null path gives the empty string |
| PathBuffers.SysSplit | Kernel/arch/syscall.c:143-172 | the strings on the stack, cut out of the line in place, are the bounded fold over its components |
| PathBuffers.SysWrite | Kernel/arch/syscall.c:174-190 | writes the components that fit, inside the buffer |
| PathBuffers.PathResolve | UserApps/userlib/userlib.c:1377-1457 | the buffer afterwards holds the specified text |
| PathBuffers.UserSplit | UserApps/userlib/userlib.c:1408-1435 | the strings on the stack are the bounded fold over the components of the line |
| PathBuffers.UserWrite | UserApps/userlib/userlib.c:1437-1457 | writes the components that fit, inside the buffer |
| PathBuffers.TakeComp | Kernel/arch/syscall.c:150-172 | cutting a component off with a zero leaves the strings already stacked as they are |

## Left out

- Device drivers, boot loader, shell and other user programs, the sound and DOOM glue: register I/O, foreign calls and user interface.
- Disk errors: reading and writing a sector always succeeds, so the driver's error exits after a failed transfer are not reached.
- Fat32Init and its probing of partitions: the geometry is given, with what the arithmetic of the driver needs of it.
- Out of memory inside Fat32OpenPath (its 64-entry buffer) is not modelled.
- FatVolume.Volume.GetFatEntry: the second sector of a straddling FAT12 entry is read into a whole-sector buffer; the driver passes a 2-byte one.
- FatApi.OpenPath: components must be names an entry can hold; FatOddNames says what becomes of the others (first byte 0xE5, and dots only), PathNames which of them SysResolvePath lets through.
- FatApi.WriteFile: two outcomes are a boundary of the model, shown as the status Astray with the disk as it was: below a file some bytes of which pass for an entry of the name, which the driver would overwrite, and below an empty file on FAT32, whose cluster number 0 the driver would turn into a sector outside the data area. Below any other file a success is only stated to damage that file. An entry that ran over its cluster is stated exactly (FatCreate.Spilled), but no later operation on such a volume.
- FatApi.DeleteFile: below a file some bytes of which answer to the name, the next step is stated (FatStray.FreeFound), the erasing of the slots there is not; the status is Astray.
- FatApi.CreateDirectory: its parent directory must list at most 64 entries, which is as far as the existence test of the driver looks; what it writes in a longer one is not stated.
- FatApi.ReadBack: the disk must go on behind the volume when a name needs more slots than a cluster has (FatApi.Spare), so that reading the sector behind the last cluster is no disk error.
- FatEffects.WriteThenReadOther: for a directory of more than 64 entries, where another entry can move out of the part that Fat32OpenPath looks at, nothing is stated about paths through it.
- FatOps.ReplaceFile: on DISK_FULL only the outcome is stated; the volume is then no longer well formed.
- FatOps.NewFile: an entry that lands behind a leftover 0x00 slot is only stated to be invisible; later operations on such a directory are not modelled.
- Volume labels and directories written by other systems: a directory holds live entries, erased slots and dot entries as this driver writes them.
- Time stamps, volume size and the directory handles SYS_FS_OPENDIR to SYS_FS_CLOSEFILE: easy members beside the ones modelled.
- Pmm.PageAllocator.FreePage: the boundary number page == g_pmm_highest_page is not passed in, and addresses are page numbers.
- Pmm.PageAllocator.constructor: the bitmap is one boolean per page; placing the bitmap itself in memory is one of the reserved regions.
- The mapping loops of VmmInit and pages of 2 MiB and 1 GiB: the kernel space starts empty, and no entry in use is huge.
- Vmm.AddressSpaces.MapPage: a user space maps below slot 256 only; in the kernel a map of a missing slot in the kernel half through a user space would make a private table there.
- Vmm.AddressSpaces.UnmapPage: the flush of the TLB is not modelled.
- Spaces.EndSpace: ownership is about pages below slot 256; leaves with bit 63 set are out of reach of the teardown's mask and stay allocated, and a space may still map a page to itself.
- Spaces.Map: a caller that maps a frame it did not just allocate must keep to Spaces.MayMap; SYS_MMAP (Spaces.MapFresh) always does, the mapping of the program image by the loader is not modelled.
- The page-table walk of PsDestroyProcess passes virtual addresses to PmmFreePage; it is not modelled.
- Sched.RunKeeps: syscalls and interrupt handlers are atomic steps, one thread per process, and tick and process numbers do not wrap; fairness is not claimed, with nobody ready the machine halts.
- Stack contents, TSS and CR3 switches and the process image that SYS_EXEC loads: the loader's answer is a parameter.
- Heap.KernelHeap.KmAlloc: payload bytes are not stored; what is stated is that no header is written inside a payload that stays live.
- HeapInit's first growth is an ordinary HeapExpand on the empty heap.
- TCP sending, retransmission, checksums, windows and socket allocation: send_buf is never filled, so there is nothing to retransmit.
- Tcp.StreamPrefix: says nothing after the first FIN, which moves the expected number without looking at the sequence number (Tcp.FinInOrder gives the exact condition for each FIN).
- Tcp.TcpSocket.Recv: the waiting loop with its deadline is not modelled, only the reads that return.
- Sorting.HoareSort: elements are values of a type, not runs of width bytes, and the comparison is a function of the two values.
- PathBuffers.PathResolve: the joined line must fit the 512 bytes of the library's buffer, which the library does not check.
- ResolvePath.Agree: holds while the path is no deeper than 32 components on the way; beyond that the kernel drops components the library keeps.
- User-level library: printf formatting, string functions, malloc.
