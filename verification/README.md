# A verified model of the logger's file system, the OBD gateway and the CAN driver

A data logger writes what it hears on a CAN bus to a file on an SD card. Three of its
parts are modelled here and proved correct in Dafny.

**The FAT16/32 file system** (`firmware/common/fat`) keeps three kinds of state back from
the medium: a list of buffers with sectors of the FAT, one sector of a directory, and one
dirty sector per open file with a note of the last cluster reached. The model has these as
the fields of two classes, `FatTable.Fatfs` and `FileSectors.FlFile`, and methods with the
branches and loops of the C functions. Each layer is proved against something simpler:

| layer | seen as | modules |
|---|---|---|
| media | a sequence of sectors, reads and writes that may fail | BlockDevice, FatAccess |
| FAT buffers | the logical FAT, whatever fails | FatBuffers, FatTable |
| packed FAT | a sequence of entries | FatEntries, FatBytes |
| entries | disjoint, acyclic chains and free entries | ChainDefs, Chains, FatChain, FatSpace, ChainHeap |
| clusters | addresses that do not collide | Geometry, FileLayout |
| open file | a sequence of bytes with a position | FileSpec, FileContent, FileSectors, FileLib, FileWrite, FileRead, FileHandle |
| directory | records, searched by name | DirRecords, DirBytes, LfnBuffers, Names, DirSearch, ShortLookup, DirLayout, DirAccess, DirShort, DirUpdate |
| new entries | a splice into records nobody needs | DirInsert, DirSpace, DirRoom, DirWrite, ShortNames |
| open, close, create, remove | files at rest on the medium | FileState, FileOpen, FileClose, FileModes, FileCreate, FileRemove, Sessions, AppendSessions, EditSessions, EndToEnd, OtherFiles |
| formatting, mounting | an empty volume, perhaps in a partition | Format, FormatMount, FormatMedia, FreshVolume, Partitions |
| a whole directory | a map from names to bytes | FilesByName, ClusterCounts, VolumeRuns, Budget |

The main results speak about the medium alone. `DiskReader` defines a reader with no buffers
at all: it decodes the FAT from the sectors, follows it from the directory, searches the
records and cuts the data to the recorded size. `EndToEnd.AppendTo` says what this reader
finds after any number of append sessions on one file, and `OtherFiles` what it finds under
other names. `FilesByName` puts the two together: a directory is a map from names to bytes,
and appending and removing change it at the name operated on and nowhere else.
`VolumeRuns.RunChanges` proves this for every sequence of such changes, and
`FreshVolume.RunFromScratch` starts it from an unformatted medium. Along every run each file has
exactly the clusters its length needs, and no cluster is lost. `EditSessions.Edit` gives one open
file back everything else: reads, writes, flushes and seeks in any order are answered as by a
sequence of bytes with a position, and after fl_fclose the medium has that sequence.

Where the code falls short of what it is for, the exact condition is proved, with an input
that shows the failure. `FailingCards` has the larger ones: whole FATs of volumes as they are
formatted, and three cards that the code mounts and on which the calls are then made:

| what | exactly when | an input |
|---|---|---|
| a name can be found again | `DirInsert.NewFoundExactly` | `DirInsert.PaddingIsLost` |
| a size is mounted as it was formatted | `FormatMount.FormatThenMount` | in the same lemma |
| the free count agrees with the allocator | `FatEntries.ZeroCountIsFreeCount` | `FailingCards.ReservedBitsHideFree` |
| the FAT16 root stays clear of the data | `Geometry.RootMeetsData` | `FormatMount.RootOfEight` |
| a full FAT16 root fails without damage | `DirRoom.FindFreeDirOffset` | `FailingCards.RootDamage` |
| the allocator stays on the volume | `FileSpec.OffersSlack` | `FailingCards.SlackOffered` |
| what fl_fwrite reports as written is written | `FileWrite.Write` | `FailingCards.WriteWhenFull` |
| a seek keeps what was written | `FileRead.Seek` | `FailingCards.SeekLosesByte` |
| a short name alone can be looked up | `ShortLookup.ShortFoundExactly` | in the same lemma |
| a removed name is gone | `FileRemove.RemovedIsGone` | `DirShort.SecondAnswers` |

**The receive path of the gateway** (`firmware/obd-gateway`) is a ring buffer filled by an
interrupt, a frame parser and, as its counterpart, the encoder of the simulator. `Gateway`
cuts the main loop into steps between which the interrupt may come, down to the moment
where the tail has moved and the byte is still to be read. `RingBuffer`, `HobdProtocol`,
`HobdParser` and `Obd` have the code itself.

**The CAN driver** (`firmware/avrcan-at90can128`, `firmware/can-sd-logger`) hands out 15
mailboxes to descriptors and searches for a bit timing. In `CanMobs` and `CanBus` the
controller is a sequence of answers, any at all; in `BitTiming` it is the outcome of each
trial.

What the lowest functions of the model do is said a second time in plain bytes, so that the
layers above do not rest on a shared misreading: `Partitions` for the partition table and the
boot sector, `FatEntries.EntryMeans` and `FatBytes` for the entries of the FAT, `DirBytes` for
directory records, `Names.NamesMatch` for names, `CanMobs.StatusIs` for the status register.

How to read the contracts: `Valid`, `Buffered`, `OpenAs`, `AtRest` and `Sound` are the invariants
of the layers; a ghost `Desk` is what there is to know about a file and its directory, a `Stage`
that together with FAT and sectors, and a `Vol` a directory with all its files. `media.Reliable()`
means that no read or write fails. `Grown` and `Evolved` are what growing a chain and
writing a file may do to the rest of the volume. `NoSlack` says that the FAT has no free entry
behind those of the data area.

Assumptions, beside those in the contracts: a FAT buffer holds one sector, as configured
(`firmware/common/fat/include/fat_opts.h:28-30`), but there may be any number of buffers; the
cluster cache is compiled out (`firmware/common/fat/include/fat_opts.h:41`). The disk format
is that of Microsoft's FAT32 File System Specification, version 1.03.

## Model

| member | source | states |
|---|---|---|
| FreshVolume.RunFromScratch | firmware/common/fat/src/fat_filelib.c:655-1442 | a blank medium, formatted and mounted, on which files are stored and removed in any order, under any names that can be stored: going by the medium alone, boot sector included, the root directory is then the map from names to bytes that the same changes make of the empty map, and each fl_remove has failed exactly if there was no such file; each file has just the clusters it needs, and those of the files, of the directory and the free ones are together all there are; asked for is only that the changes, added up, do not need more bytes, clusters and records than a fresh volume has |
| FreshVolume.FromScratch | firmware/common/fat/src/fat_filelib.c:655-960 | the same for append sessions under one name, with room asked for to the exact sector |
| VolumeRuns.RunChanges | firmware/common/fat/src/fat_filelib.c:690-1442 | from any well-formed directory: any sequence of append sessions and removals for which there is room at each step leaves the medium the map the same changes make of the map it was; no two files share a cluster before or after, the sectors in front of the FAT stay, free clusters plus clusters in chains are as many as before, and files that had just enough clusters still do |
| VolumeRuns.Perform | firmware/common/fat/src/fat_filelib.c:690-1442 | the same for one change, together with its result |
| FilesByName.ChangeKeeps | firmware/common/fat/src/fat_filelib.c:690-1442 | what a change does to FAT, sectors and directory keeps every live record the one its name finds, every file at its record with its bytes, all chains well formed and pairwise disjoint, and changes the map at the operated name alone |
| FilesByName.NoneBehind | firmware/common/fat/src/fat_access.c:407-507 | where each live record is found by a name of its own, no later record answers to a name that finds one, so that a removed name is gone |
| FilesByName.ReadsMap | firmware/common/fat/src/fat_access.c:407-507 | a reader of the medium finds exactly the files of the map and their bytes |
| Budget.AffordsRun | firmware/common/fat/src/fat_write.c:45-262 | names, sizes, free clusters and never-used records, checked once before a run, are enough for every change of it to find room, whatever is removed in between |
| ClusterCounts.ChangeCounts | firmware/common/fat/src/fat_filelib.c:690-1442 | a change leaves the number of free clusters plus those of all files and of the directory as it was, and if each file had exactly the clusters its length needs, each still has |
| EndToEnd.AppendTo | firmware/common/fat/src/fat_filelib.c:690-960 | after any number of append sessions on a name, each a mix of writes and flushes and then a close, an independent reader of the medium finds what it found before followed by everything written, in order, and the file has the clusters it had, or one if new, or just as many as its length needs |
| EndToEnd.ExactClusters | firmware/common/fat/src/fat_filelib.c:867-875 | to have grown from one cluster by no more than needed means to have the length divided by the cluster size, rounded up, and at least one |
| OtherFiles.OtherFileReads | firmware/common/fat/src/fat_filelib.c:816-889 | after such a run the reader finds exactly the old contents of every other file in the directory |
| OtherFiles.OutcomeKeepsOther | firmware/common/fat/src/fat_filelib.c:816-889 | the chain of another file stays a chain, apart from the directory and the written file, and its sectors keep their bytes |
| OtherFiles.OtherNameKept | firmware/common/fat/src/fat_write.c:266-372 | every other name is found where it was, at a record that is unchanged, or not at all as before |
| OtherFiles.OtherReadsAfterRemoval | firmware/common/fat/src/fat_filelib.c:1413-1442 | after removing a file the reader finds exactly the old contents of every other file in the directory |
| ChainHeap.RunKeeps | firmware/common/fat/src/fat_table.c:288-440 | over every run of starting, extending and freeing chains: chains stay well formed and pairwise disjoint, no entry of a chain is free, and free entries plus clusters in chains is constant |
| FatTable.Fatfs.Locate | firmware/common/fat/src/fat_table.c:118-155 | returns the buffer with the sector or, if there is none, the last of the list; either way the list stays a permutation of all buffers |
| FatTable.Fatfs.Writeback | firmware/common/fat/src/fat_table.c:83-112 | whatever the medium does, the logical FAT stays; the buffer becomes clean exactly on success |
| FatTable.Fatfs.Load | firmware/common/fat/src/fat_table.c:162-174 | a good read leaves the sector in this buffer alone; a failed one leaves the buffer empty, and the others as they were |
| FatBuffers.SpoiltWrite | firmware/common/fat/src/fat_table.c:83-112 | a failed write that spoils only the target sector keeps buffers, medium and logical FAT coherent, the buffer staying dirty |
| FatTable.Fatfs.ReadSector | firmware/common/fat/src/fat_table.c:116-175 | for any number of buffers and any pattern of failures the logical FAT is unchanged, no dirty sector is lost and at most one buffer has a sector; a buffered sector is always found |
| FatTable.Fatfs.FindNextCluster | firmware/common/fat/src/fat_table.c:205-256 | the link in the entry, read byte by byte from the logical FAT: any of the eight end marks of its type is the end of the chain, any other value, without the reserved bits, the next cluster; cluster 0 counts as 2; a failed read gives the end of the chain |
| FatEntries.EntryDecoded | firmware/common/fat/src/fat_table.c:211-246 | an entry of the table is two or four bytes of a sector, at the place the cluster number gives |
| FatEntries.EntryMeans | firmware/common/fat/src/fat_table.c:229-252 | what each value of an entry means, without the decoder: the end of a chain, free, or the next cluster |
| FatBytes.EndsReadAlike | firmware/common/fat/src/fat_table.c:229-252 | two media whose FATs differ only in which of the eight values ends a chain have the same files |
| FatTable.Fatfs.SetCluster | firmware/common/fat/src/fat_table.c:349-383 | on success exactly that entry changes, truncated to the entry width; after a good read of the same entry it cannot fail |
| FatTable.Fatfs.SetFsInfoNextFree | firmware/common/fat/src/fat_table.c:260-283 | FAT16 ignores it; on FAT32, unless the sector cannot be read, the hint is the new value; on good media the word at 492 of the FSInfo sector is it too, and nothing outside FAT and FSInfo changes |
| FatTable.Fatfs.FindBlankCluster | firmware/common/fat/src/fat_table.c:288-342 | the first free entry from the start on; on good media none is found exactly when there is none |
| FatChain.Purge | firmware/common/fat/src/fat_table.c:179-195 | success means that the medium has the logical FAT, whatever failed before; good media succeed |
| FatBuffers.ViewIsBufferElseMedium | firmware/common/fat/src/fat_table.c:116-195 | the logical FAT is the buffer if one has the sector, else the medium |
| FatEntries.DecodePut | firmware/common/fat/src/fat_table.c:349-383 | storing an entry in its packed bytes changes that entry of the decoded table and no other, across sector boundaries |
| FatEntries.ZeroCountIsFreeCount | firmware/common/fat/src/fat_table.c:445-478 | counting zero entries equals counting entries the allocator takes exactly when no free entry has reserved top bits set |
| FailingCards.ReservedBitsHideFree | firmware/common/fat/src/fat_table.c:445-478 | the whole FAT of a FAT32 volume of any size that can be formatted, with an entry the allocator takes and the count does not see |
| FatChain.FreeClusterChain | firmware/common/fat/src/fat_table.c:389-407 | terminates on every table whose links stay in a zone, cycles and shared tails included and media failing or not; entries change only to 0 and only in the zone, and on good media the result is following and clearing |
| Chains.WholeTableInRange | firmware/common/fat/src/fat_table.c:389-407 | any table whose links are in range is such a zone |
| Chains.FreeFromChain | firmware/common/fat/src/fat_table.c:389-407 | on a well-formed chain that clears exactly its entries |
| FatChain.AddClusterToChain | firmware/common/fat/src/fat_table.c:414-440 | links the new cluster behind the last of the chain; called with start 0 it fails if cluster 2 is free, and else follows the chain of cluster 2 |
| DirSpace.AstrayDamages | firmware/common/fat/src/fat_table.c:414-440 | called for the FAT16 root it makes another chain longer or overwrites entry 0 |
| FailingCards.RootDamage | firmware/common/fat/src/fat_write.c:130-262 | on a mounted card with a full FAT16 root, a free cluster and cluster 2 in use, the search for room succeeds and the media word of the FAT has become the number of a cluster |
| FatChain.CountFreeClusters | firmware/common/fat/src/fat_table.c:445-478 | the number of zero entries; never more, even with failures |
| Chains.AddSpaceGrows | firmware/common/fat/src/fat_write.c:45-76 | appending n clusters gives a longer well-formed chain of clusters that were free; it uses up exactly n of them, or all there are |
| Chains.GrownKeepsOther | firmware/common/fat/src/fat_write.c:45-76 | growing one chain keeps every disjoint chain as it is, and disjoint |
| FatSpace.AddFreeSpace | firmware/common/fat/src/fat_write.c:45-76 | appends clusters one by one, each the first free at the time, and stops when there is none |
| FatSpace.AllocateFreeSpace | firmware/common/fat/src/fat_write.c:82-125 | what it does for a new file and for an existing one, with enough room or not; the number of clusters is the size rounded up |
| FatSpace.LongStartIsLost | firmware/common/fat/src/fat_write.c:104-124 | for a new file that needs more than one cluster the caller does not learn the first, though the chain begins there |
| FileSpec.OffersSlack | firmware/common/fat/src/fat_table.c:288-342 | the search offers a cluster that is not on the volume exactly when the data area is full and the FAT has a free entry behind it |
| FailingCards.SlackOffered | firmware/common/fat/src/fat_table.c:288-342 | a FAT for a volume of 10000 sectors, as formatted, for which the offer is 4962 and the last cluster 4961 |
| Geometry.LbaInjective | firmware/common/fat/src/fat_access.c:195-201 | different sectors of data clusters have different addresses, all inside the data area |
| Geometry.RegionsDisjoint | firmware/common/fat/src/fat_access.c:136-144 | FAT, root directory, FSInfo and data area do not overlap |
| Geometry.RootMeetsData | firmware/common/fat/src/fat_access.c:137-144 | the FAT16 root stays in front of the data exactly when the number of its entries is a multiple of 16 |
| FormatMount.RootOfEight | firmware/common/fat/src/fat_access.c:137-144 | a boot sector with 8 root entries that is mounted, with root and data in one sector |
| FileLayout.LbasDisjoint | firmware/common/fat/src/fat_filelib.c:882-888 | disjoint chains share no sector |
| FileSectors.FindCluster | firmware/common/fat/src/fat_filelib.c:564-608 | the last-cluster shortcut, with its 0xFFFFFFFF guard, reaches the same cluster as a walk from the start; at the end of the chain it yields the last cluster |
| FileSectors.ReadSectors | firmware/common/fat/src/fat_filelib.c:548-622 | reads the sectors of the file at the offset, as many as fit in the cluster, none exactly at the end of the chain |
| FileSectors.WriteSectors | firmware/common/fat/src/fat_filelib.c:806-889 | writes sectors at the offset, growing the chain when at its end, and stores nothing exactly if there are too few free clusters; the shortcut is right again afterwards, even just after growth, and nothing but these sectors and the FAT changes |
| FileSectors.ExtendFile | firmware/common/fat/src/fat_filelib.c:867-875 | takes exactly the clusters for the sectors still to be written, or fails, having taken all there were, exactly if those are too few |
| FileLib.Flush | firmware/common/fat/src/fat_filelib.c:894-918 | after it the medium alone has the logical sectors |
| FileWrite.Write | firmware/common/fat/src/fat_filelib.c:1251-1392 | reports all of the data as written whatever happens; the file holds it, the bytes at p up to p + n replaced and all others kept, if and only if the volume has room for the result, and else a prefix of it; the length is marked as changed exactly when it grew; nothing happens without write permission |
| FailingCards.WriteWhenFull | firmware/common/fat/src/fat_filelib.c:1251-1392 | on a mounted card that is full, fl_fwrite of one byte at the end of an open file of 1024 bytes returns 1 and the file does not hold it |
| FileRead.Read | firmware/common/fat/src/fat_filelib.c:1011-1109 | the exact slice of the file from the position on, cut at its end, the contents unchanged; -1 without read permission or at the end |
| FileRead.Seek | firmware/common/fat/src/fat_filelib.c:1113-1178 | moves the position, clipped to the file, for each of the three origins, and fails for any other or for an offset from the end; the file is as it was exactly if the buffer was clean or its sector already on the medium |
| FailingCards.WriteThenSeek | firmware/common/fat/src/fat_filelib.c:1129-1131 | on any open file with a clean buffer: a byte other than the one there is written, then a seek: buffer and medium no longer hold the file |
| FailingCards.SeekLosesByte | firmware/common/fat/src/fat_filelib.c:1129-1131 | a mounted card with a file of 1024 zero bytes, on which a written byte is lost by the seek that follows |
| FileHandle.RunCalls | firmware/common/fat/src/fat_filelib.c:894-1392 | any sequence of fl_fread, fl_fwrite, fl_fflush and fl_fseek, seeks only when nothing is unsaved: each call is answered, and the file and its position are left, as by a sequence of bytes; nothing else on the volume changes, and once saved the medium holds the whole file |
| FileHandle.WriteThenRead | firmware/common/fat/src/fat_filelib.c:894-1392 | written, flushed, sought and read again, data is read as it was written |
| EditSessions.Edit | firmware/common/fat/src/fat_filelib.c:690-1392 | fl_fopen in any mode on a file that is there, any such calls, fl_fclose: answers as by the sequence of bytes, and a reader of the medium finds what it has become; nothing else but the record of the file changes |
| FileModes.StandardModes | firmware/common/fat/src/fat_filelib.c:723-765 | the six modes of the C library get the rights they stand for |
| FileModes.OtherCharacters | firmware/common/fat/src/fat_filelib.c:723-765 | any other character, the letter b among them, changes nothing |
| FileRead.SeekLeads | firmware/common/fat/src/fat_filelib.c:1129-1172 | where each kind of seek leads, within the file and beyond either end of it |
| FileHandle.SeekToEndAppends | firmware/common/fat/src/fat_filelib.c:894-1392 | after a seek to the end a write appends, and a seek back by its length reads it |
| FileHandle.WriteChanges | firmware/common/fat/src/fat_filelib.c:1251-1392 | byte by byte, what a write changes and how long the file is then |
| FileOpen.OpenFile | firmware/common/fat/src/fat_filelib.c:324-392 | succeeds exactly for the name of a file, not a directory; the open file has its contents, length and chain, position 0 and an empty buffer |
| FileModes.ParseMode | firmware/common/fat/src/fat_filelib.c:723-765 | the flags of a mode string |
| FileModes.Open | firmware/common/fat/src/fat_filelib.c:767-801 | for every mode: opens a file that is there to read it or, in a mode that creates, to write it, creates it in such a mode exactly if the name is not found, and fails otherwise, a directory of that name included |
| FileClose.DoOps | firmware/common/fat/src/fat_filelib.c:1251-1392 | the operations of a session append all their data in order |
| Sessions.Close | firmware/common/fat/src/fat_filelib.c:922-960 | flushes, records the length and purges the FAT: the file is on the medium |
| AppendSessions.Session | firmware/common/fat/src/fat_filelib.c:690-960 | a whole session, from name to medium |
| FileState.AtRestReads | firmware/common/fat/src/fat_access.c:407-507 | what is at rest is what the reader of the medium finds |
| FileCreate.ChooseShortName | firmware/common/fat/src/fat_filelib.c:460-491 | the first candidate no live record uses, or 9999 when there is none before |
| FileCreate.CreateFile | firmware/common/fat/src/fat_filelib.c:397-543 | succeeds exactly when the name is not found; then the file is open and empty, its record is in the directory under the name, and every other name is found as before |
| ShortNames.SomeTailFree | firmware/common/fat/src/fat_filelib.c:460-491 | by the pigeonhole principle some tail from 1 to 9998 is unused |
| ShortNames.TailsDiffer | firmware/common/fat/src/fat_misc.c:380-401 | different tails on one base give different names |
| ShortNames.GenerateTail | firmware/common/fat/src/fat_misc.c:380-401 | the base overwritten at its end by a tilde and the number, up to 99999 |
| ShortNames.CreateSfn | firmware/common/fat/src/fat_misc.c:285-346 | the short name, or none exactly for names that start with a dot |
| FileRemove.Remove | firmware/common/fat/src/fat_filelib.c:1413-1442 | exactly if the file is there its entries in the FAT are cleared and its record is marked, on the medium |
| FileRemove.RemovedIsGone | firmware/common/fat/src/fat_access.c:686-750 | the name is gone exactly if no later record answers to it |
| FileRemove.RemovedReads | firmware/common/fat/src/fat_filelib.c:1413-1442 | then the reader finds nothing under it |
| FileRemove.ChainFreed | firmware/common/fat/src/fat_table.c:389-407 | the free count grows by the length of the chain; disjoint chains stay |
| DirAccess.SectorReader | firmware/common/fat/src/fat_access.c:220-269 | loads the wanted sector of the directory, or fails exactly past its end and keeps the buffer |
| DirAccess.GetFileEntry | firmware/common/fat/src/fat_access.c:407-507 | the first record whose name matches |
| DirSearch.SearchAgree | firmware/common/fat/src/fat_access.c:437-448 | in a directory whose long names are complete, old text in the cache does not matter |
| DirUpdate.UpdateFileLength | firmware/common/fat/src/fat_access.c:616-679 | exactly the size of the first record with the short name changes |
| DirUpdate.MarkFileDeleted | firmware/common/fat/src/fat_access.c:686-750 | exactly its first byte |
| DirShort.DeleteKeepsOthers | firmware/common/fat/src/fat_access.c:686-750 | marking a record: every lookup that did not stop there is unchanged, and one that did goes on behind it |
| DirShort.SecondAnswers | firmware/common/fat/src/fat_access.c:407-507 | for any name two entries of it in a directory with complete long names, the second of which answers once the first is marked as deleted |
| DirRoom.FindFreeDirOffset | firmware/common/fat/src/fat_write.c:130-262 | the place of a run of enough records none of which is in use, the directory growing if need be; for a full FAT16 root there is never more room, the call succeeds exactly if a cluster is free and cluster 2 is in use, then with the FAT damaged, and else fails with the FAT as it was |
| DirWrite.AddFileEntry | firmware/common/fat/src/fat_write.c:266-372 | with room the entry is found under its name, every other name is found as before, live records stay, the new records fill the run that was found, and long names stay complete; an empty name fails; for a full FAT16 root the FAT comes out as DirRoom.FindFreeDirOffset says, and the entry goes in only into records of old long names at the end |
| DirInsert.FreeRunExactly | firmware/common/fat/src/fat_write.c:145-226 | the scan succeeds exactly if somewhere as many records as are needed are text, deleted or blank and the last of them is not text; what it finds starts behind a record in use |
| DirInsert.FreeRunIsOrphaned | firmware/common/fat/src/fat_write.c:159-224 | long-name text in a run is settled by a deleted or blank record, so no live record needs it |
| DirInsert.InsertFindsNew | firmware/common/fat/src/fat_access.c:407-507 | lookup after insert finds the new entry |
| DirInsert.InsertKeepsOthers | firmware/common/fat/src/fat_write.c:130-372 | lookup of any other name is unchanged by insert |
| DirInsert.InsertKeepsComplete | firmware/common/fat/src/fat_write.c:130-372 | insert keeps long names complete |
| DirInsert.NewFoundExactly | firmware/common/fat/src/fat_write.c:266-372 | they are found exactly when the name has no 0xFF and the short name does not start like an unused record |
| DirInsert.PaddingIsLost | firmware/common/fat/src/fat_write.c:266-372 | a name of one such byte is not found again under any short name |
| DirRecords.LongNameRoundTrip | firmware/common/fat/src/fat_misc.c:58-108 | splitting a name of 1 to 260 bytes into records and feeding them back, highest first, rebuilds exactly that name if and only if it has no 0xFF, multiples of 13 and the 20-record case included |
| LfnBuffers.FilenameToLfn | firmware/common/fat/src/fat_misc.c:207-244 | the record for one entry of a name |
| LfnBuffers.CacheEntry | firmware/common/fat/src/fat_misc.c:58-91 | one record taken into the long-name cache, padding as spaces |
| DirBytes.EntryBytes | firmware/common/fat/src/fat_misc.c:250-279 | name, attribute, both halves of the first cluster and the size of a new entry are in the bytes the disk format gives them |
| DirBytes.AttributesMean | firmware/common/fat/src/fat_misc.c:114-190 | which attribute bits make long-name text, a file, and an entry that counts |
| DirBytes.NewRecordBytes | firmware/common/fat/src/fat_write.c:302-366 | each long-name record of a new entry has its number, the mark of the last one and the checksum of the short name |
| DirBytes.LongRecordBytes | firmware/common/fat/src/fat_misc.c:207-244 | the thirteen characters of a long-name record at their places, with end mark and padding |
| DirBytes.ChecksumRotates | firmware/common/fat/src/fat_write.c:302-305 | each byte is added to the sum with its bits rotated to the right by one |
| DirBytes.KnownChecksum | firmware/common/fat/src/fat_write.c:302-305 | the checksum of README.TXT is 0x73 |
| Names.CompareNames | firmware/common/fat/src/fat_string.c:260-319 | names match exactly when extension and base without trailing spaces agree byte for byte, but for the case of the letters A to Z; said in bytes, and as equality of keys |
| Names.AlikeMatch | firmware/common/fat/src/fat_string.c:182-212 | names that differ in case alone match, and names without spaces match only then |
| ShortLookup.CaseFindsSame | firmware/common/fat/src/fat_access.c:407-507 | such names find the same record and the same file |
| ShortLookup.ShortFoundExactly | firmware/common/fat/src/fat_access.c:462-497 | a record with a short name alone answers to that name, base and extension, exactly if there is no extension or one of three characters |
| ShortLookup.OwnShortFound | firmware/common/fat/src/fat_misc.c:285-346 | so do the short names the library makes for 8.3 names |
| ShortNames.SqueezeDrops | firmware/common/fat/src/fat_misc.c:307-330 | spaces and dots of the base are left out of a short name, wherever they are |
| ShortNames.TailSays | firmware/common/fat/src/fat_misc.c:350-401 | a tail is a tilde and the number in decimal behind what is left of the base |
| RingBuffer.PutQueues | firmware/obd-gateway/src/ring_buffer.c:42-64 | a byte is queued, or dropped exactly when 127 are queued, and the slot at the tail is never overwritten |
| RingBuffer.TailAdvances | firmware/obd-gateway/src/ring_buffer.c:68-90 | taking removes the front of the queue |
| RingBuffer.RingBuffer.Putc | firmware/obd-gateway/src/ring_buffer.c:42-64 | the new state, and 0 whether or not the byte was dropped |
| RingBuffer.RingBuffer.Getc | firmware/obd-gateway/src/ring_buffer.c:68-90 | the front byte with the error bits above it, or the no-data code |
| RingBuffer.RingBuffer.Peek | firmware/obd-gateway/src/ring_buffer.c:94-114 | the front byte without taking it |
| Gateway.RunKeeps | firmware/obd-gateway/src/obd.c:58-74 | with the interrupt allowed between any two steps of the main loop, bytes consumed, in hand and queued are the bytes accepted, in order, and at most 127 are queued |
| Gateway.InterruptKeeps | firmware/obd-gateway/src/obd.c:58-74 | the same for an interrupt at any point, the late read after the tail has moved included; a byte is dropped only when the ring is full |
| Gateway.UpdateKeeps | firmware/obd-gateway/src/ring_buffer.c:68-90 | the same for each step of the main loop |
| Obd.Receiver.Interrupt | firmware/obd-gateway/src/obd.c:58-74 | the ring after an interrupt, and the overflow warning exactly when it was full |
| Obd.Receiver.Update | firmware/obd-gateway/src/obd.c:260-270 | one byte goes from the ring to the parser |
| HobdParser.HobdParser.ParseByte | firmware/obd-gateway/src/hobd_parser.c:95-195 | one byte of the state machine |
| HobdParser.ReportsExactly | firmware/obd-gateway/src/hobd_parser.c:95-195 | for every stream, OK exactly at the end of a frame that starts where the parser waits for one |
| HobdProtocol.ObdChecksum | firmware/hobd-simulator/hobd-simulator.ino:105-127 | the byte that completes the sum to a multiple of 256 |
| HobdProtocol.Send | firmware/hobd-simulator/hobd-simulator.ino:147-252 | the encoding of a message |
| HobdProtocol.EncodedIsFrame | firmware/hobd-simulator/hobd-simulator.ino:147-252 | every encoded message is a frame and decodes to itself |
| HobdProtocol.DocumentedMessages | firmware/obd-gateway/include/hobd_protocol.h:13-17 | the encodings of messages the sources spell out |
| Gateway.Delivers | firmware/obd-gateway/src/obd.c:260-270 | the messages reported are the first of those whose encoding was accepted, all of them once the ring is empty, each with the time at which its third byte reached the parser |
| Gateway.ErrorBitsAre | firmware/obd-gateway/src/obd.c:60-63 | of the status register the overrun and frame error bits are kept, at their places |
| RingBuffer.OverflowIs | firmware/obd-gateway/src/ring_buffer.c:49-53 | exactly a byte that finds 127 waiting sets the overflow bit |
| HobdParser.EncodedIsReported | firmware/obd-gateway/src/hobd_parser.c:95-195 | concatenated messages are reported one by one, each at its last byte with its header and data and the time of its subtype byte |
| HobdParser.TimeReported | firmware/obd-gateway/src/hobd_parser.c:127-134 | for any stream: what is reported has the time of its subtype byte, however many bytes were skipped in front of its size |
| HobdParser.CountersCount | firmware/obd-gateway/src/hobd_parser.c:95-195 | for any stream: the counters are the numbers of messages completed and of subtypes and checksums refused, modulo 65536 |
| HobdParser.EncodedCounts | firmware/obd-gateway/src/hobd_parser.c:95-195 | a stream of encoded messages counts one valid message each and no invalid one |
| CanMobs.StatusIs | firmware/avrcan-at90can128/bsp/src/can_drv.c:122-150 | what each value of the status register comes to, by its upper three bits and, if they are no completion, its lower five |
| CanBus.Bus.Run | firmware/can-sd-logger/src/canbus.c:81-196 | after initialisation, over any sequence of sends and receives on a controller that comes to an outcome in the end: every enabled mailbox is owned by exactly one descriptor and set up for its command, at most 7 of the 15 are ever in use at once, and the frames transmitted are some of those to be sent, in order |
| CanMobs.EnabledAreHeld | firmware/avrcan-at90can128/bsp/src/can_lib.c:78-307 | as many mailboxes are enabled as descriptors are pending |
| CanBus.Bus.CanCmd | firmware/avrcan-at90can128/bsp/src/can_lib.c:78-227 | mailbox, descriptor and answer for every command |
| CanBus.Bus.CanGetStatus | firmware/avrcan-at90can128/bsp/src/can_lib.c:245-307 | answer, descriptor and mailbox for every value of the status register; a descriptor that holds no mailbox gives an error and nothing changes |
| CanBus.Bus.InitRxMobs | firmware/can-sd-logger/src/canbus.c:81-97 | all six are pending in different mailboxes |
| CanBus.Bus.Send | firmware/can-sd-logger/src/canbus.c:109-151 | waits for the first look at the status register that shows an outcome; says OK exactly if its upper bits are a completion, has sent the frame exactly if that is a finished transmission, and gives the mailbox back |
| CanBus.Bus.Recv | firmware/can-sd-logger/src/canbus.c:154-196 | round robin over the descriptors, going on where it stopped, until a look at the status register shows something: OK, with the frame, exactly if a frame has arrived or the mailbox is finished otherwise, an error exactly if only error bits are set, with the mailbox given up, and no data exactly if all six show nothing |
| BitTiming.AutoBaudrate | firmware/avrcan-at90can128/bsp/src/can_drv.c:238-388 | for every sequence of outcomes the search ends after at most 641 settings, each in range, in a fixed order with the first one twice |
| BitTiming.SettingSound | firmware/avrcan-at90can128/bsp/src/can_drv.c:376-385 | the segments are in range and the sample point is between 75 and 80 percent |
| BitTiming.SettingsComplete | firmware/avrcan-at90can128/bsp/src/can_drv.c:335-387 | the settings searched are all those with the sample point between 75% and 80% whose segments are equal or, from six on, one apart |
| BitTiming.SettingsOrdered | firmware/avrcan-at90can128/bsp/src/can_drv.c:335-387 | they come by prescaler and then by length of the bit |
| BitTiming.NextSetting | firmware/avrcan-at90can128/bsp/src/can_drv.c:335-387 | the next accepted setting in order, or that there is none |
| Partitions.FieldsMount | firmware/common/fat/src/fat_access.c:76-189 | any boot sector, at the start or in a partition, whose volume fits: fields at the byte positions of the disk format decide type, cluster count and the place of FAT, root, FSInfo and every cluster |
| Partitions.ClustersFit | firmware/common/fat/src/fat_access.c:148-170 | the clusters are those that lie on the volume as a whole |
| Partitions.Refused | firmware/common/fat/src/fat_access.c:76-189 | which result each defect of a medium leads to, in the order of the checks, said in bytes |
| Partitions.PartitionMounts | firmware/common/fat/src/fat_access.c:86-112 | with one of the ten partition types at byte 450 a volume begins at the sector number in bytes 454 to 457, and is mounted as it would be alone, moved by that |
| Partitions.FormattedPartition | firmware/common/fat/src/fat_access.c:86-112 | a partition formatted to a size that is mounted as formatted is mounted with that geometry, moved |
| Partitions.PartitionReads | firmware/common/fat/src/fat_access.c:86-140 | every file of a volume in a partition is read as from the volume alone |
| Partitions.FormattedFields | firmware/common/fat/src/fat_format.c:115-345 | the boot sector a format writes has its fields at those positions |
| FormatMedia.FreshFatBytes | firmware/common/fat/src/fat_format.c:392-422 | the reserved entries of a new FAT, byte by byte |
| Format.ClusterBytes | firmware/common/fat/src/fat_format.c:77-96 | the cluster sizes are those of Microsoft for volumes of so many bytes |
| FormatMount.FormatThenMount | firmware/common/fat/src/fat_format.c:426-531 | a boot sector written by the formatter is mounted as intended for FAT32 above 4194304 sectors and for FAT16 exactly from 8244 to 4194151; up to 4194304 it is taken for FAT32, below 8244 refused or, under 42, taken for FAT32 |
| FormatMount.IntendedWellFormed | firmware/common/fat/src/fat_access.c:121-189 | the mounted geometry has an entry for every data cluster and regions that do not overlap |
| Format.CalcClusterSize | firmware/common/fat/src/fat_format.c:77-95 | the table of cluster sizes |
| Format.Init | firmware/common/fat/src/fat_access.c:43-190 | what mounting makes of the first sectors of a medium |
| FormatMedia.FormatMedium | firmware/common/fat/src/fat_format.c:524-531 | the medium holds a formatted volume of the geometry mounted from it |
| FreshVolume.Attach | firmware/common/fat/src/fat_filelib.c:655-674 | mounting a formatted medium gives its geometry and a clean state |

## Left out

- Media that fail above the FAT buffers: the buffer layer, freeing and counting are proved for every pattern of failures, the rest for media that work; the code attempts no recovery there.
- Write: if there is no room for the data, the FAT is asked to have no free entry behind those of the data area. The formatter leaves such entries free, and on a full volume the allocator then hands out clusters that do not exist (FileSpec.OffersSlack); no write to them is followed. The 32-bit product of size and count is not modelled: the data is the parameter.
- AppendTo: sessions that run out of room; what each write then does is in FileWrite.Write, but no file is followed to the medium in that state.
- RunChanges: room at each step, for the same reason, and no name of a subdirectory to append to.
- Perform: the same, for one change.
- RunFromScratch: media that fail, sizes that are mounted otherwise than formatted, and runs that need more than a fresh volume has.
- FromScratch: the same.
- RunKeeps: the chains are a list beside the table; the tie to directory records is in FilesByName.Sound, kept by VolumeRuns.RunChanges.
- FindNextCluster: cluster numbers past the end of the FAT, which the C function would look up in the sectors behind it.
- SetCluster: the same.
- SetFsInfoNextFree: on media that fail it allows the old hint or the new without saying which transfer failed.
- AddClusterToChain: starts from which the FAT leads to no well-formed chain, where the walk of the C function need not end.
- FindCluster: offsets past the end of the chain, which no caller in the file layer passes.
- ReadSectors: the same.
- SectorReader: offsets more than one past the end of the directory, which no scan reaches.
- GetFileEntry: directories whose chain is not well formed.
- OpenFile: the same, and files whose chain is not.
- Remove: directories with incomplete long names, and files without a chain.
- Session: sessions without room, and names that cannot be created.
- Init: an empty medium, and media that fail.
- Attach: only media that were just formatted.
- Run: a controller that never comes to an outcome, on which the code waits for ever.
- Read: fl_fread when a read of the medium fails, and the product of size and count.
- Crash consistency and the second copy of the FAT, which the code never writes after formatting.
- More than one sector per FAT buffer, and the cluster cache.
- Pointers: the list of FAT buffers has indices for links, and sector buffers are values in fields, replaced as a whole; aliasing between a caller's buffer and the library's own is not captured.
- Paths: splitting them, walking to a directory, the list of open files and its limit, creating directories. A directory is given by its start cluster.
- Mode "w" on a file that exists: the code sets a flag for erasing and does not use it, so it opens the file as it is.
- Edit: only for a file that is there, and with seeks only when nothing is unsaved (what another seek does is in FileRead.Seek); media that fail and calls without room are not in it. It says nothing of how many clusters were taken.
- RunCalls: the same, and no fl_fclose in between.
- Several handles open at once, and directory listing.
- CreateFile: not for a full FAT16 root, where DirRoom.FindFreeDirOffset and DirWrite.AddFileEntry say what the code does; not for names that start with a dot, for which the code goes on with a short name it has not set, nor for names that would not be found again (DirInsert.NewFoundExactly); a directory has fewer than 9998 live records with different short names, the records of the name fit a cluster if the directory must grow, and there are free clusters for the file and, if needed, the directory.
- fatfs_sfn_create_entry as a loop: `DirRecords.SfnRecord` is a function; timestamps are compiled out.
- FormatMedium: only for sizes that are mounted as formatted; the others are in FormatMount.FormatThenMount. A read-only medium is not modelled.
- AutoBaudrate: the waiting loop on the registers of the controller is one outcome per trial, and mode 1, which never programs the setting it finds first, is not modelled.
- CanCmd: identifiers, masks and the data length code are part of a frame that is not looked into.
- Send: the time the controller takes is a bound on the number of looks, which the code does not have.
- Update: the timestamp of a message is a parameter, and the answer to a message (process_rx_data) and the CAN messages made from the data (publish_can_data) are left out.
- Timers, UART, SPI, watchdog, display programs, GPS, gear detection and text formatting.
