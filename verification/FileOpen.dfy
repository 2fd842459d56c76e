/** Opening an existing file, and closing it again. */
module FileOpen {

  import opened Words
  import opened FatEntries
  import opened Geometry
  import opened ChainDefs
  import opened FatTable
  import opened FatChain
  import opened FileLayout
  import opened FileSpec
  import opened FileSectors
  import opened DirRecords
  import opened Names
  import opened DirSearch
  import opened DirShort
  import opened DirLayout
  import opened DirAccess
  import opened FileState

  /** An open file, and the record of its directory that stands for it. */
  ghost predicate OpenAs(fs: Fatfs, file: FlFile, cluster: nat, place: Place, dirSecs: seq<Sector>, index: nat)
    reads fs`slots, fs`next, fs`head, fs`order, fs`view, fs`fat, fs`curAddress, fs`curSector, fs.media`sectors
    reads file`chain, file`startCluster, file`lookupIdx, file`lookupCluster, file`dataSector, file`dataAddress,
          file`dataDirty
    reads file`secs, file`byteNum, file`fileLength, file`parentCluster, file`shortName, file`lengthChanged
  {
    && DirOf(fs, cluster, place, dirSecs)
    && file.Valid(fs) && file.parentCluster == cluster && Apart(place, file.chain)
    && index < |Records(dirSecs)| && Recorded(Records(dirSecs), index, file.shortName, file.startCluster)
    && (!file.lengthChanged ==> Size(Records(dirSecs)[index]) == file.fileLength)
  }

  /** The fields of a file just opened, but for its name, chain and length. */
  ghost predicate Rewound(file: FlFile)
    reads file`byteNum, file`dataAddress, file`dataDirty, file`lengthChanged, file`lookupIdx
  {
    file.byteNum == 0 && file.dataAddress == LAST && !file.dataDirty && !file.lengthChanged && file.lookupIdx == LAST
  }

  lemma HoldIsCoupled(sectors: seq<Sector>, lbas: seq<nat>, secs: seq<Sector>, buffer: Sector)
    requires Hold(sectors, lbas, secs)
    ensures Coupled(sectors, lbas, false, LAST, buffer, secs)
  {
  }

  lemma CoupledIsHold(sectors: seq<Sector>, lbas: seq<nat>, address: nat, buffer: Sector, secs: seq<Sector>)
    requires Coupled(sectors, lbas, false, address, buffer, secs)
    ensures Hold(sectors, lbas, secs)
  {
  }

  /** Reading FAT sectors, and writing them back, leaves directories and files as they are. */
  lemma FatWritesKeepDir(g: Mounted, fat: seq<nat>, before: seq<Sector>, after: seq<Sector>, address: nat,
                         buffer: Sector,
                         cluster: nat, place: Place, dirSecs: seq<Sector>)
    requires DirAs(g, fat, before, address, buffer, cluster, place, dirSecs)
    requires |after| == |before| && forall l :: 0 <= l < |before| && !g.InFat(l) ==> after[l] == before[l]
    ensures DirAs(g, fat, after, address, buffer, cluster, place, dirSecs)
  {
    PlaceLbasSound(g, fat, cluster, place);
    hide PlaceLbas, IsPlace;
  }

  lemma FatWritesKeepFile(g: Mounted, fat: seq<nat>, before: seq<Sector>, after: seq<Sector>, chain: seq<nat>,
                          secs: seq<Sector>)
    requires IsChain(g.fatType, fat, g.Limit(), chain) && AllClusters(g, chain) && Hold(before, Lbas(g, chain), secs)
    requires |after| == |before| && forall l :: 0 <= l < |before| && !g.InFat(l) ==> after[l] == before[l]
    ensures Hold(after, Lbas(g, chain), secs)
  {
    LbasInData(g, fat, chain);
    hide Lbas, IsChain, AllClusters;
  }

  lemma FatWritesKeepRest(g: Mounted, fat: seq<nat>, before: seq<Sector>, after: seq<Sector>, d: Desk)
    requires FileAs(g, fat, before, d)
    requires |after| == |before| && forall l :: 0 <= l < |before| && !g.InFat(l) ==> after[l] == before[l]
    ensures FileAs(g, fat, after, d)
  {
    assert Owns(g, fat, d.chain);
    hide Recorded, Content, Lbas, IsChain, Apart, Hold, Reserved, AllClusters;
    FatWritesKeepFile(g, fat, before, after, d.chain, d.secs);
  }

  /** fatfs_fat_purge with a directory in use. */
  method PurgeKeeping(fs: Fatfs, ghost cluster: nat, ghost place: Place, ghost dirSecs: seq<Sector>)
    requires DirOf(fs, cluster, place, dirSecs)
    modifies fs.media, fs`slots
    ensures DirOf(fs, cluster, place, dirSecs) && fs.Purged()
    ensures fs.OutsideFatUnchanged()
  {
    hide Fatfs.ValidWith, Decode, PlaceLbas, IsPlace, Hold, DirAs;
    var _ := Purge(fs);
    FatWritesKeepDir(fs.g, fs.fat, old(fs.media.sectors), fs.media.sectors, fs.curAddress, fs.curSector, cluster,
                     place, dirSecs);
  }

  /** The fields _open_file has set up make the file at rest an open one. */
  lemma RestOpens(fs: Fatfs, file: FlFile, cluster: nat, d: Desk)
    requires DirOf(fs, cluster, d.place, d.dirSecs) && FileAs(fs.g, fs.fat, fs.media.sectors, d)
    requires Rewound(file) && file.parentCluster == cluster
    requires var entry := Records(d.dirSecs)[d.index];
             file.shortName == Name(entry) && file.fileLength == Size(entry) && file.startCluster == FirstCluster(entry)
    requires file.chain == d.chain && file.secs == d.secs
    ensures OpenAs(fs, file, cluster, d.place, d.dirSecs, d.index) && file.Contents() == d.content
  {
    assert Owns(fs.g, fs.fat, d.chain);
    AllocatedFits(fs.g, fs.fat, d.chain);
    hide Fatfs.ValidWith, Decode, PlaceLbas, IsPlace, Hold, DirAs, Records, Coupled, Capacity, Content, ShortUnique,
         Lbas, IsChain, Reserved;
    HoldIsCoupled(fs.media.sectors, Lbas(fs.g, d.chain), d.secs, file.dataSector);
  }

  /** Set up a file handle from its directory record, as _open_file does. */
  method SetUp(file: FlFile, cluster: nat, entry: Record, ghost chain: seq<nat>, ghost secs: seq<Sector>)
    modifies file
    ensures Rewound(file) && file.parentCluster == cluster
    ensures file.shortName == Name(entry) && file.fileLength == Size(entry) && file.startCluster == FirstCluster(entry)
    ensures file.chain == chain && file.secs == secs
  {
    file.parentCluster := cluster;
    file.shortName := Name(entry);
    file.fileLength := Size(entry);
    file.byteNum := 0;
    file.startCluster := FirstCluster(entry);
    file.dataAddress := LAST;
    file.dataDirty := false;
    file.lengthChanged := false;
    file.lookupIdx := LAST;
    file.lookupCluster := LAST;
    file.chain, file.secs := chain, secs;
  }

  /** fatfs_get_file_entry with a directory in use. */
  method LookUp(fs: Fatfs, cluster: nat, name: seq<byte>, ghost place: Place, ghost dirSecs: seq<Sector>)
    returns (found: bool, entry: Record, ghost index: nat)
    requires DirOf(fs, cluster, place, dirSecs)
    modifies fs`head, fs`next, fs`order, fs`slots, fs`curAddress, fs`curSector, fs.media
    ensures DirOf(fs, cluster, place, dirSecs) && fs.OutsideFatUnchanged()
    ensures old(fs.Purged()) ==> fs.Purged()
    ensures found ==> Search(Records(dirSecs), EMPTY_CACHE, Key(name)) == Hit(index) && entry == Records(dirSecs)[index]
    ensures !found ==> Search(Records(dirSecs), EMPTY_CACHE, Key(name)).Miss?
  {
    DirOfIsDir(fs, cluster, place, dirSecs);
    assert fs.curAddress == LAST || fs.curAddress in PlaceLbas(fs.g, place);
    hide Fatfs.ValidWith, Fatfs.Purged, Dir, DirOf, Records, Search, Key, PlaceLbas;
    found, entry, index := GetFileEntry(fs, cluster, name, place, dirSecs);
    DirIsDirOf(fs, cluster, place, dirSecs);
  }

  /** Purge, and make an open file of the record found. */
  method OpenFound(fs: Fatfs, file: FlFile, cluster: nat, entry: Record, ghost d: Desk)
    requires DirOf(fs, cluster, d.place, d.dirSecs) && FileAs(fs.g, fs.fat, fs.media.sectors, d)
    requires entry == Records(d.dirSecs)[d.index]
    modifies fs`slots, fs.media, file
    ensures DirOf(fs, cluster, d.place, d.dirSecs) && fs.OutsideFatUnchanged()
    ensures OpenAs(fs, file, cluster, d.place, d.dirSecs, d.index) && Rewound(file)
    ensures file.chain == d.chain && file.fileLength == |d.content| <= SECTOR_SIZE * |file.secs| &&
            file.Contents() == d.content
  {
    hide Fatfs.Valid, OpenAs, FileAs, DirOf, Records, Content, Rewound, Volume.InFat;
    ghost var before := fs.media.sectors;
    PurgeKeeping(fs, cluster, d.place, d.dirSecs);
    FatWritesKeepRest(fs.g, fs.fat, before, fs.media.sectors, d);
    SizeAtRest(fs.g, fs.fat, fs.media.sectors, d);
    SetUp(file, cluster, entry, d.chain, d.secs);
    RestOpens(fs, file, cluster, d);
  }

  /** _open_file, once the directory is known: the file of that name, if it is there and is
      not a directory. */
  method OpenFile(fs: Fatfs, file: FlFile, cluster: nat, name: seq<byte>, ghost d: Desk) returns (ok: bool)
    requires DirOf(fs, cluster, d.place, d.dirSecs)
    requires var f := Search(Records(d.dirSecs), EMPTY_CACHE, Key(name));
             f.Hit? && IsFile(Records(d.dirSecs)[f.index]) ==>
                 f.index == d.index && FileAs(fs.g, fs.fat, fs.media.sectors, d)
    modifies fs`head, fs`next, fs`order, fs`slots, fs`curAddress, fs`curSector, fs.media, file
    ensures DirOf(fs, cluster, d.place, d.dirSecs) && fs.OutsideFatUnchanged()
    ensures !ok && old(fs.Purged()) ==> fs.Purged()
    ensures var f := Search(Records(d.dirSecs), EMPTY_CACHE, Key(name));
            ok <==> f.Hit? && IsFile(Records(d.dirSecs)[f.index])
    ensures ok ==> OpenAs(fs, file, cluster, d.place, d.dirSecs, d.index) && Rewound(file)
    ensures ok ==>
            file.chain == d.chain && file.fileLength == |d.content| <= SECTOR_SIZE * |file.secs| &&
            file.Contents() == d.content
    ensures !ok ==> unchanged(file)
  {
    hide Fatfs.Valid, Fatfs.Purged, OpenAs, FileAs, DirOf, Records, Content, Search, Key, Rewound, Volume.InFat;
    ghost var before := fs.media.sectors;
    var found, entry;
    ghost var index;
    found, entry, index := LookUp(fs, cluster, name, d.place, d.dirSecs);
    ok := found && IsFile(entry);
    if ok {
      FatWritesKeepRest(fs.g, fs.fat, before, fs.media.sectors, d);
      OpenFound(fs, file, cluster, entry, d);
    }
  }

  lemma SizeAtRest(g: Mounted, fat: seq<nat>, sectors: seq<Sector>, d: Desk)
    requires FileAs(g, fat, sectors, d)
    ensures d.index < |Records(d.dirSecs)| && Size(Records(d.dirSecs)[d.index]) == |d.content| <= SECTOR_SIZE * |d.secs|
  {
  }
}
