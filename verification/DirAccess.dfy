/** Reading a directory through the one-sector buffer `currentsector`. */
module DirAccess {

  import opened Words
  import opened FatEntries
  import opened Geometry
  import opened ChainDefs
  import opened FatTable
  import opened FatChain
  import opened FileLayout
  import opened FileSpec
  import opened DirRecords
  import opened LfnBuffers
  import opened DirLayout
  import opened DirSearch
  import opened Names

  /** currentsector, unless empty, is the sector of that address on the medium. */
  ghost predicate Loaded(fs: Fatfs)
    reads fs`curAddress, fs`curSector, fs.media`sectors
  {
    fs.curAddress == LAST ||
    (fs.curAddress < |fs.media.sectors| && !fs.g.InMeta(fs.curAddress) &&
     fs.curSector == fs.media.sectors[fs.curAddress])
  }

  /** The directory starting at the cluster lies there and consists of these sectors. */
  ghost predicate Dir(fs: Fatfs, cluster: nat, place: Place, secs: seq<Sector>)
    reads fs`slots, fs`next, fs`head, fs`order, fs`view, fs`fat, fs`curAddress, fs`curSector, fs.media`sectors
  {
    && fs.Valid() && fs.media.Reliable() && Loaded(fs)
    && IsPlace(fs.g, fs.fat, cluster, place)
    && Hold(fs.media.sectors, PlaceLbas(fs.g, place), secs)
  }

  method FindInChain(fs: Fatfs, startCluster: nat, offset: nat, ghost chain: seq<nat>) returns (ok: bool, lba: nat)
    requires fs.Valid() && fs.media.Reliable()
    requires IsChain(fs.g.fatType, fs.fat, fs.g.Limit(), chain) && chain[0] == startCluster
    requires AllClusters(fs.g, chain) && offset <= |Lbas(fs.g, chain)|
    modifies fs`head, fs`next, fs`order, fs`slots, fs.media
    ensures fs.Valid() && fs.OutsideFatUnchanged()
    ensures old(fs.Purged()) ==> fs.Purged()
    ensures ok <==> offset < |Lbas(fs.g, chain)|
    ensures ok ==> lba == Lbas(fs.g, chain)[offset]
  {
    assert forall i :: 0 <= i < |chain| ==> 2 <= chain[i] < LAST;
    assert |chain| > 0;
    hide Fatfs.ValidWith, Fatfs.Purged, Decode, Volume.Span, IsChain, Lbas, AllClusters;
    var clusterIdx, sector := SplitSector(fs.g, offset);
    WhereInChain(fs.g, chain, offset, clusterIdx, sector);
    var cluster, _ := WalkChain(fs, chain, 0, startCluster, clusterIdx);
    ok, lba := cluster != LAST, 0;
    if ok {
      LbasIndex(fs.g, chain, clusterIdx, sector);
      lba := fs.g.Lba(cluster) + sector;
    }
  }

  /** The address part of fatfs_sector_reader: the root directory of FAT16 is a region of its
      own, other directories are walked from their first cluster. */
  method FindSector(fs: Fatfs, startCluster: nat, offset: nat, ghost place: Place) returns (ok: bool, lba: nat)
    requires fs.Valid() && fs.media.Reliable()
    requires IsPlace(fs.g, fs.fat, startCluster, place) && offset <= |PlaceLbas(fs.g, place)|
    modifies fs`head, fs`next, fs`order, fs`slots, fs.media
    ensures fs.Valid() && fs.OutsideFatUnchanged()
    ensures old(fs.Purged()) ==> fs.Purged()
    ensures ok <==> offset < |PlaceLbas(fs.g, place)|
    ensures ok ==> lba == PlaceLbas(fs.g, place)[offset]
  {
    assert place.InChain? ==> startCluster >= 2;
    hide Fatfs.ValidWith, Fatfs.Purged, Decode, Volume.Span, IsChain, Lbas, AllClusters;
    if fs.g.fatType.Fat16? && startCluster == 0 {
      ok := offset < fs.g.rootSectors;
      lba := fs.g.lbaBegin + fs.g.rootFirstSector + offset;
    } else {
      ok, lba := FindInChain(fs, startCluster, offset, place.chain);
    }
  }

  lemma DirThere(fs: Fatfs, cluster: nat, place: Place, secs: seq<Sector>)
    requires Dir(fs, cluster, place, secs)
    ensures fs.Valid() && fs.media.Reliable() && Loaded(fs) && IsPlace(fs.g, fs.fat, cluster, place)
    ensures Hold(fs.media.sectors, PlaceLbas(fs.g, place), secs) && |PlaceLbas(fs.g, place)| == |secs|
  {
    hide Fatfs.ValidWith, Decode, IsPlace, PlaceLbas, Loaded;
  }

  /** Reading the FAT leaves the directory as it was. */
  lemma DirStays(fs: Fatfs, before: seq<Sector>, cluster: nat, place: Place, secs: seq<Sector>)
    requires fs.Valid() && fs.media.Reliable() && IsPlace(fs.g, fs.fat, cluster, place)
    requires Hold(before, PlaceLbas(fs.g, place), secs) && |fs.media.sectors| == |before|
    requires fs.curAddress == LAST || (fs.curAddress < |before| && !fs.g.InMeta(fs.curAddress) &&
                                       fs.curSector == before[fs.curAddress])
    requires forall l :: 0 <= l < |before| && !fs.g.InFat(l) ==> fs.media.sectors[l] == before[l]
    ensures Dir(fs, cluster, place, secs)
  {
    PlaceLbasSound(fs.g, fs.fat, cluster, place);
    hide Fatfs.ValidWith, Decode, IsPlace, PlaceLbas;
    HoldOutsideMeta(fs.g, before, fs.media.sectors, PlaceLbas(fs.g, place), secs);
  }

  lemma SectorThere(fs: Fatfs, cluster: nat, place: Place, secs: seq<Sector>, offset: nat)
    requires Dir(fs, cluster, place, secs) && offset < |secs| == |PlaceLbas(fs.g, place)|
    ensures var lba := PlaceLbas(fs.g, place)[offset];
            lba < |fs.media.sectors| && !fs.g.InMeta(lba) && fs.media.sectors[lba] == secs[offset]
    ensures fs.curAddress == PlaceLbas(fs.g, place)[offset] ==> fs.curSector == secs[offset]
  {
    PlaceLbasSound(fs.g, fs.fat, cluster, place);
    hide Fatfs.ValidWith, Decode, IsPlace, PlaceLbas, Volume.InMeta;
  }

  /** Load a sector of the directory into currentsector. */
  method LoadSector(fs: Fatfs, lba: nat, ghost cluster: nat, ghost offset: nat, ghost place: Place,
                    ghost secs: seq<Sector>)
    returns (ok: bool)
    requires Dir(fs, cluster, place, secs) && offset < |secs| == |PlaceLbas(fs.g, place)| &&
             lba == PlaceLbas(fs.g, place)[offset]
    modifies fs`curAddress, fs`curSector, fs.media`transfers
    ensures Dir(fs, cluster, place, secs) && ok && fs.curAddress == lba && fs.curSector == secs[offset]
  {
    SectorThere(fs, cluster, place, secs, offset);
    hide Fatfs.ValidWith, Decode, IsPlace, PlaceLbas, Volume.InMeta, Hold;
    ok := true;
    if lba != fs.curAddress {
      fs.curAddress := lba;
      ok, fs.curSector := fs.media.Read(fs.curAddress);
    }
  }

  /** fatfs_sector_reader into currentsector; it fails just past the end of the directory. */
  method SectorReader(fs: Fatfs, startCluster: nat, offset: nat, ghost place: Place, ghost secs: seq<Sector>)
    returns (ok: bool)
    requires Dir(fs, startCluster, place, secs) && offset <= |secs|
    modifies fs`head, fs`next, fs`order, fs`slots, fs`curAddress, fs`curSector, fs.media
    ensures Dir(fs, startCluster, place, secs) && fs.OutsideFatUnchanged()
    ensures old(fs.Purged()) ==> fs.Purged()
    ensures ok <==> offset < |secs|
    ensures ok ==>
            offset < |PlaceLbas(fs.g, place)| && fs.curAddress == PlaceLbas(fs.g, place)[offset] &&
            fs.curSector == secs[offset]
    ensures !ok ==> fs.curAddress == old(fs.curAddress) && fs.curSector == old(fs.curSector)
  {
    hide Dir, Fatfs.Valid, Fatfs.Purged, IsPlace, PlaceLbas, Volume.InFat, Hold;
    DirThere(fs, startCluster, place, secs);
    ghost var before := fs.media.sectors;
    var lba;
    ok, lba := FindSector(fs, startCluster, offset, place);
    DirStays(fs, before, startCluster, place, secs);
    if ok {
      ok := LoadSector(fs, lba, startCluster, offset, place, secs);
    }
  }

  /** The inner loop of fatfs_get_file_entry: the records of one sector. */
  method LookupInSector(sector: Sector, start: LfnCache, name: seq<byte>)
    returns (hit: bool, item: nat, cache: LfnCache)
    requires start.Valid()
    ensures item <= PER_SECTOR && cache.Valid() && (hit ==> item < PER_SECTOR)
    ensures Search(RecordsOf(sector), start, Key(name)) == if hit then Hit(item) else Miss(cache)
  {
    hide Search, Key, LfnCache.Add, LfnCache.LongName, ShortDisplay, RecordAt;
    ghost var records, key := RecordsOf(sector), Key(name);
    item, cache, hit := 0, start, false;
    assert records[0..] == records;
    while item < PER_SECTOR
      invariant 0 <= item <= PER_SECTOR && cache.Valid()
      invariant Search(records, start, key) == Shift(item, Search(records[item..], cache, key))
    {
      var entry := RecordAt(sector, item);
      SearchStep(records, item, cache, key);
      if IsLfnText(entry) {
        cache := CacheEntry(cache, entry);
      } else if IsInvalid(entry) {
        cache := cache.Reset();
      } else if cache.rows != 0 {
        hit := CompareNames(cache.LongName(), name);
        if hit {
          return;
        }
        cache := cache.Ended().Reset();
      } else if IsLive(entry) {
        hit := CompareNames(ShortDisplay(entry), name);
        if hit {
          return;
        }
        cache := cache.Reset();
      }
      item := item + 1;
    }
    SearchDone(records, cache, key);
  }

  lemma SearchDone(records: seq<Record>, cache: LfnCache, key: NameKey)
    requires cache.Valid()
    ensures Search(records[|records|..], cache, key) == Miss(cache)
  {
  }

  lemma SearchSectorFirst(secs: seq<Sector>, x: nat, cache: LfnCache, key: NameKey)
    requires cache.Valid() && x < |secs|
    ensures Search(Records(secs[x..]), cache, key) ==
            match Search(RecordsOf(secs[x]), cache, key)
            case Hit(i) => Hit(i)
            case Miss(c) => Shift(PER_SECTOR, Search(Records(secs[x + 1..]), c, key))
  {
    hide Search, Records, RecordsOf;
    RecordsFrom(secs, x);
    SearchConcat(RecordsOf(secs[x]), Records(secs[x + 1..]), cache, key);
  }

  /** One round of its outer loop: read sector x of the directory and look at its records. */
  method LookupSector(fs: Fatfs, cluster: nat, x: nat, start: LfnCache, nameToFind: seq<byte>, ghost place: Place,
                      ghost secs: seq<Sector>)
    returns (read: bool, hit: bool, item: nat, cache: LfnCache)
    requires Dir(fs, cluster, place, secs) && start.Valid() && x <= |secs|
    modifies fs`head, fs`next, fs`order, fs`slots, fs`curAddress, fs`curSector, fs.media
    ensures Dir(fs, cluster, place, secs) && fs.OutsideFatUnchanged() && cache.Valid()
    ensures old(fs.Purged()) ==> fs.Purged()
    ensures read <==> x < |secs|
    ensures read ==> fs.curAddress in PlaceLbas(fs.g, place) && fs.curSector == secs[x]
    ensures !read ==> !hit && fs.curAddress == old(fs.curAddress)
    ensures hit ==> read && item < PER_SECTOR
    ensures Search(Records(secs[x..]), start, Key(nameToFind)) ==
            if hit then Hit(item)
            else if read then Shift(PER_SECTOR, Search(Records(secs[x + 1..]), cache, Key(nameToFind)))
            else Miss(cache)
  {
    hide Dir, Fatfs.Purged, PlaceLbas, Search, Key, Records, RecordsOf, LfnCache.Valid;
    read := SectorReader(fs, cluster, x, place, secs);
    hit, item, cache := false, 0, start;
    if read {
      SearchSectorFirst(secs, x, start, Key(nameToFind));
      hit, item, cache := LookupInSector(fs.curSector, start, nameToFind);
    } else {
      assert secs[x..] == [];
      SearchNoRecords(start, Key(nameToFind));
    }
  }

  /** fatfs_get_file_entry: the first record of the directory that goes by the name. */
  method GetFileEntry(fs: Fatfs, cluster: nat, nameToFind: seq<byte>, ghost place: Place, ghost secs: seq<Sector>)
    returns (found: bool, entry: Record, ghost index: nat)
    requires Dir(fs, cluster, place, secs)
    modifies fs`head, fs`next, fs`order, fs`slots, fs`curAddress, fs`curSector, fs.media
    ensures Dir(fs, cluster, place, secs) && fs.OutsideFatUnchanged()
    ensures old(fs.Purged()) ==> fs.Purged()
    ensures fs.curAddress == old(fs.curAddress) || fs.curAddress in PlaceLbas(fs.g, place)
    ensures found ==> Search(Records(secs), EMPTY_CACHE, Key(nameToFind)) == Hit(index) && entry == Records(secs)[index]
    ensures !found ==> Search(Records(secs), EMPTY_CACHE, Key(nameToFind)).Miss?
  {
    hide Dir, Fatfs.Purged, PlaceLbas, Search, Key, Records, RecordsOf, LfnCache.Valid;
    ghost var key := Key(nameToFind);
    assert secs[0..] == secs;
    EmptyCacheValid();
    var cache := EMPTY_CACHE;
    var x: nat, read := 0, true;
    index := 0;
    found, entry := false, Zeros(ENTRY_SIZE);
    while read && !found
      invariant x <= |secs| && cache.Valid()
      invariant Dir(fs, cluster, place, secs) && fs.OutsideFatUnchanged()
      invariant old(fs.Purged()) ==> fs.Purged()
      invariant fs.curAddress == old(fs.curAddress) || fs.curAddress in PlaceLbas(fs.g, place)
      invariant found ==>
                Search(Records(secs), EMPTY_CACHE, key) == Hit(index) && index < |Records(secs)| &&
                entry == Records(secs)[index]
      invariant !found && read ==>
                Search(Records(secs), EMPTY_CACHE, key) == Shift(PER_SECTOR * x, Search(Records(secs[x..]), cache, key))
      invariant !found && !read ==> Search(Records(secs), EMPTY_CACHE, key).Miss?
      decreases |secs| - x, read
    {
      var item;
      read, found, item, cache := LookupSector(fs, cluster, x, cache, nameToFind, place, secs);
      if found {
        entry, index := RecordAt(fs.curSector, item), PER_SECTOR * x + item;
        RecordsIndex(secs, x, item);
      }
      if read {
        x := x + 1;
      }
    }
  }

  lemma EmptyCacheValid()
    ensures EMPTY_CACHE.Valid()
  {
  }

  lemma SearchNoRecords(cache: LfnCache, key: NameKey)
    requires cache.Valid()
    ensures Search(Records([]), cache, key) == Miss(cache)
  {
  }
}
