/** fatfs_find_free_dir_offset: where the records of a new name go. */
module DirRoom {

  import opened Words
  import opened FatEntries
  import opened Geometry
  import opened ChainDefs
  import opened FatTable
  import opened FileSpec
  import opened DirRecords
  import opened Names
  import opened DirSearch
  import opened DirInsert
  import opened DirShort
  import opened DirLayout
  import opened DirAccess
  import opened DirUpdate
  import opened DirSpace

  predicate Blanks(records: seq<Record>) {
    forall i :: 0 <= i < |records| ==> records[i] == Zeros(ENTRY_SIZE)
  }

  /** `base` is the directory, perhaps with blank records behind it, and the records from
      `start`, where the scan found its run, to `end` may be taken: `need` of them, unless the
      blank ones were too few. */
  ghost predicate Settled(records: seq<Record>, base: seq<Record>, start: nat, need: nat, end: nat) {
    && records <= base && Blanks(base[|records|..])
    && start == FreeRun(records, 0, 0, 0, need).start <= |records| && Orphaned(base, start, end)
    && (if base == records then start + need <= end else end == |base|)
    && (FreeRun(records, 0, 0, 0, need).At? ==> base == records)
  }

  lemma BlanksAreUnused(blanks: seq<Record>)
    requires Blanks(blanks)
    ensures NoneLive(blanks) && EndsClean(blanks)
  {
    ZeroIsUnused();
    hide IsLive, IsLfnText, IsUnused;
  }

  lemma BehindRecords(records: seq<Record>, base: seq<Record>)
    requires records <= base && Blanks(base[|records|..])
    ensures base == records + base[|records|..]
    ensures NoneLive(base[|records|..]) && EndsClean(base[|records|..])
  {
    BlanksAreUnused(base[|records|..]);
  }

  /** Blank records behind a directory change no lookup. */
  lemma BlanksKeepSearch(records: seq<Record>, base: seq<Record>, cache: LfnCache, key: NameKey)
    requires cache.Valid() && records <= base && Blanks(base[|records|..])
    ensures Search(base, cache, key).Hit? == Search(records, cache, key).Hit?
    ensures Search(base, cache, key).Hit? ==> Search(base, cache, key) == Search(records, cache, key)
  {
    BehindRecords(records, base);
    hide Search, NoneLive, Blanks, EndsClean;
    var blanks := base[|records|..];
    SearchConcat(records, blanks, cache, key);
    if Search(records, cache, key).Miss? {
      SearchNoneLive(blanks, Search(records, cache, key).cache, key);
    }
  }

  lemma BlanksKeepComplete(records: seq<Record>, base: seq<Record>)
    requires records <= base && Blanks(base[|records|..]) && Complete(records, NOTHING)
    ensures Complete(base, NOTHING)
  {
    BehindRecords(records, base);
    CompleteThenNoneLive(records, base[|records|..], NOTHING);
  }

  lemma BlanksKeepShort(records: seq<Record>, base: seq<Record>, shortName: ShortName)
    requires records <= base && Blanks(base[|records|..])
    ensures ShortUnique(records) ==> ShortUnique(base)
    ensures FirstShort(records, 0, shortName) == |records| ==> FirstShort(base, 0, shortName) == |base|
  {
    BehindRecords(records, base);
    hide IsLive, IsLfnText, Blanks, CString;
    forall i | |records| <= i < |base| ensures !IsLive(base[i]) {
      assert base[i] == base[|records|..][i - |records|];
    }
  }

  /** The run the scan finds is free for the taking. */
  lemma AtSettles(records: seq<Record>, need: nat, start: nat) returns (end: nat)
    requires need > 0 && FreeRun(records, 0, 0, 0, need) == At(start)
    ensures Settled(records, records, start, need, end)
  {
    end := FreeRunIsOrphaned(records, 0, 0, 0, need);
    assert records[|records|..] == [];
  }

  lemma OrphanedBehind(records: seq<Record>, base: seq<Record>, start: nat)
    requires records < base && Blanks(base[|records|..]) && start <= |records|
    requires EndsClean(records[..start]) && NoneLive(records[start..])
    ensures Orphaned(base, start, |base|)
  {
    hide IsLive, IsLfnText, Blanks;
    BehindRecords(records, base);
    assert base[..start] == records[..start];
    assert base[..|base|] == base && base[|base| - 1] == base[|records|..][|base| - |records| - 1];
    assert base[start..] == records[start..] + base[|records|..];
  }

  /** When there is none, the records at the end together with a cluster of blank ones are. */
  lemma FullSettles(records: seq<Record>, base: seq<Record>, need: nat, start: nat)
    requires need > 0 && FreeRun(records, 0, 0, 0, need) == Full(start)
    requires records < base && Blanks(base[|records|..])
    ensures Settled(records, base, start, need, |base|)
  {
    hide IsLive, IsLfnText, Blanks, FreeRun, Orphaned;
    var end := FreeRunIsOrphaned(records, 0, 0, 0, need);
    assert records[start..end] == records[start..];
    OrphanedBehind(records, base, start);
  }

  /** The directory lies where it did, or has grown by one cluster that was free. */
  ghost predicate PlaceGrown(g: Mounted, fat: seq<nat>, place: Place, fat': seq<nat>, place': Place) {
    && |fat| == |fat'| == g.Entries()
    && (|| (fat' == fat && place' == place)
        || (&& place.InChain? && place'.InChain? && |place'.chain| == |place.chain| + 1
            && Grown(g.fatType, g.Limit(), fat, place.chain, fat', place'.chain)
            && Owns(g, fat', place'.chain)
            && Free(g, fat') == Free(g, fat) - 1))
  }

  lemma BlankCluster(secs: seq<Sector>, n: nat)
    requires 0 < n
    ensures Records(secs) < Records(secs + BlankSectors(n))
    ensures Blanks(Records(secs + BlankSectors(n))[|Records(secs)|..])
  {
    RecordsConcat(secs, BlankSectors(n));
    BlankRecords(n);
    hide Records;
    assert Records(secs + BlankSectors(n))[|Records(secs)|..] == Records(BlankSectors(n));
  }

  /** What growing a directory needs: a chain of its own, which the FAT16 root directory
      does not have, and a free cluster. */
  ghost predicate CanGrow(g: Mounted, fat: seq<nat>, place: Place) {
    place.InChain? && Owns(g, fat, place.chain) && 0 < Free(g, fat)
  }

  /** The scan over all sectors. */
  method ScanForRun(fs: Fatfs, dirCluster: nat, entryCount: nat, ghost place: Place, ghost secs: seq<Sector>)
    returns (found: bool, pSector: nat, pOffset: nat)
    requires Dir(fs, dirCluster, place, secs)
    modifies fs`head, fs`next, fs`order, fs`slots, fs`curAddress, fs`curSector, fs.media
    ensures Dir(fs, dirCluster, place, secs) && fs.OutsideFatUnchanged()
    ensures fs.curAddress == old(fs.curAddress) || fs.curAddress in PlaceLbas(fs.g, place)
    ensures pOffset < PER_SECTOR
    ensures FreeRun(Records(secs), 0, 0, 0, entryCount) ==
            if found then At(PER_SECTOR * pSector + pOffset) else Full(PER_SECTOR * pSector + pOffset)
  {
    hide Dir, PlaceLbas, Records, FreeRun;
    var x: nat, read, possibleSpaces: nat := 0, true, 0;
    found, pSector, pOffset := false, 0, 0;
    while read && !found
      invariant x <= |secs| && pOffset < PER_SECTOR
      invariant Dir(fs, dirCluster, place, secs) && fs.OutsideFatUnchanged()
      invariant fs.curAddress == old(fs.curAddress) || fs.curAddress in PlaceLbas(fs.g, place)
      invariant FreeRun(Records(secs), 0, 0, 0, entryCount) ==
                if found then At(PER_SECTOR * pSector + pOffset)
                else FreeRun(Records(secs), PER_SECTOR * x, possibleSpaces, PER_SECTOR * pSector + pOffset, entryCount)
      invariant !read ==> x == |secs|
      decreases |secs| - x, read
    {
      read := SectorReader(fs, dirCluster, x, place, secs);
      if read {
        WindowOf(secs, x);
        found, possibleSpaces, pSector, pOffset := FreeRunInSector(fs.curSector, x, possibleSpaces, pSector, pOffset,
                                                                   entryCount, Records(secs));
        x := x + 1;
      }
    }
    if !found {
      FreeRunEnd(Records(secs), possibleSpaces, PER_SECTOR * pSector + pOffset, entryCount);
      if possibleSpaces == 0 {
        pSector, pOffset := x, 0;
      }
    }
  }

  /** The call for a full FAT16 root never makes room.  It succeeds if and only if a cluster is
      free and cluster 2 is in use, and then the FAT is damaged; otherwise it fails and the FAT
      is as it was. */
  ghost predicate RootOutcome(g: Mounted, fat: seq<nat>, ok: bool, fat': seq<nat>)
    requires |fat| == g.Entries() && 2 < |fat|
  {
    && (ok <==> 0 < Free(g, fat) && !g.fatType.IsFree(fat[2]))
    && (if ok then exists c :: g.IsCluster(c) && Astray(g, fat, fat', c) else fat' == fat)
  }

  /** fatfs_find_free_dir_offset */
  method FindFreeDirOffset(fs: Fatfs, dirCluster: nat, entryCount: nat, ghost place: Place, ghost secs: seq<Sector>)
    returns (ok: bool, pSector: nat, pOffset: nat, ghost place': Place, ghost secs': seq<Sector>, ghost end: nat)
    requires Dir(fs, dirCluster, place, secs) && |fs.fat| == fs.g.Entries()
    requires FreeRun(Records(secs), 0, 0, 0, entryCount).Full? ==> MayGrow(fs.g, fs.fat, place)
    modifies fs`head, fs`next, fs`order, fs`slots, fs`view, fs`fat, fs`curAddress, fs`curSector, fs.media
    ensures Dir(fs, dirCluster, place', secs') && pOffset < PER_SECTOR
    ensures secs' == if place' == place then secs else secs + BlankSectors(fs.g.sectorsPerCluster)
    ensures FreeRun(Records(secs), 0, 0, 0, entryCount).At? ==> place' == place && (ok <==> entryCount > 0)
    ensures place.Root16? && FreeRun(Records(secs), 0, 0, 0, entryCount).Full? && entryCount > 0 ==>
              && place' == place && 2 < |old(fs.fat)| && RootOutcome(fs.g, old(fs.fat), ok, fs.fat)
              && Full(PER_SECTOR * pSector + pOffset) == FreeRun(Records(secs), 0, 0, 0, entryCount)
    ensures place.InChain? && FreeRun(Records(secs), 0, 0, 0, entryCount).Full? && entryCount > 0 ==>
              (ok <==> old(0 < Free(fs.g, fs.fat)))
    ensures place.InChain? || FreeRun(Records(secs), 0, 0, 0, entryCount).At? || !ok ==>
              && PlaceGrown(fs.g, old(fs.fat), place, fs.fat, place')
              && Within(fs.g, old(fs.media.sectors), fs.media.sectors, PlaceLbas(fs.g, place'))
              && (fs.curAddress == old(fs.curAddress) || fs.curAddress in PlaceLbas(fs.g, place'))
    ensures ok && (place.InChain? || FreeRun(Records(secs), 0, 0, 0, entryCount).At?) ==>
              Settled(Records(secs), Records(secs'), PER_SECTOR * pSector + pOffset, entryCount, end)
    ensures !ok ==> place' == place && fs.fat == old(fs.fat)
  {
    hide Dir, PlaceLbas, Records, FreeRun, Settled, FreeCount, Volume.InFat, Within, MayGrow, PlaceGrown, Astray;
    ghost var before, fat := fs.media.sectors, fs.fat;
    PlaceUnchanged(fs.g, fat, place);
    ok, pSector, pOffset, place', secs', end := false, 0, 0, place, secs, 0;
    if entryCount == 0 {
      WithinNothing(fs.g, before, PlaceLbas(fs.g, place));
      return;
    }
    ok, pSector, pOffset := ScanForRun(fs, dirCluster, entryCount, place, secs);
    ghost var middle := fs.media.sectors;
    FatIsWithin(fs.g, before, middle, PlaceLbas(fs.g, place));
    if ok {
      end := AtSettles(Records(secs), entryCount, PER_SECTOR * pSector + pOffset);
    } else {
      hide Volume.Limit, Volume.Entries, GrowthLinks, LinkedBehind, Enlarged;
      ghost var c;
      MayGrowHasTwo(fs.g, fat, place);
      ok, c := GrowDirectory(fs, dirCluster, place, secs);
      if ok && place.InChain? {
        place', secs' := InChain(place.chain + [c]), secs + BlankSectors(fs.g.sectorsPerCluster);
        GrownRoom(fs, dirCluster, place, fat, before, middle, c, secs);
        FullSettles(Records(secs), Records(secs'), entryCount, PER_SECTOR * pSector + pOffset);
        end := |Records(secs')|;
      } else if !ok {
        FatIsWithin(fs.g, middle, fs.media.sectors, PlaceLbas(fs.g, place));
        WithinTransitive(fs.g, before, middle, fs.media.sectors, PlaceLbas(fs.g, place), PlaceLbas(fs.g, place));
      }
    }
  }

  lemma MayGrowHasTwo(g: Mounted, fat: seq<nat>, place: Place)
    requires MayGrow(g, fat, place)
    ensures |fat| == g.Entries() && 2 < |fat|
    ensures GrowthLinks(g, fat, place) <==> 0 < Free(g, fat) && (place.InChain? || !g.fatType.IsFree(fat[2]))
  {
    hide Free, NoSlack, Reserved;
  }

  lemma PlaceUnchanged(g: Mounted, fat: seq<nat>, place: Place)
    requires |fat| == g.Entries()
    ensures PlaceGrown(g, fat, place, fat, place)
  {
  }

  lemma FatIsWithin(g: Mounted, before: seq<Sector>, after: seq<Sector>, lbas: seq<nat>)
    requires |after| == |before| && forall l :: 0 <= l < |before| && !g.InFat(l) ==> after[l] == before[l]
    ensures Within(g, before, after, lbas)
  {
  }

  lemma GrownRoom(fs: Fatfs, dirCluster: nat, place: Place, fat: seq<nat>, before: seq<Sector>, middle: seq<Sector>,
                  c: nat, secs: seq<Sector>)
    requires place.InChain? && LinkedBehind(fs.g, fat, place.chain, fs.fat, c)
    requires Enlarged(fs, dirCluster, InChain(place.chain + [c]), secs + BlankSectors(fs.g.sectorsPerCluster), middle)
    requires |middle| == |before| && forall l :: 0 <= l < |before| && !fs.g.InFat(l) ==> middle[l] == before[l]
    ensures var place', secs' := InChain(place.chain + [c]), secs + BlankSectors(fs.g.sectorsPerCluster);
            && place' != place && Dir(fs, dirCluster, place', secs') && PlaceGrown(fs.g, fat, place, fs.fat, place')
            && Within(fs.g, before, fs.media.sectors, PlaceLbas(fs.g, place')) &&
               fs.curAddress in PlaceLbas(fs.g, place')
            && Records(secs) < Records(secs') && Blanks(Records(secs')[|Records(secs)|..])
  {
    hide Dir, PlaceLbas, Records, Blanks, Free, Owns, Grown;
    assert |place.chain + [c]| == |place.chain| + 1;
    BlankCluster(secs, fs.g.sectorsPerCluster);
  }
}
