/** Finding room for the records of a new name, and growing a full directory. */
module DirSpace {

  import opened Words
  import opened BlockDevice
  import opened FatEntries
  import opened Geometry
  import opened ChainDefs
  import opened Chains
  import opened FatTable
  import opened FatChain
  import opened FileLayout
  import opened FileSpec
  import opened DirRecords
  import opened DirInsert
  import opened DirLayout
  import opened DirAccess
  import opened DirUpdate

  /* ----------- the scan ----------- */

  /** The sector holds records 16x to 16x + 15. */
  ghost predicate Window(records: seq<Record>, x: nat, sector: Sector) {
    && PER_SECTOR * (x + 1) <= |records|
    && forall i :: 0 <= i < PER_SECTOR ==> records[PER_SECTOR * x + i] == RecordAt(sector, i)
  }

  lemma WindowOf(secs: seq<Sector>, x: nat)
    requires x < |secs|
    ensures Window(Records(secs), x, secs[x])
  {
    hide Records, RecordAt;
    forall i | 0 <= i < PER_SECTOR ensures Records(secs)[PER_SECTOR * x + i] == RecordAt(secs[x], i) {
      RecordsIndex(secs, x, i);
    }
  }

  /** The loop of fatfs_find_free_dir_offset over one sector.  A count of possible spaces other
      than zero means that a start has been recorded. */
  method FreeRunInSector(sector: Sector, x: nat, spaces: nat, startSector: nat, startOffset: nat, entryCount: nat,
                         ghost records: seq<Record>)
    returns (found: bool, possibleSpaces: nat, pSector: nat, pOffset: nat)
    requires Window(records, x, sector) && startOffset < PER_SECTOR
    ensures pOffset < PER_SECTOR
    ensures FreeRun(records, PER_SECTOR * x, spaces, PER_SECTOR * startSector + startOffset, entryCount) ==
            if found then At(PER_SECTOR * pSector + pOffset)
            else FreeRun(records, PER_SECTOR * (x + 1), possibleSpaces, PER_SECTOR * pSector + pOffset, entryCount)
  {
    hide RecordAt, IsLfnText;
    found, possibleSpaces, pSector, pOffset := false, spaces, startSector, startOffset;
    var item := 0;
    while item < PER_SECTOR
      invariant 0 <= item <= PER_SECTOR && pOffset < PER_SECTOR
      invariant FreeRun(records, PER_SECTOR * x, spaces, PER_SECTOR * startSector + startOffset, entryCount)
             == FreeRun(records, PER_SECTOR * x + item, possibleSpaces, PER_SECTOR * pSector + pOffset, entryCount)
    {
      var entry := RecordAt(sector, item);
      assert records[PER_SECTOR * x + item] == entry;
      if IsLfnText(entry) || entry[0] == DELETED || entry[0] == BLANK {
        if possibleSpaces == 0 {
          pSector, pOffset := x, item;
        }
        possibleSpaces := possibleSpaces + 1;
        if !IsLfnText(entry) && possibleSpaces >= entryCount {
          found := true;
          return;
        }
      } else {
        possibleSpaces := 0;
      }
      item := item + 1;
    }
  }

  lemma FreeRunEnd(records: seq<Record>, spaces: nat, start: nat, need: nat)
    ensures FreeRun(records, |records|, spaces, start, need) == Full(if spaces == 0 then |records| else start)
  {
  }

  /* ----------- growing ----------- */

  /** fatfs_write_sector from currentsector, outside the FAT16 root directory. */
  method WriteSector(fs: Fatfs, cluster: nat, sector: nat) returns (ok: bool)
    requires fs.Valid() && fs.media.Reliable()
    requires fs.g.IsCluster(cluster) && sector < fs.g.sectorsPerCluster
    modifies fs`curAddress, fs.media
    ensures fs.Valid() && ok
    ensures fs.curAddress == fs.g.Lba(cluster) + sector < |fs.media.sectors|
    ensures fs.media.sectors == old(fs.media.sectors)[fs.curAddress := fs.curSector]
  {
    LbaInjective(fs.g, cluster, sector, cluster, sector);
    hide Fatfs.ValidWith, Decode;
    fs.curAddress := fs.g.Lba(cluster) + sector;
    ok := fs.WriteOther(fs.curAddress, fs.curSector);
  }

  /** Fill a new cluster with zeros through currentsector. */
  method EraseCluster(fs: Fatfs, newCluster: nat) returns (ok: bool)
    requires fs.Valid() && fs.media.Reliable() && fs.g.IsCluster(newCluster)
    modifies fs`curAddress, fs`curSector, fs.media
    ensures fs.Valid() && ok
    ensures Erased(old(fs.media.sectors), fs.media.sectors, fs.g.Lba(newCluster), fs.g.sectorsPerCluster)
    ensures fs.g.Lba(newCluster) <= fs.curAddress < fs.g.Lba(newCluster) + fs.g.sectorsPerCluster
    ensures fs.curAddress < |fs.media.sectors| && fs.curSector == fs.media.sectors[fs.curAddress]
  {
    hide Fatfs.ValidWith, Decode, Volume.Span;
    fs.curSector := Zeros(SECTOR_SIZE);
    ok := true;
    var i := 0;
    while i < fs.g.sectorsPerCluster
      invariant 0 <= i <= fs.g.sectorsPerCluster && ok
      invariant fs.Valid() && fs.curSector == Zeros(SECTOR_SIZE)
      invariant Erased(old(fs.media.sectors), fs.media.sectors, fs.g.Lba(newCluster), i)
      invariant i > 0 ==> fs.curAddress == fs.g.Lba(newCluster) + i - 1 < |fs.media.sectors|
    {
      ok := WriteSector(fs, newCluster, i);
      i := i + 1;
    }
  }

  function BlankSectors(n: nat): (secs: seq<Sector>)
    ensures |secs| == n
  {
    seq<Sector>(n, _ => Zeros(SECTOR_SIZE))
  }

  lemma GrownLbas(g: Mounted, chain: seq<nat>, c: nat)
    requires AllClusters(g, chain) && g.IsCluster(c)
    ensures AllClusters(g, chain + [c]) && Lbas(g, chain + [c]) == Lbas(g, chain) + ClusterLbas(g, c)
  {
    assert (chain + [c])[..|chain|] == chain;
  }

  /** The sectors of the list, and behind them n that have been erased. */
  lemma HoldErased(g: Mounted, lbas: seq<nat>, lba: nat, new_: seq<nat>, before: seq<Sector>, middle: seq<Sector>,
                   after: seq<Sector>, secs: seq<Sector>)
    requires Hold(before, lbas, secs) && |middle| == |before|
    requires forall s :: 0 <= s < |lbas| ==> !g.InMeta(lbas[s])
    requires forall l :: 0 <= l < |before| && !g.InMeta(l) ==> middle[l] == before[l]
    requires lba + |new_| <= |before| && forall i :: 0 <= i < |new_| ==> new_[i] == lba + i
    requires forall s, u :: 0 <= s < |lbas| && 0 <= u < |new_| ==> lbas[s] != new_[u]
    requires Erased(middle, after, lba, |new_|)
    ensures Hold(after, lbas + new_, secs + BlankSectors(|new_|))
    ensures Within(g, before, after, lbas + new_)
    ensures forall l :: lba <= l < lba + |new_| ==> l in lbas + new_
  {
    var all := lbas + new_;
    forall l | lba <= l < lba + |new_| ensures l in all {
      assert all[|lbas| + (l - lba)] == new_[l - lba];
    }
    forall s | 0 <= s < |lbas| ensures after[lbas[s]] == secs[s] {
      InRun(new_, lba, lbas[s]);
    }
  }

  lemma InRun(run: seq<nat>, lba: nat, l: nat)
    requires forall i :: 0 <= i < |run| ==> run[i] == lba + i
    ensures lba <= l < lba + |run| ==> l in run
  {
    if lba <= l < lba + |run| {
      assert run[l - lba] == l;
    }
  }

  lemma PartsInData(g: Mounted, lbas: seq<nat>, new_: seq<nat>)
    requires forall s :: 0 <= s < |lbas + new_| ==> !g.InMeta((lbas + new_)[s])
    requires forall s, u :: 0 <= s < u < |lbas + new_| ==> (lbas + new_)[s] != (lbas + new_)[u]
    ensures forall s :: 0 <= s < |lbas| ==> !g.InMeta(lbas[s])
    ensures forall s, u :: 0 <= s < |lbas| && 0 <= u < |new_| ==> lbas[s] != new_[u]
  {
    hide Volume.InMeta, Volume.WellFormed;
    var all := lbas + new_;
    forall s | 0 <= s < |lbas| ensures !g.InMeta(lbas[s]) {
      assert all[s] == lbas[s];
    }
    forall s, u | 0 <= s < |lbas| && 0 <= u < |new_| ensures lbas[s] != new_[u] {
      assert all[s] != all[|lbas| + u];
    }
  }

  lemma ClusterInData(g: Mounted, c: nat, lba: nat, new_: seq<nat>)
    requires g.IsCluster(c) && lba == g.Lba(c) && new_ == ClusterLbas(g, c)
    ensures |new_| == g.sectorsPerCluster && lba + |new_| <= g.total
    ensures forall i :: 0 <= i < |new_| ==> new_[i] == lba + i
  {
    var last := g.sectorsPerCluster - 1;
    LbaInjective(g, c, last, c, last);
  }

  /** A new last cluster full of zeros: the directory goes on in it. */
  lemma GrownHolds(g: Mounted, fat: seq<nat>, chain: seq<nat>, c: nat, before: seq<Sector>, middle: seq<Sector>,
                   after: seq<Sector>, secs: seq<Sector>)
    requires IsChain(g.fatType, fat, g.Limit(), chain + [c]) && AllClusters(g, chain) && g.IsCluster(c)
    requires Hold(before, Lbas(g, chain), secs) && |before| == g.total
    requires |middle| == |before| && forall l :: 0 <= l < |before| && !g.InMeta(l) ==> middle[l] == before[l]
    requires Erased(middle, after, g.Lba(c), g.sectorsPerCluster)
    ensures AllClusters(g, chain + [c])
    ensures Hold(after, Lbas(g, chain + [c]), secs + BlankSectors(g.sectorsPerCluster))
    ensures Within(g, before, after, Lbas(g, chain + [c]))
    ensures forall l :: g.Lba(c) <= l < g.Lba(c) + g.sectorsPerCluster ==> l in Lbas(g, chain + [c])
  {
    hide IsChain, Lbas, Hold, Erased, Within, AllClusters, Volume.Lba, Volume.InMeta, Volume.WellFormed, ClusterLbas;
    var lbas, new_ := Lbas(g, chain), ClusterLbas(g, c);
    LbasInData(g, fat, chain + [c]);
    GrownLbas(g, chain, c);
    PartsInData(g, lbas, new_);
    var lba := g.Lba(c);
    ClusterInData(g, c, lba, new_);
    HoldErased(g, lbas, lba, new_, before, middle, after, secs);
  }

  /** A chain that starts at cluster 2. */
  ghost predicate FromTwo(g: Mounted, fat: seq<nat>, chain: seq<nat>) {
    IsChain(g.fatType, fat, g.Limit(), chain) && chain[0] == 2
  }

  /** The FAT of a volume whose directory there may have to grow: the directory has a chain, or
      is the FAT16 root, and cluster 2, if it is in use, is part of one. */
  ghost predicate MayGrow(g: Mounted, fat: seq<nat>, place: Place) {
    && |fat| == g.Entries() && Reserved(g.fatType, fat, g.rootFirstCluster) && 2 < |fat|
    && (0 < Free(g, fat) || NoSlack(g, fat))
    && (match place
        case InChain(chain) => Owns(g, fat, chain)
        case Root16 => g.fatType.IsFree(fat[2]) || exists chain :: FromTwo(g, fat, chain))
  }

  /** Growing links a cluster to the directory, or, for the FAT16 root, to something else. */
  ghost predicate GrowthLinks(g: Mounted, fat: seq<nat>, place: Place)
    requires |fat| == g.Entries() && 2 < |fat|
  {
    0 < Free(g, fat) && (place.InChain? || !g.fatType.IsFree(fat[2]))
  }

  /** What growing the FAT16 root does to the FAT: c is linked behind the chain at cluster 2,
      or, when that is one cluster, entry 0 is overwritten. */
  ghost predicate Astray(g: Mounted, fat: seq<nat>, fat': seq<nat>, c: nat) {
    && 2 <= c < |fat| && 2 < |fat| && g.fatType.IsFree(fat[c])
    && exists chain ::
         FromTwo(g, fat, chain) && fat' == LinkLast(g.fatType, fat, if |chain| == 1 then 0 else chain[|chain| - 1], c)
  }

  /** Either way an entry that was in use is lost: the end of another chain, or entry 0. */
  lemma AstrayDamages(g: Mounted, fat: seq<nat>, fat': seq<nat>, c: nat)
    requires Astray(g, fat, fat', c) && c < g.Limit()
    ensures fat'[0] == c ||
            exists d :: 2 <= d < |fat| && d != c && g.fatType.Next(fat[d]) == LAST && g.fatType.Next(fat'[d]) == c
  {
    var chain :| FromTwo(g, fat, chain) && fat' ==
        LinkLast(g.fatType, fat, if |chain| == 1 then 0 else chain[|chain| - 1], c);
    RootGrowthGoesAstray(g.fatType, fat, g.Limit(), chain, c);
    if |chain| > 1 {
      var d := chain[|chain| - 1];
      assert (chain + [c])[|chain| - 1] == d && (chain + [c])[|chain|] == c;
      assert g.fatType.Next(fat'[d]) == c;
    }
  }

  /** Take the first free cluster and link it to the end of the directory. */
  method LinkFresh(fs: Fatfs, dirCluster: nat, ghost place: Place) returns (ok: bool, newCluster: nat)
    requires fs.Valid() && fs.media.Reliable() && MayGrow(fs.g, fs.fat, place)
    requires dirCluster == if place.InChain? then place.chain[0] else 0
    modifies fs`head, fs`next, fs`order, fs`slots, fs`view, fs`fat, fs.media
    ensures fs.Valid() && fs.OutsideFatUnchanged()
    ensures ok <==> GrowthLinks(fs.g, old(fs.fat), place)
    ensures ok ==> fs.g.IsCluster(newCluster)
    ensures if !ok then fs.fat == old(fs.fat)
            else if place.InChain? then LinkedBehind(fs.g, old(fs.fat), place.chain, fs.fat, newCluster)
            else Astray(fs.g, old(fs.fat), fs.fat, newCluster)
  {
    hide Fatfs.ValidWith, Decode, FirstFree, FreeCount, LinkLast, Reserved, Volume.InFat, NoSlack, LinkedBehind,
         IsChain, Astray, FromTwo;
    SpareCluster(fs.g, fs.fat);
    ghost var fat := fs.fat;
    ghost var chain := ChainToGrow(fs.g, fat, dirCluster, place);
    hide MayGrow, Owns;
    ok, newCluster := fs.FindBlankCluster(fs.g.rootFirstCluster);
    if !ok {
      return;
    }
    ok := AddClusterToChain(fs, dirCluster, newCluster, chain);
    if ok {
      LinksSomewhere(fs.g, fat, place, chain, newCluster);
    }
  }

  /** The chain that growing the directory walks. */
  lemma ChainToGrow(g: Mounted, fat: seq<nat>, dirCluster: nat, place: Place) returns (chain: seq<nat>)
    requires MayGrow(g, fat, place) && dirCluster == if place.InChain? then place.chain[0] else 0
    ensures Walked(g, fat, dirCluster, place, chain)
  {
    chain := [];
    if place.InChain? {
      chain := place.chain;
    } else if !g.fatType.IsFree(fat[2]) {
      chain :| FromTwo(g, fat, chain);
    }
  }

  ghost predicate Walked(g: Mounted, fat: seq<nat>, dirCluster: nat, place: Place, chain: seq<nat>) {
    && |fat| == g.Entries() && 2 < |fat|
    && (if place.Root16? && g.fatType.IsFree(fat[2]) then
          dirCluster == 0
        else
          && IsChain(g.fatType, fat, g.Limit(), chain)
          && (dirCluster == chain[0] || (dirCluster == 0 && chain[0] == 2)))
    && (place.InChain? ==> Owns(g, fat, chain) && chain == place.chain && dirCluster >= 2)
    && (place.Root16? ==> dirCluster == 0)
  }

  lemma LinksSomewhere(g: Mounted, fat: seq<nat>, place: Place, chain: seq<nat>, c: nat)
    requires Walked(g, fat, if place.InChain? && |chain| > 0 then chain[0] else 0, place, chain)
    requires 0 < Free(g, fat) && c == FirstFree(g.fatType, fat, g.rootFirstCluster) < |fat| && g.IsCluster(c)
    requires place.InChain? || !g.fatType.IsFree(fat[2])
    ensures |chain| > 0
    ensures var fat' := LinkLast(g.fatType, fat, if place.Root16? && |chain| == 1 then 0 else chain[|chain| - 1], c);
            if place.InChain? then LinkedBehind(g, fat, place.chain, fat', c) else Astray(g, fat, fat', c)
  {
    if place.InChain? {
      LinksBehind(g, fat, chain, c);
    } else {
      assert FromTwo(g, fat, chain);
    }
  }

  ghost predicate LinkedBehind(g: Mounted, fat: seq<nat>, chain: seq<nat>, fat': seq<nat>, c: nat) {
    && |fat| == |fat'| == g.Entries()
    && Grown(g.fatType, g.Limit(), fat, chain, fat', chain + [c])
    && Owns(g, fat', chain + [c]) && Free(g, fat') == Free(g, fat) - 1
  }

  lemma LinksBehind(g: Mounted, fat: seq<nat>, chain: seq<nat>, c: nat)
    requires Owns(g, fat, chain) && 0 < Free(g, fat) && c == FirstFree(g.fatType, fat, g.rootFirstCluster) < |fat|
    ensures LinkedBehind(g, fat, chain, LinkLast(g.fatType, fat, chain[|chain| - 1], c), c)
  {
    hide FirstFree, FreeCount, LinkLast, Reserved, IsChain;
    var c1, fat1 := AddOneGrows(g.fatType, fat, g.Limit(), g.rootFirstCluster, chain);
  }

  /** The directory after growing, and what has changed on the medium besides FAT and FSInfo. */
  ghost predicate Enlarged(fs: Fatfs, dirCluster: nat, place: Place, secs: seq<Sector>, before: seq<Sector>)
    reads fs`slots, fs`next, fs`head, fs`order, fs`view, fs`fat, fs`curAddress, fs`curSector, fs.media`sectors
  {
    && Dir(fs, dirCluster, place, secs)
    && Within(fs.g, before, fs.media.sectors, PlaceLbas(fs.g, place))
    && fs.curAddress in PlaceLbas(fs.g, place)
  }

  /** fatfs_find_free_dir_offset, out of records: link a free cluster to the end of the
      directory and erase it. */
  method GrowDirectory(fs: Fatfs, dirCluster: nat, ghost place: Place, ghost secs: seq<Sector>)
    returns (ok: bool, ghost c: nat)
    requires Dir(fs, dirCluster, place, secs) && MayGrow(fs.g, fs.fat, place)
    modifies fs`head, fs`next, fs`order, fs`slots, fs`view, fs`fat, fs`curAddress, fs`curSector, fs.media
    ensures ok <==> GrowthLinks(fs.g, old(fs.fat), place)
    ensures !ok ==>
            Dir(fs, dirCluster, place, secs) && fs.OutsideFatUnchanged() && fs.fat == old(fs.fat) &&
            fs.curAddress == old(fs.curAddress)
    ensures ok && place.InChain? ==>
              && Enlarged(fs, dirCluster, InChain(place.chain + [c]), secs + BlankSectors(fs.g.sectorsPerCluster),
                          old(fs.media.sectors))
              && LinkedBehind(fs.g, old(fs.fat), place.chain, fs.fat, c)
    ensures ok && place.Root16? ==>
              && Dir(fs, dirCluster, place, secs) && Astray(fs.g, old(fs.fat), fs.fat, c) && fs.g.IsCluster(c)
              && Within(fs.g, old(fs.media.sectors), fs.media.sectors, ClusterLbas(fs.g, c))
  {
    hide Fatfs.ValidWith, Decode, FreeCount, Reserved, Volume.InFat, Volume.Span, IsChain, Hold, Lbas, Erased,
         AllClusters, Grown, Owns, Astray, LinkedBehind, Within, PlaceLbas, GrowthLinks;
    ghost var before, fat := fs.media.sectors, fs.fat;
    c := 0;
    DirParts(fs, dirCluster, place, secs);
    var newCluster;
    ok, newCluster := LinkFresh(fs, dirCluster, place);
    if !ok {
      DirAfterFat(fs, dirCluster, place, secs, before);
      return;
    }
    c := newCluster;
    ghost var middle := fs.media.sectors;
    ok := EraseCluster(fs, newCluster);
    if place.InChain? {
      EnlargedBy(fs, dirCluster, place.chain, c, fat, before, middle, secs);
    } else {
      RootAfterErasing(fs, dirCluster, c, before, middle, secs);
    }
  }

  /** What Dir says without the buffers. */
  lemma DirParts(fs: Fatfs, dirCluster: nat, place: Place, secs: seq<Sector>)
    requires Dir(fs, dirCluster, place, secs)
    ensures fs.Valid() && fs.media.Reliable() && IsPlace(fs.g, fs.fat, dirCluster, place)
    ensures dirCluster == if place.InChain? then place.chain[0] else 0
    ensures Hold(fs.media.sectors, PlaceLbas(fs.g, place), secs)
    ensures LoadedFrom(fs.g, fs.media.sectors, fs.curAddress, fs.curSector)
  {
    hide Fatfs.ValidWith, Decode, Hold, Lbas;
  }

  ghost predicate LoadedFrom(g: Mounted, sectors: seq<Sector>, address: nat, buffer: Sector) {
    address == LAST || (address < |sectors| && !g.InMeta(address) && buffer == sectors[address])
  }

  /** Changing the FAT sectors of the medium does not touch the directory. */
  lemma DirAfterFat(fs: Fatfs, dirCluster: nat, place: Place, secs: seq<Sector>, before: seq<Sector>)
    requires fs.Valid() && fs.media.Reliable() && IsPlace(fs.g, fs.fat, dirCluster, place)
    requires Hold(before, PlaceLbas(fs.g, place), secs) && LoadedFrom(fs.g, before, fs.curAddress, fs.curSector)
    requires |fs.media.sectors| == |before| && forall l :: 0 <= l < |before| && !fs.g.InFat(l) ==>
             fs.media.sectors[l] == before[l]
    ensures Dir(fs, dirCluster, place, secs)
  {
    PlaceLbasSound(fs.g, fs.fat, dirCluster, place);
    hide Fatfs.ValidWith, Decode, IsPlace, PlaceLbas;
    HoldOutsideMeta(fs.g, before, fs.media.sectors, PlaceLbas(fs.g, place), secs);
  }

  /** The directory with the new cluster behind it. */
  lemma EnlargedBy(fs: Fatfs, dirCluster: nat, chain: seq<nat>, c: nat, fat: seq<nat>, before: seq<Sector>,
                   middle: seq<Sector>, secs: seq<Sector>)
    requires fs.Valid() && fs.media.Reliable() && IsPlace(fs.g, fat, dirCluster, InChain(chain)) && fs.g.IsCluster(c)
    requires LinkedBehind(fs.g, fat, chain, fs.fat, c)
    requires Hold(before, PlaceLbas(fs.g, InChain(chain)), secs) && |before| == fs.g.total
    requires |middle| == |before| && forall l :: 0 <= l < |before| && !fs.g.InFat(l) ==> middle[l] == before[l]
    requires Erased(middle, fs.media.sectors, fs.g.Lba(c), fs.g.sectorsPerCluster)
    requires fs.g.Lba(c) <= fs.curAddress < fs.g.Lba(c) + fs.g.sectorsPerCluster
    requires fs.curAddress < |fs.media.sectors| && fs.curSector == fs.media.sectors[fs.curAddress]
    ensures Enlarged(fs, dirCluster, InChain(chain + [c]), secs + BlankSectors(fs.g.sectorsPerCluster), before)
  {
    assert |chain| > 0;
    hide Fatfs.ValidWith, Decode, FreeCount, Reserved, Volume.Span, IsChain, Hold, Lbas, Erased, AllClusters, Within,
         Dir;
    GrownHolds(fs.g, fs.fat, chain, c, before, middle, fs.media.sectors, secs);
    GrownLoaded(fs, dirCluster, chain, c, secs + BlankSectors(fs.g.sectorsPerCluster));
  }

  /** The FAT16 root after a cluster of the data area has been erased. */
  lemma RootAfterErasing(fs: Fatfs, dirCluster: nat, c: nat, before: seq<Sector>, middle: seq<Sector>,
                         secs: seq<Sector>)
    requires fs.Valid() && fs.media.Reliable() && IsPlace(fs.g, fs.fat, dirCluster, Root16) && fs.g.IsCluster(c)
    requires Hold(before, PlaceLbas(fs.g, Root16), secs) && |before| == fs.g.total
    requires |middle| == |before| && forall l :: 0 <= l < |before| && !fs.g.InFat(l) ==> middle[l] == before[l]
    requires Erased(middle, fs.media.sectors, fs.g.Lba(c), fs.g.sectorsPerCluster)
    requires fs.g.Lba(c) <= fs.curAddress < fs.g.Lba(c) + fs.g.sectorsPerCluster
    requires fs.curAddress < |fs.media.sectors| && fs.curSector == fs.media.sectors[fs.curAddress]
    ensures Dir(fs, dirCluster, Root16, secs)
    ensures Within(fs.g, before, fs.media.sectors, ClusterLbas(fs.g, c))
  {
    hide Fatfs.ValidWith, Decode, Volume.Span;
    LbaInjective(fs.g, c, 0, c, 0);
    forall l | 0 <= l < |before| && !fs.g.InMeta(l) && l !in ClusterLbas(fs.g, c)
      ensures fs.media.sectors[l] == before[l]
    {
      InRun(ClusterLbas(fs.g, c), fs.g.Lba(c), l);
    }
  }

  lemma GrownLoaded(fs: Fatfs, dirCluster: nat, chain: seq<nat>, c: nat, secs: seq<Sector>)
    requires fs.Valid() && fs.media.Reliable()
    requires IsChain(fs.g.fatType, fs.fat, fs.g.Limit(), chain + [c]) && AllClusters(fs.g, chain + [c])
    requires |chain| > 0 && chain[0] == dirCluster && fs.g.IsCluster(c)
    requires Hold(fs.media.sectors, Lbas(fs.g, chain + [c]), secs)
    requires fs.g.Lba(c) <= fs.curAddress < fs.g.Lba(c) + fs.g.sectorsPerCluster
    requires fs.curAddress < |fs.media.sectors| && fs.curSector == fs.media.sectors[fs.curAddress]
    ensures Dir(fs, dirCluster, InChain(chain + [c]), secs)
  {
    hide Fatfs.ValidWith, Decode, IsChain, Hold, AllClusters, Lbas, Volume.Span;
  }

  /* ----------- what a new cluster of records is ----------- */

  lemma {:induction false} BlankRecords(n: nat)
    ensures forall i :: 0 <= i < PER_SECTOR * n ==> Records(BlankSectors(n))[i] == Zeros(ENTRY_SIZE)
  {
    if n > 0 {
      BlankRecords(n - 1);
      assert BlankSectors(n)[..n - 1] == BlankSectors(n - 1);
      hide RecordAt;
      forall i | 0 <= i < PER_SECTOR ensures RecordAt(Zeros(SECTOR_SIZE), i) == Zeros(ENTRY_SIZE) {
        ZeroRecord(i);
      }
    }
  }

  lemma ZeroRecord(i: nat)
    requires i < PER_SECTOR
    ensures RecordAt(Zeros(SECTOR_SIZE), i) == Zeros(ENTRY_SIZE)
  {
  }

  lemma ZeroIsUnused()
    ensures var r: Record := Zeros(ENTRY_SIZE); IsUnused(r) && !IsLive(r) && !IsLfnText(r)
  {
  }
}
