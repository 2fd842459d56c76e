/** An open file, and the two routines that move its sectors to and from the medium. */
module FileSectors {

  import opened Words
  import opened FatEntries
  import opened Geometry
  import opened ChainDefs
  import opened Chains
  import opened FatTable
  import opened FatChain
  import opened FatSpace
  import opened FatAccess
  import opened FileLayout
  import opened FileSpec
  import opened FileContent
  import opened DirRecords

  /** FL_FILE */
  class FlFile {
    var parentCluster: nat
    var shortName: ShortName
    var startCluster: nat
    var byteNum: nat            // the file position
    var fileLength: nat
    var lengthChanged: bool
    var lookupIdx: word32       // last_fat_lookup
    var lookupCluster: nat
    var dataSector: Sector      // the sector buffer
    var dataAddress: nat
    var dataDirty: bool
    var canRead: bool           // the flags FILE_READ, FILE_WRITE and FILE_APPEND
    var canWrite: bool
    var append: bool

    ghost var chain: seq<nat>     // the clusters of the file
    ghost var secs: seq<Sector>   // its logical sectors

    ghost predicate OnChain(fs: Fatfs)
      reads this`chain, this`startCluster, this`lookupIdx, this`lookupCluster, fs`fat
    {
      && Owns(fs.g, fs.fat, chain)
      && chain[0] == startCluster
      && Shortcut(chain, lookupIdx, lookupCluster)
    }

    /** The buffer and the medium together hold the logical sectors. */
    ghost predicate Held(fs: Fatfs)
      reads this`chain, this`startCluster, this`lookupIdx, this`lookupCluster
      reads this`dataSector, this`dataAddress, this`dataDirty, this`secs, fs`fat, fs.media`sectors
    {
      && OnChain(fs)
      && AllClusters(fs.g, chain)
      && Coupled(fs.media.sectors, Lbas(fs.g, chain), dataDirty, dataAddress, dataSector, secs)
    }

    /** And there is room for them. */
    ghost predicate Buffered(fs: Fatfs)
      reads this`chain, this`startCluster, this`lookupIdx, this`lookupCluster
      reads this`dataSector, this`dataAddress, this`dataDirty, this`secs, fs`fat, fs.media`sectors
    {
      Held(fs) && |secs| <= Capacity(fs.g, fs.fat, chain)
    }

    /** An open file between calls. */
    ghost predicate Valid(fs: Fatfs)
      reads this`chain, this`startCluster, this`lookupIdx, this`lookupCluster
      reads this`dataSector, this`dataAddress, this`dataDirty, this`secs, fs`fat, fs.media`sectors
      reads this`byteNum, this`fileLength
    {
      && Buffered(fs)
      && byteNum <= fileLength <= SECTOR_SIZE * |secs|
      && fileLength < WORD32
      && (dataDirty ==> SECTOR_SIZE * dataAddress < byteNum)
    }

    ghost function Snapshot(fs: Fatfs): Snap
      reads this`chain, this`secs, fs`fat, fs.media`sectors
    {
      Snap(fs.fat, chain, fs.media.sectors, secs)
    }

    /** The bytes of the file. */
    ghost function Contents(): seq<byte>
      requires fileLength <= SECTOR_SIZE * |secs|
      reads this`secs, this`fileLength
    {
      Content(secs, fileLength)
    }
  }

  lemma ChainBounds(g: Mounted, fat: seq<nat>, chain: seq<nat>)
    requires Owns(g, fat, chain)
    ensures IsChain(g.fatType, fat, g.Limit(), chain) && 0 < |chain| < LAST
    ensures forall k :: 0 <= k < |chain| ==> chain[k] < |fat| && chain[k] != LAST
  {
    DistinctBelow(chain, g.Limit());
  }

  /** The search both sector routines share: use the last lookup if it is this cluster, walk
      one link from it if it is the one before, else walk from the start of the chain. */
  method FindCluster(fs: Fatfs, file: FlFile, clusterIdx: nat) returns (cluster: nat, lastCluster: nat)
    requires fs.Valid() && fs.media.Reliable()
    requires file.OnChain(fs) && clusterIdx <= |file.chain|
    modifies fs`head, fs`next, fs`order, fs`slots, fs.media
    ensures fs.Valid() && fs.OutsideFatUnchanged()
    ensures |file.chain| < LAST
    ensures clusterIdx < |file.chain| ==> cluster == file.chain[clusterIdx] != LAST
    ensures clusterIdx == |file.chain| ==> cluster == LAST && lastCluster == file.chain[|file.chain| - 1]
  {
    hide Fatfs.ValidWith, Decode, Owns, IsChain, Volume.Limit;
    ChainBounds(fs.g, fs.fat, file.chain);
    if clusterIdx == file.lookupIdx {
      cluster, lastCluster := file.lookupCluster, LAST;
    } else if clusterIdx != 0 && clusterIdx == (file.lookupIdx + 1) % WORD32 {
      cluster, lastCluster := WalkChain(fs, file.chain, file.lookupIdx, file.lookupCluster, clusterIdx);
    } else {
      cluster, lastCluster := WalkChain(fs, file.chain, 0, file.startCluster, clusterIdx);
    }
  }

  /** The division at the head of both sector routines, and their limit to one cluster. */
  method SplitRun(g: Mounted, offset: nat, wanted: nat) returns (clusterIdx: nat, sector: nat, count: nat)
    requires wanted > 0
    ensures offset == g.Span(clusterIdx) + sector && sector < g.sectorsPerCluster
    ensures 1 <= count <= wanted && sector + count <= g.sectorsPerCluster
  {
    clusterIdx, sector := SplitSector(g, offset);
    count := wanted;
    if sector + count > g.sectorsPerCluster {
      count := g.sectorsPerCluster - sector;
    }
  }

  /** The transfer that ends _read_sectors: a run inside the cluster of index k. */
  method ReadRun(fs: Fatfs, ghost chain: seq<nat>, ghost k: nat, cluster: nat, sector: nat, count: nat)
    returns (data: seq<byte>)
    requires fs.Valid() && fs.media.Reliable()
    requires IsChain(fs.g.fatType, fs.fat, fs.g.Limit(), chain) && k < |chain| && cluster == chain[k]
    requires count > 0 && sector + count <= fs.g.sectorsPerCluster
    modifies fs.media
    ensures fs.Valid() && fs.OutsideFatUnchanged()
    ensures fs.g.Span(k) + sector + count <= fs.g.Span(|chain|)
    ensures AllClusters(fs.g, chain) && Fetched(fs.media.sectors, Lbas(fs.g, chain), fs.g.Span(k) + sector, count, data)
  {
    hide Fatfs.ValidWith, Decode, Volume.Span, IsChain, Lbas, Volume.Lba;
    ChainIsClusters(fs.g, fs.fat, chain);
    RunInCluster(fs.g, fs.fat, chain, k, sector, count);
    var lba := fs.g.Lba(cluster) + sector;
    var ok;
    ok, data := SectorRead(fs, lba, count);
  }

  /** _read_sectors: read up to `wanted` sectors of the file, stopping at the end of the
      cluster.  Reading just past the last allocated sector gives nothing. */
  method ReadSectors(fs: Fatfs, file: FlFile, offset: nat, wanted: nat) returns (got: nat, data: seq<byte>)
    requires fs.Valid() && fs.media.Reliable()
    requires file.OnChain(fs) && AllClusters(fs.g, file.chain)
    requires wanted > 0 && offset <= fs.g.Span(|file.chain|)
    modifies fs`head, fs`next, fs`order, fs`slots, fs.media, file`lookupIdx, file`lookupCluster
    ensures fs.Valid() && fs.OutsideFatUnchanged() && file.OnChain(fs)
    ensures got <= wanted && offset + got <= fs.g.Span(|file.chain|)
    ensures got == 0 <==> offset == fs.g.Span(|file.chain|)
    ensures Fetched(fs.media.sectors, Lbas(fs.g, file.chain), offset, got, data)
  {
    hide Fatfs.ValidWith, Decode, Reserved, Volume.Span, IsChain, AllClusters;
    var clusterIdx, sector, count := SplitRun(fs.g, offset, wanted);
    WhereInChain(fs.g, file.chain, offset, clusterIdx, sector);
    var cluster, _ := FindCluster(fs, file, clusterIdx);
    if cluster != LAST {
      file.lookupCluster := cluster;
      file.lookupIdx := clusterIdx;
    }
    if cluster == LAST {
      return 0, [];
    }
    data := ReadRun(fs, file.chain, clusterIdx, cluster, sector, count);
    got := count;
  }

  method ClustersForSectors(g: Mounted, count: nat) returns (n: nat)
    requires count > 0
    ensures g.RoundsUp(count, n)
  {
    n := (count + g.sectorsPerCluster - 1) / g.sectorsPerCluster;
    ghost var _ := RoundUp(g, count);
  }

  /** At the end of the chain, take the clusters for all the sectors still to be written.  When
      they are not all there, it takes what is left and fails. */
  method ExtendFile(fs: Fatfs, file: FlFile, lastCluster: nat, wanted: nat)
    returns (ok: bool, cluster: nat, ghost n: nat)
    requires fs.Valid() && fs.media.Reliable()
    requires file.OnChain(fs) && lastCluster == file.chain[|file.chain| - 1]
    requires wanted > 0 && (fs.g.Span(|file.chain|) + wanted <= Capacity(fs.g, fs.fat, file.chain) ||
                            NoSlack(fs.g, fs.fat))
    modifies fs`head, fs`next, fs`order, fs`slots, fs`view, fs`fat, fs`nextFree, fs.media, file`chain
    ensures fs.Valid() && fs.OutsideMetaUnchanged() && file.OnChain(fs)
    ensures Grown(fs.g.fatType, fs.g.Limit(), old(fs.fat), old(file.chain), fs.fat, file.chain)
    ensures Capacity(fs.g, fs.fat, file.chain) == old(Capacity(fs.g, fs.fat, file.chain))
    ensures ok <==> old(fs.g.Span(|file.chain|)) + wanted <= Capacity(fs.g, fs.fat, file.chain)
    ensures ok ==>
            |file.chain| == old(|file.chain|) + n && fs.g.RoundsUp(wanted, n) && n > 0 &&
            cluster == file.chain[old(|file.chain|)]
  {
    hide Fatfs.ValidWith, Decode, AddSpace, IsChain, Volume.Span, Volume.RoundsUp, FreeCount, Grown, Capacity, Owns,
         NoSlack;
    ChainBounds(fs.g, fs.fat, file.chain);
    var clusters := ClustersForSectors(fs.g, wanted);
    ghost var fat', added := GrowFits(fs.g, fs.fat, file.chain, wanted, clusters);
    ok, cluster := AddFreeSpace(fs, lastCluster, clusters);
    file.chain := file.chain + added;
    n := clusters;
  }

  /** The transfer that ends _write_sectors: a run inside the cluster of index k. */
  method WriteRun(fs: Fatfs, ghost chain: seq<nat>, ghost k: nat, cluster: nat, sector: nat, buf: seq<byte>, count: nat)
    returns (ok: bool)
    requires fs.Valid() && fs.media.Reliable()
    requires IsChain(fs.g.fatType, fs.fat, fs.g.Limit(), chain) && k < |chain| && cluster == chain[k]
    requires count > 0 && SECTOR_SIZE * count <= |buf| && sector + count <= fs.g.sectorsPerCluster
    modifies fs.media
    ensures fs.Valid() && ok && AllClusters(fs.g, chain)
    ensures fs.g.Span(k) + sector + count <= fs.g.Span(|chain|)
    ensures Stored(fs.g, old(fs.media.sectors), fs.media.sectors, Lbas(fs.g, chain), fs.g.Span(k) + sector, count, buf)
  {
    hide Fatfs.ValidWith, Decode, Volume.Span, IsChain, Run, Lbas, AllClusters, Stored, RunWritten, Volume.InMeta,
         Volume.Lba, Volume.DataBegin;
    ChainIsClusters(fs.g, fs.fat, chain);
    MemberIsCluster(fs.g, chain, k);
    RunInCluster(fs.g, fs.fat, chain, k, sector, count);
    LbasInData(fs.g, fs.fat, chain);
    RunNotInFat(fs.g, fs.g.Lba(cluster) + sector, count);
    RunEnds(Lbas(fs.g, chain), fs.g.Span(k) + sector, count, fs.g.Lba(cluster) + sector);
    var lba := fs.g.Lba(cluster) + sector;
    ok := SectorWrite(fs, lba, buf, count);
    RunStored(fs.g, old(fs.media.sectors), fs.media.sectors, Lbas(fs.g, chain), fs.g.Span(k) + sector, count, lba, buf);
  }

  lemma MemberIsCluster(g: Mounted, chain: seq<nat>, k: nat)
    requires AllClusters(g, chain) && k < |chain|
    ensures g.IsCluster(chain[k])
  {
  }

  lemma RunNotInFat(g: Mounted, lba: nat, count: nat)
    requires g.DataBegin() <= lba && lba + count <= g.total
    ensures forall l :: lba <= l < lba + count ==> l < g.total && !g.InFat(l)
  {
  }

  lemma RunEnds(lbas: seq<nat>, offset: nat, n: nat, lba: nat)
    requires Run(lbas, offset, n, lba)
    ensures offset + n <= |lbas|
  {
  }

  /** The cluster of the file sector at `offset`, taken from the free ones at the end of the
      chain if there is room for `wanted` sectors, and noted in the shortcut. */
  method FindOrTake(fs: Fatfs, file: FlFile, clusterIdx: nat, offset: nat, wanted: nat) returns (ok: bool, cluster: nat)
    requires fs.Valid() && fs.media.Reliable() && file.OnChain(fs) && AllClusters(fs.g, file.chain)
    requires wanted > 0 && clusterIdx <= |file.chain| &&
             (clusterIdx == |file.chain| ==> offset == fs.g.Span(|file.chain|))
    requires offset + wanted <= Capacity(fs.g, fs.fat, file.chain) || NoSlack(fs.g, fs.fat)
    modifies fs`head, fs`next, fs`order, fs`slots, fs`view, fs`fat, fs`nextFree, fs.media
    modifies file`lookupIdx, file`lookupCluster, file`chain
    ensures fs.Valid() && file.OnChain(fs) && fs.OutsideMetaUnchanged()
    ensures Grown(fs.g.fatType, fs.g.Limit(), old(fs.fat), old(file.chain), fs.fat, file.chain)
    ensures Capacity(fs.g, fs.fat, file.chain) == old(Capacity(fs.g, fs.fat, file.chain))
    ensures |file.chain| > old(|file.chain|) ==> Needed(fs.g, |file.chain|, offset + wanted)
    ensures !ok <==> clusterIdx == old(|file.chain|) && offset + wanted > Capacity(fs.g, fs.fat, file.chain)
    ensures ok ==> clusterIdx < |file.chain| && cluster == file.chain[clusterIdx]
  {
    hide Fatfs.ValidWith, Decode, Reserved, Volume.Span, IsChain, FreeCount, Capacity, Needed, NoSlack, Grown;
    GrownSame(fs.g, fs.fat, file.chain);
    var lastCluster;
    ok := true;
    cluster, lastCluster := FindCluster(fs, file, clusterIdx);
    if cluster == LAST {
      ghost var n;
      ok, cluster, n := ExtendFile(fs, file, lastCluster, wanted);
      if !ok {
        ChainBounds(fs.g, fs.fat, file.chain);
        NeededWhenFull(fs.g, fs.fat, file.chain, offset + wanted);
        return;
      }
      NeededAfterGrowth(fs.g, old(|file.chain|), n, wanted);
    }
    file.lookupCluster := cluster;
    file.lookupIdx := clusterIdx;
  }

  lemma GrownSame(g: Mounted, fat: seq<nat>, chain: seq<nat>)
    requires Owns(g, fat, chain)
    ensures Grown(g.fatType, g.Limit(), fat, chain, fat, chain)
  {
  }

  /** _write_sectors: write up to `wanted` sectors of the file, stopping at the end of the
      cluster, and growing the chain when the sectors start at its end.  It writes nothing
      exactly when the chain would have to grow and there is no room for all of them. */
  method WriteSectors(fs: Fatfs, file: FlFile, offset: nat, buf: seq<byte>, wanted: nat) returns (written: int)
    requires fs.Valid() && fs.media.Reliable()
    requires file.OnChain(fs) && AllClusters(fs.g, file.chain)
    requires wanted > 0 && SECTOR_SIZE * wanted <= |buf|
    requires offset <= fs.g.Span(|file.chain|) &&
             (offset + wanted <= Capacity(fs.g, fs.fat, file.chain) || NoSlack(fs.g, fs.fat))
    modifies fs`head, fs`next, fs`order, fs`slots, fs`view, fs`fat, fs`nextFree, fs.media
    modifies file`lookupIdx, file`lookupCluster, file`chain
    ensures fs.Valid() && file.OnChain(fs) && AllClusters(fs.g, file.chain)
    ensures Grown(fs.g.fatType, fs.g.Limit(), old(fs.fat), old(file.chain), fs.fat, file.chain)
    ensures Capacity(fs.g, fs.fat, file.chain) == old(Capacity(fs.g, fs.fat, file.chain))
    ensures |file.chain| > old(|file.chain|) ==> Needed(fs.g, |file.chain|, offset + wanted)
    ensures 0 <= written <= wanted && offset + written <= fs.g.Span(|file.chain|)
    ensures written == 0 <==>
            offset == old(fs.g.Span(|file.chain|)) && offset + wanted > Capacity(fs.g, fs.fat, file.chain)
    ensures Stored(fs.g, old(fs.media.sectors), fs.media.sectors, Lbas(fs.g, file.chain), offset, written, buf)
  {
    hide Fatfs.ValidWith, Decode, Reserved, Volume.Span, IsChain, FreeCount, Capacity, Needed, Stored, NoSlack, Grown;
    var clusterIdx, sector, count := SplitRun(fs.g, offset, wanted);
    WhereInChain(fs.g, file.chain, offset, clusterIdx, sector);
    ghost var chain := file.chain;
    var ok, cluster := FindOrTake(fs, file, clusterIdx, offset, wanted);
    ghost var middle := fs.media.sectors;
    LbasInData(fs.g, fs.fat, file.chain);
    if !ok {
      SpanOfPrefix(fs.g, old(fs.fat), chain, fs.fat, file.chain);
      NothingStored(fs.g, old(fs.media.sectors), fs.media.sectors, fs.fat, file.chain, offset, buf);
      return 0;
    }
    ok := WriteRun(fs, file.chain, clusterIdx, cluster, sector, buf, count);
    StoredAfterMeta(fs.g, old(fs.media.sectors), middle, fs.media.sectors, Lbas(fs.g, file.chain), offset, count, buf);
    written := count;
  }

  lemma SpanOfPrefix(g: Mounted, fat: seq<nat>, chain: seq<nat>, fat': seq<nat>, chain': seq<nat>)
    requires Grown(g.fatType, g.Limit(), fat, chain, fat', chain')
    ensures g.Span(|chain|) <= g.Span(|chain'|)
  {
    hide IsChain;
    if |chain| < |chain'| {
      SpanMonotone(g, |chain|, |chain'|);
    }
  }

  lemma NothingStored(g: Mounted, before: seq<Sector>, after: seq<Sector>, fat: seq<nat>, chain: seq<nat>, offset: nat,
                      buf: seq<byte>)
    requires IsChain(g.fatType, fat, g.Limit(), chain) && |before| == |after| == g.total
    requires forall l :: 0 <= l < |before| && !g.InMeta(l) ==> after[l] == before[l]
    ensures AllClusters(g, chain) && Stored(g, before, after, Lbas(g, chain), offset, 0, buf)
  {
    LbasInData(g, fat, chain);
    hide IsChain, Lbas, AllClusters, Volume.InMeta;
  }

  /** Sectors beyond the capacity of a file need all its clusters. */
  lemma NeededWhenFull(g: Mounted, fat: seq<nat>, chain: seq<nat>, sectors: nat)
    requires |fat| == g.Entries() && |chain| > 0 && sectors > Capacity(g, fat, chain)
    ensures Needed(g, |chain|, sectors) && g.Span(|chain|) <= Capacity(g, fat, chain)
  {
    AllocatedFits(g, fat, chain);
    SpanMonotone(g, |chain| - 1, |chain|);
  }
}
