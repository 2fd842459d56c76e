/** Whole-chain operations on the FAT: freeing, walking, appending a cluster, counting. */
module FatChain {

  import opened Words
  import opened FatEntries
  import opened Geometry
  import opened FatBuffers
  import opened ChainDefs
  import opened Chains
  import opened FatTable

  /** fatfs_fat_purge: write every dirty buffer back. */
  method Purge(fs: Fatfs) returns (ok: bool)
    requires fs.Valid()
    modifies fs.media, fs`slots
    ensures fs.Valid() && fs.OutsideFatUnchanged()
    ensures ok ==> fs.Purged()
    ensures fs.media.Reliable() ==> ok
  {
    hide Coherent, Decode;
    var pcur := fs.head;
    ghost var i := 0;
    while pcur != NULL
      invariant 0 <= i <= |fs.order|
      invariant pcur == if i < |fs.order| then fs.order[i] else NULL
      invariant fs.Valid() && fs.OutsideFatUnchanged()
      invariant forall j :: 0 <= j < i ==> !fs.slots[fs.order[j]].dirty
      decreases |fs.order| - i
    {
      if fs.slots[pcur].dirty {
        ok := fs.Writeback(pcur);
        if !ok {
          return;
        }
      }
      pcur := fs.next[pcur];
      i := i + 1;
    }
    ok := true;
    forall b | 0 <= b < |fs.slots| ensures !fs.slots[b].dirty {
      assert b in fs.order;
    }
    AllCleanMeansFlushed(fs.g, fs.media.sectors, fs.slots, fs.view);
  }

  /** fatfs_free_cluster_chain.  Ends on every in-range table, whatever the medium does: after
      a link has been read its sector is in a buffer, so clearing the entry cannot fail. */
  method FreeClusterChain(fs: Fatfs, start: nat, ghost zone: set<nat>) returns (ok: bool)
    requires fs.Valid() && 2 < fs.g.Entries()
    requires InRange(fs.g.fatType, fs.fat, zone) && (start in zone || start == LAST || start == 0)
    modifies fs`head, fs`next, fs`order, fs`slots, fs`view, fs`fat, fs.media
    ensures ok && fs.Valid() && fs.OutsideFatUnchanged()
    ensures |fs.fat| == |old(fs.fat)|
    ensures forall c :: 0 <= c < |fs.fat| ==> fs.fat[c] == old(fs.fat)[c] || (c in zone && fs.fat[c] == 0)
    ensures fs.media.Reliable() ==> fs.fat == FreeFrom(fs.g.fatType, old(fs.fat), zone, start)
  {
    hide Fatfs.ValidWith, Decode, InRange, FreeFrom, NonZero;
    var nextCluster: nat := start;
    while nextCluster != LAST && nextCluster != 0
      invariant fs.Valid() && fs.OutsideFatUnchanged() && |fs.fat| == |old(fs.fat)|
      invariant InRange(fs.g.fatType, fs.fat, zone) && (nextCluster in zone || nextCluster == LAST || nextCluster == 0)
      invariant forall c :: 0 <= c < |fs.fat| ==> fs.fat[c] == old(fs.fat)[c] || (c in zone && fs.fat[c] == 0)
      invariant fs.media.Reliable() ==>
                FreeFrom(fs.g.fatType, old(fs.fat), zone, start) == FreeFrom(fs.g.fatType, fs.fat, zone, nextCluster)
      decreases if nextCluster == LAST || nextCluster == 0 then 0 else 1, NonZero(fs.fat)
    {
      var lastCluster := nextCluster;
      InZone(fs.g.fatType, fs.fat, zone, lastCluster);
      ghost var read;
      nextCluster, read := fs.FindNextCluster(nextCluster);
      FreeStep(fs.g.fatType, fs.fat, zone, lastCluster);
      var cleared := fs.SetCluster(lastCluster, 0);
    }
    FreeDone(fs.g.fatType, fs.fat, zone, nextCluster);
    ok := true;
  }

  lemma InZone(t: FatType, fat: seq<nat>, zone: set<nat>, c: nat)
    requires InRange(t, fat, zone) && c in zone
    ensures c < |fat|
  {
  }

  /** fatfs_fat_add_cluster_to_chain: walk to the end of the chain, then link the new cluster.
      Started at cluster 0, which names the FAT16 root directory, it walks from cluster 2: it
      fails if that is free, and else grows whatever lies there. */
  method AddClusterToChain(fs: Fatfs, start: nat, newEntry: nat, ghost chain: seq<nat>) returns (ok: bool)
    requires fs.Valid() && fs.media.Reliable() && newEntry < |fs.fat| && 2 < |fs.fat|
    requires (start == 0 && fs.g.fatType.IsFree(fs.fat[2]))
          || (IsChain(fs.g.fatType, fs.fat, fs.g.Limit(), chain) &&
              (start == chain[0] || (start == 0 && chain[0] == 2)))
    modifies fs`head, fs`next, fs`order, fs`slots, fs`view, fs`fat, fs.media
    ensures fs.Valid() && fs.OutsideFatUnchanged()
    ensures ok <==> !(start == 0 && old(fs.g.fatType.IsFree(fs.fat[2])))
    ensures if ok then |chain| > 0 && fs.fat == LinkLast(fs.g.fatType, old(fs.fat), if |chain| == 1 then start
                                                         else chain[|chain| - 1], newEntry)
            else fs.fat == old(fs.fat)
  {
    hide Fatfs.ValidWith, Decode;
    var lastCluster, nextCluster: nat := LAST, start;
    if start == LAST {
      return false;
    }
    ghost var i, nothing := 0, start == 0 && fs.g.fatType.IsFree(fs.fat[2]);
    while nextCluster != LAST
      invariant fs.Valid() && fs.OutsideFatUnchanged() && fs.fat == old(fs.fat)
      invariant 0 <= i && if nothing then i == 0 else i <= |chain|
      invariant nextCluster == if i == 0 then start else if i < |chain| then chain[i] else LAST
      invariant i > 0 ==> lastCluster == if i == 1 then start else chain[i - 1]
      decreases |chain| - i
    {
      lastCluster := nextCluster;
      assert !nothing && i < |chain| - 1 ==> fs.g.fatType.Next(fs.fat[chain[i]]) == chain[i + 1];
      ghost var read;
      nextCluster, read := fs.FindNextCluster(nextCluster);
      if nextCluster == 0 {
        return false;
      }
      i := i + 1;
    }
    var set1 := fs.SetCluster(lastCluster, newEntry);
    var set2 := fs.SetCluster(newEntry, LAST);
    ok := true;
  }

  /** What that does to a table with a chain at cluster 2: the chain has the new cluster or, if
      it is cluster 2 alone, entry 0 is overwritten. */
  lemma RootGrowthGoesAstray(t: FatType, fat: seq<nat>, limit: nat, chain: seq<nat>, c: nat)
    requires IsChain(t, fat, limit, chain) && chain[0] == 2 && limit <= t.MaxLink()
    requires 2 <= c < limit && t.IsFree(fat[c])
    ensures var fat' := LinkLast(t, fat, if |chain| == 1 then 0 else chain[|chain| - 1], c);
            if |chain| == 1 then fat'[0] == c && IsChain(t, fat', limit, chain)
            else Grown(t, limit, fat, chain, fat', chain + [c])
  {
    ChainNotFree(t, fat, limit, chain);
    LinkLastGrows(t, fat, limit, chain, c);
  }

  /** fatfs_count_free_clusters: entries whose 16 or 32 bits are all zero. */
  method CountFreeClusters(fs: Fatfs) returns (count: nat)
    requires fs.Valid()
    modifies fs`head, fs`next, fs`order, fs`slots, fs.media
    ensures fs.Valid() && fs.OutsideFatUnchanged()
    ensures count <= ZeroCount(fs.fat, |fs.fat|)
    ensures fs.media.Reliable() ==> count == ZeroCount(fs.fat, |fs.fat|)
  {
    hide Fatfs.ValidWith, Decode;
    count := 0;
    var i := 0;
    while i < fs.g.fatSectors
      invariant 0 <= i <= fs.g.fatSectors
      invariant fs.Valid() && fs.OutsideFatUnchanged()
      invariant count == ZeroCount(fs.fat, fs.g.fatType.Entries(i))
    {
      var pbuf := fs.ReadFat(i);
      if pbuf == NULL {
        ZeroCountMonotone(fs.fat, fs.g.fatType.Entries(i), |fs.fat|);
        break;
      }
      var j := 0;
      while j < fs.g.fatType.PerSector()
        modifies {}
        invariant 0 <= j <= fs.g.fatType.PerSector()
        invariant count == ZeroCount(fs.fat, fs.g.fatType.Entries(i) + j)
      {
        DecodeAt(fs.g.fatType, fs.view, i, j);
        if fs.g.fatType.Get(fs.slots[pbuf].sector, j) == 0 {
          count := count + 1;
        }
        j := j + 1;
      }
      i := i + 1;
    }
  }

  /** Cluster index and sector within the cluster of a sector offset. */
  method SplitSector(g: Mounted, offset: nat) returns (clusterIdx: nat, sector: nat)
    ensures offset == g.Span(clusterIdx) + sector && sector < g.sectorsPerCluster
  {
    ghost var k, i := SplitOffset(g, offset);
    clusterIdx := offset / g.sectorsPerCluster;
    sector := offset - clusterIdx * g.sectorsPerCluster;
  }

  /** Follow the chain from the cluster at index `start` to index clusterIdx, not past a dead end. */
  method WalkChain(fs: Fatfs, ghost chain: seq<nat>, start: nat, first: nat, clusterIdx: nat)
    returns (cluster: nat, lastCluster: nat)
    requires fs.Valid() && fs.media.Reliable()
    requires IsChain(fs.g.fatType, fs.fat, fs.g.Limit(), chain)
    requires start < |chain| && first == chain[start] && start <= clusterIdx <= |chain|
    modifies fs`head, fs`next, fs`order, fs`slots, fs.media
    ensures fs.Valid() && fs.OutsideFatUnchanged()
    ensures old(fs.Purged()) ==> fs.Purged()
    ensures clusterIdx < |chain| ==> cluster == chain[clusterIdx]
    ensures clusterIdx == |chain| ==> cluster == LAST && lastCluster == chain[|chain| - 1]
  {
    hide Fatfs.ValidWith, Fatfs.Purged, Decode, FatType.Next;
    lastCluster := LAST;
    cluster := first;
    var i := start;
    while i < clusterIdx
      invariant old(fs.Purged()) ==> fs.Purged()
      invariant fs.Valid() && fs.OutsideFatUnchanged()
      invariant start <= i <= clusterIdx
      invariant i < |chain| ==> cluster == chain[i]
      invariant i == |chain| ==> cluster == LAST && lastCluster == chain[|chain| - 1]
    {
      assert i < |chain| - 1 ==> fs.g.fatType.Next(fs.fat[chain[i]]) == chain[i + 1];
      var nextCluster, _ := fs.FindNextCluster(cluster);
      lastCluster := cluster;
      cluster := nextCluster;
      i := i + 1;
      if cluster == LAST {
        break;
      }
    }
  }
}
