/** What the fields of an open file mean: the cluster shortcut, the sector buffer, and the
    logical sectors they stand for. */
module FileSpec {

  import opened Words
  import opened FatEntries
  import opened Geometry
  import opened ChainDefs
  import opened Chains
  import opened FileLayout

  /** The clusters of the volume the allocator can still hand out. */
  ghost function Free(g: Mounted, fat: seq<nat>): nat
    requires |fat| == g.Entries()
  {
    FreeCount(g.fatType, fat, g.rootFirstCluster, g.Limit())
  }

  /** Sectors the file can hold once it has taken every free cluster.  Growing the file
      moves clusters from one term to the other. */
  ghost function Capacity(g: Mounted, fat: seq<nat>, chain: seq<nat>): nat
    requires |fat| == g.Entries()
  {
    g.Span(|chain| + Free(g, fat))
  }

  /** That many sectors need the last of `len` clusters too. */
  ghost predicate Needed(g: Mounted, len: nat, sectors: nat) {
    len >= 1 && g.Span(len - 1) < sectors
  }

  lemma NeededMonotone(g: Mounted, len: nat, sectors: nat, more: nat)
    requires sectors <= more
    ensures Needed(g, len, sectors) ==> Needed(g, len, more)
  {
  }

  lemma AllocatedFits(g: Mounted, fat: seq<nat>, chain: seq<nat>)
    requires |fat| == g.Entries()
    ensures g.Span(|chain|) <= Capacity(g, fat, chain)
  {
    SpanSum(g, |chain|, Free(g, fat));
  }

  /** A file's chain in a FAT from which more clusters can be allocated. */
  ghost predicate Owns(g: Mounted, fat: seq<nat>, chain: seq<nat>) {
    && |fat| == g.Entries()
    && IsChain(g.fatType, fat, g.Limit(), chain)
    && Reserved(g.fatType, fat, g.rootFirstCluster)
  }

  /** The FAT has no free entry behind those of the data area. */
  ghost predicate NoSlack(g: Mounted, fat: seq<nat>) {
    NoneFreeFrom(g.fatType, fat, g.Limit())
  }

  /** Then the allocator finds a cluster exactly when the data area has a free one. */
  lemma SpareCluster(g: Mounted, fat: seq<nat>)
    requires |fat| == g.Entries() && Reserved(g.fatType, fat, g.rootFirstCluster)
    requires 0 < Free(g, fat) || NoSlack(g, fat)
    ensures var c := FirstFree(g.fatType, fat, g.rootFirstCluster);
            && (c < |fat| <==> 0 < Free(g, fat))
            && (c < |fat| ==> g.IsCluster(c))
  {
    FreeCountPositive(g.fatType, fat, g.rootFirstCluster, g.Limit());
  }

  /** And it offers a cluster that is not on the volume exactly when the data area is full and
      the FAT has a free entry behind it. */
  lemma OffersSlack(g: Mounted, fat: seq<nat>)
    requires |fat| == g.Entries() && Reserved(g.fatType, fat, g.rootFirstCluster)
    ensures var c := FirstFree(g.fatType, fat, g.rootFirstCluster);
            c < |fat| && !g.IsCluster(c) <==> Free(g, fat) == 0 && !NoSlack(g, fat)
  {
    FreeCountPositive(g.fatType, fat, g.rootFirstCluster, g.Limit());
    hide FatType.IsFree;
  }

  /** last_fat_lookup, when valid, names the cluster of that index. */
  ghost predicate Shortcut(chain: seq<nat>, idx: nat, cluster: nat) {
    idx == LAST || (idx < |chain| && cluster == chain[idx])
  }

  /** The logical sectors of the file: the medium's, except that a dirty buffered sector
      takes precedence, and may lie just past the last allocated one. */
  ghost predicate Coupled(sectors: seq<Sector>, lbas: seq<nat>, dirty: bool, address: nat, buffer: Sector,
                          secs: seq<Sector>) {
    && (forall s :: 0 <= s < |lbas| ==> lbas[s] < |sectors|)
    && |secs| == (if dirty && address == |lbas| then |lbas| + 1 else |lbas|)
    && (forall s :: 0 <= s < |lbas| && !(dirty && s == address) ==> secs[s] == sectors[lbas[s]])
    && (dirty ==> address != LAST && address < |secs| && secs[address] == buffer)
    && (!dirty && address != LAST ==> address < |lbas| && buffer == sectors[lbas[address]])
  }

  /** The sectors of a chain lie in the data area, and are distinct. */
  lemma LbasInData(g: Mounted, fat: seq<nat>, chain: seq<nat>)
    requires IsChain(g.fatType, fat, g.Limit(), chain)
    ensures AllClusters(g, chain)
    ensures forall s :: 0 <= s < |Lbas(g, chain)| ==>
              g.DataBegin() <= Lbas(g, chain)[s] < g.total && !g.InMeta(Lbas(g, chain)[s])
    ensures forall s, u :: 0 <= s < u < |Lbas(g, chain)| ==> Lbas(g, chain)[s] != Lbas(g, chain)[u]
  {
    forall s | 0 <= s < |Lbas(g, chain)|
      ensures g.DataBegin() <= Lbas(g, chain)[s] < g.total && !g.InMeta(Lbas(g, chain)[s])
    {
      LbasDistinct(g, fat, chain, s, s);
    }
    forall s, u | 0 <= s < u < |Lbas(g, chain)| ensures Lbas(g, chain)[s] != Lbas(g, chain)[u] {
      LbasDistinct(g, fat, chain, s, u);
    }
  }

  /** From `offset`, n sectors of the list follow each other on the medium from lba. */
  ghost predicate Run(lbas: seq<nat>, offset: nat, n: nat, lba: nat) {
    && offset + n <= |lbas|
    && forall s {:trigger lbas[s]} :: offset <= s < offset + n ==> lbas[s] == lba + (s - offset)
  }

  /** The data are the n sectors of the list from `offset`. */
  ghost predicate Fetched(sectors: seq<Sector>, lbas: seq<nat>, offset: nat, n: nat, data: seq<byte>) {
    && offset + n <= |lbas|
    && |data| == SECTOR_SIZE * n
    && forall s {:trigger lbas[s]} :: offset <= s < offset + n ==>
       lbas[s] < |sectors| && Chunk(data, s - offset) == sectors[lbas[s]]
  }

  lemma ChainIsClusters(g: Mounted, fat: seq<nat>, chain: seq<nat>)
    requires IsChain(g.fatType, fat, g.Limit(), chain)
    ensures AllClusters(g, chain)
  {
  }

  /** The sectors of one cluster are consecutive on the medium. */
  lemma RunInCluster(g: Mounted, fat: seq<nat>, chain: seq<nat>, k: nat, i: nat, n: nat)
    requires IsChain(g.fatType, fat, g.Limit(), chain)
    requires k < |chain| && i + n <= g.sectorsPerCluster && n > 0
    ensures AllClusters(g, chain)
    ensures Run(Lbas(g, chain), g.Span(k) + i, n, g.Lba(chain[k]) + i)
    ensures g.DataBegin() <= g.Lba(chain[k]) + i && g.Lba(chain[k]) + i + n <= g.total
  {
    hide IsChain, Lbas, Volume.Span, Volume.Lba, Volume.DataBegin;
    ChainIsClusters(g, fat, chain);
    var lbas, offset := Lbas(g, chain), g.Span(k) + i;
    LbasIndex(g, chain, k, i + n - 1);
    LbaInjective(g, chain[k], i, chain[k], i);
    LbaInjective(g, chain[k], i + n - 1, chain[k], i);
    forall s {:trigger lbas[s]} | offset <= s < offset + n ensures lbas[s] == g.Lba(chain[k]) + i + (s - offset) {
      LbasIndex(g, chain, k, s - g.Span(k));
    }
  }

  /** Is the offset inside the chain, or just at its end? */
  lemma WhereInChain(g: Mounted, chain: seq<nat>, offset: nat, k: nat, i: nat)
    requires offset == g.Span(k) + i && i < g.sectorsPerCluster && offset <= g.Span(|chain|)
    ensures k <= |chain|
    ensures k == |chain| <==> offset == g.Span(|chain|)
  {
    if k > |chain| {
      SpanMonotone(g, |chain|, k);
    } else if k < |chain| {
      SpanMonotone(g, k, |chain|);
    }
  }

  lemma NeededAfterGrowth(g: Mounted, len: nat, n: nat, count: nat)
    requires g.RoundsUp(count, n)
    ensures Needed(g, len + n, g.Span(len) + count)
  {
    SpanSum(g, len, n - 1);
  }

  /** Appending the clusters for `count` more sectors to a chain.  They are all there exactly
      when the capacity covers the sectors; otherwise the chain takes what is left. */
  lemma GrowFits(g: Mounted, fat: seq<nat>, chain: seq<nat>, count: nat, n: nat)
    returns (fat': seq<nat>, added: seq<nat>)
    requires Owns(g, fat, chain)
    requires g.RoundsUp(count, n)
    requires g.Span(|chain|) + count <= Capacity(g, fat, chain) || NoSlack(g, fat)
    ensures (fat', added) == AddSpace(g.fatType, fat, g.rootFirstCluster, chain[|chain| - 1], n)
    ensures |added| == n <==> g.Span(|chain|) + count <= Capacity(g, fat, chain)
    ensures |added| <= n && (|added| < n ==> Free(g, fat') == 0)
    ensures Owns(g, fat', chain + added)
    ensures Grown(g.fatType, g.Limit(), fat, chain, fat', chain + added)
    ensures Capacity(g, fat', chain + added) == Capacity(g, fat, chain)
  {
    FitsExactly(g, fat, chain, count, n);
    hide Volume.Span, FreeCount, AddSpace, IsChain, Reserved, NoneFreeFrom, Volume.RoundsUp, Capacity, Grown;
    fat', added := AddSpaceGrows(g.fatType, fat, g.Limit(), g.rootFirstCluster, chain, n);
    CapacityKept(g, fat, chain, fat', chain + added);
  }

  lemma FitsExactly(g: Mounted, fat: seq<nat>, chain: seq<nat>, count: nat, n: nat)
    requires |fat| == g.Entries() && g.RoundsUp(count, n)
    ensures n <= Free(g, fat) <==> g.Span(|chain|) + count <= Capacity(g, fat, chain)
  {
    RoundUpExactly(g, |chain|, Free(g, fat), count, n);
  }

  lemma CapacityKept(g: Mounted, fat: seq<nat>, chain: seq<nat>, fat': seq<nat>, chain': seq<nat>)
    requires |fat| == |fat'| == g.Entries() && |chain| + Free(g, fat) == |chain'| + Free(g, fat')
    ensures Capacity(g, fat', chain') == Capacity(g, fat, chain)
  {
  }

  /** Sectors [offset, offset + n) of the file hold the data and its other sectors are as
      before; so is everything else outside the FAT and FSInfo. */
  ghost predicate Stored(g: Mounted, before: seq<Sector>, after: seq<Sector>, lbas: seq<nat>, offset: nat, n: nat,
                         data: seq<byte>)
    requires SECTOR_SIZE * n <= |data|
  {
    && |after| == |before|
    && (forall s {:trigger lbas[s]} :: 0 <= s < |lbas| ==>
          lbas[s] < |after| && after[lbas[s]] == if offset <= s < offset + n then Chunk(data, s - offset)
              else before[lbas[s]])
    && (forall l :: 0 <= l < |after| && !g.InMeta(l) && l !in lbas ==> after[l] == before[l])
  }

  lemma RunStored(g: Mounted, before: seq<Sector>, after: seq<Sector>, lbas: seq<nat>, offset: nat, n: nat, lba: nat,
                  data: seq<byte>)
    requires SECTOR_SIZE * n <= |data|
    requires Run(lbas, offset, n, lba) && RunWritten(before, after, lba, data, n)
    requires forall s {:trigger lbas[s]} :: 0 <= s < |lbas| ==> lbas[s] < |before|
    requires forall s, u :: 0 <= s < u < |lbas| ==> lbas[s] != lbas[u]
    ensures Stored(g, before, after, lbas, offset, n, data)
  {
    forall s {:trigger lbas[s]} | 0 <= s < |lbas|
      ensures after[lbas[s]] == if offset <= s < offset + n then Chunk(data, s - offset) else before[lbas[s]]
    {
      if lba <= lbas[s] < lba + n {
        assert lbas[offset + (lbas[s] - lba)] == lbas[s];
      }
    }
    forall l | lba <= l < lba + n ensures l in lbas {
      assert lbas[offset + (l - lba)] == l;
    }
  }

  /** Changes to the FAT and FSInfo first make no difference. */
  lemma StoredAfterMeta(g: Mounted, before: seq<Sector>, middle: seq<Sector>, after: seq<Sector>, lbas: seq<nat>,
                        offset: nat, n: nat, data: seq<byte>)
    requires SECTOR_SIZE * n <= |data| && |before| == |middle|
    requires Stored(g, middle, after, lbas, offset, n, data)
    requires forall l :: 0 <= l < |before| && !g.InMeta(l) ==> middle[l] == before[l]
    requires forall s {:trigger lbas[s]} :: 0 <= s < |lbas| ==> !g.InMeta(lbas[s])
    ensures Stored(g, before, after, lbas, offset, n, data)
  {
  }
}
