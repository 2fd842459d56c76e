/** Where things are on a mounted volume: the reserved sectors, the FAT, the FAT16
    root directory and the clusters of the data area. */
module Geometry {

  import opened Words
  import opened FatEntries

  /** The fields of struct fatfs that fatfs_init computes from the boot sector.  `clusters`
      is the cluster count it derives to tell FAT16 from FAT32 and then forgets; `total` is
      the number of sectors on the medium. */
  datatype Volume = Volume(
    fatType: FatType,
    sectorsPerCluster: nat,
    lbaBegin: nat,
    fatBegin: nat,
    fatSectors: nat,
    clusterBegin: nat,
    rootEntryCount: nat,
    rootFirstSector: nat,
    rootSectors: nat,
    rootFirstCluster: nat,
    fsInfoSector: nat,
    clusters: nat,
    total: nat)
  {
    function Entries(): nat {
      fatType.Entries(fatSectors)
    }

    /** One past the last cluster of the data area. */
    function Limit(): nat {
      clusters + 2
    }

    function DataBegin(): nat {
      if fatType.Fat16? then clusterBegin + rootEntryCount * 32 / SECTOR_SIZE else clusterBegin
    }

    function RootBegin(): nat {
      lbaBegin + rootFirstSector
    }

    function FsInfo(): nat {
      lbaBegin + fsInfoSector
    }

    predicate InFat(lba: nat) {
      fatBegin <= lba < fatBegin + fatSectors
    }

    predicate InRoot(lba: nat) {
      fatType.Fat16? && RootBegin() <= lba < RootBegin() + rootSectors
    }

    /** The sectors the library writes besides directories and file data: the FAT and, on
        FAT32, the FSInfo sector. */
    predicate InMeta(lba: nat) {
      InFat(lba) || (fatType.Fat32? && lba == FsInfo())
    }

    predicate IsCluster(c: nat) {
      2 <= c < Limit()
    }

    /** The sectors in k clusters: k * sectorsPerCluster. */
    function Span(k: nat): nat {
      if k == 0 then 0 else Span(k - 1) + sectorsPerCluster
    }

    /** n is the number of clusters needed for that many sectors. */
    ghost predicate RoundsUp(count: nat, n: nat) {
      1 <= n && Span(n - 1) < count <= Span(n)
    }

    /** fatfs_lba_of_cluster */
    function Lba(c: nat): nat
      requires 2 <= c
    {
      DataBegin() + Span(c - 2)
    }

    /** Laid out as the file system specification asks. */
    ghost predicate WellFormed() {
      && 1 <= sectorsPerCluster
      && lbaBegin < fatBegin
      && 1 <= fatSectors
      && fatBegin + fatSectors <= clusterBegin
      && rootSectors == (rootEntryCount * 32 + (SECTOR_SIZE - 1)) / SECTOR_SIZE
      && (if fatType.Fat16? then
            rootFirstCluster == 0 && RootBegin() == clusterBegin && rootEntryCount % 16 == 0
          else
            IsCluster(rootFirstCluster) && FsInfo() < fatBegin)
      && 1 <= clusters
      && Limit() <= Entries()
      && Limit() <= fatType.MaxLink()
      && DataBegin() + Span(clusters) <= total
      && total <= LAST
    }
  }

  type Mounted = g: Volume | g.WellFormed()
    witness Volume(Fat16, 1, 0, 1, 17, 18, 16, 18, 1, 0, 0, 1, 20)

  lemma {:induction false} SpanIsProduct(g: Volume, k: nat)
    ensures g.Span(k) == k * g.sectorsPerCluster
  {
    if k > 0 {
      SpanIsProduct(g, k - 1);
      assert k * g.sectorsPerCluster == (k - 1) * g.sectorsPerCluster + g.sectorsPerCluster;
    }
  }

  lemma {:induction false} SpanMonotone(g: Volume, j: nat, k: nat)
    requires j < k
    ensures g.Span(j) + g.sectorsPerCluster <= g.Span(k)
  {
    if j < k - 1 {
      SpanMonotone(g, j, k - 1);
    }
  }

  lemma {:induction false} SpanSum(g: Volume, j: nat, k: nat)
    ensures g.Span(j + k) == g.Span(j) + g.Span(k)
  {
    if k > 0 {
      SpanSum(g, j, k - 1);
    }
  }

  /** Splitting a sector offset into cluster index and sector in cluster. */
  lemma SplitOffset(g: Volume, offset: nat) returns (k: nat, i: nat)
    requires 1 <= g.sectorsPerCluster
    ensures k == offset / g.sectorsPerCluster && i == offset - k * g.sectorsPerCluster
    ensures offset == g.Span(k) + i && i < g.sectorsPerCluster
  {
    k := offset / g.sectorsPerCluster;
    SpanIsProduct(g, k);
    assert offset == k * g.sectorsPerCluster + offset % g.sectorsPerCluster;
    i := offset % g.sectorsPerCluster;
  }

  /** Rounding a number of sectors up to whole clusters. */
  lemma RoundUp(g: Volume, count: nat) returns (n: nat)
    requires 1 <= g.sectorsPerCluster && 0 < count
    ensures n == (count + g.sectorsPerCluster - 1) / g.sectorsPerCluster
    ensures g.RoundsUp(count, n)
  {
    var k, i := SplitOffset(g, count + g.sectorsPerCluster - 1);
    n := k;
  }

  /** `free` more clusters hold the sectors exactly when they are as many as rounding up. */
  lemma RoundUpExactly(g: Volume, len: nat, free: nat, count: nat, n: nat)
    requires g.RoundsUp(count, n)
    ensures n <= free <==> g.Span(len) + count <= g.Span(len + free)
  {
    SpanSum(g, len, free);
    if free < n - 1 {
      SpanMonotone(g, free, n - 1);
    }
    if n < free {
      SpanMonotone(g, n, free);
    }
  }

  /** Distinct (cluster, sector) pairs have distinct addresses, all inside the data area. */
  lemma LbaInjective(g: Mounted, c: nat, s: nat, d: nat, u: nat)
    requires g.IsCluster(c) && s < g.sectorsPerCluster
    requires g.IsCluster(d) && u < g.sectorsPerCluster
    ensures g.DataBegin() <= g.Lba(c) + s < g.total
    ensures g.Lba(c) + s == g.Lba(d) + u ==> c == d && s == u
  {
    SpanMonotone(g, c - 2, g.clusters);
    if c < d {
      SpanMonotone(g, c - 2, d - 2);
    } else if d < c {
      SpanMonotone(g, d - 2, c - 2);
    }
  }

  /** The FAT, the FAT16 root directory and the data area do not overlap, and the FSInfo
      sector lies outside all three. */
  lemma RegionsDisjoint(g: Mounted, lba: nat)
    ensures g.InFat(lba) ==> !g.InRoot(lba) && lba < g.DataBegin()
    ensures g.InRoot(lba) ==> lba < g.DataBegin()
    ensures g.fatType.Fat32? && lba == g.FsInfo() ==> !g.InFat(lba) && lba < g.DataBegin()
  {
  }

  lemma FatInside(g: Mounted)
    ensures g.fatBegin + g.fatSectors <= g.total
  {
  }

  /** The root directory is rounded up to whole sectors but the data area starts after it
      rounded down: the two meet exactly when the entry count is a multiple of 16. */
  lemma RootMeetsData(g: Volume)
    requires g.fatType.Fat16? && g.RootBegin() == g.clusterBegin
    requires g.rootSectors == (g.rootEntryCount * 32 + (SECTOR_SIZE - 1)) / SECTOR_SIZE
    ensures (forall lba: nat :: g.InRoot(lba) ==> lba < g.DataBegin()) <==> g.rootEntryCount % 16 == 0
  {
    if g.rootEntryCount % 16 != 0 {
      assert g.InRoot(g.DataBegin());
    }
  }
}
