/** Mounting, said in the bytes of the medium: the partition table, the fields of a boot sector,
    and a volume in a partition compared with the same volume alone. */
module Partitions {

  import opened Words
  import opened FatEntries
  import opened Geometry
  import opened ChainDefs
  import opened FileLayout
  import opened FileContent
  import opened DirRecords
  import opened DirLayout
  import opened Names
  import opened DirSearch
  import opened DiskReader
  import opened FormatMount
  import opened FormatMedia
  import F = Format

  predicate Signed(s: Sector) {
    s[510] == 0x55 && s[511] == 0xAA
  }

  /** The types of a first partition that is looked for. */
  predicate HasPartition(sector0: Sector) {
    sector0[450] in {0x01, 0x02, 0x03, 0x04, 0x05, 0x06, 0x0B, 0x0C, 0x0E, 0x0F}
  }

  /** Where the boot sector is. */
  function BootAt(sector0: Sector): nat {
    if HasPartition(sector0) then Four(sector0, 454) else 0
  }

  lemma BootAtIs(sector0: Sector)
    ensures F.LbaBegin(sector0) == BootAt(sector0)
  {
    WordsAre(sector0, 454);
    hide Get32, Four;
  }

  lemma ChecksRead(s: Sector)
    ensures Get16(s, 11) == SECTOR_SIZE <==> s[11] == 0 && s[12] == 2
    ensures Get16(s, 510) == 0xAA55 <==> Signed(s)
  {
    WordsAre(s, 11);
    WordsAre(s, 510);
    hide Get16;
  }

  /** A boot sector that describes a volume no part of which wraps around, by its fields. */
  datatype Fields = Fields(
    perCluster: nat,
    reserved: nat,
    fats: nat,
    rootEntries: nat,
    total: nat,
    fatSectors: nat,
    rootCluster: nat,
    fsInfo: nat)
  {
    /** The last sector of the root directory may be in use in part. */
    function RootSectors(): nat {
      rootEntries / 16 + if rootEntries % 16 == 0 then 0 else 1
    }

    function Overhead(): nat {
      reserved + fats * fatSectors + RootSectors()
    }

    predicate Fit(begin: nat) {
      perCluster > 0 && Overhead() <= total < WORD32 && begin + total <= LAST
    }

    function Clusters(): nat
      requires perCluster > 0 && Overhead() <= total
    {
      (total - Overhead()) / perCluster
    }

    /** Where these fields are; two of them have a 16-bit place and a 32-bit one for when that is 0. */
    predicate In(boot: Sector) {
      && boot[11] == 0 && boot[12] == 2 && Signed(boot)
      && boot[13] == perCluster && Two(boot, 14) == reserved && boot[16] == fats && Two(boot, 17) == rootEntries
      && total == (if Two(boot, 19) != 0 then Two(boot, 19) else Four(boot, 32))
      && fatSectors == (if Two(boot, 22) != 0 then Two(boot, 22) else Four(boot, 36))
      && Four(boot, 44) == rootCluster && Two(boot, 48) == fsInfo
    }
  }

  lemma RootSectorsAre(f: Fields)
    ensures (f.rootEntries * 32 + (SECTOR_SIZE - 1)) / SECTOR_SIZE == f.RootSectors()
  {
    assert f.rootEntries == 16 * (f.rootEntries / 16) + f.rootEntries % 16;
  }

  lemma FieldsParsed(boot: Sector, f: Fields, begin: nat, total: nat)
    requires f.In(boot)
    ensures F.Parse(boot, begin, total).1 ==
            F.Layout(f.perCluster, f.reserved, f.fats, f.rootEntries, f.fatSectors, f.total, f.rootCluster, f.fsInfo,
                     begin, total)
    ensures Get16(boot, 11) == SECTOR_SIZE && Get16(boot, 510) == 0xAA55
  {
    hide F.Layout, Get16, Get32, Two, Four;
    ChecksRead(boot);
    WordsAre(boot, 14);
    WordsAre(boot, 17);
    WordsAre(boot, 19);
    WordsAre(boot, 22);
    WordsAre(boot, 32);
    WordsAre(boot, 36);
    WordsAre(boot, 44);
    WordsAre(boot, 48);
  }

  /** The volume the fields describe. */
  function Described(f: Fields, begin: nat, onMedium: nat): Volume
    requires f.Fit(begin)
  {
    var n, fats := f.Clusters(), f.fats * f.fatSectors;
    Volume(if n < 65525 then Fat16 else Fat32, f.perCluster, begin, begin + f.reserved, f.fatSectors,
           begin + f.reserved + fats, f.rootEntries, f.reserved + fats, f.RootSectors(),
           if n < 65525 then 0 else f.rootCluster, f.fsInfo, n, onMedium)
  }

  lemma LayoutFits(f: Fields, begin: nat, onMedium: nat)
    requires f.Fit(begin) && f.perCluster < 0x100
    ensures F.Layout(f.perCluster, f.reserved, f.fats, f.rootEntries, f.fatSectors, f.total, f.rootCluster, f.fsInfo,
                     begin, onMedium) == Described(f, begin, onMedium)
  {
    RootSectorsAre(f);
    var fats := f.fats * f.fatSectors;
    SmallWord(begin + f.reserved);
    SmallWord(begin + f.reserved + fats);
    SmallWord(f.reserved + fats);
    SmallWord(f.total - f.Overhead());
  }

  /** What mounting comes to for a volume that fits.  With the smallest counts it is FAT12, and refused. */
  lemma FieldsMount(sectors: seq<Sector>, f: Fields)
    requires |sectors| > 0 && Signed(sectors[0])
    requires BootAt(sectors[0]) < |sectors| && f.In(sectors[BootAt(sectors[0])]) && f.Fit(BootAt(sectors[0]))
    ensures var (r, g) := F.Mount(sectors);
            var begin, n := BootAt(sectors[0]), f.Clusters();
            && (n < 4085 ==> r == F.WrongFilesystem)
            && (n >= 4085 ==>
                && r == F.InitOk && g.clusters == n && g.fatType == (if n < 65525 then Fat16 else Fat32)
                && g.lbaBegin == begin && g.total == |sectors| && g.sectorsPerCluster == f.perCluster
                && g.fatBegin == begin + f.reserved && g.fatSectors == f.fatSectors
                && g.RootBegin() == begin + f.reserved + f.fats * f.fatSectors && g.rootSectors == f.RootSectors()
                && g.FsInfo() == begin + f.fsInfo
                && g.rootFirstCluster == (if n < 65525 then 0 else f.rootCluster)
                && forall c: nat {:trigger g.Lba(c)} :: c >= 2 ==>
                     g.Lba(c) == begin + f.reserved + f.fats * f.fatSectors
                                 + (if n < 65525 then f.rootEntries / 16 else 0) + (c - 2) * f.perCluster)
  {
    var begin := BootAt(sectors[0]);
    var boot := sectors[begin];
    BootAtIs(sectors[0]);
    ChecksRead(sectors[0]);
    FieldsParsed(boot, f, begin, |sectors|);
    LayoutFits(f, begin, |sectors|);
    hide F.Layout, Get16, F.LbaBegin, BootAt;
    var g := Described(f, begin, |sectors|);
    forall c: nat {:trigger g.Lba(c)} | c >= 2
      ensures g.Lba(c) == begin + f.reserved + f.fats * f.fatSectors
                          + (if g.clusters < 65525 then f.rootEntries / 16 else 0) + (c - 2) * f.perCluster {
      SpanIsProduct(g, c - 2);
    }
  }

  lemma LayoutKeepsSpc(boot: Sector, begin: nat, onMedium: nat)
    ensures F.Parse(boot, begin, onMedium).1.sectorsPerCluster == boot[13]
  {
    hide Get16, Get32;
  }

  /** Why a medium is not mounted, in the order of the checks. */
  lemma Refused(sectors: seq<Sector>)
    requires |sectors| > 0
    ensures var r, begin := F.Mount(sectors).0, BootAt(sectors[0]);
            if !Signed(sectors[0]) then r == F.InvalidSignature
            else if begin >= |sectors| then r == F.AccessError
            else if !(sectors[begin][11] == 0 && sectors[begin][12] == 2) then r == F.InvalidSectorSize
            else if !Signed(sectors[begin]) then r == F.InvalidSignature
            else r in {F.InitOk, F.WrongFilesystem} && (sectors[begin][13] == 0 ==> r == F.WrongFilesystem)
  {
    var begin := BootAt(sectors[0]);
    hide F.Layout, Get16, Get32, F.LbaBegin, BootAt, Two, Four, Signed;
    BootAtIs(sectors[0]);
    ChecksRead(sectors[0]);
    if begin < |sectors| {
      ChecksRead(sectors[begin]);
      LayoutKeepsSpc(sectors[begin], begin, |sectors|);
    }
  }

  /* ----------- a volume in a partition ----------- */

  /** The same volume further back on a medium. */
  function Moved(g: Volume, shift: nat, onMedium: nat): Volume {
    g.(lbaBegin := g.lbaBegin + shift, fatBegin := g.fatBegin + shift, clusterBegin := g.clusterBegin + shift,
       total := onMedium)
  }

  lemma MovedWellFormed(g: Mounted, shift: nat, onMedium: nat)
    requires shift + g.total <= onMedium <= LAST
    ensures Moved(g, shift, onMedium).WellFormed()
    ensures forall c: nat :: c >= 2 ==> Moved(g, shift, onMedium).Lba(c) == shift + g.Lba(c)
  {
    var g' := Moved(g, shift, onMedium);
    SpanIsProduct(g, g.clusters);
    SpanIsProduct(g', g.clusters);
    forall c: nat | c >= 2 ensures g'.Lba(c) == shift + g.Lba(c) {
      SpanIsProduct(g, c - 2);
      SpanIsProduct(g', c - 2);
    }
  }

  lemma AddThenWrap(a: nat, b: nat)
    requires (a % WORD32) + b < WORD32
    ensures (a + b) % WORD32 == a % WORD32 + b
  {
    assert a == WORD32 * (a / WORD32) + a % WORD32;
    QuotientAndRest(a + b, WORD32, a / WORD32, a % WORD32 + b);
  }

  /** The 32-bit sums for the begin of the FAT and of what is behind it. */
  lemma BeginsMove(reserved: nat, fats: nat, shift: nat)
    requires (reserved % WORD32) + shift < WORD32 && ((reserved % WORD32 + fats) % WORD32) + shift < WORD32
    ensures (shift + reserved) % WORD32 == reserved % WORD32 + shift
    ensures ((shift + reserved) % WORD32 + fats) % WORD32 == (reserved % WORD32 + fats) % WORD32 + shift
  {
    AddThenWrap(reserved, shift);
    AddThenWrap(reserved % WORD32 + fats, shift);
  }

  lemma LayoutMoves(spc: byte, reserved: nat, numFats: nat, rootEntries: nat, fatSectors: nat, totalSectors: nat,
                    rootCluster: nat, fsInfo: nat, shift: nat, size: nat, onMedium: nat)
    requires var g := F.Layout(spc, reserved, numFats, rootEntries, fatSectors, totalSectors, rootCluster, fsInfo, 0,
                               size);
             g.fatBegin + shift < WORD32 && g.clusterBegin + shift < WORD32
    ensures F.Layout(spc, reserved, numFats, rootEntries, fatSectors, totalSectors, rootCluster, fsInfo, shift,
                     onMedium) ==
            Moved(F.Layout(spc, reserved, numFats, rootEntries, fatSectors, totalSectors, rootCluster, fsInfo, 0, size),
                  shift, onMedium)
  {
    BeginsMove(reserved, numFats * fatSectors, shift);
  }

  lemma BeginsBeforeEnd(g: Volume)
    requires g.WellFormed()
    ensures g.fatBegin <= g.clusterBegin <= g.total
  {
  }

  lemma ParseMoves(boot: Sector, shift: nat, size: nat, onMedium: nat)
    requires F.Parse(boot, 0, size).1.WellFormed() && shift + size <= onMedium <= LAST
    ensures F.Parse(boot, shift, onMedium) ==
            (F.Parse(boot, 0, size).0, Moved(F.Parse(boot, 0, size).1, shift, onMedium))
  {
    BeginsBeforeEnd(F.Parse(boot, 0, size).1);
    hide Volume.WellFormed, Get16, Get32, F.Layout;
    LayoutMoves(boot[13], Get16(boot, 14), boot[16], Get16(boot, 17),
                if Get16(boot, 22) != 0 then Get16(boot, 22) else Get32(boot, 36),
                if Get16(boot, 19) != 0 then Get16(boot, 19) else Get32(boot, 32),
                Get32(boot, 44), Get16(boot, 48), shift, size, onMedium);
  }

  /** A medium whose first partition holds a volume is mounted as that volume alone would be, every
      region of it moved by where the partition begins. */
  lemma PartitionMounts(sectors: seq<Sector>, size: nat)
    requires |sectors| > 0 && Signed(sectors[0]) && HasPartition(sectors[0])
    requires var begin := Four(sectors[0], 454); size > 0 && begin + size <= |sectors| <= LAST
    requires var alone := sectors[Four(sectors[0], 454)..][..size];
             !HasPartition(alone[0]) && F.Mount(alone).0 == F.InitOk && F.Mount(alone).1.WellFormed()
    ensures var begin := Four(sectors[0], 454);
            F.Mount(sectors) == (F.InitOk, Moved(F.Mount(sectors[begin..][..size]).1, begin, |sectors|))
  {
    var begin := Four(sectors[0], 454);
    var alone := sectors[begin..][..size];
    BootAtIs(sectors[0]);
    BootAtIs(alone[0]);
    ChecksRead(sectors[0]);
    ParseMoves(alone[0], begin, size, |sectors|);
    hide F.Parse, F.LbaBegin, Get16, Four;
  }

  /** A partition that was formatted as a volume of its own. */
  lemma FormattedPartition(sectors: seq<Sector>, size: nat, name: seq<byte>)
    requires |sectors| > 0 && Signed(sectors[0]) && HasPartition(sectors[0]) && Formattable(size)
    requires var begin := Four(sectors[0], 454);
             && begin + size <= |sectors| <= LAST && F.ClusterSize(size, IsFat32(size)) > 0
             && sectors[begin] == F.BootSector(size, name, IsFat32(size))
    ensures var begin := Four(sectors[0], 454);
            && F.Mount(sectors) == (F.InitOk, Moved(GeometryOf(size, name), begin, |sectors|))
            && Moved(GeometryOf(size, name), begin, |sectors|).WellFormed()
  {
    var begin := Four(sectors[0], 454);
    hide Four, Volume.WellFormed, Moved, F.BootSector, F.ClusterSize;
    var alone := sectors[begin..][..size];
    FormatThenMount(size, name);
    hide F.Parse, F.BootStart;
    BootEnds(size, name, IsFat32(size));
    BootAtIs(alone[0]);
    ChecksRead(alone[0]);
    PartitionMounts(sectors, size);
    FormattedTotal(size, name);
    MovedWellFormed(GeometryOf(size, name), begin, |sectors|);
  }

  lemma FormattedTotal(size: nat, name: seq<byte>)
    requires Formattable(size)
    ensures GeometryOf(size, name).total == size
  {
    hide F.BootSector, Get16, Get32;
    FormatThenMount(size, name);
  }

  /** The addresses b of the moved volume are the addresses a of the volume alone. */
  ghost predicate Shifted(a: seq<nat>, b: seq<nat>, shift: nat, total: nat) {
    |a| == |b| && forall s :: 0 <= s < |a| ==> b[s] == shift + a[s] && a[s] < total
  }

  lemma ClusterMoves(g: Mounted, g': Mounted, shift: nat, c: nat)
    requires g' == Moved(g, shift, g'.total) && shift + g.total <= g'.total && g.IsCluster(c)
    ensures Shifted(ClusterLbas(g, c), ClusterLbas(g', c), shift, g.total)
  {
    SpanIsProduct(g, c - 2);
    SpanIsProduct(g', c - 2);
    forall s | 0 <= s < g.sectorsPerCluster
      ensures ClusterLbas(g', c)[s] == shift + ClusterLbas(g, c)[s] && ClusterLbas(g, c)[s] < g.total {
      LbaInjective(g, c, s, c, s);
    }
  }

  lemma {:induction false} LbasMove(g: Mounted, g': Mounted, shift: nat, chain: seq<nat>)
    requires g' == Moved(g, shift, g'.total) && shift + g.total <= g'.total && AllClusters(g, chain)
    ensures AllClusters(g', chain) && Shifted(Lbas(g, chain), Lbas(g', chain), shift, g.total)
  {
    hide Volume.WellFormed;
    if chain != [] {
      var n := |chain| - 1;
      LbasMove(g, g', shift, chain[..n]);
      ClusterMoves(g, g', shift, chain[n]);
      hide Moved, ClusterLbas;
    }
  }

  lemma AtMoves(g: Mounted, g': Mounted, sectors: seq<Sector>, shift: nat, a: seq<nat>, b: seq<nat>)
    requires shift + g.total <= |sectors| && Shifted(a, b, shift, g.total)
    ensures DiskAt(g', sectors, b) == DiskAt(g, sectors[shift..][..g.total], a)
  {
    assert OnMedium(sectors, b) == OnMedium(sectors[shift..][..g.total], a);
  }

  lemma PartOfPart(s: seq<Sector>, shift: nat, size: nat, from: nat, to: nat)
    requires shift + size <= |s| && from <= to <= size
    ensures s[shift..][..size][from..to] == s[shift + from..shift + to]
  {
  }

  lemma FatMoves(g: Mounted, g': Mounted, sectors: seq<Sector>, shift: nat)
    requires g' == Moved(g, shift, g'.total) && shift + g.total <= g'.total == |sectors|
    ensures DiskFat(g', sectors) == DiskFat(g, sectors[shift..][..g.total])
  {
    hide Decode, Volume.WellFormed;
    FatInside(g);
    PartOfPart(sectors, shift, g.total, g.fatBegin, g.fatBegin + g.fatSectors);
  }

  lemma RootMoves(g: Mounted, g': Mounted, shift: nat)
    requires g' == Moved(g, shift, g'.total) && g.fatType.Fat16?
    ensures Shifted(RootLbas(g), RootLbas(g'), shift, g.total)
  {
    RootMeetsData(g);
  }

  lemma ChainMoves(g: Mounted, g': Mounted, sectors: seq<Sector>, shift: nat, c: nat)
    requires g' == Moved(g, shift, g'.total) && shift + g.total <= g'.total == |sectors|
    ensures DiskChain(g', sectors, c) == DiskChain(g, sectors[shift..][..g.total], c)
  {
    FatMoves(g, g', sectors, shift);
    hide Volume.WellFormed, Lbas, Follow, DiskFat, DiskAt, Shifted;
    var fat := DiskFat(g', sectors);
    var chain := Follow(g.fatType, fat, c, |fat|);
    if AllClusters(g, chain) {
      LbasMove(g, g', shift, chain);
      AtMoves(g, g', sectors, shift, Lbas(g, chain), Lbas(g', chain));
    }
  }

  /** Files are read from a partition as they are from the volume alone. */
  lemma PartitionReads(g: Mounted, g': Mounted, sectors: seq<Sector>, shift: nat, cluster: nat, name: seq<byte>)
    requires g' == Moved(g, shift, g'.total) && shift + g.total <= g'.total == |sectors|
    ensures DiskRead(g', sectors, cluster, name) == DiskRead(g, sectors[shift..][..g.total], cluster, name)
  {
    hide Volume.WellFormed, DiskChain, DiskAt, Records, Search, Key, Size, FirstCluster, Shifted, Content;
    var alone := sectors[shift..][..g.total];
    ChainMoves(g, g', sectors, shift, cluster);
    if g.fatType.Fat16? {
      RootMoves(g, g', shift);
      AtMoves(g, g', sectors, shift, RootLbas(g), RootLbas(g'));
    }
    hide Moved;
    var records := Records(DiskDirectory(g, alone, cluster));
    var f := Search(records, EMPTY_CACHE, Key(name));
    if f.Hit? {
      ChainMoves(g, g', sectors, shift, FirstCluster(records[f.index]));
    }
  }


  /* ----------- the boot sector a format writes ----------- */

  lemma StartInBytes(b: Sector, spc: byte, isFat32: bool)
    requires b[..22] == F.BootStart(spc, isFat32)
    ensures b[..3] == [0xEB, 0x3C, 0x90] && b[11] == 0 && b[12] == 2 && b[13] == spc
    ensures Two(b, 14) == (if isFat32 then 32 else 8) && b[16] == 2 && Two(b, 17) == (if isFat32 then 0 else 512)
    ensures Two(b, 19) == 0 && b[21] == 0xF8
  {
    var s := F.BootStart(spc, isFat32);
    assert forall i :: 0 <= i < 22 ==> b[i] == s[i];
  }

  /** Its fields, by their places. */
  lemma FormattedFields(sectors: nat, name: seq<byte>, isFat32: bool)
    requires sectors < WORD32 && (isFat32 || sectors <= F.FAT16_LIMIT)
    ensures F.ClusterSize(sectors, isFat32) > 0
    ensures var b, spc := F.BootSector(sectors, name, isFat32), F.ClusterSize(sectors, isFat32);
            && Fields(spc, if isFat32 then 32 else 8, 2, if isFat32 then 0 else 512, sectors,
                      F.FatSectorsFor(sectors, spc, isFat32), if isFat32 then 2 else Four(b, 44),
                      if isFat32 then 1 else Two(b, 48)).In(b)
  {
    FatSectorsSmall(sectors, isFat32);
    BootEnds(sectors, name, isFat32);
    BootMiddleIs(sectors, name, isFat32);
    var spc := F.ClusterSize(sectors, isFat32);
    var fatSectors := F.FatSectorsFor(sectors, spc, isFat32);
    hide F.BootSector, F.BootStart, F.BootMiddle16, F.BootMiddle32, F.ClusterSize, F.FatSectorsFor, Get16, Get32, Two,
         Four;
    var b := F.BootSector(sectors, name, isFat32);
    StartInBytes(b, spc, isFat32);
    WordsAre(b, 22);
    WordsAre(b, 32);
    WordsAre(b, 36);
    WordsAre(b, 44);
    WordsAre(b, 48);
    if isFat32 {
      Middle32Fields(b, sectors, fatSectors);
    } else {
      Middle16Fields(b, sectors, fatSectors);
    }
  }


  lemma FitsIn(data: nat, size: nat, k: nat)
    requires size > 0
    ensures k <= data / size <==> k * size <= data
  {
    var n := data / size;
    assert data == size * n + data % size;
    MulOneMore(n, size);
    if k <= n {
      MulMonotone(k, n, size);
    } else {
      MulMonotone(n + 1, k, size);
    }
  }

  lemma LastSector(f: Fields, begin: nat, onMedium: nat, c: nat)
    requires f.Fit(begin) && f.rootEntries % 16 == 0 && c >= 2
    requires f.Clusters() < 65525 || f.rootEntries == 0
    ensures Described(f, begin, onMedium).Lba(c) + f.perCluster == begin + f.Overhead() + (c - 1) * f.perCluster
  {
    SpanIsProduct(Described(f, begin, onMedium), c - 2);
    MulOneMore(c - 2, f.perCluster);
  }

  /** The clusters are those that lie on the volume as a whole. */
  lemma ClustersFit(f: Fields, begin: nat, onMedium: nat, c: nat)
    requires f.Fit(begin) && f.rootEntries % 16 == 0 && c >= 2
    requires f.Clusters() < 65525 || f.rootEntries == 0
    ensures var g := Described(f, begin, onMedium);
            g.IsCluster(c) <==> g.Lba(c) + f.perCluster <= begin + f.total
  {
    LastSector(f, begin, onMedium, c);
    FitsIn(f.total - f.Overhead(), f.perCluster, c - 1);
    hide Volume.Lba, Fields.Overhead;
  }

  /** The name of the volume and of its type. */
  lemma BootLabel(sectors: nat, name: seq<byte>, isFat32: bool, k: nat)
    requires F.ClusterSize(sectors, isFat32) > 0 && k < 11
    ensures var b, at := F.BootSector(sectors, name, isFat32), if isFat32 then 71 else 43;
            && b[at + k] == (if k < |name| then name[k] else 0x20)
            && b[at + 11..at + 19] == [0x46, 0x41, 0x54] + (if isFat32 then [0x33, 0x32] else [0x31, 0x36]) +
               [0x20, 0x20, 0x20]
  {
    hide F.BootStart, F.BootMiddle16, F.BootMiddle32, F.ClusterSize, F.FatSectorsFor;
  }
}
