/** fatfs_format, writing to the medium. */
module FormatMedia {

  import opened Words
  import opened BlockDevice
  import opened Geometry
  import opened Format
  import opened FormatMount

  /** Sizes for which the format is mounted as it was meant. */
  predicate Formattable(sectors: nat) {
    8244 <= sectors <= 4194151 || FAT16_LIMIT < sectors < WORD32
  }

  function IsFat32(sectors: nat): bool {
    sectors > FAT16_LIMIT
  }

  /** The geometry of a volume formatted to that size, as it is mounted. */
  function GeometryOf(sectors: nat, name: seq<byte>): Mounted
    requires Formattable(sectors)
  {
    FormatThenMount(sectors, name);
    Parse(BootSector(sectors, name, IsFat32(sectors)), 0, sectors).1
  }

  /** The first sector of the FAT, with its reserved entries. */
  function FirstFatSector(isFat32: bool): Sector {
    if isFat32 then Put32(Put32(Put32(Zeros(SECTOR_SIZE), 0, 0x0FFF_FFF8), 4, 0xFFFF_FFFF), 8, 0x0FFF_FFFF)
    else Put16(Put16(Zeros(SECTOR_SIZE), 0, 0xFFF8), 2, 0xFFFF)
  }

  /** fatfs_create_fsinfo_sector */
  function FsInfoSector(): Sector {
    [0x52, 0x52, 0x61, 0x41] + Zeros(480) + [0x72, 0x72, 0x41, 0x61, 0xFF, 0xFF, 0xFF, 0xFF, 0xFF, 0xFF, 0xFF, 0xFF]
    + Zeros(14) + [0x55, 0xAA]
  }

  /** The reserved entries in bytes: the media byte and end marks, and on FAT32 the root directory
      as a chain of one cluster. */
  lemma FreshFatBytes(k: nat)
    requires k < SECTOR_SIZE
    ensures FirstFatSector(false)[..4] == [0xF8, 0xFF, 0xFF, 0xFF]
    ensures FirstFatSector(true)[..12] == [0xF8, 0xFF, 0xFF, 0x0F, 0xFF, 0xFF, 0xFF, 0xFF, 0xFF, 0xFF, 0xFF, 0x0F]
    ensures (k >= 4 ==> FirstFatSector(false)[k] == 0) && (k >= 12 ==> FirstFatSector(true)[k] == 0)
  {
  }

  /** The signatures of the FSInfo sector; free count and next free cluster are not known. */
  lemma FsInfoWords()
    ensures var s := FsInfoSector();
            && Four(s, 0) == 0x4161_5252 && Four(s, 484) == 0x6141_7272
            && Four(s, 488) == Four(s, 492) == 0xFFFF_FFFF && Four(s, 508) == 0xAA55_0000
  {
  }

  /** fatfs_erase_sectors */
  method EraseSectors(media: Media, lba: nat, count: nat) returns (ok: bool)
    requires media.Reliable() && lba + count <= |media.sectors|
    modifies media
    ensures ok && Erased(old(media.sectors), media.sectors, lba, count)
  {
    var sector := Zeros(SECTOR_SIZE);
    ok := true;
    var i := 0;
    while i < count
      invariant 0 <= i <= count && ok
      invariant Erased(old(media.sectors), media.sectors, lba, i)
    {
      ok := media.Write(lba + i, sector);
      i := i + 1;
    }
  }

  /** fatfs_erase_fat: the reserved entries, then zeros, through all copies of the FAT. */
  method EraseFat(media: Media, fatBegin: nat, count: nat, isFat32: bool) returns (ok: bool)
    requires media.Reliable() && 1 <= count && fatBegin + count <= |media.sectors|
    modifies media
    ensures ok && |media.sectors| == |old(media.sectors)|
    ensures media.sectors[fatBegin] == FirstFatSector(isFat32)
    ensures forall l :: fatBegin < l < fatBegin + count ==> media.sectors[l] == Zeros(SECTOR_SIZE)
    ensures forall l :: 0 <= l < |media.sectors| && !(fatBegin <= l < fatBegin + count) ==>
            media.sectors[l] == old(media.sectors)[l]
  {
    ok := media.Write(fatBegin, FirstFatSector(isFat32));
    ok := EraseSectors(media, fatBegin + 1, count - 1);
  }

  /** What a format leaves on the medium. */
  ghost predicate Formatted(g: Mounted, sectors: seq<Sector>, name: seq<byte>) {
    var isFat32 := IsFat32(|sectors|);
    && Formattable(|sectors|) && g == GeometryOf(|sectors|, name) && |sectors| == g.total
    && (g.fatType.Fat32? <==> isFat32)
    && sectors[0] == BootSector(|sectors|, name, isFat32)
    && g.fatBegin + g.fatSectors <= |sectors|
    && sectors[g.fatBegin] == FirstFatSector(isFat32)
    && g.clusterBegin == g.fatBegin + 2 * g.fatSectors <= |sectors|
    && (forall l :: g.fatBegin < l < g.clusterBegin ==> sectors[l] == Zeros(SECTOR_SIZE))
    && (if isFat32 then
          g.rootFirstCluster == 2 && sectors[1] == FsInfoSector()
          && forall l :: g.Lba(2) <= l < g.Lba(2) + g.sectorsPerCluster ==>
             l < |sectors| && sectors[l] == Zeros(SECTOR_SIZE)
        else
          forall l :: g.RootBegin() <= l < g.RootBegin() + g.rootSectors ==>
              l < |sectors| && sectors[l] == Zeros(SECTOR_SIZE))
  }

  /** Where the parts of the volume are. */
  lemma Layouts(sectors: nat, name: seq<byte>)
    requires Formattable(sectors)
    ensures var g := GeometryOf(sectors, name);
            && g.total == sectors && g.fatSectors >= 1 && (g.fatType.Fat32? <==> IsFat32(sectors))
            && g.fatBegin == (if IsFat32(sectors) then 32 else 8)
            && g.fatSectors == FatSectorsFor(sectors, ClusterSize(sectors, IsFat32(sectors)), IsFat32(sectors))
            && g.clusterBegin == g.fatBegin + 2 * g.fatSectors
            && g.sectorsPerCluster == ClusterSize(sectors, IsFat32(sectors))
            && (IsFat32(sectors) ==> g.rootFirstCluster == 2 && g.Lba(2) == g.clusterBegin && g.fsInfoSector == 1
                                     && g.Lba(2) + g.sectorsPerCluster <= sectors)
            && (!IsFat32(sectors) ==>
                g.RootBegin() == g.clusterBegin && g.rootSectors == 32 && g.RootBegin() + g.rootSectors <= sectors)
  {
    FormatThenMount(sectors, name);
    hide Parse, BootSector, ClusterSize, FatSectorsFor, CountOf;
    var g := GeometryOf(sectors, name);
    if IsFat32(sectors) {
      LbaInjective(g, 2, g.sectorsPerCluster - 1, 2, g.sectorsPerCluster - 1);
    }
  }

  /** fatfs_format_fat16, for a volume of that size. */
  method FormatFat16(media: Media, sectors: word32, name: seq<byte>) returns (ok: bool, ghost fatSectors: nat)
    requires media.Reliable() && sectors == |media.sectors|
    requires ClusterSize(sectors, false) > 0 && Overhead(sectors, false) <= sectors
    modifies media
    ensures ok && |media.sectors| == sectors && fatSectors ==
            FatSectorsFor(sectors, ClusterSize(sectors, false), false) >= 1
    ensures 8 + 2 * fatSectors + 32 <= sectors
    ensures media.sectors[0] == BootSector(sectors, name, false) && media.sectors[8] == FirstFatSector(false)
    ensures forall l :: 8 < l < 8 + 2 * fatSectors + 32 ==> media.sectors[l] == Zeros(SECTOR_SIZE)
    ensures forall l :: 0 < l < 8 || 8 + 2 * fatSectors + 32 <= l < sectors ==>
            media.sectors[l] == old(media.sectors)[l]
  {
    hide ClusterSize, FatSectorsFor, BootSector, FirstFatSector;
    var spc := CalcClusterSize(sectors, false);
    var n := FatSectorsFor(sectors, spc, false);
    FatNotEmpty(sectors, spc, false);
    fatSectors := n;
    ok := media.Write(0, BootSector(sectors, name, false));
    ok := EraseFat(media, 8, 2 * n, false);
    ok := EraseSectors(media, 8 + 2 * n, 32);
  }

  /** fatfs_format_fat32, for a volume of that size. */
  method FormatFat32(media: Media, sectors: word32, name: seq<byte>) returns (ok: bool, ghost fatSectors: nat)
    requires media.Reliable() && sectors == |media.sectors|
    requires ClusterSize(sectors, true) > 0 && Overhead(sectors, true) + ClusterSize(sectors, true) <= sectors
    modifies media
    ensures ok && |media.sectors| == sectors && fatSectors ==
            FatSectorsFor(sectors, ClusterSize(sectors, true), true) >= 1
    ensures 32 + 2 * fatSectors + ClusterSize(sectors, true) <= sectors
    ensures media.sectors[0] == BootSector(sectors, name, true) && media.sectors[32] == FirstFatSector(true)
    ensures forall l :: 32 < l < 32 + 2 * fatSectors + ClusterSize(sectors, true) ==>
            media.sectors[l] == Zeros(SECTOR_SIZE)
    ensures media.sectors[1] == FsInfoSector()
    ensures forall l :: 1 < l < 32 || 32 + 2 * fatSectors + ClusterSize(sectors, true) <= l < sectors ==>
            media.sectors[l] == old(media.sectors)[l]
  {
    hide ClusterSize, FatSectorsFor, BootSector, FirstFatSector, FsInfoSector;
    var spc := CalcClusterSize(sectors, true);
    var n := FatSectorsFor(sectors, spc, true);
    FatNotEmpty(sectors, spc, true);
    fatSectors := n;
    ok := media.Write(0, BootSector(sectors, name, true));
    ok := media.Write(1, FsInfoSector());
    ok := EraseFat(media, 32, 2 * n, true);
    ok := EraseSectors(media, 32 + 2 * n, spc);
  }

  lemma FatNotEmpty(sectors: nat, spc: nat, isFat32: bool)
    requires spc > 0
    ensures FatSectorsFor(sectors, spc, isFat32) >= 1
  {
  }

  lemma FitsOverhead(sectors: nat)
    requires Formattable(sectors)
    ensures var isFat32 := IsFat32(sectors);
            && ClusterSize(sectors, isFat32) > 0
            && Overhead(sectors, isFat32) + (if isFat32 then ClusterSize(sectors, true) as nat else 0) <= sectors
  {
    if IsFat32(sectors) {
      Overhead32(sectors);
    } else {
      OverheadFits(sectors);
    }
  }

  lemma Overhead32(sectors: nat)
    requires FAT16_LIMIT < sectors < WORD32
    ensures ClusterSize(sectors, true) > 0 && Overhead(sectors, true) + ClusterSize(sectors, true) <= sectors
  {
    Classes32(sectors);
    var spc := ClusterSize(sectors, true);
    assert FatSectorsFor(sectors, spc, true) <= sectors / 1024 + 2;
  }

  /** fatfs_format of a whole medium. */
  method FormatMedium(media: Media, name: seq<byte>) returns (ok: bool)
    requires media.Reliable() && Formattable(|media.sectors|)
    modifies media
    ensures ok && |media.sectors| == |old(media.sectors)|
    ensures Formatted(GeometryOf(|media.sectors|, name), media.sectors, name)
  {
    hide Parse, BootSector, ClusterSize, FatSectorsFor, CountOf, FirstFatSector, Volume.WellFormed, GeometryOf,
         Overhead;
    var sectors := |media.sectors|;
    Layouts(sectors, name);
    FitsOverhead(sectors);
    ghost var n;
    if sectors <= FAT16_LIMIT {
      ok, n := FormatFat16(media, sectors, name);
    } else {
      ok, n := FormatFat32(media, sectors, name);
    }
  }
}
