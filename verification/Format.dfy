/** The boot sector a format writes, and what mounting makes of a boot sector. */
module Format {

  import opened Words
  import opened BlockDevice
  import opened FatEntries
  import opened Geometry
  import opened ShortNames

  const FAT16_LIMIT := 4194304   // the largest volume that is formatted as FAT16

  /** _cluster_size_table16 and _cluster_size_table32: up to so many sectors, that many per cluster. */
  const TABLE16: seq<(nat, byte)> :=
    [(32680, 2), (262144, 4), (524288, 8), (1048576, 16), (2097152, 32), (4194304, 64), (8388608, 128), (0, 0)]
  const TABLE32: seq<(nat, byte)> :=
    [(532480, 1), (16777216, 8), (33554432, 16), (67108864, 32), (0xFFFFFFFF, 64), (0, 0)]

  /** What the tables say, for volumes of the type they are used for. */
  function ClusterSize(sectors: nat, isFat32: bool): byte {
    if !isFat32 then
      if sectors <= 32680 then 2
      else if sectors <= 262144 then 4
      else if sectors <= 524288 then 8
      else if sectors <= 1048576 then 16
      else if sectors <= 2097152 then 32
      else if sectors <= 4194304 then 64
      else if sectors <= 8388608 then 128
      else 0
    else
      if sectors <= 532480 then 1
      else if sectors <= 16777216 then 8
      else if sectors <= 33554432 then 16
      else if sectors <= 67108864 then 32
      else if sectors <= 0xFFFFFFFF then 64
      else 0
  }

  /** fatfs_calc_cluster_size */
  method CalcClusterSize(sectors: word32, isFat32: bool) returns (size: byte)
    ensures size == ClusterSize(sectors, isFat32)
  {
    var table := if isFat32 then TABLE32 else TABLE16;
    var i := 0;
    while table[i].1 != 0
      invariant 0 <= i < |table|
      invariant forall j :: 0 <= j < i ==> sectors > table[j].0
      decreases |table| - i
    {
      assert i > 0 ==> sectors > table[i - 1].0;
      if sectors <= table[i].0 {
        return table[i].1;
      }
      i := i + 1;
    }
    assert sectors > table[i - 1].0;
    size := 0;
  }

  /** The cluster sizes of Microsoft's tables: in bytes, for volumes of so many bytes. */
  lemma ClusterBytes(sectors: nat)
    ensures var bytes, kib, mib, gib := sectors * 512, 1024, 0x10_0000, 0x4000_0000;
            && (bytes <= 16_732_160 ==> ClusterSize(sectors, false) * 512 == kib)
            && (16_732_160 < bytes <= 128 * mib ==> ClusterSize(sectors, false) * 512 == 2 * kib)
            && (128 * mib < bytes <= 256 * mib ==> ClusterSize(sectors, false) * 512 == 4 * kib)
            && (256 * mib < bytes <= 512 * mib ==> ClusterSize(sectors, false) * 512 == 8 * kib)
            && (512 * mib < bytes <= gib ==> ClusterSize(sectors, false) * 512 == 16 * kib)
            && (gib < bytes <= 2 * gib ==> ClusterSize(sectors, false) * 512 == 32 * kib)
            && (bytes <= 260 * mib ==> ClusterSize(sectors, true) == 1)
            && (260 * mib < bytes <= 8 * gib ==> ClusterSize(sectors, true) * 512 == 4 * kib)
            && (8 * gib < bytes <= 16 * gib ==> ClusterSize(sectors, true) * 512 == 8 * kib)
            && (16 * gib < bytes <= 32 * gib ==> ClusterSize(sectors, true) * 512 == 16 * kib)
            && (32 * gib < bytes <= 512 * 0xFFFF_FFFF ==> ClusterSize(sectors, true) * 512 == 32 * kib)
  {
  }

  /** The FAT a volume gets: room for one entry more than its sectors make clusters. */
  function FatSectorsFor(sectors: nat, spc: nat, isFat32: bool): nat
    requires spc > 0
  {
    (sectors / spc + 1) / (if isFat32 then 128 else 256) + 1
  }

  function Byte(v: nat, k: nat): byte
    requires k < 4
  {
    (if k == 0 then v else if k == 1 then v / 0x100 else if k == 2 then v / 0x1_0000 else v / 0x100_0000) % 0x100
  }

  function Reserved(isFat32: bool): byte {
    if isFat32 then 32 else 8
  }

  function RootEntries(isFat32: bool): nat {
    if isFat32 then 0 else 512
  }

  /** fatfs_create_boot_sector: the part both types share, bytes 0 to 21. */
  function BootStart(spc: byte, isFat32: bool): (s: seq<byte>)
    ensures |s| == 22
  {
    [0xEB, 0x3C, 0x90, 0x4D, 0x53, 0x44, 0x4F, 0x53, 0x35, 0x2E, 0x30,
     Byte(SECTOR_SIZE, 0), Byte(SECTOR_SIZE, 1), spc, Reserved(isFat32), 0, 2,
     Byte(RootEntries(isFat32), 0), Byte(RootEntries(isFat32), 1), 0, 0, 0xF8]
  }

  /** Bytes 22 to 42 of a FAT16 boot sector. */
  function BootMiddle16(sectors: nat, fatSectors: nat): (s: seq<byte>)
    ensures |s| == 21
  {
    [Byte(fatSectors, 0), Byte(fatSectors, 1), 0, 0, 0, 0, 0x20, 0, 0, 0,
     Byte(sectors, 0), Byte(sectors, 1), Byte(sectors, 2), Byte(sectors, 3),
     0, 0, 0x29, 0x12, 0x34, 0x56, 0x78]
  }

  function Bytes4(v: nat): (s: seq<byte>)
    ensures |s| == 4
  {
    [Byte(v, 0), Byte(v, 1), Byte(v, 2), Byte(v, 3)]
  }

  /** Bytes 22 to 70 of a FAT32 boot sector; root cluster 2 and FSInfo in sector 1. */
  function BootMiddle32(sectors: nat, fatSectors: nat): (s: seq<byte>)
    ensures |s| == 49
  {
    [0, 0, 0x3F, 0, 0xFF, 0, 0, 0, 0, 0] + Bytes4(sectors) + Bytes4(fatSectors) + [0, 0, 0, 0] + Bytes4(2) +
        [1, 0, 6, 0]
    + Zeros(14) + [0x29, 0x12, 0x34, 0x56, 0x78]
  }

  /** The whole boot sector, with the volume name cut or padded to eleven bytes. */
  function BootSector(sectors: nat, name: seq<byte>, isFat32: bool): Sector
    requires ClusterSize(sectors, isFat32) > 0
  {
    var spc := ClusterSize(sectors, isFat32);
    var fatSectors := FatSectorsFor(sectors, spc, isFat32);
    var head := BootStart(spc, isFat32) + (if isFat32 then BootMiddle32(sectors, fatSectors)
                                           else BootMiddle16(sectors, fatSectors))
                + Padded(name, 11) + [0x46, 0x41, 0x54] + (if isFat32 then [0x33, 0x32] else [0x31, 0x36]) +
                    [0x20, 0x20, 0x20];
    head + Zeros(SECTOR_SIZE - 2 - |head|) + [0x55, 0xAA]
  }

  /* ----------- mounting ----------- */

  datatype InitResult = InitOk | AccessError | InvalidSignature | InvalidSectorSize | WrongFilesystem

  /** Where the partition begins: the first entry of the partition table, if it has a type. */
  function LbaBegin(sector0: Sector): nat {
    var code := sector0[450];
    if code in {0x0B, 0x06, 0x0C, 0x0E, 0x0F, 0x05} || 0 < code <= 0x06 then Get32(sector0, 454) else 0
  }

  /** What fatfs_init makes of the fields of a boot sector.  The arithmetic is 32-bit. */
  function Layout(spc: byte, reserved: nat, numFats: nat, rootEntries: nat, fatSectors: nat, totalSectors: nat,
                  rootCluster: nat, fsInfo: nat, lbaBegin: nat, total: nat): Volume
  {
    var rootSectors := (rootEntries * 32 + (SECTOR_SIZE - 1)) / SECTOR_SIZE;
    var fatBegin := (lbaBegin + reserved) % WORD32;
    var dataSectors := (totalSectors - (reserved + numFats * fatSectors + rootSectors)) % WORD32;
    var count := if spc == 0 then 0 else dataSectors / spc;
    Volume(if count < 65525 then Fat16 else Fat32, spc, lbaBegin, fatBegin, fatSectors,
           (fatBegin + numFats * fatSectors) % WORD32,
           rootEntries, (reserved + numFats * fatSectors) % WORD32, rootSectors,
           if count < 65525 then 0 else rootCluster, fsInfo, count, total)
  }

  /** fatfs_init, from the boot sector of the partition. */
  function Parse(boot: Sector, lbaBegin: nat, total: nat): (InitResult, Volume) {
    var g := Layout(boot[13], Get16(boot, 14), boot[16], Get16(boot, 17),
                    if Get16(boot, 22) != 0 then Get16(boot, 22) else Get32(boot, 36),
                    if Get16(boot, 19) != 0 then Get16(boot, 19) else Get32(boot, 32),
                    Get32(boot, 44), Get16(boot, 48), lbaBegin, total);
    if Get16(boot, 11) != SECTOR_SIZE then (InvalidSectorSize, g)
    else if Get16(boot, 510) != 0xAA55 then (InvalidSignature, g)
    else if g.sectorsPerCluster == 0 || g.clusters < 4085 then (WrongFilesystem, g)
    else (InitOk, g)
  }

  /** What mounting a medium comes to. */
  function Mount(sectors: seq<Sector>): (InitResult, Volume)
    requires |sectors| > 0
  {
    var lbaBegin := LbaBegin(sectors[0]);
    if Get16(sectors[0], 510) != 0xAA55 then (InvalidSignature, Parse(sectors[0], 0, |sectors|).1)
    else if lbaBegin >= |sectors| then (AccessError, Parse(sectors[0], 0, |sectors|).1)
    else Parse(sectors[lbaBegin], lbaBegin, |sectors|)
  }

  /** fatfs_init, up to a fault of the medium. */
  method Init(media: Media) returns (result: InitResult, g: Volume)
    requires media.Reliable() && |media.sectors| > 0
    modifies media`transfers
    ensures (result, g) == Mount(media.sectors)
  {
    var ok, sector := media.Read(0);
    g := Parse(sector, 0, |media.sectors|).1;
    if !ok {
      return AccessError, g;
    }
    if sector[510] != 0x55 || sector[511] != 0xAA {
      return InvalidSignature, g;
    }
    var lbaBegin := LbaBegin(sector);
    var boot;
    ok, boot := media.Read(lbaBegin);
    if !ok {
      return AccessError, g;
    }
    result, g := Parse(boot, lbaBegin, |media.sectors|).0, Parse(boot, lbaBegin, |media.sectors|).1;
  }
}
