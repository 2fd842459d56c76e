/** What a formatted volume is mounted as. */
module FormatMount {

  import opened Words
  import opened FatEntries
  import opened Geometry
  import opened ShortNames
  import opened Format

  lemma BytesMake(v: nat)
    ensures v < 0x1_0000 ==> Byte(v, 0) + 0x100 * Byte(v, 1) == v
    ensures v < WORD32 ==> Byte(v, 0) + 0x100 * Byte(v, 1) + 0x1_0000 * (Byte(v, 2) + 0x100 * Byte(v, 3)) == v
  {
    var a, b, c := v / 0x100, v / 0x1_0000, v / 0x100_0000;
    assert v == 0x100 * a + v % 0x100;
    assert a == 0x100 * b + a % 0x100 && b == a / 0x100;
    assert b == 0x100 * c + b % 0x100 && c == b / 0x100;
  }

  /** Bytes 0 to 21 of a boot sector, and the last two. */
  lemma BootEnds(sectors: nat, name: seq<byte>, isFat32: bool)
    requires ClusterSize(sectors, isFat32) > 0
    ensures var b := BootSector(sectors, name, isFat32);
            && b[..22] == BootStart(ClusterSize(sectors, isFat32), isFat32)
            && b[450] == 0 && b[510] == 0x55 && b[511] == 0xAA
  {
    hide BootStart, BootMiddle16, BootMiddle32, Padded, ClusterSize, FatSectorsFor;
  }

  lemma BootMiddleIs(sectors: nat, name: seq<byte>, isFat32: bool)
    requires ClusterSize(sectors, isFat32) > 0
    ensures var b, fatSectors := BootSector(sectors, name, isFat32),
            FatSectorsFor(sectors, ClusterSize(sectors, isFat32), isFat32);
            if isFat32 then b[22..71] == BootMiddle32(sectors, fatSectors)
                else b[22..43] == BootMiddle16(sectors, fatSectors)
  {
    hide BootStart, BootMiddle16, BootMiddle32, Padded, ClusterSize, FatSectorsFor;
    var b := BootSector(sectors, name, isFat32);
  }

  lemma BootStartFields(b: Sector, spc: byte, isFat32: bool)
    requires b[..22] == BootStart(spc, isFat32)
    ensures Get16(b, 11) == SECTOR_SIZE && b[13] == spc && Get16(b, 14) == Reserved(isFat32) && b[16] == 2
    ensures Get16(b, 17) == RootEntries(isFat32) && Get16(b, 19) == 0
  {
    var s := BootStart(spc, isFat32);
    assert forall i :: 0 <= i < 22 ==> b[i] == b[..22][i];
    assert b[11] == s[11] && b[12] == s[12] && b[13] == s[13] && b[14] == s[14] && b[15] == s[15] && b[16] == s[16];
    assert b[17] == s[17] && b[18] == s[18] && b[19] == s[19] && b[20] == s[20];
  }

  lemma Middle16Fields(b: Sector, sectors: nat, fatSectors: nat)
    requires b[22..43] == BootMiddle16(sectors, fatSectors)
    requires sectors < WORD32 && fatSectors < 0x1_0000
    ensures Get16(b, 22) == fatSectors && Get32(b, 32) == sectors
  {
    var s := BootMiddle16(sectors, fatSectors);
    BytesMake(sectors);
    BytesMake(fatSectors);
    hide Byte;
    assert forall i :: 0 <= i < 21 ==> b[22 + i] == b[22..43][i];
    assert b[22] == s[0] && b[23] == s[1] && b[32] == s[10] && b[33] == s[11] && b[34] == s[12] && b[35] == s[13];
  }

  /** A byte of a part of the sector. */
  lemma PartAt(b: Sector, from: nat, part: seq<byte>, k: nat)
    requires from + |part| <= SECTOR_SIZE && b[from..from + |part|] == part && k < |part|
    ensures b[from + k] == part[k]
  {
  }

  lemma Middle32At(sectors: nat, fatSectors: nat)
    ensures var s := BootMiddle32(sectors, fatSectors);
            && s[0] == 0 && s[1] == 0 && s[26] == 1 && s[27] == 0
            && s[10..14] == Bytes4(sectors) && s[14..18] == Bytes4(fatSectors) && s[22..26] == Bytes4(2)
  {
    hide Bytes4;
  }

  /** A word stored in a part of the sector. */
  lemma WordAt(b: Sector, from: nat, part: seq<byte>, k: nat, v: nat)
    requires from + |part| <= SECTOR_SIZE && b[from..from + |part|] == part && k + 4 <= |part|
    requires part[k..k + 4] == Bytes4(v) && v < WORD32
    ensures Get32(b, from + k) == v
  {
    BytesMake(v);
    hide Byte;
    PartAt(b, from, part, k);
    PartAt(b, from, part, k + 1);
    PartAt(b, from, part, k + 2);
    PartAt(b, from, part, k + 3);
    var w := part[k..k + 4];
    assert part[k] == w[0] && part[k + 1] == w[1] && part[k + 2] == w[2] && part[k + 3] == w[3];
  }

  lemma Middle32Fields(b: Sector, sectors: nat, fatSectors: nat)
    requires b[22..71] == BootMiddle32(sectors, fatSectors)
    requires sectors < WORD32 && fatSectors < WORD32
    ensures Get16(b, 22) == 0 && Get32(b, 32) == sectors && Get32(b, 36) == fatSectors
    ensures Get32(b, 44) == 2 && Get16(b, 48) == 1
  {
    hide BootMiddle32, Bytes4, Get32;
    var s := BootMiddle32(sectors, fatSectors);
    Middle32At(sectors, fatSectors);
    WordAt(b, 22, s, 10, sectors);
    WordAt(b, 22, s, 14, fatSectors);
    WordAt(b, 22, s, 22, 2);
    PartAt(b, 22, s, 0);
    PartAt(b, 22, s, 1);
    PartAt(b, 22, s, 26);
    PartAt(b, 22, s, 27);
  }

  /** The geometry fatfs_format has in mind, with that many clusters. */
  function Intended(sectors: nat, isFat32: bool, fsInfo: nat, clusters: nat): Volume
    requires ClusterSize(sectors, isFat32) > 0
  {
    var spc := ClusterSize(sectors, isFat32) as nat;
    var fatSectors := FatSectorsFor(sectors, spc, isFat32);
    var reserved := Reserved(isFat32) as nat;
    Volume(if isFat32 then Fat32 else Fat16, spc, 0, reserved, fatSectors, reserved + 2 * fatSectors,
           RootEntries(isFat32),
           reserved + 2 * fatSectors, RootEntries(isFat32) / 16, if isFat32 then 2 else 0, fsInfo, clusters, sectors)
  }

  /** Sectors that are not data: reserved, both FATs, FAT16 root directory. */
  function Overhead(sectors: nat, isFat32: bool): nat
    requires ClusterSize(sectors, isFat32) > 0
  {
    Reserved(isFat32) + 2 * FatSectorsFor(sectors, ClusterSize(sectors, isFat32), isFat32) + RootEntries(isFat32) / 16
  }

  /** The cluster count mounting derives, in 32-bit arithmetic. */
  function CountOf(sectors: nat, isFat32: bool): nat
    requires ClusterSize(sectors, isFat32) > 0
  {
    (sectors - Overhead(sectors, isFat32)) % WORD32 / ClusterSize(sectors, isFat32)
  }

  lemma FatSectorsSmall(sectors: nat, isFat32: bool)
    requires sectors < WORD32 && (isFat32 || sectors <= FAT16_LIMIT)
    ensures ClusterSize(sectors, isFat32) > 0
    ensures var n := FatSectorsFor(sectors, ClusterSize(sectors, isFat32), isFat32);
            1 <= n && (if isFat32 then n < 0x200_0000 else n <= 257)
  {
  }

  /** Nothing in the layout of a formatted volume wraps around but the number of data sectors. */
  lemma LayoutIs(spc: byte, isFat32: bool, n: nat, sectors: nat, rootCluster: nat, fsInfo: nat)
    requires spc > 0 && (if isFat32 then n < 0x200_0000 else n <= 257)
    ensures var reserved: nat := Reserved(isFat32);
            var count := (sectors - (reserved + 2 * n + RootEntries(isFat32) / 16)) % WORD32 / spc;
            Layout(spc, reserved, 2, RootEntries(isFat32), n, sectors, rootCluster, fsInfo, 0, sectors) ==
            Volume(if count < 65525 then Fat16 else Fat32, spc, 0, reserved, n, reserved + 2 * n, RootEntries(isFat32),
                   reserved + 2 * n,
                   RootEntries(isFat32) / 16, if count < 65525 then 0 else rootCluster, fsInfo, count, sectors)
  {
    var reserved: nat, entries := Reserved(isFat32), RootEntries(isFat32);
    RootSectorsOf(isFat32);
    SmallWord(reserved);
    SmallWord(reserved + 2 * n);
    hide Reserved, RootEntries;
    assert 0 + reserved == reserved;
  }

  lemma SmallWord(x: nat)
    requires x < WORD32
    ensures x % WORD32 == x
  {
  }

  lemma RootSectorsOf(isFat32: bool)
    ensures (RootEntries(isFat32) * 32 + (SECTOR_SIZE - 1)) / SECTOR_SIZE == RootEntries(isFat32) / 16
  {
  }

  lemma LayoutOf(sectors: nat, isFat32: bool, rootCluster: nat, fsInfo: nat)
    requires sectors < WORD32 && (isFat32 || sectors <= FAT16_LIMIT)
    requires isFat32 ==> rootCluster == 2
    ensures ClusterSize(sectors, isFat32) > 0
    ensures var spc := ClusterSize(sectors, isFat32);
            var g := Layout(spc, Reserved(isFat32), 2, RootEntries(isFat32), FatSectorsFor(sectors, spc, isFat32),
                            sectors, rootCluster, fsInfo, 0, sectors);
            && g.clusters == CountOf(sectors, isFat32) && g.sectorsPerCluster == spc
            && ((g.clusters < 65525) != isFat32 ==> g == Intended(sectors, isFat32, fsInfo, g.clusters))
            && (g.fatType.Fat32? <==> g.clusters >= 65525)
  {
    FatSectorsSmall(sectors, isFat32);
    hide ClusterSize, FatSectorsFor, Layout, Reserved, RootEntries;
    var spc := ClusterSize(sectors, isFat32);
    LayoutIs(spc, isFat32, FatSectorsFor(sectors, spc, isFat32), sectors, rootCluster, fsInfo);
  }

  /** Mounting a formatted volume reads the fields back, and decides on its type anew. */
  lemma ParseFormatted(sectors: nat, name: seq<byte>, isFat32: bool)
    requires sectors < WORD32 && (isFat32 || sectors <= FAT16_LIMIT)
    ensures ClusterSize(sectors, isFat32) > 0
    ensures var (r, g) := Parse(BootSector(sectors, name, isFat32), 0, sectors);
            && g.clusters == CountOf(sectors, isFat32)
            && r == (if g.clusters < 4085 then WrongFilesystem else InitOk)
            && ((g.clusters < 65525) != isFat32 ==>
                g == Intended(sectors, isFat32, if isFat32 then 1 else g.fsInfoSector, g.clusters))
            && (g.fatType.Fat32? <==> g.clusters >= 65525)
  {
    FatSectorsSmall(sectors, isFat32);
    BootEnds(sectors, name, isFat32);
    BootMiddleIs(sectors, name, isFat32);
    var spc := ClusterSize(sectors, isFat32);
    var fatSectors := FatSectorsFor(sectors, spc, isFat32);
    hide BootSector, BootStart, BootMiddle16, BootMiddle32, ClusterSize, FatSectorsFor, Get32, Layout, CountOf,
         Intended;
    var b := BootSector(sectors, name, isFat32);
    BootStartFields(b, spc, isFat32);
    if isFat32 {
      Middle32Fields(b, sectors, fatSectors);
    } else {
      Middle16Fields(b, sectors, fatSectors);
    }
    LayoutOf(sectors, isFat32, Get32(b, 44), Get16(b, 48));
  }

  /** A boot sector with eight root entries mounts, and the root it describes lies on the
      first data cluster. */
  lemma RootOfEight(name: seq<byte>)
    ensures ClusterSize(10000, false) > 0
    ensures var boot: Sector := BootSector(10000, name, false)[17 := 8][18 := 0];
            var (r, g) := Parse(boot, 0, 10000);
            r == InitOk && g.fatType == Fat16 && g.rootEntryCount == 8 && g.InRoot(g.Lba(2))
  {
    FatSectorsSmall(10000, false);
    BootEnds(10000, name, false);
    BootMiddleIs(10000, name, false);
    assert ClusterSize(10000, false) == 2 && FatSectorsFor(10000, 2, false) == 20;
    hide BootSector, BootStart, BootMiddle16, ClusterSize, FatSectorsFor, Load;
    var b := BootSector(10000, name, false);
    var boot: Sector := b[17 := 8][18 := 0];
    BootStartFields(b, 2, false);
    Middle16Fields(b, 10000, 20);
    LoadSame(b, boot, 11, 2);
    LoadSame(b, boot, 14, 2);
    LoadSame(b, boot, 19, 2);
    LoadSame(b, boot, 22, 2);
    LoadSame(b, boot, 32, 4);
    EightIsLoaded(boot);
  }

  lemma EightIsLoaded(boot: Sector)
    requires boot[17] == 8 && boot[18] == 0 && boot[510] == 0x55 && boot[511] == 0xAA
    ensures Get16(boot, 17) == 8 && Get16(boot, 510) == 0xAA55
  {
  }

  /* The cluster count of a FAT16 volume, size class by size class. */

  lemma Count2Tiny(sectors: nat)
    requires sectors < 42
    ensures CountOf(sectors, false) >= 65525
  {
    assert FatSectorsFor(sectors, 2, false) == 1;
    assert Overhead(sectors, false) == 42;
  }

  /** The formula for two sectors per cluster, once the data area does not wrap around. */
  lemma Count2Is(sectors: nat, f: nat)
    requires 42 <= sectors <= 32680 && f == (sectors / 2 + 1) / 256 + 1
    ensures 40 + 2 * f <= sectors && CountOf(sectors, false) == (sectors - (40 + 2 * f)) / 2
  {
    assert Overhead(sectors, false) == 40 + 2 * f;
  }

  lemma Count2Small(sectors: nat)
    requires 42 <= sectors < 8244
    ensures CountOf(sectors, false) < 4085
  {
    var f := (sectors / 2 + 1) / 256 + 1;
    Count2Is(sectors, f);
    hide CountOf;
    if sectors >= 8190 {
      assert f >= 17;
    }
  }

  lemma Count2(sectors: nat)
    requires 8244 <= sectors <= 32680
    ensures 4085 <= CountOf(sectors, false) < 65525
  {
    var f := (sectors / 2 + 1) / 256 + 1;
    Count2Is(sectors, f);
    hide CountOf;
  }

  lemma Count4(sectors: nat)
    requires 32680 < sectors <= 262144
    ensures ClusterSize(sectors, false) == 4 && 4085 <= CountOf(sectors, false) < 65525
  {
    var n := sectors / 4;
    var f := (n + 1) / 256 + 1;
    assert CountOf(sectors, false) == (sectors - (40 + 2 * f)) / 4;
  }

  lemma Count8(sectors: nat)
    requires 262144 < sectors <= 524288
    ensures ClusterSize(sectors, false) == 8 && 4085 <= CountOf(sectors, false) < 65525
  {
    var n := sectors / 8;
    var f := (n + 1) / 256 + 1;
    assert CountOf(sectors, false) == (sectors - (40 + 2 * f)) / 8;
  }

  lemma Count16(sectors: nat)
    requires 524288 < sectors <= 1048576
    ensures ClusterSize(sectors, false) == 16 && 4085 <= CountOf(sectors, false) < 65525
  {
    var n := sectors / 16;
    var f := (n + 1) / 256 + 1;
    assert CountOf(sectors, false) == (sectors - (40 + 2 * f)) / 16;
  }

  lemma Count32(sectors: nat)
    requires 1048576 < sectors <= 2097152
    ensures ClusterSize(sectors, false) == 32 && 4085 <= CountOf(sectors, false) < 65525
  {
    var n := sectors / 32;
    var f := (n + 1) / 256 + 1;
    assert CountOf(sectors, false) == (sectors - (40 + 2 * f)) / 32;
  }

  lemma Count64(sectors: nat)
    requires 2097152 < sectors <= FAT16_LIMIT
    ensures ClusterSize(sectors, false) == 64 && 4085 <= CountOf(sectors, false)
    ensures CountOf(sectors, false) < 65525 <==> sectors <= 4194151
  {
    var n := sectors / 64;
    var f := (n + 1) / 256 + 1;
    assert CountOf(sectors, false) == (sectors - (40 + 2 * f)) / 64;
  }

  lemma ClusterSizePositive(sectors: nat)
    requires sectors <= FAT16_LIMIT
    ensures ClusterSize(sectors, false) > 0
  {
  }

  lemma CountFat16(sectors: nat)
    requires sectors <= FAT16_LIMIT
    ensures ClusterSize(sectors, false) > 0
    ensures sectors < 42 ==> CountOf(sectors, false) >= 65525
    ensures 42 <= sectors < 8244 ==> CountOf(sectors, false) < 4085
    ensures 8244 <= sectors <= 4194151 ==> 4085 <= CountOf(sectors, false) < 65525
    ensures 4194151 < sectors ==> CountOf(sectors, false) >= 65525
  {
    hide CountOf, ClusterSize;
    ClusterSizePositive(sectors);
    if sectors < 42 {
      Count2Tiny(sectors);
    } else if sectors < 8244 {
      Count2Small(sectors);
    } else if sectors <= 32680 {
      Count2(sectors);
    } else if sectors <= 262144 {
      Count4(sectors);
    } else if sectors <= 524288 {
      Count8(sectors);
    } else if sectors <= 1048576 {
      Count16(sectors);
    } else if sectors <= 2097152 {
      Count32(sectors);
    } else {
      Count64(sectors);
    }
  }

  /** A volume too large for FAT16 always has FAT32's number of clusters. */
  lemma CountFat32(sectors: nat)
    requires FAT16_LIMIT < sectors < WORD32
    ensures ClusterSize(sectors, true) in {8, 16, 32, 64} && CountOf(sectors, true) >= 65525
    ensures sectors >= Overhead(sectors, true)
  {
  }

  lemma DivTimes(x: nat, k: nat)
    requires k > 0
    ensures x / k * k <= x
  {
  }

  /** More entries than clusters: the FAT is sized by all sectors, the clusters by what is left. */
  lemma FatCovers(sectors: nat, spc: nat, data: nat, per: nat)
    requires spc > 0 && per > 0 && data <= sectors
    ensures data / spc + 2 <= ((sectors / spc + 1) / per + 1) * per
  {
    DivMonotone(data, sectors, spc);
    var n := sectors / spc + 1;
    assert n == n / per * per + n % per;
    assert (n / per + 1) * per == n / per * per + per;
  }

  lemma DivMonotone(x: nat, y: nat, k: nat)
    requires x <= y && k > 0
    ensures x / k <= y / k
  {
    var a, b := x / k, y / k;
    assert x == a * k + x % k && y == b * k + y % k;
    if a > b {
      MulMonotone(b + 1, a, k);
    }
  }

  lemma FourthOfSectors(sectors: nat, spc: nat)
    requires spc >= 8 && sectors < WORD32 && (spc == 8 ==> sectors <= 16777216) && (spc < 64 ==> sectors <= 67108864)
    requires spc in {8, 16, 32, 64}
    ensures sectors / spc + 2 <= 0x0FFF_FFF7
  {
  }

  lemma Shape16(g: Volume)
    requires g.fatType.Fat16? && g.sectorsPerCluster > 0 && g.lbaBegin == 0 && g.fatBegin == 8 && g.fatSectors >= 1
    requires g.clusterBegin == g.rootFirstSector == 8 + 2 * g.fatSectors && g.rootEntryCount == 512 &&
             g.rootSectors == 32
    requires g.rootFirstCluster == 0 && 4085 <= g.clusters < 65525 && g.clusters + 2 <= g.fatSectors * 256
    requires g.clusterBegin + 32 + g.clusters * g.sectorsPerCluster <= g.total < WORD32
    ensures g.WellFormed()
  {
    SpanIsProduct(g, g.clusters);
    hide Volume.Span;
  }

  lemma Shape32(g: Volume)
    requires g.fatType.Fat32? && g.sectorsPerCluster > 0 && g.lbaBegin == 0 && g.fatBegin == 32 && g.fatSectors >= 1
    requires g.clusterBegin == g.rootFirstSector == 32 + 2 * g.fatSectors && g.rootEntryCount == 0 && g.rootSectors == 0
    requires g.rootFirstCluster == 2 && g.fsInfoSector == 1
    requires 65525 <= g.clusters <= 0x0FFF_FFF5 && g.clusters + 2 <= g.fatSectors * 128
    requires g.clusterBegin + g.clusters * g.sectorsPerCluster <= g.total < WORD32
    ensures g.WellFormed()
  {
    SpanIsProduct(g, g.clusters);
    hide Volume.Span;
  }

  lemma CountFits(sectors: nat, isFat32: bool)
    requires sectors < WORD32 && ClusterSize(sectors, isFat32) > 0 && Overhead(sectors, isFat32) <= sectors
    ensures var spc, count := ClusterSize(sectors, isFat32), CountOf(sectors, isFat32);
            && count == (sectors - Overhead(sectors, isFat32)) / spc
            && Overhead(sectors, isFat32) + count * spc <= sectors
            && count + 2 <= FatSectorsFor(sectors, spc, isFat32) * (if isFat32 then 128 else 256)
  {
    hide ClusterSize, Overhead;
    var spc, data := ClusterSize(sectors, isFat32), sectors - Overhead(sectors, isFat32);
    FatCovers(sectors, spc, data, if isFat32 then 128 else 256);
    DivTimes(data, spc);
  }

  /** The geometry intended is well formed: among other things the FAT has an entry for every
      data cluster, and the data area fits on the medium. */
  lemma IntendedWellFormed(sectors: nat, isFat32: bool, fsInfo: nat)
    requires if isFat32 then FAT16_LIMIT < sectors < WORD32 && fsInfo == 1 else 8244 <= sectors <= 4194151
    ensures ClusterSize(sectors, isFat32) > 0
    ensures Intended(sectors, isFat32, fsInfo, CountOf(sectors, isFat32)).WellFormed()
  {
    hide ClusterSize, FatSectorsFor, CountOf, Volume.WellFormed;
    FatSectorsSmall(sectors, isFat32);
    if isFat32 {
      CountFat32(sectors);
      CountFits(sectors, true);
      Classes32(sectors);
      FourthOfSectors(sectors, ClusterSize(sectors, true));
      DivMonotone(sectors - Overhead(sectors, true), sectors, ClusterSize(sectors, true));
      Shape32(Intended(sectors, true, fsInfo, CountOf(sectors, true)));
    } else {
      CountFat16(sectors);
      OverheadFits(sectors);
      CountFits(sectors, false);
      Shape16(Intended(sectors, false, fsInfo, CountOf(sectors, false)));
    }
  }

  lemma Classes32(sectors: nat)
    requires FAT16_LIMIT < sectors < WORD32
    ensures var spc := ClusterSize(sectors, true);
            spc in {8, 16, 32, 64} && (spc == 8 ==> sectors <= 16777216) && (spc < 64 ==> sectors <= 67108864)
  {
  }

  lemma OverheadFits(sectors: nat)
    requires 8244 <= sectors <= FAT16_LIMIT
    ensures ClusterSize(sectors, false) > 0 && Overhead(sectors, false) <= 554 <= sectors
  {
    FatSectorsSmall(sectors, false);
  }

  /** Format, then mount.  A volume formatted as FAT32, which it is above 4194304 sectors, is
      mounted with just the geometry it was given; one formatted as FAT16 is if and only if it
      has 8244 to 4194151 sectors.  A smaller one is refused, unless it is so small that its
      data area wraps around, and a larger one is taken for FAT32. */
  lemma FormatThenMount(sectors: nat, name: seq<byte>)
    requires sectors < WORD32
    ensures ClusterSize(sectors, sectors > FAT16_LIMIT) > 0
    ensures var isFat32 := sectors > FAT16_LIMIT;
            var (r, g) := Parse(BootSector(sectors, name, isFat32), 0, sectors);
            && (isFat32 ==> r == InitOk && g == Intended(sectors, true, 1, g.clusters) && g.WellFormed())
            && (!isFat32 ==> (r == InitOk && g.fatType == Fat16 <==> 8244 <= sectors <= 4194151))
            && (8244 <= sectors <= 4194151 ==>
                g == Intended(sectors, false, g.fsInfoSector, g.clusters) && g.WellFormed())
            && (r == WrongFilesystem <==> 42 <= sectors < 8244)
            && (sectors < 42 || 4194151 < sectors <= FAT16_LIMIT ==> r == InitOk && g.fatType == Fat32)
  {
    var isFat32 := sectors > FAT16_LIMIT;
    ParseFormatted(sectors, name, isFat32);
    hide Parse, BootSector, CountOf, ClusterSize, Intended, Volume.WellFormed;
    if isFat32 {
      CountFat32(sectors);
      IntendedWellFormed(sectors, true, 1);
    } else {
      CountFat16(sectors);
      if 8244 <= sectors <= 4194151 {
        IntendedWellFormed(sectors, false, Parse(BootSector(sectors, name, false), 0, sectors).1.fsInfoSector);
      }
    }
  }
}
