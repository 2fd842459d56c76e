/** A freshly formatted and mounted volume is one everything else can start from. */
module FreshVolume {

  import opened Words
  import opened BlockDevice
  import opened FatEntries
  import opened Geometry
  import opened ChainDefs
  import opened FatTable
  import opened FileLayout
  import opened FileSpec
  import opened FileContent
  import opened FileSectors
  import opened DirRecords
  import opened Names
  import opened DirSearch
  import opened DirInsert
  import opened DirShort
  import opened DirLayout
  import opened DirAccess
  import opened DirSpace
  import opened DirRoom
  import opened DiskReader
  import opened ShortNames
  import opened FileState
  import opened FileClose
  import opened FileCreate
  import opened AppendSessions
  import opened EndToEnd
  import opened FilesByName
  import opened VolumeRuns
  import opened Budget
  import opened FormatMount
  import opened FormatMedia
  import opened ClusterCounts
  import F = Format
  import H = ChainHeap

  /* ----------- the FAT ----------- */

  lemma ZeroSlot(t: FatType, j: nat)
    requires j < t.PerSector()
    ensures t.Get(Zeros(SECTOR_SIZE), j) == 0
  {
  }

  /** The entries of the first FAT sector. */
  lemma FirstSlots(t: FatType, j: nat)
    requires j < t.PerSector()
    ensures var v := t.Get(FirstFatSector(t.Fat32?), j);
            && (j < (if t.Fat32? then 3 else 2) ==> !t.IsFree(v))
            && (j >= (if t.Fat32? then 3 else 2) ==> v == 0)
            && (t.Fat32? && j == 2 ==> t.Next(v) == LAST)
  {
    var z := Zeros(SECTOR_SIZE);
    ZeroSlot(t, j);
    if t.Fat16? {
      PutGet(t, z, 0, j, 0xFFF8);
      PutGet(t, t.Put(z, 0, 0xFFF8), 1, j, 0xFFFF);
    } else {
      PutGet(t, z, 0, j, 0x0FFF_FFF8);
      PutGet(t, t.Put(z, 0, 0x0FFF_FFF8), 1, j, 0xFFFF_FFFF);
      PutGet(t, t.Put(t.Put(z, 0, 0x0FFF_FFF8), 1, 0xFFFF_FFFF), 2, j, 0x0FFF_FFFF);
    }
    hide Put16, Put32, Get16, Get32;
  }

  /** The FAT of a fresh volume: the reserved entries, on FAT32 the root directory, and
      otherwise only zeros. */
  ghost predicate FreshFat(g: Mounted, fat: seq<nat>) {
    var used := if g.fatType.Fat32? then 3 else 2;
    && |fat| == g.Entries()
    && (forall c :: 0 <= c < |fat| ==> if c < used then !g.fatType.IsFree(fat[c]) else fat[c] == 0)
    && (g.fatType.Fat32? ==> g.fatType.Next(fat[2]) == LAST)
  }

  lemma FormattedFat(g: Mounted, sectors: seq<Sector>, name: seq<byte>)
    requires Formatted(g, sectors, name)
    ensures FreshFat(g, DiskFat(g, sectors))
  {
    hide FirstFatSector, F.BootSector, F.Parse, FatType.Get, FatType.IsFree, FatType.Next;
    assert g.Entries() >= 3;
    var t, view, fat := g.fatType, sectors[g.fatBegin..g.fatBegin + g.fatSectors], DiskFat(g, sectors);
    forall c | 0 <= c < |fat|
      ensures if c < (if t.Fat32? then 3 else 2) then !t.IsFree(fat[c]) else fat[c] == 0
      ensures t.Fat32? && c == 2 ==> t.Next(fat[c]) == LAST
    {
      assert fat[c] == t.Get(view[t.SectorOf(c)], t.SlotOf(c));
      if t.SectorOf(c) == 0 {
        FirstSlots(t, t.SlotOf(c));
      } else {
        ZeroSlot(t, t.SlotOf(c));
      }
    }
  }

  /** All data clusters are free but the one FAT32 keeps its root directory in. */
  lemma FreshFree(g: Mounted, fat: seq<nat>)
    requires FreshFat(g, fat) && (g.fatType.Fat32? ==> g.rootFirstCluster == 2)
    ensures Reserved(g.fatType, fat, g.rootFirstCluster)
    ensures Free(g, fat) == g.clusters - if g.fatType.Fat32? then 1 else 0
    ensures g.fatType.Fat32? ==> IsChain(g.fatType, fat, g.Limit(), [2])
  {
    hide FatType.IsFree, FatType.Next, FatType.MaxLink;
    var used := if g.fatType.Fat32? then 3 else 2;
    FreeCountJoin(g.fatType, fat, g.rootFirstCluster, used, g.Limit());
    NoneFree(g.fatType, fat, g.rootFirstCluster, used);
    AllFree(g.fatType, fat, used, g.Limit());
  }

  /* ----------- the root directory ----------- */

  lemma {:induction false} BlankRun(records: seq<Record>, i: nat, need: nat)
    requires Blanks(records) && i < need <= |records|
    ensures FreeRun(records, i, i, 0, need) == At(0)
    decreases need - i
  {
    ZeroIsUnused();
    if i + 1 < need {
      BlankRun(records, i + 1, need);
    }
  }

  /** An empty directory is in order, and any name is new to it. */
  lemma BlankIsOrderly(records: seq<Record>, key: NameKey)
    requires Blanks(records)
    ensures Complete(records, NOTHING) && ShortUnique(records) && LiveSet(records) == {}
    ensures Search(records, EMPTY_CACHE, key).Miss?
  {
    BlanksAreUnused(records);
    EmptyCacheValid();
    NoneLiveComplete(records, NOTHING);
    SearchNoneLive(records, EMPTY_CACHE, key);
    hide IsLive, Complete, Blanks;
  }

  /** Where the root directory of a fresh volume is. */
  ghost function RootPlace(g: Mounted): Place {
    if g.fatType.Fat32? then InChain([2]) else Root16
  }

  ghost function RootSize(g: Mounted): nat {
    if g.fatType.Fat32? then g.sectorsPerCluster else g.rootSectors
  }

  lemma RootIsBlank(g: Mounted, sectors: seq<Sector>, name: seq<byte>, fat: seq<nat>)
    requires Formatted(g, sectors, name) && fat == DiskFat(g, sectors)
    ensures IsPlace(g, fat, g.rootFirstCluster, RootPlace(g))
    ensures Hold(sectors, PlaceLbas(g, RootPlace(g)), BlankSectors(RootSize(g)))
  {
    FormattedFat(g, sectors, name);
    FreshFree(g, fat);
    hide FreshFat, Decode, F.BootSector, F.Parse, IsChain, FreeCount, FirstFatSector;
    if g.fatType.Fat32? {
      OneClusterLbas(g, 2);
    }
  }

  lemma OneClusterLbas(g: Mounted, c: nat)
    requires g.IsCluster(c)
    ensures AllClusters(g, [c]) && Lbas(g, [c]) == ClusterLbas(g, c)
  {
    assert [c][..0] == [];
    assert Lbas(g, []) == [];
    assert [] + ClusterLbas(g, c) == ClusterLbas(g, c);
  }

  /** A volume just mounted after a format: its root directory is empty, its FAT is the one on
      the medium, and a file of any good name can be created and filled as long as there are
      clusters. */
  lemma FreshCanAppend(fs: Fatfs, volumeName: seq<byte>, name: seq<byte>, bytes: nat) returns (d: Desk)
    requires fs.Valid() && fs.media.Reliable() && fs.curAddress == LAST && fs.Purged()
    requires Formatted(fs.g, fs.media.sectors, volumeName)
    requires GoodName(name) && bytes < WORD32
    requires SectorsFor(bytes) <= fs.g.Span(fs.g.clusters - if fs.g.fatType.Fat32? then 1 else 0)
    ensures CanAppend(fs, fs.g.rootFirstCluster, name, d, bytes)
    ensures Search(Records(d.dirSecs), EMPTY_CACHE, Key(name)).Miss?
  {
    hide FreshFat, Formatted, FreeCount, IsPlace, PlaceLbas, Hold, Records, Complete, ShortUnique, Search, FreeRun,
         IsChain, Fatfs.ValidWith, GoodName, Reserved, CanAppend;
    FormattedTypes(fs.g, fs.media.sectors, volumeName);
    var g, fat := fs.g, fs.fat;
    var secs := BlankSectors(RootSize(g));
    d := Desk(RootPlace(g), secs, 0, [], [], []);
    FormattedFat(g, fs.media.sectors, volumeName);
    FreshFree(g, fat);
    RootIsBlank(g, fs.media.sectors, volumeName, fat);
    BlankRecords(RootSize(g));
    BlankIsOrderly(Records(secs), Key(name));
    RootRoom(g, fs.media.sectors, volumeName);
    GoodNameFits(name);
    BlankRun(Records(secs), 0, LfnEntries(name) + 1);
    FreshCanCreate(fs, d, name, bytes);
  }

  lemma GoodNameFits(name: seq<byte>)
    requires GoodName(name)
    ensures LfnEntries(name) <= LFN_ROWS
  {
  }

  /** The root directory has room for the records of any name. */
  lemma RootRoom(g: Mounted, sectors: seq<Sector>, volumeName: seq<byte>)
    requires Formatted(g, sectors, volumeName)
    ensures 2 <= g.sectorsPerCluster && 2 <= RootSize(g)
  {
    FormatThenMount(|sectors|, volumeName);
    Layouts(|sectors|, volumeName);
    SizeAtLeast2(|sectors|);
    hide F.Parse, F.BootSector, F.ClusterSize, F.FatSectorsFor, FirstFatSector, Volume.WellFormed;
  }

  lemma FormattedTypes(g: Mounted, sectors: seq<Sector>, volumeName: seq<byte>)
    requires Formatted(g, sectors, volumeName)
    ensures g.fatType.Fat32? ==> g.rootFirstCluster == 2 && 65525 <= g.clusters
    ensures g.clusters >= 1 && |sectors| == g.total
  {
    FormatThenMount(|sectors|, volumeName);
    hide F.Parse, F.BootSector, F.ClusterSize, F.FatSectorsFor, FirstFatSector, Volume.WellFormed;
    assert g.WellFormed();
  }

  lemma SizeAtLeast2(sectors: nat)
    requires Formattable(sectors)
    ensures F.ClusterSize(sectors, IsFat32(sectors)) >= 2
  {
  }

  lemma FreshCanCreate(fs: Fatfs, d: Desk, name: seq<byte>, bytes: nat)
    requires fs.Valid() && fs.media.Reliable() && fs.curAddress == LAST
    requires IsPlace(fs.g, fs.fat, fs.g.rootFirstCluster, d.place) &&
             Hold(fs.media.sectors, PlaceLbas(fs.g, d.place), d.dirSecs)
    requires GoodName(name) && bytes < WORD32 && 2 <= fs.g.sectorsPerCluster
    requires var records := Records(d.dirSecs);
             && Complete(records, NOTHING) && ShortUnique(records) && LiveSet(records) == {}
             && Search(records, EMPTY_CACHE, Key(name)).Miss? && FreeRun(records, 0, 0, 0, LfnEntries(name) + 1).At?
    requires |fs.fat| == fs.g.Entries() && Reserved(fs.g.fatType, fs.fat, fs.g.rootFirstCluster) &&
             1 <= Free(fs.g, fs.fat)
    requires SectorsFor(bytes) <= fs.g.Span(Free(fs.g, fs.fat))
    ensures CanAppend(fs, fs.g.rootFirstCluster, name, d, bytes)
  {
    hide Fatfs.ValidWith, Decode, Records, Complete, ShortUnique, Search, FreeRun, PlaceLbas, IsPlace, Hold, SfnOf,
         FreeCount, SectorsFor, Reserved;
  }

  lemma FormattedMounts(sectors: seq<Sector>, volumeName: seq<byte>)
    requires |sectors| > 0 && Formattable(|sectors|) && F.ClusterSize(|sectors|, IsFat32(|sectors|)) > 0
    requires sectors[0] == F.BootSector(|sectors|, volumeName, IsFat32(|sectors|))
    ensures F.Mount(sectors) == (F.InitOk, GeometryOf(|sectors|, volumeName))
  {
    FormatThenMount(|sectors|, volumeName);
    var isFat32 := IsFat32(|sectors|);
    BootEnds(|sectors|, volumeName, isFat32);
    hide F.Parse, F.BootSector, F.ClusterSize, F.FatSectorsFor, FirstFatSector, Volume.WellFormed, F.BootStart;
  }

  /** fl_attach_media on a medium just formatted, with any number of FAT buffers. */
  method Attach(media: Media, volumeName: seq<byte>, buffers: nat) returns (fs: Fatfs)
    requires media.Reliable() && Formattable(|media.sectors|) && buffers >= 1
    requires Formatted(GeometryOf(|media.sectors|, volumeName), media.sectors, volumeName)
    modifies media`transfers
    ensures fresh(fs) && fs.media == media && fs.g == GeometryOf(|media.sectors|, volumeName)
    ensures fs.Valid() && fs.curAddress == LAST && fs.Purged()
  {
    FormattedMounts(media.sectors, volumeName);
    FormattedTotal(media.sectors, volumeName);
    hide Formatted, F.Mount, GeometryOf, Formattable, Fatfs.ValidWith, Decode, Volume.WellFormed;
    var result, g := F.Init(media);
    fs := Start(g, media, buffers);
  }

  /** The state fatfs_init leaves. */
  method Start(g: Mounted, media: Media, buffers: nat) returns (fs: Fatfs)
    requires |media.sectors| == g.total && buffers >= 1
    ensures fresh(fs) && fs.media == media && fs.g == g
    ensures fs.Valid() && fs.curAddress == LAST && fs.Purged()
  {
    fs := new Fatfs(g, media, buffers);
  }

  lemma FormattedTotal(sectors: seq<Sector>, volumeName: seq<byte>)
    requires Formattable(|sectors|)
    ensures |sectors| == GeometryOf(|sectors|, volumeName).total
  {
    Layouts(|sectors|, volumeName);
  }

  /** Whatever is written behind the boot sector, the volume is mounted as it was. */
  lemma StillMounts(g: Mounted, sectors: seq<Sector>, sectors': seq<Sector>, volumeName: seq<byte>)
    requires Formatted(g, sectors, volumeName) && BootKept(g, sectors, sectors')
    ensures |sectors'| == |sectors| > 0 && F.Mount(sectors') == (F.InitOk, g)
  {
    FormattedTypes(g, sectors, volumeName);
    FormattedMounts(sectors, volumeName);
    Layouts(|sectors|, volumeName);
    BootEnds(|sectors|, volumeName, IsFat32(|sectors|));
    SizeAtLeast2(|sectors|);
    hide F.Parse, F.BootSector, F.BootStart, F.ClusterSize, F.FatSectorsFor, FirstFatSector, Volume.WellFormed,
         GeometryOf;
  }

  lemma RunStillMounts(fs: Fatfs, sectors: seq<Sector>, volumeName: seq<byte>, a: Stage, name: seq<byte>, b: Stage,
                       d': Desk, data: seq<byte>)
    requires Formatted(fs.g, sectors, volumeName) && a.sectors == sectors &&
             IsPlace(fs.g, a.fat, fs.g.rootFirstCluster, a.d.place)
    requires WholeRun(fs.g, a, name, b, Stage(fs.fat, fs.media.sectors, d'), data) &&
             AtRest(fs, fs.g.rootFirstCluster, d')
    ensures |fs.media.sectors| > 0 && F.Mount(fs.media.sectors) == (F.InitOk, fs.g)
  {
    hide Formatted, F.Mount, WholeRun, BootKept, IsPlace, FileAs, Hold, PlaceLbas, Fatfs.ValidWith;
    RunKeepsBoot(fs.g, fs.g.rootFirstCluster, a, name, b, Stage(fs.fat, fs.media.sectors, d'), data);
    StillMounts(fs.g, sectors, fs.media.sectors, volumeName);
  }

  /** From a blank medium to data that can be read back: format it, mount it, append to a file
      in any sessions.  Going by the medium alone, boot sector included, the file of that name
      then has exactly its bytes, whatever was on the medium before. */
  method FromScratch(media: Media, volumeName: seq<byte>, buffers: nat, file: FlFile, name: seq<byte>,
                     sessions: seq<seq<Op>>)
    returns (fs: Fatfs)
    requires media.Reliable() && Formattable(|media.sectors|) && buffers >= 1
    requires GoodName(name) && sessions != [] && |FlatAll(sessions)| < WORD32
    requires var g := GeometryOf(|media.sectors|, volumeName);
             SectorsFor(|FlatAll(sessions)|) <= g.Span(g.clusters - if g.fatType.Fat32? then 1 else 0)
    modifies media, file
    ensures fs.media == media && fs.g == GeometryOf(|old(media.sectors)|, volumeName)
    ensures |media.sectors| == fs.g.total > 0 && F.Mount(media.sectors) == (F.InitOk, fs.g)
    ensures DiskRead(fs.g, media.sectors, fs.g.rootFirstCluster, name) == Some(FlatAll(sessions))
  {
    hide Formatted, GeometryOf, CanAppend, GoodName, FlatAll, Search, Records, Key, DiskRead, AtRest, Named,
         Fatfs.ValidWith, Decode, WholeRun, JustEnough, F.Mount, IsPlace;
    var ok := FormatMedium(media, volumeName);
    fs := Attach(media, volumeName, buffers);
    ghost var formatted := media.sectors;
    ghost var d := FreshCanAppend(fs, volumeName, name, |FlatAll(sessions)|);
    NothingThere(fs, name, d, |FlatAll(sessions)|);
    ghost var a := Stage(fs.fat, media.sectors, d);
    ghost var d', b;
    d', b := AppendTo(fs, file, fs.g.rootFirstCluster, name, sessions, d);
    RunStillMounts(fs, formatted, volumeName, a, name, b, d', FlatAll(sessions));
    assert [] + FlatAll(sessions) == FlatAll(sessions);
  }

  lemma NothingThere(fs: Fatfs, name: seq<byte>, d: Desk, bytes: nat)
    requires CanAppend(fs, fs.g.rootFirstCluster, name, d, bytes) && fs.Valid() && fs.Purged()
    requires Search(Records(d.dirSecs), EMPTY_CACHE, Key(name)).Miss?
    ensures |fs.media.sectors| == fs.g.total && IsPlace(fs.g, fs.fat, fs.g.rootFirstCluster, d.place)
    ensures DiskRead(fs.g, fs.media.sectors, fs.g.rootFirstCluster, name) == None
  {
    hide Search, Records, Key, DiskRead, Fatfs.ValidWith, Fatfs.Purged, IsPlace, HasRoom, PlaceLbas, Hold, FileAs;
    ReadsBefore(fs, fs.g.rootFirstCluster, name, d, bytes);
  }

  /* ----------- any run, from a blank medium ----------- */

  /** The changes of a run, added up, do not ask for more than a fresh volume has. */
  ghost predicate Modest(g: Mounted, changes: seq<Change>) {
    && (forall i :: 0 <= i < |changes| ==> Proper(g, changes[i]))
    && |changes| <= 9998 && TotalBytes(changes) < WORD32
    && TotalClusters(g, changes) + (if g.fatType.Fat32? then 1 else 0) <= g.clusters
    && (g.fatType.Fat16? ==> TotalRecords(changes) <= PER_SECTOR * g.rootSectors)
  }

  lemma BlankDirectory(records: seq<Record>)
    requires Blanks(records)
    ensures Complete(records, NOTHING) && ShortUnique(records) && LiveSet(records) == {} && Distinct(records) &&
            OnlyFiles(records)
    ensures forall key :: !NamesFile(records, key)
    ensures BlankTail(records, |records|)
  {
    ZeroIsUnused();
    hide Complete, ShortUnique, Search, IsFile;
    forall key ensures !NamesFile(records, key) {
      BlankIsOrderly(records, key);
    }
    BlankIsOrderly(records, Key([]));
    hide IsLive, LiveSet;
    assert forall i :: 0 <= i < |records| ==> records[i] == Zeros(ENTRY_SIZE);
  }

  lemma FreshCount(g: Mounted, fat: seq<nat>)
    requires FreshFat(g, fat) && (g.fatType.Fat32? ==> g.rootFirstCluster == 2)
    ensures H.FreeAll(g, fat) + OfDirectory(RootPlace(g)) == g.clusters
  {
    hide FatType.IsFree, FatType.Next, FatType.MaxLink;
    var used := if g.fatType.Fat32? then 3 else 2;
    FreeCountJoin(g.fatType, fat, 0, used, g.Limit());
    NoneFree(g.fatType, fat, 0, used);
    AllFree(g.fatType, fat, used, g.Limit());
  }

  /** A volume just mounted after a format is one without files. */
  lemma FreshRuns(fs: Fatfs, volumeName: seq<byte>, changes: seq<Change>) returns (v: Vol)
    requires fs.Valid() && fs.media.Reliable() && fs.curAddress == LAST && fs.Purged()
    requires Formatted(fs.g, fs.media.sectors, volumeName) && Modest(fs.g, changes)
    ensures On(fs, fs.g.rootFirstCluster, v) && Sound(fs.g, v) && v.files == map[] && v.sectors == fs.media.sectors
    ensures Exact(fs.g, v) && |v.fat| == fs.g.Entries() && Clusters(fs.g, v) == fs.g.clusters
    ensures CanRun(fs.g, fs.g.rootFirstCluster, v, changes)
  {
    hide FreshFat, Formatted, FreeCount, IsPlace, PlaceLbas, Hold, Records, Complete, ShortUnique, IsChain,
         Fatfs.ValidWith, Reserved, Distinct, OnlyFiles, BlankTail, LiveSet, NamesFile, Proper, CanRun;
    FormattedTypes(fs.g, fs.media.sectors, volumeName);
    var g, fat := fs.g, fs.fat;
    var secs := BlankSectors(RootSize(g));
    v := Vol(fat, fs.media.sectors, RootPlace(g), secs, map[]);
    FormattedFat(g, fs.media.sectors, volumeName);
    FreshFree(g, fat);
    FreshCount(g, fat);
    RootIsBlank(g, fs.media.sectors, volumeName, fat);
    BlankRecords(RootSize(g));
    BlankDirectory(Records(secs));
    AffordsRun(g, g.rootFirstCluster, v, |Records(secs)|, changes);
  }

  /** Format a blank medium, mount it, and store and remove files in any order: going by the
      medium alone, boot sector included, its root directory is then the map from names to
      bytes that the same changes make of the empty map.  Each file has just the clusters it
      needs, and together with those of the directory and the free ones they are all. */
  method RunFromScratch(media: Media, volumeName: seq<byte>, buffers: nat, file: FlFile, changes: seq<Change>)
    returns (fs: Fatfs, results: seq<int>, ghost v': Vol)
    requires media.Reliable() && Formattable(|media.sectors|) && buffers >= 1
    requires Modest(GeometryOf(|media.sectors|, volumeName), changes)
    modifies media, file
    ensures fs.media == media && fs.g == GeometryOf(|old(media.sectors)|, volumeName)
    ensures |media.sectors| == fs.g.total > 0 && F.Mount(media.sectors) == (F.InitOk, fs.g)
    ensures results == Results(map[], changes) && v'.Bytes() == Final(map[], changes)
    ensures On(fs, fs.g.rootFirstCluster, v') && Sound(fs.g, v')
    ensures Exact(fs.g, v') && |v'.fat| == fs.g.Entries() && Clusters(fs.g, v') == fs.g.clusters
    ensures forall name :: DiskRead(fs.g, media.sectors, fs.g.rootFirstCluster, name) ==
              if Key(name) in Final(map[], changes) then Some(Final(map[], changes)[Key(name)]) else None
  {
    hide Formatted, GeometryOf, Key, DiskRead, Fatfs.ValidWith, Decode, F.Mount, On, Sound, CanRun, Modest, BootKept,
         Results, Final, Exact, Clusters;
    var ok := FormatMedium(media, volumeName);
    fs := Attach(media, volumeName, buffers);
    ghost var formatted := media.sectors;
    ghost var v := FreshRuns(fs, volumeName, changes);
    assert v.Bytes() == map[];
    results, v' := RunChanges(fs, file, fs.g.rootFirstCluster, changes, v);
    OnIs(fs, fs.g.rootFirstCluster, v');
    StillMounts(fs.g, formatted, media.sectors, volumeName);
  }
}
