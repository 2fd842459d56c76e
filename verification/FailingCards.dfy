/** Media, sector by sector, on which the library does not do what it is for. */
module FailingCards {

  import opened Words
  import opened BlockDevice
  import opened FatEntries
  import opened Geometry
  import opened ChainDefs
  import opened FatTable
  import opened FileLayout
  import opened FileSpec
  import opened DirRecords
  import opened DirInsert
  import opened DirLayout
  import opened DirSpace
  import opened DirWrite
  import opened DirSearch
  import opened DirShort
  import opened Names
  import opened FileContent
  import opened FileCreate
  import opened FileState
  import opened FileOpen
  import opened FileModes
  import opened FileSectors
  import opened FileWrite
  import opened FileRead
  import opened FileClose
  import opened Sessions
  import opened AppendSessions
  import opened DirRoom
  import opened FormatMedia
  import opened FormatMount
  import opened FreshVolume
  import F = Format

  /* ----------- a small FAT16 card ----------- */

  /** A medium of 10000 sectors with the boot sector the formatter writes, any first copy of the
      FAT and any root directory; all else is zero. */
  function CardSector(name: seq<byte>, table: seq<Sector>, root: seq<Sector>, i: nat): Sector
    requires |table| == 20 && |root| == 32
  {
    if i == 0 then F.BootSector(10000, name, false)
    else if 8 <= i < 28 then table[i - 8]
    else if 48 <= i < 80 then root[i - 48]
    else Zeros(SECTOR_SIZE)
  }

  function Card(name: seq<byte>, table: seq<Sector>, root: seq<Sector>): (sectors: seq<Sector>)
    requires |table| == 20 && |root| == 32
    ensures |sectors| == 10000 && forall i :: 0 <= i < 10000 ==> sectors[i] == CardSector(name, table, root, i)
  {
    seq<Sector>(10000, (i: nat) => CardSector(name, table, root, i))
  }

  /** How it is mounted. */
  function Layout(name: seq<byte>): Mounted {
    GeometryOf(10000, name)
  }

  lemma CardLayout(name: seq<byte>)
    ensures var g := Layout(name);
            && g.fatType == Fat16 && g.total == 10000 && g.sectorsPerCluster == 2 && g.clusters == 4960
            && g.fatBegin == 8 && g.fatSectors == 20 && g.Entries() == 5120 && g.rootFirstCluster == 0
            && g.RootBegin() == 48 && g.rootSectors == 32 && g.DataBegin() == 80
  {
    Layouts(10000, name);
    FormatThenMount(10000, name);
    ParseFormatted(10000, name, false);
    hide F.Parse, F.BootSector;
    assert F.ClusterSize(10000, false) == 2 && F.FatSectorsFor(10000, 2, false) == 20;
    Count2Is(10000, 20);
  }

  lemma CardMounts(name: seq<byte>, table: seq<Sector>, root: seq<Sector>)
    requires |table| == 20 && |root| == 32
    ensures F.Mount(Card(name, table, root)) == (F.InitOk, Layout(name))
    ensures var g := Layout(name);
            g.total == 10000 && g.fatType == Fat16 && Card(name, table, root)[g.fatBegin..g.fatBegin + g.fatSectors] ==
                table
  {
    CardLayout(name);
    FormattedMounts(Card(name, table, root), name);
    hide F.Mount, Layout, F.BootSector;
  }

  /** Put such a card in, and mount it. */
  method Insert(name: seq<byte>, table: seq<Sector>, root: seq<Sector>) returns (fs: Fatfs)
    requires |table| == 20 && |root| == 32
    ensures fresh(fs) && fresh(fs.media) && fs.media.sectors == Card(name, table, root) && fs.media.Reliable()
    ensures F.Mount(fs.media.sectors) == (F.InitOk, fs.g) && fs.g == Layout(name)
    ensures fs.Valid() && fs.curAddress == LAST && fs.Purged() && fs.fat == Decode(Fat16, table)
  {
    CardMounts(name, table, root);
    hide F.Mount, Layout, Fatfs.ValidWith, Decode, Card;
    var media := new Media(Card(name, table, root), _ => Good);
    var result, g := F.Init(media);
    fs := Start(g, media, 1);
    assert fs.view == table;
  }

  /* ----------- more entries than clusters ----------- */

  /** When all its clusters are in use the allocator offers one that is not on the card. */
  lemma SlackOffered(name: seq<byte>) returns (fat: seq<nat>)
    ensures var g := Layout(name);
            && |fat| == g.Entries() && FirstFree(g.fatType, fat, g.rootFirstCluster) == 4962 && !g.IsCluster(4962)
  {
    CardLayout(name);
    hide Layout;
    fat := seq(4962, _ => 0xFFFF) + seq(158, _ => 0);
    assert Fat16.IsFree(fat[4962]) && forall c :: 0 <= c < 4962 ==> !Fat16.IsFree(fat[c]);
  }

  lemma LayoutFat32(sectors: nat, name: seq<byte>)
    requires F.FAT16_LIMIT < sectors < WORD32
    ensures var g := GeometryOf(sectors, name); g.fatType == Fat32 && g.IsCluster(3) && 4 <= g.Entries()
  {
    FormatThenMount(sectors, name);
    ParseFormatted(sectors, name, true);
    CountFat32(sectors);
    hide F.Parse, F.BootSector, F.ClusterSize, F.FatSectorsFor, CountOf;
  }

  lemma ReservedBitsFree()
    ensures Fat32.IsFree(0xF000_0000)
  {
  }

  /** A FAT32 volume of any size, fresh but for reserved bits in one free entry: the count
      leaves that entry out. */
  lemma ReservedBitsHideFree(sectors: nat, name: seq<byte>) returns (fat: seq<nat>)
    requires F.FAT16_LIMIT < sectors < WORD32
    ensures var g := GeometryOf(sectors, name);
            && |fat| == g.Entries() && g.fatType == Fat32 && g.IsCluster(3) && fat[3] == 0xF000_0000 &&
               g.fatType.IsFree(fat[3])
            && ZeroCount(fat, |fat|) < FreeCount(g.fatType, fat, 0, |fat|)
  {
    hide GeometryOf, FatType.IsFree;
    LayoutFat32(sectors, name);
    ReservedBitsFree();
    var g := GeometryOf(sectors, name);
    fat := seq(g.Entries(), _ => 0)[0 := 0x0FFF_FFF8][1 := 0xFFFF_FFFF][2 := 0x0FFF_FFFF][3 := 0xF000_0000];
    ZeroCountIsFreeCount(Fat32, fat, |fat|);
  }

  /* ----------- a full card with one file ----------- */

  const NAME: seq<byte> := [0x61]   // "a", and its short name
  const SHORT: ShortName := [0x41, 0x20, 0x20, 0x20, 0x20, 0x20, 0x20, 0x20, 0x20, 0x20, 0x20]
  const ENTRY := Entry(NAME, SHORT, 1024, 2, false)   // 1024 bytes from cluster 2

  /** A FAT in which every cluster is the end of a chain. */
  function FullTable(): (table: seq<Sector>)
    ensures |table| == 20
  {
    seq<Sector>(20, _ => Ones())
  }

  function Ones(): (s: Sector)
    ensures forall k :: 0 <= k < SECTOR_SIZE ==> s[k] == 0xFF
  {
    seq<byte>(SECTOR_SIZE, _ => 0xFF)
  }

  lemma FullTableDecoded()
    ensures |Decode(Fat16, FullTable())| == 5120 && forall c :: 0 <= c < 5120 ==>
            Decode(Fat16, FullTable())[c] == 0xFFFF
  {
    forall c | 0 <= c < 5120 ensures Decode(Fat16, FullTable())[c] == 0xFFFF {
      OnesAre(FullTable()[Fat16.SectorOf(c)], Fat16.SlotOf(c));
    }
  }

  lemma OnesAre(sector: Sector, j: nat)
    requires j < 256 && forall k :: 0 <= k < SECTOR_SIZE ==> sector[k] == 0xFF
    ensures Fat16.Get(sector, j) == 0xFFFF
  {
  }

  /** A root directory with that entry, and blank behind it. */
  function OneFileRoot(): (root: seq<Sector>)
    ensures |root| == 32
  {
    assert LfnEntries(NAME) == 1;
    var new_ := ENTRY.New();
    BlankSectors(32)[0 := PutRecord(PutRecord(Zeros(SECTOR_SIZE), 0, new_[0]), 1, new_[1])]
  }

  lemma OneFileRecords()
    ensures ENTRY.Fits() && |ENTRY.New()| == 2
    ensures Records(OneFileRoot()) == Splice(Records(BlankSectors(32)), 0, ENTRY.New())
  {
    assert LfnEntries(NAME) == 1;
    var blank, root, new_ := BlankSectors(32), OneFileRoot(), ENTRY.New();
    var z: Sector := Zeros(SECTOR_SIZE);
    PutRecordAt(z, 0, new_[0]);
    PutRecordAt(PutRecord(z, 0, new_[0]), 1, new_[1]);
    hide Records, RecordsOf, PutRecord, NewRecords;
    RecordsFrom(root, 0);
    RecordsFrom(blank, 0);
    assert root[0..] == root && blank[0..] == blank && root[1..] == blank[1..];
    var first := RecordsOf(z);
    assert first[0 := new_[0]][1 := new_[1]] == new_ + first[2..];
  }

  lemma BlankTakes(records: seq<Record>)
    requires Blanks(records)
    ensures Takes(records, ENTRY)
  {
    BlankIsOrderly(records, Key(NAME));
    BlanksAreUnused(records);
    hide Blanks, Complete, ShortUnique, Search, Key, IsLive;
  }

  lemma OneFileInserted()
    ensures Inserted(Records(BlankSectors(32)), Records(OneFileRoot()), ENTRY, 1)
  {
    assert LfnEntries(NAME) == 1;
    hide Records, Inserted, Settled, FreeRun, NewRecords, Takes, OneFileRoot, LfnEntries, Splice;
    var blank := Records(BlankSectors(32));
    OneFileRecords();
    BlankRecords(32);
    BlankRun(blank, 0, 2);
    var end := AtSettles(blank, 2, 0);
    BlankTakes(blank);
    SpliceInserted(blank, blank, 0, end, ENTRY);
  }

  /** The file on that card: 1024 zero bytes. */
  ghost function OneFile(): Desk {
    Desk(Root16, OneFileRoot(), 1, [2], [Zeros(SECTOR_SIZE), Zeros(SECTOR_SIZE)], Zeros(1024))
  }

  lemma OneFileRecorded()
    ensures var d := OneFile();
            var records := Records(d.dirSecs);
            && d.index < |records| && Recorded(records, d.index, Name(records[d.index]), 2) &&
               Size(records[d.index]) == 1024
            && Named(d, NAME) && Complete(records, NOTHING)
  {
    hide Inserted, Recorded, Search, Complete, Key, Records, OneFileRoot, Name, Size;
    OneFileInserted();
    NewRecorded(Records(BlankSectors(32)), Records(OneFileRoot()), ENTRY, 1);
  }

  /** The full card. */
  function FullCard(name: seq<byte>): seq<Sector> {
    Card(name, FullTable(), OneFileRoot())
  }

  lemma OneFileHeld(name: seq<byte>)
    ensures var g := Layout(name);
            var fat := Decode(Fat16, FullTable());
            && Owns(g, fat, [2]) && AllClusters(g, [2]) && Hold(FullCard(name), Lbas(g, [2]), OneFile().secs)
            && Free(g, fat) == 0 && NoSlack(g, fat)
  {
    CardLayout(name);
    FullTableDecoded();
    hide Layout, Decode, FullTable, OneFileRoot;
    var g, fat := Layout(name), Decode(Fat16, FullTable());
    OneClusterLbas(g, 2);
    NoneFree(Fat16, fat, 0, g.Limit());
  }

  lemma CardRoot(name: seq<byte>, table: seq<Sector>, root: seq<Sector>)
    requires |table| == 20 && |root| == 32
    ensures var g := Layout(name);
            IsPlace(g, Decode(Fat16, table), 0, Root16) && Hold(Card(name, table, root), RootLbas(g), root)
  {
    CardLayout(name);
    hide Layout, Decode;
  }

  /** On the card the file is at rest. */
  lemma FullCardRests(fs: Fatfs, name: seq<byte>)
    requires fs.Valid() && fs.media.Reliable() && fs.curAddress == LAST && fs.Purged()
    requires fs.g == Layout(name) && fs.media.sectors == FullCard(name) && fs.fat == Decode(Fat16, FullTable())
    ensures AtRest(fs, 0, OneFile()) && Named(OneFile(), NAME) && |fs.fat| == fs.g.Entries()
    ensures Owns(fs.g, fs.fat, [2]) && Free(fs.g, fs.fat) == 0 && NoSlack(fs.g, fs.fat)
  {
    hide Fatfs.ValidWith, Fatfs.Purged, Layout, Decode, FullTable, OneFileRoot, IsPlace, Hold, Records, Recorded, Named,
         Owns, Free, NoSlack, AllClusters, Name, Size, Complete, Lbas;
    CardRoot(name, FullTable(), OneFileRoot());
    OneFileHeld(name);
    OneFileRecorded();
    assert Content(OneFile().secs, 1024) == Zeros(1024);
  }

  /** Put the full card in and open its file. */
  method OpenOnFullCard(name: seq<byte>, file: FlFile, mode: string) returns (fs: Fatfs)
    requires Mode(mode).write && (Mode(mode).read || Mode(mode).create)
    modifies file
    ensures fresh(fs) && fresh(fs.media) && fs.g == Layout(name) && F.Mount(FullCard(name)) == (F.InitOk, fs.g)
    ensures OpenedOld(fs, file, 0, OneFile()) && |fs.fat| == fs.g.Entries() && Free(fs.g, fs.fat) == 0 &&
            NoSlack(fs.g, fs.fat)
    ensures file.canWrite && file.append == Mode(mode).append
  {
    hide Fatfs.Valid, Fatfs.Purged, Layout, Decode, FullTable, OneFileRoot, AtRest, Named, Owns, Free, NoSlack,
         OpenedOld, F.Mount, Mode, Search, Records, Key, IsThere, Describes, DirOf, Card;
    fs := Insert(name, FullTable(), OneFileRoot());
    FullCardRests(fs, name);
    RestIsDescribed(fs, 0, OneFile(), NAME);
    ModeSound(mode);
    var flags := ParseMode(mode);
    ghost var d', e;
    var ok;
    ok, d', e := Open(fs, file, 0, NAME, flags, OneFile());
  }

  /* ----------- a byte there is no room for ----------- */

  /** Append one byte to the file: fl_fwrite reports it as written, and the file does not hold it. */
  method WriteWhenFull(name: seq<byte>, file: FlFile) returns (fs: Fatfs, r: int)
    modifies file
    ensures fresh(fs) && fresh(fs.media) && F.Mount(FullCard(name)) == (F.InitOk, fs.g)
    ensures r == 1 && !Holds(fs, file, Zeros(1024), 1024, [0x41])
  {
    hide OpenedOld, Fatfs.Valid, FlFile.Valid, Holds, Capacity, NoSlack, F.Mount, Layout, Card, Wrote, FullTable,
         OneFileRoot;
    ModeSound("ab");
    fs := OpenOnFullCard(name, file, "ab");
    OpenedParts(fs, file);
    NoRoom(fs.g, fs.fat, name);
    ghost var taken;
    r, taken := Write(fs, file, [0x41]);
  }

  lemma NoRoom(g: Mounted, fat: seq<nat>, name: seq<byte>)
    requires g == Layout(name) && |fat| == g.Entries() && Free(g, fat) == 0
    ensures Capacity(g, fat, [2]) == 2 < SectorsFor(1025)
  {
    CardLayout(name);
    hide Free;
    SpanIsProduct(g, 1);
  }

  lemma OpenedParts(fs: Fatfs, file: FlFile)
    requires OpenedOld(fs, file, 0, OneFile())
    ensures fs.Valid() && fs.media.Reliable() && file.Valid(fs) && !file.dataDirty && file.byteNum == 0
    ensures file.fileLength == 1024 <= SECTOR_SIZE * |file.secs| && file.chain == [2] && file.Contents() == Zeros(1024)
  {
    hide OpenAs, OneFileRoot, Content;
    OpenFrame(fs, file, 0, Root16, OneFileRoot(), 1);
    OpenedIsOpen(fs, file, 0, OneFile());
  }

  /* ----------- a byte a seek throws away ----------- */

  /** Two clean states of a file over the same sectors hold the same bytes. */
  lemma CleanAgree(sectors: seq<Sector>, lbas: seq<nat>, address: nat, buffer: Sector, secs: seq<Sector>,
                   sectors': seq<Sector>, lbas': seq<nat>, address': nat, buffer': Sector, secs': seq<Sector>, len: nat)
    requires Coupled(sectors, lbas, false, address, buffer, secs) &&
             Coupled(sectors', lbas', false, address', buffer', secs')
    requires lbas <= lbas' && forall s :: 0 <= s < |lbas| ==>
             lbas[s] < |sectors| && lbas[s] < |sectors'| && sectors'[lbas[s]] == sectors[lbas[s]]
    requires len <= SECTOR_SIZE * |secs|
    ensures len <= SECTOR_SIZE * |secs'| && Content(secs', len) == Content(secs, len)
  {
    CoupledIsHold(sectors, lbas, address, buffer, secs);
    CoupledIsHold(sectors', lbas', address', buffer', secs');
    hide Coupled, Content;
    assert secs <= secs' by {
      forall s | 0 <= s < |secs| ensures secs'[s] == secs[s] {
        assert lbas'[s] == lbas[s];
      }
    }
    ContentPrefix(secs, secs', len);
  }

  /** The file was clean at a; since then only the FAT has changed on the medium, but not its
      bytes: it is not clean at b. */
  lemma NotClean(g: Mounted, a: Snap, address: nat, buffer: Sector, b: Snap, address': nat, buffer': Sector, len: nat)
    requires Owns(g, a.fat, a.chain) && AllClusters(g, a.chain) && AllClusters(g, b.chain) && a.chain <= b.chain
    requires Coupled(a.sectors, Lbas(g, a.chain), false, address, buffer, a.secs)
    requires |b.sectors| == |a.sectors| == g.total && forall l :: 0 <= l < |a.sectors| && !g.InFat(l) ==>
             b.sectors[l] == a.sectors[l]
    requires len <= SECTOR_SIZE * |a.secs| && len <= SECTOR_SIZE * |b.secs| &&
             Content(b.secs, len) != Content(a.secs, len)
    ensures !Coupled(b.sectors, Lbas(g, b.chain), false, address', buffer', b.secs)
  {
    LbasInData(g, a.fat, a.chain);
    LbasPrefix(g, a.chain, b.chain);
    hide Lbas, Coupled, Content, IsChain, AllClusters, Volume.InFat;
    if Coupled(b.sectors, Lbas(g, b.chain), false, address', buffer', b.secs) {
      CleanAgree(a.sectors, Lbas(g, a.chain), address, buffer, a.secs, b.sectors, Lbas(g, b.chain), address', buffer',
                 b.secs, len);
    }
  }

  /** On any file, write a byte in the middle that was another, then seek: the byte is gone, for
      the handle no longer stands for what it did. */
  method WriteThenSeek(fs: Fatfs, file: FlFile, b: byte)
    requires fs.Valid() && fs.media.Reliable() && file.Valid(fs) && file.canWrite && !file.append && !file.dataDirty
    requires file.byteNum < file.fileLength && file.Contents()[file.byteNum] != b
    modifies fs`head, fs`next, fs`order, fs`slots, fs`view, fs`fat, fs`nextFree, fs.media
    modifies file`lookupIdx, file`lookupCluster, file`chain, file`dataDirty, file`secs, file`dataAddress,
             file`dataSector
    modifies file`byteNum, file`fileLength, file`lengthChanged
    ensures fs.Valid() && fs.OutsideFatUnchanged() &&
            file.fileLength == old(file.fileLength) <= SECTOR_SIZE * |file.secs|
    ensures file.Contents() == Overwrite(old(file.Contents()), old(file.byteNum), [b]) && !file.Valid(fs)
  {
    hide Fatfs.ValidWith, Decode, Capacity, NoSlack, Overwrite, Lbas, Volume.InFat, Content, Coupled, SeekTarget, Owns,
         AllClusters;
    ghost var a, len, address, buffer := file.Snapshot(fs), file.fileLength, file.dataAddress, file.dataSector;
    ghost var content, p := file.Contents(), file.byteNum;
    SectorsForMonotone(p + 1, len);
    var r;
    ghost var taken;
    r, taken := Write(fs, file, [b]);
    ghost var written := file.Snapshot(fs);
    OtherByte(content, p, b);
    r := Seek(fs, file, 0, SeekSet);
    NotClean(fs.g, a, address, buffer, file.Snapshot(fs), file.dataAddress, file.dataSector, len);
  }

  lemma OtherByte(content: seq<byte>, p: nat, b: byte)
    requires p < |content| && content[p] != b
    ensures Overwrite(content, p, [b]) != content && |Overwrite(content, p, [b])| == |content|
  {
  }

  /** On the card: open the file to read and write it, write one byte, seek back to the start. */
  method SeekLosesByte(name: seq<byte>, file: FlFile) returns (fs: Fatfs)
    modifies file
    ensures fresh(fs) && fresh(fs.media) && F.Mount(FullCard(name)) == (F.InitOk, fs.g)
    ensures file.fileLength <= SECTOR_SIZE * |file.secs| && file.Contents() == Zeros(1024)[0 := 0x41] && !file.Valid(fs)
  {
    hide OpenedOld, Fatfs.Valid, FlFile.Valid, Holds, Capacity, NoSlack, F.Mount, Layout, Card, FullTable, OneFileRoot,
         Content, Overwrite;
    UpdateMode();
    fs := OpenOnFullCard(name, file, "r+");
    OpenedParts(fs, file);
    WriteThenSeek(fs, file, 0x41);
    FirstByte();
  }

  lemma UpdateMode()
    ensures Mode("r+") == Flags(true, true, false, false)
  {
    assert "r+"[..1] == "r" && "r"[..0] == "";
  }

  lemma FirstByte()
    ensures Overwrite(Zeros(1024), 0, [0x41]) == Zeros(1024)[0 := 0x41]
  {
  }

  /* ----------- a full root directory ----------- */

  /** A fresh FAT, but for a file of one cluster, cluster 2. */
  function OneFileTable(): (table: seq<Sector>)
    ensures |table| == 20
  {
    seq<Sector>(20, _ => Zeros(SECTOR_SIZE))[0 := Fat16.Put(FirstFatSector(false), 2, 0xFFFF)]
  }

  lemma OneFileDecoded()
    ensures var fat := Decode(Fat16, OneFileTable());
            |fat| == 5120 && fat[0] == 0xFFF8 && !Fat16.IsFree(fat[1]) && fat[2] == 0xFFFF && fat[3] == 0
  {
    var s := FirstFatSector(false);
    PutGet(Fat16, s, 2, 0, 0xFFFF);
    PutGet(Fat16, s, 2, 1, 0xFFFF);
    PutGet(Fat16, s, 2, 2, 0xFFFF);
    PutGet(Fat16, s, 2, 3, 0xFFFF);
    FirstEntry();
    FirstSlots(Fat16, 1);
    FirstSlots(Fat16, 3);
    hide Load, Store, FirstFatSector;
    var table := OneFileTable();
    DecodeAt(Fat16, table, 0, 0);
    DecodeAt(Fat16, table, 0, 1);
    DecodeAt(Fat16, table, 0, 2);
    DecodeAt(Fat16, table, 0, 3);
  }

  lemma FirstEntry()
    ensures Fat16.Get(FirstFatSector(false), 0) == 0xFFF8
  {
    var z := Zeros(SECTOR_SIZE);
    PutGet(Fat16, z, 0, 0, 0xFFF8);
    PutGet(Fat16, Fat16.Put(z, 0, 0xFFF8), 1, 0, 0xFFFF);
    hide Load, Store;
  }

  /** A root directory without a record to spare: all 512 read AAAAAAAA.AAA. */
  function BusyRoot(): (root: seq<Sector>)
    ensures |root| == 32
  {
    seq<Sector>(32, _ => Letters())
  }

  function Letters(): (s: Sector)
    ensures forall k :: 0 <= k < SECTOR_SIZE ==> s[k] == 0x41
  {
    seq<byte>(SECTOR_SIZE, _ => 0x41)
  }

  lemma LettersLive(r: Record)
    requires forall k :: 0 <= k < ENTRY_SIZE ==> r[k] == 0x41
    ensures IsLive(r) && !IsLfnText(r) && !IsUnused(r)
  {
  }

  lemma {:induction false} LettersRecords(secs: seq<Sector>)
    requires forall i :: 0 <= i < |secs| ==> secs[i] == Letters()
    ensures forall i :: 0 <= i < |Records(secs)| ==> forall k :: 0 <= k < ENTRY_SIZE ==> Records(secs)[i][k] == 0x41
  {
    if secs != [] {
      LettersRecords(secs[..|secs| - 1]);
    }
  }

  lemma {:induction false} AllBusy(records: seq<Record>, i: nat, start: nat, need: nat)
    requires i <= |records| && forall k :: 0 <= k < |records| ==> !IsLfnText(records[k]) && !IsUnused(records[k])
    ensures FreeRun(records, i, 0, start, need) == Full(|records|)
    decreases |records| - i
  {
    hide IsLfnText, IsUnused;
    if i < |records| {
      AllBusy(records, i + 1, start, need);
    }
  }

  lemma BusyRootFull()
    ensures FreeRun(Records(BusyRoot()), 0, 0, 0, 1) == Full(512)
  {
    var records := Records(BusyRoot());
    LettersRecords(BusyRoot());
    hide Records, BusyRoot, IsLive, IsLfnText, IsUnused;
    forall i | 0 <= i < |records| ensures !IsLfnText(records[i]) && !IsUnused(records[i]) {
      LettersLive(records[i]);
    }
    AllBusy(records, 0, 0, 1);
  }

  /** The only chain at cluster 2 is that one cluster. */
  lemma OneFromTwo(g: Mounted, fat: seq<nat>, chain: seq<nat>)
    requires FromTwo(g, fat, chain) && g.fatType.Next(fat[2]) == LAST && g.Limit() <= LAST
    ensures chain == [2]
  {
    SecondLink(g.fatType, fat, g.Limit(), chain);
    hide IsChain, FatType.Next;
  }

  lemma SecondLink(t: FatType, fat: seq<nat>, limit: nat, chain: seq<nat>)
    requires IsChain(t, fat, limit, chain)
    ensures |chain| > 0 && (|chain| > 1 ==> chain[0] < |fat| && t.Next(fat[chain[0]]) == chain[1] < limit)
  {
    hide FatType.Next;
  }

  lemma LinkZero(t: FatType, fat: seq<nat>, c: nat)
    requires 2 <= c < |fat| && c < t.MaxLink()
    ensures |LinkLast(t, fat, 0, c)| == |fat| && LinkLast(t, fat, 0, c)[0] == c
  {
  }

  lemma OneFileMayGrow(name: seq<byte>)
    ensures var g, fat := Layout(name), Decode(Fat16, OneFileTable());
            && |fat| == g.Entries() && MayGrow(g, fat, Root16) && 0 < Free(g, fat) && !g.fatType.IsFree(fat[2]) &&
               g.fatType.Next(fat[2]) == LAST
  {
    CardLayout(name);
    OneFileDecoded();
    hide Layout, Decode, OneFileTable;
    var g, fat := Layout(name), Decode(Fat16, OneFileTable());
    FreeCountPositive(Fat16, fat, 0, g.Limit());
    assert FirstFree(Fat16, fat, 0) <= 3;
    assert FromTwo(g, fat, [2]);
  }

  /** Look for a free record: there is none, but the call succeeds, and has overwritten entry 0
      of the FAT. */
  method RootDamage(name: seq<byte>) returns (fs: Fatfs, ok: bool)
    ensures fresh(fs) && fresh(fs.media) && F.Mount(Card(name, OneFileTable(), BusyRoot())) == (F.InitOk, fs.g)
    ensures Decode(Fat16, OneFileTable())[0] == 0xFFF8
    ensures ok && |fs.fat| > 0 && fs.g.IsCluster(fs.fat[0])
  {
    hide Fatfs.ValidWith, Layout, Decode, F.Mount, Card, OneFileTable, BusyRoot, IsPlace, Hold, MayGrow, Free, Records,
         FreeRun, Fatfs.Purged;
    fs := Insert(name, OneFileTable(), BusyRoot());
    OneFileDecoded();
    OneFileMayGrow(name);
    BusyRootFull();
    CardRoot(name, OneFileTable(), BusyRoot());
    ghost var fat := fs.fat;
    var sector, offset;
    ghost var place, secs, end;
    ok, sector, offset, place, secs, end := FindFreeDirOffset(fs, 0, 1, Root16, BusyRoot());
    AstrayEntry(fs.g, fat, fs.fat);
  }

  lemma AstrayEntry(g: Mounted, fat: seq<nat>, fat': seq<nat>)
    requires |fat| == g.Entries() && 2 < |fat| && RootOutcome(g, fat, true, fat') && g.fatType.Next(fat[2]) == LAST
    ensures |fat'| > 0 && g.IsCluster(fat'[0])
  {
    hide Free, FatType.Next, FatType.IsFree, LinkLast;
    var c :| g.IsCluster(c) && Astray(g, fat, fat', c);
    var chain :| FromTwo(g, fat, chain) && fat' ==
        LinkLast(g.fatType, fat, if |chain| == 1 then 0 else chain[|chain| - 1], c);
    OneFromTwo(g, fat, chain);
    assert fat' == LinkLast(g.fatType, fat, 0, c);
    LinkZero(g.fatType, fat, c);
  }
}
