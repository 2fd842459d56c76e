/** Creating a file: a cluster, a short name nobody has, and a directory entry. */
module FileCreate {

  import opened Words
  import opened FatEntries
  import opened Geometry
  import opened ChainDefs
  import opened Chains
  import opened FatTable
  import opened FatSpace
  import opened FileLayout
  import opened FileSpec
  import opened FileContent
  import opened FileSectors
  import opened DirRecords
  import opened Names
  import opened DirSearch
  import opened DirInsert
  import opened DirShort
  import opened DirLayout
  import opened DirAccess
  import opened DirUpdate
  import opened DirSpace
  import opened DirRoom
  import opened DirWrite
  import opened ShortNames
  import opened FileState
  import opened FileOpen

  /** The loop that looks for an unused short name: first without a tail, then with tails from
      1 on, until there are too many. */
  method ChooseShortName(fs: Fatfs, cluster: nat, filename: seq<byte>, ghost place: Place, ghost dirSecs: seq<Sector>)
    returns (tailNum: nat, shortName: ShortName)
    requires Dir(fs, cluster, place, dirSecs)
    requires filename != [] && filename[0] != DOT
    modifies fs`head, fs`next, fs`order, fs`slots, fs`curAddress, fs`curSector, fs.media
    ensures Dir(fs, cluster, place, dirSecs) && fs.OutsideFatUnchanged()
    ensures fs.curAddress == old(fs.curAddress) || fs.curAddress in PlaceLbas(fs.g, place)
    ensures tailNum <= MAX_TAIL
    ensures forall k :: 0 <= k < tailNum ==> Used(Records(dirSecs), Candidate(filename, k))
    ensures tailNum < MAX_TAIL ==> shortName == Candidate(filename, tailNum) && !Used(Records(dirSecs), shortName)
  {
    hide Dir, PlaceLbas, Records, FirstShort, SfnOf, Tailed, Fatfs.Valid, Volume.InFat;
    tailNum, shortName := 0, Padded([], 11);
    var exists_ := true;
    while exists_ && tailNum < MAX_TAIL
      invariant tailNum <= MAX_TAIL
      invariant Dir(fs, cluster, place, dirSecs) && fs.OutsideFatUnchanged()
      invariant fs.curAddress == old(fs.curAddress) || fs.curAddress in PlaceLbas(fs.g, place)
      invariant forall k :: 0 <= k < tailNum ==> Used(Records(dirSecs), Candidate(filename, k))
      invariant !exists_ ==>
                tailNum < MAX_TAIL && shortName == Candidate(filename, tailNum) && !Used(Records(dirSecs), shortName)
      decreases MAX_TAIL - tailNum, exists_
    {
      var made, shortFilename := CreateSfn(shortName, filename);
      if tailNum != 0 {
        made, shortName := GenerateTail(shortName, shortFilename, tailNum);
      } else {
        shortName := shortFilename;
      }
      exists_ := SfnExists(fs, cluster, shortName, place, dirSecs);
      if exists_ {
        tailNum := tailNum + 1;
      }
    }
  }

  /** A fresh cluster, taken as a chain of its own. */
  lemma NewChain(g: Mounted, fat: seq<nat>) returns (c: nat, fat': seq<nat>)
    requires |fat| == g.Entries() && Reserved(g.fatType, fat, g.rootFirstCluster) && 0 < Free(g, fat)
    ensures c == FirstFree(g.fatType, fat, g.rootFirstCluster) < |fat| && g.IsCluster(c)
    ensures fat' == fat[c := LAST % g.fatType.Range()]
    ensures Grown(g.fatType, g.Limit(), fat, [], fat', [c])
    ensures Owns(g, fat', [c]) && Free(g, fat') == Free(g, fat) - 1
  {
    FreeCountPositive(g.fatType, fat, g.rootFirstCluster, g.Limit());
    c := FirstFree(g.fatType, fat, g.rootFirstCluster);
    fat' := fat[c := LAST % g.fatType.Range()];
    FreeCountUpdate(g.fatType, fat, g.rootFirstCluster, g.Limit(), c, LAST % g.fatType.Range());
    assert g.fatType.Next(fat'[c]) == LAST;
    hide FreeCount, FirstFree;
  }

  /** Nothing but FAT and FSInfo changed on the medium, and free clusters of the FAT. */
  lemma AllocationKeepsDir(g: Mounted, fat: seq<nat>, sectors: seq<Sector>, fat': seq<nat>, sectors': seq<Sector>,
                           c: nat,
                           address: nat, buffer: Sector, cluster: nat, place: Place, dirSecs: seq<Sector>)
    requires DirAs(g, fat, sectors, address, buffer, cluster, place, dirSecs)
    requires Grown(g.fatType, g.Limit(), fat, [], fat', [c])
    requires |sectors'| == |sectors| && forall l :: 0 <= l < |sectors| && !g.InMeta(l) ==> sectors'[l] == sectors[l]
    ensures DirAs(g, fat', sectors', address, buffer, cluster, place, dirSecs) && Apart(place, [c])
  {
    PlaceLbasSound(g, fat, cluster, place);
    if place.InChain? {
      GrownKeepsOther(g.fatType, g.Limit(), fat, [], fat', [c], place.chain);
    }
    hide PlaceLbas, IsChain, AllClusters;
  }

  /** A name that survives being stored, and whose short form does not look like a deleted
      record's. */
  predicate GoodName(name: seq<byte>) {
    && 1 <= |name| <= LFN_ROWS * LFN_CHARS && 0x00 !in name && 0xFF !in name
    && name[0] != DOT && SfnOf(name)[0] != DELETED
  }

  /** The name is new to a well-formed directory, which has room for it and short names to spare. */
  ghost predicate CanEnter(g: Mounted, fat: seq<nat>, place: Place, records: seq<Record>, name: seq<byte>)
    requires |fat| == g.Entries()
  {
    && GoodName(name)
    && Complete(records, NOTHING) && ShortUnique(records) && |LiveSet(records)| < 9998
    && (FreeRun(records, 0, 0, 0, LfnEntries(name) + 1).Full? ==>
          CanGrow(g, fat, place) && LfnEntries(name) + 1 <= PER_SECTOR * g.sectorsPerCluster)
    && Search(records, EMPTY_CACHE, Key(name)).Miss?
  }

  /** The same before a cluster has been taken for the file: if the directory is full, it can
      grow and there is a second free cluster. */
  ghost predicate CanCreate(g: Mounted, fat: seq<nat>, place: Place, records: seq<Record>, name: seq<byte>)
    requires |fat| == g.Entries()
  {
    && GoodName(name)
    && Complete(records, NOTHING) && ShortUnique(records) && |LiveSet(records)| < 9998
    && Reserved(g.fatType, fat, g.rootFirstCluster)
    && (if FreeRun(records, 0, 0, 0, LfnEntries(name) + 1).Full? then
          place.InChain? && 2 <= Free(g, fat) && LfnEntries(name) + 1 <= PER_SECTOR * g.sectorsPerCluster
        else 1 <= Free(g, fat))
  }

  /** The short name the search settles on can be stored, and no live record has it. */
  lemma CandidateStorable(records: seq<Record>, name: seq<byte>, tailNum: nat)
    requires GoodName(name) && |LiveSet(records)| < 9998 && tailNum <= MAX_TAIL
    requires forall k :: 0 <= k < tailNum ==> Used(records, Candidate(name, k))
    ensures tailNum < MAX_TAIL
    ensures Storable(name, Candidate(name, tailNum))
  {
    var n := SomeTailFree(records, name);
    CandidateText(name, tailNum);
    assert SfnOf(name)[0] in SfnOf(name);
    hide SfnOf, Candidate, Used;
  }

  lemma ReservedFrom(g: Mounted, fat: seq<nat>)
    requires Reserved(g.fatType, fat, g.rootFirstCluster)
    ensures g.rootFirstCluster <= |fat|
  {
  }

  /** A name that can be entered finds room, and not by growing the FAT16 root. */
  lemma CanEnterFindsRoom(g: Mounted, fat: seq<nat>, place: Place, records: seq<Record>, name: seq<byte>)
    requires |fat| == g.Entries() && CanEnter(g, fat, place, records, name)
    ensures var need := LfnEntries(name) + 1;
            && (FreeRun(records, 0, 0, 0, need).Full? ==>
                MayGrow(g, fat, place) && need <= PER_SECTOR * g.sectorsPerCluster)
            && !RootIsFull(place, records, need) && FindsRoom(g, fat, place, records, need)
  {
    hide FreeRun, LfnEntries, Free, GoodName, Complete, ShortUnique, Search, Key, LiveSet, Reserved;
  }

  /** The first step: allocate a cluster for the file. */
  method TakeCluster(fs: Fatfs, ghost cluster: nat, ghost place: Place, ghost dirSecs: seq<Sector>)
    returns (ok: bool, c: nat)
    requires DirOf(fs, cluster, place, dirSecs)
    requires |fs.fat| == fs.g.Entries() && Reserved(fs.g.fatType, fs.fat, fs.g.rootFirstCluster) &&
             0 < Free(fs.g, fs.fat)
    modifies fs`head, fs`next, fs`order, fs`slots, fs`view, fs`fat, fs`nextFree, fs.media
    ensures ok && DirOf(fs, cluster, place, dirSecs) && fs.OutsideMetaUnchanged()
    ensures c < |old(fs.fat)| && fs.fat == old(fs.fat)[c := LAST % fs.g.fatType.Range()]
    ensures Grown(fs.g.fatType, fs.g.Limit(), old(fs.fat), [], fs.fat, [c])
    ensures Owns(fs.g, fs.fat, [c]) && Free(fs.g, fs.fat) == old(Free(fs.g, fs.fat)) - 1
    ensures fs.g.IsCluster(c) && Apart(place, [c])
  {
    hide Fatfs.ValidWith, Decode, DirAs, Apart, FreeCount, Reserved, FirstFree, IsChain, Grown, Allocated;
    ReservedFrom(fs.g, fs.fat);
    ghost var fat, before := fs.fat, fs.media.sectors;
    ghost var c', fat' := NewChain(fs.g, fs.fat);
    ok, c := AllocateFreeSpace(fs, true, 0, 1);
    OneByteIsOneCluster(fs.g, fat, 0, ok, c, fs.fat);
    AllocationKeepsDir(fs.g, fat, before, fs.fat, fs.media.sectors, c, fs.curAddress, fs.curSector, cluster, place,
                       dirSecs);
  }

  /** A chain apart from the directory is not touched when the directory grows. */
  lemma PlaceGrownKeepsChain(g: Mounted, fat: seq<nat>, cluster: nat, place: Place, fat': seq<nat>, place': Place,
                             chain: seq<nat>)
    requires PlaceGrown(g, fat, place, fat', place') && IsPlace(g, fat, cluster, place)
    requires Owns(g, fat, chain) && Apart(place, chain)
    ensures Owns(g, fat', chain) && Apart(place', chain)
  {
    if fat' != fat || place' != place {
      hide Free;
      DisjointSwap(chain, place.chain);
      GrownKeepsOther(g.fatType, g.Limit(), fat, place.chain, fat', place'.chain, chain);
      DisjointSwap(chain, place'.chain);
    }
  }

  lemma DisjointSwap(a: seq<nat>, b: seq<nat>)
    ensures Disjoint(a, b) <==> Disjoint(b, a)
  {
  }

  lemma DirOfParts(fs: Fatfs, cluster: nat, place: Place, dirSecs: seq<Sector>)
    requires DirOf(fs, cluster, place, dirSecs)
    ensures Dir(fs, cluster, place, dirSecs) && IsPlace(fs.g, fs.fat, cluster, place) && |fs.fat| == fs.g.Entries()
    ensures fs.curAddress == LAST || fs.curAddress in PlaceLbas(fs.g, place)
  {
    DirOfIsDir(fs, cluster, place, dirSecs);
  }

  /** The directory's sectors before it grew are among those after. */
  lemma PlaceGrownLbas(g: Mounted, fat: seq<nat>, cluster: nat, place: Place, fat': seq<nat>, place': Place)
    requires PlaceGrown(g, fat, place, fat', place') && IsPlace(g, fat, cluster, place) &&
             IsPlace(g, fat', cluster, place')
    ensures PlaceLbas(g, place) <= PlaceLbas(g, place')
  {
    if place' != place {
      LbasPrefix(g, place.chain, place'.chain);
    }
  }

  /** Taking the cluster leaves what adding the entry needs. */
  lemma CreateEnters(g: Mounted, fat: seq<nat>, cluster: nat, place: Place, records: seq<Record>, name: seq<byte>,
                     fat': seq<nat>, c: nat)
    requires |fat| == |fat'| == g.Entries() && CanCreate(g, fat, place, records, name)
    requires Owns(g, fat', [c]) && Free(g, fat') == Free(g, fat) - 1
    requires IsPlace(g, fat', cluster, place)
    requires Search(records, EMPTY_CACHE, Key(name)).Miss?
    ensures CanEnter(g, fat', place, records, name)
  {
    hide GoodName, Complete, ShortUnique, Free, FreeRun, Search, IsChain;
  }

  /** A good name and an unused short name for it can be entered. */
  lemma EntersAs(g: Mounted, fat: seq<nat>, place: Place, records: seq<Record>, name: seq<byte>, shortName: ShortName,
                 c: word32)
    requires |fat| == g.Entries() && CanEnter(g, fat, place, records, name)
    requires Storable(name, shortName) && !Used(records, shortName)
    ensures Takes(records, Entry(name, shortName, 0, c, false)) && Entry(name, shortName, 0, c, false).Fits()
    ensures |Entry(name, shortName, 0, c, false).New()| == LfnEntries(name) + 1 && name != [] && name[0] != DOT
  {
    hide Complete, ShortUnique, Search, Key, LiveSet, FreeRun, CanGrow, FirstShort, SfnOf;
  }

  /** Choose a short name that can be stored. */
  method ChooseStorable(fs: Fatfs, cluster: nat, name: seq<byte>, ghost c: word32, ghost place: Place,
                        ghost dirSecs: seq<Sector>) returns (shortName: ShortName)
    requires Dir(fs, cluster, place, dirSecs) && |fs.fat| == fs.g.Entries()
    requires CanEnter(fs.g, fs.fat, place, Records(dirSecs), name)
    modifies fs`head, fs`next, fs`order, fs`slots, fs`curAddress, fs`curSector, fs.media
    ensures Dir(fs, cluster, place, dirSecs) && fs.OutsideFatUnchanged()
    ensures fs.curAddress == old(fs.curAddress) || fs.curAddress in PlaceLbas(fs.g, place)
    ensures var e := Entry(name, shortName, 0, c, false);
            Takes(Records(dirSecs), e) && e.Fits() && |e.New()| == LfnEntries(name) + 1 && e.filename != []
    ensures shortName[0] != BLANK && shortName[0] != DELETED
  {
    hide Dir, PlaceLbas, Records, Complete, ShortUnique, Used, Candidate, SfnOf, FreeRun, CanGrow, Key, Search, LiveSet,
         Takes, Entry.New, Entry.Fits, LfnEntries, Volume.InFat;
    var tailNum;
    tailNum, shortName := ChooseShortName(fs, cluster, name, place, dirSecs);
    CandidateStorable(Records(dirSecs), name, tailNum);
    EntersAs(fs.g, fs.fat, place, Records(dirSecs), name, shortName, c);
  }

  /** The second step: find a short name and add the entry. */
  method EnterName(fs: Fatfs, cluster: nat, name: seq<byte>, c: nat, ghost place: Place, ghost dirSecs: seq<Sector>)
    returns (ok: bool, shortName: ShortName, ghost place': Place, ghost dirSecs': seq<Sector>, ghost index: nat)
    requires DirOf(fs, cluster, place, dirSecs) && |fs.fat| == fs.g.Entries() && c < WORD32
    requires CanEnter(fs.g, fs.fat, place, Records(dirSecs), name)
    modifies fs`head, fs`next, fs`order, fs`slots, fs`view, fs`fat, fs`curAddress, fs`curSector, fs.media
    ensures ok && DirOf(fs, cluster, place', dirSecs')
    ensures PlaceGrown(fs.g, old(fs.fat), place, fs.fat, place')
    ensures FreeRun(Records(dirSecs), 0, 0, 0, LfnEntries(name) + 1).At? ==> place' == place
    ensures Within(fs.g, old(fs.media.sectors), fs.media.sectors, PlaceLbas(fs.g, place'))
    ensures Inserted(Records(dirSecs), Records(dirSecs'), Entry(name, shortName, 0, c, false), index)
    ensures shortName[0] != BLANK && shortName[0] != DELETED
  {
    hide Dir, DirOf, PlaceLbas, Records, FreeRun, CanEnter, MayGrow, RootIsFull, FindsRoom, PlaceGrown, Within,
         Inserted, Takes, IsPlace, Volume.InFat, Entry.New, Entry.Fits, LfnEntries, RootEntryOutcome;
    DirOfParts(fs, cluster, place, dirSecs);
    CanEnterFindsRoom(fs.g, fs.fat, place, Records(dirSecs), name);
    ghost var fat, before := fs.fat, fs.media.sectors;
    shortName := ChooseStorable(fs, cluster, name, c, place, dirSecs);
    ghost var middle := fs.media.sectors;
    FatIsWithin(fs.g, before, middle, PlaceLbas(fs.g, place));
    ok, place', dirSecs', index := AddFileEntry(fs, cluster, Entry(name, shortName, 0, c, false), place, dirSecs);
    FinishEntry(fs, fat, cluster, place, place', dirSecs', before, middle);
  }

  lemma FinishEntry(fs: Fatfs, fat: seq<nat>, cluster: nat, place: Place, place': Place, dirSecs': seq<Sector>,
                    before: seq<Sector>, middle: seq<Sector>)
    requires Dir(fs, cluster, place', dirSecs') && IsPlace(fs.g, fat, cluster, place)
    requires PlaceGrown(fs.g, fat, place, fs.fat, place')
    requires Within(fs.g, before, middle, PlaceLbas(fs.g, place))
    requires Within(fs.g, middle, fs.media.sectors, PlaceLbas(fs.g, place'))
    requires fs.curAddress == LAST || fs.curAddress in PlaceLbas(fs.g, place) ||
             fs.curAddress in PlaceLbas(fs.g, place')
    ensures DirOf(fs, cluster, place', dirSecs')
    ensures Within(fs.g, before, fs.media.sectors, PlaceLbas(fs.g, place'))
  {
    hide Fatfs.ValidWith, Decode, PlaceLbas, PlaceGrown, Within;
    PlaceGrownLbas(fs.g, fat, cluster, place, fs.fat, place');
    hide IsPlace;
    assert forall l :: l in PlaceLbas(fs.g, place) ==> l in PlaceLbas(fs.g, place');
    WithinTransitive(fs.g, before, middle, fs.media.sectors, PlaceLbas(fs.g, place), PlaceLbas(fs.g, place'));
    DirIsDirOf(fs, cluster, place', dirSecs');
  }

  lemma SfnIsFile(shortName: ShortName, size: word32, start: word32)
    requires shortName[0] != BLANK && shortName[0] != DELETED
    ensures var r := SfnRecord(shortName, size, start, false);
            IsLive(r) && IsFile(r) && Name(r) == shortName && FirstCluster(r) == start && Size(r) == size
  {
    SfnRecordFields(shortName, size, start, false);
    SfnIsLive(shortName, size, start, false);
    hide SfnRecord, IsLive, Load;
  }

  lemma NewRecorded(records: seq<Record>, records': seq<Record>, e: Entry, index: nat)
    requires Inserted(records, records', e, index)
    requires !e.dir && e.shortName[0] != BLANK && e.shortName[0] != DELETED
    ensures index < |records'| && records'[index] == SfnRecord(e.shortName, e.size, e.startCluster, false)
    ensures Recorded(records', index, Name(records'[index]), e.startCluster) && Size(records'[index]) == e.size
    ensures Search(records', EMPTY_CACHE, Key(e.filename)) == Hit(index) && Complete(records', NOTHING)
  {
    hide SfnRecord, Search, ShortUnique, IsLive, IsFile, Complete, Placed, LiveKept, Load, Key, Name, FirstCluster,
         Size;
    SfnIsFile(e.shortName, e.size, e.startCluster);
  }

  lemma OnMediumHolds(g: Mounted, fat: seq<nat>, sectors: seq<Sector>, chain: seq<nat>)
    requires |sectors| == g.total && IsChain(g.fatType, fat, g.Limit(), chain)
    ensures AllClusters(g, chain) && (forall s :: 0 <= s < |Lbas(g, chain)| ==> Lbas(g, chain)[s] < |sectors|)
    ensures Hold(sectors, Lbas(g, chain), OnMedium(sectors, Lbas(g, chain)))
  {
    LbasInData(g, fat, chain);
    hide Lbas, IsChain;
  }

  /** A file just entered is an empty one at rest, but for the FAT on the medium. */
  lemma NewFileAs(g: Mounted, fat: seq<nat>, sectors: seq<Sector>, cluster: nat, place: Place, dirSecs: seq<Sector>,
                  records: seq<Record>,
                  e: Entry, index: nat) returns (d: Desk)
    requires |sectors| == g.total && Owns(g, fat, [e.startCluster]) && Apart(place, [e.startCluster])
    requires e.size == 0 && !e.dir && e.shortName[0] != BLANK && e.shortName[0] != DELETED
    requires Inserted(records, Records(dirSecs), e, index)
    ensures d.place == place && d.dirSecs == dirSecs && d.index == index && d.chain == [e.startCluster] &&
            d.content == []
    ensures FileAs(g, fat, sectors, d) && Named(d, e.filename)
    ensures Records(dirSecs)[index] == SfnRecord(e.shortName, 0, e.startCluster, false)
  {
    hide Lbas, IsChain, AllClusters, Reserved, Records, SfnRecord, Apart, Search, Recorded, Hold, OnMedium, Inserted,
         Key;
    var chain := [e.startCluster];
    OnMediumHolds(g, fat, sectors, chain);
    var secs := OnMedium(sectors, Lbas(g, chain));
    d := Desk(place, dirSecs, index, chain, secs, []);
    NewRecorded(records, Records(dirSecs), e, index);
    assert Content(secs, 0) == [];
  }

  /** What creating a file does to the FAT: a cluster for the file, perhaps one for the directory. */
  ghost predicate CreatedIn(g: Mounted, fat: seq<nat>, place: Place, records: seq<Record>, name: seq<byte>,
                            fat': seq<nat>, d: Desk) {
    && |d.chain| == 1 && d.chain[0] < |fat| == g.Entries()
    && (FreeRun(records, 0, 0, 0, LfnEntries(name) + 1).At? ==> d.place == place)
    && Free(g, fat[d.chain[0] := LAST % g.fatType.Range()]) == Free(g, fat) - 1
    && Grown(g.fatType, g.Limit(), fat, [], fat[d.chain[0] := LAST % g.fatType.Range()], d.chain)
    && PlaceGrown(g, fat[d.chain[0] := LAST % g.fatType.Range()], place, fat', d.place)
  }

  lemma CanCreateParts(g: Mounted, fat: seq<nat>, place: Place, records: seq<Record>, name: seq<byte>)
    requires |fat| == g.Entries() && CanCreate(g, fat, place, records, name)
    ensures Reserved(g.fatType, fat, g.rootFirstCluster) && 0 < Free(g, fat)
  {
  }

  lemma OutsideMetaIsWithin(g: Mounted, before: seq<Sector>, after: seq<Sector>, lbas: seq<nat>)
    requires |after| == |before| && forall l :: 0 <= l < |before| && !g.InMeta(l) ==> after[l] == before[l]
    ensures Within(g, before, after, lbas)
  {
  }

  /** _create_file for a name the directory does not have, up to the entry. */
  method EnterNew(fs: Fatfs, cluster: nat, name: seq<byte>, ghost place: Place, ghost dirSecs: seq<Sector>)
    returns (entry: Record, ghost d: Desk, ghost e: Entry)
    requires DirOf(fs, cluster, place, dirSecs) && |fs.fat| == fs.g.Entries()
    requires CanCreate(fs.g, fs.fat, place, Records(dirSecs), name)
    requires Search(Records(dirSecs), EMPTY_CACHE, Key(name)).Miss?
    modifies fs`head, fs`next, fs`order, fs`slots, fs`view, fs`fat, fs`nextFree, fs`curAddress, fs`curSector, fs.media
    ensures DirOf(fs, cluster, d.place, d.dirSecs) && FileAs(fs.g, fs.fat, fs.media.sectors, d)
    ensures d.index < |Records(d.dirSecs)| && entry == Records(d.dirSecs)[d.index]
    ensures d.content == [] && Named(d, name)
    ensures e.filename == name && Inserted(Records(dirSecs), Records(d.dirSecs), e, d.index)
    ensures CreatedIn(fs.g, old(fs.fat), place, Records(dirSecs), name, fs.fat, d)
    ensures Within(fs.g, old(fs.media.sectors), fs.media.sectors, PlaceLbas(fs.g, d.place))
  {
    hide DirOf, PlaceLbas, Records, Search, Key, CanCreate, CanEnter, PlaceGrown, Within, Inserted, FileAs, Apart, Owns,
         Grown, Named, SfnRecord, Volume.InMeta, Volume.InFat, IsPlace, Free, Reserved;
    ghost var fat, before := fs.fat, fs.media.sectors;
    CanCreateParts(fs.g, fat, place, Records(dirSecs), name);
    var ok, c := TakeCluster(fs, cluster, place, dirSecs);
    ghost var fat1, middle := fs.fat, fs.media.sectors;
    DirOfParts(fs, cluster, place, dirSecs);
    CreateEnters(fs.g, fat, cluster, place, Records(dirSecs), name, fat1, c);
    var shortName;
    ghost var place', dirSecs', index;
    ok, shortName, place', dirSecs', index := EnterName(fs, cluster, name, c, place, dirSecs);
    OutsideMetaIsWithin(fs.g, before, middle, PlaceLbas(fs.g, place'));
    WithinTransitive(fs.g, before, middle, fs.media.sectors, PlaceLbas(fs.g, place'), PlaceLbas(fs.g, place'));
    PlaceGrownKeepsChain(fs.g, fat1, cluster, place, fs.fat, place', [c]);
    e := Entry(name, shortName, 0, c, false);
    DirOfTotal(fs, cluster, place', dirSecs');
    d := NewFileAs(fs.g, fs.fat, fs.media.sectors, cluster, place', dirSecs', Records(dirSecs), e, index);
    InsertedIndex(Records(dirSecs), Records(dirSecs'), e, index);
    entry := SfnRecord(shortName, 0, c, false);
  }

  lemma InsertedIndex(records: seq<Record>, records': seq<Record>, e: Entry, index: nat)
    requires Inserted(records, records', e, index)
    ensures index < |records'|
  {
  }

  lemma DirOfTotal(fs: Fatfs, cluster: nat, place: Place, dirSecs: seq<Sector>)
    requires DirOf(fs, cluster, place, dirSecs)
    ensures |fs.media.sectors| == fs.g.total
  {
  }

  /** _create_file for a name the directory does not have. */
  method CreateNew(fs: Fatfs, file: FlFile, cluster: nat, name: seq<byte>, ghost place: Place,
                   ghost dirSecs: seq<Sector>)
    returns (ghost d: Desk, ghost e: Entry)
    requires DirOf(fs, cluster, place, dirSecs) && |fs.fat| == fs.g.Entries()
    requires CanCreate(fs.g, fs.fat, place, Records(dirSecs), name)
    requires Search(Records(dirSecs), EMPTY_CACHE, Key(name)).Miss?
    modifies fs`head, fs`next, fs`order, fs`slots, fs`view, fs`fat, fs`nextFree, fs`curAddress, fs`curSector, fs.media,
             file
    ensures OpenAs(fs, file, cluster, d.place, d.dirSecs, d.index) && Rewound(file)
    ensures file.chain == d.chain && file.fileLength == 0 && d.content == []
    ensures Named(d, name) && e.filename == name && Inserted(Records(dirSecs), Records(d.dirSecs), e, d.index)
    ensures CreatedIn(fs.g, old(fs.fat), place, Records(dirSecs), name, fs.fat, d)
    ensures Within(fs.g, old(fs.media.sectors), fs.media.sectors, PlaceLbas(fs.g, d.place))
  {
    hide DirOf, PlaceLbas, Records, Search, Key, CanCreate, Within, Inserted, OpenAs, FileAs, Named, Rewound, CreatedIn,
         Content, Fatfs.Valid, Volume.InFat;
    ghost var before := fs.media.sectors;
    var entry;
    entry, d, e := EnterNew(fs, cluster, name, place, dirSecs);
    ghost var middle := fs.media.sectors;
    OpenFound(fs, file, cluster, entry, d);
    FatIsWithin(fs.g, middle, fs.media.sectors, PlaceLbas(fs.g, d.place));
    WithinTransitive(fs.g, before, middle, fs.media.sectors, PlaceLbas(fs.g, d.place), PlaceLbas(fs.g, d.place));
  }

  /** _create_file, once the directory is known: it fails if the name is there. */
  method CreateFile(fs: Fatfs, file: FlFile, cluster: nat, name: seq<byte>, ghost place: Place,
                    ghost dirSecs: seq<Sector>)
    returns (ok: bool, ghost d: Desk, ghost e: Entry)
    requires DirOf(fs, cluster, place, dirSecs) && |fs.fat| == fs.g.Entries()
    requires Search(Records(dirSecs), EMPTY_CACHE, Key(name)).Miss? ==>
             CanCreate(fs.g, fs.fat, place, Records(dirSecs), name)
    modifies fs`head, fs`next, fs`order, fs`slots, fs`view, fs`fat, fs`nextFree, fs`curAddress, fs`curSector, fs.media,
             file
    ensures ok <==> Search(Records(dirSecs), EMPTY_CACHE, Key(name)).Miss?
    ensures ok ==> OpenAs(fs, file, cluster, d.place, d.dirSecs, d.index) && Rewound(file)
    ensures ok ==> file.chain == d.chain && file.fileLength == 0 && d.content == []
    ensures ok ==> Named(d, name) && e.filename == name && Inserted(Records(dirSecs), Records(d.dirSecs), e, d.index)
    ensures ok ==> CreatedIn(fs.g, old(fs.fat), place, Records(dirSecs), name, fs.fat, d)
    ensures ok ==> Within(fs.g, old(fs.media.sectors), fs.media.sectors, PlaceLbas(fs.g, d.place))
    ensures !ok ==>
            DirOf(fs, cluster, place, dirSecs) && fs.OutsideFatUnchanged() && fs.fat == old(fs.fat) && unchanged(file)
  {
    hide DirOf, PlaceLbas, Records, Search, Key, CanCreate, Within, Inserted, OpenAs, Named, Rewound, CreatedIn,
         Fatfs.Valid, Volume.InFat;
    ghost var before := fs.media.sectors;
    var found, entry;
    ghost var index;
    d, e := Desk(place, dirSecs, 0, [], [], []), Entry(name, Padded([], 11), 0, 0, false);
    found, entry, index := LookUp(fs, cluster, name, place, dirSecs);
    ok := !found;
    if ok {
      ghost var middle := fs.media.sectors;
      d, e := CreateNew(fs, file, cluster, name, place, dirSecs);
      FatIsWithin(fs.g, before, middle, PlaceLbas(fs.g, d.place));
      WithinTransitive(fs.g, before, middle, fs.media.sectors, PlaceLbas(fs.g, d.place), PlaceLbas(fs.g, d.place));
    }
  }
}
