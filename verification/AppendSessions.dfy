/** The end-to-end property: whatever sessions append to a file, the medium holds all of it. */
module AppendSessions {

  import opened Words
  import opened FatEntries
  import opened Geometry
  import opened ChainDefs
  import opened FatTable
  import opened FileLayout
  import opened FileSpec
  import opened FileContent
  import opened FileSectors
  import opened DirRecords
  import opened Names
  import opened DirSearch
  import opened DirInsert
  import opened DirShort
  import opened DirLayout
  import opened DirAccess
  import opened DirUpdate
  import opened DirWrite
  import opened FileState
  import opened FileOpen
  import opened FileClose
  import opened FileCreate
  import opened FileModes
  import opened Sessions

  lemma LengthKeepsName(d: Desk, d': Desk, name: seq<byte>)
    requires Named(d, name) && d'.index == d.index
    requires LengthRecorded(Records(d.dirSecs), d.index, |d'.content|, Records(d'.dirSecs))
    ensures Named(d', name)
  {
    EmptyCacheValid();
    hide Records, Search, Key, WithSize, IsLive;
    SizeKeepsSearch(Records(d.dirSecs), d.index, |d'.content|, EMPTY_CACHE, Key(name));
  }

  lemma ExtendedBefore(g: Mounted, a: Shot, sectors: seq<Sector>, b: Shot, data: seq<byte>, place: Place)
    requires |a.sectors| == |sectors| && forall l :: 0 <= l < |sectors| && !g.InFat(l) ==> a.sectors[l] == sectors[l]
    requires Extended(g, a, b, data, place)
    ensures Extended(g, a.(sectors := sectors), b, data, place)
  {
    hide Grown, Capacity, Needed, Lbas, PlaceLbas, AllClusters, SectorsFor;
  }

  lemma RestIsDescribed(fs: Fatfs, cluster: nat, d: Desk, name: seq<byte>)
    requires AtRest(fs, cluster, d) && Named(d, name)
    ensures DirOf(fs, cluster, d.place, d.dirSecs) && |fs.fat| == fs.g.Entries()
    ensures Describes(fs.g, fs.fat, fs.media.sectors, d, name) && IsThere(Records(d.dirSecs), name)
    ensures Search(Records(d.dirSecs), EMPTY_CACHE, Key(name)).Hit?
  {
    hide Fatfs.ValidWith, Decode, IsPlace, Hold, Records, Search, Key, Owns, AllClusters, Apart, Content, ShortUnique,
         IsLive;
  }

  lemma OpenedIsOpen(fs: Fatfs, file: FlFile, cluster: nat, d: Desk)
    requires OpenedOld(fs, file, cluster, d)
    ensures OpenAs(fs, file, cluster, d.place, d.dirSecs, d.index)
    ensures file.chain == d.chain && file.fileLength == |d.content| <= SECTOR_SIZE * |file.secs| &&
            file.Contents() == d.content
  {
  }

  /** Room for a new file of that many bytes, and for a directory cluster if it needs one. */
  ghost predicate RoomToCreate(g: Mounted, fat: seq<nat>, records: seq<Record>, name: seq<byte>, bytes: nat)
    requires |fat| == g.Entries()
  {
    var spare := if FreeRun(records, 0, 0, 0, LfnEntries(name) + 1).Full? then 1 else 0;
    bytes < WORD32 && spare < Free(g, fat) && SectorsFor(bytes) <= g.Span(Free(g, fat) - spare)
  }

  lemma SpanUp(g: Volume, j: nat, k: nat)
    requires j <= k
    ensures g.Span(j) <= g.Span(k)
  {
    if j < k {
      SpanMonotone(g, j, k);
    }
  }

  lemma RoomAfterCreating(g: Mounted, fat: seq<nat>, place: Place, records: seq<Record>, name: seq<byte>,
                          fat': seq<nat>, d: Desk, bytes: nat)
    requires CreatedIn(g, fat, place, records, name, fat', d) && RoomToCreate(g, fat, records, name, bytes)
    ensures |fat'| == g.Entries() && RoomFor(g, fat', d.chain, bytes)
  {
    hide Grown, FreeRun, Owns, SectorsFor, FreeCount, LfnEntries;
    var spare := if FreeRun(records, 0, 0, 0, LfnEntries(name) + 1).Full? then 1 else 0;
    var fat1 := fat[d.chain[0] := LAST % g.fatType.Range()];
    assert Free(g, fat') == Free(g, fat1) || (spare == 1 && Free(g, fat') == Free(g, fat1) - 1);
    SpanUp(g, Free(g, fat) - spare, 1 + Free(g, fat'));
  }

  lemma NewIsOpen(fs: Fatfs, file: FlFile, cluster: nat, d: Desk, name: seq<byte>, records: seq<Record>, e: Entry)
    requires OpenedNew(fs, file, cluster, d, name, records, e)
    ensures OpenAs(fs, file, cluster, d.place, d.dirSecs, d.index) && Named(d, name)
    ensures file.chain == d.chain && file.fileLength == 0 <= SECTOR_SIZE * |file.secs| &&
            file.Contents() == [] == d.content
    ensures e.filename == name && Inserted(records, Records(d.dirSecs), e, d.index)
  {
  }

  lemma MissIsDescribed(g: Mounted, fat: seq<nat>, sectors: seq<Sector>, d: Desk, name: seq<byte>)
    requires Search(Records(d.dirSecs), EMPTY_CACHE, Key(name)).Miss?
    ensures Describes(g, fat, sectors, d, name) && !IsThere(Records(d.dirSecs), name)
  {
  }

  /** Room for that many more bytes, in the file or in one that is to be created. */
  ghost predicate HasRoom(g: Mounted, fat: seq<nat>, name: seq<byte>, d: Desk, bytes: nat)
    requires |fat| == g.Entries()
  {
    if Search(Records(d.dirSecs), EMPTY_CACHE, Key(name)).Miss? then
      CanCreate(g, fat, d.place, Records(d.dirSecs), name) && RoomToCreate(g, fat, Records(d.dirSecs), name, bytes)
    else
      RoomFor(g, fat, d.chain, |d.content| + bytes)
  }

  /** What a session finds: nothing of that name, or a file at rest, and room. */
  ghost predicate CanAppend(fs: Fatfs, cluster: nat, name: seq<byte>, d: Desk, bytes: nat)
    reads fs`slots, fs`next, fs`head, fs`order, fs`view, fs`fat, fs`curAddress, fs`curSector, fs.media`sectors
  {
    && DirOf(fs, cluster, d.place, d.dirSecs) && |fs.fat| == fs.g.Entries()
    && (Search(Records(d.dirSecs), EMPTY_CACHE, Key(name)).Miss? || (AtRest(fs, cluster, d) && Named(d, name)))
    && HasRoom(fs.g, fs.fat, name, d, bytes)
  }

  lemma CanAppendParts(fs: Fatfs, cluster: nat, name: seq<byte>, d: Desk, bytes: nat)
    requires CanAppend(fs, cluster, name, d, bytes)
    ensures DirOf(fs, cluster, d.place, d.dirSecs) && |fs.fat| == fs.g.Entries()
    ensures Describes(fs.g, fs.fat, fs.media.sectors, d, name) && HasRoom(fs.g, fs.fat, name, d, bytes)
    ensures Search(Records(d.dirSecs), EMPTY_CACHE, Key(name)).Miss? <==> !IsThere(Records(d.dirSecs), name)
    ensures IsThere(Records(d.dirSecs), name) ==> Named(d, name)
  {
    hide DirOf, FileAs, HasRoom, Search, Records, Key, Fatfs.Purged;
    if Search(Records(d.dirSecs), EMPTY_CACHE, Key(name)).Miss? {
      MissIsDescribed(fs.g, fs.fat, fs.media.sectors, d, name);
    } else {
      RestIsDescribed(fs, cluster, d, name);
    }
  }

  /** A file at one point of a run: the FAT, the sectors, and what directory and medium have of it. */
  datatype Stage = Stage(fat: seq<nat>, sectors: seq<Sector>, d: Desk) {
    function Shot(): Shot {
      Sessions.Shot(fat, sectors, d.chain, d.content)
    }
  }

  /** Between fl_fopen and the first call: the file that was there, or a new one. */
  ghost predicate Begun(g: Mounted, a: Stage, name: seq<byte>, b: Stage) {
    if Search(Records(a.d.dirSecs), EMPTY_CACHE, Key(name)).Miss? then
      && CreatedIn(g, a.fat, a.d.place, Records(a.d.dirSecs), name, b.fat, b.d) && b.d.content == []
      && Within(g, a.sectors, b.sectors, PlaceLbas(g, b.d.place))
      && exists e: Entry :: e.filename == name && Inserted(Records(a.d.dirSecs), Records(b.d.dirSecs), e, b.d.index)
    else
      b == a
  }

  /** fl_fopen with "ab". */
  method OpenToAppend(fs: Fatfs, file: FlFile, cluster: nat, name: seq<byte>, ghost d: Desk, ghost bytes: nat)
    returns (ghost d1: Desk, ghost sectors1: seq<Sector>)
    requires CanAppend(fs, cluster, name, d, bytes)
    modifies fs`head, fs`next, fs`order, fs`slots, fs`view, fs`fat, fs`nextFree, fs`curAddress, fs`curSector, fs.media,
             file
    ensures OpenAs(fs, file, cluster, d1.place, d1.dirSecs, d1.index) && Named(d1, name) && file.canWrite && file.append
    ensures file.chain == d1.chain && file.fileLength == |d1.content| <= SECTOR_SIZE * |file.secs| &&
            file.Contents() == d1.content
    ensures |fs.fat| == fs.g.Entries() && RoomFor(fs.g, fs.fat, file.chain, file.fileLength + bytes)
    ensures |sectors1| == |fs.media.sectors| && forall l :: 0 <= l < |sectors1| && !fs.g.InFat(l) ==>
            fs.media.sectors[l] == sectors1[l]
    ensures Begun(fs.g, Stage(old(fs.fat), old(fs.media.sectors), d), name, Stage(fs.fat, sectors1, d1))
  {
    hide CanAppend, Named, DirOf, Describes, Records, Search, Key, RoomFor, RoomToCreate, OpenAs, OpenedOld, OpenedNew,
         CreatedIn, Within, CanCreate, Content, Volume.InFat, PlaceLbas, Inserted, IsThere, Fatfs.Valid;
    ghost var fat, before := fs.fat, fs.media.sectors;
    CanAppendParts(fs, cluster, name, d, bytes);
    ModeSound("ab");
    var flags := ParseMode("ab");
    var ok;
    ghost var e;
    ok, d1, e := Open(fs, file, cluster, name, flags, d);
    if Search(Records(d.dirSecs), EMPTY_CACHE, Key(name)).Miss? {
      NewIsOpen(fs, file, cluster, d1, name, Records(d.dirSecs), e);
      RoomAfterCreating(fs.g, fat, d.place, Records(d.dirSecs), name, fs.fat, d1, bytes);
      sectors1 := fs.media.sectors;
    } else {
      OpenedIsOpen(fs, file, cluster, d);
      sectors1 := before;
    }
  }

  /** A session: fl_fopen with "ab", any calls, fl_fclose. */
  method Session(fs: Fatfs, file: FlFile, cluster: nat, name: seq<byte>, ops: seq<Op>, ghost d: Desk)
    returns (ghost b: Stage, ghost d': Desk)
    requires CanAppend(fs, cluster, name, d, |Flat(ops)|)
    modifies fs`head, fs`next, fs`order, fs`slots, fs`view, fs`fat, fs`nextFree, fs`curAddress, fs`curSector, fs.media,
             file
    ensures AtRest(fs, cluster, d') && Named(d', name) && d'.place == b.d.place && d'.index == b.d.index &&
            Named(b.d, name)
    ensures Begun(fs.g, Stage(old(fs.fat), old(fs.media.sectors), d), name, b)
    ensures LengthRecorded(Records(b.d.dirSecs), b.d.index, |d'.content|, Records(d'.dirSecs))
    ensures Extended(fs.g, b.Shot(), Stage(fs.fat, fs.media.sectors, d').Shot(), Flat(ops), b.d.place)
  {
    hide AtRest, CanAppend, Named, Records, RoomFor, Flat, OpenAs, LengthRecorded, Extended, Content, Volume.InFat,
         Begun;
    ghost var d1, sectors1;
    d1, sectors1 := OpenToAppend(fs, file, cluster, name, d, |Flat(ops)|);
    ghost var start := Shot(fs.fat, fs.media.sectors, file.chain, file.Contents());
    b := Stage(fs.fat, sectors1, d1);
    d' := WriteAndClose(fs, file, ops, cluster, d1.place, d1.dirSecs, d1.index);
    LengthKeepsName(d1, d', name);
    ExtendedBefore(fs.g, start, sectors1, Stage(fs.fat, fs.media.sectors, d').Shot(), Flat(ops), d1.place);
  }

  lemma RestCanAppend(fs: Fatfs, cluster: nat, name: seq<byte>, d: Desk, bytes: nat)
    requires AtRest(fs, cluster, d) && Named(d, name)
    requires |fs.fat| == fs.g.Entries() && RoomFor(fs.g, fs.fat, d.chain, |d.content| + bytes)
    ensures CanAppend(fs, cluster, name, d, bytes)
    ensures Search(Records(d.dirSecs), EMPTY_CACHE, Key(name)).Hit?
  {
    hide DirOf, FileAs, Search, Records, Key, Fatfs.Purged, RoomFor, CanCreate, RoomToCreate;
  }

  /* ----------- many sessions ----------- */

  function FlatAll(sessions: seq<seq<Op>>): seq<byte> {
    if sessions == [] then [] else FlatAll(sessions[..|sessions| - 1]) + Flat(sessions[|sessions| - 1])
  }

  lemma {:induction false} FlatAllPrefix(sessions: seq<seq<Op>>, i: nat)
    requires i <= |sessions|
    ensures |FlatAll(sessions[..i])| <= |FlatAll(sessions)|
  {
    if i < |sessions| {
      FlatAllPrefix(sessions[..|sessions| - 1], i);
      assert sessions[..|sessions| - 1][..i] == sessions[..i];
    } else {
      assert sessions[..i] == sessions;
    }
  }

  lemma FlatAllNext(sessions: seq<seq<Op>>, i: nat)
    requires i < |sessions|
    ensures FlatAll(sessions[..i + 1]) == FlatAll(sessions[..i]) + Flat(sessions[i])
    ensures |FlatAll(sessions[..i])| + |Flat(sessions[i])| <= |FlatAll(sessions)|
  {
    assert sessions[..i + 1][..i] == sessions[..i];
    FlatAllPrefix(sessions, i + 1);
  }

  lemma FlatAllNothing(sessions: seq<seq<Op>>)
    ensures FlatAll(sessions[..0]) == []
  {
  }

  /** Every lookup, of any name, gives what it gave, no other record has changed, and long names
      are as complete as they were. */
  ghost predicate SameLookups(records: seq<Record>, index: nat, records': seq<Record>) {
    && (forall key :: Search(records', EMPTY_CACHE, key) == Search(records, EMPTY_CACHE, key))
    && |records'| == |records| && (forall k :: 0 <= k < |records| && k != index ==> records'[k] == records[k])
    && (Complete(records, NOTHING) ==> Complete(records', NOTHING))
  }

  lemma LengthKeepsLookups(records: seq<Record>, index: nat, len: nat, records': seq<Record>)
    requires LengthRecorded(records, index, len, records') && IsLive(records[index])
    ensures SameLookups(records, index, records')
  {
    EmptyCacheValid();
    SizeKeepsComplete(records, index, len, NOTHING);
    hide Search, WithSize, IsLive, Complete;
    forall key ensures Search(records', EMPTY_CACHE, key) == Search(records, EMPTY_CACHE, key) {
      SizeKeepsSearch(records, index, len, EMPTY_CACHE, key);
    }
  }

  lemma NamedIsLive(d: Desk, name: seq<byte>)
    requires Named(d, name)
    ensures d.index < |Records(d.dirSecs)| && IsLive(Records(d.dirSecs)[d.index])
  {
  }

  lemma SameLookupsTwice(a: seq<Record>, b: seq<Record>, c: seq<Record>, index: nat)
    requires SameLookups(a, index, b) && SameLookups(b, index, c)
    ensures SameLookups(a, index, c)
  {
    hide Search, Complete;
  }

  lemma ExtendedNothing(fs: Fatfs, cluster: nat, d: Desk)
    requires AtRest(fs, cluster, d)
    ensures var now := Stage(fs.fat, fs.media.sectors, d).Shot(); Extended(fs.g, now, now, [], d.place)
    ensures |fs.fat| == fs.g.Entries()
  {
    assert d.content + [] == d.content;
    assert Owns(fs.g, fs.fat, d.chain) && AllClusters(fs.g, d.chain);
    hide Fatfs.ValidWith, Decode, DirAs, Hold, Lbas, PlaceLbas, Recorded, Content, Reserved, AllClusters, Capacity;
  }

  lemma RoomLeft(g: Mounted, a: Shot, b: Shot, data: seq<byte>, place: Place, total: nat, more: nat)
    requires Extended(g, a, b, data, place)
    requires RoomFor(g, a.fat, a.chain, total) && |b.content| + more <= total
    ensures |b.fat| == g.Entries() && RoomFor(g, b.fat, b.chain, |b.content| + more)
  {
    SectorsForMonotone(|b.content| + more, total);
    hide SectorsFor, Capacity, AllClusters, OnlyThese, Needed;
  }

  /** Any number of sessions on a file that is there. */
  method AppendAll(fs: Fatfs, file: FlFile, cluster: nat, name: seq<byte>, sessions: seq<seq<Op>>,
                   ghost d: Desk) returns (ghost d': Desk)
    requires AtRest(fs, cluster, d) && Named(d, name)
    requires |fs.fat| == fs.g.Entries() && RoomFor(fs.g, fs.fat, d.chain, |d.content| + |FlatAll(sessions)|)
    modifies fs`head, fs`next, fs`order, fs`slots, fs`view, fs`fat, fs`nextFree, fs`curAddress, fs`curSector, fs.media,
             file
    ensures AtRest(fs, cluster, d') && Named(d', name) && d'.place == d.place && d'.index == d.index
    ensures SameLookups(Records(d.dirSecs), d.index, Records(d'.dirSecs))
    ensures Extended(fs.g, old(Stage(fs.fat, fs.media.sectors, d)).Shot(), Stage(fs.fat, fs.media.sectors, d').Shot(),
                     FlatAll(sessions), d.place)
  {
    hide AtRest, Named, Records, RoomFor, Flat, FlatAll, Extended, SameLookups, LengthRecorded, Begun;
    ghost var start := Stage(fs.fat, fs.media.sectors, d);
    ExtendedNothing(fs, cluster, d);
    FlatAllNothing(sessions);
    SameLookupsItself(Records(d.dirSecs), d.index);
    d' := d;
    var i := 0;
    while i < |sessions|
      invariant 0 <= i <= |sessions|
      invariant AtRest(fs, cluster, d') && Named(d', name) && d'.place == d.place && d'.index == d.index
      invariant SameLookups(Records(d.dirSecs), d.index, Records(d'.dirSecs))
      invariant Extended(fs.g, start.Shot(), Stage(fs.fat, fs.media.sectors, d').Shot(), FlatAll(sessions[..i]),
                         d.place)
    {
      ghost var now := Stage(fs.fat, fs.media.sectors, d');
      FlatAllNext(sessions, i);
      ExtendedLength(fs.g, start.Shot(), now.Shot(), FlatAll(sessions[..i]), d.place);
      RoomLeft(fs.g, start.Shot(), now.Shot(), FlatAll(sessions[..i]), d.place, |d.content| + |FlatAll(sessions)|,
               |Flat(sessions[i])|);
      RestCanAppend(fs, cluster, name, now.d, |Flat(sessions[i])|);
      ghost var b;
      b, d' := Session(fs, file, cluster, name, sessions[i], now.d);
      BegunThere(fs.g, now, name, b);
      NamedIsLive(now.d, name);
      LengthKeepsLookups(Records(now.d.dirSecs), now.d.index, |d'.content|, Records(d'.dirSecs));
      SameLookupsTwice(Records(d.dirSecs), Records(now.d.dirSecs), Records(d'.dirSecs), d.index);
      ExtendedTwice(fs.g, start.Shot(), now.Shot(), Stage(fs.fat, fs.media.sectors, d').Shot(), FlatAll(sessions[..i]),
                    Flat(sessions[i]), d.place);
      i := i + 1;
    }
    assert sessions[..i] == sessions;
  }

  lemma BegunThere(g: Mounted, a: Stage, name: seq<byte>, b: Stage)
    requires Begun(g, a, name, b) && Search(Records(a.d.dirSecs), EMPTY_CACHE, Key(name)).Hit?
    ensures b == a
  {
  }

  lemma SameLookupsItself(records: seq<Record>, index: nat)
    ensures SameLookups(records, index, records)
  {
  }
}
