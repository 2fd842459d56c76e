/** fatfs_add_file_entry: a new name on the medium, and what every lookup makes of it. */
module DirWrite {

  import opened Words
  import opened Geometry
  import opened FatTable
  import opened FileSpec
  import opened DirRecords
  import opened LfnBuffers
  import opened Names
  import opened DirSearch
  import opened DirInsert
  import opened DirShort
  import opened DirLayout
  import opened DirAccess
  import opened DirUpdate
  import opened DirSpace
  import opened DirRoom

  /* ----------- one record after another ----------- */

  /** The directory once the positions below i have been visited: from `start` on they hold
      the new records, as far as there are any. */
  function Progress(base: seq<Record>, start: nat, new_: seq<Record>, i: nat): (r: seq<Record>)
    requires i <= |base|
    ensures |r| == |base|
  {
    seq<Record>(|base|, k requires 0 <= k < |base| => if start <= k < i && k - start < |new_| then new_[k - start]
                else base[k])
  }

  lemma ProgressStart(base: seq<Record>, start: nat, new_: seq<Record>, i: nat)
    requires i <= |base| && i <= start
    ensures Progress(base, start, new_, i) == base
  {
  }

  lemma ProgressStep(base: seq<Record>, start: nat, new_: seq<Record>, i: nat)
    requires i < |base|
    ensures Progress(base, start, new_, i + 1) ==
            if start <= i < start + |new_| then Progress(base, start, new_, i)[i := new_[i - start]]
                else Progress(base, start, new_, i)
  {
  }

  lemma ProgressDone(base: seq<Record>, start: nat, new_: seq<Record>, i: nat)
    requires start + |new_| <= i <= |base|
    ensures Progress(base, start, new_, i) == Splice(base, start, new_)
    ensures Progress(base, start, new_, |base|) == Splice(base, start, new_)
  {
  }

  /** The k-th of the records for a name. */
  lemma {:induction false} LfnRecordsAt(name: seq<byte>, chk: byte, entries: nat, k: nat)
    requires k < entries <= LFN_ROWS
    ensures LfnRecords(name, chk, entries)[k] == LfnRecord(name, entries - 1 - k, chk)
  {
    hide LfnRecord;
    if k > 0 {
      LfnRecordsAt(name, chk, entries - 1, k - 1);
    }
  }

  lemma NewRecordAt(name: seq<byte>, shortName: ShortName, size: word32, start: word32, dir: bool, k: nat)
    requires k <= LfnEntries(name) <= LFN_ROWS
    ensures NewRecords(name, shortName, size, start, dir)[k] ==
            if k == LfnEntries(name) then SfnRecord(shortName, size, start, dir)
            else LfnRecord(name, LfnEntries(name) - 1 - k, Checksum(shortName))
  {
    hide LfnRecord, SfnRecord, LfnEntries, Checksum, LfnRecords;
    if k < LfnEntries(name) {
      LfnRecordsAt(name, Checksum(shortName), LfnEntries(name), k);
    }
  }

  /** The loop of fatfs_add_file_entry that sums up the short name. */
  method ShortChecksum(shortName: ShortName) returns (checksum: byte)
    ensures checksum == Checksum(shortName)
  {
    checksum := 0;
    var i := 11;
    while i != 0
      invariant 0 <= i <= 11
      invariant checksum == Checksum(shortName[..11 - i])
    {
      var k := 11 - i;
      assert shortName[..k + 1][..k] == shortName[..k];
      checksum := ((if checksum % 2 == 1 then 0x80 else 0) + checksum / 2 + shortName[k]) % 0x100;
      i := i - 1;
    }
    assert shortName[..11] == shortName;
  }

  /* ----------- the sectors ----------- */

  lemma WindowPut(records: seq<Record>, x: nat, sector: Sector, item: nat, r: Record)
    requires Window(records, x, sector) && item < PER_SECTOR
    ensures Window(records[PER_SECTOR * x + item := r], x, PutRecord(sector, item, r))
  {
    PutRecordAt(sector, item, r);
    hide PutRecord, RecordAt;
    var sector' := PutRecord(sector, item, r);
    forall i | 0 <= i < PER_SECTOR ensures records[PER_SECTOR * x + item := r][PER_SECTOR * x + i] ==
        RecordAt(sector', i) {
      assert RecordAt(sector', i) == RecordsOf(sector')[i] == RecordsOf(sector)[item := r][i];
    }
  }

  lemma ProgressElsewhere(base: seq<Record>, start: nat, new_: seq<Record>, i: nat, j: nat)
    requires i <= j <= |base|
    ensures Progress(base, start, new_, i)[..i] == Progress(base, start, new_, j)[..i]
    ensures Progress(base, start, new_, i)[j..] == Progress(base, start, new_, j)[j..]
  {
  }

  /** A sector that holds what the new records have made of its part of the directory. */
  lemma ProgressSector(secs: seq<Sector>, x: nat, sector: Sector, base: seq<Record>, start: nat, new_: seq<Record>)
    requires x < |secs| && PER_SECTOR * |secs| == |base|
    requires Records(secs) == Progress(base, start, new_, PER_SECTOR * x)
    requires Window(Progress(base, start, new_, PER_SECTOR * (x + 1)), x, sector)
    ensures Records(secs[x := sector]) == Progress(base, start, new_, PER_SECTOR * (x + 1))
  {
    hide Records, RecordsOf, Window, Progress;
    var i, j := PER_SECTOR * x, PER_SECTOR * (x + 1);
    var r, r' := Progress(base, start, new_, i), Progress(base, start, new_, j);
    RecordsSplit(secs, x);
    RecordsSplit(secs[x := sector], x);
    assert secs[x := sector][..x] == secs[..x] && secs[x := sector][x + 1..] == secs[x + 1..];
    WindowIsSlice(r', x, sector);
    ProgressElsewhere(base, start, new_, i, j);
    var pre, post := Records(secs[..x]), Records(secs[x + 1..]);
    assert |pre| == i;
    Outer(pre, RecordsOf(secs[x]), post, r);
    assert r' == r'[..i] + r'[i..j] + r'[j..];
  }

  lemma Outer(pre: seq<Record>, mid: seq<Record>, post: seq<Record>, all: seq<Record>)
    requires all == pre + mid + post
    ensures pre == all[..|pre|] && post == all[|pre| + |mid|..]
  {
  }

  lemma WindowIsSlice(records: seq<Record>, x: nat, sector: Sector)
    requires Window(records, x, sector)
    ensures RecordsOf(sector) == records[PER_SECTOR * x..PER_SECTOR * (x + 1)]
  {
    hide RecordAt;
  }

  /** The records of a name that is being stored. */
  datatype Entry = Entry(filename: seq<byte>, shortName: ShortName, size: word32, startCluster: word32, dir: bool) {

    predicate Fits() {
      LfnEntries(filename) <= LFN_ROWS
    }

    function New(): (r: seq<Record>)
      requires Fits()
      ensures |r| == LfnEntries(filename) + 1
    {
      NewRecords(filename, shortName, size, startCluster, dir)
    }
  }

  /** The inner loop: put records in the current sector, from the start position on, as long
      as there are any.  `entryCount` long-name records and the short one are still to come. */
  method FillSector(fs: Fatfs, x: nat, startOffset: nat, started: bool, entryCount: nat, checksum: byte, e: Entry,
                    ghost base: seq<Record>, ghost start: nat)
    returns (foundEnd: bool, left: nat, done: bool, dirty: bool)
    requires e.Fits() && checksum == Checksum(e.shortName) && startOffset < PER_SECTOR
    requires PER_SECTOR * (x + 1) <= |base|
    requires Window(Progress(base, start, e.New(), PER_SECTOR * x), x, fs.curSector)
    requires if started then start < PER_SECTOR * x == start + LfnEntries(e.filename) - entryCount
             else start == PER_SECTOR * x + startOffset && entryCount == LfnEntries(e.filename)
    modifies fs`curSector
    ensures Window(Progress(base, start, e.New(), PER_SECTOR * (x + 1)), x, fs.curSector)
    ensures done <==> start + |e.New()| <= PER_SECTOR * (x + 1)
    ensures !done ==>
            dirty && foundEnd && left < |e.New()| && start < PER_SECTOR * (x + 1) == start +
            LfnEntries(e.filename) - left
  {
    hide Window, LfnRecord, SfnRecord, NewRecords, Progress, LfnEntries, PutRecord;
    ghost var n, new_ := LfnEntries(e.filename), e.New();
    foundEnd, left, done, dirty := started, entryCount, false, false;
    var item := 0;
    while item < PER_SECTOR && !done
      invariant 0 <= item <= PER_SECTOR
      invariant Window(Progress(base, start, new_, PER_SECTOR * x + item), x, fs.curSector)
      invariant done <==> start + n + 1 <= PER_SECTOR * x + item
      invariant !done && foundEnd ==> start <= PER_SECTOR * x + item == start + n - left
      invariant !foundEnd ==> start == PER_SECTOR * x + startOffset && item <= startOffset && left == n && !done
      invariant !done && foundEnd && (item > startOffset || (started && item > 0)) ==> dirty
      invariant left <= n && (started ==> foundEnd)
    {
      if !foundEnd && startOffset == item {
        foundEnd := true;
      }
      ghost var i := PER_SECTOR * x + item;
      ProgressStep(base, start, new_, i);
      if foundEnd {
        NewRecordAt(e.filename, e.shortName, e.size, e.startCluster, e.dir, i - start);
        var r;
        if left == 0 {
          r := SfnRecord(e.shortName, e.size, e.startCluster, e.dir);
          done := true;
        } else {
          left := left - 1;
          r := FilenameToLfn(e.filename, left, checksum);
          dirty := true;
        }
        WindowPut(Progress(base, start, new_, i), x, fs.curSector, item, r);
        fs.curSector := PutRecord(fs.curSector, item, r);
      }
      item := item + 1;
    }
    if done {
      ProgressRest(base, start, new_, PER_SECTOR * x + item, PER_SECTOR * (x + 1));
    }
  }

  lemma ProgressRest(base: seq<Record>, start: nat, new_: seq<Record>, i: nat, j: nat)
    requires start + |new_| <= i <= j <= |base|
    ensures Progress(base, start, new_, i) == Progress(base, start, new_, j)
  {
    ProgressDone(base, start, new_, i);
    ProgressDone(base, start, new_, j);
  }

  /** One sector of that: read it, put in the records that fall into it, and write it back. */
  method FillOne(fs: Fatfs, dirCluster: nat, x: nat, dirOffset: nat, started: bool, entryCount: nat, checksum: byte,
                 e: Entry,
                 ghost base: seq<Record>, ghost start: nat, ghost place: Place, ghost secs: seq<Sector>)
    returns (read: bool, foundEnd: bool, left: nat, done: bool, ghost secs': seq<Sector>)
    requires Dir(fs, dirCluster, place, secs) && e.Fits() && checksum == Checksum(e.shortName) && dirOffset < PER_SECTOR
    requires x <= |secs| && |base| == PER_SECTOR * |secs| &&
             Records(secs) == Progress(base, start, e.New(), PER_SECTOR * x)
    requires if started then start < PER_SECTOR * x == start + LfnEntries(e.filename) - entryCount
             else start == PER_SECTOR * x + dirOffset && entryCount == LfnEntries(e.filename)
    modifies fs`head, fs`next, fs`order, fs`slots, fs`curAddress, fs`curSector, fs.media
    ensures Dir(fs, dirCluster, place, secs') && |secs'| == |secs|
    ensures (read <==> x < |secs|) && (!read ==> !done && foundEnd == started && left == entryCount)
    ensures Within(fs.g, old(fs.media.sectors), fs.media.sectors, PlaceLbas(fs.g, place))
    ensures if read then fs.curAddress in PlaceLbas(fs.g, place)
            else secs' == secs && fs.curAddress == old(fs.curAddress)
    ensures read ==> Records(secs') == Progress(base, start, e.New(), PER_SECTOR * (x + 1))
    ensures read ==> (done <==> start + |e.New()| <= PER_SECTOR * (x + 1))
    ensures read && !done ==> foundEnd && start < PER_SECTOR * (x + 1) == start + LfnEntries(e.filename) - left
  {
    hide Dir, PlaceLbas, Records, Progress, Entry.New, Window, Volume.InFat, LfnEntries;
    foundEnd, left, done, secs' := started, entryCount, false, secs;
    ghost var lbas := PlaceLbas(fs.g, place);
    read := SectorReader(fs, dirCluster, x, place, secs);
    if !read {
      return;
    }
    DirLoaded(fs, dirCluster, place, secs, x);
    WindowOf(secs, x);
    ghost var middle := fs.media.sectors;
    var dirty;
    foundEnd, left, done, dirty := FillSector(fs, x, dirOffset, started, entryCount, checksum, e, base, start);
    ProgressSector(secs, x, fs.curSector, base, start, e.New());
    secs' := secs[x := fs.curSector];
    if done || dirty {
      var _ := WriteCurrent(fs, dirCluster, place, secs, x);
      WithinTransitive(fs.g, old(fs.media.sectors), middle, fs.media.sectors, lbas, lbas);
    }
  }

  /** The outer loop: sector after sector until the short record has been written.  A name too
      long for the rest of the directory is written as far as it goes. */
  method WriteRecords(fs: Fatfs, dirCluster: nat, dirSector: nat, dirOffset: nat, e: Entry, ghost place: Place,
                      ghost secs: seq<Sector>)
    returns (ok: bool, ghost secs': seq<Sector>)
    requires Dir(fs, dirCluster, place, secs) && e.Fits() && dirOffset < PER_SECTOR
    requires PER_SECTOR * dirSector + dirOffset <= |Records(secs)|
    modifies fs`head, fs`next, fs`order, fs`slots, fs`curAddress, fs`curSector, fs.media
    ensures Dir(fs, dirCluster, place, secs') && |secs'| == |secs|
    ensures ok <==> PER_SECTOR * dirSector + dirOffset + |e.New()| <= |Records(secs)|
    ensures Records(secs') == Progress(Records(secs), PER_SECTOR * dirSector + dirOffset, e.New(), |Records(secs)|)
    ensures Within(fs.g, old(fs.media.sectors), fs.media.sectors, PlaceLbas(fs.g, place))
    ensures fs.curAddress == old(fs.curAddress) || fs.curAddress in PlaceLbas(fs.g, place)
  {
    hide Dir, PlaceLbas, Records, Progress, Entry.New, Window, Volume.InFat, LfnEntries;
    ghost var base, new_, start := Records(secs), e.New(), PER_SECTOR * dirSector + dirOffset;
    ghost var lbas := PlaceLbas(fs.g, place);
    var checksum := ShortChecksum(e.shortName);
    var x, entryCount, foundEnd := dirSector, LfnEntries(e.filename), false;
    ok, secs' := false, secs;
    ProgressStart(base, start, new_, PER_SECTOR * x);
    while !ok
      invariant dirSector <= x <= |secs'| == |secs|
      invariant Dir(fs, dirCluster, place, secs')
      invariant fs.curAddress == old(fs.curAddress) || fs.curAddress in lbas
      invariant Within(fs.g, old(fs.media.sectors), fs.media.sectors, lbas)
      invariant Records(secs') == Progress(base, start, new_, PER_SECTOR * x)
      invariant !ok ==> if foundEnd then start < PER_SECTOR * x == start + LfnEntries(e.filename) - entryCount
                        else x == dirSector && entryCount == LfnEntries(e.filename)
      invariant ok ==> start + |new_| <= PER_SECTOR * x
      decreases |secs| - x, !ok
    {
      ghost var before := fs.media.sectors;
      var read;
      read, foundEnd, entryCount, ok, secs' := FillOne(fs, dirCluster, x, dirOffset, foundEnd, entryCount, checksum, e,
                                                       base, start, place, secs');
      WithinTransitive(fs.g, old(fs.media.sectors), before, fs.media.sectors, lbas, lbas);
      if !read {
        return;
      }
      x := x + 1;
    }
    ProgressRest(base, start, new_, PER_SECTOR * x, |base|);
  }

  /* ----------- what the directory says afterwards ----------- */

  ghost predicate SameOutcome(f: Found, f': Found) {
    f'.Hit? == f.Hit? && (f.Hit? ==> f'.index == f.index)
  }

  /** Every record that was in use is where it was. */
  ghost predicate LiveKept(records: seq<Record>, records': seq<Record>) {
    |records| <= |records'| && forall k :: 0 <= k < |records| && IsLive(records[k]) ==> records'[k] == records[k]
  }

  lemma SpliceKeepsLive(records: seq<Record>, base: seq<Record>, start: nat, end: nat, new_: seq<Record>)
    requires records <= base && Orphaned(base, start, end) && start + |new_| <= end
    ensures LiveKept(records, Splice(base, start, new_))
  {
    hide IsLive, EndsClean;
    forall k | 0 <= k < |records| && IsLive(records[k]) ensures Splice(base, start, new_)[k] == records[k] {
      assert base[k] == records[k];
      assert start <= k < end ==> base[start..end][k - start] == base[k];
    }
  }

  /** The new records fill the run the scan found, up to the one of the file, which alone of
      them is live; the records around them are as before, or blank ones behind the old end. */
  ghost predicate Placed(records: seq<Record>, records': seq<Record>, need: nat, index: nat) {
    var start := FreeRun(records, 0, 0, 0, need).start;
    && index + 1 == start + need <= |records'| && |records| <= |records'|
    && (FreeRun(records, 0, 0, 0, need).At? ==> |records'| == |records|)
    && (forall k :: start <= k < index ==> !IsLive(records'[k]))
    && (forall k :: 0 <= k < |records'| && !(start <= k <= index) ==>
        records'[k] == if k < |records| then records[k] else Zeros(ENTRY_SIZE))
  }

  lemma SplicePlaced(records: seq<Record>, base: seq<Record>, start: nat, end: nat, e: Entry)
    requires e.Fits() && Storable(e.filename, e.shortName)
    requires Settled(records, base, start, |e.New()|, end) && start + |e.New()| <= |base|
    ensures Placed(records, Splice(base, start, e.New()), |e.New()|, start + LfnEntries(e.filename))
  {
    NewRecordsLive(e.filename, e.shortName, e.size, e.startCluster, e.dir);
    hide IsLive, FreeRun, Orphaned, NewRecords, LfnEntries, Storable;
    var piece, out := e.New(), Splice(base, start, e.New());
    forall k | start <= k < start + |piece| - 1 ensures !IsLive(out[k]) {
      assert out[k] == piece[k - start];
    }
    forall k | 0 <= k < |out| && !(start <= k < start + |piece|)
      ensures out[k] == if k < |records| then records[k] else Zeros(ENTRY_SIZE)
    {
      assert out[k] == base[k];
      if k >= |records| {
        assert base[k] == base[|records|..][k - |records|];
      }
    }
  }

  /** The name is found at its new record, every other name where it was, and the directory
      has kept its shape. */
  ghost predicate Inserted(records: seq<Record>, records': seq<Record>, e: Entry, index: nat) {
    && index < |records'| && records'[index] == SfnRecord(e.shortName, e.size, e.startCluster, e.dir)
    && Search(records', EMPTY_CACHE, Key(e.filename)) == Hit(index)
    && (forall key :: key != Key(e.filename) ==>
        SameOutcome(Search(records, EMPTY_CACHE, key), Search(records', EMPTY_CACHE, key)))
    && LiveKept(records, records') && Placed(records, records', LfnEntries(e.filename) + 1, index)
    && Complete(records', NOTHING) && ShortUnique(records')
  }

  lemma InsertedAt(base: seq<Record>, start: nat, e: Entry)
    requires e.Fits() && start + |e.New()| <= |base|
    ensures Splice(base, start, e.New())[start + LfnEntries(e.filename)] ==
            SfnRecord(e.shortName, e.size, e.startCluster, e.dir)
  {
    NewRecordAt(e.filename, e.shortName, e.size, e.startCluster, e.dir, LfnEntries(e.filename));
    hide NewRecords, SfnRecord, LfnEntries;
  }

  /** A well-formed directory in which neither the name nor the short name is taken. */
  ghost predicate Takes(records: seq<Record>, e: Entry) {
    && Storable(e.filename, e.shortName)
    && Complete(records, NOTHING) && ShortUnique(records)
    && FirstShort(records, 0, e.shortName) == |records|
    && Search(records, EMPTY_CACHE, Key(e.filename)).Miss?
  }

  lemma SettledFits(records: seq<Record>, base: seq<Record>, start: nat, need: nat, end: nat)
    requires Settled(records, base, start, need, end)
    ensures start <= |records| <= |base|
    ensures base == records || |records| + need <= |base| ==> start + need <= |base|
  {
    hide Blanks, EndsClean, NoneLive;
  }

  lemma ProgressInserted(records: seq<Record>, base: seq<Record>, start: nat, end: nat, e: Entry)
    requires e.Fits() && Takes(records, e)
    requires Settled(records, base, start, |e.New()|, end) && start + |e.New()| <= |base|
    ensures Inserted(records, Progress(base, start, e.New(), |base|), e, start + LfnEntries(e.filename))
  {
    hide Settled, Inserted, Storable, Complete, ShortUnique, FirstShort, Search, Progress, NewRecords;
    ProgressDone(base, start, e.New(), |base|);
    SpliceInserted(records, base, start, end, e);
  }

  lemma SpliceInserted(records: seq<Record>, base: seq<Record>, start: nat, end: nat, e: Entry)
    requires e.Fits()
    requires Settled(records, base, start, |e.New()|, end) && start + |e.New()| <= |base|
    requires Takes(records, e)
    ensures Inserted(records, Splice(base, start, e.New()), e, start + LfnEntries(e.filename))
  {
    EmptyCacheValid();
    assert EMPTY_CACHE.rows == 0;
    InsertedAt(base, start, e);
    hide Search, Complete, ShortUnique, FirstShort, Storable, LfnEntries, NewRecords, Splice, Orphaned, Key, SfnRecord,
         Blanks, LiveKept, Placed, FreeRun;
    SpliceKeepsLive(records, base, start, end, e.New());
    SplicePlaced(records, base, start, end, e);
    BlanksKeepComplete(records, base);
    BlanksKeepShort(records, base, e.shortName);
    BlanksKeepSearch(records, base, EMPTY_CACHE, Key(e.filename));
    InsertKeepsComplete(base, start, end, e.filename, e.shortName, e.size, e.startCluster, e.dir);
    InsertKeepsUnique(base, start, e.filename, e.shortName, e.size, e.startCluster, e.dir);
    InsertFindsNew(base, start, end, EMPTY_CACHE, e.filename, e.shortName, e.size, e.startCluster, e.dir);
    forall key | key != Key(e.filename)
      ensures SameOutcome(Search(records, EMPTY_CACHE, key), Search(Splice(base, start, e.New()), EMPTY_CACHE, key))
    {
      BlanksKeepSearch(records, base, EMPTY_CACHE, key);
      InsertKeepsOthers(base, start, end, EMPTY_CACHE, e.filename, e.shortName, e.size, e.startCluster, e.dir, key);
    }
  }

  /** The writing half of fatfs_add_file_entry: into records nobody needs, it is an insert. */
  method StoreEntry(fs: Fatfs, dirCluster: nat, dirSector: nat, dirOffset: nat, e: Entry,
                    ghost place: Place, ghost secs: seq<Sector>, ghost records: seq<Record>, ghost end: nat)
    returns (ok: bool, ghost secs': seq<Sector>)
    requires Dir(fs, dirCluster, place, secs) && e.Fits() && dirOffset < PER_SECTOR
    requires PER_SECTOR * dirSector + dirOffset <= |Records(secs)|
    modifies fs`head, fs`next, fs`order, fs`slots, fs`curAddress, fs`curSector, fs.media
    ensures Dir(fs, dirCluster, place, secs') && |secs'| == |secs|
    ensures ok <==> PER_SECTOR * dirSector + dirOffset + |e.New()| <= |Records(secs)|
    ensures ok && Takes(records, e) && Settled(records, Records(secs), PER_SECTOR * dirSector + dirOffset, |e.New()|,
                                               end) ==>
              Inserted(records, Records(secs'), e, PER_SECTOR * dirSector + dirOffset + LfnEntries(e.filename))
    ensures Within(fs.g, old(fs.media.sectors), fs.media.sectors, PlaceLbas(fs.g, place))
    ensures fs.curAddress == old(fs.curAddress) || fs.curAddress in PlaceLbas(fs.g, place)
  {
    hide Dir, PlaceLbas, Records, Progress, Settled, Inserted, Takes, NewRecords, LfnEntries, Within;
    ghost var base, start := Records(secs), PER_SECTOR * dirSector + dirOffset;
    if start + |e.New()| <= |base| && Takes(records, e) && Settled(records, base, start, |e.New()|, end) {
      ProgressInserted(records, base, start, end, e);
    }
    ok, secs' := WriteRecords(fs, dirCluster, dirSector, dirOffset, e, place, secs);
  }

  /** What becomes of a new entry for a full FAT16 root: the FAT may be damaged, but the
      directory has no more records than before, so that the entry goes in only if the records
      of old long names at its end are enough for it. */
  ghost predicate RootEntryOutcome(g: Mounted, fat: seq<nat>, records: seq<Record>, need: nat, ok: bool, fat': seq<nat>)
    requires |fat| == g.Entries() && 2 < |fat|
  {
    && RootOutcome(g, fat, 0 < Free(g, fat) && !g.fatType.IsFree(fat[2]), fat')
    && (ok <==>
          && 0 < Free(g, fat) && !g.fatType.IsFree(fat[2])
          && FreeRun(records, 0, 0, 0, need).start + need <= |records|)
  }

  ghost predicate RootIsFull(place: Place, records: seq<Record>, need: nat) {
    place.Root16? && FreeRun(records, 0, 0, 0, need).Full?
  }

  /** Is there room, or will there be?  A run of records, or a free cluster behind the directory. */
  ghost predicate FindsRoom(g: Mounted, fat: seq<nat>, place: Place, records: seq<Record>, need: nat)
    requires |fat| == g.Entries()
  {
    FreeRun(records, 0, 0, 0, need).At? || (place.InChain? && 0 < Free(g, fat))
  }

  /** fatfs_add_file_entry for a name that is not empty. */
  method AddNamedEntry(fs: Fatfs, dirCluster: nat, e: Entry, ghost place: Place, ghost secs: seq<Sector>)
    returns (ok: bool, ghost place': Place, ghost secs': seq<Sector>, ghost index: nat)
    requires Dir(fs, dirCluster, place, secs) && |fs.fat| == fs.g.Entries() && e.Fits()
    requires FreeRun(Records(secs), 0, 0, 0, |e.New()|).Full? ==> MayGrow(fs.g, fs.fat, place)
    modifies fs`head, fs`next, fs`order, fs`slots, fs`view, fs`fat, fs`curAddress, fs`curSector, fs.media
    ensures Dir(fs, dirCluster, place', secs')
    ensures RootIsFull(place, Records(secs), |e.New()|) ==>
              && place' == place && |secs'| == |secs| && 2 < |old(fs.fat)|
              && RootEntryOutcome(fs.g, old(fs.fat), Records(secs), |e.New()|, ok, fs.fat)
    ensures !RootIsFull(place, Records(secs), |e.New()|) ==>
              && PlaceGrown(fs.g, old(fs.fat), place, fs.fat, place')
              && Within(fs.g, old(fs.media.sectors), fs.media.sectors, PlaceLbas(fs.g, place'))
              && (fs.curAddress == old(fs.curAddress) || fs.curAddress in PlaceLbas(fs.g, place'))
              && (ok ==> old(FindsRoom(fs.g, fs.fat, place, Records(secs), |e.New()|)))
              && (ok && Takes(Records(secs), e) ==> Inserted(Records(secs), Records(secs'), e, index))
    ensures && old(FindsRoom(fs.g, fs.fat, place, Records(secs), |e.New()|))
            && (place' == place || |e.New()| <= PER_SECTOR * fs.g.sectorsPerCluster)
            ==> ok
    ensures FreeRun(Records(secs), 0, 0, 0, |e.New()|).At? ==> place' == place
  {
    hide Dir, PlaceLbas, Records, Volume.InFat, PlaceGrown, MayGrow, Settled, Inserted, Takes, FreeRun, NewRecords,
         LfnEntries, Within, Astray, Free, RootOutcome;
    ghost var before, fat, need := fs.media.sectors, fs.fat, |e.New()|;
    var entryCount := LfnEntries(e.filename);
    var dirSector, dirOffset;
    ghost var end, secs1;
    ok, dirSector, dirOffset, place', secs1, end := FindFreeDirOffset(fs, dirCluster, entryCount + 1, place, secs);
    secs', index := secs1, PER_SECTOR * dirSector + dirOffset + entryCount;
    ghost var found := ok;
    if ok {
      RunStarts(Records(secs), need);
      if !RootIsFull(place, Records(secs), need) {
        SettledFits(Records(secs), Records(secs1), PER_SECTOR * dirSector + dirOffset, need, end);
      }
      ghost var middle := fs.media.sectors;
      ok, secs' := StoreEntry(fs, dirCluster, dirSector, dirOffset, e, place', secs1, Records(secs), end);
      if !RootIsFull(place, Records(secs), need) {
        WithinTransitive(fs.g, before, middle, fs.media.sectors, PlaceLbas(fs.g, place'), PlaceLbas(fs.g, place'));
      }
    }
    RootFound(fs.g, fat, found, fs.fat);
  }

  lemma RunStarts(records: seq<Record>, need: nat)
    requires need > 0
    ensures FreeRun(records, 0, 0, 0, need).start <= |records|
  {
    var _ := FreeRunIsOrphaned(records, 0, 0, 0, need);
  }

  lemma RootFound(g: Mounted, fat: seq<nat>, ok: bool, fat': seq<nat>)
    ensures |fat| == g.Entries() && 2 < |fat| && RootOutcome(g, fat, ok, fat') ==>
              (ok <==> 0 < Free(g, fat) && !g.fatType.IsFree(fat[2]))
  {
    hide Free, Astray;
  }

  /** fatfs_add_file_entry.  With room, and a cluster of records enough for the name, it
      succeeds, and the name is in the directory: unless it or its short name was there before,
      a lookup finds the new record, and any other lookup what it found before.  Without room
      it fails; for a full FAT16 root it may damage the FAT. */
  method AddFileEntry(fs: Fatfs, dirCluster: nat, e: Entry, ghost place: Place, ghost secs: seq<Sector>)
    returns (ok: bool, ghost place': Place, ghost secs': seq<Sector>, ghost index: nat)
    requires Dir(fs, dirCluster, place, secs) && |fs.fat| == fs.g.Entries() && e.Fits()
    requires FreeRun(Records(secs), 0, 0, 0, |e.New()|).Full? ==> MayGrow(fs.g, fs.fat, place)
    modifies fs`head, fs`next, fs`order, fs`slots, fs`view, fs`fat, fs`curAddress, fs`curSector, fs.media
    ensures Dir(fs, dirCluster, place', secs')
    ensures e.filename == [] ==>
            !ok && place' == place && secs' == secs && fs.fat == old(fs.fat) &&
            fs.media.sectors == old(fs.media.sectors)
    ensures e.filename != [] && RootIsFull(place, Records(secs), |e.New()|) ==>
              && place' == place && |secs'| == |secs| && 2 < |old(fs.fat)|
              && RootEntryOutcome(fs.g, old(fs.fat), Records(secs), |e.New()|, ok, fs.fat)
    ensures !RootIsFull(place, Records(secs), |e.New()|) ==>
              && PlaceGrown(fs.g, old(fs.fat), place, fs.fat, place')
              && Within(fs.g, old(fs.media.sectors), fs.media.sectors, PlaceLbas(fs.g, place'))
              && (fs.curAddress == old(fs.curAddress) || fs.curAddress in PlaceLbas(fs.g, place'))
              && (ok ==> old(FindsRoom(fs.g, fs.fat, place, Records(secs), |e.New()|)))
              && (ok && Takes(Records(secs), e) ==> Inserted(Records(secs), Records(secs'), e, index))
    ensures && e.filename != []
            && old(FindsRoom(fs.g, fs.fat, place, Records(secs), |e.New()|))
            && (place' == place || |e.New()| <= PER_SECTOR * fs.g.sectorsPerCluster)
            ==> ok
    ensures FreeRun(Records(secs), 0, 0, 0, |e.New()|).At? ==> place' == place
  {
    hide Dir, PlaceLbas, Records, PlaceGrown, MayGrow, Inserted, Takes, FreeRun, Entry.New, Entry.Fits, Within,
         RootEntryOutcome, RootIsFull, FindsRoom;
    var entryCount := LfnEntries(e.filename);
    hide LfnEntries;
    if entryCount == 0 {
      PlaceUnchanged(fs.g, fs.fat, place);
      WithinNothing(fs.g, fs.media.sectors, PlaceLbas(fs.g, place));
      ok, place', secs', index := false, place, secs, 0;
    } else {
      ok, place', secs', index := AddNamedEntry(fs, dirCluster, e, place, secs);
    }
  }
}
