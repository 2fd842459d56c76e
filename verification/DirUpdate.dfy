/** Finding a directory record by its short name, and changing it in place. */
module DirUpdate {

  import opened Words
  import opened FatEntries
  import opened Geometry
  import opened FatTable
  import opened DirRecords
  import opened DirLayout
  import opened DirShort
  import opened DirAccess

  /** Sector x of the directory is the current one, and may have been edited there. */
  ghost predicate Editing(fs: Fatfs, cluster: nat, place: Place, secs: seq<Sector>, x: nat)
    reads fs`slots, fs`next, fs`head, fs`order, fs`view, fs`fat, fs`curAddress, fs.media`sectors
  {
    && fs.Valid() && fs.media.Reliable()
    && IsPlace(fs.g, fs.fat, cluster, place)
    && Hold(fs.media.sectors, PlaceLbas(fs.g, place), secs)
    && x < |PlaceLbas(fs.g, place)| && fs.curAddress == PlaceLbas(fs.g, place)[x]
  }

  /** No sector outside the list, the FAT and FSInfo has changed. */
  ghost predicate Within(g: Mounted, before: seq<Sector>, after: seq<Sector>, lbas: seq<nat>) {
    |after| == |before| && forall l :: 0 <= l < |before| && !g.InMeta(l) && l !in lbas ==> after[l] == before[l]
  }

  lemma WithinNothing(g: Mounted, sectors: seq<Sector>, lbas: seq<nat>)
    ensures Within(g, sectors, sectors, lbas)
  {
  }

  lemma WithinTransitive(g: Mounted, a: seq<Sector>, b: seq<Sector>, c: seq<Sector>, lbas: seq<nat>, lbas': seq<nat>)
    requires Within(g, a, b, lbas) && Within(g, b, c, lbas') && lbas <= lbas'
    ensures Within(g, a, c, lbas')
  {
    assert forall l :: l in lbas ==> l in lbas';
  }

  /** Write the current sector back. */
  method WriteCurrent(fs: Fatfs, ghost cluster: nat, ghost place: Place, ghost secs: seq<Sector>, ghost x: nat)
    returns (ok: bool)
    requires Editing(fs, cluster, place, secs, x) && x < |secs|
    modifies fs.media
    ensures ok && Dir(fs, cluster, place, secs[x := fs.curSector])
    ensures Within(fs.g, old(fs.media.sectors), fs.media.sectors, PlaceLbas(fs.g, place))
  {
    PlaceLbasSound(fs.g, fs.fat, cluster, place);
    hide Fatfs.ValidWith, Decode, IsPlace, PlaceLbas, Volume.InFat;
    assert !fs.g.InFat(fs.curAddress);
    ok := fs.WriteOther(fs.curAddress, fs.curSector);
  }

  lemma DirLoaded(fs: Fatfs, cluster: nat, place: Place, secs: seq<Sector>, x: nat)
    requires Dir(fs, cluster, place, secs) && x < |PlaceLbas(fs.g, place)| && fs.curAddress == PlaceLbas(fs.g, place)[x]
    ensures Editing(fs, cluster, place, secs, x) && |secs| == |PlaceLbas(fs.g, place)|
  {
  }

  /** The loop over the records of one sector. */
  method FindShortInSector(sector: Sector, shortName: ShortName) returns (item: nat)
    ensures item <= PER_SECTOR && item == FirstShort(RecordsOf(sector), 0, shortName)
  {
    ghost var records := RecordsOf(sector);
    item := 0;
    while item < PER_SECTOR
      invariant 0 <= item <= PER_SECTOR
      invariant FirstShort(records, 0, shortName) == FirstShort(records, item, shortName)
    {
      var entry := RecordAt(sector, item);
      LiveOrNot(entry);
      if !IsLfnText(entry) && !IsInvalid(entry) {
        var same := SameShortName(Name(entry), shortName);
        if same {
          return;
        }
      }
      item := item + 1;
    }
  }

  lemma FirstShortIs(records: seq<Record>, from: nat, shortName: ShortName, i: nat)
    requires from <= i <= |records|
    requires i < |records| ==> Answers(records[i], shortName)
    requires forall j :: from <= j < i ==> !Answers(records[j], shortName)
    ensures FirstShort(records, from, shortName) == i
  {
  }

  lemma FirstShortSector(secs: seq<Sector>, x: nat, shortName: ShortName)
    requires x < |secs|
    ensures var k := FirstShort(RecordsOf(secs[x]), 0, shortName);
            FirstShort(Records(secs), PER_SECTOR * x, shortName) ==
            if k < PER_SECTOR then PER_SECTOR * x + k else FirstShort(Records(secs), PER_SECTOR * (x + 1), shortName)
  {
    hide Records, RecordAt, Answers;
    var records, k := Records(secs), FirstShort(RecordsOf(secs[x]), 0, shortName);
    forall i | 0 <= i < PER_SECTOR ensures records[PER_SECTOR * x + i] == RecordsOf(secs[x])[i] {
      RecordsIndex(secs, x, i);
    }
    forall j | PER_SECTOR * x <= j < PER_SECTOR * x + k ensures !Answers(records[j], shortName) {
      assert records[PER_SECTOR * x + (j - PER_SECTOR * x)] == RecordsOf(secs[x])[j - PER_SECTOR * x];
    }
    if k < PER_SECTOR {
      FirstShortIs(records, PER_SECTOR * x, shortName, PER_SECTOR * x + k);
    } else {
      FirstShortIs(records, PER_SECTOR * x, shortName, FirstShort(records, PER_SECTOR * (x + 1), shortName));
    }
  }

  /** The scan that fatfs_sfn_exists, fatfs_update_file_length and fatfs_mark_file_deleted
      share. */
  method FindShort(fs: Fatfs, cluster: nat, shortName: ShortName, ghost place: Place, ghost secs: seq<Sector>)
    returns (found: bool, item: nat, ghost x: nat)
    requires Dir(fs, cluster, place, secs)
    modifies fs`head, fs`next, fs`order, fs`slots, fs`curAddress, fs`curSector, fs.media
    ensures Dir(fs, cluster, place, secs) && fs.OutsideFatUnchanged()
    ensures fs.curAddress == old(fs.curAddress) || fs.curAddress in PlaceLbas(fs.g, place)
    ensures FirstShort(Records(secs), 0, shortName) == if found then PER_SECTOR * x + item else |Records(secs)|
    ensures found ==>
              && x < |secs| && item < PER_SECTOR && fs.curSector == secs[x]
              && x < |PlaceLbas(fs.g, place)| && fs.curAddress == PlaceLbas(fs.g, place)[x]
  {
    hide Dir, PlaceLbas, Records, FirstShort;
    found, item, x := false, 0, 0;
    var offset, read := 0, true;
    while read && !found
      invariant offset <= |secs|
      invariant Dir(fs, cluster, place, secs) && fs.OutsideFatUnchanged()
      invariant fs.curAddress == old(fs.curAddress) || fs.curAddress in PlaceLbas(fs.g, place)
      invariant FirstShort(Records(secs), 0, shortName) ==
                if found then PER_SECTOR * x + item else FirstShort(Records(secs), PER_SECTOR * offset, shortName)
      invariant !read ==> offset == |secs|
      invariant found ==> x < |secs| && item < PER_SECTOR && fs.curSector == secs[x]
      invariant found ==> x < |PlaceLbas(fs.g, place)| && fs.curAddress == PlaceLbas(fs.g, place)[x]
      decreases |secs| - offset, read
    {
      read := SectorReader(fs, cluster, offset, place, secs);
      if read {
        FirstShortSector(secs, offset, shortName);
        item := FindShortInSector(fs.curSector, shortName);
        found, x := item < PER_SECTOR, offset;
        offset := offset + 1;
      }
    }
  }

  /** fatfs_sfn_exists */
  method SfnExists(fs: Fatfs, cluster: nat, shortName: ShortName, ghost place: Place, ghost secs: seq<Sector>)
    returns (exists_: bool)
    requires Dir(fs, cluster, place, secs)
    modifies fs`head, fs`next, fs`order, fs`slots, fs`curAddress, fs`curSector, fs.media
    ensures Dir(fs, cluster, place, secs) && fs.OutsideFatUnchanged()
    ensures fs.curAddress == old(fs.curAddress) || fs.curAddress in PlaceLbas(fs.g, place)
    ensures exists_ <==> FirstShort(Records(secs), 0, shortName) < |Records(secs)|
  {
    hide Dir, PlaceLbas;
    var item;
    ghost var x;
    exists_, item, x := FindShort(fs, cluster, shortName, place, secs);
  }

  lemma RecordsPut(secs: seq<Sector>, x: nat, item: nat, r: Record)
    requires x < |secs| && item < PER_SECTOR
    ensures Records(secs[x := PutRecord(secs[x], item, r)]) == Records(secs)[PER_SECTOR * x + item := r]
  {
    var sector := PutRecord(secs[x], item, r);
    RecordsSplit(secs, x);
    RecordsSplit(secs[x := sector], x);
    PutRecordAt(secs[x], item, r);
    hide Records, RecordsOf, PutRecord;
    assert secs[x := sector][..x] == secs[..x] && secs[x := sector][x + 1..] == secs[x + 1..];
    assert |Records(secs[..x])| == PER_SECTOR * x;
  }

  /** Replace the record found by another and write its sector back. */
  method ReplaceRecord(fs: Fatfs, ghost cluster: nat, item: nat, r: Record, ghost place: Place,
                       ghost secs: seq<Sector>, ghost x: nat)
    returns (ok: bool, ghost secs': seq<Sector>)
    requires Dir(fs, cluster, place, secs) && x < |secs| && item < PER_SECTOR && fs.curSector == secs[x]
    requires x < |PlaceLbas(fs.g, place)| && fs.curAddress == PlaceLbas(fs.g, place)[x]
    modifies fs`curSector, fs.media
    ensures ok && Dir(fs, cluster, place, secs') && |secs'| == |secs|
    ensures Records(secs') == Records(secs)[PER_SECTOR * x + item := r]
    ensures Within(fs.g, old(fs.media.sectors), fs.media.sectors, PlaceLbas(fs.g, place))
  {
    DirLoaded(fs, cluster, place, secs, x);
    hide Dir, PlaceLbas, IsPlace, Hold, Records, PutRecord, Fatfs.ValidWith;
    fs.curSector := PutRecord(fs.curSector, item, r);
    RecordsPut(secs, x, item, r);
    secs' := secs[x := fs.curSector];
    ok := WriteCurrent(fs, cluster, place, secs, x);
  }

  /** fatfs_update_file_length */
  method UpdateFileLength(fs: Fatfs, cluster: nat, shortName: ShortName, fileLength: word32, ghost place: Place,
                          ghost secs: seq<Sector>)
    returns (ok: bool, ghost secs': seq<Sector>)
    requires Dir(fs, cluster, place, secs)
    modifies fs`head, fs`next, fs`order, fs`slots, fs`curAddress, fs`curSector, fs.media
    ensures Dir(fs, cluster, place, secs') && |secs'| == |secs|
    ensures fs.curAddress == old(fs.curAddress) || fs.curAddress in PlaceLbas(fs.g, place)
    ensures Within(fs.g, old(fs.media.sectors), fs.media.sectors, PlaceLbas(fs.g, place))
    ensures var records, i := Records(secs), FirstShort(Records(secs), 0, shortName);
            && (ok <==> i < |records|)
            && Records(secs') == if ok then records[i := WithSize(records[i], fileLength)] else records
  {
    hide Dir, PlaceLbas, Records, FirstShort, WithSize, Volume.InFat;
    var found, item;
    ghost var x;
    found, item, x := FindShort(fs, cluster, shortName, place, secs);
    ghost var middle := fs.media.sectors;
    assert Within(fs.g, old(fs.media.sectors), middle, PlaceLbas(fs.g, place));
    ok, secs' := false, secs;
    if found {
      RecordsIndex(secs, x, item);
      ok, secs' := ReplaceRecord(fs, cluster, item, WithSize(RecordAt(fs.curSector, item), fileLength), place, secs, x);
      hide Within;
      WithinTransitive(fs.g, old(fs.media.sectors), middle, fs.media.sectors, PlaceLbas(fs.g, place),
                       PlaceLbas(fs.g, place));
    }
  }

  /** fatfs_mark_file_deleted */
  method MarkFileDeleted(fs: Fatfs, cluster: nat, shortName: ShortName, ghost place: Place, ghost secs: seq<Sector>)
    returns (ok: bool, ghost secs': seq<Sector>)
    requires Dir(fs, cluster, place, secs)
    modifies fs`head, fs`next, fs`order, fs`slots, fs`curAddress, fs`curSector, fs.media
    ensures Dir(fs, cluster, place, secs') && |secs'| == |secs|
    ensures fs.curAddress == old(fs.curAddress) || fs.curAddress in PlaceLbas(fs.g, place)
    ensures Within(fs.g, old(fs.media.sectors), fs.media.sectors, PlaceLbas(fs.g, place))
    ensures var records, i := Records(secs), FirstShort(Records(secs), 0, shortName);
            && (ok <==> i < |records|)
            && Records(secs') == if ok then records[i := Deleted(records[i])] else records
  {
    hide Dir, PlaceLbas, Records, FirstShort, Deleted, Volume.InFat;
    var found, item;
    ghost var x;
    found, item, x := FindShort(fs, cluster, shortName, place, secs);
    ghost var middle := fs.media.sectors;
    assert Within(fs.g, old(fs.media.sectors), middle, PlaceLbas(fs.g, place));
    ok, secs' := false, secs;
    if found {
      RecordsIndex(secs, x, item);
      ok, secs' := ReplaceRecord(fs, cluster, item, Deleted(RecordAt(fs.curSector, item)), place, secs, x);
      hide Within;
      WithinTransitive(fs.g, old(fs.media.sectors), middle, fs.media.sectors, PlaceLbas(fs.g, place),
                       PlaceLbas(fs.g, place));
    }
  }
}
