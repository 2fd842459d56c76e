/** Appending to an open file, and closing it. */
module FileClose {

  import opened Words
  import opened FatEntries
  import opened Geometry
  import opened ChainDefs
  import opened FatTable
  import opened FileLayout
  import opened FileSpec
  import opened FileContent
  import opened FileSectors
  import opened FileLib
  import opened FileWrite
  import opened DirRecords
  import opened DirShort
  import opened DirLayout
  import opened DirAccess
  import opened DirUpdate
  import opened FileState
  import opened FileOpen

  /** A call between fl_fopen and fl_fclose. */
  datatype Op = Append(data: seq<byte>) | FlushBuffer {
    function Data(): seq<byte> {
      if Append? then data else []
    }
  }

  /** Whatever the calls do to the file, it stays an open file of its directory. */
  lemma StaysOpen(fs: Fatfs, file: FlFile, cluster: nat, place: Place, dirSecs: seq<Sector>, index: nat, a: Snap)
    requires fs.Valid() && fs.media.Reliable() && file.Valid(fs)
    requires DirAs(fs.g, a.fat, a.sectors, fs.curAddress, fs.curSector, cluster, place, dirSecs) &&
             Apart(place, a.chain)
    requires Evolved(fs.g, a.fat, a.chain, a.sectors, fs.fat, file.chain, fs.media.sectors)
    requires file.parentCluster == cluster
    requires index < |Records(dirSecs)| && Recorded(Records(dirSecs), index, file.shortName, file.startCluster)
    requires !file.lengthChanged ==> Size(Records(dirSecs)[index]) == file.fileLength
    ensures OpenAs(fs, file, cluster, place, dirSecs, index)
  {
    hide Fatfs.Valid, FlFile.Valid, DirAs, Apart, Evolved, Recorded, Records;
    EvolvedKeepsDir(fs.g, a, file.Snapshot(fs), fs.curAddress, fs.curSector, cluster, place, dirSecs);
  }

  lemma WroteGoal(g: Mounted, a: Snap, len: nat, b: Snap, len': nat, p: nat, data: seq<byte>, goal: nat, more: nat)
    requires Wrote(g, a, len, b, len', p, data, goal) && goal <= more
    ensures Wrote(g, a, len, b, len', p, data, more)
  {
    NeededMonotone(g, |b.chain|, goal, more);
  }

  /** fl_fflush writes nothing new. */
  method FlushOpen(fs: Fatfs, file: FlFile, ghost goal: nat)
    requires fs.Valid() && fs.media.Reliable() && file.Valid(fs)
    requires SectorsFor(file.fileLength) <= goal
    modifies fs`head, fs`next, fs`order, fs`slots, fs`view, fs`fat, fs`nextFree, fs.media
    modifies file`lookupIdx, file`lookupCluster, file`chain, file`dataDirty, file`secs
    ensures fs.Valid() && file.Valid(fs) && !file.dataDirty
    ensures Wrote(fs.g, old(file.Snapshot(fs)), file.fileLength, file.Snapshot(fs), file.fileLength, file.fileLength,
                  [], goal)
  {
    hide Fatfs.ValidWith, Decode, FlFile.Buffered, Capacity, Needed, Evolved, Content, Rewritten;
    Flush(fs, file);
    if old(file.dataDirty) {
      NeededMonotone(fs.g, |file.chain|, old(file.dataAddress) + 1, goal);
    }
    RewrittenNothing(old(file.secs), file.fileLength, file.secs, file.fileLength);
  }

  /** One call on a file opened for appending. */
  method DoOp(fs: Fatfs, file: FlFile, op: Op, ghost goal: nat)
    requires fs.Valid() && fs.media.Reliable() && file.Valid(fs) && file.canWrite && file.append
    requires file.fileLength + |op.Data()| < WORD32
    requires SectorsFor(file.fileLength + |op.Data()|) <= goal <= Capacity(fs.g, fs.fat, file.chain)
    modifies fs`head, fs`next, fs`order, fs`slots, fs`view, fs`fat, fs`nextFree, fs.media
    modifies file`lookupIdx, file`lookupCluster, file`chain, file`dataDirty, file`secs, file`dataAddress,
             file`dataSector
    modifies file`byteNum, file`fileLength, file`lengthChanged
    ensures fs.Valid() && file.Valid(fs)
    ensures file.fileLength == old(file.fileLength) + |op.Data()|
    ensures old(file.lengthChanged) ==> file.lengthChanged
    ensures file.lengthChanged || file.fileLength == old(file.fileLength)
    ensures Wrote(fs.g, old(file.Snapshot(fs)), old(file.fileLength), file.Snapshot(fs), file.fileLength,
                  old(file.fileLength), op.Data(), goal)
  {
    hide Fatfs.ValidWith, Decode, FlFile.Buffered, Capacity, Wrote, Content, Overwrite, SectorsFor;
    match op
    case Append(data) =>
      var r;
      ghost var taken;
      r, taken := Write(fs, file, data);
      assert data[..taken] == data;
      WroteGoal(fs.g, old(file.Snapshot(fs)), old(file.fileLength), file.Snapshot(fs), file.fileLength,
                old(file.fileLength), data,
                SectorsFor(old(file.fileLength) + |data|), goal);
      WroteLength(fs.g, old(file.Snapshot(fs)), old(file.fileLength), file.Snapshot(fs), file.fileLength,
                  old(file.fileLength), data, goal);
    case FlushBuffer =>
      FlushOpen(fs, file, goal);
  }

  lemma WroteLength(g: Mounted, a: Snap, len: nat, b: Snap, len': nat, p: nat, data: seq<byte>, goal: nat)
    requires Wrote(g, a, len, b, len', p, data, goal)
    ensures len' == Max(len, p + |data|)
  {
  }

  function Flat(ops: seq<Op>): seq<byte> {
    if ops == [] then [] else Flat(ops[..|ops| - 1]) + ops[|ops| - 1].Data()
  }

  lemma {:induction false} FlatPrefix(ops: seq<Op>, i: nat)
    requires i <= |ops|
    ensures |Flat(ops[..i])| <= |Flat(ops)|
  {
    if i < |ops| {
      FlatPrefix(ops[..|ops| - 1], i);
      assert ops[..|ops| - 1][..i] == ops[..i];
    } else {
      assert ops[..i] == ops;
    }
  }

  lemma FlatNext(ops: seq<Op>, i: nat)
    requires i < |ops|
    ensures Flat(ops[..i + 1]) == Flat(ops[..i]) + ops[i].Data()
    ensures |Flat(ops[..i])| + |ops[i].Data()| <= |Flat(ops)|
  {
    assert ops[..i + 1][..i] == ops[..i];
    FlatPrefix(ops, i + 1);
  }

  lemma SectorsForMonotone(a: nat, b: nat)
    requires a <= b
    ensures SectorsFor(a) <= SectorsFor(b)
  {
  }

  /** The first i of the calls have been made on the file that was `len` bytes long. */
  ghost predicate Appended(fs: Fatfs, file: FlFile, start: Snap, len: nat, data: seq<byte>, goal: nat)
    reads fs`slots, fs`next, fs`head, fs`order, fs`view, fs`fat, fs.media`sectors, file
  {
    && fs.Valid() && fs.media.Reliable() && file.Valid(fs) && file.canWrite && file.append
    && file.fileLength == len + |data|
    && (file.lengthChanged || file.fileLength == len)
    && Wrote(fs.g, start, len, file.Snapshot(fs), file.fileLength, len, data, goal)
  }

  method DoNextOp(fs: Fatfs, file: FlFile, ops: seq<Op>, i: nat, ghost start: Snap, ghost len: nat, ghost goal: nat)
    requires i < |ops| && Appended(fs, file, start, len, Flat(ops[..i]), goal)
    requires |start.fat| == fs.g.Entries()
    requires goal == SectorsFor(len + |Flat(ops)|) <= Capacity(fs.g, start.fat, start.chain) &&
             len + |Flat(ops)| < WORD32
    modifies fs`head, fs`next, fs`order, fs`slots, fs`view, fs`fat, fs`nextFree, fs.media
    modifies file`lookupIdx, file`lookupCluster, file`chain, file`dataDirty, file`secs, file`dataAddress,
             file`dataSector
    modifies file`byteNum, file`fileLength, file`lengthChanged
    ensures Appended(fs, file, start, len, Flat(ops[..i + 1]), goal)
    ensures old(file.lengthChanged) ==> file.lengthChanged
  {
    hide Fatfs.Valid, FlFile.Valid, Capacity, Wrote, Flat, SectorsFor;
    ghost var before, now := file.Snapshot(fs), file.fileLength;
    WroteKeepsRoom(fs.g, start, len, before, now, len, Flat(ops[..i]), goal);
    FlatNext(ops, i);
    SectorsForMonotone(now + |ops[i].Data()|, len + |Flat(ops)|);
    DoOp(fs, file, ops[i], goal);
    WroteThen(fs.g, start, len, before, now, file.Snapshot(fs), file.fileLength, len, Flat(ops[..i]), ops[i].Data(),
              goal);
  }

  lemma AppendedNothing(fs: Fatfs, file: FlFile, goal: nat)
    requires fs.Valid() && fs.media.Reliable() && file.Valid(fs) && file.canWrite && file.append
    ensures |fs.fat| == fs.g.Entries() && Appended(fs, file, file.Snapshot(fs), file.fileLength, [], goal)
  {
    hide Fatfs.ValidWith, Decode, Wrote, Capacity;
    WroteNothing(fs.g, file.Snapshot(fs), file.fileLength, file.fileLength, goal);
  }

  /** Any number of writes of any sizes, with flushes in between: the data lie one after the
      other behind what was there. */
  method DoOps(fs: Fatfs, file: FlFile, ops: seq<Op>)
    requires fs.Valid() && fs.media.Reliable() && file.Valid(fs) && file.canWrite && file.append
    requires file.fileLength + |Flat(ops)| < WORD32
    requires SectorsFor(file.fileLength + |Flat(ops)|) <= Capacity(fs.g, fs.fat, file.chain)
    modifies fs`head, fs`next, fs`order, fs`slots, fs`view, fs`fat, fs`nextFree, fs.media
    modifies file`lookupIdx, file`lookupCluster, file`chain, file`dataDirty, file`secs, file`dataAddress,
             file`dataSector
    modifies file`byteNum, file`fileLength, file`lengthChanged
    ensures old(file.lengthChanged) ==> file.lengthChanged
    ensures Appended(fs, file, old(file.Snapshot(fs)), old(file.fileLength), Flat(ops), SectorsFor(file.fileLength))
  {
    hide Fatfs.Valid, FlFile.Valid, Capacity, Appended, Flat, SectorsFor;
    ghost var start, len, goal := file.Snapshot(fs), file.fileLength, SectorsFor(file.fileLength + |Flat(ops)|);
    AppendedNothing(fs, file, goal);
    FlatNothing(ops);
    var i := 0;
    while i < |ops|
      invariant 0 <= i <= |ops|
      invariant Appended(fs, file, start, len, Flat(ops[..i]), goal)
      invariant old(file.lengthChanged) ==> file.lengthChanged
    {
      DoNextOp(fs, file, ops, i, start, len, goal);
      i := i + 1;
    }
    assert ops[..i] == ops;
    AppendedLength(fs, file, start, len, Flat(ops), goal);
  }

  lemma AppendedLength(fs: Fatfs, file: FlFile, start: Snap, len: nat, data: seq<byte>, goal: nat)
    requires Appended(fs, file, start, len, data, goal)
    ensures file.fileLength == len + |data|
  {
  }

  lemma FlatNothing(ops: seq<Op>)
    ensures Flat(ops[..0]) == []
  {
  }

  /* ----------- closing ----------- */

  lemma WithSameSize(r: Record)
    ensures WithSize(r, Size(r)) == r
  {
    StoreLoad(r, 28, 4);
  }

  /** The directory as it is once the length has been recorded in it. */
  ghost predicate LengthRecorded(records: seq<Record>, index: nat, len: nat, records': seq<Record>) {
    index < |records| && len < WORD32 && records' == records[index := WithSize(records[index], len)]
  }

  lemma RecordedAgain(records: seq<Record>, index: nat, shortName: ShortName, start: nat, len: word32)
    requires Recorded(records, index, shortName, start)
    ensures Recorded(records[index := WithSize(records[index], len)], index, shortName, start)
    ensures Size(records[index := WithSize(records[index], len)][index]) == len
  {
    WithSizeFields(records[index], len);
    SizeKeepsUnique(records, index, len);
    hide WithSize, ShortUnique, IsLive, IsFile;
  }

  /** Everything of a clean open file is on the medium, so with its length recorded it is at rest. */
  lemma OpenRests(fs: Fatfs, file: FlFile, before: seq<Sector>, cluster: nat, place: Place, dirSecs': seq<Sector>,
                  index: nat)
    requires |before| == |fs.media.sectors|
    requires Owns(fs.g, fs.fat, file.chain) && AllClusters(fs.g, file.chain) && file.chain[0] == file.startCluster
    requires Coupled(before, Lbas(fs.g, file.chain), false, file.dataAddress, file.dataSector, file.secs)
    requires IsPlace(fs.g, fs.fat, cluster, place) && Apart(place, file.chain)
    requires Within(fs.g, before, fs.media.sectors, PlaceLbas(fs.g, place))
    requires file.fileLength <= SECTOR_SIZE * |file.secs|
    requires index < |Records(dirSecs')| && Recorded(Records(dirSecs'), index, file.shortName, file.startCluster)
    requires Size(Records(dirSecs')[index]) == file.fileLength
    ensures FileAs(fs.g, fs.fat, fs.media.sectors, Desk(place, dirSecs', index, file.chain, file.secs, file.Contents()))
  {
    hide Records, ShortUnique, IsLive, IsFile, Lbas, PlaceLbas, IsPlace, Apart, IsChain, AllClusters, Reserved, Content,
         Coupled, Within;
    CoupledIsHold(before, Lbas(fs.g, file.chain), file.dataAddress, file.dataSector, file.secs);
    WithinKeepsFile(fs.g, fs.fat, cluster, place, file.chain, before, fs.media.sectors, file.secs);
  }

  lemma OpenParts(fs: Fatfs, file: FlFile, cluster: nat, place: Place, dirSecs: seq<Sector>, index: nat)
    requires OpenAs(fs, file, cluster, place, dirSecs, index)
    ensures DirOf(fs, cluster, place, dirSecs) && Dir(fs, cluster, place, dirSecs)
    ensures fs.curAddress == LAST || fs.curAddress in PlaceLbas(fs.g, place)
    ensures IsPlace(fs.g, fs.fat, cluster, place) && Apart(place, file.chain) && file.parentCluster == cluster
    ensures Owns(fs.g, fs.fat, file.chain) && AllClusters(fs.g, file.chain) && file.chain[0] == file.startCluster
    ensures Coupled(fs.media.sectors, Lbas(fs.g, file.chain), file.dataDirty, file.dataAddress, file.dataSector,
                    file.secs)
    ensures file.fileLength <= SECTOR_SIZE * |file.secs| && file.fileLength < WORD32
    ensures index < |Records(dirSecs)| && Recorded(Records(dirSecs), index, file.shortName, file.startCluster)
    ensures !file.lengthChanged ==> Size(Records(dirSecs)[index]) == file.fileLength
  {
    DirOfIsDir(fs, cluster, place, dirSecs);
  }

  /** The part of fl_fclose that brings the length in the directory up to date. */
  method RecordLength(fs: Fatfs, file: FlFile, ghost cluster: nat, ghost place: Place, ghost dirSecs: seq<Sector>,
                      ghost index: nat)
    returns (ghost dirSecs': seq<Sector>)
    requires OpenAs(fs, file, cluster, place, dirSecs, index) && !file.dataDirty
    modifies fs`head, fs`next, fs`order, fs`slots, fs`curAddress, fs`curSector, fs.media, file`lengthChanged
    ensures DirOf(fs, cluster, place, dirSecs')
    ensures LengthRecorded(Records(dirSecs), index, file.fileLength, Records(dirSecs'))
    ensures file.fileLength <= SECTOR_SIZE * |file.secs|
    ensures FileAs(fs.g, fs.fat, fs.media.sectors, Desk(place, dirSecs', index, file.chain, file.secs, file.Contents()))
    ensures Within(fs.g, old(fs.media.sectors), fs.media.sectors, PlaceLbas(fs.g, place))
  {
    hide OpenAs, DirOf, Dir, FlFile.Valid, Fatfs.ValidWith, Decode, Records, Recorded, PlaceLbas, Lbas, IsPlace, Apart,
         AllClusters, Owns, Coupled, Within, FileAs, Content, WithSize, FirstShort;
    OpenParts(fs, file, cluster, place, dirSecs, index);
    RecordedFirst(Records(dirSecs), index, file.shortName, file.startCluster);
    RecordedAgain(Records(dirSecs), index, file.shortName, file.startCluster, file.fileLength);
    ghost var before := fs.media.sectors;
    if file.lengthChanged {
      var ok;
      ok, dirSecs' := UpdateFileLength(fs, file.parentCluster, file.shortName, file.fileLength, place, dirSecs);
      file.lengthChanged := false;
    } else {
      dirSecs' := dirSecs;
      WithSameSize(Records(dirSecs)[index]);
      WithinNothing(fs.g, before, PlaceLbas(fs.g, place));
    }
    DirIsDirOf(fs, cluster, place, dirSecs');
    WithinLength(fs.g, before, fs.media.sectors, PlaceLbas(fs.g, place));
    OpenRests(fs, file, before, cluster, place, dirSecs', index);
  }

  lemma WithinLength(g: Mounted, a: seq<Sector>, b: seq<Sector>, lbas: seq<nat>)
    requires Within(g, a, b, lbas)
    ensures |a| == |b|
  {
  }

  lemma RecordedFirst(records: seq<Record>, index: nat, shortName: ShortName, start: nat)
    requires Recorded(records, index, shortName, start)
    ensures index < |records| && FirstShort(records, 0, shortName) == index
  {
    FirstShortOf(records, index);
  }
}
