/** fl_fread and fl_fseek: reading gives back the bytes of the file. */
module FileRead {

  import opened Words
  import opened FatEntries
  import opened Geometry
  import opened ChainDefs
  import opened FatTable
  import opened FileLayout
  import opened FileSpec
  import opened FileContent
  import opened FileSectors
  import opened FileLib

  /** The branch of fl_fread for whole sectors: read past the buffer.  A dirty sector in the
      buffer starts before the file position, so it is not one of them. */
  method ReadWhole(fs: Fatfs, file: FlFile, sector: nat, wanted: nat) returns (data: seq<byte>)
    requires fs.Valid() && fs.media.Reliable() && file.Buffered(fs)
    requires wanted > 0 && SECTOR_SIZE * (sector + wanted) <= file.fileLength <= SECTOR_SIZE * |file.secs|
    requires file.dataDirty ==> file.dataAddress < sector
    modifies fs`head, fs`next, fs`order, fs`slots, fs.media, file`lookupIdx, file`lookupCluster
    ensures fs.Valid() && file.Buffered(fs)
    ensures SECTOR_SIZE <= |data| <= SECTOR_SIZE * wanted && |data| % SECTOR_SIZE == 0
    ensures data == file.Contents()[SECTOR_SIZE * sector..SECTOR_SIZE * sector + |data|]
    ensures Evolved(fs.g, fs.fat, file.chain, old(fs.media.sectors), fs.fat, file.chain, fs.media.sectors)
  {
    hide Fatfs.ValidWith, Decode, IsChain, Reserved, Free, Volume.Span, Lbas, Capacity, Content;
    var got;
    got, data := ReadSectors(fs, file, sector, wanted);
    FatChangesOnly(fs.g, fs.fat, file.chain, old(fs.media.sectors), fs.media.sectors,
                   file.dataDirty, file.dataAddress, file.dataSector, file.secs);
    hide Evolved;
    FetchedIsLogical(fs.media.sectors, Lbas(fs.g, file.chain), file.dataDirty, file.dataAddress, file.dataSector,
                     file.secs, sector, got, data);
    ContentSlice(file.secs, file.fileLength, sector, got, data);
  }

  /** The branch of fl_fread for part of a sector: through the buffer. */
  method ReadPart(fs: Fatfs, file: FlFile, sector: nat, offset: nat, wanted: nat) returns (piece: seq<byte>)
    requires fs.Valid() && fs.media.Reliable() && file.Buffered(fs)
    requires 0 < wanted && offset + wanted <= SECTOR_SIZE && sector != LAST
    requires SECTOR_SIZE * sector + offset + wanted <= file.fileLength <= SECTOR_SIZE * |file.secs|
    modifies fs`head, fs`next, fs`order, fs`slots, fs`view, fs`fat, fs`nextFree, fs.media
    modifies file`lookupIdx, file`lookupCluster, file`chain, file`dataDirty, file`secs, file`dataAddress,
             file`dataSector
    ensures fs.Valid() && file.Buffered(fs)
    ensures old(file.secs) <= file.secs
    ensures file.dataDirty ==> old(file.dataDirty) && file.dataAddress == old(file.dataAddress) == sector
    ensures |piece| == wanted
    ensures piece == file.Contents()[SECTOR_SIZE * sector + offset..SECTOR_SIZE * sector + offset + wanted]
    ensures |file.chain| > old(|file.chain|) ==>
            old(file.dataDirty) && Needed(fs.g, |file.chain|, old(file.dataAddress) + 1)
    ensures Evolved(fs.g, old(fs.fat), old(file.chain), old(fs.media.sectors), fs.fat, file.chain, fs.media.sectors)
  {
    hide Fatfs.ValidWith, Decode, IsChain, Reserved, Free, Volume.Span, Lbas, Capacity, Content, Needed;
    if file.dataAddress != sector {
      if file.dataDirty {
        Flush(fs, file);
      }
      ghost var fat, chain, sectors := fs.fat, file.chain, fs.media.sectors;
      assert Evolved(fs.g, old(fs.fat), old(file.chain), old(fs.media.sectors), fat, chain, sectors);
      FillBuffer(fs, file, sector);
      hide Evolved;
      EvolvedTransitive(fs.g, old(fs.fat), old(file.chain), old(fs.media.sectors), fat, chain, sectors,
                        fs.fat, file.chain, fs.media.sectors);
    } else {
      EvolvedSame(fs.g, fs.fat, file.chain, fs.media.sectors);
    }
    hide Evolved;
    piece := file.dataSector[offset..offset + wanted];
    ContentPiece(file.secs, file.fileLength, sector, offset, wanted);
  }

  /** The transfer in one round of the loop of fl_fread: whole sectors, or part of one. */
  method ReadSome(fs: Fatfs, file: FlFile, wanted: nat, ghost goal: nat) returns (piece: seq<byte>)
    requires fs.Valid() && fs.media.Reliable() && file.Valid(fs)
    requires 0 < wanted && file.byteNum + wanted <= file.fileLength && goal == SectorsFor(file.fileLength)
    modifies fs`head, fs`next, fs`order, fs`slots, fs`view, fs`fat, fs`nextFree, fs.media
    modifies file`lookupIdx, file`lookupCluster, file`chain, file`dataDirty, file`secs, file`dataAddress,
             file`dataSector
    ensures fs.Valid() && file.Buffered(fs) && old(file.secs) <= file.secs
    ensures file.dataDirty ==> old(file.dataDirty) && SECTOR_SIZE * file.dataAddress < file.byteNum
    ensures 1 <= |piece| <= wanted
    ensures piece == file.Contents()[file.byteNum..file.byteNum + |piece|]
    ensures |file.chain| > old(|file.chain|) ==> Needed(fs.g, |file.chain|, goal)
    ensures Evolved(fs.g, old(fs.fat), old(file.chain), old(fs.media.sectors), fs.fat, file.chain, fs.media.sectors)
  {
    hide Fatfs.ValidWith, Decode, FlFile.Buffered, Capacity, Needed, Evolved, Content;
    var sector := file.byteNum / SECTOR_SIZE;
    var offset := file.byteNum % SECTOR_SIZE;
    if offset == 0 && wanted >= SECTOR_SIZE {
      piece := ReadWhole(fs, file, sector, wanted / SECTOR_SIZE);
    } else {
      var copyCount := SECTOR_SIZE - offset;
      if copyCount > wanted {
        copyCount := wanted;
      }
      piece := ReadPart(fs, file, sector, offset, copyCount);
      if old(file.dataDirty) {
        NeededMonotone(fs.g, |file.chain|, old(file.dataAddress) + 1, goal);
      }
    }
  }

  /** One round of the loop of fl_fread. */
  method ReadStep(fs: Fatfs, file: FlFile, wanted: nat) returns (piece: seq<byte>)
    requires fs.Valid() && fs.media.Reliable() && file.Valid(fs)
    requires 0 < wanted && file.byteNum + wanted <= file.fileLength
    modifies fs`head, fs`next, fs`order, fs`slots, fs`view, fs`fat, fs`nextFree, fs.media
    modifies file`lookupIdx, file`lookupCluster, file`chain, file`dataDirty, file`secs, file`dataAddress,
             file`dataSector, file`byteNum
    ensures fs.Valid() && file.Valid(fs) && (file.dataDirty ==> old(file.dataDirty))
    ensures 1 <= |piece| <= wanted && file.byteNum == old(file.byteNum) + |piece|
    ensures piece == old(file.Contents())[old(file.byteNum)..file.byteNum]
    ensures Wrote(fs.g, old(file.Snapshot(fs)), file.fileLength, file.Snapshot(fs), file.fileLength, 0, [],
                  SectorsFor(file.fileLength))
  {
    hide Fatfs.ValidWith, Decode, FlFile.Buffered, Needed, Evolved, Content, Wrote, SectorsFor;
    ghost var before, goal := file.Snapshot(fs), SectorsFor(file.fileLength);
    piece := ReadSome(fs, file, wanted, goal);
    ReadWroteNothing(fs.g, before, file.Snapshot(fs), file.fileLength, goal);
    file.byteNum := file.byteNum + |piece|;
  }

  /** fl_fread: the slice of the file from the file position on, up to `count` bytes. */
  method Read(fs: Fatfs, file: FlFile, count: nat) returns (r: int, data: seq<byte>)
    requires fs.Valid() && fs.media.Reliable() && file.Valid(fs)
    modifies fs`head, fs`next, fs`order, fs`slots, fs`view, fs`fat, fs`nextFree, fs.media
    modifies file`lookupIdx, file`lookupCluster, file`chain, file`dataDirty, file`secs, file`dataAddress,
             file`dataSector, file`byteNum
    ensures fs.Valid() && file.Valid(fs) && (file.dataDirty ==> old(file.dataDirty))
    ensures file.Contents() == old(file.Contents())
    ensures r == (if !file.canRead then -1
                  else if count == 0 then 0
                  else if old(file.byteNum) >= file.fileLength then -1
                  else if old(file.byteNum) + count > file.fileLength then file.fileLength - old(file.byteNum)
                  else count)
    ensures |data| == Max(0, if r < 0 then 0 else r)
    ensures r > 0 ==> data == file.Contents()[old(file.byteNum)..old(file.byteNum) + r]
    ensures file.byteNum == old(file.byteNum) + |data|
    ensures Wrote(fs.g, old(file.Snapshot(fs)), file.fileLength, file.Snapshot(fs), file.fileLength, 0, [],
                  SectorsFor(file.fileLength))
  {
    hide Fatfs.ValidWith, Decode, Capacity, Wrote, Content, Overwrite, SectorsFor, IsChain, Reserved, Coupled, Shortcut,
         Lbas;
    ghost var start, p, goal := file.Snapshot(fs), file.byteNum, SectorsFor(file.fileLength);
    WroteNothing(fs.g, start, file.fileLength, 0, goal);
    data := [];
    if !file.canRead {
      return -1, data;
    }
    if count == 0 {
      return 0, data;
    }
    if file.byteNum >= file.fileLength {
      return -1, data;
    }
    hide FlFile.Buffered;
    var limit := count;
    if file.byteNum + count > file.fileLength {
      limit := file.fileLength - file.byteNum;
    }
    ghost var content := file.Contents();
    var bytesRead := 0;
    while bytesRead < limit
      invariant 0 <= bytesRead <= limit && |data| == bytesRead && file.byteNum == p + bytesRead
      invariant fs.Valid() && file.Valid(fs) && (file.dataDirty ==> old(file.dataDirty))
      invariant file.Contents() == content && data == content[p..p + bytesRead]
      invariant Wrote(fs.g, start, file.fileLength, file.Snapshot(fs), file.fileLength, 0, [], goal)
    {
      ghost var before := file.Snapshot(fs);
      var piece := ReadStep(fs, file, limit - bytesRead);
      NothingThenNothing(fs.g, start, before, file.Snapshot(fs), file.fileLength, goal);
      data := data + piece;
      bytesRead := bytesRead + |piece|;
    }
    r := bytesRead;
  }

  /** The origins fl_fseek knows, and any other value. */
  datatype Origin = SeekSet | SeekCur | SeekEnd | NoOrigin

  /** Where fl_fseek moves to, before the position is clipped to the file.  Positions are
      32-bit, so an absolute one that is negative, or a forward move past 2^32, wraps first. */
  function SeekTarget(from: nat, length: nat, offset: int, origin: Origin): int {
    match origin
    case SeekSet => offset % WORD32
    case SeekCur => if offset >= 0 then (from + offset) % WORD32 else from + offset
    case SeekEnd => length
    case NoOrigin => from
  }

  function Clipped(target: int, length: nat): nat {
    if target < 0 then 0 else if target > length then length else target
  }

  /** Where a seek leads: an offset within the file counts from the beginning, from the position or
      from the end, and one that leads out of it stops at its edge. */
  lemma SeekLeads(from: nat, length: nat, offset: int)
    requires from <= length < 0x8000_0000 && -0x8000_0000 <= offset < 0x8000_0000
    ensures 0 <= offset <= length ==> Clipped(SeekTarget(from, length, offset, SeekSet), length) == offset
    ensures length < offset ==> Clipped(SeekTarget(from, length, offset, SeekSet), length) == length
    ensures offset < 0 ==> Clipped(SeekTarget(from, length, offset, SeekSet), length) == length
    ensures 0 <= from + offset <= length ==>
            Clipped(SeekTarget(from, length, offset, SeekCur), length) == from + offset
    ensures from + offset < 0 ==> Clipped(SeekTarget(from, length, offset, SeekCur), length) == 0
    ensures length < from + offset ==> Clipped(SeekTarget(from, length, offset, SeekCur), length) == length
    ensures Clipped(SeekTarget(from, length, 0, SeekEnd), length) == length
  {
    if offset < 0 {
      assert offset % WORD32 == offset + WORD32;
    }
  }

  /** The branches of fl_fseek. */
  method NewPosition(from: nat, length: nat, offset: int, origin: Origin) returns (pos: nat)
    requires from <= length
    ensures pos == Clipped(SeekTarget(from, length, offset, origin), length)
    ensures origin == NoOrigin ==> pos == from
  {
    match origin
    case SeekSet =>
      pos := offset % WORD32;
      if pos > length {
        pos := length;
      }
    case SeekCur =>
      if offset >= 0 {
        pos := (from + offset) % WORD32;
        if pos > length {
          pos := length;
        }
      } else {
        var back := -offset;
        pos := if back > from then 0 else from - back;
      }
    case SeekEnd =>
      pos := length;
    case NoOrigin =>
      pos := from;
  }

  /** The sector in the buffer is on the medium already. */
  ghost predicate OnDisk(sectors: seq<Sector>, lbas: seq<nat>, address: nat, buffer: Sector) {
    address < |lbas| && lbas[address] < |sectors| && sectors[lbas[address]] == buffer
  }

  /** Forgetting a dirty buffer leaves the medium with the logical sectors exactly when the
      buffered one is there already. */
  lemma DropExactly(sectors: seq<Sector>, lbas: seq<nat>, dirty: bool, address: nat, buffer: Sector, secs: seq<Sector>)
    requires Coupled(sectors, lbas, dirty, address, buffer, secs)
    ensures Coupled(sectors, lbas, false, LAST, buffer, secs) <==> !dirty || OnDisk(sectors, lbas, address, buffer)
  {
  }

  /** fl_fseek: the position moves to where it is asked to, clipped to the file.  The buffer
      is dropped, and the file is as it was exactly if that held nothing unwritten. */
  method Seek(fs: Fatfs, file: FlFile, offset: int, origin: Origin) returns (r: int)
    requires fs.Valid() && file.Valid(fs)
    modifies file`byteNum, file`dataAddress, file`dataDirty
    ensures fs.Valid() && file.Contents() == old(file.Contents())
    ensures r == if (origin == SeekEnd && offset != 0) || origin == NoOrigin then -1 else 0
    ensures file.byteNum == if r == 0 then Clipped(SeekTarget(old(file.byteNum), file.fileLength, offset, origin),
                                                   file.fileLength)
                            else old(file.byteNum)
    ensures origin == SeekEnd && offset != 0 ==> file.Valid(fs) && file.dataDirty == old(file.dataDirty)
    ensures !(origin == SeekEnd && offset != 0) ==>
              && AllClusters(fs.g, file.chain) && !file.dataDirty
              && (file.Valid(fs) <==>
                  !old(file.dataDirty) || OnDisk(fs.media.sectors, Lbas(fs.g, file.chain), old(file.dataAddress),
                                                 file.dataSector))
  {
    hide Fatfs.ValidWith, Decode, FlFile.OnChain, AllClusters, Capacity, SeekTarget, Lbas;
    r := -1;
    if origin == SeekEnd && offset != 0 {
      return;
    }
    DropExactly(fs.media.sectors, Lbas(fs.g, file.chain), file.dataDirty, file.dataAddress, file.dataSector, file.secs);
    hide Coupled, OnDisk;
    file.dataAddress := LAST;
    file.dataDirty := false;
    file.byteNum := NewPosition(file.byteNum, file.fileLength, offset, origin);
    r := if origin == NoOrigin then -1 else 0;
  }
}
