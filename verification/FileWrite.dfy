/** fl_fwrite: a file write replaces exactly the bytes it names. */
module FileWrite {

  import opened Words
  import opened FatEntries
  import opened Geometry
  import opened ChainDefs
  import opened Chains
  import opened FatTable
  import opened FileLayout
  import opened FileSpec
  import opened FileContent
  import opened FileSectors
  import opened FileLib

  /** A write inside one sector that does not fill it. */
  predicate Small(p: nat, n: nat) {
    0 < n < SECTOR_SIZE && p % SECTOR_SIZE + n <= SECTOR_SIZE
  }

  /** One round of the loop of fl_fwrite, at position 512 * sector + offset of the file.  It
      copies nothing only when there is no room, and leaves a sector in the buffer that there
      is no room for only with the last of the data. */
  method WriteStep(fs: Fatfs, file: FlFile, rest: seq<byte>, ghost len: nat, ghost goal: nat)
    returns (copyCount: int)
    requires fs.Valid() && fs.media.Reliable() && file.Buffered(fs)
    requires |rest| > 0
    requires file.byteNum <= len <= SECTOR_SIZE * |file.secs|
    requires SectorsFor(file.byteNum + |rest|) <= goal &&
             (goal <= Capacity(fs.g, fs.fat, file.chain) || NoSlack(fs.g, fs.fat))
    requires file.byteNum < WORD32
    requires file.dataDirty ==> SECTOR_SIZE * file.dataAddress < file.byteNum
    modifies fs`head, fs`next, fs`order, fs`slots, fs`view, fs`fat, fs`nextFree, fs.media
    modifies file`lookupIdx, file`lookupCluster, file`chain, file`dataDirty, file`secs, file`dataAddress,
             file`dataSector, file`byteNum
    ensures fs.Valid() && file.Held(fs) && Capacity(fs.g, fs.fat, file.chain) == old(Capacity(fs.g, fs.fat, file.chain))
    ensures 0 <= copyCount <= |rest| && file.byteNum == old(file.byteNum) + copyCount
    ensures goal <= Capacity(fs.g, fs.fat, file.chain) ==> copyCount > 0
    ensures goal <= Capacity(fs.g, fs.fat, file.chain) || copyCount < |rest| ==> file.Buffered(fs)
    ensures file.dataDirty ==> SECTOR_SIZE * file.dataAddress < file.byteNum
    ensures Wrote(fs.g, old(file.Snapshot(fs)), len, file.Snapshot(fs), Max(len, file.byteNum),
                  old(file.byteNum), rest[..copyCount], goal)
    ensures Small(old(file.byteNum), |rest|) && !old(file.dataDirty) ==>
              copyCount == |rest| && file.dataDirty && fs.OutsideFatUnchanged()
  {
    hide Fatfs.ValidWith, Decode, FlFile.Held, Capacity, Needed, Evolved, Rewritten, NoSlack;
    var sector := file.byteNum / SECTOR_SIZE;
    var offset := file.byteNum % SECTOR_SIZE;
    ghost var a := file.Snapshot(fs);
    if offset == 0 && |rest| >= SECTOR_SIZE {
      var written := WriteWhole(fs, file, sector, rest, |rest| / SECTOR_SIZE, len, goal);
      copyCount := SECTOR_SIZE * written;
    } else {
      copyCount := SECTOR_SIZE - offset;
      if copyCount > |rest| {
        copyCount := |rest|;
      }
      WritePart(fs, file, sector, offset, rest[..copyCount], len, goal);
    }
    EvolvedRoom(fs.g, a.fat, a.chain, a.sectors, fs.fat, file.chain, fs.media.sectors);
    file.byteNum := file.byteNum + copyCount;
  }

  lemma EvolvedRoom(g: Mounted, fat: seq<nat>, chain: seq<nat>, sectors: seq<Sector>, fat': seq<nat>, chain': seq<nat>,
                    sectors': seq<Sector>)
    requires Evolved(g, fat, chain, sectors, fat', chain', sectors')
    ensures |fat| == |fat'| == g.Entries() && Capacity(g, fat', chain') == Capacity(g, fat, chain)
    ensures NoSlack(g, fat) ==> NoSlack(g, fat')
  {
    GrownKeepsRest(g.fatType, fat, g.Limit(), chain, fat', chain');
  }

  /** The loop of fl_fwrite, and how much of the data it has taken when it ends. */
  method WriteLoop(fs: Fatfs, file: FlFile, data: seq<byte>, ghost len: nat, ghost goal: nat) returns (ghost taken: nat)
    requires fs.Valid() && fs.media.Reliable() && file.Buffered(fs)
    requires file.byteNum <= len <= SECTOR_SIZE * |file.secs|
    requires SectorsFor(file.byteNum + |data|) <= goal &&
             (goal <= Capacity(fs.g, fs.fat, file.chain) || NoSlack(fs.g, fs.fat))
    requires file.byteNum + |data| < WORD32
    requires file.dataDirty ==> SECTOR_SIZE * file.dataAddress < file.byteNum
    modifies fs`head, fs`next, fs`order, fs`slots, fs`view, fs`fat, fs`nextFree, fs.media
    modifies file`lookupIdx, file`lookupCluster, file`chain, file`dataDirty, file`secs, file`dataAddress,
             file`dataSector, file`byteNum
    ensures fs.Valid() && file.Held(fs) && Capacity(fs.g, fs.fat, file.chain) == old(Capacity(fs.g, fs.fat, file.chain))
    ensures taken <= |data| && file.byteNum == old(file.byteNum) + taken
    ensures goal <= Capacity(fs.g, fs.fat, file.chain) ==> taken == |data|
    ensures goal <= Capacity(fs.g, fs.fat, file.chain) || taken < |data| ==> file.Buffered(fs)
    ensures file.dataDirty ==> SECTOR_SIZE * file.dataAddress < file.byteNum
    ensures Wrote(fs.g, old(file.Snapshot(fs)), len, file.Snapshot(fs), Max(len, file.byteNum),
                  old(file.byteNum), data[..taken], goal)
    ensures Small(old(file.byteNum), |data|) && !old(file.dataDirty) ==> file.dataDirty && fs.OutsideFatUnchanged()
    ensures data == [] ==> file.dataDirty == old(file.dataDirty)
  {
    hide Fatfs.ValidWith, Decode, Capacity, Wrote, Content, Overwrite, SectorsFor, IsChain, Reserved, Coupled, NoSlack;
    ghost var start, p, room := file.Snapshot(fs), file.byteNum, Capacity(fs.g, fs.fat, file.chain);
    var bytesWritten := 0;
    WroteNothing(fs.g, start, len, p, goal);
    ghost var done := data[..0];
    taken := 0;
    hide FlFile.Held;
    while bytesWritten < |data|
      invariant 0 <= bytesWritten <= |data| && file.byteNum == p + bytesWritten && taken == bytesWritten
      invariant fs.Valid() && file.Held(fs) && Capacity(fs.g, fs.fat, file.chain) == room
      invariant goal <= room || bytesWritten < |data| ==> file.Buffered(fs)
      invariant goal <= room || NoSlack(fs.g, fs.fat)
      invariant file.dataDirty ==> SECTOR_SIZE * file.dataAddress < file.byteNum
      invariant Wrote(fs.g, start, len, file.Snapshot(fs), Max(len, file.byteNum), p, done, goal)
      invariant done == data[..bytesWritten]
      invariant bytesWritten == 0 ==> file.dataDirty == old(file.dataDirty) && fs.media.sectors == start.sectors
      invariant Small(p, |data|) && !old(file.dataDirty) && bytesWritten > 0 ==>
                  bytesWritten == |data| && file.dataDirty && fs.OutsideFatUnchanged()
    {
      ghost var before, now := file.Snapshot(fs), Max(len, file.byteNum);
      WroteKeepsRoom(fs.g, start, len, before, now, p, done, goal);
      var rest := data[bytesWritten..];
      assert file.byteNum + |rest| == p + |data|;
      var copyCount := WriteStep(fs, file, rest, now, goal);
      NextPiece(data, bytesWritten, copyCount);
      WroteRoom(fs.g, before, now, file.Snapshot(fs), Max(now, file.byteNum), p + |done|, rest[..copyCount], goal);
      WroteThen(fs.g, start, len, before, now, file.Snapshot(fs), Max(now, file.byteNum), p, done, rest[..copyCount],
                goal);
      done := data[..bytesWritten + copyCount];
      bytesWritten := bytesWritten + copyCount;
      taken := bytesWritten;
      if copyCount == 0 {
        break;
      }
    }
  }

  lemma WroteRoom(g: Mounted, a: Snap, len: nat, b: Snap, len': nat, p: nat, data: seq<byte>, goal: nat)
    requires Wrote(g, a, len, b, len', p, data, goal)
    ensures NoSlack(g, a.fat) ==> NoSlack(g, b.fat)
  {
    hide Evolved, Rewritten, Needed, NoSlack;
    EvolvedRoom(g, a.fat, a.chain, a.sectors, b.fat, b.chain, b.sectors);
  }

  /** What fl_fwrite has to write is there: the file holds the old bytes, overwritten by the data. */
  ghost predicate Holds(fs: Fatfs, file: FlFile, was: seq<byte>, p: nat, data: seq<byte>)
    requires p <= |was|
    reads fs`fat, fs.media`sectors, file`chain, file`startCluster, file`lookupIdx, file`lookupCluster
    reads file`dataSector, file`dataAddress, file`dataDirty, file`secs, file`byteNum, file`fileLength
  {
    file.Valid(fs) && file.Contents() == Overwrite(was, p, data)
  }

  /** No file holds more than there is room for. */
  lemma HoldsInRoom(fs: Fatfs, file: FlFile, was: seq<byte>, p: nat, data: seq<byte>)
    requires |fs.fat| == fs.g.Entries() && p <= |was|
    ensures Holds(fs, file, was, p, data) ==> SectorsFor(p + |data|) <= Capacity(fs.g, fs.fat, file.chain)
  {
    hide FlFile.Held, Content, Capacity;
    if Holds(fs, file, was, p, data) {
      assert file.fileLength == |Overwrite(was, p, data)| >= p + |data|;
    }
  }

  /** The rest of fl_fwrite, once the position is where the write begins: the loop, and the new
      length. */
  method WriteHere(fs: Fatfs, file: FlFile, data: seq<byte>) returns (ghost taken: nat)
    requires fs.Valid() && fs.media.Reliable() && file.Valid(fs) && file.byteNum + |data| < WORD32
    requires SectorsFor(file.byteNum + |data|) <= Capacity(fs.g, fs.fat, file.chain) || NoSlack(fs.g, fs.fat)
    modifies fs`head, fs`next, fs`order, fs`slots, fs`view, fs`fat, fs`nextFree, fs.media
    modifies file`lookupIdx, file`lookupCluster, file`chain, file`dataDirty, file`secs, file`dataAddress,
             file`dataSector
    modifies file`byteNum, file`fileLength, file`lengthChanged
    ensures fs.Valid() && file.Held(fs)
    ensures taken <= |data| && file.byteNum == old(file.byteNum) + taken && old(file.byteNum) <= |old(file.Contents())|
    ensures Holds(fs, file, old(file.Contents()), old(file.byteNum), data)
       <==> SectorsFor(old(file.byteNum) + |data|) <= old(Capacity(fs.g, fs.fat, file.chain))
    ensures SectorsFor(old(file.byteNum) + |data|) <= old(Capacity(fs.g, fs.fat, file.chain)) ==> taken == |data|
    ensures taken < |data| ==> Holds(fs, file, old(file.Contents()), old(file.byteNum), data[..taken])
    ensures Wrote(fs.g, old(file.Snapshot(fs)), old(file.fileLength), file.Snapshot(fs), file.fileLength,
                  old(file.byteNum), data[..taken], SectorsFor(old(file.byteNum) + |data|))
    ensures Small(old(file.byteNum), |data|) && !old(file.dataDirty) ==> file.dataDirty && fs.OutsideFatUnchanged()
    ensures data == [] ==> file.dataDirty == old(file.dataDirty)
    ensures file.lengthChanged <==> old(file.lengthChanged) || file.fileLength > old(file.fileLength)
  {
    hide Fatfs.ValidWith, Decode, FlFile.Held, Capacity, Wrote, Content, Overwrite, NoSlack, Small, SectorsFor,
         Volume.InFat;
    ghost var start, len, goal, p, was := file.Snapshot(fs), file.fileLength, SectorsFor(file.byteNum + |data|),
        file.byteNum, file.Contents();
    taken := WriteLoop(fs, file, data, file.fileLength, goal);
    WroteKeepsRoom(fs.g, start, len, file.Snapshot(fs), Max(len, file.byteNum), p, data[..taken], goal);
    if file.byteNum > file.fileLength {
      file.fileLength := file.byteNum;
      file.lengthChanged := true;
    }
    assert data[..|data|] == data;
    HoldsInRoom(fs, file, was, p, data);
  }

  /** fl_fwrite.  It reports all of the data as written whatever happens.  The file holds it,
      from the file position on and with nothing else changed, if and only if there is room for
      the result on the volume; otherwise some of it is lost.  A small write to a file with a
      clean buffer stays in the buffer. */
  method Write(fs: Fatfs, file: FlFile, data: seq<byte>) returns (r: int, ghost taken: nat)
    requires fs.Valid() && fs.media.Reliable() && file.Valid(fs)
    requires var p := if file.append then file.fileLength else file.byteNum;
             file.canWrite ==> p + |data| < WORD32 && (SectorsFor(p + |data|) <= Capacity(fs.g, fs.fat, file.chain) ||
                                                       NoSlack(fs.g, fs.fat))
    modifies fs`head, fs`next, fs`order, fs`slots, fs`view, fs`fat, fs`nextFree, fs.media
    modifies file`lookupIdx, file`lookupCluster, file`chain, file`dataDirty, file`secs, file`dataAddress,
             file`dataSector
    modifies file`byteNum, file`fileLength, file`lengthChanged
    ensures fs.Valid() && file.Held(fs)
    ensures !file.canWrite ==>
              && r == -1 && file.byteNum == old(file.byteNum) && file.fileLength == old(file.fileLength)
              && file.dataDirty == old(file.dataDirty) && file.Snapshot(fs) == old(file.Snapshot(fs)) && file.Valid(fs)
    ensures file.canWrite ==>
              var p := if file.append then old(file.fileLength) else old(file.byteNum);
              && r == |data| && taken <= |data| && file.byteNum == p + taken
              && p <= |old(file.Contents())|
              && (Holds(fs, file, old(file.Contents()), p, data) <==>
                  SectorsFor(p + |data|) <= old(Capacity(fs.g, fs.fat, file.chain)))
              && (SectorsFor(p + |data|) <= old(Capacity(fs.g, fs.fat, file.chain)) ==> taken == |data|)
              && (taken < |data| ==> Holds(fs, file, old(file.Contents()), p, data[..taken]))
              && Wrote(fs.g, old(file.Snapshot(fs)), old(file.fileLength), file.Snapshot(fs), file.fileLength, p,
                       data[..taken],
                       SectorsFor(p + |data|))
              && (Small(p, |data|) && !old(file.dataDirty) ==> file.dataDirty && fs.OutsideFatUnchanged())
              && (data == [] ==> file.dataDirty == old(file.dataDirty))
    ensures file.lengthChanged <==> old(file.lengthChanged) || file.fileLength > old(file.fileLength)
  {
    hide Fatfs.ValidWith, Decode, FlFile.Buffered, FlFile.Held, Capacity, Wrote, Content, Overwrite, NoSlack, Small,
         SectorsFor, Holds, Volume.InFat;
    taken := 0;
    ValidIsHeld(fs, file);
    if !file.canWrite {
      return -1, taken;
    }
    if file.append {
      file.byteNum := file.fileLength;
    }
    taken := WriteHere(fs, file, data);
    r := |data|;
  }

  lemma ValidIsHeld(fs: Fatfs, file: FlFile)
    requires file.Valid(fs)
    ensures file.Held(fs)
  {
    hide FlFile.Held;
  }
}
