/** The buffered file operations. */
module FileLib {

  import opened Words
  import opened FatEntries
  import opened Geometry
  import opened ChainDefs
  import opened Chains
  import opened FatTable
  import opened FileLayout
  import opened FileSpec
  import opened FileContent
  import opened FileSectors

  /** fl_fflush */
  method Flush(fs: Fatfs, file: FlFile)
    requires fs.Valid() && fs.media.Reliable()
    requires file.Buffered(fs)
    modifies fs`head, fs`next, fs`order, fs`slots, fs`view, fs`fat, fs`nextFree, fs.media
    modifies file`lookupIdx, file`lookupCluster, file`chain, file`dataDirty, file`secs
    ensures fs.Valid() && file.Buffered(fs) && !file.dataDirty
    ensures old(file.secs) <= file.secs
    ensures !old(file.dataDirty) ==> file.secs == old(file.secs) && file.chain == old(file.chain)
    ensures |file.chain| > old(|file.chain|) ==> Needed(fs.g, |file.chain|, old(file.dataAddress) + 1)
    ensures Evolved(fs.g, old(fs.fat), old(file.chain), old(fs.media.sectors), fs.fat, file.chain, fs.media.sectors)
  {
    hide Fatfs.ValidWith, Decode, IsChain, Reserved, Free, Volume.Span, Stored, Needed, Lbas;
    if file.dataDirty {
      ghost var before, lbas := fs.media.sectors, Lbas(fs.g, file.chain);
      var written := WriteSectors(fs, file, file.dataAddress, file.dataSector, 1);
      LbasPrefix(fs.g, old(file.chain), file.chain);
      AllocatedFits(fs.g, fs.fat, file.chain);
      StoredEvolves(fs.g, old(fs.fat), old(file.chain), before, fs.fat, file.chain, fs.media.sectors, file.dataAddress,
                    1, file.dataSector);
      hide Evolved, Coupled, Grown, Capacity;
      file.secs := CoupledAfterFlush(fs.g, before, fs.media.sectors, lbas, Lbas(fs.g, file.chain), file.dataAddress,
                                     file.dataSector, file.secs);
      if written != 0 {
        file.dataDirty := false;
      }
    } else {
      EvolvedSame(fs.g, fs.fat, file.chain, fs.media.sectors);
    }
  }

  /** Flush the sector buffer and forget the sector in it. */
  method EmptyBuffer(fs: Fatfs, file: FlFile)
    requires fs.Valid() && fs.media.Reliable() && file.Buffered(fs)
    modifies fs`head, fs`next, fs`order, fs`slots, fs`view, fs`fat, fs`nextFree, fs.media
    modifies file`lookupIdx, file`lookupCluster, file`chain, file`dataDirty, file`secs, file`dataAddress
    ensures fs.Valid() && file.Buffered(fs) && !file.dataDirty && file.dataAddress == LAST
    ensures old(file.secs) <= file.secs
    ensures |file.chain| >= old(|file.chain|)
    ensures |file.chain| > old(|file.chain|) ==>
            old(file.dataDirty) && Needed(fs.g, |file.chain|, old(file.dataAddress) + 1)
    ensures Evolved(fs.g, old(fs.fat), old(file.chain), old(fs.media.sectors), fs.fat, file.chain, fs.media.sectors)
  {
    hide Fatfs.ValidWith, Decode, IsChain, Reserved, FreeCount, Volume.Span, Content;
    if file.dataAddress != LAST {
      if file.dataDirty {
        Flush(fs, file);
      }
      file.dataAddress := LAST;
      file.dataDirty := false;
    }
  }

  /** Write sectors past an empty buffer, unless there is no room for them. */
  method WriteAround(fs: Fatfs, file: FlFile, sector: nat, buf: seq<byte>, wanted: nat, ghost len: nat)
    returns (written: int)
    requires fs.Valid() && fs.media.Reliable() && file.Buffered(fs)
    requires !file.dataDirty && file.dataAddress == LAST
    requires wanted > 0 && SECTOR_SIZE * wanted <= |buf|
    requires SECTOR_SIZE * sector <= len <= SECTOR_SIZE * |file.secs|
    requires sector + wanted <= Capacity(fs.g, fs.fat, file.chain) || NoSlack(fs.g, fs.fat)
    modifies fs`head, fs`next, fs`order, fs`slots, fs`view, fs`fat, fs`nextFree, fs.media
    modifies file`lookupIdx, file`lookupCluster, file`chain, file`secs
    ensures fs.Valid() && file.Buffered(fs)
    ensures 0 <= written <= wanted && (written == 0 ==> sector + wanted > Capacity(fs.g, fs.fat, file.chain))
    ensures Rewritten(old(file.secs), len, file.secs, Max(len, SECTOR_SIZE * (sector + written)),
                      SECTOR_SIZE * sector, buf[..SECTOR_SIZE * written])
    ensures |file.chain| > old(|file.chain|) ==> Needed(fs.g, |file.chain|, sector + wanted)
    ensures Evolved(fs.g, old(fs.fat), old(file.chain), old(fs.media.sectors), fs.fat, file.chain, fs.media.sectors)
  {
    hide Fatfs.ValidWith, Decode, IsChain, Reserved, FreeCount, Volume.Span, Content, Overwrite, Needed, NoSlack,
         Capacity, Stored, SectorsReplaced, Rewritten;
    ghost var chain, sectors, secs := file.chain, fs.media.sectors, file.secs;
    written := WriteSectors(fs, file, sector, buf, wanted);
    LbasPrefix(fs.g, chain, file.chain);
    AllocatedFits(fs.g, fs.fat, file.chain);
    StoredEvolves(fs.g, old(fs.fat), chain, sectors, fs.fat, file.chain, fs.media.sectors, sector, written, buf);
    hide Evolved, Grown;
    file.secs := CoupledAfterWrite(fs.g, sectors, fs.media.sectors, Lbas(fs.g, chain), Lbas(fs.g, file.chain),
                                   sector, written, buf, file.dataSector, secs);
    ContentReplaced(secs, file.secs, len, sector, written, buf);
  }

  /** The branch of fl_fwrite for a whole sector or more: flush and empty the buffer, then
      write around it. */
  method WriteWhole(fs: Fatfs, file: FlFile, sector: nat, buf: seq<byte>, wanted: nat, ghost len: nat, ghost goal: nat)
    returns (written: int)
    requires fs.Valid() && fs.media.Reliable() && file.Buffered(fs)
    requires wanted > 0 && SECTOR_SIZE * wanted <= |buf|
    requires SECTOR_SIZE * sector <= len <= SECTOR_SIZE * |file.secs|
    requires sector + wanted <= goal && (goal <= Capacity(fs.g, fs.fat, file.chain) || NoSlack(fs.g, fs.fat))
    requires file.dataDirty ==> file.dataAddress < sector
    modifies fs`head, fs`next, fs`order, fs`slots, fs`view, fs`fat, fs`nextFree, fs.media
    modifies file`lookupIdx, file`lookupCluster, file`chain, file`dataDirty, file`secs, file`dataAddress
    ensures fs.Valid() && file.Buffered(fs) && !file.dataDirty
    ensures 0 <= written <= wanted && (written == 0 ==> goal > Capacity(fs.g, fs.fat, file.chain))
    ensures Rewritten(old(file.secs), len, file.secs, Max(len, SECTOR_SIZE * (sector + written)),
                      SECTOR_SIZE * sector, buf[..SECTOR_SIZE * written])
    ensures |file.chain| > old(|file.chain|) ==> Needed(fs.g, |file.chain|, goal)
    ensures Evolved(fs.g, old(fs.fat), old(file.chain), old(fs.media.sectors), fs.fat, file.chain, fs.media.sectors)
  {
    hide Fatfs.ValidWith, Decode, Volume.Span, Free, Capacity, Needed, NoSlack, FlFile.Buffered, Rewritten, Evolved,
         Content;
    ghost var a := file.Snapshot(fs);
    EmptyBuffer(fs, file);
    ghost var b := file.Snapshot(fs);
    EmptiedKeepsRoom(fs.g, a, b, len, old(file.dataDirty), old(file.dataAddress), SECTOR_SIZE * sector, goal);
    written := WriteAround(fs, file, sector, buf, wanted, len);
    EmptiedThenWrote(fs.g, a, b, file.Snapshot(fs), len, sector, written, wanted, buf, goal);
  }

  /** Flushing changes neither the bytes of the file nor the room for it. */
  lemma EmptiedKeepsRoom(g: Mounted, a: Snap, b: Snap, len: nat, dirty: bool, address: nat, p: nat, goal: nat)
    requires Evolved(g, a.fat, a.chain, a.sectors, b.fat, b.chain, b.sectors) && a.secs <= b.secs
    requires p <= len <= SECTOR_SIZE * |a.secs|
    requires |b.chain| > |a.chain| ==> dirty && Needed(g, |b.chain|, address + 1)
    requires dirty ==> address < goal
    ensures len <= SECTOR_SIZE * |b.secs| && |a.fat| == |b.fat| == g.Entries() && |b.chain| >= |a.chain|
    ensures Capacity(g, b.fat, b.chain) == Capacity(g, a.fat, a.chain) && (NoSlack(g, a.fat) ==> NoSlack(g, b.fat))
    ensures Rewritten(a.secs, len, b.secs, len, p, []) && (|b.chain| > |a.chain| ==> Needed(g, |b.chain|, goal))
  {
    hide Rewritten, Capacity, Needed, IsChain, Content;
    GrownKeepsRest(g.fatType, a.fat, g.Limit(), a.chain, b.fat, b.chain);
    RewrittenNothing(a.secs, len, b.secs, p);
    if |b.chain| > |a.chain| {
      NeededMonotone(g, |b.chain|, address + 1, goal);
    }
  }

  lemma EmptiedThenWrote(g: Mounted, a: Snap, b: Snap, c: Snap, len: nat, sector: nat, written: nat, wanted: nat,
                         buf: seq<byte>, goal: nat)
    requires Evolved(g, a.fat, a.chain, a.sectors, b.fat, b.chain, b.sectors)
    requires Evolved(g, b.fat, b.chain, b.sectors, c.fat, c.chain, c.sectors)
    requires SECTOR_SIZE * written <= |buf| && sector + wanted <= goal
    requires Rewritten(a.secs, len, b.secs, len, SECTOR_SIZE * sector, [])
    requires Rewritten(b.secs, len, c.secs, Max(len, SECTOR_SIZE * (sector + written)), SECTOR_SIZE * sector,
                       buf[..SECTOR_SIZE * written])
    requires |b.chain| > |a.chain| ==> Needed(g, |b.chain|, goal)
    requires |c.chain| > |b.chain| ==> Needed(g, |c.chain|, sector + wanted)
    ensures Evolved(g, a.fat, a.chain, a.sectors, c.fat, c.chain, c.sectors)
    ensures Rewritten(a.secs, len, c.secs, Max(len, SECTOR_SIZE * (sector + written)), SECTOR_SIZE * sector,
                      buf[..SECTOR_SIZE * written])
    ensures |c.chain| > |a.chain| ==> Needed(g, |c.chain|, goal)
  {
    EvolvedTransitive(g, a.fat, a.chain, a.sectors, b.fat, b.chain, b.sectors, c.fat, c.chain, c.sectors);
    assert |b.chain| <= |c.chain|;
    hide Evolved, Rewritten, Needed;
    NeededMonotone(g, |c.chain|, sector + wanted, goal);
    var piece := buf[..SECTOR_SIZE * written];
    assert [] + piece == piece;
    RewrittenThen(a.secs, len, b.secs, len, c.secs, Max(len, SECTOR_SIZE * (sector + written)), SECTOR_SIZE * sector,
                  [], piece);
  }

  /** Bring a sector of the file into the buffer; just past the last allocated one there is
      nothing to read, and the buffer is zeroed. */
  method FillBuffer(fs: Fatfs, file: FlFile, sector: nat)
    requires fs.Valid() && fs.media.Reliable() && file.Buffered(fs)
    requires !file.dataDirty && sector <= |file.secs| && sector != LAST
    modifies fs`head, fs`next, fs`order, fs`slots, fs.media
    modifies file`lookupIdx, file`lookupCluster, file`dataAddress, file`dataSector
    ensures fs.Valid() && file.OnChain(fs) && AllClusters(fs.g, file.chain)
    ensures file.dataAddress == sector && fs.OutsideFatUnchanged()
    ensures Ready(fs.media.sectors, Lbas(fs.g, file.chain), false, sector, file.dataSector, file.secs)
    ensures Evolved(fs.g, fs.fat, file.chain, old(fs.media.sectors), fs.fat, file.chain, fs.media.sectors)
  {
    hide Fatfs.ValidWith, Decode, IsChain, Reserved, Free, Volume.Span, Lbas;
    AllocatedFits(fs.g, fs.fat, file.chain);
    var got, data := ReadSectors(fs, file, sector, 1);
    FatChangesOnly(fs.g, fs.fat, file.chain, old(fs.media.sectors), fs.media.sectors,
                   false, old(file.dataAddress), old(file.dataSector), file.secs);
    hide Evolved, Capacity;
    if got == 0 {
      file.dataSector := Zeros(SECTOR_SIZE);
    } else {
      file.dataSector := data;
      assert Chunk(data, 0) == data;
    }
    file.dataAddress := sector;
    EmptyBufferCoupled(fs.media.sectors, Lbas(fs.g, file.chain), old(file.dataAddress), old(file.dataSector),
                       file.secs, file.dataSector);
    hide Coupled;
  }

  /** Before part of a sector is changed: if another sector is in the buffer, write it back
      and bring this one in. */
  method PrepareBuffer(fs: Fatfs, file: FlFile, sector: nat, ghost goal: nat)
    requires fs.Valid() && fs.media.Reliable() && file.Buffered(fs)
    requires sector <= |file.secs| && sector != LAST
    requires file.dataDirty ==> file.dataAddress < goal
    modifies fs`head, fs`next, fs`order, fs`slots, fs`view, fs`fat, fs`nextFree, fs.media
    modifies file`lookupIdx, file`lookupCluster, file`chain, file`dataDirty, file`secs, file`dataAddress,
             file`dataSector
    ensures fs.Valid() && file.OnChain(fs) && AllClusters(fs.g, file.chain)
    ensures file.dataAddress == sector && (!old(file.dataDirty) ==> fs.OutsideFatUnchanged())
    ensures Ready(fs.media.sectors, Lbas(fs.g, file.chain), file.dataDirty, sector, file.dataSector, file.secs)
    ensures old(file.secs) <= file.secs && |file.secs| <= Capacity(fs.g, fs.fat, file.chain)
    ensures |file.chain| > old(|file.chain|) ==> Needed(fs.g, |file.chain|, goal)
    ensures Evolved(fs.g, old(fs.fat), old(file.chain), old(fs.media.sectors), fs.fat, file.chain, fs.media.sectors)
  {
    hide Fatfs.ValidWith, Decode, IsChain, Reserved, Free, Volume.Span, Lbas, Capacity, Needed;
    if file.dataAddress != sector {
      if file.dataDirty {
        Flush(fs, file);
        NeededMonotone(fs.g, |file.chain|, old(file.dataAddress) + 1, goal);
      }
      ghost var fat, chain, sectors := fs.fat, file.chain, fs.media.sectors;
      assert Evolved(fs.g, old(fs.fat), old(file.chain), old(fs.media.sectors), fat, chain, sectors);
      FillBuffer(fs, file, sector);
      hide Evolved;
      EvolvedTransitive(fs.g, old(fs.fat), old(file.chain), old(fs.media.sectors), fat, chain, sectors,
                        fs.fat, file.chain, fs.media.sectors);
    }
  }

  /** The branch of fl_fwrite for part of a sector: change it in the buffer, whether or not
      there will be room for it. */
  method WritePart(fs: Fatfs, file: FlFile, sector: nat, offset: nat, piece: seq<byte>, ghost len: nat, ghost goal: nat)
    requires fs.Valid() && fs.media.Reliable() && file.Buffered(fs)
    requires 0 < |piece| < SECTOR_SIZE && offset + |piece| <= SECTOR_SIZE
    requires SECTOR_SIZE * sector + offset <= len <= SECTOR_SIZE * |file.secs|
    requires sector < goal && sector != LAST
    requires file.dataDirty ==> file.dataAddress < goal
    modifies fs`head, fs`next, fs`order, fs`slots, fs`view, fs`fat, fs`nextFree, fs.media
    modifies file`lookupIdx, file`lookupCluster, file`chain, file`dataDirty, file`secs, file`dataAddress,
             file`dataSector
    ensures fs.Valid() && file.Held(fs) && file.dataDirty && file.dataAddress == sector
    ensures !old(file.dataDirty) ==> fs.OutsideFatUnchanged()
    ensures sector < |old(file.secs)| || sector < Capacity(fs.g, fs.fat, file.chain) ==> file.Buffered(fs)
    ensures Rewritten(old(file.secs), len, file.secs, Max(len, SECTOR_SIZE * sector + offset + |piece|),
                      SECTOR_SIZE * sector + offset, piece)
    ensures |file.chain| > old(|file.chain|) ==> Needed(fs.g, |file.chain|, goal)
    ensures Evolved(fs.g, old(fs.fat), old(file.chain), old(fs.media.sectors), fs.fat, file.chain, fs.media.sectors)
  {
    hide Fatfs.ValidWith, Decode, IsChain, Reserved, Free, Volume.Span, Lbas, Capacity, Needed;
    PrepareBuffer(fs, file, sector, goal);
    hide Evolved, Ready, Coupled, Rewritten;
    ghost var secs := PatchReady(fs.media.sectors, Lbas(fs.g, file.chain), file.dataDirty, sector, file.dataSector,
                                 old(file.secs), file.secs, len, offset, piece);
    file.dataSector := Patch(file.dataSector, offset, piece);
    file.dataDirty := true;
    file.secs := secs;
  }
}
