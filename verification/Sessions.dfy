/** Sessions of opening a file for appending, writing and closing it, and what the medium
    says afterwards. */
module Sessions {

  import opened Words
  import opened FatEntries
  import opened Geometry
  import opened ChainDefs
  import opened Chains
  import opened FatTable
  import opened FileLayout
  import opened FileSpec
  import opened FileContent
  import opened FileSectors
  import opened DirRecords
  import opened DirLayout
  import opened DirUpdate
  import opened FileState
  import opened FileOpen
  import opened FileClose

  /** Nothing outside the file, its directory, the FAT and FSInfo has changed. */
  ghost predicate OnlyThese(g: Mounted, before: seq<Sector>, after: seq<Sector>, chain: seq<nat>, place: Place)
    requires AllClusters(g, chain)
  {
    && |after| == |before|
    && forall l :: 0 <= l < |before| && !g.InMeta(l) && l !in Lbas(g, chain) && l !in PlaceLbas(g, place) ==>
       after[l] == before[l]
  }

  /** A file on the volume: the FAT, the sectors, the chain and the contents. */
  datatype Shot = Shot(fat: seq<nat>, sectors: seq<Sector>, chain: seq<nat>, content: seq<byte>)

  /** From one state of the volume to another, the file has been appended to: it has the
      clusters it needs for that and no more, and nothing else has changed. */
  ghost predicate Extended(g: Mounted, a: Shot, b: Shot, data: seq<byte>, place: Place) {
    && b.content == a.content + data
    && |a.fat| == g.Entries()
    && Grown(g.fatType, g.Limit(), a.fat, a.chain, b.fat, b.chain)
    && AllClusters(g, b.chain)
    && Capacity(g, b.fat, b.chain) == Capacity(g, a.fat, a.chain)
    && (|b.chain| > |a.chain| ==> Needed(g, |b.chain|, SectorsFor(|b.content|)))
    && OnlyThese(g, a.sectors, b.sectors, b.chain, place)
  }

  lemma OnlyTheseTwice(g: Mounted, a: seq<Sector>, b: seq<Sector>, c: seq<Sector>, chain: seq<nat>, chain': seq<nat>,
                       place: Place)
    requires AllClusters(g, chain') && chain <= chain' && AllClusters(g, chain)
    requires OnlyThese(g, a, b, chain, place) && OnlyThese(g, b, c, chain', place)
    ensures OnlyThese(g, a, c, chain', place)
  {
    LbasPrefix(g, chain, chain');
    hide Lbas, PlaceLbas, AllClusters, Volume.InMeta;
    assert forall l :: l in Lbas(g, chain) ==> l in Lbas(g, chain');
  }

  lemma ExtendedTwice(g: Mounted, a: Shot, b: Shot, c: Shot, data: seq<byte>, more: seq<byte>, place: Place)
    requires Extended(g, a, b, data, place) && Extended(g, b, c, more, place)
    ensures Extended(g, a, c, data + more, place)
  {
    hide SectorsFor, OnlyThese, AllClusters, Capacity, IsChain, Needed, FatType.IsFree;
    GrownTransitive(g.fatType, g.Limit(), a.fat, a.chain, b.fat, b.chain, c.fat, c.chain);
    OnlyTheseTwice(g, a.sectors, b.sectors, c.sectors, b.chain, c.chain, place);
    assert a.content + data + more == a.content + (data + more);
    SectorsForMonotone(|b.content|, |c.content|);
    NeededMonotone(g, |b.chain|, SectorsFor(|b.content|), SectorsFor(|c.content|));
  }

  /** Writing to an open file, then to its directory, then to the FAT. */
  lemma WroteExtends(g: Mounted, a: Snap, len: nat, b: Snap, data: seq<byte>, content: seq<byte>, content': seq<byte>,
                     sectors1: seq<Sector>, sectors2: seq<Sector>, place: Place)
    requires Wrote(g, a, len, b, len + |data|, len, data, SectorsFor(len + |data|))
    requires len <= SECTOR_SIZE * |a.secs| && content == Content(a.secs, len)
    requires len + |data| <= SECTOR_SIZE * |b.secs| && content' == Content(b.secs, len + |data|)
    requires Within(g, b.sectors, sectors1, PlaceLbas(g, place))
    requires |sectors2| == |sectors1| && forall l :: 0 <= l < |sectors1| && !g.InFat(l) ==> sectors2[l] == sectors1[l]
    ensures Extended(g, Shot(a.fat, a.sectors, a.chain, content), Shot(b.fat, sectors2, b.chain, content'), data, place)
  {
    OverwriteAtEnd(content, data);
    hide Content, Overwrite, SectorsFor, Lbas, PlaceLbas, AllClusters, Grown, Capacity, Needed, Volume.InFat;
  }

  lemma OverwriteAtEnd(was: seq<byte>, data: seq<byte>)
    ensures Overwrite(was, |was|, data) == was + data
  {
  }

  /** fl_fflush, with the directory in view. */
  method FlushFirst(fs: Fatfs, file: FlFile, ghost cluster: nat, ghost place: Place, ghost dirSecs: seq<Sector>,
                    ghost index: nat)
    requires OpenAs(fs, file, cluster, place, dirSecs, index)
    modifies fs`head, fs`next, fs`order, fs`slots, fs`view, fs`fat, fs`nextFree, fs.media
    modifies file`lookupIdx, file`lookupCluster, file`chain, file`dataDirty, file`secs
    ensures OpenAs(fs, file, cluster, place, dirSecs, index) && !file.dataDirty
    ensures Wrote(fs.g, old(file.Snapshot(fs)), file.fileLength, file.Snapshot(fs), file.fileLength, file.fileLength,
                  [], SectorsFor(file.fileLength))
  {
    hide Fatfs.ValidWith, Decode, FlFile.Buffered, DirAs, Apart, Evolved, Recorded, Records, Rewritten, Needed;
    ghost var a := file.Snapshot(fs);
    FlushOpen(fs, file, SectorsFor(file.fileLength));
    StaysOpen(fs, file, cluster, place, dirSecs, index, a);
  }

  /** The handle as fl_fclose leaves it. */
  ghost predicate Closed(file: FlFile)
    reads file`byteNum, file`fileLength, file`startCluster, file`dataAddress, file`dataDirty, file`lengthChanged
  {
    file.byteNum == file.fileLength == file.startCluster == 0 && file.dataAddress == LAST && !file.dataDirty &&
        !file.lengthChanged
  }

  /** The end of fl_fclose: the handle is free again, and the FAT is written back. */
  method Release(fs: Fatfs, file: FlFile, ghost cluster: nat, ghost place: Place, ghost dirSecs: seq<Sector>)
    requires DirOf(fs, cluster, place, dirSecs)
    modifies fs`slots, fs.media, file
    ensures DirOf(fs, cluster, place, dirSecs) && fs.Purged() && Closed(file)
    ensures fs.OutsideFatUnchanged()
  {
    hide DirOf, Fatfs.ValidWith, Volume.InFat;
    file.byteNum := 0;
    file.fileLength := 0;
    file.startCluster := 0;
    file.dataAddress := LAST;
    file.dataDirty := false;
    file.lengthChanged := false;
    PurgeKeeping(fs, cluster, place, dirSecs);
  }

  /** fl_fclose */
  method Close(fs: Fatfs, file: FlFile, ghost cluster: nat, ghost place: Place, ghost dirSecs: seq<Sector>,
               ghost index: nat)
    returns (ghost d: Desk)
    requires OpenAs(fs, file, cluster, place, dirSecs, index)
    modifies fs`head, fs`next, fs`order, fs`slots, fs`view, fs`fat, fs`nextFree, fs`curAddress, fs`curSector, fs.media,
             file
    ensures AtRest(fs, cluster, d) && d.place == place && d.index == index && Closed(file)
    ensures LengthRecorded(Records(dirSecs), index, old(file.fileLength), Records(d.dirSecs))
    ensures old(file.fileLength) <= SECTOR_SIZE * |old(file.secs)|
    ensures Extended(fs.g, old(Shot(fs.fat, fs.media.sectors, file.chain, file.Contents())),
                     Shot(fs.fat, fs.media.sectors, d.chain, d.content), [], place)
  {
    hide OpenAs, DirOf, FileAs, Closed, FlFile.Valid, Fatfs.ValidWith, Decode, Records, Wrote, Content, Within,
         Extended, PlaceLbas, SectorsFor, LengthRecorded, Volume.InFat;
    ghost var a, len := file.Snapshot(fs), file.fileLength;
    OpenLength(fs, file, cluster, place, dirSecs, index);
    FlushFirst(fs, file, cluster, place, dirSecs, index);
    ghost var b := file.Snapshot(fs);
    ghost var dirSecs' := RecordLength(fs, file, cluster, place, dirSecs, index);
    d := Desk(place, dirSecs', index, file.chain, file.secs, file.Contents());
    ghost var middle := fs.media.sectors;
    Release(fs, file, cluster, place, dirSecs');
    FatWritesKeepRest(fs.g, fs.fat, middle, fs.media.sectors, d);
    WroteExtends(fs.g, a, len, b, [], old(file.Contents()), d.content, middle, fs.media.sectors, place);
  }

  lemma OpenLength(fs: Fatfs, file: FlFile, cluster: nat, place: Place, dirSecs: seq<Sector>, index: nat)
    requires OpenAs(fs, file, cluster, place, dirSecs, index)
    ensures file.fileLength <= SECTOR_SIZE * |file.secs|
  {
  }

  lemma OpenFrame(fs: Fatfs, file: FlFile, cluster: nat, place: Place, dirSecs: seq<Sector>, index: nat)
    requires OpenAs(fs, file, cluster, place, dirSecs, index)
    ensures fs.Valid() && fs.media.Reliable() && file.Valid(fs) && file.parentCluster == cluster &&
            Apart(place, file.chain)
    ensures DirAs(fs.g, fs.fat, fs.media.sectors, fs.curAddress, fs.curSector, cluster, place, dirSecs)
    ensures |fs.fat| == fs.g.Entries() && Owns(fs.g, fs.fat, file.chain) && AllClusters(fs.g, file.chain)
    ensures index < |Records(dirSecs)| && Recorded(Records(dirSecs), index, file.shortName, file.startCluster)
    ensures !file.lengthChanged ==> Size(Records(dirSecs)[index]) == file.fileLength
    ensures file.fileLength <= SECTOR_SIZE * |file.secs|
  {
  }

  lemma AppendedParts(fs: Fatfs, file: FlFile, start: Snap, len: nat, data: seq<byte>, goal: nat)
    requires Appended(fs, file, start, len, data, goal)
    ensures fs.Valid() && fs.media.Reliable() && file.Valid(fs)
    ensures file.fileLength == len + |data| && (file.lengthChanged || file.fileLength == len)
    ensures Wrote(fs.g, start, len, file.Snapshot(fs), file.fileLength, len, data, goal)
    ensures Evolved(fs.g, start.fat, start.chain, start.sectors, fs.fat, file.chain, fs.media.sectors)
    ensures len <= SECTOR_SIZE * |start.secs| && file.fileLength <= SECTOR_SIZE * |file.secs|
  {
  }

  /** Room on the volume for that many bytes in the file of this chain. */
  ghost predicate RoomFor(g: Mounted, fat: seq<nat>, chain: seq<nat>, bytes: nat)
    requires |fat| == g.Entries()
  {
    bytes < WORD32 && SectorsFor(bytes) <= Capacity(g, fat, chain)
  }

  /** The writes of a session, the directory looking on. */
  method WriteOpen(fs: Fatfs, file: FlFile, ops: seq<Op>, ghost cluster: nat, ghost place: Place,
                   ghost dirSecs: seq<Sector>, ghost index: nat)
    requires OpenAs(fs, file, cluster, place, dirSecs, index) && file.canWrite && file.append
    requires |fs.fat| == fs.g.Entries() && RoomFor(fs.g, fs.fat, file.chain, file.fileLength + |Flat(ops)|)
    modifies fs`head, fs`next, fs`order, fs`slots, fs`view, fs`fat, fs`nextFree, fs.media
    modifies file`lookupIdx, file`lookupCluster, file`chain, file`dataDirty, file`secs, file`dataAddress,
             file`dataSector
    modifies file`byteNum, file`fileLength, file`lengthChanged
    ensures OpenAs(fs, file, cluster, place, dirSecs, index)
    ensures file.fileLength == old(file.fileLength) + |Flat(ops)|
    ensures old(file.fileLength) <= SECTOR_SIZE * |old(file.secs)| && file.fileLength <= SECTOR_SIZE * |file.secs|
    ensures Wrote(fs.g, old(file.Snapshot(fs)), old(file.fileLength), file.Snapshot(fs), file.fileLength,
                  old(file.fileLength), Flat(ops),
                  SectorsFor(file.fileLength))
  {
    hide OpenAs, FlFile.Valid, Fatfs.Valid, Records, Wrote, Appended, Recorded, SectorsFor, Capacity, Flat, Evolved,
         DirAs, Apart, Owns, AllClusters;
    OpenFrame(fs, file, cluster, place, dirSecs, index);
    ghost var a, len := file.Snapshot(fs), file.fileLength;
    DoOps(fs, file, ops);
    AppendedParts(fs, file, a, len, Flat(ops), SectorsFor(file.fileLength));
    StaysOpen(fs, file, cluster, place, dirSecs, index, a);
  }

  lemma WroteOnly(g: Mounted, a: Snap, len: nat, b: Snap, data: seq<byte>, content: seq<byte>, content': seq<byte>,
                  place: Place)
    requires Wrote(g, a, len, b, len + |data|, len, data, SectorsFor(len + |data|))
    requires len <= SECTOR_SIZE * |a.secs| && content == Content(a.secs, len)
    requires len + |data| <= SECTOR_SIZE * |b.secs| && content' == Content(b.secs, len + |data|)
    ensures Extended(g, Shot(a.fat, a.sectors, a.chain, content), Shot(b.fat, b.sectors, b.chain, content'), data,
                     place)
  {
    hide Content, SectorsFor, Lbas, PlaceLbas, AllClusters, Grown, Capacity, Needed, Volume.InFat, Wrote, Extended,
         Within;
    WithinNothing(g, b.sectors, PlaceLbas(g, place));
    WroteExtends(g, a, len, b, data, content, content', b.sectors, b.sectors, place);
  }

  /** The writes of a session, and fl_fclose. */
  method WriteAndClose(fs: Fatfs, file: FlFile, ops: seq<Op>, ghost cluster: nat, ghost place: Place,
                       ghost dirSecs: seq<Sector>, ghost index: nat)
    returns (ghost d: Desk)
    requires OpenAs(fs, file, cluster, place, dirSecs, index) && file.canWrite && file.append
    requires |fs.fat| == fs.g.Entries() && RoomFor(fs.g, fs.fat, file.chain, file.fileLength + |Flat(ops)|)
    modifies fs`head, fs`next, fs`order, fs`slots, fs`view, fs`fat, fs`nextFree, fs`curAddress, fs`curSector, fs.media,
             file
    ensures AtRest(fs, cluster, d) && d.place == place && d.index == index
    ensures LengthRecorded(Records(dirSecs), index, |d.content|, Records(d.dirSecs))
    ensures old(file.fileLength) <= SECTOR_SIZE * |old(file.secs)|
    ensures Extended(fs.g, old(Shot(fs.fat, fs.media.sectors, file.chain, file.Contents())),
                     Shot(fs.fat, fs.media.sectors, d.chain, d.content), Flat(ops), place)
  {
    hide OpenAs, AtRest, Records, Wrote, SectorsFor, Flat, Extended, Content, RoomFor, LengthRecorded;
    ghost var a, len := file.Snapshot(fs), file.fileLength;
    OpenLength(fs, file, cluster, place, dirSecs, index);
    ghost var content := file.Contents();
    WriteOpen(fs, file, ops, cluster, place, dirSecs, index);
    ghost var b := file.Snapshot(fs);
    ghost var written := file.Contents();
    WroteOnly(fs.g, a, len, b, Flat(ops), content, written, place);
    d := Close(fs, file, cluster, place, dirSecs, index);
    ghost var first, last := Shot(b.fat, b.sectors, b.chain, written),
        Shot(fs.fat, fs.media.sectors, d.chain, d.content);
    ExtendedTwice(fs.g, Shot(a.fat, a.sectors, a.chain, content), first, last, Flat(ops), [], place);
    ExtendedLength(fs.g, first, last, [], place);
    assert Flat(ops) + [] == Flat(ops);
  }

  lemma ExtendedLength(g: Mounted, a: Shot, b: Shot, data: seq<byte>, place: Place)
    requires Extended(g, a, b, data, place)
    ensures |b.content| == |a.content| + |data|
  {
  }
}
