/** Sessions of opening a file in any mode, calling, and closing it: what they leave is what they wrote. */
module EditSessions {

  import opened Words
  import opened Geometry
  import opened FatTable
  import opened FileLayout
  import opened FileSpec
  import opened FileContent
  import opened FileSectors
  import opened Names
  import opened DirSearch
  import opened DirLayout
  import opened DiskReader
  import opened ChainDefs
  import opened Chains
  import opened FatEntries
  import opened FileState
  import opened FileOpen
  import opened FileClose
  import opened FileModes
  import opened FileHandle
  import opened Sessions
  import opened AppendSessions

  function RightsOf(flags: Flags): Rights {
    Rights(flags.read, flags.write, flags.append)
  }

  /** A file just opened stands for its contents, at their beginning. */
  lemma OpenedRefines(fs: Fatfs, file: FlFile, cluster: nat, d: Desk, rights: Rights, limit: nat)
    requires OpenedOld(fs, file, cluster, d) && rights == Rights(file.canRead, file.canWrite, file.append)
    requires |fs.fat| == fs.g.Entries() && RoomFor(fs.g, fs.fat, d.chain, limit)
    ensures Refines(fs, file, ByteFile(d.content, 0, true), rights, limit)
    ensures OpenAs(fs, file, cluster, d.place, d.dirSecs, d.index)
  {
    hide Fatfs.ValidWith, FlFile.Buffered, Content, Capacity, SectorsFor, Records, Recorded;
  }

  /** From one state of the volume to another, nothing but this file and the record of it has changed. */
  ghost predicate Edited(g: Mounted, a: Shot, b: Shot, place: Place) {
    && |a.fat| == g.Entries()
    && Grown(g.fatType, g.Limit(), a.fat, a.chain, b.fat, b.chain)
    && AllClusters(g, b.chain)
    && OnlyThese(g, a.sectors, b.sectors, b.chain, place)
  }

  lemma EvolvedIsEdited(g: Mounted, a: Snap, content: seq<byte>, b: Shot, place: Place)
    requires Evolved(g, a.fat, a.chain, a.sectors, b.fat, b.chain, b.sectors)
    ensures Edited(g, Shot(a.fat, a.sectors, a.chain, content), b, place)
  {
    hide Grown, AllClusters, Capacity, Lbas, PlaceLbas, Volume.InMeta;
  }

  lemma ExtendedIsEdited(g: Mounted, a: Shot, b: Shot, c: Shot, place: Place)
    requires Edited(g, a, b, place) && Extended(g, b, c, [], place)
    ensures Edited(g, a, c, place) && c.content == b.content
  {
    hide Capacity, AllClusters, OnlyThese, Needed, SectorsFor, IsChain, FatType.IsFree;
    GrownTransitive(g.fatType, g.Limit(), a.fat, a.chain, b.fat, b.chain, c.fat, c.chain);
    OnlyTheseTwice(g, a.sectors, b.sectors, c.sectors, b.chain, c.chain, place);
  }

  /** Any calls on a file that is open, the directory looking on. */
  method CallOpen(fs: Fatfs, file: FlFile, calls: seq<Call>, ghost s: ByteFile, ghost rights: Rights, ghost limit: nat,
                  ghost cluster: nat, ghost d: Desk)
    returns (answers: seq<Answer>)
    requires OpenAs(fs, file, cluster, d.place, d.dirSecs, d.index)
    requires Refines(fs, file, s, rights, limit) && AllowsRun(s, rights, calls, limit)
    modifies fs`head, fs`next, fs`order, fs`slots, fs`view, fs`fat, fs`nextFree, fs.media
    modifies file`lookupIdx, file`lookupCluster, file`chain, file`dataDirty, file`secs, file`dataAddress,
             file`dataSector
    modifies file`byteNum, file`fileLength, file`lengthChanged
    ensures OpenAs(fs, file, cluster, d.place, d.dirSecs, d.index)
    ensures Refines(fs, file, AfterCalls(s, rights, calls).0, rights, limit) &&
            answers == AfterCalls(s, rights, calls).1
    ensures Evolved(fs.g, old(fs.fat), old(file.chain), old(fs.media.sectors), fs.fat, file.chain, fs.media.sectors)
  {
    hide OpenAs, FlFile.Valid, Fatfs.Valid, Records, Recorded, SectorsFor, Capacity, Evolved, DirAs, Apart, Owns,
         AllClusters, Hold, Content, AfterCalls, AllowsRun, Lbas;
    OpenFrame(fs, file, cluster, d.place, d.dirSecs, d.index);
    ghost var a := file.Snapshot(fs);
    answers := RunCalls(fs, file, calls, s, rights, limit);
    StaysOpen(fs, file, cluster, d.place, d.dirSecs, d.index, a);
  }

  /** Any calls on a file that is open, and fl_fclose. */
  method CallAndClose(fs: Fatfs, file: FlFile, calls: seq<Call>, ghost s: ByteFile, ghost rights: Rights,
                      ghost limit: nat,
                      ghost cluster: nat, ghost d: Desk)
    returns (answers: seq<Answer>, ghost d': Desk)
    requires OpenAs(fs, file, cluster, d.place, d.dirSecs, d.index)
    requires Refines(fs, file, s, rights, limit) && AllowsRun(s, rights, calls, limit)
    modifies fs`head, fs`next, fs`order, fs`slots, fs`view, fs`fat, fs`nextFree, fs`curAddress, fs`curSector, fs.media,
             file
    ensures AtRest(fs, cluster, d') && d'.place == d.place && d'.index == d.index
    ensures d'.content == AfterCalls(s, rights, calls).0.contents && answers == AfterCalls(s, rights, calls).1
    ensures LengthRecorded(Records(d.dirSecs), d.index, |d'.content|, Records(d'.dirSecs))
    ensures Edited(fs.g, old(Shot(fs.fat, fs.media.sectors, file.chain, s.contents)),
                   Shot(fs.fat, fs.media.sectors, d'.chain, d'.content), d.place)
  {
    hide OpenAs, AtRest, Records, SectorsFor, Content, Capacity, LengthRecorded, Edited, Extended, Evolved, AfterCalls,
         AllowsRun, FlFile.Valid, Fatfs.Valid;
    ghost var a := file.Snapshot(fs);
    answers := CallOpen(fs, file, calls, s, rights, limit, cluster, d);
    ghost var b := Shot(fs.fat, fs.media.sectors, file.chain, AfterCalls(s, rights, calls).0.contents);
    EvolvedIsEdited(fs.g, a, s.contents, b, d.place);
    d' := Close(fs, file, cluster, d.place, d.dirSecs, d.index);
    ExtendedIsEdited(fs.g, Shot(a.fat, a.sectors, a.chain, s.contents), b,
                     Shot(fs.fat, fs.media.sectors, d'.chain, d'.content), d.place);
  }

  lemma EditedBefore(g: Mounted, a: Shot, sectors: seq<Sector>, b: Shot, place: Place)
    requires |a.sectors| == |sectors| && forall l :: 0 <= l < |sectors| && !g.InFat(l) ==> a.sectors[l] == sectors[l]
    requires Edited(g, a, b, place)
    ensures Edited(g, a.(sectors := sectors), b, place)
  {
    hide Grown, Lbas, PlaceLbas, AllClusters;
  }

  /**
   * fl_fopen in any mode on a file that is there, any calls, fl_fclose: the calls are answered
   * as by a sequence of bytes, and afterwards the medium has what that has become.
   */
  method Edit(fs: Fatfs, file: FlFile, cluster: nat, name: seq<byte>, mode: string, calls: seq<Call>, ghost limit: nat,
              ghost d: Desk)
    returns (answers: seq<Answer>, ghost d': Desk)
    requires AtRest(fs, cluster, d) && Named(d, name)
    requires |fs.fat| == fs.g.Entries() && RoomFor(fs.g, fs.fat, d.chain, limit)
    requires Mode(mode).read || Mode(mode).create
    requires AllowsRun(ByteFile(d.content, 0, true), RightsOf(Mode(mode)), calls, limit)
    modifies fs`head, fs`next, fs`order, fs`slots, fs`view, fs`fat, fs`nextFree, fs`curAddress, fs`curSector, fs.media,
             file
    ensures AtRest(fs, cluster, d') && Named(d', name) && d'.place == d.place && d'.index == d.index
    ensures d'.content == AfterCalls(ByteFile(d.content, 0, true), RightsOf(Mode(mode)), calls).0.contents
    ensures answers == AfterCalls(ByteFile(d.content, 0, true), RightsOf(Mode(mode)), calls).1
    ensures DiskRead(fs.g, fs.media.sectors, cluster, name) == Some(d'.content)
    ensures LengthRecorded(Records(d.dirSecs), d.index, |d'.content|, Records(d'.dirSecs))
    ensures Edited(fs.g, old(Shot(fs.fat, fs.media.sectors, d.chain, d.content)),
                   Shot(fs.fat, fs.media.sectors, d'.chain, d'.content), d.place)
  {
    hide AtRest, Named, DirOf, Describes, Records, Search, Key, RoomFor, OpenAs, OpenedOld, Content, Volume.InFat,
         Edited, AfterCalls, AllowsRun, IsThere, Fatfs.Valid, LengthRecorded, Refines, Mode;
    ghost var before := fs.media.sectors;
    RestIsDescribed(fs, cluster, d, name);
    ModeSound(mode);
    var flags := ParseMode(mode);
    var ok;
    ghost var d1, e;
    ok, d1, e := Open(fs, file, cluster, name, flags, d);
    OpenedRefines(fs, file, cluster, d, RightsOf(flags), limit);
    OpenedIsOpen(fs, file, cluster, d);
    ghost var start := Shot(fs.fat, fs.media.sectors, file.chain, d.content);
    answers, d' := CallAndClose(fs, file, calls, ByteFile(d.content, 0, true), RightsOf(flags), limit, cluster, d);
    EditedBefore(fs.g, start, before, Shot(fs.fat, fs.media.sectors, d'.chain, d'.content), d.place);
    LengthKeepsName(d, d', name);
    AtRestReads(fs, cluster, d', name);
  }
}
