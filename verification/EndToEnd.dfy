/** The end-to-end property: whatever sessions append to a file, old or new, the medium holds
    all of it, in the clusters it needs and no more. */
module EndToEnd {

  import opened Words
  import opened FatEntries
  import opened Geometry
  import opened ChainDefs
  import opened FatTable
  import opened FileLayout
  import opened FileSpec
  import opened FileContent
  import opened FileSectors
  import opened DirRecords
  import opened Names
  import opened DirSearch
  import opened DirInsert
  import opened DirLayout
  import opened DirUpdate
  import opened DirRoom
  import opened DirWrite
  import opened DiskReader
  import opened FileState
  import opened FileClose
  import opened FileCreate
  import opened Sessions
  import opened AppendSessions

  lemma {:induction false} FlatAllFirst(sessions: seq<seq<Op>>)
    requires sessions != []
    ensures FlatAll(sessions) == Flat(sessions[0]) + FlatAll(sessions[1..])
    ensures |FlatAll(sessions)| == |Flat(sessions[0])| + |FlatAll(sessions[1..])|
    decreases |sessions|
  {
    hide Flat;
    var n := |sessions| - 1;
    if n == 0 {
      assert sessions[..0] == [] && sessions[1..] == [];
    } else {
      FlatAllFirst(sessions[..n]);
      assert sessions[..n][1..] == sessions[1..][..n - 1];
    }
  }

  lemma LessRoom(g: Mounted, fat: seq<nat>, name: seq<byte>, d: Desk, bytes: nat, fewer: nat)
    requires |fat| == g.Entries() && HasRoom(g, fat, name, d, bytes) && fewer <= bytes
    ensures HasRoom(g, fat, name, d, fewer)
  {
    hide CanCreate, Search, Records, Key, SectorsFor, FreeRun, FreeCount, LfnEntries, Capacity;
    SectorsForMonotone(fewer, bytes);
    SectorsForMonotone(|d.content| + fewer, |d.content| + bytes);
  }

  lemma LessToAppend(fs: Fatfs, cluster: nat, name: seq<byte>, d: Desk, bytes: nat, fewer: nat)
    requires CanAppend(fs, cluster, name, d, bytes) && fewer <= bytes
    ensures CanAppend(fs, cluster, name, d, fewer) && |fs.fat| == fs.g.Entries() &&
            HasRoom(fs.g, fs.fat, name, d, bytes)
  {
    hide DirOf, AtRest, HasRoom, Search, Records, Key;
    LessRoom(fs.g, fs.fat, name, d, bytes, fewer);
  }

  lemma ExtendedContent(g: Mounted, a: Shot, b: Shot, data: seq<byte>, place: Place)
    requires Extended(g, a, b, data, place)
    ensures b.content == a.content + data
  {
  }

  lemma BegunRoom(g: Mounted, a: Stage, name: seq<byte>, bytes: nat, b: Stage)
    requires |a.fat| == g.Entries() && HasRoom(g, a.fat, name, a.d, bytes)
    requires Begun(g, a, name, b)
    ensures |b.fat| == g.Entries() && RoomFor(g, b.fat, b.d.chain, |b.d.content| + bytes)
    ensures |b.d.chain| == if Search(Records(a.d.dirSecs), EMPTY_CACHE, Key(name)).Miss? then 1 else |a.d.chain|
  {
    hide CanCreate, Search, Records, Key, RoomToCreate, RoomFor, Within, PlaceLbas, Inserted, Grown, FreeRun, Free,
         PlaceGrown;
    if Search(Records(a.d.dirSecs), EMPTY_CACHE, Key(name)).Miss? {
      RoomAfterCreating(g, a.fat, a.d.place, Records(a.d.dirSecs), name, b.fat, b.d, bytes);
    }
  }

  /* ----------- what the medium says ----------- */

  function Was(before: Option<seq<byte>>): seq<byte> {
    if before.Some? then before.value else []
  }

  /** Before the first session, the reference reader finds what the session will find. */
  lemma ReadsBefore(fs: Fatfs, cluster: nat, name: seq<byte>, d: Desk, bytes: nat)
    requires CanAppend(fs, cluster, name, d, bytes) && fs.Valid() && fs.Purged()
    ensures |fs.media.sectors| == fs.g.total
    ensures DiskRead(fs.g, fs.media.sectors, cluster, name) ==
            if Search(Records(d.dirSecs), EMPTY_CACHE, Key(name)).Miss? then None else Some(d.content)
  {
    hide DirOf, AtRest, Named, HasRoom, Search, Records, Key, DiskRead, Fatfs.Purged, Fatfs.ValidWith;
    if Search(Records(d.dirSecs), EMPTY_CACHE, Key(name)).Miss? {
      NothingReads(fs, cluster, d.place, d.dirSecs, name);
    } else {
      AtRestReads(fs, cluster, d, name);
    }
  }

  lemma BegunContent(g: Mounted, a: Stage, name: seq<byte>, b: Stage)
    requires Begun(g, a, name, b)
    ensures b.d.content == if Search(Records(a.d.dirSecs), EMPTY_CACHE, Key(name)).Miss? then [] else a.d.content
  {
    hide Search, Records, Key, CreatedIn, Within, Inserted;
  }

  /** The clusters of a file are those it had, or just as many as its length needs. */
  ghost predicate JustEnough(g: Mounted, had: nat, n: nat, bytes: nat) {
    had <= n && bytes <= SECTOR_SIZE * g.Span(n) && (n > had ==> SECTOR_SIZE * g.Span(n - 1) < bytes)
  }

  lemma RoundedUp(n: nat, unit: nat, bytes: nat)
    requires unit > 0 && n >= 1
    ensures bytes <= n * unit && (n > 1 ==> (n - 1) * unit < bytes) <==> n == Max(1, (bytes + unit - 1) / unit)
  {
    var q := (bytes + unit - 1) / unit;
    assert bytes + unit - 1 == unit * q + (bytes + unit - 1) % unit;
    assert unit * q == q * unit;
    if n < q {
      MulMonotone(n, q - 1, unit);
      assert (q - 1) * unit == q * unit - unit;
    } else if n > q {
      MulMonotone(q, n - 1, unit);
    } else {
      assert (n - 1) * unit == n * unit - unit;
    }
  }

  /** The length in clusters, rounded up, and at least one. */
  function ClusterCount(g: Mounted, bytes: nat): (n: nat)
    ensures n >= 1
  {
    Max(1, (bytes + SECTOR_SIZE * g.sectorsPerCluster - 1) / (SECTOR_SIZE * g.sectorsPerCluster))
  }

  /** For a file that began with one cluster: as many as its length rounds up to, at least one. */
  lemma ExactClusters(g: Mounted, n: nat, bytes: nat)
    requires n >= 1
    ensures JustEnough(g, 1, n, bytes) <==> n == ClusterCount(g, bytes)
  {
    hide Volume.Span;
    var spc := g.sectorsPerCluster;
    SpanIsProduct(g, n);
    SpanIsProduct(g, n - 1);
    assert SECTOR_SIZE * (n * spc) == n * (SECTOR_SIZE * spc);
    assert SECTOR_SIZE * ((n - 1) * spc) == (n - 1) * (SECTOR_SIZE * spc);
    RoundedUp(n, SECTOR_SIZE * spc, bytes);
  }

  lemma RestIsExact(g: Mounted, a: Shot, c: Stage, data: seq<byte>, place: Place)
    requires FileAs(g, c.fat, c.sectors, c.d) && Extended(g, a, c.Shot(), data, place)
    ensures JustEnough(g, |a.chain|, |c.d.chain|, |c.d.content|)
  {
    hide PlaceLbas, Recorded, Content, IsChain, Reserved, OnlyThese, Capacity, Records, Apart;
  }

  /** All the sessions; the first may create the file. */
  method RunSessions(fs: Fatfs, file: FlFile, cluster: nat, name: seq<byte>, sessions: seq<seq<Op>>, ghost d: Desk)
    returns (ghost b: Stage, ghost d': Desk)
    requires CanAppend(fs, cluster, name, d, |FlatAll(sessions)|) && sessions != []
    modifies fs`head, fs`next, fs`order, fs`slots, fs`view, fs`fat, fs`nextFree, fs`curAddress, fs`curSector, fs.media,
             file
    ensures AtRest(fs, cluster, d') && Named(d', name) && d'.place == b.d.place && d'.index == b.d.index
    ensures Begun(fs.g, Stage(old(fs.fat), old(fs.media.sectors), d), name, b)
    ensures SameLookups(Records(b.d.dirSecs), b.d.index, Records(d'.dirSecs))
    ensures |b.d.chain| == if Search(Records(d.dirSecs), EMPTY_CACHE, Key(name)).Miss? then 1 else |d.chain|
    ensures Extended(fs.g, b.Shot(), Stage(fs.fat, fs.media.sectors, d').Shot(), FlatAll(sessions), b.d.place)
  {
    hide AtRest, CanAppend, Named, Records, HasRoom, RoomFor, Flat, FlatAll, LengthRecorded, Extended, Begun,
         SameLookups, Search, Key;
    ghost var bytes, a := |FlatAll(sessions)|, Stage(fs.fat, fs.media.sectors, d);
    FlatAllFirst(sessions);
    LessToAppend(fs, cluster, name, d, bytes, |Flat(sessions[0])|);
    ghost var d2;
    b, d2 := Session(fs, file, cluster, name, sessions[0], d);
    ghost var c := Stage(fs.fat, fs.media.sectors, d2);
    BegunRoom(fs.g, a, name, bytes, b);
    NamedIsLive(b.d, name);
    LengthKeepsLookups(Records(b.d.dirSecs), b.d.index, |d2.content|, Records(d2.dirSecs));
    ExtendedContent(fs.g, b.Shot(), c.Shot(), Flat(sessions[0]), b.d.place);
    RoomLeft(fs.g, b.Shot(), c.Shot(), Flat(sessions[0]), b.d.place, |b.d.content| + bytes, |FlatAll(sessions[1..])|);
    d' := AppendAll(fs, file, cluster, name, sessions[1..], d2);
    SameLookupsTwice(Records(b.d.dirSecs), Records(d2.dirSecs), Records(d'.dirSecs), b.d.index);
    ExtendedTwice(fs.g, b.Shot(), c.Shot(), Stage(fs.fat, fs.media.sectors, d').Shot(), Flat(sessions[0]),
                  FlatAll(sessions[1..]), b.d.place);
  }

  lemma RestIsFile(fs: Fatfs, cluster: nat, d: Desk)
    requires AtRest(fs, cluster, d)
    ensures FileAs(fs.g, fs.fat, fs.media.sectors, d)
  {
    hide DirOf, FileAs, Fatfs.Purged;
  }

  lemma RestIsPurged(fs: Fatfs, cluster: nat, d: Desk)
    requires AtRest(fs, cluster, d)
    ensures fs.Valid() && fs.Purged() && |fs.media.sectors| == fs.g.total
  {
  }

  /** From the volume before the first session to the volume after the last: how the file began,
      and what was added. */
  ghost predicate WholeRun(g: Mounted, a: Stage, name: seq<byte>, b: Stage, c: Stage, data: seq<byte>) {
    && Begun(g, a, name, b)
    && Extended(g, b.Shot(), c.Shot(), data, b.d.place)
    && SameLookups(Records(b.d.dirSecs), b.d.index, Records(c.d.dirSecs))
    && c.d.place == b.d.place && c.d.index == b.d.index
  }

  /** Appending to a file by name, in any number of sessions: afterwards the bytes found by
      going through directory, FAT and data on the medium alone are those found before, if
      any, followed by everything written, in order.  The file has the clusters it had, or
      one if it is new, or as many as its length needs. */
  method AppendTo(fs: Fatfs, file: FlFile, cluster: nat, name: seq<byte>, sessions: seq<seq<Op>>, ghost d: Desk)
    returns (ghost d': Desk, ghost b: Stage)
    requires CanAppend(fs, cluster, name, d, |FlatAll(sessions)|) && sessions != []
    requires fs.Valid() && fs.Purged()
    modifies fs`head, fs`next, fs`order, fs`slots, fs`view, fs`fat, fs`nextFree, fs`curAddress, fs`curSector, fs.media,
             file
    ensures AtRest(fs, cluster, d') && Named(d', name)
    ensures |fs.media.sectors| == |old(fs.media.sectors)| == fs.g.total
    ensures DiskRead(fs.g, fs.media.sectors, cluster, name) ==
            Some(Was(DiskRead(fs.g, old(fs.media.sectors), cluster, name)) + FlatAll(sessions))
    ensures JustEnough(fs.g, if Search(Records(d.dirSecs), EMPTY_CACHE, Key(name)).Miss? then 1 else |d.chain|,
                       |d'.chain|, |d'.content|)
    ensures WholeRun(fs.g, old(Stage(fs.fat, fs.media.sectors, d)), name, b, Stage(fs.fat, fs.media.sectors, d'),
                     FlatAll(sessions))
  {
    hide AtRest, CanAppend, Named, Records, FlatAll, Extended, Begun, SameLookups, Search, Key, Fatfs.Valid,
         Fatfs.Purged, DiskRead, JustEnough;
    ghost var a := Stage(fs.fat, fs.media.sectors, d);
    ReadsBefore(fs, cluster, name, d, |FlatAll(sessions)|);
    b, d' := RunSessions(fs, file, cluster, name, sessions, d);
    RestIsPurged(fs, cluster, d');
    BegunContent(fs.g, a, name, b);
    ExtendedContent(fs.g, b.Shot(), Stage(fs.fat, fs.media.sectors, d').Shot(), FlatAll(sessions), b.d.place);
    RestIsFile(fs, cluster, d');
    RestIsExact(fs.g, b.Shot(), Stage(fs.fat, fs.media.sectors, d'), FlatAll(sessions), b.d.place);
    AtRestReads(fs, cluster, d', name);
  }
}
