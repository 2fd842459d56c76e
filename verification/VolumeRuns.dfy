/** Any run of append sessions and removals on the files of a directory. */
module VolumeRuns {

  import opened Words
  import opened Geometry
  import opened ChainDefs
  import opened FatTable
  import opened FileLayout
  import opened FileSpec
  import opened FileSectors
  import opened DirSearch
  import opened DirShort
  import opened DirLayout
  import opened DirUpdate
  import opened DirWrite
  import opened DirRecords
  import opened Names
  import opened DiskReader
  import opened FileState
  import opened FileClose
  import opened FileCreate
  import opened FileModes
  import opened FileRemove
  import opened Sessions
  import opened AppendSessions
  import opened EndToEnd
  import opened FilesByName
  import opened ClusterCounts

  /* ----------- one change ----------- */

  lemma FitsCanAppend(fs: Fatfs, cluster: nat, v: Vol, name: seq<byte>, sessions: seq<seq<Op>>)
    requires On(fs, cluster, v) && Sound(fs.g, v) && Fits(fs.g, v, Store(name, sessions))
    ensures CanAppend(fs, cluster, name, v.At(Key(name)), |FlatAll(sessions)|) && sessions != []
  {
    hide DirOf, FileAs, HasRoom, Search, Records, Key, NamesFile, Fatfs.Purged, FlatAll, Complete, ShortUnique,
         Distinct, Filed, Disjoint;
    FileHere(fs.g, v, Key(name));
  }

  lemma OnPlace(fs: Fatfs, cluster: nat, v: Vol)
    requires On(fs, cluster, v)
    ensures fs.Valid() && fs.Purged() && DirOf(fs, cluster, v.place, v.dirSecs) &&
            IsPlace(fs.g, v.fat, cluster, v.place)
  {
    hide Fatfs.ValidWith, IsPlace, PlaceLbas;
  }

  lemma RestIsOn(fs: Fatfs, cluster: nat, v: Vol, d: Desk)
    requires AtRest(fs, cluster, d) && v.place == d.place && v.dirSecs == d.dirSecs
    requires v.fat == fs.fat && v.sectors == fs.media.sectors
    ensures On(fs, cluster, v) && FileAs(fs.g, fs.fat, fs.media.sectors, d)
  {
    hide DirOf, FileAs, Fatfs.Purged;
  }

  /** Append to a file, new or old. */
  method AppendFile(fs: Fatfs, file: FlFile, cluster: nat, name: seq<byte>, sessions: seq<seq<Op>>,
                    ghost v: Vol) returns (ghost v': Vol)
    requires On(fs, cluster, v) && Sound(fs.g, v) && Fits(fs.g, v, Store(name, sessions))
    modifies fs`head, fs`next, fs`order, fs`slots, fs`view, fs`fat, fs`nextFree, fs`curAddress, fs`curSector, fs.media,
             file
    ensures On(fs, cluster, v') && Changed(fs.g, v, Store(name, sessions), v')
  {
    hide On, Sound, Fits, DirOf, FileAs, AtRest, Named, CanAppend, WholeRun, Search, Records, Key, Fatfs.Purged,
         Fatfs.Valid, FlatAll, DiskRead, JustEnough, IsPlace;
    FitsCanAppend(fs, cluster, v, name, sessions);
    OnPlace(fs, cluster, v);
    OnIs(fs, cluster, v);
    ghost var d', b;
    d', b := AppendTo(fs, file, cluster, name, sessions, v.At(Key(name)));
    v' := Vol(fs.fat, fs.media.sectors, d'.place, d'.dirSecs,
              v.files[Key(name) := Info(d'.index, d'.chain, d'.secs, d'.content)]);
    RestIsOn(fs, cluster, v', d');
    assert Appends(fs.g, v, name, FlatAll(sessions), b, d', v');
  }

  lemma OnIs(fs: Fatfs, cluster: nat, v: Vol)
    requires On(fs, cluster, v)
    ensures fs.fat == v.fat && fs.media.sectors == v.sectors
  {
  }

  lemma SoundDescribes(g: Mounted, v: Vol, name: seq<byte>)
    requires Sound(g, v)
    ensures Describes(g, v.fat, v.sectors, v.At(Key(name)), name) && Complete(Records(v.dirSecs), NOTHING)
    ensures IsThere(Records(v.dirSecs), name) <==> Key(name) in v.files
  {
    FileHere(g, v, Key(name));
    hide FileAs, Search, Records, Key, Complete, ShortUnique, Distinct;
  }

  /** Remove a file, or fail to if there is none of the name. */
  method RemoveFile(fs: Fatfs, file: FlFile, cluster: nat, name: seq<byte>, ghost v: Vol)
    returns (res: int, ghost v': Vol)
    requires On(fs, cluster, v) && Sound(fs.g, v)
    modifies fs`head, fs`next, fs`order, fs`slots, fs`view, fs`fat, fs`curAddress, fs`curSector, fs.media, file
    ensures res == if Key(name) in v.files then 0 else -1
    ensures On(fs, cluster, v') && Changed(fs.g, v, Delete(name), v')
  {
    hide Sound, DirOf, FileAs, Search, Records, Key, Fatfs.Purged, Removed, Cleared, Complete, PlaceLbas, Within,
         Describes, IsThere;
    SoundDescribes(fs.g, v, name);
    ghost var dirSecs';
    res, dirSecs' := FileRemove.Remove(fs, file, cluster, name, v.At(Key(name)));
    v' := Vol(fs.fat, fs.media.sectors, v.place, dirSecs', v.files - {Key(name)});
  }

  /* ----------- the sectors in front of the FAT ----------- */

  /** The boot sector and all else in front of the FAT, but for FSInfo, is as it was. */
  ghost predicate BootKept(g: Mounted, before: seq<Sector>, after: seq<Sector>) {
    |after| == |before| && forall l :: 0 <= l < |before| && l < g.fatBegin && !g.InMeta(l) ==> after[l] == before[l]
  }

  lemma PlaceBehind(g: Mounted, fat: seq<nat>, cluster: nat, place: Place)
    requires IsPlace(g, fat, cluster, place)
    ensures forall l :: l in PlaceLbas(g, place) ==> g.fatBegin <= l
  {
    if place.InChain? {
      LbasInData(g, fat, place.chain);
    }
  }

  lemma WithinKeepsBoot(g: Mounted, fat: seq<nat>, cluster: nat, place: Place, before: seq<Sector>, after: seq<Sector>)
    requires Within(g, before, after, PlaceLbas(g, place)) && IsPlace(g, fat, cluster, place)
    ensures BootKept(g, before, after)
  {
    PlaceBehind(g, fat, cluster, place);
    hide PlaceLbas, IsPlace, Volume.InMeta;
  }

  lemma ExtendedKeepsBoot(g: Mounted, a: Shot, b: Shot, data: seq<byte>, cluster: nat, place: Place)
    requires Extended(g, a, b, data, place) && IsPlace(g, b.fat, cluster, place)
    ensures BootKept(g, a.sectors, b.sectors)
  {
    PlaceBehind(g, b.fat, cluster, place);
    LbasInData(g, b.fat, b.chain);
    hide PlaceLbas, IsPlace, IsChain, Lbas, AllClusters, Capacity, Needed, Volume.InMeta;
    forall l | 0 <= l < |a.sectors| && l < g.fatBegin && !g.InMeta(l) ensures b.sectors[l] == a.sectors[l] {
      assert l !in Lbas(g, b.chain) && l !in PlaceLbas(g, place);
    }
  }

  lemma RunKeepsBoot(g: Mounted, cluster: nat, a: Stage, name: seq<byte>, b: Stage, c: Stage, data: seq<byte>)
    requires WholeRun(g, a, name, b, c, data)
    requires IsPlace(g, a.fat, cluster, a.d.place) && IsPlace(g, c.fat, cluster, c.d.place)
    ensures BootKept(g, a.sectors, c.sectors)
  {
    hide Search, Records, Key, Extended, CreatedIn, Within, Inserted, SameLookups, IsPlace, Volume.InMeta;
    if Search(Records(a.d.dirSecs), EMPTY_CACHE, Key(name)).Miss? {
      WithinKeepsBoot(g, c.fat, cluster, c.d.place, a.sectors, b.sectors);
    }
    ExtendedKeepsBoot(g, b.Shot(), c.Shot(), data, cluster, b.d.place);
  }

  lemma ChangeKeepsBoot(g: Mounted, cluster: nat, v: Vol, change: Change, v': Vol)
    requires Changed(g, v, change, v')
    requires IsPlace(g, v.fat, cluster, v.place) && IsPlace(g, v'.fat, cluster, v'.place)
    ensures BootKept(g, v.sectors, v'.sectors)
  {
    hide IsPlace, Key, WholeRun, BootKept, Within, FileAs, Named, Removed, Cleared, Complete, FlatAll;
    match change
    case Store(name, sessions) =>
      var b, d' :| Appends(g, v, name, FlatAll(sessions), b, d', v');
      RunKeepsBoot(g, cluster, Stage(v.fat, v.sectors, v.At(Key(name))), name, b, Stage(v'.fat, v'.sectors, d'),
                   FlatAll(sessions));
    case Delete(name) =>
      WithinKeepsBoot(g, v.fat, cluster, v.place, v.sectors, v'.sectors);
  }

  lemma BootKeptTwice(g: Mounted, a: seq<Sector>, b: seq<Sector>, c: seq<Sector>)
    requires BootKept(g, a, b) && BootKept(g, b, c)
    ensures BootKept(g, a, c)
  {
    hide Volume.InMeta;
  }

  /* ----------- runs ----------- */

  /** fl_remove fails exactly if there is no such file. */
  function Result(m: map<NameKey, seq<byte>>, change: Change): int {
    if change.Delete? && Key(change.name) !in m then -1 else 0
  }

  /** From v to v' no cluster is lost, and no file has taken one it does not need. */
  ghost predicate Counted(g: Mounted, v: Vol, v': Vol) {
    |v.fat| == |v'.fat| == g.Entries() && Clusters(g, v') == Clusters(g, v) && (Exact(g, v) ==> Exact(g, v'))
  }

  lemma SoundCounted(g: Mounted, v: Vol)
    requires Sound(g, v)
    ensures Counted(g, v, v)
  {
    hide Clusters, Exact, Complete, ShortUnique, Distinct, NamesFile, Filed, Disjoint, Records;
  }

  /** Make one change. */
  method Perform(fs: Fatfs, file: FlFile, cluster: nat, change: Change, ghost v: Vol) returns (res: int, ghost v': Vol)
    requires On(fs, cluster, v) && Sound(fs.g, v) && Fits(fs.g, v, change)
    modifies fs`head, fs`next, fs`order, fs`slots, fs`view, fs`fat, fs`nextFree, fs`curAddress, fs`curSector, fs.media,
             file
    ensures On(fs, cluster, v') && Sound(fs.g, v') && IsPlace(fs.g, v'.fat, cluster, v'.place)
    ensures Changed(fs.g, v, change, v') && BootKept(fs.g, v.sectors, v'.sectors) && Counted(fs.g, v, v')
    ensures res == Result(v.Bytes(), change) && v'.Bytes() == Next(v.Bytes(), change)
  {
    hide On, Sound, Fits, Changed, IsPlace, Key, BootKept, Next, Fatfs.Valid, Fatfs.Purged, DirOf, Clusters, Exact;
    OnPlace(fs, cluster, v);
    match change {
      case Store(name, sessions) =>
        v' := AppendFile(fs, file, cluster, name, sessions, v);
        res := 0;
      case Delete(name) =>
        res, v' := RemoveFile(fs, file, cluster, name, v);
    }
    OnPlace(fs, cluster, v');
    ChangeKeeps(fs.g, cluster, v, change, v');
    ChangeKeepsBoot(fs.g, cluster, v, change, v');
    ChangeCounts(fs.g, cluster, v, change, v');
  }

  function Final(m: map<NameKey, seq<byte>>, changes: seq<Change>): map<NameKey, seq<byte>>
    decreases |changes|
  {
    if changes == [] then m else Final(Next(m, changes[0]), changes[1..])
  }

  function Results(m: map<NameKey, seq<byte>>, changes: seq<Change>): seq<int>
    decreases |changes|
  {
    if changes == [] then [] else [Result(m, changes[0])] + Results(Next(m, changes[0]), changes[1..])
  }

  /** At each step of the run there is room for the change that comes then. */
  ghost predicate CanRun(g: Mounted, cluster: nat, v: Vol, changes: seq<Change>)
    decreases |changes|
  {
    && |v.fat| == g.Entries()
    && (changes == [] ||
        (&& Fits(g, v, changes[0])
         && forall v' :: Changed(g, v, changes[0], v') && IsPlace(g, v'.fat, cluster, v'.place) && Sound(g, v') ==>
              CanRun(g, cluster, v', changes[1..])))
  }

  /** Any sequence of append sessions and removals, on any names of the directory: after it the
      medium is the map that the same changes make of the map it was.  Each file has its bytes,
      no other name has any, and no two files share a cluster.  The free clusters, those of the
      files and those of the directory are as many as before, and files that have just the
      clusters they need still do. */
  method RunChanges(fs: Fatfs, file: FlFile, cluster: nat, changes: seq<Change>, ghost v: Vol)
    returns (results: seq<int>, ghost v': Vol)
    requires On(fs, cluster, v) && Sound(fs.g, v) && CanRun(fs.g, cluster, v, changes)
    modifies fs`head, fs`next, fs`order, fs`slots, fs`view, fs`fat, fs`nextFree, fs`curAddress, fs`curSector, fs.media,
             file
    ensures On(fs, cluster, v') && Sound(fs.g, v') && BootKept(fs.g, v.sectors, v'.sectors) && Counted(fs.g, v, v')
    ensures results == Results(v.Bytes(), changes) && v'.Bytes() == Final(v.Bytes(), changes)
    ensures |fs.media.sectors| == fs.g.total
    ensures forall name :: DiskRead(fs.g, fs.media.sectors, cluster, name) ==
              if Key(name) in Final(v.Bytes(), changes) then Some(Final(v.Bytes(), changes)[Key(name)]) else None
  {
    hide On, Sound, Fits, Changed, IsPlace, Key, BootKept, Next, Result, Fatfs.Valid, Fatfs.Purged, DirOf, DiskRead,
         Clusters, Exact;
    results, v' := [], v;
    BootKeptItself(fs.g, v.sectors);
    SoundCounted(fs.g, v);
    var i := 0;
    assert changes[0..] == changes;
    while i < |changes|
      invariant 0 <= i <= |changes|
      invariant On(fs, cluster, v') && Sound(fs.g, v') && CanRun(fs.g, cluster, v', changes[i..]) &&
                BootKept(fs.g, v.sectors, v'.sectors)
      invariant Counted(fs.g, v, v')
      invariant Final(v'.Bytes(), changes[i..]) == Final(v.Bytes(), changes)
      invariant results + Results(v'.Bytes(), changes[i..]) == Results(v.Bytes(), changes)
    {
      assert changes[i..][1..] == changes[i + 1..];
      ghost var before := v';
      var res;
      res, v' := Perform(fs, file, cluster, changes[i], before);
      BootKeptTwice(fs.g, v.sectors, before.sectors, v'.sectors);
      results := results + [res];
      i := i + 1;
    }
    ReadsMap(fs, cluster, v', []);
    forall name
      ensures DiskRead(fs.g, fs.media.sectors, cluster, name) == if Key(name) in v'.Bytes() then
              Some(v'.Bytes()[Key(name)]) else None
    {
      ReadsMap(fs, cluster, v', name);
    }
  }

  lemma BootKeptItself(g: Mounted, sectors: seq<Sector>)
    ensures BootKept(g, sectors, sectors)
  {
  }
}
