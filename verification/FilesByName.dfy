/** All files of a directory at once: what the medium holds is a map from names to bytes. */
module FilesByName {

  import opened Words
  import opened Geometry
  import opened ChainDefs
  import opened FatTable
  import opened FileLayout
  import opened DirRecords
  import opened Names
  import opened DirSearch
  import opened DirInsert
  import opened DirShort
  import opened DirLayout
  import opened DirAccess
  import opened DirUpdate
  import opened DirSpace
  import opened DirWrite
  import opened DiskReader
  import opened FileCreate
  import opened FileState
  import opened FileClose
  import opened FileRemove
  import opened Sessions
  import opened AppendSessions
  import opened EndToEnd
  import opened OtherFiles

  /* ----------- names of their own ----------- */

  ghost predicate Findable(records: seq<Record>, i: nat) {
    exists key :: Search(records, EMPTY_CACHE, key) == Hit(i)
  }

  /** Every live record is the one its own name finds. */
  ghost predicate Distinct(records: seq<Record>) {
    forall i :: 0 <= i < |records| && IsLive(records[i]) ==> Findable(records, i)
  }

  lemma DistinctInserted(records: seq<Record>, records': seq<Record>, e: Entry, index: nat)
    requires Distinct(records) && Search(records, EMPTY_CACHE, Key(e.filename)).Miss?
    requires Inserted(records, records', e, index)
    ensures Distinct(records')
  {
    ZeroIsUnused();
    hide Search, Key, SfnRecord, IsLive, Complete, ShortUnique, LfnEntries;
    forall i | 0 <= i < |records'| && IsLive(records'[i]) ensures Findable(records', i) {
      if i != index {
        assert i < |records| && records[i] == records'[i];
        var key :| Search(records, EMPTY_CACHE, key) == Hit(i);
        assert SameOutcome(Search(records, EMPTY_CACHE, key), Search(records', EMPTY_CACHE, key));
      }
    }
  }

  lemma DistinctSame(records: seq<Record>, index: nat, records': seq<Record>)
    requires Distinct(records) && SameLookups(records, index, records') && Findable(records, index)
    ensures Distinct(records')
  {
    hide Search, IsLive, Complete;
    forall i | 0 <= i < |records'| && IsLive(records'[i]) ensures Findable(records', i) {
      assert i != index ==> records[i] == records'[i];
      var key :| Search(records, EMPTY_CACHE, key) == Hit(i);
      assert Search(records', EMPTY_CACHE, key) == Hit(i);
    }
  }

  lemma DistinctRemoved(records: seq<Record>, index: nat, records': seq<Record>)
    requires Distinct(records) && Removed(records, index, records') && IsLive(records[index])
    ensures Distinct(records')
  {
    DeletedIsDead(records[index]);
    hide Search, IsLive, Deleted;
    forall i | 0 <= i < |records'| && IsLive(records'[i]) ensures Findable(records', i) {
      assert i != index && records[i] == records'[i];
      var key :| Search(records, EMPTY_CACHE, key) == Hit(i);
      assert SameOutcome(Search(records, EMPTY_CACHE, key), Search(records', EMPTY_CACHE, key));
    }
  }

  lemma HitBehind(records: seq<Record>, i: nat, key: NameKey, j: nat)
    requires i < |records| && Complete(records, NOTHING) && IsLive(records[i])
    requires Search(records, EMPTY_CACHE, key) == Hit(i + 1 + j)
    ensures Search(records[i + 1..], EMPTY_CACHE, key) == Hit(j)
  {
    hide Search, Complete;
    EmptyCacheValid();
    assert EMPTY_CACHE.rows == 0;
    LiveOrNot(records[i]);
    var pre, rest := records[..i + 1], records[i + 1..];
    assert records == pre + rest;
    SearchConcat(pre, rest, EMPTY_CACHE, key);
    SearchEndsClean(pre, EMPTY_CACHE, key);
    hide IsLive, IsLfnText;
    CompletePost(records, i + 1);
    SearchAgree(rest, Search(pre, EMPTY_CACHE, key).cache, EMPTY_CACHE, NOTHING, key);
  }

  /** Then no later record answers to the name that finds one. */
  lemma NoneBehind(records: seq<Record>, i: nat, key: NameKey)
    requires Distinct(records) && Complete(records, NOTHING) && Search(records, EMPTY_CACHE, key) == Hit(i)
    ensures i < |records| && Search(records[i + 1..], EMPTY_CACHE, key).Miss?
  {
    hide Search, IsLive, Complete;
    EmptyCacheValid();
    var rest := records[i + 1..];
    var f := Search(rest, EMPTY_CACHE, key);
    if f.Hit? {
      assert rest[f.index] == records[i + 1 + f.index];
      assert Findable(records, i + 1 + f.index);
      var l :| Search(records, EMPTY_CACHE, l) == Hit(i + 1 + f.index);
      HitBehind(records, i, l, f.index);
      SearchInjective(rest, EMPTY_CACHE, key, l);
    }
  }

  /* ----------- a directory of files ----------- */

  /** A file: its record, its clusters, their sectors, and its contents. */
  datatype Info = Info(index: nat, chain: seq<nat>, secs: seq<Sector>, content: seq<byte>)

  /** FAT and sectors of a volume, one of its directories, and the files that are in it by the
      names they answer to. */
  datatype Vol = Vol(fat: seq<nat>, sectors: seq<Sector>, place: Place, dirSecs: seq<Sector>, files: map<NameKey,
                     Info>) {

    function Of(f: Info): Desk {
      Desk(place, dirSecs, f.index, f.chain, f.secs, f.content)
    }

    /** The file of a name, or nothing yet. */
    function At(key: NameKey): Desk {
      if key in files then Of(files[key]) else Desk(place, dirSecs, 0, [], [], [])
    }

    /** What it comes to: a map from names to bytes. */
    function Bytes(): map<NameKey, seq<byte>> {
      map key | key in files :: files[key].content
    }
  }

  ghost predicate NamesFile(records: seq<Record>, key: NameKey) {
    var f := Search(records, EMPTY_CACHE, key);
    f.Hit? && IsFile(records[f.index])
  }

  ghost predicate Filed(g: Mounted, v: Vol, key: NameKey, f: Info) {
    FileAs(g, v.fat, v.sectors, v.Of(f)) && Search(Records(v.dirSecs), EMPTY_CACHE, key) == Hit(f.index)
  }

  /** The directory is well formed, each live record has a name of its own, and no two files
      share a cluster. */
  ghost predicate Sound(g: Mounted, v: Vol) {
    && |v.fat| == g.Entries()
    && Complete(Records(v.dirSecs), NOTHING) && ShortUnique(Records(v.dirSecs)) && Distinct(Records(v.dirSecs))
    && (forall key :: key in v.files <==> NamesFile(Records(v.dirSecs), key))
    && (forall key :: key in v.files ==> Filed(g, v, key, v.files[key]))
    && (forall k, l :: k in v.files && l in v.files && k != l ==> Disjoint(v.files[k].chain, v.files[l].chain))
  }

  /** The library is at rest on this volume, and everything is on the medium. */
  ghost predicate On(fs: Fatfs, cluster: nat, v: Vol)
    reads fs`slots, fs`next, fs`head, fs`order, fs`view, fs`fat, fs`curAddress, fs`curSector, fs.media`sectors
  {
    DirOf(fs, cluster, v.place, v.dirSecs) && fs.Purged() && fs.fat == v.fat && fs.media.sectors == v.sectors
  }

  lemma FileHere(g: Mounted, v: Vol, key: NameKey)
    requires Sound(g, v)
    ensures key in v.files ==>
              && FileAs(g, v.fat, v.sectors, v.At(key)) && v.At(key).index < |Records(v.dirSecs)|
              && Search(Records(v.dirSecs), EMPTY_CACHE, key) == Hit(v.At(key).index) &&
                 NamesFile(Records(v.dirSecs), key)
    ensures NamesFile(Records(v.dirSecs), key) ==> key in v.files
  {
    hide Search, Records, Complete, ShortUnique, Distinct, FileAs, IsFile;
    if key in v.files {
      assert Filed(g, v, key, v.files[key]);
    }
  }

  /** The reference reader finds exactly the files of the map, and their bytes. */
  lemma ReadsMap(fs: Fatfs, cluster: nat, v: Vol, name: seq<byte>)
    requires On(fs, cluster, v) && Sound(fs.g, v)
    ensures |fs.media.sectors| == fs.g.total
    ensures DiskRead(fs.g, fs.media.sectors, cluster, name) == if Key(name) in v.Bytes() then
            Some(v.Bytes()[Key(name)]) else None
  {
    hide Search, Records, Key, FileAs, DirOf, Sound, DiskRead, Fatfs.Purged;
    FileHere(fs.g, v, Key(name));
    DirOfTotal(fs, cluster, v.place, v.dirSecs);
    hide NamesFile;
    if Key(name) in v.files {
      AtRestReads(fs, cluster, v.At(Key(name)), name);
    } else {
      NoFileReads(fs, cluster, v.place, v.dirSecs, name);
    }
  }

  lemma NoFileReads(fs: Fatfs, cluster: nat, place: Place, dirSecs: seq<Sector>, name: seq<byte>)
    requires DirOf(fs, cluster, place, dirSecs) && fs.Purged()
    requires !NamesFile(Records(dirSecs), Key(name))
    ensures |fs.media.sectors| == fs.g.total && DiskRead(fs.g, fs.media.sectors, cluster, name) == None
  {
    hide PlaceLbas, IsPlace, Fatfs.ValidWith, Hold, Records, Search, DiskDirectory, DiskBytes, Key, IsFile;
    DiskDirectoryReads(fs.g, fs.media.sectors, fs.fat, cluster, place, dirSecs);
  }

  /* ----------- appending ----------- */

  /** Sessions that append to a file have taken the volume from v to v'. */
  ghost predicate Appends(g: Mounted, v: Vol, name: seq<byte>, data: seq<byte>, b: Stage, d': Desk, v': Vol) {
    && WholeRun(g, Stage(v.fat, v.sectors, v.At(Key(name))), name, b, Stage(v'.fat, v'.sectors, d'), data)
    && FileAs(g, v'.fat, v'.sectors, d') && Named(d', name)
    && v'.place == d'.place && v'.dirSecs == d'.dirSecs
    && v'.files == v.files[Key(name) := Info(d'.index, d'.chain, d'.secs, d'.content)]
  }

  lemma AppendsParts(g: Mounted, v: Vol, name: seq<byte>, data: seq<byte>, b: Stage, d': Desk, v': Vol)
    requires Appends(g, v, name, data, b, d', v') && Sound(g, v)
    requires Key(name) in v.files || Search(Records(v.dirSecs), EMPTY_CACHE, Key(name)).Miss?
    ensures var a := Stage(v.fat, v.sectors, v.At(Key(name)));
            && WholeRun(g, a, name, b, Stage(v'.fat, v'.sectors, d'), data)
            && (Search(Records(a.d.dirSecs), EMPTY_CACHE, Key(name)).Hit? ==>
                Named(a.d, name) && b == a && Key(name) in v.files)
    ensures |v'.fat| == g.Entries() && ShortUnique(Records(v'.dirSecs))
    ensures SameLookups(Records(b.d.dirSecs), b.d.index, Records(v'.dirSecs))
    ensures Search(Records(v'.dirSecs), EMPTY_CACHE, Key(name)) == Hit(d'.index) && d'.index < |Records(v'.dirSecs)| &&
            IsFile(Records(v'.dirSecs)[d'.index])
  {
    hide Search, Records, Key, Extended, CreatedIn, Within, Inserted, Complete, ShortUnique, Distinct, SameLookups,
         IsLive, IsFile, Filed, NamesFile, Hold, AllClusters, IsChain, Reserved, Apart;
    FileHere(g, v, Key(name));
  }

  lemma InsertedParts(records: seq<Record>, records': seq<Record>, e: Entry, index: nat)
    requires Inserted(records, records', e, index)
    ensures Complete(records', NOTHING) && Findable(records', index)
  {
    hide Search, Complete, ShortUnique, Placed, LiveKept;
  }

  lemma AppendsDirectory(g: Mounted, v: Vol, name: seq<byte>, data: seq<byte>, b: Stage, d': Desk, v': Vol)
    requires Appends(g, v, name, data, b, d', v') && Sound(g, v)
    requires Key(name) in v.files || Search(Records(v.dirSecs), EMPTY_CACHE, Key(name)).Miss?
    ensures Complete(Records(v'.dirSecs), NOTHING) && Distinct(Records(v'.dirSecs))
  {
    hide Appends, Search, Records, Key, Extended, CreatedIn, Within, Inserted, ShortUnique, Distinct, IsLive, IsFile,
         Filed, NamesFile;
    AppendsParts(g, v, name, data, b, d', v');
    var records, records1 := Records(v.dirSecs), Records(b.d.dirSecs);
    if Search(records, EMPTY_CACHE, Key(name)).Miss? {
      var e: Entry :| e.filename == name && Inserted(records, records1, e, b.d.index);
      DistinctInserted(records, records1, e, b.d.index);
      InsertedParts(records, records1, e, b.d.index);
    }
    DistinctSame(records1, b.d.index, Records(v'.dirSecs));
  }

  lemma AppendsNames(g: Mounted, v: Vol, name: seq<byte>, data: seq<byte>, b: Stage, d': Desk, v': Vol, key: NameKey)
    requires Appends(g, v, name, data, b, d', v') && Sound(g, v)
    requires Key(name) in v.files || Search(Records(v.dirSecs), EMPTY_CACHE, Key(name)).Miss?
    ensures key in v'.files <==> NamesFile(Records(v'.dirSecs), key)
  {
    hide Search, Records, Key, WholeRun, SameLookups, FileAs, Complete, ShortUnique, Distinct, IsLive, IsFile, Filed;
    AppendsParts(g, v, name, data, b, d', v');
    FileHere(g, v, key);
    if key != Key(name) {
      OtherNameKept(g, Stage(v.fat, v.sectors, v.At(Key(name))), name, b, Stage(v'.fat, v'.sectors, d'), data, key);
    }
  }

  lemma AppendsFiled(g: Mounted, cluster: nat, v: Vol, name: seq<byte>, data: seq<byte>, b: Stage, d': Desk, v': Vol,
                     key: NameKey)
    requires Appends(g, v, name, data, b, d', v') && Sound(g, v)
    requires Key(name) in v.files || Search(Records(v.dirSecs), EMPTY_CACHE, Key(name)).Miss?
    requires IsPlace(g, v.fat, cluster, v.place) && IsPlace(g, v'.fat, cluster, v'.place)
    requires key in v'.files
    ensures Filed(g, v', key, v'.files[key])
    ensures key != Key(name) ==>
            key in v.files && v'.files[key] == v.files[key] && Disjoint(v.files[key].chain, d'.chain)
  {
    hide Search, Records, Key, WholeRun, SameLookups, FileAs, Complete, ShortUnique, Distinct, IsLive, IsFile,
         NamesFile, IsPlace, Disjoint;
    AppendsParts(g, v, name, data, b, d', v');
    if key == Key(name) {
      assert v'.Of(v'.files[key]) == d';
    } else {
      FileHere(g, v, key);
      FilesDisjoint(g, v, key, Key(name));
      var o' := OtherFileKept(g, cluster, Stage(v.fat, v.sectors, v.At(Key(name))), name, b,
                              Stage(v'.fat, v'.sectors, d'), data, v.At(key), key);
      assert v'.Of(v'.files[key]) == o';
    }
  }

  lemma FilesDisjoint(g: Mounted, v: Vol, k: NameKey, l: NameKey)
    requires Sound(g, v) && k in v.files && k != l
    ensures l in v.files ==> Disjoint(v.files[k].chain, v.files[l].chain)
  {
    hide Complete, ShortUnique, Distinct, NamesFile, Filed, Disjoint;
  }

  /** Appending to one file keeps the volume sound, and adds the bytes to that file alone. */
  lemma AppendsSound(g: Mounted, cluster: nat, v: Vol, name: seq<byte>, data: seq<byte>, b: Stage, d': Desk, v': Vol)
    requires Appends(g, v, name, data, b, d', v') && Sound(g, v)
    requires Key(name) in v.files || Search(Records(v.dirSecs), EMPTY_CACHE, Key(name)).Miss?
    requires IsPlace(g, v.fat, cluster, v.place) && IsPlace(g, v'.fat, cluster, v'.place)
    ensures Sound(g, v')
    ensures v'.Bytes() == v.Bytes()[Key(name) := (if Key(name) in v.Bytes() then v.Bytes()[Key(name)] else []) + data]
  {
    hide Search, Records, Key, WholeRun, SameLookups, FileAs, Complete, ShortUnique, Distinct, IsLive, IsFile,
         NamesFile, IsPlace, Disjoint, Filed;
    AppendsParts(g, v, name, data, b, d', v');
    AppendsDirectory(g, v, name, data, b, d', v');
    AppendsBytes(g, v, name, data, b, d', v');
    forall key ensures key in v'.files <==> NamesFile(Records(v'.dirSecs), key) {
      AppendsNames(g, v, name, data, b, d', v', key);
    }
    forall key | key in v'.files ensures Filed(g, v', key, v'.files[key]) {
      AppendsFiled(g, cluster, v, name, data, b, d', v', key);
    }
    forall k, l | k in v'.files && l in v'.files && k != l ensures Disjoint(v'.files[k].chain, v'.files[l].chain) {
      AppendsFiled(g, cluster, v, name, data, b, d', v', k);
      AppendsFiled(g, cluster, v, name, data, b, d', v', l);
      if k == Key(name) {
        DisjointSwap(v.files[l].chain, d'.chain);
      } else if l != Key(name) {
        FilesDisjoint(g, v, k, l);
      }
    }
  }

  lemma AppendsBytes(g: Mounted, v: Vol, name: seq<byte>, data: seq<byte>, b: Stage, d': Desk, v': Vol)
    requires Appends(g, v, name, data, b, d', v') && Sound(g, v)
    requires Key(name) in v.files || Search(Records(v.dirSecs), EMPTY_CACHE, Key(name)).Miss?
    ensures v'.Bytes() == v.Bytes()[Key(name) := (if Key(name) in v.Bytes() then v.Bytes()[Key(name)] else []) + data]
  {
    hide Search, Records, Key, Extended, SameLookups, FileAs, Complete, ShortUnique, Distinct, IsLive, IsFile,
         NamesFile, Begun, Filed;
    var a := Stage(v.fat, v.sectors, v.At(Key(name)));
    BegunContent(g, a, name, b);
    ExtendedContent(g, b.Shot(), Stage(v'.fat, v'.sectors, d').Shot(), data, b.d.place);
    FileHere(g, v, Key(name));
    assert Search(Records(v.dirSecs), EMPTY_CACHE, Key(name)).Miss? <==> Key(name) !in v.files;
  }

  /* ----------- removing ----------- */

  /** fl_remove has taken the volume from v to v'. */
  ghost predicate Removes(g: Mounted, v: Vol, key: NameKey, v': Vol) {
    && v'.place == v.place && Within(g, v.sectors, v'.sectors, PlaceLbas(g, v.place))
    && v'.files == v.files - {key}
    && if key in v.files then
         && Removed(Records(v.dirSecs), v.files[key].index, Records(v'.dirSecs)) &&
            Complete(Records(v'.dirSecs), NOTHING)
         && v'.fat == Cleared(v.fat, v.files[key].chain)
       else
         v'.fat == v.fat && v'.dirSecs == v.dirSecs
  }

  lemma NoneRemovedFiled(g: Mounted, cluster: nat, v: Vol, key: NameKey, v': Vol, l: NameKey)
    requires Removes(g, v, key, v') && Sound(g, v) && IsPlace(g, v.fat, cluster, v.place)
    requires key !in v.files && l in v.files
    ensures Filed(g, v', l, v.files[l])
  {
    hide Search, Records, Complete, ShortUnique, Distinct, NamesFile, IsPlace, PlaceLbas, Within, IsChain, Apart, Hold,
         Lbas, Reserved, AllClusters, Recorded, Disjoint, IsLive, IsFile;
    assert Filed(g, v, l, v.files[l]);
    WithinKeepsFile(g, v.fat, cluster, v.place, v.files[l].chain, v.sectors, v'.sectors, v.files[l].secs);
  }

  lemma OthersIndex(records: seq<Record>, k: NameKey, l: NameKey, i: nat, j: nat)
    requires Search(records, EMPTY_CACHE, k) == Hit(i) && Search(records, EMPTY_CACHE, l) == Hit(j) && k != l
    ensures i != j
  {
    EmptyCacheValid();
    hide Search;
    if i == j {
      SearchInjective(records, EMPTY_CACHE, k, l);
    }
  }

  lemma RemovesFiled(g: Mounted, cluster: nat, v: Vol, key: NameKey, v': Vol, l: NameKey)
    requires Removes(g, v, key, v') && Sound(g, v) && IsPlace(g, v.fat, cluster, v.place)
    requires l in v'.files
    ensures Filed(g, v', l, v'.files[l])
  {
    if key !in v.files {
      NoneRemovedFiled(g, cluster, v, key, v', l);
    } else {
      hide Search, Records, Complete, ShortUnique, Distinct, NamesFile, IsPlace, Within, FileAs, Removed, PlaceLbas,
           Cleared, Disjoint, IsFile;
      FileHere(g, v, key);
      FileHere(g, v, l);
      FilesDisjoint(g, v, l, key);
      OthersIndex(Records(v.dirSecs), key, l, v.At(key).index, v.At(l).index);
      var o' := RemovedKeepsOther(g, cluster, v.fat, v.sectors, v.At(key), v'.sectors, v'.dirSecs, v.At(l), l);
      assert v'.Of(v'.files[l]) == o';
    }
  }

  lemma RemovesNames(g: Mounted, v: Vol, key: NameKey, v': Vol, l: NameKey)
    requires Removes(g, v, key, v') && Sound(g, v)
    ensures l in v'.files <==> NamesFile(Records(v'.dirSecs), l)
  {
    hide Search, Records, Complete, ShortUnique, Distinct, Within, FileAs, PlaceLbas, Cleared, Disjoint, IsFile, IsLive,
         Deleted, Filed;
    FileHere(g, v, l);
    if key in v.files {
      FileHere(g, v, key);
      var records, records', i := Records(v.dirSecs), Records(v'.dirSecs), v.files[key].index;
      if l == key {
        NoneBehind(records, i, key);
        RemovedIsGone(records, i, key);
      } else {
        var f := Search(records, EMPTY_CACHE, l);
        if f.Hit? {
          OthersIndex(records, key, l, i, f.index);
        }
        assert SameOutcome(f, Search(records', EMPTY_CACHE, l));
      }
    }
  }

  lemma RemovesDirectory(g: Mounted, v: Vol, key: NameKey, v': Vol)
    requires Removes(g, v, key, v') && Sound(g, v)
    ensures Complete(Records(v'.dirSecs), NOTHING) && ShortUnique(Records(v'.dirSecs)) && Distinct(Records(v'.dirSecs))
    ensures |v'.fat| == |v.fat|
  {
    hide Search, Records, Complete, ShortUnique, Distinct, Within, FileAs, PlaceLbas, Disjoint, IsFile, IsLive, Deleted,
         NamesFile, Filed;
    if key in v.files {
      FileHere(g, v, key);
      var records, i := Records(v.dirSecs), v.files[key].index;
      assert IsLive(records[i]);
      DistinctRemoved(records, i, Records(v'.dirSecs));
      DeleteKeepsUnique(records, i);
    }
  }

  /** Removing one file keeps the volume sound, and leaves exactly the others. */
  lemma RemovesSound(g: Mounted, cluster: nat, v: Vol, key: NameKey, v': Vol)
    requires Removes(g, v, key, v') && Sound(g, v) && IsPlace(g, v.fat, cluster, v.place)
    ensures Sound(g, v') && v'.Bytes() == v.Bytes() - {key}
  {
    hide Search, Records, Complete, ShortUnique, Distinct, Within, FileAs, PlaceLbas, Cleared, Disjoint, IsFile, IsLive,
         NamesFile, Filed, Removed;
    RemovesDirectory(g, v, key, v');
    forall l ensures l in v'.files <==> NamesFile(Records(v'.dirSecs), l) {
      RemovesNames(g, v, key, v', l);
    }
    forall l | l in v'.files ensures Filed(g, v', l, v'.files[l]) {
      RemovesFiled(g, cluster, v, key, v', l);
    }
    forall k, l | k in v'.files && l in v'.files && k != l ensures Disjoint(v'.files[k].chain, v'.files[l].chain) {
      FilesDisjoint(g, v, k, l);
    }
  }

  /* ----------- changes ----------- */

  datatype Change = Store(name: seq<byte>, sessions: seq<seq<Op>>) | Delete(name: seq<byte>)

  /** What a change does to the map. */
  function Next(m: map<NameKey, seq<byte>>, change: Change): map<NameKey, seq<byte>> {
    var key := Key(change.name);
    match change
    case Store(_, sessions) => m[key := (if key in m then m[key] else []) + FlatAll(sessions)]
    case Delete(_) => m - {key}
  }

  /** There is room to append, and the name is not that of a directory. */
  ghost predicate Fits(g: Mounted, v: Vol, change: Change)
    requires |v.fat| == g.Entries()
  {
    change.Store? ==>
      && change.sessions != [] && HasRoom(g, v.fat, change.name, v.At(Key(change.name)), |FlatAll(change.sessions)|)
      && (Key(change.name) in v.files || Search(Records(v.dirSecs), EMPTY_CACHE, Key(change.name)).Miss?)
  }

  /** The change has taken the volume from v to v'. */
  ghost predicate Changed(g: Mounted, v: Vol, change: Change, v': Vol) {
    match change
    case Store(name, sessions) => exists b, d' :: Appends(g, v, name, FlatAll(sessions), b, d', v')
    case Delete(name) => Removes(g, v, Key(name), v')
  }

  /** Every change does to the volume what it does to the map. */
  lemma ChangeKeeps(g: Mounted, cluster: nat, v: Vol, change: Change, v': Vol)
    requires Sound(g, v) && IsPlace(g, v.fat, cluster, v.place) && IsPlace(g, v'.fat, cluster, v'.place)
    requires Fits(g, v, change) && Changed(g, v, change, v')
    ensures Sound(g, v') && v'.Bytes() == Next(v.Bytes(), change)
  {
    hide Sound, IsPlace, Search, Records, Key, Appends, Removes, HasRoom;
    match change
    case Store(name, sessions) =>
      var b, d' :| Appends(g, v, name, FlatAll(sessions), b, d', v');
      AppendsSound(g, cluster, v, name, FlatAll(sessions), b, d', v');
    case Delete(name) =>
      RemovesSound(g, cluster, v, Key(name), v');
  }
}
