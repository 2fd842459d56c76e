/** The clusters of a directory and its files: none is lost, and none taken that is not needed. */
module ClusterCounts {

  import opened Words
  import opened FatEntries
  import opened Geometry
  import opened ChainDefs
  import opened Chains
  import opened FileLayout
  import opened FileSpec
  import opened FileContent
  import opened DirRecords
  import opened Names
  import opened DirSearch
  import opened DirInsert
  import opened DirShort
  import opened DirLayout
  import opened DirUpdate
  import opened DirRoom
  import opened DirWrite
  import opened FileState
  import opened FileRemove
  import opened Sessions
  import opened AppendSessions
  import opened EndToEnd
  import opened OtherFiles
  import opened FilesByName
  import H = ChainHeap

  /** Each file has just the clusters its length rounds up to, or one if it is empty. */
  ghost predicate Exact(g: Mounted, v: Vol) {
    forall key :: key in v.files ==> |v.files[key].chain| == ClusterCount(g, |v.files[key].content|)
  }

  lemma JustEnoughStill(g: Mounted, n: nat, bytes: nat, n': nat, bytes': nat)
    requires n >= 1 && n == ClusterCount(g, bytes) && JustEnough(g, n, n', bytes') && bytes <= bytes'
    ensures n' == ClusterCount(g, bytes')
  {
    hide ClusterCount;
    ExactClusters(g, n, bytes);
    ExactClusters(g, n', bytes');
  }

  lemma AppendsExact(g: Mounted, v: Vol, name: seq<byte>, data: seq<byte>, b: Stage, d': Desk, v': Vol)
    requires Appends(g, v, name, data, b, d', v') && Sound(g, v) && Exact(g, v)
    requires Key(name) in v.files || Search(Records(v.dirSecs), EMPTY_CACHE, Key(name)).Miss?
    ensures Exact(g, v')
  {
    hide Search, Records, Key, Extended, SameLookups, FileAs, Complete, ShortUnique, Distinct, IsLive, IsFile,
         NamesFile, Begun, Filed, Disjoint, JustEnough, ClusterCount;
    var a, c := Stage(v.fat, v.sectors, v.At(Key(name))), Stage(v'.fat, v'.sectors, d');
    FileHere(g, v, Key(name));
    BegunLength(g, a, name, b);
    BegunContent(g, a, name, b);
    ExtendedContent(g, b.Shot(), c.Shot(), data, b.d.place);
    RestIsExact(g, b.Shot(), c, data, b.d.place);
    EmptyCount(g);
    JustEnoughStill(g, |b.d.chain|, |b.d.content|, |d'.chain|, |d'.content|);
  }

  lemma EmptyCount(g: Mounted)
    ensures ClusterCount(g, 0) == 1
  {
    ExactClusters(g, 1, 0);
    hide ClusterCount;
  }

  lemma BegunLength(g: Mounted, a: Stage, name: seq<byte>, b: Stage)
    requires Begun(g, a, name, b)
    ensures if Search(Records(a.d.dirSecs), EMPTY_CACHE, Key(name)).Miss? then |b.d.chain| == 1 else b == a
  {
    hide Search, Records, Key, Within, Inserted, Grown, FreeRun, LfnEntries, Free, PlaceGrown;
  }

  /** All clusters of the files together. */
  ghost function Total(files: map<NameKey, Info>): nat
    decreases |files|
  {
    if files == map[] then 0
    else
      var k :| k in files;
      |files[k].chain| + Total(files - {k})
  }

  lemma {:induction false} TotalWithout(files: map<NameKey, Info>, k: NameKey)
    requires k in files
    ensures Total(files) == |files[k].chain| + Total(files - {k})
    decreases |files|
  {
    var j :| j in files && Total(files) == |files[j].chain| + Total(files - {j});
    if j != k {
      TotalWithout(files - {j}, k);
      TotalWithout(files - {k}, j);
      assert files - {j} - {k} == files - {k} - {j};
    }
  }

  lemma TotalWith(files: map<NameKey, Info>, k: NameKey, f: Info)
    ensures Total(files[k := f]) == Total(files) - (if k in files then |files[k].chain| else 0) + |f.chain|
  {
    TotalWithout(files[k := f], k);
    assert files[k := f] - {k} == files - {k};
    if k in files {
      TotalWithout(files, k);
    } else {
      assert files - {k} == files;
    }
  }

  function OfDirectory(place: Place): nat {
    match place
    case Root16 => 0
    case InChain(chain) => |chain|
  }

  /** Free clusters, those of the files, and those of the directory. */
  ghost function Clusters(g: Mounted, v: Vol): nat
    requires |v.fat| == g.Entries()
  {
    H.FreeAll(g, v.fat) + Total(v.files) + OfDirectory(v.place)
  }

  lemma ClearedAlike(t: FatType, limit: nat, fat: seq<nat>, chain: seq<nat>, fat': seq<nat>, chain': seq<nat>)
    requires Grown(t, limit, fat, chain, fat', chain')
    ensures forall c :: 0 <= c < |fat| ==> (t.IsFree(Cleared(fat', chain')[c]) <==> t.IsFree(Cleared(fat, chain)[c]))
  {
    hide IsChain;
    forall c | 0 <= c < |fat| ensures t.IsFree(Cleared(fat', chain')[c]) <==> t.IsFree(Cleared(fat, chain)[c]) {
      if c in chain' && c !in chain {
        var i :| 0 <= i < |chain'| && chain'[i] == c;
        assert i >= |chain|;
      }
    }
  }

  /** What a chain gains was free. */
  lemma GrownCount(g: Mounted, fat: seq<nat>, chain: seq<nat>, fat': seq<nat>, chain': seq<nat>)
    requires |fat| == g.Entries() && Grown(g.fatType, g.Limit(), fat, chain, fat', chain')
    requires chain == [] || IsChain(g.fatType, fat, g.Limit(), chain)
    ensures H.FreeAll(g, fat') + |chain'| == H.FreeAll(g, fat) + |chain|
  {
    var t, limit := g.fatType, g.Limit();
    ClearedAlike(t, limit, fat, chain, fat', chain');
    hide FatType.IsFree, FreeCount, Volume.WellFormed;
    ChainFreed(t, fat', limit, chain', chain');
    if chain == [] {
      assert Cleared(fat, chain) == fat;
    } else {
      ChainFreed(t, fat, limit, chain, chain);
    }
    H.FreeCountSame(t, Cleared(fat', chain'), Cleared(fat, chain), 0, limit);
  }

  lemma BegunCount(g: Mounted, cluster: nat, a: Stage, name: seq<byte>, b: Stage)
    requires Begun(g, a, name, b) && Search(Records(a.d.dirSecs), EMPTY_CACHE, Key(name)).Miss?
    requires |a.fat| == g.Entries() && IsPlace(g, a.fat, cluster, a.d.place)
    ensures |b.fat| == g.Entries() && IsChain(g.fatType, b.fat, g.Limit(), b.d.chain)
    ensures H.FreeAll(g, b.fat) + 1 + OfDirectory(b.d.place) == H.FreeAll(g, a.fat) + OfDirectory(a.d.place)
  {
    hide Search, Records, Key, Within, Inserted, FreeRun, LfnEntries, Free, H.FreeAll, IsChain, Disjoint;
    var fat1 := a.fat[b.d.chain[0] := LAST % g.fatType.Range()];
    GrownCount(g, a.fat, [], fat1, b.d.chain);
    if a.d.place.InChain? {
      GrownKeepsOther(g.fatType, g.Limit(), a.fat, [], fat1, b.d.chain, a.d.place.chain);
    }
    GrowthKeepsOther(g, fat1, a.d.place, b.fat, b.d.place, b.d.chain);
    if b.d.place != a.d.place {
      GrownCount(g, fat1, a.d.place.chain, b.fat, b.d.place.chain);
    }
  }

  /** Appending moves clusters, and loses none. */
  lemma AppendsCount(g: Mounted, cluster: nat, v: Vol, name: seq<byte>, data: seq<byte>, b: Stage, d': Desk, v': Vol)
    requires Appends(g, v, name, data, b, d', v') && Sound(g, v) && IsPlace(g, v.fat, cluster, v.place)
    requires Key(name) in v.files || Search(Records(v.dirSecs), EMPTY_CACHE, Key(name)).Miss?
    ensures |v.fat| == |v'.fat| == g.Entries() && Clusters(g, v') == Clusters(g, v)
  {
    hide Search, Records, Key, SameLookups, FileAs, Complete, ShortUnique, Distinct, IsLive, IsFile, NamesFile, Begun,
         Filed, Disjoint, Total, H.FreeAll, IsPlace, IsChain, Grown, OnlyThese, AllClusters, Capacity, Needed,
         SectorsFor;
    var a := Stage(v.fat, v.sectors, v.At(Key(name)));
    FileHere(g, v, Key(name));
    BegunLength(g, a, name, b);
    if Key(name) in v.files {
      FileChain(g, v.fat, v.sectors, a.d);
    } else {
      BegunCount(g, cluster, a, name, b);
    }
    FileChain(g, v'.fat, v'.sectors, d');
    GrownCount(g, b.fat, b.d.chain, v'.fat, d'.chain);
    TotalWith(v.files, Key(name), v'.files[Key(name)]);
  }

  lemma FileChain(g: Mounted, fat: seq<nat>, sectors: seq<Sector>, d: Desk)
    requires FileAs(g, fat, sectors, d)
    ensures |fat| == g.Entries() && IsChain(g.fatType, fat, g.Limit(), d.chain)
  {
  }

  lemma RemovesCount(g: Mounted, v: Vol, key: NameKey, v': Vol)
    requires Removes(g, v, key, v') && Sound(g, v)
    ensures |v.fat| == |v'.fat| == g.Entries() && Clusters(g, v') == Clusters(g, v)
    ensures Exact(g, v) ==> Exact(g, v')
  {
    hide Search, Records, FileAs, Complete, ShortUnique, Distinct, NamesFile, Filed, Disjoint, Total, IsChain, Removed,
         Within, PlaceLbas, Cleared, FreeCount, ClusterCount;
    FileHere(g, v, key);
    if key in v.files {
      FileChain(g, v.fat, v.sectors, v.At(key));
      ChainFreed(g.fatType, v.fat, g.Limit(), v.files[key].chain, []);
      TotalWithout(v.files, key);
    } else {
      assert v.files - {key} == v.files;
    }
  }

  /** Each change keeps the number of clusters, and each file at those it needs. */
  lemma ChangeCounts(g: Mounted, cluster: nat, v: Vol, change: Change, v': Vol)
    requires Sound(g, v) && IsPlace(g, v.fat, cluster, v.place)
    requires Fits(g, v, change) && Changed(g, v, change, v')
    ensures |v.fat| == |v'.fat| == g.Entries() && Clusters(g, v') == Clusters(g, v) && (Exact(g, v) ==> Exact(g, v'))
  {
    hide Sound, IsPlace, Search, Records, Key, Appends, Removes, HasRoom, Clusters, Exact, FlatAll;
    match change
    case Store(name, sessions) =>
      var b, d' :| Appends(g, v, name, FlatAll(sessions), b, d', v');
      AppendsCount(g, cluster, v, name, FlatAll(sessions), b, d', v');
      if Exact(g, v) {
        AppendsExact(g, v, name, FlatAll(sessions), b, d', v');
      }
    case Delete(name) =>
      RemovesCount(g, v, Key(name), v');
  }
}
