/** Room reckoned in advance: a condition on the volume before a run under which every change
    of the run finds the room it needs. */
module Budget {

  import opened Words
  import opened FatEntries
  import opened Geometry
  import opened ChainDefs
  import opened FileLayout
  import opened FileSpec
  import opened FileContent
  import opened DirRecords
  import opened Names
  import opened DirSearch
  import opened DirInsert
  import opened DirShort
  import opened DirLayout
  import opened DirUpdate
  import opened DirSpace
  import opened DirWrite
  import opened ShortNames
  import opened FileState
  import opened FileCreate
  import opened FileRemove
  import opened Sessions
  import opened AppendSessions
  import opened EndToEnd
  import opened FilesByName
  import opened VolumeRuns
  import H = ChainHeap

  /* ----------- what a change may cost ----------- */

  /** The clusters that many bytes fill. */
  function Rounded(g: Mounted, bytes: nat): nat {
    (SectorsFor(bytes) + g.sectorsPerCluster - 1) / g.sectorsPerCluster
  }

  lemma RoundedFits(g: Mounted, bytes: nat)
    ensures SectorsFor(bytes) <= g.Span(Rounded(g, bytes))
  {
    if SectorsFor(bytes) > 0 {
      var _ := RoundUp(g, SectorsFor(bytes));
    }
  }

  function BytesOf(change: Change): nat {
    if change.Store? then |FlatAll(change.sessions)| else 0
  }

  /** Those of its bytes, one begun before for a new file, and one for a directory that is full. */
  function ClustersOf(g: Mounted, change: Change): nat {
    if change.Store? then Rounded(g, BytesOf(change)) + 2 else 0
  }

  function RecordsNeeded(change: Change): nat {
    if change.Store? then LfnEntries(change.name) + 1 else 0
  }

  function TotalBytes(changes: seq<Change>): nat {
    if changes == [] then 0 else BytesOf(changes[0]) + TotalBytes(changes[1..])
  }

  function TotalClusters(g: Mounted, changes: seq<Change>): nat {
    if changes == [] then 0 else ClustersOf(g, changes[0]) + TotalClusters(g, changes[1..])
  }

  function TotalRecords(changes: seq<Change>): nat {
    if changes == [] then 0 else RecordsNeeded(changes[0]) + TotalRecords(changes[1..])
  }

  /** A good name whose records fit into one cluster. */
  predicate Proper(g: Mounted, change: Change) {
    change.Store? ==>
        change.sessions != [] && GoodName(change.name) && RecordsNeeded(change) <= PER_SECTOR * g.sectorsPerCluster
  }

  ghost predicate OnlyFiles(records: seq<Record>) {
    forall i :: 0 <= i < |records| && IsLive(records[i]) ==> IsFile(records[i])
  }

  /** The last `tail` records have never been used. */
  ghost predicate BlankTail(records: seq<Record>, tail: nat) {
    tail <= |records| && forall k :: |records| - tail <= k < |records| ==> records[k] == Zeros(ENTRY_SIZE)
  }

  /** The volume has room for all the changes, counting nothing that a removal gives back. */
  ghost predicate Affords(g: Mounted, v: Vol, tail: nat, changes: seq<Change>) {
    && |v.fat| == g.Entries() && Reserved(g.fatType, v.fat, g.rootFirstCluster)
    && OnlyFiles(Records(v.dirSecs))
    && (forall i :: 0 <= i < |changes| ==> Proper(g, changes[i]))
    && |LiveSet(Records(v.dirSecs))| + |changes| <= 9998
    && TotalBytes(changes) < WORD32
    && (forall key :: key in v.files ==> |v.files[key].content| + TotalBytes(changes) < WORD32)
    && TotalClusters(g, changes) <= Free(g, v.fat)
    && (v.place.Root16? ==> BlankTail(Records(v.dirSecs), tail) && TotalRecords(changes) <= tail)
  }

  /* ----------- the first change fits ----------- */

  /** Enough blank records at the end are a run, and it starts no later than they do. */
  lemma {:induction false} TailRun(records: seq<Record>, tail: nat, i: nat, spaces: nat, start: nat, need: nat)
    requires BlankTail(records, tail) && 0 < need <= tail && i <= |records|
    requires if spaces > 0 then start + spaces == i && start <= |records| - tail else i <= |records| - tail
    requires i > |records| - tail ==> spaces < need
    ensures FreeRun(records, i, spaces, start, need).At? &&
            FreeRun(records, i, spaces, start, need).start <= |records| - tail
    decreases |records| - i
  {
    ZeroIsUnused();
    hide IsLfnText, IsUnused;
    var start' := if spaces == 0 then i else start;
    if IsLfnText(records[i]) {
      TailRun(records, tail, i + 1, spaces + 1, start', need);
    } else if IsUnused(records[i]) {
      if spaces + 1 < need {
        TailRun(records, tail, i + 1, spaces + 1, start', need);
      }
    } else {
      TailRun(records, tail, i + 1, 0, start, need);
    }
  }

  lemma LiveIsFiled(g: Mounted, v: Vol, key: NameKey)
    requires Sound(g, v) && OnlyFiles(Records(v.dirSecs))
    ensures key in v.files || Search(Records(v.dirSecs), EMPTY_CACHE, key).Miss?
  {
    FileHere(g, v, key);
    hide Search, Records, IsLive, IsFile, Complete, ShortUnique, Distinct, Filed, FileAs, Disjoint;
    assert Search(Records(v.dirSecs), EMPTY_CACHE, key).Hit? ==> NamesFile(Records(v.dirSecs), key);
  }

  lemma FileFits(g: Mounted, v: Vol, key: NameKey)
    requires Sound(g, v) && key in v.files
    ensures SectorsFor(|v.files[key].content|) <= g.Span(|v.files[key].chain|)
  {
    FileHere(g, v, key);
    hide Records, Search, Complete, ShortUnique, Distinct, Filed, NamesFile, IsChain, Reserved, Recorded, Content,
         Apart, Disjoint;
  }

  lemma SectorsForSum(a: nat, b: nat)
    ensures SectorsFor(a + b) <= SectorsFor(a) + SectorsFor(b)
  {
  }

  lemma RoomToGrow(g: Mounted, had: nat, free: nat, content: nat, bytes: nat)
    requires SectorsFor(content) <= g.Span(had) && Rounded(g, bytes) <= free
    ensures SectorsFor(content + bytes) <= g.Span(had + free)
  {
    hide SectorsFor, Rounded, Volume.Span;
    RoundedFits(g, bytes);
    SectorsForSum(content, bytes);
    SpanUp(g, Rounded(g, bytes), free);
    SpanSum(g, had, free);
  }

  lemma AffordsFirst(g: Mounted, v: Vol, tail: nat, changes: seq<Change>)
    requires Affords(g, v, tail, changes) && Sound(g, v) && changes != []
    ensures Fits(g, v, changes[0])
  {
    hide Records, Search, Key, Complete, ShortUnique, Distinct, Filed, NamesFile, GoodName, SectorsFor, LiveSet,
         OnlyFiles, Rounded, Free, Reserved, FreeRun, LfnEntries, FlatAll, Disjoint, Volume.Span;
    var change, records := changes[0], Records(v.dirSecs);
    if change.Store? {
      var key, bytes := Key(change.name), BytesOf(change);
      LiveIsFiled(g, v, key);
      assert Proper(g, change);
      assert TotalClusters(g, changes) >= ClustersOf(g, change) && TotalBytes(changes) >= bytes &&
          TotalRecords(changes) >= RecordsNeeded(change);
      if key in v.files {
        FileHere(g, v, key);
        FileFits(g, v, key);
        RoomToGrow(g, |v.files[key].chain|, Free(g, v.fat), |v.files[key].content|, bytes);
      } else {
        if v.place.Root16? {
          TailRun(records, tail, 0, 0, 0, RecordsNeeded(change));
        }
        RoundedFits(g, bytes);
        SpanUp(g, Rounded(g, bytes), Free(g, v.fat) - 1);
        SpanUp(g, Free(g, v.fat) - 1, Free(g, v.fat));
      }
    }
  }

  /* ----------- and leaves room for the others ----------- */

  lemma FewerLive(a: set<nat>, b: set<nat>)
    requires a <= b
    ensures |a| <= |b|
  {
    assert b == a + (b - a);
  }

  /** From one directory to another: at most the record at `index` is new, and of the blank
      ones at the end at most `need` have been used. */
  ghost predicate OneMore(records: seq<Record>, records': seq<Record>, index: nat, need: nat) {
    && index < |records'| && |records| <= |records'|
    && (forall k :: 0 <= k < |records'| && k != index && IsLive(records'[k]) ==>
        k < |records| && IsLive(records[k]) && records[k] == records'[k])
    && (forall tail :: need <= tail && BlankTail(records, tail) && |records'| == |records| ==>
        BlankTail(records', tail - need))
  }

  lemma PlacedOneMore(records: seq<Record>, records': seq<Record>, need: nat, index: nat)
    requires Placed(records, records', need, index) && 0 < need
    ensures OneMore(records, records', index, need)
  {
    ZeroIsUnused();
    hide IsLive, FreeRun;
    forall tail | need <= tail && BlankTail(records, tail) && |records'| == |records|
        ensures BlankTail(records', tail - need) {
      TailRun(records, tail, 0, 0, 0, need);
    }
  }

  lemma SameOneMore(records: seq<Record>, records': seq<Record>, index: nat, need: nat, key: NameKey)
    requires SameLookups(records, index, records') && Search(records', EMPTY_CACHE, key) == Hit(index)
    ensures OneMore(records, records', index, need) && IsLive(records[index])
  {
    ZeroIsUnused();
    assert Search(records, EMPTY_CACHE, key) == Hit(index);
    hide IsLive, Search, Complete;
  }

  lemma OneMoreThenSame(a: seq<Record>, b: seq<Record>, c: seq<Record>, index: nat, need: nat)
    requires OneMore(a, b, index, need) && OneMore(b, c, index, 0) && |c| == |b|
    ensures OneMore(a, c, index, need)
  {
    hide IsLive, BlankTail;
    forall tail | need <= tail && BlankTail(a, tail) && |c| == |a| ensures BlankTail(c, tail - need) {
      assert BlankTail(b, tail - need);
      assert BlankTail(c, tail - need - 0);
    }
  }

  lemma OneMoreLive(records: seq<Record>, records': seq<Record>, index: nat, need: nat)
    requires OneMore(records, records', index, need)
    ensures |LiveSet(records')| <= |LiveSet(records)| + 1
    ensures OnlyFiles(records) && IsFile(records'[index]) ==> OnlyFiles(records')
  {
    hide IsLive, IsFile, BlankTail;
    FewerLive(LiveSet(records'), LiveSet(records) + {index});
  }

  lemma BegunOneMore(g: Mounted, v: Vol, name: seq<byte>, data: seq<byte>, b: Stage, d': Desk, v': Vol)
    requires Appends(g, v, name, data, b, d', v') && Sound(g, v) && OnlyFiles(Records(v.dirSecs))
    ensures OneMore(Records(v.dirSecs), Records(v'.dirSecs), d'.index, LfnEntries(name) + 1)
    ensures d'.index < |Records(v'.dirSecs)| && IsFile(Records(v'.dirSecs)[d'.index])
    ensures FreeRun(Records(v.dirSecs), 0, 0, 0, LfnEntries(name) + 1).At? || Key(name) in v.files ==>
            |Records(v'.dirSecs)| == |Records(v.dirSecs)|
  {
    hide Appends, Search, Records, Key, Extended, CreatedIn, Within, SfnRecord, ShortUnique, Distinct, IsLive, IsFile,
         Filed, NamesFile, OnlyFiles, OneMore, Complete, SameLookups, LiveKept, Placed, FreeRun, LfnEntries, Sound;
    LiveIsFiled(g, v, Key(name));
    FileHere(g, v, Key(name));
    AppendsParts(g, v, name, data, b, d', v');
    var records, records1, records' := Records(v.dirSecs), Records(b.d.dirSecs), Records(v'.dirSecs);
    SameOneMore(records1, records', b.d.index, 0, Key(name));
    SameLength(records1, b.d.index, records');
    if Search(records, EMPTY_CACHE, Key(name)).Miss? {
      var e: Entry :| e.filename == name && Inserted(records, records1, e, b.d.index);
      PlacedOneMore(records, records1, LfnEntries(name) + 1, b.d.index);
      PlacedLength(records, records1, LfnEntries(name) + 1, b.d.index);
      OneMoreThenSame(records, records1, records', b.d.index, LfnEntries(name) + 1);
    } else {
      SameOneMore(records, records', b.d.index, LfnEntries(name) + 1, Key(name));
    }
  }

  lemma SameLength(records: seq<Record>, index: nat, records': seq<Record>)
    requires SameLookups(records, index, records')
    ensures |records'| == |records|
  {
  }

  lemma PlacedLength(records: seq<Record>, records': seq<Record>, need: nat, index: nat)
    requires Placed(records, records', need, index)
    ensures FreeRun(records, 0, 0, 0, need).At? ==> |records'| == |records|
  {
  }

  /* The clusters an append takes. */

  lemma BegunFree(g: Mounted, a: Stage, name: seq<byte>, b: Stage)
    requires Begun(g, a, name, b) && |a.fat| == g.Entries()
    ensures |b.fat| == g.Entries() && Free(g, a.fat) <= Free(g, b.fat) + 2
  {
    hide Free, Search, Records, Key, Within, Inserted, Grown, FreeRun, LfnEntries, Owns;
  }

  lemma SpanInjective(g: Mounted, j: nat, k: nat)
    ensures g.Span(j) == g.Span(k) ==> j == k
  {
    if j < k {
      SpanMonotone(g, j, k);
    } else if k < j {
      SpanMonotone(g, k, j);
    }
  }

  lemma ExtendedFree(g: Mounted, a: Shot, b: Shot, data: seq<byte>, place: Place)
    requires Extended(g, a, b, data, place) && SectorsFor(|a.content|) <= g.Span(|a.chain|)
    ensures |b.fat| == g.Entries() && Free(g, a.fat) <= Free(g, b.fat) + Rounded(g, |data|)
  {
    hide Free, SectorsFor, Rounded, Volume.Span, AllClusters, OnlyThese, IsChain;
    SpanInjective(g, |a.chain| + Free(g, a.fat), |b.chain| + Free(g, b.fat));
    RoomToGrow(g, |a.chain|, Rounded(g, |data|), |a.content|, |data|);
    if |b.chain| > |a.chain| + Rounded(g, |data|) {
      SpanUp(g, |a.chain| + Rounded(g, |data|), |b.chain| - 1);
    }
  }

  lemma AppendsFree(g: Mounted, v: Vol, name: seq<byte>, data: seq<byte>, b: Stage, d': Desk, v': Vol)
    requires Appends(g, v, name, data, b, d', v') && Sound(g, v) && OnlyFiles(Records(v.dirSecs))
    ensures |v.fat| == |v'.fat| == g.Entries() && Free(g, v.fat) <= Free(g, v'.fat) + Rounded(g, |data|) + 2
  {
    hide Appends, Search, Records, Key, Extended, SameLookups, Rounded, Filed, NamesFile, OnlyFiles, Complete,
         ShortUnique, Distinct, Free, SectorsFor, FileAs, Begun, Volume.Span, Disjoint, IsFile;
    LiveIsFiled(g, v, Key(name));
    FileHere(g, v, Key(name));
    AppendsParts(g, v, name, data, b, d', v');
    var a := Stage(v.fat, v.sectors, v.At(Key(name)));
    BegunFree(g, a, name, b);
    BegunContent(g, a, name, b);
    if Key(name) in v.files {
      FileFits(g, v, Key(name));
    } else {
      SectorsForNothing(g, |b.d.chain|);
    }
    ExtendedFree(g, b.Shot(), Stage(v'.fat, v'.sectors, d').Shot(), data, b.d.place);
  }

  lemma SectorsForNothing(g: Mounted, n: nat)
    ensures SectorsFor(0) <= g.Span(n)
  {
  }

  lemma {:induction false} MoreFree(t: FatType, fat: seq<nat>, fat': seq<nat>, lo: nat, hi: nat)
    requires hi <= |fat| == |fat'| && forall c :: 0 <= c < |fat| && t.IsFree(fat[c]) ==> t.IsFree(fat'[c])
    ensures FreeCount(t, fat, lo, hi) <= FreeCount(t, fat', lo, hi)
  {
    hide FatType.IsFree;
    if lo < hi {
      MoreFree(t, fat, fat', lo, hi - 1);
    }
  }

  lemma ClearedFree(g: Mounted, fat: seq<nat>, chain: seq<nat>)
    requires |fat| == g.Entries()
    ensures |Cleared(fat, chain)| == |fat| && Free(g, fat) <= Free(g, Cleared(fat, chain))
  {
    MoreFree(g.fatType, fat, Cleared(fat, chain), g.rootFirstCluster, g.Limit());
  }

  /* One change, and what is left for the rest. */

  function Left(tail: nat, change: Change): nat {
    if RecordsNeeded(change) <= tail then tail - RecordsNeeded(change) else 0
  }

  lemma AppendsPlace(g: Mounted, v: Vol, name: seq<byte>, data: seq<byte>, b: Stage, d': Desk, v': Vol)
    requires Appends(g, v, name, data, b, d', v')
    ensures v'.place.Root16? ==> v.place.Root16?
    ensures Reserved(g.fatType, v'.fat, g.rootFirstCluster)
  {
    hide Search, Records, Key, Extended, Within, Inserted, SameLookups, Grown, IsChain, Free, FreeRun, LfnEntries,
         Reserved, Recorded, Content;
  }

  lemma TotalsStep(g: Mounted, changes: seq<Change>)
    requires changes != []
    ensures TotalBytes(changes) == BytesOf(changes[0]) + TotalBytes(changes[1..])
    ensures TotalClusters(g, changes) == ClustersOf(g, changes[0]) + TotalClusters(g, changes[1..])
    ensures TotalRecords(changes) == RecordsNeeded(changes[0]) + TotalRecords(changes[1..])
    ensures forall i :: 0 <= i < |changes| - 1 ==> changes[1..][i] == changes[i + 1]
  {
  }

  lemma StoreRecords(g: Mounted, v: Vol, tail: nat, change: Change, b: Stage, d': Desk, v': Vol)
    requires Sound(g, v) && OnlyFiles(Records(v.dirSecs)) && change.Store?
    requires Appends(g, v, change.name, FlatAll(change.sessions), b, d', v')
    requires v.place.Root16? ==> BlankTail(Records(v.dirSecs), tail) && RecordsNeeded(change) <= tail
    ensures OnlyFiles(Records(v'.dirSecs)) && |LiveSet(Records(v'.dirSecs))| <= |LiveSet(Records(v.dirSecs))| + 1
    ensures v'.place.Root16? ==> v.place.Root16? && BlankTail(Records(v'.dirSecs), Left(tail, change))
  {
    hide Appends, Records, OnlyFiles, LiveSet, IsFile, BlankTail, FreeRun, LfnEntries, Sound, Key, FlatAll;
    var need := RecordsNeeded(change);
    AppendsPlace(g, v, change.name, FlatAll(change.sessions), b, d', v');
    BegunOneMore(g, v, change.name, FlatAll(change.sessions), b, d', v');
    OneMoreLive(Records(v.dirSecs), Records(v'.dirSecs), d'.index, need);
    if v'.place.Root16? {
      BlankTailFits(Records(v.dirSecs), tail);
      TailRun(Records(v.dirSecs), tail, 0, 0, 0, need);
    }
  }

  lemma BlankTailFits(records: seq<Record>, tail: nat)
    requires BlankTail(records, tail)
    ensures tail <= |records|
  {
  }

  lemma StoreLeaves(g: Mounted, v: Vol, tail: nat, changes: seq<Change>, b: Stage, d': Desk, v': Vol)
    requires Affords(g, v, tail, changes) && Sound(g, v) && changes != [] && changes[0].Store?
    requires Appends(g, v, changes[0].name, FlatAll(changes[0].sessions), b, d', v')
    ensures Affords(g, v', Left(tail, changes[0]), changes[1..])
  {
    hide Appends, Records, OnlyFiles, LiveSet, BlankTail, FreeRun, LfnEntries, Sound, Key, FlatAll, Free, Reserved,
         Rounded, Proper, TotalBytes, TotalClusters, TotalRecords;
    var change := changes[0];
    var name, data := change.name, FlatAll(change.sessions);
    TotalsStep(g, changes);
    StoreRecords(g, v, tail, change, b, d', v');
    AppendsPlace(g, v, name, data, b, d', v');
    AppendsFree(g, v, name, data, b, d', v');
    LiveIsFiled(g, v, Key(name));
    AppendsBytes(g, v, name, data, b, d', v');
    forall key | key in v'.files ensures |v'.files[key].content| + TotalBytes(changes[1..]) < WORD32 {
      assert v'.Bytes()[key] == v'.files[key].content;
      assert key in v.files ==> v.Bytes()[key] == v.files[key].content;
    }
  }

  lemma RemovedRecordsLeft(records: seq<Record>, index: nat, records': seq<Record>, tail: nat)
    requires Removed(records, index, records') && IsLive(records[index])
    ensures LiveSet(records') <= LiveSet(records) && (OnlyFiles(records) ==> OnlyFiles(records'))
    ensures BlankTail(records, tail) ==> BlankTail(records', tail)
  {
    ZeroIsUnused();
    DeletedIsDead(records[index]);
    hide Search, IsLive, IsFile, Deleted;
  }

  lemma DeleteLeaves(g: Mounted, v: Vol, tail: nat, changes: seq<Change>, v': Vol)
    requires Affords(g, v, tail, changes) && Sound(g, v) && changes != [] && changes[0].Delete?
    requires Removes(g, v, Key(changes[0].name), v')
    ensures Affords(g, v', Left(tail, changes[0]), changes[1..])
  {
    hide Records, OnlyFiles, LiveSet, BlankTail, Key, Free, Reserved, Proper, TotalBytes, TotalClusters, TotalRecords,
         Removed, Cleared, Complete, Within, PlaceLbas, Sound, FileAs, IsLive, NamesFile, Search;
    var key := Key(changes[0].name);
    TotalsStep(g, changes);
    if key in v.files {
      FileHere(g, v, key);
      RemovedRecordsLeft(Records(v.dirSecs), v.files[key].index, Records(v'.dirSecs), tail);
      FewerLive(LiveSet(Records(v'.dirSecs)), LiveSet(Records(v.dirSecs)));
      ClearedFree(g, v.fat, v.files[key].chain);
      FileReserved(g, v, key);
    }
  }

  lemma FileReserved(g: Mounted, v: Vol, key: NameKey)
    requires Sound(g, v) && key in v.files
    ensures Reserved(g.fatType, Cleared(v.fat, v.files[key].chain), g.rootFirstCluster)
  {
    FileHere(g, v, key);
    hide Records, Search, Complete, ShortUnique, Distinct, Filed, NamesFile, IsChain, Reserved, Recorded, Content,
         Apart, Disjoint, Cleared;
    H.ClearedReserved(g.fatType, v.fat, g.Limit(), g.rootFirstCluster, v.files[key].chain);
  }

  lemma ChangeLeaves(g: Mounted, v: Vol, tail: nat, changes: seq<Change>, v': Vol)
    requires Affords(g, v, tail, changes) && Sound(g, v) && changes != [] && Changed(g, v, changes[0], v')
    ensures Affords(g, v', Left(tail, changes[0]), changes[1..])
  {
    hide Affords, Sound, Key, Appends, Removes, FlatAll, Left;
    match changes[0]
    case Store(name, sessions) =>
      var b, d' :| Appends(g, v, name, FlatAll(sessions), b, d', v');
      StoreLeaves(g, v, tail, changes, b, d', v');
    case Delete(name) =>
      DeleteLeaves(g, v, tail, changes, v');
  }

  /** A volume that can afford the run has room at each step of it. */
  lemma {:induction false} AffordsRun(g: Mounted, cluster: nat, v: Vol, tail: nat, changes: seq<Change>)
    requires Affords(g, v, tail, changes) && Sound(g, v)
    ensures CanRun(g, cluster, v, changes)
    decreases |changes|
  {
    hide Sound, IsPlace, Fits, Changed, Reserved, Free, Records, LiveSet, OnlyFiles, BlankTail, TotalClusters,
         TotalBytes, TotalRecords, Proper, Left;
    if changes != [] {
      AffordsFirst(g, v, tail, changes);
      forall v' | Changed(g, v, changes[0], v') && IsPlace(g, v'.fat, cluster, v'.place) && Sound(g, v')
        ensures CanRun(g, cluster, v', changes[1..])
      {
        ChangeLeaves(g, v, tail, changes, v');
        AffordsRun(g, cluster, v', Left(tail, changes[0]), changes[1..]);
      }
    }
  }
}
