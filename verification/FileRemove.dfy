/** fl_remove: the clusters of a file become free again and its name is gone. */
module FileRemove {

  import opened Words
  import opened FatEntries
  import opened Geometry
  import opened ChainDefs
  import opened Chains
  import opened FatTable
  import opened FatChain
  import opened FileLayout
  import opened FileSpec
  import opened FileSectors
  import opened DirRecords
  import opened Names
  import opened DirSearch
  import opened DirShort
  import opened DirLayout
  import opened DirAccess
  import opened DirRoom
  import opened DirUpdate
  import opened DirWrite
  import opened DiskReader
  import opened FileState
  import opened FileOpen
  import opened FileClose
  import opened FileCreate
  import opened FileModes
  import opened Sessions

  lemma ClearedKeepsChain(t: FatType, fat: seq<nat>, limit: nat, chain: seq<nat>, other: seq<nat>)
    requires IsChain(t, fat, limit, other) && Disjoint(other, chain)
    ensures IsChain(t, Cleared(fat, chain), limit, other)
  {
    assert forall i :: 0 <= i < |other| ==> other[i] !in chain;
  }

  /** Freeing a chain makes exactly its clusters free. */
  lemma {:induction false} ClearedFreeCount(t: FatType, fat: seq<nat>, lo: nat, hi: nat, chain: seq<nat>)
    requires hi <= |fat|
    requires forall i :: 0 <= i < |chain| ==> lo <= chain[i] < hi && !t.IsFree(fat[chain[i]])
    requires forall i, j :: 0 <= i < j < |chain| ==> chain[i] != chain[j]
    ensures FreeCount(t, Cleared(fat, chain), lo, hi) == FreeCount(t, fat, lo, hi) + |chain|
  {
    if chain == [] {
      assert Cleared(fat, chain) == fat;
    } else {
      var n := |chain| - 1;
      var c, rest := chain[n], chain[..n];
      ClearedFreeCount(t, fat, lo, hi, rest);
      assert Cleared(fat, chain) == Cleared(fat, rest)[c := 0];
      assert c !in rest;
      FreeCountUpdate(t, Cleared(fat, rest), lo, hi, c, 0);
    }
  }

  /** What becomes of the records: the one of the file is marked, and every lookup that did
      not stop there gives what it gave. */
  ghost predicate Removed(records: seq<Record>, index: nat, records': seq<Record>) {
    && index < |records| && records' == records[index := Deleted(records[index])]
    && forall key :: Search(records, EMPTY_CACHE, key) != Hit(index) ==>
         SameOutcome(Search(records, EMPTY_CACHE, key), Search(records', EMPTY_CACHE, key))
  }

  lemma DeletedIsRemoved(records: seq<Record>, index: nat)
    requires index < |records| && IsLive(records[index]) && Complete(records, NOTHING)
    ensures Removed(records, index, records[index := Deleted(records[index])])
    ensures Complete(records[index := Deleted(records[index])], NOTHING)
  {
    EmptyCacheValid();
    assert EMPTY_CACHE.rows == 0;
    hide Search, Complete, IsLive, Deleted;
    forall key | Search(records, EMPTY_CACHE, key) != Hit(index)
      ensures SameOutcome(Search(records, EMPTY_CACHE, key),
                          Search(records[index := Deleted(records[index])], EMPTY_CACHE, key))
    {
      DeleteKeepsOthers(records, index, EMPTY_CACHE, key);
    }
    DeleteKeepsComplete(records, index, NOTHING);
  }

  /** The removed name is gone, if no later record answers to it too. */
  lemma RemovedIsGone(records: seq<Record>, index: nat, key: NameKey)
    requires index < |records| && Complete(records, NOTHING)
    requires Search(records, EMPTY_CACHE, key) == Hit(index)
    ensures Search(records[index := Deleted(records[index])], EMPTY_CACHE, key).Miss?
       <==> Search(records[index + 1..], EMPTY_CACHE, key).Miss?
  {
    EmptyCacheValid();
    assert EMPTY_CACHE.rows == 0;
    hide Complete, Deleted;
    DeleteKeepsOthers(records, index, EMPTY_CACHE, key);
  }

  lemma ClearedDir(g: Mounted, fat: seq<nat>, before: seq<Sector>, after: seq<Sector>, chain: seq<nat>,
                   address: nat, buffer: Sector, cluster: nat, place: Place, dirSecs: seq<Sector>)
    requires DirAs(g, fat, before, address, buffer, cluster, place, dirSecs) && Apart(place, chain)
    requires |after| == |before| && forall l :: 0 <= l < |before| && !g.InFat(l) ==> after[l] == before[l]
    ensures DirAs(g, Cleared(fat, chain), after, address, buffer, cluster, place, dirSecs)
  {
    PlaceLbasSound(g, fat, cluster, place);
    if place.InChain? {
      ClearedKeepsChain(g.fatType, fat, g.Limit(), chain, place.chain);
    }
    hide PlaceLbas, IsChain, AllClusters, Cleared;
  }

  /** The first step: free the chain. */
  method FreeFile(fs: Fatfs, file: FlFile, ghost cluster: nat, ghost place: Place, ghost dirSecs: seq<Sector>,
                  ghost index: nat) returns (ok: bool)
    requires OpenAs(fs, file, cluster, place, dirSecs, index)
    modifies fs`head, fs`next, fs`order, fs`slots, fs`view, fs`fat, fs.media
    ensures ok && DirOf(fs, cluster, place, dirSecs) && fs.OutsideFatUnchanged()
    ensures fs.fat == Cleared(old(fs.fat), file.chain)
  {
    hide OpenAs, DirOf, Fatfs.ValidWith, Decode, Records, Recorded, PlaceLbas, IsPlace, Apart, AllClusters, Coupled,
         Cleared, FreeFrom, InRange, DirAs, FlFile.Valid, Volume.InFat;
    OpenFrame(fs, file, cluster, place, dirSecs, index);
    OpenParts(fs, file, cluster, place, dirSecs, index);
    ghost var fat, before := fs.fat, fs.media.sectors;
    FreeFromChain(fs.g.fatType, fs.fat, fs.g.Limit(), file.chain);
    ok := FreeClusterChain(fs, file.startCluster, ChainZone(file.chain));
    ClearedDir(fs.g, fat, before, fs.media.sectors, file.chain, fs.curAddress, fs.curSector, cluster, place, dirSecs);
    MakeDirOf(fs, cluster, place, dirSecs);
  }

  lemma MakeDirOf(fs: Fatfs, cluster: nat, place: Place, dirSecs: seq<Sector>)
    requires fs.Valid() && fs.media.Reliable()
    requires DirAs(fs.g, fs.fat, fs.media.sectors, fs.curAddress, fs.curSector, cluster, place, dirSecs)
    ensures DirOf(fs, cluster, place, dirSecs)
  {
  }

  /** The second: mark its record. */
  method MarkRemoved(fs: Fatfs, cluster: nat, shortName: ShortName, ghost place: Place, ghost dirSecs: seq<Sector>,
                     ghost index: nat)
    returns (ok: bool, ghost dirSecs': seq<Sector>)
    requires DirOf(fs, cluster, place, dirSecs)
    requires index < |Records(dirSecs)| && FirstShort(Records(dirSecs), 0, shortName) == index
    requires IsLive(Records(dirSecs)[index]) && Complete(Records(dirSecs), NOTHING)
    modifies fs`head, fs`next, fs`order, fs`slots, fs`curAddress, fs`curSector, fs.media
    ensures ok && DirOf(fs, cluster, place, dirSecs')
    ensures Removed(Records(dirSecs), index, Records(dirSecs')) && Complete(Records(dirSecs'), NOTHING)
    ensures Within(fs.g, old(fs.media.sectors), fs.media.sectors, PlaceLbas(fs.g, place))
  {
    hide DirOf, Dir, PlaceLbas, Records, Removed, Complete, IsLive, FirstShort, Within, Deleted, IsPlace;
    DirOfParts(fs, cluster, place, dirSecs);
    DeletedIsRemoved(Records(dirSecs), index);
    ok, dirSecs' := MarkFileDeleted(fs, cluster, shortName, place, dirSecs);
    DirIsDirOf(fs, cluster, place, dirSecs');
  }

  lemma OpenedShort(fs: Fatfs, file: FlFile, cluster: nat, d: Desk)
    requires OpenedOld(fs, file, cluster, d)
    ensures OpenAs(fs, file, cluster, d.place, d.dirSecs, d.index) && file.chain == d.chain &&
            file.parentCluster == cluster
    ensures d.index < |Records(d.dirSecs)| && IsLive(Records(d.dirSecs)[d.index])
    ensures FirstShort(Records(d.dirSecs), 0, file.shortName) == d.index
  {
    RecordedFirst(Records(d.dirSecs), d.index, file.shortName, file.startCluster);
  }

  /** Free, mark and close a file that has been opened. */
  method RemoveOpened(fs: Fatfs, file: FlFile, ghost cluster: nat, ghost d: Desk)
    returns (ok: bool, ghost dirSecs': seq<Sector>)
    requires OpenedOld(fs, file, cluster, d) && Complete(Records(d.dirSecs), NOTHING)
    modifies fs`head, fs`next, fs`order, fs`slots, fs`view, fs`fat, fs`curAddress, fs`curSector, fs.media, file
    ensures ok && DirOf(fs, cluster, d.place, dirSecs') && fs.Purged()
    ensures Removed(Records(d.dirSecs), d.index, Records(dirSecs')) && Complete(Records(dirSecs'), NOTHING)
    ensures fs.fat == Cleared(old(fs.fat), d.chain)
    ensures Within(fs.g, old(fs.media.sectors), fs.media.sectors, PlaceLbas(fs.g, d.place))
  {
    hide OpenedOld, OpenAs, DirOf, PlaceLbas, Records, Removed, Complete, IsLive, FirstShort, Within, Cleared,
         Fatfs.ValidWith, Volume.InFat;
    ghost var before := fs.media.sectors;
    OpenedShort(fs, file, cluster, d);
    ok := FreeFile(fs, file, cluster, d.place, d.dirSecs, d.index);
    if !ok {
      return;
    }
    ghost var middle, lbas := fs.media.sectors, PlaceLbas(fs.g, d.place);
    FatIsWithin(fs.g, before, middle, lbas);
    ok, dirSecs' := MarkRemoved(fs, file.parentCluster, file.shortName, d.place, d.dirSecs, d.index);
    if !ok {
      return;
    }
    ghost var marked := fs.media.sectors;
    WithinTransitive(fs.g, before, middle, marked, lbas, lbas);
    Release(fs, file, cluster, d.place, dirSecs');
    FatIsWithin(fs.g, marked, fs.media.sectors, lbas);
    WithinTransitive(fs.g, before, marked, fs.media.sectors, lbas, lbas);
  }

  /** fl_remove: if the file is there, its chain is cleared and its record marked, on the medium
      and in the logical FAT alike; otherwise nothing changes. */
  method Remove(fs: Fatfs, file: FlFile, cluster: nat, name: seq<byte>, ghost d: Desk)
    returns (res: int, ghost dirSecs': seq<Sector>)
    requires DirOf(fs, cluster, d.place, d.dirSecs) && Describes(fs.g, fs.fat, fs.media.sectors, d, name)
    requires Complete(Records(d.dirSecs), NOTHING)
    modifies fs`head, fs`next, fs`order, fs`slots, fs`view, fs`fat, fs`curAddress, fs`curSector, fs.media, file
    ensures res == if IsThere(Records(d.dirSecs), name) then 0 else -1
    ensures DirOf(fs, cluster, d.place, dirSecs')
    ensures res == 0 ==>
              && Removed(Records(d.dirSecs), d.index, Records(dirSecs')) && Complete(Records(dirSecs'), NOTHING)
              && fs.fat == Cleared(old(fs.fat), d.chain) && fs.Purged()
    ensures res == -1 ==> dirSecs' == d.dirSecs && fs.fat == old(fs.fat)
    ensures res == -1 && old(fs.Purged()) ==> fs.Purged()
    ensures Within(fs.g, old(fs.media.sectors), fs.media.sectors, PlaceLbas(fs.g, d.place))
  {
    hide OpenAs, DirOf, PlaceLbas, Records, Removed, Complete, Within, Cleared, Describes, IsThere, Rewound, Content,
         Fatfs.Valid, Fatfs.Purged, Volume.InFat;
    ghost var before, lbas := fs.media.sectors, PlaceLbas(fs.g, d.place);
    res, dirSecs' := -1, d.dirSecs;
    var found := OpenOld(fs, file, cluster, name, d);
    ghost var middle := fs.media.sectors;
    FatIsWithin(fs.g, before, middle, lbas);
    if found {
      var ok;
      ok, dirSecs' := RemoveOpened(fs, file, cluster, d);
      WithinTransitive(fs.g, before, middle, fs.media.sectors, lbas, lbas);
      if ok {
        res := 0;
      }
    }
  }

  /** The clusters of the file are free again, and the chains of all others are whole. */
  lemma ChainFreed(t: FatType, fat: seq<nat>, limit: nat, chain: seq<nat>, other: seq<nat>)
    requires IsChain(t, fat, limit, chain)
    ensures FreeCount(t, Cleared(fat, chain), 0, limit) == FreeCount(t, fat, 0, limit) + |chain|
    ensures IsChain(t, fat, limit, other) && Disjoint(other, chain) ==> IsChain(t, Cleared(fat, chain), limit, other)
  {
    ChainNotFree(t, fat, limit, chain);
    ClearedFreeCount(t, fat, 0, limit, chain);
    hide FreeCount, Cleared, FatType.IsFree;
    if IsChain(t, fat, limit, other) && Disjoint(other, chain) {
      ClearedKeepsChain(t, fat, limit, chain, other);
    }
  }

  /** The reference reader no longer finds it, unless a later record answers to its name. */
  lemma RemovedReads(fs: Fatfs, cluster: nat, d: Desk, name: seq<byte>, dirSecs': seq<Sector>)
    requires DirOf(fs, cluster, d.place, dirSecs') && fs.Purged()
    requires Named(d, name) && Complete(Records(d.dirSecs), NOTHING) &&
             Removed(Records(d.dirSecs), d.index, Records(dirSecs'))
    requires Search(Records(d.dirSecs)[d.index + 1..], EMPTY_CACHE, Key(name)).Miss?
    ensures |fs.media.sectors| == fs.g.total && DiskRead(fs.g, fs.media.sectors, cluster, name) == None
  {
    hide DirOf, Records, Search, Complete, Key, Deleted, DiskRead;
    RemovedIsGone(Records(d.dirSecs), d.index, Key(name));
    NothingReads(fs, cluster, d.place, dirSecs', name);
  }
}
