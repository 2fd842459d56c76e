/** What the sessions on one file leave alone: every other file of the volume. */
module OtherFiles {

  import opened Words
  import opened Geometry
  import opened ChainDefs
  import opened Chains
  import opened FatTable
  import opened FileLayout
  import opened FileSpec
  import opened DirRecords
  import opened Names
  import opened DirSearch
  import opened DirInsert
  import opened DirShort
  import opened DirLayout
  import opened DirAccess
  import opened DirUpdate
  import opened DirRoom
  import opened DirWrite
  import opened DiskReader
  import opened FileState
  import opened FileCreate
  import opened Sessions
  import opened AppendSessions
  import opened EndToEnd
  import opened FileRemove
  import H = ChainHeap

  /** A chain apart from the directory, and its sectors. */
  ghost predicate Holds(g: Mounted, fat: seq<nat>, sectors: seq<Sector>, place: Place, chain: seq<nat>,
                        secs: seq<Sector>) {
    && IsChain(g.fatType, fat, g.Limit(), chain) && AllClusters(g, chain) && Apart(place, chain)
    && Hold(sectors, Lbas(g, chain), secs)
  }

  lemma SectorsNotInChain(g: Mounted, other: seq<nat>, chain: seq<nat>)
    requires AllClusters(g, other) && AllClusters(g, chain) && Disjoint(other, chain)
    ensures forall l :: l in Lbas(g, other) ==> l !in Lbas(g, chain)
  {
    hide Lbas, AllClusters, Disjoint;
    forall l | l in Lbas(g, other) ensures l !in Lbas(g, chain) {
      var s :| 0 <= s < |Lbas(g, other)| && Lbas(g, other)[s] == l;
      forall u | 0 <= u < |Lbas(g, chain)| ensures Lbas(g, chain)[u] != l {
        LbasDisjoint(g, other, chain, s, u);
      }
    }
  }

  /** Writing to one file leaves the chains and sectors of the others as they were. */
  lemma ExtendedKeepsOther(g: Mounted, a: Shot, b: Shot, data: seq<byte>, cluster: nat, place: Place, other: seq<nat>,
                           secs: seq<Sector>)
    requires Extended(g, a, b, data, place)
    requires IsPlace(g, b.fat, cluster, place)
    requires Holds(g, a.fat, a.sectors, place, other, secs) && Disjoint(other, a.chain)
    ensures Holds(g, b.fat, b.sectors, place, other, secs) && Disjoint(other, b.chain)
  {
    GrownKeepsOther(g.fatType, g.Limit(), a.fat, a.chain, b.fat, b.chain, other);
    LbasInData(g, b.fat, other);
    SectorsNotInChain(g, other, b.chain);
    PlaceApart(g, b.fat, cluster, place, other);
    hide Lbas, PlaceLbas, IsChain, IsPlace, AllClusters, Apart, Volume.InMeta, Capacity, Needed, Grown;
    forall s | 0 <= s < |Lbas(g, other)| ensures Lbas(g, other)[s] < |b.sectors| &&
        b.sectors[Lbas(g, other)[s]] == secs[s] {
      assert Lbas(g, other)[s] in Lbas(g, other);
      assert Lbas(g, other)[s] !in PlaceLbas(g, place);
    }
  }

  /** So does creating it. */
  lemma CreatedKeepsOther(g: Mounted, a: Stage, cluster: nat, name: seq<byte>, b: Stage, other: seq<nat>,
                          secs: seq<Sector>)
    requires CreatedIn(g, a.fat, a.d.place, Records(a.d.dirSecs), name, b.fat, b.d)
    requires Within(g, a.sectors, b.sectors, PlaceLbas(g, b.d.place))
    requires IsPlace(g, a.fat, cluster, a.d.place) && IsPlace(g, b.fat, cluster, b.d.place)
    requires Holds(g, a.fat, a.sectors, a.d.place, other, secs)
    ensures Holds(g, b.fat, b.sectors, b.d.place, other, secs) && Disjoint(other, b.d.chain)
  {
    hide Free, FreeRun, LfnEntries, Lbas, PlaceLbas, AllClusters, Hold, Within, Records;
    var fat1 := a.fat[b.d.chain[0] := LAST % g.fatType.Range()];
    GrownKeepsOther(g.fatType, g.Limit(), a.fat, [], fat1, b.d.chain, other);
    GrowthKeepsOther(g, fat1, a.d.place, b.fat, b.d.place, other);
    WithinKeepsFile(g, b.fat, cluster, b.d.place, other, a.sectors, b.sectors, secs);
  }

  lemma GrowthKeepsOther(g: Mounted, fat: seq<nat>, place: Place, fat': seq<nat>, place': Place, other: seq<nat>)
    requires PlaceGrown(g, fat, place, fat', place') && Apart(place, other)
    requires IsChain(g.fatType, fat, g.Limit(), other)
    ensures IsChain(g.fatType, fat', g.Limit(), other) && Apart(place', other)
  {
    hide IsChain, Free;
    if fat' != fat || place' != place {
      DisjointSwap(other, place.chain);
      GrownKeepsOther(g.fatType, g.Limit(), fat, place.chain, fat', place'.chain, other);
      DisjointSwap(other, place'.chain);
    }
  }

  lemma CreatedPlace(g: Mounted, fat: seq<nat>, cluster: nat, place: Place, records: seq<Record>, name: seq<byte>,
                     fat': seq<nat>, d: Desk)
    requires CreatedIn(g, fat, place, records, name, fat', d) && IsPlace(g, fat, cluster, place)
    ensures IsPlace(g, fat', cluster, d.place)
  {
    hide Free, FreeRun, LfnEntries;
    var fat1 := fat[d.chain[0] := LAST % g.fatType.Range()];
    if place.InChain? {
      GrownKeepsOther(g.fatType, g.Limit(), fat, [], fat1, d.chain, place.chain);
      if d.place != place || fat' != fat1 {
        LbasInData(g, fat', d.place.chain);
        assert d.place.chain[0] == place.chain[0];
      }
    }
  }

  /** All the sessions together: no other file of the volume is touched. */
  lemma OutcomeKeepsOther(g: Mounted, cluster: nat, a: Stage, name: seq<byte>, b: Stage, c: Stage, data: seq<byte>,
                          other: seq<nat>, secs: seq<Sector>)
    requires WholeRun(g, a, name, b, c, data)
    requires IsPlace(g, a.fat, cluster, a.d.place) && IsPlace(g, c.fat, cluster, c.d.place)
    requires Holds(g, a.fat, a.sectors, a.d.place, other, secs)
    requires Search(Records(a.d.dirSecs), EMPTY_CACHE, Key(name)).Hit? ==> Disjoint(other, a.d.chain)
    ensures Holds(g, c.fat, c.sectors, c.d.place, other, secs) && Disjoint(other, c.d.chain)
  {
    hide Search, Records, Key, Extended, CreatedIn, Within, Inserted, SameLookups, Holds, IsPlace, Disjoint;
    if Search(Records(a.d.dirSecs), EMPTY_CACHE, Key(name)).Miss? {
      CreatedPlace(g, a.fat, cluster, a.d.place, Records(a.d.dirSecs), name, b.fat, b.d);
      CreatedKeepsOther(g, a, cluster, name, b, other, secs);
    }
    ExtendedKeepsOther(g, b.Shot(), c.Shot(), data, cluster, b.d.place, other, secs);
  }

  /* ----------- other names in the directory ----------- */

  /** One record answers to one name. */
  lemma {:induction false} SearchInjective(records: seq<Record>, cache: LfnCache, k: NameKey, l: NameKey)
    requires cache.Valid() && Search(records, cache, k).Hit? && Search(records, cache, k) == Search(records, cache, l)
    ensures k == l
    decreases records
  {
    hide After, NameOf;
    if !Matches(cache, records[0], k) && !Matches(cache, records[0], l) {
      SearchInjective(records[1..], After(cache, records[0]), k, l);
    }
  }

  /** Any other name is found where it was, its record unchanged, or not at all, as before. */
  lemma OtherNameKept(g: Mounted, a: Stage, name: seq<byte>, b: Stage, c: Stage, data: seq<byte>, key: NameKey)
    requires WholeRun(g, a, name, b, c, data) && key != Key(name)
    requires Search(Records(a.d.dirSecs), EMPTY_CACHE, Key(name)).Hit? ==> Named(a.d, name)
    ensures var f := Search(Records(a.d.dirSecs), EMPTY_CACHE, key);
            && SameOutcome(f, Search(Records(c.d.dirSecs), EMPTY_CACHE, key))
            && (f.Hit? ==> f.index < |Records(c.d.dirSecs)| && f.index != c.d.index
                           && Records(c.d.dirSecs)[f.index] == Records(a.d.dirSecs)[f.index])
  {
    hide Search, Records, Key, Extended, CreatedIn, Within, IsLive, SfnRecord, Complete, ShortUnique, Placed;
    EmptyCacheValid();
    var records, records1 := Records(a.d.dirSecs), Records(b.d.dirSecs);
    var f := Search(records, EMPTY_CACHE, key);
    if Search(records, EMPTY_CACHE, Key(name)).Miss? {
      var e: Entry :| e.filename == name && Inserted(records, records1, e, b.d.index);
      assert SameOutcome(f, Search(records1, EMPTY_CACHE, key));
    }
    if f.Hit? && f.index == b.d.index {
      SearchInjective(records1, EMPTY_CACHE, Key(name), key);
    }
  }

  /** After appending to one file, any other is at rest as it was. */
  lemma OtherFileKept(g: Mounted, cluster: nat, a: Stage, name: seq<byte>, b: Stage, c: Stage, data: seq<byte>,
                      o: Desk, key: NameKey) returns (o': Desk)
    requires WholeRun(g, a, name, b, c, data)
    requires IsPlace(g, a.fat, cluster, a.d.place) && IsPlace(g, c.fat, cluster, c.d.place) &&
             FileAs(g, c.fat, c.sectors, c.d)
    requires FileAs(g, a.fat, a.sectors, o) && o.place == a.d.place && o.dirSecs == a.d.dirSecs
    requires Search(Records(o.dirSecs), EMPTY_CACHE, key) == Hit(o.index) && key != Key(name)
    requires Search(Records(a.d.dirSecs), EMPTY_CACHE, Key(name)).Hit? ==>
             Named(a.d, name) && Disjoint(o.chain, a.d.chain)
    ensures o' == o.(place := c.d.place, dirSecs := c.d.dirSecs)
    ensures FileAs(g, c.fat, c.sectors, o') && Search(Records(o'.dirSecs), EMPTY_CACHE, key) == Hit(o'.index)
    ensures Disjoint(o'.chain, c.d.chain)
  {
    hide WholeRun, Search, Records, Key, Hold, Lbas, PlaceLbas, IsPlace, IsChain, AllClusters, ShortUnique, IsLive,
         IsFile, Content, Disjoint, Apart;
    OtherNameKept(g, a, name, b, c, data, key);
    OutcomeKeepsOther(g, cluster, a, name, b, c, data, o.chain, o.secs);
    o' := o.(place := c.d.place, dirSecs := c.d.dirSecs);
  }

  /** The medium then still holds exactly its contents. */
  lemma OtherFileReads(fs: Fatfs, cluster: nat, a: Stage, name: seq<byte>, b: Stage, d': Desk, data: seq<byte>,
                       o: Desk, otherName: seq<byte>)
    requires WholeRun(fs.g, a, name, b, Stage(fs.fat, fs.media.sectors, d'), data)
    requires AtRest(fs, cluster, d') && IsPlace(fs.g, a.fat, cluster, a.d.place)
    requires FileAs(fs.g, a.fat, a.sectors, o) && o.place == a.d.place && o.dirSecs == a.d.dirSecs
    requires Named(o, otherName) && Key(otherName) != Key(name)
    requires Search(Records(a.d.dirSecs), EMPTY_CACHE, Key(name)).Hit? ==>
             Named(a.d, name) && Disjoint(o.chain, a.d.chain)
    ensures DiskRead(fs.g, fs.media.sectors, cluster, otherName) == Some(o.content)
  {
    hide WholeRun, Search, Records, Key, PlaceLbas, IsPlace, FileAs, DiskRead, Fatfs.ValidWith, Disjoint;
    var o' := OtherFileKept(fs.g, cluster, a, name, b, Stage(fs.fat, fs.media.sectors, d'), data, o, Key(otherName));
    AtRestReads(fs, cluster, o', otherName);
  }

  lemma RemovedFile(g: Mounted, cluster: nat, fat: seq<nat>, sectors: seq<Sector>, d: Desk, sectors': seq<Sector>,
                    o: Desk, o': Desk)
    requires Within(g, sectors, sectors', PlaceLbas(g, d.place)) && IsPlace(g, fat, cluster, d.place)
    requires FileAs(g, fat, sectors, d) && FileAs(g, fat, sectors, o) && o.place == d.place &&
             Disjoint(o.chain, d.chain)
    requires o' == o.(dirSecs := o'.dirSecs) && ShortUnique(Records(o'.dirSecs))
    requires o.index < |Records(o.dirSecs)| && o.index < |Records(o'.dirSecs)| &&
             Records(o'.dirSecs)[o.index] == Records(o.dirSecs)[o.index]
    ensures FileAs(g, Cleared(fat, d.chain), sectors', o')
  {
    hide Records, Hold, Lbas, PlaceLbas, IsPlace, IsChain, AllClusters, ShortUnique, IsLive, IsFile, Content, Disjoint,
         Apart, Cleared, Free, Reserved, Within;
    ClearedKeepsChain(g.fatType, fat, g.Limit(), d.chain, o.chain);
    H.ClearedReserved(g.fatType, fat, g.Limit(), g.rootFirstCluster, d.chain);
    WithinKeepsFile(g, fat, cluster, d.place, o.chain, sectors, sectors', o.secs);
  }

  lemma RemovedRecords(g: Mounted, fat: seq<nat>, sectors: seq<Sector>, d: Desk, dirSecs': seq<Sector>, o: Desk,
                       key: NameKey)
    requires Removed(Records(d.dirSecs), d.index, Records(dirSecs'))
    requires FileAs(g, fat, sectors, d) && FileAs(g, fat, sectors, o) && o.dirSecs == d.dirSecs
    requires Search(Records(o.dirSecs), EMPTY_CACHE, key) == Hit(o.index) && o.index != d.index
    ensures Search(Records(dirSecs'), EMPTY_CACHE, key) == Hit(o.index)
    ensures o.index < |Records(d.dirSecs)| && o.index < |Records(dirSecs')| &&
            Records(dirSecs')[o.index] == Records(d.dirSecs)[o.index]
    ensures ShortUnique(Records(dirSecs'))
  {
    hide Search, Records, Key, Hold, Lbas, IsChain, AllClusters, ShortUnique, IsFile, Content, Deleted, Apart, Owns,
         IsLive;
    DeleteKeepsUnique(Records(d.dirSecs), d.index);
    assert SameOutcome(Search(Records(d.dirSecs), EMPTY_CACHE, key), Search(Records(dirSecs'), EMPTY_CACHE, key));
  }

  /** After removing one file, any other is at rest as it was. */
  lemma RemovedKeepsOther(g: Mounted, cluster: nat, fat: seq<nat>, sectors: seq<Sector>, d: Desk,
                          sectors': seq<Sector>, dirSecs': seq<Sector>,
                          o: Desk, key: NameKey) returns (o': Desk)
    requires Removed(Records(d.dirSecs), d.index, Records(dirSecs'))
    requires Within(g, sectors, sectors', PlaceLbas(g, d.place)) && IsPlace(g, fat, cluster, d.place)
    requires FileAs(g, fat, sectors, d) && FileAs(g, fat, sectors, o) && o.place == d.place && o.dirSecs == d.dirSecs
    requires Search(Records(o.dirSecs), EMPTY_CACHE, key) == Hit(o.index) && o.index != d.index &&
             Disjoint(o.chain, d.chain)
    ensures o' == o.(dirSecs := dirSecs')
    ensures FileAs(g, Cleared(fat, d.chain), sectors', o') &&
            Search(Records(o'.dirSecs), EMPTY_CACHE, key) == Hit(o'.index)
  {
    hide Search, Records, PlaceLbas, Removed, Cleared, Within, Disjoint, FileAs, IsPlace;
    RemovedRecords(g, fat, sectors, d, dirSecs', o, key);
    o' := o.(dirSecs := dirSecs');
    RemovedFile(g, cluster, fat, sectors, d, sectors', o, o');
  }

  /** The medium then still holds exactly its contents. */
  lemma OtherReadsAfterRemoval(fs: Fatfs, cluster: nat, fat: seq<nat>, sectors: seq<Sector>, d: Desk,
                               dirSecs': seq<Sector>, o: Desk, otherName: seq<byte>)
    requires DirOf(fs, cluster, d.place, dirSecs') && fs.Purged()
    requires Removed(Records(d.dirSecs), d.index, Records(dirSecs')) && fs.fat == Cleared(fat, d.chain)
    requires Within(fs.g, sectors, fs.media.sectors, PlaceLbas(fs.g, d.place)) && IsPlace(fs.g, fat, cluster, d.place)
    requires FileAs(fs.g, fat, sectors, d) && FileAs(fs.g, fat, sectors, o) && o.place == d.place &&
             o.dirSecs == d.dirSecs
    requires Named(o, otherName) && o.index != d.index && Disjoint(o.chain, d.chain)
    ensures DiskRead(fs.g, fs.media.sectors, cluster, otherName) == Some(o.content)
  {
    hide Search, Records, Key, DirOf, Fatfs.ValidWith, PlaceLbas, Removed, DiskRead, Cleared, Within, Disjoint, FileAs,
         Fatfs.Purged, IsPlace;
    var o' := RemovedKeepsOther(fs.g, cluster, fat, sectors, d, fs.media.sectors, dirSecs', o, Key(otherName));
    AtRestReads(fs, cluster, o', otherName);
  }
}
