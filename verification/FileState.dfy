/** A file and the directory that names it: what an open file and one at rest keep true. */
module FileState {

  import opened Words
  import opened FatEntries
  import opened Geometry
  import opened ChainDefs
  import opened Chains
  import opened FatTable
  import opened FileLayout
  import opened FileSpec
  import opened FileContent
  import opened DirRecords
  import opened Names
  import opened DirSearch
  import opened DirShort
  import opened DirLayout
  import opened DirAccess
  import opened DirUpdate
  import opened DiskReader

  /** A directory and a file own different clusters. */
  ghost predicate Apart(place: Place, chain: seq<nat>) {
    place.InChain? ==> Disjoint(place.chain, chain)
  }

  /** The directory consists of these sectors, and currentsector is one of them or empty. */
  ghost predicate DirAs(g: Mounted, fat: seq<nat>, sectors: seq<Sector>, address: nat, buffer: Sector, cluster: nat,
                        place: Place, dirSecs: seq<Sector>) {
    && |sectors| == g.total && |fat| == g.Entries()
    && IsPlace(g, fat, cluster, place)
    && Hold(sectors, PlaceLbas(g, place), dirSecs)
    && (address == LAST || (address in PlaceLbas(g, place) && address < |sectors| && buffer == sectors[address]))
  }

  ghost predicate DirOf(fs: Fatfs, cluster: nat, place: Place, dirSecs: seq<Sector>)
    reads fs`slots, fs`next, fs`head, fs`order, fs`view, fs`fat, fs`curAddress, fs`curSector, fs.media`sectors
  {
    fs.Valid() && fs.media.Reliable() && DirAs(fs.g, fs.fat, fs.media.sectors, fs.curAddress, fs.curSector, cluster,
                                               place, dirSecs)
  }

  lemma DirOfIsDir(fs: Fatfs, cluster: nat, place: Place, dirSecs: seq<Sector>)
    requires DirOf(fs, cluster, place, dirSecs)
    ensures Dir(fs, cluster, place, dirSecs)
  {
    PlaceLbasSound(fs.g, fs.fat, cluster, place);
    hide PlaceLbas, IsPlace, Fatfs.ValidWith, Decode, Hold, Volume.InMeta;
  }

  lemma DirIsDirOf(fs: Fatfs, cluster: nat, place: Place, dirSecs: seq<Sector>)
    requires Dir(fs, cluster, place, dirSecs)
    requires fs.curAddress == LAST || fs.curAddress in PlaceLbas(fs.g, place)
    ensures DirOf(fs, cluster, place, dirSecs)
  {
    hide PlaceLbas, IsPlace, Fatfs.ValidWith, Decode, Hold;
  }

  /** The sectors of a directory are not among those of a file apart from it. */
  lemma PlaceNotInChain(g: Mounted, fat: seq<nat>, cluster: nat, place: Place, chain: seq<nat>, s: nat, u: nat)
    requires IsPlace(g, fat, cluster, place) && Apart(place, chain)
    requires IsChain(g.fatType, fat, g.Limit(), chain) && AllClusters(g, chain)
    requires s < |PlaceLbas(g, place)| && u < |Lbas(g, chain)|
    ensures PlaceLbas(g, place)[s] != Lbas(g, chain)[u]
  {
    match place
    case Root16 =>
      LbasDistinct(g, fat, chain, u, u);
      RegionsDisjoint(g, g.RootBegin() + s);
    case InChain(dir) => LbasDisjoint(g, dir, chain, s, u);
  }

  lemma PlaceApart(g: Mounted, fat: seq<nat>, cluster: nat, place: Place, chain: seq<nat>)
    requires IsPlace(g, fat, cluster, place) && Apart(place, chain)
    requires IsChain(g.fatType, fat, g.Limit(), chain) && AllClusters(g, chain)
    ensures forall l :: l in PlaceLbas(g, place) ==> l !in Lbas(g, chain)
  {
    hide PlaceLbas, Lbas, IsPlace, IsChain, AllClusters;
    forall l | l in PlaceLbas(g, place) ensures l !in Lbas(g, chain) {
      var s :| 0 <= s < |PlaceLbas(g, place)| && PlaceLbas(g, place)[s] == l;
      forall u | 0 <= u < |Lbas(g, chain)| ensures Lbas(g, chain)[u] != l {
        PlaceNotInChain(g, fat, cluster, place, chain, s, u);
      }
    }
  }

  /** Whatever happens to a file, the directory stays as it is. */
  lemma EvolvedKeepsDir(g: Mounted, a: Snap, b: Snap, address: nat, buffer: Sector, cluster: nat, place: Place,
                        dirSecs: seq<Sector>)
    requires Evolved(g, a.fat, a.chain, a.sectors, b.fat, b.chain, b.sectors) && Apart(place, a.chain)
    requires DirAs(g, a.fat, a.sectors, address, buffer, cluster, place, dirSecs)
    ensures DirAs(g, b.fat, b.sectors, address, buffer, cluster, place, dirSecs) && Apart(place, b.chain)
  {
    PlaceLbasSound(g, a.fat, cluster, place);
    EvolvedKeepsPlace(g, a, b, cluster, place);
    PlaceApart(g, b.fat, cluster, place, b.chain);
    hide PlaceLbas, Lbas, IsPlace, IsChain, AllClusters, Apart, Volume.InMeta;
    assert forall l :: l in PlaceLbas(g, place) ==> l < |a.sectors| && b.sectors[l] == a.sectors[l];
  }

  lemma EvolvedKeepsPlace(g: Mounted, a: Snap, b: Snap, cluster: nat, place: Place)
    requires Evolved(g, a.fat, a.chain, a.sectors, b.fat, b.chain, b.sectors) && Apart(place, a.chain)
    requires IsPlace(g, a.fat, cluster, place)
    ensures IsPlace(g, b.fat, cluster, place) && Apart(place, b.chain) && |b.fat| == |a.fat|
  {
    if place.InChain? {
      GrownKeepsOther(g.fatType, g.Limit(), a.fat, a.chain, b.fat, b.chain, place.chain);
    }
  }

  /** Whatever happens to the sectors of a directory, a file apart from it stays as it is. */
  lemma WithinKeepsFile(g: Mounted, fat: seq<nat>, cluster: nat, place: Place, chain: seq<nat>, before: seq<Sector>,
                        after: seq<Sector>, secs: seq<Sector>)
    requires IsPlace(g, fat, cluster, place) && Apart(place, chain)
    requires IsChain(g.fatType, fat, g.Limit(), chain)
    requires Within(g, before, after, PlaceLbas(g, place))
    ensures AllClusters(g, chain)
    ensures Hold(before, Lbas(g, chain), secs) ==> Hold(after, Lbas(g, chain), secs)
  {
    LbasInData(g, fat, chain);
    PlaceApart(g, fat, cluster, place, chain);
    hide PlaceLbas, Lbas, IsPlace, IsChain, AllClusters, Apart, Volume.InMeta;
    if Hold(before, Lbas(g, chain), secs) {
      forall s | 0 <= s < |Lbas(g, chain)| ensures Lbas(g, chain)[s] < |after| && after[Lbas(g, chain)[s]] == secs[s] {
        assert Lbas(g, chain)[s] in Lbas(g, chain);
      }
    }
  }

  /** A file as its directory record and the medium have it. */
  datatype Desk = Desk(place: Place, dirSecs: seq<Sector>, index: nat, chain: seq<nat>, secs: seq<Sector>,
                       content: seq<byte>)

  /** The record of the file in a directory with unique short names. */
  ghost predicate Recorded(records: seq<Record>, index: nat, shortName: ShortName, start: nat) {
    && index < |records| && ShortUnique(records)
    && IsLive(records[index]) && IsFile(records[index])
    && Name(records[index]) == shortName && FirstCluster(records[index]) == start
  }

  ghost predicate FileAs(g: Mounted, fat: seq<nat>, sectors: seq<Sector>, d: Desk) {
    var records := Records(d.dirSecs);
    && Owns(g, fat, d.chain) && AllClusters(g, d.chain) && Apart(d.place, d.chain)
    && Hold(sectors, Lbas(g, d.chain), d.secs)
    && d.index < |records| && Recorded(records, d.index, Name(records[d.index]), d.chain[0])
    && Size(records[d.index]) == |d.content| <= SECTOR_SIZE * |d.secs|
    && d.content == Content(d.secs, |d.content|)
  }

  /** No file is open, and everything about this one is on the medium. */
  ghost predicate AtRest(fs: Fatfs, cluster: nat, d: Desk)
    reads fs`slots, fs`next, fs`head, fs`order, fs`view, fs`fat, fs`curAddress, fs`curSector, fs.media`sectors
  {
    && DirOf(fs, cluster, d.place, d.dirSecs)
    && FileAs(fs.g, fs.fat, fs.media.sectors, d)
    && fs.Purged()
  }

  /** The file goes by the name in its directory. */
  ghost predicate Named(d: Desk, name: seq<byte>) {
    Search(Records(d.dirSecs), EMPTY_CACHE, Key(name)) == Hit(d.index)
  }

  /** What is at rest is on the medium: the reference reader finds exactly the contents. */
  lemma AtRestReads(fs: Fatfs, cluster: nat, d: Desk, name: seq<byte>)
    requires AtRest(fs, cluster, d) && Named(d, name)
    ensures DiskRead(fs.g, fs.media.sectors, cluster, name) == Some(d.content)
  {
    hide PlaceLbas, IsPlace, Fatfs.ValidWith, Hold, Records, Search, Lbas, IsChain, AllClusters, DiskChain,
         DiskDirectory, Content, Key;
    DiskDirectoryReads(fs.g, fs.media.sectors, fs.fat, cluster, d.place, d.dirSecs);
    DiskChainReads(fs.g, fs.media.sectors, fs.fat, d.chain, d.secs);
  }

  /** A purged directory without the name: the reference reader finds nothing either. */
  lemma NothingReads(fs: Fatfs, cluster: nat, place: Place, dirSecs: seq<Sector>, name: seq<byte>)
    requires DirOf(fs, cluster, place, dirSecs) && fs.Purged()
    requires Search(Records(dirSecs), EMPTY_CACHE, Key(name)).Miss?
    ensures |fs.media.sectors| == fs.g.total && DiskRead(fs.g, fs.media.sectors, cluster, name) == None
  {
    hide PlaceLbas, IsPlace, Fatfs.ValidWith, Hold, Records, Search, DiskDirectory, Key;
    DiskDirectoryReads(fs.g, fs.media.sectors, fs.fat, cluster, place, dirSecs);
  }
}
