/** The FAT, said in the bytes of its sectors. */
module FatBytes {

  import opened Words
  import opened FatEntries
  import opened Geometry
  import opened ChainDefs
  import opened FileLayout
  import opened DirRecords
  import opened Names
  import opened DirSearch
  import opened DirLayout
  import opened DiskReader

  /** The same FAT but for which of the eight values ends each chain. */
  ghost predicate SameLinks(t: FatType, a: seq<Sector>, b: seq<Sector>) {
    && |a| == |b|
    && forall c: nat :: c < t.Entries(|a|) ==>
         || EntryBytes(t, a, c) == EntryBytes(t, b, c)
         || (EndsChain(t, EntryBytes(t, a, c)) && EndsChain(t, EntryBytes(t, b, c)))
  }

  lemma SameNext(t: FatType, a: seq<Sector>, b: seq<Sector>, c: nat)
    requires SameLinks(t, a, b) && c < t.Entries(|a|)
    ensures t.Next(Decode(t, a)[c]) == t.Next(Decode(t, b)[c])
  {
    EntryDecoded(t, a, c);
    EntryDecoded(t, b, c);
    EntryMeans(t, Decode(t, a)[c]);
    EntryMeans(t, Decode(t, b)[c]);
    hide EntryBytes, FatType.Next, EndsChain;
  }

  lemma {:induction false} SameFollow(t: FatType, a: seq<Sector>, b: seq<Sector>, c: nat, fuel: nat)
    requires SameLinks(t, a, b)
    ensures Follow(t, Decode(t, a), c, fuel) == Follow(t, Decode(t, b), c, fuel)
    decreases fuel
  {
    hide FatType.Next, Decode, EntryBytes, EndsChain;
    if fuel > 0 && c != LAST && 2 <= c < t.Entries(|a|) {
      SameNext(t, a, b, c);
      SameFollow(t, a, b, t.Next(Decode(t, a)[c]), fuel - 1);
    }
  }

  /** Media that agree but for the FAT, and there but for end marks. */
  ghost predicate SameButEnds(g: Mounted, a: seq<Sector>, b: seq<Sector>) {
    && |a| == |b| == g.total
    && SameLinks(g.fatType, a[g.fatBegin..g.fatBegin + g.fatSectors], b[g.fatBegin..g.fatBegin + g.fatSectors])
    && forall l :: 0 <= l < |a| && !g.InFat(l) ==> a[l] == b[l]
  }

  lemma SameAt(g: Mounted, a: seq<Sector>, b: seq<Sector>, lbas: seq<nat>)
    requires SameButEnds(g, a, b) && forall s :: 0 <= s < |lbas| ==> !g.InFat(lbas[s])
    ensures DiskAt(g, a, lbas) == DiskAt(g, b, lbas)
  {
    hide SameLinks;
  }

  lemma ChainOutsideFat(g: Mounted, chain: seq<nat>)
    requires AllClusters(g, chain)
    ensures forall s :: 0 <= s < |Lbas(g, chain)| ==> !g.InFat(Lbas(g, chain)[s])
  {
    forall s | 0 <= s < |Lbas(g, chain)| ensures !g.InFat(Lbas(g, chain)[s]) {
      var k, i := LbasAt(g, chain, s);
      RegionsDisjoint(g, Lbas(g, chain)[s]);
    }
  }

  lemma SameChain(g: Mounted, a: seq<Sector>, b: seq<Sector>, c: nat)
    requires |a| == |b| == g.total && SameButEnds(g, a, b)
    ensures DiskChain(g, a, c) == DiskChain(g, b, c)
  {
    hide SameLinks, Follow, Lbas, Decode, DiskAt, Volume.WellFormed;
    FatInside(g);
    var chain := Follow(g.fatType, DiskFat(g, a), c, g.Entries());
    SameFollow(g.fatType, a[g.fatBegin..g.fatBegin + g.fatSectors], b[g.fatBegin..g.fatBegin + g.fatSectors], c,
               g.Entries());
    if AllClusters(g, chain) {
      ChainOutsideFat(g, chain);
      SameAt(g, a, b, Lbas(g, chain));
    }
  }

  lemma RootOutsideFat(g: Mounted)
    requires g.fatType.Fat16?
    ensures forall s :: 0 <= s < |RootLbas(g)| ==> !g.InFat(RootLbas(g)[s])
  {
  }

  /** Every file is read alike, whichever of the values its chains end with. */
  lemma EndsReadAlike(g: Mounted, a: seq<Sector>, b: seq<Sector>, cluster: nat, name: seq<byte>)
    requires |a| == |b| == g.total && SameButEnds(g, a, b)
    ensures DiskRead(g, a, cluster, name) == DiskRead(g, b, cluster, name)
  {
    hide SameButEnds, DiskChain, DiskAt, Records, Search, Key, Size, FirstCluster, Volume.WellFormed;
    SameChain(g, a, b, cluster);
    if g.fatType.Fat16? {
      RootOutsideFat(g);
      SameAt(g, a, b, RootLbas(g));
    }
    var records := Records(DiskDirectory(g, a, cluster));
    var f := Search(records, EMPTY_CACHE, Key(name));
    if f.Hit? {
      SameChain(g, a, b, FirstCluster(records[f.index]));
    }
  }
}
