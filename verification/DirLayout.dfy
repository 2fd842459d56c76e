/** Where the records of a directory lie: in the sectors of a chain, or in the FAT16 root. */
module DirLayout {

  import opened Words
  import opened Geometry
  import opened ChainDefs
  import opened FileLayout
  import opened FileSpec
  import opened DirRecords

  const PER_SECTOR := 16   // FAT_DIR_ENTRIES_PER_SECTOR

  datatype Place = Root16 | InChain(chain: seq<nat>)

  /** The directory whose start cluster is `cluster`; on FAT16 cluster 0 means the root. */
  ghost predicate IsPlace(g: Mounted, fat: seq<nat>, cluster: nat, place: Place) {
    match place
    case Root16 => g.fatType.Fat16? && cluster == 0
    case InChain(chain) => IsChain(g.fatType, fat, g.Limit(), chain) && chain[0] == cluster && AllClusters(g, chain)
  }

  function RootLbas(g: Mounted): (r: seq<nat>)
    ensures |r| == g.rootSectors && forall i :: 0 <= i < |r| ==> r[i] == g.RootBegin() + i
  {
    seq<nat>(g.rootSectors, (i: nat) => g.RootBegin() + i)
  }

  ghost function PlaceLbas(g: Mounted, place: Place): seq<nat> {
    match place
    case Root16 => RootLbas(g)
    case InChain(chain) => if AllClusters(g, chain) then Lbas(g, chain) else []
  }

  /** The sectors at those addresses. */
  ghost predicate Hold(sectors: seq<Sector>, lbas: seq<nat>, secs: seq<Sector>) {
    |secs| == |lbas| && forall s :: 0 <= s < |lbas| ==> lbas[s] < |sectors| && sectors[lbas[s]] == secs[s]
  }

  /** The sectors of a directory are distinct, and neither FAT nor FSInfo. */
  lemma PlaceLbasSound(g: Mounted, fat: seq<nat>, cluster: nat, place: Place)
    requires IsPlace(g, fat, cluster, place)
    ensures forall s :: 0 <= s < |PlaceLbas(g, place)| ==>
            PlaceLbas(g, place)[s] < g.total && !g.InMeta(PlaceLbas(g, place)[s])
    ensures forall s, u :: 0 <= s < u < |PlaceLbas(g, place)| ==> PlaceLbas(g, place)[s] != PlaceLbas(g, place)[u]
  {
    match place
    case Root16 =>
    case InChain(chain) => LbasInData(g, fat, chain);
  }

  function RecordAt(sector: Sector, item: nat): Record
    requires item < PER_SECTOR
  {
    sector[ENTRY_SIZE * item..ENTRY_SIZE * (item + 1)]
  }

  function RecordsOf(sector: Sector): (r: seq<Record>)
    ensures |r| == PER_SECTOR
    ensures forall i :: 0 <= i < PER_SECTOR ==> r[i] == RecordAt(sector, i)
  {
    seq<Record>(PER_SECTOR, i requires 0 <= i < PER_SECTOR => RecordAt(sector, i))
  }

  /** All records of a directory, in order. */
  function Records(secs: seq<Sector>): (r: seq<Record>)
    ensures |r| == PER_SECTOR * |secs|
  {
    if secs == [] then [] else Records(secs[..|secs| - 1]) + RecordsOf(secs[|secs| - 1])
  }

  lemma {:induction false} RecordsConcat(a: seq<Sector>, b: seq<Sector>)
    ensures Records(a + b) == Records(a) + Records(b)
  {
    if b == [] {
      assert a + b == a;
    } else {
      assert (a + b)[..|a + b| - 1] == a + b[..|b| - 1];
      RecordsConcat(a, b[..|b| - 1]);
    }
  }

  lemma SplitAt<T>(s: seq<T>, i: nat)
    requires i < |s|
    ensures s == s[..i] + [s[i]] + s[i + 1..]
  {
  }

  lemma RecordsSplit(secs: seq<Sector>, s: nat)
    requires s < |secs|
    ensures Records(secs) == Records(secs[..s]) + RecordsOf(secs[s]) + Records(secs[s + 1..])
  {
    hide Records, RecordsOf;
    var pre, one, post := secs[..s], [secs[s]], secs[s + 1..];
    SplitAt(secs, s);
    RecordsConcat(pre + one, post);
    RecordsConcat(pre, one);
    RecordsSingle(secs[s]);
  }

  lemma RecordsSingle(sector: Sector)
    ensures Records([sector]) == RecordsOf(sector)
  {
    assert [sector][..0] == [];
    assert Records([sector][..0]) == [];
  }

  lemma RecordsIndex(secs: seq<Sector>, s: nat, i: nat)
    requires s < |secs| && i < PER_SECTOR
    ensures Records(secs)[PER_SECTOR * s + i] == RecordAt(secs[s], i) == secs[s][32 * i..32 * (i + 1)]
  {
    RecordsSplit(secs, s);
  }

  function PutRecord(sector: Sector, item: nat, r: Record): Sector
    requires item < PER_SECTOR
  {
    sector[..ENTRY_SIZE * item] + r + sector[ENTRY_SIZE * (item + 1)..]
  }

  lemma PutRecordAt(sector: Sector, item: nat, r: Record)
    requires item < PER_SECTOR
    ensures RecordsOf(PutRecord(sector, item, r)) == RecordsOf(sector)[item := r]
  {
    forall i | 0 <= i < PER_SECTOR ensures RecordAt(PutRecord(sector, item, r), i) == RecordsOf(sector)[item := r][i] {
      assert RecordAt(PutRecord(sector, item, r), i) == if i == item then r else RecordAt(sector, i);
    }
  }

  lemma RecordsFrom(secs: seq<Sector>, s: nat)
    requires s < |secs|
    ensures Records(secs[s..]) == RecordsOf(secs[s]) + Records(secs[s + 1..])
  {
    hide Records, RecordsOf;
    assert secs[s..] == [secs[s]] + secs[s + 1..];
    RecordsConcat([secs[s]], secs[s + 1..]);
    RecordsSingle(secs[s]);
  }

  /** Changes to the FAT and FSInfo leave a directory as it is. */
  lemma HoldOutsideMeta(g: Mounted, sectors: seq<Sector>, sectors': seq<Sector>, lbas: seq<nat>, secs: seq<Sector>)
    requires Hold(sectors, lbas, secs) && |sectors'| == |sectors|
    requires forall s :: 0 <= s < |lbas| ==> !g.InMeta(lbas[s])
    requires forall l :: 0 <= l < |sectors| && !g.InMeta(l) ==> sectors'[l] == sectors[l]
    ensures Hold(sectors', lbas, secs)
  {
  }
}
