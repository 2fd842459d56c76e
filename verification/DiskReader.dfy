/** A reference reader: what a file is, going by the sectors of the medium alone. */
module DiskReader {

  import opened Words
  import opened FatEntries
  import opened Geometry
  import opened ChainDefs
  import opened Chains
  import opened FileLayout
  import opened FileContent
  import opened DirRecords
  import opened Names
  import opened DirSearch
  import opened DirLayout

  datatype Option<T> = None | Some(value: T)

  /** The entries of the FAT as it is on the medium. */
  ghost function DiskFat(g: Mounted, sectors: seq<Sector>): seq<nat>
    requires |sectors| == g.total
  {
    Decode(g.fatType, sectors[g.fatBegin..g.fatBegin + g.fatSectors])
  }

  /** The sectors of the chain that starts at a cluster. */
  ghost function DiskChain(g: Mounted, sectors: seq<Sector>, c: nat): seq<Sector>
    requires |sectors| == g.total
  {
    var fat := DiskFat(g, sectors);
    DiskSectors(g, sectors, Follow(g.fatType, fat, c, |fat|))
  }

  ghost function DiskSectors(g: Mounted, sectors: seq<Sector>, chain: seq<nat>): seq<Sector>
    requires |sectors| == g.total
  {
    if AllClusters(g, chain) then DiskAt(g, sectors, Lbas(g, chain)) else []
  }

  ghost function DiskAt(g: Mounted, sectors: seq<Sector>, lbas: seq<nat>): seq<Sector> {
    if forall s :: 0 <= s < |lbas| ==> lbas[s] < |sectors| then OnMedium(sectors, lbas) else []
  }

  ghost function DiskDirectory(g: Mounted, sectors: seq<Sector>, cluster: nat): seq<Sector>
    requires |sectors| == g.total
  {
    if g.fatType.Fat16? && cluster == 0 then DiskAt(g, sectors, RootLbas(g)) else DiskChain(g, sectors, cluster)
  }

  /** The bytes of the file of that name in a directory, if there is one. */
  ghost function DiskRead(g: Mounted, sectors: seq<Sector>, cluster: nat, name: seq<byte>): Option<seq<byte>>
    requires |sectors| == g.total
  {
    DiskFile(g, sectors, Records(DiskDirectory(g, sectors, cluster)), Key(name))
  }

  ghost function DiskFile(g: Mounted, sectors: seq<Sector>, records: seq<Record>, key: NameKey): Option<seq<byte>>
    requires |sectors| == g.total
  {
    match Search(records, EMPTY_CACHE, key)
    case Miss(_) => None
    case Hit(i) => if IsFile(records[i]) then DiskBytes(g, sectors, records[i]) else None
  }

  ghost function DiskBytes(g: Mounted, sectors: seq<Sector>, r: Record): Option<seq<byte>>
    requires |sectors| == g.total
  {
    var secs := DiskChain(g, sectors, FirstCluster(r));
    if Size(r) <= SECTOR_SIZE * |secs| then Some(Content(secs, Size(r))) else None
  }

  lemma HoldOnMedium(g: Mounted, sectors: seq<Sector>, lbas: seq<nat>, secs: seq<Sector>)
    requires Hold(sectors, lbas, secs)
    ensures DiskAt(g, sectors, lbas) == secs
  {
    assert OnMedium(sectors, lbas) == secs;
  }

  /** The reference reader finds a chain whose FAT entries are all on the medium. */
  lemma DiskChainReads(g: Mounted, sectors: seq<Sector>, fat: seq<nat>, chain: seq<nat>, secs: seq<Sector>)
    requires |sectors| == g.total && DiskFat(g, sectors) == fat
    requires IsChain(g.fatType, fat, g.Limit(), chain) && AllClusters(g, chain)
    requires Hold(sectors, Lbas(g, chain), secs)
    ensures DiskChain(g, sectors, chain[0]) == secs
  {
    FollowChain(g.fatType, fat, g.Limit(), chain);
    HoldOnMedium(g, sectors, Lbas(g, chain), secs);
  }

  lemma DiskDirectoryReads(g: Mounted, sectors: seq<Sector>, fat: seq<nat>, cluster: nat, place: Place,
                           secs: seq<Sector>)
    requires |sectors| == g.total && DiskFat(g, sectors) == fat
    requires IsPlace(g, fat, cluster, place) && Hold(sectors, PlaceLbas(g, place), secs)
    ensures DiskDirectory(g, sectors, cluster) == secs
  {
    match place
    case Root16 => HoldOnMedium(g, sectors, RootLbas(g), secs);
    case InChain(chain) => DiskChainReads(g, sectors, fat, chain, secs);
  }
}
