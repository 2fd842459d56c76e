/** Runs of sectors moved straight between a caller's buffer and the medium. */
module FatAccess {

  import opened Words
  import opened FatEntries
  import opened Geometry
  import opened FatTable
  import opened FileLayout

  /** fatfs_sector_write */
  method SectorWrite(fs: Fatfs, lba: nat, data: seq<byte>, count: nat) returns (ok: bool)
    requires fs.Valid() && fs.media.Reliable()
    requires SECTOR_SIZE * count <= |data|
    requires forall l :: lba <= l < lba + count ==> l < fs.g.total && !fs.g.InFat(l)
    modifies fs.media
    ensures fs.Valid() && ok
    ensures RunWritten(old(fs.media.sectors), fs.media.sectors, lba, data, count)
  {
    hide Fatfs.ValidWith, Decode, Volume.InFat;
    var i := 0;
    while i < count
      invariant 0 <= i <= count
      invariant fs.Valid()
      invariant RunWritten(old(fs.media.sectors), fs.media.sectors, lba, data, i)
    {
      assert !fs.g.InFat(lba + i);
      ok := fs.WriteOther(lba + i, Chunk(data, i));
      i := i + 1;
    }
    ok := true;
  }

  /** fatfs_sector_read */
  method SectorRead(fs: Fatfs, lba: nat, count: nat) returns (ok: bool, data: seq<byte>)
    requires fs.Valid() && fs.media.Reliable()
    requires lba + count <= fs.g.total
    modifies fs.media`transfers
    ensures fs.Valid() && ok
    ensures |data| == SECTOR_SIZE * count
    ensures forall i :: 0 <= i < count ==> Chunk(data, i) == fs.media.sectors[lba + i]
  {
    hide Fatfs.ValidWith, Decode;
    data := [];
    var i := 0;
    while i < count
      invariant 0 <= i <= count
      invariant fs.Valid()
      invariant |data| == SECTOR_SIZE * i
      invariant forall j :: 0 <= j < i ==> Chunk(data, j) == fs.media.sectors[lba + j]
    {
      var sector;
      ok, sector := fs.media.Read(lba + i);
      ChunkAppend(data, sector, i);
      data := data + sector;
      i := i + 1;
    }
    ok := true;
  }

  lemma ChunkAppend(data: seq<byte>, sector: Sector, n: nat)
    requires |data| == SECTOR_SIZE * n
    ensures Chunk(data + sector, n) == sector
    ensures forall j :: 0 <= j < n ==> Chunk(data + sector, j) == Chunk(data, j)
  {
  }
}
