/** The storage medium behind the library's read and write callbacks: numbered
    512-byte sectors, where any single transfer may fail. */
module BlockDevice {

  import opened Words

  /** What happens to one transfer.  A failed transfer leaves junk in the place it was filling. */
  datatype Outcome = Good | Bad(junk: Sector)

  /** Sectors [lba, lba + n) are zero and all others as before. */
  ghost predicate Erased(before: seq<Sector>, after: seq<Sector>, lba: nat, n: nat) {
    && |after| == |before|
    && forall l :: 0 <= l < |after| ==> after[l] == if lba <= l < lba + n then Zeros(SECTOR_SIZE) else before[l]
  }

  class Media {
    var sectors: seq<Sector>
    var transfers: nat
    const outcome: nat -> Outcome

    constructor (contents: seq<Sector>, outcome: nat -> Outcome)
      ensures sectors == contents && this.outcome == outcome
    {
      sectors := contents;
      transfers := 0;
      this.outcome := outcome;
    }

    /** No transfer ever fails. */
    ghost predicate Reliable() {
      forall n: nat :: outcome(n).Good?
    }

    method Read(lba: nat) returns (ok: bool, data: Sector)
      modifies this`transfers
      ensures ok ==> lba < |sectors| && data == sectors[lba]
      ensures Reliable() && lba < |sectors| ==> ok
    {
      var result := outcome(transfers);
      transfers := transfers + 1;
      if lba < |sectors| && result.Good? {
        ok, data := true, sectors[lba];
      } else {
        ok, data := false, if result.Bad? then result.junk else Zeros(SECTOR_SIZE);
      }
    }

    method Write(lba: nat, data: Sector) returns (ok: bool)
      modifies this
      ensures |sectors| == |old(sectors)|
      ensures forall l :: 0 <= l < |sectors| && l != lba ==> sectors[l] == old(sectors)[l]
      ensures ok ==> lba < |sectors| && sectors == old(sectors)[lba := data]
      ensures Reliable() && lba < |sectors| ==> ok
    {
      var result := outcome(transfers);
      transfers := transfers + 1;
      ok := lba < |sectors| && result.Good?;
      if ok {
        sectors := sectors[lba := data];
      } else if lba < |sectors| {
        sectors := sectors[lba := result.junk];
      }
    }
  }
}
