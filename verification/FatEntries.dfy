/** The file allocation table as an array of entries: how entries are packed into
    FAT sectors, what an entry means, and how many are free. */
module FatEntries {

  import opened Words

  datatype FatType = Fat16 | Fat32 {

    function PerSector(): nat {
      if Fat16? then 256 else 128
    }

    function Entries(sectors: nat): nat {
      if Fat16? then sectors * 256 else sectors * 128
    }

    /** The sector of the table that holds an entry, and the entry's place in it. */
    function SectorOf(c: nat): (s: nat)
      ensures forall n: nat :: c < Entries(n) ==> s < n
    {
      if Fat16? then c / 256 else c / 128
    }

    function SlotOf(c: nat): (i: nat)
      ensures i < PerSector()
    {
      if Fat16? then c % 256 else c % 128
    }

    /** One past the largest value an entry can hold. */
    function Range(): nat {
      if Fat16? then 0x1_0000 else WORD32
    }

    function Get(sector: Sector, i: nat): (v: nat)
      requires i < PerSector()
      ensures v < Range()
    {
      if Fat16? then Get16(sector, i * 2) else Get32(sector, i * 4)
    }

    function Put(sector: Sector, i: nat, v: nat): Sector
      requires i < PerSector()
    {
      if Fat16? then Put16(sector, i * 2, v) else Put32(sector, i * 4, v)
    }

    /** The top four bits of a 32-bit entry are not part of the link. */
    function Link(v: nat): nat {
      if Fat16? then v else v % 0x1000_0000
    }

    /** Where an entry leads: a cluster number, 0 for a free entry, or LAST at the end of a chain. */
    function Next(v: nat): nat {
      var link := Link(v);
      if Fat16? then
        if 0xFFF8 <= link <= 0xFFFF then LAST else link
      else
        if 0x0FFF_FFF8 <= link <= 0x0FFF_FFFF then LAST else link
    }

    predicate IsFree(v: nat) {
      Link(v) == 0
    }

    /** Links at or above this value would read back as an end mark or are reserved. */
    function MaxLink(): nat {
      if Fat16? then 0xFFF7 else 0x0FFF_FFF7
    }
  }

  /** The whole table, decoded from its sectors. */
  function Decode(t: FatType, view: seq<Sector>): (fat: seq<nat>)
    ensures |fat| == t.Entries(|view|)
    ensures forall c :: 0 <= c < |fat| ==> fat[c] < t.Range()
  {
    seq(t.Entries(|view|), c requires 0 <= c < t.Entries(|view|) =>
      t.Get(view[t.SectorOf(c)], t.SlotOf(c)))
  }

  /** The entry of a cluster, as it is in the sectors of the FAT. */
  function EntryBytes(t: FatType, view: seq<Sector>, c: nat): nat
    requires c < t.Entries(|view|)
  {
    if t.Fat16? then Two(view[c / 256], c % 256 * 2) else Four(view[c / 128], c % 128 * 4)
  }

  lemma EntryDecoded(t: FatType, view: seq<Sector>, c: nat)
    requires c < t.Entries(|view|)
    ensures Decode(t, view)[c] == EntryBytes(t, view, c)
  {
    if t.Fat16? {
      WordsAre(view[c / 256], c % 256 * 2);
    } else {
      WordsAre(view[c / 128], c % 128 * 4);
    }
    hide Two, Four, Get16, Get32;
  }

  /** Any of the eight values that end a chain; the top four bits of an entry of FAT32 are reserved. */
  predicate EndsChain(t: FatType, v: nat) {
    if t.Fat16? then 0xFFF8 <= v <= 0xFFFF else 0x0FFF_FFF8 <= v % 0x1000_0000
  }

  /** What an entry says, by its value. */
  lemma EntryMeans(t: FatType, v: nat)
    requires v < if t.Fat16? then 0x1_0000 else 0x1_0000_0000
    ensures t.Next(v) == if EndsChain(t, v) then 0xFFFF_FFFF else if t.Fat16? then v else v % 0x1000_0000
    ensures t.IsFree(v) <==> v == 0 || (t.Fat32? && v % 0x1000_0000 == 0)
  {
  }

  lemma DecodeAt(t: FatType, view: seq<Sector>, s: nat, j: nat)
    requires s < |view| && j < t.PerSector()
    ensures t.Entries(s) + j < t.Entries(|view|)
    ensures Decode(t, view)[t.Entries(s) + j] == t.Get(view[s], j)
  {
  }

  lemma PutGet(t: FatType, sector: Sector, i: nat, j: nat, v: nat)
    requires i < t.PerSector() && j < t.PerSector()
    ensures t.Get(t.Put(sector, i, v), j) == if i == j then v % t.Range() else t.Get(sector, j)
  {
    if t.Fat16? {
      LoadStore(sector, i * 2, v, 2);
    } else {
      LoadStore(sector, i * 4, v, 4);
    }
  }

  /** Writing one packed entry changes exactly that element of the table. */
  lemma DecodePut(t: FatType, view: seq<Sector>, c: nat, v: nat)
    requires c < t.Entries(|view|)
    ensures var s := t.SectorOf(c);
            s < |view| &&
            Decode(t, view[s := t.Put(view[s], t.SlotOf(c), v)]) == Decode(t, view)[c := v % t.Range()]
  {
    var s := t.SectorOf(c);
    var view' := view[s := t.Put(view[s], t.SlotOf(c), v)];
    forall d | 0 <= d < t.Entries(|view|)
      ensures Decode(t, view')[d] == Decode(t, view)[c := v % t.Range()][d]
    {
      PutGet(t, view[s], t.SlotOf(c), t.SlotOf(d), v);
    }
  }

  /** The first free entry at or after `from`, or the length of the table. */
  function FirstFree(t: FatType, fat: seq<nat>, from: nat): (c: nat)
    requires from <= |fat|
    ensures from <= c <= |fat|
    ensures c < |fat| ==> t.IsFree(fat[c])
    ensures forall d :: from <= d < c ==> !t.IsFree(fat[d])
    decreases |fat| - from
  {
    if from == |fat| || t.IsFree(fat[from]) then from else FirstFree(t, fat, from + 1)
  }

  /** How many entries in [lo, hi) are free. */
  function FreeCount(t: FatType, fat: seq<nat>, lo: nat, hi: nat): (n: nat)
    requires hi <= |fat|
    ensures n <= if lo <= hi then hi - lo else 0
  {
    if hi <= lo then 0
    else FreeCount(t, fat, lo, hi - 1) + if t.IsFree(fat[hi - 1]) then 1 else 0
  }

  lemma {:induction false} FreeCountUpdate(t: FatType, fat: seq<nat>, lo: nat, hi: nat, c: nat, v: nat)
    requires hi <= |fat| && c < |fat|
    ensures FreeCount(t, fat[c := v], lo, hi) ==
            FreeCount(t, fat, lo, hi)
            + (if lo <= c < hi then (if t.IsFree(v) then 1 else 0) - (if t.IsFree(fat[c]) then 1 else 0) else 0)
  {
    if lo < hi {
      FreeCountUpdate(t, fat, lo, hi - 1, c, v);
    }
  }

  lemma {:induction false} FreeCountPositive(t: FatType, fat: seq<nat>, lo: nat, hi: nat)
    requires lo <= hi <= |fat|
    ensures FreeCount(t, fat, lo, hi) > 0 <==> FirstFree(t, fat, lo) < hi
  {
    if lo < hi {
      FreeCountPositive(t, fat, lo, hi - 1);
    }
  }

  lemma {:induction false} FreeCountJoin(t: FatType, fat: seq<nat>, lo: nat, mid: nat, hi: nat)
    requires lo <= mid <= hi <= |fat|
    ensures FreeCount(t, fat, lo, hi) == FreeCount(t, fat, lo, mid) + FreeCount(t, fat, mid, hi)
  {
    if mid < hi {
      FreeCountJoin(t, fat, lo, mid, hi - 1);
    }
  }

  lemma {:induction false} AllFree(t: FatType, fat: seq<nat>, lo: nat, hi: nat)
    requires lo <= hi <= |fat| && forall c :: lo <= c < hi ==> fat[c] == 0
    ensures FreeCount(t, fat, lo, hi) == hi - lo
  {
    if lo < hi {
      AllFree(t, fat, lo, hi - 1);
    }
  }

  lemma {:induction false} NoneFree(t: FatType, fat: seq<nat>, lo: nat, hi: nat)
    requires lo <= hi <= |fat| && forall c :: lo <= c < hi ==> !t.IsFree(fat[c])
    ensures FreeCount(t, fat, lo, hi) == 0
  {
    if lo < hi {
      NoneFree(t, fat, lo, hi - 1);
    }
  }

  /** How many of the first n entries are zero, top bits included. */
  function ZeroCount(fat: seq<nat>, n: nat): nat
    requires n <= |fat|
  {
    if n == 0 then 0 else ZeroCount(fat, n - 1) + if fat[n - 1] == 0 then 1 else 0
  }

  lemma ZeroCountMonotone(fat: seq<nat>, m: nat, n: nat)
    requires m <= n <= |fat|
    ensures ZeroCount(fat, m) <= ZeroCount(fat, n)
  {
  }

  /** The zero count and the allocator's free count differ exactly when some free 32-bit
      entry carries reserved top bits. */
  lemma {:induction false} ZeroCountIsFreeCount(t: FatType, fat: seq<nat>, n: nat)
    requires n <= |fat|
    ensures ZeroCount(fat, n) <= FreeCount(t, fat, 0, n)
    ensures ZeroCount(fat, n) == FreeCount(t, fat, 0, n)
       <==> forall c :: 0 <= c < n && t.IsFree(fat[c]) ==> fat[c] == 0
  {
    if n > 0 {
      ZeroCountIsFreeCount(t, fat, n - 1);
    }
  }
}
