/** What the write-back list of FAT-sector buffers keeps: the shape of the list, and the
    agreement of buffers, medium and logical FAT. */
module FatBuffers {

  import opened Words
  import opened Geometry

  /** What a FAT buffer holds. */
  datatype Slot = Slot(sector: Sector, address: word32, dirty: bool) {

    /** Is this sector the one in the buffer?  The end of the covered range wraps to zero
        for an invalid address, so an invalid buffer covers nothing. */
    predicate Covers(lba: nat)
      ensures Covers(lba) <==> lba == address != LAST
    {
      lba >= address && lba < (address + 1) % WORD32
    }
  }

  const NULL: int := -1

  /** A sector that no buffer of the list covers is in no buffer. */
  lemma NoneCovers(slots: seq<Slot>, head: int, next: seq<int>, order: seq<nat>, lba: nat)
    requires Linked(head, next, order) && |slots| == |next| && lba < LAST
    requires forall j :: 0 <= j < |order| ==> order[j] < |slots| && !slots[order[j]].Covers(lba)
    ensures forall b :: 0 <= b < |slots| ==> slots[b].address != lba
  {
    forall b | 0 <= b < |slots| ensures slots[b].address != lba {
      assert b in order;
    }
  }

  /** Starting at `head` and following `next`, the list visits the buffers in this order,
      each of them exactly once. */
  ghost predicate Linked(head: int, next: seq<int>, order: seq<nat>) {
    && |order| == |next| >= 1
    && head == order[0]
    && (forall i :: 0 <= i < |order| ==> order[i] < |next|)
    && (forall i, j :: 0 <= i < j < |order| ==> order[i] != order[j])
    && (forall b :: 0 <= b < |next| ==> b in order)
    && (forall i :: 0 <= i < |order| - 1 ==> next[order[i]] == order[i + 1])
    && next[order[|order| - 1]] == NULL
  }

  lemma MoveToFront(head: int, next: seq<int>, order: seq<nat>)
    requires Linked(head, next, order)
    ensures var n := |order|;
            var last := order[n - 1];
            Linked(last,
                   if n == 1 then next[last := NULL] else next[order[n - 2] := NULL][last := head],
                   [last] + order[..n - 1])
  {
    var last := order[|order| - 1];
    var order' := [last] + order[..|order| - 1];
    forall b | 0 <= b < |next| ensures b in order' {
      assert b in order;
      var i :| 0 <= i < |order| && order[i] == b;
      assert b == order'[if i == |order| - 1 then 0 else i + 1];
    }
  }

  ghost predicate Buffered(slots: seq<Slot>, lba: nat) {
    exists b :: 0 <= b < |slots| && slots[b].address == lba
  }

  ghost predicate HoldsDirty(slots: seq<Slot>, lba: nat) {
    exists b :: 0 <= b < |slots| && slots[b].dirty && slots[b].address == lba
  }

  /** Every sector is in at most one buffer; buffers agree with the logical FAT; a FAT sector
      with no dirty buffer agrees with it on the medium too.  One sector outside the FAT may
      be in a buffer for the moment, clean. */
  ghost predicate Coherent(g: Mounted, sectors: seq<Sector>, slots: seq<Slot>, view: seq<Sector>, extra: nat) {
    && |view| == g.fatSectors
    && |sectors| == g.total
    && (forall b :: 0 <= b < |slots| && slots[b].dirty ==> g.InFat(slots[b].address))
    && (forall b :: 0 <= b < |slots| && g.InFat(slots[b].address) ==>
        slots[b].sector == view[slots[b].address - g.fatBegin])
    && (forall b :: 0 <= b < |slots| && slots[b].address != LAST && !g.InFat(slots[b].address) ==>
          slots[b].address == extra < |sectors| && slots[b].sector == sectors[extra])
    && (forall b, c :: 0 <= b < c < |slots| && slots[b].address == slots[c].address ==> slots[b].address == LAST)
    && (forall i {:trigger view[i]} :: 0 <= i < |view| ==>
          sectors[g.fatBegin + i] == view[i] || HoldsDirty(slots, g.fatBegin + i))
  }

  /** The logical content of a FAT sector: the buffer that holds it if there is one, else the medium. */
  lemma ViewIsBufferElseMedium(g: Mounted, sectors: seq<Sector>, slots: seq<Slot>, view: seq<Sector>, extra: nat,
                               i: nat)
    requires Coherent(g, sectors, slots, view, extra) && i < |view|
    ensures forall b :: 0 <= b < |slots| && slots[b].address == g.fatBegin + i ==> view[i] == slots[b].sector
    ensures (forall b :: 0 <= b < |slots| ==> slots[b].address != g.fatBegin + i) ==> view[i] == sectors[g.fatBegin + i]
  {
  }

  /** With no sector outside the FAT in a buffer, any sector may be the next one. */
  lemma CoherentWithAny(g: Mounted, sectors: seq<Sector>, slots: seq<Slot>, view: seq<Sector>, extra: nat)
    requires Coherent(g, sectors, slots, view, LAST)
    ensures Coherent(g, sectors, slots, view, extra)
  {
  }

  lemma DirtyKept(slots: seq<Slot>, b: nat, slot: Slot, lba: nat)
    requires b < |slots| && HoldsDirty(slots, lba)
    requires slots[b].dirty && slots[b].address == lba ==> slot.dirty && slot.address == lba
    ensures HoldsDirty(slots[b := slot], lba)
  {
    var c :| 0 <= c < |slots| && slots[c].dirty && slots[c].address == lba;
    assert slots[b := slot][c].dirty && slots[b := slot][c].address == lba;
  }

  lemma CleanOne(g: Mounted, sectors: seq<Sector>, slots: seq<Slot>, view: seq<Sector>, b: nat)
    requires Coherent(g, sectors, slots, view, LAST)
    requires b < |slots| && slots[b].dirty
    ensures slots[b].address < |sectors|
    ensures Coherent(g, sectors[slots[b].address := slots[b].sector], slots[b := slots[b].(dirty := false)], view, LAST)
  {
    forall l | l != slots[b].address && HoldsDirty(slots, l)
      ensures HoldsDirty(slots[b := slots[b].(dirty := false)], l)
    {
      DirtyKept(slots, b, slots[b].(dirty := false), l);
    }
  }

  /** A failed write-back may spoil the sector on the medium, but the buffer still has it. */
  lemma SpoiltWrite(g: Mounted, sectors: seq<Sector>, sectors': seq<Sector>, slots: seq<Slot>, view: seq<Sector>,
                    b: nat)
    requires Coherent(g, sectors, slots, view, LAST)
    requires b < |slots| && slots[b].dirty
    requires |sectors'| == |sectors|
    requires forall l :: 0 <= l < |sectors| && l != slots[b].address ==> sectors'[l] == sectors[l]
    ensures Coherent(g, sectors', slots, view, LAST)
  {
    forall i | 0 <= i < |view|
      ensures sectors'[g.fatBegin + i] == view[i] || HoldsDirty(slots, g.fatBegin + i)
    {
      assert g.fatBegin + i != slots[b].address ==> sectors'[g.fatBegin + i] == sectors[g.fatBegin + i];
    }
  }

  /** A clean buffer can be dropped or refilled with a sector no other buffer holds. */
  lemma Refill(g: Mounted, sectors: seq<Sector>, slots: seq<Slot>, view: seq<Sector>, b: nat, slot: Slot)
    requires Coherent(g, sectors, slots, view, LAST)
    requires b < |slots| && !slots[b].dirty && !slot.dirty
    requires slot.address == LAST || (slot.address < |sectors| && slot.sector == sectors[slot.address])
    requires forall c :: 0 <= c < |slots| && slots[c].address != LAST ==> slots[c].address != slot.address
    ensures Coherent(g, sectors, slots[b := slot], view, slot.address)
  {
    forall l | HoldsDirty(slots, l)
      ensures HoldsDirty(slots[b := slot], l)
    {
      DirtyKept(slots, b, slot, l);
    }
    if g.InFat(slot.address) {
      assert !HoldsDirty(slots, slot.address);
      assert view[slot.address - g.fatBegin] == sectors[slot.address];
    }
  }

  /** Once the extra sector is a FAT sector, it is not extra. */
  lemma CoherentInFat(g: Mounted, sectors: seq<Sector>, slots: seq<Slot>, view: seq<Sector>, extra: nat)
    requires Coherent(g, sectors, slots, view, extra) && g.InFat(extra)
    ensures Coherent(g, sectors, slots, view, LAST)
  {
  }

  /** Changing a FAT sector in its buffer, and marking the buffer dirty, changes the logical FAT. */
  lemma EditBuffer(g: Mounted, sectors: seq<Sector>, slots: seq<Slot>, view: seq<Sector>, b: nat, i: nat,
                   sector: Sector)
    requires Coherent(g, sectors, slots, view, LAST)
    requires b < |slots| && i < |view| && slots[b].address == g.fatBegin + i
    ensures Coherent(g, sectors, slots[b := Slot(sector, slots[b].address, true)], view[i := sector], LAST)
  {
    hide HoldsDirty;
    var slot := Slot(sector, slots[b].address, true);
    var slots', view' := slots[b := slot], view[i := sector];
    DirtiedKeeps(slots, b, slot);
    forall k {:trigger view'[k]} | 0 <= k < |view'|
      ensures sectors[g.fatBegin + k] == view'[k] || HoldsDirty(slots', g.fatBegin + k)
    {
      assert k != i ==> view'[k] == view[k];
    }
  }

  lemma DirtiedKeeps(slots: seq<Slot>, b: nat, slot: Slot)
    requires b < |slots| && slot.dirty && slot.address == slots[b].address
    ensures forall l :: HoldsDirty(slots, l) ==> HoldsDirty(slots[b := slot], l)
    ensures HoldsDirty(slots[b := slot], slot.address)
  {
    assert slots[b := slot][b] == slot;
    forall l | HoldsDirty(slots, l)
      ensures HoldsDirty(slots[b := slot], l)
    {
      DirtyKept(slots, b, slot, l);
    }
  }

  /** With no dirty buffer left, the FAT on the medium is the logical FAT. */
  lemma AllCleanMeansFlushed(g: Mounted, sectors: seq<Sector>, slots: seq<Slot>, view: seq<Sector>)
    requires Coherent(g, sectors, slots, view, LAST)
    requires forall b :: 0 <= b < |slots| ==> !slots[b].dirty
    ensures sectors[g.fatBegin..g.fatBegin + g.fatSectors] == view
  {
    forall i | 0 <= i < |view| ensures sectors[g.fatBegin + i] == view[i] {
      assert view[i] == view[i];
    }
  }

  /** A buffer holding a sector outside the FAT may be dropped. */
  lemma DropExtra(g: Mounted, sectors: seq<Sector>, slots: seq<Slot>, view: seq<Sector>, extra: nat, b: nat, slot: Slot)
    requires Coherent(g, sectors, slots, view, extra) && !g.InFat(extra)
    requires b < |slots| && slots[b].address == extra != LAST
    requires slot.address == LAST && !slot.dirty
    ensures Coherent(g, sectors, slots[b := slot], view, LAST)
  {
    CleanDropKeeps(slots, b, slot);
    hide HoldsDirty;
  }

  lemma CleanDropKeeps(slots: seq<Slot>, b: nat, slot: Slot)
    requires b < |slots| && !slots[b].dirty
    ensures forall l :: HoldsDirty(slots, l) ==> HoldsDirty(slots[b := slot], l)
  {
    forall l | HoldsDirty(slots, l)
      ensures HoldsDirty(slots[b := slot], l)
    {
      DirtyKept(slots, b, slot, l);
    }
  }

  /** Nothing outside the FAT matters to the FAT buffers. */
  lemma WriteOutsideFat(g: Mounted, sectors: seq<Sector>, sectors': seq<Sector>, slots: seq<Slot>, view: seq<Sector>)
    requires Coherent(g, sectors, slots, view, LAST)
    requires |sectors'| == |sectors|
    requires forall l :: 0 <= l < |sectors| && g.InFat(l) ==> sectors'[l] == sectors[l]
    ensures Coherent(g, sectors', slots, view, LAST)
  {
    forall i | 0 <= i < |view|
      ensures sectors'[g.fatBegin + i] == view[i] || HoldsDirty(slots, g.fatBegin + i)
    {
      assert sectors'[g.fatBegin + i] == sectors[g.fatBegin + i];
    }
  }
}
