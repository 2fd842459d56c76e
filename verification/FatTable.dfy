/** The write-back list of FAT-sector buffers and the operations on FAT entries built on it. */
module FatTable {

  import opened Words
  import opened BlockDevice
  import opened FatEntries
  import opened Geometry
  import opened FatBuffers

  /** The mounted file system: its geometry, its medium, and its buffers. */
  class Fatfs {
    const g: Mounted
    const media: Media
    var slots: seq<Slot>     // fat_buffers[]
    var next: seq<int>       // the next field of each, as an index
    var head: int            // fat_buffer_head, as an index
    var curAddress: nat      // currentsector.address
    var curSector: Sector    // currentsector.sector
    var nextFree: nat        // next_free_cluster

    ghost var order: seq<nat>    // the buffers in list order, newest first
    ghost var view: seq<Sector>  // the logical FAT sectors
    ghost var fat: seq<nat>      // the logical FAT entries

    /** The state fatfs_init leaves: no sector loaded, and `buffers` empty buffers. */
    constructor (g: Mounted, media: Media, buffers: nat)
      requires |media.sectors| == g.total
      requires buffers >= 1
      ensures this.g == g && this.media == media && |slots| == buffers
      ensures Valid() && curAddress == LAST && nextFree == 0
      ensures view == media.sectors[g.fatBegin..g.fatBegin + g.fatSectors]
    {
      this.g := g;
      this.media := media;
      slots := seq(buffers, _ => Slot(Zeros(SECTOR_SIZE), LAST, false));
      next := seq(buffers, i => i - 1);
      head := buffers - 1;
      order := seq(buffers, i requires 0 <= i < buffers => buffers - 1 - i);
      curAddress := LAST;
      curSector := Zeros(SECTOR_SIZE);
      nextFree := 0;
      view := media.sectors[g.fatBegin..g.fatBegin + g.fatSectors];
      fat := Decode(g.fatType, media.sectors[g.fatBegin..g.fatBegin + g.fatSectors]);
      new;
      forall b | 0 <= b < buffers ensures b in order {
        assert order[buffers - 1 - b] == b;
      }
    }

    ghost predicate ValidWith(extra: nat)
      reads this`slots, this`next, this`head, this`order, this`view, media`sectors
    {
      && |slots| == |next|
      && Linked(head, next, order)
      && Coherent(g, media.sectors, slots, view, extra)
    }

    ghost predicate Valid()
      reads this`slots, this`next, this`head, this`order, this`view, this`fat, media`sectors
    {
      && ValidWith(LAST)
      && fat == Decode(g.fatType, view)
      && |fat| == g.Entries()
      && |media.sectors| == g.total
    }

    /** The FAT on the medium is the logical one. */
    ghost predicate Purged()
      reads this`view, media`sectors
    {
      |media.sectors| == g.total && media.sectors[g.fatBegin..g.fatBegin + g.fatSectors] == view
    }

    /** Nothing outside the FAT has changed on the medium. */
    twostate predicate OutsideFatUnchanged()
      reads this, media
    {
      && |media.sectors| == |old(media.sectors)|
      && forall l :: 0 <= l < |media.sectors| && !g.InFat(l) ==> media.sectors[l] == old(media.sectors)[l]
    }

    /** Search the list for a buffer holding the sector.  If there is none, take the last
        buffer out and put it in front. */
    method Locate(lba: nat) returns (hit: bool, buf: nat)
      requires |slots| == |next| && Linked(head, next, order) && lba < LAST
      modifies this`head, this`next, this`order
      ensures |slots| == |next| && Linked(head, next, order)
      ensures buf < |slots|
      ensures hit ==> slots[buf].address == lba && order == old(order)
      ensures !hit ==> order == [buf] + old(order)[..|order| - 1] && buf == old(order)[|order| - 1]
      ensures !hit ==> forall b :: 0 <= b < |slots| ==> slots[b].address != lba
    {
      var last := NULL;
      var pcur := head;
      ghost var i := 0;
      while pcur != NULL && !slots[pcur].Covers(lba)
        invariant 0 <= i <= |order| == |next|
        invariant order == old(order)
        invariant i < |order| ==> pcur == order[i] && head == old(head) && next == old(next)
        invariant last == if i == 0 then NULL else order[i - 1]
        invariant forall j :: 0 <= j < i ==> !slots[order[j]].Covers(lba)
        invariant i == |order| ==> pcur == NULL
        invariant i == |order| == 1 ==> head == NULL && next == old(next)
        invariant i == |order| > 1 ==> head == old(head) && next == old(next)[order[i - 2] := NULL]
        decreases |order| - i
      {
        var after := next[pcur];
        if next[pcur] == NULL {
          if last != NULL {
            next := next[last := NULL];
          } else {
            head := NULL;
          }
        }
        last := pcur;
        pcur := after;
        i := i + 1;
      }
      if pcur != NULL {
        return true, pcur;
      }
      NoneCovers(slots, old(head), old(next), order, lba);
      MoveToFront(old(head), old(next), order);
      hide Linked, Slot.Covers;
      hit, buf := false, last;
      next := next[buf := head];
      head := buf;
      order := [buf] + order[..|order| - 1];
    }

    /** fatfs_fat_writeback.  A dirty buffer always holds a FAT sector, so the limit to the
        sectors of the FAT never shortens the transfer. */
    method Writeback(pcur: nat) returns (ok: bool)
      requires Valid() && pcur < |slots|
      modifies media, this`slots
      ensures Valid() && OutsideFatUnchanged()
      ensures media.Reliable() && old(Purged()) ==> Purged()
      ensures slots == if ok then old(slots)[pcur := old(slots)[pcur].(dirty := false)] else old(slots)
      ensures media.Reliable() ==> ok
    {
      ok := true;
      if slots[pcur].dirty {
        ghost var before := media.sectors;
        ok := media.Write(slots[pcur].address, slots[pcur].sector);
        if ok {
          CleanOne(g, before, slots, view, pcur);
          slots := slots[pcur := slots[pcur].(dirty := false)];
        } else {
          SpoiltWrite(g, before, media.sectors, slots, view, pcur);
        }
      }
    }

    /** Refill a clean buffer with a sector no buffer holds; it becomes invalid if that fails. */
    method Load(pcur: nat, lba: nat) returns (ok: bool)
      requires Valid() && pcur < |slots| && !slots[pcur].dirty
      requires lba < |media.sectors|
      requires forall b :: 0 <= b < |slots| ==> slots[b].address != lba
      modifies media`transfers, this`slots
      ensures ValidWith(if ok then lba else LAST)
      ensures |slots| == old(|slots|) && slots[pcur].address == (if ok then lba else LAST) && !slots[pcur].dirty
      ensures forall b :: 0 <= b < |slots| && b != pcur ==> slots[b] == old(slots)[b]
      ensures media.Reliable() ==> ok
    {
      var data;
      ok, data := media.Read(lba);
      var slot := Slot(data, if ok then lba else LAST, false);
      Refill(g, media.sectors, slots, view, pcur, slot);
      slots := slots[pcur := slot];
    }

    /** fatfs_fat_read_sector: bring a sector into a buffer.  Whatever the medium does, the
        logical FAT does not change and no unwritten change is lost. */
    method ReadSector(lba: nat) returns (buf: int)
      requires Valid()
      requires lba < |media.sectors|
      modifies this`head, this`next, this`order, this`slots, media
      ensures ValidWith(if buf == NULL then LAST else lba) && OutsideFatUnchanged()
      ensures media.Reliable() && old(Purged()) ==> Purged()
      ensures |slots| == old(|slots|)
      ensures buf != NULL ==> 0 <= buf < |slots| && slots[buf].address == lba
      ensures media.Reliable() || old(Buffered(slots, lba)) ==> buf != NULL
    {
      assert lba < LAST;
      hide Linked, Coherent, Decode, Volume.InFat, Purged;
      var hit, pcur := Locate(lba);
      if hit {
        CoherentWithAny(g, media.sectors, slots, view, lba);
        buf := pcur;
      } else {
        var clean := Writeback(pcur);
        buf := NULL;
        if clean {
          var ok := Load(pcur, lba);
          buf := if ok then pcur else NULL;
        }
      }
    }

    /** Every operation below reaches the FAT through its sectors, numbered from fat_begin_lba. */
    method ReadFat(s: nat) returns (buf: int)
      requires Valid() && s < g.fatSectors
      modifies this`head, this`next, this`order, this`slots, media
      ensures Valid() && OutsideFatUnchanged()
      ensures media.Reliable() && old(Purged()) ==> Purged()
      ensures buf != NULL ==> 0 <= buf < |slots| && slots[buf].address == g.fatBegin + s
      ensures buf != NULL ==> s < |view| && slots[buf].sector == view[s]
      ensures media.Reliable() || old(Buffered(slots, g.fatBegin + s)) ==> buf != NULL
    {
      hide Purged;
      buf := ReadSector(g.fatBegin + s);
      if buf != NULL {
        CoherentInFat(g, media.sectors, slots, view, g.fatBegin + s);
      }
    }

    /** fatfs_find_next_cluster.  The caller cannot tell a failed read (not `ok`) from the end
        of the chain. */
    method FindNextCluster(current: nat) returns (nextCluster: nat, ghost ok: bool)
      requires Valid()
      requires current < g.Entries() && 2 < g.Entries()
      modifies this`head, this`next, this`order, this`slots, media
      ensures Valid() && OutsideFatUnchanged()
      ensures media.Reliable() && old(Purged()) ==> Purged()
      ensures var c := if current == 0 then 2 else current;
              ok ==> nextCluster == g.fatType.Next(fat[c]) && Buffered(slots, g.fatBegin + g.fatType.SectorOf(c))
      ensures ok ==>
                var v := EntryBytes(g.fatType, view, if current == 0 then 2 else current);
                nextCluster == if EndsChain(g.fatType, v) then LAST else if g.fatType.Fat16? then v else v % 0x1000_0000
      ensures !ok ==> nextCluster == LAST && !media.Reliable()
    {
      hide Purged;
      var cluster := if current == 0 then 2 else current;
      var offset := g.fatType.SectorOf(cluster);
      var pbuf := ReadFat(offset);
      if pbuf == NULL {
        return LAST, false;
      }
      EntryDecoded(g.fatType, view, cluster);
      EntryMeans(g.fatType, fat[cluster]);
      nextCluster, ok := g.fatType.Next(g.fatType.Get(slots[pbuf].sector, g.fatType.SlotOf(cluster))), true;
    }

    /** fatfs_fat_set_cluster */
    method SetCluster(cluster: nat, nextCluster: nat) returns (ok: bool)
      requires Valid()
      requires cluster < g.Entries()
      modifies this`head, this`next, this`order, this`slots, this`view, this`fat, media
      ensures Valid() && OutsideFatUnchanged()
      ensures fat == if ok then old(fat)[cluster := nextCluster % g.fatType.Range()] else old(fat)
      ensures media.Reliable() || old(Buffered(slots, g.fatBegin + g.fatType.SectorOf(cluster))) ==> ok
    {
      var offset := g.fatType.SectorOf(cluster);
      var pbuf := ReadFat(offset);
      if pbuf == NULL {
        return false;
      }
      var sector := g.fatType.Put(slots[pbuf].sector, g.fatType.SlotOf(cluster), nextCluster);
      EditBuffer(g, media.sectors, slots, view, pbuf, offset, sector);
      DecodePut(g.fatType, view, cluster, nextCluster);
      slots := slots[pbuf := Slot(sector, slots[pbuf].address, true)];
      view := view[offset := sector];
      fat := fat[cluster := nextCluster % g.fatType.Range()];
      ok := true;
    }

    /** Nothing outside the FAT and the FSInfo sector has changed on the medium. */
    twostate predicate OutsideMetaUnchanged()
      reads this, media
    {
      && |media.sectors| == |old(media.sectors)|
      && forall l :: 0 <= l < |media.sectors| && !g.InMeta(l) ==> media.sectors[l] == old(media.sectors)[l]
    }

    /** fatfs_set_fs_info_next_free_cluster: change the hint in the FSInfo sector through a
        FAT buffer, then invalidate that buffer. */
    method SetFsInfoNextFree(newValue: word32)
      requires Valid()
      modifies this`head, this`next, this`order, this`slots, this`nextFree, media
      ensures Valid() && OutsideMetaUnchanged()
      ensures g.fatType.Fat16? ==> nextFree == old(nextFree) && media.sectors == old(media.sectors)
      ensures g.fatType.Fat32? ==>
                nextFree == newValue || (nextFree == old(nextFree) &&
                                         media.sectors[g.FsInfo()] == old(media.sectors[g.FsInfo()]))
      ensures g.fatType.Fat32? && media.Reliable() ==>
                nextFree == newValue && media.sectors[g.FsInfo()] ==
                    Put32(old(media.sectors[g.FsInfo()]), 492, newValue)
    {
      if g.fatType.Fat32? {
        var pbuf := ReadSector(g.FsInfo());
        if pbuf == NULL {
          return;
        }
        ghost var was, before := slots, media.sectors;
        var sector := Put32(slots[pbuf].sector, 492, newValue);
        slots := slots[pbuf := Slot(sector, slots[pbuf].address, true)];
        nextFree := newValue;
        var _ := media.Write(slots[pbuf].address, slots[pbuf].sector);
        slots := slots[pbuf := Slot(sector, LAST, false)];
        assert slots == was[pbuf := slots[pbuf]];
        DropExtra(g, before, was, view, g.FsInfo(), pbuf, slots[pbuf]);
        WriteOutsideFat(g, before, media.sectors, slots, view);
      }
    }

    /** fatfs_find_blank_cluster: first fit, bounded by the sectors of the FAT. */
    method FindBlankCluster(start: nat) returns (found: bool, free: nat)
      requires Valid() && start <= |fat|
      modifies this`head, this`next, this`order, this`slots, media
      ensures Valid() && OutsideFatUnchanged()
      ensures found ==> free < |fat| && free == FirstFree(g.fatType, fat, start)
      ensures media.Reliable() && !found ==> FirstFree(g.fatType, fat, start) == |fat|
    {
      var current, link := start, 1;
      while link != 0
        invariant start <= current <= |fat|
        invariant Valid() && OutsideFatUnchanged()
        invariant FirstFree(g.fatType, fat, start) == FirstFree(g.fatType, fat, current)
        invariant link == 0 ==> current < |fat| && g.fatType.IsFree(fat[current])
        decreases |fat| - current, link
      {
        var offset := g.fatType.SectorOf(current);
        if offset >= g.fatSectors {
          return false, 0;
        }
        var pbuf := ReadFat(offset);
        if pbuf == NULL {
          return false, 0;
        }
        link := g.fatType.Link(g.fatType.Get(slots[pbuf].sector, g.fatType.SlotOf(current)));
        if link != 0 {
          current, link := current + 1, 1;
        }
      }
      found, free := true, current;
    }

    /** A write of one sector outside the FAT, straight to the medium. */
    method WriteOther(lba: nat, data: Sector) returns (ok: bool)
      requires Valid() && !g.InFat(lba)
      modifies media
      ensures Valid() && |media.sectors| == |old(media.sectors)|
      ensures ok ==> lba < |media.sectors| && media.sectors == old(media.sectors)[lba := data]
      ensures media.Reliable() && lba < g.total ==> ok
    {
      ghost var before := media.sectors;
      ok := media.Write(lba, data);
      WriteOutsideFat(g, before, media.sectors, slots, view);
    }
  }
}
