/** The loops of fat_misc.c that write a long-name record and read one back. */
module LfnBuffers {

  import opened Words
  import opened DirRecords

  /** Writing character n of the name, or its end mark or padding. */
  lemma NextChar(name: seq<byte>, entry: nat, chk: byte, n: nat, buffer: Record, buffer': Record)
    requires entry < LFN_ROWS && n < LFN_CHARS
    requires forall p :: 0 <= p < ENTRY_SIZE ==> buffer[p] == LfnByte(name, entry, chk, n, p)
    requires forall p :: 0 <= p < ENTRY_SIZE && p != CharPos(n) && p != CharPos(n) + 1 ==> buffer'[p] == buffer[p]
    requires buffer'[CharPos(n)] == LfnChar(name, entry * LFN_CHARS + n)
    requires buffer'[CharPos(n) + 1] == if entry * LFN_CHARS + n > |name| then 0xFF else buffer[CharPos(n) + 1]
    ensures forall p :: 0 <= p < ENTRY_SIZE ==> buffer'[p] == LfnByte(name, entry, chk, n + 1, p)
  {
    hide LfnChar, LfnEntries;
    var c := CharPos(n);
    assert CharAt(c) == n && CharAt(c + 1) < 0 && c != 11 && c != 13 && c + 1 != 11 && c + 1 != 13;
    forall p | 0 <= p < ENTRY_SIZE && p != c && p != c + 1
      ensures LfnByte(name, entry, chk, n + 1, p) == LfnByte(name, entry, chk, n, p)
    {
      assert CharAt(p) != n && CharAt(p - 1) != n;
    }
  }

  lemma Started(name: seq<byte>, entry: nat, chk: byte, buffer: Record)
    requires entry < LFN_ROWS
    requires forall p :: 0 <= p < ENTRY_SIZE && p != 0 && p != 11 && p != 13 ==> buffer[p] == 0
    requires buffer[0] == (if LfnEntries(name) - 1 == entry then 0x40 + entry + 1 else entry + 1)
    requires buffer[11] == 0x0F && buffer[13] == chk
    ensures forall p :: 0 <= p < ENTRY_SIZE ==> buffer[p] == LfnByte(name, entry, chk, 0, p)
  {
    hide LfnEntries, CharAt;
  }

  /** fatfs_filename_to_lfn */
  method FilenameToLfn(filename: seq<byte>, entry: nat, sfnChk: byte) returns (buffer: Record)
    requires entry < LFN_ROWS
    ensures buffer == LfnRecord(filename, entry, sfnChk)
  {
    hide LfnByte, CharAt, LfnEntries;
    var length := |filename|;
    var entriesRequired: int := LfnEntries(filename);
    var start := entry * LFN_CHARS;
    buffer := Zeros(ENTRY_SIZE);
    buffer := buffer[0 := if entriesRequired - 1 == entry then 0x40 + entry + 1 else entry + 1];
    buffer := buffer[11 := 0x0F];
    buffer := buffer[13 := sfnChk];
    Started(filename, entry, sfnChk, buffer);
    var i := 0;
    while i < LFN_CHARS
      invariant 0 <= i <= LFN_CHARS
      invariant forall p :: 0 <= p < ENTRY_SIZE ==> buffer[p] == LfnByte(filename, entry, sfnChk, i, p)
    {
      ghost var before := buffer;
      var at := CharPos(i);
      if start + i < length {
        buffer := buffer[at := filename[start + i]];
      } else if start + i == length {
        buffer := buffer[at := 0x00];
      } else {
        buffer := buffer[at := 0xFF];
        buffer := buffer[at + 1 := 0xFF];
      }
      NextChar(filename, entry, sfnChk, i, before, buffer);
      i := i + 1;
    }
  }

  /** fatfs_lfn_cache_entry */
  method CacheEntry(lfn: LfnCache, entryBuffer: Record) returns (lfn': LfnCache)
    requires lfn.Valid()
    ensures lfn' == lfn.Add(entryBuffer)
  {
    var index := entryBuffer[0] % 0x20;
    if index > LFN_ROWS {
      return lfn;
    }
    if index == 0 {
      return lfn;
    }
    var rows := if lfn.rows == 0 then index else lfn.rows;
    var row := seq(LFN_CHARS, i requires 0 <= i < LFN_CHARS => entryBuffer[CharPos(i)]);
    var i := 0;
    while i < LFN_CHARS
      invariant 0 <= i <= LFN_CHARS == |row|
      invariant forall k :: 0 <= k < i ==> row[k] == Spaced(entryBuffer[CharPos(k)])
      invariant forall k :: i <= k < LFN_CHARS ==> row[k] == entryBuffer[CharPos(k)]
    {
      if row[i] == 0xFF {
        row := row[i := 0x20];
      }
      i := i + 1;
    }
    assert row == Row(entryBuffer);
    lfn' := LfnCache(lfn.text[..LFN_CHARS * (index - 1)] + row + lfn.text[LFN_CHARS * index..], rows);
  }
}
