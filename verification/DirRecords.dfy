/** The 32-byte directory records, and long names split over 13-character records. */
module DirRecords {

  import opened Words

  const ENTRY_SIZE := 32
  const LFN_CHARS := 13       // MAX_LFN_ENTRY_LENGTH
  const LFN_ROWS := 20        // MAX_LONGFILENAME_ENTRIES
  const DELETED: byte := 0xE5 // FILE_HEADER_DELETED
  const BLANK: byte := 0x00   // FILE_HEADER_BLANK

  type Record = r: seq<byte> | |r| == ENTRY_SIZE witness seq(ENTRY_SIZE, _ => 0)

  type ShortName = s: seq<byte> | |s| == 11 witness seq(11, _ => 0x20)

  function Attr(r: Record): byte { r[11] }

  function Name(r: Record): ShortName { r[..11] }

  function Size(r: Record): nat { Get32(r, 28) }

  function FirstCluster(r: Record): nat { Get16(r, 20) * 0x1_0000 + Get16(r, 26) }

  /** fatfs_entry_lfn_text: all four low attribute bits are set. */
  predicate IsLfnText(r: Record) { Attr(r) % 16 == 0x0F }

  /** fatfs_entry_lfn_invalid: blank, deleted, a volume label, hidden or system. */
  predicate IsInvalid(r: Record) {
    r[0] == BLANK || r[0] == DELETED || Attr(r) == 0x08 || Attr(r) / 2 % 4 != 0
  }

  /** fatfs_entry_sfn_only */
  predicate IsLive(r: Record) {
    Attr(r) != 0x0F && r[0] != BLANK && r[0] != DELETED && Attr(r) != 0x08 && Attr(r) / 2 % 4 == 0
  }

  /** The three tests the directory scans make in turn leave no record over. */
  lemma LiveOrNot(r: Record)
    ensures IsLive(r) <==> !IsLfnText(r) && !IsInvalid(r)
  {
  }

  predicate IsFile(r: Record) { Attr(r) / 0x20 % 2 == 1 }

  /** The attribute, then zeros and dates in January 1980. */
  function FixedFields(dir: bool): (r: seq<byte>)
    ensures |r| == ENTRY_SIZE - 11 && r[0] == if dir then 0x10 else 0x20
  {
    [if dir then 0x10 else 0x20, 0, 0, 0, 0, 0x20, 0, 0x20, 0, 0, 0, 0, 0, 0x20, 0, 0, 0, 0, 0, 0, 0]
  }

  /** fatfs_sfn_create_entry: the name, attribute and fixed dates, then the first cluster in
      two halves and the size. */
  function SfnRecord(shortName: ShortName, size: word32, start: word32, dir: bool): Record {
    Put32(Put16(Put16(shortName + FixedFields(dir), 20, start / 0x1_0000), 26, start % 0x1_0000), 28, size)
  }

  lemma SfnRecordFields(shortName: ShortName, size: word32, start: word32, dir: bool)
    ensures var r := SfnRecord(shortName, size, start, dir);
            && Name(r) == shortName && Size(r) == size && FirstCluster(r) == start
            && Attr(r) == if dir then 0x10 else 0x20
  {
    hide Load, Store, Radix, FixedFields;
    Radices();
    var r0 := shortName + FixedFields(dir);
    var r1 := Put16(r0, 20, start / 0x1_0000);
    var r2 := Put16(r1, 26, start % 0x1_0000);
    var r := Put32(r2, 28, size);
    LoadStore(r0, 20, start / 0x1_0000, 2);
    LoadStore(r1, 26, start % 0x1_0000, 2);
    LoadStore(r2, 28, size, 4);
    StoreFrame(r0, 20, start / 0x1_0000, 2);
    StoreFrame(r1, 26, start % 0x1_0000, 2);
    StoreFrame(r2, 28, size, 4);
    LoadSame(r, r1, 20, 2);
    LoadSame(r, r2, 26, 2);
    assert r[..11] == shortName;
  }

  /* ------------------------- Long names ------------------------- */

  /** fatfs_lfn_entries_required */
  function LfnEntries(name: seq<byte>): (n: nat)
    ensures name != [] ==> LFN_CHARS * (n - 1) < |name| <= LFN_CHARS * n
    ensures name == [] <==> n == 0
  {
    (|name| + LFN_CHARS - 1) / LFN_CHARS
  }

  /** The character a long-name record holds for position k: the name, its end mark, padding. */
  function LfnChar(name: seq<byte>, k: nat): byte {
    if k < |name| then name[k] else if k == |name| then 0x00 else 0xFF
  }

  function LfnPad(name: seq<byte>, k: nat): byte {
    if k > |name| then 0xFF else 0x00
  }

  /** Where the i-th character is in a record. */
  function CharPos(i: nat): (p: nat)
    requires i < LFN_CHARS
    ensures p + 1 < ENTRY_SIZE
  {
    if i < 5 then 1 + 2 * i else if i < 11 then 14 + 2 * (i - 5) else 28 + 2 * (i - 11)
  }

  /** Which character is at p; none when negative. */
  function CharAt(p: int): (i: int)
    ensures 0 <= i ==> i < LFN_CHARS && CharPos(i) == p
    ensures forall k :: 0 <= k < LFN_CHARS && CharPos(k) == p ==> i == k
  {
    if 1 <= p <= 9 && p % 2 == 1 then (p - 1) / 2
    else if 14 <= p <= 24 && p % 2 == 0 then 5 + (p - 14) / 2
    else if p == 28 then 11
    else if p == 30 then 12
    else -1
  }

  /** Byte p of a long-name record of which the first n characters have been written: entry
      number, attribute and checksum, characters two bytes each, and zeros. */
  function LfnByte(name: seq<byte>, entry: nat, chk: byte, n: nat, p: nat): byte
    requires entry < LFN_ROWS
  {
    if p == 0 then (if LfnEntries(name) - 1 == entry then 0x40 + entry + 1 else entry + 1)
    else if p == 11 then 0x0F
    else if p == 13 then chk
    else if 0 <= CharAt(p) < n then LfnChar(name, entry * LFN_CHARS + CharAt(p))
    else if 0 <= CharAt(p - 1) < n then LfnPad(name, entry * LFN_CHARS + CharAt(p - 1))
    else 0
  }

  /** The long-name record for one entry of a name. */
  function LfnRecord(name: seq<byte>, entry: nat, chk: byte): Record
    requires entry < LFN_ROWS
  {
    seq(ENTRY_SIZE, p requires 0 <= p < ENTRY_SIZE => LfnByte(name, entry, chk, LFN_CHARS, p))
  }

  /** The records of a name, highest entry first, as they lie in the directory. */
  function LfnRecords(name: seq<byte>, chk: byte, entries: nat): (r: seq<Record>)
    requires entries <= LFN_ROWS
    ensures |r| == entries
  {
    if entries == 0 then [] else [LfnRecord(name, entries - 1, chk)] + LfnRecords(name, chk, entries - 1)
  }

  /** The checksum of a short name kept in its long-name records. */
  function Checksum(s: seq<byte>): byte {
    if s == [] then 0
    else
      var c: int := Checksum(s[..|s| - 1]);
      ((if c % 2 == 1 then 0x80 else 0) + c / 2 + s[|s| - 1]) % 0x100
  }

  /** struct lfn_cache: the twenty String rows and the Null byte behind them, and the number
      of rows in use. */
  datatype LfnCache = LfnCache(text: seq<byte>, rows: nat) {

    predicate Valid() {
      |text| == LFN_ROWS * LFN_CHARS + 1 && rows <= LFN_ROWS
    }

    /** fatfs_lfn_cache_init without wiping the text. */
    function Reset(): LfnCache {
      LfnCache(text, 0)
    }

    /** fatfs_lfn_cache_entry */
    function Add(r: Record): (c: LfnCache)
      requires Valid()
      ensures c.Valid()
    {
      var index := r[0] % 0x20;
      if index > LFN_ROWS || index == 0 then this
      else LfnCache(text[..LFN_CHARS * (index - 1)] + Row(r) + text[LFN_CHARS * index..], if rows == 0 then index
                    else rows)
    }

    /** The text fatfs_lfn_cache_get leaves behind: ended after the rows in use. */
    function Ended(): (c: LfnCache)
      requires Valid()
      ensures c.Valid()
    {
      LfnCache(text[LFN_CHARS * rows := 0], rows)
    }

    /** The long name it returns. */
    function LongName(): seq<byte>
      requires Valid()
    {
      CString(text[..LFN_CHARS * rows])
    }
  }

  /** The wiped cache a lookup starts with. */
  const EMPTY_CACHE := LfnCache(Zeros(LFN_ROWS * LFN_CHARS + 1), 0)

  /** The thirteen characters of a record, padding turned into spaces. */
  function Row(r: Record): (row: seq<byte>)
    ensures |row| == LFN_CHARS
    ensures forall i :: 0 <= i < LFN_CHARS ==> row[i] == Spaced(r[CharPos(i)])
  {
    seq(LFN_CHARS, i requires 0 <= i < LFN_CHARS => Spaced(r[CharPos(i)]))
  }

  function Spaced(b: byte): byte {
    if b == 0xFF then 0x20 else b
  }

  /** The bytes up to the first zero. */
  function CString(s: seq<byte>): (r: seq<byte>)
    ensures |r| <= |s|
    ensures 0 !in r
  {
    if s == [] || s[0] == 0 then [] else [s[0]] + CString(s[1..])
  }

  function AddAll(cache: LfnCache, records: seq<Record>): (c: LfnCache)
    requires cache.Valid()
    ensures c.Valid()
    decreases records
  {
    if records == [] then cache else AddAll(cache.Add(records[0]), records[1..])
  }

  lemma {:induction false} CStringUpTo(name: seq<byte>, s: seq<byte>)
    requires name <= s && 0 !in name
    requires |s| == |name| || s[|name|] == 0
    ensures CString(s) == name
  {
    if name != [] {
      assert name[0] in name;
      CStringUpTo(name[1..], s[1..]);
    }
  }

  /** What the text holds at position k once the record with that position has been added. */
  function Expected(name: seq<byte>, k: nat): byte {
    Spaced(LfnChar(name, k))
  }

  lemma LfnRecordHead(name: seq<byte>, entry: nat, chk: byte)
    requires entry < LFN_ROWS
    ensures LfnRecord(name, entry, chk)[0] % 0x20 == entry + 1
    ensures IsLfnText(LfnRecord(name, entry, chk))
  {
  }

  lemma LfnRecordRow(name: seq<byte>, entry: nat, chk: byte)
    requires entry < LFN_ROWS
    ensures forall i :: 0 <= i < LFN_CHARS ==>
            Row(LfnRecord(name, entry, chk))[i] == Expected(name, entry * LFN_CHARS + i)
  {
    hide LfnEntries, LfnChar, LfnPad, Spaced;
    var r := LfnRecord(name, entry, chk);
    forall i | 0 <= i < LFN_CHARS
      ensures Row(r)[i] == Expected(name, entry * LFN_CHARS + i)
    {
      assert CharAt(CharPos(i)) == i && CharPos(i) != 11 && CharPos(i) != 13;
    }
  }

  /** Every position from `from` up to the end of row k is as the name has it. */
  ghost predicate Filled(text: seq<byte>, name: seq<byte>, from: nat, k: nat)
    requires LFN_CHARS * k <= |text|
  {
    forall j :: LFN_CHARS * from <= j < LFN_CHARS * k ==> text[j] == Expected(name, j)
  }

  lemma AddLfnRecord(cache: LfnCache, name: seq<byte>, chk: byte, entry: nat, k: nat)
    requires cache.Valid() && entry < k <= LFN_ROWS
    requires Filled(cache.text, name, entry + 1, k)
    ensures var c := cache.Add(LfnRecord(name, entry, chk));
            && c.rows == (if cache.rows == 0 then entry + 1 else cache.rows)
            && Filled(c.text, name, entry, k)
  {
    LfnRecordHead(name, entry, chk);
    LfnRecordRow(name, entry, chk);
    hide LfnRecord, Row, Expected, LfnEntries;
  }

  lemma AddAllFirst(cache: LfnCache, name: seq<byte>, chk: byte, entries: nat)
    requires cache.Valid() && entries <= LFN_ROWS
    ensures entries == 0 ==> AddAll(cache, LfnRecords(name, chk, entries)) == cache
    ensures entries > 0 ==>
              var cache' := cache.Add(LfnRecord(name, entries - 1, chk));
              AddAll(cache, LfnRecords(name, chk, entries)) == AddAll(cache', LfnRecords(name, chk, entries - 1))
  {
    if entries == 0 {
      return;
    }
    hide LfnCache.Add, LfnRecord;
    var r := LfnRecord(name, entries - 1, chk);
    assert ([r] + LfnRecords(name, chk, entries - 1))[1..] == LfnRecords(name, chk, entries - 1);
  }

  /** Feeding the records of a name, highest first, fills the rows of the name. */
  lemma {:induction false} AddAllLfnRecords(cache: LfnCache, name: seq<byte>, chk: byte, entries: nat, k: nat)
    requires cache.Valid() && entries <= k <= LFN_ROWS
    requires cache.rows == if entries == k then 0 else k
    requires Filled(cache.text, name, entries, k)
    ensures var c := AddAll(cache, LfnRecords(name, chk, entries));
            c.rows == k && Filled(c.text, name, 0, k)
    decreases entries
  {
    hide Filled, LfnCache.Add, LfnRecord, LfnRecords, AddAll;
    AddAllFirst(cache, name, chk, entries);
    if entries > 0 {
      AddLfnRecord(cache, name, chk, entries - 1, k);
      AddAllLfnRecords(cache.Add(LfnRecord(name, entries - 1, chk)), name, chk, entries - 1, k);
    }
  }

  function SpacedAll(s: seq<byte>): (r: seq<byte>)
    ensures |r| == |s|
    ensures forall i :: 0 <= i < |s| ==> r[i] == Spaced(s[i])
  {
    seq(|s|, i requires 0 <= i < |s| => Spaced(s[i]))
  }

  /** Splitting a name into records and feeding them, highest first, to a long-name cache with
      no rows in use rebuilds exactly that name, whatever old text is in it, if and only if
      the name has no byte that is also the padding. */
  lemma LongNameRoundTrip(cache: LfnCache, name: seq<byte>, chk: byte)
    requires cache.Valid() && cache.rows == 0
    requires 1 <= |name| <= LFN_ROWS * LFN_CHARS && 0x00 !in name
    ensures var c := AddAll(cache, LfnRecords(name, chk, LfnEntries(name)));
            && c.rows == LfnEntries(name)
            && c.LongName() == SpacedAll(name)
            && (c.LongName() == name <==> 0xFF !in name)
  {
    var k := LfnEntries(name);
    AddAllLfnRecords(cache, name, chk, k, k);
    var c := AddAll(cache, LfnRecords(name, chk, k));
    hide LfnEntries, AddAll, LfnRecords;
    CStringUpTo(SpacedAll(name), c.text[..LFN_CHARS * k]);
    if 0xFF in name {
      var i :| 0 <= i < |name| && name[i] == 0xFF;
      assert SpacedAll(name)[i] != name[i];
    } else {
      assert SpacedAll(name) == name;
    }
  }
}
