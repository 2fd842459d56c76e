/** Directory records in bytes: the fields of an entry, the meaning of its attributes, the layout of
    long-name records and their checksum. */
module DirBytes {

  import opened Words
  import opened DirRecords
  import opened DirShort
  import opened DirInsert

  /** A new entry, field by field. */
  lemma EntryBytes(shortName: ShortName, size: word32, start: word32, dir: bool)
    ensures var r := SfnRecord(shortName, size, start, dir);
            && r[..11] == shortName && r[11] == (if dir then 0x10 else 0x20)
            && Two(r, 20) == start / 0x1_0000 && Two(r, 26) == start % 0x1_0000 && Four(r, 28) == size
  {
  }

  /** Its other bytes: the dates are in 1980. */
  lemma EntryDates(shortName: ShortName, size: word32, start: word32, dir: bool, k: nat)
    requires 12 <= k < 20 || 22 <= k < 26
    ensures SfnRecord(shortName, size, start, dir)[k] == if k in {16, 18, 24} then 0x20 else 0
  {
    hide Store;
    var r0 := shortName + FixedFields(dir);
    var r1 := Put16(r0, 20, start / 0x1_0000);
    var r2 := Put16(r1, 26, start % 0x1_0000);
    StoreFrame(r0, 20, start / 0x1_0000, 2);
    StoreFrame(r1, 26, start % 0x1_0000, 2);
    StoreFrame(r2, 28, size, 4);
    assert r0[k] == FixedFields(dir)[k - 11];
  }

  /** What is read from an entry, by its bytes. */
  lemma FieldsRead(r: Record)
    ensures Name(r) == r[..11] && Size(r) == Four(r, 28) && FirstCluster(r) == Two(r, 26) + 0x1_0000 * Two(r, 20)
  {
    WordsAre(r, 20);
    WordsAre(r, 26);
    WordsAre(r, 28);
    hide Two, Four, Get16, Get32;
  }

  /** Sums of bits taken apart. */
  lemma BitsApart(a: nat, b: nat, c: nat, d: nat, e: nat, f: nat, rest: nat)
    requires a <= 1 && b <= 1 && c <= 1 && d <= 1 && e <= 1 && f <= 1
    ensures var v := a + 2 * b + 4 * c + 8 * d + 16 * e + 32 * f + 64 * rest;
            && v % 16 == a + 2 * b + 4 * c + 8 * d && v / 0x20 % 2 == f && v / 2 % 4 == b + 2 * c
  {
    var v := a + 2 * b + 4 * c + 8 * d + 16 * e + 32 * f + 64 * rest;
    QuotientAndRest(v, 16, e + 2 * f + 4 * rest, a + 2 * b + 4 * c + 8 * d);
    assert v / 0x20 == f + 2 * rest;
    assert v / 2 == b + 2 * c + 4 * (d + 2 * e + 4 * f + 8 * rest);
    QuotientAndRest(v / 2, 4, d + 2 * e + 4 * f + 8 * rest, b + 2 * c);
  }

  /** The attribute bits, from the lowest on; an entry with none but the fourth is the volume's name. */
  lemma AttributesMean(r: Record, readOnly: nat, hidden: nat, system: nat, volume: nat, directory: nat, archive: nat,
                       rest: nat)
    requires readOnly <= 1 && hidden <= 1 && system <= 1 && volume <= 1 && directory <= 1 && archive <= 1
    requires r[11] == readOnly + 2 * hidden + 4 * system + 8 * volume + 16 * directory + 32 * archive + 64 * rest
    ensures IsLfnText(r) <==> readOnly == hidden == system == volume == 1
    ensures IsFile(r) <==> archive == 1
    ensures IsLive(r) <==>
              && r[0] != 0x00 && r[0] != 0xE5 && hidden == 0 && system == 0
              && !(volume == 1 && readOnly == directory == archive == rest == 0)
  {
    BitsApart(readOnly, hidden, system, volume, directory, archive, rest);
  }

  /** Marking an entry as deleted, and giving it a new length. */
  lemma EditsInBytes(r: Record, size: word32, k: nat)
    requires k < ENTRY_SIZE
    ensures Deleted(r)[k] == if k == 0 then 0xE5 else r[k]
    ensures Four(WithSize(r, size), 28) == size && (k < 28 ==> WithSize(r, size)[k] == r[k])
  {
    hide Two, Four, Load, Store, Radix;
    SizeStored(r, size);
    StoreFrame(r, 28, size, 4);
  }

  lemma SizeStored(r: Record, size: word32)
    ensures Four(WithSize(r, size), 28) == size
  {
    hide Two, Four, Load, Store, Radix;
    LoadStore(r, 28, size, 4);
    Radices();
    WordsAre(WithSize(r, size), 28);
  }

  /* ----------- long names ----------- */

  /** Where a long-name record has its thirteen characters, two bytes each. */
  function Position(k: nat): nat
    requires k < 13
  {
    [1, 3, 5, 7, 9, 14, 16, 18, 20, 22, 24, 28, 30][k]
  }

  lemma PositionIs(k: nat)
    requires k < 13
    ensures CharPos(k) == Position(k) && CharAt(Position(k)) == k && CharAt(Position(k) + 1) == -1
    ensures Position(k) !in {0, 11, 13} && Position(k) + 1 !in {0, 11, 13} && Position(k) + 1 < ENTRY_SIZE
  {
  }

  /** A long-name record: its number, counted from 1 and marked if it is the last, the attribute,
      the checksum, and its part of the name, ended by a zero and padded with ones. */
  lemma LongRecordBytes(name: seq<byte>, entry: nat, chk: byte, k: nat)
    requires entry < LFN_ROWS && k < 13
    ensures var r, j := LfnRecord(name, entry, chk), 13 * entry + k;
            && r[0] == entry + 1 + (if 13 * entry < |name| <= 13 * (entry + 1) then 0x40 else 0)
            && r[11] == 0x0F && r[12] == 0 && r[13] == chk && r[26] == r[27] == 0
            && r[Position(k)] == (if j < |name| then name[j] else if j == |name| then 0x00 else 0xFF)
            && r[Position(k) + 1] == if j <= |name| then 0x00 else 0xFF
  {
    PositionIs(k);
    hide CharAt, Position;
    var r := LfnRecord(name, entry, chk);
    assert r[Position(k)] == LfnByte(name, entry, chk, LFN_CHARS, Position(k));
    assert r[Position(k) + 1] == LfnByte(name, entry, chk, LFN_CHARS, Position(k) + 1);
    OtherBytes(name, entry, chk);
  }

  lemma OtherBytes(name: seq<byte>, entry: nat, chk: byte)
    requires entry < LFN_ROWS
    ensures var r := LfnRecord(name, entry, chk);
            && r[0] == entry + 1 + (if 13 * entry < |name| <= 13 * (entry + 1) then 0x40 else 0)
            && r[11] == 0x0F && r[12] == 0 && r[13] == chk && r[26] == r[27] == 0
  {
  }

  /** The records of a new name: its parts from the last to the first, each with the checksum of the
      short name, and the entry behind them. */
  lemma NewRecordBytes(name: seq<byte>, shortName: ShortName, size: word32, start: word32, dir: bool, i: nat)
    requires name != [] && LfnEntries(name) <= LFN_ROWS && i < LfnEntries(name)
    ensures var n, records := LfnEntries(name), NewRecords(name, shortName, size, start, dir);
            && |records| == n + 1 && records[n] == SfnRecord(shortName, size, start, dir)
            && records[i] == LfnRecord(name, n - 1 - i, Checksum(shortName))
            && records[i][13] == Checksum(shortName) && records[i][0] == n - i + (if i == 0 then 0x40 else 0)
  {
    hide Checksum, SfnRecord, LfnRecord, LfnEntries;
    var n := LfnEntries(name);
    LongRecordsAt(name, Checksum(shortName), n, i);
    OtherBytes(name, n - 1 - i, Checksum(shortName));
  }

  lemma {:induction false} LongRecordsAt(name: seq<byte>, chk: byte, entries: nat, i: nat)
    requires i < entries <= LFN_ROWS
    ensures LfnRecords(name, chk, entries)[i] == LfnRecord(name, entries - 1 - i, chk)
  {
    hide LfnRecord;
    if i > 0 {
      LongRecordsAt(name, chk, entries - 1, i - 1);
    }
  }

  /** And what is read back from one: a padding byte becomes a space. */
  lemma RowRead(r: Record, k: nat)
    requires k < 13
    ensures Row(r)[k] == if r[Position(k)] == 0xFF then 0x20 else r[Position(k)]
  {
    PositionIs(k);
    hide Position, CharPos;
  }

  /* ----------- the checksum ----------- */

  /** Each byte is added to the sum of those before it with its bits moved to the right, the
      lowest becoming the highest. */
  lemma ChecksumRotates(s: seq<byte>, b: byte, b0: nat, b1: nat, b2: nat, b3: nat, b4: nat, b5: nat, b6: nat, b7: nat)
    requires b0 <= 1 && b1 <= 1 && b2 <= 1 && b3 <= 1 && b4 <= 1 && b5 <= 1 && b6 <= 1 && b7 <= 1
    requires Checksum(s) == b0 + 2 * b1 + 4 * b2 + 8 * b3 + 16 * b4 + 32 * b5 + 64 * b6 + 128 * b7
    ensures Checksum(s + [b]) ==
            (b1 + 2 * b2 + 4 * b3 + 8 * b4 + 16 * b5 + 32 * b6 + 64 * b7 + 128 * b0 + b) % 0x100
  {
    assert (s + [b])[..|s|] == s;
  }

  lemma ChecksumNext(s: seq<byte>, k: nat, c: int, next: int)
    requires k < |s| && Checksum(s[..k]) == c
    requires next == ((if c % 2 == 1 then 0x80 else 0) + c / 2 + s[k]) % 0x100
    ensures Checksum(s[..k + 1]) == next
  {
    assert s[..k + 1][..k] == s[..k];
  }

  lemma ChecksumOfNothing(s: seq<byte>)
    ensures Checksum(s[..0]) == 0
  {
  }

  /** The checksum of README.TXT. */
  lemma KnownChecksum(s: seq<byte>)
    requires s == [0x52, 0x45, 0x41, 0x44, 0x4D, 0x45, 0x20, 0x20, 0x54, 0x58, 0x54]
    ensures Checksum(s) == 0x73
  {
    hide Checksum;
    ChecksumOfNothing(s);
    assert s[..11] == s;
    ChecksumNext(s, 0, 0x00, 0x52);
    ChecksumNext(s, 1, 0x52, 0x6E);
    ChecksumNext(s, 2, 0x6E, 0x78);
    ChecksumNext(s, 3, 0x78, 0x80);
    ChecksumNext(s, 4, 0x80, 0x8D);
    ChecksumNext(s, 5, 0x8D, 0x0B);
    ChecksumNext(s, 6, 0x0B, 0xA5);
    ChecksumNext(s, 7, 0xA5, 0xF2);
    ChecksumNext(s, 8, 0xF2, 0xCD);
    ChecksumNext(s, 9, 0xCD, 0x3E);
    ChecksumNext(s, 10, 0x3E, 0x73);
  }
}
