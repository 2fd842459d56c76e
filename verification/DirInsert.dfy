/** Inserting a name into a directory, and what it does to every lookup. */
module DirInsert {

  import opened Words
  import opened DirRecords
  import opened Names
  import opened DirSearch

  /** Deleted or blank: what ends a run of free records. */
  predicate IsUnused(r: Record) {
    !IsLfnText(r) && (r[0] == DELETED || r[0] == BLANK)
  }

  datatype Run = At(start: nat) | Full(start: nat)

  /** The scan of fatfs_find_free_dir_offset: `spaces` records up to i, from `start`, may be
      free.  Long-name text counts as free for the time being; only a deleted or blank record
      settles it. */
  function FreeRun(records: seq<Record>, i: nat, spaces: nat, start: nat, need: nat): Run
    requires i <= |records|
    decreases |records| - i
  {
    if i == |records| then Full(if spaces == 0 then i else start)
    else
      var start' := if spaces == 0 then i else start;
      if IsLfnText(records[i]) then FreeRun(records, i + 1, spaces + 1, start', need)
      else if IsUnused(records[i]) then
        if spaces + 1 >= need then At(start') else FreeRun(records, i + 1, spaces + 1, start', need)
      else FreeRun(records, i + 1, 0, start, need)
  }

  /** Long-name text, deleted or blank. */
  predicate Usable(r: Record) {
    r[11] % 16 == 0x0F || r[0] == 0xE5 || r[0] == 0x00
  }

  /** The `need` records up to e are usable, and the last of them is more than text. */
  predicate EndsRun(records: seq<Record>, need: nat, e: nat)
    requires e < |records|
  {
    && need <= e + 1 && records[e][11] % 16 != 0x0F
    && forall k :: e + 1 - need <= k <= e ==> Usable(records[k])
  }

  /** The records in front of i that have been counted. */
  predicate Counted(records: seq<Record>, i: nat, spaces: nat, start: nat)
    requires i <= |records|
  {
    && spaces <= i && (spaces > 0 ==> start == i - spaces)
    && (forall k :: i - spaces <= k < i ==> Usable(records[k]))
    && (spaces < i ==> !Usable(records[i - spaces - 1]))
  }

  /** What the scan finds. */
  lemma {:induction false} RunFound(records: seq<Record>, i: nat, spaces: nat, start: nat, need: nat) returns (e: nat)
    requires i <= |records| && need > 0 && Counted(records, i, spaces, start)
    requires FreeRun(records, i, spaces, start, need).At?
    ensures var s := FreeRun(records, i, spaces, start, need).start;
            && e < |records| && EndsRun(records, need, e) && s + need <= e + 1
            && (forall k :: s <= k <= e ==> Usable(records[k])) && (s > 0 ==> !Usable(records[s - 1]))
    decreases |records| - i
  {
    var start' := if spaces == 0 then i else start;
    if IsUnused(records[i]) && spaces + 1 >= need {
      e := i;
    } else if Usable(records[i]) {
      e := RunFound(records, i + 1, spaces + 1, start', need);
    } else {
      e := RunFound(records, i + 1, 0, start, need);
    }
  }

  /** And that it finds something if there is something. */
  lemma {:induction false} RunIsFound(records: seq<Record>, i: nat, spaces: nat, start: nat, need: nat, e: nat)
    requires i <= e < |records| && need > 0 && Counted(records, i, spaces, start) && EndsRun(records, need, e)
    ensures FreeRun(records, i, spaces, start, need).At?
    decreases |records| - i
  {
    var start' := if spaces == 0 then i else start;
    if Usable(records[i]) {
      if !(IsUnused(records[i]) && spaces + 1 >= need) {
        RunIsFound(records, i + 1, spaces + 1, start', need, e);
      }
    } else {
      RunIsFound(records, i + 1, 0, start, need, e);
    }
  }

  /** The scan succeeds exactly if somewhere `need` usable records end with one that is more than
      text; what it finds begins at the first record or behind one that is in use. */
  lemma FreeRunExactly(records: seq<Record>, need: nat)
    requires need > 0
    ensures var run := FreeRun(records, 0, 0, 0, need);
            && (run.At? <==> exists e: nat :: e < |records| && EndsRun(records, need, e))
            && (run.At? ==>
                && run.start + need <= |records|
                && (forall k :: run.start <= k < run.start + need ==> Usable(records[k]))
                && (run.start > 0 ==> !Usable(records[run.start - 1])))
  {
    if FreeRun(records, 0, 0, 0, need).At? {
      var e := RunFound(records, 0, 0, 0, need);
    }
    if e: nat :| e < |records| && EndsRun(records, need, e) {
      RunIsFound(records, 0, 0, 0, need, e);
    }
  }

  /** No long-name text is left hanging at the end of these records. */
  predicate EndsClean(records: seq<Record>) {
    records == [] || !IsLfnText(records[|records| - 1])
  }

  /** The run found has no live record, is long enough and ends with an unused record; when
      there is none, the run at the end of the directory has no live record either. */
  lemma {:induction false} FreeRunIsOrphaned(records: seq<Record>, i: nat, spaces: nat, start: nat, need: nat)
    returns (end: nat)
    requires i <= |records| && need > 0
    requires spaces > 0 ==> start + spaces == i && EndsClean(records[..start]) && NoneLive(records[start..i])
    requires spaces == 0 ==> EndsClean(records[..i])
    ensures var run := FreeRun(records, i, spaces, start, need);
            && run.start <= end <= |records|
            && EndsClean(records[..run.start]) && NoneLive(records[run.start..end])
            && (run.At? ==> run.start + need <= end && EndsClean(records[..end]))
            && (run.Full? ==> end == |records|)
    decreases |records| - i
  {
    hide IsLive, IsInvalid;
    if i == |records| {
      end := i;
    } else {
      var start' := if spaces == 0 then i else start;
      LiveOrNot(records[i]);
      UnusedIsInvalid(records[i]);
      if IsLfnText(records[i]) || IsUnused(records[i]) {
        assert records[start'..i + 1] == records[start'..i] + [records[i]];
        if IsUnused(records[i]) && spaces + 1 >= need {
          end := i + 1;
        } else {
          end := FreeRunIsOrphaned(records, i + 1, spaces + 1, start', need);
        }
      } else {
        end := FreeRunIsOrphaned(records, i + 1, 0, start, need);
      }
    }
  }

  lemma UnusedIsInvalid(r: Record)
    ensures IsUnused(r) ==> IsInvalid(r) && !IsLive(r)
  {
  }

  /** The records fatfs_add_file_entry writes. */
  function NewRecords(name: seq<byte>, shortName: ShortName, size: word32, start: word32, dir: bool): (r: seq<Record>)
    requires LfnEntries(name) <= LFN_ROWS
    ensures |r| == LfnEntries(name) + 1
  {
    LfnRecords(name, Checksum(shortName), LfnEntries(name)) + [SfnRecord(shortName, size, start, dir)]
  }

  /** A name and a short name for it that survive being stored: no byte of the name is an end
      mark or padding, and the short name does not start like an unused record. */
  predicate Storable(name: seq<byte>, shortName: ShortName) {
    && 1 <= |name| <= LFN_ROWS * LFN_CHARS
    && 0x00 !in name && 0xFF !in name
    && shortName[0] != BLANK && shortName[0] != DELETED
  }

  lemma {:induction false} LfnRecordsAreText(name: seq<byte>, chk: byte, entries: nat)
    requires entries <= LFN_ROWS
    ensures forall i :: 0 <= i < entries ==> IsLfnText(LfnRecords(name, chk, entries)[i])
  {
    if entries > 0 {
      LfnRecordHead(name, entries - 1, chk);
      LfnRecordsAreText(name, chk, entries - 1);
    }
  }

  lemma {:induction false} AfterAllText(cache: LfnCache, records: seq<Record>)
    requires cache.Valid() && forall i :: 0 <= i < |records| ==> IsLfnText(records[i])
    ensures NoneLive(records) && AfterAll(cache, records) == AddAll(cache, records)
    decreases records
  {
    if records != [] {
      AfterAllText(cache.Add(records[0]), records[1..]);
      LiveOrNot(records[0]);
      assert forall i :: 1 <= i < |records| ==> records[i] == records[1..][i - 1];
    }
  }

  lemma SfnIsLive(shortName: ShortName, size: word32, start: word32, dir: bool)
    requires shortName[0] != BLANK && shortName[0] != DELETED
    ensures IsLive(SfnRecord(shortName, size, start, dir)) && !IsLfnText(SfnRecord(shortName, size, start, dir))
  {
    SfnRecordFields(shortName, size, start, dir);
    hide SfnRecord;
    var r := SfnRecord(shortName, size, start, dir);
    assert r[0] == Name(r)[0];
  }

  /** The new records are found under the new name and no other. */
  lemma SearchNew(cache: LfnCache, name: seq<byte>, shortName: ShortName, size: word32, start: word32, dir: bool,
                  key: NameKey)
    requires cache.Valid() && cache.rows == 0 && Storable(name, shortName)
    ensures LfnEntries(name) <= LFN_ROWS
    ensures var f := Search(NewRecords(name, shortName, size, start, dir), cache, key);
            if key == Key(name) then f == Hit(LfnEntries(name)) else f.Miss? && f.cache.rows == 0
  {
    hide LfnRecords, SfnRecord, AddAll, AfterAll, Key, LfnCache.LongName, IsLive, IsLfnText, Checksum;
    var k, chk := LfnEntries(name), Checksum(shortName);
    var text, sfn := LfnRecords(name, chk, k), [SfnRecord(shortName, size, start, dir)];
    LfnRecordsAreText(name, chk, k);
    AfterAllText(cache, text);
    SearchNoneLive(text, cache, key);
    SearchConcat(text, sfn, cache, key);
    LongNameRoundTrip(cache, name, chk);
    SfnIsLive(shortName, size, start, dir);
    SearchEndsClean(text + sfn, cache, key);
    var c := AddAll(cache, text);
    assert NameOf(c, sfn[0]) == name;
    assert Search(sfn, c, key).Hit? <==> key == Key(name);
  }

  /* Which names survive being stored. */

  lemma LowerAllPadding(s: seq<byte>)
    ensures 0xFF in LowerAll(s) <==> 0xFF in s
  {
    if 0xFF in s {
      var i :| 0 <= i < |s| && s[i] == 0xFF;
      assert LowerAll(s)[i] == 0xFF;
    }
  }

  /** A byte of padding in a name is in its key. */
  lemma KeyPadding(s: seq<byte>)
    ensures 0xFF in s <==> 0xFF in Key(s).base || 0xFF in Key(s).extension
  {
    var base := Base(s);
    LowerAllPadding(base[..Trimmed(base)]);
    LowerAllPadding(Extension(s));
    hide LowerAll, Trimmed, LastDot;
    if 0xFF in s {
      var i :| 0 <= i < |s| && s[i] == 0xFF;
      if LastDot(s) == -1 || i < LastDot(s) {
        assert base[i] == 0xFF && i < Trimmed(base);
        assert base[..Trimmed(base)][i] == 0xFF;
      } else {
        assert Extension(s)[i - LastDot(s) - 1] == 0xFF;
      }
    }
  }

  lemma SpacedKey(name: seq<byte>)
    ensures Key(SpacedAll(name)) == Key(name) <==> 0xFF !in name
  {
    KeyPadding(name);
    KeyPadding(SpacedAll(name));
    hide Key;
    assert 0xFF !in SpacedAll(name);
    if 0xFF !in name {
      assert SpacedAll(name) == name;
    }
  }

  /** The records written for a name are found under it again exactly when it has no byte of
      padding and its short name does not start like an unused record. */
  lemma NewFoundExactly(cache: LfnCache, name: seq<byte>, shortName: ShortName, size: word32, start: word32, dir: bool)
    requires cache.Valid() && cache.rows == 0
    requires 1 <= |name| <= LFN_ROWS * LFN_CHARS && 0x00 !in name
    ensures LfnEntries(name) <= LFN_ROWS
    ensures Search(NewRecords(name, shortName, size, start, dir), cache, Key(name)).Hit? <==> Storable(name, shortName)
  {
    hide LfnRecords, SfnRecord, AddAll, AfterAll, Key, LfnCache.LongName, IsLive, IsLfnText, Checksum;
    var k, chk := LfnEntries(name), Checksum(shortName);
    var text, sfn := LfnRecords(name, chk, k), [SfnRecord(shortName, size, start, dir)];
    LfnRecordsAreText(name, chk, k);
    AfterAllText(cache, text);
    SearchNoneLive(text, cache, Key(name));
    SearchConcat(text, sfn, cache, Key(name));
    LongNameRoundTrip(cache, name, chk);
    SpacedKey(name);
    SfnLiveExactly(shortName, size, start, dir);
    var c := AddAll(cache, text);
    assert NameOf(c, sfn[0]) == SpacedAll(name);
    assert Search(sfn, c, Key(name)).Hit? <==> IsLive(sfn[0]) && Key(SpacedAll(name)) == Key(name);
  }

  /** A name of one byte of padding, stored under any short name, is not found again. */
  lemma PaddingIsLost(shortName: ShortName, size: word32, start: word32, dir: bool)
    ensures LfnEntries([0xFF]) <= LFN_ROWS
    ensures EMPTY_CACHE.Valid() && Search(NewRecords([0xFF], shortName, size, start, dir), EMPTY_CACHE,
                                          Key([0xFF])).Miss?
  {
    hide Search, Key, NewRecords;
    NewFoundExactly(EMPTY_CACHE, [0xFF], shortName, size, start, dir);
    assert 0xFF in [0xFF];
  }

  lemma SfnLiveExactly(shortName: ShortName, size: word32, start: word32, dir: bool)
    ensures IsLive(SfnRecord(shortName, size, start, dir)) <==> shortName[0] != BLANK && shortName[0] != DELETED
  {
    SfnRecordFields(shortName, size, start, dir);
    hide SfnRecord;
    var r := SfnRecord(shortName, size, start, dir);
    assert r[0] == Name(r)[0];
  }

  /* Completeness of long names. */

  lemma {:induction false} NoneLiveComplete(records: seq<Record>, pending: Pending)
    requires NoneLive(records)
    ensures Complete(records, pending)
    decreases records
  {
    if records != [] {
      hide IsLive, Pending.Next;
      assert !IsLive(records[0]);
      assert forall i :: 1 <= i < |records| ==> records[i] == records[1..][i - 1];
      NoneLiveComplete(records[1..], pending.Next(records[0]));
    }
  }

  lemma {:induction false} CompleteConcat(a: seq<Record>, b: seq<Record>, pending: Pending)
    requires a != [] && EndsClean(a)
    ensures Complete(a + b, pending) <==> Complete(a, pending) && Complete(b, NOTHING)
    decreases a
  {
    assert (a + b)[1..] == a[1..] + b;
    if |a| == 1 {
      assert a[1..] + b == b;
    } else {
      hide IsLive, IsLfnText, Pending.Next;
      assert a[1..][|a| - 2] == a[|a| - 1];
      CompleteConcat(a[1..], b, pending.Next(a[0]));
    }
  }

  lemma {:induction false} CompleteThenNoneLive(a: seq<Record>, b: seq<Record>, pending: Pending)
    requires Complete(a, pending) && NoneLive(b)
    ensures Complete(a + b, pending)
    decreases a
  {
    if a == [] {
      assert a + b == b;
      NoneLiveComplete(b, pending);
    } else {
      hide IsLive, Pending.Next;
      assert (a + b)[1..] == a[1..] + b;
      CompleteThenNoneLive(a[1..], b, pending.Next(a[0]));
    }
  }

  /** The new records are complete. */
  lemma {:induction false} NewComplete(name: seq<byte>, chk: byte, entries: nat, k: nat, sfn: Record, pending: Pending)
    requires entries <= k <= LFN_ROWS && !IsLfnText(sfn)
    requires pending.rows == if entries == k then 0 else k
    requires forall j :: entries <= j < k ==> j in pending.filled
    ensures Complete(LfnRecords(name, chk, entries) + [sfn], pending)
    decreases entries
  {
    hide LfnRecord, IsLive, IsInvalid;
    var records := LfnRecords(name, chk, entries) + [sfn];
    if entries > 0 {
      LfnRecordHead(name, entries - 1, chk);
      LiveOrNot(records[0]);
      assert records[1..] == LfnRecords(name, chk, entries - 1) + [sfn];
      NewComplete(name, chk, entries - 1, k, sfn, pending.Next(records[0]));
    }
  }

  /* Inserting. */

  function Splice(records: seq<Record>, start: nat, piece: seq<Record>): (r: seq<Record>)
    requires start + |piece| <= |records|
    ensures |r| == |records|
  {
    records[..start] + piece + records[start + |piece|..]
  }

  /** A search that has no rows in use goes through these records without a match. */
  ghost predicate PassedOver(records: seq<Record>, key: NameKey) {
    forall d: LfnCache :: d.Valid() && d.rows == 0 ==>
      Search(records, d, key).Miss? && Search(records, d, key).cache.rows == 0
  }

  /** Search through three stretches, when the middle one has no match and leaves no rows. */
  lemma SearchAround(pre: seq<Record>, mid: seq<Record>, post: seq<Record>, cache: LfnCache, key: NameKey)
    returns (c: LfnCache)
    requires cache.Valid() && cache.rows == 0 && EndsClean(pre)
    requires PassedOver(mid, key)
    ensures c.Valid() && c.rows == 0
    ensures Search(pre, cache, key).Hit? ==> Search(pre + mid + post, cache, key) == Search(pre, cache, key)
    ensures Search(pre, cache, key).Miss? ==>
              (Search(pre + mid + post, cache, key).Hit? <==> Search(post, c, key).Hit?)
    ensures Search(pre, cache, key).Miss? && Search(post, c, key).Hit? ==>
              Search(pre + mid + post, cache, key) == Hit(|pre| + |mid| + Search(post, c, key).index)
  {
    SearchConcat(pre, mid, cache, key);
    SearchConcat(pre + mid, post, cache, key);
    if pre != [] {
      SearchEndsClean(pre, cache, key);
    }
    c := if Search(pre + mid, cache, key).Miss? then Search(pre + mid, cache, key).cache else cache;
  }

  /** A stretch without live records that ends clean is passed over. */
  lemma SearchOrphaned(mid: seq<Record>, d: LfnCache, key: NameKey)
    requires d.Valid() && d.rows == 0 && NoneLive(mid) && EndsClean(mid)
    ensures Search(mid, d, key).Miss? && Search(mid, d, key).cache.rows == 0
  {
    SearchNoneLive(mid, d, key);
    if mid != [] {
      SearchEndsClean(mid, d, key);
    }
  }

  lemma OrphanedPassedOver(mid: seq<Record>, key: NameKey)
    requires NoneLive(mid) && EndsClean(mid)
    ensures PassedOver(mid, key)
  {
    forall d: LfnCache | d.Valid() && d.rows == 0
      ensures Search(mid, d, key).Miss? && Search(mid, d, key).cache.rows == 0
    {
      SearchOrphaned(mid, d, key);
    }
  }

  /** records[start..end] may be taken for a new name: none of it is live, and nothing is left
      hanging before it or at its end. */
  ghost predicate Orphaned(records: seq<Record>, start: nat, end: nat) {
    && start <= end <= |records|
    && EndsClean(records[..start]) && EndsClean(records[..end])
    && NoneLive(records[start..end])
  }

  /** What is left of an orphaned run behind the new records is still passed over. */
  lemma NewThenLeft(mid: seq<Record>, name: seq<byte>, shortName: ShortName, size: word32, start: word32, dir: bool,
                    key: NameKey)
    requires Storable(name, shortName) && key != Key(name)
    requires LfnEntries(name) + 1 <= |mid| && NoneLive(mid) && EndsClean(mid)
    ensures LfnEntries(name) <= LFN_ROWS
    ensures PassedOver(NewRecords(name, shortName, size, start, dir) + mid[LfnEntries(name) + 1..], key)
  {
    assert LfnEntries(name) <= LFN_ROWS;
    hide NewRecords, Search, NoneLive, IsLfnText, Key;
    var n := LfnEntries(name) + 1;
    var records, left := NewRecords(name, shortName, size, start, dir), mid[n..];
    LeftOrphaned(mid, n);
    forall d: LfnCache | d.Valid() && d.rows == 0
      ensures Search(records + left, d, key).Miss? && Search(records + left, d, key).cache.rows == 0
    {
      SearchNew(d, name, shortName, size, start, dir, key);
      SearchConcat(records, left, d, key);
      SearchOrphaned(left, Search(records, d, key).cache, key);
    }
  }

  lemma LeftOrphaned(mid: seq<Record>, n: nat)
    requires n <= |mid| && NoneLive(mid) && EndsClean(mid)
    ensures NoneLive(mid[n..]) && EndsClean(mid[n..])
  {
    hide IsLive, IsLfnText;
    assert forall i :: 0 <= i < |mid| - n ==> mid[n..][i] == mid[n + i];
  }

  lemma SplitRun(records: seq<Record>, start: nat, end: nat, piece: seq<Record>)
    requires start + |piece| <= end <= |records|
    ensures records == records[..start] + records[start..end] + records[end..]
    ensures Splice(records, start, piece) == records[..start] + (piece + records[start..end][|piece|..]) +
            records[end..]
  {
  }

  /** Every other name is found where it was, or not at all, as before. */
  lemma InsertKeepsOthers(records: seq<Record>, start: nat, end: nat, cache: LfnCache,
                          name: seq<byte>, shortName: ShortName, size: word32, cluster: word32, dir: bool, key: NameKey)
    requires Storable(name, shortName) && LfnEntries(name) <= LFN_ROWS
    requires Orphaned(records, start, end) && start + LfnEntries(name) + 1 <= end
    requires Complete(records, NOTHING) && cache.Valid() && cache.rows == 0
    requires key != Key(name)
    ensures var f, f' := Search(records, cache, key),
            Search(Splice(records, start, NewRecords(name, shortName, size, cluster, dir)), cache, key);
            f.Hit? == f'.Hit? && (f.Hit? ==> f.index == f'.index)
  {
    hide NewRecords, Search, NoneLive, IsLfnText, Key, Complete, Splice, PassedOver;
    var new_ := NewRecords(name, shortName, size, cluster, dir);
    var pre, mid, post := records[..start], records[start..end], records[end..];
    SplitRun(records, start, end, new_);
    assert EndsClean(mid) by {
      assert records[..end] == pre + mid;
    }
    CompletePost(records, end);
    OrphanedPassedOver(mid, key);
    NewThenLeft(mid, name, shortName, size, cluster, dir, key);
    SwapMiddle(pre, mid, new_ + mid[|new_|..], post, cache, key);
  }

  /** The middle of a directory may be replaced by as many records when neither matches. */
  lemma SwapMiddle(pre: seq<Record>, mid: seq<Record>, mid': seq<Record>, post: seq<Record>, cache: LfnCache,
                   key: NameKey)
    requires cache.Valid() && cache.rows == 0 && EndsClean(pre)
    requires PassedOver(mid, key)
    requires PassedOver(mid', key)
    requires |mid'| == |mid| && Complete(post, NOTHING)
    ensures var f, f' := Search(pre + mid + post, cache, key), Search(pre + mid' + post, cache, key);
            f.Hit? == f'.Hit? && (f.Hit? ==> f.index == f'.index)
  {
    hide Search, IsLfnText, Complete, PassedOver;
    var c := SearchAround(pre, mid, post, cache, key);
    var c' := SearchAround(pre, mid', post, cache, key);
    SearchAgree(post, c, c', NOTHING, key);
  }

  lemma CompletePost(records: seq<Record>, end: nat)
    requires end <= |records| && EndsClean(records[..end]) && Complete(records, NOTHING)
    ensures Complete(records[end..], NOTHING)
  {
    hide IsLfnText;
    if end == 0 {
      assert records[0..] == records;
    } else {
      assert records == records[..end] + records[end..];
      CompleteConcat(records[..end], records[end..], NOTHING);
    }
  }

  /** A name not found before is found at its new record. */
  lemma InsertFindsNew(records: seq<Record>, start: nat, end: nat, cache: LfnCache,
                       name: seq<byte>, shortName: ShortName, size: word32, cluster: word32, dir: bool)
    requires Storable(name, shortName) && LfnEntries(name) <= LFN_ROWS
    requires Orphaned(records, start, end) && start + LfnEntries(name) + 1 <= end
    requires cache.Valid() && cache.rows == 0
    requires Search(records, cache, Key(name)).Miss?
    ensures Search(Splice(records, start, NewRecords(name, shortName, size, cluster, dir)), cache, Key(name))
         == Hit(start + LfnEntries(name))
  {
    hide NewRecords, Search, NoneLive, IsLfnText, Key;
    var key, new_ := Key(name), NewRecords(name, shortName, size, cluster, dir);
    var pre, post := records[..start], records[start + |new_|..];
    assert records == pre + records[start..];
    SearchConcat(pre, records[start..], cache, key);
    var c := Search(pre, cache, key).cache;
    if pre != [] {
      SearchEndsClean(pre, cache, key);
    } else {
      SearchNoneLive(pre, cache, key);
    }
    SearchNew(c, name, shortName, size, cluster, dir, key);
    SearchConcat(new_, post, c, key);
    assert Splice(records, start, new_) == pre + (new_ + post);
    SearchConcat(pre, new_ + post, cache, key);
  }

  /** The directory stays complete. */
  lemma InsertKeepsComplete(records: seq<Record>, start: nat, end: nat,
                            name: seq<byte>, shortName: ShortName, size: word32, cluster: word32, dir: bool)
    requires Storable(name, shortName) && LfnEntries(name) <= LFN_ROWS
    requires Orphaned(records, start, end) && start + LfnEntries(name) + 1 <= end
    requires Complete(records, NOTHING)
    ensures Complete(Splice(records, start, NewRecords(name, shortName, size, cluster, dir)), NOTHING)
  {
    var k, chk, sfn := LfnEntries(name), Checksum(shortName), SfnRecord(shortName, size, cluster, dir);
    var new_ := NewRecords(name, shortName, size, cluster, dir);
    var pre, mid, post := records[..start], records[start..end], records[end..];
    SfnIsLive(shortName, size, cluster, dir);
    NewComplete(name, chk, k, k, sfn, NOTHING);
    assert new_[|new_| - 1] == sfn;
    hide NewRecords, NoneLive, IsLfnText, Complete, Checksum, SfnRecord, Splice, LfnRecords;
    SplitRun(records, start, end, new_);
    assert EndsClean(mid) by {
      assert records[..end] == pre + mid;
    }
    CompletePost(records, end);
    var left := mid[|new_|..];
    LeftOrphaned(mid, |new_|);
    JoinComplete(pre, new_, left, post, records);
  }

  lemma JoinComplete(pre: seq<Record>, new_: seq<Record>, left: seq<Record>, post: seq<Record>, records: seq<Record>)
    requires pre <= records && Complete(records, NOTHING) && EndsClean(pre)
    requires new_ != [] && Complete(new_, NOTHING) && EndsClean(new_)
    requires NoneLive(left) && EndsClean(left) && Complete(post, NOTHING)
    ensures Complete(pre + (new_ + left) + post, NOTHING)
  {
    hide NoneLive, IsLfnText, Complete;
    CompleteThenNoneLive(new_, left, NOTHING);
    assert EndsClean(new_ + left);
    CompleteConcat(new_ + left, post, NOTHING);
    if pre == [] {
      assert pre + (new_ + left) + post == new_ + left + post;
    } else {
      assert records == pre + records[|pre|..];
      CompleteConcat(pre, records[|pre|..], NOTHING);
      assert pre + (new_ + left) + post == pre + (new_ + left + post);
      CompleteConcat(pre, new_ + left + post, NOTHING);
    }
  }
}
