/** Directory records found by their short name: what changing or deleting one does to lookups. */
module DirShort {

  import opened Words
  import opened DirRecords
  import opened Names
  import opened DirSearch
  import opened DirInsert

  /** The test of the scans by short name: strncmp over eleven bytes stops at a zero. */
  predicate Answers(r: Record, shortName: ShortName) {
    IsLive(r) && CString(Name(r)) == CString(shortName)
  }

  /** The first record from `from` on that answers to the short name, or the number of records. */
  function FirstShort(records: seq<Record>, from: nat, shortName: ShortName): (i: nat)
    requires from <= |records|
    ensures from <= i <= |records|
    ensures i < |records| ==> Answers(records[i], shortName)
    ensures forall j :: from <= j < i ==> !Answers(records[j], shortName)
    decreases |records| - from
  {
    if from == |records| || Answers(records[from], shortName) then from else FirstShort(records, from + 1, shortName)
  }

  /** Live records have different short names. */
  predicate ShortUnique(records: seq<Record>) {
    forall i, j :: 0 <= i < j < |records| && IsLive(records[i]) && IsLive(records[j]) ==>
      CString(Name(records[i])) != CString(Name(records[j]))
  }

  /** A file found under its long name is found again by its short name. */
  lemma FirstShortOf(records: seq<Record>, i: nat)
    requires ShortUnique(records) && i < |records| && IsLive(records[i])
    ensures FirstShort(records, 0, Name(records[i])) == i
  {
  }

  /** strncmp(a, b, 11) == 0 */
  method SameShortName(a: ShortName, b: ShortName) returns (same: bool)
    ensures same <==> CString(a) == CString(b)
  {
    assert a[0..] == a && b[0..] == b;
    var i := 0;
    while i < 11
      invariant 0 <= i <= 11
      invariant CString(a) == CString(b) <==> CString(a[i..]) == CString(b[i..])
    {
      CStringStep(a, b, i);
      if a[i] != b[i] {
        return false;
      }
      if a[i] == 0 {
        return true;
      }
      i := i + 1;
    }
    same := true;
  }

  lemma CStringStep(a: seq<byte>, b: seq<byte>, i: nat)
    requires |a| == |b| && i < |a|
    ensures CString(a[i..]) == CString(b[i..]) <==>
            a[i] == b[i] && (a[i] == 0 || CString(a[i + 1..]) == CString(b[i + 1..]))
  {
    assert a[i..][1..] == a[i + 1..] && b[i..][1..] == b[i + 1..];
    var x, y := CString(a[i..]), CString(b[i..]);
    if x != [] && y != [] {
      assert x[1..] == CString(a[i + 1..]) && y[1..] == CString(b[i + 1..]);
    }
  }

  /* ----------- a new size ----------- */

  function WithSize(r: Record, size: word32): Record {
    Put32(r, 28, size)
  }

  /** The kind of a record depends on its first byte and its attribute. */
  lemma SameKind(q: Record, r: Record)
    requires q[0] == r[0] && q[11] == r[11]
    ensures IsLive(q) == IsLive(r) && IsLfnText(q) == IsLfnText(r) && IsFile(q) == IsFile(r)
  {
  }

  lemma WithSizeFields(r: Record, size: word32)
    ensures var q := WithSize(r, size);
            && Size(q) == size && q[..28] == r[..28]
            && Name(q) == Name(r) && Attr(q) == Attr(r) && FirstCluster(q) == FirstCluster(r)
            && IsLive(q) == IsLive(r) && IsLfnText(q) == IsLfnText(r) && IsFile(q) == IsFile(r)
  {
    hide Load, Store, Radix, IsLive, IsLfnText, IsFile;
    Radices();
    LoadStore(r, 28, size, 4);
    StoreFrame(r, 28, size, 4);
    var q := WithSize(r, size);
    hide WithSize;
    SameKind(q, r);
    LoadSame(q, r, 20, 2);
    LoadSame(q, r, 26, 2);
  }

  lemma WithSizeSearch(r: Record, size: word32, cache: LfnCache, key: NameKey)
    requires cache.Valid() && IsLive(r)
    ensures Matches(cache, WithSize(r, size), key) == Matches(cache, r, key)
    ensures After(cache, WithSize(r, size)) == After(cache, r)
  {
    WithSizeFields(r, size);
    hide WithSize, IsLive, Key;
    var q := WithSize(r, size);
    LiveOrNot(r);
    LiveOrNot(q);
    assert q[..8] == q[..28][..8] == r[..8];
    assert q[8..11] == q[..28][8..11] == r[8..11];
    assert q[0] == q[..28][0] && q[8] == q[..28][8] && q[9] == q[..28][9] && q[10] == q[..28][10];
    assert ShortDisplay(q) == ShortDisplay(r);
  }

  /** A new size in a live record changes no lookup. */
  lemma {:induction false} SizeKeepsSearch(records: seq<Record>, i: nat, size: word32, cache: LfnCache, key: NameKey)
    requires i < |records| && IsLive(records[i]) && cache.Valid()
    ensures Search(records[i := WithSize(records[i], size)], cache, key) == Search(records, cache, key)
    decreases i
  {
    hide WithSize, IsLive, Matches, After;
    var records' := records[i := WithSize(records[i], size)];
    if i == 0 {
      WithSizeSearch(records[0], size, cache, key);
      assert records'[1..] == records[1..];
    } else {
      assert records'[1..] == records[1..][i - 1 := WithSize(records[1..][i - 1], size)];
      SizeKeepsSearch(records[1..], i - 1, size, After(cache, records[0]), key);
    }
  }

  lemma {:induction false} SizeKeepsComplete(records: seq<Record>, i: nat, size: word32, pending: Pending)
    requires i < |records| && IsLive(records[i])
    ensures Complete(records[i := WithSize(records[i], size)], pending) <==> Complete(records, pending)
    decreases i
  {
    var records' := records[i := WithSize(records[i], size)];
    if i == 0 {
      WithSizeFields(records[0], size);
      LiveOrNot(records[0]);
      hide WithSize, IsLive;
      assert records'[1..] == records[1..];
    } else {
      hide WithSize, IsLive, Pending.Next;
      assert records'[1..] == records[1..][i - 1 := WithSize(records[1..][i - 1], size)];
      SizeKeepsComplete(records[1..], i - 1, size, pending.Next(records[0]));
    }
  }

  lemma SizeKeepsUnique(records: seq<Record>, i: nat, size: word32)
    requires i < |records| && ShortUnique(records)
    ensures ShortUnique(records[i := WithSize(records[i], size)])
  {
    WithSizeFields(records[i], size);
    hide WithSize, IsLive, CString;
  }

  /* ----------- deleting ----------- */

  /** fatfs_mark_file_deleted marks the record; its long-name records stay behind. */
  function Deleted(r: Record): Record {
    r[0 := DELETED]
  }

  lemma DeletedIsDead(r: Record)
    requires IsLive(r)
    ensures !IsLive(Deleted(r)) && !IsLfnText(Deleted(r)) && IsUnused(Deleted(r)) && !IsLfnText(r)
  {
  }

  lemma SplitThree(records: seq<Record>, i: nat, r: Record)
    requires i < |records|
    ensures records == records[..i] + ([records[i]] + records[i + 1..])
    ensures records[i := r] == records[..i] + ([r] + records[i + 1..])
  {
  }

  lemma SearchOne(r: Record, cache: LfnCache, key: NameKey)
    requires cache.Valid()
    ensures Search([r], cache, key) == if Matches(cache, r, key) then Hit(0) else Miss(After(cache, r))
  {
  }

  /** Deleting a record leaves every lookup that stopped elsewhere as it was; one that stopped
      there goes on, to a later match if there is one. */
  lemma DeleteKeepsOthers(records: seq<Record>, i: nat, cache: LfnCache, key: NameKey)
    requires i < |records| && IsLive(records[i]) && Complete(records, NOTHING)
    requires cache.Valid() && cache.rows == 0
    ensures var f, f' := Search(records, cache, key), Search(records[i := Deleted(records[i])], cache, key);
            && (f != Hit(i) ==> f'.Hit? == f.Hit? && (f.Hit? ==> f'.index == f.index))
            && (f == Hit(i) ==> forall c: LfnCache :: c.Valid() && c.rows == 0 ==>
                  f'.Hit? == Search(records[i + 1..], c, key).Hit?
                  && (f'.Hit? ==> f'.index == i + 1 + Search(records[i + 1..], c, key).index))
  {
    var q := Deleted(records[i]);
    DeletedIsDead(records[i]);
    var pre, post := records[..i], records[i + 1..];
    assert records[..i + 1] == pre + [records[i]];
    assert EndsClean(records[..i + 1]);
    CompletePost(records, i + 1);
    SplitThree(records, i, q);
    SearchConcat(pre, [records[i]] + post, cache, key);
    SearchConcat(pre, [q] + post, cache, key);
    if Search(pre, cache, key).Miss? {
      var c := Search(pre, cache, key).cache;
      AfterDeleted(records[i], c, key);
      SearchConcat([records[i]], post, c, key);
      SearchConcat([q], post, c, key);
      hide Search, Complete, Deleted, IsLive, Matches, After;
      forall d: LfnCache | d.Valid() && d.rows == 0
        ensures Search(post, After(c, q), key).Hit? == Search(post, d, key).Hit?
        ensures Search(post, d, key).Hit? ==> Search(post, After(c, q), key).index == Search(post, d, key).index
      {
        SearchAgree(post, After(c, q), d, NOTHING, key);
      }
    }
  }

  lemma AfterDeleted(r: Record, c: LfnCache, key: NameKey)
    requires c.Valid() && IsLive(r)
    ensures After(c, Deleted(r)).rows == 0 && After(c, r).rows == 0
    ensures Search([Deleted(r)], c, key) == Miss(After(c, Deleted(r)))
    ensures Search([r], c, key) == if Matches(c, r, key) then Hit(0) else Miss(After(c, r))
  {
    DeletedIsDead(r);
    LiveOrNot(r);
    hide Deleted, Key;
    SearchOne(r, c, key);
    SearchOne(Deleted(r), c, key);
  }

  lemma {:induction false} DeleteKeepsComplete(records: seq<Record>, i: nat, pending: Pending)
    requires i < |records| && IsLive(records[i]) && Complete(records, pending)
    ensures Complete(records[i := Deleted(records[i])], pending)
    decreases i
  {
    var records' := records[i := Deleted(records[i])];
    if i == 0 {
      DeletedIsDead(records[0]);
      hide Deleted, IsLive;
      assert records'[1..] == records[1..];
    } else {
      hide Deleted, IsLive, Pending.Next;
      assert records'[1..] == records[1..][i - 1 := Deleted(records[1..][i - 1])];
      DeleteKeepsComplete(records[1..], i - 1, pending.Next(records[0]));
    }
  }

  lemma DeleteKeepsUnique(records: seq<Record>, i: nat)
    requires i < |records| && IsLive(records[i]) && ShortUnique(records)
    ensures ShortUnique(records[i := Deleted(records[i])])
  {
    DeletedIsDead(records[i]);
    hide Deleted, IsLive, CString;
  }

  /** Of the records of a new entry only the last is live. */
  lemma NewRecordsLive(name: seq<byte>, shortName: ShortName, size: word32, cluster: word32, dir: bool)
    requires Storable(name, shortName) && LfnEntries(name) <= LFN_ROWS
    ensures var piece := NewRecords(name, shortName, size, cluster, dir);
            && |piece| == LfnEntries(name) + 1
            && (forall i :: 0 <= i < |piece| - 1 ==> !IsLive(piece[i]))
            && IsLive(piece[|piece| - 1]) && Name(piece[|piece| - 1]) == shortName
  {
    var n, chk := LfnEntries(name), Checksum(shortName);
    LfnRecordsAreText(name, chk, n);
    SfnIsLive(shortName, size, cluster, dir);
    SfnRecordFields(shortName, size, cluster, dir);
    var piece := NewRecords(name, shortName, size, cluster, dir);
    forall i | 0 <= i < n ensures !IsLive(piece[i]) {
      assert piece[i] == LfnRecords(name, chk, n)[i];
      LiveOrNot(piece[i]);
    }
  }

  lemma SpliceKeepsUnique(records: seq<Record>, start: nat, piece: seq<Record>, shortName: ShortName)
    requires |piece| > 0 && start + |piece| <= |records|
    requires forall i :: 0 <= i < |piece| - 1 ==> !IsLive(piece[i])
    requires Name(piece[|piece| - 1]) == shortName
    requires ShortUnique(records) && FirstShort(records, 0, shortName) == |records|
    ensures ShortUnique(Splice(records, start, piece))
  {
    hide IsLive, CString;
    var out, last := Splice(records, start, piece), start + |piece| - 1;
    forall i | start <= i < last ensures !IsLive(out[i]) {
      assert out[i] == piece[i - start];
    }
    assert forall i :: 0 <= i < |out| && (i < start || last < i) ==> out[i] == records[i];
    assert out[last] == piece[|piece| - 1];
    forall i | 0 <= i < |records| && IsLive(records[i])
      ensures CString(Name(records[i])) != CString(shortName)
    {
      assert !Answers(records[i], shortName);
    }
  }

  /** Inserting under a short name no live record has keeps short names unique. */
  lemma InsertKeepsUnique(records: seq<Record>, start: nat, name: seq<byte>, shortName: ShortName, size: word32,
                          cluster: word32, dir: bool)
    requires Storable(name, shortName) && LfnEntries(name) <= LFN_ROWS
    requires start + LfnEntries(name) + 1 <= |records|
    requires ShortUnique(records) && FirstShort(records, 0, shortName) == |records|
    ensures ShortUnique(Splice(records, start, NewRecords(name, shortName, size, cluster, dir)))
  {
    hide IsLive, CString, NewRecords, LfnEntries, ShortUnique, Storable, FirstShort, Splice;
    NewRecordsLive(name, shortName, size, cluster, dir);
    SpliceKeepsUnique(records, start, NewRecords(name, shortName, size, cluster, dir), shortName);
  }

  /* ----------- two entries of one name ----------- */

  lemma NewIsComplete(name: seq<byte>, shortName: ShortName, size: word32, start: word32)
    requires Storable(name, shortName)
    ensures LfnEntries(name) <= LFN_ROWS
    ensures var records := NewRecords(name, shortName, size, start, false);
            Complete(records, NOTHING) && EndsClean(records) && IsLive(records[|records| - 1])
  {
    SfnIsLive(shortName, size, start, false);
    hide SfnRecord, LfnRecords, IsLive, IsLfnText;
    NewComplete(name, Checksum(shortName), LfnEntries(name), LfnEntries(name),
                SfnRecord(shortName, size, start, false), NOTHING);
  }

  /** Two entries of one name, as a directory may have them whose short names differ: each is
      complete, the first is found, and when it has been marked the second. */
  lemma SecondAnswers(name: seq<byte>, first: ShortName, second: ShortName, size: word32, start: word32, size': word32,
                      start': word32)
    requires Storable(name, first) && Storable(name, second)
    ensures LfnEntries(name) <= LFN_ROWS
    ensures var n, key := LfnEntries(name), Key(name);
            var records := NewRecords(name, first, size, start, false) + NewRecords(name, second, size', start', false);
            && Complete(records, NOTHING)
            && Search(records, EMPTY_CACHE, key) == Hit(n)
            && Search(records[n := Deleted(records[n])], EMPTY_CACHE, key) == Hit(2 * n + 1)
  {
    assert EMPTY_CACHE.Valid() && EMPTY_CACHE.rows == 0;
    SearchNew(EMPTY_CACHE, name, first, size, start, false, Key(name));
    SearchNew(EMPTY_CACHE, name, second, size', start', false, Key(name));
    NewIsComplete(name, first, size, start);
    NewIsComplete(name, second, size', start');
    hide Search, NewRecords, Key, Complete, IsLive, IsLfnText, Deleted, Storable, LfnEntries;
    var a, b, n := NewRecords(name, first, size, start, false), NewRecords(name, second, size', start', false),
        LfnEntries(name);
    SearchConcat(a, b, EMPTY_CACHE, Key(name));
    CompleteConcat(a, b, NOTHING);
    assert (a + b)[n + 1..] == b && (a + b)[n] == a[n];
    DeleteKeepsOthers(a + b, n, EMPTY_CACHE, Key(name));
  }
}
