/** Looking a name up in a directory, as a scan of its records. */
module DirSearch {

  import opened Words
  import opened DirRecords
  import opened Names

  /** The name shown for a record without long-name records: base, a dot if there is an
      extension and it is not a dot entry, extension. */
  function ShortDisplay(r: Record): seq<byte> {
    var dot := (r[8] != SPACE || r[9] != SPACE || r[10] != SPACE) && r[0] != DOT;
    CString(r[..8] + [if dot then DOT else SPACE] + r[8..11])
  }

  /** The name a live record goes by, given what the long-name cache holds. */
  function NameOf(cache: LfnCache, r: Record): seq<byte>
    requires cache.Valid()
  {
    if cache.rows != 0 then cache.LongName() else ShortDisplay(r)
  }

  /** The cache after a record whose name did not match, or that has none. */
  function After(cache: LfnCache, r: Record): (c: LfnCache)
    requires cache.Valid()
    ensures c.Valid()
  {
    if IsLfnText(r) then cache.Add(r)
    else if IsLive(r) && cache.rows != 0 then cache.Ended().Reset()
    else cache.Reset()
  }

  predicate Matches(cache: LfnCache, r: Record, key: NameKey)
    requires cache.Valid()
  {
    IsLive(r) && Key(NameOf(cache, r)) == key
  }

  datatype Found = Hit(index: nat) | Miss(cache: LfnCache)

  /** fatfs_get_file_entry: the first record whose name matches. */
  function Search(records: seq<Record>, cache: LfnCache, key: NameKey): (f: Found)
    requires cache.Valid()
    ensures f.Hit? ==> f.index < |records| && IsLive(records[f.index])
    ensures f.Miss? ==> f.cache.Valid()
    decreases records
  {
    if records == [] then Miss(cache)
    else if Matches(cache, records[0], key) then Hit(0)
    else
      match Search(records[1..], After(cache, records[0]), key)
      case Hit(i) => Hit(i + 1)
      case Miss(c) => Miss(c)
  }

  function Shift(n: nat, f: Found): Found {
    match f
    case Hit(i) => Hit(n + i)
    case Miss(c) => f
  }

  lemma SearchStep(records: seq<Record>, i: nat, cache: LfnCache, key: NameKey)
    requires cache.Valid() && i < |records|
    ensures Search(records[i..], cache, key) ==
            if Matches(cache, records[i], key) then Hit(0)
                else Shift(1, Search(records[i + 1..], After(cache, records[i]), key))
  {
    assert records[i..][1..] == records[i + 1..];
  }

  /** Searching two stretches of records one after the other. */
  lemma {:induction false} SearchConcat(a: seq<Record>, b: seq<Record>, cache: LfnCache, key: NameKey)
    requires cache.Valid()
    ensures Search(a + b, cache, key) ==
            match Search(a, cache, key)
            case Hit(i) => Hit(i)
            case Miss(c) => Shift(|a|, Search(b, c, key))
    decreases a
  {
    if a == [] {
      assert a + b == b;
    } else {
      assert (a + b)[1..] == a[1..] + b;
      SearchConcat(a[1..], b, After(cache, a[0]), key);
    }
  }

  /** No record a file or directory goes by. */
  predicate NoneLive(records: seq<Record>) {
    forall i :: 0 <= i < |records| ==> !IsLive(records[i])
  }

  function AfterAll(cache: LfnCache, records: seq<Record>): (c: LfnCache)
    requires cache.Valid()
    ensures c.Valid()
    decreases records
  {
    if records == [] then cache else AfterAll(After(cache, records[0]), records[1..])
  }

  lemma {:induction false} SearchNoneLive(records: seq<Record>, cache: LfnCache, key: NameKey)
    requires cache.Valid() && NoneLive(records)
    ensures Search(records, cache, key) == Miss(AfterAll(cache, records))
    decreases records
  {
    if records != [] {
      SearchNoneLive(records[1..], After(cache, records[0]), key);
    }
  }

  /** A stretch that ends with a record that is not long-name text leaves no rows in use. */
  lemma {:induction false} SearchEndsClean(records: seq<Record>, cache: LfnCache, key: NameKey)
    requires cache.Valid() && records != [] && !IsLfnText(records[|records| - 1])
    ensures Search(records, cache, key).Miss? ==> Search(records, cache, key).cache.rows == 0
    decreases records
  {
    if |records| > 1 {
      SearchEndsClean(records[1..], After(cache, records[0]), key);
    }
  }

  /* ----------- directories in which old long-name text does not matter ----------- */

  /** The long-name rows in use, and those written since the last reset. */
  datatype Pending = Pending(rows: nat, filled: set<nat>) {

    ghost function Next(r: Record): Pending {
      var index := r[0] % 0x20;
      if !IsLfnText(r) then NOTHING
      else if index == 0 || index > LFN_ROWS then this
      else Pending(if rows == 0 then index else rows, filled + {index - 1})
    }

    ghost predicate Whole() {
      forall k :: 0 <= k < rows ==> k in filled
    }
  }

  ghost const NOTHING := Pending(0, {})

  /** Every name with long-name records has all its rows. */
  ghost predicate Complete(records: seq<Record>, pending: Pending)
    decreases records
  {
    records == [] ||
    ((IsLive(records[0]) ==> pending.Whole()) && Complete(records[1..], pending.Next(records[0])))
  }

  function RowText(c: LfnCache, k: nat): seq<byte>
    requires c.Valid() && k < LFN_ROWS
  {
    c.text[LFN_CHARS * k..LFN_CHARS * (k + 1)]
  }

  /** Two caches with the same rows in use and the same text in the filled ones. */
  ghost predicate Agree(c: LfnCache, d: LfnCache, filled: set<nat>) {
    && c.Valid() && d.Valid() && c.rows == d.rows
    && forall k :: k in filled && k < LFN_ROWS ==> RowText(c, k) == RowText(d, k)
  }

  lemma AgreeAdd(c: LfnCache, d: LfnCache, filled: set<nat>, r: Record)
    requires Agree(c, d, filled) && 1 <= r[0] % 0x20 <= LFN_ROWS
    ensures Agree(c.Add(r), d.Add(r), filled + {r[0] % 0x20 - 1})
  {
    hide Row;
    var index := r[0] % 0x20;
    var c', d' := c.Add(r), d.Add(r);
    forall k | k in filled + {index - 1} && k < LFN_ROWS ensures RowText(c', k) == RowText(d', k) {
      if k == index - 1 {
        assert RowText(c', k) == Row(r) == RowText(d', k);
      } else {
        assert RowText(c', k) == RowText(c, k);
        assert RowText(d', k) == RowText(d, k);
      }
    }
  }

  lemma {:induction false} AgreeText(c: LfnCache, d: LfnCache, filled: set<nat>, k: nat)
    requires Agree(c, d, filled) && k <= LFN_ROWS
    requires forall j :: 0 <= j < k ==> j in filled
    ensures c.text[..LFN_CHARS * k] == d.text[..LFN_CHARS * k]
  {
    if k > 0 {
      AgreeText(c, d, filled, k - 1);
      assert RowText(c, k - 1) == RowText(d, k - 1);
      assert c.text[..LFN_CHARS * k] == c.text[..LFN_CHARS * (k - 1)] + RowText(c, k - 1);
      assert d.text[..LFN_CHARS * k] == d.text[..LFN_CHARS * (k - 1)] + RowText(d, k - 1);
    }
  }

  lemma StepAgree(c: LfnCache, d: LfnCache, pending: Pending, r: Record, key: NameKey)
    requires Agree(c, d, pending.filled) && pending.rows == c.rows
    requires IsLive(r) ==> pending.Whole()
    ensures Matches(c, r, key) == Matches(d, r, key)
    ensures Agree(After(c, r), After(d, r), pending.Next(r).filled)
    ensures After(c, r).rows == pending.Next(r).rows
  {
    hide Key, Row, CString, ShortDisplay;
    if IsLfnText(r) {
      if 1 <= r[0] % 0x20 <= LFN_ROWS {
        AgreeAdd(c, d, pending.filled, r);
      }
    } else if IsLive(r) {
      AgreeText(c, d, pending.filled, c.rows);
    }
  }

  /** In a complete directory the outcome of a search does not depend on old text. */
  lemma {:induction false} SearchAgree(records: seq<Record>, c: LfnCache, d: LfnCache, pending: Pending, key: NameKey)
    requires Agree(c, d, pending.filled) && pending.rows == c.rows && Complete(records, pending)
    ensures Search(records, c, key).Hit? == Search(records, d, key).Hit?
    ensures Search(records, c, key).Hit? ==> Search(records, c, key).index == Search(records, d, key).index
    decreases records
  {
    hide After, Matches, RowText, Pending.Next, Pending.Whole;
    if records != [] {
      StepAgree(c, d, pending, records[0], key);
      SearchAgree(records[1..], After(c, records[0]), After(d, records[0]), pending.Next(records[0]), key);
    }
  }
}
