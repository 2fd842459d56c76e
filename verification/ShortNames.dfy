/** Making a short name for a long one: the 8.3 form, and numeric tails for duplicates. */
module ShortNames {

  import opened Words
  import opened DirRecords
  import opened Names
  import opened DirShort

  const TILDE: byte := 0x7E
  const MAX_TAIL := 9999   // where the search for an unused tail gives up

  function Upper(b: byte): byte {
    if 0x61 <= b <= 0x7A then b - 32 else b
  }

  /** A capital letter for a small one, any other byte as it is. */
  lemma UpperIs(b: byte)
    ensures SameLetter(b, Upper(b)) && !(0x61 <= Upper(b) <= 0x7A)
  {
  }

  /** The characters that go into the base: no spaces, no dots, upper case. */
  function Squeeze(s: seq<byte>): (r: seq<byte>)
    ensures |r| <= |s|
    ensures 0 !in s ==> 0 !in r
  {
    if s == [] then []
    else
      var c := s[|s| - 1];
      Squeeze(s[..|s| - 1]) + if c == SPACE || c == DOT then [] else [Upper(c)]
  }

  /** Spaces and dots are dropped wherever they are. */
  lemma {:induction false} SqueezeDrops(a: seq<byte>, c: byte, b: seq<byte>)
    requires c == SPACE || c == DOT
    ensures Squeeze(a + [c] + b) == Squeeze(a + b)
    decreases |b|
  {
    hide Upper;
    if b == [] {
      assert (a + [c] + b)[..|a|] == a && a + b == a;
    } else {
      var n := |b| - 1;
      SqueezeDrops(a, c, b[..n]);
      assert (a + [c] + b)[..|a| + 1 + n] == a + [c] + b[..n] && (a + b)[..|a| + n] == a + b[..n];
    }
  }

  lemma {:induction false} SqueezePrefix(s: seq<byte>, i: nat)
    requires i <= |s|
    ensures Squeeze(s[..i]) <= Squeeze(s)
  {
    if i < |s| {
      SqueezePrefix(s[..|s| - 1], i);
      assert s[..|s| - 1][..i] == s[..i];
    } else {
      assert s[..i] == s;
    }
  }

  /** The first n bytes, filled up with spaces. */
  function Padded(s: seq<byte>, n: nat): (r: seq<byte>)
    ensures |r| == n
    ensures 0 !in s ==> 0 !in r
  {
    seq(n, i requires 0 <= i < n => if i < |s| then s[i] else SPACE)
  }

  function UpperAll(s: seq<byte>): (r: seq<byte>)
    ensures |r| == |s|
    ensures 0 !in s ==> 0 !in r
  {
    seq(|s|, i requires 0 <= i < |s| => Upper(s[i]))
  }

  /** The short form of a name without a tail. */
  function SfnOf(name: seq<byte>): (r: ShortName)
    ensures 0 !in name ==> 0 !in r
  {
    Padded(Squeeze(Base(name)), 8) + UpperAll(Padded(Extension(name), 3))
  }

  /** The loop of fatfs_lfn_create_sfn over the base of the name. */
  method SqueezeBase(base: seq<byte>) returns (r: seq<byte>)
    ensures r == Padded(Squeeze(base), 8)
  {
    r := Padded([], 8);
    var pos, i := 0, 0;
    while i < |base|
      invariant 0 <= i <= |base| && |r| == 8 && pos < 8
      invariant |Squeeze(base[..i])| == pos && r == Padded(Squeeze(base[..i]), 8)
    {
      assert base[..i + 1][..i] == base[..i];
      if base[i] != SPACE && base[i] != DOT {
        r := r[pos := Upper(base[i])];
        pos := pos + 1;
      }
      i := i + 1;
      if pos == 8 {
        SqueezePrefix(base, i);
        return;
      }
    }
    assert base[..i] == base;
  }

  /** fatfs_lfn_create_sfn.  For a name that starts with a dot it gives up, and the caller's
      buffer keeps what was in it. */
  method CreateSfn(was: ShortName, filename: seq<byte>) returns (ok: bool, sfn: ShortName)
    ensures ok <==> !(filename != [] && filename[0] == DOT)
    ensures sfn == if ok then SfnOf(filename) else was
  {
    if filename != [] && filename[0] == DOT {
      return false, was;
    }
    var dotPos := GetExtension(filename);
    var ext: seq<byte> := Padded([], 3);
    var len := |filename|;
    if dotPos != -1 {
      var i := dotPos + 1;
      while i < dotPos + 1 + 3
        invariant dotPos + 1 <= i <= dotPos + 4 && |ext| == 3
        invariant forall j :: 0 <= j < 3 ==>
                    ext[j] == if j < i - dotPos - 1 && dotPos + 1 + j < |filename| then filename[dotPos + 1 + j]
                        else SPACE
      {
        if i < |filename| {
          ext := ext[i - (dotPos + 1) := filename[i]];
        }
        i := i + 1;
      }
      len := dotPos;
    }
    assert ext == Padded(Extension(filename), 3);
    assert filename[..len] == Base(filename);
    var base := SqueezeBase(filename[..len]);
    ok, sfn := true, base + UpperAll(ext);
  }

  /* ----------- tails ----------- */

  /** A number in decimal. */
  function Digits(n: nat): (s: seq<byte>)
    ensures |s| >= 1
    ensures forall i :: 0 <= i < |s| ==> 0x30 <= s[i] <= 0x39
  {
    (if n < 10 then [] else Digits(n / 10)) + [0x30 + n % 10]
  }

  /** The number that is written so. */
  function Decimal(s: seq<byte>): int {
    if s == [] then 0
    else
      var last: int := s[|s| - 1];
      10 * Decimal(s[..|s| - 1]) + (last - 0x30)
  }

  lemma {:induction false} DigitsSay(n: nat)
    ensures Decimal(Digits(n)) == n && (n > 0 ==> Digits(n)[0] != 0x30)
  {
    var s := Digits(n);
    if n >= 10 {
      DigitsSay(n / 10);
      assert s[..|s| - 1] == Digits(n / 10);
    } else {
      assert s[..|s| - 1] == [];
    }
  }

  lemma {:induction false} DigitsInjective(m: nat, n: nat)
    requires Digits(m) == Digits(n)
    ensures m == n
    decreases m
  {
    var a, b := Digits(m), Digits(n);
    assert a[|a| - 1] == 0x30 + m % 10 && b[|b| - 1] == 0x30 + n % 10;
    if m >= 10 && n >= 10 {
      assert a[..|a| - 1] == Digits(m / 10) && b[..|b| - 1] == Digits(n / 10);
      DigitsInjective(m / 10, n / 10);
    }
  }

  lemma DigitsShort(n: nat)
    ensures n < 10000 ==> |Digits(n)| <= 4
    ensures n < 100000 ==> |Digits(n)| <= 5
  {
    if n < 100000 {
      assert n / 10 < 10000 && n / 100 < 1000 && n / 1000 < 100 && n / 10000 < 10;
      assert n / 10 / 10 == n / 100 && n / 100 / 10 == n / 1000 && n / 1000 / 10 == n / 10000;
      assert |Digits(n / 10000)| == 1;
      assert |Digits(n / 1000)| <= 2;
      assert |Digits(n / 100)| <= 3;
      assert |Digits(n / 10)| <= 4;
      assert n < 10000 ==> |Digits(n / 1000)| == 1;
      assert n < 10000 ==> |Digits(n / 100)| <= 2;
      assert n < 10000 ==> |Digits(n / 10)| <= 3;
    }
  }

  function Reverse(s: seq<byte>): (r: seq<byte>)
    ensures |r| == |s|
  {
    seq(|s|, i requires 0 <= i < |s| => s[|s| - 1 - i])
  }

  /** The digits in front of those already taken: none for 0. */
  function Before(rest: nat): seq<byte> {
    if rest == 0 then [] else Digits(rest)
  }

  lemma FirstDigit(num: nat)
    ensures Digits(num) == Before(num / 10) + Reverse([0x30 + num % 10])
    ensures Before(0) == []
  {
    assert Reverse([0x30 + num % 10]) == [0x30 + num % 10];
  }

  lemma Reversed(outbuf: seq<byte>, s: seq<byte>)
    requires |s| == |outbuf| && forall i :: 0 <= i < |s| ==> s[i] == outbuf[|outbuf| - 1 - i]
    ensures s == Reverse(outbuf)
  {
  }

  lemma LastDigit(n: nat)
    requires n > 0
    ensures Before(n) == Before(n / 10) + [0x30 + n % 10]
  {
  }

  lemma ReverseMore(s: seq<byte>, b: byte)
    ensures Reverse(s + [b]) == [b] + Reverse(s)
  {
  }

  lemma NextDigit(rest: nat, outbuf: seq<byte>)
    requires rest > 0
    ensures Before(rest) + Reverse(outbuf) == Before(rest / 10) + Reverse(outbuf + [0x30 + rest % 10])
  {
    LastDigit(rest);
    var d: byte := 0x30 + rest % 10;
    ReverseMore(outbuf, d);
    hide Before, Reverse;
    assert Before(rest / 10) + [d] + Reverse(outbuf) == Before(rest / 10) + ([d] + Reverse(outbuf));
  }

  /** fatfs_itoa: digits from the last to the first, then turned round. */
  method Itoa(num: nat) returns (s: seq<byte>)
    ensures s == Digits(num)
  {
    hide Digits, Before, Reverse;
    FirstDigit(num);
    var outbuf: seq<byte> := [0x30 + num % 10];
    var rest: nat := num / 10;
    while rest > 0
      invariant |outbuf| >= 1
      invariant Digits(num) == Before(rest) + Reverse(outbuf)
    {
      NextDigit(rest, outbuf);
      outbuf := outbuf + [0x30 + rest % 10];
      rest := rest / 10;
    }
    s := [];
    var cp: nat := |outbuf|;
    while cp > 0
      invariant 0 <= cp <= |outbuf| && |s| == |outbuf| - cp
      invariant forall i :: 0 <= i < |s| ==> s[i] == outbuf[|outbuf| - 1 - i]
    {
      cp := cp - 1;
      s := s + [outbuf[cp]];
    }
    Reversed(outbuf, s);
  }

  /** The base with its end overwritten by a tilde and the number. */
  function Tailed(sfn: ShortName, n: nat): ShortName
    requires n <= 99999
  {
    DigitsShort(n);
    var tail := [TILDE] + Digits(n);
    sfn[..8 - |tail|] + tail + sfn[8..]
  }

  /** fatfs_lfn_generate_tail */
  method GenerateTail(was: ShortName, sfn: ShortName, tailNum: nat) returns (ok: bool, r: ShortName)
    ensures ok <==> tailNum <= 99999
    ensures r == if ok then Tailed(sfn, tailNum) else was
  {
    if tailNum > 99999 {
      return false, was;
    }
    DigitsShort(tailNum);
    var digits := Itoa(tailNum);
    var tail := [TILDE] + digits;
    ok, r := true, sfn[..8 - |tail|] + tail + sfn[8..];
  }

  /** The name with a tail: what is left of the base, a tilde, and the number in decimal. */
  lemma TailSays(sfn: ShortName, n: nat) returns (p: nat)
    requires n <= 99999
    ensures var r := Tailed(sfn, n);
            && 2 <= p < 7 && r[..p] == sfn[..p] && r[p] == 0x7E && r[8..] == sfn[8..]
            && (forall i :: p < i < 8 ==> 0x30 <= r[i] <= 0x39)
            && Decimal(r[p + 1..8]) == n && (n > 0 ==> r[p + 1] != 0x30)
  {
    DigitsShort(n);
    DigitsSay(n);
    hide Digits, Decimal;
    p := 7 - |Digits(n)|;
    assert Tailed(sfn, n)[p + 1..8] == Digits(n);
  }

  /** Different tails on one base make different names. */
  lemma TailsDiffer(sfn: ShortName, m: nat, n: nat)
    requires m < n <= 99999
    ensures Tailed(sfn, m) != Tailed(sfn, n)
  {
    DigitsShort(m);
    DigitsShort(n);
    var a, b, d, e := Tailed(sfn, m), Tailed(sfn, n), Digits(m), Digits(n);
    assert a[8 - |d| - 1] == TILDE && b[8 - |e| - 1] == TILDE;
    if |d| < |e| {
      assert b[8 - |d| - 1] == e[|e| - |d| - 1];
    } else if |e| < |d| {
      assert a[8 - |e| - 1] == d[|d| - |e| - 1];
    } else {
      assert a[8 - |d|..8] == d && b[8 - |e|..8] == e;
      if d == e {
        DigitsInjective(m, n);
      }
    }
  }

  /** The n-th name the search tries. */
  function Candidate(name: seq<byte>, n: nat): ShortName
    requires n <= 99999
  {
    if n == 0 then SfnOf(name) else Tailed(SfnOf(name), n)
  }

  /** The plain form is tried first, then the tails from 1 on. */
  lemma CandidateSays(name: seq<byte>, n: nat) returns (p: nat)
    requires n <= 99999
    ensures n == 0 ==> Candidate(name, n) == SfnOf(name)
    ensures n > 0 ==>
              && 2 <= p < 7 && Candidate(name, n)[..p] == SfnOf(name)[..p] && Candidate(name, n)[p] == 0x7E
              && Decimal(Candidate(name, n)[p + 1..8]) == n
  {
    p := TailSays(SfnOf(name), n);
    hide SfnOf, Tailed, Decimal;
  }

  lemma {:induction false} WholeCString(s: seq<byte>)
    requires 0 !in s
    ensures CString(s) == s
  {
    CStringUpTo(s, s);
  }

  lemma CandidateText(name: seq<byte>, n: nat)
    requires 0 !in name && n <= 99999
    ensures CString(Candidate(name, n)) == Candidate(name, n)
    ensures n < 10000 ==> Candidate(name, n)[0] == SfnOf(name)[0]
  {
    hide SfnOf;
    DigitsShort(n);
    assert 0 !in Candidate(name, n);
    hide Candidate, Tailed, Digits;
    WholeCString(Candidate(name, n));
  }

  predicate Used(records: seq<Record>, shortName: ShortName) {
    FirstShort(records, 0, shortName) < |records|
  }

  function LiveSet(records: seq<Record>): set<nat> {
    set i: nat | 0 <= i < |records| && IsLive(records[i])
  }

  /** As many live records as tails from 1 to n that are in use. */
  lemma {:induction false} UsedTails(records: seq<Record>, name: seq<byte>, n: nat) returns (users: set<nat>)
    requires 0 !in name && n <= 9998
    requires forall k :: 1 <= k <= n ==> Used(records, Candidate(name, k))
    ensures |users| == n && users <= LiveSet(records)
    ensures forall i :: i in users ==> i < |records| && exists k ::
            1 <= k <= n && CString(Name(records[i])) == Candidate(name, k)
  {
    if n == 0 {
      users := {};
    } else {
      hide Candidate, CString, IsLive, FirstShort, LiveSet, Used;
      var before := UsedTails(records, name, n - 1);
      var i := UserOf(records, name, n);
      if i in before {
        NotUser(records, name, n, i);
      }
      users := before + {i};
    }
  }

  lemma NotUser(records: seq<Record>, name: seq<byte>, n: nat, i: nat)
    requires n <= 9998 && i < |records| && CString(Name(records[i])) == Candidate(name, n)
    ensures forall k :: 1 <= k <= n - 1 ==> CString(Name(records[i])) != Candidate(name, k)
  {
    hide Candidate, CString;
    forall k | 1 <= k <= n - 1 ensures Candidate(name, k) != Candidate(name, n) {
      TailsOf(name, k, n);
    }
  }

  /** The live record that uses a tail. */
  lemma UserOf(records: seq<Record>, name: seq<byte>, n: nat) returns (i: nat)
    requires 0 !in name && 1 <= n <= 9998 && Used(records, Candidate(name, n))
    ensures i in LiveSet(records) && i < |records| && CString(Name(records[i])) == Candidate(name, n)
  {
    hide Candidate, CString, IsLive;
    i := FirstShort(records, 0, Candidate(name, n));
    CandidateText(name, n);
  }

  lemma TailsOf(name: seq<byte>, m: nat, n: nat)
    requires 1 <= m < n <= 99999
    ensures Candidate(name, m) != Candidate(name, n)
  {
    TailsDiffer(SfnOf(name), m, n);
  }

  /** With fewer live records than tails, some tail is free. */
  lemma SomeTailFree(records: seq<Record>, name: seq<byte>) returns (n: nat)
    requires 0 !in name && |LiveSet(records)| < 9998
    ensures 1 <= n <= 9998 && !Used(records, Candidate(name, n))
  {
    if k :| 1 <= k <= 9998 && !Used(records, Candidate(name, k)) {
      n := k;
    } else {
      var users := UsedTails(records, name, 9998);
      SubsetSize(users, LiveSet(records));
      assert false;
    }
  }

  lemma {:induction false} SubsetSize(a: set<nat>, b: set<nat>)
    requires a <= b
    ensures |a| <= |b|
  {
    if a != {} {
      var x :| x in a;
      SubsetSize(a - {x}, b - {x});
    }
  }
}
