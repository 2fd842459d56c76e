/** Comparing file names: without regard to case, or to spaces before the extension. */
module Names {

  import opened Words

  const DOT: byte := 0x2E
  const SPACE: byte := 0x20

  function Lower(b: byte): byte {
    if 0x41 <= b <= 0x5A then b + 32 else b
  }

  function LowerAll(s: seq<byte>): (r: seq<byte>)
    ensures |r| == |s|
  {
    seq(|s|, i requires 0 <= i < |s| => Lower(s[i]))
  }

  /** The position of the last dot, or -1. */
  function LastDot(s: seq<byte>): (p: int)
    ensures -1 <= p < |s|
    ensures p >= 0 ==> s[p] == DOT
    ensures forall i :: p < i < |s| ==> s[i] != DOT
  {
    if s == [] then -1 else if s[|s| - 1] == DOT then |s| - 1 else LastDot(s[..|s| - 1])
  }

  /** How much is left without trailing spaces. */
  function Trimmed(s: seq<byte>): (n: nat)
    ensures n <= |s|
    ensures n > 0 ==> s[n - 1] != SPACE
    ensures forall i :: n <= i < |s| ==> s[i] == SPACE
  {
    if s == [] || s[|s| - 1] != SPACE then |s| else Trimmed(s[..|s| - 1])
  }

  /** What a name means in a directory: two names match exactly when these are equal. */
  datatype NameKey = NameKey(base: seq<byte>, hasExtension: bool, extension: seq<byte>)

  function Base(s: seq<byte>): seq<byte> {
    if LastDot(s) == -1 then s else s[..LastDot(s)]
  }

  function Extension(s: seq<byte>): seq<byte> {
    if LastDot(s) == -1 then [] else s[LastDot(s) + 1..]
  }

  /** A base without trailing spaces, in lower case. */
  function BaseKey(s: seq<byte>): seq<byte> {
    LowerAll(s[..Trimmed(s)])
  }

  function Key(s: seq<byte>): NameKey {
    NameKey(BaseKey(Base(s)), LastDot(s) != -1, LowerAll(Extension(s)))
  }

  /** FileString_GetExtension */
  method GetExtension(str: seq<byte>) returns (dotPos: int)
    ensures dotPos == LastDot(str)
  {
    dotPos := -1;
    var i := 0;
    while i < |str|
      invariant 0 <= i <= |str|
      invariant -1 <= dotPos < i
      invariant dotPos >= 0 ==> str[dotPos] == DOT
      invariant forall j :: dotPos < j < i ==> str[j] != DOT
    {
      if str[i] == DOT {
        dotPos := i;
      }
      i := i + 1;
    }
  }

  /** FileString_TrimLength */
  method TrimLength(str: seq<byte>, strLen: nat) returns (length: nat)
    requires strLen <= |str|
    ensures length == Trimmed(str[..strLen])
  {
    length := strLen;
    var left := strLen;
    while left != 0
      invariant left <= strLen
      invariant length == left
      invariant forall i :: length <= i < strLen ==> str[i] == SPACE
    {
      if str[left - 1] == SPACE {
        length := left - 1;
      } else {
        break;
      }
      left := left - 1;
    }
  }

  /** FileString_StrCmpNoCase, on strings at least n long: zero when they agree. */
  method StrCmpNoCase(s1: seq<byte>, s2: seq<byte>, n: nat) returns (diff: int)
    requires n <= |s1| && n <= |s2|
    ensures diff == 0 <==> LowerAll(s1[..n]) == LowerAll(s2[..n])
  {
    var i := 0;
    while i < n
      invariant 0 <= i <= n
      invariant forall j :: 0 <= j < i ==> Lower(s1[j]) == Lower(s2[j])
    {
      var a: int, b: int := Lower(s1[i]), Lower(s2[i]);
      diff := a - b;
      if diff != 0 {
        assert LowerAll(s1[..n])[i] != LowerAll(s2[..n])[i];
        return;
      }
      i := i + 1;
    }
    diff := 0;
  }

  /** The same on whole strings. */
  method EqualNoCase(s1: seq<byte>, s2: seq<byte>) returns (eq: bool)
    ensures eq <==> LowerAll(s1) == LowerAll(s2)
  {
    if |s1| != |s2| {
      assert |LowerAll(s1)| != |LowerAll(s2)|;
      return false;
    }
    assert s1[..|s1|] == s1 && s2[..|s1|] == s2;
    var diff := StrCmpNoCase(s1, s2, |s1|);
    eq := diff == 0;
  }

  /** Its comparison of the parts before the extensions, without trailing spaces. */
  method CompareBases(strA: seq<byte>, lenA: nat, strB: seq<byte>, lenB: nat) returns (same: bool)
    requires lenA <= |strA| && lenB <= |strB|
    ensures same <==> BaseKey(strA[..lenA]) == BaseKey(strB[..lenB])
  {
    hide LowerAll, Trimmed;
    var file1Len := TrimLength(strA, lenA);
    var file2Len := TrimLength(strB, lenB);
    assert strA[..lenA][..file1Len] == strA[..file1Len] && strB[..lenB][..file2Len] == strB[..file2Len];
    same := EqualNoCase(strA[..file1Len], strB[..file2Len]);
  }

  lemma KeysEqual(a: seq<byte>, b: seq<byte>)
    ensures Key(a) == Key(b) <==>
              (LastDot(a) == -1 <==> LastDot(b) == -1) && BaseKey(Base(a)) == BaseKey(Base(b)) &&
                  LowerAll(Extension(a)) == LowerAll(Extension(b))
  {
  }

  lemma WithoutDot(s: seq<byte>)
    requires LastDot(s) == -1
    ensures Base(s) == s[..|s|] && Extension(s) == []
  {
  }

  lemma WithDot(s: seq<byte>)
    requires LastDot(s) != -1
    ensures Base(s) == s[..LastDot(s)] && Extension(s) == s[LastDot(s) + 1..]
  {
  }

  /** The same byte, or the same letter of the alphabet in capital and small. */
  predicate SameLetter(a: byte, b: byte) {
    a == b || (0x41 <= a <= 0x5A && b == a + 32) || (0x41 <= b <= 0x5A && a == b + 32)
  }

  predicate Alike(a: seq<byte>, b: seq<byte>) {
    |a| == |b| && forall i :: 0 <= i < |a| ==> SameLetter(a[i], b[i])
  }

  lemma AlikeIsLower(a: seq<byte>, b: seq<byte>)
    ensures Alike(a, b) <==> LowerAll(a) == LowerAll(b)
  {
    if |a| == |b| {
      assert forall i :: 0 <= i < |a| ==> (SameLetter(a[i], b[i]) <==> LowerAll(a)[i] == LowerAll(b)[i]);
    } else {
      assert |LowerAll(a)| == |a| && |LowerAll(b)| == |b|;
    }
  }

  /** The parts in front of the last dots, without trailing spaces, and those behind them. */
  predicate NamesMatch(a: seq<byte>, b: seq<byte>) {
    var p, q := LastDot(a), LastDot(b);
    if p == -1 || q == -1 then
      p == q && Alike(a[..Trimmed(a)], b[..Trimmed(b)])
    else
      && Alike(a[p + 1..], b[q + 1..])
      && Alike(a[..p][..Trimmed(a[..p])], b[..q][..Trimmed(b[..q])])
  }

  lemma BasesMatch(a: seq<byte>, b: seq<byte>)
    ensures BaseKey(a) == BaseKey(b) <==> Alike(a[..Trimmed(a)], b[..Trimmed(b)])
  {
    hide LowerAll, Trimmed, Alike;
    AlikeIsLower(a[..Trimmed(a)], b[..Trimmed(b)]);
  }

  /** Names have equal keys exactly when they match byte for byte, but for the case of letters. */
  lemma KeysMatch(a: seq<byte>, b: seq<byte>)
    ensures Key(a) == Key(b) <==> NamesMatch(a, b)
  {
    hide Key, LowerAll, LastDot, Trimmed, Alike, Base, Extension, BaseKey;
    KeysEqual(a, b);
    var p, q := LastDot(a), LastDot(b);
    if p == -1 && q == -1 {
      WithoutDot(a);
      WithoutDot(b);
      assert a[..|a|] == a && b[..|b|] == b;
      BasesMatch(a, b);
    } else if p != -1 && q != -1 {
      WithDot(a);
      WithDot(b);
      AlikeIsLower(a[p + 1..], b[q + 1..]);
      BasesMatch(a[..p], b[..q]);
    }
  }

  lemma DotsAlike(a: seq<byte>, b: seq<byte>)
    requires Alike(a, b)
    ensures LastDot(a) == LastDot(b)
  {
    assert forall i :: 0 <= i < |a| ==> (a[i] == DOT <==> b[i] == DOT);
  }

  lemma TrimmedAlike(a: seq<byte>, b: seq<byte>)
    requires Alike(a, b)
    ensures Trimmed(a) == Trimmed(b)
  {
    assert forall i :: 0 <= i < |a| ==> (a[i] == SPACE <==> b[i] == SPACE);
  }

  lemma CaseMatches(a: seq<byte>, b: seq<byte>)
    requires Alike(a, b)
    ensures NamesMatch(a, b)
  {
    hide Alike, LastDot, Trimmed;
    DotsAlike(a, b);
    var p := LastDot(a);
    if p == -1 {
      TrimmedAlike(a, b);
      AlikePart(a, b, 0, Trimmed(a));
      assert a[0..Trimmed(a)] == a[..Trimmed(a)] && b[0..Trimmed(a)] == b[..Trimmed(a)];
    } else {
      AlikePart(a, b, 0, p);
      AlikePart(a, b, p + 1, |a|);
      assert a[0..p] == a[..p] && b[0..p] == b[..p] && a[p + 1..|a|] == a[p + 1..] && b[p + 1..|a|] == b[p + 1..];
      TrimmedAlike(a[..p], b[..p]);
      AlikePart(a[..p], b[..p], 0, Trimmed(a[..p]));
    }
  }

  lemma AlikePart(a: seq<byte>, b: seq<byte>, from: nat, to: nat)
    requires Alike(a, b) && from <= to <= |a|
    ensures |b| == |a| && Alike(a[from..to], b[from..to])
  {
  }

  lemma AlikeJoin(a: seq<byte>, b: seq<byte>, p: nat)
    requires p < |a| && p < |b| && Alike(a[..p], b[..p]) && a[p] == b[p] && Alike(a[p + 1..], b[p + 1..])
    ensures Alike(a, b)
  {
    forall i | 0 <= i < |a| ensures |a| == |b| && SameLetter(a[i], b[i]) {
      if i < p {
        assert a[i] == a[..p][i] && b[i] == b[..p][i];
      } else if i > p {
        assert a[i] == a[p + 1..][i - p - 1] && b[i] == b[p + 1..][i - p - 1];
      }
    }
  }

  lemma OnlyCaseMatches(a: seq<byte>, b: seq<byte>)
    requires SPACE !in a && SPACE !in b && NamesMatch(a, b)
    ensures Alike(a, b)
  {
    hide LastDot, Trimmed, Alike;
    var p, q := LastDot(a), LastDot(b);
    if p == -1 {
      NoSpaces(a, |a|);
      NoSpaces(b, |b|);
    } else {
      NoSpaces(a, p);
      NoSpaces(b, q);
      AlikeLength(a[..p], b[..q]);
      AlikeJoin(a, b, p);
    }
  }

  lemma AlikeLength(a: seq<byte>, b: seq<byte>)
    requires Alike(a, b)
    ensures |a| == |b|
  {
  }

  /** Names that differ in the case of letters alone match; without spaces in them no others do. */
  lemma AlikeMatch(a: seq<byte>, b: seq<byte>)
    ensures Alike(a, b) ==> Key(a) == Key(b)
    ensures SPACE !in a && SPACE !in b && Key(a) == Key(b) ==> Alike(a, b)
  {
    hide Key, Alike, NamesMatch;
    KeysMatch(a, b);
    if Alike(a, b) {
      CaseMatches(a, b);
    } else if SPACE !in a && SPACE !in b && Key(a) == Key(b) {
      OnlyCaseMatches(a, b);
    }
  }

  lemma NoSpaces(a: seq<byte>, n: nat)
    requires SPACE !in a && n <= |a|
    ensures Trimmed(a[..n]) == n && a[..n][..n] == a[..n] && (n == |a| ==> a[..n] == a)
  {
  }

  /** fatfs_compare_names: an equivalence on names, the equality of their keys. */
  method CompareNames(strA: seq<byte>, strB: seq<byte>) returns (same: bool)
    ensures same <==> Key(strA) == Key(strB)
    ensures same <==> NamesMatch(strA, strB)
  {
    hide LowerAll, LastDot, BaseKey, Key, Base, Extension, NamesMatch;
    KeysMatch(strA, strB);
    var ext1Pos := GetExtension(strA);
    var ext2Pos := GetExtension(strB);
    KeysEqual(strA, strB);
    same := false;
    if ext1Pos == -1 && ext2Pos == -1 {
      WithoutDot(strA);
      WithoutDot(strB);
      same := CompareBases(strA, |strA|, strB, |strB|);
    } else if ext1Pos != -1 && ext2Pos != -1 {
      WithDot(strA);
      WithDot(strB);
      same := EqualNoCase(strA[ext1Pos + 1..], strB[ext2Pos + 1..]);
      if same {
        same := CompareBases(strA, ext1Pos, strB, ext2Pos);
      }
    }
  }
}
