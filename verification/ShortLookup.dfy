/** Looking names up: what the case of letters does, and which names find a record without long-name records. */
module ShortLookup {

  import opened Words
  import opened Geometry
  import opened DirRecords
  import opened Names
  import opened DirSearch
  import opened ShortNames
  import opened DiskReader

  /** Names that differ in the case of letters alone find the same record, and so the same file. */
  lemma CaseFindsSame(g: Mounted, sectors: seq<Sector>, cluster: nat, records: seq<Record>, a: seq<byte>, b: seq<byte>)
    requires Alike(a, b) && |sectors| == g.total
    ensures Search(records, EMPTY_CACHE, Key(a)) == Search(records, EMPTY_CACHE, Key(b))
    ensures DiskRead(g, sectors, cluster, a) == DiskRead(g, sectors, cluster, b)
  {
    AlikeMatch(a, b);
    hide Key, Alike, Search;
  }

  /** No byte that means something in a name. */
  predicate Plain(s: seq<byte>) {
    DOT !in s && SPACE !in s && 0 !in s
  }

  /** The name with its extension, if there is one. */
  function Joined(base: seq<byte>, ext: seq<byte>): seq<byte> {
    if ext == [] then base else base + [DOT] + ext
  }

  lemma DisplayWithExtension(r: Record, base: seq<byte>, ext: seq<byte>)
    requires 1 <= |base| <= 8 && 1 <= |ext| <= 3 && Plain(base) && Plain(ext)
    requires r[..8] == Padded(base, 8) && r[8..11] == Padded(ext, 3)
    ensures ShortDisplay(r) == Padded(base, 8) + [DOT] + Padded(ext, 3)
  {
    assert r[8] == r[8..11][0] && r[0] == r[..8][0] == base[0];
    assert r[8] == ext[0] && ext[0] in ext && base[0] in base;
    WholeCString(Padded(base, 8) + [DOT] + Padded(ext, 3));
  }

  lemma DisplayWithout(r: Record, base: seq<byte>)
    requires 1 <= |base| <= 8 && Plain(base)
    requires r[..8] == Padded(base, 8) && r[8..11] == Padded([], 3)
    ensures ShortDisplay(r) == Padded(base, 12)
  {
    assert r[8] == r[8..11][0] && r[9] == r[8..11][1] && r[10] == r[8..11][2];
    assert Padded(base, 8) + [SPACE] + Padded([], 3) == Padded(base, 12);
    WholeCString(Padded(base, 12));
  }

  lemma PaddedTrims(s: seq<byte>, n: nat)
    requires SPACE !in s && |s| <= n
    ensures Trimmed(Padded(s, n)) == |s| && Padded(s, n)[..|s|] == s
  {
    if |s| > 0 {
      assert Padded(s, n)[|s| - 1] == s[|s| - 1];
    }
  }

  lemma LastDotAt(s: seq<byte>, t: seq<byte>)
    requires DOT !in t
    ensures LastDot(s + [DOT] + t) == |s|
  {
    hide LastDot;
    var w := s + [DOT] + t;
    forall i | |s| < i < |w| ensures w[i] != DOT {
      assert w[i] == t[i - |s| - 1] && t[i - |s| - 1] in t;
    }
    LastDotIs(w, |s|);
  }

  lemma LastDotIs(w: seq<byte>, p: nat)
    requires p < |w| && w[p] == DOT && forall i :: p < i < |w| ==> w[i] != DOT
    ensures LastDot(w) == p
  {
    hide LastDot;
  }

  lemma NoDot(s: seq<byte>)
    requires DOT !in s
    ensures LastDot(s) == -1
  {
  }

  /** A record with a short name alone answers to its name if there is no extension or one of
      three characters: the padding of a shorter one counts. */
  lemma ShortFoundExactly(r: Record, base: seq<byte>, ext: seq<byte>)
    requires 1 <= |base| <= 8 && |ext| <= 3 && Plain(base) && Plain(ext)
    requires r[..8] == Padded(base, 8) && r[8..11] == Padded(ext, 3)
    ensures Key(ShortDisplay(r)) == Key(Joined(base, ext)) <==> |ext| in {0, 3}
  {
    hide Key, ShortDisplay;
    if ext == [] {
      DisplayWithout(r, base);
      KeysMatch(Padded(base, 12), base);
      NoDot(Padded(base, 12));
      NoDot(base);
      PaddedTrims(base, 12);
      NoSpaces(base, |base|);
    } else {
      DisplayWithExtension(r, base, ext);
      var a, b := Padded(base, 8) + [DOT] + Padded(ext, 3), base + [DOT] + ext;
      KeysMatch(a, b);
      LastDotAt(Padded(base, 8), Padded(ext, 3));
      LastDotAt(base, ext);
      assert a[..8] == Padded(base, 8) && a[9..] == Padded(ext, 3) && b[..|base|] == base && b[|base| + 1..] == ext;
      PaddedTrims(base, 8);
      NoSpaces(base, |base|);
      if |ext| == 3 {
        assert Padded(ext, 3) == ext;
      }
    }
  }

  lemma JoinedAlike(a: seq<byte>, b: seq<byte>, base: seq<byte>, ext: seq<byte>)
    requires Alike(a, base) && Alike(b, ext)
    ensures Alike(Joined(a, b), Joined(base, ext))
  {
  }

  lemma {:induction false} PlainSqueezed(s: seq<byte>)
    requires Plain(s)
    ensures Squeeze(s) == UpperAll(s)
  {
    if s != [] {
      PlainSqueezed(s[..|s| - 1]);
    }
  }

  lemma PlainUpper(s: seq<byte>)
    requires Plain(s)
    ensures Plain(UpperAll(s)) && Alike(UpperAll(s), s)
  {
    forall i | 0 <= i < |s| ensures UpperAll(s)[i] !in {DOT, SPACE, 0} && SameLetter(UpperAll(s)[i], s[i]) {
      UpperIs(s[i]);
      assert s[i] in s;
    }
  }

  lemma UpperPadded(s: seq<byte>)
    ensures UpperAll(Padded(s, 3)) == Padded(UpperAll(s), 3)
  {
  }

  /** The short form of a name that has one already. */
  lemma SfnOfPlain(base: seq<byte>, ext: seq<byte>)
    requires 1 <= |base| <= 8 && |ext| <= 3 && Plain(base) && Plain(ext)
    ensures SfnOf(Joined(base, ext)) ==
            Padded(UpperAll(base), 8) + Padded(UpperAll(ext), 3)
  {
    PlainSqueezed(base);
    UpperPadded(ext);
    hide Squeeze, UpperAll;
    if ext == [] {
      NoDot(base);
    } else {
      LastDotAt(base, ext);
      assert (base + [DOT] + ext)[..|base|] == base && (base + [DOT] + ext)[|base| + 1..] == ext;
    }
  }

  /** So without long-name records the library finds the short names it makes for such names if
      there is no extension or one of three characters. */
  lemma OwnShortFound(r: Record, base: seq<byte>, ext: seq<byte>)
    requires 1 <= |base| <= 8 && |ext| <= 3 && Plain(base) && Plain(ext)
    requires r[..11] == SfnOf(Joined(base, ext))
    ensures Key(ShortDisplay(r)) == Key(Joined(base, ext)) <==> |ext| in {0, 3}
  {
    SfnOfPlain(base, ext);
    PlainUpper(base);
    PlainUpper(ext);
    hide Key, ShortDisplay, SfnOf, Plain, Joined, Alike, UpperAll;
    var a, b := UpperAll(base), UpperAll(ext);
    assert r[..8] == r[..11][..8] == Padded(a, 8) && r[8..11] == r[..11][8..] == Padded(b, 3);
    ShortFoundExactly(r, a, b);
    JoinedAlike(a, b, base, ext);
    AlikeMatch(Joined(a, b), Joined(base, ext));
  }

  /** The record of DATA.LOG answers to data.log. */
  lemma DataLog(r: Record)
    requires r[..8] == [0x44, 0x41, 0x54, 0x41, 0x20, 0x20, 0x20, 0x20] && r[8..11] == [0x4C, 0x4F, 0x47]
    ensures Key(ShortDisplay(r)) == Key([0x64, 0x61, 0x74, 0x61, 0x2E, 0x6C, 0x6F, 0x67])
  {
    hide Key, ShortDisplay;
    var base, ext: seq<byte> := [0x44, 0x41, 0x54, 0x41], [0x4C, 0x4F, 0x47];
    ShortFoundExactly(r, base, ext);
    AlikeMatch(base + [DOT] + ext, [0x64, 0x61, 0x74, 0x61, 0x2E, 0x6C, 0x6F, 0x67]);
  }
}
