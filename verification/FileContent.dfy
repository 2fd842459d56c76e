/** How writes through the sector buffer and around it change the bytes of a file. */
module FileContent {

  import opened Words
  import opened FatEntries
  import opened Geometry
  import opened ChainDefs
  import opened Chains
  import opened FileLayout
  import opened FileSpec

  function Max(a: nat, b: nat): nat {
    if a < b then b else a
  }

  /** Sectors touched by the first `bytes` bytes. */
  function SectorsFor(bytes: nat): nat {
    (bytes + SECTOR_SIZE - 1) / SECTOR_SIZE
  }

  /** The sectors of the file as they are on the medium. */
  function OnMedium(sectors: seq<Sector>, lbas: seq<nat>): (r: seq<Sector>)
    requires forall s :: 0 <= s < |lbas| ==> lbas[s] < |sectors|
    ensures |r| == |lbas|
  {
    seq(|lbas|, s requires 0 <= s < |lbas| => sectors[lbas[s]])
  }

  /** The file is as before, but for n sectors of data at `offset`; it may have grown. */
  ghost predicate SectorsReplaced(secs: seq<Sector>, secs': seq<Sector>, offset: nat, n: nat, data: seq<byte>)
    requires SECTOR_SIZE * n <= |data|
  {
    && |secs| <= |secs'| && offset + n <= |secs'|
    && (forall s :: offset <= s < offset + n ==> secs'[s] == Chunk(data, s - offset))
    && (forall s :: 0 <= s < |secs| && !(offset <= s < offset + n) ==> secs'[s] == secs[s])
  }

  /** The first len' bytes of secs' are the first len bytes of secs with data written at p. */
  ghost predicate Rewritten(secs: seq<Sector>, len: nat, secs': seq<Sector>, len': nat, p: nat, data: seq<byte>) {
    && p <= len <= SECTOR_SIZE * |secs|
    && len' == Max(len, p + |data|) <= SECTOR_SIZE * |secs'|
    && Content(secs', len') == Overwrite(Content(secs, len), p, data)
  }

  /** Consecutive writes are one write. */
  lemma RewrittenThen(secs0: seq<Sector>, len0: nat, secs1: seq<Sector>, len1: nat, secs2: seq<Sector>, len2: nat,
                      p: nat, a: seq<byte>, b: seq<byte>)
    requires Rewritten(secs0, len0, secs1, len1, p, a)
    requires Rewritten(secs1, len1, secs2, len2, p + |a|, b)
    ensures Rewritten(secs0, len0, secs2, len2, p, a + b)
  {
    OverwriteOverwrite(Content(secs0, len0), p, a, b);
  }

  /** More sectors behind the file do not change it. */
  lemma RewrittenNothing(secs: seq<Sector>, len: nat, secs': seq<Sector>, p: nat)
    requires secs <= secs' && p <= len <= SECTOR_SIZE * |secs|
    ensures Rewritten(secs, len, secs', len, p, [])
  {
    ContentPrefix(secs, secs', len);
    assert Overwrite(Content(secs, len), p, []) == Content(secs, len);
  }

  lemma ContentReplaced(secs: seq<Sector>, secs': seq<Sector>, len: nat, offset: nat, n: nat, data: seq<byte>)
    requires SECTOR_SIZE * n <= |data| && SectorsReplaced(secs, secs', offset, n, data)
    requires SECTOR_SIZE * offset <= len <= SECTOR_SIZE * |secs|
    ensures Rewritten(secs, len, secs', Max(len, SECTOR_SIZE * (offset + n)), SECTOR_SIZE * offset,
                      data[..SECTOR_SIZE * n])
  {
    var was, now := Content(secs, len), Content(secs', Max(len, SECTOR_SIZE * (offset + n)));
    var want := Overwrite(was, SECTOR_SIZE * offset, data[..SECTOR_SIZE * n]);
    assert |now| == |want|;
    forall k | 0 <= k < |now| ensures now[k] == want[k] {
      var s := k / SECTOR_SIZE;
      if offset <= s < offset + n {
        assert now[k] == Chunk(data, s - offset)[k % SECTOR_SIZE];
      }
    }
  }

  function Patch(sector: Sector, offset: nat, piece: seq<byte>): (r: Sector)
    requires offset + |piece| <= SECTOR_SIZE
  {
    sector[..offset] + piece + sector[offset + |piece|..]
  }

  lemma ContentPatched(secs: seq<Sector>, secs': seq<Sector>, len: nat, s: nat, base: Sector, offset: nat,
                       piece: seq<byte>)
    requires offset + |piece| <= SECTOR_SIZE
    requires s < |secs'| && |secs| <= |secs'|
    requires SECTOR_SIZE * s + offset <= len <= SECTOR_SIZE * |secs|
    requires s < |secs| ==> base == secs[s]
    requires secs'[s] == Patch(base, offset, piece)
    requires forall u :: 0 <= u < |secs| && u != s ==> secs'[u] == secs[u]
    ensures Rewritten(secs, len, secs', Max(len, SECTOR_SIZE * s + offset + |piece|), SECTOR_SIZE * s + offset, piece)
  {
    var was, now := Content(secs, len), Content(secs', Max(len, SECTOR_SIZE * s + offset + |piece|));
    var want := Overwrite(was, SECTOR_SIZE * s + offset, piece);
    assert |now| == |want|;
    forall k | 0 <= k < |now| ensures now[k] == want[k] {
    }
  }

  lemma ContentPrefix(secs: seq<Sector>, secs': seq<Sector>, len: nat)
    requires secs <= secs' && len <= SECTOR_SIZE * |secs|
    ensures Content(secs', len) == Content(secs, len)
  {
  }

  /** Whole sectors read are a slice of the file. */
  lemma ContentSlice(secs: seq<Sector>, len: nat, sector: nat, n: nat, data: seq<byte>)
    requires len <= SECTOR_SIZE * |secs| && SECTOR_SIZE * (sector + n) <= len
    requires |data| == SECTOR_SIZE * n
    requires forall s :: sector <= s < sector + n ==> Chunk(data, s - sector) == secs[s]
    ensures data == Content(secs, len)[SECTOR_SIZE * sector..SECTOR_SIZE * (sector + n)]
  {
    forall k | 0 <= k < |data| ensures data[k] == Content(secs, len)[SECTOR_SIZE * sector + k] {
      assert data[k] == Chunk(data, k / SECTOR_SIZE)[k % SECTOR_SIZE];
      assert secs[sector + k / SECTOR_SIZE] == Chunk(data, k / SECTOR_SIZE);
    }
  }

  lemma ContentPiece(secs: seq<Sector>, len: nat, sector: nat, offset: nat, n: nat)
    requires len <= SECTOR_SIZE * |secs| && SECTOR_SIZE * sector + offset + n <= len
    requires offset + n <= SECTOR_SIZE && 0 < n
    ensures secs[sector][offset..offset + n] == Content(secs,
                                                        len)[SECTOR_SIZE * sector + offset..SECTOR_SIZE * sector +
                                                             offset + n]
  {
  }

  /** Sectors read past the buffer are the logical ones, if the dirty one is not among them. */
  lemma FetchedIsLogical(sectors: seq<Sector>, lbas: seq<nat>, dirty: bool, address: nat, buffer: Sector,
                         secs: seq<Sector>, offset: nat, n: nat, data: seq<byte>)
    requires Coupled(sectors, lbas, dirty, address, buffer, secs)
    requires Fetched(sectors, lbas, offset, n, data)
    requires dirty ==> address < offset
    ensures offset + n <= |secs|
    ensures forall s :: offset <= s < offset + n ==> Chunk(data, s - offset) == secs[s]
  {
    forall s | offset <= s < offset + n ensures Chunk(data, s - offset) == secs[s] {
      assert lbas[s] < |sectors|;
    }
  }

  lemma OverwriteOverwrite(was: seq<byte>, p: nat, a: seq<byte>, b: seq<byte>)
    requires p <= |was|
    ensures Overwrite(Overwrite(was, p, a), p + |a|, b) == Overwrite(was, p, a + b)
  {
  }

  /** Writing the dirty buffered sector back leaves the logical sectors as they were; growing
      the chain may add some behind them. */
  lemma CoupledAfterFlush(g: Mounted, before: seq<Sector>, after: seq<Sector>, lbas: seq<nat>, lbas': seq<nat>,
                          address: nat, buffer: Sector, secs: seq<Sector>)
    returns (secs': seq<Sector>)
    requires Coupled(before, lbas, true, address, buffer, secs)
    requires Stored(g, before, after, lbas', address, 1, buffer)
    requires lbas <= lbas' && address < |lbas'|
    ensures secs <= secs' && |secs'| == |lbas'|
    ensures Coupled(after, lbas', false, address, buffer, secs')
  {
    secs' := OnMedium(after, lbas');
    forall s | 0 <= s < |secs| ensures secs'[s] == secs[s] {
      assert lbas'[s] < |after|;
    }
  }

  /** Writing whole sectors around an empty buffer replaces exactly those. */
  lemma CoupledAfterWrite(g: Mounted, before: seq<Sector>, after: seq<Sector>, lbas: seq<nat>, lbas': seq<nat>,
                          offset: nat, n: nat, data: seq<byte>, buffer: Sector, secs: seq<Sector>)
    returns (secs': seq<Sector>)
    requires SECTOR_SIZE * n <= |data|
    requires Coupled(before, lbas, false, LAST, buffer, secs)
    requires Stored(g, before, after, lbas', offset, n, data)
    requires lbas <= lbas' && offset + n <= |lbas'|
    ensures |secs'| == |lbas'| && SectorsReplaced(secs, secs', offset, n, data)
    ensures Coupled(after, lbas', false, LAST, buffer, secs')
  {
    secs' := OnMedium(after, lbas');
    forall s | 0 <= s < |secs'| ensures secs'[s] == if offset <= s < offset + n then Chunk(data, s - offset)
        else before[lbas'[s]] {
      assert lbas'[s] < |after|;
    }
  }

  /** One file has changed, growing at most; no sector but its own, the FAT's and FSInfo has. */
  ghost predicate Evolved(g: Mounted, fat: seq<nat>, chain: seq<nat>, sectors: seq<Sector>, fat': seq<nat>,
                          chain': seq<nat>, sectors': seq<Sector>) {
    && Grown(g.fatType, g.Limit(), fat, chain, fat', chain')
    && AllClusters(g, chain')
    && |fat| == g.Entries()
    && Capacity(g, fat', chain') == Capacity(g, fat, chain)
    && |sectors'| == |sectors|
    && forall l :: 0 <= l < |sectors| && !g.InMeta(l) && l !in Lbas(g, chain') ==> sectors'[l] == sectors[l]
  }

  lemma StoredEvolves(g: Mounted, fat: seq<nat>, chain: seq<nat>, sectors: seq<Sector>, fat': seq<nat>,
                      chain': seq<nat>, sectors': seq<Sector>, offset: nat, n: nat, data: seq<byte>)
    requires Grown(g.fatType, g.Limit(), fat, chain, fat', chain')
    requires AllClusters(g, chain') && |fat| == g.Entries()
    requires Capacity(g, fat', chain') == Capacity(g, fat, chain)
    requires SECTOR_SIZE * n <= |data| && Stored(g, sectors, sectors', Lbas(g, chain'), offset, n, data)
    ensures Evolved(g, fat, chain, sectors, fat', chain', sectors')
  {
  }

  lemma EvolvedSame(g: Mounted, fat: seq<nat>, chain: seq<nat>, sectors: seq<Sector>)
    requires Owns(g, fat, chain) && AllClusters(g, chain)
    ensures Evolved(g, fat, chain, sectors, fat, chain, sectors)
  {
  }

  lemma EvolvedTransitive(g: Mounted, fat0: seq<nat>, chain0: seq<nat>, sectors0: seq<Sector>, fat1: seq<nat>,
                          chain1: seq<nat>, sectors1: seq<Sector>, fat2: seq<nat>, chain2: seq<nat>,
      sectors2: seq<Sector>)
    requires Evolved(g, fat0, chain0, sectors0, fat1, chain1, sectors1)
    requires Evolved(g, fat1, chain1, sectors1, fat2, chain2, sectors2)
    ensures Evolved(g, fat0, chain0, sectors0, fat2, chain2, sectors2)
  {
    GrownTransitive(g.fatType, g.Limit(), fat0, chain0, fat1, chain1, fat2, chain2);
    LbasPrefix(g, chain1, chain2);
    assert forall l :: l in Lbas(g, chain1) ==> l in Lbas(g, chain2);
  }

  /** The buffer is ready for part of sector s to be changed: it has the sector in it, or the
      sector is the one after the last. */
  ghost predicate Ready(sectors: seq<Sector>, lbas: seq<nat>, dirty: bool, s: nat, buffer: Sector, secs: seq<Sector>) {
    && s != LAST
    && (dirty ==> Coupled(sectors, lbas, true, s, buffer, secs))
    && (!dirty ==> s <= |lbas| && Coupled(sectors, lbas, false, LAST, buffer, secs))
    && (s < |secs| ==> buffer == secs[s])
  }

  /** Changing it there changes the logical sector. */
  lemma EditReady(sectors: seq<Sector>, lbas: seq<nat>, dirty: bool, s: nat, buffer: Sector, secs: seq<Sector>,
                  edited: Sector)
    returns (secs': seq<Sector>)
    requires Ready(sectors, lbas, dirty, s, buffer, secs)
    ensures s <= |secs| && secs' == if s == |secs| then secs + [edited] else secs[s := edited]
    ensures Coupled(sectors, lbas, true, s, edited, secs')
  {
    secs' := if s == |secs| then secs + [edited] else secs[s := edited];
  }

  lemma PatchReady(sectors: seq<Sector>, lbas: seq<nat>, dirty: bool, s: nat, buffer: Sector, secs0: seq<Sector>,
                   secs: seq<Sector>, len: nat, offset: nat, piece: seq<byte>)
    returns (secs': seq<Sector>)
    requires Ready(sectors, lbas, dirty, s, buffer, secs) && secs0 <= secs
    requires offset + |piece| <= SECTOR_SIZE
    requires SECTOR_SIZE * s + offset <= len <= SECTOR_SIZE * |secs0|
    ensures |secs'| == Max(|secs|, s + 1)
    ensures Coupled(sectors, lbas, true, s, Patch(buffer, offset, piece), secs')
    ensures Rewritten(secs0, len, secs', Max(len, SECTOR_SIZE * s + offset + |piece|), SECTOR_SIZE * s + offset, piece)
  {
    secs' := EditReady(sectors, lbas, dirty, s, buffer, secs, Patch(buffer, offset, piece));
    hide Patch, Coupled;
    ContentPatched(secs0, secs', len, s, buffer, offset, piece);
  }

  /** Changes on the medium to the FAT alone concern no file. */
  lemma FatChangesOnly(g: Mounted, fat: seq<nat>, chain: seq<nat>, sectors: seq<Sector>, sectors': seq<Sector>,
                       dirty: bool, address: nat, buffer: Sector, secs: seq<Sector>)
    requires Owns(g, fat, chain) && AllClusters(g, chain)
    requires Coupled(sectors, Lbas(g, chain), dirty, address, buffer, secs)
    requires |sectors'| == |sectors|
    requires forall l :: 0 <= l < |sectors| && !g.InFat(l) ==> sectors'[l] == sectors[l]
    ensures Coupled(sectors', Lbas(g, chain), dirty, address, buffer, secs)
    ensures Evolved(g, fat, chain, sectors, fat, chain, sectors')
  {
    LbasInData(g, fat, chain);
    hide IsChain, Reserved, FreeCount, Lbas, AllClusters;
  }

  lemma EmptyBufferCoupled(sectors: seq<Sector>, lbas: seq<nat>, address: nat, buffer: Sector, secs: seq<Sector>,
                           buffer': Sector)
    requires Coupled(sectors, lbas, false, address, buffer, secs)
    ensures |secs| == |lbas|
    ensures Coupled(sectors, lbas, false, LAST, buffer', secs)
    ensures forall s :: 0 <= s < |secs| && buffer' == secs[s] ==> Coupled(sectors, lbas, false, s, buffer', secs)
    ensures forall s :: 0 <= s < |secs| ==> lbas[s] < |sectors| && sectors[lbas[s]] == secs[s]
  {
  }

  lemma NextPiece(data: seq<byte>, a: nat, n: nat)
    requires a + n <= |data|
    ensures data[..a] + data[a..][..n] == data[..a + n]
  {
  }

  /** The state of an open file and its volume. */
  datatype Snap = Snap(fat: seq<nat>, chain: seq<nat>, sectors: seq<Sector>, secs: seq<Sector>)

  /** From a to b, data was written at p: the file of len bytes has become one of len' bytes,
      nothing else has changed, and if the chain has grown, `goal` sectors need all of it. */
  ghost predicate Wrote(g: Mounted, a: Snap, len: nat, b: Snap, len': nat, p: nat, data: seq<byte>, goal: nat) {
    && Evolved(g, a.fat, a.chain, a.sectors, b.fat, b.chain, b.sectors)
    && Rewritten(a.secs, len, b.secs, len', p, data)
    && (|b.chain| > |a.chain| ==> Needed(g, |b.chain|, goal))
  }

  /** Reading moves the file on without changing it. */
  lemma ReadWroteNothing(g: Mounted, a: Snap, b: Snap, len: nat, goal: nat)
    requires Evolved(g, a.fat, a.chain, a.sectors, b.fat, b.chain, b.sectors)
    requires a.secs <= b.secs && len <= SECTOR_SIZE * |a.secs|
    requires |b.chain| > |a.chain| ==> Needed(g, |b.chain|, goal)
    ensures Wrote(g, a, len, b, len, 0, [], goal) && Content(b.secs, len) == Content(a.secs, len)
  {
    hide Evolved, Content, Needed;
    ContentPrefix(a.secs, b.secs, len);
    RewrittenNothing(a.secs, len, b.secs, 0);
  }

  lemma WroteNothing(g: Mounted, a: Snap, len: nat, p: nat, goal: nat)
    requires Owns(g, a.fat, a.chain) && AllClusters(g, a.chain)
    requires p <= len <= SECTOR_SIZE * |a.secs|
    ensures Wrote(g, a, len, a, len, p, [], goal)
  {
    RewrittenNothing(a.secs, len, a.secs, p);
    EvolvedSame(g, a.fat, a.chain, a.sectors);
  }

  lemma WroteThen(g: Mounted, a: Snap, len: nat, b: Snap, len1: nat, c: Snap, len2: nat, p: nat, data: seq<byte>,
                  more: seq<byte>, goal: nat)
    requires Wrote(g, a, len, b, len1, p, data, goal)
    requires Wrote(g, b, len1, c, len2, p + |data|, more, goal)
    ensures Wrote(g, a, len, c, len2, p, data + more, goal)
  {
    EvolvedTransitive(g, a.fat, a.chain, a.sectors, b.fat, b.chain, b.sectors, c.fat, c.chain, c.sectors);
    RewrittenThen(a.secs, len, b.secs, len1, c.secs, len2, p, data, more);
    assert |b.chain| <= |c.chain|;
  }

  lemma WroteKeepsRoom(g: Mounted, a: Snap, len: nat, b: Snap, len': nat, p: nat, data: seq<byte>, goal: nat)
    requires Wrote(g, a, len, b, len', p, data, goal)
    ensures |a.fat| == |b.fat| == g.Entries() && Capacity(g, b.fat, b.chain) == Capacity(g, a.fat, a.chain)
    ensures len <= SECTOR_SIZE * |a.secs|
    ensures len' == Max(len, p + |data|) <= SECTOR_SIZE * |b.secs|
    ensures Content(b.secs, len') == Overwrite(Content(a.secs, len), p, data)
  {
  }

  /** Two steps that write nothing are one, and the file is unchanged. */
  lemma NothingThenNothing(g: Mounted, a: Snap, b: Snap, c: Snap, len: nat, goal: nat)
    requires Wrote(g, a, len, b, len, 0, [], goal)
    requires Wrote(g, b, len, c, len, 0, [], goal)
    ensures Wrote(g, a, len, c, len, 0, [], goal)
    ensures len <= SECTOR_SIZE * |a.secs| && len <= SECTOR_SIZE * |b.secs| && len <= SECTOR_SIZE * |c.secs|
    ensures Content(c.secs, len) == Content(b.secs, len) == Content(a.secs, len)
  {
    WroteThen(g, a, len, b, len, c, len, 0, [], [], goal);
    var none: seq<byte> := [];
    assert none + none == none;
    assert Overwrite(Content(a.secs, len), 0, []) == Content(a.secs, len);
  }
}
