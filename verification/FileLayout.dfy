/** From a cluster chain to sector addresses, and from sectors to bytes. */
module FileLayout {

  import opened Words
  import opened Geometry
  import opened ChainDefs

  ghost predicate AllClusters(g: Mounted, chain: seq<nat>) {
    forall i :: 0 <= i < |chain| ==> g.IsCluster(chain[i])
  }

  function ClusterLbas(g: Mounted, c: nat): (r: seq<nat>)
    requires 2 <= c
    ensures |r| == g.sectorsPerCluster
    ensures forall i :: 0 <= i < |r| ==> r[i] == g.Lba(c) + i
  {
    seq<nat>(g.sectorsPerCluster, (i: nat) => g.Lba(c) + i)
  }

  /** The addresses of the sectors of a chain, in file order. */
  function Lbas(g: Mounted, chain: seq<nat>): (r: seq<nat>)
    requires AllClusters(g, chain)
    ensures |r| == g.Span(|chain|)
  {
    if chain == [] then []
    else
      var n := |chain| - 1;
      Lbas(g, chain[..n]) + ClusterLbas(g, chain[n])
  }

  lemma {:induction false} LbasIndex(g: Mounted, chain: seq<nat>, k: nat, i: nat)
    requires AllClusters(g, chain)
    requires k < |chain| && i < g.sectorsPerCluster
    ensures g.Span(k) + i < |Lbas(g, chain)|
    ensures Lbas(g, chain)[g.Span(k) + i] == g.Lba(chain[k]) + i
  {
    var n := |chain| - 1;
    if k < n {
      LbasIndex(g, chain[..n], k, i);
    }
  }

  /** The sector at an offset lies in the cluster the offset splits to. */
  lemma LbasAt(g: Mounted, chain: seq<nat>, s: nat) returns (k: nat, i: nat)
    requires AllClusters(g, chain) && s < |Lbas(g, chain)|
    ensures k < |chain| && i < g.sectorsPerCluster && s == g.Span(k) + i
    ensures Lbas(g, chain)[s] == g.Lba(chain[k]) + i
  {
    k, i := SplitOffset(g, s);
    if k > |chain| {
      SpanMonotone(g, |chain|, k);
    }
    LbasIndex(g, chain, k, i);
  }

  lemma {:induction false} LbasAppend(g: Mounted, chain: seq<nat>, added: seq<nat>)
    requires AllClusters(g, chain) && AllClusters(g, added)
    ensures AllClusters(g, chain + added)
    ensures Lbas(g, chain + added) == Lbas(g, chain) + Lbas(g, added)
  {
    if added == [] {
      assert chain + added == chain;
    } else {
      var n := |added| - 1;
      LbasAppend(g, chain, added[..n]);
      assert (chain + added)[..|chain| + n] == chain + added[..n];
    }
  }

  lemma LbasPrefix(g: Mounted, chain: seq<nat>, chain': seq<nat>)
    requires AllClusters(g, chain') && chain <= chain'
    ensures AllClusters(g, chain) && Lbas(g, chain) <= Lbas(g, chain')
  {
    var added := chain'[|chain|..];
    assert chain' == chain + added;
    assert forall i :: 0 <= i < |chain| ==> chain[i] == chain'[i];
    assert forall i :: 0 <= i < |added| ==> added[i] == chain'[|chain| + i];
    LbasAppend(g, chain, added);
  }

  /** The sectors of a chain are distinct data-area sectors. */
  lemma LbasDistinct(g: Mounted, fat: seq<nat>, chain: seq<nat>, s: nat, u: nat)
    requires IsChain(g.fatType, fat, g.Limit(), chain)
    requires s < |Lbas(g, chain)| && u < |Lbas(g, chain)|
    ensures g.DataBegin() <= Lbas(g, chain)[s] < g.total
    ensures Lbas(g, chain)[s] == Lbas(g, chain)[u] ==> s == u
  {
    var k, i := LbasAt(g, chain, s);
    var l, j := LbasAt(g, chain, u);
    LbaInjective(g, chain[k], i, chain[l], j);
  }

  /** Two disjoint chains share no sector. */
  lemma LbasDisjoint(g: Mounted, a: seq<nat>, b: seq<nat>, s: nat, u: nat)
    requires AllClusters(g, a) && AllClusters(g, b) && Disjoint(a, b)
    requires s < |Lbas(g, a)| && u < |Lbas(g, b)|
    ensures Lbas(g, a)[s] != Lbas(g, b)[u]
  {
    var k, i := LbasAt(g, a, s);
    var l, j := LbasAt(g, b, u);
    LbaInjective(g, a[k], i, b[l], j);
  }

  /* Bytes. */

  function Chunk(data: seq<byte>, i: nat): (r: Sector)
    requires SECTOR_SIZE * (i + 1) <= |data|
  {
    data[SECTOR_SIZE * i..SECTOR_SIZE * (i + 1)]
  }

  /** Only the sectors [lba, lba + count) changed, and they hold the data. */
  ghost predicate RunWritten(before: seq<Sector>, after: seq<Sector>, lba: nat, data: seq<byte>, count: nat)
    requires SECTOR_SIZE * count <= |data|
  {
    && |after| == |before|
    && forall l :: 0 <= l < |after| ==> after[l] == if lba <= l < lba + count then Chunk(data, l - lba) else before[l]
  }

  /** The first len bytes of a sequence of sectors. */
  function Content(secs: seq<Sector>, len: nat): (r: seq<byte>)
    requires len <= SECTOR_SIZE * |secs|
    ensures |r| == len
  {
    seq(len, k requires 0 <= k < len => secs[k / SECTOR_SIZE][k % SECTOR_SIZE])
  }

  /** What a write of data at position p makes of a file. */
  function Overwrite(was: seq<byte>, p: nat, data: seq<byte>): (r: seq<byte>)
    requires p <= |was|
  {
    was[..p] + data + if p + |data| < |was| then was[p + |data|..] else []
  }
}
