/** The chains of all files and directories over any run of creating, extending and removing. */
module ChainHeap {

  import opened Words
  import opened FatEntries
  import opened Geometry
  import opened ChainDefs
  import opened Chains
  import opened FileSpec
  import opened FileCreate
  import opened FileRemove

  /** The table and the chains in it, one for each file and directory. */
  datatype Heap = Heap(fat: seq<nat>, chains: seq<seq<nat>>)

  /** Every chain is well formed and no two of them share a cluster. */
  ghost predicate Sound(g: Mounted, h: Heap) {
    && |h.fat| == g.Entries()
    && Reserved(g.fatType, h.fat, g.rootFirstCluster)
    && (forall i :: 0 <= i < |h.chains| ==> IsChain(g.fatType, h.fat, g.Limit(), h.chains[i]))
    && (forall i, j :: 0 <= i < j < |h.chains| ==> Disjoint(h.chains[i], h.chains[j]))
  }

  /** What the library does to the table: start a chain (fatfs_allocate_free_space), append
      clusters to one (fatfs_add_free_space, and one at a time fatfs_fat_add_cluster_to_chain),
      and free one (fatfs_free_cluster_chain). */
  datatype Step = Create | Extend(index: nat, clusters: nat) | Remove(index: nat)

  ghost predicate Enabled(g: Mounted, h: Heap, s: Step)
    requires |h.fat| == g.Entries()
  {
    match s
    case Create => 0 < Free(g, h.fat)
    case Extend(i, n) => i < |h.chains| && n <= Free(g, h.fat)
    case Remove(i) => i < |h.chains|
  }

  ghost function Next(g: Mounted, h: Heap, s: Step): Heap
    requires Sound(g, h) && Enabled(g, h, s)
  {
    match s
    case Create =>
      FreeCountPositive(g.fatType, h.fat, g.rootFirstCluster, g.Limit());
      var c := FirstFree(g.fatType, h.fat, g.rootFirstCluster);
      Heap(h.fat[c := LAST % g.fatType.Range()], h.chains + [[c]])
    case Extend(i, n) =>
      var chain := h.chains[i];
      var r := AddSpace(g.fatType, h.fat, g.rootFirstCluster, chain[|chain| - 1], n);
      Heap(r.0, h.chains[i := chain + r.1])
    case Remove(i) =>
      FreeFromChain(g.fatType, h.fat, g.Limit(), h.chains[i]);
      Heap(FreeFrom(g.fatType, h.fat, ChainZone(h.chains[i]), h.chains[i][0]), h.chains[..i] + h.chains[i + 1..])
  }

  function Total(chains: seq<seq<nat>>): nat {
    if chains == [] then 0 else Total(chains[..|chains| - 1]) + |chains[|chains| - 1]|
  }

  lemma {:induction false} TotalAppend(a: seq<seq<nat>>, b: seq<seq<nat>>)
    ensures Total(a + b) == Total(a) + Total(b)
  {
    if b == [] {
      assert a + b == a;
    } else {
      assert (a + b)[..|a + b| - 1] == a + b[..|b| - 1];
      TotalAppend(a, b[..|b| - 1]);
    }
  }

  lemma TotalOne(chain: seq<nat>)
    ensures Total([chain]) == |chain|
  {
    assert Total([chain][..0]) == 0;
  }

  lemma TotalSplit(chains: seq<seq<nat>>, i: nat, chain: seq<nat>)
    requires i < |chains|
    ensures Total(chains) == Total(chains[..i] + chains[i + 1..]) + |chains[i]|
    ensures Total(chains[i := chain]) == Total(chains[..i] + chains[i + 1..]) + |chain|
  {
    var pre, post := chains[..i], chains[i + 1..];
    assert chains == pre + [chains[i]] + post && chains[i := chain] == pre + [chain] + post;
    TotalAppend(pre, post);
    TotalAppend(pre, [chains[i]]);
    TotalAppend(pre + [chains[i]], post);
    TotalAppend(pre, [chain]);
    TotalAppend(pre + [chain], post);
    TotalOne(chains[i]);
    TotalOne(chain);
  }

  /** All free clusters of the data area. */
  ghost function FreeAll(g: Mounted, fat: seq<nat>): nat
    requires |fat| == g.Entries()
  {
    FreeCount(g.fatType, fat, 0, g.Limit())
  }

  lemma {:induction false} FreeCountSame(t: FatType, fat: seq<nat>, fat': seq<nat>, lo: nat, hi: nat)
    requires hi <= |fat| == |fat'|
    requires forall c :: lo <= c < hi ==> t.IsFree(fat[c]) == t.IsFree(fat'[c])
    ensures FreeCount(t, fat, lo, hi) == FreeCount(t, fat', lo, hi)
  {
    if lo < hi {
      FreeCountSame(t, fat, fat', lo, hi - 1);
    }
  }

  /** What is taken at or above `from` is taken of the whole. */
  lemma TakenOfAll(g: Mounted, fat: seq<nat>, fat': seq<nat>)
    requires |fat| == |fat'| == g.Entries()
    requires forall c :: 0 <= c < g.rootFirstCluster ==> g.fatType.IsFree(fat[c]) == g.fatType.IsFree(fat'[c])
    ensures FreeAll(g, fat') - FreeAll(g, fat) == Free(g, fat') - Free(g, fat)
  {
    var from := g.rootFirstCluster;
    FreeCountJoin(g.fatType, fat, 0, from, g.Limit());
    FreeCountJoin(g.fatType, fat', 0, from, g.Limit());
    FreeCountSame(g.fatType, fat, fat', 0, from);
  }

  lemma {:induction false} AddSpaceFrom(t: FatType, fat: seq<nat>, from: nat, last: nat, n: nat)
    requires from <= |fat| && last < |fat|
    ensures forall i :: 0 <= i < |AddSpace(t, fat, from, last, n).1| ==> from <= AddSpace(t, fat, from, last, n).1[i]
    decreases n
  {
    hide FirstFree, LinkLast;
    AddSpaceStep(t, fat, from, last, n);
    var c := FirstFree(t, fat, from);
    if n > 0 && c < |fat| {
      AddSpaceFrom(t, LinkLast(t, fat, last, c), from, c, n - 1);
    }
  }

  /** A grown chain keeps every other one, and takes nothing below `from`. */
  lemma GrownTakes(g: Mounted, fat: seq<nat>, chain: seq<nat>, fat': seq<nat>, added: seq<nat>)
    requires |fat| == g.Entries() && Grown(g.fatType, g.Limit(), fat, chain, fat', chain + added)
    requires chain == [] || IsChain(g.fatType, fat, g.Limit(), chain)
    requires forall i :: 0 <= i < |added| ==> g.rootFirstCluster <= added[i]
    ensures FreeAll(g, fat') - FreeAll(g, fat) == Free(g, fat') - Free(g, fat)
  {
    var chain' := chain + added;
    ChainNotFree(g.fatType, fat', g.Limit(), chain');
    if chain != [] {
      ChainNotFree(g.fatType, fat, g.Limit(), chain);
    }
    hide IsChain, FreeCount, FatType.IsFree;
    forall c | 0 <= c < g.rootFirstCluster ensures g.fatType.IsFree(fat[c]) == g.fatType.IsFree(fat'[c]) {
      if c in chain' {
        var i :| 0 <= i < |chain'| && chain'[i] == c;
        assert i < |chain|;
        assert chain[i] == c;
      }
    }
    TakenOfAll(g, fat, fat');
  }

  lemma OthersApart(h: Heap, i: nat, j: nat)
    requires i < |h.chains| && j < |h.chains| && i != j
    requires forall k, l :: 0 <= k < l < |h.chains| ==> Disjoint(h.chains[k], h.chains[l])
    ensures Disjoint(h.chains[j], h.chains[i])
  {
    DisjointSwap(h.chains[i], h.chains[j]);
  }

  /* Creating. */

  lemma CreateIs(g: Mounted, h: Heap) returns (c: nat, fat': seq<nat>)
    requires Sound(g, h) && Enabled(g, h, Create)
    ensures Next(g, h, Create) == Heap(fat', h.chains + [[c]])
    ensures Grown(g.fatType, g.Limit(), h.fat, [], fat', [c])
    ensures |fat'| == |h.fat| && Reserved(g.fatType, fat', g.rootFirstCluster)
    ensures FreeAll(g, fat') == FreeAll(g, h.fat) - 1
  {
    c, fat' := NewChain(g, h.fat);
    assert [] + [c] == [c];
    hide IsChain, FirstFree, FreeCount;
    GrownTakes(g, h.fat, [], fat', [c]);
  }

  lemma CreateSound(g: Mounted, h: Heap, c: nat, fat': seq<nat>)
    requires Sound(g, h) && Grown(g.fatType, g.Limit(), h.fat, [], fat', [c])
    requires Reserved(g.fatType, fat', g.rootFirstCluster)
    ensures Sound(g, Heap(fat', h.chains + [[c]]))
  {
    hide IsChain, Disjoint, Reserved;
    forall i | 0 <= i < |h.chains|
      ensures IsChain(g.fatType, fat', g.Limit(), h.chains[i]) && Disjoint(h.chains[i], [c])
    {
      NothingDisjoint(h.chains[i]);
      GrownKeepsOther(g.fatType, g.Limit(), h.fat, [], fat', [c], h.chains[i]);
    }
  }

  lemma NothingDisjoint(a: seq<nat>)
    ensures Disjoint(a, [])
  {
  }

  lemma CreateKeeps(g: Mounted, h: Heap)
    requires Sound(g, h) && Enabled(g, h, Create)
    ensures Sound(g, Next(g, h, Create))
    ensures FreeAll(g, Next(g, h, Create).fat) == FreeAll(g, h.fat) - 1
    ensures Total(Next(g, h, Create).chains) == Total(h.chains) + 1
  {
    hide Sound, Next, FreeAll, Total, Grown, Reserved;
    var c, fat' := CreateIs(g, h);
    CreateSound(g, h, c, fat');
    TotalAppend(h.chains, [[c]]);
    TotalOne([c]);
  }

  /* Extending. */

  lemma ExtendIs(g: Mounted, h: Heap, i: nat, n: nat) returns (fat': seq<nat>, added: seq<nat>)
    requires Sound(g, h) && Enabled(g, h, Extend(i, n))
    ensures i < |h.chains| && Next(g, h, Extend(i, n)) == Heap(fat', h.chains[i := h.chains[i] + added])
    ensures Grown(g.fatType, g.Limit(), h.fat, h.chains[i], fat', h.chains[i] + added)
    ensures |fat'| == |h.fat| && Reserved(g.fatType, fat', g.rootFirstCluster) && |added| == n
    ensures FreeAll(g, fat') == FreeAll(g, h.fat) - n
  {
    var chain := h.chains[i];
    assert IsChain(g.fatType, h.fat, g.Limit(), chain) && |chain| > 0 && chain[|chain| - 1] < |h.fat|;
    hide IsChain, FreeCount, AddSpace, Sound;
    fat', added := AddSpaceGrows(g.fatType, h.fat, g.Limit(), g.rootFirstCluster, chain, n);
    AddSpaceFrom(g.fatType, h.fat, g.rootFirstCluster, chain[|chain| - 1], n);
    GrownTakes(g, h.fat, chain, fat', added);
  }

  lemma ExtendSound(g: Mounted, h: Heap, i: nat, fat': seq<nat>, chain': seq<nat>)
    requires Sound(g, h) && i < |h.chains|
    requires Grown(g.fatType, g.Limit(), h.fat, h.chains[i], fat', chain')
    requires Reserved(g.fatType, fat', g.rootFirstCluster)
    ensures Sound(g, Heap(fat', h.chains[i := chain']))
  {
    hide IsChain, Disjoint, Reserved;
    forall j | 0 <= j < |h.chains| && j != i
      ensures IsChain(g.fatType, fat', g.Limit(), h.chains[j]) && Disjoint(h.chains[j], chain') &&
              Disjoint(chain', h.chains[j])
    {
      OthersApart(h, i, j);
      GrownKeepsOther(g.fatType, g.Limit(), h.fat, h.chains[i], fat', chain', h.chains[j]);
      DisjointSwap(chain', h.chains[j]);
    }
  }

  lemma ExtendKeeps(g: Mounted, h: Heap, i: nat, n: nat)
    requires Sound(g, h) && Enabled(g, h, Extend(i, n))
    ensures Sound(g, Next(g, h, Extend(i, n)))
    ensures FreeAll(g, Next(g, h, Extend(i, n)).fat) == FreeAll(g, h.fat) - n
    ensures Total(Next(g, h, Extend(i, n)).chains) == Total(h.chains) + n
  {
    hide Sound, Next, FreeAll, Total, Grown, Reserved;
    var fat', added := ExtendIs(g, h, i, n);
    ExtendSound(g, h, i, fat', h.chains[i] + added);
    TotalSplit(h.chains, i, h.chains[i] + added);
  }

  /* Removing. */

  lemma RemoveIs(g: Mounted, h: Heap, i: nat)
    requires Sound(g, h) && Enabled(g, h, Remove(i))
    ensures i < |h.chains| && Next(g, h, Remove(i)) ==
            Heap(Cleared(h.fat, h.chains[i]), h.chains[..i] + h.chains[i + 1..])
    ensures FreeAll(g, Cleared(h.fat, h.chains[i])) == FreeAll(g, h.fat) + |h.chains[i]|
  {
    var chain := h.chains[i];
    hide IsChain, FreeCount, Cleared;
    FreeFromChain(g.fatType, h.fat, g.Limit(), chain);
    ChainFreed(g.fatType, h.fat, g.Limit(), chain, chain);
  }

  lemma ClearedReserved(t: FatType, fat: seq<nat>, limit: nat, from: nat, chain: seq<nat>)
    requires Reserved(t, fat, from) && IsChain(t, fat, limit, chain)
    ensures Reserved(t, Cleared(fat, chain), from)
  {
  }

  lemma RemoveSound(g: Mounted, h: Heap, i: nat)
    requires Sound(g, h) && i < |h.chains|
    ensures Sound(g, Heap(Cleared(h.fat, h.chains[i]), h.chains[..i] + h.chains[i + 1..]))
  {
    var chain, fat' := h.chains[i], Cleared(h.fat, h.chains[i]);
    ClearedReserved(g.fatType, h.fat, g.Limit(), g.rootFirstCluster, chain);
    hide IsChain, Disjoint, Reserved, Cleared;
    forall j | 0 <= j < |h.chains| && j != i ensures IsChain(g.fatType, fat', g.Limit(), h.chains[j]) {
      OthersApart(h, i, j);
      ClearedKeepsChain(g.fatType, h.fat, g.Limit(), chain, h.chains[j]);
    }
    var rest := h.chains[..i] + h.chains[i + 1..];
    assert forall j :: 0 <= j < |rest| ==> rest[j] == h.chains[if j < i then j else j + 1];
  }

  lemma RemoveKeeps(g: Mounted, h: Heap, i: nat)
    requires Sound(g, h) && Enabled(g, h, Remove(i))
    ensures Sound(g, Next(g, h, Remove(i)))
    ensures FreeAll(g, Next(g, h, Remove(i)).fat) == FreeAll(g, h.fat) + |h.chains[i]|
    ensures Total(Next(g, h, Remove(i)).chains) == Total(h.chains) - |h.chains[i]|
  {
    hide Sound, Next, FreeAll, Total, Cleared;
    RemoveIs(g, h, i);
    RemoveSound(g, h, i);
    TotalSplit(h.chains, i, h.chains[i]);
  }

  /** One step keeps the heap sound, and clusters only pass between the chains and the free
      ones. */
  lemma StepKeeps(g: Mounted, h: Heap, s: Step)
    requires Sound(g, h) && Enabled(g, h, s)
    ensures Sound(g, Next(g, h, s))
    ensures FreeAll(g, Next(g, h, s).fat) + Total(Next(g, h, s).chains) == FreeAll(g, h.fat) + Total(h.chains)
  {
    hide Sound, Next, Total, FreeAll;
    match s
    case Create => CreateKeeps(g, h);
    case Extend(i, n) => ExtendKeeps(g, h, i, n);
    case Remove(i) => RemoveKeeps(g, h, i);
  }

  /** h' is reached from h by these steps. */
  ghost predicate Reaches(g: Mounted, h: Heap, steps: seq<Step>, h': Heap)
    requires Sound(g, h)
    decreases |steps|
  {
    if steps == [] then h' == h
    else
      Enabled(g, h, steps[0]) && (StepKeeps(g, h, steps[0]); Reaches(g, Next(g, h, steps[0]), steps[1..], h'))
  }

  /** Whatever is created, extended and removed, in whatever order: all chains are in range,
      without cycles, end-marked and pairwise disjoint, no free entry lies in any of them, and
      no cluster is lost. */
  lemma {:induction false} RunKeeps(g: Mounted, h: Heap, steps: seq<Step>, h': Heap)
    requires Sound(g, h) && Reaches(g, h, steps, h')
    ensures Sound(g, h')
    ensures forall i, j :: 0 <= i < |h'.chains| && 0 <= j < |h'.chains[i]| ==>
            !g.fatType.IsFree(h'.fat[h'.chains[i][j]])
    ensures FreeAll(g, h'.fat) + Total(h'.chains) == FreeAll(g, h.fat) + Total(h.chains)
    decreases |steps|
  {
    hide Next, Total, FreeAll, Enabled;
    if steps == [] {
      forall i | 0 <= i < |h'.chains|
        ensures forall j :: 0 <= j < |h'.chains[i]| ==> !g.fatType.IsFree(h'.fat[h'.chains[i][j]])
      {
        ChainNotFree(g.fatType, h'.fat, g.Limit(), h'.chains[i]);
      }
    } else {
      StepKeeps(g, h, steps[0]);
      RunKeeps(g, Next(g, h, steps[0]), steps[1..], h');
    }
  }
}
