/** Cluster chains in the FAT: following, growing and freeing them. */
module Chains {

  import opened Words
  import opened FatEntries
  import opened ChainDefs

  lemma ChainNotFree(t: FatType, fat: seq<nat>, limit: nat, chain: seq<nat>)
    requires IsChain(t, fat, limit, chain)
    ensures forall i :: 0 <= i < |chain| ==> !t.IsFree(fat[chain[i]])
  {
    forall i | 0 <= i < |chain| ensures !t.IsFree(fat[chain[i]]) {
      assert i < |chain| - 1 ==> t.Next(fat[chain[i]]) == chain[i + 1];
    }
  }

  lemma {:induction false} FollowSuffix(t: FatType, fat: seq<nat>, limit: nat, chain: seq<nat>, k: nat, fuel: nat)
    requires IsChain(t, fat, limit, chain) && limit <= LAST
    requires k < |chain| && fuel >= |chain| - k
    ensures Follow(t, fat, chain[k], fuel) == chain[k..]
    decreases |chain| - k
  {
    if k < |chain| - 1 {
      FollowSuffix(t, fat, limit, chain, k + 1, fuel - 1);
    }
  }

  lemma {:induction false} DistinctBelow(chain: seq<nat>, n: nat)
    requires forall i :: 0 <= i < |chain| ==> chain[i] < n
    requires forall i, j :: 0 <= i < j < |chain| ==> chain[i] != chain[j]
    ensures |chain| <= n
  {
    if chain != [] {
      assert chain[0] < n;
      if k :| 0 <= k < |chain| && chain[k] == n - 1 {
        DistinctBelow(chain[..k] + chain[k + 1..], n - 1);
      } else {
        DistinctBelow(chain, n - 1);
      }
    }
  }

  /** A chain is what following the FAT from its first cluster finds, so it is determined by
      that cluster. */
  lemma FollowChain(t: FatType, fat: seq<nat>, limit: nat, chain: seq<nat>)
    requires IsChain(t, fat, limit, chain) && limit <= LAST
    ensures Follow(t, fat, chain[0], |fat|) == chain
  {
    DistinctBelow(chain, |fat|);
    FollowSuffix(t, fat, limit, chain, 0, |fat|);
    assert chain[0..] == chain;
  }

  lemma LinkLastGrows(t: FatType, fat: seq<nat>, limit: nat, chain: seq<nat>, c: nat)
    requires IsChain(t, fat, limit, chain) && limit <= t.MaxLink()
    requires 2 <= c < limit && t.IsFree(fat[c])
    ensures Grown(t, limit, fat, chain, LinkLast(t, fat, chain[|chain| - 1], c), chain + [c])
  {
    var last := chain[|chain| - 1];
    var fat', chain' := LinkLast(t, fat, last, c), chain + [c];
    ChainNotFree(t, fat, limit, chain);
    assert t.Next(fat'[last]) == c && t.Next(fat'[c]) == LAST;
    hide FatType.Next, FatType.IsFree, FatType.Range, FatType.MaxLink;
    forall i | 0 <= i < |chain'| - 1 ensures t.Next(fat'[chain'[i]]) == chain'[i + 1] {
      if i < |chain| - 1 {
        assert fat'[chain[i]] == fat[chain[i]];
      }
    }
  }

  lemma LinkNotFree(t: FatType, c: nat)
    requires 2 <= c < t.MaxLink()
    ensures !t.IsFree(c % t.Range()) && !t.IsFree(LAST % t.Range())
  {
  }

  lemma LinkLastCount(t: FatType, fat: seq<nat>, limit: nat, from: nat, chain: seq<nat>, c: nat)
    requires IsChain(t, fat, limit, chain) && limit <= t.MaxLink()
    requires 2 <= c < limit && t.IsFree(fat[c])
    ensures FreeCount(t, LinkLast(t, fat, chain[|chain| - 1], c), from, limit)
         == FreeCount(t, fat, from, limit) - if from <= c then 1 else 0
  {
    var last := chain[|chain| - 1];
    ChainNotFree(t, fat, limit, chain);
    LinkNotFree(t, c);
    hide IsChain, FatType.IsFree, FatType.Range, FatType.MaxLink, FreeCount;
    FreeCountUpdate(t, fat, from, limit, last, c % t.Range());
    FreeCountUpdate(t, fat[last := c % t.Range()], from, limit, c, LAST % t.Range());
  }

  lemma AddOneGrows(t: FatType, fat: seq<nat>, limit: nat, from: nat, chain: seq<nat>) returns (c: nat, fat1: seq<nat>)
    requires IsChain(t, fat, limit, chain) && limit <= t.MaxLink()
    requires Reserved(t, fat, from) && from <= limit
    requires 0 < FreeCount(t, fat, from, limit)
    ensures c == FirstFree(t, fat, from) < |fat|
    ensures fat1 == LinkLast(t, fat, chain[|chain| - 1], c)
    ensures Grown(t, limit, fat, chain, fat1, chain + [c])
    ensures Reserved(t, fat1, from)
    ensures FreeCount(t, fat1, from, limit) == FreeCount(t, fat, from, limit) - 1
  {
    assert limit <= |fat| && chain[|chain| - 1] < |fat|;
    FreeCountPositive(t, fat, from, limit);
    c := FirstFree(t, fat, from);
    assert c >= 2;
    fat1 := LinkLast(t, fat, chain[|chain| - 1], c);
    assert Reserved(t, fat1, from);
    hide IsChain;
    LinkLastGrows(t, fat, limit, chain, c);
    LinkLastCount(t, fat, limit, from, chain, c);
  }

  /** Appending n clusters to a chain gives a longer chain of clusters that were free, and uses
      up exactly n, or all the free ones when they are fewer and none is free behind `limit`. */
  lemma {:induction false} AddSpaceGrows(t: FatType, fat: seq<nat>, limit: nat, from: nat, chain: seq<nat>, n: nat)
    returns (fat': seq<nat>, added: seq<nat>)
    requires IsChain(t, fat, limit, chain) && limit <= t.MaxLink()
    requires Reserved(t, fat, from) && from <= limit
    requires n <= FreeCount(t, fat, from, limit) || NoneFreeFrom(t, fat, limit)
    ensures (fat', added) == AddSpace(t, fat, from, chain[|chain| - 1], n)
    ensures |added| == if n <= FreeCount(t, fat, from, limit) then n else FreeCount(t, fat, from, limit)
    ensures Grown(t, limit, fat, chain, fat', chain + added)
    ensures Reserved(t, fat', from)
    ensures FreeCount(t, fat', from, limit) == FreeCount(t, fat, from, limit) - |added|
    decreases n
  {
    hide AddSpace, FirstFree, FreeCount, LinkLast, Reserved, NoneFreeFrom, IsChain;
    ChainEnds(t, fat, limit, chain);
    if n == 0 || FreeCount(t, fat, from, limit) == 0 {
      fat', added := fat, [];
      NothingAdded(t, fat, limit, from, chain, n);
    } else {
      var c, fat1 := AddOneGrows(t, fat, limit, from, chain);
      AddSpaceStep(t, fat, from, chain[|chain| - 1], n);
      GrownKeepsRest(t, fat, limit, chain, fat1, chain + [c]);
      assert (chain + [c])[|chain|] == c;
      var rest;
      fat', rest := AddSpaceGrows(t, fat1, limit, from, chain + [c], n - 1);
      added := [c] + rest;
      GrownByOneMore(t, limit, fat, chain, fat1, c, fat', rest);
    }
  }

  lemma ChainEnds(t: FatType, fat: seq<nat>, limit: nat, chain: seq<nat>)
    requires IsChain(t, fat, limit, chain)
    ensures |chain| > 0 && chain[|chain| - 1] < limit <= |fat|
  {
  }

  lemma NothingAdded(t: FatType, fat: seq<nat>, limit: nat, from: nat, chain: seq<nat>, n: nat)
    requires IsChain(t, fat, limit, chain) && from <= limit
    requires n == 0 || (FreeCount(t, fat, from, limit) == 0 && NoneFreeFrom(t, fat, limit))
    ensures AddSpace(t, fat, from, chain[|chain| - 1], n) == (fat, [])
    ensures Grown(t, limit, fat, chain, fat, chain + [])
  {
    FreeCountPositive(t, fat, from, limit);
    AddSpaceStep(t, fat, from, chain[|chain| - 1], n);
    assert chain + [] == chain;
  }

  ghost predicate NoneFreeFrom(t: FatType, fat: seq<nat>, limit: nat) {
    forall c :: limit <= c < |fat| ==> !t.IsFree(fat[c])
  }

  lemma GrownKeepsRest(t: FatType, fat: seq<nat>, limit: nat, chain: seq<nat>, fat': seq<nat>, chain': seq<nat>)
    requires Grown(t, limit, fat, chain, fat', chain')
    ensures NoneFreeFrom(t, fat, limit) ==> NoneFreeFrom(t, fat', limit)
  {
    assert forall c :: limit <= c < |fat| ==> c !in chain';
  }

  lemma GrownByOneMore(t: FatType, limit: nat, fat: seq<nat>, chain: seq<nat>, fat1: seq<nat>, c: nat, fat': seq<nat>,
                       rest: seq<nat>)
    requires Grown(t, limit, fat, chain, fat1, chain + [c])
    requires Grown(t, limit, fat1, chain + [c], fat', chain + [c] + rest)
    ensures Grown(t, limit, fat, chain, fat', chain + ([c] + rest))
  {
    hide *;
    assert chain + [c] + rest == chain + ([c] + rest);
    GrownTransitive(t, limit, fat, chain, fat1, chain + [c], fat', chain + [c] + rest);
  }

  lemma AddSpaceStep(t: FatType, fat: seq<nat>, from: nat, last: nat, n: nat)
    requires from <= |fat| && last < |fat|
    ensures n == 0 || FirstFree(t, fat, from) == |fat| ==> AddSpace(t, fat, from, last, n) == (fat, [])
    ensures n > 0 && FirstFree(t, fat, from) < |fat| ==>
              var c := FirstFree(t, fat, from);
              var rest := AddSpace(t, LinkLast(t, fat, last, c), from, c, n - 1);
              AddSpace(t, fat, from, last, n) == (rest.0, [c] + rest.1)
  {
  }

  lemma GrownTransitive(t: FatType, limit: nat, fat0: seq<nat>, chain0: seq<nat>, fat1: seq<nat>, chain1: seq<nat>,
                        fat2: seq<nat>, chain2: seq<nat>)
    requires Grown(t, limit, fat0, chain0, fat1, chain1)
    requires Grown(t, limit, fat1, chain1, fat2, chain2)
    ensures Grown(t, limit, fat0, chain0, fat2, chain2)
  {
    forall i | |chain0| <= i < |chain2| ensures t.IsFree(fat0[chain2[i]]) {
      if i < |chain1| {
        assert chain2[i] == chain1[i];
      } else {
        assert forall j :: 0 <= j < |chain1| ==> chain2[j] == chain1[j];
        assert chain2[i] !in chain1;
      }
    }
    assert forall c :: c in chain1 ==> c in chain2;
  }

  /** Growing one chain leaves every other chain as it was, and disjoint from the grown one. */
  lemma GrownKeepsOther(t: FatType, limit: nat, fat: seq<nat>, chain: seq<nat>, fat': seq<nat>, chain': seq<nat>,
                        other: seq<nat>)
    requires Grown(t, limit, fat, chain, fat', chain')
    requires IsChain(t, fat, limit, other) && Disjoint(other, chain)
    ensures IsChain(t, fat', limit, other) && Disjoint(other, chain')
  {
    ChainNotFree(t, fat, limit, other);
    forall i, j | 0 <= i < |other| && 0 <= j < |chain'| ensures other[i] != chain'[j] {
      if j < |chain| {
        assert chain'[j] == chain[j];
      }
    }
    assert forall i :: 0 <= i < |other| ==> other[i] !in chain';
  }

  /** A table all of whose links stay inside it. */
  lemma WholeTableInRange(t: FatType, fat: seq<nat>, zone: set<nat>)
    requires forall c :: c in zone <==> c < |fat|
    requires forall c :: 0 <= c < |fat| ==> t.Next(fat[c]) == LAST || t.Next(fat[c]) < |fat|
    ensures InRange(t, fat, zone)
  {
  }

  lemma FreeStep(t: FatType, fat: seq<nat>, zone: set<nat>, c: nat)
    requires InRange(t, fat, zone) && c in zone && c != LAST && c != 0
    ensures InRange(t, fat[c := 0], zone)
    ensures t.Next(fat[c]) in zone || t.Next(fat[c]) == LAST || t.Next(fat[c]) == 0
    ensures t.Next(fat[c]) != 0 ==> NonZero(fat[c := 0]) < NonZero(fat)
    ensures FreeFrom(t, fat, zone, c) == FreeFrom(t, fat[c := 0], zone, t.Next(fat[c]))
  {
    NonZeroClear(fat, c);
  }

  lemma FreeDone(t: FatType, fat: seq<nat>, zone: set<nat>, c: nat)
    requires InRange(t, fat, zone) && (c == 0 || c == LAST)
    ensures FreeFrom(t, fat, zone, c) == fat
  {
  }

  ghost function ChainZone(chain: seq<nat>): set<nat> {
    set c | c in chain
  }

  lemma ChainInRange(t: FatType, fat: seq<nat>, limit: nat, chain: seq<nat>, k: nat)
    requires IsChain(t, fat, limit, chain) && k <= |chain|
    ensures InRange(t, Cleared(fat, chain[..k]), ChainZone(chain))
  {
    var now := Cleared(fat, chain[..k]);
    forall c | c in ChainZone(chain)
      ensures c < |now| && (t.Next(now[c]) == LAST || t.Next(now[c]) == 0 || t.Next(now[c]) in ChainZone(chain))
    {
      var i :| 0 <= i < |chain| && chain[i] == c;
      if c !in chain[..k] && i < |chain| - 1 {
        assert t.Next(now[c]) == chain[i + 1];
      }
    }
  }

  lemma {:induction false} FreeFromSuffix(t: FatType, fat: seq<nat>, limit: nat, chain: seq<nat>, k: nat)
    requires IsChain(t, fat, limit, chain) && limit <= LAST
    requires k < |chain|
    requires InRange(t, Cleared(fat, chain[..k]), ChainZone(chain))
    ensures FreeFrom(t, Cleared(fat, chain[..k]), ChainZone(chain), chain[k]) == Cleared(fat, chain)
    decreases |chain| - k
  {
    var now := Cleared(fat, chain[..k]);
    assert now[chain[k] := 0] == Cleared(fat, chain[..k + 1]);
    ChainInRange(t, fat, limit, chain, k + 1);
    if k < |chain| - 1 {
      FreeFromSuffix(t, fat, limit, chain, k + 1);
    } else {
      assert chain[..k + 1] == chain;
    }
  }

  /** On a well-formed chain exactly its entries are cleared. */
  lemma FreeFromChain(t: FatType, fat: seq<nat>, limit: nat, chain: seq<nat>)
    requires IsChain(t, fat, limit, chain) && limit <= LAST
    ensures InRange(t, fat, ChainZone(chain)) && chain[0] in ChainZone(chain)
    ensures FreeFrom(t, fat, ChainZone(chain), chain[0]) == Cleared(fat, chain)
  {
    assert Cleared(fat, chain[..0]) == fat;
    ChainInRange(t, fat, limit, chain, 0);
    FreeFromSuffix(t, fat, limit, chain, 0);
  }
}
