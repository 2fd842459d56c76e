/** What a cluster chain is, and what the FAT looks like after growing or freeing one. */
module ChainDefs {

  import opened Words
  import opened FatEntries

  /** The entries of `chain` lead from one to the next and the last one is an end mark. */
  ghost predicate IsChain(t: FatType, fat: seq<nat>, limit: nat, chain: seq<nat>) {
    && |chain| > 0
    && limit <= |fat|
    && (forall i :: 0 <= i < |chain| ==> 2 <= chain[i] < limit)
    && (forall i, j :: 0 <= i < j < |chain| ==> chain[i] != chain[j])
    && (forall i :: 0 <= i < |chain| - 1 ==> t.Next(fat[chain[i]]) == chain[i + 1])
    && t.Next(fat[chain[|chain| - 1]]) == LAST
  }

  ghost predicate Disjoint(a: seq<nat>, b: seq<nat>) {
    forall i, j :: 0 <= i < |a| && 0 <= j < |b| ==> a[i] != b[j]
  }

  /** The clusters met by following the FAT from c, at most `fuel` of them. */
  function Follow(t: FatType, fat: seq<nat>, c: nat, fuel: nat): (s: seq<nat>)
    ensures |s| <= fuel
    decreases fuel
  {
    if fuel == 0 || c == LAST || !(2 <= c < |fat|) then [] else [c] + Follow(t, fat, t.Next(fat[c]), fuel - 1)
  }

  /** fat' is fat with `chain` extended to chain' by clusters that were free. */
  ghost predicate Grown(t: FatType, limit: nat, fat: seq<nat>, chain: seq<nat>, fat': seq<nat>, chain': seq<nat>) {
    && |fat'| == |fat|
    && IsChain(t, fat', limit, chain')
    && chain <= chain'
    && (forall i :: |chain| <= i < |chain'| ==> t.IsFree(fat[chain'[i]]))
    && (forall c :: 0 <= c < |fat| && c !in chain' ==> fat'[c] == fat[c])
  }

  /** The allocator never offers clusters 0 and 1. */
  ghost predicate Reserved(t: FatType, fat: seq<nat>, from: nat) {
    from <= |fat| && forall c :: from <= c < |fat| && c < 2 ==> !t.IsFree(fat[c])
  }

  function LinkLast(t: FatType, fat: seq<nat>, last: nat, c: nat): seq<nat>
    requires last < |fat| && c < |fat|
  {
    fat[last := c % t.Range()][c := LAST % t.Range()]
  }

  /** Append up to n clusters after `last`, each the first free one at the time: the new
      table and the clusters added, fewer than n when the table runs out. */
  function AddSpace(t: FatType, fat: seq<nat>, from: nat, last: nat, n: nat): (r: (seq<nat>, seq<nat>))
    requires from <= |fat| && last < |fat|
    ensures |r.0| == |fat| && |r.1| <= n
    decreases n
  {
    var c := FirstFree(t, fat, from);
    if n == 0 || c == |fat| then (fat, [])
    else
      var rest := AddSpace(t, LinkLast(t, fat, last, c), from, c, n - 1);
      (rest.0, [c] + rest.1)
  }

  /** No link leads out of a set of entries.  The set may be the whole table or one chain. */
  ghost predicate InRange(t: FatType, fat: seq<nat>, zone: set<nat>) {
    forall c :: c in zone ==> c < |fat| && (t.Next(fat[c]) == LAST || t.Next(fat[c]) == 0 || t.Next(fat[c]) in zone)
  }

  function NonZero(fat: seq<nat>): nat {
    if fat == [] then 0 else NonZero(fat[..|fat| - 1]) + if fat[|fat| - 1] != 0 then 1 else 0
  }

  lemma {:induction false} NonZeroClear(fat: seq<nat>, c: nat)
    requires c < |fat|
    ensures NonZero(fat[c := 0]) == NonZero(fat) - if fat[c] != 0 then 1 else 0
  {
    var n := |fat| - 1;
    if c == n {
      assert fat[c := 0][..n] == fat[..n];
    } else {
      assert fat[c := 0][..n] == fat[..n][c := 0];
      NonZeroClear(fat[..n], c);
    }
  }

  /** The table after following it from c and clearing every entry met.  It ends on every
      in-range table, cyclic or not: a link met a second time has been cleared. */
  ghost function FreeFrom(t: FatType, fat: seq<nat>, zone: set<nat>, c: nat): (r: seq<nat>)
    requires InRange(t, fat, zone) && (c in zone || c == LAST || c == 0)
    ensures |r| == |fat|
    decreases if c == LAST || c == 0 then 0 else 1, NonZero(fat)
  {
    if c == LAST || c == 0 then fat
    else
      NonZeroClear(fat, c);
      FreeFrom(t, fat[c := 0], zone, t.Next(fat[c]))
  }

  function Cleared(fat: seq<nat>, chain: seq<nat>): (r: seq<nat>)
    ensures |r| == |fat|
  {
    seq(|fat|, c requires 0 <= c < |fat| => if c in chain then 0 else fat[c])
  }
}
