/** Allocating clusters: appending to a chain and starting a new one. */
module FatSpace {

  import opened Words
  import opened FatEntries
  import opened Geometry
  import opened ChainDefs
  import opened Chains
  import opened FatTable

  /** One round of the loop below: link the first free cluster after `start`. */
  method AppendOne(fs: Fatfs, start: nat) returns (found: bool, nextCluster: nat)
    requires fs.Valid() && fs.media.Reliable()
    requires start < |fs.fat|
    modifies fs`head, fs`next, fs`order, fs`slots, fs`view, fs`fat, fs.media
    ensures fs.Valid() && fs.OutsideFatUnchanged()
    ensures found <==> FirstFree(fs.g.fatType, old(fs.fat), fs.g.rootFirstCluster) < |old(fs.fat)|
    ensures found ==> nextCluster == FirstFree(fs.g.fatType, old(fs.fat), fs.g.rootFirstCluster)
    ensures fs.fat == if found then LinkLast(fs.g.fatType, old(fs.fat), start, nextCluster) else old(fs.fat)
  {
    hide Fatfs.ValidWith, Decode, FirstFree;
    found, nextCluster := fs.FindBlankCluster(fs.g.rootFirstCluster);
    if found {
      var set1 := fs.SetCluster(start, nextCluster);
      var set2 := fs.SetCluster(nextCluster, LAST);
    }
  }

  /** fatfs_add_free_space: append clusters after startCluster, which is left naming the
      first one added. */
  method AddFreeSpace(fs: Fatfs, startCluster: nat, clusters: nat) returns (ok: bool, newStart: nat)
    requires fs.Valid() && fs.media.Reliable()
    requires startCluster < |fs.fat|
    modifies fs`head, fs`next, fs`order, fs`slots, fs`view, fs`fat, fs`nextFree, fs.media
    ensures fs.Valid() && fs.OutsideMetaUnchanged()
    ensures var r := AddSpace(fs.g.fatType, old(fs.fat), fs.g.rootFirstCluster, startCluster, clusters);
            fs.fat == r.0 && (ok <==> |r.1| == clusters) && newStart == if r.1 == [] then startCluster else r.1[0]
  {
    hide Fatfs.ValidWith, Decode, AddSpace, FirstFree, LinkLast, LeftToAdd;
    NoneAdded(fs.g, fs.fat, startCluster, clusters);
    var start: nat := startCluster;
    newStart := startCluster;
    if fs.nextFree != LAST {
      fs.SetFsInfoNextFree(LAST);
    }
    ghost var whole := AddSpace(fs.g.fatType, fs.fat, fs.g.rootFirstCluster, startCluster, clusters);
    ghost var added: seq<nat> := [];
    var i := 0;
    while i < clusters
      invariant 0 <= i <= clusters
      invariant fs.Valid() && fs.OutsideMetaUnchanged()
      invariant |fs.fat| == |old(fs.fat)| && start < |fs.fat|
      invariant |added| == i && newStart == if i == 0 then startCluster else added[0]
      invariant LeftToAdd(fs.g, whole, added, fs.fat, start, clusters - i)
    {
      ghost var fat := fs.fat;
      var found, nextCluster := AppendOne(fs, start);
      AddedOne(fs.g, whole, added, fat, start, clusters - i);
      if !found {
        return false, newStart;
      }
      start := nextCluster;
      if i == 0 {
        newStart := nextCluster;
      }
      added := added + [nextCluster];
      i := i + 1;
    }
    AddedAll(fs.g, whole, added, fs.fat, start);
    ok := true;
  }

  /** Appending `left` more clusters after `last` completes the whole appending. */
  ghost predicate LeftToAdd(g: Mounted, whole: (seq<nat>, seq<nat>), added: seq<nat>, fat: seq<nat>, last: nat,
                            left: nat) {
    && g.rootFirstCluster <= |fat| && last < |fat|
    && whole.0 == AddSpace(g.fatType, fat, g.rootFirstCluster, last, left).0
    && whole.1 == added + AddSpace(g.fatType, fat, g.rootFirstCluster, last, left).1
  }

  lemma NoneAdded(g: Mounted, fat: seq<nat>, last: nat, left: nat)
    requires g.rootFirstCluster <= |fat| && last < |fat|
    ensures LeftToAdd(g, AddSpace(g.fatType, fat, g.rootFirstCluster, last, left), [], fat, last, left)
  {
    hide AddSpace;
  }

  lemma AddedOne(g: Mounted, whole: (seq<nat>, seq<nat>), added: seq<nat>, fat: seq<nat>, last: nat, left: nat)
    requires LeftToAdd(g, whole, added, fat, last, left) && left > 0
    ensures var c := FirstFree(g.fatType, fat, g.rootFirstCluster);
            if c < |fat| then LeftToAdd(g, whole, added + [c], LinkLast(g.fatType, fat, last, c), c, left - 1)
            else whole.0 == fat && whole.1 == added
  {
    AddSpaceStep(g.fatType, fat, g.rootFirstCluster, last, left);
    var c := FirstFree(g.fatType, fat, g.rootFirstCluster);
    hide AddSpace, FirstFree, LinkLast;
    if c < |fat| {
      var rest := AddSpace(g.fatType, LinkLast(g.fatType, fat, last, c), g.rootFirstCluster, c, left - 1);
      assert added + ([c] + rest.1) == added + [c] + rest.1;
    } else {
      assert added + [] == added;
    }
  }

  lemma AddedAll(g: Mounted, whole: (seq<nat>, seq<nat>), added: seq<nat>, fat: seq<nat>, last: nat)
    requires LeftToAdd(g, whole, added, fat, last, 0)
    ensures whole.0 == fat && whole.1 == added
  {
    AddSpaceStep(g.fatType, fat, g.rootFirstCluster, last, 0);
    hide AddSpace;
    assert added + [] == added;
  }

  /** How many clusters hold `size` bytes, computed as the source does. */
  function ClustersForBytes(size: nat, clusterSize: nat): (n: nat)
    requires 0 < clusterSize
    ensures clusterSize * (n - 1) < size <= clusterSize * n || size == n == 0
  {
    var n := size / clusterSize;
    assert size == clusterSize * n + size % clusterSize;
    if size - clusterSize * n != 0 then n + 1 else n
  }

  /** What an allocation of n clusters does.  A new file's first cluster is the first free
      one; needing one cluster, it gets that one, marked as the end.  Otherwise the clusters
      are appended, and the caller's start stays as it was. */
  ghost predicate Allocated(g: Mounted, fat: seq<nat>, newFile: bool, start: nat, n: nat, ok: bool, newStart: nat,
                            fat': seq<nat>)
    requires g.rootFirstCluster <= |fat| && (newFile || start < |fat|)
  {
    var c := if newFile then FirstFree(g.fatType, fat, g.rootFirstCluster) else start;
    if c == |fat| then
      !ok && fat' == fat && newStart == start
    else if newFile && n == 1 then
      ok && newStart == c && fat' == fat[c := LAST % g.fatType.Range()]
    else
      var r := AddSpace(g.fatType, fat, g.rootFirstCluster, c, n);
      fat' == r.0 && (ok <==> |r.1| == n) && newStart == start
  }

  /** fatfs_allocate_free_space.  It hands back a start cluster only when a new file needs a
      single cluster, which is all its callers ask for. */
  method AllocateFreeSpace(fs: Fatfs, newFile: bool, startCluster: nat, size: nat) returns (ok: bool, newStart: nat)
    requires fs.Valid() && fs.media.Reliable()
    requires newFile || startCluster < |fs.fat|
    modifies fs`head, fs`next, fs`order, fs`slots, fs`view, fs`fat, fs`nextFree, fs.media
    ensures fs.Valid() && fs.OutsideMetaUnchanged()
    ensures size == 0 ==> !ok && newStart == startCluster && fs.fat == old(fs.fat)
    ensures size > 0 ==>
            Allocated(fs.g, old(fs.fat), newFile, startCluster,
                      ClustersForBytes(size, fs.g.sectorsPerCluster * SECTOR_SIZE), ok, newStart, fs.fat)
  {
    hide Fatfs.ValidWith, Decode, AddSpace, FirstFree;
    newStart := startCluster;
    if size == 0 {
      return false, newStart;
    }
    if fs.nextFree != LAST {
      fs.SetFsInfoNextFree(LAST);
    }
    var clusterSize := fs.g.sectorsPerCluster * SECTOR_SIZE;
    var clusterCount := size / clusterSize;
    if size - clusterSize * clusterCount != 0 {
      clusterCount := clusterCount + 1;
    }
    assert clusterCount == ClustersForBytes(size, clusterSize);
    hide ClustersForBytes;
    var nextCluster: nat := startCluster;
    if newFile {
      var found;
      found, nextCluster := fs.FindBlankCluster(fs.g.rootFirstCluster);
      if !found {
        return false, newStart;
      }
      if clusterCount == 1 {
        var set1 := fs.SetCluster(nextCluster, LAST);
        return true, nextCluster;
      }
    }
    ok, nextCluster := AddFreeSpace(fs, nextCluster, clusterCount);
  }

  lemma OneIsEnough(clusterSize: nat)
    requires 1 < clusterSize
    ensures ClustersForBytes(1, clusterSize) == 1
  {
    assert 1 / clusterSize == 0;
  }

  /** Creating asks for one byte: one cluster, the first free one. */
  lemma OneByteIsOneCluster(g: Mounted, fat: seq<nat>, start: nat, ok: bool, newStart: nat, fat': seq<nat>)
    requires g.rootFirstCluster <= |fat|
    requires Allocated(g, fat, true, start, ClustersForBytes(1, g.sectorsPerCluster * SECTOR_SIZE), ok, newStart, fat')
    ensures var c := FirstFree(g.fatType, fat, g.rootFirstCluster);
            && (ok <==> c < |fat|)
            && (ok ==> newStart == c && fat' == fat[c := LAST % g.fatType.Range()])
            && (!ok ==> newStart == start && fat' == fat)
  {
    hide FirstFree;
    OneIsEnough(g.sectorsPerCluster * SECTOR_SIZE);
  }

  /** A new file that needs more than one cluster would get them, the first free one in
      front, but its caller is not told where they start. */
  lemma LongStartIsLost(g: Mounted, fat: seq<nat>, start: nat, n: nat, newStart: nat, fat': seq<nat>)
    requires g.rootFirstCluster <= |fat| && n > 1
    requires Allocated(g, fat, true, start, n, true, newStart, fat')
    ensures newStart == start
    ensures var c := FirstFree(g.fatType, fat, g.rootFirstCluster);
            c < |fat| && AddSpace(g.fatType, fat, g.rootFirstCluster, c, n).1[0] == c
  {
    hide FirstFree;
    var c := FirstFree(g.fatType, fat, g.rootFirstCluster);
    AddSpaceStep(g.fatType, fat, g.rootFirstCluster, c, n);
  }
}
