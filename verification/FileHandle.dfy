/** Any calls on an open file: the handle behaves like a sequence of bytes with a position. */
module FileHandle {

  import opened Words
  import opened Geometry
  import opened FatTable
  import opened FileLayout
  import opened FileSpec
  import opened FileContent
  import opened FileSectors
  import opened FileLib
  import opened FileWrite
  import opened FileRead
  import opened DirLayout
  import opened FileOpen
  import opened FileClose

  datatype Call = Fread(count: nat) | Fwrite(data: seq<byte>) | Fflush | Fseek(offset: int, origin: Origin)

  /** What a call returns, and the bytes it has read. */
  datatype Answer = Answer(result: int, data: seq<byte>)

  /** What the caller may do with the handle. */
  datatype Rights = Rights(canRead: bool, canWrite: bool, append: bool)

  /** A file as its caller sees it; `saved` if nothing has been written since the last flush. */
  datatype ByteFile = ByteFile(contents: seq<byte>, pos: nat, saved: bool) {

    predicate Valid() {
      pos <= |contents|
    }

    /** Where a write begins. */
    function Start(rights: Rights): nat {
      if rights.append then |contents| else pos
    }

    function Step(rights: Rights, call: Call): (ByteFile, Answer)
      requires Valid()
    {
      match call
      case Fread(count) =>
        if !rights.canRead then (this, Answer(-1, []))
        else if count == 0 then (this, Answer(0, []))
        else if pos == |contents| then (this, Answer(-1, []))
        else
          var n := if pos + count > |contents| then |contents| - pos else count;
          (this.(pos := pos + n), Answer(n, contents[pos..pos + n]))
      case Fwrite(data) =>
        if !rights.canWrite then (this, Answer(-1, []))
        else
          var p := Start(rights);
          (ByteFile(Overwrite(contents, p, data), p + |data|, saved && data == []), Answer(|data|, []))
      case Fflush => (this.(saved := true), Answer(0, []))
      case Fseek(offset, origin) =>
        if (origin == SeekEnd && offset != 0) || origin == NoOrigin then (this, Answer(-1, []))
        else (this.(pos := Clipped(SeekTarget(pos, |contents|, offset, origin), |contents|)), Answer(0, []))
    }

    /** What is written stays within the limit, and nothing unsaved is sought away from. */
    predicate Allows(rights: Rights, call: Call, limit: nat)
      requires Valid()
    {
      match call
      case Fwrite(data) => rights.canWrite ==> Start(rights) + |data| <= limit
      case Fseek(_, _) => saved
      case _ => true
    }
  }

  lemma StepValid(s: ByteFile, rights: Rights, call: Call)
    requires s.Valid()
    ensures s.Step(rights, call).0.Valid()
  {
  }

  lemma StepGrows(s: ByteFile, rights: Rights, data: seq<byte>)
    requires s.Valid()
    ensures |s.Step(rights, Fwrite(data)).0.contents| >= |s.contents|
  {
  }

  /** The handle stands for the file, and a limit it may still grow to. */
  ghost predicate Refines(fs: Fatfs, file: FlFile, s: ByteFile, rights: Rights, limit: nat)
    reads fs`slots, fs`next, fs`head, fs`order, fs`view, fs`fat, fs.media`sectors, file
  {
    && fs.Valid() && fs.media.Reliable() && file.Valid(fs) && s.Valid()
    && file.Contents() == s.contents && file.byteNum == s.pos && (s.saved ==> !file.dataDirty)
    && rights == Rights(file.canRead, file.canWrite, file.append)
    && limit < WORD32 && SectorsFor(limit) <= Capacity(fs.g, fs.fat, file.chain)
  }

  lemma WroteRefines(g: Mounted, a: Snap, len: nat, b: Snap, len': nat, p: nat, data: seq<byte>, goal: nat)
    requires Wrote(g, a, len, b, len', p, data, goal)
    ensures Evolved(g, a.fat, a.chain, a.sectors, b.fat, b.chain, b.sectors)
    ensures |a.fat| == |b.fat| == g.Entries() && Capacity(g, b.fat, b.chain) == Capacity(g, a.fat, a.chain)
  {
    hide Rewritten, Needed, Evolved;
    EvolvedRoom(g, a.fat, a.chain, a.sectors, b.fat, b.chain, b.sectors);
  }

  method DoRead(fs: Fatfs, file: FlFile, count: nat, ghost s: ByteFile, ghost rights: Rights, ghost limit: nat)
    returns (a: Answer)
    requires Refines(fs, file, s, rights, limit)
    modifies fs`head, fs`next, fs`order, fs`slots, fs`view, fs`fat, fs`nextFree, fs.media
    modifies file`lookupIdx, file`lookupCluster, file`chain, file`dataDirty, file`secs, file`dataAddress,
             file`dataSector, file`byteNum
    ensures Refines(fs, file, s.Step(rights, Fread(count)).0, rights, limit) && a == s.Step(rights, Fread(count)).1
    ensures Evolved(fs.g, old(fs.fat), old(file.chain), old(fs.media.sectors), fs.fat, file.chain, fs.media.sectors)
  {
    hide Fatfs.ValidWith, FlFile.Buffered, Wrote, Evolved, Content, Capacity, SectorsFor;
    ghost var before := file.Snapshot(fs);
    var r, data := Read(fs, file, count);
    WroteRefines(fs.g, before, file.fileLength, file.Snapshot(fs), file.fileLength, 0, [], SectorsFor(file.fileLength));
    a := Answer(r, data);
  }

  method DoWrite(fs: Fatfs, file: FlFile, data: seq<byte>, ghost s: ByteFile, ghost rights: Rights,
                 ghost limit: nat) returns (a: Answer)
    requires Refines(fs, file, s, rights, limit) && s.Allows(rights, Fwrite(data), limit)
    modifies fs`head, fs`next, fs`order, fs`slots, fs`view, fs`fat, fs`nextFree, fs.media
    modifies file`lookupIdx, file`lookupCluster, file`chain, file`dataDirty, file`secs, file`dataAddress,
             file`dataSector
    modifies file`byteNum, file`fileLength, file`lengthChanged
    ensures Refines(fs, file, s.Step(rights, Fwrite(data)).0, rights, limit) && a == s.Step(rights, Fwrite(data)).1
    ensures (old(file.lengthChanged) ==> file.lengthChanged) &&
            (file.lengthChanged || file.fileLength == old(file.fileLength))
    ensures Evolved(fs.g, old(fs.fat), old(file.chain), old(fs.media.sectors), fs.fat, file.chain, fs.media.sectors)
  {
    hide Fatfs.ValidWith, FlFile.Buffered, Wrote, Evolved, Content, Capacity, SectorsFor, NoSlack, Overwrite,
         FlFile.Held;
    ghost var before, len, p := file.Snapshot(fs), file.fileLength, s.Start(rights);
    if file.canWrite {
      SectorsForMonotone(p + |data|, limit);
    }
    var r;
    ghost var taken;
    r, taken := Write(fs, file, data);
    if file.canWrite {
      WroteRefines(fs.g, before, len, file.Snapshot(fs), file.fileLength, p, data[..taken], SectorsFor(p + |data|));
    } else {
      Unchanged(fs, file);
    }
    StepGrows(s, rights, data);
    a := Answer(r, []);
  }

  lemma Unchanged(fs: Fatfs, file: FlFile)
    requires file.Valid(fs)
    ensures Evolved(fs.g, fs.fat, file.chain, fs.media.sectors, fs.fat, file.chain, fs.media.sectors)
  {
    EvolvedSame(fs.g, fs.fat, file.chain, fs.media.sectors);
  }

  method DoFlush(fs: Fatfs, file: FlFile, ghost s: ByteFile, ghost rights: Rights, ghost limit: nat)
    requires Refines(fs, file, s, rights, limit)
    modifies fs`head, fs`next, fs`order, fs`slots, fs`view, fs`fat, fs`nextFree, fs.media
    modifies file`lookupIdx, file`lookupCluster, file`chain, file`dataDirty, file`secs
    ensures Refines(fs, file, s.(saved := true), rights, limit) && !file.dataDirty
    ensures Evolved(fs.g, old(fs.fat), old(file.chain), old(fs.media.sectors), fs.fat, file.chain, fs.media.sectors)
  {
    hide Fatfs.ValidWith, Evolved, Content, Capacity, SectorsFor, Coupled, FlFile.OnChain, AllClusters, Lbas;
    ghost var before := file.Snapshot(fs);
    Flush(fs, file);
    EvolvedRoom(fs.g, before.fat, before.chain, before.sectors, fs.fat, file.chain, fs.media.sectors);
    ContentPrefix(before.secs, file.secs, file.fileLength);
  }

  method DoSeek(fs: Fatfs, file: FlFile, offset: int, origin: Origin, ghost s: ByteFile, ghost rights: Rights,
                ghost limit: nat)
    returns (a: Answer)
    requires Refines(fs, file, s, rights, limit) && s.saved
    modifies file`byteNum, file`dataAddress, file`dataDirty
    ensures Refines(fs, file, s.Step(rights, Fseek(offset, origin)).0, rights, limit)
    ensures a == s.Step(rights, Fseek(offset, origin)).1
  {
    hide Fatfs.ValidWith, Content, Capacity, SectorsFor, SeekTarget, OnDisk, AllClusters, Lbas, FlFile.Buffered,
         FlFile.Valid;
    var r := Seek(fs, file, offset, origin);
    a := Answer(r, []);
  }

  method DoCall(fs: Fatfs, file: FlFile, call: Call, ghost s: ByteFile, ghost rights: Rights, ghost limit: nat)
    returns (a: Answer)
    requires Refines(fs, file, s, rights, limit) && s.Allows(rights, call, limit)
    modifies fs`head, fs`next, fs`order, fs`slots, fs`view, fs`fat, fs`nextFree, fs.media
    modifies file`lookupIdx, file`lookupCluster, file`chain, file`dataDirty, file`secs, file`dataAddress,
             file`dataSector
    modifies file`byteNum, file`fileLength, file`lengthChanged
    ensures Refines(fs, file, s.Step(rights, call).0, rights, limit) && a == s.Step(rights, call).1
    ensures (old(file.lengthChanged) ==> file.lengthChanged) &&
            (file.lengthChanged || file.fileLength == old(file.fileLength))
    ensures Evolved(fs.g, old(fs.fat), old(file.chain), old(fs.media.sectors), fs.fat, file.chain, fs.media.sectors)
  {
    hide Fatfs.ValidWith, FlFile.Buffered, Evolved, Content, Overwrite, SeekTarget, Capacity, SectorsFor;
    match call
    case Fread(count) =>
      a := DoRead(fs, file, count, s, rights, limit);
    case Fwrite(data) =>
      a := DoWrite(fs, file, data, s, rights, limit);
    case Fflush =>
      DoFlush(fs, file, s, rights, limit);
      a := Answer(0, []);
    case Fseek(offset, origin) =>
      Unchanged(fs, file);
      a := DoSeek(fs, file, offset, origin, s, rights, limit);
  }

  /** The file after a run of calls, and their answers. */
  function AfterCalls(s: ByteFile, rights: Rights, calls: seq<Call>): (r: (ByteFile, seq<Answer>))
    requires s.Valid()
    ensures r.0.Valid() && |r.1| == |calls|
    decreases |calls|
  {
    if calls == [] then (s, [])
    else
      var (s', a) := s.Step(rights, calls[0]);
      var (end, answers) := AfterCalls(s', rights, calls[1..]);
      (end, [a] + answers)
  }

  predicate AllowsRun(s: ByteFile, rights: Rights, calls: seq<Call>, limit: nat)
    requires s.Valid()
    decreases |calls|
  {
    calls == [] || (s.Allows(rights, calls[0], limit) &&
                    AllowsRun(s.Step(rights, calls[0]).0, rights, calls[1..], limit))
  }

  lemma HandleHolds(fs: Fatfs, file: FlFile, s: ByteFile, rights: Rights, limit: nat)
    requires Refines(fs, file, s, rights, limit) && s.saved
    ensures AllClusters(fs.g, file.chain) && Hold(fs.media.sectors, Lbas(fs.g, file.chain), file.secs)
  {
    CoupledIsHold(fs.media.sectors, Lbas(fs.g, file.chain), file.dataAddress, file.dataSector, file.secs);
  }

  /**
   * Any calls within the limit are answered as by the sequence of bytes, which the handle still
   * stands for; once saved it is on the medium alone.
   */
  method RunCalls(fs: Fatfs, file: FlFile, calls: seq<Call>, ghost s: ByteFile, ghost rights: Rights, ghost limit: nat)
    returns (answers: seq<Answer>)
    requires Refines(fs, file, s, rights, limit) && AllowsRun(s, rights, calls, limit)
    modifies fs`head, fs`next, fs`order, fs`slots, fs`view, fs`fat, fs`nextFree, fs.media
    modifies file`lookupIdx, file`lookupCluster, file`chain, file`dataDirty, file`secs, file`dataAddress,
             file`dataSector
    modifies file`byteNum, file`fileLength, file`lengthChanged
    ensures Refines(fs, file, AfterCalls(s, rights, calls).0, rights, limit) &&
            answers == AfterCalls(s, rights, calls).1
    ensures (old(file.lengthChanged) ==> file.lengthChanged) &&
            (file.lengthChanged || file.fileLength == old(file.fileLength))
    ensures Evolved(fs.g, old(fs.fat), old(file.chain), old(fs.media.sectors), fs.fat, file.chain, fs.media.sectors)
    ensures AfterCalls(s, rights, calls).0.saved ==>
              AllClusters(fs.g, file.chain) && Hold(fs.media.sectors, Lbas(fs.g, file.chain), file.secs)
  {
    hide FlFile.Valid, Evolved, Capacity, SectorsFor, Content, ByteFile.Step, ByteFile.Allows, AllClusters, Hold, Lbas,
         Fatfs.Valid;
    ghost var before, was := file.Snapshot(fs), s;
    ghost var s := s;
    Unchanged(fs, file);
    answers := [];
    assert calls[0..] == calls;
    var i := 0;
    while i < |calls|
      invariant 0 <= i <= |calls|
      invariant Refines(fs, file, s, rights, limit) && AllowsRun(s, rights, calls[i..], limit)
      invariant AfterCalls(was, rights, calls).0 == AfterCalls(s, rights, calls[i..]).0
      invariant AfterCalls(was, rights, calls).1 == answers + AfterCalls(s, rights, calls[i..]).1
      invariant (old(file.lengthChanged) ==> file.lengthChanged) &&
                (file.lengthChanged || file.fileLength == old(file.fileLength))
      invariant Evolved(fs.g, before.fat, before.chain, before.sectors, fs.fat, file.chain, fs.media.sectors)
    {
      ghost var now := file.Snapshot(fs);
      var a := DoCall(fs, file, calls[i], s, rights, limit);
      EvolvedTransitive(fs.g, before.fat, before.chain, before.sectors, now.fat, now.chain, now.sectors, fs.fat,
                        file.chain, fs.media.sectors);
      RunNext(s, rights, calls, i);
      s := s.Step(rights, calls[i]).0;
      answers := answers + [a];
      i := i + 1;
    }
    if s.saved {
      HandleHolds(fs, file, s, rights, limit);
    }
  }

  lemma RunNext(s: ByteFile, rights: Rights, calls: seq<Call>, i: nat)
    requires s.Valid() && i < |calls|
    ensures AfterCalls(s, rights, calls[i..]).0 == AfterCalls(s.Step(rights, calls[i]).0, rights, calls[i + 1..]).0
    ensures AfterCalls(s, rights, calls[i..]).1 == [s.Step(rights, calls[i]).1] +
            AfterCalls(s.Step(rights, calls[i]).0, rights, calls[i + 1..]).1
  {
    assert calls[i..][1..] == calls[i + 1..];
  }

  lemma SeekAndRead(s: ByteFile, rights: Rights, p: nat, data: seq<byte>)
    requires s.Valid() && rights.canRead && data != [] && |s.contents| < WORD32
    requires p + |data| <= |s.contents| && s.contents[p..p + |data|] == data
    ensures s.Step(rights, Fseek(p, SeekSet)) == (s.(pos := p), Answer(0, []))
    ensures s.(pos := p).Step(rights, Fread(|data|)) == (s.(pos := p + |data|), Answer(|data|, data))
  {
  }

  lemma OverwriteHas(was: seq<byte>, p: nat, data: seq<byte>)
    requires p <= |was|
    ensures var now := Overwrite(was, p, data); p + |data| <= |now| <= |was| + |data| && now[p..p + |data|] == data
  {
  }

  /** What is written, saved, sought and read is read as it was written. */
  lemma WriteThenRead(s: ByteFile, rights: Rights, data: seq<byte>)
    requires s.Valid() && rights.canRead && rights.canWrite && data != [] && |s.contents| + |data| < WORD32
    ensures var p := s.Start(rights);
      var after := AfterCalls(s, rights, [Fwrite(data), Fflush, Fseek(p, SeekSet), Fread(|data|)]);
      && after.1 == [Answer(|data|, []), Answer(0, []), Answer(0, []), Answer(|data|, data)]
      && after.0 == ByteFile(Overwrite(s.contents, p, data), p + |data|, true)
  {
    var p := s.Start(rights);
    var calls := [Fwrite(data), Fflush, Fseek(p, SeekSet), Fread(|data|)];
    var s1, s2 := s.Step(rights, calls[0]).0, s.Step(rights, calls[0]).0.(saved := true);
    assert s.Step(rights, calls[0]).1 == Answer(|data|, []) && s1.Step(rights, calls[1]) == (s2, Answer(0, []));
    OverwriteHas(s.contents, p, data);
    SeekAndRead(s2, rights, p, data);
    hide ByteFile.Step, Overwrite, AfterCalls;
    RunNext(s, rights, calls, 0);
    RunNext(s1, rights, calls, 1);
    RunNext(s2, rights, calls, 2);
    RunNext(s2.(pos := p), rights, calls, 3);
    RunNothing(s2.(pos := p + |data|), rights, calls[4..]);
    assert calls[0..] == calls;
  }

  lemma RunNothing(s: ByteFile, rights: Rights, calls: seq<Call>)
    requires s.Valid() && calls == []
    ensures AfterCalls(s, rights, calls) == (s, [])
  {
  }


  lemma SeekAndWrite(s: ByteFile, rights: Rights, data: seq<byte>)
    requires s.Valid() && rights.canWrite && data != [] && |s.contents| < 0x8000_0000
    ensures s.Step(rights, Fseek(0, SeekEnd)).0 == s.(pos := |s.contents|)
    ensures s.(pos := |s.contents|).Step(rights, Fwrite(data)).0 ==
            ByteFile(s.contents + data, |s.contents| + |data|, false)
  {
    SeekLeads(s.pos, |s.contents|, 0);
    assert Overwrite(s.contents, |s.contents|, data) == s.contents + data;
  }

  lemma SeekBackAndRead(s: ByteFile, rights: Rights, n: nat)
    requires s.Valid() && rights.canRead && 0 < n <= s.pos == |s.contents| < 0x8000_0000
    ensures s.Step(rights, Fseek(0 - n, SeekCur)).0 == s.(pos := s.pos - n)
    ensures s.(pos := s.pos - n).Step(rights, Fread(n)) == (s, Answer(n, s.contents[s.pos - n..]))
  {
    SeekLeads(s.pos, |s.contents|, 0 - n);
    assert s.contents[s.pos - n..s.pos] == s.contents[s.pos - n..];
  }

  lemma FlushSaves(s: ByteFile, rights: Rights)
    requires s.Valid()
    ensures s.Step(rights, Fflush).0 == s.(saved := true)
  {
  }

  /** Seeking to the end before a write appends it, and seeking back by what was written reads it. */
  lemma SeekToEndAppends(s: ByteFile, rights: Rights, data: seq<byte>)
    requires s.Valid() && s.saved && rights.canRead && rights.canWrite && data != []
    requires |s.contents| + |data| < 0x8000_0000
    ensures var after := AfterCalls(s, rights, [Fseek(0, SeekEnd), Fwrite(data), Fflush, Fseek(0 - |data|, SeekCur),
                                                Fread(|data|)]);
            && after.0 == ByteFile(s.contents + data, |s.contents| + |data|, true)
            && after.1[4] == Answer(|data|, data)
  {
    hide ByteFile.Step, Overwrite, AfterCalls;
    var n, end := |s.contents|, |s.contents| + |data|;
    var back := Fseek(0 - |data|, SeekCur);
    var s1, s2, s3 := s.(pos := n), ByteFile(s.contents + data, end, false), ByteFile(s.contents + data, end, true);
    SeekAndWrite(s, rights, data);
    FlushSaves(s2, rights);
    SeekBackAndRead(s3, rights, |data|);
    assert (s.contents + data)[n..] == data;
    RunFirst(s, rights, Fseek(0, SeekEnd), [Fwrite(data), Fflush, back, Fread(|data|)]);
    RunFirst(s1, rights, Fwrite(data), [Fflush, back, Fread(|data|)]);
    RunFirst(s2, rights, Fflush, [back, Fread(|data|)]);
    RunFirst(s3, rights, back, [Fread(|data|)]);
    RunFirst(s3.(pos := n), rights, Fread(|data|), []);
    RunNothing(s3, rights, []);
    assert [Fread(|data|)] + [] == [Fread(|data|)];
    assert [back] + [Fread(|data|)] == [back, Fread(|data|)];
    assert [Fflush] + [back, Fread(|data|)] == [Fflush, back, Fread(|data|)];
    assert [Fwrite(data)] + [Fflush, back, Fread(|data|)] == [Fwrite(data), Fflush, back, Fread(|data|)];
    assert [Fseek(0, SeekEnd)] + [Fwrite(data), Fflush, back, Fread(|data|)] ==
           [Fseek(0, SeekEnd), Fwrite(data), Fflush, back, Fread(|data|)];
  }

  lemma RunFirst(s: ByteFile, rights: Rights, call: Call, rest: seq<Call>)
    requires s.Valid()
    ensures var a, b := AfterCalls(s, rights, [call] + rest), AfterCalls(s.Step(rights, call).0, rights, rest);
            a.0 == b.0 && a.1 == [s.Step(rights, call).1] + b.1
  {
    assert ([call] + rest)[1..] == rest;
  }

  /** A write changes the bytes it covers and no others. */
  lemma WriteChanges(s: ByteFile, rights: Rights, data: seq<byte>, k: nat)
    requires s.Valid() && rights.canWrite
    requires k < |s.Step(rights, Fwrite(data)).0.contents|
    ensures var p, after := if rights.append then |s.contents| else s.pos, s.Step(rights, Fwrite(data)).0.contents;
            && |after| == (if p + |data| > |s.contents| then p + |data| else |s.contents|)
            && after[k] == if p <= k < p + |data| then data[k - p] else s.contents[k]
  {
  }
}
