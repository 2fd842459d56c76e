/** fl_fopen: the mode string, and which of opening and creating it leads to. */
module FileModes {

  import opened Words
  import opened Geometry
  import opened FatTable
  import opened FileLayout
  import opened FileSectors
  import opened DirRecords
  import opened Names
  import opened DirSearch
  import opened DirLayout
  import opened DirRoom
  import opened DirUpdate
  import opened DirWrite
  import opened FileState
  import opened FileOpen
  import opened FileCreate

  datatype Flags = Flags(read: bool, write: bool, append: bool, create: bool) {

    /** What one character of the mode string adds. */
    function Next(c: char): Flags {
      if c == 'r' || c == 'R' then this.(read := true)
      else if c == 'w' || c == 'W' then this.(write := true, create := true)
      else if c == 'a' || c == 'A' then this.(write := true, append := true, create := true)
      else if c == '+' then
        if read then this.(write := true)
        else if write then this.(read := true, create := true)
        else if append then Flags(true, true, true, true)
        else this
      else this
    }
  }

  function Mode(mode: string): Flags {
    if mode == "" then Flags(false, false, false, false) else Mode(mode[..|mode| - 1]).Next(mode[|mode| - 1])
  }

  /** Whatever the string, a file is created only to be written, appended to only if it may be
      created, and the mode of the sessions below is one for appending. */
  lemma {:induction false} ModeSound(mode: string)
    ensures Mode(mode).create ==> Mode(mode).write
    ensures Mode(mode).append ==> Mode(mode).create
    ensures Mode("ab") == Flags(false, true, true, true)
  {
    if mode != "" {
      ModeSound(mode[..|mode| - 1]);
    }
    assert "ab"[..1] == "a" && "a"[..0] == "";
    assert Mode("") == Flags(false, false, false, false);
    assert Mode("a") == Flags(false, true, true, true);
  }

  lemma ModeNext(mode: string, c: char)
    ensures Mode(mode + [c]) == Mode(mode).Next(c)
  {
    assert (mode + [c])[..|mode|] == mode;
  }

  lemma FirstMode(c: char)
    ensures Mode([c]) == Flags(false, false, false, false).Next(c)
  {
    ModeNext("", c);
    assert "" + [c] == [c];
  }

  /** Any character but these, the letter b among them, changes nothing. */
  lemma OtherCharacters(mode: string, c: char)
    requires c !in "rRwWaA+"
    ensures Mode(mode + [c]) == Mode(mode)
  {
    ModeNext(mode, c);
  }

  /** The six modes of the C library. */
  lemma StandardModes()
    ensures Mode("r") == Mode("R") == Flags(true, false, false, false)
    ensures Mode("r+") == Flags(true, true, false, false)
    ensures Mode("w") == Mode("W") == Flags(false, true, false, true)
    ensures Mode("w+") == Flags(true, true, false, true)
    ensures Mode("a") == Mode("A") == Flags(false, true, true, true)
    ensures Mode("a+") == Flags(true, true, true, true)
  {
    hide Mode;
    FirstMode('r');
    FirstMode('R');
    FirstMode('w');
    FirstMode('W');
    FirstMode('a');
    FirstMode('A');
    ModeNext("r", '+');
    ModeNext("w", '+');
    ModeNext("a", '+');
    assert "r" + "+" == "r+" && "w" + "+" == "w+" && "a" + "+" == "a+";
  }

  /** The loop over the mode string in fl_fopen. */
  method ParseMode(mode: string) returns (flags: Flags)
    ensures flags == Mode(mode)
  {
    flags := Flags(false, false, false, false);
    var i := 0;
    while i < |mode|
      invariant 0 <= i <= |mode|
      invariant flags == Mode(mode[..i])
    {
      assert mode[..i + 1][..i] == mode[..i];
      flags := flags.Next(mode[i]);
      i := i + 1;
    }
    assert mode[..i] == mode;
  }

  /** Is there a file of that name? */
  ghost predicate IsThere(records: seq<Record>, name: seq<byte>) {
    var f := Search(records, EMPTY_CACHE, Key(name));
    f.Hit? && IsFile(records[f.index])
  }

  /** If there is, this is it. */
  ghost predicate Describes(g: Mounted, fat: seq<nat>, sectors: seq<Sector>, d: Desk, name: seq<byte>) {
    IsThere(Records(d.dirSecs), name) ==> Named(d, name) && FileAs(g, fat, sectors, d)
  }

  lemma FatWritesKeepDescription(g: Mounted, fat: seq<nat>, before: seq<Sector>, after: seq<Sector>, d: Desk,
                                 name: seq<byte>)
    requires Describes(g, fat, before, d, name)
    requires |after| == |before| && forall l :: 0 <= l < |before| && !g.InFat(l) ==> after[l] == before[l]
    ensures Describes(g, fat, after, d, name)
  {
    hide FileAs, Search, Records, Key;
    if IsThere(Records(d.dirSecs), name) {
      FatWritesKeepRest(g, fat, before, after, d);
    }
  }

  /** _open_file for a name that may not be there: it succeeds exactly for one that names a file. */
  method OpenOld(fs: Fatfs, file: FlFile, cluster: nat, name: seq<byte>, ghost d: Desk) returns (ok: bool)
    requires DirOf(fs, cluster, d.place, d.dirSecs) && Describes(fs.g, fs.fat, fs.media.sectors, d, name)
    modifies fs`head, fs`next, fs`order, fs`slots, fs`curAddress, fs`curSector, fs.media, file
    ensures fs.OutsideFatUnchanged() && fs.fat == old(fs.fat)
    ensures !ok && old(fs.Purged()) ==> fs.Purged()
    ensures ok <==> IsThere(Records(d.dirSecs), name)
    ensures ok ==> OpenAs(fs, file, cluster, d.place, d.dirSecs, d.index) && Rewound(file)
    ensures ok ==>
            file.chain == d.chain && file.fileLength == |d.content| <= SECTOR_SIZE * |file.secs| &&
            file.Contents() == d.content
    ensures !ok ==> DirOf(fs, cluster, d.place, d.dirSecs)
  {
    hide DirOf, FileAs, OpenAs, Rewound, Records, Search, Key, Content, Fatfs.Valid, Fatfs.Purged, Volume.InFat;
    ok := OpenFile(fs, file, cluster, name, d);
  }

  /** What fl_fopen hands back for a file that was there. */
  ghost predicate OpenedOld(fs: Fatfs, file: FlFile, cluster: nat, d: Desk)
    reads fs`slots, fs`next, fs`head, fs`order, fs`view, fs`fat, fs`curAddress, fs`curSector, fs.media`sectors
    reads file`chain, file`startCluster, file`lookupIdx, file`lookupCluster, file`dataSector, file`dataAddress,
          file`dataDirty
    reads file`secs, file`byteNum, file`fileLength, file`parentCluster, file`shortName, file`lengthChanged
  {
    && OpenAs(fs, file, cluster, d.place, d.dirSecs, d.index) && Rewound(file)
    && file.chain == d.chain && file.fileLength == |d.content| <= SECTOR_SIZE * |file.secs| &&
       file.Contents() == d.content
  }

  /** What it hands back for one that was not, with the directory records as they were. */
  ghost predicate OpenedNew(fs: Fatfs, file: FlFile, cluster: nat, d: Desk, name: seq<byte>, records: seq<Record>,
                            e: Entry)
    reads fs`slots, fs`next, fs`head, fs`order, fs`view, fs`fat, fs`curAddress, fs`curSector, fs.media`sectors
    reads file`chain, file`startCluster, file`lookupIdx, file`lookupCluster, file`dataSector, file`dataAddress,
          file`dataDirty
    reads file`secs, file`byteNum, file`fileLength, file`parentCluster, file`shortName, file`lengthChanged
  {
    && OpenAs(fs, file, cluster, d.place, d.dirSecs, d.index) && Rewound(file)
    && file.chain == d.chain && file.fileLength == 0 && d.content == []
    && Named(d, name) && e.filename == name && Inserted(records, Records(d.dirSecs), e, d.index)
  }

  /** The second branch of fl_fopen. */
  method CreateIfMissing(fs: Fatfs, file: FlFile, cluster: nat, name: seq<byte>, ghost d: Desk)
    returns (ok: bool, ghost d': Desk, ghost e: Entry)
    requires DirOf(fs, cluster, d.place, d.dirSecs) && |fs.fat| == fs.g.Entries()
    requires Describes(fs.g, fs.fat, fs.media.sectors, d, name)
    requires Search(Records(d.dirSecs), EMPTY_CACHE, Key(name)).Miss? ==>
             CanCreate(fs.g, fs.fat, d.place, Records(d.dirSecs), name)
    modifies fs`head, fs`next, fs`order, fs`slots, fs`view, fs`fat, fs`nextFree, fs`curAddress, fs`curSector, fs.media,
             file
    ensures ok <==> Search(Records(d.dirSecs), EMPTY_CACHE, Key(name)).Miss?
    ensures ok ==> OpenedNew(fs, file, cluster, d', name, Records(d.dirSecs), e)
    ensures ok ==> CreatedIn(fs.g, old(fs.fat), d.place, Records(d.dirSecs), name, fs.fat, d')
    ensures ok ==> Within(fs.g, old(fs.media.sectors), fs.media.sectors, PlaceLbas(fs.g, d'.place))
    ensures !ok ==> DirOf(fs, cluster, d.place, d.dirSecs) && fs.OutsideFatUnchanged() && fs.fat == old(fs.fat)
    ensures !ok ==> Describes(fs.g, fs.fat, fs.media.sectors, d, name)
  {
    hide DirOf, OpenAs, Rewound, Records, Search, Key, Fatfs.Valid, CanCreate, CreatedIn, Within, Inserted, Named,
         PlaceLbas, Describes, Volume.InFat;
    ghost var before := fs.media.sectors;
    ok, d', e := CreateFile(fs, file, cluster, name, d.place, d.dirSecs);
    if !ok {
      FatWritesKeepDescription(fs.g, fs.fat, before, fs.media.sectors, d, name);
    }
  }

  /** The first branch of fl_fopen: to be read, a file must be there. */
  method OpenToRead(fs: Fatfs, file: FlFile, cluster: nat, name: seq<byte>, flags: Flags, ghost d: Desk)
    returns (ok: bool)
    requires DirOf(fs, cluster, d.place, d.dirSecs) && Describes(fs.g, fs.fat, fs.media.sectors, d, name)
    modifies fs`head, fs`next, fs`order, fs`slots, fs`curAddress, fs`curSector, fs.media, file
    ensures fs.OutsideFatUnchanged() && fs.fat == old(fs.fat)
    ensures ok <==> flags.read && IsThere(Records(d.dirSecs), name)
    ensures ok ==> OpenedOld(fs, file, cluster, d)
    ensures !ok ==> DirOf(fs, cluster, d.place, d.dirSecs) && Describes(fs.g, fs.fat, fs.media.sectors, d, name)
  {
    hide DirOf, Records, Search, Key, Describes, Volume.InFat, OpenAs, Rewound, Content, Fatfs.Valid, IsThere;
    ok := false;
    if flags.read {
      ghost var before := fs.media.sectors;
      ok := OpenOld(fs, file, cluster, name, d);
      if !ok {
        FatWritesKeepDescription(fs.g, fs.fat, before, fs.media.sectors, d, name);
      }
    }
  }

  /** fl_fopen: read what is there, else create what is not, else, not having tried to read,
      open what is there to write it. */
  method Open(fs: Fatfs, file: FlFile, cluster: nat, name: seq<byte>, flags: Flags, ghost d: Desk)
    returns (ok: bool, ghost d': Desk, ghost e: Entry)
    requires flags.create ==> flags.write
    requires DirOf(fs, cluster, d.place, d.dirSecs) && |fs.fat| == fs.g.Entries()
    requires Describes(fs.g, fs.fat, fs.media.sectors, d, name)
    requires flags.create && Search(Records(d.dirSecs), EMPTY_CACHE, Key(name)).Miss? ==>
             CanCreate(fs.g, fs.fat, d.place, Records(d.dirSecs), name)
    modifies fs`head, fs`next, fs`order, fs`slots, fs`view, fs`fat, fs`nextFree, fs`curAddress, fs`curSector, fs.media,
             file
    ensures ok <==> || (IsThere(Records(d.dirSecs), name) && (flags.read || flags.create))
                    || (flags.create && Search(Records(d.dirSecs), EMPTY_CACHE, Key(name)).Miss?)
    ensures ok ==> file.canRead == flags.read && file.canWrite == flags.write && file.append == flags.append
    ensures ok && IsThere(Records(d.dirSecs), name) ==>
              d' == d && OpenedOld(fs, file, cluster, d) && fs.OutsideFatUnchanged() && fs.fat == old(fs.fat)
    ensures ok && !IsThere(Records(d.dirSecs), name) ==>
              && OpenedNew(fs, file, cluster, d', name, Records(d.dirSecs), e)
              && CreatedIn(fs.g, old(fs.fat), d.place, Records(d.dirSecs), name, fs.fat, d')
              && Within(fs.g, old(fs.media.sectors), fs.media.sectors, PlaceLbas(fs.g, d'.place))
    ensures !ok ==> DirOf(fs, cluster, d.place, d.dirSecs) && fs.OutsideFatUnchanged() && fs.fat == old(fs.fat)
  {
    hide DirOf, Records, Search, Key, Fatfs.Valid, CanCreate, CreatedIn, Within, PlaceLbas, Describes, Volume.InFat,
         OpenedNew, OpenedOld, OpenAs, Rewound, Content, IsThere;
    ThereIsFound(Records(d.dirSecs), name);
    d', e := d, Entry(name, Zeros(11), 0, 0, false);
    ghost var before := fs.media.sectors;
    ok := OpenToRead(fs, file, cluster, name, flags, d);
    ghost var middle := fs.media.sectors;
    if !ok && flags.create {
      ok, d', e := CreateIfMissing(fs, file, cluster, name, d);
      FatIsWithin(fs.g, before, middle, PlaceLbas(fs.g, d'.place));
      WithinFirst(fs.g, before, middle, fs.media.sectors, PlaceLbas(fs.g, d'.place));
    }
    if !flags.read && flags.create && !ok {
      if flags.write || flags.append {
        d' := d;
        ok := OpenOld(fs, file, cluster, name, d);
        FoundIsOpened(fs, file, cluster, d, ok);
      }
    }
    if ok {
      file.canRead, file.canWrite, file.append := flags.read, flags.write, flags.append;
    }
  }

  lemma ThereIsFound(records: seq<Record>, name: seq<byte>)
    ensures IsThere(records, name) ==> Search(records, EMPTY_CACHE, Key(name)).Hit?
  {
  }

  lemma WithinFirst(g: Mounted, a: seq<Sector>, b: seq<Sector>, c: seq<Sector>, lbas: seq<nat>)
    requires Within(g, a, b, lbas)
    ensures Within(g, b, c, lbas) ==> Within(g, a, c, lbas)
  {
    hide Within;
    if Within(g, b, c, lbas) {
      WithinTransitive(g, a, b, c, lbas, lbas);
    }
  }

  lemma FoundIsOpened(fs: Fatfs, file: FlFile, cluster: nat, d: Desk, ok: bool)
    requires ok ==> OpenAs(fs, file, cluster, d.place, d.dirSecs, d.index) && Rewound(file)
    requires ok ==>
             file.chain == d.chain && file.fileLength == |d.content| <= SECTOR_SIZE * |file.secs| &&
             file.Contents() == d.content
    ensures ok ==> OpenedOld(fs, file, cluster, d)
  {
    hide OpenAs, Rewound, Content;
  }
}
