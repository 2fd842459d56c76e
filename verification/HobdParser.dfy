/** The frame parser of the gateway: which bytes it reports a message at, for any stream. */
module HobdParser {

  import opened Words
  import opened HobdProtocol

  datatype State = GetType | GetSize | GetSubtype | GetData | GetChecksum

  datatype Status = NoData | Ok | BadChecksum

  /** hobd_parser_s */
  datatype Parser = Parser(state: State, bytesRead: byte, dataSize: byte, kind: byte, size: byte, subtype: byte,
                           data: seq<byte>, checksumPart: nat, checksum: byte, rxTimestamp: word32, valid: nat,
                               invalid: nat)
  {
    predicate Valid() {
      && |data| == SIZE_MAX && checksumPart < 0x1_0000 && valid < 0x1_0000 && invalid < 0x1_0000
      && (state == GetSubtype ==> size >= SIZE_MIN && dataSize == size - SIZE_MIN)
      && (state == GetData ==> dataSize <= DATA_MAX && bytesRead < dataSize)
    }

    /** hobd_parser_parse_byte, `now` being the time it may read. */
    function Next(b: byte, now: word32): (Parser, Status)
      requires Valid()
    {
      match state
      case GetType =>
        if ValidType(b) then
          (this.(dataSize := 0, kind := b, rxTimestamp := 0, checksum := 0, checksumPart := b, state := GetSize),
           NoData)
        else (this, NoData)
      case GetSize =>
        if b >= SIZE_MIN then
          (this.(size := b, dataSize := b - SIZE_MIN, checksumPart := (checksumPart + b) % 0x1_0000,
                 state := GetSubtype), NoData)
        else (this, NoData)
      case GetSubtype =>
        if ValidSubtype(b) then
          (this.(rxTimestamp := now, subtype := b, checksumPart := (checksumPart + b) % 0x1_0000, bytesRead := 0,
                 state := if size > SIZE_MIN then GetData else GetChecksum), NoData)
        else
          (this.(invalid := (invalid + 1) % 0x1_0000, state := GetType), NoData)
      case GetData =>
        (this.(data := data[bytesRead := b], bytesRead := bytesRead + 1, checksumPart := (checksumPart + b) % 0x1_0000,
               state := if bytesRead + 1 == dataSize then GetChecksum else GetData), NoData)
      case GetChecksum =>
        var part := if checksumPart > 0x100 then 0x100 - checksumPart % 0x100 else 0x100 - checksumPart;
        var sum := part % 0x100;
        var p := this.(checksumPart := part, checksum := sum, state := GetType);
        if sum == b then (p.(valid := (valid + 1) % 0x1_0000), Ok)
            else (p.(invalid := (invalid + 1) % 0x1_0000), BadChecksum)
    }

    /** The message the fields hold once it has been reported. */
    function Received(): Message
      requires |data| == SIZE_MAX
    {
      Message(kind, subtype, data[..dataSize])
    }
  }

  class HobdParser {
    var state: State
    var bytesRead: byte
    var dataSize: byte
    var kind: byte
    var size: byte
    var subtype: byte
    const data: array<byte>
    var checksumPart: nat
    var checksum: byte
    var rxTimestamp: word32
    var valid: nat
    var invalid: nat

    ghost function Value(): Parser
      reads this, data
    {
      Parser(state, bytesRead, dataSize, kind, size, subtype, data[..], checksumPart, checksum, rxTimestamp, valid,
             invalid)
    }

    ghost predicate Valid()
      reads this, data
    {
      Value().Valid()
    }

    /** hobd_parser_init */
    constructor ()
      ensures Valid() && Value().state == GetType && fresh(data)
    {
      data := new byte[SIZE_MAX](_ => 0);
      state := GetType;
      bytesRead, dataSize, kind, size, subtype := 0, 0, 0, 0, 0;
      checksumPart, checksum, rxTimestamp, valid, invalid := 0, 0, 0, 0, 0;
    }

    /** Its data branch. */
    method TakeData(b: byte, ghost now: word32)
      requires Valid() && state == GetData
      modifies this, data
      ensures Valid() && (Value(), NoData) == old(Value()).Next(b, now)
    {
      if dataSize != 0 {
        data[bytesRead] := b;
        bytesRead := bytesRead + 1;
        checksumPart := (checksumPart + b) % 0x1_0000;
        if bytesRead == dataSize {
          state := GetChecksum;
        }
      }
    }

    /** Its checksum branch. */
    method TakeChecksum(b: byte, ghost now: word32) returns (ret: Status)
      requires Valid() && state == GetChecksum
      modifies this
      ensures Valid() && (Value(), ret) == old(Value()).Next(b, now)
    {
      if checksumPart > 0x100 {
        checksumPart := 0x100 - checksumPart % 0x100;
      } else {
        checksumPart := 0x100 - checksumPart;
      }
      checksum := checksumPart % 0x100;
      if checksum == b {
        valid := (valid + 1) % 0x1_0000;
        ret := Ok;
      } else {
        invalid := (invalid + 1) % 0x1_0000;
        ret := BadChecksum;
      }
      state := GetType;
    }

    /** hobd_parser_parse_byte */
    method ParseByte(b: byte, now: word32) returns (ret: Status)
      requires Valid()
      modifies this, data
      ensures Valid() && (Value(), ret) == old(Value()).Next(b, now)
    {
      hide ValidType, ValidSubtype;
      ret := NoData;
      if state == GetType {
        if ValidType(b) {
          dataSize := 0;
          kind := b;
          rxTimestamp := 0;
          checksum := 0;
          checksumPart := b;
          state := GetSize;
        }
      } else if state == GetSize {
        if b >= SIZE_MIN {
          size := b;
          dataSize := b - SIZE_MIN;
          checksumPart := (checksumPart + b) % 0x1_0000;
          state := GetSubtype;
        }
      } else if state == GetSubtype {
        if ValidSubtype(b) {
          rxTimestamp := now;
          subtype := b;
          checksumPart := (checksumPart + b) % 0x1_0000;
          bytesRead := 0;
          state := if size > SIZE_MIN then GetData else GetChecksum;
        } else {
          invalid := (invalid + 1) % 0x1_0000;
          state := GetType;
        }
      } else if state == GetData {
        TakeData(b, now);
      } else {
        ret := TakeChecksum(b, now);
      }
    }
  }

  /* ----------- what the fields mean in the middle of a message ----------- */

  /** The bytes read since the parser last waited for a type. */
  ghost predicate Reading(p: Parser, seg: seq<byte>) {
    && p.Valid()
    && (p.state == GetType <==> seg == [])
    && (seg != [] ==>
          var r := Retained(seg);
          && ValidType(r[0]) && p.kind == r[0] && p.checksumPart == Sum(r)
          && (p.state == GetSize <==> |r| == 1)
          && (|r| >= 2 ==> SIZE_MIN <= r[1] == p.size && p.dataSize == p.size - SIZE_MIN)
          && (p.state == GetSubtype <==> |r| == 2)
          && (|r| >= 3 ==>
              ValidSubtype(r[2]) && p.subtype == r[2] && |r| - 3 <= p.dataSize && p.data[..|r| - 3] == r[3..])
          && (p.state == GetData ==> |r| == 3 + p.bytesRead)
          && (p.state == GetChecksum <==> |r| >= 3 && |r| == 3 + p.dataSize))
  }

  lemma ReadType(p: Parser, b: byte, now: word32)
    requires Reading(p, []) && ValidType(b)
    ensures Reading(p.Next(b, now).0, [b])
  {
    assert Skipped([]) == 0 && [b][1..] == [];
    assert Retained([b]) == [b];
    SumMore([], b);
    assert [] + [b] == [b];
  }

  lemma ReadSize(p: Parser, seg: seq<byte>, b: byte, now: word32)
    requires Reading(p, seg) && p.state == GetSize
    ensures p.Next(b, now).1 == NoData && Reading(p.Next(b, now).0, seg + [b])
  {
    hide Retained, Sum, ValidType, ValidSubtype;
    RetainedMore(seg, b);
    SumMore(Retained(seg), b);
  }

  lemma ReadSubtype(p: Parser, seg: seq<byte>, b: byte, now: word32)
    requires Reading(p, seg) && p.state == GetSubtype && ValidSubtype(b)
    ensures p.Next(b, now).1 == NoData && Reading(p.Next(b, now).0, seg + [b])
  {
    hide Retained, Sum, ValidType, ValidSubtype;
    RetainedMore(seg, b);
    SumMore(Retained(seg), b);
    assert Retained(seg + [b])[3..] == [];
  }

  lemma ReadData(p: Parser, seg: seq<byte>, b: byte, now: word32)
    requires Reading(p, seg) && p.state == GetData
    ensures p.Next(b, now).1 == NoData && Reading(p.Next(b, now).0, seg + [b])
  {
    hide Retained, Sum, ValidType, ValidSubtype;
    RetainedMore(seg, b);
    SumMore(Retained(seg), b);
    var r, q := Retained(seg), p.Next(b, now).0;
    assert (r + [b])[3..] == r[3..] + [b];
    assert q.data[..|r| - 2] == p.data[..|r| - 3] + [b];
  }

  /** One byte: in the middle of a message the parser keeps track of it, and it reports a
      message exactly when that completes a frame. */
  lemma ReadByte(p: Parser, seg: seq<byte>, b: byte, now: word32)
    requires Reading(p, seg)
    ensures var (p', status) := p.Next(b, now);
            && (status == Ok <==> IsFrame(seg + [b]))
            && (status == Ok ==> p'.Received() == Decoded(seg + [b]))
            && Reading(p', if p'.state == GetType then [] else seg + [b])
  {
    if seg == [] {
      assert [] + [b] == [b] && |Retained([b])| == 1;
      if ValidType(b) {
        ReadType(p, b, now);
      }
    } else {
      RetainedMore(seg, b);
      SumMore(Retained(seg), b);
      ChecksumCompletes(Sum(Retained(seg)), b);
      if p.state == GetChecksum {
        ReadLast(p, seg, b, now);
      } else if p.state == GetSubtype && !ValidSubtype(b) {
        assert !IsFrame(seg + [b]);
      } else {
        match p.state {
          case GetSize => ReadSize(p, seg, b, now);
          case GetSubtype => ReadSubtype(p, seg, b, now);
          case GetData => ReadData(p, seg, b, now);
          case _ =>
        }
        NotYet(p, seg, b);
      }
    }
  }

  lemma NotYet(p: Parser, seg: seq<byte>, b: byte)
    requires Reading(p, seg) && seg != [] && p.state != GetChecksum
    ensures !IsFrame(seg + [b])
  {
    RetainedMore(seg, b);
    hide Retained, Sum, ValidType, ValidSubtype;
  }

  lemma ReadLast(p: Parser, seg: seq<byte>, b: byte, now: word32)
    requires Reading(p, seg) && p.state == GetChecksum
    ensures var (p', status) := p.Next(b, now);
            && (status == Ok <==> IsFrame(seg + [b])) && p'.state == GetType && p'.Valid()
            && (status == Ok ==> p'.Received() == Decoded(seg + [b]))
  {
    hide Retained, Sum, ValidType, ValidSubtype;
    RetainedMore(seg, b);
    SumMore(Retained(seg), b);
    ChecksumCompletes(Sum(Retained(seg)), b);
    var r := Retained(seg);
    assert (r + [b])[3..|r|] == r[3..];
  }

  /* ----------- streams ----------- */

  lemma NextValid(p: Parser, b: byte, now: word32)
    requires p.Valid()
    ensures p.Next(b, now).0.Valid()
  {
    hide ValidType, ValidSubtype;
  }

  /** What the parser makes of a stream: its state afterwards. */
  function After(p: Parser, bytes: seq<byte>, clock: nat -> word32): (q: Parser)
    requires p.Valid()
    ensures q.Valid()
    decreases |bytes|
  {
    if bytes == [] then p
    else
      var n := |bytes| - 1;
      NextValid(After(p, bytes[..n], clock), bytes[n], clock(n));
      After(p, bytes[..n], clock).Next(bytes[n], clock(n)).0
  }

  /** And the status it returns for the i-th byte. */
  function StatusAt(p: Parser, bytes: seq<byte>, clock: nat -> word32, i: nat): Status
    requires p.Valid() && i < |bytes|
  {
    After(p, bytes[..i], clock).Next(bytes[i], clock(i)).1
  }

  lemma AfterNext(p: Parser, bytes: seq<byte>, clock: nat -> word32, i: nat)
    requires p.Valid() && i < |bytes|
    ensures After(p, bytes[..i + 1], clock) == After(p, bytes[..i], clock).Next(bytes[i], clock(i)).0
    ensures StatusAt(p, bytes, clock, i) == After(p, bytes[..i], clock).Next(bytes[i], clock(i)).1
  {
    assert bytes[..i + 1][..i] == bytes[..i];
  }

  lemma AfterNothing(p: Parser, bytes: seq<byte>, clock: nat -> word32)
    requires Reading(p, [])
    ensures After(p, bytes[..0], clock) == p && p.state == GetType
  {
    hide Parser.Next;
  }

  /** At any time the parser is at some distance into what may become a frame. */
  lemma {:induction false} Segment(p: Parser, bytes: seq<byte>, clock: nat -> word32, i: nat) returns (s: nat)
    requires Reading(p, []) && i <= |bytes|
    ensures s <= i && After(p, bytes[..s], clock).state == GetType
    ensures Reading(After(p, bytes[..i], clock), bytes[s..i])
    decreases i
  {
    hide Parser.Next, Reading, IsFrame, After;
    AfterNothing(p, bytes, clock);
    if i == 0 {
      s := 0;
      assert bytes[s..i] == [];
    } else {
      s := Segment(p, bytes, clock, i - 1);
      AfterNext(p, bytes, clock, i - 1);
      ReadByte(After(p, bytes[..i - 1], clock), bytes[s..i - 1], bytes[i - 1], clock(i - 1));
      assert bytes[s..i] == bytes[s..i - 1] + [bytes[i - 1]];
      if After(p, bytes[..i], clock).state == GetType {
        s := i;
        assert bytes[s..i] == [];
      }
    }
  }

  /** What is retained of the beginning is the beginning of what is retained, and after the
      size nothing is skipped. */
  lemma {:induction false} RetainedPrefix(f: seq<byte>, t: nat)
    requires 1 <= t <= |f|
    ensures Retained(f[..t]) <= Retained(f)
    ensures |Retained(f[..t])| >= 2 ==> |Retained(f)| == |Retained(f[..t])| + |f| - t
    decreases |f| - t
  {
    hide Retained;
    if t < |f| {
      RetainedPrefix(f, t + 1);
      RetainedMore(f[..t], f[t]);
      assert f[..t + 1] == f[..t] + [f[t]];
    } else {
      assert f[..t] == f;
    }
  }

  /** Inside a frame the parser neither gives up nor reports. */
  lemma ReadsOn(p: Parser, f: seq<byte>, t: nat, now: word32)
    requires IsFrame(f) && t + 1 < |f| && Reading(p, f[..t])
    ensures Reading(p.Next(f[t], now).0, f[..t + 1]) && p.Next(f[t], now).1 == NoData
  {
    hide Retained, Sum, ValidType, ValidSubtype;
    RetainedPrefix(f, t + 1);
    assert f[..t + 1] == f[..t] + [f[t]];
    if t == 0 {
      assert f[..0] == [] && f[..1] == [f[0]];
      ReadType(p, f[0], now);
    } else {
      RetainedMore(f[..t], f[t]);
      assert p.state != GetChecksum;
      match p.state {
        case GetSize => ReadSize(p, f[..t], f[t], now);
        case GetSubtype => ReadSubtype(p, f[..t], f[t], now);
        case GetData => ReadData(p, f[..t], f[t], now);
        case _ =>
      }
    }
  }

  lemma {:induction false} ReadsTo(p: Parser, bytes: seq<byte>, clock: nat -> word32, s: nat, e: nat, i: nat)
    requires p.Valid() && s <= i < e <= |bytes| && IsFrame(bytes[s..e]) && After(p, bytes[..s], clock).state == GetType
    ensures Reading(After(p, bytes[..i], clock), bytes[s..i])
    ensures i + 1 < e ==> StatusAt(p, bytes, clock, i) == NoData
    decreases i
  {
    hide Parser.Next, Retained, Sum, IsFrame, Reading, After, StatusAt;
    var f := bytes[s..e];
    if i == s {
      WaitsForType(After(p, bytes[..s], clock));
      assert bytes[s..s] == [];
    } else {
      ReadsTo(p, bytes, clock, s, e, i - 1);
      AfterNext(p, bytes, clock, i - 1);
      assert f[..i - 1 - s] == bytes[s..i - 1] && f[..i - s] == bytes[s..i];
      ReadsOn(After(p, bytes[..i - 1], clock), f, i - 1 - s, clock(i - 1));
    }
    if i + 1 < e {
      AfterNext(p, bytes, clock, i);
      assert f[..i - s] == bytes[s..i];
      ReadsOn(After(p, bytes[..i], clock), f, i - s, clock(i));
    }
  }

  lemma WaitsForType(p: Parser)
    requires p.Valid() && p.state == GetType
    ensures Reading(p, [])
  {
  }

  /** How much of a beginning of a message is retained. */
  lemma RetainedLength(f: seq<byte>, t: nat)
    requires 1 <= t <= |f|
    ensures |Retained(f[..t])| == if t <= 1 + Skipped(f[1..]) then 1 else t - Skipped(f[1..])
  {
    hide Skipped;
    var g, h := f[1..], f[..t][1..];
    assert |h| == t - 1 && forall i :: 0 <= i < t - 1 ==> h[i] == g[i];
  }

  /** The time is noted with the subtype, and then kept. */
  lemma NotesTime(p: Parser, seg: seq<byte>, b: byte, now: word32)
    requires Reading(p, seg) && seg != [] && Reading(p.Next(b, now).0, seg + [b])
    ensures |Retained(seg)| == 2 ==> p.Next(b, now).0.rxTimestamp == now
    ensures |Retained(seg)| > 2 ==> p.Next(b, now).0.rxTimestamp == p.rxTimestamp
  {
    hide Retained, Sum, ValidType;
  }

  lemma {:induction false} TimeNoted(p: Parser, bytes: seq<byte>, clock: nat -> word32, s: nat, e: nat, i: nat)
    requires p.Valid() && s < i < e <= |bytes| && IsFrame(bytes[s..e]) && After(p, bytes[..s], clock).state == GetType
    requires s + 3 + Skipped(bytes[s + 1..e]) <= i
    ensures After(p, bytes[..i], clock).rxTimestamp == clock(s + 2 + Skipped(bytes[s + 1..e]))
    decreases i
  {
    hide Parser.Next, Retained, Sum, IsFrame, Reading, After, Skipped;
    var f, k := bytes[s..e], Skipped(bytes[s + 1..e]);
    assert f[1..] == bytes[s + 1..e] && f[..i - 1 - s] == bytes[s..i - 1];
    ReadsTo(p, bytes, clock, s, e, i - 1);
    ReadsTo(p, bytes, clock, s, e, i);
    AfterNext(p, bytes, clock, i - 1);
    assert bytes[s..i] == bytes[s..i - 1] + [bytes[i - 1]];
    NotesTime(After(p, bytes[..i - 1], clock), bytes[s..i - 1], bytes[i - 1], clock(i - 1));
    RetainedLength(f, i - 1 - s);
    if i > s + 3 + k {
      TimeNoted(p, bytes, clock, s, e, i - 1);
    }
  }

  lemma KeepsTime(p: Parser, b: byte, now: word32)
    requires p.Valid() && p.Next(b, now).1 == Ok
    ensures p.Next(b, now).0.rxTimestamp == p.rxTimestamp
  {
  }

  lemma FrameRoom(f: seq<byte>)
    requires IsFrame(f)
    ensures 4 + Skipped(f[1..]) <= |f|
  {
    hide Skipped;
  }

  /** A message is reported with the time of its subtype byte, whatever was skipped before its size. */
  lemma TimeReported(p: Parser, bytes: seq<byte>, clock: nat -> word32, s: nat, e: nat)
    requires p.Valid() && s < e <= |bytes| && IsFrame(bytes[s..e]) && After(p, bytes[..s], clock).state == GetType
    ensures After(p, bytes[..e], clock).rxTimestamp == clock(s + 2 + Skipped(bytes[s + 1..e]))
  {
    hide Parser.Next, IsFrame, After, StatusAt, Skipped, Parser.Received, Decoded;
    FrameRoom(bytes[s..e]);
    assert bytes[s..e][1..] == bytes[s + 1..e];
    var last := e - 1;
    assert last + 1 == e;
    TimeNoted(p, bytes, clock, s, e, last);
    ReadsFrame(p, bytes, clock, s, e);
    AfterNext(p, bytes, clock, last);
    KeepsTime(After(p, bytes[..last], clock), bytes[last], clock(last));
  }

  lemma ReadsEnd(p: Parser, bytes: seq<byte>, clock: nat -> word32, s: nat, last: nat)
    requires p.Valid() && s <= last < |bytes| && IsFrame(bytes[s..last + 1])
    requires Reading(After(p, bytes[..last], clock), bytes[s..last])
    ensures StatusAt(p, bytes, clock, last) == Ok
    ensures After(p, bytes[..last + 1], clock).state == GetType
    ensures After(p, bytes[..last + 1], clock).Received() == Decoded(bytes[s..last + 1])
  {
    hide Parser.Next, Retained, Sum, IsFrame, Reading, After, StatusAt, Decoded;
    AfterNext(p, bytes, clock, last);
    var q := After(p, bytes[..last], clock);
    assert bytes[s..last + 1] == bytes[s..last] + [bytes[last]];
    ReadByte(q, bytes[s..last], bytes[last], clock(last));
    OkEnds(q, bytes[last], clock(last));
  }

  /** A frame read from its start is reported at its last byte. */
  lemma ReadsFrame(p: Parser, bytes: seq<byte>, clock: nat -> word32, s: nat, e: nat)
    requires p.Valid() && s < e <= |bytes| && IsFrame(bytes[s..e]) && After(p, bytes[..s], clock).state == GetType
    ensures StatusAt(p, bytes, clock, e - 1) == Ok
    ensures After(p, bytes[..e], clock).state == GetType &&
            After(p, bytes[..e], clock).Received() == Decoded(bytes[s..e])
  {
    hide Parser.Next, Retained, Sum, IsFrame, Reading, After, StatusAt, Decoded, Parser.Received;
    var last := e - 1;
    assert last + 1 == e;
    ReadsTo(p, bytes, clock, s, e, last);
    ReadsEnd(p, bytes, clock, s, last);
  }

  /** And not before. */
  lemma ReadsQuietly(p: Parser, bytes: seq<byte>, clock: nat -> word32, s: nat, e: nat, i: nat)
    requires p.Valid() && s <= i < e - 1 < |bytes| && IsFrame(bytes[s..e]) &&
             After(p, bytes[..s], clock).state == GetType
    ensures StatusAt(p, bytes, clock, i) == NoData
  {
    hide Parser.Next, Retained, Sum, IsFrame, Reading, After, StatusAt;
    ReadsTo(p, bytes, clock, s, e, i);
  }

  lemma OkEnds(p: Parser, b: byte, now: word32)
    requires p.Valid() && p.Next(b, now).1 == Ok
    ensures p.Next(b, now).0.state == GetType
  {
  }

  /** For any stream at all: a message is reported at exactly those bytes that complete a frame
      begun while the parser was waiting for a type. */
  lemma ReportsExactly(p: Parser, bytes: seq<byte>, clock: nat -> word32, i: nat)
    requires p.Valid() && p.state == GetType && i < |bytes|
    ensures StatusAt(p, bytes, clock, i) == Ok
       <==> exists s :: 0 <= s <= i && After(p, bytes[..s], clock).state == GetType && IsFrame(bytes[s..i + 1])
  {
    hide Parser.Next, Retained, Sum, IsFrame, Reading, After, StatusAt, Decoded;
    WaitsForType(p);
    if StatusAt(p, bytes, clock, i) == Ok {
      var s := Segment(p, bytes, clock, i);
      AfterNext(p, bytes, clock, i);
      ReadByte(After(p, bytes[..i], clock), bytes[s..i], bytes[i], clock(i));
      assert bytes[s..i + 1] == bytes[s..i] + [bytes[i]];
    }
    if s :| 0 <= s <= i && After(p, bytes[..s], clock).state == GetType && IsFrame(bytes[s..i + 1]) {
      ReadsFrame(p, bytes, clock, s, i + 1);
    }
  }

  /* ----------- the counters ----------- */

  /** The i-th byte ends a message with a wrong checksum or is no subtype where one is due. */
  predicate Refuses(p: Parser, bytes: seq<byte>, clock: nat -> word32, i: nat)
    requires p.Valid() && i < |bytes|
  {
    || StatusAt(p, bytes, clock, i) == BadChecksum
    || (After(p, bytes[..i], clock).state == GetSubtype && bytes[i] !in {0x00, 0x71, 0x72, 0xFF})
  }

  /** How many of the first n bytes complete a message. */
  function Completed(p: Parser, bytes: seq<byte>, clock: nat -> word32, n: nat): nat
    requires p.Valid() && n <= |bytes|
  {
    if n == 0 then 0
    else Completed(p, bytes, clock, n - 1) + if StatusAt(p, bytes, clock, n - 1) == Ok then 1 else 0
  }

  function Refusals(p: Parser, bytes: seq<byte>, clock: nat -> word32, n: nat): nat
    requires p.Valid() && n <= |bytes|
  {
    if n == 0 then 0 else Refusals(p, bytes, clock, n - 1) + if Refuses(p, bytes, clock, n - 1) then 1 else 0
  }

  lemma CountsOne(p: Parser, b: byte, now: word32)
    requires p.Valid()
    ensures var (q, status) := p.Next(b, now);
            var refused := status == BadChecksum || (p.state == GetSubtype && b !in {0x00, 0x71, 0x72, 0xFF});
            && q.valid == (p.valid + if status == Ok then 1 else 0) % 0x1_0000
            && q.invalid == (p.invalid + if refused then 1 else 0) % 0x1_0000
            && (p.state == GetType ==> (q.state == GetSize <==> b in {0x02, 0x72, 0xFE}))
            && (p.state == GetSize ==> (q.state == GetSubtype <==> b >= 4))
  {
  }

  lemma OneMoreWraps(start: nat, n: nat, d: nat)
    ensures ((start + n) % 0x1_0000 + d) % 0x1_0000 == (start + (n + d)) % 0x1_0000
  {
  }

  lemma NothingCounted(p: Parser, bytes: seq<byte>, clock: nat -> word32)
    requires p.Valid()
    ensures After(p, bytes[..0], clock) == p && p.valid % 0x1_0000 == p.valid && p.invalid % 0x1_0000 == p.invalid
  {
    assert bytes[..0] == [];
  }

  /** For any stream: the counters say how many messages were completed and how many refused, modulo 65536. */
  lemma {:induction false} CountersCount(p: Parser, bytes: seq<byte>, clock: nat -> word32, n: nat)
    requires p.Valid() && n <= |bytes|
    ensures After(p, bytes[..n], clock).valid == (p.valid + Completed(p, bytes, clock, n)) % 0x1_0000
    ensures After(p, bytes[..n], clock).invalid == (p.invalid + Refusals(p, bytes, clock, n)) % 0x1_0000
  {
    hide Parser.Next, StatusAt, After, Parser.Valid;
    if n == 0 {
      NothingCounted(p, bytes, clock);
    } else {
      var last := n - 1;
      assert last + 1 == n;
      CountersCount(p, bytes, clock, last);
      AfterNext(p, bytes, clock, last);
      CountsOne(After(p, bytes[..last], clock), bytes[last], clock(last));
      OneMoreWraps(p.valid, Completed(p, bytes, clock, last), if StatusAt(p, bytes, clock, last) == Ok then 1 else 0);
      OneMoreWraps(p.invalid, Refusals(p, bytes, clock, last), if Refuses(p, bytes, clock, last) then 1 else 0);
    }
  }

  /** Inside a frame no byte is refused. */
  lemma ReadsWithoutRefusal(p: Parser, bytes: seq<byte>, clock: nat -> word32, s: nat, e: nat, i: nat)
    requires p.Valid() && s <= i < e <= |bytes| && IsFrame(bytes[s..e]) && After(p, bytes[..s], clock).state == GetType
    ensures !Refuses(p, bytes, clock, i)
  {
    hide Parser.Next, Retained, Sum, IsFrame, Reading, After, StatusAt;
    ReadsTo(p, bytes, clock, s, e, i);
    if i == e - 1 {
      ReadsFrame(p, bytes, clock, s, e);
      AfterNext(p, bytes, clock, i);
      OkNotSubtype(After(p, bytes[..i], clock), bytes[i], clock(i));
    } else {
      ReadsTo(p, bytes, clock, s, e, i + 1);
      AfterNext(p, bytes, clock, i);
      GoesOn(After(p, bytes[..i], clock), bytes[i], clock(i), bytes[s..i + 1]);
    }
  }

  lemma OkNotSubtype(p: Parser, b: byte, now: word32)
    requires p.Valid() && p.Next(b, now).1 == Ok
    ensures p.state != GetSubtype
  {
  }

  lemma GoesOn(p: Parser, b: byte, now: word32, seg: seq<byte>)
    requires p.Valid() && Reading(p.Next(b, now).0, seg) && seg != []
    ensures p.state == GetSubtype ==> b in {0x00, 0x71, 0x72, 0xFF}
  {
    hide Retained, Sum, ValidType;
  }

  /* ----------- from encoder to parser ----------- */

  function EncodeAll(ms: seq<Message>): seq<byte>
    requires forall k :: 0 <= k < |ms| ==> ms[k].Valid()
  {
    if ms == [] then [] else EncodeAll(ms[..|ms| - 1]) + Encode(ms[|ms| - 1])
  }

  lemma {:induction false} EncodeAllPrefix(ms: seq<Message>, k: nat)
    requires forall j :: 0 <= j < |ms| ==> ms[j].Valid()
    requires k <= |ms|
    ensures EncodeAll(ms[..k]) <= EncodeAll(ms)
    decreases |ms| - k
  {
    if k < |ms| {
      EncodeAllPrefix(ms[..|ms| - 1], k);
      assert ms[..|ms| - 1][..k] == ms[..k];
    } else {
      assert ms[..k] == ms;
    }
  }

  lemma EncodeAllAt(ms: seq<Message>, k: nat) returns (s: nat, e: nat)
    requires forall j :: 0 <= j < |ms| ==> ms[j].Valid()
    requires k < |ms|
    ensures s == |EncodeAll(ms[..k])| && e == |EncodeAll(ms[..k + 1])| == s + |Encode(ms[k])| <= |EncodeAll(ms)|
    ensures EncodeAll(ms)[..s] == EncodeAll(ms[..k]) && EncodeAll(ms)[..e] == EncodeAll(ms[..k + 1])
    ensures EncodeAll(ms)[s..e] == Encode(ms[k])
  {
    EncodeAllPrefix(ms, k);
    EncodeAllPrefix(ms, k + 1);
    s, e := |EncodeAll(ms[..k])|, |EncodeAll(ms[..k + 1])|;
    assert ms[..k + 1][..k] == ms[..k];
    hide Encode;
  }

  lemma {:induction false} ParsedUpTo(p: Parser, ms: seq<Message>, clock: nat -> word32, k: nat)
    requires p.Valid() && p.state == GetType
    requires forall j :: 0 <= j < |ms| ==> ms[j].Valid()
    requires k <= |ms|
    ensures |EncodeAll(ms[..k])| <= |EncodeAll(ms)|
    ensures After(p, EncodeAll(ms)[..|EncodeAll(ms[..k])|], clock).state == GetType
    decreases k
  {
    hide Parser.Next, IsFrame, Encode, Decoded;
    if k == 0 {
      assert ms[..0] == [] && EncodeAll(ms)[..0] == [];
    } else {
      ParsedUpTo(p, ms, clock, k - 1);
      var s, e := EncodeAllAt(ms, k - 1);
      EncodedIsFrame(ms[k - 1]);
      FrameNotEmpty(EncodeAll(ms)[s..e]);
      ReadsFrame(p, EncodeAll(ms), clock, s, e);
    }
  }

  lemma FrameNotEmpty(f: seq<byte>)
    requires IsFrame(f)
    ensures f != []
  {
  }

  lemma NothingSkipped(m: Message)
    requires m.Valid()
    ensures Skipped(Encode(m)[1..]) == 0
  {
    assert Encode(m)[1..][0] == SIZE_MIN + |m.data|;
  }

  /** Whatever messages are encoded one after the other, the parser reports each of them with
      its own header and data at its own last byte, with the time of its subtype byte, and
      nothing in between. */
  lemma EncodedIsReported(p: Parser, ms: seq<Message>, clock: nat -> word32, k: nat) returns (s: nat, e: nat)
    requires p.Valid() && p.state == GetType
    requires forall j :: 0 <= j < |ms| ==> ms[j].Valid()
    requires k < |ms|
    ensures s == |EncodeAll(ms[..k])| < e == |EncodeAll(ms[..k + 1])| <= |EncodeAll(ms)|
    ensures forall i :: s <= i < e - 1 ==> StatusAt(p, EncodeAll(ms), clock, i) == NoData
    ensures StatusAt(p, EncodeAll(ms), clock, e - 1) == Ok
    ensures After(p, EncodeAll(ms)[..e], clock).Received() == ms[k]
    ensures After(p, EncodeAll(ms)[..e], clock).rxTimestamp == clock(s + 2)
  {
    hide Parser.Next, IsFrame, Encode, Decoded, EncodeAll, After, StatusAt, Parser.Received;
    s, e := EncodeAllAt(ms, k);
    ParsedUpTo(p, ms, clock, k);
    EncodedIsFrame(ms[k]);
    FrameNotEmpty(EncodeAll(ms)[s..e]);
    ReadsFrame(p, EncodeAll(ms), clock, s, e);
    NothingSkipped(ms[k]);
    assert EncodeAll(ms)[s + 1..e] == Encode(ms[k])[1..];
    TimeReported(p, EncodeAll(ms), clock, s, e);
    forall i | s <= i < e - 1 ensures StatusAt(p, EncodeAll(ms), clock, i) == NoData {
      ReadsQuietly(p, EncodeAll(ms), clock, s, e, i);
    }
  }

  /** A stream of encoded messages counts as so many valid ones and no invalid one. */
  lemma {:induction false} EncodedCounts(p: Parser, ms: seq<Message>, clock: nat -> word32, k: nat)
    requires p.Valid() && p.state == GetType
    requires forall j :: 0 <= j < |ms| ==> ms[j].Valid()
    requires k <= |ms|
    ensures |EncodeAll(ms[..k])| <= |EncodeAll(ms)|
    ensures Completed(p, EncodeAll(ms), clock, |EncodeAll(ms[..k])|) == k
    ensures Refusals(p, EncodeAll(ms), clock, |EncodeAll(ms[..k])|) == 0
  {
    hide Parser.Next, IsFrame, Encode, StatusAt, After, Refuses;
    if k == 0 {
      assert ms[..0] == [];
    } else {
      EncodedCounts(p, ms, clock, k - 1);
      var s, e := EncodedIsReported(p, ms, clock, k - 1);
      QuietCounts(p, ms, clock, k - 1, s, e, e - 1);
      LastCounts(p, ms, clock, k - 1, s, e);
    }
  }

  lemma {:induction false} QuietCounts(p: Parser, ms: seq<Message>, clock: nat -> word32, k: nat, s: nat, e: nat,
                                       i: nat)
    requires p.Valid() && p.state == GetType && (forall j :: 0 <= j < |ms| ==> ms[j].Valid()) && k < |ms|
    requires s == |EncodeAll(ms[..k])| <= i < e == |EncodeAll(ms[..k + 1])| <= |EncodeAll(ms)|
    ensures Completed(p, EncodeAll(ms), clock, i) == Completed(p, EncodeAll(ms), clock, s)
    ensures Refusals(p, EncodeAll(ms), clock, i) == Refusals(p, EncodeAll(ms), clock, s)
    decreases i
  {
    hide Parser.Next, IsFrame, Encode, StatusAt, After, Refuses;
    if s < i {
      QuietCounts(p, ms, clock, k, s, e, i - 1);
      var _, _ := EncodedIsReported(p, ms, clock, k);
      EncodedNotRefused(p, ms, clock, k, i - 1);
    }
  }

  lemma LastCounts(p: Parser, ms: seq<Message>, clock: nat -> word32, k: nat, s: nat, e: nat)
    requires p.Valid() && p.state == GetType && (forall j :: 0 <= j < |ms| ==> ms[j].Valid()) && k < |ms|
    requires s == |EncodeAll(ms[..k])| < e == |EncodeAll(ms[..k + 1])| <= |EncodeAll(ms)|
    ensures Completed(p, EncodeAll(ms), clock, e) == Completed(p, EncodeAll(ms), clock, e - 1) + 1
    ensures Refusals(p, EncodeAll(ms), clock, e) == Refusals(p, EncodeAll(ms), clock, e - 1)
  {
    hide Parser.Next, IsFrame, Encode, StatusAt, After, Refuses;
    var _, _ := EncodedIsReported(p, ms, clock, k);
    EncodedNotRefused(p, ms, clock, k, e - 1);
  }

  lemma EncodedNotRefused(p: Parser, ms: seq<Message>, clock: nat -> word32, k: nat, i: nat)
    requires p.Valid() && p.state == GetType && (forall j :: 0 <= j < |ms| ==> ms[j].Valid()) && k < |ms|
    requires |EncodeAll(ms[..k])| <= i < |EncodeAll(ms[..k + 1])| <= |EncodeAll(ms)|
    ensures !Refuses(p, EncodeAll(ms), clock, i)
  {
    hide Parser.Next, IsFrame, Encode, StatusAt, After, Refuses;
    var s, e := EncodeAllAt(ms, k);
    ParsedUpTo(p, ms, clock, k);
    EncodedIsFrame(ms[k]);
    ReadsWithoutRefusal(p, EncodeAll(ms), clock, s, e, i);
  }
}
