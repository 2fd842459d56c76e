/** Messages on the diagnostics bus: their checksum, their encoding, and the byte sequences a
    receiver accepts for one. */
module HobdProtocol {

  import opened Words

  const SIZE_MIN := 4       // HOBD_MSG_SIZE_MIN
  const SIZE_MAX := 255     // HOBD_MSG_SIZE_MAX
  const DATA_MAX := 251     // HOBD_MSG_DATA_SIZE_MAX

  const QUERY: byte := 0x72
  const RESPONSE: byte := 0x02
  const WAKE_UP: byte := 0xFE

  const SUB_WAKE_UP: byte := 0xFF
  const SUB_INIT: byte := 0x00
  const SUB_TABLE_SUBGROUP: byte := 0x72
  const SUB_TABLE: byte := 0x71

  predicate ValidType(b: byte) {
    b == QUERY || b == RESPONSE || b == WAKE_UP
  }

  predicate ValidSubtype(b: byte) {
    b == SUB_WAKE_UP || b == SUB_INIT || b == SUB_TABLE_SUBGROUP || b == SUB_TABLE
  }

  function Sum(s: seq<byte>): (n: nat)
    ensures n <= 255 * |s|
  {
    if s == [] then 0 else Sum(s[..|s| - 1]) + s[|s| - 1]
  }

  /** How encoder and parser both turn a sum into a checksum. */
  function ChecksumOf(sum: nat): byte {
    (if sum > 0x100 then 0x100 - sum % 0x100 else 0x100 - sum) % 0x100
  }

  /** A checksum completes the sum to a multiple of 256, and it is the only byte that does. */
  lemma ChecksumCompletes(sum: nat, b: byte)
    ensures (sum + b) % 0x100 == 0 <==> b == ChecksumOf(sum)
  {
    var s, r := sum / 0x100, sum % 0x100;
    assert sum == 0x100 * s + r;
    if r + b < 0x100 {
      assert sum + b == 0x100 * s + (r + b);
    } else {
      assert sum + b == 0x100 * (s + 1) + (r + b - 0x100);
    }
  }

  /** obd_checksum.  The 16-bit sum of a message never overflows. */
  method ObdChecksum(buffer: array<byte>, len: nat) returns (checksum: byte)
    requires len <= buffer.Length <= SIZE_MAX
    ensures checksum == ChecksumOf(Sum(buffer[..len]))
  {
    var cs: nat, idx := 0, 0;
    while idx < len
      invariant 0 <= idx <= len
      invariant cs == Sum(buffer[..idx]) < 0x1_0000
    {
      assert buffer[..idx + 1][..idx] == buffer[..idx];
      cs := (cs + buffer[idx]) % 0x1_0000;
      idx := idx + 1;
    }
    if cs > 0x100 {
      cs := 0x100 - cs % 0x100;
    } else {
      cs := 0x100 - cs;
    }
    checksum := cs % 0x100;
  }

  datatype Message = Message(kind: byte, subtype: byte, data: seq<byte>) {
    predicate Valid() {
      ValidType(kind) && ValidSubtype(subtype) && |data| <= DATA_MAX
    }
  }

  function Body(m: Message): seq<byte>
    requires m.Valid()
  {
    [m.kind, SIZE_MIN + |m.data|, m.subtype] + m.data
  }

  /** The bytes of a message on the bus. */
  function Encode(m: Message): (r: seq<byte>)
    requires m.Valid()
    ensures |r| == SIZE_MIN + |m.data|
  {
    Body(m) + [ChecksumOf(Sum(Body(m)))]
  }

  /** The send_* functions of the simulator: header, data and checksum written into the shared
      buffer; the size field says how much of it is sent. */
  method Send(buffer: array<byte>, m: Message) returns (sent: seq<byte>)
    requires m.Valid() && buffer.Length == SIZE_MAX
    modifies buffer
    ensures sent == Encode(m)
  {
    buffer[0] := m.kind;
    buffer[1] := SIZE_MIN;
    buffer[2] := m.subtype;
    var dataSize := |m.data|;
    buffer[1] := buffer[1] + dataSize;
    var i := 0;
    while i < dataSize
      invariant 0 <= i <= dataSize
      invariant buffer[..3 + i] == [m.kind, SIZE_MIN + dataSize, m.subtype] + m.data[..i]
    {
      buffer[3 + i] := m.data[i];
      i := i + 1;
    }
    assert m.data[..i] == m.data;
    var checksum := ObdChecksum(buffer, buffer[1] - 1);
    assert buffer[..buffer[1] - 1] == Body(m);
    buffer[3 + dataSize] := checksum;
    sent := buffer[..buffer[1]];
  }

  /** The messages the protocol notes spell out are encoded as they say. */
  lemma DocumentedMessages()
    ensures Encode(Message(WAKE_UP, SUB_WAKE_UP, [])) == [0xFE, 0x04, 0xFF, 0xFF]
    ensures Encode(Message(QUERY, SUB_INIT, [0xF0])) == [0x72, 0x05, 0x00, 0xF0, 0x99]
    ensures Encode(Message(RESPONSE, SUB_INIT, [])) == [0x02, 0x04, 0x00, 0xFA]
  {
    SumThree(0xFE, 0x04, 0xFF);
    SumThree(0x02, 0x04, 0x00);
    SumThree(0x72, 0x05, 0x00);
    SumMore([0x72, 0x05, 0x00], 0xF0);
    assert Body(Message(WAKE_UP, SUB_WAKE_UP, [])) == [0xFE, 0x04, 0xFF];
    assert Body(Message(RESPONSE, SUB_INIT, [])) == [0x02, 0x04, 0x00];
    assert Body(Message(QUERY, SUB_INIT, [0xF0])) == [0x72, 0x05, 0x00] + [0xF0];
  }

  lemma SumThree(a: byte, b: byte, c: byte)
    ensures Sum([a, b, c]) == a + b + c
  {
    SumMore([], a);
    SumMore([a], b);
    SumMore([a, b], c);
    assert [] + [a] == [a] && [a] + [b] == [a, b] && [a, b] + [c] == [a, b, c];
  }

  /* ----------- what a receiver takes for a message ----------- */

  /** How many bytes too small for a size come first. */
  function Skipped(s: seq<byte>): (k: nat)
    ensures k <= |s|
    ensures forall i :: 0 <= i < k ==> s[i] < SIZE_MIN
    ensures k < |s| ==> s[k] >= SIZE_MIN
  {
    if s == [] || s[0] >= SIZE_MIN then 0 else 1 + Skipped(s[1..])
  }

  /** A stretch of bytes without those skipped between type and size. */
  function Retained(s: seq<byte>): (r: seq<byte>)
    requires s != []
    ensures |r| >= 1 && r[0] == s[0] && |r| <= |s|
  {
    [s[0]] + s[1 + Skipped(s[1..])..]
  }

  /** Type, bytes below 4, size, subtype, as much data as the size says, and a checksum. */
  predicate IsFrame(s: seq<byte>) {
    s != [] &&
    var r := Retained(s);
    |r| >= SIZE_MIN && ValidType(r[0]) && |r| == r[1] && ValidSubtype(r[2]) && Sum(r) % 0x100 == 0
  }

  function Decoded(s: seq<byte>): Message
    requires IsFrame(s)
  {
    var r := Retained(s);
    Message(r[0], r[2], r[3..|r| - 1])
  }

  lemma {:induction false} SkippedMore(s: seq<byte>, b: byte)
    ensures Skipped(s + [b]) == if Skipped(s) == |s| && b < SIZE_MIN then |s| + 1 else Skipped(s)
  {
    if s == [] {
      assert (s + [b])[1..] == [];
    } else if s[0] < SIZE_MIN {
      assert (s + [b])[1..] == s[1..] + [b];
      SkippedMore(s[1..], b);
    }
  }

  /** One more byte is retained, unless it is skipped. */
  lemma RetainedMore(s: seq<byte>, b: byte)
    requires s != []
    ensures Retained(s + [b]) == if |Retained(s)| == 1 && b < SIZE_MIN then Retained(s) else Retained(s) + [b]
  {
    SkippedMore(s[1..], b);
    assert (s + [b])[1..] == s[1..] + [b];
  }

  lemma SumMore(s: seq<byte>, b: byte)
    ensures Sum(s + [b]) == Sum(s) + b
  {
    assert (s + [b])[..|s|] == s;
  }

  /** An encoded message is a frame, and what is decoded from it is the message. */
  lemma EncodedIsFrame(m: Message)
    requires m.Valid()
    ensures IsFrame(Encode(m)) && Decoded(Encode(m)) == m
  {
    var s := Encode(m);
    assert Skipped(s[1..]) == 0;
    assert Retained(s) == s;
    SumMore(Body(m), ChecksumOf(Sum(Body(m))));
    ChecksumCompletes(Sum(Body(m)), ChecksumOf(Sum(Body(m))));
    assert s[3..|s| - 1] == m.data;
  }
}
