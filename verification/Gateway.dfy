/** The two sides of the receive ring at work: the interrupt puts bytes in between any two
    steps of the main loop, which takes them out and feeds them to the parser. */
module Gateway {

  import opened Words
  import opened HobdProtocol
  import opened HobdParser
  import opened RingBuffer

  /** Where obd_update is.  Every access it makes to the ring is a step of its own. */
  datatype Pc =
    | Idle                      // before ring_buffer_available
    | SawHead(h: Index)         // it has read the head
    | NotEmpty                  // before ring_buffer_getc
    | SawAgain(h: Index)        // getc has read the head
    | Taking(newTail: Index)    // it has computed the new tail
    | Fetching(newTail: Index)  // it has stored it, but not yet read the byte
    | Fetched(b: byte)          // it has read the byte, but not yet the error bits

  datatype Gateway = Gateway(ring: Ring, pc: Pc, parser: Parser,
                             accepted: seq<byte>,     // all bytes the ring has taken in
                             consumed: seq<byte>,     // all bytes fed to the parser
                             times: seq<word32>,      // and when
                             reports: seq<Report>)    // the messages it has reported

  /** A message, and the time the parser has noted for it. */
  datatype Report = Report(message: Message, time: word32)

  /** A byte arrives with the status of the UART, or the main loop makes a step. */
  datatype Event = Receive(status: byte, data: byte) | Main(now: word32)

  /** The frame and overrun bits of the status register. */
  function ErrorBits(status: byte): byte {
    status / 8 % 4 * 8
  }

  /** Of the status register, from the lowest bit on: three others, overrun, frame error, three others. */
  lemma ErrorBitsAre(low: nat, overrun: nat, frame: nat, high: nat)
    requires low < 8 && overrun <= 1 && frame <= 1 && high < 8
    ensures ErrorBits(low + 8 * overrun + 16 * frame + 32 * high) == 8 * overrun + 16 * frame
  {
  }

  /** The receive interrupt. */
  function Interrupt(s: Gateway, status: byte, data: byte): Gateway
    requires s.ring.Valid()
  {
    var ring := s.ring.(error := ErrorBits(status));
    s.(ring := ring.Put(data), accepted := if ring.Full() then s.accepted else s.accepted + [data])
  }

  function Reported(p: Parser): Report
    requires |p.data| == SIZE_MAX
  {
    Report(p.Received(), p.rxTimestamp)
  }

  /** A byte with its error bits is handed to the parser, unless it reads as "no data". */
  function Deliver(s: Gateway, b: byte, now: word32): Gateway
    requires s.parser.Valid()
  {
    if s.ring.error * 0x100 + b == NO_DATA then s.(pc := Idle)
    else
      var (parser, status) := s.parser.Next(b, now);
      s.(pc := Idle, parser := parser, consumed := s.consumed + [b], times := s.times + [now],
         reports := if status == Ok && |parser.data| == SIZE_MAX then s.reports + [Reported(parser)] else s.reports)
  }

  /** One step of obd_update. */
  function Update(s: Gateway, now: word32): Gateway
    requires s.ring.Valid() && s.parser.Valid()
  {
    match s.pc
    case Idle => s.(pc := SawHead(s.ring.head))
    case SawHead(h) => s.(pc := if (SIZE + h - s.ring.tail) % SIZE == 0 then Idle else NotEmpty)
    case NotEmpty => s.(pc := SawAgain(s.ring.head))
    case SawAgain(h) => s.(pc := if h == s.ring.tail then Idle else Taking(s.ring.NewTail()))
    case Taking(newTail) => s.(ring := s.ring.(tail := newTail), pc := Fetching(newTail))
    case Fetching(newTail) => s.(pc := Fetched(s.ring.buffer[newTail]))
    case Fetched(b) => Deliver(s, b, now)
  }

  function Next(s: Gateway, e: Event): Gateway
    requires s.ring.Valid() && s.parser.Valid()
  {
    match e
    case Receive(status, data) => Interrupt(s, status, data)
    case Main(now) => Update(s, now)
  }

  /** The byte that has left the queue but not reached the parser. */
  function InFlight(s: Gateway): seq<byte>
    requires s.ring.Valid()
  {
    match s.pc
    case Fetching(newTail) => [s.ring.buffer[newTail]]
    case Fetched(b) => [b]
    case _ => []
  }

  function Clock(times: seq<word32>): nat -> word32 {
    (i: nat) => if i < |times| then times[i] else 0
  }

  /** The messages a stream contains, in order. */
  function Reports(p: Parser, bytes: seq<byte>, clock: nat -> word32): seq<Report>
    requires p.Valid()
    decreases |bytes|
  {
    if bytes == [] then []
    else
      var n := |bytes| - 1;
      Reports(p, bytes[..n], clock)
      + if StatusAt(p, bytes, clock, n) == Ok then [Reported(After(p, bytes, clock))] else []
  }

  /** What holds whenever: the ring and the step the main loop is at agree, no byte is lost,
      doubled or reordered, and the parser has seen just the consumed bytes. */
  ghost predicate Sound(start: Parser, s: Gateway) {
    && start.Valid() && s.ring.Valid() && s.parser.Valid()
    && s.ring.error % 2 == 0
    && (s.pc.SawAgain? ==> s.pc.h == s.ring.tail || s.ring.Size() > 0)
    && (s.pc.Taking? ==> s.pc.newTail == s.ring.NewTail() && s.ring.Size() > 0)
    && (s.pc.Fetching? ==> s.pc.newTail == s.ring.tail)
    && s.consumed + InFlight(s) + s.ring.Queue() == s.accepted
    && |s.times| == |s.consumed|
    && s.parser == After(start, s.consumed, Clock(s.times))
    && s.reports == Reports(start, s.consumed, Clock(s.times))
  }

  /** obd_init leaves an empty ring and a parser waiting for a type. */
  lemma InitiallySound(ring: Ring, start: Parser)
    requires ring.Valid() && ring.Queue() == [] && ring.error == 0 && start.Valid()
    ensures Sound(start, Gateway(ring, Idle, start, [], [], [], []))
  {
  }

  /** An interrupt at any point of the main loop: a byte is accepted unless 127 are waiting. */
  lemma InterruptKeeps(start: Parser, s: Gateway, status: byte, data: byte)
    requires Sound(start, s)
    ensures Sound(start, Interrupt(s, status, data))
    ensures Interrupt(s, status, data).accepted == if s.ring.Size() < SIZE - 1 then s.accepted + [data] else s.accepted
  {
    hide After, Reports, Parser.Valid;
    var ring := s.ring.(error := ErrorBits(status));
    assert ring.Queue() == s.ring.Queue();
    FullIs127(ring);
    PutQueues(ring, data);
    assert ring.Put(data).Size() >= ring.Size() by { PutSize(ring, data); }
    var q := ring.Put(data).Queue();
    if !ring.Full() {
      assert s.consumed + InFlight(s) + (s.ring.Queue() + [data]) == s.accepted + [data];
    }
  }

  lemma PutSize(r: Ring, data: byte)
    requires r.Valid()
    ensures r.Put(data).Size() == if r.Size() < SIZE - 1 then r.Size() + 1 else r.Size()
  {
    FullIs127(r);
  }

  lemma {:induction false} AfterClock(p: Parser, bytes: seq<byte>, c: nat -> word32, d: nat -> word32)
    requires p.Valid() && forall i: nat :: i < |bytes| ==> c(i) == d(i)
    ensures After(p, bytes, c) == After(p, bytes, d) && Reports(p, bytes, c) == Reports(p, bytes, d)
    decreases |bytes|
  {
    hide Parser.Next, Reported;
    if bytes != [] {
      AfterClock(p, bytes[..|bytes| - 1], c, d);
    }
  }

  /** The parser and the reports after one more byte. */
  lemma AfterOneMore(p: Parser, bytes: seq<byte>, times: seq<word32>, b: byte, now: word32)
    requires p.Valid() && |times| == |bytes|
    ensures var (q, status) := After(p, bytes, Clock(times)).Next(b, now);
            && After(p, bytes + [b], Clock(times + [now])) == q
            && Reports(p, bytes + [b], Clock(times + [now])) ==
               Reports(p, bytes, Clock(times)) + if status == Ok && |q.data| == SIZE_MAX then [Reported(q)] else []
  {
    hide Parser.Next, Reported;
    var bytes', clock' := bytes + [b], Clock(times + [now]);
    assert bytes'[..|bytes|] == bytes;
    AfterClock(p, bytes, Clock(times), clock');
  }

  lemma DeliverKeeps(start: Parser, s: Gateway, now: word32)
    requires Sound(start, s) && s.pc.Fetched?
    ensures Sound(start, Deliver(s, s.pc.b, now)) && Deliver(s, s.pc.b, now).consumed == s.consumed + [s.pc.b]
  {
    hide After, Reports, Parser.Next, Reported, Parser.Valid, Ring.Queue;
    NextValid(s.parser, s.pc.b, now);
    AfterOneMore(start, s.consumed, s.times, s.pc.b, now);
    assert s.consumed + [s.pc.b] + [] + s.ring.Queue() == s.accepted;
  }

  /** A step of the main loop loses nothing: the empty slot protects the byte it is about to
      read, and a byte taken out is never mistaken for "no data". */
  lemma UpdateKeeps(start: Parser, s: Gateway, now: word32)
    requires Sound(start, s)
    ensures Sound(start, Update(s, now)) && Update(s, now).accepted == s.accepted
  {
    hide After, Reports, Parser.Next, Reported, Parser.Valid;
    match s.pc
    case Taking(newTail) =>
      TailAdvances(s.ring);
      assert s.consumed + [] + s.ring.Queue() == s.consumed + [s.ring.buffer[newTail]] +
          s.ring.(tail := newTail).Queue();
    case Fetched(b) =>
      DeliverKeeps(start, s, now);
    case NotEmpty => FullIs127(s.ring);
    case _ =>
  }

  function Run(s: Gateway, events: seq<Event>): Gateway
    requires s.ring.Valid() && s.parser.Valid()
    decreases |events|
  {
    if events == [] then s
    else
      var t := Next(s, events[0]);
      if t.ring.Valid() && t.parser.Valid() then Run(t, events[1..]) else t
  }

  /** However interrupts and main loop interleave: the bytes fed to the parser, the one in
      flight and those queued are the bytes accepted, in order, and at most 127 are queued. */
  lemma {:induction false} RunKeeps(start: Parser, s: Gateway, events: seq<Event>)
    requires Sound(start, s)
    ensures Sound(start, Run(s, events)) && Run(s, events).ring.Size() <= SIZE - 1
    decreases |events|
  {
    hide After, Reports, Parser.Next, Parser.Valid;
    if events != [] {
      match events[0] {
        case Receive(status, data) => InterruptKeeps(start, s, status, data);
        case Main(now) => UpdateKeeps(start, s, now);
      }
      RunKeeps(start, Next(s, events[0]), events[1..]);
    }
  }

  /* ----------- from the sender's messages to the reports ----------- */

  lemma ReportsNext(p: Parser, bytes: seq<byte>, clock: nat -> word32, i: nat)
    requires p.Valid() && i < |bytes|
    ensures Reports(p, bytes[..i + 1], clock) == Reports(p, bytes[..i], clock)
            + if StatusAt(p, bytes, clock, i) == Ok then [Reported(After(p, bytes[..i + 1], clock))] else []
  {
    hide After, Parser.Next, Reported;
    assert bytes[..i + 1][..i] == bytes[..i];
  }

  /** Nothing is reported between two messages' ends. */
  lemma {:induction false} ReportsQuiet(p: Parser, bytes: seq<byte>, clock: nat -> word32, s: nat, i: nat)
    requires p.Valid() && s <= i <= |bytes|
    requires forall j :: s <= j < i ==> StatusAt(p, bytes, clock, j) == NoData
    ensures Reports(p, bytes[..i], clock) == Reports(p, bytes[..s], clock)
    decreases i
  {
    hide After, Parser.Next, Reported, Reports, StatusAt;
    if s < i {
      ReportsQuiet(p, bytes, clock, s, i - 1);
      ReportsNext(p, bytes, clock, i - 1);
    }
  }

  /** The messages with the times of their third bytes, the subtypes. */
  function Timed(ms: seq<Message>, clock: nat -> word32): (r: seq<Report>)
    requires forall j :: 0 <= j < |ms| ==> ms[j].Valid()
    ensures |r| == |ms|
  {
    if ms == [] then []
    else
      var n := |ms| - 1;
      Timed(ms[..n], clock) + [Report(ms[n], clock(|EncodeAll(ms[..n])| + 2))]
  }

  lemma TimedNext(ms: seq<Message>, clock: nat -> word32, k: nat)
    requires k < |ms| && forall j :: 0 <= j < |ms| ==> ms[j].Valid()
    ensures Timed(ms[..k + 1], clock) == Timed(ms[..k], clock) + [Report(ms[k], clock(|EncodeAll(ms[..k])| + 2))]
  {
    assert ms[..k + 1][..k] == ms[..k];
  }

  lemma {:induction false} TimedAt(ms: seq<Message>, clock: nat -> word32, k: nat)
    requires k < |ms| && forall j :: 0 <= j < |ms| ==> ms[j].Valid()
    ensures Timed(ms, clock)[k] == Report(ms[k], clock(|EncodeAll(ms[..k])| + 2))
    decreases |ms|
  {
    hide EncodeAll;
    var n := |ms| - 1;
    if k < n {
      TimedAt(ms[..n], clock, k);
      assert ms[..n][..k] == ms[..k];
    }
  }

  lemma NothingReported(p: Parser, ms: seq<Message>, clock: nat -> word32)
    requires p.Valid() && forall j :: 0 <= j < |ms| ==> ms[j].Valid()
    ensures EncodeAll(ms[..0]) == [] && Reports(p, EncodeAll(ms)[..0], clock) == [] && Timed(ms[..0], clock) == []
  {
    assert ms[..0] == [] && EncodeAll(ms)[..0] == [];
  }

  lemma {:induction false} ReportsUpTo(p: Parser, ms: seq<Message>, clock: nat -> word32, k: nat)
    requires p.Valid() && p.state == GetType
    requires forall j :: 0 <= j < |ms| ==> ms[j].Valid()
    requires k <= |ms|
    ensures |EncodeAll(ms[..k])| <= |EncodeAll(ms)|
    ensures Reports(p, EncodeAll(ms)[..|EncodeAll(ms[..k])|], clock) == Timed(ms[..k], clock)
    decreases k
  {
    hide After, Parser.Next, Reported, StatusAt, Encode, Reports, EncodeAll, Timed;
    if k == 0 {
      NothingReported(p, ms, clock);
    } else {
      ReportsUpTo(p, ms, clock, k - 1);
      var s, e := EncodedIsReported(p, ms, clock, k - 1);
      ReportsQuiet(p, EncodeAll(ms), clock, s, e - 1);
      ReportsNext(p, EncodeAll(ms), clock, e - 1);
      TimedNext(ms, clock, k - 1);
      EndsReported(p, ms, clock, k - 1, s, e);
    }
  }

  lemma EndsReported(p: Parser, ms: seq<Message>, clock: nat -> word32, k: nat, s: nat, e: nat)
    requires p.Valid() && p.state == GetType && k < |ms| && forall j :: 0 <= j < |ms| ==> ms[j].Valid()
    requires s == |EncodeAll(ms[..k])| < e == |EncodeAll(ms[..k + 1])| <= |EncodeAll(ms)|
    ensures |After(p, EncodeAll(ms)[..e], clock).data| == SIZE_MAX
    ensures Reported(After(p, EncodeAll(ms)[..e], clock)) == Report(ms[k], clock(s + 2))
  {
    hide After, Parser.Next, StatusAt, Encode, EncodeAll, Parser.Received;
    var _, _ := EncodedIsReported(p, ms, clock, k);
  }

  /** Wherever the main loop has got to in a stream of encoded messages, what has been reported
      are the first so many of them. */
  lemma {:induction false} ReportsSome(p: Parser, ms: seq<Message>, clock: nat -> word32, i: nat, n: nat)
    returns (k: nat)
    requires p.Valid() && p.state == GetType
    requires forall j :: 0 <= j < |ms| ==> ms[j].Valid()
    requires n <= |ms| && |EncodeAll(ms[..n])| <= i <= |EncodeAll(ms)|
    ensures k <= |ms| && Reports(p, EncodeAll(ms)[..i], clock) == Timed(ms[..k], clock)
    ensures |EncodeAll(ms[..k])| <= i && (i == |EncodeAll(ms)| ==> k == |ms|)
    decreases |ms| - n
  {
    hide After, Parser.Next, Reported, StatusAt, Encode, Reports;
    if n == |ms| {
      assert ms[..n] == ms;
      ReportsUpTo(p, ms, clock, n);
      k := n;
    } else {
      var s, e := EncodedIsReported(p, ms, clock, n);
      if i < e {
        ReportsUpTo(p, ms, clock, n);
        ReportsQuiet(p, EncodeAll(ms), clock, s, i);
        k := n;
      } else {
        k := ReportsSome(p, ms, clock, i, n + 1);
      }
    }
  }

  lemma EncodedBefore(ms: seq<Message>, j: nat, k: nat)
    requires j < k <= |ms| && forall j :: 0 <= j < |ms| ==> ms[j].Valid()
    ensures ms[..k][..j] == ms[..j] && |EncodeAll(ms[..j])| + 4 <= |EncodeAll(ms[..k])|
  {
    var _, _ := EncodeAllAt(ms[..k], j);
    assert ms[..k][..j] == ms[..j];
  }

  /** From the sender to the reports, through interrupts, ring and parser: if the bytes the
      ring has accepted are those of some messages, then at any time the first so many of the
      messages have been reported, each with the time at which its third byte was handed to the
      parser, and all of them once the ring has been emptied. */
  lemma Delivers(start: Parser, s: Gateway, ms: seq<Message>) returns (k: nat)
    requires Sound(start, s) && start.state == GetType
    requires forall j :: 0 <= j < |ms| ==> ms[j].Valid()
    requires s.accepted == EncodeAll(ms)
    ensures |s.reports| == k <= |ms|
    ensures forall j :: 0 <= j < k ==>
              var third := |EncodeAll(ms[..j])| + 2; third < |s.times| && s.reports[j] == Report(ms[j], s.times[third])
    ensures s.ring.Queue() == [] && InFlight(s) == [] ==> k == |ms|
  {
    hide After, Parser.Next, Reports, Encode, Ring.Queue, InFlight;
    var i := |s.consumed|;
    assert s.consumed == EncodeAll(ms)[..i];
    assert ms[..0] == [];
    k := ReportsSome(start, ms, Clock(s.times), i, 0);
    forall j | 0 <= j < k
      ensures var third := |EncodeAll(ms[..j])| + 2;
              third < |s.times| && s.reports[j] == Report(ms[j], s.times[third]) {
      TimedAt(ms[..k], Clock(s.times), j);
      EncodedBefore(ms, j, k);
    }
  }
}
