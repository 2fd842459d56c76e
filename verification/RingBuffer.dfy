/** The receive ring between the UART interrupt and the main loop. */
module RingBuffer {

  import opened Words

  const SIZE := 128          // RING_BUFFER_SIZE
  const OVERFLOW := 2        // RING_BUFFER_RX_OVERFLOW >> 8
  const NO_DATA := 0x0100    // RING_BUFFER_NO_DATA

  type Index = i: int | 0 <= i < SIZE

  /** ring_buffer_s.  The slot at `tail` is the one read last, and is never written: one slot
      of the ring always stays empty. */
  datatype Ring = Ring(head: Index, tail: Index, error: byte, buffer: seq<byte>) {

    predicate Valid() {
      |buffer| == SIZE
    }

    function Size(): (n: nat)
      ensures n < SIZE
    {
      (SIZE + head - tail) % SIZE
    }

    /** The bytes waiting, oldest first. */
    function Queue(): (q: seq<byte>)
      requires Valid()
      ensures |q| == Size()
    {
      seq(Size(), i requires 0 <= i < Size() => buffer[(tail + 1 + i) % SIZE])
    }

    function NewHead(): Index {
      (head + 1) % SIZE
    }

    function NewTail(): Index {
      (tail + 1) % SIZE
    }

    predicate Full() {
      NewHead() == tail
    }

    /** What ring_buffer_putc makes of it. */
    function Put(data: byte): (r: Ring)
      requires Valid()
      ensures r.Valid()
    {
      if Full() then this.(error := WithOverflow(error))
      else this.(head := NewHead(), buffer := buffer[NewHead() := data])
    }
  }

  /** error | RING_BUFFER_RX_OVERFLOW >> 8 */
  function WithOverflow(error: byte): byte {
    if error / OVERFLOW % 2 == 0 then error + OVERFLOW else error
  }

  lemma FullIs127(r: Ring)
    ensures r.Full() <==> r.Size() == SIZE - 1
    ensures r.Size() == 0 <==> r.head == r.tail
  {
  }

  /** A byte is dropped only when the ring is full; otherwise it joins the queue at the end. */
  lemma PutQueues(r: Ring, data: byte)
    requires r.Valid()
    ensures r.Put(data).Queue() == if r.Size() < SIZE - 1 then r.Queue() + [data] else r.Queue()
    ensures r.Put(data).tail == r.tail && r.Put(data).buffer[r.tail] == r.buffer[r.tail]
  {
    FullIs127(r);
    OneMore(r, data);
    hide Ring.Size, Ring.NewHead;
    if !r.Full() {
      var q, q' := r.Queue(), r.Put(data).Queue();
      forall i | 0 <= i < |q'| ensures q'[i] == (q + [data])[i] {
        SlotOf(r, i);
      }
    }
  }

  lemma OneMore(r: Ring, data: byte)
    requires r.Valid()
    ensures !r.Full() ==> r.Put(data).Size() == r.Size() + 1
  {
  }

  lemma SlotOf(r: Ring, i: nat)
    requires i <= r.Size() < SIZE - 1
    ensures (r.tail + 1 + i) % SIZE == r.NewHead() <==> i == r.Size()
  {
  }

  /** The slot of the next byte seen from the advanced tail. */
  lemma NextSlot(r: Ring, i: nat)
    ensures (r.NewTail() + 1 + i) % SIZE == (r.tail + 1 + (i + 1)) % SIZE
  {
  }

  lemma OneLess(r: Ring)
    ensures r.head != r.tail ==> r.(tail := r.NewTail()).Size() == r.Size() - 1
  {
  }

  /** Advancing the tail takes the oldest byte off. */
  lemma TailAdvances(r: Ring)
    requires r.Valid() && r.Size() > 0
    ensures r.Queue() == [r.buffer[r.NewTail()]] + r.(tail := r.NewTail()).Queue()
  {
    FullIs127(r);
    OneLess(r);
    hide Ring.NewTail, Ring.Size;
    var q, rest := r.Queue(), r.(tail := r.NewTail()).Queue();
    FirstSlot(r);
    forall i | 1 <= i < |q| ensures q[i] == rest[i - 1] {
      NextSlot(r, i - 1);
    }
  }

  lemma FirstSlot(r: Ring)
    requires r.Valid() && r.Size() > 0
    ensures r.Queue()[0] == r.buffer[r.NewTail()]
  {
  }

  /** A byte that finds the ring full sets the second lowest error bit. */
  lemma OverflowIs(r: Ring, data: byte, low: nat, bit: nat, high: nat)
    requires r.Valid() && r.error == low + 2 * bit + 4 * high && low <= 1 && bit <= 1
    ensures r.Put(data).error == if r.Size() == 127 then low + 2 + 4 * high else r.error
  {
    FullIs127(r);
  }

  class RingBuffer {
    var head: Index
    var tail: Index
    var error: byte
    const buffer: array<byte>

    ghost predicate Valid() {
      buffer.Length == SIZE
    }

    ghost function Value(): Ring
      reads this, buffer
    {
      Ring(head, tail, error, buffer[..])
    }

    /** ring_buffer_init */
    constructor ()
      ensures Valid() && fresh(buffer)
      ensures Value().Queue() == [] && error == 0
    {
      buffer := new byte[SIZE](_ => 0);
      head := 0;
      tail := 0;
      error := 0;
    }

    /** ring_buffer_available */
    method Available() returns (n: byte)
      requires Valid()
      ensures n == |Value().Queue()| < SIZE
    {
      n := (SIZE + head - tail) % SIZE;
    }

    /** ring_buffer_flush */
    method Flush()
      requires Valid()
      modifies `head
      ensures Value().Queue() == []
    {
      head := tail;
    }

    /** ring_buffer_putc.  The error field shifted out of a byte, it always returns 0. */
    method Putc(data: byte) returns (r: nat)
      requires Valid()
      modifies `head, `error, buffer
      ensures Value() == old(Value()).Put(data) && r == 0
    {
      var newHead := (head + 1) % SIZE;
      if newHead == tail {
        error := WithOverflow(error);
      } else {
        head := newHead;
        buffer[newHead] := data;
      }
      r := error * 0x100 % 0x100;
    }

    /** ring_buffer_getc, undisturbed: the oldest byte with the error bits above it. */
    method Getc() returns (r: nat)
      requires Valid()
      modifies `tail
      ensures old(Value().Queue()) == [] ==> r == NO_DATA && Value() == old(Value())
      ensures old(Value().Queue()) != [] ==>
                r == error * 0x100 + old(Value().Queue())[0] && Value().Queue() == old(Value().Queue())[1..]
    {
      if head == tail {
        r := NO_DATA;
      } else {
        TailAdvances(Value());
        var newTail := (tail + 1) % SIZE;
        tail := newTail;
        var rxData := buffer[newTail];
        r := error * 0x100 + rxData;
      }
    }

    /** ring_buffer_peek */
    method Peek() returns (r: nat)
      requires Valid()
      ensures r == if Value().Queue() == [] then NO_DATA else error * 0x100 + Value().Queue()[0]
    {
      if head == tail {
        r := NO_DATA;
      } else {
        var tmpTail := (tail + 1) % SIZE;
        r := error * 0x100 + buffer[tmpTail];
      }
    }
  }
}
