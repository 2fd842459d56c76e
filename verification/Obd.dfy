/** The receive interrupt and obd_update as they run when nothing comes between their steps. */
module Obd {

  import opened Words
  import opened Gateway
  import R = RingBuffer
  import P = HobdParser

  class Receiver {
    const rx: R.RingBuffer
    const parser: P.HobdParser

    /** The bit that marks a missing byte is never an error bit. */
    ghost predicate Valid()
      reads rx, parser, parser.data
    {
      rx.Valid() && parser.Valid() && rx.buffer != parser.data && rx.error % 2 == 0
    }

    /** obd_init, as far as ring and parser are concerned. */
    constructor ()
      ensures Valid() && fresh(rx) && fresh(parser)
      ensures Sound(parser.Value(), Gateway(rx.Value(), Idle, parser.Value(), [], [], [], []))
      ensures parser.Value().state == P.GetType
    {
      rx := new R.RingBuffer();
      parser := new P.HobdParser();
      new;
      InitiallySound(rx.Value(), parser.Value());
    }

    /** The receive interrupt. */
    method Interrupt(status: byte, data: byte) returns (overflow: bool)
      requires Valid()
      modifies rx, rx.buffer
      ensures Valid() && rx.Value() == old(rx.Value()).(error := ErrorBits(status)).Put(data)
      ensures overflow <==> old(rx.Value().Full())
    {
      rx.error := ErrorBits(status);
      var _ := rx.Putc(data);
      overflow := rx.error / R.OVERFLOW % 2 == 1;
    }

    /** obd_update up to the parser's verdict: with a byte waiting, the oldest one is parsed. */
    method Update(now: word32) returns (status: P.Status)
      requires Valid()
      modifies rx, parser, parser.data
      ensures Valid()
      ensures old(rx.Value().Queue()) == [] ==>
                status == P.NoData && rx.Value() == old(rx.Value()) && parser.Value() == old(parser.Value())
      ensures old(rx.Value().Queue()) != [] ==>
                && (parser.Value(), status) == old(parser.Value()).Next(old(rx.Value().Queue())[0], now)
                && rx.Value().Queue() == old(rx.Value().Queue())[1..]
    {
      hide P.Parser.Next;
      status := P.NoData;
      var available := rx.Available();
      if available != 0 {
        var rbData := rx.Getc();
        if rbData != R.NO_DATA {
          var data := rbData % 0x100;
          status := parser.ParseByte(data, now);
        }
      }
    }
  }
}
