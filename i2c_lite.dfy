/**
 * The two-wire interface (TWI) master primitives of the bootloader: initialise,
 * START, STOP, write one byte, read one byte.
 *
 * The peripheral is a class whose fields are its four registers. What the
 * hardware does between two polls of TWCR is an oracle: every operation that
 * writes TWCR takes the next `Response`, which says for how many polls the
 * operation still reads as busy and, for a read, which byte the addressed
 * device shifts in. A busy count is a natural number, so START, STOP and write,
 * which poll without bound, always finish; only the read has a poll budget.
 */
module I2cLite {

  // TWCR bits (ATmega328P data sheet, two-wire serial interface chapter).
  const TWINT: bv8 := 0x80
  const TWEA: bv8 := 0x40
  const TWSTA: bv8 := 0x20
  const TWSTO: bv8 := 0x10
  const TWEN: bv8 := 0x04
  const TWEA_BIT: bv8 := 6
  // TWSR prescaler bits.
  const TWPS1: bv8 := 0x02
  const TWPS0: bv8 := 0x01

  /** Build-time core clock (an Uno-class board) and the target bus clock. */
  const F_CPU: nat := 16000000
  const SCL_CLOCK: nat := 100000

  /** Bit-rate register value that gives a 100 kHz SCL with prescaler 1. */
  const TWBR_100KHZ: bv8 := (((F_CPU / SCL_CLOCK) - 16) / 2) as bv8

  /** Poll budget of the read primitive. */
  const RETRY_MAX: nat := 100000

  const RETURN_CODE_SUCCESS: bv8 := 0
  const RETURN_CODE_FAILURE: bv8 := 1

  /** What happens on the bus, one entry per primitive. */
  datatype Event = Start | Stop | Write(data: bv8) | Read(ack: bool)

  /** A store to one of the peripheral's registers, in program order. */
  datatype RegisterWrite = SetTWCR(v: bv8) | SetTWDR(v: bv8) | SetTWSR(v: bv8) | SetTWBR(v: bv8)

  /** The peripheral's answer to one operation. */
  datatype Response = Response(busyPolls: nat, data: bv8)

  /** Poll number `n` (counted from 1) of the operation still sees it busy. */
  predicate BusyOnPoll(r: Response, n: nat)
  {
    1 <= n <= r.busyPolls
  }

  /** A read whose completion flag is still clear on the last poll its budget allows. */
  predicate TimesOut(r: Response)
  {
    BusyOnPoll(r, RETRY_MAX + 2)
  }

  /** TWCR after the peripheral finishes the operation in flight. */
  function Finished(cr: bv8): bv8
  {
    if cr & TWSTO != 0 then cr & !TWSTO else cr | TWINT
  }

  class Twi {
    var TWCR: bv8
    var TWDR: bv8
    var TWSR: bv8
    var TWBR: bv8

    /** Every register store, in order. */
    var stores: seq<RegisterWrite>
    /** Every bus primitive issued, in order. */
    var trace: seq<Event>
    /** The answers to the operations still to come. */
    var responses: seq<Response>

    /** Polls for which the operation in flight still reads as busy. */
    var busy: nat
    /** Whether the operation in flight shifts a byte in, and which. */
    var receiving: bool
    var incoming: bv8

    /** The peripheral after reset. */
    constructor (responses: seq<Response>)
      ensures this.responses == responses
      ensures stores == [] && trace == [] && busy == 0 && !receiving
      ensures TWCR == 0 && TWDR == 0xFF && TWSR == 0xF8 && TWBR == 0
    {
      TWCR, TWDR, TWSR, TWBR := 0, 0xFF, 0xF8, 0;
      stores, trace := [], [];
      this.responses := responses;
      busy, receiving, incoming := 0, false, 0;
    }

    /**
     * The program stores `control` in TWCR. Writing a one to TWINT clears the
     * flag, so TWCR reads back without it; the peripheral takes its next answer.
     */
    method StoreControl(control: bv8, rx: bool)
      requires |responses| > 0
      modifies this
      ensures TWCR == control & !TWINT
      ensures busy == old(responses[0]).busyPolls && incoming == old(responses[0]).data
      ensures receiving == rx && responses == old(responses[1..])
      ensures stores == old(stores) + [SetTWCR(control)]
      ensures TWDR == old(TWDR) && TWSR == old(TWSR) && TWBR == old(TWBR) && trace == old(trace)
    {
      TWCR := control & !TWINT;
      stores := stores + [SetTWCR(control)];
      busy, incoming, receiving := responses[0].busyPolls, responses[0].data, rx;
      responses := responses[1..];
    }

    /**
     * The program reads TWCR once. While busy the register is unchanged; at
     * the first poll that is not busy the peripheral finishes the operation:
     * TWINT is set (or TWSTO cleared for a STOP) and a received byte is in TWDR.
     */
    method PollControl() returns (cr: bv8)
      modifies this
      ensures old(busy) == 0 ==>
        TWCR == Finished(old(TWCR)) && busy == 0 &&
        TWDR == (if receiving then incoming else old(TWDR))
      ensures old(busy) > 0 ==> TWCR == old(TWCR) && busy == old(busy) - 1 && TWDR == old(TWDR)
      ensures cr == TWCR
      ensures receiving == old(receiving) && incoming == old(incoming)
      ensures TWSR == old(TWSR) && TWBR == old(TWBR)
      ensures stores == old(stores) && trace == old(trace) && responses == old(responses)
    {
      if busy == 0 {
        TWCR := Finished(TWCR);
        if receiving {
          TWDR := incoming;
        }
      } else {
        busy := busy - 1;
      }
      cr := TWCR;
    }

    /** i2c_lite_init: prescaler 1 and the 100 kHz bit rate. */
    method Init()
      modifies this
      ensures TWSR & (TWPS1 | TWPS0) == 0
      ensures TWSR & !(TWPS1 | TWPS0) == old(TWSR) & !(TWPS1 | TWPS0)
      ensures TWBR == TWBR_100KHZ
      ensures stores == old(stores) + [SetTWSR(TWSR), SetTWBR(TWBR_100KHZ)]
      ensures TWCR == old(TWCR) && TWDR == old(TWDR)
      ensures trace == old(trace) && responses == old(responses) && busy == old(busy)
      ensures receiving == old(receiving) && incoming == old(incoming)
    {
      TWSR := TWSR & !(TWPS1 | TWPS0);
      TWBR := TWBR_100KHZ;
      stores := stores + [SetTWSR(TWSR), SetTWBR(TWBR)];
    }

    /** i2c_lite_start: request a START and wait until TWINT is seen set. */
    method Start()
      requires |responses| > 0
      modifies this
      ensures TWCR == TWINT | TWSTA | TWEN
      ensures stores == old(stores) + [SetTWCR(TWINT | TWSTA | TWEN)]
      ensures trace == old(trace) + [Event.Start]
      ensures responses == old(responses[1..])
      ensures TWDR == old(TWDR) && TWSR == old(TWSR) && TWBR == old(TWBR)
    {
      StoreControl(TWINT | TWSTA | TWEN, false);
      var cr := PollControl();
      while cr & TWINT == 0
        invariant TWCR == cr && !receiving
        invariant cr == TWSTA | TWEN || cr == TWINT | TWSTA | TWEN
        invariant stores == old(stores) + [SetTWCR(TWINT | TWSTA | TWEN)]
        invariant trace == old(trace) && responses == old(responses[1..])
        invariant TWDR == old(TWDR) && TWSR == old(TWSR) && TWBR == old(TWBR)
        decreases busy + (if cr & TWINT == 0 then 1 else 0)
      {
        cr := PollControl();
      }
      trace := trace + [Event.Start];
    }

    /** i2c_lite_stop: request a STOP and wait until TWSTO is seen clear. */
    method Stop()
      requires |responses| > 0
      modifies this
      ensures TWCR == TWEN
      ensures stores == old(stores) + [SetTWCR(TWINT | TWSTO | TWEN)]
      ensures trace == old(trace) + [Event.Stop]
      ensures responses == old(responses[1..])
      ensures TWDR == old(TWDR) && TWSR == old(TWSR) && TWBR == old(TWBR)
    {
      StoreControl(TWINT | TWSTO | TWEN, false);
      var cr := PollControl();
      while cr & TWSTO != 0
        invariant TWCR == cr && !receiving
        invariant cr == TWSTO | TWEN || cr == TWEN
        invariant stores == old(stores) + [SetTWCR(TWINT | TWSTO | TWEN)]
        invariant trace == old(trace) && responses == old(responses[1..])
        invariant TWDR == old(TWDR) && TWSR == old(TWSR) && TWBR == old(TWBR)
        decreases busy + (if cr & TWSTO != 0 then 1 else 0)
      {
        cr := PollControl();
      }
      trace := trace + [Event.Stop];
    }

    /** i2c_lite_write: load TWDR, then trigger the transfer and wait for TWINT. */
    method Write(data: bv8)
      requires |responses| > 0
      modifies this
      ensures TWDR == data && TWCR == TWINT | TWEN
      ensures stores == old(stores) + [SetTWDR(data), SetTWCR(TWINT | TWEN)]
      ensures trace == old(trace) + [Event.Write(data)]
      ensures responses == old(responses[1..])
      ensures TWSR == old(TWSR) && TWBR == old(TWBR)
    {
      TWDR := data;
      stores := stores + [SetTWDR(data)];
      StoreControl(TWINT | TWEN, false);
      var cr := PollControl();
      while cr & TWINT == 0
        invariant TWCR == cr && !receiving && TWDR == data
        invariant cr == TWEN || cr == TWINT | TWEN
        invariant stores == old(stores) + [SetTWDR(data), SetTWCR(TWINT | TWEN)]
        invariant trace == old(trace) && responses == old(responses[1..])
        invariant TWSR == old(TWSR) && TWBR == old(TWBR)
        decreases busy + (if cr & TWINT == 0 then 1 else 0)
      {
        cr := PollControl();
      }
      trace := trace + [Event.Write(data)];
    }

    /**
     * i2c_lite_read: request one byte, acknowledging it when `ack` is one, and
     * poll TWINT under the budget. The byte goes to `dst[at]`, the cell the
     * source's `data` pointer designates.
     */
    method Read(dst: array<bv8>, at: nat, ack: bv8) returns (status: bv8)
      requires at < dst.Length && |responses| > 0
      modifies this, dst
      ensures status == RETURN_CODE_SUCCESS || status == RETURN_CODE_FAILURE
      ensures status == RETURN_CODE_FAILURE <==> TimesOut(old(responses[0]))
      ensures status == RETURN_CODE_SUCCESS ==> dst[at] == old(responses[0]).data == TWDR
      ensures forall j :: 0 <= j < dst.Length && (j != at || status == RETURN_CODE_FAILURE) ==>
                dst[j] == old(dst[j])
      ensures TWCR & TWEA != 0 <==> ack & 1 == 1
      ensures stores == old(stores) + [SetTWCR(TWINT | TWEN | (ack << TWEA_BIT))]
      ensures trace == old(trace) + [Event.Read(ack & 1 == 1)]
      ensures responses == old(responses[1..])
      ensures TWSR == old(TWSR) && TWBR == old(TWBR)
    {
      ghost var answer := responses[0];
      var retry: nat := 0;
      var control := TWINT | TWEN | (ack << TWEA_BIT);
      assert control & TWEA != 0 <==> ack & 1 == 1;
      StoreControl(control, true);
      trace := trace + [Event.Read(ack & 1 == 1)];
      var cr := PollControl();
      while cr & TWINT == 0
        invariant retry <= RETRY_MAX + 1
        invariant dst[..] == old(dst[..])
        invariant TWCR == cr && receiving && incoming == answer.data
        invariant cr & !TWINT == control & !TWINT
        invariant cr & TWINT == 0 <==> BusyOnPoll(answer, retry + 1)
        invariant cr & TWINT == 0 ==> busy == answer.busyPolls - retry - 1
        invariant cr & TWINT != 0 ==> TWDR == answer.data
        invariant stores == old(stores) + [SetTWCR(control)]
        invariant trace == old(trace) + [Event.Read(ack & 1 == 1)]
        invariant responses == old(responses[1..])
        invariant TWSR == old(TWSR) && TWBR == old(TWBR)
        decreases RETRY_MAX + 1 - retry
      {
        var previous := retry;
        retry := retry + 1;
        if previous > RETRY_MAX {
          return RETURN_CODE_FAILURE;
        }
        cr := PollControl();
      }
      dst[at] := TWDR;
      return RETURN_CODE_SUCCESS;
    }
  }

  /** Calling i2c_lite_init twice leaves the same registers as calling it once. */
  method InitTwice(bus: Twi)
    modifies bus
    ensures bus.TWSR & (TWPS1 | TWPS0) == 0 && bus.TWBR == TWBR_100KHZ
    ensures bus.TWSR & !(TWPS1 | TWPS0) == old(bus.TWSR) & !(TWPS1 | TWPS0)
    ensures bus.TWCR == old(bus.TWCR) && bus.TWDR == old(bus.TWDR)
  {
    bus.Init();
    var sr, br := bus.TWSR, bus.TWBR;
    bus.Init();
    assert bus.TWSR == sr && bus.TWBR == br;
  }

  /** The bit rate the source's formula gives for a 16 MHz core. */
  lemma BitRateFor16MHz()
    ensures TWBR_100KHZ == 72
    ensures F_CPU / (16 + 2 * 72) == SCL_CLOCK
  {
  }
}
