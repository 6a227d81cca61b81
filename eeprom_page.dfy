/**
 * The page client of the external EEPROM: one page moves between a caller's
 * buffer and the chip at I2C address 0x50 with two-byte memory addressing,
 * most significant byte first.
 *
 * What each operation puts on the bus is stated exactly by the functions
 * `ReadTrace` and `WriteTrace`; the lemmas below say what those traces are made of.
 */
module EepromPage {
  import opened I2cLite
  import opened Platform

  const EEPROM_I2C_ADDRESS: bv8 := 0x50
  const TW_WRITE: bv8 := 0
  const TW_READ: bv8 := 1

  /** The first byte of a frame: the 7-bit address followed by the R/W bit (UM10204, section 3.1.10). */
  const SLA_W: bv8 := (EEPROM_I2C_ADDRESS << 1) | TW_WRITE
  const SLA_R: bv8 := (EEPROM_I2C_ADDRESS << 1) | TW_READ

  /** `(uint8_t)(address >> 8)` */
  function AddressMsb(pageNumber: nat): bv8
  {
    (MemoryAddress(pageNumber) / 0x100) as bv8
  }

  /** `(uint8_t)(address & 0xFF)` */
  function AddressLsb(pageNumber: nat): bv8
  {
    (MemoryAddress(pageNumber) % 0x100) as bv8
  }

  /** START, the device address with write intent, then the memory address. */
  function AddressPhase(pageNumber: nat): seq<Event>
  {
    [Start, Write(SLA_W), Write(AddressMsb(pageNumber)), Write(AddressLsb(pageNumber))]
  }

  /** The first `count` byte reads of an `n`-byte page, each with its acknowledge request. */
  function AckedReads(n: nat, count: nat): seq<Event>
  {
    if count == 0 then [] else AckedReads(n, count - 1) + [Read(count - 1 < n - 1)]
  }

  /** One write event per data byte, in order. */
  function DataWrites(data: seq<bv8>): seq<Event>
  {
    if data == [] then [] else DataWrites(data[..|data| - 1]) + [Write(data[|data| - 1])]
  }

  /** How many reads, from the first, complete before the first one that times out. */
  function CompletedReads(rs: seq<Response>): (k: nat)
    ensures k <= |rs|
    ensures forall i :: 0 <= i < k ==> !TimesOut(rs[i])
    ensures k < |rs| ==> TimesOut(rs[k])
  {
    if rs == [] || TimesOut(rs[0]) then 0 else 1 + CompletedReads(rs[1..])
  }

  /**
   * The bus trace of a page read of `n` bytes whose first `k` reads complete:
   * the address is set in a frame of its own, a second frame reads, and a
   * time-out ends the read at once, without STOP.
   */
  function ReadTrace(pageNumber: nat, n: nat, k: nat): seq<Event>
    requires k <= n
  {
    ReadPrelude(pageNumber) + ReadTail(n, k)
  }

  /** The byte reads of a page read, and the STOP when all `n` of them complete. */
  function ReadTail(n: nat, k: nat): seq<Event>
    requires k <= n
  {
    if k < n then AckedReads(n, k + 1) else AckedReads(n, n) + [Stop]
  }

  /** The address frame, then START and SLA+R: what a page read sends before its first byte read. */
  function ReadPrelude(pageNumber: nat): seq<Event>
  {
    AddressPhase(pageNumber) + [Stop, Start, Write(SLA_R)]
  }

  /** The bus trace of a page write: one frame with the address and every data byte. */
  function WriteTrace(pageNumber: nat, data: seq<bv8>): seq<Event>
  {
    AddressPhase(pageNumber) + DataWrites(data) + [Stop]
  }

  /** START, SLA+W and the two memory-address bytes, as both page operations send them. */
  method SendAddress(bus: Twi, pageNumber: nat)
    requires |bus.responses| >= 4
    modifies bus
    ensures bus.trace == old(bus.trace) + AddressPhase(pageNumber)
    ensures bus.responses == old(bus.responses)[4..]
    ensures bus.TWSR == old(bus.TWSR) && bus.TWBR == old(bus.TWBR)
  {
    bus.Start();
    bus.Write(SLA_W);
    bus.Write(AddressMsb(pageNumber));
    bus.Write(AddressLsb(pageNumber));
  }

  /** The "set current address" frame that a page read begins with. */
  method SetCurrentAddress(bus: Twi, pageNumber: nat)
    requires |bus.responses| >= 5
    modifies bus
    ensures bus.trace == old(bus.trace) + AddressPhase(pageNumber) + [Stop]
    ensures bus.responses == old(bus.responses)[5..]
    ensures bus.TWSR == old(bus.TWSR) && bus.TWBR == old(bus.TWBR)
  {
    SendAddress(bus, pageNumber);
    bus.Stop();
  }

  /** read_from_EEPROM_page */
  method ReadPage(bus: Twi, pageBuffer: array<bv8>, pageNumber: nat, pageSize: nat) returns (status: bv8)
    requires pageNumber < 0x1_0000 && pageSize < 0x100 && pageSize <= pageBuffer.Length
    requires |bus.responses| >= 8 + pageSize
    modifies bus, pageBuffer
    ensures status == RETURN_CODE_SUCCESS || status == RETURN_CODE_FAILURE
    ensures var rs := old(bus.responses)[7..7 + pageSize];
            var k := CompletedReads(rs);
            && (status == RETURN_CODE_SUCCESS <==> k == pageSize)
            && bus.trace == old(bus.trace) + ReadPrelude(pageNumber) + ReadTail(pageSize, k)
            && bus.responses == old(bus.responses)[8 + k..]
            && (forall i :: 0 <= i < k ==> pageBuffer[i] == rs[i].data)
            && (forall i :: k <= i < pageBuffer.Length ==> pageBuffer[i] == old(pageBuffer[i]))
    ensures bus.TWBR == TWBR_100KHZ && bus.TWSR & (TWPS1 | TWPS0) == 0
  {
    status := RETURN_CODE_FAILURE;
    OpenRead(bus, pageNumber);
    ghost var rest := bus.responses;
    assert rest[..pageSize] == old(bus.responses)[7..7 + pageSize];
    status := ReceiveBytes(bus, pageBuffer, pageSize);
    if status == RETURN_CODE_FAILURE {
      return;
    }
    bus.Stop();
  }

  /** What read_from_EEPROM_page does before its byte loop: initialise the bus, set the address,
      then START and SLA+R. */
  method OpenRead(bus: Twi, pageNumber: nat)
    requires |bus.responses| >= 7
    modifies bus
    ensures bus.trace == old(bus.trace) + ReadPrelude(pageNumber)
    ensures bus.responses == old(bus.responses)[7..]
    ensures bus.TWBR == TWBR_100KHZ && bus.TWSR & (TWPS1 | TWPS0) == 0
  {
    bus.Init();
    SetCurrentAddress(bus, pageNumber);
    bus.Start();
    bus.Write(SLA_R);
  }

  /** The byte loop of read_from_EEPROM_page: `n` reads, all acknowledged but the last, that stop
      at the first one that times out. */
  method ReceiveBytes(bus: Twi, pageBuffer: array<bv8>, n: nat) returns (status: bv8)
    requires n <= pageBuffer.Length && |bus.responses| >= n
    modifies bus, pageBuffer
    ensures var rs := old(bus.responses)[..n];
            var k := CompletedReads(rs);
            && (status == RETURN_CODE_SUCCESS <==> k == n)
            && (status == RETURN_CODE_FAILURE <==> k < n)
            && bus.trace == old(bus.trace) + (if k < n then AckedReads(n, k + 1) else AckedReads(n, n))
            && bus.responses == old(bus.responses)[if k < n then k + 1 else n..]
            && (forall i :: 0 <= i < k ==> pageBuffer[i] == rs[i].data)
            && (forall i :: k <= i < pageBuffer.Length ==> pageBuffer[i] == old(pageBuffer[i]))
    ensures bus.TWBR == old(bus.TWBR) && bus.TWSR & (TWPS1 | TWPS0) == old(bus.TWSR) & (TWPS1 | TWPS0)
  {
    ghost var rs := bus.responses[..n];
    var i := 0;
    while i < n
      invariant 0 <= i <= n
      invariant i <= CompletedReads(rs)
      invariant bus.responses == old(bus.responses)[i..]
      invariant bus.trace == old(bus.trace) + AckedReads(n, i)
      invariant forall j :: 0 <= j < i ==> pageBuffer[j] == rs[j].data
      invariant forall j :: i <= j < pageBuffer.Length ==> pageBuffer[j] == old(pageBuffer[j])
      invariant bus.TWBR == old(bus.TWBR) && bus.TWSR & (TWPS1 | TWPS0) == old(bus.TWSR) & (TWPS1 | TWPS0)
    {
      assert bus.responses[0] == rs[i];
      status := bus.Read(pageBuffer, i, if i < n - 1 then 1 else 0);
      if status == RETURN_CODE_FAILURE {
        assert CompletedReads(rs) == i;
        return;
      }
      i := i + 1;
    }
    assert CompletedReads(rs) == n;
    status := RETURN_CODE_SUCCESS;
  }

  /** write_to_EEPROM_page: the buffer is only read. */
  method WritePage(bus: Twi, pageBuffer: array<bv8>, pageNumber: nat, pageSize: nat)
    requires pageNumber < 0x1_0000 && pageSize < 0x100 && pageSize <= pageBuffer.Length
    requires |bus.responses| >= 5 + pageSize
    modifies bus
    ensures bus.trace == old(bus.trace) + WriteTrace(pageNumber, pageBuffer[..pageSize])
    ensures bus.responses == old(bus.responses)[5 + pageSize..]
    ensures bus.TWBR == TWBR_100KHZ && bus.TWSR & (TWPS1 | TWPS0) == 0
  {
    bus.Init();
    SendAddress(bus, pageNumber);
    SendData(bus, pageBuffer, pageSize);
    bus.Stop();
  }

  /** The byte loop of write_to_EEPROM_page: the first `n` bytes of the buffer, in order. */
  method SendData(bus: Twi, pageBuffer: array<bv8>, n: nat)
    requires n <= pageBuffer.Length && |bus.responses| >= n
    modifies bus
    ensures bus.trace == old(bus.trace) + DataWrites(pageBuffer[..n])
    ensures bus.responses == old(bus.responses)[n..]
    ensures bus.TWBR == old(bus.TWBR) && bus.TWSR == old(bus.TWSR)
  {
    var i := 0;
    while i < n
      invariant 0 <= i <= n
      invariant bus.responses == old(bus.responses)[i..]
      invariant bus.trace == old(bus.trace) + DataWrites(pageBuffer[..i])
      invariant bus.TWBR == old(bus.TWBR) && bus.TWSR == old(bus.TWSR)
    {
      bus.Write(pageBuffer[i]);
      assert pageBuffer[..i + 1][..i] == pageBuffer[..i];
      i := i + 1;
    }
  }

  // ---------------------------------------------------------------------------
  // Properties of the frames

  /** Number of occurrences of `e` in a trace. */
  function Occurrences(t: seq<Event>, e: Event): nat
  {
    if t == [] then 0 else Occurrences(t[..|t| - 1], e) + (if t[|t| - 1] == e then 1 else 0)
  }

  /** The read with index `i` requests an acknowledge exactly when it is not the page's last byte. */
  lemma {:induction false} AckedReadsAt(n: nat, count: nat, i: nat)
    requires i < count
    ensures |AckedReads(n, count)| == count
    ensures AckedReads(n, count)[i] == Read(i < n - 1)
  {
    if i < count - 1 {
      AckedReadsAt(n, count - 1, i);
    } else if count > 1 {
      AckedReadsAt(n, count - 1, 0);
    }
  }

  /** Reads contain no START and no STOP. */
  lemma {:induction false} AckedReadsFraming(n: nat, count: nat)
    ensures Occurrences(AckedReads(n, count), Start) == 0
    ensures Occurrences(AckedReads(n, count), Stop) == 0
  {
    if count > 0 {
      AckedReadsFraming(n, count - 1);
      OccurrencesSnoc(AckedReads(n, count - 1), Read(count - 1 < n - 1), Start);
      OccurrencesSnoc(AckedReads(n, count - 1), Read(count - 1 < n - 1), Stop);
    }
  }

  /** The data writes are the buffer's bytes in order and contain no START and no STOP. */
  lemma {:induction false} DataWritesShape(data: seq<bv8>)
    ensures |DataWrites(data)| == |data|
    ensures forall i :: 0 <= i < |data| ==> DataWrites(data)[i] == Write(data[i])
    ensures Occurrences(DataWrites(data), Start) == 0 && Occurrences(DataWrites(data), Stop) == 0
  {
    if data != [] {
      var front := data[..|data| - 1];
      DataWritesShape(front);
      OccurrencesSnoc(DataWrites(front), Write(data[|data| - 1]), Start);
      OccurrencesSnoc(DataWrites(front), Write(data[|data| - 1]), Stop);
    }
  }

  /** On a full page every byte but the last is acknowledged, and the last is not. */
  lemma FullPageAcks(n: nat)
    requires n >= 1
    ensures |AckedReads(n, n)| == n
    ensures forall i :: 0 <= i < n - 1 ==> AckedReads(n, n)[i] == Read(true)
    ensures AckedReads(n, n)[n - 1] == Read(false)
  {
    AckedReadsAt(n, n, n - 1);
    forall i | 0 <= i < n - 1
      ensures AckedReads(n, n)[i] == Read(true)
    {
      AckedReadsAt(n, n, i);
    }
  }

  /**
   * A read that completes is `Start, SLA+W, msb, lsb, Stop, Start, SLA+R`,
   * `n` reads and `Stop`: two frames.
   */
  lemma ReadTraceOnSuccess(pageNumber: nat, n: nat)
    ensures |ReadTrace(pageNumber, n, n)| == 8 + n
    ensures ReadTrace(pageNumber, n, n)[..7] ==
            [Start, Write(SLA_W), Write(AddressMsb(pageNumber)), Write(AddressLsb(pageNumber)),
             Stop, Start, Write(SLA_R)]
    ensures forall i :: 0 <= i < n ==> ReadTrace(pageNumber, n, n)[7..][i] == Read(i < n - 1)
    ensures ReadTrace(pageNumber, n, n)[7 + n] == Stop
    ensures Occurrences(ReadTrace(pageNumber, n, n), Start) == 2
    ensures Occurrences(ReadTrace(pageNumber, n, n), Stop) == 2
  {
    var prelude := ReadPrelude(pageNumber);
    var acks := AckedReads(n, n);
    var tail := acks + [Stop];
    var t := ReadTrace(pageNumber, n, n);
    assert t == prelude + tail;
    ReadPreludeShape(pageNumber);
    AckedReadsLength(n, n);
    AckedReadsFraming(n, n);
    OccurrencesAppend(prelude, tail, Start);
    OccurrencesAppend(prelude, tail, Stop);
    OccurrencesAppend(acks, [Stop], Start);
    OccurrencesAppend(acks, [Stop], Stop);
    assert t[..7] == prelude;
    assert t[7..] == tail;
    forall i | 0 <= i < n
      ensures t[7..][i] == Read(i < n - 1)
    {
      AckedReadsAt(n, n, i);
    }
  }

  /** The first `count` reads are `count` events. */
  lemma {:induction false} AckedReadsLength(n: nat, count: nat)
    ensures |AckedReads(n, count)| == count
  {
    if count > 0 {
      AckedReadsLength(n, count - 1);
    }
  }

  /** The address phase opens one frame and closes none. */
  lemma AddressPhaseFraming(pageNumber: nat)
    ensures Occurrences(AddressPhase(pageNumber), Start) == 1
    ensures Occurrences(AddressPhase(pageNumber), Stop) == 0
  {
    OpeningFraming(AddressMsb(pageNumber), AddressLsb(pageNumber));
  }

  /** START followed by three byte writes: one START, no STOP. */
  lemma OpeningFraming(msb: bv8, lsb: bv8)
    ensures Occurrences([Start, Write(SLA_W), Write(msb), Write(lsb)], Start) == 1
    ensures Occurrences([Start, Write(SLA_W), Write(msb), Write(lsb)], Stop) == 0
  {
    var t := [Start, Write(SLA_W), Write(msb), Write(lsb)];
    assert t[..3] == [Start, Write(SLA_W), Write(msb)];
    assert t[..3][..2] == [Start, Write(SLA_W)];
    assert t[..3][..2][..1] == [Start];
    assert [Start][..0] == [];
    assert Occurrences([Start], Start) == 1 && Occurrences([Start], Stop) == 0;
    assert Occurrences([Start, Write(SLA_W)], Start) == 1 && Occurrences([Start, Write(SLA_W)], Stop) == 0;
    assert Occurrences(t[..3], Start) == 1 && Occurrences(t[..3], Stop) == 0;
  }

  /** Appending one event counts it once if it is `e`. */
  lemma OccurrencesSnoc(t: seq<Event>, x: Event, e: Event)
    ensures Occurrences(t + [x], e) == Occurrences(t, e) + (if x == e then 1 else 0)
  {
    assert (t + [x])[..|t|] == t;
  }

  /** Occurrences add up over concatenation. */
  lemma {:induction false} OccurrencesAppend(a: seq<Event>, b: seq<Event>, e: Event)
    ensures Occurrences(a + b, e) == Occurrences(a, e) + Occurrences(b, e)
    decreases |b|
  {
    if b == [] {
      assert a + b == a;
    } else {
      assert (a + b)[..|a + b| - 1] == a + b[..|b| - 1];
      OccurrencesAppend(a, b[..|b| - 1], e);
    }
  }

  /** The address phase, STOP, and the restart addressed for reading: one START more than STOP. */
  lemma ReadPreludeShape(pageNumber: nat)
    ensures ReadPrelude(pageNumber) ==
            [Start, Write(SLA_W), Write(AddressMsb(pageNumber)), Write(AddressLsb(pageNumber)),
             Stop, Start, Write(SLA_R)]
    ensures Occurrences(ReadPrelude(pageNumber), Start) == 2
    ensures Occurrences(ReadPrelude(pageNumber), Stop) == 1
  {
    var phase := AddressPhase(pageNumber);
    var restart: seq<Event> := [Stop, Start, Write(SLA_R)];
    AddressPhaseFraming(pageNumber);
    OccurrencesAppend(phase, restart, Start);
    OccurrencesAppend(phase, restart, Stop);
    assert restart[..2] == [Stop, Start];
    assert restart[..2][..1] == [Stop];
    assert [Stop][..0] == [];
    assert Occurrences([Stop], Start) == 0 && Occurrences([Stop], Stop) == 1;
    assert Occurrences([Stop, Start], Start) == 1 && Occurrences([Stop, Start], Stop) == 1;
  }

  /**
   * A read whose byte `k` times out has issued exactly `k + 1` reads; its last
   * event is that read, so the reading frame is never closed by STOP.
   */
  lemma ReadTraceOnFailure(pageNumber: nat, n: nat, k: nat)
    requires k < n
    ensures |ReadTrace(pageNumber, n, k)| == 8 + k
    ensures ReadTrace(pageNumber, n, k)[7 + k] == Read(k < n - 1)
    ensures Occurrences(ReadTrace(pageNumber, n, k), Start) == 2
    ensures Occurrences(ReadTrace(pageNumber, n, k), Stop) == 1
  {
    var prelude := ReadPrelude(pageNumber);
    ReadPreludeShape(pageNumber);
    var tail := AckedReads(n, k + 1);
    assert ReadTrace(pageNumber, n, k) == prelude + tail;
    AckedReadsAt(n, k + 1, k);
    AckedReadsFraming(n, k + 1);
    OccurrencesAppend(prelude, tail, Start);
    OccurrencesAppend(prelude, tail, Stop);
  }

  /** A page write is a single frame: one START, one STOP, the address, then the data in order. */
  lemma WriteTraceShape(pageNumber: nat, data: seq<bv8>)
    ensures |WriteTrace(pageNumber, data)| == 5 + |data|
    ensures WriteTrace(pageNumber, data)[..4] == AddressPhase(pageNumber)
    ensures forall i :: 0 <= i < |data| ==> WriteTrace(pageNumber, data)[4..][i] == Write(data[i])
    ensures WriteTrace(pageNumber, data)[4 + |data|] == Stop
    ensures Occurrences(WriteTrace(pageNumber, data), Start) == 1
    ensures Occurrences(WriteTrace(pageNumber, data), Stop) == 1
  {
    var phase := AddressPhase(pageNumber);
    var writes := DataWrites(data);
    var t := WriteTrace(pageNumber, data);
    assert t == phase + (writes + [Stop]);
    DataWritesShape(data);
    OccurrencesAppend(phase, writes + [Stop], Start);
    OccurrencesAppend(phase, writes + [Stop], Stop);
    OccurrencesAppend(writes, [Stop], Start);
    OccurrencesAppend(writes, [Stop], Stop);
    AddressPhaseFraming(pageNumber);
    assert t[..4] == phase;
    assert t[4..] == writes + [Stop];
  }

  /**
   * Both operations address the chip in the same way, and the address depends
   * on the page number only, never on the `page_size` argument.
   */
  lemma AddressIgnoresPageSize(pageNumber: nat, n: nat, k: nat, data: seq<bv8>)
    requires k <= n
    ensures ReadTrace(pageNumber, n, k)[..4] == WriteTrace(pageNumber, data)[..4] == AddressPhase(pageNumber)
  {
    var phase := AddressPhase(pageNumber);
    assert ReadTrace(pageNumber, n, k) == phase + ReadTrace(pageNumber, n, k)[4..];
    assert WriteTrace(pageNumber, data) == phase + (DataWrites(data) + [Stop]);
  }

  /** Worked addresses: page 0 is 0x0000, page 3 is 0x0180, and page 2 is 0x0100 whatever the page size. */
  lemma AddressExamples()
    ensures AddressMsb(0) == 0x00 && AddressLsb(0) == 0x00
    ensures AddressMsb(3) == 0x01 && AddressLsb(3) == 0x80
    ensures AddressMsb(2) == 0x01 && AddressLsb(2) == 0x00
    ensures AddressMsb(512) == 0x00 && AddressLsb(512) == 0x00
    ensures SLA_W == 0xA0 && SLA_R == 0xA1
  {
  }
}
