/**
 * The bus power gate of the EEPROM: a chain of three serial-in/parallel-out
 * shift registers (24 stages) driven by three port pins. `init_EEPROM_bus`
 * configures the pins and `update_EEPROM_bus` shifts a 24-bit word whose only
 * possibly-set bit is the EEPROM enable bit, then strobes the latch.
 *
 * The pins are bits of the ports: data is PB1, clock is PB0 (both on port B),
 * latch is PD7. Every store to a port is logged as the pin levels it leaves,
 * which is what the shift-register chain observes.
 */
module PowerGate {

  const EEPROM_ENABLE_BIT: nat := 7
  const CHAIN_LENGTH: nat := 24

  /** `_BV(SIPO_DATA_PIN)`, `_BV(SIPO_CLK_PIN)` on port B and `_BV(SIPO_LATCH_PIN)` on port D. */
  const DATA_MASK: bv8 := 0x02
  const CLOCK_MASK: bv8 := 0x01
  const LATCH_MASK: bv8 := 0x80

  /** The levels of the three pins after a port store. */
  datatype Level = Level(data: bool, clock: bool, latch: bool)

  /** The data level shifted at step `index` of `update_EEPROM_bus`. */
  function DataBit(state: bv8, index: int): bool
  {
    index == EEPROM_ENABLE_BIT && state != 0
  }

  /** The 24-bit word `update_EEPROM_bus(state)` is meant to shift in, first bit first. */
  function EnableWord(state: bv8): seq<bool>
  {
    seq(CHAIN_LENGTH, i => DataBit(state, i))
  }

  // ---------------------------------------------------------------------------
  // What the shift-register chain observes (reference semantics)

  /** The pin levels before the last store of `ls`, or `prev` when `ls` is empty. */
  function LastLevel(prev: Level, ls: seq<Level>): Level
  {
    if ls == [] then prev else ls[|ls| - 1]
  }

  /** The data levels sampled on the rising clock edges of `ls`, in order. */
  function Clocked(prev: Level, ls: seq<Level>): seq<bool>
  {
    if ls == [] then []
    else
      var before := ls[..|ls| - 1];
      var now := ls[|ls| - 1];
      Clocked(prev, before) + (if !LastLevel(prev, before).clock && now.clock then [now.data] else [])
  }

  /** Number of rising edges of the latch line in `ls`. */
  function LatchRises(prev: Level, ls: seq<Level>): nat
  {
    if ls == [] then 0
    else
      var before := ls[..|ls| - 1];
      LatchRises(prev, before) + (if !LastLevel(prev, before).latch && ls[|ls| - 1].latch then 1 else 0)
  }

  // ---------------------------------------------------------------------------
  // The levels `update_EEPROM_bus` produces

  /** One step: set the data line, then toggle the clock twice. */
  function Pulse(d: bool, clock: bool, latch: bool): seq<Level>
  {
    [Level(d, clock, latch), Level(d, !clock, latch), Level(d, clock, latch)]
  }

  /** The first `count` steps of the shift loop, from clock level `clock` and latch level `latch`. */
  function ShiftLevels(state: bv8, clock: bool, latch: bool, count: nat): seq<Level>
  {
    if count == 0 then [] else ShiftLevels(state, clock, latch, count - 1) + Pulse(DataBit(state, count - 1), clock, latch)
  }

  /** The whole of `update_EEPROM_bus` from pin levels `p`: 24 steps, then the latch toggled twice. */
  function UpdateLevels(state: bv8, p: Level): seq<Level>
  {
    ShiftLevels(state, p.clock, p.latch, CHAIN_LENGTH)
      + [Level(false, p.clock, !p.latch), Level(false, p.clock, p.latch)]
  }

  /** The levels of the data, clock and latch pins for given port values. */
  function PinLevels(portB: bv8, portD: bv8): Level
  {
    Level(portB & DATA_MASK != 0, portB & CLOCK_MASK != 0, portD & LATCH_MASK != 0)
  }

  /** PORTB after the data line is driven to `high`. */
  function DriveData(portB: bv8, high: bool): bv8
  {
    if high then portB | DATA_MASK else portB & !DATA_MASK
  }

  // ---------------------------------------------------------------------------
  // The port registers

  class ShiftPort {
    var DDRB: bv8
    var PORTB: bv8
    var DDRD: bv8
    var PORTD: bv8
    /** The pin levels after every store to PORTB or PORTD, oldest first: each store is followed by
        appending `PinLevels(PORTB, PORTD)`. */
    var levels: seq<Level>

    constructor(ddrb: bv8, portb: bv8, ddrd: bv8, portd: bv8)
      ensures DDRB == ddrb && PORTB == portb && DDRD == ddrd && PORTD == portd
      ensures levels == []
    {
      DDRB, PORTB, DDRD, PORTD := ddrb, portb, ddrd, portd;
      levels := [];
    }

    /** The current levels of the data, clock and latch pins. */
    function Pins(): Level
      reads this
    {
      PinLevels(PORTB, PORTD)
    }

    /** init_EEPROM_bus: the three pins become outputs; data and clock low, latch high. */
    method Init()
      modifies this`DDRB, this`DDRD, this`PORTB, this`PORTD, this`levels
      ensures DDRB == old(DDRB) | DATA_MASK | CLOCK_MASK && DDRD == old(DDRD) | LATCH_MASK
      ensures PORTB == old(PORTB) & !DATA_MASK & !CLOCK_MASK && PORTD == old(PORTD) | LATCH_MASK
      ensures Pins() == Level(false, false, true)
      ensures levels == old(levels) + [Level(false, old(Pins()).clock, old(Pins()).latch),
                                       Level(false, false, old(Pins()).latch),
                                       Level(false, false, true)]
    {
      MakeOutputs();
      DriveIdle();
    }

    /** The first half of init_EEPROM_bus: data and clock (port B) and latch (port D) become outputs. */
    method MakeOutputs()
      modifies this`DDRB, this`DDRD
      ensures DDRB == old(DDRB) | DATA_MASK | CLOCK_MASK && DDRD == old(DDRD) | LATCH_MASK
    {
      var ddrB, ddrD := DDRB, DDRD;
      DDRB := ddrB | DATA_MASK;
      DDRB := ddrB | DATA_MASK | CLOCK_MASK;
      DDRD := ddrD | LATCH_MASK;
    }

    /** The second half of init_EEPROM_bus: data low, clock low, latch high, one store each. */
    method DriveIdle()
      modifies this`PORTB, this`PORTD, this`levels
      ensures PORTB == old(PORTB) & !DATA_MASK & !CLOCK_MASK && PORTD == old(PORTD) | LATCH_MASK
      ensures Pins() == Level(false, false, true)
      ensures levels == old(levels) + [Level(false, old(Pins()).clock, old(Pins()).latch),
                                       Level(false, false, old(Pins()).latch),
                                       Level(false, false, true)]
    {
      var b, d := PORTB, PORTD;
      DataPinCleared(b, d);
      ClockPinCleared(b & !DATA_MASK, d);
      LatchPinSet(b & !DATA_MASK & !CLOCK_MASK, d);
      PORTB := b & !DATA_MASK;
      levels := levels + [PinLevels(b & !DATA_MASK, d)];
      PORTB := b & !DATA_MASK & !CLOCK_MASK;
      levels := levels + [PinLevels(b & !DATA_MASK & !CLOCK_MASK, d)];
      PORTD := d | LATCH_MASK;
      levels := levels + [PinLevels(b & !DATA_MASK & !CLOCK_MASK, d | LATCH_MASK)];
    }

    /**
     * One step of the shift loop: drive the data line to `high`, then toggle the clock twice.
     * `rest` is PORTB without its data bit and `last` the data level before the step.
     */
    method ShiftBit(high: bool, ghost rest: bv8, ghost last: bool)
      requires rest & DATA_MASK == 0 && PORTB == DriveData(rest, last)
      modifies this`PORTB, this`levels
      ensures PORTB == DriveData(rest, high)
      ensures levels == old(levels) + Pulse(high, rest & CLOCK_MASK != 0, PORTD & LATCH_MASK != 0)
    {
      var b, d := PORTB, PORTD;
      var driven := DriveData(b, high);
      DataPinRedriven(rest, last, high, d);
      ClockPinToggled(driven, d);
      ClockPinToggled(driven ^ CLOCK_MASK, d);
      PORTB := driven;
      levels := levels + [PinLevels(driven, d)];
      PORTB := driven ^ CLOCK_MASK;
      levels := levels + [PinLevels(driven ^ CLOCK_MASK, d)];
      PORTB := driven ^ CLOCK_MASK ^ CLOCK_MASK;
      levels := levels + [PinLevels(driven ^ CLOCK_MASK ^ CLOCK_MASK, d)];
    }

    /**
     * update_EEPROM_bus: shifts the 24 bits of `EnableWord(state)` and strobes
     * the latch. Only the data pin of the ports changes: it ends low, and clock
     * and latch end at their starting levels (`DataPinCleared`).
     */
    method Update(state: bv8)
      modifies this`PORTB, this`PORTD, this`levels
      ensures levels == old(levels) + UpdateLevels(state, old(Pins()))
      ensures PORTB == old(PORTB) & !DATA_MASK && PORTD == old(PORTD)
    {
      ghost var p := Pins();
      ShiftWord(state);
      Strobe();
      AppendAssoc(old(levels), ShiftLevels(state, p.clock, p.latch, CHAIN_LENGTH),
                  [Level(false, p.clock, !p.latch), Level(false, p.clock, p.latch)]);
    }

    /** The latch strobe that ends update_EEPROM_bus: the latch line toggled twice. */
    method Strobe()
      modifies this`PORTD, this`levels
      ensures PORTD == old(PORTD)
      ensures levels == old(levels) + [Level(old(Pins()).data, old(Pins()).clock, !old(Pins()).latch), old(Pins())]
    {
      var b, d := PORTB, PORTD;
      LatchPinToggled(b, d);
      LatchPinToggled(b, d ^ LATCH_MASK);
      PORTD := d ^ LATCH_MASK;
      levels := levels + [PinLevels(b, d ^ LATCH_MASK)];
      PORTD := d ^ LATCH_MASK ^ LATCH_MASK;
      levels := levels + [PinLevels(b, d ^ LATCH_MASK ^ LATCH_MASK)];
    }

    /** The 24-step loop of update_EEPROM_bus. */
    method ShiftWord(state: bv8)
      modifies this`PORTB, this`levels
      ensures levels == old(levels) + ShiftLevels(state, old(Pins()).clock, old(Pins()).latch, CHAIN_LENGTH)
      ensures PORTB == old(PORTB) & !DATA_MASK
      ensures Pins() == Level(false, old(Pins()).clock, old(Pins()).latch)
    {
      ghost var p := Pins();
      ghost var rest := PORTB & !DATA_MASK;
      DataPinSplit(PORTB, PORTD);
      ghost var clock, latch := p.clock, p.latch;
      assert clock == (rest & CLOCK_MASK != 0) && latch == (PORTD & LATCH_MASK != 0);
      ghost var last := p.data;
      var index: nat := 0;
      while index <= 23
        invariant 0 <= index <= CHAIN_LENGTH
        invariant PORTB == DriveData(rest, last)
        invariant index > 0 ==> last == DataBit(state, index - 1)
        invariant levels == old(levels) + ShiftLevels(state, clock, latch, index)
      {
        var high := index == EEPROM_ENABLE_BIT && state != 0;
        ShiftBit(high, rest, last);
        ShiftLevelsStep(state, clock, latch, index);
        AppendAssoc(old(levels), ShiftLevels(state, clock, latch, index), Pulse(high, clock, latch));
        last := high;
        index := index + 1;
      }
      DataPinRedriven(rest, last, false, PORTD);
      assert PORTB == DriveData(rest, false);
      assert index == CHAIN_LENGTH;
    }
  }

  /** One more step of the shift loop appends its pulse. */
  lemma ShiftLevelsStep(state: bv8, clock: bool, latch: bool, count: nat)
    ensures ShiftLevels(state, clock, latch, count + 1)
            == ShiftLevels(state, clock, latch, count) + Pulse(DataBit(state, count), clock, latch)
  {
  }

  lemma AppendAssoc<T>(a: seq<T>, b: seq<T>, c: seq<T>)
    ensures a + (b + c) == (a + b) + c
  {
  }

  // ---------------------------------------------------------------------------
  // What each port store does to the pins

  /** `PORTB &= ~_BV(SIPO_DATA_PIN)` lowers the data line and nothing else. */
  lemma DataPinCleared(portB: bv8, portD: bv8)
    ensures PinLevels(portB & !DATA_MASK, portD)
            == Level(false, PinLevels(portB, portD).clock, PinLevels(portB, portD).latch)
  {
  }

  /** A port value is its data bit driven over the rest of the port; the rest keeps the clock line. */
  lemma DataPinSplit(portB: bv8, portD: bv8)
    ensures (portB & !DATA_MASK) & DATA_MASK == 0
    ensures portB == DriveData(portB & !DATA_MASK, PinLevels(portB, portD).data)
    ensures (portB & !DATA_MASK) & CLOCK_MASK != 0 <==> PinLevels(portB, portD).clock
  {
  }

  /** Driving the data line again from `rest` with data `last` gives `rest` with data `high`. */
  lemma DataPinRedriven(rest: bv8, last: bool, high: bool, portD: bv8)
    requires rest & DATA_MASK == 0
    ensures DriveData(DriveData(rest, last), high) == DriveData(rest, high)
    ensures PinLevels(DriveData(rest, high), portD) == Level(high, rest & CLOCK_MASK != 0, portD & LATCH_MASK != 0)
    ensures DriveData(rest, false) == rest
  {
  }

  /** `PORTB &= ~_BV(SIPO_CLK_PIN)` lowers the clock line and nothing else. */
  lemma ClockPinCleared(portB: bv8, portD: bv8)
    ensures PinLevels(portB & !CLOCK_MASK, portD)
            == Level(PinLevels(portB, portD).data, false, PinLevels(portB, portD).latch)
  {
  }

  /** `PORTB ^= _BV(SIPO_CLK_PIN)` inverts the clock line; twice restores the port. */
  lemma ClockPinToggled(portB: bv8, portD: bv8)
    ensures PinLevels(portB ^ CLOCK_MASK, portD)
            == Level(PinLevels(portB, portD).data, !PinLevels(portB, portD).clock, PinLevels(portB, portD).latch)
    ensures (portB ^ CLOCK_MASK) & !DATA_MASK == (portB & !DATA_MASK) ^ CLOCK_MASK
    ensures portB ^ CLOCK_MASK ^ CLOCK_MASK == portB
  {
  }

  /** `PORTD |= _BV(SIPO_LATCH_PIN)` raises the latch line and nothing else. */
  lemma LatchPinSet(portB: bv8, portD: bv8)
    ensures PinLevels(portB, portD | LATCH_MASK)
            == Level(PinLevels(portB, portD).data, PinLevels(portB, portD).clock, true)
  {
  }

  /** `PORTD ^= _BV(SIPO_LATCH_PIN)` inverts the latch line; twice restores the port. */
  lemma LatchPinToggled(portB: bv8, portD: bv8)
    ensures PinLevels(portB, portD ^ LATCH_MASK)
            == Level(PinLevels(portB, portD).data, PinLevels(portB, portD).clock, !PinLevels(portB, portD).latch)
    ensures portD ^ LATCH_MASK ^ LATCH_MASK == portD
  {
  }

  // ---------------------------------------------------------------------------
  // Properties of the protocol

  /** Sampling distributes over concatenation, carrying the level in between. */
  lemma {:induction false} ClockedAppend(prev: Level, a: seq<Level>, b: seq<Level>)
    ensures Clocked(prev, a + b) == Clocked(prev, a) + Clocked(LastLevel(prev, a), b)
    ensures LatchRises(prev, a + b) == LatchRises(prev, a) + LatchRises(LastLevel(prev, a), b)
    decreases |b|
  {
    if b == [] {
      assert a + b == a;
    } else {
      var b' := b[..|b| - 1];
      assert (a + b)[..|a + b| - 1] == a + b';
      ClockedAppend(prev, a, b');
      assert LastLevel(prev, a + b') == LastLevel(LastLevel(prev, a), b');
    }
  }

  /** A single store samples the data when it raises the clock, and counts a latch rise when it raises the latch. */
  lemma ClockedSingle(prev: Level, now: Level)
    ensures Clocked(prev, [now]) == if !prev.clock && now.clock then [now.data] else []
    ensures LatchRises(prev, [now]) == if !prev.latch && now.latch then 1 else 0
    ensures LastLevel(prev, [now]) == now
  {
    assert [now][..0] == [];
  }

  /** Whatever the clock level, one step clocks in exactly its data bit and leaves the latch alone. */
  lemma PulseClocksOneBit(prev: Level, d: bool)
    ensures Clocked(prev, Pulse(d, prev.clock, prev.latch)) == [d]
    ensures LatchRises(prev, Pulse(d, prev.clock, prev.latch)) == 0
    ensures LastLevel(prev, Pulse(d, prev.clock, prev.latch)).clock == prev.clock
    ensures LastLevel(prev, Pulse(d, prev.clock, prev.latch)).latch == prev.latch
  {
    var ls := Pulse(d, prev.clock, prev.latch);
    assert ls == [ls[0]] + [ls[1]] + [ls[2]];
    ClockedAppend(prev, [ls[0]] + [ls[1]], [ls[2]]);
    ClockedAppend(prev, [ls[0]], [ls[1]]);
    ClockedSingle(prev, ls[0]);
    ClockedSingle(ls[0], ls[1]);
    ClockedSingle(ls[1], ls[2]);
  }

  /** The shift loop ends each step at the clock and latch levels it started from. */
  lemma ShiftLevelsEnd(state: bv8, prev: Level, count: nat)
    ensures LastLevel(prev, ShiftLevels(state, prev.clock, prev.latch, count)).clock == prev.clock
    ensures LastLevel(prev, ShiftLevels(state, prev.clock, prev.latch, count)).latch == prev.latch
  {
  }

  /** The first `count` steps clock in the first `count` bits of the enable word and never raise the latch. */
  lemma {:induction false} ShiftLevelsClockWord(state: bv8, prev: Level, count: nat)
    requires count <= CHAIN_LENGTH
    ensures Clocked(prev, ShiftLevels(state, prev.clock, prev.latch, count)) == EnableWord(state)[..count]
    ensures LatchRises(prev, ShiftLevels(state, prev.clock, prev.latch, count)) == 0
  {
    if count > 0 {
      var front := ShiftLevels(state, prev.clock, prev.latch, count - 1);
      var d := DataBit(state, count - 1);
      ShiftLevelsClockWord(state, prev, count - 1);
      ShiftLevelsEnd(state, prev, count - 1);
      ClockedAppend(prev, front, Pulse(d, prev.clock, prev.latch));
      var mid := LastLevel(prev, front);
      PulseClocksOneBit(mid, d);
      EnableWordPrefix(state, count);
    }
  }

  /**
   * `update_EEPROM_bus` clocks exactly the 24 bits of the enable word into the
   * chain (high only at index 7, and only when `state != 0`) and raises the
   * latch exactly once, after the last of them, whatever the starting levels.
   */
  lemma UpdateShiftsEnableWord(state: bv8, p: Level)
    ensures Clocked(p, UpdateLevels(state, p)) == EnableWord(state)
    ensures |Clocked(p, UpdateLevels(state, p))| == CHAIN_LENGTH
    ensures Clocked(p, ShiftLevels(state, p.clock, p.latch, CHAIN_LENGTH)) == EnableWord(state)
    ensures LatchRises(p, ShiftLevels(state, p.clock, p.latch, CHAIN_LENGTH)) == 0
    ensures LatchRises(p, UpdateLevels(state, p)) == 1
    ensures LastLevel(p, UpdateLevels(state, p)) == Level(false, p.clock, p.latch)
  {
    var shift := ShiftLevels(state, p.clock, p.latch, CHAIN_LENGTH);
    var strobe := [Level(false, p.clock, !p.latch), Level(false, p.clock, p.latch)];
    ShiftLevelsClockWord(state, p, CHAIN_LENGTH);
    ShiftLevelsEnd(state, p, CHAIN_LENGTH);
    assert EnableWord(state)[..CHAIN_LENGTH] == EnableWord(state);
    ClockedAppend(p, shift, strobe);
    var mid := LastLevel(p, shift);
    assert strobe == [strobe[0]] + [strobe[1]];
    ClockedAppend(mid, [strobe[0]], [strobe[1]]);
    ClockedSingle(mid, strobe[0]);
    ClockedSingle(strobe[0], strobe[1]);
    assert Clocked(mid, strobe) == [];
    assert LatchRises(mid, strobe) == 1;
  }

  /** The first `count` bits of the enable word extend the first `count - 1` by bit `count - 1`. */
  lemma EnableWordPrefix(state: bv8, count: nat)
    requires 0 < count <= CHAIN_LENGTH
    ensures EnableWord(state)[..count] == EnableWord(state)[..count - 1] + [DataBit(state, count - 1)]
  {
    assert EnableWord(state)[count - 1] == DataBit(state, count - 1);
  }

  /** Disabling shifts all zeros; enabling sets exactly the enable bit. */
  lemma EnableWordBits(state: bv8)
    ensures state == 0 ==> forall i :: 0 <= i < CHAIN_LENGTH ==> !EnableWord(state)[i]
    ensures state != 0 ==> EnableWord(state)[EEPROM_ENABLE_BIT]
    ensures forall i :: 0 <= i < CHAIN_LENGTH && i != EEPROM_ENABLE_BIT ==> !EnableWord(state)[i]
  {
  }
}
