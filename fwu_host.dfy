/**
 * The host-side firmware-update tool. It lays out the external EEPROM in
 * four regions, uploads firmware images and formats regions through block
 * writes, edits the three configuration bytes, and dumps regions back.
 *
 * Every bus write `write_i2c_block_data(device, msb, [lsb] + payload)` is
 * modelled as a `BlockWrite(msb, [lsb] + payload)` value; the operations
 * return the list of writes they issue. The EEPROM read back by a dump is
 * modelled by its contents: a current-address read returns the byte at the
 * device's address pointer and advances it, rolling over at 64 KiB.
 */
module FwuHost {
  type Byte = b: int | 0 <= b < 0x100

  datatype Option<T> = None | Some(value: T)

  const FORMAT_BYTE: Byte := 0xFF
  const PAYLOAD_SIZE: nat := 16

  const FIRMWARE_1_SIZE: nat := 30720
  const FIRMWARE_2_SIZE: nat := 30720
  const CONFIG_SIZE: nat := 2048
  const UNUSED_SIZE: nat := 2048
  /** Bytes of the EEPROM, and the point where its address pointer rolls over. */
  const EEPROM_BYTES: nat := FIRMWARE_1_SIZE + FIRMWARE_2_SIZE + CONFIG_SIZE + UNUSED_SIZE

  const CONFIG_START_ADDRESS: nat := FIRMWARE_1_SIZE + FIRMWARE_2_SIZE
  const CONFIG_FWU_MODE_ADDRESS: nat := CONFIG_START_ADDRESS + 0
  const CONFIG_FWU_SLOT_ADDRESS: nat := CONFIG_START_ADDRESS + 1
  const CONFIG_FWU_BKUP_ADDRESS: nat := CONFIG_START_ADDRESS + 2

  const CONFIG_OP_FWU: int := 1
  const CONFIG_OP_SLOT: int := 2
  const CONFIG_OP_BKUP: int := 3

  const FWU_MODE_UNKNOWN: string := "UNKNOWN"
  const FWU_MODE_ENABLE: string := "ENABLE"
  const FWU_MODE_DISABLE: string := "DISABLE"
  const FWU_SLOT_1: string := "1"
  const FWU_SLOT_2: string := "2"

  /** One `write_i2c_block_data`: the register byte, then the data list. */
  datatype BlockWrite = BlockWrite(register: nat, data: seq<Byte>)

  // ---------------------------------------------------------------------------
  // Layout

  datatype Region = Firmware1 | Firmware2 | Config | Unused

  /** The regions in the order the tool visits them. */
  const REGION_ORDER: seq<Region> := [Firmware1, Firmware2, Config, Unused]

  function RegionStart(r: Region): nat
  {
    match r
    case Firmware1 => 0
    case Firmware2 => FIRMWARE_1_SIZE
    case Config => FIRMWARE_1_SIZE + FIRMWARE_2_SIZE
    case Unused => FIRMWARE_1_SIZE + FIRMWARE_2_SIZE + CONFIG_SIZE
  }

  function RegionSize(r: Region): nat
  {
    match r
    case Firmware1 => FIRMWARE_1_SIZE
    case Firmware2 => FIRMWARE_2_SIZE
    case Config => CONFIG_SIZE
    case Unused => UNUSED_SIZE
  }

  /** `address >> 8` */
  function Msb(address: nat): nat
  {
    address / 0x100
  }

  /** `address & 0xFF` */
  function Lsb(address: nat): Byte
  {
    address % 0x100
  }

  /** The EEPROM address a block write starts at: the register byte, then the first data byte. */
  function WriteAddress(w: BlockWrite): nat
    requires |w.data| >= 1
  {
    w.register * 0x100 + w.data[0]
  }

  /** The bytes a block write stores: its data after the address byte. */
  function Payload(w: BlockWrite): seq<Byte>
  {
    if |w.data| == 0 then [] else w.data[1..]
  }

  /** The write that sets the EEPROM's address to `address` and stores `payload` from there. */
  function WriteAt(address: nat, payload: seq<Byte>): BlockWrite
  {
    BlockWrite(Msb(address), [Lsb(address)] + payload)
  }

  // ---------------------------------------------------------------------------
  // update_eeprom

  /** Frame `k` of a buffered upload: bytes `16k .. 16k + 16` at `start + 16k`. */
  function Frame(start: nat, data: seq<Byte>, k: nat): BlockWrite
    requires PAYLOAD_SIZE * (k + 1) <= |data|
  {
    WriteAt(start + PAYLOAD_SIZE * k, data[PAYLOAD_SIZE * k..PAYLOAD_SIZE * (k + 1)])
  }

  /** The first `n` frames of a buffered upload. */
  function Frames(start: nat, data: seq<Byte>, n: nat): (ws: seq<BlockWrite>)
    requires PAYLOAD_SIZE * n <= |data|
    ensures |ws| == n
  {
    if n == 0 then [] else Frames(start, data, n - 1) + [Frame(start, data, n - 1)]
  }

  /** The first `n` single-byte writes of a legacy upload. */
  function ByteWrites(start: nat, data: seq<Byte>, n: nat): (ws: seq<BlockWrite>)
    requires n <= |data|
    ensures |ws| == n
  {
    if n == 0 then [] else ByteWrites(start, data, n - 1) + [WriteAt(start + n - 1, data[n - 1..n])]
  }

  /** Every write `update_eeprom` issues for `data`. */
  function UploadWrites(start: nat, data: seq<Byte>, legacy: bool): seq<BlockWrite>
  {
    if legacy then ByteWrites(start, data, |data|) else Frames(start, data, |data| / PAYLOAD_SIZE)
  }

  /** How many leading bytes of `data` an upload stores: all in legacy mode, the complete frames otherwise. */
  function Uploaded(length: nat, legacy: bool): nat
  {
    if legacy then length else length - length % PAYLOAD_SIZE
  }

  /** All payloads of a list of writes, in order. */
  function Flatten(writes: seq<BlockWrite>): seq<Byte>
  {
    if writes == [] then [] else Flatten(writes[..|writes| - 1]) + Payload(writes[|writes| - 1])
  }

  /** Each write starts where the previous payloads, laid out from `start`, end. */
  predicate Sequential(writes: seq<BlockWrite>, start: nat)
  {
    writes == [] ||
    (var prefix := writes[..|writes| - 1];
     var w := writes[|writes| - 1];
     Sequential(prefix, start) && |w.data| >= 1 && WriteAddress(w) == start + |Flatten(prefix)|)
  }

  /** update_eeprom: buffers 16-byte frames, or writes byte by byte in legacy mode. */
  method UpdateEeprom(data: seq<Byte>, start: nat, legacy: bool) returns (writes: seq<BlockWrite>)
    ensures writes == UploadWrites(start, data, legacy)
  {
    var frameIndex: nat := 0;
    var payload: seq<Byte> := [];
    writes := [];
    var index := 0;
    while index < |data|
      invariant 0 <= index <= |data|
      invariant !legacy ==> frameIndex == index - FrameBase(index) <= PAYLOAD_SIZE
      invariant !legacy ==> payload == data[FrameBase(index)..index]
      invariant !legacy ==> writes == Frames(start, data, index / PAYLOAD_SIZE)
      invariant legacy ==> writes == ByteWrites(start, data, index)
    {
      FrameBaseStep(index);
      if !legacy {
        if frameIndex == PAYLOAD_SIZE {
          frameIndex := 0;
          payload := [];
        }
        payload := payload + [data[index]];
        frameIndex := frameIndex + 1;
        if frameIndex == PAYLOAD_SIZE {
          var address := start + index - (PAYLOAD_SIZE - 1);
          writes := writes + [BlockWrite(Msb(address), [Lsb(address)] + payload)];
        }
      } else {
        payload := [data[index]];
        assert payload == data[index..index + 1];
        var address := start + index;
        writes := writes + [BlockWrite(Msb(address), [Lsb(address)] + payload)];
      }
      index := index + 1;
    }
  }

  /** The index at which the frame that holds byte `index - 1` began. */
  function FrameBase(index: nat): nat
  {
    if index == 0 then 0 else PAYLOAD_SIZE * ((index - 1) / PAYLOAD_SIZE)
  }

  /** How the frame boundary and the count of complete frames move when one more byte is taken. */
  lemma FrameBaseStep(index: nat)
    ensures index - FrameBase(index) == PAYLOAD_SIZE <==> index > 0 && index % PAYLOAD_SIZE == 0
    ensures FrameBase(index) <= index && index - FrameBase(index) <= PAYLOAD_SIZE
    ensures FrameBase(index + 1) == if index > 0 && index % PAYLOAD_SIZE == 0 then index else FrameBase(index)
    ensures (index + 1) / PAYLOAD_SIZE == index / PAYLOAD_SIZE + (if (index + 1) % PAYLOAD_SIZE == 0 then 1 else 0)
    ensures (index + 1) % PAYLOAD_SIZE == 0 ==> FrameBase(index + 1) == index + 1 - PAYLOAD_SIZE == PAYLOAD_SIZE * (index / PAYLOAD_SIZE)
  {
  }

  // ---------------------------------------------------------------------------
  // write_firmware and format_eeprom

  /** Where a firmware slot begins, if the slot is one the tool knows. */
  function SlotStart(slot: string): Option<nat>
  {
    if slot == FWU_SLOT_1 then Some(0)
    else if slot == FWU_SLOT_2 then Some(FIRMWARE_1_SIZE)
    else None
  }

  /**
   * write_firmware: the image is uploaded from the slot's start. For any other
   * slot the start address is never bound, the upload raises before a write
   * and the error is reported, so nothing is written.
   */
  method WriteFirmware(image: seq<Byte>, slot: string, legacy: bool) returns (writes: seq<BlockWrite>)
    ensures SlotStart(slot).Some? ==> writes == UploadWrites(SlotStart(slot).value, image, legacy)
    ensures SlotStart(slot).None? ==> writes == []
  {
    writes := [];
    if slot == FWU_SLOT_1 {
      writes := UpdateEeprom(image, 0, legacy);
    } else if slot == FWU_SLOT_2 {
      writes := UpdateEeprom(image, FIRMWARE_1_SIZE, legacy);
    }
  }

  /** `n` format bytes. */
  function Blank(n: nat): seq<Byte>
  {
    seq(n, _ => FORMAT_BYTE)
  }

  /** The writes formatting `region` issues. */
  function FormatRegionWrites(r: Region, legacy: bool): seq<BlockWrite>
  {
    UploadWrites(RegionStart(r), Blank(RegionSize(r)), legacy)
  }

  /** The writes formatting the selected regions issues, region by region in `order`. */
  function FormatSelected(order: seq<Region>, selected: set<Region>, legacy: bool): seq<BlockWrite>
  {
    if order == [] then []
    else
      var rest := FormatSelected(order[..|order| - 1], selected, legacy);
      var r := order[|order| - 1];
      if r in selected then rest + FormatRegionWrites(r, legacy) else rest
  }

  /** Every write format_eeprom issues: the whole EEPROM when no region is named, else each named region. */
  function FormatWrites(regions: Option<set<Region>>, legacy: bool): seq<BlockWrite>
  {
    match regions
    case None => UploadWrites(0, Blank(EEPROM_BYTES), legacy)
    case Some(selected) => FormatSelected(REGION_ORDER, selected, legacy)
  }

  /** format_eeprom */
  method FormatEeprom(regions: Option<set<Region>>, legacy: bool) returns (writes: seq<BlockWrite>)
    ensures writes == FormatWrites(regions, legacy)
  {
    if regions.None? {
      writes := UpdateEeprom(Blank(EEPROM_BYTES), 0, legacy);
    } else {
      var selected := regions.value;
      writes := [];
      var i := 0;
      while i < |REGION_ORDER|
        invariant 0 <= i <= |REGION_ORDER|
        invariant writes == FormatSelected(REGION_ORDER[..i], selected, legacy)
      {
        var r := REGION_ORDER[i];
        assert REGION_ORDER[..i + 1][..i] == REGION_ORDER[..i];
        if r in selected {
          var more := UpdateEeprom(Blank(RegionSize(r)), RegionStart(r), legacy);
          writes := writes + more;
        }
        i := i + 1;
      }
      assert REGION_ORDER[..|REGION_ORDER|] == REGION_ORDER;
    }
  }

  // ---------------------------------------------------------------------------
  // update_config

  datatype ConfigResult =
    | NotConfigured                // unknown option: nothing is attempted
    | Failed(address: nat)         // option known, value not: the write raises, nothing is written
    | Written(write: BlockWrite)

  /** The configuration byte an option is stored in. */
  function ConfigAddress(option: int): Option<nat>
  {
    if option == CONFIG_OP_FWU then Some(CONFIG_FWU_MODE_ADDRESS)
    else if option == CONFIG_OP_SLOT then Some(CONFIG_FWU_SLOT_ADDRESS)
    else if option == CONFIG_OP_BKUP then Some(CONFIG_FWU_BKUP_ADDRESS)
    else None
  }

  /** The encoding of a mode value (update mode and backup share it). */
  function ModeByte(value: string): Option<Byte>
  {
    if value == FWU_MODE_UNKNOWN then Some(0x00)
    else if value == FWU_MODE_ENABLE then Some(0xEE)
    else if value == FWU_MODE_DISABLE then Some(0xDD)
    else None
  }

  function SlotByte(value: string): Option<Byte>
  {
    if value == FWU_SLOT_1 then Some(0x01)
    else if value == FWU_SLOT_2 then Some(0x02)
    else None
  }

  function ConfigByte(option: int, value: string): Option<Byte>
  {
    if option == CONFIG_OP_SLOT then SlotByte(value)
    else if option == CONFIG_OP_FWU || option == CONFIG_OP_BKUP then ModeByte(value)
    else None
  }

  /** update_config: one write of `[lsb, byte]` to the option's configuration byte. */
  function UpdateConfig(option: int, value: string): (r: ConfigResult)
    ensures r.Written? ==> |r.write.data| == 2
  {
    match ConfigAddress(option)
    case None => NotConfigured
    case Some(address) =>
      match ConfigByte(option, value)
      case None => Failed(address)
      case Some(b) => Written(BlockWrite(Msb(address), [Lsb(address), b]))
  }

  /** The setting a stored configuration byte stands for: the reading the encoding is made for. */
  function DecodeConfig(option: int, b: Byte): Option<string>
  {
    if option == CONFIG_OP_SLOT then
      (if b == 0x01 then Some(FWU_SLOT_1) else if b == 0x02 then Some(FWU_SLOT_2) else None)
    else if option == CONFIG_OP_FWU || option == CONFIG_OP_BKUP then
      (if b == 0x00 then Some(FWU_MODE_UNKNOWN)
       else if b == 0xEE then Some(FWU_MODE_ENABLE)
       else if b == 0xDD then Some(FWU_MODE_DISABLE)
       else None)
    else None
  }

  // ---------------------------------------------------------------------------
  // dump_hardware

  /**
   * dump_hardware: one write sets the EEPROM address to `start`, then
   * `dataSize` current-address reads collect the bytes from there on.
   */
  method DumpHardware(device: seq<Byte>, dataSize: nat, start: nat) returns (setAddress: BlockWrite, buffer: seq<Byte>)
    requires |device| == EEPROM_BYTES
    ensures setAddress == WriteAt(start, []) && WriteAddress(setAddress) == start
    ensures |buffer| == dataSize
    ensures forall i :: 0 <= i < dataSize ==> buffer[i] == device[(start + i) % EEPROM_BYTES]
  {
    var msbAddress := start / 0x100;
    var lsbAddress := start % 0x100;
    setAddress := BlockWrite(msbAddress, [lsbAddress]);
    AddressSplit(start);
    var pointer := (msbAddress * 0x100 + lsbAddress) % EEPROM_BYTES;
    buffer := [];
    var index := 0;
    while index < dataSize
      invariant 0 <= index <= dataSize && |buffer| == index
      invariant pointer == (start + index) % EEPROM_BYTES
      invariant forall i :: 0 <= i < index ==> buffer[i] == device[(start + i) % EEPROM_BYTES]
    {
      ModStep(start + index);
      var value := device[pointer];
      pointer := (pointer + 1) % EEPROM_BYTES;
      buffer := buffer + [value];
      index := index + 1;
    }
  }

  // ---------------------------------------------------------------------------
  // Properties

  /** The regions tile the EEPROM from 0 to 64 KiB, in order, with no gap and no overlap. */
  lemma RegionsTile()
    ensures RegionStart(Firmware1) == 0
    ensures forall i :: 0 <= i < |REGION_ORDER| - 1 ==>
              RegionStart(REGION_ORDER[i]) + RegionSize(REGION_ORDER[i]) == RegionStart(REGION_ORDER[i + 1])
    ensures RegionStart(Unused) + RegionSize(Unused) == EEPROM_BYTES == 0x1_0000
    ensures RegionStart(Firmware2) == 30720 && RegionStart(Config) == 61440 && RegionStart(Unused) == 63488
  {
  }

  /** The three configuration bytes are the first three of the configuration region. */
  lemma ConfigAddresses()
    ensures CONFIG_START_ADDRESS == RegionStart(Config) == 61440
    ensures ConfigAddress(CONFIG_OP_FWU) == Some(RegionStart(Config))
    ensures ConfigAddress(CONFIG_OP_SLOT) == Some(RegionStart(Config) + 1)
    ensures ConfigAddress(CONFIG_OP_BKUP) == Some(RegionStart(Config) + 2)
    ensures forall option :: ConfigAddress(option).Some? ==>
              RegionStart(Config) <= ConfigAddress(option).value < RegionStart(Config) + RegionSize(Config)
  {
  }

  /** The register byte and the first data byte put back together give the address. */
  lemma AddressSplit(address: nat)
    ensures Msb(address) * 0x100 + Lsb(address) == address
    ensures address < 0x1_0000 ==> Msb(address) < 0x100
    ensures WriteAddress(WriteAt(address, [])) == address
  {
  }

  /** A write made by `WriteAt` starts at its address. */
  lemma WriteAtAddress(address: nat, payload: seq<Byte>)
    ensures |WriteAt(address, payload).data| >= 1
    ensures WriteAddress(WriteAt(address, payload)) == address
  {
    AddressSplit(address);
  }

  /** A write made by `WriteAt` stores exactly its payload. */
  lemma WriteAtPayload(address: nat, payload: seq<Byte>)
    ensures Payload(WriteAt(address, payload)) == payload
  {
    assert WriteAt(address, payload).data[1..] == payload;
  }

  lemma SliceJoin<T>(s: seq<T>, j: nat, k: nat)
    requires j <= k <= |s|
    ensures s[..j] + s[j..k] == s[..k]
  {
  }

  /** The payloads of a list with one more write end with that write's payload. */
  lemma FlattenSnoc(writes: seq<BlockWrite>, w: BlockWrite)
    ensures Flatten(writes + [w]) == Flatten(writes) + Payload(w)
  {
    assert (writes + [w])[..|writes|] == writes;
  }

  /** Appending a write that starts where the earlier payloads end keeps the layout sequential. */
  lemma SequentialSnoc(writes: seq<BlockWrite>, w: BlockWrite, start: nat)
    requires Sequential(writes, start) && |w.data| >= 1 && WriteAddress(w) == start + |Flatten(writes)|
    ensures Sequential(writes + [w], start)
  {
    assert (writes + [w])[..|writes|] == writes;
  }

  /** The payloads of the first `n` frames are the first `16n` bytes. */
  lemma {:induction false} FramesFlat(start: nat, data: seq<Byte>, n: nat)
    requires PAYLOAD_SIZE * n <= |data|
    ensures Flatten(Frames(start, data, n)) == data[..PAYLOAD_SIZE * n]
  {
    if n > 0 {
      var m := PAYLOAD_SIZE * (n - 1);
      var prefix, f := Frames(start, data, n - 1), Frame(start, data, n - 1);
      FramesFlat(start, data, n - 1);
      FlattenSnoc(prefix, f);
      WriteAtPayload(start + m, data[m..m + PAYLOAD_SIZE]);
      SliceJoin(data, m, m + PAYLOAD_SIZE);
    }
  }

  /** Each frame starts where the earlier frames' payloads end. */
  lemma {:induction false} FramesSeq(start: nat, data: seq<Byte>, n: nat)
    requires PAYLOAD_SIZE * n <= |data|
    ensures Sequential(Frames(start, data, n), start)
  {
    if n > 0 {
      var m := PAYLOAD_SIZE * (n - 1);
      var prefix, f := Frames(start, data, n - 1), Frame(start, data, n - 1);
      FramesSeq(start, data, n - 1);
      FramesFlat(start, data, n - 1);
      WriteAtAddress(start + m, data[m..m + PAYLOAD_SIZE]);
      SequentialSnoc(prefix, f, start);
    }
  }

  /** The frames of a buffered upload store `data[..16n]` at consecutive addresses from `start`. */
  lemma FramesLayout(start: nat, data: seq<Byte>, n: nat)
    requires PAYLOAD_SIZE * n <= |data|
    ensures Flatten(Frames(start, data, n)) == data[..PAYLOAD_SIZE * n]
    ensures Sequential(Frames(start, data, n), start)
  {
    FramesFlat(start, data, n);
    FramesSeq(start, data, n);
  }

  /** The payloads of the first `n` legacy writes are the first `n` bytes. */
  lemma {:induction false} ByteWritesFlat(start: nat, data: seq<Byte>, n: nat)
    requires n <= |data|
    ensures Flatten(ByteWrites(start, data, n)) == data[..n]
  {
    if n > 0 {
      var prefix, w := ByteWrites(start, data, n - 1), WriteAt(start + n - 1, data[n - 1..n]);
      ByteWritesFlat(start, data, n - 1);
      FlattenSnoc(prefix, w);
      WriteAtPayload(start + n - 1, data[n - 1..n]);
      SliceJoin(data, n - 1, n);
    }
  }

  /** Each legacy write starts where the earlier writes' bytes end. */
  lemma {:induction false} ByteWritesSeq(start: nat, data: seq<Byte>, n: nat)
    requires n <= |data|
    ensures Sequential(ByteWrites(start, data, n), start)
  {
    if n > 0 {
      var prefix, w := ByteWrites(start, data, n - 1), WriteAt(start + n - 1, data[n - 1..n]);
      ByteWritesSeq(start, data, n - 1);
      ByteWritesFlat(start, data, n - 1);
      WriteAtAddress(start + n - 1, data[n - 1..n]);
      SequentialSnoc(prefix, w, start);
    }
  }

  /** The single-byte writes of a legacy upload store `data[..n]` at consecutive addresses from `start`. */
  lemma ByteWritesLayout(start: nat, data: seq<Byte>, n: nat)
    requires n <= |data|
    ensures Flatten(ByteWrites(start, data, n)) == data[..n]
    ensures Sequential(ByteWrites(start, data, n), start)
  {
    ByteWritesFlat(start, data, n);
    ByteWritesSeq(start, data, n);
  }

  /**
   * An upload stores the leading `Uploaded` bytes of the image, in order, at
   * consecutive addresses from `start`: all of it in legacy mode, all but the
   * last `|data| % 16` bytes otherwise.
   */
  lemma UploadLayout(start: nat, data: seq<Byte>, legacy: bool)
    ensures Flatten(UploadWrites(start, data, legacy)) == data[..Uploaded(|data|, legacy)]
    ensures Sequential(UploadWrites(start, data, legacy), start)
    ensures |UploadWrites(start, data, legacy)| == if legacy then |data| else |data| / PAYLOAD_SIZE
    ensures !legacy && |data| % PAYLOAD_SIZE != 0 ==> |Flatten(UploadWrites(start, data, legacy))| < |data|
  {
    if legacy {
      ByteWritesLayout(start, data, |data|);
    } else {
      FramesLayout(start, data, |data| / PAYLOAD_SIZE);
    }
  }

  /** Every buffered frame carries 16 bytes after its address byte; every legacy write carries one. */
  lemma UploadWriteSizes(start: nat, data: seq<Byte>, legacy: bool)
    ensures forall k :: 0 <= k < |UploadWrites(start, data, legacy)| ==>
              |UploadWrites(start, data, legacy)[k].data| == 1 + (if legacy then 1 else PAYLOAD_SIZE)
  {
    if legacy {
      ByteWriteSizes(start, data, |data|);
    } else {
      FrameSizes(start, data, |data| / PAYLOAD_SIZE);
    }
  }

  lemma {:induction false} FrameSizes(start: nat, data: seq<Byte>, n: nat)
    requires PAYLOAD_SIZE * n <= |data|
    ensures forall k :: 0 <= k < n ==> Frames(start, data, n)[k] == Frame(start, data, k)
    ensures forall k :: 0 <= k < n ==> |Frames(start, data, n)[k].data| == 1 + PAYLOAD_SIZE
  {
    if n > 0 {
      FrameSizes(start, data, n - 1);
    }
  }

  lemma {:induction false} ByteWriteSizes(start: nat, data: seq<Byte>, n: nat)
    requires n <= |data|
    ensures forall k :: 0 <= k < n ==> ByteWrites(start, data, n)[k] == WriteAt(start + k, data[k..k + 1])
    ensures forall k :: 0 <= k < n ==> |ByteWrites(start, data, n)[k].data| == 2
  {
    if n > 0 {
      ByteWriteSizes(start, data, n - 1);
    }
  }

  /** Slot 1 is uploaded from address 0 and slot 2 from the end of the first firmware region; no other slot writes. */
  lemma SlotStarts()
    ensures SlotStart(FWU_SLOT_1) == Some(RegionStart(Firmware1))
    ensures SlotStart(FWU_SLOT_2) == Some(RegionStart(Firmware2))
    ensures forall slot :: slot != FWU_SLOT_1 && slot != FWU_SLOT_2 ==> SlotStart(slot).None?
  {
  }

  /** Uploading `n` format bytes, `n` a whole number of frames, stores all of them from `start`. */
  lemma BlankLayout(start: nat, n: nat, legacy: bool)
    requires n % PAYLOAD_SIZE == 0
    ensures Flatten(UploadWrites(start, Blank(n), legacy)) == Blank(n)
    ensures Sequential(UploadWrites(start, Blank(n), legacy), start)
  {
    UploadLayout(start, Blank(n), legacy);
    assert Uploaded(n, legacy) == n;
    assert Blank(n)[..n] == Blank(n);
  }

  /** Formatting a region fills its whole range with 0xFF, in either mode. */
  lemma FormatRegionLayout(r: Region, legacy: bool)
    ensures Flatten(FormatRegionWrites(r, legacy)) == Blank(RegionSize(r))
    ensures Sequential(FormatRegionWrites(r, legacy), RegionStart(r))
  {
    assert RegionSize(r) % PAYLOAD_SIZE == 0;
    BlankLayout(RegionStart(r), RegionSize(r), legacy);
  }

  /** Formatting the whole EEPROM fills all 64 KiB with 0xFF from address 0, in either mode. */
  lemma FormatAllLayout(legacy: bool)
    ensures Flatten(FormatWrites(None, legacy)) == Blank(EEPROM_BYTES)
    ensures Sequential(FormatWrites(None, legacy), 0)
  {
    BlankLayout(0, EEPROM_BYTES, legacy);
  }

  /** Formatting named regions issues each named region's writes, once, in region order, and nothing else. */
  lemma FormatSelectedRegions(legacy: bool, selected: set<Region>)
    ensures FormatWrites(Some(selected), legacy) ==
              (if Firmware1 in selected then FormatRegionWrites(Firmware1, legacy) else []) +
              (if Firmware2 in selected then FormatRegionWrites(Firmware2, legacy) else []) +
              (if Config in selected then FormatRegionWrites(Config, legacy) else []) +
              (if Unused in selected then FormatRegionWrites(Unused, legacy) else [])
  {
    var o := REGION_ORDER;
    assert FormatSelected(o[..1], selected, legacy) == (if Firmware1 in selected then FormatRegionWrites(Firmware1, legacy) else []) by {
      assert o[..1][..0] == [];
    }
    assert FormatSelected(o[..2], selected, legacy) == FormatSelected(o[..1], selected, legacy) + (if Firmware2 in selected then FormatRegionWrites(Firmware2, legacy) else []) by {
      assert o[..2][..1] == o[..1];
    }
    assert FormatSelected(o[..3], selected, legacy) == FormatSelected(o[..2], selected, legacy) + (if Config in selected then FormatRegionWrites(Config, legacy) else []) by {
      assert o[..3][..2] == o[..2];
    }
    assert FormatSelected(o, selected, legacy) == FormatSelected(o[..3], selected, legacy) + (if Unused in selected then FormatRegionWrites(Unused, legacy) else []) by {
      assert o[..3] == [Firmware1, Firmware2, Config];
    }
  }

  /** The configuration encoding. */
  lemma ConfigEncoding()
    ensures UpdateConfig(CONFIG_OP_FWU, FWU_MODE_ENABLE) == Written(BlockWrite(0xF0, [0x00, 0xEE]))
    ensures UpdateConfig(CONFIG_OP_FWU, FWU_MODE_DISABLE) == Written(BlockWrite(0xF0, [0x00, 0xDD]))
    ensures UpdateConfig(CONFIG_OP_FWU, FWU_MODE_UNKNOWN) == Written(BlockWrite(0xF0, [0x00, 0x00]))
    ensures UpdateConfig(CONFIG_OP_SLOT, FWU_SLOT_1) == Written(BlockWrite(0xF0, [0x01, 0x01]))
    ensures UpdateConfig(CONFIG_OP_SLOT, FWU_SLOT_2) == Written(BlockWrite(0xF0, [0x01, 0x02]))
    ensures UpdateConfig(CONFIG_OP_BKUP, FWU_MODE_ENABLE) == Written(BlockWrite(0xF0, [0x02, 0xEE]))
    ensures UpdateConfig(CONFIG_OP_BKUP, FWU_MODE_DISABLE) == Written(BlockWrite(0xF0, [0x02, 0xDD]))
    ensures UpdateConfig(CONFIG_OP_BKUP, FWU_MODE_UNKNOWN) == Written(BlockWrite(0xF0, [0x02, 0x00]))
  {
  }

  /**
   * A configuration write lands on the option's byte and stores a byte that
   * decodes back to the value given; an unknown option writes nothing, and a
   * known option with an unknown value fails without writing.
   */
  lemma ConfigRoundTrip(option: int, value: string)
    ensures ConfigAddress(option).None? <==> UpdateConfig(option, value) == NotConfigured
    ensures UpdateConfig(option, value).Written? <==> ConfigAddress(option).Some? && ConfigByte(option, value).Some?
    ensures UpdateConfig(option, value).Written? ==>
              var w := UpdateConfig(option, value).write;
              WriteAddress(w) == ConfigAddress(option).value &&
              Payload(w) == [ConfigByte(option, value).value] &&
              DecodeConfig(option, ConfigByte(option, value).value) == Some(value)
  {
    if ConfigAddress(option).Some? {
      var address := ConfigAddress(option).value;
      AddressSplit(address);
      if ConfigByte(option, value).Some? {
        var b := ConfigByte(option, value).value;
        assert [Lsb(address), b][1..] == [b];
      }
    }
  }

  lemma ModStep(x: nat)
    ensures (x % EEPROM_BYTES + 1) % EEPROM_BYTES == (x + 1) % EEPROM_BYTES
  {
    if x % EEPROM_BYTES + 1 < EEPROM_BYTES {
      assert x + 1 == (x / EEPROM_BYTES) * EEPROM_BYTES + (x % EEPROM_BYTES + 1);
    } else {
      assert x + 1 == (x / EEPROM_BYTES + 1) * EEPROM_BYTES;
    }
  }

  /** Reading a dump of a range that does not cross 64 KiB gives the EEPROM's bytes in that range. */
  lemma DumpIsSlice(device: seq<Byte>, dataSize: nat, start: nat, buffer: seq<Byte>)
    requires |device| == EEPROM_BYTES && start + dataSize <= EEPROM_BYTES && |buffer| == dataSize
    requires forall i :: 0 <= i < dataSize ==> buffer[i] == device[(start + i) % EEPROM_BYTES]
    ensures buffer == device[start..start + dataSize]
  {
    forall i | 0 <= i < dataSize
      ensures buffer[i] == device[start..start + dataSize][i]
    {
      assert (start + i) % EEPROM_BYTES == start + i;
    }
  }
}
