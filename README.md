# iBootLoader (iAloy) — a Dafny model

This project models the parts of the iAloy bootloader and its host-side firmware-update (FWU) tool that hold the logic.
FWU images are kept on an external I²C EEPROM.

- `i2c_lite.dfy` (module `I2cLite`): the bootloader's two-wire interface (TWI) primitives on the ATmega328P.
  - Class `Twi` holds the four TWI registers, `TWCR`, `TWDR`, `TWSR` and `TWBR`.
  - It also holds a log of register stores and a trace of bus events: `Start`, `Stop`, `Write(b)` and `Read(ack)`.
  - The hardware is an oracle sequence of responses. Each response gives the number of polls that still see the operation busy and the byte shifted in.
  - Reading fails if, and only if, the completion flag is still clear on the poll after the retry budget runs out.
- `eeprom_page.dfy` (module `EepromPage`): the EEPROM page client on top of the TWI primitives.
  - A page read first sets the current address, then repeats the START, then reads the page. Every byte is ACKed except the last. The read stops at the first read that times out.
  - A page write sends one address-then-data frame.
  - The memory address is `page_number * SPM_PAGESIZE` in 16-bit unsigned arithmetic, so it wraps at 2^16.
  - Both traces are specified exactly by pure functions.
- `power_gate.dfy` (module `PowerGate`): the 24-stage shift register on port B and port D that powers the EEPROM.
  - Class `ShiftPort` holds the port and data direction registers.
  - It also keeps the history of (data, clock, latch) pin levels.
  - The shift register is specified by what it samples on each rising clock edge and by the number of latch rises.
- `flash_page.dfy` (module `FlashPage`): the self-programming of one flash page.
  - Class `Flash` holds the 32 KiB of flash, the temporary page buffer of words, and a log of SPM (store program memory) operations.
  - Address bits above 32 KiB are ignored, so pages 256 apart share flash.
  - A page write programs the page: each byte keeps only the bits it shares with the new byte, because programming can only clear bits. The erase before it is what makes the page end equal to the buffer.
  - Writing a page is erase, wait, 64 little-endian word fills, commit, wait, then re-enabling the read-while-write section.
  - Reading a page copies it byte by byte.
- `serial_lite.dfy` (module `SerialLite`): `itoa` and how `print_number` uses it.
  - The digits come out least significant first. They are then reversed in place and NUL-terminated.
  - Division and remainder follow C: they truncate toward zero on the 16-bit AVR `int`.
- `fwu_host.dfy` (module `FwuHost`): the host tool `manage_fwu_eeprom.py`.
  - It covers the EEPROM region map, the configuration bytes and their encoding, and the address split into register byte and first data byte.
  - It also covers the 16-byte block framing and the legacy one-byte framing of uploads, firmware slot selection, formatting, and dumping.
  - Every bus write is a `BlockWrite(register, data)`, as `write_i2c_block_data` receives it.

Build-time constants that are not in the files modelled are fixed to ATmega328P values:
- `SPM_PAGESIZE = 128`;
- `F_CPU = 16 MHz`, so `TWBR = 72` for a 100 kHz SCL.

Bus framing uses the usual I²C conventions (UM10204, the NXP I²C-bus specification):
- section 3.1.4: START and STOP;
- section 3.1.6: ACK and NACK;
- section 3.1.10: a 7-bit address plus the R/W bit. The EEPROM at 0x50 is addressed as 0xA0 to write and 0xA1 to read.

Two facts about the code shape the model:
- The memory address uses the build-time `SPM_PAGESIZE`, not the `page_size` argument (see `EepromPage.AddressIgnoresPageSize`). That shared address computation and the page size are in `platform.dfy` (module `Platform`).
- The bus is the ATmega328P's hardware TWI peripheral.

## Model

| member | source | states |
|---|---|---|
| I2cLite.Twi.Init | src/i2c_lite.cpp:40-45 | Both prescaler bits of TWSR are cleared and the other TWSR bits are kept. TWBR becomes the 100 kHz divisor. Exactly those two stores are made, and TWCR, TWDR and the bus trace are untouched. |
| I2cLite.InitTwice | src/i2c_lite.cpp:40-45 | Two calls of init leave the same TWSR prescaler bits, TWBR, TWCR and TWDR as one call. |
| I2cLite.BitRateFor16MHz | src/i2c_lite.cpp:44 | At 16 MHz, TWBR = ((F_CPU/100000)-16)/2 = 72, and F_CPU/(16+2·TWBR) is exactly the 100 kHz SCL clock. |
| I2cLite.Twi.Start | src/i2c_lite.cpp:52-56 | TWCR receives exactly TWINT\|TWSTA\|TWEN. The call returns only after the hardware reports completion, emits one START, and has no failure result. |
| I2cLite.Twi.Stop | src/i2c_lite.cpp:63-67 | TWCR receives exactly TWINT\|TWSTO\|TWEN, and the call returns once TWSTO reads clear. It emits one STOP. |
| I2cLite.Twi.Write | src/i2c_lite.cpp:76-81 | TWDR is loaded with the byte before TWCR is triggered with TWINT\|TWEN. It waits for completion, emits Write(data) and reports nothing. |
| I2cLite.Twi.Read | src/i2c_lite.cpp:94-110 | TWEA is set iff ack is 1. The result is FAILURE iff the flag is still clear on poll RETRY_MAX+2. On SUCCESS the target byte equals TWDR, the byte shifted in. On FAILURE no byte of the array changes, and on SUCCESS none besides the target. |
| Platform.MemoryAddress | src/eeprom_read_write.cpp:94-95 | The page's memory address is page-aligned and below 2^16. It equals page_number·SPM_PAGESIZE when that product does not overflow 16 bits. |
| Platform.AddressWraps | src/eeprom_read_write.cpp:94-95 | Page numbers that differ by 2^16/SPM_PAGESIZE give the same address, because the 16-bit product wraps. |
| EepromPage.AddressExamples | src/eeprom_read_write.cpp:92-99 | The address bytes are sent MSB first. The slave bytes are 0xA0 to write and 0xA1 to read, and sample pages split as expected, including the wrap. |
| EepromPage.AddressIgnoresPageSize | src/eeprom_read_write.cpp:92-96 | The address frame of a read and of a write of the same page are equal, whatever page_size is or however many bytes were read. |
| EepromPage.SendAddress | src/eeprom_read_write.cpp:125-128 | It emits Start, Write(0xA0), Write(msb), Write(lsb) and consumes four responses. |
| EepromPage.SetCurrentAddress | src/eeprom_read_write.cpp:92-96 | It emits the address frame followed by one Stop. |
| EepromPage.OpenRead | src/eeprom_read_write.cpp:90-99 | After init, the address frame, the Stop, the repeated Start and Write(0xA1) are emitted in that order. The bus is left at 100 kHz with the prescaler cleared. |
| EepromPage.CompletedReads | src/eeprom_read_write.cpp:101-106 | The number of reads before the first timeout: every earlier read succeeds, and the one it names times out. |
| EepromPage.ReceiveBytes | src/eeprom_read_write.cpp:101-106 | The read loop returns SUCCESS iff none of the n reads times out. Read i carries the ack (i < n-1), and the loop stops right after the first failing read. Bytes before that read are stored in order, and every other byte of the buffer is unchanged. |
| EepromPage.ReadPage | src/eeprom_read_write.cpp:87-110 | SUCCESS iff all page_size reads complete. The trace is the read prelude followed by the acked reads up to and including the first failure. Only a full page gets the closing Stop. page_buffer[i] is the i-th byte read, and no other index is written. |
| EepromPage.ReadTraceOnSuccess | src/eeprom_read_write.cpp:92-109 | On full success the trace is Start, W(0xA0), W(msb), W(lsb), Stop, Start, W(0xA1), then page_size reads with ack on all but the last, then Stop. It has two Starts and two Stops. |
| EepromPage.ReadTraceOnFailure | src/eeprom_read_write.cpp:101-105 | When read k fails, the trace ends with that read. It has 8+k events, two Starts and one Stop, so no further reads and no closing Stop. |
| EepromPage.ReadPreludeShape | src/eeprom_read_write.cpp:90-99 | The read prelude is exactly the seven events of address, Stop, repeated Start and SLA+R, with two Starts and one Stop. |
| EepromPage.AckedReadsAt | src/eeprom_read_write.cpp:101-103 | Read number i is sent with ack = (i < page_size-1). |
| EepromPage.FullPageAcks | src/eeprom_read_write.cpp:101-103 | Over a full page, every read is ACKed except the last, which is NACKed. |
| EepromPage.AckedReadsFraming | src/eeprom_read_write.cpp:101-106 | The read loop emits no Start and no Stop. |
| EepromPage.WritePage | src/eeprom_read_write.cpp:121-136 | The trace is exactly the address frame, the first page_size buffer bytes as writes, and Stop. The buffer is not modified, and the bus is left at 100 kHz with the prescaler cleared. |
| EepromPage.SendData | src/eeprom_read_write.cpp:130-133 | It writes buffer bytes 0..n-1 in order, one response each. |
| EepromPage.DataWritesShape | src/eeprom_read_write.cpp:130-133 | Data event i is Write(buf[i]), and the data phase contains no Start or Stop. |
| EepromPage.WriteTraceShape | src/eeprom_read_write.cpp:125-135 | The write trace has 5+page_size events: the address frame, Write(buf[i]) for each i, and a final Stop. There is exactly one Start/Stop pair. |
| PowerGate.ShiftPort.Init | src/eeprom_read_write.cpp:41-50 | The data, clock and latch pins become outputs. Data and clock are driven low and latch high, and all other port bits are kept. |
| PowerGate.ShiftPort.MakeOutputs | src/eeprom_read_write.cpp:43-45 | Only the three direction bits are set. |
| PowerGate.ShiftPort.DriveIdle | src/eeprom_read_write.cpp:47-49 | Data and clock are cleared and latch is set, with the pin history extended step by step. |
| PowerGate.ShiftPort.ShiftBit | src/eeprom_read_write.cpp:63-69 | One iteration drives the data pin to the bit and toggles the clock twice, keeping the other port bits. |
| PowerGate.ShiftPort.ShiftWord | src/eeprom_read_write.cpp:61-70 | The 24 iterations produce exactly the pulse train for the enable word. The data pin ends low, and clock and latch end where they started. |
| PowerGate.ShiftPort.Strobe | src/eeprom_read_write.cpp:71-72 | The latch toggles twice and ends at its starting level. |
| PowerGate.ShiftPort.Update | src/eeprom_read_write.cpp:59-73 | The pin history grows by exactly the shift-and-latch sequence for the state. Only the data bit of port B changes, to low. |
| PowerGate.EnableWordBits | src/eeprom_read_write.cpp:63-66 | State 0 shifts all zeros. Any other state sets bit 7 and only bit 7. |
| PowerGate.UpdateShiftsEnableWord | src/eeprom_read_write.cpp:59-73 | The register samples exactly the 24-bit enable word on the rising clock edges, sees one latch rise, and ends with clock and latch at their starting levels and data low. |
| PowerGate.ShiftLevelsClockWord | src/eeprom_read_write.cpp:61-70 | After count iterations the register has sampled the first count bits of the enable word, with no latch rise. |
| PowerGate.PulseClocksOneBit | src/eeprom_read_write.cpp:63-69 | One iteration produces exactly one rising clock edge, sampling the driven bit, and returns clock and latch to where they were. |
| PowerGate.ClockedAppend | src/eeprom_read_write.cpp:61-72 | Sampled bits and latch rises of consecutive pin histories add up. |
| FlashPage.Flash.PageErase | src/flash_read_write.cpp:48 | The page containing the address becomes all 0xFF, and the rest of flash is unchanged. |
| FlashPage.Flash.PageFill | src/flash_read_write.cpp:53 | The word goes to the temporary buffer slot selected by the address within the page. |
| FlashPage.Flash.PageWrite | src/flash_read_write.cpp:57 | The temporary buffer, unpacked little-endian, is programmed into the addressed page: each byte becomes the old byte AND the new one. Only the log changes besides. |
| FlashPage.Flash.SpmBusyWait | src/flash_read_write.cpp:49 | The wait is logged and changes nothing else. |
| FlashPage.Flash.RwwEnableSection | src/flash_read_write.cpp:59 | The re-enable is logged and changes nothing else. |
| FlashPage.Flash.FillTemp | src/flash_read_write.cpp:51-55 | The loop issues the 64 fills in order, at base+i for even i. The temporary buffer ends as the little-endian packing of the page. |
| FlashPage.Flash.WritePage | src/flash_read_write.cpp:44-60 | The operation log grows by exactly erase, wait, 64 fills, commit, wait, rww-enable. The page at page_number·SPM_PAGESIZE (within the 32 KiB flash) ends equal to the buffer, because it was erased before programming. The rest of flash is unchanged, and the buffer is not modified. |
| FlashPage.Flash.ReadPage | src/flash_read_write.cpp:70-78 | page_buffer[i] = flash[base+i] for every i < SPM_PAGESIZE, where base is page_number·SPM_PAGESIZE within the 32 KiB flash. Flash and the rest of the buffer are unchanged. |
| FlashPage.Flash.ReadByte | src/flash_read_write.cpp:76 | pgm_read_byte returns the flash byte the address selects, ignoring bits above 32 KiB. Nothing changes. |
| FlashPage.WriteThenRead | src/flash_read_write.cpp:44-78 | Writing a page and reading the same page back yields the original bytes. |
| FlashPage.WriteOpsOrder | src/flash_read_write.cpp:48-59 | Erase and wait come first, then exactly 64 fills, then commit, wait and rww-enable. Fills occur at exactly positions 2..65. |
| FlashPage.FillsShape | src/flash_read_write.cpp:51-55 | Fill j targets base+2j with the word buf[2j] \| buf[2j+1]<<8. |
| FlashPage.FillTargets | src/flash_read_write.cpp:51-55 | Fill j stays in the erased page and lands in temporary slot j. |
| FlashPage.Pack | src/flash_read_write.cpp:53 | A 128-byte page packs into 64 words. |
| FlashPage.Unpack | src/flash_read_write.cpp:57 | 64 words unpack into a 128-byte page. |
| FlashPage.UnpackPack | src/flash_read_write.cpp:53-57 | Unpacking the packed words gives back the page bytes. |
| FlashPage.WordBytes | src/flash_read_write.cpp:53 | The low byte of a word is buf[i] and the high byte is buf[i+1]. |
| FlashPage.SplicedPage | src/flash_read_write.cpp:48-57 | Replacing a page changes that page to the new bytes, and nothing else. |
| FlashPage.ErasedThenProgrammed | src/flash_read_write.cpp:48-57 | Programming a page that was just erased stores exactly the new bytes and leaves the rest of flash unchanged. |
| FlashPage.ProgramOnlyClears | src/flash_read_write.cpp:57 | Programming never sets a bit, and it changes no byte outside the page. |
| FlashPage.UnerasedPageDiffers | src/flash_read_write.cpp:48-57 | Without the erase, a byte with a cleared bit that the new byte needs set does not take the new value. So the write would not store the buffer. |
| FlashPage.PageInFlash | src/flash_read_write.cpp:48-57 | The page any address selects lies wholly inside the 32 KiB flash. |
| FlashPage.FlashOffset | src/flash_read_write.cpp:72-76 | Byte i of a page-aligned address is byte i of its page in flash, so the read loop walks the page in order. |
| FlashPage.FlashPagesAlias | src/flash_read_write.cpp:48-72 | Page numbers 256 apart select the same flash page, because flash is 32 KiB. |
| SerialLite.Itoa | src/serial_lite.cpp:50-81 | The string holds the rendering of num in the base, then NUL. No index beyond the NUL is written, and the returned pointer is str. |
| SerialLite.WriteDigits | src/serial_lite.cpp:54-65 | Before the reversal, str[0..i) holds the digits least significant first. Nothing past them is written. |
| SerialLite.ReverseInPlace | src/serial_lite.cpp:70-78 | The swap loop leaves exactly the reverse of str[0..i) and touches nothing after it. |
| SerialLite.PrintNumber | src/serial_lite.cpp:117-122 | print_number prints the base-10 rendering of the value. Its itoa call on a 10-character buffer stays in bounds for every 16-bit value. |
| SerialLite.PositiveRoundTrip | src/serial_lite.cpp:61-78 | For num > 0 the string read back as a base-`base` numeral is num, and every character is a digit of that base. |
| SerialLite.NoLeadingZero | src/serial_lite.cpp:61-78 | For num > 0 the first character is not '0'. |
| SerialLite.ZeroIsOneDigit | src/serial_lite.cpp:54-58 | Zero renders as "0". |
| SerialLite.NoMinusSign | src/serial_lite.cpp:50-81 | No '-' is emitted for num ≥ 0. |
| SerialLite.NegativeExamples | src/serial_lite.cpp:61-65 | Negative numbers render as the C code computes: -3 gives "-", and -12 gives "/.". |
| SerialLite.DigitRoundTrip | src/serial_lite.cpp:63 | Digits of value 10 and above are 'a'+(d-10). Each digit character maps back to its value and is a digit of the base. |
| SerialLite.FitsPrintBuffer | src/serial_lite.cpp:117-121 | Any 16-bit int renders in at most 5 characters, so with the NUL it fits char buffer[10]. |
| SerialLite.RenderedHasNoNul | src/serial_lite.cpp:61-67 | The rendering contains no NUL, so the string ends exactly at the NUL itoa writes. |
| SerialLite.DigitCount | src/serial_lite.cpp:61-65 | A number below base^k has at most k digits. |
| SerialLite.CDivision | src/serial_lite.cpp:62-64 | C's truncating / and % recombine to num, the remainder is smaller than the base and has num's sign, and the quotient's magnitude is the floor of the magnitudes. |
| SerialLite.Reverse | src/serial_lite.cpp:70-78 | Reversal keeps the length. |
| SerialLite.ReverseAt | src/serial_lite.cpp:70-78 | Position j of the reversal holds position n-1-j of the input. |
| FwuHost.RegionsTile | manage_fwu_eeprom.py:34-40 | Firmware 1, firmware 2, config and unused regions lie back to back from address 0 and cover exactly 64 KiB. |
| FwuHost.ConfigAddresses | manage_fwu_eeprom.py:62-69 | The FWU-mode, slot and backup bytes are the first three bytes of the config region, at 61440, 61441 and 61442. |
| FwuHost.AddressSplit | manage_fwu_eeprom.py:156-157 | The register byte (address>>8) and the first data byte (address&0xFF) put back together give the address. The register byte fits a byte below 64 KiB. |
| FwuHost.DumpHardware | manage_fwu_eeprom.py:154-174 | The address is written with an empty payload. Then data_size reads collect the device bytes from start on, rolling over at 64 KiB. |
| FwuHost.DumpIsSlice | manage_fwu_eeprom.py:162-164 | Without rollover, the dump is exactly the device bytes start..start+data_size. |
| FwuHost.UpdateEeprom | manage_fwu_eeprom.py:177-207 | The loop emits exactly the framed writes of the data: one 16-byte block per full frame, or one byte per write in legacy mode. |
| FwuHost.UploadLayout | manage_fwu_eeprom.py:185-206 | The writes land at consecutive addresses from the start and carry the data in order. Legacy mode sends every byte, and block mode sends the whole 16-byte frames and drops a trailing partial frame. |
| FwuHost.UploadWriteSizes | manage_fwu_eeprom.py:186-205 | Each write carries the LSB byte plus 16 payload bytes, or plus 1 in legacy mode. |
| FwuHost.FramesLayout | manage_fwu_eeprom.py:186-194 | n block frames cover data[..16n] and are sequential from the start. |
| FwuHost.FrameSizes | manage_fwu_eeprom.py:186-194 | Frame k is the write of data[16k..16k+16] at start+16k. |
| FwuHost.ByteWritesLayout | manage_fwu_eeprom.py:195-197 | n legacy writes cover data[..n] and are sequential from the start. |
| FwuHost.ByteWriteSizes | manage_fwu_eeprom.py:195-197 | Legacy write k carries data[k] at address start+k. |
| FwuHost.Frames | manage_fwu_eeprom.py:186-194 | n frames are produced. |
| FwuHost.ByteWrites | manage_fwu_eeprom.py:195-197 | n legacy writes are produced. |
| FwuHost.FrameBaseStep | manage_fwu_eeprom.py:187-194 | The frame counter fills up exactly at multiples of 16, and the address emitted then is start+index-15, the frame's first byte. |
| FwuHost.WriteAtAddress | manage_fwu_eeprom.py:199-206 | A write built for an address decodes back to that address. |
| FwuHost.WriteAtPayload | manage_fwu_eeprom.py:204-205 | The payload after the LSB byte is what was given. |
| FwuHost.WriteFirmware | manage_fwu_eeprom.py:212-223 | Slot '1' uploads at 0, and slot '2' at FIRMWARE_1_SIZE. Any other slot writes nothing, because the unbound start address raises inside the try. |
| FwuHost.SlotStarts | manage_fwu_eeprom.py:215-218 | The two slots start at the two firmware regions, and no other slot string has a start. |
| FwuHost.FormatEeprom | manage_fwu_eeprom.py:226-277 | The writes are exactly those of formatting the chosen regions. |
| FwuHost.FormatAllLayout | manage_fwu_eeprom.py:227-235 | Formatting without a selection writes 0xFF to every one of the 64 KiB addresses, sequentially from 0. |
| FwuHost.FormatSelectedRegions | manage_fwu_eeprom.py:236-275 | With a selection, regions are formatted in the fixed order FW1, FW2, CNF, UNSD, each only if selected. |
| FwuHost.FormatRegionLayout | manage_fwu_eeprom.py:237-272 | Formatting one region writes 0xFF to exactly that region, sequentially from its start. |
| FwuHost.BlankLayout | manage_fwu_eeprom.py:228-232 | A blank image whose size is a multiple of 16 is uploaded in full and sequentially. |
| FwuHost.UpdateConfig | manage_fwu_eeprom.py:280-327 | A configuration update is at most one write, of the LSB byte and the setting byte. |
| FwuHost.ConfigEncoding | manage_fwu_eeprom.py:284-316 | ENABLE is 0xEE, DISABLE 0xDD and UNKNOWN 0x00 for the mode and backup options, and slots '1' and '2' are 0x01 and 0x02. Each goes to register 0xF0 with its LSB byte. |
| FwuHost.ConfigRoundTrip | manage_fwu_eeprom.py:280-327 | An unknown option writes nothing. A write happens iff both option and value are known. It goes to the option's address, carries exactly the setting byte, and decodes back to the value given. |

## Left out

- `serial_setup` and `print_string` (UART set-up and the byte-by-byte transmit) are left out. They are register writes with no logic to state. `print_number` is modelled as returning the characters it would print.
- The busy waits are not timed.
  - A TWI wait consumes one response from the hardware oracle. The oracle always completes every operation except `i2c_lite_read`'s bounded poll.
  - An SPM wait (`boot_spm_busy_wait`) consumes no response. It is only logged and changes nothing else.
- The avr-libc `boot_*` macros and `pgm_read_byte` are modelled by their effect on an abstract flash and an operation log, not by their SPM instruction sequences. Interrupts and the RWW section lock during the commit are not modelled.
- The temporary page buffer's automatic erase after a commit is not modelled. Every write fills all 64 words before committing, so nothing observable depends on it.
- `itoa` bases above 36 are not modelled: they would index past 'z'. The model requires 2 ≤ base ≤ 36.
- SerialLite.NoMinusSign: holds only for num ≥ 0. For negative numbers `itoa` emits characters below '0', as written; `SerialLite.NegativeExamples` shows two.
- FwuHost.UpdateConfig: a known option with an unknown value is modelled as a failed write. Python would call `write_i2c_block_data` with `None` in the list, which the bus library rejects and the `except` branch reports.
- Host I/O is outside the model: the smbus connection, Intel HEX parsing (`hex_to_list`), the hex dump files, `time.sleep`, progress printing and command-line parsing. `dump_firmware_region`'s choice of region is modelled only through `DumpHardware`'s start address.
- Exceptions from the bus during uploads and formatting are not modelled. The bus is assumed to accept every write, so the early `return` after a failed region in `format_eeprom` never applies.
- The EEPROM device's own storage is modelled only for reads, in `DumpHardware`: a 64 KiB byte sequence whose address pointer rolls over.
- EepromPage.AddressExamples: the recombination of the two address bytes into the 16-bit address on the bootloader side is shown for sample pages only. For every address it is proved on the host side, in `FwuHost.AddressSplit`.
