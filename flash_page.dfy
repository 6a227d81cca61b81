/**
 * Copying one page between a RAM buffer and the microcontroller's own flash
 * (self-programming through SPM). The vendor primitives — page erase, fill of
 * the temporary page buffer, page write, busy wait, re-enabling the
 * read-while-write section, and byte reads of program memory — are modelled
 * as operations on an abstract flash: its bytes, the temporary page buffer of
 * 16-bit words, and a log of the primitives issued.
 */
module FlashPage {
  import opened Platform

  /** The 32 KiB of ATmega328P flash; address bits above it are ignored by SPM and LPM. */
  const FLASH_BYTES: nat := 0x8000
  /** Words in the temporary page buffer. */
  const PAGE_WORDS: nat := SPM_PAGESIZE / 2

  datatype SpmOp =
    | Erase(address: nat)
    | Fill(address: nat, word: bv16)
    | Commit(address: nat)
    | BusyWait
    | RwwEnable

  /** A page of erased flash. */
  const ERASED_PAGE: seq<bv8> := seq(SPM_PAGESIZE, _ => 0xFF)

  /** The flash byte a 16-bit program-memory address selects. */
  function FlashAddress(address: nat): nat
  {
    address % FLASH_BYTES
  }

  /** Where in flash the page `page_number` lies. */
  function FlashBase(pageNumber: nat): nat
  {
    FlashAddress(MemoryAddress(pageNumber))
  }

  /** The first byte of the page holding `address`. */
  function PageStart(address: nat): nat
  {
    address - address % SPM_PAGESIZE
  }

  /** `buf[i] | (buf[i + 1] << 8)`: two bytes packed little-endian into a word. */
  function Word(lo: bv8, hi: bv8): bv16
  {
    lo as bv16 | (hi as bv16 << 8)
  }

  /** The low and high bytes of a word. */
  function Lo(w: bv16): bv8 { (w & 0xFF) as bv8 }
  function Hi(w: bv16): bv8 { (w >> 8) as bv8 }

  /** The words the fill loop computes from a page of bytes. */
  function Pack(data: seq<bv8>): (ws: seq<bv16>)
    requires |data| == SPM_PAGESIZE
    ensures |ws| == PAGE_WORDS
  {
    seq(PAGE_WORDS, j requires 0 <= j < PAGE_WORDS => Word(data[2 * j], data[2 * j + 1]))
  }

  /** The bytes a page write stores from the temporary buffer, low byte first. */
  function Unpack(ws: seq<bv16>): (data: seq<bv8>)
    requires |ws| == PAGE_WORDS
    ensures |data| == SPM_PAGESIZE
  {
    seq(SPM_PAGESIZE, k requires 0 <= k < SPM_PAGESIZE => if k % 2 == 0 then Lo(ws[k / 2]) else Hi(ws[k / 2]))
  }

  /** `mem` with the page at `base` replaced by `page`. */
  function Splice(mem: seq<bv8>, base: nat, page: seq<bv8>): seq<bv8>
    requires base + |page| <= |mem|
  {
    mem[..base] + page + mem[base + |page|..]
  }

  /**
   * Programming a page: flash cells can only be cleared, so each byte of the
   * page keeps the bits it has in common with the new byte.
   */
  function Program(mem: seq<bv8>, base: nat, page: seq<bv8>): seq<bv8>
    requires base + |page| <= |mem|
  {
    mem[..base] + seq(|page|, i requires 0 <= i < |page| => mem[base + i] & page[i]) + mem[base + |page|..]
  }

  /** The fills `write_to_flash_memory_page` issues for its first `n` words. */
  function Fills(base: nat, data: seq<bv8>, n: nat): seq<SpmOp>
    requires |data| == SPM_PAGESIZE && n <= PAGE_WORDS
  {
    if n == 0 then [] else Fills(base, data, n - 1) + [Fill(base + 2 * (n - 1), Word(data[2 * (n - 1)], data[2 * (n - 1) + 1]))]
  }

  /** The whole sequence of primitives `write_to_flash_memory_page` issues. */
  function WriteOps(base: nat, data: seq<bv8>): seq<SpmOp>
    requires |data| == SPM_PAGESIZE
  {
    [Erase(base), BusyWait] + Fills(base, data, PAGE_WORDS) + [Commit(base), BusyWait, RwwEnable]
  }

  class Flash {
    var mem: seq<bv8>
    var temp: seq<bv16>
    var ops: seq<SpmOp>

    predicate Valid()
      reads this
    {
      |mem| == FLASH_BYTES && |temp| == PAGE_WORDS
    }

    constructor(image: seq<bv8>)
      requires |image| == FLASH_BYTES
      ensures Valid() && mem == image && ops == []
      ensures temp == seq(PAGE_WORDS, _ => 0xFFFF)
    {
      mem := image;
      temp := seq(PAGE_WORDS, _ => 0xFFFF);
      ops := [];
    }

    /** boot_page_erase: every byte of the page holding `address` becomes 0xFF. */
    method PageErase(address: nat)
      requires Valid()
      modifies this`mem, this`ops
      ensures Valid() && PageStart(FlashAddress(address)) + SPM_PAGESIZE <= FLASH_BYTES
      ensures mem == Splice(old(mem), PageStart(FlashAddress(address)), ERASED_PAGE)
      ensures ops == old(ops) + [Erase(address)]
    {
      PageInFlash(address);
      mem := Splice(mem, PageStart(FlashAddress(address)), ERASED_PAGE);
      ops := ops + [Erase(address)];
    }

    /** boot_page_fill: the word selected by the in-page offset of `address` is loaded. */
    method PageFill(address: nat, word: bv16)
      requires Valid()
      modifies this`temp, this`ops
      ensures Valid()
      ensures temp == old(temp)[(address % SPM_PAGESIZE) / 2 := word]
      ensures ops == old(ops) + [Fill(address, word)]
    {
      temp := temp[(address % SPM_PAGESIZE) / 2 := word];
      ops := ops + [Fill(address, word)];
    }

    /** boot_page_write: the temporary buffer is programmed into the page holding `address`. */
    method PageWrite(address: nat)
      requires Valid()
      modifies this`mem, this`ops
      ensures Valid() && PageStart(FlashAddress(address)) + SPM_PAGESIZE <= FLASH_BYTES
      ensures mem == Program(old(mem), PageStart(FlashAddress(address)), Unpack(temp))
      ensures ops == old(ops) + [Commit(address)]
    {
      PageInFlash(address);
      mem := Program(mem, PageStart(FlashAddress(address)), Unpack(temp));
      ops := ops + [Commit(address)];
    }

    /** boot_spm_busy_wait */
    method SpmBusyWait()
      modifies this`ops
      ensures ops == old(ops) + [BusyWait]
    {
      ops := ops + [BusyWait];
    }

    /** boot_rww_enable */
    method RwwEnableSection()
      modifies this`ops
      ensures ops == old(ops) + [RwwEnable]
    {
      ops := ops + [RwwEnable];
    }

    /** pgm_read_byte: the flash byte the address selects; nothing changes. */
    method ReadByte(address: nat) returns (b: bv8)
      requires Valid()
      ensures b == mem[FlashAddress(address)]
    {
      b := mem[address % FLASH_BYTES];
    }

    /**
     * write_to_flash_memory_page: erase, wait, 64 little-endian fills, page
     * write, wait, re-enable. Because the page was erased first, it then holds
     * the buffer's 128 bytes; no other byte of flash changes, and the buffer
     * is only read.
     */
    method WritePage(pageBuffer: array<bv8>, pageNumber: nat)
      requires Valid() && pageNumber < 0x1_0000 && pageBuffer.Length >= SPM_PAGESIZE
      modifies this`mem, this`temp, this`ops
      ensures Valid() && FlashBase(pageNumber) + SPM_PAGESIZE <= FLASH_BYTES
      ensures ops == old(ops) + WriteOps(MemoryAddress(pageNumber), pageBuffer[..SPM_PAGESIZE])
      ensures mem == Splice(old(mem), FlashBase(pageNumber), pageBuffer[..SPM_PAGESIZE])
      ensures temp == Pack(pageBuffer[..SPM_PAGESIZE])
    {
      var base := MemoryAddress(pageNumber);
      ghost var data := pageBuffer[..SPM_PAGESIZE];
      AlignedInFlash(base);
      PageErase(base);
      SpmBusyWait();
      FillTemp(pageBuffer, base);
      PageWrite(base);
      SpmBusyWait();
      RwwEnableSection();
      UnpackPack(data);
      ErasedThenProgrammed(old(mem), FlashBase(pageNumber), data);
      WriteOpsLog(old(ops), base, data);
    }

    /** The fill loop of write_to_flash_memory_page: word `j` of the temporary buffer packs bytes `2j` and `2j + 1`. */
    method FillTemp(pageBuffer: array<bv8>, base: nat)
      requires Valid() && pageBuffer.Length >= SPM_PAGESIZE && base % SPM_PAGESIZE == 0
      modifies this`temp, this`ops
      ensures Valid()
      ensures temp == Pack(pageBuffer[..SPM_PAGESIZE])
      ensures ops == old(ops) + Fills(base, pageBuffer[..SPM_PAGESIZE], PAGE_WORDS)
    {
      ghost var data := pageBuffer[..SPM_PAGESIZE];
      ghost var j := 0;
      var i := 0;
      while i < SPM_PAGESIZE
        invariant 0 <= i <= SPM_PAGESIZE && i == 2 * j
        invariant Valid()
        invariant forall k :: 0 <= k < j ==> temp[k] == Word(data[2 * k], data[2 * k + 1])
        invariant ops == old(ops) + Fills(base, data, j)
      {
        var word := Word(pageBuffer[i], pageBuffer[i + 1]);
        assert word == Word(data[2 * j], data[2 * j + 1]);
        FillTargets(base, j);
        PageFill(base + i, word);
        i := i + 2;
        j := j + 1;
      }
      assert temp == Pack(data);
    }

    /** read_from_flash_memory_page: the buffer's first 128 bytes become the page; flash is unchanged. */
    method ReadPage(pageBuffer: array<bv8>, pageNumber: nat)
      requires Valid() && pageNumber < 0x1_0000 && pageBuffer.Length >= SPM_PAGESIZE
      modifies pageBuffer
      ensures FlashBase(pageNumber) + SPM_PAGESIZE <= FLASH_BYTES
      ensures pageBuffer[..SPM_PAGESIZE] == mem[FlashBase(pageNumber)..FlashBase(pageNumber) + SPM_PAGESIZE]
      ensures pageBuffer[SPM_PAGESIZE..] == old(pageBuffer[SPM_PAGESIZE..])
    {
      var address := MemoryAddress(pageNumber);
      ghost var base := FlashBase(pageNumber);
      AlignedInFlash(address);
      var i := 0;
      while i < SPM_PAGESIZE
        invariant 0 <= i <= SPM_PAGESIZE
        invariant forall j :: 0 <= j < i ==> pageBuffer[j] == mem[base + j]
        invariant pageBuffer[SPM_PAGESIZE..] == old(pageBuffer[SPM_PAGESIZE..])
      {
        FlashOffset(address, i);
        var b := ReadByte(address + i);
        pageBuffer[i] := b;
        i := i + 1;
      }
      assert pageBuffer[..SPM_PAGESIZE] == mem[base..base + SPM_PAGESIZE];
    }
  }

  /** Writing a page and reading it back yields the bytes written. */
  method WriteThenRead(flash: Flash, source: array<bv8>, target: array<bv8>, pageNumber: nat)
    requires flash.Valid() && pageNumber < 0x1_0000
    requires source.Length >= SPM_PAGESIZE && target.Length >= SPM_PAGESIZE && source != target
    modifies flash, target
    ensures target[..SPM_PAGESIZE] == source[..SPM_PAGESIZE]
  {
    flash.WritePage(source, pageNumber);
    flash.ReadPage(target, pageNumber);
    SplicedPage(old(flash.mem), FlashBase(pageNumber), source[..SPM_PAGESIZE]);
  }

  /** The log of a page write, regrouped as the method appends it. */
  lemma WriteOpsLog(log: seq<SpmOp>, base: nat, data: seq<bv8>)
    requires |data| == SPM_PAGESIZE
    ensures log + [Erase(base)] + [BusyWait] + Fills(base, data, PAGE_WORDS) + [Commit(base)] + [BusyWait] + [RwwEnable]
            == log + WriteOps(base, data)
  {
  }

  // ---------------------------------------------------------------------------
  // Properties

  /** Little-endian packing: the low byte of a packed word is the first byte, the high byte the second. */
  lemma WordBytes(lo: bv8, hi: bv8)
    ensures Lo(Word(lo, hi)) == lo && Hi(Word(lo, hi)) == hi
  {
  }

  /** A page write of the packed words stores exactly the bytes they were packed from. */
  lemma UnpackPack(data: seq<bv8>)
    requires |data| == SPM_PAGESIZE
    ensures Unpack(Pack(data)) == data
  {
    forall k | 0 <= k < SPM_PAGESIZE
      ensures Unpack(Pack(data))[k] == data[k]
    {
      var j := k / 2;
      WordBytes(data[2 * j], data[2 * j + 1]);
    }
  }

  /** The spliced page is what is found at its place, and every byte outside it is unchanged. */
  lemma SplicedPage(mem: seq<bv8>, base: nat, page: seq<bv8>)
    requires base + |page| <= |mem|
    ensures |Splice(mem, base, page)| == |mem|
    ensures Splice(mem, base, page)[base..base + |page|] == page
    ensures forall a :: 0 <= a < |mem| && !(base <= a < base + |page|) ==> Splice(mem, base, page)[a] == mem[a]
  {
    var s := Splice(mem, base, page);
    assert s[base..base + |page|] == page;
  }

  /** Programming an erased page stores exactly the new bytes. */
  lemma ErasedThenProgrammed(mem: seq<bv8>, base: nat, page: seq<bv8>)
    requires |page| == SPM_PAGESIZE && base + SPM_PAGESIZE <= |mem|
    ensures Program(Splice(mem, base, ERASED_PAGE), base, page) == Splice(mem, base, page)
  {
    var erased := Splice(mem, base, ERASED_PAGE);
    var lhs := Program(erased, base, page);
    var rhs := Splice(mem, base, page);
    assert |lhs| == |rhs|;
    forall a | 0 <= a < |lhs|
      ensures lhs[a] == rhs[a]
    {
      if base <= a < base + SPM_PAGESIZE {
        assert erased[a] == ERASED_PAGE[a - base] == 0xFF;
        assert lhs[a] == erased[a] & page[a - base];
      }
    }
  }

  /** Programming never sets a bit, and leaves every byte outside the page as it was. */
  lemma ProgramOnlyClears(mem: seq<bv8>, base: nat, page: seq<bv8>)
    requires base + |page| <= |mem|
    ensures |Program(mem, base, page)| == |mem|
    ensures forall a :: 0 <= a < |mem| ==> Program(mem, base, page)[a] & mem[a] == Program(mem, base, page)[a]
    ensures forall a :: 0 <= a < |mem| && !(base <= a < base + |page|) ==> Program(mem, base, page)[a] == mem[a]
  {
    var p := Program(mem, base, page);
    forall a | 0 <= a < |mem|
      ensures p[a] & mem[a] == p[a]
    {
      if base <= a < base + |page| {
        assert p[a] == mem[a] & page[a - base];
      }
    }
  }

  /** Without the erase, a page byte that has a bit cleared which the new byte needs set does not take the new byte. */
  lemma UnerasedPageDiffers(mem: seq<bv8>, base: nat, page: seq<bv8>, i: nat)
    requires base + |page| <= |mem| && i < |page| && mem[base + i] & page[i] != page[i]
    ensures Program(mem, base, page)[base + i] != page[i]
    ensures Program(mem, base, page) != Splice(mem, base, page)
  {
    assert Program(mem, base, page)[base + i] == mem[base + i] & page[i];
    assert Splice(mem, base, page)[base + i] == page[i];
  }

  /** Every page lies wholly inside flash. */
  lemma PageInFlash(address: nat)
    ensures PageStart(FlashAddress(address)) % SPM_PAGESIZE == 0
    ensures PageStart(FlashAddress(address)) + SPM_PAGESIZE <= FLASH_BYTES
  {
    var x := FlashAddress(address);
    assert x == SPM_PAGESIZE * (x / SPM_PAGESIZE) + x % SPM_PAGESIZE;
    assert x / SPM_PAGESIZE < FLASH_BYTES / SPM_PAGESIZE;
  }

  /** A page-aligned address selects a whole page of flash. */
  lemma AlignedInFlash(base: nat)
    requires base % SPM_PAGESIZE == 0
    ensures PageStart(FlashAddress(base)) == FlashAddress(base)
    ensures FlashAddress(base) + SPM_PAGESIZE <= FLASH_BYTES
  {
    var q := base / FLASH_BYTES;
    var x := FlashAddress(base);
    assert base == FLASH_BYTES * q + x;
    assert x % SPM_PAGESIZE == 0 by {
      assert FLASH_BYTES * q == SPM_PAGESIZE * (256 * q);
    }
    PageInFlash(base);
  }

  /** Byte `i` of a page-aligned address is byte `i` of its page in flash. */
  lemma FlashOffset(base: nat, i: nat)
    requires base % SPM_PAGESIZE == 0 && i < SPM_PAGESIZE
    ensures FlashAddress(base + i) == FlashAddress(base) + i
  {
    var q := base / FLASH_BYTES;
    var x := FlashAddress(base);
    assert base == FLASH_BYTES * q + x;
    AlignedInFlash(base);
    assert base + i == FLASH_BYTES * q + (x + i);
  }

  /** Flash is 32 KiB, so pages 256 apart share the same flash bytes. */
  lemma FlashPagesAlias(pageNumber: nat)
    ensures FlashBase(pageNumber + FLASH_BYTES / SPM_PAGESIZE) == FlashBase(pageNumber)
  {
    var a := MemoryAddress(pageNumber);
    var b := MemoryAddress(pageNumber + FLASH_BYTES / SPM_PAGESIZE);
    assert (pageNumber + 256) * 128 == pageNumber * 128 + FLASH_BYTES;
    assert b == (a + FLASH_BYTES) % 0x1_0000;
  }

  /** Fill `j` loads temporary word `j` from bytes `2j` and `2j + 1`, at increasing even addresses of the page. */
  lemma {:induction false} FillsShape(base: nat, data: seq<bv8>, n: nat)
    requires |data| == SPM_PAGESIZE && n <= PAGE_WORDS
    ensures |Fills(base, data, n)| == n
    ensures forall j :: 0 <= j < n ==> Fills(base, data, n)[j] == Fill(base + 2 * j, Word(data[2 * j], data[2 * j + 1]))
  {
    if n > 0 {
      FillsShape(base, data, n - 1);
    }
  }

  /** The fills address the page at `base`, each landing in the temporary word of its own index. */
  lemma FillTargets(base: nat, j: nat)
    requires base % SPM_PAGESIZE == 0 && j < PAGE_WORDS
    ensures PageStart(base + 2 * j) == base
    ensures ((base + 2 * j) % SPM_PAGESIZE) / 2 == j
  {
  }

  /**
   * The write is: erase then wait, before any fill; exactly 64 fills; then page
   * write, wait, and re-enable, in that order.
   */
  lemma WriteOpsOrder(base: nat, data: seq<bv8>)
    requires |data| == SPM_PAGESIZE
    ensures |WriteOps(base, data)| == PAGE_WORDS + 5
    ensures WriteOps(base, data)[..2] == [Erase(base), BusyWait]
    ensures WriteOps(base, data)[2..2 + PAGE_WORDS] == Fills(base, data, PAGE_WORDS)
    ensures WriteOps(base, data)[2 + PAGE_WORDS..] == [Commit(base), BusyWait, RwwEnable]
    ensures forall k :: 0 <= k < |WriteOps(base, data)| ==> (WriteOps(base, data)[k].Fill? <==> 2 <= k < 2 + PAGE_WORDS)
  {
    var fills := Fills(base, data, PAGE_WORDS);
    FillsShape(base, data, PAGE_WORDS);
    var ops := WriteOps(base, data);
    assert ops[2..2 + PAGE_WORDS] == fills;
    assert ops[2 + PAGE_WORDS..] == [Commit(base), BusyWait, RwwEnable];
  }
}
