/**
 * What the bootloader's two page stores share: the target's program-memory
 * page size and the byte address of a page, `page_number * SPM_PAGESIZE`,
 * computed in the 16-bit unsigned arithmetic of the AVR.
 */
module Platform {
  /** The program-memory page size of the target (ATmega328P), fixed at build time. */
  const SPM_PAGESIZE: nat := 128

  /** `page_number * SPM_PAGESIZE` in the 16-bit unsigned arithmetic of the target. */
  function MemoryAddress(pageNumber: nat): (a: nat)
    ensures a < 0x1_0000 && a % SPM_PAGESIZE == 0
    ensures pageNumber < 0x1_0000 / SPM_PAGESIZE ==> a == pageNumber * SPM_PAGESIZE
  {
    (pageNumber * SPM_PAGESIZE) % 0x1_0000
  }

  /** The product wraps at 16 bits: page numbers 512 apart address the same bytes. */
  lemma AddressWraps(pageNumber: nat)
    ensures MemoryAddress(pageNumber + 0x1_0000 / SPM_PAGESIZE) == MemoryAddress(pageNumber)
  {
  }
}
