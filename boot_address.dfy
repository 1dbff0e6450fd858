/**
 * The address helpers and constants that tests/unit/test_bootloader.c checks: where
 * the kernel is loaded, how large it may be, which physical addresses are usable, and
 * rounding an address up to a 4 KiB page in 64-bit arithmetic.
 */
module BootAddress {
  const KernelLoadAddress: bv64 := 0x10_0000
  const MaxKernelSize: bv64 := 0x100_0000
  const PageMask: bv64 := 0xFFF

  /** At least 1 MiB, below 4 GiB. */
  predicate IsValidMemoryAddress(address: bv64): (ok: bool)
    ensures ok ==> KernelLoadAddress <= address && address >> 32 == 0
  {
    if address < 0x10_0000 then false
    else if address >= 0x1_0000_0000 then false
    else true
  }

  /** `(address + 0xFFF) & ~0xFFF`, wrapping modulo 2^64. */
  function AlignToPage(address: bv64): (r: bv64)
    ensures r & PageMask == 0
    ensures address & PageMask == 0 ==> r == address
  {
    (address + PageMask) & !PageMask
  }

  /** The result is always page aligned, an aligned address is kept, and aligning
      twice is aligning once. */
  lemma AlignedAndIdempotent(address: bv64)
    ensures AlignToPage(address) & PageMask == 0
    ensures address & PageMask == 0 ==> AlignToPage(address) == address
    ensures AlignToPage(AlignToPage(address)) == AlignToPage(address)
  {
  }

  /** Without overflow, the result is the least page boundary at or above the address. */
  lemma AlignRoundsUp(address: bv64)
    requires address <= 0xFFFF_FFFF_FFFF_F000
    ensures address <= AlignToPage(address) && AlignToPage(address) - address < 0x1000
  {
  }

  /** Addresses in the last partial page wrap to 0. */
  lemma AlignWrapsAtTop(address: bv64)
    requires address > 0xFFFF_FFFF_FFFF_F000
    ensures AlignToPage(address) == 0
  {
  }

  /** The accepted addresses are exactly 0x100000 .. 0xFFFFFFFF. */
  lemma ValidRange(address: bv64)
    ensures IsValidMemoryAddress(address) <==> 0x10_0000 <= address < 0x1_0000_0000
  {
  }

  /** The kernel image fits between 1 MiB and 100 MiB and its range does not wrap. */
  lemma KernelRange()
    ensures KernelLoadAddress >= 0x10_0000
    ensures 0x10_0000 <= MaxKernelSize <= 0x640_0000
    ensures KernelLoadAddress + MaxKernelSize > KernelLoadAddress
    ensures IsValidMemoryAddress(KernelLoadAddress) && IsValidMemoryAddress(KernelLoadAddress + MaxKernelSize)
  {
  }

  lemma Examples()
    ensures IsValidMemoryAddress(0x10_0000) && IsValidMemoryAddress(0x20_0000)
    ensures IsValidMemoryAddress(0x100_0000) && IsValidMemoryAddress(0x8000_0000)
    ensures !IsValidMemoryAddress(0) && !IsValidMemoryAddress(0x7C00) && !IsValidMemoryAddress(0x1_0000)
    ensures !IsValidMemoryAddress(0xF_FFFF) && !IsValidMemoryAddress(0x1_0000_0000)
    ensures AlignToPage(0x10_0000) == 0x10_0000 && AlignToPage(0x10_0001) == 0x10_1000
    ensures AlignToPage(0x10_0FFF) == 0x10_1000 && AlignToPage(0x10_1000) == 0x10_1000
    ensures AlignToPage(0x10_1001) == 0x10_2000
  {
  }
}
