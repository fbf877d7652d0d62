/** The fixed sizes and addresses of the GBA memory map that the dumper
    is built against. */
module Layout {
  import opened Words

  /** `sizeof(out)`: the BIOS image is 16 KiB. */
  const OutSize: u32 := 0x4000

  /** `bbSource` holds 0x1000 words, so `sizeof(bbSource)` is 0x4000 bytes. */
  const SourceWords: u32 := 0x1000
  const SourceSize: u32 := 4 * SourceWords

  /** The stack window that the timer handler scans: words from 0x3007F00 up
      to, but not including, 0x3007FE0 (56 words). */
  const ScanStart: u32 := 0x3007F00
  const ScanEnd: u32 := 0x3007FE0

  /** The stack memory the model keeps: the top 512 bytes of IWRAM,
      0x3007E00 .. 0x3008000, as 128 words. */
  const StackRegionBase: u32 := 0x3007E00
  const StackRegionWords: nat := 0x80

  /** Internal work RAM (where `out` and the stack live) and external work RAM
      (where `bbSource` lives). */
  const IwramStart: int := 0x3000000
  const IwramEnd: int := 0x3008000
  const EwramStart: int := 0x2000000
  const EwramEnd: int := 0x2040000

  /** Battery-backed cartridge SRAM ("SRAM_V123" save type): 32 KiB. */
  const SramSize: nat := 0x8000

  /** The byte written to SRAM and read back to check that it is writable. */
  const SramProbe: u8 := 0x55
}
