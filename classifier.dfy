/** The label `main` prints next to the BIOS checksum. */
module Classifier {
  import opened Words

  /** The checksums of the Game Boy Advance BIOS and of the Nintendo DS's
      GBA-mode BIOS. */
  const AgbChecksum: u32 := 0xBAAE187F
  const NtrChecksum: u32 := 0xBAAE1880

  /** The CPU name for a BIOS checksum: exact comparison with the two known
      values, AGB tested first, anything else unknown. */
  function CpuName(checksum: u32): (name: string)
    ensures name == "AGB" <==> checksum == AgbChecksum
    ensures name == "NTR" <==> checksum == NtrChecksum
    ensures name == "???" <==> checksum != AgbChecksum && checksum != NtrChecksum
  {
    if checksum == AgbChecksum then "AGB"
    else if checksum == NtrChecksum then "NTR"
    else "???"
  }
}
