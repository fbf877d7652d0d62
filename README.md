# GBA BIOS dumper — a Dafny model

`src/bios-dump.c` is a Game Boy Advance program. It copies the 16 KiB BIOS into a
buffer `out` and writes that buffer to cartridge SRAM, so the image can be read out
later. Before that it checks that SRAM can be written. It also prints a CPU name
derived from the BIOS's own checksum.

There are two builds:

- **Direct dump.** `dump` jumps straight into the BIOS copy core.
- **Black box** (`USE_BLACKBOX`). Timer 0 is started, with its interrupt enabled,
  just before the BIOS copy routine runs. Its handler, `bbTest`, patches stack words that point into `out` or
  into the scratch buffer `bbSource`. After each attempt, the word sum of `out` is
  compared with the BIOS checksum. There are at most eight attempts. After each
  mismatch the timer reload value `timing` is lowered by 0x10.

The model has one Dafny module per concern:

- `Words`: `u8`/`u32` as integer newtypes, with the C compiler's wrap-around
  written out as `Add` and `Sub` modulo 2^32. It also reads a byte buffer as
  little-endian words.
- `Layout`: the sizes and addresses the program is built against.
- `Checksum`: the word sum, as a specification function `WordSum` and as the
  accumulation loop `ComputeChecksum`.
- `StackPatch`: the per-word rewrite rule of `bbTest` (`PatchSlot`) and the scan
  loop `ScanStack`, which applies the rule in place to an array of stack words.
- `Classifier`: the AGB / NTR / ??? label.
- `Retry`: the retry loop as a pure state machine (`FailedAttempts`, `Calls`,
  `TimingAfter`). It also holds the timer control word `0xC00000 | timing`,
  with the bitwise OR written out (`BitOr`).
- `BiosDump`: the class `Device`. It holds the program's static state: `out`,
  `timing`, `REG_TM0CNT`, the top of the IWRAM stack and SRAM. Its methods are
  `bbTest`, `blackBox`, `dump`, the retry loop, the `USE_BLACKBOX` block that
  chooses between them (`Capture`), the SRAM probe, the SRAM copy and `main`
  (`Run`). The ghost function `Attempts` specifies the state after a number of
  passes of the retry loop. `PowerOnAndRun` runs `main` from a freshly started device.

Anything that depends on hardware timing or on firmware is an input:

- the SRAM read-back;
- `BiosCheckSum()`;
- the image `dump` copies;
- per attempt, the image the copy leaves in `out` and the stack contents the timer
  handler finds when it runs.

Behaviour of the code worth noting:

- The checksum is a plain wrapping sum of the words of `out`, so word order does
  not change it. `WordSumPermutation` proves that every permutation of the words
  gives the same sum.
- A failed SRAM probe makes `main` return 1 at once. Nothing is dumped or saved on
  that path.
- `bbSource` is never written by the program. It stays the zeroed static array.
- An interior pointer into `out` is rewritten to `out` itself, so its offset is
  lost. The `out`-end pointer is written back with the value it already holds.
- The four tests in `bbTest` are separate `if`s, not an `else if` chain, and all
  of them test the value as it was read. A word that hits both ranges therefore
  ends with the `bbSource` rewrite. `PatchSlot` keeps this order.
  `GbaLayoutSeparated` shows that with `out` in IWRAM and `bbSource` in EWRAM no
  word can hit both.
- Timer 0 is started with its interrupt enabled, and only `bbTest` stops it. So
  in every attempt the handler runs once: `REG_TM0CNT` ends at 0 and the stack
  window is patched as that attempt's interrupted code left it.
- Under that layout `out`, 0 and `sizeof(out)` hit neither range. The fourth value
  `bbTest` writes, `out + sizeof(out)`, is a dest-end hit that the rule writes back
  unchanged. So a scan applied to its own result changes nothing
  (`PatchWindowIdempotent`).

## Model

| member | source | states |
|---|---|---|
| `Words.AddSubModular` | src/bios-dump.c:39-40 | `Add` and `Sub`, the `u32` `+` and `-` of lines 39-40 and 100, are the exact sum and difference reduced modulo 2^32. |
| `Words.SubIsInverse` | src/bios-dump.c:39-40 | The unsigned delta `val - base` wraps modulo 2^32. Adding it back to `base` gives `val`. It is 0 exactly when `val == base`. |
| `Words.LeWordOfBytes` | src/bios-dump.c:100 | Assembling the four stored bytes of a word, little-endian, gives the word back. |
| `Words.LeBytesOfWord` | src/bios-dump.c:100 | The word read from four bytes stores back as the same four bytes, lowest address least significant. |
| `Words.WordsOfBytes` | src/bios-dump.c:99-100 | Word c of the byte buffer read through `u32*` occupies exactly bytes 4c..4c+3. |
| `Checksum.WordSumExact` | src/bios-dump.c:97-101 | `WordSum`, the `checksum2 +=` accumulation, equals the exact sum of the words reduced modulo 2^32: no carry out of bit 31 is kept. |
| `Checksum.ImageChecksumExact` | src/bios-dump.c:97-101 | `ImageChecksum` of an image is the exact sum of its 32-bit little-endian words reduced modulo 2^32. |
| `Checksum.WordSumAppend` | src/bios-dump.c:97-101 | The sum of a concatenation is the wrapping sum of the two parts' sums. |
| `Checksum.WordSumRemove` | src/bios-dump.c:97-101 | Removing word j from the sequence removes exactly that word from the sum. |
| `Checksum.WordSumPermutation` | src/bios-dump.c:97-101 | Two word sequences with the same multiset have the same checksum, so word order does not matter. |
| `Checksum.ComputeChecksum` | src/bios-dump.c:97-101 | The loop's result is `ImageChecksum` of the buffer: the sum modulo 2^32 of its 0x1000 little-endian words. |
| `Classifier.CpuName` | src/bios-dump.c:88-90 | "AGB" exactly when the checksum is 0xBAAE187F. "NTR" exactly when it is 0xBAAE1880. "???" exactly when it is neither. |
| `StackPatch.PatchSlot` | src/bios-dump.c:38-60 | The rewrite of one stack word: the four tests in source order, each on the value as read, a later matching test overriding an earlier one. The result is always the word itself, `out`, 0 or 0x4000. |
| `StackPatch.PatchDestInterior` | src/bios-dump.c:40-45 | A word `out + k` with 0 < k < 0x4000, and not also a `bbSource` hit, becomes `out`. The offset is lost. |
| `StackPatch.PatchDestEnd` | src/bios-dump.c:46-50 | A word equal to `out + 0x4000`, and not also a `bbSource` hit, keeps its value. |
| `StackPatch.PatchSourceInterior` | src/bios-dump.c:51-55 | A word `bbSource + k` with 0 < k < 0x4000 becomes 0, whatever else it matches. |
| `StackPatch.PatchSourceEnd` | src/bios-dump.c:56-60 | A word equal to `bbSource + 0x4000` becomes 0x4000 (`sizeof(out)`), whatever else it matches. |
| `StackPatch.PatchMiss` | src/bios-dump.c:38-60 | A word hitting neither range keeps its value. This covers a delta of 0, a value below a base (its delta wraps) and a value beyond an end. |
| `StackPatch.PatchChanges` | src/bios-dump.c:38-60 | A word that changes was a hit. Its new value is `out`, 0 or 0x4000. |
| `StackPatch.SeparatedExclusive` | src/bios-dump.c:41-59 | When the ranges are at least 0x4000 apart both ways, no word hits both, so the order of the tests does not matter. |
| `StackPatch.GbaLayoutSeparated` | src/bios-dump.c:10-27 | With `out` in IWRAM and `bbSource` in EWRAM, the two ranges are separated. |
| `StackPatch.PatchSlotIdempotent` | src/bios-dump.c:38-60 | Under that layout, rewriting an already rewritten word changes nothing. |
| `StackPatch.PatchWindowIdempotent` | src/bios-dump.c:34-61 | Under that layout, a second scan of the stack leaves it as the first scan left it. |
| `StackPatch.ScanStack` | src/bios-dump.c:34-61 | Every word of the 56-word window 0x3007F00..0x3007FE0 becomes `PatchSlot` of its value as read. Every other word of the memory is unchanged. |
| `Retry.FailedAttempts` | src/bios-dump.c:94-110 | The number of attempts before the first checksum match: every earlier attempt mismatched, and the attempt at that index matched unless all failed. |
| `Retry.MatchedIffFound` | src/bios-dump.c:94-110 | Fewer than all attempts fail exactly when the reference checksum occurs among the attempts' checksums. |
| `Retry.FailedAttemptsFirst` | src/bios-dump.c:103-109 | When attempt i is the first match, the failure count is i, so the loop stops right after it. |
| `Retry.FailedAttemptsNone` | src/bios-dump.c:94-107 | When no attempt matches, all of them count as failures. |
| `Retry.Calls` | src/bios-dump.c:94-95 | The loop calls `blackBox` between 1 and 8 times. |
| `Retry.FinalAttemptMatches` | src/bios-dump.c:94-110 | The capture the loop ends with passes the checksum exactly when some attempt matched. |
| `Retry.TimingAfter` | src/bios-dump.c:106 | After up to 8 decrements of 0x10 from 0xFF00, `timing` stays within 0xFE80..0xFF00, a 16-bit reload value. |
| `Retry.TimingsFromPowerOn` | src/bios-dump.c:94-106 | From power-on, attempt j arms the timer with the `timing` left by j decrements, that is `TimingAfter(j)`. |
| `Retry.BitOrDisjoint` | src/bios-dump.c:70 | OR-ing a value whose low k bits are clear with a value below 2^k is their sum. |
| `Retry.ControlBitsDisjoint` | src/bios-dump.c:70 | For a 16-bit value, OR-ing it with 0xC00000 adds 0xC00000 to it. |
| `Retry.TimerControl` | src/bios-dump.c:70 | `REG_TM0CNT` is `0xC00000` OR `timing`, with `timing` converted to the register's 32 bits. For a 16-bit `timing` the control word is `0xC00000 + timing`. |
| `Retry.TimerControlFields` | src/bios-dump.c:70 | For a 16-bit `timing`, `0xC00000` OR `timing` is below 2^24. Its low half is `timing` and its high half is 0xC0. |
| `Retry.ArmedWordsFit` | src/bios-dump.c:70 | The control word every attempt arms the timer with fits in 24 bits and holds that attempt's `timing` in its low half. |
| `Retry.ArmedLogFits` | src/bios-dump.c:70 | The same for each entry of the log of armed `timing` values from power-on. |
| `Retry.ControlWordsNext` | src/bios-dump.c:70 | One more attempt appends its control word, built from a `timing` 0x10 lower per earlier attempt, to the list of words written. |
| `Retry.WrittenWordsFit` | src/bios-dump.c:70 | From power-on, the word attempt j writes to `REG_TM0CNT` is below 2^24 and holds `TimingAfter(j)` in its reload half. |
| `BiosDump.CaptureSumsAt` | src/bios-dump.c:97-101 | Entry j of the captures' checksums is the checksum of capture j. |
| `BiosDump.FinalCaptureVerified` | src/bios-dump.c:94-117 | The capture the loop leaves in `out` passes the checksum exactly when one of the eight captures does. |
| `BiosDump.Device.constructor` | src/bios-dump.c:10-29 | Start-up state: `out` is all zeros, `timing` is 0xFF00, `REG_TM0CNT` is 0, and the stack and SRAM are as given. |
| `BiosDump.Device.BbTest` | src/bios-dump.c:31-62 | The handler clears `REG_TM0CNT`. It rewrites exactly the scanned window of the stack and leaves the rest unchanged. |
| `BiosDump.Device.ArmTimer` | src/bios-dump.c:70 | `REG_TM0CNT` receives `0xC00000` OR `timing`, which is `0xC00000 + timing` for a 16-bit `timing`. The armed `timing` and the word written are logged. |
| `BiosDump.Device.BlackBox` | src/bios-dump.c:31-72 | The call writes `0xC00000` OR `timing` to `REG_TM0CNT` (the log of written words grows by that word) and logs that `timing`. The handler then runs once: `REG_TM0CNT` ends at 0, and the stack is the given frame as `bbTest` patches it. `out` ends as the captured image. |
| `BiosDump.Device.Attempt` | src/bios-dump.c:95-109 | One pass of the loop body. It reports a match exactly when the capture's word sum equals the BIOS checksum. The new state is `AttemptEffect` of the old one: `timing` drops by 0x10 exactly on a mismatch; `REG_TM0CNT`, the stack and `out` are what `blackBox` left; the armed `timing` and the control word written are logged. |
| `BiosDump.Device.AttemptsLog` | src/bios-dump.c:94-107 | After n passes that all but possibly the last mismatched, the log holds the n successive timings, each 0x10 below the one before, and the log of written words holds their n control words. |
| `BiosDump.Device.AttemptsFinal` | src/bios-dump.c:31-109 | After n such passes, `timing` has dropped by 0x10 once per mismatch. `REG_TM0CNT` is 0, the stack is the last pass's frame as `bbTest` patches it, and `out` holds the last capture. |
| `BiosDump.Device.RetryOutcome` | src/bios-dump.c:94-110 | The state after the loop in closed form. With `failed` the failure count, `timing` has dropped by 0x10 per failure and `out` holds the last capture. The logs hold the timings of all `Calls(failed)` passes and the control words they wrote to `REG_TM0CNT`. `REG_TM0CNT` is 0, and the stack is the last pass's frame as `bbTest` patches it. |
| `BiosDump.Device.Dump` | src/bios-dump.c:12-24 | `out` ends equal to the BIOS image. |
| `BiosDump.Device.RetryDump` | src/bios-dump.c:94-110 | The loop stops at the first capture that passes the checksum, so the failure count is `FailedAttempts` of the captures' checksums. The final state is that of `Calls(failed)` successive passes, with the closed form `RetryOutcome` gives. |
| `BiosDump.Device.Capture` | src/bios-dump.c:92-113 | The `USE_BLACKBOX` block. Without it, only `out` changes, to the BIOS image. With it, `timing`, `out`, both logs, the stack and `REG_TM0CNT` end as `RetryOutcome` states. |
| `BiosDump.ProbedPrefix` | src/bios-dump.c:81-85 | After the probe alone, the first 16 KiB of SRAM are the read-back byte followed by what SRAM held before. |
| `BiosDump.Device.ProbeSram` | src/bios-dump.c:81-85 | Writes to SRAM byte 0, which then holds the read-back value, and leaves the rest of SRAM as it was. Succeeds exactly when the read-back is 0x55. |
| `BiosDump.Device.CopyToSram` | src/bios-dump.c:115-117 | The first 0x4000 bytes of SRAM equal `out`. The rest of SRAM and `out` are unchanged. |
| `BiosDump.Device.Run` | src/bios-dump.c:75-123 | On a bad read-back, `main` fails before any dump, checksum or copy. `timing`, `REG_TM0CNT`, the stack and `out` are unchanged, and only SRAM byte 0 has been written. Otherwise it reports `CpuName` of the BIOS checksum, runs the selected build and saves `out` to SRAM. The direct build changes only `out`. The black box build ends in the state of `Calls(failed)` passes. |
| `BiosDump.PowerOnAndRun` | src/bios-dump.c:75-123 | From power-on, on a bad read-back the saved bytes are the read-back followed by the old SRAM contents. Otherwise the saved image is the BIOS image (direct build) or the last capture (black box build). The final `timing` is `0xFF00 - 0x10 * failures`. The saved image passes the checksum exactly when some attempt matched. |

## Left out

- `include/Sha256.h` declares a SHA-256 state and three prototypes but contains no implementation, and the program does not call them. No digest is modelled.
- Interrupt plumbing (`irqInit`, `irqSet`, `REG_IE`, `REG_IME`) is left out. The model takes the handler to run exactly once per attempt, since only `bbTest` stops the timer and disables its interrupt.
- BlackBox: the stack contents the handler scans (`frame`) are an input per attempt, because they are the registers and locals of whatever code the interrupt stopped. When in the pass the handler runs, and how its rewrite of those saved words steers the interrupted copy or checksum loop, is not modelled. Their effect is in the captured image, which is also an input.
- `CpuFastSet(bbSource, out, ...)` in `blackBox` is not modelled. The image it leaves in `out` is an input per attempt, because it depends on that interrupt timing.
- The assembly in `dump` (the jump to the BIOS copy core at 0xC14) is not modelled. The image it copies is an input.
- `BiosCheckSum()` is a firmware call. Its result is an input.
- `consoleDemoInit`, every `printf`, the `savetype` string check and the final `VBlankIntrWait` idle loop are console I/O and are not modelled. `Run` returns the name that `main` prints.
- In the hardware, `out` and the stack share IWRAM. The model keeps them as separate arrays and does not model a stack word that aliases `out`.
- The stack array covers only 0x3007E00..0x3008000.
- `BlackBox` and `Dump` fill `out` in one step. The order in which the copy core writes the words is not modelled.
- `timing` is an unbounded integer in the model. The C `int` cannot overflow within eight decrements of 0x10 from 0xFF00.
- The model places `out` in IWRAM and `bbSource` in EWRAM, as `IWRAM_DATA` and `EWRAM_DATA` declare (`GbaLayout`, required by `Device.constructor`). Link addresses outside those regions are not modelled.
- The SRAM probe's read-back is taken to be what SRAM byte 0 holds after the write. A bus that returns a value other than the one stored is not modelled.
