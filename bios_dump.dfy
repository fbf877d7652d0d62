/** The dumper program: its static state (the buffer `out`, the global
    `timing`, the timer register, the stack the timer handler scans, the
    cartridge SRAM) and `main` with both of its build variants. */
module BiosDump {
  import opened Words
  import opened Layout
  import opened Checksum
  import opened StackPatch
  import opened Classifier
  import opened Retry

  /** How `main` ends: returning 1 when SRAM cannot be written, otherwise idling
      forever after the dump with the CPU name it printed. */
  datatype Status = FatalSramError | Dumped(cpu: string)

  /** The part of the device state that the dump loop reads and writes:
      `timing`, REG_TM0CNT, the logs of armed `timing` values and of the
      control words written, the stack words and `out`. */
  datatype State = State(timing: int, tm0cnt: nat, armed: seq<int>, written: seq<nat>,
                         stack: seq<u32>, out: seq<u8>)

  /** Checksums of the images the successive attempts captured. */
  function CaptureSums(captures: seq<seq<u8>>): (sums: seq<u32>)
    ensures |sums| == |captures|
  {
    if captures == [] then []
    else CaptureSums(captures[..|captures| - 1]) + [ImageChecksum(captures[|captures| - 1])]
  }

  /** Entry j of `CaptureSums` is the checksum of capture j. */
  lemma {:induction false} CaptureSumsAt(captures: seq<seq<u8>>, j: nat)
    requires j < |captures|
    ensures CaptureSums(captures)[j] == ImageChecksum(captures[j])
  {
    var init := captures[..|captures| - 1];
    if j < |init| {
      CaptureSumsAt(init, j);
      assert init[j] == captures[j];
    }
  }

  /** The capture the retry loop ends with passes the checksum exactly when
      one of the eight captures does. */
  lemma FinalCaptureVerified(captures: seq<seq<u8>>, reference: u32)
    requires |captures| == MaxAttempts
    ensures var failed := FailedAttempts(CaptureSums(captures), reference);
      ImageChecksum(captures[Calls(failed) - 1]) == reference <==> reference in CaptureSums(captures)
  {
    var sums := CaptureSums(captures);
    FinalAttemptMatches(sums, reference);
    CaptureSumsAt(captures, Calls(FailedAttempts(sums, reference)) - 1);
  }

  class Device {
    /** `u8 out[0x4000]` in IWRAM, zero at start-up. */
    const out: array<u8>
    /** The cartridge SRAM at 0x0E000000. */
    const sram: array<u8>
    /** The IWRAM words from StackRegionBase up to the end of IWRAM. */
    const stack: array<u32>
    /** The link-time addresses of `out` and of `bbSource`. */
    const outBase: u32
    const srcBase: u32

    /** `int timing`, the timer reload value of the next attempt. */
    var timing: int
    /** The last value written to REG_TM0CNT. */
    var tm0cnt: nat
    /** The `timing` values `blackBox` has armed timer 0 with, one per call;
        the control word of each is `TimerControl` of it. */
    ghost var armed: seq<int>
    /** The words `blackBox` has written to REG_TM0CNT, one per call. */
    ghost var written: seq<nat>

    ghost predicate Valid()
    {
      out.Length == OutSize as int && sram.Length == SramSize &&
      stack.Length == StackRegionWords && out != sram &&
      GbaLayout(outBase, srcBase)
    }

    /** The stack contents `s` after one run of `bbTest`'s scan. */
    function Scanned(s: seq<u32>): (r: seq<u32>)
      ensures |r| == |s|
    {
      PatchWindow(s, StackRegionBase as nat, outBase, srcBase)
    }

    /** Program start: `out` zeroed, `timing` at its initial value; the stack
        and SRAM hold whatever the hardware holds. */
    constructor (outAddress: u32, srcAddress: u32, stackWords: seq<u32>, sramBytes: seq<u8>)
      requires |stackWords| == StackRegionWords && |sramBytes| == SramSize
      requires GbaLayout(outAddress, srcAddress)
      ensures Valid() && fresh(out) && fresh(sram) && fresh(stack)
      ensures outBase == outAddress && srcBase == srcAddress
      ensures out[..] == seq(OutSize as int, _ => 0)
      ensures stack[..] == stackWords && sram[..] == sramBytes
      ensures timing == InitialTiming && tm0cnt == 0 && armed == [] && written == []
    {
      outBase, srcBase := outAddress, srcAddress;
      out := new u8[OutSize as int](_ => 0);
      stack := new u32[StackRegionWords](i requires 0 <= i < StackRegionWords => stackWords[i]);
      sram := new u8[SramSize](i requires 0 <= i < SramSize => sramBytes[i]);
      timing, tm0cnt := InitialTiming, 0;
      armed, written := [], [];
    }

    /** The current `State`. */
    ghost function Now(): State
      reads this, out, stack
    {
      State(timing, tm0cnt, armed, written, stack[..], out[..])
    }

    /** What one pass of the retry loop's body does to the state: `blackBox`
        arms timer 0 with `timing` and logs it and the control word; the timer overflows within
        the pass and its handler clears REG_TM0CNT and patches the stack as
        the interrupted code left it (`frame`); the copy leaves `capture` in
        `out`; and a checksum mismatch lowers `timing` by the step. */
    ghost function AttemptEffect(st: State, capture: seq<u8>, frame: seq<u32>, matched: bool): State
    {
      State(if matched then st.timing else st.timing - TimingStep,
            0,
            st.armed + [st.timing],
            st.written + [TimerControl(st.timing)],
            Scanned(frame),
            capture)
    }

    /** The state after the first n passes, attempt j capturing `captures[j]`
        whose checksum is `sums[j]`, its handler finding `frames[j]` on the
        stack. */
    ghost function Attempts(st: State, captures: seq<seq<u8>>, frames: seq<seq<u32>>, sums: seq<u32>,
                            reference: u32, n: nat): State
      requires n <= |captures| && n <= |frames| && n <= |sums|
    {
      if n == 0 then st
      else AttemptEffect(Attempts(st, captures, frames, sums, reference, n - 1),
                         captures[n - 1], frames[n - 1], sums[n - 1] == reference)
    }

    /** After n passes the log holds the n successive timings the passes
        armed the timer with, provided all but possibly the last mismatched. */
    lemma {:induction false} AttemptsLog(st: State, captures: seq<seq<u8>>, frames: seq<seq<u32>>,
                                         sums: seq<u32>, reference: u32, n: nat)
      requires n <= |captures| && n <= |frames| && n <= |sums|
      requires forall j :: 0 <= j < n - 1 ==> sums[j] != reference
      ensures Attempts(st, captures, frames, sums, reference, n).armed == st.armed + Timings(st.timing, n)
      ensures Attempts(st, captures, frames, sums, reference, n).written == st.written + ControlWords(st.timing, n)
      ensures 0 < n ==>
        Attempts(st, captures, frames, sums, reference, n - 1).timing == st.timing - TimingStep * (n - 1)
    {
      if n > 0 {
        AttemptsLog(st, captures, frames, sums, reference, n - 1);
        var prev := Attempts(st, captures, frames, sums, reference, n - 1);
        TimingsNext(st.timing, n - 1);
        assert prev.armed + [prev.timing] == st.armed + (Timings(st.timing, n - 1) + [prev.timing]);
        if n > 1 {
          assert sums[n - 2] != reference;
        }
        ControlWordsNext(st.timing, n - 1);
        assert prev.written + [TimerControl(prev.timing)] ==
          st.written + (ControlWords(st.timing, n - 1) + [TimerControl(prev.timing)]);
      }
    }

    /** After n passes `timing` has dropped by the step once per mismatch:
        n times, or n - 1 times when the last pass matched. REG_TM0CNT is
        clear, the stack is the last pass's frame as its handler patched it,
        and `out` holds the last capture. */
    lemma {:induction false} AttemptsFinal(st: State, captures: seq<seq<u8>>, frames: seq<seq<u32>>,
                                           sums: seq<u32>, reference: u32, n: nat)
      requires 0 < n <= |captures| && n <= |frames| && n <= |sums|
      requires forall j :: 0 <= j < n - 1 ==> sums[j] != reference
      ensures sums[n - 1] == reference ==>
        Attempts(st, captures, frames, sums, reference, n).timing == st.timing - TimingStep * (n - 1)
      ensures sums[n - 1] != reference ==>
        Attempts(st, captures, frames, sums, reference, n).timing == st.timing - TimingStep * n
      ensures Attempts(st, captures, frames, sums, reference, n).tm0cnt == 0
      ensures Attempts(st, captures, frames, sums, reference, n).stack == Scanned(frames[n - 1])
      ensures Attempts(st, captures, frames, sums, reference, n).out == captures[n - 1]
    {
      AttemptsLog(st, captures, frames, sums, reference, n);
    }

    /** The state the retry loop ends in, in closed form: with `failed` the
        number of mismatches before the first match, `timing` has dropped by
        0x10 per failure, `out` holds the last capture, the log holds the
        timings of all Calls(failed) passes and the control words they
        wrote, REG_TM0CNT is clear and the
        stack is the last pass's frame as its handler patched it. */
    lemma {:induction false} RetryOutcome(st: State, captures: seq<seq<u8>>, frames: seq<seq<u32>>,
                                          sums: seq<u32>, reference: u32)
      requires |captures| == MaxAttempts && |frames| == MaxAttempts && |sums| == MaxAttempts
      ensures var failed := FailedAttempts(sums, reference);
        var r := Attempts(st, captures, frames, sums, reference, Calls(failed));
        r.timing == st.timing - TimingStep * failed &&
        r.out == captures[Calls(failed) - 1] &&
        r.armed == st.armed + Timings(st.timing, Calls(failed)) &&
        r.written == st.written + ControlWords(st.timing, Calls(failed)) &&
        r.stack == Scanned(frames[Calls(failed) - 1]) &&
        r.tm0cnt == 0
    {
      var failed := FailedAttempts(sums, reference);
      var n := Calls(failed);
      AttemptsLog(st, captures, frames, sums, reference, n);
      AttemptsFinal(st, captures, frames, sums, reference, n);
    }

    /** `bbTest`, the timer-0 interrupt handler: stops the timer and patches
        the stack window. */
    method BbTest()
      requires Valid()
      modifies this`tm0cnt, stack
      ensures tm0cnt == 0
      ensures stack[..] == Scanned(old(stack[..]))
    {
      tm0cnt := 0;
      ScanStack(stack, StackRegionBase as nat, outBase, srcBase);
    }

    /** `REG_TM0CNT = 0xC00000 | timing`: the reload value `timing`, with the
        timer started and its interrupt enabled. The word written is logged. */
    method ArmTimer()
      modifies this`tm0cnt, this`armed, this`written
      ensures tm0cnt == TimerControl(timing)
      ensures 0 <= timing < 0x1_0000 ==> tm0cnt == 0xC0_0000 + timing
      ensures armed == old(armed) + [timing]
      ensures written == old(written) + [tm0cnt]
    {
      tm0cnt := TimerControl(timing);
      armed := armed + [timing];
      written := written + [tm0cnt];
    }

    /** `blackBox`: arms timer 0 with `0xC00000 | timing`, its interrupt
        enabled, and starts the BIOS copy from `bbSource` to `out`. Nothing
        but the handler stops the timer, so it overflows within the pass and
        `bbTest` runs once. What the interrupted code has left on the stack
        by then (`frame`) and the image the copy leaves in `out` (`capture`)
        are decided by the hardware and come in as inputs. */
    method BlackBox(capture: seq<u8>, frame: seq<u32>)
      requires Valid() && |capture| == OutSize as int && |frame| == StackRegionWords
      modifies this`tm0cnt, this`armed, this`written, out, stack
      ensures out[..] == capture
      ensures tm0cnt == 0
      ensures stack[..] == Scanned(frame)
      ensures armed == old(armed) + [timing]
      ensures written == old(written) + [TimerControl(timing)]
    {
      ArmTimer();
      forall i | 0 <= i < stack.Length {
        stack[i] := frame[i];
      }
      BbTest();
      forall i | 0 <= i < out.Length {
        out[i] := capture[i];
      }
    }

    /** One pass of the retry loop's body: `blackBox`, the word sum of
        `out`, its comparison with the reference and, on a mismatch, the
        lowering of `timing` before the next pass. */
    method Attempt(reference: u32, capture: seq<u8>, frame: seq<u32>) returns (matched: bool)
      requires Valid() && |capture| == OutSize as int && |frame| == StackRegionWords
      modifies this`timing, this`tm0cnt, this`armed, this`written, out, stack
      ensures matched <==> ImageChecksum(capture) == reference
      ensures Now() == AttemptEffect(old(Now()), capture, frame, matched)
    {
      BlackBox(capture, frame);
      var checksum2 := ComputeChecksum(out);
      matched := checksum2 == reference;
      if !matched {
        timing := timing - TimingStep;
      }
    }

    /** `dump`, the direct jump into the BIOS copy core: `out` receives the
        16 KiB BIOS image. */
    method Dump(bios: seq<u8>)
      requires Valid() && |bios| == OutSize as int
      modifies out
      ensures out[..] == bios
    {
      forall i | 0 <= i < out.Length {
        out[i] := bios[i];
      }
    }

    /** The retry loop: up to eight timed captures, each checked against the
        BIOS's own checksum; a mismatch lowers `timing` by 0x10 and tries
        again, a match ends the loop. Returns the number of failed attempts. */
    method RetryDump(reference: u32, captures: seq<seq<u8>>, frames: seq<seq<u32>>) returns (failed: nat)
      requires Valid()
      requires |captures| == MaxAttempts && |frames| == MaxAttempts
      requires forall j :: 0 <= j < MaxAttempts ==> |captures[j]| == OutSize as int
      requires forall j :: 0 <= j < MaxAttempts ==> |frames[j]| == StackRegionWords
      modifies this`timing, this`tm0cnt, this`armed, this`written, out, stack
      ensures failed == FailedAttempts(CaptureSums(captures), reference)
      ensures Now() == Attempts(old(Now()), captures, frames, CaptureSums(captures), reference, Calls(failed))
    {
      ghost var sums := CaptureSums(captures);
      var i := 0;
      while i < MaxAttempts
        invariant 0 <= i <= MaxAttempts
        invariant forall j :: 0 <= j < i ==> sums[j] != reference
        invariant Now() == Attempts(old(Now()), captures, frames, sums, reference, i)
      {
        var matched := Attempt(reference, captures[i], frames[i]);
        CaptureSumsAt(captures, i);
        assert matched == (sums[i] == reference);
        if matched {
          break;
        }
        i := i + 1;
      }
      if i < MaxAttempts {
        FailedAttemptsFirst(sums, reference, i);
      } else {
        FailedAttemptsNone(sums, reference);
      }
      failed := i;
    }

    /** The SRAM probe: write 0x55 to the first SRAM byte and read it back.
        What the byte holds after the write is decided by the hardware and
        comes in as `readBack`: 0x55 when SRAM is writable, anything else
        when it is missing or read-only. */
    method ProbeSram(readBack: u8) returns (ok: bool)
      requires Valid()
      modifies sram
      ensures ok <==> readBack == SramProbe
      ensures sram[0] == readBack && sram[1..] == old(sram[1..])
    {
      sram[0] := readBack;
      ok := sram[0] == SramProbe;
    }

    /** The final copy loop: `out` byte by byte to the start of SRAM. */
    method CopyToSram()
      requires Valid()
      modifies sram
      ensures sram[..OutSize] == out[..]
      ensures sram[OutSize..] == old(sram[OutSize..])
    {
      var i := 0;
      while i < OutSize as int
        invariant 0 <= i <= OutSize as int
        invariant sram[..i] == out[..i]
        invariant sram[i..] == old(sram[i..])
      {
        sram[i] := out[i];
        i := i + 1;
        assert sram[..i] == sram[..i - 1] + [out[i - 1]];
        assert out[..i] == out[..i - 1] + [out[i - 1]];
      }
    }

    /** The part of `main` that USE_BLACKBOX selects: the retry loop when it
        is defined, the direct `dump` otherwise. Either way `out` ends with
        the image the build obtains; only the retry loop touches `timing`,
        the timer and the stack. */
    method Capture(useBlackBox: bool, checksum: u32, bios: seq<u8>,
                   captures: seq<seq<u8>>, frames: seq<seq<u32>>)
      requires Valid() && |bios| == OutSize as int
      requires |captures| == MaxAttempts && |frames| == MaxAttempts
      requires forall j :: 0 <= j < MaxAttempts ==> |captures[j]| == OutSize as int
      requires forall j :: 0 <= j < MaxAttempts ==> |frames[j]| == StackRegionWords
      modifies this`timing, this`tm0cnt, this`armed, this`written, out, stack
      ensures !useBlackBox ==> Now() == old(Now()).(out := bios)
      ensures useBlackBox ==>
        Now() == Attempts(old(Now()), captures, frames, CaptureSums(captures), checksum,
                          Calls(FailedAttempts(CaptureSums(captures), checksum)))
      ensures useBlackBox ==>
        var failed := FailedAttempts(CaptureSums(captures), checksum);
        timing == old(timing) - TimingStep * failed &&
        out[..] == captures[Calls(failed) - 1] &&
        armed == old(armed) + Timings(old(timing), Calls(failed)) &&
        written == old(written) + ControlWords(old(timing), Calls(failed)) &&
        stack[..] == Scanned(frames[Calls(failed) - 1]) &&
        tm0cnt == 0
    {
      if useBlackBox {
        ghost var start := Now();
        var failed := RetryDump(checksum, captures, frames);
        RetryOutcome(start, captures, frames, CaptureSums(captures), checksum);
      } else {
        Dump(bios);
      }
    }

    /** `main`. `useBlackBox` selects the build (USE_BLACKBOX defined or not);
        `readBack` is the SRAM probe's read-back, `biosChecksum` the result of
        the BIOS checksum call, `bios` what `dump` copies, and `captures`
        and `frames` what each timed attempt yields: the image in `out` and
        the stack its timer handler scans. */
    method Run(useBlackBox: bool, readBack: u8, biosChecksum: u32, bios: seq<u8>,
               captures: seq<seq<u8>>, frames: seq<seq<u32>>) returns (status: Status)
      requires Valid() && |bios| == OutSize as int
      requires |captures| == MaxAttempts && |frames| == MaxAttempts
      requires forall j :: 0 <= j < MaxAttempts ==> |captures[j]| == OutSize as int
      requires forall j :: 0 <= j < MaxAttempts ==> |frames[j]| == StackRegionWords
      modifies this, out, sram, stack
      ensures readBack != SramProbe ==>
        status == FatalSramError && Now() == old(Now()) &&
        sram[0] == readBack && sram[1..] == old(sram[1..])
      ensures readBack == SramProbe ==>
        status == Dumped(CpuName(biosChecksum)) &&
        sram[..OutSize] == out[..] && sram[OutSize..] == old(sram[OutSize..])
      ensures readBack == SramProbe && !useBlackBox ==> Now() == old(Now()).(out := bios)
      ensures readBack == SramProbe && useBlackBox ==>
        Now() == Attempts(old(Now()), captures, frames, CaptureSums(captures), biosChecksum,
                          Calls(FailedAttempts(CaptureSums(captures), biosChecksum)))
    {
      var ok := ProbeSram(readBack);
      if !ok {
        return FatalSramError;
      }
      var checksum := biosChecksum;
      var cpu := CpuName(checksum);
      Capture(useBlackBox, checksum, bios, captures, frames);
      CopyToSram();
      status := Dumped(cpu);
    }
  }

  /** After the probe alone, the first 16 KiB of SRAM are the byte the probe
      left followed by what SRAM held before. */
  lemma ProbedPrefix(after: seq<u8>, before: seq<u8>, probed: u8)
    requires |after| == |before| == SramSize
    requires after[0] == probed && after[1..] == before[1..]
    ensures after[..OutSize] == [probed] + before[1..OutSize]
  {
    assert after[..OutSize] == [after[0]] + after[1..][..OutSize - 1];
  }

  /** The whole run from power-on: a fresh device with `out` zeroed and
      `timing` at 0xFF00, then `main`. Returns the status, the final value of
      `timing` and the first 16 KiB of SRAM afterwards. */
  method PowerOnAndRun(outAddress: u32, srcAddress: u32, stackWords: seq<u32>, sramBytes: seq<u8>,
                       useBlackBox: bool, readBack: u8, biosChecksum: u32, bios: seq<u8>,
                       captures: seq<seq<u8>>, frames: seq<seq<u32>>)
    returns (status: Status, finalTiming: int, saved: seq<u8>)
    requires |stackWords| == StackRegionWords && |sramBytes| == SramSize && |bios| == OutSize as int
    requires GbaLayout(outAddress, srcAddress)
    requires |captures| == MaxAttempts && |frames| == MaxAttempts
    requires forall j :: 0 <= j < MaxAttempts ==> |captures[j]| == OutSize as int
    requires forall j :: 0 <= j < MaxAttempts ==> |frames[j]| == StackRegionWords
    ensures readBack != SramProbe ==>
      status == FatalSramError && finalTiming == InitialTiming &&
      saved == [readBack] + sramBytes[1..OutSize]
    ensures readBack == SramProbe ==> status == Dumped(CpuName(biosChecksum))
    ensures readBack == SramProbe && !useBlackBox ==> saved == bios && finalTiming == InitialTiming
    ensures readBack == SramProbe && useBlackBox ==>
      var failed := FailedAttempts(CaptureSums(captures), biosChecksum);
      saved == captures[Calls(failed) - 1] &&
      finalTiming == TimingAfter(failed) &&
      (ImageChecksum(saved) == biosChecksum <==> biosChecksum in CaptureSums(captures))
  {
    var device := new Device(outAddress, srcAddress, stackWords, sramBytes);
    ghost var start := device.Now();
    status := device.Run(useBlackBox, readBack, biosChecksum, bios, captures, frames);
    finalTiming := device.timing;
    saved := device.sram[..OutSize];
    if readBack != SramProbe {
      ProbedPrefix(device.sram[..], sramBytes, readBack);
    } else if useBlackBox {
      device.RetryOutcome(start, captures, frames, CaptureSums(captures), biosChecksum);
      ghost var failed := FailedAttempts(CaptureSums(captures), biosChecksum);
      assert saved == captures[Calls(failed) - 1];
      FinalCaptureVerified(captures, biosChecksum);
    }
  }
}
