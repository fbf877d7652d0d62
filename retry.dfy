/** The bounded retry loop around the timed capture, as a pure state
    machine: how many attempts fail, the timer reload value each attempt
    uses, and the timer control word it writes. */
module Retry {
  import opened Words

  const MaxAttempts: nat := 8
  /** `int timing = 0xFF00`, and the step it is lowered by after a mismatch. */
  const InitialTiming: int := 0xFF00
  const TimingStep: int := 0x10

  /** Number of attempts that fail before the first whose checksum equals
      `reference`, or |sums| when none does. */
  function FailedAttempts(sums: seq<u32>, reference: u32): (n: nat)
    ensures n <= |sums|
    ensures forall j :: 0 <= j < n ==> sums[j] != reference
    ensures n < |sums| ==> sums[n] == reference
  {
    if sums == [] then 0
    else if sums[0] == reference then 0
    else 1 + FailedAttempts(sums[1..], reference)
  }

  /** A match among the attempts exists exactly when not all of them fail. */
  lemma MatchedIffFound(sums: seq<u32>, reference: u32)
    ensures FailedAttempts(sums, reference) < |sums| <==> reference in sums
  {
  }

  /** The loop stops at attempt i when i is the first match. */
  lemma FailedAttemptsFirst(sums: seq<u32>, reference: u32, i: nat)
    requires i < |sums| && sums[i] == reference
    requires forall j :: 0 <= j < i ==> sums[j] != reference
    ensures FailedAttempts(sums, reference) == i
  {
  }

  /** The loop runs out of attempts when no attempt matches. */
  lemma FailedAttemptsNone(sums: seq<u32>, reference: u32)
    requires forall j :: 0 <= j < |sums| ==> sums[j] != reference
    ensures FailedAttempts(sums, reference) == |sums|
  {
  }

  /** The number of blackBox calls the loop makes: one more than the failures
      when it stops on a match, all of them otherwise. */
  function Calls(failed: nat): (calls: nat)
    requires failed <= MaxAttempts
    ensures 1 <= calls <= MaxAttempts
  {
    if failed < MaxAttempts then failed + 1 else MaxAttempts
  }

  /** The image left by the last attempt passes the checksum exactly when
      some attempt matched: the loop keeps a matching capture and gives up
      only after eight mismatches. */
  lemma FinalAttemptMatches(sums: seq<u32>, reference: u32)
    requires |sums| == MaxAttempts
    ensures sums[Calls(FailedAttempts(sums, reference)) - 1] == reference <==> reference in sums
  {
    MatchedIffFound(sums, reference);
  }

  /** The value of `timing` after `failed` mismatches. Through all eight
      attempts it stays a valid 16-bit reload value and never rises above
      its start. */
  function TimingAfter(failed: nat): (t: int)
    ensures failed <= MaxAttempts ==> 0xFE80 <= t <= InitialTiming
  {
    InitialTiming - TimingStep * failed
  }

  /** The `timing` values of `count` successive attempts that start from
      `timing` and each lower it by the step. */
  function Timings(timing: int, count: nat): (ts: seq<int>)
    ensures |ts| == count
  {
    seq(count, j requires 0 <= j < count => timing - TimingStep * j)
  }

  /** One more attempt appends its `timing` to the log. */
  lemma TimingsNext(timing: int, i: nat)
    ensures Timings(timing, i + 1) == Timings(timing, i) + [timing - TimingStep * i]
  {
  }

  /** From power-on, entry j of that log is the value `timing` has after j
      mismatches. */
  lemma TimingsFromPowerOn(count: nat, j: nat)
    requires j < count
    ensures Timings(InitialTiming, count)[j] == TimingAfter(j)
  {
  }

  /** The bits of a C `int` as stored into a 32-bit register: its value
      modulo 2^32 (two's complement for a negative `int`). */
  function RegisterBits(x: int): u32
  {
    (x % WordModulus) as u32
  }

  /** Bitwise OR of two naturals, bit by bit from the least significant. */
  function BitOr(a: nat, b: nat): nat
    decreases a + b
  {
    if a == 0 then b
    else if b == 0 then a
    else 2 * BitOr(a / 2, b / 2) + (if a % 2 == 1 || b % 2 == 1 then 1 else 0)
  }

  function Pow2(k: nat): (p: nat)
    ensures p >= 1
  {
    if k == 0 then 1 else 2 * Pow2(k - 1)
  }

  /** OR-ing a value whose low k bits are clear with one below 2^k adds them:
      the two have no bit in common. */
  lemma {:induction false} BitOrDisjoint(hi: nat, lo: nat, k: nat)
    requires lo < Pow2(k)
    ensures BitOr(hi * Pow2(k), lo) == hi * Pow2(k) + lo
  {
    if lo != 0 && hi * Pow2(k) != 0 {
      assert k > 0;
      var h := hi * Pow2(k - 1);
      assert hi * Pow2(k) == 2 * h;
      assert (2 * h) / 2 == h && (2 * h) % 2 == 0;
      BitOrDisjoint(hi, lo / 2, k - 1);
    }
  }

  /** A 16-bit value has no bit in common with 0xC00000, so OR-ing them
      adds them. */
  lemma ControlBitsDisjoint(timing: int)
    ensures 0 <= timing < 0x1_0000 ==>
      BitOr(0xC00000, RegisterBits(timing) as nat) == 0xC0_0000 + timing
  {
    if 0 <= timing < 0x1_0000 {
      Pow2Sixteen();
      assert RegisterBits(timing) as nat == timing;
      BitOrDisjoint(0xC0, timing, 16);
    }
  }

  /** `REG_TM0CNT = 0xC00000 | timing`: the reload value in the low half and,
      in the control half, the interrupt-enable and start bits. For a 16-bit
      `timing` the OR is a plain sum. */
  function TimerControl(timing: int): (r: nat)
    ensures 0 <= timing < 0x1_0000 ==> r == 0xC0_0000 + timing
  {
    ControlBitsDisjoint(timing);
    BitOr(0xC00000, RegisterBits(timing) as nat)
  }

  /** For a 16-bit `timing` the control word fits in 24 bits: the reload half
      holds `timing` unchanged and the control half is exactly 0xC0. */
  lemma TimerControlFields(timing: int)
    requires 0 <= timing < 0x1_0000
    ensures TimerControl(timing) < 0x100_0000
    ensures TimerControl(timing) % 0x1_0000 == timing
    ensures TimerControl(timing) / 0x1_0000 == 0xC0
  {
  }

  /** Every attempt arms the timer with a 24-bit control word whose reload
      half is that attempt's `timing`. */
  lemma ArmedWordsFit(j: nat)
    requires j < MaxAttempts
    ensures TimerControl(TimingAfter(j)) < 0x100_0000
    ensures TimerControl(TimingAfter(j)) % 0x1_0000 == TimingAfter(j)
  {
    TimerControlFields(TimingAfter(j));
  }

  /** The control words `count` successive attempts write to REG_TM0CNT,
      starting from `timing` and lowering it by the step each time. */
  function ControlWords(timing: int, count: nat): (ws: seq<nat>)
    ensures |ws| == count
  {
    seq(count, j requires 0 <= j < count => TimerControl(timing - TimingStep * j))
  }

  /** One more attempt appends the word it writes. */
  lemma ControlWordsNext(timing: int, i: nat)
    ensures ControlWords(timing, i + 1) == ControlWords(timing, i) + [TimerControl(timing - TimingStep * i)]
  {
  }

  /** From power-on, the word written by attempt j fits in 24 bits and holds
      in its reload half the `timing` left by j mismatches. */
  lemma WrittenWordsFit(count: nat, j: nat)
    requires j < count <= MaxAttempts
    ensures ControlWords(InitialTiming, count)[j] < 0x100_0000
    ensures ControlWords(InitialTiming, count)[j] % 0x1_0000 == TimingAfter(j)
  {
    ArmedWordsFit(j);
  }

  /** The same for the log of armed `timing` values from power-on: each
      entry gives a 24-bit control word with that entry in its reload half. */
  lemma ArmedLogFits(count: nat, j: nat)
    requires j < count <= MaxAttempts
    ensures TimerControl(Timings(InitialTiming, count)[j]) < 0x100_0000
    ensures TimerControl(Timings(InitialTiming, count)[j]) % 0x1_0000 == Timings(InitialTiming, count)[j]
  {
    TimingsFromPowerOn(count, j);
    ArmedWordsFit(j);
  }

  lemma Pow2Sixteen()
    ensures Pow2(16) == 0x1_0000
  {
    assert Pow2(4) == 0x10;
    assert Pow2(8) == 0x100;
    assert Pow2(12) == 0x1000;
  }
}
