/** The timer handler `bbTest`: it walks the stack window word by word and
    rewrites every word that looks like a pointer into `out` or into the
    scratch source `bbSource`, before the BIOS copy core resumes. */
module StackPatch {
  import opened Words
  import opened Layout

  /** `val` points into `out` past its first byte, or one past its end:
      the unsigned delta `val - out` is in 1 .. sizeof(out). A value below
      `out` wraps to a huge delta and does not hit. */
  predicate DestHit(val: u32, outBase: u32)
  {
    0 < Sub(val, outBase) <= OutSize
  }

  /** The same test against `bbSource` and sizeof(bbSource). */
  predicate SourceHit(val: u32, srcBase: u32)
  {
    0 < Sub(val, srcBase) <= SourceSize
  }

  /** The new value of one stack word. The four tests are applied in the
      handler's order, all of them on the value as read; a later test that
      also matches overrides an earlier one. */
  function PatchSlot(val: u32, outBase: u32, srcBase: u32): (r: u32)
    ensures r == val || r == outBase || r == 0 || r == OutSize
  {
    var sDelta := Sub(val, srcBase);
    var dDelta := Sub(val, outBase);
    var afterDest := if 0 < dDelta < OutSize then outBase else val;
    var afterDestEnd := if dDelta == OutSize then Add(outBase, OutSize) else afterDest;
    var afterSource := if 0 < sDelta < SourceSize then 0 else afterDestEnd;
    if sDelta == SourceSize then OutSize else afterSource
  }

  /** An interior pointer `out + k` collapses to `out` itself: the offset k
      is lost. */
  lemma PatchDestInterior(outBase: u32, srcBase: u32, k: u32)
    requires 0 < k < OutSize
    requires !SourceHit(Add(outBase, k), srcBase)
    ensures PatchSlot(Add(outBase, k), outBase, srcBase) == outBase
  {
    SubIsInverse(k, outBase);
  }

  /** The one-past-the-end pointer `out + sizeof(out)` is written back with
      the value it already had. */
  lemma PatchDestEnd(outBase: u32, srcBase: u32)
    requires !SourceHit(Add(outBase, OutSize), srcBase)
    ensures PatchSlot(Add(outBase, OutSize), outBase, srcBase) == Add(outBase, OutSize)
  {
    SubIsInverse(OutSize, outBase);
  }

  /** An interior pointer `bbSource + k` becomes 0, whatever else it matches. */
  lemma PatchSourceInterior(outBase: u32, srcBase: u32, k: u32)
    requires 0 < k < SourceSize
    ensures PatchSlot(Add(srcBase, k), outBase, srcBase) == 0
  {
    SubIsInverse(k, srcBase);
  }

  /** The one-past-the-end pointer `bbSource + sizeof(bbSource)` becomes
      sizeof(out), whatever else it matches. */
  lemma PatchSourceEnd(outBase: u32, srcBase: u32)
    ensures PatchSlot(Add(srcBase, SourceSize), outBase, srcBase) == OutSize
  {
    SubIsInverse(SourceSize, srcBase);
  }

  /** A word that hits neither range keeps its value: a word equal to either
      base (delta 0), below a base (its delta wraps), or beyond an end. */
  lemma PatchMiss(val: u32, outBase: u32, srcBase: u32)
    requires !DestHit(val, outBase) && !SourceHit(val, srcBase)
    ensures PatchSlot(val, outBase, srcBase) == val
  {
  }

  /** Conversely, every word that is changed was a hit, and it is changed to
      one of the three values the handler writes. */
  lemma PatchChanges(val: u32, outBase: u32, srcBase: u32)
    requires PatchSlot(val, outBase, srcBase) != val
    ensures DestHit(val, outBase) || SourceHit(val, srcBase)
    ensures PatchSlot(val, outBase, srcBase) in {outBase, 0, OutSize}
  {
  }

  /** The two ranges lie at least sizeof(out) apart in both directions, so no
      word can hit both and the order of the tests does not matter. */
  predicate Separated(outBase: u32, srcBase: u32)
  {
    Sub(srcBase, outBase) >= OutSize && Sub(outBase, srcBase) >= SourceSize
  }

  lemma SeparatedExclusive(val: u32, outBase: u32, srcBase: u32)
    requires Separated(outBase, srcBase)
    ensures !(DestHit(val, outBase) && SourceHit(val, srcBase))
  {
  }

  /** `out` lies in IWRAM (`IWRAM_DATA`) and `bbSource` in EWRAM
      (`EWRAM_DATA`), as the linker places them. */
  predicate GbaLayout(outBase: u32, srcBase: u32)
  {
    IwramStart <= outBase as int && outBase as int + OutSize as int <= IwramEnd &&
    EwramStart <= srcBase as int && srcBase as int + SourceSize as int <= EwramEnd
  }

  /** With that placement the two ranges are separated. */
  lemma GbaLayoutSeparated(outBase: u32, srcBase: u32)
    requires GbaLayout(outBase, srcBase)
    ensures Separated(outBase, srcBase)
  {
  }

  /** With that placement `out`, 0 and sizeof(out), three of the values the
      handler writes, hit neither range, and the fourth, `out + sizeof(out)`,
      is a dest-end hit that the rule writes back unchanged. So patching a
      word a second time leaves it as the first patch left it. */
  lemma PatchSlotIdempotent(val: u32, outBase: u32, srcBase: u32)
    requires GbaLayout(outBase, srcBase)
    ensures PatchSlot(PatchSlot(val, outBase, srcBase), outBase, srcBase) == PatchSlot(val, outBase, srcBase)
  {
  }

  /** Address of word i of a memory array that starts at `memBase`. */
  function WordAddress(memBase: nat, i: int): int
  {
    memBase + 4 * i
  }

  predicate InScanWindow(addr: int)
  {
    ScanStart as int <= addr < ScanEnd as int
  }

  /** The words at memBase, memBase + 4, ... after one scan: every word of
      the window rewritten by `PatchSlot`, every other word kept. */
  function PatchWindow(mem: seq<u32>, memBase: nat, outBase: u32, srcBase: u32): (r: seq<u32>)
    ensures |r| == |mem|
  {
    seq(|mem|, i requires 0 <= i < |mem| =>
      if InScanWindow(WordAddress(memBase, i)) then PatchSlot(mem[i], outBase, srcBase) else mem[i])
  }

  /** A second scan over an already scanned stack changes nothing. */
  lemma PatchWindowIdempotent(mem: seq<u32>, memBase: nat, outBase: u32, srcBase: u32)
    requires GbaLayout(outBase, srcBase)
    ensures PatchWindow(PatchWindow(mem, memBase, outBase, srcBase), memBase, outBase, srcBase)
         == PatchWindow(mem, memBase, outBase, srcBase)
  {
    forall i | 0 <= i < |mem| {
      PatchSlotIdempotent(mem[i], outBase, srcBase);
    }
  }

  /** The scan loop of `bbTest` over `mem`, the words at addresses
      memBase, memBase + 4, ...: for each word of the window it computes both
      deltas from the word as read and stores into it as each test matches.
      Words outside the window are neither read nor written. */
  method ScanStack(mem: array<u32>, memBase: nat, outBase: u32, srcBase: u32)
    requires memBase % 4 == 0
    requires memBase <= ScanStart as int && ScanEnd as int <= WordAddress(memBase, mem.Length)
    modifies mem
    ensures forall i :: 0 <= i < mem.Length ==>
      mem[i] == if InScanWindow(WordAddress(memBase, i)) then PatchSlot(old(mem[i]), outBase, srcBase) else old(mem[i])
    ensures mem[..] == PatchWindow(old(mem[..]), memBase, outBase, srcBase)
  {
    var stack: int := ScanStart as int;
    var top: int := ScanEnd as int;
    while stack < top
      invariant ScanStart as int <= stack <= top && stack % 4 == 0
      invariant forall i :: 0 <= i < mem.Length ==>
        mem[i] == if ScanStart as int <= WordAddress(memBase, i) < stack
                  then PatchSlot(old(mem[i]), outBase, srcBase) else old(mem[i])
    {
      var i := (stack - memBase) / 4;
      assert WordAddress(memBase, i) == stack;
      var val := mem[i];
      var sDelta := Sub(val, srcBase);
      var dDelta := Sub(val, outBase);
      if 0 < dDelta < OutSize {
        mem[i] := outBase;
      }
      if dDelta == OutSize {
        mem[i] := Add(outBase, OutSize);
      }
      if 0 < sDelta < SourceSize {
        mem[i] := 0;
      }
      if sDelta == SourceSize {
        mem[i] := OutSize;
      }
      stack := stack + 4;
    }
  }
}
