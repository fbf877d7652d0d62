/** The word-sum checksum that the dumper computes over `out` after every
    timed capture and compares with the BIOS's own checksum. */
module Checksum {
  import opened Words
  import opened Layout

  /** Sum modulo 2^32 of the words of `ws`, accumulated first to last. */
  function WordSum(ws: seq<u32>): u32
  {
    if ws == [] then 0 else Add(WordSum(ws[..|ws| - 1]), ws[|ws| - 1])
  }

  /** The exact sum of the words, without wrap-around. */
  function IntSum(ws: seq<u32>): int
  {
    if ws == [] then 0 else IntSum(ws[..|ws| - 1]) + ws[|ws| - 1] as int
  }

  /** Reducing a partial sum modulo 2^32 before adding the next word does
      not change the result modulo 2^32. */
  lemma ModAddLeft(x: int, y: int)
    ensures (x % 0x1_0000_0000 + y) % 0x1_0000_0000 == (x + y) % 0x1_0000_0000
  {
    var q := x / 0x1_0000_0000;
    assert x % 0x1_0000_0000 + y == (x + y) - q * 0x1_0000_0000;
  }

  /** The wrapping accumulation equals the exact sum reduced modulo 2^32: no
      carry out of bit 31 is ever kept. */
  lemma {:induction false} WordSumExact(ws: seq<u32>)
    ensures WordSum(ws) as int == IntSum(ws) % WordModulus
  {
    if ws != [] {
      var init, last := ws[..|ws| - 1], ws[|ws| - 1];
      WordSumExact(init);
      AddSubModular(WordSum(init), last);
      ModAddLeft(IntSum(init), last as int);
    }
  }

  /** Summing a concatenation sums the two parts. */
  lemma {:induction false} WordSumAppend(s: seq<u32>, t: seq<u32>)
    ensures WordSum(s + t) == Add(WordSum(s), WordSum(t))
  {
    if t == [] {
      assert s + t == s;
    } else {
      var u, x := t[..|t| - 1], t[|t| - 1];
      assert (s + t)[..|s + t| - 1] == s + u;
      assert WordSum(s + t) == Add(WordSum(s + u), x);
      WordSumAppend(s, u);
      AddAssoc(WordSum(s), WordSum(u), x);
    }
  }

  /** Taking a word out of the middle of a sequence takes it out of the sum. */
  lemma WordSumRemove(t: seq<u32>, j: nat)
    requires j < |t|
    ensures WordSum(t) == Add(WordSum(t[..j] + t[j + 1..]), t[j])
  {
    var x, pre, post := t[j], t[..j], t[j + 1..];
    assert t == pre + ([x] + post);
    assert [x][..0] == [];
    assert WordSum([x]) == x;
    calc {
      WordSum(t);
      { WordSumAppend(pre, [x] + post); }
      Add(WordSum(pre), WordSum([x] + post));
      { WordSumAppend([x], post); AddComm(x, WordSum(post)); }
      Add(WordSum(pre), Add(WordSum(post), x));
      { AddAssoc(WordSum(pre), WordSum(post), x); }
      Add(Add(WordSum(pre), WordSum(post)), x);
      { WordSumAppend(pre, post); }
      Add(WordSum(pre + post), x);
    }
  }

  /** The checksum does not depend on the order of the words: any permutation
      of the buffer's words gives the same sum. */
  lemma {:induction false} WordSumPermutation(s: seq<u32>, t: seq<u32>)
    requires multiset(s) == multiset(t)
    ensures WordSum(s) == WordSum(t)
  {
    if s != [] {
      var n := |s| - 1;
      var x := s[n];
      assert s == s[..n] + [x];
      assert x in multiset(t);
      var j :| 0 <= j < |t| && t[j] == x;
      assert t == t[..j] + [x] + t[j + 1..];
      assert multiset(s) == multiset(s[..n]) + multiset{x};
      assert multiset(t) == multiset(t[..j]) + multiset{x} + multiset(t[j + 1..]);
      assert multiset(t[..j] + t[j + 1..]) == multiset(t[..j]) + multiset(t[j + 1..]);
      assert multiset(s[..n]) == multiset(s) - multiset{x};
      assert multiset(t[..j] + t[j + 1..]) == multiset(t) - multiset{x};
      WordSumPermutation(s[..n], t[..j] + t[j + 1..]);
      WordSumRemove(t, j);
    } else {
      assert |t| == |multiset(t)| == 0;
    }
  }

  /** The checksum of a byte image: the word sum of its little-endian words. */
  function ImageChecksum(image: seq<u8>): u32
  {
    WordSum(WordsOf(image))
  }

  /** The checksum of an image is the exact sum of its little-endian words,
      reduced modulo 2^32. */
  lemma ImageChecksumExact(image: seq<u8>)
    ensures ImageChecksum(image) as int == IntSum(WordsOf(image)) % WordModulus
  {
    WordSumExact(WordsOf(image));
  }

  /** The checksum loop of the retry loop: `checksum2 += ((u32*) out)[c]`
      for every word index c of the buffer. */
  method ComputeChecksum(buf: array<u8>) returns (sum: u32)
    requires buf.Length == OutSize as int
    ensures sum == ImageChecksum(buf[..])
  {
    ghost var ws := WordsOf(buf[..]);
    sum := 0;
    var c := 0;
    while c < OutSize as int / 4
      invariant 0 <= c <= OutSize as int / 4
      invariant sum == WordSum(ws[..c])
    {
      var w := LeWord(buf[4 * c], buf[4 * c + 1], buf[4 * c + 2], buf[4 * c + 3]);
      assert w == ws[c];
      assert ws[..c + 1][..c] == ws[..c];
      assert WordSum(ws[..c + 1]) == Add(WordSum(ws[..c]), w);
      sum := Add(sum, w);
      c := c + 1;
    }
    assert ws[..c] == ws;
  }
}
