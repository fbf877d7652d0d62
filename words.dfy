/** Bytes and 32-bit words of the ARM7TDMI memory the dumper reads and writes,
    with the C compiler's unsigned wrap-around written out. The CPU is
    little-endian: a `u8` buffer read through a `u32*` yields, at word index
    c, the four bytes 4c .. 4c+3 with the lowest-addressed byte as the least
    significant one. */
module Words {

  const WordModulus: int := 0x1_0000_0000

  newtype u8 = x: int | 0 <= x < 0x100
  newtype u32 = x: int | 0 <= x < 0x1_0000_0000

  /** `a + b` on `u32`: the sum modulo 2^32. */
  function Add(a: u32, b: u32): u32
  {
    if a as int + b as int < WordModulus then a + b
    else (a as int + b as int - WordModulus) as u32
  }

  /** `a - b` on `u32`: the difference modulo 2^32, so a value below `b`
      wraps to a large one. */
  function Sub(a: u32, b: u32): u32
  {
    if a >= b then a - b else (a as int - b as int + WordModulus) as u32
  }

  /** Both operations are arithmetic modulo 2^32. */
  lemma AddSubModular(a: u32, b: u32)
    ensures Add(a, b) as int == (a as int + b as int) % WordModulus
    ensures Sub(a, b) as int == (a as int - b as int) % WordModulus
  {
  }

  /** The difference is what has to be added back to `b` to reach `a`,
      and it is zero exactly when the operands are equal. */
  lemma SubIsInverse(a: u32, b: u32)
    ensures Add(b, Sub(a, b)) == a
    ensures Sub(a, b) == 0 <==> a == b
    ensures Sub(Add(b, a), b) == a
  {
  }

  /** Wrapping addition is associative, as the checksum's running sum needs. */
  lemma AddAssoc(a: u32, b: u32, c: u32)
    ensures Add(Add(a, b), c) == Add(a, Add(b, c))
  {
  }

  /** Wrapping addition is commutative. */
  lemma AddComm(a: u32, b: u32)
    ensures Add(a, b) == Add(b, a)
  {
  }

  /** The word whose little-endian byte image is b0, b1, b2, b3. */
  function LeWord(b0: u8, b1: u8, b2: u8, b3: u8): (w: u32)
  {
    (b0 as int + 0x100 * b1 as int + 0x1_0000 * b2 as int + 0x100_0000 * b3 as int) as u32
  }

  /** The four bytes a word occupies in memory, lowest address first. */
  function LeBytes(w: u32): (bs: seq<u8>)
    ensures |bs| == 4
  {
    [(w as int % 0x100) as u8, (w as int / 0x100 % 0x100) as u8,
     (w as int / 0x1_0000 % 0x100) as u8, (w as int / 0x100_0000) as u8]
  }

  /** Reading back the bytes of a stored word gives the word. */
  lemma LeWordOfBytes(w: u32)
    ensures LeWord(LeBytes(w)[0], LeBytes(w)[1], LeBytes(w)[2], LeBytes(w)[3]) == w
  {
    var x := w as int;
    var q1, q2, q3 := x / 0x100, x / 0x1_0000, x / 0x100_0000;
    DigitRecombine(x);
    DigitRecombine(q1);
    DigitRecombine(q2);
    assert q1 / 0x100 == q2 && q2 / 0x100 == q3;
    assert x == x % 0x100 + 0x100 * (q1 % 0x100 + 0x100 * (q2 % 0x100 + 0x100 * q3));
  }

  /** A natural is its lowest base-256 digit plus 256 times the rest. */
  lemma DigitRecombine(x: int)
    requires 0 <= x
    ensures x == x % 0x100 + 0x100 * (x / 0x100)
  {
  }

  /** Storing a word assembled from four bytes gives back those bytes. */
  lemma LeBytesOfWord(b0: u8, b1: u8, b2: u8, b3: u8)
    ensures LeBytes(LeWord(b0, b1, b2, b3)) == [b0, b1, b2, b3]
  {
    var hi := b3 as int;
    var mid := b2 as int + 0x100 * hi;
    var lo := b1 as int + 0x100 * mid;
    var w := LeWord(b0, b1, b2, b3) as int;
    assert w == b0 as int + 0x100 * lo;
    DigitSplit(b0 as int, lo);
    DigitSplit(b1 as int, mid);
    DigitSplit(b2 as int, hi);
    assert w / 0x1_0000 == (w / 0x100) / 0x100;
    assert w / 0x100_0000 == (w / 0x1_0000) / 0x100;
  }

  /** Splitting off the lowest base-256 digit. */
  lemma DigitSplit(d: int, q: int)
    requires 0 <= d < 0x100 && 0 <= q
    ensures (d + 0x100 * q) % 0x100 == d && (d + 0x100 * q) / 0x100 == q
  {
  }

  /** The buffer `bytes` seen as an array of `u32`: |bytes| / 4 words. */
  function WordsOf(bytes: seq<u8>): (ws: seq<u32>)
    ensures |ws| == |bytes| / 4
  {
    seq(|bytes| / 4, c requires 0 <= c < |bytes| / 4 =>
      LeWord(bytes[4 * c], bytes[4 * c + 1], bytes[4 * c + 2], bytes[4 * c + 3]))
  }

  /** Word c of the buffer occupies exactly bytes 4c .. 4c+3 of it. */
  lemma WordsOfBytes(bytes: seq<u8>, c: nat)
    requires c < |bytes| / 4
    ensures LeBytes(WordsOf(bytes)[c]) == bytes[4 * c .. 4 * c + 4]
  {
    LeBytesOfWord(bytes[4 * c], bytes[4 * c + 1], bytes[4 * c + 2], bytes[4 * c + 3]);
  }
}
