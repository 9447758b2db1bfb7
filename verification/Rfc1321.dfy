// Sections 3.3 to 3.5 of RFC 1321: buffer, compression and output.
module Rfc1321 {
  import opened Chaining
  import opened Padding
  import opened Words

  datatype Regs = Regs(a: Word, b: Word, c: Word, d: Word) {
    function ToSeq(): (s: seq<Word>)
      ensures |s| == 4
    {
      [a, b, c, d]
    }
  }

  function FromSeq(s: seq<Word>): (r: Regs)
    requires |s| == 4
    ensures r.ToSeq() == s
  {
    Regs(s[0], s[1], s[2], s[3])
  }

  // Section 3.3.
  const INITIAL := Regs(0x67452301, 0xefcdab89, 0x98badcfe, 0x10325476)

  // Section 3.4: the integer part of 4294967296 times abs(sin(i + 1)), four to a row.
  const SINES: seq<seq<Word>> := [
    [0xd76aa478, 0xe8c7b756, 0x242070db, 0xc1bdceee],
    [0xf57c0faf, 0x4787c62a, 0xa8304613, 0xfd469501],
    [0x698098d8, 0x8b44f7af, 0xffff5bb1, 0x895cd7be],
    [0x6b901122, 0xfd987193, 0xa679438e, 0x49b40821],
    [0xf61e2562, 0xc040b340, 0x265e5a51, 0xe9b6c7aa],
    [0xd62f105d, 0x02441453, 0xd8a1e681, 0xe7d3fbc8],
    [0x21e1cde6, 0xc33707d6, 0xf4d50d87, 0x455a14ed],
    [0xa9e3e905, 0xfcefa3f8, 0x676f02d9, 0x8d2a4c8a],
    [0xfffa3942, 0x8771f681, 0x6d9d6122, 0xfde5380c],
    [0xa4beea44, 0x4bdecfa9, 0xf6bb4b60, 0xbebfbc70],
    [0x289b7ec6, 0xeaa127fa, 0xd4ef3085, 0x04881d05],
    [0xd9d4d039, 0xe6db99e5, 0x1fa27cf8, 0xc4ac5665],
    [0xf4292244, 0x432aff97, 0xab9423a7, 0xfc93a039],
    [0x655b59c3, 0x8f0ccc92, 0xffeff47d, 0x85845dd1],
    [0x6fa87e4f, 0xfe2ce6e0, 0xa3014314, 0x4e0811a1],
    [0xf7537e82, 0xbd3af235, 0x2ad7d2bb, 0xeb86d391]
  ]

  const SHIFTS: seq<seq<Word>> := [[7, 12, 17, 22], [5, 9, 14, 20], [4, 11, 16, 23], [6, 10, 15, 21]]

  // The functions F, G, H and I of the four rounds.
  function Auxiliary(round: nat, x: Word, y: Word, z: Word): Word
    requires round < 4
  {
    match round
    case 0 => (x & y) | (!x & z)
    case 1 => (x & z) | (y & !z)
    case 2 => x ^ y ^ z
    case _ => y ^ (x | !z)
  }

  // X <<< s: the upper half of the doubled word XX after a shift by s.
  function CircularShift(x: Word, s: Word): Word
    requires s < 32
  {
    ((((x as bv64 << 32) | x as bv64) << s) >> 32) as Word
  }

  // b + ((a + Auxiliary(b, c, d) + X[k] + T[i]) <<< s), in modular arithmetic.
  function Operation(round: nat, r: Regs, xk: Word, s: Word, t: Word): Word
    requires round < 4 && s < 32
  {
    Plus(CircularShift(Plus(r.a, Plus(Plus(Auxiliary(round, r.b, r.c, r.d), xk), t)), s), r.b)
  }

  // The word X[k] that step i reads.
  function WordIndex(i: nat): (k: nat)
    requires i < 64
    ensures k < 16
  {
    match i / 16
    case 0 => i % 16
    case 1 => (5 * i + 1) % 16
    case 2 => (3 * i + 5) % 16
    case _ => 7 * i % 16
  }

  function Shift(i: nat): (s: Word)
    requires i < 64
    ensures 0 < s < 32
  {
    SHIFTS[i / 16][i % 4]
  }

  function Sine(i: nat): Word
    requires i < 64
  {
    SINES[i / 4][i % 4]
  }

  function Step(r: Regs, block: Block, i: nat): Regs
    requires i < 64
  {
    Regs(r.d, Operation(i / 16, r, WordAt(block, WordIndex(i)), Shift(i), Sine(i)), r.b, r.c)
  }

  // The first n of the 64 steps.
  function Steps(r: Regs, block: Block, n: nat): Regs
    requires n <= 64
  {
    if n == 0 then r else Step(Steps(r, block, n - 1), block, n - 1)
  }

  function Compress(r: Regs, block: Block): Regs {
    var t := Steps(r, block, 64);
    Regs(Plus(r.a, t.a), Plus(r.b, t.b), Plus(r.c, t.c), Plus(r.d, t.d))
  }

  function Digest(m: seq<Byte>): (d: seq<Byte>)
    ensures |d| == 16
  {
    WordsToBytes(Absorb(Compress, INITIAL, Padded(m)).ToSeq())
  }
}
