// Sections 3.1 and 3.2 of RFC 1321: the message, padded to whole blocks.
module Padding {
  import opened Common
  import opened Words

  function Zeros(n: nat): (z: seq<Byte>)
    ensures |z| == n
  {
    seq(n, _ => 0)
  }

  predicate ReachesLengthField(n: nat, zeros: nat) {
    (n + 1 + zeros) % 64 == 56
  }

  // Section 3.1: after a single 1 bit, as few 0 bits as make the length
  // congruent to 448 modulo 512 bits.
  function ZeroCount(n: nat): (k: nat)
    ensures ReachesLengthField(n, k)
    ensures forall j: nat :: ReachesLengthField(n, j) ==> k <= j
  {
    (119 - n % 64) % 64
  }

  // Section 3.2: the bit length modulo 2^64, low-order word first.
  function LengthField(n: nat): (b: seq<Byte>)
    ensures |b| == 8
  {
    WordsToBytes([ToWord(8 * n % WORD), ToWord(8 * n / WORD % WORD)])
  }

  function PadBytes(n: nat): (p: seq<Byte>)
    ensures 0 < |p| <= 64 && (n + |p|) % 64 == 56
  {
    [0x80] + Zeros(ZeroCount(n))
  }

  function Padded(m: seq<Byte>): (p: seq<Byte>)
    ensures |p| % 64 == 0 && m <= p
  {
    var n := |m| + |PadBytes(|m|)|;
    DivMod64(n + 8, n / 64 + 1, 0);
    m + PadBytes(|m|) + LengthField(|m|)
  }
}
