// Machine words and bytes.  `Word` and `Byte` are C's 32-bit `unsigned int` and
// `unsigned char`; lengths and bit counts are integers, and every place where
// the C arithmetic on them wraps is written out with `% WORD`.
module Words {
  import opened Common

  type Word = bv32
  type Byte = bv8

  lemma DivMod(x: nat, q: nat, r: nat)
    requires x == q * WORD + r && r < WORD
    ensures x / WORD == q && x % WORD == r
  {
  }

  lemma DivMod64(x: nat, q: nat, r: nat)
    requires x == 64 * q + r && r < 64
    ensures x / 64 == q && x % 64 == r
  {
  }

  // Addition of two `unsigned int` values, which wraps.
  function Plus(x: Word, y: Word): Word { x + y }

  function Half(w: Word): Word { w >> 1 }

  function IsOdd(w: Word): bool { w & 1 == 1 }

  function AppendBit(w: Word, bit: bool): Word { (w << 1) | (if bit then 1 else 0) }

  // The low 32 bits of n as a bit pattern, and the number a bit pattern stands for.
  function ToWord(n: nat): Word {
    if n == 0 then 0 else AppendBit(ToWord(n / 2), n % 2 == 1)
  }

  function Value(w: Word): (n: nat) {
    if w == 0 then 0 else 2 * Value(Half(w)) + (if IsOdd(w) then 1 else 0)
  }

  lemma SplitWord(w: Word)
    ensures AppendBit(Half(w), IsOdd(w)) == w
  {
  }

  lemma {:induction false} ToWordValue(w: Word)
    ensures ToWord(Value(w)) == w
  {
    if w != 0 {
      SplitWord(w);
      ToWordValue(Half(w));
      assert Value(w) / 2 == Value(Half(w));
      assert Value(w) % 2 == 1 <==> IsOdd(w);
    }
  }

  function LowByte(w: Word): Byte {
    var low: Word := w & 0xff;
    low as Byte
  }

  // The four bytes of a word, low-order byte first.
  function WordBytes(w: Word): (b: seq<Byte>)
    ensures |b| == 4
  {
    [LowByte(w), LowByte(w >> 8), LowByte(w >> 16), LowByte(w >> 24)]
  }

  function Join(p: Byte, q: Byte, r: Byte, s: Byte): Word {
    p as Word | (q as Word << 8) | (r as Word << 16) | (s as Word << 24)
  }

  function WordsToBytes(ws: seq<Word>): (b: seq<Byte>)
    ensures |b| == 4 * |ws|
  {
    if ws == [] then [] else WordsToBytes(ws[..|ws| - 1]) + WordBytes(ws[|ws| - 1])
  }

  // The k-th word of a byte string, low-order byte first.
  function WordAt(b: seq<Byte>, k: nat): Word
    requires 4 * k + 4 <= |b|
  {
    Join(b[4 * k], b[4 * k + 1], b[4 * k + 2], b[4 * k + 3])
  }

  lemma BytesJoin(w: Word)
    ensures var b := WordBytes(w); Join(b[0], b[1], b[2], b[3]) == w
  {
  }

  // Encoding and decoding undo each other.
  lemma {:induction false} WordAtEncoded(ws: seq<Word>, k: nat)
    requires k < |ws|
    ensures WordAt(WordsToBytes(ws), k) == ws[k]
  {
    var last := |ws| - 1;
    var init := WordsToBytes(ws[..last]);
    assert WordsToBytes(ws) == init + WordBytes(ws[last]);
    if k < last {
      WordAtEncoded(ws[..last], k);
    } else {
      BytesJoin(ws[last]);
    }
  }

  lemma EncodedWordAt(b: seq<Byte>, k: nat)
    requires 4 * k + 4 <= |b|
    ensures WordBytes(WordAt(b, k)) == b[4 * k..4 * k + 4]
  {
  }
}
