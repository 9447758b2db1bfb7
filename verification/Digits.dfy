// Words and bytes as numbers: the byte order of Words and the length field of
// Padding in arithmetic.
module Digits {
  import opened Common
  import opened Padding
  import opened Words

  function Digit(b: Byte): nat { Value(b as Word) }

  // The number that bytes stand for, low-order byte first.
  function Number(b: seq<Byte>): nat {
    if b == [] then 0 else Digit(b[0]) + 256 * Number(b[1..])
  }

  // The number of a word, by one, two, four and eight bits.
  lemma ByOne(w: Word)
    ensures Value(w) == Value(w & 1) + 2 * Value(w >> 1)
  {
    assert (w & 1) >> 1 == 0;
    assert w & 1 == 0 || w & 1 == 1;
  }

  lemma ByTwo(w: Word)
    ensures Value(w) == Value(w & 3) + 4 * Value(w >> 2)
  {
    ByOne(w);
    ByOne(w >> 1);
    ByOne(w & 3);
    assert (w >> 1) >> 1 == w >> 2 && (w & 3) & 1 == w & 1 && (w & 3) >> 1 == (w >> 1) & 1;
  }

  lemma ByFour(w: Word)
    ensures Value(w) == Value(w & 15) + 16 * Value(w >> 4)
  {
    ByTwo(w);
    ByTwo(w >> 2);
    ByTwo(w & 15);
    assert (w >> 2) >> 2 == w >> 4 && (w & 15) & 3 == w & 3 && (w & 15) >> 2 == (w >> 2) & 3;
  }

  lemma ByEight(w: Word)
    ensures Value(w) == Digit(LowByte(w)) + 256 * Value(w >> 8)
  {
    ByFour(w);
    ByFour(w >> 4);
    ByFour(w & 255);
    assert (w >> 4) >> 4 == w >> 8 && (w & 255) & 15 == w & 15 && (w & 255) >> 4 == (w >> 4) & 15;
    assert LowByte(w) as Word == w & 255;
  }

  lemma NumberOfFour(b: seq<Byte>)
    requires |b| == 4
    ensures Number(b) == Digit(b[0])
              + 256 * (Digit(b[1]) + 256 * (Digit(b[2]) + 256 * Digit(b[3])))
  {
    var b1, b2, b3 := b[1..], b[2..], b[3..];
    assert b1[1..] == b2 && b2[1..] == b3 && b3[1..] == [];
    assert Number(b3) == Digit(b[3]);
    assert Number(b2) == Digit(b[2]) + 256 * Number(b3);
    assert Number(b1) == Digit(b[1]) + 256 * Number(b2);
  }

  lemma ByBytes(w: Word)
    ensures var b := WordBytes(w);
            Value(w) == Digit(b[0])
              + 256 * (Digit(b[1]) + 256 * (Digit(b[2]) + 256 * Digit(b[3])))
  {
    ByEight(w);
    SecondByte(w);
    ThirdByte(w);
    FourthByte(w);
  }

  lemma SecondByte(w: Word)
    ensures Value(w >> 8) == Digit(LowByte(w >> 8)) + 256 * Value(w >> 16)
  {
    ByEight(w >> 8);
    assert (w >> 8) >> 8 == w >> 16;
  }

  lemma ThirdByte(w: Word)
    ensures Value(w >> 16) == Digit(LowByte(w >> 16)) + 256 * Value(w >> 24)
  {
    ByEight(w >> 16);
    assert (w >> 16) >> 8 == w >> 24;
  }

  lemma FourthByte(w: Word)
    ensures Value(w >> 24) == Digit(LowByte(w >> 24))
  {
    ByEight(w >> 24);
    assert (w >> 24) >> 8 == 0;
  }

  // The bytes of a word are the digits of its number in base 256.
  lemma WordBytesAreDigits(w: Word)
    ensures Number(WordBytes(w)) == Value(w)
  {
    NumberOfFour(WordBytes(w));
    ByBytes(w);
  }

  // So four bytes are the digits of the word that they are read as.
  lemma WordAtIsNumber(b: seq<Byte>, k: nat)
    requires 4 * k + 4 <= |b|
    ensures Value(WordAt(b, k)) == Number(b[4 * k..4 * k + 4])
  {
    EncodedWordAt(b, k);
    WordBytesAreDigits(WordAt(b, k));
  }

  lemma {:induction false} NumberAppend(a: seq<Byte>, b: seq<Byte>)
    requires |a| == 4
    ensures Number(a + b) == Number(a) + 0x1_0000_0000 * Number(b)
  {
    var s := a + b;
    var s1, s2, s3 := s[1..], s[2..], s[3..];
    assert s1[1..] == s2 && s2[1..] == s3 && s3[1..] == b;
    assert Number(s3) == Digit(a[3]) + 256 * Number(b);
    assert Number(s2) == Digit(a[2]) + 256 * Number(s3);
    assert Number(s1) == Digit(a[1]) + 256 * Number(s2);
    NumberOfFour(a);
  }

  // ---- a number as a word ---------------------------------------------------------------

  lemma Appended(w: Word, bit: bool)
    requires w < 0x8000_0000
    ensures Half(AppendBit(w, bit)) == w && IsOdd(AppendBit(w, bit)) == bit
    ensures Value(AppendBit(w, bit)) == 2 * Value(w) + if bit then 1 else 0
  {
  }

  lemma AppendedBelow(v: Word, bit: bool, w: Word)
    requires v < Half(w)
    ensures AppendBit(v, bit) < w
  {
  }

  lemma EvenBelowOdd(w: Word)
    requires IsOdd(w)
    ensures AppendBit(Half(w), false) < w
  {
  }

  lemma BelowByHalf(n: nat, w: Word)
    requires n > 0 && ToWord(n / 2) < Half(w)
    ensures ToWord(n) < w
  {
    var v, bit := ToWord(n / 2), n % 2 == 1;
    IsAppended(n, v, bit);
    if bit {
      AppendedBelow(v, true, w);
    } else {
      AppendedBelow(v, false, w);
    }
  }

  lemma IsAppended(n: nat, v: Word, bit: bool)
    requires n > 0 && v == ToWord(n / 2) && bit == (n % 2 == 1)
    ensures ToWord(n) == AppendBit(v, bit)
  {
  }

  lemma BelowByBit(n: nat, w: Word)
    requires n > 0 && n % 2 == 0 && IsOdd(w) && ToWord(n / 2) == Half(w)
    ensures ToWord(n) < w
  {
    EvenBelowOdd(w);
  }

  lemma NotZero(w: Word)
    requires Value(w) > 0
    ensures 0 < w && Value(w) == 2 * Value(Half(w)) + if IsOdd(w) then 1 else 0
  {
  }

  // Smaller numbers have smaller words.
  lemma {:induction false} ToWordBelow(n: nat, w: Word)
    requires n < Value(w)
    ensures ToWord(n) < w
    decreases n
  {
    NotZero(w);
    if n > 0 {
      if n / 2 < Value(Half(w)) {
        ToWordBelow(n / 2, Half(w));
        BelowByHalf(n, w);
      } else {
        ToWordValue(Half(w));
        BelowByBit(n, w);
      }
    }
  }

  lemma HalfOfAllWords()
    ensures Value(0x8000_0000) == 0x8000_0000
  {
    ByEight(0x8000_0000);
    ByEight(0x80_0000);
    ByEight(0x8000);
    ByFour(0x80);
    assert Value(8) == 8;
  }

  // A number below 2^32 is the number of its word.
  lemma {:induction false} ValueToWord(n: nat)
    requires n < WORD
    ensures Value(ToWord(n)) == n
  {
    if n > 0 {
      HalfOfAllWords();
      ToWordBelow(n / 2, 0x8000_0000);
      ValueToWord(n / 2);
      Appended(ToWord(n / 2), n % 2 == 1);
    }
  }

  // The length field is the number of bits modulo 2^64 as eight digits.
  lemma LengthFieldIsNumber(n: nat)
    ensures Number(LengthField(n)) == 8 * n % 0x1_0000_0000_0000_0000
  {
    var low, high := 8 * n % WORD, 8 * n / WORD % WORD;
    var ws := [ToWord(low), ToWord(high)];
    assert ws[..1] == [ToWord(low)] && ws[..1][..0] == [];
    assert WordsToBytes(ws[..1]) == WordBytes(ToWord(low));
    NumberAppend(WordBytes(ToWord(low)), WordBytes(ToWord(high)));
    WordBytesAreDigits(ToWord(low));
    WordBytesAreDigits(ToWord(high));
    ValueToWord(low);
    ValueToWord(high);
    TwoWords(8 * n);
  }

  lemma TwoWords(x: nat)
    ensures x % 0x1_0000_0000_0000_0000 == x % WORD + WORD * (x / WORD % WORD)
  {
    var q := x / WORD;
    ModTwoWords(x, q / WORD, x % WORD + WORD * (q % WORD));
  }

  lemma ModTwoWords(x: nat, h: nat, l: nat)
    requires x == 0x1_0000_0000_0000_0000 * h + l && l < 0x1_0000_0000_0000_0000
    ensures x % 0x1_0000_0000_0000_0000 == l
  {
  }
}
