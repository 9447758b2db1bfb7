// The example "abc" of section A.5 of RFC 1321, step by step.
module Rfc1321Example {
  import opened Common
  import opened Chaining
  import opened Padding
  import opened Words
  import opened Rfc1321
  import opened Md5
  import Md5Stream

  const ABC: seq<Byte> := [0x61, 0x62, 0x63]

  // The words of its one block.
  function AbcWord(k: nat): Word {
    if k == 0 then 0x80636261 else if k == 14 then 24 else 0
  }

  ghost predicate IsAbc(block: Block) {
    forall k :: 0 <= k < 16 ==> WordAt(block, k) == AbcWord(k)
  }

  // Step i makes v the new register.
  lemma Next(block: Block, i: nat, r: Regs, v: Word) returns (r': Regs)
    requires i < 64 && IsAbc(block) && Steps(INITIAL, block, i) == r
    requires v == Operation(i / 16, r, AbcWord(WordIndex(i)), Shift(i), Sine(i))
    ensures r' == Regs(r.d, v, r.b, r.c) == Steps(INITIAL, block, i + 1)
  {
    r' := Regs(r.d, v, r.b, r.c);
  }

  lemma To8(block: Block)
    requires IsAbc(block)
    ensures Steps(INITIAL, block, 8) == Regs(0xc73741ef, 0x928d99f6, 0x207dc67b, 0x8bac3051)
  {
    Table0();
    Table4();
    var r := INITIAL;
    r := Next(block, 0, r, 0xd6d117b4);
    r := Next(block, 1, r, 0x344a8432);
    r := Next(block, 2, r, 0x2f6fbd72);
    r := Next(block, 3, r, 0x7ad956f2);
    r := Next(block, 4, r, 0xc73741ef);
    r := Next(block, 5, r, 0x8bac3051);
    r := Next(block, 6, r, 0x207dc67b);
    r := Next(block, 7, r, 0x928d99f6);
  }

  lemma To16(block: Block)
    requires IsAbc(block)
    ensures Steps(INITIAL, block, 16) == Regs(0xdda9b9a6, 0x72aff2e0, 0xe396856b, 0xa1051895)
  {
    To8(block);
    Table8();
    Table12();
    var r := Regs(0xc73741ef, 0x928d99f6, 0x207dc67b, 0x8bac3051);
    r := Next(block, 8, r, 0x854b3712);
    r := Next(block, 9, r, 0x74e2f284);
    r := Next(block, 10, r, 0x3020401c);
    r := Next(block, 11, r, 0x5ed49596);
    r := Next(block, 12, r, 0xdda9b9a6);
    r := Next(block, 13, r, 0xa1051895);
    r := Next(block, 14, r, 0xe396856b);
    r := Next(block, 15, r, 0x72aff2e0);
  }

  lemma To24(block: Block)
    requires IsAbc(block)
    ensures Steps(INITIAL, block, 24) == Regs(0x59a8ffda, 0x47092c07, 0xabfc7920, 0x6d002f1e)
  {
    To16(block);
    Table16();
    Table20();
    var r := Regs(0xdda9b9a6, 0x72aff2e0, 0xe396856b, 0xa1051895);
    r := Next(block, 16, r, 0x3e9e9126);
    r := Next(block, 17, r, 0x4a1d804e);
    r := Next(block, 18, r, 0xe25e1652);
    r := Next(block, 19, r, 0xb5b204e4);
    r := Next(block, 20, r, 0x59a8ffda);
    r := Next(block, 21, r, 0x6d002f1e);
    r := Next(block, 22, r, 0xabfc7920);
    r := Next(block, 23, r, 0x47092c07);
  }

  lemma To32(block: Block)
    requires IsAbc(block)
    ensures Steps(INITIAL, block, 32) == Regs(0x790a77fb, 0x726342d3, 0xa62884aa, 0x9f47e4f8)
  {
    To24(block);
    Table24();
    Table28();
    var r := Regs(0x59a8ffda, 0x47092c07, 0xabfc7920, 0x6d002f1e);
    r := Next(block, 24, r, 0xb7f268cf);
    r := Next(block, 25, r, 0x09388eff);
    r := Next(block, 26, r, 0xfe1623b1);
    r := Next(block, 27, r, 0x786acb8f);
    r := Next(block, 28, r, 0x790a77fb);
    r := Next(block, 29, r, 0x9f47e4f8);
    r := Next(block, 30, r, 0xa62884aa);
    r := Next(block, 31, r, 0x726342d3);
  }

  lemma To40(block: Block)
    requires IsAbc(block)
    ensures Steps(INITIAL, block, 40) == Regs(0x21b117b9, 0x5a2f5ea5, 0x3575227e, 0x6e7429d5)
  {
    To32(block);
    Table32();
    Table36();
    var r := Regs(0x790a77fb, 0x726342d3, 0xa62884aa, 0x9f47e4f8);
    r := Next(block, 32, r, 0xb3707ebf);
    r := Next(block, 33, r, 0x60127b2e);
    r := Next(block, 34, r, 0x8d212ff5);
    r := Next(block, 35, r, 0x3b0875c7);
    r := Next(block, 36, r, 0x21b117b9);
    r := Next(block, 37, r, 0x6e7429d5);
    r := Next(block, 38, r, 0x3575227e);
    r := Next(block, 39, r, 0x5a2f5ea5);
  }

  lemma To48(block: Block)
    requires IsAbc(block)
    ensures Steps(INITIAL, block, 48) == Regs(0x7f2e507b, 0x7beb9700, 0x8fae6399, 0x99d9679d)
  {
    To40(block);
    Table40();
    Table44();
    var r := Regs(0x21b117b9, 0x5a2f5ea5, 0x3575227e, 0x6e7429d5);
    r := Next(block, 40, r, 0x11de1779);
    r := Next(block, 41, r, 0xfadcaa38);
    r := Next(block, 42, r, 0x31c465ca);
    r := Next(block, 43, r, 0x4c6124f4);
    r := Next(block, 44, r, 0x7f2e507b);
    r := Next(block, 45, r, 0x99d9679d);
    r := Next(block, 46, r, 0x8fae6399);
    r := Next(block, 47, r, 0x7beb9700);
  }

  lemma To56(block: Block)
    requires IsAbc(block)
    ensures Steps(INITIAL, block, 56) == Regs(0x06cc5e8a, 0x3bfa2c27, 0x7d632dd0, 0x5b0d97aa)
  {
    To48(block);
    Table48();
    Table52();
    var r := Regs(0x7f2e507b, 0x7beb9700, 0x8fae6399, 0x99d9679d);
    r := Next(block, 48, r, 0x7b201df8);
    r := Next(block, 49, r, 0xf4e8e96e);
    r := Next(block, 50, r, 0xb298cefd);
    r := Next(block, 51, r, 0x8bf025c4);
    r := Next(block, 52, r, 0x06cc5e8a);
    r := Next(block, 53, r, 0x5b0d97aa);
    r := Next(block, 54, r, 0x7d632dd0);
    r := Next(block, 55, r, 0x3bfa2c27);
  }

  lemma To64(block: Block)
    requires IsAbc(block)
    ensures Steps(INITIAL, block, 64) == Regs(0x310ade8f, 0xc08226b3, 0xe484b9d8, 0x624d8cb2)
  {
    To56(block);
    Table56();
    Table60();
    var r := Regs(0x06cc5e8a, 0x3bfa2c27, 0x7d632dd0, 0x5b0d97aa);
    r := Next(block, 56, r, 0x7f81cc35);
    r := Next(block, 57, r, 0x094454ab);
    r := Next(block, 58, r, 0x4f9dbe3f);
    r := Next(block, 59, r, 0x7327d604);
    r := Next(block, 60, r, 0x310ade8f);
    r := Next(block, 61, r, 0x624d8cb2);
    r := Next(block, 62, r, 0xe484b9d8);
    r := Next(block, 63, r, 0xc08226b3);
  }

  lemma AbcLength()
    ensures LengthField(3) == [24, 0, 0, 0, 0, 0, 0, 0]
  {
    assert ToWord(24) == 24 && ToWord(0) == 0 && 24 / WORD == 0;
    assert LengthField(3) == WordsToBytes([24, 0]);
    OneMore([], 24);
    OneMore([24], 0);
    assert [] + [24] == [24] && [24] + [0] == [24, 0];
    assert WordBytes(24) == [24, 0, 0, 0] && WordBytes(0) == [0, 0, 0, 0];
  }

  lemma AbcPadded() returns (block: Block)
    ensures Padded(ABC) == block == ABC + ([0x80] + Zeros(52)) + [24, 0, 0, 0, 0, 0, 0, 0]
  {
    AbcLength();
    assert ZeroCount(3) == 52;
    block := ABC + ([0x80] + Zeros(52)) + [24, 0, 0, 0, 0, 0, 0, 0];
  }

  lemma AbcWords(block: Block)
    requires block == ABC + ([0x80] + Zeros(52)) + [24, 0, 0, 0, 0, 0, 0, 0]
    ensures IsAbc(block)
  {
    assert forall i :: 4 <= i < 64 && i != 56 ==> block[i] == 0;
    assert Join(0x61, 0x62, 0x63, 0x80) == 0x80636261 && Join(24, 0, 0, 0) == 24 && Join(0, 0, 0, 0) == 0;
  }

  lemma OneBlock(block: Block)
    ensures Absorb(Compress, INITIAL, block) == Compress(INITIAL, block)
  {
    assert block[..64] == block && block[64..] == [];
  }

  lemma AbcCompressed(block: Block)
    requires IsAbc(block)
    ensures Compress(INITIAL, block) == Regs(0x98500190, 0xb04fd23c, 0x7d3f96d6, 0x727fe128)
  {
    To64(block);
  }

  lemma OneMore(ws: seq<Word>, w: Word)
    ensures WordsToBytes(ws + [w]) == WordsToBytes(ws) + WordBytes(w)
  {
    assert (ws + [w])[..|ws|] == ws;
  }

  lemma FourWords(p: Word, q: Word, r: Word, s: Word)
    ensures WordsToBytes([p, q, r, s]) == WordBytes(p) + WordBytes(q) + WordBytes(r) + WordBytes(s)
  {
    var w1, w2, w3 := [p], [p, q], [p, q, r];
    assert w1 == [] + [p];
    OneMore([], p);
    assert w2 == w1 + [q];
    OneMore(w1, q);
    assert w3 == w2 + [r];
    OneMore(w2, r);
    assert [p, q, r, s] == w3 + [s];
    OneMore(w3, s);
  }

  lemma AbcBytes()
    ensures WordBytes(0x98500190) == [0x90, 0x01, 0x50, 0x98]
    ensures WordBytes(0xb04fd23c) == [0x3c, 0xd2, 0x4f, 0xb0]
    ensures WordBytes(0x7d3f96d6) == [0xd6, 0x96, 0x3f, 0x7d]
    ensures WordBytes(0x727fe128) == [0x28, 0xe1, 0x7f, 0x72]
  {
  }

  lemma AbcOutput()
    ensures WordsToBytes(Regs(0x98500190, 0xb04fd23c, 0x7d3f96d6, 0x727fe128).ToSeq()) == [
      0x90, 0x01, 0x50, 0x98, 0x3c, 0xd2, 0x4f, 0xb0,
      0xd6, 0x96, 0x3f, 0x7d, 0x28, 0xe1, 0x7f, 0x72
    ]
  {
    AbcBytes();
    FourWords(0x98500190, 0xb04fd23c, 0x7d3f96d6, 0x727fe128);
  }

  lemma DigestOfOneBlock(m: seq<Byte>, r: Regs)
    requires |Padded(m)| == 64 && Compress(INITIAL, Padded(m)) == r
    ensures Digest(m) == WordsToBytes(r.ToSeq())
  {
    OneBlock(Padded(m));
  }

  // MD5 ("abc") = 900150983cd24fb0d6963f7d28e17f72
  lemma AbcDigest()
    ensures Digest(ABC) == [
      0x90, 0x01, 0x50, 0x98, 0x3c, 0xd2, 0x4f, 0xb0,
      0xd6, 0x96, 0x3f, 0x7d, 0x28, 0xe1, 0x7f, 0x72
    ]
  {
    var block := AbcPadded();
    AbcWords(block);
    AbcCompressed(block);
    DigestOfOneBlock(ABC, Regs(0x98500190, 0xb04fd23c, 0x7d3f96d6, 0x727fe128));
    AbcOutput();
  }

  // So the code gives this digest, however the example is cut into updates.
  method AbcInPieces(pieces: seq<seq<Byte>>) returns (digest: seq<Byte>)
    requires Md5Stream.Concat(pieces) == ABC && forall i :: 0 <= i < |pieces| ==> |pieces[i]| < WORD - 64
    ensures digest == [
      0x90, 0x01, 0x50, 0x98, 0x3c, 0xd2, 0x4f, 0xb0,
      0xd6, 0x96, 0x3f, 0x7d, 0x28, 0xe1, 0x7f, 0x72
    ]
  {
    AbcDigest();
    digest := Md5Stream.DigestInPieces(pieces);
  }
}
