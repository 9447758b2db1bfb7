// The macros of include/md5.h and the unrolled compression of lib/md5.c, proved
// against Rfc1321.
module Md5 {
  import opened Chaining
  import opened Words
  import opened Rfc1321

  function F(x: Word, y: Word, z: Word): Word { (x & y) | (!x & z) }

  function G(x: Word, y: Word, z: Word): Word { (x & z) | (y & !z) }

  function H(x: Word, y: Word, z: Word): Word { x ^ y ^ z }

  function I(x: Word, y: Word, z: Word): Word { y ^ (x | !z) }

  function RotateLeft(x: Word, n: Word): Word
    requires 0 < n < 32
  {
    (x << n) | (x >> (32 - n))
  }

  // The shift amounts of the 64 steps.
  predicate IsShift(n: Word) {
    n in {4, 5, 6, 7, 9, 10, 11, 12, 14, 15, 16, 17, 20, 21, 22, 23}
  }

  lemma RotateIsCircular(x: Word, n: Word)
    requires IsShift(n)
    ensures 0 < n < 32 && RotateLeft(x, n) == CircularShift(x, n)
  {
  }

  method FF(a: Word, b: Word, c: Word, d: Word, x: Word, s: Word, ac: Word) returns (r: Word)
    requires IsShift(s)
    ensures r == Operation(0, Regs(a, b, c, d), x, s, ac)
  {
    r := Plus(a, Plus(Plus(F(b, c, d), x), ac));
    RotateIsCircular(r, s);
    r := RotateLeft(r, s);
    r := Plus(r, b);
  }

  method GG(a: Word, b: Word, c: Word, d: Word, x: Word, s: Word, ac: Word) returns (r: Word)
    requires IsShift(s)
    ensures r == Operation(1, Regs(a, b, c, d), x, s, ac)
  {
    r := Plus(a, Plus(Plus(G(b, c, d), x), ac));
    RotateIsCircular(r, s);
    r := RotateLeft(r, s);
    r := Plus(r, b);
  }

  method HH(a: Word, b: Word, c: Word, d: Word, x: Word, s: Word, ac: Word) returns (r: Word)
    requires IsShift(s)
    ensures r == Operation(2, Regs(a, b, c, d), x, s, ac)
  {
    r := Plus(a, Plus(Plus(H(b, c, d), x), ac));
    RotateIsCircular(r, s);
    r := RotateLeft(r, s);
    r := Plus(r, b);
  }

  method II(a: Word, b: Word, c: Word, d: Word, x: Word, s: Word, ac: Word) returns (r: Word)
    requires IsShift(s)
    ensures r == Operation(3, Regs(a, b, c, d), x, s, ac)
  {
    r := Plus(a, Plus(Plus(I(b, c, d), x), ac));
    RotateIsCircular(r, s);
    r := RotateLeft(r, s);
    r := Plus(r, b);
  }

  // One more step: the value v replaces the a-register and the registers rotate.
  lemma Advance(r0: Regs, block: Block, i: nat, r: Regs, v: Word, k: nat, s: Word, t: Word) returns (next: Regs)
    requires i < 64 && k < 16 && s < 32
    requires Steps(r0, block, i) == r
    requires k == WordIndex(i) && s == Shift(i) && t == Sine(i)
    requires v == Operation(i / 16, r, WordAt(block, k), s, t)
    ensures next == Regs(r.d, v, r.b, r.c) == Steps(r0, block, i + 1)
  {
    next := Regs(r.d, v, r.b, r.c);
  }

  lemma Table0()
    ensures WordIndex(0) == 0 && Shift(0) == 7 && Sine(0) == 0xd76aa478
    ensures WordIndex(1) == 1 && Shift(1) == 12 && Sine(1) == 0xe8c7b756
    ensures WordIndex(2) == 2 && Shift(2) == 17 && Sine(2) == 0x242070db
    ensures WordIndex(3) == 3 && Shift(3) == 22 && Sine(3) == 0xc1bdceee
  {
  }

  lemma Table4()
    ensures WordIndex(4) == 4 && Shift(4) == 7 && Sine(4) == 0xf57c0faf
    ensures WordIndex(5) == 5 && Shift(5) == 12 && Sine(5) == 0x4787c62a
    ensures WordIndex(6) == 6 && Shift(6) == 17 && Sine(6) == 0xa8304613
    ensures WordIndex(7) == 7 && Shift(7) == 22 && Sine(7) == 0xfd469501
  {
  }

  lemma Table8()
    ensures WordIndex(8) == 8 && Shift(8) == 7 && Sine(8) == 0x698098d8
    ensures WordIndex(9) == 9 && Shift(9) == 12 && Sine(9) == 0x8b44f7af
    ensures WordIndex(10) == 10 && Shift(10) == 17 && Sine(10) == 0xffff5bb1
    ensures WordIndex(11) == 11 && Shift(11) == 22 && Sine(11) == 0x895cd7be
  {
  }

  lemma Table12()
    ensures WordIndex(12) == 12 && Shift(12) == 7 && Sine(12) == 0x6b901122
    ensures WordIndex(13) == 13 && Shift(13) == 12 && Sine(13) == 0xfd987193
    ensures WordIndex(14) == 14 && Shift(14) == 17 && Sine(14) == 0xa679438e
    ensures WordIndex(15) == 15 && Shift(15) == 22 && Sine(15) == 0x49b40821
  {
  }

  lemma Table16()
    ensures WordIndex(16) == 1 && Shift(16) == 5 && Sine(16) == 0xf61e2562
    ensures WordIndex(17) == 6 && Shift(17) == 9 && Sine(17) == 0xc040b340
    ensures WordIndex(18) == 11 && Shift(18) == 14 && Sine(18) == 0x265e5a51
    ensures WordIndex(19) == 0 && Shift(19) == 20 && Sine(19) == 0xe9b6c7aa
  {
  }

  lemma Table20()
    ensures WordIndex(20) == 5 && Shift(20) == 5 && Sine(20) == 0xd62f105d
    ensures WordIndex(21) == 10 && Shift(21) == 9 && Sine(21) == 0x02441453
    ensures WordIndex(22) == 15 && Shift(22) == 14 && Sine(22) == 0xd8a1e681
    ensures WordIndex(23) == 4 && Shift(23) == 20 && Sine(23) == 0xe7d3fbc8
  {
  }

  lemma Table24()
    ensures WordIndex(24) == 9 && Shift(24) == 5 && Sine(24) == 0x21e1cde6
    ensures WordIndex(25) == 14 && Shift(25) == 9 && Sine(25) == 0xc33707d6
    ensures WordIndex(26) == 3 && Shift(26) == 14 && Sine(26) == 0xf4d50d87
    ensures WordIndex(27) == 8 && Shift(27) == 20 && Sine(27) == 0x455a14ed
  {
  }

  lemma Table28()
    ensures WordIndex(28) == 13 && Shift(28) == 5 && Sine(28) == 0xa9e3e905
    ensures WordIndex(29) == 2 && Shift(29) == 9 && Sine(29) == 0xfcefa3f8
    ensures WordIndex(30) == 7 && Shift(30) == 14 && Sine(30) == 0x676f02d9
    ensures WordIndex(31) == 12 && Shift(31) == 20 && Sine(31) == 0x8d2a4c8a
  {
  }

  lemma Table32()
    ensures WordIndex(32) == 5 && Shift(32) == 4 && Sine(32) == 0xfffa3942
    ensures WordIndex(33) == 8 && Shift(33) == 11 && Sine(33) == 0x8771f681
    ensures WordIndex(34) == 11 && Shift(34) == 16 && Sine(34) == 0x6d9d6122
    ensures WordIndex(35) == 14 && Shift(35) == 23 && Sine(35) == 0xfde5380c
  {
  }

  lemma Table36()
    ensures WordIndex(36) == 1 && Shift(36) == 4 && Sine(36) == 0xa4beea44
    ensures WordIndex(37) == 4 && Shift(37) == 11 && Sine(37) == 0x4bdecfa9
    ensures WordIndex(38) == 7 && Shift(38) == 16 && Sine(38) == 0xf6bb4b60
    ensures WordIndex(39) == 10 && Shift(39) == 23 && Sine(39) == 0xbebfbc70
  {
  }

  lemma Table40()
    ensures WordIndex(40) == 13 && Shift(40) == 4 && Sine(40) == 0x289b7ec6
    ensures WordIndex(41) == 0 && Shift(41) == 11 && Sine(41) == 0xeaa127fa
    ensures WordIndex(42) == 3 && Shift(42) == 16 && Sine(42) == 0xd4ef3085
    ensures WordIndex(43) == 6 && Shift(43) == 23 && Sine(43) == 0x04881d05
  {
  }

  lemma Table44()
    ensures WordIndex(44) == 9 && Shift(44) == 4 && Sine(44) == 0xd9d4d039
    ensures WordIndex(45) == 12 && Shift(45) == 11 && Sine(45) == 0xe6db99e5
    ensures WordIndex(46) == 15 && Shift(46) == 16 && Sine(46) == 0x1fa27cf8
    ensures WordIndex(47) == 2 && Shift(47) == 23 && Sine(47) == 0xc4ac5665
  {
  }

  lemma Table48()
    ensures WordIndex(48) == 0 && Shift(48) == 6 && Sine(48) == 0xf4292244
    ensures WordIndex(49) == 7 && Shift(49) == 10 && Sine(49) == 0x432aff97
    ensures WordIndex(50) == 14 && Shift(50) == 15 && Sine(50) == 0xab9423a7
    ensures WordIndex(51) == 5 && Shift(51) == 21 && Sine(51) == 0xfc93a039
  {
  }

  lemma Table52()
    ensures WordIndex(52) == 12 && Shift(52) == 6 && Sine(52) == 0x655b59c3
    ensures WordIndex(53) == 3 && Shift(53) == 10 && Sine(53) == 0x8f0ccc92
    ensures WordIndex(54) == 10 && Shift(54) == 15 && Sine(54) == 0xffeff47d
    ensures WordIndex(55) == 1 && Shift(55) == 21 && Sine(55) == 0x85845dd1
  {
  }

  lemma Table56()
    ensures WordIndex(56) == 8 && Shift(56) == 6 && Sine(56) == 0x6fa87e4f
    ensures WordIndex(57) == 15 && Shift(57) == 10 && Sine(57) == 0xfe2ce6e0
    ensures WordIndex(58) == 6 && Shift(58) == 15 && Sine(58) == 0xa3014314
    ensures WordIndex(59) == 13 && Shift(59) == 21 && Sine(59) == 0x4e0811a1
  {
  }

  lemma Table60()
    ensures WordIndex(60) == 4 && Shift(60) == 6 && Sine(60) == 0xf7537e82
    ensures WordIndex(61) == 11 && Shift(61) == 10 && Sine(61) == 0xbd3af235
    ensures WordIndex(62) == 2 && Shift(62) == 15 && Sine(62) == 0x2ad7d2bb
    ensures WordIndex(63) == 9 && Shift(63) == 21 && Sine(63) == 0xeb86d391
  {
  }

  method Steps0To7(a0: Word, b0: Word, c0: Word, d0: Word, x: array<Word>, ghost r0: Regs, ghost block: Block)
    returns (a: Word, b: Word, c: Word, d: Word)
    requires x.Length >= 16 && forall k :: 0 <= k < 16 ==> x[k] == WordAt(block, k)
    requires Steps(r0, block, 0) == Regs(a0, b0, c0, d0)
    ensures Steps(r0, block, 8) == Regs(a, b, c, d)
  {
    ghost var r := Regs(a0, b0, c0, d0);
    a, b, c, d := a0, b0, c0, d0;
    Table0();
    a := FF(a, b, c, d, x[0], 7, 0xd76aa478);
    r := Advance(r0, block, 0, r, a, 0, 7, 0xd76aa478);
    d := FF(d, a, b, c, x[1], 12, 0xe8c7b756);
    r := Advance(r0, block, 1, r, d, 1, 12, 0xe8c7b756);
    c := FF(c, d, a, b, x[2], 17, 0x242070db);
    r := Advance(r0, block, 2, r, c, 2, 17, 0x242070db);
    b := FF(b, c, d, a, x[3], 22, 0xc1bdceee);
    r := Advance(r0, block, 3, r, b, 3, 22, 0xc1bdceee);
    Table4();
    a := FF(a, b, c, d, x[4], 7, 0xf57c0faf);
    r := Advance(r0, block, 4, r, a, 4, 7, 0xf57c0faf);
    d := FF(d, a, b, c, x[5], 12, 0x4787c62a);
    r := Advance(r0, block, 5, r, d, 5, 12, 0x4787c62a);
    c := FF(c, d, a, b, x[6], 17, 0xa8304613);
    r := Advance(r0, block, 6, r, c, 6, 17, 0xa8304613);
    b := FF(b, c, d, a, x[7], 22, 0xfd469501);
    r := Advance(r0, block, 7, r, b, 7, 22, 0xfd469501);
  }

  method Steps8To15(a0: Word, b0: Word, c0: Word, d0: Word, x: array<Word>, ghost r0: Regs, ghost block: Block)
    returns (a: Word, b: Word, c: Word, d: Word)
    requires x.Length >= 16 && forall k :: 0 <= k < 16 ==> x[k] == WordAt(block, k)
    requires Steps(r0, block, 8) == Regs(a0, b0, c0, d0)
    ensures Steps(r0, block, 16) == Regs(a, b, c, d)
  {
    ghost var r := Regs(a0, b0, c0, d0);
    a, b, c, d := a0, b0, c0, d0;
    Table8();
    a := FF(a, b, c, d, x[8], 7, 0x698098d8);
    r := Advance(r0, block, 8, r, a, 8, 7, 0x698098d8);
    d := FF(d, a, b, c, x[9], 12, 0x8b44f7af);
    r := Advance(r0, block, 9, r, d, 9, 12, 0x8b44f7af);
    c := FF(c, d, a, b, x[10], 17, 0xffff5bb1);
    r := Advance(r0, block, 10, r, c, 10, 17, 0xffff5bb1);
    b := FF(b, c, d, a, x[11], 22, 0x895cd7be);
    r := Advance(r0, block, 11, r, b, 11, 22, 0x895cd7be);
    Table12();
    a := FF(a, b, c, d, x[12], 7, 0x6b901122);
    r := Advance(r0, block, 12, r, a, 12, 7, 0x6b901122);
    d := FF(d, a, b, c, x[13], 12, 0xfd987193);
    r := Advance(r0, block, 13, r, d, 13, 12, 0xfd987193);
    c := FF(c, d, a, b, x[14], 17, 0xa679438e);
    r := Advance(r0, block, 14, r, c, 14, 17, 0xa679438e);
    b := FF(b, c, d, a, x[15], 22, 0x49b40821);
    r := Advance(r0, block, 15, r, b, 15, 22, 0x49b40821);
  }

  method RoundOne(a0: Word, b0: Word, c0: Word, d0: Word, x: array<Word>, ghost r0: Regs, ghost block: Block)
    returns (a: Word, b: Word, c: Word, d: Word)
    requires x.Length >= 16 && forall k :: 0 <= k < 16 ==> x[k] == WordAt(block, k)
    requires Steps(r0, block, 0) == Regs(a0, b0, c0, d0)
    ensures Steps(r0, block, 16) == Regs(a, b, c, d)
  {
    a, b, c, d := Steps0To7(a0, b0, c0, d0, x, r0, block);
    a, b, c, d := Steps8To15(a, b, c, d, x, r0, block);
  }

  method Steps16To23(a0: Word, b0: Word, c0: Word, d0: Word, x: array<Word>, ghost r0: Regs, ghost block: Block)
    returns (a: Word, b: Word, c: Word, d: Word)
    requires x.Length >= 16 && forall k :: 0 <= k < 16 ==> x[k] == WordAt(block, k)
    requires Steps(r0, block, 16) == Regs(a0, b0, c0, d0)
    ensures Steps(r0, block, 24) == Regs(a, b, c, d)
  {
    ghost var r := Regs(a0, b0, c0, d0);
    a, b, c, d := a0, b0, c0, d0;
    Table16();
    a := GG(a, b, c, d, x[1], 5, 0xf61e2562);
    r := Advance(r0, block, 16, r, a, 1, 5, 0xf61e2562);
    d := GG(d, a, b, c, x[6], 9, 0xc040b340);
    r := Advance(r0, block, 17, r, d, 6, 9, 0xc040b340);
    c := GG(c, d, a, b, x[11], 14, 0x265e5a51);
    r := Advance(r0, block, 18, r, c, 11, 14, 0x265e5a51);
    b := GG(b, c, d, a, x[0], 20, 0xe9b6c7aa);
    r := Advance(r0, block, 19, r, b, 0, 20, 0xe9b6c7aa);
    Table20();
    a := GG(a, b, c, d, x[5], 5, 0xd62f105d);
    r := Advance(r0, block, 20, r, a, 5, 5, 0xd62f105d);
    d := GG(d, a, b, c, x[10], 9, 0x02441453);
    r := Advance(r0, block, 21, r, d, 10, 9, 0x02441453);
    c := GG(c, d, a, b, x[15], 14, 0xd8a1e681);
    r := Advance(r0, block, 22, r, c, 15, 14, 0xd8a1e681);
    b := GG(b, c, d, a, x[4], 20, 0xe7d3fbc8);
    r := Advance(r0, block, 23, r, b, 4, 20, 0xe7d3fbc8);
  }

  method Steps24To31(a0: Word, b0: Word, c0: Word, d0: Word, x: array<Word>, ghost r0: Regs, ghost block: Block)
    returns (a: Word, b: Word, c: Word, d: Word)
    requires x.Length >= 16 && forall k :: 0 <= k < 16 ==> x[k] == WordAt(block, k)
    requires Steps(r0, block, 24) == Regs(a0, b0, c0, d0)
    ensures Steps(r0, block, 32) == Regs(a, b, c, d)
  {
    ghost var r := Regs(a0, b0, c0, d0);
    a, b, c, d := a0, b0, c0, d0;
    Table24();
    a := GG(a, b, c, d, x[9], 5, 0x21e1cde6);
    r := Advance(r0, block, 24, r, a, 9, 5, 0x21e1cde6);
    d := GG(d, a, b, c, x[14], 9, 0xc33707d6);
    r := Advance(r0, block, 25, r, d, 14, 9, 0xc33707d6);
    c := GG(c, d, a, b, x[3], 14, 0xf4d50d87);
    r := Advance(r0, block, 26, r, c, 3, 14, 0xf4d50d87);
    b := GG(b, c, d, a, x[8], 20, 0x455a14ed);
    r := Advance(r0, block, 27, r, b, 8, 20, 0x455a14ed);
    Table28();
    a := GG(a, b, c, d, x[13], 5, 0xa9e3e905);
    r := Advance(r0, block, 28, r, a, 13, 5, 0xa9e3e905);
    d := GG(d, a, b, c, x[2], 9, 0xfcefa3f8);
    r := Advance(r0, block, 29, r, d, 2, 9, 0xfcefa3f8);
    c := GG(c, d, a, b, x[7], 14, 0x676f02d9);
    r := Advance(r0, block, 30, r, c, 7, 14, 0x676f02d9);
    b := GG(b, c, d, a, x[12], 20, 0x8d2a4c8a);
    r := Advance(r0, block, 31, r, b, 12, 20, 0x8d2a4c8a);
  }

  method RoundTwo(a0: Word, b0: Word, c0: Word, d0: Word, x: array<Word>, ghost r0: Regs, ghost block: Block)
    returns (a: Word, b: Word, c: Word, d: Word)
    requires x.Length >= 16 && forall k :: 0 <= k < 16 ==> x[k] == WordAt(block, k)
    requires Steps(r0, block, 16) == Regs(a0, b0, c0, d0)
    ensures Steps(r0, block, 32) == Regs(a, b, c, d)
  {
    a, b, c, d := Steps16To23(a0, b0, c0, d0, x, r0, block);
    a, b, c, d := Steps24To31(a, b, c, d, x, r0, block);
  }

  method Steps32To39(a0: Word, b0: Word, c0: Word, d0: Word, x: array<Word>, ghost r0: Regs, ghost block: Block)
    returns (a: Word, b: Word, c: Word, d: Word)
    requires x.Length >= 16 && forall k :: 0 <= k < 16 ==> x[k] == WordAt(block, k)
    requires Steps(r0, block, 32) == Regs(a0, b0, c0, d0)
    ensures Steps(r0, block, 40) == Regs(a, b, c, d)
  {
    ghost var r := Regs(a0, b0, c0, d0);
    a, b, c, d := a0, b0, c0, d0;
    Table32();
    a := HH(a, b, c, d, x[5], 4, 0xfffa3942);
    r := Advance(r0, block, 32, r, a, 5, 4, 0xfffa3942);
    d := HH(d, a, b, c, x[8], 11, 0x8771f681);
    r := Advance(r0, block, 33, r, d, 8, 11, 0x8771f681);
    c := HH(c, d, a, b, x[11], 16, 0x6d9d6122);
    r := Advance(r0, block, 34, r, c, 11, 16, 0x6d9d6122);
    b := HH(b, c, d, a, x[14], 23, 0xfde5380c);
    r := Advance(r0, block, 35, r, b, 14, 23, 0xfde5380c);
    Table36();
    a := HH(a, b, c, d, x[1], 4, 0xa4beea44);
    r := Advance(r0, block, 36, r, a, 1, 4, 0xa4beea44);
    d := HH(d, a, b, c, x[4], 11, 0x4bdecfa9);
    r := Advance(r0, block, 37, r, d, 4, 11, 0x4bdecfa9);
    c := HH(c, d, a, b, x[7], 16, 0xf6bb4b60);
    r := Advance(r0, block, 38, r, c, 7, 16, 0xf6bb4b60);
    b := HH(b, c, d, a, x[10], 23, 0xbebfbc70);
    r := Advance(r0, block, 39, r, b, 10, 23, 0xbebfbc70);
  }

  method Steps40To47(a0: Word, b0: Word, c0: Word, d0: Word, x: array<Word>, ghost r0: Regs, ghost block: Block)
    returns (a: Word, b: Word, c: Word, d: Word)
    requires x.Length >= 16 && forall k :: 0 <= k < 16 ==> x[k] == WordAt(block, k)
    requires Steps(r0, block, 40) == Regs(a0, b0, c0, d0)
    ensures Steps(r0, block, 48) == Regs(a, b, c, d)
  {
    ghost var r := Regs(a0, b0, c0, d0);
    a, b, c, d := a0, b0, c0, d0;
    Table40();
    a := HH(a, b, c, d, x[13], 4, 0x289b7ec6);
    r := Advance(r0, block, 40, r, a, 13, 4, 0x289b7ec6);
    d := HH(d, a, b, c, x[0], 11, 0xeaa127fa);
    r := Advance(r0, block, 41, r, d, 0, 11, 0xeaa127fa);
    c := HH(c, d, a, b, x[3], 16, 0xd4ef3085);
    r := Advance(r0, block, 42, r, c, 3, 16, 0xd4ef3085);
    b := HH(b, c, d, a, x[6], 23, 0x04881d05);
    r := Advance(r0, block, 43, r, b, 6, 23, 0x04881d05);
    Table44();
    a := HH(a, b, c, d, x[9], 4, 0xd9d4d039);
    r := Advance(r0, block, 44, r, a, 9, 4, 0xd9d4d039);
    d := HH(d, a, b, c, x[12], 11, 0xe6db99e5);
    r := Advance(r0, block, 45, r, d, 12, 11, 0xe6db99e5);
    c := HH(c, d, a, b, x[15], 16, 0x1fa27cf8);
    r := Advance(r0, block, 46, r, c, 15, 16, 0x1fa27cf8);
    b := HH(b, c, d, a, x[2], 23, 0xc4ac5665);
    r := Advance(r0, block, 47, r, b, 2, 23, 0xc4ac5665);
  }

  method RoundThree(a0: Word, b0: Word, c0: Word, d0: Word, x: array<Word>, ghost r0: Regs, ghost block: Block)
    returns (a: Word, b: Word, c: Word, d: Word)
    requires x.Length >= 16 && forall k :: 0 <= k < 16 ==> x[k] == WordAt(block, k)
    requires Steps(r0, block, 32) == Regs(a0, b0, c0, d0)
    ensures Steps(r0, block, 48) == Regs(a, b, c, d)
  {
    a, b, c, d := Steps32To39(a0, b0, c0, d0, x, r0, block);
    a, b, c, d := Steps40To47(a, b, c, d, x, r0, block);
  }

  method Steps48To55(a0: Word, b0: Word, c0: Word, d0: Word, x: array<Word>, ghost r0: Regs, ghost block: Block)
    returns (a: Word, b: Word, c: Word, d: Word)
    requires x.Length >= 16 && forall k :: 0 <= k < 16 ==> x[k] == WordAt(block, k)
    requires Steps(r0, block, 48) == Regs(a0, b0, c0, d0)
    ensures Steps(r0, block, 56) == Regs(a, b, c, d)
  {
    ghost var r := Regs(a0, b0, c0, d0);
    a, b, c, d := a0, b0, c0, d0;
    Table48();
    a := II(a, b, c, d, x[0], 6, 0xf4292244);
    r := Advance(r0, block, 48, r, a, 0, 6, 0xf4292244);
    d := II(d, a, b, c, x[7], 10, 0x432aff97);
    r := Advance(r0, block, 49, r, d, 7, 10, 0x432aff97);
    c := II(c, d, a, b, x[14], 15, 0xab9423a7);
    r := Advance(r0, block, 50, r, c, 14, 15, 0xab9423a7);
    b := II(b, c, d, a, x[5], 21, 0xfc93a039);
    r := Advance(r0, block, 51, r, b, 5, 21, 0xfc93a039);
    Table52();
    a := II(a, b, c, d, x[12], 6, 0x655b59c3);
    r := Advance(r0, block, 52, r, a, 12, 6, 0x655b59c3);
    d := II(d, a, b, c, x[3], 10, 0x8f0ccc92);
    r := Advance(r0, block, 53, r, d, 3, 10, 0x8f0ccc92);
    c := II(c, d, a, b, x[10], 15, 0xffeff47d);
    r := Advance(r0, block, 54, r, c, 10, 15, 0xffeff47d);
    b := II(b, c, d, a, x[1], 21, 0x85845dd1);
    r := Advance(r0, block, 55, r, b, 1, 21, 0x85845dd1);
  }

  method Steps56To63(a0: Word, b0: Word, c0: Word, d0: Word, x: array<Word>, ghost r0: Regs, ghost block: Block)
    returns (a: Word, b: Word, c: Word, d: Word)
    requires x.Length >= 16 && forall k :: 0 <= k < 16 ==> x[k] == WordAt(block, k)
    requires Steps(r0, block, 56) == Regs(a0, b0, c0, d0)
    ensures Steps(r0, block, 64) == Regs(a, b, c, d)
  {
    ghost var r := Regs(a0, b0, c0, d0);
    a, b, c, d := a0, b0, c0, d0;
    Table56();
    a := II(a, b, c, d, x[8], 6, 0x6fa87e4f);
    r := Advance(r0, block, 56, r, a, 8, 6, 0x6fa87e4f);
    d := II(d, a, b, c, x[15], 10, 0xfe2ce6e0);
    r := Advance(r0, block, 57, r, d, 15, 10, 0xfe2ce6e0);
    c := II(c, d, a, b, x[6], 15, 0xa3014314);
    r := Advance(r0, block, 58, r, c, 6, 15, 0xa3014314);
    b := II(b, c, d, a, x[13], 21, 0x4e0811a1);
    r := Advance(r0, block, 59, r, b, 13, 21, 0x4e0811a1);
    Table60();
    a := II(a, b, c, d, x[4], 6, 0xf7537e82);
    r := Advance(r0, block, 60, r, a, 4, 6, 0xf7537e82);
    d := II(d, a, b, c, x[11], 10, 0xbd3af235);
    r := Advance(r0, block, 61, r, d, 11, 10, 0xbd3af235);
    c := II(c, d, a, b, x[2], 15, 0x2ad7d2bb);
    r := Advance(r0, block, 62, r, c, 2, 15, 0x2ad7d2bb);
    b := II(b, c, d, a, x[9], 21, 0xeb86d391);
    r := Advance(r0, block, 63, r, b, 9, 21, 0xeb86d391);
  }

  method RoundFour(a0: Word, b0: Word, c0: Word, d0: Word, x: array<Word>, ghost r0: Regs, ghost block: Block)
    returns (a: Word, b: Word, c: Word, d: Word)
    requires x.Length >= 16 && forall k :: 0 <= k < 16 ==> x[k] == WordAt(block, k)
    requires Steps(r0, block, 48) == Regs(a0, b0, c0, d0)
    ensures Steps(r0, block, 64) == Regs(a, b, c, d)
  {
    a, b, c, d := Steps48To55(a0, b0, c0, d0, x, r0, block);
    a, b, c, d := Steps56To63(a, b, c, d, x, r0, block);
  }

  method MD5Transform(state: array<Word>, block: seq<Byte>)
    requires state.Length == 4 && |block| == 64
    modifies state
    ensures state[..] == Compress(FromSeq(old(state[..])), block).ToSeq()
  {
    ghost var r0 := FromSeq(state[..]);
    var a, b, c, d := state[0], state[1], state[2], state[3];
    var x := new Word[64];
    MD5Decode(x, block, 64);
    a, b, c, d := RoundOne(a, b, c, d, x, r0, block);
    a, b, c, d := RoundTwo(a, b, c, d, x, r0, block);
    a, b, c, d := RoundThree(a, b, c, d, x, r0, block);
    a, b, c, d := RoundFour(a, b, c, d, x, r0, block);
    ghost var t := Regs(a, b, c, d);
    assert t == Steps(r0, block, 64);
    AddRegisters(state, a, b, c, d);
  }

  method AddRegisters(state: array<Word>, a: Word, b: Word, c: Word, d: Word)
    requires state.Length == 4
    modifies state
    ensures state[..] == old([Plus(state[0], a), Plus(state[1], b), Plus(state[2], c), Plus(state[3], d)])
  {
    state[0] := Plus(state[0], a);
    state[1] := Plus(state[1], b);
    state[2] := Plus(state[2], c);
    state[3] := Plus(state[3], d);
  }

  method MD5Decode(output: array<Word>, input: seq<Byte>, len: nat)
    requires len % 4 == 0 && len <= |input| && len / 4 <= output.Length
    modifies output
    ensures forall k :: 0 <= k < len / 4 ==> output[k] == WordAt(input, k)
    ensures output[len / 4..] == old(output[len / 4..])
  {
    var i, j := 0, 0;
    while j < len
      invariant j == 4 * i && j <= len
      invariant forall k :: 0 <= k < i ==> output[k] == WordAt(input, k)
      invariant output[len / 4..] == old(output[len / 4..])
    {
      output[i] := Join(input[j], input[j + 1], input[j + 2], input[j + 3]);
      i := i + 1;
      j := j + 4;
    }
  }
}
