// The streaming interface of lib/md5.c: MD5Init, MD5Update and MD5Final, over a
// 64-byte carry buffer and a two-word bit counter.
module Md5Stream {
  import opened Common
  import opened Words
  import opened Chaining
  import opened Padding
  import opened Rfc1321
  import opened Md5

  // A word of the bit counter, as a number.
  type Count = x: nat | x < WORD

  const PADDING: seq<Byte> := [0x80] + Zeros(63)

  // The counter words after len more bytes, as the code computes them.
  function AddBits(low: Count, high: Count, len: nat): (Count, Count) {
    var added := 8 * len % WORD;
    var sum := (low + added) % WORD;
    var carried := if sum < added then (high + 1) % WORD else high;
    (sum, (carried + len / 0x2000_0000) % WORD)
  }

  lemma AddThenWrap(x: nat, y: nat)
    ensures (x % WORD + y) % WORD == (x + y) % WORD
  {
  }

  lemma BitsOf(len: nat)
    ensures 8 * len == len / 0x2000_0000 * WORD + 8 * len % WORD
  {
  }

  // They hold 8 times the number of bytes, modulo 2^64, across all carries.
  lemma CounterAdvances(n: nat, len: nat)
    ensures AddBits(8 * n % WORD, 8 * n / WORD % WORD, len) == (8 * (n + len) % WORD, 8 * (n + len) / WORD % WORD)
  {
    var low, added, high, over := 8 * n % WORD, 8 * len % WORD, 8 * n / WORD, len / 0x2000_0000;
    BitsOf(len);
    var carry := if low + added < WORD then 0 else 1;
    var sum := low + added - carry * WORD;
    DivMod(low + added, carry, sum);
    DivMod(8 * (n + len), high + over + carry, sum);
    AddThenWrap(high, carry);
    AddThenWrap(high + carry, over);
    AddThenWrap(high, over);
  }

  lemma BufferIndex(n: nat)
    ensures 8 * n % WORD / 8 % 64 == n % 64
  {
  }

  // When the unsigned `i + 64` of the block loop does not wrap.
  predicate LoopIndexFits(index: nat, len: nat) {
    index + len < if index == 0 then WORD - 64 else WORD
  }

  lemma LoopTestFits(index: nat, len: nat, i: nat, q: nat)
    requires index < 64 && i <= len && LoopIndexFits(index, len)
    requires index + i == 64 * q
    ensures (i + 64) % WORD == i + 64
  {
  }

  lemma ShortInputFits(index: nat, len: nat)
    requires index < 64 && len < WORD - 64
    ensures LoopIndexFits(index, len)
  {
  }

  // The condition is exact: otherwise the last test of the loop wraps and
  // succeeds although fewer than 64 bytes are left.
  lemma LoopIndexFitsExactly(index: nat, len: nat, last: nat)
    requires index < 64 && 64 - index <= len < WORD
    requires last == len - (index + len) % 64
    ensures len - last < 64 && (index + last) % 64 == 0
    ensures LoopIndexFits(index, len) <==> last + 64 < WORD
    ensures LoopIndexFits(index, len) <==> !((last + 64) % WORD <= len)
  {
  }

  method Memcpy(dst: array<Byte>, at: nat, src: seq<Byte>)
    requires at + |src| <= dst.Length
    modifies dst
    ensures dst[..] == old(dst[..at]) + src + old(dst[at + |src|..])
  {
    forall k | 0 <= k < |src| {
      dst[at + k] := src[k];
    }
  }

  method StoreWord(output: array<Byte>, j: nat, w: Word)
    requires j + 4 <= output.Length
    modifies output
    ensures output[j..j + 4] == WordBytes(w)
    ensures output[..j] == old(output[..j]) && output[j + 4..] == old(output[j + 4..])
  {
    output[j] := LowByte(w);
    output[j + 1] := LowByte(w >> 8);
    output[j + 2] := LowByte(w >> 16);
    output[j + 3] := LowByte(w >> 24);
  }

  method MD5Encode(output: array<Byte>, input: seq<Word>, len: nat)
    requires len % 4 == 0 && len <= output.Length && len / 4 <= |input|
    modifies output
    ensures output[..len] == WordsToBytes(input[..len / 4])
    ensures output[len..] == old(output[len..])
  {
    var i, j := 0, 0;
    while j < len
      invariant j == 4 * i && j <= len
      invariant output[..j] == WordsToBytes(input[..i])
      invariant output[len..] == old(output[len..])
    {
      StoreWord(output, j, input[i]);
      assert output[..j + 4] == output[..j] + output[j..j + 4];
      assert input[..i + 1][..i] == input[..i];
      i := i + 1;
      j := j + 4;
    }
  }

  // A name for the compression function under which its 64 steps do not matter.
  ghost predicate Compresses(f: (Regs, Block) -> Regs) {
    forall r, block {:trigger Compress(r, block)} :: f(r, block) == Compress(r, block)
  }

  method Transform(state: array<Word>, block: seq<Byte>, ghost f: (Regs, Block) -> Regs)
    requires state.Length == 4 && |block| == 64 && Compresses(f)
    modifies state
    ensures FromSeq(state[..]) == f(FromSeq(old(state[..])), block)
  {
    MD5Transform(state, block);
  }

  lemma SliceOfSlice<X>(s: seq<X>, k: nat, t: seq<X>, i: nat)
    requires k <= |s| && s[k..] == t && i + 64 <= |t|
    ensures s[k + i..k + i + 64] == t[i..i + 64]
  {
    assert t[i..i + 64] == s[k..][i..i + 64];
  }

  class Stream {
    ghost const transform: (Regs, Block) -> Regs
    const count: array<Count>
    const buffer: array<Byte>
    const state: array<Word>
    ghost var fed: seq<Byte>   // everything passed to Update so far

    // The counter holds 8 * n modulo 2^64.
    ghost predicate Counts(n: nat)
      reads count
    {
      count.Length == 2 && count[0] == 8 * n % WORD && count[1] == 8 * n / WORD % WORD
    }

    // The state is the fold over all complete blocks of the data.
    ghost predicate Absorbed(data: seq<Byte>)
      reads state
    {
      state.Length == 4 && FromSeq(state[..]) == Absorb(transform, INITIAL, data)
    }

    // n blocks are absorbed and the rest of the input is in the buffer.
    ghost predicate Holds(n: nat)
      reads this, buffer, state
    {
      && buffer.Length == 64
      && 64 * n <= |fed| < 64 * n + 64
      && Absorbed(fed)
      && buffer[..|fed| - 64 * n] == fed[64 * n..]
    }

    ghost predicate Valid()
      reads this, count, buffer, state
    {
      Counts(|fed|) && Holds(|fed| / 64)
    }

    constructor Init(ghost f: (Regs, Block) -> Regs)
      ensures Valid() && fed == [] && transform == f
      ensures fresh(count) && fresh(buffer) && fresh(state)
    {
      transform := f;
      count := new Count[2](_ => 0);
      buffer := new Byte[64];
      state := new Word[4] [0x67452301, 0xefcdab89, 0x98badcfe, 0x10325476];
      fed := [];
    }

    // The first statements of MD5Update: add len bytes to the bit counter.
    method CountBytes(len: nat, ghost n: nat)
      requires Counts(n) && len < WORD
      modifies count
      ensures Counts(n + len)
    {
      CounterAdvances(n, len);
      var added := 8 * len % WORD;
      count[0] := (count[0] + added) % WORD;
      if count[0] < added {
        count[1] := (count[1] + 1) % WORD;
      }
      count[1] := (count[1] + len / 0x2000_0000) % WORD;
    }

    // (count[0] >> 3) & 0x3F
    method Index() returns (index: nat)
      requires Counts(|fed|)
      ensures index == |fed| % 64
    {
      BufferIndex(|fed|);
      index := count[0] / 8 % 64;
    }

    method Update(input: seq<Byte>)
      requires Valid() && Compresses(transform)
      requires |input| < WORD && LoopIndexFits(|fed| % 64, |input|)
      modifies this, count, buffer, state
      ensures Valid() && fed == old(fed) + input
    {
      ghost var before, n := fed, |fed| / 64;
      var index := Index();
      CountBytes(|input|, |fed|);
      fed := fed + input;
      ghost var counted := |fed|;
      assert Counts(counted);
      if |input| >= 64 - index {
        var i, m := AbsorbInput(input, index, before, n);
        KeepRest(0, input[i..], m);
      } else {
        NoBlock(transform, INITIAL, before, input, n);
        assert buffer[..index] + input == fed[64 * n..];
        KeepRest(index, input, n);
      }
      assert Counts(counted);
    }

    // The last statement of MD5Update: the rest of the input goes to the buffer.
    method KeepRest(at: nat, rest: seq<Byte>, ghost m: nat)
      requires buffer.Length == 64 && |fed| == 64 * m + at + |rest| < 64 * m + 64
      requires buffer[..at] + rest == fed[64 * m..]
      requires Absorbed(fed)
      modifies buffer
      ensures Holds(|fed| / 64)
    {
      Memcpy(buffer, at, rest);
      DivMod64(|fed|, m, at + |rest|);
    }

    // The branch that completes the buffered block; m blocks are absorbed when it ends.
    method AbsorbInput(input: seq<Byte>, index: nat, ghost before: seq<Byte>, ghost n: nat)
      returns (i: nat, ghost m: nat)
      requires buffer.Length == 64 && fed == before + input && |before| == 64 * n + index
      requires index < 64 <= index + |input| && |input| < WORD && LoopIndexFits(index, |input|)
      requires Absorbed(before) && Compresses(transform)
      requires buffer[..index] == before[64 * n..]
      modifies state, buffer
      ensures i <= |input| && |fed| == 64 * m + (|input| - i) < 64 * m + 64
      ensures input[i..] == fed[64 * m..]
      ensures Absorbed(fed)
    {
      var partlen := 64 - index;
      Memcpy(buffer, index, input[..partlen]);
      assert buffer[..] == before[64 * n..] + input[..partlen];
      FirstBlock(transform, INITIAL, before, input, n);
      Transform(state, buffer[..], transform);
      i, m := AbsorbBlocks(input, partlen, n, index);
      Leftover(transform, INITIAL, fed, m);
    }

    // The block loop of MD5Update; m blocks are absorbed when it ends.
    method AbsorbBlocks(input: seq<Byte>, start: nat, ghost n: nat, ghost index: nat) returns (i: nat, ghost m: nat)
      requires index < 64 && start == 64 - index <= |input| < WORD && LoopIndexFits(index, |input|)
      requires |fed| == 64 * n + index + |input| && fed[64 * n + index..] == input
      requires Absorbed(fed[..64 * n + 64]) && Compresses(transform)
      modifies state
      ensures i <= |input| < i + 64 && 64 * n + index + i == 64 * m
      ensures Absorbed(fed[..64 * m])
    {
      i, m := start, n + 1;
      LoopTestFits(index, |input|, i, 1);
      while (i + 64) % WORD <= |input|
        invariant i <= |input| && 64 * n + index + i == 64 * m
        invariant (i + 64) % WORD == i + 64
        invariant Absorbed(fed[..64 * m])
        decreases |input| - i
      {
        NextBlock(transform, INITIAL, fed, m);
        SliceOfSlice(fed, 64 * n + index, input, i);
        Transform(state, input[i..i + 64], transform);
        i, m := i + 64, m + 1;
        LoopTestFits(index, |input|, i, m - n);
      }
    }

    // The first statements of MD5Final: after them the padded message is fed.
    method Pad()
      requires Valid() && Compresses(transform)
      modifies this, count, buffer, state
      ensures Valid() && fed == Padded(old(fed))
    {
      ghost var n := |fed|;
      var index := Index();
      var padlen := if index < 56 then 56 - index else 120 - index;
      var bits := EncodedCount();
      PaddingPrefix(n, padlen);
      Update(PADDING[..padlen]);
      Update(bits);
    }

    method EncodedCount() returns (bits: seq<Byte>)
      requires Counts(|fed|)
      ensures bits == LengthField(|fed|)
    {
      var output := new Byte[8];
      var words := [ToWord(count[0]), ToWord(count[1])];
      assert words[..2] == words;
      MD5Encode(output, words, 8);
      bits := output[..8];
    }
  }

  lemma PaddingPrefix(n: nat, padlen: nat)
    requires padlen == if n % 64 < 56 then 56 - n % 64 else 120 - n % 64
    ensures 0 < padlen <= 64 && (n + padlen) % 64 == 56
    ensures PADDING[..padlen] == PadBytes(n)
  {
  }

  // MD5Final: pad, then encode the four words of the state.
  method MD5Final(context: Stream, digest: array<Byte>)
    requires context.Valid() && digest != context.buffer && digest.Length == 16
    requires context.transform == Compress
    modifies context, context.count, context.buffer, context.state, digest
    ensures digest[..] == Digest(old(context.fed))
  {
    context.Pad();
    MD5Encode(digest, context.state[..], 16);
    assert context.state[..][..4] == context.state[..];
    assert digest[..] == digest[..16];
  }

  // All pieces, one after the other.
  function Concat(pieces: seq<seq<Byte>>): seq<Byte> {
    if pieces == [] then [] else Concat(pieces[..|pieces| - 1]) + pieces[|pieces| - 1]
  }

  // However a message is split into updates, MD5Init, the updates and MD5Final
  // yield the digest that RFC 1321 defines for the whole message.
  method DigestInPieces(pieces: seq<seq<Byte>>) returns (digest: seq<Byte>)
    requires forall i :: 0 <= i < |pieces| ==> |pieces[i]| < WORD - 64
    ensures digest == Digest(Concat(pieces))
  {
    var context := new Stream.Init(Compress);
    for i := 0 to |pieces|
      invariant context.Valid() && context.transform == Compress && context.fed == Concat(pieces[..i])
      invariant fresh(context) && fresh(context.count) && fresh(context.buffer) && fresh(context.state)
    {
      ShortInputFits(|context.fed| % 64, |pieces[i]|);
      assert pieces[..i + 1][..i] == pieces[..i];
      context.Update(pieces[i]);
    }
    assert pieces[..|pieces|] == pieces;
    var output := new Byte[16];
    MD5Final(context, output);
    digest := output[..];
  }
}
