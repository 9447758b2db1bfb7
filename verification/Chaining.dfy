// Folding a compression function over the 64-byte blocks of a byte string.
module Chaining {
  import opened Words

  type Block = b: seq<Byte> | |b| == 64 witness seq(64, _ => 0)

  // All complete blocks of the data, in order; an incomplete last one is ignored.
  function Absorb<S>(f: (S, Block) -> S, r: S, data: seq<Byte>): S
    decreases |data|
  {
    if |data| < 64 then r else Absorb(f, f(r, data[..64]), data[64..])
  }

  // The lemmas below count whole blocks: data[..64 * n] is the first n of them.

  lemma {:induction false} AbsorbAppend<S>(f: (S, Block) -> S, r: S, a: seq<Byte>, b: seq<Byte>, n: nat)
    requires |a| == 64 * n
    ensures Absorb(f, r, a + b) == Absorb(f, Absorb(f, r, a), b)
    decreases n
  {
    if n == 0 {
      assert a + b == b;
    } else {
      assert (a + b)[..64] == a[..64];
      assert (a + b)[64..] == a[64..] + b;
      AbsorbAppend(f, f(r, a[..64]), a[64..], b, n - 1);
    }
  }

  lemma NextBlock<S>(f: (S, Block) -> S, r: S, data: seq<Byte>, n: nat)
    requires 64 * n + 64 <= |data|
    ensures Absorb(f, r, data[..64 * n + 64]) == f(Absorb(f, r, data[..64 * n]), data[64 * n..64 * n + 64])
  {
    var k := 64 * n;
    var s, block := Absorb(f, r, data[..k]), data[k..k + 64];
    assert data[..k + 64] == data[..k] + block;
    AbsorbAppend(f, r, data[..k], block, n);
    assert block[..64] == block;
    assert Absorb(f, s, block) == Absorb(f, f(s, block), block[64..]);
  }

  lemma Leftover<S>(f: (S, Block) -> S, r: S, data: seq<Byte>, n: nat)
    requires 64 * n <= |data| < 64 * n + 64
    ensures Absorb(f, r, data) == Absorb(f, r, data[..64 * n])
  {
    assert data == data[..64 * n] + data[64 * n..];
    AbsorbAppend(f, r, data[..64 * n], data[64 * n..], n);
  }

  lemma Across(a: seq<Byte>, b: seq<Byte>, from: nat, to: nat)
    requires from <= |a| <= to <= |a| + |b|
    ensures (a + b)[..from] == a[..from]
    ensures (a + b)[from..to] == a[from..] + b[..to - |a|]
  {
  }

  // A partly filled buffer, completed by the first bytes of the input.
  lemma FirstBlock<S>(f: (S, Block) -> S, r: S, fed: seq<Byte>, input: seq<Byte>, n: nat)
    requires 64 * n <= |fed| < 64 * n + 64 <= |fed| + |input|
    ensures Absorb(f, r, (fed + input)[..64 * n + 64])
         == f(Absorb(f, r, fed), fed[64 * n..] + input[..64 * n + 64 - |fed|])
  {
    var k := 64 * n;
    NextBlock(f, r, fed + input, n);
    Leftover(f, r, fed, n);
    Across(fed, input, k, k + 64);
  }

  // Too little input to complete a block changes nothing.
  lemma NoBlock<S>(f: (S, Block) -> S, r: S, fed: seq<Byte>, input: seq<Byte>, n: nat)
    requires 64 * n <= |fed| && |fed| + |input| < 64 * n + 64
    ensures Absorb(f, r, fed + input) == Absorb(f, r, fed)
  {
    Leftover(f, r, fed + input, n);
    Leftover(f, r, fed, n);
    assert (fed + input)[..64 * n] == fed[..64 * n];
  }
}
