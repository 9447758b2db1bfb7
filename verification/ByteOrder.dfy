// htonl on a host that stores the low-order byte first.
module ByteOrder {
  import opened PoolModel

  function Htonl(w: Addr): Addr {
    Join(w / 256 / 256 / 256, w / 256 / 256 % 256, w / 256 % 256, w % 256)
  }

  function Join(p: nat, q: nat, r: nat, s: nat): nat {
    p + 256 * (q + 256 * (r + 256 * s))
  }

  lemma SplitJoin(p: nat, q: nat, r: nat, s: nat)
    requires p < 256 && q < 256 && r < 256 && s < 256
    ensures var w := Join(p, q, r, s);
            && w < 0x1_0000_0000 && w % 256 == p
            && w / 256 % 256 == q && w / 256 / 256 % 256 == r && w / 256 / 256 / 256 == s
  {
    var y := r + 256 * s;
    var x := q + 256 * y;
    assert x / 256 == y && x % 256 == q;
    assert (p + 256 * x) / 256 == x;
  }

  lemma JoinSplit(w: nat)
    ensures Join(w % 256, w / 256 % 256, w / 256 / 256 % 256, w / 256 / 256 / 256) == w
  {
  }

  lemma HtonlTwice(w: Addr)
    ensures Htonl(Htonl(w)) == w
  {
    SplitJoin(w / 256 / 256 / 256, w / 256 / 256 % 256, w / 256 % 256, w % 256);
    JoinSplit(w);
  }

  // The four bytes stand in the opposite order.
  lemma HtonlSwaps(p: nat, q: nat, r: nat, s: nat)
    requires p < 256 && q < 256 && r < 256 && s < 256
    ensures p + 256 * q + 65536 * r + 16777216 * s < 0x1_0000_0000
    ensures Htonl(p + 256 * q + 65536 * r + 16777216 * s) == s + 256 * r + 65536 * q + 16777216 * p
  {
    SplitJoin(p, q, r, s);
  }

  lemma HtonlInjective()
    ensures forall x, y :: Htonl(x) == Htonl(y) ==> x == y
  {
    forall x, y | Htonl(x) == Htonl(y)
      ensures x == y
    {
      HtonlTwice(x);
      HtonlTwice(y);
    }
  }
}
