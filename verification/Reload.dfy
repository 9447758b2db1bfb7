// res_ip_reload in ac/resource.c: from a start, an end and a mask to the pool.
module Reload {
  import ByteOrder
  import opened Common
  import opened List
  import opened PoolModel
  import opened IpPool
  import opened Words

  // ---- the machine operations --------------------------------------------

  function And(x: nat, y: nat): (r: nat)
    ensures r <= y
  {
    if x == 0 || y == 0 then 0
    else 2 * And(x / 2, y / 2) + (if x % 2 == 1 && y % 2 == 1 then 1 else 0)
  }

  function Not(x: Addr): Addr { WORD - 1 - x }

  function Pow2(b: nat): (p: nat)
    ensures p > 0
  {
    if b == 0 then 1 else 2 * Pow2(b - 1)
  }

  // Conversion of an unsigned to an int of 32 bits.
  function ToInt(x: int): int {
    var w := x % WORD;
    if w < WORD / 2 then w else w - WORD
  }

  // htonl: ByteOrder.Htonl or the identity, depending on the host.
  // All that matters here is that it maps different addresses to different ones.
  ghost predicate Injective(htonl: Addr -> Addr) {
    forall x, y :: htonl(x) == htonl(y) ==> x == y
  }

  lemma HostsLoadOnce()
    ensures Injective(ByteOrder.Htonl) && Injective((w: Addr) => w)
  {
    ByteOrder.HtonlInjective();
  }

  // ---- host parts ----------------------------------------------------------

  // The last b binary digits of x.
  function Low(x: nat, b: nat): (l: nat)
    ensures l < Pow2(b) && l <= x
  {
    if b == 0 then 0 else 2 * Low(x / 2, b - 1) + x % 2
  }

  // The other digits.
  function Network(x: nat, b: nat): nat { x - Low(x, b) }

  // The mask with b host bits.
  function Mask(b: nat): Addr
    requires Pow2(b) <= WORD
  {
    WORD - Pow2(b)
  }

  // x & ~mask is the host part of x.
  lemma {:induction false} AndHostBits(x: nat, b: nat)
    ensures And(x, Pow2(b) - 1) == Low(x, b)
  {
    if b > 0 {
      var p := Pow2(b - 1);
      assert (2 * p - 1) / 2 == p - 1 && (2 * p - 1) % 2 == 1;
      AndHostBits(x / 2, b - 1);
      if x == 0 { LowOfZero(b); }
    }
  }

  lemma {:induction false} LowOfZero(b: nat)
    ensures Low(0, b) == 0
  {
  }

  // Adding a host number to a network address does not carry into the network
  // bits.
  lemma {:induction false} NoCarry(x: nat, b: nat, h: nat)
    requires h < Pow2(b)
    ensures Low(Network(x, b) + h, b) == h
  {
    if b > 0 {
      var y := Network(x, b) + h;
      assert y == 2 * (x / 2 - Low(x / 2, b - 1)) + h;
      assert y / 2 == x / 2 - Low(x / 2, b - 1) + h / 2 && y % 2 == h % 2;
      NoCarry(x / 2, b - 1, h / 2);
    }
  }

  // ---- what a reload loads -------------------------------------------------

  // The number of addresses that the code arrives at from the two host parts and
  // the inverted mask, in 32-bit arithmetic.
  function Count(hs: Addr, he: Addr, hostMask: Addr): (n: nat)
    ensures n < WORD / 2
  {
    var n := (he - hs + 1) % WORD;
    var skipped := (if hs == 0 then 1 else 0) + (if he == hostMask then 1 else 0);
    if 0 < n < WORD / 2 && skipped <= n then n - skipped else 0
  }

  // The i-th address from the given one on, with the wrap-around of an unsigned.
  function Nth(first: Addr, i: nat): Addr
    requires i < WORD
  {
    if first + i < WORD then first + i else first + i - WORD
  }

  function First(start: Addr, hs: Addr): Addr { if hs == 0 then Nth(start, 1) else start }

  // n addresses from the given one on, in network byte order.
  function Addresses(htonl: Addr -> Addr, first: Addr, n: nat): (s: seq<Addr>)
    requires n <= WORD
    ensures |s| == n
  {
    seq<Addr>(n, i requires 0 <= i < n => htonl(Nth(first, i)))
  }

  // For any start, end and mask.
  function Loaded(htonl: Addr -> Addr, start: Addr, end: Addr, mask: Addr): seq<Addr> {
    var hs, he := And(start, Not(mask)), And(end, Not(mask));
    Addresses(htonl, First(start, hs), Count(hs, he, Not(mask)))
  }

  lemma AddressesDistinct(htonl: Addr -> Addr, first: Addr, n: nat)
    requires n <= WORD && Injective(htonl)
    ensures Distinct(Addresses(htonl, first, n))
  {
    var s := Addresses(htonl, first, n);
    forall i, j | 0 <= i < j < n
      ensures s[i] != s[j]
    {
      assert Nth(first, i) != Nth(first, j);
    }
  }

  // No address is loaded twice.
  lemma LoadedOnce(htonl: Addr -> Addr, start: Addr, end: Addr, mask: Addr)
    requires Injective(htonl)
    ensures Distinct(Loaded(htonl, start, end, mask))
  {
    var hs, he := And(start, Not(mask)), And(end, Not(mask));
    AddressesDistinct(htonl, First(start, hs), Count(hs, he, Not(mask)));
  }

  // ---- contiguous masks ------------------------------------------------------

  // The whole subnet of x lies below 2^c.
  lemma {:induction false} NetworkRoom(x: nat, b: nat, c: nat)
    requires b <= c && x < Pow2(c)
    ensures x - Low(x, b) + Pow2(b) <= Pow2(c)
  {
    if b > 0 { NetworkRoom(x / 2, b - 1, c - 1); }
  }

  lemma {:induction false} Pow2Grows(b: nat, c: nat)
    requires b <= c
    ensures Pow2(b) <= Pow2(c)
  {
    if b < c { Pow2Grows(b, c - 1); }
  }

  lemma WordIsPow2()
    ensures Pow2(32) == WORD
  {
    assert Pow2(8) == 256;
    assert Pow2(16) == 65536;
    assert Pow2(24) == 16777216;
  }

  // h is a host number of the configured range, other than those of the network
  // and broadcast addresses.
  ghost predicate InRange(h: nat, hs: nat, he: nat, b: nat) {
    hs <= h <= he && 0 < h < Pow2(b) - 1
  }

  // The address of such a host number, in network byte order.
  ghost predicate Configured(htonl: Addr -> Addr, net: nat, hs: nat, he: nat, b: nat, a: Addr)
    requires net + Pow2(b) <= WORD
  {
    exists h: nat :: InRange(h, hs, he, b) && htonl(net + h) == a
  }

  lemma SubnetFits(x: Addr, b: nat)
    requires b <= 32 && Pow2(b) <= WORD
    ensures And(x, Not(Mask(b))) == Low(x, b) < Pow2(b) == Not(Mask(b)) + 1
    ensures x - Low(x, b) + Pow2(b) <= WORD
  {
    AndHostBits(x, b);
    WordIsPow2();
    NetworkRoom(x, b, 32);
  }

  // Up to 31 host bits, and for ascending ranges always: the host numbers from
  // max(hs, 1) to min(he, 2^b - 2), unless the range has 2^31 addresses or more.
  lemma CountAscending(hs: Addr, he: Addr, b: nat)
    requires b <= 32 && hs < Pow2(b) <= WORD && he < Pow2(b) && (hs <= he || Pow2(b) <= WORD / 2)
    ensures var first, last := if hs == 0 then 1 else hs, if he == Pow2(b) - 1 then he - 1 else he;
            Count(hs, he, Pow2(b) - 1) ==
              if hs <= he && he - hs + 1 < WORD / 2 && first <= last then last - first + 1 else 0
  {
    if hs <= he {
      DivMod(he - hs + 1, if he - hs + 1 == WORD then 1 else 0, (he - hs + 1) % WORD);
    } else {
      assert (he - hs + 1) % WORD == if he - hs + 1 == 0 then 0 else he - hs + 1 + WORD;
    }
  }

  lemma HostNumber(net: nat, hs: Addr, he: Addr, b: nat, n: nat, i: nat)
    requires b <= 32 && net + Pow2(b) <= WORD && hs < Pow2(b) && he < Pow2(b) && i < n
    requires var first, last := if hs == 0 then 1 else hs, if he == Pow2(b) - 1 then he - 1 else he;
             n == if first <= last then last - first + 1 else 0
    ensures var h := (if hs == 0 then 1 else hs) + i;
            InRange(h, hs, he, b) && net + h < WORD && Nth(First(net + hs, hs), i) == net + h
  {
  }

  lemma RangeExactly(htonl: Addr -> Addr, net: nat, hs: Addr, he: Addr, b: nat, n: nat, a: Addr)
    requires b <= 32 && net + Pow2(b) <= WORD && hs < Pow2(b) && he < Pow2(b)
    requires var first, last := if hs == 0 then 1 else hs, if he == Pow2(b) - 1 then he - 1 else he;
             n == if first <= last then last - first + 1 else 0
    ensures a in Addresses(htonl, First(net + hs, hs), n) <==> Configured(htonl, net, hs, he, b, a)
  {
    var s := Addresses(htonl, First(net + hs, hs), n);
    if a in s {
      var i :| 0 <= i < n && s[i] == a;
      HostNumber(net, hs, he, b, n, i);
      var h := (if hs == 0 then 1 else hs) + i;
      assert InRange(h, hs, he, b) && htonl(net + h) == a;
    }
    if Configured(htonl, net, hs, he, b, a) {
      var h: nat :| InRange(h, hs, he, b) && htonl(net + h) == a;
      var i := h - if hs == 0 then 1 else hs;
      HostNumber(net, hs, he, b, n, i);
      assert s[i] == a;
    }
  }

  lemma RangeOrNothing(htonl: Addr -> Addr, net: nat, hs: Addr, he: Addr, b: nat, n: nat, a: Addr)
    requires b <= 32 && net + Pow2(b) <= WORD && hs < Pow2(b) && he < Pow2(b)
    requires var first, last := if hs == 0 then 1 else hs, if he == Pow2(b) - 1 then he - 1 else he;
             n == if hs <= he && he - hs + 1 < WORD / 2 && first <= last then last - first + 1 else 0
    ensures a in Addresses(htonl, First(net + hs, hs), n) <==>
            he - hs + 1 < WORD / 2 && Configured(htonl, net, hs, he, b, a)
  {
    if he - hs + 1 < WORD / 2 {
      RangeExactly(htonl, net, hs, he, b, n, a);
    }
  }

  lemma HalfOfWord(b: nat)
    requires b <= 31
    ensures Pow2(b) <= WORD / 2
  {
    Pow2Grows(b, 31);
    WordIsPow2();
  }

  lemma LoadedRange(htonl: Addr -> Addr, start: Addr, end: Addr, b: nat) returns (net: nat, hs: Addr, he: Addr, n: nat)
    requires b <= 32 && Pow2(b) <= WORD && (Low(start, b) <= Low(end, b) || b <= 31)
    ensures hs == Low(start, b) < Pow2(b) && he == Low(end, b) < Pow2(b) && net == start - hs && net + Pow2(b) <= WORD
    ensures n < WORD && Loaded(htonl, start, end, Mask(b)) == Addresses(htonl, First(net + hs, hs), n)
    ensures var first, last := if hs == 0 then 1 else hs, if he == Pow2(b) - 1 then he - 1 else he;
            n == if hs <= he && he - hs + 1 < WORD / 2 && first <= last then last - first + 1 else 0
  {
    SubnetFits(start, b);
    SubnetFits(end, b);
    if b <= 31 { HalfOfWord(b); }
    CountAscending(Low(start, b), Low(end, b), b);
    hs, he := Low(start, b), Low(end, b);
    net, n := start - hs, Count(hs, he, Pow2(b) - 1);
  }

  lemma LoadedHosts(htonl: Addr -> Addr, start: Addr, end: Addr, b: nat, a: Addr) returns (net: nat, hs: Addr, he: Addr)
    requires b <= 32 && Pow2(b) <= WORD && (Low(start, b) <= Low(end, b) || b <= 31)
    ensures net == Network(start, b) && hs == Low(start, b) && he == Low(end, b) && net + Pow2(b) <= WORD
    ensures a in Loaded(htonl, start, end, Mask(b)) <==> he - hs + 1 < WORD / 2 && Configured(htonl, net, hs, he, b, a)
  {
    var n;
    net, hs, he, n := LoadedRange(htonl, start, end, b);
    RangeOrNothing(htonl, net, hs, he, b, n, a);
  }

  // x is in the network of start, and its host number in the range.
  ghost predicate Usable(x: Addr, start: Addr, end: Addr, b: nat) {
    Network(x, b) == Network(start, b) && InRange(Low(x, b), Low(start, b), Low(end, b), b)
  }

  // a is such an address in network byte order.
  ghost predicate InSubnet(htonl: Addr -> Addr, start: Addr, end: Addr, b: nat, a: Addr) {
    exists x: Addr :: Usable(x, start, end, b) && htonl(x) == a
  }

  lemma HostIsUsable(start: Addr, end: Addr, b: nat, h: nat)
    requires InRange(h, Low(start, b), Low(end, b), b) && Network(start, b) + Pow2(b) <= WORD
    ensures Usable(Network(start, b) + h, start, end, b)
  {
    NoCarry(start, b, h);
  }

  lemma HostInSubnet(htonl: Addr -> Addr, start: Addr, end: Addr, b: nat, a: Addr)
    requires Network(start, b) + Pow2(b) <= WORD
    requires Configured(htonl, Network(start, b), Low(start, b), Low(end, b), b, a)
    ensures InSubnet(htonl, start, end, b, a)
  {
    var h: nat :| InRange(h, Low(start, b), Low(end, b), b) && htonl(Network(start, b) + h) == a;
    HostIsUsable(start, end, b, h);
    var x: Addr := Network(start, b) + h;
    assert Usable(x, start, end, b) && htonl(x) == a;
  }

  lemma SubnetHost(htonl: Addr -> Addr, start: Addr, end: Addr, b: nat, a: Addr)
    requires Network(start, b) + Pow2(b) <= WORD && InSubnet(htonl, start, end, b, a)
    ensures Configured(htonl, Network(start, b), Low(start, b), Low(end, b), b, a)
  {
    var x: Addr :| Usable(x, start, end, b) && htonl(x) == a;
    HostConfigured(htonl, Network(start, b), Low(start, b), Low(end, b), b, Low(x, b), x);
  }

  lemma HostConfigured(htonl: Addr -> Addr, net: nat, hs: Addr, he: Addr, b: nat, h: nat, x: Addr)
    requires net + Pow2(b) <= WORD && InRange(h, hs, he, b) && x == net + h
    ensures Configured(htonl, net, hs, he, b, htonl(x))
  {
  }

  // These addresses, and no others, are loaded if the range ascends and has fewer
  // than 2^31 addresses.  Up to 31 host bits any other range loads nothing.
  lemma LoadedExactly(htonl: Addr -> Addr, start: Addr, end: Addr, b: nat, a: Addr)
    requires b <= 32 && Pow2(b) <= WORD && (Low(start, b) <= Low(end, b) || b <= 31)
    ensures a in Loaded(htonl, start, end, Mask(b)) <==>
            Low(end, b) - Low(start, b) + 1 < WORD / 2 && InSubnet(htonl, start, end, b, a)
  {
    var net, hs, he := LoadedHosts(htonl, start, end, b, a);
    if InSubnet(htonl, start, end, b, a) {
      SubnetHost(htonl, start, end, b, a);
    }
    if Configured(htonl, net, hs, he, b, a) {
      HostInSubnet(htonl, start, end, b, a);
    }
  }

  lemma CountDescending(hs: Addr, he: Addr)
    requires he < hs
    ensures Count(hs, he, WORD - 1) == if hs - he - 1 > WORD / 2 then he + WORD - hs + 1 else 0
  {
    assert (he - hs + 1) % WORD == if hs == he + 1 then 0 else he - hs + 1 + WORD;
  }

  lemma RangeAround(htonl: Addr -> Addr, start: Addr, end: Addr, a: Addr)
    requires end < start
    ensures a in Addresses(htonl, start, end + WORD - start + 1) <==>
            exists h: Addr :: (h >= start || h <= end) && htonl(h) == a
  {
    var s := Addresses(htonl, start, end + WORD - start + 1);
    forall h: Addr | h >= start || h <= end
      ensures htonl(h) in s
    {
      var i := if h >= start then h - start else h + WORD - start;
      assert Nth(start, i) == h && s[i] == htonl(h);
    }
    if a in s {
      var i :| 0 <= i < |s| && s[i] == a;
      assert a == htonl(Nth(start, i)) && (Nth(start, i) >= start || Nth(start, i) <= end);
    }
  }

  // With the mask 0 a descending range loads what lies outside it, if that is
  // fewer than 2^31 addresses, and nothing otherwise.
  lemma DescendingLoaded(htonl: Addr -> Addr, start: Addr, end: Addr, a: Addr)
    requires end < start
    ensures a in Loaded(htonl, start, end, 0) <==>
            start - end - 1 > WORD / 2 && exists h: Addr :: (h >= start || h <= end) && htonl(h) == a
  {
    WordIsPow2();
    AndHostBits(start, 32);
    AndHostBits(end, 32);
    AllLow(start, 32);
    AllLow(end, 32);
    CountDescending(start, end);
    if start - end - 1 > WORD / 2 {
      RangeAround(htonl, start, end, a);
    }
  }

  lemma {:induction false} AllLow(x: nat, b: nat)
    requires x < Pow2(b)
    ensures Low(x, b) == x
  {
    if b > 0 { AllLow(x / 2, b - 1); }
  }

  // ---- the code --------------------------------------------------------------

  // When the signed range check passes: for ascending ranges of fewer than 2^31
  // addresses, and for descending ones whose difference wraps around to that.
  lemma RangeCheck(hs: Addr, he: Addr)
    ensures ToInt(he - hs + 1) > 0 <==> if hs <= he then he - hs + 1 < WORD / 2 else hs - he - 1 > WORD / 2
    ensures ToInt(he - hs + 1) > 0 ==> ToInt(he - hs + 1) == (he - hs + 1) % WORD
  {
    var d := he - hs + 1;
    assert d % WORD == if d == WORD then 0 else if d >= 0 then d else d + WORD;
  }

  // The address and number of entries that the arithmetic of res_ip_reload
  // arrives at; num is not positive when there is nothing to load.
  method LoadRange(start: Addr, end: Addr, mask: Addr) returns (first: Addr, num: int)
    ensures var hs, he := And(start, Not(mask)), And(end, Not(mask));
            && Count(hs, he, Not(mask)) == (if num > 0 then num else 0)
            && (num > 0 ==> first == First(start, hs))
  {
    var hostMask := Not(mask);
    var hostStart, hostEnd := And(start, hostMask), And(end, hostMask);
    RangeCheck(hostStart, hostEnd);
    first := start;
    num := ToInt(hostEnd as int - hostStart as int + 1);
    if num <= 0 {
      return;
    }
    if hostStart == 0 {
      first := (first + 1) % WORD;
      num := num - 1;
    }
    if hostEnd == hostMask {
      num := num - 1;
    }
  }

  // The addresses for which the i-th calloc succeeds.
  function Kept(s: seq<Addr>, memory: nat -> bool): (r: seq<Addr>)
    ensures |r| <= |s| && forall a :: a in r ==> a in s
    ensures (forall i :: 0 <= i < |s| ==> memory(i)) ==> r == s
  {
    if s == [] then []
    else
      var n := |s| - 1;
      Kept(s[..n], memory) + if memory(n) then [s[n]] else []
  }

  // For any start, end and mask; `memory` says which calloc succeeds.
  method IpReload(pool: Pool, start: Addr, end: Addr, mask: Addr, htonl: Addr -> Addr, memory: nat -> bool)
    requires pool.Valid() && pool.view == EMPTY && Injective(htonl)
    modifies pool, Nodes(pool.poolRing)
    ensures pool.Valid() && pool.view == View(Kept(Loaded(htonl, start, end, mask), memory), [])
    ensures pool.left == pool.total == |pool.view.free|
  {
    var first, num := LoadRange(start, end, mask);
    AddAll(pool, first, num, htonl, memory);
    assert num <= 0 ==> Loaded(htonl, start, end, mask) == [];
  }

  // i addresses from the first on have been tried.
  ghost predicate Tried(v: View, htonl: Addr -> Addr, first: Addr, i: nat, memory: nat -> bool) {
    i < WORD && v == View(Kept(Addresses(htonl, first, i), memory), [])
  }

  lemma NextAddress(v: View, htonl: Addr -> Addr, first: Addr, i: nat, memory: nat -> bool)
    requires Tried(v, htonl, first, i, memory) && i + 1 < WORD && Injective(htonl)
    ensures !Known(v, htonl(Nth(first, i)))
    ensures Tried(if memory(i) then Add(v, htonl(Nth(first, i))) else v, htonl, first, i + 1, memory)
  {
    var before, s := Addresses(htonl, first, i), Addresses(htonl, first, i + 1);
    AddressesDistinct(htonl, first, i + 1);
    assert s[..i] == before && s[i] !in before by {
      assert forall k :: 0 <= k < i ==> before[k] == s[k];
    }
  }

  lemma FollowingAddress(first: Addr, i: nat)
    requires i + 1 < WORD
    ensures (Nth(first, i) + 1) % WORD == Nth(first, i + 1)
  {
  }

  // The call of res_ip_add in that loop.
  method AddNext(pool: Pool, htonl: Addr -> Addr, ghost first: Addr, i: nat, addr: Addr, memory: nat -> bool)
    requires pool.Valid() && Tried(pool.view, htonl, first, i, memory) && Injective(htonl)
    requires i + 1 < WORD && addr == Nth(first, i)
    modifies pool, Nodes(pool.poolRing)
    ensures pool.Valid() && Tried(pool.view, htonl, first, i + 1, memory)
    ensures pool.allocRing == old(pool.allocRing)
    ensures fresh(Nodes(pool.poolRing) - old(Nodes(pool.poolRing)))
  {
    NextAddress(pool.view, htonl, first, i, memory);
    var ret := pool.IpAdd(htonl(addr), memory(i));
  }

  // The loop of res_ip_reload.
  method AddAll(pool: Pool, first: Addr, num: int, htonl: Addr -> Addr, memory: nat -> bool)
    requires pool.Valid() && pool.view == EMPTY && Injective(htonl) && num < WORD / 2
    modifies pool, Nodes(pool.poolRing)
    ensures pool.Valid()
    ensures Tried(pool.view, htonl, first, if num > 0 then num else 0, memory)
  {
    var addr: Addr := first;
    var i := 0;
    while i < num
      invariant 0 <= i && (num > 0 ==> i <= num) && (num <= 0 ==> i == 0)
      invariant i < WORD / 2 && addr == Nth(first, i)
      invariant pool.Valid() && pool.allocRing == old(pool.allocRing)
      invariant fresh(Nodes(pool.poolRing) - old(Nodes(pool.poolRing)))
      invariant Tried(pool.view, htonl, first, i, memory)
    {
      AddNext(pool, htonl, first, i, addr, memory);
      FollowingAddress(first, i);
      i := i + 1;
      addr := (addr + 1) % WORD;
    }
  }
}
