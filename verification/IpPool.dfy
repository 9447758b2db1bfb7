// ac/resource.c: the address pool on top of the intrusive lists.
module IpPool {
  import opened Common
  import opened List
  import opened PoolModel

  // struct _ip_t; its link is the list node that carries it.
  datatype Ip = Ip(apmac: Mac, ipv4: Addr)

  // The entries of the ring, from the first on, carry these addresses.
  ghost predicate CarriesFree(ring: seq<Node<Ip>>, free: seq<Addr>)
    reads ring`data
  {
    |ring| == |free| + 1 && forall i :: 0 <= i < |free| ==> ring[i + 1].data.ipv4 == free[i]
  }

  ghost predicate CarriesHeld(ring: seq<Node<Ip>>, held: seq<Lease>)
    reads ring`data
  {
    |ring| == |held| + 1 && forall i :: 0 <= i < |held| ==> ring[i + 1].data == Ip(held[i].mac, held[i].addr)
  }

  predicate Wish(addr: Option<Addr>) { addr.Some? && addr.value != 0 }

  // Position of the first entry of a ring with the address, or the ring's length;
  // the loop is list_for_each_entry.
  method Find(head: Node<Ip>, addr: Addr, ghost ring: seq<Node<Ip>>) returns (pos: Node<Ip>, ghost k: nat)
    requires IsRing(ring) && head == ring[0]
    ensures 1 <= k <= |ring| && pos == if k < |ring| then ring[k] else head
    ensures forall i :: 1 <= i < k ==> ring[i].data.ipv4 != addr
    ensures k < |ring| ==> ring[k].data.ipv4 == addr
  {
    pos := head.next;
    k := 1;
    while pos != head
      invariant 1 <= k <= |ring| && pos == if k < |ring| then ring[k] else head
      invariant forall i :: 1 <= i < k ==> ring[i].data.ipv4 != addr
      decreases |ring| - k
    {
      if pos.data.ipv4 == addr {
        return;
      }
      pos := pos.next;
      k := k + 1;
    }
  }

  // list_add_tail of a new entry, as the free list sees it.
  method AddFree(ip: Node<Ip>, head: Node<Ip>, ghost ring: seq<Node<Ip>>, ghost free: seq<Addr>)
    requires IsRing(ring) && head == ring[0] && ip !in ring && CarriesFree(ring, free)
    modifies ip`next, ip`prev, Nodes(ring)`next, Nodes(ring)`prev
    ensures IsRing(ring + [ip]) && CarriesFree(ring + [ip], free + [ip.data.ipv4])
  {
    ListAddTail(ip, head, ring);
  }

  // The entries of a spliced held list: n of them taken again, the last one first,
  // then the head of the free list, then the others.
  ghost predicate CarriesSpliced(ring: seq<Node<Ip>>, held: seq<Lease>, n: nat)
    reads ring`data
  {
    && n <= |held| && |ring| == |held| + 2
    && (forall i :: 0 <= i < n ==> ring[n - i].data.ipv4 == held[i].addr)
    && (forall i :: n <= i < |held| ==> ring[i + 2].data == Ip(held[i].mac, held[i].addr))
  }

  // The same but for the entry at k, which the access point takes.
  ghost predicate FreeButOne(ring: seq<Node<Ip>>, free: seq<Addr>, k: nat, mac: Mac)
    reads ring`data
  {
    && 1 <= k < |ring| == |free| + 1 && ring[k].data == Ip(mac, free[k - 1])
    && forall i :: 0 <= i < |free| && i + 1 != k ==> ring[i + 1].data.ipv4 == free[i]
  }

  ghost predicate SplicedButOne(ring: seq<Node<Ip>>, held: seq<Lease>, n: nat)
    reads ring`data
  {
    && n < |held| && |ring| == |held| + 2 && ring[n + 2].data.ipv4 == held[n].addr
    && (forall i :: 0 <= i < n ==> ring[n - i].data.ipv4 == held[i].addr)
    && (forall i :: n < i < |held| ==> ring[i + 2].data == Ip(held[i].mac, held[i].addr))
  }

  // What the two lists carry after that entry was moved to the front of the held
  // list.
  lemma FreeTaken(src: seq<Node<Ip>>, k: nat, dst: seq<Node<Ip>>, v: View, mac: Mac)
    requires Distinct(src) && Disjoint(src, dst) && dst != []
    requires FreeButOne(src, v.free, k, mac) && CarriesHeld(dst, v.held)
    ensures CarriesFree(Without(src, k), TakeAt(v, k - 1, mac).free)
    ensures CarriesHeld([dst[0], src[k]] + dst[1..], TakeAt(v, k - 1, mac).held)
    ensures Disjoint(Without(src, k), [dst[0], src[k]] + dst[1..])
  {
    WithoutDisjoint(src, k, dst);
  }

  // The same within a spliced list.
  lemma MovedToFront<X>(ring: seq<X>, k: nat)
    requires 1 < k < |ring|
    ensures var r := [ring[0], ring[k]] + Without(ring, k)[1..];
            && |r| == |ring| && r[0] == ring[0] && r[1] == ring[k]
            && (forall j :: 2 <= j < |r| ==> r[j] == if j <= k then ring[j - 1] else ring[j])
            && r == [ring[0], ring[k]] + ring[1..k] + ring[k + 1..]
  {
  }

  lemma SplicedTaken(ring: seq<Node<Ip>>, held: seq<Lease>, n: nat)
    requires SplicedButOne(ring, held, n)
    ensures CarriesSpliced([ring[0], ring[n + 2]] + Without(ring, n + 2)[1..], held, n + 1)
  {
    MovedToFront(ring, n + 2);
    var r := [ring[0], ring[n + 2]] + Without(ring, n + 2)[1..];
    forall i | 0 <= i < n + 1
      ensures r[n + 1 - i].data.ipv4 == held[i].addr
    {
      assert i < n ==> r[n + 1 - i] == ring[n - i];
    }
  }

  class Pool {
    const pool: Node<Ip>
    const alloc: Node<Ip>
    var total: int
    var left: int
    ghost var poolRing: seq<Node<Ip>>
    ghost var allocRing: seq<Node<Ip>>
    ghost var view: View

    ghost predicate Valid()
      reads this, poolRing, allocRing
    {
      && IsRing(poolRing) && pool == poolRing[0] && CarriesFree(poolRing, view.free)
      && IsRing(allocRing) && alloc == allocRing[0] && CarriesHeld(allocRing, view.held)
      && Disjoint(poolRing, allocRing)
      && left == |view.free|
      && total == |view.free| + |view.held|
      && Wf(view)
    }

    // What allocations from an exhausted pool leave: the head of the free list
    // stands in the held list.  Before it are the n entries taken again since,
    // the last one first, and behind it the others.
    ghost predicate Spliced(n: nat)
      reads this, allocRing
    {
      && view.free == [] && Wf(view) && CarriesSpliced(allocRing, view.held, n)
      && IsRing(allocRing) && allocRing[0] == alloc && allocRing[n + 1] == pool
      && left == -1 - n && total == |view.held|
    }

    // res_ip_init
    constructor Init()
      ensures Valid() && view == EMPTY
      ensures total == left == 0
      ensures fresh(poolRing) && fresh(allocRing)
    {
      pool := new Node(Ip(0, 0));
      alloc := new Node(Ip(0, 0));
      total, left := 0, 0;
      view := EMPTY;
      new;
      InitListHead(pool);
      InitListHead(alloc);
      poolRing, allocRing := [pool], [alloc];
    }

    method Repeat(addr: Addr) returns (r: bool)
      requires Valid()
      ensures r <==> Known(view, addr)
    {
      var pos, k := Find(pool, addr, poolRing);
      if pos != pool {
        assert view.free[k - 1] == addr;
        return true;
      }
      pos, k := Find(alloc, addr, allocRing);
      if pos != alloc {
        assert view.held[k - 1].addr == addr;
      }
      return pos != alloc;
    }

    method IpConflict(addr: Addr, mac: Mac) returns (r: bool)
      requires addr != 0 ==> Valid()
      ensures r <==> Conflict(view, addr, mac)
    {
      if addr == 0 {
        return false;
      }
      var pos, k := Find(alloc, addr, allocRing);
      if pos != alloc {
        assert view.held[k - 1] == Lease(pos.data.ipv4, pos.data.apmac);
        return mac != pos.data.apmac;
      }
      return false;
    }

    // res_ip_add; `memory` says whether its calloc succeeds.
    method IpAdd(addr: Addr, memory: bool) returns (ret: int)
      requires Valid()
      modifies this, Nodes(poolRing)
      ensures Valid() && view == if memory then Add(old(view), addr) else old(view)
      ensures ret == if memory && !Known(old(view), addr) then 0 else -1
      ensures allocRing == old(allocRing)
      ensures poolRing == old(poolRing) || (exists ip :: fresh(ip) && poolRing == old(poolRing) + [ip])
    {
      var repeat := Repeat(addr);
      if repeat || !memory {
        return -1;
      }
      var ip := new Node(Ip(0, addr));
      Append(ip);
      return 0;
    }

    method Append(ip: Node<Ip>)
      requires Valid() && ip !in poolRing && ip !in allocRing && !Known(view, ip.data.ipv4)
      modifies this, Nodes(poolRing), ip`next, ip`prev
      ensures Valid() && view == Add(old(view), ip.data.ipv4)
      ensures allocRing == old(allocRing) && poolRing == old(poolRing) + [ip]
    {
      ghost var ring, v := poolRing, view;
      ApplyKeeps(v, OpAdd(ip.data.ipv4));
      poolRing, view := ring + [ip], Add(v, ip.data.ipv4);
      total := total + 1;
      left := left + 1;
      AddFree(ip, pool, ring, v.free);
    }

    // The part of res_ip_alloc that is common to its two branches: memcpy,
    // list_move and the counter.  For k == 0 the entry is the head of an empty free
    // list; if src is dst, the lists are spliced.
    method Take(entry: Node<Ip>, mac: Mac, ghost src: seq<Node<Ip>>, ghost k: nat, ghost dst: seq<Node<Ip>>)
      requires IsRing(src) && k < |src| && (k == 0 ==> |src| == 1) && entry == src[k]
      requires IsRing(dst) && alloc == dst[0] && if src == dst then k > 0 else Disjoint(src, dst)
      modifies this`left, entry`data, Nodes(src)`next, Nodes(src)`prev, Nodes(dst)`next, Nodes(dst)`prev
      ensures left == old(left) - 1 && entry.data == Ip(mac, old(entry.data.ipv4))
      ensures src == dst ==> IsRing([alloc, entry] + Without(src, k)[1..])
      ensures src != dst ==> IsRing([alloc, entry] + dst[1..]) && (k > 0 ==> IsRing(Without(src, k)))
    {
      left := left - 1;
      entry.data := entry.data.(apmac := mac);
      ListMove(entry, alloc, src, k, dst);
    }

    // After Take: the lists once a free entry, the head of an empty free list, or a
    // held entry was taken.

    ghost method TookFree(k: nat, mac: Mac)
      requires Wf(view) && left == |view.free| - 1 && total == |view.free| + |view.held|
      requires Distinct(poolRing) && Disjoint(poolRing, allocRing) && poolRing != [] && allocRing != []
      requires FreeButOne(poolRing, view.free, k, mac) && CarriesHeld(allocRing, view.held)
      requires pool == poolRing[0] && alloc == allocRing[0]
      requires IsRing(Without(poolRing, k)) && IsRing([alloc, poolRing[k]] + allocRing[1..])
      modifies this`poolRing, this`allocRing, this`view
      ensures Valid() && view == TakeAt(old(view), k - 1, mac)
    {
      TakeKeeps(view, k - 1, mac);
      FreeTaken(poolRing, k, allocRing, view, mac);
      var taken := TakeAt(view, k - 1, mac);
      poolRing, allocRing, view := Without(poolRing, k), [alloc, poolRing[k]] + allocRing[1..], taken;
    }

    ghost method TookHead()
      requires Wf(view) && view.free == [] && left == -1 && total == |view.held|
      requires allocRing != [] && CarriesHeld(allocRing, view.held) && IsRing([alloc, pool] + allocRing[1..])
      requires alloc == allocRing[0]
      modifies this`allocRing
      ensures Spliced(0) && allocRing == old([alloc, pool] + allocRing[1..])
      ensures Nodes(allocRing) <= {pool} + old(Nodes(allocRing))
    {
      allocRing := [alloc, pool] + allocRing[1..];
    }

    ghost method TookHeld(n: nat)
      requires Wf(view) && view.free == [] && left == -2 - n && total == |view.held|
      requires SplicedButOne(allocRing, view.held, n) && alloc == allocRing[0] && pool == allocRing[n + 1]
      requires IsRing([alloc, allocRing[n + 2]] + Without(allocRing, n + 2)[1..])
      modifies this`allocRing
      ensures Spliced(n + 1)
      ensures allocRing == old([alloc, allocRing[n + 2]] + allocRing[1..n + 2] + allocRing[n + 3..])
      ensures Nodes(allocRing) == old(Nodes(allocRing))
    {
      SplicedTaken(allocRing, view.held, n);
      MovedToFront(allocRing, n + 2);
      SameNodes(allocRing, n + 2);
      allocRing := [alloc, allocRing[n + 2]] + Without(allocRing, n + 2)[1..];
    }

    // The three together.
    ghost method Took(mac: Mac, n: nat, spliced: bool)
      requires Wf(view) && allocRing != [] && alloc == allocRing[0]
      requires !spliced ==> Distinct(poolRing) && poolRing != []
      requires spliced ==> view.free == [] && left == -2 - n && total == |view.held|
      requires spliced ==> SplicedButOne(allocRing, view.held, n) && pool == allocRing[n + 1]
      requires spliced ==> IsRing([alloc, allocRing[n + 2]] + Without(allocRing, n + 2)[1..])
      requires !spliced ==> left == |view.free| - 1 && total == |view.free| + |view.held|
      requires !spliced ==> pool == poolRing[0] && Disjoint(poolRing, allocRing) && CarriesHeld(allocRing, view.held)
      requires !spliced && view.free == [] ==> IsRing([alloc, pool] + allocRing[1..])
      requires !spliced && view.free != [] ==> FreeButOne(poolRing, view.free, 1, mac)
      requires !spliced && view.free != [] ==>
                 IsRing(Without(poolRing, 1)) && IsRing([alloc, poolRing[1]] + allocRing[1..])
      modifies this`poolRing, this`allocRing, this`view
      ensures old(view.free) != [] ==> Valid() && view == TakeAt(old(view), 0, mac)
      ensures old(view.free) == [] ==> Spliced(if spliced then n + 1 else 0) && view == old(view)
      ensures old(view.free) == [] ==> poolRing == old(poolRing) && Nodes(allocRing) <= {pool} + old(Nodes(allocRing))
      ensures old(view.free) == [] && !spliced ==> allocRing == old([alloc, pool] + allocRing[1..])
      ensures spliced ==> allocRing == old([alloc, allocRing[n + 2]] + allocRing[1..n + 2] + allocRing[n + 3..])
    {
      if spliced {
        TookHeld(n);
      } else if view.free == [] {
        TookHead();
      } else {
        TookFree(1, mac);
      }
    }

    // The guard of res_ip_alloc.  It never refuses, neither when the pool is
    // exhausted, because its second conjunct is the negation of what its message
    // says, nor after that, because the counter is negative.
    method NoIpInPool() returns (refuse: bool)
      requires Valid() || left < 0
      ensures !refuse
    {
      refuse := false;
      if left == 0 {
        var empty := ListEmpty(pool, poolRing);
        refuse := !empty;
      }
    }

    // Lists apart, or spliced with an entry behind the head of the free list.
    ghost predicate Serves(n: nat)
      reads this, poolRing, allocRing
    {
      Valid() || (Spliced(n) && n < |view.held|)
    }

    // list_first_entry.  It is the list head, which is not part of an address, when
    // the pool is exhausted, and then an entry of the held list.
    method FirstEntry(ghost n: nat) returns (ip: Node<Ip>)
      requires Serves(n)
      ensures left >= 0 ==> (ip == pool <==> view.free == [])
      ensures left >= 0 && view.free != [] ==> ip == poolRing[1]
      ensures left < 0 ==> ip == allocRing[n + 2]
    {
      ip := pool.next;
    }

    // The branch for an address that is free.
    method AllocFound(pos: Node<Ip>, mac: Mac, ghost k: nat)
      requires Valid() && 1 <= k < |poolRing| && pos == poolRing[k]
      modifies this, Nodes(poolRing), Nodes(allocRing)
      ensures Valid() && view == TakeAt(old(view), k - 1, mac) && pos.data == Ip(mac, view.held[0].addr)
    {
      Take(pos, mac, poolRing, k, allocRing);
      TookFree(k, mac);
    }

    // The branch without a wish.
    method AllocFirst(mac: Mac, ghost n: nat) returns (ip: Node<Ip>)
      requires Serves(n)
      modifies this, Nodes(poolRing), Nodes(allocRing)
      ensures old(view.free) != [] ==>
                Valid() && view == TakeAt(old(view), 0, mac) && ip.data == Ip(mac, view.held[0].addr)
      ensures old(left >= 0 && view.free == []) ==>
                Spliced(0) && view == old(view) && ip == pool && allocRing == [alloc, pool] + old(allocRing[1..])
      ensures old(left < 0) ==>
                && Spliced(n + 1) && view == old(view)
                && ip == old(allocRing[n + 2]) && ip.data == Ip(mac, view.held[n].addr)
                && allocRing == old([alloc, allocRing[n + 2]] + allocRing[1..n + 2] + allocRing[n + 3..])
      ensures old(view.free) == [] ==>
                poolRing == old(poolRing) && Nodes(allocRing) <= old(Nodes(poolRing) + Nodes(allocRing))
    {
      ip := FirstEntry(n);
      ghost var spliced, empty := left < 0, view.free == [];
      ghost var k := if spliced then n + 2 else if empty then 0 else 1;
      Take(ip, mac, if spliced then allocRing else poolRing, k, allocRing);
      Took(mac, n, spliced);
    }

    // Once the lists are spliced, a wish would be searched for from the head of the
    // free list on, in memory around the heads.
    method IpAlloc(addr: Option<Addr>, mac: Mac, ghost n: nat) returns (ip: Node?<Ip>)
      requires Serves(n) && (Wish(addr) ==> Valid())
      modifies this, Nodes(poolRing), Nodes(allocRing)
      ensures ip != null
      ensures old(view.free) != [] ==>
                Valid() && view == Alloc(old(view), addr, mac) && ip.data == Ip(mac, view.held[0].addr)
      ensures old(left >= 0 && view.free == []) ==>
                Spliced(0) && view == old(view) && ip == pool && allocRing == [alloc, pool] + old(allocRing[1..])
      ensures old(left < 0) ==>
                && Spliced(n + 1) && view == old(view)
                && ip == old(allocRing[n + 2]) && ip.data == Ip(mac, view.held[n].addr)
                && allocRing == old([alloc, allocRing[n + 2]] + allocRing[1..n + 2] + allocRing[n + 3..])
      ensures old(view.free) == [] ==>
                poolRing == old(poolRing) && Nodes(allocRing) <= old(Nodes(poolRing) + Nodes(allocRing))
    {
      var refuse := NoIpInPool();
      if refuse {
        return null;
      }
      if Wish(addr) {
        var pos, k := Find(pool, addr.value, poolRing);
        if pos != pool {
          assert view.free[k - 1] == addr.value;
          TakenIsChoice(view, addr, k - 1);
          AllocFound(pos, mac, k);
          return pos;
        }
        assert addr.value !in view.free;
      }
      ip := AllocFirst(mac, n);
    }

    // Behind an exhausted pool, allocations without a wish hand out the held
    // addresses again, in the order of the list.
    method AllocAgain(macs: seq<Mac>) returns (addrs: seq<Addr>)
      requires Spliced(0) && |macs| <= |view.held|
      modifies this, Nodes(poolRing), Nodes(allocRing)
      ensures Spliced(|macs|) && view == old(view)
      ensures |addrs| == |macs| && forall i :: 0 <= i < |macs| ==> addrs[i] == view.held[i].addr
    {
      addrs := [];
      for i := 0 to |macs|
        invariant Spliced(i) && view == old(view)
        invariant poolRing == old(poolRing) && Nodes(allocRing) <= old(Nodes(poolRing) + Nodes(allocRing))
        invariant |addrs| == i && forall j :: 0 <= j < i ==> addrs[j] == view.held[j].addr
      {
        var ip := IpAlloc(None, macs[i], i);
        addrs := addrs + [ip.data.ipv4];
      }
    }
  }

  lemma SameNodes<X>(ring: seq<X>, k: nat)
    requires 1 < k < |ring|
    ensures Nodes([ring[0], ring[k]] + ring[1..k] + ring[k + 1..]) == Nodes(ring)
  {
    var r := [ring[0], ring[k]] + ring[1..k] + ring[k + 1..];
    forall j | 0 <= j < |ring|
      ensures ring[j] in r
    {
      assert ring[j] == r[if j == 0 then 0 else if j < k then j + 1 else if j == k then 1 else j];
    }
  }

  lemma TakenIsChoice(v: View, want: Option<Addr>, k: nat)
    requires Wf(v) && k < |v.free| && want == Some(v.free[k]) && want.value != 0
    ensures Choice(v.free, want) == k
  {
  }
}
