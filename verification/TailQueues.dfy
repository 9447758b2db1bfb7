// Singly linked lists that keep a pointer to the slot where the next node goes:
// the `T **tail` of lib/link.c, ac/aphash.c and ap/message.c.
module TailList {
  import opened Common

  class Node<T> {
    var next: Node?<T>
    const data: T

    constructor (data: T)
      ensures this.data == data && next == null
    {
      this.data, next := data, null;
    }
  }

  // What a pointer of type T** points at: the head, or the next field of a node.
  datatype Slot<T> = HeadSlot | NextOf(node: Node<T>)

  // The nodes in order, and the tail slot behind the last of them.
  ghost predicate IsChain<T>(head: Node?<T>, tail: Slot<T>, s: seq<Node<T>>)
    reads s
  {
    && Distinct(s)
    && (forall i {:trigger s[i].next} :: 0 <= i < |s| ==> s[i].next == if i + 1 < |s| then s[i + 1] else null)
    && head == (if s == [] then null else s[0])
    && tail == (if s == [] then HeadSlot else NextOf(s[|s| - 1]))
  }

  ghost predicate Carries<T>(s: seq<Node<T>>, contents: seq<T>) {
    |s| == |contents| && forall i :: 0 <= i < |s| ==> s[i].data == contents[i]
  }

  lemma WithoutAt<X>(s: seq<X>, k: nat)
    requires k < |s|
    ensures forall i :: 0 <= i < |s| - 1 ==> Without(s, k)[i] == s[if i < k then i else i + 1]
    ensures Distinct(s) ==> Distinct(Without(s, k))
  {
  }

  // A chain from which the k-th node has been unlinked.
  lemma ChainWithout<T>(head: Node?<T>, tail: Slot<T>, s: seq<Node<T>>, k: nat)
    requires k < |s| && Distinct(s)
    requires head == if k > 0 then s[0] else if |s| > 1 then s[1] else null
    requires tail == if k + 1 < |s| then NextOf(s[|s| - 1]) else if k > 0 then NextOf(s[k - 1]) else HeadSlot
    requires forall i {:trigger s[i].next} :: 0 <= i < |s| && i != k ==>
      var j := if i + 1 == k then k + 1 else i + 1;
      s[i].next == if j < |s| then s[j] else null
    ensures IsChain(head, tail, Without(s, k))
  {
    WithoutAt(s, k);
    var r := Without(s, k);
    forall i | 0 <= i < |r|
      ensures r[i].next == if i + 1 < |r| then r[i + 1] else null
    {
      assert r[i] == s[if i < k then i else i + 1];
    }
  }

  // The sequence without the first occurrence of x.
  function RemoveFirst<T(==)>(s: seq<T>, x: T): seq<T> {
    if s == [] then [] else if s[0] == x then s[1..] else [s[0]] + RemoveFirst(s[1..], x)
  }

  lemma {:induction false} RemoveFirstAbsent<T>(s: seq<T>, x: T)
    requires x !in s
    ensures RemoveFirst(s, x) == s
  {
    if s != [] { RemoveFirstAbsent(s[1..], x); }
  }

  lemma {:induction false} RemoveFirstAt<T>(s: seq<T>, x: T, k: nat)
    requires k < |s| && s[k] == x && x !in s[..k]
    ensures RemoveFirst(s, x) == Without(s, k)
  {
    if k > 0 {
      assert s[0] != x;
      assert s[1..][..k - 1] == s[..k][1..];
      RemoveFirstAt(s[1..], x, k - 1);
      assert [s[0]] + (s[1..][..k - 1] + s[1..][k..]) == s[..k] + s[k + 1..];
    }
  }
}

// The socket list of lib/link.c.
module SockArr {
  import opened Common
  import opened TailList

  class SockList {
    var head: Node?<int>
    var tail: Slot<int>
    ghost var spine: seq<Node<int>>
    ghost var socks: seq<int>

    ghost predicate Valid()
      reads this, spine
    {
      IsChain(head, tail, spine) && Carries(spine, socks)
    }

    constructor ()
      ensures Valid() && socks == []
    {
      head, tail := null, HeadSlot;
      spine, socks := [], [];
    }

    // *slot = node
    method Store(slot: Slot<int>, node: Node?<int>)
      modifies if slot.HeadSlot? then {this} else {slot.node}
      ensures slot.HeadSlot? ==> head == node && tail == old(tail) && spine == old(spine) && socks == old(socks)
      ensures slot.NextOf? ==> slot.node.next == node
    {
      match slot
      case HeadSlot => head := node;
      case NextOf(n) => n.next := node;
    }

    // The locked part of insert_sockarr.
    method Insert(sock: int) returns (node: Node<int>)
      requires Valid()
      modifies this, spine
      ensures Valid() && socks == old(socks) + [sock]
      ensures fresh(node) && spine == old(spine) + [node]
    {
      node := new Node(sock);
      Store(tail, node);
      tail := NextOf(node);
      spine, socks := spine + [node], socks + [sock];
    }

    // The locked part of delete_sockarr.
    method Delete(sock: int)
      requires Valid()
      modifies this, spine
      ensures Valid() && socks == RemoveFirst(old(socks), sock)
    {
      var cur := head;
      var ppre := HeadSlot;
      ghost var k := 0;
      while cur != null
        invariant k <= |spine| && cur == (if k < |spine| then spine[k] else null)
        invariant ppre == if k == 0 then HeadSlot else NextOf(spine[k - 1])
        invariant sock !in socks[..k]
        invariant Valid() && spine == old(spine) && socks == old(socks)
        decreases |spine| - k
      {
        if cur.data == sock {
          Unlink(cur, ppre, k);
          RemoveFirstAt(old(socks), sock, k);
          return;
        }
        ppre := NextOf(cur);
        cur := cur.next;
        k := k + 1;
      }
      RemoveFirstAbsent(socks, sock);
    }

    method Unlink(cur: Node<int>, ppre: Slot<int>, ghost k: nat)
      requires Valid() && k < |spine| && cur == spine[k]
      requires ppre == if k == 0 then HeadSlot else NextOf(spine[k - 1])
      modifies this, spine
      ensures Valid() && socks == Without(old(socks), k)
    {
      ghost var s := spine;
      WithoutAt(s, k);
      WithoutAt(socks, k);
      Store(ppre, cur.next);
      if NextOf(cur) == tail {
        tail := ppre;
      }
      ChainWithout(head, tail, s, k);
      spine, socks := Without(s, k), Without(socks, k);
    }
  }
}

// The message queue of ap/message.c.
module MessageQueue {
  import opened TailList

  class Queue<T> {
    var head: Node?<T>
    var tail: Slot<T>
    var num: int
    ghost var spine: seq<Node<T>>
    ghost var messages: seq<T>

    ghost predicate Valid()
      reads this, spine
    {
      IsChain(head, tail, spine) && Carries(spine, messages) && num == |messages|
    }

    constructor ()
      ensures Valid() && messages == []
    {
      head, tail, num := null, HeadSlot, 0;
      spine, messages := [], [];
    }

    method Insert(msg: Node<T>)
      requires Valid() && msg !in spine
      modifies this, spine, msg
      ensures Valid() && messages == old(messages) + [msg.data]
      ensures spine == old(spine) + [msg] && num == old(num) + 1
    {
      msg.next := null;
      num := num + 1;
      match tail {
        case HeadSlot => head := msg;
        case NextOf(n) => n.next := msg;
      }
      tail := NextOf(msg);
      spine, messages := spine + [msg], messages + [msg.data];
    }

    method Delete() returns (msg: Node?<T>)
      requires Valid()
      modifies this, spine
      ensures Valid()
      ensures msg == null <==> old(messages) == []
      ensures msg == null ==> messages == [] && spine == old(spine)
      ensures msg != null ==> old(messages) == [msg.data] + messages && old(spine) == [msg] + spine
    {
      if num == 0 {
        assert tail == HeadSlot;   // so *tail == head
        return null;
      }
      var tmp := head;
      num := num - 1;
      head := head.next;
      if tail == NextOf(tmp) {
        tail := HeadSlot;
      }
      spine, messages := spine[1..], messages[1..];
      return tmp;
    }
  }
}
