// include/list.h: circular doubly linked lists whose links live in the entries.
//
// A ring is described by the sequence of its nodes, starting at the list head.
// The embedded link and the structure around it are one object here, so
// container_of is the identity; `data` is the rest of that structure.
module List {
  import opened Common

  class Node<T> {
    var next: Node?<T>
    var prev: Node?<T>
    var data: T

    constructor (data: T)
      ensures this.data == data
    {
      this.data := data;
      next, prev := null, null;
    }
  }

  ghost predicate IsRing<T>(s: seq<Node<T>>)
    reads s
  {
    && s != []
    && Distinct(s)
    && (forall i {:trigger s[i].next} :: 0 <= i < |s| - 1 ==> s[i].next == s[i + 1])
    && (forall i {:trigger s[i].prev} :: 1 <= i < |s| ==> s[i].prev == s[i - 1])
    && s[|s| - 1].next == s[0] && s[0].prev == s[|s| - 1]
  }

  // Where a ring's links are.
  ghost function Nodes<X>(s: seq<X>): set<X> {
    set x | x in s
  }

  ghost predicate Disjoint<X>(s: seq<X>, t: seq<X>) {
    (forall i :: 0 <= i < |s| ==> s[i] !in t) && (forall j :: 0 <= j < |t| ==> t[j] !in s)
  }

  method InitListHead<T>(list: Node<T>)
    modifies list`next, list`prev
    ensures IsRing([list])
  {
    list.next := list;
    list.prev := list;
  }

  // __list_add: between s[k] and its successor.
  lemma Inserted<X>(s: seq<X>, k: nat, x: X)
    requires k < |s| && x !in s && Distinct(s)
    ensures var r := s[..k + 1] + [x] + s[k + 1..];
            && |r| == |s| + 1 && Distinct(r)
            && (forall i :: 0 <= i < |r| ==> r[i] == if i <= k then s[i] else if i == k + 1 then x else s[i - 1])
  {
  }

  method ListAddBetween<T>(entry: Node<T>, prev: Node<T>, next: Node<T>, ghost s: seq<Node<T>>, ghost k: nat)
    requires IsRing(s) && entry !in s && k < |s|
    requires prev == s[k] && next == if k + 1 < |s| then s[k + 1] else s[0]
    modifies next`prev, entry`next, entry`prev, prev`next
    ensures IsRing(s[..k + 1] + [entry] + s[k + 1..])
  {
    Inserted(s, k, entry);
    next.prev := entry;
    entry.next := next;
    entry.prev := prev;
    prev.next := entry;
  }

  // _list_add: right after the head.
  method ListAdd<T>(entry: Node<T>, head: Node<T>, ghost s: seq<Node<T>>)
    requires IsRing(s) && entry !in s && head == s[0]
    modifies entry`next, entry`prev, Nodes(s)`next, Nodes(s)`prev
    ensures IsRing([head, entry] + s[1..])
  {
    ListAddBetween(entry, head, head.next, s, 0);
    assert s[..1] + [entry] + s[1..] == [head, entry] + s[1..];
  }

  method ListAddTail<T>(entry: Node<T>, head: Node<T>, ghost s: seq<Node<T>>)
    requires IsRing(s) && entry !in s && head == s[0]
    modifies entry`next, entry`prev, Nodes(s)`next, Nodes(s)`prev
    ensures IsRing(s + [entry])
  {
    ListAddBetween(entry, head.prev, head, s, |s| - 1);
    assert s[..|s|] + [entry] + s[|s|..] == s + [entry];
  }

  // __list_del_entry: the neighbours of s[k] point at each other; the entry
  // itself keeps its links.
  method ListDelEntry<T>(entry: Node<T>, ghost s: seq<Node<T>>, ghost k: nat)
    requires IsRing(s) && k < |s| && entry == s[k]
    modifies Nodes(s)`next, Nodes(s)`prev
    ensures if |s| == 1 then IsRing(s) else IsRing(Without(s, k))
    ensures |s| > 1 ==> entry.next == old(entry.next) && entry.prev == old(entry.prev)
  {
    var prev, next := entry.prev, entry.next;
    next.prev := prev;
    prev.next := next;
  }

  method ListDel<T>(entry: Node<T>, ghost s: seq<Node<T>>, ghost k: nat)
    requires IsRing(s) && k < |s| && entry == s[k]
    modifies Nodes(s)`next, Nodes(s)`prev
    ensures entry.next == entry.prev == null
    ensures |s| > 1 ==> IsRing(Without(s, k))
  {
    ListDelEntry(entry, s, k);
    entry.next := null;
    entry.prev := null;
  }

  method ListDelInit<T>(entry: Node<T>, ghost s: seq<Node<T>>, ghost k: nat)
    requires IsRing(s) && k < |s| && entry == s[k]
    modifies Nodes(s)`next, Nodes(s)`prev
    ensures IsRing([entry])
    ensures |s| > 1 ==> IsRing(Without(s, k))
  {
    ListDelEntry(entry, s, k);
    InitListHead(entry);
  }

  // Also when old' is alone in its ring.
  method ListReplace<T>(old': Node<T>, new': Node<T>, ghost s: seq<Node<T>>, ghost k: nat)
    requires IsRing(s) && new' !in s && k < |s| && old' == s[k]
    modifies new'`next, new'`prev, Nodes(s)`next, Nodes(s)`prev
    ensures IsRing(s[k := new'])
  {
    new'.next := old'.next;
    new'.next.prev := new';
    new'.prev := old'.prev;
    new'.prev.next := new';
  }

  method ListReplaceInit<T>(old': Node<T>, new': Node<T>, ghost s: seq<Node<T>>, ghost k: nat)
    requires IsRing(s) && new' !in s && k < |s| && old' == s[k]
    modifies new'`next, new'`prev, Nodes(s)`next, Nodes(s)`prev
    ensures IsRing(s[k := new']) && IsRing([old'])
  {
    ListReplace(old', new', s, k);
    InitListHead(old');
  }

  lemma WithoutDisjoint<X>(s: seq<X>, k: nat, t: seq<X>)
    requires k < |s| && Distinct(s)
    ensures s[k] !in Without(s, k) && forall x :: x in Without(s, k) ==> x in s
    ensures Disjoint(s, t) ==> Disjoint(Without(s, k), t) && Disjoint(Without(s, k), t + [s[k]])
  {
  }

  // The deletion half of a move: afterwards the ring the entry goes to is well
  // formed, be it another ring or the rest of its own.
  method UnlinkFor<T>(entry: Node<T>, ghost src: seq<Node<T>>, ghost k: nat, ghost ring: seq<Node<T>>)
    requires IsRing(src) && k < |src| && entry == src[k]
    requires if ring == Without(src, k) then |src| > 1 else IsRing(ring) && Disjoint(src, ring)
    modifies Nodes(src)`next, Nodes(src)`prev
    ensures IsRing(ring) && entry !in ring
    ensures |src| > 1 ==> IsRing(Without(src, k))
  {
    ListDelEntry(entry, src, k);
    WithoutDisjoint(src, k, ring);
  }

  // From one ring to the front of another, or to the front of its own.
  method ListMove<T>(list: Node<T>, head: Node<T>, ghost src: seq<Node<T>>, ghost k: nat, ghost dst: seq<Node<T>>)
    requires IsRing(src) && k < |src| && list == src[k]
    requires IsRing(dst) && head == dst[0]
    requires if src == dst then k > 0 else Disjoint(src, dst)
    modifies Nodes(src)`next, Nodes(src)`prev, Nodes(dst)`next, Nodes(dst)`prev
    ensures src == dst ==> IsRing([head, list] + Without(src, k)[1..])
    ensures src != dst ==> IsRing([head, list] + dst[1..])
    ensures src != dst && |src| > 1 ==> IsRing(Without(src, k))
  {
    ghost var rest := Without(src, k);
    ghost var ring := if src == dst then rest else dst;
    UnlinkFor(list, src, k, ring);
    WithoutDisjoint(src, k, dst);
    ListAdd(list, head, ring);
  }

  // The same, to the back.
  method ListMoveTail<T>(list: Node<T>, head: Node<T>, ghost src: seq<Node<T>>, ghost k: nat, ghost dst: seq<Node<T>>)
    requires IsRing(src) && k < |src| && list == src[k]
    requires IsRing(dst) && head == dst[0]
    requires if src == dst then k > 0 else Disjoint(src, dst)
    modifies Nodes(src)`next, Nodes(src)`prev, Nodes(dst)`next, Nodes(dst)`prev
    ensures src == dst ==> IsRing(Without(src, k) + [list])
    ensures src != dst ==> IsRing(dst + [list])
    ensures src != dst && |src| > 1 ==> IsRing(Without(src, k))
  {
    ghost var rest := Without(src, k);
    ghost var ring := if src == dst then rest else dst;
    UnlinkFor(list, src, k, ring);
    WithoutDisjoint(src, k, dst);
    ListAddTail(list, head, ring);
  }

  // ---- reading -----------------------------------------------------------

  method ListIsLast<T>(list: Node<T>, head: Node<T>, ghost s: seq<Node<T>>, ghost k: nat) returns (r: bool)
    requires IsRing(s) && head == s[0] && k < |s| && list == s[k]
    ensures r <==> k == |s| - 1
  {
    r := list.next == head;
  }

  method ListEmpty<T>(head: Node<T>, ghost s: seq<Node<T>>) returns (r: bool)
    requires IsRing(s) && head == s[0]
    ensures r <==> |s| == 1
  {
    r := head.next == head;
  }

  method ListIsSingular<T>(head: Node<T>, ghost s: seq<Node<T>>) returns (r: bool)
    requires IsRing(s) && head == s[0]
    ensures r <==> |s| == 2
  {
    var empty := ListEmpty(head, s);
    r := !empty && head.next == head.prev;
  }

  // ---- rotating ----------------------------------------------------------

  function Rotated<X>(xs: seq<X>): (r: seq<X>)
    ensures |r| == |xs|
  {
    if xs == [] then [] else xs[1..] + [xs[0]]
  }

  method ListRotateLeft<T>(head: Node<T>, ghost s: seq<Node<T>>)
    requires IsRing(s) && head == s[0]
    modifies Nodes(s)`next, Nodes(s)`prev
    ensures IsRing([head] + Rotated(s[1..]))
  {
    var empty := ListEmpty(head, s);
    if !empty {
      var first := head.next;
      ListMoveTail(first, head, s, 1, s);
      assert Without(s, 1) + [first] == [head] + Rotated(s[1..]);
    } else {
      assert [head] + Rotated(s[1..]) == s;
    }
  }

  function Rotations<X>(xs: seq<X>, n: nat): seq<X> {
    if n == 0 then xs else Rotated(Rotations(xs, n - 1))
  }

  lemma {:induction false} RotationsShift<X>(xs: seq<X>, n: nat)
    requires n <= |xs|
    ensures Rotations(xs, n) == xs[n..] + xs[..n]
  {
    if n > 0 {
      RotationsShift(xs, n - 1);
    }
  }

  // As many rotations as there are entries restore the list.
  lemma RotateAllTheWay<X>(xs: seq<X>)
    ensures Rotations(xs, |xs|) == xs
  {
    RotationsShift(xs, |xs|);
  }

  lemma StillInRing<X>(head: X, s: seq<X>, xs: seq<X>)
    requires s != [] && head == s[0] && (forall x :: x in xs ==> x in s[1..])
    ensures forall x :: x in [head] + xs ==> x in s
  {
  }

  lemma {:induction false} RotationsWithin<X>(xs: seq<X>, n: nat)
    ensures |Rotations(xs, n)| == |xs|
    ensures forall x :: x in Rotations(xs, n) ==> x in xs
  {
    if n > 0 {
      RotationsWithin(xs, n - 1);
    }
  }

  method RotateLoop<T>(head: Node<T>, n: nat, ghost s: seq<Node<T>>)
    requires IsRing(s) && head == s[0]
    modifies Nodes(s)`next, Nodes(s)`prev
    ensures IsRing([head] + Rotations(s[1..], n))
  {
    ghost var xs := s[1..];
    assert [head] + Rotations(xs, 0) == s;
    for i := 0 to n
      invariant IsRing([head] + Rotations(xs, i))
    {
      ghost var ring := [head] + Rotations(xs, i);
      RotationsWithin(xs, i);
      StillInRing(head, s, Rotations(xs, i));
      assert ring[1..] == Rotations(xs, i);
      ListRotateLeft(head, ring);
    }
  }

  // n calls of list_rotate_left on a list of n entries restore every link.
  method RotateAround<T>(head: Node<T>, n: nat, ghost s: seq<Node<T>>)
    requires IsRing(s) && head == s[0] && n == |s| - 1
    modifies Nodes(s)`next, Nodes(s)`prev
    ensures IsRing(s)
    ensures forall i :: 0 <= i < |s| ==> s[i].next == old(s[i].next) && s[i].prev == old(s[i].prev)
  {
    RotateLoop(head, n, s);
    Restored(head, s, n);
  }

  lemma Restored<X>(head: X, s: seq<X>, n: nat)
    requires s != [] && head == s[0] && n == |s| - 1
    ensures [head] + Rotations(s[1..], n) == s
  {
    RotateAllTheWay(s[1..]);
  }

  // ---- cutting and splicing ----------------------------------------------

  lemma CutPieces<X>(list: X, s: seq<X>, k: nat)
    requires 0 < k < |s| && list !in s && Distinct(s)
    ensures var a, b := [list] + s[1..k + 1], [s[0]] + s[k + 1..];
            && |a| == k + 1 && Distinct(a) && (forall i :: 1 <= i <= k ==> a[i] == s[i])
            && |b| == |s| - k && Distinct(b) && (forall i :: 1 <= i < |b| ==> b[i] == s[k + i])
  {
  }

  // __list_cut_position, for an entry other than the head.
  method ListCutAt<T>(list: Node<T>, head: Node<T>, entry: Node<T>, ghost s: seq<Node<T>>, ghost k: nat)
    requires IsRing(s) && head == s[0] && list !in s
    requires 0 < k < |s| && entry == s[k]
    modifies list`next, list`prev, Nodes(s)`next, Nodes(s)`prev
    ensures IsRing([list] + s[1..k + 1]) && IsRing([head] + s[k + 1..])
  {
    CutPieces(list, s, k);
    var newFirst := entry.next;
    list.next := head.next;
    list.next.prev := list;
    list.prev := entry;
    entry.next := list;
    head.next := newFirst;
    newFirst.prev := head;
  }

  // k is the position of the entry, or |s| when it is not in a list that has
  // at most one entry.
  method ListCutPosition<T>(list: Node<T>, head: Node<T>, entry: Node<T>, ghost s: seq<Node<T>>, ghost k: nat)
    requires IsRing(s) && head == s[0] && list !in s
    requires if k < |s| then entry == s[k] else entry !in s && |s| <= 2
    modifies list`next, list`prev, Nodes(s)`next, Nodes(s)`prev
    ensures |s| == 1 || k >= |s| ==> IsRing(s) && list.next == old(list.next) && list.prev == old(list.prev)
    ensures |s| > 1 && k == 0 ==> IsRing(s) && IsRing([list])
    ensures |s| > 1 && 0 < k < |s| ==> IsRing([list] + s[1..k + 1]) && IsRing([head] + s[k + 1..])
  {
    var empty := ListEmpty(head, s);
    if empty {
      return;
    }
    var singular := ListIsSingular(head, s);
    if singular && head.next != entry && head != entry {
      return;
    }
    if entry == head {
      InitListHead(list);
    } else {
      ListCutAt(list, head, entry, s, k);
    }
  }

  lemma JoinedDistinct<X>(s: seq<X>, k: nat, ls: seq<X>)
    requires k < |s| && ls != [] && Distinct(s) && Distinct(ls) && Disjoint(ls, s)
    ensures Distinct(s[..k + 1] + ls[1..] + s[k + 1..])
  {
    var r, n := s[..k + 1] + ls[1..] + s[k + 1..], |ls| - 1;
    forall i | 0 <= i < |r|
      ensures r[i] == if i <= k then s[i] else if i <= k + n then ls[i - k] else s[i - n]
    {
    }
  }

  // __list_splice: the entries of ls between s[k] and its successor; the head
  // of ls is not written.
  method ListSpliceBetween<T>(list: Node<T>, prev: Node<T>, next: Node<T>,
                              ghost ls: seq<Node<T>>, ghost s: seq<Node<T>>, ghost k: nat)
    requires IsRing(ls) && |ls| > 1 && list == ls[0]
    requires IsRing(s) && k < |s| && Disjoint(ls, s)
    requires prev == s[k] && next == if k + 1 < |s| then s[k + 1] else s[0]
    modifies Nodes(ls[1..])`next, Nodes(ls[1..])`prev, Nodes(s)`next, Nodes(s)`prev
    ensures IsRing(s[..k + 1] + ls[1..] + s[k + 1..])
  {
    JoinedDistinct(s, k, ls);
    var first, last := list.next, list.prev;
    first.prev := prev;
    prev.next := first;
    last.next := next;
    next.prev := last;
  }

  lemma SpliceEnds<X>(s: seq<X>, ls: seq<X>)
    requires s != []
    ensures s[..1] + ls + s[1..] == [s[0]] + ls + s[1..] && s[..|s|] + ls + s[|s|..] == s + ls
    ensures ls == [] ==> [s[0]] + ls + s[1..] == s + ls == s
  {
  }

  method ListSplice<T>(list: Node<T>, head: Node<T>, ghost ls: seq<Node<T>>, ghost s: seq<Node<T>>)
    requires IsRing(ls) && list == ls[0] && IsRing(s) && head == s[0] && Disjoint(ls, s)
    modifies Nodes(ls[1..])`next, Nodes(ls[1..])`prev, Nodes(s)`next, Nodes(s)`prev
    ensures IsRing([head] + ls[1..] + s[1..])
  {
    SpliceEnds(s, ls[1..]);
    var empty := ListEmpty(list, ls);
    if !empty {
      ListSpliceBetween(list, head, head.next, ls, s, 0);
    }
  }

  method ListSpliceTail<T>(list: Node<T>, head: Node<T>, ghost ls: seq<Node<T>>, ghost s: seq<Node<T>>)
    requires IsRing(ls) && list == ls[0] && IsRing(s) && head == s[0] && Disjoint(ls, s)
    modifies Nodes(ls[1..])`next, Nodes(ls[1..])`prev, Nodes(s)`next, Nodes(s)`prev
    ensures IsRing(s + ls[1..])
  {
    SpliceEnds(s, ls[1..]);
    var empty := ListEmpty(list, ls);
    if !empty {
      ListSpliceBetween(list, head.prev, head, ls, s, |s| - 1);
    }
  }

  method ListSpliceInit<T>(list: Node<T>, head: Node<T>, ghost ls: seq<Node<T>>, ghost s: seq<Node<T>>)
    requires IsRing(ls) && list == ls[0] && IsRing(s) && head == s[0] && Disjoint(ls, s)
    modifies Nodes(ls)`next, Nodes(ls)`prev, Nodes(s)`next, Nodes(s)`prev
    ensures IsRing([head] + ls[1..] + s[1..]) && IsRing([list])
  {
    var empty := ListEmpty(list, ls);
    ListSplice(list, head, ls, s);
    if !empty {
      InitListHead(list);
    }
  }

  method ListSpliceTailInit<T>(list: Node<T>, head: Node<T>, ghost ls: seq<Node<T>>, ghost s: seq<Node<T>>)
    requires IsRing(ls) && list == ls[0] && IsRing(s) && head == s[0] && Disjoint(ls, s)
    modifies Nodes(ls)`next, Nodes(ls)`prev, Nodes(s)`next, Nodes(s)`prev
    ensures IsRing(s + ls[1..]) && IsRing([list])
  {
    var empty := ListEmpty(list, ls);
    ListSpliceTail(list, head, ls, s);
    if !empty {
      InitListHead(list);
    }
  }

  lemma PieceAndRest<X>(list: X, s: seq<X>, cut: nat)
    requires cut < |s| && list !in s && Distinct(s)
    ensures var piece, rest := [list] + s[1..cut + 1], [s[0]] + s[cut + 1..];
            && [s[0]] + piece[1..] + rest[1..] == s
            && Disjoint(piece, rest)
            && (cut == 0 ==> piece == [list] && rest == s)
            && (forall x :: x in piece[1..] || x in rest ==> x in s)
  {
  }

  // A ring determines the links of its nodes.
  twostate lemma SameRingSameLinks<T>(s: seq<Node<T>>)
    requires old(IsRing(s)) && IsRing(s)
    ensures forall i :: 0 <= i < |s| ==> s[i].next == old(s[i].next) && s[i].prev == old(s[i].prev)
  {
  }

  // Cutting anywhere and splicing the piece back restores every link.
  method CutThenSplice<T>(list: Node<T>, head: Node<T>, entry: Node<T>, ghost s: seq<Node<T>>, ghost k: nat)
    requires IsRing(s) && head == s[0] && list !in s && IsRing([list])
    requires if k < |s| then entry == s[k] else entry !in s && |s| <= 2
    modifies list`next, list`prev, Nodes(s)`next, Nodes(s)`prev
    ensures IsRing(s)
    ensures forall i :: 0 <= i < |s| ==> s[i].next == old(s[i].next) && s[i].prev == old(s[i].prev)
  {
    ghost var cut := if |s| > 1 && k < |s| then k else 0;
    ghost var piece, rest := [list] + s[1..cut + 1], [head] + s[cut + 1..];
    PieceAndRest(list, s, cut);
    ListCutPosition(list, head, entry, s, k);
    ListSplice(list, head, piece, rest);
    SameRingSameLinks(s);
  }
}
