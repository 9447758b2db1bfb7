// The ring of the last ten (MAC, random) pairs in ap/process.c.
module RandomRing {
  import opened PoolModel

  const LOCAL_AC_MAX := 10

  // A random issued to the controller with this MAC.
  datatype Issue = Issue(mac: Mac, random: nat)

  // ---- what a lookup answers, on the history of issues ---------------------

  // The issues still in the ring, oldest first.
  function Surviving(history: seq<Issue>): (s: seq<Issue>)
    ensures |s| == if |history| < LOCAL_AC_MAX then |history| else LOCAL_AC_MAX
  {
    if |history| <= LOCAL_AC_MAX then history else history[|history| - LOCAL_AC_MAX..]
  }

  // The first issue to the MAC, or 0.
  function FirstFor(s: seq<Issue>, mac: Mac): nat {
    if s == [] then 0 else if s[0].mac == mac then s[0].random else FirstFor(s[1..], mac)
  }

  // The newest issue if it is for this MAC, otherwise the oldest surviving one.
  function Lookup(history: seq<Issue>, mac: Mac): nat {
    if history != [] && history[|history| - 1].mac == mac then history[|history| - 1].random
    else FirstFor(Surviving(history), mac)
  }

  function Unused(n: nat): (s: seq<Issue>)
    ensures |s| == n
  {
    seq(n, _ => Issue(0, 0))
  }

  // What the loop of get_random visits, in this order: the slot before the
  // offset, then the others from the offset on.  At offset 0 the first of them is
  // the memory before the ring, and the newest issue is not visited.
  function Visited(history: seq<Issue>, before: Issue): (s: seq<Issue>)
    ensures |s| == LOCAL_AC_MAX
  {
    var kept := Surviving(history);
    if history == [] then [before] + Unused(LOCAL_AC_MAX - 1)
    else if |history| % LOCAL_AC_MAX == 0 then [before] + kept[..LOCAL_AC_MAX - 1]
    else [history[|history| - 1]] + Unused(LOCAL_AC_MAX - |kept|) + kept[..|kept| - 1]
  }

  function Answer(history: seq<Issue>, before: Issue, mac: Mac): nat {
    FirstFor(Visited(history, before), mac)
  }

  // The memory before the ring is not taken for an issue to this MAC.
  predicate Shielded(history: seq<Issue>, before: Issue, mac: Mac) {
    |history| % LOCAL_AC_MAX == 0 ==> before.mac != mac
  }

  ghost predicate Issued(history: seq<Issue>, mac: Mac, random: nat) {
    Issue(mac, random) in history
  }

  lemma {:induction false} FirstForIssued(s: seq<Issue>, mac: Mac)
    ensures (exists i :: 0 <= i < |s| && s[i].mac == mac) ==> Issued(s, mac, FirstFor(s, mac))
    ensures (forall i :: 0 <= i < |s| ==> s[i].mac != mac) ==> FirstFor(s, mac) == 0
  {
    if s != [] {
      FirstForIssued(s[1..], mac);
      if s[0].mac == mac {
        assert s[0] == Issue(mac, FirstFor(s, mac));
      } else {
        if i :| 0 <= i < |s| && s[i].mac == mac {
          assert s[1..][i - 1].mac == mac;
        }
      }
    }
  }

  lemma VisitedIssued(history: seq<Issue>, before: Issue, j: nat)
    requires j < LOCAL_AC_MAX && !(j == 0 && |history| % LOCAL_AC_MAX == 0)
    ensures Visited(history, before)[j] == Issue(0, 0) || Visited(history, before)[j] in history
  {
  }

  // A lookup answers 0 or a random that was issued to that very MAC.
  lemma AnswerIssued(history: seq<Issue>, before: Issue, mac: Mac)
    requires Shielded(history, before, mac)
    ensures Answer(history, before, mac) == 0 || Issued(history, mac, Answer(history, before, mac))
  {
    var s, random := Visited(history, before), Answer(history, before, mac);
    FirstForIssued(s, mac);
    if Issued(s, mac, random) {
      var j :| 0 <= j < |s| && s[j] == Issue(mac, random);
      VisitedIssued(history, before, j);
    }
  }

  lemma {:induction false} FirstForAfter(a: seq<Issue>, b: seq<Issue>, mac: Mac)
    requires forall i :: 0 <= i < |a| ==> a[i].mac != mac
    ensures FirstFor(a + b, mac) == FirstFor(b, mac)
    decreases |a|
  {
    if a == [] {
      assert a + b == b;
    } else {
      assert (a + b)[0] == a[0] && (a + b)[1..] == a[1..] + b;
      FirstForAfter(a[1..], b, mac);
    }
  }

  lemma {:induction false} FirstForAppend(s: seq<Issue>, e: Issue, mac: Mac)
    requires e.mac != mac
    ensures FirstFor(s + [e], mac) == FirstFor(s, mac)
  {
    var t := s + [e];
    if s == [] {
      assert t[0] == e && t[1..] == [];
    } else {
      assert t[0] == s[0] && t[1..] == s[1..] + [e];
      FirstForAppend(s[1..], e, mac);
      assert FirstFor(t, mac) == if t[0].mac == mac then t[0].random else FirstFor(t[1..], mac);
    }
  }

  lemma FirstForNewest(kept: seq<Issue>, mac: Mac)
    requires kept != [] && kept[|kept| - 1].mac != mac
    ensures FirstFor(kept[..|kept| - 1], mac) == FirstFor(kept, mac)
  {
    var n := |kept| - 1;
    assert kept == kept[..n] + [kept[n]];
    FirstForAppend(kept[..n], kept[n], mac);
  }

  // At any other offset: the newest issue if it is for the MAC, otherwise the
  // oldest surviving one, otherwise 0.
  lemma AnswerIsLookup(history: seq<Issue>, before: Issue, mac: Mac)
    requires |history| % LOCAL_AC_MAX != 0 && mac != 0
    ensures Answer(history, before, mac) == Lookup(history, mac)
  {
    var kept, newest := Surviving(history), history[|history| - 1];
    var unused, older := Unused(LOCAL_AC_MAX - |kept|), kept[..|kept| - 1];
    assert kept[|kept| - 1] == newest;
    var s := Visited(history, before);
    if newest.mac == mac {
      assert s[0] == newest;
    } else {
      assert s == ([newest] + unused) + older;
      FirstForAfter([newest] + unused, older, mac);
      FirstForNewest(kept, mac);
    }
  }

  // At offset 0: the memory before the ring if it reads as an entry for the MAC,
  // otherwise the oldest of all issues in the ring but the newest.
  lemma AnswerAtZero(history: seq<Issue>, before: Issue, mac: Mac)
    requires history != [] && |history| % LOCAL_AC_MAX == 0
    ensures Answer(history, before, mac) ==
            if before.mac == mac then before.random else FirstFor(Surviving(history)[..LOCAL_AC_MAX - 1], mac)
  {
    var rest := Surviving(history)[..LOCAL_AC_MAX - 1];
    var s := Visited(history, before);
    assert s == [before] + rest && s[0] == before && s[1..] == rest;
  }

  // ---- when the answer is the latest random for the MAC ---------------------

  // The last issue to the MAC, or 0.
  function LastFor(s: seq<Issue>, mac: Mac): nat {
    if s == [] then 0
    else if s[|s| - 1].mac == mac then s[|s| - 1].random else LastFor(s[..|s| - 1], mac)
  }

  ghost predicate AtMostOneFor(s: seq<Issue>, mac: Mac) {
    forall i, j :: 0 <= i < j < |s| && s[i].mac == mac ==> s[j].mac != mac
  }

  ghost predicate DistinctRandoms(s: seq<Issue>) {
    forall i, j :: 0 <= i < j < |s| ==> s[i].random != s[j].random
  }

  lemma {:induction false} FirstIndex(s: seq<Issue>, mac: Mac) returns (k: nat)
    requires exists i :: 0 <= i < |s| && s[i].mac == mac
    ensures k < |s| && s[k] == Issue(mac, FirstFor(s, mac))
    ensures forall i :: 0 <= i < k ==> s[i].mac != mac
  {
    if s[0].mac == mac {
      k := 0;
    } else {
      var i :| 0 <= i < |s| && s[i].mac == mac;
      assert s[1..][i - 1].mac == mac;
      k := FirstIndex(s[1..], mac);
      k := k + 1;
    }
  }

  lemma {:induction false} LastIndex(s: seq<Issue>, mac: Mac) returns (k: nat)
    requires exists i :: 0 <= i < |s| && s[i].mac == mac
    ensures k < |s| && s[k] == Issue(mac, LastFor(s, mac))
    ensures forall i :: k < i < |s| ==> s[i].mac != mac
  {
    var last := |s| - 1;
    if s[last].mac == mac {
      k := last;
    } else {
      var i :| 0 <= i < |s| && s[i].mac == mac;
      assert s[..last][i].mac == mac;
      k := LastIndex(s[..last], mac);
    }
  }

  lemma FirstIsLast(s: seq<Issue>, mac: Mac)
    requires DistinctRandoms(s) && exists i :: 0 <= i < |s| && s[i].mac == mac
    ensures FirstFor(s, mac) == LastFor(s, mac) <==> AtMostOneFor(s, mac)
  {
    var first := FirstIndex(s, mac);
    var last := LastIndex(s, mac);
    assert first <= last;
    assert first < last ==> s[first].random != s[last].random;
  }

  lemma SurvivingDistinct(history: seq<Issue>)
    requires DistinctRandoms(history)
    ensures DistinctRandoms(Surviving(history))
  {
  }

  // The lookup finds the latest random of a controller exactly when no other
  // controller was answered since, or when it has only one entry in the ring.
  lemma LookupIsLatest(history: seq<Issue>, mac: Mac)
    requires DistinctRandoms(history)
    requires exists i :: 0 <= i < |Surviving(history)| && Surviving(history)[i].mac == mac
    ensures Lookup(history, mac) == LastFor(Surviving(history), mac) <==>
            history[|history| - 1].mac == mac || AtMostOneFor(Surviving(history), mac)
  {
    var s := Surviving(history);
    assert s[|s| - 1] == history[|history| - 1];
    SurvivingDistinct(history);
    if history[|history| - 1].mac != mac {
      FirstIsLast(s, mac);
    }
  }

  lemma WithoutNewest(kept: seq<Issue>, mac: Mac)
    requires kept != [] && DistinctRandoms(kept) && kept[|kept| - 1].mac == mac && kept[|kept| - 1].random != 0
    ensures FirstFor(kept[..|kept| - 1], mac) != kept[|kept| - 1].random
  {
    var n := |kept| - 1;
    var older := kept[..n];
    FirstForIssued(older, mac);
    if Issued(older, mac, FirstFor(older, mac)) {
      var i :| 0 <= i < n && older[i] == Issue(mac, FirstFor(older, mac));
      assert kept[i].random != kept[n].random;
    }
  }

  lemma LatestButNewest(kept: seq<Issue>, mac: Mac)
    requires DistinctRandoms(kept) && exists i :: 0 <= i < |kept| && kept[i].mac == mac
    requires kept[|kept| - 1].random != 0
    ensures FirstFor(kept[..|kept| - 1], mac) == LastFor(kept, mac) <==>
            kept[|kept| - 1].mac != mac && AtMostOneFor(kept, mac)
  {
    if kept[|kept| - 1].mac != mac {
      FirstForNewest(kept, mac);
      FirstIsLast(kept, mac);
    } else {
      WithoutNewest(kept, mac);
    }
  }

  // At offset 0 the newest random is never found: the answer is the latest of a
  // controller exactly when the newest is another's and it has only one in the ring.
  lemma LatestAtZero(history: seq<Issue>, before: Issue, mac: Mac)
    requires history != [] && |history| % LOCAL_AC_MAX == 0 && before.mac != mac
    requires DistinctRandoms(history) && history[|history| - 1].random != 0
    requires exists i :: 0 <= i < |Surviving(history)| && Surviving(history)[i].mac == mac
    ensures Answer(history, before, mac) == LastFor(Surviving(history), mac) <==>
            history[|history| - 1].mac != mac && AtMostOneFor(Surviving(history), mac)
  {
    var kept := Surviving(history);
    assert |kept| == LOCAL_AC_MAX && kept[|kept| - 1] == history[|history| - 1];
    SurvivingDistinct(history);
    AnswerAtZero(history, before, mac);
    LatestButNewest(kept, mac);
  }

  // Two broadcasts of one controller with another's in between: the answer to
  // the second is keyed by the random of the first.
  lemma LookupMissesLatest(a: Mac, b: Mac)
    requires a != b
    ensures var history := [Issue(a, 1), Issue(a, 2), Issue(b, 3)];
            Lookup(history, a) == 1 && LastFor(Surviving(history), a) == 2
  {
  }

  // ---- the code --------------------------------------------------------------

  // Where the j-th visited entry lies.
  lemma VisitedSlot(history: seq<Issue>, before: Issue, rounds: nat, offset: nat, j: nat)
    requires |history| == LOCAL_AC_MAX * rounds + offset && offset < LOCAL_AC_MAX && j < LOCAL_AC_MAX && offset + j > 0
    ensures var i := offset - 1 + j;
            var k := if i < LOCAL_AC_MAX then i else i - LOCAL_AC_MAX;
            Visited(history, before)[j] ==
              if k < offset then history[LOCAL_AC_MAX * rounds + k]
              else if rounds == 0 then Issue(0, 0) else history[LOCAL_AC_MAX * rounds - LOCAL_AC_MAX + k]
  {
    assert |history| % LOCAL_AC_MAX == offset;
  }

  class Ring {
    const slots: array<Issue>
    var offset: nat
    ghost var history: seq<Issue>
    ghost var rounds: nat   // how often the ring was filled

    // Slots below the offset were written in this round, the others in the
    // previous one or, in round 0, never.
    ghost predicate Valid()
      reads this, slots
    {
      && slots.Length == LOCAL_AC_MAX
      && offset < LOCAL_AC_MAX && |history| == LOCAL_AC_MAX * rounds + offset
      && (forall k :: 0 <= k < offset ==> slots[k] == history[LOCAL_AC_MAX * rounds + k])
      && (forall k :: offset <= k < LOCAL_AC_MAX ==>
            slots[k] == if rounds == 0 then Issue(0, 0) else history[LOCAL_AC_MAX * rounds - LOCAL_AC_MAX + k])
    }

    constructor ()
      ensures Valid() && history == [] && fresh(slots)
    {
      slots := new Issue[LOCAL_AC_MAX](_ => Issue(0, 0));
      offset := 0;
      history, rounds := [], 0;
    }

    // The value of chap_get_random() is a parameter.
    method NewRandom(mac: Mac, drawn: nat) returns (random: nat)
      requires Valid()
      modifies this, slots
      ensures Valid() && history == old(history) + [Issue(mac, drawn)]
      ensures random == drawn
    {
      slots[offset] := Issue(mac, drawn);
      random := slots[offset].random;
      history := history + [Issue(mac, drawn)];
      if offset == LOCAL_AC_MAX - 1 {
        rounds := rounds + 1;
      }
      offset := (offset + 1) % LOCAL_AC_MAX;
    }

    // random_map[i % LOCAL_AC_MAX]; in C, -1 % 10 is -1.
    method Slot(i: int, before: Issue, ghost j: nat) returns (e: Issue)
      requires Valid() && j < LOCAL_AC_MAX && i == offset - 1 + j
      ensures e == Visited(history, before)[j]
    {
      if i < 0 {
        assert |history| % LOCAL_AC_MAX == 0;
        return before;
      }
      VisitedSlot(history, before, rounds, offset, j);
      var k := i % LOCAL_AC_MAX;
      assert k == if i < LOCAL_AC_MAX then i else i - LOCAL_AC_MAX;
      e := slots[k];
    }

    // `before` is what the memory before the ring reads as.
    method GetRandom(mac: Mac, before: Issue) returns (random: nat)
      requires Valid()
      ensures random == Answer(history, before, mac)
    {
      ghost var visited := Visited(history, before);
      var i, j := offset - 1, 0;
      while j < LOCAL_AC_MAX
        invariant 0 <= j <= LOCAL_AC_MAX && i == offset - 1 + j
        invariant FirstFor(visited, mac) == FirstFor(visited[j..], mac)
      {
        var e := Slot(i, before, j);
        assert visited[j..][0] == e && visited[j..][1..] == visited[j + 1..];
        if mac == e.mac {
          return e.random;
        }
        i := i + 1;
        j := j + 1;
      }
      return 0;
    }
  }
}
