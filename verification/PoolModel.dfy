// What the address pool of ac/resource.c does, on values: the free addresses in
// list order, and the held ones with the MAC of the access point that holds them.
module PoolModel {
  import opened Common

  type Addr = x: nat | x < WORD
  type Mac = x: nat | x < 0x1_0000_0000_0000

  datatype Lease = Lease(addr: Addr, mac: Mac)

  datatype View = View(free: seq<Addr>, held: seq<Lease>)

  const EMPTY := View([], [])

  // How the two lists stand: apart; or, once an allocation has taken the head of
  // an empty free list for an entry, spliced, with n held entries taken again
  // since; or in a way that depends on the memory around the list heads.
  datatype Lists = Apart | Spliced(n: nat) | Unknown

  ghost predicate Wf(v: View) {
    && Distinct(v.free)
    && (forall i, j :: 0 <= i < j < |v.held| ==> v.held[i].addr != v.held[j].addr)
    && (forall i, j :: 0 <= i < |v.free| && 0 <= j < |v.held| ==> v.free[i] != v.held[j].addr)
  }

  // The position of the first a in s, or |s|.
  function IndexOf(s: seq<Addr>, a: Addr): (k: nat)
    ensures k <= |s| && (forall i :: 0 <= i < k ==> s[i] != a)
    ensures k < |s| ==> s[k] == a
  {
    if s == [] || s[0] == a then 0 else 1 + IndexOf(s[1..], a)
  }

  // Which free address an allocation takes: the requested one if it is free,
  // otherwise the first.
  function Choice(free: seq<Addr>, want: Option<Addr>): (k: nat)
    requires free != []
    ensures k < |free|
  {
    if want.Some? && want.value != 0 && want.value in free then IndexOf(free, want.value) else 0
  }

  // The k-th free address goes to the access point.
  function TakeAt(v: View, k: nat, mac: Mac): View
    requires k < |v.free|
  {
    View(Without(v.free, k), [Lease(v.free[k], mac)] + v.held)
  }

  function Alloc(v: View, want: Option<Addr>, mac: Mac): View
    requires v.free != []
  {
    TakeAt(v, Choice(v.free, want), mac)
  }

  ghost predicate Known(v: View, a: Addr) {
    a in v.free || exists i :: 0 <= i < |v.held| && v.held[i].addr == a
  }

  ghost function Add(v: View, a: Addr): View {
    if Known(v, a) then v else View(v.free + [a], v.held)
  }

  // Another access point holds the address.
  predicate Conflict(v: View, a: Addr, mac: Mac) {
    a != 0 && exists i :: 0 <= i < |v.held| && v.held[i].addr == a && v.held[i].mac != mac
  }

  ghost predicate Holds(v: View, a: Addr, mac: Mac) {
    Lease(a, mac) in v.held
  }

  // ---- runs --------------------------------------------------------------

  datatype Op = OpAdd(addr: Addr) | OpAlloc(want: Option<Addr>, mac: Mac)

  // An allocation from an exhausted pool is not a step of a run.
  ghost predicate Enabled(v: View, op: Op) {
    op.OpAlloc? ==> v.free != []
  }

  ghost function Apply(v: View, op: Op): View
    requires Enabled(v, op)
  {
    match op
    case OpAdd(a) => Add(v, a)
    case OpAlloc(want, mac) => Alloc(v, want, mac)
  }

  ghost predicate CanRun(v: View, ops: seq<Op>)
    decreases |ops|
  {
    ops == [] || (Enabled(v, ops[0]) && CanRun(Apply(v, ops[0]), ops[1..]))
  }

  ghost function Run(v: View, ops: seq<Op>): View
    requires CanRun(v, ops)
    decreases |ops|
  {
    if ops == [] then v else Run(Apply(v, ops[0]), ops[1..])
  }

  lemma TakeKeeps(v: View, k: nat, mac: Mac)
    requires Wf(v) && k < |v.free|
    ensures var w := TakeAt(v, k, mac);
            && Wf(w)
            && (forall a :: a in w.free <==> a in v.free && a != v.free[k])
  {
  }

  // The answer of an allocation: the requested address if it is free, otherwise
  // the first free one.
  lemma AllocAnswers(v: View, want: Option<Addr>, mac: Mac)
    requires Wf(v) && v.free != []
    ensures var got := Alloc(v, want, mac).held[0];
            && got.mac == mac && got.addr in v.free
            && (want.Some? && want.value != 0 && want.value in v.free ==> got.addr == want.value)
            && (want.None? || want.value == 0 || want.value !in v.free ==> got.addr == v.free[0])
            && (want.Some? && want.value != 0 ==> (got.addr == want.value <==> want.value in v.free))
  {
  }

  // An access point that asks again for the address it holds is given another
  // one, and then holds both.
  lemma RenewalTakesAnother(v: View, a: Addr, mac: Mac)
    requires Wf(v) && v.free != [] && Holds(v, a, mac)
    ensures !Conflict(v, a, mac)
    ensures var w := Alloc(v, Some(a), mac);
            Holds(w, a, mac) && Holds(w, v.free[0], mac) && v.free[0] != a
  {
  }

  lemma ApplyKeeps(v: View, op: Op)
    requires Wf(v) && Enabled(v, op)
    ensures Wf(Apply(v, op))
    ensures forall a, m :: Holds(v, a, m) ==> Holds(Apply(v, op), a, m)
    ensures forall a :: Known(v, a) ==> Known(Apply(v, op), a)
  {
    match op
    case OpAdd(a) =>
      if !Known(v, a) {
        assert forall b :: Known(v, b) ==> Known(Add(v, a), b);
      }
    case OpAlloc(want, mac) =>
      TakeKeeps(v, Choice(v.free, want), mac);
      var w := Alloc(v, want, mac);
      forall a | Known(v, a)
        ensures Known(w, a)
      {
        if a !in w.free {
          if a in v.free {
            assert w.held[0].addr == a;
          } else {
            var i :| 0 <= i < |v.held| && v.held[i].addr == a;
            assert w.held[i + 1].addr == a;
          }
        }
      }
  }

  // In every state a run reaches: addresses are pairwise distinct, nothing is
  // lost, and whoever holds an address keeps it, alone.
  lemma {:induction false} RunKeeps(v: View, ops: seq<Op>)
    requires Wf(v) && CanRun(v, ops)
    ensures var w := Run(v, ops);
            && Wf(w)
            && (forall a, m :: Holds(v, a, m) ==> Holds(w, a, m))
            && (forall a :: Known(v, a) ==> Known(w, a))
    decreases |ops|
  {
    if ops != [] {
      ApplyKeeps(v, ops[0]);
      RunKeeps(Apply(v, ops[0]), ops[1..]);
    }
  }

  lemma OneOwner(v: View, a: Addr, m: Mac, m': Mac)
    requires Wf(v) && Holds(v, a, m) && Holds(v, a, m')
    ensures m == m' && a !in v.free
  {
  }

  // The conflict check says no exactly when the address is unheld, held by the
  // asking access point, or zero; so a request that passes it is never answered
  // with an address of another access point.
  lemma ConflictMeansOther(v: View, a: Addr, mac: Mac)
    requires Wf(v)
    ensures Conflict(v, a, mac) <==> a != 0 && exists m :: m != mac && Holds(v, a, m)
  {
    if Conflict(v, a, mac) {
      var i :| 0 <= i < |v.held| && v.held[i].addr == a && v.held[i].mac != mac;
      assert Holds(v, a, v.held[i].mac);
    }
    if a != 0 && exists m :: m != mac && Holds(v, a, m) {
      var m :| m != mac && Holds(v, a, m);
      var i :| 0 <= i < |v.held| && v.held[i] == Lease(a, m);
    }
  }
}
