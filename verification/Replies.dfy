// Which packet answers which, and what each packet leaves alone: the switch of
// msg_proc in ac/process.c and ap/process.c, read off the steps of Handshake.
module Replies {
  import opened Common
  import opened PoolModel
  import opened RandomRing
  import opened Handshake

  // ---- the controller --------------------------------------------------------------------

  // Step k of a run: the controller gets a registration that verifies.
  predicate Grants(states: seq<State>, acts: seq<Action>, k: nat)
    requires |states| == |acts| + 1 && k < |acts|
  {
    acts[k].AcGets? && Granted(states[k].ac, acts[k].packet)
  }

  // The answer to a granted registration, with this address.
  ghost predicate AnswersWith(s: State, act: Action, apaddr: Addr) {
    act.AcGets? && act.packet.body.Reg? &&
    Sends(s, act) == Some(Sealed(RegResp(s.ac.mac, s.ac.uuid, act.random2, s.ac.addr, apaddr), act.packet.body.random))
  }

  // In every run, as long as there is a free address: a registration that verifies
  // is answered with the address it asks for if that is free, otherwise with the
  // first free one; that address goes to the sender and nothing else changes.
  lemma RegistrationAnswered(states: seq<State>, acts: seq<Action>, k: nat)
    requires IsRun(states, acts) && k < |acts| && Grants(states, acts, k)
    requires states[k].ac.lists.Apart? && states[k].ac.pool.free != []
    ensures var (s, s', reg) := (states[k], states[k + 1], acts[k].packet.body);
            var apaddr := Due(s.ac.pool.free, reg.ipv4);
            && AnswersWith(s, acts[k], apaddr)
            && Moved(s.ac.pool, apaddr, reg.mac, s'.ac.pool)
            && s'.ac == s.ac.(pool := s'.ac.pool) && s'.aps == s.aps
  {
    PoolStaysWf(states, acts, k);
    assert Step(states[k], acts[k], states[k + 1]);
    GrantAnswers(states[k].ac.pool, acts[k].packet.body.ipv4, acts[k].packet.body.mac);
  }

  // So a wish is granted if and only if it is free, and one that another access
  // point holds is not.
  lemma WishGranted(states: seq<State>, acts: seq<Action>, k: nat) returns (apaddr: Addr)
    requires IsRun(states, acts) && k < |acts| && Grants(states, acts, k)
    requires states[k].ac.lists.Apart? && states[k].ac.pool.free != []
    ensures AnswersWith(states[k], acts[k], apaddr)
    ensures var (pool, reg) := (states[k].ac.pool, acts[k].packet.body);
            && (reg.ipv4 != 0 ==> (apaddr == reg.ipv4 <==> reg.ipv4 in pool.free))
            && (reg.ipv4 == 0 || reg.ipv4 !in pool.free ==> apaddr == pool.free[0])
            && (reg.ipv4 != 0 && (exists m :: Holds(pool, reg.ipv4, m)) ==> apaddr == pool.free[0] != reg.ipv4)
  {
    var pool, reg := states[k].ac.pool, acts[k].packet.body;
    RegistrationAnswered(states, acts, k);
    PoolStaysWf(states, acts, k);
    apaddr := Due(pool.free, reg.ipv4);
    forall m | Holds(pool, reg.ipv4, m)
      ensures reg.ipv4 !in pool.free
    {
      OneOwner(pool, reg.ipv4, m, m);
    }
  }

  // Without a free address: the first answer is memory before the list head, and
  // the ones after it, without a wish, are the held addresses in their order.  No
  // address changes its owner.
  lemma ExhaustedAnswered(s: State, act: Action, s': State)
    requires Step(s, act, s') && act.AcGets? && Granted(s.ac, act.packet) && s.ac.pool.free == []
    ensures s'.ac.pool == s.ac.pool && exists apaddr :: AnswersWith(s, act, apaddr)
    ensures s.ac.lists.Apart? ==> s'.ac.lists == Spliced(0) && AnswersWith(s, act, act.wild)
    ensures s.ac.lists.Spliced? && s.ac.lists.n < |s.ac.pool.held| && act.packet.body.ipv4 == 0 ==>
              && s'.ac.lists == Spliced(s.ac.lists.n + 1)
              && AnswersWith(s, act, s.ac.pool.held[s.ac.lists.n].addr)
  {
    var apaddr := Given(s.ac, act.packet.body.ipv4, act.packet.body.mac, act.wild).2;
    assert AnswersWith(s, act, apaddr);
  }

  // Every other packet is not answered and changes nothing in the controller; a
  // broadcast changes its random only, an access point's step nothing.
  lemma OthersIgnored(s: State, act: Action, s': State)
    requires Step(s, act, s') && !(act.AcGets? && Granted(s.ac, act.packet))
    ensures s'.ac == s.ac.(random := s'.ac.random)
    ensures act.AcGets? ==> Sends(s, act) == None && s'.ac == s.ac && s'.aps == s.aps && s'.sent == s.sent
  {
  }

  // The pool changes only when a registration verifies.
  lemma {:induction false} PoolUntouched(states: seq<State>, acts: seq<Action>, i: nat, n: nat)
    requires IsRun(states, acts) && i <= n < |states|
    requires forall k :: i <= k < n ==> !Grants(states, acts, k)
    ensures states[n].ac.pool == states[i].ac.pool && states[n].ac.lists == states[i].ac.lists
  {
    if i < n {
      PoolUntouched(states, acts, i, n - 1);
      assert Step(states[n - 1], acts[n - 1], states[n]);
      assert !Grants(states, acts, n - 1);
      OthersIgnored(states[n - 1], acts[n - 1], states[n]);
    }
  }

  // The number of registrations granted in the first n steps.
  function GrantCount(states: seq<State>, acts: seq<Action>, n: nat): nat
    requires |states| == |acts| + 1 && n <= |acts|
  {
    if n == 0 then 0 else GrantCount(states, acts, n - 1) + if Grants(states, acts, n - 1) then 1 else 0
  }

  lemma MovedKeeps(pool: View, addr: Addr, mac: Mac, after: View)
    requires Moved(pool, addr, mac, after)
    ensures |after.free| == |pool.free| - 1 && |after.held| == |pool.held| + 1
    ensures forall a :: Known(after, a) <==> Known(pool, a)
  {
    var k :| 0 <= k < |pool.free| && pool.free[k] == addr && after.free == Without(pool.free, k);
    forall a
      ensures Known(after, a) <==> Known(pool, a)
    {
      if i :| 0 <= i < |pool.free| && pool.free[i] == a {
        if i == k {
          assert after.held[0].addr == a;
        } else {
          assert after.free[if i < k then i else i - 1] == a;
        }
      }
      if i :| 0 <= i < |pool.held| && pool.held[i].addr == a {
        assert after.held[i + 1].addr == a;
      }
    }
  }

  // As long as the pool lasts, no address is lost or made up, and each granted
  // registration takes exactly one.
  lemma {:induction false} AddressesConserved(states: seq<State>, acts: seq<Action>, n: nat)
    requires IsRun(states, acts) && Stocked(states, acts) && n < |states|
    ensures var (pool0, pool) := (states[0].ac.pool, states[n].ac.pool);
            && (forall a :: Known(pool, a) <==> a in pool0.free)
            && |pool.held| == GrantCount(states, acts, n)
            && |pool.free| + |pool.held| == |pool0.free|
  {
    if n > 0 {
      AddressesConserved(states, acts, n - 1);
      assert Step(states[n - 1], acts[n - 1], states[n]) && InStock(states[n - 1], acts[n - 1]);
      if Grants(states, acts, n - 1) {
        RegistrationAnswered(states, acts, n - 1);
        var reg, pool := acts[n - 1].packet.body, states[n - 1].ac.pool;
        MovedKeeps(pool, Due(pool.free, reg.ipv4), reg.mac, states[n].ac.pool);
      } else {
        OthersIgnored(states[n - 1], acts[n - 1], states[n]);
      }
    }
  }

  // ---- an access point -------------------------------------------------------------------

  // The packets that a broadcast can be answered with.
  function Registration(m: Mac, brd: Body, random1: nat, ipv4: Addr): Packet
    requires brd.Brd?
  {
    Sealed(Reg(m, brd.uuid, random1, ipv4), brd.random)
  }

  function Report(m: Mac, brd: Body, random1: nat): Packet
    requires brd.Brd?
  {
    Sealed(ApResp(m, brd.uuid, random1), brd.random)
  }

  // The access point has recorded a random for the sender, and nothing else.
  ghost predicate Recorded(ap: Ap, brd: Body, random1: nat, ap': Ap)
    requires brd.Brd?
  {
    ap' == ap.(history := ap.history + [Issue(brd.mac, random1)])
  }

  // A registered access point is silent for the broadcasts of its own controller,
  // registers with another one that names its own in `takeover`, and tells any
  // other one that it is registered elsewhere.  One that is not registered registers.
  lemma BroadcastHeard(s: State, act: Action, s': State)
    requires Step(s, act, s') && act.ApGets? && act.packet.body.Brd?
    ensures var (m, brd, out) := (act.ap, act.packet.body, Sends(s, act));
            var (ap, ap') := (s.aps[m], s'.aps[m]);
            && (out.Some? && out.value.body.Reg? <==> !ap.isreg || (brd.uuid != ap.acuuid && brd.takeover == ap.acuuid))
            && (out.Some? && out.value.body.ApResp? <==> ap.isreg && brd.uuid != ap.acuuid && brd.takeover != ap.acuuid)
            && (out == None <==> ap.isreg && brd.uuid == ap.acuuid)
            && (out == None ==> ap' == ap)
            && (out.Some? ==> Recorded(ap, brd, act.random1, ap'))
            && (out.Some? ==> out.value in {Registration(m, brd, act.random1, act.ipv4), Report(m, brd, act.random1)})
    ensures s'.ac == s.ac && forall m :: m in s.aps && m != act.ap ==> m in s'.aps && s'.aps[m] == s.aps[m]
  {
  }

  // Every other packet is not answered, and leaves the ring of randoms alone; it
  // changes the access point if and only if it is a response that is accepted.
  lemma OthersNotAnswered(s: State, act: Action, s': State)
    requires Step(s, act, s') && act.ApGets? && !act.packet.body.Brd?
    ensures Sends(s, act) == None && s'.ac == s.ac
    ensures var (p, ap, ap') := (act.packet, s.aps[act.ap], s'.aps[act.ap]);
            && ap'.history == ap.history
            && (!Accepts(ap, p, act.before) ==> s'.aps == s.aps)
            && (Accepts(ap, p, act.before) ==>
                  && ap'.isreg && ap'.acuuid == p.body.uuid && ap'.dmac == p.body.mac
                  && ap'.server == (if p.body.acaddr != 0 then p.body.acaddr else ap.server)
                  && ap'.addrs == ap.addrs + if p.body.apaddr != 0 then [p.body.apaddr] else [])
  {
  }

  // In every run, a registered access point registers again only for a broadcast
  // of another uuid that names its controller in `takeover`.
  lemma RegistersAgain(states: seq<State>, acts: seq<Action>, k: nat, m: Mac, reg: Packet)
    requires IsRun(states, acts) && k < |acts| && Registers(states, acts, k, m, reg) && states[k].aps[m].isreg
    ensures var (brd, ac) := (acts[k].packet.body, states[0].ac);
            && brd.Brd? && brd.uuid != ac.uuid && brd.takeover == ac.uuid
            && reg.body == Reg(m, brd.uuid, acts[k].random1, acts[k].ipv4)
  {
    assert Step(states[k], acts[k], states[k + 1]);
    RegisteredForGood(states, acts, k, k, m);
    if acts[k].packet.body.Brd? {
      BroadcastHeard(states[k], acts[k], states[k + 1]);
    } else {
      OthersNotAnswered(states[k], acts[k], states[k + 1]);
    }
  }

  // No broadcast in these steps names this uuid in `takeover`.
  ghost predicate NoTakeover(acts: seq<Action>, uuid: Uuid, i: nat, n: nat)
    requires i <= n <= |acts|
  {
    forall k :: i <= k < n && acts[k].ApGets? && acts[k].packet.body.Brd? ==> acts[k].packet.body.takeover != uuid
  }

  // So without such a broadcast it never registers again.
  lemma RegistersOnce(states: seq<State>, acts: seq<Action>, i: nat, k: nat, m: Mac)
    requires IsRun(states, acts) && i <= k < |acts| && m in states[i].aps && states[i].aps[m].isreg
    requires NoTakeover(acts, states[0].ac.uuid, i, |acts|)
    ensures forall reg :: !Registers(states, acts, k, m, reg)
  {
    RegisteredForGood(states, acts, i, k, m);
    forall reg
      ensures !Registers(states, acts, k, m, reg)
    {
      if Registers(states, acts, k, m, reg) {
        RegistersAgain(states, acts, k, m, reg);
      }
    }
  }
}
