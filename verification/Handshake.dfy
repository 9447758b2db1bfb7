// The registration handshake between one controller and any number of access
// points: ac/process.c, ap/process.c and ac/net.c over lib/chap.c.
//
// The digest is idealised: it is an injective function of the packet with a zero
// chap field and of the random, and nobody without the password can compute it.
// The network may drop, repeat, reorder, redirect and alter packets and make up
// its own, as long as a genuine digest in them was sent before.
module Handshake {
  import opened Common
  import opened PoolModel
  import opened RandomRing

  type Uuid = string

  // Packets without their chap field.  `mac` is the sender's.
  datatype Body =
    | Brd(mac: Mac, uuid: Uuid, random: nat, takeover: Uuid)
    | Reg(mac: Mac, uuid: Uuid, random: nat, ipv4: Addr)
    | ApResp(mac: Mac, uuid: Uuid, random: nat)
    | RegResp(mac: Mac, uuid: Uuid, random: nat, acaddr: Addr, apaddr: Addr)

  // The digest of a body, a random and the password.
  datatype Digest = Digest(body: Body, key: nat)

  datatype Chap = Genuine(digest: Digest) | Other

  datatype Packet = Packet(body: Body, chap: Chap)

  // chap_fill_msg_md5 and chap_msg_cmp_md5(...) == 0
  function Sealed(body: Body, key: nat): Packet { Packet(body, Genuine(Digest(body, key))) }

  predicate Verifies(p: Packet, key: nat) { p.chap == Genuine(Digest(p.body, key)) }

  // ---- the controller --------------------------------------------------------

  datatype Ac = Ac(mac: Mac, uuid: Uuid, addr: Addr, random: nat, pool: View, lists: Lists)

  predicate Granted(ac: Ac, p: Packet) { p.body.Reg? && Verifies(p, ac.random) }

  // res_ip_conflict and res_ip_alloc as __ap_reg uses them, with a free address.
  function Grant(pool: View, ipv4: Addr, mac: Mac): (View, Addr)
    requires pool.free != []
  {
    var want := if Conflict(pool, ipv4, mac) then None else Some(ipv4);
    var granted := Alloc(pool, want, mac);
    (granted, granted.held[0].addr)
  }

  // The same in every state.  The first allocation from an exhausted pool answers
  // what lies in memory before the list head, and the next ones without a wish the
  // held addresses again; `wild` is what depends on the memory around the heads.
  function Given(ac: Ac, ipv4: Addr, mac: Mac, wild: Addr): (View, Lists, Addr) {
    if ac.lists.Apart? && ac.pool.free != [] then
      var (pool, apaddr) := Grant(ac.pool, ipv4, mac);
      (pool, Apart, apaddr)
    else if ac.lists.Apart? then (ac.pool, Spliced(0), wild)
    else if ac.lists.Spliced? && ac.lists.n < |ac.pool.held| && ipv4 == 0 then
      (ac.pool, Spliced(ac.lists.n + 1), ac.pool.held[ac.lists.n].addr)
    else (ac.pool, Unknown, wild)
  }

  // msg_proc of the controller: the new state and the packet sent, if any.
  function AcMsgProc(ac: Ac, p: Packet, random2: nat, wild: Addr): (Ac, Option<Packet>) {
    if Granted(ac, p) then
      var (pool, lists, apaddr) := Given(ac, p.body.ipv4, p.body.mac, wild);
      (ac.(pool := pool, lists := lists),
       Some(Sealed(RegResp(ac.mac, ac.uuid, random2, ac.addr, apaddr), p.body.random)))
    else (ac, None)
  }

  // ---- an access point ---------------------------------------------------------

  datatype Ap = Ap(history: seq<Issue>, isreg: bool, acuuid: Uuid, dmac: Mac, server: Addr, addrs: seq<Addr>)

  // _proc_brd
  function ProcBrd(mac: Mac, ap: Ap, brd: Body, random1: nat, ipv4: Addr): (Ap, Option<Packet>)
    requires brd.Brd?
  {
    (ap.(history := ap.history + [Issue(brd.mac, random1)]),
     Some(Sealed(Reg(mac, brd.uuid, random1, ipv4), brd.random)))
  }

  // _proc_brd_isreg
  function ProcBrdIsReg(mac: Mac, ap: Ap, brd: Body, random1: nat, ipv4: Addr): (Ap, Option<Packet>)
    requires brd.Brd?
  {
    if brd.uuid == ap.acuuid then (ap, None)
    else if brd.takeover == ap.acuuid then ProcBrd(mac, ap, brd, random1, ipv4)
    else
      (ap.(history := ap.history + [Issue(brd.mac, random1)]),
       Some(Sealed(ApResp(mac, brd.uuid, random1), brd.random)))
  }

  // proc_reg_resp: the state after an accepted response
  function Registered(ap: Ap, resp: Body): Ap
    requires resp.RegResp?
  {
    ap.(isreg := true, acuuid := resp.uuid, dmac := resp.mac,
        server := if resp.acaddr != 0 then resp.acaddr else ap.server,
        addrs := if resp.apaddr != 0 then ap.addrs + [resp.apaddr] else ap.addrs)
  }

  // The key that get_random finds for a response; `before` is the memory before
  // its ring.
  function Key(ap: Ap, p: Packet, before: Issue): nat { Answer(ap.history, before, p.body.mac) }

  predicate Accepts(ap: Ap, p: Packet, before: Issue) { p.body.RegResp? && Verifies(p, Key(ap, p, before)) }

  // msg_proc of the access point.
  function ApMsgProc(mac: Mac, ap: Ap, p: Packet, random1: nat, ipv4: Addr, before: Issue): (Ap, Option<Packet>) {
    match p.body
    case Brd(_, _, _, _) =>
      if ap.isreg then ProcBrdIsReg(mac, ap, p.body, random1, ipv4) else ProcBrd(mac, ap, p.body, random1, ipv4)
    case RegResp(_, _, _, _, _) =>
      if Accepts(ap, p, before) then (Registered(ap, p.body), None) else (ap, None)
    case _ => (ap, None)
  }

  // ---- runs ----------------------------------------------------------------------

  // `sent` are the digests computed so far, `used` the randoms drawn so far.
  datatype State = State(ac: Ac, aps: map<Mac, Ap>, sent: set<Digest>, used: set<nat>)

  datatype Action =
    | AcBroadcasts(random0: nat)
    | AcGets(packet: Packet, random2: nat, wild: Addr)
    | ApGets(ap: Mac, packet: Packet, random1: nat, ipv4: Addr, before: Issue)

  ghost predicate Init(s: State) {
    && s.sent == {} && s.used == {}
    && Wf(s.ac.pool) && s.ac.pool.held == [] && s.ac.lists == Apart
    && forall m :: m in s.aps ==> !s.aps[m].isreg && s.aps[m].history == [] && s.aps[m].addrs == []
  }

  predicate Fresh(s: State, random: nat) { random != 0 && random !in s.used }

  predicate Deliverable(s: State, p: Packet) { p.chap.Genuine? ==> p.chap.digest in s.sent }

  function Digests(out: Option<Packet>): set<Digest> {
    if out.Some? && out.value.chap.Genuine? then {out.value.chap.digest} else {}
  }

  // The packet that a step puts on the network; a broadcast carries no digest.
  function Sends(s: State, act: Action): Option<Packet> {
    match act
    case AcBroadcasts(_) => None
    case AcGets(p, random2, wild) => AcMsgProc(s.ac, p, random2, wild).1
    case ApGets(m, p, random1, ipv4, before) =>
      if m in s.aps then ApMsgProc(m, s.aps[m], p, random1, ipv4, before).1 else None
  }

  ghost predicate Step(s: State, act: Action, s': State) {
    && s'.sent == s.sent + Digests(Sends(s, act))
    && match act
       case AcBroadcasts(random0) =>
         Fresh(s, random0) && s'.ac == s.ac.(random := random0) && s'.aps == s.aps && s'.used == s.used + {random0}
       case AcGets(p, random2, wild) =>
         && Deliverable(s, p) && Fresh(s, random2)
         && s'.ac == AcMsgProc(s.ac, p, random2, wild).0 && s'.aps == s.aps && s'.used == s.used + {random2}
       case ApGets(m, p, random1, ipv4, before) =>
         && m in s.aps && Deliverable(s, p) && Fresh(s, random1)
         && (p.body.RegResp? ==> Shielded(s.aps[m].history, before, p.body.mac))
         && s'.ac == s.ac && s'.aps == s.aps[m := ApMsgProc(m, s.aps[m], p, random1, ipv4, before).0]
         && s'.used == s.used + {random1}
  }

  ghost predicate IsRun(states: seq<State>, acts: seq<Action>) {
    && |states| == |acts| + 1
    && Init(states[0])
    && forall k :: 0 <= k < |acts| ==> Step(states[k], acts[k], states[k + 1])
  }

  // There is a free address at every registration that is granted.
  ghost predicate Stocked(states: seq<State>, acts: seq<Action>)
    requires IsRun(states, acts)
  {
    forall k :: 0 <= k < |acts| ==> InStock(states[k], acts[k])
  }

  predicate InStock(s: State, act: Action) {
    act.AcGets? && Granted(s.ac, act.packet) ==> s.ac.lists.Apart? && s.ac.pool.free != []
  }

  // ---- what every reachable state satisfies ---------------------------------------

  ghost predicate Drew(ap: Ap, random: nat) {
    exists i :: 0 <= i < |ap.history| && ap.history[i].random == random
  }

  // Randoms drawn by access points are used, non-zero, and of one access point.
  ghost predicate RandomsOwned(s: State) {
    && (forall m, r {:trigger Drew(s.aps[m], r)} :: m in s.aps && Drew(s.aps[m], r) ==> r != 0 && r in s.used)
    && (forall m, m', r {:trigger Drew(s.aps[m], r), Drew(s.aps[m'], r)} ::
          m in s.aps && m' in s.aps && Drew(s.aps[m], r) && Drew(s.aps[m'], r) ==> m == m')
  }

  // A digest of a registration is of a random its access point drew.
  ghost predicate RegsOwned(s: State) {
    forall d :: d in s.sent && d.body.Reg? ==> d.body.mac in s.aps && Drew(s.aps[d.body.mac], d.body.random)
  }

  // The key of a digest was drawn by this access point.
  ghost predicate KeyedBy(s: State, d: Digest, m: Mac) {
    m in s.aps && Drew(s.aps[m], d.key)
  }

  // A digest of a response is keyed by a random of some access point.
  ghost predicate RespsOwned(s: State) {
    forall d :: d in s.sent && d.body.RegResp? ==> exists m :: KeyedBy(s, d, m)
  }

  // No access point draws a random twice.
  ghost predicate DrawsDistinct(s: State) {
    forall m :: m in s.aps ==> DistinctRandoms(s.aps[m].history)
  }

  ghost predicate Inv(s: State) {
    RandomsOwned(s) && DrawsDistinct(s) && RegsOwned(s) && RespsOwned(s)
  }

  // As long as the pool is not exhausted: the address in a response is held by the
  // access point that drew its key, and so is every address that was accepted.
  ghost predicate RespsHeld(s: State) {
    forall d, m :: d in s.sent && d.body.RegResp? && d.body.apaddr != 0 && KeyedBy(s, d, m) ==>
      Holds(s.ac.pool, d.body.apaddr, m)
  }

  ghost predicate AddrsHeld(s: State) {
    forall m, a :: m in s.aps && a in s.aps[m].addrs ==> a != 0 && Holds(s.ac.pool, a, m)
  }

  ghost predicate Owned(s: State) {
    s.ac.lists.Apart? && Wf(s.ac.pool) && RespsHeld(s) && AddrsHeld(s)
  }

  // ---- one step keeps it --------------------------------------------------------------

  lemma GrantKeeps(pool: View, ipv4: Addr, mac: Mac)
    requires Wf(pool) && pool.free != []
    ensures var (after, addr) := Grant(pool, ipv4, mac);
            && Wf(after)
            && (forall a, m :: Holds(pool, a, m) ==> Holds(after, a, m))
            && Holds(after, addr, mac)
  {
    var want := if Conflict(pool, ipv4, mac) then None else Some(ipv4);
    ApplyKeeps(pool, OpAlloc(want, mac));
    assert Alloc(pool, want, mac).held[0].mac == mac;
  }

  // The address that is due to a registration with this wish.
  function Due(free: seq<Addr>, ipv4: Addr): Addr
    requires free != []
  {
    if ipv4 != 0 && ipv4 in free then ipv4 else free[0]
  }

  // The address has gone from one list to the front of the other.
  ghost predicate Moved(pool: View, addr: Addr, mac: Mac, after: View) {
    && after.held == [Lease(addr, mac)] + pool.held
    && exists k {:trigger pool.free[k]} ::
         0 <= k < |pool.free| && pool.free[k] == addr && after.free == Without(pool.free, k)
  }

  lemma GrantAnswers(pool: View, ipv4: Addr, mac: Mac)
    requires Wf(pool) && pool.free != []
    ensures var (after, addr) := Grant(pool, ipv4, mac);
            addr == Due(pool.free, ipv4) && Moved(pool, addr, mac, after)
    ensures Conflict(pool, ipv4, mac) ==> ipv4 !in pool.free
  {
    var want := if Conflict(pool, ipv4, mac) then None else Some(ipv4);
    var k := Choice(pool.free, want);
    AllocAnswers(pool, want, mac);
    assert Grant(pool, ipv4, mac) == (TakeAt(pool, k, mac), pool.free[k]);
  }

  // Responses stay owned when no new ones are sent and nothing is forgotten.
  lemma RespsKept(s: State, s': State)
    requires RespsOwned(s)
    requires forall d :: d in s'.sent && d.body.RegResp? ==> d in s.sent
    requires forall m :: m in s.aps ==> m in s'.aps && forall r :: Drew(s.aps[m], r) ==> Drew(s'.aps[m], r)
    ensures RespsOwned(s')
  {
    forall d | d in s'.sent && d.body.RegResp?
      ensures exists m :: KeyedBy(s', d, m)
    {
      var m :| KeyedBy(s, d, m);
      assert KeyedBy(s', d, m);
    }
  }

  lemma AcGetsKeeps(s: State, p: Packet, random2: nat, wild: Addr, s': State)
    requires Inv(s) && Step(s, AcGets(p, random2, wild), s')
    ensures Inv(s')
  {
    if Granted(s.ac, p) {
      forall d | d in s'.sent && d.body.RegResp?
        ensures exists m :: KeyedBy(s', d, m)
      {
        if d in s.sent {
          var m :| KeyedBy(s, d, m);
          assert KeyedBy(s', d, m);
        } else {
          assert p.chap.digest in s.sent;
          assert KeyedBy(s', d, p.body.mac);
        }
      }
    } else {
      RespsKept(s, s');
    }
  }

  lemma AcGetsOwned(s: State, p: Packet, random2: nat, wild: Addr, s': State)
    requires Inv(s) && Owned(s) && Step(s, AcGets(p, random2, wild), s') && InStock(s, AcGets(p, random2, wild))
    ensures Owned(s')
  {
    if Granted(s.ac, p) {
      GrantKeeps(s.ac.pool, p.body.ipv4, p.body.mac);
      forall d, m | d in s'.sent && d.body.RegResp? && d.body.apaddr != 0 && KeyedBy(s', d, m)
        ensures Holds(s'.ac.pool, d.body.apaddr, m)
      {
        if d in s.sent {
          assert KeyedBy(s, d, m);
        } else {
          assert p.chap.digest in s.sent;
          assert Drew(s.aps[p.body.mac], p.body.random) && m == p.body.mac;
        }
      }
    }
  }

  // What an access point drew stays drawn when it or another one takes a step.
  lemma HistoryGrows(m: Mac, ap: Ap, p: Packet, random1: nat, ipv4: Addr, before: Issue)
    ensures var (after, out) := ApMsgProc(m, ap, p, random1, ipv4, before);
            && (forall r :: Drew(after, r) ==> Drew(ap, r) || r == random1)
            && (forall r :: Drew(ap, r) ==> Drew(after, r))
            && (out.Some? ==> Drew(after, random1) && out.value.body.random == random1)
            && (out.Some? ==> !out.value.body.RegResp? && out.value.body.mac == m)
  {
    var (after, out) := ApMsgProc(m, ap, p, random1, ipv4, before);
    if after.history != ap.history {
      assert after.history == ap.history + [Issue(p.body.mac, random1)];
      assert after.history[|ap.history|].random == random1;
      forall r | Drew(ap, r)
        ensures Drew(after, r)
      {
        var i :| 0 <= i < |ap.history| && ap.history[i].random == r;
        assert after.history[i].random == r;
      }
    }
  }

  // An accepted response is keyed by a random of this very access point.
  lemma AcceptedIsOwn(s: State, m: Mac, p: Packet, before: Issue)
    requires Inv(s) && m in s.aps && Deliverable(s, p) && Accepts(s.aps[m], p, before)
    requires Shielded(s.aps[m].history, before, p.body.mac)
    ensures Digest(p.body, Key(s.aps[m], p, before)) in s.sent
    ensures KeyedBy(s, Digest(p.body, Key(s.aps[m], p, before)), m)
  {
    var history, key := s.aps[m].history, Key(s.aps[m], p, before);
    var owner :| KeyedBy(s, Digest(p.body, key), owner);
    AnswerIssued(history, before, p.body.mac);
    assert Drew(s.aps[owner], key);
    assert key != 0;
    var i :| 0 <= i < |history| && history[i] == Issue(p.body.mac, key);
    assert Drew(s.aps[m], key);
  }

  lemma DrawStaysDistinct(ap: Ap, m: Mac, p: Packet, random1: nat, ipv4: Addr, before: Issue)
    requires DistinctRandoms(ap.history) && !Drew(ap, random1)
    ensures DistinctRandoms(ApMsgProc(m, ap, p, random1, ipv4, before).0.history)
  {
  }

  lemma ApGetsKeeps(s: State, m: Mac, p: Packet, random1: nat, ipv4: Addr, before: Issue, s': State)
    requires Inv(s) && Step(s, ApGets(m, p, random1, ipv4, before), s')
    ensures Inv(s')
  {
    HistoryGrows(m, s.aps[m], p, random1, ipv4, before);
    DrawStaysDistinct(s.aps[m], m, p, random1, ipv4, before);
    RespsKept(s, s');
  }

  lemma ApGetsOwned(s: State, m: Mac, p: Packet, random1: nat, ipv4: Addr, before: Issue, s': State)
    requires Inv(s) && Owned(s) && Step(s, ApGets(m, p, random1, ipv4, before), s')
    ensures Owned(s')
  {
    HistoryGrows(m, s.aps[m], p, random1, ipv4, before);
    forall d, m' | d in s'.sent && d.body.RegResp? && d.body.apaddr != 0 && KeyedBy(s', d, m')
      ensures Holds(s'.ac.pool, d.body.apaddr, m')
    {
      var owner :| KeyedBy(s, d, owner);
      assert Drew(s.aps[owner], d.key) && d.key in s.used;
      assert KeyedBy(s, d, m');
    }
    if Accepts(s.aps[m], p, before) {
      AcceptedIsOwn(s, m, p, before);
    }
  }

  lemma StepKeeps(s: State, act: Action, s': State)
    requires Inv(s) && Step(s, act, s')
    ensures Inv(s')
    ensures Owned(s) && InStock(s, act) ==> Owned(s')
  {
    match act
    case AcBroadcasts(random0) => RespsKept(s, s');
    case AcGets(p, random2, wild) =>
      AcGetsKeeps(s, p, random2, wild, s');
      if Owned(s) && InStock(s, act) {
        AcGetsOwned(s, p, random2, wild, s');
      }
    case ApGets(m, p, random1, ipv4, before) =>
      ApGetsKeeps(s, m, p, random1, ipv4, before, s');
      if Owned(s) {
        ApGetsOwned(s, m, p, random1, ipv4, before, s');
      }
  }

  lemma {:induction false} RunKeeps(states: seq<State>, acts: seq<Action>, n: nat)
    requires IsRun(states, acts) && n < |states|
    ensures Inv(states[n])
    ensures Stocked(states, acts) ==> Owned(states[n])
  {
    if n > 0 {
      RunKeeps(states, acts, n - 1);
      StepKeeps(states[n - 1], acts[n - 1], states[n]);
    }
  }

  lemma {:induction false} PoolStaysWf(states: seq<State>, acts: seq<Action>, n: nat)
    requires IsRun(states, acts) && n < |states|
    ensures Wf(states[n].ac.pool)
  {
    if n > 0 {
      PoolStaysWf(states, acts, n - 1);
      assert Step(states[n - 1], acts[n - 1], states[n]);
      var s, act := states[n - 1], acts[n - 1];
      if act.AcGets? && Granted(s.ac, act.packet) && s.ac.pool.free != [] {
        GrantKeeps(s.ac.pool, act.packet.body.ipv4, act.packet.body.mac);
      }
    }
  }

  // ---- the main results ------------------------------------------------------------------

  // One address, one access point: in no run in which the pool lasts do two access
  // points accept the same address.
  lemma AddressesDisjoint(states: seq<State>, acts: seq<Action>, n: nat, m: Mac, m': Mac, a: Addr)
    requires IsRun(states, acts) && Stocked(states, acts) && n < |states|
    requires m in states[n].aps && m' in states[n].aps
    requires a in states[n].aps[m].addrs && a in states[n].aps[m'].addrs
    ensures m == m' && a != 0
  {
    RunKeeps(states, acts, n);
    OneOwner(states[n].ac.pool, a, m, m');
  }

  // A digest on the network was put there by an earlier step.
  lemma {:induction false} Origin(states: seq<State>, acts: seq<Action>, n: nat, d: Digest) returns (k: nat)
    requires IsRun(states, acts) && n < |states| && d in states[n].sent
    ensures k < n && Sends(states[k], acts[k]) == Some(Packet(d.body, Genuine(d)))
  {
    if d in states[n - 1].sent {
      k := Origin(states, acts, n - 1, d);
    } else {
      k := n - 1;
    }
  }

  // Step k of a run: the access point registers with this packet.
  ghost predicate Registers(states: seq<State>, acts: seq<Action>, k: nat, m: Mac, reg: Packet)
    requires IsRun(states, acts) && k < |acts|
  {
    acts[k].ApGets? && acts[k].ap == m && reg.body.Reg? && Sends(states[k], acts[k]) == Some(reg)
  }

  // Step k of a run: the controller gets this registration, verifies it against
  // its broadcast random of that moment and answers it with this packet.
  ghost predicate Answers(states: seq<State>, acts: seq<Action>, k: nat, reg: Packet, resp: Packet)
    requires IsRun(states, acts) && k < |acts|
  {
    && acts[k].AcGets? && acts[k].packet == reg && reg.body.Reg?
    && Verifies(reg, states[k].ac.random)
    && Sends(states[k], acts[k]) == Some(resp)
  }

  // Agreement: a response that an access point accepts was sent, identical in
  // every field, by the controller in an earlier step, as the answer to a
  // registration which that same access point had sent before.
  lemma Agreement(states: seq<State>, acts: seq<Action>, j: nat, m: Mac, p: Packet)
    returns (k: nat, l: nat, reg: Packet)
    requires IsRun(states, acts) && j < |acts|
    requires acts[j].ApGets? && acts[j].ap == m && acts[j].packet == p
    requires m in states[j].aps && Accepts(states[j].aps[m], p, acts[j].before)
    ensures l < k < j
    ensures Answers(states, acts, k, reg, p)
    ensures Registers(states, acts, l, m, reg)
    ensures reg.body.random == Key(states[j].aps[m], p, acts[j].before)
    ensures m in states[j + 1].aps && states[j + 1].aps[m].isreg
  {
    RunKeeps(states, acts, j);
    assert Step(states[j], acts[j], states[j + 1]);
    var s, key := states[j], Key(states[j].aps[m], p, acts[j].before);
    AcceptedIsOwn(s, m, p, acts[j].before);
    k := Origin(states, acts, j, Digest(p.body, key));
    assert Step(states[k], acts[k], states[k + 1]);
    reg := acts[k].packet;
    l := Origin(states, acts, k, reg.chap.digest);
    assert Step(states[l], acts[l], states[l + 1]);
    HistoryGrows(acts[l].ap, states[l].aps[acts[l].ap], acts[l].packet, acts[l].random1, acts[l].ipv4, acts[l].before);
    HistoryKept(states, acts, l + 1, j, reg.body.mac, key);
    assert Drew(s.aps[m], key) && Drew(s.aps[reg.body.mac], key);
  }

  lemma {:induction false} HistoryKept(states: seq<State>, acts: seq<Action>, i: nat, j: nat, m: Mac, r: nat)
    requires IsRun(states, acts) && i <= j < |states|
    requires m in states[i].aps && Drew(states[i].aps[m], r)
    ensures m in states[j].aps && Drew(states[j].aps[m], r)
  {
    if i < j {
      HistoryKept(states, acts, i, j - 1, m, r);
      assert Step(states[j - 1], acts[j - 1], states[j]);
      match acts[j - 1]
      case ApGets(m', p, random1, ipv4, before) => HistoryGrows(m', states[j - 1].aps[m'], p, random1, ipv4, before);
      case _ =>
    }
  }

  // The access point has the controller's identity and, if it was sent one, its address.
  ghost predicate Knows(ap: Ap, ac: Ac) {
    ap.acuuid == ac.uuid && ap.dmac == ac.mac && (ac.addr != 0 ==> ap.server == ac.addr)
  }

  ghost predicate Identified(s: State) {
    && (forall d :: d in s.sent && d.body.RegResp? ==>
          d.body.uuid == s.ac.uuid && d.body.mac == s.ac.mac && d.body.acaddr == s.ac.addr)
    && (forall m :: m in s.aps && s.aps[m].isreg ==> Knows(s.aps[m], s.ac))
  }

  lemma StepIdentifies(s: State, act: Action, s': State)
    requires Identified(s) && Step(s, act, s')
    ensures Identified(s')
    ensures forall m :: m in s.aps && s.aps[m].isreg ==> m in s'.aps && s'.aps[m].isreg
    ensures s'.ac.uuid == s.ac.uuid && s'.ac.mac == s.ac.mac && s'.ac.addr == s.ac.addr
  {
  }

  lemma {:induction false} RunIdentifies(states: seq<State>, acts: seq<Action>, n: nat)
    requires IsRun(states, acts) && n < |states|
    ensures Identified(states[n])
    ensures var (ac, ac0) := (states[n].ac, states[0].ac);
            ac.uuid == ac0.uuid && ac.mac == ac0.mac && ac.addr == ac0.addr
  {
    if n > 0 {
      RunIdentifies(states, acts, n - 1);
      StepIdentifies(states[n - 1], acts[n - 1], states[n]);
    }
  }

  // Once registered, an access point stays registered, and with this very
  // controller, whatever broadcasts and responses it is sent.
  lemma {:induction false} RegisteredForGood(states: seq<State>, acts: seq<Action>, i: nat, n: nat, m: Mac)
    requires IsRun(states, acts) && i <= n < |states|
    requires m in states[i].aps && states[i].aps[m].isreg
    ensures m in states[n].aps && states[n].aps[m].isreg && Knows(states[n].aps[m], states[0].ac)
  {
    RunIdentifies(states, acts, n);
    if i < n {
      RegisteredForGood(states, acts, i, n - 1, m);
      RunIdentifies(states, acts, n - 1);
      StepIdentifies(states[n - 1], acts[n - 1], states[n]);
    }
  }

  // ---- the handshake does go through --------------------------------------------------------

  lemma {:induction false} FreshExists(used: set<nat>) returns (bound: nat)
    ensures bound > 0 && forall r :: r in used ==> r < bound
  {
    if used == {} {
      bound := 1;
    } else {
      var r :| r in used;
      var rest := FreshExists(used - {r});
      bound := if r < rest then rest else r + 1;
      assert forall x :: x in used ==> x == r || x in used - {r};
    }
  }

  // In every reachable state, a response to its newest random is accepted by an
  // access point if and only if its ring is not at offset 0 and the response comes
  // from the controller it drew the random for.
  lemma AcceptsExactly(states: seq<State>, acts: seq<Action>, n: nat, m: Mac, resp: Packet, before: Issue)
    requires IsRun(states, acts) && n < |states| && m in states[n].aps && resp.body.RegResp?
    requires var history := states[n].aps[m].history;
             history != [] && Verifies(resp, history[|history| - 1].random) && Shielded(history, before, resp.body.mac)
    ensures var history := states[n].aps[m].history;
            Accepts(states[n].aps[m], resp, before) <==>
            |history| % 10 != 0 && resp.body.mac == history[|history| - 1].mac
  {
    var ap := states[n].aps[m];
    var history, last := ap.history, |ap.history| - 1;
    RunKeeps(states, acts, n);
    assert Drew(ap, history[last].random);
    AnswerNewest(history, before, resp.body.mac);
  }

  lemma AnswerNewest(history: seq<Issue>, before: Issue, mac: Mac)
    requires history != [] && DistinctRandoms(history) && history[|history| - 1].random != 0
    requires Shielded(history, before, mac)
    ensures Answer(history, before, mac) == history[|history| - 1].random <==>
            |history| % LOCAL_AC_MAX != 0 && mac == history[|history| - 1].mac
  {
    var last := |history| - 1;
    if Answer(history, before, mac) == history[last].random {
      AnswerIssued(history, before, mac);
      var i :| 0 <= i < |history| && history[i] == Issue(mac, history[last].random);
      assert i == last;
      if |history| % LOCAL_AC_MAX == 0 {
        NewestMissed(history, before);
      }
    } else if |history| % LOCAL_AC_MAX != 0 && mac == history[last].mac {
      FirstVisited(history, before);
    }
  }

  lemma NewestMissed(history: seq<Issue>, before: Issue)
    requires history != [] && |history| % LOCAL_AC_MAX == 0 && DistinctRandoms(history)
    requires history[|history| - 1].random != 0 && before.mac != history[|history| - 1].mac
    ensures Answer(history, before, history[|history| - 1].mac) != history[|history| - 1].random
  {
    var kept := Surviving(history);
    assert |kept| == LOCAL_AC_MAX && kept[|kept| - 1] == history[|history| - 1];
    SurvivingDistinct(history);
    AnswerAtZero(history, before, history[|history| - 1].mac);
    WithoutNewest(kept, history[|history| - 1].mac);
  }

  // The state after a controller or access point step that draws this random.
  ghost function Next(s: State, act: Action, random: nat): State {
    State(if act.AcGets? then AcMsgProc(s.ac, act.packet, act.random2, act.wild).0 else s.ac,
          if act.ApGets? && act.ap in s.aps
            then s.aps[act.ap := ApMsgProc(act.ap, s.aps[act.ap], act.packet, act.random1, act.ipv4, act.before).0]
            else s.aps,
          s.sent + Digests(Sends(s, act)), s.used + {random})
  }

  // A broadcast and its answer.
  lemma Registering(s: State, m: Mac, ipv4: Addr, takeover: Uuid, r: nat)
    returns (a0: Action, s1: State, a1: Action, s2: State, reg: Packet)
    requires m in s.aps && !s.aps[m].isreg && r > 0 && forall x :: x in s.used ==> x < r
    ensures Step(s, a0, s1) && Step(s1, a1, s2) && a1.ApGets? && a1.ap == m && Sends(s1, a1) == Some(reg)
    ensures s2.used == s.used + {r, r + 1} && s2.ac == s.ac.(random := r)
    ensures s2.aps == s.aps[m := s.aps[m].(history := s.aps[m].history + [Issue(s.ac.mac, r + 1)])]
    ensures reg == Sealed(Reg(m, s.ac.uuid, r + 1, ipv4), r) && reg.chap.digest in s2.sent
  {
    var brd := Packet(Brd(s.ac.mac, s.ac.uuid, r, takeover), Other);
    a0, a1 := AcBroadcasts(r), ApGets(m, brd, r + 1, ipv4, Issue(0, 0));
    s1 := s.(ac := s.ac.(random := r), used := s.used + {r});
    s2 := Next(s1, a1, r + 1);
    reg := Sealed(Reg(m, s.ac.uuid, r + 1, ipv4), r);
    assert {r} + {r + 1} == {r, r + 1};
  }

  // The answer of the controller.
  lemma Answering(s: State, reg: Packet, wild: Addr, r: nat) returns (act: Action, s': State, resp: Packet)
    requires Granted(s.ac, reg) && reg.chap.digest in s.sent && Fresh(s, r)
    ensures Step(s, act, s') && act == AcGets(reg, r, wild) && Sends(s, act) == Some(resp)
    ensures s'.aps == s.aps && s'.used == s.used + {r} && s'.sent == s.sent + {resp.chap.digest}
    ensures var (pool, lists, apaddr) := Given(s.ac, reg.body.ipv4, reg.body.mac, wild);
            && s'.ac == s.ac.(pool := pool, lists := lists)
            && resp == Sealed(RegResp(s.ac.mac, s.ac.uuid, r, s.ac.addr, apaddr), reg.body.random)
  {
    act := AcGets(reg, r, wild);
    s' := Next(s, act, r);
    resp := AcMsgProc(s.ac, reg, r, wild).1.value;
  }

  // The access point takes an answer to its newest random.
  lemma Taking(s: State, m: Mac, resp: Packet, r: nat) returns (act: Action, s': State)
    requires m in s.aps && Fresh(s, r) && resp.body.RegResp?
    requires var history := s.aps[m].history;
             && history != [] && |history| % LOCAL_AC_MAX != 0 && history[|history| - 1].mac == resp.body.mac
             && Verifies(resp, history[|history| - 1].random) && resp.chap.digest in s.sent
    ensures Step(s, act, s') && !act.AcGets?
    ensures s'.ac == s.ac && s'.aps == s.aps[m := Registered(s.aps[m], resp.body)]
  {
    act := ApGets(m, resp, r, 0, Issue(0, 0));
    FirstVisited(s.aps[m].history, Issue(0, 0));
    s' := Next(s, act, r);
  }

  lemma FirstVisited(history: seq<Issue>, before: Issue)
    requires history != [] && |history| % LOCAL_AC_MAX != 0
    ensures Answer(history, before, history[|history| - 1].mac) == history[|history| - 1].random
  {
    assert Visited(history, before)[0] == history[|history| - 1];
  }

  lemma Extends(states: seq<State>, acts: seq<Action>, act: Action, s: State)
    requires IsRun(states, acts) && Step(states[|acts|], act, s)
    ensures IsRun(states + [s], acts + [act])
  {
    var states', acts' := states + [s], acts + [act];
    forall k | 0 <= k < |acts'|
      ensures Step(states'[k], acts'[k], states'[k + 1])
    {
      if k < |acts| {
        assert Step(states[k], acts[k], states[k + 1]);
      }
    }
  }

  lemma ThreeMore(states: seq<State>, acts: seq<Action>, a0: Action, s1: State, a1: Action, s2: State, a2: Action,
                  s3: State)
    returns (states': seq<State>, acts': seq<Action>)
    requires IsRun(states, acts)
    requires Step(states[|acts|], a0, s1) && Step(s1, a1, s2) && Step(s2, a2, s3)
    ensures IsRun(states', acts') && states' == states + [s1, s2, s3] && acts' == acts + [a0, a1, a2]
  {
    Extends(states, acts, a0, s1);
    Extends(states + [s1], acts + [a0], a1, s2);
    Extends(states + [s1] + [s2], acts + [a0] + [a1], a2, s3);
    states', acts' := states + [s1] + [s2] + [s3], acts + [a0] + [a1] + [a2];
  }

  // The access point is registered with the controller and has gained this
  // address, unless it is 0; nobody else is affected.
  ghost predicate Gained(s: State, m: Mac, apaddr: Addr, s': State) {
    && m in s.aps && s'.aps.Keys == s.aps.Keys
    && s'.aps[m].isreg && Knows(s'.aps[m], s.ac)
    && s'.aps[m].addrs == s.aps[m].addrs + (if apaddr != 0 then [apaddr] else [])
    && forall m' :: m' in s.aps && m' != m ==> s'.aps[m'] == s.aps[m']
  }

  lemma RegisteredGains(s: State, m: Mac, ap: Ap, resp: Body, s': State)
    requires m in s.aps && resp.RegResp? && ap.addrs == s.aps[m].addrs
    requires resp.uuid == s.ac.uuid && resp.mac == s.ac.mac && resp.acaddr == s.ac.addr
    requires s'.aps == s.aps[m := Registered(ap, resp)]
    ensures Gained(s, m, resp.apaddr, s')
  {
  }

  // The access point has drawn a random and registered with it, and the controller
  // has answered it what res_ip_alloc gives.
  ghost predicate Answered(s: State, m: Mac, ipv4: Addr, wild: Addr, s': State, reg: Packet, resp: Packet) {
    && m in s.aps && reg.body.Reg? && resp.body.RegResp?
    && reg.body.mac == m && reg.body.ipv4 == ipv4 && Granted(s'.ac, reg)
    && reg.chap.digest in s'.sent && resp.chap.Genuine? && resp.chap.digest in s'.sent
    && s'.aps == s.aps[m := s.aps[m].(history := s.aps[m].history + [Issue(s.ac.mac, reg.body.random)])]
    && var (pool, lists, apaddr) := Given(s.ac, ipv4, m, wild);
       && s'.ac == s.ac.(random := s'.ac.random, pool := pool, lists := lists)
       && resp == Sealed(RegResp(s.ac.mac, s.ac.uuid, resp.body.random, s.ac.addr, apaddr), reg.body.random)
  }

  lemma RoundSteps(s: State, m: Mac, ipv4: Addr, takeover: Uuid, wild: Addr)
    returns (a0: Action, s1: State, a1: Action, s2: State, a2: Action, s3: State, reg: Packet, resp: Packet)
    requires m in s.aps && !s.aps[m].isreg
    ensures Step(s, a0, s1) && Step(s1, a1, s2) && Step(s2, a2, s3)
    ensures a1.ApGets? && a1.ap == m && Sends(s1, a1) == Some(reg)
    ensures a2.AcGets? && a2.packet == reg && Granted(s2.ac, reg) && Sends(s2, a2) == Some(resp)
    ensures Answered(s, m, ipv4, wild, s3, reg, resp)
  {
    var r;
    r := FreshExists(s.used);
    a0, s1, a1, s2, reg := Registering(s, m, ipv4, takeover, r);
    a2, s3, resp := Answering(s2, reg, wild, r + 2);
  }

  // From every reachable state, one broadcast makes an unregistered access point
  // register, and the controller answers it what res_ip_alloc gives.  The access
  // point takes the answer if and only if its ring is then not at offset 0.
  lemma Round(states: seq<State>, acts: seq<Action>, m: Mac, ipv4: Addr, takeover: Uuid, wild: Addr)
    returns (states': seq<State>, acts': seq<Action>, reg: Packet, resp: Packet)
    requires IsRun(states, acts)
    requires m in states[|acts|].aps && !states[|acts|].aps[m].isreg
    ensures IsRun(states', acts') && |acts'| == |acts| + 3 && states <= states' && acts <= acts'
    ensures Registers(states', acts', |acts| + 1, m, reg) && Answers(states', acts', |acts| + 2, reg, resp)
    ensures Answered(states[|acts|], m, ipv4, wild, states'[|acts'|], reg, resp)
    ensures forall before :: Shielded(states'[|acts'|].aps[m].history, before, resp.body.mac) ==>
              (Accepts(states'[|acts'|].aps[m], resp, before) <==>
               (|states[|acts|].aps[m].history| + 1) % 10 != 0)
  {
    var a0, s1, a1, s2, a2, s3, reg', resp' := RoundSteps(states[|acts|], m, ipv4, takeover, wild);
    reg, resp := reg', resp';
    states', acts' := ThreeMore(states, acts, a0, s1, a1, s2, a2, s3);
    AnsweredTakes(states', acts', states[|acts|], m, ipv4, wild, reg, resp);
  }

  lemma AnsweredTakes(states: seq<State>, acts: seq<Action>, s: State, m: Mac, ipv4: Addr, wild: Addr, reg: Packet,
                      resp: Packet)
    requires IsRun(states, acts) && Answered(s, m, ipv4, wild, states[|acts|], reg, resp)
    ensures forall before :: Shielded(states[|acts|].aps[m].history, before, resp.body.mac) ==>
              (Accepts(states[|acts|].aps[m], resp, before) <==> (|s.aps[m].history| + 1) % LOCAL_AC_MAX != 0)
  {
    forall before | Shielded(states[|acts|].aps[m].history, before, resp.body.mac)
      ensures Accepts(states[|acts|].aps[m], resp, before) <==> (|s.aps[m].history| + 1) % LOCAL_AC_MAX != 0
    {
      AcceptsExactly(states, acts, |acts|, m, resp, before);
    }
  }

  // The answer delivered: the access point is registered.
  lemma Delivery(states: seq<State>, acts: seq<Action>, m: Mac, resp: Packet)
    returns (states': seq<State>, acts': seq<Action>)
    requires IsRun(states, acts) && m in states[|acts|].aps && resp.body.RegResp?
    requires var history := states[|acts|].aps[m].history;
             && history != [] && |history| % LOCAL_AC_MAX != 0 && history[|history| - 1].mac == resp.body.mac
             && Verifies(resp, history[|history| - 1].random) && resp.chap.digest in states[|acts|].sent
    ensures IsRun(states', acts') && |acts'| == |acts| + 1 && states <= states' && acts <= acts'
    ensures states'[|acts'|].ac == states[|acts|].ac
    ensures states'[|acts'|].aps == states[|acts|].aps[m := Registered(states[|acts|].aps[m], resp.body)]
  {
    var r := FreshExists(states[|acts|].used);
    var act, s := Taking(states[|acts|], m, resp, r);
    Extends(states, acts, act, s);
    states', acts' := states + [s], acts + [act];
  }

  // With a free address and the ring not at offset 0 after the draw, the access
  // point is registered with the address that is due to it.
  lemma HandshakeCompletes(states: seq<State>, acts: seq<Action>, m: Mac, ipv4: Addr, takeover: Uuid)
    returns (states': seq<State>, acts': seq<Action>)
    requires IsRun(states, acts)
    requires var s := states[|acts|];
             m in s.aps && !s.aps[m].isreg && (|s.aps[m].history| + 1) % LOCAL_AC_MAX != 0
    requires states[|acts|].ac.lists.Apart? && states[|acts|].ac.pool.free != []
    ensures IsRun(states', acts') && |acts'| == |acts| + 4 && states <= states' && acts <= acts'
    ensures Gained(states[|acts|], m, Due(states[|acts|].ac.pool.free, ipv4), states'[|acts'|])
  {
    PoolStaysWf(states, acts, |acts|);
    GrantAnswers(states[|acts|].ac.pool, ipv4, m);
    var states1, acts1, reg, resp := Round(states, acts, m, ipv4, takeover, 0);
    states', acts' := Delivery(states1, acts1, m, resp);
    RegisteredGains(states[|acts|], m, states1[|acts1|].aps[m], resp.body, states'[|acts'|]);
  }

  // A registration that is delivered once more is answered once more.
  lemma Replay(states: seq<State>, acts: seq<Action>, reg: Packet, wild: Addr)
    returns (states': seq<State>, acts': seq<Action>, resp: Packet)
    requires IsRun(states, acts) && Granted(states[|acts|].ac, reg) && reg.chap.digest in states[|acts|].sent
    ensures IsRun(states', acts') && |acts'| == |acts| + 1 && states <= states' && acts <= acts'
    ensures Answers(states', acts', |acts|, reg, resp)
    ensures var s, s' := states[|acts|], states'[|acts'|];
            var (pool, lists, apaddr) := Given(s.ac, reg.body.ipv4, reg.body.mac, wild);
            && s'.aps == s.aps && s'.sent == s.sent + {resp.chap.digest}
            && resp == Sealed(RegResp(s.ac.mac, s.ac.uuid, resp.body.random, s.ac.addr, apaddr), reg.body.random)
  {
    var s := states[|acts|];
    var r := FreshExists(s.used);
    var act, s', resp0 := Answering(s, reg, wild, r);
    resp := resp0;
    Extends(states, acts, act, s');
    states', acts' := states + [s'], acts + [act];
  }

  // The condition of AddressesDisjoint is needed.  From every reachable state with
  // an exhausted pool, let another access point register without a wish and its
  // registration be delivered twice: whatever the first answer is, the second is an
  // address that is held already, and both access points have accepted it.
  lemma SharedAfterExhaustion(states: seq<State>, acts: seq<Action>, m: Mac, m': Mac, wild: Addr)
    returns (states': seq<State>, acts': seq<Action>)
    requires IsRun(states, acts) && m != m'
    requires var s := states[|acts|];
             && s.ac.lists.Apart? && s.ac.pool.free == [] && s.ac.pool.held != [] && s.ac.pool.held[0].addr != 0
             && m in s.aps && s.ac.pool.held[0].addr in s.aps[m].addrs
             && m' in s.aps && !s.aps[m'].isreg && (|s.aps[m'].history| + 1) % LOCAL_AC_MAX != 0
    ensures IsRun(states', acts') && !Stocked(states', acts') && states <= states' && acts <= acts'
    ensures var a, s' := states[|acts|].ac.pool.held[0].addr, states'[|acts'|];
            m in s'.aps && m' in s'.aps && a in s'.aps[m].addrs && a in s'.aps[m'].addrs
  {
    var states1, acts1, reg, lost := Round(states, acts, m', 0, "", wild);
    var states2, acts2, resp := Replay(states1, acts1, reg, wild);
    states', acts' := Delivery(states2, acts2, m', resp);
    var a, s, s' := states[|acts|].ac.pool.held[0].addr, states[|acts|], states'[|acts'|];
    assert s'.aps[m] == s.aps[m];
    assert a == s'.aps[m'].addrs[|s.aps[m'].addrs|];
    assert Granted(states1[|acts1|].ac, reg) && !InStock(states'[|acts1|], acts'[|acts1|]);
  }
}
