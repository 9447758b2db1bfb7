// The message handlers of ac/process.c and ap/process.c over the real ring of
// randoms and the real address pool, proved to take the steps of Handshake.
module Messages {
  import opened Common
  import opened PoolModel
  import opened RandomRing
  import opened Handshake
  import opened List
  import IpPool

  class AccessPoint {
    const mac: Mac
    const ipv4: Addr          // argument.addr
    const randoms: Ring
    var isreg: bool
    var acuuid: Uuid
    var dmac: Mac
    var server: Addr
    var addrs: seq<Addr>      // what setaddr was called with
    var sock: int             // the TCP connection to a controller, or negative
    var closed: seq<int>      // what close was called with

    ghost predicate Valid()
      reads this, randoms, randoms.slots
    {
      randoms.Valid()
    }

    ghost function State(): Ap
      reads this, randoms
    {
      Ap(randoms.history, isreg, acuuid, dmac, server, addrs)
    }

    constructor (mac: Mac, ipv4: Addr, server: Addr)
      ensures Valid() && State() == Ap([], false, "", 0, server, [])
      ensures this.mac == mac && this.ipv4 == ipv4 && fresh(randoms) && fresh(randoms.slots)
      ensures sock == -1 && closed == []
    {
      this.mac, this.ipv4, this.server := mac, ipv4, server;
      randoms := new Ring();
      isreg, acuuid, dmac, addrs := false, "", 0, [];
      sock, closed := -1, [];
    }

    // ac_reconnect; fd is what tcp_connect gives.
    method AcReconnect(fd: int)
      requires Valid()
      modifies this`sock
      ensures Valid() && sock == if server != 0 && old(sock) < 0 && fd >= 0 then fd else old(sock)
    {
      if server == 0 {
        return;
      }
      if sock >= 0 {
        return;
      }
      if fd < 0 {
        return;
      }
      sock := fd;
    }

    // _proc_brd
    method ProcBrd(brd: Body, drawn: nat) returns (sent: Option<Packet>)
      requires Valid() && brd.Brd?
      modifies randoms, randoms.slots
      ensures Valid() && (State(), sent) == Handshake.ProcBrd(mac, old(State()), brd, drawn, ipv4)
    {
      var random1 := randoms.NewRandom(brd.mac, drawn);
      sent := Some(Sealed(Reg(mac, brd.uuid, random1, ipv4), brd.random));
    }

    // The broadcast of another controller that takes this access point over.
    predicate TakesOver(brd: Body)
      requires brd.Brd?
      reads this
    {
      brd.uuid != acuuid && brd.takeover == acuuid
    }

    // _proc_brd_isreg
    method ProcBrdIsReg(brd: Body, drawn: nat) returns (sent: Option<Packet>)
      requires Valid() && brd.Brd?
      modifies this`sock, this`closed, randoms, randoms.slots
      ensures Valid() && (State(), sent) == Handshake.ProcBrdIsReg(mac, old(State()), brd, drawn, ipv4)
      ensures var hangsUp := TakesOver(brd) && old(sock) >= 0;
              && sock == (if hangsUp then -1 else old(sock))
              && closed == (if hangsUp then old(closed) + [old(sock)] else old(closed))
    {
      sent := None;
      if brd.uuid != acuuid {
        if brd.takeover == acuuid {
          if sock >= 0 {
            closed := closed + [sock];
            sock := -1;
          }
          sent := ProcBrd(brd, drawn);
        } else {
          var random1 := randoms.NewRandom(brd.mac, drawn);
          sent := Some(Sealed(ApResp(mac, brd.uuid, random1), brd.random));
        }
      }
    }

    // The statements of proc_reg_resp behind the digest check.  An open connection
    // is closed, but ac_reconnect then still sees its number and opens no new one.
    method Register(resp: Body, fd: int)
      requires Valid() && resp.RegResp?
      modifies this
      ensures Valid() && State() == Registered(old(State()), resp)
      ensures closed == if old(sock) >= 0 then old(closed) + [old(sock)] else old(closed)
      ensures sock == if server != 0 && old(sock) < 0 && fd >= 0 then fd else old(sock)
    {
      acuuid := resp.uuid;
      dmac := resp.mac;
      if resp.acaddr != 0 {
        server := resp.acaddr;
      }
      if resp.apaddr != 0 {
        addrs := addrs + [resp.apaddr];
      }
      if sock >= 0 {
        closed := closed + [sock];
      }
      AcReconnect(fd);
      isreg := true;
    }

    // `before` is what the memory before the ring reads as.
    method ProcRegResp(p: Packet, before: Issue, fd: int)
      requires Valid() && p.body.RegResp?
      modifies this
      ensures Valid()
      ensures State() == if Accepts(old(State()), p, before) then Registered(old(State()), p.body) else old(State())
      ensures var accepts := Accepts(old(State()), p, before);
              && closed == (if accepts && old(sock) >= 0 then old(closed) + [old(sock)] else old(closed))
              && sock == (if accepts && server != 0 && old(sock) < 0 && fd >= 0 then fd else old(sock))
    {
      var random1 := randoms.GetRandom(p.body.mac, before);
      if !Verifies(p, random1) {
        return;
      }
      Register(p.body, fd);
    }

    method MsgProc(p: Packet, drawn: nat, before: Issue, fd: int) returns (sent: Option<Packet>)
      requires Valid()
      modifies this, randoms, randoms.slots
      ensures Valid() && (State(), sent) == ApMsgProc(mac, old(State()), p, drawn, ipv4, before)
      ensures var hangsUp := p.body.Brd? && old(isreg && TakesOver(p.body) && sock >= 0);
              var accepts := Accepts(old(State()), p, before);
              && sock == (if hangsUp then -1
                          else if accepts && server != 0 && old(sock) < 0 && fd >= 0 then fd
                          else old(sock))
              && closed == if hangsUp || (accepts && old(sock) >= 0) then old(closed) + [old(sock)] else old(closed)
    {
      sent := None;
      match p.body
      case Brd(_, _, _, _) =>
        if isreg {
          sent := ProcBrdIsReg(p.body, drawn);
        } else {
          sent := ProcBrd(p.body, drawn);
        }
      case RegResp(_, _, _, _, _) => ProcRegResp(p, before, fd);
      case _ =>
    }
  }

  class Controller {
    const mac: Mac
    const uuid: Uuid
    const addr: Addr          // argument.addr
    const pool: IpPool.Pool
    var random: nat
    var registered: nat       // ap_reg_cnt
    ghost var lists: Lists    // how the lists of the pool stand

    ghost predicate Valid()
      reads this, pool, pool.poolRing, pool.allocRing
    {
      match lists
      case Apart => pool.Valid()
      case Spliced(n) => pool.Spliced(n)
      case Unknown => false
    }

    ghost function State(): Ac
      reads this, pool
    {
      Ac(mac, uuid, addr, random, pool.view, lists)
    }

    constructor (mac: Mac, uuid: Uuid, addr: Addr, pool: IpPool.Pool)
      requires pool.Valid()
      ensures Valid() && State() == Ac(mac, uuid, addr, 0, pool.view, Apart)
      ensures this.pool == pool && registered == 0
    {
      this.mac, this.uuid, this.addr, this.pool := mac, uuid, addr, pool;
      random, registered, lists := 0, 0, Apart;
    }

    // One round of net_dllbrd; the takeover field is sent as it was allocated.
    method Broadcast(drawn: nat, takeover: Uuid) returns (sent: Packet)
      requires Valid()
      modifies this`random
      ensures Valid() && State() == old(State()).(random := drawn)
      ensures sent == Packet(Brd(mac, uuid, drawn, takeover), Other)
    {
      random := drawn;
      sent := Packet(Brd(mac, uuid, random, takeover), Other);
    }

    // The end of __ap_reg.
    method Respond(reg: Body, drawn: nat, apaddr: Addr) returns (sent: Option<Packet>)
      requires reg.Reg?
      modifies this`registered
      ensures sent == Some(Sealed(RegResp(mac, uuid, drawn, addr, apaddr), reg.random))
      ensures registered == old(registered) + 1
    {
      sent := Some(Sealed(RegResp(mac, uuid, drawn, addr, apaddr), reg.random));
      registered := registered + 1;
    }

    // The lists are apart; or they are spliced with an entry behind the head of the
    // free list, and no address is asked for.
    ghost predicate Serves(ipv4: Addr)
      reads this, pool
    {
      lists.Apart? || (lists.Spliced? && ipv4 == 0 && lists.n < |pool.view.held|)
    }

    // res_ip_conflict and res_ip_alloc as __ap_reg calls them.  `wild` is what the
    // first allocation from an exhausted pool answers.
    method Allocate(ipv4: Addr, apmac: Mac) returns (apaddr: Addr, ghost wild: Addr)
      requires Valid() && Serves(ipv4)
      modifies this`lists, pool, Nodes(pool.poolRing), Nodes(pool.allocRing)
      ensures Valid() && (pool.view, lists, apaddr) == Given(old(State()), ipv4, apmac, wild)
      ensures lists.Spliced? ==> Nodes(pool.poolRing) == old(Nodes(pool.poolRing))
      ensures lists.Spliced? ==> Nodes(pool.allocRing) <= old(Nodes(pool.poolRing) + Nodes(pool.allocRing))
    {
      var conflict := pool.IpConflict(ipv4, apmac);
      var want := if conflict then None else Some(ipv4);
      ghost var n := if lists.Apart? then 0 else lists.n;
      lists := if pool.view.free != [] then Apart else if lists.Apart? then Spliced(0) else Spliced(n + 1);
      var ip := pool.IpAlloc(want, apmac, n);
      apaddr, wild := ip.data.ipv4, ip.data.ipv4;
    }

    // __ap_reg
    method ApReg(p: Packet, drawn: nat) returns (sent: Option<Packet>, ghost wild: Addr)
      requires Valid() && p.body.Reg? && (Granted(State(), p) ==> Serves(p.body.ipv4))
      modifies this, pool, Nodes(pool.poolRing), Nodes(pool.allocRing)
      ensures Valid() && (State(), sent) == AcMsgProc(old(State()), p, drawn, wild)
      ensures registered == old(registered) + if sent.Some? then 1 else 0
      ensures lists.Spliced? ==> Nodes(pool.poolRing) == old(Nodes(pool.poolRing))
      ensures lists.Spliced? ==> Nodes(pool.allocRing) <= old(Nodes(pool.poolRing) + Nodes(pool.allocRing))
    {
      wild := 0;
      if !Verifies(p, random) {
        return None, wild;
      }
      var apaddr;
      apaddr, wild := Allocate(p.body.ipv4, p.body.mac);
      sent := Respond(p.body, drawn, apaddr);
    }

    // A registration that is delivered twice when the pool is exhausted: the second
    // answer is the address that was given out last.
    method ApRegTwice(p: Packet, drawn: nat, drawn': nat) returns (sent: Option<Packet>, sent': Option<Packet>)
      requires Valid() && lists.Apart? && Granted(State(), p) && p.body.ipv4 == 0
      requires pool.view.free == [] && pool.view.held != []
      modifies this, pool, Nodes(pool.poolRing), Nodes(pool.allocRing)
      ensures Valid() && lists == Spliced(1)
      ensures sent' == Some(Sealed(RegResp(mac, uuid, drawn', addr, old(pool.view.held[0].addr)), p.body.random))
    {
      ghost var wild;
      sent, wild := ApReg(p, drawn);
      sent', wild := ApReg(p, drawn');
    }

    method MsgProc(p: Packet, drawn: nat) returns (sent: Option<Packet>, ghost wild: Addr)
      requires Valid() && (Granted(State(), p) ==> Serves(p.body.ipv4))
      modifies this, pool, Nodes(pool.poolRing), Nodes(pool.allocRing)
      ensures Valid() && (State(), sent) == AcMsgProc(old(State()), p, drawn, wild)
    {
      sent, wild := None, 0;
      if p.body.Reg? {
        sent, wild := ApReg(p, drawn);
      }
    }
  }
}
