/**
 What the operations of CNameServer do to each service: who is entered, who leaves, which
 addresses arrive, of which kind, on which interfaces, and who is left alone.
 */
module Provision {
  import opened Common
  import opened Addresses
  import opened Registry
  import opened NameServer
  import opened NameServerRuns

  // ------------------------------------------------------------------ appending

  /** The other services stay, the session stays, and pending addresses from the list are added behind. */
  ghost predicate Adds(reg: Table, reg': Table, svc: string, addrs: seq<Address>)
    requires svc in reg
  {
    && reg'.Keys == reg.Keys && (forall s :: s in reg && s != svc ==> reg'[s] == reg[s])
    && reg'[svc].sid == reg[svc].sid && reg[svc].addrs <= reg'[svc].addrs
    && forall i :: |reg[svc].addrs| <= i < |reg'[svc].addrs| ==>
         var d := reg'[svc].addrs[i]; d.status == Pending && d.reconnects == 0 && d.addr in addrs
  }

  lemma {:induction false} AppendAllAdds(reg: Table, svc: string, addrs: seq<Address>)
    requires svc in reg
    ensures Adds(reg, AppendAll(reg, svc, addrs), svc, addrs)
    decreases |addrs|
  {
    if addrs != [] {
      var reg1 := if InterfaceUsed(reg[svc].addrs, addrs[0]) then reg else Add(reg, svc, Desc(Pending, addrs[0], 0));
      AppendAllAdds(reg1, svc, addrs[1..]);
      assert forall a :: a in addrs[1..] ==> a in addrs;
    }
  }

  lemma {:induction false} AttemptsKind(reg: Table, a: Allocator, t: SvcType, n: nat)
    requires n > 0
    ensures Attempts(reg, a, t, n).1.kind == if a.TcpAllocator? then Tcp else Ipc
    ensures Attempts(reg, a, t, n).2.TcpAllocator? == a.TcpAllocator?
    decreases n
  {
    var (addr, a') := Allocate(a, t);
    if Registered(reg, addr.kind, addr.url) && t == UserSvc && n != 1 {
      AttemptsKind(reg, a', t, n - 1);
    }
  }

  lemma {:induction false} AllocateAllKind(reg: Table, tcp: Allocators, t: SvcType, ips: seq<string>)
    requires AllTcp(tcp) && forall ip :: ip in ips ==> ip in tcp
    ensures forall a :: a in AllocateAll(reg, tcp, t, ips).0 ==> a.kind == Tcp
  {
    if ips != [] {
      AttemptsKind(reg, tcp[ips[0]], t, Budget(reg));
      hide Attempts;
      AllocateAllKind(reg, tcp[ips[0] := Attempts(reg, tcp[ips[0]], t, Budget(reg)).2], t, ips[1..]);
    }
  }

  /** TCP provisioning adds pending TCP addresses to the one service, and touches neither IPC nor others. */
  lemma AddTcpAdds(ns: Ns, svc: string, connected: bool, interfaces: seq<string>, order: seq<string>)
    requires svc in ns.registry && AllTcp(ns.tcp) && forall ip :: ip in order ==> ip in TcpSource(ns.tcp, svc, connected, interfaces)
    ensures var ns' := AddTcp(ns, svc, connected, interfaces, order);
            && ns'.ipc == ns.ipc && ns'.registry.Keys == ns.registry.Keys
            && (forall s :: s in ns.registry && s != svc ==> ns'.registry[s] == ns.registry[s])
            && ns'.registry[svc].sid == ns.registry[svc].sid && ns.registry[svc].addrs <= ns'.registry[svc].addrs
            && forall i :: |ns.registry[svc].addrs| <= i < |ns'.registry[svc].addrs| ==>
                 var d := ns'.registry[svc].addrs[i]; d.status == Pending && d.reconnects == 0 && d.addr.kind == Tcp
  {
    CreateIsTcp(map[], []);
    CreateIsTcp(map[], interfaces);
    var source := TcpSource(ns.tcp, svc, connected, interfaces);
    AllocateAllKind(ns.registry, source, GetSvcType(svc), order);
    AppendAllAdds(ns.registry, svc, AllocateAll(ns.registry, source, GetSvcType(svc), order).0);
    hide AllocateAll, AppendAll, TcpSource;
  }

  // ----------------------------------------------------------------- allocation

  /**
   A name that is known is refused. Any other is entered under the asking session with
   fresh pending addresses; no other service changes. An IPC address, the first one, is
   among them if and only if the session is local and the allocator finds one.
   */
  lemma AllocationEnters(ns: Ns, op: Op)
    requires op.AllocService? && AllTcp(ns.tcp) && ns.ipc.IpcAllocator? && Fits(ns, op)
    ensures var ns' := Apply(ns, op);
            if op.svc in ns.registry then ns' == ns
            else
              var reg1 := ns.registry[op.svc := Entry(op.sid, [])];
              var (ok, addr, next) := Attempts(reg1, ns.ipc, GetSvcType(op.svc), Budget(reg1));
              && ns'.registry.Keys == ns.registry.Keys + {op.svc} && ns'.registry[op.svc].sid == op.sid
              && (forall s :: s in ns.registry ==> ns'.registry[s] == ns.registry[s])
              && ns'.ipc == (if op.ipcSession then next else ns.ipc)
              && var descs := ns'.registry[op.svc].addrs;
                 && (forall i :: 0 <= i < |descs| ==> descs[i].status == Pending && descs[i].reconnects == 0)
                 && (forall i :: 0 < i < |descs| ==> descs[i].addr.kind == Tcp)
                 && (op.ipcSession && ok ==> descs != [] && descs[0].addr == addr && addr.kind == Ipc)
                 && (!(op.ipcSession && ok) ==> descs == [] || descs[0].addr.kind == Tcp)
  {
    hide Attempts, AddIpc, AddTcp, TcpSource, GetSvcType, OnlineServices, CreateTcpAllocators, Report, BindAddresses;
    if op.svc !in ns.registry {
      var ns1 := ns.(registry := ns.registry[op.svc := Entry(op.sid, [])]);
      EmptyServiceGets(ns1, op.svc, op.ipcSession, op.connected, op.interfaces, op.order);
    }
  }

  lemma EmptyServiceGets(ns: Ns, svc: string, ipcSession: bool, connected: bool, interfaces: seq<string>, order: seq<string>)
    requires svc in ns.registry && ns.registry[svc].addrs == [] && ns.ipc.IpcAllocator? && AllTcp(ns.tcp)
    requires forall ip :: ip in order ==> ip in TcpSource(ns.tcp, svc, connected, interfaces)
    ensures var ns' := AddTcp(if ipcSession then AddIpc(ns, svc) else ns, svc, connected, interfaces, order);
            var (ok, addr, next) := Attempts(ns.registry, ns.ipc, GetSvcType(svc), Budget(ns.registry));
            && ns'.registry.Keys == ns.registry.Keys && ns'.registry[svc].sid == ns.registry[svc].sid
            && (forall s :: s in ns.registry && s != svc ==> ns'.registry[s] == ns.registry[s])
            && ns'.ipc == (if ipcSession then next else ns.ipc)
            && var descs := ns'.registry[svc].addrs;
               && (forall i :: 0 <= i < |descs| ==> descs[i].status == Pending && descs[i].reconnects == 0)
               && (forall i :: 0 < i < |descs| ==> descs[i].addr.kind == Tcp)
               && (ipcSession && ok ==> descs != [] && descs[0].addr == addr && addr.kind == Ipc)
               && (!(ipcSession && ok) ==> descs == [] || descs[0].addr.kind == Tcp)
  {
    hide Attempts, AddIpc, AddTcp, TcpSource, GetSvcType;
    AttemptsKind(ns.registry, ns.ipc, GetSvcType(svc), Budget(ns.registry));
    AddIpcFirst(ns, svc);
    var ns2 := if ipcSession then AddIpc(ns, svc) else ns;
    AddTcpAdds(ns2, svc, connected, interfaces, order);
    var descs := AddTcp(ns2, svc, connected, interfaces, order).registry[svc].addrs;
    assert forall i :: 0 <= i < |ns2.registry[svc].addrs| ==> descs[i] == ns2.registry[svc].addrs[i];
  }

  lemma AddIpcFirst(ns: Ns, svc: string)
    requires svc in ns.registry && ns.registry[svc].addrs == []
    ensures var (ok, addr, next) := Attempts(ns.registry, ns.ipc, GetSvcType(svc), Budget(ns.registry));
            AddIpc(ns, svc) == ns.(registry := if ok then ns.registry[svc := ns.registry[svc].(addrs := [Desc(Pending, addr, 0)])] else ns.registry,
                                   ipc := next)
  {
    var (ok, addr, next) := Attempts(ns.registry, ns.ipc, GetSvcType(svc), Budget(ns.registry));
    hide Attempts;
    if ok {
      var reg1 := Add(ns.registry, svc, Desc(Pending, addr, 0));
      assert [addr][1..] == [] && AppendAll(reg1, svc, []) == reg1;
      assert ns.registry[svc].addrs + [Desc(Pending, addr, 0)] == [Desc(Pending, addr, 0)];
      assert AppendAll(ns.registry, svc, [addr]) == reg1;
    }
  }

  /** Until the host server is online, there are no allocators, only it gets TCP addresses, and none are kept. */
  lemma BeforeOnline(ns: Ns, op: Op)
    requires op.AllocService? && op.svc !in ns.registry && ns.tcp == map[] && Fits(ns, op) && !op.connected && !op.ipcSession
    ensures var ns' := Apply(ns, op);
            && ns'.tcp == map[] && (op.svc != HOST_SERVER ==> ns'.registry[op.svc].addrs == [])
            && (op.svc == HOST_SERVER ==> forall ip :: ip in op.interfaces && !Registered(ns.registry, Tcp, TcpUrl(ip, 60000)) ==>
                  OnInterface(ns'.registry, HOST_SERVER, ip))
  {
    var ns1 := ns.(registry := ns.registry[op.svc := Entry(op.sid, [])]);
    var source := TcpSource(ns.tcp, op.svc, op.connected, op.interfaces);
    if op.svc != HOST_SERVER {
      assert source == map[];
      NothingEnumerated(op.order);
    } else {
      CreateServesKeys(map[], op.interfaces);
      forall ip | ip in op.interfaces && !Registered(ns.registry, Tcp, TcpUrl(ip, 60000)) ensures OnInterface(Apply(ns, op).registry, HOST_SERVER, ip) {
        SameRegistered(ns.registry, op.svc, op.sid, Tcp, TcpUrl(ip, 60000));
        HostServerEach(ns1.registry, source, op.order, ip);
        var addrs := AllocateAll(ns1.registry, source, HostServerSvc, op.order).0;
        hide AllocateAll, AppendAll, CreateTcpAllocators, TcpSource, TcpUrl;
        var a := TcpAddress(ip, 60000);
        AppendAllUses(ns1.registry, HOST_SERVER, addrs, a);
        var reg := AppendAll(ns1.registry, HOST_SERVER, addrs);
        var i :| 0 <= i < |reg[HOST_SERVER].addrs| && reg[HOST_SERVER].addrs[i].addr.kind == a.kind && reg[HOST_SERVER].addrs[i].addr.host == a.host;
        assert IsAt(reg, HOST_SERVER, i) && TcpOn(DescAt(reg, HOST_SERVER, i), ip);
      }
    }
  }

  /** Without allocators, a connected name server makes one for all interfaces, keeps it, and uses it. */
  lemma AllInterfaces(ns: Ns, op: Op)
    requires op.AllocService? && op.svc !in ns.registry && ns.tcp == map[] && op.connected && !op.ipcSession
    requires Valid(ns) && Fits(ns, op) && |ns.registry| + 1 < PORTS && GetSvcType(op.svc) == UserSvc
    ensures var ns' := Apply(ns, op); ns'.tcp.Keys == {"0"} && OnInterface(ns'.registry, op.svc, "0")
  {
    EnterKeeps(ns, op.svc, op.sid);
    var ns1 := ns.(registry := ns.registry[op.svc := Entry(op.sid, [])]);
    assert |ns1.registry| == |ns.registry| + 1;
    var tcp := CreateTcpAllocators(map[], []);
    CreateKeeps(map[], []);
    assert tcp.Keys == {"0"} && "0" in tcp;
    AllocatedAreTcp(ns1.registry, tcp, UserSvc, op.order);
    AddTcpEach(ns1.(tcp := tcp), op.svc, true, [], op.order, "0");
    hide AllocateAll, AppendAll, CreateTcpAllocators, OnInterface, Valid;
    assert AddTcp(ns1, op.svc, true, op.interfaces, op.order) == AddTcp(ns1.(tcp := tcp), op.svc, true, [], op.order);
  }

  lemma NothingEnumerated(order: seq<string>)
    requires Enumerates(order, {})
    ensures order == []
  {
    if order != [] {
      FirstIn(order);
      assert false;
    }
  }

  lemma FirstIn(order: seq<string>)
    requires order != []
    ensures order[0] in order
  {
  }

  lemma SameRegistered(reg: Table, svc: string, sid: int, kind: SocketKind, url: string)
    requires svc !in reg && !Registered(reg, kind, url)
    ensures !Registered(reg[svc := Entry(sid, [])], kind, url)
  {
  }

  lemma {:induction false} HostServerEach(reg: Table, tcp: Allocators, ips: seq<string>, ip: string)
    requires (forall x :: x in tcp ==> ServesKey(tcp[x], x)) && (forall x :: x in ips ==> x in tcp)
    requires ip in ips && !Registered(reg, Tcp, TcpUrl(ip, 60000))
    ensures TcpAddress(ip, 60000) in AllocateAll(reg, tcp, HostServerSvc, ips).0
  {
    hide TcpUrl, Registered;
    var x := ips[0];
    assert tcp[x := tcp[x]] == tcp;
    assert Attempts(reg, tcp[x], HostServerSvc, Budget(reg)).2 == tcp[x];
    if x != ip {
      HostServerEach(reg, tcp, ips[1..], ip);
    }
  }

  // ---------------------------------------------------------------- host online

  /** One service more, or the same one, while others keep theirs. */
  lemma OnlineOneAdds(ns: Ns, svc: string, order: seq<string>, bound: set<string>)
    requires svc in ns.registry && ns.tcp != map[] && AllTcp(ns.tcp) && forall ip :: ip in order ==> ip in ns.tcp
    ensures var ns' := OnlineOne(ns, svc, order, bound);
            && ns'.ipc == ns.ipc && (forall s :: s in ns.registry && s != svc ==> ns'.registry[s] == ns.registry[s])
            && (svc == HOST_SERVER ==> ns' == ns)
            && ns'.registry[svc].sid == ns.registry[svc].sid
            && (svc != NAME_SERVER ==> ns.registry[svc].addrs <= ns'.registry[svc].addrs)
  {
    if svc != HOST_SERVER {
      AddTcpAdds(ns, svc, true, [], order);
      hide AddTcp;
    }
  }

  lemma {:induction false} OnlineKeepsOthers(ns: Ns, services: seq<string>, order: seq<string>, bound: set<string>, s: string)
    requires (forall x :: x in services ==> x in ns.registry) && ns.tcp != map[] && AllTcp(ns.tcp)
    requires (forall ip :: ip in order ==> ip in ns.tcp) && s in ns.registry && s !in services
    ensures s in OnlineServices(ns, services, order, bound).registry
    ensures OnlineServices(ns, services, order, bound).registry[s] == ns.registry[s]
    decreases |services|
  {
    if services != [] {
      OnlineOneAdds(ns, services[0], order, bound);
      hide OnlineOne;
      OnlineKeepsOthers(OnlineOne(ns, services[0], order, bound), services[1..], order, bound, s);
    }
  }

  /** Each service is visited once; at its turn it is on every interface. */
  lemma {:induction false} OnlineEach(ns: Ns, services: seq<string>, order: seq<string>, bound: set<string>, s: string, ip: string)
    requires Valid(ns) && ns.tcp != map[] && |ns.registry| < PORTS && Distinct(services) && s in services
    requires (forall x :: x in services ==> x in ns.registry) && Enumerates(order, ns.tcp.Keys)
    requires GetSvcType(s) == UserSvc && ip in ns.tcp
    ensures OnInterface(OnlineServices(ns, services, order, bound).registry, s, ip)
    ensures s in OnlineServices(ns, services, order, bound).registry
            && ns.registry[s].addrs <= OnlineServices(ns, services, order, bound).registry[s].addrs
    decreases |services|
  {
    var x := services[0];
    var ns1 := OnlineOne(ns, x, order, bound);
    OnlineOneKeeps(ns, x, order, bound);
    OnlineOneAdds(ns, x, order, bound);
    SameSize(ns.registry, ns1.registry);
    if x == s {
      AddTcpEach(ns, s, true, [], order, ip);
      hide OnlineOne, AddTcp, OnInterface, Valid;
      assert s !in services[1..];
      OnlineKeepsOthers(ns1, services[1..], order, bound, s);
      SameAddrsOnInterface(ns1.registry, OnlineServices(ns1, services[1..], order, bound).registry, s, ip);
    } else {
      hide OnlineOne, OnInterface, Valid;
      OnlineEach(ns1, services[1..], order, bound, s, ip);
    }
  }

  lemma SameSize(reg: Table, reg': Table)
    requires reg'.Keys == reg.Keys
    ensures |reg'| == |reg|
  {
    assert |reg'.Keys| == |reg'| && |reg.Keys| == |reg|;
  }

  lemma SameAddrsOnInterface(reg: Table, reg': Table, svc: string, ip: string)
    requires svc in reg && svc in reg' && reg'[svc] == reg[svc]
    ensures OnInterface(reg', svc, ip) <==> OnInterface(reg, svc, ip)
  {
    assert forall i :: IsAt(reg', svc, i) <==> IsAt(reg, svc, i);
    assert forall i :: IsAt(reg, svc, i) ==> DescAt(reg', svc, i) == DescAt(reg, svc, i);
  }

  /**
   In every reachable state with fewer services than ports: once a host is online, every
   user service has exactly one TCP address on every interface, the reported ones
   included, and keeps what it had; the host server is passed over, and nobody leaves.
   */
  lemma OnlineReachesAll(states: seq<Ns>, ops: seq<Op>, k: nat, op: Op, s: string, ip: string)
    requires IsRun(states, ops) && k <= |ops| && |states[k].registry| < PORTS
    requires op.HostOnline? && AllTcp(states[k].tcp) && Fits(states[k], op) && Expected(states[k], op) && s in states[k].registry
    ensures var ns, ns' := states[k], Apply(states[k], op);
            && ns'.registry.Keys == ns.registry.Keys && OneTcpPerInterface(ns'.registry)
            && (s == HOST_SERVER ==> ns'.registry[s] == ns.registry[s])
            && (GetSvcType(s) == UserSvc ==> ns.registry[s].addrs <= ns'.registry[s].addrs)
            && (GetSvcType(s) == UserSvc && (ip in op.interfaces || ip in ns.tcp) ==> OnInterface(ns'.registry, s, ip))
  {
    RunsKeepAddressesUnique(states, ops, k);
    var ns := states[k];
    ApplyKeeps(ns, op);
    CreateKeeps(ns.tcp, op.interfaces);
    CreateServesKeys(ns.tcp, op.interfaces);
    var ns1 := ns.(tcp := CreateTcpAllocators(ns.tcp, op.interfaces));
    OnlineKeys(ns1, op.services, op.order, op.bound);
    hide CreateTcpAllocators, IsRun, OneTcpPerInterface;
    if s == HOST_SERVER {
      OnlineHostServer(ns1, op.services, op.order, op.bound);
    } else if GetSvcType(s) == UserSvc {
      assert s in op.services;
      var x := if ip in ns1.tcp then ip else op.order[0];
      if ip !in ns1.tcp {
        SomeInterface(ns1.tcp, op.order);
      }
      OnlineEach(ns1, op.services, op.order, op.bound, s, x);
    }
  }

  /**
   If the name server gets new addresses when a host comes online, exactly those that it
   manages to bind, and those that were, are bound; if not, nothing changes for it.
   */
  lemma OnlineNameServer(ns: Ns, order: seq<string>, bound: set<string>)
    requires NAME_SERVER in ns.registry && ns.tcp != map[] && AllTcp(ns.tcp) && forall ip :: ip in order ==> ip in ns.tcp
    ensures var descs, descs' := ns.registry[NAME_SERVER].addrs, OnlineOne(ns, NAME_SERVER, order, bound).registry[NAME_SERVER].addrs;
            && |descs| <= |descs'|
            && (|descs'| == |descs| ==> descs' == descs)
            && (|descs'| > |descs| ==> forall i :: 0 <= i < |descs'| ==>
                  (descs'[i].status == Bound <==> descs'[i].addr.url in bound || (i < |descs| && descs[i].status == Bound)))
            && (forall i :: 0 <= i < |descs| ==> descs'[i].addr == descs[i].addr)
  {
    hide AddTcp;
    AddTcpAdds(ns, NAME_SERVER, true, [], order);
    var descs, descs1 := ns.registry[NAME_SERVER].addrs, AddTcp(ns, NAME_SERVER, true, [], order).registry[NAME_SERVER].addrs;
    assert forall i :: 0 <= i < |descs| ==> descs1[i] == descs[i];
  }

  lemma SomeInterface(tcp: Allocators, order: seq<string>)
    requires tcp != map[] && Enumerates(order, tcp.Keys)
    ensures order != [] && order[0] in tcp
  {
    var ip :| ip in tcp;
    assert ip in order;
  }

  lemma {:induction false} OnlineKeys(ns: Ns, services: seq<string>, order: seq<string>, bound: set<string>)
    requires (forall x :: x in services ==> x in ns.registry) && ns.tcp != map[] && AllTcp(ns.tcp)
    requires forall ip :: ip in order ==> ip in ns.tcp
    ensures OnlineServices(ns, services, order, bound).registry.Keys == ns.registry.Keys
    decreases |services|
  {
    if services != [] {
      hide OnlineOne;
      OnlineKeys(OnlineOne(ns, services[0], order, bound), services[1..], order, bound);
    }
  }

  lemma {:induction false} OnlineHostServer(ns: Ns, services: seq<string>, order: seq<string>, bound: set<string>)
    requires (forall x :: x in services ==> x in ns.registry) && ns.tcp != map[] && AllTcp(ns.tcp)
    requires (forall ip :: ip in order ==> ip in ns.tcp) && HOST_SERVER in ns.registry
    ensures HOST_SERVER in OnlineServices(ns, services, order, bound).registry
    ensures OnlineServices(ns, services, order, bound).registry[HOST_SERVER] == ns.registry[HOST_SERVER]
    decreases |services|
  {
    if services != [] {
      OnlineOneAdds(ns, services[0], order, bound);
      hide OnlineOne;
      OnlineHostServer(OnlineOne(ns, services[0], order, bound), services[1..], order, bound);
    }
  }

  // ------------------------------------------------------ binding and departures

  /** The name server's own addresses are bound exactly where it managed to, and nothing else changes. */
  lemma NameServerBound(ns: Ns, bound: set<string>, s: string, i: nat)
    requires AllTcp(ns.tcp) && IsAt(ns.registry, s, i)
    ensures var ns' := Apply(ns, BindNameServer(bound));
            && ns'.tcp == ns.tcp && ns'.ipc == ns.ipc && ns'.registry.Keys == ns.registry.Keys && IsAt(ns'.registry, s, i)
            && |ns'.registry[s].addrs| == |ns.registry[s].addrs|
            && var d, d' := DescAt(ns.registry, s, i), DescAt(ns'.registry, s, i);
               && d'.addr == d.addr && d'.reconnects == d.reconnects
               && (d'.status == Bound <==> d.status == Bound || (s == NAME_SERVER && d.addr.url in bound))
               && (d'.status != Bound ==> d'.status == d.status)
  {
  }

  /** Unregistering takes one service, a lost session exactly its own; the allocators stay. */
  lemma DepartsExactly(ns: Ns, op: Op, s: string)
    requires AllTcp(ns.tcp) && (op.Unregister? || op.Offline?)
    ensures var ns' := Apply(ns, op);
            && (s in ns'.registry <==>
                s in ns.registry && if op.Unregister? then s != op.svc else ns.registry[s].sid != op.sid)
            && (s in ns'.registry ==> ns'.registry[s] == ns.registry[s])
            && ns'.tcp == ns.tcp && ns'.ipc == ns.ipc
  {
  }

  // -------------------------------------------------------------------- reports

  /**
   In every reachable state with fewer services than ports: a TCP address of a user service
   that failed is reissued if and only if it was reissued fewer than five times before and
   its interface has an allocator.
   */
  lemma ReissuedIff(states: seq<Ns>, ops: seq<Op>, k: nat, svc: string, i: nat)
    requires IsRun(states, ops) && k <= |ops| && |states[k].registry| < PORTS
    requires GetSvcType(svc) == UserSvc && IsAt(states[k].registry, svc, i) && DescAt(states[k].registry, svc, i).addr.kind == Tcp
    ensures var d := DescAt(states[k].registry, svc, i);
            Reissue(states[k], svc, d).0.Some? <==> d.reconnects < 5 && d.addr.host in states[k].tcp
  {
    RunsKeepAddressesUnique(states, ops, k);
    var ns, d := states[k], DescAt(states[k].registry, svc, i);
    if d.reconnects < 5 && d.addr.host in ns.tcp {
      var a := ns.tcp[d.addr.host];
      assert ValidTcpAllocator(a, d.addr.host);
      BudgetSuffices(ns.registry, d.addr.host, a.port);
      AttemptsSound(ns.registry, a, UserSvc, Budget(ns.registry));
      var addr := Attempts(ns.registry, a, UserSvc, Budget(ns.registry)).1;
      hide Attempts, IsRun, ValidTable, ParseUrl, TcpUrl;
      TcpParseBuild(addr.host, addr.port);
    }
  }

  /** An address that was never asked for is adopted as bound, if it parses; else the item does nothing. */
  lemma StrangerItem(p: Progress, svc: string, r: BindResult, tcpSession: bool)
    requires svc in p.ns.registry && (forall i :: 0 <= i < |p.ns.registry[svc].addrs| ==> p.ns.registry[svc].addrs[i].addr.url != r.request)
    ensures var p' := ReportItem(p, svc, r, tcpSession);
            && p'.ns == p.ns
            && p'.strangers == p.strangers + (if ParseUrl(r.bind).Some? then [Desc(Bound, ParseUrl(r.bind).value, 0)] else [])
  {
    hide ParseUrl;
    assert p.strangers + [] == p.strangers;
  }

  lemma {:induction false} ItemsKeepSession(p: Progress, svc: string, results: seq<BindResult>, tcpSession: bool)
    requires svc in p.ns.registry
    ensures ReportAll(p, svc, results, tcpSession).ns.registry[svc].sid == p.ns.registry[svc].sid
    decreases |results|
  {
    if results != [] {
      ItemKeepsSession(p, svc, results[0], tcpSession);
      hide ReportItem;
      ItemsKeepSession(ReportItem(p, svc, results[0], tcpSession), svc, results[1..], tcpSession);
    }
  }

  lemma ItemKeepsSession(p: Progress, svc: string, r: BindResult, tcpSession: bool)
    requires svc in p.ns.registry
    ensures ReportItem(p, svc, r, tcpSession).ns.registry[svc].sid == p.ns.registry[svc].sid
  {
    hide ParseUrl, Attempts;
  }

  /** A service belongs to the session that reported last, so it leaves with that one. */
  lemma ReporterOwns(ns: Ns, svc: string, sid: int, results: seq<BindResult>, tcpSession: bool)
    requires AllTcp(ns.tcp) && svc in ns.registry
    ensures var ns' := Report(ns, svc, sid, results, tcpSession);
            svc in ns'.registry ==> ns'.registry[svc].sid == sid
  {
    var p := StartReport(ns, svc, sid);
    ItemsKeepSession(p, svc, results, tcpSession);
    hide ReportAll;
  }

  /**
   A bound address makes the fallback unnecessary, be it one the item reports, one that was
   bound before or an unrequested one, unless it is TCP on the wildcard interface and the
   host server is not seen over TCP; a failed one does not.
   */
  lemma UrlFound(p: Progress, svc: string, r: BindResult, tcpSession: bool)
    requires svc in p.ns.registry
    ensures var addrs := p.ns.registry[svc].addrs;
            var at := IndexOfUrl(addrs, r.request);
            var p' := ReportItem(p, svc, r, tcpSession);
            p'.hsUrl <==>
            || p.hsUrl
            || (at.Some? && (r.bind != "" || addrs[at.value].status == Bound) &&
                var a := p'.ns.registry[svc].addrs[at.value].addr; a.kind == Ipc || a.host != "0" || tcpSession)
            || (at.None? && ParseUrl(r.bind).Some? &&
                var a := ParseUrl(r.bind).value; a.kind == Ipc || a.host != "0" || tcpSession)
  {
    hide ParseUrl, Reissue;
  }

  /** The fallback gives the host server its well-known IPC address behind the others, neither pending nor bound. */
  lemma FallbackAdds(ns: Ns, svc: string, sid: int, results: seq<BindResult>, tcpSession: bool)
    requires svc in ns.registry
    ensures var p := ReportAll(StartReport(ns, svc, sid), svc, results, tcpSession);
            var all := p.ns.registry[svc].addrs + p.strangers;
            var reg := Report(ns, svc, sid, results, tcpSession).registry;
            && (svc in reg <==> all != [])
            && (svc in reg ==> reg[svc].addrs == all + if svc == "org.fdbus.host-server" && !p.hsUrl
                                                       then [Desc(Free, Address(Ipc, "/tmp/fdb-hs", 0, "ipc:///tmp/fdb-hs"), 0)] else [])
  {
    var p := ReportAll(StartReport(ns, svc, sid), svc, results, tcpSession);
    hide ReportAll;
    assert p.ns.registry[svc].addrs + p.strangers + [] == p.ns.registry[svc].addrs + p.strangers;
    assert "ipc://" + "/tmp/fdb-hs" == "ipc:///tmp/fdb-hs";
  }
}
