/**
 Whole runs of CNameServer: address uniqueness holds in every reachable state, and
 class Server performs each operation in place.
 */
module NameServerRuns {
  import opened Common
  import opened Addresses
  import opened Registry
  import opened NameServer
  import opened UrlTable
  import opened Interfaces

  // ------------------------------------------------------------------- operations

  /** addOneServiceAddress for IPC. */
  function AddIpc(ns: Ns, svc: string): (ns': Ns)
    requires svc in ns.registry
    ensures ns'.registry.Keys == ns.registry.Keys && ns'.tcp == ns.tcp
  {
    var (ok, addr, a') := Attempts(ns.registry, ns.ipc, GetSvcType(svc), Budget(ns.registry));
    ns.(registry := AppendAll(ns.registry, svc, if ok then [addr] else []), ipc := a')
  }

  /**
   The allocators addOneServiceAddress iterates for TCP. Before the host server is
   online only the host server itself gets TCP addresses, from temporary allocators.
   */
  function TcpSource(tcp: Allocators, svc: string, connected: bool, interfaces: seq<string>): Allocators
    requires forall ip :: ip in tcp ==> tcp[ip].TcpAllocator?
  {
    if tcp != map[] then tcp
    else if connected then CreateTcpAllocators(map[], [])
    else if GetSvcType(svc) == HostServerSvc then CreateTcpAllocators(map[], interfaces)
    else map[]
  }

  /** addOneServiceAddress for TCP; `order` is the iteration order of the allocators. */
  function AddTcp(ns: Ns, svc: string, connected: bool, interfaces: seq<string>, order: seq<string>): (ns': Ns)
    requires svc in ns.registry && forall ip :: ip in ns.tcp ==> ns.tcp[ip].TcpAllocator?
    requires forall ip :: ip in order ==> ip in TcpSource(ns.tcp, svc, connected, interfaces)
    ensures ns'.registry.Keys == ns.registry.Keys
  {
    var (addrs, tcp') := AllocateAll(ns.registry, TcpSource(ns.tcp, svc, connected, interfaces), GetSvcType(svc), order);
    Ns(AppendAll(ns.registry, svc, addrs), if ns.tcp == map[] && !connected then map[] else tcp', ns.ipc)
  }

  lemma AddIpcKeeps(ns: Ns, svc: string)
    requires Valid(ns) && svc in ns.registry
    ensures Valid(AddIpc(ns, svc))
  {
    AttemptsSound(ns.registry, ns.ipc, GetSvcType(svc), Budget(ns.registry));
    var (ok, addr, a') := Attempts(ns.registry, ns.ipc, GetSvcType(svc), Budget(ns.registry));
    if ok {
      UnregisteredIsUnused(ns.registry, addr);
      AppendAllKeeps(ns.registry, svc, [addr]);
    } else {
      AppendAllKeeps(ns.registry, svc, []);
    }
  }

  lemma AddTcpKeeps(ns: Ns, svc: string, connected: bool, interfaces: seq<string>, order: seq<string>)
    requires Valid(ns) && svc in ns.registry
    requires forall k :: 0 <= k < |interfaces| ==> !Bracketed(interfaces[k])
    requires Enumerates(order, TcpSource(ns.tcp, svc, connected, interfaces).Keys)
    ensures var ns' := AddTcp(ns, svc, connected, interfaces, order);
            Valid(ns') && (ns.tcp != map[] ==> ns'.tcp.Keys == ns.tcp.Keys)
  {
    CreateKeeps(map[], []);
    CreateKeeps(map[], interfaces);
    var tcp := TcpSource(ns.tcp, svc, connected, interfaces);
    AllocateAllFresh(ns.registry, tcp, GetSvcType(svc), order);
    AppendAllKeeps(ns.registry, svc, AllocateAll(ns.registry, tcp, GetSvcType(svc), order).0);
  }

  /** bindNsAddress: marks the addresses the name server managed to bind. */
  function BindAddresses(addrs: seq<Desc>, bound: set<string>): seq<Desc> {
    seq(|addrs|, i requires 0 <= i < |addrs| =>
      if addrs[i].status != Bound && addrs[i].addr.url in bound then addrs[i].(status := Bound) else addrs[i])
  }

  lemma BindKeeps(reg: Table, svc: string, bound: set<string>)
    requires ValidTable(reg) && svc in reg
    ensures ValidTable(SetAddrs(reg, svc, BindAddresses(reg[svc].addrs, bound)))
  {
    var reg' := SetAddrs(reg, svc, BindAddresses(reg[svc].addrs, bound));
    forall s, i | IsAt(reg', s, i)
      ensures IsAt(reg, s, i) && GoodDesc(DescAt(reg', s, i)) && DescAt(reg', s, i).addr == DescAt(reg, s, i).addr
    {
      assert IsAt(reg, s, i) && GoodDesc(DescAt(reg, s, i));
    }
    InheritsKeeps(reg, reg');
  }

  /** onHostOnline for one service. */
  function OnlineOne(ns: Ns, svc: string, order: seq<string>, bound: set<string>): (ns': Ns)
    requires svc in ns.registry
    requires ns.tcp != map[] && forall ip :: ip in ns.tcp ==> ns.tcp[ip].TcpAllocator?
    requires forall ip :: ip in order ==> ip in ns.tcp
    ensures ns'.registry.Keys == ns.registry.Keys && ns'.tcp.Keys == ns.tcp.Keys
    ensures forall ip :: ip in ns'.tcp ==> ns'.tcp[ip].TcpAllocator?
  {
    if svc == HOST_SERVER then ns
    else
      AllocatedAreTcp(ns.registry, ns.tcp, GetSvcType(svc), order);
      var ns1 := AddTcp(ns, svc, true, [], order);
      if svc == NAME_SERVER && |ns1.registry[svc].addrs| > |ns.registry[svc].addrs|
      then ns1.(registry := SetAddrs(ns1.registry, svc, BindAddresses(ns1.registry[svc].addrs, bound)))
      else ns1
  }

  /** onHostOnline for the services still to visit. */
  function OnlineServices(ns: Ns, services: seq<string>, order: seq<string>, bound: set<string>): Ns
    requires forall s :: s in services ==> s in ns.registry
    requires ns.tcp != map[] && forall ip :: ip in ns.tcp ==> ns.tcp[ip].TcpAllocator?
    requires forall ip :: ip in order ==> ip in ns.tcp
    decreases |services|
  {
    if services == [] then ns else OnlineServices(OnlineOne(ns, services[0], order, bound), services[1..], order, bound)
  }

  lemma {:induction false} AllocatedAreTcp(reg: Table, tcp: Allocators, t: SvcType, ips: seq<string>)
    requires forall ip :: ip in tcp ==> tcp[ip].TcpAllocator?
    requires forall ip :: ip in ips ==> ip in tcp
    ensures var tcp' := AllocateAll(reg, tcp, t, ips).1;
            tcp'.Keys == tcp.Keys && forall ip :: ip in tcp' ==> tcp'[ip].TcpAllocator?
  {
    if ips != [] {
      AttemptsTcp(reg, tcp[ips[0]], t, Budget(reg));
      var a' := Attempts(reg, tcp[ips[0]], t, Budget(reg)).2;
      AllocatedAreTcp(reg, tcp[ips[0] := a'], t, ips[1..]);
    }
  }

  lemma {:induction false} AttemptsTcp(reg: Table, a: Allocator, t: SvcType, n: nat)
    requires n > 0 && a.TcpAllocator?
    ensures Attempts(reg, a, t, n).2.TcpAllocator?
    decreases n
  {
    var (addr, a') := Allocate(a, t);
    if Registered(reg, addr.kind, addr.url) && t == UserSvc && n != 1 {
      AttemptsTcp(reg, a', t, n - 1);
    }
  }

  lemma OnlineOneKeeps(ns: Ns, svc: string, order: seq<string>, bound: set<string>)
    requires Valid(ns) && ns.tcp != map[] && svc in ns.registry && Enumerates(order, ns.tcp.Keys)
    ensures Valid(OnlineOne(ns, svc, order, bound))
  {
    if svc != HOST_SERVER {
      AddTcpKeeps(ns, svc, true, [], order);
      BindKeeps(AddTcp(ns, svc, true, [], order).registry, svc, bound);
    }
  }

  lemma {:induction false} OnlineServicesKeeps(ns: Ns, services: seq<string>, order: seq<string>, bound: set<string>)
    requires Valid(ns) && ns.tcp != map[]
    requires forall s :: s in services ==> s in ns.registry
    requires Enumerates(order, ns.tcp.Keys)
    ensures Valid(OnlineServices(ns, services, order, bound))
    decreases |services|
  {
    if services != [] {
      OnlineOneKeeps(ns, services[0], order, bound);
      OnlineServicesKeeps(OnlineOne(ns, services[0], order, bound), services[1..], order, bound);
    }
  }

  /** Entering a service with no addresses keeps the state valid. */
  lemma EnterKeeps(ns: Ns, svc: string, sid: int)
    requires Valid(ns) && svc !in ns.registry
    ensures Valid(ns.(registry := ns.registry[svc := Entry(sid, [])]))
  {
    var reg := ns.registry[svc := Entry(sid, [])];
    assert forall s, i :: IsAt(reg, s, i) ==> IsAt(ns.registry, s, i) && DescAt(reg, s, i) == DescAt(ns.registry, s, i);
    InheritsKeeps(ns.registry, reg);
  }

  // ----------------------------------------------------------------------- runs

  datatype Op =
    | AllocService(svc: string, sid: int, ipcSession: bool, connected: bool, interfaces: seq<string>, order: seq<string>)
    | BindNameServer(bound: set<string>)
    | HostOnline(interfaces: seq<string>, services: seq<string>, order: seq<string>, bound: set<string>)
    | BindReport(svc: string, sid: int, results: seq<BindResult>, tcpSession: bool)
    | Unregister(svc: string)
    | Offline(sid: int)

  predicate AllTcp(tcp: Allocators) {
    forall ip :: ip in tcp ==> tcp[ip].TcpAllocator?
  }

  lemma {:induction false} CreateIsTcp(tcp: Allocators, interfaces: seq<string>)
    requires AllTcp(tcp)
    ensures AllTcp(CreateTcpAllocators(tcp, interfaces)) && CreateTcpAllocators(tcp, interfaces) != map[]
    decreases interfaces
  {
    if interfaces == [] {
      assert tcp == map[] ==> ALL_INTERFACES in CreateTcpAllocators(tcp, interfaces);
    } else {
      var ip := interfaces[0];
      CreateIsTcp(tcp[ip := SetInterfaceIp(if ip in tcp then tcp[ip] else NEW_TCP_ALLOCATOR, ip)], interfaces[1..]);
    }
  }

  /** Iteration orders enumerate what is iterated. */
  ghost predicate Fits(ns: Ns, op: Op)
    requires AllTcp(ns.tcp)
  {
    match op
    case AllocService(svc, sid, ipcSession, connected, interfaces, order) =>
      Enumerates(order, TcpSource(ns.tcp, svc, connected, interfaces).Keys)
    case HostOnline(interfaces, services, order, bound) =>
      && Enumerates(order, CreateTcpAllocators(ns.tcp, interfaces).Keys)
      && Enumerates(services, ns.registry.Keys)
    case _ => true
  }

  function Without(reg: Table, sid: int): Table {
    map s | s in reg && reg[s].sid != sid :: reg[s]
  }

  function Apply(ns: Ns, op: Op): Ns
    requires AllTcp(ns.tcp) && Fits(ns, op)
  {
    match op
    case AllocService(svc, sid, ipcSession, connected, interfaces, order) =>
      if svc in ns.registry then ns
      else
        var ns1 := ns.(registry := ns.registry[svc := Entry(sid, [])]);
        var ns2 := if ipcSession then AddIpc(ns1, svc) else ns1;
        AddTcp(ns2, svc, connected, interfaces, order)
    case BindNameServer(bound) =>
      if NAME_SERVER in ns.registry
      then ns.(registry := SetAddrs(ns.registry, NAME_SERVER, BindAddresses(ns.registry[NAME_SERVER].addrs, bound)))
      else ns
    case HostOnline(interfaces, services, order, bound) =>
      CreateIsTcp(ns.tcp, interfaces);
      OnlineServices(ns.(tcp := CreateTcpAllocators(ns.tcp, interfaces)), services, order, bound)
    case BindReport(svc, sid, results, tcpSession) => Report(ns, svc, sid, results, tcpSession)
    case Unregister(svc) => ns.(registry := ns.registry - {svc})
    case Offline(sid) => ns.(registry := Without(ns.registry, sid))
  }

  /**
   Interfaces are written without brackets. Addresses that a service bound elsewhere than
   asked, or unasked, are on free URLs and interfaces when they are reported, and so is
   the host server's IPC address if the fallback adds it.
   */
  ghost predicate Expected(ns: Ns, op: Op) {
    match op
    case AllocService(_, _, _, _, interfaces, _) => forall k :: 0 <= k < |interfaces| ==> !Bracketed(interfaces[k])
    case HostOnline(interfaces, _, _, _) => forall k :: 0 <= k < |interfaces| ==> !Bracketed(interfaces[k])
    case BindReport(svc, sid, results, tcpSession) => ReportSafe(ns, svc, sid, results, tcpSession)
    case _ => true
  }

  lemma ApplyKeeps(ns: Ns, op: Op)
    requires Valid(ns) && Fits(ns, op) && Expected(ns, op)
    ensures Valid(Apply(ns, op))
  {
    match op
    case AllocService(svc, sid, ipcSession, connected, interfaces, order) =>
      if svc !in ns.registry {
        var ns1 := ns.(registry := ns.registry[svc := Entry(sid, [])]);
        EnterKeeps(ns, svc, sid);
        AddIpcKeeps(ns1, svc);
        AddTcpKeeps(if ipcSession then AddIpc(ns1, svc) else ns1, svc, connected, interfaces, order);
      }
    case BindNameServer(bound) =>
      if NAME_SERVER in ns.registry {
        BindKeeps(ns.registry, NAME_SERVER, bound);
      }
    case HostOnline(interfaces, services, order, bound) =>
      CreateKeeps(ns.tcp, interfaces);
      OnlineServicesKeeps(ns.(tcp := CreateTcpAllocators(ns.tcp, interfaces)), services, order, bound);
    case BindReport(svc, sid, results, tcpSession) =>
      ReportKeepsIff(ns, svc, sid, results, tcpSession);
    case Unregister(svc) =>
      RestrictKeeps(ns.registry, ns.registry - {svc});
    case Offline(sid) =>
      RestrictKeeps(ns.registry, Without(ns.registry, sid));
  }

  const START := Ns(map[], map[], IpcAllocator(0))

  ghost predicate IsRun(states: seq<Ns>, ops: seq<Op>) {
    && |states| == |ops| + 1 && states[0] == START
    && forall k :: 0 <= k < |ops| ==>
         Valid(states[k]) ==> Fits(states[k], ops[k]) && Expected(states[k], ops[k]) && states[k + 1] == Apply(states[k], ops[k])
  }

  /**
   In every state of every run no two descriptors of the whole registry share a URL,
   no service holds two TCP addresses on one interface, and every allocator serves
   the interface it is filed under.
   */
  lemma {:induction false} RunsKeepAddressesUnique(states: seq<Ns>, ops: seq<Op>, k: nat)
    requires IsRun(states, ops) && k <= |ops|
    ensures Valid(states[k])
    ensures UrlsUnique(states[k].registry) && OneTcpPerInterface(states[k].registry)
    ensures forall ip :: ip in states[k].tcp ==> states[k].tcp[ip].TcpAllocator? && states[k].tcp[ip].ip == ip
  {
    if k > 0 {
      RunsKeepAddressesUnique(states, ops, k - 1);
      ApplyKeeps(states[k - 1], ops[k - 1]);
    }
  }

  /** A user service gets an address from every allocator, in their order. */
  lemma {:induction false} AllocateAllEach(reg: Table, tcp: Allocators, ips: seq<string>)
    requires ValidTable(reg) && ValidAllocators(tcp) && |reg| < PORTS && forall ip :: ip in ips ==> ip in tcp
    ensures var addrs := AllocateAll(reg, tcp, UserSvc, ips).0;
            |addrs| == |ips| && forall k :: 0 <= k < |ips| ==> addrs[k].kind == Tcp && addrs[k].host == ips[k]
  {
    if ips != [] {
      var ip := ips[0];
      assert ValidTcpAllocator(tcp[ip], ip);
      BudgetSuffices(reg, ip, tcp[ip].port);
      FreshOne(reg, tcp, UserSvc, ip);
      hide Attempts, ValidTable, ValidAllocators;
      AllocateAllEach(reg, tcp[ip := Attempts(reg, tcp[ip], UserSvc, Budget(reg)).2], ips[1..]);
    }
  }

  /** Appending leaves no interface of the appended addresses, and none used before, without an address. */
  lemma {:induction false} AppendAllUses(reg: Table, svc: string, addrs: seq<Address>, a: Address)
    requires svc in reg && (a in addrs || InterfaceUsed(reg[svc].addrs, a))
    ensures InterfaceUsed(AppendAll(reg, svc, addrs)[svc].addrs, a)
    decreases |addrs|
  {
    if addrs != [] {
      var d, descs := Desc(Pending, addrs[0], 0), reg[svc].addrs;
      assert (descs + [d])[|descs|] == d;
      if InterfaceUsed(descs, a) {
        var i :| 0 <= i < |descs| && descs[i].addr.kind == a.kind && descs[i].addr.host == a.host;
        assert (descs + [d])[i] == descs[i];
      }
      AppendAllUses(if InterfaceUsed(descs, addrs[0]) then reg else Add(reg, svc, d), svc, addrs[1..], a);
    }
  }

  lemma AddTcpEach(ns: Ns, svc: string, connected: bool, interfaces: seq<string>, order: seq<string>, ip: string)
    requires Valid(ns) && svc in ns.registry && GetSvcType(svc) == UserSvc && |ns.registry| < PORTS
    requires ns.tcp != map[] && Enumerates(order, ns.tcp.Keys) && ip in ns.tcp
    ensures Valid(AddTcp(ns, svc, connected, interfaces, order))
    ensures OnInterface(AddTcp(ns, svc, connected, interfaces, order).registry, svc, ip)
  {
    AddTcpKeeps(ns, svc, connected, [], order);
    AllocateAllEach(ns.registry, ns.tcp, order);
    var addrs := AllocateAll(ns.registry, ns.tcp, UserSvc, order).0;
    var k :| 0 <= k < |order| && order[k] == ip;
    hide AllocateAll, AppendAll, Valid;
    var a := addrs[k];
    assert a in addrs;
    AppendAllUses(ns.registry, svc, addrs, a);
    var reg := AddTcp(ns, svc, connected, interfaces, order).registry;
    var i :| 0 <= i < |reg[svc].addrs| && reg[svc].addrs[i].addr.kind == a.kind && reg[svc].addrs[i].addr.host == a.host;
    assert IsAt(reg, svc, i) && TcpOn(DescAt(reg, svc, i), ip);
  }

  ghost predicate OnInterface(reg: Table, svc: string, ip: string) {
    exists i :: IsAt(reg, svc, i) && TcpOn(DescAt(reg, svc, i), ip)
  }

  /**
   Hence, in every reachable state, a new user service is given exactly one TCP address on
   each interface the name server has, as long as all services are fewer than the ports.
   */
  lemma ReachableStatesAllocate(states: seq<Ns>, ops: seq<Op>, k: nat, op: Op, ip: string)
    requires IsRun(states, ops) && k <= |ops| && |states[k].registry| + 1 < PORTS
    requires op.AllocService? && GetSvcType(op.svc) == UserSvc && op.svc !in states[k].registry
    requires ip in states[k].tcp && AllTcp(states[k].tcp) && Fits(states[k], op)
    ensures var reg := Apply(states[k], op).registry;
            OnInterface(reg, op.svc, ip) && OneTcpPerInterface(reg)
  {
    RunsKeepAddressesUnique(states, ops, k);
    var ns := states[k];
    hide Expected, OneTcpPerInterface, IsRun;
    var ns1 := ns.(registry := ns.registry[op.svc := Entry(op.sid, [])]);
    assert |ns1.registry| == |ns.registry| + 1;
    EnterKeeps(ns, op.svc, op.sid);
    AddIpcKeeps(ns1, op.svc);
    var ns2 := if op.ipcSession then AddIpc(ns1, op.svc) else ns1;
    hide AddIpc, AddTcp, OnInterface;
    assert |ns2.registry.Keys| == |ns1.registry.Keys|;
    AddTcpEach(ns2, op.svc, op.connected, op.interfaces, op.order, ip);
  }

  // ------------------------------------------------- URLs, whatever the interfaces

  lemma AddIpcOk(ns: Ns, svc: string)
    requires NsOk(ns) && svc in ns.registry
    ensures NsOk(AddIpc(ns, svc))
  {
    AttemptOk(ns.registry, ns.ipc, GetSvcType(svc));
    var (ok, addr, a') := Attempts(ns.registry, ns.ipc, GetSvcType(svc), Budget(ns.registry));
    AppendAllOk(ns.registry, svc, if ok then [addr] else []);
    hide Attempts, AppendAll;
  }

  lemma AddTcpOk(ns: Ns, svc: string, connected: bool, interfaces: seq<string>, order: seq<string>)
    requires NsOk(ns) && svc in ns.registry
    requires Enumerates(order, TcpSource(ns.tcp, svc, connected, interfaces).Keys)
    ensures var ns' := AddTcp(ns, svc, connected, interfaces, order);
            NsOk(ns') && (ns.tcp != map[] ==> ns'.tcp.Keys == ns.tcp.Keys)
  {
    CreateServesKeys(map[], []);
    CreateServesKeys(map[], interfaces);
    var tcp := TcpSource(ns.tcp, svc, connected, interfaces);
    AllocateAllOk(ns.registry, tcp, GetSvcType(svc), order);
    AppendAllOk(ns.registry, svc, AllocateAll(ns.registry, tcp, GetSvcType(svc), order).0);
    hide UrlsOk, AllocateAll, AppendAll, CreateTcpAllocators;
  }

  lemma BindOk(reg: Table, svc: string, bound: set<string>)
    requires UrlsOk(reg) && svc in reg
    ensures UrlsOk(SetAddrs(reg, svc, BindAddresses(reg[svc].addrs, bound)))
  {
    SameAddressesOk(reg, SetAddrs(reg, svc, BindAddresses(reg[svc].addrs, bound)));
  }

  lemma OnlineOneOk(ns: Ns, svc: string, order: seq<string>, bound: set<string>)
    requires NsOk(ns) && ns.tcp != map[] && svc in ns.registry && Enumerates(order, ns.tcp.Keys)
    ensures NsOk(OnlineOne(ns, svc, order, bound))
  {
    if svc != HOST_SERVER {
      AddTcpOk(ns, svc, true, [], order);
      BindOk(AddTcp(ns, svc, true, [], order).registry, svc, bound);
      hide AddTcp, UrlsOk;
    }
  }

  lemma {:induction false} OnlineServicesOk(ns: Ns, services: seq<string>, order: seq<string>, bound: set<string>)
    requires NsOk(ns) && ns.tcp != map[] && Enumerates(order, ns.tcp.Keys)
    requires forall s :: s in services ==> s in ns.registry
    ensures NsOk(OnlineServices(ns, services, order, bound))
    decreases |services|
  {
    if services != [] {
      OnlineOneOk(ns, services[0], order, bound);
      OnlineServicesOk(OnlineOne(ns, services[0], order, bound), services[1..], order, bound);
    }
  }

  /** Addresses that services report as bound elsewhere, or unasked, and the fallback address are on unused URLs. */
  ghost predicate UrlsExpected(ns: Ns, op: Op) {
    op.BindReport? ==> ReportFree(ns, op.svc, op.sid, op.results, op.tcpSession)
  }

  lemma ApplyOk(ns: Ns, op: Op)
    requires NsOk(ns) && Fits(ns, op) && UrlsExpected(ns, op)
    ensures NsOk(Apply(ns, op))
  {
    match op
    case AllocService(svc, sid, ipcSession, connected, interfaces, order) =>
      if svc !in ns.registry {
        var ns1 := ns.(registry := ns.registry[svc := Entry(sid, [])]);
        SameAddressesOk(ns.registry, ns1.registry);
        AddIpcOk(ns1, svc);
        AddTcpOk(if ipcSession then AddIpc(ns1, svc) else ns1, svc, connected, interfaces, order);
      }
    case BindNameServer(bound) =>
      if NAME_SERVER in ns.registry {
        BindOk(ns.registry, NAME_SERVER, bound);
      }
    case HostOnline(interfaces, services, order, bound) =>
      CreateServesKeys(ns.tcp, interfaces);
      OnlineServicesOk(ns.(tcp := CreateTcpAllocators(ns.tcp, interfaces)), services, order, bound);
    case BindReport(svc, sid, results, tcpSession) =>
      ReportUniqueIff(ns, svc, sid, results, tcpSession);
    case Unregister(svc) =>
      SameAddressesOk(ns.registry, ns.registry - {svc});
    case Offline(sid) =>
      SameAddressesOk(ns.registry, Without(ns.registry, sid));
  }

  ghost predicate IsUrlRun(states: seq<Ns>, ops: seq<Op>) {
    && |states| == |ops| + 1 && states[0] == START
    && forall k :: 0 <= k < |ops| ==>
         NsOk(states[k]) ==> Fits(states[k], ops[k]) && UrlsExpected(states[k], ops[k]) && states[k + 1] == Apply(states[k], ops[k])
  }

  /**
   With interfaces written in any way, in every state of every run no two descriptors of
   the whole registry share a URL, and every allocator serves the interface it is filed
   under.
   */
  lemma {:induction false} RunsKeepUrlsUnique(states: seq<Ns>, ops: seq<Op>, k: nat)
    requires IsUrlRun(states, ops) && k <= |ops|
    ensures NsOk(states[k]) && UrlsUnique(states[k].registry)
    ensures forall ip :: ip in states[k].tcp ==> states[k].tcp[ip].TcpAllocator? && states[k].tcp[ip].ip == ip
  {
    if k > 0 {
      RunsKeepUrlsUnique(states, ops, k - 1);
      ApplyOk(states[k - 1], ops[k - 1]);
    }
  }

  // ------------------------------------- interfaces, with and without brackets

  lemma AddTcpOneTcp(ns: Ns, svc: string, connected: bool, interfaces: seq<string>, order: seq<string>)
    requires OneTcpPerInterface(ns.registry) && svc in ns.registry && AllTcp(ns.tcp)
    requires forall ip :: ip in order ==> ip in TcpSource(ns.tcp, svc, connected, interfaces)
    ensures OneTcpPerInterface(AddTcp(ns, svc, connected, interfaces, order).registry)
  {
    AppendAllOneTcp(ns.registry, svc, AllocateAll(ns.registry, TcpSource(ns.tcp, svc, connected, interfaces), GetSvcType(svc), order).0);
    hide OneTcpPerInterface, AllocateAll, AppendAll, TcpSource;
  }

  lemma OnlineOneOneTcp(ns: Ns, svc: string, order: seq<string>, bound: set<string>)
    requires OneTcpPerInterface(ns.registry) && svc in ns.registry && ns.tcp != map[] && AllTcp(ns.tcp)
    requires forall ip :: ip in order ==> ip in ns.tcp
    ensures OneTcpPerInterface(OnlineOne(ns, svc, order, bound).registry)
  {
    if svc != HOST_SERVER {
      AddTcpOneTcp(ns, svc, true, [], order);
      var reg := AddTcp(ns, svc, true, [], order).registry;
      hide AddTcp;
      SameAddressesOneTcp(reg, SetAddrs(reg, svc, BindAddresses(reg[svc].addrs, bound)));
      hide OneTcpPerInterface;
    }
  }

  lemma {:induction false} OnlineServicesOneTcp(ns: Ns, services: seq<string>, order: seq<string>, bound: set<string>)
    requires OneTcpPerInterface(ns.registry) && ns.tcp != map[] && AllTcp(ns.tcp)
    requires (forall ip :: ip in order ==> ip in ns.tcp) && forall s :: s in services ==> s in ns.registry
    ensures OneTcpPerInterface(OnlineServices(ns, services, order, bound).registry)
    decreases |services|
  {
    if services != [] {
      hide OneTcpPerInterface, OnlineOne;
      OnlineOneOneTcp(ns, services[0], order, bound);
      OnlineServicesOneTcp(OnlineOne(ns, services[0], order, bound), services[1..], order, bound);
    }
  }

  /** Every operation keeps one TCP address per interface; a report does if it lands on free interfaces. */
  lemma ApplyOneTcp(ns: Ns, op: Op)
    requires OneTcpPerInterface(ns.registry) && AllTcp(ns.tcp) && Fits(ns, op)
    requires op.BindReport? ==> ReportLandsFree(ns, op.svc, op.sid, op.results, op.tcpSession)
    ensures OneTcpPerInterface(Apply(ns, op).registry)
  {
    match op
    case AllocService(svc, sid, ipcSession, connected, interfaces, order) =>
      if svc !in ns.registry {
        var ns1 := ns.(registry := ns.registry[svc := Entry(sid, [])]);
        SameAddressesOneTcp(ns.registry, ns1.registry);
        var (ok, addr, a') := Attempts(ns1.registry, ns1.ipc, GetSvcType(svc), Budget(ns1.registry));
        AppendAllOneTcp(ns1.registry, svc, if ok then [addr] else []);
        AddTcpOneTcp(if ipcSession then AddIpc(ns1, svc) else ns1, svc, connected, interfaces, order);
        hide OneTcpPerInterface, AppendAll, Attempts, AddTcp;
      }
    case BindNameServer(bound) =>
      if NAME_SERVER in ns.registry {
        SameAddressesOneTcp(ns.registry, SetAddrs(ns.registry, NAME_SERVER, BindAddresses(ns.registry[NAME_SERVER].addrs, bound)));
      }
    case HostOnline(interfaces, services, order, bound) =>
      CreateIsTcp(ns.tcp, interfaces);
      OnlineServicesOneTcp(ns.(tcp := CreateTcpAllocators(ns.tcp, interfaces)), services, order, bound);
    case BindReport(svc, sid, results, tcpSession) =>
      ReportOneTcpIff(ns, svc, sid, results, tcpSession);
    case Unregister(svc) =>
      SameAddressesOneTcp(ns.registry, ns.registry - {svc});
    case Offline(sid) =>
      SameAddressesOneTcp(ns.registry, Without(ns.registry, sid));
  }

  lemma UrlRunStep(states: seq<Ns>, ops: seq<Op>, k: nat)
    requires IsUrlRun(states, ops) && k < |ops| && NsOk(states[k])
    ensures Fits(states[k], ops[k]) && UrlsExpected(states[k], ops[k]) && states[k + 1] == Apply(states[k], ops[k])
  {
    var ns, op, ns' := states[k], ops[k], states[k + 1];
    assert Fits(ns, op);
    assert ns' == Apply(ns, op);
    assert UrlsExpected(ns, op);
  }

  /** In every run, interfaces written in any way, whose reports land on free interfaces no service has two TCP addresses on one. */
  lemma {:induction false} RunsKeepOneTcp(states: seq<Ns>, ops: seq<Op>, k: nat)
    requires IsUrlRun(states, ops) && k <= |ops|
    requires forall i :: 0 <= i < k && ops[i].BindReport? ==>
               ReportLandsFree(states[i], ops[i].svc, ops[i].sid, ops[i].results, ops[i].tcpSession)
    ensures OneTcpPerInterface(states[k].registry)
  {
    if k > 0 {
      hide OneTcpPerInterface, ReportLandsFree, Fits, Apply, UrlsExpected;
      RunsKeepUrlsUnique(states, ops, k - 1);
      RunsKeepOneTcp(states, ops, k - 1);
      UrlRunStep(states, ops, k - 1);
      ApplyOneTcp(states[k - 1], ops[k - 1]);
    }
  }

  lemma AllocateAllStep(reg: Table, tcp: Allocators, t: SvcType, order: seq<string>, i: nat, addrs: seq<Address>)
    requires i < |order| && forall ip :: ip in order ==> ip in tcp
    ensures var (ok, addr, a') := Attempts(reg, tcp[order[i]], t, Budget(reg));
            var (all, tcp1) := AllocateAll(reg, tcp, t, order[i..]);
            var (rest, tcp2) := AllocateAll(reg, tcp[order[i] := a'], t, order[i + 1..]);
            addrs + all == (if ok then addrs + [addr] else addrs) + rest && tcp1 == tcp2
  {
    assert order[i..][0] == order[i] && order[i..][1..] == order[i + 1..];
    var (ok, addr, a') := Attempts(reg, tcp[order[i]], t, Budget(reg));
    var rest := AllocateAll(reg, tcp[order[i] := a'], t, order[i + 1..]).0;
    assert addrs + ([addr] + rest) == (addrs + [addr]) + rest;
  }

  lemma ReportAllStep(p: Progress, svc: string, results: seq<BindResult>, i: nat, tcpSession: bool)
    requires svc in p.ns.registry && i < |results|
    ensures ReportAll(p, svc, results[i..], tcpSession) ==
            ReportAll(ReportItem(p, svc, results[i], tcpSession), svc, results[i + 1..], tcpSession)
  {
    assert results[i..][1..] == results[i + 1..];
  }

  // ------------------------------------------------------------------ the server

  class Server {
    var registry: Table
    var tcp: Allocators
    var ipc: Allocator

    ghost function View(): Ns
      reads this
    {
      Ns(registry, tcp, ipc)
    }

    constructor ()
      ensures View() == START && Valid(View())
    {
      registry, tcp, ipc := map[], map[], IpcAllocator(0);
    }

    /** allocateTcpAddress: one address from each allocator of `source`. */
    method AllocateTcpAddresses(source: Allocators, t: SvcType, order: seq<string>) returns (addrs: seq<Address>, source': Allocators)
      requires forall ip :: ip in order ==> ip in source
      ensures (addrs, source') == AllocateAll(registry, source, t, order)
    {
      addrs, source' := [], source;
      var i := 0;
      ghost var all := AllocateAll(registry, source, t, order);
      assert order[0..] == order && [] + all.0 == all.0;
      while i < |order|
        invariant 0 <= i <= |order| && source'.Keys == source.Keys
        invariant addrs + AllocateAll(registry, source', t, order[i..]).0 == all.0
        invariant AllocateAll(registry, source', t, order[i..]).1 == all.1
      {
        AllocateAllStep(registry, source', t, order, i, addrs);
        var ok, addr, a' := AllocateAddress(registry, source'[order[i]], t);
        source' := source'[order[i] := a'];
        addrs := if ok then addrs + [addr] else addrs;
        i := i + 1;
      }
      assert order[i..] == [];
      assert addrs + [] == addrs;
    }

    /** The loop of addOneServiceAddress. */
    method AppendAddresses(svc: string, addrs: seq<Address>)
      requires svc in registry
      modifies this`registry
      ensures registry == AppendAll(old(registry), svc, addrs)
    {
      var i := 0;
      while i < |addrs|
        invariant 0 <= i <= |addrs| && svc in registry
        invariant AppendAll(registry, svc, addrs[i..]) == AppendAll(old(registry), svc, addrs)
      {
        assert addrs[i..][0] == addrs[i] && addrs[i..][1..] == addrs[i + 1..];
        if !InterfaceUsed(registry[svc].addrs, addrs[i]) {
          registry := Add(registry, svc, Desc(Pending, addrs[i], 0));
        }
        i := i + 1;
      }
    }

    method AddTcpAddresses(svc: string, connected: bool, interfaces: seq<string>, order: seq<string>)
      requires AllTcp(tcp) && svc in registry
      requires forall ip :: ip in order ==> ip in TcpSource(tcp, svc, connected, interfaces)
      modifies this`registry, this`tcp
      ensures View() == AddTcp(old(View()), svc, connected, interfaces, order)
    {
      var source := tcp;
      if tcp == map[] {
        if connected {
          source := CreateAllocators(map[], []);
        } else if GetSvcType(svc) == HostServerSvc {
          source := CreateAllocators(map[], interfaces);
        }
      }
      var addrs, source' := AllocateTcpAddresses(source, GetSvcType(svc), order);
      AppendAddresses(svc, addrs);
      if tcp != map[] || connected {
        tcp := source';
      }
    }

    /** onAllocServiceAddressReq: an existing name is refused. */
    method AllocServiceAddress(svc: string, sid: int, ipcSession: bool, connected: bool, interfaces: seq<string>, order: seq<string>)
      returns (found: bool)
      requires AllTcp(tcp) && Fits(View(), AllocService(svc, sid, ipcSession, connected, interfaces, order))
      modifies this
      ensures View() == Apply(old(View()), AllocService(svc, sid, ipcSession, connected, interfaces, order))
      ensures found <==> svc !in old(registry) && registry[svc].addrs != []
    {
      hide CreateTcpAllocators, AppendAll, Attempts, AllocateAll;
      if svc in registry {
        return false;
      }
      registry := registry[svc := Entry(sid, [])];
      if ipcSession {
        var ok, addr, a' := AllocateAddress(registry, ipc, GetSvcType(svc));
        ipc := a';
        AppendAddresses(svc, if ok then [addr] else []);
      }
      AddTcpAddresses(svc, connected, interfaces, order);
      found := registry[svc].addrs != [];
    }

    /** createTcpAllocator, for the interfaces already resolved to IP strings. */
    static method CreateAllocators(start: Allocators, interfaces: seq<string>) returns (r: Allocators)
      requires forall ip :: ip in start ==> start[ip].TcpAllocator?
      ensures r == CreateTcpAllocators(start, interfaces)
    {
      r := start;
      var i := 0;
      while i < |interfaces|
        invariant 0 <= i <= |interfaces| && forall ip :: ip in r ==> r[ip].TcpAllocator?
        invariant CreateTcpAllocators(r, interfaces[i..]) == CreateTcpAllocators(start, interfaces)
      {
        var ip := interfaces[i];
        assert interfaces[i..][0] == ip && interfaces[i..][1..] == interfaces[i + 1..];
        r := r[ip := SetInterfaceIp(if ip in r then r[ip] else NEW_TCP_ALLOCATOR, ip)];
        i := i + 1;
      }
      assert interfaces[i..] == [];
      if r == map[] {
        r := map[ALL_INTERFACES := SetInterfaceIp(NEW_TCP_ALLOCATOR, ALL_INTERFACES)];
      }
    }

    /** bindNsAddress. */
    method BindNsAddresses(bound: set<string>)
      requires NAME_SERVER in registry
      modifies this`registry
      ensures registry == SetAddrs(old(registry), NAME_SERVER, BindAddresses(old(registry[NAME_SERVER].addrs), bound))
    {
      var addrs := registry[NAME_SERVER].addrs;
      var i := 0;
      while i < |addrs|
        invariant 0 <= i <= |addrs| == |old(registry[NAME_SERVER].addrs)|
        invariant forall k :: 0 <= k < i ==> addrs[k] == BindAddresses(old(registry[NAME_SERVER].addrs), bound)[k]
        invariant forall k :: i <= k < |addrs| ==> addrs[k] == old(registry[NAME_SERVER].addrs)[k]
      {
        if addrs[i].status != Bound && addrs[i].addr.url in bound {
          addrs := addrs[i := addrs[i].(status := Bound)];
        }
        i := i + 1;
      }
      assert addrs == BindAddresses(old(registry[NAME_SERVER].addrs), bound);
      registry := SetAddrs(registry, NAME_SERVER, addrs);
    }

    /** The body of the loop of onHostOnline. */
    method BringOnline(svc: string, order: seq<string>, bound: set<string>)
      requires AllTcp(tcp) && tcp != map[] && svc in registry && forall ip :: ip in order ==> ip in tcp
      modifies this`registry, this`tcp
      ensures View() == OnlineOne(old(View()), svc, order, bound)
    {
      if svc != HOST_SERVER {
        var before := |registry[svc].addrs|;
        AddTcpAddresses(svc, true, [], order);
        if svc == NAME_SERVER && |registry[svc].addrs| > before {
          BindNsAddresses(bound);
        }
      }
    }

    /** onHostOnline: every service but the host server gets addresses on the new interfaces. */
    method OnHostOnline(interfaces: seq<string>, services: seq<string>, order: seq<string>, bound: set<string>)
      requires AllTcp(tcp) && Fits(View(), HostOnline(interfaces, services, order, bound))
      modifies this`registry, this`tcp
      ensures View() == Apply(old(View()), HostOnline(interfaces, services, order, bound))
    {
      hide OnlineServices;
      CreateIsTcp(tcp, interfaces);
      tcp := CreateAllocators(tcp, interfaces);
      BringAllOnline(services, order, bound);
    }

    method BringAllOnline(services: seq<string>, order: seq<string>, bound: set<string>)
      requires AllTcp(tcp) && tcp != map[] && Enumerates(order, tcp.Keys)
      requires forall s :: s in services ==> s in registry
      modifies this`registry, this`tcp
      ensures View() == OnlineServices(old(View()), services, order, bound)
    {
      hide OnlineOne;
      var i := 0;
      assert services[0..] == services;
      while i < |services|
        invariant 0 <= i <= |services|
        invariant AllTcp(tcp) && tcp != map[] && tcp.Keys == old(tcp.Keys) && registry.Keys == old(registry.Keys)
        invariant OnlineServices(View(), services[i..], order, bound) == OnlineServices(old(View()), services, order, bound)
      {
        assert services[i..][0] == services[i] && services[i..][1..] == services[i + 1..];
        BringOnline(services[i], order, bound);
        i := i + 1;
      }
      assert services[i..] == [];
    }

    /** One element of a bind report, applied in place. */
    method ApplyResult(svc: string, r: BindResult, tcpSession: bool, strangers: seq<Desc>, hsUrl: bool)
      returns (strangers': seq<Desc>, hsUrl': bool)
      requires svc in registry
      modifies this
      ensures Progress(View(), strangers', hsUrl') == ReportItem(Progress(old(View()), strangers, hsUrl), svc, r, tcpSession)
    {
      strangers', hsUrl' := strangers, hsUrl;
      var addrs := registry[svc].addrs;
      var at := IndexOfUrl(addrs, r.request);
      if at == None {
        var a := ParseUrl(r.bind);
        if a.Some? {
          strangers', hsUrl' := strangers + [Desc(Bound, a.value, 0)], hsUrl || GivesUrl(a.value, tcpSession);
        }
        return;
      }
      var i, d := at.value, addrs[at.value];
      if r.bind != "" {
        d := d.(status := Bound);
        if d.addr.kind != Ipc && r.bind != d.addr.url && ParseUrl(r.bind).Some? {
          d := d.(addr := ParseUrl(r.bind).value);
        }
        registry := Replace(registry, svc, i, d);
      }
      if d.status == Bound {
        hsUrl' := hsUrl || GivesUrl(d.addr, tcpSession);
      } else {
        var again := Reconnect(svc, d);
        registry := if again.Some? then Replace(registry, svc, i, again.value) else Erase(registry, svc, i);
      }
    }

    /** reconnectToAddress. */
    method Reconnect(svc: string, d: Desc) returns (again: Option<Desc>)
      modifies this`tcp, this`ipc
      ensures (again, View()) == Reissue(old(View()), svc, d)
    {
      again := None;
      if d.reconnects >= BIND_RETRIES {
        return;
      }
      var ok, addr, a';
      if d.addr.kind == Ipc {
        ok, addr, a' := AllocateAddress(registry, ipc, GetSvcType(svc));
        ipc := a';
      } else {
        if d.addr.host !in tcp {
          return;
        }
        ok, addr, a' := AllocateAddress(registry, tcp[d.addr.host], GetSvcType(svc));
        tcp := tcp[d.addr.host := a'];
      }
      again := Reissued(ok, addr, d);
    }

    /** The loop of onRegisterServiceReq. */
    method ApplyResults(svc: string, results: seq<BindResult>, tcpSession: bool) returns (strangers: seq<Desc>, hsUrl: bool)
      requires svc in registry
      modifies this
      ensures svc in registry
      ensures Progress(View(), strangers, hsUrl) == ReportAll(Progress(old(View()), [], false), svc, results, tcpSession)
    {
      strangers, hsUrl := [], false;
      var i := 0;
      assert results[0..] == results;
      while i < |results|
        invariant 0 <= i <= |results| && svc in registry
        invariant ReportAll(Progress(View(), strangers, hsUrl), svc, results[i..], tcpSession) ==
                  ReportAll(Progress(old(View()), [], false), svc, results, tcpSession)
      {
        ReportAllStep(Progress(View(), strangers, hsUrl), svc, results, i, tcpSession);
        strangers, hsUrl := ApplyResult(svc, results[i], tcpSession, strangers, hsUrl);
        i := i + 1;
      }
    }

    /** onRegisterServiceReq. */
    method OnRegisterService(svc: string, sid: int, results: seq<BindResult>, tcpSession: bool)
      modifies this
      ensures View() == Report(old(View()), svc, sid, results, tcpSession)
    {
      if svc in registry {
        registry := registry[svc := registry[svc].(sid := sid)];
        var strangers, hsUrl := ApplyResults(svc, results, tcpSession);
        Finish(svc, strangers, hsUrl);
      }
    }

    /** The end of onRegisterServiceReq: the service has what is left of its table and what arrived, or is gone. */
    method Finish(svc: string, strangers: seq<Desc>, hsUrl: bool)
      requires svc in registry
      modifies this`registry
      ensures View() == FinishReport(Progress(old(View()), strangers, hsUrl), svc)
      ensures var all := old(registry)[svc].addrs + Arrivals(Progress(old(View()), strangers, hsUrl), svc);
              && (svc in registry <==> all != []) && (svc in registry ==> registry[svc] == old(registry)[svc].(addrs := all))
              && registry - {svc} == old(registry) - {svc}
    {
      FinishExtends(Progress(View(), strangers, hsUrl), svc);
      var addrs := registry[svc].addrs + strangers;
      if addrs == [] {
        registry := registry - {svc};
      } else if svc == HOST_SERVER && !hsUrl {
        registry := SetAddrs(registry, svc, addrs + [Desc(Free, HOST_SERVER_IPC, 0)]);
      } else {
        registry := SetAddrs(registry, svc, addrs);
      }
    }

    /** onOffline: drops every service registered over the lost session. */
    method OnOffline(sid: int)
      modifies this`registry
      ensures registry == Without(old(registry), sid)
      ensures forall s :: s in registry <==> s in old(registry) && old(registry)[s].sid != sid
      ensures forall s :: s in registry ==> registry[s] == old(registry)[s]
    {
      var todo := registry.Keys;
      while todo != {}
        invariant todo <= old(registry).Keys && registry.Keys <= old(registry).Keys
        invariant forall s :: s in registry ==> registry[s] == old(registry)[s] && (s in todo || registry[s].sid != sid)
        invariant forall s :: s in old(registry) && s !in registry ==> s !in todo && old(registry)[s].sid == sid
      {
        var svc :| svc in todo;
        todo := todo - {svc};
        if registry[svc].sid == sid {
          registry := registry - {svc};
        }
      }
    }
  }
}
