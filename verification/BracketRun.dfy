/**
 A run of CNameServer on an interface written in brackets, any such interface, that ends
 with two TCP addresses of one service on one host.
 */
module BracketRun {
  import opened Common
  import opened Addresses
  import opened Registry
  import opened NameServer
  import opened UrlTable
  import opened Interfaces
  import opened NameServerRuns

  /** One service with these addresses, and one interface whose next port is `port`. */
  function One(svc: string, ip: string, descs: seq<Desc>, port: nat): Ns {
    Ns(map[svc := Entry(1, descs)], map[ip := TcpAllocator(ip, port)], IpcAllocator(0))
  }

  /** As allocated. */
  function Allocated(ip: string, port: nat): Desc {
    Desc(Pending, TcpAddress(ip, port), 0)
  }

  /** As reissued once: the URL keeps the brackets, the host does not. */
  function Again(ip: string, port: nat): Desc {
    Desc(Pending, Address(Tcp, StripBrackets(ip), port, TcpUrl(ip, port)), 1)
  }

  predicate FreshPort(descs: seq<Desc>, ip: string, port: nat) {
    forall i :: 0 <= i < |descs| ==> descs[i].addr.url != TcpUrl(ip, port)
  }

  lemma AttemptFree(svc: string, ip: string, descs: seq<Desc>, port: nat)
    requires FreshPort(descs, ip, port)
    ensures var reg := One(svc, ip, descs, port).registry;
            Attempts(reg, TcpAllocator(ip, port), UserSvc, Budget(reg)) == (true, TcpAddress(ip, port), TcpAllocator(ip, NextPort(port)))
  {
    hide TcpUrl;
    var reg := One(svc, ip, descs, port).registry;
    assert !InTable(descs, Tcp, TcpUrl(ip, port));
    assert !Registered(reg, Tcp, TcpUrl(ip, port));
  }

  lemma AllocateFree(svc: string, ip: string, descs: seq<Desc>, port: nat)
    requires FreshPort(descs, ip, port)
    ensures AllocateAll(One(svc, ip, descs, port).registry, map[ip := TcpAllocator(ip, port)], UserSvc, [ip]) ==
            ([TcpAddress(ip, port)], map[ip := TcpAllocator(ip, NextPort(port))])
  {
    hide TcpUrl;
    AttemptFree(svc, ip, descs, port);
    var reg, ips, tcp := One(svc, ip, descs, port).registry, [ip], map[ip := TcpAllocator(ip, port)];
    var tcp' := tcp[ip := TcpAllocator(ip, NextPort(port))];
    assert Attempts(reg, tcp[ips[0]], UserSvc, Budget(reg)) == (true, TcpAddress(ip, port), TcpAllocator(ip, NextPort(port)));
    hide Attempts, TcpAddress;
    assert ips[1..] == [] && AllocateAll(reg, tcp', UserSvc, ips[1..]) == ([], tcp');
    assert AllocateAll(reg, tcp, UserSvc, ips) == ([TcpAddress(ip, port)] + [], tcp');
    assert [TcpAddress(ip, port)] + [] == [TcpAddress(ip, port)] && tcp' == map[ip := TcpAllocator(ip, NextPort(port))];
  }

  /** addOneServiceAddress on an interface the service is not on, as far as host names tell. */
  lemma AddFree(svc: string, ip: string, descs: seq<Desc>, port: nat)
    requires GetSvcType(svc) == UserSvc && FreshPort(descs, ip, port) && forall i :: 0 <= i < |descs| ==> descs[i].addr.host != ip
    ensures AddTcp(One(svc, ip, descs, port), svc, true, [], [ip]) == One(svc, ip, descs + [Allocated(ip, port)], NextPort(port))
  {
    hide TcpUrl;
    AllocateFree(svc, ip, descs, port);
    var ns := One(svc, ip, descs, port);
    assert TcpSource(ns.tcp, svc, true, []) == ns.tcp;
    var addrs := [TcpAddress(ip, port)];
    assert !InterfaceUsed(descs, addrs[0]);
    assert addrs[1..] == [];
    var reg' := Add(ns.registry, svc, Allocated(ip, port));
    assert reg' == One(svc, ip, descs + [Allocated(ip, port)], NextPort(port)).registry;
    assert AppendAll(reg', svc, []) == reg';
    hide AllocateAll, TcpSource, TcpAddress;
  }

  function Online(ip: string, services: seq<string>): Op {
    HostOnline([ip], services, [ip], {})
  }

  function Failed(svc: string, ip: string, port: nat): Op {
    BindReport(svc, 1, [BindResult(TcpUrl(ip, port), "")], false)
  }

  /** The step that `op` takes is one of a run. */
  ghost predicate Takes(ns: Ns, op: Op, ns': Ns) {
    AllTcp(ns.tcp) && Fits(ns, op) && UrlsExpected(ns, op) && ns' == Apply(ns, op)
  }

  lemma FirstOnline(ip: string)
    requires Bracketed(ip)
    ensures Takes(START, Online(ip, []), Ns(map[], map[ip := TcpAllocator(ip, MIN_PORT)], IpcAllocator(0)))
  {
    assert [ip][1..] == [];
    var tcp := map[ip := TcpAllocator(ip, MIN_PORT)];
    assert ip in tcp && tcp != map[] && CreateTcpAllocators(tcp, []) == tcp;
    assert CreateTcpAllocators(map[], [ip]) == tcp;
    assert tcp.Keys == {ip};
  }

  lemma FirstAddress(svc: string, ip: string)
    requires GetSvcType(svc) == UserSvc
    ensures Takes(Ns(map[], map[ip := TcpAllocator(ip, MIN_PORT)], IpcAllocator(0)), AllocService(svc, 1, false, true, [], [ip]),
                  One(svc, ip, [Allocated(ip, MIN_PORT)], MIN_PORT + 1))
  {
    hide TcpUrl;
    var ns := Ns(map[], map[ip := TcpAllocator(ip, MIN_PORT)], IpcAllocator(0));
    assert ns.registry[svc := Entry(1, [])] == One(svc, ip, [], MIN_PORT).registry;
    assert ns.(registry := ns.registry[svc := Entry(1, [])]) == One(svc, ip, [], MIN_PORT);
    AddFree(svc, ip, [], MIN_PORT);
    assert [] + [Allocated(ip, MIN_PORT)] == [Allocated(ip, MIN_PORT)];
    assert ns.tcp.Keys == {ip} && TcpSource(ns.tcp, svc, true, []) == ns.tcp;
    hide AddTcp, TcpSource;
  }

  lemma OnlineAgain(svc: string, ip: string, descs: seq<Desc>, port: nat)
    requires GetSvcType(svc) == UserSvc && Bracketed(ip) && FreshPort(descs, ip, port) && forall i :: 0 <= i < |descs| ==> descs[i].addr.host != ip
    ensures Takes(One(svc, ip, descs, port), Online(ip, [svc]), One(svc, ip, descs + [Allocated(ip, port)], NextPort(port)))
  {
    hide TcpUrl;
    var ns := One(svc, ip, descs, port);
    assert [ip][1..] == [] && [svc][1..] == [];
    assert ip in ns.tcp && ns.tcp != map[] && CreateTcpAllocators(ns.tcp, []) == ns.tcp;
    assert ns.tcp[ip := TcpAllocator(ip, port)] == ns.tcp;
    assert CreateTcpAllocators(ns.tcp, [ip]) == ns.tcp;
    assert ns.tcp.Keys == {ip} && ns.registry.Keys == {svc};
    AddFree(svc, ip, descs, port);
    var ns' := One(svc, ip, descs + [Allocated(ip, port)], NextPort(port));
    assert OnlineOne(ns, svc, [ip], {}) == ns';
    hide AddTcp, OnlineOne;
    assert OnlineServices(ns', [], [ip], {}) == ns';
    assert OnlineServices(ns, [svc], [ip], {}) == ns';
  }

  lemma ReissueFree(svc: string, ip: string, descs: seq<Desc>, q: nat, port: nat)
    requires GetSvcType(svc) == UserSvc && FreshPort(descs, ip, port) && MIN_PORT <= port <= MAX_PORT
    ensures Reissue(One(svc, ip, descs, port), svc, Allocated(ip, q)) == (Some(Again(ip, port)), One(svc, ip, descs, NextPort(port)))
  {
    hide Attempts, ParseUrl, TcpUrl, FreshPort;
    AttemptFree(svc, ip, descs, port);
    TcpParseBuild(ip, port);
    assert map[ip := TcpAllocator(ip, port)][ip := TcpAllocator(ip, NextPort(port))] == map[ip := TcpAllocator(ip, NextPort(port))];
  }

  /** An item that reports a failure of the address at `i`, which is reissued. */
  lemma FailedItem(p: Progress, svc: string, r: BindResult, i: nat, d: Desc, ns: Ns)
    requires svc in p.ns.registry && r.bind == "" && IndexOfUrl(p.ns.registry[svc].addrs, r.request) == Some(i)
    requires p.ns.registry[svc].addrs[i].status != Bound && Reissue(p.ns, svc, p.ns.registry[svc].addrs[i]) == (Some(d), ns)
    ensures ReportItem(p, svc, r, false) == p.(ns := ns.(registry := Replace(p.ns.registry, svc, i, d)))
    ensures MoveFree(p, svc, r)
  {
    hide Reissue, ParseUrl;
  }

  /** A report of nothing else by a service that is not the host server. */
  lemma FailedReport(ns: Ns, svc: string, sid: int, r: BindResult, i: nat, d: Desc, ns': Ns)
    requires svc in ns.registry && ns.registry[svc].sid == sid && svc != HOST_SERVER
    requires r.bind == "" && IndexOfUrl(ns.registry[svc].addrs, r.request) == Some(i)
    requires ns.registry[svc].addrs[i].status != Bound && Reissue(ns, svc, ns.registry[svc].addrs[i]) == (Some(d), ns')
    ensures Report(ns, svc, sid, [r], false) == ns'.(registry := Replace(ns.registry, svc, i, d))
    ensures ReportFree(ns, svc, sid, [r], false)
  {
    hide Reissue, ParseUrl;
    var p, results := StartReport(ns, svc, sid), [r];
    assert p.ns.registry == ns.registry;
    assert p == Progress(ns, [], false);
    FailedItem(p, svc, r, i, d, ns');
    var p' := p.(ns := ns'.(registry := Replace(ns.registry, svc, i, d)));
    hide ReportItem, MoveFree, IndexOfUrl;
    assert results[1..] == [] && ReportAll(p', svc, results[1..], false) == p' && MovesFree(p', svc, results[1..], false);
    assert ReportAll(p, svc, results, false) == p' && MovesFree(p, svc, results, false);
    hide ReportAll, MovesFree;
    FinishEmpty(p'.ns, svc);
  }

  lemma ReportTaken(ns: Ns, svc: string, sid: int, results: seq<BindResult>, tcpSession: bool)
    requires AllTcp(ns.tcp) && ReportFree(ns, svc, sid, results, tcpSession)
    ensures Takes(ns, BindReport(svc, sid, results, tcpSession), Report(ns, svc, sid, results, tcpSession))
  {
    hide Report, ReportFree, AllTcp;
  }

  lemma FailureStep(svc: string, ip: string, descs: seq<Desc>, i: nat, q: nat, port: nat)
    requires GetSvcType(svc) == UserSvc && FreshPort(descs, ip, port) && MIN_PORT <= port <= MAX_PORT
    requires i < |descs| && descs[i] == Allocated(ip, q) && IndexOfUrl(descs, TcpUrl(ip, q)) == Some(i)
    ensures Takes(One(svc, ip, descs, port), Failed(svc, ip, q), One(svc, ip, descs[i := Again(ip, port)], NextPort(port)))
  {
    hide Reissue, TcpUrl, Again, IndexOfUrl, FreshPort, Takes, Report, ReportFree, MovesFree;
    ReissueFree(svc, ip, descs, q, port);
    var ns, r := One(svc, ip, descs, port), BindResult(TcpUrl(ip, q), "");
    FailedReport(ns, svc, 1, r, i, Again(ip, port), One(svc, ip, descs, NextPort(port)));
    ReportTaken(ns, svc, 1, [r], false);
    assert Replace(ns.registry, svc, i, Again(ip, port)) == One(svc, ip, descs[i := Again(ip, port)], NextPort(port)).registry;
  }

  lemma FinishEmpty(ns: Ns, svc: string)
    requires svc in ns.registry && svc != HOST_SERVER && ns.registry[svc].addrs != []
    ensures FinishReport(Progress(ns, [], false), svc) == ns
  {
    var addrs := ns.registry[svc].addrs;
    assert addrs + [] == addrs;
    assert SetAddrs(ns.registry, svc, addrs) == ns.registry;
  }

  lemma PortsDiffer(ip: string, p: nat, q: nat)
    ensures TcpUrl(ip, p) == TcpUrl(ip, q) <==> p == q
  {
    if TcpUrl(ip, p) == TcpUrl(ip, q) {
      TcpUrlInjective(ip, p, ip, q);
    }
  }

  /** The first address fails, and the host comes online again. */
  lemma FirstFailure(svc: string, ip: string, p: nat)
    requires GetSvcType(svc) == UserSvc && Bracketed(ip) && MIN_PORT <= p < MAX_PORT - 2
    ensures Takes(One(svc, ip, [Allocated(ip, p)], p + 1), Failed(svc, ip, p), One(svc, ip, [Again(ip, p + 1)], p + 2))
    ensures Takes(One(svc, ip, [Again(ip, p + 1)], p + 2), Online(ip, [svc]), One(svc, ip, [Again(ip, p + 1), Allocated(ip, p + 2)], p + 3))
  {
    hide TcpUrl, Takes, One;
    PortsDiffer(ip, p, p + 1);
    PortsDiffer(ip, p + 1, p + 2);
    var descs, descs' := [Allocated(ip, p)], [Again(ip, p + 1)];
    assert IndexOfUrl(descs, TcpUrl(ip, p)) == Some(0);
    FailureStep(svc, ip, descs, 0, p, p + 1);
    assert descs[0 := Again(ip, p + 1)] == descs';
    assert |StripBrackets(ip)| == |ip| - 2;
    OnlineAgain(svc, ip, descs', p + 2);
    assert descs' + [Allocated(ip, p + 2)] == [Again(ip, p + 1), Allocated(ip, p + 2)];
  }

  lemma FoundSecond(d: Desc, d': Desc, url: string)
    requires d.addr.url != url && d'.addr.url == url
    ensures IndexOfUrl([d, d'], url) == Some(1)
  {
    var descs := [d, d'];
    assert descs[1..] == [d'] && IndexOfUrl([d'], url) == Some(0);
  }

  /** The second address fails too: it is reissued without brackets beside the first. */
  lemma SecondFailure(svc: string, ip: string, p: nat)
    requires GetSvcType(svc) == UserSvc && Bracketed(ip) && MIN_PORT <= p < MAX_PORT - 2
    ensures Takes(One(svc, ip, [Again(ip, p), Allocated(ip, p + 1)], p + 2), Failed(svc, ip, p + 1), One(svc, ip, [Again(ip, p), Again(ip, p + 2)], p + 3))
  {
    hide TcpUrl, Takes, One, IndexOfUrl;
    PortsDiffer(ip, p, p + 1);
    PortsDiffer(ip, p, p + 2);
    PortsDiffer(ip, p + 1, p + 2);
    var descs := [Again(ip, p), Allocated(ip, p + 1)];
    FoundSecond(descs[0], descs[1], TcpUrl(ip, p + 1));
    FailureStep(svc, ip, descs, 1, p + 1, p + 2);
    assert descs[1 := Again(ip, p + 2)] == [Again(ip, p), Again(ip, p + 2)];
  }

  lemma TwoOnOneHost(svc: string, ip: string, p: nat, q: nat)
    ensures !OneTcpPerInterface(One(svc, ip, [Again(ip, p), Again(ip, q)], q + 1).registry)
  {
    var reg := One(svc, ip, [Again(ip, p), Again(ip, q)], q + 1).registry;
    assert IsAt(reg, svc, 0) && IsAt(reg, svc, 1);
    assert TcpOn(DescAt(reg, svc, 0), StripBrackets(ip)) && TcpOn(DescAt(reg, svc, 1), StripBrackets(ip));
  }

  /** A run goes on with any step the name server takes. */
  lemma RunGoesOn(states: seq<Ns>, ops: seq<Op>, op: Op, ns: Ns)
    requires |states| == |ops| + 1 && IsUrlRun(states, ops) && Takes(states[|ops|], op, ns)
    ensures IsUrlRun(states + [ns], ops + [op])
  {
    hide Fits, UrlsExpected, Apply, UrlsOk, ServesKey;
    var states', ops' := states + [ns], ops + [op];
    forall k | 0 <= k < |ops'| && NsOk(states'[k])
      ensures AllTcp(states'[k].tcp) && Fits(states'[k], ops'[k]) && UrlsExpected(states'[k], ops'[k])
      ensures states'[k + 1] == Apply(states'[k], ops'[k])
    {
      if k < |ops| {
        UrlRunStep(states, ops, k);
      }
    }
  }

  /**
   For every interface in brackets: host online, one allocation, a failure, host online
   again, another failure, and one service has two TCP addresses on one host. Each step is
   one the name server takes, with no address reported that it did not ask for.
   */
  lemma BracketsDouble(svc: string, ip: string) returns (states: seq<Ns>, ops: seq<Op>)
    requires GetSvcType(svc) == UserSvc && Bracketed(ip)
    ensures ops == [Online(ip, []), AllocService(svc, 1, false, true, [], [ip]), Failed(svc, ip, MIN_PORT),
                    Online(ip, [svc]), Failed(svc, ip, MIN_PORT + 2)]
    ensures IsUrlRun(states, ops) && !OneTcpPerInterface(states[5].registry)
  {
    hide Takes, One, Allocated, Again, TcpUrl, OneTcpPerInterface, Online, Failed, Fits, Apply, UrlsExpected, NsOk;
    var p := MIN_PORT;
    var ns1, ns2 := Ns(map[], map[ip := TcpAllocator(ip, p)], IpcAllocator(0)), One(svc, ip, [Allocated(ip, p)], p + 1);
    var ns3, ns4 := One(svc, ip, [Again(ip, p + 1)], p + 2), One(svc, ip, [Again(ip, p + 1), Allocated(ip, p + 2)], p + 3);
    var ns5 := One(svc, ip, [Again(ip, p + 1), Again(ip, p + 3)], p + 4);
    FirstOnline(ip);
    FirstAddress(svc, ip);
    FirstFailure(svc, ip, p);
    SecondFailure(svc, ip, p + 1);
    states, ops := [START], [];
    assert IsUrlRun(states, ops);
    hide IsUrlRun;
    RunGoesOn(states, ops, Online(ip, []), ns1);
    states, ops := states + [ns1], ops + [Online(ip, [])];
    RunGoesOn(states, ops, AllocService(svc, 1, false, true, [], [ip]), ns2);
    states, ops := states + [ns2], ops + [AllocService(svc, 1, false, true, [], [ip])];
    RunGoesOn(states, ops, Failed(svc, ip, p), ns3);
    states, ops := states + [ns3], ops + [Failed(svc, ip, p)];
    RunGoesOn(states, ops, Online(ip, [svc]), ns4);
    states, ops := states + [ns4], ops + [Online(ip, [svc])];
    RunGoesOn(states, ops, Failed(svc, ip, p + 2), ns5);
    states, ops := states + [ns5], ops + [Failed(svc, ip, p + 2)];
    TwoOnOneHost(svc, ip, p + 1, p + 3);
  }
}
