/**
 URL uniqueness in the registry of CNameServer on its own, for interfaces however they
 are written: what each operation needs and keeps.
 */
module UrlTable {
  import opened Common
  import opened Addresses
  import opened Registry
  import opened NameServer

  /** The kind of an address can be read off its URL. */
  predicate KindMatches(a: Address) {
    |a.url| >= 3 && a.url[..3] == (match a.kind case Tcp => "tcp" case Ipc => "ipc" case Svc => "svc")
  }

  ghost predicate KindsMatch(reg: Table) {
    forall s, i :: IsAt(reg, s, i) ==> KindMatches(DescAt(reg, s, i).addr)
  }

  ghost predicate UrlsOk(reg: Table) {
    KindsMatch(reg) && UrlsUnique(reg)
  }

  ghost predicate NsOk(ns: Ns) {
    UrlsOk(ns.registry) && ns.ipc.IpcAllocator? && forall ip :: ip in ns.tcp ==> ns.tcp[ip].TcpAllocator? && ServesKey(ns.tcp[ip], ip)
  }

  lemma WellFormedMatches(a: Address)
    requires WellFormed(a)
    ensures KindMatches(a)
  {
    if a.kind == Tcp {
      TcpUrlParts(a.host, a.port);
    }
  }

  lemma ParsedMatches(url: string)
    ensures ParseUrl(url).Some? ==> KindMatches(ParseUrl(url).value) && ParseUrl(url).value.url == url
  {
    var sep := FindFrom(url, "://", 0);
    if sep.Some? {
      assert |url[..sep.value]| == sep.value;
    }
  }

  /** Not registered means not used, whatever addresses services have brought in. */
  lemma UnregisteredFree(reg: Table, a: Address)
    requires KindsMatch(reg) && KindMatches(a) && !Registered(reg, a.kind, a.url)
    ensures Unused(reg, a.url)
  {
    forall s, i | IsAt(reg, s, i) ensures UrlAt(reg, s, i) != a.url {
      assert DescAt(reg, s, i).addr.url == a.url ==> DescAt(reg, s, i).addr.kind == a.kind;
    }
  }

  // -------------------------------------------------------------- edits of the table

  lemma ExtendOk(reg: Table, svc: string, more: seq<Desc>)
    requires UrlsOk(reg) && svc in reg && UrlsFree(reg, more) && forall k :: 0 <= k < |more| ==> KindMatches(more[k].addr)
    ensures UrlsOk(Extend(reg, svc, more))
  {
    ExtendUniqueIff(reg, svc, more);
    forall s, j | IsAt(Extend(reg, svc, more), s, j) ensures KindMatches(DescAt(Extend(reg, svc, more), s, j).addr) {
      ExtendAt(reg, svc, more, s, j);
    }
  }

  lemma ReplaceOk(reg: Table, svc: string, i: nat, d: Desc)
    requires UrlsOk(reg) && IsAt(reg, svc, i) && KindMatches(d.addr)
    requires d.addr.url == UrlAt(reg, svc, i) || Unused(reg, d.addr.url)
    ensures UrlsOk(Replace(reg, svc, i, d))
  {
    var reg' := Replace(reg, svc, i, d);
    forall s, j | IsAt(reg', s, j)
      ensures IsAt(reg, s, j) && DescAt(reg', s, j) == if s == svc && j == i then d else DescAt(reg, s, j)
    {
      ReplaceAt(reg, svc, i, d, s, j);
    }
  }

  lemma EraseOk(reg: Table, svc: string, i: nat)
    requires UrlsOk(reg) && IsAt(reg, svc, i)
    ensures UrlsOk(Erase(reg, svc, i))
  {
    var reg' := Erase(reg, svc, i);
    EraseUnique(reg, svc, i);
    hide KindMatches, UrlsUnique;
    forall s, j | IsAt(reg', s, j) ensures KindMatches(DescAt(reg', s, j).addr) {
      EraseAt(reg, svc, i, s, j);
    }
  }

  lemma EraseUnique(reg: Table, svc: string, i: nat)
    requires UrlsUnique(reg) && IsAt(reg, svc, i)
    ensures UrlsUnique(Erase(reg, svc, i))
  {
    var reg' := Erase(reg, svc, i);
    forall s, j, s', k | IsAt(reg', s, j) && IsAt(reg', s', k) && UrlAt(reg', s, j) == UrlAt(reg', s', k)
      ensures s == s' && j == k
    {
      EraseAt(reg, svc, i, s, j);
      EraseAt(reg, svc, i, s', k);
      hide Erase;
    }
  }

  /** Every descriptor of `reg'` has the address it had in `reg`. */
  lemma SameAddressesOk(reg: Table, reg': Table)
    requires UrlsOk(reg)
    requires forall s, i :: IsAt(reg', s, i) ==> IsAt(reg, s, i) && DescAt(reg', s, i).addr == DescAt(reg, s, i).addr
    ensures UrlsOk(reg')
  {
    forall s, j, s', k | IsAt(reg', s, j) && IsAt(reg', s', k) && UrlAt(reg', s, j) == UrlAt(reg', s', k)
      ensures s == s' && j == k
    {
      assert UrlAt(reg, s, j) == UrlAt(reg, s', k);
    }
  }

  // --------------------------------------------------------------------- allocation

  lemma AttemptOk(reg: Table, a: Allocator, t: SvcType)
    requires KindsMatch(reg) && (a.TcpAllocator? ==> MIN_PORT <= a.port <= MAX_PORT)
    ensures var (ok, addr, a') := Attempts(reg, a, t, Budget(reg));
            && WellFormed(addr) && KindMatches(addr) && (ok ==> Unused(reg, addr.url))
            && (a.TcpAllocator? ==> addr.kind == Tcp && addr.host == a.ip && a'.TcpAllocator? && ServesKey(a', a.ip))
            && (a.IpcAllocator? ==> a'.IpcAllocator?)
  {
    AttemptsSound(reg, a, t, Budget(reg));
    var (ok, addr, a') := Attempts(reg, a, t, Budget(reg));
    WellFormedMatches(addr);
    if ok {
      UnregisteredFree(reg, addr);
    }
  }

  lemma {:induction false} AllocateAllOk(reg: Table, tcp: Allocators, t: SvcType, ips: seq<string>)
    requires KindsMatch(reg) && Distinct(ips) && (forall ip :: ip in ips ==> ip in tcp)
    requires forall ip :: ip in tcp ==> tcp[ip].TcpAllocator? && ServesKey(tcp[ip], ip)
    ensures var (addrs, tcp') := AllocateAll(reg, tcp, t, ips);
            && Fresh(reg, addrs) && (forall k :: 0 <= k < |addrs| ==> addrs[k].kind == Tcp && addrs[k].host in ips)
            && tcp'.Keys == tcp.Keys && forall ip :: ip in tcp' ==> tcp'[ip].TcpAllocator? && ServesKey(tcp'[ip], ip)
  {
    if ips != [] {
      var (ok, addr, a') := Attempts(reg, tcp[ips[0]], t, Budget(reg));
      AttemptOk(reg, tcp[ips[0]], t);
      var tcp1 := tcp[ips[0] := a'];
      AllocateAllOk(reg, tcp1, t, ips[1..]);
      var (rest, tcp') := AllocateAll(reg, tcp1, t, ips[1..]);
      hide Attempts, WellFormed, KindsMatch, Unused;
      if ok {
        assert ips[0] !in ips[1..];
        FreshCons(reg, addr, rest);
      }
    }
  }

  lemma {:induction false} AppendAllOk(reg: Table, svc: string, addrs: seq<Address>)
    requires UrlsOk(reg) && svc in reg && Fresh(reg, addrs)
    ensures UrlsOk(AppendAll(reg, svc, addrs))
    decreases addrs
  {
    if addrs != [] {
      var a := addrs[0];
      if InterfaceUsed(reg[svc].addrs, a) {
        AppendAllOk(reg, svc, addrs[1..]);
      } else {
        var more := [Desc(Pending, a, 0)];
        WellFormedMatches(a);
        assert UrlsFree(reg, more);
        ExtendOk(reg, svc, more);
        assert Add(reg, svc, more[0]) == Extend(reg, svc, more);
        StillFresh(reg, svc, addrs);
        AppendAllOk(Extend(reg, svc, more), svc, addrs[1..]);
      }
    }
  }

  lemma StillFresh(reg: Table, svc: string, addrs: seq<Address>)
    requires svc in reg && Fresh(reg, addrs) && addrs != []
    ensures Fresh(Extend(reg, svc, [Desc(Pending, addrs[0], 0)]), addrs[1..])
  {
    var more := [Desc(Pending, addrs[0], 0)];
    var reg1, rest := Extend(reg, svc, more), addrs[1..];
    forall k | 0 <= k < |rest| ensures Unused(reg1, rest[k].url) {
      assert rest[k] == addrs[k + 1] && Unused(reg, addrs[k + 1].url);
      forall s, i | IsAt(reg1, s, i) ensures UrlAt(reg1, s, i) != rest[k].url {
        ExtendAt(reg, svc, more, s, i);
      }
    }
    hide WellFormed, Unused;
  }

  // ------------------------------------------------------------------------ reports

  lemma ReissueOk(ns: Ns, svc: string, d: Desc)
    requires NsOk(ns)
    ensures var (r, ns') := Reissue(ns, svc, d);
            && ns'.registry == ns.registry && NsOk(ns')
            && (r.Some? ==> KindMatches(r.value.addr) && Unused(ns.registry, r.value.addr.url))
  {
    if d.reconnects < BIND_RETRIES {
      if d.addr.kind == Ipc {
        AttemptOk(ns.registry, ns.ipc, GetSvcType(svc));
        ParsedMatches(Attempts(ns.registry, ns.ipc, GetSvcType(svc), Budget(ns.registry)).1.url);
      } else if d.addr.host in ns.tcp {
        AttemptOk(ns.registry, ns.tcp[d.addr.host], GetSvcType(svc));
        ParsedMatches(Attempts(ns.registry, ns.tcp[d.addr.host], GetSvcType(svc), Budget(ns.registry)).1.url);
      }
    }
    hide Attempts, ParseUrl, UrlsOk;
  }

  /** An address that was bound elsewhere is on an unused URL. */
  ghost predicate MoveFree(p: Progress, svc: string, r: BindResult)
    requires svc in p.ns.registry
  {
    var addrs := p.ns.registry[svc].addrs;
    var at := IndexOfUrl(addrs, r.request);
    at.Some? && MovedTo(addrs[at.value], r).Some? ==> Unused(p.ns.registry, r.bind)
  }

  ghost predicate MovesFree(p: Progress, svc: string, results: seq<BindResult>, tcpSession: bool)
    requires svc in p.ns.registry
    decreases |results|
  {
    results == [] || (MoveFree(p, svc, results[0]) && MovesFree(ReportItem(p, svc, results[0], tcpSession), svc, results[1..], tcpSession))
  }

  ghost predicate StrangersMatch(p: Progress) {
    forall k :: 0 <= k < |p.strangers| ==> KindMatches(p.strangers[k].addr)
  }

  lemma ItemOk(p: Progress, svc: string, r: BindResult, tcpSession: bool)
    requires NsOk(p.ns) && StrangersMatch(p) && svc in p.ns.registry && MoveFree(p, svc, r)
    ensures NsOk(ReportItem(p, svc, r, tcpSession).ns) && StrangersMatch(ReportItem(p, svc, r, tcpSession))
  {
    var reg := p.ns.registry;
    var addrs := reg[svc].addrs;
    var at := IndexOfUrl(addrs, r.request);
    ParsedMatches(r.bind);
    hide ParseUrl, Attempts, KindMatches;
    if at.Some? {
      var i, d := at.value, addrs[at.value];
      assert IsAt(reg, svc, i) && KindMatches(DescAt(reg, svc, i).addr);
      if r.bind != "" {
        ReplaceOk(reg, svc, i, d.(status := Bound, addr := MovedTo(d, r).GetOr(d.addr)));
      } else if d.status != Bound {
        ReissueOk(p.ns, svc, d);
        var d' := Reissue(p.ns, svc, d).0;
        if d'.Some? {
          ReplaceOk(reg, svc, i, d'.value);
        } else {
          EraseOk(reg, svc, i);
        }
      }
    }
    hide Reissue, UrlsOk;
  }

  lemma {:induction false} ItemsOk(p: Progress, svc: string, results: seq<BindResult>, tcpSession: bool)
    requires NsOk(p.ns) && StrangersMatch(p) && svc in p.ns.registry && MovesFree(p, svc, results, tcpSession)
    ensures NsOk(ReportAll(p, svc, results, tcpSession).ns) && StrangersMatch(ReportAll(p, svc, results, tcpSession))
    decreases |results|
  {
    if results != [] {
      hide NsOk, StrangersMatch, MoveFree, ReportItem;
      ItemOk(p, svc, results[0], tcpSession);
      ItemsOk(ReportItem(p, svc, results[0], tcpSession), svc, results[1..], tcpSession);
    }
  }

  /** Addresses bound elsewhere are on unused URLs at their turn, and so is all that arrives at the end. */
  ghost predicate ReportFree(ns: Ns, svc: string, sid: int, results: seq<BindResult>, tcpSession: bool) {
    svc in ns.registry ==>
      var p := StartReport(ns, svc, sid);
      var p' := ReportAll(p, svc, results, tcpSession);
      MovesFree(p, svc, results, tcpSession) && UrlsFree(p'.ns.registry, Arrivals(p', svc))
  }

  /** A report that finds its moves free keeps URLs unique exactly if the URLs that arrive are unused and different. */
  lemma ReportUniqueIff(ns: Ns, svc: string, sid: int, results: seq<BindResult>, tcpSession: bool)
    requires NsOk(ns) && (svc in ns.registry ==> MovesFree(StartReport(ns, svc, sid), svc, results, tcpSession))
    ensures var ns' := Report(ns, svc, sid, results, tcpSession);
            && (UrlsUnique(ns'.registry) <==> ReportFree(ns, svc, sid, results, tcpSession))
            && (ReportFree(ns, svc, sid, results, tcpSession) ==> NsOk(ns'))
  {
    if svc in ns.registry {
      var p := StartReport(ns, svc, sid);
      SameAddressesOk(ns.registry, p.ns.registry);
      ItemsOk(p, svc, results, tcpSession);
      var p' := ReportAll(p, svc, results, tcpSession);
      FinishUnique(p', svc);
      hide ReportAll, MovesFree, FinishReport;
    }
  }

  lemma FinishUnique(p: Progress, svc: string)
    requires NsOk(p.ns) && StrangersMatch(p) && svc in p.ns.registry
    ensures var ns' := FinishReport(p, svc);
            && (UrlsUnique(ns'.registry) <==> UrlsFree(p.ns.registry, Arrivals(p, svc)))
            && (UrlsUnique(ns'.registry) ==> NsOk(ns'))
  {
    var reg, more := p.ns.registry, Arrivals(p, svc);
    FinishExtends(p, svc);
    assert WellFormed(HOST_SERVER_IPC);
    WellFormedMatches(HOST_SERVER_IPC);
    hide FinishReport, KindMatches;
    if reg[svc].addrs + more == [] {
      SameAddressesOk(reg, reg - {svc});
    } else {
      ExtendUniqueIff(reg, svc, more);
      if UrlsFree(reg, more) {
        ExtendOk(reg, svc, more);
      }
    }
  }
}
