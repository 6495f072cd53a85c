/**
 One TCP address per service and interface in CNameServer, for interfaces however they are
 written: which steps keep it, and exactly when a report does.
 */
module Interfaces {
  import opened Common
  import opened Addresses
  import opened Registry
  import opened NameServer

  // -------------------------------------------------------------- edits of the table

  lemma ReplaceOneTcpIff(reg: Table, svc: string, i: nat, d: Desc)
    requires OneTcpPerInterface(reg) && IsAt(reg, svc, i)
    ensures OneTcpPerInterface(Replace(reg, svc, i, d)) <==> InterfaceFree(reg, svc, i, d.addr)
  {
    var reg' := Replace(reg, svc, i, d);
    if InterfaceFree(reg, svc, i, d.addr) {
      forall s, j, k, host | IsAt(reg', s, j) && IsAt(reg', s, k) && TcpOn(DescAt(reg', s, j), host) && TcpOn(DescAt(reg', s, k), host)
        ensures j == k
      {
        ReplaceAt(reg, svc, i, d, s, j);
        ReplaceAt(reg, svc, i, d, s, k);
      }
    }
    if OneTcpPerInterface(reg') && d.addr.kind == Tcp {
      ReplaceAt(reg, svc, i, d, svc, i);
      forall j | IsAt(reg, svc, j) && j != i ensures !TcpOn(DescAt(reg, svc, j), d.addr.host) {
        ReplaceAt(reg, svc, i, d, svc, j);
        assert TcpOn(DescAt(reg', svc, i), d.addr.host);
      }
    }
  }

  lemma EraseOneTcp(reg: Table, svc: string, i: nat)
    requires OneTcpPerInterface(reg) && IsAt(reg, svc, i)
    ensures OneTcpPerInterface(Erase(reg, svc, i))
  {
    var reg' := Erase(reg, svc, i);
    forall s, j, k, host | IsAt(reg', s, j) && IsAt(reg', s, k) && TcpOn(DescAt(reg', s, j), host) && TcpOn(DescAt(reg', s, k), host)
      ensures j == k
    {
      EraseAt(reg, svc, i, s, j);
      EraseAt(reg, svc, i, s, k);
      hide Erase;
    }
  }

  /** These descriptors are on interfaces the service does not use, and each on its own. */
  ghost predicate InterfacesFree(reg: Table, svc: string, more: seq<Desc>) {
    && (forall k :: 0 <= k < |more| ==> InterfaceFree(reg, svc, -1, more[k].addr))
    && (forall k, l :: 0 <= k < l < |more| ==> !(more[k].addr.kind == Tcp && TcpOn(more[l], more[k].addr.host)))
  }

  lemma ExtendOneTcpIff(reg: Table, svc: string, more: seq<Desc>)
    requires OneTcpPerInterface(reg) && svc in reg
    ensures OneTcpPerInterface(Extend(reg, svc, more)) <==> InterfacesFree(reg, svc, more)
  {
    var reg' := Extend(reg, svc, more);
    var n := |reg[svc].addrs|;
    if InterfacesFree(reg, svc, more) {
      forall s, j, k, host | IsAt(reg', s, j) && IsAt(reg', s, k) && TcpOn(DescAt(reg', s, j), host) && TcpOn(DescAt(reg', s, k), host)
        ensures j == k
      {
        ExtendAt(reg, svc, more, s, j);
        ExtendAt(reg, svc, more, s, k);
        hide Extend;
      }
    }
    if OneTcpPerInterface(reg') {
      forall k, j | 0 <= k < |more| && more[k].addr.kind == Tcp && IsAt(reg, svc, j) ensures !TcpOn(DescAt(reg, svc, j), more[k].addr.host) {
        ExtendAt(reg, svc, more, svc, n + k);
        ExtendAt(reg, svc, more, svc, j);
        assert TcpOn(DescAt(reg', svc, n + k), more[k].addr.host);
      }
      forall k, l | 0 <= k < l < |more| && more[k].addr.kind == Tcp ensures !TcpOn(more[l], more[k].addr.host) {
        ExtendAt(reg, svc, more, svc, n + k);
        ExtendAt(reg, svc, more, svc, n + l);
        assert TcpOn(DescAt(reg', svc, n + k), more[k].addr.host);
      }
    }
  }

  /** Every descriptor of `reg'` has the address it had in `reg`. */
  lemma SameAddressesOneTcp(reg: Table, reg': Table)
    requires OneTcpPerInterface(reg)
    requires forall s, i :: IsAt(reg', s, i) ==> IsAt(reg, s, i) && DescAt(reg', s, i).addr == DescAt(reg, s, i).addr
    ensures OneTcpPerInterface(reg')
  {
    forall s, j, k, host | IsAt(reg', s, j) && IsAt(reg', s, k) && TcpOn(DescAt(reg', s, j), host) && TcpOn(DescAt(reg', s, k), host)
      ensures j == k
    {
      assert TcpOn(DescAt(reg, s, j), host) && TcpOn(DescAt(reg, s, k), host);
    }
  }

  /** addOneServiceAddress always keeps it: an interface that is used is passed over. */
  lemma {:induction false} AppendAllOneTcp(reg: Table, svc: string, addrs: seq<Address>)
    requires OneTcpPerInterface(reg) && svc in reg
    ensures OneTcpPerInterface(AppendAll(reg, svc, addrs))
    decreases addrs
  {
    if addrs != [] {
      var more := [Desc(Pending, addrs[0], 0)];
      if !InterfaceUsed(reg[svc].addrs, addrs[0]) {
        forall i | IsAt(reg, svc, i) && addrs[0].kind == Tcp ensures !TcpOn(DescAt(reg, svc, i), addrs[0].host) {
          assert reg[svc].addrs[i] == DescAt(reg, svc, i);
        }
        ExtendOneTcpIff(reg, svc, more);
        assert Add(reg, svc, more[0]) == Extend(reg, svc, more);
        AppendAllOneTcp(Extend(reg, svc, more), svc, addrs[1..]);
      } else {
        AppendAllOneTcp(reg, svc, addrs[1..]);
      }
    }
  }

  // ------------------------------------------------------------------------ reports

  /** The descriptor that an item puts in the place of the one it is about, if any. */
  function Landed(p: Progress, svc: string, r: BindResult): Option<Desc>
    requires svc in p.ns.registry
  {
    var addrs := p.ns.registry[svc].addrs;
    var at := IndexOfUrl(addrs, r.request);
    if at == None then None
    else if r.bind != "" then Some(addrs[at.value].(status := Bound, addr := MovedTo(addrs[at.value], r).GetOr(addrs[at.value].addr)))
    else if addrs[at.value].status == Bound then None
    else Reissue(p.ns, svc, addrs[at.value]).0
  }

  /** It is on an interface that no other address of the service is on. */
  ghost predicate LandsFree(p: Progress, svc: string, r: BindResult)
    requires svc in p.ns.registry
  {
    var at := IndexOfUrl(p.ns.registry[svc].addrs, r.request);
    at.Some? && Landed(p, svc, r).Some? ==> InterfaceFree(p.ns.registry, svc, at.value, Landed(p, svc, r).value.addr)
  }

  /** An item keeps one TCP address per interface exactly if it lands free. */
  lemma ItemOneTcpIff(p: Progress, svc: string, r: BindResult, tcpSession: bool)
    requires OneTcpPerInterface(p.ns.registry) && svc in p.ns.registry
    ensures OneTcpPerInterface(ReportItem(p, svc, r, tcpSession).ns.registry) <==> LandsFree(p, svc, r)
  {
    var reg := p.ns.registry;
    var at := IndexOfUrl(reg[svc].addrs, r.request);
    ReissueLeavesRegistry(p.ns, svc);
    hide Reissue, ParseUrl, OneTcpPerInterface;
    if at.Some? {
      assert IsAt(reg, svc, at.value);
      if Landed(p, svc, r).Some? {
        ReplaceOneTcpIff(reg, svc, at.value, Landed(p, svc, r).value);
      } else {
        EraseOneTcp(reg, svc, at.value);
      }
    }
  }

  ghost predicate AllLandFree(p: Progress, svc: string, results: seq<BindResult>, tcpSession: bool)
    requires svc in p.ns.registry
    decreases |results|
  {
    results == [] || (LandsFree(p, svc, results[0]) && AllLandFree(ReportItem(p, svc, results[0], tcpSession), svc, results[1..], tcpSession))
  }

  lemma {:induction false} ItemsOneTcp(p: Progress, svc: string, results: seq<BindResult>, tcpSession: bool)
    requires OneTcpPerInterface(p.ns.registry) && svc in p.ns.registry && AllLandFree(p, svc, results, tcpSession)
    ensures OneTcpPerInterface(ReportAll(p, svc, results, tcpSession).ns.registry)
    decreases |results|
  {
    if results != [] {
      hide OneTcpPerInterface, LandsFree, ReportItem;
      ItemOneTcpIff(p, svc, results[0], tcpSession);
      ItemsOneTcp(ReportItem(p, svc, results[0], tcpSession), svc, results[1..], tcpSession);
    }
  }

  /** Every item lands on a free interface, and so does what arrives at the end. */
  ghost predicate ReportLandsFree(ns: Ns, svc: string, sid: int, results: seq<BindResult>, tcpSession: bool) {
    svc in ns.registry ==>
      var p := StartReport(ns, svc, sid);
      var p' := ReportAll(p, svc, results, tcpSession);
      AllLandFree(p, svc, results, tcpSession) && InterfacesFree(p'.ns.registry, svc, Arrivals(p', svc))
  }

  /** A report whose items land free keeps one TCP address per interface exactly if what arrives does, too. */
  lemma ReportOneTcpIff(ns: Ns, svc: string, sid: int, results: seq<BindResult>, tcpSession: bool)
    requires OneTcpPerInterface(ns.registry)
    requires svc in ns.registry ==> AllLandFree(StartReport(ns, svc, sid), svc, results, tcpSession)
    ensures OneTcpPerInterface(Report(ns, svc, sid, results, tcpSession).registry) <==> ReportLandsFree(ns, svc, sid, results, tcpSession)
  {
    if svc in ns.registry {
      var p := StartReport(ns, svc, sid);
      SameAddressesOneTcp(ns.registry, p.ns.registry);
      ItemsOneTcp(p, svc, results, tcpSession);
      var p' := ReportAll(p, svc, results, tcpSession);
      var reg, more := p'.ns.registry, Arrivals(p', svc);
      FinishExtends(p', svc);
      if reg[svc].addrs + more == [] {
        SameAddressesOneTcp(reg, reg - {svc});
      } else {
        ExtendOneTcpIff(reg, svc, more);
      }
      hide OneTcpPerInterface, ReportAll, AllLandFree, FinishReport;
    }
  }

  // ------------------------------------------------------------------------ failures

  /** A reissue goes to the host without its brackets. */
  lemma ReissueStrips(ns: Ns, svc: string, d: Desc)
    requires d.addr.kind == Tcp && d.addr.host in ns.tcp && ServesKey(ns.tcp[d.addr.host], d.addr.host) && Reissue(ns, svc, d).0.Some?
    ensures TcpOn(Reissue(ns, svc, d).0.value, StripBrackets(d.addr.host))
  {
    var a := ns.tcp[d.addr.host];
    AttemptsSound(ns.registry, a, GetSvcType(svc), Budget(ns.registry));
    var addr := Attempts(ns.registry, a, GetSvcType(svc), Budget(ns.registry)).1;
    TcpParseBuild(addr.host, addr.port);
    hide Attempts, ParseUrl, TcpAddress;
  }

  /**
   A failed TCP address that is reissued keeps one TCP address per interface exactly if no
   other address of the service is on its host without brackets.
   */
  lemma FailureOneTcpIff(ns: Ns, svc: string, j: nat, tcpSession: bool)
    requires OneTcpPerInterface(ns.registry) && UrlsUnique(ns.registry) && IsAt(ns.registry, svc, j)
    requires var d := DescAt(ns.registry, svc, j);
             && d.addr.kind == Tcp && d.status != Bound && d.addr.host in ns.tcp && ServesKey(ns.tcp[d.addr.host], d.addr.host)
             && Reissue(ns, svc, d).0.Some?
    ensures var d := DescAt(ns.registry, svc, j);
            var after := ReportItem(Progress(ns, [], false), svc, BindResult(d.addr.url, ""), tcpSession).ns.registry;
            OneTcpPerInterface(after) <==>
            forall i :: IsAt(ns.registry, svc, i) && i != j ==> !TcpOn(DescAt(ns.registry, svc, i), StripBrackets(d.addr.host))
  {
    var reg := ns.registry;
    var d := DescAt(reg, svc, j);
    var p, r := Progress(ns, [], false), BindResult(d.addr.url, "");
    var at := IndexOfUrl(reg[svc].addrs, d.addr.url).value;
    assert reg[svc].addrs[j].addr.url == d.addr.url;
    assert IsAt(reg, svc, at) && UrlAt(reg, svc, at) == UrlAt(reg, svc, j);
    assert at == j;
    ItemOneTcpIff(p, svc, r, tcpSession);
    ReissueStrips(ns, svc, d);
    hide Reissue, ReportItem, OneTcpPerInterface, UrlsUnique;
  }

  /** Without brackets it always does. */
  lemma UnbracketedLandsFree(ns: Ns, svc: string, j: nat, tcpSession: bool)
    requires OneTcpPerInterface(ns.registry) && UrlsUnique(ns.registry) && IsAt(ns.registry, svc, j)
    requires var d := DescAt(ns.registry, svc, j);
             && d.addr.kind == Tcp && d.status != Bound && d.addr.host in ns.tcp && ServesKey(ns.tcp[d.addr.host], d.addr.host)
             && Reissue(ns, svc, d).0.Some? && !Bracketed(d.addr.host)
    ensures var d := DescAt(ns.registry, svc, j);
            OneTcpPerInterface(ReportItem(Progress(ns, [], false), svc, BindResult(d.addr.url, ""), tcpSession).ns.registry)
  {
    FailureOneTcpIff(ns, svc, j, tcpSession);
    var host := DescAt(ns.registry, svc, j).addr.host;
    assert TcpOn(DescAt(ns.registry, svc, j), host);
  }
}
