/**
 Rebinding in CNameServer ends: the retries left are a termination measure for runs of
 failed bind reports, both over the pending addresses and over all that are not bound.
 */
module Rebinding {
  import opened Common
  import opened Addresses
  import opened Registry
  import opened NameServer

  /** The addresses that are counted: the pending ones, or all that a failure report reissues. */
  datatype Scope = OfPending | OfUnbound

  predicate Counts(c: Scope, status: Status) {
    status == Pending || (c == OfUnbound && status != Bound)
  }

  /** Failed reports a descriptor can still absorb. */
  function RetriesLeft(c: Scope, d: Desc): nat {
    if !Counts(c, d.status) then 0
    else if d.reconnects >= BIND_RETRIES then 1
    else BIND_RETRIES + 1 - d.reconnects
  }

  function Retries(c: Scope, addrs: seq<Desc>): nat {
    if addrs == [] then 0 else RetriesLeft(c, addrs[0]) + Retries(c, addrs[1..])
  }

  ghost function RetriesOver(c: Scope, reg: Table, services: set<string>): nat
    requires services <= reg.Keys
  {
    if services == {} then 0
    else
      var s :| s in services;
      Retries(c, reg[s].addrs) + RetriesOver(c, reg, services - {s})
  }

  /** The measure: retries left in the whole registry. */
  ghost function TotalRetries(c: Scope, reg: Table): nat {
    RetriesOver(c, reg, reg.Keys)
  }

  lemma {:induction false} RetriesConcat(c: Scope, a: seq<Desc>, b: seq<Desc>)
    ensures Retries(c, a + b) == Retries(c, a) + Retries(c, b)
  {
    if a == [] {
      assert a + b == b;
    } else {
      RetriesConcat(c, a[1..], b);
      assert (a + b)[1..] == a[1..] + b;
    }
  }

  lemma RetriesAt(c: Scope, addrs: seq<Desc>, i: nat, d: Desc)
    requires i < |addrs|
    ensures Retries(c, addrs) == Retries(c, addrs[..i] + addrs[i + 1..]) + RetriesLeft(c, addrs[i])
    ensures Retries(c, addrs[i := d]) == Retries(c, addrs[..i] + addrs[i + 1..]) + RetriesLeft(c, d)
  {
    assert addrs == addrs[..i] + ([addrs[i]] + addrs[i + 1..]);
    assert addrs[i := d] == addrs[..i] + ([d] + addrs[i + 1..]);
    RetriesConcat(c, addrs[..i], [addrs[i]] + addrs[i + 1..]);
    RetriesConcat(c, addrs[..i], [d] + addrs[i + 1..]);
    RetriesConcat(c, addrs[..i], addrs[i + 1..]);
  }

  /** The order in which services are summed does not matter. */
  lemma {:induction false} RetriesOverSplit(c: Scope, reg: Table, services: set<string>, s: string)
    requires services <= reg.Keys && s in services
    ensures RetriesOver(c, reg, services) == Retries(c, reg[s].addrs) + RetriesOver(c, reg, services - {s})
    decreases services
  {
    var t :| t in services && RetriesOver(c, reg, services) == Retries(c, reg[t].addrs) + RetriesOver(c, reg, services - {t});
    if t != s {
      RetriesOverSplit(c, reg, services - {t}, s);
      RetriesOverSplit(c, reg, services - {s}, t);
      assert services - {t} - {s} == services - {s} - {t};
    }
  }

  lemma {:induction false} RetriesOverSame(c: Scope, reg: Table, reg': Table, services: set<string>)
    requires services <= reg.Keys && services <= reg'.Keys
    requires forall s :: s in services ==> reg'[s].addrs == reg[s].addrs
    ensures RetriesOver(c, reg, services) == RetriesOver(c, reg', services)
    decreases services
  {
    if services != {} {
      var s := Member(services);
      RetriesOverSplit(c, reg, services, s);
      RetriesOverSplit(c, reg', services, s);
      RetriesOverSame(c, reg, reg', services - {s});
    }
  }

  /** Changing one service changes the total by that service's part. */
  lemma TotalWithout(c: Scope, reg: Table, reg': Table, svc: string)
    requires svc in reg && reg'.Keys - {svc} == reg.Keys - {svc}
    requires forall s :: s in reg && s != svc ==> s in reg' && reg'[s].addrs == reg[s].addrs
    ensures TotalRetries(c, reg') - (if svc in reg' then Retries(c, reg'[svc].addrs) else 0) == TotalRetries(c, reg) - Retries(c, reg[svc].addrs)
  {
    var others := reg.Keys - {svc};
    RetriesOverSplit(c, reg, reg.Keys, svc);
    if svc in reg' {
      RetriesOverSplit(c, reg', reg'.Keys, svc);
    } else {
      assert reg'.Keys == others;
    }
    RetriesOverSame(c, reg, reg', others);
  }

  predicate CountedAt(c: Scope, reg: Table, svc: string, url: string) {
    && svc in reg && IndexOfUrl(reg[svc].addrs, url).Some?
    && Counts(c, reg[svc].addrs[IndexOfUrl(reg[svc].addrs, url).value].status)
  }

  /** The item says that an address which counts at its turn could not be bound. */
  predicate FailsCounted(c: Scope, p: Progress, svc: string, r: BindResult) {
    r.bind == "" && CountedAt(c, p.ns.registry, svc, r.request)
  }

  lemma ReissueCounts(ns: Ns, svc: string, d: Desc)
    ensures var (r, ns') := Reissue(ns, svc, d);
            && ns'.registry == ns.registry
            && (r.Some? ==> d.reconnects < BIND_RETRIES && r.value.status == d.status && r.value.reconnects == d.reconnects + 1)
  {
    hide Attempts, ParseUrl;
  }

  /**
   Whatever else a report says, an item that fails an address which is not bound either
   reissues it, in the same status and with one more retry counted, or erases it; after
   five reissues it is erased. The other descriptors of the service stay as they are.
   */
  lemma FailedItemOutcome(c: Scope, p: Progress, svc: string, r: BindResult, tcpSession: bool)
    requires FailsCounted(c, p, svc, r)
    ensures var addrs, addrs' := p.ns.registry[svc].addrs, ReportItem(p, svc, r, tcpSession).ns.registry[svc].addrs;
            var i := IndexOfUrl(addrs, r.request).value;
            || addrs' == addrs[..i] + addrs[i + 1..]
            || (|addrs'| == |addrs| && addrs' == addrs[i := addrs'[i]] && addrs[i].reconnects < BIND_RETRIES
                && addrs'[i].status == addrs[i].status && addrs'[i].reconnects == addrs[i].reconnects + 1)
  {
    ReissueCounts(p.ns, svc, p.ns.registry[svc].addrs[IndexOfUrl(p.ns.registry[svc].addrs, r.request).value]);
    hide Reissue, ParseUrl;
  }

  /**
   An item that reports an address of the table as bound makes it so: the descriptor at
   that position is bound, with the same count of retries, at the address reported if that
   is another one which parses and the address is not IPC. The others stay as they are, and
   what retries were left to it are gone.
   */
  lemma BoundItemOutcome(c: Scope, p: Progress, svc: string, r: BindResult, tcpSession: bool)
    requires svc in p.ns.registry && IndexOfUrl(p.ns.registry[svc].addrs, r.request).Some? && r.bind != ""
    ensures var addrs, addrs' := p.ns.registry[svc].addrs, ReportItem(p, svc, r, tcpSession).ns.registry[svc].addrs;
            var i := IndexOfUrl(addrs, r.request).value;
            && |addrs'| == |addrs| && (forall j :: 0 <= j < |addrs| && j != i ==> addrs'[j] == addrs[j])
            && addrs'[i].status == Bound && addrs'[i].reconnects == addrs[i].reconnects
            && addrs'[i].addr == (if addrs[i].addr.kind != Ipc && r.bind != addrs[i].addr.url && ParseUrl(r.bind).Some?
                                  then ParseUrl(r.bind).value else addrs[i].addr)
            && Retries(c, addrs') == Retries(c, addrs) - RetriesLeft(c, addrs[i])
  {
    hide ParseUrl, Retries;
    var addrs, addrs' := p.ns.registry[svc].addrs, ReportItem(p, svc, r, tcpSession).ns.registry[svc].addrs;
    var i := IndexOfUrl(addrs, r.request).value;
    RetriesAt(c, addrs, i, addrs'[i]);
    assert addrs' == addrs[i := addrs'[i]];
  }

  lemma StrangerRetries(c: Scope, strangers: seq<Desc>, a: Address)
    ensures Retries(c, strangers + [Desc(Bound, a, 0)]) == Retries(c, strangers)
  {
    RetriesConcat(c, strangers, [Desc(Bound, a, 0)]);
  }

  /** No item adds retries, and one that fails a counted address uses one up. */
  lemma ItemRetries(c: Scope, p: Progress, svc: string, r: BindResult, tcpSession: bool)
    requires svc in p.ns.registry
    ensures var before, after := Retries(c, p.ns.registry[svc].addrs), Retries(c, ReportItem(p, svc, r, tcpSession).ns.registry[svc].addrs);
            after <= before && (FailsCounted(c, p, svc, r) ==> after < before)
    ensures ReportItem(p, svc, r, tcpSession).strangers == p.strangers || Retries(c, ReportItem(p, svc, r, tcpSession).strangers) == Retries(c, p.strangers)
  {
    hide Retries, Reissue, ParseUrl;
    var addrs := p.ns.registry[svc].addrs;
    var at := IndexOfUrl(addrs, r.request);
    if at.Some? {
      var d := addrs[at.value];
      ReissueCounts(p.ns, svc, d);
      var d' := Reissue(p.ns, svc, d).0;
      var a := if d.addr.kind != Ipc && r.bind != d.addr.url then ParseUrl(r.bind).GetOr(d.addr) else d.addr;
      RetriesAt(c, addrs, at.value, d.(status := Bound, addr := a));
      RetriesAt(c, addrs, at.value, d'.GetOr(d));
    } else if ParseUrl(r.bind).Some? {
      StrangerRetries(c, p.strangers, ParseUrl(r.bind).value);
    }
  }

  /** Some item of the report fails an address that counts at its turn. */
  predicate SomeFails(c: Scope, p: Progress, svc: string, results: seq<BindResult>, tcpSession: bool)
    requires svc in p.ns.registry
    decreases |results|
  {
    results != [] &&
    (FailsCounted(c, p, svc, results[0]) || SomeFails(c, ReportItem(p, svc, results[0], tcpSession), svc, results[1..], tcpSession))
  }

  lemma {:induction false} ItemsRetries(c: Scope, p: Progress, svc: string, results: seq<BindResult>, tcpSession: bool)
    requires svc in p.ns.registry
    ensures var p' := ReportAll(p, svc, results, tcpSession);
            var before, after := Retries(c, p.ns.registry[svc].addrs), Retries(c, p'.ns.registry[svc].addrs);
            && after <= before && (SomeFails(c, p, svc, results, tcpSession) ==> after < before)
            && Retries(c, p'.strangers) == Retries(c, p.strangers)
    decreases |results|
  {
    if results != [] {
      hide ReportItem, Retries, FailsCounted;
      ItemRetries(c, p, svc, results[0], tcpSession);
      ItemsRetries(c, ReportItem(p, svc, results[0], tcpSession), svc, results[1..], tcpSession);
    }
  }

  predicate ReportFails(c: Scope, ns: Ns, svc: string, sid: int, results: seq<BindResult>, tcpSession: bool) {
    svc in ns.registry && SomeFails(c, StartReport(ns, svc, sid), svc, results, tcpSession)
  }

  /** After a report the other services are untouched, and its own is gone exactly if no address is left and none arrived. */
  lemma ReportLeaves(ns: Ns, svc: string, sid: int, results: seq<BindResult>, tcpSession: bool)
    requires svc in ns.registry
    ensures var p := ReportAll(StartReport(ns, svc, sid), svc, results, tcpSession);
            var reg, reg' := ns.registry, Report(ns, svc, sid, results, tcpSession).registry;
            && reg'.Keys - {svc} == reg.Keys - {svc}
            && (forall s :: s in reg && s != svc ==> s in reg' && reg'[s] == reg[s])
            && (svc !in reg' <==> p.ns.registry[svc].addrs == [] && p.strangers == [])
            && (svc in reg' ==> reg'[svc].addrs == p.ns.registry[svc].addrs + Arrivals(p, svc))
  {
    var p0 := StartReport(ns, svc, sid);
    ItemsLeaveOthers(p0, svc, results, tcpSession);
    FinishExtends(ReportAll(p0, svc, results, tcpSession), svc);
    hide ReportAll;
  }

  /** What the host server's fallback address, which is neither pending nor bound, brings. */
  function Brought(c: Scope, ns: Ns, svc: string, sid: int, results: seq<BindResult>, tcpSession: bool): nat {
    if c == OfUnbound && FallbackTaken(ns, svc, sid, results, tcpSession) then BIND_RETRIES + 1 else 0
  }

  /**
   No report, whatever it says, adds retries, except those of the fallback address to the
   unbound ones; a report that fails a counted address uses some up.
   */
  lemma ReportRetries(c: Scope, ns: Ns, svc: string, sid: int, results: seq<BindResult>, tcpSession: bool)
    ensures var before, after := TotalRetries(c, ns.registry), TotalRetries(c, Report(ns, svc, sid, results, tcpSession).registry);
            var bound := before + Brought(c, ns, svc, sid, results, tcpSession);
            after <= bound && (ReportFails(c, ns, svc, sid, results, tcpSession) ==> after < bound)
  {
    if svc in ns.registry {
      var p0 := StartReport(ns, svc, sid);
      var p := ReportAll(p0, svc, results, tcpSession);
      var reg' := Report(ns, svc, sid, results, tcpSession).registry;
      ReportLeaves(ns, svc, sid, results, tcpSession);
      ItemsRetries(c, p0, svc, results, tcpSession);
      ArrivalRetries(c, p, svc);
      RetriesConcat(c, p.ns.registry[svc].addrs, Arrivals(p, svc));
      TotalWithout(c, ns.registry, reg', svc);
      hide ReportAll, Retries, Report;
    }
  }

  lemma ArrivalRetries(c: Scope, p: Progress, svc: string)
    requires svc in p.ns.registry
    ensures Retries(c, Arrivals(p, svc)) <= Retries(c, p.strangers) +
            if c == OfUnbound && svc == HOST_SERVER && !p.hsUrl && p.ns.registry[svc].addrs + p.strangers != [] then BIND_RETRIES + 1 else 0
  {
    RetriesConcat(c, p.strangers, [Desc(Free, HOST_SERVER_IPC, 0)]);
    RetriesConcat(c, p.strangers, []);
  }

  datatype BindReport = BindReport(svc: string, sid: int, results: seq<BindResult>, tcpSession: bool)

  function AfterReport(ns: Ns, r: BindReport): Ns {
    Report(ns, r.svc, r.sid, r.results, r.tcpSession)
  }

  function AfterReports(ns: Ns, run: seq<BindReport>): Ns
    decreases |run|
  {
    if run == [] then ns else AfterReports(AfterReport(ns, run[0]), run[1..])
  }

  /** The host server's fallback addresses that arrive in a run. */
  function Fallbacks(ns: Ns, run: seq<BindReport>): nat
    decreases |run|
  {
    if run == [] then 0
    else (if FallbackTaken(ns, run[0].svc, run[0].sid, run[0].results, run[0].tcpSession) then 1 else 0) + Fallbacks(AfterReport(ns, run[0]), run[1..])
  }

  /** How many reports of a run fail a counted address. */
  function Failures(c: Scope, ns: Ns, run: seq<BindReport>): nat
    decreases |run|
  {
    if run == [] then 0
    else (if ReportFails(c, ns, run[0].svc, run[0].sid, run[0].results, run[0].tcpSession) then 1 else 0) + Failures(c, AfterReport(ns, run[0]), run[1..])
  }

  /**
   In any run of reports, those that fail a pending address are at most the retries used up;
   those that fail any address not bound are at most these and six for each fallback address
   that arrived: rebinding ends.
   */
  lemma {:induction false} FailuresBounded(c: Scope, ns: Ns, run: seq<BindReport>)
    ensures Failures(c, ns, run) + TotalRetries(c, AfterReports(ns, run).registry) <=
            TotalRetries(c, ns.registry) + if c == OfPending then 0 else (BIND_RETRIES + 1) * Fallbacks(ns, run)
    decreases |run|
  {
    if run != [] {
      hide TotalRetries, ReportFails, Report, FallbackTaken;
      var r := run[0];
      ReportRetries(c, ns, r.svc, r.sid, r.results, r.tcpSession);
      FailuresBounded(c, AfterReport(ns, r), run[1..]);
    }
  }

  lemma {:induction false} NoRetriesNoneCounted(c: Scope, addrs: seq<Desc>)
    ensures Retries(c, addrs) == 0 <==> forall i :: 0 <= i < |addrs| ==> !Counts(c, addrs[i].status)
  {
    if addrs != [] {
      NoRetriesNoneCounted(c, addrs[1..]);
      assert forall i :: 0 < i < |addrs| ==> addrs[i] == addrs[1..][i - 1];
    }
  }

  lemma {:induction false} NoRetriesOver(c: Scope, reg: Table, services: set<string>)
    requires services <= reg.Keys
    ensures RetriesOver(c, reg, services) == 0 <==> forall s :: s in services ==> Retries(c, reg[s].addrs) == 0
    decreases services
  {
    if services != {} {
      var s := Member(services);
      RetriesOverSplit(c, reg, services, s);
      NoRetriesOver(c, reg, services - {s});
      hide Retries;
      assert forall t :: t in services <==> t == s || t in services - {s};
    }
  }

  /** No retries are left exactly if nothing in the registry counts: every address ends bound or erased. */
  lemma NoRetriesNoneLeft(c: Scope, reg: Table)
    ensures TotalRetries(c, reg) == 0 <==> forall s, i :: IsAt(reg, s, i) ==> !Counts(c, DescAt(reg, s, i).status)
  {
    NoRetriesOver(c, reg, reg.Keys);
    forall s | s in reg ensures Retries(c, reg[s].addrs) == 0 <==> forall i :: IsAt(reg, s, i) ==> !Counts(c, DescAt(reg, s, i).status) {
      NoRetriesNoneCounted(c, reg[s].addrs);
      assert forall i :: IsAt(reg, s, i) ==> DescAt(reg, s, i) == reg[s].addrs[i];
      assert forall i :: 0 <= i < |reg[s].addrs| ==> IsAt(reg, s, i);
    }
    hide Retries, RetriesOver;
    if TotalRetries(c, reg) == 0 {
      forall s, i | IsAt(reg, s, i) ensures !Counts(c, DescAt(reg, s, i).status) {
        assert s in reg.Keys;
      }
    }
  }

  // ------------------------------------------------------------ addresses in use

  /** The item does not say that the address was bound elsewhere. */
  predicate LeavesAt(d: Desc, r: BindResult) {
    r.request == d.addr.url && r.bind != "" ==> d.addr.kind == Ipc || r.bind == d.addr.url || ParseUrl(r.bind) == None
  }

  /** An item that does not move it leaves a bound address in the table, whatever else it says. */
  lemma ItemKeepsBound(p: Progress, svc: string, r: BindResult, tcpSession: bool, d: Desc)
    requires svc in p.ns.registry && d in p.ns.registry[svc].addrs && d.status == Bound && LeavesAt(d, r)
    ensures d in ReportItem(p, svc, r, tcpSession).ns.registry[svc].addrs
  {
    hide ParseUrl;
    var addrs, addrs' := p.ns.registry[svc].addrs, ReportItem(p, svc, r, tcpSession).ns.registry[svc].addrs;
    var k :| 0 <= k < |addrs| && addrs[k] == d;
    var at := IndexOfUrl(addrs, r.request);
    ReissueCounts(p.ns, svc, d);
    if at.Some? && at.value != k {
      ReissueCounts(p.ns, svc, addrs[at.value]);
      hide Reissue;
      if |addrs'| == |addrs| {
        assert addrs'[k] == d;
      } else {
        assert addrs' == addrs[..at.value] + addrs[at.value + 1..];
        assert addrs'[if k < at.value then k else k - 1] == d;
      }
    } else if at.Some? {
      hide Reissue;
      assert addrs'[k] == d;
    }
  }

  lemma {:induction false} ItemsKeepBound(p: Progress, svc: string, results: seq<BindResult>, tcpSession: bool, d: Desc)
    requires svc in p.ns.registry && d in p.ns.registry[svc].addrs && d.status == Bound
    requires forall k :: 0 <= k < |results| ==> LeavesAt(d, results[k])
    ensures d in ReportAll(p, svc, results, tcpSession).ns.registry[svc].addrs
    decreases |results|
  {
    if results != [] {
      hide ReportItem, LeavesAt;
      ItemKeepsBound(p, svc, results[0], tcpSession, d);
      assert forall k :: 0 <= k < |results[1..]| ==> results[1..][k] == results[k + 1];
      ItemsKeepBound(ReportItem(p, svc, results[0], tcpSession), svc, results[1..], tcpSession, d);
    }
  }

  predicate ReportLeavesAt(d: Desc, svc: string, r: BindReport) {
    r.svc == svc ==> forall k :: 0 <= k < |r.results| ==> LeavesAt(d, r.results[k])
  }

  lemma ReportKeepsBound(ns: Ns, svc: string, r: BindReport, d: Desc)
    requires svc in ns.registry && d in ns.registry[svc].addrs && d.status == Bound && ReportLeavesAt(d, svc, r)
    ensures var reg := AfterReport(ns, r).registry; svc in reg && d in reg[svc].addrs
  {
    hide LeavesAt;
    if r.svc in ns.registry {
      ReportLeaves(ns, r.svc, r.sid, r.results, r.tcpSession);
      if r.svc == svc {
        ItemsKeepBound(StartReport(ns, svc, r.sid), svc, r.results, r.tcpSession, d);
      }
      hide ReportAll, Report;
    }
  }

  /** In any run of reports, failures of anything included, a bound address stays until a report moves it. */
  lemma {:induction false} RunKeepsBound(ns: Ns, svc: string, run: seq<BindReport>, d: Desc)
    requires svc in ns.registry && d in ns.registry[svc].addrs && d.status == Bound
    requires forall k :: 0 <= k < |run| ==> ReportLeavesAt(d, svc, run[k])
    ensures var reg := AfterReports(ns, run).registry; svc in reg && d in reg[svc].addrs
    decreases |run|
  {
    if run != [] {
      hide ReportLeavesAt, AfterReport;
      ReportKeepsBound(ns, svc, run[0], d);
      assert forall k :: 0 <= k < |run[1..]| ==> run[1..][k] == run[k + 1];
      RunKeepsBound(AfterReport(ns, run[0]), svc, run[1..], d);
    }
  }

  /**
   A pending address of which a service reports success, as asked, is bound at once and
   stays so, with no retries left to it, through any run of reports that do not move it.
   */
  lemma SuccessLasts(c: Scope, ns: Ns, svc: string, sid: int, tcpSession: bool, i: nat, run: seq<BindReport>)
    requires svc in ns.registry && i < |ns.registry[svc].addrs|
    requires var d := ns.registry[svc].addrs[i];
             && d.addr.url != "" && IndexOfUrl(ns.registry[svc].addrs, d.addr.url) == Some(i)
             && forall k :: 0 <= k < |run| ==> ReportLeavesAt(d.(status := Bound), svc, run[k])
    ensures var d := ns.registry[svc].addrs[i].(status := Bound);
            var reg := AfterReports(ns, [BindReport(svc, sid, [BindResult(d.addr.url, d.addr.url)], tcpSession)] + run).registry;
            svc in reg && d in reg[svc].addrs && RetriesLeft(c, d) == 0
  {
    var d := ns.registry[svc].addrs[i].(status := Bound);
    var r := BindResult(d.addr.url, d.addr.url);
    var report := BindReport(svc, sid, [r], tcpSession);
    var p := StartReport(ns, svc, sid);
    BoundItemOutcome(c, p, svc, r, tcpSession);
    var p' := ReportItem(p, svc, r, tcpSession);
    assert p'.ns.registry[svc].addrs[i] == d;
    hide ReportItem, LeavesAt, ParseUrl;
    assert [r][1..] == [] && ReportAll(p', svc, [r][1..], tcpSession) == p';
    assert ReportAll(p, svc, [r], tcpSession) == p';
    ReportLeaves(ns, svc, sid, [r], tcpSession);
    hide ReportAll, Report, ReportLeavesAt;
    var ns' := AfterReport(ns, report);
    assert svc in ns'.registry && d in ns'.registry[svc].addrs;
    RunKeepsBound(ns', svc, run, d);
    assert ([report] + run)[1..] == run;
    assert AfterReports(ns, [report] + run) == AfterReports(ns', run);
  }
}
