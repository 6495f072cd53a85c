/**
 The operations of CNameServer on its registry: allocating addresses for a service,
 a host coming online, bind reports with rebinding, and removal.
 */
module NameServer {
  import opened Common
  import opened Addresses
  import opened Registry

  type Allocators = map<string, Allocator>

  datatype Ns = Ns(registry: Table, tcp: Allocators, ipc: Allocator)

  // ------------------------------------------------------------ edits of the table

  function SetAddrs(reg: Table, svc: string, addrs: seq<Desc>): Table
    requires svc in reg
  {
    reg[svc := reg[svc].(addrs := addrs)]
  }

  function Add(reg: Table, svc: string, d: Desc): Table
    requires svc in reg
  {
    SetAddrs(reg, svc, reg[svc].addrs + [d])
  }

  function Replace(reg: Table, svc: string, i: nat, d: Desc): Table
    requires IsAt(reg, svc, i)
  {
    SetAddrs(reg, svc, reg[svc].addrs[i := d])
  }

  function Erase(reg: Table, svc: string, i: nat): Table
    requires IsAt(reg, svc, i)
  {
    SetAddrs(reg, svc, reg[svc].addrs[..i] + reg[svc].addrs[i + 1..])
  }

  /** The URL is used nowhere. */
  ghost predicate Unused(reg: Table, url: string) {
    forall s, i :: IsAt(reg, s, i) ==> UrlAt(reg, s, i) != url
  }

  lemma UnregisteredIsUnused(reg: Table, a: Address)
    requires GoodDescs(reg) && WellFormed(a) && !Registered(reg, a.kind, a.url)
    ensures Unused(reg, a.url)
  {
    forall s, i | IsAt(reg, s, i) ensures UrlAt(reg, s, i) != a.url {
      UnregisteredUnused(reg, a, s, i);
    }
  }

  /** No other TCP address of the service is on this interface. */
  ghost predicate InterfaceFree(reg: Table, svc: string, except: int, a: Address) {
    a.kind == Tcp ==> forall i :: IsAt(reg, svc, i) && i != except ==> !TcpOn(DescAt(reg, svc, i), a.host)
  }

  lemma AddKeeps(reg: Table, svc: string, d: Desc)
    requires ValidTable(reg) && svc in reg
    requires GoodDesc(d) && Unused(reg, d.addr.url) && InterfaceFree(reg, svc, -1, d.addr)
    ensures ValidTable(Add(reg, svc, d))
  {
    var reg' := Add(reg, svc, d);
    var n := |reg[svc].addrs|;
    forall s, i | IsAt(reg', s, i)
      ensures if s == svc && i == n then DescAt(reg', s, i) == d else IsAt(reg, s, i) && DescAt(reg', s, i) == DescAt(reg, s, i)
    {
    }
  }

  lemma ReplaceAt(reg: Table, svc: string, i: nat, d: Desc, s: string, j: int)
    requires IsAt(reg, svc, i)
    ensures IsAt(Replace(reg, svc, i, d), s, j) <==> IsAt(reg, s, j)
    ensures IsAt(reg, s, j) ==> DescAt(Replace(reg, svc, i, d), s, j) == if s == svc && j == i then d else DescAt(reg, s, j)
  {
  }

  /** Every descriptor of `reg'` is a good one with the address it had in `reg`. */
  ghost predicate Inherits(reg: Table, reg': Table) {
    forall s, i :: IsAt(reg', s, i) ==>
      IsAt(reg, s, i) && GoodDesc(DescAt(reg', s, i)) && DescAt(reg', s, i).addr == DescAt(reg, s, i).addr
  }

  lemma InheritsKeeps(reg: Table, reg': Table)
    requires ValidTable(reg) && Inherits(reg, reg')
    ensures ValidTable(reg')
  {
    forall s, j, s', k | IsAt(reg', s, j) && IsAt(reg', s', k) && UrlAt(reg', s, j) == UrlAt(reg', s', k)
      ensures s == s' && j == k
    {
      assert UrlAt(reg, s, j) == UrlAt(reg, s', k);
    }
    forall s, j, k, host | IsAt(reg', s, j) && IsAt(reg', s, k) && TcpOn(DescAt(reg', s, j), host) && TcpOn(DescAt(reg', s, k), host)
      ensures j == k
    {
      assert TcpOn(DescAt(reg, s, j), host) && TcpOn(DescAt(reg, s, k), host);
    }
  }

  /** Changing the status or the retry count of a descriptor keeps the table valid. */
  lemma UpdateKeeps(reg: Table, svc: string, i: nat, d: Desc)
    requires ValidTable(reg) && IsAt(reg, svc, i)
    requires GoodDesc(d) && d.addr == DescAt(reg, svc, i).addr
    ensures ValidTable(Replace(reg, svc, i, d))
  {
    forall s, j | IsAt(Replace(reg, svc, i, d), s, j)
      ensures IsAt(reg, s, j) && GoodDesc(DescAt(Replace(reg, svc, i, d), s, j)) &&
              DescAt(Replace(reg, svc, i, d), s, j).addr == DescAt(reg, s, j).addr
    {
      ReplaceAt(reg, svc, i, d, s, j);
    }
    InheritsKeeps(reg, Replace(reg, svc, i, d));
  }

  /** So does moving it to an unused URL on an interface the service does not otherwise use. */
  lemma MoveKeeps(reg: Table, svc: string, i: nat, d: Desc)
    requires ValidTable(reg) && IsAt(reg, svc, i)
    requires GoodDesc(d) && Unused(reg, d.addr.url) && InterfaceFree(reg, svc, i, d.addr)
    ensures ValidTable(Replace(reg, svc, i, d))
  {
    var reg' := Replace(reg, svc, i, d);
    forall s, j | IsAt(reg', s, j)
      ensures IsAt(reg, s, j) && DescAt(reg', s, j) == if s == svc && j == i then d else DescAt(reg, s, j)
    {
      ReplaceAt(reg, svc, i, d, s, j);
    }
  }

  /** Moving a descriptor to another URL keeps the table valid exactly if that URL and interface are free. */
  lemma MoveKeepsIff(reg: Table, svc: string, i: nat, d: Desc)
    requires ValidTable(reg) && IsAt(reg, svc, i) && d.addr.url != UrlAt(reg, svc, i)
    ensures ValidTable(Replace(reg, svc, i, d)) <==> GoodDesc(d) && Unused(reg, d.addr.url) && InterfaceFree(reg, svc, i, d.addr)
  {
    var reg' := Replace(reg, svc, i, d);
    ReplaceAt(reg, svc, i, d, svc, i);
    if GoodDesc(d) && Unused(reg, d.addr.url) && InterfaceFree(reg, svc, i, d.addr) {
      MoveKeeps(reg, svc, i, d);
    }
    if ValidTable(reg') {
      forall s, j | IsAt(reg, s, j) ensures UrlAt(reg, s, j) != d.addr.url {
        ReplaceAt(reg, svc, i, d, s, j);
      }
      forall j | IsAt(reg, svc, j) && j != i && d.addr.kind == Tcp ensures !TcpOn(DescAt(reg, svc, j), d.addr.host) {
        ReplaceAt(reg, svc, i, d, svc, j);
        assert TcpOn(DescAt(reg', svc, i), d.addr.host);
      }
    }
  }

  /** These descriptors fit into the table of a service: good, on free URLs and interfaces, and not in each other's way. */
  ghost predicate Adoptable(reg: Table, svc: string, more: seq<Desc>) {
    && (forall k :: 0 <= k < |more| ==>
          GoodDesc(more[k]) && Unused(reg, more[k].addr.url) && InterfaceFree(reg, svc, -1, more[k].addr))
    && (forall k, l :: 0 <= k < l < |more| ==>
          more[k].addr.url != more[l].addr.url && !(more[k].addr.kind == Tcp && TcpOn(more[l], more[k].addr.host)))
  }

  function Extend(reg: Table, svc: string, more: seq<Desc>): Table
    requires svc in reg
  {
    SetAddrs(reg, svc, reg[svc].addrs + more)
  }

  lemma ExtendAt(reg: Table, svc: string, more: seq<Desc>, s: string, j: int)
    requires svc in reg
    ensures var n := |reg[svc].addrs|;
            var reg' := Extend(reg, svc, more);
            && (IsAt(reg', s, j) <==> IsAt(reg, s, j) || (s == svc && n <= j < n + |more|))
            && (IsAt(reg, s, j) ==> DescAt(reg', s, j) == DescAt(reg, s, j))
            && (s == svc && n <= j < n + |more| ==> DescAt(reg', s, j) == more[j - n])
  {
  }

  lemma {:induction false} ExtendKeeps(reg: Table, svc: string, more: seq<Desc>)
    requires ValidTable(reg) && svc in reg && Adoptable(reg, svc, more)
    ensures ValidTable(Extend(reg, svc, more))
  {
    if more == [] {
      assert reg[svc].addrs + [] == reg[svc].addrs;
      assert Extend(reg, svc, more) == reg;
    } else {
      var init, last := more[..|more| - 1], more[|more| - 1];
      assert forall k :: 0 <= k < |init| ==> init[k] == more[k];
      ExtendKeeps(reg, svc, init);
      var reg1 := Extend(reg, svc, init);
      assert reg[svc].addrs + more == reg1[svc].addrs + [last];
      assert Extend(reg, svc, more) == Add(reg1, svc, last);
      forall s, j | IsAt(reg1, s, j) ensures UrlAt(reg1, s, j) != last.addr.url {
        ExtendAt(reg, svc, init, s, j);
      }
      forall j | IsAt(reg1, svc, j) && last.addr.kind == Tcp ensures !TcpOn(DescAt(reg1, svc, j), last.addr.host) {
        ExtendAt(reg, svc, init, svc, j);
      }
      AddKeeps(reg1, svc, last);
    }
  }

  /** Adopting descriptors keeps the table valid exactly if they fit. */
  lemma ExtendKeepsIff(reg: Table, svc: string, more: seq<Desc>)
    requires ValidTable(reg) && svc in reg
    ensures ValidTable(Extend(reg, svc, more)) <==> Adoptable(reg, svc, more)
  {
    if Adoptable(reg, svc, more) {
      ExtendKeeps(reg, svc, more);
    }
    var reg' := Extend(reg, svc, more);
    var n := |reg[svc].addrs|;
    if ValidTable(reg') {
      forall k | 0 <= k < |more| ensures GoodDesc(more[k]) && Unused(reg, more[k].addr.url) && InterfaceFree(reg, svc, -1, more[k].addr) {
        ExtendAt(reg, svc, more, svc, n + k);
        forall s, j | IsAt(reg, s, j)
          ensures UrlAt(reg, s, j) != more[k].addr.url
          ensures s == svc && more[k].addr.kind == Tcp ==> !TcpOn(DescAt(reg, s, j), more[k].addr.host)
        {
          ExtendAt(reg, svc, more, s, j);
          assert more[k].addr.kind == Tcp ==> TcpOn(DescAt(reg', svc, n + k), more[k].addr.host);
        }
      }
      forall k, l | 0 <= k < l < |more|
        ensures more[k].addr.url != more[l].addr.url && !(more[k].addr.kind == Tcp && TcpOn(more[l], more[k].addr.host))
      {
        ExtendAt(reg, svc, more, svc, n + k);
        ExtendAt(reg, svc, more, svc, n + l);
        assert more[k].addr.kind == Tcp ==> TcpOn(DescAt(reg', svc, n + k), more[k].addr.host);
      }
    }
  }

  /** The same for unique URLs alone. */
  ghost predicate UrlsFree(reg: Table, more: seq<Desc>) {
    && (forall k :: 0 <= k < |more| ==> Unused(reg, more[k].addr.url))
    && (forall k, l :: 0 <= k < l < |more| ==> more[k].addr.url != more[l].addr.url)
  }

  lemma ExtendUniqueIff(reg: Table, svc: string, more: seq<Desc>)
    requires UrlsUnique(reg) && svc in reg
    ensures UrlsUnique(Extend(reg, svc, more)) <==> UrlsFree(reg, more)
  {
    var reg' := Extend(reg, svc, more);
    var n := |reg[svc].addrs|;
    if UrlsFree(reg, more) {
      forall s, i, s', j | IsAt(reg', s, i) && IsAt(reg', s', j) && UrlAt(reg', s, i) == UrlAt(reg', s', j) ensures s == s' && i == j {
        ExtendAt(reg, svc, more, s, i);
        ExtendAt(reg, svc, more, s', j);
      }
    }
    if UrlsUnique(reg') {
      forall k | 0 <= k < |more| ensures Unused(reg, more[k].addr.url) {
        ExtendAt(reg, svc, more, svc, n + k);
        forall s, j | IsAt(reg, s, j) ensures UrlAt(reg, s, j) != more[k].addr.url {
          ExtendAt(reg, svc, more, s, j);
        }
      }
      forall k, l | 0 <= k < l < |more| ensures more[k].addr.url != more[l].addr.url {
        ExtendAt(reg, svc, more, svc, n + k);
        ExtendAt(reg, svc, more, svc, n + l);
      }
    }
  }

  /** Where the descriptor at (s, j) was before position `i` of `svc` was erased. */
  function Before(svc: string, i: nat, s: string, j: int): int {
    if s == svc && j >= i then j + 1 else j
  }

  lemma EraseAt(reg: Table, svc: string, i: nat, s: string, j: int)
    requires IsAt(reg, svc, i) && IsAt(Erase(reg, svc, i), s, j)
    ensures IsAt(reg, s, Before(svc, i, s, j)) && DescAt(Erase(reg, svc, i), s, j) == DescAt(reg, s, Before(svc, i, s, j))
  {
  }

  lemma EraseKeeps(reg: Table, svc: string, i: nat)
    requires ValidTable(reg) && IsAt(reg, svc, i)
    ensures ValidTable(Erase(reg, svc, i))
  {
    var reg' := Erase(reg, svc, i);
    forall s, j | IsAt(reg', s, j) ensures GoodDesc(DescAt(reg', s, j)) {
      EraseAt(reg, svc, i, s, j);
    }
    forall s, j, s', k | IsAt(reg', s, j) && IsAt(reg', s', k) && UrlAt(reg', s, j) == UrlAt(reg', s', k)
      ensures s == s' && j == k
    {
      EraseAt(reg, svc, i, s, j);
      EraseAt(reg, svc, i, s', k);
    }
    forall s, j, k, host | IsAt(reg', s, j) && IsAt(reg', s, k) && TcpOn(DescAt(reg', s, j), host) && TcpOn(DescAt(reg', s, k), host)
      ensures j == k
    {
      EraseAt(reg, svc, i, s, j);
      EraseAt(reg, svc, i, s, k);
    }
  }

  /** Keeping only some services keeps the table valid. */
  lemma RestrictKeeps(reg: Table, reg': Table)
    requires ValidTable(reg) && forall s :: s in reg' ==> s in reg && reg'[s].addrs == reg[s].addrs
    ensures ValidTable(reg')
  {
    assert forall s, i :: IsAt(reg', s, i) ==> IsAt(reg, s, i) && DescAt(reg', s, i) == DescAt(reg, s, i);
    InheritsKeeps(reg, reg');
  }

  // --------------------------------------------------- addOneServiceAddress

  /** Allocates one address from each allocator, in iteration order. */
  function AllocateAll(reg: Table, tcp: Allocators, t: SvcType, ips: seq<string>): (seq<Address>, Allocators)
    requires forall ip :: ip in ips ==> ip in tcp
  {
    if ips == [] then ([], tcp)
    else
      var (ok, addr, a') := Attempts(reg, tcp[ips[0]], t, Budget(reg));
      var (rest, tcp') := AllocateAll(reg, tcp[ips[0] := a'], t, ips[1..]);
      (if ok then [addr] + rest else rest, tcp')
  }

  /** Appends the addresses whose interface the service does not have yet. */
  function AppendAll(reg: Table, svc: string, addrs: seq<Address>): (reg': Table)
    requires svc in reg
    ensures reg'.Keys == reg.Keys
  {
    if addrs == [] then reg
    else
      var a := addrs[0];
      var reg1 := if InterfaceUsed(reg[svc].addrs, a) then reg else Add(reg, svc, Desc(Pending, a, 0));
      AppendAll(reg1, svc, addrs[1..])
  }

  /** Fresh addresses: well formed, URLs unused and pairwise different. */
  ghost predicate Fresh(reg: Table, addrs: seq<Address>) {
    && (forall k :: 0 <= k < |addrs| ==> WellFormed(addrs[k]) && Unused(reg, addrs[k].url))
    && (forall k, l :: 0 <= k < l < |addrs| ==> addrs[k].url != addrs[l].url)
  }

  lemma {:induction false} AllocateAllFresh(reg: Table, tcp: Allocators, t: SvcType, ips: seq<string>)
    requires ValidTable(reg) && ValidAllocators(tcp)
    requires Distinct(ips) && forall ip :: ip in ips ==> ip in tcp
    ensures var (addrs, tcp') := AllocateAll(reg, tcp, t, ips);
            && Fresh(reg, addrs)
            && (forall k :: 0 <= k < |addrs| ==> addrs[k].kind == Tcp && addrs[k].host in ips)
            && ValidAllocators(tcp') && tcp'.Keys == tcp.Keys
  {
    if ips != [] {
      var (ok, addr, a') := Attempts(reg, tcp[ips[0]], t, Budget(reg));
      FreshOne(reg, tcp, t, ips[0]);
      var tcp1 := tcp[ips[0] := a'];
      AllocateAllFresh(reg, tcp1, t, ips[1..]);
      var (rest, tcp') := AllocateAll(reg, tcp1, t, ips[1..]);
      hide Attempts, WellFormed, ValidTable, Unused, ValidAllocators;
      if ok {
        assert ips[0] !in ips[1..];
        FreshCons(reg, addr, rest);
      }
    }
  }

  lemma FreshOne(reg: Table, tcp: Allocators, t: SvcType, ip: string)
    requires ValidTable(reg) && ValidAllocators(tcp) && ip in tcp
    ensures var (ok, addr, a') := Attempts(reg, tcp[ip], t, Budget(reg));
            && (ok ==> WellFormed(addr) && addr.kind == Tcp && addr.host == ip && Unused(reg, addr.url))
            && ValidAllocators(tcp[ip := a'])
  {
    AttemptsSound(reg, tcp[ip], t, Budget(reg));
    var (ok, addr, a') := Attempts(reg, tcp[ip], t, Budget(reg));
    if ok {
      UnregisteredIsUnused(reg, addr);
    }
    hide Attempts, ValidTable;
  }

  /** One more address, on an interface of its own. */
  lemma FreshCons(reg: Table, a: Address, rest: seq<Address>)
    requires Fresh(reg, rest) && WellFormed(a) && a.kind == Tcp && Unused(reg, a.url)
    requires forall k :: 0 <= k < |rest| ==> rest[k].host != a.host
    ensures Fresh(reg, [a] + rest)
  {
    forall k | 0 <= k < |rest| ensures rest[k].url != a.url {
      if rest[k].url == a.url {
        UrlDeterminesAddress(rest[k], a);
        assert false;
      }
    }
    hide Unused, WellFormed;
  }

  lemma {:induction false} AppendAllKeeps(reg: Table, svc: string, addrs: seq<Address>)
    requires ValidTable(reg) && svc in reg && Fresh(reg, addrs)
    ensures ValidTable(AppendAll(reg, svc, addrs))
    decreases addrs
  {
    if addrs != [] {
      var a := addrs[0];
      if InterfaceUsed(reg[svc].addrs, a) {
        AppendAllKeeps(reg, svc, addrs[1..]);
      } else {
        var d := Desc(Pending, a, 0);
        AddKeeps(reg, svc, d);
        var reg1 := Add(reg, svc, d);
        forall k | 0 <= k < |addrs[1..]| ensures Unused(reg1, addrs[1..][k].url) {
          assert addrs[1..][k] == addrs[k + 1];
          assert Unused(reg, addrs[k + 1].url);
          forall s, i | IsAt(reg1, s, i) ensures UrlAt(reg1, s, i) != addrs[k + 1].url {
            assert DescAt(reg1, s, i) == d || (IsAt(reg, s, i) && DescAt(reg1, s, i) == DescAt(reg, s, i));
          }
        }
        AppendAllKeeps(reg1, svc, addrs[1..]);
      }
    }
  }

  /** setInterfaceIp on the allocator of each interface; all interfaces if none is known. */
  function CreateTcpAllocators(tcp: Allocators, interfaces: seq<string>): Allocators
    requires forall ip :: ip in tcp ==> tcp[ip].TcpAllocator?
    decreases interfaces
  {
    if interfaces == [] then
      if tcp == map[] then map[ALL_INTERFACES := SetInterfaceIp(NEW_TCP_ALLOCATOR, ALL_INTERFACES)] else tcp
    else
      var ip := interfaces[0];
      CreateTcpAllocators(tcp[ip := SetInterfaceIp(if ip in tcp then tcp[ip] else NEW_TCP_ALLOCATOR, ip)], interfaces[1..])
  }

  /** Whatever the interfaces, every allocator serves the interface it is filed under, also when created again. */
  lemma {:induction false} CreateServesKeys(tcp: Allocators, interfaces: seq<string>)
    requires forall ip :: ip in tcp ==> tcp[ip].TcpAllocator? && ServesKey(tcp[ip], ip)
    ensures var tcp' := CreateTcpAllocators(tcp, interfaces);
            && tcp' != map[] && (forall ip :: ip in tcp' ==> ServesKey(tcp'[ip], ip))
            && (forall ip :: ip in tcp ==> ip in tcp' && tcp'[ip] == tcp[ip])
            && (forall ip :: ip in interfaces ==> ip in tcp')
            && (forall ip :: ip in tcp' ==> ip in tcp || ip in interfaces || ip == ALL_INTERFACES)
    decreases interfaces
  {
    if interfaces == [] {
      assert tcp == map[] ==> ALL_INTERFACES in CreateTcpAllocators(tcp, interfaces);
    } else {
      var ip := interfaces[0];
      CreateServesKeys(tcp[ip := SetInterfaceIp(if ip in tcp then tcp[ip] else NEW_TCP_ALLOCATOR, ip)], interfaces[1..]);
    }
  }

  lemma CreateKeeps(tcp: Allocators, interfaces: seq<string>)
    requires ValidAllocators(tcp) && forall k :: 0 <= k < |interfaces| ==> !Bracketed(interfaces[k])
    ensures ValidAllocators(CreateTcpAllocators(tcp, interfaces))
    ensures CreateTcpAllocators(tcp, interfaces) != map[]
  {
    CreateServesKeys(tcp, interfaces);
  }

  // ------------------------------------------------------------------ rebinding

  /** reconnectToAddress: another address for a failed one, or None when it is given up. */
  function Reissue(ns: Ns, svc: string, d: Desc): (Option<Desc>, Ns) {
    if d.reconnects >= BIND_RETRIES then (None, ns)
    else if d.addr.kind == Ipc then
      var (ok, addr, a') := Attempts(ns.registry, ns.ipc, GetSvcType(svc), Budget(ns.registry));
      (Reissued(ok, addr, d), ns.(ipc := a'))
    else if d.addr.host !in ns.tcp then (None, ns)
    else
      var (ok, addr, a') := Attempts(ns.registry, ns.tcp[d.addr.host], GetSvcType(svc), Budget(ns.registry));
      (Reissued(ok, addr, d), ns.(tcp := ns.tcp[d.addr.host := a']))
  }

  function Reissued(ok: bool, addr: Address, d: Desc): Option<Desc> {
    if ok && ParseUrl(addr.url).Some? then Some(d.(addr := ParseUrl(addr.url).value, reconnects := d.reconnects + 1)) else None
  }

  ghost predicate Valid(ns: Ns) {
    ValidTable(ns.registry) && ValidAllocators(ns.tcp) && ns.ipc.IpcAllocator?
  }

  /** A reissued address keeps its kind and interface, and its URL is unused. */
  lemma ReissueSound(ns: Ns, svc: string, i: nat)
    requires Valid(ns) && IsAt(ns.registry, svc, i)
    ensures var d := DescAt(ns.registry, svc, i);
            var (r, ns') := Reissue(ns, svc, d);
            && ns'.registry == ns.registry && Valid(ns') && ns'.tcp.Keys == ns.tcp.Keys
            && (r.Some? ==>
                && d.reconnects < BIND_RETRIES && r.value.reconnects == d.reconnects + 1 && r.value.status == d.status
                && GoodDesc(r.value) && r.value.addr.kind == d.addr.kind
                && (d.addr.kind == Tcp ==> r.value.addr.host == d.addr.host)
                && Unused(ns.registry, r.value.addr.url))
  {
    var d := DescAt(ns.registry, svc, i);
    assert GoodDesc(d);
    if d.reconnects < BIND_RETRIES {
      if d.addr.kind == Ipc {
        ReissuedSound(ns, svc, d, ns.ipc);
      } else if d.addr.host in ns.tcp {
        ReissuedSound(ns, svc, d, ns.tcp[d.addr.host]);
      }
    }
  }

  lemma ReissuedSound(ns: Ns, svc: string, d: Desc, a: Allocator)
    requires Valid(ns) && GoodDesc(d) && d.reconnects < BIND_RETRIES
    requires if d.addr.kind == Ipc then a == ns.ipc else d.addr.host in ns.tcp && a == ns.tcp[d.addr.host]
    ensures var (ok, addr, a') := Attempts(ns.registry, a, GetSvcType(svc), Budget(ns.registry));
            && (a.IpcAllocator? ==> a'.IpcAllocator?)
            && (a.TcpAllocator? ==> ValidTcpAllocator(a', a.ip))
            && (ok ==> ParseUrl(addr.url) == Some(addr) && WellFormed(addr) && Unused(ns.registry, addr.url) && addr.kind == d.addr.kind)
            && (a.TcpAllocator? ==> addr.host == a.ip)
  {
    AttemptsSound(ns.registry, a, GetSvcType(svc), Budget(ns.registry));
    var (ok, addr, a') := Attempts(ns.registry, a, GetSvcType(svc), Budget(ns.registry));
    if ok {
      if a.TcpAllocator? {
        TcpParseBuild(addr.host, addr.port);
      } else {
        IpcParseBuild(addr.host);
      }
      UnregisteredIsUnused(ns.registry, addr);
    }
  }

  /**
   A reissued TCP address stays on its interface exactly if that is not written in
   brackets. Otherwise, unless the bare host has an allocator too, the next failure ends
   it, retries or not.
   */
  lemma ReissueKeepsInterfaceIff(ns: Ns, svc: string, d: Desc)
    requires d.addr.kind == Tcp && d.addr.host in ns.tcp && ServesKey(ns.tcp[d.addr.host], d.addr.host)
    requires Reissue(ns, svc, d).0.Some?
    ensures var (r, ns') := Reissue(ns, svc, d);
            && (r.value.addr.host == d.addr.host <==> !Bracketed(d.addr.host))
            && (Bracketed(d.addr.host) && StripBrackets(d.addr.host) !in ns.tcp ==> Reissue(ns', svc, r.value).0 == None)
  {
    var a := ns.tcp[d.addr.host];
    AttemptsSound(ns.registry, a, GetSvcType(svc), Budget(ns.registry));
    var addr := Attempts(ns.registry, a, GetSvcType(svc), Budget(ns.registry)).1;
    TcpParseBuild(addr.host, addr.port);
    hide Attempts, ParseUrl, TcpAddress;
  }

  // --------------------------------------------------------------- bind reports

  /** What a server says about one address: an empty `bind` means it could not bind it. */
  datatype BindResult = BindResult(request: string, bind: string)

  /** `strangers` are addresses the name server did not ask for; `hsUrl`: an address to reach the host server by. */
  datatype Progress = Progress(ns: Ns, strangers: seq<Desc>, hsUrl: bool)

  /** A bound address gives a URL for the host server unless it is a wildcard seen over a local session. */
  predicate GivesUrl(a: Address, tcpSession: bool) {
    a.kind == Ipc || a.host != ALL_INTERFACES || tcpSession
  }

  function ReportItem(p: Progress, svc: string, r: BindResult, tcpSession: bool): (p': Progress)
    requires svc in p.ns.registry
    ensures p'.ns.registry.Keys == p.ns.registry.Keys
  {
    var reg := p.ns.registry;
    var at := IndexOfUrl(reg[svc].addrs, r.request);
    if at.Some? then
      var d := reg[svc].addrs[at.value];
      if r.bind != "" then
        var a := if d.addr.kind != Ipc && r.bind != d.addr.url then ParseUrl(r.bind).GetOr(d.addr) else d.addr;
        p.(ns := p.ns.(registry := Replace(reg, svc, at.value, d.(status := Bound, addr := a))),
           hsUrl := p.hsUrl || GivesUrl(a, tcpSession))
      else if d.status == Bound then
        p.(hsUrl := p.hsUrl || GivesUrl(d.addr, tcpSession))
      else
        var (d', ns') := Reissue(p.ns, svc, d);
        p.(ns := ns'.(registry := if d'.Some? then Replace(reg, svc, at.value, d'.value) else Erase(reg, svc, at.value)))
    else if ParseUrl(r.bind).Some? then
      var a := ParseUrl(r.bind).value;
      p.(strangers := p.strangers + [Desc(Bound, a, 0)], hsUrl := p.hsUrl || GivesUrl(a, tcpSession))
    else p
  }

  function ReportAll(p: Progress, svc: string, results: seq<BindResult>, tcpSession: bool): (p': Progress)
    requires svc in p.ns.registry
    ensures p'.ns.registry.Keys == p.ns.registry.Keys
    decreases |results|
  {
    if results == [] then p
    else ReportAll(ReportItem(p, svc, results[0], tcpSession), svc, results[1..], tcpSession)
  }

  /** The end of onRegisterServiceReq: adopt strangers, drop an empty service, host server fallback. */
  function FinishReport(p: Progress, svc: string): Ns
    requires svc in p.ns.registry
  {
    var addrs := p.ns.registry[svc].addrs + p.strangers;
    if addrs == [] then p.ns.(registry := p.ns.registry - {svc})
    else if svc == HOST_SERVER && !p.hsUrl then
      p.ns.(registry := SetAddrs(p.ns.registry, svc, addrs + [Desc(Free, IpcAddress("/tmp/fdb-hs"), 0)]))
    else p.ns.(registry := SetAddrs(p.ns.registry, svc, addrs))
  }

  function StartReport(ns: Ns, svc: string, sid: int): Progress
    requires svc in ns.registry
  {
    Progress(ns.(registry := ns.registry[svc := ns.registry[svc].(sid := sid)]), [], false)
  }

  /** onRegisterServiceReq. */
  function Report(ns: Ns, svc: string, sid: int, results: seq<BindResult>, tcpSession: bool): Ns {
    if svc !in ns.registry then ns
    else FinishReport(ReportAll(StartReport(ns, svc, sid), svc, results, tcpSession), svc)
  }

  /** The report reaches the branch that adds an address for the host server unasked. */
  predicate FallbackTaken(ns: Ns, svc: string, sid: int, results: seq<BindResult>, tcpSession: bool) {
    && svc in ns.registry && svc == HOST_SERVER
    && var p := ReportAll(StartReport(ns, svc, sid), svc, results, tcpSession);
       !p.hsUrl && p.ns.registry[svc].addrs + p.strangers != []
  }

  const HOST_SERVER_IPC := IpcAddress("/tmp/fdb-hs")

  /** What is added when all items are through: unrequested addresses, and the fallback for a host server without any. */
  function Arrivals(p: Progress, svc: string): seq<Desc>
    requires svc in p.ns.registry
  {
    p.strangers +
    if svc == HOST_SERVER && !p.hsUrl && p.ns.registry[svc].addrs + p.strangers != [] then [Desc(Free, HOST_SERVER_IPC, 0)] else []
  }

  /** Afterwards a service has what the items left of its table and the arrivals; without either it is gone. */
  lemma FinishExtends(p: Progress, svc: string)
    requires svc in p.ns.registry
    ensures var reg, reg' := p.ns.registry, FinishReport(p, svc).registry;
            var all := reg[svc].addrs + Arrivals(p, svc);
            if all == [] then reg' == reg - {svc} else reg' == Extend(reg, svc, Arrivals(p, svc)) && reg'[svc].addrs == all
    ensures FinishReport(p, svc) == p.ns.(registry := FinishReport(p, svc).registry)
  {
    var addrs := p.ns.registry[svc].addrs;
    assert (addrs + p.strangers) + [Desc(Free, HOST_SERVER_IPC, 0)] == addrs + (p.strangers + [Desc(Free, HOST_SERVER_IPC, 0)]);
    assert p.strangers + [] == p.strangers;
  }

  lemma FinishKeepsIff(p: Progress, svc: string)
    requires Valid(p.ns) && svc in p.ns.registry
    ensures Valid(FinishReport(p, svc)) <==> Adoptable(p.ns.registry, svc, Arrivals(p, svc))
  {
    var reg := p.ns.registry;
    FinishExtends(p, svc);
    if reg[svc].addrs + Arrivals(p, svc) == [] {
      RestrictKeeps(reg, reg - {svc});
    } else {
      ExtendKeepsIff(reg, svc, Arrivals(p, svc));
    }
  }

  // ------------------------------------------------- reports that keep the table

  /** Where the item moves a requested address: bound elsewhere than asked. */
  function MovedTo(d: Desc, r: BindResult): Option<Address> {
    if r.bind != "" && d.addr.kind != Ipc && r.bind != d.addr.url then ParseUrl(r.bind) else None
  }

  /** An address that was bound elsewhere is on a free URL and interface. */
  ghost predicate ItemSafe(p: Progress, svc: string, r: BindResult)
    requires svc in p.ns.registry
  {
    var reg := p.ns.registry;
    var at := IndexOfUrl(reg[svc].addrs, r.request);
    at.Some? && MovedTo(reg[svc].addrs[at.value], r).Some? ==>
      var d := reg[svc].addrs[at.value].(status := Bound, addr := MovedTo(reg[svc].addrs[at.value], r).value);
      GoodDesc(d) && Unused(reg, d.addr.url) && InterfaceFree(reg, svc, at.value, d.addr)
  }

  ghost predicate ItemsSafe(p: Progress, svc: string, results: seq<BindResult>, tcpSession: bool)
    requires svc in p.ns.registry
    decreases |results|
  {
    results == [] || (ItemSafe(p, svc, results[0]) && ItemsSafe(ReportItem(p, svc, results[0], tcpSession), svc, results[1..], tcpSession))
  }

  lemma ParsedUrl(url: string)
    ensures ParseUrl(url).Some? ==> ParseUrl(url).value.url == url
  {
  }

  /** An item keeps the table valid exactly if it is safe; whatever fails or is reissued is. */
  lemma ItemKeepsIff(p: Progress, svc: string, r: BindResult, tcpSession: bool)
    requires Valid(p.ns) && svc in p.ns.registry
    ensures Valid(ReportItem(p, svc, r, tcpSession).ns) <==> ItemSafe(p, svc, r)
  {
    var reg := p.ns.registry;
    var addrs := reg[svc].addrs;
    var at := IndexOfUrl(addrs, r.request);
    ParsedUrl(r.bind);
    hide ParseUrl, Attempts, WellFormed;
    if at.Some? {
      var i, d := at.value, addrs[at.value];
      assert IsAt(reg, svc, i) && GoodDesc(DescAt(reg, svc, i));
      if r.bind != "" {
        var moved := MovedTo(d, r);
        if moved.Some? {
          MoveKeepsIff(reg, svc, i, d.(status := Bound, addr := moved.value));
        } else {
          UpdateKeeps(reg, svc, i, d.(status := Bound));
        }
      } else if d.status != Bound {
        ReissueSound(p.ns, svc, i);
        var d' := Reissue(p.ns, svc, d).0;
        if d'.Some? {
          MoveKeeps(reg, svc, i, d'.value);
        } else {
          EraseKeeps(reg, svc, i);
        }
      }
    }
  }

  /** A report keeps the table valid at every item exactly if all items are safe. */
  lemma {:induction false} ItemsKeepIff(p: Progress, svc: string, results: seq<BindResult>, tcpSession: bool)
    requires Valid(p.ns) && svc in p.ns.registry
    ensures ItemsSafe(p, svc, results, tcpSession) <==>
            forall k :: 0 <= k <= |results| ==> Valid(ReportAll(p, svc, results[..k], tcpSession).ns)
    decreases |results|
  {
    hide Valid, ItemSafe, ReportItem;
    assert results[..0] == [];
    if results != [] {
      var p1 := ReportItem(p, svc, results[0], tcpSession);
      ItemKeepsIff(p, svc, results[0], tcpSession);
      forall k | 0 < k <= |results|
        ensures ReportAll(p, svc, results[..k], tcpSession) == ReportAll(p1, svc, results[1..][..k - 1], tcpSession)
      {
        assert results[..k][1..] == results[1..][..k - 1];
      }
      if Valid(p1.ns) {
        ItemsKeepIff(p1, svc, results[1..], tcpSession);
        if ItemsSafe(p, svc, results, tcpSession) {
          forall k | 0 <= k <= |results| ensures Valid(ReportAll(p, svc, results[..k], tcpSession).ns) {
            if k > 0 {
              assert Valid(ReportAll(p1, svc, results[1..][..k - 1], tcpSession).ns);
            }
          }
        } else if forall k :: 0 <= k <= |results| ==> Valid(ReportAll(p, svc, results[..k], tcpSession).ns) {
          forall k | 0 <= k <= |results[1..]| ensures Valid(ReportAll(p1, svc, results[1..][..k], tcpSession).ns) {
            assert Valid(ReportAll(p, svc, results[..k + 1], tcpSession).ns);
          }
        }
      } else {
        assert ReportAll(p, svc, results[..1], tcpSession) == ReportAll(p1, svc, results[1..][..0], tcpSession) == p1;
      }
    }
  }

  lemma StartKeeps(ns: Ns, svc: string, sid: int)
    requires Valid(ns) && svc in ns.registry
    ensures Valid(StartReport(ns, svc, sid).ns)
  {
    RestrictKeeps(ns.registry, StartReport(ns, svc, sid).ns.registry);
  }

  /** The items are safe, and what arrives at the end fits. */
  ghost predicate ReportSafe(ns: Ns, svc: string, sid: int, results: seq<BindResult>, tcpSession: bool) {
    svc in ns.registry ==>
      var p := StartReport(ns, svc, sid);
      var p' := ReportAll(p, svc, results, tcpSession);
      ItemsSafe(p, svc, results, tcpSession) && Adoptable(p'.ns.registry, svc, Arrivals(p', svc))
  }

  /**
   A report whose items are safe keeps the registry valid exactly if the unrequested
   addresses it brings, and the fallback address if it comes to that, fit.
   */
  lemma ReportKeepsIff(ns: Ns, svc: string, sid: int, results: seq<BindResult>, tcpSession: bool)
    requires Valid(ns)
    requires svc in ns.registry ==> ItemsSafe(StartReport(ns, svc, sid), svc, results, tcpSession)
    ensures Valid(Report(ns, svc, sid, results, tcpSession)) <==> ReportSafe(ns, svc, sid, results, tcpSession)
  {
    if svc in ns.registry {
      var p := StartReport(ns, svc, sid);
      StartKeeps(ns, svc, sid);
      ItemsKeepIff(p, svc, results, tcpSession);
      assert results[..|results|] == results;
      FinishKeepsIff(ReportAll(p, svc, results, tcpSession), svc);
    }
  }

  // --------------------------------------------------- reports as they were asked

  predicate HasUrl(addrs: seq<Desc>, url: string) {
    exists i :: 0 <= i < |addrs| && addrs[i].addr.url == url
  }

  /** Each requested address is answered at most once, by success as requested or by failure. */
  ghost predicate AsRequested(addrs: seq<Desc>, results: seq<BindResult>) {
    && (forall k :: 0 <= k < |results| ==>
          HasUrl(addrs, results[k].request) && (results[k].bind == "" || results[k].bind == results[k].request))
    && (forall k, l :: 0 <= k < l < |results| ==> results[k].request != results[l].request)
  }

  lemma HasUrlReplace(addrs: seq<Desc>, i: nat, d: Desc, url: string)
    requires i < |addrs| && HasUrl(addrs, url) && addrs[i].addr.url != url
    ensures HasUrl(addrs[i := d], url) && HasUrl(addrs[..i] + addrs[i + 1..], url)
  {
    var k :| 0 <= k < |addrs| && addrs[k].addr.url == url;
    assert addrs[i := d][k].addr.url == url;
    assert (addrs[..i] + addrs[i + 1..])[if k < i then k else k - 1].addr.url == url;
  }

  lemma RequestedItem(p: Progress, svc: string, r: BindResult, tcpSession: bool)
    requires svc in p.ns.registry
    requires HasUrl(p.ns.registry[svc].addrs, r.request) && (r.bind == "" || r.bind == r.request)
    ensures var p' := ReportItem(p, svc, r, tcpSession);
            && ItemSafe(p, svc, r) && p'.strangers == p.strangers
            && (forall url :: url != r.request && HasUrl(p.ns.registry[svc].addrs, url) ==> HasUrl(p'.ns.registry[svc].addrs, url))
  {
    var addrs := p.ns.registry[svc].addrs;
    var i := IndexOfUrl(addrs, r.request).value;
    hide Attempts, ParseUrl;
    forall url | url != r.request && HasUrl(addrs, url) ensures HasUrl(ReportItem(p, svc, r, tcpSession).ns.registry[svc].addrs, url) {
      HasUrlReplace(addrs, i, addrs[i].(status := Bound), url);
      var d' := Reissue(p.ns, svc, addrs[i]).0;
      if d'.Some? {
        HasUrlReplace(addrs, i, d'.value, url);
      }
    }
  }

  /** Such a report is safe item by item and brings nothing unrequested. */
  lemma {:induction false} AsRequestedSafe(p: Progress, svc: string, results: seq<BindResult>, tcpSession: bool)
    requires svc in p.ns.registry && AsRequested(p.ns.registry[svc].addrs, results)
    ensures ItemsSafe(p, svc, results, tcpSession) && ReportAll(p, svc, results, tcpSession).strangers == p.strangers
    decreases |results|
  {
    if results != [] {
      hide ItemSafe, ReportItem;
      RequestedItem(p, svc, results[0], tcpSession);
      AsRequestedSafe(ReportItem(p, svc, results[0], tcpSession), svc, results[1..], tcpSession);
    }
  }

  /** A report that answers what was asked and does not reach the fallback keeps the registry valid. */
  lemma ReportKeeps(ns: Ns, svc: string, sid: int, results: seq<BindResult>, tcpSession: bool)
    requires Valid(ns)
    requires svc in ns.registry ==> AsRequested(ns.registry[svc].addrs, results)
    requires !FallbackTaken(ns, svc, sid, results, tcpSession)
    ensures ReportSafe(ns, svc, sid, results, tcpSession) && Valid(Report(ns, svc, sid, results, tcpSession))
  {
    if svc in ns.registry {
      AsRequestedSafe(StartReport(ns, svc, sid), svc, results, tcpSession);
      assert Arrivals(ReportAll(StartReport(ns, svc, sid), svc, results, tcpSession), svc) == [];
    }
    ReportKeepsIff(ns, svc, sid, results, tcpSession);
  }

  // ----------------------------------------------------------------- the fallback

  /**
   A report that answers what was asked and reaches the fallback keeps URLs unique
   exactly if the host server's IPC URL is free then.
   */
  lemma FallbackUniqueIff(ns: Ns, sid: int, results: seq<BindResult>, tcpSession: bool)
    requires Valid(ns) && FallbackTaken(ns, HOST_SERVER, sid, results, tcpSession)
    requires AsRequested(ns.registry[HOST_SERVER].addrs, results)
    ensures var after := ReportAll(StartReport(ns, HOST_SERVER, sid), HOST_SERVER, results, tcpSession).ns.registry;
            var free := Unused(after, HOST_SERVER_IPC.url);
            && (UrlsUnique(Report(ns, HOST_SERVER, sid, results, tcpSession).registry) <==> free)
            && (ReportSafe(ns, HOST_SERVER, sid, results, tcpSession) <==> free)
  {
    var p := StartReport(ns, HOST_SERVER, sid);
    var p' := ReportAll(p, HOST_SERVER, results, tcpSession);
    AsRequestedSafe(p, HOST_SERVER, results, tcpSession);
    StartKeeps(ns, HOST_SERVER, sid);
    ItemsKeepIff(p, HOST_SERVER, results, tcpSession);
    assert results[..|results|] == results;
    FinishExtends(p', HOST_SERVER);
    FinishKeepsIff(p', HOST_SERVER);
    var reg := p'.ns.registry;
    assert p'.strangers == [] && reg[HOST_SERVER].addrs + [] == reg[HOST_SERVER].addrs;
    assert Arrivals(p', HOST_SERVER) == [Desc(Free, HOST_SERVER_IPC, 0)];
    ExtendUniqueIff(reg, HOST_SERVER, Arrivals(p', HOST_SERVER));
    FallbackFits(reg, HOST_SERVER);
  }

  lemma FallbackFits(reg: Table, svc: string)
    ensures var more := [Desc(Free, HOST_SERVER_IPC, 0)];
            && (UrlsFree(reg, more) <==> Unused(reg, HOST_SERVER_IPC.url))
            && (Adoptable(reg, svc, more) <==> Unused(reg, HOST_SERVER_IPC.url))
  {
    var more := [Desc(Free, HOST_SERVER_IPC, 0)];
    assert more[0].addr == HOST_SERVER_IPC && GoodDesc(more[0]);
    hide Unused, GoodDesc;
  }

  function DescOf(addrs: seq<Desc>, url: string): Desc
    requires IndexOfUrl(addrs, url).Some?
  {
    addrs[IndexOfUrl(addrs, url).value]
  }

  /** Whether the host server holds its own IPC URL after an item about the descriptor `d`, held before or not. */
  predicate HeldNext(d: Desc, r: BindResult, held: bool) {
    if r.bind == "" && d.addr.kind == Ipc && d.status != Bound
    then r.request != HOST_SERVER_IPC.url && (held || d.reconnects < BIND_RETRIES)
    else held
  }

  /** The same for a whole report, read off the table before it. */
  predicate HeldAfter(addrs: seq<Desc>, results: seq<BindResult>, held: bool)
    decreases |results|
  {
    if results == [] then held
    else
      var found := IndexOfUrl(addrs, results[0].request).Some?;
      HeldAfter(addrs, results[1..], if found then HeldNext(DescOf(addrs, results[0].request), results[0], held) else held)
  }

  /** Replacing or erasing a descriptor with another URL neither adds nor removes this one. */
  lemma HasUrlSame(addrs: seq<Desc>, i: nat, d: Desc, url: string)
    requires i < |addrs| && addrs[i].addr.url != url && d.addr.url != url
    ensures HasUrl(addrs[i := d], url) <==> HasUrl(addrs, url)
    ensures HasUrl(addrs[..i] + addrs[i + 1..], url) <==> HasUrl(addrs, url)
  {
    if HasUrl(addrs, url) {
      HasUrlReplace(addrs, i, d, url);
    }
    var rest := addrs[..i] + addrs[i + 1..];
    if k :| 0 <= k < |rest| && rest[k].addr.url == url {
      assert addrs[if k < i then k else k + 1].addr.url == url;
    }
    var other := addrs[i := d];
    if k :| 0 <= k < |other| && other[k].addr.url == url {
      assert addrs[k].addr.url == url;
    }
  }

  lemma OwnIpcErased(ns: Ns, i: nat)
    requires Valid(ns) && IsAt(ns.registry, HOST_SERVER, i) && UrlAt(ns.registry, HOST_SERVER, i) == HOST_SERVER_IPC.url
    ensures var d, addrs := DescAt(ns.registry, HOST_SERVER, i), ns.registry[HOST_SERVER].addrs;
            && d.addr == HOST_SERVER_IPC && Reissue(ns, HOST_SERVER, d).0 == None
            && !HasUrl(addrs[..i] + addrs[i + 1..], HOST_SERVER_IPC.url)
  {
    var reg := ns.registry;
    var d, addrs := DescAt(reg, HOST_SERVER, i), reg[HOST_SERVER].addrs;
    assert GoodDesc(d) && WellFormed(HOST_SERVER_IPC);
    UrlDeterminesAddress(d.addr, HOST_SERVER_IPC);
    assert InTable(addrs, Ipc, HOST_SERVER_IPC.url);
    assert Registered(reg, Ipc, HOST_SERVER_IPC.url);
    var rest := addrs[..i] + addrs[i + 1..];
    forall k | 0 <= k < |rest| ensures rest[k].addr.url != HOST_SERVER_IPC.url {
      var j := if k < i then k else k + 1;
      assert IsAt(reg, HOST_SERVER, j) && UrlAt(reg, HOST_SERVER, j) == rest[k].addr.url;
    }
  }

  /** Reissuing any IPC address of the host server gives its own one, if that is free. */
  lemma ReissueOwn(ns: Ns, d: Desc)
    requires Valid(ns) && HOST_SERVER in ns.registry && d.addr.kind == Ipc && FreeElsewhere(ns.registry, HOST_SERVER, HOST_SERVER_IPC.url)
    ensures var r := Reissue(ns, HOST_SERVER, d).0;
            && (r.Some? <==> d.reconnects < BIND_RETRIES && !HasUrl(ns.registry[HOST_SERVER].addrs, HOST_SERVER_IPC.url))
            && (r.Some? ==> r.value.addr == HOST_SERVER_IPC)
  {
    var reg, url := ns.registry, HOST_SERVER_IPC.url;
    IpcParseBuild("/tmp/fdb-hs");
    assert WellFormed(HOST_SERVER_IPC);
    if k :| 0 <= k < |reg[HOST_SERVER].addrs| && reg[HOST_SERVER].addrs[k].addr.url == url {
      assert IsAt(reg, HOST_SERVER, k) && GoodDesc(DescAt(reg, HOST_SERVER, k));
      UrlDeterminesAddress(reg[HOST_SERVER].addrs[k].addr, HOST_SERVER_IPC);
      assert InTable(reg[HOST_SERVER].addrs, Ipc, url);
      assert Registered(reg, Ipc, url);
    } else {
      UnusedParts(reg, reg, HOST_SERVER, url);
      UnusedUnregistered(reg, Ipc, url);
    }
    hide ParseUrl, Valid;
  }

  lemma UnusedUnregistered(reg: Table, kind: SocketKind, url: string)
    requires Unused(reg, url)
    ensures !Registered(reg, kind, url)
  {
    forall s | s in reg ensures !InTable(reg[s].addrs, kind, url) {
      forall i | 0 <= i < |reg[s].addrs| ensures reg[s].addrs[i].addr.url != url {
        assert IsAt(reg, s, i) && UrlAt(reg, s, i) != url;
      }
    }
  }

  /** What an item does to the host server's own IPC URL, if the report has not bound an address to reach it by. */
  lemma OwnIpcItem(p: Progress, r: BindResult, tcpSession: bool)
    requires Valid(p.ns) && HOST_SERVER in p.ns.registry && FreeElsewhere(p.ns.registry, HOST_SERVER, HOST_SERVER_IPC.url)
    requires HasUrl(p.ns.registry[HOST_SERVER].addrs, r.request) && (r.bind == "" || r.bind == r.request)
    requires !ReportItem(p, HOST_SERVER, r, tcpSession).hsUrl
    ensures var addrs, addrs' := p.ns.registry[HOST_SERVER].addrs, ReportItem(p, HOST_SERVER, r, tcpSession).ns.registry[HOST_SERVER].addrs;
            && IndexOfUrl(addrs, r.request).Some?
            && (HasUrl(addrs', HOST_SERVER_IPC.url) <==> HeldNext(DescOf(addrs, r.request), r, HasUrl(addrs, HOST_SERVER_IPC.url)))
  {
    var reg, url := p.ns.registry, HOST_SERVER_IPC.url;
    var addrs := reg[HOST_SERVER].addrs;
    var i := IndexOfUrl(addrs, r.request).value;
    var d := addrs[i];
    assert IsAt(reg, HOST_SERVER, i) && GoodDesc(DescAt(reg, HOST_SERVER, i));
    if r.request == url {
      OwnIpcErased(p.ns, i);
      hide Reissue, ParseUrl;
      assert r.bind == "" && d.status != Bound;
    } else {
      ReissueSound(p.ns, HOST_SERVER, i);
      var d' := Reissue(p.ns, HOST_SERVER, d).0;
      HasUrlSame(addrs, i, d.(status := Bound), url);
      if d.addr.kind == Ipc {
        ReissueOwn(p.ns, d);
        assert d'.Some? ==> addrs[i := d'.value][i].addr.url == url;
      } else if d'.Some? {
        TcpIsNotIpc(d'.value.addr);
        HasUrlSame(addrs, i, d'.value, url);
      }
      hide Reissue, ParseUrl, IpcAddress, TcpAddress;
    }
  }

  /** An item leaves the descriptors with other URLs as they are. */
  lemma ItemKeepsDesc(p: Progress, svc: string, r: BindResult, tcpSession: bool, url: string)
    requires Valid(p.ns) && svc in p.ns.registry && HasUrl(p.ns.registry[svc].addrs, r.request) && (r.bind == "" || r.bind == r.request)
    requires HasUrl(p.ns.registry[svc].addrs, url) && url != r.request
    ensures var addrs, addrs' := p.ns.registry[svc].addrs, ReportItem(p, svc, r, tcpSession).ns.registry[svc].addrs;
            IndexOfUrl(addrs, url).Some? && IndexOfUrl(addrs', url).Some? && DescOf(addrs', url) == DescOf(addrs, url)
  {
    RequestedItem(p, svc, r, tcpSession);
    ItemKeepsIff(p, svc, r, tcpSession);
    var reg, reg' := p.ns.registry, ReportItem(p, svc, r, tcpSession).ns.registry;
    var addrs, addrs' := reg[svc].addrs, reg'[svc].addrs;
    var i, k := IndexOfUrl(addrs, r.request).value, IndexOfUrl(addrs, url).value;
    hide Reissue, ParseUrl, GoodDescs, OneTcpPerInterface;
    var at := if |addrs'| < |addrs| && k > i then k - 1 else k;
    assert at < |addrs'| && addrs'[at] == addrs[k];
    assert IsAt(reg', svc, at) && IsAt(reg', svc, IndexOfUrl(addrs', url).value);
    assert UrlAt(reg', svc, at) == UrlAt(reg', svc, IndexOfUrl(addrs', url).value);
  }

  lemma TcpIsNotIpc(a: Address)
    requires WellFormed(a) && a.kind == Tcp
    ensures a.url != HOST_SERVER_IPC.url
  {
    KindsDiffer(a.host, a.port, "/tmp/fdb-hs");
  }

  /** Items about a service leave the others alone. */
  lemma {:induction false} ItemsLeaveOthers(p: Progress, svc: string, results: seq<BindResult>, tcpSession: bool)
    requires svc in p.ns.registry
    ensures var reg, reg' := p.ns.registry, ReportAll(p, svc, results, tcpSession).ns.registry;
            reg'.Keys == reg.Keys && forall s :: s in reg && s != svc ==> reg'[s] == reg[s]
    decreases |results|
  {
    if results != [] {
      hide ReportItem;
      ItemLeavesOthers(p, svc, results[0], tcpSession);
      ItemsLeaveOthers(ReportItem(p, svc, results[0], tcpSession), svc, results[1..], tcpSession);
    }
  }

  lemma ItemLeavesOthers(p: Progress, svc: string, r: BindResult, tcpSession: bool)
    requires svc in p.ns.registry
    ensures var reg, reg' := p.ns.registry, ReportItem(p, svc, r, tcpSession).ns.registry;
            reg'.Keys == reg.Keys && forall s :: s in reg && s != svc ==> reg'[s] == reg[s]
  {
    ReissueLeavesRegistry(p.ns, svc);
    hide Reissue, ParseUrl;
  }

  lemma ReissueLeavesRegistry(ns: Ns, svc: string)
    ensures forall d :: Reissue(ns, svc, d).1.registry == ns.registry
  {
    hide Attempts, ParseUrl;
  }

  lemma {:induction false} UrlSeen(p: Progress, svc: string, results: seq<BindResult>, tcpSession: bool)
    requires svc in p.ns.registry && p.hsUrl
    ensures ReportAll(p, svc, results, tcpSession).hsUrl
    decreases |results|
  {
    if results != [] {
      hide Reissue, ParseUrl;
      UrlSeen(ReportItem(p, svc, results[0], tcpSession), svc, results[1..], tcpSession);
    }
  }

  lemma {:induction false} HeldSame(addrs: seq<Desc>, addrs': seq<Desc>, results: seq<BindResult>, held: bool)
    requires forall k :: 0 <= k < |results| ==>
               var url := results[k].request;
               IndexOfUrl(addrs, url).Some? && IndexOfUrl(addrs', url).Some? && DescOf(addrs', url) == DescOf(addrs, url)
    ensures HeldAfter(addrs, results, held) == HeldAfter(addrs', results, held)
    decreases |results|
  {
    if results != [] {
      HeldSame(addrs, addrs', results[1..], HeldNext(DescOf(addrs, results[0].request), results[0], held));
    }
  }

  lemma RequestedFound(addrs: seq<Desc>, results: seq<BindResult>)
    requires AsRequested(addrs, results)
    ensures forall k :: 0 <= k < |results| ==> IndexOfUrl(addrs, results[k].request).Some?
  {
    forall k | 0 <= k < |results| ensures IndexOfUrl(addrs, results[k].request).Some? {
      assert HasUrl(addrs, results[k].request);
    }
  }

  /** If the report binds no address to reach the host server by, it holds its own IPC URL afterwards as told from the table before. */
  lemma {:induction false} OwnIpcAfter(p: Progress, results: seq<BindResult>, tcpSession: bool)
    requires Valid(p.ns) && HOST_SERVER in p.ns.registry && FreeElsewhere(p.ns.registry, HOST_SERVER, HOST_SERVER_IPC.url)
    requires AsRequested(p.ns.registry[HOST_SERVER].addrs, results)
    requires !ReportAll(p, HOST_SERVER, results, tcpSession).hsUrl
    ensures var addrs, url := p.ns.registry[HOST_SERVER].addrs, HOST_SERVER_IPC.url;
            HasUrl(ReportAll(p, HOST_SERVER, results, tcpSession).ns.registry[HOST_SERVER].addrs, url) <==>
            HeldAfter(addrs, results, HasUrl(addrs, url))
    decreases |results|
  {
    var addrs := p.ns.registry[HOST_SERVER].addrs;
    RequestedFound(addrs, results);
    if results != [] {
      var p1, rest := ReportItem(p, HOST_SERVER, results[0], tcpSession), results[1..];
      if p1.hsUrl {
        UrlSeen(p1, HOST_SERVER, rest, tcpSession);
      }
      RequestedItem(p, HOST_SERVER, results[0], tcpSession);
      ItemKeepsIff(p, HOST_SERVER, results[0], tcpSession);
      OwnIpcItem(p, results[0], tcpSession);
      ItemLeavesOthers(p, HOST_SERVER, results[0], tcpSession);
      FreeElsewhereSame(p.ns.registry, p1.ns.registry, HOST_SERVER, HOST_SERVER_IPC.url);
      hide Valid, ReportItem, ItemSafe, FreeElsewhere, HeldNext;
      var addrs1 := p1.ns.registry[HOST_SERVER].addrs;
      forall k | 0 <= k < |rest|
        ensures IndexOfUrl(addrs, rest[k].request).Some? && IndexOfUrl(addrs1, rest[k].request).Some?
        ensures DescOf(addrs1, rest[k].request) == DescOf(addrs, rest[k].request)
      {
        assert rest[k] == results[k + 1];
        ItemKeepsDesc(p, HOST_SERVER, results[0], tcpSession, rest[k].request);
      }
      OwnIpcAfter(p1, rest, tcpSession);
      HeldSame(addrs, addrs1, rest, HasUrl(addrs1, HOST_SERVER_IPC.url));
    }
  }

  lemma FreeElsewhereSame(reg: Table, reg': Table, svc: string, url: string)
    requires reg'.Keys == reg.Keys && forall s :: s in reg && s != svc ==> reg'[s] == reg[s]
    ensures FreeElsewhere(reg, svc, url) <==> FreeElsewhere(reg', svc, url)
  {
    assert forall s, i :: s != svc ==> (IsAt(reg, s, i) <==> IsAt(reg', s, i));
  }

  /** The URL is used by no other service. */
  ghost predicate FreeElsewhere(reg: Table, svc: string, url: string) {
    forall s, i :: IsAt(reg, s, i) && s != svc ==> UrlAt(reg, s, i) != url
  }

  /**
   Told from the state before the report: when the fallback is reached, URLs stay unique
   exactly if no other service has the host server's IPC URL and the host server does not
   hold it after the items. It does if it held it and did not report it as failed, or if
   another of its IPC addresses failed with retries left while the URL was free.
   */
  lemma FallbackUniqueIffBefore(ns: Ns, sid: int, results: seq<BindResult>, tcpSession: bool)
    requires Valid(ns) && FallbackTaken(ns, HOST_SERVER, sid, results, tcpSession)
    requires AsRequested(ns.registry[HOST_SERVER].addrs, results)
    ensures var reg, url := ns.registry, HOST_SERVER_IPC.url;
            var addrs := reg[HOST_SERVER].addrs;
            UrlsUnique(Report(ns, HOST_SERVER, sid, results, tcpSession).registry) <==>
            FreeElsewhere(reg, HOST_SERVER, url) && !HeldAfter(addrs, results, HasUrl(addrs, url))
  {
    var p := StartReport(ns, HOST_SERVER, sid);
    var p' := ReportAll(p, HOST_SERVER, results, tcpSession);
    var reg, url := ns.registry, HOST_SERVER_IPC.url;
    assert !p'.hsUrl && p.ns.registry.Keys == reg.Keys && p.ns.registry[HOST_SERVER].addrs == reg[HOST_SERVER].addrs;
    hide Valid, ReportAll, ReportSafe, FallbackTaken, FreeElsewhere, HeldAfter, Unused, UrlsUnique, Report, AsRequested, HasUrl;
    StartKeeps(ns, HOST_SERVER, sid);
    FallbackUniqueIff(ns, sid, results, tcpSession);
    ItemsLeaveOthers(p, HOST_SERVER, results, tcpSession);
    FreeElsewhereSame(reg, p.ns.registry, HOST_SERVER, url);
    UnusedParts(p.ns.registry, p'.ns.registry, HOST_SERVER, url);
    if FreeElsewhere(reg, HOST_SERVER, url) {
      OwnIpcAfter(p, results, tcpSession);
    }
  }

  lemma UnusedParts(reg: Table, reg': Table, svc: string, url: string)
    requires svc in reg && reg'.Keys == reg.Keys && forall s :: s in reg && s != svc ==> reg'[s] == reg[s]
    ensures Unused(reg', url) <==> FreeElsewhere(reg, svc, url) && !HasUrl(reg'[svc].addrs, url)
  {
    if Unused(reg', url) {
      forall s, i | IsAt(reg, s, i) && s != svc ensures UrlAt(reg, s, i) != url {
        assert IsAt(reg', s, i);
      }
      forall i | 0 <= i < |reg'[svc].addrs| ensures reg'[svc].addrs[i].addr.url != url {
        assert IsAt(reg', svc, i) && UrlAt(reg', svc, i) != url;
      }
    }
    if FreeElsewhere(reg, svc, url) && !HasUrl(reg'[svc].addrs, url) {
      forall s, i | IsAt(reg', s, i) ensures UrlAt(reg', s, i) != url {
        assert s != svc ==> IsAt(reg, s, i);
      }
    }
  }

  /** It fails for instance when an empty report meets a pending IPC address. */
  lemma FallbackDuplicates() returns (ns: Ns)
    ensures Valid(ns) && HOST_SERVER in ns.registry && AsRequested(ns.registry[HOST_SERVER].addrs, [])
    ensures !UrlsUnique(Report(ns, HOST_SERVER, 1, [], false).registry)
  {
    var reg := map[HOST_SERVER := Entry(1, [Desc(Pending, HOST_SERVER_IPC, 0)])];
    ns := Ns(reg, map[], IpcAllocator(0));
    assert ValidTable(reg);
    var reg' := Report(ns, HOST_SERVER, 1, [], false).registry;
    assert reg'[HOST_SERVER].addrs == [Desc(Pending, HOST_SERVER_IPC, 0), Desc(Free, HOST_SERVER_IPC, 0)];
    assert IsAt(reg', HOST_SERVER, 0) && IsAt(reg', HOST_SERVER, 1);
    assert UrlAt(reg', HOST_SERVER, 0) == UrlAt(reg', HOST_SERVER, 1);
  }
}
