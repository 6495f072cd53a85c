/**
 The service registry and the address allocators of CNameServer, in fixed-port mode
 (ports are handed out by the allocator, not by the system).
 */
module Registry {
  import opened Common
  import opened Addresses

  // ----------------------------------------------------------------- configuration

  const NAME_SERVER := "org.fdbus.name-server"
  const HOST_SERVER := "org.fdbus.host-server"
  const ALL_INTERFACES := "0"

  const HOST_SERVER_PORT := 60000
  const NAME_SERVER_PORT := 60001
  const MIN_PORT := 60002
  const MAX_PORT := 65000
  const PORTS := MAX_PORT - MIN_PORT + 1

  const BIND_RETRIES := 5
  const SPARE_RETRIES := 8

  // -------------------------------------------------------------------- allocators

  datatype SvcType = NameServerSvc | HostServerSvc | UserSvc

  function GetSvcType(svc: string): SvcType {
    if svc == NAME_SERVER then NameServerSvc
    else if svc == HOST_SERVER then HostServerSvc
    else UserSvc
  }

  datatype Allocator = TcpAllocator(ip: string, port: nat) | IpcAllocator(id: nat)

  const NEW_TCP_ALLOCATOR := TcpAllocator("", MIN_PORT)

  function NextPort(port: nat): nat {
    if port + 1 > MAX_PORT then MIN_PORT else port + 1
  }

  /** One call of allocate: the address, and the allocator after it. */
  function Allocate(a: Allocator, t: SvcType): (Address, Allocator) {
    match a
    case TcpAllocator(ip, port) => (
      match t
      case NameServerSvc => (TcpAddress(ip, NAME_SERVER_PORT), a)
      case HostServerSvc => (TcpAddress(ip, HOST_SERVER_PORT), a)
      case UserSvc => (TcpAddress(ip, port), TcpAllocator(ip, NextPort(port)))
    )
    case IpcAllocator(id) => (
      match t
      case NameServerSvc => (IpcAddress("/tmp/fdb-ns"), a)
      case HostServerSvc => (IpcAddress("/tmp/fdb-hs"), a)
      case UserSvc => (IpcAddress("/tmp/fdb-ipc" + Decimal(id)), IpcAllocator((id + 1) % UINT32_SPAN))
    )
  }

  /** setInterfaceIp: only the first call has an effect. */
  function SetInterfaceIp(a: Allocator, ip: string): Allocator
    requires a.TcpAllocator?
  {
    if a.ip == "" then a.(ip := ip) else a
  }

  /**
   The name server and the host server each have one address per interface and one IPC
   address, which no user service is ever offered; they take nothing from the allocator.
   */
  lemma WellKnownAddresses(a: Allocator, user: Allocator)
    requires user.TcpAllocator? ==> MIN_PORT <= user.port <= MAX_PORT
    ensures a.TcpAllocator? ==>
              && Allocate(a, NameServerSvc) == (TcpAddress(a.ip, 60001), a) && Allocate(a, HostServerSvc) == (TcpAddress(a.ip, 60000), a)
    ensures a.IpcAllocator? ==>
              && Allocate(a, NameServerSvc).0.url == "ipc:///tmp/fdb-ns" && Allocate(a, HostServerSvc).0.url == "ipc:///tmp/fdb-hs"
              && Allocate(a, NameServerSvc).1 == Allocate(a, HostServerSvc).1 == a
    ensures forall t :: t != UserSvc ==> Allocate(user, UserSvc).0.url != Allocate(a, t).0.url
  {
    hide Decimal;
    var addr := Allocate(user, UserSvc).0;
    forall t | t != UserSvc ensures addr.url != Allocate(a, t).0.url {
      if a.TcpAllocator? && user.TcpAllocator? {
        if addr.url == Allocate(a, t).0.url {
          TcpUrlInjective(user.ip, user.port, a.ip, if t == NameServerSvc then NAME_SERVER_PORT else HOST_SERVER_PORT);
          assert false;
        }
      } else if a.IpcAllocator? && user.IpcAllocator? {
        assert addr.url[15] == 'i' && Allocate(a, t).0.url[15] != 'i';
      } else {
        assert addr.url[0] != Allocate(a, t).0.url[0];
      }
    }
  }

  /** What a user service is offered next: the port or path the allocator stands at, which moves on by one. */
  lemma UserAddresses(a: Allocator)
    ensures a.TcpAllocator? ==>
              Allocate(a, UserSvc) == (Address(Tcp, a.ip, a.port, "tcp://" + a.ip + ":" + Decimal(a.port)),
                                       TcpAllocator(a.ip, if a.port >= 65000 then 60002 else a.port + 1))
    ensures a.IpcAllocator? ==>
              Allocate(a, UserSvc) == (IpcAddress("/tmp/fdb-ipc" + Decimal(a.id)), IpcAllocator(if a.id + 1 == UINT32_SPAN then 0 else (a.id + 1) % UINT32_SPAN))
  {
  }

  /** The IPC paths of different numbers differ, so only 2^32 allocations later one is offered again. */
  lemma IpcPathsDiffer(id: nat, id': nat)
    ensures IpcAddress("/tmp/fdb-ipc" + Decimal(id)).url == IpcAddress("/tmp/fdb-ipc" + Decimal(id')).url <==> id == id'
  {
    hide Decimal;
    var path, path' := "/tmp/fdb-ipc" + Decimal(id), "/tmp/fdb-ipc" + Decimal(id');
    assert IpcAddress(path).url[6..] == path && IpcAddress(path').url[6..] == path';
    assert path[12..] == Decimal(id) && path'[12..] == Decimal(id');
    DecimalRoundTrip(id);
    DecimalRoundTrip(id');
  }

  // ---------------------------------------------------------------------- registry

  datatype Status = Free | Pending | Bound

  datatype Desc = Desc(status: Status, addr: Address, reconnects: nat)

  datatype Entry = Entry(sid: int, addrs: seq<Desc>)

  type Table = map<string, Entry>

  /** Is there a descriptor of this kind with this URL in one service's table? */
  predicate InTable(addrs: seq<Desc>, kind: SocketKind, url: string) {
    exists i :: 0 <= i < |addrs| && addrs[i].addr.kind == kind && addrs[i].addr.url == url
  }

  /** findAddress over the whole registry. */
  predicate Registered(reg: Table, kind: SocketKind, url: string) {
    exists s :: s in reg && InTable(reg[s].addrs, kind, url)
  }

  /** addressRegistered: this service already has an address on the interface. */
  predicate InterfaceUsed(addrs: seq<Desc>, a: Address) {
    exists i :: 0 <= i < |addrs| && addrs[i].addr.kind == a.kind && addrs[i].addr.host == a.host
  }

  function IndexOfUrl(addrs: seq<Desc>, url: string): (r: Option<nat>)
    ensures r.Some? ==> r.value < |addrs| && addrs[r.value].addr.url == url
    ensures r == None ==> forall i :: 0 <= i < |addrs| ==> addrs[i].addr.url != url
  {
    if addrs == [] then None
    else if addrs[0].addr.url == url then Some(0)
    else
      var r := IndexOfUrl(addrs[1..], url);
      if r.Some? then Some(r.value + 1) else None
  }

  /** allocateAddress with `n` attempts left. */
  function Attempts(reg: Table, a: Allocator, t: SvcType, n: nat): (bool, Address, Allocator)
    requires n > 0
    decreases n
  {
    var (addr, a') := Allocate(a, t);
    if !Registered(reg, addr.kind, addr.url) then (true, addr, a')
    else if t != UserSvc || n == 1 then (false, addr, a')
    else Attempts(reg, a', t, n - 1)
  }

  function Budget(reg: Table): nat {
    |reg| + SPARE_RETRIES - 1
  }

  method AllocateAddress(reg: Table, a: Allocator, t: SvcType) returns (ok: bool, addr: Address, a': Allocator)
    ensures (ok, addr, a') == Attempts(reg, a, t, Budget(reg))
  {
    var retries := |reg| + SPARE_RETRIES;
    a' := a;
    retries := retries - 1;
    while true
      invariant 0 < retries
      invariant Attempts(reg, a', t, retries) == Attempts(reg, a, t, Budget(reg))
      decreases retries
    {
      var r := Allocate(a', t);
      addr, a' := r.0, r.1;
      if !Registered(reg, addr.kind, addr.url) {
        return true, addr, a';
      }
      if t != UserSvc {
        return false, addr, a';
      }
      retries := retries - 1;
      if retries <= 0 {
        break;
      }
    }
    ok := false;
  }

  // -------------------------------------------------------------------- invariants

  predicate IsAt(reg: Table, s: string, i: int) {
    s in reg && 0 <= i < |reg[s].addrs|
  }

  function DescAt(reg: Table, s: string, i: int): Desc
    requires IsAt(reg, s, i)
  {
    reg[s].addrs[i]
  }

  function UrlAt(reg: Table, s: string, i: int): string
    requires IsAt(reg, s, i)
  {
    DescAt(reg, s, i).addr.url
  }

  /** No two descriptors in the whole registry share a URL. */
  ghost predicate UrlsUnique(reg: Table) {
    forall s, i, s', j :: IsAt(reg, s, i) && IsAt(reg, s', j) && UrlAt(reg, s, i) == UrlAt(reg, s', j) ==> s == s' && i == j
  }

  predicate TcpOn(d: Desc, host: string) {
    d.addr.kind == Tcp && d.addr.host == host
  }

  /** No service holds two TCP addresses on one interface. */
  ghost predicate OneTcpPerInterface(reg: Table) {
    forall s, i, j, host :: IsAt(reg, s, i) && IsAt(reg, s, j) && TcpOn(DescAt(reg, s, i), host) && TcpOn(DescAt(reg, s, j), host) ==> i == j
  }

  predicate GoodDesc(d: Desc) {
    WellFormed(d.addr) && d.reconnects <= BIND_RETRIES
  }

  ghost predicate GoodDescs(reg: Table) {
    forall s, i :: IsAt(reg, s, i) ==> GoodDesc(DescAt(reg, s, i))
  }

  ghost predicate ValidTable(reg: Table) {
    GoodDescs(reg) && UrlsUnique(reg) && OneTcpPerInterface(reg)
  }

  predicate ServesKey(a: Allocator, ip: string) {
    a.TcpAllocator? && a.ip == ip && MIN_PORT <= a.port <= MAX_PORT
  }

  predicate ValidTcpAllocator(a: Allocator, ip: string) {
    ServesKey(a, ip) && !Bracketed(ip)
  }

  /** Every allocator hands out addresses of the interface it is filed under. */
  ghost predicate ValidAllocators(tcp: map<string, Allocator>) {
    forall ip :: ip in tcp ==> ValidTcpAllocator(tcp[ip], ip)
  }

  // ------------------------------------------------------- one successful allocation

  lemma {:induction false} AttemptsSound(reg: Table, a: Allocator, t: SvcType, n: nat)
    requires n > 0
    requires a.TcpAllocator? ==> MIN_PORT <= a.port <= MAX_PORT
    ensures var (ok, addr, a') := Attempts(reg, a, t, n);
            && WellFormed(addr)
            && (ok ==> !Registered(reg, addr.kind, addr.url))
            && (a.TcpAllocator? ==>
                && addr.kind == Tcp && addr.host == a.ip && HOST_SERVER_PORT <= addr.port <= MAX_PORT
                && a'.TcpAllocator? && a'.ip == a.ip && MIN_PORT <= a'.port <= MAX_PORT)
            && (a.IpcAllocator? ==> addr.kind == Ipc && addr.host != "" && a'.IpcAllocator?)
    decreases n
  {
    var (addr, a') := Allocate(a, t);
    if Registered(reg, addr.kind, addr.url) && t == UserSvc && n != 1 {
      AttemptsSound(reg, a', t, n - 1);
    }
  }

  /** In a registry of well-formed addresses, not registered means the URL is unused. */
  lemma UnregisteredUnused(reg: Table, a: Address, s: string, i: int)
    requires GoodDescs(reg) && WellFormed(a) && !Registered(reg, a.kind, a.url)
    requires IsAt(reg, s, i)
    ensures UrlAt(reg, s, i) != a.url
  {
    assert !InTable(reg[s].addrs, a.kind, a.url);
    if UrlAt(reg, s, i) == a.url {
      assert GoodDesc(DescAt(reg, s, i));
      UrlDeterminesAddress(DescAt(reg, s, i).addr, a);
      assert false;
    }
  }

  // ------------------------------------------------------------ the retry budget

  /** The ports tried by `n` user allocations starting at `port`. */
  ghost function Tried(port: nat, n: nat): set<nat>
    decreases n
  {
    if n == 0 then {} else {port} + Tried(NextPort(port), n - 1)
  }

  /** How many allocations after `port` the cyclic allocator reaches `q`. */
  function Steps(port: nat, q: nat): int {
    if q >= port then q - port else q - port + PORTS
  }

  lemma {:induction false} TriedMembers(port: nat, n: nat, q: nat)
    requires MIN_PORT <= port <= MAX_PORT && n <= PORTS
    ensures q in Tried(port, n) <==> MIN_PORT <= q <= MAX_PORT && Steps(port, q) < n
    decreases n
  {
    if n > 0 {
      TriedMembers(NextPort(port), n - 1, q);
    }
  }

  lemma {:induction false} TriedCount(port: nat, n: nat)
    requires MIN_PORT <= port <= MAX_PORT && n <= PORTS
    ensures |Tried(port, n)| == n
    decreases n
  {
    if n > 0 {
      TriedCount(NextPort(port), n - 1);
      TriedMembers(NextPort(port), n - 1, port);
    }
  }

  predicate PortTaken(reg: Table, s: string, ip: string, port: nat) {
    s in reg && InTable(reg[s].addrs, Tcp, TcpUrl(ip, port))
  }

  /** A service takes at most one port of an interface. */
  lemma OnePortPerService(reg: Table, s: string, ip: string, p: nat, q: nat)
    requires GoodDescs(reg) && OneTcpPerInterface(reg)
    requires PortTaken(reg, s, ip, p) && PortTaken(reg, s, ip, q)
    ensures p == q
  {
    var i :| 0 <= i < |reg[s].addrs| && reg[s].addrs[i].addr.kind == Tcp && reg[s].addrs[i].addr.url == TcpUrl(ip, p);
    var j :| 0 <= j < |reg[s].addrs| && reg[s].addrs[j].addr.kind == Tcp && reg[s].addrs[j].addr.url == TcpUrl(ip, q);
    assert IsAt(reg, s, i) && IsAt(reg, s, j);
    assert GoodDesc(DescAt(reg, s, i)) && GoodDesc(DescAt(reg, s, j));
    UrlDeterminesAddress(DescAt(reg, s, i).addr, TcpAddress(ip, p));
    UrlDeterminesAddress(DescAt(reg, s, j).addr, TcpAddress(ip, q));
    assert TcpOn(DescAt(reg, s, i), ip) && TcpOn(DescAt(reg, s, j), ip);
  }

  /** Pigeonhole: ports taken on one interface are no more than the services holding them. */
  lemma {:induction false} TakenPorts(reg: Table, ip: string, ports: set<nat>, services: set<string>)
    requires GoodDescs(reg) && OneTcpPerInterface(reg)
    requires forall p :: p in ports ==> exists s :: s in services && PortTaken(reg, s, ip, p)
    ensures |ports| <= |services|
    decreases ports
  {
    if ports != {} {
      var p := Member(ports);
      var s :| s in services && PortTaken(reg, s, ip, p);
      forall q | q in ports - {p} ensures exists s' :: s' in services - {s} && PortTaken(reg, s', ip, q) {
        var s' :| s' in services && PortTaken(reg, s', ip, q);
        if s' == s {
          OnePortPerService(reg, s, ip, p, q);
        }
      }
      TakenPorts(reg, ip, ports - {p}, services - {s});
    }
  }

  /** If every attempt fails, every port tried is taken. */
  lemma {:induction false} FailureTakesAll(reg: Table, ip: string, port: nat, n: nat)
    requires n > 0 && MIN_PORT <= port <= MAX_PORT
    requires !Attempts(reg, TcpAllocator(ip, port), UserSvc, n).0
    ensures forall p :: p in Tried(port, n) ==> exists s :: s in reg.Keys && PortTaken(reg, s, ip, p)
    decreases n
  {
    if n > 1 {
      FailureTakesAll(reg, ip, NextPort(port), n - 1);
    } else {
      assert Tried(NextPort(port), 0) == {};
    }
    assert Registered(reg, Tcp, TcpUrl(ip, port));
    var s :| s in reg && InTable(reg[s].addrs, Tcp, TcpUrl(ip, port));
    assert PortTaken(reg, s, ip, port);
  }

  /** Fewer attempts cannot succeed where more fail. */
  lemma {:induction false} FewerAttempts(reg: Table, a: Allocator, t: SvcType, m: nat, n: nat)
    requires 0 < m <= n && !Attempts(reg, a, t, n).0
    ensures !Attempts(reg, a, t, m).0
    decreases m
  {
    if m > 1 && t == UserSvc {
      FewerAttempts(reg, Allocate(a, t).1, t, m - 1, n - 1);
    }
  }

  /**
   The retry budget suffices: with at most one address per service and interface and
   fewer services than ports, a user service always gets an unused port.
   */
  lemma BudgetSuffices(reg: Table, ip: string, port: nat)
    requires ValidTable(reg) && MIN_PORT <= port <= MAX_PORT && |reg| < PORTS
    ensures Attempts(reg, TcpAllocator(ip, port), UserSvc, Budget(reg)).0
  {
    var n := if Budget(reg) <= PORTS then Budget(reg) else PORTS;
    assert |reg.Keys| == |reg|;
    if !Attempts(reg, TcpAllocator(ip, port), UserSvc, Budget(reg)).0 {
      FewerAttempts(reg, TcpAllocator(ip, port), UserSvc, n, Budget(reg));
      FailureTakesAll(reg, ip, port, n);
      TriedCount(port, n);
      TakenPorts(reg, ip, Tried(port, n), reg.Keys);
      assert false;
    }
  }
}
