/**
 Socket addresses and their URLs: CFdbSocketAddr, the URL builders and
 CBaseSocketFactory::parseUrl, with the round trip between them.
 */
module Addresses {
  import opened Common

  datatype SocketKind = Tcp | Ipc | Svc

  datatype Address = Address(kind: SocketKind, host: string, port: int, url: string)

  // ------------------------------------------------------------------ decimals

  function Digit(d: int): char
    requires 0 <= d < 10
  {
    "0123456789"[d]
  }

  predicate IsDigit(c: char) { '0' <= c <= '9' }

  function DigitValue(c: char): int
    requires IsDigit(c)
  {
    c as int - '0' as int
  }

  lemma DigitRoundTrip(d: int)
    requires 0 <= d < 10
    ensures IsDigit(Digit(d)) && DigitValue(Digit(d)) == d
  {
    assert Digit(d) == ('0' as int + d) as char by {
      assert d == 0 || d == 1 || d == 2 || d == 3 || d == 4 || d == 5 || d == 6 || d == 7 || d == 8 || d == 9;
    }
  }

  /** sprintf("%u"). */
  function Decimal(n: nat): string {
    if n < 10 then [Digit(n)] else Decimal(n / 10) + [Digit(n % 10)]
  }

  predicate AllDigits(s: string) {
    forall i :: 0 <= i < |s| ==> IsDigit(s[i])
  }

  function DigitsValue(s: string): nat
    requires AllDigits(s)
  {
    if s == [] then 0 else DigitsValue(s[..|s| - 1]) * 10 + DigitValue(s[|s| - 1])
  }

  lemma {:induction false} DecimalRoundTrip(n: nat)
    ensures AllDigits(Decimal(n)) && |Decimal(n)| > 0 && DigitsValue(Decimal(n)) == n
  {
    DigitRoundTrip(n % 10);
    if n < 10 {
      assert Decimal(n)[..0] == [];
      DigitRoundTrip(n);
    } else {
      DecimalRoundTrip(n / 10);
      assert Decimal(n)[..|Decimal(n)| - 1] == Decimal(n / 10);
    }
  }

  /** The longest prefix of digits. */
  function DigitPrefix(s: string): (p: string)
    ensures AllDigits(p)
  {
    if s != [] && IsDigit(s[0]) then [s[0]] + DigitPrefix(s[1..]) else []
  }

  lemma {:induction false} DigitPrefixAll(s: string)
    requires AllDigits(s)
    ensures DigitPrefix(s) == s
  {
    if s != [] {
      DigitPrefixAll(s[1..]);
    }
  }

  function SkipSpaces(s: string): string {
    if s != [] && (s[0] == ' ' || '\t' <= s[0] <= '\r') then SkipSpaces(s[1..]) else s
  }

  /** atoi, without the overflow that C leaves undefined. */
  function Atoi(s: string): int {
    var t := SkipSpaces(s);
    if t != [] && t[0] == '-' then 0 - DigitsValue(DigitPrefix(t[1..]))
    else if t != [] && t[0] == '+' then DigitsValue(DigitPrefix(t[1..]))
    else DigitsValue(DigitPrefix(t))
  }

  lemma AtoiDecimal(n: nat)
    ensures Atoi(Decimal(n)) == n
  {
    DecimalRoundTrip(n);
    DigitPrefixAll(Decimal(n));
    assert IsDigit(Decimal(n)[0]);
    assert SkipSpaces(Decimal(n)) == Decimal(n);
  }

  // ------------------------------------------------------------------- builders

  function TcpUrl(ip: string, port: nat): string {
    "tcp://" + ip + ":" + Decimal(port)
  }

  function TcpAddress(ip: string, port: nat): Address {
    Address(Tcp, ip, port, TcpUrl(ip, port))
  }

  function IpcAddress(path: string): Address {
    Address(Ipc, path, 0, "ipc://" + path)
  }

  /** An address whose URL is the one built from its parts. */
  predicate WellFormed(a: Address) {
    match a.kind
    case Tcp => a.port >= 0 && a == TcpAddress(a.host, a.port)
    case Ipc => a == IpcAddress(a.host)
    case Svc => false
  }

  // --------------------------------------------------------------------- parser

  /** Position of the first occurrence of `pat`, at or after `i`. */
  function FindFrom(s: string, pat: string, i: nat): (r: Option<nat>)
    requires i <= |s|
    ensures r.Some? ==> i <= r.value && r.value + |pat| <= |s| && s[r.value..r.value + |pat|] == pat
    decreases |s| - i
  {
    if i + |pat| > |s| then None
    else if s[i..i + |pat|] == pat then Some(i)
    else if i == |s| then None
    else FindFrom(s, pat, i + 1)
  }

  /** strrchr for ':'. */
  function LastColon(s: string): (r: Option<nat>)
    ensures r.Some? ==> r.value < |s| && s[r.value] == ':'
  {
    if s == [] then None
    else if s[|s| - 1] == ':' then Some(|s| - 1)
    else LastColon(s[..|s| - 1])
  }

  predicate Bracketed(s: string) {
    |s| >= 2 && s[0] == '[' && s[|s| - 1] == ']'
  }

  function StripBrackets(s: string): string {
    if Bracketed(s) then s[1..|s| - 1] else s
  }

  /** The port of a TCP URL, cut to 16 bits; zero must be spelled out. */
  function ParsePort(s: string): Option<int> {
    if s == "*" || s == "0" then Some(0)
    else
      Port16(Atoi(s))
  }

  function Port16(n: int): Option<int> {
    if n % 0x1_0000 == 0 then None else Some(n % 0x1_0000)
  }

  function ParseUrl(url: string): Option<Address> {
    var sep := FindFrom(url, "://", 0);
    if sep == None then None
    else
      var protocol := url[..sep.value];
      var rest := url[sep.value + 3..];
      if protocol == "" || rest == "" then None
      else if protocol == "tcp" then
        var colon := LastColon(rest);
        if colon == None then None
        else
          var port := ParsePort(rest[colon.value + 1..]);
          if port == None then None
          else Some(Address(Tcp, StripBrackets(rest[..colon.value]), port.value, url))
      else if protocol == "ipc" then Some(Address(Ipc, rest, 0, url))
      else if protocol == "svc" then Some(Address(Svc, rest, 0, url))
      else None
  }

  // --------------------------------------------------------------------- lemmas

  lemma {:induction false} LastColonOfPort(ip: string, digits: string)
    requires AllDigits(digits)
    ensures LastColon(ip + ":" + digits) == Some(|ip|)
  {
    var s := ip + ":" + digits;
    if digits != [] {
      var n := |digits| - 1;
      LastColonOfPort(ip, digits[..n]);
      assert s[..|s| - 1] == ip + ":" + digits[..n];
      assert s[|s| - 1] == digits[n];
      assert IsDigit(digits[n]);
    }
  }

  /** A URL starting with a three-letter protocol has its separator at position 3. */
  lemma SeparatorAt3(url: string)
    requires |url| >= 6 && url[3..6] == "://"
    requires url[0] != ':' && url[1] != ':' && url[2] != ':'
    ensures FindFrom(url, "://", 0) == Some(3)
  {
    assert "://"[0] == ':';
    assert url[0..3][0] == url[0] && url[1..4][0] == url[1] && url[2..5][0] == url[2];
    assert FindFrom(url, "://", 3) == Some(3);
    assert FindFrom(url, "://", 2) == FindFrom(url, "://", 3);
    assert FindFrom(url, "://", 1) == FindFrom(url, "://", 2);
  }

  lemma TcpUrlParts(ip: string, port: nat)
    ensures var url := TcpUrl(ip, port);
            && |url| >= 6 && url[..3] == "tcp" && url[3..6] == "://" && url[6..] == ip + ":" + Decimal(port)
            && FindFrom(url, "://", 0) == Some(3)
            && LastColon(url[6..]) == Some(|ip|)
  {
    var url := TcpUrl(ip, port);
    assert url == "tcp" + "://" + (ip + ":" + Decimal(port));
    assert url[..3] == "tcp" && url[3..6] == "://" && url[6..] == ip + ":" + Decimal(port);
    assert url[0] == 't' && url[1] == 'c' && url[2] == 'p';
    SeparatorAt3(url);
    DecimalRoundTrip(port);
    LastColonOfPort(ip, Decimal(port));
  }

  /** Distinct interfaces or ports give distinct URLs. */
  lemma TcpUrlInjective(ip: string, port: nat, ip': string, port': nat)
    requires TcpUrl(ip, port) == TcpUrl(ip', port')
    ensures ip == ip' && port == port'
  {
    TcpUrlParts(ip, port);
    TcpUrlParts(ip', port');
    var rest := TcpUrl(ip, port)[6..];
    assert rest[..|ip|] == ip && rest[..|ip|] == ip';
    assert rest[|ip| + 1..] == Decimal(port) && rest[|ip| + 1..] == Decimal(port');
    DecimalRoundTrip(port);
    DecimalRoundTrip(port');
  }

  lemma KindsDiffer(ip: string, port: nat, path: string)
    ensures TcpUrl(ip, port) != IpcAddress(path).url
  {
    assert TcpUrl(ip, port) == "tcp://" + (ip + ":" + Decimal(port));
    assert TcpUrl(ip, port)[0] == 't' && IpcAddress(path).url[0] == 'i';
  }

  /** The URL determines a well-formed address. */
  lemma UrlDeterminesAddress(a: Address, b: Address)
    requires WellFormed(a) && WellFormed(b) && a.url == b.url
    ensures a == b
  {
    if a.kind == Tcp && b.kind == Tcp {
      TcpUrlInjective(a.host, a.port, b.host, b.port);
    } else if a.kind == Ipc && b.kind == Ipc {
      assert a.url[6..] == a.host && b.url[6..] == b.host;
    } else if a.kind == Tcp {
      KindsDiffer(a.host, a.port, b.host);
    } else {
      KindsDiffer(b.host, b.port, a.host);
    }
  }

  lemma NotZero(s: string)
    requires AllDigits(s) && DigitsValue(s) > 0
    ensures s != "0" && s != "*"
  {
    if |s| == 1 {
      assert s[..0] == [];
      assert DigitValue(s[0]) > 0;
    }
  }

  lemma ParsePortValue(s: string, port: nat)
    requires port < 0x1_0000 && Atoi(s) == port && (if port == 0 then s == "0" else s != "*" && s != "0")
    ensures ParsePort(s) == Some(port)
  {
  }

  lemma ParseTcp(url: string, colon: nat, port: int)
    requires |url| >= 6 && url[..3] == "tcp" && FindFrom(url, "://", 0) == Some(3)
    requires LastColon(url[6..]) == Some(colon) && ParsePort(url[6..][colon + 1..]) == Some(port)
    ensures ParseUrl(url) == Some(Address(Tcp, StripBrackets(url[6..][..colon]), port, url))
  {
  }

  /**
   Parsing the URL of a TCP address gives the address back exactly when its
   interface is not written in square brackets.
   */
  lemma TcpParseBuild(ip: string, port: nat)
    requires port < 0x1_0000
    ensures ParseUrl(TcpUrl(ip, port)) == Some(Address(Tcp, StripBrackets(ip), port, TcpUrl(ip, port)))
    ensures ParseUrl(TcpUrl(ip, port)) == Some(TcpAddress(ip, port)) <==> !Bracketed(ip)
  {
    assert Decimal(0) == "0";
    hide Decimal, FindFrom, LastColon, ParsePort, Atoi;
    TcpUrlParts(ip, port);
    var url := TcpUrl(ip, port);
    assert url[6..][..|ip|] == ip && url[6..][|ip| + 1..] == Decimal(port);
    DecimalRoundTrip(port);
    AtoiDecimal(port);
    if port > 0 {
      NotZero(Decimal(port));
    }
    ParsePortValue(Decimal(port), port);
    ParseTcp(url, |ip|, port);
  }

  lemma IpcParseBuild(path: string)
    requires path != ""
    ensures ParseUrl(IpcAddress(path).url) == Some(IpcAddress(path))
  {
    var url := IpcAddress(path).url;
    assert url == "ipc" + "://" + path;
    assert url[..3] == "ipc" && url[3..6] == "://" && url[6..] == path;
    assert url[0] == 'i' && url[1] == 'p' && url[2] == 'c';
    SeparatorAt3(url);
  }

  /** Beyond 16 bits only the low 16 count, and a port that leaves zero there is not accepted. */
  lemma TcpParseCut(ip: string, port: nat)
    ensures ParseUrl(TcpUrl(ip, port)) ==
            if port > 0 && port % 0x1_0000 == 0 then None
            else Some(Address(Tcp, StripBrackets(ip), port % 0x1_0000, TcpUrl(ip, port)))
  {
    hide Decimal, FindFrom, LastColon, Atoi, ParseUrl, ParsePort, TcpUrl;
    if port < 0x1_0000 {
      TcpParseBuild(ip, port);
    } else {
      TcpUrlParts(ip, port);
      var url := TcpUrl(ip, port);
      assert url[6..][..|ip|] == ip && url[6..][|ip| + 1..] == Decimal(port);
      DecimalRoundTrip(port);
      AtoiDecimal(port);
      NotZero(Decimal(port));
      PortCut(Decimal(port), port);
      if port % 0x1_0000 == 0 {
        NoPort(url, |ip|);
      } else {
        ParseTcp(url, |ip|, port % 0x1_0000);
      }
    }
  }

  lemma PortCut(s: string, n: nat)
    requires Atoi(s) == n && s != "*" && s != "0"
    ensures ParsePort(s) == if n % 0x1_0000 == 0 then None else Some(n % 0x1_0000)
  {
    hide Atoi;
  }

  lemma NoPort(url: string, colon: nat)
    requires |url| >= 6 && url[..3] == "tcp" && FindFrom(url, "://", 0) == Some(3)
    requires LastColon(url[6..]) == Some(colon) && ParsePort(url[6..][colon + 1..]) == None
    ensures ParseUrl(url) == None
  {
    hide ParsePort;
  }

  /** The wildcard port is zero. */
  lemma WildcardPort(host: string)
    ensures ParseUrl("tcp://" + host + ":*") == Some(Address(Tcp, StripBrackets(host), 0, "tcp://" + host + ":*"))
  {
    var url := "tcp://" + host + ":*";
    assert url == "tcp" + "://" + (host + ":*");
    assert url[..3] == "tcp" && url[3..6] == "://" && url[6..] == host + ":*";
    assert url[0] == 't' && url[1] == 'c' && url[2] == 'p';
    SeparatorAt3(url);
    var rest := url[6..];
    assert rest[..|rest| - 1] == host + ":" && rest[|rest| - 1] == '*';
    assert LastColon(host + ":") == Some(|host|);
    assert LastColon(rest) == Some(|host|);
    assert rest[|host| + 1..] == "*" && rest[..|host|] == host;
    ParseTcp(url, |host|, 0);
  }

  lemma {:induction false} NoColon(s: string)
    requires ':' !in s
    ensures LastColon(s) == None
  {
    if s != [] {
      assert s[|s| - 1] in s;
      NoColon(s[..|s| - 1]);
    }
  }

  /** Service URLs are named, a TCP URL needs a port, and nothing follows from an empty one. */
  lemma OtherUrls(name: string)
    ensures name != "" ==> ParseUrl("svc://" + name) == Some(Address(Svc, name, 0, "svc://" + name))
    ensures ':' !in name ==> ParseUrl("tcp://" + name) == None
    ensures ParseUrl("svc://") == None && ParseUrl("ipc://") == None
  {
    hide ParseUrl, LastColon;
    assert "svc" + "://" + name == "svc://" + name && "tcp" + "://" + name == "tcp://" + name;
    assert "svc" + "://" + "" == "svc://" && "ipc" + "://" + "" == "ipc://";
    ProtocolParses("svc", name);
    ProtocolParses("tcp", name);
    ProtocolParses("svc", "");
    ProtocolParses("ipc", "");
    if ':' !in name {
      NoColon(name);
    }
  }

  lemma ProtocolParses(protocol: string, rest: string)
    requires |protocol| == 3 && ':' !in protocol
    ensures var url := protocol + "://" + rest;
            && (rest == "" ==> ParseUrl(url) == None)
            && (rest != "" && protocol == "svc" ==> ParseUrl(url) == Some(Address(Svc, rest, 0, url)))
            && (protocol == "tcp" && LastColon(rest) == None ==> ParseUrl(url) == None)
  {
    ProtocolParts(protocol, rest);
    hide FindFrom, LastColon, ParsePort;
  }

  lemma ProtocolParts(protocol: string, rest: string)
    requires |protocol| == 3 && ':' !in protocol
    ensures var url := protocol + "://" + rest;
            FindFrom(url, "://", 0) == Some(3) && url[..3] == protocol && url[6..] == rest
  {
    var url := protocol + "://" + rest;
    assert url[..3] == protocol && url[3..6] == "://" && url[6..] == rest;
    assert url[0] == protocol[0] && url[1] == protocol[1] && url[2] == protocol[2];
    assert protocol[0] in protocol && protocol[1] in protocol && protocol[2] in protocol;
    SeparatorAt3(url);
  }
}
