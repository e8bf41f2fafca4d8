/**
 * The shared functions of utils.php: client address extraction, the
 * local-range classifier, the external-IP lookup, the IP information
 * fetch and the four-step hostname resolver. (`enforceRateLimit` is in
 * module RateLimit.)
 */
module Utils {
  import opened Php
  import opened Chains
  import opened Patterns

  // ---------------------------------------------------------------- isLocalIP

  /** The pattern table of `isLocalIP`, in its order. */
  const LocalIPRanges: seq<Pattern> := [
    Prefix("192.168."),
    Prefix("10."),
    Private172,
    Prefix("127."),
    Prefix("169.254."),
    Exact("::1"),
    Prefix("fc00::")
  ]

  predicate IsLocal(ip: string) {
    AnyMatches(LocalIPRanges, ip)
  }

  /** `isLocalIP`: tries the patterns in order and stops at the first match. */
  method IsLocalIP(ip: string) returns (local: bool)
    ensures local == IsLocal(ip)
  {
    var i := 0;
    while i < |LocalIPRanges|
      invariant 0 <= i <= |LocalIPRanges|
      invariant forall j :: 0 <= j < i ==> !Matches(LocalIPRanges[j], ip)
    {
      if Matches(LocalIPRanges[i], ip) {
        return true;
      }
      i := i + 1;
    }
    return false;
  }

  /** The pattern table read one pattern at a time. */
  lemma IsLocalCases(ip: string)
    ensures IsLocal(ip) <==>
              || StartsWith(ip, "192.168.")
              || StartsWith(ip, "10.")
              || Matches(Private172, ip)
              || StartsWith(ip, "127.")
              || StartsWith(ip, "169.254.")
              || ip == "::1"
              || StartsWith(ip, "fc00::")
  {
    if IsLocal(ip) {
      var i :| 0 <= i < |LocalIPRanges| && Matches(LocalIPRanges[i], ip);
      if i == 0 {} else if i == 1 {} else if i == 2 {} else if i == 3 {} else if i == 4 {} else if i == 5 {} else {}
    } else {
      assert !Matches(LocalIPRanges[0], ip) && !Matches(LocalIPRanges[1], ip) && !Matches(LocalIPRanges[2], ip);
      assert !Matches(LocalIPRanges[3], ip) && !Matches(LocalIPRanges[4], ip);
      assert !Matches(LocalIPRanges[5], ip) && !Matches(LocalIPRanges[6], ip);
    }
  }

  /**
   * The classifier in plain terms: the IPv4 prefixes 192.168., 10.,
   * 172.16. to 172.31., 127. and 169.254., exactly "::1", and the literal
   * prefix "fc00::".
   */
  lemma IsLocalMeaning(ip: string)
    ensures IsLocal(ip) <==>
              || StartsWith(ip, "192.168.")
              || StartsWith(ip, "10.")
              || (exists n :: 16 <= n < 32 && StartsWith(ip, "172." + TwoDigits(n) + "."))
              || StartsWith(ip, "127.")
              || StartsWith(ip, "169.254.")
              || ip == "::1"
              || StartsWith(ip, "fc00::")
  {
    IsLocalCases(ip);
    Private172Range(ip);
  }

  /** An address no pattern of the table matches is not local. */
  lemma NotLocal(ip: string)
    requires !StartsWith(ip, "192.168.") && !StartsWith(ip, "10.") && !Matches(Private172, ip)
    requires !StartsWith(ip, "127.") && !StartsWith(ip, "169.254.") && ip != "::1" && !StartsWith(ip, "fc00::")
    ensures !IsLocal(ip)
  {
    forall i | 0 <= i < |LocalIPRanges|
      ensures !Matches(LocalIPRanges[i], ip)
    {
      if i == 0 {} else if i == 1 {} else if i == 2 {} else if i == 3 {} else if i == 4 {} else if i == 5 {} else {}
    }
  }

  /** The edges of the 172 block that are inside it: 172.16. and 172.31. */
  lemma Local172Edges()
    ensures IsLocal("172.16.0.1") && IsLocal("172.31.255.255")
  {
    assert Matches(LocalIPRanges[2], "172.16.0.1");
    assert Matches(LocalIPRanges[2], "172.31.255.255");
  }

  /** The neighbours just outside the 172 block, 172.15. and 172.32., are not local. */
  lemma Outside172NotLocal()
    ensures !IsLocal("172.15.0.1") && !IsLocal("172.32.0.1")
  {
    NotLocal("172.15.0.1");
    NotLocal("172.32.0.1");
  }

  /** The IPv6 loopback and an address under the literal prefix "fc00::" are local. */
  lemma LocalIPv6Edges()
    ensures IsLocal("::1") && IsLocal("fc00::1")
  {
    assert Matches(LocalIPRanges[5], "::1");
    StartsWithConcat("fc00::", "1");
    assert "fc00::" + "1" == "fc00::1";
    assert Matches(LocalIPRanges[6], "fc00::1");
  }

  /**
   * The IPv6 tests are the exact string "::1" and the literal prefix
   * "fc00::": a longer string starting with "::1" and unique-local
   * addresses outside that prefix (fc00::/7 also holds fc01:: and fd00::)
   * are not local.
   */
  lemma IPv6NeighboursNotLocal()
    ensures !IsLocal("::12") && !IsLocal("fc01::1")
  {
    NotLocal("::12");
    NotLocal("fc01::1");
  }

  lemma FdBlockNotLocal()
    ensures !IsLocal("fd00::1")
  {
    NotLocal("fd00::1");
  }

  lemma PublicAddressesNotLocal()
    ensures !IsLocal("8.8.8.8") && !IsLocal("203.0.113.9")
  {
    NotLocal("8.8.8.8");
    NotLocal("203.0.113.9");
  }

  lemma PublicIPv6NotLocal()
    ensures !IsLocal("2001:4860:4860::8888")
  {
    NotLocal("2001:4860:4860::8888");
  }

  // -------------------------------------------------------------- getClientIP

  const TrustedProxies: seq<string> := ["127.0.0.1"]
  const UnknownClient := "0.0.0.0"

  /** `trim(explode(',', $header)[0])`: the first entry of an X-Forwarded-For header. */
  function ForwardedEntry(header: string): (r: string)
    ensures ',' !in r
    ensures |r| > 0 ==> !IsTrimChar(r[0]) && !IsTrimChar(r[|r| - 1])
  {
    var first := Split(header, ',')[0];
    TrimKeepsOut(first, ',');
    Trim(first)
  }

  lemma {:induction false} ForwardedEntryIsFirst(first: string, rest: string)
    requires ',' !in first
    ensures ForwardedEntry(first + [','] + rest) == Trim(first)
    ensures ForwardedEntry(first) == Trim(first)
  {
    SplitCons(first, rest, ',');
    SplitNoDelimiter(first, ',');
  }

  /**
   * `getClientIP`, given REMOTE_ADDR and the X-Forwarded-For header (None
   * when unset). The forwarded entry is honoured only when the peer is a
   * trusted proxy and the entry is a valid address; otherwise the peer
   * address if valid, else "0.0.0.0".
   */
  function GetClientIP(net: Net, remoteAddr: Option<string>, forwardedFor: Option<string>): (ip: string)
    ensures ip == UnknownClient || net.valid(ip)
    ensures (remoteAddr.Some? && remoteAddr.value in TrustedProxies && forwardedFor.Some? &&
             net.valid(ForwardedEntry(forwardedFor.value))) ==> ip == ForwardedEntry(forwardedFor.value)
    ensures ip != UnknownClient && (remoteAddr.None? || ip != remoteAddr.value) ==>
              forwardedFor.Some? && remoteAddr == Some("127.0.0.1") && ip == ForwardedEntry(forwardedFor.value)
    ensures !(remoteAddr.Some? && remoteAddr.value in TrustedProxies && forwardedFor.Some? &&
              net.valid(ForwardedEntry(forwardedFor.value))) ==>
              ip == (if remoteAddr.Some? && net.valid(remoteAddr.value) then remoteAddr.value else UnknownClient)
  {
    var clientIP := if remoteAddr.Some? then remoteAddr.value else UnknownClient;
    if forwardedFor.Some? && clientIP in TrustedProxies && net.valid(ForwardedEntry(forwardedFor.value)) then
      ForwardedEntry(forwardedFor.value)
    else if !net.valid(clientIP) then
      UnknownClient
    else
      clientIP
  }

  /** A peer that is not a trusted proxy cannot change the result through the header. */
  lemma UntrustedPeerIgnoresHeader(net: Net, remoteAddr: Option<string>, h1: Option<string>, h2: Option<string>)
    requires remoteAddr != Some("127.0.0.1")
    ensures GetClientIP(net, remoteAddr, h1) == GetClientIP(net, remoteAddr, h2)
    ensures GetClientIP(net, remoteAddr, h1) ==
              if remoteAddr.Some? && net.valid(remoteAddr.value) then remoteAddr.value else UnknownClient
  {
  }

  // ------------------------------------------------------------ getExternalIP

  /** The fixed endpoint list, in priority order. */
  const ExternalApis: seq<string> := [
    "https://api.ipify.org?format=json",
    "https://ipinfo.io/json",
    "https://api.ip.sb/jsonip",
    "https://api.myip.com"
  ]

  const ExternalFailure := "Failed to retrieve external IP address"

  /**
   * What one endpoint contributes: its `ip` field if valid, else its
   * `query` field if valid, provided the reply is HTTP 200 with a
   * non-empty body that is valid JSON.
   */
  function Accept(net: Net, url: string): (r: Option<string>)
    ensures r.Some? ==> net.valid(r.value)
    ensures net.http(url).code != 200 || Empty(net.http(url).body) || net.json(net.http(url).body).None? ==> r.None?
    ensures r.Some? ==> var data := net.json(net.http(url).body).value;
              ("ip" in data && r.value == data["ip"]) || ("query" in data && r.value == data["query"])
  {
    var reply := net.http(url);
    if reply.code == 200 && !Empty(reply.body) then
      match net.json(reply.body)
      case None => None
      case Some(data) =>
        if "ip" in data && net.valid(data["ip"]) then Some(data["ip"])
        else if "query" in data && net.valid(data["query"]) then Some(data["query"])
        else None
    else None
  }

  function Acceptor(net: Net): string -> Option<string> {
    url => Accept(net, url)
  }

  /** A valid `ip` field wins over the `query` field of the same answer. */
  lemma IpPreferredOverQuery(net: Net, url: string, data: Fields)
    requires net.http(url).code == 200 && !Empty(net.http(url).body)
    requires net.json(net.http(url).body) == Some(data)
    requires "ip" in data && net.valid(data["ip"])
    ensures Accept(net, url) == Some(data["ip"])
  {
  }

  /** The `query` field is the fallback when `ip` is missing or invalid. */
  lemma QueryFallback(net: Net, url: string, data: Fields)
    requires net.http(url).code == 200 && !Empty(net.http(url).body)
    requires net.json(net.http(url).body) == Some(data)
    requires "ip" !in data || !net.valid(data["ip"])
    ensures Accept(net, url) == if "query" in data && net.valid(data["query"]) then Some(data["query"]) else None
  {
  }

  /** `getExternalIP`: the endpoints are tried in order; the first accepted answer is returned. */
  method GetExternalIP(net: Net) returns (r: ExternalIP)
    ensures r == FirstFound(ExternalApis, Acceptor(net), ExternalFailure)
    ensures r.Found? ==> net.valid(r.ip)
  {
    var i := 0;
    while i < |ExternalApis|
      invariant 0 <= i <= |ExternalApis|
      invariant forall j :: 0 <= j < i ==> Accept(net, ExternalApis[j]).None?
    {
      var reply := net.http(ExternalApis[i]);
      if reply.code == 200 && !Empty(reply.body) {
        var parsed := net.json(reply.body);
        if parsed.None? {
          i := i + 1;
          continue;
        }
        var data := parsed.value;
        if "ip" in data && net.valid(data["ip"]) {
          FoundAt(ExternalApis, Acceptor(net), ExternalFailure, i, data["ip"]);
          return Found(data["ip"]);
        } else if "query" in data && net.valid(data["query"]) {
          FoundAt(ExternalApis, Acceptor(net), ExternalFailure, i, data["query"]);
          return Found(data["query"]);
        }
      }
      i := i + 1;
    }
    NoneFound(ExternalApis, Acceptor(net), ExternalFailure);
    return NotFound(ExternalFailure);
  }

  /**
   * Fall-through across endpoints: malformed JSON from the first, a
   * non-address `ip` from the second and a valid `query` from the third
   * give the third's address.
   */
  lemma FallThroughToQuery(net: Net, addr: string)
    requires net.http(ExternalApis[0]).code == 200 && !Empty(net.http(ExternalApis[0]).body)
    requires net.json(net.http(ExternalApis[0]).body).None?
    requires net.http(ExternalApis[1]).code == 200 && !Empty(net.http(ExternalApis[1]).body)
    requires net.json(net.http(ExternalApis[1]).body) == Some(map["ip" := "not-an-ip"])
    requires !net.valid("not-an-ip")
    requires net.http(ExternalApis[2]).code == 200 && !Empty(net.http(ExternalApis[2]).body)
    requires net.json(net.http(ExternalApis[2]).body) == Some(map["query" := addr])
    requires net.valid(addr)
    ensures FirstFound(ExternalApis, Acceptor(net), ExternalFailure) == Found(addr)
  {
    assert Accept(net, ExternalApis[0]).None?;
    assert Accept(net, ExternalApis[1]).None?;
    assert Accept(net, ExternalApis[2]) == Some(addr);
    FirstIndexIs(ExternalApis, Acceptor(net), 2);
  }

  // ---------------------------------------------------------------- getIPInfo

  /** "https://ipinfo.io/{$ip}/json" */
  function IpInfoUrl(ip: string): (r: string)
    ensures |r| == |ip| + 23
    ensures r[..18] == "https://ipinfo.io/" && r[|r| - 5..] == "/json"
    ensures r[18..|r| - 5] == ip
  {
    "https://ipinfo.io/" + ip + "/json"
  }
  /** Distinct addresses are looked up under distinct URLs. */
  lemma IpInfoUrlDistinct(a: string, b: string)
    requires IpInfoUrl(a) == IpInfoUrl(b)
    ensures a == b
  {
  }


  /**
   * `getIPInfo`: the decoded record for a valid address, provided the reply
   * is HTTP 200 with a non-empty body that is valid JSON and carries a
   * valid `ip` field; null on every other path.
   */
  function GetIPInfo(net: Net, ip: string): (r: Option<Fields>)
    ensures r.Some? <==>
              && net.valid(ip)
              && net.http(IpInfoUrl(ip)).code == 200
              && !Empty(net.http(IpInfoUrl(ip)).body)
              && net.json(net.http(IpInfoUrl(ip)).body).Some?
              && "ip" in net.json(net.http(IpInfoUrl(ip)).body).value
              && net.valid(net.json(net.http(IpInfoUrl(ip)).body).value["ip"])
    ensures r.Some? ==> r == net.json(net.http(IpInfoUrl(ip)).body)
  {
    if !net.valid(ip) then None
    else
      var reply := net.http(IpInfoUrl(ip));
      if reply.code == 200 && !Empty(reply.body) then
        match net.json(reply.body)
        case None => None
        case Some(data) =>
          if "ip" !in data || !net.valid(data["ip"]) then None else Some(data)
      else None
  }

  /** The echoed `ip` is only checked for being an address; it is never compared with the one queried. */
  lemma IpInfoAcceptsDifferentEcho(net: Net, ip: string, data: Fields)
    requires net.valid(ip)
    requires net.http(IpInfoUrl(ip)).code == 200 && !Empty(net.http(IpInfoUrl(ip)).body)
    requires net.json(net.http(IpInfoUrl(ip)).body) == Some(data)
    requires "ip" in data && net.valid(data["ip"]) && data["ip"] != ip
    ensures GetIPInfo(net, ip) == Some(data)
  {
  }

  // ---------------------------------------------------------- resolveHostname

  /** The reverse-lookup zone name: the dot-separated parts in reverse order, then ".in-addr.arpa". */
  function PtrName(ip: string): (r: string)
    ensures |r| >= 13 && r[|r| - 13..] == ".in-addr.arpa"
    ensures Split(r[..|r| - 13], '.') == Reverse(Split(ip, '.'))
  {
    var labels := Reverse(Split(ip, '.'));
    SplitJoin(labels, '.');
    var r := Join(labels, '.') + ".in-addr.arpa";
    assert r[..|r| - 13] == Join(labels, '.');
    r
  }

  /** Four parts joined with dots. */
  lemma JoinQuad(a: string, b: string, c: string, d: string)
    ensures Join([a, b, c, d], '.') == a + "." + b + "." + c + "." + d
  {
    var parts := [a, b, c, d];
    assert parts[1..] == [b, c, d] && parts[2..] == [c, d] && parts[3..] == [d];
    assert Join([d], '.') == d;
    assert Join([c, d], '.') == c + "." + d;
    assert Join([b, c, d], '.') == b + "." + c + "." + d;
  }

  /** For a dotted quad a.b.c.d the PTR query name is d.c.b.a.in-addr.arpa (RFC 1035, section 3.5). */
  lemma PtrNameOfDottedQuad(a: string, b: string, c: string, d: string)
    requires '.' !in a && '.' !in b && '.' !in c && '.' !in d
    ensures PtrName(a + "." + b + "." + c + "." + d) == d + "." + c + "." + b + "." + a + ".in-addr.arpa"
  {
    JoinQuad(a, b, c, d);
    SplitJoin([a, b, c, d], '.');
    assert Reverse([a, b, c, d]) == [d, c, b, a];
    JoinQuad(d, c, b, a);
  }

  /** An address without dots (IPv6) is used as is: the name is the address followed by ".in-addr.arpa". */
  lemma PtrNameWithoutDots(ip: string)
    requires '.' !in ip
    ensures PtrName(ip) == ip + ".in-addr.arpa"
  {
    SplitNoDelimiter(ip, '.');
  }

  /** "ec2-{$dashIP}.compute-1.amazonaws.com" with the dots of the address replaced by dashes. */
  function Ec2Name(ip: string): (r: string)
    ensures |r| == |ip| + 28
    ensures r[..4] == "ec2-" && r[4 + |ip|..] == ".compute-1.amazonaws.com"
    ensures forall i :: 0 <= i < |ip| ==> r[4 + i] == (if ip[i] == '.' then '-' else ip[i])
  {
    "ec2-" + Replace(ip, '.', '-') + ".compute-1.amazonaws.com"
  }

  lemma Ec2NameOfDottedQuad(a: string, b: string, c: string, d: string)
    requires '.' !in a && '.' !in b && '.' !in c && '.' !in d
    ensures Ec2Name(a + "." + b + "." + c + "." + d) == "ec2-" + a + "-" + b + "-" + c + "-" + d + ".compute-1.amazonaws.com"
  {
    var ip := a + "." + b + "." + c + "." + d;
    var dashed := a + "-" + b + "-" + c + "-" + d;
    assert Replace(ip, '.', '-') == dashed by {
      assert |dashed| == |ip|;
      forall i | 0 <= i < |ip|
        ensures Replace(ip, '.', '-')[i] == dashed[i]
      {
        if i < |a| {
          assert ip[i] == a[i] && dashed[i] == a[i];
        } else if i == |a| {
        } else if i < |a| + 1 + |b| {
          assert ip[i] == b[i - |a| - 1] && dashed[i] == b[i - |a| - 1];
        } else if i == |a| + 1 + |b| {
        } else if i < |a| + |b| + 2 + |c| {
          assert ip[i] == c[i - |a| - |b| - 2] && dashed[i] == c[i - |a| - |b| - 2];
        } else if i == |a| + |b| + 2 + |c| {
        } else {
          assert ip[i] == d[i - |a| - |b| - |c| - 3] && dashed[i] == d[i - |a| - |b| - |c| - 3];
        }
      }
    }
  }

  /** The four methods of `resolveHostname`, in the order they are tried. */
  datatype Strategy = SystemReverse | ManualPtr | ApiLookup | Ec2Guess

  const Strategies: seq<Strategy> := [SystemReverse, ManualPtr, ApiLookup, Ec2Guess]

  /**
   * Method 1, `gethostbyaddr`: anything but the address itself is an
   * answer, its `false` (failure) included, which is returned as is.
   */
  function ByReverse(net: Net, ip: string): (r: Option<Value>)
    ensures r.None? <==> net.reverse(ip) == Some(ip)
    ensures r.Some? ==> r.value == if net.reverse(ip).None? then False else Str(net.reverse(ip).value)
  {
    var hostname := net.reverse(ip);
    if hostname != Some(ip) then Some(if hostname.None? then False else Str(hostname.value)) else None
  }

  /** Method 2, the PTR record of the reversed name: the `target` of the first record, if set. */
  function ByPtr(net: Net, ip: string): (r: Option<Value>)
    ensures r.Some? <==> |net.ptr(PtrName(ip))| > 0 && "target" in net.ptr(PtrName(ip))[0]
    ensures r.Some? ==> r.value == Str(net.ptr(PtrName(ip))[0]["target"])
  {
    var records := net.ptr(PtrName(ip));
    if |records| > 0 && "target" in records[0] then Some(Str(records[0]["target"])) else None
  }

  /** Method 3, ipinfo.io: a non-empty body that decodes and has a `hostname` field; the HTTP status is not looked at. */
  function ByApi(net: Net, ip: string): (r: Option<Value>)
    ensures r.Some? <==>
              && !Empty(net.http(IpInfoUrl(ip)).body)
              && net.json(net.http(IpInfoUrl(ip)).body).Some?
              && "hostname" in net.json(net.http(IpInfoUrl(ip)).body).value
    ensures r.Some? ==> r.value == Str(net.json(net.http(IpInfoUrl(ip)).body).value["hostname"])
  {
    var response := net.http(IpInfoUrl(ip)).body;
    if !Empty(response) then
      match net.json(response)
      case Some(data) => if "hostname" in data then Some(Str(data["hostname"])) else None
      case None => None
    else None
  }

  /**
   * Method 4, the EC2 guess: for an address without ".compute-", the
   * guessed name, provided it resolves forward to exactly the address.
   */
  function ByEc2Guess(net: Net, ip: string): (r: Option<Value>)
    ensures r.Some? <==> !Contains(ip, ".compute-") && net.forward(Ec2Name(ip)) == ip
    ensures r.Some? ==> r.value == Str(Ec2Name(ip))
  {
    if !Contains(ip, ".compute-") then
      var guess := Ec2Name(ip);
      var resolvedIP := net.forward(guess);
      Ec2GuessDiffersFromAddress(ip);
      if resolvedIP != guess && resolvedIP == ip then Some(Str(guess)) else None
    else None
  }

  /**
   * What one method yields for a valid address: Some(hostname) when it
   * succeeds, None when the resolver moves on to the next method.
   */
  function Attempt(net: Net, ip: string, s: Strategy): (r: Option<Value>)
    ensures r != Some(Null)
  {
    match s
    case SystemReverse => ByReverse(net, ip)
    case ManualPtr => ByPtr(net, ip)
    case ApiLookup => ByApi(net, ip)
    case Ec2Guess => ByEc2Guess(net, ip)
  }

  function AttemptOf(net: Net, ip: string): Strategy -> Option<Value> {
    s => Attempt(net, ip, s)
  }

  /**
   * `resolveHostname`: null for an invalid address; otherwise the result
   * of the first method that succeeds, and null when none does.
   */
  function ResolveHostname(net: Net, ip: string): (h: Value)
    ensures !net.valid(ip) ==> h == Null
    ensures h == Null <==> !net.valid(ip) || forall j :: 0 <= j < |Strategies| ==> Attempt(net, ip, Strategies[j]).None?
    ensures h != Null ==> var k := FirstIndex(Strategies, AttemptOf(net, ip));
              k < |Strategies| && Attempt(net, ip, Strategies[k]) == Some(h)
  {
    if !net.valid(ip) then Null
    else
      match FirstSome(Strategies, AttemptOf(net, ip))
      case Some(hostname) => hostname
      case None => Null
  }

  /**
   * The source's sequence of early returns: when the methods before the
   * k-th fail and the k-th succeeds, its answer is returned; when all four
   * fail (k = 4), null.
   */
  lemma ResolveHostnameAt(net: Net, ip: string, k: nat)
    requires net.valid(ip) && k <= |Strategies|
    requires forall j :: 0 <= j < k ==> Attempt(net, ip, Strategies[j]).None?
    requires k < |Strategies| ==> Attempt(net, ip, Strategies[k]).Some?
    ensures ResolveHostname(net, ip) == if k < |Strategies| then Attempt(net, ip, Strategies[k]).value else Null
  {
    FirstIndexIs(Strategies, AttemptOf(net, ip), k);
  }

  /** When the reverse lookup only echoes the address, a PTR record's target is the answer. */
  lemma PtrAnswersWhenReverseEchoes(net: Net, ip: string)
    requires net.valid(ip) && net.reverse(ip) == Some(ip)
    requires |net.ptr(PtrName(ip))| > 0 && "target" in net.ptr(PtrName(ip))[0]
    ensures ResolveHostname(net, ip) == Str(net.ptr(PtrName(ip))[0]["target"])
  {
  }

  /**
   * The guessed EC2 name is returned only when every earlier method failed,
   * the address has no ".compute-" in it and the name resolves forward to
   * exactly the address.
   */
  lemma Ec2GuessNeedsRoundTrip(net: Net, ip: string)
    requires net.valid(ip)
    requires ResolveHostname(net, ip) == Str(Ec2Name(ip))
    requires forall j :: 0 <= j < 3 ==> Attempt(net, ip, Strategies[j]) != Some(Str(Ec2Name(ip)))
    ensures forall j :: 0 <= j < 3 ==> Attempt(net, ip, Strategies[j]).None?
    ensures !Contains(ip, ".compute-") && net.forward(Ec2Name(ip)) == ip
  {
    var k := FirstIndex(Strategies, AttemptOf(net, ip));
    assert k < 4 && Attempt(net, ip, Strategies[k]) == Some(Str(Ec2Name(ip)));
    assert k != 0 && k != 1 && k != 2;
    assert ByEc2Guess(net, ip).Some?;
  }

  /** The guess is never the address itself, so "differs from the guess" adds nothing to "equals the address". */
  lemma Ec2GuessDiffersFromAddress(ip: string)
    ensures Ec2Name(ip) != ip
  {
  }
}
