/**
 * The decision logic of the command-line Tor checker, tor_check.py: the
 * private-address classifier, the classification of the system's DNS
 * servers, the DNS-through-Tor verdict and the recommendation list. The
 * Tor status and the DNS server list, which the script obtains from the
 * network and the system, are inputs.
 */
module TorCheck {
  import opened Php
  import opened Patterns
  import Utils

  // ------------------------------------------------------------ is_private_ip

  /** The pattern list of `is_private_ip`, in its order. */
  const PrivatePatterns: seq<Pattern> := [
    Prefix("10."),
    Private172,
    Prefix("192.168."),
    Prefix("127."),
    Prefix("169.254."),
    Exact("::1"),
    UniqueLocalAnyCase
  ]

  predicate IsPrivate(ip: string) {
    AnyMatches(PrivatePatterns, ip)
  }

  /** `is_private_ip`: tries the patterns in order and stops at the first match. */
  method IsPrivateIP(ip: string) returns (isPrivate: bool)
    ensures isPrivate == IsPrivate(ip)
  {
    for i := 0 to |PrivatePatterns|
      invariant forall j :: 0 <= j < i ==> !Matches(PrivatePatterns[j], ip)
    {
      if Matches(PrivatePatterns[i], ip) {
        return true;
      }
    }
    return false;
  }

  /** The pattern list read one pattern at a time. */
  lemma IsPrivateCases(ip: string)
    ensures IsPrivate(ip) <==>
              || StartsWith(ip, "10.")
              || Matches(Private172, ip)
              || StartsWith(ip, "192.168.")
              || StartsWith(ip, "127.")
              || StartsWith(ip, "169.254.")
              || ip == "::1"
              || Matches(UniqueLocalAnyCase, ip)
  {
    if IsPrivate(ip) {
      var i :| 0 <= i < |PrivatePatterns| && Matches(PrivatePatterns[i], ip);
      if i == 0 {} else if i == 1 {} else if i == 2 {} else if i == 3 {} else if i == 4 {} else if i == 5 {} else {}
    } else {
      assert !Matches(PrivatePatterns[0], ip) && !Matches(PrivatePatterns[1], ip) && !Matches(PrivatePatterns[2], ip);
      assert !Matches(PrivatePatterns[3], ip) && !Matches(PrivatePatterns[4], ip);
      assert !Matches(PrivatePatterns[5], ip) && !Matches(PrivatePatterns[6], ip);
    }
  }

  /**
   * The classifier in plain terms: the IPv4 prefixes 10., 172.16. to
   * 172.31., 192.168., 127. and 169.254., exactly "::1", and any string
   * whose first two characters are f or F followed by c, C, d or D.
   */
  lemma IsPrivateMeaning(ip: string)
    ensures IsPrivate(ip) <==>
              || StartsWith(ip, "10.")
              || (exists n :: 16 <= n < 32 && StartsWith(ip, "172." + TwoDigits(n) + "."))
              || StartsWith(ip, "192.168.")
              || StartsWith(ip, "127.")
              || StartsWith(ip, "169.254.")
              || ip == "::1"
              || (|ip| >= 2 && (ip[0] == 'f' || ip[0] == 'F') && (ip[1] == 'c' || ip[1] == 'C' || ip[1] == 'd' || ip[1] == 'D'))
  {
    IsPrivateCases(ip);
    Private172Range(ip);
  }

  /** The literal prefix "fc00::" starts with f and then c. */
  lemma Fc00PrefixIsUniqueLocal(ip: string)
    requires StartsWith(ip, "fc00::")
    ensures Matches(UniqueLocalAnyCase, ip)
  {
    StartsWithIsPrefix(ip, "fc00::");
    assert ip[..6] == "fc00::";
    assert ip[0] == 'f' && ip[1] == 'c';
  }

  /** Every address the PHP side calls local is private here: the Python test covers the whole fc00::/7 block in either case. */
  lemma LocalImpliesPrivate(ip: string)
    ensures Utils.IsLocal(ip) ==> IsPrivate(ip)
  {
    Utils.IsLocalCases(ip);
    IsPrivateCases(ip);
    if StartsWith(ip, "fc00::") {
      Fc00PrefixIsUniqueLocal(ip);
    }
  }

  /** The converse fails: unique-local addresses outside the literal fc00:: prefix, or in upper case, are private but not local. */
  lemma PrivateWiderThanLocal()
    ensures IsPrivate("fd00::1") && !Utils.IsLocal("fd00::1")
    ensures IsPrivate("FC00::1") && !Utils.IsLocal("FC00::1")
  {
    assert Matches(PrivatePatterns[6], "fd00::1");
    assert Matches(PrivatePatterns[6], "FC00::1");
    Utils.FdBlockNotLocal();
    Utils.NotLocal("FC00::1");
  }

  /** Localhost is private, so a list holding it always has a private server. */
  lemma LocalhostIsPrivate()
    ensures IsPrivate(Localhost)
  {
    StartsWithConcat("127.", "0.0.1");
    assert "127." + "0.0.1" == Localhost;
    assert Matches(PrivatePatterns[3], Localhost);
  }

  // ---------------------------------------------------------- get_dns_servers

  /** One entry of `classified_servers`: `{"ip": ..., "is_local": ...}`. */
  datatype DnsServer = DnsServer(ip: string, isLocal: bool)

  /** The `ip` fields of a classified list, in order. */
  function Ips(servers: seq<DnsServer>): (r: seq<string>)
    ensures |r| == |servers| && forall i :: 0 <= i < |servers| ==> r[i] == servers[i].ip
  {
    seq(|servers|, i requires 0 <= i < |servers| => servers[i].ip)
  }

  /**
   * The classification loop of `get_dns_servers`: one entry per server
   * found, in the same order, marked local exactly when it is private.
   */
  method ClassifyServers(dnsServers: seq<string>) returns (classified: seq<DnsServer>)
    ensures |classified| == |dnsServers|
    ensures forall i :: 0 <= i < |dnsServers| ==> classified[i].isLocal == IsPrivate(dnsServers[i])
    ensures Ips(classified) == dnsServers
  {
    classified := [];
    for k := 0 to |dnsServers|
      invariant |classified| == k
      invariant forall i :: 0 <= i < k ==> classified[i] == DnsServer(dnsServers[i], IsPrivate(dnsServers[i]))
    {
      var isLocal := IsPrivateIP(dnsServers[k]);
      classified := classified + [DnsServer(dnsServers[k], isLocal)];
    }
  }

  // ----------------------------------------------------- check_dns_through_tor

  /** A Python value tested for truth: `True`, `False` or `None`. Only `True` is truthy. */
  datatype Tri = PyTrue | PyFalse | PyNone

  const Localhost := "127.0.0.1"

  const LocalhostMessage := "DNS is set to localhost (127.0.0.1), which suggests DNS through Tor"
  const UnusualMessage := "No local DNS servers detected, unusual configuration"
  const UndetectedMessage := "Could not detect DNS servers"
  const NotTorMessage := "Not connected to Tor, so DNS is not through Tor"
  const LocalOnTorMessage := "Using local DNS servers while on Tor - might be normal if router is Tor-enabled"

  /** The result dictionary of `check_dns_through_tor`. */
  datatype DnsCheck = DnsCheck(dnsThroughTor: Tri, message: string, dnsServers: seq<DnsServer>)

  /** `any(is_private_ip(server) for server in dns_servers)` */
  predicate HasPrivate(ips: seq<string>)
    ensures HasPrivate(ips) ==> |ips| > 0
    ensures Localhost in ips ==> HasPrivate(ips)
  {
    LocalhostIsPrivate();
    exists i :: 0 <= i < |ips| && IsPrivate(ips[i])
  }

  /**
   * `check_dns_through_tor`, given the classified servers and the `is_tor`
   * value the Tor check would report. Localhost among the servers decides
   * True; an empty list and a list without a private server give None with
   * their own messages; otherwise the Tor status decides between False
   * (not on Tor, including an unknown status) and None (on Tor).
   */
  function CheckDnsThroughTor(servers: seq<DnsServer>, isTor: Tri): (r: DnsCheck)
    ensures r.dnsServers == servers
    ensures r.dnsThroughTor == PyTrue <==> Localhost in Ips(servers)
    ensures Localhost in Ips(servers) ==> r.message == LocalhostMessage
    ensures |servers| == 0 ==> r == DnsCheck(PyNone, UndetectedMessage, servers)
    ensures Localhost !in Ips(servers) && |servers| > 0 && !HasPrivate(Ips(servers)) ==>
              r == DnsCheck(PyNone, UnusualMessage, servers)
    ensures Localhost !in Ips(servers) && HasPrivate(Ips(servers)) ==>
              r == if isTor == PyTrue then DnsCheck(PyNone, LocalOnTorMessage, servers)
                   else DnsCheck(PyFalse, NotTorMessage, servers)
  {
    var dnsServers := Ips(servers);
    var localDns := HasPrivate(dnsServers);
    if Localhost in dnsServers then DnsCheck(PyTrue, LocalhostMessage, servers)
    else if !localDns && |dnsServers| > 0 then DnsCheck(PyNone, UnusualMessage, servers)
    else if |dnsServers| == 0 then DnsCheck(PyNone, UndetectedMessage, servers)
    else if isTor != PyTrue then DnsCheck(PyFalse, NotTorMessage, servers)
    else DnsCheck(PyNone, LocalOnTorMessage, servers)
  }

  /** The Tor status is consulted only when some server is private and localhost is not among them. */
  lemma TorStatusOnlyForPrivateServers(servers: seq<DnsServer>, isTor1: Tri, isTor2: Tri)
    requires Localhost in Ips(servers) || !HasPrivate(Ips(servers))
    ensures CheckDnsThroughTor(servers, isTor1) == CheckDnsThroughTor(servers, isTor2)
  {
  }

  /** The verdict is never False while localhost is among the servers, and False only off Tor. */
  lemma FalseMeansPrivateOffTor(servers: seq<DnsServer>, isTor: Tri)
    ensures CheckDnsThroughTor(servers, isTor).dnsThroughTor == PyFalse <==>
              Localhost !in Ips(servers) && HasPrivate(Ips(servers)) && isTor != PyTrue
  {
  }

  /** A localhost resolver anywhere in the list decides True, whatever precedes or follows it and whatever the Tor status. */
  lemma LocalhostAnywhereSuffices(servers: seq<DnsServer>, i: nat, isTor: Tri)
    requires i < |servers| && servers[i].ip == Localhost
    ensures CheckDnsThroughTor(servers, isTor) == DnsCheck(PyTrue, LocalhostMessage, servers)
  {
    assert Ips(servers)[i] == Localhost;
  }

  // -------------------------------------------------------- get_recommendations

  const StartTor := "Make sure Tor Browser or Tor service is running"
  const CheckProxy := "Check your proxy settings if using Tor as a SOCKS proxy"
  const ConfigureDns := "Configure Tor to handle DNS requests:"
  const TorBrowserDns := "1. In Tor Browser: Settings → Connection → Check 'Proxy DNS when using SOCKS v5'"
  const DnsPort := "2. Or add 'DNSPort 53' to your torrc file if using system Tor"
  const SystemDns := "3. Or set your system DNS to 127.0.0.1 if Tor is configured to handle DNS"
  const WebRtcLeaks := "Check for WebRTC leaks at: https://browserleaks.com/webrtc"
  const DnsLeaks := "Check for DNS leaks at: https://dnsleaktest.com"
  const FurtherTesting := "Consider further DNS leak testing at https://dnsleaktest.com"

  /**
   * The recommendation list for a Tor status and a DNS verdict: the
   * start-Tor advice off Tor; on Tor, the DNS configuration steps unless
   * DNS is known to go through Tor, then the two leak checks; and in
   * either case the further-testing advice when the DNS verdict is None.
   */
  function Recommendations(isTor: Tri, dnsThroughTor: Tri): (r: seq<string>)
    ensures 2 <= |r| <= 7
  {
    (if isTor != PyTrue then [StartTor, CheckProxy]
     else (if dnsThroughTor != PyTrue then [ConfigureDns, TorBrowserDns, DnsPort, SystemDns] else [])
          + [WebRtcLeaks, DnsLeaks])
    + (if dnsThroughTor == PyNone then [FurtherTesting] else [])
  }

  /** The list's length in each case: 2 or 3 off Tor; 2, 6 or 7 on Tor for a DNS verdict of True, False or None. */
  lemma RecommendationCounts(isTor: Tri, dnsThroughTor: Tri)
    ensures isTor != PyTrue ==> |Recommendations(isTor, dnsThroughTor)| == if dnsThroughTor == PyNone then 3 else 2
    ensures isTor == PyTrue ==>
              |Recommendations(isTor, dnsThroughTor)| ==
                match dnsThroughTor case PyTrue => 2 case PyFalse => 6 case PyNone => 7
  {
  }

  /** Off Tor the list starts with the two start-Tor lines; on Tor with DNS through Tor it is exactly the two leak checks. */
  lemma RecommendationShapes(isTor: Tri, dnsThroughTor: Tri)
    ensures isTor != PyTrue ==> Recommendations(isTor, dnsThroughTor)[..2] == [StartTor, CheckProxy]
    ensures isTor == PyTrue && dnsThroughTor == PyTrue ==> Recommendations(isTor, dnsThroughTor) == [WebRtcLeaks, DnsLeaks]
    ensures var r := Recommendations(isTor, dnsThroughTor);
              (r[|r| - 1] == FurtherTesting <==> dnsThroughTor == PyNone)
  {
  }

  /** Which advice appears: start Tor exactly off Tor, the DNS steps exactly on Tor without DNS through Tor, the leak checks exactly on Tor, further testing exactly for an unknown DNS verdict. */
  lemma RecommendationTopics(isTor: Tri, dnsThroughTor: Tri)
    ensures StartTor in Recommendations(isTor, dnsThroughTor) <==> isTor != PyTrue
    ensures ConfigureDns in Recommendations(isTor, dnsThroughTor) <==> isTor == PyTrue && dnsThroughTor != PyTrue
    ensures DnsLeaks in Recommendations(isTor, dnsThroughTor) <==> isTor == PyTrue
    ensures FurtherTesting in Recommendations(isTor, dnsThroughTor) <==> dnsThroughTor == PyNone
  {
  }

  /** `get_recommendations`: appends the advice line by line. */
  method GetRecommendations(isTor: Tri, dnsThroughTor: Tri) returns (recommendations: seq<string>)
    ensures recommendations == Recommendations(isTor, dnsThroughTor)
  {
    recommendations := [];
    if isTor != PyTrue {
      recommendations := recommendations + [StartTor];
      recommendations := recommendations + [CheckProxy];
    } else {
      if dnsThroughTor != PyTrue {
        recommendations := recommendations + [ConfigureDns];
        recommendations := recommendations + [TorBrowserDns];
        recommendations := recommendations + [DnsPort];
        recommendations := recommendations + [SystemDns];
      }
      recommendations := recommendations + [WebRtcLeaks];
      recommendations := recommendations + [DnsLeaks];
    }
    if dnsThroughTor == PyNone {
      recommendations := recommendations + [FurtherTesting];
    }
  }
}
