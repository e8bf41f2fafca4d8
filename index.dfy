/**
 * The main page, index.php. Its getClientIP, getIPInfo and isLocalIP (the
 * same pattern table, kept in a global) are the code of utils.php and are
 * taken from module Utils; its rate limiter, getExternalIP and
 * resolveHostname differ and are modelled here.
 */
module Index {
  import opened Php
  import opened Chains
  import opened RateLimit
  import Utils
  import Patterns

  // ------------------------------------------------------------ rate limiter

  const PageKey := "rate_limit"
  const PageMaxRequests := 10
  const PageTimeWindow := 60
  const RateLimitText := "Rate limit exceeded. Please try again later."

  /**
   * index.php's `enforceRateLimit()`: the read-modify-write of
   * `$_SESSION['rate_limit']` with 10 requests per 60 s; when the count
   * goes over, the page ends with status 429 and a plain-text notice
   * (Some), otherwise processing continues (None).
   */
  method EnforceRateLimit(session: Session, now: int) returns (exit: Option<Response>)
    modifies session
    ensures session.entries ==
              old(session.entries)[PageKey := Admit(old(session.Lookup(PageKey)), PageMaxRequests, PageTimeWindow, now).0]
    ensures exit.None? <==> Admit(old(session.Lookup(PageKey)), PageMaxRequests, PageTimeWindow, now).1
    ensures exit.Some? ==> exit.value == Response(429, Text(RateLimitText))
  {
    var allowed := session.EnforceRateLimit(PageKey, PageMaxRequests, PageTimeWindow, now);
    if !allowed {
      return Some(Response(429, Text(RateLimitText)));
    }
    return None;
  }

  /** On a fresh session, the first 10 page loads within a minute proceed and the 11th and later get 429. */
  lemma EleventhPageLoadRejected(times: seq<int>)
    requires |times| > 0
    requires forall i :: 0 <= i < |times| ==> times[i] - times[0] <= PageTimeWindow
    ensures forall i :: 0 <= i < |times| ==> Decisions(None, PageMaxRequests, PageTimeWindow, times)[i] == (i < 10)
  {
    FreshKeyAdmitsExactlyMax(PageMaxRequests, PageTimeWindow, times);
  }

  // ------------------------------------------------------------ getExternalIP

  // The endpoint list and the failure message are those of utils.php (Utils.ExternalApis, Utils.ExternalFailure).

  /**
   * What one endpoint contributes here: the answer needs an `ip` or a
   * `query` field; when `ip` is set it alone is taken, and the taken value
   * must be a valid address.
   */
  function Accept(net: Net, url: string): (r: Option<string>)
    ensures r.Some? ==> net.valid(r.value)
    ensures net.http(url).code != 200 || Empty(net.http(url).body) || net.json(net.http(url).body).None? ==> r.None?
    ensures r.Some? ==> var data := net.json(net.http(url).body).value;
              ("ip" in data && r.value == data["ip"]) || ("ip" !in data && "query" in data && r.value == data["query"])
  {
    var reply := net.http(url);
    if reply.code == 200 && !Empty(reply.body) then
      match net.json(reply.body)
      case None => None
      case Some(data) =>
        if "ip" !in data && "query" !in data then None
        else
          var ip := if "ip" in data then data["ip"] else data["query"];
          if !net.valid(ip) then None else Some(ip)
    else None
  }

  function Acceptor(net: Net): string -> Option<string> {
    url => Accept(net, url)
  }

  /** An invalid `ip` field discards the answer even when its `query` field is a valid address. */
  lemma InvalidIpFieldSkipsEndpoint(net: Net, url: string, data: Fields)
    requires net.http(url).code == 200 && !Empty(net.http(url).body)
    requires net.json(net.http(url).body) == Some(data)
    requires "ip" in data && !net.valid(data["ip"])
    ensures Accept(net, url).None?
  {
  }

  /** This variant accepts no answer the utils.php variant rejects, and then takes the same address. */
  lemma AcceptAgreesWithUtils(net: Net, url: string)
    ensures Accept(net, url).Some? ==> Utils.Accept(net, url) == Accept(net, url)
    ensures Accept(net, url).None? && Utils.Accept(net, url).Some? ==>
              var data := net.json(net.http(url).body).value;
              "ip" in data && !net.valid(data["ip"]) && Utils.Accept(net, url) == Some(data["query"])
  {
  }

  /** `getExternalIP` of index.php: the endpoints in order, the first accepted answer wins. */
  method GetExternalIP(net: Net) returns (r: ExternalIP)
    ensures r == FirstFound(Utils.ExternalApis, Acceptor(net), Utils.ExternalFailure)
    ensures r.Found? ==> net.valid(r.ip)
  {
    var i := 0;
    while i < |Utils.ExternalApis|
      invariant 0 <= i <= |Utils.ExternalApis|
      invariant forall j :: 0 <= j < i ==> Accept(net, Utils.ExternalApis[j]).None?
    {
      var api := Utils.ExternalApis[i];
      var reply := net.http(api);
      if reply.code == 200 && !Empty(reply.body) {
        var parsed := net.json(reply.body);
        if parsed.None? {
          assert Accept(net, api).None?;
          i := i + 1;
          continue;
        }
        var data := parsed.value;
        if "ip" !in data && "query" !in data {
          assert Accept(net, api).None?;
          i := i + 1;
          continue;
        }
        var ip := if "ip" in data then data["ip"] else data["query"];
        if !net.valid(ip) {
          assert Accept(net, api).None?;
          i := i + 1;
          continue;
        }
        FoundAt(Utils.ExternalApis, Acceptor(net), Utils.ExternalFailure, i, ip);
        return Found(ip);
      }
      i := i + 1;
    }
    NoneFound(Utils.ExternalApis, Acceptor(net), Utils.ExternalFailure);
    return NotFound(Utils.ExternalFailure);
  }

  // ---------------------------------------------------------- resolveHostname

  /**
   * The simple `resolveHostname` of index.php: only the system reverse
   * lookup, whose echo of the address means "no record". It is null exactly
   * then, or for an invalid address; whenever it finds something, the
   * four-step resolver of utils.php returns the same.
   */
  function ResolveHostname(net: Net, ip: string): (h: Value)
    ensures h == Null <==> !net.valid(ip) || net.reverse(ip) == Some(ip)
    ensures h != Null ==> h == Utils.ResolveHostname(net, ip)
  {
    if !net.valid(ip) then Null
    else
      var hostname := net.reverse(ip);
      if hostname == Some(ip) then Null
      else if hostname.None? then False
      else Str(hostname.value)
  }

  // ------------------------------------------------------------ page values

  const UnknownExternal := "Unknown"

  /** The global `$localIPRanges` of index.php. */
  const PageLocalIPRanges: seq<Patterns.Pattern> := [
    Patterns.Prefix("192.168."),
    Patterns.Prefix("10."),
    Patterns.Private172,
    Patterns.Prefix("127."),
    Patterns.Prefix("169.254."),
    Patterns.Exact("::1"),
    Patterns.Prefix("fc00::")
  ]

  /** The page's `isLocalIP` uses the same table as utils.php, so the two agree on every string. */
  lemma PageTableIsUtilsTable(ip: string)
    ensures PageLocalIPRanges == Utils.LocalIPRanges
    ensures Patterns.AnyMatches(PageLocalIPRanges, ip) == Utils.IsLocal(ip)
  {
  }

  /** `$usingProxy`: a non-local client address that differs from a known external address. */
  predicate UsingProxy(clientIP: string, externalIP: string)
    ensures UsingProxy(clientIP, externalIP) <==>
              !Utils.IsLocal(clientIP) && clientIP != externalIP && clientIP != Utils.UnknownClient && externalIP != UnknownExternal
  {
    PageTableIsUtilsTable(clientIP);
    !Patterns.AnyMatches(PageLocalIPRanges, clientIP) && clientIP != externalIP &&
    clientIP != Utils.UnknownClient && externalIP != UnknownExternal
  }

  /** A client behind NAT (a local address) or one seen as itself is never flagged. */
  lemma ProxyFlagExamples()
    ensures !UsingProxy("203.0.113.9", "203.0.113.9")
    ensures !UsingProxy("10.0.0.5", "203.0.113.9")
    ensures !UsingProxy("0.0.0.0", "203.0.113.9")
    ensures !UsingProxy("8.8.8.8", UnknownExternal)
    ensures UsingProxy("8.8.8.8", "203.0.113.9")
  {
    assert Utils.IsLocal("10.0.0.5") by {
      StartsWithConcat("10.", "0.0.5");
      assert "10." + "0.0.5" == "10.0.0.5";
      assert Patterns.Matches(Utils.LocalIPRanges[1], "10.0.0.5");
    }
    Utils.PublicAddressesNotLocal();
  }

  datatype PageData = PageData(
    clientIP: string,
    externalIPData: ExternalIP,
    externalIP: string,
    clientHostname: Value,
    externalHostname: Value,
    ipInfo: Option<Fields>,
    usingProxy: bool)

  /**
   * The values the page is rendered from, given REMOTE_ADDR, the
   * X-Forwarded-For header and the outcome of the external lookup: the
   * external hostname and the IP information are looked up only when the
   * external lookup succeeded, and the proxy flag implies that it did.
   */
  function Page(net: Net, remoteAddr: Option<string>, forwardedFor: Option<string>, ext: ExternalIP): (p: PageData)
    ensures p.clientIP == Utils.GetClientIP(net, remoteAddr, forwardedFor)
    ensures p.externalIPData == ext
    ensures p.externalIP == if ext.Found? then ext.ip else UnknownExternal
    ensures ext.Found? ==> p.externalHostname == ResolveHostname(net, ext.ip) && p.ipInfo == Utils.GetIPInfo(net, ext.ip)
    ensures ext.NotFound? ==> p.externalHostname == Null && p.ipInfo == None && !p.usingProxy
    ensures p.clientHostname == if p.clientIP != "" && p.clientIP != "0" then ResolveHostname(net, p.clientIP) else Null
    ensures p.usingProxy <==> UsingProxy(p.clientIP, p.externalIP)
    ensures p.usingProxy ==> ext.Found? && p.clientIP != ext.ip && !Utils.IsLocal(p.clientIP)
  {
    var clientIP := Utils.GetClientIP(net, remoteAddr, forwardedFor);
    var externalIP := if ext.Found? then ext.ip else UnknownExternal;
    var clientHostname := if clientIP != "" && clientIP != "0" then ResolveHostname(net, clientIP) else Null;
    var externalHostname := if ext.Found? then ResolveHostname(net, externalIP) else Null;
    var ipInfo := if ext.Found? then Utils.GetIPInfo(net, externalIP) else None;
    var usingProxy := UsingProxy(clientIP, externalIP);
    PageData(clientIP, ext, externalIP, clientHostname, externalHostname, ipInfo, usingProxy)
  }

  datatype PageOutcome = Rejected(response: Response) | Rendered(page: PageData)

  /**
   * One request of index.php: the limiter first, which may end the request
   * with 429; otherwise the external lookup and then the page values.
   */
  method HandlePage(session: Session, now: int, net: Net, remoteAddr: Option<string>, forwardedFor: Option<string>)
    returns (o: PageOutcome)
    modifies session
    ensures session.entries ==
              old(session.entries)[PageKey := Admit(old(session.Lookup(PageKey)), PageMaxRequests, PageTimeWindow, now).0]
    ensures o.Rejected? <==> !Admit(old(session.Lookup(PageKey)), PageMaxRequests, PageTimeWindow, now).1
    ensures o.Rejected? ==> o.response == Response(429, Text(RateLimitText))
    ensures o.Rendered? ==>
              o.page == Page(net, remoteAddr, forwardedFor, FirstFound(Utils.ExternalApis, Acceptor(net), Utils.ExternalFailure))
  {
    var exit := EnforceRateLimit(session, now);
    if exit.Some? {
      return Rejected(exit.value);
    }
    var ext := GetExternalIP(net);
    return Rendered(Page(net, remoteAddr, forwardedFor, ext));
  }
}
