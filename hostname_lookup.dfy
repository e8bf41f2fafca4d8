/**
 * The hostname lookup endpoint, hostname-lookup.php: a chain of guards
 * (rate limit, missing parameter, invalid address) in front of the
 * four-step resolver of utils.php, answering in JSON.
 */
module HostnameLookup {
  import opened Php
  import opened RateLimit
  import Utils

  const LookupKey := "hostname_rate_limit"
  const LookupMaxRequests := 5
  const LookupTimeWindow := 60

  const RateLimitError := "Rate limit exceeded. Please try again later."
  const MissingError := "Missing IP parameter"
  const InvalidError := "Invalid IP format"

  /**
   * The response, given the limiter's verdict and the `ip` query parameter
   * (None when absent). The guards apply in their order: 429 first, then
   * 400 for a missing parameter, then 400 for a trimmed value that is not a
   * valid address; only then is the resolver asked, on the trimmed value,
   * and a falsy hostname is sent as null.
   */
  function Respond(allowed: bool, ipParam: Option<string>, net: Net): (r: Response)
    ensures r.status == 429 <==> !allowed
    ensures !allowed ==> r.body == JsonError(RateLimitError)
    ensures allowed && ipParam.None? ==> r == Response(400, JsonError(MissingError))
    ensures allowed && ipParam.Some? && !net.valid(Trim(ipParam.value)) ==> r == Response(400, JsonError(InvalidError))
    ensures r.status == 200 <==> allowed && ipParam.Some? && net.valid(Trim(ipParam.value))
    ensures r.status == 200 ==>
              (r.body.JsonHostname? &&
               var h := Utils.ResolveHostname(net, Trim(ipParam.value));
               (r.body.hostname.Some? <==> Truthy(h)) && (r.body.hostname.Some? ==> r.body.hostname.value == h.s))
  {
    if !allowed then Response(429, JsonError(RateLimitError))
    else if ipParam.None? then Response(400, JsonError(MissingError))
    else
      var ip := Trim(ipParam.value);
      if !net.valid(ip) then Response(400, JsonError(InvalidError))
      else
        var hostname := Utils.ResolveHostname(net, ip);
        if Truthy(hostname) then Response(200, JsonHostname(Some(hostname.s)))
        else Response(200, JsonHostname(None))
  }

  /**
   * Rejected requests never reach a lookup: two worlds that agree on which
   * strings are addresses give the same 429 and 400 responses, whatever
   * their DNS and HTTP answers.
   */
  lemma GuardsPrecedeLookup(allowed: bool, ipParam: Option<string>, net1: Net, net2: Net)
    requires net1.valid == net2.valid
    requires !allowed || ipParam.None? || !net1.valid(Trim(ipParam.value))
    ensures Respond(allowed, ipParam, net1) == Respond(allowed, ipParam, net2)
  {
  }

  /** The response depends on the lookups only through the resolver's answer for the trimmed address. */
  lemma ResolverSeesTrimmedAddress(ipParam: string, net1: Net, net2: Net)
    requires net1.valid == net2.valid
    requires Utils.ResolveHostname(net1, Trim(ipParam)) == Utils.ResolveHostname(net2, Trim(ipParam))
    ensures Respond(true, Some(ipParam), net1) == Respond(true, Some(ipParam), net2)
  {
  }

  /** Whitespace around the parameter is ignored. */
  lemma SurroundingBlanksIgnored(ipParam: string, net: Net)
    ensures Respond(true, Some(Trim(ipParam)), net) == Respond(true, Some(ipParam), net)
  {
    TrimIdempotent(ipParam);
  }

  /**
   * One request: the limiter's read-modify-write of
   * `$_SESSION['hostname_rate_limit']` (5 per 60 s), then the response.
   * No other counter of the session (the page's 'rate_limit' among them)
   * changes.
   */
  method Handle(session: Session, now: int, ipParam: Option<string>, net: Net) returns (r: Response)
    modifies session
    ensures session.entries ==
              old(session.entries)[LookupKey := Admit(old(session.Lookup(LookupKey)), LookupMaxRequests, LookupTimeWindow, now).0]
    ensures r == Respond(Admit(old(session.Lookup(LookupKey)), LookupMaxRequests, LookupTimeWindow, now).1, ipParam, net)
  {
    var allowed := session.EnforceRateLimit(LookupKey, LookupMaxRequests, LookupTimeWindow, now);
    r := Respond(allowed, ipParam, net);
  }

  /** On a fresh session, five lookups within a minute are answered and the sixth and later get 429. */
  lemma SixthLookupRejected(times: seq<int>)
    requires |times| > 0
    requires forall i :: 0 <= i < |times| ==> times[i] - times[0] <= LookupTimeWindow
    ensures forall i :: 0 <= i < |times| ==> Decisions(None, LookupMaxRequests, LookupTimeWindow, times)[i] == (i < 5)
  {
    FreshKeyAdmitsExactlyMax(LookupMaxRequests, LookupTimeWindow, times);
  }
}
