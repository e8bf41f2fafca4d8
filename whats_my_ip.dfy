/**
 * The stand-alone page whats-my-ip.php: an older external-IP lookup over
 * three endpoints that checks only the HTTP status and takes the `ip` or
 * `query` field without validating it.
 */
module WhatsMyIp {
  import opened Php
  import opened Chains
  import Utils

  const Apis: seq<string> := [
    "https://api.ipify.org?format=json",
    "https://ipinfo.io/json",
    "https://api.ip.sb/jsonip"
  ]

  const Failure := "Failed to retrieve IP address"

  /** What one endpoint contributes: on HTTP 200, the decoded `ip` field, else the `query` field, as they are. */
  function Accept(net: Net, url: string): (r: Option<string>)
    ensures net.http(url).code != 200 || net.json(net.http(url).body).None? ==> r.None?
    ensures r.Some? <==> (net.http(url).code == 200 && net.json(net.http(url).body).Some? &&
                          ("ip" in net.json(net.http(url).body).value || "query" in net.json(net.http(url).body).value))
    ensures r.Some? ==> var data := net.json(net.http(url).body).value;
              ("ip" in data && r.value == data["ip"]) || ("ip" !in data && "query" in data && r.value == data["query"])
  {
    var reply := net.http(url);
    if reply.code == 200 then
      match net.json(reply.body)
      case None => None
      case Some(data) =>
        if "ip" in data then Some(data["ip"])
        else if "query" in data then Some(data["query"])
        else None
    else None
  }

  function Acceptor(net: Net): string -> Option<string> {
    url => Accept(net, url)
  }

  /** No validation: whatever string the `ip` field holds is taken, a non-address included. */
  lemma IpFieldTakenUnchecked(net: Net, url: string, data: Fields)
    requires net.http(url).code == 200
    requires net.json(net.http(url).body) == Some(data)
    requires "ip" in data
    ensures Accept(net, url) == Some(data["ip"])
  {
  }

  /** A non-200 status, or a body that does not decode, moves on to the next endpoint. */
  lemma UnusableAnswerSkipped(net: Net, url: string)
    requires net.http(url).code != 200 || net.json(net.http(url).body).None?
    ensures Accept(net, url).None?
  {
  }

  /** Every answer utils.php accepts is accepted here too, though not always with the same field. */
  lemma AcceptsWhatUtilsAccepts(net: Net, url: string)
    ensures Utils.Accept(net, url).Some? ==> Accept(net, url).Some?
    ensures Utils.Accept(net, url).Some? && Accept(net, url) != Utils.Accept(net, url) ==>
              var data := net.json(net.http(url).body).value;
              "ip" in data && !net.valid(data["ip"]) && Accept(net, url) == Some(data["ip"])
  {
  }

  /** The endpoints are those of utils.php without its last one, in the same order. */
  lemma ApisArePrefixOfUtils()
    ensures Apis == Utils.ExternalApis[..3]
  {
  }

  /** `getExternalIP` of whats-my-ip.php: ipify, ipinfo, ip.sb in that order; the first answer with a field wins. */
  method GetExternalIP(net: Net) returns (r: ExternalIP)
    ensures r == FirstFound(Apis, Acceptor(net), Failure)
  {
    for i := 0 to |Apis|
      invariant forall j :: 0 <= j < i ==> Accept(net, Apis[j]).None?
    {
      var reply := net.http(Apis[i]);
      if reply.code == 200 {
        var data := net.json(reply.body);
        if data.Some? && "ip" in data.value {
          FoundAt(Apis, Acceptor(net), Failure, i, data.value["ip"]);
          return Found(data.value["ip"]);
        } else if data.Some? && "query" in data.value {
          FoundAt(Apis, Acceptor(net), Failure, i, data.value["query"]);
          return Found(data.value["query"]);
        }
      }
    }
    NoneFound(Apis, Acceptor(net), Failure);
    return NotFound(Failure);
  }
}
