/**
 * Ordered fallback chains: try each alternative in turn and stop at the
 * first one that produces a value. Both the external-IP lookups (a list of
 * endpoints) and the hostname resolver (a list of methods) have this shape.
 */
module Chains {
  import opened Php

  /** The position of the first alternative that produces a value, or |xs| when none does. */
  function FirstIndex<T, U>(xs: seq<T>, attempt: T -> Option<U>): (k: nat)
    ensures k <= |xs|
    ensures forall j :: 0 <= j < k ==> attempt(xs[j]).None?
    ensures k < |xs| ==> attempt(xs[k]).Some?
  {
    if |xs| == 0 then 0
    else if attempt(xs[0]).Some? then 0
    else 1 + FirstIndex(xs[1..], attempt)
  }

  /** The value of the first alternative that produces one. */
  function FirstSome<T, U>(xs: seq<T>, attempt: T -> Option<U>): (r: Option<U>)
    ensures r.None? <==> forall j :: 0 <= j < |xs| ==> attempt(xs[j]).None?
    ensures r.Some? ==> exists k :: 0 <= k < |xs| && (forall j :: 0 <= j < k ==> attempt(xs[j]).None?) && attempt(xs[k]) == r
  {
    var k := FirstIndex(xs, attempt);
    if k < |xs| then attempt(xs[k]) else None
  }

  /** Any position where every earlier alternative failed and this one succeeded (or the end) is the first index. */
  lemma {:induction false} FirstIndexIs<T, U>(xs: seq<T>, attempt: T -> Option<U>, i: nat)
    requires i <= |xs|
    requires forall j :: 0 <= j < i ==> attempt(xs[j]).None?
    requires i < |xs| ==> attempt(xs[i]).Some?
    ensures FirstIndex(xs, attempt) == i
  {
    if i > 0 {
      assert attempt(xs[0]).None?;
      FirstIndexIs(xs[1..], attempt, i - 1);
    }
  }

  /**
   * Alternatives after the winning one are never consulted: a second
   * chain that agrees on the alternatives up to and including the winner
   * picks the same position and the same value.
   */
  lemma {:induction false} LaterAlternativesIgnored<T, U>(xs: seq<T>, f: T -> Option<U>, g: T -> Option<U>)
    requires FirstIndex(xs, f) < |xs|
    requires forall j :: 0 <= j <= FirstIndex(xs, f) ==> f(xs[j]) == g(xs[j])
    ensures FirstIndex(xs, g) == FirstIndex(xs, f)
    ensures FirstSome(xs, g) == FirstSome(xs, f)
  {
    FirstIndexIs(xs, g, FirstIndex(xs, f));
  }

  /** The result array of `getExternalIP`: `['success' => true, 'ip' => ...]` or `['success' => false, 'message' => ...]`. */
  datatype ExternalIP = Found(ip: string) | NotFound(message: string)

  /** The first endpoint, in list order, whose answer is accepted; `failure` when none is. */
  function FirstFound(urls: seq<string>, accept: string -> Option<string>, failure: string): (r: ExternalIP)
    ensures r.NotFound? <==> forall j :: 0 <= j < |urls| ==> accept(urls[j]).None?
    ensures r.NotFound? ==> r.message == failure
    ensures r.Found? ==> var k := FirstIndex(urls, accept);
              k < |urls| && accept(urls[k]) == Some(r.ip)
  {
    match FirstSome(urls, accept)
    case Some(ip) => Found(ip)
    case None => NotFound(failure)
  }

  /** The chain's result once the winning endpoint is known. */
  lemma FoundAt(urls: seq<string>, accept: string -> Option<string>, failure: string, i: nat, ip: string)
    requires i < |urls|
    requires forall j :: 0 <= j < i ==> accept(urls[j]).None?
    requires accept(urls[i]) == Some(ip)
    ensures FirstFound(urls, accept, failure) == Found(ip)
  {
    FirstIndexIs(urls, accept, i);
  }

  /** The chain's result when every endpoint failed. */
  lemma NoneFound(urls: seq<string>, accept: string -> Option<string>, failure: string)
    requires forall j :: 0 <= j < |urls| ==> accept(urls[j]).None?
    ensures FirstFound(urls, accept, failure) == NotFound(failure)
  {
  }
}
