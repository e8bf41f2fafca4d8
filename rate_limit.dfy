/**
 * The per-session rate limiter of utils.php (`enforceRateLimit`): each key
 * of the session holds a request count and the time of the first request
 * of the current window.
 */
module RateLimit {
  import opened Php

  /** `$_SESSION[$key] = ['count' => ..., 'first_request' => ...]` */
  datatype Counter = Counter(count: int, firstRequest: int)

  /** The defaults of `enforceRateLimit($key = 'rate_limit', $maxRequests = 10, $timeWindow = 60)`. */
  const DefaultKey := "rate_limit"
  const DefaultMaxRequests := 10
  const DefaultTimeWindow := 60

  /** True when the window of `c` has run out at time `now` (strictly longer than `timeWindow` ago). */
  predicate Expired(c: Counter, timeWindow: int, now: int)
    ensures timeWindow >= 0 && c.firstRequest == now ==> !Expired(c, timeWindow, now)
    ensures Expired(c, timeWindow, now) && timeWindow >= 0 ==> now > c.firstRequest
  {
    now - c.firstRequest > timeWindow
  }
  /** Once a window has run out it stays expired at every later time. */
  lemma ExpiryIsPermanent(c: Counter, timeWindow: int, now: int, later: int)
    requires Expired(c, timeWindow, now) && now <= later
    ensures Expired(c, timeWindow, later)
  {
  }


  /**
   * One call of the limiter on the counter stored under a key (None: not
   * yet set): the new counter and whether the request is admitted.
   * A missing or expired counter restarts at `now`; the count goes up on
   * every call, admitted or not.
   */
  function Admit(entry: Option<Counter>, maxRequests: int, timeWindow: int, now: int): (r: (Counter, bool))
    ensures entry.None? || Expired(entry.value, timeWindow, now) ==> r.0 == Counter(1, now)
    ensures entry.Some? && !Expired(entry.value, timeWindow, now) ==>
              r.0 == Counter(entry.value.count + 1, entry.value.firstRequest)
    ensures r.1 <==> r.0.count <= maxRequests
  {
    var started := if entry.None? then Counter(0, now) else entry.value;
    var current := if Expired(started, timeWindow, now) then Counter(0, now) else started;
    var next := current.(count := current.count + 1);
    (next, !(next.count > maxRequests))
  }

  /** The admission decisions for a series of calls at the given times, starting from `entry`. */
  function Decisions(entry: Option<Counter>, maxRequests: int, timeWindow: int, times: seq<int>): (r: seq<bool>)
    ensures |r| == |times|
    decreases |times|
  {
    if |times| == 0 then []
    else
      var (next, ok) := Admit(entry, maxRequests, timeWindow, times[0]);
      [ok] + Decisions(Some(next), maxRequests, timeWindow, times[1..])
  }

  /** The counter after a series of calls at the given times, starting from `entry`. */
  function After(entry: Option<Counter>, maxRequests: int, timeWindow: int, times: seq<int>): Option<Counter>
    decreases |times|
  {
    if |times| == 0 then entry
    else After(Some(Admit(entry, maxRequests, timeWindow, times[0]).0), maxRequests, timeWindow, times[1..])
  }

  /**
   * Within one window (no call later than `timeWindow` after the window's
   * start) the counter only goes up: the i-th further call is admitted
   * exactly when count + i + 1 <= maxRequests.
   */
  lemma {:induction false} WithinWindow(c: Counter, maxRequests: int, timeWindow: int, times: seq<int>)
    requires forall i :: 0 <= i < |times| ==> times[i] - c.firstRequest <= timeWindow
    ensures forall i :: 0 <= i < |times| ==>
              Decisions(Some(c), maxRequests, timeWindow, times)[i] == (c.count + i + 1 <= maxRequests)
    ensures After(Some(c), maxRequests, timeWindow, times) == Some(Counter(c.count + |times|, c.firstRequest))
    decreases |times|
  {
    if |times| > 0 {
      var next := Counter(c.count + 1, c.firstRequest);
      assert Admit(Some(c), maxRequests, timeWindow, times[0]) == (next, c.count + 1 <= maxRequests);
      WithinWindow(next, maxRequests, timeWindow, times[1..]);
      var d := Decisions(Some(c), maxRequests, timeWindow, times);
      assert d == [c.count + 1 <= maxRequests] + Decisions(Some(next), maxRequests, timeWindow, times[1..]);
      forall i | 1 <= i < |times|
        ensures d[i] == (c.count + i + 1 <= maxRequests)
      {
        assert d[i] == Decisions(Some(next), maxRequests, timeWindow, times[1..])[i - 1];
      }
    }
  }

  /**
   * On a key that is not yet set, calls 1..maxRequests within the first
   * call's window are admitted and every later call in that window
   * (from call maxRequests + 1 on) is refused.
   */
  lemma {:induction false} FreshKeyAdmitsExactlyMax(maxRequests: int, timeWindow: int, times: seq<int>)
    requires |times| > 0
    requires forall i :: 0 <= i < |times| ==> times[i] - times[0] <= timeWindow
    ensures forall i :: 0 <= i < |times| ==>
              Decisions(None, maxRequests, timeWindow, times)[i] == (i < maxRequests)
    ensures After(None, maxRequests, timeWindow, times) == Some(Counter(|times|, times[0]))
  {
    var first := Counter(1, times[0]);
    assert Admit(None, maxRequests, timeWindow, times[0]) == (first, 1 <= maxRequests);
    WithinWindow(first, maxRequests, timeWindow, times[1..]);
    var d := Decisions(None, maxRequests, timeWindow, times);
    forall i | 1 <= i < |times|
      ensures d[i] == (i < maxRequests)
    {
      assert d[i] == Decisions(Some(first), maxRequests, timeWindow, times[1..])[i - 1];
    }
  }

  /** Once the window has run out, the next call starts a new window and is admitted like a first call. */
  lemma ExpiredWindowRestarts(c: Counter, maxRequests: int, timeWindow: int, now: int)
    requires now - c.firstRequest > timeWindow
    ensures Admit(Some(c), maxRequests, timeWindow, now) == (Counter(1, now), 1 <= maxRequests)
  {
  }

  /** A call exactly `timeWindow` after the window's start is still inside the window. */
  lemma WindowBoundaryDoesNotReset(c: Counter, maxRequests: int, timeWindow: int)
    ensures Admit(Some(c), maxRequests, timeWindow, c.firstRequest + timeWindow).0 == Counter(c.count + 1, c.firstRequest)
  {
  }

  /** The session: `$_SESSION`, restricted to the limiter's counters. */
  class Session {
    var entries: map<string, Counter>

    ghost function Lookup(key: string): Option<Counter>
      reads this
    {
      if key in entries then Some(entries[key]) else None
    }

    constructor ()
      ensures entries == map[]
    {
      entries := map[];
    }

    /**
     * `enforceRateLimit($key, $maxRequests, $timeWindow)` at time `now`:
     * only `$_SESSION[$key]` changes, to the counter `Admit` gives; the
     * result says whether the request may proceed.
     */
    method EnforceRateLimit(key: string, maxRequests: int, timeWindow: int, now: int) returns (allowed: bool)
      modifies this
      ensures entries == old(entries)[key := Admit(old(Lookup(key)), maxRequests, timeWindow, now).0]
      ensures allowed == Admit(old(Lookup(key)), maxRequests, timeWindow, now).1
    {
      if key !in entries {
        entries := entries[key := Counter(0, now)];
      }
      if now - entries[key].firstRequest > timeWindow {
        entries := entries[key := Counter(0, now)];
      }
      entries := entries[key := entries[key].(count := entries[key].count + 1)];
      if entries[key].count > maxRequests {
        return false;
      }
      return true;
    }
  }
}
