/**
 * PHP values, string built-ins and the foreign lookups the application
 * depends on, as far as the modelled code needs them.
 */
module Php {

  datatype Option<+T> = None | Some(value: T)

  /** The PHP values a hostname lookup can produce: `null`, `false` or a string. */
  datatype Value = Null | False | Str(s: string)

  /** A decoded JSON object: its keys with a non-null (string) value, i.e. the keys `isset` accepts. */
  type Fields = map<string, string>

  /** What curl reports for one request: the HTTP status and the response body ("" when the transfer failed). */
  datatype Reply = Reply(code: int, body: string)

  /**
   * The outside world, as seen by the application:
   *   valid   -- filter_var(_, FILTER_VALIDATE_IP)
   *   http    -- a GET of the given URL through curl
   *   json    -- json_decode(_, true); None when json_last_error() reports an error
   *   reverse -- gethostbyaddr; None when it returns false
   *   ptr     -- dns_get_record(_, DNS_PTR), each record as its fields
   *   forward -- gethostbyname (returns its argument when nothing resolves)
   */
  datatype Net = Net(
    valid: string -> bool,
    http: string -> Reply,
    json: string -> Option<Fields>,
    reverse: string -> Option<string>,
    ptr: string -> seq<Fields>,
    forward: string -> string)

  /** What a request handler sends back: the HTTP status and the body. */
  datatype Response = Response(status: int, body: Body)

  datatype Body =
    | Text(text: string)                       // plain-text body
    | JsonError(error: string)                 // {"error": ...}
    | JsonHostname(hostname: Option<string>)   // {"hostname": ...} or {"hostname": null}

  /** PHP truthiness of a hostname value: null, false, "" and "0" are falsy. */
  predicate Truthy(v: Value)
    ensures Truthy(v) <==> v.Str? && !Empty(v.s)
  {
    v.Str? && v.s != "" && v.s != "0"
  }

  /** PHP `empty()` applied to a string. */
  predicate Empty(s: string)
    ensures Empty(s) ==> |s| <= 1
    ensures |s| == 1 && s[0] != '0' ==> !Empty(s)
  {
    s == "" || s == "0"
  }

  predicate StartsWith(s: string, prefix: string)
    decreases |prefix|
  {
    |prefix| == 0 || (|s| > 0 && s[0] == prefix[0] && StartsWith(s[1..], prefix[1..]))
  }

  lemma {:induction false} StartsWithIsPrefix(s: string, prefix: string)
    ensures StartsWith(s, prefix) <==> |prefix| <= |s| && s[..|prefix|] == prefix
    decreases |prefix|
  {
    if |prefix| > 0 && |s| > 0 {
      StartsWithIsPrefix(s[1..], prefix[1..]);
      if |prefix| <= |s| {
        assert s[..|prefix|] == [s[0]] + s[1..][..|prefix| - 1];
        assert prefix == [prefix[0]] + prefix[1..];
      }
    }
  }

  /** A string starts with anything it is built from. */
  lemma {:induction false} StartsWithConcat(prefix: string, rest: string)
    ensures StartsWith(prefix + rest, prefix)
    decreases |prefix|
  {
    if |prefix| > 0 {
      StartsWithConcat(prefix[1..], rest);
      assert (prefix + rest)[1..] == prefix[1..] + rest;
    }
  }

  /** `strpos($s, $t) !== false` */
  predicate Contains(s: string, t: string)
    ensures Contains(s, t) <==> exists k :: 0 <= k <= |s| && StartsWith(s[k..], t)
  {
    assert s[0..] == s;
    assert forall k :: 0 < k <= |s| ==> s[1..][k - 1..] == s[k..];
    StartsWith(s, t) || (|s| > 0 && Contains(s[1..], t))
  }

  /** The characters PHP's `trim` removes by default: " \t\n\r\0\x0B". */
  predicate IsTrimChar(c: char) {
    c == ' ' || c == '\t' || c == '\n' || c == '\r' || c == '\0' || c == 11 as char
  }

  function TrimLeft(s: string): (r: string)
    ensures |r| <= |s|
    ensures r == s[|s| - |r|..]
    ensures forall i :: 0 <= i < |s| - |r| ==> IsTrimChar(s[i])
    ensures |r| > 0 ==> !IsTrimChar(r[0])
  {
    if |s| > 0 && IsTrimChar(s[0]) then TrimLeft(s[1..]) else s
  }

  function TrimRight(s: string): (r: string)
    ensures |r| <= |s|
    ensures r == s[..|r|]
    ensures forall i :: |r| <= i < |s| ==> IsTrimChar(s[i])
    ensures |r| > 0 ==> !IsTrimChar(r[|r| - 1])
  {
    if |s| > 0 && IsTrimChar(s[|s| - 1]) then TrimRight(s[..|s| - 1]) else s
  }

  /** `r` is the slice of `s` starting at `k`, and everything of `s` around it is a trim character. */
  predicate TrimmedAt(s: string, r: string, k: nat) {
    k + |r| <= |s| && r == s[k..k + |r|] &&
    (forall i :: 0 <= i < k ==> IsTrimChar(s[i])) &&
    (forall i :: k + |r| <= i < |s| ==> IsTrimChar(s[i]))
  }

  /** PHP `trim`: `s` without its leading and trailing trim characters. */
  function Trim(s: string): (r: string)
    ensures |r| <= |s|
    ensures exists k: nat :: TrimmedAt(s, r, k)
    ensures |r| > 0 ==> !IsTrimChar(r[0]) && !IsTrimChar(r[|r| - 1])
    ensures (forall i :: 0 <= i < |s| ==> !IsTrimChar(s[i])) ==> r == s
  {
    var l := TrimLeft(s);
    var r := TrimRight(l);
    assert TrimmedAt(s, r, |s| - |l|);
    r
  }

  /** Trimming only removes characters: one absent from `s` is absent from the result. */
  lemma TrimKeepsOut(s: string, c: char)
    requires c !in s
    ensures c !in Trim(s)
  {
    var k: nat :| TrimmedAt(s, Trim(s), k);
  }

  lemma TrimIdempotent(s: string)
    ensures Trim(Trim(s)) == Trim(s)
  {
    var t := Trim(s);
    assert TrimLeft(t) == t;
    assert TrimRight(t) == t;
  }

  /** PHP `explode`: the pieces of `s` between occurrences of `d`; never empty. */
  function Split(s: string, d: char): (parts: seq<string>)
    ensures |parts| >= 1
    ensures forall i :: 0 <= i < |parts| ==> d !in parts[i]
  {
    if |s| == 0 then [""]
    else
      var rest := Split(s[1..], d);
      if s[0] == d then [""] + rest
      else [[s[0]] + rest[0]] + rest[1..]
  }

  /** The combined length of `parts`. */
  function TotalLength(parts: seq<string>): nat {
    if |parts| == 0 then 0 else |parts[0]| + TotalLength(parts[1..])
  }

  /** PHP `implode`: the pieces with `d` between neighbours. */
  function Join(parts: seq<string>, d: char): (r: string)
    ensures |parts| == 0 ==> r == ""
    ensures |parts| > 0 ==> |r| == TotalLength(parts) + |parts| - 1
    ensures |parts| > 0 ==> r[..|parts[0]|] == parts[0]
  {
    if |parts| == 0 then ""
    else if |parts| == 1 then parts[0]
    else parts[0] + [d] + Join(parts[1..], d)
  }

  /** Joining what `explode` produced gives back the original string. */
  lemma {:induction false} JoinSplit(s: string, d: char)
    ensures Join(Split(s, d), d) == s
  {
    if |s| > 0 {
      var rest := Split(s[1..], d);
      JoinSplit(s[1..], d);
      if s[0] == d {
        assert Split(s, d) == [""] + rest;
        assert ([""] + rest)[1..] == rest;
        assert s == [d] + s[1..];
      } else {
        var parts := [[s[0]] + rest[0]] + rest[1..];
        assert Split(s, d) == parts;
        if |rest| == 1 {
          assert s == [s[0]] + s[1..];
        } else {
          assert parts[1..] == rest[1..];
          assert Join(rest, d) == rest[0] + [d] + Join(rest[1..], d);
          assert s == [s[0]] + s[1..];
        }
      }
    }
  }

  lemma SplitCons(x: string, s: string, d: char)
    requires d !in x
    ensures Split(x + [d] + s, d) == [x] + Split(s, d)
    decreases |x|
  {
    if |x| == 0 {
      assert x + [d] + s == [d] + s;
      assert ([d] + s)[1..] == s;
    } else {
      var t := x + [d] + s;
      assert t[0] == x[0] && t[1..] == x[1..] + [d] + s;
      SplitCons(x[1..], s, d);
      assert [x[0]] + x[1..] == x;
    }
  }

  lemma SplitNoDelimiter(x: string, d: char)
    requires d !in x
    ensures Split(x, d) == [x]
    decreases |x|
  {
    if |x| > 0 {
      SplitNoDelimiter(x[1..], d);
      assert [x[0]] + x[1..] == x;
    }
  }

  /** Splitting a join of delimiter-free pieces gives back the pieces. */
  lemma {:induction false} SplitJoin(parts: seq<string>, d: char)
    requires |parts| >= 1
    requires forall i :: 0 <= i < |parts| ==> d !in parts[i]
    ensures Split(Join(parts, d), d) == parts
  {
    if |parts| == 1 {
      SplitNoDelimiter(parts[0], d);
    } else {
      SplitJoin(parts[1..], d);
      SplitCons(parts[0], Join(parts[1..], d), d);
      assert [parts[0]] + parts[1..] == parts;
    }
  }

  function Reverse<T>(s: seq<T>): (r: seq<T>)
    ensures |r| == |s|
    ensures forall i :: 0 <= i < |s| ==> r[i] == s[|s| - 1 - i]
  {
    if |s| == 0 then [] else Reverse(s[1..]) + [s[0]]
  }

  /** PHP `str_replace` for one character by another. */
  function Replace(s: string, from: char, to: char): (r: string)
    ensures |r| == |s|
    ensures forall i :: 0 <= i < |s| ==> r[i] == (if s[i] == from then to else s[i])
  {
    if |s| == 0 then "" else [if s[0] == from then to else s[0]] + Replace(s[1..], from, to)
  }
}
