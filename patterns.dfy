/**
 * The anchored regular expressions the address classifiers match, each
 * written out as the exact string test it performs.
 */
module Patterns {
  import opened Php

  datatype Pattern =
    | Prefix(p: string)     // /^<literal>/        e.g. '/^10\./'
    | Exact(p: string)      // /^<literal>$/       e.g. '/^::1$/'
    | Private172            // /^172\.(1[6-9]|2[0-9]|3[0-1])\./
    | UniqueLocalAnyCase    // r'^[fF][cCdD]'

  predicate IsDigit(c: char) {
    '0' <= c <= '9'
  }

  /** `preg_match` / `re.match` of one anchored pattern against `s`. */
  predicate Matches(pat: Pattern, s: string)
    ensures Matches(pat, s) && (pat.Prefix? || pat.Exact?) ==> |pat.p| <= |s|
    ensures Matches(pat, s) && pat.Private172? ==> |s| >= 7
    ensures Matches(pat, s) && pat.UniqueLocalAnyCase? ==> |s| >= 2
  {
    StartsWithIsPrefix(s, if pat.Prefix? then pat.p else "");
    match pat
    case Prefix(p) => StartsWith(s, p)
    case Exact(p) => s == p
    case Private172 =>
      && |s| >= 7 && s[..4] == "172." && s[6] == '.'
      && (|| (s[4] == '1' && '6' <= s[5] <= '9')
          || (s[4] == '2' && IsDigit(s[5]))
          || (s[4] == '3' && '0' <= s[5] <= '1'))
    case UniqueLocalAnyCase =>
      |s| >= 2 && (s[0] == 'f' || s[0] == 'F') && (s[1] == 'c' || s[1] == 'C' || s[1] == 'd' || s[1] == 'D')
  }

  /** Some pattern of the table matches `s`. */
  predicate AnyMatches(table: seq<Pattern>, s: string)
    ensures |table| == 0 ==> !AnyMatches(table, s)
  {
    exists i :: 0 <= i < |table| && Matches(table[i], s)
  }

  /** Searching a table is trying its first pattern and then the rest, as the classifiers' loops do. */
  lemma AnyMatchesCons(table: seq<Pattern>, s: string)
    requires |table| > 0
    ensures AnyMatches(table, s) <==> Matches(table[0], s) || AnyMatches(table[1..], s)
  {
    assert forall i :: 0 < i < |table| ==> table[1..][i - 1] == table[i];
  }

  /** A literal prefix pattern holds exactly when the leading slice is the literal, and the 172 pattern implies the literal prefix "172.". */
  lemma MatchesMeaning(pat: Pattern, s: string)
    ensures pat.Prefix? ==> (Matches(pat, s) <==> |pat.p| <= |s| && s[..|pat.p|] == pat.p)
    ensures pat.Private172? && Matches(pat, s) ==> StartsWith(s, "172.")
  {
    StartsWithIsPrefix(s, if pat.Prefix? then pat.p else "172.");
  }

  /** The two decimal digits of a number between 10 and 99. */
  function TwoDigits(n: int): (r: string)
    requires 10 <= n < 100
    ensures |r| == 2 && IsDigit(r[0]) && IsDigit(r[1])
    ensures (r[0] as int - '0' as int) * 10 + (r[1] as int - '0' as int) == n
  {
    [('0' as int + n / 10) as char, ('0' as int + n % 10) as char]
  }

  /** The 172 pattern accepts exactly the strings whose second octet is written 16 through 31. */
  lemma Private172Range(s: string)
    ensures Matches(Private172, s) <==> exists n :: 16 <= n < 32 && StartsWith(s, "172." + TwoDigits(n) + ".")
  {
    if Matches(Private172, s) {
      var n := (s[4] as int - '0' as int) * 10 + (s[5] as int - '0' as int);
      var d := TwoDigits(n);
      assert d[0] == s[4] && d[1] == s[5];
      assert s[..7] == "172." + d + ".";
      StartsWithIsPrefix(s, "172." + d + ".");
    }
    if exists n :: 16 <= n < 32 && StartsWith(s, "172." + TwoDigits(n) + ".") {
      var n :| 16 <= n < 32 && StartsWith(s, "172." + TwoDigits(n) + ".");
      var d := TwoDigits(n);
      StartsWithIsPrefix(s, "172." + d + ".");
      assert s[..7] == "172." + d + ".";
      assert s[4] == d[0] && s[5] == d[1] && s[6] == '.';
      assert s[..4] == "172.";
    }
  }
}
