# ip-finder, modelled in Dafny

ip-finder is a small PHP web application that shows a visitor two addresses: the client address the server sees, and the external address that public "what is my IP" services report. It also offers a JSON hostname-lookup endpoint. A Python command-line script checks whether the machine's traffic and DNS go through Tor.

This project models the decisions these programs make once their network, DNS and JSON calls are treated as inputs:

- the per-session rate limiter;
- client-address extraction behind a trusted proxy;
- the local-range and private-range classifiers;
- the external-IP endpoint chains of the three PHP variants;
- the IP-information fetch;
- both hostname resolvers and the PTR and EC2 name construction;
- the hostname endpoint's guard chain;
- the page values of the main page;
- the Tor checker's DNS verdict and recommendation list.

Foreign calls are fields of an oracle value `Php.Net`. It supplies:

- address validity, standing for `FILTER_VALIDATE_IP`;
- HTTP replies;
- JSON decoding, which gives None on a syntax error;
- the reverse lookup `gethostbyaddr`, which gives None for `false`;
- PTR records from `dns_get_record`;
- the forward lookup `gethostbyname`.

Time is a parameter `now`. The session is a class holding the limiter counters. PHP's loose values are modelled as `Null | False | Str(s)`, and PHP truthiness treats "" and "0" as false.

Modules:

- `Php`: PHP values and string functions (`trim`, `explode`, `implode`, `str_replace`).
- `Chains`: the first-success search shared by all fallback chains.
- `Patterns`: the anchored regular expressions as string tests.
- `RateLimit`: `enforceRateLimit` and the session.
- `Utils`: utils.php.
- `Index`: the parts of index.php that differ from utils.php, plus the page values.
- `HostnameLookup`: hostname-lookup.php.
- `WhatsMyIp`: whats-my-ip.php.
- `TorCheck`: tor_check.py.

Notable behaviour of the code:

- `getIPInfo` never compares the echoed `ip` field with the address queried.
- `isLocalIP` tests the literal prefix `fc00::` rather than the block fc00::/7.
- `isLocalIP("10.0.0.5")` is true, so a client at 10.0.0.5 is never flagged as behind a proxy.
- The `resolveHostname` of utils.php accepts the ipinfo.io answer without checking the HTTP status.

## Model

| member | source | states |
|---|---|---|
| Php.Truthy | hostname-lookup.php:44 | a hostname value is truthy exactly when it is a string that PHP's `empty()` does not reject, so null, false, "" and "0" are falsy (also index.php:210) |
| Php.Empty | utils.php:99 | `empty()` on a string holds only for strings of at most one character, and a one-character string other than "0" is not empty (also utils.php:141, utils.php:205, index.php:112, index.php:177) |
| Php.StartsWithIsPrefix | utils.php:34-35 | the prefix test used for the anchored patterns holds exactly when the string's leading slice equals the prefix |
| Php.StartsWithConcat | utils.php:34-35 | a string starts with any string it is built from |
| Php.TrimLeft | utils.php:59 | result is a suffix of the input; every dropped character is one of PHP's trim characters, and the result does not start with one |
| Php.TrimRight | utils.php:59 | result is a prefix of the input; every dropped character is a trim character, and the result does not end with one |
| Php.Trim | utils.php:59 | the result is a contiguous slice of the input with only trim characters before and after it; neither end of it is a trim character, and a string without trim characters is unchanged |
| Php.TrimKeepsOut | utils.php:59 | trimming only removes characters: one absent from the input is absent from the result |
| Php.TrimIdempotent | hostname-lookup.php:33 | trimming twice is trimming once |
| Php.Split | utils.php:58 | `explode` yields at least one part and no part holds the delimiter |
| Php.Join | utils.php:181 | `implode` of no parts is empty; otherwise its length is the parts' total length plus one delimiter between each neighbouring pair, and it begins with the first part |
| Php.JoinSplit | utils.php:181 | `implode(d, explode(d, s)) == s` |
| Php.SplitJoin | utils.php:181 | exploding the implosion of delimiter-free parts gives the parts back |
| Php.SplitCons | utils.php:58 | the first part of `x + d + s` is `x` when `x` has no delimiter |
| Php.SplitNoDelimiter | utils.php:58 | a string without the delimiter explodes to itself alone |
| Php.Contains | utils.php:219 | `strpos` finds `t` exactly when `t` begins at some position of `s` |
| Php.Reverse | utils.php:181 | `array_reverse`: element i of the result is element n-1-i of the input |
| Php.Replace | utils.php:220 | `str_replace` of one character: every `from` becomes `to` and nothing else changes |
| Chains.FirstIndex | utils.php:83-116 | the first position whose attempt succeeds: all earlier ones fail, and it succeeds unless it is the end |
| Chains.FirstSome | utils.php:83-119 | no value exactly when every attempt fails; otherwise the value of an attempt at a position before which every attempt failed |
| Chains.FirstIndexIs | utils.php:83-119 | a position where all earlier attempts fail and this one succeeds (or the end) is the first index |
| Chains.LaterAlternativesIgnored | utils.php:83-119 | alternatives after the winner are never consulted: chains agreeing up to the winner give the same result |
| Chains.FirstFound | utils.php:83-119 | failure exactly when every endpoint fails, with the given message; otherwise the answer of the first accepting endpoint |
| Chains.FoundAt | utils.php:83-111 | when all endpoints before the i-th fail and the i-th accepts, the chain's result is the i-th's answer |
| Chains.NoneFound | utils.php:83-119 | when every endpoint fails, the chain's result is the failure message |
| Patterns.Matches | utils.php:35 | one anchored `preg_match`/`re.match` (also index.php:236, tor_check.py:141): `Prefix` and `Exact` stand for the literal patterns of utils.php:25-31, `Private172` for utils.php:27 and tor_check.py:132, `UniqueLocalAnyCase` for tor_check.py:137; no pattern matches a string shorter than what it requires (the literal, seven or two characters) |
| Patterns.MatchesMeaning | utils.php:35 | a literal prefix pattern holds exactly when the leading slice of the string is the literal; the 172 pattern implies the prefix "172." |
| Patterns.AnyMatches | utils.php:34-40 | "some pattern matches", the result of the loops at utils.php:34-40 and tor_check.py:140-143; an empty table matches nothing |
| Patterns.AnyMatchesCons | tor_check.py:140-143 | searching a table is trying its first pattern and then the rest, in the loops' order |
| Patterns.TwoDigits | utils.php:27 | the two decimal digits of a number between 10 and 99 |
| Patterns.Private172Range | utils.php:27 | the 172 pattern accepts exactly the strings starting "172.n." for n written 16 to 31 |
| RateLimit.Expired | utils.php:243 | the reset test (also index.php:32): a counter started at the current time has not expired for a non-negative window, and an expired one started strictly earlier |
| RateLimit.ExpiryIsPermanent | utils.php:243 | once a window has run out it stays expired at every later time |
| RateLimit.Admit | utils.php:234-258 | a missing or expired counter restarts at (1, now); otherwise the count goes up by one in the same window; admitted iff new count <= max |
| RateLimit.Decisions | utils.php:234-258 | one admission decision per call |
| RateLimit.WithinWindow | utils.php:243-254 | within one window the i-th further call is admitted iff count + i + 1 <= max, and the count grows by the number of calls |
| RateLimit.FreshKeyAdmitsExactlyMax | utils.php:234-258 | on an unset key, calls 1 to max within the first call's window are admitted and all later ones refused |
| RateLimit.ExpiredWindowRestarts | utils.php:243-248 | after the window has run out, the next call starts a new window and is admitted like a first call |
| RateLimit.WindowBoundaryDoesNotReset | utils.php:243 | a call exactly one window after the start stays in the old window |
| RateLimit.Session.constructor | utils.php:234 | the session starts without counters |
| RateLimit.Session.EnforceRateLimit | utils.php:234-258 | only the counter under the key changes, to the one `Admit` gives, and the result is `Admit`'s verdict |
| Utils.IsLocalIP | utils.php:23-41 | the loop's answer is whether some pattern of the table matches |
| Utils.IsLocalMeaning | utils.php:24-32 | local iff the address starts with 192.168., 10., 172.16.-172.31., 127. or 169.254., is exactly ::1, or starts with fc00:: |
| Utils.NotLocal | utils.php:24-40 | an address matching none of the seven patterns is not local |
| Utils.IsLocalCases | utils.php:24-40 | local iff one of the seven patterns, read one by one, matches |
| Utils.Local172Edges | utils.php:27 | 172.16. and 172.31. are local |
| Utils.Outside172NotLocal | utils.php:27 | 172.15. and 172.32. are not local |
| Utils.LocalIPv6Edges | utils.php:30-31 | ::1 and fc00::1 are local |
| Utils.IPv6NeighboursNotLocal | utils.php:30-31 | ::12 and fc01::1 are not local: the loopback test is exact and the unique-local test is the literal prefix fc00:: |
| Utils.FdBlockNotLocal | utils.php:31 | fd00::1, in the unique-local block fc00::/7, is not local |
| Utils.PublicAddressesNotLocal | utils.php:23-41 | the public addresses 8.8.8.8 and 203.0.113.9 are not local |
| Utils.PublicIPv6NotLocal | utils.php:23-41 | the public IPv6 address 2001:4860:4860::8888 is not local |
| Utils.ForwardedEntry | utils.php:58-59 | the forwarded entry contains no comma and neither end of it is a trim character |
| Utils.ForwardedEntryIsFirst | utils.php:58-59 | the forwarded address is the trimmed text before the first comma |
| Utils.GetClientIP | utils.php:44-71 | the result is "0.0.0.0" or a valid address; a valid forwarded entry from the trusted proxy is taken; otherwise the peer address when it is valid, else "0.0.0.0" |
| Utils.UntrustedPeerIgnoresHeader | utils.php:57 | for a peer that is not a trusted proxy the header is ignored: the result is the peer address if valid, else "0.0.0.0" |
| Utils.Accept | utils.php:99-112 | a non-200 status, an empty or "0" body, or a body that does not decode skips the endpoint; an accepted answer is a valid address taken from the `ip` or the `query` field |
| Utils.IpPreferredOverQuery | utils.php:108-109 | a valid `ip` field wins over the `query` field |
| Utils.QueryFallback | utils.php:110-111 | `query` is used exactly when `ip` is missing or invalid and `query` is valid |
| Utils.GetExternalIP | utils.php:74-120 | the loop returns the first accepted endpoint answer in list order, or the failure message; a found address is valid |
| Utils.FallThroughToQuery | utils.php:83-119 | malformed JSON, then an invalid `ip`, then a valid `query` yields the third endpoint's address |
| Utils.IpInfoUrl | utils.php:132 | the URL is "https://ipinfo.io/", then the address, then "/json" (also utils.php:197) |
| Utils.IpInfoUrlDistinct | utils.php:132 | distinct addresses are looked up under distinct URLs |
| Utils.GetIPInfo | utils.php:123-161 | a record is returned exactly when the address is valid, the reply is 200 and non-empty JSON, and it carries a valid `ip`; the record is the decoded body |
| Utils.IpInfoAcceptsDifferentEcho | utils.php:150-154 | a record whose valid `ip` differs from the queried address is still returned |
| Utils.PtrName | utils.php:181 | the name ends in ".in-addr.arpa", and the labels before that suffix are the address's dot-separated parts in reverse order |
| Utils.JoinQuad | utils.php:181 | four parts imploded with dots are a.b.c.d |
| Utils.PtrNameOfDottedQuad | utils.php:181 | for a.b.c.d the PTR name is d.c.b.a.in-addr.arpa |
| Utils.PtrNameWithoutDots | utils.php:181 | an address without dots gets only the ".in-addr.arpa" suffix |
| Utils.Ec2Name | utils.php:220-221 | the name is "ec2-", then the address with each dot turned into a dash and every other character kept, then ".compute-1.amazonaws.com" |
| Utils.Ec2NameOfDottedQuad | utils.php:220-221 | for a.b.c.d the guess is ec2-a-b-c-d.compute-1.amazonaws.com |
| Utils.Ec2GuessDiffersFromAddress | utils.php:225 | the guessed name is never the address itself |
| Utils.ByReverse | utils.php:171-176 | method 1 fails exactly when the reverse lookup echoes the address; otherwise it yields the lookup's answer, false included |
| Utils.ByPtr | utils.php:181-188 | method 2 succeeds exactly when the first PTR record of the reversed name has a target, and yields that target |
| Utils.ByApi | utils.php:194-211 | method 3 succeeds exactly when the API body is non-empty, decodes and has a `hostname` field, whatever the HTTP status, and yields that field |
| Utils.ByEc2Guess | utils.php:219-228 | method 4 succeeds exactly when the address has no ".compute-" and the guessed name resolves forward to the address, and yields the guessed name |
| Utils.Attempt | utils.php:171-228 | no method yields null: a method either fails (moves on) or yields false or a hostname |
| Utils.ResolveHostname | utils.php:164-231 | null iff the address is invalid or all four methods fail; otherwise the result of the first method that succeeds |
| Utils.ResolveHostnameAt | utils.php:164-231 | when the methods before the k-th fail and the k-th succeeds its answer is returned; when all fail, null |
| Utils.PtrAnswersWhenReverseEchoes | utils.php:171-188 | when the reverse lookup only echoes the address, the first PTR target is returned |
| Utils.Ec2GuessNeedsRoundTrip | utils.php:219-227 | the EC2 guess is returned only after the other three methods fail, for an address without ".compute-" whose guess resolves forward to it |
| Index.EnforceRateLimit | index.php:20-48 | the page counter changes as `Admit` says with 10 per 60 s; a rejected request ends with 429 and the plain-text notice |
| Index.EleventhPageLoadRejected | index.php:20-48 | on a fresh session the first 10 page loads in a minute proceed and the rest get 429 |
| Index.Accept | index.php:112-131 | a non-200 status, an empty or "0" body, or a body that does not decode skips the endpoint; an accepted answer is the `ip` field when present, else the `query` field, and is a valid address |
| Index.InvalidIpFieldSkipsEndpoint | index.php:121-129 | an invalid `ip` field skips the endpoint even when `query` is valid |
| Index.AcceptAgreesWithUtils | index.php:112-131 | whatever this variant accepts, utils.php accepts too; they differ only on an invalid `ip` with a valid `query` |
| Index.GetExternalIP | index.php:90-139 | the loop returns the first accepted endpoint answer in list order, or the failure message; a found address is valid |
| Index.ResolveHostname | index.php:142-157 | null iff the address is invalid or the reverse lookup echoes it; any other answer equals that of the four-step resolver |
| Index.PageTableIsUtilsTable | index.php:221-242 | the page's local-range table is that of utils.php, so the two classifiers agree |
| Index.UsingProxy | index.php:248 | tested with the page's own local-range table, the flag holds exactly when the client is not local by utils.php's classifier, differs from the external address, is not "0.0.0.0", and the external address is known |
| Index.ProxyFlagExamples | index.php:248 | a client equal to the external address, a local client, the unknown client and an unknown external address are not flagged; a distinct public client is |
| Index.Page | index.php:203-248 | the lookup outcome is kept as given for the template; the external address is "Unknown" on failure; the client hostname is resolved unless the client address is falsy; the external hostname and information lookups run only on success; the proxy flag is exactly the stated conjunction and implies success |
| Index.HandlePage | index.php:51-248 | the limiter runs first and a rejection ends the request; otherwise the page is built from the external lookup's result |
| HostnameLookup.Respond | hostname-lookup.php:19-48 | 429 iff rate-limited; then 400 for a missing parameter, 400 for an invalid trimmed address; 200 iff allowed with a valid trimmed address, with the resolved hostname or null |
| HostnameLookup.GuardsPrecedeLookup | hostname-lookup.php:19-38 | the 429 and 400 answers do not depend on any DNS or HTTP answer |
| HostnameLookup.ResolverSeesTrimmedAddress | hostname-lookup.php:33-41 | the answer depends on the lookups only through the resolver's result for the trimmed address |
| HostnameLookup.SurroundingBlanksIgnored | hostname-lookup.php:33 | surrounding whitespace in the parameter changes nothing |
| HostnameLookup.Handle | hostname-lookup.php:19-48 | only the 'hostname_rate_limit' counter changes (5 per 60 s), and the answer is `Respond` for the limiter's verdict |
| HostnameLookup.SixthLookupRejected | hostname-lookup.php:19 | on a fresh session five lookups in a minute are answered and later ones get 429 |
| WhatsMyIp.Accept | whats-my-ip.php:26-34 | an answer is taken exactly when the reply is 200, decodes and has an `ip` or `query` field; it is the `ip` field when present, else `query` |
| WhatsMyIp.IpFieldTakenUnchecked | whats-my-ip.php:26-31 | an `ip` field in a 200 answer is returned as is, without validation |
| WhatsMyIp.UnusableAnswerSkipped | whats-my-ip.php:26-34 | a non-200 or undecodable answer moves on to the next endpoint |
| WhatsMyIp.AcceptsWhatUtilsAccepts | whats-my-ip.php:26-34 | every answer utils.php accepts is accepted here; they differ only when `ip` is invalid |
| WhatsMyIp.ApisArePrefixOfUtils | whats-my-ip.php:10-14 | the endpoints are utils.php's first three, in order |
| WhatsMyIp.GetExternalIP | whats-my-ip.php:9-42 | the loop returns the first answer with an `ip` or `query` field, in list order, or 'Failed to retrieve IP address' |
| TorCheck.IsPrivateIP | tor_check.py:128-143 | the loop's answer is whether some pattern of the list matches |
| TorCheck.IsPrivateCases | tor_check.py:130-143 | private iff one of the seven patterns, read one by one, matches |
| TorCheck.IsPrivateMeaning | tor_check.py:130-138 | private iff the address starts with 10., 172.16.-172.31., 192.168., 127. or 169.254., is exactly ::1, or its first two characters are f/F and then c/C/d/D |
| TorCheck.Fc00PrefixIsUniqueLocal | tor_check.py:137 | a string starting with fc00:: passes the f/F, c/C/d/D test |
| TorCheck.LocalImpliesPrivate | tor_check.py:130-138 | every address the PHP side calls local is private |
| TorCheck.PrivateWiderThanLocal | tor_check.py:137 | fd00::1 and FC00::1 are private but not local |
| TorCheck.LocalhostIsPrivate | tor_check.py:134 | 127.0.0.1 is private |
| TorCheck.Ips | tor_check.py:181 | the `ip` fields of the classified list, in order |
| TorCheck.ClassifyServers | tor_check.py:119-124 | same length and order as the input, each entry marked local iff it is private |
| TorCheck.HasPrivate | tor_check.py:184 | a list with a private server is not empty, and a list holding 127.0.0.1 has a private server |
| TorCheck.CheckDnsThroughTor | tor_check.py:178-213 | True iff 127.0.0.1 is among the servers; None with its own message for an empty list or one without a private server; otherwise False off Tor and None on Tor |
| TorCheck.TorStatusOnlyForPrivateServers | tor_check.py:186-207 | the Tor status matters only when some server is private and 127.0.0.1 is absent |
| TorCheck.FalseMeansPrivateOffTor | tor_check.py:186-202 | the verdict is False exactly when 127.0.0.1 is absent, some server is private and Tor is not confirmed |
| TorCheck.LocalhostAnywhereSuffices | tor_check.py:186-189 | 127.0.0.1 at any position of any list gives True with the localhost message, whatever the Tor status |
| TorCheck.Recommendations | tor_check.py:215-235 | the list holds between two and seven lines |
| TorCheck.RecommendationTopics | tor_check.py:219-235 | the start-Tor advice appears exactly off Tor; the DNS steps exactly on Tor without DNS through Tor; the leak checks exactly on Tor; further testing exactly for an unknown DNS verdict |
| TorCheck.RecommendationCounts | tor_check.py:215-235 | 2 or 3 lines off Tor; 2, 6 or 7 on Tor for a DNS verdict of True, False or None |
| TorCheck.RecommendationShapes | tor_check.py:219-233 | the start-Tor lines open the list off Tor; on Tor with DNS through Tor the list is exactly the two leak checks; the last line is the further-testing advice iff the verdict is None |
| TorCheck.GetRecommendations | tor_check.py:215-235 | the appended list is `Recommendations` for the two statuses |

## Left out

- curl, urllib, TLS options, user agents and timeouts: network I/O. Each endpoint's reply is an oracle `(code, body)`, and an exception is the same as a failed reply.
- `gethostbyaddr`, `dns_get_record`, `gethostbyname`, `json_decode`/`json_last_error` and `FILTER_VALIDATE_IP` are foreign calls. They are oracle fields, so the model proves nothing about what counts as a valid address or valid JSON.
- Decoded JSON is a map of string fields. Fields whose values are not strings, and JSON documents that are not objects, are not modelled.
- The regular expressions are modelled as exact prefix or equality tests, so `$` matching before a trailing newline (`"::1\n"`) is not captured.
- `header()`, `session_start()`, `exit`, `echo`, `json_encode`, `time()`, `ob_start()`, `htmlspecialchars` and the HTML templates of index.php and whats-my-ip.php are output and runtime plumbing. Responses are (status, body) values and time is a parameter.
- `$_GET['ip']` given as an array is not modelled; the parameter is a string or absent.
- `isValidJson` is modelled as the decoding oracle's None.
- The page's `getClientIP`, `getIPInfo` and `isLocalIP` in index.php are the code of utils.php and are modelled once, in module Utils.
- public/js/ip-finder.js is browser UI and asynchronous code and is not part of this model.
- In tor_check.py, these are network, subprocess, file or printing code and are left out:
  - `print_colored`, `get_local_ip`, `get_external_ip`, `check_tor_connection`;
  - the reading of `ipconfig`, `scutil` or `/etc/resolv.conf` in `get_dns_servers`;
  - `test_dns_resolution`;
  - `run_all_tests`, `display_results`, `save_results_to_json`, `main`.
  The DNS server list and the `is_tor` value are inputs.
- TorCheck.CheckDnsThroughTor: `is_tor` is limited to True, False or None. Other JSON values the Tor service could send, and their Python truthiness, are not modelled.
- index.php has no CSRF check (its POST form at index.php:382 re-runs the same flow), and none is modelled.
