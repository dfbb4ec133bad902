# Domain spam checker: a Dafny model

The server answers `GET /check?domain=<name>` with a JSON report on a domain: its
WHOIS status, its first A record and who owns that address, its MX and NS records,
and whether two DNS blocklists list it (SURBL, probed with a normalised name, and the
Spamhaus DBL, probed with the name as given). This project models the three parts of
`server.js` that decide what the report says, and proves properties of them:

- `WhoisOwner` — the owner extraction `whoisIP` runs on the output of `whois <ip>`:
  split the text into trimmed lines, take the first line whose field name is one of
  `OrgName`, `Org-Name`, `Orgname`, `netname`, `owner`, `CustName`, `descr` (ASCII
  case ignored) directly followed by a colon, split that line on `/:\s+/` and trim the
  second piece. The two sentinels ("WHOIS failed.", "Owner info not found.") and the
  crash when the second piece is missing are modelled.
- `Dnsbl` — `checkSURBL` and `checkDBL`: the SURBL name is lower-cased, loses one
  leading `http://` or `https://` and one leading `www.`, and is cut at the first
  slash; the DBL name is the domain unchanged. An answer with an address starting
  `127.` means listed (the convention of section 5 of RFC 5782); every DNS error,
  `ENOTFOUND` or not, means not listed.
- `CheckHandler` — the `/check` handler: 400 for a missing or blank domain, then the
  four awaited lookups (WHOIS, A, MX, NS) in order, 500 with the message of the first
  one that fails, then the owner lookup, the two blocklist probes and the 200 report.
  The handler returns the lookups it issued, so their order is part of its contract.

`JsText` models the JavaScript built-ins these rely on (`trim`, `toLowerCase`,
`startsWith`, `split` on one character with the separator search inside it,
`Array.prototype.find` and `map`)
and `Wrappers` holds `Option` and `Result`. The outside world (`whoiser`,
`dns.resolve4`/`resolveMx`/`resolveNs`, the `whois` child process) is a parameter:
an `Env` of functions from a name to the answer or the error.

The model follows these details of the code:

- every trimmed line of the `whois` output is tested, in order, and the first owner
  line wins;
- the field names are exactly the seven of the regular expression at `server.js:18`;
- the owner value is the second piece of a split on every `/:\s+/` match, so it stops
  at the next colon followed by white space;
- an owner line without a colon followed by white space makes `org.trim()` throw
  inside the `exec` callback. The handler does not catch that exception, so the
  process ends (`ProcessExit`) instead of replying;
- an `exec` error yields the owner "WHOIS failed.";
- the owner lookup is awaited before the two blocklist probes start.

## Model

| member | source | states |
|---|---|---|
| JsText.Trim | server.js:16 | the trimmed string neither starts nor ends with white space (ECMAScript WhiteSpace and LineTerminator), and a string already in that form is returned unchanged |
| JsText.TrimRemovesOnlySpace | server.js:16 | trimming removes only white space: the result is a contiguous middle of the input with only white space before and after it |
| JsText.FindFirst | server.js:17-19 | `find` returns the first element passing the test; no element before it passes; it finds nothing exactly when no element passes |
| JsText.FindFirstInFront | server.js:17-19 | appending elements does not change a match already found |
| JsText.FindFirstBehind | server.js:17-19 | elements in front that fail the test shift the match by their count |
| JsText.Map | server.js:16 | `map` keeps the length and applies the function at every index |
| JsText.MapConcat | server.js:16 | mapping a concatenation maps each part |
| JsText.ToLower | server.js:34 | lower-casing keeps the length, lowers each character and leaves no ASCII upper-case letter |
| JsText.IndexOf | server.js:37 | the separator search inside `split`: the index found holds the character and no earlier index does; there is none exactly when the character is absent |
| JsText.IndexOfConcat | server.js:37 | in `a + [c] + b` the first `c` is the first one in `a`, or the inserted one |
| JsText.SplitOn | server.js:16 | `split` on one character yields at least one piece, no piece contains the separator, and the first piece is a prefix of the input |
| JsText.JoinSplitOn | server.js:16 | joining the pieces of a split with the separator gives back the input |
| JsText.SplitOnJoin | server.js:16 | splitting pieces free of the separator, joined with it, gives back the pieces |
| JsText.SplitOnConcat | server.js:16 | the split of `a + sep + b` is the split of `a` followed by the split of `b` |
| WhoisOwner.FindOwnerLine | server.js:17-19 | the line chosen is the first whose field name is one of the seven (ASCII case ignored) followed by a colon; none is chosen exactly when no line is such |
| WhoisOwner.FindSeparator | server.js:21 | finds the leftmost colon followed by white space at or after a position, and none exactly when there is no such pair |
| WhoisOwner.SplitColonSpace | server.js:21 | the split on `/:\s+/` gives at least one piece, and exactly one when the line has no colon followed by white space |
| WhoisOwner.SplitColonSpaceSound | server.js:21 | the pieces interleaved with the removed runs rebuild the line; every run is a colon followed by white space only; no piece holds such a pair; every piece after the first starts with no white space, so each run was matched greedily |
| WhoisOwner.OwnerValue | server.js:20-22 | the owner value is the trimmed second piece; the extraction fails with this line exactly when the line has no colon followed by white space |
| WhoisOwner.TrimmedLines | server.js:16 | one trimmed line per piece of the split on line breaks |
| WhoisOwner.TrimmedLinesConcat | server.js:16 | the trimmed lines of `a + "\n" + b` are those of `a` followed by those of `b` |
| WhoisOwner.ParseOwnerOutcomes | server.js:16-25 | without an owner line the result is "Owner info not found."; the extraction throws only when an owner line lacks a colon followed by white space |
| WhoisOwner.ParseOwner | server.js:16-25 | without an owner line among the trimmed lines the result is "Owner info not found."; the extraction throws exactly when the first owner line has no colon followed by white space |
| WhoisOwner.WhoisIP | server.js:13-25 | an `exec` error resolves to "WHOIS failed."; otherwise the result is the owner extraction on standard output |
| WhoisOwner.FindOwnerLineInFront | server.js:17-19 | lines after the first owner line do not move it |
| WhoisOwner.FindOwnerLineBehind | server.js:17-19 | lines in front that are not owner lines shift it by their count |
| WhoisOwner.OwnerOfLinesInFront | server.js:17-25 | lines after the first owner line do not change the result |
| WhoisOwner.OwnerOfLinesBehind | server.js:17-25 | lines in front that are not owner lines do not change the result |
| WhoisOwner.ParseOwnerIgnoresLaterLines | server.js:16-25 | once a line of the text names an owner, any text appended after a line break is never consulted |
| WhoisOwner.ParseOwnerSkipsOtherLines | server.js:16-25 | text in front without an owner line does not change the result |
| WhoisOwner.ParseOwnerOfOneLine | server.js:16-25 | a single line without surrounding white space yields its owner value when it is an owner line, and "Owner info not found." otherwise |
| WhoisOwner.SplitFieldLine | server.js:21 | `<field>:<gap><value><tail>` splits so that the first piece is the field name and the second is exactly the value |
| WhoisOwner.ParseOwnerFieldLine | server.js:16-22 | round trip: a line `<field>:<white space><value>`, optionally followed by a colon, white space and more, is the owner line found and parses back to the value |
| WhoisOwner.SentinelsAreNotOwnerLines | server.js:14-25 | neither sentinel is an owner line |
| WhoisOwner.ParseOwnerOfSentinels | server.js:14-25 | each sentinel read back as WHOIS text gives "Owner info not found." |
| WhoisOwner.ParseOwnerWithoutGap | server.js:20-22 | `<field>:` alone, or followed directly by a value without white space, makes the callback throw with that line |
| WhoisOwner.ParseOwnerBareField | server.js:20-22 | "OrgName:" makes the callback throw |
| WhoisOwner.ParseOwnerNoGapAfterColon | server.js:20-22 | "OrgName:X" makes the callback throw |
| WhoisOwner.ParseOwnerStopsAtNextSeparator | server.js:21-22 | "descr: a: b" yields "a" |
| WhoisOwner.ParseOwnerOrgNameExample | server.js:16-22 | "OrgName:    Example Org" followed by another field line yields "Example Org" |
| Dnsbl.StripScheme | server.js:35 | removes exactly seven characters after `http://`, eight after `https://`, and nothing otherwise; the result is a suffix |
| Dnsbl.StripWww | server.js:36 | the result is a suffix, and shorter exactly when the input starts with `www.` |
| Dnsbl.Normalize | server.js:33-37 | the SURBL name has no slash, no ASCII upper-case letter, and is no longer than the domain |
| Dnsbl.NormalizeFixedPoints | server.js:33-37 | normalisation leaves a name unchanged exactly when it has no slash, no ASCII upper-case letter and does not start with `www.` |
| Dnsbl.NormalizeStripsOneWww | server.js:36 | `www.` in front of a clean lower-case name is removed |
| Dnsbl.NormalizeNotIdempotent | server.js:36 | only one `www.` goes per pass: `www.www.x` normalises to `www.x`, which normalises to `x` |
| Dnsbl.NormalizeLowercasesBeforeStripping | server.js:33-37 | `HTTP://WWW.<host>/<path>` normalises to the lower-cased host, since lower-casing happens first |
| Dnsbl.NormalizeStripsOneScheme | server.js:35-37 | only one scheme goes: `http://http://<rest>` normalises to `http:` |
| Dnsbl.ZoneLabel | server.js:39 | a name is in a zone exactly when it ends with it, and the label with the zone rebuilds the name |
| Dnsbl.SurblQueryLabel | server.js:39 | the name `SurblQuery` builds lies in `multi.surbl.org` and its label is the normalised domain |
| Dnsbl.DblQueryLabel | server.js:51 | the name `DblQuery` builds lies in `dbl.spamhaus.org` and its label is the domain unchanged |
| Dnsbl.AnyListedAddress | server.js:43 | true exactly when some address starts with `127.` |
| Dnsbl.Verdict | server.js:41-47 | listed exactly when the lookup succeeded and some answer starts with `127.`; every error and an empty answer mean not listed |
| Dnsbl.VerdictIgnoresOrder | server.js:43 | the verdict depends only on the multiset of answers |
| Dnsbl.CheckSurbl | server.js:32-48 | listed exactly when resolving the normalised domain under `.multi.surbl.org` succeeds with an address starting `127.` |
| Dnsbl.CheckDbl | server.js:50-61 | listed exactly when resolving the domain under `.dbl.spamhaus.org` succeeds with an address starting `127.` |
| Dnsbl.SurblListsUrlOfListedHost | server.js:32-43 | for a host without a slash and any resolver, the verdict on the URL `HTTP://WWW.<host>/<path>` is the verdict on the lower-cased host under `.multi.surbl.org` |
| Dnsbl.SurblListedExample | server.js:32-43 | `HTTP://WWW.Example.com/<path>` is listed when `example.com.multi.surbl.org` answers `127.0.0.2` |
| CheckHandler.RequestDomain | server.js:64-65 | no domain exactly when the parameter is absent or trims to the empty string; otherwise the trimmed parameter |
| CheckHandler.FirstFailure | server.js:67-73 | the first of the four awaited lookups that fails: it failed and every earlier one succeeded |
| CheckHandler.FirstAddress | server.js:70 | `aRecords[0]`: present exactly when there is an A record, and then the first one |
| CheckHandler.Exchanges | server.js:80 | one exchange name per MX record, in order |
| CheckHandler.DomainStatus | server.js:82 | the domain's "domain status" field when the record has it, and the empty list when the domain entry or the field is absent |
| CheckHandler.CompleteReport | server.js:70-85 | after the mandatory lookups: the process ends if the owner extraction throws; otherwise a 200 report with the first address, its owner or "N/A" for a missing or empty address, the exchanges, the NS records, the WHOIS status and both verdicts; the `whois` command (for a truthy address) precedes the SURBL and then the DBL query |
| CheckHandler.LookUpDomain | server.js:67-88 | the WHOIS, A, MX and NS lookups run in that order and the first failure is answered with 500 and its message, with no later lookup issued; otherwise the outcome of the report stage |
| CheckHandler.HandleCheck | server.js:63-89 | 400 "Missing domain parameter." with no lookup exactly when the domain is missing or blank; otherwise the outcome of the lookups on the trimmed domain |

## Left out

- The Express application, the static file directory, `listen` and `PORT`
  (`server.js:1-8`, `91-92`): plumbing with no logic of its own.
- `exec`, `whoiser` and the `dns` resolvers are parameters: `exec` yields an
  `ExecOutcome` (an error or the standard output; `maxBuffer`, standard error and
  signals are not modelled), and each resolver yields an answer or an error with its
  message.
- `Promise.all` runs the two blocklist probes concurrently; the model issues them in
  the order written (SURBL, then DBL). Their results do not depend on each other.
- JsText.ToLower: folds only ASCII letters, not the full Unicode case mapping of
  `toLowerCase`, and treats strings as sequences of characters, not UTF-16 code units.
- Dnsbl.Normalize: inherits the ASCII-only case folding of `ToLower`.
- WhoisOwner.IsOwnerLine: the `/i` flag is modelled as ASCII case folding. This is
  exact, not weaker: without the `u` flag, ECMAScript's case-insensitive matching
  never maps a character outside ASCII onto an ASCII letter, so no other character
  can match a letter of a field name.
- CheckHandler.RequestDomain: a query parameter that is not a single string (an
  array or an object from a repeated or nested parameter) is not modelled.
- CheckHandler.DomainStatus: assumes the "domain status" field is a list of strings,
  as `whoiser` returns; a non-list falsy value would also give `[]` in the source.
- CheckHandler.CompleteReport: the report holds `aRecord` as an option; when there
  is no A record, `JSON.stringify` omits the `undefined` field rather than writing
  `null`, which the model does not distinguish.
- The `ENOTFOUND` branch of both probes returns the same `false` as every other
  error, so it is not modelled separately.
- The handler is split into `HandleCheck`, `LookUpDomain` and `CompleteReport` for
  proof size; together they are the one handler.
