/** The two blocklist probes `checkSURBL` and `checkDBL` (server.js lines 31-61): the
    name each one queries and how the answer becomes a verdict. A domain is listed when
    its query name resolves to an address in 127.0.0.0/8, the convention of section 5
    of RFC 5782. */
module Dnsbl {
  import opened Wrappers
  import opened JsText

  const SurblZone: string := ".multi.surbl.org"
  const DblZone: string := ".dbl.spamhaus.org"
  /** An answer address with this prefix means "listed", whatever its sub-code. */
  const ListedPrefix: string := "127."

  /** A rejected `dns.resolve4` promise: an error code such as "ENOTFOUND" and a message. */
  datatype DnsError = DnsError(code: string, message: string)

  /** `dns.resolve4` as a capability: the addresses a name resolves to, or the error. */
  type Resolver = string -> Result<seq<string>, DnsError>

  /** `.replace(/^https?:\/\//, "")`: removes one leading scheme. */
  function StripScheme(s: string): (r: string)
    ensures |r| <= |s| && r == s[|s| - |r|..]
    ensures StartsWith(s, "http://") ==> r == s[7..]
    ensures StartsWith(s, "https://") ==> r == s[8..]
    ensures !StartsWith(s, "http://") && !StartsWith(s, "https://") ==> r == s
  {
    if StartsWith(s, "http://") then
      assert s[4] == ':';
      s[7..]
    else if StartsWith(s, "https://") then s[8..]
    else s
  }

  /** `.replace(/^www\./, "")`: removes one leading "www.". */
  function StripWww(s: string): (r: string)
    ensures |r| <= |s| && r == s[|s| - |r|..]
    ensures StartsWith(s, "www.") <==> |r| < |s|
  {
    if StartsWith(s, "www.") then s[4..] else s
  }

  /** The name `checkSURBL` looks up: lower-cased, one scheme and one "www." removed,
      cut at the first slash. */
  function Normalize(domain: string): (clean: string)
    ensures '/' !in clean
    ensures NoUpperAscii(clean)
    ensures |clean| <= |domain|
  {
    var lower := ToLower(domain);
    var unschemed := StripScheme(lower);
    NoUpperAsciiSuffix(lower, unschemed);
    var stripped := StripWww(unschemed);
    NoUpperAsciiSuffix(unschemed, stripped);
    var clean := SplitOn(stripped, '/')[0];
    NoUpperAsciiPrefix(stripped, clean);
    clean
  }

  /** A name that normalisation leaves alone. */
  predicate IsCleanName(name: string) {
    '/' !in name && NoUpperAscii(name) && !StartsWith(name, "www.")
  }

  lemma ToLowerOfLower(s: string)
    requires NoUpperAscii(s)
    ensures ToLower(s) == s
  {
  }

  /** Both schemes contain a slash. */
  lemma NoSchemeWithoutSlash(s: string)
    requires '/' !in s
    ensures !StartsWith(s, "http://") && !StartsWith(s, "https://")
  {
    if |s| >= 7 {
      assert s[5] in s;
    }
    if |s| >= 8 {
      assert s[6] in s;
    }
  }

  /** The fixed points of normalisation are exactly the clean names. */
  lemma NormalizeFixedPoints(domain: string)
    ensures Normalize(domain) == domain <==> IsCleanName(domain)
  {
    if IsCleanName(domain) {
      ToLowerOfLower(domain);
      NoSchemeWithoutSlash(domain);
      assert SplitOn(domain, '/') == [domain];
    }
    if Normalize(domain) == domain && StartsWith(domain, "www.") {
      ToLowerOfLower(domain);
      NoSchemeWithoutSlash(domain);
    }
  }

  lemma ToLowerConcat(a: string, b: string)
    ensures ToLower(a + b) == ToLower(a) + ToLower(b)
  {
  }

  /** Splitting at the first slash keeps what precedes it. */
  lemma FirstPieceBeforeSlash(a: string, b: string)
    requires '/' !in a
    ensures SplitOn(a + "/" + b, '/')[0] == a
  {
    SplitOnConcat(a, b, '/');
    assert a + "/" + b == a + ['/'] + b;
    assert SplitOn(a, '/') == [a];
  }

  /** One leading "www." is removed from a lower-case name without slashes. */
  lemma NormalizeStripsOneWww(name: string)
    requires '/' !in name && NoUpperAscii(name)
    ensures Normalize("www." + name) == name
  {
    var d := "www." + name;
    assert '/' !in d && NoUpperAscii(d) by {
      assert forall i :: 4 <= i < |d| ==> d[i] == name[i - 4];
    }
    ToLowerOfLower(d);
    NoSchemeWithoutSlash(d);
    assert d[4..] == name;
    assert SplitOn(name, '/') == [name];
  }

  /** Normalisation is not idempotent: only one "www." goes per pass, so
      "www.www.x" becomes "www.x", which a second pass turns into "x". */
  lemma NormalizeNotIdempotent(name: string)
    requires '/' !in name && NoUpperAscii(name)
    ensures var once := "www." + name; Normalize("www." + once) == once && Normalize(once) == name
  {
    var once := "www." + name;
    assert '/' !in once && NoUpperAscii(once) by {
      assert forall i :: 4 <= i < |once| ==> once[i] == name[i - 4];
    }
    NormalizeStripsOneWww(once);
    NormalizeStripsOneWww(name);
  }

  lemma StripWwwPrefix(rest: string)
    ensures StripWww("www." + rest) == rest
  {
    var named := "www." + rest;
    assert named[..4] == "www." && named[4..] == rest;
  }

  lemma StripHttpPrefix(rest: string)
    ensures StripScheme("http://" + rest) == rest
  {
    var url := "http://" + rest;
    assert url[..7] == "http://" && url[7..] == rest;
  }

  /** Lower-casing comes first, so an upper-case scheme and "WWW." are stripped too:
      "HTTP://WWW.<host>/<path>" becomes the lower-cased host. */
  lemma NormalizeLowercasesBeforeStripping(host: string, path: string)
    requires '/' !in host
    ensures Normalize("HTTP://WWW." + host + "/" + path) == ToLower(host)
  {
    var lhost, lpath := ToLower(host), ToLower(path);
    assert '/' !in lhost by {
      forall i | 0 <= i < |lhost| ensures lhost[i] != '/' {
        assert host[i] in host;
      }
    }
    var tail := lhost + "/" + lpath;
    assert ToLower("HTTP://WWW." + host + "/" + path) == "http://" + ("www." + tail) by {
      ToLowerConcat("HTTP://WWW.", host + "/" + path);
      ToLowerConcat(host, "/" + path);
      ToLowerConcat("/", path);
      assert ToLower("HTTP://WWW.") == "http://www.";
      assert ToLower("/") == "/";
    }
    StripHttpPrefix("www." + tail);
    StripWwwPrefix(tail);
    FirstPieceBeforeSlash(lhost, lpath);
  }

  lemma LowerDoubleHttp(rest: string)
    ensures ToLower("http://http://" + rest) == "http://" + ("http://" + ToLower(rest))
  {
    ToLowerConcat("http://http://", rest);
    assert ToLower("http://http://") == "http://http://";
  }

  /** What follows "http:" is not split off before the first slash. */
  lemma HttpUrlPieces(rest: string)
    ensures StripWww("http://" + rest) == "http://" + rest
    ensures SplitOn("http://" + rest, '/')[0] == "http:"
  {
    var url := "http://" + rest;
    assert url[..4][0] == 'h';
    forall k | 0 <= k < 5 ensures url[k] != '/' {
      assert url[k] == "http:"[k];
    }
    assert url[5] == '/';
    IndexOfAt(url, '/', 5);
    SplitOnAt(url, '/', 5);
    assert url[..5] == "http:";
  }

  /** Only one scheme is removed: "http://http://<rest>" becomes "http:". */
  lemma NormalizeStripsOneScheme(rest: string)
    ensures Normalize("http://http://" + rest) == "http:"
  {
    var lrest := ToLower(rest);
    LowerDoubleHttp(rest);
    StripHttpPrefix("http://" + lrest);
    HttpUrlPieces(lrest);
  }

  /** The name `checkSURBL` resolves: the normalised domain under the SURBL zone. */
  function SurblQuery(domain: string): string {
    Normalize(domain) + SurblZone
  }

  /** The name `checkDBL` resolves: the domain exactly as given, under the DBL zone. */
  function DblQuery(domain: string): string {
    domain + DblZone
  }

  /** The label a query name carries in front of a blocklist zone, if it is in that zone. */
  function ZoneLabel(query: string, zone: string): (prefix: Option<string>)
    ensures prefix.Some? <==> |zone| <= |query| && query[|query| - |zone|..] == zone
    ensures prefix.Some? ==> prefix.value + zone == query
  {
    if |zone| <= |query| && query[|query| - |zone|..] == zone then
      assert query == query[..|query| - |zone|] + query[|query| - |zone|..];
      Some(query[..|query| - |zone|])
    else None
  }

  /** The SURBL query lies in the SURBL zone, and its label is the normalised domain,
      which has no slash and no upper-case letter. */
  lemma SurblQueryLabel(domain: string)
    ensures ZoneLabel(SurblQuery(domain), SurblZone) == Some(Normalize(domain))
  {
    var q := SurblQuery(domain);
    assert q[|q| - |SurblZone|..] == SurblZone;
    assert q[..|q| - |SurblZone|] == Normalize(domain);
  }

  /** The DBL query lies in the DBL zone, and its label is the domain unchanged. */
  lemma DblQueryLabel(domain: string)
    ensures ZoneLabel(DblQuery(domain), DblZone) == Some(domain)
  {
    var q := DblQuery(domain);
    assert q[|q| - |DblZone|..] == DblZone;
    assert q[..|q| - |DblZone|] == domain;
  }

  /** `records.some(ip => ip.startsWith("127."))`. */
  function AnyListedAddress(addresses: seq<string>): (found: bool)
    ensures found <==> exists i :: 0 <= i < |addresses| && StartsWith(addresses[i], ListedPrefix)
  {
    if |addresses| == 0 then false
    else if StartsWith(addresses[0], ListedPrefix) then true
    else
      var found := AnyListedAddress(addresses[1..]);
      assert found ==> exists i :: 0 <= i < |addresses| && StartsWith(addresses[i], ListedPrefix) by {
        if found {
          var i :| 0 <= i < |addresses[1..]| && StartsWith(addresses[1..][i], ListedPrefix);
          assert addresses[i + 1] == addresses[1..][i];
        }
      }
      assert !found ==> forall i :: 0 <= i < |addresses| ==> !StartsWith(addresses[i], ListedPrefix) by {
        if !found {
          forall i | 1 <= i < |addresses| ensures !StartsWith(addresses[i], ListedPrefix) {
            assert addresses[i] == addresses[1..][i - 1];
          }
        }
      }
      found
  }

  /** A lookup outcome read as a verdict: listed exactly when the lookup succeeded and
      some answer lies in 127.0.0.0/8. "ENOTFOUND" and every other error read as not
      listed, so no error escapes. */
  function Verdict(answer: Result<seq<string>, DnsError>): (listed: bool)
    ensures listed <==> answer.Ok? && exists i :: 0 <= i < |answer.value| && StartsWith(answer.value[i], ListedPrefix)
    ensures answer.Err? ==> !listed
    ensures answer == Ok([]) ==> !listed
  {
    match answer
    case Ok(addresses) => AnyListedAddress(addresses)
    case Err(_) => false
  }

  /** The verdict depends only on which addresses came back, not on their order. */
  lemma VerdictIgnoresOrder(a: seq<string>, b: seq<string>)
    requires multiset(a) == multiset(b)
    ensures Verdict(Ok(a)) == Verdict(Ok(b))
  {
    if Verdict(Ok(a)) {
      var i :| 0 <= i < |a| && StartsWith(a[i], ListedPrefix);
      assert a[i] in multiset(b);
      var j :| 0 <= j < |b| && b[j] == a[i];
    }
    if Verdict(Ok(b)) {
      var j :| 0 <= j < |b| && StartsWith(b[j], ListedPrefix);
      assert b[j] in multiset(a);
      var i :| 0 <= i < |a| && a[i] == b[j];
    }
  }

  /** `checkSURBL(domain)` over a resolver. */
  function CheckSurbl(domain: string, resolve4: Resolver): (listed: bool)
    ensures listed <==> var answer := resolve4(Normalize(domain) + SurblZone);
      answer.Ok? && exists i :: 0 <= i < |answer.value| && StartsWith(answer.value[i], ListedPrefix)
  {
    Verdict(resolve4(SurblQuery(domain)))
  }

  /** `checkDBL(domain)` over a resolver. */
  function CheckDbl(domain: string, resolve4: Resolver): (listed: bool)
    ensures listed <==> var answer := resolve4(domain + DblZone);
      answer.Ok? && exists i :: 0 <= i < |answer.value| && StartsWith(answer.value[i], ListedPrefix)
  {
    Verdict(resolve4(DblQuery(domain)))
  }

  /** A URL is SURBL-listed exactly when its host is: the verdict on
      "HTTP://WWW.<host>/<path>" is the verdict on "<host in lower case>.multi.surbl.org". */
  lemma SurblListsUrlOfListedHost(host: string, path: string, resolve4: Resolver)
    requires '/' !in host
    ensures CheckSurbl("HTTP://WWW." + host + "/" + path, resolve4) == Verdict(resolve4(ToLower(host) + SurblZone))
  {
    NormalizeLowercasesBeforeStripping(host, path);
  }

  /** "Example.com" lower-cased. */
  lemma LowerExampleHost()
    ensures ToLower("Example.com") == "example.com"
  {
    var lower := ToLower("Example.com");
    forall i | 0 <= i < |lower| ensures lower[i] == "example.com"[i] {
      assert lower[i] == LowerChar("Example.com"[i]);
    }
  }

  /** "HTTP://WWW.Example.com/<path>" is SURBL-listed when the resolver answers
      127.0.0.2 for "example.com.multi.surbl.org". */
  lemma SurblListedExample(path: string, resolve4: Resolver)
    requires resolve4("example.com.multi.surbl.org") == Ok(["127.0.0.2"])
    ensures CheckSurbl("HTTP://WWW." + "Example.com" + "/" + path, resolve4)
  {
    LowerExampleHost();
    assert ToLower("Example.com") + SurblZone == "example.com.multi.surbl.org";
    assert StartsWith("127.0.0.2", ListedPrefix) by {}
    assert Verdict(Ok(["127.0.0.2"]));
    SurblListsUrlOfListedHost("Example.com", path, resolve4);
  }
}
