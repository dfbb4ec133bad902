/** The `GET /check` handler (server.js lines 63-89). The lookups it awaits are
    capabilities in an `Env`; the handler returns the response it sends together with
    the lookups it issued, in the order it issued them. */
module CheckHandler {
  import opened Wrappers
  import opened JsText
  import opened WhoisOwner
  import opened Dnsbl

  const MissingDomain: string := "Missing domain parameter."
  /** The owner reported when there is no address to look up. */
  const NoAddressOwner: string := "N/A"
  const DomainStatusKey: string := "domain status"

  /** An entry of `dns.resolveMx`. */
  datatype MxRecord = MxRecord(priority: int, exchange: string)

  /** What `whoiser(domain)` resolves with: field lists keyed by a top-level key and
      then by field name. */
  type WhoisRecord = map<string, map<string, seq<string>>>

  /** The capabilities the handler awaits; every failure carries its message. */
  datatype Env = Env(
    whoiser: string -> Result<WhoisRecord, string>,
    resolve4: Resolver,
    resolveMx: string -> Result<seq<MxRecord>, DnsError>,
    resolveNs: string -> Result<seq<string>, DnsError>,
    exec: string -> ExecOutcome)

  /** One request to the outside world. */
  datatype Lookup =
    | WhoisQuery(domain: string)
    | AQuery(name: string)
    | MxQuery(name: string)
    | NsQuery(name: string)
    | Command(line: string)

  datatype Report = Report(
    domain: string,
    aRecord: Option<string>,
    mx: seq<string>,
    ns: seq<string>,
    whoisStatus: seq<string>,
    ipOwner: string,
    surbl: bool,
    dbl: bool)

  datatype Body = ErrorBody(error: string) | ReportBody(report: Report)

  /** A JSON reply with its status, or no reply at all: an exception thrown inside the
      `exec` callback is not caught by the handler and ends the process. */
  datatype Response = Reply(status: int, body: Body) | ProcessExit(cause: ParseError)

  /** `req.query.domain?.trim()` when it is truthy. */
  function RequestDomain(param: Option<string>): (domain: Option<string>)
    ensures domain.None? <==> param.None? || Trim(param.value) == []
    ensures domain.Some? ==> domain.value == Trim(param.value)
  {
    if param.None? then None
    else
      var trimmed := Trim(param.value);
      if trimmed == [] then None else Some(trimmed)
  }

  /** The four lookups every valid request awaits, in the order it awaits them. */
  function MandatoryLookups(domain: string): seq<Lookup> {
    [WhoisQuery(domain), AQuery(domain), MxQuery(domain), NsQuery(domain)]
  }

  /** The message of the `k`-th mandatory lookup when it fails. */
  ghost function FailureMessage(domain: string, env: Env, k: nat): Option<string>
    requires k < 4
  {
    if k == 0 then (match env.whoiser(domain) case Err(m) => Some(m) case Ok(_) => None)
    else if k == 1 then (match env.resolve4(domain) case Err(e) => Some(e.message) case Ok(_) => None)
    else if k == 2 then (match env.resolveMx(domain) case Err(e) => Some(e.message) case Ok(_) => None)
    else (match env.resolveNs(domain) case Err(e) => Some(e.message) case Ok(_) => None)
  }

  /** Whether all four mandatory lookups succeed. */
  ghost predicate AllLookupsSucceed(domain: string, env: Env) {
    && env.whoiser(domain).Ok? && env.resolve4(domain).Ok?
    && env.resolveMx(domain).Ok? && env.resolveNs(domain).Ok?
  }

  /** The first mandatory lookup that fails. */
  ghost function FirstFailure(domain: string, env: Env): (k: nat)
    requires !AllLookupsSucceed(domain, env)
    ensures k < 4 && FailureMessage(domain, env, k).Some?
    ensures forall j :: 0 <= j < k ==> FailureMessage(domain, env, j).None?
  {
    if FailureMessage(domain, env, 0).Some? then 0
    else if FailureMessage(domain, env, 1).Some? then 1
    else if FailureMessage(domain, env, 2).Some? then 2
    else 3
  }

  /** JavaScript truthiness of `aRecords[0]`: present and not the empty string. */
  predicate IsTruthy(ip: Option<string>) {
    ip.Some? && ip.value != []
  }

  /** `whoisData[domain]?.["domain status"] || []`. */
  function DomainStatus(data: WhoisRecord, domain: string): (status: seq<string>)
    ensures domain !in data || DomainStatusKey !in data[domain] ==> status == []
    ensures domain in data && DomainStatusKey in data[domain] ==> status == data[domain][DomainStatusKey]
  {
    if domain in data && DomainStatusKey in data[domain] then data[domain][DomainStatusKey] else []
  }

  /** The first A record, if there is one. */
  function FirstAddress(addresses: seq<string>): (ip: Option<string>)
    ensures ip.Some? <==> |addresses| > 0
    ensures ip.Some? ==> ip.value == addresses[0]
  {
    if |addresses| > 0 then Some(addresses[0]) else None
  }

  /** The `whois` command line for an address. */
  function WhoisCommand(ip: string): string {
    "whois " + ip
  }

  /** The report `res.json` sends for a valid domain whose mandatory lookups succeeded. */
  ghost predicate IsReportFor(report: Report, domain: string, env: Env)
    requires env.whoiser(domain).Ok? && env.resolve4(domain).Ok?
    requires env.resolveMx(domain).Ok? && env.resolveNs(domain).Ok?
  {
    var addresses := env.resolve4(domain).value;
    var mx := env.resolveMx(domain).value;
    && report.domain == domain
    && report.aRecord == FirstAddress(addresses)
    && (!IsTruthy(report.aRecord) ==> report.ipOwner == NoAddressOwner)
    && (IsTruthy(report.aRecord) ==> WhoisIP(env.exec(WhoisCommand(addresses[0]))) == Ok(report.ipOwner))
    && |report.mx| == |mx|
    && (forall i :: 0 <= i < |mx| ==> report.mx[i] == mx[i].exchange)
    && report.ns == env.resolveNs(domain).value
    && report.whoisStatus == DomainStatus(env.whoiser(domain).value, domain)
    && report.surbl == CheckSurbl(domain, env.resolve4)
    && report.dbl == CheckDbl(domain, env.resolve4)
  }

  /** Whether the owner extraction throws for this domain's first address. */
  ghost predicate OwnerLookupThrows(domain: string, env: Env)
    requires env.resolve4(domain).Ok?
  {
    var ip := FirstAddress(env.resolve4(domain).value);
    IsTruthy(ip) && WhoisIP(env.exec(WhoisCommand(ip.value))).Err?
  }

  /** `mx.map(m => m.exchange)`. */
  function Exchanges(records: seq<MxRecord>): (names: seq<string>)
    ensures |names| == |records|
    ensures forall i :: 0 <= i < |records| ==> names[i] == records[i].exchange
  {
    seq(|records|, i requires 0 <= i < |records| => records[i].exchange)
  }

  /** The lookups that follow the mandatory ones: the `whois` command for a truthy
      first address, then the SURBL and the DBL queries. */
  ghost function LaterLookups(domain: string, env: Env): seq<Lookup>
    requires env.resolve4(domain).Ok?
  {
    var ip := FirstAddress(env.resolve4(domain).value);
    (if IsTruthy(ip) then [Command(WhoisCommand(ip.value))] else [])
    + [AQuery(SurblQuery(domain)), AQuery(DblQuery(domain))]
  }

  /** What the handler does once the mandatory lookups have succeeded: the report is
      sent with 200, unless the owner extraction throws, which ends the process
      without a reply; `later` are the lookups made after the mandatory ones. */
  ghost predicate IsReportOutcome(domain: string, env: Env, response: Response, later: seq<Lookup>)
    requires AllLookupsSucceed(domain, env)
  {
    if OwnerLookupThrows(domain, env) then
      && response == ProcessExit(WhoisIP(env.exec(WhoisCommand(env.resolve4(domain).value[0]))).error)
      && later == [Command(WhoisCommand(env.resolve4(domain).value[0]))]
    else
      && response.Reply? && response.status == 200 && response.body.ReportBody?
      && IsReportFor(response.body.report, domain, env)
      && later == LaterLookups(domain, env)
  }

  /** What the handler's `try` block does for a valid domain. The four mandatory
      lookups run in order and the first that fails is answered with 500 and its
      message; otherwise the outcome is that of the report stage. */
  ghost predicate IsLookUpOutcome(domain: string, env: Env, response: Response, lookups: seq<Lookup>) {
    if !AllLookupsSucceed(domain, env) then
      var k := FirstFailure(domain, env);
      && response == Reply(500, ErrorBody(FailureMessage(domain, env, k).value))
      && lookups == MandatoryLookups(domain)[..k + 1]
    else
      && |lookups| >= 4 && lookups[..4] == MandatoryLookups(domain)
      && IsReportOutcome(domain, env, response, lookups[4..])
  }

  /** The part of the `try` block after the mandatory lookups: the owner of the first
      address, the two blocklist probes and the report. */
  method CompleteReport(domain: string, env: Env) returns (response: Response, later: seq<Lookup>)
    requires AllLookupsSucceed(domain, env)
    ensures IsReportOutcome(domain, env, response, later)
  {
    var ip := FirstAddress(env.resolve4(domain).value);
    later := [];
    var ipOwner := NoAddressOwner;
    if IsTruthy(ip) {
      var command := WhoisCommand(ip.value);
      later := [Command(command)];
      var owner := WhoisIP(env.exec(command));
      if owner.Err? {
        return ProcessExit(owner.error), later;
      }
      ipOwner := owner.value;
    }

    var surblQuery, dblQuery := SurblQuery(domain), DblQuery(domain);
    later := later + [AQuery(surblQuery), AQuery(dblQuery)];
    var surbl := Verdict(env.resolve4(surblQuery));
    var dbl := Verdict(env.resolve4(dblQuery));

    var report := Report(
      domain,
      ip,
      Exchanges(env.resolveMx(domain).value),
      env.resolveNs(domain).value,
      DomainStatus(env.whoiser(domain).value, domain),
      ipOwner,
      surbl,
      dbl);
    response := Reply(200, ReportBody(report));
  }

  /** The body of the handler's `try` block for a valid domain. */
  method LookUpDomain(domain: string, env: Env) returns (response: Response, lookups: seq<Lookup>)
    ensures IsLookUpOutcome(domain, env, response, lookups)
  {
    lookups := [WhoisQuery(domain)];
    var whoisData := env.whoiser(domain);
    if whoisData.Err? {
      return Reply(500, ErrorBody(whoisData.error)), lookups;
    }
    lookups := lookups + [AQuery(domain)];
    var aRecords := env.resolve4(domain);
    if aRecords.Err? {
      return Reply(500, ErrorBody(aRecords.error.message)), lookups;
    }
    lookups := lookups + [MxQuery(domain)];
    var mx := env.resolveMx(domain);
    if mx.Err? {
      return Reply(500, ErrorBody(mx.error.message)), lookups;
    }
    lookups := lookups + [NsQuery(domain)];
    var ns := env.resolveNs(domain);
    if ns.Err? {
      return Reply(500, ErrorBody(ns.error.message)), lookups;
    }
    assert lookups == MandatoryLookups(domain);

    var later;
    response, later := CompleteReport(domain, env);
    lookups := lookups + later;
    assert lookups[4..] == later;
  }

  /** The handler: a missing or blank domain is answered with 400 before any lookup;
      any other request is looked up under its trimmed domain. */
  method HandleCheck(param: Option<string>, env: Env) returns (response: Response, lookups: seq<Lookup>)
    ensures RequestDomain(param).None? <==> response == Reply(400, ErrorBody(MissingDomain))
    ensures RequestDomain(param).None? ==> lookups == []
    ensures RequestDomain(param).Some? ==> IsLookUpOutcome(RequestDomain(param).value, env, response, lookups)
  {
    var requested := RequestDomain(param);
    if requested.None? {
      return Reply(400, ErrorBody(MissingDomain)), [];
    }
    response, lookups := LookUpDomain(requested.value, env);
  }
}
