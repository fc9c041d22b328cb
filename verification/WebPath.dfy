/** internal/webpath: the report of one public Web path and its validator's contract. */
module WebPath {
  import opened Basics

  /** The fixed limits, kept symbolic. */
  datatype Policy = Policy(redirectLimit: nat, candidateLimit: nat)

  const SOURCE_POLICY := Policy(3, 2)

  datatype Scheme = HTTP | HTTPS

  /** A canonical URL; printing and parsing it is the identity, so it stands for its own text. */
  datatype Url = Url(scheme: Scheme, hostname: string, path: string, query: string)

  datatype Location = Omitted | NoLocation | Location(text: string)

  datatype Redirect = Target(url: Url) | Unavailable | InvalidTarget | UnsafeTarget

  /** Everything about names, addresses and URLs that is left uninterpreted: hostname
      normalisation, NormalizePublicIP, and the resolution of a Location against a URL. */
  datatype Rules = Rules(
    text: string -> string,
    check: string -> bool,
    publicText: string -> Option<string>,
    family: string -> Family,
    resolve: (Url, string) -> Redirect)
  {
    ghost predicate Valid() {
      && (forall v :: check(text(v)) ==> text(text(v)) == text(v))
      && (forall u, l :: resolve(u, l).Target? ==> CanonicalUrl(resolve(u, l).url))
      && (forall u, l :: !resolve(u, l).Unavailable?)
    }

    /** What validateHop asks of a hop URL. */
    predicate CanonicalUrl(u: Url) {
      text(u.hostname) == u.hostname && check(u.hostname) && u.path != ""
    }
  }

  datatype Address = Address(ip: string, family: Family)

  /** One System Resolution. `wellFormed` stands for the remaining checks of its validator. */
  datatype Resolution = Resolution(
    platform: Platform, hostname: string, outcome: Outcome, addresses: seq<Address>, wellFormed: bool)
  {
    predicate Valid() {
      && wellFormed
      && (outcome.Succeeded? ==>
            addresses != [] && forall i, j :: 0 <= i < j < |addresses| ==> addresses[i].ip != addresses[j].ip)
    }
  }

  datatype WebRequest = WebRequest(scheme: Scheme, hostname: string, dialIP: string, path: string, query: string)

  /** One Web Observation; `family` is derived from the dialled address. */
  datatype WebObservation = WebObservation(
    platform: Platform, request: WebRequest, family: Family, outcome: Outcome,
    statusCode: int, location: Location, wellFormed: bool)
  {
    predicate Valid(rules: Rules) {
      wellFormed && family == rules.family(request.dialIP)
    }
  }

  datatype Status = StatusCompleted | StatusStopped | StatusCancelled

  datatype StopReason =
    | StopFinalResponse
    | StopInvalidInput
    | StopResolutionFailed
    | StopNoPublicCandidates
    | StopAllCandidatesFailed
    | StopRedirectLocationUnavailable
    | StopRedirectTargetInvalid
    | StopRedirectTargetUnsafe
    | StopRedirectLoop
    | StopRedirectLimit
    | StopPathTimeout
    | StopCancelled
    | StopInvalidProbeEvidence

  datatype Input = Input(hostname: string, initialUrl: Url, policy: Policy)

  datatype Hop = Hop(url: Url, resolution: Resolution, attempts: seq<WebObservation>)

  /** The evidence of a report: everything but why it stopped. */
  datatype Trail = Trail(
    platform: Platform, input: Input, redirectsFollowed: int, fallbackUsed: bool, hops: seq<Hop>)

  datatype Report = Report(trail: Trail, status: Status, reason: StopReason, detail: Detail)

  function NormalizeInput(policy: Policy, rules: Rules, hostname: string): Input {
    Input(rules.text(hostname), Url(HTTPS, rules.text(hostname), "/", ""), policy)
  }

  predicate IsRedirectStatus(status: int) {
    status == 301 || status == 302 || status == 303 || status == 307 || status == 308
  }

  function RedirectTarget(rules: Rules, current: Url, response: WebObservation): Redirect {
    match response.location
    case Location(text) => if text == "" then Unavailable else rules.resolve(current, text)
    case _ => Unavailable
  }

  // ---------- selectPublicCandidates ----------

  /** A candidate: a public literal in canonical text whose family the resolver reported. */
  predicate Eligible(rules: Rules, a: Address) {
    rules.publicText(a.ip) == Some(a.ip) && rules.family(a.ip) == a.family
  }

  function CountEligible(rules: Rules, addresses: seq<Address>, family: Family): nat {
    if addresses == [] then 0
    else
      var a := addresses[|addresses| - 1];
      CountEligible(rules, addresses[..|addresses| - 1], family) +
      if Eligible(rules, a) && a.family == family then 1 else 0
  }

  /** Address `i` is among the first `limit` eligible ones of its family. */
  predicate Selected(rules: Rules, limit: nat, addresses: seq<Address>, i: nat)
    requires i < |addresses|
  {
    Eligible(rules, addresses[i]) && CountEligible(rules, addresses[..i], addresses[i].family) < limit
  }

  /** The selected addresses, in resolver order. */
  function Candidates(rules: Rules, limit: nat, addresses: seq<Address>): seq<string> {
    if addresses == [] then []
    else
      var last := |addresses| - 1;
      Candidates(rules, limit, addresses[..last]) +
      if Selected(rules, limit, addresses, last) then [addresses[last].ip] else []
  }

  method SelectPublicCandidates(rules: Rules, limit: nat, addresses: seq<Address>) returns (selected: seq<string>)
    ensures selected == Candidates(rules, limit, addresses)
  {
    selected := [];
    var counts: map<Family, nat> := map[IPv4 := 0, IPv6 := 0];
    for i := 0 to |addresses|
      invariant selected == Candidates(rules, limit, addresses[..i])
      invariant IPv4 in counts && IPv6 in counts
      invariant forall f :: f in counts ==> counts[f] == Min(limit, CountEligible(rules, addresses[..i], f))
    {
      var a := addresses[i];
      assert addresses[..i + 1][..i] == addresses[..i];
      assert a.family == IPv4 || a.family == IPv6;
      if counts[a.family] >= limit { continue; }
      if rules.publicText(a.ip) != Some(a.ip) { continue; }
      if rules.family(a.ip) != a.family { continue; }
      selected := selected + [a.ip];
      counts := counts[a.family := counts[a.family] + 1];
    }
    assert addresses[..|addresses|] == addresses;
  }

  // ---------- What a valid report is ----------

  predicate Succeeds(hop: Hop) {
    hop.attempts != [] && hop.attempts[|hop.attempts| - 1].outcome.Succeeded?
  }

  function Response(hop: Hop): WebObservation
    requires Succeeds(hop)
  {
    hop.attempts[|hop.attempts| - 1]
  }

  /** The candidates this hop had to try. */
  function HopCandidates(policy: Policy, rules: Rules, hop: Hop): seq<string> {
    if hop.resolution.outcome.Succeeded? then Candidates(rules, policy.candidateLimit, hop.resolution.addresses) else []
  }

  predicate AttemptMatches(rules: Rules, platform: Platform, url: Url, ip: string, o: WebObservation) {
    && o.Valid(rules) && o.platform == platform
    && o.request == WebRequest(url.scheme, url.hostname, ip, url.path, url.query)
  }

  /** The attempts dial the bounded candidates in order, and only the last can end the hop. */
  predicate AttemptsOk(
    rules: Rules, platform: Platform, url: Url, candidates: seq<string>, attempts: seq<WebObservation>)
  {
    && |attempts| <= |candidates|
    && (forall k :: 0 <= k < |attempts| ==> AttemptMatches(rules, platform, url, candidates[k], attempts[k]))
    && forall k :: 0 <= k < |attempts| - 1 ==> attempts[k].outcome.Failed?
  }

  predicate HopOk(policy: Policy, rules: Rules, platform: Platform, hop: Hop) {
    && rules.CanonicalUrl(hop.url)
    && hop.resolution.Valid() && hop.resolution.platform == platform && hop.resolution.hostname == hop.url.hostname
    && AttemptsOk(rules, platform, hop.url, HopCandidates(policy, rules, hop), hop.attempts)
  }

  /** Every candidate of the hop was dialled, and every one failed. */
  predicate Exhausted(policy: Policy, rules: Rules, hop: Hop) {
    && HopCandidates(policy, rules, hop) != []
    && |hop.attempts| == |HopCandidates(policy, rules, hop)|
    && forall k :: 0 <= k < |hop.attempts| ==> hop.attempts[k].outcome.Failed?
  }

  /** `next` is reached from `hop` by the redirect it answered with. */
  predicate RedirectsTo(rules: Rules, hop: Hop, next: Url) {
    && Succeeds(hop) && IsRedirectStatus(Response(hop).statusCode)
    && RedirectTarget(rules, hop.url, Response(hop)) == Target(next)
  }

  function FallbackUrl(initial: Url): Url { initial.(scheme := HTTP) }

  /** Hop `i` follows hop `i - 1` by a redirect, except that a fallback puts the HTTP form of the
      first URL second. */
  predicate TransitionOk(rules: Rules, t: Trail, i: nat)
    requires 0 < i < |t.hops|
  {
    if t.fallbackUsed && i == 1
    then t.hops[1].url == FallbackUrl(t.input.initialUrl)
    else RedirectsTo(rules, t.hops[i - 1], t.hops[i].url)
  }

  /** The redirects between recorded hops. */
  function RedirectTransitions(t: Trail): int {
    Max(0, |t.hops| - (if t.fallbackUsed && |t.hops| > 1 then 2 else 1))
  }

  /** The recorded hops: where they start, how they follow one another, and how they are counted. */
  predicate TrailOk(policy: Policy, rules: Rules, t: Trail) {
    && 0 <= t.redirectsFollowed <= policy.redirectLimit
    && (t.hops != [] ==> t.hops[0].url == t.input.initialUrl)
    && (forall i :: 0 <= i < |t.hops| ==> HopOk(policy, rules, t.platform, t.hops[i]))
    && (t.fallbackUsed ==> t.hops != [] && Exhausted(policy, rules, t.hops[0]))
    && (forall i :: 0 < i < |t.hops| ==> TransitionOk(rules, t, i))
    && t.redirectsFollowed == RedirectTransitions(t)
  }

  predicate TerminalPair(status: Status, reason: StopReason) {
    match status
    case StatusCompleted => reason == StopFinalResponse
    case StatusCancelled => reason == StopCancelled
    case StatusStopped => reason != StopFinalResponse && reason != StopCancelled
  }

  predicate Interrupted(r: Report) {
    r.reason == StopInvalidProbeEvidence || r.reason == StopPathTimeout || r.status == StatusCancelled
  }

  predicate TerminalEvidenceOk(policy: Policy, rules: Rules, r: Report) {
    Interrupted(r) ||
    (r.trail.hops != [] &&
     var last := r.trail.hops[|r.trail.hops| - 1];
     match r.reason
     case StopFinalResponse => Succeeds(last) && !IsRedirectStatus(Response(last).statusCode)
     case StopResolutionFailed => last.resolution.outcome.Failed? && last.attempts == []
     case StopNoPublicCandidates =>
       last.resolution.outcome.Succeeded? && HopCandidates(policy, rules, last) == [] && last.attempts == []
     case StopAllCandidatesFailed => Exhausted(policy, rules, last)
     case StopRedirectLocationUnavailable => RedirectsWith(rules, last, Unavailable)
     case StopRedirectTargetInvalid => RedirectsWith(rules, last, InvalidTarget)
     case StopRedirectTargetUnsafe => RedirectsWith(rules, last, UnsafeTarget)
     case StopRedirectLoop => exists i :: 0 <= i < |r.trail.hops| && RedirectsTo(rules, last, r.trail.hops[i].url)
     case StopRedirectLimit =>
       && r.trail.redirectsFollowed == policy.redirectLimit
       && Succeeds(last) && IsRedirectStatus(Response(last).statusCode)
     case _ => true)
  }

  predicate RedirectsWith(rules: Rules, hop: Hop, outcome: Redirect) {
    && Succeeds(hop) && IsRedirectStatus(Response(hop).statusCode)
    && RedirectTarget(rules, hop.url, Response(hop)) == outcome
  }

  predicate ValidReport(policy: Policy, rules: Rules, r: Report) {
    var t := r.trail;
    && t.input == NormalizeInput(policy, rules, t.input.hostname)
    && if !rules.check(t.input.hostname) then
         && r.status == StatusStopped && r.reason == StopInvalidInput
         && t.hops == [] && t.redirectsFollowed == 0 && !t.fallbackUsed
       else
         && r.reason != StopInvalidInput && TerminalPair(r.status, r.reason)
         && (r.status == StatusCompleted ==> r.detail == NoText)
         && |t.hops| <= policy.redirectLimit + 1 + (if t.fallbackUsed then 1 else 0)
         && TrailOk(policy, rules, t)
         && (t.fallbackUsed && |t.hops| < 2 ==> Interrupted(r))
         && TerminalEvidenceOk(policy, rules, r)
  }
}
