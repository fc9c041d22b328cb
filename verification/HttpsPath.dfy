/** internal/dnshttpspath: the report of one HTTPS discovery path and its validator. */
module HttpsPath {
  import opened Basics
  import opened DnsEvidence
  import opened ServiceBindings
  import opened TargetSelection

  /** The fixed limits, kept symbolic. */
  datatype Policy = Policy(aliasLimit: nat, serviceTargetLimit: nat) {
    predicate Valid() { 1 <= serviceTargetLimit }
  }

  const SOURCE_POLICY := Policy(3, 8)

  /** Hostname normalisation (`text`), the test of the normalised text (`check`), and TrimSpace. */
  datatype InputRules = InputRules(text: string -> string, check: string -> bool, trim: string -> string) {
    /** Normalising an accepted hostname again, or trimming twice, changes nothing. */
    ghost predicate Valid() {
      && (forall v :: check(text(v)) ==> text(text(v)) == text(v))
      && (forall v :: trim(trim(v)) == trim(v))
    }
  }

  datatype Transport = TransportUDP | TransportTCP | TransportDoH | TransportOther(name: string)

  datatype Request = Request(hostname: string, resolver: string, transport: Transport)

  datatype Input = Input(hostname: string, resolver: string, transport: Transport, policy: Policy)

  const ADDRESS_QUERY_TYPES := [QueryA, QueryAAAA]

  function NormalizeRequest(policy: Policy, rules: InputRules, request: Request): Input {
    Input(rules.text(request.hostname), rules.trim(request.resolver), request.transport, policy)
  }

  predicate Accepted(rules: InputRules, input: Input) {
    rules.check(input.hostname) && input.resolver != "" && !input.transport.TransportOther?
  }

  /** One DNS Observation. `wellFormed` stands for what dnsobservation.Validate checks beyond
      the agreement of outcome, evidence and failure. */
  datatype Observation = Observation(
    platform: Platform,
    source: Source,
    hostname: string,
    query: QueryType,
    resolver: string,
    endpoint: string,
    transport: Transport,
    outcome: Outcome,
    evidence: Option<Evidence>,
    failureDetail: Option<Detail>,
    wellFormed: bool)
  {
    predicate Valid() {
      && wellFormed
      && (outcome.Succeeded? <==> evidence.Some?)
      && (outcome.Succeeded? <==> failureDetail.None?)
    }

    predicate Complete() {
      outcome.Succeeded? && evidence.Some? && evidence.value.kind != Incomplete
    }

    predicate SeenIncomplete() {
      outcome.Succeeded? && evidence.Some? && evidence.value.kind == Incomplete
    }
  }

  datatype Status = StatusCompleted | StatusStopped | StatusCancelled

  datatype CompletionKind =
    | NoCompletion
    | CompletionServiceMode
    | CompletionAliasFallback
    | CompletionOriginFallback
    | CompletionServiceUnavailable
    | CompletionUnsupportedServiceMode

  datatype StopReason =
    | NoReason
    | StopInvalidInput
    | StopDNSObservationFailed
    | StopDNSObservationIncomplete
    | StopAliasLoop
    | StopAliasLimit
    | StopPathTimeout
    | StopCancelled
    | StopInvalidProbeEvidence

  datatype TargetSource = TargetServiceMode | TargetAliasFallback | TargetOriginFallback

  datatype AddressTarget = AddressTarget(
    hostname: string, source: TargetSource, priority: int, observations: seq<Observation>)

  datatype Report = Report(
    platform: Platform,
    input: Input,
    status: Status,
    completion: CompletionKind,
    reason: StopReason,
    detail: Detail,
    aliasesFollowed: int,
    serviceTargetsOmitted: int,
    https: seq<Observation>,
    bindings: seq<BindingDecision>,
    addressTargets: seq<AddressTarget>)

  // ---------- relevantBindings ----------

  predicate Relevant(e: Evidence, r: Record) {
    r.rtype == QueryHTTPS && r.name == e.effectiveName && r.service.Some?
  }

  /** The records of one mode at the effective name, in wire order. */
  function References(e: Evidence, aliasMode: bool, upTo: nat): (refs: seq<BindingReference>)
    requires upTo <= |e.records|
    ensures forall r :: r in refs ==>
      r.recordIndex < upTo && r.record.service.Some? && r.record.service.value.aliasMode == aliasMode
    ensures forall i, j :: 0 <= i < j < |refs| ==> refs[i].recordIndex < refs[j].recordIndex
  {
    if upTo == 0 then []
    else
      var earlier, r := References(e, aliasMode, upTo - 1), e.records[upTo - 1];
      if Relevant(e, r) && r.service.value.aliasMode == aliasMode
      then earlier + [BindingReference(upTo - 1, r)] else earlier
  }

  function Aliases(e: Evidence): seq<BindingReference> { References(e, true, |e.records|) }

  function Services(e: Evidence): seq<BindingReference> { References(e, false, |e.records|) }

  /** The reference names a relevant record of the mode by its position. */
  predicate RefersTo(e: Evidence, aliasMode: bool, r: BindingReference) {
    && r.recordIndex < |e.records| && r.record == e.records[r.recordIndex]
    && Relevant(e, r.record) && r.record.service.value.aliasMode == aliasMode
  }

  /** The list of every relevant record of the mode, and of nothing else, in wire order. */
  ghost predicate ListsRelevant(e: Evidence, aliasMode: bool, refs: seq<BindingReference>) {
    && (forall r: BindingReference :: r in refs <==> RefersTo(e, aliasMode, r))
    && forall i, j :: 0 <= i < j < |refs| ==> refs[i].recordIndex < refs[j].recordIndex
  }

  lemma {:induction false} ReferencesAreExact(e: Evidence, aliasMode: bool, upTo: nat)
    requires upTo <= |e.records|
    ensures forall r: BindingReference ::
      r in References(e, aliasMode, upTo) <==> r.recordIndex < upTo && RefersTo(e, aliasMode, r)
  {
    if upTo > 0 {
      ReferencesAreExact(e, aliasMode, upTo - 1);
      var last := BindingReference(upTo - 1, e.records[upTo - 1]);
      forall r: BindingReference | r.recordIndex == upTo - 1 && RefersTo(e, aliasMode, r) ensures r == last { }
    }
  }

  method RelevantBindings(e: Evidence) returns (aliases: seq<BindingReference>, services: seq<BindingReference>)
    ensures aliases == Aliases(e) && services == Services(e)
    ensures ListsRelevant(e, true, aliases) && ListsRelevant(e, false, services)
  {
    aliases, services := [], [];
    for i := 0 to |e.records|
      invariant aliases == References(e, true, i) && services == References(e, false, i)
    {
      var r := e.records[i];
      if !Relevant(e, r) { continue; }
      if r.service.value.aliasMode {
        aliases := aliases + [BindingReference(i, r)];
      } else {
        services := services + [BindingReference(i, r)];
      }
    }
    ReferencesAreExact(e, true, |e.records|);
    ReferencesAreExact(e, false, |e.records|);
  }

  // ---------- What a valid report is ----------

  predicate TerminalShape(r: Report) {
    match r.status
    case StatusCompleted => r.completion != NoCompletion && r.reason == NoReason && r.detail == NoText
    case StatusStopped =>
      r.completion == NoCompletion && r.reason != NoReason && r.reason != StopCancelled && r.detail == Text
    case StatusCancelled => r.completion == NoCompletion && r.reason == StopCancelled
  }

  predicate Embedded(platform: Platform, input: Input, o: Observation, hostname: string, query: QueryType) {
    && o.Valid()
    && o.platform == platform && o.hostname == hostname && o.query == query
    && o.resolver == input.resolver && o.transport == input.transport
  }

  predicate SameAdapter(o: Observation, p: Observation) {
    o.endpoint == p.endpoint && o.source == p.source
  }

  /** A complete response whose first AliasMode record restarts discovery at `next`. */
  predicate LinksTo(o: Observation, next: string) {
    && o.Complete()
    && Aliases(o.evidence.value) != []
    && Aliases(o.evidence.value)[0].record.service.value.target == next
  }

  predicate LinkedAt(https: seq<Observation>, i: nat)
    requires i + 1 < |https|
  {
    LinksTo(https[i], https[i + 1].hostname)
  }

  /** The HTTPS observations form one alias chain from the input hostname. */
  predicate HttpsChain(platform: Platform, input: Input, https: seq<Observation>) {
    && (https != [] ==> https[0].hostname == input.hostname)
    && (forall i :: 0 <= i < |https| ==>
          Embedded(platform, input, https[i], https[i].hostname, QueryHTTPS) && SameAdapter(https[i], https[0]))
    && forall i :: 0 <= i < |https| - 1 ==> LinkedAt(https, i)
  }

  /** `queriedNames`: every hostname asked for and every name an answer settled on. */
  function QueriedNames(https: seq<Observation>): set<string> {
    if https == [] then {}
    else
      var o := https[|https| - 1];
      QueriedNames(https[..|https| - 1]) + {o.hostname} +
      if o.outcome.Succeeded? && o.evidence.Some? then {o.evidence.value.effectiveName} else {}
  }

  function TargetsOf(decisions: seq<BindingDecision>): seq<AddressTarget> {
    seq(|decisions|, i requires 0 <= i < |decisions| =>
      AddressTarget(decisions[i].addressHostname, TargetServiceMode, decisions[i].priority, []))
  }

  /** `bindings` is what the compatibility rule decides for each service record. */
  ghost predicate Decides(services: seq<BindingReference>, bindings: seq<BindingDecision>) {
    && |bindings| == |services|
    && forall i :: 0 <= i < |services| ==>
         services[i].record.service.Some? && DecidesBinding(services[i], services[i].record.service.value, bindings[i])
  }

  /** The final targets the last response calls for, before any address query. */
  function ExpectedTargets(
    e: Evidence, bindings: seq<BindingDecision>, aliasesFollowed: int, limit: nat): seq<AddressTarget>
  {
    if Aliases(e) != [] then []
    else if Services(e) != [] then
      var all := TargetsOf(ServiceTargets(bindings));
      all[..Min(|all|, limit)]
    else if e.effectiveName == "." then []
    else [FallbackTarget(e, aliasesFollowed)]
  }

  /** The effective name itself, when there is no record to choose. */
  function FallbackTarget(e: Evidence, aliasesFollowed: int): AddressTarget {
    AddressTarget(e.effectiveName, if aliasesFollowed > 0 then TargetAliasFallback else TargetOriginFallback, 0, [])
  }

  function ExpectedOmitted(e: Evidence, bindings: seq<BindingDecision>, limit: nat): int {
    if Aliases(e) != [] || Services(e) == [] then 0
    else Max(0, |ServiceTargets(bindings)| - limit)
  }

  /** One address target with the A and AAAA evidence gathered so far. */
  predicate TargetOk(platform: Platform, input: Input, target: AddressTarget, want: AddressTarget, first: Observation) {
    && target.hostname == want.hostname && target.source == want.source && target.priority == want.priority
    && |target.observations| <= |ADDRESS_QUERY_TYPES|
    && forall k :: 0 <= k < |target.observations| ==>
         && Embedded(platform, input, target.observations[k], target.hostname, ADDRESS_QUERY_TYPES[k])
         && SameAdapter(target.observations[k], first)
  }

  predicate Gathered(target: AddressTarget) {
    && |target.observations| == |ADDRESS_QUERY_TYPES|
    && forall k :: 0 <= k < |target.observations| ==> target.observations[k].Complete()
  }

  predicate AddressTargetsOk(r: Report, expected: seq<AddressTarget>, first: Observation) {
    && |r.addressTargets| == |expected|
    && (forall i :: 0 <= i < |expected| ==> TargetOk(r.platform, r.input, r.addressTargets[i], expected[i], first))
    && (r.status == StatusCompleted ==> forall i :: 0 <= i < |r.addressTargets| ==> Gathered(r.addressTargets[i]))
  }

  predicate HasUsable(decisions: seq<BindingDecision>) {
    exists d :: d in decisions && d.usable
  }

  predicate CompletionOk(r: Report, e: Evidence) {
    match r.completion
    case CompletionServiceMode =>
      Aliases(e) == [] && Services(e) != [] && HasUsable(r.bindings) && r.addressTargets != []
    case CompletionUnsupportedServiceMode =>
      Aliases(e) == [] && Services(e) != [] && !HasUsable(r.bindings) && r.addressTargets == []
    case CompletionAliasFallback =>
      && r.aliasesFollowed != 0 && Aliases(e) == [] && Services(e) == []
      && |r.addressTargets| == 1 && r.addressTargets[0].source == TargetAliasFallback
    case CompletionOriginFallback =>
      && r.aliasesFollowed == 0 && Aliases(e) == [] && Services(e) == []
      && |r.addressTargets| == 1 && r.addressTargets[0].source == TargetOriginFallback
    case CompletionServiceUnavailable =>
      && (e.effectiveName == "." || (Aliases(e) != [] && Aliases(e)[0].record.service.value.target == "."))
      && r.addressTargets == []
    case NoCompletion => true
  }

  /** What a DNS stop must point at. */
  datatype Flaw = FailedEvidence | IncompleteEvidence

  predicate Shows(o: Observation, flaw: Flaw) {
    match flaw
    case FailedEvidence => o.outcome.Failed?
    case IncompleteEvidence => o.SeenIncomplete()
  }

  predicate SomeShows(observations: seq<Observation>, flaw: Flaw) {
    exists k :: 0 <= k < |observations| && Shows(observations[k], flaw)
  }

  /** Some embedded observation, HTTPS or address, shows the flaw. */
  predicate EvidenceShows(r: Report, flaw: Flaw) {
    SomeShows(r.https, flaw) ||
    exists i :: 0 <= i < |r.addressTargets| && SomeShows(r.addressTargets[i].observations, flaw)
  }

  predicate StopEvidenceOk(r: Report)
    requires r.https != []
  {
    match r.reason
    case StopDNSObservationFailed => EvidenceShows(r, FailedEvidence)
    case StopDNSObservationIncomplete => EvidenceShows(r, IncompleteEvidence)
    case StopAliasLoop =>
      && Followable(r.https[|r.https| - 1])
      && FirstAlias(r.https[|r.https| - 1]) in QueriedNames(r.https)
    case StopAliasLimit =>
      && Followable(r.https[|r.https| - 1])
      && FirstAlias(r.https[|r.https| - 1]) !in QueriedNames(r.https)
      && r.aliasesFollowed == r.input.policy.aliasLimit
    case _ => true
  }

  predicate Followable(o: Observation) {
    && o.outcome.Succeeded? && o.evidence.Some?
    && Aliases(o.evidence.value) != []
    && Aliases(o.evidence.value)[0].record.service.value.target != "."
  }

  function FirstAlias(o: Observation): string
    requires Followable(o)
  {
    Aliases(o.evidence.value)[0].record.service.value.target
  }

  /** An alias was followed but its own observation was never recorded. */
  predicate MayEndBeforeObserving(r: Report) {
    r.status == StatusCancelled || r.reason == StopPathTimeout || r.reason == StopInvalidProbeEvidence
  }

  ghost predicate TailOk(r: Report)
    requires r.https != []
  {
    var last := r.https[|r.https| - 1];
    if !last.Complete() then
      && r.status != StatusCompleted
      && r.bindings == [] && r.addressTargets == [] && r.serviceTargetsOmitted == 0
      && StopEvidenceOk(r)
    else
      var e := last.evidence.value;
      var services := if Aliases(e) == [] then Services(e) else [];
      && Decides(services, r.bindings)
      && r.serviceTargetsOmitted == ExpectedOmitted(e, r.bindings, r.input.policy.serviceTargetLimit)
      && AddressTargetsOk(
           r, ExpectedTargets(e, r.bindings, r.aliasesFollowed, r.input.policy.serviceTargetLimit), r.https[0])
      && if r.status == StatusCompleted then CompletionOk(r, e) else StopEvidenceOk(r)
  }

  ghost predicate ValidReport(policy: Policy, rules: InputRules, r: Report) {
    && r.input == NormalizeRequest(policy, rules, Request(r.input.hostname, r.input.resolver, r.input.transport))
    && TerminalShape(r)
    && if r.status == StatusStopped && r.reason == StopInvalidInput then
         && !Accepted(rules, r.input)
         && r.https == [] && r.bindings == [] && r.addressTargets == []
         && r.aliasesFollowed == 0 && r.serviceTargetsOmitted == 0
       else
         && Accepted(rules, r.input)
         && 0 <= r.aliasesFollowed <= policy.aliasLimit && 0 <= r.serviceTargetsOmitted
         && if r.https == [] then
              && r.aliasesFollowed == 0 && r.serviceTargetsOmitted == 0 && MayEndBeforeObserving(r)
            else
              && (r.aliasesFollowed == |r.https| - 1 || (r.aliasesFollowed == |r.https| && MayEndBeforeObserving(r)))
              && HttpsChain(r.platform, r.input, r.https)
              && TailOk(r)
  }
}
