/** internal/dnshttpspath/observer.go: the alias-following state machine. */
module HttpsPathObserver {
  import opened Basics
  import opened ContextReads
  import opened CallLog
  import opened DnsEvidence
  import opened ServiceBindings
  import opened TargetSelection
  import opened HttpsPath
  import opened HttpsPathWorld
  import opened HttpsPathQueries
  import opened HttpsPathAddresses
  import opened HttpsPathExits
  import opened HttpsPathTruth

  // ---------- The final phase ----------

  /** `evaluateBindings`. */
  method EvaluateBindings(services: seq<BindingReference>) returns (bindings: seq<BindingDecision>)
    requires forall s :: s in services ==> s.record.service.Some?
    ensures Decides(services, bindings)
  {
    bindings := [];
    for i := 0 to |services|
      invariant |bindings| == i
      invariant forall j :: 0 <= j < i ==> DecidesBinding(services[j], services[j].record.service.value, bindings[j])
    {
      var d := EvaluateBinding(services[i], services[i].record.service.value);
      bindings := bindings + [d];
    }
  }

  /** Evaluating the service records and bounding their targets gives what the validator expects. */
  method PlanServices(policy: Policy, builder: ReportBuilder, e: Evidence, services: seq<BindingReference>)
    requires services == Services(e) != [] && Aliases(e) == [] && builder.serviceTargetsOmitted == 0
    modifies builder`bindings, builder`addressTargets, builder`serviceTargetsOmitted
    ensures Decides(services, builder.bindings)
    ensures builder.addressTargets
         == ExpectedTargets(e, builder.bindings, builder.aliasesFollowed, policy.serviceTargetLimit)
    ensures builder.serviceTargetsOmitted == ExpectedOmitted(e, builder.bindings, policy.serviceTargetLimit) >= 0
    ensures forall t :: t in builder.addressTargets ==> t.observations == []
    ensures policy.Valid() ==> (HasUsable(builder.bindings) <==> builder.addressTargets != [])
    ensures |builder.addressTargets| == Min(|ServiceTargets(builder.bindings)|, policy.serviceTargetLimit)
    ensures |builder.addressTargets| + builder.serviceTargetsOmitted == |ServiceTargets(builder.bindings)|
    ensures forall i :: 0 <= i < |builder.addressTargets| ==>
      && builder.addressTargets[i].hostname == ServiceTargets(builder.bindings)[i].addressHostname
      && builder.addressTargets[i].priority == ServiceTargets(builder.bindings)[i].priority
  {
    builder.bindings := EvaluateBindings(services);
    DecisionsFollowRecords(services, builder.bindings);
    UsableMeansTargets(builder.bindings);
    var targets := ServiceAddressTargets(builder.bindings);
    builder.addressTargets := TargetsOf(targets);
    if |builder.addressTargets| > policy.serviceTargetLimit {
      builder.serviceTargetsOmitted := |builder.addressTargets| - policy.serviceTargetLimit;
      builder.addressTargets := builder.addressTargets[..policy.serviceTargetLimit];
    }
  }

  /** The report meets the contract and is true of the log. */
  ghost predicate Finished(env: Env, r: Report, input: Input, https: seq<Observation>, log: Log, now: nat) {
    PathReport(env, r) && TruePath(env, r, log, now) && r.input == input && r.https == https
  }

  /** A path that ends on its last complete response, without address queries. */
  lemma EndsHere(env: Env, d: Report, t: Terminal, log: Log, now: nat)
    requires PathReport(env, EndedAs(d, t)) && EvidenceOf(EndedAs(d, t)) == d.https
    requires Current(env, log, d.https, now)
    requires t.reason != StopCancelled && t.reason != StopPathTimeout && t.reason != StopInvalidProbeEvidence
    ensures Finished(env, EndedAs(d, t), d.input, d.https, log, now)
  {
  }

  /** The address queries of the planned targets, and the report they lead to. */
  method FinishAddresses(env: Env, now: nat, builder: ReportBuilder, completion: CompletionKind, ghost log: Log)
      returns (report: Report, ghost end: nat, ghost log': Log)
    requires Planned(env, builder.Draft(env.platform), completion) && IdentityOf(builder.identity, builder.https)
    requires forall t :: t in builder.addressTargets ==> t.observations == []
    requires Current(env, log, builder.https, now)
    modifies builder`addressTargets, builder`identity
    ensures Finished(env, report, builder.input, builder.https, log', end)
  {
    ghost var planned := builder.Draft(env.platform);
    var t;
    t, end, log' := ObserveAddressTargets(env, now, builder, completion, log);
    report := builder.Finish(env.platform, t);
    GatheredEndIsPath(env, planned, completion, builder.addressTargets, t);
    assert report == EndedWith(planned, builder.addressTargets, t);
  }

  /** ServiceMode records: evaluate them, bound the targets, and ask for their addresses. */
  method FinishServices(env: Env, now: nat, builder: ReportBuilder, services: seq<BindingReference>, ghost log: Log)
      returns (report: Report, ghost end: nat, ghost log': Log)
    requires env.Valid() && Answered(env, builder.Draft(env.platform)) && IdentityOf(builder.identity, builder.https)
    requires var e := LastEvidence(builder.Draft(env.platform)); Aliases(e) == [] && services == Services(e) != []
    requires Current(env, log, builder.https, now)
    modifies builder
    ensures Finished(env, report, builder.input, old(builder.https), log', end)
  {
    end, log' := now, log;
    ghost var before := builder.Draft(env.platform);
    PlanServices(env.policy, builder, builder.https[|builder.https| - 1].evidence.value, services);
    ServicesPlanned(env, before, builder.Draft(env.platform));
    if |builder.addressTargets| == 0 {
      PlanIsPath(env, builder.Draft(env.platform), CompletionUnsupportedServiceMode);
      EndsHere(env, builder.Draft(env.platform), Completed(CompletionUnsupportedServiceMode), log, now);
      return builder.Finish(env.platform, Completed(CompletionUnsupportedServiceMode)), end, log';
    }
    report, end, log' := FinishAddresses(env, now, builder, CompletionServiceMode, log);
  }

  /** No HTTPS record at the final name: fall back to the name itself. */
  method FinishFallback(env: Env, now: nat, builder: ReportBuilder, ghost log: Log)
      returns (report: Report, ghost end: nat, ghost log': Log)
    requires env.Valid() && Answered(env, builder.Draft(env.platform)) && IdentityOf(builder.identity, builder.https)
    requires var e := LastEvidence(builder.Draft(env.platform)); Aliases(e) == [] && Services(e) == []
    requires Current(env, log, builder.https, now)
    modifies builder
    ensures Finished(env, report, builder.input, old(builder.https), log', end)
  {
    end, log' := now, log;
    var fallback := builder.https[|builder.https| - 1].evidence.value.effectiveName;
    FallbackPlanned(env, builder.Draft(env.platform));
    if fallback == "." {
      PlanIsPath(env, builder.Draft(env.platform), CompletionServiceUnavailable);
      EndsHere(env, builder.Draft(env.platform), Completed(CompletionServiceUnavailable), log, now);
      return builder.Finish(env.platform, Completed(CompletionServiceUnavailable)), end, log';
    }
    var completion, source := CompletionOriginFallback, TargetOriginFallback;
    if builder.aliasesFollowed > 0 {
      completion, source := CompletionAliasFallback, TargetAliasFallback;
    }
    builder.addressTargets := [AddressTarget(fallback, source, 0, [])];
    report, end, log' := FinishAddresses(env, now, builder, completion, log);
  }

  // ---------- The alias loop ----------

  /** How one HTTPS exchange went. */
  datatype Exchange =
    | Ended(terminal: Terminal)                        // nothing new to record
    | EndedOn(terminal: Terminal, o: Observation)      // the last thing to record
    | Continues(o: Observation)                        // a complete response

  /** What a recorded answer means for the alias loop. */
  function Meaning(asked: Asked): Exchange {
    match asked
    case Discarded(t) => Ended(t)
    case Recorded(o, Some(t)) => EndedOn(t, o)
    case Recorded(o, None) =>
      if o.outcome.Succeeded? && o.evidence.Some? && o.evidence.value.kind != Incomplete then Continues(o)
      else if o.outcome.Succeeded? then EndedOn(Stopped(StopDNSObservationIncomplete), o)
      else EndedOn(Stopped(StopDNSObservationFailed).(detail := FailureDetail(o)), o)
  }

  /** What is true of an exchange, given the evidence before it. */
  predicate ExchangeOk(
    env: Env, input: Input, q: Query, evidence: seq<Observation>, exchange: Exchange, log: Log, now: nat)
  {
    match exchange
    case Ended(t) => Interruption(t) && t.detail == Text && TrueEnd(env, input, t.reason, log, evidence, Some(q), now)
    case EndedOn(t, o) =>
      && Admissible(env, input, q, evidence, o) && !o.Complete() && AllowedEnd(t, o)
      && TrueEnd(env, input, t.reason, log, evidence + [o], None, now)
    case Continues(o) =>
      Admissible(env, input, q, evidence, o) && o.Complete() && Current(env, log, evidence + [o], now)
  }

  lemma MeaningOk(env: Env, input: Input, q: Query, evidence: seq<Observation>, asked: Asked, log: Log, now: nat)
    requires AskedOk(env, input, q, evidence, asked, log, now)
    ensures ExchangeOk(env, input, q, evidence, Meaning(asked), log, now)
  {
  }

  /** The report in progress after an exchange. */
  function AfterExchange(d: Report, exchange: Exchange): Report {
    match exchange
    case Ended(_) => d
    case EndedOn(_, o) => WithHttps(d, o)
    case Continues(o) => WithHttps(d, o)
  }

  /** The report the exchange ends the path with, if it does. */
  function ExchangeEnd(d: Report, exchange: Exchange): Option<Report> {
    if exchange.Continues? then None else Some(EndedAs(AfterExchange(d, exchange), exchange.terminal))
  }

  /** After an HTTPS query: a report, or a complete response to follow. `seen` is what was seen before it. */
  ghost predicate HttpsObserved(
    env: Env, d: Report, ended: Option<Report>, seen: set<string>, log: Log, now: nat)
  {
    match ended
    case Some(r) =>
      && Finished(env, r, d.input, d.https, log, now)
      && r.reason != StopAliasLoop && r.reason != StopAliasLimit
    case None =>
      && Answered(env, d) && Current(env, log, d.https, now)
      && QueriedNames(d.https) == seen + {LastEvidence(d).effectiveName}
  }

  /** The exchange recorded nothing. */
  lemma EndedIsPath(env: Env, d: Report, current: string, seen: set<string>, t: Terminal, log: Log, now: nat)
    requires AtLoopHead(env, d, current, seen) && Interruption(t) && t.detail == Text
    requires TrueEnd(env, d.input, t.reason, log, d.https, Some(QueryFor(d.input, current, QueryHTTPS)), now)
    ensures HttpsObserved(env, d, Some(EndedAs(d, t)), seen, log, now)
  {
    InterruptedIsPath(env, d, current, seen, t);
  }

  /** The exchange recorded the last answer of the path. */
  lemma EndedOnIsPath(
    env: Env, d: Report, current: string, seen: set<string>, t: Terminal, o: Observation, log: Log, now: nat)
    requires AtLoopHead(env, d, current, seen) && AnswersCurrent(env, d, current, o)
    requires !o.Complete() && AllowedEnd(t, o)
    requires TrueEnd(env, d.input, t.reason, log, d.https + [o], None, now)
    ensures HttpsObserved(env, WithHttps(d, o), Some(EndedAs(WithHttps(d, o), t)), seen, log, now)
  {
    var r := EndedAs(WithHttps(d, o), t);
    IncompleteEndIsPath(env, d, current, seen, o, t);
    AnyNext(env, d.input, t.reason, log, d.https + [o], NextQuery(r), now);
    assert TruePath(env, r, log, now);
  }

  /** The exchange recorded a complete answer. */
  lemma ContinuesAnswered(
    env: Env, d: Report, current: string, seen: set<string>, o: Observation, log: Log, now: nat)
    requires AtLoopHead(env, d, current, seen) && AnswersCurrent(env, d, current, o) && o.Complete()
    requires Current(env, log, d.https + [o], now)
    ensures HttpsObserved(env, WithHttps(d, o), None, seen, log, now)
  {
    ChainExtends(env, d, current, seen, o);
  }

  /** What the exchange leads to, in every way it can go. */
  lemma ExchangeEnds(
    env: Env, d: Report, current: string, seen: set<string>, exchange: Exchange, log: Log, now: nat)
    requires AtLoopHead(env, d, current, seen)
    requires ExchangeOk(env, d.input, QueryFor(d.input, current, QueryHTTPS), d.https, exchange, log, now)
    ensures HttpsObserved(env, AfterExchange(d, exchange), ExchangeEnd(d, exchange), seen, log, now)
  {
    match exchange
    case Ended(t) => EndedIsPath(env, d, current, seen, t, log, now);
    case EndedOn(t, o) => EndedOnIsPath(env, d, current, seen, t, o, log, now);
    case Continues(o) => ContinuesAnswered(env, d, current, seen, o, log, now);
  }

  /** The HTTPS query for the current name, recorded if its answer is evidence. */
  method ExchangeHttps(env: Env, start: nat, builder: ReportBuilder, current: string, ghost log: Log)
      returns (exchange: Exchange, now: nat, ghost log': Log)
    requires IdentityOf(builder.identity, builder.https) && Kept(env.Probe(), log, builder.https, start)
    modifies builder`https, builder`identity
    ensures ExchangeOk(env, builder.input, QueryFor(builder.input, current, QueryHTTPS),
                       old(builder.https), exchange, log', now)
    ensures builder.Draft(env.platform) == AfterExchange(old(builder.Draft(env.platform)), exchange)
    ensures exchange.Continues? ==> IdentityOf(builder.identity, builder.https)
  {
    var asked;
    AskingOk(env, builder.input, start, QueryFor(builder.input, current, QueryHTTPS), builder.https, log);
    asked, now, log' := Ask(env, start, builder, current, QueryHTTPS, builder.https, log);
    MeaningOk(env, builder.input, QueryFor(builder.input, current, QueryHTTPS), builder.https, asked, log', now);
    exchange := Meaning(asked);
    if asked.Recorded? { builder.https := builder.https + [asked.o]; }
  }

  /** Whether an alias loop or limit was found, it was with exactly the names the validator collects. */
  predicate LoopSeen(r: Report, seenNames: set<string>) {
    r.reason == StopAliasLoop || r.reason == StopAliasLimit ==> seenNames == QueriedNames(r.https)
  }

  /** The next query of the alias loop: it ends the path, or records a complete response. */
  method ObserveHttps(
    env: Env, start: nat, builder: ReportBuilder, current: string, ghost seen: set<string>, ghost log: Log)
      returns (ended: Option<Report>, now: nat, ghost log': Log)
    requires AtLoopHead(env, builder.Draft(env.platform), current, seen) && IdentityOf(builder.identity, builder.https)
    requires Kept(env.Probe(), log, builder.https, start)
    modifies builder`https, builder`identity
    ensures HttpsObserved(env, builder.Draft(env.platform), ended, seen, log', now)
    ensures ended.None? ==> IdentityOf(builder.identity, builder.https)
    ensures ended.None? ==> |builder.https| == |old(builder.https)| + 1
  {
    ghost var before := builder.Draft(env.platform);
    var exchange;
    exchange, now, log' := ExchangeHttps(env, start, builder, current, log);
    ExchangeEnds(env, before, current, seen, exchange, log', now);
    ended := if exchange.Continues? then None else Some(builder.Finish(env.platform, exchange.terminal));
  }

  /** After an AliasMode record: a report, or one more name to ask for. */
  ghost predicate AliasTaken(
    env: Env, d: Report, ended: Option<Report>, target: string, seen: set<string>, log: Log, now: nat)
  {
    match ended
    case Some(r) => Finished(env, r, d.input, d.https, log, now)
    case None => AtLoopHead(env, d, target, seen + {target})
  }

  function AfterAlias(d: Report, end: Option<Terminal>): Report
    requires d.aliasesFollowed >= 0
  {
    if end.Some? then d else d.(aliasesFollowed := d.aliasesFollowed + 1)
  }

  /** The record is not followed. */
  lemma AliasEnds(env: Env, d: Report, target: string, t: Terminal, log: Log, now: nat)
    requires Answered(env, d) && LinksTo(d.https[|d.https| - 1], target) && Current(env, log, d.https, now)
    requires AliasEnd(env.policy, d.aliasesFollowed, target, QueriedNames(d.https)) == Some(t)
    ensures Finished(env, EndedAs(d, t), d.input, d.https, log, now)
  {
    AliasEndIsPath(env, d, target, t);
    EndsHere(env, d, t, log, now);
  }

  /** The record is followed. */
  lemma AliasIsFollowed(env: Env, d: Report, target: string)
    requires Answered(env, d) && LinksTo(d.https[|d.https| - 1], target)
    requires target !in QueriedNames(d.https) && d.aliasesFollowed < env.policy.aliasLimit
    ensures AtLoopHead(env, d.(aliasesFollowed := d.aliasesFollowed + 1), target, QueriedNames(d.https) + {target})
  {
  }

  lemma AliasIsTaken(env: Env, d: Report, target: string, seen: set<string>, log: Log, now: nat)
    requires Answered(env, d) && seen == QueriedNames(d.https)
    requires LinksTo(d.https[|d.https| - 1], target) && Current(env, log, d.https, now)
    ensures var end := AliasEnd(env.policy, d.aliasesFollowed, target, seen);
      AliasTaken(env, AfterAlias(d, end), if end.Some? then Some(EndedAs(d, end.value)) else None,
                 target, seen, log, now)
  {
    var end := AliasEnd(env.policy, d.aliasesFollowed, target, seen);
    if end.Some? {
      AliasEnds(env, d, target, end.value, log, now);
    } else {
      AliasIsFollowed(env, d, target);
    }
  }

  /** The first AliasMode record of a complete response ends the path or names the next query. */
  method FollowAlias(env: Env, now: nat, builder: ReportBuilder, target: string, seen: set<string>, ghost log: Log)
      returns (ended: Option<Report>)
    requires Answered(env, builder.Draft(env.platform)) && seen == QueriedNames(builder.https)
    requires LinksTo(builder.https[|builder.https| - 1], target) && Current(env, log, builder.https, now)
    modifies builder`aliasesFollowed
    ensures AliasTaken(env, builder.Draft(env.platform), ended, target, seen, log, now)
  {
    AliasIsTaken(env, builder.Draft(env.platform), target, seen, log, now);
    var end := AliasEnd(env.policy, builder.aliasesFollowed, target, seen);
    if end.Some? { return Some(builder.Finish(env.platform, end.value)); }
    builder.aliasesFollowed := builder.aliasesFollowed + 1;
    ended := None;
  }

  /** What a complete response leads to: the end of the path, or the next name. */
  method Respond(env: Env, now: nat, builder: ReportBuilder, seen: set<string>, ghost log: Log)
      returns (ended: Option<Report>, next: string, ghost end: nat, ghost log': Log)
    requires env.Valid() && Answered(env, builder.Draft(env.platform)) && IdentityOf(builder.identity, builder.https)
    requires seen == QueriedNames(builder.https) && Current(env, log, builder.https, now)
    modifies builder
    ensures ended.Some? ==> Finished(env, ended.value, builder.input, old(builder.https), log', end)
    ensures ended.None? ==>
      && AtLoopHead(env, builder.Draft(env.platform), next, seen + {next})
      && IdentityOf(builder.identity, builder.https)
      && log' == log && builder.https == old(builder.https)
  {
    next, end, log' := "", now, log;
    var aliases, services := RelevantBindings(builder.https[|builder.https| - 1].evidence.value);
    if |aliases| > 0 {
      next := aliases[0].record.service.value.target;
      ended := FollowAlias(env, now, builder, next, seen, log);
      return;
    }
    var report;
    if |services| > 0 {
      report, end, log' := FinishServices(env, now, builder, services, log);
    } else {
      report, end, log' := FinishFallback(env, now, builder, log);
    }
    ended := Some(report);
  }

  /** One turn of the alias loop. */
  method Turn(env: Env, start: nat, builder: ReportBuilder, current: string, seen: set<string>, ghost log: Log)
      returns (ended: Option<Report>, next: string, seen': set<string>, now: nat, ghost end: nat, ghost log': Log)
    requires env.Valid() && AtLoopHead(env, builder.Draft(env.platform), current, seen)
    requires IdentityOf(builder.identity, builder.https) && Kept(env.Probe(), log, builder.https, start)
    modifies builder
    ensures ended.Some? ==> PathReport(env, ended.value) && TruePath(env, ended.value, log', end)
    ensures ended.Some? ==> ended.value.input == builder.input && LoopSeen(ended.value, seen')
    ensures ended.None? ==>
      && AtLoopHead(env, builder.Draft(env.platform), next, seen') && IdentityOf(builder.identity, builder.https)
      && Kept(env.Probe(), log', builder.https, now) && |builder.https| == |old(builder.https)| + 1
    ensures |old(builder.https)| <= env.policy.aliasLimit
  {
    next, seen' := current, seen;
    ended, now, log' := ObserveHttps(env, start, builder, current, seen, log);
    end := now;
    if ended.Some? { return; }
    seen' := seen + {builder.https[|builder.https| - 1].evidence.value.effectiveName};
    ended, next, end, log' := Respond(env, now, builder, seen', log');
    if ended.None? { seen' := seen' + {next}; }
  }

  /** The alias loop of `Observe`. */
  method ObserveChain(env: Env, start: nat, builder: ReportBuilder)
      returns (report: Report, ghost seenNames: set<string>, ghost log: Log, ghost end: nat)
    requires env.Valid()
    requires AtLoopHead(env, builder.Draft(env.platform), builder.input.hostname, {builder.input.hostname})
    requires builder.https == [] && builder.identity == None
    modifies builder
    ensures PathReport(env, report) && TruePath(env, report, log, end)
    ensures report.input == builder.input && LoopSeen(report, seenNames)
  {
    var current, seen, now := builder.input.hostname, {builder.input.hostname}, start;
    log := [];
    while true
      invariant AtLoopHead(env, builder.Draft(env.platform), current, seen)
      invariant IdentityOf(builder.identity, builder.https) && Kept(env.Probe(), log, builder.https, now)
      decreases env.policy.aliasLimit - |builder.https|
    {
      var ended;
      ended, current, seen, now, end, log := Turn(env, now, builder, current, seen, log);
      if ended.Some? { return ended.value, seen, log, end; }
    }
  }

  // ---------- Observe ----------

  /** What the first look at the caller's context decides. */
  function FirstLook(env: Env): Verdict {
    Contexts(env.world.contexts.parent, env.world.contexts.parent).Look(0)
  }

  /** What holds of the report, the calls and the seen names once the path has begun. */
  ghost predicate ObservedOk(env: Env, r: Report, asked: seq<string>, seenNames: set<string>, log: Log, end: nat) {
    && PathReport(env, r) && TruePath(env, r, log, end) && LoopSeen(r, seenNames)
    && asked == NamesAsked(r, |log|)
  }

  /** HTTPS queries for distinct names, then the address queries in order, and no more of either than the limits
      allow. */
  predicate AskedInOrder(env: Env, r: Report, asked: seq<string>, log: Log) {
    && |asked| <= |log| && AsksNames(r, log, asked) && AsksAddresses(r, log, |asked|)
    && Distinct(asked) && |asked| <= env.policy.aliasLimit + 1
    && |log| - |asked| <= |ADDRESS_QUERY_TYPES| * env.policy.serviceTargetLimit
  }

  /** Only an interruption leaves an address unasked, and a failure wins over an incomplete answer. */
  predicate AskedInFull(r: Report, asked: seq<string>, log: Log) {
    r.https != [] && r.https[|r.https| - 1].Complete() && Uninterrupted(r) ==>
      && |log| - |asked| == |ADDRESS_QUERY_TYPES| * |r.addressTargets|
      && GatheredVerdict(r)
  }

  lemma LogIsInOrder(env: Env, r: Report, log: Log, end: nat)
    requires PathReport(env, r) && TruePath(env, r, log, end)
    ensures AskedInOrder(env, r, NamesAsked(r, |log|), log) && AskedInFull(r, NamesAsked(r, |log|), log)
  {
    LogFollowsTheReport(env, r, log, end);
    if r.https != [] && r.https[|r.https| - 1].Complete() && Uninterrupted(r) {
      EverythingIsAsked(env, r, log, end);
    }
  }

  /** `Observe`, once the request is accepted. */
  method ObserveAccepted(env: Env, builder: ReportBuilder)
      returns (report: Report, ghost asked: seq<string>, ghost seenNames: set<string>, ghost log: Log, ghost end: nat)
    requires env.Valid()
    requires AtLoopHead(env, builder.Draft(env.platform), builder.input.hostname, {builder.input.hostname})
    requires builder.https == [] && builder.identity == None
    requires builder.Draft(env.platform) == InputOnly(env, builder.input)
    modifies builder
    ensures report.input == builder.input && PathReport(env, report)
    ensures FirstLook(env) != GoesOn ==>
      report == EndedAs(InputOnly(env, builder.input), TerminalOf(FirstLook(env))) && log == [] && asked == []
    ensures FirstLook(env) == GoesOn ==> ObservedOk(env, report, asked, seenNames, log, end)
  {
    asked, seenNames, log, end := [], {}, [], 0;
    var v := FirstLook(env);
    if v != GoesOn {
      var name := builder.input.hostname;
      InterruptedIsPath(env, builder.Draft(env.platform), name, {name}, TerminalOf(v));
      report := builder.Finish(env.platform, TerminalOf(v));
      assert report == EndedAs(InputOnly(env, builder.input), TerminalOf(v));
      return;
    }
    report, seenNames, log, end := ObserveChain(env, READS, builder);
    asked := NamesAsked(report, |log|);
  }

  /** The report before anything was asked. */
  function InputOnly(env: Env, input: Input): Report {
    Report(env.platform, input, PENDING.status, PENDING.completion, PENDING.reason, PENDING.detail, 0, 0, [], [], [])
  }

  /** `Observe`, for every request, every DNS observer and every moment a context may end. */
  method Observe(env: Env, request: Request)
      returns (report: Report, ghost asked: seq<string>, ghost seenNames: set<string>, ghost log: Log, ghost end: nat)
    requires env.Valid()
    ensures report.input == NormalizeRequest(env.policy, env.rules, request)
    // The validator's verdict, exactly, and a condition on the DNS observer under which it accepts.
    ensures ValidReport(env.policy, env.rules, report) <==>
      env.rules.text(report.input.hostname) == report.input.hostname && !CopiesBlankDetail(report)
    ensures Accepted(env.rules, report.input) && NeverBlank(env) ==> ValidReport(env.policy, env.rules, report)
    // What really happened.
    ensures !Accepted(env.rules, report.input) ==> report.reason == StopInvalidInput && log == []
    ensures Accepted(env.rules, report.input) && FirstLook(env) != GoesOn ==>
      report == EndedAs(InputOnly(env, report.input), TerminalOf(FirstLook(env))) && log == []
    ensures Accepted(env.rules, report.input) && FirstLook(env) == GoesOn ==>
      ObservedOk(env, report, asked, seenNames, log, end)
    // What was asked.
    ensures AskedInOrder(env, report, asked, log) && AskedInFull(report, asked, log)
  {
    var input := NormalizeRequest(env.policy, env.rules, request);
    var builder := new ReportBuilder(input);
    if !Accepted(env.rules, input) {
      asked, seenNames, log, end := [], {}, [], 0;
      report := builder.Finish(env.platform, Stopped(StopInvalidInput));
      return;
    }
    report, asked, seenNames, log, end := ObserveAccepted(env, builder);
    if FirstLook(env) == GoesOn {
      LogIsInOrder(env, report, log, end);
      if NeverBlank(env) { BlankDetailNeedsABlankAnswer(env, report, log, end); }
    }
  }

  /** The refused report exists: with live contexts and a DNS observer that fails blankly, `Observe` returns a
      report of an accepted request that the validator refuses. */
  method BlankDetailIsRefused(policy: Policy, platform: Platform, hostname: string) returns (env: Env, report: Report)
    requires policy.Valid()
    ensures env.Valid() && Accepted(env.rules, report.input) && report.input.hostname == hostname
    ensures !ValidReport(env.policy, env.rules, report)
  {
    env := Env(policy, InputRules(v => v, v => true, v => v), platform, BlankFailing(platform));
    ghost var asked, seenNames, log, end;
    report, asked, seenNames, log, end := Observe(env, Request(hostname, "resolver", TransportUDP));
    BlankFailingIsBlank(env, report.input);
    BlankFirstAnswerIsRefused(env, report, log, end);
  }

  /** The false timeout exists: whatever is asked, a caller that cancels between the first two reads of its context is
      told of a timeout, although neither context ever meets a deadline. */
  method CancellationIsReportedAsATimeout(env: Env, request: Request) returns (report: Report)
    requires env.Valid() && Accepted(env.rules, NormalizeRequest(env.policy, env.rules, request))
    requires env.world.contexts == CancelledAt(1)
    ensures report.status == StatusStopped && report.reason == StopPathTimeout
  {
    CancellationCanLookLikeATimeout(0);
    ghost var asked, seenNames, log, end;
    report, asked, seenNames, log, end := Observe(env, request);
  }
}
