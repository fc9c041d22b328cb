/** Why every exit of the HTTPS path yields a report the validator accepts. */
module HttpsPathExits {
  import opened Basics
  import opened DnsEvidence
  import opened ServiceBindings
  import opened TargetSelection
  import opened HttpsPath
  import opened HttpsPathWorld
  import opened HttpsPathQueries
  import opened HttpsPathAddresses

  // ---------- The alias chain ----------

  predicate FreshAt(https: seq<Observation>, j: nat)
    requires j < |https|
  {
    https[j].hostname !in QueriedNames(https[..j])
  }

  /** No name is asked for that was asked for, or answered with, before. */
  predicate NeverRevisits(https: seq<Observation>) {
    forall j :: 0 <= j < |https| ==> FreshAt(https, j)
  }

  lemma ChainStaysFresh(https: seq<Observation>, o: Observation)
    requires NeverRevisits(https) && o.hostname !in QueriedNames(https)
    ensures NeverRevisits(https + [o])
  {
    var longer := https + [o];
    forall j | 0 <= j < |longer| ensures FreshAt(longer, j) {
      if j < |https| {
        assert longer[..j] == https[..j];
        assert FreshAt(https, j);
      } else {
        assert longer[..j] == https;
      }
    }
  }

  lemma {:induction false} QueriedNamesContains(https: seq<Observation>, i: nat)
    requires i < |https|
    ensures https[i].hostname in QueriedNames(https)
    ensures https[i].Complete() ==> https[i].evidence.value.effectiveName in QueriedNames(https)
  {
    if i < |https| - 1 {
      QueriedNamesContains(https[..|https| - 1], i);
    }
  }

  lemma RevisitlessIsDistinct(https: seq<Observation>, i: nat, j: nat)
    requires NeverRevisits(https) && i < j < |https|
    ensures https[i].hostname != https[j].hostname
    ensures https[i].Complete() ==> https[i].evidence.value.effectiveName != https[j].hostname
  {
    QueriedNamesContains(https[..j], i);
    assert FreshAt(https, j);
  }

  // ---------- The states of the alias loop ----------

  /** The part of the contract that no exit can break. */
  predicate Framed(env: Env, r: Report) {
    && r.platform == env.platform && Accepted(env.rules, r.input)
    && r.input
       == NormalizeRequest(env.policy, env.rules, Request(r.input.hostname, r.input.resolver, r.input.transport))
    && HttpsChain(r.platform, r.input, r.https) && NeverRevisits(r.https)
    && 0 <= r.aliasesFollowed <= env.policy.aliasLimit
  }

  predicate NothingPlanned(r: Report) {
    r.bindings == [] && r.addressTargets == [] && r.serviceTargetsOmitted == 0
  }

  /** The head of the alias loop: every recorded response was complete and led on to `current`. */
  predicate AtLoopHead(env: Env, d: Report, current: string, seen: set<string>) {
    && Framed(env, d) && NothingPlanned(d) && d.aliasesFollowed == |d.https|
    && (d.https == [] ==> current == d.input.hostname)
    && (d.https != [] ==> LinksTo(d.https[|d.https| - 1], current))
    && current !in QueriedNames(d.https) && seen == QueriedNames(d.https) + {current}
  }

  /** The last response was complete. */
  predicate Answered(env: Env, d: Report) {
    && Framed(env, d) && NothingPlanned(d)
    && d.https != [] && d.aliasesFollowed == |d.https| - 1 && d.https[|d.https| - 1].Complete()
  }

  function LastEvidence(r: Report): Evidence
    requires r.https != [] && r.https[|r.https| - 1].Complete()
  {
    r.https[|r.https| - 1].evidence.value
  }

  /** An admissible answer to the current name. */
  predicate AnswersCurrent(env: Env, d: Report, current: string, o: Observation) {
    Embedded(env.platform, d.input, o, current, QueryHTTPS) && (d.https != [] ==> SameAdapter(o, d.https[0]))
  }

  function WithHttps(d: Report, o: Observation): Report { d.(https := d.https + [o]) }

  lemma ChainLinks(env: Env, d: Report, current: string, seen: set<string>, o: Observation)
    requires AtLoopHead(env, d, current, seen) && AnswersCurrent(env, d, current, o)
    ensures HttpsChain(d.platform, d.input, d.https + [o])
  {
    var longer := d.https + [o];
    forall i | 0 <= i < |longer| - 1 ensures LinkedAt(longer, i) {
      assert i < |d.https| - 1 ==> LinkedAt(d.https, i);
    }
  }

  /** Recording the answer keeps the chain linked, of one adapter, and free of repetitions. */
  lemma ChainExtends(env: Env, d: Report, current: string, seen: set<string>, o: Observation)
    requires AtLoopHead(env, d, current, seen) && AnswersCurrent(env, d, current, o)
    ensures Framed(env, WithHttps(d, o))
    ensures QueriedNames(d.https + [o]) == seen + if o.outcome.Succeeded? then {o.evidence.value.effectiveName} else {}
  {
    ChainLinks(env, d, current, seen, o);
    ChainStaysFresh(d.https, o);
    assert (d.https + [o])[..|d.https|] == d.https;
  }

  // ---------- What holds of the report, however the path ends ----------

  /** The one way to a report the validator refuses on an accepted request: the last HTTPS
      observation failed with a detail that is not empty but blank, and that detail was copied. */
  predicate CopiesBlankDetail(r: Report) {
    && r.reason == StopDNSObservationFailed && r.https != []
    && r.https[|r.https| - 1].outcome.Failed? && r.https[|r.https| - 1].failureDetail == Some(BlankText)
  }

  /** An alias was followed, and its name is a new one. */
  predicate LeadsOn(r: Report) {
    r.aliasesFollowed == |r.https| ==> CurrentName(r).Some? && CurrentName(r).value !in QueriedNames(r.https)
  }

  ghost predicate PathReport(env: Env, r: Report) {
    && Framed(env, r) && r.reason != StopInvalidInput
    && (ValidReport(env.policy, env.rules, r) <==> !CopiesBlankDetail(r))
    && |r.https| - 1 <= r.aliasesFollowed <= |r.https| && LeadsOn(r)
    && |r.addressTargets| <= env.policy.serviceTargetLimit && GatheredInOrder(r.addressTargets)
    && TargetsAnswered(r) && GatheredVerdict(r)
    && (r.aliasesFollowed == |r.https| || (r.https != [] && !r.https[|r.https| - 1].Complete()) ==>
          r.addressTargets == [])
  }

  predicate Uninterrupted(r: Report) {
    r.reason != StopCancelled && r.reason != StopPathTimeout && r.reason != StopInvalidProbeEvidence
  }

  /** Unless it was interrupted, a path that got to the address queries made all of them, and says of them what they
      show: a failure before an incomplete answer. */
  predicate GatheredVerdict(r: Report) {
    r.https != [] && r.https[|r.https| - 1].Complete() && Uninterrupted(r) ==>
      && AllAsked(r.addressTargets)
      && (r.reason == StopDNSObservationFailed <==> SomeTargetShows(r.addressTargets, FailedEvidence))
      && (r.reason == StopDNSObservationIncomplete <==>
            SomeTargetShows(r.addressTargets, IncompleteEvidence)
            && !SomeTargetShows(r.addressTargets, FailedEvidence))
  }

  lemma GatheredShowsNothing(targets: seq<AddressTarget>, flaw: Flaw)
    requires AllGathered(targets)
    ensures !SomeTargetShows(targets, flaw)
  {
    forall i | 0 <= i < |targets| ensures !SomeShows(targets[i].observations, flaw) {
      assert Gathered(targets[i]);
    }
  }

  /** The address evidence fits its questions. */
  predicate TargetsAnswered(r: Report) {
    forall i :: 0 <= i < |r.addressTargets| ==> TargetAnswered(r.input, r.addressTargets[i], r.platform)
  }

  predicate TargetAnswered(input: Input, t: AddressTarget, platform: Platform) {
    && |t.observations| <= |ADDRESS_QUERY_TYPES|
    && forall k :: 0 <= k < |t.observations| ==>
         Embedded(platform, input, t.observations[k], t.hostname, ADDRESS_QUERY_TYPES[k])
  }

  /** Interrupted before the current name was observed. */
  lemma InterruptedIsPath(env: Env, d: Report, current: string, seen: set<string>, t: Terminal)
    requires AtLoopHead(env, d, current, seen) && Interruption(t) && t.detail == Text
    ensures PathReport(env, EndedAs(d, t))
    ensures NextQuery(EndedAs(d, t)) == Some(QueryFor(d.input, current, QueryHTTPS))
    ensures EvidenceOf(EndedAs(d, t)) == d.https
  {
    var r := EndedAs(d, t);
    assert Decides([], r.bindings);
    assert Flatten([]) == [];
  }

  predicate AllowedEnd(t: Terminal, o: Observation) {
    || Interruption(t)
    || (t.(detail := Text) == Stopped(StopDNSObservationFailed) && o.outcome.Failed? && t.detail == FailureDetail(o))
    || (t == Stopped(StopDNSObservationIncomplete) && o.SeenIncomplete())
  }

  /** `failureDetail`. */
  function FailureDetail(o: Observation): Detail {
    match o.failureDetail
    case None => Text
    case Some(detail) => if detail == NoText then Text else detail
  }

  /** Ended on a response that is not a complete answer. */
  lemma IncompleteEndIsValid(env: Env, r: Report)
    requires Framed(env, r) && NothingPlanned(r) && r.https != [] && !r.https[|r.https| - 1].Complete()
    requires r.aliasesFollowed == |r.https| - 1
    requires r.status != StatusCompleted && r.reason != StopInvalidInput
    requires r.reason != StopAliasLoop && r.reason != StopAliasLimit
    requires r.reason == StopDNSObservationFailed ==> r.https[|r.https| - 1].outcome.Failed?
    requires r.reason == StopDNSObservationIncomplete ==> r.https[|r.https| - 1].SeenIncomplete()
    ensures ValidReport(env.policy, env.rules, r) <==> TerminalShape(r)
  {
    var last := r.https[|r.https| - 1];
    assert r.reason == StopDNSObservationFailed ==> Shows(last, FailedEvidence);
    assert r.reason == StopDNSObservationIncomplete ==> Shows(last, IncompleteEvidence);
  }

  lemma IncompleteEndIsPath(env: Env, d: Report, current: string, seen: set<string>, o: Observation, t: Terminal)
    requires AtLoopHead(env, d, current, seen) && AnswersCurrent(env, d, current, o)
    requires !o.Complete() && AllowedEnd(t, o)
    ensures PathReport(env, EndedAs(WithHttps(d, o), t))
    ensures EvidenceOf(EndedAs(WithHttps(d, o), t)) == d.https + [o]
  {
    var r := EndedAs(WithHttps(d, o), t);
    ChainExtends(env, d, current, seen, o);
    IncompleteEndIsValid(env, r);
    assert Flatten([]) == [];
  }

  /** What the first AliasMode record means: unavailable, a loop, one too many, or the next name. */
  function AliasEnd(policy: Policy, aliasesFollowed: int, target: string, seen: set<string>): Option<Terminal> {
    if target == "." then Some(Completed(CompletionServiceUnavailable))
    else if target in seen then Some(Stopped(StopAliasLoop))
    else if aliasesFollowed >= policy.aliasLimit then Some(Stopped(StopAliasLimit))
    else None
  }

  lemma AliasEndIsValid(env: Env, d: Report, target: string, t: Terminal)
    requires Answered(env, d) && LinksTo(d.https[|d.https| - 1], target)
    requires AliasEnd(env.policy, d.aliasesFollowed, target, QueriedNames(d.https)) == Some(t)
    ensures ValidReport(env.policy, env.rules, EndedAs(d, t))
  {
    assert Decides([], d.bindings);
  }

  /** Ended on a complete response with an AliasMode record that is not followed. */
  lemma AliasEndIsPath(env: Env, d: Report, target: string, t: Terminal)
    requires Answered(env, d) && LinksTo(d.https[|d.https| - 1], target)
    requires AliasEnd(env.policy, d.aliasesFollowed, target, QueriedNames(d.https)) == Some(t)
    ensures PathReport(env, EndedAs(d, t)) && EvidenceOf(EndedAs(d, t)) == d.https
  {
    AliasEndIsValid(env, d, target, t);
    assert Flatten([]) == [];
  }

  // ---------- The final phase ----------

  /** Some binding is usable exactly when there is a target to ask for. */
  lemma UsableMeansTargets(decisions: seq<BindingDecision>)
    requires InWireOrder(decisions)
    ensures HasUsable(decisions) <==> ServiceTargets(decisions) != []
  {
    TargetsAreLeastUsable(decisions);
    var targets := ServiceTargets(decisions);
    if targets != [] {
      assert targets[0] in targets;
    }
    if d :| d in decisions && d.usable {
      assert d.addressHostname in Hostnames(targets);
    }
  }

  lemma DecisionsFollowRecords(services: seq<BindingReference>, bindings: seq<BindingDecision>)
    requires Decides(services, bindings)
    requires forall i, j :: 0 <= i < j < |services| ==> services[i].recordIndex < services[j].recordIndex
    ensures InWireOrder(bindings)
  {
    forall i, j | 0 <= i < j < |bindings| ensures bindings[i].recordIndex < bindings[j].recordIndex {
      assert DecidesBinding(services[i], services[i].record.service.value, bindings[i]);
      assert DecidesBinding(services[j], services[j].record.service.value, bindings[j]);
    }
  }

  /** The targets, as planned after a complete response without AliasMode records. */
  ghost predicate Planned(env: Env, d: Report, completion: CompletionKind) {
    && Framed(env, d) && d.https != [] && d.aliasesFollowed == |d.https| - 1 && d.https[|d.https| - 1].Complete()
    && var e, limit := LastEvidence(d), env.policy.serviceTargetLimit;
    && Aliases(e) == [] && Decides(Services(e), d.bindings)
    && d.serviceTargetsOmitted == ExpectedOmitted(e, d.bindings, limit) >= 0
    && d.addressTargets == ExpectedTargets(e, d.bindings, d.aliasesFollowed, limit)
    && |d.addressTargets| <= limit
    && completion != NoCompletion && CompletionOk(d.(completion := completion), e)
  }

  /** Bounded targets of evaluated service records make a plan. */
  lemma ServicesPlanned(env: Env, d: Report, d': Report)
    requires env.policy.Valid() && Answered(env, d) && Aliases(LastEvidence(d)) == [] && Services(LastEvidence(d)) != []
    requires d' == d.(bindings := d'.bindings, addressTargets := d'.addressTargets,
                      serviceTargetsOmitted := d'.serviceTargetsOmitted)
    requires Decides(Services(LastEvidence(d)), d'.bindings)
    requires d'.serviceTargetsOmitted
          == ExpectedOmitted(LastEvidence(d), d'.bindings, env.policy.serviceTargetLimit) >= 0
    requires d'.addressTargets
          == ExpectedTargets(LastEvidence(d), d'.bindings, d.aliasesFollowed, env.policy.serviceTargetLimit)
    requires |d'.addressTargets| <= env.policy.serviceTargetLimit
    requires HasUsable(d'.bindings) <==> d'.addressTargets != []
    ensures Planned(
      env, d', if d'.addressTargets == [] then CompletionUnsupportedServiceMode else CompletionServiceMode)
  {
  }

  /** Without HTTPS records the plan is the effective name itself, unless there is none. */
  lemma FallbackPlanned(env: Env, d: Report)
    requires env.policy.Valid() && Answered(env, d)
    requires Aliases(LastEvidence(d)) == [] && Services(LastEvidence(d)) == []
    ensures var e := LastEvidence(d);
      if e.effectiveName == "." then Planned(env, d, CompletionServiceUnavailable)
      else Planned(env, d.(addressTargets := [FallbackTarget(e, d.aliasesFollowed)]),
                   if d.aliasesFollowed > 0 then CompletionAliasFallback else CompletionOriginFallback)
  {
    assert Decides([], d.bindings);
  }

  /** Nothing to ask for: the plan is the end. */
  lemma PlanIsPath(env: Env, d: Report, completion: CompletionKind)
    requires Planned(env, d, completion) && d.addressTargets == []
    ensures PathReport(env, EndedAs(d, Completed(completion)))
    ensures EvidenceOf(EndedAs(d, Completed(completion))) == d.https
  {
    assert Flatten([]) == [];
  }

  function EndedWith(d: Report, targets: seq<AddressTarget>, t: Terminal): Report {
    EndedAs(d.(addressTargets := targets), t)
  }

  lemma GatheredEndIsValid(env: Env, d: Report, completion: CompletionKind, targets: seq<AddressTarget>, t: Terminal)
    requires Planned(env, d, completion) && GatheringEnd(t, completion, targets)
    requires TargetsOk(d.platform, d.input, targets, d.addressTargets, d.https[0])
    ensures ValidReport(env.policy, env.rules, EndedWith(d, targets, t))
  {
    if targets != [] {
      assert TargetOk(d.platform, d.input, targets[0], d.addressTargets[0], d.https[0]);
    }
  }

  /** However far the address queries came, the report meets the contract. */
  lemma GatheredEndIsPath(env: Env, d: Report, completion: CompletionKind, targets: seq<AddressTarget>, t: Terminal)
    requires Planned(env, d, completion) && GatheringEnd(t, completion, targets)
    requires TargetsOk(d.platform, d.input, targets, d.addressTargets, d.https[0]) && GatheredInOrder(targets)
    ensures PathReport(env, EndedWith(d, targets, t))
  {
    var r := EndedWith(d, targets, t);
    GatheredEndIsValid(env, d, completion, targets, t);
    if AllGathered(targets) {
      GatheredShowsNothing(targets, FailedEvidence);
      GatheredShowsNothing(targets, IncompleteEvidence);
    }
    forall i | 0 <= i < |targets| ensures TargetAnswered(r.input, targets[i], r.platform) {
      assert TargetOk(d.platform, d.input, targets[i], d.addressTargets[i], d.https[0]);
    }
  }
}
