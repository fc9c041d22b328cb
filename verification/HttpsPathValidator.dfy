/** internal/dnshttpspath/validate.go: the validator, which re-derives the run from the report alone. */
module HttpsPathValidator {
  import opened Basics
  import opened DnsEvidence
  import opened ServiceBindings
  import opened TargetSelection
  import opened HttpsPath
  import opened HttpsPathWorld
  import opened HttpsPathExits
  import opened HttpsPathTruth
  import opened HttpsPathObserver

  lemma DecisionsAreUnique(services: seq<BindingReference>, a: seq<BindingDecision>, b: seq<BindingDecision>)
    requires Decides(services, a)
    ensures Decides(services, b) <==> a == b
  {
    if Decides(services, b) {
      forall i | 0 <= i < |services| ensures a[i] == b[i] {
        DecisionIsUnique(services[i], services[i].record.service.value, a[i], b[i]);
      }
    }
  }

  /** The pass over the HTTPS observations, which collects `queriedNames` on the way. */
  method ValidateChain(r: Report) returns (ok: bool, queriedNames: set<string>)
    requires r.https != []
    ensures ok == HttpsChain(r.platform, r.input, r.https)
    ensures ok ==> queriedNames == QueriedNames(r.https)
  {
    queriedNames := {};
    var first := r.https[0];
    for i := 0 to |r.https|
      invariant queriedNames == QueriedNames(r.https[..i])
      invariant i > 0 ==> first.hostname == r.input.hostname
      invariant forall j :: 0 <= j < i ==>
        Embedded(r.platform, r.input, r.https[j], r.https[j].hostname, QueryHTTPS) && SameAdapter(r.https[j], first)
      invariant forall j :: 0 <= j < i && j < |r.https| - 1 ==> LinkedAt(r.https, j)
    {
      var o := r.https[i];
      assert r.https[..i + 1][..i] == r.https[..i];
      if !Embedded(r.platform, r.input, o, o.hostname, QueryHTTPS) { return false, queriedNames; }
      if !SameAdapter(o, first) { return false, queriedNames; }
      if i == 0 && o.hostname != r.input.hostname { return false, queriedNames; }
      queriedNames := queriedNames + {o.hostname};
      if o.outcome.Succeeded? { queriedNames := queriedNames + {o.evidence.value.effectiveName}; }
      if i == |r.https| - 1 { continue; }
      if !o.Complete() {
        assert !LinkedAt(r.https, i);
        return false, queriedNames;
      }
      var aliases, _ := RelevantBindings(o.evidence.value);
      if |aliases| == 0 || aliases[0].record.service.value.target != r.https[i + 1].hostname {
        assert !LinkedAt(r.https, i);
        return false, queriedNames;
      }
    }
    assert r.https[..|r.https|] == r.https;
    ok := true;
  }

  /** validateAddressTargets. */
  method ValidateAddressTargets(r: Report, expected: seq<AddressTarget>, first: Observation) returns (ok: bool)
    ensures ok == AddressTargetsOk(r, expected, first)
  {
    if |r.addressTargets| != |expected| { return false; }
    for i := 0 to |expected|
      invariant forall j :: 0 <= j < i ==> TargetOk(r.platform, r.input, r.addressTargets[j], expected[j], first)
      invariant r.status == StatusCompleted ==> forall j :: 0 <= j < i ==> Gathered(r.addressTargets[j])
    {
      var target, want := r.addressTargets[i], expected[i];
      if target.hostname != want.hostname || target.source != want.source || target.priority != want.priority {
        return false;
      }
      if |target.observations| > |ADDRESS_QUERY_TYPES| { return false; }
      for k := 0 to |target.observations|
        invariant forall m :: 0 <= m < k ==>
          && Embedded(r.platform, r.input, target.observations[m], target.hostname, ADDRESS_QUERY_TYPES[m])
          && SameAdapter(target.observations[m], first)
      {
        if !Embedded(r.platform, r.input, target.observations[k], target.hostname, ADDRESS_QUERY_TYPES[k]) {
          return false;
        }
        if !SameAdapter(target.observations[k], first) { return false; }
      }
      if r.status == StatusCompleted {
        if |target.observations| != |ADDRESS_QUERY_TYPES| {
          assert !Gathered(r.addressTargets[i]);
          return false;
        }
        for k := 0 to |target.observations|
          invariant forall m :: 0 <= m < k ==> target.observations[m].Complete()
        {
          if !target.observations[k].outcome.Succeeded? || target.observations[k].evidence.value.kind == Incomplete {
            assert !Gathered(r.addressTargets[i]);
            return false;
          }
        }
      }
    }
    ok := true;
  }

  method ListShows(observations: seq<Observation>, flaw: Flaw) returns (shown: bool)
    ensures shown == SomeShows(observations, flaw)
  {
    shown := false;
    for k := 0 to |observations|
      invariant shown == SomeShows(observations[..k], flaw)
    {
      assert observations[..k + 1] == observations[..k] + [observations[k]];
      assert Shows(observations[k], flaw) ==> Shows(observations[..k + 1][k], flaw);
      assert forall j :: 0 <= j < k ==> observations[..k + 1][j] == observations[..k][j];
      shown := shown || Shows(observations[k], flaw);
    }
    assert observations[..|observations|] == observations;
  }

  /** The flags of validateStopEvidence. */
  method CollectFlaw(r: Report, flaw: Flaw) returns (shown: bool)
    ensures shown == EvidenceShows(r, flaw)
  {
    shown := ListShows(r.https, flaw);
    for i := 0 to |r.addressTargets|
      invariant shown == (SomeShows(r.https, flaw) ||
        exists j :: 0 <= j < i && SomeShows(r.addressTargets[j].observations, flaw))
    {
      var here := ListShows(r.addressTargets[i].observations, flaw);
      shown := shown || here;
    }
  }

  method ValidateStopEvidence(r: Report, queriedNames: set<string>) returns (ok: bool)
    requires r.https != [] && queriedNames == QueriedNames(r.https)
    ensures ok == StopEvidenceOk(r)
  {
    var hasFailure := CollectFlaw(r, FailedEvidence);
    var hasIncomplete := CollectFlaw(r, IncompleteEvidence);
    match r.reason
    case StopDNSObservationFailed => return hasFailure;
    case StopDNSObservationIncomplete => return hasIncomplete;
    case StopAliasLoop =>
      var last := r.https[|r.https| - 1];
      return Followable(last) && FirstAlias(last) in queriedNames;
    case StopAliasLimit =>
      var last := r.https[|r.https| - 1];
      return Followable(last) && FirstAlias(last) !in queriedNames && r.aliasesFollowed == r.input.policy.aliasLimit;
    case _ => return true;
  }

  /** The checks on a report whose last HTTPS response is complete. */
  method ValidateTail(r: Report, queriedNames: set<string>) returns (ok: bool)
    requires r.https != [] && queriedNames == QueriedNames(r.https)
    requires r.https[|r.https| - 1].Complete()
    ensures ok == TailOk(r)
  {
    var e := r.https[|r.https| - 1].evidence.value;
    var aliases, services := RelevantBindings(e);
    var decisions: seq<BindingDecision> := [];
    var omitted := 0;
    var expected: seq<AddressTarget> := [];
    var limit := r.input.policy.serviceTargetLimit;
    if |aliases| == 0 && |services| > 0 {
      decisions := EvaluateBindings(services);
      var targets := ServiceAddressTargets(decisions);
      expected := TargetsOf(targets);
      if |expected| > limit {
        omitted := |expected| - limit;
        expected := expected[..limit];
      }
    } else if |aliases| == 0 && e.effectiveName != "." {
      expected := [FallbackTarget(e, r.aliasesFollowed)];
    }
    ghost var relevant := if Aliases(e) == [] then Services(e) else [];
    assert Decides(relevant, decisions);
    DecisionsAreUnique(relevant, decisions, r.bindings);
    if r.bindings != decisions { return false; }
    assert expected == ExpectedTargets(e, r.bindings, r.aliasesFollowed, limit);
    if r.serviceTargetsOmitted != omitted { return false; }
    var fine := ValidateAddressTargets(r, expected, r.https[0]);
    if !fine { return false; }
    if r.status == StatusCompleted { return CompletionOk(r, e); }
    ok := ValidateStopEvidence(r, queriedNames);
  }

  /** dnshttpspath.Validate accepts exactly the reports that meet the declarative contract. */
  method Validate(policy: Policy, rules: InputRules, r: Report) returns (ok: bool)
    ensures ok == ValidReport(policy, rules, r)
  {
    var normalized := NormalizeRequest(policy, rules, Request(r.input.hostname, r.input.resolver, r.input.transport));
    if normalized != r.input { return false; }
    if r.status == StatusStopped && r.reason == StopInvalidInput {
      if Accepted(rules, r.input) || |r.https| != 0 || |r.bindings| != 0 || |r.addressTargets| != 0
        || r.aliasesFollowed != 0 || r.serviceTargetsOmitted != 0 { return false; }
      return TerminalShape(r);
    }
    if !Accepted(rules, r.input) { return false; }
    if !TerminalShape(r) { return false; }
    if r.aliasesFollowed < 0 || r.aliasesFollowed > policy.aliasLimit { return false; }
    if r.serviceTargetsOmitted < 0 { return false; }
    if |r.https| == 0 {
      if r.aliasesFollowed != 0 || r.serviceTargetsOmitted != 0 || r.status == StatusCompleted { return false; }
      return !(r.status == StatusStopped && r.reason != StopPathTimeout && r.reason != StopInvalidProbeEvidence);
    }
    if r.aliasesFollowed != |r.https| - 1 && r.aliasesFollowed != |r.https| { return false; }
    if r.aliasesFollowed == |r.https| && r.status == StatusCompleted { return false; }
    if r.aliasesFollowed == |r.https| && r.status != StatusCancelled
      && r.reason != StopPathTimeout && r.reason != StopInvalidProbeEvidence { return false; }

    var chained, queriedNames := ValidateChain(r);
    if !chained { return false; }
    var last := r.https[|r.https| - 1];
    if !last.outcome.Succeeded? || last.evidence.value.kind == Incomplete {
      if r.status == StatusCompleted { return false; }
      if |r.bindings| != 0 || |r.addressTargets| != 0 || r.serviceTargetsOmitted != 0 { return false; }
      ok := ValidateStopEvidence(r, queriedNames);
      return;
    }
    ok := ValidateTail(r, queriedNames);
  }

  /** Producer and validator together: every report of an accepted request is accepted, unless a blank failure
      detail was copied into it, which takes a DNS observer that gives one. */
  method ObserveThenValidate(env: Env, request: Request) returns (report: Report, ok: bool)
    requires env.Valid()
    ensures env.rules.check(env.rules.text(request.hostname)) ==> (ok <==> !CopiesBlankDetail(report))
    ensures env.rules.check(env.rules.text(request.hostname)) && NeverBlank(env) ==> ok
  {
    ghost var asked, seenNames, log, end;
    report, asked, seenNames, log, end := Observe(env, request);
    ok := Validate(env.policy, env.rules, report);
  }
}
