/** What a true report of the HTTPS path says about the calls that were made. */
module HttpsPathTruth {
  import opened Basics
  import opened ContextReads
  import opened CallLog
  import opened DnsEvidence
  import opened HttpsPath
  import opened HttpsPathWorld
  import opened HttpsPathQueries
  import opened HttpsPathAddresses
  import opened HttpsPathExits

  // ---------- The questions ----------

  /** The names of the HTTPS queries of a log of that length: those recorded, and one whose answer was not. */
  function NamesAsked(r: Report, calls: nat): seq<string> {
    Hostnames(r.https) +
    if r.aliasesFollowed == |r.https| < calls && CurrentName(r).Some? then [CurrentName(r).value] else []
  }

  function Hostnames(https: seq<Observation>): (names: seq<string>)
    ensures |names| == |https|
  {
    seq(|https|, i requires 0 <= i < |https| => https[i].hostname)
  }

  /** The log begins with the HTTPS queries for these names. */
  predicate AsksNames(r: Report, log: Log, asked: seq<string>)
    requires |asked| <= |log|
  {
    forall i :: 0 <= i < |asked| ==> log[i].question == QueryFor(r.input, asked[i], QueryHTTPS)
  }

  /** From there on the log holds the address queries, target by target, A before AAAA. */
  predicate AsksAddresses(r: Report, log: Log, from: nat) {
    forall i :: from <= i < |log| ==> AddressQuery(r.input, r.addressTargets, i - from) == Some(log[i].question)
  }

  lemma {:induction false} FinishedTargets(targets: seq<AddressTarget>)
    requires forall i :: 0 <= i < |targets| ==> |targets[i].observations| == |ADDRESS_QUERY_TYPES|
    ensures |Flatten(targets)| == |ADDRESS_QUERY_TYPES| * |targets|
  {
    if targets != [] {
      FinishedTargets(targets[..|targets| - 1]);
    }
  }

  /** Address answer `m` is the answer to address query `m`. */
  lemma {:induction false} FlattenAt(input: Input, platform: Platform, targets: seq<AddressTarget>, m: nat)
    requires GatheredInOrder(targets) && m < |Flatten(targets)|
    requires forall i :: 0 <= i < |targets| ==> TargetAnswered(input, targets[i], platform)
    ensures AddressQuery(input, targets, m) == Some(QuestionOf(Flatten(targets)[m]))
  {
    var front, last := targets[..|targets| - 1], targets[|targets| - 1];
    if m < |Flatten(front)| {
      FlattenAt(input, platform, front, m);
    } else {
      assert last.observations != [];
      FinishedTargets(front);
      assert Embedded(platform, input, last.observations[m - |Flatten(front)|], last.hostname,
                      ADDRESS_QUERY_TYPES[m - |Flatten(front)|]);
    }
  }

  lemma {:induction false} FlattenFits(input: Input, platform: Platform, targets: seq<AddressTarget>)
    requires forall i :: 0 <= i < |targets| ==> TargetAnswered(input, targets[i], platform)
    ensures |Flatten(targets)| <= |ADDRESS_QUERY_TYPES| * |targets|
  {
    if targets != [] {
      FlattenFits(input, platform, targets[..|targets| - 1]);
    }
  }

  /** Every true end holds real calls: all of them evidence, or all but one for the query in prospect. */
  lemma TrueEndIsLogged(
    env: Env, input: Input, reason: StopReason, log: Log, evidence: seq<Observation>, next: Option<Query>, now: nat)
    requires TrueEnd(env, input, reason, log, evidence, next, now)
    ensures Kept(env.Probe(), log, evidence, now) || KeptBut(env.Probe(), log, evidence, next, now)
  {
    if READS <= now && Kept(env.Probe(), log, evidence, now - READS) {
      KeptLater(env.Probe(), log, evidence, now - READS, now);
    }
  }

  /** Every entry that is evidence asks what its answer is about; one more asks what comes next. */
  lemma LogQuestions(env: Env, r: Report, log: Log, now: nat)
    requires TruePath(env, r, log, now)
    ensures QuestionsFit(r, log)
  {
    var evidence := EvidenceOf(r);
    TrueEndIsLogged(env, r.input, r.reason, log, evidence, NextQuery(r), now);
    forall i | 0 <= i < |evidence| ensures log[i].question == QuestionOf(evidence[i]) {
      if Kept(env.Probe(), log, evidence, now) {
        KeptAnswers(env.Probe(), log, evidence, now, i);
      } else {
        KeptAnswers(env.Probe(), log[..|log| - 1], evidence, Last(log).at, i);
      }
    }
  }

  lemma NamesAreDistinct(r: Report, calls: nat)
    requires NeverRevisits(r.https) && LeadsOn(r)
    ensures Distinct(NamesAsked(r, calls))
  {
    forall i, j | 0 <= i < j < |NamesAsked(r, calls)| ensures NamesAsked(r, calls)[i] != NamesAsked(r, calls)[j] {
      if j < |r.https| {
        RevisitlessIsDistinct(r.https, i, j);
      } else {
        QueriedNamesContains(r.https, i);
      }
    }
  }

  lemma RecordedNameIsAsked(r: Report, log: Log, i: nat)
    requires QuestionsFit(r, log) && HttpsChain(r.platform, r.input, r.https) && i < |r.https|
    ensures i < |log| && log[i].question == QueryFor(r.input, r.https[i].hostname, QueryHTTPS)
  {
    assert EvidenceOf(r)[i] == r.https[i];
  }

  lemma NamesAreAsked(env: Env, r: Report, log: Log, now: nat)
    requires PathReport(env, r) && TruePath(env, r, log, now)
    ensures |NamesAsked(r, |log|)| <= |log| && AsksNames(r, log, NamesAsked(r, |log|))
  {
    LogQuestions(env, r, log, now);
    NamesFit(r, log);
  }

  lemma NamesFit(r: Report, log: Log)
    requires QuestionsFit(r, log) && HttpsChain(r.platform, r.input, r.https)
    requires r.aliasesFollowed == |r.https| ==> r.addressTargets == []
    ensures |NamesAsked(r, |log|)| <= |log| && AsksNames(r, log, NamesAsked(r, |log|))
  {
    var asked := NamesAsked(r, |log|);
    assert r.addressTargets == [] ==> EvidenceOf(r) == r.https;
    forall i | 0 <= i < |asked| ensures i < |log| && log[i].question == QueryFor(r.input, asked[i], QueryHTTPS) {
      if i < |r.https| {
        RecordedNameIsAsked(r, log, i);
      }
    }
  }

  lemma EvidenceParts(r: Report, m: nat)
    requires m < |Flatten(r.addressTargets)|
    ensures EvidenceOf(r)[|r.https| + m] == Flatten(r.addressTargets)[m]
  {
  }

  /** The questions of a log that follows the report. */
  predicate QuestionsFit(r: Report, log: Log) {
    && |EvidenceOf(r)| <= |log| <= |EvidenceOf(r)| + 1
    && (forall i :: 0 <= i < |EvidenceOf(r)| ==> log[i].question == QuestionOf(EvidenceOf(r)[i]))
    && (|log| > |EvidenceOf(r)| ==> NextQuery(r) == Some(Last(log).question))
  }

  lemma RecordedAddressIsAsked(r: Report, log: Log, m: nat)
    requires QuestionsFit(r, log) && m < |Flatten(r.addressTargets)|
    requires GatheredInOrder(r.addressTargets) && TargetsAnswered(r)
    ensures AddressQuery(r.input, r.addressTargets, m) == Some(log[|r.https| + m].question)
  {
    FlattenAt(r.input, r.platform, r.addressTargets, m);
    EvidenceParts(r, m);
  }

  lemma AddressIsAsked(r: Report, log: Log, i: nat)
    requires QuestionsFit(r, log) && GatheredInOrder(r.addressTargets) && TargetsAnswered(r)
    requires |r.https| <= i < |log| && r.aliasesFollowed != |r.https|
    ensures AddressQuery(r.input, r.addressTargets, i - |r.https|) == Some(log[i].question)
  {
    if i < |EvidenceOf(r)| {
      RecordedAddressIsAsked(r, log, i - |r.https|);
    }
  }

  lemma AddressesAreAsked(env: Env, r: Report, log: Log, now: nat)
    requires PathReport(env, r) && TruePath(env, r, log, now)
    ensures AsksAddresses(r, log, |NamesAsked(r, |log|)|)
  {
    LogQuestions(env, r, log, now);
    if r.aliasesFollowed == |r.https| {
      assert Flatten(r.addressTargets) == [];
    } else {
      assert |NamesAsked(r, |log|)| == |r.https|;
      forall i | |r.https| <= i < |log|
        ensures AddressQuery(r.input, r.addressTargets, i - |r.https|) == Some(log[i].question)
      {
        AddressIsAsked(r, log, i);
      }
    }
  }

  /** No more of either kind than the limits allow. */
  lemma LogIsBounded(env: Env, r: Report, log: Log)
    requires Framed(env, r) && |r.https| - 1 <= r.aliasesFollowed
    requires |r.addressTargets| <= env.policy.serviceTargetLimit
    requires |NamesAsked(r, |log|)| <= |log| && AsksAddresses(r, log, |NamesAsked(r, |log|)|)
    ensures |NamesAsked(r, |log|)| <= env.policy.aliasLimit + 1
    ensures |log| - |NamesAsked(r, |log|)| <= |ADDRESS_QUERY_TYPES| * env.policy.serviceTargetLimit
  {
    var asked := |NamesAsked(r, |log|)|;
    if |log| > asked {
      assert AddressQuery(r.input, r.addressTargets, |log| - 1 - asked) == Some(log[|log| - 1].question);
    }
  }

  /** An uninterrupted path whose last HTTPS answer was complete has asked for every address. */
  lemma EverythingIsAsked(env: Env, r: Report, log: Log, now: nat)
    requires PathReport(env, r) && TruePath(env, r, log, now) && Uninterrupted(r)
    requires r.https != [] && r.https[|r.https| - 1].Complete()
    ensures |log| - |NamesAsked(r, |log|)| == |ADDRESS_QUERY_TYPES| * |r.addressTargets|
  {
    FinishedTargets(r.addressTargets);
    NothingElseIsAsked(r, log);
  }

  lemma NothingElseIsAsked(r: Report, log: Log)
    requires |log| == |r.https| + |Flatten(r.addressTargets)|
    requires r.aliasesFollowed == |r.https| ==> r.addressTargets == []
    ensures |NamesAsked(r, |log|)| == |r.https|
  {
    assert Flatten([]) == [];
  }

  /** The log of a true report is determined by it: HTTPS queries for distinct names, then the address queries in
      order, and no more of either than the limits allow. */
  lemma LogFollowsTheReport(env: Env, r: Report, log: Log, now: nat)
    requires PathReport(env, r) && TruePath(env, r, log, now)
    ensures var asked := NamesAsked(r, |log|);
      && |asked| <= |log| && AsksNames(r, log, asked) && AsksAddresses(r, log, |asked|)
      && Distinct(asked) && |asked| <= env.policy.aliasLimit + 1
      && |log| - |asked| <= |ADDRESS_QUERY_TYPES| * env.policy.serviceTargetLimit
  {
    NamesAreAsked(env, r, log, now);
    AddressesAreAsked(env, r, log, now);
    NamesAreDistinct(r, |log|);
    LogIsBounded(env, r, log);
  }

  // ---------- Blank failure details ----------

  /** The DNS observer never fails with a detail that is blank but not empty. */
  ghost predicate NeverBlank(env: Env) {
    forall t: nat, q :: env.world.dns(t, q).failureDetail != Some(BlankText)
  }

  /** The last HTTPS observation of a path that stopped over DNS is what the DNS observer answered. */
  lemma LastHttpsWasAnswered(env: Env, r: Report, log: Log, now: nat)
    requires TruePath(env, r, log, now) && r.reason == StopDNSObservationFailed && r.https != []
    ensures |r.https| <= |log|
    ensures var x := log[|r.https| - 1];
      r.https[|r.https| - 1] == x.answer == env.world.dns(x.at, x.question) && x.question == QuestionOf(x.answer)
  {
    var i := |r.https| - 1;
    KeptAnswers(env.Probe(), log, EvidenceOf(r), now, i);
    assert EvidenceOf(r)[i] == r.https[i];
  }

  /** A true report copies a blank detail only if the DNS observer gave one. */
  lemma BlankDetailNeedsABlankAnswer(env: Env, r: Report, log: Log, now: nat)
    requires TruePath(env, r, log, now) && NeverBlank(env)
    ensures !CopiesBlankDetail(r)
  {
    if r.reason == StopDNSObservationFailed && r.https != [] {
      LastHttpsWasAnswered(env, r, log, now);
    }
  }

  /** The last call was an HTTPS query. It was answered, admissibly, by a failure with a blank detail, and
      both contexts were still live after it. */
  predicate BlankFailure(env: Env, input: Input, log: Log) {
    && log != [] && env.world.contexts.Look(Last(log).at + 1) == GoesOn
    && var x := Last(log);
    && x.question.query == QueryHTTPS && x.answer.outcome.Failed? && x.answer.failureDetail == Some(BlankText)
    && Embedded(env.platform, input, x.answer, x.question.hostname, x.question.query)
    && SameAdapter(x.answer, log[0].answer)
  }

  lemma BlankDetailIsABlankFailure(env: Env, r: Report, log: Log, now: nat)
    requires PathReport(env, r) && TruePath(env, r, log, now) && CopiesBlankDetail(r)
    ensures BlankFailure(env, r.input, log)
  {
    assert EvidenceOf(r) == r.https;
    LastHttpsWasAnswered(env, r, log, now);
    KeptAnswers(env.Probe(), log, EvidenceOf(r), now, 0);
  }

  /** Every HTTPS observation but the last was complete. */
  lemma OnlyTheLastFails(r: Report)
    requires HttpsChain(r.platform, r.input, r.https) && r.https != [] && r.https[|r.https| - 1].outcome.Failed?
    ensures !SomeShows(r.https, IncompleteEvidence)
  {
    forall i | 0 <= i < |r.https| ensures !Shows(r.https[i], IncompleteEvidence) {
      assert i < |r.https| - 1 ==> LinkedAt(r.https, i);
    }
  }

  /** What a stopped report may say of it. */
  lemma FailureIsShown(r: Report)
    requires r.https != [] && r.https[|r.https| - 1].outcome.Failed? && !SomeShows(r.https, IncompleteEvidence)
    requires TerminalShape(r) && TailOk(r)
    requires r.reason != StopCancelled && r.reason != StopPathTimeout && r.reason != StopInvalidProbeEvidence
    requires r.reason != StopInvalidInput
    ensures r.reason == StopDNSObservationFailed
  {
  }

  /** A path whose last HTTPS query failed, and that was not interrupted, says so. */
  lemma FailureIsTheReason(env: Env, r: Report)
    requires PathReport(env, r) && r.https != [] && r.https[|r.https| - 1].outcome.Failed?
    requires r.reason != StopCancelled && r.reason != StopPathTimeout && r.reason != StopInvalidProbeEvidence
    ensures r.reason == StopDNSObservationFailed
  {
    if !CopiesBlankDetail(r) {
      OnlyTheLastFails(r);
      FailureIsShown(r);
    }
  }

  /** Once the last HTTPS query has failed there is nothing left to ask. */
  lemma FailureLeadsNowhere(env: Env, r: Report)
    requires PathReport(env, r) && r.https != [] && r.https[|r.https| - 1].outcome.Failed?
    ensures NextQuery(r) == None && EvidenceOf(r) == r.https
  {
  }

  /** The last call, when it was an HTTPS query that is evidence, is the last HTTPS observation. */
  lemma LastCallIsLastHttps(env: Env, r: Report, log: Log, now: nat)
    requires PathReport(env, r) && Kept(env.Probe(), log, EvidenceOf(r), now)
    requires log != [] && Last(log).question.query == QueryHTTPS
    ensures r.https != [] && r.https[|r.https| - 1] == Last(log).answer
  {
    KeptAnswers(env.Probe(), log, EvidenceOf(r), now, |log| - 1);
    if Flatten(r.addressTargets) != [] {
      LastAddressIsNoHttps(r);
    } else {
      assert EvidenceOf(r) == r.https;
    }
  }

  lemma LastAddressIsNoHttps(r: Report)
    requires Flatten(r.addressTargets) != [] && GatheredInOrder(r.addressTargets) && TargetsAnswered(r)
    ensures EvidenceOf(r)[|EvidenceOf(r)| - 1].query != QueryHTTPS
  {
    var m := |Flatten(r.addressTargets)| - 1;
    FlattenAt(r.input, r.platform, r.addressTargets, m);
    EvidenceParts(r, m);
  }

  lemma AdmissibleIsNotRefused(
    env: Env, input: Input, log: Log, evidence: seq<Observation>, next: Option<Query>, now: nat)
    requires KeptBut(env.Probe(), log, evidence, next, now)
    requires Embedded(env.platform, input, Last(log).answer, Last(log).question.hostname, Last(log).question.query)
    requires SameAdapter(Last(log).answer, log[0].answer)
    ensures !Refused(env, input, evidence, Last(log))
  {
    if evidence != [] {
      KeptAnswers(env.Probe(), log[..|log| - 1], evidence, Last(log).at, 0);
    }
  }

  lemma BlankFailureIsKept(env: Env, r: Report, log: Log, now: nat)
    requires PathReport(env, r) && TruePath(env, r, log, now) && BlankFailure(env, r.input, log)
    ensures r.reason != StopInvalidProbeEvidence && (Kept(env.Probe(), log, EvidenceOf(r), now))
  {
    if KeptBut(env.Probe(), log, EvidenceOf(r), NextQuery(r), now) {
      AdmissibleIsNotRefused(env, r.input, log, EvidenceOf(r), NextQuery(r), now);
    }
    TrueEndIsLogged(env, r.input, r.reason, log, EvidenceOf(r), NextQuery(r), now);
  }

  /** Exactly when the validator refuses the report of an accepted request, in terms of the calls: it refuses the
      report if and only if the path ended on a failure with a blank detail. */
  lemma BlankFailureExactly(env: Env, r: Report, log: Log, now: nat)
    requires PathReport(env, r) && TruePath(env, r, log, now)
    ensures !ValidReport(env.policy, env.rules, r) <==> BlankFailure(env, r.input, log)
  {
    if CopiesBlankDetail(r) {
      BlankDetailIsABlankFailure(env, r, log, now);
    }
    if BlankFailure(env, r.input, log) {
      BlankFailureIsKept(env, r, log, now);
      LastCallIsLastHttps(env, r, log, now);
      FailureLeadsNowhere(env, r);
      FailureIsTheReason(env, r);
    }
  }

  // ---------- A refused report ----------

  /** An admissible answer to the first query: a failure with a blank detail. */
  predicate BlankAnswer(env: Env, input: Input, o: Observation) {
    && Embedded(env.platform, input, o, input.hostname, QueryHTTPS)
    && o.outcome.Failed? && o.failureDetail == Some(BlankText)
  }

  /** The contexts stay live, and the DNS observer answers the first query like that. */
  ghost predicate BlankFromTheStart(env: Env, input: Input) {
    && (forall t: nat :: env.world.contexts.Look(t) == GoesOn)
    && forall t: nat :: BlankAnswer(env, input, env.world.dns(t, QueryFor(input, input.hostname, QueryHTTPS)))
  }

  lemma FirstQueryIsTheInput(env: Env, r: Report, log: Log, now: nat)
    requires PathReport(env, r) && TruePath(env, r, log, now) && BlankFromTheStart(env, r.input)
    ensures log != [] && log[0].question == QueryFor(r.input, r.input.hostname, QueryHTTPS)
  {
    NamesAreAsked(env, r, log, now);
    assert NamesAsked(r, |log|)[0] == r.input.hostname;
  }

  lemma FirstAnswerIsBlank(env: Env, r: Report, log: Log, now: nat)
    requires PathReport(env, r) && TruePath(env, r, log, now) && BlankFromTheStart(env, r.input)
    ensures log != [] && BlankAnswer(env, r.input, log[0].answer)
    ensures r.https != [] && r.https[0] == log[0].answer
  {
    FirstQueryIsTheInput(env, r, log, now);
    var evidence := EvidenceOf(r);
    TrueEndIsLogged(env, r.input, r.reason, log, evidence, NextQuery(r), now);
    if Kept(env.Probe(), log, evidence, now) {
      KeptAnswers(env.Probe(), log, evidence, now, 0);
    } else if |log| > 1 {
      KeptAnswers(env.Probe(), log[..|log| - 1], evidence, Last(log).at, 0);
    }
  }

  /** A DNS observer whose first answer is a blank failure makes the validator refuse the report of every accepted
      request. */
  lemma BlankFirstAnswerIsRefused(env: Env, r: Report, log: Log, now: nat)
    requires PathReport(env, r) && TruePath(env, r, log, now) && BlankFromTheStart(env, r.input)
    ensures !ValidReport(env.policy, env.rules, r)
  {
    FirstAnswerIsBlank(env, r, log, now);
    assert |r.https| > 1 ==> LinkedAt(r.https, 0);
    FailureLeadsNowhere(env, r);
    TrueEndIsLogged(env, r.input, r.reason, log, EvidenceOf(r), NextQuery(r), now);
    BlankFailureExactly(env, r, log, now);
  }

  // A concrete environment of that kind.

  const ALWAYS_LIVE := Contexts((t: nat) => Live, (t: nat) => Live)

  function BlankFailing(platform: Platform): World {
    World(ALWAYS_LIVE, (t: nat, q: Query) =>
      Observation(platform, Source("dns", true, ""), q.hostname, q.query, q.resolver, "endpoint", q.transport,
                  Failed, None, Some(BlankText), true))
  }

  lemma BlankFailingIsBlank(env: Env, input: Input)
    requires env.world == BlankFailing(env.platform)
    ensures BlankFromTheStart(env, input)
  {
  }
}
