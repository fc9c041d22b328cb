/** internal/dnshttpspath/observer.go: observeAddressTargets. */
module HttpsPathAddresses {
  import opened Basics
  import opened ContextReads
  import opened CallLog
  import opened DnsEvidence
  import opened HttpsPath
  import opened HttpsPathWorld
  import opened HttpsPathQueries

  // ---------- The order in which evidence is gathered ----------

  predicate TargetsOk(
    platform: Platform, input: Input, targets: seq<AddressTarget>, plan: seq<AddressTarget>, first: Observation)
  {
    && |targets| == |plan|
    && forall i :: 0 <= i < |plan| ==> TargetOk(platform, input, targets[i], plan[i], first)
  }

  /** Target `i` has `q` answers, those before it are finished, and those after it untouched. */
  predicate InOrder(targets: seq<AddressTarget>, i: nat, q: nat) {
    && i <= |targets|
    && (forall j :: 0 <= j < i ==> |targets[j].observations| == |ADDRESS_QUERY_TYPES|)
    && (if i < |targets| then |targets[i].observations| == q else q == 0)
    && forall j :: i < j < |targets| ==> targets[j].observations == []
  }

  /** Evidence is gathered target by target, A before AAAA. */
  predicate GatheredInOrder(targets: seq<AddressTarget>) {
    forall i, j :: 0 <= i < j < |targets| && targets[j].observations != [] ==>
      |targets[i].observations| == |ADDRESS_QUERY_TYPES|
  }

  predicate AllGathered(targets: seq<AddressTarget>) {
    forall i :: 0 <= i < |targets| ==> Gathered(targets[i])
  }

  function WithObservation(targets: seq<AddressTarget>, i: nat, o: Observation): seq<AddressTarget>
    requires i < |targets|
  {
    targets[i := targets[i].(observations := targets[i].observations + [o])]
  }

  lemma InOrderNext(targets: seq<AddressTarget>, i: nat, q: nat, o: Observation)
    requires i < |targets| && q < |ADDRESS_QUERY_TYPES| && InOrder(targets, i, q)
    ensures InOrder(WithObservation(targets, i, o), i, q + 1)
    ensures q + 1 == |ADDRESS_QUERY_TYPES| ==> InOrder(WithObservation(targets, i, o), i + 1, 0)
  {
  }

  lemma InOrderIsGathered(targets: seq<AddressTarget>, i: nat, q: nat)
    requires InOrder(targets, i, q)
    ensures GatheredInOrder(targets)
  {
  }

  /** The next observation of a target fits behind the ones it has. */
  lemma TargetsOkNext(platform: Platform, input: Input, targets: seq<AddressTarget>, plan: seq<AddressTarget>,
                      first: Observation, i: nat, q: nat, o: Observation)
    requires TargetsOk(platform, input, targets, plan, first) && i < |plan|
    requires |targets[i].observations| == q < |ADDRESS_QUERY_TYPES|
    requires Embedded(platform, input, o, targets[i].hostname, ADDRESS_QUERY_TYPES[q]) && SameAdapter(o, first)
    ensures TargetsOk(platform, input, WithObservation(targets, i, o), plan, first)
  {
    var targets' := WithObservation(targets, i, o);
    forall j | 0 <= j < |plan| ensures TargetOk(platform, input, targets'[j], plan[j], first) {
      assert TargetOk(platform, input, targets[j], plan[j], first);
    }
  }

  /** Recording an observation for the target in progress puts it last. */
  lemma {:induction false} FlattenGrows(targets: seq<AddressTarget>, i: nat, o: Observation)
    requires i < |targets| && forall j :: i < j < |targets| ==> targets[j].observations == []
    ensures Flatten(WithObservation(targets, i, o)) == Flatten(targets) + [o]
  {
    var last := |targets| - 1;
    var targets' := WithObservation(targets, i, o);
    if i == last {
      assert targets'[..last] == targets[..last];
      assert Flatten(targets') == Flatten(targets[..last]) + (targets[last].observations + [o]);
    } else {
      FlattenGrows(targets[..last], i, o);
      assert targets'[..last] == WithObservation(targets[..last], i, o);
    }
  }

  lemma {:induction false} NothingGathered(targets: seq<AddressTarget>)
    requires forall j :: 0 <= j < |targets| ==> targets[j].observations == []
    ensures Flatten(targets) == []
  {
    if targets != [] {
      NothingGathered(targets[..|targets| - 1]);
    }
  }

  // ---------- What the flags of the loop remember ----------

  predicate SomeTargetShows(targets: seq<AddressTarget>, flaw: Flaw) {
    exists i :: 0 <= i < |targets| && SomeShows(targets[i].observations, flaw)
  }

  lemma AppendShows(targets: seq<AddressTarget>, i: nat, o: Observation, flaw: Flaw)
    requires i < |targets|
    ensures SomeTargetShows(WithObservation(targets, i, o), flaw) <==> SomeTargetShows(targets, flaw) || Shows(o, flaw)
  {
    var targets' := WithObservation(targets, i, o);
    var t := targets'[i];
    if j :| 0 <= j < |targets| && SomeShows(targets[j].observations, flaw) {
      var k :| 0 <= k < |targets[j].observations| && Shows(targets[j].observations[k], flaw);
      assert targets'[j].observations[k] == targets[j].observations[k];
      assert SomeShows(targets'[j].observations, flaw);
    }
    if Shows(o, flaw) {
      assert t.observations[|t.observations| - 1] == o;
      assert SomeShows(targets'[i].observations, flaw);
    }
    if j :| 0 <= j < |targets'| && SomeShows(targets'[j].observations, flaw) {
      var k :| 0 <= k < |targets'[j].observations| && Shows(targets'[j].observations[k], flaw);
      if j == i && k == |t.observations| - 1 {
      } else {
        assert SomeShows(targets[j].observations, flaw);
      }
    }
  }

  predicate NoneCancelled(targets: seq<AddressTarget>) {
    forall i :: 0 <= i < |targets| ==>
      forall k :: 0 <= k < |targets[i].observations| ==> !targets[i].observations[k].outcome.Cancelled?
  }

  predicate Remembers(targets: seq<AddressTarget>, hadFailure: bool, hadIncomplete: bool) {
    && hadFailure == SomeTargetShows(targets, FailedEvidence)
    && hadIncomplete == SomeTargetShows(targets, IncompleteEvidence)
    && NoneCancelled(targets)
  }

  lemma RemembersNext(targets: seq<AddressTarget>, i: nat, o: Observation, hadFailure: bool, hadIncomplete: bool)
    requires i < |targets| && Remembers(targets, hadFailure, hadIncomplete) && !o.outcome.Cancelled? && o.Valid()
    ensures Remembers(WithObservation(targets, i, o),
                      hadFailure || !o.outcome.Succeeded?, hadIncomplete || o.SeenIncomplete())
  {
    AppendShows(targets, i, o, FailedEvidence);
    AppendShows(targets, i, o, IncompleteEvidence);
  }

  lemma NothingMissing(
    platform: Platform, input: Input, targets: seq<AddressTarget>, plan: seq<AddressTarget>, first: Observation)
    requires TargetsOk(platform, input, targets, plan, first)
    requires InOrder(targets, |targets|, 0) && Remembers(targets, false, false)
    ensures AllGathered(targets)
  {
    forall i | 0 <= i < |plan| ensures Gathered(targets[i]) {
      var t := targets[i];
      assert TargetOk(platform, input, t, plan[i], first);
      assert !SomeShows(t.observations, FailedEvidence) && !SomeShows(t.observations, IncompleteEvidence);
      forall k | 0 <= k < |t.observations| ensures t.observations[k].Complete() {
        assert !Shows(t.observations[k], FailedEvidence) && !Shows(t.observations[k], IncompleteEvidence);
      }
    }
  }

  // ---------- The loops ----------

  /** The address evidence before query `q` of target `i`. */
  predicate AtQuery(env: Env, d: Report, plan: seq<AddressTarget>, i: nat, q: nat) {
    && d.https != [] && TargetsOk(env.platform, d.input, d.addressTargets, plan, d.https[0])
    && InOrder(d.addressTargets, i, q)
    && |Flatten(d.addressTargets)| == |ADDRESS_QUERY_TYPES| * i + q
  }

  function WithAnswer(d: Report, i: nat, o: Observation): Report
    requires i < |d.addressTargets|
  {
    d.(addressTargets := WithObservation(d.addressTargets, i, o))
  }

  /** An admissible answer to query `q` of target `i` keeps everything in order. */
  lemma AnswerInOrder(env: Env, d: Report, plan: seq<AddressTarget>, i: nat, q: nat, o: Observation)
    requires AtQuery(env, d, plan, i, q) && i < |plan| && q < |ADDRESS_QUERY_TYPES|
    requires Embedded(env.platform, d.input, o, d.addressTargets[i].hostname, ADDRESS_QUERY_TYPES[q])
    requires SameAdapter(o, d.https[0])
    ensures AtQuery(env, WithAnswer(d, i, o), plan, i, q + 1)
    ensures q + 1 == |ADDRESS_QUERY_TYPES| ==> AtQuery(env, WithAnswer(d, i, o), plan, i + 1, 0)
    ensures EvidenceOf(WithAnswer(d, i, o)) == EvidenceOf(d) + [o]
  {
    TargetsOkNext(env.platform, d.input, d.addressTargets, plan, d.https[0], i, q, o);
    InOrderNext(d.addressTargets, i, q, o);
    FlattenGrows(d.addressTargets, i, o);
  }

  /** The query that comes next is the one the evidence leads to. */
  lemma QueryInOrder(env: Env, d: Report, plan: seq<AddressTarget>, i: nat, q: nat)
    requires AtQuery(env, d, plan, i, q) && i < |plan| && q < |ADDRESS_QUERY_TYPES|
    ensures AddressQuery(d.input, d.addressTargets, |Flatten(d.addressTargets)|)
         == Some(QueryFor(d.input, d.addressTargets[i].hostname, ADDRESS_QUERY_TYPES[q]))
  {
  }

  /** The address queries have ended the path: by an interruption that is true of the log. */
  predicate Interrupted(env: Env, d: Report, plan: seq<AddressTarget>, t: Terminal, log: Log, now: nat) {
    && Interruption(t)
    && d.https != [] && TargetsOk(env.platform, d.input, d.addressTargets, plan, d.https[0])
    && GatheredInOrder(d.addressTargets)
    && TrueEnd(env, d.input, t.reason, log, EvidenceOf(d),
               AddressQuery(d.input, d.addressTargets, |Flatten(d.addressTargets)|), now)
  }

  /** What query `q` of target `i` leads to. */
  lemma AnswerKeepsOrder(
    env: Env, d: Report, plan: seq<AddressTarget>, i: nat, q: nat, result: Asked, log: Log, now: nat)
    requires AtQuery(env, d, plan, i, q) && i < |plan| && q < |ADDRESS_QUERY_TYPES|
    requires AskedOk(env, d.input, QueryFor(d.input, d.addressTargets[i].hostname, ADDRESS_QUERY_TYPES[q]),
                     EvidenceOf(d), result, log, now)
    ensures result.Discarded? ==> Interrupted(env, d, plan, result.terminal, log, now)
    ensures result.Recorded? ==> AtQuery(env, WithAnswer(d, i, result.o), plan, i, q + 1) && result.o.Valid()
    ensures result.Recorded? && q + 1 == |ADDRESS_QUERY_TYPES| ==>
      AtQuery(env, WithAnswer(d, i, result.o), plan, i + 1, 0)
    ensures result.Recorded? && result.ended.Some? ==>
      Interrupted(env, WithAnswer(d, i, result.o), plan, result.ended.value, log, now)
    ensures result.Recorded? && result.ended.None? ==>
      !result.o.outcome.Cancelled? && Current(env, log, EvidenceOf(WithAnswer(d, i, result.o)), now)
  {
    assert EvidenceOf(d)[0] == d.https[0];
    match result
    case Discarded(t) =>
      InOrderIsGathered(d.addressTargets, i, q);
      QueryInOrder(env, d, plan, i, q);
    case Recorded(o, ended) =>
      AnswerInOrder(env, d, plan, i, q, o);
      var d' := WithAnswer(d, i, o);
      InOrderIsGathered(d'.addressTargets, i, q + 1);
      if ended.Some? {
        AnyNext(env, d.input, ended.value.reason, log, EvidenceOf(d'),
                AddressQuery(d.input, d'.addressTargets, |Flatten(d'.addressTargets)|), now);
      }
  }

  /** Between two address queries: what is gathered, what the flags remember, and what the log says. */
  predicate Gathering(env: Env, d: Report, plan: seq<AddressTarget>, i: nat, q: nat,
                      hadFailure: bool, hadIncomplete: bool, log: Log, now: nat) {
    && AtQuery(env, d, plan, i, q) && Remembers(d.addressTargets, hadFailure, hadIncomplete)
    && Current(env, log, EvidenceOf(d), now)
  }

  predicate BetweenQueries(env: Env, builder: ReportBuilder, plan: seq<AddressTarget>, i: nat, q: nat,
                           hadFailure: bool, hadIncomplete: bool, log: Log, now: nat)
    reads builder
  {
    && IdentityOf(builder.identity, builder.https)
    && Gathering(env, builder.Draft(env.platform), plan, i, q, hadFailure, hadIncomplete, log, now)
  }

  /** A query that did not end the path leaves the loops where the next one starts. */
  lemma GatheringGoesOn(env: Env, d: Report, plan: seq<AddressTarget>, i: nat, q: nat,
                        hadFailure: bool, hadIncomplete: bool, o: Observation, log: Log, now: nat)
    requires AtQuery(env, d, plan, i, q) && i < |plan| && q < |ADDRESS_QUERY_TYPES|
    requires Remembers(d.addressTargets, hadFailure, hadIncomplete)
    requires AskedOk(env, d.input, QueryFor(d.input, d.addressTargets[i].hostname, ADDRESS_QUERY_TYPES[q]),
                     EvidenceOf(d), Recorded(o, None), log, now)
    ensures var (i', q') := NextTurn(i, q);
      Gathering(env, WithAnswer(d, i, o), plan, i', q',
                hadFailure || !o.outcome.Succeeded?, hadIncomplete || o.SeenIncomplete(), log, now)
  {
    AnswerKeepsOrder(env, d, plan, i, q, Recorded(o, None), log, now);
    RemembersNext(d.addressTargets, i, o, hadFailure, hadIncomplete);
  }

  /** The target and the query after query `q` of target `i`. */
  function NextTurn(i: nat, q: nat): (nat, nat) {
    if q + 1 == |ADDRESS_QUERY_TYPES| then (i + 1, 0) else (i, q + 1)
  }

  /** The query of one type for one target, recorded if its answer is evidence. */
  method AskAddress(env: Env, start: nat, builder: ReportBuilder, i: nat, q: nat, ghost log: Log)
      returns (result: Asked, now: nat, ghost log': Log)
    requires builder.https != [] && IdentityOf(builder.identity, builder.https)
    requires i < |builder.addressTargets| && q < |ADDRESS_QUERY_TYPES|
    requires Kept(env.Probe(), log, EvidenceOf(builder.Draft(env.platform)), start)
    modifies builder`addressTargets, builder`identity
    ensures AskedOk(env, builder.input,
                    QueryFor(builder.input, old(builder.addressTargets[i]).hostname, ADDRESS_QUERY_TYPES[q]),
                    EvidenceOf(old(builder.Draft(env.platform))), result, log', now)
    ensures builder.identity == old(builder.identity)
    ensures builder.Draft(env.platform) ==
      if result.Recorded? then WithAnswer(old(builder.Draft(env.platform)), i, result.o)
      else old(builder.Draft(env.platform))
  {
    var target := builder.addressTargets[i];
    assert EvidenceOf(builder.Draft(env.platform))[0] == builder.https[0];
    AskingOk(env, builder.input, start, QueryFor(builder.input, target.hostname, ADDRESS_QUERY_TYPES[q]),
             EvidenceOf(builder.Draft(env.platform)), log);
    result, now, log' := Ask(env, start, builder, target.hostname, ADDRESS_QUERY_TYPES[q],
                             EvidenceOf(builder.Draft(env.platform)), log);
    if result.Recorded? {
      builder.addressTargets := builder.addressTargets[i := target.(observations := target.observations + [result.o])];
    }
  }

  /** One turn of the inner loop: the query of one type for one target. */
  method ObserveAddress(env: Env, start: nat, builder: ReportBuilder, i: nat, q: nat, failed: bool, incomplete: bool,
                        ghost plan: seq<AddressTarget>, ghost log: Log)
      returns (state: Option<Terminal>, hadFailure: bool, hadIncomplete: bool, now: nat, ghost log': Log)
    requires BetweenQueries(env, builder, plan, i, q, failed, incomplete, log, start)
    requires i < |plan| && q < |ADDRESS_QUERY_TYPES|
    modifies builder`addressTargets, builder`identity
    ensures state.Some? ==> Interrupted(env, builder.Draft(env.platform), plan, state.value, log', now)
    ensures state.None? ==>
      var (i', q') := NextTurn(i, q);
      BetweenQueries(env, builder, plan, i', q', hadFailure, hadIncomplete, log', now)
  {
    ghost var before := builder.Draft(env.platform);
    hadFailure, hadIncomplete := failed, incomplete;
    var result;
    result, now, log' := AskAddress(env, start, builder, i, q, log);
    match result
    case Discarded(terminal) =>
      AnswerKeepsOrder(env, before, plan, i, q, result, log', now);
      state := Some(terminal);
    case Recorded(o, Some(terminal)) =>
      AnswerKeepsOrder(env, before, plan, i, q, result, log', now);
      state := Some(terminal);
    case Recorded(o, None) =>
      GatheringGoesOn(env, before, plan, i, q, failed, incomplete, o, log', now);
      state := None;
      if !o.outcome.Succeeded? {
        hadFailure := true;
      } else if o.evidence.value.kind == Incomplete {
        hadIncomplete := true;
      }
  }

  /** The turn of the outer loop for target `i`: A, then AAAA. */
  method ObserveTarget(env: Env, start: nat, builder: ReportBuilder, i: nat, failed: bool, incomplete: bool,
                       ghost plan: seq<AddressTarget>, ghost log: Log)
      returns (state: Option<Terminal>, hadFailure: bool, hadIncomplete: bool, now: nat, ghost log': Log)
    requires BetweenQueries(env, builder, plan, i, 0, failed, incomplete, log, start) && i < |plan|
    modifies builder`addressTargets, builder`identity
    ensures state.Some? ==> Interrupted(env, builder.Draft(env.platform), plan, state.value, log', now)
    ensures state.None? ==> BetweenQueries(env, builder, plan, i + 1, 0, hadFailure, hadIncomplete, log', now)
  {
    hadFailure, hadIncomplete, now, log' := failed, incomplete, start, log;
    for q := 0 to |ADDRESS_QUERY_TYPES|
      invariant if q < |ADDRESS_QUERY_TYPES|
                then BetweenQueries(env, builder, plan, i, q, hadFailure, hadIncomplete, log', now)
                else BetweenQueries(env, builder, plan, i + 1, 0, hadFailure, hadIncomplete, log', now)
    {
      state, hadFailure, hadIncomplete, now, log' :=
        ObserveAddress(env, now, builder, i, q, hadFailure, hadIncomplete, plan, log');
      if state.Some? { return; }
    }
    state := None;
  }

  /** A and AAAA were asked for every target. */
  predicate AllAsked(targets: seq<AddressTarget>) {
    forall i :: 0 <= i < |targets| ==> |targets[i].observations| == |ADDRESS_QUERY_TYPES|
  }

  /** Why the address queries end, as their evidence shows: only an interruption leaves a query unasked. */
  predicate GatheringEnd(t: Terminal, completion: CompletionKind, targets: seq<AddressTarget>) {
    Interruption(t) ||
    (AllAsked(targets) &&
     (|| (t == Completed(completion) && AllGathered(targets))
      || (t == Stopped(StopDNSObservationFailed) && SomeTargetShows(targets, FailedEvidence))
      || (t == Stopped(StopDNSObservationIncomplete) && SomeTargetShows(targets, IncompleteEvidence)
          && !SomeTargetShows(targets, FailedEvidence))))
  }

  /** The end of the address queries: shown by the evidence and true of the log. */
  predicate GatheringOk(
    env: Env, d: Report, plan: seq<AddressTarget>, completion: CompletionKind, t: Terminal, log: Log, now: nat)
  {
    && d.https != [] && TargetsOk(env.platform, d.input, d.addressTargets, plan, d.https[0])
    && GatheredInOrder(d.addressTargets) && GatheringEnd(t, completion, d.addressTargets)
    && TrueEnd(env, d.input, t.reason, log, EvidenceOf(d),
               AddressQuery(d.input, d.addressTargets, |Flatten(d.addressTargets)|), now)
  }

  /** After the last query. */
  lemma GatheringIsOver(env: Env, d: Report, plan: seq<AddressTarget>, completion: CompletionKind,
                        hadFailure: bool, hadIncomplete: bool, log: Log, now: nat)
    requires AtQuery(env, d, plan, |plan|, 0) && Remembers(d.addressTargets, hadFailure, hadIncomplete)
    requires Current(env, log, EvidenceOf(d), now) && completion != NoCompletion
    ensures GatheringOk(env, d, plan, completion, GatheredTerminal(completion, hadFailure, hadIncomplete), log, now)
  {
    InOrderIsGathered(d.addressTargets, |plan|, 0);
    if !hadFailure && !hadIncomplete {
      NothingMissing(env.platform, d.input, d.addressTargets, plan, d.https[0]);
    }
  }

  /** What the flags lead to once every query is answered. */
  function GatheredTerminal(completion: CompletionKind, hadFailure: bool, hadIncomplete: bool): Terminal {
    if hadFailure then Stopped(StopDNSObservationFailed)
    else if hadIncomplete then Stopped(StopDNSObservationIncomplete)
    else Completed(completion)
  }

  /** `observeAddressTargets`: A then AAAA for every target, until a context ends, evidence is refused, or an
      observation is cancelled. Failures and gaps are reported only at the end. */
  method ObserveAddressTargets(env: Env, start: nat, builder: ReportBuilder, completion: CompletionKind, ghost log: Log)
      returns (t: Terminal, ghost now: nat, ghost log': Log)
    requires builder.https != [] && IdentityOf(builder.identity, builder.https)
    requires Current(env, log, builder.https, start) && completion != NoCompletion
    requires forall i :: 0 <= i < |builder.addressTargets| ==> builder.addressTargets[i].observations == []
    modifies builder`addressTargets, builder`identity
    ensures GatheringOk(env, builder.Draft(env.platform), old(builder.addressTargets), completion, t, log', now)
  {
    ghost var plan := builder.addressTargets;
    var hadFailure, hadIncomplete, moment := false, false, start;
    log', now := log, start;
    NothingGathered(builder.addressTargets);
    assert EvidenceOf(builder.Draft(env.platform)) == builder.https;
    for i := 0 to |builder.addressTargets|
      invariant |builder.addressTargets| == |plan|
      invariant BetweenQueries(env, builder, plan, i, 0, hadFailure, hadIncomplete, log', moment)
    {
      var state;
      state, hadFailure, hadIncomplete, moment, log' :=
        ObserveTarget(env, moment, builder, i, hadFailure, hadIncomplete, plan, log');
      now := moment;
      if state.Some? { return state.value, now, log'; }
    }
    now := moment;
    GatheringIsOver(env, builder.Draft(env.platform), plan, completion, hadFailure, hadIncomplete, log', now);
    t := GatheredTerminal(completion, hadFailure, hadIncomplete);
  }
}
