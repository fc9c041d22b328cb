/** What the HTTPS path observer depends on, and what it means for a report to be true of it. */
module HttpsPathWorld {
  import opened Basics
  import opened ContextReads
  import opened CallLog
  import opened DnsEvidence
  import opened HttpsPath

  datatype Query = Query(hostname: string, query: QueryType, resolver: string, transport: Transport)

  /** The environment: the two contexts and the DNS observer, as they answer at each moment. */
  datatype World = World(contexts: Contexts, dns: (nat, Query) -> Observation)

  /** What one observer is configured with, and the world it runs in. */
  datatype Env = Env(policy: Policy, rules: InputRules, platform: Platform, world: World) {
    ghost predicate Valid() { policy.Valid() && rules.Valid() }

    function Probe(): Probe<Query, Observation> { CallLog.Probe.Probe(world.contexts, world.dns, QuestionOf) }
  }

  /** The question an observation says it answers. */
  function QuestionOf(o: Observation): Query { Query(o.hostname, o.query, o.resolver, o.transport) }

  function QueryFor(input: Input, hostname: string, query: QueryType): Query {
    Query(hostname, query, input.resolver, input.transport)
  }

  datatype Terminal = Terminal(status: Status, completion: CompletionKind, reason: StopReason, detail: Detail)

  const CANCELLED := Terminal(StatusCancelled, NoCompletion, StopCancelled, Text)

  function Stopped(reason: StopReason): Terminal { Terminal(StatusStopped, NoCompletion, reason, Text) }

  function Completed(kind: CompletionKind): Terminal { Terminal(StatusCompleted, kind, NoReason, NoText) }

  /** How a look at the contexts ends the path. */
  function TerminalOf(v: Verdict): Terminal
    requires v != GoesOn
  {
    if v == Cancels then CANCELLED else Stopped(StopPathTimeout)
  }

  type Log = seq<Call<Query, Observation>>

  function Last(log: Log): Call<Query, Observation>
    requires log != []
  {
    log[|log| - 1]
  }

  /** An answer that does not fit its question, or came through another adapter than the first. */
  predicate Refused(env: Env, input: Input, evidence: seq<Observation>, x: Call<Query, Observation>) {
    || !Embedded(env.platform, input, x.answer, x.question.hostname, x.question.query)
    || (evidence != [] && !SameAdapter(x.answer, evidence[0]))
  }

  /** A look that gave this verdict ended the path: before `next` was asked, or right after the last
      answer, which is evidence unless it was a success. */
  predicate CutShort(env: Env, log: Log, evidence: seq<Observation>, next: Option<Query>, now: nat, v: Verdict) {
    || (LookedBefore(env.world.contexts, next, now, v) && Kept(env.Probe(), log, evidence, now - READS))
    || (LookedAfter(env.world.contexts, log, now, v) &&
        if Last(log).answer.outcome.Succeeded? then KeptBut(env.Probe(), log, evidence, next, now)
        else Kept(env.Probe(), log, evidence, now))
  }

  /** The log accounts for all evidence, and both contexts were live after its last answer. */
  predicate Current(env: Env, log: Log, evidence: seq<Observation>, now: nat) {
    Kept(env.Probe(), log, evidence, now) && LiveAfter(env.world.contexts, log, now)
  }

  /** The evidence is the answers of the calls that were made, in order, and the reason is what really
      happened last. `next` is the query that evidence leads to. */
  predicate TrueEnd(
    env: Env, input: Input, reason: StopReason, log: Log, evidence: seq<Observation>, next: Option<Query>, now: nat)
  {
    match reason
    case StopInvalidProbeEvidence =>
      KeptBut(env.Probe(), log, evidence, next, now) && Refused(env, input, evidence, Last(log))
    case StopCancelled =>
      || CutShort(env, log, evidence, next, now, Cancels)
      || (Current(env, log, evidence, now) && Last(log).answer.outcome.Cancelled?)
    case StopPathTimeout => CutShort(env, log, evidence, next, now, TimesOut)
    case _ => Current(env, log, evidence, now)
  }

  /** What is true without a query in prospect is true with any. */
  lemma AnyNext(
    env: Env, input: Input, reason: StopReason, log: Log, evidence: seq<Observation>, next: Option<Query>, now: nat)
    requires TrueEnd(env, input, reason, log, evidence, None, now)
    ensures TrueEnd(env, input, reason, log, evidence, next, now)
  {
  }

  // ---------- How one query goes ----------

  /** The look before the query ended the path. */
  lemma EndsBefore(env: Env, input: Input, log: Log, evidence: seq<Observation>, next: Query, now: nat)
    requires Kept(env.Probe(), log, evidence, now) && env.world.contexts.Look(now) != GoesOn
    ensures TrueEnd(env, input, TerminalOf(env.world.contexts.Look(now)).reason, log, evidence, Some(next), now + READS)
  {
    assert LookedBefore(env.world.contexts, Some(next), now + READS, env.world.contexts.Look(now));
  }

  /** The answer was refused. */
  lemma EndsRefused(env: Env, input: Input, log: Log, evidence: seq<Observation>, x: Call<Query, Observation>)
    requires Kept(env.Probe(), log, evidence, x.at) && Genuine(env.Probe(), x, x.at + 1)
    requires Refused(env, input, evidence, x)
    ensures TrueEnd(env, input, StopInvalidProbeEvidence, log + [x], evidence, Some(x.question), x.at + 1)
  {
    KeptButGrows(env.Probe(), log, evidence, x, x.at + 1);
  }

  /** A context had ended after an admissible success, which is then discarded. */
  lemma EndsLate(env: Env, input: Input, log: Log, evidence: seq<Observation>, x: Call<Query, Observation>)
    requires Kept(env.Probe(), log, evidence, x.at) && Genuine(env.Probe(), x, x.at + 1)
    requires x.answer.outcome.Succeeded? && env.world.contexts.Look(x.at + 1) != GoesOn
    ensures TrueEnd(env, input, TerminalOf(env.world.contexts.Look(x.at + 1)).reason,
                    log + [x], evidence, Some(x.question), x.at + 1 + READS)
  {
    var now := x.at + 1 + READS;
    KeptButGrows(env.Probe(), log, evidence, x, now);
    assert Last(log + [x]) == x;
    assert CutShort(env, log + [x], evidence, Some(x.question), now, env.world.contexts.Look(x.at + 1));
  }

  /** A context had ended after an answer that is evidence all the same. */
  lemma EndsRecorded(env: Env, input: Input, log: Log, evidence: seq<Observation>, x: Call<Query, Observation>)
    requires Kept(env.Probe(), log, evidence, x.at) && Genuine(env.Probe(), x, x.at + 1)
    requires x.question == QuestionOf(x.answer)
    requires !x.answer.outcome.Succeeded? && env.world.contexts.Look(x.at + 1) != GoesOn
    ensures TrueEnd(env, input, TerminalOf(env.world.contexts.Look(x.at + 1)).reason,
                    log + [x], evidence + [x.answer], None, x.at + 1 + READS)
  {
    KeptGrows(env.Probe(), log, evidence, x);
    KeptLater(env.Probe(), log + [x], evidence + [x.answer], x.at + 1, x.at + 1 + READS);
  }

  /** The contexts were live after the answer: whatever it shows may now end the path. */
  lemma StaysCurrent(env: Env, log: Log, evidence: seq<Observation>, x: Call<Query, Observation>)
    requires Kept(env.Probe(), log, evidence, x.at) && Genuine(env.Probe(), x, x.at + 1)
    requires x.question == QuestionOf(x.answer) && env.world.contexts.Look(x.at + 1) == GoesOn
    ensures Current(env, log + [x], evidence + [x.answer], x.at + 1 + READS)
  {
    KeptGrows(env.Probe(), log, evidence, x);
    KeptLater(env.Probe(), log + [x], evidence + [x.answer], x.at + 1, x.at + 1 + READS);
  }

  // ---------- The evidence of a report, and the query it leads to ----------

  /** The address evidence in the order it was gathered. */
  function Flatten(targets: seq<AddressTarget>): seq<Observation> {
    if targets == [] then [] else Flatten(targets[..|targets| - 1]) + targets[|targets| - 1].observations
  }

  function EvidenceOf(r: Report): seq<Observation> { r.https + Flatten(r.addressTargets) }

  /** The name whose HTTPS records come next: the input, or the target of the last AliasMode record. */
  function CurrentName(r: Report): Option<string> {
    if r.https == [] then Some(r.input.hostname)
    else
      var last := r.https[|r.https| - 1];
      if last.Complete() && Aliases(last.evidence.value) != []
      then Some(Aliases(last.evidence.value)[0].record.service.value.target)
      else None
  }

  /** Address query `m`: A and AAAA for one target after the other. */
  function AddressQuery(input: Input, targets: seq<AddressTarget>, m: nat): Option<Query> {
    if m < |ADDRESS_QUERY_TYPES| * |targets|
    then Some(QueryFor(
      input, targets[m / |ADDRESS_QUERY_TYPES|].hostname, ADDRESS_QUERY_TYPES[m % |ADDRESS_QUERY_TYPES|]))
    else None
  }

  /** The query that the evidence of the report leads to. */
  function NextQuery(r: Report): Option<Query> {
    if r.aliasesFollowed == |r.https| then
      match CurrentName(r)
      case Some(name) => Some(QueryFor(r.input, name, QueryHTTPS))
      case None => None
    else AddressQuery(r.input, r.addressTargets, |Flatten(r.addressTargets)|)
  }

  /** The report is true of the calls that were made. */
  predicate TruePath(env: Env, r: Report, log: Log, now: nat) {
    TrueEnd(env, r.input, r.reason, log, EvidenceOf(r), NextQuery(r), now)
  }
}
