/** internal/dnshttpspath/observer.go: the report in progress, and one query as both loops make it. */
module HttpsPathQueries {
  import opened Basics
  import opened ContextReads
  import opened CallLog
  import opened DnsEvidence
  import opened ServiceBindings
  import opened HttpsPath
  import opened HttpsPathWorld

  const PENDING := Terminal(StatusStopped, NoCompletion, NoReason, NoText)

  class ReportBuilder {
    const input: Input
    var aliasesFollowed: nat
    var https: seq<Observation>
    var bindings: seq<BindingDecision>
    var addressTargets: seq<AddressTarget>
    var serviceTargetsOmitted: int
    var identity: Option<(string, Source)>

    constructor (input: Input)
      ensures this.input == input && aliasesFollowed == 0 && serviceTargetsOmitted == 0 && identity == None
      ensures https == [] && bindings == [] && addressTargets == []
    {
      this.input := input;
      aliasesFollowed, serviceTargetsOmitted, identity := 0, 0, None;
      https, bindings, addressTargets := [], [], [];
    }

    /** `finish`. */
    function Finish(platform: Platform, t: Terminal): Report
      reads this
    {
      Report(platform, input, t.status, t.completion, t.reason, t.detail,
             aliasesFollowed, serviceTargetsOmitted, https, bindings, addressTargets)
    }

    /** The report so far, without a reason to end. */
    function Draft(platform: Platform): Report
      reads this
    {
      Finish(platform, PENDING)
    }

    /** `validateObservation`: the first accepted observation fixes the resolver adapter. */
    method ValidateObservation(platform: Platform, o: Observation, hostname: string, query: QueryType)
        returns (ok: bool)
      modifies this`identity
      ensures ok ==> Embedded(platform, input, o, hostname, query) && identity == Some((o.endpoint, o.source))
      ensures old(identity).Some? ==> identity == old(identity)
      ensures !ok ==>
        || !Embedded(platform, input, o, hostname, query)
        || (old(identity).Some? && old(identity).value != (o.endpoint, o.source))
    {
      if !o.Valid() { return false; }
      if o.platform != platform || o.hostname != hostname || o.query != query
        || o.resolver != input.resolver || o.transport != input.transport { return false; }
      if identity.None? {
        identity := Some((o.endpoint, o.source));
      } else if identity.value != (o.endpoint, o.source) {
        return false;
      }
      ok := true;
    }
  }

  /** The report a draft becomes. */
  function EndedAs(r: Report, t: Terminal): Report {
    r.(status := t.status, completion := t.completion, reason := t.reason, detail := t.detail)
  }

  /** Terminal states that any moment of the path may bring. */
  predicate Interruption(t: Terminal) {
    t.(detail := Text) == CANCELLED || t == Stopped(StopPathTimeout) || t == Stopped(StopInvalidProbeEvidence)
  }

  /** The adapter every kept answer came through. */
  predicate IdentityOf(identity: Option<(string, Source)>, evidence: seq<Observation>) {
    identity == if evidence == [] then None else Some((evidence[0].endpoint, evidence[0].source))
  }

  /** How one query went. */
  datatype Asked =
    | Discarded(terminal: Terminal)                          // it ended the path, and is no evidence
    | Recorded(o: Observation, ended: Option<Terminal>)      // it is evidence, and may have ended the path

  /** The answer is about the query, and came through the adapter of the first one. */
  predicate Admissible(env: Env, input: Input, q: Query, evidence: seq<Observation>, o: Observation) {
    && Embedded(env.platform, input, o, q.hostname, q.query)
    && (evidence != [] ==> SameAdapter(o, evidence[0]))
  }

  /** What is true of one query, given the evidence before it. */
  predicate AskedOk(
    env: Env, input: Input, q: Query, evidence: seq<Observation>, result: Asked, log: Log, now: nat)
  {
    match result
    case Discarded(t) =>
      && Interruption(t) && t.detail == Text
      && TrueEnd(env, input, t.reason, log, evidence, Some(q), now)
    case Recorded(o, Some(t)) =>
      && Admissible(env, input, q, evidence, o) && Interruption(t) && !o.Complete()
      && TrueEnd(env, input, t.reason, log, evidence + [o], None, now)
    case Recorded(o, None) =>
      && Admissible(env, input, q, evidence, o) && !o.outcome.Cancelled?
      && Current(env, log, evidence + [o], now)
  }

  /** What an admissible answer leads to, once the contexts have been looked at again. */
  function Judged(env: Env, now: nat, o: Observation): Asked {
    var v := env.world.contexts.Look(now);
    if v == GoesOn then Recorded(o, if o.outcome.Cancelled? then Some(CANCELLED.(detail := NoText)) else None)
    else if o.outcome.Succeeded? then Discarded(TerminalOf(v))
    else Recorded(o, Some(TerminalOf(v)))
  }

  lemma JudgedOk(env: Env, input: Input, evidence: seq<Observation>, log: Log, x: Call<Query, Observation>)
    requires Kept(env.Probe(), log, evidence, x.at) && Genuine(env.Probe(), x, x.at + 1)
    requires x.question == QueryFor(input, x.question.hostname, x.question.query)
    requires Admissible(env, input, x.question, evidence, x.answer)
    ensures AskedOk(env, input, x.question, evidence, Judged(env, x.at + 1, x.answer), log + [x], x.at + 1 + READS)
  {
    assert x.question == QuestionOf(x.answer);
    if env.world.contexts.Look(x.at + 1) == GoesOn {
      StaysCurrent(env, log, evidence, x);
      assert (log + [x])[|log|] == x;
    } else if x.answer.outcome.Succeeded? {
      EndsLate(env, input, log, evidence, x);
    } else {
      EndsRecorded(env, input, log, evidence, x);
    }
  }

  lemma NotAskedOk(env: Env, input: Input, q: Query, evidence: seq<Observation>, log: Log, now: nat)
    requires Kept(env.Probe(), log, evidence, now) && env.world.contexts.Look(now) != GoesOn
    ensures AskedOk(env, input, q, evidence, Discarded(TerminalOf(env.world.contexts.Look(now))), log, now + READS)
  {
    EndsBefore(env, input, log, evidence, q, now);
  }

  lemma RefusedOk(env: Env, input: Input, evidence: seq<Observation>, log: Log, x: Call<Query, Observation>)
    requires Kept(env.Probe(), log, evidence, x.at) && Genuine(env.Probe(), x, x.at + 1)
    requires Refused(env, input, evidence, x)
    ensures AskedOk(env, input, x.question, evidence, Discarded(Stopped(StopInvalidProbeEvidence)),
                    log + [x], x.at + 1)
  {
    EndsRefused(env, input, log, evidence, x);
  }

  /** What an answer given just before `now` leads to: discarded if it is not admissible, and judged otherwise. */
  function Taking(env: Env, input: Input, now: nat, q: Query, evidence: seq<Observation>, o: Observation): Asked {
    if Admissible(env, input, q, evidence, o) then Judged(env, now, o) else Discarded(Stopped(StopInvalidProbeEvidence))
  }

  function TakenAt(env: Env, input: Input, now: nat, q: Query, evidence: seq<Observation>, o: Observation): nat {
    if Admissible(env, input, q, evidence, o) then now + READS else now
  }

  lemma TakingOk(env: Env, input: Input, evidence: seq<Observation>, log: Log, x: Call<Query, Observation>)
    requires Kept(env.Probe(), log, evidence, x.at) && Genuine(env.Probe(), x, x.at + 1)
    requires x.question == QueryFor(input, x.question.hostname, x.question.query)
    ensures AskedOk(env, input, x.question, evidence, Taking(env, input, x.at + 1, x.question, evidence, x.answer),
                    log + [x], TakenAt(env, input, x.at + 1, x.question, evidence, x.answer))
  {
    var taken := Taking(env, input, x.at + 1, x.question, evidence, x.answer);
    if Admissible(env, input, x.question, evidence, x.answer) {
      assert taken == Judged(env, x.at + 1, x.answer);
      JudgedOk(env, input, evidence, log, x);
    } else {
      assert taken == Discarded(Stopped(StopInvalidProbeEvidence));
      RefusedOk(env, input, evidence, log, x);
    }
  }

  /** What one query leads to when it is made at `start`: nothing is asked if a context has ended. */
  function Asking(env: Env, input: Input, start: nat, q: Query, evidence: seq<Observation>): Asked {
    var v := env.world.contexts.Look(start);
    if v != GoesOn then Discarded(TerminalOf(v))
    else Taking(env, input, start + READS + 1, q, evidence, env.world.dns(start + READS, q))
  }

  /** The moment after it. */
  function AskedAt(env: Env, input: Input, start: nat, q: Query, evidence: seq<Observation>): nat {
    if env.world.contexts.Look(start) != GoesOn then start + READS
    else TakenAt(env, input, start + READS + 1, q, evidence, env.world.dns(start + READS, q))
  }

  /** The log after it. */
  function AskedLog(env: Env, start: nat, q: Query, log: Log): Log {
    if env.world.contexts.Look(start) != GoesOn then log
    else log + [Call(start + READS, q, env.world.dns(start + READS, q))]
  }

  lemma AskingTooLateOk(env: Env, input: Input, start: nat, q: Query, evidence: seq<Observation>, log: Log)
    requires Kept(env.Probe(), log, evidence, start) && env.world.contexts.Look(start) != GoesOn
    ensures AskedOk(env, input, q, evidence, Asking(env, input, start, q, evidence),
                    AskedLog(env, start, q, log), AskedAt(env, input, start, q, evidence))
  {
    NotAskedOk(env, input, q, evidence, log, start);
  }

  lemma AskingInTimeOk(env: Env, input: Input, start: nat, q: Query, evidence: seq<Observation>, log: Log)
    requires Kept(env.Probe(), log, evidence, start) && q == QueryFor(input, q.hostname, q.query)
    requires env.world.contexts.Look(start) == GoesOn
    ensures AskedOk(env, input, q, evidence, Asking(env, input, start, q, evidence),
                    AskedLog(env, start, q, log), AskedAt(env, input, start, q, evidence))
  {
    var x := Call(start + READS, q, env.world.dns(start + READS, q));
    KeptLater(env.Probe(), log, evidence, start, start + READS);
    TakingOk(env, input, evidence, log, x);
  }

  lemma AskingOk(env: Env, input: Input, start: nat, q: Query, evidence: seq<Observation>, log: Log)
    requires Kept(env.Probe(), log, evidence, start) && q == QueryFor(input, q.hostname, q.query)
    ensures AskedOk(env, input, q, evidence, Asking(env, input, start, q, evidence),
                    AskedLog(env, start, q, log), AskedAt(env, input, start, q, evidence))
  {
    if env.world.contexts.Look(start) != GoesOn {
      AskingTooLateOk(env, input, start, q, evidence, log);
    } else {
      AskingInTimeOk(env, input, start, q, evidence, log);
    }
  }

  /** One query between two looks at the contexts, as both loops make it. */
  method Ask(env: Env, start: nat, builder: ReportBuilder, hostname: string, query: QueryType,
             ghost evidence: seq<Observation>, ghost log: Log)
      returns (result: Asked, now: nat, ghost log': Log)
    requires IdentityOf(builder.identity, evidence)
    modifies builder`identity
    ensures var q := QueryFor(builder.input, hostname, query);
      && result == Asking(env, builder.input, start, q, evidence)
      && now == AskedAt(env, builder.input, start, q, evidence) && log' == AskedLog(env, start, q, log)
    ensures result.Recorded? ==> IdentityOf(builder.identity, evidence + [result.o])
    ensures old(builder.identity).Some? ==> builder.identity == old(builder.identity)
  {
    var asked := QueryFor(builder.input, hostname, query);
    log' := log;
    var v := env.world.contexts.Look(start);
    if v != GoesOn { return Discarded(TerminalOf(v)), start + READS, log'; }
    now := start + READS;
    var o := env.world.dns(now, asked);
    log' := log' + [Call(now, asked, o)];
    now := now + 1;
    var ok := builder.ValidateObservation(env.platform, o, hostname, query);
    if !ok { return Discarded(Stopped(StopInvalidProbeEvidence)), now, log'; }
    result := Judged(env, now, o);
    now := now + READS;
  }
}
