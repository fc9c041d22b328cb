/** What the Web path observer depends on, and what it means for a report to be true of it. */
module WebPathWorld {
  import opened Basics
  import opened ContextReads
  import opened CallLog
  import opened WebPath

  datatype Question = Resolve(hostname: string) | Fetch(request: WebRequest)

  datatype Answer = Resolved(resolution: Resolution) | Fetched(observation: WebObservation)

  /** The environment: the two contexts, the resolver and the Web observer, at each moment. */
  datatype World = World(
    contexts: Contexts, resolver: (nat, string) -> Resolution, web: (nat, WebRequest) -> WebObservation)
  {
    function Reply(now: nat, q: Question): Answer {
      match q
      case Resolve(hostname) => Resolved(resolver(now, hostname))
      case Fetch(request) => Fetched(web(now, request))
    }
  }

  /** What one observer is configured with, and the world it runs in. */
  datatype Env = Env(policy: Policy, rules: Rules, platform: Platform, world: World) {
    function Probe(): Probe<Question, Answer> {
      CallLog.Probe.Probe(world.contexts, (now: nat, q: Question) => world.Reply(now, q), QuestionOf)
    }
  }

  /** The question an answer says it answers. */
  function QuestionOf(a: Answer): Question {
    match a
    case Resolved(r) => Resolve(r.hostname)
    case Fetched(o) => Fetch(o.request)
  }

  datatype Terminal = Terminal(status: Status, reason: StopReason, detail: Detail)

  function Stopped(reason: StopReason): Terminal { Terminal(StatusStopped, reason, Text) }

  const CANCELLED := Terminal(StatusCancelled, StopCancelled, Text)
  const FINAL_RESPONSE := Terminal(StatusCompleted, StopFinalResponse, NoText)

  /** How a look at the contexts ends the path. */
  function TerminalOf(v: Verdict): Terminal
    requires v != GoesOn
  {
    if v == Cancels then CANCELLED else Stopped(StopPathTimeout)
  }

  type Log = seq<Call<Question, Answer>>

  function Last(log: Log): Call<Question, Answer>
    requires log != []
  {
    log[|log| - 1]
  }

  /** An answer the path refuses as evidence. */
  predicate Refused(env: Env, x: Call<Question, Answer>) {
    match (x.question, x.answer)
    case (Resolve(hostname), Resolved(r)) => !r.Valid() || r.platform != env.platform || r.hostname != hostname
    case (Fetch(request), Fetched(o)) => !o.Valid(env.rules) || o.platform != env.platform || o.request != request
    case _ => true
  }

  predicate CancelledAnswer(answer: Answer) {
    match answer
    case Resolved(r) => r.outcome.Cancelled?
    case Fetched(o) => o.outcome.Cancelled?
  }

  /** A look that gave this verdict ended the chain: before a hostname was resolved, or right after the last answer. */
  predicate CutShort(env: Env, log: Log, evidence: seq<Answer>, next: Option<Question>, now: nat, v: Verdict) {
    || (LookedBefore(env.world.contexts, next, now, v) && next.value.Resolve?
        && Kept(env.Probe(), log, evidence, now - READS))
    || (LookedAfter(env.world.contexts, log, now, v) && Kept(env.Probe(), log, evidence, now))
  }

  /** The log accounts for all evidence, and both contexts were live after its last answer. */
  predicate Current(env: Env, log: Log, evidence: seq<Answer>, now: nat) {
    Kept(env.Probe(), log, evidence, now) && LiveAfter(env.world.contexts, log, now)
  }

  /** The evidence is the answers of the calls that were made, in order, and the reason is what really
      happened last. `next` is the question that evidence leads to. */
  predicate TrueEnd(env: Env, reason: StopReason, log: Log, evidence: seq<Answer>, next: Option<Question>, now: nat) {
    match reason
    case StopInvalidProbeEvidence => KeptBut(env.Probe(), log, evidence, next, now) && Refused(env, Last(log))
    case StopCancelled =>
      || CutShort(env, log, evidence, next, now, Cancels)
      || (Current(env, log, evidence, now) && CancelledAnswer(Last(log).answer))
    case StopPathTimeout => CutShort(env, log, evidence, next, now, TimesOut)
    case _ => Current(env, log, evidence, now)
  }

  /** What is true without a question in prospect is true with any. */
  lemma AnyNext(env: Env, reason: StopReason, log: Log, evidence: seq<Answer>, next: Option<Question>, now: nat)
    requires TrueEnd(env, reason, log, evidence, None, now)
    ensures TrueEnd(env, reason, log, evidence, next, now)
  {
  }

  /** The look before a resolution ended the chain. */
  lemma EndsBefore(env: Env, log: Log, evidence: seq<Answer>, hostname: string, now: nat)
    requires Kept(env.Probe(), log, evidence, now) && env.world.contexts.Look(now) != GoesOn
    ensures TrueEnd(env, TerminalOf(env.world.contexts.Look(now)).reason, log, evidence,
                    Some(Resolve(hostname)), now + READS)
  {
    assert LookedBefore(env.world.contexts, Some(Resolve(hostname)), now + READS, env.world.contexts.Look(now));
  }

  lemma EndsRefused(env: Env, log: Log, evidence: seq<Answer>, x: Call<Question, Answer>)
    requires Kept(env.Probe(), log, evidence, x.at) && Genuine(env.Probe(), x, x.at + 1) && Refused(env, x)
    ensures TrueEnd(env, StopInvalidProbeEvidence, log + [x], evidence, Some(x.question), x.at + 1)
  {
    KeptButGrows(env.Probe(), log, evidence, x, x.at + 1);
  }

  /** An admissible answer is evidence; the look after it goes on, or ends the chain truthfully. */
  lemma AnswerIsKept(env: Env, log: Log, evidence: seq<Answer>, next: Option<Question>, x: Call<Question, Answer>)
    requires Kept(env.Probe(), log, evidence, x.at) && Genuine(env.Probe(), x, x.at + 1) && !Refused(env, x)
    ensures var v, now := env.world.contexts.Look(x.at + 1), x.at + 1 + READS;
      if v == GoesOn then Current(env, log + [x], evidence + [x.answer], now)
      else TrueEnd(env, TerminalOf(v).reason, log + [x], evidence + [x.answer], next, now)
  {
    KeptGrows(env.Probe(), log, evidence, x);
    KeptLater(env.Probe(), log + [x], evidence + [x.answer], x.at + 1, x.at + 1 + READS);
    assert (log + [x])[|log|] == x;
  }

  lemma EndsCancelled(env: Env, log: Log, evidence: seq<Answer>, next: Option<Question>, now: nat)
    requires Current(env, log, evidence, now) && CancelledAnswer(evidence[|evidence| - 1])
    ensures TrueEnd(env, StopCancelled, log, evidence, next, now)
  {
  }

  /** Every true end holds real calls: all of them evidence, or all but one for the question in prospect. */
  lemma TrueEndIsLogged(env: Env, reason: StopReason, log: Log, evidence: seq<Answer>, next: Option<Question>, now: nat)
    requires TrueEnd(env, reason, log, evidence, next, now)
    ensures Kept(env.Probe(), log, evidence, now) || KeptBut(env.Probe(), log, evidence, next, now)
  {
    if READS <= now && Kept(env.Probe(), log, evidence, now - READS) {
      KeptLater(env.Probe(), log, evidence, now - READS, now);
    }
  }

  // ---------- The evidence of a trail, and the question it leads to ----------

  function FetchedAnswers(attempts: seq<WebObservation>): seq<Answer> {
    if attempts == [] then []
    else FetchedAnswers(attempts[..|attempts| - 1]) + [Fetched(attempts[|attempts| - 1])]
  }

  function HopAnswers(hop: Hop): seq<Answer> {
    [Resolved(hop.resolution)] + FetchedAnswers(hop.attempts)
  }

  function TrailAnswers(hops: seq<Hop>): seq<Answer> {
    if hops == [] then [] else TrailAnswers(hops[..|hops| - 1]) + HopAnswers(hops[|hops| - 1])
  }

  function FetchOf(url: Url, ip: string): Question {
    Fetch(WebRequest(url.scheme, url.hostname, ip, url.path, url.query))
  }

  /** The next candidate a hop would dial. */
  function NextFetch(env: Env, hop: Hop): Option<Question> {
    var candidates := HopCandidates(env.policy, env.rules, hop);
    if |hop.attempts| < |candidates| then Some(FetchOf(hop.url, candidates[|hop.attempts|])) else None
  }

  /** The question that the evidence of the trail leads to. */
  function NextQuestion(env: Env, t: Trail): Option<Question> {
    if |t.hops| == ChainStart(t) then Some(Resolve(t.input.initialUrl.hostname))
    else if t.hops == [] then None
    else
      var last := t.hops[|t.hops| - 1];
      if !Succeeds(last) then NextFetch(env, last)
      else
        match RedirectTarget(env.rules, last.url, Response(last))
        case Target(url) => Some(Resolve(url.hostname))
        case _ => None
  }

  /** The index of the first hop of the chain in progress. */
  function ChainStart(t: Trail): nat { if t.fallbackUsed then 1 else 0 }

  /** The report is true of the calls that were made: the chain ended as `own` says, and a look at `commit` had the
      last word. */
  predicate TruePath(env: Env, r: Report, own: Terminal, log: Log, commit: nat) {
    && TrueEnd(env, own.reason, log, TrailAnswers(r.trail.hops), NextQuestion(env, r.trail), commit)
    && var v := env.world.contexts.Look(commit);
       Terminal(r.status, r.reason, r.detail) == if v == GoesOn then own else TerminalOf(v)
  }

  /** A path that reports anything but an interruption found both contexts live at its end. */
  lemma CommittedWhileLive(env: Env, r: Report, own: Terminal, log: Log, commit: nat)
    requires env.world.contexts.Valid() && TruePath(env, r, own, log, commit) && !Interrupted(r)
    ensures env.world.contexts.parent(commit) == Live && env.world.contexts.path(commit) == Live
  {
    LiveWhenItGoesOn(env.world.contexts, commit);
  }

  /** The evidence before a hop, and that of the hop so far. */
  function EvidenceWith(hops: seq<Hop>, hop: Hop): seq<Answer> {
    TrailAnswers(hops) + HopAnswers(hop)
  }

  lemma EvidenceIsOfTrail(hops: seq<Hop>, hop: Hop)
    ensures EvidenceWith(hops, hop) == TrailAnswers(hops + [hop])
  {
    assert (hops + [hop])[..|hops|] == hops;
  }

  lemma EvidenceStarts(hops: seq<Hop>, url: Url, resolution: Resolution)
    ensures EvidenceWith(hops, Hop(url, resolution, [])) == TrailAnswers(hops) + [Resolved(resolution)]
  {
  }

  function WithAttempt(hop: Hop, o: WebObservation): Hop { hop.(attempts := hop.attempts + [o]) }

  lemma EvidenceGrows(hops: seq<Hop>, hop: Hop, o: WebObservation)
    ensures EvidenceWith(hops, WithAttempt(hop, o)) == EvidenceWith(hops, hop) + [Fetched(o)]
  {
    assert (hop.attempts + [o])[..|hop.attempts|] == hop.attempts;
  }
}
