/** internal/webpath/observer.go: observeHop. */
module WebPathHops {
  import opened Basics
  import opened ContextReads
  import opened CallLog
  import opened WebPath
  import opened WebPathWorld

  /** What interrupts a path at any moment. */
  predicate Interrupts(t: Terminal) {
    || t.(detail := Text) == CANCELLED
    || (t.status == StatusStopped && (t.reason == StopPathTimeout || t.reason == StopInvalidProbeEvidence))
  }

  /** `hopResult`: the hop, when it was observed, and its response or why there is none. */
  datatype HopResult =
    | Responded(hop: Hop)
    | HopEnded(lastHop: Option<Hop>, terminal: Terminal)

  function HopOf(result: HopResult): Option<Hop> {
    match result
    case Responded(hop) => Some(hop)
    case HopEnded(lastHop, _) => lastHop
  }

  /** Why a hop without a response ended, as its evidence shows. */
  predicate HopEndOk(env: Env, hop: Hop, t: Terminal) {
    Interrupts(t) ||
    (t.status == StatusStopped &&
     match t.reason
     case StopResolutionFailed => hop.resolution.outcome.Failed? && hop.attempts == []
     case StopNoPublicCandidates =>
       && hop.resolution.outcome.Succeeded? && hop.attempts == []
       && HopCandidates(env.policy, env.rules, hop) == []
     case StopAllCandidatesFailed => Exhausted(env.policy, env.rules, hop)
     case _ => false)
  }

  /** What the observed hop, if any, satisfies however it ended. */
  predicate HopResultOk(env: Env, url: Url, result: HopResult) {
    && (HopOf(result).Some? ==>
          HopOk(env.policy, env.rules, env.platform, HopOf(result).value) && HopOf(result).value.url == url)
    && match result
       case Responded(hop) => Succeeds(hop)
       case HopEnded(None, terminal) => Interrupts(terminal)
       case HopEnded(Some(hop), terminal) => HopEndOk(env, hop, terminal)
  }

  /** The log accounts for the evidence, and for the reason the hop ended. `hops` are the earlier ones. */
  predicate HopTrue(env: Env, url: Url, hops: seq<Hop>, result: HopResult, log: Log, now: nat) {
    match result
    case Responded(hop) => Current(env, log, EvidenceWith(hops, hop), now)
    case HopEnded(None, t) =>
      TrueEnd(env, t.reason, log, TrailAnswers(hops), Some(Resolve(url.hostname)), now)
    case HopEnded(Some(hop), t) =>
      TrueEnd(env, t.reason, log, EvidenceWith(hops, hop), if Succeeds(hop) then None else NextFetch(env, hop), now)
  }

  // ---------- One attempt ----------

  /** How one attempt went. */
  datatype Tried =
    | TurnedAway                                              // the answer was refused
    | Took(o: WebObservation, ended: Option<Terminal>)        // it is an attempt, and may have ended the hop

  /** What an admissible answer leads to, once the contexts have been looked at. */
  function Judged(env: Env, now: nat, o: WebObservation): Tried {
    var v := env.world.contexts.Look(now);
    Took(o, if v != GoesOn then Some(TerminalOf(v))
            else if o.outcome.Cancelled? then Some(CANCELLED.(detail := NoText)) else None)
  }

  /** What is true of one attempt to dial `ip`. */
  predicate TriedOk(env: Env, hops: seq<Hop>, hop: Hop, ip: string, result: Tried, log: Log, now: nat) {
    match result
    case TurnedAway =>
      TrueEnd(env, StopInvalidProbeEvidence, log, EvidenceWith(hops, hop), Some(FetchOf(hop.url, ip)), now)
    case Took(o, Some(t)) =>
      && AttemptMatches(env.rules, env.platform, hop.url, ip, o) && Interrupts(t)
      && TrueEnd(env, t.reason, log, EvidenceWith(hops, WithAttempt(hop, o)), None, now)
    case Took(o, None) =>
      && AttemptMatches(env.rules, env.platform, hop.url, ip, o) && !o.outcome.Cancelled?
      && Current(env, log, EvidenceWith(hops, WithAttempt(hop, o)), now)
  }

  lemma JudgedOk(env: Env, hops: seq<Hop>, hop: Hop, ip: string, o: WebObservation, log: Log, x: Call<Question, Answer>)
    requires Kept(env.Probe(), log, EvidenceWith(hops, hop), x.at) && Genuine(env.Probe(), x, x.at + 1)
    requires x.question == FetchOf(hop.url, ip) && x.answer == Fetched(o) && !Refused(env, x)
    ensures TriedOk(env, hops, hop, ip, Judged(env, x.at + 1, o), log + [x], x.at + 1 + READS)
  {
    var evidence, now := EvidenceWith(hops, hop), x.at + 1 + READS;
    EvidenceGrows(hops, hop, o);
    AnswerIsKept(env, log, evidence, None, x);
    if env.world.contexts.Look(x.at + 1) == GoesOn && o.outcome.Cancelled? {
      EndsCancelled(env, log + [x], evidence + [x.answer], None, now);
    }
  }

  /** The attempt is what the Web observer answered to the dial of `ip`, if that answer matches; else it is refused. */
  predicate AnswersDial(env: Env, start: nat, url: Url, ip: string, result: Tried) {
    var o := env.world.web(start, WebRequest(url.scheme, url.hostname, ip, url.path, url.query));
    if AttemptMatches(env.rules, env.platform, url, ip, o) then result.Took? && result.o == o else result.TurnedAway?
  }

  lemma RefusedOk(env: Env, hops: seq<Hop>, hop: Hop, ip: string, log: Log, x: Call<Question, Answer>)
    requires Kept(env.Probe(), log, EvidenceWith(hops, hop), x.at) && Genuine(env.Probe(), x, x.at + 1)
    requires x.question == FetchOf(hop.url, ip) && Refused(env, x)
    ensures TriedOk(env, hops, hop, ip, TurnedAway, log + [x], x.at + 1)
  {
    EndsRefused(env, log, EvidenceWith(hops, hop), x);
  }

  predicate RefusesDial(env: Env, url: Url, ip: string, o: WebObservation) {
    !o.Valid(env.rules) || o.platform != env.platform || o.request != DialOf(url, ip)
  }

  /** The answer to a dial, as `observeHop` takes it: turned away, or an attempt. */
  function Dialling(env: Env, start: nat, url: Url, ip: string): Tried {
    var o := env.world.web(start, DialOf(url, ip));
    if RefusesDial(env, url, ip, o) then TurnedAway else Judged(env, start + 1, o)
  }

  /** The moment after it. */
  function DialledAt(env: Env, start: nat, url: Url, ip: string): nat {
    if RefusesDial(env, url, ip, env.world.web(start, DialOf(url, ip))) then start + 1 else start + 1 + READS
  }

  function DialOf(url: Url, ip: string): WebRequest {
    WebRequest(url.scheme, url.hostname, ip, url.path, url.query)
  }

  lemma TurnedAwayOk(env: Env, hops: seq<Hop>, hop: Hop, ip: string, log: Log, x: Call<Question, Answer>)
    requires Kept(env.Probe(), log, EvidenceWith(hops, hop), x.at) && GoneOn(env.world.contexts, x.at)
    requires x == DialCall(env, x.at, hop.url, ip)
    requires RefusesDial(env, hop.url, ip, x.answer.observation)
    ensures TriedOk(
      env, hops, hop, ip, Dialling(env, x.at, hop.url, ip), log + [x], DialledAt(env, x.at, hop.url, ip))
  {
    assert Genuine(env.Probe(), x, x.at + 1);
    RefusedOk(env, hops, hop, ip, log, x);
  }

  lemma TakenOk(env: Env, hops: seq<Hop>, hop: Hop, ip: string, log: Log, x: Call<Question, Answer>)
    requires Kept(env.Probe(), log, EvidenceWith(hops, hop), x.at) && GoneOn(env.world.contexts, x.at)
    requires x == DialCall(env, x.at, hop.url, ip)
    requires !RefusesDial(env, hop.url, ip, x.answer.observation)
    ensures TriedOk(
      env, hops, hop, ip, Dialling(env, x.at, hop.url, ip), log + [x], DialledAt(env, x.at, hop.url, ip))
  {
    assert Genuine(env.Probe(), x, x.at + 1);
    JudgedOk(env, hops, hop, ip, x.answer.observation, log, x);
  }

  lemma DiallingOk(env: Env, hops: seq<Hop>, hop: Hop, ip: string, log: Log, x: Call<Question, Answer>)
    requires Kept(env.Probe(), log, EvidenceWith(hops, hop), x.at) && GoneOn(env.world.contexts, x.at)
    requires x == DialCall(env, x.at, hop.url, ip)
    ensures TriedOk(
      env, hops, hop, ip, Dialling(env, x.at, hop.url, ip), log + [x], DialledAt(env, x.at, hop.url, ip))
  {
    if RefusesDial(env, hop.url, ip, x.answer.observation) {
      TurnedAwayOk(env, hops, hop, ip, log, x);
    } else {
      TakenOk(env, hops, hop, ip, log, x);
    }
  }

  lemma DiallingAnswers(env: Env, start: nat, url: Url, ip: string)
    ensures AnswersDial(env, start, url, ip, Dialling(env, start, url, ip))
  {
  }

  function DialCall(env: Env, start: nat, url: Url, ip: string): Call<Question, Answer> {
    Call(start, FetchOf(url, ip), Fetched(env.world.web(start, DialOf(url, ip))))
  }

  /** One attempt: dial, check the answer, look at the contexts. */
  method Attempt(env: Env, start: nat, url: Url, ip: string, ghost log: Log)
      returns (result: Tried, now: nat, ghost log': Log)
    ensures AnswersDial(env, start, url, ip, result)
    ensures result == Dialling(env, start, url, ip) && now == DialledAt(env, start, url, ip)
    ensures log' == log + [DialCall(env, start, url, ip)]
  {
    DiallingAnswers(env, start, url, ip);
    var request := DialOf(url, ip);
    var o := env.world.web(start, request);
    now, log' := start + 1, log + [Call(start, Fetch(request), Fetched(o))];
    if !o.Valid(env.rules) || o.platform != env.platform || o.request != request { return TurnedAway, now, log'; }
    result := Judged(env, now, o);
    now := now + READS;
  }

  // ---------- The candidates of one hop ----------

  /** The hop so far: all its candidates up to now were dialled in order, and failed. */
  predicate Trying(env: Env, url: Url, hop: Hop, candidates: seq<string>) {
    && hop.url == url && HopOk(env.policy, env.rules, env.platform, hop)
    && candidates == HopCandidates(env.policy, env.rules, hop)
    && forall k :: 0 <= k < |hop.attempts| ==> hop.attempts[k].outcome.Failed?
  }

  lemma AttemptKeepsHop(env: Env, url: Url, hop: Hop, candidates: seq<string>, o: WebObservation)
    requires Trying(env, url, hop, candidates) && |hop.attempts| < |candidates|
    requires AttemptMatches(env.rules, env.platform, url, candidates[|hop.attempts|], o)
    ensures HopOk(env.policy, env.rules, env.platform, WithAttempt(hop, o))
    ensures o.outcome.Failed? ==> Trying(env, url, WithAttempt(hop, o), candidates)
  {
  }

  /** What one attempt leads to: the next one, or the end of the hop. */
  function AfterAttempt(hop: Hop, result: Tried): Option<HopResult> {
    match result
    case TurnedAway => Some(HopEnded(Some(hop), Stopped(StopInvalidProbeEvidence)))
    case Took(o, Some(t)) => Some(HopEnded(Some(WithAttempt(hop, o)), t))
    case Took(o, None) => if o.outcome.Succeeded? then Some(Responded(WithAttempt(hop, o))) else None
  }

  lemma AfterAttemptOk(
    env: Env, url: Url, hops: seq<Hop>, hop: Hop, candidates: seq<string>, result: Tried, log: Log, now: nat)
    requires Trying(env, url, hop, candidates) && |hop.attempts| < |candidates|
    requires TriedOk(env, hops, hop, candidates[|hop.attempts|], result, log, now)
    ensures match AfterAttempt(hop, result)
      case Some(end) => HopResultOk(env, url, end) && HopTrue(env, url, hops, end, log, now)
      case None =>
        && result.Took? && Trying(env, url, WithAttempt(hop, result.o), candidates)
        && Current(env, log, EvidenceWith(hops, WithAttempt(hop, result.o)), now)
  {
    match result
    case TurnedAway =>
      assert !Succeeds(hop);
    case Took(o, ended) =>
      AttemptKeepsHop(env, url, hop, candidates, o);
      if ended.Some? {
        AnyNext(env, ended.value.reason, log, EvidenceWith(hops, WithAttempt(hop, o)),
                if Succeeds(WithAttempt(hop, o)) then None else NextFetch(env, WithAttempt(hop, o)), now);
      }
  }

  /** The candidate loop of `observeHop`. */
  method TryCandidates(env: Env, start: nat, hop: Hop, ghost hops: seq<Hop>, ghost log: Log)
      returns (result: HopResult, now: nat, ghost log': Log)
    requires Trying(env, hop.url, hop, HopCandidates(env.policy, env.rules, hop)) && hop.attempts == []
    requires hop.resolution.outcome.Succeeded? && HopCandidates(env.policy, env.rules, hop) != []
    requires Current(env, log, EvidenceWith(hops, hop), start)
    ensures Extends(log, log')
    ensures HopResultOk(env, hop.url, result)
    ensures HopTrue(env, hop.url, hops, result, log', now)
  {
    var candidates := SelectPublicCandidates(env.rules, env.policy.candidateLimit, hop.resolution.addresses);
    var url, sofar := hop.url, hop;
    now, log' := start, log;
    assert log[..|log|] == log;
    for i := 0 to |candidates|
      invariant Trying(env, url, sofar, candidates) && |sofar.attempts| == i
      invariant Current(env, log', EvidenceWith(hops, sofar), now) && Extends(log, log')
    {
      ghost var before := log';
      var tried;
      DiallingOk(env, hops, sofar, candidates[i], before, DialCall(env, now, url, candidates[i]));
      ExtendsByOne(before, DialCall(env, now, url, candidates[i]));
      tried, now, log' := Attempt(env, now, url, candidates[i], log');
      ExtendsFurther(log, before, log');
      AfterAttemptOk(env, url, hops, sofar, candidates, tried, log', now);
      var end := AfterAttempt(sofar, tried);
      if end.Some? { return end.value, now, log'; }
      sofar := WithAttempt(sofar, tried.o);
    }
    result := HopEnded(Some(sofar), Stopped(StopAllCandidatesFailed));
    CandidatesAreExhausted(env, url, hops, sofar, candidates, log', now);
  }

  lemma CandidatesAreExhausted(
    env: Env, url: Url, hops: seq<Hop>, hop: Hop, candidates: seq<string>, log: Log, now: nat)
    requires Trying(env, url, hop, candidates) && |hop.attempts| == |candidates| > 0
    requires Current(env, log, EvidenceWith(hops, hop), now)
    ensures var end := HopEnded(Some(hop), Stopped(StopAllCandidatesFailed));
      HopResultOk(env, url, end) && HopTrue(env, url, hops, end, log, now)
  {
  }

  // ---------- The whole hop ----------

  /** Why a resolution leaves nothing to try. */
  function ResolutionEnd(env: Env, hop: Hop): Option<Terminal> {
    if hop.resolution.outcome.Cancelled? then Some(CANCELLED.(detail := NoText))
    else if !hop.resolution.outcome.Succeeded? then Some(Stopped(StopResolutionFailed))
    else if HopCandidates(env.policy, env.rules, hop) == [] then Some(Stopped(StopNoPublicCandidates))
    else None
  }

  /** What the answer of the resolver, and the look after it, lead to. */
  function AfterResolution(env: Env, now: nat, hop: Hop): Option<HopResult> {
    var v := env.world.contexts.Look(now);
    if v != GoesOn then Some(HopEnded(Some(hop), TerminalOf(v)))
    else
      match ResolutionEnd(env, hop)
      case Some(t) => Some(HopEnded(Some(hop), t))
      case None => None
  }

  /** Once the hostname is resolved the hop has ended, or there are candidates to try. */
  predicate ResolvedOk(env: Env, url: Url, ended: Option<HopResult>, hop: Hop) {
    match ended
    case Some(result) => HopResultOk(env, url, result)
    case None =>
      && hop.url == url && hop.attempts == [] && hop.resolution.outcome.Succeeded?
      && HopOk(env.policy, env.rules, env.platform, hop) && HopCandidates(env.policy, env.rules, hop) != []
  }

  /** What the log then says. */
  predicate ResolvedTrue(
    env: Env, url: Url, hops: seq<Hop>, ended: Option<HopResult>, hop: Hop, log: Log, now: nat)
  {
    match ended
    case Some(result) => HopTrue(env, url, hops, result, log, now)
    case None => Current(env, log, EvidenceWith(hops, hop), now)
  }

  lemma UntriedHopIsOk(env: Env, hop: Hop)
    requires env.rules.CanonicalUrl(hop.url) && hop.attempts == []
    requires !RefusesResolution(env, hop)
    ensures HopOk(env.policy, env.rules, env.platform, hop)
  {
  }

  lemma AfterResolutionIsTrue(env: Env, hops: seq<Hop>, hop: Hop, log: Log, x: Call<Question, Answer>)
    requires Kept(env.Probe(), log, TrailAnswers(hops), x.at) && Genuine(env.Probe(), x, x.at + 1)
    requires x.question == Resolve(hop.url.hostname) && x.answer == Resolved(hop.resolution) && !Refused(env, x)
    requires hop.attempts == []
    ensures ResolvedTrue(
      env, hop.url, hops, AfterResolution(env, x.at + 1, hop), hop, log + [x], x.at + 1 + READS)
  {
    EvidenceStarts(hops, hop.url, hop.resolution);
    AnswerIsKept(env, log, TrailAnswers(hops), NextFetch(env, hop), x);
    if env.world.contexts.Look(x.at + 1) == GoesOn && hop.resolution.outcome.Cancelled? {
      EndsCancelled(env, log + [x], TrailAnswers(hops) + [x.answer], NextFetch(env, hop), x.at + 1 + READS);
    }
  }

  predicate RefusesResolution(env: Env, hop: Hop) {
    || !hop.resolution.Valid() || hop.resolution.platform != env.platform
    || hop.resolution.hostname != hop.url.hostname
  }

  /** The answer to the resolution, as `observeHop` takes it: refused, the end of the hop, or candidates to try. */
  function Resolving(env: Env, now: nat, hop: Hop): Option<HopResult> {
    if RefusesResolution(env, hop) then Some(HopEnded(None, Stopped(StopInvalidProbeEvidence)))
    else AfterResolution(env, now + 1, hop)
  }

  /** The moment after it. */
  function ResolvedAt(env: Env, now: nat, hop: Hop): nat {
    if RefusesResolution(env, hop) then now + 1 else now + 1 + READS
  }

  lemma ResolvingOk(env: Env, now: nat, hop: Hop)
    requires env.rules.CanonicalUrl(hop.url) && hop.attempts == []
    ensures ResolvedOk(env, hop.url, Resolving(env, now, hop), hop)
  {
    if !RefusesResolution(env, hop) {
      UntriedHopIsOk(env, hop);
    }
  }

  lemma RefusedResolutionIsTrue(env: Env, hops: seq<Hop>, hop: Hop, log: Log, x: Call<Question, Answer>)
    requires Kept(env.Probe(), log, TrailAnswers(hops), x.at) && Genuine(env.Probe(), x, x.at + 1)
    requires x.question == Resolve(hop.url.hostname) && Refused(env, x)
    ensures HopTrue(
      env, hop.url, hops, HopEnded(None, Stopped(StopInvalidProbeEvidence)), log + [x], x.at + 1)
  {
    EndsRefused(env, log, TrailAnswers(hops), x);
  }

  lemma ResolvingIsTrue(env: Env, hops: seq<Hop>, hop: Hop, log: Log, x: Call<Question, Answer>)
    requires Kept(env.Probe(), log, TrailAnswers(hops), x.at) && Genuine(env.Probe(), x, x.at + 1)
    requires x.question == Resolve(hop.url.hostname) && x.answer == Resolved(hop.resolution) && hop.attempts == []
    ensures ResolvedTrue(
      env, hop.url, hops, Resolving(env, x.at, hop), hop, log + [x], ResolvedAt(env, x.at, hop))
  {
    if RefusesResolution(env, hop) {
      assert Resolving(env, x.at, hop) == Some(HopEnded(None, Stopped(StopInvalidProbeEvidence)));
      RefusedResolutionIsTrue(env, hops, hop, log, x);
    } else {
      assert Resolving(env, x.at, hop) == AfterResolution(env, x.at + 1, hop);
      AfterResolutionIsTrue(env, hops, hop, log, x);
    }
  }

  /** A resolution that ends the hop. */
  lemma ResolutionEnds(
    env: Env, url: Url, hops: seq<Hop>, hop: Hop, end: HopResult, log: Log, now: nat)
    requires ResolvedOk(env, url, Some(end), hop) && ResolvedTrue(env, url, hops, Some(end), hop, log, now)
    ensures HopResultOk(env, url, end) && HopTrue(env, url, hops, end, log, now)
  {
  }

  lemma NotResolvedOk(env: Env, url: Url, hops: seq<Hop>, log: Log, now: nat)
    requires Kept(env.Probe(), log, TrailAnswers(hops), now) && env.world.contexts.Look(now) != GoesOn
    ensures var end := HopEnded(None, TerminalOf(env.world.contexts.Look(now)));
      HopResultOk(env, url, end) && HopTrue(env, url, hops, end, log, now + READS)
  {
    EndsBefore(env, log, TrailAnswers(hops), url.hostname, now);
  }

  /** `observeHop`: resolve, select, and try the candidates in order. */
  method ObserveHop(env: Env, start: nat, url: Url, ghost hops: seq<Hop>, ghost log: Log)
      returns (result: HopResult, now: nat, ghost log': Log)
    requires env.rules.CanonicalUrl(url) && Kept(env.Probe(), log, TrailAnswers(hops), start)
    ensures Extends(log, log')
    ensures HopResultOk(env, url, result)
    ensures HopTrue(env, url, hops, result, log', now)
  {
    assert log[..|log|] == log;
    var v := env.world.contexts.Look(start);
    if v != GoesOn {
      NotResolvedOk(env, url, hops, log, start);
      return HopEnded(None, TerminalOf(v)), start + READS, log;
    }
    KeptLater(env.Probe(), log, TrailAnswers(hops), start, start + READS);
    var hop := Hop(url, env.world.resolver(start + READS, url.hostname), []);
    ghost var x := Call(start + READS, Resolve(url.hostname), Resolved(hop.resolution));
    ResolvingOk(env, start + READS, hop);
    ResolvingIsTrue(env, hops, hop, log, x);
    ExtendsByOne(log, x);
    var ended, moment := Resolving(env, start + READS, hop), ResolvedAt(env, start + READS, hop);
    if ended.Some? {
      ResolutionEnds(env, url, hops, hop, ended.value, log + [x], moment);
      return ended.value, moment, log + [x];
    }
    result, now, log' := TryCandidates(env, moment, hop, hops, log + [x]);
    ExtendsFurther(log, log + [x], log');
  }
}
