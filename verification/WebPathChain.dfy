/** Why every end of a redirect chain yields a report the validator accepts. */
module WebPathChain {
  import opened Basics
  import opened ContextReads
  import opened CallLog
  import opened WebPath
  import opened WebPathWorld
  import opened WebPathHops

  // ---------- The states of the chain ----------

  /** Some hop of the chain in progress has this URL. */
  predicate RecordedUrl(t: Trail, u: Url) {
    exists i :: ChainStart(t) <= i < |t.hops| && t.hops[i].url == u
  }

  /** The chain has seen the URLs of its recorded hops, and the next one, which is new. */
  ghost predicate SeenOk(t: Trail, current: Url, seen: set<Url>) {
    && !RecordedUrl(t, current)
    && forall u :: u in seen <==> u == current || RecordedUrl(t, u)
  }

  /** No URL occurs twice in the chain in progress. */
  predicate HopsDiffer(t: Trail) {
    forall i, j :: ChainStart(t) <= i < j < |t.hops| ==> t.hops[i].url != t.hops[j].url
  }

  predicate TrailIn(env: Env, t: Trail) {
    t.platform == env.platform && TrailOk(env.policy, env.rules, t)
  }

  /** The state at the head of the chain loop. */
  ghost predicate AtChainHead(env: Env, t: Trail, current: Url, seen: set<Url>, pending: bool) {
    && TrailIn(env, t) && env.rules.CanonicalUrl(current) && SeenOk(t, current, seen) && HopsDiffer(t)
    && ChainStart(t) <= |t.hops|
    && (if |t.hops| == ChainStart(t) then
          && !pending
          && current == (if t.fallbackUsed then FallbackUrl(t.input.initialUrl) else t.input.initialUrl)
        else
          && pending && RedirectsTo(env.rules, t.hops[|t.hops| - 1], current)
          && t.redirectsFollowed < env.policy.redirectLimit)
  }

  function ReportOf(t: Trail, end: Terminal): Report { Report(t, end.status, end.reason, end.detail) }

  /** The redirect leads back to a hop of the chain in progress. */
  predicate LeadsBack(env: Env, t: Trail, hop: Hop) {
    exists i :: ChainStart(t) <= i < |t.hops| && RedirectsTo(env.rules, hop, t.hops[i].url)
  }

  /** A response ends an uninterrupted path for exactly one reason: it is final, or one redirect too many, or its
      target is unavailable, invalid, unsafe, or one that this chain has visited. */
  predicate ResponseDecides(env: Env, t: Trail, reason: StopReason) {
    t.hops != [] && Succeeds(t.hops[|t.hops| - 1]) &&
    reason != StopCancelled && reason != StopPathTimeout && reason != StopInvalidProbeEvidence ==>
      var last := t.hops[|t.hops| - 1];
      var redirects := IsRedirectStatus(Response(last).statusCode);
      var more := redirects && t.redirectsFollowed < env.policy.redirectLimit;
      && (reason == StopFinalResponse <==> !redirects)
      && (reason == StopRedirectLimit <==> redirects && t.redirectsFollowed == env.policy.redirectLimit)
      && (reason == StopRedirectLocationUnavailable <==> more && RedirectsWith(env.rules, last, Unavailable))
      && (reason == StopRedirectTargetInvalid <==> more && RedirectsWith(env.rules, last, InvalidTarget))
      && (reason == StopRedirectTargetUnsafe <==> more && RedirectsWith(env.rules, last, UnsafeTarget))
      && (reason == StopRedirectLoop <==> more && LeadsBack(env, t, last))
  }

  /** A report whose last hop shows why it stopped, or which was interrupted. */
  predicate StopShown(env: Env, t: Trail, end: Terminal) {
    var r := ReportOf(t, end);
    && TrailIn(env, t)
    && r.reason != StopInvalidInput && TerminalPair(r.status, r.reason)
    && (r.status == StatusCompleted ==> r.detail == NoText)
    && TerminalEvidenceOk(env.policy, env.rules, r)
    && HopsDiffer(t) && ResponseDecides(env, t, end.reason)
    && (t.fallbackUsed && |t.hops| < 2 ==> Interrupted(r))
  }

  lemma StopShownIsValid(env: Env, t: Trail, end: Terminal)
    requires StopShown(env, t, end) && env.rules.check(t.input.hostname)
    requires t.input == NormalizeInput(env.policy, env.rules, t.input.hostname)
    ensures ValidReport(env.policy, env.rules, ReportOf(t, end))
  {
  }

  function Recorded(t: Trail, hop: Hop, pending: bool): Trail {
    t.(hops := t.hops + [hop], redirectsFollowed := t.redirectsFollowed + if pending then 1 else 0)
  }

  /** The hop of the current URL follows the recorded ones, and those still follow one another. */
  lemma TransitionRecorded(env: Env, t: Trail, current: Url, seen: set<Url>, pending: bool, hop: Hop, i: nat)
    requires AtChainHead(env, t, current, seen, pending) && hop.url == current && 0 < i <= |t.hops|
    ensures TransitionOk(env.rules, Recorded(t, hop, pending), i)
  {
    var t' := Recorded(t, hop, pending);
    assert t'.hops[i - 1] == t.hops[i - 1];
    if i < |t.hops| {
      assert TransitionOk(env.rules, t, i) && t'.hops[i] == t.hops[i];
    } else {
      assert t'.hops[i] == hop;
    }
  }

  /** Its redirect is counted if one led to it. */
  lemma RedirectCounted(env: Env, t: Trail, current: Url, seen: set<Url>, pending: bool, hop: Hop)
    requires AtChainHead(env, t, current, seen, pending)
    ensures var t' := Recorded(t, hop, pending);
      0 <= t'.redirectsFollowed <= env.policy.redirectLimit && t'.redirectsFollowed == RedirectTransitions(t')
  {
  }

  /** The current URL is none of those recorded before. */
  lemma StillDiffer(t: Trail, current: Url, seen: set<Url>, pending: bool, hop: Hop)
    requires SeenOk(t, current, seen) && HopsDiffer(t) && hop.url == current
    ensures HopsDiffer(Recorded(t, hop, pending))
  {
    var t' := Recorded(t, hop, pending);
    forall i, j | ChainStart(t') <= i < j < |t'.hops| ensures t'.hops[i].url != t'.hops[j].url {
      assert j == |t.hops| ==> t.hops[i].url != current;
    }
  }

  /** Recording the hop of the current URL keeps the trail valid. */
  lemma HopRecorded(env: Env, t: Trail, current: Url, seen: set<Url>, pending: bool, hop: Hop)
    requires AtChainHead(env, t, current, seen, pending)
    requires HopOk(env.policy, env.rules, env.platform, hop) && hop.url == current
    ensures TrailIn(env, Recorded(t, hop, pending)) && HopsDiffer(Recorded(t, hop, pending))
  {
    var t' := Recorded(t, hop, pending);
    StillDiffer(t, current, seen, pending, hop);
    RedirectCounted(env, t, current, seen, pending, hop);
    forall i | 0 < i < |t'.hops| ensures TransitionOk(env.rules, t', i) {
      TransitionRecorded(env, t, current, seen, pending, hop, i);
    }
    assert t'.hops[0] == if t.hops == [] then hop else t.hops[0];
  }

  /** Once the current URL is recorded, the chain has seen exactly the URLs of its hops. */
  ghost predicate AllSeenRecorded(t: Trail, seen: set<Url>) {
    forall u :: u in seen <==> RecordedUrl(t, u)
  }

  lemma SeenRecorded(t: Trail, current: Url, seen: set<Url>, pending: bool, hop: Hop)
    requires SeenOk(t, current, seen) && hop.url == current && ChainStart(t) <= |t.hops|
    ensures AllSeenRecorded(Recorded(t, hop, pending), seen)
  {
    var t' := Recorded(t, hop, pending);
    forall u ensures RecordedUrl(t', u) <==> u == current || RecordedUrl(t, u) {
      assert t'.hops[|t.hops|].url == current;
      if i :| ChainStart(t) <= i < |t.hops| && t.hops[i].url == u {
        assert t'.hops[i].url == u;
      }
      if i :| ChainStart(t') <= i < |t'.hops| && t'.hops[i].url == u {
        assert i < |t.hops| ==> t.hops[i].url == u;
      }
    }
  }

  // ---------- What a response leads to ----------

  /** The end of the chain, or the URL its last response leads to. */
  datatype Decision = Stops(terminal: Terminal) | Follows(next: Url)

  /** What `observeChain` does with a response. */
  function Decide(env: Env, redirectsFollowed: int, seen: set<Url>, hop: Hop): Decision
    requires Succeeds(hop)
  {
    var response := Response(hop);
    if !IsRedirectStatus(response.statusCode) then Stops(FINAL_RESPONSE)
    else if redirectsFollowed >= env.policy.redirectLimit then Stops(Stopped(StopRedirectLimit))
    else
      match RedirectTarget(env.rules, hop.url, response)
      case Unavailable => Stops(Stopped(StopRedirectLocationUnavailable))
      case InvalidTarget => Stops(Stopped(StopRedirectTargetInvalid))
      case UnsafeTarget => Stops(Stopped(StopRedirectTargetUnsafe))
      case Target(next) => if next in seen then Stops(Stopped(StopRedirectLoop)) else Follows(next)
  }

  /** The last response shows why the chain stops. */
  lemma DecisionIsEvident(env: Env, t: Trail, seen: set<Url>, end: Terminal)
    requires t.hops != [] && Succeeds(t.hops[|t.hops| - 1])
    requires AllSeenRecorded(t, seen) && 0 <= t.redirectsFollowed <= env.policy.redirectLimit
    requires Decide(env, t.redirectsFollowed, seen, t.hops[|t.hops| - 1]) == Stops(end)
    ensures TerminalEvidenceOk(env.policy, env.rules, ReportOf(t, end))
  {
    var last := t.hops[|t.hops| - 1];
    if end.reason == StopRedirectLoop {
      var next := RedirectTarget(env.rules, last.url, Response(last)).url;
      assert RecordedUrl(t, next);
      var i :| ChainStart(t) <= i < |t.hops| && t.hops[i].url == next;
      assert RedirectsTo(env.rules, last, t.hops[i].url);
    }
  }

  /** A redirect leads back exactly if its target has been seen. */
  lemma LeadsBackToSeen(env: Env, t: Trail, seen: set<Url>, hop: Hop, next: Url)
    requires AllSeenRecorded(t, seen) && RedirectsTo(env.rules, hop, next)
    ensures LeadsBack(env, t, hop) <==> next in seen
  {
    if RecordedUrl(t, next) {
      var i :| ChainStart(t) <= i < |t.hops| && t.hops[i].url == next;
      assert RedirectsTo(env.rules, hop, t.hops[i].url);
    }
    if i :| ChainStart(t) <= i < |t.hops| && RedirectsTo(env.rules, hop, t.hops[i].url) {
      assert t.hops[i].url == next;
    }
  }

  /** The chain stops for the one reason that its last response gives. */
  lemma DecisionIsExact(env: Env, t: Trail, seen: set<Url>, end: Terminal)
    requires t.hops != [] && Succeeds(t.hops[|t.hops| - 1])
    requires AllSeenRecorded(t, seen) && 0 <= t.redirectsFollowed <= env.policy.redirectLimit
    requires Decide(env, t.redirectsFollowed, seen, t.hops[|t.hops| - 1]) == Stops(end)
    ensures ResponseDecides(env, t, end.reason)
  {
    var last := t.hops[|t.hops| - 1];
    if IsRedirectStatus(Response(last).statusCode) {
      match RedirectTarget(env.rules, last.url, Response(last))
      case Target(next) => LeadsBackToSeen(env, t, seen, last, next);
      case _ => OnlyTargetsLeadBack(env, t, last);
    }
  }

  lemma OnlyTargetsLeadBack(env: Env, t: Trail, hop: Hop)
    requires Succeeds(hop) && !RedirectTarget(env.rules, hop.url, Response(hop)).Target?
    ensures !LeadsBack(env, t, hop)
  {
  }

  lemma DecisionIsShown(env: Env, t: Trail, seen: set<Url>, end: Terminal)
    requires env.rules.Valid() && TrailIn(env, t) && HopsDiffer(t)
    requires ChainStart(t) < |t.hops| && Succeeds(t.hops[|t.hops| - 1]) && AllSeenRecorded(t, seen)
    requires Decide(env, t.redirectsFollowed, seen, t.hops[|t.hops| - 1]) == Stops(end)
    ensures StopShown(env, t, end)
  {
    DecisionIsEvident(env, t, seen, end);
    DecisionIsExact(env, t, seen, end);
  }

  lemma FollowedRedirects(env: Env, redirectsFollowed: int, seen: set<Url>, hop: Hop, next: Url)
    requires env.rules.Valid() && Succeeds(hop) && Decide(env, redirectsFollowed, seen, hop) == Follows(next)
    ensures RedirectsTo(env.rules, hop, next) && env.rules.CanonicalUrl(next)
    ensures redirectsFollowed < env.policy.redirectLimit && next !in seen
  {
  }

  lemma FollowedIsHead(env: Env, t: Trail, seen: set<Url>, next: Url)
    requires env.rules.Valid() && TrailIn(env, t) && HopsDiffer(t) && ChainStart(t) < |t.hops|
    requires Succeeds(t.hops[|t.hops| - 1]) && AllSeenRecorded(t, seen)
    requires Decide(env, t.redirectsFollowed, seen, t.hops[|t.hops| - 1]) == Follows(next)
    ensures AtChainHead(env, t, next, seen + {next}, true) && next !in seen
  {
    FollowedRedirects(env, t.redirectsFollowed, seen, t.hops[|t.hops| - 1], next);
    assert !RecordedUrl(t, next);
    assert SeenOk(t, next, seen + {next});
  }

  // ---------- What a hop without a response leads to ----------

  lemma HopEndIsEvident(env: Env, t: Trail, end: Terminal)
    requires t.hops != [] && HopEndOk(env, t.hops[|t.hops| - 1], end)
    ensures TerminalEvidenceOk(env.policy, env.rules, ReportOf(t, end))
  {
  }

  /** A hop that ended without a response shows why the whole path stops. */
  lemma HopEndIsShown(env: Env, t: Trail, end: Terminal)
    requires TrailIn(env, t) && HopsDiffer(t) && ChainStart(t) < |t.hops| && HopEndOk(env, t.hops[|t.hops| - 1], end)
    ensures StopShown(env, t, end)
  {
    HopEndIsEvident(env, t, end);
  }

  lemma InterruptionIsShown(env: Env, t: Trail, end: Terminal)
    requires TrailIn(env, t) && HopsDiffer(t) && Interrupts(end)
    ensures StopShown(env, t, end)
  {
  }

  /** Once the first HTTPS hop is exhausted, the HTTP chain may begin. */
  lemma FallbackIsHead(env: Env, t: Trail, end: Terminal)
    requires StopShown(env, t, end) && end.reason == StopAllCandidatesFailed
    requires !t.fallbackUsed && |t.hops| <= 1 && env.rules.CanonicalUrl(t.input.initialUrl)
    ensures var fallback := FallbackUrl(t.input.initialUrl);
      AtChainHead(env, t.(fallbackUsed := true), fallback, {fallback}, false)
  {
  }

  // ---------- One turn of the loop ----------

  /** The trail after a turn. */
  function After(t: Trail, result: HopResult, pending: bool): Trail {
    match HopOf(result)
    case Some(hop) => Recorded(t, hop, pending)
    case None => t
  }

  /** What a turn leads to. */
  function TurnDecision(env: Env, t: Trail, seen: set<Url>, pending: bool, result: HopResult): Decision
    requires result.Responded? ==> Succeeds(result.hop)
  {
    match result
    case Responded(hop) => Decide(env, After(t, result, pending).redirectsFollowed, seen, hop)
    case HopEnded(_, end) => Stops(end)
  }

  /** The trail after the turn is in order, and shows why the chain stops or goes on. */
  lemma TurnIsInOrder(env: Env, t: Trail, current: Url, seen: set<Url>, pending: bool, result: HopResult)
    requires env.rules.Valid() && AtChainHead(env, t, current, seen, pending) && HopResultOk(env, current, result)
    ensures match TurnDecision(env, t, seen, pending, result)
      case Stops(end) => StopShown(env, After(t, result, pending), end)
      case Follows(next) =>
        next !in seen && AtChainHead(env, After(t, result, pending), next, seen + {next}, true)
  {
    match result
    case HopEnded(None, end) => InterruptionIsShown(env, t, end);
    case HopEnded(Some(hop), end) =>
      HopRecorded(env, t, current, seen, pending, hop);
      HopEndIsShown(env, Recorded(t, hop, pending), end);
    case Responded(hop) => ResponseIsInOrder(env, t, current, seen, pending, hop);
  }

  lemma ResponseIsInOrder(env: Env, t: Trail, current: Url, seen: set<Url>, pending: bool, hop: Hop)
    requires env.rules.Valid() && AtChainHead(env, t, current, seen, pending)
    requires HopOk(env.policy, env.rules, env.platform, hop) && hop.url == current && Succeeds(hop)
    ensures var after := Recorded(t, hop, pending);
      match Decide(env, after.redirectsFollowed, seen, hop)
      case Stops(end) => StopShown(env, after, end)
      case Follows(next) => next !in seen && AtChainHead(env, after, next, seen + {next}, true)
  {
    var after := Recorded(t, hop, pending);
    HopRecorded(env, t, current, seen, pending, hop);
    SeenRecorded(t, current, seen, pending, hop);
    match Decide(env, after.redirectsFollowed, seen, hop)
    case Stops(end) => DecisionIsShown(env, after, seen, end);
    case Follows(next) => FollowedIsHead(env, after, seen, next);
  }

  /** How a turn changes the trail's numbers. */
  lemma TurnCounts(env: Env, t: Trail, current: Url, seen: set<Url>, pending: bool, result: HopResult)
    requires AtChainHead(env, t, current, seen, pending) && HopResultOk(env, current, result)
    ensures var after, d := After(t, result, pending), TurnDecision(env, t, seen, pending, result);
      && |after.hops| <= |t.hops| + 1
      && (d.Follows? ==>
            && result.Responded?
            && after.redirectsFollowed == t.redirectsFollowed + (if pending then 1 else 0))
      && (d.Stops? && d.terminal.reason == StopAllCandidatesFailed ==>
            !result.Responded? && |after.hops| == |t.hops| + 1)
  {
  }

  /** What the log says of the end of a chain. */
  predicate ChainTrue(env: Env, t: Trail, reason: StopReason, log: Log, now: nat) {
    TrueEnd(env, reason, log, TrailAnswers(t.hops), NextQuestion(env, t), now)
  }

  /** The question a hop is about to ask is the one the trail leads to. */
  lemma HeadLeadsToCurrent(env: Env, t: Trail, current: Url, seen: set<Url>, pending: bool)
    requires AtChainHead(env, t, current, seen, pending)
    ensures NextQuestion(env, t) == Some(Resolve(current.hostname))
  {
  }

  /** A hop without a response leads to its next candidate. */
  lemma HopLeadsToFetch(env: Env, t: Trail, pending: bool, hop: Hop)
    requires ChainStart(t) <= |t.hops| && !Succeeds(hop)
    ensures NextQuestion(env, Recorded(t, hop, pending)) == NextFetch(env, hop)
  {
  }

  lemma EndedHopIsTrue(env: Env, t: Trail, url: Url, pending: bool, hop: Hop, end: Terminal, log: Log, now: nat)
    requires ChainStart(t) <= |t.hops|
    requires HopTrue(env, url, t.hops, HopEnded(Some(hop), end), log, now)
    ensures ChainTrue(env, Recorded(t, hop, pending), end.reason, log, now)
  {
    var next := NextQuestion(env, Recorded(t, hop, pending));
    EvidenceIsOfTrail(t.hops, hop);
    if Succeeds(hop) {
      AnyNext(env, end.reason, log, EvidenceWith(t.hops, hop), next, now);
    } else {
      HopLeadsToFetch(env, t, pending, hop);
    }
  }

  /** A response ends a chain only for what it shows, so the log need not say more than that it is current. */
  lemma ResponseIsTrue(env: Env, t: Trail, seen: set<Url>, hop: Hop, log: Log, now: nat)
    requires Succeeds(hop) && Current(env, log, TrailAnswers(t.hops), now)
    ensures match Decide(env, t.redirectsFollowed, seen, hop)
      case Stops(end) => ChainTrue(env, t, end.reason, log, now)
      case Follows(_) => true
  {
  }

  /** What is true of the hop is true of the trail that records it. */
  lemma TurnIsTrue(
    env: Env, t: Trail, current: Url, seen: set<Url>, pending: bool, result: HopResult, log: Log, now: nat)
    requires ChainStart(t) <= |t.hops| && NextQuestion(env, t) == Some(Resolve(current.hostname))
    requires result.Responded? ==> Succeeds(result.hop)
    requires HopTrue(env, current, t.hops, result, log, now)
    ensures match TurnDecision(env, t, seen, pending, result)
      case Stops(end) => ChainTrue(env, After(t, result, pending), end.reason, log, now)
      case Follows(_) => Current(env, log, TrailAnswers(After(t, result, pending).hops), now)
  {
    match result
    case HopEnded(None, end) =>
    case HopEnded(Some(hop), end) => EndedHopIsTrue(env, t, current, pending, hop, end, log, now);
    case Responded(hop) =>
      EvidenceIsOfTrail(t.hops, hop);
      ResponseIsTrue(env, Recorded(t, hop, pending), seen, hop, log, now);
  }

  /** What a turn leads to: the end of the chain, or its next turn. */
  ghost predicate TurnLed(env: Env, t: Trail, after: Trail, seen: set<Url>, pending: bool, responded: bool,
                          d: Decision, log: Log, now: nat) {
    && |after.hops| <= |t.hops| + 1 && Extends(t.hops, after.hops)
    && match d
       case Stops(end) =>
         && StopShown(env, after, end) && ChainTrue(env, after, end.reason, log, now)
         && (end.reason == StopAllCandidatesFailed ==> !responded && |after.hops| == |t.hops| + 1)
       case Follows(next) =>
         && AtChainHead(env, after, next, seen + {next}, true) && Kept(env.Probe(), log, TrailAnswers(after.hops), now)
         && responded && after.redirectsFollowed == t.redirectsFollowed + (if pending then 1 else 0)
  }

  lemma TurnLeads(
    env: Env, t: Trail, current: Url, seen: set<Url>, pending: bool, result: HopResult, log: Log, now: nat)
    requires env.rules.Valid() && AtChainHead(env, t, current, seen, pending) && HopResultOk(env, current, result)
    requires HopTrue(env, current, t.hops, result, log, now)
    ensures TurnLed(env, t, After(t, result, pending), seen, pending, result.Responded?,
                    TurnDecision(env, t, seen, pending, result), log, now)
  {
    TurnIsInOrder(env, t, current, seen, pending, result);
    HeadLeadsToCurrent(env, t, current, seen, pending);
    TurnIsTrue(env, t, current, seen, pending, result, log, now);
    TurnCounts(env, t, current, seen, pending, result);
    TurnExtends(t, result, pending);
  }

  lemma TurnExtends(t: Trail, result: HopResult, pending: bool)
    ensures Extends(t.hops, After(t, result, pending).hops)
  {
    if HopOf(result).Some? {
      ExtendsByOne(t.hops, HopOf(result).value);
    } else {
      assert t.hops[..|t.hops|] == t.hops;
    }
  }

  // ---------- The fallback ----------

  /** How many calls a hop takes. */
  function CallsOf(hop: Hop): nat { 1 + |hop.attempts| }

  /** Once every candidate of the first hop has failed, and the look after the last of them found nothing, the HTTP
      chain is tried if and only if the path's own context is still live. */
  predicate FallbackIsRight(env: Env, t: Trail, log: Log) {
    t.hops != [] && Exhausted(env.policy, env.rules, t.hops[0]) && CallsOf(t.hops[0]) <= |log|
    && env.world.contexts.Look(log[CallsOf(t.hops[0]) - 1].at + 1) == GoesOn ==>
      (t.fallbackUsed <==> env.world.contexts.path(log[CallsOf(t.hops[0]) - 1].at + 1 + READS) == Live)
  }

  lemma {:induction false} FetchedCount(attempts: seq<WebObservation>)
    ensures |FetchedAnswers(attempts)| == |attempts|
  {
    if attempts != [] {
      FetchedCount(attempts[..|attempts| - 1]);
    }
  }

  lemma AnswersOfOneHop(hop: Hop)
    ensures TrailAnswers([hop]) == HopAnswers(hop) && |HopAnswers(hop)| == CallsOf(hop)
  {
    assert [hop][..0] == [];
    FetchedCount(hop.attempts);
  }

  lemma SecondHopFollowsAResponse(env: Env, t: Trail)
    requires TrailIn(env, t) && !t.fallbackUsed
    ensures |t.hops| > 1 ==> Succeeds(t.hops[0])
  {
    if |t.hops| > 1 {
      assert TransitionOk(env.rules, t, 1);
    }
  }

  lemma ExhaustedIsAlone(env: Env, t: Trail)
    requires TrailIn(env, t) && !t.fallbackUsed && t.hops != [] && Exhausted(env.policy, env.rules, t.hops[0])
    ensures t.hops == [t.hops[0]] && NextQuestion(env, t) == None && !Succeeds(t.hops[0])
  {
    SecondHopFollowsAResponse(env, t);
  }

  /** Such a hop leaves only one reason to stop, but for an interruption. */
  lemma ExhaustedReason(env: Env, t: Trail, end: Terminal)
    requires StopShown(env, t, end) && t.hops != []
    requires Exhausted(env.policy, env.rules, t.hops[|t.hops| - 1])
    requires end.reason != StopCancelled && end.reason != StopPathTimeout && end.reason != StopInvalidProbeEvidence
    ensures end.reason == StopAllCandidatesFailed
  {
  }

  /** Its log holds its own calls, and ends with a failure, so that only a look can have interrupted it. */
  lemma ExhaustedLog(env: Env, hop: Hop, reason: StopReason, log: Log, now: nat)
    requires Exhausted(env.policy, env.rules, hop) && TrueEnd(env, reason, log, TrailAnswers([hop]), None, now)
    ensures |log| == CallsOf(hop)
    ensures env.world.contexts.Look(Last(log).at + 1) == GoesOn ==>
      && reason != StopCancelled && reason != StopPathTimeout && reason != StopInvalidProbeEvidence
      && now == Last(log).at + 1 + READS
  {
    AnswersOfOneHop(hop);
    LastAttemptFailed(env, hop, log, now);
  }

  /** The last answer of such a hop was a failure. */
  lemma LastAttemptFailed(env: Env, hop: Hop, log: Log, now: nat)
    requires Exhausted(env.policy, env.rules, hop)
    ensures var answers := TrailAnswers([hop]);
      |answers| > 0 && !CancelledAnswer(answers[|answers| - 1])
      && (Kept(env.Probe(), log, answers, now) ==> log != [] && Last(log).answer == answers[|answers| - 1])
  {
    AnswersOfOneHop(hop);
    FetchedCount(hop.attempts);
    var last := |hop.attempts| - 1;
    assert FetchedAnswers(hop.attempts)[last] == Fetched(hop.attempts[last]) by {
      FetchedCount(hop.attempts[..last]);
    }
  }

  /** A first hop whose candidates have all failed ends the first chain: with that reason, unless a context ended. */
  lemma ExhaustedEnds(env: Env, t: Trail, end: Terminal, log: Log, now: nat)
    requires StopShown(env, t, end) && ChainTrue(env, t, end.reason, log, now)
    requires !t.fallbackUsed && t.hops != [] && Exhausted(env.policy, env.rules, t.hops[0])
    ensures |t.hops| == 1 && |log| == CallsOf(t.hops[0])
    ensures env.world.contexts.Look(Last(log).at + 1) == GoesOn ==>
      end.reason == StopAllCandidatesFailed && now == Last(log).at + 1 + READS
  {
    ExhaustedIsAlone(env, t);
    ExhaustedLog(env, t.hops[0], end.reason, log, now);
    if env.world.contexts.Look(Last(log).at + 1) == GoesOn {
      ExhaustedReason(env, t, end);
    }
  }

  /** The end of the first chain that leads to the fallback. */
  predicate FallsBack(env: Env, t: Trail, end: Terminal, now: nat) {
    end.reason == StopAllCandidatesFailed && |t.hops| == 1 && env.world.contexts.path(now) == Live
  }

  /** What the end of the first chain says about the fallback. */
  lemma FirstChainDecides(env: Env, t: Trail, end: Terminal, log: Log, now: nat)
    requires StopShown(env, t, end) && ChainTrue(env, t, end.reason, log, now) && !t.fallbackUsed
    ensures !FallsBack(env, t, end, now) ==> FallbackIsRight(env, t, log)
    ensures FallsBack(env, t, end, now) ==> FallbackIsRight(env, t.(fallbackUsed := true), log)
    ensures FallsBack(env, t, end, now) ==> CallsOf(t.hops[0]) <= |log|
  {
    if FallsBack(env, t, end, now) {
      FailedIsExhausted(env, t, end);
    }
    if t.hops != [] && Exhausted(env.policy, env.rules, t.hops[0]) {
      ExhaustedEnds(env, t, end, log, now);
      FallbackFollows(env, t, end, log, now);
    }
  }

  lemma FallbackFollows(env: Env, t: Trail, end: Terminal, log: Log, now: nat)
    requires |t.hops| == 1 && |log| == CallsOf(t.hops[0]) && !t.fallbackUsed
    requires env.world.contexts.Look(Last(log).at + 1) == GoesOn ==>
      end.reason == StopAllCandidatesFailed && now == Last(log).at + 1 + READS
    ensures !FallsBack(env, t, end, now) ==> FallbackIsRight(env, t, log)
    ensures FallsBack(env, t, end, now) ==> FallbackIsRight(env, t.(fallbackUsed := true), log)
  {
  }

  lemma FailedIsExhausted(env: Env, t: Trail, end: Terminal)
    requires StopShown(env, t, end) && end.reason == StopAllCandidatesFailed
    ensures t.hops != [] && Exhausted(env.policy, env.rules, t.hops[|t.hops| - 1])
  {
  }

  /** The second chain changes nothing about it. */
  lemma FallbackStaysRight(env: Env, t: Trail, log: Log, t': Trail, log': Log)
    requires FallbackIsRight(env, t, log) && t.hops != [] && CallsOf(t.hops[0]) <= |log|
    requires Extends(t.hops, t'.hops) && Extends(log, log') && t'.fallbackUsed == t.fallbackUsed
    ensures FallbackIsRight(env, t', log')
  {
    assert t'.hops[0] == t'.hops[..|t.hops|][0] == t.hops[0];
    var last := CallsOf(t.hops[0]) - 1;
    assert log'[last] == log'[..|log|][last] == log[last];
  }
}
