/** internal/webpath/observer.go: the HTTPS-first chain, its redirects, and the one-shot HTTP fallback. */
module WebPathObserver {
  import opened Basics
  import opened ContextReads
  import opened CallLog
  import opened WebPath
  import opened WebPathWorld
  import opened WebPathHops
  import opened WebPathChain
  import opened WebPathTruth

  class ReportBuilder {
    const input: Input
    var hops: seq<Hop>
    var redirectsFollowed: nat
    var fallbackUsed: bool

    constructor (input: Input)
      ensures this.input == input && hops == [] && redirectsFollowed == 0 && !fallbackUsed
    {
      this.input := input;
      hops, redirectsFollowed, fallbackUsed := [], 0, false;
    }

    function Trail(platform: Platform): Trail
      reads this
    {
      WebPath.Trail.Trail(platform, input, redirectsFollowed, fallbackUsed, hops)
    }

    /** `finish`. */
    function Finish(platform: Platform, t: Terminal): Report
      reads this
    {
      ReportOf(Trail(platform), t)
    }

    /** Appends an observed hop, and counts the redirect that led to it. */
    method Record(platform: Platform, result: HopResult, pending: bool)
      modifies `hops, `redirectsFollowed
      ensures Trail(platform) == After(old(Trail(platform)), result, pending)
    {
      if HopOf(result).Some? {
        if pending { redirectsFollowed := redirectsFollowed + 1; }
        hops := hops + [HopOf(result).value];
      }
    }
  }

  /** One turn of the chain loop: it records the hop, counts its redirect, and ends the chain or names the next URL. */
  method Turn(
    env: Env, start: nat, builder: ReportBuilder, current: Url, seen: set<Url>, pending: bool, ghost log: Log)
      returns (result: HopResult, d: Decision, now: nat, ghost log': Log)
    requires env.rules.CanonicalUrl(current)
    requires Kept(env.Probe(), log, TrailAnswers(builder.hops), start)
    modifies builder`hops, builder`redirectsFollowed
    ensures Extends(log, log')
    ensures HopResultOk(env, current, result) && HopTrue(env, current, old(builder.hops), result, log', now)
    ensures builder.Trail(env.platform) == After(old(builder.Trail(env.platform)), result, pending)
    ensures d == TurnDecision(env, old(builder.Trail(env.platform)), seen, pending, result)
  {
    result, now, log' := ObserveHop(env, start, current, builder.hops, log);
    builder.Record(env.platform, result, pending);
    match result
    case HopEnded(_, end) => d := Stops(end);
    case Responded(hop) => d := Decide(env, builder.redirectsFollowed, seen, hop);
  }

  /** `observeChain`, from its first URL to the reason it ends. */
  method ObserveChain(env: Env, start: nat, builder: ReportBuilder, initial: Url, ghost log: Log)
      returns (t: Terminal, hadResponse: bool, now: nat, ghost log': Log)
    requires env.rules.Valid() && AtChainHead(env, builder.Trail(env.platform), initial, {initial}, false)
    requires Kept(env.Probe(), log, TrailAnswers(builder.hops), start)
    modifies builder`hops, builder`redirectsFollowed
    ensures Extends(log, log') && Extends(old(builder.hops), builder.hops)
    ensures StopShown(env, builder.Trail(env.platform), t)
    ensures ChainTrue(env, builder.Trail(env.platform), t.reason, log', now)
    ensures !hadResponse ==> |builder.hops| <= |old(builder.hops)| + 1
    ensures hadResponse && t.reason == StopAllCandidatesFailed ==> |builder.hops| >= 2
  {
    var current, seen, pending := initial, {initial}, false;
    hadResponse, now, log' := false, start, log;
    assert log[..|log|] == log && builder.hops[..|builder.hops|] == builder.hops;
    while true
      invariant Extends(log, log') && Extends(old(builder.hops), builder.hops)
      invariant AtChainHead(env, builder.Trail(env.platform), current, seen, pending)
      invariant pending == hadResponse && (!hadResponse ==> builder.hops == old(builder.hops))
      invariant Kept(env.Probe(), log', TrailAnswers(builder.hops), now)
      decreases env.policy.redirectLimit - builder.redirectsFollowed + if pending then 0 else 1
    {
      ghost var before, was, went, asked := builder.Trail(env.platform), seen, pending, log';
      var result, d;
      result, d, now, log' := Turn(env, now, builder, current, seen, pending, log');
      ExtendsFurther(log, asked, log');
      TurnLeads(env, before, current, was, went, result, log', now);
      ExtendsFurther(old(builder.hops), before.hops, builder.hops);
      hadResponse := hadResponse || result.Responded?;
      match d
      case Stops(terminal) => return terminal, hadResponse, now, log';
      case Follows(next) =>
        seen := seen + {next};
        pending := true;
        current := next;
    }
  }

  /** The first chain, and the fallback it may lead to. */
  method ObserveBothChains(env: Env, start: nat, builder: ReportBuilder)
      returns (t: Terminal, now: nat, ghost log: Log)
    requires env.rules.Valid()
    requires AtChainHead(env, builder.Trail(env.platform), builder.input.initialUrl, {builder.input.initialUrl}, false)
    requires builder.hops == [] && !builder.fallbackUsed
    modifies builder
    ensures StopShown(env, builder.Trail(env.platform), t)
    ensures ChainTrue(env, builder.Trail(env.platform), t.reason, log, now)
    ensures t.reason == StopAllCandidatesFailed && !builder.fallbackUsed && |builder.hops| < 2 ==>
      env.world.contexts.path(now) != Live
    ensures FallbackIsRight(env, builder.Trail(env.platform), log)
  {
    var hadResponse;
    t, hadResponse, now, log := ObserveChain(env, start, builder, builder.input.initialUrl, []);
    FirstChainDecides(env, builder.Trail(env.platform), t, log, now);
    if t.status == StatusStopped && t.reason == StopAllCandidatesFailed && !hadResponse
      && env.world.contexts.path(now) == Live {
      KeptLater(env.Probe(), log, TrailAnswers(builder.hops), now, now + 1);
      FallbackIsHead(env, builder.Trail(env.platform), t);
      builder.fallbackUsed := true;
      ghost var first, firstLog := builder.Trail(env.platform), log;
      t, hadResponse, now, log := ObserveChain(env, now + 1, builder, FallbackUrl(builder.input.initialUrl), log);
      FallbackStaysRight(env, first, firstLog, builder.Trail(env.platform), log);
    }
  }

  /** The chains, and the last look at the contexts, which overrides their own reason. */
  method ObserveAccepted(env: Env, start: nat, builder: ReportBuilder)
      returns (report: Report, ghost own: Terminal, ghost log: Log, ghost commit: nat)
    requires env.rules.Valid()
    requires AtChainHead(env, builder.Trail(env.platform), builder.input.initialUrl, {builder.input.initialUrl}, false)
    requires builder.hops == [] && !builder.fallbackUsed
    modifies builder
    ensures StopShown(env, report.trail, Terminal(report.status, report.reason, report.detail))
    ensures report.trail.input == builder.input && TruePath(env, report, own, log, commit)
    ensures FallbackIsRight(env, report.trail, log)
    ensures env.world.contexts.Valid() && report.reason == StopAllCandidatesFailed && !report.trail.fallbackUsed ==>
      |report.trail.hops| >= 2
  {
    var t, now;
    t, now, log := ObserveBothChains(env, start, builder);
    own, commit := t, now;
    var v := env.world.contexts.Look(now);
    if v != GoesOn {
      t := TerminalOf(v);
      InterruptionIsShown(env, builder.Trail(env.platform), t);
    } else if env.world.contexts.Valid() {
      LiveWhenItGoesOn(env.world.contexts, now);
    }
    report := builder.Finish(env.platform, t);
  }

  // ---------- Observe ----------

  /** What the first look at the caller's context decides. */
  function FirstLook(env: Env): Verdict {
    Contexts(env.world.contexts.parent, env.world.contexts.parent).Look(0)
  }

  /** Where the chains begin, and how the hops add up. */
  predicate AddsUp(env: Env, hostname: string, t: Trail) {
    && t.platform == env.platform && |t.hops| <= env.policy.redirectLimit + 2
    && (t.hops != [] ==> t.hops[0].url == Url(HTTPS, env.rules.text(hostname), "/", ""))
    && (t.fallbackUsed ==> t.hops != [] && Exhausted(env.policy, env.rules, t.hops[0]))
    && (t.fallbackUsed && |t.hops| > 1 ==> t.hops[1].url == Url(HTTP, env.rules.text(hostname), "/", ""))
    && t.redirectsFollowed == Max(0, |t.hops| - if t.fallbackUsed && |t.hops| > 1 then 2 else 1)
  }

  lemma TrailAddsUp(env: Env, hostname: string, t: Trail)
    requires TrailIn(env, t) && t.input == NormalizeInput(env.policy, env.rules, hostname)
    ensures AddsUp(env, hostname, t)
  {
    if t.fallbackUsed && |t.hops| > 1 {
      assert TransitionOk(env.rules, t, 1);
    }
  }

  /** What holds of the report and the calls once the path has begun. */
  predicate ObservedOk(env: Env, r: Report, own: Terminal, log: Log, commit: nat) {
    && StopShown(env, r.trail, Terminal(r.status, r.reason, r.detail))
    && TruePath(env, r, own, log, commit)
    && HopsBounded(env, r.trail.hops) && AsksInOrder(env, r.trail, log) && FallbackIsRight(env, r.trail, log)
  }

  /** `Observe`, for every hostname, every resolver and Web observer, and every moment a context may end. */
  method Observe(env: Env, hostname: string)
      returns (report: Report, ghost own: Terminal, ghost log: Log, ghost commit: nat)
    requires env.rules.Valid()
    ensures report.trail.input == NormalizeInput(env.policy, env.rules, hostname)
    ensures ValidReport(env.policy, env.rules, report) <==>
      env.rules.text(report.trail.input.hostname) == report.trail.input.hostname
    // What really happened.
    ensures report.reason == StopInvalidInput <==> !env.rules.check(env.rules.text(hostname))
    ensures env.rules.check(env.rules.text(hostname)) && FirstLook(env) != GoesOn ==>
      report == ReportOf(InputOnly(env, report.trail.input), TerminalOf(FirstLook(env)))
    ensures env.rules.check(env.rules.text(hostname)) && FirstLook(env) == GoesOn ==>
      ObservedOk(env, report, own, log, commit)
    ensures AddsUp(env, hostname, report.trail)
    ensures env.world.contexts.Valid() && report.reason == StopAllCandidatesFailed && !report.trail.fallbackUsed ==>
      |report.trail.hops| >= 2
  {
    var input := NormalizeInput(env.policy, env.rules, hostname);
    var builder := new ReportBuilder(input);
    own, log, commit := FINAL_RESPONSE, [], 0;
    if !env.rules.check(input.hostname) {
      return builder.Finish(env.platform, Stopped(StopInvalidInput)), own, log, commit;
    }
    var v := FirstLook(env);
    if v != GoesOn {
      InterruptionIsShown(env, builder.Trail(env.platform), TerminalOf(v));
      StopShownIsValid(env, builder.Trail(env.platform), TerminalOf(v));
      TrailAddsUp(env, hostname, builder.Trail(env.platform));
      return builder.Finish(env.platform, TerminalOf(v)), own, log, commit;
    }
    report, own, log, commit := ObserveAccepted(env, READS, builder);
    StopShownIsValid(env, report.trail, Terminal(report.status, report.reason, report.detail));
    TrailAddsUp(env, hostname, report.trail);
    LogFollowsTheTrail(env, report, own, log, commit);
  }

  /** The trail before anything was asked. */
  function InputOnly(env: Env, input: Input): Trail { Trail(env.platform, input, 0, false, []) }

  /** The false timeout exists: a caller that cancels between the first two reads of its context is told of a timeout,
      although neither context ever meets a deadline. */
  method CancellationIsReportedAsATimeout(env: Env, hostname: string) returns (report: Report)
    requires env.rules.Valid() && env.rules.check(env.rules.text(hostname))
    requires env.world.contexts == CancelledAt(1)
    ensures report.status == StatusStopped && report.reason == StopPathTimeout
  {
    CancellationCanLookLikeATimeout(0);
    ghost var own, log, commit;
    report, own, log, commit := Observe(env, hostname);
  }
}
