/** internal/webpath/validate.go: the independent check of the hop chain. */
module WebPathValidator {
  import opened Basics
  import opened WebPath
  import opened WebPathWorld
  import opened WebPathObserver

  // ---------- What the bounded candidates are ----------

  function CountFamily(rules: Rules, ips: seq<string>, family: Family): nat {
    if ips == [] then 0
    else CountFamily(rules, ips[..|ips| - 1], family) + if rules.family(ips[|ips| - 1]) == family then 1 else 0
  }

  /** The candidates are the first `limit` eligible addresses of each family: all of them are
      eligible resolver answers, none is repeated, and each family has as many as the limit allows. */
  lemma {:induction false} CandidatesAreBounded(rules: Rules, limit: nat, addresses: seq<Address>)
    ensures forall c :: c in Candidates(rules, limit, addresses) ==>
      exists i :: 0 <= i < |addresses| && addresses[i].ip == c && Selected(rules, limit, addresses, i)
    ensures forall f ::
      CountFamily(rules, Candidates(rules, limit, addresses), f) == Min(limit, CountEligible(rules, addresses, f))
  {
    if addresses != [] {
      var last := |addresses| - 1;
      var front := addresses[..last];
      var earlier := Candidates(rules, limit, front);
      CandidatesAreBounded(rules, limit, front);
      forall c | c in earlier
        ensures exists i :: 0 <= i < |addresses| && addresses[i].ip == c && Selected(rules, limit, addresses, i)
      {
        var i :| 0 <= i < |front| && front[i].ip == c && Selected(rules, limit, front, i);
        assert front[..i] == addresses[..i];
        assert Selected(rules, limit, addresses, i);
      }
      if Selected(rules, limit, addresses, last) {
        var all := earlier + [addresses[last].ip];
        assert all[..|all| - 1] == earlier;
        assert addresses[last].ip == addresses[last].ip && Selected(rules, limit, addresses, last);
      } else {
        assert Candidates(rules, limit, addresses) == earlier;
      }
    }
  }

  /** The candidates are the selected addresses, in resolver order; `places` says where each stands. */
  lemma {:induction false} CandidatesAreInOrder(rules: Rules, limit: nat, addresses: seq<Address>)
      returns (places: seq<nat>)
    ensures |places| == |Candidates(rules, limit, addresses)|
    ensures forall p :: 0 <= p < |places| ==>
      places[p] < |addresses| && Selected(rules, limit, addresses, places[p])
      && Candidates(rules, limit, addresses)[p] == addresses[places[p]].ip
    ensures forall p, q :: 0 <= p < q < |places| ==> places[p] < places[q]
    ensures forall i :: 0 <= i < |addresses| && Selected(rules, limit, addresses, i) ==> i in places
  {
    places := [];
    if addresses != [] {
      var last := |addresses| - 1;
      var front := addresses[..last];
      places := CandidatesAreInOrder(rules, limit, front);
      forall i | 0 <= i < last ensures Selected(rules, limit, addresses, i) <==> Selected(rules, limit, front, i) {
        assert addresses[..i] == front[..i];
      }
      if Selected(rules, limit, addresses, last) {
        places := places + [last];
      }
    }
  }

  lemma {:induction false} CandidatesAreDistinct(rules: Rules, limit: nat, addresses: seq<Address>)
    requires forall i, j :: 0 <= i < j < |addresses| ==> addresses[i].ip != addresses[j].ip
    ensures Distinct(Candidates(rules, limit, addresses))
  {
    if addresses != [] {
      var last := |addresses| - 1;
      CandidatesAreDistinct(rules, limit, addresses[..last]);
      CandidatesAreBounded(rules, limit, addresses[..last]);
      var earlier := Candidates(rules, limit, addresses[..last]);
      forall k | 0 <= k < |earlier| ensures earlier[k] != addresses[last].ip {
        assert earlier[k] in earlier;
        var i :| 0 <= i < last && addresses[..last][i].ip == earlier[k];
        assert addresses[i].ip != addresses[last].ip;
      }
    }
  }

  lemma {:induction false} PrefixCount(rules: Rules, ips: seq<string>, k: nat, family: Family)
    requires k <= |ips|
    ensures CountFamily(rules, ips[..k], family) <= CountFamily(rules, ips, family)
  {
    if k < |ips| {
      PrefixCount(rules, ips[..|ips| - 1], k, family);
      assert ips[..|ips| - 1][..k] == ips[..k];
    } else {
      assert ips[..k] == ips;
    }
  }

  // ---------- validateHop ----------

  /** The checks that repeat what following the bounded candidates already implies. */
  lemma FollowingCandidatesIsSafe(policy: Policy, rules: Rules, resolution: Resolution, k: nat)
    requires resolution.Valid() && resolution.outcome.Succeeded?
    requires k < |Candidates(rules, policy.candidateLimit, resolution.addresses)|
    ensures var candidates := Candidates(rules, policy.candidateLimit, resolution.addresses);
      && candidates[k] in AddressSet(resolution)
      && rules.publicText(candidates[k]).Some?
      && candidates[k] !in Elements(candidates[..k])
      && CountFamily(rules, candidates[..k + 1], rules.family(candidates[k])) <= policy.candidateLimit
  {
    var candidates := Candidates(rules, policy.candidateLimit, resolution.addresses);
    CandidatesAreBounded(rules, policy.candidateLimit, resolution.addresses);
    CandidatesAreDistinct(rules, policy.candidateLimit, resolution.addresses);
    assert candidates[k] in candidates;
    PrefixCount(rules, candidates, k + 1, rules.family(candidates[k]));
  }

  function AddressSet(resolution: Resolution): set<string> {
    if resolution.outcome.Succeeded? then set a | a in resolution.addresses :: a.ip else {}
  }

  /** One attempt of the hop, with its dialled set and family count so far. */
  method ValidateAttempt(policy: Policy, rules: Rules, platform: Platform, hop: Hop, candidates: seq<string>, k: nat,
                         attempted: set<string>, count: nat) returns (ok: bool)
    requires k < |hop.attempts| && candidates == HopCandidates(policy, rules, hop) && k <= |candidates|
    requires hop.resolution.Valid() && (hop.resolution.outcome.Succeeded? || candidates == [])
    requires attempted == Elements(candidates[..k])
    requires count == CountFamily(rules, candidates[..k], hop.attempts[k].family)
    ensures ok == AttemptFits(rules, platform, hop, candidates, k)
  {
    var o := hop.attempts[k];
    if !o.Valid(rules) || o.platform != platform { return false; }
    if o.request.scheme != hop.url.scheme || o.request.hostname != hop.url.hostname
      || o.request.path != hop.url.path || o.request.query != hop.url.query { return false; }
    if k >= |candidates| || o.request.dialIP != candidates[k] { return false; }
    FollowingCandidatesIsSafe(policy, rules, hop.resolution, k);
    if o.request.dialIP !in AddressSet(hop.resolution) || rules.publicText(o.request.dialIP).None?
      || o.request.dialIP in attempted { return false; }
    CountOneMore(rules, candidates, k);
    if count + 1 > policy.candidateLimit { return false; }
    ok := k == |hop.attempts| - 1 || o.outcome.Failed?;
  }

  predicate AttemptFits(rules: Rules, platform: Platform, hop: Hop, candidates: seq<string>, k: nat)
    requires k < |hop.attempts|
  {
    && k < |candidates|
    && AttemptMatches(rules, platform, hop.url, candidates[k], hop.attempts[k])
    && (k == |hop.attempts| - 1 || hop.attempts[k].outcome.Failed?)
  }

  lemma CountOneMore(rules: Rules, candidates: seq<string>, k: nat)
    requires k < |candidates|
    ensures forall f :: CountFamily(rules, candidates[..k + 1], f)
                     == CountFamily(rules, candidates[..k], f) + (if rules.family(candidates[k]) == f then 1 else 0)
  {
    assert candidates[..k + 1][..k] == candidates[..k];
  }

  method ValidateHop(policy: Policy, rules: Rules, platform: Platform, hop: Hop) returns (ok: bool)
    ensures ok == HopOk(policy, rules, platform, hop)
  {
    if rules.text(hop.url.hostname) != hop.url.hostname || !rules.check(hop.url.hostname) { return false; }
    if hop.url.path == "" { return false; }
    if !hop.resolution.Valid() || hop.resolution.platform != platform { return false; }
    if hop.resolution.hostname != hop.url.hostname { return false; }
    if !hop.resolution.outcome.Succeeded? && |hop.attempts| != 0 { return false; }
    var candidates: seq<string> := [];
    if hop.resolution.outcome.Succeeded? {
      candidates := SelectPublicCandidates(rules, policy.candidateLimit, hop.resolution.addresses);
    }
    ok := ValidateAttempts(policy, rules, platform, hop, candidates);
  }

  method ValidateAttempts(policy: Policy, rules: Rules, platform: Platform, hop: Hop, candidates: seq<string>)
      returns (ok: bool)
    requires candidates == HopCandidates(policy, rules, hop)
    requires hop.resolution.Valid() && (hop.resolution.outcome.Succeeded? || candidates == [])
    ensures ok == AttemptsOk(rules, platform, hop.url, candidates, hop.attempts)
  {
    var counts: map<Family, nat> := map[IPv4 := 0, IPv6 := 0];
    var attempted: set<string> := {};
    for k := 0 to |hop.attempts|
      invariant k <= |candidates|
      invariant forall j :: 0 <= j < k ==> AttemptFits(rules, platform, hop, candidates, j)
      invariant attempted == Elements(candidates[..k])
      invariant CountsMatch(rules, counts, candidates[..k])
    {
      var o := hop.attempts[k];
      assert o.family == IPv4 || o.family == IPv6;
      var fits := ValidateAttempt(policy, rules, platform, hop, candidates, k, attempted, counts[o.family]);
      if !fits { return false; }
      assert candidates[..k + 1] == candidates[..k] + [candidates[k]];
      attempted := attempted + {o.request.dialIP};
      CountOneMore(rules, candidates, k);
      counts := counts[o.family := counts[o.family] + 1];
    }
    forall j | 0 <= j < |hop.attempts|
      ensures AttemptMatches(rules, platform, hop.url, candidates[j], hop.attempts[j])
    {
      assert AttemptFits(rules, platform, hop, candidates, j);
    }
    forall j | 0 <= j < |hop.attempts| - 1 ensures hop.attempts[j].outcome.Failed? {
      assert AttemptFits(rules, platform, hop, candidates, j);
    }
    ok := true;
  }

  predicate CountsMatch(rules: Rules, counts: map<Family, nat>, dialled: seq<string>) {
    && counts.Keys == {IPv4, IPv6}
    && forall f :: f in counts ==> counts[f] == CountFamily(rules, dialled, f)
  }

  // ---------- Validate ----------

  method ExhaustedPublicCandidates(policy: Policy, rules: Rules, hop: Hop) returns (exhausted: bool)
    ensures exhausted == Exhausted(policy, rules, hop)
  {
    if !hop.resolution.outcome.Succeeded? { return false; }
    if Succeeds(hop) {
      var last := |hop.attempts| - 1;
      assert !hop.attempts[last].outcome.Failed?;
      return false;
    }
    var candidates := SelectPublicCandidates(rules, policy.candidateLimit, hop.resolution.addresses);
    if |candidates| == 0 || |hop.attempts| != |candidates| { return false; }
    for k := 0 to |hop.attempts|
      invariant forall j :: 0 <= j < k ==> hop.attempts[j].outcome.Failed?
    {
      if !hop.attempts[k].outcome.Failed? { return false; }
    }
    exhausted := true;
  }

  /** The pass over the transitions, which recounts the redirects. */
  method ValidateTransitions(policy: Policy, rules: Rules, t: Trail) returns (ok: bool, redirects: int)
    requires t.fallbackUsed ==> t.hops != [] && Exhausted(policy, rules, t.hops[0])
    ensures ok == forall i :: 0 < i < |t.hops| ==> TransitionOk(rules, t, i)
    ensures ok ==> redirects == RedirectTransitions(t)
  {
    redirects := 0;
    var i := 1;
    while i < |t.hops|
      invariant 1 <= i <= Max(1, |t.hops|)
      invariant forall j :: 0 < j < i && j < |t.hops| ==> TransitionOk(rules, t, j)
      invariant redirects == i - (if t.fallbackUsed && i > 1 then 2 else 1)
    {
      if t.fallbackUsed && i == 1 {
        var exhausted := ExhaustedPublicCandidates(policy, rules, t.hops[i - 1]);
        if t.hops[i].url != FallbackUrl(t.input.initialUrl) || !exhausted {
          assert !TransitionOk(rules, t, i);
          return false, redirects;
        }
      } else {
        var previous := t.hops[i - 1];
        if !Succeeds(previous) || !IsRedirectStatus(Response(previous).statusCode)
          || RedirectTarget(rules, previous.url, Response(previous)) != Target(t.hops[i].url) {
          assert !TransitionOk(rules, t, i);
          return false, redirects;
        }
        redirects := redirects + 1;
      }
      i := i + 1;
    }
    ok := true;
  }

  method ValidateTerminalEvidence(policy: Policy, rules: Rules, r: Report) returns (ok: bool)
    requires rules.Valid()
    ensures ok == TerminalEvidenceOk(policy, rules, r)
  {
    if Interrupted(r) { return true; }
    if |r.trail.hops| == 0 { return false; }
    var last := r.trail.hops[|r.trail.hops| - 1];
    var redirected := Succeeds(last) && IsRedirectStatus(Response(last).statusCode);
    match r.reason
    case StopFinalResponse => return Succeeds(last) && !redirected;
    case StopResolutionFailed => return last.resolution.outcome.Failed? && |last.attempts| == 0;
    case StopNoPublicCandidates =>
      if !last.resolution.outcome.Succeeded? { return false; }
      var candidates := SelectPublicCandidates(rules, policy.candidateLimit, last.resolution.addresses);
      return |candidates| == 0 && |last.attempts| == 0;
    case StopAllCandidatesFailed => ok := ExhaustedPublicCandidates(policy, rules, last);
    case StopRedirectLocationUnavailable =>
      return redirected && !(Response(last).location.Location? && Response(last).location.text != "");
    case StopRedirectTargetInvalid =>
      return redirected && RedirectTarget(rules, last.url, Response(last)) == InvalidTarget;
    case StopRedirectTargetUnsafe =>
      return redirected && RedirectTarget(rules, last.url, Response(last)) == UnsafeTarget;
    case StopRedirectLoop =>
      if !redirected || !RedirectTarget(rules, last.url, Response(last)).Target? { return false; }
      var next := RedirectTarget(rules, last.url, Response(last)).url;
      for i := 0 to |r.trail.hops|
        invariant forall j :: 0 <= j < i ==> r.trail.hops[j].url != next
      {
        if r.trail.hops[i].url == next {
          assert RedirectsTo(rules, last, r.trail.hops[i].url);
          return true;
        }
      }
      return false;
    case StopRedirectLimit => return r.trail.redirectsFollowed == policy.redirectLimit && redirected;
    case _ => return true;
  }

  /** webpath.Validate accepts exactly the reports that meet the declarative contract. */
  method Validate(policy: Policy, rules: Rules, r: Report) returns (ok: bool)
    requires rules.Valid()
    ensures ok == ValidReport(policy, rules, r)
  {
    var t := r.trail;
    if t.redirectsFollowed < 0 || t.redirectsFollowed > policy.redirectLimit { return false; }
    if NormalizeInput(policy, rules, t.input.hostname) != t.input { return false; }
    if !rules.check(t.input.hostname) {
      return r.status == StatusStopped && r.reason == StopInvalidInput && |t.hops| == 0
          && t.redirectsFollowed == 0 && !t.fallbackUsed;
    }
    if r.status == StatusStopped && r.reason == StopInvalidInput { return false; }
    if !TerminalPair(r.status, r.reason) { return false; }
    if r.status == StatusCompleted && r.detail != NoText { return false; }
    if |t.hops| > policy.redirectLimit + 1 + (if t.fallbackUsed then 1 else 0) { return false; }
    if |t.hops| > 0 && t.hops[0].url != t.input.initialUrl { return false; }
    for i := 0 to |t.hops|
      invariant forall j :: 0 <= j < i ==> HopOk(policy, rules, t.platform, t.hops[j])
    {
      var fine := ValidateHop(policy, rules, t.platform, t.hops[i]);
      if !fine { return false; }
    }
    if t.fallbackUsed {
      if |t.hops| == 0 { return false; }
      var exhausted := ExhaustedPublicCandidates(policy, rules, t.hops[0]);
      if !exhausted { return false; }
    }
    var chained, redirects := ValidateTransitions(policy, rules, t);
    if !chained || redirects != t.redirectsFollowed { return false; }
    if t.fallbackUsed && |t.hops| < 2 && r.status != StatusCancelled
      && r.reason != StopPathTimeout && r.reason != StopInvalidProbeEvidence { return false; }
    ok := ValidateTerminalEvidence(policy, rules, r);
  }

  /** Producer and validator together: every report of an accepted hostname is accepted. */
  method ObserveThenValidate(env: Env, hostname: string) returns (report: Report, ok: bool)
    requires env.rules.Valid()
    ensures env.rules.check(env.rules.text(hostname)) ==> ok
    ensures ok <==> env.rules.text(env.rules.text(hostname)) == env.rules.text(hostname)
  {
    ghost var own, log, commit;
    report, own, log, commit := Observe(env, hostname);
    ok := Validate(env.policy, env.rules, report);
  }
}
