/** What a true report of the Web path says about the calls that were made. */
module WebPathTruth {
  import opened Basics
  import opened ContextReads
  import opened CallLog
  import opened WebPath
  import opened WebPathWorld

  /** The questions of a hop: resolve its hostname, and dial its candidates in order, as far as it came. */
  function HopQuestions(env: Env, hop: Hop): (questions: seq<Question>)
    requires |hop.attempts| <= |HopCandidates(env.policy, env.rules, hop)|
    ensures |questions| == 1 + |hop.attempts|
  {
    var candidates := HopCandidates(env.policy, env.rules, hop);
    [Resolve(hop.url.hostname)] +
    seq(|hop.attempts|, i requires 0 <= i < |hop.attempts| => FetchOf(hop.url, candidates[i]))
  }

  predicate HopsBounded(env: Env, hops: seq<Hop>) {
    forall h :: h in hops ==> |h.attempts| <= |HopCandidates(env.policy, env.rules, h)|
  }

  function TrailQuestions(env: Env, hops: seq<Hop>): seq<Question>
    requires HopsBounded(env, hops)
  {
    if hops == [] then []
    else TrailQuestions(env, hops[..|hops| - 1]) + HopQuestions(env, hops[|hops| - 1])
  }

  /** The log asks the trail's questions in order, and at most one more: the one the trail leads to. */
  predicate AsksInOrder(env: Env, t: Trail, log: Log)
    requires HopsBounded(env, t.hops)
  {
    var planned := TrailQuestions(env, t.hops);
    && |planned| <= |log| <= |planned| + 1
    && (forall i :: 0 <= i < |planned| ==> log[i].question == planned[i])
    && (|log| > |planned| ==> NextQuestion(env, t) == Some(log[|planned|].question))
  }

  lemma {:induction false} FetchedAt(attempts: seq<WebObservation>, k: nat)
    requires k < |attempts|
    ensures |FetchedAnswers(attempts)| == |attempts| && FetchedAnswers(attempts)[k] == Fetched(attempts[k])
  {
    var front := attempts[..|attempts| - 1];
    if k < |front| {
      FetchedAt(front, k);
    } else if |front| > 0 {
      FetchedAt(front, 0);
    }
  }

  lemma HopAnswersFit(env: Env, hop: Hop, j: nat)
    requires HopOk(env.policy, env.rules, env.platform, hop) && j < 1 + |hop.attempts|
    ensures |HopAnswers(hop)| == 1 + |hop.attempts|
    ensures QuestionOf(HopAnswers(hop)[j]) == HopQuestions(env, hop)[j]
  {
    if hop.attempts != [] {
      FetchedAt(hop.attempts, if j == 0 then 0 else j - 1);
    }
    if j > 0 {
      assert AttemptMatches(env.rules, env.platform, hop.url, HopCandidates(env.policy, env.rules, hop)[j - 1],
                            hop.attempts[j - 1]);
    }
  }

  /** The recorded answers are about the trail's own questions. */
  lemma {:induction false} AnswersFit(env: Env, hops: seq<Hop>)
    requires forall h :: h in hops ==> HopOk(env.policy, env.rules, env.platform, h)
    ensures HopsBounded(env, hops) && |TrailAnswers(hops)| == |TrailQuestions(env, hops)|
    ensures forall i :: 0 <= i < |TrailAnswers(hops)| ==>
      QuestionOf(TrailAnswers(hops)[i]) == TrailQuestions(env, hops)[i]
  {
    if hops != [] {
      var front, last := hops[..|hops| - 1], hops[|hops| - 1];
      AnswersFit(env, front);
      HopAnswersFit(env, last, 0);
      forall j | 0 <= j < |HopAnswers(last)| ensures QuestionOf(HopAnswers(last)[j]) == HopQuestions(env, last)[j] {
        HopAnswersFit(env, last, j);
      }
    }
  }

  /** Every entry that is evidence asks what its answer is about; one more asks what comes next. */
  lemma LogQuestions(env: Env, reason: StopReason, log: Log, evidence: seq<Answer>, next: Option<Question>, now: nat)
    requires TrueEnd(env, reason, log, evidence, next, now)
    ensures |evidence| <= |log| <= |evidence| + 1
    ensures forall i :: 0 <= i < |evidence| ==> log[i].question == QuestionOf(evidence[i])
    ensures |log| > |evidence| ==> next == Some(log[|evidence|].question)
  {
    TrueEndIsLogged(env, reason, log, evidence, next, now);
    forall i | 0 <= i < |evidence| ensures log[i].question == QuestionOf(evidence[i]) {
      if Kept(env.Probe(), log, evidence, now) {
        KeptAnswers(env.Probe(), log, evidence, now, i);
      } else {
        KeptAnswers(env.Probe(), log[..|log| - 1], evidence, Last(log).at, i);
      }
    }
  }

  /** The log of a true report is determined by it: for each hop its hostname and then its candidates in order, so
      that every dial, even one whose answer was refused, is to a candidate of its hop. */
  lemma LogFollowsTheTrail(env: Env, r: Report, own: Terminal, log: Log, commit: nat)
    requires TruePath(env, r, own, log, commit)
    requires forall h :: h in r.trail.hops ==> HopOk(env.policy, env.rules, env.platform, h)
    ensures HopsBounded(env, r.trail.hops) && AsksInOrder(env, r.trail, log)
  {
    AnswersFit(env, r.trail.hops);
    LogQuestions(env, own.reason, log, TrailAnswers(r.trail.hops), NextQuestion(env, r.trail), commit);
  }
}
