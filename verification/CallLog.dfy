/** The calls an orchestrator really makes, and what it means for evidence and verdicts to be true of them. */
module CallLog {
  import opened Basics
  import opened ContextReads

  /** One call of a dependency, at its moment. */
  datatype Call<Q, A> = Call(at: nat, question: Q, answer: A)

  /** A dependency: its answer at each moment, and the question an answer says it is about; and the contexts that are
      looked at before each call. */
  datatype Probe<!Q, !A> = Probe(contexts: Contexts, answer: (nat, Q) -> A, about: A -> Q)

  /** `x` is a real call, made before `now`, and made only because the look right before it found nothing. */
  predicate Genuine<Q(==), A(==)>(p: Probe<Q, A>, x: Call<Q, A>, now: nat) {
    x.answer == p.answer(x.at, x.question) && x.at < now && GoneOn(p.contexts, x.at)
  }

  /** The log holds real calls, one after the other. The evidence is all their answers in order, and
      each is about the question that was asked. */
  predicate Kept<Q(==), A(==)>(p: Probe<Q, A>, log: seq<Call<Q, A>>, evidence: seq<A>, now: nat) {
    && |log| == |evidence|
    && (log != [] ==>
          var x := log[|log| - 1];
          && Genuine(p, x, now) && x.answer == evidence[|log| - 1] && x.question == p.about(x.answer)
          && Kept(p, log[..|log| - 1], evidence[..|log| - 1], x.at))
  }

  /** The same, but for a last call, for `next`, whose answer is not evidence. */
  predicate KeptBut<Q(==), A(==)>(
    p: Probe<Q, A>, log: seq<Call<Q, A>>, evidence: seq<A>, next: Option<Q>, now: nat)
  {
    log != [] &&
    var x := log[|log| - 1];
    Kept(p, log[..|log| - 1], evidence, x.at) && Genuine(p, x, now) && next == Some(x.question)
  }

  lemma {:induction false} KeptAnswers<Q, A>(p: Probe<Q, A>, log: seq<Call<Q, A>>, evidence: seq<A>, now: nat, i: nat)
    requires Kept(p, log, evidence, now) && i < |log|
    ensures log[i].answer == evidence[i] && log[i].question == p.about(evidence[i]) && Genuine(p, log[i], now)
    ensures forall j :: i < j < |log| ==> log[i].at < log[j].at
  {
    var last := |log| - 1;
    if i < last {
      KeptAnswers(p, log[..last], evidence[..last], log[last].at, i);
    }
  }

  lemma KeptGrows<Q, A>(p: Probe<Q, A>, log: seq<Call<Q, A>>, evidence: seq<A>, x: Call<Q, A>)
    requires Kept(p, log, evidence, x.at) && Genuine(p, x, x.at + 1) && x.question == p.about(x.answer)
    ensures Kept(p, log + [x], evidence + [x.answer], x.at + 1)
  {
    assert (log + [x])[..|log|] == log && (evidence + [x.answer])[..|log|] == evidence;
  }

  lemma KeptButGrows<Q, A>(p: Probe<Q, A>, log: seq<Call<Q, A>>, evidence: seq<A>, x: Call<Q, A>, now: nat)
    requires Kept(p, log, evidence, x.at) && Genuine(p, x, now)
    ensures KeptBut(p, log + [x], evidence, Some(x.question), now)
  {
    assert (log + [x])[..|log|] == log;
  }

  lemma KeptLater<Q, A>(p: Probe<Q, A>, log: seq<Call<Q, A>>, evidence: seq<A>, now: nat, later: nat)
    requires Kept(p, log, evidence, now) && now <= later
    ensures Kept(p, log, evidence, later)
  {
  }

  /** The log has only grown. */
  predicate Extends<T(==)>(before: seq<T>, after: seq<T>) {
    |before| <= |after| && after[..|before|] == before
  }

  lemma ExtendsByOne<T>(before: seq<T>, x: T)
    ensures Extends(before, before) && Extends(before, before + [x])
  {
    assert before[..|before|] == before;
  }

  lemma ExtendsFurther<T>(a: seq<T>, b: seq<T>, c: seq<T>)
    requires Extends(a, b) && Extends(b, c)
    ensures Extends(a, c)
  {
    assert c[..|a|] == c[..|b|][..|a|];
  }

  // ---------- Looks at the contexts, between the calls ----------

  /** The look that was just made found nothing. */
  predicate GoneOn(c: Contexts, now: nat) {
    READS <= now && c.Look(now - READS) == GoesOn
  }

  /** The last thing done was the look after the last answer, and it found nothing. */
  predicate LiveAfter<Q, A>(c: Contexts, log: seq<Call<Q, A>>, now: nat) {
    log != [] && now == log[|log| - 1].at + 1 + READS && c.Look(log[|log| - 1].at + 1) == GoesOn
  }

  /** The look that gave this verdict was the last thing done, and `next` was about to be asked. */
  predicate LookedBefore<Q>(c: Contexts, next: Option<Q>, now: nat, v: Verdict) {
    next.Some? && READS <= now && c.Look(now - READS) == v
  }

  /** The look that gave this verdict was the last thing done, right after the last answer. */
  predicate LookedAfter<Q, A>(c: Contexts, log: seq<Call<Q, A>>, now: nat, v: Verdict) {
    log != [] && now == log[|log| - 1].at + 1 + READS && c.Look(log[|log| - 1].at + 1) == v
  }
}
