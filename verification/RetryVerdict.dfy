/** internal/tlsretrybatch/observer.go: the order in which the calling goroutine reads the contexts. */
module RetryVerdict {
  import opened Basics
  import opened RetryBatch
  import opened RetryScheduler
  import opened RetryInvariant
  import opened RetryTheorems

  // ---------- Before the pool ----------

  /** Step `e` is the first read of the caller's context. */
  predicate FirstRead(states: seq<State>, steps: seq<Step>, e: nat) {
    e < |states| && e < |steps| && steps[e].MainSteps? && states[e].main.Enter1?
  }

  /** The caller's context was live when it was first read. */
  ghost predicate EnteredLive(states: seq<State>, steps: seq<Step>, k: nat) {
    exists e: nat :: e < k && FirstRead(states, steps, e) && states[e].parent == Live
  }

  /** What has been read of the caller's context so far. */
  ghost predicate EntryRead(states: seq<State>, steps: seq<Step>, k: nat)
    requires k < |states|
  {
    match states[k].main
    case Enter1 => true
    case Enter2 => exists e: nat :: e < k && FirstRead(states, steps, e) && states[e].parent != Canceled
    case Done(_) => true
    case _ => EnteredLive(states, steps, k)
  }

  lemma PastEnter2(c: Config, states: seq<State>, steps: seq<Step>, k: nat)
    requires IsRun(c, states, steps) && k < |steps| && states[k].main.Enter2? && EntryRead(states, steps, k)
    requires states[k].parent != DeadlineExceeded
    ensures EnteredLive(states, steps, k + 1)
  {
    var e: nat :| e < k && FirstRead(states, steps, e) && states[e].parent != Canceled;
    RunsAreEffective(c, states, steps);
    FailureAndSourceAreWriteOnce(states, steps, e, k);
  }

  lemma {:induction false} EntryIsRead(c: Config, states: seq<State>, steps: seq<Step>, k: nat)
    requires IsRun(c, states, steps) && k < |states|
    ensures EntryRead(states, steps, k)
  {
    if k > 0 {
      EntryIsRead(c, states, steps, k - 1);
      var s := states[k - 1];
      OnlyMainMovesItself(c, s, steps[k - 1]);
      assert steps[k - 1].MainSteps? && s.main.Enter1? ==> FirstRead(states, steps, k - 1);
      if s.main.Enter2? && s.parent != DeadlineExceeded {
        PastEnter2(c, states, steps, k - 1);
      }
    }
  }

  lemma OnlyMainMovesItself(c: Config, s: State, step: Step)
    requires Enabled(c, s, step)
    ensures !step.MainSteps? ==> Next(c, s, step).main == s.main
  {
    match step
    case WorkerSteps(w, answer) => WorkerEffects(c, s, w, answer);
    case _ =>
  }

  /** No worker moves, so nothing is dialled, for a caller whose context had ended when it was first read. */
  lemma NothingStartsTooLate(c: Config, states: seq<State>, steps: seq<Step>, k: nat)
    requires IsRun(c, states, steps) && k < |steps| && steps[k].WorkerSteps?
    ensures EnteredLive(states, steps, k)
  {
    EntryIsRead(c, states, steps, k);
  }

  // ---------- After the pool ----------

  predicate TimedOut(main: Main) { main.Done? && main.report.reason == StopBatchTimeout }

  predicate AtMost(main: Main, batchRead: bool) {
    || main.ReadFailure? || main == Parent1(false) || main == Parent2(false)
    || (batchRead && main == Batch1(false))
  }

  /** How far the calling goroutine can come after the pool, by what the contexts were when it left the pool (`first`)
      and are in the end (`last`). */
  predicate Heading(first: State, last: State, main: Main) {
    && !main.Enter1? && !main.Enter2? && !main.Pool?
    && (first.parent == Canceled ==>
          main.ReadFailure? || main == Parent1(false) || (main.Done? && main.report.status == StatusCancelled))
    && (first.parent == DeadlineExceeded ==> AtMost(main, false) || TimedOut(main))
    && (last.parent == Live && first.batch == DeadlineExceeded ==> AtMost(main, true) || TimedOut(main))
    && (last.parent == last.batch == Live && main.Done? ==> main.report.status == StatusCompleted)
  }

  lemma HeadingStays(c: Config, first: State, last: State, s: State, step: Step)
    requires Inv(c, s) && Enabled(c, s, step) && Heading(first, last, s.main) && s.failure.None?
    requires first.parent != Live ==> s.parent == first.parent
    requires first.batch != Live ==> s.batch == first.batch
    requires s.parent != Live ==> last.parent == s.parent
    requires s.batch != Live ==> last.batch == s.batch
    ensures Heading(first, last, Next(c, s, step).main) && Next(c, s, step).failure.None?
  {
  }

  lemma {:induction false} HeadingHolds(c: Config, states: seq<State>, steps: seq<Step>, k: nat, m: nat)
    requires IsRun(c, states, steps) && k <= m < |states|
    requires states[k].main.ReadFailure? && states[k].failure.None?
    ensures Heading(states[k], states[|steps|], states[m].main) && states[m].failure.None?
  {
    if k < m {
      HeadingHolds(c, states, steps, k, m - 1);
      EveryStateKeepsInv(c, states, steps, m - 1);
      RunsAreEffective(c, states, steps);
      FailureAndSourceAreWriteOnce(states, steps, k, m - 1);
      FailureAndSourceAreWriteOnce(states, steps, m - 1, |steps|);
      HeadingStays(c, states[k], states[|steps|], states[m - 1], steps[m - 1]);
    }
  }

  /** Without a failure, what the caller did comes before the batch's own deadline: a caller who had cancelled when the
      workers were done is told so, one whose deadline had passed is told of a timeout, and the batch's deadline counts
      if the caller's context stays live. If both contexts stay live the batch completes. */
  lemma VerdictPriority(c: Config, states: seq<State>, steps: seq<Step>, k: nat, r: Report)
    requires IsRun(c, states, steps) && k < |states| && states[|steps|].main == Done(r)
    requires states[k].main.ReadFailure? && states[k].failure.None?
    ensures states[k].parent == Canceled ==> r.status == StatusCancelled
    ensures states[k].parent == DeadlineExceeded ==> r.reason == StopBatchTimeout
    ensures states[|steps|].parent == Live && states[k].batch == DeadlineExceeded ==> r.reason == StopBatchTimeout
    ensures states[|steps|].parent == states[|steps|].batch == Live ==> r.status == StatusCompleted
  {
    HeadingHolds(c, states, steps, k, |steps|);
  }

  // ---------- What is scheduled ----------

  /** The report holds one result for each of the first `targetLimit` distinct targets, in the order of the request,
      and counts the others. */
  lemma ReportCoversTheRequest(c: Config, states: seq<State>, steps: seq<Step>, r: Report)
    requires IsRun(c, states, steps) && states[|steps|].main == Done(r)
    ensures var all := NormalizedTargets(c.rules, c.requested);
      && r.platform == c.platform && r.input == Input(Items(all), c.policy)
      && |r.targets| == Min(|all|, c.policy.targetLimit) && r.omitted == |all| - |r.targets|
      && forall i :: 0 <= i < |r.targets| ==>
           r.targets[i].dialIP == all[i] && r.targets[i].family == c.rules.family(all[i])
  {
    EveryStateKeepsInv(c, states, steps, |steps|);
    var s, all := states[|steps|], NormalizedTargets(c.rules, c.requested);
    assert r.targets == s.targets;
    forall i | 0 <= i < |r.targets|
      ensures r.targets[i].dialIP == all[i] && r.targets[i].family == c.rules.family(all[i])
    {
      assert TargetInv(c, c.ips[i], s.targets[i], s.started[i], s.source) && c.ips[i] == all[i];
    }
  }
}
