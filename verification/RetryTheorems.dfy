/** What holds of every run of the TLS retry batch, under every interleaving,
    every dependency answer, and every moment a context may end. */
module RetryTheorems {
  import opened Basics
  import opened RetryBatch
  import opened RetryScheduler
  import opened RetryInvariant

  ghost predicate IsRun(c: Config, states: seq<State>, steps: seq<Step>) {
    && c.Valid()
    && |states| == |steps| + 1 && states[0] == Initial(c)
    && forall k :: 0 <= k < |steps| ==>
         Enabled(c, states[k], steps[k]) && states[k + 1] == Next(c, states[k], steps[k])
  }

  lemma {:induction false} EveryStateKeepsInv(c: Config, states: seq<State>, steps: seq<Step>, k: nat)
    requires IsRun(c, states, steps) && k < |states|
    ensures Inv(c, states[k])
  {
    if k == 0 {
      InitialInv(c);
    } else {
      EveryStateKeepsInv(c, states, steps, k - 1);
      StepKeepsInv(c, states[k - 1], steps[k - 1]);
    }
  }

  // ---------- What one step may change ----------

  function WorkerRank(limit: nat, worker: Worker): nat {
    match worker
    case Exited => 0
    case Fetch => 1
    case Interrupting(_) => 2
    case Cancelling(_) => 3
    case Failing(_, _) => 4
    case WaitFailed(_) => 5
    case CheckAfter(_, n, _) => 5 + 10 * Max(0, limit - n)
    case Accepting(_, n, _, _) => 6 + 10 * Max(0, limit - n)
    case CheckLate(_, n, _, _) => 7 + 10 * Max(0, limit - n)
    case InFlight(_, n, _) => 8 + 10 * Max(0, limit - n)
    case Dialing(_, n, _) => 9 + 10 * Max(0, limit - n)
    case Waiting(_, n, _) => 10 + 10 * Max(0, limit - n)
    case PickDelay(_, n) => 11 + 10 * Max(0, limit - n)
    case StartAttempt(_, n) => 12 + 10 * Max(0, limit - n)
    case CheckBatch(_) => 3 + 10 * limit
  }

  function MainRank(main: Main): nat {
    match main
    case Enter1 => 13
    case Enter2 => 12
    case Pool => 11
    case ReadFailure => 10
    case Parent1(commit) => if commit then 4 else 9
    case Parent2(commit) => if commit then 3 else 8
    case Batch1(commit) => if commit then 2 else 7
    case Batch2(commit) => if commit then 1 else 6
    case CheckTargets => 5
    case Done(_) => 0
  }

  predicate Dials(s: State, step: Step) {
    step.WorkerSteps? && step.w < |s.workers| && s.workers[step.w].Dialing?
  }

  /** Contexts, the failure and the source are only ever set; history records the step. */
  predicate Effects(s: State, step: Step, s': State) {
    && (s.failure.Some? ==> s'.failure == s.failure)
    && (s.source.Some? ==> s'.source == s.source)
    && (s.parent != Live ==> s'.parent == s.parent)
    && (s.batch != Live ==> s'.batch == s.batch)
    && s'.timerFired == (s.timerFired || step.BatchTimerFires?)
    && s'.atCommit == (if step.MainSteps? && s.main == Parent1(true) then Some((s.parent, s.batch)) else s.atCommit)
  }

  /** `started` counts the calls of the TLS observer. */
  predicate CountsDials(s: State, step: Step, s': State) {
    if Dials(s, step) then
      var i := s.workers[step.w].i;
      i < |s.started| && s'.started == s.started[i := s.started[i] + 1]
    else s'.started == s.started
  }

  lemma WorkerEffects(c: Config, s: State, w: nat, answer: Answer)
    requires Enabled(c, s, WorkerSteps(w, answer))
    ensures Effects(s, WorkerSteps(w, answer), WorkerNext(c, s, w, answer))
    ensures WorkerNext(c, s, w, answer).parent == s.parent && WorkerNext(c, s, w, answer).main == s.main
  {
  }

  lemma WorkerCounts(c: Config, s: State, w: nat, answer: Answer)
    requires Enabled(c, s, WorkerSteps(w, answer))
    ensures CountsDials(s, WorkerSteps(w, answer), WorkerNext(c, s, w, answer))
  {
    var s' := WorkerNext(c, s, w, answer);
    if s.workers[w].Dialing? {
      var i := s.workers[w].i;
      assert s'.started == s.started[i := s.started[i] + 1];
    } else {
      assert s'.started == s.started;
    }
  }

  lemma PreparingWorkerMoves(c: Config, s: State, w: nat, answer: Answer)
    requires Enabled(c, s, WorkerSteps(w, answer)) && (Preparing(s.workers[w]) || s.workers[w].Fetch?)
    ensures var s' := WorkerNext(c, s, w, answer); s'.workers == s.workers[w := s'.workers[w]]
  {
  }

  lemma OnlyWorkerMoves(c: Config, s: State, w: nat, answer: Answer)
    requires Enabled(c, s, WorkerSteps(w, answer))
    ensures var s' := WorkerNext(c, s, w, answer); s'.workers == s.workers[w := s'.workers[w]]
  {
    if Preparing(s.workers[w]) || s.workers[w].Fetch? {
      PreparingWorkerMoves(c, s, w, answer);
    }
  }

  lemma OwnerKeepsItsTarget(c: Config, s: State, w: nat, answer: Answer)
    requires Enabled(c, s, WorkerSteps(w, answer)) && s.workers[w].Owns()
    ensures var w' := WorkerNext(c, s, w, answer).workers[w]; w'.Owns() ==> w'.i == s.workers[w].i
  {
  }

  lemma OwnerTouchesItsTarget(c: Config, s: State, w: nat, answer: Answer)
    requires Enabled(c, s, WorkerSteps(w, answer)) && s.workers[w].Owns()
    ensures var i, s' := s.workers[w].i, WorkerNext(c, s, w, answer);
      s'.jobs == s.jobs && s'.targets == s.targets[i := s'.targets[i]]
  {
  }

  /** Worker `w` moves itself and, at most, the target it owns or the next one queued. */
  lemma WorkerOwnership(c: Config, s: State, w: nat, answer: Answer)
    requires Enabled(c, s, WorkerSteps(w, answer))
    ensures var s' := WorkerNext(c, s, w, answer); s'.workers == s.workers[w := s'.workers[w]]
    ensures s.workers[w].Owns() ==> var i, s' := s.workers[w].i, WorkerNext(c, s, w, answer);
      && s'.jobs == s.jobs && s'.targets == s.targets[i := s'.targets[i]]
      && (s'.workers[w].Owns() ==> s'.workers[w].i == i)
    ensures !s.workers[w].Owns() ==> var s' := WorkerNext(c, s, w, answer);
      && s'.targets == s.targets
      && (if s.jobs == [] then s'.jobs == [] && s'.workers[w] == Exited
          else s'.jobs == s.jobs[1..] && s'.workers[w] == CheckBatch(s.jobs[0]))
  {
    OnlyWorkerMoves(c, s, w, answer);
    if s.workers[w].Owns() {
      OwnerKeepsItsTarget(c, s, w, answer);
      OwnerTouchesItsTarget(c, s, w, answer);
    }
  }

  lemma MainRankDescends(c: Config, s: State)
    requires Enabled(c, s, MainSteps)
    ensures MainRank(MainNext(c, s).main) < MainRank(s.main)
  {
  }

  lemma MainOnlyRecords(c: Config, s: State)
    requires Enabled(c, s, MainSteps)
    ensures Effects(s, MainSteps, MainNext(c, s))
  {
  }

  lemma MainEffects(c: Config, s: State)
    requires Enabled(c, s, MainSteps)
    ensures Effects(s, MainSteps, MainNext(c, s))
    ensures MainRank(MainNext(c, s).main) < MainRank(s.main)
  {
    MainOnlyRecords(c, s);
    MainRankDescends(c, s);
  }

  lemma StepEffects(c: Config, s: State, step: Step)
    requires Enabled(c, s, step)
    ensures Effects(s, step, Next(c, s, step)) && CountsDials(s, step, Next(c, s, step))
    ensures !step.WorkerSteps? ==>
      var s' := Next(c, s, step); s'.jobs == s.jobs && s'.workers == s.workers && s'.targets == s.targets
  {
    match step
    case WorkerSteps(w, answer) => WorkerEffects(c, s, w, answer); WorkerCounts(c, s, w, answer);
    case MainSteps => MainEffects(c, s); MainTouchesOnlyItself(c, s);
    case _ =>
  }

  predicate EffectsAt(states: seq<State>, steps: seq<Step>, k: nat)
    requires |states| == |steps| + 1 && k < |steps|
  {
    Effects(states[k], steps[k], states[k + 1])
  }

  predicate CountsAt(states: seq<State>, steps: seq<Step>, k: nat)
    requires |states| == |steps| + 1 && k < |steps|
  {
    CountsDials(states[k], steps[k], states[k + 1])
  }

  /** The effects of every step of a run. */
  predicate Effective(states: seq<State>, steps: seq<Step>) {
    |states| == |steps| + 1 && forall k :: 0 <= k < |steps| ==> EffectsAt(states, steps, k)
  }

  predicate Counting(states: seq<State>, steps: seq<Step>) {
    |states| == |steps| + 1 && forall k :: 0 <= k < |steps| ==> CountsAt(states, steps, k)
  }

  lemma RunsAreEffective(c: Config, states: seq<State>, steps: seq<Step>)
    requires IsRun(c, states, steps)
    ensures Effective(states, steps) && Counting(states, steps)
  {
    forall k | 0 <= k < |steps| ensures EffectsAt(states, steps, k) && CountsAt(states, steps, k) {
      StepEffects(c, states[k], steps[k]);
    }
  }

  // ---------- Agreement with the validator ----------

  /** The report of a request that normalisation rejects. */
  function RejectedReport(policy: Policy, rules: AddressRules, platform: Platform, requested: seq<string>): Report {
    Finish(platform, policy, NormalizedTargets(rules, requested), 0, [], StatusStopped, StopInvalidInput)
  }

  /** `r` is a report that `Observe` can return for `requested`. */
  ghost predicate Returns(policy: Policy, rules: AddressRules, platform: Platform, requested: seq<string>, r: Report)
    requires policy.Valid()
  {
    if Rejects(policy, rules, requested) then r == RejectedReport(policy, rules, platform, requested)
    else
      exists states: seq<State>, steps: seq<Step> ::
        && IsRun(Config(policy, rules, platform, requested,
                        BoundedTargets(policy, NormalizedTargets(rules, requested))), states, steps)
        && states[|steps|].main == Done(r)
  }

  /** Producer and validator agree on every run of every request but the empty one,
      whose target list `finish` turns into nil. */
  lemma ObserveAgreesWithValidate(
    policy: Policy, rules: AddressRules, platform: Platform, requested: seq<string>, r: Report)
    requires policy.Valid() && rules.Idempotent() && Returns(policy, rules, platform, requested, r)
    ensures ValidReport(policy, rules, r) <==> requested != []
  {
    if Rejects(policy, rules, requested) {
      NormalizationIsFixpoint(policy, rules, requested);
      var texts := Texts(rules, requested);
      DedupIsOrderPreserving(texts);
      if requested != [] {
        assert texts[0] in Elements(texts);
      }
    } else {
      var c := Config(policy, rules, platform, requested, BoundedTargets(policy, NormalizedTargets(rules, requested)));
      var states: seq<State>, steps: seq<Step> :| IsRun(c, states, steps) && states[|steps|].main == Done(r);
      EveryStateKeepsInv(c, states, steps, |steps|);
    }
  }

  // ---------- The verdict ----------

  /** The recorded failure and the accepted adapter are written at most once. */
  lemma {:induction false} FailureAndSourceAreWriteOnce(states: seq<State>, steps: seq<Step>, j: nat, k: nat)
    requires Effective(states, steps) && j <= k < |states|
    ensures states[j].failure.Some? ==> states[k].failure == states[j].failure
    ensures states[j].source.Some? ==> states[k].source == states[j].source
    ensures states[j].parent != Live ==> states[k].parent == states[j].parent
    ensures states[j].batch != Live ==> states[k].batch == states[j].batch
  {
    if j < k {
      FailureAndSourceAreWriteOnce(states, steps, j, k - 1);
      assert EffectsAt(states, steps, k - 1);
    }
  }

  /** The first failure any worker recorded decides the verdict; without one, "cancelled"
      means the caller cancelled, "batch_timeout" that a deadline passed, and "completed" that
      both contexts were live when the commit point was reached. */
  lemma VerdictIsRight(c: Config, states: seq<State>, steps: seq<Step>, r: Report)
    requires IsRun(c, states, steps) && states[|steps|].main == Done(r)
    ensures forall k :: 0 <= k < |states| && states[k].failure.Some? ==>
      r.status == StatusStopped && r.reason == states[k].failure.value
    ensures (r.reason == StopSchedulerFailure || r.reason == StopInvalidProbeEvidence) ==>
      states[|steps|].failure == Some(r.reason)
    ensures r.status == StatusCancelled ==> states[|steps|].parent == Canceled
    ensures r.reason == StopBatchTimeout ==>
      states[|steps|].parent == DeadlineExceeded || (exists j :: 0 <= j < |steps| && steps[j].BatchTimerFires?)
    ensures r.status == StatusCompleted ==>
      exists k :: 0 <= k < |steps| && states[k].main == Parent1(true) && states[k].parent == states[k].batch == Live
  {
    EveryStateKeepsInv(c, states, steps, |steps|);
    RunsAreEffective(c, states, steps);
    forall k | 0 <= k < |states| && states[k].failure.Some?
      ensures states[|steps|].failure == states[k].failure
    {
      FailureAndSourceAreWriteOnce(states, steps, k, |steps|);
    }
    InitialHistory(c);
    HistoryIsTrue(states, steps, |steps|);
  }

  /** The history variables record what the run did. */
  lemma {:induction false} HistoryIsTrue(states: seq<State>, steps: seq<Step>, k: nat)
    requires Effective(states, steps) && k < |states|
    requires !states[0].timerFired && states[0].atCommit.None?
    ensures states[k].timerFired ==> exists j :: 0 <= j < k && steps[j].BatchTimerFires?
    ensures states[k].atCommit.Some? ==>
      exists j :: 0 <= j < k && states[j].main == Parent1(true) &&
                  states[k].atCommit.value == (states[j].parent, states[j].batch)
  {
    if k > 0 {
      HistoryIsTrue(states, steps, k - 1);
      assert EffectsAt(states, steps, k - 1);
    }
  }

  lemma DialAddsOne(s: State, step: Step, s': State)
    requires CountsDials(s, step, s')
    ensures Sum(s'.started) == Sum(s.started) + if Dials(s, step) then 1 else 0
  {
    if Dials(s, step) {
      var i := s.workers[step.w].i;
      SumUpdate(s.started, i, s.started[i] + 1);
    }
  }

  lemma CountingPrefix(states: seq<State>, steps: seq<Step>, k: nat)
    requires Counting(states, steps) && k <= |steps|
    ensures Counting(states[..k + 1], steps[..k])
  {
    var before, taken := states[..k + 1], steps[..k];
    forall j | 0 <= j < k ensures CountsAt(before, taken, j) {
      assert CountsAt(states, steps, j);
    }
  }

  lemma {:induction false} StartedCountsObservations(states: seq<State>, steps: seq<Step>)
    requires Counting(states, steps) && Sum(states[0].started) == 0
    ensures Sum(states[|steps|].started) == Observations(states[..|steps|], steps)
  {
    if steps != [] {
      var k := |steps| - 1;
      assert CountsAt(states, steps, k);
      CountingPrefix(states, steps, k);
      StartedCountsObservations(states[..k + 1], steps[..k]);
      assert states[..k + 1][..k] == states[..k] == states[..|steps|][..k];
      DialAddsOne(states[k], steps[k], states[k + 1]);
    }
  }

  lemma InitialHistory(c: Config)
    requires c.policy.Valid()
    ensures !Initial(c).timerFired && Initial(c).atCommit.None? && Sum(Initial(c).started) == 0
  {
    SumBounded(Initial(c).started, 0);
  }

  // ---------- The schedule ----------

  /** Each target is queued, owned by exactly one worker, or released; never two of these. */
  lemma NoTargetIsLostOrShared(c: Config, states: seq<State>, steps: seq<Step>, k: nat, i: nat)
    requires IsRun(c, states, steps) && k < |states| && i < |c.ips|
    ensures |states[k].targets| == |c.ips|
    ensures i in states[k].jobs ==> !Owned(states[k].workers, i)
    ensures i !in states[k].jobs && !Owned(states[k].workers, i) ==>
      Released(c.policy, states[k].targets[i], states[k].batch == Live)
    ensures forall v, w ::
      0 <= v < w < |states[k].workers| && states[k].workers[v].Owns() && states[k].workers[w].Owns() ==>
      states[k].workers[v].i != states[k].workers[w].i
    ensures forall a, b :: 0 <= a < b < |states[k].jobs| ==> states[k].jobs[a] != states[k].jobs[b]
  {
    EveryStateKeepsInv(c, states, steps, k);
    var s := states[k];
    if i >= |s.targets| - |s.jobs| {
      assert s.jobs[i - (|s.targets| - |s.jobs|)] == i;
    }
  }

  /** Only the stepping worker moves, and it touches only its own target or takes the next one. */
  predicate Moves(s: State, step: Step, s': State) {
    if !step.WorkerSteps? then s'.jobs == s.jobs && s'.workers == s.workers && s'.targets == s.targets
    else
      var w := step.w;
      && w < |s.workers| == |s'.workers| && s'.workers == s.workers[w := s'.workers[w]]
      && if s.workers[w].Owns() then
           var i := s.workers[w].i;
           && i < |s.targets| == |s'.targets|
           && s'.jobs == s.jobs && s'.targets == s.targets[i := s'.targets[i]]
           && (s'.workers[w].Owns() ==> s'.workers[w].i == i)
         else
           && s'.targets == s.targets
           && if s.jobs == [] then s'.jobs == [] && s'.workers[w] == Exited
              else s'.jobs == s.jobs[1..] && s'.workers[w] == CheckBatch(s.jobs[0])
  }

  lemma ReleasedStaysReleased(s: State, step: Step, s': State, i: nat)
    requires Moves(s, step, s') && i < |s.targets|
    requires i !in s.jobs && !Owned(s.workers, i)
    ensures i !in s'.jobs && !Owned(s'.workers, i) && |s'.targets| == |s.targets| && s'.targets[i] == s.targets[i]
  {
    if step.WorkerSteps? {
      var w := step.w;
      assert s.workers[w].Owns() ==> s.workers[w].i != i;
      assert s.jobs != [] ==> s.jobs[0] != i;
      forall v | 0 <= v < |s'.workers| && s'.workers[v].Owns() ensures s'.workers[v].i != i {
        assert v != w ==> s'.workers[v] == s.workers[v];
      }
    }
  }

  predicate MovesAt(states: seq<State>, steps: seq<Step>, k: nat)
    requires |states| == |steps| + 1 && k < |steps|
  {
    Moves(states[k], steps[k], states[k + 1])
  }

  predicate Moving(states: seq<State>, steps: seq<Step>) {
    |states| == |steps| + 1 && forall k :: 0 <= k < |steps| ==> MovesAt(states, steps, k)
  }

  lemma StepMoves(c: Config, s: State, step: Step)
    requires Enabled(c, s, step)
    ensures Moves(s, step, Next(c, s, step))
  {
    match step
    case WorkerSteps(w, answer) => WorkerOwnership(c, s, w, answer);
    case MainSteps => MainTouchesOnlyItself(c, s);
    case _ =>
  }

  lemma RunsMove(c: Config, states: seq<State>, steps: seq<Step>)
    requires IsRun(c, states, steps)
    ensures Moving(states, steps)
  {
    forall k | 0 <= k < |steps| ensures MovesAt(states, steps, k) {
      StepMoves(c, states[k], steps[k]);
    }
  }

  lemma {:induction false} StaysReleased(states: seq<State>, steps: seq<Step>, j: nat, k: nat, i: nat)
    requires Moving(states, steps) && j <= k < |states| && i < |states[j].targets|
    requires i !in states[j].jobs && !Owned(states[j].workers, i)
    ensures |states[k].targets| == |states[j].targets| && states[k].targets[i] == states[j].targets[i]
    ensures i !in states[k].jobs && !Owned(states[k].workers, i)
  {
    if j < k {
      StaysReleased(states, steps, j, k - 1, i);
      assert MovesAt(states, steps, k - 1);
      ReleasedStaysReleased(states[k - 1], steps[k - 1], states[k], i);
    }
  }

  /** A target that has left both the queue and its worker is final: it is never run again
      and its result never changes. */
  lemma ReleasedTargetsAreFinal(c: Config, states: seq<State>, steps: seq<Step>, j: nat, k: nat, i: nat)
    requires IsRun(c, states, steps) && j <= k < |states| && i < |c.ips|
    requires i !in states[j].jobs && !Owned(states[j].workers, i)
    ensures |states[j].targets| == |states[k].targets| == |c.ips|
    ensures i !in states[k].jobs && !Owned(states[k].workers, i) && states[k].targets[i] == states[j].targets[i]
  {
    EveryStateKeepsInv(c, states, steps, j);
    RunsMove(c, states, steps);
    StaysReleased(states, steps, j, k, i);
  }

  function InFlightWorkers(s: State): set<int> {
    set w | 0 <= w < |s.workers| && s.workers[w].InFlight?
  }

  /** The calls of `o.tls.Observe` that a run has made. */
  function Observations(states: seq<State>, steps: seq<Step>): nat
    requires |states| == |steps|
  {
    if steps == [] then 0
    else
      var k := |steps| - 1;
      Observations(states[..k], steps[..k]) + if Dials(states[k], steps[k]) then 1 else 0
  }

  /** At most `concurrencyLimit` observations are ever in flight, and a whole run makes
      at most `targetLimit * attemptLimit` of them. */
  lemma WorkIsBounded(c: Config, states: seq<State>, steps: seq<Step>)
    requires IsRun(c, states, steps)
    ensures forall k :: 0 <= k < |states| ==> |InFlightWorkers(states[k])| <= c.policy.concurrencyLimit
    ensures Observations(states[..|steps|], steps) <= c.policy.targetLimit * c.policy.attemptLimit
  {
    forall k | 0 <= k < |states| ensures |InFlightWorkers(states[k])| <= c.policy.concurrencyLimit {
      EveryStateKeepsInv(c, states, steps, k);
      IndexSetSize(InFlightWorkers(states[k]), |states[k].workers|);
    }
    var s := states[|steps|];
    EveryStateKeepsInv(c, states, steps, |steps|);
    RunsAreEffective(c, states, steps);
    InitialHistory(c);
    StartedCountsObservations(states, steps);
    assert forall i :: 0 <= i < |s.started| ==> TargetInv(c, c.ips[i], s.targets[i], s.started[i], s.source);
    SumBounded(s.started, c.policy.attemptLimit);
    assert |s.started| * c.policy.attemptLimit <= c.policy.targetLimit * c.policy.attemptLimit by {
      assert |s.started| <= c.policy.targetLimit;
      MulMonotone(|s.started|, c.policy.targetLimit, c.policy.attemptLimit);
    }
  }

  lemma MulMonotone(a: nat, b: nat, c: nat)
    requires a <= b
    ensures a * c <= b * c
  {
  }

  /** Whenever the scheduler-failure fallthrough is evaluated, every target has settled: it holds
      1 to `attemptLimit` attempts, each but the last retryable, and the last one either not
      retryable or numbered `attemptLimit`. So the fallthrough never fires. */
  lemma FallthroughIsUnreachable(c: Config, states: seq<State>, steps: seq<Step>, k: nat)
    requires IsRun(c, states, steps) && k < |states| && states[k].main == CheckTargets
    ensures MainNext(c, states[k]).main == Parent1(true)
    ensures forall i :: 0 <= i < |states[k].targets| ==>
      && 1 <= |states[k].targets[i].attempts| <= c.policy.attemptLimit
      && Settled(c.policy, states[k].targets[i].attempts)
      && forall a :: 0 <= a < |states[k].targets[i].attempts| - 1 ==>
           ShouldRetry(states[k].targets[i].attempts[a].observation)
  {
    EveryStateKeepsInv(c, states, steps, k);
    var s := states[k];
    forall i | 0 <= i < |s.targets|
      ensures Settled(c.policy, s.targets[i].attempts) && |s.targets[i].attempts| <= c.policy.attemptLimit
      ensures forall a :: 0 <= a < |s.targets[i].attempts| - 1 ==> ShouldRetry(s.targets[i].attempts[a].observation)
    {
      assert TargetInv(c, c.ips[i], s.targets[i], s.started[i], s.source);
      forall a | 0 <= a < |s.targets[i].attempts| - 1 ensures ShouldRetry(s.targets[i].attempts[a].observation) {
        assert AttemptOk(c.policy, c.rules, c.platform, c.ips[i], s.targets[i].attempts, a + 1);
      }
      CompletedIsSettled(c, s, i);
    }
  }

  lemma CompletedIsSettled(c: Config, s: State, i: nat)
    requires PoolInv(c, s) && i < |s.targets| && s.targets[i].status == TargetCompleted
    ensures Settled(c.policy, s.targets[i].attempts)
  {
    assert i < |s.targets| - |s.jobs|;
    forall w | 0 <= w < |s.workers| && s.workers[w].Owns() ensures s.workers[w].i != i {
      var j := s.workers[w].i;
      assert WorkerInv(c.policy, s.workers[w], s.targets[j], s.started[j], s.batch == Live, s.failure.Some?);
    }
    assert !Owned(s.workers, i);
  }

  // ---------- Termination ----------

  function RankSum(limit: nat, workers: seq<Worker>): nat {
    if workers == [] then 0
    else RankSum(limit, workers[..|workers| - 1]) + WorkerRank(limit, workers[|workers| - 1])
  }

  function QueueRank(limit: nat, queued: nat): nat {
    if queued == 0 then 0 else QueueRank(limit, queued - 1) + 3 + 10 * limit
  }

  function Measure(c: Config, s: State): nat {
    MainRank(s.main) + RankSum(c.policy.attemptLimit, s.workers) + QueueRank(c.policy.attemptLimit, |s.jobs|)
    + (if s.parent == Live then 1 else 0) + (if s.batch == Live then 1 else 0)
  }

  /** Up to the call of the TLS observer. */
  predicate Preparing(worker: Worker) {
    || worker.CheckBatch? || worker.StartAttempt? || worker.PickDelay? || worker.Waiting? || worker.WaitFailed?
    || worker.Dialing?
  }

  lemma PreparingDescends(c: Config, s: State, w: nat, answer: Answer)
    requires c.policy.Valid() && Enabled(c, s, WorkerSteps(w, answer)) && Preparing(s.workers[w])
    requires WorkerInv(c.policy, s.workers[w], s.targets[s.workers[w].i], s.started[s.workers[w].i],
                       s.batch == Live, s.failure.Some?)
    ensures WorkerRank(c.policy.attemptLimit, WorkerNext(c, s, w, answer).workers[w])
          < WorkerRank(c.policy.attemptLimit, s.workers[w])
  {
    match s.workers[w]
    case CheckBatch(i) =>
    case StartAttempt(i, n) =>
    case _ =>
  }

  lemma EndingDescends(c: Config, s: State, w: nat, answer: Answer)
    requires c.policy.Valid() && Enabled(c, s, WorkerSteps(w, answer))
    requires s.workers[w].Owns() && !Preparing(s.workers[w])
    ensures WorkerRank(c.policy.attemptLimit, WorkerNext(c, s, w, answer).workers[w])
          < WorkerRank(c.policy.attemptLimit, s.workers[w])
         || (s.workers[w].CheckAfter? && s.workers[w].n > c.policy.attemptLimit)
  {
    match s.workers[w]
    case CheckAfter(i, n, o) =>
    case Accepting(i, n, delay, o) =>
    case _ =>
  }

  lemma WorkerStepDescends(c: Config, s: State, w: nat, answer: Answer)
    requires c.policy.Valid() && Enabled(c, s, WorkerSteps(w, answer)) && s.workers[w].Owns()
    requires WorkerInv(c.policy, s.workers[w], s.targets[s.workers[w].i], s.started[s.workers[w].i],
                       s.batch == Live, s.failure.Some?)
    ensures WorkerRank(c.policy.attemptLimit, WorkerNext(c, s, w, answer).workers[w])
          < WorkerRank(c.policy.attemptLimit, s.workers[w])
  {
    if Preparing(s.workers[w]) {
      PreparingDescends(c, s, w, answer);
    } else {
      EndingDescends(c, s, w, answer);
    }
  }

  lemma {:induction false} RankSumUpdate(limit: nat, workers: seq<Worker>, w: nat, worker: Worker)
    requires w < |workers|
    ensures RankSum(limit, workers[w := worker]) + WorkerRank(limit, workers[w])
         == RankSum(limit, workers) + WorkerRank(limit, worker)
  {
    var last := |workers| - 1;
    if w == last {
      assert workers[w := worker][..last] == workers[..last];
    } else {
      RankSumUpdate(limit, workers[..last], w, worker);
      assert workers[w := worker][..last] == workers[..last][w := worker];
    }
  }

  /** What one worker still has to do, together with the queue. */
  function WorkAhead(c: Config, s: State, w: nat): nat
    requires w < |s.workers|
  {
    WorkerRank(c.policy.attemptLimit, s.workers[w]) + QueueRank(c.policy.attemptLimit, |s.jobs|)
  }

  /** What one worker loses, with the queue, the measure loses. */
  lemma MeasureDescends(c: Config, s: State, s': State, w: nat)
    requires w < |s.workers| == |s'.workers| && s'.workers == s.workers[w := s'.workers[w]]
    requires s'.main == s.main && s'.parent == s.parent && (s.batch != Live ==> s'.batch == s.batch)
    requires WorkAhead(c, s', w) < WorkAhead(c, s, w)
    ensures Measure(c, s') < Measure(c, s)
  {
    RankSumUpdate(c.policy.attemptLimit, s.workers, w, s'.workers[w]);
  }

  lemma WorkerDescends(c: Config, s: State, w: nat, answer: Answer)
    requires PoolInv(c, s) && Enabled(c, s, WorkerSteps(w, answer))
    ensures Measure(c, WorkerNext(c, s, w, answer)) < Measure(c, s)
  {
    WorkerEffects(c, s, w, answer);
    WorkerOwnership(c, s, w, answer);
    if s.workers[w].Owns() {
      WorkerStepDescends(c, s, w, answer);
    }
    MeasureDescends(c, s, WorkerNext(c, s, w, answer), w);
  }

  lemma StepDescends(c: Config, s: State, step: Step)
    requires PoolInv(c, s) && Enabled(c, s, step)
    ensures Measure(c, Next(c, s, step)) < Measure(c, s)
  {
    match step
    case WorkerSteps(w, answer) => WorkerDescends(c, s, w, answer);
    case MainSteps => MainEffects(c, s); MainTouchesOnlyItself(c, s);
    case _ =>
  }

  /** Every run is finite, whatever the interleaving: no run is longer than the initial measure. */
  lemma {:induction false} RunsAreFinite(c: Config, states: seq<State>, steps: seq<Step>)
    requires IsRun(c, states, steps)
    ensures |steps| + Measure(c, states[|steps|]) <= Measure(c, Initial(c))
  {
    if steps != [] {
      var k := |steps| - 1;
      assert IsRun(c, states[..k + 1], steps[..k]);
      RunsAreFinite(c, states[..k + 1], steps[..k]);
      EveryStateKeepsInv(c, states, steps, k);
      StepDescends(c, states[k], steps[k]);
    }
  }

  /** Until the report is returned, some goroutine can always take a step, so every run
      that cannot be continued has returned its report. */
  lemma NeverStuck(c: Config, states: seq<State>, steps: seq<Step>, answer: Answer)
    requires IsRun(c, states, steps) && !states[|steps|].main.Done?
    ensures exists step: Step :: step.OfProgram() && Enabled(c, states[|steps|], step)
  {
    var s := states[|steps|];
    EveryStateKeepsInv(c, states, steps, |steps|);
    if w :| 0 <= w < |s.workers| && s.main.Pool? && !s.workers[w].Exited? {
      assert Enabled(c, s, WorkerSteps(w, answer));
      assert WorkerSteps(w, answer).OfProgram();
    } else {
      assert Enabled(c, s, MainSteps);
      assert MainSteps.OfProgram();
    }
  }
}
