/** The inductive invariant of the TLS retry batch and its preservation by every step. */
module RetryInvariant {
  import opened Basics
  import opened RetryBatch
  import opened RetryScheduler

  /** What one target's recorded attempts always satisfy, whoever owns it. */
  predicate TargetInv(c: Config, ip: string, t: TargetResult, started: nat, source: Option<Source>)
    requires c.policy.Valid()
  {
    && t.dialIP == ip && t.family == c.rules.family(ip)
    && ScheduleOk(c.policy, c.rules, c.platform, ip, t.attempts)
    && (t.attempts != [] ==> source.Some? && FromSource(t.attempts, source.value))
    && |t.attempts| <= started <= c.policy.attemptLimit
  }

  /** Attempt `n` may start: the earlier ones are recorded and the last of them is retryable. */
  predicate ReadyFor(p: Policy, n: nat, t: TargetResult, started: nat) {
    && 1 <= n <= p.attemptLimit && |t.attempts| == n - 1 <= started
    && (n > 1 ==> ShouldRetry(t.attempts[n - 2].observation))
  }

  predicate DelayFits(p: Policy, n: nat, delay: int) {
    if n == 1 then delay == 0 else p.backoffMin <= delay <= p.backoffMax
  }

  /** What a worker knows about the target it owns. */
  predicate WorkerInv(p: Policy, worker: Worker, t: TargetResult, started: nat, live: bool, failed: bool)
    requires worker.Owns()
  {
    && t.status == TargetNotStarted
    && match worker
       case CheckBatch(_) => t.attempts == [] && started == 0
       case StartAttempt(_, n) => ReadyFor(p, n, t, started) && started == n - 1
       case PickDelay(_, n) => ReadyFor(p, n, t, started) && started == n - 1 && 2 <= n
       case Waiting(_, n, delay) => ReadyFor(p, n, t, started) && started == n - 1 && DelayFits(p, n, delay)
       case WaitFailed(_) => true
       case Dialing(_, n, delay) => ReadyFor(p, n, t, started) && started == n - 1 && DelayFits(p, n, delay)
       case InFlight(_, n, delay) => ReadyFor(p, n, t, started) && started == n && DelayFits(p, n, delay)
       case CheckLate(_, n, delay, _) => ReadyFor(p, n, t, started) && started == n && DelayFits(p, n, delay)
       case Accepting(_, n, delay, _) => ReadyFor(p, n, t, started) && started == n && DelayFits(p, n, delay)
       case CheckAfter(_, n, o) =>
         1 <= n <= p.attemptLimit && |t.attempts| == n == started && t.attempts[n - 1].observation == o
       case Failing(_, reason) => reason == StopInvalidProbeEvidence || reason == StopSchedulerFailure
       case Cancelling(_) => failed
       case Interrupting(_) => !live
  }

  ghost predicate Owned(workers: seq<Worker>, i: nat) {
    exists w :: 0 <= w < |workers| && workers[w].Owns() && workers[w].i == i
  }

  /** A target nobody will touch again: settled, or given up after cancellation. */
  predicate Released(p: Policy, t: TargetResult, live: bool) {
    match t.status
    case TargetCompleted => Settled(p, t.attempts)
    case TargetInterrupted => !live && t.attempts != []
    case TargetNotStarted => !live && t.attempts == []
  }

  /** The channel still holds the last targets, in order, untouched. */
  predicate JobsInv(jobs: seq<nat>, targets: seq<TargetResult>, started: seq<nat>) {
    && |jobs| <= |targets| == |started|
    && (forall k :: 0 <= k < |jobs| ==> jobs[k] == |targets| - |jobs| + k)
    && forall i :: |targets| - |jobs| <= i < |targets| ==>
         targets[i].status == TargetNotStarted && targets[i].attempts == [] && started[i] == 0
  }

  /** No two workers own the same target, and none owns one that is still queued. */
  predicate OwnersInv(workers: seq<Worker>, dequeued: int) {
    && (forall w :: 0 <= w < |workers| && workers[w].Owns() ==> workers[w].i < dequeued)
    && forall v, w :: 0 <= v < w < |workers| && workers[v].Owns() && workers[w].Owns() ==>
         workers[v].i != workers[w].i
  }

  ghost predicate WorkersInv(c: Config, s: State)
    requires |s.targets| == |s.started|
  {
    forall w :: 0 <= w < |s.workers| ==>
      && (s.workers[w].Exited? ==> s.batch != Live || s.jobs == [])
      && (s.workers[w].Owns() ==>
            && s.workers[w].i < |s.targets|
            && WorkerInv(c.policy, s.workers[w], s.targets[s.workers[w].i], s.started[s.workers[w].i],
                         s.batch == Live, s.failure.Some?))
  }

  ghost predicate TargetsInv(c: Config, s: State)
    requires c.policy.Valid() && |s.targets| == |s.started| == |c.ips|
  {
    forall i :: 0 <= i < |s.targets| ==> TargetInv(c, c.ips[i], s.targets[i], s.started[i], s.source)
  }

  /** Every target is queued, owned by a worker, or released: none is lost. */
  ghost predicate Covered(c: Config, s: State) {
    forall i :: 0 <= i < |s.targets| - |s.jobs| ==>
      Owned(s.workers, i) || Released(c.policy, s.targets[i], s.batch == Live)
  }

  predicate ContextInv(s: State) {
    && (s.batch == Canceled ==> s.parent == Canceled || s.failure.Some?)
    && (s.batch == DeadlineExceeded ==> s.parent == DeadlineExceeded || s.timerFired)
    && (s.failure.Some? ==> s.failure.value == StopInvalidProbeEvidence || s.failure.value == StopSchedulerFailure)
  }

  predicate AllCompleted(s: State) {
    forall i :: 0 <= i < |s.targets| ==> s.targets[i].status == TargetCompleted
  }

  predicate AllExited(s: State) {
    forall w :: 0 <= w < |s.workers| ==> s.workers[w].Exited?
  }

  /** The verdict is right for the run that led to it. */
  ghost predicate VerdictOk(c: Config, s: State, r: Report)
    requires c.policy.Valid()
  {
    && ValidReport(c.policy, c.rules, r)
    && r.targets == s.targets && r.platform == c.platform
    && r.input == Input(Items(NormalizedTargets(c.rules, c.requested)), c.policy)
    && (s.failure.Some? ==> r.status == StatusStopped && r.reason == s.failure.value)
    && (r.reason == StopSchedulerFailure || r.reason == StopInvalidProbeEvidence ==> s.failure == Some(r.reason))
    && (r.status == StatusCancelled ==> s.parent == Canceled)
    && (r.reason == StopBatchTimeout ==> s.parent == DeadlineExceeded || s.timerFired)
    && (r.status == StatusCompleted ==> s.atCommit == Some((Live, Live)) && s.failure.None?)
    && r.reason != StopInvalidInput
  }

  ghost predicate MainInv(c: Config, s: State)
    requires c.policy.Valid()
  {
    match s.main
    case Enter1 => s.failure.None? && Untouched(s)
    case Enter2 => s.failure.None? && Untouched(s)
    case Pool => true
    case ReadFailure => AllExited(s)
    case Parent1(commit) => AllExited(s) && s.failure.None? && (commit ==> AllCompleted(s))
    case Parent2(commit) => AllExited(s) && s.failure.None? && (commit ==> AllCompleted(s) && CommitInv(s))
    case Batch1(commit) => AllExited(s) && s.failure.None? && (commit ==> AllCompleted(s) && CommitInv(s))
    case Batch2(commit) =>
      && AllExited(s) && s.failure.None?
      && (s.batch == Canceled || AllCompleted(s))
      && (commit ==> AllCompleted(s) && CommitInv(s) && (s.batch == Canceled || s.atCommit.value.1 == Live))
    case CheckTargets => AllExited(s) && s.failure.None? && AllCompleted(s)
    case Done(r) => VerdictOk(c, s, r)
  }

  /** What was read at the commit point is still recorded, and contexts only ever end. */
  predicate CommitInv(s: State) {
    && s.atCommit.Some?
    && (s.main.Parent2? ==> s.atCommit.value.0 != Canceled)
    && (s.main.Parent2? && s.atCommit.value.0 != Live ==> s.parent == s.atCommit.value.0)
    && (!s.main.Parent2? ==> s.atCommit.value.0 == Live)
    && (s.atCommit.value.1 != Live ==> s.batch == s.atCommit.value.1)
  }

  predicate Untouched(s: State) {
    && |s.jobs| == |s.targets|
    && forall w :: 0 <= w < |s.workers| ==> s.workers[w].Fetch?
  }

  /** Everything except the main goroutine's own knowledge. */
  ghost predicate PoolInv(c: Config, s: State) {
    && c.policy.Valid()
    && |s.targets| == |s.started| == |c.ips| >= 1
    && |s.workers| == Min(c.policy.concurrencyLimit, |c.ips|)
    && JobsInv(s.jobs, s.targets, s.started) && OwnersInv(s.workers, |s.targets| - |s.jobs|) && ContextInv(s)
    && TargetsInv(c, s) && WorkersInv(c, s) && Covered(c, s)
  }

  ghost predicate Inv(c: Config, s: State) {
    PoolInv(c, s) && MainInv(c, s)
  }

  // ---------- The initial state ----------

  lemma IpsNotEmpty(c: Config)
    requires c.Valid()
    ensures |c.ips| >= 1
  {
    DedupIsOrderPreserving(Texts(c.rules, c.requested));
    var texts := Texts(c.rules, c.requested);
    assert texts[0] in Elements(texts);
  }

  lemma InitialInv(c: Config)
    requires c.Valid()
    ensures Inv(c, Initial(c))
  {
    IpsNotEmpty(c);
  }

  // ---------- Steps of a worker ----------

  /** What a step of worker `w`, owning target `i`, leaves alone. */
  ghost predicate Frame(s: State, s': State, w: nat, i: nat) {
    && w < |s.workers| == |s'.workers| && i < |s.targets| == |s'.targets| && i < |s.started| == |s'.started|
    && s' == s.(
         batch := s'.batch, failure := s'.failure, source := s'.source,
         workers := s.workers[w := s'.workers[w]],
         targets := s.targets[i := s'.targets[i]],
         started := s.started[i := s'.started[i]])
    && (s.batch != Live ==> s'.batch == s.batch)
    && (s.failure.Some? ==> s'.failure == s.failure)
    && (s.source.Some? ==> s'.source == s.source)
  }

  lemma OwnersKept(workers: seq<Worker>, w: nat, worker: Worker, dequeued: int)
    requires OwnersInv(workers, dequeued) && w < |workers| && workers[w].Owns()
    requires worker.Owns() ==> worker.i == workers[w].i
    ensures OwnersInv(workers[w := worker], dequeued)
    ensures forall j: nat :: Owned(workers, j) && j != workers[w].i ==> Owned(workers[w := worker], j)
    ensures worker.Owns() ==> Owned(workers[w := worker], workers[w].i)
  {
    var workers' := workers[w := worker];
    forall j: nat | Owned(workers, j) && j != workers[w].i ensures Owned(workers', j) {
      var v :| 0 <= v < |workers| && workers[v].Owns() && workers[v].i == j;
      assert workers'[v] == workers[v];
    }
    assert workers'[w] == worker;
  }

  lemma OthersKeepWorking(c: Config, s: State, s': State, w: nat, i: nat)
    requires |s.targets| == |s.started| && WorkersInv(c, s) && Frame(s, s', w, i)
    requires OwnersInv(s.workers, |s.targets| - |s.jobs|) && s.workers[w].Owns() && s.workers[w].i == i
    requires s'.workers[w].Exited? ==> s'.batch != Live
    requires s'.workers[w].Owns() ==>
      && s'.workers[w].i == i
      && WorkerInv(c.policy, s'.workers[w], s'.targets[i], s'.started[i], s'.batch == Live, s'.failure.Some?)
    ensures WorkersInv(c, s')
  {
    forall v | 0 <= v < |s.workers| && v != w
      ensures s'.workers[v] == s.workers[v] && (s.workers[v].Owns() ==> s.workers[v].i != i)
    {
    }
  }

  /** A step that only moves the worker that owns target `i`, and keeps or frees that target. */
  lemma OwnerStep(c: Config, s: State, s': State, w: nat, i: nat)
    requires PoolInv(c, s) && w < |s.workers| && s.workers[w].Owns() && s.workers[w].i == i
    requires Frame(s, s', w, i) && ContextInv(s')
    requires TargetInv(c, c.ips[i], s'.targets[i], s'.started[i], s'.source)
    requires s'.workers[w].Exited? ==> s'.batch != Live
    requires s'.workers[w].Owns() ==>
      && s'.workers[w].i == i
      && WorkerInv(c.policy, s'.workers[w], s'.targets[i], s'.started[i], s'.batch == Live, s'.failure.Some?)
    requires s'.workers[w].Owns() || Released(c.policy, s'.targets[i], s'.batch == Live)
    ensures PoolInv(c, s')
  {
    OthersKeepWorking(c, s, s', w, i);
    OwnersKept(s.workers, w, s'.workers[w], |s.targets| - |s.jobs|);
    assert TargetsInv(c, s');
    assert Covered(c, s');
  }

  /** A step that moves nothing but the worker that owns target `i`. */
  lemma MoveStep(c: Config, s: State, w: nat, i: nat, worker: Worker)
    requires PoolInv(c, s) && w < |s.workers| && s.workers[w].Owns() && s.workers[w].i == i
    requires worker.Exited? ==> s.batch != Live
    requires worker.Owns() ==>
      && worker.i == i
      && WorkerInv(c.policy, worker, s.targets[i], s.started[i], s.batch == Live, s.failure.Some?)
    requires worker.Owns() || Released(c.policy, s.targets[i], s.batch == Live)
    ensures PoolInv(c, s.(workers := s.workers[w := worker]))
  {
    OwnerStep(c, s, s.(workers := s.workers[w := worker]), w, i);
  }

  lemma FetchStep(c: Config, s: State, w: nat, answer: Answer)
    requires PoolInv(c, s) && Enabled(c, s, WorkerSteps(w, answer)) && s.workers[w].Fetch?
    ensures PoolInv(c, WorkerNext(c, s, w, answer))
  {
    var s' := WorkerNext(c, s, w, answer);
    forall j: nat | Owned(s.workers, j) ensures Owned(s'.workers, j) {
      var v :| 0 <= v < |s.workers| && s.workers[v].Owns() && s.workers[v].i == j;
      assert s'.workers[v] == s.workers[v];
    }
    if s.jobs != [] {
      assert s'.workers[w].Owns() && s'.workers[w].i == s.jobs[0];
      assert Owned(s'.workers, s.jobs[0]);
    }
  }

  /** Recording an admissible observation keeps the target's schedule valid. */
  lemma RecordKeepsSchedule(c: Config, ip: string, before: seq<Attempt>, n: nat, delay: int, o: TlsObservation)
    requires c.policy.Valid() && ScheduleOk(c.policy, c.rules, c.platform, ip, before)
    requires |before| == n - 1 && 1 <= n <= c.policy.attemptLimit && DelayFits(c.policy, n, delay)
    requires n > 1 ==> ShouldRetry(before[n - 2].observation)
    requires o.Valid() && o.platform == c.platform && o.input == ExpectedTlsInput(c.rules, ip)
    ensures ScheduleOk(c.policy, c.rules, c.platform, ip, before + [Attempt(n, Milliseconds(delay), o)])
  {
    var after := before + [Attempt(n, Milliseconds(delay), o)];
    forall k | 0 <= k < |after| ensures AttemptOk(c.policy, c.rules, c.platform, ip, after, k) {
      if k < |before| {
        assert AttemptOk(c.policy, c.rules, c.platform, ip, before, k);
      }
    }
  }

  /** A refused observation only moves the worker on to failing. */
  lemma RefuseStep(c: Config, s: State, w: nat, answer: Answer)
    requires PoolInv(c, s) && Enabled(c, s, WorkerSteps(w, answer)) && s.workers[w].Accepting?
    requires !Admissible(c, s, s.targets[s.workers[w].i].dialIP, s.workers[w].seen)
    ensures PoolInv(c, WorkerNext(c, s, w, answer))
  {
    MoveStep(c, s, w, s.workers[w].i, WorkerNext(c, s, w, answer).workers[w]);
  }

  /** An admissible observation becomes the target's next attempt. */
  lemma AcceptStep(c: Config, s: State, w: nat, answer: Answer)
    requires PoolInv(c, s) && Enabled(c, s, WorkerSteps(w, answer)) && s.workers[w].Accepting?
    requires Admissible(c, s, s.targets[s.workers[w].i].dialIP, s.workers[w].seen)
    ensures PoolInv(c, WorkerNext(c, s, w, answer))
  {
    var s' := WorkerNext(c, s, w, answer);
    var Accepting(i, n, delay, o) := s.workers[w];
    RecordKeepsSchedule(c, c.ips[i], s.targets[i].attempts, n, delay, o);
    OwnerStep(c, s, s', w, i);
  }

  lemma RecordStep(c: Config, s: State, w: nat, answer: Answer)
    requires PoolInv(c, s) && Enabled(c, s, WorkerSteps(w, answer)) && s.workers[w].Accepting?
    ensures PoolInv(c, WorkerNext(c, s, w, answer))
  {
    if Admissible(c, s, s.targets[s.workers[w].i].dialIP, s.workers[w].seen) {
      AcceptStep(c, s, w, answer);
    } else {
      RefuseStep(c, s, w, answer);
    }
  }

  /** The attempt loop up to the call of the TLS observer. */
  lemma PrepareStep(c: Config, s: State, w: nat, answer: Answer)
    requires PoolInv(c, s) && Enabled(c, s, WorkerSteps(w, answer))
    requires var k := s.workers[w]; k.CheckBatch? || k.StartAttempt? || k.PickDelay? || k.Waiting? || k.WaitFailed?
    ensures PoolInv(c, WorkerNext(c, s, w, answer))
  {
    MoveStep(c, s, w, s.workers[w].i, WorkerNext(c, s, w, answer).workers[w]);
  }

  /** The call of the TLS observer. */
  lemma DialStep(c: Config, s: State, w: nat, answer: Answer)
    requires PoolInv(c, s) && Enabled(c, s, WorkerSteps(w, answer)) && s.workers[w].Dialing?
    ensures PoolInv(c, WorkerNext(c, s, w, answer))
  {
    OwnerStep(c, s, WorkerNext(c, s, w, answer), w, s.workers[w].i);
  }

  /** Its answer, and the discarding of a late success. */
  lemma AnswerStep(c: Config, s: State, w: nat, answer: Answer)
    requires PoolInv(c, s) && Enabled(c, s, WorkerSteps(w, answer))
    requires s.workers[w].InFlight? || s.workers[w].CheckLate?
    ensures PoolInv(c, WorkerNext(c, s, w, answer))
  {
    MoveStep(c, s, w, s.workers[w].i, WorkerNext(c, s, w, answer).workers[w]);
  }

  /** The end of an attempt that settles the target. */
  lemma SettleStep(c: Config, s: State, w: nat, answer: Answer)
    requires PoolInv(c, s) && Enabled(c, s, WorkerSteps(w, answer)) && s.workers[w].CheckAfter?
    requires WorkerNext(c, s, w, answer).workers[w].Fetch?
    ensures PoolInv(c, WorkerNext(c, s, w, answer))
  {
    var s' := WorkerNext(c, s, w, answer);
    var i := s.workers[w].i;
    assert s' == s.(
      workers := s.workers[w := Fetch], targets := s.targets[i := s.targets[i].(status := TargetCompleted)]);
    OwnerStep(c, s, s', w, i);
  }

  /** The end of an attempt that is interrupted, failed, or to be repeated. */
  lemma GoOnStep(c: Config, s: State, w: nat, answer: Answer)
    requires PoolInv(c, s) && Enabled(c, s, WorkerSteps(w, answer)) && s.workers[w].CheckAfter?
    requires !WorkerNext(c, s, w, answer).workers[w].Fetch?
    ensures PoolInv(c, WorkerNext(c, s, w, answer))
  {
    var s' := WorkerNext(c, s, w, answer);
    assert s' == s.(workers := s.workers[w := s'.workers[w]]);
    MoveStep(c, s, w, s.workers[w].i, s'.workers[w]);
  }

  /** The end of an attempt. */
  lemma AfterStep(c: Config, s: State, w: nat, answer: Answer)
    requires PoolInv(c, s) && Enabled(c, s, WorkerSteps(w, answer)) && s.workers[w].CheckAfter?
    ensures PoolInv(c, WorkerNext(c, s, w, answer))
  {
    if WorkerNext(c, s, w, answer).workers[w].Fetch? {
      SettleStep(c, s, w, answer);
    } else {
      GoOnStep(c, s, w, answer);
    }
  }

  /** Recording a failure and cancelling the batch. */
  lemma FailStep(c: Config, s: State, w: nat, answer: Answer)
    requires PoolInv(c, s) && Enabled(c, s, WorkerSteps(w, answer))
    requires s.workers[w].Failing? || s.workers[w].Cancelling?
    ensures PoolInv(c, WorkerNext(c, s, w, answer))
  {
    OwnerStep(c, s, WorkerNext(c, s, w, answer), w, s.workers[w].i);
  }

  /** Giving the target up. */
  lemma InterruptStep(c: Config, s: State, w: nat, answer: Answer)
    requires PoolInv(c, s) && Enabled(c, s, WorkerSteps(w, answer)) && s.workers[w].Interrupting?
    ensures PoolInv(c, WorkerNext(c, s, w, answer))
  {
    OwnerStep(c, s, WorkerNext(c, s, w, answer), w, s.workers[w].i);
  }

  /** Recording a failure, cancelling the batch, and giving the target up. */
  lemma StopStep(c: Config, s: State, w: nat, answer: Answer)
    requires PoolInv(c, s) && Enabled(c, s, WorkerSteps(w, answer))
    requires var k := s.workers[w]; k.Failing? || k.Cancelling? || k.Interrupting?
    ensures PoolInv(c, WorkerNext(c, s, w, answer))
  {
    if s.workers[w].Interrupting? {
      InterruptStep(c, s, w, answer);
    } else {
      FailStep(c, s, w, answer);
    }
  }

  lemma WorkerStep(c: Config, s: State, w: nat, answer: Answer)
    requires PoolInv(c, s) && Enabled(c, s, WorkerSteps(w, answer))
    ensures PoolInv(c, WorkerNext(c, s, w, answer)) && WorkerNext(c, s, w, answer).main == Pool
  {
    match s.workers[w]
    case Fetch => FetchStep(c, s, w, answer);
    case Accepting(_, _, _, _) => RecordStep(c, s, w, answer);
    case Dialing(_, _, _) => DialStep(c, s, w, answer);
    case InFlight(_, _, _) => AnswerStep(c, s, w, answer);
    case CheckLate(_, _, _, _) => AnswerStep(c, s, w, answer);
    case CheckAfter(_, _, _) => AfterStep(c, s, w, answer);
    case Failing(_, _) => StopStep(c, s, w, answer);
    case Cancelling(_) => StopStep(c, s, w, answer);
    case Interrupting(_) => StopStep(c, s, w, answer);
    case _ => PrepareStep(c, s, w, answer);
  }

  // ---------- Steps of the environment and of the main goroutine ----------

  /** Contexts ending under the pool's feet break nothing. */
  lemma EnvironmentStep(c: Config, s: State, step: Step)
    requires Inv(c, s) && Enabled(c, s, step) && !step.OfProgram()
    ensures Inv(c, Next(c, s, step))
  {
    assert PoolInv(c, Next(c, s, step));
  }

  /** Once every worker has left a live batch, every target has settled. */
  lemma DrainedPoolHasSettled(c: Config, s: State)
    requires PoolInv(c, s) && AllExited(s) && s.batch == Live
    ensures AllCompleted(s)
  {
    assert s.workers[0].Exited?;
    assert s.jobs == [];
  }

  /** Any report assembled once no worker can run is one the validator accepts. */
  lemma EndingIsValid(c: Config, s: State, status: Status, reason: StopReason)
    requires c.Valid() && PoolInv(c, s) && (AllExited(s) || Untouched(s))
    requires status == StatusCompleted ==> reason == NoReason && AllCompleted(s)
    requires status == StatusStopped ==>
      reason == StopBatchTimeout || reason == StopInvalidProbeEvidence || reason == StopSchedulerFailure
    requires status == StatusCancelled ==> reason == StopCancelled
    ensures ValidReport(c.policy, c.rules, Ending(c, s, status, reason).main.report)
  {
    var r := Ending(c, s, status, reason).main.report;
    NormalizationIsFixpoint(c.policy, c.rules, c.requested);
    var expected := c.ips;
    forall i | 0 <= i < |expected| ensures TargetOk(c.policy, c.rules, r, r.targets[i], expected[i]) {
      RestingTargetIsOk(c, s, r, i);
    }
    forall i, j | 0 <= i < |r.targets| && 0 <= j < |r.targets|
      ensures SameSource(r.targets[i].attempts, r.targets[j].attempts)
    {
      assert TargetInv(c, expected[i], s.targets[i], s.started[i], s.source);
      assert TargetInv(c, expected[j], s.targets[j], s.started[j], s.source);
    }
  }

  lemma RestingTargetIsOk(c: Config, s: State, r: Report, i: nat)
    requires PoolInv(c, s) && (AllExited(s) || Untouched(s)) && i < |s.targets|
    requires r.platform == c.platform && (r.status == StatusCompleted ==> AllCompleted(s))
    ensures TargetOk(c.policy, c.rules, r, s.targets[i], c.ips[i])
  {
    var t := s.targets[i];
    assert TargetInv(c, c.ips[i], t, s.started[i], s.source);
    forall k | 0 <= k < |t.attempts| - 1 ensures !t.attempts[k].observation.outcome.Cancelled? {
      assert AttemptOk(c.policy, c.rules, c.platform, t.dialIP, t.attempts, k + 1);
    }
    if i < |s.targets| - |s.jobs| {
      assert Owned(s.workers, i) || Released(c.policy, t, s.batch == Live);
    }
  }

  lemma MainTouchesOnlyItself(c: Config, s: State)
    requires Enabled(c, s, MainSteps)
    ensures var s' := MainNext(c, s); s' == s.(main := s'.main, atCommit := s'.atCommit)
  {
  }

  lemma PoolInvIgnoresMain(c: Config, s: State, main: Main, atCommit: Option<(ContextError, ContextError)>)
    requires PoolInv(c, s)
    ensures PoolInv(c, s.(main := main, atCommit := atCommit))
  {
  }

  /** While the main goroutine goes on, it only learns true things. */
  lemma MainGoesOn(c: Config, s: State)
    requires Inv(c, s) && Enabled(c, s, MainSteps) && !MainNext(c, s).main.Done?
    ensures MainInv(c, MainNext(c, s))
  {
    if (s.main.Batch1? || s.main.Batch2?) && s.batch == Live {
      DrainedPoolHasSettled(c, s);
    }
  }

  lemma MainEnds(c: Config, s: State)
    requires c.Valid() && Inv(c, s) && Enabled(c, s, MainSteps) && MainNext(c, s).main.Done?
    ensures MainInv(c, MainNext(c, s))
  {
    var r := MainNext(c, s).main.report;
    EndingIsValid(c, s, r.status, r.reason);
  }

  lemma StepKeepsInv(c: Config, s: State, step: Step)
    requires c.Valid() && Inv(c, s) && Enabled(c, s, step)
    ensures Inv(c, Next(c, s, step))
  {
    match step
    case WorkerSteps(w, answer) => WorkerStep(c, s, w, answer);
    case MainSteps =>
      MainTouchesOnlyItself(c, s);
      PoolInvIgnoresMain(c, s, MainNext(c, s).main, MainNext(c, s).atCommit);
      if MainNext(c, s).main.Done? { MainEnds(c, s); } else { MainGoesOn(c, s); }
    case _ => EnvironmentStep(c, s, step);
  }
}
