/** What every run of the TLS retry batch did before it dialled, recorded, settled, failed or reported. */
module RetryHistory {
  import opened Basics
  import opened RetryBatch
  import opened RetryScheduler
  import opened RetryInvariant
  import opened RetryTheorems

  // ---------- What happened in one step ----------

  /** In step `j` a worker moves that owns a target. */
  predicate OwnerMoves(states: seq<State>, steps: seq<Step>, j: nat) {
    && j < |steps| && j < |states| && steps[j].WorkerSteps? && steps[j].w < |states[j].workers|
    && states[j].workers[steps[j].w].Owns()
  }

  function Mover(states: seq<State>, steps: seq<Step>, j: nat): Worker
    requires OwnerMoves(states, steps, j)
  {
    states[j].workers[steps[j].w]
  }

  /** The check before attempt `n` of target `i` found the batch live. */
  predicate StartedAt(states: seq<State>, steps: seq<Step>, j: nat, i: nat, n: nat) {
    && OwnerMoves(states, steps, j) && Mover(states, steps, j) == StartAttempt(i, n)
    && states[j].batch == Live
  }

  /** A delay within the bounds was picked for attempt `n`. */
  predicate PickedAt(c: Config, states: seq<State>, steps: seq<Step>, j: nat, i: nat, n: nat, delay: int) {
    && OwnerMoves(states, steps, j) && Mover(states, steps, j) == PickDelay(i, n)
    && steps[j].answer.delay == delay && c.policy.backoffMin <= delay <= c.policy.backoffMax
  }

  /** That delay was waited out. */
  predicate WaitedAt(states: seq<State>, steps: seq<Step>, j: nat, i: nat, n: nat, delay: int) {
    && OwnerMoves(states, steps, j) && Mover(states, steps, j) == Waiting(i, n, delay)
    && !steps[j].answer.waitFails
  }

  /** The TLS observer answered attempt `n` of target `i` with `o`. */
  predicate AnsweredAt(states: seq<State>, steps: seq<Step>, j: nat, i: nat, n: nat, o: TlsObservation) {
    && OwnerMoves(states, steps, j)
    && var worker := Mover(states, steps, j);
       worker.InFlight? && worker.i == i && worker.n == n && steps[j].answer.observation == o
  }

  predicate LiveAt(states: seq<State>, m: nat) { m < |states| && states[m].batch == Live }

  /** The check after attempt `n` was recorded found the batch live. */
  predicate CheckedAt(states: seq<State>, steps: seq<Step>, j: nat, i: nat, n: nat) {
    && OwnerMoves(states, steps, j) && states[j].batch == Live
    && var worker := Mover(states, steps, j);
       worker.CheckAfter? && worker.i == i && worker.n == n && worker.seen.outcome != Cancelled
  }

  // ---------- What happened before a step ----------

  ghost predicate StartedBefore(states: seq<State>, steps: seq<Step>, k: nat, i: nat, n: nat) {
    exists j: nat :: j < k && StartedAt(states, steps, j, i, n)
  }

  ghost predicate PickedBefore(c: Config, states: seq<State>, steps: seq<Step>, k: nat, i: nat, n: nat, delay: int) {
    exists j: nat :: j < k && PickedAt(c, states, steps, j, i, n, delay) && StartedBefore(states, steps, j, i, n)
  }

  ghost predicate WaitedBefore(c: Config, states: seq<State>, steps: seq<Step>, k: nat, i: nat, n: nat, delay: int) {
    exists j: nat ::
      j < k && WaitedAt(states, steps, j, i, n, delay) && PickedBefore(c, states, steps, j, i, n, delay)
  }

  /** Attempt `n` may be dialled: a check found the batch live, and for a retry a delay within the bounds was then
      picked and waited out. */
  ghost predicate MayDial(c: Config, states: seq<State>, steps: seq<Step>, k: nat, i: nat, n: nat, delay: int) {
    if n <= 1 then delay == 0 && StartedBefore(states, steps, k, i, n)
    else WaitedBefore(c, states, steps, k, i, n, delay)
  }

  ghost predicate AnsweredBefore(
    c: Config, states: seq<State>, steps: seq<Step>, k: nat, i: nat, n: nat, delay: int, o: TlsObservation)
  {
    exists j: nat :: j < k && AnsweredAt(states, steps, j, i, n, o) && MayDial(c, states, steps, j, i, n, delay)
  }

  ghost predicate LiveBetween(states: seq<State>, j: nat, k: nat) {
    exists m: nat :: j < m < k && LiveAt(states, m)
  }

  /** The answer may be recorded: it was given to this attempt, and if it is a success the batch was live after it. */
  ghost predicate Earned(
    c: Config, states: seq<State>, steps: seq<Step>, k: nat, i: nat, n: nat, delay: int, o: TlsObservation)
  {
    exists j: nat ::
      && j < k && AnsweredAt(states, steps, j, i, n, o) && MayDial(c, states, steps, j, i, n, delay)
      && (o.outcome == Succeeded ==> LiveBetween(states, j, k))
  }

  /** A delay out of bounds was picked for target `i`. */
  predicate BadDelayAt(c: Config, states: seq<State>, steps: seq<Step>, j: nat, i: nat) {
    && OwnerMoves(states, steps, j) && Mover(states, steps, j).PickDelay? && Mover(states, steps, j).i == i
    && !(c.policy.backoffMin <= steps[j].answer.delay <= c.policy.backoffMax)
  }

  predicate WaitFailedAt(states: seq<State>, steps: seq<Step>, j: nat, i: nat) {
    && OwnerMoves(states, steps, j) && Mover(states, steps, j).Waiting? && Mover(states, steps, j).i == i
    && steps[j].answer.waitFails
  }

  /** An answer was refused as evidence. */
  predicate RefusedAt(c: Config, states: seq<State>, steps: seq<Step>, j: nat, i: nat) {
    && OwnerMoves(states, steps, j) && Mover(states, steps, j).Accepting? && Mover(states, steps, j).i == i
    && i < |states[j].targets|
    && !Admissible(c, states[j], states[j].targets[i].dialIP, Mover(states, steps, j).seen)
  }

  /** A recorded attempt claims a cancellation, although the batch is live. */
  predicate FalselyCancelledAt(states: seq<State>, steps: seq<Step>, j: nat, i: nat) {
    && OwnerMoves(states, steps, j) && Mover(states, steps, j).CheckAfter? && Mover(states, steps, j).i == i
    && Mover(states, steps, j).seen.outcome == Cancelled && states[j].batch == Live
  }

  ghost predicate WaitFailedBefore(states: seq<State>, steps: seq<Step>, k: nat, i: nat) {
    exists j: nat :: j < k && WaitFailedAt(states, steps, j, i)
  }

  /** Target `i` gave that reason to fail: as scheduler failure, a delay out of bounds, or a wait that failed in a live
      batch; as invalid evidence, a refused answer, or a cancellation that nobody asked for. */
  ghost predicate Caused(c: Config, states: seq<State>, steps: seq<Step>, k: nat, i: nat, reason: StopReason) {
    match reason
    case StopSchedulerFailure =>
      || (exists j: nat :: j < k && BadDelayAt(c, states, steps, j, i))
      || (exists j: nat :: j < k && WaitFailedAt(states, steps, j, i) && LiveBetween(states, j, k))
    case StopInvalidProbeEvidence =>
      || (exists j: nat :: j < k && RefusedAt(c, states, steps, j, i))
      || (exists j: nat :: j < k && FalselyCancelledAt(states, steps, j, i))
    case _ => false
  }

  // ---------- What is always known ----------

  /** What the worker stands for has happened. */
  ghost predicate Knows(c: Config, states: seq<State>, steps: seq<Step>, k: nat, worker: Worker) {
    match worker
    case PickDelay(i, n) => n > 1 && StartedBefore(states, steps, k, i, n)
    case Waiting(i, n, delay) => n > 1 && PickedBefore(c, states, steps, k, i, n, delay)
    case WaitFailed(i) => WaitFailedBefore(states, steps, k, i)
    case Dialing(i, n, delay) => MayDial(c, states, steps, k, i, n, delay)
    case InFlight(i, n, delay) => MayDial(c, states, steps, k, i, n, delay)
    case CheckLate(i, n, delay, o) => AnsweredBefore(c, states, steps, k, i, n, delay, o)
    case Accepting(i, n, delay, o) => Earned(c, states, steps, k, i, n, delay, o)
    case Failing(i, reason) => Caused(c, states, steps, k, i, reason)
    case _ => true
  }

  ghost predicate AttemptEarned(c: Config, states: seq<State>, steps: seq<Step>, k: nat, i: nat, attempt: Attempt) {
    attempt.number >= 0 &&
    exists delay: int ::
      attempt.retryDelayMs == Milliseconds(delay)
      && Earned(c, states, steps, k, i, attempt.number, delay, attempt.observation)
  }

  /** Every recorded attempt was earned, and a completed target was still wanted after its last one. */
  ghost predicate TargetEarned(c: Config, states: seq<State>, steps: seq<Step>, k: nat, i: nat, t: TargetResult) {
    && (forall a :: 0 <= a < |t.attempts| ==> AttemptEarned(c, states, steps, k, i, t.attempts[a]))
    && (t.status == TargetCompleted ==> exists j: nat :: j < k && CheckedAt(states, steps, j, i, |t.attempts|))
  }

  ghost predicate FailureCaused(c: Config, states: seq<State>, steps: seq<Step>, k: nat, failure: Option<StopReason>) {
    failure.Some? ==> exists i: nat :: Caused(c, states, steps, k, i, failure.value)
  }

  ghost predicate WorkersKnow(c: Config, states: seq<State>, steps: seq<Step>, k: nat, workers: seq<Worker>) {
    forall w :: 0 <= w < |workers| ==> Knows(c, states, steps, k, workers[w])
  }

  ghost predicate TargetsEarned(c: Config, states: seq<State>, steps: seq<Step>, k: nat, targets: seq<TargetResult>) {
    forall i :: 0 <= i < |targets| ==> TargetEarned(c, states, steps, k, i, targets[i])
  }

  ghost predicate AllKnown(c: Config, states: seq<State>, steps: seq<Step>, k: nat)
    requires k < |states|
  {
    && WorkersKnow(c, states, steps, k, states[k].workers)
    && TargetsEarned(c, states, steps, k, states[k].targets)
    && FailureCaused(c, states, steps, k, states[k].failure)
  }

  // ---------- What is known stays known ----------

  lemma StillEarnedBy(
    c: Config, states: seq<State>, steps: seq<Step>, k: nat, i: nat, n: nat, delay: int, o: TlsObservation)
    requires Earned(c, states, steps, k, i, n, delay, o)
    ensures Earned(c, states, steps, k + 1, i, n, delay, o)
  {
    var j: nat :|
      && j < k && AnsweredAt(states, steps, j, i, n, o) && MayDial(c, states, steps, j, i, n, delay)
      && (o.outcome == Succeeded ==> LiveBetween(states, j, k));
    assert o.outcome == Succeeded ==> LiveBetween(states, j, k + 1);
  }

  lemma StillCausedBy(c: Config, states: seq<State>, steps: seq<Step>, k: nat, i: nat, reason: StopReason)
    requires Caused(c, states, steps, k, i, reason)
    ensures Caused(c, states, steps, k + 1, i, reason)
  {
    if reason == StopSchedulerFailure {
      if j: nat :| j < k && WaitFailedAt(states, steps, j, i) && LiveBetween(states, j, k) {
        assert LiveBetween(states, j, k + 1);
      }
    }
  }

  lemma StillKnows(c: Config, states: seq<State>, steps: seq<Step>, k: nat, worker: Worker)
    requires Knows(c, states, steps, k, worker)
    ensures Knows(c, states, steps, k + 1, worker)
  {
    match worker
    case Accepting(i, n, delay, o) => StillEarnedBy(c, states, steps, k, i, n, delay, o);
    case Failing(i, reason) => StillCausedBy(c, states, steps, k, i, reason);
    case _ =>
  }

  lemma StillEarned(c: Config, states: seq<State>, steps: seq<Step>, k: nat, i: nat, t: TargetResult)
    requires TargetEarned(c, states, steps, k, i, t)
    ensures TargetEarned(c, states, steps, k + 1, i, t)
  {
    forall a | 0 <= a < |t.attempts| ensures AttemptEarned(c, states, steps, k + 1, i, t.attempts[a]) {
      var attempt := t.attempts[a];
      assert AttemptEarned(c, states, steps, k, i, attempt);
      var delay: int :|
        attempt.retryDelayMs == Milliseconds(delay)
        && Earned(c, states, steps, k, i, attempt.number, delay, attempt.observation);
      StillEarnedBy(c, states, steps, k, i, attempt.number, delay, attempt.observation);
    }
  }

  lemma StillCaused(c: Config, states: seq<State>, steps: seq<Step>, k: nat, failure: Option<StopReason>)
    requires FailureCaused(c, states, steps, k, failure)
    ensures FailureCaused(c, states, steps, k + 1, failure)
  {
    if failure.Some? {
      var i: nat :| Caused(c, states, steps, k, i, failure.value);
      StillCausedBy(c, states, steps, k, i, failure.value);
    }
  }

  // ---------- What one step of a worker adds ----------

  /** Step `k` is taken, by a worker. */
  predicate WorkerTakes(c: Config, states: seq<State>, steps: seq<Step>, k: nat) {
    && |states| == |steps| + 1 && k < |steps| && steps[k].WorkerSteps?
    && Enabled(c, states[k], steps[k]) && states[k + 1] == Next(c, states[k], steps[k])
  }

  function Before(states: seq<State>, steps: seq<Step>, k: nat): Worker
    requires |states| == |steps| + 1 && k < |steps| && steps[k].WorkerSteps? && steps[k].w < |states[k].workers|
  {
    states[k].workers[steps[k].w]
  }

  function After(c: Config, states: seq<State>, steps: seq<Step>, k: nat): Worker
    requires WorkerTakes(c, states, steps, k)
  {
    WorkerNext(c, states[k], steps[k].w, steps[k].answer).workers[steps[k].w]
  }

  lemma PreparingKnows(c: Config, states: seq<State>, steps: seq<Step>, k: nat)
    requires WorkerTakes(c, states, steps, k) && Knows(c, states, steps, k, Before(states, steps, k))
    requires var b := Before(states, steps, k); b.Fetch? || b.CheckBatch? || b.StartAttempt? || b.PickDelay?
    ensures Knows(c, states, steps, k + 1, After(c, states, steps, k))
  {
    match Before(states, steps, k)
    case StartAttempt(i, n) =>
      assert states[k].batch == Live ==> StartedAt(states, steps, k, i, n);
    case PickDelay(i, n) =>
      var delay := steps[k].answer.delay;
      assert PickedAt(c, states, steps, k, i, n, delay) || BadDelayAt(c, states, steps, k, i);
    case _ =>
  }

  lemma WaitingKnows(c: Config, states: seq<State>, steps: seq<Step>, k: nat)
    requires WorkerTakes(c, states, steps, k) && Knows(c, states, steps, k, Before(states, steps, k))
    requires Before(states, steps, k).Waiting? || Before(states, steps, k).WaitFailed?
    ensures Knows(c, states, steps, k + 1, After(c, states, steps, k))
  {
    match Before(states, steps, k)
    case Waiting(i, n, delay) =>
      assert WaitedAt(states, steps, k, i, n, delay) || WaitFailedAt(states, steps, k, i);
    case WaitFailed(i) =>
      var j: nat :| j < k && WaitFailedAt(states, steps, j, i);
      assert states[k].batch == Live ==> LiveAt(states, k) && LiveBetween(states, j, k + 1);
    case _ =>
  }

  lemma DialingKnows(c: Config, states: seq<State>, steps: seq<Step>, k: nat)
    requires WorkerTakes(c, states, steps, k) && Knows(c, states, steps, k, Before(states, steps, k))
    requires Before(states, steps, k).Dialing? || Before(states, steps, k).InFlight?
    ensures Knows(c, states, steps, k + 1, After(c, states, steps, k))
  {
    match Before(states, steps, k)
    case Dialing(i, n, delay) => StillKnows(c, states, steps, k, InFlight(i, n, delay));
    case InFlight(i, n, delay) => assert AnsweredAt(states, steps, k, i, n, steps[k].answer.observation);
    case _ =>
  }

  lemma CheckingKnows(c: Config, states: seq<State>, steps: seq<Step>, k: nat)
    requires WorkerTakes(c, states, steps, k) && Knows(c, states, steps, k, Before(states, steps, k))
    requires Before(states, steps, k).CheckLate?
    ensures Knows(c, states, steps, k + 1, After(c, states, steps, k))
  {
    var CheckLate(i, n, delay, o) := Before(states, steps, k);
    var j: nat :| j < k && AnsweredAt(states, steps, j, i, n, o) && MayDial(c, states, steps, j, i, n, delay);
    assert states[k].batch == Live ==> LiveAt(states, k) && LiveBetween(states, j, k + 1);
  }

  lemma EndingKnows(c: Config, states: seq<State>, steps: seq<Step>, k: nat)
    requires WorkerTakes(c, states, steps, k) && Knows(c, states, steps, k, Before(states, steps, k))
    requires var b := Before(states, steps, k);
      b.Accepting? || b.CheckAfter? || b.Failing? || b.Cancelling? || b.Interrupting?
    ensures Knows(c, states, steps, k + 1, After(c, states, steps, k))
  {
    match Before(states, steps, k)
    case Accepting(i, n, delay, o) => assert After(c, states, steps, k).Failing? ==> RefusedAt(c, states, steps, k, i);
    case CheckAfter(i, n, o) =>
      assert After(c, states, steps, k).Failing? ==> FalselyCancelledAt(states, steps, k, i);
    case _ =>
  }

  lemma MoverKnows(c: Config, states: seq<State>, steps: seq<Step>, k: nat)
    requires WorkerTakes(c, states, steps, k) && Knows(c, states, steps, k, Before(states, steps, k))
    ensures Knows(c, states, steps, k + 1, After(c, states, steps, k))
  {
    match Before(states, steps, k)
    case Fetch => PreparingKnows(c, states, steps, k);
    case CheckBatch(_) => PreparingKnows(c, states, steps, k);
    case StartAttempt(_, _) => PreparingKnows(c, states, steps, k);
    case PickDelay(_, _) => PreparingKnows(c, states, steps, k);
    case Waiting(_, _, _) => WaitingKnows(c, states, steps, k);
    case WaitFailed(_) => WaitingKnows(c, states, steps, k);
    case Dialing(_, _, _) => DialingKnows(c, states, steps, k);
    case InFlight(_, _, _) => DialingKnows(c, states, steps, k);
    case CheckLate(_, _, _, _) => CheckingKnows(c, states, steps, k);
    case _ => EndingKnows(c, states, steps, k);
  }

  /** The target of the worker that moved: one more attempt if it accepts one, completed if it settles. */
  lemma MoverEarned(c: Config, states: seq<State>, steps: seq<Step>, k: nat, i: nat)
    requires WorkerTakes(c, states, steps, k) && Knows(c, states, steps, k, Before(states, steps, k))
    requires Before(states, steps, k).Owns() && Before(states, steps, k).i == i < |states[k].targets|
    requires TargetEarned(c, states, steps, k, i, states[k].targets[i])
    requires Before(states, steps, k).CheckAfter? ==> |states[k].targets[i].attempts| == Before(states, steps, k).n
    requires states[k].targets[i].status != TargetCompleted
    ensures i < |states[k + 1].targets| && TargetEarned(c, states, steps, k + 1, i, states[k + 1].targets[i])
  {
    var t, t' := states[k].targets[i], states[k + 1].targets[i];
    StillEarned(c, states, steps, k, i, t);
    var before := Before(states, steps, k);
    if before.Accepting? {
      var attempt := Attempt(before.n, Milliseconds(before.delay), before.seen);
      StillEarnedBy(c, states, steps, k, i, before.n, before.delay, before.seen);
      assert t'.attempts == t.attempts || t'.attempts == t.attempts + [attempt];
      assert AttemptEarned(c, states, steps, k + 1, i, attempt);
    } else {
      assert t'.attempts == t.attempts;
      assert t'.status == TargetCompleted ==> CheckedAt(states, steps, k, i, before.n);
    }
  }

  lemma MoverCaused(c: Config, states: seq<State>, steps: seq<Step>, k: nat)
    requires WorkerTakes(c, states, steps, k) && Knows(c, states, steps, k, Before(states, steps, k))
    requires FailureCaused(c, states, steps, k, states[k].failure)
    ensures FailureCaused(c, states, steps, k + 1, states[k + 1].failure)
  {
    StillCaused(c, states, steps, k, states[k].failure);
    match Before(states, steps, k)
    case Failing(i, reason) => StillCausedBy(c, states, steps, k, i, reason);
    case _ =>
  }

  // ---------- Every run ----------

  lemma NothingIsKnownAtFirst(c: Config, states: seq<State>, steps: seq<Step>)
    requires IsRun(c, states, steps)
    ensures AllKnown(c, states, steps, 0)
  {
    forall i | 0 <= i < |states[0].targets| ensures TargetEarned(c, states, steps, 0, i, states[0].targets[i]) {
      assert states[0].targets[i].attempts == [] && states[0].targets[i].status == TargetNotStarted;
    }
    forall w | 0 <= w < |states[0].workers| ensures Knows(c, states, steps, 0, states[0].workers[w]) {
      assert states[0].workers[w] == Fetch;
    }
  }

  /** A step of another goroutine or of the environment changes nothing that is known. */
  lemma OthersAddNothing(c: Config, states: seq<State>, steps: seq<Step>, k: nat)
    requires IsRun(c, states, steps) && k < |steps| && !steps[k].WorkerSteps? && AllKnown(c, states, steps, k)
    ensures AllKnown(c, states, steps, k + 1)
  {
    var next := k + 1;
    StepMoves(c, states[k], steps[k]);
    FailureIsAWorkers(c, states[k], steps[k]);
    StillCaused(c, states, steps, k, states[k].failure);
    forall w | 0 <= w < |states[next].workers| ensures Knows(c, states, steps, next, states[next].workers[w]) {
      StillKnows(c, states, steps, k, states[k].workers[w]);
    }
    forall i | 0 <= i < |states[next].targets|
      ensures TargetEarned(c, states, steps, next, i, states[next].targets[i])
    {
      StillEarned(c, states, steps, k, i, states[k].targets[i]);
    }
  }

  lemma FailureIsAWorkers(c: Config, s: State, step: Step)
    requires Enabled(c, s, step) && !step.WorkerSteps?
    ensures Next(c, s, step).failure == s.failure
  {
  }

  lemma WorkersAdd(c: Config, states: seq<State>, steps: seq<Step>, k: nat)
    requires IsRun(c, states, steps) && k < |steps| && steps[k].WorkerSteps? && AllKnown(c, states, steps, k)
    ensures WorkersKnow(c, states, steps, k + 1, states[k + 1].workers)
  {
    var next := k + 1;
    StepMoves(c, states[k], steps[k]);
    MoverKnows(c, states, steps, k);
    forall w | 0 <= w < |states[next].workers| ensures Knows(c, states, steps, next, states[next].workers[w]) {
      if w != steps[k].w {
        StillKnows(c, states, steps, k, states[k].workers[w]);
      }
    }
  }

  /** What the invariant says of the worker that moves. */
  lemma MoverIsOwner(c: Config, s: State, w: nat)
    requires PoolInv(c, s) && w < |s.workers| && s.workers[w].Owns()
    ensures s.workers[w].i < |s.targets| && s.targets[s.workers[w].i].status == TargetNotStarted
    ensures s.workers[w].CheckAfter? ==> |s.targets[s.workers[w].i].attempts| == s.workers[w].n
    ensures s.workers[w].Accepting? ==> |s.targets[s.workers[w].i].attempts| == s.workers[w].n - 1
  {
    assert WorkerInv(c.policy, s.workers[w], s.targets[s.workers[w].i], s.started[s.workers[w].i],
                     s.batch == Live, s.failure.Some?);
  }

  lemma TargetsAdd(c: Config, states: seq<State>, steps: seq<Step>, k: nat)
    requires IsRun(c, states, steps) && k < |steps| && steps[k].WorkerSteps? && AllKnown(c, states, steps, k)
    ensures TargetsEarned(c, states, steps, k + 1, states[k + 1].targets)
  {
    var w, next := steps[k].w, k + 1;
    StepMoves(c, states[k], steps[k]);
    EveryStateKeepsInv(c, states, steps, k);
    if states[k].workers[w].Owns() {
      MoverIsOwner(c, states[k], w);
      MoverEarned(c, states, steps, k, states[k].workers[w].i);
    }
    forall i | 0 <= i < |states[next].targets|
      ensures TargetEarned(c, states, steps, next, i, states[next].targets[i])
    {
      if !(states[k].workers[w].Owns() && states[k].workers[w].i == i) {
        StillEarned(c, states, steps, k, i, states[k].targets[i]);
      }
    }
  }

  lemma {:induction false} EverythingIsKnown(c: Config, states: seq<State>, steps: seq<Step>, k: nat)
    requires IsRun(c, states, steps) && k < |states|
    ensures AllKnown(c, states, steps, k)
  {
    if k == 0 {
      NothingIsKnownAtFirst(c, states, steps);
    } else {
      EverythingIsKnown(c, states, steps, k - 1);
      if steps[k - 1].WorkerSteps? {
        WorkersAdd(c, states, steps, k - 1);
        TargetsAdd(c, states, steps, k - 1);
        MoverCaused(c, states, steps, k - 1);
      } else {
        OthersAddNothing(c, states, steps, k - 1);
      }
    }
  }

  // ---------- What the report may rely on ----------

  /** The TLS observer is called for an attempt only after a check found the batch live, and for a retry only after a
      delay within the bounds was picked and waited out. */
  lemma DialsWereAllowed(c: Config, states: seq<State>, steps: seq<Step>, k: nat)
    requires IsRun(c, states, steps) && k < |steps| && Dials(states[k], steps[k])
    ensures var Dialing(i, n, delay) := states[k].workers[steps[k].w]; MayDial(c, states, steps, k, i, n, delay)
  {
    EverythingIsKnown(c, states, steps, k);
    assert Knows(c, states, steps, k, states[k].workers[steps[k].w]);
  }

  /** Every recorded attempt is what the TLS observer answered to that very attempt, made after the delay it records; a
      success only if the batch was still live after the answer. */
  lemma AttemptsWereObserved(c: Config, states: seq<State>, steps: seq<Step>, k: nat, i: nat, a: nat)
      returns (delay: int)
    requires IsRun(c, states, steps) && k < |states| && i < |states[k].targets| && a < |states[k].targets[i].attempts|
    ensures var attempt := states[k].targets[i].attempts[a];
      && attempt.number == a + 1 && attempt.retryDelayMs == Milliseconds(delay)
      && Earned(c, states, steps, k, i, a + 1, delay, attempt.observation)
  {
    var attempt := states[k].targets[i].attempts[a];
    AttemptsAreNumbered(c, states, steps, k, i, a);
    AttemptIsEarned(c, states, steps, k, i, a);
    delay :| attempt.retryDelayMs == Milliseconds(delay)
      && Earned(c, states, steps, k, i, attempt.number, delay, attempt.observation);
  }

  lemma AttemptsAreNumbered(c: Config, states: seq<State>, steps: seq<Step>, k: nat, i: nat, a: nat)
    requires IsRun(c, states, steps) && k < |states| && i < |states[k].targets| && a < |states[k].targets[i].attempts|
    ensures states[k].targets[i].attempts[a].number == a + 1
  {
    EveryStateKeepsInv(c, states, steps, k);
    var s := states[k];
    assert TargetInv(c, c.ips[i], s.targets[i], s.started[i], s.source);
    assert AttemptOk(c.policy, c.rules, c.platform, c.ips[i], s.targets[i].attempts, a);
  }

  lemma AttemptIsEarned(c: Config, states: seq<State>, steps: seq<Step>, k: nat, i: nat, a: nat)
    requires IsRun(c, states, steps) && k < |states| && i < |states[k].targets| && a < |states[k].targets[i].attempts|
    ensures AttemptEarned(c, states, steps, k, i, states[k].targets[i].attempts[a])
  {
    EverythingIsKnown(c, states, steps, k);
    assert TargetEarned(c, states, steps, k, i, states[k].targets[i]);
  }

  /** A recorded success was answered while the batch was live. */
  lemma SuccessesWereInTime(c: Config, states: seq<State>, steps: seq<Step>, k: nat, i: nat, a: nat)
    requires IsRun(c, states, steps) && k < |states| && i < |states[k].targets| && a < |states[k].targets[i].attempts|
    requires states[k].targets[i].attempts[a].observation.outcome == Succeeded
    ensures exists j: nat ::
      && j < k && AnsweredAt(states, steps, j, i, a + 1, states[k].targets[i].attempts[a].observation)
      && states[j].batch == states[j + 1].batch == Live
  {
    var o := states[k].targets[i].attempts[a].observation;
    var delay := AttemptsWereObserved(c, states, steps, k, i, a);
    var j := AnsweredInTime(c, states, steps, k, i, a + 1, delay, o);
  }

  lemma AnsweredInTime(
    c: Config, states: seq<State>, steps: seq<Step>, k: nat, i: nat, n: nat, delay: int, o: TlsObservation)
      returns (j: nat)
    requires IsRun(c, states, steps) && k < |states| && o.outcome == Succeeded
    requires Earned(c, states, steps, k, i, n, delay, o)
    ensures j < k && AnsweredAt(states, steps, j, i, n, o) && states[j].batch == states[j + 1].batch == Live
  {
    j :|
      && j < k && AnsweredAt(states, steps, j, i, n, o) && MayDial(c, states, steps, j, i, n, delay)
      && (o.outcome == Succeeded ==> LiveBetween(states, j, k));
    var m: nat :| j < m < k && LiveAt(states, m);
    RunsAreEffective(c, states, steps);
    FailureAndSourceAreWriteOnce(states, steps, j, m);
    FailureAndSourceAreWriteOnce(states, steps, j + 1, m);
  }

  /** A target is completed only if the check after its last attempt found the batch live. */
  lemma CompletedWhileLive(c: Config, states: seq<State>, steps: seq<Step>, k: nat, i: nat)
    requires IsRun(c, states, steps) && k < |states| && i < |states[k].targets|
    requires states[k].targets[i].status == TargetCompleted
    ensures exists j: nat :: j < k && CheckedAt(states, steps, j, i, |states[k].targets[i].attempts|)
  {
    EverythingIsKnown(c, states, steps, k);
    assert TargetEarned(c, states, steps, k, i, states[k].targets[i]);
  }

  /** Whatever failure the batch records, some target gave that reason. */
  lemma FailuresHaveACause(c: Config, states: seq<State>, steps: seq<Step>, k: nat)
    requires IsRun(c, states, steps) && k < |states| && states[k].failure.Some?
    ensures exists i: nat :: Caused(c, states, steps, k, i, states[k].failure.value)
  {
    EverythingIsKnown(c, states, steps, k);
  }

  // ---------- No answer is lost ----------

  predicate Decides(worker: Worker, i: nat, n: nat, o: TlsObservation) {
    && (worker.CheckLate? || worker.Accepting?)
    && worker.i == i && worker.n == n && worker.seen == o
  }

  /** Worker `w` has the answer and decides about it. */
  predicate Pending(s: State, w: nat, i: nat, n: nat, o: TlsObservation) {
    w < |s.workers| && Decides(s.workers[w], i, n, o)
  }

  predicate RecordedAs(s: State, i: nat, n: nat, o: TlsObservation) {
    i < |s.targets| && 1 <= n <= |s.targets[i].attempts| && s.targets[i].attempts[n - 1].observation == o
  }

  /** The batch ended before the answer was looked at. */
  ghost predicate EndedBetween(states: seq<State>, j: nat, k: nat) {
    exists m: nat :: j < m < k && m < |states| && states[m].batch != Live
  }

  ghost predicate RefusedBetween(
    c: Config, states: seq<State>, steps: seq<Step>, j: nat, k: nat, i: nat, o: TlsObservation)
  {
    exists m: nat :: j < m < k && RefusedAt(c, states, steps, m, i) && Mover(states, steps, m).seen == o
  }

  /** What has become of the answer given in step `j`. */
  ghost predicate Fate(
    c: Config, states: seq<State>, steps: seq<Step>, j: nat, k: nat, w: nat, i: nat, n: nat, o: TlsObservation)
    requires k < |states|
  {
    || Pending(states[k], w, i, n, o)
    || RecordedAs(states[k], i, n, o)
    || (o.outcome == Succeeded && EndedBetween(states, j, k))
    || RefusedBetween(c, states, steps, j, k, i, o)
  }

  /** Attempts are only ever added. */
  lemma RecordedStays(c: Config, s: State, step: Step, i: nat, n: nat, o: TlsObservation)
    requires PoolInv(c, s) && Enabled(c, s, step) && RecordedAs(s, i, n, o)
    ensures RecordedAs(Next(c, s, step), i, n, o)
  {
    StepMoves(c, s, step);
    if step.WorkerSteps? && s.workers[step.w].Owns() && s.workers[step.w].i == i {
      AttemptsGrow(c, s, step.w, step.answer);
    }
  }

  lemma AttemptsGrow(c: Config, s: State, w: nat, answer: Answer)
    requires Enabled(c, s, WorkerSteps(w, answer)) && s.workers[w].Owns()
    ensures var i, s' := s.workers[w].i, WorkerNext(c, s, w, answer);
      && i < |s'.targets|
      && (s'.targets[i].attempts == s.targets[i].attempts
          || exists attempt :: s'.targets[i].attempts == s.targets[i].attempts + [attempt])
  {
    if s.workers[w].Accepting? {
      var worker, t := s.workers[w], s.targets[s.workers[w].i];
      var attempt := Attempt(worker.n, Milliseconds(worker.delay), worker.seen);
      assert WorkerNext(c, s, w, answer).targets[worker.i].attempts == t.attempts
          || WorkerNext(c, s, w, answer).targets[worker.i].attempts == t.attempts + [attempt];
    }
  }

  /** The worker that has the answer decides: late, refused, or recorded. */
  lemma AnswerIsDecided(c: Config, states: seq<State>, steps: seq<Step>, j: nat, k: nat,
                        w: nat, i: nat, n: nat, o: TlsObservation)
    requires WorkerTakes(c, states, steps, k) && PoolInv(c, states[k]) && steps[k].w == w && j < k
    requires Pending(states[k], w, i, n, o)
    ensures Fate(c, states, steps, j, k + 1, w, i, n, o)
  {
    MoverIsOwner(c, states[k], w);
    if states[k].workers[w].CheckLate? {
      assert states[k].batch != Live ==> EndedBetween(states, j, k + 1);
    } else if !Admissible(c, states[k], states[k].targets[i].dialIP, o) {
      assert RefusedAt(c, states, steps, k, i) && Mover(states, steps, k).seen == o;
    }
  }

  lemma {:induction false} FateIsSealed(c: Config, states: seq<State>, steps: seq<Step>, j: nat, k: nat,
                                        i: nat, n: nat, o: TlsObservation)
    requires IsRun(c, states, steps) && j < k < |states| && AnsweredAt(states, steps, j, i, n, o)
    ensures Fate(c, states, steps, j, k, steps[j].w, i, n, o)
  {
    var w := steps[j].w;
    if k == j + 1 {
    } else {
      FateIsSealed(c, states, steps, j, k - 1, i, n, o);
      EveryStateKeepsInv(c, states, steps, k - 1);
      FateStays(c, states, steps, j, k - 1, w, i, n, o);
    }
  }

  lemma FateStays(c: Config, states: seq<State>, steps: seq<Step>, j: nat, k: nat,
                  w: nat, i: nat, n: nat, o: TlsObservation)
    requires IsRun(c, states, steps) && j < k < |steps| && PoolInv(c, states[k])
    requires Fate(c, states, steps, j, k, w, i, n, o)
    ensures Fate(c, states, steps, j, k + 1, w, i, n, o)
  {
    if Pending(states[k], w, i, n, o) {
      if steps[k].WorkerSteps? && steps[k].w == w {
        AnswerIsDecided(c, states, steps, j, k, w, i, n, o);
      } else {
        StepMoves(c, states[k], steps[k]);
      }
    } else if RecordedAs(states[k], i, n, o) {
      RecordedStays(c, states[k], steps[k], i, n, o);
    }
  }

  /** Every answer counts: once no worker has it any more, it is the attempt it was given to, unless it was a success
      that came when the batch had ended, or was refused as evidence. */
  lemma NoAnswerIsLost(c: Config, states: seq<State>, steps: seq<Step>, j: nat, k: nat,
                       i: nat, n: nat, o: TlsObservation)
    requires IsRun(c, states, steps) && j < k < |states| && AnsweredAt(states, steps, j, i, n, o)
    requires !Pending(states[k], steps[j].w, i, n, o)
    ensures RecordedAs(states[k], i, n, o)
         || (o.outcome == Succeeded && EndedBetween(states, j, k))
         || RefusedBetween(c, states, steps, j, k, i, o)
  {
    FateIsSealed(c, states, steps, j, k, i, n, o);
  }
}
