/** internal/tlsretrybatch/observer.go: the worker pool as a state machine.

    Every access to shared state is one step: a receive from the job channel, one
    read of a context, one section under the run-state mutex, one call of a
    dependency. Steps of different goroutines interleave freely, and the
    environment may end either context between any two of them. */
module RetryScheduler {
  import opened Basics
  import opened RetryBatch

  /** What one accepted request fixes before the pool starts; `ips` are the scheduled targets. */
  datatype Config = Config(
    policy: Policy, rules: AddressRules, platform: Platform, requested: seq<string>, ips: seq<string>)
  {
    ghost predicate Valid() {
      && policy.Valid() && rules.Idempotent()
      && !Rejects(policy, rules, requested)
      && ips == BoundedTargets(policy, NormalizedTargets(rules, requested))
    }
  }

  /** Where one worker goroutine stands; `i` is the target it owns, `n` the attempt number. */
  datatype Worker =
    | Fetch                                                          // range jobs
    | CheckBatch(i: nat)                                             // batchCtx.Err() before runTarget
    | StartAttempt(i: nat, n: nat)                                   // ctx.Err() at the top of the loop
    | PickDelay(i: nat, n: nat)                                      // o.retryDelay()
    | Waiting(i: nat, n: nat, delay: int)                            // o.wait
    | WaitFailed(i: nat)                                             // ctx.Err() after a failed wait
    | Dialing(i: nat, n: nat, delay: int)                            // o.tls.Observe is called
    | InFlight(i: nat, n: nat, delay: int)                           // o.tls.Observe has not returned
    | CheckLate(i: nat, n: nat, delay: int, seen: TlsObservation)    // late success?
    | Accepting(i: nat, n: nat, delay: int, seen: TlsObservation)    // validateObservation, then append
    | CheckAfter(i: nat, n: nat, seen: TlsObservation)               // ctx.Err() after the append
    | Failing(i: nat, reason: StopReason)                            // state.fail under the mutex
    | Cancelling(i: nat)                                             // s.cancel()
    | Interrupting(i: nat)                                           // interruptTarget
    | Exited
  {
    predicate Owns() { !Fetch? && !Exited? }
  }

  /** Where the calling goroutine stands. `commit` tells the second verdict from the first. */
  datatype Main =
    | Enter1 | Enter2                       // parentTerminal(ctx)
    | Pool                                  // workers.Wait()
    | ReadFailure                           // state.getFailure()
    | Parent1(commit: bool) | Parent2(commit: bool)
    | Batch1(commit: bool) | Batch2(commit: bool)
    | CheckTargets                          // the scheduler-failure fallthrough
    | Done(report: Report)

  /** `started`, `timerFired` and `atCommit` are history: nothing in the run reads them. */
  datatype State = State(
    parent: ContextError,
    batch: ContextError,
    jobs: seq<nat>,
    failure: Option<StopReason>,
    source: Option<Source>,
    targets: seq<TargetResult>,
    workers: seq<Worker>,
    main: Main,
    started: seq<nat>,
    timerFired: bool,
    atCommit: Option<(ContextError, ContextError)>)

  /** What a dependency returns when a worker calls it. */
  datatype Answer = Answer(delay: int, waitFails: bool, observation: TlsObservation)

  datatype Step =
    | ParentEnds(error: ContextError)
    | BatchInherits
    | BatchTimerFires
    | WorkerSteps(w: nat, answer: Answer)
    | MainSteps
  {
    predicate OfProgram() { WorkerSteps? || MainSteps? }
  }

  function Initial(c: Config): State
    requires c.policy.Valid()
  {
    var n := |c.ips|;
    State(
      Live, Live,
      seq(n, i => i),
      None, None,
      seq(n, i requires 0 <= i < n => TargetResult(c.ips[i], c.rules.family(c.ips[i]), TargetNotStarted, [])),
      seq(Min(c.policy.concurrencyLimit, n), i => Fetch),
      Enter1,
      seq(n, i => 0), false, None)
  }

  predicate Enabled(c: Config, s: State, step: Step) {
    match step
    case ParentEnds(e) => s.parent == Live && e != Live
    case BatchInherits => !s.main.Enter1? && !s.main.Enter2? && s.batch == Live && s.parent != Live
    case BatchTimerFires => !s.main.Enter1? && !s.main.Enter2? && s.batch == Live
    case WorkerSteps(w, _) =>
      && s.main.Pool? && w < |s.workers| && !s.workers[w].Exited?
      && (s.workers[w].Owns() ==> s.workers[w].i < |s.targets| == |s.started|)
    case MainSteps =>
      match s.main
      case Pool => forall w :: 0 <= w < |s.workers| ==> s.workers[w].Exited?
      case Done(_) => false
      case _ => true
  }

  function Next(c: Config, s: State, step: Step): State
    requires Enabled(c, s, step)
  {
    match step
    case ParentEnds(e) => s.(parent := e)
    case BatchInherits => s.(batch := s.parent)
    case BatchTimerFires => s.(batch := DeadlineExceeded, timerFired := true)
    case WorkerSteps(w, answer) => WorkerNext(c, s, w, answer)
    case MainSteps => MainNext(c, s)
  }

  function To(s: State, w: nat, worker: Worker): State
    requires w < |s.workers|
  {
    s.(workers := s.workers[w := worker])
  }

  /** `interruptTarget`. */
  function Interrupted(t: TargetResult): TargetResult {
    t.(status := if t.attempts == [] then TargetNotStarted else TargetInterrupted)
  }

  predicate Admissible(c: Config, s: State, ip: string, o: TlsObservation) {
    && o.Valid()
    && o.platform == c.platform && o.input == ExpectedTlsInput(c.rules, ip)
    && (s.source.Some? ==> o.source == s.source.value)
  }

  function WorkerNext(c: Config, s: State, w: nat, answer: Answer): State
    requires Enabled(c, s, WorkerSteps(w, answer))
  {
    match s.workers[w]
    case Fetch =>
      if s.jobs == [] then To(s, w, Exited)
      else To(s, w, CheckBatch(s.jobs[0])).(jobs := s.jobs[1..])
    case CheckBatch(i) =>
      To(s, w, if s.batch != Live then Exited else StartAttempt(i, 1))
    case StartAttempt(i, n) =>
      To(s, w, if s.batch != Live then Interrupting(i) else if n > 1 then PickDelay(i, n) else Dialing(i, n, 0))
    case PickDelay(i, n) =>
      To(s, w,
        if c.policy.backoffMin <= answer.delay <= c.policy.backoffMax
        then Waiting(i, n, answer.delay) else Failing(i, StopSchedulerFailure))
    case Waiting(i, n, delay) =>
      To(s, w, if answer.waitFails then WaitFailed(i) else Dialing(i, n, delay))
    case WaitFailed(i) =>
      To(s, w, if s.batch == Live then Failing(i, StopSchedulerFailure) else Interrupting(i))
    case Dialing(i, n, delay) =>
      To(s, w, InFlight(i, n, delay)).(started := s.started[i := s.started[i] + 1])
    case InFlight(i, n, delay) =>
      To(s, w, CheckLate(i, n, delay, answer.observation))
    case CheckLate(i, n, delay, o) =>
      To(s, w, if s.batch != Live && o.outcome == Succeeded then Interrupting(i) else Accepting(i, n, delay, o))
    case Accepting(i, n, delay, o) =>
      var t := s.targets[i];
      if !Admissible(c, s, t.dialIP, o) then To(s, w, Failing(i, StopInvalidProbeEvidence))
      else
        var attempt := Attempt(n, Milliseconds(delay), o);
        To(s, w, CheckAfter(i, n, o)).(
          source := Some(o.source),
          targets := s.targets[i := t.(attempts := t.attempts + [attempt])])
    case CheckAfter(i, n, o) =>
      if s.batch != Live then To(s, w, Interrupting(i))
      else if o.outcome == Cancelled then To(s, w, Failing(i, StopInvalidProbeEvidence))
      else if !ShouldRetry(o) || n == c.policy.attemptLimit then
        To(s, w, Fetch).(targets := s.targets[i := s.targets[i].(status := TargetCompleted)])
      else To(s, w, StartAttempt(i, n + 1))
    case Failing(i, reason) =>
      To(s, w, Cancelling(i)).(failure := if s.failure.None? then Some(reason) else s.failure)
    case Cancelling(i) =>
      To(s, w, Interrupting(i)).(batch := if s.batch == Live then Canceled else s.batch)
    case Interrupting(i) =>
      To(s, w, Fetch).(targets := s.targets[i := Interrupted(s.targets[i])])
  }

  /** `finish`, which turns an empty target list into a nil slice. */
  function Finish(platform: Platform, policy: Policy, targets: seq<string>, omitted: int,
                  results: seq<TargetResult>, status: Status, reason: StopReason): Report
  {
    Report(
      platform,
      Input(if targets == [] then Nil else Items(targets), policy),
      status, reason,
      if status == StatusCompleted then NoText else Text,
      omitted, results)
  }

  function Ending(c: Config, s: State, status: Status, reason: StopReason): State {
    var targets := NormalizedTargets(c.rules, c.requested);
    s.(main := Done(Finish(
      c.platform, c.policy, targets, OmittedTargets(c.policy, targets), s.targets, status, reason)))
  }

  function MainNext(c: Config, s: State): State
    requires Enabled(c, s, MainSteps)
  {
    match s.main
    case Enter1 =>
      if s.parent == Canceled then Ending(c, s, StatusCancelled, StopCancelled) else s.(main := Enter2)
    case Enter2 =>
      if s.parent == DeadlineExceeded then Ending(c, s, StatusStopped, StopBatchTimeout) else s.(main := Pool)
    case Pool => s.(main := ReadFailure)
    case ReadFailure =>
      if s.failure.Some? then Ending(c, s, StatusStopped, s.failure.value) else s.(main := Parent1(false))
    case Parent1(commit) =>
      var s' := if commit then s.(atCommit := Some((s.parent, s.batch))) else s;
      if s.parent == Canceled then Ending(c, s', StatusCancelled, StopCancelled) else s'.(main := Parent2(commit))
    case Parent2(commit) =>
      if s.parent == DeadlineExceeded then Ending(c, s, StatusStopped, StopBatchTimeout) else s.(main := Batch1(commit))
    case Batch1(commit) =>
      if s.batch == DeadlineExceeded then Ending(c, s, StatusStopped, StopBatchTimeout) else s.(main := Batch2(commit))
    case Batch2(commit) =>
      if s.batch == Canceled then Ending(c, s, StatusCancelled, StopCancelled)
      else if commit then Ending(c, s, StatusCompleted, NoReason)
      else s.(main := CheckTargets)
    case CheckTargets =>
      if exists i :: 0 <= i < |s.targets| && s.targets[i].status != TargetCompleted
      then Ending(c, s, StatusStopped, StopSchedulerFailure)
      else s.(main := Parent1(true))
  }
}
