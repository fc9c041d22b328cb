/** internal/tlsretrybatch: the report, the fixed policy, request normalisation,
    the retry rule, and the validator that re-derives the schedule. */
module RetryBatch {
  import opened Basics

  /** The fixed limits, kept symbolic. Delays are in nanoseconds. */
  datatype Policy = Policy(
    targetLimit: nat,
    requestTargetLimit: nat,
    concurrencyLimit: nat,
    attemptLimit: nat,
    backoffMin: int,
    backoffMax: int)
  {
    predicate Valid() {
      && 1 <= targetLimit && 1 <= concurrencyLimit && 1 <= attemptLimit
      && 0 <= backoffMin <= backoffMax
    }
  }

  const NANOSECONDS_PER_MILLISECOND := 1_000_000

  const SOURCE_POLICY := Policy(4, 16, 2, 3, 100_000_000, 300_000_000)

  /** Duration.Milliseconds, which truncates toward zero. */
  function Milliseconds(duration: int): int {
    if duration < 0 then -(-duration / NANOSECONDS_PER_MILLISECOND) else duration / NANOSECONDS_PER_MILLISECOND
  }

  /** Literal-address parsing (nettarget.NormalizePublicIP), left uninterpreted. */
  datatype AddressRules = AddressRules(
    text: string -> string,
    allowed: string -> bool,
    family: string -> Family)
  {
    /** Printing an address and parsing it again changes nothing. */
    ghost predicate Idempotent() {
      forall v :: text(text(v)) == text(v) && allowed(text(v)) == allowed(v)
    }
  }

  // ---------- Embedded TLS observations ----------

  datatype TlsInput = TlsInput(
    dialIP: string, family: Family, port: nat, sniMode: string, identityVerification: string)

  datatype FailureCode = TcpTimeout | TcpConnectionReset | CancelledCode | OtherFailure

  datatype UnconfirmedReason = HandshakeTimeout | ConnectionReset | OtherReason

  datatype TlsEvidence = TlsCompleted | TlsUnconfirmed(reason: UnconfirmedReason)

  /** `wellFormed` stands for the field checks of tlsobservation.Validate that the
      scheduler does not look at. */
  datatype TlsObservation = TlsObservation(
    platform: Platform,
    source: Source,
    input: TlsInput,
    outcome: Outcome,
    failure: Option<FailureCode>,
    evidence: Option<TlsEvidence>,
    wellFormed: bool)
  {
    predicate Valid() {
      && wellFormed
      && match outcome
         case Succeeded => evidence.Some? && failure.None?
         case Failed => evidence.None? && failure.Some? && failure.value != CancelledCode
         case Cancelled => evidence.None? && failure == Some(CancelledCode)
    }
  }

  function ExpectedTlsInput(rules: AddressRules, ip: string): TlsInput {
    TlsInput(ip, rules.family(ip), 443, "omitted_no_hostname", "not_performed_no_hostname")
  }

  predicate ShouldRetry(o: TlsObservation) {
    match o.outcome
    case Failed => o.failure == Some(TcpTimeout) || o.failure == Some(TcpConnectionReset)
    case Succeeded =>
      && o.evidence.Some? && o.evidence.value.TlsUnconfirmed?
      && (o.evidence.value.reason == HandshakeTimeout || o.evidence.value.reason == ConnectionReset)
    case Cancelled => false
  }

  // ---------- The report ----------

  datatype Status = StatusCompleted | StatusStopped | StatusCancelled

  datatype StopReason =
    | NoReason
    | StopInvalidInput
    | StopBatchTimeout
    | StopCancelled
    | StopInvalidProbeEvidence
    | StopSchedulerFailure

  datatype TargetStatus = TargetCompleted | TargetInterrupted | TargetNotStarted

  datatype Attempt = Attempt(number: int, retryDelayMs: int, observation: TlsObservation)

  datatype TargetResult = TargetResult(
    dialIP: string, family: Family, status: TargetStatus, attempts: seq<Attempt>)

  datatype Input = Input(targets: Slice<string>, policy: Policy)

  datatype Report = Report(
    platform: Platform,
    input: Input,
    status: Status,
    reason: StopReason,
    detail: Detail,
    omitted: int,
    targets: seq<TargetResult>)

  // ---------- Request normalisation ----------

  function Texts(rules: AddressRules, values: seq<string>): (texts: seq<string>)
    ensures |texts| == |values|
    ensures forall i :: 0 <= i < |values| ==> texts[i] == rules.text(values[i])
  {
    seq(|values|, i requires 0 <= i < |values| => rules.text(values[i]))
  }

  /** The first occurrence of every value, in order. */
  function Dedup(s: seq<string>): seq<string> {
    if s == [] then []
    else
      var earlier := Dedup(s[..|s| - 1]);
      if s[|s| - 1] in earlier then earlier else earlier + [s[|s| - 1]]
  }

  predicate Rejects(policy: Policy, rules: AddressRules, values: seq<string>) {
    || values == []
    || (exists v | v in values :: !rules.allowed(v))
    || |Dedup(Texts(rules, values))| > policy.requestTargetLimit
  }

  function NormalizedTargets(rules: AddressRules, values: seq<string>): seq<string> {
    Dedup(Texts(rules, values))
  }

  method NormalizeRequest(policy: Policy, rules: AddressRules, values: seq<string>)
      returns (input: Input, rejected: bool)
    ensures input == Input(Items(NormalizedTargets(rules, values)), policy)
    ensures rejected == Rejects(policy, rules, values)
  {
    var targets: seq<string> := [];
    var seen: set<string> := {};
    var failed := false;
    for i := 0 to |values|
      invariant targets == Dedup(Texts(rules, values)[..i])
      invariant seen == Elements(targets)
      invariant failed == exists v | v in values[..i] :: !rules.allowed(v)
    {
      var text := rules.text(values[i]);
      assert Texts(rules, values)[..i + 1][..i] == Texts(rules, values)[..i];
      assert values[..i + 1] == values[..i] + [values[i]];
      if text !in seen {
        seen := seen + {text};
        targets := targets + [text];
      }
      if !rules.allowed(values[i]) {
        failed := true;
      }
    }
    assert Texts(rules, values)[..|values|] == Texts(rules, values);
    assert values[..|values|] == values;
    input := Input(Items(targets), policy);
    rejected := values == [] || failed || |targets| > policy.requestTargetLimit;
  }

  function FirstIndex(s: seq<string>, x: string): (i: nat)
    requires x in s
    ensures i < |s| && s[i] == x
    ensures forall j :: 0 <= j < i ==> s[j] != x
  {
    if s[0] == x then 0 else FirstIndex(s[1..], x) + 1
  }

  lemma {:induction false} DedupKeepsElements(s: seq<string>)
    ensures Distinct(Dedup(s)) && forall x :: x in Dedup(s) <==> x in s
  {
    if s != [] {
      DedupKeepsElements(s[..|s| - 1]);
      assert s == s[..|s| - 1] + [s[|s| - 1]];
    }
  }

  /** A longer list has the same first indices. */
  lemma FirstIndexStays(front: seq<string>, last: string, x: string)
    requires x in front
    ensures x in front + [last] && FirstIndex(front + [last], x) == FirstIndex(front, x)
  {
    var s, i := front + [last], FirstIndex(front, x);
    assert s[i] == x;
    assert forall j :: 0 <= j < i ==> s[j] == front[j] != x;
  }

  /** Deduplication keeps every value exactly once, in order of first appearance. */
  lemma {:induction false} DedupIsOrderPreserving(s: seq<string>)
    ensures Distinct(Dedup(s)) && Elements(Dedup(s)) == Elements(s)
    ensures forall a, b :: 0 <= a < b < |Dedup(s)| ==>
      Dedup(s)[a] in s && Dedup(s)[b] in s && FirstIndex(s, Dedup(s)[a]) < FirstIndex(s, Dedup(s)[b])
  {
    DedupKeepsElements(s);
    if s != [] {
      var front, last := s[..|s| - 1], s[|s| - 1];
      var earlier := Dedup(front);
      DedupIsOrderPreserving(front);
      DedupKeepsElements(front);
      assert s == front + [last];
      forall a, b | 0 <= a < b < |Dedup(s)|
        ensures Dedup(s)[a] in s && Dedup(s)[b] in s && FirstIndex(s, Dedup(s)[a]) < FirstIndex(s, Dedup(s)[b])
      {
        assert Dedup(s)[a] == earlier[a] && earlier[a] in earlier;
        FirstIndexStays(front, last, earlier[a]);
        if b < |earlier| {
          assert earlier[b] in earlier;
          FirstIndexStays(front, last, earlier[b]);
        } else {
          assert last !in front;
        }
      }
    }
  }

  lemma {:induction false} DedupOfDistinct(s: seq<string>)
    requires Distinct(s)
    ensures Dedup(s) == s
  {
    if s != [] {
      DedupOfDistinct(s[..|s| - 1]);
      assert s == s[..|s| - 1] + [s[|s| - 1]];
    }
  }

  /** Normalising an already normalised target list changes neither the list nor
      the verdict, which is what the validator relies on. */
  lemma NormalizationIsFixpoint(policy: Policy, rules: AddressRules, values: seq<string>)
    requires rules.Idempotent()
    ensures var targets := NormalizedTargets(rules, values);
      && NormalizedTargets(rules, targets) == targets
      && Rejects(policy, rules, targets) == Rejects(policy, rules, values)
  {
    var texts := Texts(rules, values);
    var targets := Dedup(texts);
    DedupIsOrderPreserving(texts);
    forall t | t in targets ensures rules.text(t) == t {
      assert t in Elements(targets);
      var i :| 0 <= i < |texts| && texts[i] == t;
      assert t == rules.text(values[i]);
    }
    assert Texts(rules, targets) == targets;
    DedupOfDistinct(targets);
    forall i | 0 <= i < |values| ensures rules.text(values[i]) in targets {
      assert texts[i] in Elements(texts);
    }
    if v :| v in values && !rules.allowed(v) {
      var i :| 0 <= i < |values| && values[i] == v;
      assert !rules.allowed(rules.text(values[i]));
    }
    if t :| t in targets && !rules.allowed(t) {
      assert t in Elements(texts);
      var i :| 0 <= i < |texts| && texts[i] == t;
      assert rules.text(values[i]) == t && values[i] in values;
    }
    if values != [] {
      assert rules.text(values[0]) in targets;
    } else {
      assert texts == [];
    }
  }

  function BoundedTargets(policy: Policy, targets: seq<string>): seq<string> {
    targets[..Min(|targets|, policy.targetLimit)]
  }

  function OmittedTargets(policy: Policy, targets: seq<string>): int {
    Max(0, |targets| - policy.targetLimit)
  }

  // ---------- What a valid report is ----------

  predicate TerminalShape(r: Report) {
    match r.status
    case StatusCompleted => r.reason == NoReason && r.detail == NoText
    case StatusStopped =>
      && (r.reason == StopBatchTimeout || r.reason == StopInvalidProbeEvidence || r.reason == StopSchedulerFailure)
      && r.detail == Text
    case StatusCancelled => r.reason == StopCancelled && r.detail == Text
  }

  /** Attempt `k` of one target obeys the retry schedule. */
  predicate AttemptOk(
    policy: Policy, rules: AddressRules, platform: Platform, ip: string, attempts: seq<Attempt>, k: nat)
    requires k < |attempts| && policy.Valid()
  {
    var a := attempts[k];
    && a.number == k + 1
    && (if k == 0 then a.retryDelayMs == 0
        else
          && Milliseconds(policy.backoffMin) <= a.retryDelayMs <= Milliseconds(policy.backoffMax)
          && ShouldRetry(attempts[k - 1].observation))
    && a.observation.Valid()
    && a.observation.platform == platform
    && a.observation.input == ExpectedTlsInput(rules, ip)
  }

  predicate ScheduleOk(policy: Policy, rules: AddressRules, platform: Platform, ip: string, attempts: seq<Attempt>)
    requires policy.Valid()
  {
    && |attempts| <= policy.attemptLimit
    && forall k :: 0 <= k < |attempts| ==> AttemptOk(policy, rules, platform, ip, attempts, k)
  }

  /** The last attempt settles the target: it is not worth retrying, or was the last allowed. */
  predicate Settled(policy: Policy, attempts: seq<Attempt>) {
    && attempts != []
    && !attempts[|attempts| - 1].observation.outcome.Cancelled?
    && (ShouldRetry(attempts[|attempts| - 1].observation) ==> |attempts| >= policy.attemptLimit)
  }

  predicate TargetOk(policy: Policy, rules: AddressRules, r: Report, target: TargetResult, ip: string)
    requires policy.Valid()
  {
    && target.dialIP == ip && target.family == rules.family(ip)
    && ScheduleOk(policy, rules, r.platform, ip, target.attempts)
    && (match target.status
        case TargetCompleted => Settled(policy, target.attempts)
        case TargetInterrupted => r.status != StatusCompleted && target.attempts != []
        case TargetNotStarted => r.status != StatusCompleted && target.attempts == [])
    && forall k :: 0 <= k < |target.attempts| && target.attempts[k].observation.outcome.Cancelled? ==>
      k == |target.attempts| - 1 && target.status == TargetInterrupted && r.status != StatusCompleted
  }

  predicate FromSource(attempts: seq<Attempt>, source: Source) {
    forall k :: 0 <= k < |attempts| ==> attempts[k].observation.source == source
  }

  predicate SameSource(a: seq<Attempt>, b: seq<Attempt>) {
    forall k :: 0 <= k < |b| ==> FromSource(a, b[k].observation.source)
  }

  /** Every attempt of every target came through one TLS adapter. */
  predicate OneSource(targets: seq<TargetResult>) {
    forall i, j :: 0 <= i < |targets| && 0 <= j < |targets| ==>
      SameSource(targets[i].attempts, targets[j].attempts)
  }

  predicate ValidReport(policy: Policy, rules: AddressRules, r: Report)
    requires policy.Valid()
  {
    && r.input.targets.Items?
    && var requested := r.input.targets.items;
    && r.input == Input(Items(NormalizedTargets(rules, requested)), policy)
    && if Rejects(policy, rules, requested) then
         && r.status == StatusStopped && r.reason == StopInvalidInput && r.detail == Text
         && r.omitted == 0 && r.targets == []
       else
         && TerminalShape(r)
         && r.omitted == OmittedTargets(policy, requested)
         && var expected := BoundedTargets(policy, requested);
         && |r.targets| == |expected|
         && (forall i :: 0 <= i < |expected| ==> TargetOk(policy, rules, r, r.targets[i], expected[i]))
         && OneSource(r.targets)
         && (r.status == StatusCompleted ==>
               forall i :: 0 <= i < |r.targets| ==> r.targets[i].status == TargetCompleted)
  }

  // ---------- The validator ----------

  /** The attempts so far agree with the source seen before them, or set it. */
  predicate Threads(before: Option<Source>, attempts: seq<Attempt>, after: Option<Source>) {
    && (before.Some? ==> after == before)
    && (attempts == [] ==> after == before)
    && (attempts != [] ==> after.Some? && FromSource(attempts, after.value))
  }

  /** Some attempt disagrees with the source seen before it. */
  predicate Refuses(before: Option<Source>, attempts: seq<Attempt>) {
    attempts != [] &&
    !FromSource(attempts, if before.Some? then before.value else attempts[0].observation.source)
  }

  lemma RefusedSourceDiffers(targets: seq<TargetResult>, setter: int, i: int, before: Option<Source>)
    requires 0 <= i < |targets| && Refuses(before, targets[i].attempts)
    requires before.Some? ==>
      0 <= setter < i && targets[setter].attempts != [] && FromSource(targets[setter].attempts, before.value)
    ensures !OneSource(targets)
  {
    var j := if before.Some? then setter else i;
    assert targets[j].attempts[0].observation.source ==
      if before.Some? then before.value else targets[i].attempts[0].observation.source;
    assert !SameSource(targets[i].attempts, targets[j].attempts);
  }

  method ValidateTarget(
    policy: Policy, rules: AddressRules, r: Report, target: TargetResult, ip: string, source: Option<Source>)
      returns (ok: bool, source': Option<Source>)
    requires policy.Valid()
    ensures ok ==> TargetOk(policy, rules, r, target, ip) && Threads(source, target.attempts, source')
    ensures !ok && TargetOk(policy, rules, r, target, ip) ==> Refuses(source, target.attempts)
  {
    source' := source;
    if target.dialIP != ip || target.family != rules.family(ip) { return false, source'; }
    match target.status {
      case TargetCompleted => if target.attempts == [] { return false, source'; }
      case TargetInterrupted => if r.status == StatusCompleted || target.attempts == [] { return false, source'; }
      case TargetNotStarted => if r.status == StatusCompleted || target.attempts != [] { return false, source'; }
    }
    if |target.attempts| > policy.attemptLimit { return false, source'; }
    for k := 0 to |target.attempts|
      invariant forall j :: 0 <= j < k ==> AttemptOk(policy, rules, r.platform, ip, target.attempts, j)
      invariant forall j :: 0 <= j < k && target.attempts[j].observation.outcome.Cancelled? ==>
        j == |target.attempts| - 1 && target.status == TargetInterrupted && r.status != StatusCompleted
      invariant Threads(source, target.attempts[..k], source')
    {
      var a := target.attempts[k];
      assert TargetOk(policy, rules, r, target, ip) ==> AttemptOk(policy, rules, r.platform, ip, target.attempts, k);
      if a.number != k + 1 { return false, source'; }
      if k == 0 {
        if a.retryDelayMs != 0 { return false, source'; }
      } else {
        if a.retryDelayMs < Milliseconds(policy.backoffMin) || a.retryDelayMs > Milliseconds(policy.backoffMax) {
          return false, source';
        }
        if !ShouldRetry(target.attempts[k - 1].observation) { return false, source'; }
      }
      if !a.observation.Valid() { return false, source'; }
      if a.observation.platform != r.platform || a.observation.input != ExpectedTlsInput(rules, ip) {
        return false, source';
      }
      ghost var first := if source.Some? then source.value else target.attempts[0].observation.source;
      assert source'.Some? ==> source'.value == first by {
        if source.None? && k > 0 { assert target.attempts[..k][0] == target.attempts[0]; }
      }
      if source'.None? {
        source' := Some(a.observation.source);
      } else if a.observation.source != source'.value {
        return false, source';
      }
      if a.observation.outcome.Cancelled? {
        if target.status != TargetInterrupted || k != |target.attempts| - 1 || r.status == StatusCompleted {
          return false, source';
        }
      }
      assert target.attempts[..k + 1] == target.attempts[..k] + [a];
    }
    assert target.attempts[..|target.attempts|] == target.attempts;
    if target.status == TargetCompleted {
      var last := target.attempts[|target.attempts| - 1].observation;
      if last.outcome.Cancelled? { return false, source'; }
      if |target.attempts| < policy.attemptLimit && ShouldRetry(last) { return false, source'; }
    }
    ok := true;
  }

  /** The loop over the targets, which threads the first source through all of them. */
  method ValidateTargets(policy: Policy, rules: AddressRules, r: Report, expected: seq<string>) returns (ok: bool)
    requires policy.Valid() && |r.targets| == |expected|
    ensures ok <==>
      (forall i :: 0 <= i < |expected| ==> TargetOk(policy, rules, r, r.targets[i], expected[i]))
      && OneSource(r.targets)
  {
    var source: Option<Source> := None;
    ghost var setter := 0;
    for i := 0 to |r.targets|
      invariant forall j :: 0 <= j < i ==> TargetOk(policy, rules, r, r.targets[j], expected[j])
      invariant forall j :: 0 <= j < i && r.targets[j].attempts != [] ==>
        source.Some? && FromSource(r.targets[j].attempts, source.value)
      invariant source.Some? ==> 0 <= setter < i && r.targets[setter].attempts != []
    {
      ghost var before := source;
      var fine;
      fine, source := ValidateTarget(policy, rules, r, r.targets[i], expected[i], source);
      if !fine {
        if TargetOk(policy, rules, r, r.targets[i], expected[i]) {
          RefusedSourceDiffers(r.targets, setter, i, before);
        }
        return false;
      }
      if before.None? && source.Some? { setter := i; }
    }
    ok := true;
  }

  /** tlsretrybatch.Validate, which threads one source through nested loops, accepts
      exactly the reports that meet the declarative contract. */
  method Validate(policy: Policy, rules: AddressRules, r: Report) returns (ok: bool)
    requires policy.Valid()
    ensures ok == ValidReport(policy, rules, r)
  {
    if r.input.targets.Nil? { return false; }
    var requested := r.input.targets.items;
    var normalized, rejected := NormalizeRequest(policy, rules, requested);
    if normalized != r.input { return false; }
    if rejected {
      return r.status == StatusStopped && r.reason == StopInvalidInput && r.detail == Text
          && r.omitted == 0 && r.targets == [];
    }
    if r.status == StatusStopped && r.reason == StopInvalidInput { return false; }
    if !TerminalShape(r) { return false; }
    var expected := BoundedTargets(policy, requested);
    if r.omitted != OmittedTargets(policy, requested) { return false; }
    if |r.targets| != |expected| { return false; }

    var fine := ValidateTargets(policy, rules, r, expected);
    if !fine { return false; }
    if r.status == StatusCompleted {
      ok := AllTargetsCompleted(r.targets);
      return;
    }
    ok := true;
  }

  method AllTargetsCompleted(targets: seq<TargetResult>) returns (ok: bool)
    ensures ok == forall i :: 0 <= i < |targets| ==> targets[i].status == TargetCompleted
  {
    for i := 0 to |targets|
      invariant forall j :: 0 <= j < i ==> targets[j].status == TargetCompleted
    {
      if targets[i].status != TargetCompleted { return false; }
    }
    ok := true;
  }
}
