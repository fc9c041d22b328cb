/** internal/dnsobservation: CNAME chasing and the two answer classifiers. */
module DnsEvidence {
  import opened Basics

  type Byte = x: int | 0 <= x < 0x100

  type Uint16 = x: int | 0 <= x < 0x1_0000

  datatype QueryType = QueryA | QueryAAAA | QueryCNAME | QuerySVCB | QueryHTTPS

  /** One service parameter; `value` is None when its hexadecimal text does not decode. */
  datatype ServiceParameter = ServiceParameter(key: Uint16, value: Option<seq<Byte>>)

  datatype ServiceBinding = ServiceBinding(
    priority: Uint16, target: string, aliasMode: bool, params: seq<ServiceParameter>)

  datatype Record = Record(name: string, rtype: QueryType, target: string, service: Option<ServiceBinding>)

  datatype AnswerKind = Answer | NoData | NameError | Referral | RCodeError | Incomplete

  /** `authorityNS` is the number of authority NS records, `negativeSOA` whether an SOA was kept. */
  datatype Evidence = Evidence(
    rcode: nat,
    truncated: bool,
    kind: AnswerKind,
    effectiveName: string,
    records: seq<Record>,
    negativeSOA: bool,
    authorityNS: nat)

  const RCODE_SUCCESS := 0
  const RCODE_NAME_ERROR := 3
  const MAX_RESPONSE_RECORDS := 128

  // ---------- The CNAME chain, declaratively ----------

  predicate IsEdge(r: Record, a: string, b: string) {
    r.rtype == QueryCNAME && r.name == a && r.target == b
  }

  /** Some CNAME record leads from `a` to `b`. */
  predicate Edge(records: seq<Record>, a: string, b: string) {
    exists r :: r in records && IsEdge(r, a, b)
  }

  predicate HasCname(records: seq<Record>, a: string) {
    exists r :: r in records && r.rtype == QueryCNAME && r.name == a
  }

  /** No owner has two different targets. */
  predicate Consistent(records: seq<Record>) {
    forall r, q :: r in records && q in records && r.rtype == q.rtype == QueryCNAME && r.name == q.name ==>
      r.target == q.target
  }

  ghost predicate Chain(records: seq<Record>, hostname: string, path: seq<string>) {
    && path != [] && path[0] == hostname
    && forall k :: 0 <= k < |path| - 1 ==> Edge(records, path[k], path[k + 1])
  }

  /** A chain that has come to its end. */
  ghost predicate EndingChain(records: seq<Record>, hostname: string, path: seq<string>) {
    Chain(records, hostname, path) && !HasCname(records, path[|path| - 1])
  }

  /** Section 3.6.2 of RFC 1034, as an answer: the chain is complete exactly when it is
      unambiguous and ends, and then the effective name is where it ends. */
  ghost predicate ExactChain(hostname: string, records: seq<Record>, effective: string, complete: bool) {
    && (complete <==> Consistent(records) && exists path :: EndingChain(records, hostname, path))
    && (complete ==> forall path :: EndingChain(records, hostname, path) ==> path[|path| - 1] == effective)
  }

  // ---------- followCNAMEs ----------

  /** The first target of every owner. */
  function TargetMap(records: seq<Record>): map<string, string> {
    if records == [] then map[]
    else
      var earlier, r := TargetMap(records[..|records| - 1]), records[|records| - 1];
      if r.rtype == QueryCNAME && r.name !in earlier then earlier[r.name := r.target] else earlier
  }

  function Walk(targets: map<string, string>, effective: string, seen: set<string>, fuel: nat): (string, bool)
    decreases fuel
  {
    if fuel == 0 then (effective, effective !in targets)
    else if effective !in targets then (effective, true)
    else if targets[effective] in seen then (effective, false)
    else Walk(targets, targets[effective], seen + {targets[effective]}, fuel - 1)
  }

  function Follow(hostname: string, records: seq<Record>): (string, bool) {
    var (effective, ended) := Walk(TargetMap(records), hostname, {hostname}, |records|);
    (effective, ended && Consistent(records))
  }

  lemma HasCnameGrows(front: seq<Record>, r: Record, a: string)
    ensures HasCname(front + [r], a) <==> HasCname(front, a) || (r.rtype == QueryCNAME && r.name == a)
  {
    var records := front + [r];
    if q :| q in front && q.rtype == QueryCNAME && q.name == a { assert q in records; }
    if r.rtype == QueryCNAME && r.name == a { assert r in records; }
  }

  lemma EdgeGrows(front: seq<Record>, r: Record, a: string, b: string)
    requires Edge(front, a, b) || IsEdge(r, a, b)
    ensures Edge(front + [r], a, b)
  {
    var records := front + [r];
    if Edge(front, a, b) {
      var q :| q in front && IsEdge(q, a, b);
      assert q in records;
    } else {
      assert r in records;
    }
  }

  lemma {:induction false} TargetMapIsFirst(records: seq<Record>)
    ensures |TargetMap(records)| <= |records|
    ensures forall a :: a in TargetMap(records) <==> HasCname(records, a)
    ensures forall a :: a in TargetMap(records) ==> Edge(records, a, TargetMap(records)[a])
  {
    if records != [] {
      var front, r := records[..|records| - 1], records[|records| - 1];
      TargetMapIsFirst(front);
      assert records == front + [r];
      forall a ensures a in TargetMap(records) <==> HasCname(records, a) {
        HasCnameGrows(front, r, a);
      }
      forall a | a in TargetMap(records) ensures Edge(records, a, TargetMap(records)[a]) {
        EdgeGrows(front, r, a, TargetMap(records)[a]);
      }
    }
  }

  /** The first loop of `followCNAMEs`: the targets, and whether they are unambiguous. */
  method CnameTargets(records: seq<Record>) returns (targets: map<string, string>, consistent: bool)
    ensures targets == TargetMap(records) && consistent == Consistent(records)
  {
    targets, consistent := map[], true;
    for i := 0 to |records|
      invariant targets == TargetMap(records[..i])
      invariant consistent == Consistent(records[..i])
    {
      var r := records[i];
      ConsistentStep(records, i);
      assert records[..i + 1][..i] == records[..i];
      if r.rtype != QueryCNAME { continue; }
      if r.name in targets && targets[r.name] != r.target {
        consistent := false;
        continue;
      }
      targets := targets[r.name := r.target];
    }
    assert records[..|records|] == records;
  }

  method FollowCnames(hostname: string, records: seq<Record>) returns (effective: string, complete: bool)
    ensures (effective, complete) == Follow(hostname, records)
    ensures ExactChain(hostname, records, effective, complete)
  {
    FollowIsExact(hostname, records);
    var targets;
    targets, complete := CnameTargets(records);
    effective := hostname;
    var seen := {effective};
    for i := 0 to |records|
      invariant Walk(targets, hostname, {hostname}, |records|) == Walk(targets, effective, seen, |records| - i)
    {
      if effective !in targets { return effective, complete; }
      if targets[effective] in seen { return effective, false; }
      seen := seen + {targets[effective]};
      effective := targets[effective];
    }
    complete := complete && effective !in targets;
  }

  lemma ConsistentStep(records: seq<Record>, i: nat)
    requires i < |records|
    ensures var r, targets := records[i], TargetMap(records[..i]);
      Consistent(records[..i + 1]) <==>
        Consistent(records[..i]) && (r.rtype == QueryCNAME && r.name in targets ==> targets[r.name] == r.target)
  {
    var r, front := records[i], records[..i];
    var targets := TargetMap(front);
    TargetMapIsFirst(front);
    assert records[..i + 1] == front + [r];
    if r.rtype == QueryCNAME {
      if r.name in targets {
        var q :| q in front && IsEdge(q, r.name, targets[r.name]);
        assert q in records[..i + 1] && r in records[..i + 1];
      } else {
        assert !HasCname(front, r.name);
      }
    }
  }

  /** In an unambiguous record set a step of any chain is the step the map makes. */
  lemma EdgeIsTarget(records: seq<Record>, a: string, b: string)
    requires Consistent(records) && Edge(records, a, b)
    ensures a in TargetMap(records) && TargetMap(records)[a] == b
  {
    TargetMapIsFirst(records);
    var r :| r in records && IsEdge(r, a, b);
    assert HasCname(records, a);
    var q :| q in records && IsEdge(q, a, TargetMap(records)[a]);
  }

  /** A chain cannot leave a set of names that is closed under the target map. */
  lemma {:induction false} ChainStaysInside(
    records: seq<Record>, targets: map<string, string>, hostname: string, path: seq<string>, inside: set<string>,
    k: nat)
    requires Chain(records, hostname, path) && k < |path| && hostname in inside
    requires forall a, b :: Edge(records, a, b) ==> a in targets && targets[a] == b
    requires forall a :: a in inside ==> a in targets && targets[a] in inside
    ensures path[k] in inside
  {
    if k > 0 {
      ChainStaysInside(records, targets, hostname, path, inside, k - 1);
      assert Edge(records, path[k - 1], path[k - 1 + 1]);
    }
  }

  lemma EndingChainTail(records: seq<Record>, hostname: string, path: seq<string>)
    requires EndingChain(records, hostname, path) && |path| > 1
    ensures EndingChain(records, path[1], path[1..])
  {
    var tail := path[1..];
    forall k | 0 <= k < |tail| - 1 ensures Edge(records, tail[k], tail[k + 1]) {
      assert Edge(records, path[k + 1], path[k + 1 + 1]);
    }
  }

  /** Two ending chains of an unambiguous record set are the same chain. */
  lemma {:induction false} EndingChainIsUnique(records: seq<Record>, hostname: string, p: seq<string>, q: seq<string>)
    requires Consistent(records) && EndingChain(records, hostname, p) && EndingChain(records, hostname, q)
    ensures p == q
    decreases |p|
  {
    TargetMapIsFirst(records);
    if |p| > 1 { EdgeIsTarget(records, p[0], p[1]); }
    if |q| > 1 { EdgeIsTarget(records, q[0], q[1]); }
    if |p| > 1 && |q| > 1 {
      EndingChainTail(records, hostname, p);
      EndingChainTail(records, hostname, q);
      EndingChainIsUnique(records, p[1], p[1..], q[1..]);
      assert p == [p[0]] + p[1..] && q == [q[0]] + q[1..];
    }
  }

  /** The names of a walk that comes back to itself are closed under the target map. */
  lemma CycleIsClosed(targets: map<string, string>, path: seq<string>, a: string)
    requires path != [] && a in path
    requires forall k :: 0 <= k < |path| - 1 ==> path[k] in targets && targets[path[k]] == path[k + 1]
    requires path[|path| - 1] in targets && targets[path[|path| - 1]] in path
    ensures a in targets && targets[a] in path
  {
    var k :| 0 <= k < |path| && path[k] == a;
    if k < |path| - 1 {
      assert targets[a] == path[k + 1];
    }
  }

  /** A walk that comes back to a name it has seen never ends. */
  lemma CycleNeverEnds(
    records: seq<Record>, targets: map<string, string>, hostname: string, path: seq<string>, q: seq<string>)
    requires forall a, b :: Edge(records, a, b) ==> a in targets && targets[a] == b
    requires path != [] && path[0] == hostname && Chain(records, hostname, q)
    requires forall k :: 0 <= k < |path| - 1 ==> path[k] in targets && targets[path[k]] == path[k + 1]
    requires path[|path| - 1] in targets && targets[path[|path| - 1]] in path
    ensures q[|q| - 1] in targets
  {
    forall a | a in Elements(path) ensures a in targets && targets[a] in Elements(path) {
      CycleIsClosed(targets, path, a);
    }
    ChainStaysInside(records, targets, hostname, q, Elements(path), |q| - 1);
  }

  /** A walk can be extended by a name it has not seen. */
  lemma WalkExtends(records: seq<Record>, hostname: string, path: seq<string>, next: string)
    requires Chain(records, hostname, path) && Distinct(path) && next !in path
    requires path[|path| - 1] in TargetMap(records) && TargetMap(records)[path[|path| - 1]] == next
    ensures Chain(records, hostname, path + [next]) && Distinct(path + [next])
    ensures Elements(path + [next]) == Elements(path) + {next}
  {
    TargetMapIsFirst(records);
    var longer := path + [next];
    forall k | 0 <= k < |longer| - 1 ensures Edge(records, longer[k], longer[k + 1]) {
      if k < |path| - 1 {
        assert Edge(records, path[k], path[k + 1]);
      }
    }
    assert forall x :: x in longer <==> x in path || x == next;
  }

  /** The walk, resumed after the distinct names of `path`: it ends exactly when the chain does,
      where the chain does, and its fuel lasts as long as there are records left to follow. */
  lemma {:induction false} WalkIsExact(records: seq<Record>, hostname: string, path: seq<string>, fuel: nat)
    requires Chain(records, hostname, path) && Distinct(path)
    requires forall k :: 0 <= k < |path| - 1 ==>
      path[k] in TargetMap(records) && TargetMap(records)[path[k]] == path[k + 1]
    requires |path| - 1 + fuel == |records|
    ensures var (effective, ended) := Walk(TargetMap(records), path[|path| - 1], Elements(path), fuel);
      && (ended ==> exists q :: EndingChain(records, hostname, q) && q[|q| - 1] == effective)
      && (Consistent(records) && !ended ==> forall q :: !EndingChain(records, hostname, q))
    decreases fuel
  {
    var targets, last := TargetMap(records), path[|path| - 1];
    TargetMapIsFirst(records);
    if last !in targets {
      assert EndingChain(records, hostname, path);
    } else {
      FuelLasts(records, path, fuel);
      if targets[last] in Elements(path) {
        if Consistent(records) {
          forall q | Chain(records, hostname, q) ensures !EndingChain(records, hostname, q) {
            forall a, b | Edge(records, a, b) ensures a in targets && targets[a] == b {
              EdgeIsTarget(records, a, b);
            }
            CycleNeverEnds(records, targets, hostname, path, q);
          }
        }
      } else {
        WalkExtends(records, hostname, path, targets[last]);
        WalkIsExact(records, hostname, path + [targets[last]], fuel - 1);
      }
    }
  }

  /** Pigeonhole: while the walk stands on an owner it has fuel left, so the check after the
      loop of `followCNAMEs` never finds another target. */
  lemma FuelLasts(records: seq<Record>, path: seq<string>, fuel: nat)
    requires path != [] && Distinct(path) && |path| - 1 + fuel == |records|
    requires forall k :: 0 <= k < |path| ==> path[k] in TargetMap(records)
    ensures fuel > 0
  {
    TargetMapIsFirst(records);
    forall a | a in Elements(path) ensures a in TargetMap(records).Keys {
      var k :| 0 <= k < |path| && path[k] == a;
    }
    DistinctFits(path, TargetMap(records).Keys);
  }

  // ---------- Where the walk stops, complete or not ----------

  predicate FirstAt(records: seq<Record>, i: nat, a: string, b: string)
    requires i < |records|
  {
    IsEdge(records[i], a, b) && forall j :: 0 <= j < i ==> !(records[j].rtype == QueryCNAME && records[j].name == a)
  }

  /** The first CNAME record of `a` leads to `b`. */
  predicate FirstEdge(records: seq<Record>, a: string, b: string) {
    exists i :: 0 <= i < |records| && FirstAt(records, i, a, b)
  }

  lemma FirstEdgeGrows(front: seq<Record>, r: Record, a: string, b: string)
    ensures FirstEdge(front + [r], a, b) <==> FirstEdge(front, a, b) || (!HasCname(front, a) && IsEdge(r, a, b))
  {
    var records := front + [r];
    if i :| 0 <= i < |front| && FirstAt(front, i, a, b) {
      assert FirstAt(records, i, a, b);
    }
    if !HasCname(front, a) && IsEdge(r, a, b) {
      assert FirstAt(records, |front|, a, b);
    }
    if i :| 0 <= i < |records| && FirstAt(records, i, a, b) {
      assert forall j :: 0 <= j < |front| ==> records[j] == front[j];
      assert i < |front| ==> FirstAt(front, i, a, b);
    }
  }

  lemma TargetMapHasCnames(records: seq<Record>, a: string)
    ensures a in TargetMap(records) <==> HasCname(records, a)
  {
    TargetMapIsFirst(records);
  }

  lemma {:induction false} TargetMapFollowsFirst(records: seq<Record>, a: string, b: string)
    ensures FirstEdge(records, a, b) <==> a in TargetMap(records) && TargetMap(records)[a] == b
  {
    if records != [] {
      var front, r := records[..|records| - 1], records[|records| - 1];
      TargetMapFollowsFirst(front, a, b);
      TargetMapHasCnames(front, a);
      FirstEdgeGrows(front, r, a, b);
      assert records == front + [r];
    }
  }

  /** The names followed from `hostname` on, each by the first record of the one before, until no record leads on or the
      next name has been met. */
  ghost predicate Followed(hostname: string, records: seq<Record>, path: seq<string>) {
    && path != [] && path[0] == hostname && Distinct(path)
    && (forall k :: 0 < k < |path| ==> FirstEdge(records, path[k - 1], path[k]))
    && forall b :: FirstEdge(records, path[|path| - 1], b) ==> b in path
  }

  lemma {:induction false} WalkStops(records: seq<Record>, hostname: string, path: seq<string>, fuel: nat)
      returns (whole: seq<string>)
    requires path != [] && path[0] == hostname && Distinct(path)
    requires forall k :: 0 < k < |path| ==> FirstEdge(records, path[k - 1], path[k])
    requires |path| - 1 + fuel == |records|
    ensures Followed(hostname, records, whole)
    ensures whole[|whole| - 1] == Walk(TargetMap(records), path[|path| - 1], Elements(path), fuel).0
    decreases fuel
  {
    var targets, last := TargetMap(records), path[|path| - 1];
    forall b ensures FirstEdge(records, last, b) <==> last in targets && targets[last] == b {
      TargetMapFollowsFirst(records, last, b);
    }
    if last !in targets || targets[last] in path {
      whole := path;
      if last in targets { FuelIsLeft(records, path, fuel); }
    } else {
      FuelIsLeft(records, path, fuel);
      var longer := path + [targets[last]];
      assert Elements(longer) == Elements(path) + {targets[last]};
      whole := WalkStops(records, hostname, longer, fuel - 1);
    }
  }

  lemma FuelIsLeft(records: seq<Record>, path: seq<string>, fuel: nat)
    requires path != [] && Distinct(path) && |path| - 1 + fuel == |records|
    requires forall k :: 0 < k < |path| ==> FirstEdge(records, path[k - 1], path[k])
    requires path[|path| - 1] in TargetMap(records)
    ensures fuel > 0
  {
    forall k | 0 <= k < |path| ensures path[k] in TargetMap(records) {
      if k < |path| - 1 {
        assert FirstEdge(records, path[k + 1 - 1], path[k + 1]);
        TargetMapFollowsFirst(records, path[k], path[k + 1]);
      }
    }
    FuelLasts(records, path, fuel);
  }

  /** The effective name, complete or not, is where following the first records comes to its end. */
  lemma FollowStops(hostname: string, records: seq<Record>) returns (path: seq<string>)
    ensures Followed(hostname, records, path) && path[|path| - 1] == Follow(hostname, records).0
  {
    assert Elements([hostname]) == {hostname};
    path := WalkStops(records, hostname, [hostname], |records|);
  }

  /** There is only one such way to go. */
  lemma {:induction false} FollowedIsUnique(
    hostname: string, records: seq<Record>, p: seq<string>, q: seq<string>, k: nat)
    requires Followed(hostname, records, p) && Followed(hostname, records, q) && k < |p|
    ensures k < |q| && p[k] == q[k]
    decreases k
  {
    if k > 0 {
      FollowedIsUnique(hostname, records, p, q, k - 1);
      assert FirstEdge(records, p[k - 1], p[k]);
      FirstEdgeIsUnique(records, p[k - 1], p[k]);
      if k == |q| {
        assert p[k] in q;
        var m :| 0 <= m < |q| && q[m] == p[k];
        FollowedIsUnique(hostname, records, p, q, m);
      }
    }
  }

  lemma FirstEdgeIsUnique(records: seq<Record>, a: string, b: string)
    requires FirstEdge(records, a, b)
    ensures forall c :: FirstEdge(records, a, c) ==> c == b
  {
  }

  /** `followCNAMEs` is exact for every record list. */
  lemma FollowIsExact(hostname: string, records: seq<Record>)
    ensures var (effective, complete) := Follow(hostname, records); ExactChain(hostname, records, effective, complete)
  {
    var (effective, complete) := Follow(hostname, records);
    WalkIsExact(records, hostname, [hostname], |records|);
    assert Elements([hostname]) == {hostname};
    if complete {
      var p :| EndingChain(records, hostname, p) && p[|p| - 1] == effective;
      forall q | EndingChain(records, hostname, q) ensures q[|q| - 1] == effective {
        EndingChainIsUnique(records, hostname, p, q);
      }
    }
  }

  /** The verdict, and the name when it is complete, do not depend on record order. */
  lemma FollowIgnoresOrder(hostname: string, records: seq<Record>, permuted: seq<Record>)
    requires multiset(records) == multiset(permuted)
    ensures Follow(hostname, records).1 == Follow(hostname, permuted).1
    ensures Follow(hostname, records).1 ==> Follow(hostname, records).0 == Follow(hostname, permuted).0
  {
    FollowIsExact(hostname, records);
    FollowIsExact(hostname, permuted);
    assert forall r :: r in records <==> r in multiset(records);
    assert forall r :: r in permuted <==> r in multiset(permuted);
    assert forall a, b :: Edge(records, a, b) <==> Edge(permuted, a, b);
    assert forall a :: HasCname(records, a) <==> HasCname(permuted, a);
    assert forall p :: EndingChain(records, hostname, p) <==> EndingChain(permuted, hostname, p);
    assert Consistent(records) <==> Consistent(permuted);
    if Follow(hostname, records).1 {
      var p :| EndingChain(records, hostname, p);
      assert EndingChain(permuted, hostname, p);
    }
  }

  // ---------- The producer's classifier ----------

  function WantedName(query: QueryType, hostname: string, effective: string): string {
    if query == QueryCNAME then hostname else effective
  }

  predicate HasRequested(query: QueryType, hostname: string, effective: string, records: seq<Record>) {
    exists r :: r in records && r.rtype == query && r.name == WantedName(query, hostname, effective)
  }

  function ClassifyAnswer(
    truncated: bool, rcode: nat, query: QueryType, hostname: string, effective: string,
    complete: bool, records: seq<Record>, hasSOA: bool, hasAuthorityNS: bool): AnswerKind
  {
    if truncated || !complete then Incomplete
    else if rcode == RCODE_NAME_ERROR then NameError
    else if rcode != RCODE_SUCCESS then RCodeError
    else if HasRequested(query, hostname, effective, records) then Answer
    else if !hasSOA && hasAuthorityNS then Referral
    else NoData
  }

  // ---------- The validator's classifier ----------

  predicate AnswerKindFits(kind: AnswerKind, rcode: nat) {
    match kind
    case NameError => rcode == RCODE_NAME_ERROR
    case RCodeError => rcode != RCODE_SUCCESS && rcode != RCODE_NAME_ERROR
    case Incomplete => true
    case _ => rcode == RCODE_SUCCESS
  }

  /** The search for a record of the kind that was asked for. */
  method FindRequested(query: QueryType, hostname: string, effective: string, records: seq<Record>)
      returns (found: bool)
    ensures found == HasRequested(query, hostname, effective, records)
  {
    var i := 0;
    while i < |records|
      invariant 0 <= i <= |records|
      invariant forall k :: 0 <= k < i ==>
        !(records[k].rtype == query && records[k].name == WantedName(query, hostname, effective))
    {
      var r := records[i];
      if r.rtype == query && r.name == WantedName(query, hostname, effective) { return true; }
      i := i + 1;
    }
    found := false;
  }

  /** validateEvidenceClassification with the evidence-level checks of Validate around it. */
  method ValidateEvidence(canonical: string -> bool, query: QueryType, hostname: string, e: Evidence) returns (ok: bool)
    ensures ok == AcceptsEvidence(canonical, query, hostname, e)
  {
    if e.truncated && e.kind != Incomplete { return false; }
    if |e.records| > MAX_RESPONSE_RECORDS { return false; }
    if |e.records| + e.authorityNS > MAX_RESPONSE_RECORDS { return false; }
    if e.negativeSOA && e.kind != NoData && e.kind != NameError { return false; }

    if !canonical(e.effectiveName) { return false; }
    var effective, chainComplete := FollowCnames(hostname, e.records);
    if e.effectiveName != effective { return false; }
    if !AnswerKindFits(e.kind, e.rcode) { return false; }
    if e.kind == Incomplete {
      if !e.truncated && chainComplete { return false; }
      return !e.negativeSOA;
    }
    if e.truncated || !chainComplete { return false; }

    var hasRequested := FindRequested(query, hostname, effective, e.records);
    match e.kind
    case Answer => return hasRequested;
    case NoData => return !hasRequested && !(e.authorityNS > 0 && !e.negativeSOA);
    case Referral => return !hasRequested && e.authorityNS != 0 && !e.negativeSOA;
    case RCodeError => return !e.negativeSOA;
    case _ => return true;
  }

  /** What the validator accepts, in the producer's terms: the kind is the one the producer
      would have chosen for the same evidence. */
  predicate AcceptsEvidence(canonical: string -> bool, query: QueryType, hostname: string, e: Evidence) {
    var (effective, complete) := Follow(hostname, e.records);
    && |e.records| + e.authorityNS <= MAX_RESPONSE_RECORDS
    && canonical(e.effectiveName) && e.effectiveName == effective
    && (e.negativeSOA ==> e.kind == NoData || e.kind == NameError)
    && e.kind == ClassifyAnswer(e.truncated, e.rcode, query, hostname, effective, complete, e.records,
                                e.negativeSOA, e.authorityNS > 0)
  }

  /** At most one answer kind is acceptable for the same response. */
  lemma KindIsUnique(canonical: string -> bool, query: QueryType, hostname: string, e: Evidence, kind: AnswerKind)
    requires AcceptsEvidence(canonical, query, hostname, e)
    ensures AcceptsEvidence(canonical, query, hostname, e.(kind := kind)) <==> kind == e.kind
  {
  }
}
