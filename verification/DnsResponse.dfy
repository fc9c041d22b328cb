/** internal/dnsobservation/message.go: from the sections of a wire response to evidence. */
module DnsResponse {
  import opened Basics
  import opened DnsEvidence

  datatype Body =
    | BodyA
    | BodyAAAA
    | BodyCNAME(target: string)
    | BodySVCB(binding: ServiceBinding)
    | BodyHTTPS(binding: ServiceBinding)
    | BodySOA
    | BodyNS
    | BodyOPT(extended: nat)                               // the EDNS part of the response code
    | BodyOther

  datatype Resource = Resource(inClass: bool, name: string, body: Body)

  /** One call of a section parser. */
  datatype NextResource = Parsed(resource: Resource) | SectionDone | ParseError

  /** What the section parser returns on its k-th call. */
  type Section = nat -> NextResource

  datatype Response = Response(
    rcode: nat,
    truncated: bool,
    answers: seq<Resource>,
    authorities: seq<Resource>,
    additionals: seq<Resource>,
    bodyComplete: bool)

  /** `result` is what the section holds up to its end, or up to a parse error. */
  ghost predicate ReadsSection(section: Section, result: seq<Resource>, complete: bool) {
    && (forall k :: 0 <= k < |result| ==> section(k) == Parsed(result[k]))
    && section(|result|) == if complete then SectionDone else ParseError
  }

  /** After `n` records the section breaks without truncation, or overflows. */
  ghost predicate FailsAt(section: Section, truncated: bool, before: nat, n: nat) {
    && (forall k :: 0 <= k < n ==> section(k).Parsed?)
    && before + n <= MAX_RESPONSE_RECORDS
    && ((section(n).ParseError? && !truncated) || (section(n).Parsed? && before + n == MAX_RESPONSE_RECORDS))
  }

  /** A section stops the whole response. */
  ghost predicate SectionFails(section: Section, truncated: bool, before: nat) {
    exists n: nat :: FailsAt(section, truncated, before, n)
  }

  /** The section ends after `n` records, so that the next one is reached. */
  ghost predicate EndsAt(section: Section, n: nat) {
    (forall k :: 0 <= k < n ==> section(k).Parsed?) && section(n).SectionDone?
  }

  /** The first section that cannot be read and is reached, after that many records, is one of the last two. */
  ghost predicate LaterSectionFails(authority: Section, additional: Section, truncated: bool, before: nat) {
    || SectionFails(authority, truncated, before)
    || exists n: nat :: EndsAt(authority, n) && SectionFails(additional, truncated, before + n)
  }

  /** Some section that is reached cannot be read, with what the earlier ones left of the record limit. */
  ghost predicate ResponseFails(answer: Section, authority: Section, additional: Section, truncated: bool) {
    || SectionFails(answer, truncated, 0)
    || exists n: nat :: EndsAt(answer, n) && LaterSectionFails(authority, additional, truncated, n)
  }

  method ParseSection(section: Section, truncated: bool, records: nat)
      returns (result: seq<Resource>, complete: bool, failed: bool, records': nat)
    requires records <= MAX_RESPONSE_RECORDS
    ensures failed <==> SectionFails(section, truncated, records)
    ensures !failed ==> ReadsSection(section, result, complete)
    ensures !failed ==> records' == records + |result| <= MAX_RESPONSE_RECORDS
    ensures !failed && !complete ==> truncated
  {
    result, records' := [], records;
    while true
      invariant records' == records + |result| <= MAX_RESPONSE_RECORDS
      invariant forall k :: 0 <= k < |result| ==> section(k) == Parsed(result[k])
      decreases MAX_RESPONSE_RECORDS - records'
    {
      match section(|result|)
      case SectionDone =>
        return result, true, false, records';
      case ParseError =>
        assert !truncated ==> FailsAt(section, truncated, records, |result|);
        return result, false, !truncated, records';
      case Parsed(resource) =>
        records' := records' + 1;
        if records' > MAX_RESPONSE_RECORDS {
          assert FailsAt(section, truncated, records, |result|);
          return [], false, true, records';
        }
        result := result + [resource];
    }
  }

  /** A section that was read ends where its records do, unless it was cut short. */
  lemma ReadSectionEnds(section: Section, part: seq<Resource>, complete: bool, n: nat)
    requires ReadsSection(section, part, complete)
    ensures EndsAt(section, n) <==> complete && n == |part|
  {
    assert n < |part| ==> section(n) == Parsed(part[n]);
  }

  lemma AuthorityDecides(authority: Section, additional: Section, truncated: bool, before: nat,
                         part: seq<Resource>, complete: bool)
    requires SectionFails(authority, truncated, before) || ReadsSection(authority, part, complete)
    ensures LaterSectionFails(authority, additional, truncated, before) <==>
      || SectionFails(authority, truncated, before)
      || (complete && SectionFails(additional, truncated, before + |part|))
  {
    if !SectionFails(authority, truncated, before) {
      forall n: nat ensures EndsAt(authority, n) <==> complete && n == |part| {
        ReadSectionEnds(authority, part, complete, n);
      }
      assert complete ==> EndsAt(authority, |part|);
    }
  }

  lemma AnswerDecides(answer: Section, authority: Section, additional: Section, truncated: bool,
                      part: seq<Resource>, complete: bool)
    requires SectionFails(answer, truncated, 0) || ReadsSection(answer, part, complete)
    ensures ResponseFails(answer, authority, additional, truncated) <==>
      || SectionFails(answer, truncated, 0)
      || (complete && LaterSectionFails(authority, additional, truncated, |part|))
  {
    if !SectionFails(answer, truncated, 0) {
      forall n: nat ensures EndsAt(answer, n) <==> complete && n == |part| {
        ReadSectionEnds(answer, part, complete, n);
      }
      assert complete ==> EndsAt(answer, |part|);
    }
  }

  /** The response holds the sections as far as they were read. */
  ghost predicate Holds(r: Response, answer: Section, authority: Section, additional: Section) {
    if r.bodyComplete then
      && ReadsSection(answer, r.answers, true) && ReadsSection(authority, r.authorities, true)
      && ReadsSection(additional, r.additionals, true)
    else
      || (ReadsSection(answer, r.answers, false) && r.authorities == r.additionals == [])
      || (ReadsSection(answer, r.answers, true) && ReadsSection(authority, r.authorities, false) && r.additionals == [])
      || (ReadsSection(answer, r.answers, true) && ReadsSection(authority, r.authorities, true)
          && ReadsSection(additional, r.additionals, false))
  }

  /** The section flow of `decodeResponse`: a section cut short by truncation ends the body, and a section that
      fails ends the response. */
  method DecodeSections(rcode: nat, truncated: bool, answer: Section, authority: Section, additional: Section)
      returns (response: Option<Response>)
    ensures response.None? <==> ResponseFails(answer, authority, additional, truncated)
    ensures response.Some? ==> var r := response.value;
      && r.rcode == rcode && r.truncated == truncated && (r.bodyComplete || r.truncated)
      && |r.answers| + |r.authorities| + |r.additionals| <= MAX_RESPONSE_RECORDS
      && Holds(r, answer, authority, additional)
  {
    var answers, authorities, additionals: seq<Resource>, complete, failed, records := [], [], [], true, false, 0;
    answers, complete, failed, records := ParseSection(answer, truncated, records);
    AnswerDecides(answer, authority, additional, truncated, answers, complete);
    if failed { return None; }
    if !complete { return Some(Response(rcode, truncated, answers, [], [], false)); }
    authorities, complete, failed, records := ParseSection(authority, truncated, records);
    AuthorityDecides(authority, additional, truncated, |answers|, authorities, complete);
    if failed { return None; }
    if !complete { return Some(Response(rcode, truncated, answers, authorities, [], false)); }
    additionals, complete, failed, records := ParseSection(additional, truncated, records);
    if failed { return None; }
    return Some(Response(rcode, truncated, answers, authorities, additionals, complete));
  }

  // ---------- evidenceFromResponse ----------

  /** `serviceBindingRecord`. */
  function ServiceOf(canonicalName: string -> string, binding: ServiceBinding): ServiceBinding {
    ServiceBinding(binding.priority, canonicalName(binding.target), binding.priority == 0, binding.params)
  }

  /** The record an answer becomes, when it has a type this observer keeps. */
  function AnswerRecord(canonicalName: string -> string, r: Resource): Option<Record> {
    if !r.inClass then None
    else
      var name := canonicalName(r.name);
      match r.body
      case BodyA => Some(Record(name, QueryA, "", None))
      case BodyAAAA => Some(Record(name, QueryAAAA, "", None))
      case BodyCNAME(target) => Some(Record(name, QueryCNAME, canonicalName(target), None))
      case BodySVCB(binding) => Some(Record(name, QuerySVCB, "", Some(ServiceOf(canonicalName, binding))))
      case BodyHTTPS(binding) => Some(Record(name, QueryHTTPS, "", Some(ServiceOf(canonicalName, binding))))
      case _ => None
  }

  /** An answer of the Internet class and of a type this observer keeps. */
  predicate IsKept(r: Resource) {
    r.inClass && !r.body.BodySOA? && !r.body.BodyNS? && !r.body.BodyOPT? && !r.body.BodyOther?
  }

  /** The service binding as the wire gives it, under its canonical target; priority 0 is AliasMode. */
  predicate TellsService(canonicalName: string -> string, binding: ServiceBinding, told: Option<ServiceBinding>) {
    && told.Some? && told.value.priority == binding.priority && told.value.params == binding.params
    && told.value.target == canonicalName(binding.target)
    && (told.value.aliasMode <==> binding.priority == 0)
  }

  /** The record says what the answer says: its owner, its type, and where a CNAME or a service binding points. */
  predicate Tells(canonicalName: string -> string, r: Resource, record: Record) {
    && record.name == canonicalName(r.name)
    && (record.rtype == QueryA <==> r.body.BodyA?) && (record.rtype == QueryAAAA <==> r.body.BodyAAAA?)
    && (record.rtype == QueryCNAME <==> r.body.BodyCNAME?)
    && (record.rtype == QuerySVCB <==> r.body.BodySVCB?) && (record.rtype == QueryHTTPS <==> r.body.BodyHTTPS?)
    && (r.body.BodyCNAME? ==> record.target == canonicalName(r.body.target))
    && (if r.body.BodySVCB? || r.body.BodyHTTPS? then TellsService(canonicalName, r.body.binding, record.service)
        else record.service.None?)
  }

  /** The records tell exactly the kept ones among the first `n` answers, in wire order; `places` says where each
      record comes from. */
  predicate TellsAll(
    canonicalName: string -> string, answers: seq<Resource>, n: nat, records: seq<Record>, places: seq<nat>)
    requires n <= |answers|
  {
    && |places| == |records|
    && (forall p :: 0 <= p < |places| ==>
          places[p] < n && IsKept(answers[places[p]]) && Tells(canonicalName, answers[places[p]], records[p]))
    && (forall p, q :: 0 <= p < q < |places| ==> places[p] < places[q])
    && forall i :: 0 <= i < n && IsKept(answers[i]) ==> i in places
  }

  lemma AnswerIsTold(canonicalName: string -> string, r: Resource)
    ensures IsKept(r) <==> AnswerRecord(canonicalName, r).Some?
    ensures IsKept(r) ==> Tells(canonicalName, r, AnswerRecord(canonicalName, r).value)
  {
  }

  lemma OneMoreTold(
    canonicalName: string -> string, answers: seq<Resource>, n: nat, records: seq<Record>, places: seq<nat>,
    record: Record)
    requires n < |answers| && TellsAll(canonicalName, answers, n, records, places)
    requires IsKept(answers[n]) && Tells(canonicalName, answers[n], record)
    ensures TellsAll(canonicalName, answers, n + 1, records + [record], places + [n])
  {
    assert (places + [n])[|places|] == n;
    forall i | 0 <= i < n && IsKept(answers[i]) ensures i in places + [n] {
      assert i in places;
    }
  }

  /** A CNAME leads from `a` to `b`, as the wire says it. */
  predicate WireEdge(canonicalName: string -> string, answers: seq<Resource>, a: string, b: string) {
    exists r :: r in answers && IsWireEdge(canonicalName, r, a, b)
  }

  predicate IsWireEdge(canonicalName: string -> string, r: Resource, a: string, b: string) {
    r.inClass && r.body.BodyCNAME? && canonicalName(r.name) == a && canonicalName(r.body.target) == b
  }

  /** The records lead exactly where the wire's CNAMEs lead. */
  lemma EdgesAreOnTheWire(canonicalName: string -> string, answers: seq<Resource>, records: seq<Record>,
                          places: seq<nat>, a: string, b: string)
    requires TellsAll(canonicalName, answers, |answers|, records, places)
    ensures Edge(records, a, b) <==> WireEdge(canonicalName, answers, a, b)
  {
    if r :| r in records && IsEdge(r, a, b) {
      var p :| 0 <= p < |records| && records[p] == r;
      assert answers[places[p]] in answers && IsWireEdge(canonicalName, answers[places[p]], a, b);
    }
    if r :| r in answers && IsWireEdge(canonicalName, r, a, b) {
      var i :| 0 <= i < |answers| && answers[i] == r;
      var p :| 0 <= p < |places| && places[p] == i;
      assert records[p] in records && IsEdge(records[p], a, b);
    }
  }

  predicate HasAuthority(authorities: seq<Resource>, body: Body) {
    exists r :: r in authorities && r.inClass && r.body == body
  }

  /** The positions of the name server records of the Internet class. */
  function NameServers(authorities: seq<Resource>): set<int> {
    set k | 0 <= k < |authorities| && authorities[k].inClass && authorities[k].body == BodyNS
  }

  /** The header's response code, extended by the first OPT record if there is one. */
  predicate IsExtendedBy(rcode: nat, header: nat, additionals: seq<Resource>) {
    || (rcode == header && forall r :: r in additionals ==> !r.body.BodyOPT?)
    || exists k :: 0 <= k < |additionals| && FirstOPT(additionals, k)
                   && rcode == 16 * additionals[k].body.extended + header
  }

  predicate FirstOPT(additionals: seq<Resource>, k: nat)
    requires k < |additionals|
  {
    additionals[k].body.BodyOPT? && forall j :: 0 <= j < k ==> !additionals[j].body.BodyOPT?
  }

  method ResponseCode(response: Response) returns (rcode: nat)
    ensures IsExtendedBy(rcode, response.rcode, response.additionals)
  {
    rcode := response.rcode;
    for a := 0 to |response.additionals|
      invariant rcode == response.rcode
      invariant forall j :: 0 <= j < a ==> !response.additionals[j].body.BodyOPT?
    {
      if response.additionals[a].body.BodyOPT? {
        assert FirstOPT(response.additionals, a);
        return 16 * response.additionals[a].body.extended + rcode;
      }
    }
  }

  method ReadAnswers(canonicalName: string -> string, answers: seq<Resource>)
      returns (records: seq<Record>, ghost places: seq<nat>)
    ensures TellsAll(canonicalName, answers, |answers|, records, places)
  {
    records, places := [], [];
    for i := 0 to |answers|
      invariant TellsAll(canonicalName, answers, i, records, places)
    {
      AnswerIsTold(canonicalName, answers[i]);
      match AnswerRecord(canonicalName, answers[i])
      case Some(record) =>
        OneMoreTold(canonicalName, answers, i, records, places, record);
        records, places := records + [record], places + [i];
      case None =>
    }
  }

  method ReadAuthorities(authorities: seq<Resource>) returns (soa: bool, ns: nat)
    ensures soa == HasAuthority(authorities, BodySOA) && ns == |NameServers(authorities)|
  {
    soa, ns := false, 0;
    for i := 0 to |authorities|
      invariant soa == HasAuthority(authorities[..i], BodySOA) && ns == |NameServers(authorities[..i])|
    {
      var r := authorities[i];
      assert authorities[..i + 1] == authorities[..i] + [r];
      ghost var before, after := NameServers(authorities[..i]), NameServers(authorities[..i + 1]);
      assert after == if r.inClass && r.body == BodyNS then before + {i} else before;
      if !r.inClass { continue; }
      match r.body
      case BodySOA => soa := true;
      case BodyNS => ns := ns + 1;
      case _ =>
    }
    assert authorities[..|authorities|] == authorities;
  }

  /** What the evidence says of the rest of the response: its extended code, the end of its CNAME chain, the kind of
      answer it is and its authority. */
  ghost predicate Classified(query: QueryType, hostname: string, response: Response, complete: bool, e: Evidence) {
    && e.truncated == response.truncated && IsExtendedBy(e.rcode, response.rcode, response.additionals)
    && ExactChain(hostname, e.records, e.effectiveName, complete)
    && e.authorityNS == |NameServers(response.authorities)|
    && e.kind == ClassifyAnswer(e.truncated, e.rcode, query, hostname, e.effectiveName,
                                complete && response.bodyComplete, e.records,
                                HasAuthority(response.authorities, BodySOA), e.authorityNS > 0)
    && (e.negativeSOA <==> HasAuthority(response.authorities, BodySOA) && (e.kind == NoData || e.kind == NameError))
  }

  method EvidenceFromResponse(canonicalName: string -> string, query: QueryType, hostname: string, response: Response)
      returns (e: Evidence, ghost places: seq<nat>, ghost complete: bool)
    ensures TellsAll(canonicalName, response.answers, |response.answers|, e.records, places)
    ensures forall a, b :: Edge(e.records, a, b) <==> WireEdge(canonicalName, response.answers, a, b)
    ensures Classified(query, hostname, response, complete, e)
    ensures (e.effectiveName, complete) == Follow(hostname, e.records)
  {
    var rcode := ResponseCode(response);
    var records;
    records, places := ReadAnswers(canonicalName, response.answers);
    var soa, ns := ReadAuthorities(response.authorities);
    var effective, chainComplete := FollowCnames(hostname, records);
    complete := chainComplete;
    var kind := ClassifyAnswer(response.truncated, rcode, query, hostname, effective,
                               chainComplete && response.bodyComplete, records, soa, ns > 0);
    if kind != NoData && kind != NameError { soa := false; }
    e := Evidence(rcode, response.truncated, kind, effective, records, soa, ns);
    forall a, b ensures Edge(records, a, b) <==> WireEdge(canonicalName, response.answers, a, b) {
      EdgesAreOnTheWire(canonicalName, response.answers, records, places, a, b);
    }
  }

  /** Evidence of a decoded response is what the separate classifier accepts. A body cut short is always marked
      truncated, so the weaker completeness test suffices. */
  lemma EvidenceIsAccepted(canonical: string -> bool, query: QueryType, hostname: string, response: Response,
                           complete: bool, e: Evidence)
    requires response.bodyComplete || response.truncated
    requires |response.answers| + |response.authorities| + |response.additionals| <= MAX_RESPONSE_RECORDS
    requires |e.records| <= |response.answers| && e.authorityNS <= |response.authorities|
    requires Classified(query, hostname, response, complete, e)
    requires (e.effectiveName, complete) == Follow(hostname, e.records)
    ensures AcceptsEvidence(canonical, query, hostname, e) <==> canonical(e.effectiveName)
  {
  }

  lemma RecordsAreBounded(
    canonicalName: string -> string, answers: seq<Resource>, records: seq<Record>, places: seq<nat>)
    requires TellsAll(canonicalName, answers, |answers|, records, places)
    ensures |records| <= |answers|
  {
    IndexSetSize(Elements<int>(places), |answers|);
    DistinctFits<int>(places, Elements<int>(places));
  }

  /** Every response that decodes yields evidence the separate classifier accepts, provided only that the name it
      settles on is canonical. */
  method ObserveResponse(
    canonicalName: string -> string, canonical: string -> bool, query: QueryType, hostname: string,
    rcode: nat, truncated: bool, answer: Section, authority: Section, additional: Section)
      returns (evidence: Option<Evidence>,
               ghost response: Option<Response>, ghost places: seq<nat>, ghost complete: bool)
    ensures evidence.None? <==> ResponseFails(answer, authority, additional, truncated)
    ensures evidence.Some? ==>
      && response.Some? && response.value.rcode == rcode && response.value.truncated == truncated
      && Holds(response.value, answer, authority, additional)
      && TellsAll(canonicalName, response.value.answers, |response.value.answers|, evidence.value.records, places)
      && Classified(query, hostname, response.value, complete, evidence.value)
    ensures evidence.Some? ==>
      (AcceptsEvidence(canonical, query, hostname, evidence.value) <==> canonical(evidence.value.effectiveName))
  {
    var decoded := DecodeSections(rcode, truncated, answer, authority, additional);
    response, places, complete := decoded, [], false;
    if decoded.None? { return None, response, places, complete; }
    var e;
    e, places, complete := EvidenceFromResponse(canonicalName, query, hostname, decoded.value);
    RecordsAreBounded(canonicalName, decoded.value.answers, e.records, places);
    IndexSetSize(NameServers(decoded.value.authorities), |decoded.value.authorities|);
    EvidenceIsAccepted(canonical, query, hostname, decoded.value, complete, e);
    evidence := Some(e);
  }
}
