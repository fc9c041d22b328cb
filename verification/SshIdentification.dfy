/** internal/sshobservation/identification.go: the bounded reader of the server's lines and the
    parser of section 4.2 of RFC 4253. A character stands for the byte with its code. */
module SshIdentification {
  import opened Basics

  /** The fixed limits, kept symbolic. An identification has room for "SSH-" and its LF. */
  datatype Policy = Policy(identificationBytes: nat, preambleLines: nat, preambleBytes: nat) {
    ghost predicate Valid() { identificationBytes > |PREFIX| }
  }

  const SOURCE_POLICY := Policy(255, 16, 4096)
  const PREFIX := "SSH-"
  const CLIENT_IDENTIFICATION := "SSH-2.0-ReachRun_Phase0"

  // ---------- parseIdentificationLine ----------

  datatype Identification = Identification(protocolVersion: string, softwareVersion: string, comments: string)

  predicate HasPrefix(s: string, prefix: string) {
    |prefix| <= |s| && s[..|prefix|] == prefix
  }

  predicate ValidProtocolVersion(v: string) { v == "2.0" || v == "1.99" }

  predicate ValidVersionField(v: string) {
    v != "" && forall i :: 0 <= i < |v| ==> '!' <= v[i] <= '~' && v[i] != '-'
  }

  predicate ValidComments(v: string) {
    forall i :: 0 <= i < |v| ==> ' ' <= v[i] <= '~'
  }

  /** The line without its LF, and without the CR before it. */
  function Content(line: string): string
    requires EndsWith(line, '\n')
  {
    var content := line[..|line| - 1];
    if EndsWith(content, '\r') then content[..|content| - 1] else content
  }

  /** The fields after "SSH-", cut at the first '-' and then at the first space. */
  function SplitFields(rest: string): Option<Identification> {
    var separator := IndexOf(rest, '-');
    if separator == 0 || separator >= |rest| - 1 then None
    else
      var tail := rest[separator + 1..];
      var space := IndexOf(tail, ' ');
      if space == |tail| then Some(Identification(rest[..separator], tail, ""))
      else if tail[space + 1..] == "" then None
      else Some(Identification(rest[..separator], tail[..space], tail[space + 1..]))
  }

  function Parse(policy: Policy, line: string): Option<Identification> {
    if !EndsWith(line, '\n') || |line| > policy.identificationBytes then None
    else if !HasPrefix(Content(line), PREFIX) then None
    else
      match SplitFields(Content(line)[|PREFIX|..])
      case None => None
      case Some(id) =>
        if !ValidProtocolVersion(id.protocolVersion) then None
        else if id.protocolVersion == "2.0" && !EndsWith(line[..|line| - 1], '\r') then None
        else if !ValidVersionField(id.softwareVersion) then None
        else if id.comments != "" && !ValidComments(id.comments) then None
        else Some(id)
  }

  predicate ValidFields(id: Identification) {
    ValidProtocolVersion(id.protocolVersion) && ValidVersionField(id.softwareVersion) && ValidComments(id.comments)
  }

  /** The identification string of section 4.2 of RFC 4253, without its line ending. */
  function Print(id: Identification): string {
    PREFIX + JoinFields(id)
  }

  function JoinFields(id: Identification): string {
    id.protocolVersion + "-" + Tail(id)
  }

  function Tail(id: Identification): string {
    if id.comments == "" then id.softwareVersion else id.softwareVersion + " " + id.comments
  }

  /** What an acceptable line is: printed fields, ended by CR LF, or by a bare LF before 2.0. */
  predicate IsIdentificationLine(policy: Policy, line: string, id: Identification) {
    && ValidFields(id)
    && |line| <= policy.identificationBytes
    && (line == Print(id) + "\r\n" || (line == Print(id) + "\n" && id.protocolVersion != "2.0"))
  }

  lemma {:induction false} IndexOfIsFirst(s: string, c: char, i: nat)
    requires i <= |s| && (forall k :: 0 <= k < i ==> s[k] != c) && (i < |s| ==> s[i] == c)
    ensures IndexOf(s, c) == i
  {
    if i > 0 {
      IndexOfIsFirst(s[1..], c, i - 1);
    }
  }

  lemma SplitFieldsAreJoined(rest: string)
    requires SplitFields(rest).Some?
    ensures JoinFields(SplitFields(rest).value) == rest
  {
    var id := SplitFields(rest).value;
    var tail := rest[IndexOf(rest, '-') + 1..];
    var space := IndexOf(tail, ' ');
    assert rest == id.protocolVersion + "-" + tail;
    if space < |tail| {
      assert tail == tail[..space] + " " + tail[space + 1..];
    }
    assert tail == Tail(id);
  }

  lemma JoinedFieldsSplit(id: Identification)
    requires ValidFields(id)
    ensures SplitFields(JoinFields(id)) == Some(id)
  {
    var rest := JoinFields(id);
    IndexOfIsFirst(rest, '-', |id.protocolVersion|);
    assert rest[|id.protocolVersion| + 1..] == Tail(id);
    assert rest[..|id.protocolVersion|] == id.protocolVersion;
    TailSplits(id);
  }

  lemma TailSplits(id: Identification)
    requires ValidFields(id)
    ensures IndexOf(Tail(id), ' ') == |id.softwareVersion|
    ensures Tail(id)[..|id.softwareVersion|] == id.softwareVersion
    ensures id.comments != "" ==> Tail(id)[|id.softwareVersion| + 1..] == id.comments
  {
    IndexOfIsFirst(Tail(id), ' ', |id.softwareVersion|);
  }

  lemma LineIsContent(line: string)
    requires EndsWith(line, '\n')
    ensures line == Content(line) + if EndsWith(line[..|line| - 1], '\r') then "\r\n" else "\n"
  {
    var body := line[..|line| - 1];
    assert line == body + "\n";
    if EndsWith(body, '\r') {
      assert body == body[..|body| - 1] + "\r";
    }
  }

  lemma PrefixedFields(content: string, id: Identification)
    requires HasPrefix(content, PREFIX) && SplitFields(content[|PREFIX|..]) == Some(id)
    ensures content == Print(id)
  {
    SplitFieldsAreJoined(content[|PREFIX|..]);
    assert content == content[..|PREFIX|] + content[|PREFIX|..];
  }

  lemma ParsedLinesArePrinted(policy: Policy, line: string)
    requires Parse(policy, line).Some?
    ensures IsIdentificationLine(policy, line, Parse(policy, line).value)
    ensures Content(line) == Print(Parse(policy, line).value)
  {
    PrefixedFields(Content(line), Parse(policy, line).value);
    LineIsContent(line);
  }

  lemma PrintedContent(line: string, id: Identification)
    requires ValidFields(id) && (line == Print(id) + "\r\n" || line == Print(id) + "\n")
    ensures EndsWith(line, '\n') && Content(line) == Print(id)
    ensures EndsWith(line[..|line| - 1], '\r') <==> line == Print(id) + "\r\n"
  {
    var printed := Print(id);
    assert printed[|printed| - 1] == Tail(id)[|Tail(id)| - 1];
    assert printed[|printed| - 1] != '\r';
    if line == printed + "\r\n" {
      assert line[..|line| - 1] == printed + "\r";
      assert (printed + "\r")[..|printed|] == printed;
    } else {
      assert line[..|line| - 1] == printed;
    }
  }

  lemma PrintedPrefix(id: Identification)
    ensures HasPrefix(Print(id), PREFIX) && Print(id)[|PREFIX|..] == JoinFields(id)
  {
    assert Print(id)[..|PREFIX|] == PREFIX;
  }

  lemma PrintedLinesParse(policy: Policy, line: string, id: Identification)
    requires IsIdentificationLine(policy, line, id)
    ensures Parse(policy, line) == Some(id)
  {
    PrintedContent(line, id);
    PrintedPrefix(id);
    JoinedFieldsSplit(id);
  }

  /** Parsing and printing undo each other: a line parses to exactly the fields it prints. */
  lemma ParseInvertsPrint(policy: Policy, line: string, id: Identification)
    ensures Parse(policy, line) == Some(id) <==> IsIdentificationLine(policy, line, id)
  {
    if Parse(policy, line) == Some(id) {
      ParsedLinesArePrinted(policy, line);
    }
    if IsIdentificationLine(policy, line, id) {
      PrintedLinesParse(policy, line, id);
    }
  }

  lemma PrintIsInjective(a: Identification, b: Identification)
    requires ValidFields(a) && ValidFields(b) && Print(a) == Print(b)
    ensures a == b
  {
    var line := Print(a) + "\r\n";
    PrintedLinesParse(Policy(|line|, 0, 0), line, a);
    PrintedLinesParse(Policy(|line|, 0, 0), line, b);
  }

  // ---------- The validator's second parse ----------

  /** Validate re-parses the recorded text as a CR LF line and compares the fields. */
  predicate RecordedFieldsMatch(policy: Policy, raw: string, id: Identification) {
    var reparsed := Parse(policy, raw + "\r\n");
    reparsed == Some(id) && Content(raw + "\r\n") == raw
  }

  /** Exactly when the validator accepts what the exchange recorded: always, unless the line filled
      the whole limit with a bare LF, which leaves no room for the CR the validator adds. */
  lemma RevalidationSucceeds(policy: Policy, line: string)
    requires Parse(policy, line).Some?
    ensures RecordedFieldsMatch(policy, Content(line), Parse(policy, line).value)
       <==> !(|line| == policy.identificationBytes && !EndsWith(line[..|line| - 1], '\r'))
    ensures RecordedFieldsMatch(policy, Content(line), Parse(policy, line).value)
       <==> |Content(line)| + 2 <= policy.identificationBytes
  {
    var id := Parse(policy, line).value;
    ParsedLinesArePrinted(policy, line);
    PrintedContent(line, id);
    var again := Content(line) + "\r\n";
    PrintedContent(again, id);
    ParseInvertsPrint(policy, again, id);
  }

  function Repeat(c: char, n: nat): (s: string)
    ensures |s| == n && forall i :: 0 <= i < n ==> s[i] == c
  {
    seq(n, i => c)
  }

  /** The excluded case exists: 255 bytes of SSH 1.99 with a bare LF are accepted by the exchange
      and refused by the validator. */
  lemma LongBareLineIsRefusedLater()
    ensures var line := "SSH-1.99-" + Repeat('a', 245) + "\n";
      && Parse(SOURCE_POLICY, line).Some?
      && !RecordedFieldsMatch(SOURCE_POLICY, Content(line), Parse(SOURCE_POLICY, line).value)
  {
    var id := Identification("1.99", Repeat('a', 245), "");
    var line := "SSH-1.99-" + Repeat('a', 245) + "\n";
    assert Print(id) == "SSH-1.99-" + Repeat('a', 245);
    PrintedLinesParse(SOURCE_POLICY, line, id);
    PrintedContent(line, id);
    RevalidationSucceeds(SOURCE_POLICY, line);
  }
}
