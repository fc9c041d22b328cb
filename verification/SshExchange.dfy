/** internal/sshobservation/identification.go: writing the client line, reading the server's lines
    one byte at a time, and what the observation then records. */
module SshExchange {
  import opened Basics
  import opened SshIdentification

  datatype IOError = NoProgress | ShortWrite | Other(code: int)

  /** One Read into a one-byte buffer: it may deliver a byte and fail at the same time. */
  datatype ReadResult = ReadResult(delivered: bool, byte: char, err: Option<IOError>)

  /** One Write: how many bytes it took, and its error. */
  datatype WriteResult = WriteResult(count: nat, err: Option<IOError>)

  /** A connection: arbitrary read and write results, and the bytes that went each way so far. */
  class Connection {
    const inbound: nat -> ReadResult
    const outbound: (nat, string) -> WriteResult
    var readCount: nat
    var writeCount: nat
    ghost var received: string
    ghost var sent: string
    ghost var writes: seq<WriteResult>

    constructor (inbound: nat -> ReadResult, outbound: (nat, string) -> WriteResult)
      ensures this.inbound == inbound && this.outbound == outbound
      ensures received == "" && sent == "" && writes == [] && readCount == 0 && writeCount == 0
    {
      this.inbound, this.outbound := inbound, outbound;
      readCount, writeCount, received, sent, writes := 0, 0, "", "", [];
    }

    method Read() returns (r: ReadResult)
      modifies this`readCount, this`received
      ensures r == inbound(old(readCount)) && readCount == old(readCount) + 1
      ensures received == old(received) + if r.delivered then [r.byte] else ""
    {
      r := inbound(readCount);
      readCount := readCount + 1;
      received := received + if r.delivered then [r.byte] else "";
    }

    /** A writer never takes more than it was given. */
    method Write(data: string) returns (r: WriteResult)
      modifies this`writeCount, this`sent, this`writes
      ensures r.count <= |data| && sent == old(sent) + data[..r.count]
      ensures writes == old(writes) + [r] && writeCount == old(writeCount) + 1
      ensures var w := outbound(old(writeCount), data); r.err == w.err && r.count == Min(w.count, |data|)
    {
      var w := outbound(writeCount, data);
      r := w.(count := Min(w.count, |data|));
      writeCount := writeCount + 1;
      sent := sent + data[..r.count];
      writes := writes + [r];
    }
  }

  /** Every Write of this connection takes something, and none fails. */
  ghost predicate AlwaysTakes(conn: Connection) {
    forall n: nat, data: string :: Progresses(conn.outbound(n, data))
  }

  // ---------- writeAll ----------

  predicate Progresses(r: WriteResult) { r.err.None? && r.count > 0 }

  /** The reason a Write gives for giving up. */
  predicate WriteGives(r: WriteResult, err: IOError) {
    if r.err.Some? then err == r.err.value else r.count == 0 && err == ShortWrite
  }

  /** `writes` went well, but for the last one if there is an error: that one gave it. */
  predicate WritesGive(writes: seq<WriteResult>, err: Option<IOError>) {
    match err
    case None => forall k :: 0 <= k < |writes| ==> Progresses(writes[k])
    case Some(e) =>
      && writes != [] && WriteGives(writes[|writes| - 1], e)
      && forall k :: 0 <= k < |writes| - 1 ==> Progresses(writes[k])
  }

  /** Sends a prefix of the data: all of it if every Write takes something without an error, and otherwise as far as
      the first one that does not, whose error it returns. */
  method WriteAll(conn: Connection, data: string) returns (written: nat, err: Option<IOError>)
    modifies conn`writeCount, conn`sent, conn`writes
    ensures written <= |data| && conn.sent == old(conn.sent) + data[..written]
    ensures err.None? ==> written == |data|
    ensures old(conn.writes) <= conn.writes && WritesGive(conn.writes[|old(conn.writes)|..], err)
    ensures err.Some? && conn.writes[|conn.writes| - 1].err.None? ==> written < |data|
    ensures AlwaysTakes(conn) ==> err.None?
  {
    written := 0;
    err := None;
    while written < |data|
      invariant written <= |data| && conn.sent == old(conn.sent) + data[..written]
      invariant old(conn.writes) <= conn.writes && WritesGive(conn.writes[|old(conn.writes)|..], None)
    {
      ghost var before := conn.writes[|old(conn.writes)|..];
      var r := conn.Write(data[written..]);
      assert conn.writes[|old(conn.writes)|..] == before + [r];
      assert data[..written] + data[written..][..r.count] == data[..written + r.count];
      written := written + r.count;
      if r.err.Some? { return written, r.err; }
      if r.count == 0 { return written, Some(ShortWrite); }
    }
  }

  // ---------- readServerLine ----------

  predicate StartsSSH(line: string) { HasPrefix(line, PREFIX) }

  /** A whole line within its limit: 255 bytes for an identification, the remaining preamble
      budget for any other line. */
  predicate Acceptable(policy: Policy, remaining: nat, line: string) {
    && EndsWith(line, '\n')
    && '\n' !in line[..|line| - 1]
    && |line| <= if StartsSSH(line) then policy.identificationBytes else remaining
  }

  /** More bytes are needed: no acceptable line yet, but one can still come of it. */
  ghost predicate Undecided(policy: Policy, remaining: nat, line: string) {
    !Acceptable(policy, remaining, line) && exists rest: string :: Acceptable(policy, remaining, line + rest)
  }

  /** No continuation at all makes an acceptable line. */
  ghost predicate Hopeless(policy: Policy, remaining: nat, line: string) {
    forall rest: string :: !Acceptable(policy, remaining, line + rest)
  }

  /** The line was read for as long as it was undecided, and no longer. */
  ghost predicate ReadOnDemand(policy: Policy, remaining: nat, line: string) {
    forall k :: 0 <= k < |line| ==> Undecided(policy, remaining, line[..k])
  }

  predicate CouldStartSSH(line: string) { |line| < |PREFIX| && HasPrefix(PREFIX, line) }

  /** The tests the reader makes on the bytes it has. */
  predicate NeedsMore(policy: Policy, remaining: nat, line: string) {
    && '\n' !in line
    && (CouldStartSSH(line) || |line| < if StartsSSH(line) then policy.identificationBytes else remaining)
  }

  lemma UndecidedNeedsMore(policy: Policy, remaining: nat, line: string)
    requires Undecided(policy, remaining, line)
    ensures NeedsMore(policy, remaining, line)
  {
    var rest: string :| Acceptable(policy, remaining, line + rest);
    assert rest != "" by { assert line + "" == line; }
    assert (line + rest)[..|line + rest| - 1] == line + rest[..|rest| - 1];
    if |line| >= |PREFIX| {
      assert (line + rest)[..|PREFIX|] == line[..|PREFIX|];
    } else if StartsSSH(line + rest) {
      assert line == (line + rest)[..|PREFIX|][..|line|];
    }
  }

  /** A line that can still become an identification can be completed to one. */
  lemma PrefixCompletes(policy: Policy, remaining: nat, line: string)
    requires policy.Valid() && CouldStartSSH(line)
    ensures Acceptable(policy, remaining, line + (PREFIX[|line|..] + "\n"))
  {
    var whole := PREFIX + "\n";
    assert line + (PREFIX[|line|..] + "\n") == whole;
    assert whole[..|PREFIX|] == PREFIX && StartsSSH(whole);
  }

  /** Any other line with room left is completed by its LF. */
  lemma LineFeedCompletes(policy: Policy, remaining: nat, line: string)
    requires NeedsMore(policy, remaining, line) && !CouldStartSSH(line)
    ensures Acceptable(policy, remaining, line + "\n")
  {
    var whole := line + "\n";
    assert whole[..|line|] == line;
    if |line| >= |PREFIX| {
      assert whole[..|PREFIX|] == line[..|PREFIX|];
    } else {
      assert whole[|line|] == '\n';
      NoLineFeedInPrefix(whole, |line|);
    }
  }

  /** The reader's tests are exactly "no more bytes are needed". */
  lemma UndecidedByItsTests(policy: Policy, remaining: nat, line: string)
    requires policy.Valid()
    ensures Undecided(policy, remaining, line) <==> NeedsMore(policy, remaining, line)
  {
    if Undecided(policy, remaining, line) {
      UndecidedNeedsMore(policy, remaining, line);
    }
    if NeedsMore(policy, remaining, line) {
      if CouldStartSSH(line) {
        PrefixCompletes(policy, remaining, line);
      } else {
        LineFeedCompletes(policy, remaining, line);
      }
    }
  }

  lemma NoLineFeedInPrefix(line: string, i: nat)
    requires i < |line| && i < |PREFIX| && line[i] == '\n'
    ensures !StartsSSH(line)
  {
    if |line| >= |PREFIX| {
      assert line[..|PREFIX|][i] == '\n';
    }
  }

  lemma HopelessOtherwise(policy: Policy, remaining: nat, line: string)
    ensures Hopeless(policy, remaining, line) <==>
              !Acceptable(policy, remaining, line) && !Undecided(policy, remaining, line)
  {
    assert line + "" == line;
  }

  datatype LineEnd = Complete | TooLong | ReadFailed(err: IOError)

  ghost predicate LineEndsAs(policy: Policy, remaining: nat, line: string, end: LineEnd) {
    match end
    case Complete => Acceptable(policy, remaining, line)
    case TooLong => Hopeless(policy, remaining, line)
    case ReadFailed(_) => Undecided(policy, remaining, line)
  }

  /** The reason a read gives for ending a line that is still undecided. */
  predicate ReadGives(r: ReadResult, err: IOError) {
    if r.err.Some? then err == r.err.value else !r.delivered && err == NoProgress
  }

  /** The read delivered this byte. Its error, if it has one, may go unnoticed only after an LF. */
  predicate Delivers(r: ReadResult, c: char) {
    r.delivered && r.byte == c && (r.err.None? || c == '\n')
  }

  /** The reads from `start` delivered these bytes. */
  predicate Delivered(inbound: nat -> ReadResult, start: nat, bytes: string) {
    bytes != "" ==>
      var last := |bytes| - 1;
      Delivered(inbound, start, bytes[..last]) && Delivers(inbound(start + last), bytes[last])
  }

  lemma {:induction false} DeliveredAt(inbound: nat -> ReadResult, start: nat, bytes: string, k: nat)
    requires Delivered(inbound, start, bytes) && k < |bytes|
    ensures Delivers(inbound(start + k), bytes[k])
  {
    if k < |bytes| - 1 {
      DeliveredAt(inbound, start, bytes[..|bytes| - 1], k);
    }
  }

  /** The reads up to `stop` made these bytes, one each. Only the last of them may have failed, and it may be one more,
      which delivered nothing. */
  predicate ReadsMake(inbound: nat -> ReadResult, start: nat, bytes: string, stop: nat) {
    if stop == start + |bytes| then
      bytes == "" ||
      (Delivered(inbound, start, bytes[..|bytes| - 1])
       && inbound(stop - 1).delivered && inbound(stop - 1).byte == bytes[|bytes| - 1])
    else
      stop == start + |bytes| + 1 && Delivered(inbound, start, bytes) && !inbound(stop - 1).delivered
  }

  lemma DeliveredNext(inbound: nat -> ReadResult, start: nat, bytes: string, c: char)
    requires Delivered(inbound, start, bytes) && Delivers(inbound(start + |bytes|), c)
    ensures Delivered(inbound, start, bytes + [c])
  {
    assert (bytes + [c])[..|bytes|] == bytes;
  }

  lemma ReadsEndWith(inbound: nat -> ReadResult, start: nat, bytes: string, c: char)
    requires Delivered(inbound, start, bytes)
    requires inbound(start + |bytes|).delivered && inbound(start + |bytes|).byte == c
    ensures ReadsMake(inbound, start, bytes + [c], start + |bytes| + 1)
  {
    assert (bytes + [c])[..|bytes|] == bytes;
  }

  /** What one more byte decides about the line it ends. */
  function AfterByte(policy: Policy, remaining: nat, line: string): Option<LineEnd>
    requires line != ""
  {
    var c := line[|line| - 1];
    if StartsSSH(line) then
      if c == '\n' then Some(Complete)
      else if |line| >= policy.identificationBytes then Some(TooLong)
      else None
    else if CouldStartSSH(line) then None
    else if |line| > remaining then Some(TooLong)
    else if c == '\n' then Some(Complete)
    else if |line| >= remaining then Some(TooLong)
    else None
  }

  lemma ByteDecides(policy: Policy, remaining: nat, before: string, c: char)
    requires policy.Valid() && Undecided(policy, remaining, before)
    ensures match AfterByte(policy, remaining, before + [c])
      case Some(end) => LineEndsAs(policy, remaining, before + [c], end)
      case None => Undecided(policy, remaining, before + [c])
  {
    var line := before + [c];
    UndecidedByItsTests(policy, remaining, before);
    UndecidedByItsTests(policy, remaining, line);
    HopelessOtherwise(policy, remaining, line);
    assert line[..|line| - 1] == before;
    if StartsSSH(line) {
      StartedBefore(before, c);
    }
  }

  /** The line so far: undecided, and made by reads that all went well. */
  ghost predicate Reading(policy: Policy, remaining: nat, inbound: nat -> ReadResult, start: nat, line: string) {
    && ReadOnDemand(policy, remaining, line) && Undecided(policy, remaining, line)
    && Delivered(inbound, start, line)
  }

  lemma UndecidedIsShort(policy: Policy, remaining: nat, line: string)
    requires policy.Valid() && Undecided(policy, remaining, line)
    ensures |line| < Max(policy.identificationBytes, Max(remaining, |PREFIX|))
  {
    UndecidedByItsTests(policy, remaining, line);
  }

  lemma ByteRead(policy: Policy, remaining: nat, inbound: nat -> ReadResult, start: nat, before: string, c: char)
    requires policy.Valid() && Reading(policy, remaining, inbound, start, before)
    requires inbound(start + |before|).delivered && inbound(start + |before|).byte == c
    ensures var line := before + [c];
      && ReadOnDemand(policy, remaining, line) && ReadsMake(inbound, start, line, start + |line|)
      && match AfterByte(policy, remaining, line)
         case Some(end) => LineEndsAs(policy, remaining, line, end)
         case None =>
           && Undecided(policy, remaining, line)
           && (inbound(start + |before|).err.None? ==> Reading(policy, remaining, inbound, start, line))
  {
    ReadsEndWith(inbound, start, before, c);
    StillOnDemand(policy, remaining, before, c);
    ByteDecides(policy, remaining, before, c);
    if inbound(start + |before|).err.None? {
      DeliveredNext(inbound, start, before, c);
    }
  }

  /** Reads one line: exactly the bytes it returns, for exactly as long as they leave it undecided
      whether the line will be acceptable. */
  method ReadServerLine(policy: Policy, conn: Connection, remaining: nat) returns (line: string, end: LineEnd)
    requires policy.Valid()
    modifies conn`readCount, conn`received
    ensures conn.received == old(conn.received) + line
    ensures ReadOnDemand(policy, remaining, line) && LineEndsAs(policy, remaining, line, end)
    ensures ReadsMake(conn.inbound, old(conn.readCount), line, conn.readCount)
    ensures end.Complete? ==> conn.readCount == old(conn.readCount) + |line|
    ensures end.ReadFailed? ==> conn.readCount > old(conn.readCount)
    ensures end.ReadFailed? ==> ReadGives(conn.inbound(conn.readCount - 1), end.err)
  {
    line := "";
    UndecidedByItsTests(policy, remaining, "");
    while true
      invariant conn.received == old(conn.received) + line
      invariant Reading(policy, remaining, conn.inbound, old(conn.readCount), line)
      invariant conn.readCount == old(conn.readCount) + |line|
      decreases Max(policy.identificationBytes, Max(remaining, |PREFIX|)) - |line|
    {
      UndecidedIsShort(policy, remaining, line);
      var r := conn.Read();
      if r.delivered {
        ByteRead(policy, remaining, conn.inbound, old(conn.readCount), line, r.byte);
        line := line + [r.byte];
        var decided := AfterByte(policy, remaining, line);
        if decided.Some? { return line, decided.value; }
      }
      if r.err.Some? { return line, ReadFailed(r.err.value); }
      if !r.delivered { return line, ReadFailed(NoProgress); }
    }
  }

  lemma StillOnDemand(policy: Policy, remaining: nat, line: string, c: char)
    requires ReadOnDemand(policy, remaining, line) && Undecided(policy, remaining, line)
    ensures ReadOnDemand(policy, remaining, line + [c])
  {
    forall k | 0 <= k < |line + [c]| ensures Undecided(policy, remaining, (line + [c])[..k]) {
      assert (line + [c])[..k] == line[..k];
      assert line[..|line|] == line;
    }
  }

  /** A line that starts with "SSH-" and an LF did so before the LF. */
  lemma StartedBefore(line: string, c: char)
    requires StartsSSH(line + [c])
    ensures c == '\n' ==> StartsSSH(line)
    ensures StartsSSH(line) || |line| + 1 == |PREFIX|
  {
    if |line| >= |PREFIX| {
      assert (line + [c])[..|PREFIX|] == line[..|PREFIX|];
    } else {
      assert c == (line + [c])[..|PREFIX|][|PREFIX| - 1];
    }
  }

  // ---------- exchangeIdentification ----------

  function Concat(lines: seq<string>): string {
    if lines == [] then "" else Concat(lines[..|lines| - 1]) + lines[|lines| - 1]
  }

  datatype ExchangeEnd =
    | Identified(raw: string, id: Identification)
    | InvalidIdentification
    | PreambleLimit
    | ReadError(err: IOError)

  /** Line `i` before the identification fits the budget its predecessors left. */
  ghost predicate PreambleLine(policy: Policy, lines: seq<string>, i: nat)
    requires i < |lines|
  {
    && !StartsSSH(lines[i])
    && |Concat(lines[..i])| <= policy.preambleBytes
    && Acceptable(policy, policy.preambleBytes - |Concat(lines[..i])|, lines[i])
  }

  /** The lines before the last one. */
  ghost predicate Preamble(policy: Policy, lines: seq<string>) {
    && |lines| <= policy.preambleLines
    && |Concat(lines)| <= policy.preambleBytes
    && forall i :: 0 <= i < |lines| ==> PreambleLine(policy, lines, i)
  }

  function Remaining(policy: Policy, lines: seq<string>): nat
    requires |Concat(lines)| <= policy.preambleBytes
  {
    policy.preambleBytes - |Concat(lines)|
  }

  /** What the last bytes read mean, after that preamble. */
  ghost predicate EndsAs(policy: Policy, lines: seq<string>, last: string, end: ExchangeEnd)
    requires |Concat(lines)| <= policy.preambleBytes
  {
    var remaining := Remaining(policy, lines);
    match end
    case Identified(raw, id) =>
      && Acceptable(policy, remaining, last) && StartsSSH(last)
      && IsIdentificationLine(policy, last, id) && raw == Content(last)
    case InvalidIdentification =>
      StartsSSH(last) && !Undecided(policy, remaining, last) && forall id :: !IsIdentificationLine(policy, last, id)
    case PreambleLimit =>
      && !StartsSSH(last)
      && (Hopeless(policy, remaining, last) || (Acceptable(policy, remaining, last) && |lines| == policy.preambleLines))
    case ReadError(_) => Undecided(policy, remaining, last)
  }

  /** A whole exchange, told from the bytes alone: preamble lines within both budgets, then a last
      line read no further than it takes to decide it. */
  ghost predicate Exchanged(policy: Policy, lines: seq<string>, last: string, end: ExchangeEnd) {
    && Preamble(policy, lines)
    && ReadOnDemand(policy, Remaining(policy, lines), last)
    && EndsAs(policy, lines, last, end)
  }

  datatype ExchangeResult = WriteFailed(err: IOError) | Answered(end: ExchangeEnd)

  /** Sends the client's line, and unless a Write gives up reads the server's. Terminates on every connection, having
      taken exactly the bytes of the lines it read. */
  method ExchangeIdentification(policy: Policy, conn: Connection)
      returns (result: ExchangeResult, preambleLines: nat, clientSent: bool,
               ghost lines: seq<string>, ghost last: string)
    requires policy.Valid()
    modifies conn`readCount, conn`writeCount, conn`received, conn`sent, conn`writes
    ensures clientSent <==> conn.sent == old(conn.sent) + CLIENT_IDENTIFICATION + "\r\n"
    ensures old(conn.writes) <= conn.writes
    ensures WritesGive(conn.writes[|old(conn.writes)|..], if result.WriteFailed? then Some(result.err) else None)
    ensures AlwaysTakes(conn) ==> result.Answered?
    ensures result.WriteFailed? ==>
      conn.received == old(conn.received) && conn.readCount == old(conn.readCount) && preambleLines == 0
    ensures result.Answered? ==>
              (clientSent && preambleLines == |lines| && conn.received == old(conn.received) + Concat(lines) + last)
    ensures result.Answered? ==>
      ExchangeRead(policy, conn.inbound, old(conn.readCount), lines, last, result.end, conn.readCount)
  {
    var clientLine := CLIENT_IDENTIFICATION + "\r\n";
    var written, err := WriteAll(conn, clientLine);
    clientSent := written == |clientLine|;
    preambleLines, lines, last := 0, [], "";
    SentWhole(old(conn.sent), clientLine, written);
    assert old(conn.sent) + CLIENT_IDENTIFICATION + "\r\n" == old(conn.sent) + clientLine;
    if err.Some? { return WriteFailed(err.value), 0, clientSent, lines, last; }
    var end;
    end, preambleLines, lines, last := ReadIdentification(policy, conn);
    result := Answered(end);
  }

  lemma SentWhole(before: string, data: string, written: nat)
    requires written <= |data|
    ensures before + data[..written] == before + data <==> written == |data|
  {
    assert data[..|data|] == data;
    assert |before + data[..written]| == |before| + written;
  }

  /** The preamble so far, and the reads that made it. */
  ghost predicate LinesRead(policy: Policy, inbound: nat -> ReadResult, start: nat, lines: seq<string>) {
    Preamble(policy, lines) && Delivered(inbound, start, Concat(lines))
  }

  /** A read error is that of the last read. */
  predicate ErrorIsRead(inbound: nat -> ReadResult, start: nat, end: ExchangeEnd, stop: nat) {
    end.ReadError? ==> stop > start && ReadGives(inbound(stop - 1), end.err)
  }

  /** A whole exchange, and the reads that made it. */
  ghost predicate ExchangeRead(policy: Policy, inbound: nat -> ReadResult, start: nat,
                               lines: seq<string>, last: string, end: ExchangeEnd, stop: nat) {
    && Exchanged(policy, lines, last, end) && ErrorIsRead(inbound, start, end, stop)
    && ReadsMake(inbound, start, Concat(lines) + last, stop)
  }

  lemma LastLineRead(policy: Policy, inbound: nat -> ReadResult, start: nat,
                     lines: seq<string>, last: string, end: ExchangeEnd, stop: nat)
    requires LinesRead(policy, inbound, start, lines) && Exchanged(policy, lines, last, end)
    requires ErrorIsRead(inbound, start + |Concat(lines)|, end, stop)
    requires ReadsMake(inbound, start + |Concat(lines)|, last, stop)
    ensures ExchangeRead(policy, inbound, start, lines, last, end, stop)
  {
    ReadsMakeMore(inbound, start, Concat(lines), last, stop);
  }

  lemma LineRead(policy: Policy, inbound: nat -> ReadResult, start: nat, lines: seq<string>, line: string)
    requires LinesRead(policy, inbound, start, lines) && |lines| < policy.preambleLines
    requires !StartsSSH(line) && Acceptable(policy, Remaining(policy, lines), line)
    requires ReadsMake(inbound, start + |Concat(lines)|, line, start + |Concat(lines)| + |line|)
    ensures Concat(lines + [line]) == Concat(lines) + line
    ensures LinesRead(policy, inbound, start, lines + [line])
  {
    PreambleGrows(policy, lines, line);
    WholeLineIsDelivered(inbound, start + |Concat(lines)|, line);
    DeliveredFurther(inbound, start, Concat(lines), line);
  }

  lemma Regrouped(a: string, b: string, c: string)
    ensures a + b + c == a + (b + c)
  {
  }

  /** One turn of the loop: the next line, and what it means. */
  method TakeLine(policy: Policy, conn: Connection, preambleLines: nat, preambleBytes: nat, ghost lines: seq<string>)
      returns (line: string, decided: Option<ExchangeEnd>)
    requires policy.Valid() && Preamble(policy, lines)
    requires preambleLines == |lines| && preambleBytes == |Concat(lines)|
    modifies conn`readCount, conn`received
    ensures conn.received == old(conn.received) + line
    ensures ReadsMake(conn.inbound, old(conn.readCount), line, conn.readCount)
    ensures decided.Some? ==>
      && Exchanged(policy, lines, line, decided.value)
      && ErrorIsRead(conn.inbound, old(conn.readCount), decided.value, conn.readCount)
    ensures decided.None? ==>
      && preambleLines < policy.preambleLines && conn.readCount == old(conn.readCount) + |line|
      && !StartsSSH(line) && Acceptable(policy, Remaining(policy, lines), line)
  {
    var lineEnd;
    line, lineEnd := ReadServerLine(policy, conn, policy.preambleBytes - preambleBytes);
    decided := DecideLine(policy, preambleLines, preambleBytes, line, lineEnd, lines);
  }

  /** The loop of `exchangeIdentification`. */
  method ReadIdentification(policy: Policy, conn: Connection)
      returns (end: ExchangeEnd, preambleLines: nat, ghost lines: seq<string>, ghost last: string)
    requires policy.Valid()
    modifies conn`readCount, conn`received
    ensures preambleLines == |lines| && conn.received == old(conn.received) + Concat(lines) + last
    ensures ExchangeRead(policy, conn.inbound, old(conn.readCount), lines, last, end, conn.readCount)
  {
    preambleLines, lines, last := 0, [], "";
    var preambleBytes: nat := 0;
    while true
      invariant preambleBytes == |Concat(lines)| && preambleLines == |lines|
      invariant LinesRead(policy, conn.inbound, old(conn.readCount), lines)
      invariant conn.received == old(conn.received) + Concat(lines)
      invariant conn.readCount == old(conn.readCount) + |Concat(lines)|
      decreases policy.preambleLines - preambleLines
    {
      var line, decided := TakeLine(policy, conn, preambleLines, preambleBytes, lines);
      last := line;
      if decided.Some? {
        LastLineRead(policy, conn.inbound, old(conn.readCount), lines, line, decided.value, conn.readCount);
        return decided.value, preambleLines, lines, last;
      }
      LineRead(policy, conn.inbound, old(conn.readCount), lines, line);
      Regrouped(old(conn.received), Concat(lines), line);
      lines := lines + [line];
      preambleLines := preambleLines + 1;
      preambleBytes := preambleBytes + |line|;
    }
  }

  lemma {:induction false} DeliveredFurther(inbound: nat -> ReadResult, start: nat, before: string, bytes: string)
    requires Delivered(inbound, start, before) && Delivered(inbound, start + |before|, bytes)
    ensures Delivered(inbound, start, before + bytes)
  {
    if bytes == "" {
      assert before + bytes == before;
    } else {
      var last := |bytes| - 1;
      DeliveredFurther(inbound, start, before, bytes[..last]);
      assert (before + bytes)[..|before| + last] == before + bytes[..last];
    }
  }

  /** The reads of one more line follow those of the lines before it. */
  lemma ReadsMakeMore(inbound: nat -> ReadResult, start: nat, before: string, line: string, stop: nat)
    requires Delivered(inbound, start, before) && ReadsMake(inbound, start + |before|, line, stop)
    ensures ReadsMake(inbound, start, before + line, stop)
  {
    if stop == start + |before| + |line| {
      if line == "" {
        assert before + line == before;
        LastIsDelivered(inbound, start, before);
      } else {
        var front := line[..|line| - 1];
        DeliveredFurther(inbound, start, before, front);
        assert (before + line)[..|before + line| - 1] == before + front;
      }
    } else {
      DeliveredFurther(inbound, start, before, line);
    }
  }

  lemma LastIsDelivered(inbound: nat -> ReadResult, start: nat, bytes: string)
    requires Delivered(inbound, start, bytes)
    ensures ReadsMake(inbound, start, bytes, start + |bytes|)
  {
    if bytes != "" {
      assert Delivers(inbound(start + |bytes| - 1), bytes[|bytes| - 1]);
    }
  }

  /** After a whole line even a failed read has done its work. */
  lemma WholeLineIsDelivered(inbound: nat -> ReadResult, start: nat, line: string)
    requires ReadsMake(inbound, start, line, start + |line|) && EndsWith(line, '\n')
    ensures Delivered(inbound, start, line)
  {
    var front := line[..|line| - 1];
    assert line == front + [line[|line| - 1]];
    DeliveredNext(inbound, start, front, line[|line| - 1]);
  }

  /** What one line read means for the exchange: its end, or one more preamble line. */
  method DecideLine(
    policy: Policy, preambleLines: nat, preambleBytes: nat, line: string, lineEnd: LineEnd, ghost lines: seq<string>)
      returns (end: Option<ExchangeEnd>)
    requires Preamble(policy, lines) && preambleLines == |lines| && preambleBytes == |Concat(lines)|
    requires ReadOnDemand(policy, Remaining(policy, lines), line)
    requires LineEndsAs(policy, Remaining(policy, lines), line, lineEnd)
    ensures end.Some? ==> Exchanged(policy, lines, line, end.value)
    ensures end.Some? && end.value.ReadError? <==> lineEnd.ReadFailed?
    ensures end.Some? && end.value.ReadError? ==> end.value.err == lineEnd.err
    ensures end.None? ==> lineEnd.Complete?
    ensures end.None? ==>
      !StartsSSH(line) && Acceptable(policy, Remaining(policy, lines), line) && preambleLines < policy.preambleLines
  {
    ghost var remaining := Remaining(policy, lines);
    HopelessOtherwise(policy, remaining, line);
    match lineEnd
    case ReadFailed(e) => return Some(ReadError(e));
    case TooLong =>
      if StartsSSH(line) {
        NoIdentification(policy, remaining, line);
        return Some(InvalidIdentification);
      }
      return Some(PreambleLimit);
    case Complete =>
      if StartsSSH(line) {
        var parsed := Parse(policy, line);
        ParseDecides(policy, line);
        return Some(if parsed.Some? then Identified(Content(line), parsed.value) else InvalidIdentification);
      }
      // The line fits what is left of the preamble, so only the line count can be exceeded.
      assert preambleBytes + |line| <= policy.preambleBytes;
      if preambleLines >= policy.preambleLines || preambleBytes + |line| > policy.preambleBytes {
        return Some(PreambleLimit);
      }
      end := None;
  }

  lemma ParseDecides(policy: Policy, line: string)
    ensures Parse(policy, line).Some? ==> IsIdentificationLine(policy, line, Parse(policy, line).value)
    ensures Parse(policy, line).None? ==> forall id :: !IsIdentificationLine(policy, line, id)
  {
    forall id ensures Parse(policy, line) == Some(id) <==> IsIdentificationLine(policy, line, id) {
      ParseInvertsPrint(policy, line, id);
    }
  }

  lemma IdentificationIsAcceptable(policy: Policy, remaining: nat, line: string, id: Identification)
    requires IsIdentificationLine(policy, line, id)
    ensures StartsSSH(line) && Acceptable(policy, remaining, line)
  {
    PrintedContent(line, id);
    assert line[..|PREFIX|] == PREFIX;
    assert '\n' !in Print(id) by {
      assert '\n' !in PREFIX && '\n' !in id.protocolVersion && '\n' !in Tail(id);
    }
    if line == Print(id) + "\r\n" {
      assert line[..|line| - 1] == Print(id) + "\r";
    } else {
      assert line[..|line| - 1] == Print(id);
    }
  }

  lemma PreambleGrows(policy: Policy, lines: seq<string>, line: string)
    requires Preamble(policy, lines) && |lines| < policy.preambleLines
    requires !StartsSSH(line) && Acceptable(policy, Remaining(policy, lines), line)
    ensures Concat(lines + [line]) == Concat(lines) + line
    ensures Preamble(policy, lines + [line])
  {
    var all := lines + [line];
    assert all[..|lines|] == lines;
    forall i | 0 <= i < |all| ensures PreambleLine(policy, all, i) {
      if i < |lines| {
        assert all[..i] == lines[..i];
        assert PreambleLine(policy, lines, i);
      }
    }
  }

  /** A line too long to be acceptable is no identification either. */
  lemma NoIdentification(policy: Policy, remaining: nat, line: string)
    requires Hopeless(policy, remaining, line) && StartsSSH(line)
    ensures forall id :: !IsIdentificationLine(policy, line, id)
  {
    forall id | IsIdentificationLine(policy, line, id) ensures Acceptable(policy, remaining, line + "") {
      IdentificationIsAcceptable(policy, remaining, line, id);
      assert line + "" == line;
    }
  }

  // ---------- What the bytes read determine ----------

  lemma ExchangeIsBounded(policy: Policy, lines: seq<string>, last: string, end: ExchangeEnd)
    requires policy.Valid() && Exchanged(policy, lines, last, end)
    ensures |lines| <= policy.preambleLines
    ensures |Concat(lines) + last| <= policy.preambleBytes + policy.identificationBytes
  {
    if last != "" {
      UndecidedByItsTests(policy, Remaining(policy, lines), last[..|last| - 1]);
    }
  }

  ghost predicate Decided(policy: Policy, remaining: nat, line: string) {
    ReadOnDemand(policy, remaining, line) && !Undecided(policy, remaining, line)
  }

  lemma AcceptableIsDecided(policy: Policy, remaining: nat, line: string)
    requires Acceptable(policy, remaining, line)
    ensures Decided(policy, remaining, line)
  {
    forall k | 0 <= k < |line| ensures Undecided(policy, remaining, line[..k]) {
      assert line == line[..k] + line[k..];
      assert '\n' !in line[..k] by {
        assert forall j :: 0 <= j < k ==> line[..k][j] == line[..|line| - 1][j];
      }
      assert !EndsWith(line[..k], '\n');
    }
  }

  lemma ShorterIsWhole(policy: Policy, remaining: nat, a: string, b: string, after: string, afterB: string)
    requires Decided(policy, remaining, a) && Decided(policy, remaining, b)
    requires a + after == b + afterB && |a| <= |b|
    ensures a == b
  {
    assert b[..|a|] == (b + afterB)[..|a|] == (a + after)[..|a|] == a;
  }

  /** Neither of two decided lines goes on where the other stops. */
  lemma DecidedLinesAgree(policy: Policy, remaining: nat, a: string, b: string, after: string, afterB: string)
    requires Decided(policy, remaining, a) && Decided(policy, remaining, b)
    requires a + after == b + afterB
    ensures a == b
  {
    if |a| <= |b| {
      ShorterIsWhole(policy, remaining, a, b, after, afterB);
    } else {
      ShorterIsWhole(policy, remaining, b, a, afterB, after);
    }
  }

  lemma {:induction false} ConcatSplits(lines: seq<string>, i: nat)
    requires i <= |lines|
    ensures exists rest: string :: Concat(lines) == Concat(lines[..i]) + rest
  {
    if i == |lines| {
      assert lines[..i] == lines;
      assert Concat(lines) == Concat(lines[..i]) + "";
    } else {
      ConcatSplits(lines[..|lines| - 1], i);
      assert lines[..|lines| - 1][..i] == lines[..i];
      var rest :| Concat(lines[..|lines| - 1]) == Concat(lines[..i]) + rest;
      assert Concat(lines) == Concat(lines[..i]) + (rest + lines[|lines| - 1]);
    }
  }

  /** The bytes after the first `i` lines start with the next line, or with the last one. */
  lemma NextLine(policy: Policy, lines: seq<string>, last: string, i: nat) returns (line: string, rest: string)
    requires Preamble(policy, lines) && i <= |lines|
    ensures line == if i < |lines| then lines[i] else last
    ensures Concat(lines) + last == Concat(lines[..i]) + (line + rest)
  {
    if i < |lines| {
      ConcatSplits(lines, i + 1);
      assert lines[..i + 1][..i] == lines[..i];
      rest :| Concat(lines) == Concat(lines[..i + 1]) + rest;
      line, rest := lines[i], rest + last;
    } else {
      assert lines[..i] == lines;
      line, rest := last, "";
    }
  }

  lemma LineIsDecided(policy: Policy, lines: seq<string>, last: string, end: ExchangeEnd, i: nat)
    requires Exchanged(policy, lines, last, end) && !end.ReadError? && i <= |lines|
    ensures |Concat(lines[..i])| <= policy.preambleBytes
    ensures Decided(policy, Remaining(policy, lines[..i]), if i < |lines| then lines[i] else last)
  {
    if i < |lines| {
      assert PreambleLine(policy, lines, i);
      AcceptableIsDecided(policy, Remaining(policy, lines[..i]), lines[i]);
    } else {
      assert lines[..i] == lines;
      HopelessOtherwise(policy, Remaining(policy, lines), last);
      if Acceptable(policy, Remaining(policy, lines), last) {
        AcceptableIsDecided(policy, Remaining(policy, lines), last);
      }
    }
  }

  ghost predicate ExchangedBy(policy: Policy, lines: seq<string>, last: string, end: ExchangeEnd, stream: string) {
    && Exchanged(policy, lines, last, end) && !end.ReadError?
    && exists after: string :: Concat(lines) + last + after == stream
  }

  lemma NextLinesAgree(policy: Policy, linesA: seq<string>, lastA: string, endA: ExchangeEnd,
                       linesB: seq<string>, lastB: string, endB: ExchangeEnd, stream: string, i: nat)
    requires ExchangedBy(policy, linesA, lastA, endA, stream)
    requires ExchangedBy(policy, linesB, lastB, endB, stream)
    requires i <= |linesA| && i <= |linesB| && linesA[..i] == linesB[..i]
    ensures (if i < |linesA| then linesA[i] else lastA) == (if i < |linesB| then linesB[i] else lastB)
  {
    var lineA, restA := NextLine(policy, linesA, lastA, i);
    var lineB, restB := NextLine(policy, linesB, lastB, i);
    LineIsDecided(policy, linesA, lastA, endA, i);
    LineIsDecided(policy, linesB, lastB, endB, i);
    var afterA: string :| Concat(linesA) + lastA + afterA == stream;
    var afterB: string :| Concat(linesB) + lastB + afterB == stream;
    Regroup(Concat(linesA[..i]), lineA, restA, afterA);
    Regroup(Concat(linesA[..i]), lineB, restB, afterB);
    SamePrefix(Concat(linesA[..i]), lineA + (restA + afterA), lineB + (restB + afterB));
    DecidedLinesAgree(policy, Remaining(policy, linesA[..i]), lineA, lineB, restA + afterA, restB + afterB);
  }

  lemma Regroup(a: string, b: string, c: string, d: string)
    ensures a + (b + c) + d == a + (b + (c + d))
  {
  }

  lemma SamePrefix(prefix: string, a: string, b: string)
    requires prefix + a == prefix + b
    ensures a == b
  {
    assert (prefix + a)[|prefix|..] == a;
    assert (prefix + b)[|prefix|..] == b;
  }

  /** Two exchanges over one byte stream read the same lines. */
  lemma {:induction false} LinesAgree(policy: Policy, linesA: seq<string>, lastA: string, endA: ExchangeEnd,
                                      linesB: seq<string>, lastB: string, endB: ExchangeEnd, stream: string, i: nat)
    requires ExchangedBy(policy, linesA, lastA, endA, stream)
    requires ExchangedBy(policy, linesB, lastB, endB, stream)
    requires i <= |linesA| && i <= |linesB|
    ensures linesA[..i] == linesB[..i]
  {
    if i > 0 {
      LinesAgree(policy, linesA, lastA, endA, linesB, lastB, endB, stream, i - 1);
      NextLinesAgree(policy, linesA, lastA, endA, linesB, lastB, endB, stream, i - 1);
      OneMore(linesA, linesB, i);
    }
  }

  lemma OneMore<T>(a: seq<T>, b: seq<T>, i: nat)
    requires 0 < i <= |a| && i <= |b| && a[..i - 1] == b[..i - 1] && a[i - 1] == b[i - 1]
    ensures a[..i] == b[..i]
  {
    assert a[..i] == a[..i - 1] + [a[i - 1]];
    assert b[..i] == b[..i - 1] + [b[i - 1]];
  }

  /** A last line that the preamble could have taken means that the preamble was full. */
  lemma OnlyAFullPreambleRefuses(policy: Policy, lines: seq<string>, last: string, end: ExchangeEnd)
    requires Exchanged(policy, lines, last, end) && !end.ReadError?
    requires !StartsSSH(last) && Acceptable(policy, Remaining(policy, lines), last)
    ensures |lines| == policy.preambleLines
  {
    HopelessOtherwise(policy, Remaining(policy, lines), last);
  }

  lemma NoMoreLines(policy: Policy, linesA: seq<string>, lastA: string, endA: ExchangeEnd,
                    linesB: seq<string>, lastB: string, endB: ExchangeEnd, stream: string)
    requires ExchangedBy(policy, linesA, lastA, endA, stream)
    requires ExchangedBy(policy, linesB, lastB, endB, stream)
    ensures |linesA| <= |linesB|
  {
    var n := |linesB|;
    if n < |linesA| {
      LinesAgree(policy, linesA, lastA, endA, linesB, lastB, endB, stream, n);
      NextLinesAgree(policy, linesA, lastA, endA, linesB, lastB, endB, stream, n);
      assert linesA[..n] == linesB;
      assert PreambleLine(policy, linesA, n);
      OnlyAFullPreambleRefuses(policy, linesB, lastB, endB);
      assert false;
    }
  }

  lemma EndIsUnique(policy: Policy, lines: seq<string>, last: string, endA: ExchangeEnd, endB: ExchangeEnd)
    requires Exchanged(policy, lines, last, endA) && !endA.ReadError?
    requires Exchanged(policy, lines, last, endB) && !endB.ReadError?
    ensures endA == endB
  {
    ParseDecides(policy, last);
    if endA.Identified? {
      ParseInvertsPrint(policy, last, endA.id);
    }
    if endB.Identified? {
      ParseInvertsPrint(policy, last, endB.id);
    }
  }

  /** The bytes decide everything: two exchanges of one server's stream, neither cut short by a
      read error, consume the same bytes as the same lines and end the same way. In particular
      nothing behind the identification's LF can matter. */
  lemma ExchangesAgree(policy: Policy, linesA: seq<string>, lastA: string, endA: ExchangeEnd,
                       linesB: seq<string>, lastB: string, endB: ExchangeEnd, stream: string)
    requires ExchangedBy(policy, linesA, lastA, endA, stream)
    requires ExchangedBy(policy, linesB, lastB, endB, stream)
    ensures linesA == linesB && lastA == lastB && endA == endB
  {
    NoMoreLines(policy, linesA, lastA, endA, linesB, lastB, endB, stream);
    NoMoreLines(policy, linesB, lastB, endB, linesA, lastA, endA, stream);
    LinesAgree(policy, linesA, lastA, endA, linesB, lastB, endB, stream, |linesA|);
    NextLinesAgree(policy, linesA, lastA, endA, linesB, lastB, endB, stream, |linesA|);
    assert linesA[..|linesA|] == linesA && linesB[..|linesB|] == linesB;
    EndIsUnique(policy, linesA, lastA, endA, endB);
  }

  // ---------- What the observation records ----------

  /** The identification part of the evidence. `received` tells received from unconfirmed. */
  datatype Recorded = Recorded(
    received: bool, raw: string, id: Identification, preambleLines: int, clientSent: bool)

  const NO_FIELDS := Identification("", "", "")

  /** What commitEvidence keeps of an exchange, or nothing when the caller cancelled. */
  function Record(result: ExchangeResult, preambleLines: nat, clientSent: bool,
                  caller: ContextError, attempt: ContextError): Option<Recorded>
  {
    if caller == Canceled then None
    else if caller == Live && attempt == Live && result.Answered? && result.end.Identified? then
      Some(Recorded(true, result.end.raw, result.end.id, preambleLines, clientSent))
    else
      Some(Recorded(false, "", NO_FIELDS, preambleLines, clientSent))
  }

  predicate ValidRecord(policy: Policy, r: Recorded) {
    && 0 <= r.preambleLines <= policy.preambleLines
    && if r.received then r.clientSent && RecordedFieldsMatch(policy, r.raw, r.id)
       else r.raw == "" && r.id == NO_FIELDS
  }

  /** The validator accepts every record of every exchange but one kind: an identification that
      filled its limit with a bare LF. */
  lemma RecordIsAccepted(policy: Policy, lines: seq<string>, last: string, end: ExchangeEnd,
                         caller: ContextError, attempt: ContextError)
    requires Exchanged(policy, lines, last, end) && caller != Canceled
    ensures var record := Record(Answered(end), |lines|, true, caller, attempt).value;
      ValidRecord(policy, record) <==>
        !(record.received && |last| == policy.identificationBytes && !EndsWith(last[..|last| - 1], '\r'))
  {
    if end.Identified? {
      ParseInvertsPrint(policy, last, end.id);
      RevalidationSucceeds(policy, last);
    }
  }

  lemma IdentificationIsIdentified(
    policy: Policy, lines: seq<string>, last: string, end: ExchangeEnd, id: Identification)
    requires Exchanged(policy, lines, last, end) && IsIdentificationLine(policy, last, id)
    ensures end.Identified?
  {
    IdentificationIsAcceptable(policy, Remaining(policy, lines), last, id);
  }

  /** The record tells what the bytes said: an identification is recorded exactly when the last line is one and both
      contexts were live at commit, with the fields it prints, after as many lines as came before it. */
  lemma RecordIsTrue(policy: Policy, lines: seq<string>, last: string, end: ExchangeEnd,
                     caller: ContextError, attempt: ContextError)
    requires Exchanged(policy, lines, last, end)
    ensures var record := Record(Answered(end), |lines|, true, caller, attempt);
      && (record.None? <==> caller == Canceled)
      && (record.Some? ==> record.value.preambleLines == |lines| && record.value.clientSent)
      && (record.Some? && record.value.received ==>
            && caller == attempt == Live
            && IsIdentificationLine(policy, last, record.value.id) && record.value.raw == Print(record.value.id))
      && (caller == attempt == Live && (exists id :: IsIdentificationLine(policy, last, id)) ==>
            record.Some? && record.value.received)
  {
    if end.Identified? {
      ParseInvertsPrint(policy, last, end.id);
      ParsedLinesArePrinted(policy, last);
    }
    if id :| IsIdentificationLine(policy, last, id) {
      IdentificationIsIdentified(policy, lines, last, end, id);
    }
  }
}
