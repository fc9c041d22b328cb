/** internal/webobservation: the timing arithmetic of a Web Observation and of its validator.
    Instants are integer nanoseconds; durations and millisecond counts are 64-bit and wrap. */
module WebTiming {
  import opened Basics

  const TWO_63: int := 0x8000_0000_0000_0000
  const MAX_INT64 := TWO_63 - 1
  const MILLISECOND := 1_000_000

  /** math.MaxInt64/int64(time.Millisecond) - 1 */
  const MAX_DURATION_MS := 9_223_372_036_853

  type Int64 = x: int | -0x8000_0000_0000_0000 <= x < 0x8000_0000_0000_0000

  /** What a 64-bit operation keeps of a mathematical result. */
  function Wrap(x: int): Int64 {
    (x + TWO_63) % (2 * TWO_63) - TWO_63
  }

  lemma WrapIsExactInRange(x: int)
    ensures Wrap(x) == x <==> -TWO_63 <= x < TWO_63
  {
  }

  // ---------- time.Time and time.Duration ----------

  /** Time.Sub saturates instead of wrapping. */
  function Sub(t: int, u: int): Int64 {
    if t - u > MAX_INT64 then MAX_INT64 else if t - u < -TWO_63 then -TWO_63 else t - u
  }

  /** Duration.Milliseconds truncates toward zero. */
  function Milliseconds(d: Int64): Int64 {
    if d >= 0 then d / MILLISECOND else 0 - (0 - d) / MILLISECOND
  }

  function NonNegative(d: Int64): Int64 {
    if d < 0 then 0 else d
  }

  /** time.Duration(ms) * time.Millisecond as a 64-bit product. */
  function Times(ms: Int64): Int64 { Wrap(ms * MILLISECOND) }

  /** -time.Duration(ms) * time.Millisecond: the negation wraps before the product does. */
  function NegatedTimes(ms: Int64): Int64 { Wrap(Wrap(0 - ms) * MILLISECOND) }

  // ---------- The producer ----------

  /** The moments of one attempt, as its clock gave them. */
  datatype Trace = Trace(
    started: int, connectStarted: int, connectDone: int, tlsStarted: int, tlsDone: int,
    requestWritten: int, firstByte: int, finished: int)
  {
    /** The order the protocol imposes. A server may answer before the request is fully written. */
    predicate Ordered() {
      && started <= connectStarted <= connectDone <= tlsStarted <= tlsDone <= requestWritten <= finished
      && firstByte <= finished
    }
  }

  datatype Timings = Timings(durationMS: Int64, tcpMS: Int64, tlsMS: Int64, ttfbMS: Int64)

  /** successDurations and baseResult: every stage and the total, truncated on its own. */
  function Measure(t: Trace): Timings {
    Timings(
      NonNegative(Milliseconds(Sub(t.finished, t.started))),
      Milliseconds(NonNegative(Sub(t.connectDone, t.connectStarted))),
      Milliseconds(NonNegative(Sub(t.tlsDone, t.tlsStarted))),
      Milliseconds(NonNegative(Sub(t.firstByte, t.requestWritten))))
  }

  // ---------- The validator ----------

  /** What the stage check is for: non-negative stages whose true sum fits a representable total. */
  predicate StagesFit(t: Timings) {
    && t.durationMS <= MAX_DURATION_MS
    && t.tcpMS >= 0 && t.tlsMS >= 0 && t.ttfbMS >= 0
    && t.tcpMS + t.ttfbMS + t.tlsMS <= t.durationMS
  }

  /** The incremental check, in 64-bit arithmetic. The shared envelope check ran before it. */
  method ValidateStages(t: Timings) returns (ok: bool)
    requires t.durationMS >= 0
    ensures ok == StagesFit(t)
  {
    if t.durationMS > MAX_DURATION_MS { return false; }
    if t.tcpMS < 0 { return false; }
    var stageMS: Int64 := t.tcpMS;
    var stages := [t.ttfbMS, t.tlsMS];
    for i := 0 to |stages|
      invariant stageMS >= 0 && (i > 0 ==> t.ttfbMS >= 0 && stageMS <= t.durationMS)
      invariant stageMS == t.tcpMS + (if i > 0 then t.ttfbMS else 0) + (if i > 1 then t.tlsMS else 0)
      invariant i > 1 ==> t.tlsMS >= 0
    {
      if stages[i] < 0 { return false; }
      if stages[i] > Wrap(t.durationMS - stageMS) { return false; }
      stageMS := Wrap(stageMS + stages[i]);
    }
    ok := true;
  }

  function EarliestTlsStart(observedAt: int, t: Timings): int {
    observedAt + NegatedTimes(Wrap(t.durationMS + 1)) + Times(t.tcpMS)
  }

  function LatestTlsCompletion(observedAt: int, t: Timings): int {
    observedAt + NegatedTimes(t.ttfbMS)
  }

  /** The validity period meets the window in which the handshake can have happened. */
  predicate WindowOverlaps(observedAt: int, t: Timings, notBefore: int, notAfter: int) {
    !(notAfter < EarliestTlsStart(observedAt, t)) && !(notBefore > LatestTlsCompletion(observedAt, t))
  }

  /** The duration bound is exactly what keeps the window's arithmetic from overflowing. */
  lemma DurationBoundIsExact(d: Int64)
    requires d >= 0
    ensures d <= MAX_DURATION_MS <==> NegatedTimes(Wrap(d + 1)) == (0 - d - 1) * MILLISECOND
  {
    WrapIsExactInRange(d + 1);
    WrapIsExactInRange(0 - d - 1);
    WrapIsExactInRange((0 - d - 1) * MILLISECOND);
  }

  lemma WindowIsMathematical(observedAt: int, t: Timings)
    requires StagesFit(t)
    ensures EarliestTlsStart(observedAt, t) == observedAt - (t.durationMS + 1) * MILLISECOND + t.tcpMS * MILLISECOND
    ensures LatestTlsCompletion(observedAt, t) == observedAt - t.ttfbMS * MILLISECOND
    ensures EarliestTlsStart(observedAt, t) + t.tlsMS * MILLISECOND < LatestTlsCompletion(observedAt, t)
  {
    DurationBoundIsExact(t.durationMS);
    WrapIsExactInRange(t.tcpMS * MILLISECOND);
    WrapIsExactInRange(0 - t.ttfbMS);
    WrapIsExactInRange((0 - t.ttfbMS) * MILLISECOND);
  }

  // ---------- Producer against validator ----------

  /** What truncation says about a span. */
  lemma Truncated(d: Int64)
    requires d >= 0
    ensures Milliseconds(d) * MILLISECOND <= d < (Milliseconds(d) + 1) * MILLISECOND
  {
  }

  lemma MeasuredSpans(t: Trace)
    requires t.Ordered() && t.finished - t.started < (MAX_DURATION_MS + 1) * MILLISECOND
    ensures var m := Measure(t);
      && m.durationMS * MILLISECOND <= t.finished - t.started < (m.durationMS + 1) * MILLISECOND
      && m.tcpMS * MILLISECOND <= t.connectDone - t.connectStarted
      && m.tlsMS * MILLISECOND <= t.tlsDone - t.tlsStarted
      && m.ttfbMS * MILLISECOND <= Max(0, t.firstByte - t.requestWritten)
      && m.tcpMS >= 0 && m.tlsMS >= 0 && m.ttfbMS >= 0
  {
    Truncated(Sub(t.finished, t.started));
    Truncated(Sub(t.connectDone, t.connectStarted));
    Truncated(Sub(t.tlsDone, t.tlsStarted));
    Truncated(NonNegative(Sub(t.firstByte, t.requestWritten)));
  }

  lemma LongSpans(t: Trace)
    requires t.Ordered() && t.finished - t.started >= (MAX_DURATION_MS + 1) * MILLISECOND
    ensures Measure(t).durationMS > MAX_DURATION_MS
  {
    Truncated(Sub(t.finished, t.started));
  }

  /** The stages of every ordered trace fit, although each is truncated on its own, exactly when the
      whole attempt stayed below the representable interval. */
  lemma MeasuredStagesFit(t: Trace)
    requires t.Ordered()
    ensures StagesFit(Measure(t)) <==> t.finished - t.started < (MAX_DURATION_MS + 1) * MILLISECOND
  {
    if t.finished - t.started < (MAX_DURATION_MS + 1) * MILLISECOND {
      MeasuredSpans(t);
    } else {
      LongSpans(t);
    }
  }

  /** A certificate that was valid at a moment of the handshake. */
  predicate ValidDuringHandshake(t: Trace, moment: int, notBefore: int, notAfter: int) {
    t.tlsStarted <= moment <= t.tlsDone && notBefore <= moment <= notAfter
  }

  /** No certificate that was valid when it was checked is refused for truncated timings. */
  lemma HandshakeIsInTheWindow(t: Trace, moment: int, notBefore: int, notAfter: int)
    requires t.Ordered() && t.finished - t.started < (MAX_DURATION_MS + 1) * MILLISECOND
    requires ValidDuringHandshake(t, moment, notBefore, notAfter)
    ensures WindowOverlaps(t.finished, Measure(t), notBefore, notAfter)
    ensures notAfter != EarliestTlsStart(t.finished, Measure(t))
  {
    MeasuredStagesFit(t);
    MeasuredSpans(t);
    WindowIsMathematical(t.finished, Measure(t));
  }

  /** Some attempt with exactly these timings had the certificate valid during its handshake. */
  ghost predicate Explainable(observedAt: int, m: Timings, notBefore: int, notAfter: int) {
    exists t: Trace, moment: int ::
      t.Ordered() && t.finished == observedAt && Measure(t) == m && ValidDuringHandshake(t, moment, notBefore, notAfter)
  }

  /** The slowest attempt these timings allow, with its handshake ending at `done`. */
  function SlowestTrace(observedAt: int, m: Timings, done: int): Trace {
    var start := observedAt - (m.durationMS + 1) * MILLISECOND + 1;
    var written := observedAt - m.ttfbMS * MILLISECOND;
    Trace(start, start, start + m.tcpMS * MILLISECOND, done - m.tlsMS * MILLISECOND, done,
          written, observedAt, observedAt)
  }

  lemma MillisecondsOf(ms: int, extra: int)
    requires 0 <= ms <= MAX_DURATION_MS && 0 <= extra < MILLISECOND
    ensures Milliseconds(ms * MILLISECOND + extra) == ms
  {
  }

  lemma SlowestTraceFits(observedAt: int, m: Timings, done: int)
    requires StagesFit(m)
    requires EarliestTlsStart(observedAt, m) + 1 <= done - m.tlsMS * MILLISECOND
    requires done <= LatestTlsCompletion(observedAt, m)
    ensures SlowestTrace(observedAt, m, done).Ordered() && Measure(SlowestTrace(observedAt, m, done)) == m
  {
    WindowIsMathematical(observedAt, m);
    MillisecondsOf(m.durationMS, MILLISECOND - 1);
    MillisecondsOf(m.tcpMS, 0);
    MillisecondsOf(m.tlsMS, 0);
    MillisecondsOf(m.ttfbMS, 0);
  }

  /** The window check is exact: it accepts a certificate if and only if some real attempt explains
      it, except that it also lets through one that expired on the window's very first nanosecond. */
  lemma WindowIsExact(observedAt: int, m: Timings, notBefore: int, notAfter: int)
    requires StagesFit(m) && notBefore < notAfter
    ensures WindowOverlaps(observedAt, m, notBefore, notAfter) <==>
      (Explainable(observedAt, m, notBefore, notAfter) || notAfter == EarliestTlsStart(observedAt, m))
    ensures WindowOverlaps(observedAt, m, notBefore, notAfter) && !Explainable(observedAt, m, notBefore, notAfter)
       <==> notAfter == EarliestTlsStart(observedAt, m)
  {
    var first := EarliestTlsStart(observedAt, m) + 1;
    var last := LatestTlsCompletion(observedAt, m);
    WindowIsMathematical(observedAt, m);
    if WindowOverlaps(observedAt, m, notBefore, notAfter) && notAfter >= first {
      var moment := Max(notBefore, first);
      var done := Min(last, moment + m.tlsMS * MILLISECOND);
      SlowestTraceFits(observedAt, m, done);
      assert ValidDuringHandshake(SlowestTrace(observedAt, m, done), moment, notBefore, notAfter);
    }
    if Explainable(observedAt, m, notBefore, notAfter) {
      var t: Trace, moment: int :|
        && t.Ordered() && t.finished == observedAt && Measure(t) == m
        && ValidDuringHandshake(t, moment, notBefore, notAfter);
      MeasuredStagesFit(t);
      HandshakeIsInTheWindow(t, moment, notBefore, notAfter);
    }
  }

  /** The exception is real. An attempt of one second is observed ten seconds after the epoch, so its window opens
      at 8.999 seconds. A certificate that expired at that very moment is accepted, and no attempt explains it. */
  lemma ExpiredCertificateIsAccepted()
    ensures var m, observedAt, notAfter := Timings(1000, 0, 0, 0), 10_000 * MILLISECOND, 8_999 * MILLISECOND;
      && StagesFit(m) && WindowOverlaps(observedAt, m, 0, notAfter) && !Explainable(observedAt, m, 0, notAfter)
  {
    var m, observedAt, notAfter := Timings(1000, 0, 0, 0), 10_000 * MILLISECOND, 8_999 * MILLISECOND;
    WindowIsMathematical(observedAt, m);
    assert notAfter == EarliestTlsStart(observedAt, m);
    if t: Trace, moment: int :|
      t.Ordered() && t.finished == observedAt && Measure(t) == m && ValidDuringHandshake(t, moment, 0, notAfter)
    {
      MeasuredStagesFit(t);
      HandshakeIsInTheWindow(t, moment, 0, notAfter);
    }
  }
}
