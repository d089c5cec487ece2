/** The reader's answers depend on the byte stream alone, and what it ships is
    exactly what it returns. */
module ReaderLaws {
  import opened Decimals
  import opened Octets
  import opened Sequences
  import opened Wrappers
  import opened Sentinels
  import opened SentinelLaws
  import opened OutputReader

  function BytesOf(arrivals: seq<Arrival>): seq<Byte> {
    if arrivals == [] then []
    else (if arrivals[0].Bytes? then arrivals[0].chunk else []) + BytesOf(arrivals[1..])
  }

  /** A stretch of the stream: non-empty reads and no timer. */
  ghost predicate Chunks(arrivals: seq<Arrival>) {
    forall i :: 0 <= i < |arrivals| ==> arrivals[i].Bytes? && arrivals[i].chunk != []
  }

  const END: Arrival := Bytes([])

  // ----- Where every byte goes -----

  /** The bytes a call started with or received are all in its outcome or still
      buffered, but for the marker; only the first marker ends the output. */
  ghost predicate Accounts(s: Sentinel, whole: seq<Byte>, left: seq<Byte>, outcome: Option<ReadOutcome>) {
    match outcome
    case None => left == whole && s.Found(whole).None?
    case Some(Done(output, exitCode)) =>
      && s.Found(whole).Some?
      && var m := s.Found(whole).value;
      output == whole[..m.outputLen] && exitCode == m.exitCode && left == whole[m.consumed..]
    case Some(Quiet(output, _)) => output == whole && left == [] && s.Found(whole).None?
    case Some(Eof(output)) => output == whole && left == [] && s.Found(whole).None?
  }

  lemma ReceiveAccounts(s: Sentinel, st: ReaderState, a: Arrival)
    requires s.Found(st.buf).None?
    ensures var (st', outcome) := st.Receive(s, a);
      Accounts(s, st.buf + BytesOf([a]), st'.buf, outcome)
  {
    assert BytesOf([a]) == if a.Bytes? then a.chunk else [];
    assert st.buf + [] == st.buf;
  }

  lemma BytesOfCons(a: Arrival, arrivals: seq<Arrival>)
    ensures BytesOf([a] + arrivals) == BytesOf([a]) + BytesOf(arrivals)
  {
    assert ([a] + arrivals)[1..] == arrivals && [a][1..] == [];
  }

  /** The arrivals a call took: the loop hands back a suffix. */
  function Used(arrivals: seq<Arrival>, rest: seq<Arrival>): seq<Arrival> {
    if |rest| <= |arrivals| then arrivals[..|arrivals| - |rest|] else []
  }

  lemma LoopTakesOne(s: Sentinel, st: ReaderState, arrivals: seq<Arrival>, rest: seq<Arrival>)
    requires arrivals != [] && |rest| < |arrivals|
    requires st.Receive(s, arrivals[0]).1.None?
    ensures var st1 := st.Receive(s, arrivals[0]).0;
      st.buf + BytesOf(Used(arrivals, rest)) == st1.buf + BytesOf(Used(arrivals[1..], rest))
    ensures Used(arrivals, rest) == [arrivals[0]] + Used(arrivals[1..], rest)
  {
    var a, tail := arrivals[0], arrivals[1..];
    assert Used(arrivals, rest) == [a] + Used(tail, rest);
    BytesOfCons(a, Used(tail, rest));
    assert BytesOf([a]) == a.chunk;
    assert st.buf + (a.chunk + BytesOf(Used(tail, rest))) == st.buf + a.chunk + BytesOf(Used(tail, rest));
  }

  lemma {:induction false} LoopAccounts(s: Sentinel, st: ReaderState, arrivals: seq<Arrival>)
    requires s.Found(st.buf).None?
    ensures var (st', outcome, rest) := Loop(s, st, arrivals);
      && Used(arrivals, rest) + rest == arrivals
      && (outcome.None? ==> rest == [])
      && Accounts(s, st.buf + BytesOf(Used(arrivals, rest)), st'.buf, outcome)
    decreases |arrivals|
  {
    if arrivals == [] {
      assert st.buf + BytesOf([]) == st.buf;
    } else {
      var a, tail := arrivals[0], arrivals[1..];
      ReceiveAccounts(s, st, a);
      var (st1, outcome1) := st.Receive(s, a);
      if outcome1.Some? {
        assert Used(arrivals, tail) == [a];
      } else {
        LoopAccounts(s, st1, tail);
        LoopTakesOne(s, st, arrivals, Loop(s, st1, tail).2);
      }
    }
  }

  /** Whatever a call is given, timers included, no byte is lost or made up. */
  lemma CallAccounts(s: Sentinel, st: ReaderState, arrivals: seq<Arrival>)
    ensures var (st', outcome, rest) := Call(s, st, arrivals);
      && Used(arrivals, rest) + rest == arrivals
      && (outcome.None? ==> rest == [])
      && Accounts(s, st.buf + BytesOf(Used(arrivals, rest)), st'.buf, outcome)
  {
    if s.Found(st.buf).Some? {
      assert Used(arrivals, arrivals) == [];
      assert st.buf + [] == st.buf;
    } else {
      LoopAccounts(s, st, arrivals);
    }
  }

  // ----- Outcomes -----

  lemma {:induction false} BytesOfConcat(first: seq<Arrival>, second: seq<Arrival>)
    ensures BytesOf(first + second) == BytesOf(first) + BytesOf(second)
    decreases |first|
  {
    if first == [] {
      assert first + second == second;
    } else {
      assert (first + second)[1..] == first[1..] + second;
      BytesOfConcat(first[1..], second);
    }
  }

  /** What a stream that then ends must yield: the output before its first marker,
      leaving everything after it; or all of it when it has no marker. */
  ghost predicate Answers(s: Sentinel, stream: seq<Byte>, outcome: Option<ReadOutcome>, after: seq<Byte>) {
    match s.Found(stream)
    case Some(m) => outcome == Some(Done(stream[..m.outputLen], m.exitCode)) && after == stream[m.consumed..]
    case None => outcome == Some(Eof(stream)) && after == []
  }

  lemma {:induction false} EndIsReached(s: Sentinel, st: ReaderState, arrivals: seq<Arrival>)
    requires Chunks(arrivals)
    ensures var (_, outcome, rest) := Loop(s, st, arrivals + [END]);
      outcome.Some? && !outcome.value.Quiet? && (outcome.value.Eof? ==> rest == [])
    decreases |arrivals|
  {
    if arrivals != [] {
      assert (arrivals + [END])[1..] == arrivals[1..] + [END];
      EndIsReached(s, st.Receive(s, arrivals[0]).0, arrivals[1..]);
    }
  }

  lemma DoneAnswers(s: Sentinel, whole: seq<Byte>, more: seq<Byte>)
    requires s.Found(whole).Some?
    ensures s.Found(whole + more) == s.Found(whole)
    ensures var m := s.Found(whole).value;
      && (whole + more)[..m.outputLen] == whole[..m.outputLen]
      && (whole + more)[m.consumed..] == whole[m.consumed..] + more
  {
    FoundStays(s, whole, more);
    var m := s.Found(whole).value;
    assert (whole + more)[..m.outputLen] == whole[..m.outputLen];
    assert (whole + more)[m.consumed..] == whole[m.consumed..] + more;
  }

  lemma AccountsAnswers(s: Sentinel, whole: seq<Byte>, left: seq<Byte>, more: seq<Byte>, outcome: Option<ReadOutcome>)
    requires Accounts(s, whole, left, outcome)
    requires outcome.Some? && !outcome.value.Quiet? && (outcome.value.Eof? ==> more == [])
    ensures Answers(s, whole + more, outcome, left + more)
  {
    if outcome.value.Done? {
      DoneAnswers(s, whole, more);
    } else {
      assert whole + more == whole;
      assert left + more == left;
    }
  }

  lemma BytesOfEnd(arrivals: seq<Arrival>)
    ensures BytesOf(arrivals + [END]) == BytesOf(arrivals)
  {
    BytesOfConcat(arrivals, [END]);
    assert BytesOf([END]) == [] by { assert [END][1..] == []; }
    assert BytesOf(arrivals) + [] == BytesOf(arrivals);
  }

  lemma WholeStream(buf: seq<Byte>, arrivals: seq<Arrival>, used: seq<Arrival>, rest: seq<Arrival>)
    requires used + rest == arrivals + [END]
    ensures buf + BytesOf(used) + BytesOf(rest) == buf + BytesOf(arrivals)
  {
    BytesOfEnd(arrivals);
    BytesOfConcat(used, rest);
    Associative(buf, BytesOf(used), BytesOf(rest));
  }

  /** However the stream is cut into reads, a call gives the answer of the stream. */
  lemma OutcomeFromStream(s: Sentinel, st: ReaderState, arrivals: seq<Arrival>)
    requires Chunks(arrivals)
    ensures var (st', outcome, rest) := Call(s, st, arrivals + [END]);
      Answers(s, st.buf + BytesOf(arrivals), outcome, st'.buf + BytesOf(rest))
  {
    var all := arrivals + [END];
    CallAccounts(s, st, all);
    EndIsReached(s, st, arrivals);
    var (st', outcome, rest) := Call(s, st, all);
    WholeStream(st.buf, arrivals, Used(all, rest), rest);
    AccountsAnswers(s, st.buf + BytesOf(Used(all, rest)), st'.buf, BytesOf(rest), outcome);
  }

  /** A call that was dropped while waiting is resumed by the next one as if it had
      never been interrupted. */
  lemma {:induction false} DroppedCallResumes(s: Sentinel, st: ReaderState, first: seq<Arrival>, second: seq<Arrival>)
    requires Call(s, st, first).1.None?
    ensures Call(s, st, first + second) == Call(s, Call(s, st, first).0, second)
    decreases |first|
  {
    if first == [] {
      assert first + second == second;
    } else {
      var (st', outcome) := st.Receive(s, first[0]);
      assert (first + second)[1..] == first[1..] + second;
      assert st'.buf == st.buf + first[0].chunk;
      DroppedCallResumes(s, st', first[1..], second);
    }
  }

  // ----- Shipping -----

  /** The output bytes that the sink has received. */
  function Sent(events: seq<ReadEvent>): seq<Byte> {
    if events == [] then []
    else Sent(events[..|events| - 1]) + if events[|events| - 1].Output? then events[|events| - 1].bytes else []
  }

  /** A waiting call with a sink: no marker is complete, the bytes held back could
      hold one, and what was shipped of this output is what left the buffer's front. */
  ghost predicate Shipping(s: Sentinel, st: ReaderState, sentBefore: seq<Byte>) {
    && st.hasSink
    && s.Found(st.buf).None?
    && st.shipped <= st.SafeEnd(s)
    && Sent(st.events) == sentBefore + st.buf[..st.shipped]
  }

  /** The longest marker that the held back bytes are sure to cover. */
  predicate Covered(s: Sentinel, m: SentinelMatch) {
    m.consumed - m.outputLen <= s.MaxMatchLen() + 1
  }

  lemma ShipSends(st: ReaderState, end: nat, sentBefore: seq<Byte>)
    requires st.hasSink && end <= |st.buf| && st.shipped <= |st.buf|
    requires Sent(st.events) == sentBefore + st.buf[..st.shipped]
    ensures var st' := st.Ship(end);
      st'.shipped == (if end <= st.shipped then st.shipped else end)
      && Sent(st'.events) == sentBefore + st'.buf[..st'.shipped]
  {
    if st.shipped < end {
      var events := st.events + [Output(st.buf[st.shipped..end])];
      assert events[..|events| - 1] == st.events;
      assert st.buf[..end] == st.buf[..st.shipped] + st.buf[st.shipped..end];
    }
  }

  lemma TerminalSendsNothing(st: ReaderState, event: ReadEvent)
    requires !event.Output?
    ensures Sent(st.Emit(event).events) == Sent(st.events)
  {
    var events := st.events + [event];
    assert events[..|events| - 1] == st.events;
  }

  /** A read that completes no marker ships and keeps the reserve. */
  lemma WaitingShips(s: Sentinel, st: ReaderState, chunk: seq<Byte>, sentBefore: seq<Byte>)
    requires Shipping(s, st, sentBefore) && chunk != [] && s.Found(st.buf + chunk).None?
    ensures Shipping(s, st.(buf := st.buf + chunk).ShipSafe(s), sentBefore)
  {
    var st' := st.(buf := st.buf + chunk);
    assert st'.buf[..st.shipped] == st.buf[..st.shipped];
    ShipSends(st', st'.SafeEnd(s), sentBefore);
  }

  /** A read that completes a marker: the sink has the output, or more of the stream
      than that when the marker is too long for the reserve. */
  lemma MatchShips(s: Sentinel, st: ReaderState, chunk: seq<Byte>, sentBefore: seq<Byte>)
    requires Shipping(s, st, sentBefore) && chunk != [] && s.Found(st.buf + chunk).Some?
    ensures var m := s.Found(st.buf + chunk).value;
      var st' := st.(buf := st.buf + chunk).TakeMatch(m).0;
      && (m.outputLen < st.shipped ==> Sent(st'.events) == sentBefore + st.buf[..st.shipped])
      && (st.shipped <= m.outputLen ==> Sent(st'.events) == sentBefore + (st.buf + chunk)[..m.outputLen])
      && (Covered(s, m) ==> st.shipped <= m.outputLen)
  {
    var m := s.Found(st.buf + chunk).value;
    if m.consumed <= |st.buf| {
      FoundEarly(s, st.buf, chunk);
    }
    var st' := st.(buf := st.buf + chunk);
    assert st'.buf[..st.shipped] == st.buf[..st.shipped];
    ShipSends(st', m.outputLen, sentBefore);
    TerminalSendsNothing(st'.Ship(m.outputLen), DoneEvent(m.exitCode));
  }

  lemma DrainShips(s: Sentinel, st: ReaderState, sentBefore: seq<Byte>, last: ReadEvent)
    requires Shipping(s, st, sentBefore) && !last.Output?
    ensures Sent(st.Ship(|st.buf|).Emit(last).events) == sentBefore + st.buf
  {
    ShipSends(st, |st.buf|, sentBefore);
    TerminalSendsNothing(st.Ship(|st.buf|), last);
    assert st.buf[..|st.buf|] == st.buf;
  }

  /** What the sink has once a call gives its outcome, or while it waits. */
  ghost predicate Shipped(s: Sentinel, whole: seq<Byte>, st: ReaderState, outcome: Option<ReadOutcome>,
                          sentBefore: seq<Byte>) {
    match outcome
    case None => Shipping(s, st, sentBefore)
    case Some(o) =>
      (o.Done? ==> s.Found(whole).Some? && Covered(s, s.Found(whole).value)) ==>
        Sent(st.events) == sentBefore + o.output
  }

  lemma ReceiveShips(s: Sentinel, st: ReaderState, a: Arrival, sentBefore: seq<Byte>)
    requires Shipping(s, st, sentBefore)
    ensures var (st', outcome) := st.Receive(s, a);
      Shipped(s, st.buf + BytesOf([a]), st', outcome, sentBefore)
  {
    assert BytesOf([a]) == if a.Bytes? then a.chunk else [];
    match a
    case Timer(reason) => DrainShips(s, st, sentBefore, QuietEvent(reason));
    case Bytes(chunk) =>
      if chunk == [] {
        DrainShips(s, st, sentBefore, Dead);
      } else if s.Found(st.buf + chunk).Some? {
        MatchShips(s, st, chunk, sentBefore);
      } else {
        WaitingShips(s, st, chunk, sentBefore);
      }
  }

  /** For every way a call can end, interrupted by timers or not, the sink has
      received exactly the output that the call returns, if its marker is covered. */
  lemma {:induction false} LoopShips(s: Sentinel, st: ReaderState, arrivals: seq<Arrival>, sentBefore: seq<Byte>)
    requires Shipping(s, st, sentBefore)
    ensures var (st', outcome, rest) := Loop(s, st, arrivals);
      Shipped(s, st.buf + BytesOf(Used(arrivals, rest)), st', outcome, sentBefore)
    decreases |arrivals|
  {
    if arrivals != [] {
      var a, tail := arrivals[0], arrivals[1..];
      ReceiveShips(s, st, a, sentBefore);
      ReceiveAccounts(s, st, a);
      var (st1, outcome1) := st.Receive(s, a);
      if outcome1.Some? {
        assert Used(arrivals, tail) == [a];
      } else {
        LoopShips(s, st1, tail, sentBefore);
        LoopAccounts(s, st1, tail);
        LoopTakesOne(s, st, arrivals, Loop(s, st1, tail).2);
      }
    }
  }

  // ----- When marker bytes can never be shipped -----

  const FRESH := ReaderState([], 0, true, [])

  lemma NothingFoundInNothing(s: Sentinel)
    ensures s.Found([]).None?
  {
  }

  /** The stream in one-byte reads. */
  function Single(stream: seq<Byte>): (r: seq<Arrival>)
    ensures |r| == |stream| && Chunks(r)
  {
    seq(|stream|, i requires 0 <= i < |stream| => Bytes([stream[i]]))
  }

  lemma {:induction false} BytesOfSingle(stream: seq<Byte>)
    ensures BytesOf(Single(stream)) == stream
    decreases |stream|
  {
    if stream != [] {
      assert Single(stream)[1..] == Single(stream[1..]);
      BytesOfSingle(stream[1..]);
    }
  }

  lemma OneMoreByte(s: Sentinel, stream: seq<Byte>)
    requires stream != [] && s.Found(stream[..|stream| - 1]).None?
    requires var (st, outcome, _) := Loop(s, FRESH, Single(stream[..|stream| - 1]));
      outcome.None? && st.buf == stream[..|stream| - 1]
    ensures var st := Loop(s, FRESH, Single(stream[..|stream| - 1])).0;
      var (st', outcome) := st.Receive(s, Bytes([stream[|stream| - 1]]));
      Loop(s, FRESH, Single(stream)) == (st', outcome, [])
  {
    var init, last := stream[..|stream| - 1], Bytes([stream[|stream| - 1]]);
    NothingFoundInNothing(s);
    assert Single(stream) == Single(init) + [last];
    DroppedCallResumes(s, FRESH, Single(init), [last]);
    var st := Loop(s, FRESH, Single(init)).0;
    var (st', outcome) := st.Receive(s, last);
    assert [last][0] == last && [last][1..] == [];
    assert Loop(s, st, [last]) == (st', outcome, []);
  }

  /** Byte by byte, everything but the reserve has been shipped. */
  lemma {:induction false} SingleShips(s: Sentinel, stream: seq<Byte>)
    requires s.Found(stream).None?
    ensures var (st, outcome, rest) := Loop(s, FRESH, Single(stream));
      outcome.None? && st.buf == stream && Shipping(s, st, []) && st.shipped == st.SafeEnd(s)
    decreases |stream|
  {
    if stream != [] {
      var n := |stream| - 1;
      var init, last := stream[..n], Bytes([stream[n]]);
      assert stream == init + last.chunk;
      if s.Found(init).Some? {
        FoundStays(s, init, last.chunk);
      }
      SingleShips(s, init);
      OneMoreByte(s, stream);
      WaitingShips(s, Loop(s, FRESH, Single(init)).0, last.chunk, []);
    }
  }

  /** A marker longer than the reserve covers leaks into the one-byte reads. */
  lemma SingleLeaks(s: Sentinel, stream: seq<Byte>)
    requires s.Found(stream).Some? && !Covered(s, s.Found(stream).value)
    requires s.Found(stream).value.consumed == |stream|
    ensures Sent(Loop(s, FRESH, Single(stream)).0.events) != stream[..s.Found(stream).value.outputLen]
  {
    var n, m := |stream| - 1, s.Found(stream).value;
    var init, last := stream[..n], Bytes([stream[n]]);
    assert stream == init + last.chunk;
    if s.Found(init).Some? {
      FoundStays(s, init, last.chunk);
    }
    SingleShips(s, init);
    OneMoreByte(s, stream);
    var st := Loop(s, FRESH, Single(init)).0;
    MatchShips(s, st, last.chunk, []);
    assert |Sent(Loop(s, FRESH, Single(stream)).0.events)| == st.shipped > m.outputLen;
  }

  /** Every way of cutting a stream that ends with its first marker ships exactly
      the output, if and only if the marker is covered by the reserve. */
  lemma LeakFreeIff(s: Sentinel, stream: seq<Byte>)
    requires s.Found(stream).Some? && s.Found(stream).value.consumed == |stream|
    ensures (forall arrivals :: Chunks(arrivals) && BytesOf(arrivals) == stream ==>
              Sent(Loop(s, FRESH, arrivals).0.events) == stream[..s.Found(stream).value.outputLen])
       <==> Covered(s, s.Found(stream).value)
  {
    if Covered(s, s.Found(stream).value) {
      forall arrivals | Chunks(arrivals) && BytesOf(arrivals) == stream
        ensures Sent(Loop(s, FRESH, arrivals).0.events) == stream[..s.Found(stream).value.outputLen]
      {
        CoveredShips(s, stream, arrivals);
      }
    } else {
      BytesOfSingle(stream);
      SingleLeaks(s, stream);
    }
  }

  /** A marker whose exit code is spelled with more zeros than a printed one has. */
  function LongMarker(s: Sentinel): seq<Byte> {
    [NEWLINE] + s.prefix + seq(13, _ => ZERO) + SUFFIX
  }

  lemma {:induction false} ZerosAreZero(text: seq<Byte>, n: nat)
    requires n <= |text| && forall k :: 0 <= k < n ==> text[k] == ZERO
    ensures Decimal(text, n) == 0
  {
    if n > 0 { ZerosAreZero(text, n - 1); }
  }

  lemma LongMarkerMarks(s: Sentinel)
    ensures MarkedAt(s, LongMarker(s), 0, seq(13, _ => ZERO))
  {
    var buf, text: seq<Byte> := LongMarker(s), seq(13, _ => ZERO);
    assert buf == [NEWLINE] + s.prefix + (text + SUFFIX);
    Middle([NEWLINE], s.prefix, text + SUFFIX);
    Middle([NEWLINE] + s.prefix, text, SUFFIX);
    assert buf == ([NEWLINE] + s.prefix + text) + SUFFIX + [];
    Middle([NEWLINE] + s.prefix + text, SUFFIX, []);
  }

  lemma LongMarkerFound(s: Sentinel)
    ensures s.Found(LongMarker(s)) == Some(SentinelMatch(0, |LongMarker(s)|, 0))
  {
    LongMarkerMarks(s);
    var buf, text: seq<Byte>, start := LongMarker(s), seq(13, _ => ZERO), 1 + |s.prefix|;
    var end := start + 13;
    assert forall k :: start <= k < end ==> buf[k] == buf[start..end][k - start] == ZERO;
    assert buf[end] == buf[end..end + |SUFFIX|][0] == UNDERSCORE;
    DigitsEndAt(buf, start, end);
    ZerosAreZero(text, 13);
    FirstOpeningIs(s, buf, 0, 0);
  }

  /** The reserve is not enough for every marker: this one leaks when its bytes come
      one by one. */
  lemma LongMarkerLeaks(s: Sentinel)
    ensures var stream := LongMarker(s);
      && s.Found(stream) == Some(SentinelMatch(0, |stream|, 0))
      && !Covered(s, s.Found(stream).value)
      && BytesOf(Single(stream)) == stream
      && Sent(Loop(s, FRESH, Single(stream)).0.events) != []
  {
    LongMarkerFound(s);
    BytesOfSingle(LongMarker(s));
    SingleLeaks(s, LongMarker(s));
  }

  lemma {:induction false} ChunksNeverEnd(s: Sentinel, st: ReaderState, arrivals: seq<Arrival>)
    requires Chunks(arrivals)
    ensures var outcome := Loop(s, st, arrivals).1; outcome.Some? ==> outcome.value.Done?
    decreases |arrivals|
  {
    if arrivals != [] {
      ChunksNeverEnd(s, st.Receive(s, arrivals[0]).0, arrivals[1..]);
    }
  }

  lemma ShippedInStream(s: Sentinel, whole: seq<Byte>, more: seq<Byte>, st: ReaderState, outcome: Option<ReadOutcome>)
    requires Accounts(s, whole, st.buf, outcome) && Shipped(s, whole, st, outcome, [])
    requires outcome.Some? && outcome.value.Done?
    requires Covered(s, s.Found(whole).value)
    ensures s.Found(whole + more) == s.Found(whole)
    ensures Sent(st.events) == (whole + more)[..s.Found(whole).value.outputLen]
  {
    DoneAnswers(s, whole, more);
    assert [] + outcome.value.output == outcome.value.output;
  }

  lemma WaitingFindsNothing(s: Sentinel, arrivals: seq<Arrival>)
    ensures Loop(s, FRESH, arrivals).1.None? ==> s.Found(BytesOf(arrivals)).None?
  {
    NothingFoundInNothing(s);
    LoopAccounts(s, FRESH, arrivals);
    assert Used(arrivals, []) == arrivals;
    assert FRESH.buf + BytesOf(arrivals) == BytesOf(arrivals);
  }

  lemma CoveredAnswer(s: Sentinel, used: seq<Arrival>, rest: seq<Arrival>, st: ReaderState,
                      outcome: Option<ReadOutcome>)
    requires Accounts(s, BytesOf(used), st.buf, outcome) && Shipped(s, BytesOf(used), st, outcome, [])
    requires outcome.Some? && outcome.value.Done?
    requires s.Found(BytesOf(used + rest)).Some? && Covered(s, s.Found(BytesOf(used + rest)).value)
    ensures Sent(st.events) == BytesOf(used + rest)[..s.Found(BytesOf(used + rest)).value.outputLen]
  {
    BytesOfConcat(used, rest);
    DoneAnswers(s, BytesOf(used), BytesOf(rest));
    ShippedInStream(s, BytesOf(used), BytesOf(rest), st, outcome);
  }

  lemma CoveredShips(s: Sentinel, stream: seq<Byte>, arrivals: seq<Arrival>)
    requires s.Found(stream).Some? && Covered(s, s.Found(stream).value)
    requires Chunks(arrivals) && BytesOf(arrivals) == stream
    ensures Sent(Loop(s, FRESH, arrivals).0.events) == stream[..s.Found(stream).value.outputLen]
  {
    NothingFoundInNothing(s);
    LoopAccounts(s, FRESH, arrivals);
    LoopShips(s, FRESH, arrivals, []);
    ChunksNeverEnd(s, FRESH, arrivals);
    WaitingFindsNothing(s, arrivals);
    var (st', outcome, rest) := Loop(s, FRESH, arrivals);
    assert FRESH.buf + BytesOf(Used(arrivals, rest)) == BytesOf(Used(arrivals, rest));
    CoveredAnswer(s, Used(arrivals, rest), rest, st', outcome);
  }

  lemma {:induction false} FoundOutcome(s: Sentinel, arrivals: seq<Arrival>)
    requires Chunks(arrivals) && s.Found(BytesOf(arrivals)).Some?
    ensures var (st', outcome, left) := Call(s, FRESH, arrivals);
      Answers(s, BytesOf(arrivals), outcome, st'.buf + BytesOf(left))
  {
    NothingFoundInNothing(s);
    CallAccounts(s, FRESH, arrivals);
    ChunksNeverEnd(s, FRESH, arrivals);
    WaitingFindsNothing(s, arrivals);
    var (st', outcome, left) := Call(s, FRESH, arrivals);
    assert FRESH.buf + BytesOf(Used(arrivals, left)) == BytesOf(Used(arrivals, left));
    BytesOfConcat(Used(arrivals, left), left);
    AccountsAnswers(s, BytesOf(Used(arrivals, left)), st'.buf, BytesOf(left), outcome);
  }

  lemma Suffix<T>(a: seq<T>, b: seq<T>, c: seq<T>)
    ensures (a + b + c)[..|a|] == a && (a + b + c)[|a| + |b|..] == c
  {
  }

  /** A command's output followed by its printed marker: in however many reads it
      comes, the call returns the output and the exit code, the sink has the output
      and not one byte of the marker, and what follows is left for the next call. */
  lemma PrintedOutputShips(s: Sentinel, output: seq<Byte>, exitCode: int, after: seq<Byte>, arrivals: seq<Arrival>)
    requires I32_MIN <= exitCode <= I32_MAX
    requires Chunks(arrivals) && BytesOf(arrivals) == output + Marker(s, exitCode) + after
    requires NoneBefore(s, BytesOf(arrivals), |output|)
    ensures var (st', outcome, left) := Call(s, FRESH, arrivals);
      && outcome == Some(Done(output, exitCode))
      && Sent(st'.events) == output
      && st'.buf + BytesOf(left) == after
  {
    PrintedMarkerFound(s, output, exitCode, after);
    MarkerFits(s, exitCode);
    NothingFoundInNothing(s);
    CoveredShips(s, BytesOf(arrivals), arrivals);
    FoundOutcome(s, arrivals);
    Suffix(output, Marker(s, exitCode), after);
  }
}
