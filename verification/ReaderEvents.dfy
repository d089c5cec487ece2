/** What the sink is told: output while it comes, and one event at the end. */
module ReaderEvents {
  import opened Wrappers
  import opened Sentinels
  import opened OutputReader

  /** The event that goes with an outcome. */
  function TerminalOf(outcome: ReadOutcome): ReadEvent {
    match outcome
    case Done(_, exitCode) => DoneEvent(exitCode)
    case Quiet(_, reason) => QuietEvent(reason)
    case Eof(_) => Dead
  }

  predicate AllOutput(events: seq<ReadEvent>) {
    forall i :: 0 <= i < |events| ==> events[i].Output?
  }

  /** With a sink: nothing but output while the call waits, and then the outcome's event
      as the last one. Without a sink: nothing. */
  ghost predicate Tells(st: ReaderState, st': ReaderState, outcome: Option<ReadOutcome>) {
    && st'.hasSink == st.hasSink
    && st.events <= st'.events
    && var added := st'.events[|st.events|..];
    if !st.hasSink then added == []
    else if outcome.None? then AllOutput(added)
    else
      && added != []
      && AllOutput(added[..|added| - 1])
      && added[|added| - 1] == TerminalOf(outcome.value)
  }

  lemma ShipTells(st: ReaderState, end: nat)
    requires end <= |st.buf|
    ensures Tells(st, st.Ship(end), None)
  {
  }

  lemma EmitTells(st: ReaderState, st': ReaderState, outcome: ReadOutcome)
    requires Tells(st, st', None)
    ensures Tells(st, st'.Emit(TerminalOf(outcome)), Some(outcome))
  {
    var added := st'.events[|st.events|..];
    if st.hasSink {
      assert (st'.events + [TerminalOf(outcome)])[|st.events|..] == added + [TerminalOf(outcome)];
    }
  }

  lemma MatchTells(st: ReaderState, m: SentinelMatch)
    requires m.outputLen < m.consumed <= |st.buf|
    ensures var (st', outcome) := st.TakeMatch(m);
      Tells(st, st', Some(outcome)) && outcome == Done(st.buf[..m.outputLen], m.exitCode)
  {
    ShipTells(st, m.outputLen);
    EmitTells(st, st.Ship(m.outputLen), st.TakeMatch(m).1);
  }

  lemma DrainTells(st: ReaderState, reason: QuietReason)
    ensures Tells(st, st.TakeQuiet(reason).0, Some(Quiet(st.buf, reason)))
    ensures Tells(st, st.TakeEof().0, Some(Eof(st.buf)))
  {
    ShipTells(st, |st.buf|);
    EmitTells(st, st.Ship(|st.buf|), Quiet(st.buf, reason));
    EmitTells(st, st.Ship(|st.buf|), Eof(st.buf));
  }

  lemma ReceiveTells(s: Sentinel, st: ReaderState, a: Arrival)
    ensures var (st', outcome) := st.Receive(s, a); Tells(st, st', outcome)
  {
    match a
    case Timer(reason) => DrainTells(st, reason);
    case Bytes(chunk) =>
      var longer := st.(buf := st.buf + chunk);
      if chunk == [] {
        DrainTells(st, NoOutput);
      } else if s.Found(longer.buf).Some? {
        MatchTells(longer, s.Found(longer.buf).value);
      } else {
        ShipTells(longer, longer.SafeEnd(s));
      }
  }

  lemma TellsOn(a: ReaderState, b: ReaderState, c: ReaderState, outcome: Option<ReadOutcome>)
    requires Tells(a, b, None) && Tells(b, c, outcome)
    ensures Tells(a, c, outcome)
  {
    var first, second := b.events[|a.events|..], c.events[|b.events|..];
    assert c.events[|a.events|..] == first + second;
    if outcome.Some? && second != [] {
      assert (first + second)[..|first + second| - 1] == first + second[..|second| - 1];
    }
  }

  lemma {:induction false} LoopTells(s: Sentinel, st: ReaderState, arrivals: seq<Arrival>)
    ensures var (st', outcome, _) := Loop(s, st, arrivals); Tells(st, st', outcome)
    decreases |arrivals|
  {
    if arrivals != [] {
      ReceiveTells(s, st, arrivals[0]);
      var (st1, outcome) := st.Receive(s, arrivals[0]);
      if outcome.None? {
        LoopTells(s, st1, arrivals[1..]);
        var (st', outcome', _) := Loop(s, st1, arrivals[1..]);
        TellsOn(st, st1, st', outcome');
      }
    }
  }

  /** Whatever a call is given, the sink is told its outcome, once and last. */
  lemma CallTells(s: Sentinel, st: ReaderState, arrivals: seq<Arrival>)
    ensures var (st', outcome, _) := Call(s, st, arrivals); Tells(st, st', outcome)
  {
    if s.Found(st.buf).Some? {
      MatchTells(st, s.Found(st.buf).value);
    } else {
      LoopTells(s, st, arrivals);
    }
  }

  // ----- What an outcome comes from -----

  /** A call ends with the arrival that its outcome speaks of: a timer with its reason, the
      end of the stream, or the bytes that complete a marker. */
  predicate EndsWith(a: Arrival, outcome: ReadOutcome) {
    match outcome
    case Quiet(_, reason) => a == Timer(reason)
    case Eof(_) => a == Bytes([])
    case Done(_, _) => a.Bytes? && a.chunk != []
  }

  lemma {:induction false} LoopEndsWith(s: Sentinel, st: ReaderState, arrivals: seq<Arrival>)
    ensures var (_, outcome, rest) := Loop(s, st, arrivals);
      outcome.Some? ==>
        && |rest| < |arrivals|
        && rest == arrivals[|arrivals| - |rest|..]
        && EndsWith(arrivals[|arrivals| - |rest| - 1], outcome.value)
    decreases |arrivals|
  {
    if arrivals != [] {
      var (st', outcome) := st.Receive(s, arrivals[0]);
      if outcome.None? {
        LoopEndsWith(s, st', arrivals[1..]);
      }
    }
  }

  /** A call whose buffer holds no marker takes arrivals up to the one that ends it, and no
      more; with a marker in the buffer it takes none. */
  lemma CallEndsWith(s: Sentinel, st: ReaderState, arrivals: seq<Arrival>)
    ensures var (_, outcome, rest) := Call(s, st, arrivals);
      if s.Found(st.buf).Some? then rest == arrivals && outcome.Some? && outcome.value.Done?
      else outcome.Some? ==>
        && |rest| < |arrivals|
        && rest == arrivals[|arrivals| - |rest|..]
        && EndsWith(arrivals[|arrivals| - |rest| - 1], outcome.value)
  {
    if s.Found(st.buf).None? { LoopEndsWith(s, st, arrivals); }
  }
}
