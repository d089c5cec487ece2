/** Reading a command's output up to its marker, shipping it while it arrives. */
module OutputReader {
  import opened Octets
  import opened Wrappers
  import opened Sentinels

  datatype QuietReason = NoOutput | MaxElapsed

  datatype ReadOutcome =
    | Done(output: seq<Byte>, exitCode: int)
    | Quiet(output: seq<Byte>, reason: QuietReason)
    | Eof(output: seq<Byte>)

  datatype ReadEvent = Output(bytes: seq<Byte>) | QuietEvent(reason: QuietReason) | DoneEvent(exitCode: int) | Dead

  /** What a pending read comes back with: bytes, none at the end of the stream,
      or a tripped timer. */
  datatype Arrival = Bytes(chunk: seq<Byte>) | Timer(reason: QuietReason)

  /** The reader's fields, and the events its sink has received if it has one. */
  datatype ReaderState = ReaderState(buf: seq<Byte>, shipped: nat, hasSink: bool, events: seq<ReadEvent>) {

    function Ship(end: nat): ReaderState
      requires end <= |buf|
    {
      if !hasSink || end <= shipped then this
      else this.(shipped := end, events := events + [Output(buf[shipped..end])])
    }

    function Emit(event: ReadEvent): ReaderState {
      if hasSink then this.(events := events + [event]) else this
    }

    function SafeEnd(s: Sentinel): nat {
      if |buf| < s.MaxMatchLen() then 0 else |buf| - s.MaxMatchLen()
    }

    function ShipSafe(s: Sentinel): ReaderState {
      Ship(SafeEnd(s))
    }

    function TakeMatch(m: SentinelMatch): (ReaderState, ReadOutcome)
      requires m.outputLen < m.consumed <= |buf|
    {
      var st := Ship(m.outputLen).Emit(DoneEvent(m.exitCode));
      (st.(buf := buf[m.consumed..], shipped := 0), Done(buf[..m.outputLen], m.exitCode))
    }

    function TakeQuiet(reason: QuietReason): (ReaderState, ReadOutcome) {
      var st := Ship(|buf|).Emit(QuietEvent(reason));
      (st.(buf := [], shipped := 0), Quiet(buf, reason))
    }

    function TakeEof(): (ReaderState, ReadOutcome) {
      var st := Ship(|buf|).Emit(Dead);
      (st.(buf := [], shipped := 0), Eof(buf))
    }

    function Receive(s: Sentinel, a: Arrival): (ReaderState, Option<ReadOutcome>) {
      match a
      case Timer(reason) => var (st, outcome) := TakeQuiet(reason); (st, Some(outcome))
      case Bytes(chunk) =>
        if chunk == [] then var (st, outcome) := TakeEof(); (st, Some(outcome))
        else
          var st := this.(buf := buf + chunk);
          var m := s.Found(st.buf);
          if m.Some? then var (st', outcome) := st.TakeMatch(m.value); (st', Some(outcome))
          else (st.ShipSafe(s), None)
    }
  }

  /** The read loop over the arrivals of one call. Without an outcome the call is
      still waiting when they run out, and may be dropped there. */
  function Loop(s: Sentinel, st: ReaderState, arrivals: seq<Arrival>): (ReaderState, Option<ReadOutcome>, seq<Arrival>)
    decreases |arrivals|
  {
    if arrivals == [] then (st, None, [])
    else
      var (st', outcome) := st.Receive(s, arrivals[0]);
      if outcome.Some? then (st', outcome, arrivals[1..]) else Loop(s, st', arrivals[1..])
  }

  /** One call: what is buffered may already hold a marker. */
  function Call(s: Sentinel, st: ReaderState, arrivals: seq<Arrival>)
      : (ReaderState, Option<ReadOutcome>, seq<Arrival>) {
    var m := s.Found(st.buf);
    if m.Some? then var (st', outcome) := st.TakeMatch(m.value); (st', Some(outcome), arrivals)
    else Loop(s, st, arrivals)
  }

  class OutputReader {
    const sentinel: Sentinel
    var buf: seq<Byte>
    var hasSink: bool
    var events: seq<ReadEvent>
    var shipped: nat

    function State(): ReaderState
      reads this
    {
      ReaderState(buf, shipped, hasSink, events)
    }

    constructor (sentinel: Sentinel)
      ensures this.sentinel == sentinel && State() == ReaderState([], 0, false, [])
    {
      this.sentinel := sentinel;
      buf, shipped, hasSink, events := [], 0, false, [];
    }

    method SetSink(attached: bool)
      modifies this
      ensures State() == old(State()).(hasSink := attached, shipped := 0)
    {
      hasSink := attached;
      shipped := 0;
    }

    method Ship(end: nat)
      requires end <= |buf|
      modifies this`shipped, this`events
      ensures State() == old(State()).Ship(end)
    {
      if !hasSink {
        return;
      }
      if end <= shipped {
        return;
      }
      var chunk := buf[shipped..end];
      shipped := end;
      events := events + [Output(chunk)];
    }

    method EmitTerminal(event: ReadEvent)
      modifies this`events
      ensures State() == old(State()).Emit(event)
    {
      if hasSink {
        events := events + [event];
      }
    }

    method ShipSafe()
      modifies this`shipped, this`events
      ensures State() == old(State()).ShipSafe(sentinel)
    {
      var reserve := sentinel.MaxMatchLen();
      var safeEnd := if |buf| < reserve then 0 else |buf| - reserve;
      Ship(safeEnd);
    }

    method TakeMatch(m: SentinelMatch) returns (outcome: ReadOutcome)
      requires m.outputLen < m.consumed <= |buf|
      modifies this
      ensures (State(), outcome) == old(State()).TakeMatch(m)
    {
      Ship(m.outputLen);
      EmitTerminal(DoneEvent(m.exitCode));
      outcome := Done(buf[..m.outputLen], m.exitCode);
      buf := buf[m.consumed..];
      shipped := 0;
    }

    method TakeQuiet(reason: QuietReason) returns (outcome: ReadOutcome)
      modifies this
      ensures (State(), outcome) == old(State()).TakeQuiet(reason)
    {
      Ship(|buf|);
      EmitTerminal(QuietEvent(reason));
      outcome := Quiet(buf, reason);
      buf := [];
      shipped := 0;
    }

    method TakeEof() returns (outcome: ReadOutcome)
      modifies this
      ensures (State(), outcome) == old(State()).TakeEof()
    {
      Ship(|buf|);
      EmitTerminal(Dead);
      outcome := Eof(buf);
      buf := [];
      shipped := 0;
    }

    /** Reads until the marker, the end of the stream or a tripped timer, taking
        arrivals in order; stops waiting when there are no more. */
    method ReadUntilSentinel(arrivals: seq<Arrival>) returns (outcome: Option<ReadOutcome>, rest: seq<Arrival>)
      modifies this
      ensures (State(), outcome, rest) == Call(sentinel, old(State()), arrivals)
    {
      rest := arrivals;
      var m := sentinel.Find(buf);
      if m.Some? {
        var done := TakeMatch(m.value);
        return Some(done), rest;
      }
      while rest != []
        invariant Loop(sentinel, State(), rest) == Loop(sentinel, old(State()), arrivals)
        decreases |rest|
      {
        var arrival := rest[0];
        rest := rest[1..];
        match arrival {
          case Timer(reason) =>
            var quiet := TakeQuiet(reason);
            return Some(quiet), rest;
          case Bytes(chunk) =>
            if chunk == [] {
              var eof := TakeEof();
              return Some(eof), rest;
            }
            buf := buf + chunk;
            m := sentinel.Find(buf);
            if m.Some? {
              var done := TakeMatch(m.value);
              return Some(done), rest;
            }
            ShipSafe();
        }
      }
      return None, [];
    }
  }
}
