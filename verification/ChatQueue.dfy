/** A chat session's queue of inputs: stored before a run, drained by it, and put back
    when it fails. Steps end where the session awaits. */
module ChatQueue {
  import opened Sequences

  datatype Input =
    | System(text: string)
    | User(text: string)
    | Assistant(text: string)
    | ToolCall(id: string, name: string, arguments: string)
    | ToolResult(callId: string, content: string, isError: bool)

  datatype Pending = Pending(value: Input, persisted: bool)

  /** What the one host task that stores and runs is waiting for. */
  datatype Phase =
    | Idle
    | Flushing(snapshot: seq<Pending>, thenRun: bool)
    /** Of the messages drained, so many were pushed too late for the flush before. */
    | Running(drained: seq<Pending>, unflushed: int)

  /** The queue and the phase, and what happened. Messages are the inputs other than
      system ones; the first one pushed has number 0. */
  datatype Session = Session(
    ephemeral: bool,
    pending: seq<Pending>,
    phase: Phase,
    /** The rows, and the number of the message in each. */
    stored: seq<Input>,
    rows: seq<nat>,
    /** How many queued messages the last flush wrote without marking them. */
    unmarked: nat,
    /** What successful runs drained, and what all runs that are over did. */
    delivered: seq<Input>,
    departed: seq<Input>,
    /** The messages pushed. */
    pushed: seq<Input>)

  function NewSession(ephemeral: bool): Session {
    Session(ephemeral, [], Idle, [], [], 0, [], [], [])
  }

  datatype Step =
    | Push(input: Input)
    | PushSystem(text: string)
    | Persist
    | Run
    | FlushDone
    | FlushFailed
    /** The host drops the future; the store may still get what it was sent. */
    | FlushDropped(written: bool)
    | RunDone
    | RunFailed
    /** The host drops the future, and with it what it drained. */
    | RunDropped

  // ----- What the steps do -----

  function Values(entries: seq<Pending>): (r: seq<Input>)
    ensures |r| == |entries|
  {
    seq(|entries|, i requires 0 <= i < |entries| => entries[i].value)
  }

  /** Entries other than system ones: what is retried. */
  function Kept(entries: seq<Pending>): seq<Pending> {
    if entries == [] then []
    else
      var last := entries[|entries| - 1];
      Kept(entries[..|entries| - 1]) + if last.value.System? then [] else [last]
  }

  /** Inputs that a flush writes: not yet stored, and not system ones. */
  function Unstored(entries: seq<Pending>): seq<Input> {
    if entries == [] then []
    else
      var last := entries[|entries| - 1];
      Unstored(entries[..|entries| - 1]) + if last.persisted || last.value.System? then [] else [last.value]
  }

  function Marked(entries: seq<Pending>, n: nat): (r: seq<Pending>)
    ensures |r| == |entries|
  {
    seq(|entries|, i requires 0 <= i < |entries| => if i < n then entries[i].(persisted := true) else entries[i])
  }

  /** Right after the last system entry, or at the front. */
  function SystemPosition(entries: seq<Pending>): (pos: nat)
    ensures pos <= |entries|
  {
    SystemPositionBelow(entries, |entries|)
  }

  function SystemPositionBelow(entries: seq<Pending>, n: nat): (pos: nat)
    requires n <= |entries|
    ensures pos <= n
    ensures pos > 0 ==> entries[pos - 1].value.System?
    ensures forall i :: pos <= i < n ==> !entries[i].value.System?
  {
    if n == 0 then 0
    else if entries[n - 1].value.System? then n
    else SystemPositionBelow(entries, n - 1)
  }

  predicate Enabled(s: Session, step: Step) {
    match step
    case Push(input) => !input.System?
    case PushSystem(_) => true
    case Persist => s.phase.Idle?
    case Run => s.phase.Idle?
    case FlushDone => s.phase.Flushing?
    case FlushFailed => s.phase.Flushing?
    case FlushDropped(_) => s.phase.Flushing?
    case RunDone => s.phase.Running?
    case RunFailed => s.phase.Running?
    case RunDropped => s.phase.Running?
  }

  /** Inputs other than system ones. */
  function Messages(inputs: seq<Input>): seq<Input> {
    if inputs == [] then []
    else Messages(inputs[..|inputs| - 1]) + if inputs[|inputs| - 1].System? then [] else [inputs[|inputs| - 1]]
  }

  /** The number of the first message on its way. */
  function Gone(s: Session): nat {
    |Messages(s.departed)|
  }

  /** The numbers of those messages that are not marked, the first one having the given
      number. */
  function Unsaved(messages: seq<Pending>, first: nat): seq<nat> {
    if messages == [] then []
    else
      var n := |messages| - 1;
      Unsaved(messages[..n], first) + if messages[n].persisted then [] else [first + n]
  }

  function First(entries: seq<Pending>, n: nat): seq<Pending> {
    if n < |entries| then entries[..n] else entries
  }

  function Drain(s: Session, flushed: nat): Session {
    s.(phase := Running(s.pending, |Kept(s.pending)| - flushed), pending := [])
  }

  /** The snapshot is written, and the queue becomes the given one. */
  function Written(s: Session, pending: seq<Pending>): Session
    requires s.phase.Flushing?
  {
    var messages := Kept(s.phase.snapshot);
    s.(phase := Idle,
       stored := s.stored + Unstored(s.phase.snapshot),
       rows := s.rows + Unsaved(messages, Gone(s)),
       unmarked := |Unsaved(First(Kept(pending), |messages|), 0)|,
       pending := pending)
  }

  function Flushed(s: Session): Session
    requires s.phase.Flushing?
  {
    Written(s, Marked(s.pending, |s.phase.snapshot|))
  }

  /** The run is over, and what it drained has left the queue. */
  function Departed(s: Session): Session
    requires s.phase.Running?
  {
    s.(phase := Idle, unmarked := 0, departed := s.departed + Values(s.phase.drained))
  }

  function Do(s: Session, step: Step): Session
    requires Enabled(s, step)
  {
    match step
    case Push(input) => s.(pending := s.pending + [Pending(input, false)], pushed := s.pushed + [input])
    case PushSystem(text) =>
      var pos := SystemPosition(s.pending);
      s.(pending := s.pending[..pos] + [Pending(System(text), false)] + s.pending[pos..])
    case Persist => if s.ephemeral then s else s.(phase := Flushing(s.pending, false))
    case Run => if s.ephemeral then Drain(s, 0) else s.(phase := Flushing(s.pending, true))
    case FlushDone =>
      if s.phase.thenRun then Drain(Flushed(s), |Kept(s.phase.snapshot)|) else Flushed(s)
    case FlushFailed => s.(phase := Idle)
    case FlushDropped(written) => if written then Written(s, s.pending) else s.(phase := Idle)
    case RunDone => Departed(s).(delivered := s.delivered + Values(s.phase.drained))
    case RunFailed => s.(phase := Idle, pending := Kept(s.phase.drained) + s.pending)
    case RunDropped => Departed(s)
  }

  ghost predicate Runs(s: Session, steps: seq<Step>)
    decreases |steps|
  {
    steps == [] || (Enabled(s, steps[0]) && Runs(Do(s, steps[0]), steps[1..]))
  }

  ghost function After(s: Session, steps: seq<Step>): Session
    requires Runs(s, steps)
    decreases |steps|
  {
    if steps == [] then s else After(Do(s, steps[0]), steps[1..])
  }

  // ----- Nothing is lost -----

  function Drained(s: Session): seq<Pending> {
    if s.phase.Running? then s.phase.drained else []
  }

  lemma KeptAppend(entries: seq<Pending>, e: Pending)
    ensures Kept(entries + [e]) == Kept(entries) + if e.value.System? then [] else [e]
  {
    assert (entries + [e])[..|entries|] == entries;
  }

  lemma KeptOne(e: Pending)
    ensures Kept([e]) == if e.value.System? then [] else [e]
  {
    assert [e][..0] == [];
  }

  lemma {:induction false} KeptConcat(a: seq<Pending>, b: seq<Pending>)
    ensures Kept(a + b) == Kept(a) + Kept(b)
    decreases |b|
  {
    if b == [] {
      assert a + b == a;
    } else {
      assert (a + b)[..|a + b| - 1] == a + b[..|b| - 1];
      KeptConcat(a, b[..|b| - 1]);
    }
  }

  lemma {:induction false} MessagesConcat(a: seq<Input>, b: seq<Input>)
    ensures Messages(a + b) == Messages(a) + Messages(b)
    decreases |b|
  {
    if b == [] {
      assert a + b == a;
    } else {
      assert (a + b)[..|a + b| - 1] == a + b[..|b| - 1];
      MessagesConcat(a, b[..|b| - 1]);
    }
  }

  lemma {:induction false} MessagesAreKept(entries: seq<Pending>)
    ensures Messages(Values(entries)) == Values(Kept(entries))
    decreases |entries|
  {
    if entries != [] {
      var init := entries[..|entries| - 1];
      assert Values(entries)[..|entries| - 1] == Values(init);
      MessagesAreKept(init);
    }
  }

  lemma {:induction false} KeptTwice(entries: seq<Pending>)
    ensures Kept(Kept(entries)) == Kept(entries)
    decreases |entries|
  {
    if entries != [] {
      var init, last := entries[..|entries| - 1], entries[|entries| - 1];
      KeptTwice(init);
      assert Kept(init) + [] == Kept(init);
      KeptAppend(Kept(init), last);
    }
  }

  lemma {:induction false} MarkedKeepsValues(entries: seq<Pending>, n: nat)
    ensures Values(Kept(Marked(entries, n))) == Values(Kept(entries))
    decreases |entries|
  {
    if entries != [] {
      var init, last := entries[..|entries| - 1], entries[|entries| - 1];
      var marked := Marked([last], if n < |entries| then 0 else 1);
      MarkedKeepsValues(init, n);
      assert Marked(entries, n) == Marked(init, n) + [marked[0]];
      KeptAppend(Marked(init, n), marked[0]);
      assert entries == init + [last];
      KeptAppend(init, last);
      var tail := if last.value.System? then [] else [last];
      var markedTail := if last.value.System? then [] else [marked[0]];
      ValuesConcat(Kept(init), tail);
      ValuesConcat(Kept(Marked(init, n)), markedTail);
      assert Values(markedTail) == Values(tail);
    }
  }

  lemma ValuesConcat(a: seq<Pending>, b: seq<Pending>)
    ensures Values(a + b) == Values(a) + Values(b)
  {
  }

  /** Messages on their way: drained by the current run, or waiting. */
  function Queue(s: Session): seq<Pending> {
    Kept(Drained(s)) + Kept(s.pending)
  }

  /** The messages of the runs that are over, then those on their way, are the messages
      pushed, each once and in order. */
  ghost predicate Conserved(s: Session) {
    Messages(s.departed) + Values(Queue(s)) == s.pushed
  }

  lemma InsertedSystem(before: seq<Pending>, after: seq<Pending>, e: Pending)
    requires e.value.System?
    ensures Kept(before + [e] + after) == Kept(before + after)
  {
    KeptConcat(before, after);
    KeptConcat(before + [e], after);
    KeptAppend(before, e);
    assert Kept(before) + [] == Kept(before);
  }

  lemma PushSystemKeepsQueue(s: Session, text: string)
    ensures Queue(Do(s, PushSystem(text))) == Queue(s)
  {
    var pos := SystemPosition(s.pending);
    assert s.pending == s.pending[..pos] + s.pending[pos..];
    InsertedSystem(s.pending[..pos], s.pending[pos..], Pending(System(text), false));
  }

  lemma PushExtendsQueue(s: Session, input: Input)
    requires !input.System?
    ensures Queue(Do(s, Push(input))) == Queue(s) + [Pending(input, false)]
  {
    var entry := Pending(input, false);
    KeptAppend(s.pending, entry);
    Associative(Kept(Drained(s)), Kept(s.pending), [entry]);
  }

  lemma RunFailedKeepsQueue(s: Session)
    requires s.phase.Running?
    ensures Queue(Do(s, RunFailed)) == Queue(s)
  {
    KeptConcat(Kept(s.phase.drained), s.pending);
    KeptTwice(s.phase.drained);
  }

  lemma DrainKeepsQueue(s: Session, flushed: nat)
    requires !s.phase.Running?
    ensures Queue(Drain(s, flushed)) == Queue(s)
  {
  }

  lemma FlushedConserves(s: Session)
    requires Conserved(s) && s.phase.Flushing?
    ensures Conserved(Flushed(s))
  {
    MarkedKeepsValues(s.pending, |s.phase.snapshot|);
    assert Queue(s) == Kept(s.pending);
    assert Queue(Flushed(s)) == Kept(Marked(s.pending, |s.phase.snapshot|));
  }

  lemma DepartedMessages(s: Session)
    requires s.phase.Running?
    ensures Messages(Departed(s).departed) == Messages(s.departed) + Values(Kept(s.phase.drained))
    ensures Queue(Departed(s)) == Kept(s.pending)
  {
    MessagesConcat(s.departed, Values(s.phase.drained));
    MessagesAreKept(s.phase.drained);
    assert [] + Kept(s.pending) == Kept(s.pending);
  }

  lemma DepartedConserves(s: Session)
    requires s.phase.Running? && Conserved(s)
    ensures Conserved(Departed(s))
  {
    DepartedMessages(s);
    ValuesConcat(Kept(s.phase.drained), Kept(s.pending));
    Associative(Messages(s.departed), Values(Kept(s.phase.drained)), Values(Kept(s.pending)));
  }

  lemma StepConserves(s: Session, step: Step)
    requires Conserved(s) && Enabled(s, step)
    ensures Conserved(Do(s, step))
  {
    match step
    case Push(input) =>
      PushExtendsQueue(s, input);
      ValuesConcat(Queue(s), [Pending(input, false)]);
      assert Values([Pending(input, false)]) == [input];
    case PushSystem(text) => PushSystemKeepsQueue(s, text);
    case Persist =>
    case Run => DrainKeepsQueue(s, 0);
    case FlushDone =>
      FlushedConserves(s);
      DrainKeepsQueue(Flushed(s), |Kept(s.phase.snapshot)|);
    case FlushFailed =>
    case FlushDropped(_) =>
    case RunDone => DepartedConserves(s);
    case RunFailed => RunFailedKeepsQueue(s);
    case RunDropped => DepartedConserves(s);
  }

  /** Over every run, however pushes, failures and runs interleave. */
  lemma {:induction false} RunConserves(s: Session, steps: seq<Step>)
    requires Conserved(s) && Runs(s, steps)
    ensures Conserved(After(s, steps))
    decreases |steps|
  {
    if steps != [] {
      StepConserves(s, steps[0]);
      RunConserves(Do(s, steps[0]), steps[1..]);
    }
  }

  /** The host drops a run that holds messages. */
  predicate Loses(s: Session, step: Step) {
    step.RunDropped? && s.phase.Running? && Kept(s.phase.drained) != []
  }

  ghost predicate NeverLoses(s: Session, steps: seq<Step>)
    requires Runs(s, steps)
    decreases |steps|
  {
    steps != [] ==> !Loses(s, steps[0]) && NeverLoses(Do(s, steps[0]), steps[1..])
  }

  /** How many messages are gone without having been delivered. */
  ghost function Lost(s: Session): int {
    |Messages(s.departed)| - |Messages(s.delivered)|
  }

  lemma StepLoses(s: Session, step: Step)
    requires Enabled(s, step)
    ensures Lost(Do(s, step)) == Lost(s) + if Loses(s, step) then |Kept(s.phase.drained)| else 0
    ensures !Loses(s, step) && Messages(s.delivered) == Messages(s.departed) ==>
      Messages(Do(s, step).delivered) == Messages(Do(s, step).departed)
  {
    if s.phase.Running? {
      DepartedMessages(s);
      MessagesConcat(s.delivered, Values(s.phase.drained));
      MessagesAreKept(s.phase.drained);
      if Kept(s.phase.drained) == [] {
        assert Messages(s.departed) + [] == Messages(s.departed);
      }
    }
  }

  lemma {:induction false} LossGrows(s: Session, steps: seq<Step>)
    requires Runs(s, steps)
    ensures Lost(After(s, steps)) >= Lost(s)
    ensures !NeverLoses(s, steps) ==> Lost(After(s, steps)) > Lost(s)
    ensures NeverLoses(s, steps) && Messages(s.delivered) == Messages(s.departed) ==>
      Messages(After(s, steps).delivered) == Messages(After(s, steps).departed)
    decreases |steps|
  {
    if steps != [] {
      StepLoses(s, steps[0]);
      LossGrows(Do(s, steps[0]), steps[1..]);
    }
  }

  /** The messages delivered by successful runs, then those on their way, are the
      messages pushed, exactly when no run holding messages was dropped. */
  lemma NothingIsLost(s: Session, steps: seq<Step>)
    requires Conserved(s) && Messages(s.delivered) == Messages(s.departed) && Runs(s, steps)
    ensures var end := After(s, steps);
      Messages(end.delivered) + Values(Queue(end)) == end.pushed <==> NeverLoses(s, steps)
  {
    RunConserves(s, steps);
    LossGrows(s, steps);
    var end := After(s, steps);
    if !NeverLoses(s, steps) {
      assert |Messages(end.delivered) + Values(Queue(end))| < |end.pushed|;
    }
  }

  // ----- The order of system inputs -----

  function Systems(inputs: seq<Input>): seq<Input> {
    if inputs == [] then []
    else Systems(inputs[..|inputs| - 1]) + if inputs[|inputs| - 1].System? then [inputs[|inputs| - 1]] else []
  }

  lemma {:induction false} SystemsConcat(a: seq<Input>, b: seq<Input>)
    ensures Systems(a + b) == Systems(a) + Systems(b)
    decreases |b|
  {
    if b == [] {
      assert a + b == a;
    } else {
      assert (a + b)[..|a + b| - 1] == a + b[..|b| - 1];
      SystemsConcat(a, b[..|b| - 1]);
    }
  }

  lemma {:induction false} NoneAreSystems(inputs: seq<Input>)
    requires forall i :: 0 <= i < |inputs| ==> !inputs[i].System?
    ensures Systems(inputs) == []
    decreases |inputs|
  {
    if inputs != [] { NoneAreSystems(inputs[..|inputs| - 1]); }
  }

  /** The system inputs delivered, then those drained by the current run, then those that
      wait. */
  function SystemsInLine(s: Session): seq<Input> {
    Systems(s.delivered) + Systems(Values(Drained(s))) + Systems(Values(s.pending))
  }

  lemma LastSystem(front: seq<Input>, x: Input, back: seq<Input>)
    requires x.System? && forall i :: 0 <= i < |back| ==> !back[i].System?
    ensures Systems(front + [x] + back) == Systems(front + back) + [x]
  {
    NoneAreSystems(back);
    SystemsConcat(front, back);
    SystemsConcat(front + [x], back);
    SystemsConcat(front, [x]);
    assert [x][..0] == [] && Systems([x]) == [x];
  }

  lemma NoSystemBehind(entries: seq<Pending>)
    ensures var back := Values(entries[SystemPosition(entries)..]);
      forall i :: 0 <= i < |back| ==> !back[i].System?
  {
    var pos := SystemPosition(entries);
    forall i | 0 <= i < |entries[pos..]| ensures !entries[pos..][i].value.System? {
      assert entries[pos..][i] == entries[pos + i];
    }
  }

  lemma SystemIsLast(entries: seq<Pending>, text: string)
    ensures var pos := SystemPosition(entries);
      Systems(Values(entries[..pos] + [Pending(System(text), false)] + entries[pos..]))
      == Systems(Values(entries)) + [System(text)]
  {
    var pos, e := SystemPosition(entries), Pending(System(text), false);
    NoSystemBehind(entries);
    LastSystem(Values(entries[..pos]), e.value, Values(entries[pos..]));
    ValuesConcat(entries[..pos], entries[pos..]);
    assert entries[..pos] + entries[pos..] == entries;
    ValuesConcat(entries[..pos] + [e], entries[pos..]);
    ValuesConcat(entries[..pos], [e]);
    assert Values([e]) == [e.value];
  }

  lemma KeptSystems(drained: seq<Pending>, pending: seq<Pending>)
    ensures Systems(Values(Kept(drained) + pending)) == Systems(Values(pending))
  {
    KeptHasNoSystems(drained);
    NoneAreSystems(Values(Kept(drained)));
    ValuesConcat(Kept(drained), pending);
    SystemsConcat(Values(Kept(drained)), Values(pending));
  }

  lemma PushKeepsSystems(entries: seq<Pending>, input: Input)
    requires !input.System?
    ensures Systems(Values(entries + [Pending(input, false)])) == Systems(Values(entries))
  {
    assert Values(entries + [Pending(input, false)]) == Values(entries) + [input];
    SystemsConcat(Values(entries), [input]);
    NoneAreSystems([input]);
  }

  lemma QueueingKeepsSystems(s: Session, step: Step)
    requires Enabled(s, step) && (step.Push? || step.PushSystem?)
    ensures SystemsInLine(Do(s, step))
         == SystemsInLine(s) + if step.PushSystem? then [System(step.text)] else []
  {
    match step
    case Push(input) => PushKeepsSystems(s.pending, input);
    case PushSystem(text) =>
      SystemIsLast(s.pending, text);
      Associative(Systems(s.delivered) + Systems(Values(Drained(s))), Systems(Values(s.pending)), [System(text)]);
  }

  lemma FlushingKeepsSystems(s: Session, step: Step)
    requires Enabled(s, step)
    requires step.Persist? || step.Run? || step.FlushDone? || step.FlushFailed? || step.FlushDropped?
    ensures SystemsInLine(Do(s, step)) == SystemsInLine(s)
  {
    if step.FlushDone? { assert Values(Marked(s.pending, |s.phase.snapshot|)) == Values(s.pending); }
  }

  lemma EndingKeepsSystems(s: Session, step: Step)
    requires Enabled(s, step) && (step.RunDone? || step.RunFailed? || step.RunDropped?)
    ensures SystemsInLine(Do(s, step)) ==
      if step.RunDone? then SystemsInLine(s) else Systems(s.delivered) + Systems(Values(s.pending))
  {
    if step.RunDone? { SystemsConcat(s.delivered, Values(s.phase.drained)); }
    if step.RunFailed? { KeptSystems(s.phase.drained, s.pending); }
  }

  /** A system input goes behind those that are there; a run that fails or is dropped
      takes its own with it; no other step changes their line. */
  lemma StepKeepsSystems(s: Session, step: Step)
    requires Enabled(s, step)
    ensures SystemsInLine(Do(s, step)) ==
      if step.RunFailed? || step.RunDropped? then Systems(s.delivered) + Systems(Values(s.pending))
      else SystemsInLine(s) + if step.PushSystem? then [System(step.text)] else []
  {
    if step.Push? || step.PushSystem? {
      QueueingKeepsSystems(s, step);
    } else if step.RunDone? || step.RunFailed? || step.RunDropped? {
      EndingKeepsSystems(s, step);
    } else {
      FlushingKeepsSystems(s, step);
    }
  }

  /** The system inputs pushed, in order. */
  function SystemsPushed(steps: seq<Step>): seq<Input> {
    if steps == [] then []
    else (if steps[0].PushSystem? then [System(steps[0].text)] else []) + SystemsPushed(steps[1..])
  }

  /** Over every run in which no run fails or is dropped, system inputs are delivered in
      the order in which they were pushed, and wait in that order. */
  lemma {:induction false} SystemsInOrder(s: Session, steps: seq<Step>)
    requires Runs(s, steps)
    requires forall i :: 0 <= i < |steps| ==> !steps[i].RunFailed? && !steps[i].RunDropped?
    ensures SystemsInLine(After(s, steps)) == SystemsInLine(s) + SystemsPushed(steps)
    decreases |steps|
  {
    if steps != [] {
      StepKeepsSystems(s, steps[0]);
      SystemsInOrder(Do(s, steps[0]), steps[1..]);
      Associative(SystemsInLine(s), if steps[0].PushSystem? then [System(steps[0].text)] else [],
                  SystemsPushed(steps[1..]));
    }
  }

  // ----- Runs step by step -----

  ghost predicate Reaches(ephemeral: bool, steps: seq<Step>, s: Session) {
    Runs(NewSession(ephemeral), steps) && s == After(NewSession(ephemeral), steps)
  }

  lemma {:induction false} RunOne(s: Session, step: Step, before: seq<Step>)
    requires Runs(s, before) && Enabled(After(s, before), step)
    ensures Runs(s, before + [step]) && After(s, before + [step]) == Do(After(s, before), step)
    decreases |before|
  {
    if before == [] {
      assert [step][1..] == [];
    } else {
      assert (before + [step])[1..] == before[1..] + [step];
      RunOne(Do(s, before[0]), step, before[1..]);
    }
  }

  lemma Reach(ephemeral: bool, steps: seq<Step>, s: Session, step: Step)
    requires Reaches(ephemeral, steps, s) && Enabled(s, step)
    ensures Reaches(ephemeral, steps + [step], Do(s, step))
  {
    RunOne(NewSession(ephemeral), step, steps);
  }

  /** A run that is dropped takes its message with it. */
  lemma DroppedRunLoses(message: Input)
    requires !message.System?
    ensures exists steps, s :: Reaches(true, steps, s) && s.pushed == [message] && s.delivered == [] && Queue(s) == []
  {
    var s0 := NewSession(true);
    var s1 := Do(s0, Push(message));
    var s2 := Do(s1, Run);
    assert Queue(Do(s2, RunDropped)) == [];
    Reach(true, [], s0, Push(message));
    Reach(true, [] + [Push(message)], s1, Run);
    Reach(true, [] + [Push(message)] + [Run], s2, RunDropped);
  }

  // ----- System inputs lead -----

  /** No system input comes after a message. */
  ghost predicate Lead(entries: seq<Pending>) {
    forall i, j :: 0 <= i < j < |entries| && entries[j].value.System? ==> entries[i].value.System?
  }

  /** In the queue, and in what the current run drained. */
  ghost predicate SystemsLead(s: Session) {
    Lead(s.pending) && Lead(Drained(s))
  }

  ghost predicate NoSystems(entries: seq<Pending>) {
    forall i :: 0 <= i < |entries| ==> !entries[i].value.System?
  }

  /** A run fails whose messages go back in front of a system input. */
  ghost predicate Strands(s: Session, step: Step) {
    step.RunFailed? && Kept(Drained(s)) != [] && !NoSystems(s.pending)
  }

  lemma {:induction false} KeptHasNoSystems(entries: seq<Pending>)
    ensures NoSystems(Kept(entries))
    decreases |entries|
  {
    if entries != [] {
      KeptHasNoSystems(entries[..|entries| - 1]);
    }
  }

  lemma PushSystemLeads(s: Session, text: string)
    requires Lead(s.pending)
    ensures Lead(Do(s, PushSystem(text)).pending)
  {
    var pos, pending' := SystemPosition(s.pending), Do(s, PushSystem(text)).pending;
    assert forall i :: 0 <= i < pos ==> pending'[i] == s.pending[i];
    assert forall i :: pos < i < |pending'| ==> pending'[i] == s.pending[i - 1];
  }

  lemma RetryLeadsIff(retried: seq<Pending>, pending: seq<Pending>)
    requires NoSystems(retried) && Lead(pending)
    ensures Lead(retried + pending) <==> retried == [] || NoSystems(pending)
  {
    var queue := retried + pending;
    if retried == [] {
      assert queue == pending;
    } else if !NoSystems(pending) {
      var i :| 0 <= i < |pending| && pending[i].value.System?;
      assert queue[|retried| + i] == pending[i] && queue[0] == retried[0];
    } else {
      assert forall i :: 0 <= i < |queue| ==> !queue[i].value.System?;
    }
  }

  lemma MarkedLeads(entries: seq<Pending>, n: nat)
    requires Lead(entries)
    ensures Lead(Marked(entries, n))
  {
    assert forall i :: 0 <= i < |entries| ==> Marked(entries, n)[i].value == entries[i].value;
  }

  lemma StepLeadsIff(s: Session, step: Step)
    requires SystemsLead(s) && Enabled(s, step)
    ensures SystemsLead(Do(s, step)) <==> !Strands(s, step)
  {
    match step
    case Push(input) =>
    case PushSystem(text) => PushSystemLeads(s, text);
    case Persist =>
    case Run =>
    case FlushDone => MarkedLeads(s.pending, |s.phase.snapshot|);
    case FlushFailed =>
    case FlushDropped(_) =>
    case RunDone =>
    case RunFailed =>
      KeptHasNoSystems(s.phase.drained);
      RetryLeadsIff(Kept(s.phase.drained), s.pending);
    case RunDropped =>
  }

  ghost predicate LeadThroughout(s: Session, steps: seq<Step>)
    requires Runs(s, steps)
    decreases |steps|
  {
    SystemsLead(s) && (steps != [] ==> LeadThroughout(Do(s, steps[0]), steps[1..]))
  }

  ghost predicate NeverStrands(s: Session, steps: seq<Step>)
    requires Runs(s, steps)
    decreases |steps|
  {
    steps != [] ==> !Strands(s, steps[0]) && NeverStrands(Do(s, steps[0]), steps[1..])
  }

  /** Over every run: the queue, and what each run drains, has its system inputs first
      all along, exactly when no failing run puts messages back in front of a system
      input. */
  lemma {:induction false} SystemsLeadIff(s: Session, steps: seq<Step>)
    requires SystemsLead(s) && Runs(s, steps)
    ensures LeadThroughout(s, steps) <==> NeverStrands(s, steps)
    decreases |steps|
  {
    if steps != [] {
      StepLeadsIff(s, steps[0]);
      if !Strands(s, steps[0]) {
        SystemsLeadIff(Do(s, steps[0]), steps[1..]);
      }
    }
  }

  /** No system input comes while a run is under way. */
  predicate Calm(s: Session, step: Step) {
    step.PushSystem? ==> !s.phase.Running?
  }

  ghost predicate CalmRuns(s: Session, steps: seq<Step>)
    decreases |steps|
  {
    steps == [] || (Enabled(s, steps[0]) && Calm(s, steps[0]) && CalmRuns(Do(s, steps[0]), steps[1..]))
  }

  /** A host that pushes no system input during a run never meets that. */
  lemma {:induction false} CalmNeverStrands(s: Session, steps: seq<Step>)
    requires CalmRuns(s, steps) && (s.phase.Running? ==> NoSystems(s.pending))
    ensures Runs(s, steps) && NeverStrands(s, steps)
    decreases |steps|
  {
    if steps != [] {
      CalmNeverStrands(Do(s, steps[0]), steps[1..]);
    }
  }

  lemma TrailingState(message: Input, text: string)
    requires !message.System?
    ensures var s1 := Do(NewSession(true), Push(message));
      var s3 := Do(Do(s1, Run), PushSystem(text));
      && s3.phase.Running?
      && Do(s3, RunFailed).pending == [Pending(message, false), Pending(System(text), false)]
  {
    var s2 := Do(Do(NewSession(true), Push(message)), Run);
    KeptOne(Pending(message, false));
    assert s2.phase.drained == [Pending(message, false)];
    assert Do(s2, PushSystem(text)).pending == [Pending(System(text), false)];
  }

  /** A system input during a run that fails ends up behind the retried messages. */
  lemma SystemDuringRunTrails(message: Input, text: string)
    requires !message.System?
    ensures exists steps, s ::
      Reaches(true, steps, s) && s.pending == [Pending(message, false), Pending(System(text), false)]
  {
    TrailingState(message, text);
    var s0 := NewSession(true);
    var s1 := Do(s0, Push(message));
    var s2 := Do(s1, Run);
    var s3 := Do(s2, PushSystem(text));
    Reach(true, [], s0, Push(message));
    Reach(true, [] + [Push(message)], s1, Run);
    Reach(true, [] + [Push(message)] + [Run], s2, PushSystem(text));
    Reach(true, [] + [Push(message)] + [Run] + [PushSystem(text)], s3, RunFailed);
  }
}
