/** What a chat session's flushes leave in the store: when every message is stored once
    and in order, and when not. */
module ChatStorage {
  import opened ChatQueue

  // ----- Rows and their numbers -----

  /** The rows hold the messages of their numbers. */
  ghost predicate Named(s: Session) {
    && |s.rows| == |s.stored|
    && forall j :: 0 <= j < |s.rows| ==> s.rows[j] < |s.pushed| && s.stored[j] == s.pushed[s.rows[j]]
  }

  /** The messages of a snapshot are still the first in the queue; system inputs pushed
      since can only have moved them back. */
  ghost predicate Aligned(s: Session) {
    s.phase.Flushing? ==>
      && !s.ephemeral
      && |s.phase.snapshot| <= |s.pending|
      && Kept(s.phase.snapshot) <= Kept(s.pending)
      && |Kept(s.pending[..|s.phase.snapshot|])| <= |Kept(s.phase.snapshot)|
  }

  ghost predicate Sound(s: Session) {
    Conserved(s) && Named(s) && Aligned(s)
  }

  lemma KeptUpTo(entries: seq<Pending>, n: nat)
    requires n <= |entries|
    ensures Kept(entries[..n]) <= Kept(entries)
  {
    assert entries == entries[..n] + entries[n..];
    KeptConcat(entries[..n], entries[n..]);
  }

  lemma PushAligns(s: Session, input: Input)
    requires Aligned(s) && s.phase.Flushing? && !input.System?
    ensures Aligned(Do(s, Push(input)))
  {
    var entry := Pending(input, false);
    KeptAppend(s.pending, entry);
    assert (s.pending + [entry])[..|s.phase.snapshot|] == s.pending[..|s.phase.snapshot|];
  }

  /** A system input pushes messages out of the first n places, never into them. */
  lemma InsertedBefore(entries: seq<Pending>, pos: nat, e: Pending, n: nat)
    requires pos <= |entries| && n <= |entries| && e.value.System?
    ensures |Kept((entries[..pos] + [e] + entries[pos..])[..n])| <= |Kept(entries[..n])|
  {
    var inserted := entries[..pos] + [e] + entries[pos..];
    if n <= pos {
      assert inserted[..n] == entries[..n];
    } else {
      assert inserted[..n] == entries[..pos] + [e] + entries[pos..n - 1];
      InsertedSystem(entries[..pos], entries[pos..n - 1], e);
      assert entries[..pos] + entries[pos..n - 1] == entries[..n - 1];
      assert entries[..n][..n - 1] == entries[..n - 1];
      KeptUpTo(entries[..n], n - 1);
    }
  }

  lemma PushSystemAligns(s: Session, text: string)
    requires Aligned(s) && s.phase.Flushing?
    ensures Aligned(Do(s, PushSystem(text)))
  {
    var pos, e := SystemPosition(s.pending), Pending(System(text), false);
    InsertedBefore(s.pending, pos, e, |s.phase.snapshot|);
    assert s.pending == s.pending[..pos] + s.pending[pos..];
    InsertedSystem(s.pending[..pos], s.pending[pos..], e);
  }

  /** The inputs that a flush writes are those that the numbers name. */
  lemma {:induction false} WrittenAreNamed(entries: seq<Pending>, first: nat)
    ensures |Unsaved(Kept(entries), first)| == |Unstored(entries)|
    ensures forall j :: 0 <= j < |Unstored(entries)| ==>
      var number := Unsaved(Kept(entries), first)[j];
      first <= number < first + |Kept(entries)| && Unstored(entries)[j] == Kept(entries)[number - first].value
    decreases |entries|
  {
    if entries != [] {
      var init, last := entries[..|entries| - 1], entries[|entries| - 1];
      WrittenAreNamed(init, first);
      assert entries == init + [last];
      KeptAppend(init, last);
      if last.value.System? {
        assert Kept(init) + [] == Kept(init);
      } else {
        assert Kept(entries)[..|Kept(init)|] == Kept(init);
      }
    }
  }

  lemma PushedAt(s: Session, i: nat)
    requires Conserved(s) && i < |Queue(s)|
    ensures Gone(s) + i < |s.pushed| && s.pushed[Gone(s) + i] == Queue(s)[i].value
  {
    var gone, values := Messages(s.departed), Values(Queue(s));
    assert (gone + values)[|gone| + i] == values[i];
  }

  lemma SnapshotAt(s: Session, i: nat)
    requires Aligned(s) && s.phase.Flushing? && i < |Kept(s.phase.snapshot)|
    ensures i < |Queue(s)| && Queue(s)[i] == Kept(s.phase.snapshot)[i]
  {
    assert Queue(s) == Kept(s.pending);
  }

  lemma RowNamed(s: Session, j: nat)
    requires Sound(s) && s.phase.Flushing? && j < |Unstored(s.phase.snapshot)|
    ensures |Unsaved(Kept(s.phase.snapshot), Gone(s))| == |Unstored(s.phase.snapshot)|
    ensures var number := Unsaved(Kept(s.phase.snapshot), Gone(s))[j];
      number < |s.pushed| && Unstored(s.phase.snapshot)[j] == s.pushed[number]
  {
    WrittenAreNamed(s.phase.snapshot, Gone(s));
    var number := Unsaved(Kept(s.phase.snapshot), Gone(s))[j];
    SnapshotAt(s, number - Gone(s));
    PushedAt(s, number - Gone(s));
  }

  lemma WrittenNamed(s: Session, pending: seq<Pending>)
    requires Sound(s) && s.phase.Flushing?
    ensures Named(Written(s, pending))
  {
    var s' := Written(s, pending);
    WrittenAreNamed(s.phase.snapshot, Gone(s));
    forall j | 0 <= j < |s'.rows|
      ensures s'.rows[j] < |s.pushed| && s'.stored[j] == s.pushed[s'.rows[j]]
    {
      if j >= |s.rows| { RowNamed(s, j - |s.rows|); }
    }
  }

  lemma PersistAligns(s: Session, thenRun: bool)
    requires !s.ephemeral
    ensures Aligned(s.(phase := Flushing(s.pending, thenRun)))
  {
    assert s.pending[..|s.pending|] == s.pending;
  }

  lemma StepSound(s: Session, step: Step)
    requires Sound(s) && Enabled(s, step)
    ensures Sound(Do(s, step))
  {
    StepConserves(s, step);
    match step
    case Push(input) => if s.phase.Flushing? { PushAligns(s, input); }
    case PushSystem(text) => if s.phase.Flushing? { PushSystemAligns(s, text); }
    case Persist => if !s.ephemeral { PersistAligns(s, false); }
    case Run => if !s.ephemeral { PersistAligns(s, true); }
    case FlushDone => WrittenNamed(s, Marked(s.pending, |s.phase.snapshot|));
    case FlushFailed =>
    case FlushDropped(_) => WrittenNamed(s, s.pending);
    case RunDone =>
    case RunFailed =>
    case RunDropped =>
  }

  /** Over every run, whatever is stored twice or not at all, the rows hold the messages
      of their numbers. */
  lemma {:induction false} RowsAreMessages(s: Session, steps: seq<Step>)
    requires Sound(s) && Runs(s, steps)
    ensures Sound(After(s, steps))
    decreases |steps|
  {
    if steps != [] {
      StepSound(s, steps[0]);
      RowsAreMessages(Do(s, steps[0]), steps[1..]);
    }
  }

  // ----- Stored once, in order -----

  /** The rows are the first messages pushed, and every message that has left the queue
      is among them. */
  ghost predicate StoredOnce(s: Session) {
    (forall j :: 0 <= j < |s.rows| ==> s.rows[j] == j) && Gone(s) <= |s.rows|
  }

  /** A flush writes messages again that the last one wrote without marking; or a run is
      over that took messages the flush before it had not written. */
  predicate Slips(s: Session, step: Step) {
    match step
    case FlushDone => s.unmarked > 0
    case FlushDropped(written) => written && s.unmarked > 0
    case RunDone => s.phase.Running? && s.phase.unflushed > 0
    case RunDropped => s.phase.Running? && s.phase.unflushed > 0
    case _ => false
  }

  /** The first entries are marked, the others are not. */
  ghost predicate MarkedUpTo(entries: seq<Pending>, k: int) {
    forall i :: 0 <= i < |entries| ==> (entries[i].persisted <==> i < k)
  }

  /** How many messages on their way are stored. */
  ghost function Ahead(s: Session): int {
    |s.rows| - Gone(s)
  }

  /** The marks go as far as the rows, but for the messages written without a mark. */
  ghost predicate Marks(s: Session) {
    && s.unmarked <= Ahead(s) <= |Queue(s)|
    && MarkedUpTo(Queue(s), Ahead(s) - s.unmarked)
    && (s.phase.Flushing? ==> Ahead(s) <= |Kept(s.phase.snapshot)|)
    && (s.phase.Running? ==> |Kept(s.phase.drained)| == Ahead(s) + s.phase.unflushed && s.phase.unflushed >= 0)
  }

  ghost predicate Good(s: Session) {
    !s.ephemeral && Sound(s) && StoredOnce(s) && Marks(s)
  }

  lemma {:induction false} UnsavedIs(messages: seq<Pending>, first: nat, k: nat)
    requires MarkedUpTo(messages, k) && k <= |messages|
    ensures |Unsaved(messages, first)| == |messages| - k
    ensures forall j :: 0 <= j < |messages| - k ==> Unsaved(messages, first)[j] == first + k + j
    decreases |messages|
  {
    if messages != [] {
      var n := |messages| - 1;
      UnsavedIs(messages[..n], first, if k == |messages| then n else k);
    }
  }

  lemma {:induction false} KeptWithin(entries: seq<Pending>)
    ensures forall i :: 0 <= i < |Kept(entries)| ==> Kept(entries)[i] in entries
    decreases |entries|
  {
    if entries != [] {
      KeptWithin(entries[..|entries| - 1]);
    }
  }

  lemma MarkedSplits(snapshot: seq<Pending>, rest: seq<Pending>)
    ensures Marked(snapshot + rest, |snapshot|) == Marked(snapshot, |snapshot|) + rest
  {
  }

  lemma AllMarked(entries: seq<Pending>)
    ensures |Kept(Marked(entries, |entries|))| == |Kept(entries)|
    ensures forall e :: e in Kept(Marked(entries, |entries|)) ==> e.persisted
  {
    MarkedKeepsValues(entries, |entries|);
    assert |Values(Kept(Marked(entries, |entries|)))| == |Values(Kept(entries))|;
    KeptWithin(Marked(entries, |entries|));
  }

  function Max(a: int, b: int): int {
    if a > b then a else b
  }

  lemma MarkedJoin(was: seq<Pending>, now: seq<Pending>, rest: seq<Pending>, k: int)
    requires |now| == |was| && (forall e :: e in now ==> e.persisted) && MarkedUpTo(was + rest, k)
    ensures MarkedUpTo(now + rest, Max(k, |now|))
  {
    assert forall i :: |was| <= i < |was + rest| ==> (was + rest)[i] == (now + rest)[i];
    assert forall i :: 0 <= i < |now| ==> (now + rest)[i] in now;
  }

  /** After marking, the marks go as far as the first n entries, or as far as before. */
  lemma MarkedAfter(entries: seq<Pending>, n: nat, k: int)
    requires n <= |entries| && MarkedUpTo(Kept(entries), k)
    ensures MarkedUpTo(Kept(Marked(entries, n)), Max(k, |Kept(entries[..n])|))
    ensures |Kept(Marked(entries, n))| == |Kept(entries)|
  {
    var front, rest := entries[..n], entries[n..];
    assert entries == front + rest;
    MarkedSplits(front, rest);
    KeptConcat(front, rest);
    KeptConcat(Marked(front, n), rest);
    AllMarked(front);
    MarkedJoin(Kept(front), Kept(Marked(front, n)), Kept(rest), k);
  }

  /** What a flush adds to the rows. */
  lemma FlushAdds(s: Session)
    requires Good(s) && s.phase.Flushing?
    ensures var m := |Kept(s.phase.snapshot)|;
      var added := Unsaved(Kept(s.phase.snapshot), Gone(s));
      && |added| == m - Ahead(s) + s.unmarked
      && (forall j :: 0 <= j < |added| ==> added[j] == |s.rows| - s.unmarked + j)
  {
    assert Queue(s) == Kept(s.pending);
    assert forall i :: 0 <= i < |Kept(s.phase.snapshot)| ==> Kept(s.phase.snapshot)[i] == Kept(s.pending)[i];
    UnsavedIs(Kept(s.phase.snapshot), Gone(s), Ahead(s) - s.unmarked);
  }

  lemma WrittenOnceIff(s: Session, pending: seq<Pending>)
    requires Good(s) && s.phase.Flushing?
    ensures StoredOnce(Written(s, pending)) <==> s.unmarked == 0
    ensures s.unmarked == 0 ==> |Written(s, pending).rows| == Gone(s) + |Kept(s.phase.snapshot)|
  {
    FlushAdds(s);
    var rows := Written(s, pending).rows;
    if s.unmarked > 0 {
      assert rows[|s.rows|] == |s.rows| - s.unmarked;
    }
  }

  /** The count kept of what a flush wrote without marking is right. */
  lemma MissedIs(messages: seq<Pending>, m: nat, k: nat)
    requires MarkedUpTo(messages, k) && k <= m <= |messages|
    ensures |Unsaved(First(messages, m), 0)| == m - k
  {
    assert First(messages, m) == messages[..m];
    assert forall i :: 0 <= i < m ==> messages[..m][i] == messages[i];
    UnsavedIs(messages[..m], 0, k);
  }

  /** A flush leaves unmarked those messages of its snapshot that system inputs pushed
      meanwhile have moved out of the places it marks, unless they were stored before. */
  lemma FlushedMarks(s: Session)
    requires Good(s) && s.phase.Flushing? && s.unmarked == 0
    ensures Good(Flushed(s))
    ensures Flushed(s).unmarked ==
      |Kept(s.phase.snapshot)| - Max(Ahead(s), |Kept(s.pending[..|s.phase.snapshot|])|)
    ensures Ahead(Flushed(s)) == |Kept(s.phase.snapshot)|
  {
    var n, m := |s.phase.snapshot|, |Kept(s.phase.snapshot)|;
    assert Queue(s) == Kept(s.pending);
    assert Queue(Flushed(s)) == Kept(Marked(s.pending, n));
    WrittenOnceIff(s, Marked(s.pending, n));
    MarkedAfter(s.pending, n, Ahead(s));
    MissedIs(Kept(Marked(s.pending, n)), m, Max(Ahead(s), |Kept(s.pending[..n])|));
    WrittenNamed(s, Marked(s.pending, n));
    FlushedConserves(s);
  }

  lemma DroppedMarks(s: Session)
    requires Good(s) && s.phase.Flushing? && s.unmarked == 0
    ensures Good(Written(s, s.pending))
  {
    assert Queue(s) == Kept(s.pending);
    WrittenOnceIff(s, s.pending);
    MissedIs(Kept(s.pending), |Kept(s.phase.snapshot)|, Ahead(s));
    WrittenNamed(s, s.pending);
  }

  lemma DrainMarks(s: Session, flushed: nat)
    requires Good(s) && s.phase.Idle? && flushed == Ahead(s)
    ensures Good(Drain(s, flushed))
  {
    DrainKeepsQueue(s, flushed);
  }

  lemma MarkedBehind(front: seq<Pending>, back: seq<Pending>, k: int)
    requires MarkedUpTo(front + back, k)
    ensures MarkedUpTo(back, k - |front|)
  {
    assert forall i :: 0 <= i < |back| ==> back[i] == (front + back)[|front| + i];
  }

  lemma DepartedOnceIff(s: Session)
    requires Good(s) && s.phase.Running?
    ensures StoredOnce(Departed(s)) <==> s.phase.unflushed == 0
    ensures s.phase.unflushed == 0 ==> Marks(Departed(s))
  {
    DepartedMessages(s);
    if s.phase.unflushed == 0 {
      MarkedBehind(Kept(s.phase.drained), Kept(s.pending), Ahead(s) - s.unmarked);
      assert Ahead(Departed(s)) == 0;
    }
  }

  lemma QueueingIsGood(s: Session, step: Step)
    requires Good(s) && Enabled(s, step) && (step.Push? || step.PushSystem? || step.RunFailed?)
    ensures Good(Do(s, step))
  {
    StepSound(s, step);
    match step
    case Push(input) => PushExtendsQueue(s, input);
    case PushSystem(text) => PushSystemKeepsQueue(s, text);
    case RunFailed => RunFailedKeepsQueue(s);
  }

  lemma BeginningIsGood(s: Session, step: Step)
    requires Good(s) && Enabled(s, step) && (step.Persist? || step.Run? || step.FlushFailed?)
    ensures Good(Do(s, step))
  {
    StepSound(s, step);
    assert Queue(Do(s, step)) == Queue(s) == [] + Kept(s.pending) == Kept(s.pending);
  }

  lemma FlushIsGoodIff(s: Session, step: Step)
    requires Good(s) && Enabled(s, step) && (step.FlushDone? || step == FlushDropped(true))
    ensures StoredOnce(Do(s, step)) <==> s.unmarked == 0
    ensures s.unmarked == 0 ==> Good(Do(s, step))
  {
    if step.FlushDone? {
      WrittenOnceIff(s, Marked(s.pending, |s.phase.snapshot|));
      if s.unmarked == 0 {
        FlushedMarks(s);
        DrainMarks(Flushed(s), |Kept(s.phase.snapshot)|);
      }
    } else {
      WrittenOnceIff(s, s.pending);
      if s.unmarked == 0 { DroppedMarks(s); }
    }
  }

  lemma EndIsGoodIff(s: Session, step: Step)
    requires Good(s) && Enabled(s, step) && (step.RunDone? || step.RunDropped?)
    ensures StoredOnce(Do(s, step)) <==> s.phase.unflushed == 0
    ensures s.phase.unflushed == 0 ==> Good(Do(s, step))
  {
    StepSound(s, step);
    DepartedOnceIff(s);
    assert Queue(Do(s, step)) == Queue(Departed(s));
  }

  lemma StepStoresOnceIff(s: Session, step: Step)
    requires Good(s) && Enabled(s, step)
    ensures StoredOnce(Do(s, step)) <==> !Slips(s, step)
    ensures !Slips(s, step) ==> Good(Do(s, step))
  {
    match step
    case Push(_) => QueueingIsGood(s, step);
    case PushSystem(_) => QueueingIsGood(s, step);
    case Persist => BeginningIsGood(s, step);
    case Run => BeginningIsGood(s, step);
    case FlushDone => FlushIsGoodIff(s, step);
    case FlushFailed => BeginningIsGood(s, step);
    case FlushDropped(written) => if written { FlushIsGoodIff(s, step); } else { BeginningIsGood(s, FlushFailed); }
    case RunDone => EndIsGoodIff(s, step);
    case RunFailed => QueueingIsGood(s, step);
    case RunDropped => EndIsGoodIff(s, step);
  }

  ghost predicate StoredOnceThroughout(s: Session, steps: seq<Step>)
    requires Runs(s, steps)
    decreases |steps|
  {
    StoredOnce(s) && (steps != [] ==> StoredOnceThroughout(Do(s, steps[0]), steps[1..]))
  }

  ghost predicate NeverSlips(s: Session, steps: seq<Step>)
    requires Runs(s, steps)
    decreases |steps|
  {
    steps != [] ==> !Slips(s, steps[0]) && NeverSlips(Do(s, steps[0]), steps[1..])
  }

  /** Over every run of a session that is not ephemeral. */
  lemma {:induction false} StoredOnceIff(s: Session, steps: seq<Step>)
    requires Good(s) && Runs(s, steps)
    ensures StoredOnceThroughout(s, steps) <==> NeverSlips(s, steps)
    ensures NeverSlips(s, steps) ==> Good(After(s, steps))
    decreases |steps|
  {
    if steps != [] {
      StepStoresOnceIff(s, steps[0]);
      if !Slips(s, steps[0]) {
        StoredOnceIff(Do(s, steps[0]), steps[1..]);
      }
    }
  }

  /** The rows of a session whose messages are stored once. */
  lemma StoredAreFirst(s: Session)
    requires Named(s) && StoredOnce(s)
    ensures |s.stored| <= |s.pushed| && s.stored == s.pushed[..|s.stored|]
  {
    if s.rows != [] {
      assert s.rows[|s.rows| - 1] == |s.rows| - 1;
    }
  }

  /** A new session: all along, the rows are the first messages pushed, in order, each
      once, with every message that has left the queue among them, exactly when no
      flush finds messages that the last one wrote without marking, and no run ends
      with messages that its flush missed. */
  lemma SessionStoresOnceIff(steps: seq<Step>)
    requires Runs(NewSession(false), steps)
    ensures StoredOnceThroughout(NewSession(false), steps) <==> NeverSlips(NewSession(false), steps)
    ensures var s := After(NewSession(false), steps);
      NeverSlips(NewSession(false), steps) ==>
        && |s.stored| <= |s.pushed|
        && s.stored == s.pushed[..|s.stored|]
        && |Messages(s.departed)| <= |s.stored|
  {
    StoredOnceIff(NewSession(false), steps);
    if NeverSlips(NewSession(false), steps) {
      StoredAreFirst(After(NewSession(false), steps));
    }
  }

  lemma {:induction false} EphemeralStoresNothing(s: Session, steps: seq<Step>)
    requires s.ephemeral && !s.phase.Flushing? && Runs(s, steps)
    ensures After(s, steps).stored == s.stored && After(s, steps).rows == s.rows
    decreases |steps|
  {
    if steps != [] {
      EphemeralStoresNothing(Do(s, steps[0]), steps[1..]);
    }
  }

  // ----- Hosts that leave flushes alone -----

  /** Nothing comes in between that could make a later step slip. */
  predicate Steady(s: Session, step: Step) {
    && (step.PushSystem? ==> !s.phase.Flushing?)
    && (step.Push? ==> !(s.phase.Flushing? && s.phase.thenRun))
    && step != FlushDropped(true)
  }

  ghost predicate SteadyRuns(s: Session, steps: seq<Step>)
    decreases |steps|
  {
    steps == [] || (Enabled(s, steps[0]) && Steady(s, steps[0]) && SteadyRuns(Do(s, steps[0]), steps[1..]))
  }

  ghost predicate Undisturbed(s: Session) {
    && s.unmarked == 0
    && (s.phase.Flushing? ==> s.phase.snapshot <= s.pending)
    && (s.phase.Flushing? && s.phase.thenRun ==> s.phase.snapshot == s.pending)
    && (s.phase.Running? && !s.ephemeral ==> s.phase.unflushed == 0)
    && (s.ephemeral ==> !s.phase.Flushing?)
  }

  lemma FlushMarksAll(s: Session)
    requires Undisturbed(s) && s.phase.Flushing?
    ensures Flushed(s).unmarked == 0
    ensures s.phase.thenRun ==> |Kept(Flushed(s).pending)| == |Kept(s.phase.snapshot)|
  {
    var snapshot := s.phase.snapshot;
    var n, rest := |snapshot|, s.pending[|snapshot|..];
    assert s.pending == snapshot + rest;
    MarkedSplits(snapshot, rest);
    KeptConcat(Marked(snapshot, n), rest);
    AllMarked(snapshot);
    var messages := Kept(Marked(s.pending, n));
    assert First(messages, |Kept(snapshot)|) == Kept(Marked(snapshot, n));
    assert forall i :: 0 <= i < |Kept(snapshot)| ==> Kept(Marked(snapshot, n))[i] in Kept(Marked(snapshot, n));
    UnsavedIs(Kept(Marked(snapshot, n)), 0, |Kept(snapshot)|);
    if s.phase.thenRun { assert Marked(s.pending, n) == Marked(snapshot, n); }
  }

  /** A host that pushes no system input during a flush, pushes nothing during the flush
      of a run, and drops no flush, never meets what breaks storing once. */
  lemma {:induction false} SteadyNeverSlips(s: Session, steps: seq<Step>)
    requires !s.ephemeral && Undisturbed(s) && SteadyRuns(s, steps)
    ensures Runs(s, steps) && NeverSlips(s, steps)
    decreases |steps|
  {
    if steps != [] {
      if steps[0].FlushDone? { FlushMarksAll(s); }
      SteadyNeverSlips(Do(s, steps[0]), steps[1..]);
    }
  }

  // ----- The windows -----

  lemma UnstoredOne(e: Pending)
    ensures Unstored([e]) == if e.persisted || e.value.System? then [] else [e.value]
  {
    assert [e][..0] == [];
  }

  lemma UnstoredTwo(a: Pending, b: Pending)
    ensures Unstored([a, b]) == Unstored([a]) + Unstored([b])
  {
    assert [a, b][..1] == [a];
    UnstoredOne(b);
  }

  /** The flush writes the message; the mark goes to the system input in front of it. */
  lemma SystemTakesMark(message: Input, text: string)
    requires !message.System?
    ensures exists steps, s ::
      && Reaches(false, steps, s) && s.phase.Idle? && !s.ephemeral && s.pushed == [message] && s.stored == [message]
      && s.pending == [Pending(System(text), true), Pending(message, false)]
  {
    var s0 := NewSession(false);
    var s1 := Do(s0, Push(message));
    var s2 := Do(s1, Persist);
    var s3 := Do(s2, PushSystem(text));
    var first, second := Pending(message, false), Pending(System(text), false);
    assert s1.pending == [first];
    assert s3.pending == [second, first] by { assert SystemPosition([first]) == 0; }
    UnstoredOne(first);
    var s4 := Do(s3, FlushDone);
    assert s4.pending == [second.(persisted := true), first];
    Reach(false, [], s0, Push(message));
    Reach(false, [] + [Push(message)], s1, Persist);
    Reach(false, [] + [Push(message)] + [Persist], s2, PushSystem(text));
    Reach(false, [] + [Push(message)] + [Persist] + [PushSystem(text)], s3, FlushDone);
  }

  /** A system input during a flush: the message behind it is stored twice. */
  lemma SystemDuringFlushStoresTwice(message: Input, text: string)
    requires !message.System?
    ensures exists steps, s :: Reaches(false, steps, s) && s.pushed == [message] && s.stored == [message, message]
  {
    SystemTakesMark(message, text);
    var steps, s :|
      && Reaches(false, steps, s) && s.phase.Idle? && !s.ephemeral && s.pushed == [message] && s.stored == [message]
      && s.pending == [Pending(System(text), true), Pending(message, false)];
    UnstoredTwo(Pending(System(text), true), Pending(message, false));
    UnstoredOne(Pending(System(text), true));
    UnstoredOne(Pending(message, false));
    Reach(false, steps, s, Persist);
    Reach(false, steps + [Persist], Do(s, Persist), FlushDone);
  }

  /** A message pushed while a run is still flushing is delivered without ever being
      stored. */
  lemma PushDuringRunFlushIsNotStored(message: Input)
    requires !message.System?
    ensures exists steps, s :: Reaches(false, steps, s) && s.delivered == [message] && s.stored == []
  {
    var s0 := NewSession(false);
    var s1 := Do(s0, Run);
    var s2 := Do(s1, Push(message));
    var s3 := Do(s2, FlushDone);
    assert Do(s3, RunDone).delivered == [message];
    Reach(false, [], s0, Run);
    Reach(false, [] + [Run], s1, Push(message));
    Reach(false, [] + [Run] + [Push(message)], s2, FlushDone);
    Reach(false, [] + [Run] + [Push(message)] + [FlushDone], s3, RunDone);
  }
}
