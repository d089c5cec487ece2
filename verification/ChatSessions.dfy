/** The chat session's methods, called one after the other by one host task; what the
    store and the provider answer are parameters. */
module ChatSessions {
  import opened Wrappers
  import opened ChatQueue
  import opened ChatStorage

  /** What one host task at a time keeps. */
  ghost predicate Healthy(s: Session) {
    && s.phase.Idle? && s.unmarked == 0 && SystemsLead(s)
    && if s.ephemeral then Conserved(s) && s.stored == [] && s.rows == [] else Good(s)
  }

  /** Storing what is pending: the flush is one transaction, so it writes everything
      or nothing. */
  function Persisted(s: Session, flushed: bool): Session {
    if s.ephemeral || !flushed then s
    else s.(stored := s.stored + Unstored(s.pending),
            rows := s.rows + Unsaved(Kept(s.pending), Gone(s)),
            pending := Marked(s.pending, |s.pending|))
  }

  /** A run drains the queue; a failed one puts its messages back. */
  function Ran(s: Session, succeeded: bool): Session {
    if succeeded then
      s.(delivered := s.delivered + Values(s.pending), departed := s.departed + Values(s.pending), pending := [])
    else s.(pending := Kept(s.pending))
  }

  lemma PushKeeps(s: Session, step: Step)
    requires Healthy(s) && Enabled(s, step) && (step.Push? || step.PushSystem?)
    ensures Healthy(Do(s, step))
  {
    StepConserves(s, step);
    StepLeadsIff(s, step);
    if !s.ephemeral { StepStoresOnceIff(s, step); }
  }

  /** Storing is what the steps of an undisturbed flush come to. */
  lemma PersistedIsSteps(s: Session, flushed: bool)
    requires s.phase.Idle? && s.unmarked == 0 && !s.ephemeral
    ensures Persisted(s, flushed) == Do(Do(s, Step.Persist), if flushed then FlushDone else FlushFailed)
  {
    if flushed { FlushMarksAll(Do(s, Step.Persist)); }
  }

  lemma PersistedKeeps(s: Session, flushed: bool)
    requires Healthy(s)
    ensures Healthy(Persisted(s, flushed))
    ensures !s.ephemeral && flushed ==> |Persisted(s, flushed).rows| == |s.pushed|
  {
    if !s.ephemeral {
      PersistedIsSteps(s, flushed);
      var s1 := Do(s, Step.Persist);
      var last := if flushed then FlushDone else FlushFailed;
      StepStoresOnceIff(s, Step.Persist);
      StepStoresOnceIff(s1, last);
      StepLeadsIff(s1, last);
      if flushed { WrittenOnceIff(s1, Marked(s1.pending, |s1.pending|)); }
      assert Queue(s) == Kept(s.pending);
    }
  }

  lemma RanIsSteps(s: Session, flushed: nat, succeeded: bool)
    requires s.phase.Idle? && s.unmarked == 0
    ensures Ran(s, succeeded) == Do(Drain(s, flushed), if succeeded then RunDone else RunFailed)
  {
    assert Kept(s.pending) + [] == Kept(s.pending);
  }

  lemma RanKeeps(s: Session, succeeded: bool)
    requires Healthy(s) && (s.ephemeral || |s.rows| == |s.pushed|)
    ensures Healthy(Ran(s, succeeded))
  {
    var flushed := if s.ephemeral then 0 else Ahead(s);
    var last := if succeeded then RunDone else RunFailed;
    RanIsSteps(s, flushed, succeeded);
    DrainKeepsQueue(s, flushed);
    StepConserves(Drain(s, flushed), last);
    StepLeadsIff(Drain(s, flushed), last);
    if !s.ephemeral {
      DrainMarks(s, flushed);
      assert Queue(s) == Kept(s.pending);
      StepStoresOnceIff(Drain(s, flushed), last);
    }
  }

  lemma CallKeeps(s: Session, flushed: bool, succeeded: bool)
    requires Healthy(s) && (s.ephemeral || flushed)
    ensures Healthy(Ran(Persisted(s, flushed), succeeded))
  {
    PersistedKeeps(s, flushed);
    RanKeeps(Persisted(s, flushed), succeeded);
  }

  /** What such a session promises. */
  lemma HealthyStores(s: Session)
    requires Healthy(s)
    ensures if s.ephemeral then s.stored == []
      else |s.stored| <= |s.pushed| && s.stored == s.pushed[..|s.stored|] && |Messages(s.departed)| <= |s.stored|
  {
    if !s.ephemeral { StoredAreFirst(s); }
  }

  lemma CallDelivers(s: Session, flushed: bool)
    ensures var s' := Ran(Persisted(s, flushed), true);
      s'.pending == [] && s'.delivered == s.delivered + Values(s.pending)
  {
    assert Values(Marked(s.pending, |s.pending|)) == Values(s.pending);
  }

  class ChatSession {
    const ephemeral: bool
    var id: Option<nat>
    var pending: seq<Pending>
    /** The store's rows of this session's inputs. */
    var stored: seq<Input>
    ghost var rows: seq<nat>
    ghost var delivered: seq<Input>
    ghost var departed: seq<Input>
    ghost var pushed: seq<Input>

    ghost function State(): Session
      reads this
    {
      Session(ephemeral, pending, Idle, stored, rows, 0, delivered, departed, pushed)
    }

    ghost predicate Valid()
      reads this
    {
      Healthy(State())
    }

    constructor (ephemeral: bool)
      ensures Valid() && State() == NewSession(ephemeral)
    {
      this.ephemeral := ephemeral;
      id, pending, stored, rows, delivered, departed, pushed := None, [], [], [], [], [], [];
    }

    method Push(input: Input)
      requires Valid() && !input.System?
      modifies this`pending, this`pushed
      ensures Valid() && State() == Do(old(State()), Step.Push(input))
    {
      PushKeeps(State(), Step.Push(input));
      pending := pending + [Pending(input, false)];
      pushed := pushed + [input];
    }

    /** Looks for the last system input from the end and inserts right behind it. */
    method PushSystem(text: string)
      requires Valid()
      modifies this`pending
      ensures Valid() && State() == Do(old(State()), Step.PushSystem(text))
    {
      PushKeeps(State(), Step.PushSystem(text));
      var pos := |pending|;
      while pos > 0 && !pending[pos - 1].value.System?
        invariant 0 <= pos <= |pending| && SystemPosition(pending) == SystemPositionBelow(pending, pos)
      {
        pos := pos - 1;
      }
      pending := pending[..pos] + [Pending(System(text), false)] + pending[pos..];
    }

    /** Creates the session's row the first time; ephemeral sessions have none. */
    method EnsureRow(created: Option<nat>) returns (row: Result<Option<nat>, ()>)
      modifies this`id
      ensures ephemeral ==> row == Ok(None) && id == old(id)
      ensures !ephemeral && old(id).Some? ==> row == Ok(id) && id == old(id)
      ensures !ephemeral && old(id).None? ==>
        id == created && row == if created.Some? then Ok(created) else Err(())
    {
      if ephemeral {
        return Ok(None);
      }
      if id.Some? {
        return Ok(id);
      }
      if created.None? {
        return Err(());
      }
      id := created;
      return Ok(id);
    }

    /** The batch that a flush writes. */
    method Batch(entries: seq<Pending>) returns (batch: seq<Input>)
      ensures batch == Unstored(entries)
    {
      batch := [];
      for i := 0 to |entries|
        invariant batch == Unstored(entries[..i])
      {
        assert entries[..i + 1][..i] == entries[..i];
        if !entries[i].persisted && !entries[i].value.System? {
          batch := batch + [entries[i].value];
        }
      }
      assert entries[..|entries|] == entries;
    }

    method MarkPersisted(count: nat)
      requires count <= |pending|
      modifies this`pending
      ensures pending == Marked(old(pending), count)
    {
      for i := 0 to count
        invariant pending == Marked(old(pending), i)
      {
        pending := pending[i := pending[i].(persisted := true)];
      }
    }

    /** What a failed run puts back. */
    method Retried(entries: seq<Pending>) returns (retry: seq<Pending>)
      ensures retry == Kept(entries)
    {
      retry := [];
      for i := 0 to |entries|
        invariant retry == Kept(entries[..i])
      {
        assert entries[..i + 1][..i] == entries[..i];
        if !entries[i].value.System? {
          retry := retry + [entries[i]];
        }
      }
      assert entries[..|entries|] == entries;
    }

    method PersistPending(created: Option<nat>, flushed: bool) returns (ok: bool)
      modifies this`id, this`pending, this`stored, this`rows
      ensures ephemeral || old(id).Some? || created.Some? ==>
        ok == (ephemeral || flushed) && State() == Persisted(old(State()), flushed)
      ensures !ephemeral && old(id).None? ==> id == created
      ensures !ephemeral && old(id).None? && created.None? ==> !ok && State() == old(State())
      ensures ephemeral || old(id).Some? ==> id == old(id)
    {
      var row := EnsureRow(created);
      if row.Err? {
        return false;
      }
      if row.value.None? {
        return true;
      }
      var snapshot := pending;
      var batch := Batch(snapshot);
      if !flushed {
        return false;
      }
      stored, rows := stored + batch, rows + Unsaved(Kept(pending), Gone(State()));
      MarkPersisted(|snapshot|);
      return true;
    }

    /** Stores what is pending, drains it and asks the provider. A run succeeds when
        the provider answers and the answer is stored; when storing the inputs fails,
        nothing is drained. */
    method Run(created: Option<nat>, flushed: bool, succeeded: bool) returns (ok: bool)
      modifies this`id, this`pending, this`stored, this`rows, this`delivered, this`departed
      ensures !ephemeral && (!flushed || (old(id).None? && created.None?)) ==> !ok && State() == old(State())
      ensures ephemeral || (flushed && (old(id).Some? || created.Some?)) ==>
        ok == succeeded && State() == Ran(Persisted(old(State()), flushed), succeeded)
    {
      var row := EnsureRow(created);
      if row.Err? {
        return false;
      }
      var stored := PersistPending(None, flushed);
      if !stored {
        return false;
      }
      var drained := pending;
      pending := [];
      if succeeded {
        delivered, departed := delivered + Values(drained), departed + Values(drained);
      } else {
        var retry := Retried(drained);
        pending := retry + pending;
      }
      return succeeded;
    }

    /** The calls as the host makes them keep the session good. */
    method PersistPendingKeeps(created: Option<nat>, flushed: bool) returns (ok: bool)
      requires Valid()
      modifies this`id, this`pending, this`stored, this`rows
      ensures Valid()
      ensures ok && !ephemeral ==> stored == pushed
    {
      PersistedKeeps(State(), flushed);
      ok := PersistPending(created, flushed);
      if ok && !ephemeral {
        StoredAreFirst(State());
        assert stored == pushed[..|pushed|] == pushed;
      }
    }

    method RunKeeps(created: Option<nat>, flushed: bool, succeeded: bool) returns (ok: bool)
      requires Valid()
      modifies this`id, this`pending, this`stored, this`rows, this`delivered, this`departed
      ensures Valid()
      ensures ok ==> pending == [] && delivered == old(delivered) + Values(old(pending))
    {
      if ephemeral || flushed {
        CallKeeps(State(), flushed, succeeded);
        CallDelivers(State(), flushed);
      }
      ok := Run(created, flushed, succeeded);
    }
  }
}
