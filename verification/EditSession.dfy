/** The editing session: a cache of open files over a shared engine. */
module EditSession {
  import opened Wrappers
  import opened Separators
  import opened Words
  import opened Anchors
  import opened Pools
  import opened Hashing
  import opened FileStates
  import opened GapModel
  import opened EditOps
  import opened Carrying
  import opened Reconciliation
  import opened Engine
  import opened SessionModel

  datatype EditError =
    | AnchorNotFound(word: string, path: Path)
    | ContentMismatch(word: string, actual: string, claimed: string)
    | MalformedAnchor(field: string)
    | MultilineAnchor(firstLine: string)
    | AnchorPastebackDetected(anchors: string)
    | BadAnchorWord(word: string, source: ParseError)
    | BackwardsReplaceRange(start: nat, end: nat)
    | NewFileExists(path: Path)
    | NotCached(path: Path)
    | BadRegex
    | ReplaceAllCountExceeded(matches: nat, limit: nat)
    | NotCachedForOverwrite(path: Path)
    | DraftFailed

  datatype LoopKey = ReadKey(argsHash: Hash, mtimeNs: int, size: nat) | SearchKey(argsHash: Hash)

  /** What became of a word and a content: the word is no anchor's; it is the anchor of
      no line; or its line reads otherwise. */
  ghost predicate PinsError(t: Tools, working: WorkingFile, word: string, content: string,
                            r: Result<(Anchor, nat), EditError>)
    requires t.Valid() && |working.state.lines| == |working.lines|
  {
    && (r.Err? && r.error.BadAnchorWord? <==> forall a: Anchor :: Display(t.words, a) != word)
    && (forall a: Anchor :: Display(t.words, a) == word ==>
      var index := working.state.FindAnchor(a);
      && (r == Err(AnchorNotFound(word, working.path)) <==> index.None?)
      && (index.Some? ==>
        var actual := working.lines[index.value];
        r == Err(ContentMismatch(word, actual, content))
        <==> t.lib.hasher.trim(actual) != t.lib.hasher.trim(content)))
  }

  /** Splits a rendered line at the separator, parses the word, finds the line and
      checks its content. The first check that fails decides the error. */
  method ResolveAnchor(t: Tools, field: string, working: WorkingFile)
      returns (r: Result<(Anchor, nat), EditError>)
    requires t.Valid() && |working.state.lines| == |working.lines|
    ensures r.Ok? <==> Resolution(t, field, working).Some?
    ensures r.Ok? ==> Resolution(t, field, working) == Some(r.value.1)
                      && working.state.FindAnchor(r.value.0) == Some(r.value.1)
    ensures r.Err? && r.error.MultilineAnchor? <==> '\n' in field
    ensures '\n' !in field ==> (r.Err? && r.error.MalformedAnchor? <==> ANCHOR_SEPARATOR !in field)
    ensures '\n' !in field && ANCHOR_SEPARATOR in field ==>
      var parts := SplitOnce(field, ANCHOR_SEPARATOR);
      parts.Some? && PinsError(t, working, parts.value.0, parts.value.1, r)
  {
    var firstLine := SplitOnce(field, '\n');
    if firstLine.Some? {
      return Err(MultilineAnchor(firstLine.value.0));
    }
    var parts := SplitOnce(field, ANCHOR_SEPARATOR);
    if parts.None? {
      return Err(MalformedAnchor(field));
    }
    var (word, content) := parts.value;
    var parsed := FromStr(t.words, word);
    if parsed.Err? {
      return Err(BadAnchorWord(word, parsed.error));
    }
    var anchor := parsed.value;
    var index := working.state.FindAnchor(anchor);
    if index.None? {
      return Err(AnchorNotFound(word, working.path));
    }
    var actual := working.lines[index.value];
    if t.lib.hasher.trim(actual) != t.lib.hasher.trim(content) {
      return Err(ContentMismatch(word, actual, content));
    }
    assert Resolves(t, field, working, index.value);
    return Ok((anchor, index.value));
  }

  /** The replacement a structured edit asks for, with the anchors it removes. */
  method ResolveRange(t: Tools, edit: LlmEdit, working: WorkingFile)
      returns (r: Result<(EditOp, seq<Anchor>), EditError>)
    requires t.Valid() && |working.state.lines| == |working.lines| && edit.ReplaceLines?
    ensures r.Ok? <==> LineTarget(t, working, edit).Some?
    ensures r.Ok? ==>
      && Resolvable(working.state, r.value.0)
      && LineTarget(t, working, edit) == Some(Resolve(working.state, r.value.0))
      && r.value.1 == Deleted(working, Resolve(working.state, r.value.0))
    ensures var from, to := Resolution(t, edit.anchor, working), Resolution(t, edit.endAnchor, working);
      from.Some? && to.Some? && to.value < from.value ==> r == Err(BackwardsReplaceRange(from.value, to.value))
  {
    var from := ResolveAnchor(t, edit.anchor, working);
    if from.Err? {
      return Err(from.error);
    }
    var to := ResolveAnchor(t, edit.endAnchor, working);
    if to.Err? {
      return Err(to.error);
    }
    var (fromAnchor, fromIndex) := from.value;
    var (toAnchor, toIndex) := to.value;
    if toIndex < fromIndex {
      return Err(BackwardsReplaceRange(fromIndex, toIndex));
    }
    var op := EditOp.Replace(fromAnchor, toAnchor, SplitLines(edit.text));
    return Ok((op, AnchorsIn(working.state.lines[fromIndex..toIndex + 1])));
  }

  class EditSession {
    const engine: EditEngine
    const tools: Tools
    var openFiles: map<Path, WorkingFile>
    var loopSet: set<LoopKey>

    ghost predicate Ready()
      reads this
    {
      && tools.Valid()
      && engine.lib == tools.lib
      && forall path :: path in openFiles ==>
           openFiles[path].path == path && |openFiles[path].state.lines| == |openFiles[path].lines|
    }

    ghost function State(): SessionState
      reads this, engine.store
    {
      SessionState(engine.store.State(), openFiles)
    }

    constructor (engine: EditEngine, tools: Tools)
      requires tools.Valid() && engine.lib == tools.lib
      ensures Ready() && this.engine == engine && this.tools == tools
      ensures openFiles == map[] && loopSet == {}
    {
      this.engine, this.tools := engine, tools;
      openFiles, loopSet := map[], {};
    }

    method RecordLoop(key: LoopKey)
      modifies this`loopSet
      ensures loopSet == old(loopSet) + {key}
    {
      loopSet := loopSet + {key};
    }

    /** Reads a file into the session. */
    method ReadFile(r: Reading) returns (working: WorkingFile)
      requires Ready()
      modifies this`openFiles, engine.store
      ensures State() == ReadIn(tools, old(State()), r)
      ensures r.path in openFiles && working == openFiles[r.path]
    {
      working := engine.Open(r);
      openFiles := openFiles[r.path := working];
    }

    method CommitEdits()
      requires Ready()
      modifies engine.store
      ensures State() == Step(tools, old(State()), SessionModel.CommitEdits)
    {
      engine.CommitEdits();
    }

    method DraftLines(working: WorkingFile, origins: seq<LineOrigin>, hashes: seq<Hash>, pool: Pool)
        returns (entries: seq<LineEntry>)
      requires InRange(origins, |working.state.lines|) && |origins| == |hashes| && pool.Valid()
      modifies pool
      ensures entries == DraftEntries(origins, working.state.lines, hashes, old(pool.used), |origins|)
      ensures pool.Valid() && pool.used == UsedAfter(old(pool.used), NewLines(origins, |origins|))
    {
      entries := [];
      for k := 0 to |origins|
        invariant entries == DraftEntries(origins, working.state.lines, hashes, old(pool.used), k)
        invariant pool.Valid() && pool.used == UsedAfter(old(pool.used), NewLines(origins, k))
      {
        var anchor;
        match origins[k] {
          case Carried(i) => anchor := working.state.lines[i].anchor;
          case Inserted => anchor := pool.Mint();
        }
        assert anchor == AnchorAt(origins, AnchorsIn(working.state.lines), old(pool.used), k);
        entries := entries + [LineEntry(hashes[k], anchor)];
      }
    }

    /** Applies one line edit to the draft by direct transform, writes it, and
        reconciles only what the formatter changed. */
    method ApplyLineEdit(path: Path, working: WorkingFile, op: EditOp, deleted: seq<Anchor>, writer: Writer)
        returns (r: Result<(), EditError>)
      requires Ready() && path in openFiles && working == openFiles[path]
      requires Resolvable(working.state, op) && Targets(working, Resolve(working.state, op))
      requires deleted == Deleted(working, Resolve(working.state, op))
      modifies this`openFiles, engine.store
      ensures (State(), r.Ok?) == LineEditOutcome(tools, old(State()), working, Resolve(working.state, op), writer)
      ensures r.Err? ==> r.error == DraftFailed
    {
      ghost var lineOp := Resolve(working.state, op);
      assert ResolveAll(working.state, [op]) == [lineOp];
      var draftLines, origins := ApplyOps(working.state, working.lines, [op]);
      var w := writer(path, draftLines, OverwriteExisting);
      if w.WriteFailed? {
        return Err(DraftFailed);
      }
      var used := engine.store.UsedAnchors(path);
      var pool := new Pool.FromUsed(used);
      var draftHashes := tools.lib.hasher.HashLines(draftLines);
      DraftInRange(working, lineOp);
      var entries := DraftLines(working, origins, draftHashes, pool);
      var draftState := FileAnchorState(path, w.mtimeNs, w.size, tools.lib.hasher.digest(draftHashes), entries);
      var outcome := Reconcile(tools.lib.hasher, tools.lib.diff, draftState, w.lines, pool, None);
      engine.Commit(path, outcome.state, w.mtimeNs, w.size, deleted + outcome.tombstoned);
      openFiles := openFiles[path := WorkingFile(path, outcome.state, w.lines)];
      return Ok(());
    }

    /** Writes whole-file content and reconciles it against the cached lines. */
    method ApplyRewrite(path: Path, working: WorkingFile, text: string, hints: Option<seq<Anchor>>, writer: Writer)
        returns (r: Result<(), EditError>)
      requires Ready() && path in openFiles && working == openFiles[path]
      modifies this`openFiles, engine.store
      ensures (State(), r.Ok?) == RewriteOutcome(tools, old(State()), working, text, hints, writer)
      ensures r.Err? ==> r.error == DraftFailed
    {
      var w := writer(path, SplitLines(text), OverwriteExisting);
      if w.WriteFailed? {
        return Err(DraftFailed);
      }
      var used := engine.store.UsedAnchors(path);
      var pool := new Pool.FromUsed(used);
      var outcome := Reconcile(tools.lib.hasher, tools.lib.diff, working.state, w.lines, pool, hints);
      engine.Commit(path, outcome.state, w.mtimeNs, w.size, outcome.tombstoned);
      openFiles := openFiles[path := WorkingFile(path, outcome.state, w.lines)];
      return Ok(());
    }

    method ApplyReplace(edit: LlmEdit, writer: Writer) returns (r: Result<(), EditError>)
      requires Ready() && edit.ReplaceLines?
      modifies this`openFiles, engine.store
      ensures (State(), r.Ok?) == SessionModel.Edited(tools, old(State()), edit, writer)
      ensures Guarded(tools, edit.text, edit.bypassAnchorGuard) ==> r.Err? && r.error.AnchorPastebackDetected?
      ensures !Guarded(tools, edit.text, edit.bypassAnchorGuard) && edit.path !in old(openFiles) ==>
        r == Err(NotCached(edit.path))
    {
      var pasted := tools.detectPasteback(edit.text);
      if !edit.bypassAnchorGuard && pasted.Some? {
        return Err(AnchorPastebackDetected(pasted.value));
      }
      if edit.path !in openFiles {
        return Err(NotCached(edit.path));
      }
      var working := openFiles[edit.path];
      var range := ResolveRange(tools, edit, working);
      if range.Err? {
        return Err(range.error);
      }
      r := ApplyLineEdit(edit.path, working, range.value.0, range.value.1, writer);
    }

    method ApplyPinInsert(edit: LlmEdit, writer: Writer) returns (r: Result<(), EditError>)
      requires Ready() && (edit.InsertLinesAfter? || edit.InsertLinesBefore?)
      modifies this`openFiles, engine.store
      ensures (State(), r.Ok?) == SessionModel.Edited(tools, old(State()), edit, writer)
      ensures Guarded(tools, edit.text, edit.bypassAnchorGuard) ==> r.Err? && r.error.AnchorPastebackDetected?
      ensures !Guarded(tools, edit.text, edit.bypassAnchorGuard) && edit.path !in old(openFiles) ==>
        r == Err(NotCached(edit.path))
    {
      var pasted := tools.detectPasteback(edit.text);
      if !edit.bypassAnchorGuard && pasted.Some? {
        return Err(AnchorPastebackDetected(pasted.value));
      }
      if edit.path !in openFiles {
        return Err(NotCached(edit.path));
      }
      var working := openFiles[edit.path];
      var pin := ResolveAnchor(tools, edit.anchor, working);
      if pin.Err? {
        return Err(pin.error);
      }
      var lines := SplitLines(edit.text);
      var op := if edit.InsertLinesAfter? then InsertAfter(pin.value.0, lines) else InsertBefore(pin.value.0, lines);
      assert LineTarget(tools, working, edit) == Some(Resolve(working.state, op));
      r := ApplyLineEdit(edit.path, working, op, [], writer);
    }

    method ApplyReplaceAll(edit: LlmEdit, writer: Writer) returns (r: Result<(), EditError>)
      requires Ready() && edit.ReplaceAll?
      modifies this`openFiles, engine.store
      ensures (State(), r.Ok?) == SessionModel.Edited(tools, old(State()), edit, writer)
      ensures edit.path !in old(openFiles) ==> r == Err(NotCached(edit.path))
      ensures r.Err? && r.error.ReplaceAllCountExceeded? ==>
        edit.count.Some? && r.error.limit == edit.count.value < r.error.matches
    {
      if edit.path !in openFiles {
        return Err(NotCached(edit.path));
      }
      var working := openFiles[edit.path];
      var matched := tools.regex(edit.find, edit.replacement, Join(working.lines, '\n'));
      if matched.BadPattern? {
        return Err(BadRegex);
      }
      if edit.count.Some? && matched.count > edit.count.value {
        return Err(ReplaceAllCountExceeded(matched.count, edit.count.value));
      }
      if matched.replaced.None? {
        return Ok(());
      }
      r := ApplyRewrite(edit.path, working, matched.replaced.value, None, writer);
    }

    method ApplyOverwrite(edit: LlmEdit, writer: Writer) returns (r: Result<(), EditError>)
      requires Ready() && edit.Overwrite?
      modifies this`openFiles, engine.store
      ensures (State(), r.Ok?) == SessionModel.Edited(tools, old(State()), edit, writer)
      ensures Guarded(tools, edit.text, edit.bypassAnchorGuard) ==> r.Err? && r.error.AnchorPastebackDetected?
      ensures !Guarded(tools, edit.text, edit.bypassAnchorGuard) && edit.path !in old(openFiles) ==>
        r == Err(NotCachedForOverwrite(edit.path))
    {
      var pasted := tools.detectPasteback(edit.text);
      if !edit.bypassAnchorGuard && pasted.Some? {
        return Err(AnchorPastebackDetected(pasted.value));
      }
      if edit.path !in openFiles {
        return Err(NotCachedForOverwrite(edit.path));
      }
      var working := openFiles[edit.path];
      r := ApplyRewrite(edit.path, working, edit.text, Some(AnchorsIn(working.state.lines)), writer);
    }

    method ApplyNew(edit: LlmEdit, writer: Writer) returns (r: Result<(), EditError>)
      requires Ready() && edit.New?
      modifies this`openFiles, engine.store
      ensures (State(), r.Ok?) == SessionModel.Edited(tools, old(State()), edit, writer)
      ensures writer(edit.path, SplitLines(edit.text), CreateNew) == WriteFailed(true) ==>
        r == Err(NewFileExists(edit.path))
    {
      var w := writer(edit.path, SplitLines(edit.text), CreateNew);
      match w {
        case WriteFailed(exists_) =>
          return Err(if exists_ then NewFileExists(edit.path) else DraftFailed);
        case Written(lines, mtimeNs, size) =>
          var working := engine.Open(Reading(edit.path, lines, mtimeNs, size));
          openFiles := openFiles[edit.path := working];
          return Ok(());
      }
    }

    /** Applies one structured edit. Any edit, even a failing one, forgets the
        reads that the loop guard remembers. */
    method Edit(edit: LlmEdit, writer: Writer) returns (r: Result<(), EditError>)
      requires Ready()
      modifies this, engine.store
      ensures (State(), r.Ok?) == SessionModel.Edited(tools, old(State()), edit, writer)
      ensures loopSet == {}
    {
      loopSet := {};
      match edit {
        case New(_, _) => r := ApplyNew(edit, writer);
        case Overwrite(_, _, _) => r := ApplyOverwrite(edit, writer);
        case ReplaceLines(_, _, _, _, _) => r := ApplyReplace(edit, writer);
        case ReplaceAll(_, _, _, _) => r := ApplyReplaceAll(edit, writer);
        case InsertLinesAfter(_, _, _, _) => r := ApplyPinInsert(edit, writer);
        case InsertLinesBefore(_, _, _, _) => r := ApplyPinInsert(edit, writer);
      }
    }
  }
}
