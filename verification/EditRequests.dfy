/** What a structured edit comes to, from the text and the anchors of the request to
    the lines that are written, the cached file and the stored metadata. */
module EditRequests {
  import opened Wrappers
  import opened Separators
  import opened Anchors
  import opened Pools
  import opened Hashing
  import opened FileStates
  import opened GapModel
  import opened EditOps
  import opened EditLaws
  import opened DiffScripts
  import opened Reconciliation
  import opened ReconcileLaws
  import opened AnchorStores
  import opened Engine
  import opened SessionModel
  import opened SessionLaws
  import opened LineIdentity

  // ----- The lines of a draft -----

  /** The stretch of the file's lines that an edit replaces. */
  function Stretch(op: LineOp): (nat, nat) {
    match op
    case After(pin, _) => (pin + 1, pin + 1)
    case Before(pin, _) => (pin, pin)
    case Replaced(from, to, _) => (from, to + 1)
  }

  lemma StartTexts(original: seq<string>)
    ensures Texts(Flatten(Start(original))) == original
  {
    StartCells(original, |original|);
  }

  lemma StartCut(original: seq<string>, op: LineOp)
    requires Enabled(Start(original), op)
    ensures Cut(Start(original), op) == Stretch(op)
    ensures Stretch(op).0 <= Stretch(op).1 <= |original|
  {
    match op
    case After(pin, _) => StartPlaces(original, pin);
    case Before(pin, _) => StartPlaces(original, pin);
    case Replaced(from, to, _) =>
      StartPlaces(original, from);
      StartPlaces(original, to);
  }

  lemma DraftTexts(working: WorkingFile, op: LineOp)
    requires Targets(working, op)
    ensures Stretch(op).0 <= Stretch(op).1 <= |working.lines|
    ensures Texts(Draft(working, op))
         == working.lines[..Stretch(op).0] + op.lines + working.lines[Stretch(op).1..]
  {
    var g, cut := Start(working.lines), Stretch(op);
    StartCut(working.lines, op);
    StartTexts(working.lines);
    EditSplices(g, op);
    RunOne(g, op);
    TextsSplice(Flatten(g), cut.0, cut.1, op.lines);
  }

  // ----- What an edit leaves -----

  /** The edit hands these lines to the writer and nothing else: it succeeds if that
      write does, and then the file is cached as the writer left it, its metadata is in
      the store, and no other file is touched; a failed write changes nothing. */
  ghost predicate Writes(t: Tools, s: SessionState, edit: LlmEdit, writer: Writer, draft: seq<string>, mode: WriteMode)
    requires t.Valid()
  {
    var (s', ok) := Edited(t, s, edit, writer);
    var w := writer(edit.path, draft, mode);
    && (ok <==> w.Written?)
    && (!ok ==> s' == s)
    && (ok ==>
      && Leaves(t.lib.hasher, s', edit.path, w)
      && forall other :: other != edit.path ==> SameFile(s, s', other))
  }

  /** The file is cached as it was written, and its metadata is in the store. */
  ghost predicate Leaves(h: Hasher, s: SessionState, path: Path, w: WriteResult)
    requires w.Written?
  {
    && path in s.open && s.open[path].path == path && s.open[path].lines == w.lines
    && s.open[path].state.lines == s.store.LinesOf(path)
    && path in s.store.meta && s.store.meta[path] == Meta(w.mtimeNs, w.size, h.digest(h.HashesOf(w.lines)))
  }

  ghost predicate SameFile(s: SessionState, s': SessionState, path: Path) {
    && (path in s'.open <==> path in s.open) && (path in s.open ==> s'.open[path] == s.open[path])
    && SameElsewhere(s.store, s'.store, path)
  }

  ghost predicate SameElsewhere(st: StoreState, st': StoreState, path: Path) {
    && st'.LinesOf(path) == st.LinesOf(path) && st'.TombstonesOf(path) == st.TombstonesOf(path)
    && (path in st'.meta <==> path in st.meta) && (path in st.meta ==> st'.meta[path] == st.meta[path])
  }

  lemma SavedLeaves(t: Tools, s: SessionState, path: Path, cached: FileAnchorState, stored: FileAnchorState,
                    tombstones: seq<Anchor>, w: WriteResult)
    requires w.Written? && cached.lines == stored.lines
    requires stored.mtimeNs == w.mtimeNs && stored.size == w.size
    requires stored.contentDigest == t.lib.hasher.digest(t.lib.hasher.HashesOf(w.lines))
    ensures var s' := Saved(s, path, cached, stored, w.lines, tombstones);
      Leaves(t.lib.hasher, s', path, w) && forall other :: other != path ==> SameFile(s, s', other)
  {
    var s' := Saved(s, path, cached, stored, w.lines, tombstones);
    CommitEffect(s.store, path, stored, tombstones, path);
    forall other | other != path ensures SameFile(s, s', other) {
      CommitEffect(s.store, path, stored, tombstones, other);
    }
  }

  lemma LineEditedLeaves(t: Tools, s: SessionState, path: Path, op: LineOp, w: WriteResult)
    requires t.Valid() && path in s.open && s.open[path].path == path && Targets(s.open[path], op) && w.Written?
    ensures var s' := LineEdited(t, s, s.open[path], op, w);
      && Leaves(t.lib.hasher, s', path, w)
      && (forall other :: other != path ==> SameFile(s, s', other))
      && s'.open[path].state.mtimeNs == w.mtimeNs && s'.open[path].state.size == w.size
  {
    var h, working := t.lib.hasher, s.open[path];
    var draft := DraftOf(t, s, working, op);
    var state := FileAnchorState(path, w.mtimeNs, w.size, h.digest(h.HashesOf(w.lines)),
                                 ReconciledLines(h, t.lib.diff, draft, w.lines, UsedByDraft(s, working, op), None));
    SavedLeaves(t, s, path, state, state,
                Deleted(working, op) + Tombstones(h, t.lib.diff, draft, w.lines, None), w);
  }

  lemma RewrittenLeaves(t: Tools, s: SessionState, path: Path, hints: Option<seq<Anchor>>, w: WriteResult)
    requires t.Valid() && path in s.open && s.open[path].path == path && w.Written?
    ensures var s' := Rewritten(t, s, s.open[path], hints, w);
      Leaves(t.lib.hasher, s', path, w) && forall other :: other != path ==> SameFile(s, s', other)
  {
    var h, working := t.lib.hasher, s.open[path];
    var state := ReconciledState(h, t.lib.diff, working.state, w.lines, s.store.Used(path), hints);
    SavedLeaves(t, s, path, state, state.(mtimeNs := w.mtimeNs, size := w.size),
                Tombstones(h, t.lib.diff, working.state.lines, w.lines, hints), w);
  }

  // ----- Line edits -----

  predicate Anchored(edit: LlmEdit) {
    edit.ReplaceLines? || edit.InsertLinesAfter? || edit.InsertLinesBefore?
  }

  /** A cached file whose edit is not stopped by the guard. */
  ghost predicate Ready(t: Tools, s: SessionState, edit: LlmEdit)
    requires Anchored(edit) || edit.Overwrite?
  {
    && edit.path in s.open && s.open[edit.path].path == edit.path
    && (edit.bypassAnchorGuard || t.detectPasteback(edit.text).None?)
  }

  lemma LineEditTargets(t: Tools, s: SessionState, edit: LlmEdit, writer: Writer, op: LineOp)
    requires t.Valid() && Anchored(edit) && Ready(t, s, edit)
    requires LineTarget(t, s.open[edit.path], edit) == Some(op)
    ensures Edited(t, s, edit, writer) == LineEditOutcome(t, s, s.open[edit.path], op, writer)
  {
  }

  lemma LineEditWrites(t: Tools, s: SessionState, edit: LlmEdit, writer: Writer, op: LineOp, draft: seq<string>)
    requires t.Valid() && Anchored(edit) && Ready(t, s, edit)
    requires LineTarget(t, s.open[edit.path], edit) == Some(op)
    requires var lines, cut := s.open[edit.path].lines, Stretch(op);
      cut.0 <= cut.1 <= |lines| ==> draft == lines[..cut.0] + op.lines + lines[cut.1..]
    ensures Writes(t, s, edit, writer, draft, OverwriteExisting)
  {
    DraftTexts(s.open[edit.path], op);
    LineEditTargets(t, s, edit, writer, op);
    var w := writer(edit.path, draft, OverwriteExisting);
    if w.Written? { LineEditedLeaves(t, s, edit.path, op, w); }
  }

  /** Inserting behind a line: the text's lines come right behind it. */
  lemma InsertAfterWrites(t: Tools, s: SessionState, edit: LlmEdit, writer: Writer, i: nat, put: seq<string>)
    requires t.Valid() && edit.InsertLinesAfter? && Ready(t, s, edit)
    requires Resolution(t, edit.anchor, s.open[edit.path]) == Some(i) && PartsOf(put, edit.text, '\n')
    ensures var lines := s.open[edit.path].lines;
      && i < |lines|
      && Writes(t, s, edit, writer, lines[..i + 1] + put + lines[i + 1..], OverwriteExisting)
  {
    var lines := s.open[edit.path].lines;
    SplitIsParts(put, edit.text, '\n');
    LineEditWrites(t, s, edit, writer, After(i, put), lines[..i + 1] + put + lines[i + 1..]);
  }

  /** Inserting before a line: the text's lines come right before it. */
  lemma InsertBeforeWrites(t: Tools, s: SessionState, edit: LlmEdit, writer: Writer, i: nat, put: seq<string>)
    requires t.Valid() && edit.InsertLinesBefore? && Ready(t, s, edit)
    requires Resolution(t, edit.anchor, s.open[edit.path]) == Some(i) && PartsOf(put, edit.text, '\n')
    ensures var lines := s.open[edit.path].lines;
      && i < |lines|
      && Writes(t, s, edit, writer, lines[..i] + put + lines[i..], OverwriteExisting)
  {
    var lines := s.open[edit.path].lines;
    SplitIsParts(put, edit.text, '\n');
    LineEditWrites(t, s, edit, writer, Before(i, put), lines[..i] + put + lines[i..]);
  }

  lemma ReplaceTarget(t: Tools, working: WorkingFile, edit: LlmEdit, from: nat, to: nat, put: seq<string>)
    requires t.Valid() && edit.ReplaceLines? && from <= to && PartsOf(put, edit.text, '\n')
    requires Resolution(t, edit.anchor, working) == Some(from) && Resolution(t, edit.endAnchor, working) == Some(to)
    ensures LineTarget(t, working, edit) == Some(Replaced(from, to, put)) && to < |working.lines|
  {
    SplitIsParts(put, edit.text, '\n');
  }

  /** Replacing a range: the text's lines take the place of the first line to the last. */
  lemma ReplaceWrites(t: Tools, s: SessionState, edit: LlmEdit, writer: Writer, from: nat, to: nat, put: seq<string>)
    requires t.Valid() && edit.ReplaceLines? && Ready(t, s, edit) && from <= to
    requires Resolution(t, edit.anchor, s.open[edit.path]) == Some(from)
    requires Resolution(t, edit.endAnchor, s.open[edit.path]) == Some(to)
    requires PartsOf(put, edit.text, '\n')
    ensures var lines := s.open[edit.path].lines;
      && to < |lines|
      && Writes(t, s, edit, writer, lines[..from] + put + lines[to + 1..], OverwriteExisting)
  {
    var lines := s.open[edit.path].lines;
    ReplaceTarget(t, s.open[edit.path], edit, from, to, put);
    LineEditWrites(t, s, edit, writer, Replaced(from, to, put), lines[..from] + put + lines[to + 1..]);
  }

  /** A line edit is refused without a write and without a change if the guard stops
      it, the file is not cached, an anchor does not resolve or the range runs backwards;
      the lemmas above say that otherwise only a failed write stops it. */
  lemma LineEditRefused(t: Tools, s: SessionState, edit: LlmEdit, writer: Writer)
    requires t.Valid() && Anchored(edit)
    requires
      || (!edit.bypassAnchorGuard && t.detectPasteback(edit.text).Some?)
      || edit.path !in s.open
      || Resolution(t, edit.anchor, s.open[edit.path]).None?
      || (edit.ReplaceLines? &&
          (Resolution(t, edit.endAnchor, s.open[edit.path]).None?
           || Resolution(t, edit.endAnchor, s.open[edit.path]).value
                < Resolution(t, edit.anchor, s.open[edit.path]).value))
    ensures Edited(t, s, edit, writer) == (s, false)
  {
  }

  // ----- Anchors around a line edit -----

  /** The anchors in front of the stretch and behind it stay, those of the new lines
      were not in use. */
  ghost predicate AnchorsAround(before: seq<LineEntry>, after: seq<LineEntry>, used: set<Anchor>, cut: (nat, nat),
                                n: nat)
    requires cut.0 <= cut.1 <= |before|
  {
    && |after| == |before| - (cut.1 - cut.0) + n
    && (forall i :: 0 <= i < cut.0 ==> after[i].anchor == before[i].anchor)
    && (forall k :: cut.0 <= k < cut.0 + n ==> after[k].anchor !in used)
    && (forall i :: cut.1 <= i < |before| ==> after[i - cut.1 + cut.0 + n].anchor == before[i].anchor)
  }

  lemma UntouchedPlace(op: LineOp, i: nat)
    requires op.Replaced? ==> op.from <= op.to
    ensures !Covers(op, i) <==> i < Stretch(op).0 || i >= Stretch(op).1
    ensures i < Stretch(op).0 ==> NewPosition(op, i) == i
    ensures i >= Stretch(op).1 ==> NewPosition(op, i) == i - Stretch(op).1 + Stretch(op).0 + |op.lines|
  {
  }

  lemma UntouchedAround(before: seq<LineEntry>, after: seq<LineEntry>, used: set<Anchor>, op: LineOp)
    requires Stretch(op).0 <= Stretch(op).1 <= |before| && (op.Replaced? ==> op.from <= op.to)
    requires KeepsUntouched(before, after, used, op)
    requires |after| == |before| - (Stretch(op).1 - Stretch(op).0) + |op.lines|
    ensures AnchorsAround(before, after, used, Stretch(op), |op.lines|)
  {
    var cut := Stretch(op);
    forall i | 0 <= i < cut.0 ensures after[i].anchor == before[i].anchor {
      UntouchedPlace(op, i);
    }
    forall i | cut.1 <= i < |before| ensures after[i - cut.1 + cut.0 + |op.lines|].anchor == before[i].anchor {
      UntouchedPlace(op, i);
    }
    forall k | cut.0 <= k < cut.0 + |op.lines| ensures after[k].anchor !in used {
      if after[k].anchor in used {
        var i :| 0 <= i < |before| && !Covers(op, i) && k == NewPosition(op, i);
        UntouchedPlace(op, i);
        assert false;
      }
    }
  }

  lemma DraftLength(working: WorkingFile, op: LineOp)
    requires Targets(working, op)
    ensures Stretch(op).0 <= Stretch(op).1 <= |working.lines| && (op.Replaced? ==> op.from <= op.to)
    ensures |Draft(working, op)| == |working.lines| - (Stretch(op).1 - Stretch(op).0) + |op.lines|
  {
    DraftTexts(working, op);
    assert |Texts(Draft(working, op))| == |Draft(working, op)|;
  }

  lemma DeletedIs(working: WorkingFile, op: LineOp)
    requires Targets(working, op) && Stretch(op).0 <= Stretch(op).1 <= |working.lines|
    ensures Deleted(working, op) == AnchorsIn(working.state.lines[Stretch(op).0..Stretch(op).1])
  {
  }

  lemma EditedAround(t: Tools, s: SessionState, path: Path, op: LineOp, w: WriteResult)
    requires t.Valid() && Sound(t, s) && path in s.open && Targets(s.open[path], op)
    requires w.Written? && w.lines == Texts(Draft(s.open[path], op))
    ensures var s', before, cut := LineEdited(t, s, s.open[path], op, w), s.open[path].state.lines, Stretch(op);
      && cut.0 <= cut.1 <= |before|
      && AnchorsAround(before, s'.store.LinesOf(path), s.store.Used(path), cut, |op.lines|)
      && s'.store.TombstonesOf(path) == s.store.TombstonesOf(path) + Elements(AnchorsIn(before[cut.0..cut.1]))
  {
    var working := s.open[path];
    DraftLength(working, op);
    DeletedIs(working, op);
    StoredDraft(t, s, path, op, w);
    DraftKeepsUntouched(t, s, path, op);
    UntouchedAround(working.state.lines, DraftOf(t, s, working, op), s.store.Used(path), op);
  }

  /** A line edit whose lines the writer keeps: every line that was there keeps its
      anchor, the new lines have anchors that were not in use, and exactly the anchors
      of a replaced range become tombstones. */
  lemma LineEditAnchors(t: Tools, s: SessionState, edit: LlmEdit, writer: Writer, op: LineOp, w: WriteResult)
    requires t.Valid() && Sound(t, s) && Anchored(edit) && Ready(t, s, edit)
    requires LineTarget(t, s.open[edit.path], edit) == Some(op)
    requires var lines, cut := s.open[edit.path].lines, Stretch(op);
      && cut.0 <= cut.1 <= |lines|
      && w == writer(edit.path, lines[..cut.0] + op.lines + lines[cut.1..], OverwriteExisting)
      && w.Written? && w.lines == lines[..cut.0] + op.lines + lines[cut.1..]
    ensures var st, before, cut := Edited(t, s, edit, writer).0.store, s.open[edit.path].state.lines, Stretch(op);
      && cut.1 <= |before|
      && AnchorsAround(before, st.LinesOf(edit.path), s.store.Used(edit.path), cut, |op.lines|)
      && st.TombstonesOf(edit.path)
         == s.store.TombstonesOf(edit.path) + Elements(AnchorsIn(before[cut.0..cut.1]))
  {
    DraftTexts(s.open[edit.path], op);
    LineEditTargets(t, s, edit, writer, op);
    EditedAround(t, s, edit.path, op, w);
  }

  // ----- Whole-file edits -----

  /** Overwriting hands over the text's lines; the file must have been read. */
  lemma OverwriteWrites(t: Tools, s: SessionState, edit: LlmEdit, writer: Writer, put: seq<string>)
    requires t.Valid() && edit.Overwrite? && Ready(t, s, edit) && PartsOf(put, edit.text, '\n')
    ensures Writes(t, s, edit, writer, put, OverwriteExisting)
  {
    SplitIsParts(put, edit.text, '\n');
    var w := writer(edit.path, put, OverwriteExisting);
    if w.Written? {
      RewrittenLeaves(t, s, edit.path, Some(AnchorsIn(s.open[edit.path].state.lines)), w);
    }
  }

  ghost predicate AllDropped(before: seq<LineEntry>, st: StoreState, path: Path) {
    forall i :: 0 <= i < |before| ==>
      && before[i].anchor in st.TombstonesOf(path)
      && before[i].anchor !in AnchorsIn(st.LinesOf(path))
  }

  lemma ReconcilingDropsAll(h: Hasher, diff: LineDiff, before: seq<LineEntry>, onDisk: seq<string>, used: set<Anchor>)
    requires Lawful(diff) && Distinct(AnchorsIn(before)) && Elements(AnchorsIn(before)) <= used
    requires PoisonFree(h, before, onDisk, Some(AnchorsIn(before)))
    ensures var hints := Some(AnchorsIn(before));
      forall i :: 0 <= i < |before| ==>
        && before[i].anchor in Tombstones(h, diff, before, onDisk, hints)
        && before[i].anchor !in AnchorsIn(ReconciledLines(h, diff, before, onDisk, used, hints))
  {
    var hints := Some(AnchorsIn(before));
    HashesAndHints(h, diff, before, onDisk, used, hints);
    AnchorsConserved(h, diff, before, onDisk, used, hints);
    forall i | 0 <= i < |before| ensures before[i].anchor in Tombstones(h, diff, before, onDisk, hints) {
      assert AnchorsIn(before)[i] == before[i].anchor;
      assert Excluded(before, hints, i);
    }
  }

  lemma RewritingDropsAll(t: Tools, s: SessionState, path: Path, w: WriteResult)
    requires t.Valid() && Sound(t, s) && path in s.open && w.Written?
    requires var lines := s.open[path].state.lines;
      PoisonFree(t.lib.hasher, lines, w.lines, Some(AnchorsIn(lines)))
    ensures var before := s.open[path].state.lines;
      AllDropped(before, Rewritten(t, s, s.open[path], Some(AnchorsIn(before)), w).store, path)
  {
    var working, h := s.open[path], t.lib.hasher;
    var before, hints := working.state.lines, Some(AnchorsIn(working.state.lines));
    assert SoundFile(h, s.store, path, working);
    ReconcilingDropsAll(h, t.lib.diff, before, w.lines, s.store.Used(path));
    var state := ReconciledState(h, t.lib.diff, working.state, w.lines, s.store.Used(path), hints);
    CommitEffect(s.store, path, state.(mtimeNs := w.mtimeNs, size := w.size),
                 Tombstones(h, t.lib.diff, before, w.lines, hints), path);
  }

  lemma OverwriteIsRewrite(t: Tools, s: SessionState, edit: LlmEdit, writer: Writer)
    requires t.Valid() && edit.Overwrite? && Ready(t, s, edit)
    requires writer(edit.path, SplitLines(edit.text), OverwriteExisting).Written?
    ensures var working, w := s.open[edit.path], writer(edit.path, SplitLines(edit.text), OverwriteExisting);
      Edited(t, s, edit, writer).0 == Rewritten(t, s, working, Some(AnchorsIn(working.state.lines)), w)
  {
  }

  /** An overwritten file keeps no anchor: all the old ones become tombstones, even those
      of lines that stay the same. */
  lemma OverwriteDropsAnchors(t: Tools, s: SessionState, edit: LlmEdit, writer: Writer, put: seq<string>)
    requires t.Valid() && Sound(t, s) && edit.Overwrite? && Ready(t, s, edit) && PartsOf(put, edit.text, '\n')
    requires var w := writer(edit.path, put, OverwriteExisting);
      var lines := s.open[edit.path].state.lines;
      w.Written? && PoisonFree(t.lib.hasher, lines, w.lines, Some(AnchorsIn(lines)))
    ensures AllDropped(s.open[edit.path].state.lines, Edited(t, s, edit, writer).0.store, edit.path)
  {
    SplitIsParts(put, edit.text, '\n');
    var w := writer(edit.path, put, OverwriteExisting);
    RewritingDropsAll(t, s, edit.path, w);
    OverwriteIsRewrite(t, s, edit, writer);
  }

  lemma OverwriteRefused(t: Tools, s: SessionState, edit: LlmEdit, writer: Writer)
    requires t.Valid() && edit.Overwrite?
    requires (!edit.bypassAnchorGuard && t.detectPasteback(edit.text).Some?) || edit.path !in s.open
    ensures Edited(t, s, edit, writer) == (s, false)
  {
  }

  /** Replacing everywhere hands over the lines of what the pattern made of the file; it
      is refused for a bad pattern or too many matches, and without a match it is done
      without a write. */
  lemma ReplaceAllWrites(t: Tools, s: SessionState, edit: LlmEdit, writer: Writer, content: string, put: seq<string>)
    requires t.Valid() && edit.ReplaceAll?
    requires edit.path in s.open ==> s.open[edit.path].path == edit.path
    requires edit.path in s.open ==> content == Join(s.open[edit.path].lines, '\n')
    ensures var matched := t.regex(edit.find, edit.replacement, content);
      var refused := edit.path !in s.open || matched.BadPattern?
        || (edit.count.Some? && matched.count > edit.count.value);
      && (refused ==> Edited(t, s, edit, writer) == (s, false))
      && (!refused && matched.replaced.None? ==> Edited(t, s, edit, writer) == (s, true))
      && (!refused && matched.replaced.Some? && PartsOf(put, matched.replaced.value, '\n') ==>
            Writes(t, s, edit, writer, put, OverwriteExisting))
  {
    var matched := t.regex(edit.find, edit.replacement, content);
    if matched.Matched? && matched.replaced.Some? && edit.path in s.open {
      SplitIsParts(put, matched.replaced.value, '\n');
      var w := writer(edit.path, put, OverwriteExisting);
      if w.Written? { RewrittenLeaves(t, s, edit.path, None, w); }
    }
  }

  lemma RewritingKeepsAll(t: Tools, s: SessionState, path: Path, w: WriteResult)
    requires t.Valid() && Sound(t, s) && path in s.open && w.Written? && w.lines == s.open[path].lines
    ensures var s' := Rewritten(t, s, s.open[path], None, w);
      && s'.store.LinesOf(path) == s.store.LinesOf(path)
      && s'.store.TombstonesOf(path) == s.store.TombstonesOf(path)
  {
    var working, h := s.open[path], t.lib.hasher;
    assert SoundFile(h, s.store, path, working);
    NothingChanged(h, t.lib.diff, working.state.lines, w.lines, s.store.Used(path));
    var state := ReconciledState(h, t.lib.diff, working.state, w.lines, s.store.Used(path), None);
    CommitEffect(s.store, path, state.(mtimeNs := w.mtimeNs, size := w.size), [], path);
  }

  /** A replacement everywhere that leaves the lines as they were leaves every anchor. */
  lemma ReplaceAllKeepsAnchors(t: Tools, s: SessionState, edit: LlmEdit, writer: Writer, put: seq<string>)
    requires t.Valid() && Sound(t, s) && edit.ReplaceAll? && edit.path in s.open && s.open[edit.path].path == edit.path
    requires var matched := t.regex(edit.find, edit.replacement, Join(s.open[edit.path].lines, '\n'));
      && matched.Matched? && (edit.count.Some? ==> matched.count <= edit.count.value)
      && matched.replaced.Some? && PartsOf(put, matched.replaced.value, '\n')
    requires var w := writer(edit.path, put, OverwriteExisting);
      w.Written? && w.lines == s.open[edit.path].lines
    ensures var st := Edited(t, s, edit, writer).0.store;
      && st.LinesOf(edit.path) == s.store.LinesOf(edit.path)
      && st.TombstonesOf(edit.path) == s.store.TombstonesOf(edit.path)
  {
    var matched := t.regex(edit.find, edit.replacement, Join(s.open[edit.path].lines, '\n'));
    SplitIsParts(put, matched.replaced.value, '\n');
    RewritingKeepsAll(t, s, edit.path, writer(edit.path, put, OverwriteExisting));
  }

  /** Creating a file hands over the text's lines, to be created and not overwritten, and
      reads what was written. */
  lemma NewWrites(t: Tools, s: SessionState, edit: LlmEdit, writer: Writer, put: seq<string>)
    requires t.Valid() && edit.New? && PartsOf(put, edit.text, '\n') && SoundStore(t.lib.hasher, s.store)
    requires var w := writer(edit.path, put, CreateNew);
      w.Written? ==> Faithful(t.lib.hasher, s.store, Reading(edit.path, w.lines, w.mtimeNs, w.size))
    ensures Writes(t, s, edit, writer, put, CreateNew)
  {
    SplitIsParts(put, edit.text, '\n');
    var w := writer(edit.path, put, CreateNew);
    if w.Written? { ReadRecords(t, s, Reading(edit.path, w.lines, w.mtimeNs, w.size)); }
  }

  // ----- Reading and committing -----

  lemma ReconciledElsewhere(lib: Library, st: StoreState, r: Reading, other: Path)
    requires Lawful(lib.diff) && other != r.path
    ensures SameElsewhere(st, AlwaysReconciled(lib, st, r).0, other)
  {
    match st.Loaded(r.path)
    case Some(c) =>
      CommitEffect(st, r.path, DriftedState(lib, c, r, st.Used(r.path)),
                   Tombstones(lib.hasher, lib.diff, c.lines, r.lines, None), other);
    case None => CommitEffect(st, r.path, ColdState(lib.hasher, r, st.Used(r.path)), [], other);
  }

  lemma MetaElsewhere(st: StoreState, path: Path, m: Meta, other: Path)
    requires other != path
    ensures SameElsewhere(st, st.WithMeta(path, m), other)
  {
  }

  lemma OpenedElsewhere(lib: Library, st: StoreState, r: Reading, other: Path)
    requires Lawful(lib.diff) && other != r.path
    ensures SameElsewhere(st, Opened(lib, st, r).0, other)
  {
    ReconciledElsewhere(lib, st, r, other);
    MetaElsewhere(st, r.path, Meta(r.mtimeNs, r.size, lib.hasher.digest(lib.hasher.HashesOf(r.lines))), other);
  }

  /** Reading caches the file as it was read and records its metadata, and touches no
      other file; reading the same again changes nothing. */
  lemma ReadRecords(t: Tools, s: SessionState, r: Reading)
    requires t.Valid() && SoundStore(t.lib.hasher, s.store) && Faithful(t.lib.hasher, s.store, r)
    ensures var s' := ReadIn(t, s, r);
      && Leaves(t.lib.hasher, s', r.path, Written(r.lines, r.mtimeNs, r.size))
      && (forall other :: other != r.path ==> SameFile(s, s', other))
      && ReadIn(t, s', r) == s'
  {
    OpenRecords(t.lib, s.store, r);
    var s' := ReadIn(t, s, r);
    forall other | other != r.path ensures SameFile(s, s', other) {
      OpenedElsewhere(t.lib, s.store, r, other);
    }
    assert s'.open[r.path := s'.open[r.path]] == s'.open;
  }

  /** Reading what an edit has just written leaves the store as it is, and finds the
      same lines with the same anchors. */
  lemma WrittenReadsBack(t: Tools, s: SessionState, path: Path, w: WriteResult)
    requires t.Valid() && w.Written? && Leaves(t.lib.hasher, s, path, w)
    ensures var s' := ReadIn(t, s, Reading(path, w.lines, w.mtimeNs, w.size));
      && s'.store == s.store && path in s'.open
      && s'.open[path].lines == w.lines && s'.open[path].state.lines == s.open[path].state.lines
  {
    RecordedIsCurrent(t.lib, s.store, Reading(path, w.lines, w.mtimeNs, w.size));
  }

  /** A commit frees the anchors that name no line, and changes nothing else. */
  lemma CommitFrees(t: Tools, s: SessionState, path: Path)
    requires t.Valid()
    ensures var s' := Step(t, s, SessionModel.CommitEdits);
      && s'.open == s.open && s'.store.meta == s.store.meta && s'.store.lines == s.store.lines
      && s'.store.TombstonesOf(path) == {}
      && s'.store.Used(path) == Elements(AnchorsIn(s.store.LinesOf(path)))
  {
  }
}
