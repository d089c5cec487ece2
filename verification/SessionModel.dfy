/** Editing sessions as values: what reads, edits and commits do to the store and
    to the session's cache of open files. */
module SessionModel {
  import opened Wrappers
  import opened Separators
  import opened Words
  import opened Anchors
  import opened Pools
  import opened Hashing
  import opened FileStates
  import opened GapModel
  import opened EditLaws
  import opened Carrying
  import opened DiffScripts
  import opened Reconciliation
  import opened AnchorStores
  import opened Engine

  datatype WriteMode = CreateNew | OverwriteExisting

  /** What a draft writer reports: the content found after the write, which a
      formatter may have changed, or a failure. */
  datatype WriteResult = Written(lines: seq<string>, mtimeNs: int, size: nat) | WriteFailed(alreadyExists: bool)

  type Writer = (Path, seq<string>, WriteMode) -> WriteResult

  datatype RegexResult = BadPattern | Matched(count: nat, replaced: Option<string>)

  /** The parts of an edit session that other crates provide. */
  datatype Tools = Tools(
    lib: Library,
    words: seq<string>,
    detectPasteback: string -> Option<string>,
    regex: (string, string, string) -> RegexResult)  // pattern, replacement, content
  {
    ghost predicate Valid() {
      IsDictionary(words) && Lawful(lib.diff)
    }
  }

  datatype LlmEdit =
    | ReplaceLines(path: Path, anchor: string, endAnchor: string, text: string, bypassAnchorGuard: bool)
    | ReplaceAll(path: Path, find: string, replacement: string, count: Option<nat>)
    | InsertLinesAfter(path: Path, anchor: string, text: string, bypassAnchorGuard: bool)
    | InsertLinesBefore(path: Path, anchor: string, text: string, bypassAnchorGuard: bool)
    | New(path: Path, text: string)
    | Overwrite(path: Path, text: string, bypassAnchorGuard: bool)

  datatype SessionState = SessionState(store: StoreState, open: map<Path, WorkingFile>)

  function SplitLines(text: string): seq<string> {
    Split(text, '\n')
  }

  // ----- Rendered lines and what they resolve to -----

  /** A line as the reader sees it. */
  function RenderedLine(words: seq<string>, anchor: Anchor, line: string): string
    requires IsDictionary(words)
  {
    Display(words, anchor) + [ANCHOR_SEPARATOR] + line
  }

  /** The line that a rendered anchor field names: one line of text, an anchor word
      that occurs in the file, and the line's own content up to white space. */
  ghost predicate Resolves(t: Tools, field: string, working: WorkingFile, i: nat)
    requires t.Valid()
  {
    && '\n' !in field
    && |working.state.lines| == |working.lines|
    && var parts := SplitOnce(field, ANCHOR_SEPARATOR);
    && parts.Some?
    && exists a: Anchor :: Display(t.words, a) == parts.value.0
         && working.state.FindAnchor(a) == Some(i)
         && t.lib.hasher.trim(working.lines[i]) == t.lib.hasher.trim(parts.value.1)
  }

  lemma ResolvesOnce(t: Tools, field: string, working: WorkingFile, i: nat, j: nat)
    requires t.Valid() && Resolves(t, field, working, i) && Resolves(t, field, working, j)
    ensures i == j
  {
    var word := SplitOnce(field, ANCHOR_SEPARATOR).value.0;
    var a: Anchor :| Display(t.words, a) == word && working.state.FindAnchor(a) == Some(i);
    var b: Anchor :| Display(t.words, b) == word && working.state.FindAnchor(b) == Some(j);
    DisplayInjective(t.words, a, b);
  }

  ghost function Resolution(t: Tools, field: string, working: WorkingFile): (r: Option<nat>)
    requires t.Valid()
    ensures r.Some? ==> Resolves(t, field, working, r.value)
    ensures forall i: nat :: Resolves(t, field, working, i) ==> r == Some(i)
  {
    if i: nat :| Resolves(t, field, working, i) then
      assert forall j: nat :: Resolves(t, field, working, j) ==> i == j by {
        forall j: nat | Resolves(t, field, working, j) ensures i == j { ResolvesOnce(t, field, working, i, j); }
      }
      Some(i)
    else None
  }

  // ----- Line edits -----

  ghost function DraftEntry(origins: seq<LineOrigin>, lines: seq<LineEntry>, hashes: seq<Hash>, used: set<Anchor>,
                            k: nat): LineEntry
    requires InRange(origins, |lines|) && k < |origins| <= |hashes|
  {
    LineEntry(hashes[k], AnchorAt(origins, AnchorsIn(lines), used, k))
  }

  /** The anchored draft: carried lines keep their anchors, inserted lines mint,
      and every hash is new. */
  ghost function DraftEntries(origins: seq<LineOrigin>, lines: seq<LineEntry>, hashes: seq<Hash>, used: set<Anchor>,
                              n: nat): (entries: seq<LineEntry>)
    requires InRange(origins, |lines|) && n <= |origins| <= |hashes|
    ensures |entries| == n
    ensures forall k :: 0 <= k < n ==> entries[k] == DraftEntry(origins, lines, hashes, used, k)
  {
    seq(n, k requires 0 <= k < n && InRange(origins, |lines|) => DraftEntry(origins, lines, hashes, used, k))
  }

  function Draft(working: WorkingFile, op: LineOp): seq<Cell> {
    Flatten(Run(Start(working.lines), [op]))
  }

  lemma DraftInRange(working: WorkingFile, op: LineOp)
    ensures InOrder(Origins(Draft(working, op)), |working.lines|)
  {
    OutputLayout(working.lines, [op]);
  }

  /** The end of every successful edit: store the new state, cache the file. */
  ghost function Saved(s: SessionState, path: Path, cached: FileAnchorState, stored: FileAnchorState,
                       lines: seq<string>, tombstones: seq<Anchor>): SessionState
  {
    SessionState(Committed(s.store, path, stored, tombstones),
                 s.open[path := WorkingFile(path, cached, lines)])
  }

  /** The anchors of the lines that a line edit removes. */
  function Deleted(working: WorkingFile, op: LineOp): seq<Anchor>
    requires op.Replaced? ==> op.from <= op.to < |working.state.lines|
  {
    if op.Replaced? then AnchorsIn(working.state.lines[op.from..op.to + 1]) else []
  }

  predicate Targets(working: WorkingFile, op: LineOp) {
    |working.state.lines| == |working.lines| && Enabled(Start(working.lines), op)
  }

  ghost function LineEdited(t: Tools, s: SessionState, working: WorkingFile, op: LineOp, w: WriteResult): SessionState
    requires t.Valid() && w.Written? && Targets(working, op)
  {
    DraftInRange(working, op);
    var h := t.lib.hasher;
    var cells := Draft(working, op);
    var origins, draft, used := Origins(cells), Texts(cells), s.store.Used(working.path);
    var entries := DraftEntries(origins, working.state.lines, h.HashesOf(draft), used, |origins|);
    var used' := UsedAfter(used, NewLines(origins, |origins|));
    var state := FileAnchorState(working.path, w.mtimeNs, w.size, h.digest(h.HashesOf(w.lines)),
                                 ReconciledLines(h, t.lib.diff, entries, w.lines, used', None));
    Saved(s, working.path, state, state, w.lines,
          Deleted(working, op) + Tombstones(h, t.lib.diff, entries, w.lines, None))
  }

  // ----- Whole-file edits -----

  /** A rewrite of a cached file. The cached state keeps the metadata it had; only
      the stored one takes the new metadata. */
  ghost function Rewritten(t: Tools, s: SessionState, working: WorkingFile, hints: Option<seq<Anchor>>,
                           w: WriteResult): SessionState
    requires t.Valid() && w.Written?
  {
    var used := s.store.Used(working.path);
    var state := ReconciledState(t.lib.hasher, t.lib.diff, working.state, w.lines, used, hints);
    Saved(s, working.path, state, state.(mtimeNs := w.mtimeNs, size := w.size), w.lines,
          Tombstones(t.lib.hasher, t.lib.diff, working.state.lines, w.lines, hints))
  }

  ghost function ReadIn(t: Tools, s: SessionState, r: Reading): SessionState
    requires t.Valid()
  {
    var (store, working) := Opened(t.lib, s.store, r);
    SessionState(store, s.open[r.path := working])
  }

  predicate Guarded(t: Tools, text: string, bypass: bool) {
    !bypass && t.detectPasteback(text).Some?
  }

  /** The line edit that a structured edit asks for, if its anchors resolve and its
      range runs forwards. */
  ghost function LineTarget(t: Tools, working: WorkingFile, edit: LlmEdit): (op: Option<LineOp>)
    requires t.Valid() && (edit.ReplaceLines? || edit.InsertLinesAfter? || edit.InsertLinesBefore?)
    ensures op.Some? ==> Targets(working, op.value)
  {
    var from := Resolution(t, edit.anchor, working);
    var to := if edit.ReplaceLines? then Resolution(t, edit.endAnchor, working) else from;
    if from.None? || to.None? || to.value < from.value then None
    else
      var lines := SplitLines(edit.text);
      match edit
      case ReplaceLines(_, _, _, _, _) => Some(Replaced(from.value, to.value, lines))
      case InsertLinesAfter(_, _, _, _) => Some(After(from.value, lines))
      case _ => Some(Before(from.value, lines))
  }

  ghost function LineEditOutcome(t: Tools, s: SessionState, working: WorkingFile, op: LineOp, writer: Writer)
      : (r: (SessionState, bool))
    requires t.Valid() && Targets(working, op)
  {
    var w := writer(working.path, Texts(Draft(working, op)), OverwriteExisting);
    if w.Written? then (LineEdited(t, s, working, op, w), true) else (s, false)
  }

  ghost function RewriteOutcome(t: Tools, s: SessionState, working: WorkingFile, text: string,
                                hints: Option<seq<Anchor>>, writer: Writer): (r: (SessionState, bool))
    requires t.Valid()
  {
    var w := writer(working.path, SplitLines(text), OverwriteExisting);
    if w.Written? then (Rewritten(t, s, working, hints, w), true) else (s, false)
  }

  /** One edit: either it is rejected or its write fails, and then nothing changes,
      or it is applied. */
  ghost function Edited(t: Tools, s: SessionState, edit: LlmEdit, writer: Writer): (r: (SessionState, bool))
    requires t.Valid()
    ensures !r.1 ==> r.0 == s
  {
    match edit
    case New(path, text) =>
      var w := writer(path, SplitLines(text), CreateNew);
      if w.Written? then (ReadIn(t, s, Reading(path, w.lines, w.mtimeNs, w.size)), true) else (s, false)
    case Overwrite(path, text, bypass) =>
      if Guarded(t, text, bypass) || path !in s.open then (s, false)
      else RewriteOutcome(t, s, s.open[path], text, Some(AnchorsIn(s.open[path].state.lines)), writer)
    case ReplaceAll(path, find, replacement, count) =>
      if path !in s.open then (s, false)
      else
        var matched := t.regex(find, replacement, Join(s.open[path].lines, '\n'));
        if matched.BadPattern? || (count.Some? && matched.count > count.value) then (s, false)
        else if matched.replaced.None? then (s, true)
        else RewriteOutcome(t, s, s.open[path], matched.replaced.value, None, writer)
    case _ =>
      if Guarded(t, edit.text, edit.bypassAnchorGuard) || edit.path !in s.open then (s, false)
      else
        var working := s.open[edit.path];
        var op := LineTarget(t, working, edit);
        if op.None? then (s, false) else LineEditOutcome(t, s, working, op.value, writer)
  }

  // ----- Runs -----

  datatype Command = Read(reading: Reading) | Edit(edit: LlmEdit, writer: Writer) | CommitEdits

  ghost function Step(t: Tools, s: SessionState, c: Command): SessionState
    requires t.Valid()
  {
    match c
    case Read(r) => ReadIn(t, s, r)
    case Edit(edit, writer) => Edited(t, s, edit, writer).0
    case CommitEdits => s.(store := s.store.(tombstones := map[]))
  }
}
