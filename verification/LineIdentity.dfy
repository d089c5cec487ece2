/** Line identity across an edit that no formatter disturbs, and from a rendered
    line back to the line itself. */
module LineIdentity {
  import opened Wrappers
  import opened Separators
  import opened Words
  import opened Anchors
  import opened Pools
  import opened FileStates
  import opened GapModel
  import opened EditOps
  import opened EditLaws
  import opened Carrying
  import opened ReconcileLaws
  import opened Engine
  import opened SessionModel
  import opened SessionLaws

  /** Where an untouched line ends up. */
  function NewPosition(op: LineOp, i: nat): int {
    match op
    case After(pin, lines) => if i > pin then i + |lines| else i
    case Before(pin, lines) => if i >= pin then i + |lines| else i
    case Replaced(from, to, lines) => if i > to then i + |lines| - (to - from + 1) else i
  }

  lemma StartShift(original: seq<string>, op: LineOp, i: nat)
    requires Enabled(Start(original), op) && i < |original|
    ensures CellsBefore(Start(original), i) + Shift(Start(original), op, i) == NewPosition(op, i)
  {
    StartCells(original, i);
    if op.Replaced? {
      StartCells(original, op.from);
      StartCells(original, op.to);
    }
  }

  lemma RunOne(g: seq<Slot>, op: LineOp)
    ensures Run(g, [op]) == Apply(g, op)
  {
    assert [op][1..] == [];
  }

  lemma UntouchedPosition(original: seq<string>, op: LineOp, i: nat)
    requires Enabled(Start(original), op) && i < |original| && !Covers(op, i)
    ensures var cells := Flatten(Run(Start(original), [op]));
      0 <= NewPosition(op, i) < |cells| && cells[NewPosition(op, i)] == Cell(original[i], Carried(i))
  {
    var start := Start(original);
    var g := Apply(start, op);
    RunOne(start, op);
    assert g[i].body == start[i].body == [Cell(original[i], Carried(i))];
    LinesShift(start, op, i);
    StartShift(original, op, i);
    LiveCell(g, i);
  }

  lemma UntouchedSource(working: WorkingFile, op: LineOp, k: nat)
    requires Targets(working, op) && k < |Draft(working, op)| && Origins(Draft(working, op))[k].Carried?
    ensures var i := Origins(Draft(working, op))[k].index;
      i < |working.lines| && !Covers(op, i) && k == NewPosition(op, i)
  {
    var i := Origins(Draft(working, op))[k].index;
    DraftInRange(working, op);
    DraftCarries(working, op, i);
    UntouchedPosition(working.lines, op, i);
    assert Origins(Draft(working, op))[NewPosition(op, i)] == Carried(i);
  }

  /** An undisturbed draft is stored as it is. */
  lemma StoredDraft(t: Tools, s: SessionState, path: Path, op: LineOp, w: WriteResult)
    requires t.Valid() && Sound(t, s) && path in s.open && Targets(s.open[path], op)
    requires w.Written? && w.lines == Texts(Draft(s.open[path], op))
    ensures var s' := LineEdited(t, s, s.open[path], op, w);
      && s'.store.LinesOf(path) == DraftOf(t, s, s.open[path], op)
      && s'.store.TombstonesOf(path) == s.store.TombstonesOf(path) + Elements(Deleted(s.open[path], op))
  {
    var h, working := t.lib.hasher, s.open[path];
    var draft, deleted := DraftOf(t, s, working, op), Deleted(working, op);
    assert SoundFile(h, s.store, path, working);
    assert HashesIn(draft) == h.HashesOf(w.lines);
    NothingChanged(h, t.lib.diff, draft, w.lines, UsedByDraft(s, working, op));
    assert deleted + [] == deleted;
    var state := FileAnchorState(path, w.mtimeNs, w.size, h.digest(h.HashesOf(w.lines)), draft);
    assert LineEdited(t, s, working, op, w) == Saved(s, path, state, state, w.lines, deleted);
    CommitEffect(s.store, path, state, deleted, path);
  }

  /** Every untouched line has its anchor at its new position, and no other line has
      an anchor that was in use. */
  ghost predicate KeepsUntouched(before: seq<LineEntry>, after: seq<LineEntry>, used: set<Anchor>, op: LineOp) {
    && (forall i :: 0 <= i < |before| && !Covers(op, i) ==>
          0 <= NewPosition(op, i) < |after| && after[NewPosition(op, i)].anchor == before[i].anchor)
    && (forall k :: 0 <= k < |after| && after[k].anchor in used ==>
          exists i :: 0 <= i < |before| && !Covers(op, i) && k == NewPosition(op, i))
  }

  lemma DraftKeepsUntouched(t: Tools, s: SessionState, path: Path, op: LineOp)
    requires t.Valid() && Sound(t, s) && path in s.open && Targets(s.open[path], op)
    ensures KeepsUntouched(s.open[path].state.lines, DraftOf(t, s, s.open[path], op), s.store.Used(path), op)
  {
    var working, used := s.open[path], s.store.Used(path);
    var origins, draft := Origins(Draft(working, op)), DraftOf(t, s, working, op);
    var before, prev := working.state.lines, AnchorsIn(working.state.lines);
    assert SoundFile(t.lib.hasher, s.store, path, working);
    DraftInRange(working, op);
    forall i | 0 <= i < |before| && !Covers(op, i)
      ensures 0 <= NewPosition(op, i) < |draft| && draft[NewPosition(op, i)].anchor == before[i].anchor
    {
      UntouchedPosition(working.lines, op, i);
      assert origins[NewPosition(op, i)] == Carried(i);
    }
    forall k | 0 <= k < |draft| && draft[k].anchor in used
      ensures exists i :: 0 <= i < |before| && !Covers(op, i) && k == NewPosition(op, i)
    {
      CarriedOrMinted(origins, prev, used, k);
      UntouchedSource(working, op, k);
    }
  }

  /** When the writer returns the draft unchanged, a line edit moves every untouched
      line with its anchor to its new position, whatever lines repeat; every other
      line has an anchor that was not in use; and exactly the anchors of the replaced
      range become tombstones. */
  lemma UntouchedLinesKeepAnchors(t: Tools, s: SessionState, path: Path, op: LineOp, w: WriteResult)
    requires t.Valid() && Sound(t, s) && path in s.open && Targets(s.open[path], op)
    requires w.Written? && w.lines == Texts(Draft(s.open[path], op))
    ensures var s' := LineEdited(t, s, s.open[path], op, w);
      && KeepsUntouched(s.open[path].state.lines, s'.store.LinesOf(path), s.store.Used(path), op)
      && s'.store.TombstonesOf(path) == s.store.TombstonesOf(path) + Elements(Deleted(s.open[path], op))
  {
    DraftKeepsUntouched(t, s, path, op);
    StoredDraft(t, s, path, op, w);
  }

  // ----- Rendered lines -----

  lemma {:induction false} JoinAvoids(parts: seq<string>, sep: char, c: char)
    requires c != sep && forall i :: 0 <= i < |parts| ==> c !in parts[i]
    ensures c !in Join(parts, sep)
  {
    if |parts| > 1 {
      JoinAvoids(parts[1..], sep, c);
    }
  }

  lemma WordIsPlain(words: seq<string>, anchor: Anchor)
    requires IsDictionary(words)
    ensures ANCHOR_SEPARATOR !in Display(words, anchor) && '\n' !in Display(words, anchor)
  {
    var parts := WordsOf(words, anchor);
    assert forall k :: 0 <= k < |parts| ==> IsWord(parts[k]);
    JoinAvoids(parts, '-', ANCHOR_SEPARATOR);
    JoinAvoids(parts, '-', '\n');
  }

  lemma FoundWhereItIs(state: FileAnchorState, i: nat)
    requires i < |state.lines| && Distinct(AnchorsIn(state.lines))
    ensures state.FindAnchor(state.lines[i].anchor) == Some(i)
  {
    var found, anchors := state.FindAnchor(state.lines[i].anchor), AnchorsIn(state.lines);
    assert anchors[i] == state.lines[i].anchor;
    assert anchors[found.value] == anchors[i];
  }

  /** A line's word, the separator, and the line's content up to white space around it. */
  ghost predicate Names(t: Tools, field: string, anchor: Anchor, line: string, content: string)
    requires t.Valid()
  {
    && field == Display(t.words, anchor) + [ANCHOR_SEPARATOR] + content
    && t.lib.hasher.trim(content) == t.lib.hasher.trim(line)
  }

  /** A field names a line exactly if it is one line of text that does so. */
  lemma ResolutionIff(t: Tools, working: WorkingFile, field: string, i: nat)
    requires t.Valid() && |working.state.lines| == |working.lines| && i < |working.lines|
    requires Distinct(AnchorsIn(working.state.lines))
    ensures Resolution(t, field, working) == Some(i) <==>
      && '\n' !in field
      && exists content :: Names(t, field, working.state.lines[i].anchor, working.lines[i], content)
  {
    var anchor := working.state.lines[i].anchor;
    FoundWhereItIs(working.state, i);
    WordIsPlain(t.words, anchor);
    if content :| Names(t, field, anchor, working.lines[i], content) {
      SplitOnceAt(Display(t.words, anchor), ANCHOR_SEPARATOR, content);
      assert '\n' !in field ==> Resolves(t, field, working, i);
    }
    if Resolution(t, field, working) == Some(i) {
      assert Resolves(t, field, working, i);
      assert Names(t, field, anchor, working.lines[i], SplitOnce(field, ANCHOR_SEPARATOR).value.1);
    }
  }

  /** Passing a rendered line back names exactly that line, provided its content is
      a single line of text. */
  lemma RenderedLineResolves(t: Tools, working: WorkingFile, i: nat)
    requires t.Valid() && |working.state.lines| == |working.lines| && i < |working.lines|
    requires Distinct(AnchorsIn(working.state.lines))
    ensures var field := RenderedLine(t.words, working.state.lines[i].anchor, working.lines[i]);
      Resolution(t, field, working) == if '\n' in working.lines[i] then None else Some(i)
  {
    var anchor := working.state.lines[i].anchor;
    var field := RenderedLine(t.words, anchor, working.lines[i]);
    WordIsPlain(t.words, anchor);
    assert Names(t, field, anchor, working.lines[i], working.lines[i]);
    ResolutionIff(t, working, field, i);
  }
}
