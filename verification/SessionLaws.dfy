/** What holds over every run of one editing session. */
module SessionLaws {
  import opened Wrappers
  import opened Separators
  import opened Anchors
  import opened Pools
  import opened Hashing
  import opened FileStates
  import opened GapModel
  import opened EditLaws
  import opened Carrying
  import opened DiffScripts
  import opened Reconciliation
  import opened ReconcileLaws
  import opened AnchorStores
  import opened Engine
  import opened SessionModel

  // ----- Invariants -----

  ghost predicate SoundFile(h: Hasher, st: StoreState, path: Path, working: WorkingFile) {
    && path in st.meta
    && working.path == path
    && working.state.path == path
    && working.state.lines == st.LinesOf(path)
    && HashesIn(working.state.lines) == h.HashesOf(working.lines)
  }

  /** The store is sound, and every cached file has the store's anchored lines, one
      for each of its lines and with that line's hash. */
  ghost predicate Sound(t: Tools, s: SessionState) {
    && SoundStore(t.lib.hasher, s.store)
    && forall path :: path in s.open ==> SoundFile(t.lib.hasher, s.store, path, s.open[path])
  }

  /** Between two store states the used anchors only grow, and a line's new anchor
      was not in use. */
  ghost predicate Progress(st: StoreState, st': StoreState) {
    forall path :: ProgressAt(st, st', path)
  }

  ghost predicate ProgressAt(st: StoreState, st': StoreState, path: Path) {
    && st.Used(path) <= st'.Used(path)
    && Elements(AnchorsIn(st'.LinesOf(path))) * st.Used(path) <= Elements(AnchorsIn(st.LinesOf(path)))
  }

  // ----- Committing -----

  /** What a commit must be given to keep the store sound. */
  ghost predicate Sane(h: Hasher, st: StoreState, path: Path, state: FileAnchorState, tombstones: seq<Anchor>) {
    var before, after := Elements(AnchorsIn(st.LinesOf(path))), Elements(AnchorsIn(state.lines));
    && Distinct(AnchorsIn(state.lines))
    && state.contentDigest == h.digest(HashesIn(state.lines))
    && before <= after + Elements(tombstones)
    && after * st.Used(path) <= before
  }

  lemma CommitEffect(st: StoreState, path: Path, state: FileAnchorState, tombstones: seq<Anchor>, p: Path)
    ensures var st' := Committed(st, path, state, tombstones);
      if p == path then
        && st'.LinesOf(p) == state.lines
        && st'.TombstonesOf(p) == st.TombstonesOf(p) + Elements(tombstones)
        && p in st'.meta && st'.meta[p] == Meta(state.mtimeNs, state.size, state.contentDigest)
        && (p in st'.lines <==> state.lines != [])
      else
        && st'.LinesOf(p) == st.LinesOf(p)
        && st'.TombstonesOf(p) == st.TombstonesOf(p)
        && (p in st'.meta <==> p in st.meta) && (p in st.meta ==> st'.meta[p] == st.meta[p])
        && (p in st'.lines <==> p in st.lines)
  {
  }

  lemma CommitSound(h: Hasher, st: StoreState, path: Path, state: FileAnchorState, tombstones: seq<Anchor>)
    requires SoundStore(h, st) && Sane(h, st, path, state, tombstones)
    ensures SoundStore(h, Committed(st, path, state, tombstones))
    ensures Progress(st, Committed(st, path, state, tombstones))
  {
    var st' := Committed(st, path, state, tombstones);
    forall p ensures ProgressAt(st, st', p) {
      CommitEffect(st, path, state, tombstones, p);
    }
    forall p ensures p in st'.lines ==> p in st'.meta && st'.LinesOf(p) != [] {
      CommitEffect(st, path, state, tombstones, p);
    }
    forall p | p in st'.meta
      ensures Distinct(AnchorsIn(st'.LinesOf(p))) && st'.meta[p].contentDigest == h.digest(HashesIn(st'.LinesOf(p)))
    {
      CommitEffect(st, path, state, tombstones, p);
    }
  }

  /** Reconciled lines can be committed. */
  lemma ReconciledSane(h: Hasher, diff: LineDiff, st: StoreState, path: Path, onDisk: seq<string>,
                       hints: Option<seq<Anchor>>, state: FileAnchorState)
    requires Lawful(diff) && SoundStore(h, st) && path in st.meta
    requires PoisonFree(h, st.LinesOf(path), onDisk, hints)
    requires state.lines == ReconciledLines(h, diff, st.LinesOf(path), onDisk, st.Used(path), hints)
    requires state.contentDigest == h.digest(h.HashesOf(onDisk))
    ensures HashesIn(state.lines) == h.HashesOf(onDisk)
    ensures Sane(h, st, path, state, Tombstones(h, diff, st.LinesOf(path), onDisk, hints))
  {
    var lines, used := st.LinesOf(path), st.Used(path);
    AnchorsConserved(h, diff, lines, onDisk, used, hints);
    HashesAndHints(h, diff, lines, onDisk, used, hints);
    forall a | a in AnchorsIn(state.lines) && a in used ensures a in AnchorsIn(lines) {
      var k :| 0 <= k < |state.lines| && AnchorsIn(state.lines)[k] == a;
      assert state.lines[k].anchor == a;
      var i := LineOrigins(h, diff, lines, onDisk, hints)[k].index;
      assert AnchorsIn(lines)[i] == a;
    }
  }

  lemma ColdSane(h: Hasher, st: StoreState, r: Reading)
    requires SoundStore(h, st) && r.path !in st.meta
    ensures var state := ColdState(h, r, st.Used(r.path));
      HashesIn(state.lines) == h.HashesOf(r.lines) && Sane(h, st, r.path, state, [])
  {
    var used := st.Used(r.path);
    var state := ColdState(h, r, used);
    assert st.LinesOf(r.path) == [];
    assert HashesIn(state.lines) == h.HashesOf(r.lines);
    forall i, j | 0 <= i < j < |state.lines| ensures AnchorsIn(state.lines)[i] != AnchorsIn(state.lines)[j] {
      MintsAreFresh(used, i, j);
    }
    forall a | a in AnchorsIn(state.lines) ensures a !in used {
      var k :| 0 <= k < |state.lines| && AnchorsIn(state.lines)[k] == a;
      MintsAreFresh(used, k, k);
    }
  }

  // ----- Opening, rewriting -----

  lemma OpenedSound(t: Tools, st: StoreState, r: Reading)
    requires t.Valid() && SoundStore(t.lib.hasher, st) && Faithful(t.lib.hasher, st, r)
    ensures var (st', working) := Opened(t.lib, st, r);
      SoundStore(t.lib.hasher, st') && Progress(st, st') && SoundFile(t.lib.hasher, st', r.path, working)
      && forall p :: p != r.path ==> st'.LinesOf(p) == st.LinesOf(p) && (p in st.meta ==> p in st'.meta)
  {
    var h, loaded := t.lib.hasher, st.Loaded(r.path);
    LadderAgrees(t.lib, st, r);
    if loaded.Some? {
      var c := loaded.value;
      var state := DriftedState(t.lib, c, r, st.Used(r.path));
      var tombstones := Tombstones(h, t.lib.diff, c.lines, r.lines, None);
      ReconciledSane(h, t.lib.diff, st, r.path, r.lines, None, state);
      CommitSound(h, st, r.path, state, tombstones);
      forall p { CommitEffect(st, r.path, state, tombstones, p); }
    } else {
      var state := ColdState(h, r, st.Used(r.path));
      ColdSane(h, st, r);
      CommitSound(h, st, r.path, state, []);
      forall p { CommitEffect(st, r.path, state, [], p); }
    }
  }

  /** Replacing one cached file keeps the session sound. */
  lemma CacheSound(t: Tools, s: SessionState, path: Path, store: StoreState, working: WorkingFile)
    requires Sound(t, s) && SoundStore(t.lib.hasher, store) && SoundFile(t.lib.hasher, store, path, working)
    requires forall p :: p != path ==> store.LinesOf(p) == s.store.LinesOf(p) && (p in s.store.meta ==> p in store.meta)
    ensures Sound(t, SessionState(store, s.open[path := working]))
  {
    var open := s.open[path := working];
    forall p | p in open ensures SoundFile(t.lib.hasher, store, p, open[p]) {
      if p != path { assert SoundFile(t.lib.hasher, s.store, p, s.open[p]); }
    }
  }

  lemma ReadInSound(t: Tools, s: SessionState, r: Reading)
    requires t.Valid() && Sound(t, s) && Faithful(t.lib.hasher, s.store, r)
    ensures Sound(t, ReadIn(t, s, r)) && Progress(s.store, ReadIn(t, s, r).store)
  {
    OpenedSound(t, s.store, r);
    var (store, working) := Opened(t.lib, s.store, r);
    CacheSound(t, s, r.path, store, working);
  }

  /** Saving a sane state for a file and caching it with the same lines. */
  lemma SavedSound(t: Tools, s: SessionState, path: Path, cached: FileAnchorState, stored: FileAnchorState,
                   lines: seq<string>, tombstones: seq<Anchor>)
    requires Sound(t, s) && Sane(t.lib.hasher, s.store, path, stored, tombstones)
    requires cached.path == path && cached.lines == stored.lines
    requires HashesIn(cached.lines) == t.lib.hasher.HashesOf(lines)
    ensures var s' := Saved(s, path, cached, stored, lines, tombstones);
      Sound(t, s') && Progress(s.store, s'.store)
  {
    CommitSound(t.lib.hasher, s.store, path, stored, tombstones);
    var store := Committed(s.store, path, stored, tombstones);
    forall p { CommitEffect(s.store, path, stored, tombstones, p); }
    CacheSound(t, s, path, store, WorkingFile(path, cached, lines));
  }

  lemma RewrittenSound(t: Tools, s: SessionState, path: Path, hints: Option<seq<Anchor>>, w: WriteResult)
    requires t.Valid() && Sound(t, s) && path in s.open && w.Written?
    requires PoisonFree(t.lib.hasher, s.open[path].state.lines, w.lines, hints)
    ensures var s' := Rewritten(t, s, s.open[path], hints, w);
      Sound(t, s') && Progress(s.store, s'.store)
  {
    var h, working := t.lib.hasher, s.open[path];
    assert SoundFile(h, s.store, path, working);
    var state := ReconciledState(h, t.lib.diff, working.state, w.lines, s.store.Used(path), hints);
    var stored := state.(mtimeNs := w.mtimeNs, size := w.size);
    var tombstones := Tombstones(h, t.lib.diff, working.state.lines, w.lines, hints);
    ReconciledSane(h, t.lib.diff, s.store, path, w.lines, hints, stored);
    SavedSound(t, s, path, state, stored, w.lines, tombstones);
  }

  // ----- Line edits -----

  /** The draft carries exactly the lines outside the replaced range. */
  lemma DraftCarries(working: WorkingFile, op: LineOp, i: nat)
    requires Targets(working, op) && i < |working.lines|
    ensures Carries(Origins(Draft(working, op)), i) <==> !Covers(op, i)
  {
    var start, cells := Start(working.lines), Draft(working, op);
    var g := Run(start, [op]);
    OutputLayout(working.lines, [op]);
    Survivors(start, [op], i);
    assert [op][0] == op;
    if Live(g, i) {
      assert Origins(cells)[CellsBefore(g, i)] == Carried(i);
    }
    if Carries(Origins(cells), i) {
      var k :| 0 <= k < |cells| && Origins(cells)[k] == Carried(i);
      assert CarriedAt(g, working.lines, k);
    }
  }

  ghost function DraftOf(t: Tools, s: SessionState, working: WorkingFile, op: LineOp): (entries: seq<LineEntry>)
    requires t.Valid() && Targets(working, op)
    ensures |entries| == |Draft(working, op)|
  {
    DraftInRange(working, op);
    var origins := Origins(Draft(working, op));
    DraftEntries(origins, working.state.lines, t.lib.hasher.HashesOf(Texts(Draft(working, op))),
                 s.store.Used(working.path), |origins|)
  }

  ghost function UsedByDraft(s: SessionState, working: WorkingFile, op: LineOp): set<Anchor> {
    UsedAfter(s.store.Used(working.path), NewLines(Origins(Draft(working, op)), |Draft(working, op)|))
  }

  lemma KeptOrDeleted(s: SessionState, working: WorkingFile, op: LineOp, i: nat)
    requires Targets(working, op) && i < |working.lines|
    requires InRange(Origins(Draft(working, op)), |working.state.lines|)
    ensures var prev := AnchorsIn(working.state.lines);
      || prev[i] in NewAnchors(Origins(Draft(working, op)), prev, s.store.Used(working.path))
      || prev[i] in Deleted(working, op)
  {
    var prev, origins := AnchorsIn(working.state.lines), Origins(Draft(working, op));
    DraftCarries(working, op, i);
    if Covers(op, i) {
      assert Deleted(working, op)[i - op.from] == prev[i];
    } else {
      var k :| 0 <= k < |origins| && origins[k] == Carried(i);
      assert NewAnchors(origins, prev, s.store.Used(working.path))[k] == prev[i];
    }
  }

  /** The anchored draft: distinct anchors, old ones only on carried lines, and
      every old anchor either kept or deleted. */
  lemma DraftSane(t: Tools, s: SessionState, path: Path, op: LineOp)
    requires t.Valid() && Sound(t, s) && path in s.open && Targets(s.open[path], op)
    ensures var working := s.open[path];
      var prev, draft := Elements(AnchorsIn(working.state.lines)), AnchorsIn(DraftOf(t, s, working, op));
      && Distinct(draft)
      && Elements(draft) <= UsedByDraft(s, working, op)
      && Elements(draft) * s.store.Used(path) <= prev <= Elements(draft) + Elements(Deleted(working, op))
  {
    var working, used := s.open[path], s.store.Used(path);
    assert SoundFile(t.lib.hasher, s.store, path, working);
    var prev, origins := AnchorsIn(working.state.lines), Origins(Draft(working, op));
    DraftInRange(working, op);
    NewAnchorsDistinct(origins, prev, used);
    var draft := AnchorsIn(DraftOf(t, s, working, op));
    assert draft == NewAnchors(origins, prev, used);
    forall k | 0 <= k < |draft|
      ensures draft[k] in UsedByDraft(s, working, op)
      ensures draft[k] in used ==> draft[k] in Elements(prev)
    {
      CarriedOrMinted(origins, prev, used, k);
    }
    forall i | 0 <= i < |prev| ensures prev[i] in draft || prev[i] in Deleted(working, op) {
      KeptOrDeleted(s, working, op, i);
    }
  }

  /** Reconciling a sane draft with what the formatter left gives sane lines. */
  lemma ReconciledDraftSane(h: Hasher, diff: LineDiff, st: StoreState, path: Path, draft: seq<LineEntry>,
                            used': set<Anchor>, deleted: seq<Anchor>, onDisk: seq<string>, state: FileAnchorState)
    requires Lawful(diff) && Distinct(AnchorsIn(draft)) && Elements(AnchorsIn(draft)) + st.Used(path) <= used'
    requires var prev := Elements(AnchorsIn(st.LinesOf(path)));
      Elements(AnchorsIn(draft)) * st.Used(path) <= prev <= Elements(AnchorsIn(draft)) + Elements(deleted)
    requires state.lines == ReconciledLines(h, diff, draft, onDisk, used', None)
    requires state.contentDigest == h.digest(h.HashesOf(onDisk))
    ensures HashesIn(state.lines) == h.HashesOf(onDisk)
    ensures Sane(h, st, path, state, deleted + Tombstones(h, diff, draft, onDisk, None))
  {
    AnchorsConserved(h, diff, draft, onDisk, used', None);
    HashesAndHints(h, diff, draft, onDisk, used', None);
    var tombstones := Tombstones(h, diff, draft, onDisk, None);
    assert Elements(deleted + tombstones) == Elements(deleted) + Elements(tombstones);
    forall a | a in AnchorsIn(state.lines) && a in st.Used(path)
      ensures a in Elements(AnchorsIn(draft))
    {
      var k :| 0 <= k < |state.lines| && AnchorsIn(state.lines)[k] == a;
      assert state.lines[k].anchor == a;
      var i := LineOrigins(h, diff, draft, onDisk, None)[k].index;
      assert AnchorsIn(draft)[i] == a;
    }
  }

  lemma LineEditedSound(t: Tools, s: SessionState, path: Path, op: LineOp, w: WriteResult)
    requires t.Valid() && Sound(t, s) && path in s.open && Targets(s.open[path], op) && w.Written?
    ensures var s' := LineEdited(t, s, s.open[path], op, w);
      Sound(t, s') && Progress(s.store, s'.store)
  {
    var h, working := t.lib.hasher, s.open[path];
    assert SoundFile(h, s.store, path, working);
    var draft := DraftOf(t, s, working, op);
    var state := FileAnchorState(path, w.mtimeNs, w.size, h.digest(h.HashesOf(w.lines)),
                                 ReconciledLines(h, t.lib.diff, draft, w.lines, UsedByDraft(s, working, op), None));
    DraftSane(t, s, path, op);
    MintsAreFresh(s.store.Used(path), 0, NewLines(Origins(Draft(working, op)), |Draft(working, op)|));
    ReconciledDraftSane(h, t.lib.diff, s.store, path, draft, UsedByDraft(s, working, op), Deleted(working, op),
                        w.lines, state);
    SavedSound(t, s, path, state, state, w.lines,
               Deleted(working, op) + Tombstones(h, t.lib.diff, draft, w.lines, None));
  }

  // ----- Steps and runs -----

  /** The hypotheses about the world that a step relies on: metadata and digests
      can be believed, and no written line hashes to a poison value. */
  ghost predicate FaithfulStep(t: Tools, s: SessionState, c: Command)
    requires t.Valid()
  {
    match c
    case Read(r) => Faithful(t.lib.hasher, s.store, r)
    case Edit(New(path, text), writer) =>
      var w := writer(path, SplitLines(text), CreateNew);
      w.Written? ==> Faithful(t.lib.hasher, s.store, Reading(path, w.lines, w.mtimeNs, w.size))
    case Edit(Overwrite(path, text, _), writer) =>
      path in s.open ==>
        var w := writer(s.open[path].path, SplitLines(text), OverwriteExisting);
        var lines := s.open[path].state.lines;
        w.Written? ==> PoisonFree(t.lib.hasher, lines, w.lines, Some(AnchorsIn(lines)))
    case _ => true
  }

  lemma RefusedSound(t: Tools, s: SessionState)
    ensures Progress(s.store, s.store)
  {
  }

  /** Every step keeps the session sound; every step but a commit only adds used
      anchors and gives a line no anchor that was in use elsewhere. */
  lemma StepSound(t: Tools, s: SessionState, c: Command)
    requires t.Valid() && Sound(t, s) && FaithfulStep(t, s, c)
    ensures Sound(t, Step(t, s, c))
    ensures !c.CommitEdits? ==> Progress(s.store, Step(t, s, c).store)
  {
    RefusedSound(t, s);
    match c
    case Read(r) => ReadInSound(t, s, r);
    case CommitEdits =>
      var s' := Step(t, s, c);
      assert forall path :: s'.store.LinesOf(path) == s.store.LinesOf(path);
      forall path | path in s'.open ensures SoundFile(t.lib.hasher, s'.store, path, s'.open[path]) {
        assert SoundFile(t.lib.hasher, s.store, path, s.open[path]);
      }
    case Edit(edit, writer) => EditSound(t, s, edit, writer);
  }

  lemma EditSound(t: Tools, s: SessionState, edit: LlmEdit, writer: Writer)
    requires t.Valid() && Sound(t, s) && FaithfulStep(t, s, Edit(edit, writer))
    ensures Sound(t, Edited(t, s, edit, writer).0)
    ensures Progress(s.store, Edited(t, s, edit, writer).0.store)
  {
    RefusedSound(t, s);
    if edit.New? {
      NewSound(t, s, edit, writer);
    } else if edit.path in s.open {
      if edit.Overwrite? {
        OverwriteSound(t, s, edit, writer);
      } else if edit.ReplaceAll? {
        ReplaceAllSound(t, s, edit, writer);
      } else {
        AnchoredSound(t, s, edit, writer);
      }
    }
  }

  ghost predicate Kept(t: Tools, s: SessionState, s': SessionState) {
    Sound(t, s') && Progress(s.store, s'.store)
  }

  lemma NewSound(t: Tools, s: SessionState, edit: LlmEdit, writer: Writer)
    requires t.Valid() && Sound(t, s) && edit.New? && FaithfulStep(t, s, Edit(edit, writer))
    ensures Kept(t, s, Edited(t, s, edit, writer).0)
  {
    RefusedSound(t, s);
    var w := writer(edit.path, SplitLines(edit.text), CreateNew);
    if w.Written? { ReadInSound(t, s, Reading(edit.path, w.lines, w.mtimeNs, w.size)); }
  }

  lemma OverwriteSound(t: Tools, s: SessionState, edit: LlmEdit, writer: Writer)
    requires t.Valid() && Sound(t, s) && edit.Overwrite? && edit.path in s.open
    requires FaithfulStep(t, s, Edit(edit, writer))
    ensures Kept(t, s, Edited(t, s, edit, writer).0)
  {
    RefusedSound(t, s);
    RewriteSound(t, s, edit.path, edit.text, Some(AnchorsIn(s.open[edit.path].state.lines)), writer);
  }

  lemma ReplaceAllSound(t: Tools, s: SessionState, edit: LlmEdit, writer: Writer)
    requires t.Valid() && Sound(t, s) && edit.ReplaceAll? && edit.path in s.open
    ensures Kept(t, s, Edited(t, s, edit, writer).0)
  {
    RefusedSound(t, s);
    var matched := t.regex(edit.find, edit.replacement, Join(s.open[edit.path].lines, '\n'));
    if matched.Matched? && matched.replaced.Some? {
      RewriteSound(t, s, edit.path, matched.replaced.value, None, writer);
    }
  }

  lemma AnchoredSound(t: Tools, s: SessionState, edit: LlmEdit, writer: Writer)
    requires t.Valid() && Sound(t, s) && edit.path in s.open
    requires edit.ReplaceLines? || edit.InsertLinesAfter? || edit.InsertLinesBefore?
    ensures Kept(t, s, Edited(t, s, edit, writer).0)
  {
    RefusedSound(t, s);
    var op := LineTarget(t, s.open[edit.path], edit);
    if op.Some? { LineOutcomeSound(t, s, edit.path, op.value, writer); }
  }

  lemma RewriteSound(t: Tools, s: SessionState, path: Path, text: string, hints: Option<seq<Anchor>>, writer: Writer)
    requires t.Valid() && Sound(t, s) && path in s.open
    requires var w := writer(s.open[path].path, SplitLines(text), OverwriteExisting);
      w.Written? ==> PoisonFree(t.lib.hasher, s.open[path].state.lines, w.lines, hints)
    ensures var s' := RewriteOutcome(t, s, s.open[path], text, hints, writer).0;
      Sound(t, s') && Progress(s.store, s'.store)
  {
    RefusedSound(t, s);
    var w := writer(s.open[path].path, SplitLines(text), OverwriteExisting);
    if w.Written? { RewrittenSound(t, s, path, hints, w); }
  }

  lemma LineOutcomeSound(t: Tools, s: SessionState, path: Path, op: LineOp, writer: Writer)
    requires t.Valid() && Sound(t, s) && path in s.open && Targets(s.open[path], op)
    ensures var s' := LineEditOutcome(t, s, s.open[path], op, writer).0;
      Sound(t, s') && Progress(s.store, s'.store)
  {
    RefusedSound(t, s);
    var w := writer(s.open[path].path, Texts(Draft(s.open[path], op)), OverwriteExisting);
    if w.Written? { LineEditedSound(t, s, path, op, w); }
  }

  ghost function Final(t: Tools, s: SessionState, commands: seq<Command>): SessionState
    requires t.Valid()
    decreases |commands|
  {
    if commands == [] then s else Final(t, Step(t, s, commands[0]), commands[1..])
  }

  ghost predicate FaithfulRun(t: Tools, s: SessionState, commands: seq<Command>)
    requires t.Valid()
    decreases |commands|
  {
    commands == []
    || (FaithfulStep(t, s, commands[0]) && FaithfulRun(t, Step(t, s, commands[0]), commands[1..]))
  }

  /** Every run from a sound state, such as the empty session, stays sound: stored
      anchors are pairwise distinct in every file, and every cached file has one
      stored entry per line, with that line's hash. */
  lemma {:induction false} RunSound(t: Tools, s: SessionState, commands: seq<Command>)
    requires t.Valid() && FaithfulRun(t, s, commands)
    requires Sound(t, s) || s == SessionState(EMPTY, map[])
    ensures Sound(t, Final(t, s, commands))
    decreases |commands|
  {
    if commands != [] {
      StepSound(t, s, commands[0]);
      RunSound(t, Step(t, s, commands[0]), commands[1..]);
    }
  }

  ghost predicate NoCommit(commands: seq<Command>) {
    forall i :: 0 <= i < |commands| ==> !commands[i].CommitEdits?
  }

  ghost predicate OnLine(s: SessionState, path: Path, a: Anchor) {
    a in Elements(AnchorsIn(s.store.LinesOf(path)))
  }

  lemma {:induction false} RunProgress(t: Tools, s: SessionState, commands: seq<Command>, path: Path, a: Anchor)
    requires t.Valid() && Sound(t, s) && FaithfulRun(t, s, commands) && NoCommit(commands)
    requires a in s.store.Used(path)
    ensures a in Final(t, s, commands).store.Used(path)
    ensures OnLine(Final(t, s, commands), path, a) ==> OnLine(s, path, a)
    decreases |commands|
  {
    if commands != [] {
      StepSound(t, s, commands[0]);
      var s' := Step(t, s, commands[0]);
      assert ProgressAt(s.store, s'.store, path);
      RunProgress(t, s', commands[1..], path, a);
    }
  }

  /** Between two commits an anchor that left the file never comes back: once it
      named a line and no longer does, it names no line later in the run. */
  lemma NoAnchorReused(t: Tools, s: SessionState, before: seq<Command>, after: seq<Command>, path: Path, a: Anchor)
    requires t.Valid() && Sound(t, s) && NoCommit(before) && NoCommit(after)
    requires FaithfulRun(t, s, before) && FaithfulRun(t, Final(t, s, before), after)
    requires OnLine(s, path, a) && !OnLine(Final(t, s, before), path, a)
    ensures !OnLine(Final(t, Final(t, s, before), after), path, a)
  {
    RunProgress(t, s, before, path, a);
    RunSound(t, s, before);
    RunProgress(t, Final(t, s, before), after, path, a);
  }
}
