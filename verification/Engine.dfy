/** The edit engine: opening a file against its stored anchors, and committing
    new ones. */
module Engine {
  import opened Wrappers
  import opened Anchors
  import opened Pools
  import opened Hashing
  import opened FileStates
  import opened DiffScripts
  import opened Reconciliation
  import opened ReconcileLaws
  import opened AnchorStores

  datatype WorkingFile = WorkingFile(path: Path, state: FileAnchorState, lines: seq<string>)

  /** A file as read from disk. */
  datatype Reading = Reading(path: Path, lines: seq<string>, mtimeNs: int, size: nat)

  /** The libraries the engine is built on. */
  datatype Library = Library(hasher: Hasher, diff: LineDiff)

  ghost function Committed(st: StoreState, path: Path, state: FileAnchorState, tombstones: seq<Anchor>): StoreState {
    var st' := st.WithLines(path, state);
    if tombstones == [] then st' else st'.WithTombstones(path, tombstones)
  }

  // ----- Opening -----

  /** Entries for a file that was never opened: every line mints. */
  ghost function ColdLines(h: Hasher, lines: seq<string>, used: set<Anchor>, n: nat): (entries: seq<LineEntry>)
    requires n <= |lines|
    ensures |entries| == n
  {
    seq(n, k requires 0 <= k < n => LineEntry(h.HashAt(lines, k), MintNumber(used, k)))
  }

  ghost function ColdState(h: Hasher, r: Reading, used: set<Anchor>): FileAnchorState {
    FileAnchorState(r.path, r.mtimeNs, r.size, h.digest(h.HashesOf(r.lines)), ColdLines(h, r.lines, used, |r.lines|))
  }

  ghost function DriftedState(lib: Library, c: FileAnchorState, r: Reading, used: set<Anchor>): FileAnchorState
    requires Lawful(lib.diff)
  {
    ReconciledState(lib.hasher, lib.diff, c, r.lines, used, None).(mtimeNs := r.mtimeNs, size := r.size)
  }

  /** Reconciling without looking for a short cut. */
  ghost function AlwaysReconciled(lib: Library, st: StoreState, r: Reading): (result: (StoreState, WorkingFile))
    requires Lawful(lib.diff)
  {
    match st.Loaded(r.path)
    case Some(c) =>
      var state := DriftedState(lib, c, r, st.Used(r.path));
      (Committed(st, r.path, state, Tombstones(lib.hasher, lib.diff, c.lines, r.lines, None)),
       WorkingFile(r.path, state, r.lines))
    case None =>
      var state := ColdState(lib.hasher, r, st.Used(r.path));
      (st.WithLines(r.path, state), WorkingFile(r.path, state, r.lines))
  }

  /** The drift ladder: unchanged metadata, then unchanged digest, then a diff. */
  ghost function Opened(lib: Library, st: StoreState, r: Reading): (result: (StoreState, WorkingFile))
    requires Lawful(lib.diff)
  {
    match st.Loaded(r.path)
    case Some(c) =>
      var digest := lib.hasher.digest(lib.hasher.HashesOf(r.lines));
      if c.mtimeNs == r.mtimeNs && c.size == r.size then
        (st, WorkingFile(r.path, c, r.lines))
      else if c.contentDigest == digest then
        (st.WithMeta(r.path, Meta(r.mtimeNs, r.size, digest)),
         WorkingFile(r.path, c.(mtimeNs := r.mtimeNs, size := r.size), r.lines))
      else AlwaysReconciled(lib, st, r)
    case None => AlwaysReconciled(lib, st, r)
  }

  /** What every store built by the engine satisfies. */
  ghost predicate SoundStore(h: Hasher, st: StoreState) {
    && (forall path :: path in st.lines ==> path in st.meta && st.lines[path] != [])
    && (forall path :: path in st.meta ==>
          && Distinct(AnchorsIn(st.LinesOf(path)))
          && st.meta[path].contentDigest == h.digest(HashesIn(st.LinesOf(path))))
  }

  /** When metadata or digest say nothing changed, the line hashes agree. */
  ghost predicate Faithful(h: Hasher, st: StoreState, r: Reading) {
    var c := st.Loaded(r.path);
    c.Some? && ((c.value.mtimeNs == r.mtimeNs && c.value.size == r.size)
                || c.value.contentDigest == h.digest(h.HashesOf(r.lines)))
    ==> HashesIn(c.value.lines) == h.HashesOf(r.lines)
  }

  /** Storing what is stored already, with new metadata only. */
  lemma SameRows(st: StoreState, path: Path, state: FileAnchorState)
    requires path in st.meta && state.lines == st.LinesOf(path)
    requires path in st.lines ==> st.lines[path] != []
    ensures st.WithLines(path, state) == st.WithMeta(path, Meta(state.mtimeNs, state.size, state.contentDigest))
  {
    assert st.WithLines(path, state).lines == st.lines;
  }

  lemma UnchangedHashesAgree(lib: Library, st: StoreState, r: Reading)
    requires Lawful(lib.diff) && SoundStore(lib.hasher, st) && r.path in st.meta
    requires HashesIn(st.LinesOf(r.path)) == lib.hasher.HashesOf(r.lines)
    ensures Opened(lib, st, r) == AlwaysReconciled(lib, st, r)
  {
    var c, used := st.Loaded(r.path).value, st.Used(r.path);
    NothingChanged(lib.hasher, lib.diff, c.lines, r.lines, used);
    var state := c.(mtimeNs := r.mtimeNs, size := r.size);
    assert DriftedState(lib, c, r, used) == state;
    SameRows(st, r.path, state);
    if c.mtimeNs == r.mtimeNs && c.size == r.size {
      assert st.WithMeta(r.path, st.meta[r.path]) == st;
    }
  }

  lemma ChangedHashesDiffer(lib: Library, st: StoreState, r: Reading)
    requires Lawful(lib.diff) && r.path in st.meta
    requires HashesIn(st.LinesOf(r.path)) != lib.hasher.HashesOf(r.lines)
    ensures AlwaysReconciled(lib, st, r).1.state.lines != st.LinesOf(r.path)
  {
    HashesAndHints(lib.hasher, lib.diff, st.LinesOf(r.path), r.lines, st.Used(r.path), None);
  }

  /** The ladder returns and stores what reconciling always would, exactly for
      readings whose metadata and digest can be believed. */
  lemma LadderAgrees(lib: Library, st: StoreState, r: Reading)
    requires Lawful(lib.diff) && SoundStore(lib.hasher, st)
    ensures Opened(lib, st, r) == AlwaysReconciled(lib, st, r) <==> Faithful(lib.hasher, st, r)
  {
    if r.path in st.meta {
      if HashesIn(st.LinesOf(r.path)) == lib.hasher.HashesOf(r.lines) {
        UnchangedHashesAgree(lib, st, r);
      } else {
        ChangedHashesDiffer(lib, st, r);
      }
    }
  }

  /** What opening leaves: the file as it was read, and the metadata of the reading in
      the store. */
  ghost predicate Records(h: Hasher, st: StoreState, working: WorkingFile, r: Reading) {
    && working.path == working.state.path == r.path
    && working.lines == r.lines
    && working.state.mtimeNs == r.mtimeNs && working.state.size == r.size
    && working.state.contentDigest == h.digest(h.HashesOf(r.lines))
    && working.state.lines == st.LinesOf(r.path)
    && HashesIn(working.state.lines) == h.HashesOf(r.lines)
    && r.path in st.meta && st.meta[r.path] == Meta(r.mtimeNs, r.size, h.digest(h.HashesOf(r.lines)))
  }

  lemma AlwaysReconciledRecords(lib: Library, st: StoreState, r: Reading)
    requires Lawful(lib.diff)
    ensures var (st', working) := AlwaysReconciled(lib, st, r);
      Records(lib.hasher, st', working, r)
  {
    if r.path in st.meta {
      HashesAndHints(lib.hasher, lib.diff, st.LinesOf(r.path), r.lines, st.Used(r.path), None);
    }
  }

  /** A file whose metadata the store has is taken as it is stored. */
  lemma RecordedIsCurrent(lib: Library, st: StoreState, r: Reading)
    requires Lawful(lib.diff) && r.path in st.meta
    requires st.meta[r.path].mtimeNs == r.mtimeNs && st.meta[r.path].size == r.size
    ensures var (st', working) := Opened(lib, st, r);
      && st' == st && working.path == r.path && working.lines == r.lines
      && working.state.lines == st.LinesOf(r.path)
  {
  }

  /** Whatever the rung: the reading is recorded, with its metadata, and reading the
      same again changes nothing and returns the same. */
  lemma OpenRecords(lib: Library, st: StoreState, r: Reading)
    requires Lawful(lib.diff) && SoundStore(lib.hasher, st) && Faithful(lib.hasher, st, r)
    ensures var (st', working) := Opened(lib, st, r);
      Records(lib.hasher, st', working, r) && Opened(lib, st', r) == (st', working)
  {
    LadderAgrees(lib, st, r);
    AlwaysReconciledRecords(lib, st, r);
  }

  class EditEngine {
    const store: FakeStore
    const lib: Library

    constructor (store: FakeStore, lib: Library)
      ensures this.store == store && this.lib == lib
    {
      this.store := store;
      this.lib := lib;
    }

    method MintAll(hashes: seq<Hash>, pool: Pool, ghost h: Hasher, ghost lines: seq<string>, ghost used: set<Anchor>)
        returns (entries: seq<LineEntry>)
      requires hashes == h.HashesOf(lines) && pool.Valid() && pool.used == used
      modifies pool
      ensures entries == ColdLines(h, lines, used, |lines|)
    {
      entries := [];
      for k := 0 to |hashes|
        invariant entries == ColdLines(h, lines, used, k)
        invariant pool.Valid() && pool.used == UsedAfter(used, k)
      {
        var anchor := pool.Mint();
        entries := entries + [LineEntry(hashes[k], anchor)];
      }
    }

    /** The last rung of the ladder: the content changed behind our back. */
    method Drift(c: FileAnchorState, r: Reading) returns (state: FileAnchorState)
      requires Lawful(lib.diff)
      modifies store
      ensures state == DriftedState(lib, c, r, old(store.State()).Used(r.path))
      ensures store.State() == Committed(old(store.State()), r.path, state,
                                         Tombstones(lib.hasher, lib.diff, c.lines, r.lines, None))
    {
      var used := store.UsedAnchors(r.path);
      var pool := new Pool.FromUsed(used);
      var outcome := Reconcile(lib.hasher, lib.diff, c, r.lines, pool, None);
      state := outcome.state.(mtimeNs := r.mtimeNs, size := r.size);
      store.ReplaceFileLines(r.path, state);
      if outcome.tombstoned != [] {
        store.Tombstone(r.path, outcome.tombstoned);
      }
    }

    /** First sight of a file. */
    method ColdOpen(r: Reading) returns (state: FileAnchorState)
      modifies store
      ensures state == ColdState(lib.hasher, r, old(store.State()).Used(r.path))
      ensures store.State() == old(store.State()).WithLines(r.path, state)
    {
      var onDiskHashes := lib.hasher.HashLines(r.lines);
      var used := store.UsedAnchors(r.path);
      var pool := new Pool.FromUsed(used);
      var entries := MintAll(onDiskHashes, pool, lib.hasher, r.lines, used);
      state := FileAnchorState(r.path, r.mtimeNs, r.size, lib.hasher.digest(onDiskHashes), entries);
      store.ReplaceFileLines(r.path, state);
    }

    /** Loads the anchored state of a file and brings it up to date with its
        content on disk. */
    method Open(r: Reading) returns (working: WorkingFile)
      requires Lawful(lib.diff)
      modifies store
      ensures (store.State(), working) == Opened(lib, old(store.State()), r)
    {
      var cached := store.Load(r.path);
      var state;
      if cached.Some? {
        var c := cached.value;
        if c.mtimeNs == r.mtimeNs && c.size == r.size {
          state := c;
        } else {
          var onDiskHashes := lib.hasher.HashLines(r.lines);
          var onDiskDigest := lib.hasher.digest(onDiskHashes);
          if c.contentDigest == onDiskDigest {
            store.SaveMeta(r.path, r.mtimeNs, r.size, onDiskDigest);
            state := c.(mtimeNs := r.mtimeNs, size := r.size);
          } else {
            state := Drift(c, r);
          }
        }
      } else {
        state := ColdOpen(r);
      }
      return WorkingFile(r.path, state, r.lines);
    }

    /** Persists a final anchored state, replacing any stored rows. */
    method Commit(path: Path, state: FileAnchorState, mtimeNs: int, size: nat, tombstones: seq<Anchor>)
      modifies store
      ensures store.State()
           == Committed(old(store.State()), path, state.(mtimeNs := mtimeNs, size := size), tombstones)
    {
      store.ReplaceFileLines(path, state.(mtimeNs := mtimeNs, size := size));
      if tombstones != [] {
        store.Tombstone(path, tombstones);
      }
    }

    /** Clears the tombstones at a reconciliation boundary. */
    method CommitEdits()
      modifies store
      ensures store.State() == old(store.State()).(tombstones := map[])
    {
      store.ClearTombstones();
    }
  }
}
