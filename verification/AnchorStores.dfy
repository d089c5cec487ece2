/** The anchor store: per file its metadata, its anchored lines and its tombstones. */
module AnchorStores {
  import opened Wrappers
  import opened Anchors
  import opened Pools
  import opened Hashing
  import opened FileStates

  datatype Meta = Meta(mtimeNs: int, size: nat, contentDigest: Hash)

  /** The value of a store, and what each of its operations does to that value. */
  datatype StoreState = StoreState(
    meta: map<Path, Meta>,
    lines: map<Path, seq<LineEntry>>,
    tombstones: map<Path, set<Anchor>>)
  {
    function LinesOf(path: Path): seq<LineEntry> {
      if path in lines then lines[path] else []
    }

    function TombstonesOf(path: Path): set<Anchor> {
      if path in tombstones then tombstones[path] else {}
    }

    ghost function Used(path: Path): set<Anchor> {
      Elements(AnchorsIn(LinesOf(path))) + TombstonesOf(path)
    }

    function Loaded(path: Path): Option<FileAnchorState> {
      if path !in meta then None
      else
        var m := meta[path];
        Some(FileAnchorState(path, m.mtimeNs, m.size, m.contentDigest, LinesOf(path)))
    }

    function WithMeta(path: Path, m: Meta): StoreState {
      this.(meta := meta[path := m])
    }

    function WithLines(path: Path, state: FileAnchorState): StoreState {
      this.(lines := if state.lines == [] then lines - {path} else lines[path := state.lines],
            meta := meta[path := Meta(state.mtimeNs, state.size, state.contentDigest)])
    }

    ghost function WithTombstones(path: Path, anchors: seq<Anchor>): StoreState {
      this.(tombstones := tombstones[path := TombstonesOf(path) + Elements(anchors)])
    }
  }

  const EMPTY := StoreState(map[], map[], map[])

  class FakeStore {
    var meta: map<Path, Meta>
    var lines: map<Path, seq<LineEntry>>
    var tombstones: map<Path, set<Anchor>>

    function State(): StoreState
      reads this
    {
      StoreState(meta, lines, tombstones)
    }

    constructor ()
      ensures State() == EMPTY
    {
      meta, lines, tombstones := map[], map[], map[];
    }

    method Load(path: Path) returns (r: Option<FileAnchorState>)
      ensures r == State().Loaded(path)
    {
      if path !in meta {
        return None;
      }
      var m := meta[path];
      var rows := if path in lines then lines[path] else [];
      return Some(FileAnchorState(path, m.mtimeNs, m.size, m.contentDigest, rows));
    }

    method SaveMeta(path: Path, mtimeNs: int, size: nat, contentDigest: Hash)
      modifies this
      ensures State() == old(State()).WithMeta(path, Meta(mtimeNs, size, contentDigest))
    {
      meta := meta[path := Meta(mtimeNs, size, contentDigest)];
    }

    method ReplaceFileLines(path: Path, state: FileAnchorState)
      modifies this
      ensures State() == old(State()).WithLines(path, state)
    {
      lines := lines - {path};
      if state.lines != [] {
        lines := lines[path := state.lines];
      }
      meta := meta[path := Meta(state.mtimeNs, state.size, state.contentDigest)];
    }

    method UsedAnchors(path: Path) returns (used: set<Anchor>)
      ensures used == State().Used(path)
    {
      used := {};
      if path in lines {
        var rows := lines[path];
        for i := 0 to |rows|
          invariant used == Elements(AnchorsIn(rows[..i]))
        {
          assert AnchorsIn(rows[..i + 1]) == AnchorsIn(rows[..i]) + [rows[i].anchor];
          used := used + {rows[i].anchor};
        }
        assert rows[..|rows|] == rows;
      }
      if path in tombstones {
        used := used + tombstones[path];
      }
    }

    method Tombstone(path: Path, anchors: seq<Anchor>)
      modifies this
      ensures State() == old(State()).WithTombstones(path, anchors)
    {
      var entry := if path in tombstones then tombstones[path] else {};
      for i := 0 to |anchors|
        invariant unchanged(this) && entry == State().TombstonesOf(path) + Elements(anchors[..i])
      {
        assert anchors[..i + 1] == anchors[..i] + [anchors[i]];
        entry := entry + {anchors[i]};
      }
      assert anchors[..|anchors|] == anchors;
      tombstones := tombstones[path := entry];
    }

    method ClearTombstones()
      modifies this
      ensures State() == old(State()).(tombstones := map[])
    {
      tombstones := map[];
    }
  }
}
