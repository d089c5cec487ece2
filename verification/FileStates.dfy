/** The anchored state of one file: a hash and an anchor for every line. */
module FileStates {
  import opened Wrappers
  import opened Anchors
  import opened Hashing

  type Path = string

  datatype LineEntry = LineEntry(hash: Hash, anchor: Anchor)

  function HashesIn(lines: seq<LineEntry>): (hashes: seq<Hash>)
    ensures |hashes| == |lines| && forall i :: 0 <= i < |lines| ==> hashes[i] == lines[i].hash
  {
    seq(|lines|, i requires 0 <= i < |lines| => lines[i].hash)
  }

  function AnchorsIn(lines: seq<LineEntry>): (anchors: seq<Anchor>)
    ensures |anchors| == |lines| && forall i :: 0 <= i < |lines| ==> anchors[i] == lines[i].anchor
  {
    seq(|lines|, i requires 0 <= i < |lines| => lines[i].anchor)
  }

  function Position(lines: seq<LineEntry>, anchor: Anchor): (r: Option<nat>)
    ensures r.Some? ==> r.value < |lines| && lines[r.value].anchor == anchor
    ensures r.Some? ==> anchor !in AnchorsIn(lines[..r.value])
    ensures r.None? ==> anchor !in AnchorsIn(lines)
  {
    if lines == [] then None
    else if lines[0].anchor == anchor then Some(0)
    else
      var rest := Position(lines[1..], anchor);
      assert AnchorsIn(lines) == [lines[0].anchor] + AnchorsIn(lines[1..]);
      if rest.None? then None
      else
        assert AnchorsIn(lines[..rest.value + 1]) == [lines[0].anchor] + AnchorsIn(lines[1..][..rest.value]);
        Some(rest.value + 1)
  }

  datatype FileAnchorState = FileAnchorState(
    path: Path,
    mtimeNs: int,
    size: nat,
    contentDigest: Hash,
    lines: seq<LineEntry>)
  {
    /** The first line carrying the anchor. */
    function FindAnchor(anchor: Anchor): Option<nat> {
      Position(lines, anchor)
    }
  }
}
