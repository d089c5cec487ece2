/** Applying anchor-addressed edits to a file's lines by splicing in place, with
    a table of how far each original line has moved. */
module EditOps {
  import opened Anchors
  import opened FileStates
  import opened GapModel

  datatype EditOp =
    | InsertAfter(pin: Anchor, lines: seq<string>)
    | InsertBefore(pin: Anchor, lines: seq<string>)
    | Replace(from: Anchor, to: Anchor, lines: seq<string>)

  predicate Resolvable(state: FileAnchorState, op: EditOp) {
    match op
    case InsertAfter(pin, _) => state.FindAnchor(pin).Some?
    case InsertBefore(pin, _) => state.FindAnchor(pin).Some?
    case Replace(from, to, _) => state.FindAnchor(from).Some? && state.FindAnchor(to).Some?
  }

  function Resolve(state: FileAnchorState, op: EditOp): LineOp
    requires Resolvable(state, op)
  {
    match op
    case InsertAfter(pin, lines) => After(state.FindAnchor(pin).value, lines)
    case InsertBefore(pin, lines) => Before(state.FindAnchor(pin).value, lines)
    case Replace(from, to, lines) => Replaced(state.FindAnchor(from).value, state.FindAnchor(to).value, lines)
  }

  function ResolveAll(state: FileAnchorState, ops: seq<EditOp>): (r: seq<LineOp>)
    requires forall i :: 0 <= i < |ops| ==> Resolvable(state, ops[i])
    ensures |r| == |ops|
  {
    seq(|ops|, i requires 0 <= i < |ops| => Resolve(state, ops[i]))
  }

  /** How far an edit moves the original line `j`. */
  function Shift(g: seq<Slot>, op: LineOp, j: nat): int
    requires Enabled(g, op)
  {
    match op
    case After(pin, lines) => if j > pin then |lines| else 0
    case Before(pin, lines) => if j >= pin then |lines| else 0
    case Replaced(from, to, lines) =>
      if j > to then |lines| - (CellsBefore(g, to) - CellsBefore(g, from) + 1) else 0
  }

  lemma LinesShift(g: seq<Slot>, op: LineOp, j: nat)
    requires Enabled(g, op) && Live(Apply(g, op), j)
    ensures Live(g, j)
    ensures CellsBefore(Apply(g, op), j) == CellsBefore(g, j) + Shift(g, op, j)
  {
    match op
    case After(pin, lines) =>
      if j > pin { AfterSplices(g, pin, lines, j); } else { BetweenAgree(g, Apply(g, op), 0, j); }
    case Before(pin, lines) =>
      if j > pin { BeforeSplices(g, pin, lines, j); } else { BetweenAgree(g, Apply(g, op), 0, j); }
    case Replaced(from, to, lines) =>
      if j > to { ReplacedSplices(g, from, to, lines, j); } else { BetweenAgree(g, Apply(g, op), 0, j); }
  }

  /** The working arrays represent the slots `g`. */
  ghost predicate Represents(g: seq<Slot>, out: seq<string>, origins: seq<LineOrigin>, offsets: seq<int>) {
    && out == Texts(Flatten(g))
    && origins == Origins(Flatten(g))
    && Tracks(g, offsets)
  }

  /** The table says where every surviving original line is now. */
  ghost predicate Tracks(g: seq<Slot>, offsets: seq<int>) {
    && |offsets| == |g|
    && forall i :: 0 <= i < |g| && Live(g, i) ==> i + offsets[i] == CellsBefore(g, i)
  }

  lemma TextsSplice(cells: seq<Cell>, from: nat, to: nat, lines: seq<string>)
    requires from <= to <= |cells|
    ensures Texts(Splice(cells, from, to, NewCells(lines))) == Splice(Texts(cells), from, to, lines)
    ensures Origins(Splice(cells, from, to, NewCells(lines)))
         == Splice(Origins(cells), from, to, seq(|lines|, _ => Inserted))
  {
  }

  function AllCarried(n: nat): (origins: seq<LineOrigin>)
    ensures |origins| == n && forall i :: 0 <= i < n ==> origins[i] == Carried(i)
  {
    seq(n, i requires 0 <= i < n => Carried(i))
  }

  lemma StartRepresents(original: seq<string>, offsets: seq<int>)
    requires |offsets| == |original| && forall i :: 0 <= i < |offsets| ==> offsets[i] == 0
    ensures Represents(Start(original), original, AllCarried(|original|), offsets)
  {
    forall i | 0 <= i <= |original|
      ensures |Between(Start(original), 0, i)| == i
    {
      StartCells(original, i);
    }
    StartCells(original, |original|);
  }

  lemma {:induction false} StartCells(original: seq<string>, j: nat)
    requires j <= |original|
    ensures |Between(Start(original), 0, j)| == j
    ensures forall i :: 0 <= i < j ==> Between(Start(original), 0, j)[i] == Cell(original[i], Carried(i))
  {
    if j > 0 {
      StartCells(original, j - 1);
    }
  }

  /** The stretch of cells that an edit removes. */
  function Cut(g: seq<Slot>, op: LineOp): (cut: (nat, nat))
    requires Enabled(g, op)
  {
    match op
    case After(pin, _) => (CellsBefore(g, pin) + 1, CellsBefore(g, pin) + 1)
    case Before(pin, _) => (CellsBefore(g, pin), CellsBefore(g, pin))
    case Replaced(from, to, _) => (CellsBefore(g, from), CellsBefore(g, to) + 1)
  }

  lemma EditSplices(g: seq<Slot>, op: LineOp)
    requires Enabled(g, op)
    ensures Cut(g, op).0 <= Cut(g, op).1 <= |Flatten(g)|
    ensures Flatten(Apply(g, op)) == Splice(Flatten(g), Cut(g, op).0, Cut(g, op).1, NewCells(op.lines))
  {
    match op
    case After(pin, lines) => AfterSplices(g, pin, lines, |g|);
    case Before(pin, lines) => BeforeSplices(g, pin, lines, |g|);
    case Replaced(from, to, lines) => ReplacedSplices(g, from, to, lines, |g|);
  }

  /** One turn of the loop: splicing at the cut and shifting the table. */
  lemma StepRepresents(g: seq<Slot>, op: LineOp, out: seq<string>, origins: seq<LineOrigin>,
                       offsets: seq<int>, offsets': seq<int>)
    requires Enabled(g, op) && Represents(g, out, origins, offsets)
    requires |offsets'| == |g| && forall j :: 0 <= j < |g| ==> offsets'[j] == offsets[j] + Shift(g, op, j)
    ensures Cut(g, op).0 <= Cut(g, op).1 <= |out| == |origins|
    ensures Represents(Apply(g, op),
      Splice(out, Cut(g, op).0, Cut(g, op).1, op.lines),
      Splice(origins, Cut(g, op).0, Cut(g, op).1, seq(|op.lines|, _ => Inserted)),
      offsets')
  {
    EditSplices(g, op);
    TextsSplice(Flatten(g), Cut(g, op).0, Cut(g, op).1, op.lines);
    forall i | 0 <= i < |g| && Live(Apply(g, op), i)
      ensures i + offsets'[i] == CellsBefore(Apply(g, op), i)
    {
      LinesShift(g, op, i);
    }
  }

  lemma {:induction false} RunStep(g: seq<Slot>, ops: seq<LineOp>, k: nat)
    requires Executable(g, ops) && k < |ops|
    ensures Enabled(Run(g, ops[..k]), ops[k])
    ensures Run(g, ops[..k + 1]) == Apply(Run(g, ops[..k]), ops[k])
    decreases k
  {
    if k > 0 {
      RunStep(Apply(g, ops[0]), ops[1..], k - 1);
      assert ops[..k][1..] == ops[1..][..k - 1];
      assert ops[..k + 1][1..] == ops[1..][..k];
    }
  }

  method SpliceIn(out: seq<string>, origins: seq<LineOrigin>, at: nat, lines: seq<string>)
      returns (out': seq<string>, origins': seq<LineOrigin>)
    requires at <= |out| == |origins|
    ensures out' == Splice(out, at, at, lines)
    ensures origins' == Splice(origins, at, at, seq(|lines|, _ => Inserted))
  {
    out' := out[..at] + lines + out[at..];
    origins' := origins[..at] + seq(|lines|, _ => Inserted) + origins[at..];
  }

  /** Moves the original lines from index `start` on. */
  method ShiftFrom(offsets: array<int>, start: nat, delta: int)
    modifies offsets
    ensures forall i :: 0 <= i < offsets.Length ==>
      offsets[i] == old(offsets[i]) + if i >= start then delta else 0
  {
    var i := start;
    while i < offsets.Length
      invariant start <= i
      invariant forall k :: 0 <= k < offsets.Length ==>
        offsets[k] == old(offsets[k]) + if start <= k < i then delta else 0
    {
      offsets[i] := offsets[i] + delta;
      i := i + 1;
    }
  }

  /** One edit: splices the working lines and shifts the table. */
  method ApplyOp(state: FileAnchorState, op: EditOp, ghost g: seq<Slot>,
                 out: seq<string>, origins: seq<LineOrigin>, offsets: array<int>)
      returns (out': seq<string>, origins': seq<LineOrigin>)
    requires Resolvable(state, op) && Enabled(g, Resolve(state, op))
    requires Tracks(g, offsets[..])
    requires Cut(g, Resolve(state, op)).0 <= Cut(g, Resolve(state, op)).1 <= |out| == |origins|
    modifies offsets
    ensures var lineOp := Resolve(state, op);
      && out' == Splice(out, Cut(g, lineOp).0, Cut(g, lineOp).1, op.lines)
      && origins' == Splice(origins, Cut(g, lineOp).0, Cut(g, lineOp).1, seq(|op.lines|, _ => Inserted))
      && forall j :: 0 <= j < |g| ==> offsets[j] == old(offsets[j]) + Shift(g, lineOp, j)
  {
    match op {
      case InsertAfter(pin, lines) =>
        var orig := state.FindAnchor(pin).value;
        var draft := orig + offsets[orig] + 1;
        out', origins' := SpliceIn(out, origins, draft, lines);
        ShiftFrom(offsets, orig + 1, |lines|);
      case InsertBefore(pin, lines) =>
        var orig := state.FindAnchor(pin).value;
        var draft := orig + offsets[orig];
        out', origins' := SpliceIn(out, origins, draft, lines);
        ShiftFrom(offsets, orig, |lines|);
      case Replace(from, to, lines) =>
        var fromOrig := state.FindAnchor(from).value;
        var toOrig := state.FindAnchor(to).value;
        var fromDraft := fromOrig + offsets[fromOrig];
        var toDraft := toOrig + offsets[toOrig];
        var removed := toDraft - fromDraft + 1;
        out' := out[..fromDraft] + lines + out[toDraft + 1..];
        origins' := origins[..fromDraft] + seq(|lines|, _ => Inserted) + origins[toDraft + 1..];
        ShiftFrom(offsets, toOrig + 1, |lines| - removed);
    }
  }

  /** One edit takes a representation of the gap model to the next. */
  method ApplyNext(state: FileAnchorState, op: EditOp, ghost g: seq<Slot>,
                   out: seq<string>, origins: seq<LineOrigin>, offsets: array<int>)
      returns (out': seq<string>, origins': seq<LineOrigin>)
    requires Resolvable(state, op) && Enabled(g, Resolve(state, op))
    requires Represents(g, out, origins, offsets[..])
    modifies offsets
    ensures Represents(Apply(g, Resolve(state, op)), out', origins', offsets[..])
  {
    EditSplices(g, Resolve(state, op));
    out', origins' := ApplyOp(state, op, g, out, origins, offsets);
    StepRepresents(g, Resolve(state, op), out, origins, old(offsets[..]), offsets[..]);
  }

  /** Applies the edits in order. Every anchor names a line of the file that no
      earlier edit replaced, and the ends of a range come in file order. */
  method ApplyOps(state: FileAnchorState, original: seq<string>, ops: seq<EditOp>)
      returns (out: seq<string>, origins: seq<LineOrigin>)
    requires |state.lines| == |original|
    requires forall i :: 0 <= i < |ops| ==> Resolvable(state, ops[i])
    requires Executable(Start(original), ResolveAll(state, ops))
    ensures out == Texts(Flatten(Run(Start(original), ResolveAll(state, ops))))
    ensures origins == Origins(Flatten(Run(Start(original), ResolveAll(state, ops))))
  {
    out := original;
    origins := AllCarried(|original|);
    var offsets := new int[|original|](_ => 0);
    StartRepresents(original, offsets[..]);
    ghost var lineOps := ResolveAll(state, ops);
    for k := 0 to |ops|
      invariant Represents(Run(Start(original), lineOps[..k]), out, origins, offsets[..])
    {
      RunStep(Start(original), lineOps, k);
      out, origins := ApplyNext(state, ops[k], Run(Start(original), lineOps[..k]), out, origins, offsets);
    }
    assert lineOps[..|ops|] == lineOps;
  }
}
