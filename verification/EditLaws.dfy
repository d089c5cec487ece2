/** Laws of line edits: where lines end up, which lines survive, and when the
    order of edits does not matter. */
module EditLaws {
  import opened Anchors
  import opened FileStates
  import opened GapModel
  import EditOps

  // ----- Layout -----

  ghost predicate AllInserted(cells: seq<Cell>) {
    forall k :: 0 <= k < |cells| ==> cells[k].origin == Inserted
  }

  /** Every slot holds inserted lines around either its own line or inserted lines. */
  ghost predicate WellFormed(g: seq<Slot>, original: seq<string>) {
    && |g| == |original|
    && forall i :: 0 <= i < |g| ==>
         && AllInserted(g[i].pre)
         && AllInserted(g[i].post)
         && (AllInserted(g[i].body) || g[i].body == [Cell(original[i], Carried(i))])
  }

  lemma {:induction false} RunWellFormed(original: seq<string>, g: seq<Slot>, ops: seq<LineOp>)
    requires WellFormed(g, original)
    ensures WellFormed(Run(g, ops), original)
    decreases |ops|
  {
    if ops != [] {
      var g' := Apply(g, ops[0]);
      forall i | 0 <= i < |g| ensures AllInserted(g'[i].pre) && AllInserted(g'[i].post) {
        assert g'[i] == SlotAfter(g[i], ops[0], i);
      }
      RunWellFormed(original, g', ops[1..]);
    }
  }

  lemma {:induction false} CarriedCells(g: seq<Slot>, original: seq<string>, j: nat, k: nat)
    requires WellFormed(g, original) && j <= |g| && k < |Between(g, 0, j)|
    ensures Between(g, 0, j)[k].origin.Carried? ==>
      var i := Between(g, 0, j)[k].origin.index;
      i < j && Live(g, i) && k == CellsBefore(g, i) && Between(g, 0, j)[k].text == original[i]
  {
    if j > 0 && k < |Between(g, 0, j - 1)| {
      CarriedCells(g, original, j - 1, k);
    }
  }

  lemma LiveCell(g: seq<Slot>, i: nat)
    requires Live(g, i)
    ensures CellsBefore(g, i) < |Flatten(g)| && Flatten(g)[CellsBefore(g, i)] == g[i].body[0]
  {
    BetweenAt(g, i, |g|);
  }

  /** The carried cells are exactly the surviving original lines, each once, at its
      tracked position, unchanged and in file order. */
  ghost predicate LaidOut(g: seq<Slot>, original: seq<string>)
    requires |g| == |original|
  {
    var cells := Flatten(g);
    && (forall k :: 0 <= k < |cells| && cells[k].origin.Carried? ==> CarriedAt(g, original, k))
    && (forall i :: 0 <= i < |g| && Live(g, i) ==>
          CellsBefore(g, i) < |cells| && cells[CellsBefore(g, i)] == Cell(original[i], Carried(i)))
    && (forall k, l :: 0 <= k < l < |cells| && cells[k].origin.Carried? && cells[l].origin.Carried? ==>
          cells[k].origin.index < cells[l].origin.index)
  }

  ghost predicate CarriedAt(g: seq<Slot>, original: seq<string>, k: nat)
    requires |g| == |original| && k < |Flatten(g)| && Flatten(g)[k].origin.Carried?
  {
    var i := Flatten(g)[k].origin.index;
    i < |g| && Live(g, i) && k == CellsBefore(g, i) && Flatten(g)[k].text == original[i]
  }

  lemma CarriedOrder(g: seq<Slot>, original: seq<string>, k: nat, l: nat)
    requires WellFormed(g, original) && k < l < |Flatten(g)|
    requires Flatten(g)[k].origin.Carried? && Flatten(g)[l].origin.Carried?
    ensures Flatten(g)[k].origin.index < Flatten(g)[l].origin.index
  {
    CarriedCells(g, original, |g|, k);
    CarriedCells(g, original, |g|, l);
    var i, j := Flatten(g)[k].origin.index, Flatten(g)[l].origin.index;
    if j < i { LinesInOrder(g, j, i); }
  }

  /** After any edits the output is laid out as above, so every line that is not a
      surviving original one is an inserted one. */
  lemma OutputLayout(original: seq<string>, ops: seq<LineOp>)
    ensures LaidOut(Run(Start(original), ops), original)
  {
    var g := Run(Start(original), ops);
    RunWellFormed(original, Start(original), ops);
    var cells := Flatten(g);
    forall k | 0 <= k < |cells| && cells[k].origin.Carried?
      ensures CarriedAt(g, original, k)
    {
      CarriedCells(g, original, |g|, k);
    }
    forall i | 0 <= i < |g| && Live(g, i)
      ensures CellsBefore(g, i) < |cells| && cells[CellsBefore(g, i)] == Cell(original[i], Carried(i))
    {
      LiveCell(g, i);
    }
    forall k, l | 0 <= k < l < |cells| && cells[k].origin.Carried? && cells[l].origin.Carried?
      ensures cells[k].origin.index < cells[l].origin.index
    {
      CarriedOrder(g, original, k, l);
    }
  }

  lemma NextCut(g: seq<Slot>, original: seq<string>, op: LineOp, k: nat, l: nat)
    requires WellFormed(g, original) && Enabled(g, op) && k <= l < |Flatten(g)|
    requires Flatten(g)[k].origin == Carried(if op.Replaced? then op.from else op.pin)
    requires Flatten(g)[l].origin == Carried(if op.Replaced? then op.to else op.pin)
    ensures EditOps.Cut(g, op) ==
      match op
      case After(_, _) => (k + 1, k + 1)
      case Before(_, _) => (k, k)
      case Replaced(_, _, _) => (k, l + 1)
  {
    CarriedCells(g, original, |g|, k);
    CarriedCells(g, original, |g|, l);
  }

  /** Where the next edit puts its lines, in the output as it is: right behind the line it
      names, right before it, or in the place of the range. */
  lemma NextEdit(g: seq<Slot>, original: seq<string>, op: LineOp, k: nat, l: nat)
    requires WellFormed(g, original) && Enabled(g, op) && k <= l < |Flatten(g)|
    requires Flatten(g)[k].origin == Carried(if op.Replaced? then op.from else op.pin)
    requires Flatten(g)[l].origin == Carried(if op.Replaced? then op.to else op.pin)
    ensures var cells, put := Flatten(g), NewCells(op.lines);
      Flatten(Apply(g, op)) ==
        match op
        case After(_, _) => cells[..k + 1] + put + cells[k + 1..]
        case Before(_, _) => cells[..k] + put + cells[k..]
        case Replaced(_, _, _) => cells[..k] + put + cells[l + 1..]
  {
    NextCut(g, original, op, k, l);
    EditOps.EditSplices(g, op);
  }

  /** The file after some edits, as the loop leaves it. */
  ghost function OutputOf(state: FileAnchorState, original: seq<string>, ops: seq<EditOps.EditOp>): seq<Cell>
    requires forall i :: 0 <= i < |ops| ==> EditOps.Resolvable(state, ops[i])
  {
    Flatten(Run(Start(original), EditOps.ResolveAll(state, ops)))
  }

  /** The anchors that an edit names: the ends of a range, or twice the pin. */
  function EndsOf(op: EditOps.EditOp): (Anchor, Anchor) {
    match op
    case InsertAfter(pin, _) => (pin, pin)
    case InsertBefore(pin, _) => (pin, pin)
    case Replace(from, to, _) => (from, to)
  }

  lemma OneMoreOp(state: FileAnchorState, original: seq<string>, ops: seq<EditOps.EditOp>)
    requires ops != [] && forall i :: 0 <= i < |ops| ==> EditOps.Resolvable(state, ops[i])
    requires Executable(Start(original), EditOps.ResolveAll(state, ops))
    ensures var n := |ops| - 1;
      var g, op := Run(Start(original), EditOps.ResolveAll(state, ops[..n])), EditOps.Resolve(state, ops[n]);
      && WellFormed(g, original) && Enabled(g, op) && OutputOf(state, original, ops) == Flatten(Apply(g, op))
  {
    var n, all := |ops| - 1, EditOps.ResolveAll(state, ops);
    assert all[..n] == EditOps.ResolveAll(state, ops[..n]) && all[..n + 1] == all;
    EditOps.RunStep(Start(original), all, n);
    RunWellFormed(original, Start(original), all[..n]);
  }

  /** Edits come one after the other, each on the output of those before it: its lines go
      right behind the line its anchor names, right before it, or in the place of its
      range. */
  lemma NextOp(state: FileAnchorState, original: seq<string>, ops: seq<EditOps.EditOp>, k: nat, l: nat)
    requires ops != [] && forall i :: 0 <= i < |ops| ==> EditOps.Resolvable(state, ops[i])
    requires Executable(Start(original), EditOps.ResolveAll(state, ops))
    requires var cells, ends := OutputOf(state, original, ops[..|ops| - 1]), EndsOf(ops[|ops| - 1]);
      && k <= l < |cells|
      && cells[k].origin == Carried(state.FindAnchor(ends.0).value)
      && cells[l].origin == Carried(state.FindAnchor(ends.1).value)
    ensures var cells, op := OutputOf(state, original, ops[..|ops| - 1]), ops[|ops| - 1];
      var put := NewCells(op.lines);
      OutputOf(state, original, ops) ==
        match op
        case InsertAfter(_, _) => cells[..k + 1] + put + cells[k + 1..]
        case InsertBefore(_, _) => cells[..k] + put + cells[k..]
        case Replace(_, _, _) => cells[..k] + put + cells[l + 1..]
  {
    OneMoreOp(state, original, ops);
    var n := |ops| - 1;
    NextEdit(Run(Start(original), EditOps.ResolveAll(state, ops[..n])), original, EditOps.Resolve(state, ops[n]), k, l);
  }

  predicate Covers(op: LineOp, i: nat) {
    op.Replaced? && op.from <= i <= op.to
  }

  /** A line survives exactly when no replaced range covers it. */
  lemma {:induction false} Survivors(g: seq<Slot>, ops: seq<LineOp>, i: nat)
    requires i < |g|
    ensures Live(Run(g, ops), i) <==> Live(g, i) && forall k :: 0 <= k < |ops| ==> !Covers(ops[k], i)
    decreases |ops|
  {
    if ops != [] {
      Survivors(Apply(g, ops[0]), ops[1..], i);
      assert forall k :: 1 <= k < |ops| ==> ops[k] == ops[1..][k - 1];
    }
  }

  // ----- Commutation -----

  /** Inserts at different (line, side) places, inserts outside a replaced range,
      and disjoint replaced ranges. */
  predicate Independent(a: LineOp, b: LineOp) {
    match (a, b)
    case (After(p, _), After(q, _)) => p != q
    case (Before(p, _), Before(q, _)) => p != q
    case (Replaced(f, t, _), Replaced(f', t', _)) => t < f' || t' < f
    case (Replaced(f, t, _), _) => !(f <= b.pin <= t)
    case (_, Replaced(f, t, _)) => !(f <= a.pin <= t)
    case _ => true
  }

  lemma Commute(g: seq<Slot>, a: LineOp, b: LineOp)
    requires Independent(a, b)
    ensures Apply(Apply(g, a), b) == Apply(Apply(g, b), a)
    ensures Enabled(Apply(g, a), b) <==> Enabled(g, b)
  {
    forall i | 0 <= i < |g|
      ensures SlotAfter(SlotAfter(g[i], a, i), b, i) == SlotAfter(SlotAfter(g[i], b, i), a, i)
    {
    }
  }

  ghost predicate PairwiseIndependent(ops: seq<LineOp>) {
    forall i, j :: 0 <= i < j < |ops| ==> Independent(ops[i], ops[j])
  }

  lemma RunTwo(g: seq<Slot>, a: LineOp, b: LineOp, rest: seq<LineOp>)
    ensures Executable(g, [a] + rest) <==> Enabled(g, a) && Executable(Apply(g, a), rest)
    ensures Run(g, [a] + rest) == Run(Apply(g, a), rest)
    ensures Executable(g, [a] + ([b] + rest)) <==>
      Enabled(g, a) && Enabled(Apply(g, a), b) && Executable(Apply(Apply(g, a), b), rest)
    ensures Run(g, [a] + ([b] + rest)) == Run(Apply(Apply(g, a), b), rest)
  {
    assert ([a] + ([b] + rest))[1..] == [b] + rest && ([b] + rest)[1..] == rest;
    assert ([a] + rest)[1..] == rest;
  }

  /** Two independent edits at the front can change places. */
  lemma SwapFront(g: seq<Slot>, a: LineOp, b: LineOp, rest: seq<LineOp>)
    requires Independent(a, b) && Executable(g, [a] + ([b] + rest))
    ensures Executable(g, [b] + ([a] + rest))
    ensures Run(g, [b] + ([a] + rest)) == Run(g, [a] + ([b] + rest))
  {
    RunTwo(g, a, b, rest);
    RunTwo(g, b, a, rest);
    Commute(g, a, b);
    Commute(g, b, a);
  }

  lemma MoveOver(g: seq<Slot>, a: LineOp, op: LineOp, rest: seq<LineOp>)
    requires Independent(a, op) && Enabled(g, a) && Executable(Apply(g, a), [op] + rest)
    ensures Executable(g, [op] + ([a] + rest))
    ensures Run(g, [op] + ([a] + rest)) == Run(Apply(g, a), [op] + rest)
  {
    RunTwo(g, a, op, [op] + rest);
    SwapFront(g, a, op, rest);
  }

  /** An edit independent of those in front of it can go first. */
  lemma {:induction false} MoveToFront(g: seq<Slot>, front: seq<LineOp>, op: LineOp, rest: seq<LineOp>)
    requires forall k :: 0 <= k < |front| ==> Independent(front[k], op)
    requires Executable(g, front + ([op] + rest))
    ensures Executable(g, [op] + (front + rest))
    ensures Run(g, [op] + (front + rest)) == Run(g, front + ([op] + rest))
    decreases |front|
  {
    if front == [] {
      assert front + ([op] + rest) == [op] + rest && front + rest == rest;
    } else {
      var a, others := front[0], front[1..];
      assert front + ([op] + rest) == [a] + (others + ([op] + rest));
      assert front + rest == [a] + (others + rest);
      RunTwo(g, a, op, others + ([op] + rest));
      MoveToFront(Apply(g, a), others, op, rest);
      MoveOver(g, a, op, others + rest);
    }
  }

  lemma PickOp(xs: seq<LineOp>, k: nat) returns (front: seq<LineOp>, rest: seq<LineOp>)
    requires PairwiseIndependent(xs) && k < |xs|
    ensures xs == front + ([xs[k]] + rest)
    ensures forall i :: 0 <= i < |front| ==> Independent(front[i], xs[k])
    ensures PairwiseIndependent(front + rest)
    ensures multiset(front + rest) == multiset(xs) - multiset{xs[k]}
  {
    front, rest := xs[..k], xs[k + 1..];
    assert xs == front + ([xs[k]] + rest);
  }

  lemma PickFirst(xs: seq<LineOp>, ys: seq<LineOp>) returns (front: seq<LineOp>, rest: seq<LineOp>)
    requires PairwiseIndependent(xs) && multiset(xs) == multiset(ys) && ys != []
    ensures xs == front + ([ys[0]] + rest)
    ensures forall i :: 0 <= i < |front| ==> Independent(front[i], ys[0])
    ensures PairwiseIndependent(front + rest)
    ensures multiset(front + rest) == multiset(ys[1..])
  {
    assert ys == [ys[0]] + ys[1..];
    assert ys[0] in multiset(xs);
    var k :| 0 <= k < |xs| && xs[k] == ys[0];
    front, rest := PickOp(xs, k);
  }

  /** Pairwise independent edits give the same file in every order. */
  lemma {:induction false} AnyOrder(g: seq<Slot>, xs: seq<LineOp>, ys: seq<LineOp>)
    requires PairwiseIndependent(xs) && Executable(g, xs)
    requires multiset(xs) == multiset(ys)
    ensures Executable(g, ys)
    ensures Run(g, ys) == Run(g, xs)
    decreases |ys|
  {
    if ys == [] {
      assert |multiset(xs)| == |xs| == 0;
    } else {
      var y, ys' := ys[0], ys[1..];
      assert ys == [y] + ys';
      var front, rest := PickFirst(xs, ys);
      MoveToFront(g, front, y, rest);
      RunTwo(g, y, y, front + rest);
      AnyOrder(Apply(g, y), front + rest, ys');
      RunTwo(g, y, y, ys');
    }
  }

  // ----- Edits that name a replaced line -----

  /** The index at which the loop inserts behind line `i`, when `op` was the only edit
      before it. */
  function IndexBehind(original: seq<string>, op: LineOp, i: nat): int
    requires Enabled(Start(original), op)
  {
    i + EditOps.Shift(Start(original), op, i) + 1
  }

  lemma StartPlaces(original: seq<string>, i: nat)
    requires i <= |original|
    ensures |Between(Start(original), 0, i)| == i
    ensures i < |original| ==> CellsBefore(Start(original), i) == i
  {
    EditOps.StartCells(original, i);
  }

  lemma ReplacedLength(original: seq<string>, from: nat, to: nat, lines: seq<string>, j: nat)
    requires from <= to < j <= |original|
    ensures |Between(Apply(Start(original), Replaced(from, to, lines)), 0, j)| == j - (to - from + 1) + |lines|
  {
    StartPlaces(original, from);
    StartPlaces(original, to);
    StartPlaces(original, j);
    ReplacedSplices(Start(original), from, to, lines, j);
  }

  /** A line that an earlier edit replaced is not there any more. */
  lemma ReplacedLinesAreGone(g: seq<Slot>, op: LineOp, i: nat, lines: seq<string>)
    requires Covers(op, i)
    ensures !Enabled(Apply(g, op), After(i, lines)) && !Enabled(Apply(g, op), Before(i, lines))
  {
  }

  /** An edit that names a line replaced earlier is no edit of the gap model, and the
      table still has the line's old offset. For a fresh file: inserting behind the
      replaced line `i` lands right behind the replacement only if that has as many
      lines as were replaced up to `i`; and it does not even lie in the output, so that
      the splice panics, exactly if `i` is not below the output's length. */
  lemma BehindReplacedLine(original: seq<string>, from: nat, to: nat, lines: seq<string>, i: nat, put: seq<string>)
    requires from <= i <= to < |original|
    ensures var op := Replaced(from, to, lines);
      && !Enabled(Apply(Start(original), op), After(i, put))
      && var at, g := IndexBehind(original, op, i), Apply(Start(original), op);
      && (at == |Between(g, 0, to + 1)| <==> |lines| == i + 1 - from)
      && (at > |Flatten(g)| <==> i + 1 > |original| - (to - from + 1) + |lines|)
  {
    ReplacedLength(original, from, to, lines, to + 1);
    ReplacedLength(original, from, to, lines, |original|);
    ReplacedLinesAreGone(Start(original), Replaced(from, to, lines), i, put);
  }

  /** Two lines become one; inserting behind the second of them is out of range. */
  lemma StaleIndexOutOfRange()
    ensures var op := Replaced(0, 1, ["x"]);
      && IndexBehind(["a", "b"], op, 1) == 2
      && |Flatten(Apply(Start(["a", "b"]), op))| == 1
  {
    ReplacedLength(["a", "b"], 0, 1, ["x"], 2);
  }
}
