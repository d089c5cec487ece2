/** What a list of line edits means, independently of how positions are tracked:
    every original line owns a slot with the text before it, the line itself (or
    what replaced it), and the text after it. */
module GapModel {

  /** Where an output line came from. */
  datatype LineOrigin = Carried(index: nat) | Inserted

  datatype Cell = Cell(text: string, origin: LineOrigin)

  datatype Slot = Slot(pre: seq<Cell>, body: seq<Cell>, post: seq<Cell>) {
    function Cells(): seq<Cell> {
      pre + body + post
    }
  }

  /** An edit whose anchors have been resolved to original line numbers. */
  datatype LineOp =
    | After(pin: nat, lines: seq<string>)
    | Before(pin: nat, lines: seq<string>)
    | Replaced(from: nat, to: nat, lines: seq<string>)

  function NewCells(lines: seq<string>): (cells: seq<Cell>)
    ensures |cells| == |lines|
  {
    seq(|lines|, i requires 0 <= i < |lines| => Cell(lines[i], Inserted))
  }

  function Start(original: seq<string>): (g: seq<Slot>)
    ensures |g| == |original|
  {
    seq(|original|, i requires 0 <= i < |original| => Slot([], [Cell(original[i], Carried(i))], []))
  }

  predicate Live(g: seq<Slot>, i: nat) {
    i < |g| && |g[i].body| == 1 && g[i].body[0].origin == Carried(i)
  }

  /** The lines an edit names are still there, and a range runs forwards. */
  predicate Enabled(g: seq<Slot>, op: LineOp) {
    match op
    case After(pin, _) => Live(g, pin)
    case Before(pin, _) => Live(g, pin)
    case Replaced(from, to, _) => from <= to && Live(g, from) && Live(g, to)
  }

  /** The slot `i` of a file after an edit. */
  function SlotAfter(slot: Slot, op: LineOp, i: nat): Slot {
    match op
    case After(pin, lines) =>
      if i == pin then slot.(post := NewCells(lines) + slot.post) else slot
    case Before(pin, lines) =>
      if i == pin then slot.(pre := slot.pre + NewCells(lines)) else slot
    case Replaced(from, to, lines) =>
      if from <= i <= to then
        Slot(if i == from then slot.pre else [],
             if i == from then NewCells(lines) else [],
             if i == to then slot.post else [])
      else slot
  }

  function Apply(g: seq<Slot>, op: LineOp): (g': seq<Slot>)
    ensures |g'| == |g| && forall i :: 0 <= i < |g| ==> g'[i] == SlotAfter(g[i], op, i)
  {
    seq(|g|, i requires 0 <= i < |g| => SlotAfter(g[i], op, i))
  }

  predicate Executable(g: seq<Slot>, ops: seq<LineOp>)
    decreases |ops|
  {
    ops == [] || (Enabled(g, ops[0]) && Executable(Apply(g, ops[0]), ops[1..]))
  }

  function Run(g: seq<Slot>, ops: seq<LineOp>): (g': seq<Slot>)
    ensures |g'| == |g|
    decreases |ops|
  {
    if ops == [] then g else Run(Apply(g, ops[0]), ops[1..])
  }

  /** The cells of slots `i` to `j - 1`, in order. */
  function Between(g: seq<Slot>, i: nat, j: nat): seq<Cell>
    requires i <= j <= |g|
  {
    if i == j then [] else Between(g, i, j - 1) + g[j - 1].Cells()
  }

  function Flatten(g: seq<Slot>): seq<Cell> {
    Between(g, 0, |g|)
  }

  /** The number of cells in front of line `i` itself. */
  function CellsBefore(g: seq<Slot>, i: nat): nat
    requires i < |g|
  {
    |Between(g, 0, i)| + |g[i].pre|
  }

  function Texts(cells: seq<Cell>): (texts: seq<string>)
    ensures |texts| == |cells|
  {
    seq(|cells|, i requires 0 <= i < |cells| => cells[i].text)
  }

  function Origins(cells: seq<Cell>): (origins: seq<LineOrigin>)
    ensures |origins| == |cells|
  {
    seq(|cells|, i requires 0 <= i < |cells| => cells[i].origin)
  }

  // ----- Flattening and splicing -----

  function Splice<T>(s: seq<T>, from: nat, to: nat, put: seq<T>): seq<T>
    requires from <= to <= |s|
  {
    s[..from] + put + s[to..]
  }

  lemma {:induction false} BetweenSplit(g: seq<Slot>, i: nat, j: nat, k: nat)
    requires i <= j <= k <= |g|
    ensures Between(g, i, k) == Between(g, i, j) + Between(g, j, k)
  {
    if j < k {
      BetweenSplit(g, i, j, k - 1);
    }
  }

  lemma {:induction false} BetweenAgree(g: seq<Slot>, g': seq<Slot>, i: nat, j: nat)
    requires i <= j <= |g| == |g'|
    requires forall k :: i <= k < j ==> g[k] == g'[k]
    ensures Between(g, i, j) == Between(g', i, j)
  {
    if i < j {
      BetweenAgree(g, g', i, j - 1);
    }
  }

  /** The first `j` slots around slot `i`. */
  lemma BetweenAt(g: seq<Slot>, i: nat, j: nat)
    requires i < j <= |g|
    ensures Between(g, 0, j) == Between(g, 0, i) + g[i].Cells() + Between(g, i + 1, j)
  {
    BetweenSplit(g, 0, i + 1, j);
  }

  lemma InsertBetween<T>(a: seq<T>, pre: seq<T>, body: seq<T>, post: seq<T>, z: seq<T>, put: seq<T>)
    ensures a + (pre + body + (put + post)) + z
         == Splice(a + (pre + body + post) + z, |a| + |pre| + |body|, |a| + |pre| + |body|, put)
  {
  }

  lemma InsertInFront<T>(a: seq<T>, pre: seq<T>, body: seq<T>, post: seq<T>, z: seq<T>, put: seq<T>)
    ensures a + (pre + put + body + post) + z
         == Splice(a + (pre + body + post) + z, |a| + |pre|, |a| + |pre|, put)
  {
  }

  /** The first `j` slots when only slot `pin` changes. */
  lemma PinnedBetween(g: seq<Slot>, g': seq<Slot>, pin: nat, j: nat)
    requires pin < j <= |g| == |g'| && forall k :: 0 <= k < |g| && k != pin ==> g'[k] == g[k]
    ensures Between(g', 0, j) == Between(g, 0, pin) + g'[pin].Cells() + Between(g, pin + 1, j)
  {
    BetweenAt(g', pin, j);
    BetweenAgree(g, g', 0, pin);
    BetweenAgree(g, g', pin + 1, j);
  }

  /** Inserting after line `pin`, seen on the first `j` slots. */
  lemma AfterSplices(g: seq<Slot>, pin: nat, lines: seq<string>, j: nat)
    requires Live(g, pin) && pin < j <= |g|
    ensures CellsBefore(g, pin) + 1 <= |Between(g, 0, j)|
    ensures Between(Apply(g, After(pin, lines)), 0, j)
         == Splice(Between(g, 0, j), CellsBefore(g, pin) + 1, CellsBefore(g, pin) + 1, NewCells(lines))
  {
    var g', slot := Apply(g, After(pin, lines)), g[pin];
    BetweenAt(g, pin, j);
    PinnedBetween(g, g', pin, j);
    assert g'[pin].Cells() == slot.pre + slot.body + (NewCells(lines) + slot.post);
    InsertBetween(Between(g, 0, pin), slot.pre, slot.body, slot.post, Between(g, pin + 1, j), NewCells(lines));
  }

  /** Inserting before line `pin`, seen on the first `j` slots. */
  lemma BeforeSplices(g: seq<Slot>, pin: nat, lines: seq<string>, j: nat)
    requires Live(g, pin) && pin < j <= |g|
    ensures CellsBefore(g, pin) <= |Between(g, 0, j)|
    ensures Between(Apply(g, Before(pin, lines)), 0, j)
         == Splice(Between(g, 0, j), CellsBefore(g, pin), CellsBefore(g, pin), NewCells(lines))
  {
    var g', slot := Apply(g, Before(pin, lines)), g[pin];
    BetweenAt(g, pin, j);
    PinnedBetween(g, g', pin, j);
    assert g'[pin].Cells() == slot.pre + NewCells(lines) + slot.body + slot.post;
    InsertInFront(Between(g, 0, pin), slot.pre, slot.body, slot.post, Between(g, pin + 1, j), NewCells(lines));
  }

  /** Cleared slots contribute nothing. */
  lemma {:induction false} ClearedBetween(g: seq<Slot>, i: nat, j: nat)
    requires i <= j <= |g| && forall k :: i <= k < j ==> g[k] == Slot([], [], [])
    ensures Between(g, i, j) == []
  {
    if i < j {
      ClearedBetween(g, i, j - 1);
      assert g[j - 1].Cells() == [];
    }
  }

  /** A sequence cut once before and once after a removed stretch. */
  lemma ReplaceBetween<T>(s: seq<T>, left: seq<T>, mid: seq<T>, mid': seq<T>, right: seq<T>, put: seq<T>)
    requires s == left + mid && s == mid' + right && |left| <= |mid'|
    ensures Splice(s, |left|, |mid'|, put) == left + put + right
  {
    assert s[..|left|] == left && s[|mid'|..] == right;
  }

  lemma Regroup<T>(a: seq<T>, pre: seq<T>, body: seq<T>, post: seq<T>, z: seq<T>)
    ensures a + (pre + body + post) + z == (a + pre) + (body + post + z)
    ensures a + (pre + body + post) + z == (a + pre + body) + (post + z)
  {
  }

  /** What a replacement leaves on the first `j` slots. */
  lemma ReplacedBetween(g: seq<Slot>, from: nat, to: nat, lines: seq<string>, j: nat)
    requires Enabled(g, Replaced(from, to, lines)) && to < j <= |g|
    ensures Between(Apply(g, Replaced(from, to, lines)), 0, j)
         == Between(g, 0, from) + g[from].pre + NewCells(lines) + (g[to].post + Between(g, to + 1, j))
  {
    var op := Replaced(from, to, lines);
    var g', put, rest := Apply(g, op), NewCells(lines), Between(g, to + 1, j);
    var last := if from == to then g[to].post else [];
    assert Between(g', 0, j) == Between(g, 0, from) + (g[from].pre + put + last) + Between(g', from + 1, j) by {
      BetweenAt(g', from, j);
      BetweenAgree(g, g', 0, from);
    }
    assert Between(g', from + 1, j) == (if from == to then [] else g[to].post) + rest by {
      BetweenAgree(g, g', to + 1, j);
      if from < to {
        BetweenSplit(g', from + 1, to + 1, j);
        ClearedBetween(g', from + 1, to);
        assert g'[to].Cells() == g[to].post;
      }
    }
    Regroup(Between(g, 0, from), g[from].pre, put, last, Between(g', from + 1, j));
    assert last + Between(g', from + 1, j) == g[to].post + rest;
  }

  /** Replacing a range, seen on the first `j` slots. */
  lemma ReplacedSplices(g: seq<Slot>, from: nat, to: nat, lines: seq<string>, j: nat)
    requires Enabled(g, Replaced(from, to, lines)) && to < j <= |g|
    ensures CellsBefore(g, from) <= CellsBefore(g, to) < |Between(g, 0, j)|
    ensures Between(Apply(g, Replaced(from, to, lines)), 0, j)
         == Splice(Between(g, 0, j), CellsBefore(g, from), CellsBefore(g, to) + 1, NewCells(lines))
  {
    if from < to { LinesInOrder(g, from, to); }
    var toFrom, fromOn := Between(g, 0, from) + g[from].pre, g[from].body + g[from].post + Between(g, from + 1, j);
    var throughTo, afterTo := Between(g, 0, to) + g[to].pre + g[to].body, g[to].post + Between(g, to + 1, j);
    assert Between(g, 0, j) == toFrom + fromOn by {
      BetweenAt(g, from, j);
      Regroup(Between(g, 0, from), g[from].pre, g[from].body, g[from].post, Between(g, from + 1, j));
    }
    assert Between(g, 0, j) == throughTo + afterTo by {
      BetweenAt(g, to, j);
      Regroup(Between(g, 0, to), g[to].pre, g[to].body, g[to].post, Between(g, to + 1, j));
    }
    ReplacedBetween(g, from, to, lines, j);
    ReplaceBetween(Between(g, 0, j), toFrom, fromOn, throughTo, afterTo, NewCells(lines));
  }

  lemma LinesInOrder(g: seq<Slot>, i: nat, j: nat)
    requires i < j < |g|
    ensures CellsBefore(g, i) + |g[i].body| <= CellsBefore(g, j)
  {
    BetweenAt(g, i, j);
  }
}
