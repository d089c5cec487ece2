/** The rendered difference of a file: every changed line, and the unchanged lines
    near a change. */
module DiffRender {
  import opened Anchors
  import opened DiffScripts
  import opened FileStates
  import opened Sequences

  /** The context that a session's edits are rendered with. */
  const DIFF_CONTEXT: nat := 2

  datatype Kind = Context | Added | Removed

  /** A rendered line with its one-based number, or the blank line of a gap. */
  datatype Entry = Line(kind: Kind, number: nat, anchor: Anchor, text: string) | Gap

  // ----- What must be shown -----

  /** The numbers from `a` on and below `b`, one-based. */
  function Numbers(a: nat, b: nat): (r: seq<nat>)
    ensures a <= b ==> |r| == b - a
  {
    if a >= b then [] else Numbers(a, b - 1) + [b]
  }

  function StartOf(op: DiffOp, before: bool): nat {
    if before then op.oldStart else op.newStart
  }

  function EndOf(op: DiffOp, before: bool): nat {
    if before then op.oldEnd else op.newEnd
  }

  /** The lines of one sequence that the first `m` steps change, in order: removed
      old lines, or added new ones. */
  function ChangedBy(ops: seq<DiffOp>, m: nat, before: bool): seq<nat>
    requires m <= |ops|
  {
    if m == 0 then []
    else
      var op := ops[m - 1];
      ChangedBy(ops, m - 1, before) + if op.tag == Equal then [] else Numbers(StartOf(op, before), EndOf(op, before))
  }

  ghost predicate Unchanged(ops: seq<DiffOp>, line: nat) {
    exists k :: 0 <= k < |ops| && InEqual(ops[k], line)
  }

  predicate InEqual(op: DiffOp, line: nat) {
    op.tag == Equal && op.newStart <= line < op.newEnd
  }

  /** A change lies at most `context` lines before or behind a new line. */
  predicate Near(op: DiffOp, context: nat, line: nat) {
    op.tag != Equal && op.newStart <= line + context && line < op.newEnd + context
  }

  ghost predicate Shown(ops: seq<DiffOp>, context: nat, line: nat) {
    Unchanged(ops, line) && exists k :: 0 <= k < |ops| && Near(ops[k], context, line)
  }

  /** The numbers of the lines below `n` that are shown as context. */
  ghost function ShownBelow(ops: seq<DiffOp>, context: nat, n: nat): seq<nat> {
    if n == 0 then []
    else ShownBelow(ops, context, n - 1) + if Shown(ops, context, n - 1) then [n] else []
  }

  lemma {:induction false} ShownStretch(ops: seq<DiffOp>, context: nat, a: nat, b: nat, shown: bool)
    requires a <= b && forall line :: a <= line < b ==> Shown(ops, context, line) == shown
    ensures ShownBelow(ops, context, b) == ShownBelow(ops, context, a) + if shown then Numbers(a, b) else []
    decreases b - a
  {
    if a < b {
      ShownStretch(ops, context, a, b - 1, shown);
    }
  }

  // ----- Where a step's lines stand -----

  lemma {:induction false} StepsAscend<T>(ops: seq<DiffOp>, a: seq<T>, b: seq<T>, m: nat, k: nat)
    requires Script(ops, a, b) && m <= k < |ops|
    ensures ops[m].newEnd <= ops[k].newEnd && NewAt(ops, m) <= ops[k].newStart
    ensures m < k ==> ops[m].newEnd <= ops[k].newStart
    decreases k - m
  {
    assert StepFits(ops, a, b, m) && StepFits(ops, a, b, k);
    if m < k {
      StepsAscend(ops, a, b, m, k - 1);
      assert StepFits(ops, a, b, k - 1);
    }
  }

  /** Lines of a change are not unchanged. */
  lemma ChangeIsNotEqual<T>(ops: seq<DiffOp>, a: seq<T>, b: seq<T>, k: nat, line: nat)
    requires Script(ops, a, b) && k < |ops| && ops[k].newStart <= line < ops[k].newEnd
    ensures Unchanged(ops, line) <==> ops[k].tag == Equal
  {
    if ops[k].tag == Equal {
      assert InEqual(ops[k], line);
    } else {
      forall j | 0 <= j < |ops| ensures !InEqual(ops[j], line) {
        if j < k { StepsAscend(ops, a, b, j, k); }
        if k < j { StepsAscend(ops, a, b, k, j); }
      }
    }
  }

  /** The change nearest to an unchanged line is right before or behind its stretch. */
  lemma ShownInStretch<T>(ops: seq<DiffOp>, a: seq<T>, b: seq<T>, context: nat, k: nat, line: nat)
    requires Script(ops, a, b) && NoAdjacentEqual(ops)
    requires k < |ops| && ops[k].tag == Equal && ops[k].newStart <= line < ops[k].newEnd
    ensures Shown(ops, context, line) <==>
      (k > 0 && line < ops[k].newStart + context) || (k < |ops| - 1 && ops[k].newEnd <= line + context)
  {
    ChangeIsNotEqual(ops, a, b, k, line);
    assert StepFits(ops, a, b, k);
    if k > 0 {
      assert Alternates(ops, k);
      assert StepFits(ops, a, b, k - 1);
      assert Near(ops[k - 1], context, line) <==> line < ops[k].newStart + context;
    }
    if k < |ops| - 1 {
      assert Alternates(ops, k + 1);
      assert StepFits(ops, a, b, k + 1);
      assert Near(ops[k + 1], context, line) <==> ops[k].newEnd <= line + context;
    }
    forall j | 0 <= j < |ops| && Near(ops[j], context, line)
      ensures (k > 0 && line < ops[k].newStart + context) || (k < |ops| - 1 && ops[k].newEnd <= line + context)
    {
      if j < k { StepsAscend(ops, a, b, j, k); }
      if k < j { StepsAscend(ops, a, b, k, j); }
    }
  }

  // ----- Rendering -----

  /** A side of the difference: the anchored lines and their texts. */
  datatype Side = Side(lines: seq<LineEntry>, texts: seq<string>)

  ghost predicate Aligned(s: Side) {
    |s.lines| == |s.texts|
  }

  /** The lines from `from` on and below `to`, rendered as one kind. */
  function LineEntries(kind: Kind, s: Side, from: nat, to: nat): (r: seq<Entry>)
    requires from <= to <= |s.lines| && Aligned(s)
    ensures |r| == to - from
  {
    seq(to - from, i requires 0 <= i < to - from =>
      Line(kind, from + i + 1, s.lines[from + i].anchor, s.texts[from + i]))
  }

  method Emit(out: seq<Entry>, kind: Kind, s: Side, from: nat, to: nat) returns (longer: seq<Entry>)
    requires from <= to <= |s.lines| && Aligned(s)
    ensures longer == out + LineEntries(kind, s, from, to)
  {
    longer := out;
    for i := from to to
      invariant longer == out + LineEntries(kind, s, from, i)
    {
      longer := longer + [Line(kind, i + 1, s.lines[i].anchor, s.texts[i])];
    }
  }

  function Min(a: nat, b: nat): nat {
    if a <= b then a else b
  }

  /** How many lines of an unchanged stretch are shown for the change before it, and
      for the one behind it. */
  function TakeStart(ops: seq<DiffOp>, context: nat, k: nat): nat
    requires k < |ops| && ops[k].newStart <= ops[k].newEnd
  {
    if k == 0 then 0 else Min(context, ops[k].newEnd - ops[k].newStart)
  }

  function TakeEnd(ops: seq<DiffOp>, context: nat, k: nat): nat
    requires k < |ops| && ops[k].newStart <= ops[k].newEnd
  {
    if k == |ops| - 1 then 0 else Min(context, ops[k].newEnd - ops[k].newStart)
  }

  /** An unchanged stretch: all of it, or its ends with a gap between them, which
      nothing marks where no line precedes it. */
  function EqualEntries(post: Side, start: nat, end: nat, takeStart: nat, takeEnd: nat): seq<Entry>
    requires start <= end <= |post.lines| && Aligned(post)
  {
    if takeStart + takeEnd >= end - start then LineEntries(Context, post, start, end)
    else EndEntries(post, start, start + takeStart, end - takeEnd, end)
  }

  function EndEntries(post: Side, start: nat, frontEnd: nat, backStart: nat, end: nat): seq<Entry>
    requires start <= frontEnd <= backStart <= end <= |post.lines| && Aligned(post)
  {
    LineEntries(Context, post, start, frontEnd)
    + (if frontEnd > start then [Gap] else [])
    + LineEntries(Context, post, backStart, end)
  }

  predicate Within(op: DiffOp, pre: Side, post: Side) {
    op.oldStart <= op.oldEnd <= |pre.lines| && op.newStart <= op.newEnd <= |post.lines|
  }

  ghost predicate Renderable(pre: Side, post: Side, ops: seq<DiffOp>) {
    && Aligned(pre) && Aligned(post)
    && Script(ops, AnchorsIn(pre.lines), AnchorsIn(post.lines)) && NoAdjacentEqual(ops)
  }

  lemma StepWithin(pre: Side, post: Side, ops: seq<DiffOp>, k: nat)
    requires Renderable(pre, post, ops) && k < |ops|
    ensures StepFits(ops, AnchorsIn(pre.lines), AnchorsIn(post.lines), k) && Within(ops[k], pre, post)
  {
    assert StepFits(ops, AnchorsIn(pre.lines), AnchorsIn(post.lines), k);
  }

  /** One step: a change shows its old lines, then its new ones. */
  ghost function StepEntries(pre: Side, post: Side, ops: seq<DiffOp>, context: nat, k: nat): seq<Entry>
    requires Renderable(pre, post, ops) && k < |ops|
  {
    StepWithin(pre, post, ops, k);
    var op := ops[k];
    if op.tag == Equal then
      EqualEntries(post, op.newStart, op.newEnd, TakeStart(ops, context, k), TakeEnd(ops, context, k))
    else LineEntries(Removed, pre, op.oldStart, op.oldEnd) + LineEntries(Added, post, op.newStart, op.newEnd)
  }

  ghost function AllSteps(pre: Side, post: Side, ops: seq<DiffOp>, context: nat): (parts: seq<seq<Entry>>)
    requires Renderable(pre, post, ops)
    ensures |parts| == |ops|
    ensures forall k :: 0 <= k < |ops| ==> parts[k] == StepEntries(pre, post, ops, context, k)
  {
    seq(|ops|, k requires 0 <= k < |ops| && Renderable(pre, post, ops) => StepEntries(pre, post, ops, context, k))
  }

  /** The first `m` parts one after the other. */
  function Joined(parts: seq<seq<Entry>>, m: nat): seq<Entry>
    requires m <= |parts|
  {
    if m == 0 then [] else Joined(parts, m - 1) + parts[m - 1]
  }

  ghost function Rendered(pre: Side, post: Side, ops: seq<DiffOp>, context: nat): seq<Entry>
    requires Renderable(pre, post, ops)
  {
    Joined(AllSteps(pre, post, ops, context), |ops|)
  }

  method RenderEqual(out: seq<Entry>, post: Side, start: nat, end: nat, takeStart: nat, takeEnd: nat)
    returns (longer: seq<Entry>)
    requires start <= end <= |post.lines| && Aligned(post)
    ensures longer == out + EqualEntries(post, start, end, takeStart, takeEnd)
  {
    if takeStart + takeEnd >= end - start {
      longer := Emit(out, Context, post, start, end);
    } else {
      longer := Emit(out, Context, post, start, start + takeStart);
      if takeStart > 0 {
        longer := longer + [Gap];
      }
      ghost var gap := if takeStart > 0 then [Gap] else [];
      Associative(out, LineEntries(Context, post, start, start + takeStart), gap);
      longer := Emit(longer, Context, post, end - takeEnd, end);
      Associative(out, LineEntries(Context, post, start, start + takeStart) + gap,
                  LineEntries(Context, post, end - takeEnd, end));
    }
  }

  method RenderChange(out: seq<Entry>, pre: Side, post: Side, op: DiffOp) returns (longer: seq<Entry>)
    requires Aligned(pre) && Aligned(post) && Within(op, pre, post) && op.tag != Equal
    requires op.tag == Delete ==> op.newStart == op.newEnd
    requires op.tag == Insert ==> op.oldStart == op.oldEnd
    ensures longer ==
      out + (LineEntries(Removed, pre, op.oldStart, op.oldEnd) + LineEntries(Added, post, op.newStart, op.newEnd))
  {
    match op.tag {
      case Delete =>
        longer := Emit(out, Removed, pre, op.oldStart, op.oldEnd);
      case Insert =>
        longer := Emit(out, Added, post, op.newStart, op.newEnd);
      case Replace =>
        longer := Emit(out, Removed, pre, op.oldStart, op.oldEnd);
        longer := Emit(longer, Added, post, op.newStart, op.newEnd);
    }
  }

  method RenderStep(out: seq<Entry>, pre: Side, post: Side, ops: seq<DiffOp>, context: nat, k: nat)
      returns (longer: seq<Entry>)
    requires Renderable(pre, post, ops) && k < |ops|
    ensures longer == out + StepEntries(pre, post, ops, context, k)
  {
    StepWithin(pre, post, ops, k);
    if ops[k].tag == Equal {
      var takeStart, takeEnd := TakeStart(ops, context, k), TakeEnd(ops, context, k);
      longer := RenderEqual(out, post, ops[k].newStart, ops[k].newEnd, takeStart, takeEnd);
    } else {
      longer := RenderChange(out, pre, post, ops[k]);
    }
  }

  /** Renders the difference that a script describes. */
  method RenderDiffBlock(pre: Side, post: Side, ops: seq<DiffOp>, context: nat) returns (out: seq<Entry>)
    requires Renderable(pre, post, ops)
    ensures out == Rendered(pre, post, ops, context)
  {
    out := [];
    ghost var parts := AllSteps(pre, post, ops, context);
    for k := 0 to |ops|
      invariant out == Joined(parts, k)
    {
      out := RenderStep(out, pre, post, ops, context, k);
    }
  }

  // ----- What is shown -----

  /** The numbers of the lines of one kind, in the order they are rendered. */
  function NumbersOf(out: seq<Entry>, kind: Kind): seq<nat> {
    NumbersIn(out, |out|, kind)
  }

  function NumbersIn(out: seq<Entry>, n: nat, kind: Kind): seq<nat>
    requires n <= |out|
  {
    if n == 0 then []
    else
      NumbersIn(out, n - 1, kind)
      + if out[n - 1].Line? && out[n - 1].kind == kind then [out[n - 1].number] else []
  }

  lemma {:induction false} NumbersInFront(a: seq<Entry>, b: seq<Entry>, n: nat, kind: Kind)
    requires n <= |a|
    ensures NumbersIn(a + b, n, kind) == NumbersIn(a, n, kind)
  {
    if n > 0 {
      NumbersInFront(a, b, n - 1, kind);
    }
  }

  lemma {:induction false} NumbersBehind(a: seq<Entry>, b: seq<Entry>, n: nat, kind: Kind)
    requires n <= |b|
    ensures NumbersIn(a + b, |a| + n, kind) == NumbersIn(a, |a|, kind) + NumbersIn(b, n, kind)
  {
    if n == 0 {
      NumbersInFront(a, b, |a|, kind);
    } else {
      NumbersBehind(a, b, n - 1, kind);
      assert (a + b)[|a| + n - 1] == b[n - 1];
    }
  }

  lemma NumbersOfConcat(a: seq<Entry>, b: seq<Entry>, kind: Kind)
    ensures NumbersOf(a + b, kind) == NumbersOf(a, kind) + NumbersOf(b, kind)
  {
    NumbersBehind(a, b, |b|, kind);
  }

  lemma {:induction false} NumbersInLines(kind: Kind, s: Side, from: nat, to: nat, n: nat, wanted: Kind)
    requires from <= from + n <= to <= |s.lines| && Aligned(s)
    ensures NumbersIn(LineEntries(kind, s, from, to), n, wanted) ==
      if kind == wanted then Numbers(from, from + n) else []
  {
    if n > 0 {
      NumbersInLines(kind, s, from, to, n - 1, wanted);
    }
  }

  lemma NumbersOfLines(kind: Kind, s: Side, from: nat, to: nat, wanted: Kind)
    requires from <= to <= |s.lines| && Aligned(s)
    ensures NumbersOf(LineEntries(kind, s, from, to), wanted) == if kind == wanted then Numbers(from, to) else []
  {
    NumbersInLines(kind, s, from, to, to - from, wanted);
  }

  lemma NumbersOfEnds(post: Side, start: nat, frontEnd: nat, backStart: nat, end: nat, kind: Kind)
    requires start <= frontEnd <= backStart <= end <= |post.lines| && Aligned(post)
    ensures NumbersOf(EndEntries(post, start, frontEnd, backStart, end), kind) ==
      if kind == Context then Numbers(start, frontEnd) + Numbers(backStart, end) else []
  {
    NumbersOfLines(Context, post, start, frontEnd, kind);
    NumbersOfLines(Context, post, backStart, end, kind);
    BothEnds(LineEntries(Context, post, start, frontEnd), LineEntries(Context, post, backStart, end), frontEnd > start,
             kind, Numbers(start, frontEnd), Numbers(backStart, end));
  }

  lemma BothEnds(front: seq<Entry>, back: seq<Entry>, gap: bool, kind: Kind, first: seq<nat>, last: seq<nat>)
    requires NumbersOf(front, kind) == if Context == kind then first else []
    requires NumbersOf(back, kind) == if Context == kind then last else []
    ensures NumbersOf(front + (if gap then [Gap] else []) + back, kind) == if kind == Context then first + last else []
  {
    NumbersAroundGap(front, if gap then [Gap] else [], back, kind);
  }

  lemma NumbersAroundGap(a: seq<Entry>, gap: seq<Entry>, b: seq<Entry>, kind: Kind)
    requires gap == [] || gap == [Gap]
    ensures NumbersOf(a + gap + b, kind) == NumbersOf(a, kind) + NumbersOf(b, kind)
  {
    if gap != [] {
      assert gap[0] == Gap && NumbersIn(gap, 0, kind) == [];
    }
    NumbersOfConcat(a, gap, kind);
    NumbersOfConcat(a + gap, b, kind);
    assert NumbersOf(a, kind) + [] == NumbersOf(a, kind);
  }

  /** The numbers of a kind that the first `m` steps must show. */
  ghost function Due(ops: seq<DiffOp>, context: nat, m: nat, kind: Kind): seq<nat>
    requires m <= |ops|
  {
    match kind
    case Removed => ChangedBy(ops, m, true)
    case Added => ChangedBy(ops, m, false)
    case Context => ShownBelow(ops, context, NewAt(ops, m))
  }

  /** The numbers of a kind that one step must show. */
  function StepDue(ops: seq<DiffOp>, context: nat, k: nat, kind: Kind): seq<nat>
    requires k < |ops| && ops[k].newStart <= ops[k].newEnd
  {
    var op := ops[k];
    match kind
    case Removed => if op.tag == Equal then [] else Numbers(op.oldStart, op.oldEnd)
    case Added => if op.tag == Equal then [] else Numbers(op.newStart, op.newEnd)
    case Context =>
      if op.tag != Equal then []
      else
        var takeStart, takeEnd := TakeStart(ops, context, k), TakeEnd(ops, context, k);
        if takeStart + takeEnd >= op.newEnd - op.newStart then Numbers(op.newStart, op.newEnd)
        else Numbers(op.newStart, op.newStart + takeStart) + Numbers(op.newEnd - takeEnd, op.newEnd)
  }

  lemma NumbersOfEqual(post: Side, ops: seq<DiffOp>, context: nat, k: nat, kind: Kind)
    requires Aligned(post) && k < |ops| && ops[k].tag == Equal && ops[k].newStart <= ops[k].newEnd <= |post.lines|
    ensures NumbersOf(EqualEntries(post, ops[k].newStart, ops[k].newEnd,
                                   TakeStart(ops, context, k), TakeEnd(ops, context, k)), kind)
         == StepDue(ops, context, k, kind)
  {
    var start, end := ops[k].newStart, ops[k].newEnd;
    var takeStart, takeEnd := TakeStart(ops, context, k), TakeEnd(ops, context, k);
    if takeStart + takeEnd >= end - start {
      NumbersOfLines(Context, post, start, end, kind);
    } else {
      NumbersOfEnds(post, start, start + takeStart, end - takeEnd, end, kind);
    }
  }

  lemma NumbersOfChange(pre: Side, post: Side, op: DiffOp, kind: Kind)
    requires Aligned(pre) && Aligned(post) && Within(op, pre, post)
    ensures NumbersOf(LineEntries(Removed, pre, op.oldStart, op.oldEnd)
                      + LineEntries(Added, post, op.newStart, op.newEnd), kind)
         == match kind
            case Removed => Numbers(op.oldStart, op.oldEnd)
            case Added => Numbers(op.newStart, op.newEnd)
            case Context => []
  {
    var a, b := LineEntries(Removed, pre, op.oldStart, op.oldEnd), LineEntries(Added, post, op.newStart, op.newEnd);
    NumbersOfLines(Removed, pre, op.oldStart, op.oldEnd, kind);
    NumbersOfLines(Added, post, op.newStart, op.newEnd, kind);
    NumbersOfConcat(a, b, kind);
  }

  /** A step shows what it must. */
  lemma NumbersOfStep(pre: Side, post: Side, ops: seq<DiffOp>, context: nat, k: nat, kind: Kind)
    requires Renderable(pre, post, ops) && k < |ops| && Within(ops[k], pre, post)
    ensures NumbersOf(StepEntries(pre, post, ops, context, k), kind) == StepDue(ops, context, k, kind)
  {
    if ops[k].tag == Equal {
      NumbersOfEqual(post, ops, context, k, kind);
    } else {
      NumbersOfChange(pre, post, ops[k], kind);
    }
  }

  /** What must be shown grows by what the step must show. */
  lemma DueGrows<T>(ops: seq<DiffOp>, a: seq<T>, b: seq<T>, context: nat, k: nat, kind: Kind)
    requires Script(ops, a, b) && NoAdjacentEqual(ops) && k < |ops| && ops[k].newStart <= ops[k].newEnd
    ensures Due(ops, context, k + 1, kind) == Due(ops, context, k, kind) + StepDue(ops, context, k, kind)
  {
    assert StepFits(ops, a, b, k);
    if kind == Context {
      if ops[k].tag == Equal {
        EqualStretch(ops, a, b, context, k);
      } else {
        ChangeShowsNothing(ops, a, b, context, k);
      }
    }
  }

  lemma ChangeShowsNothing<T>(ops: seq<DiffOp>, a: seq<T>, b: seq<T>, context: nat, k: nat)
    requires Script(ops, a, b) && k < |ops| && ops[k].tag != Equal
    ensures ShownBelow(ops, context, ops[k].newEnd) == ShownBelow(ops, context, ops[k].newStart)
  {
    assert StepFits(ops, a, b, k);
    forall line | ops[k].newStart <= line < ops[k].newEnd ensures !Shown(ops, context, line) {
      ChangeIsNotEqual(ops, a, b, k, line);
    }
    ShownStretch(ops, context, ops[k].newStart, ops[k].newEnd, false);
  }

  /** Which lines of an unchanged stretch are near a change. */
  lemma EqualStretch<T>(ops: seq<DiffOp>, a: seq<T>, b: seq<T>, context: nat, k: nat)
    requires Script(ops, a, b) && NoAdjacentEqual(ops) && k < |ops| && ops[k].tag == Equal
    requires ops[k].newStart <= ops[k].newEnd
    ensures var start, end := ops[k].newStart, ops[k].newEnd;
      var takeStart, takeEnd := TakeStart(ops, context, k), TakeEnd(ops, context, k);
      ShownBelow(ops, context, end) == ShownBelow(ops, context, start) +
        if takeStart + takeEnd >= end - start then Numbers(start, end)
        else Numbers(start, start + takeStart) + Numbers(end - takeEnd, end)
  {
    var start, end := ops[k].newStart, ops[k].newEnd;
    var takeStart, takeEnd := TakeStart(ops, context, k), TakeEnd(ops, context, k);
    forall line | start <= line < end
      ensures Shown(ops, context, line) <==> line < start + takeStart || end <= line + takeEnd
    {
      ShownInStretch(ops, a, b, context, k, line);
    }
    EndsShown(ops, context, start, end, takeStart, takeEnd);
  }

  lemma EndsShown(ops: seq<DiffOp>, context: nat, start: nat, end: nat, takeStart: nat, takeEnd: nat)
    requires start <= end
    requires forall line :: start <= line < end ==>
      (Shown(ops, context, line) <==> line < start + takeStart || end <= line + takeEnd)
    ensures ShownBelow(ops, context, end) == ShownBelow(ops, context, start) +
      if takeStart + takeEnd >= end - start then Numbers(start, end)
      else Numbers(start, start + takeStart) + Numbers(end - takeEnd, end)
  {
    if takeStart + takeEnd >= end - start {
      ShownStretch(ops, context, start, end, true);
    } else {
      ShownStretch(ops, context, start, start + takeStart, true);
      ShownStretch(ops, context, start + takeStart, end - takeEnd, false);
      ShownStretch(ops, context, end - takeEnd, end, true);
    }
  }

  ghost predicate PartDue(parts: seq<seq<Entry>>, due: seq<seq<nat>>, k: nat, kind: Kind)
    requires k < |parts| && |due| == |parts| + 1
  {
    due[k + 1] == due[k] + NumbersOf(parts[k], kind)
  }

  lemma {:induction false} JoinedNumbers(parts: seq<seq<Entry>>, due: seq<seq<nat>>, m: nat, kind: Kind)
    requires m <= |parts| && |due| == |parts| + 1 && due[0] == []
    requires forall k :: 0 <= k < |parts| ==> PartDue(parts, due, k, kind)
    ensures NumbersOf(Joined(parts, m), kind) == due[m]
    decreases m
  {
    if m > 0 {
      JoinedNumbers(parts, due, m - 1, kind);
      assert PartDue(parts, due, m - 1, kind);
      NumbersOfConcat(Joined(parts, m - 1), parts[m - 1], kind);
    }
  }

  ghost function AllDue(ops: seq<DiffOp>, context: nat, kind: Kind): (due: seq<seq<nat>>)
    ensures |due| == |ops| + 1 && forall m :: 0 <= m <= |ops| ==> due[m] == Due(ops, context, m, kind)
  {
    seq(|ops| + 1, m requires 0 <= m <= |ops| => Due(ops, context, m, kind))
  }

  lemma StepIsDue(pre: Side, post: Side, ops: seq<DiffOp>, context: nat, k: nat, kind: Kind)
    requires Renderable(pre, post, ops) && k < |ops|
    ensures Due(ops, context, k + 1, kind)
         == Due(ops, context, k, kind) + NumbersOf(StepEntries(pre, post, ops, context, k), kind)
  {
    StepWithin(pre, post, ops, k);
    DueGrows(ops, AnchorsIn(pre.lines), AnchorsIn(post.lines), context, k, kind);
    NumbersOfStep(pre, post, ops, context, k, kind);
  }

  /** The rendered numbers of each kind are those that must be shown. */
  lemma RenderedNumbers(pre: Side, post: Side, ops: seq<DiffOp>, context: nat, kind: Kind)
    requires Renderable(pre, post, ops)
    ensures NumbersOf(Rendered(pre, post, ops, context), kind) == Due(ops, context, |ops|, kind)
  {
    var parts, due := AllSteps(pre, post, ops, context), AllDue(ops, context, kind);
    forall k | 0 <= k < |parts| ensures PartDue(parts, due, k, kind) {
      StepIsDue(pre, post, ops, context, k, kind);
    }
    JoinedNumbers(parts, due, |ops|, kind);
  }

  /** Every changed line is shown, once and in order. */
  lemma ChangesAreShown(pre: Side, post: Side, ops: seq<DiffOp>, context: nat, before: bool)
    requires Renderable(pre, post, ops)
    ensures var numbers := NumbersOf(Rendered(pre, post, ops, context), if before then Removed else Added);
      && Ascending(numbers)
      && forall n :: n in numbers <==> n > 0 && InChange(ops, n - 1, |ops|, before)
  {
    RenderedNumbers(pre, post, ops, context, if before then Removed else Added);
    ChangedAre(ops, AnchorsIn(pre.lines), AnchorsIn(post.lines), |ops|, before);
  }

  /** Of the unchanged lines exactly those near a change are shown, once and in order. */
  lemma ContextIsShown(pre: Side, post: Side, ops: seq<DiffOp>, context: nat)
    requires Renderable(pre, post, ops)
    ensures var numbers := NumbersOf(Rendered(pre, post, ops, context), Context);
      && Ascending(numbers)
      && forall n :: n in numbers <==> 0 < n <= |post.lines| && Shown(ops, context, n - 1)
  {
    RenderedNumbers(pre, post, ops, context, Context);
    ShownAre(ops, context, |post.lines|);
  }

  // ----- What the numbers say -----

  ghost predicate Ascending(numbers: seq<nat>) {
    forall i, j :: 0 <= i < j < |numbers| ==> numbers[i] < numbers[j]
  }

  lemma {:induction false} NumbersAre(a: nat, b: nat)
    ensures Ascending(Numbers(a, b)) && forall n :: n in Numbers(a, b) <==> a < n <= b
    decreases b
  {
    if a < b {
      NumbersAre(a, b - 1);
      AscendingConcat(Numbers(a, b - 1), [b], b - 1);
    }
  }

  lemma AscendingConcat(x: seq<nat>, y: seq<nat>, bound: nat)
    requires Ascending(x) && Ascending(y)
    requires forall n :: n in x ==> n <= bound
    requires forall n :: n in y ==> bound < n
    ensures Ascending(x + y)
  {
    forall i, j | 0 <= i < j < |x + y| ensures (x + y)[i] < (x + y)[j] {
      if i < |x| && |x| <= j {
        assert x[i] in x && y[j - |x|] in y;
      }
    }
  }

  ghost predicate InChange(ops: seq<DiffOp>, line: nat, m: nat, before: bool)
    requires m <= |ops|
  {
    exists k :: 0 <= k < m && OpChanges(ops[k], line, before)
  }

  predicate OpChanges(op: DiffOp, line: nat, before: bool) {
    op.tag != Equal && StartOf(op, before) <= line < EndOf(op, before)
  }

  function Reached(ops: seq<DiffOp>, m: nat, before: bool): nat
    requires m <= |ops|
  {
    if before then OldAt(ops, m) else NewAt(ops, m)
  }

  /** Removed lines, and added ones, come in ascending order, so each once, and are
      exactly the lines of their sequence that no equal stretch keeps. */
  lemma {:induction false} ChangedAre<T>(ops: seq<DiffOp>, a: seq<T>, b: seq<T>, m: nat, before: bool)
    requires Script(ops, a, b) && m <= |ops|
    ensures Ascending(ChangedBy(ops, m, before))
    ensures forall n :: n in ChangedBy(ops, m, before) ==> n <= Reached(ops, m, before)
    ensures forall n :: n in ChangedBy(ops, m, before) <==> n > 0 && InChange(ops, n - 1, m, before)
    decreases m
  {
    if m > 0 {
      var op := ops[m - 1];
      assert StepFits(ops, a, b, m - 1);
      ChangedAre(ops, a, b, m - 1, before);
      NumbersAre(StartOf(op, before), EndOf(op, before));
      var more := if op.tag == Equal then [] else Numbers(StartOf(op, before), EndOf(op, before));
      AscendingConcat(ChangedBy(ops, m - 1, before), more, Reached(ops, m - 1, before));
      forall n ensures n in ChangedBy(ops, m, before) <==> n > 0 && InChange(ops, n - 1, m, before) {
        if n > 0 {
          assert InChange(ops, n - 1, m, before) <==>
            InChange(ops, n - 1, m - 1, before) || OpChanges(op, n - 1, before);
        }
      }
    }
  }

  /** Context lines come in ascending order, and are exactly the unchanged lines near
      a change. */
  lemma {:induction false} ShownAre(ops: seq<DiffOp>, context: nat, n: nat)
    ensures Ascending(ShownBelow(ops, context, n))
    ensures forall x :: x in ShownBelow(ops, context, n) <==> 0 < x <= n && Shown(ops, context, x - 1)
  {
    if n > 0 {
      ShownAre(ops, context, n - 1);
      var more := if Shown(ops, context, n - 1) then [n] else [];
      AscendingConcat(ShownBelow(ops, context, n - 1), more, n - 1);
    }
  }
}
