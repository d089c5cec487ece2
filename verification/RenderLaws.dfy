/** What stands where in a rendered difference. */
module RenderLaws {
  import opened DiffScripts
  import opened FileStates
  import opened DiffRender

  /** A rendered line is the line of its number: of the old file if it was removed, and
      of the new one otherwise. */
  ghost predicate OfItsSide(e: Entry, pre: Side, post: Side)
    requires Aligned(pre) && Aligned(post)
  {
    e.Line? ==>
      var side := if e.kind == Removed then pre else post;
      && 1 <= e.number <= |side.lines|
      && e.anchor == side.lines[e.number - 1].anchor
      && e.text == side.texts[e.number - 1]
  }

  ghost predicate AllTheirs(entries: seq<Entry>, pre: Side, post: Side)
    requires Aligned(pre) && Aligned(post)
  {
    forall i :: 0 <= i < |entries| ==> OfItsSide(entries[i], pre, post)
  }

  lemma TheirsConcat(a: seq<Entry>, b: seq<Entry>, pre: Side, post: Side)
    requires Aligned(pre) && Aligned(post) && AllTheirs(a, pre, post) && AllTheirs(b, pre, post)
    ensures AllTheirs(a + b, pre, post)
  {
  }

  lemma LineEntriesAreTheirs(pre: Side, post: Side, kind: Kind, from: nat, to: nat)
    requires Aligned(pre) && Aligned(post)
    requires from <= to <= |(if kind == Removed then pre else post).lines|
    ensures AllTheirs(LineEntries(kind, if kind == Removed then pre else post, from, to), pre, post)
  {
  }

  lemma EqualIsTheirs(pre: Side, post: Side, start: nat, end: nat, takeStart: nat, takeEnd: nat)
    requires Aligned(pre) && Aligned(post) && start <= end <= |post.lines|
    ensures AllTheirs(EqualEntries(post, start, end, takeStart, takeEnd), pre, post)
  {
    if takeStart + takeEnd >= end - start {
      LineEntriesAreTheirs(pre, post, Context, start, end);
    } else {
      var gap := if takeStart > 0 then [Gap] else [];
      LineEntriesAreTheirs(pre, post, Context, start, start + takeStart);
      LineEntriesAreTheirs(pre, post, Context, end - takeEnd, end);
      TheirsConcat(LineEntries(Context, post, start, start + takeStart), gap, pre, post);
      TheirsConcat(LineEntries(Context, post, start, start + takeStart) + gap,
                   LineEntries(Context, post, end - takeEnd, end), pre, post);
    }
  }

  lemma StepIsTheirs(pre: Side, post: Side, ops: seq<DiffOp>, context: nat, k: nat)
    requires Renderable(pre, post, ops) && k < |ops|
    ensures AllTheirs(StepEntries(pre, post, ops, context, k), pre, post)
  {
    StepWithin(pre, post, ops, k);
    var op := ops[k];
    if op.tag == Equal {
      EqualIsTheirs(pre, post, op.newStart, op.newEnd, TakeStart(ops, context, k), TakeEnd(ops, context, k));
    } else {
      LineEntriesAreTheirs(pre, post, Removed, op.oldStart, op.oldEnd);
      LineEntriesAreTheirs(pre, post, Added, op.newStart, op.newEnd);
      TheirsConcat(LineEntries(Removed, pre, op.oldStart, op.oldEnd),
                   LineEntries(Added, post, op.newStart, op.newEnd), pre, post);
    }
  }

  lemma {:induction false} JoinedIsTheirs(parts: seq<seq<Entry>>, m: nat, pre: Side, post: Side)
    requires Aligned(pre) && Aligned(post) && m <= |parts|
    requires forall k :: 0 <= k < |parts| ==> AllTheirs(parts[k], pre, post)
    ensures AllTheirs(Joined(parts, m), pre, post)
  {
    if m > 0 {
      JoinedIsTheirs(parts, m - 1, pre, post);
      TheirsConcat(Joined(parts, m - 1), parts[m - 1], pre, post);
    }
  }

  lemma RenderedLinesAreTheirs(pre: Side, post: Side, ops: seq<DiffOp>, context: nat)
    requires Renderable(pre, post, ops)
    ensures AllTheirs(Rendered(pre, post, ops, context), pre, post)
  {
    var parts := AllSteps(pre, post, ops, context);
    forall k | 0 <= k < |parts| ensures AllTheirs(parts[k], pre, post) {
      StepIsTheirs(pre, post, ops, context, k);
    }
    JoinedIsTheirs(parts, |ops|, pre, post);
  }

  // ----- Where a step is -----

  lemma {:induction false} JoinedSplits(parts: seq<seq<Entry>>, k: nat, m: nat) returns (rest: seq<Entry>)
    requires k < m <= |parts|
    ensures Joined(parts, m) == Joined(parts, k) + parts[k] + rest
  {
    if k == m - 1 {
      rest := [];
      assert Joined(parts, m) + [] == Joined(parts, m);
    } else {
      var before := JoinedSplits(parts, k, m - 1);
      rest := before + parts[m - 1];
      assert Joined(parts, k) + parts[k] + before + parts[m - 1] == Joined(parts, k) + parts[k] + rest;
    }
  }

  /** The entries from `p` on are lines `from` to `to` of one side, in order. */
  ghost predicate LinesAt(out: seq<Entry>, p: nat, kind: Kind, side: Side, from: nat, to: nat)
    requires from <= to <= |side.lines| && Aligned(side)
  {
    && p + (to - from) <= |out|
    && forall line :: from <= line < to ==>
         out[p + (line - from)] == Line(kind, line + 1, side.lines[line].anchor, side.texts[line])
  }

  lemma EntriesAt(before: seq<Entry>, kind: Kind, side: Side, from: nat, to: nat, rest: seq<Entry>)
    requires from <= to <= |side.lines| && Aligned(side)
    ensures LinesAt(before + LineEntries(kind, side, from, to) + rest, |before|, kind, side, from, to)
  {
    forall line | from <= line < to
      ensures (before + LineEntries(kind, side, from, to) + rest)[|before| + (line - from)]
           == Line(kind, line + 1, side.lines[line].anchor, side.texts[line])
    {
      assert LineEntries(kind, side, from, to)[line - from]
          == Line(kind, line + 1, side.lines[line].anchor, side.texts[line]);
    }
  }

  lemma ChangeAt(before: seq<Entry>, pre: Side, post: Side, op: DiffOp, rest: seq<Entry>)
    requires Aligned(pre) && Aligned(post) && Within(op, pre, post)
    ensures var removed := LineEntries(Removed, pre, op.oldStart, op.oldEnd);
      var added := LineEntries(Added, post, op.newStart, op.newEnd);
      var out := before + (removed + added) + rest;
      && LinesAt(out, |before|, Removed, pre, op.oldStart, op.oldEnd)
      && LinesAt(out, |before| + (op.oldEnd - op.oldStart), Added, post, op.newStart, op.newEnd)
  {
    var removed := LineEntries(Removed, pre, op.oldStart, op.oldEnd);
    var added := LineEntries(Added, post, op.newStart, op.newEnd);
    assert before + (removed + added) + rest == before + removed + (added + rest);
    EntriesAt(before, Removed, pre, op.oldStart, op.oldEnd, added + rest);
    assert before + (removed + added) + rest == (before + removed) + added + rest;
    EntriesAt(before + removed, Added, post, op.newStart, op.newEnd, rest);
  }

  /** Between two places stands a change in one piece: its old lines, then its new ones. */
  ghost predicate ChangeBetween(out: seq<Entry>, p: nat, q: nat, pre: Side, post: Side, op: DiffOp)
    requires Aligned(pre) && Aligned(post) && Within(op, pre, post)
  {
    var removed := op.oldEnd - op.oldStart;
    && LinesAt(out, p, Removed, pre, op.oldStart, op.oldEnd)
    && LinesAt(out, p + removed, Added, post, op.newStart, op.newEnd)
    && q == p + removed + (op.newEnd - op.newStart)
  }

  /** Between two places stand the first `front` and the last `back` lines of an unchanged
      stretch, with a gap between them if lines are left out behind others. */
  ghost predicate StretchBetween(out: seq<Entry>, p: nat, q: nat, post: Side, start: nat, end: nat, front: nat,
                                 back: nat)
    requires start + front + back <= end <= |post.lines| && Aligned(post)
  {
    var gap := if start + front + back < end && front > 0 then 1 else 0;
    && LinesAt(out, p, Context, post, start, start + front)
    && (gap == 1 ==> p + front < |out| && out[p + front] == Gap)
    && LinesAt(out, p + front + gap, Context, post, end - back, end)
    && q == p + front + gap + back
  }

  lemma Regroup<T>(before: seq<T>, front: seq<T>, gap: seq<T>, back: seq<T>, rest: seq<T>)
    ensures before + (front + gap + back) + rest == before + front + (gap + back + rest)
    ensures before + (front + gap + back) + rest == (before + front + gap) + back + rest
    ensures |before + (front + gap + back)| == |before + front + gap| + |back|
    ensures gap != [] ==> (before + (front + gap + back) + rest)[|before| + |front|] == gap[0]
  {
  }

  lemma EndsAt(before: seq<Entry>, post: Side, start: nat, frontEnd: nat, backStart: nat, end: nat, rest: seq<Entry>)
    requires start <= frontEnd < backStart <= end <= |post.lines| && Aligned(post)
    ensures var part := EndEntries(post, start, frontEnd, backStart, end);
      StretchBetween(before + part + rest, |before|, |before + part|, post, start, end, frontEnd - start,
                     end - backStart)
  {
    var front, back := LineEntries(Context, post, start, frontEnd), LineEntries(Context, post, backStart, end);
    var gap := if frontEnd > start then [Gap] else [];
    var out := before + (front + gap + back) + rest;
    Regroup(before, front, gap, back, rest);
    assert LinesAt(out, |before|, Context, post, start, frontEnd) by {
      EntriesAt(before, Context, post, start, frontEnd, gap + back + rest);
    }
    assert LinesAt(out, |before + front + gap|, Context, post, backStart, end) by {
      EntriesAt(before + front + gap, Context, post, backStart, end, rest);
    }
  }

  lemma ShownEnds(pre: Side, post: Side, ops: seq<DiffOp>, context: nat, k: nat)
    requires Renderable(pre, post, ops) && k < |ops| && ops[k].tag == Equal
    ensures Within(ops[k], pre, post)
    ensures forall line :: ops[k].newStart <= line < ops[k].newEnd ==>
      (Shown(ops, context, line) <==>
        line < ops[k].newStart + TakeStart(ops, context, k) || ops[k].newEnd <= line + TakeEnd(ops, context, k))
  {
    StepWithin(pre, post, ops, k);
    forall line | ops[k].newStart <= line < ops[k].newEnd
      ensures Shown(ops, context, line) <==>
        line < ops[k].newStart + TakeStart(ops, context, k) || ops[k].newEnd <= line + TakeEnd(ops, context, k)
    {
      ShownInStretch(ops, AnchorsIn(pre.lines), AnchorsIn(post.lines), context, k, line);
    }
  }

  ghost predicate ShowsNear(ops: seq<DiffOp>, context: nat, op: DiffOp, front: nat, back: nat) {
    forall line :: op.newStart <= line < op.newEnd ==>
      (Shown(ops, context, line) <==> line < op.newStart + front || op.newEnd <= line + back)
  }

  /** An unchanged stretch shows its lines near a change, which are some at its front and
      some at its back. */
  ghost predicate NearBetween(out: seq<Entry>, p: nat, q: nat, post: Side, ops: seq<DiffOp>, context: nat, op: DiffOp)
    requires Aligned(post) && op.newStart <= op.newEnd <= |post.lines|
  {
    exists front: nat, back: nat ::
      && op.newStart + front + back <= op.newEnd
      && ShowsNear(ops, context, op, front, back)
      && StretchBetween(out, p, q, post, op.newStart, op.newEnd, front, back)
  }

  ghost predicate StepBetween(out: seq<Entry>, p: nat, q: nat, pre: Side, post: Side, ops: seq<DiffOp>, context: nat,
                              k: nat)
    requires Renderable(pre, post, ops) && k < |ops|
  {
    && Within(ops[k], pre, post)
    && if ops[k].tag == Equal then NearBetween(out, p, q, post, ops, context, ops[k])
       else ChangeBetween(out, p, q, pre, post, ops[k])
  }

  lemma WholeIsNear(before: seq<Entry>, part: seq<Entry>, rest: seq<Entry>, post: Side, ops: seq<DiffOp>, context: nat,
                    op: DiffOp)
    requires Aligned(post) && op.newStart <= op.newEnd <= |post.lines|
    requires part == LineEntries(Context, post, op.newStart, op.newEnd)
    requires ShowsNear(ops, context, op, op.newEnd - op.newStart, 0)
    ensures NearBetween(before + part + rest, |before|, |before + part|, post, ops, context, op)
  {
    var n := op.newEnd - op.newStart;
    EntriesAt(before, Context, post, op.newStart, op.newEnd, rest);
    assert StretchBetween(before + part + rest, |before|, |before + part|, post, op.newStart, op.newEnd, n, 0);
  }

  lemma EndsAreNear(before: seq<Entry>, part: seq<Entry>, rest: seq<Entry>, post: Side, ops: seq<DiffOp>, context: nat,
                    op: DiffOp, front: nat, back: nat)
    requires Aligned(post) && op.newStart + front + back < op.newEnd <= |post.lines|
    requires part == EndEntries(post, op.newStart, op.newStart + front, op.newEnd - back, op.newEnd)
    requires ShowsNear(ops, context, op, front, back)
    ensures NearBetween(before + part + rest, |before|, |before + part|, post, ops, context, op)
  {
    EndsAt(before, post, op.newStart, op.newStart + front, op.newEnd - back, op.newEnd, rest);
  }

  lemma EqualStep(pre: Side, post: Side, ops: seq<DiffOp>, context: nat, k: nat)
    requires Renderable(pre, post, ops) && k < |ops| && ops[k].tag == Equal
    ensures Within(ops[k], pre, post)
    ensures var op, part := ops[k], StepEntries(pre, post, ops, context, k);
      var takeStart, takeEnd := TakeStart(ops, context, k), TakeEnd(ops, context, k);
      if takeStart + takeEnd >= op.newEnd - op.newStart then
        && part == LineEntries(Context, post, op.newStart, op.newEnd)
        && ShowsNear(ops, context, op, op.newEnd - op.newStart, 0)
      else
        && part == EndEntries(post, op.newStart, op.newStart + takeStart, op.newEnd - takeEnd, op.newEnd)
        && ShowsNear(ops, context, op, takeStart, takeEnd)
  {
    ShownEnds(pre, post, ops, context, k);
  }

  lemma StretchIsShown(pre: Side, post: Side, ops: seq<DiffOp>, context: nat, k: nat, before: seq<Entry>,
                       rest: seq<Entry>)
    requires Renderable(pre, post, ops) && k < |ops| && ops[k].tag == Equal
    ensures var part := StepEntries(pre, post, ops, context, k);
      StepBetween(before + part + rest, |before|, |before + part|, pre, post, ops, context, k)
  {
    EqualStep(pre, post, ops, context, k);
    var op, part := ops[k], StepEntries(pre, post, ops, context, k);
    var takeStart, takeEnd := TakeStart(ops, context, k), TakeEnd(ops, context, k);
    if takeStart + takeEnd >= op.newEnd - op.newStart {
      WholeIsNear(before, part, rest, post, ops, context, op);
    } else {
      EndsAreNear(before, part, rest, post, ops, context, op, takeStart, takeEnd);
    }
  }

  lemma ChangeIsShown(pre: Side, post: Side, ops: seq<DiffOp>, context: nat, k: nat, before: seq<Entry>,
                      rest: seq<Entry>)
    requires Renderable(pre, post, ops) && k < |ops| && ops[k].tag != Equal
    ensures var part := StepEntries(pre, post, ops, context, k);
      StepBetween(before + part + rest, |before|, |before + part|, pre, post, ops, context, k)
  {
    StepWithin(pre, post, ops, k);
    ChangeAt(before, pre, post, ops[k], rest);
  }

  lemma StepIsBetween(pre: Side, post: Side, ops: seq<DiffOp>, context: nat, parts: seq<seq<Entry>>, k: nat)
    requires Renderable(pre, post, ops) && k < |ops| && parts == AllSteps(pre, post, ops, context)
    ensures StepBetween(Joined(parts, |ops|), |Joined(parts, k)|, |Joined(parts, k + 1)|, pre, post, ops, context, k)
  {
    var rest := JoinedSplits(parts, k, |ops|);
    if ops[k].tag == Equal {
      StretchIsShown(pre, post, ops, context, k, Joined(parts, k), rest);
    } else {
      ChangeIsShown(pre, post, ops, context, k, Joined(parts, k), rest);
    }
  }

  function PlacesOf(parts: seq<seq<Entry>>): (places: seq<nat>)
    ensures |places| == |parts| + 1
    ensures forall k :: 0 <= k <= |parts| ==> places[k] == |Joined(parts, k)|
  {
    seq(|parts| + 1, k requires 0 <= k <= |parts| => |Joined(parts, k)|)
  }

  /** The whole output: the steps in order and nothing else, a change as its old lines and
      then its new ones, an unchanged stretch as its lines near a change. */
  lemma RenderedTiles(pre: Side, post: Side, ops: seq<DiffOp>, context: nat) returns (places: seq<nat>)
    requires Renderable(pre, post, ops)
    ensures |places| == |ops| + 1 && places[0] == 0 && places[|ops|] == |Rendered(pre, post, ops, context)|
    ensures forall k :: 0 <= k < |ops| ==>
      StepBetween(Rendered(pre, post, ops, context), places[k], places[k + 1], pre, post, ops, context, k)
  {
    var parts := AllSteps(pre, post, ops, context);
    places := PlacesOf(parts);
    forall k | 0 <= k < |ops|
      ensures StepBetween(Rendered(pre, post, ops, context), places[k], places[k + 1], pre, post, ops, context, k)
    {
      StepIsBetween(pre, post, ops, context, parts, k);
    }
  }
}
