/** What a sequence diff must deliver for reconciliation, whatever algorithm
    computes it, and a small diff that shows the demands can be met. */
module DiffScripts {

  datatype Tag = Equal | Delete | Insert | Replace

  /** One step of a script, over half-open ranges of the old and new sequence. */
  datatype DiffOp = DiffOp(tag: Tag, oldStart: nat, oldEnd: nat, newStart: nat, newEnd: nat)

  ghost predicate Fits<T>(op: DiffOp, a: seq<T>, b: seq<T>) {
    && op.oldStart <= op.oldEnd <= |a|
    && op.newStart <= op.newEnd <= |b|
    && (op.tag == Equal ==> a[op.oldStart..op.oldEnd] == b[op.newStart..op.newEnd])
    && (op.tag == Delete ==> op.newStart == op.newEnd)
    && (op.tag == Insert ==> op.oldStart == op.oldEnd)
  }

  function OldAt(ops: seq<DiffOp>, m: nat): nat
    requires m <= |ops|
  {
    if m == 0 then 0 else ops[m - 1].oldEnd
  }

  function NewAt(ops: seq<DiffOp>, m: nat): nat
    requires m <= |ops|
  {
    if m == 0 then 0 else ops[m - 1].newEnd
  }

  /** A step is sound and starts where the previous one ended. */
  ghost predicate StepFits<T>(ops: seq<DiffOp>, a: seq<T>, b: seq<T>, m: nat)
    requires m < |ops|
  {
    Fits(ops[m], a, b) && ops[m].oldStart == OldAt(ops, m) && ops[m].newStart == NewAt(ops, m)
  }

  /** The steps tile both sequences in order. */
  ghost predicate Script<T>(ops: seq<DiffOp>, a: seq<T>, b: seq<T>) {
    && (forall m :: 0 <= m < |ops| ==> StepFits(ops, a, b, m))
    && OldAt(ops, |ops|) == |a|
    && NewAt(ops, |ops|) == |b|
  }

  ghost predicate NoAdjacentEqual(ops: seq<DiffOp>) {
    forall m :: 0 < m < |ops| ==> Alternates(ops, m)
  }

  predicate Alternates(ops: seq<DiffOp>, m: nat)
    requires 0 < m < |ops|
  {
    ops[m - 1].tag != Equal || ops[m].tag != Equal
  }

  ghost predicate AllEqual(ops: seq<DiffOp>) {
    forall m :: 0 <= m < |ops| ==> ops[m].tag == Equal
  }

  /** Every result is a script whose equal stretches are maximal, and identical
      inputs have no difference. */
  ghost predicate Lawful<T(!new)>(diff: (seq<T>, seq<T>) -> seq<DiffOp>) {
    && (forall a: seq<T>, b: seq<T> :: Script(diff(a, b), a, b) && NoAdjacentEqual(diff(a, b)))
    && (forall a: seq<T> :: AllEqual(diff(a, a)))
  }

  // ----- A lawful diff: common prefix, replaced middle, common suffix -----

  function CommonPrefix<T(==)>(a: seq<T>, b: seq<T>, n: nat): (p: nat)
    requires n <= |a| && n <= |b| && a[..n] == b[..n]
    ensures n <= p <= |a| && p <= |b| && a[..p] == b[..p]
    ensures p < |a| && p < |b| ==> a[p] != b[p]
    decreases |a| - n
  {
    if n < |a| && n < |b| && a[n] == b[n] then CommonPrefix(a, b, n + 1) else n
  }

  /** The length of the longest common suffix that leaves the first `p` elements alone. */
  function CommonSuffix<T(==)>(a: seq<T>, b: seq<T>, p: nat, n: nat): (s: nat)
    requires p + n <= |a| && p + n <= |b| && a[|a| - n..] == b[|b| - n..]
    ensures n <= s && p + s <= |a| && p + s <= |b| && a[|a| - s..] == b[|b| - s..]
    decreases |a| - n
  {
    if p + n < |a| && p + n < |b| && a[|a| - n - 1] == b[|b| - n - 1] then
      assert a[|a| - n - 1..] == [a[|a| - n - 1]] + a[|a| - n..];
      assert b[|b| - n - 1..] == [b[|b| - n - 1]] + b[|b| - n..];
      CommonSuffix(a, b, p, n + 1)
    else n
  }

  function TrimmingDiff<T(==)>(a: seq<T>, b: seq<T>): seq<DiffOp> {
    var p := CommonPrefix(a, b, 0);
    if p == |a| == |b| then [DiffOp(Equal, 0, p, 0, p)]
    else Trimmed(|a|, |b|, p, CommonSuffix(a, b, p, 0))
  }

  function Trimmed(m: nat, n: nat, p: nat, s: nat): seq<DiffOp>
    requires p + s <= m && p + s <= n
  {
    [DiffOp(Equal, 0, p, 0, p), DiffOp(Replace, p, m - s, p, n - s), DiffOp(Equal, m - s, m, n - s, n)]
  }

  lemma TrimmedScript<T>(a: seq<T>, b: seq<T>, p: nat, s: nat)
    requires p + s <= |a| && p + s <= |b|
    requires a[..p] == b[..p] && a[|a| - s..] == b[|b| - s..]
    ensures Script(Trimmed(|a|, |b|, p, s), a, b) && NoAdjacentEqual(Trimmed(|a|, |b|, p, s))
  {
    assert a[0..p] == b[0..p] && a[|a| - s..|a|] == b[|b| - s..|b|];
  }

  lemma WholeScript<T>(a: seq<T>)
    ensures Script([DiffOp(Equal, 0, |a|, 0, |a|)], a, a)
  {
  }

  lemma TrimmingDiffScript<T>(a: seq<T>, b: seq<T>)
    ensures Script(TrimmingDiff(a, b), a, b) && NoAdjacentEqual(TrimmingDiff(a, b))
    ensures a == b ==> AllEqual(TrimmingDiff(a, b))
  {
    var p := CommonPrefix(a, b, 0);
    if p == |a| == |b| {
      assert a[..p] == a && b[..p] == b;
      WholeScript(a);
    } else {
      TrimmedScript(a, b, p, CommonSuffix(a, b, p, 0));
    }
  }

  /** The demands on a diff are satisfiable. */
  lemma TrimmingDiffLawful<T(!new)>()
    ensures Lawful((a: seq<T>, b: seq<T>) => TrimmingDiff(a, b))
  {
    var diff := (a: seq<T>, b: seq<T>) => TrimmingDiff(a, b);
    forall a: seq<T>, b: seq<T>
      ensures Script(diff(a, b), a, b) && NoAdjacentEqual(diff(a, b)) && (a == b ==> AllEqual(diff(a, b)))
    {
      TrimmingDiffScript(a, b);
    }
  }
}
