/** What reconciliation conserves, for every lawful diff. */
module ReconcileLaws {
  import opened Wrappers
  import opened Anchors
  import opened Pools
  import opened Hashing
  import opened FileStates
  import opened GapModel
  import opened Carrying
  import opened DiffScripts
  import opened Reconciliation

  lemma ReconciledAnchors(h: Hasher, diff: LineDiff, lines: seq<LineEntry>, onDisk: seq<string>,
                          used: set<Anchor>, hints: Option<seq<Anchor>>)
    requires Lawful(diff)
    ensures AnchorsIn(ReconciledLines(h, diff, lines, onDisk, used, hints))
         == NewAnchors(LineOrigins(h, diff, lines, onDisk, hints), AnchorsIn(lines), used)
  {
  }

  /** Anchors are conserved: they stay pairwise distinct, each old one either names
      a line of the new file or is tombstoned, never both, and a line whose anchor
      was in use is an old line, entry and all. */
  lemma AnchorsConserved(h: Hasher, diff: LineDiff, lines: seq<LineEntry>, onDisk: seq<string>,
                         used: set<Anchor>, hints: Option<seq<Anchor>>)
    requires Lawful(diff)
    requires Distinct(AnchorsIn(lines)) && Elements(AnchorsIn(lines)) <= used
    ensures var entries := ReconciledLines(h, diff, lines, onDisk, used, hints);
      var tombstones := Tombstones(h, diff, lines, onDisk, hints);
      var origins := LineOrigins(h, diff, lines, onDisk, hints);
      && Distinct(AnchorsIn(entries))
      && Elements(tombstones) <= Elements(AnchorsIn(lines)) <= Elements(AnchorsIn(entries)) + Elements(tombstones)
      && Elements(tombstones) !! Elements(AnchorsIn(entries))
      && (forall k :: 0 <= k < |entries| ==>
            (entries[k].anchor in used <==> origins[k].Carried?)
            && (origins[k].Carried? ==> entries[k] == lines[origins[k].index]))
  {
    var entries := ReconciledLines(h, diff, lines, onDisk, used, hints);
    var tombstones := Tombstones(h, diff, lines, onDisk, hints);
    var origins, prev := LineOrigins(h, diff, lines, onDisk, hints), AnchorsIn(lines);
    ReconciledAnchors(h, diff, lines, onDisk, used, hints);
    NewAnchorsDistinct(origins, prev, used);
    DroppedAre(origins, prev, |prev|);
    forall i | 0 <= i < |prev|
      ensures prev[i] in AnchorsIn(entries) <==> prev[i] !in tombstones
    {
      CarriedOrDropped(origins, prev, used, i);
    }
    forall k | 0 <= k < |entries| ensures entries[k].anchor in used <==> origins[k].Carried? {
      CarriedOrMinted(origins, prev, used, k);
      assert entries[k].anchor == AnchorAt(origins, prev, used, k);
    }
  }

  /** No line on disk hashes to the poison of a hinted line. */
  ghost predicate PoisonFree(h: Hasher, lines: seq<LineEntry>, onDisk: seq<string>, hints: Option<seq<Anchor>>) {
    forall i, k :: 0 <= i < |lines| && Excluded(lines, hints, i) && 0 <= k < |onDisk| ==>
      Poison(i) != h.HashAt(onDisk, k)
  }

  /** The new entries carry the hashes of the lines on disk, and every explicitly
      deleted line is tombstoned even when an identical line survives. */
  lemma HashesAndHints(h: Hasher, diff: LineDiff, lines: seq<LineEntry>, onDisk: seq<string>,
                       used: set<Anchor>, hints: Option<seq<Anchor>>)
    requires Lawful(diff) && PoisonFree(h, lines, onDisk, hints)
    ensures HashesIn(ReconciledLines(h, diff, lines, onDisk, used, hints)) == h.HashesOf(onDisk)
    ensures forall i :: 0 <= i < |lines| && Excluded(lines, hints, i) ==>
      lines[i].anchor in Tombstones(h, diff, lines, onDisk, hints)
  {
    var origins := LineOrigins(h, diff, lines, onDisk, hints);
    DroppedAre(origins, AnchorsIn(lines), |lines|);
    forall k | 0 <= k < |onDisk| && origins[k].Carried?
      ensures !Excluded(lines, hints, origins[k].index) && lines[origins[k].index].hash == h.HashAt(onDisk, k)
    {
      assert DiffHashes(lines, hints)[origins[k].index] == h.HashesOf(onDisk)[k];
    }
    forall i | 0 <= i < |lines| && Excluded(lines, hints, i)
      ensures !Carries(origins, i) && AnchorsIn(lines)[i] in Tombstones(h, diff, lines, onDisk, hints)
    {
    }
  }

  lemma {:induction false} EqualStepsAligned<T>(ops: seq<DiffOp>, a: seq<T>, b: seq<T>, m: nat)
    requires Script(ops, a, b) && AllEqual(ops) && m <= |ops|
    ensures OldAt(ops, m) == NewAt(ops, m)
  {
    if m > 0 {
      EqualStepsAligned(ops, a, b, m - 1);
      assert StepFits(ops, a, b, m - 1);
      var op := ops[m - 1];
      assert |a[op.oldStart..op.oldEnd]| == |b[op.newStart..op.newEnd]|;
    }
  }

  lemma IdentityOrigins<T>(ops: seq<DiffOp>, a: seq<T>, k: nat)
    requires Script(ops, a, a) && AllEqual(ops) && k < |a|
    ensures |ScriptOrigins(ops, |ops|)| == |a| && ScriptOrigins(ops, |ops|)[k] == Carried(k)
  {
    ScriptOriginsFacts(ops, a, a, |ops|);
    var m := StepOfNewLine(ops, a, a, |ops|, k);
    OriginAt(ops, a, a, m, |ops|, k);
    EqualStepsAligned(ops, a, a, m);
    assert StepFits(ops, a, a, m);
  }

  /** Reconciling a file whose hashes did not change does nothing. */
  lemma NothingChanged(h: Hasher, diff: LineDiff, lines: seq<LineEntry>, onDisk: seq<string>, used: set<Anchor>)
    requires Lawful(diff) && HashesIn(lines) == h.HashesOf(onDisk)
    ensures ReconciledLines(h, diff, lines, onDisk, used, None) == lines
    ensures Tombstones(h, diff, lines, onDisk, None) == []
  {
    var a := h.HashesOf(onDisk);
    assert DiffHashes(lines, None) == a;
    var origins := LineOrigins(h, diff, lines, onDisk, None);
    forall k | 0 <= k < |lines| ensures origins[k] == Carried(k) {
      IdentityOrigins(diff(a, a), a, k);
    }
    NothingDropped(origins, AnchorsIn(lines), |lines|);
    assert ReconciledLines(h, diff, lines, onDisk, used, None) == lines;
  }

  lemma {:induction false} NothingDropped(origins: seq<LineOrigin>, prev: seq<Anchor>, n: nat)
    requires n <= |prev| == |origins| && forall k :: 0 <= k < |origins| ==> origins[k] == Carried(k)
    ensures Dropped(origins, prev, n) == []
  {
    if n > 0 {
      NothingDropped(origins, prev, n - 1);
      assert origins[n - 1] == Carried(n - 1);
    }
  }
}
