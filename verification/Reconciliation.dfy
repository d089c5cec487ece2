/** Reconciling cached anchors with what is on disk, along a diff of line hashes. */
module Reconciliation {
  import opened Wrappers
  import opened Anchors
  import opened Pools
  import opened Hashing
  import opened FileStates
  import opened GapModel
  import opened Carrying
  import opened DiffScripts

  type LineDiff = (seq<Hash>, seq<Hash>) -> seq<DiffOp>

  datatype Outcome = Outcome(state: FileAnchorState, minted: seq<(nat, Anchor)>, tombstoned: seq<Anchor>)

  // ----- What a script says about lines -----

  function OriginsOf(op: DiffOp): seq<LineOrigin> {
    match op.tag
    case Equal => CarriedRun(op.oldStart, op.oldEnd)
    case Delete => []
    case Insert => InsertedRun(op.newStart, op.newEnd)
    case Replace => InsertedRun(op.newStart, op.newEnd)
  }

  function CarriedRun(from: nat, to: nat): seq<LineOrigin> {
    if to < from then [] else seq(to - from, i requires 0 <= i => Carried(from + i))
  }

  function InsertedRun(from: nat, to: nat): seq<LineOrigin> {
    if to < from then [] else seq(to - from, _ => Inserted)
  }

  /** The origins of the new lines that the first `m` steps produce. */
  function ScriptOrigins(ops: seq<DiffOp>, m: nat): seq<LineOrigin>
    requires m <= |ops|
  {
    if m == 0 then [] else ScriptOrigins(ops, m - 1) + OriginsOf(ops[m - 1])
  }

  lemma OneStepOrigins<T>(op: DiffOp, a: seq<T>, b: seq<T>)
    requires Fits(op, a, b)
    ensures |OriginsOf(op)| == op.newEnd - op.newStart
    ensures forall i :: 0 <= i < |OriginsOf(op)| && OriginsOf(op)[i].Carried? ==>
      && OriginsOf(op)[i] == Carried(op.oldStart + i)
      && op.oldStart + i < op.oldEnd && a[op.oldStart + i] == b[op.newStart + i]
  {
    if op.tag == Equal {
      assert |a[op.oldStart..op.oldEnd]| == |b[op.newStart..op.newEnd]|;
      forall x | op.oldStart <= x < op.oldEnd ensures a[x] == b[op.newStart + (x - op.oldStart)] {
        assert a[op.oldStart..op.oldEnd][x - op.oldStart] == b[op.newStart..op.newEnd][x - op.oldStart];
      }
    }
  }

  /** Carried lines match their old lines. */
  ghost predicate Matches<T>(origins: seq<LineOrigin>, a: seq<T>, b: seq<T>) {
    && |origins| <= |b|
    && forall k :: 0 <= k < |origins| && origins[k].Carried? ==>
         origins[k].index < |a| && a[origins[k].index] == b[k]
  }

  lemma AppendStep<T>(origins: seq<LineOrigin>, op: DiffOp, a: seq<T>, b: seq<T>)
    requires Fits(op, a, b) && |origins| == op.newStart
    requires InOrder(origins, op.oldStart) && Matches(origins, a, b)
    ensures InOrder(origins + OriginsOf(op), op.oldEnd) && Matches(origins + OriginsOf(op), a, b)
    ensures |origins + OriginsOf(op)| == op.newEnd
  {
    OneStepOrigins(op, a, b);
  }

  lemma {:induction false} ScriptOriginsFacts<T>(ops: seq<DiffOp>, a: seq<T>, b: seq<T>, m: nat)
    requires Script(ops, a, b) && m <= |ops|
    ensures |ScriptOrigins(ops, m)| == NewAt(ops, m)
    ensures InOrder(ScriptOrigins(ops, m), OldAt(ops, m)) && Matches(ScriptOrigins(ops, m), a, b)
  {
    if m > 0 {
      ScriptOriginsFacts(ops, a, b, m - 1);
      assert StepFits(ops, a, b, m - 1);
      AppendStep(ScriptOrigins(ops, m - 1), ops[m - 1], a, b);
    }
  }

  // ----- The reconciled file -----

  /** Poison values, one per line number, counting down from the largest hash. */
  function Poison(i: nat): Hash {
    (HASH_SPACE - 1 - (i + 1)) % HASH_SPACE
  }

  function Excluded(lines: seq<LineEntry>, hints: Option<seq<Anchor>>, i: nat): bool
    requires i < |lines|
  {
    hints.Some? && lines[i].anchor in hints.value
  }

  /** The hashes to diff: those of explicitly deleted lines are poisoned. */
  function DiffHashes(lines: seq<LineEntry>, hints: Option<seq<Anchor>>): (hashes: seq<Hash>)
    ensures |hashes| == |lines|
  {
    seq(|lines|, i requires 0 <= i < |lines| => if Excluded(lines, hints, i) then Poison(i) else lines[i].hash)
  }

  ghost function EntryAt(origins: seq<LineOrigin>, lines: seq<LineEntry>, hashes: seq<Hash>, used: set<Anchor>,
                         k: nat): LineEntry
    requires InRange(origins, |lines|) && k < |origins| <= |hashes|
  {
    if origins[k].Carried? then lines[origins[k].index]
    else LineEntry(hashes[k], MintNumber(used, NewLines(origins, k)))
  }

  /** The first `n` lines of the reconciled file. */
  ghost function Entries(origins: seq<LineOrigin>, lines: seq<LineEntry>, hashes: seq<Hash>, used: set<Anchor>,
                         n: nat): (entries: seq<LineEntry>)
    requires InRange(origins, |lines|) && n <= |origins| <= |hashes|
    ensures |entries| == n
    ensures forall k :: 0 <= k < n ==> entries[k] == EntryAt(origins, lines, hashes, used, k)
  {
    seq(n, k requires 0 <= k < n && InRange(origins, |lines|) => EntryAt(origins, lines, hashes, used, k))
  }

  ghost function LineOrigins(h: Hasher, diff: LineDiff, lines: seq<LineEntry>, onDisk: seq<string>,
                             hints: Option<seq<Anchor>>): (origins: seq<LineOrigin>)
    requires Lawful(diff)
    ensures |origins| == |onDisk| && InOrder(origins, |lines|)
    ensures forall k :: 0 <= k < |onDisk| && origins[k].Carried? ==>
      DiffHashes(lines, hints)[origins[k].index] == h.HashesOf(onDisk)[k]
  {
    var a, b := DiffHashes(lines, hints), h.HashesOf(onDisk);
    ScriptOriginsFacts(diff(a, b), a, b, |diff(a, b)|);
    ScriptOrigins(diff(a, b), |diff(a, b)|)
  }

  ghost function ReconciledLines(h: Hasher, diff: LineDiff, lines: seq<LineEntry>, onDisk: seq<string>,
                                 used: set<Anchor>, hints: Option<seq<Anchor>>): (entries: seq<LineEntry>)
    requires Lawful(diff)
    ensures |entries| == |onDisk|
  {
    var origins := LineOrigins(h, diff, lines, onDisk, hints);
    Entries(origins, lines, h.HashesOf(onDisk), used, |onDisk|)
  }

  ghost function Tombstones(h: Hasher, diff: LineDiff, lines: seq<LineEntry>, onDisk: seq<string>,
                            hints: Option<seq<Anchor>>): seq<Anchor>
    requires Lawful(diff)
  {
    Dropped(LineOrigins(h, diff, lines, onDisk, hints), AnchorsIn(lines), |lines|)
  }

  ghost function ReconciledState(h: Hasher, diff: LineDiff, cached: FileAnchorState, onDisk: seq<string>,
                                 used: set<Anchor>, hints: Option<seq<Anchor>>): FileAnchorState
    requires Lawful(diff)
  {
    cached.(contentDigest := h.digest(h.HashesOf(onDisk)),
            lines := ReconciledLines(h, diff, cached.lines, onDisk, used, hints))
  }

  /** The mint report names exactly the new ones among the first `n` lines, in
      order, with their anchors. */
  ghost predicate ReportsMints(origins: seq<LineOrigin>, entries: seq<LineEntry>, minted: seq<(nat, Anchor)>, n: nat) {
    && n <= |origins| && n <= |entries|
    && |minted| == NewLines(origins, n)
    && forall k :: 0 <= k < n && origins[k] == Inserted ==>
         NewLines(origins, k) < |minted| && minted[NewLines(origins, k)] == (k, entries[k].anchor)
  }

  // ----- Which step a line belongs to -----

  lemma {:induction false} OriginAt<T>(ops: seq<DiffOp>, a: seq<T>, b: seq<T>, m: nat, n: nat, k: nat)
    requires Script(ops, a, b) && m < n <= |ops| && ops[m].newStart <= k < ops[m].newEnd
    ensures k < |ScriptOrigins(ops, n)|
    ensures ScriptOrigins(ops, n)[k]
         == if ops[m].tag == Equal then Carried(ops[m].oldStart + (k - ops[m].newStart)) else Inserted
  {
    assert StepFits(ops, a, b, n - 1);
    ScriptOriginsFacts(ops, a, b, n - 1);
    if m < n - 1 {
      OriginAt(ops, a, b, m, n - 1, k);
    } else {
      OneStepOrigins(ops[m], a, b);
    }
  }

  lemma {:induction false} StepsAscend<T>(ops: seq<DiffOp>, a: seq<T>, b: seq<T>, m: nat, n: nat)
    requires Script(ops, a, b) && m < n < |ops|
    ensures ops[m].oldEnd <= ops[n].oldStart && ops[m].newEnd <= ops[n].newStart
  {
    assert StepFits(ops, a, b, n) && StepFits(ops, a, b, n - 1);
    if m < n - 1 {
      StepsAscend(ops, a, b, m, n - 1);
    }
  }

  lemma {:induction false} StepOfNewLine<T>(ops: seq<DiffOp>, a: seq<T>, b: seq<T>, n: nat, k: nat) returns (m: nat)
    requires Script(ops, a, b) && n <= |ops| && k < NewAt(ops, n)
    ensures m < n && ops[m].newStart <= k < ops[m].newEnd
  {
    assert StepFits(ops, a, b, n - 1);
    if k < NewAt(ops, n - 1) {
      m := StepOfNewLine(ops, a, b, n - 1, k);
    } else {
      m := n - 1;
    }
  }

  lemma EqualStepOf<T>(ops: seq<DiffOp>, a: seq<T>, b: seq<T>, k: nat) returns (m: nat)
    requires Script(ops, a, b) && k < |ScriptOrigins(ops, |ops|)| && ScriptOrigins(ops, |ops|)[k].Carried?
    ensures m < |ops| && ops[m].tag == Equal
    ensures ops[m].oldStart <= ScriptOrigins(ops, |ops|)[k].index < ops[m].oldEnd
  {
    ScriptOriginsFacts(ops, a, b, |ops|);
    m := StepOfNewLine(ops, a, b, |ops|, k);
    OriginAt(ops, a, b, m, |ops|, k);
    assert StepFits(ops, a, b, m);
    assert |a[ops[m].oldStart..ops[m].oldEnd]| == |b[ops[m].newStart..ops[m].newEnd]|;
  }

  lemma SameStep<T>(ops: seq<DiffOp>, a: seq<T>, b: seq<T>, m: nat, n: nat, i: nat)
    requires Script(ops, a, b) && m < |ops| && n < |ops|
    requires ops[m].oldStart <= i < ops[m].oldEnd && ops[n].oldStart <= i < ops[n].oldEnd
    ensures m == n
  {
    if m < n {
      StepsAscend(ops, a, b, m, n);
    } else if n < m {
      StepsAscend(ops, a, b, n, m);
    }
  }

  /** An old line is carried exactly when its step is an equal one. */
  lemma CarriedByEqual<T>(ops: seq<DiffOp>, a: seq<T>, b: seq<T>, m: nat, i: nat)
    requires Script(ops, a, b) && m < |ops| && ops[m].oldStart <= i < ops[m].oldEnd
    ensures Carries(ScriptOrigins(ops, |ops|), i) <==> ops[m].tag == Equal
  {
    var origins := ScriptOrigins(ops, |ops|);
    assert StepFits(ops, a, b, m);
    if ops[m].tag == Equal {
      var k := ops[m].newStart + (i - ops[m].oldStart);
      assert |a[ops[m].oldStart..ops[m].oldEnd]| == |b[ops[m].newStart..ops[m].newEnd]|;
      OriginAt(ops, a, b, m, |ops|, k);
    }
    if Carries(origins, i) {
      var k :| 0 <= k < |origins| && origins[k] == Carried(i);
      var m' := EqualStepOf(ops, a, b, k);
      SameStep(ops, a, b, m, m', i);
    }
  }

  // ----- The loop over the script -----

  /** The state of the loop after `i` old and `n` new lines. */
  ghost predicate Built(origins: seq<LineOrigin>, lines: seq<LineEntry>, hashes: seq<Hash>, used: set<Anchor>,
                        newLines: seq<LineEntry>, minted: seq<(nat, Anchor)>, tombstoned: seq<Anchor>, i: nat, n: nat)
  {
    && InRange(origins, |lines|) && i <= |lines| && n <= |origins| <= |hashes|
    && newLines == Entries(origins, lines, hashes, used, n)
    && ReportsMints(origins, newLines, minted, n)
    && tombstoned == Dropped(origins, AnchorsIn(lines), i)
  }

  lemma CarryStep(origins: seq<LineOrigin>, lines: seq<LineEntry>, hashes: seq<Hash>, used: set<Anchor>,
                  newLines: seq<LineEntry>, minted: seq<(nat, Anchor)>, tombstoned: seq<Anchor>, i: nat, n: nat)
    requires Built(origins, lines, hashes, used, newLines, minted, tombstoned, i, n)
    requires n < |origins| && i < |lines| && origins[n] == Carried(i)
    ensures Built(origins, lines, hashes, used, newLines + [lines[i]], minted, tombstoned, i + 1, n + 1)
    ensures NewLines(origins, n + 1) == NewLines(origins, n)
  {
    assert Carries(origins, i);
    assert lines[i] == EntryAt(origins, lines, hashes, used, n);
    assert newLines + [lines[i]] == Entries(origins, lines, hashes, used, n + 1);
  }

  method CarryLines(lines: seq<LineEntry>, op: DiffOp, newLines: seq<LineEntry>, ghost minted: seq<(nat, Anchor)>,
                    ghost tombstoned: seq<Anchor>, ghost origins: seq<LineOrigin>, ghost hashes: seq<Hash>,
                    ghost used: set<Anchor>)
      returns (newLines': seq<LineEntry>)
    requires op.oldStart <= op.oldEnd <= |lines| && op.newEnd - op.newStart == op.oldEnd - op.oldStart
    requires op.newEnd <= |origins|
    requires Built(origins, lines, hashes, used, newLines, minted, tombstoned, op.oldStart, op.newStart)
    requires forall k :: op.newStart <= k < op.newEnd ==> origins[k] == Carried(op.oldStart + (k - op.newStart))
    ensures Built(origins, lines, hashes, used, newLines', minted, tombstoned, op.oldEnd, op.newEnd)
    ensures NewLines(origins, op.newEnd) == NewLines(origins, op.newStart)
  {
    newLines' := newLines;
    ghost var n := op.newStart;
    for oldIndex := op.oldStart to op.oldEnd
      invariant n == op.newStart + (oldIndex - op.oldStart)
      invariant Built(origins, lines, hashes, used, newLines', minted, tombstoned, oldIndex, n)
      invariant NewLines(origins, n) == NewLines(origins, op.newStart)
    {
      CarryStep(origins, lines, hashes, used, newLines', minted, tombstoned, oldIndex, n);
      newLines' := newLines' + [lines[oldIndex]];
      n := n + 1;
    }
  }

  method DropLines(lines: seq<LineEntry>, op: DiffOp, tombstoned: seq<Anchor>, ghost origins: seq<LineOrigin>)
      returns (tombstoned': seq<Anchor>)
    requires op.oldStart <= op.oldEnd <= |lines|
    requires tombstoned == Dropped(origins, AnchorsIn(lines), op.oldStart)
    requires forall i :: op.oldStart <= i < op.oldEnd ==> !Carries(origins, i)
    ensures tombstoned' == Dropped(origins, AnchorsIn(lines), op.oldEnd)
  {
    tombstoned' := tombstoned;
    for oldIndex := op.oldStart to op.oldEnd
      invariant tombstoned' == Dropped(origins, AnchorsIn(lines), oldIndex)
    {
      tombstoned' := tombstoned' + [lines[oldIndex].anchor];
    }
  }

  lemma ReportStep(origins: seq<LineOrigin>, entries: seq<LineEntry>, minted: seq<(nat, Anchor)>, n: nat,
                   entry: LineEntry)
    requires ReportsMints(origins, entries, minted, n) && |entries| == n < |origins| && origins[n] == Inserted
    ensures ReportsMints(origins, entries + [entry], minted + [(n, entry.anchor)], n + 1)
  {
    assert NewLines(origins, n + 1) == |minted| + 1;
    assert forall k :: 0 <= k < n ==> (entries + [entry])[k] == entries[k];
  }

  lemma MintStep(origins: seq<LineOrigin>, lines: seq<LineEntry>, hashes: seq<Hash>, used: set<Anchor>,
                 newLines: seq<LineEntry>, minted: seq<(nat, Anchor)>, tombstoned: seq<Anchor>, i: nat, n: nat,
                 anchor: Anchor)
    requires Built(origins, lines, hashes, used, newLines, minted, tombstoned, i, n)
    requires n < |origins| && origins[n] == Inserted && anchor == MintNumber(used, NewLines(origins, n))
    ensures Built(origins, lines, hashes, used, newLines + [LineEntry(hashes[n], anchor)],
                  minted + [(n, anchor)], tombstoned, i, n + 1)
  {
    var entry := LineEntry(hashes[n], anchor);
    ReportStep(origins, newLines, minted, n, entry);
    assert entry == EntryAt(origins, lines, hashes, used, n);
    assert newLines + [entry] == Entries(origins, lines, hashes, used, n + 1);
  }

  method MintLine(hash: Hash, pool: Pool, newLines: seq<LineEntry>, minted: seq<(nat, Anchor)>,
                  ghost tombstoned: seq<Anchor>, ghost lines: seq<LineEntry>, ghost origins: seq<LineOrigin>,
                  ghost hashes: seq<Hash>, ghost used: set<Anchor>, ghost i: nat, ghost n: nat)
      returns (newLines': seq<LineEntry>, minted': seq<(nat, Anchor)>)
    requires Built(origins, lines, hashes, used, newLines, minted, tombstoned, i, n)
    requires n < |origins| && origins[n] == Inserted && hash == hashes[n]
    requires pool.Valid() && pool.used == UsedAfter(used, NewLines(origins, n))
    modifies pool
    ensures Built(origins, lines, hashes, used, newLines', minted', tombstoned, i, n + 1)
    ensures pool.Valid() && pool.used == UsedAfter(used, NewLines(origins, n + 1))
  {
    var anchor := pool.Mint();
    var pos := |newLines|;
    MintStep(origins, lines, hashes, used, newLines, minted, tombstoned, i, n, anchor);
    newLines' := newLines + [LineEntry(hash, anchor)];
    minted' := minted + [(pos, anchor)];
  }

  method MintLines(op: DiffOp, pool: Pool, hashes: seq<Hash>, newLines: seq<LineEntry>, minted: seq<(nat, Anchor)>,
                   ghost tombstoned: seq<Anchor>, ghost lines: seq<LineEntry>, ghost origins: seq<LineOrigin>,
                   ghost used: set<Anchor>)
      returns (newLines': seq<LineEntry>, minted': seq<(nat, Anchor)>)
    requires op.newStart <= op.newEnd <= |origins| && pool.Valid()
    requires Built(origins, lines, hashes, used, newLines, minted, tombstoned, op.oldEnd, op.newStart)
    requires forall k :: op.newStart <= k < op.newEnd ==> origins[k] == Inserted
    requires pool.used == UsedAfter(used, NewLines(origins, op.newStart))
    modifies pool
    ensures Built(origins, lines, hashes, used, newLines', minted', tombstoned, op.oldEnd, op.newEnd)
    ensures pool.Valid() && pool.used == UsedAfter(used, NewLines(origins, op.newEnd))
  {
    newLines', minted' := newLines, minted;
    for newIndex := op.newStart to op.newEnd
      invariant Built(origins, lines, hashes, used, newLines', minted', tombstoned, op.oldEnd, newIndex)
      invariant pool.Valid() && pool.used == UsedAfter(used, NewLines(origins, newIndex))
    {
      assert newIndex < |origins| <= |hashes| && origins[newIndex] == Inserted;
      newLines', minted' := MintLine(hashes[newIndex], pool, newLines', minted', tombstoned, lines, origins,
                                     hashes, used, op.oldEnd, newIndex);
    }
  }

  /** Facts about step `m` that its branch of the loop relies on. */
  lemma StepFacts<T>(ops: seq<DiffOp>, a: seq<T>, b: seq<T>, m: nat)
    requires Script(ops, a, b) && m < |ops|
    ensures StepFits(ops, a, b, m)
    ensures var origins := ScriptOrigins(ops, |ops|);
      && |origins| == |b|
      && (forall i :: ops[m].oldStart <= i < ops[m].oldEnd ==> (Carries(origins, i) <==> ops[m].tag == Equal))
      && (forall k :: ops[m].newStart <= k < ops[m].newEnd ==>
            origins[k] == if ops[m].tag == Equal then Carried(ops[m].oldStart + (k - ops[m].newStart)) else Inserted)
  {
    assert StepFits(ops, a, b, m);
    ScriptOriginsFacts(ops, a, b, |ops|);
    forall i | ops[m].oldStart <= i < ops[m].oldEnd
      ensures Carries(ScriptOrigins(ops, |ops|), i) <==> ops[m].tag == Equal
    {
      CarriedByEqual(ops, a, b, m, i);
    }
    forall k | ops[m].newStart <= k < ops[m].newEnd
      ensures ScriptOrigins(ops, |ops|)[k]
           == if ops[m].tag == Equal then Carried(ops[m].oldStart + (k - ops[m].newStart)) else Inserted
    {
      OriginAt(ops, a, b, m, |ops|, k);
    }
  }

  /** The cached hashes, with those of the hinted lines overwritten. */
  method PoisonHinted(lines: seq<LineEntry>, hints: Option<seq<Anchor>>) returns (cachedHashes: seq<Hash>)
    ensures cachedHashes == DiffHashes(lines, hints)
  {
    cachedHashes := HashesIn(lines);
    if hints.Some? {
      for i := 0 to |lines|
        invariant |cachedHashes| == |lines|
        invariant forall k :: 0 <= k < |lines| ==>
          cachedHashes[k] == if k < i then DiffHashes(lines, hints)[k] else lines[k].hash
      {
        if lines[i].anchor in hints.value {
          cachedHashes := cachedHashes[i := Poison(i)];
        }
      }
    }
  }

  method ReplayStep(ops: seq<DiffOp>, ghost cachedHashes: seq<Hash>, hashes: seq<Hash>, m: nat,
                    lines: seq<LineEntry>, pool: Pool, newLines: seq<LineEntry>, minted: seq<(nat, Anchor)>,
                    tombstoned: seq<Anchor>, ghost origins: seq<LineOrigin>, ghost used: set<Anchor>)
      returns (newLines': seq<LineEntry>, minted': seq<(nat, Anchor)>, tombstoned': seq<Anchor>)
    requires Script(ops, cachedHashes, hashes) && |cachedHashes| == |lines| && m < |ops|
    requires origins == ScriptOrigins(ops, |ops|) && InRange(origins, |lines|)
    requires Built(origins, lines, hashes, used, newLines, minted, tombstoned, OldAt(ops, m), NewAt(ops, m))
    requires pool.Valid() && pool.used == UsedAfter(used, NewLines(origins, NewAt(ops, m)))
    modifies pool
    ensures ops[m].oldEnd <= |lines| && ops[m].newEnd <= |origins|
    ensures Built(origins, lines, hashes, used, newLines', minted', tombstoned', ops[m].oldEnd, ops[m].newEnd)
    ensures pool.Valid() && pool.used == UsedAfter(used, NewLines(origins, ops[m].newEnd))
  {
    var op := ops[m];
    newLines', minted', tombstoned' := newLines, minted, tombstoned;
    StepFacts(ops, cachedHashes, hashes, m);
    match op.tag {
      case Equal =>
        assert |cachedHashes[op.oldStart..op.oldEnd]| == |hashes[op.newStart..op.newEnd]|;
        newLines' := CarryLines(lines, op, newLines, minted, tombstoned, origins, hashes, used);
      case Delete =>
        tombstoned' := DropLines(lines, op, tombstoned, origins);
      case Insert =>
        newLines', minted' := MintLines(op, pool, hashes, newLines, minted, tombstoned, lines, origins, used);
      case Replace =>
        tombstoned' := DropLines(lines, op, tombstoned, origins);
        newLines', minted' := MintLines(op, pool, hashes, newLines, minted, tombstoned', lines, origins, used);
    }
  }

  method ReplayScript(ops: seq<DiffOp>, ghost cachedHashes: seq<Hash>, hashes: seq<Hash>,
                      lines: seq<LineEntry>, pool: Pool, ghost origins: seq<LineOrigin>, ghost used: set<Anchor>)
      returns (newLines: seq<LineEntry>, minted: seq<(nat, Anchor)>, tombstoned: seq<Anchor>)
    requires Script(ops, cachedHashes, hashes) && |cachedHashes| == |lines|
    requires origins == ScriptOrigins(ops, |ops|) && InRange(origins, |lines|)
    requires pool.Valid() && pool.used == used
    modifies pool
    ensures |origins| == |hashes|
    ensures Built(origins, lines, hashes, used, newLines, minted, tombstoned, |lines|, |hashes|)
    ensures pool.Valid() && pool.used == UsedAfter(used, NewLines(origins, |origins|))
  {
    newLines, minted, tombstoned := [], [], [];
    ScriptOriginsFacts(ops, cachedHashes, hashes, |ops|);
    for m := 0 to |ops|
      invariant OldAt(ops, m) <= |lines| && NewAt(ops, m) <= |origins|
      invariant Built(origins, lines, hashes, used, newLines, minted, tombstoned, OldAt(ops, m), NewAt(ops, m))
      invariant pool.Valid() && pool.used == UsedAfter(used, NewLines(origins, NewAt(ops, m)))
    {
      newLines, minted, tombstoned :=
        ReplayStep(ops, cachedHashes, hashes, m, lines, pool, newLines, minted, tombstoned, origins, used);
    }
  }

  /** Replays one diff between the cached and the on-disk hashes: equal lines keep
      their entries, deleted ones are tombstoned, inserted ones get fresh anchors. */
  method Reconcile(h: Hasher, diff: LineDiff, cached: FileAnchorState, onDisk: seq<string>, pool: Pool,
                   hints: Option<seq<Anchor>>)
      returns (outcome: Outcome)
    requires Lawful(diff) && pool.Valid()
    modifies pool
    ensures outcome.state == ReconciledState(h, diff, cached, onDisk, old(pool.used), hints)
    ensures outcome.tombstoned == Tombstones(h, diff, cached.lines, onDisk, hints)
    ensures ReportsMints(LineOrigins(h, diff, cached.lines, onDisk, hints), outcome.state.lines, outcome.minted,
                         |onDisk|)
    ensures pool.Valid()
    ensures pool.used
         == UsedAfter(old(pool.used), NewLines(LineOrigins(h, diff, cached.lines, onDisk, hints), |onDisk|))
  {
    var onDiskHashes := h.HashLines(onDisk);
    var cachedHashes := PoisonHinted(cached.lines, hints);
    var ops := diff(cachedHashes, onDiskHashes);
    ghost var origins := LineOrigins(h, diff, cached.lines, onDisk, hints);
    var newLines, minted, tombstoned :=
      ReplayScript(ops, cachedHashes, onDiskHashes, cached.lines, pool, origins, pool.used);
    return Outcome(cached.(contentDigest := h.digest(onDiskHashes), lines := newLines), minted, tombstoned);
  }
}
