/** Requested line ranges, clamped to the file, sorted and merged. */
module LineRanges {
  import opened Wrappers

  const USIZE_MAX: nat := 0xFFFF_FFFF_FFFF_FFFF

  type Usize = n: nat | n <= USIZE_MAX

  datatype Range = Range(start: Usize, end: Usize)

  datatype RangeError = ReverseRange(start: Usize, end: Usize) | RangeStartZero

  function SaturatingAdd(a: Usize, b: Usize): Usize {
    if a + b > USIZE_MAX then USIZE_MAX else a + b
  }

  function Min(a: Usize, b: Usize): Usize {
    if a <= b then a else b
  }

  function Max(a: Usize, b: Usize): Usize {
    if a >= b then a else b
  }

  predicate Within(r: Range, line: int) {
    r.start <= line <= r.end
  }

  predicate Covers(ranges: seq<Range>, line: int) {
    exists i :: 0 <= i < |ranges| && Within(ranges[i], line)
  }

  /** Non-empty ranges of the file's lines, in order, with at least a line between
      two of them. */
  predicate Normal(ranges: seq<Range>, total: nat) {
    && (forall i :: 0 <= i < |ranges| ==> 1 <= ranges[i].start <= ranges[i].end <= total)
    && (forall i, j :: 0 <= i < j < |ranges| ==> ranges[i].end + 1 < ranges[j].start)
  }

  function Fault(r: Range): Option<RangeError> {
    if r.end < r.start then Some(ReverseRange(r.start, r.end))
    else if r.start == 0 then Some(RangeStartZero)
    else None
  }

  predicate FaultsFirst(ranges: seq<Range>, from: nat, i: nat) {
    i < |ranges| && Fault(ranges[i]).Some? && forall j :: from <= j < i ==> Fault(ranges[j]).None?
  }

  /** The error of the first faulty range. */
  function FirstFault(ranges: seq<Range>, from: nat): (e: Option<RangeError>)
    requires from <= |ranges|
    ensures e.None? ==> forall i :: from <= i < |ranges| ==> Fault(ranges[i]).None?
    ensures e.Some? ==> exists i :: from <= i < |ranges| && FaultsFirst(ranges, from, i) && Fault(ranges[i]) == e
    decreases |ranges| - from
  {
    if from == |ranges| then None
    else if Fault(ranges[from]).Some? then Fault(ranges[from])
    else FirstFault(ranges, from + 1)
  }

  ghost predicate SortedByStart(ranges: seq<Range>) {
    forall i, j :: 0 <= i < j < |ranges| ==> ranges[i].start <= ranges[j].start
  }

  ghost predicate SameRanges(a: seq<Range>, b: seq<Range>) {
    forall r :: r in a <==> r in b
  }

  lemma SameRangesCover(a: seq<Range>, b: seq<Range>)
    requires SameRanges(a, b)
    ensures forall line :: Covers(a, line) <==> Covers(b, line)
  {
    forall line ensures Covers(a, line) <==> Covers(b, line) {
      SubrangesCover(a, b, line);
      SubrangesCover(b, a, line);
    }
  }

  lemma SubrangesCover(a: seq<Range>, b: seq<Range>, line: int)
    requires forall r :: r in a ==> r in b
    ensures Covers(a, line) ==> Covers(b, line)
  {
    if Covers(a, line) {
      var i :| 0 <= i < |a| && Within(a[i], line);
      assert a[i] in b;
    }
  }

  /** Clamps every range to the file, dropping those beyond it. */
  method Clamp(ranges: seq<Range>, total: Usize) returns (r: Result<seq<Range>, RangeError>)
    ensures r == match FirstFault(ranges, 0) { case Some(e) => Err(e) case None => Ok(ClampedTo(ranges, total)) }
  {
    var clamped := [];
    for i := 0 to |ranges|
      invariant FirstFault(ranges, 0) == FirstFault(ranges, i)
      invariant clamped == ClampedTo(ranges[..i], total)
    {
      assert ranges[..i + 1][..i] == ranges[..i];
      if ranges[i].end < ranges[i].start {
        return Err(ReverseRange(ranges[i].start, ranges[i].end));
      }
      if ranges[i].start == 0 {
        return Err(RangeStartZero);
      }
      var actualEnd := Min(ranges[i].end, total);
      if ranges[i].start > total {
        continue;
      }
      clamped := clamped + [Range(ranges[i].start, actualEnd)];
    }
    assert ranges[..|ranges|] == ranges;
    return Ok(clamped);
  }

  function ClampedTo(ranges: seq<Range>, total: Usize): seq<Range> {
    if ranges == [] then []
    else
      var last := ranges[|ranges| - 1];
      ClampedTo(ranges[..|ranges| - 1], total)
        + if last.start > total then [] else [Range(last.start, Min(last.end, total))]
  }

  lemma CoversAppend(ranges: seq<Range>, r: Range, line: int)
    ensures Covers(ranges + [r], line) <==> Covers(ranges, line) || Within(r, line)
  {
    if Covers(ranges, line) {
      var i :| 0 <= i < |ranges| && Within(ranges[i], line);
      assert Within((ranges + [r])[i], line);
    }
    assert (ranges + [r])[|ranges|] == r;
  }

  lemma {:induction false} ClampedCovers(ranges: seq<Range>, total: Usize, line: int)
    requires forall i :: 0 <= i < |ranges| ==> Fault(ranges[i]).None?
    ensures Covers(ClampedTo(ranges, total), line) <==> Covers(ranges, line) && 1 <= line <= total
    decreases |ranges|
  {
    if ranges != [] {
      var init, last := ranges[..|ranges| - 1], ranges[|ranges| - 1];
      assert ranges == init + [last];
      ClampedCovers(init, total, line);
      CoversAppend(init, last, line);
      if last.start > total {
        assert ClampedTo(ranges, total) == ClampedTo(init, total);
      } else {
        CoversAppend(ClampedTo(init, total), Range(last.start, Min(last.end, total)), line);
      }
    }
  }

  lemma {:induction false} ClampedWithin(ranges: seq<Range>, total: Usize)
    requires forall i :: 0 <= i < |ranges| ==> Fault(ranges[i]).None?
    ensures forall r :: r in ClampedTo(ranges, total) ==> 1 <= r.start <= r.end <= total
    decreases |ranges|
  {
    if ranges != [] {
      ClampedWithin(ranges[..|ranges| - 1], total);
    }
  }

  method InsertByStart(sorted: seq<Range>, r: Range) returns (longer: seq<Range>)
    requires SortedByStart(sorted)
    ensures SortedByStart(longer) && SameRanges(longer, sorted + [r])
  {
    var at := |sorted|;
    while at > 0 && sorted[at - 1].start > r.start
      invariant 0 <= at <= |sorted|
      invariant forall k :: at <= k < |sorted| ==> sorted[k].start > r.start
    {
      at := at - 1;
    }
    longer := sorted[..at] + [r] + sorted[at..];
    InsertedIsSorted(sorted[..at], r, sorted[at..]);
    InsertedIsSame(sorted[..at], r, sorted[at..]);
    assert sorted == sorted[..at] + sorted[at..];
  }

  lemma InsertedIsSorted(before: seq<Range>, r: Range, after: seq<Range>)
    requires SortedByStart(before) && SortedByStart(after)
    requires forall x :: x in before ==> x.start <= r.start
    requires forall x :: x in after ==> r.start < x.start
    ensures SortedByStart(before + [r] + after)
  {
  }

  lemma InsertedIsSame(before: seq<Range>, r: Range, after: seq<Range>)
    ensures SameRanges(before + [r] + after, before + after + [r])
  {
  }

  /** Any order of the ranges by their starts will do. */
  method SortByStart(ranges: seq<Range>) returns (sorted: seq<Range>)
    ensures SortedByStart(sorted) && SameRanges(sorted, ranges)
  {
    sorted := [];
    for i := 0 to |ranges|
      invariant SortedByStart(sorted) && SameRanges(sorted, ranges[..i])
    {
      assert ranges[..i + 1] == ranges[..i] + [ranges[i]];
      sorted := InsertByStart(sorted, ranges[i]);
    }
    assert ranges[..|ranges|] == ranges;
  }

  /** Joins a range into the last one when it starts inside or right behind it. */
  method Join(merged: seq<Range>, r: Range, total: Usize) returns (joined: seq<Range>)
    requires Normal(merged, total) && 1 <= r.start <= r.end <= total
    requires merged != [] ==> merged[|merged| - 1].start <= r.start
    ensures Normal(joined, total) && joined != [] && joined[|joined| - 1].start <= r.start
    ensures forall line :: Covers(joined, line) <==> Covers(merged, line) || Within(r, line)
  {
    if merged == [] {
      CoversOne(r);
      return [r];
    }
    var init, last := merged[..|merged| - 1], merged[|merged| - 1];
    assert merged == init + [last];
    if r.start <= SaturatingAdd(last.end, 1) {
      var wider := Range(last.start, Max(last.end, r.end));
      joined := init + [wider];
      forall line ensures Covers(joined, line) <==> Covers(merged, line) || Within(r, line) {
        CoversAppend(init, last, line);
        CoversAppend(init, wider, line);
      }
    } else {
      joined := merged + [r];
      forall line ensures Covers(joined, line) <==> Covers(merged, line) || Within(r, line) {
        CoversAppend(merged, r, line);
      }
    }
  }

  lemma CoversOne(r: Range)
    ensures forall line :: Covers([r], line) <==> Within(r, line)
  {
    forall line ensures Covers([r], line) <==> Within(r, line) {
      CoversAppend([], r, line);
      assert [] + [r] == [r];
    }
  }

  method Merge(sorted: seq<Range>, total: Usize) returns (merged: seq<Range>)
    requires SortedByStart(sorted) && forall r :: r in sorted ==> 1 <= r.start <= r.end <= total
    ensures Normal(merged, total) && forall line :: Covers(merged, line) <==> Covers(sorted, line)
  {
    merged := [];
    for i := 0 to |sorted|
      invariant Normal(merged, total)
      invariant merged != [] ==> i > 0 && merged[|merged| - 1].start <= sorted[i - 1].start
      invariant forall line :: Covers(merged, line) <==> Covers(sorted[..i], line)
    {
      assert sorted[i] in sorted;
      forall line ensures Covers(sorted[..i + 1], line) <==> Covers(sorted[..i], line) || Within(sorted[i], line) {
        CoversAppend(sorted[..i], sorted[i], line);
        assert sorted[..i + 1] == sorted[..i] + [sorted[i]];
      }
      merged := Join(merged, sorted[i], total);
    }
    assert sorted[..|sorted|] == sorted;
  }

  /** The first faulty range is the error; otherwise the result covers exactly the
      requested lines that the file has. */
  method MergeRanges(ranges: seq<Range>, total: Usize) returns (r: Result<seq<Range>, RangeError>)
    ensures r.Err? <==> exists i :: 0 <= i < |ranges| && Fault(ranges[i]).Some?
    ensures r.Err? ==> FirstFault(ranges, 0) == Some(r.error)
    ensures r.Ok? ==> Normal(r.value, total)
    ensures r.Ok? ==> forall line :: Covers(r.value, line) <==> Covers(ranges, line) && 1 <= line <= total
  {
    FaultFound(ranges, 0);
    var clamped := Clamp(ranges, total);
    if clamped.Err? {
      return Err(clamped.error);
    }
    ClampedWithin(ranges, total);
    var sorted := SortByStart(clamped.value);
    SameRangesCover(sorted, clamped.value);
    forall line ensures Covers(clamped.value, line) <==> Covers(ranges, line) && 1 <= line <= total {
      ClampedCovers(ranges, total, line);
    }
    var merged := Merge(sorted, total);
    return Ok(merged);
  }

  lemma {:induction false} FaultFound(ranges: seq<Range>, from: nat)
    requires from <= |ranges|
    ensures FirstFault(ranges, from).Some? <==> exists i :: from <= i < |ranges| && Fault(ranges[i]).Some?
    decreases |ranges| - from
  {
    if from < |ranges| {
      FaultFound(ranges, from + 1);
    }
  }

  // ----- There is only one answer -----

  /** A normal list is determined by the lines it covers. */
  lemma {:induction false} NormalUnique(a: seq<Range>, b: seq<Range>, total: nat)
    requires Normal(a, total) && Normal(b, total)
    requires forall line :: Covers(a, line) <==> Covers(b, line)
    ensures a == b
    decreases |a|
  {
    if a == [] {
      if b != [] { assert Within(b[0], b[0].start) && Covers(b, b[0].start); }
    } else {
      assert Within(a[0], a[0].start) && Covers(a, a[0].start);
      FirstRangesAgree(a, b, total);
      assert a == [a[0]] + a[1..] && b == [b[0]] + b[1..];
      forall line ensures Covers(a[1..], line) <==> Covers(b[1..], line) {
        RestCovers(a, total, line);
        RestCovers(b, total, line);
      }
      NormalUnique(a[1..], b[1..], total);
    }
  }

  lemma StartsAtSmallest(a: seq<Range>, total: nat, line: int)
    requires Normal(a, total) && a != [] && Covers(a, line)
    ensures a[0].start <= line
  {
    var i :| 0 <= i < |a| && Within(a[i], line);
  }

  lemma EndsBeforeGap(a: seq<Range>, total: nat)
    requires Normal(a, total) && a != []
    ensures !Covers(a, a[0].end + 1)
    ensures forall line :: a[0].start <= line <= a[0].end ==> Covers(a, line)
  {
    forall line | a[0].start <= line <= a[0].end ensures Covers(a, line) {
      assert Within(a[0], line);
    }
  }

  lemma FirstRangesAgree(a: seq<Range>, b: seq<Range>, total: nat)
    requires Normal(a, total) && Normal(b, total) && a != [] && b != []
    requires forall line :: Covers(a, line) <==> Covers(b, line)
    ensures a[0] == b[0]
  {
    EndsBeforeGap(a, total);
    EndsBeforeGap(b, total);
    assert Covers(a, a[0].start) && Covers(b, b[0].start);
    StartsAtSmallest(a, total, b[0].start);
    StartsAtSmallest(b, total, a[0].start);
  }

  lemma RestCovers(a: seq<Range>, total: nat, line: int)
    requires Normal(a, total) && a != []
    ensures Covers(a[1..], line) <==> Covers(a, line) && line > a[0].end
  {
    if Covers(a[1..], line) {
      var i :| 0 <= i < |a| - 1 && Within(a[1..][i], line);
      assert Within(a[i + 1], line);
    }
    if Covers(a, line) && line > a[0].end {
      var i :| 0 <= i < |a| && Within(a[i], line);
      assert Within(a[1..][i - 1], line);
    }
  }

  /** Merging what was merged changes nothing. */
  method MergeTwice(ranges: seq<Range>, total: Usize)
      returns (once: Result<seq<Range>, RangeError>, twice: Result<seq<Range>, RangeError>)
    ensures once.Ok? ==> twice == once
  {
    once := MergeRanges(ranges, total);
    twice := once;
    if once.Ok? {
      twice := MergeRanges(once.value, total);
      NormalIsItself(once.value, total);
      NormalUnique(once.value, twice.value, total);
    }
  }

  lemma NormalIsItself(ranges: seq<Range>, total: nat)
    requires Normal(ranges, total)
    ensures forall i :: 0 <= i < |ranges| ==> Fault(ranges[i]).None?
    ensures forall line :: Covers(ranges, line) ==> 1 <= line <= total
  {
  }
}
