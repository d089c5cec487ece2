/** Provider labels for effort percentages: where each label sits, and which label an
    effort gets. */
module EffortTiers {
  import opened Bits
  import opened Wrappers

  const MAX_EFFORT: nat := 100

  datatype TierError = TooFewLabels | EmptyLabel | RepeatedLabel

  /** The points of the labels: the ends are kept for the first and the last, and the
      others are spread evenly from 1 to 99, rounded. */
  function Point(count: nat, index: nat): (p: nat)
    requires 2 <= count && index < count
  {
    if index == 0 then 0
    else if index == count - 1 then MAX_EFFORT
    else if count == 3 then 50
    else 1 + ((index - 1) * 98 + (count - 3) / 2) / (count - 3)
  }

  function Points(count: nat): (points: seq<nat>)
    requires 2 <= count
    ensures |points| == count
  {
    seq(count, i requires 0 <= i < count => Point(count, i))
  }

  method TierPoints(count: nat) returns (points: seq<nat>)
    requires 2 <= count
    ensures points == Points(count)
  {
    var interior := count - 2;
    points := [0];
    if interior == 1 {
      points := points + [50];
    } else if interior > 1 {
      for index := 0 to interior
        invariant |points| == index + 1
        invariant forall i :: 0 <= i <= index ==> points[i] == Point(count, i)
      {
        points := points + [1 + (index * 98 + (interior - 1) / 2) / (interior - 1)];
      }
    }
    points := points + [100];
  }

  lemma QuotientBelow(x: nat, d: nat, q: nat)
    requires d > 0 && x < (q + 1) * d
    ensures x / d <= q
  {
    DivMod(x, d);
    if x / d > q {
      LessTimes(q + 1, x / d, d);
    }
  }

  lemma LessTimes(a: nat, b: nat, d: nat)
    requires a <= b
    ensures a * d <= b * d
  {
    assert b * d == a * d + (b - a) * d;
  }

  lemma QuotientGrows(x: nat, y: nat, d: nat)
    requires d > 0 && x <= y
    ensures x / d <= y / d
  {
    DivMod(y, d);
    assert (y / d + 1) * d == (y / d) * d + d;
    QuotientBelow(x, d, y / d);
  }

  /** An inner label sits from 1 to 99, within half of the ideal spacing of its even
      share: with `s` spaces, twice the distance times `s` is at most `s`. */
  lemma InnerPoint(count: nat, index: nat)
    requires 3 < count && 0 < index < count - 1
    ensures 1 <= Point(count, index) <= 99
    ensures var s := count - 3;
      -s <= 2 * (s * (Point(count, index) - 1) - (index - 1) * 98) <= s
  {
    var s := count - 3;
    var x := (index - 1) * 98 + s / 2;
    DivMod(x, s);
    assert Point(count, index) - 1 == x / s;
    assert s * (x / s) == (x / s) * s;
    LessTimes(index - 1, s, 98);
    assert x < (98 + 1) * s;
    QuotientBelow(x, s, 98);
  }

  /** The points never go down, and stay within the percentages. */
  lemma PointsGrow(count: nat, i: nat, j: nat)
    requires 2 <= count && i <= j < count
    ensures Point(count, i) <= Point(count, j) <= MAX_EFFORT
  {
    if count > 3 {
      if 0 < j < count - 1 {
        InnerPoint(count, j);
      }
      if 0 < i < count - 1 {
        InnerPoint(count, i);
      }
      if 0 < i && j < count - 1 {
        LessTimes(i - 1, j - 1, 98);
        QuotientGrows((i - 1) * 98 + (count - 3) / 2, (j - 1) * 98 + (count - 3) / 2, count - 3);
      }
    }
  }

  function Distance(a: nat, b: nat): nat {
    if a < b then b - a else a - b
  }

  /** The last of the nearest points. */
  ghost predicate Nearest(points: seq<nat>, target: nat, best: nat) {
    && best < |points|
    && (forall j :: 0 <= j < |points| ==> Distance(target, points[best]) <= Distance(target, points[j]))
    && (forall j :: best < j < |points| ==> Distance(target, points[best]) < Distance(target, points[j]))
  }

  lemma NearestUnique(points: seq<nat>, target: nat, a: nat, b: nat)
    requires Nearest(points, target, a) && Nearest(points, target, b)
    ensures a == b
  {
    assert Distance(target, points[a]) <= Distance(target, points[b]);
    assert Distance(target, points[b]) <= Distance(target, points[a]);
  }

  lemma NearestIs(points: seq<nat>, target: nat, best: nat, index: nat)
    requires Nearest(points, target, best)
    ensures Nearest(points, target, index) <==> index == best
  {
    if Nearest(points, target, index) { NearestUnique(points, target, best, index); }
  }

  /** Two labels share the percentages evenly; of three the second sits in the middle. */
  lemma FewLabels(effort: nat, index: nat)
    requires effort <= MAX_EFFORT
    ensures Nearest(Points(2), effort, index) <==> index == if effort < 50 then 0 else 1
    ensures Nearest(Points(3), effort, index) <==> index == if effort < 25 then 0 else if effort < 75 then 1 else 2
  {
    var two, three := Points(2), Points(3);
    assert two[0] == 0 && two[1] == 100;
    assert three[0] == 0 && three[1] == 50 && three[2] == 100;
    NearestIs(two, effort, if effort < 50 then 0 else 1, index);
    NearestIs(three, effort, if effort < 25 then 0 else if effort < 75 then 1 else 2, index);
  }

  class EffortTiers {
    const labels: seq<string>

    ghost predicate Valid() {
      |labels| >= 2 && NoRepeats(labels)
    }

    constructor (labels: seq<string>)
      requires |labels| >= 2 && NoRepeats(labels)
      ensures Valid() && this.labels == labels
    {
      this.labels := labels;
    }

    /** Rejects too few labels, blank ones and repeated ones, in this order. */
    static method New(labels: seq<string>) returns (r: Result<EffortTiers, TierError>)
      ensures match Rejection(labels)
        case Some(e) => r == Err(e)
        case None => r.Ok? && r.value.Valid() && r.value.labels == labels
    {
      if |labels| < 2 {
        return Err(TooFewLabels);
      }
      if exists i :: 0 <= i < |labels| && IsBlank(labels[i]) {
        return Err(EmptyLabel);
      }
      for i := 0 to |labels|
        invariant NoRepeats(labels[..i])
      {
        if labels[i] in labels[..i] {
          return Err(RepeatedLabel);
        }
        assert labels[..i + 1] == labels[..i] + [labels[i]];
      }
      assert labels[..|labels|] == labels;
      var tiers := new EffortTiers(labels);
      return Ok(tiers);
    }

    /** The label nearest to the effort, the higher one of two that are as near. */
    method LabelFor(effort: nat) returns (name: string, index: nat)
      requires Valid() && effort <= MAX_EFFORT
      ensures Nearest(Points(|labels|), effort, index) && name == labels[index]
    {
      var points := TierPoints(|labels|);
      var best := 0;
      var bestDistance := Distance(effort, points[0]);
      for i := 1 to |points|
        invariant 0 <= best < i && bestDistance == Distance(effort, points[best])
        invariant forall j :: 0 <= j < i ==> bestDistance <= Distance(effort, points[j])
        invariant forall j :: best < j < i ==> bestDistance < Distance(effort, points[j])
      {
        var distance := Distance(effort, points[i]);
        if distance <= bestDistance {
          best := i;
          bestDistance := distance;
        }
      }
      index := best;
      name := labels[best];
    }
  }

  predicate IsBlank(name: string) {
    forall i :: 0 <= i < |name| ==> '\t' <= name[i] <= '\r' || name[i] == ' '
  }

  function Rejection(labels: seq<string>): Option<TierError> {
    if |labels| < 2 then Some(TooFewLabels)
    else if exists i :: 0 <= i < |labels| && IsBlank(labels[i]) then Some(EmptyLabel)
    else if !NoRepeats(labels) then Some(RepeatedLabel)
    else None
  }

  predicate NoRepeats(labels: seq<string>) {
    forall i, j :: 0 <= i < j < |labels| ==> labels[i] != labels[j]
  }

  lemma LowerIsNotNearest(count: nat, less: nat, more: nat, a: nat, b: nat)
    requires 2 <= count && less <= more && b < a
    requires Nearest(Points(count), less, a)
    ensures !Nearest(Points(count), more, b)
  {
    PointsGrow(count, b, a);
    var points := Points(count);
    assert points[b] <= points[a];
    assert Distance(less, points[a]) <= Distance(less, points[b]);
    assert Distance(more, points[a]) <= Distance(more, points[b]);
  }

  /** More effort never gets a lower label. */
  lemma LabelsGrow(count: nat, less: nat, more: nat, a: nat, b: nat)
    requires 2 <= count && less <= more
    requires Nearest(Points(count), less, a) && Nearest(Points(count), more, b)
    ensures a <= b
  {
    if b < a {
      LowerIsNotNearest(count, less, more, a, b);
    }
  }

  /** No effort gets the first label and full effort the last, however many labels
      share the points in between. */
  lemma EndsAreReserved(count: nat)
    requires 2 <= count
    ensures Nearest(Points(count), 0, 0) && Nearest(Points(count), MAX_EFFORT, count - 1)
  {
    forall j | 0 <= j < count ensures Point(count, j) <= MAX_EFFORT && (j > 0 ==> Point(count, j) > 0) {
      PointsGrow(count, j, count - 1);
      if count > 3 && 0 < j < count - 1 {
        InnerPoint(count, j);
      }
    }
    assert Points(count)[0] == 0;
  }
}
