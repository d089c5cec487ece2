/** Carrying anchors over to a new version of a file: each new line either keeps
    the anchor of an old line or takes the next freshly minted one. */
module Carrying {
  import opened Anchors
  import opened Pools
  import opened GapModel

  /** How many of the first `k` lines are new. */
  function NewLines(origins: seq<LineOrigin>, k: nat): (n: nat)
    requires k <= |origins|
    ensures n <= k
  {
    if k == 0 then 0 else NewLines(origins, k - 1) + if origins[k - 1] == Inserted then 1 else 0
  }

  lemma {:induction false} NewLinesGrow(origins: seq<LineOrigin>, k: nat, l: nat)
    requires k <= l <= |origins|
    ensures NewLines(origins, k) <= NewLines(origins, l)
    ensures k < l && origins[k] == Inserted ==> NewLines(origins, k) < NewLines(origins, l)
  {
    if k < l {
      NewLinesGrow(origins, k, l - 1);
    }
  }

  ghost predicate InRange(origins: seq<LineOrigin>, count: nat) {
    forall k :: 0 <= k < |origins| && origins[k].Carried? ==> origins[k].index < count
  }

  /** Carried indices exist and keep their order. */
  ghost predicate InOrder(origins: seq<LineOrigin>, count: nat) {
    && InRange(origins, count)
    && forall k, l :: 0 <= k < l < |origins| && origins[k].Carried? && origins[l].Carried? ==>
         origins[k].index < origins[l].index
  }

  ghost predicate Carries(origins: seq<LineOrigin>, i: nat) {
    exists k :: 0 <= k < |origins| && origins[k] == Carried(i)
  }

  /** The anchor of new line `k`. */
  ghost function AnchorAt(origins: seq<LineOrigin>, prev: seq<Anchor>, used: set<Anchor>, k: nat): Anchor
    requires InRange(origins, |prev|) && k < |origins|
  {
    if origins[k].Carried? then prev[origins[k].index] else MintNumber(used, NewLines(origins, k))
  }

  ghost function NewAnchors(origins: seq<LineOrigin>, prev: seq<Anchor>, used: set<Anchor>): (anchors: seq<Anchor>)
    requires InRange(origins, |prev|)
    ensures |anchors| == |origins|
    ensures forall k :: 0 <= k < |origins| ==> anchors[k] == AnchorAt(origins, prev, used, k)
  {
    seq(|origins|, k requires 0 <= k < |origins| && InRange(origins, |prev|) => AnchorAt(origins, prev, used, k))
  }

  /** A carried line keeps the anchor of its old line, which was in use; a minted
      anchor was not. */
  lemma CarriedOrMinted(origins: seq<LineOrigin>, prev: seq<Anchor>, used: set<Anchor>, k: nat)
    requires InOrder(origins, |prev|) && Elements(prev) <= used && k < |origins|
    ensures origins[k].Carried? <==> AnchorAt(origins, prev, used, k) in used
    ensures AnchorAt(origins, prev, used, k) in UsedAfter(used, NewLines(origins, |origins|))
  {
    var n := NewLines(origins, |origins|);
    MintsAreFresh(used, 0, n);
    if origins[k].Carried? {
      assert prev[origins[k].index] in Elements(prev);
    } else {
      NewLinesGrow(origins, k, |origins|);
      MintsAreFresh(used, NewLines(origins, k), n);
      MintsAreFresh(used, NewLines(origins, k), NewLines(origins, k));
    }
  }

  lemma TwoAnchorsDiffer(origins: seq<LineOrigin>, prev: seq<Anchor>, used: set<Anchor>, k: nat, l: nat)
    requires InOrder(origins, |prev|) && Distinct(prev) && Elements(prev) <= used
    requires k < l < |origins|
    ensures AnchorAt(origins, prev, used, k) != AnchorAt(origins, prev, used, l)
  {
    CarriedOrMinted(origins, prev, used, k);
    CarriedOrMinted(origins, prev, used, l);
    if origins[k] == Inserted && origins[l] == Inserted {
      NewLinesGrow(origins, k, l);
      MintsAreFresh(used, NewLines(origins, k), NewLines(origins, l));
    }
  }

  /** Anchors stay pairwise distinct. */
  lemma NewAnchorsDistinct(origins: seq<LineOrigin>, prev: seq<Anchor>, used: set<Anchor>)
    requires InOrder(origins, |prev|) && Distinct(prev) && Elements(prev) <= used
    ensures Distinct(NewAnchors(origins, prev, used))
  {
    forall k, l | 0 <= k < l < |origins|
      ensures NewAnchors(origins, prev, used)[k] != NewAnchors(origins, prev, used)[l]
    {
      TwoAnchorsDiffer(origins, prev, used, k, l);
    }
  }

  /** The anchors of the first `n` old lines that are not carried, in order. */
  ghost function Dropped(origins: seq<LineOrigin>, prev: seq<Anchor>, n: nat): seq<Anchor>
    requires n <= |prev|
  {
    if n == 0 then []
    else Dropped(origins, prev, n - 1) + if Carries(origins, n - 1) then [] else [prev[n - 1]]
  }

  lemma {:induction false} DroppedAre(origins: seq<LineOrigin>, prev: seq<Anchor>, n: nat)
    requires n <= |prev|
    ensures forall i :: 0 <= i < n && !Carries(origins, i) ==> prev[i] in Dropped(origins, prev, n)
    ensures forall a :: a in Dropped(origins, prev, n) ==>
      exists i :: 0 <= i < n && !Carries(origins, i) && a == prev[i]
  {
    if n > 0 {
      DroppedAre(origins, prev, n - 1);
    }
  }

  /** Carried and dropped anchors partition the old ones. */
  lemma CarriedOrDropped(origins: seq<LineOrigin>, prev: seq<Anchor>, used: set<Anchor>, i: nat)
    requires InOrder(origins, |prev|) && Distinct(prev) && Elements(prev) <= used && i < |prev|
    ensures prev[i] in NewAnchors(origins, prev, used) <==> Carries(origins, i)
    ensures prev[i] in Dropped(origins, prev, |prev|) <==> !Carries(origins, i)
  {
    DroppedAre(origins, prev, |prev|);
    var anchors := NewAnchors(origins, prev, used);
    assert prev[i] in Elements(prev);
    if Carries(origins, i) {
      var k :| 0 <= k < |origins| && origins[k] == Carried(i);
      assert anchors[k] == prev[i];
    } else {
      forall k | 0 <= k < |anchors| ensures anchors[k] != prev[i] {
        CarriedOrMinted(origins, prev, used, k);
      }
    }
  }
}
