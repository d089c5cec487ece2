/** The anchor pool: mints anchors that no line of the file uses. */
module Pools {
  import opened Anchors

  ghost function UsedFrom(used: set<Anchor>, n: nat): set<Anchor> {
    set a | a in used && Rank(a) >= n
  }

  lemma UsedFromShrinks(used: set<Anchor>, n: nat)
    requires AnchorOf(n) in used
    ensures |UsedFrom(used, n + 1)| < |UsedFrom(used, n)|
  {
    RankBijection(FIRST, n);
    assert UsedFrom(used, n + 1) + {AnchorOf(n)} <= UsedFrom(used, n);
    assert AnchorOf(n) !in UsedFrom(used, n + 1);
    CardinalityMonotone(UsedFrom(used, n + 1) + {AnchorOf(n)}, UsedFrom(used, n));
  }

  lemma {:induction false} CardinalityMonotone<T>(a: set<T>, b: set<T>)
    requires a <= b
    ensures |a| <= |b|
  {
    if a != {} {
      var x :| x in a;
      CardinalityMonotone(a - {x}, b - {x});
    }
  }

  ghost function LeastFrom(used: set<Anchor>, n: nat): Anchor
    decreases |UsedFrom(used, n)|
  {
    if AnchorOf(n) in used then
      UsedFromShrinks(used, n);
      LeastFrom(used, n + 1)
    else
      AnchorOf(n)
  }

  /** The least anchor, in canonical order, outside a finite set. */
  ghost function LeastUnused(used: set<Anchor>): Anchor {
    LeastFrom(used, 0)
  }

  ghost predicate IsLeastUnused(used: set<Anchor>, a: Anchor) {
    && a !in used
    && forall b: Anchor :: Rank(b) < Rank(a) ==> b in used
  }

  lemma {:induction false} LeastFromIsLeast(used: set<Anchor>, n: nat)
    requires forall b: Anchor :: Rank(b) < n ==> b in used
    ensures IsLeastUnused(used, LeastFrom(used, n))
    decreases |UsedFrom(used, n)|
  {
    RankBijection(FIRST, n);
    if AnchorOf(n) in used {
      UsedFromShrinks(used, n);
      forall b: Anchor | Rank(b) < n + 1 ensures b in used {
        if Rank(b) == n { RankInjective(b, AnchorOf(n)); }
      }
      LeastFromIsLeast(used, n + 1);
    }
  }

  /** `LeastUnused` is characterised by being unused and having every lower anchor used. */
  lemma LeastUnusedUnique(used: set<Anchor>, a: Anchor)
    ensures IsLeastUnused(used, a) <==> a == LeastUnused(used)
  {
    LeastFromIsLeast(used, 0);
    var least := LeastUnused(used);
    if IsLeastUnused(used, a) {
      assert Rank(a) == Rank(least);
      RankInjective(a, least);
    }
  }

  /** The used set after `count` mints. */
  ghost function UsedAfter(used: set<Anchor>, count: nat): set<Anchor> {
    if count == 0 then used
    else UsedAfter(used, count - 1) + {LeastUnused(UsedAfter(used, count - 1))}
  }

  /** The anchor that mint number `c`, counting from 0, hands out. */
  ghost function MintNumber(used: set<Anchor>, c: nat): Anchor {
    LeastUnused(UsedAfter(used, c))
  }

  /** Mints never repeat an anchor and never reuse one. */
  lemma {:induction false} MintsAreFresh(used: set<Anchor>, c: nat, d: nat)
    requires c <= d
    ensures used <= UsedAfter(used, c) <= UsedAfter(used, d)
    ensures MintNumber(used, d) !in UsedAfter(used, d)
    ensures MintNumber(used, d) !in used
    ensures c < d ==> MintNumber(used, c) in UsedAfter(used, d)
    decreases d
  {
    LeastUnusedUnique(UsedAfter(used, d), MintNumber(used, d));
    if c < d {
      MintsAreFresh(used, c, d - 1);
    } else if d > 0 {
      MintsAreFresh(used, d - 1, d - 1);
    }
  }

  /** The used set after some mints holds nothing else. */
  lemma {:induction false} UsedAfterHolds(used: set<Anchor>, count: nat, a: Anchor)
    requires a in UsedAfter(used, count) && a !in used
    ensures exists c: nat :: c < count && a == MintNumber(used, c)
  {
    if a in UsedAfter(used, count - 1) {
      UsedAfterHolds(used, count - 1, a);
    } else {
      assert a == MintNumber(used, count - 1);
    }
  }

  ghost function Elements(anchors: seq<Anchor>): set<Anchor> {
    set a | a in anchors
  }

  ghost predicate Distinct(anchors: seq<Anchor>) {
    forall i, j :: 0 <= i < j < |anchors| ==> anchors[i] != anchors[j]
  }

  ghost predicate AllUsedBelow(used: set<Anchor>, n: nat) {
    forall a: Anchor :: Rank(a) < n ==> a in used
  }

  /** One turn of the minting loop: examining `candidate` either finds the least
      unused anchor or leaves fewer used anchors ahead. */
  lemma ExamineCandidate(used: set<Anchor>, candidate: Anchor)
    requires AllUsedBelow(used, Rank(candidate))
    ensures AllUsedBelow(used + {candidate}, Rank(candidate) + 1)
    ensures candidate !in used ==> candidate == LeastUnused(used)
    ensures candidate in used ==> |UsedFrom(used, Rank(candidate) + 1)| < |UsedFrom(used, Rank(candidate))|
  {
    forall a: Anchor | Rank(a) < Rank(candidate) + 1 ensures a in used + {candidate} {
      if Rank(a) == Rank(candidate) { RankInjective(a, candidate); }
    }
    if candidate in used {
      RankBijection(candidate, 0);
      UsedFromShrinks(used, Rank(candidate));
      assert used + {candidate} == used;
    } else {
      LeastUnusedUnique(used, candidate);
    }
  }

  class Pool {
    var used: set<Anchor>
    var next: Anchor

    ghost predicate Valid()
      reads this
    {
      AllUsedBelow(used, Rank(next))
    }

    constructor FromUsed(used: set<Anchor>)
      ensures Valid() && this.used == used
    {
      this.used := used;
      this.next := FIRST;
      FirstRank();
    }

    /** Returns the least anchor not in use and records it as used. */
    method Mint() returns (minted: Anchor)
      requires Valid()
      modifies this
      ensures Valid()
      ensures minted == LeastUnused(old(used))
      ensures used == old(used) + {minted}
    {
      while true
        invariant Valid() && used == old(used)
        decreases |UsedFrom(used, Rank(next))|
      {
        var candidate := next;
        next := Increment(next);
        ExamineCandidate(used, candidate);
        if candidate !in used {
          used := used + {candidate};
          return candidate;
        }
        assert used + {candidate} == used;
      }
    }
  }
}
