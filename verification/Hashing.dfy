/** Line hashes and content digests. The hash functions are parameters: the
    64-bit values they return need not be distinct. */
module Hashing {
  const HASH_SPACE: nat := 0x1_0000_0000_0000_0000

  type Hash = h: nat | h < HASH_SPACE

  datatype Hasher = Hasher(
    trim: string -> string,      // strips surrounding white space
    text: string -> Hash,        // of a trimmed, non-blank line
    blank: nat -> Hash,          // of the n-th blank line, counting from 1
    digest: seq<Hash> -> Hash)
  {
    predicate Blank(line: string) {
      trim(line) == ""
    }

    function BlanksIn(lines: seq<string>): nat {
      if lines == [] then 0
      else BlanksIn(lines[..|lines| - 1]) + if Blank(lines[|lines| - 1]) then 1 else 0
    }

    function HashAt(lines: seq<string>, i: nat): Hash
      requires i < |lines|
    {
      if Blank(lines[i]) then blank(BlanksIn(lines[..i]) + 1) else text(trim(lines[i]))
    }

    function HashesOf(lines: seq<string>): (hashes: seq<Hash>)
      ensures |hashes| == |lines|
    {
      seq(|lines|, i requires 0 <= i < |lines| => HashAt(lines, i))
    }

    /** One pass with a running count of blank lines. */
    method HashLines(lines: seq<string>) returns (hashes: seq<Hash>)
      ensures hashes == HashesOf(lines)
    {
      hashes := [];
      var blankIndex := 0;
      for i := 0 to |lines|
        invariant blankIndex == BlanksIn(lines[..i])
        invariant |hashes| == i && forall k :: 0 <= k < i ==> hashes[k] == HashAt(lines, k)
      {
        var trimmed := trim(lines[i]);
        assert lines[..i + 1][..i] == lines[..i];
        if trimmed == "" {
          blankIndex := blankIndex + 1;
          hashes := hashes + [blank(blankIndex)];
        } else {
          hashes := hashes + [text(trimmed)];
        }
      }
    }

    /** No two different trimmed texts of these lines share a hash, and none
        shares a hash with a blank line. */
    ghost predicate CollisionFree(lines: set<string>) {
      && (forall x, y :: x in lines && y in lines && !Blank(x) && !Blank(y) && text(trim(x)) == text(trim(y))
            ==> trim(x) == trim(y))
      && (forall x, n: nat :: x in lines && !Blank(x) ==> text(trim(x)) != blank(n))
    }

    ghost predicate SameTrimmed(a: seq<string>, b: seq<string>) {
      |a| == |b| && forall i :: 0 <= i < |a| ==> trim(a[i]) == trim(b[i])
    }

    lemma {:induction false} BlanksAgree(a: seq<string>, b: seq<string>)
      requires SameTrimmed(a, b)
      ensures BlanksIn(a) == BlanksIn(b)
    {
      if a != [] {
        BlanksAgree(a[..|a| - 1], b[..|b| - 1]);
      }
    }

    lemma SameTrimmedHashes(a: seq<string>, b: seq<string>)
      requires SameTrimmed(a, b)
      ensures HashesOf(a) == HashesOf(b)
    {
      forall i | 0 <= i < |a| ensures HashAt(a, i) == HashAt(b, i) {
        BlanksAgree(a[..i], b[..i]);
      }
    }

    lemma HashDecides(a: seq<string>, b: seq<string>, i: nat)
      requires i < |a| && i < |b| && CollisionFree({a[i], b[i]}) && HashAt(a, i) == HashAt(b, i)
      ensures trim(a[i]) == trim(b[i])
    {
    }

    /** The blank lines in front of line `n`. */
    ghost function BlanksBelow(lines: seq<string>, n: nat): set<nat>
      requires n <= |lines|
    {
      set i | 0 <= i < n && Blank(lines[i])
    }

    lemma {:induction false} BlanksAreCounted(lines: seq<string>, n: nat)
      requires n <= |lines|
      ensures BlanksIn(lines[..n]) == |BlanksBelow(lines, n)|
    {
      if n > 0 {
        BlanksAreCounted(lines, n - 1);
        assert lines[..n][..n - 1] == lines[..n - 1];
        if Blank(lines[n - 1]) {
          assert BlanksBelow(lines, n) == BlanksBelow(lines, n - 1) + {n - 1};
        } else {
          assert BlanksBelow(lines, n) == BlanksBelow(lines, n - 1);
        }
      } else {
        assert BlanksBelow(lines, 0) == {};
      }
    }

    /** The k-th blank line has the hash of the k-th blank line, and every other line that
        of its own trimmed text. */
    lemma HashesAre(lines: seq<string>, i: nat)
      requires i < |lines|
      ensures HashesOf(lines)[i] ==
        if trim(lines[i]) == "" then blank(|BlanksBelow(lines, i + 1)|) else text(trim(lines[i]))
    {
      BlanksAreCounted(lines, i);
      if Blank(lines[i]) { assert BlanksBelow(lines, i + 1) == BlanksBelow(lines, i) + {i}; }
    }

    /** Anchors survive reindentation: changing only surrounding white space
        changes no hash, and without collisions nothing else keeps them all. */
    lemma HashesIgnoreWhitespace(a: seq<string>, b: seq<string>)
      requires CollisionFree((set x | x in a) + (set y | y in b))
      ensures HashesOf(a) == HashesOf(b) <==> SameTrimmed(a, b)
    {
      if SameTrimmed(a, b) {
        SameTrimmedHashes(a, b);
      }
      if HashesOf(a) == HashesOf(b) {
        assert |a| == |b|;
        forall i | 0 <= i < |a| ensures trim(a[i]) == trim(b[i]) {
          assert HashesOf(a)[i] == HashAt(a, i) && HashesOf(b)[i] == HashAt(b, i);
          HashDecides(a, b, i);
        }
      }
    }
  }
}
