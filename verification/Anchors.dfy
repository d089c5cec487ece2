/** Line anchors: numerals over the data words of the dictionary, enumerated in
    shortlex order. */
module Anchors {
  import opened Octets
  import opened Wrappers
  import opened Separators
  import opened Words

  const FIRST_DATA_INDEX: nat := N_PADDING_WORDS
  const LAST_DATA_INDEX: nat := N_PADDING_WORDS + N_DATA_WORDS - 1

  type Digit = d: nat | FIRST_DATA_INDEX <= d <= LAST_DATA_INDEX witness FIRST_DATA_INDEX
  type Anchor = a: seq<Digit> | a != [] witness [FIRST_DATA_INDEX]

  const FIRST: Anchor := [FIRST_DATA_INDEX]

  function Init(digits: seq<Digit>): seq<Digit>
    requires digits != []
  {
    digits[..|digits| - 1]
  }

  function Last(digits: seq<Digit>): Digit
    requires digits != []
  {
    digits[|digits| - 1]
  }

  // ----- Ranking -----

  /** The numeral's value in bijective base 2048, whose digits are 1 to 2048. */
  function Value(digits: seq<Digit>): (v: nat)
    ensures digits != [] ==> v > 0
  {
    if digits == [] then 0
    else Value(Init(digits)) * N_DATA_WORDS + (Last(digits) - FIRST_DATA_INDEX + 1)
  }

  function Numeral(n: nat): (digits: seq<Digit>)
    ensures n > 0 ==> digits != []
  {
    if n == 0 then []
    else Numeral((n - 1) / N_DATA_WORDS) + [(n - 1) % N_DATA_WORDS + FIRST_DATA_INDEX]
  }

  /** The position of an anchor in canonical order. */
  function Rank(a: Anchor): nat {
    Value(a) - 1
  }

  /** The anchor at a given position of the canonical order. */
  function AnchorOf(n: nat): Anchor {
    Numeral(n + 1)
  }

  lemma {:induction false} ValueOfNumeral(n: nat)
    ensures Value(Numeral(n)) == n
  {
    if n > 0 {
      var rest := Numeral((n - 1) / N_DATA_WORDS);
      assert Init(Numeral(n)) == rest;
      ValueOfNumeral((n - 1) / N_DATA_WORDS);
    }
  }

  lemma DivideDigit(q: nat, r: nat)
    requires r < N_DATA_WORDS
    ensures (q * N_DATA_WORDS + r) / N_DATA_WORDS == q
    ensures (q * N_DATA_WORDS + r) % N_DATA_WORDS == r
  {
  }

  lemma {:induction false} NumeralOfValue(digits: seq<Digit>)
    ensures Numeral(Value(digits)) == digits
  {
    if digits != [] {
      DivideDigit(Value(Init(digits)), Last(digits) - FIRST_DATA_INDEX);
      NumeralOfValue(Init(digits));
    }
  }

  /** Ranking is a bijection between the anchors and the natural numbers. */
  lemma RankBijection(a: Anchor, n: nat)
    ensures AnchorOf(Rank(a)) == a
    ensures Rank(AnchorOf(n)) == n
  {
    NumeralOfValue(a);
    ValueOfNumeral(n + 1);
  }

  lemma RankInjective(a: Anchor, b: Anchor)
    requires Rank(a) == Rank(b)
    ensures a == b
  {
    RankBijection(a, 0);
    RankBijection(b, 0);
  }

  lemma FirstRank()
    ensures Rank(FIRST) == 0
  {
    assert Init(FIRST) == [] && Last(FIRST) == FIRST_DATA_INDEX;
    assert Value(Init(FIRST)) == 0;
    assert Value(FIRST) == 0 * N_DATA_WORDS + 1;
  }

  // ----- Shortlex order -----

  /** Shorter numerals first; equal lengths compare at the first difference. */
  ghost predicate Below(a: seq<Digit>, b: seq<Digit>) {
    || |a| < |b|
    || (|a| == |b| && exists k :: 0 <= k < |a| && a[..k] == b[..k] && a[k] < b[k])
  }

  lemma {:induction false} BelowValue(a: seq<Digit>, b: seq<Digit>)
    requires Below(a, b)
    ensures Value(a) < Value(b)
  {
    if a != [] {
      if |a| == |b| {
        var k :| 0 <= k < |a| && a[..k] == b[..k] && a[k] < b[k];
        if k == |a| - 1 {
          assert Init(a) == Init(b);
        } else {
          assert Init(a)[..k] == a[..k] && Init(b)[..k] == b[..k];
          assert Init(a)[k] < Init(b)[k];
          BelowValue(Init(a), Init(b));
        }
      } else {
        BelowValue(Init(a), Init(b));
      }
    }
  }

  lemma {:induction false} BelowTotal(a: seq<Digit>, b: seq<Digit>)
    requires a != b
    ensures Below(a, b) || Below(b, a)
  {
    if |a| == |b| {
      assert a == Init(a) + [Last(a)] && b == Init(b) + [Last(b)];
      if Init(a) == Init(b) {
        var k := |a| - 1;
        assert a[..k] == b[..k] && a[k] != b[k];
      } else {
        BelowTotal(Init(a), Init(b));
        var k :| 0 <= k < |a| - 1 && Init(a)[..k] == Init(b)[..k] && Init(a)[k] != Init(b)[k];
        assert Init(a)[..k] == a[..k] && Init(b)[..k] == b[..k];
        assert a[k] != b[k];
      }
    }
  }

  /** Canonical order is exactly shortlex order. */
  lemma RankIsShortlex(a: Anchor, b: Anchor)
    ensures Rank(a) < Rank(b) <==> Below(a, b)
  {
    if Below(a, b) {
      BelowValue(a, b);
    } else if Rank(a) < Rank(b) {
      BelowTotal(a, b);
      BelowValue(b, a);
    }
  }

  // ----- Increment -----

  function Repeat(d: Digit, n: nat): seq<Digit> {
    seq(n, _ => d)
  }

  /** A carry through a tail of maximal digits. */
  lemma {:induction false} CarryValue(low: seq<Digit>, high: seq<Digit>, n: nat)
    requires Value(high) == Value(low) + 1
    ensures Value(high + Repeat(FIRST_DATA_INDEX, n)) == Value(low + Repeat(LAST_DATA_INDEX, n)) + 1
  {
    var a, b := low + Repeat(LAST_DATA_INDEX, n), high + Repeat(FIRST_DATA_INDEX, n);
    if n == 0 {
      assert a == low && b == high;
    } else {
      assert Init(a) == low + Repeat(LAST_DATA_INDEX, n - 1);
      assert Init(b) == high + Repeat(FIRST_DATA_INDEX, n - 1);
      CarryValue(low, high, n - 1);
    }
  }

  /** Bumping the last digit that is not maximal and resetting the ones after it
      adds one. */
  lemma BumpValue(a: seq<Digit>, i: nat, b: seq<Digit>)
    requires i < |a| && a[i] < LAST_DATA_INDEX
    requires a[i + 1..] == Repeat(LAST_DATA_INDEX, |a| - i - 1)
    requires b == a[..i] + [a[i] + 1] + Repeat(FIRST_DATA_INDEX, |a| - i - 1)
    ensures Value(b) == Value(a) + 1
  {
    var low, high := a[..i + 1], a[..i] + [a[i] + 1];
    assert Init(low) == a[..i] == Init(high);
    assert a == low + a[i + 1..];
    CarryValue(low, high, |a| - i - 1);
  }

  /** When every digit is maximal the successor is one digit longer. */
  lemma ExtendValue(a: seq<Digit>, b: seq<Digit>)
    requires a == Repeat(LAST_DATA_INDEX, |a|)
    requires b == Repeat(FIRST_DATA_INDEX, |a| + 1)
    ensures Value(b) == Value(a) + 1
  {
    FirstRank();
    CarryValue([], FIRST, |a|);
    assert a == [] + Repeat(LAST_DATA_INDEX, |a|);
    assert b == FIRST + Repeat(FIRST_DATA_INDEX, |a|);
  }

  /** Advances to the next anchor in canonical order. */
  method Increment(a: Anchor) returns (next: Anchor)
    ensures Rank(next) == Rank(a) + 1
  {
    var digits: seq<Digit> := a;
    var i := |digits|;
    while i > 0
      invariant 0 <= i <= |a| && digits == a
      invariant a[i..] == Repeat(LAST_DATA_INDEX, |a| - i)
    {
      i := i - 1;
      if digits[i] < LAST_DATA_INDEX {
        digits := digits[i := digits[i] + 1];
        for j := i + 1 to |digits|
          invariant |digits| == |a| && digits[..i + 1] == a[..i] + [a[i] + 1]
          invariant forall k :: i < k < j ==> digits[k] == FIRST_DATA_INDEX
        {
          digits := digits[j := FIRST_DATA_INDEX];
        }
        assert digits == digits[..i + 1] + Repeat(FIRST_DATA_INDEX, |a| - i - 1);
        BumpValue(a, i, digits);
        return digits;
      }
    }
    for j := 0 to |digits|
      invariant |digits| == |a|
      invariant forall k :: 0 <= k < j ==> digits[k] == FIRST_DATA_INDEX
    {
      digits := digits[j := FIRST_DATA_INDEX];
    }
    digits := digits + [FIRST_DATA_INDEX];
    assert a[0..] == a;
    ExtendValue(a, digits);
    return digits;
  }

  // ----- Byte form -----

  datatype ParseError =
    | UnknownWord(word: string)
    | PaddingMarker(word: string)
    | BadShape
    | BadByteLength(length: nat)
    | OutOfRange(index: nat)

  predicate IsDataIndex(index: nat) {
    !IsPaddingMarker(index) && index < DICT_SIZE
  }

  function ToBytes(digits: seq<Digit>): seq<Byte> {
    if digits == [] then []
    else ToBytes(Init(digits)) + [Last(digits) % 256, Last(digits) / 256]
  }

  function Chunk(bytes: seq<Byte>, k: nat): nat
    requires 2 * k + 1 < |bytes|
  {
    var low: nat, high: nat := bytes[2 * k], bytes[2 * k + 1];
    low + 256 * high
  }

  lemma {:induction false} ToBytesChunks(digits: seq<Digit>)
    ensures |ToBytes(digits)| == 2 * |digits|
    ensures forall k :: 0 <= k < |digits| ==> Chunk(ToBytes(digits), k) == digits[k]
  {
    if digits != [] {
      ToBytesChunks(Init(digits));
      forall k | 0 <= k < |digits|
        ensures Chunk(ToBytes(digits), k) == digits[k]
      {
        if k < |digits| - 1 {
          assert Chunk(ToBytes(digits), k) == Chunk(ToBytes(Init(digits)), k);
        }
      }
    }
  }

  /** Every digit takes two bytes, the lower one first. */
  lemma BytesOfDigit(digits: seq<Digit>, k: nat)
    requires k < |digits|
    ensures |ToBytes(digits)| == 2 * |digits|
    ensures var low: nat, high: nat := ToBytes(digits)[2 * k], ToBytes(digits)[2 * k + 1];
      low + 256 * high == digits[k]
  {
    ToBytesChunks(digits);
    assert Chunk(ToBytes(digits), k) == digits[k];
  }

  lemma ChunkIsDigit(digits: seq<Digit>, bytes: seq<Byte>, k: nat)
    requires 2 * k + 1 < |bytes| && !IsDataIndex(Chunk(bytes, k))
    ensures ToBytes(digits) != bytes
  {
    ToBytesChunks(digits);
    assert k < |digits| ==> Chunk(ToBytes(digits), k) == digits[k];
  }

  lemma ToBytesInjective(a: seq<Digit>, b: seq<Digit>)
    ensures ToBytes(a) == ToBytes(b) <==> a == b
  {
    ToBytesChunks(a);
    ToBytesChunks(b);
    if ToBytes(a) == ToBytes(b) {
      forall k | 0 <= k < |a| ensures a[k] == b[k] {
        assert Chunk(ToBytes(a), k) == Chunk(ToBytes(b), k);
      }
    }
  }

  /** Reads little-endian 16-bit words. It accepts exactly the byte forms of
      anchors, and otherwise reports the length or the first bad index. */
  method FromBytes(bytes: seq<Byte>) returns (r: Result<Anchor, ParseError>)
    ensures forall a: Anchor :: r == Ok(a) <==> ToBytes(a) == bytes
    ensures r == Err(BadByteLength(|bytes|)) <==> bytes == [] || |bytes| % 2 != 0
    ensures r.Err? && bytes != [] && |bytes| % 2 == 0 ==>
      exists k :: 0 <= k < |bytes| / 2 && r.error == OutOfRange(Chunk(bytes, k)) && !IsDataIndex(Chunk(bytes, k))
        && forall j :: 0 <= j < k ==> IsDataIndex(Chunk(bytes, j))
  {
    if bytes == [] || |bytes| % 2 != 0 {
      forall a: Anchor ensures ToBytes(a) != bytes { ToBytesChunks(a); }
      return Err(BadByteLength(|bytes|));
    }
    var indices: seq<Digit> := [];
    for k := 0 to |bytes| / 2
      invariant |indices| == k
      invariant forall j :: 0 <= j < k ==> indices[j] == Chunk(bytes, j)
      invariant ToBytes(indices) == bytes[..2 * k]
    {
      var index := Chunk(bytes, k);
      if !IsDataIndex(index) {
        forall a: Anchor ensures ToBytes(a) != bytes {
          ChunkIsDigit(a, bytes, k);
        }
        return Err(OutOfRange(index));
      }
      assert Init(indices + [index]) == indices;
      indices := indices + [index];
    }
    assert bytes[..2 * (|bytes| / 2)] == bytes;
    forall a: Anchor ensures ToBytes(a) == bytes <==> a == indices {
      ToBytesInjective(a, indices);
    }
    return Ok(indices);
  }

  // ----- Text form -----

  /** The hyphenated words of an anchor. */
  function Display(words: seq<string>, a: Anchor): string
    requires IsDictionary(words)
  {
    Join(WordsOf(words, a), '-')
  }

  /** The words come in the digits' order, with a hyphen between two of them. */
  lemma DisplayExtends(words: seq<string>, a: Anchor, d: Digit)
    requires IsDictionary(words)
    ensures Display(words, [d]) == words[d]
    ensures Display(words, a + [d]) == Display(words, a) + ['-'] + words[d]
  {
    assert WordsOf(words, [d]) == [words[d]];
    assert WordsOf(words, a + [d]) == WordsOf(words, a) + [words[d]];
    JoinConcat(WordsOf(words, a), [words[d]], '-');
  }

  /** Different anchors are displayed differently. */
  lemma DisplayInjective(words: seq<string>, a: Anchor, b: Anchor)
    requires IsDictionary(words) && Display(words, a) == Display(words, b)
    ensures a == b
  {
    DisplaySplits(words, a, Display(words, b));
    DisplaySplits(words, b, Display(words, b));
    assert WordsOf(words, a) == WordsOf(words, b);
    forall i | 0 <= i < |a| ensures a[i] == b[i] {
      assert words[a[i]] == WordsOf(words, a)[i] == WordsOf(words, b)[i] == words[b[i]];
    }
  }

  predicate IsDataWord(words: seq<string>, w: string) {
    var index := IndexOf(words, w);
    index.Some? && !IsPaddingMarker(index.value)
  }

  function LookupError(words: seq<string>, w: string): ParseError {
    if IndexOf(words, w).None? then UnknownWord(w) else PaddingMarker(w)
  }

  lemma DisplaySplits(words: seq<string>, a: Anchor, s: string)
    requires IsDictionary(words)
    ensures Display(words, a) == s <==> WordsOf(words, a) == Split(s, '-')
  {
    SplitJoin(WordsOf(words, a), '-');
    JoinSplit(s, '-');
  }

  /** Parses hyphenated words. It accepts exactly the displayed anchors, and
      otherwise reports a bad shape or the first word that is not a data word. */
  method FromStr(words: seq<string>, s: string) returns (r: Result<Anchor, ParseError>)
    requires IsDictionary(words)
    ensures forall a: Anchor :: r == Ok(a) <==> Display(words, a) == s
    ensures r == Err(BadShape) <==> "" in Split(s, '-')
    ensures r.Err? && "" !in Split(s, '-') ==>
      var parts := Split(s, '-');
      exists k :: 0 <= k < |parts| && !IsDataWord(words, parts[k]) && r.error == LookupError(words, parts[k])
        && forall j :: 0 <= j < k ==> IsDataWord(words, parts[j])
  {
    forall a: Anchor ensures Display(words, a) == s <==> WordsOf(words, a) == Split(s, '-') {
      DisplaySplits(words, a, s);
    }
    if s == "" {
      return Err(BadShape);
    }
    var parts := Split(s, '-');
    if exists k :: 0 <= k < |parts| && parts[k] == "" {
      return Err(BadShape);
    }
    var indices: seq<Digit> := [];
    for k := 0 to |parts|
      invariant |indices| == k
      invariant forall j :: 0 <= j < k ==> IsDataWord(words, parts[j])
      invariant forall j :: 0 <= j < k ==> words[indices[j]] == parts[j]
    {
      if !IsDataWord(words, parts[k]) {
        return Err(LookupError(words, parts[k]));
      }
      indices := indices + [IndexOf(words, parts[k]).value];
    }
    forall a: Anchor ensures a == indices <==> WordsOf(words, a) == parts {
      if WordsOf(words, a) == parts {
        assert |a| == |indices|;
        assert forall j :: 0 <= j < |a| ==> words[a[j]] == words[indices[j]];
        assert forall j :: 0 <= j < |a| ==> a[j] == indices[j];
      }
    }
    return Ok(indices);
  }
}
