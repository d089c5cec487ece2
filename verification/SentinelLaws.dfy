/** Finding a marker does not depend on what comes after it, and printed markers
    are found. */
module SentinelLaws {
  import opened Decimals
  import opened Octets
  import opened Wrappers
  import opened Sentinels

  lemma {:induction false} DigitsEndStable(buf: seq<Byte>, more: seq<Byte>, at: nat)
    requires at <= |buf|
    ensures DigitsEnd(buf, at) < |buf| ==> DigitsEnd(buf + more, at) == DigitsEnd(buf, at)
    ensures DigitsEnd(buf + more, at) < |buf| ==> DigitsEnd(buf, at) == DigitsEnd(buf + more, at)
    ensures DigitsEnd(buf + more, at) >= DigitsEnd(buf, at)
    decreases |buf| - at
  {
    if at < |buf| {
      assert (buf + more)[at] == buf[at];
      if IsDigit(buf[at]) { DigitsEndStable(buf, more, at + 1); }
    }
  }

  /** An opening that is followed by a further byte is decided. */
  lemma OpensStable(s: Sentinel, buf: seq<Byte>, more: seq<Byte>, i: nat)
    ensures s.Opens(buf, i) ==> s.Opens(buf + more, i)
    ensures i + 1 + |s.prefix| + 1 < |buf| ==> (s.Opens(buf, i) <==> s.Opens(buf + more, i))
  {
    var all, start := buf + more, i + 1 + |s.prefix|;
    if start <= |buf| {
      assert all[i + 1..start] == buf[i + 1..start];
      if start < |buf| {
        assert all[start] == buf[start];
        DigitsEndStable(buf, more, DigitsStart(buf, start));
        if DigitsStart(buf, start) < |buf| {
          assert all[DigitsStart(buf, start)] == buf[DigitsStart(buf, start)];
        }
      }
    }
  }

  lemma NumberEndStable(buf: seq<Byte>, more: seq<Byte>, at: nat)
    requires at < |buf|
    ensures NumberEnd(buf, at) < |buf| || NumberEnd(buf + more, at) < |buf| ==>
      NumberEnd(buf, at) == NumberEnd(buf + more, at)
  {
    assert (buf + more)[at] == buf[at];
    DigitsEndStable(buf, more, DigitsStart(buf, at));
  }

  lemma {:induction false} FirstOpeningIs(s: Sentinel, buf: seq<Byte>, from: nat, i: nat)
    requires from <= i && s.Opens(buf, i)
    ensures s.FirstOpening(buf, from) == Some(i) <==> forall k :: from <= k < i ==> !s.Opens(buf, k)
    decreases i - from
  {
    if from < i && !s.Opens(buf, from) {
      FirstOpeningIs(s, buf, from + 1, i);
    }
  }

  lemma SliceStable(buf: seq<Byte>, more: seq<Byte>, lo: nat, hi: nat)
    requires lo <= hi <= |buf|
    ensures (buf + more)[lo..hi] == buf[lo..hi]
  {
  }

  lemma SameCode(s: Sentinel, buf: seq<Byte>, more: seq<Byte>, start: nat, end: nat)
    requires start <= end <= |buf| - |SUFFIX|
    ensures s.CodeAt(buf, start, end) == s.CodeAt(buf + more, start, end)
  {
    SliceStable(buf, more, start, end);
    SliceStable(buf, more, end, end + |SUFFIX|);
  }

  lemma MatchFromCode(s: Sentinel, a: seq<Byte>, b: seq<Byte>, i: nat)
    requires s.Opens(a, i) && s.Opens(b, i)
    requires var start := i + 1 + |s.prefix|;
      && NumberEnd(a, start) == NumberEnd(b, start)
      && s.CodeAt(a, start, NumberEnd(a, start)) == s.CodeAt(b, start, NumberEnd(b, start))
    ensures s.MatchAt(a, i) == s.MatchAt(b, i)
  {
  }

  lemma SameMatch(s: Sentinel, buf: seq<Byte>, more: seq<Byte>, i: nat)
    requires s.Opens(buf, i) && s.Opens(buf + more, i)
    requires NumberEnd(buf, i + 1 + |s.prefix|) == NumberEnd(buf + more, i + 1 + |s.prefix|) <= |buf| - |SUFFIX|
    ensures s.MatchAt(buf, i) == s.MatchAt(buf + more, i)
  {
    var start := i + 1 + |s.prefix|;
    var end := NumberEnd(buf, start);
    SameCode(s, buf, more, start, end);
    MatchFromCode(s, buf, buf + more, i);
  }

  /** What was no opening, with a byte to spare, stays none. */
  lemma SameOpening(s: Sentinel, buf: seq<Byte>, more: seq<Byte>, i: nat)
    requires s.Opens(buf, i) && s.Opens(buf + more, i) && i + 1 + |s.prefix| < |buf|
    ensures s.FirstOpening(buf, 0) == Some(i) <==> s.FirstOpening(buf + more, 0) == Some(i)
  {
    forall k | 0 <= k < i ensures s.Opens(buf, k) == s.Opens(buf + more, k) {
      OpensStable(s, buf, more, k);
    }
    FirstOpeningIs(s, buf, 0, i);
    FirstOpeningIs(s, buf + more, 0, i);
  }

  lemma MatchEnds(s: Sentinel, buf: seq<Byte>, i: nat)
    requires s.Opens(buf, i) && s.MatchAt(buf, i).Some?
    ensures NumberEnd(buf, i + 1 + |s.prefix|) <= |buf| - |SUFFIX|
  {
  }

  lemma MatchStays(s: Sentinel, buf: seq<Byte>, more: seq<Byte>, i: nat)
    requires s.FirstOpening(buf, 0) == Some(i) && NumberEnd(buf, i + 1 + |s.prefix|) <= |buf| - |SUFFIX|
    ensures s.FirstOpening(buf + more, 0) == Some(i) && s.MatchAt(buf + more, i) == s.MatchAt(buf, i)
  {
    NumberEndStable(buf, more, i + 1 + |s.prefix|);
    OpensStable(s, buf, more, i);
    SameOpening(s, buf, more, i);
    SameMatch(s, buf, more, i);
  }

  /** A match stays when more bytes arrive. */
  lemma FoundStays(s: Sentinel, buf: seq<Byte>, more: seq<Byte>)
    requires s.Found(buf).Some?
    ensures s.Found(buf + more) == s.Found(buf)
  {
    var i := s.Found(buf).value.outputLen;
    MatchEnds(s, buf, i);
    MatchStays(s, buf, more, i);
  }

  lemma OpensEarly(s: Sentinel, buf: seq<Byte>, more: seq<Byte>, i: nat)
    requires s.FirstOpening(buf + more, 0) == Some(i)
    requires NumberEnd(buf + more, i + 1 + |s.prefix|) < |buf|
    ensures NumberEnd(buf, i + 1 + |s.prefix|) == NumberEnd(buf + more, i + 1 + |s.prefix|)
    ensures s.FirstOpening(buf, 0) == Some(i)
  {
    var start := i + 1 + |s.prefix|;
    NumberEndStable(buf, more, start);
    SliceStable(buf, more, i + 1, start);
    assert (buf + more)[start] == buf[start];
    assert s.Opens(buf, i);
    SameOpening(s, buf, more, i);
  }

  /** A match on more bytes is found as soon as all of its own bytes are there. */
  lemma FoundEarly(s: Sentinel, buf: seq<Byte>, more: seq<Byte>)
    requires s.Found(buf + more).Some? && s.Found(buf + more).value.consumed <= |buf|
    ensures s.Found(buf) == s.Found(buf + more)
  {
    var i := s.Found(buf + more).value.outputLen;
    OpensEarly(s, buf, more, i);
    SameMatch(s, buf, more, i);
  }

  // ----- Printed markers -----

  function PrintI32(n: int): (text: seq<Byte>) {
    if n < 0 then [MINUS] + PrintNat(-n) else PrintNat(n)
  }

  function Marker(s: Sentinel, exitCode: int): seq<Byte> {
    [NEWLINE] + s.prefix + PrintI32(exitCode) + SUFFIX
  }

  lemma PrintedNumber(n: int)
    requires I32_MIN <= n <= I32_MAX
    ensures ParseI32(PrintI32(n)) == Some(n)
    ensures |PrintI32(n)| <= 11
  {
    var magnitude := if n < 0 then -n else n;
    DecimalOfPrint(magnitude);
    assert Pow10(10) == 10 * (10 * (10 * (10 * (10 * (10 * (10 * (10 * Pow10(2)))))))) ;
    PrintLength(magnitude, 10);
    if n < 0 {
      assert PrintI32(n)[1..] == PrintNat(-n);
    }
  }

  lemma {:induction false} DigitsEndAt(buf: seq<Byte>, at: nat, end: nat)
    requires at <= end < |buf| && !IsDigit(buf[end]) && forall k :: at <= k < end ==> IsDigit(buf[k])
    ensures DigitsEnd(buf, at) == end
    decreases end - at
  {
    if at < end { DigitsEndAt(buf, at + 1, end); }
  }

  /** A printed number between two texts is read back whole. */
  lemma PrintedNumberEnd(before: seq<Byte>, n: int, after: seq<Byte>)
    requires after != [] && !IsDigit(after[0])
    ensures var buf := before + PrintI32(n) + after;
      && NumberEnd(buf, |before|) == |before| + |PrintI32(n)|
      && NumberEnd(buf, |before|) > DigitsStart(buf, |before|)
  {
    var buf, text, at := before + PrintI32(n) + after, PrintI32(n), |before|;
    var end := at + |text|;
    assert buf[end] == after[0];
    assert forall k :: at <= k < end ==> buf[k] == text[k - at];
    assert HasSign(buf, at) <==> n < 0;
    if n < 0 {
      assert forall k :: 0 < k < |text| ==> text[k] == PrintNat(-n)[k - 1];
    }
    DigitsEndAt(buf, DigitsStart(buf, at), end);
  }

  /** A buffer that holds a marker with this text as its number. */
  ghost predicate MarkedAt(s: Sentinel, buf: seq<Byte>, at: nat, text: seq<Byte>) {
    var start := at + 1 + |s.prefix|;
    var end := start + |text|;
    && end + |SUFFIX| <= |buf|
    && buf[at] == NEWLINE
    && buf[at + 1..start] == s.prefix
    && buf[start..end] == text
    && buf[end..end + |SUFFIX|] == SUFFIX
  }

  lemma Middle<T>(a: seq<T>, b: seq<T>, c: seq<T>)
    ensures (a + b + c)[|a|..|a| + |b|] == b
  {
  }

  lemma MarkerMarks(s: Sentinel, output: seq<Byte>, exitCode: int, rest: seq<Byte>)
    ensures MarkedAt(s, output + Marker(s, exitCode) + rest, |output|, PrintI32(exitCode))
  {
    var buf, text := output + Marker(s, exitCode) + rest, PrintI32(exitCode);
    assert buf == (output + [NEWLINE]) + s.prefix + (text + SUFFIX + rest);
    Middle(output + [NEWLINE], s.prefix, text + SUFFIX + rest);
    assert buf == (output + [NEWLINE] + s.prefix) + text + (SUFFIX + rest);
    Middle(output + [NEWLINE] + s.prefix, text, SUFFIX + rest);
    assert buf == (output + [NEWLINE] + s.prefix + text) + SUFFIX + rest;
    Middle(output + [NEWLINE] + s.prefix + text, SUFFIX, rest);
  }

  lemma MarkedNumber(buf: seq<Byte>, start: nat, end: nat, exitCode: int)
    requires start <= end && end + |SUFFIX| <= |buf|
    requires buf[start..end] == PrintI32(exitCode) && buf[end..end + |SUFFIX|] == SUFFIX
    ensures NumberEnd(buf, start) == end > DigitsStart(buf, start)
  {
    assert buf[end] == buf[end..end + |SUFFIX|][0] == UNDERSCORE;
    assert buf == buf[..start] + PrintI32(exitCode) + buf[end..];
    PrintedNumberEnd(buf[..start], exitCode, buf[end..]);
  }

  /** A marker opens where its line break stands, and matches there. */
  lemma MarkedMatches(s: Sentinel, buf: seq<Byte>, at: nat, exitCode: int)
    requires I32_MIN <= exitCode <= I32_MAX && MarkedAt(s, buf, at, PrintI32(exitCode))
    ensures s.Opens(buf, at)
    ensures s.MatchAt(buf, at)
         == Some(SentinelMatch(at, at + 1 + |s.prefix| + |PrintI32(exitCode)| + |SUFFIX|, exitCode))
  {
    var start := at + 1 + |s.prefix|;
    var end := start + |PrintI32(exitCode)|;
    MarkedNumber(buf, start, end, exitCode);
    PrintedNumber(exitCode);
  }

  lemma MarkerFits(s: Sentinel, exitCode: int)
    requires I32_MIN <= exitCode <= I32_MAX
    ensures |Marker(s, exitCode)| <= s.MaxMatchLen()
  {
    PrintedNumber(exitCode);
  }

  lemma MarkerLength(s: Sentinel, exitCode: int)
    ensures |Marker(s, exitCode)| == 1 + |s.prefix| + |PrintI32(exitCode)| + |SUFFIX|
  {
  }

  ghost predicate NoneBefore(s: Sentinel, buf: seq<Byte>, at: nat) {
    forall k :: 0 <= k < at ==> !s.Opens(buf, k)
  }

  lemma FoundMarked(s: Sentinel, buf: seq<Byte>, at: nat, end: nat, exitCode: int)
    requires I32_MIN <= exitCode <= I32_MAX && MarkedAt(s, buf, at, PrintI32(exitCode))
    requires end == at + 1 + |s.prefix| + |PrintI32(exitCode)| + |SUFFIX|
    ensures s.Found(buf) == Some(SentinelMatch(at, end, exitCode)) <==> NoneBefore(s, buf, at)
  {
    MarkedMatches(s, buf, at, exitCode);
    FirstOpeningIs(s, buf, 0, at);
  }

  /** A printed marker is found, with its exit code and right after the output,
      exactly when no marker starts inside the output. */
  lemma PrintedMarkerFound(s: Sentinel, output: seq<Byte>, exitCode: int, rest: seq<Byte>)
    requires I32_MIN <= exitCode <= I32_MAX
    ensures var buf := output + Marker(s, exitCode) + rest;
      s.Found(buf) == Some(SentinelMatch(|output|, |output + Marker(s, exitCode)|, exitCode))
      <==> NoneBefore(s, buf, |output|)
  {
    MarkerMarks(s, output, exitCode, rest);
    MarkerLength(s, exitCode);
    FoundMarked(s, output + Marker(s, exitCode) + rest, |output|, |output + Marker(s, exitCode)|, exitCode);
  }

  // ----- Nothing else is taken for a marker -----

  /** A number's text: an optional minus sign and digits, within 32 bits. */
  ghost predicate Spells(text: seq<Byte>, n: int) {
    && I32_MIN <= n <= I32_MAX
    && var digits := if text != [] && text[0] == MINUS then text[1..] else text;
    && digits != [] && (forall k :: 0 <= k < |digits| ==> IsDigit(digits[k]))
    && n == (if digits == text then 1 else -1) * Decimal(digits, |digits|)
  }

  lemma NumberSpells(buf: seq<Byte>, start: nat, end: nat)
    requires start < |buf| && end == NumberEnd(buf, start) > DigitsStart(buf, start)
    requires ParseI32(buf[start..end]).Some?
    ensures Spells(buf[start..end], ParseI32(buf[start..end]).value)
  {
    var text, first := buf[start..end], DigitsStart(buf, start);
    assert text[0] == buf[start];
    if HasSign(buf, start) {
      assert text[1..] == buf[first..end];
    }
  }

  lemma CodeIs(s: Sentinel, buf: seq<Byte>, start: nat, end: nat)
    requires start <= end <= |buf| && s.CodeAt(buf, start, end).Some?
    ensures end + |SUFFIX| <= |buf| && buf[end..end + |SUFFIX|] == SUFFIX
    ensures ParseI32(buf[start..end]) == s.CodeAt(buf, start, end)
  {
  }

  lemma OpeningIs(s: Sentinel, buf: seq<Byte>, i: nat)
    requires s.Opens(buf, i)
    ensures i + 1 + |s.prefix| <= NumberEnd(buf, i + 1 + |s.prefix|) <= |buf|
    ensures buf[i] == NEWLINE && buf[i + 1..i + 1 + |s.prefix|] == s.prefix
  {
  }

  lemma MatchEndsAt(s: Sentinel, buf: seq<Byte>, i: nat)
    requires s.Opens(buf, i) && s.MatchAt(buf, i).Some?
    ensures var start := i + 1 + |s.prefix|;
      var end := NumberEnd(buf, start);
      s.CodeAt(buf, start, end) == Some(s.MatchAt(buf, i).value.exitCode)
      && s.MatchAt(buf, i).value == SentinelMatch(i, end + |SUFFIX|, s.MatchAt(buf, i).value.exitCode)
  {
  }

  lemma OpeningNumber(s: Sentinel, buf: seq<Byte>, i: nat)
    requires s.Opens(buf, i)
    ensures var start := i + 1 + |s.prefix|;
      start < |buf| && NumberEnd(buf, start) > DigitsStart(buf, start)
  {
  }

  lemma MatchIsMarked(s: Sentinel, buf: seq<Byte>, i: nat, start: nat, end: nat)
    requires start == i + 1 + |s.prefix| <= end <= |buf|
    requires buf[i] == NEWLINE && buf[i + 1..start] == s.prefix
    requires s.CodeAt(buf, start, end).Some?
    ensures end + |SUFFIX| <= |buf|
    ensures buf[i..end + |SUFFIX|] == [NEWLINE] + s.prefix + buf[start..end] + SUFFIX
  {
    CodeIs(s, buf, start, end);
    assert buf[i..end + |SUFFIX|] == [buf[i]] + buf[i + 1..start] + buf[start..end] + buf[end..end + |SUFFIX|];
  }

  lemma MatchSpells(s: Sentinel, buf: seq<Byte>, start: nat, end: nat, code: int)
    requires start < |buf| && end == NumberEnd(buf, start) > DigitsStart(buf, start)
    requires s.CodeAt(buf, start, end) == Some(code)
    ensures Spells(buf[start..end], code)
  {
    CodeIs(s, buf, start, end);
    NumberSpells(buf, start, end);
  }

  lemma FoundAt(s: Sentinel, buf: seq<Byte>)
    requires s.Found(buf).Some?
    ensures s.Opens(buf, s.Found(buf).value.outputLen)
    ensures s.MatchAt(buf, s.Found(buf).value.outputLen) == s.Found(buf)
  {
  }

  lemma MatchIsMarker(s: Sentinel, buf: seq<Byte>, m: SentinelMatch) returns (text: seq<Byte>)
    requires s.Opens(buf, m.outputLen) && s.MatchAt(buf, m.outputLen) == Some(m) && m.outputLen < m.consumed <= |buf|
    ensures Spells(text, m.exitCode)
    ensures buf[m.outputLen..m.consumed] == [NEWLINE] + s.prefix + text + SUFFIX
  {
    var i, start := m.outputLen, m.outputLen + 1 + |s.prefix|;
    OpeningIs(s, buf, i);
    OpeningNumber(s, buf, i);
    MatchEndsAt(s, buf, i);
    var end := NumberEnd(buf, start);
    MatchSpells(s, buf, start, end, m.exitCode);
    MatchIsMarked(s, buf, i, start, end);
    text := buf[start..end];
  }

  /** What is found is a whole marker: line break, prefix, the exit code's digits and the
      suffix, right behind the output. */
  lemma FoundIsMarker(s: Sentinel, buf: seq<Byte>) returns (text: seq<Byte>)
    requires s.Found(buf).Some?
    ensures var m := s.Found(buf).value;
      && Spells(text, m.exitCode)
      && buf[m.outputLen..m.consumed] == [NEWLINE] + s.prefix + text + SUFFIX
  {
    FoundAt(s, buf);
    text := MatchIsMarker(s, buf, s.Found(buf).value);
  }

  /** A line that starts with the prefix follows. */
  predicate PrefixedAt(s: Sentinel, buf: seq<Byte>, k: nat) {
    k + 1 + |s.prefix| <= |buf| && buf[k..k + 1 + |s.prefix|] == [NEWLINE] + s.prefix
  }

  lemma OpensPrefixed(s: Sentinel, buf: seq<Byte>, k: nat)
    requires s.Opens(buf, k)
    ensures PrefixedAt(s, buf, k)
  {
    assert buf[k..k + 1 + |s.prefix|] == [buf[k]] + buf[k + 1..k + 1 + |s.prefix|];
  }

  /** Output in which no line starts with the prefix has its printed marker found. */
  lemma PlainOutputFound(s: Sentinel, output: seq<Byte>, exitCode: int, rest: seq<Byte>)
    requires I32_MIN <= exitCode <= I32_MAX
    requires forall k :: 0 <= k < |output| ==> !PrefixedAt(s, output + Marker(s, exitCode) + rest, k)
    ensures s.Found(output + Marker(s, exitCode) + rest)
         == Some(SentinelMatch(|output|, |output + Marker(s, exitCode)|, exitCode))
  {
    var buf := output + Marker(s, exitCode) + rest;
    forall k | 0 <= k < |output| ensures !s.Opens(buf, k) {
      if s.Opens(buf, k) { OpensPrefixed(s, buf, k); }
    }
    PrintedMarkerFound(s, output, exitCode, rest);
  }
}
