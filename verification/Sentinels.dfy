/** The marker that ends a command's output: a line break, a secret prefix, the
    exit code in decimal and a fixed suffix. */
module Sentinels {
  import opened Decimals
  import opened Octets
  import opened Wrappers

  const NEWLINE: Byte := 10
  const MINUS: Byte := 45
  const UNDERSCORE: Byte := 95
  const SUFFIX: seq<Byte> := [UNDERSCORE, UNDERSCORE, NEWLINE]

  const I32_MIN: int := -0x8000_0000
  const I32_MAX: int := 0x7FFF_FFFF

  datatype SentinelMatch = SentinelMatch(outputLen: nat, consumed: nat, exitCode: int)

  predicate StartsAt(buf: seq<Byte>, at: nat, part: seq<Byte>) {
    at + |part| <= |buf| && buf[at..at + |part|] == part
  }

  /** The end of the run of digits that starts at `at`. */
  function DigitsEnd(buf: seq<Byte>, at: nat): (end: nat)
    requires at <= |buf|
    ensures at <= end <= |buf|
    ensures forall k :: at <= k < end ==> IsDigit(buf[k])
    ensures end < |buf| ==> !IsDigit(buf[end])
    decreases |buf| - at
  {
    if at < |buf| && IsDigit(buf[at]) then DigitsEnd(buf, at + 1) else at
  }

  predicate HasSign(buf: seq<Byte>, at: nat) {
    at < |buf| && buf[at] == MINUS
  }

  /** Where the digits of a number at `at` start, after an optional minus sign. */
  function DigitsStart(buf: seq<Byte>, at: nat): nat {
    if HasSign(buf, at) then at + 1 else at
  }

  function NumberEnd(buf: seq<Byte>, at: nat): (end: nat)
    requires at <= |buf|
    ensures DigitsStart(buf, at) <= end <= |buf|
  {
    DigitsEnd(buf, DigitsStart(buf, at))
  }

  /** Parses a 32-bit signed number, rejecting values out of range. */
  function ParseI32(text: seq<Byte>): Option<int> {
    var value := if HasSign(text, 0) then -Decimal(text[1..], |text| - 1) else Decimal(text, |text|);
    if I32_MIN <= value <= I32_MAX then Some(value) else None
  }

  datatype Sentinel = Sentinel(prefix: seq<Byte>) {

    /** The bound, in bytes, on a marker whose exit code is printed as a 32-bit
        number: eleven characters at most. */
    function MaxMatchLen(): nat {
      1 + |prefix| + 11 + |SUFFIX|
    }

    /** A marker starts at `i`: line break, prefix and at least one digit. */
    predicate Opens(buf: seq<Byte>, i: nat) {
      && i + 1 + |prefix| <= |buf|
      && buf[i] == NEWLINE
      && StartsAt(buf, i + 1, prefix)
      && NumberEnd(buf, i + 1 + |prefix|) > DigitsStart(buf, i + 1 + |prefix|)
    }

    /** The first place where a marker starts. */
    function FirstOpening(buf: seq<Byte>, from: nat): (r: Option<nat>)
      ensures r.Some? ==> from <= r.value && Opens(buf, r.value)
      decreases |buf| - from
    {
      if from + 1 + |prefix| > |buf| then None
      else if Opens(buf, from) then Some(from)
      else FirstOpening(buf, from + 1)
    }

    /** Only the first marker counts: when it is incomplete, continues otherwise
        than with the suffix, or its number is out of range, there is no match. */
    function Found(buf: seq<Byte>): (r: Option<SentinelMatch>)
      ensures r.Some? ==> r.value.outputLen < r.value.consumed <= |buf|
    {
      var opening := FirstOpening(buf, 0);
      if opening.None? then None else MatchAt(buf, opening.value)
    }

    function MatchAt(buf: seq<Byte>, i: nat): (r: Option<SentinelMatch>)
      requires Opens(buf, i)
      ensures r.Some? ==> r.value.outputLen == i < r.value.consumed <= |buf|
    {
      var start := i + 1 + |prefix|;
      var end := NumberEnd(buf, start);
      var code := CodeAt(buf, start, end);
      if code.None? then None else Some(SentinelMatch(i, end + |SUFFIX|, code.value))
    }

    /** The exit code that a complete marker holds between two positions. */
    function CodeAt(buf: seq<Byte>, start: nat, end: nat): (r: Option<int>)
      requires start <= end <= |buf|
      ensures r.Some? ==> end + |SUFFIX| <= |buf|
    {
      if StartsAt(buf, end, SUFFIX) then ParseI32(buf[start..end]) else None
    }

    /** The scan as the reader runs it. */
    method Find(buf: seq<Byte>) returns (r: Option<SentinelMatch>)
      ensures r == Found(buf)
    {
      var i := 0;
      while i + 1 + |prefix| <= |buf|
        invariant FirstOpening(buf, 0) == FirstOpening(buf, i)
        decreases |buf| - i
      {
        var opens;
        opens, r := TryAt(buf, i);
        if opens {
          return r;
        }
        i := i + 1;
      }
      return None;
    }

    /** One position of the scan: is it where a marker starts, and what is there? */
    method TryAt(buf: seq<Byte>, i: nat) returns (opens: bool, r: Option<SentinelMatch>)
      requires i + 1 + |prefix| <= |buf|
      ensures opens == Opens(buf, i)
      ensures opens ==> r == MatchAt(buf, i)
    {
      if buf[i] != NEWLINE || !StartsAt(buf, i + 1, prefix) {
        return false, None;
      }
      var digitsStart := i + 1 + |prefix|;
      var digitsEnd := ScanNumber(buf, digitsStart);
      LoneSign(buf, digitsStart);
      if digitsEnd == digitsStart || buf[digitsStart..digitsEnd] == [MINUS] {
        return false, None;
      }
      if !StartsAt(buf, digitsEnd, SUFFIX) {
        return true, None;
      }
      var exitCode := ParseI32(buf[digitsStart..digitsEnd]);
      if exitCode.None? {
        return true, None;
      }
      return true, Some(SentinelMatch(i, digitsEnd + |SUFFIX|, exitCode.value));
    }
  }

  lemma LoneSign(buf: seq<Byte>, at: nat)
    requires at <= |buf|
    ensures NumberEnd(buf, at) > DigitsStart(buf, at)
       <==> NumberEnd(buf, at) != at && buf[at..NumberEnd(buf, at)] != [MINUS]
  {
  }

  method ScanNumber(buf: seq<Byte>, at: nat) returns (end: nat)
    requires at <= |buf|
    ensures end == NumberEnd(buf, at)
  {
    end := at;
    if end < |buf| && buf[end] == MINUS {
      end := end + 1;
    }
    while end < |buf| && IsDigit(buf[end])
      invariant DigitsStart(buf, at) <= end <= |buf|
      invariant DigitsEnd(buf, end) == NumberEnd(buf, at)
    {
      end := end + 1;
    }
  }
}
