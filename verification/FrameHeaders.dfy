/** The header that precedes every frame: lines of a name and a value, then a blank
    line. */
module FrameHeaders {
  import opened Decimals
  import opened Octets
  import opened Wrappers

  const CR: Byte := 13
  const LF: Byte := 10
  const SPACE: Byte := 32
  const COLON: Byte := 58
  const PLUS: Byte := 43
  const CRLF: seq<Byte> := [CR, LF]
  const BLANK_LINE: seq<Byte> := [CR, LF, CR, LF]

  const MAX_HEADER_BYTES: nat := 8 * 1024
  const U64_MAX: nat := 0xFFFF_FFFF_FFFF_FFFF

  datatype Header = Header(contentLength: nat, contentType: seq<Byte>, contentId: Option<nat>)

  datatype ProtocolError = UnexpectedEof | InvalidFrame(reason: Fault)

  datatype Fault =
    | HeaderTooLarge
    | MalformedLine
    | InvalidContentLength
    | InvalidContentId
    | UnknownHeader
    | MissingContentLength
    | MissingContentType
    | JsonHasContentId
    | JsonTooLarge
    | UnsupportedContentType
    | AttachmentHasNoId
    | IncomingTooLarge
    | OutgoingTooLarge
    | TooManyUnclaimed
    | DuplicateAttachment
    | AttachmentEnded

  /** The bytes of an ASCII text. */
  function Ascii(text: string): (bytes: seq<Byte>)
    requires forall i :: 0 <= i < |text| ==> text[i] < 128 as char
    ensures |bytes| == |text|
  {
    seq(|text|, i requires 0 <= i < |text| => text[i] as int)
  }

  const CONTENT_LENGTH: seq<Byte> := Ascii("Content-Length")
  const CONTENT_TYPE: seq<Byte> := Ascii("Content-Type")
  const CONTENT_ID: seq<Byte> := Ascii("Content-Id")
  const JSON_TYPE: seq<Byte> := Ascii("application/json")
  const OCTET_TYPE: seq<Byte> := Ascii("application/octet-stream")

  // ----- Finding the end -----

  predicate EndsBlank(stream: seq<Byte>, n: nat) {
    4 <= n <= |stream| && stream[n - 4..n] == BLANK_LINE
  }

  datatype HeaderScan = CleanEnd | HeaderBytes(n: nat) | BrokenOff | TooLong(n: nat)

  /** Reads byte by byte, `n` of them so far, until a blank line. */
  function ScanHeader(stream: seq<Byte>, n: nat): (r: HeaderScan)
    requires n <= |stream|
    ensures r.HeaderBytes? ==> n < r.n <= |stream|
    ensures r.TooLong? ==> n < r.n <= |stream|
    decreases |stream| - n
  {
    if n == |stream| then (if n == 0 then CleanEnd else BrokenOff)
    else if EndsBlank(stream, n + 1) then HeaderBytes(n + 1)
    else if n + 1 > MAX_HEADER_BYTES then TooLong(n + 1)
    else ScanHeader(stream, n + 1)
  }

  // ----- Parsing -----

  predicate IsWhitespace(b: Byte) {
    9 <= b <= 13 || b == SPACE
  }

  function TrimEnd(text: seq<Byte>): (r: seq<Byte>)
    ensures |r| <= |text|
  {
    if text != [] && IsWhitespace(text[|text| - 1]) then TrimEnd(text[..|text| - 1]) else text
  }

  function TrimStart(text: seq<Byte>): (r: seq<Byte>)
    ensures |r| <= |text|
  {
    if text != [] && IsWhitespace(text[0]) then TrimStart(text[1..]) else text
  }

  function Trim(text: seq<Byte>): seq<Byte> {
    TrimStart(TrimEnd(text))
  }

  function SplitCrlf(text: seq<Byte>): (lines: seq<seq<Byte>>)
    ensures lines != []
  {
    if |text| < 2 then [text]
    else if text[0] == CR && text[1] == LF then [[]] + SplitCrlf(text[2..])
    else
      var rest := SplitCrlf(text[1..]);
      [[text[0]] + rest[0]] + rest[1..]
  }

  function FindColon(line: seq<Byte>, from: nat): (r: Option<nat>)
    requires from <= |line|
    ensures r.Some? ==> from <= r.value < |line| && line[r.value] == COLON
    decreases |line| - from
  {
    if from == |line| then None
    else if line[from] == COLON then Some(from)
    else FindColon(line, from + 1)
  }

  function LowerByte(b: Byte): Byte {
    if 65 <= b <= 90 then b + 32 else b
  }

  function Lower(text: seq<Byte>): (r: seq<Byte>)
    ensures |r| == |text|
  {
    seq(|text|, i requires 0 <= i < |text| => LowerByte(text[i]))
  }

  predicate AllDigits(text: seq<Byte>) {
    forall i :: 0 <= i < |text| ==> IsDigit(text[i])
  }

  /** An optional plus sign and digits, within 64 bits. */
  function ParseU64(text: seq<Byte>): Option<nat> {
    var digits := if text != [] && text[0] == PLUS then text[1..] else text;
    if digits == [] || !AllDigits(digits) then None
    else
      var value := Decimal(digits, |digits|);
      if 0 <= value <= U64_MAX then Some(value) else None
  }

  /** What the lines so far said; a repeated name overwrites. */
  datatype Fields = Fields(length: Option<nat>, kind: Option<seq<Byte>>, id: Option<nat>)

  function ParseLine(line: seq<Byte>, f: Fields): Result<Fields, Fault> {
    var colon := FindColon(line, 0);
    if colon.None? then Err(MalformedLine)
    else
      var name, value := Lower(line[..colon.value]), Trim(line[colon.value + 1..]);
      if name == Lower(CONTENT_LENGTH) then
        var n := ParseU64(value);
        if n.None? then Err(InvalidContentLength) else Ok(f.(length := n))
      else if name == Lower(CONTENT_TYPE) then Ok(f.(kind := Some(value)))
      else if name == Lower(CONTENT_ID) then
        var n := ParseU64(value);
        if n.None? then Err(InvalidContentId) else Ok(f.(id := n))
      else Err(UnknownHeader)
  }

  function ParseLines(lines: seq<seq<Byte>>, f: Fields): Result<Fields, Fault> {
    if lines == [] then Ok(f)
    else
      var next := ParseLine(lines[0], f);
      if next.Err? then next else ParseLines(lines[1..], next.value)
  }

  function ParseHeader(bytes: seq<Byte>): Result<Header, Fault> {
    var fields := ParseLines(SplitCrlf(TrimEnd(bytes)), Fields(None, None, None));
    if fields.Err? then Err(fields.error)
    else if fields.value.length.None? then Err(MissingContentLength)
    else if fields.value.kind.None? then Err(MissingContentType)
    else Ok(Header(fields.value.length.value, fields.value.kind.value, fields.value.id))
  }

  // ----- Printing -----

  function HeaderLine(name: seq<Byte>, value: seq<Byte>): seq<Byte> {
    name + [COLON, SPACE] + value
  }

  function HeaderLines(h: Header): (lines: seq<seq<Byte>>)
    ensures lines != []
  {
    [HeaderLine(CONTENT_LENGTH, PrintNat(h.contentLength)), HeaderLine(CONTENT_TYPE, h.contentType)]
    + if h.contentId.Some? then [HeaderLine(CONTENT_ID, PrintNat(h.contentId.value))] else []
  }

  /** Every line, then the blank one. */
  function Terminated(lines: seq<seq<Byte>>): seq<Byte> {
    if lines == [] then CRLF else lines[0] + CRLF + Terminated(lines[1..])
  }

  function PrintHeader(h: Header): seq<Byte> {
    Terminated(HeaderLines(h))
  }

  // ----- Printed headers read back -----

  /** A line as they are printed: nothing in it can be taken for a line's end, and
      it ends visibly. */
  predicate PlainLine(line: seq<Byte>) {
    line != [] && CR !in line && LF !in line && !IsWhitespace(line[|line| - 1])
  }

  predicate PlainLines(lines: seq<seq<Byte>>) {
    forall i :: 0 <= i < |lines| ==> PlainLine(lines[i])
  }

  lemma {:induction false} SplitLine(line: seq<Byte>, rest: seq<Byte>)
    requires CR !in line
    ensures SplitCrlf(line) == [line]
    ensures SplitCrlf(line + CRLF + rest) == [line] + SplitCrlf(rest)
    decreases |line|
  {
    var text := line + CRLF + rest;
    if line == [] {
      assert text[2..] == rest;
    } else {
      SplitLine(line[1..], rest);
      assert text[1..] == line[1..] + CRLF + rest;
      assert [line[0]] + line[1..] == line;
    }
  }

  /** The lines, with an end between two of them. */
  function Joined(lines: seq<seq<Byte>>): seq<Byte>
    requires lines != []
  {
    if |lines| == 1 then lines[0] else lines[0] + CRLF + Joined(lines[1..])
  }

  lemma {:induction false} SplitJoined(lines: seq<seq<Byte>>)
    requires lines != [] && PlainLines(lines)
    ensures SplitCrlf(Joined(lines)) == lines
    decreases |lines|
  {
    if |lines| == 1 {
      SplitLine(lines[0], []);
    } else {
      SplitJoined(lines[1..]);
      SplitLine(lines[0], Joined(lines[1..]));
    }
  }

  lemma {:induction false} TerminatedIsJoined(lines: seq<seq<Byte>>)
    requires lines != []
    ensures Terminated(lines) == Joined(lines) + BLANK_LINE
    decreases |lines|
  {
    if |lines| == 1 {
      assert Terminated(lines[1..]) == CRLF;
      assert lines[0] + CRLF + CRLF == lines[0] + BLANK_LINE;
    } else {
      TerminatedIsJoined(lines[1..]);
      assert lines[0] + CRLF + (Joined(lines[1..]) + BLANK_LINE) == lines[0] + CRLF + Joined(lines[1..]) + BLANK_LINE;
    }
  }

  lemma {:induction false} JoinedEnds(lines: seq<seq<Byte>>)
    requires lines != [] && PlainLines(lines)
    ensures Joined(lines) != [] && !IsWhitespace(Joined(lines)[|Joined(lines)| - 1])
    decreases |lines|
  {
    if |lines| > 1 {
      JoinedEnds(lines[1..]);
    }
  }

  lemma TrimBlank(text: seq<Byte>)
    requires text != [] && !IsWhitespace(text[|text| - 1])
    ensures TrimEnd(text + BLANK_LINE) == text
  {
    TrimCrlf(text);
    TrimCrlf(text + CRLF);
    assert text + CRLF + CRLF == text + BLANK_LINE;
  }

  lemma TrimCrlf(text: seq<Byte>)
    ensures TrimEnd(text + CRLF) == TrimEnd(text)
  {
    TrimOne(text + [CR], LF);
    TrimOne(text, CR);
    assert text + CRLF == text + [CR] + [LF];
  }

  lemma TrimOne(text: seq<Byte>, b: Byte)
    requires IsWhitespace(b)
    ensures TrimEnd(text + [b]) == TrimEnd(text)
  {
    assert (text + [b])[..|text|] == text;
  }

  lemma LinesReadBack(lines: seq<seq<Byte>>)
    requires lines != [] && PlainLines(lines)
    ensures SplitCrlf(TrimEnd(Terminated(lines))) == lines
  {
    TerminatedIsJoined(lines);
    JoinedEnds(lines);
    TrimBlank(Joined(lines));
    SplitJoined(lines);
  }

  /** The blank line is the first one only at the end. */
  lemma {:induction false} NoBlankBefore(lines: seq<seq<Byte>>, p: nat)
    requires PlainLines(lines) && p + 4 < |Terminated(lines)|
    ensures Terminated(lines)[p..p + 4] != BLANK_LINE
    decreases |lines|
  {
    var line, rest, text := lines[0], Terminated(lines[1..]), Terminated(lines);
    assert text == line + CRLF + rest;
    assert PlainLine(line);
    assert text[p..p + 4][0] == text[p] && text[p..p + 4][2] == text[p + 2];
    if p < |line| {
      assert text[p] == line[p];
    } else if p == |line| {
      assert PlainLine(lines[1]);
      assert text[p + 2] == rest[0] == lines[1][0];
    } else if p >= |line| + 2 {
      var q := p - |line| - 2;
      NoBlankBefore(lines[1..], q);
      assert text[p..p + 4] == rest[q..q + 4];
    }
  }

  lemma {:induction false} ScanFinds(stream: seq<Byte>, n: nat, end: nat)
    requires n < end <= |stream| && end <= MAX_HEADER_BYTES && EndsBlank(stream, end)
    requires forall k :: n < k < end ==> !EndsBlank(stream, k)
    ensures ScanHeader(stream, n) == HeaderBytes(end)
    decreases end - n
  {
    if n + 1 < end {
      ScanFinds(stream, n + 1, end);
    }
  }

  lemma ScanPrinted(lines: seq<seq<Byte>>, rest: seq<Byte>)
    requires lines != [] && PlainLines(lines) && |Terminated(lines)| <= MAX_HEADER_BYTES
    ensures ScanHeader(Terminated(lines) + rest, 0) == HeaderBytes(|Terminated(lines)|)
  {
    var text := Terminated(lines);
    var stream := text + rest;
    TerminatedIsJoined(lines);
    assert stream[|text| - 4..|text|] == text[|text| - 4..] == BLANK_LINE;
    forall k | 0 < k < |text| ensures !EndsBlank(stream, k) {
      if k >= 4 {
        NoBlankBefore(lines, k - 4);
        assert stream[k - 4..k] == text[k - 4..k];
      }
    }
    ScanFinds(stream, 0, |text|);
  }

  // ----- One line -----

  lemma {:induction false} FindColonAt(line: seq<Byte>, from: nat, at: nat)
    requires from <= at < |line| && line[at] == COLON && forall k :: from <= k < at ==> line[k] != COLON
    ensures FindColon(line, from) == Some(at)
    decreases at - from
  {
    if from < at {
      FindColonAt(line, from + 1, at);
    }
  }

  predicate PlainValue(value: seq<Byte>) {
    value != [] && !IsWhitespace(value[0]) && !IsWhitespace(value[|value| - 1]) && CR !in value && LF !in value
  }

  lemma TrimSpaced(value: seq<Byte>)
    requires PlainValue(value)
    ensures Trim([SPACE] + value) == value
  {
    var text := [SPACE] + value;
    assert text[|text| - 1] == value[|value| - 1];
    assert TrimEnd(text) == text;
    assert text[1..] == value;
    assert TrimStart(value) == value;
  }

  lemma LineReadBack(name: seq<Byte>, value: seq<Byte>)
    requires COLON !in name && PlainValue(value)
    ensures var line := HeaderLine(name, value);
      && FindColon(line, 0) == Some(|name|)
      && line[..|name|] == name
      && Trim(line[|name| + 1..]) == value
  {
    var line := HeaderLine(name, value);
    FindColonAt(line, 0, |name|);
    assert line[|name| + 1..] == [SPACE] + value;
    TrimSpaced(value);
  }

  lemma PrintedIsPlain(n: nat)
    ensures PlainValue(PrintNat(n))
  {
    var text := PrintNat(n);
    assert IsDigit(text[0]) && IsDigit(text[|text| - 1]);
    assert forall b :: b in text ==> IsDigit(b);
  }

  lemma ParsePrinted(n: nat)
    requires n <= U64_MAX
    ensures ParseU64(PrintNat(n)) == Some(n)
  {
    assert IsDigit(PrintNat(n)[0]);
    DecimalOfPrint(n);
  }

  lemma NamesArePlain()
    ensures COLON !in CONTENT_LENGTH && COLON !in CONTENT_TYPE && COLON !in CONTENT_ID
    ensures CR !in CONTENT_LENGTH && CR !in CONTENT_TYPE && CR !in CONTENT_ID
    ensures LF !in CONTENT_LENGTH && LF !in CONTENT_TYPE && LF !in CONTENT_ID
    ensures |CONTENT_LENGTH| == 14 && |CONTENT_TYPE| == 12 && |CONTENT_ID| == 10
  {
  }

  lemma TypesArePlain()
    ensures PlainValue(JSON_TYPE) && PlainValue(OCTET_TYPE)
    ensures |JSON_TYPE| == 16 && |OCTET_TYPE| == 24
  {
  }

  // ----- The whole header -----

  predicate Printable(h: Header) {
    && h.contentLength <= U64_MAX
    && (h.contentId.Some? ==> h.contentId.value <= U64_MAX)
    && PlainValue(h.contentType) && |h.contentType| <= 24
  }

  lemma HeaderLineIsPlain(name: seq<Byte>, value: seq<Byte>)
    requires PlainValue(value) && CR !in name && LF !in name
    ensures PlainLine(HeaderLine(name, value))
  {
    var line := HeaderLine(name, value);
    assert line[|line| - 1] == value[|value| - 1];
  }

  lemma HeaderLinesArePlain(h: Header)
    requires Printable(h)
    ensures PlainLines(HeaderLines(h))
  {
    NamesArePlain();
    PrintedIsPlain(h.contentLength);
    HeaderLineIsPlain(CONTENT_LENGTH, PrintNat(h.contentLength));
    HeaderLineIsPlain(CONTENT_TYPE, h.contentType);
    if h.contentId.Some? {
      PrintedIsPlain(h.contentId.value);
      HeaderLineIsPlain(CONTENT_ID, PrintNat(h.contentId.value));
    }
  }

  lemma Pow10Five(k: nat)
    ensures Pow10(k + 5) == 100000 * Pow10(k)
  {
    assert Pow10(k + 2) == 100 * Pow10(k);
    assert Pow10(k + 4) == 100 * Pow10(k + 2);
  }

  lemma U64Length(n: nat)
    requires n <= U64_MAX
    ensures |PrintNat(n)| <= 20
  {
    Pow10Five(0);
    Pow10Five(5);
    Pow10Five(10);
    Pow10Five(15);
    PrintLength(n, 20);
  }

  lemma TerminatedOne(line: seq<Byte>)
    ensures Terminated([line]) == line + CRLF + CRLF
  {
    assert [line][1..] == [];
  }

  lemma HeaderFits(h: Header)
    requires Printable(h)
    ensures |PrintHeader(h)| <= MAX_HEADER_BYTES
  {
    NamesArePlain();
    U64Length(h.contentLength);
    var lines := HeaderLines(h);
    if h.contentId.Some? {
      U64Length(h.contentId.value);
      assert lines[1..][1..] == [lines[2]];
      TerminatedOne(lines[2]);
      assert Terminated(lines[1..]) == lines[1] + CRLF + Terminated([lines[2]]);
    } else {
      assert lines[1..] == [lines[1]];
      TerminatedOne(lines[1]);
    }
  }

  lemma LengthLine(h: Header, f: Fields)
    requires Printable(h)
    ensures ParseLine(HeaderLine(CONTENT_LENGTH, PrintNat(h.contentLength)), f)
         == Ok(f.(length := Some(h.contentLength)))
  {
    NamesArePlain();
    PrintedIsPlain(h.contentLength);
    ParsePrinted(h.contentLength);
    LineReadBack(CONTENT_LENGTH, PrintNat(h.contentLength));
  }

  lemma TypeLine(h: Header, f: Fields)
    requires Printable(h)
    ensures ParseLine(HeaderLine(CONTENT_TYPE, h.contentType), f) == Ok(f.(kind := Some(h.contentType)))
  {
    NamesArePlain();
    LineReadBack(CONTENT_TYPE, h.contentType);
    assert |Lower(CONTENT_TYPE)| != |Lower(CONTENT_LENGTH)|;
  }

  lemma IdLine(id: nat, f: Fields)
    requires id <= U64_MAX
    ensures ParseLine(HeaderLine(CONTENT_ID, PrintNat(id)), f) == Ok(f.(id := Some(id)))
  {
    NamesArePlain();
    PrintedIsPlain(id);
    ParsePrinted(id);
    LineReadBack(CONTENT_ID, PrintNat(id));
    assert |Lower(CONTENT_ID)| != |Lower(CONTENT_LENGTH)| && |Lower(CONTENT_ID)| != |Lower(CONTENT_TYPE)|;
  }

  lemma LinesParseBack(h: Header)
    requires Printable(h)
    ensures ParseLines(HeaderLines(h), Fields(None, None, None))
         == Ok(Fields(Some(h.contentLength), Some(h.contentType), h.contentId))
  {
    var lines := HeaderLines(h);
    var f1 := Fields(Some(h.contentLength), None, None);
    var f2 := f1.(kind := Some(h.contentType));
    LengthLine(h, Fields(None, None, None));
    TypeLine(h, f1);
    assert lines[1..][0] == lines[1];
    if h.contentId.Some? {
      IdLine(h.contentId.value, f2);
      assert lines[1..][1..] == [lines[2]];
      assert ParseLines([lines[2]], f2) == ParseLine(lines[2], f2);
    } else {
      assert lines[1..][1..] == lines[2..];
      assert ParseLines(lines[2..], f2) == Ok(f2);
    }
  }

  /** A printed header, in front of anything, is found whole and read back. */
  lemma HeaderReadsBack(h: Header, rest: seq<Byte>)
    requires Printable(h)
    ensures ScanHeader(PrintHeader(h) + rest, 0) == HeaderBytes(|PrintHeader(h)|)
    ensures ParseHeader(PrintHeader(h)) == Ok(h)
  {
    HeaderLinesArePlain(h);
    HeaderFits(h);
    ScanPrinted(HeaderLines(h), rest);
    LinesReadBack(HeaderLines(h));
    LinesParseBack(h);
  }
}
