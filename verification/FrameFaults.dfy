/** Frames that are refused, and why. */
module FrameFaults {
  import opened FrameHeaders
  import opened Frames
  import opened FrameLaws
  import opened Octets
  import opened Wrappers

  /** Reading a frame whose header is printed is deciding by that header. */
  lemma HeaderDecides(h: Header, body: seq<Byte>, received: Received)
    requires Printable(h)
    ensures ReadFrame(PrintHeader(h) + body, received) ==
      if h.contentType == OCTET_TYPE then ReadContent(h, received, body)
      else if h.contentType == JSON_TYPE then ReadJson(h, received, body)
      else Failed(InvalidFrame(UnsupportedContentType), body)
  {
    ReadPrinted(h, body, []);
    assert PrintHeader(h) + body + [] == PrintHeader(h) + body;
    assert body + [] == body;
  }

  lemma FailureEnds(stream: seq<Byte>, received: Received, error: ProtocolError, rest: seq<Byte>)
    requires ReadFrame(stream, received) == Failed(error, rest)
    ensures ReadMessage(stream, received) == MessageRead(Err(error), rest, received)
  {
  }

  /** An attachment frame is refused for the first of these reasons, before any of its
      bytes are taken; the attachments received before stay. */
  lemma AttachmentRefused(h: Header, body: seq<Byte>, received: Received)
    requires Printable(h) && h.contentType == OCTET_TYPE
    ensures var refusal :=
        if h.contentId.None? then Some(AttachmentHasNoId)
        else if h.contentLength > MAX_ATTACHMENT_BYTES then Some(IncomingTooLarge)
        else if |received| >= MAX_UNCLAIMED_ATTACHMENTS then Some(TooManyUnclaimed)
        else if h.contentId.value in received then Some(DuplicateAttachment)
        else None;
      refusal.Some? ==>
        ReadMessage(PrintHeader(h) + body, received) == MessageRead(Err(InvalidFrame(refusal.value)), body, received)
  {
    HeaderDecides(h, body, received);
    if ReadContent(h, received, body).Failed? {
      var failed := ReadContent(h, received, body);
      FailureEnds(PrintHeader(h) + body, received, failed.error, failed.rest);
    }
  }

  /** A JSON frame has no number and is within its cap, and there is no third type. */
  lemma JsonFrameRefused(h: Header, body: seq<Byte>, received: Received)
    requires Printable(h) && h.contentType != OCTET_TYPE
    ensures var refusal :=
        if h.contentType != JSON_TYPE then Some(UnsupportedContentType)
        else if h.contentId.Some? then Some(JsonHasContentId)
        else if h.contentLength > MAX_JSON_BYTES then Some(JsonTooLarge)
        else None;
      refusal.Some? ==>
        ReadMessage(PrintHeader(h) + body, received) == MessageRead(Err(InvalidFrame(refusal.value)), body, received)
  {
    HeaderDecides(h, body, received);
    if h.contentType != JSON_TYPE {
      FailureEnds(PrintHeader(h) + body, received, InvalidFrame(UnsupportedContentType), body);
    } else if ReadJson(h, received, body).Failed? {
      var failed := ReadJson(h, received, body);
      FailureEnds(PrintHeader(h) + body, received, failed.error, failed.rest);
    }
  }

  // ----- Headers that are not printed ones -----

  lemma {:induction false} ScanTooLong(stream: seq<Byte>, n: nat)
    requires n <= MAX_HEADER_BYTES < |stream|
    requires forall k :: n < k <= MAX_HEADER_BYTES + 1 ==> !EndsBlank(stream, k)
    ensures ScanHeader(stream, n) == TooLong(MAX_HEADER_BYTES + 1)
    decreases MAX_HEADER_BYTES - n
  {
    if n < MAX_HEADER_BYTES {
      ScanTooLong(stream, n + 1);
    }
  }

  /** A header that has not ended one byte behind the limit is refused there. */
  lemma LongHeaderRefused(stream: seq<Byte>, received: Received)
    requires |stream| > MAX_HEADER_BYTES
    requires forall k :: 0 < k <= MAX_HEADER_BYTES + 1 ==> !EndsBlank(stream, k)
    ensures ReadMessage(stream, received)
         == MessageRead(Err(InvalidFrame(HeaderTooLarge)), stream[MAX_HEADER_BYTES + 1..], received)
  {
    ScanTooLong(stream, 0);
    FailureEnds(stream, received, InvalidFrame(HeaderTooLarge), stream[MAX_HEADER_BYTES + 1..]);
  }

  /** The same but for the case of letters. */
  predicate SameLetters(a: seq<Byte>, b: seq<Byte>) {
    |a| == |b| && forall i :: 0 <= i < |a| ==>
      a[i] == b[i] || (65 <= a[i] <= 90 && b[i] == a[i] + 32) || (65 <= b[i] <= 90 && a[i] == b[i] + 32)
  }

  lemma ColonAt(name: seq<Byte>, value: seq<Byte>)
    requires COLON !in name
    ensures var line := name + [COLON] + value;
      FindColon(line, 0) == Some(|name|) && line[..|name|] == name && line[|name| + 1..] == value
  {
    var line := name + [COLON] + value;
    FindColonAt(line, 0, |name|);
  }

  /** Names of fields are compared without case. */
  lemma NamesIgnoreCase(a: seq<Byte>, b: seq<Byte>, value: seq<Byte>, f: Fields)
    requires SameLetters(a, b) && COLON !in a && COLON !in b
    ensures ParseLine(a + [COLON] + value, f) == ParseLine(b + [COLON] + value, f)
  {
    ColonAt(a, value);
    ColonAt(b, value);
    assert Lower(a) == Lower(b);
  }

  ghost predicate AllSpace(text: seq<Byte>) {
    forall i :: 0 <= i < |text| ==> IsWhitespace(text[i])
  }

  lemma {:induction false} TrimEndDrops(text: seq<Byte>, pad: seq<Byte>)
    requires AllSpace(pad)
    ensures TrimEnd(text + pad) == TrimEnd(text)
    decreases |pad|
  {
    if pad == [] {
      assert text + pad == text;
    } else {
      var n := |pad| - 1;
      TrimEndDrops(text, pad[..n]);
      TrimOne(text + pad[..n], pad[n]);
      assert text + pad == text + pad[..n] + [pad[n]];
    }
  }

  lemma {:induction false} TrimStartDrops(pad: seq<Byte>, text: seq<Byte>)
    requires AllSpace(pad)
    ensures TrimStart(pad + text) == TrimStart(text)
    decreases |pad|
  {
    if pad == [] {
      assert pad + text == text;
    } else {
      TrimStartDrops(pad[1..], text);
      assert (pad + text)[1..] == pad[1..] + text;
    }
  }

  lemma TrimEndKeeps(front: seq<Byte>, value: seq<Byte>)
    requires value != [] && !IsWhitespace(value[|value| - 1])
    ensures TrimEnd(front + value) == front + value
  {
  }

  lemma TrimDrops(before: seq<Byte>, value: seq<Byte>, behind: seq<Byte>)
    requires AllSpace(before) && AllSpace(behind) && PlainValue(value)
    ensures Trim(before + value + behind) == Trim(value)
  {
    TrimEndDrops(before + value, behind);
    TrimEndKeeps(before, value);
    TrimEndKeeps([], value);
    assert [] + value == value;
    TrimStartDrops(before, value);
  }

  /** White space around a value does not count. */
  lemma ValuesAreTrimmed(name: seq<Byte>, before: seq<Byte>, value: seq<Byte>, behind: seq<Byte>, f: Fields)
    requires COLON !in name && AllSpace(before) && AllSpace(behind) && PlainValue(value)
    ensures ParseLine(name + [COLON] + (before + value + behind), f) == ParseLine(name + [COLON] + value, f)
  {
    ColonAt(name, before + value + behind);
    ColonAt(name, value);
    TrimDrops(before, value, behind);
  }

  /** A line without a colon is malformed, and a name other than the three is unknown. */
  lemma LineRefused(line: seq<Byte>, name: seq<Byte>, value: seq<Byte>, f: Fields)
    requires COLON !in line && COLON !in name
    requires !SameLetters(name, CONTENT_LENGTH) && !SameLetters(name, CONTENT_TYPE) && !SameLetters(name, CONTENT_ID)
    ensures ParseLine(line, f) == Err(MalformedLine)
    ensures ParseLine(name + [COLON] + value, f) == Err(UnknownHeader)
  {
    ColonAt(name, value);
    LowerSame(name, CONTENT_LENGTH);
    LowerSame(name, CONTENT_TYPE);
    LowerSame(name, CONTENT_ID);
  }

  lemma LowerSame(a: seq<Byte>, b: seq<Byte>)
    ensures Lower(a) == Lower(b) <==> SameLetters(a, b)
  {
    if Lower(a) == Lower(b) {
      forall i | 0 <= i < |a| ensures LowerByte(a[i]) == LowerByte(b[i]) {
        assert Lower(a)[i] == Lower(b)[i];
      }
    }
  }
}
