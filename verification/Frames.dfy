/** Messages on a stream of bytes: attachments first, then the JSON that refers to
    them, each behind its header. */
module Frames {
  import opened Decimals
  import opened FrameHeaders
  import opened Octets
  import opened Sequences
  import opened Wrappers

  const MAX_JSON_BYTES: nat := 8 * 1024 * 1024
  const MAX_ATTACHMENT_BYTES: nat := 256 * 1024 * 1024
  const MAX_UNCLAIMED_ATTACHMENTS: nat := 16

  datatype Attachment = Attachment(id: nat, content: seq<Byte>)

  /** What is sent: the encoded JSON and the attachments it claims. */
  datatype Encoded = Encoded(json: seq<Byte>, pending: seq<Attachment>)

  /** What is received. */
  datatype RawMessage = RawMessage(json: seq<Byte>, attachments: map<nat, seq<Byte>>)

  type Received = map<nat, seq<Byte>>

  // ----- Sending -----

  function ContentHeader(a: Attachment): Header {
    Header(|a.content|, OCTET_TYPE, Some(a.id))
  }

  function JsonHeader(json: seq<Byte>): Header {
    Header(|json|, JSON_TYPE, None)
  }

  function ContentFrame(a: Attachment): seq<Byte> {
    PrintHeader(ContentHeader(a)) + a.content
  }

  function ContentFrames(pending: seq<Attachment>): seq<Byte> {
    if pending == [] then [] else ContentFrame(pending[0]) + ContentFrames(pending[1..])
  }

  function JsonFrame(json: seq<Byte>): seq<Byte> {
    PrintHeader(JsonHeader(json)) + json
  }

  function MessageBytes(m: Encoded): seq<Byte> {
    ContentFrames(m.pending) + JsonFrame(m.json)
  }

  /** How many attachments come before the first that is too large. */
  function SendableCount(pending: seq<Attachment>, from: nat := 0): (n: nat)
    requires from <= |pending|
    ensures from <= n <= |pending|
    decreases |pending| - from
  {
    if from == |pending| || |pending[from].content| > MAX_ATTACHMENT_BYTES then from
    else SendableCount(pending, from + 1)
  }

  // ----- Receiving -----

  /** What one frame does to the attachments received so far. */
  datatype FrameRead =
    | NoMore
    | Stored(received: Received, rest: seq<Byte>)
    | Complete(message: RawMessage, rest: seq<Byte>)
    | Failed(error: ProtocolError, rest: seq<Byte>)

  function ReadContent(h: Header, received: Received, stream: seq<Byte>): FrameRead {
    if h.contentId.None? then Failed(InvalidFrame(AttachmentHasNoId), stream)
    else if h.contentLength > MAX_ATTACHMENT_BYTES then Failed(InvalidFrame(IncomingTooLarge), stream)
    else if |received| >= MAX_UNCLAIMED_ATTACHMENTS then Failed(InvalidFrame(TooManyUnclaimed), stream)
    else if h.contentId.value in received then Failed(InvalidFrame(DuplicateAttachment), stream)
    else if h.contentLength > |stream| then Failed(InvalidFrame(AttachmentEnded), [])
    else Stored(received[h.contentId.value := stream[..h.contentLength]], stream[h.contentLength..])
  }

  function ReadJson(h: Header, received: Received, stream: seq<Byte>): FrameRead {
    if h.contentId.Some? then Failed(InvalidFrame(JsonHasContentId), stream)
    else if h.contentLength > MAX_JSON_BYTES then Failed(InvalidFrame(JsonTooLarge), stream)
    else if h.contentLength > |stream| then Failed(UnexpectedEof, [])
    else Complete(RawMessage(stream[..h.contentLength], received), stream[h.contentLength..])
  }

  function ReadFrame(stream: seq<Byte>, received: Received): (r: FrameRead)
    ensures r.Stored? ==> |r.rest| < |stream|
    ensures r.Complete? ==> |r.rest| < |stream|
  {
    match ScanHeader(stream, 0)
    case CleanEnd => NoMore
    case BrokenOff => Failed(UnexpectedEof, [])
    case TooLong(n) => Failed(InvalidFrame(HeaderTooLarge), stream[n..])
    case HeaderBytes(n) =>
      var h := ParseHeader(stream[..n]);
      if h.Err? then Failed(InvalidFrame(h.error), stream[n..])
      else if h.value.contentType == OCTET_TYPE then ReadContent(h.value, received, stream[n..])
      else if h.value.contentType == JSON_TYPE then ReadJson(h.value, received, stream[n..])
      else Failed(InvalidFrame(UnsupportedContentType), stream[n..])
  }

  /** Reads frames up to the next JSON. A stream that ends between two frames ends
      cleanly. */
  datatype MessageRead = MessageRead(
    result: Result<Option<RawMessage>, ProtocolError>,
    rest: seq<Byte>,
    received: Received)

  function ReadMessage(stream: seq<Byte>, received: Received): MessageRead
    decreases |stream|
  {
    match ReadFrame(stream, received)
    case NoMore => MessageRead(Ok(None), stream, received)
    case Stored(received', rest) => ReadMessage(rest, received')
    case Complete(message, rest) => MessageRead(Ok(Some(message)), rest, map[])
    case Failed(error, rest) => MessageRead(Err(error), rest, received)
  }

  // ----- The connection -----

  class Connection {
    /** Bytes sent, and bytes still to be read. */
    var outgoing: seq<Byte>
    var incoming: seq<Byte>
    var received: Received

    constructor (incoming: seq<Byte>)
      ensures outgoing == [] && this.incoming == incoming && received == map[]
    {
      outgoing := [];
      this.incoming := incoming;
      received := map[];
    }

    method WriteHeader(contentType: seq<Byte>, contentId: Option<nat>, contentLength: nat)
      modifies this`outgoing
      ensures outgoing == old(outgoing) + PrintHeader(Header(contentLength, contentType, contentId))
    {
      var header := CONTENT_LENGTH + [COLON, SPACE] + PrintNat(contentLength) + CRLF
        + CONTENT_TYPE + [COLON, SPACE] + contentType + CRLF;
      if contentId.Some? {
        header := header + CONTENT_ID + [COLON, SPACE] + PrintNat(contentId.value) + CRLF;
      }
      header := header + CRLF;
      HeaderBytesAre(Header(contentLength, contentType, contentId));
      outgoing := outgoing + header;
    }

    /** Sends an attachment whole, or nothing of one that is too large. */
    method SendContent(a: Attachment) returns (r: Result<(), ProtocolError>)
      modifies this`outgoing
      ensures if |a.content| > MAX_ATTACHMENT_BYTES
              then r == Err(InvalidFrame(OutgoingTooLarge)) && outgoing == old(outgoing)
              else r == Ok(()) && outgoing == old(outgoing) + ContentFrame(a)
    {
      if |a.content| > MAX_ATTACHMENT_BYTES {
        return Err(InvalidFrame(OutgoingTooLarge));
      }
      WriteHeader(OCTET_TYPE, Some(a.id), |a.content|);
      outgoing := outgoing + a.content;
      return Ok(());
    }

    method SendContents(pending: seq<Attachment>) returns (r: Result<(), ProtocolError>)
      modifies this`outgoing
      ensures var n := SendableCount(pending);
        && outgoing == old(outgoing) + ContentFrames(pending[..n])
        && r == if n < |pending| then Err(InvalidFrame(OutgoingTooLarge)) else Ok(())
    {
      var i := 0;
      while i < |pending|
        invariant i <= |pending|
        invariant outgoing == old(outgoing) + ContentFrames(pending[..i])
        invariant SendableCount(pending) == SendableCount(pending, i)
      {
        OneMoreFrame(pending, i);
        Associative(old(outgoing), ContentFrames(pending[..i]), ContentFrame(pending[i]));
        var sent := SendContent(pending[i]);
        if sent.Err? {
          return Err(sent.error);
        }
        i := i + 1;
      }
      return Ok(());
    }

    /** Sends a message; one with an attachment that is too large breaks off before
        that attachment. */
    method SendEncoded(m: Encoded) returns (r: Result<(), ProtocolError>)
      modifies this`outgoing
      ensures var n := SendableCount(m.pending);
        if n < |m.pending|
        then r == Err(InvalidFrame(OutgoingTooLarge)) && outgoing == old(outgoing) + ContentFrames(m.pending[..n])
        else r == Ok(()) && outgoing == old(outgoing) + MessageBytes(m)
    {
      var sent := SendContents(m.pending);
      if sent.Err? {
        return sent;
      }
      assert m.pending[..|m.pending|] == m.pending;
      Associative(old(outgoing), ContentFrames(m.pending), JsonFrame(m.json));
      Associative(outgoing, PrintHeader(JsonHeader(m.json)), m.json);
      WriteHeader(JSON_TYPE, None, |m.json|);
      outgoing := outgoing + m.json;
      return Ok(());
    }

    /** Takes bytes one at a time until a blank line. */
    method TakeHeader() returns (r: Result<Option<seq<Byte>>, ProtocolError>)
      modifies this`incoming
      ensures match ScanHeader(old(incoming), 0) {
        case CleanEnd => r == Ok(None) && incoming == old(incoming)
        case BrokenOff => r == Err(UnexpectedEof) && incoming == []
        case TooLong(n) => r == Err(InvalidFrame(HeaderTooLarge)) && incoming == old(incoming)[n..]
        case HeaderBytes(n) => r == Ok(Some(old(incoming)[..n])) && incoming == old(incoming)[n..]
      }
    {
      var bytes := [];
      while incoming != []
        invariant |bytes| <= |old(incoming)|
        invariant bytes == old(incoming)[..|bytes|] && incoming == old(incoming)[|bytes|..]
        invariant ScanHeader(old(incoming), 0) == ScanHeader(old(incoming), |bytes|)
        decreases |incoming|
      {
        OneMoreByte(old(incoming), |bytes|);
        bytes := bytes + [incoming[0]];
        incoming := incoming[1..];
        if |bytes| >= 4 && bytes[|bytes| - 4..] == BLANK_LINE {
          return Ok(Some(bytes));
        }
        if |bytes| > MAX_HEADER_BYTES {
          return Err(InvalidFrame(HeaderTooLarge));
        }
      }
      return if bytes == [] then Ok(None) else Err(UnexpectedEof);
    }

    method ReadHeader() returns (r: Result<Option<Header>, ProtocolError>)
      modifies this`incoming
      ensures match ScanHeader(old(incoming), 0) {
        case CleanEnd => r == Ok(None) && incoming == old(incoming)
        case BrokenOff => r == Err(UnexpectedEof) && incoming == []
        case TooLong(n) => r == Err(InvalidFrame(HeaderTooLarge)) && incoming == old(incoming)[n..]
        case HeaderBytes(n) =>
          && incoming == old(incoming)[n..]
          && r == var h := ParseHeader(old(incoming)[..n]);
            if h.Err? then Err(InvalidFrame(h.error)) else Ok(Some(h.value))
      }
    {
      var bytes := TakeHeader();
      if bytes.Err? {
        return Err(bytes.error);
      }
      if bytes.value.None? {
        return Ok(None);
      }
      var h := ParseHeader(bytes.value.value);
      return if h.Err? then Err(InvalidFrame(h.error)) else Ok(Some(h.value));
    }

    /** Takes an attachment's bytes off the stream. */
    method ReceiveContent(h: Header) returns (r: Result<(), ProtocolError>)
      modifies this`incoming, this`received
      ensures match ReadContent(h, old(received), old(incoming)) {
        case Stored(received', rest) => r == Ok(()) && received == received' && incoming == rest
        case Failed(error, rest) => r == Err(error) && received == old(received) && incoming == rest
        case _ => false
      }
    {
      if h.contentId.None? {
        return Err(InvalidFrame(AttachmentHasNoId));
      }
      if h.contentLength > MAX_ATTACHMENT_BYTES {
        return Err(InvalidFrame(IncomingTooLarge));
      }
      if |received| >= MAX_UNCLAIMED_ATTACHMENTS {
        return Err(InvalidFrame(TooManyUnclaimed));
      }
      if h.contentId.value in received {
        return Err(InvalidFrame(DuplicateAttachment));
      }
      if h.contentLength > |incoming| {
        incoming := [];
        return Err(InvalidFrame(AttachmentEnded));
      }
      received := received[h.contentId.value := incoming[..h.contentLength]];
      incoming := incoming[h.contentLength..];
      return Ok(());
    }

    method ReceiveRaw() returns (r: Result<Option<RawMessage>, ProtocolError>)
      modifies this`incoming, this`received
      ensures MessageRead(r, incoming, received) == ReadMessage(old(incoming), old(received))
    {
      while true
        invariant ReadMessage(incoming, received) == ReadMessage(old(incoming), old(received))
        decreases |incoming|
      {
        var header := ReadHeader();
        if header.Err? {
          return Err(header.error);
        }
        if header.value.None? {
          return Ok(None);
        }
        var h := header.value.value;
        if h.contentType == OCTET_TYPE {
          var stored := ReceiveContent(h);
          if stored.Err? {
            return Err(stored.error);
          }
        } else if h.contentType == JSON_TYPE {
          if h.contentId.Some? {
            return Err(InvalidFrame(JsonHasContentId));
          }
          if h.contentLength > MAX_JSON_BYTES {
            return Err(InvalidFrame(JsonTooLarge));
          }
          if h.contentLength > |incoming| {
            incoming := [];
            return Err(UnexpectedEof);
          }
          var json := incoming[..h.contentLength];
          incoming := incoming[h.contentLength..];
          var attachments := received;
          received := map[];
          return Ok(Some(RawMessage(json, attachments)));
        } else {
          return Err(InvalidFrame(UnsupportedContentType));
        }
      }
    }
  }

  lemma OneMoreByte(stream: seq<Byte>, n: nat)
    requires n < |stream|
    ensures stream[..n] + [stream[n..][0]] == stream[..n + 1] && stream[n..][1..] == stream[n + 1..]
    ensures n + 1 >= 4 ==> stream[..n + 1][n + 1 - 4..] == stream[n + 1 - 4..n + 1]
  {
  }

  lemma OneMoreFrame(pending: seq<Attachment>, i: nat)
    requires i < |pending|
    ensures ContentFrames(pending[..i + 1]) == ContentFrames(pending[..i]) + ContentFrame(pending[i])
  {
    assert pending[..i + 1] == pending[..i] + [pending[i]];
    ContentFramesAppend(pending[..i], pending[i]);
  }

  lemma HeaderBytesAre(h: Header)
    ensures PrintHeader(h) == CONTENT_LENGTH + [COLON, SPACE] + PrintNat(h.contentLength) + CRLF
      + CONTENT_TYPE + [COLON, SPACE] + h.contentType + CRLF
      + (if h.contentId.Some? then CONTENT_ID + [COLON, SPACE] + PrintNat(h.contentId.value) + CRLF else []) + CRLF
  {
    var lines := HeaderLines(h);
    if h.contentId.Some? {
      TerminatedOne(lines[2]);
      assert lines[1..][1..] == [lines[2]];
      assert Terminated(lines[1..]) == lines[1] + CRLF + Terminated([lines[2]]);
    } else {
      assert lines[1..] == [lines[1]];
      TerminatedOne(lines[1]);
    }
  }

  const LENGTH_FIELD: seq<Byte> := Ascii("Content-Length: ")
  const TYPE_FIELD: seq<Byte> := Ascii("\r\nContent-Type: ")
  const ID_FIELD: seq<Byte> := Ascii("\r\nContent-Id: ")
  const HEADER_END: seq<Byte> := Ascii("\r\n\r\n")

  lemma FieldTexts()
    ensures LENGTH_FIELD == CONTENT_LENGTH + [COLON, SPACE]
    ensures TYPE_FIELD == CRLF + (CONTENT_TYPE + [COLON, SPACE])
    ensures ID_FIELD == CRLF + (CONTENT_ID + [COLON, SPACE])
    ensures HEADER_END == CRLF + CRLF
  {
  }

  lemma Regroup(a: seq<Byte>, b: seq<Byte>, c: seq<Byte>, d: seq<Byte>)
    ensures a + b + c + d == a + (b + (c + d)) && a + b + (c + d) == a + (b + (c + d))
  {
  }

  /** The header as it is on the wire. */
  lemma HeaderText(h: Header)
    ensures PrintHeader(h) == LENGTH_FIELD + PrintNat(h.contentLength) + TYPE_FIELD + h.contentType
      + (if h.contentId.Some? then ID_FIELD + PrintNat(h.contentId.value) else []) + HEADER_END
  {
    FieldTexts();
    HeaderBytesAre(h);
    var front := LENGTH_FIELD + PrintNat(h.contentLength);
    Regroup(front, CRLF, CONTENT_TYPE, [COLON, SPACE]);
    assert front + CRLF + CONTENT_TYPE + [COLON, SPACE] == front + TYPE_FIELD;
    var typed := front + TYPE_FIELD + h.contentType;
    if h.contentId.Some? {
      Regroup(typed, CRLF, CONTENT_ID, [COLON, SPACE]);
    }
  }

  lemma {:induction false} ContentFramesAppend(pending: seq<Attachment>, a: Attachment)
    ensures ContentFrames(pending + [a]) == ContentFrames(pending) + ContentFrame(a)
    decreases |pending|
  {
    if pending == [] {
      assert [a][1..] == [];
      assert pending + [a] == [a];
    } else {
      assert (pending + [a])[1..] == pending[1..] + [a];
      ContentFramesAppend(pending[1..], a);
    }
  }
}
