/** What is sent is what is received. */
module FrameLaws {
  import opened FrameHeaders
  import opened Frames
  import opened Octets
  import opened Sequences
  import opened Wrappers

  predicate DistinctIds(pending: seq<Attachment>) {
    forall i, j :: 0 <= i < j < |pending| ==> pending[i].id != pending[j].id
  }

  predicate Fits(a: Attachment) {
    |a.content| <= MAX_ATTACHMENT_BYTES && a.id <= U64_MAX
  }

  /** Attachments that the sender sends whole: within its cap, numbered with 64 bits. */
  predicate Acceptable(pending: seq<Attachment>) {
    DistinctIds(pending) && forall i :: 0 <= i < |pending| ==> Fits(pending[i])
  }

  /** Messages that both sides accept: within the size caps, with no more attachments
      than the receiver stores, and numbered with 64 bits. */
  predicate Sendable(m: Encoded) {
    |m.json| <= MAX_JSON_BYTES && |m.pending| <= MAX_UNCLAIMED_ATTACHMENTS && Acceptable(m.pending)
  }

  function Attachments(pending: seq<Attachment>): Received {
    if pending == [] then map[]
    else Attachments(pending[..|pending| - 1])[pending[|pending| - 1].id := pending[|pending| - 1].content]
  }

  function Raw(m: Encoded): RawMessage {
    RawMessage(m.json, Attachments(m.pending))
  }

  lemma {:induction false} AttachmentsAre(pending: seq<Attachment>)
    requires DistinctIds(pending)
    ensures |Attachments(pending)| == |pending|
    ensures forall id :: id in Attachments(pending) ==> exists i :: 0 <= i < |pending| && pending[i].id == id
    ensures forall i :: 0 <= i < |pending| ==>
      pending[i].id in Attachments(pending) && Attachments(pending)[pending[i].id] == pending[i].content
    decreases |pending|
  {
    if pending != [] {
      AttachmentsAre(pending[..|pending| - 1]);
    }
  }

  lemma ReadPrinted(h: Header, body: seq<Byte>, rest: seq<Byte>)
    requires Printable(h)
    ensures var stream := PrintHeader(h) + body + rest;
      && ScanHeader(stream, 0) == HeaderBytes(|PrintHeader(h)|)
      && ParseHeader(stream[..|PrintHeader(h)|]) == Ok(h)
      && stream[|PrintHeader(h)|..] == body + rest
      && (body + rest)[..|body|] == body && (body + rest)[|body|..] == rest
  {
    var stream := PrintHeader(h) + body + rest;
    assert stream == PrintHeader(h) + (body + rest);
    HeaderReadsBack(h, body + rest);
    assert stream[..|PrintHeader(h)|] == PrintHeader(h);
  }

  /** An attachment's frame is stored, whatever its bytes are. */
  lemma ContentReadsBack(a: Attachment, received: Received, rest: seq<Byte>)
    requires Fits(a) && |received| < MAX_UNCLAIMED_ATTACHMENTS && a.id !in received
    ensures ReadFrame(ContentFrame(a) + rest, received) == Stored(received[a.id := a.content], rest)
  {
    TypesArePlain();
    ReadPrinted(ContentHeader(a), a.content, rest);
  }

  lemma JsonReadsBack(json: seq<Byte>, received: Received, rest: seq<Byte>)
    requires |json| <= MAX_JSON_BYTES
    ensures ReadFrame(JsonFrame(json) + rest, received) == Complete(RawMessage(json, received), rest)
  {
    TypesArePlain();
    assert |JSON_TYPE| != |OCTET_TYPE|;
    ReadPrinted(JsonHeader(json), json, rest);
  }

  lemma JsonIsLast(json: seq<Byte>, received: Received, rest: seq<Byte>)
    requires |json| <= MAX_JSON_BYTES
    ensures ReadMessage(JsonFrame(json) + rest, received)
         == MessageRead(Ok(Some(RawMessage(json, received))), rest, map[])
  {
    JsonReadsBack(json, received, rest);
  }

  lemma {:induction false} FramesAreStored(done: seq<Attachment>, pending: seq<Attachment>, after: seq<Byte>)
    requires Acceptable(done + pending) && |done + pending| <= MAX_UNCLAIMED_ATTACHMENTS
    ensures ReadMessage(ContentFrames(pending) + after, Attachments(done))
         == ReadMessage(after, Attachments(done + pending))
    decreases |pending|
  {
    if pending == [] {
      assert ContentFrames([]) + after == after && done + [] == done;
    } else {
      var a, tail := pending[0], pending[1..];
      assert pending == [a] + tail;
      assert done + [a] + tail == done + pending;
      FramesAreStored(done + [a], tail, after);
      OneFrame(done, a, tail, after);
    }
  }

  lemma OneFrame(done: seq<Attachment>, a: Attachment, tail: seq<Attachment>, after: seq<Byte>)
    requires Acceptable(done + ([a] + tail)) && |done + ([a] + tail)| <= MAX_UNCLAIMED_ATTACHMENTS
    ensures ReadMessage(ContentFrames([a] + tail) + after, Attachments(done))
         == ReadMessage(ContentFrames(tail) + after, Attachments(done + [a]))
  {
    NextIsNew(done, a, tail);
    assert (done + ([a] + tail))[|done|] == a;
    assert (done + [a])[..|done|] == done;
    assert ([a] + tail)[1..] == tail;
    FirstFrame(a, Attachments(done), ContentFrames(tail), after);
  }

  lemma StoredFrame(stream: seq<Byte>, received: Received, received': Received, rest: seq<Byte>)
    requires ReadFrame(stream, received) == Stored(received', rest)
    ensures ReadMessage(stream, received) == ReadMessage(rest, received')
  {
  }

  lemma FirstFrame(a: Attachment, received: Received, others: seq<Byte>, after: seq<Byte>)
    requires Fits(a) && |received| < MAX_UNCLAIMED_ATTACHMENTS && a.id !in received
    ensures ReadMessage(ContentFrame(a) + others + after, received)
         == ReadMessage(others + after, received[a.id := a.content])
  {
    ContentReadsBack(a, received, others + after);
    assert ContentFrame(a) + others + after == ContentFrame(a) + (others + after);
    StoredFrame(ContentFrame(a) + others + after, received, received[a.id := a.content], others + after);
  }

  lemma NextIsNew(done: seq<Attachment>, a: Attachment, tail: seq<Attachment>)
    requires DistinctIds(done + ([a] + tail)) && |done + ([a] + tail)| <= MAX_UNCLAIMED_ATTACHMENTS
    ensures a.id !in Attachments(done) && |Attachments(done)| < MAX_UNCLAIMED_ATTACHMENTS
  {
    var all := done + ([a] + tail);
    assert forall i :: 0 <= i < |done| ==> all[i] == done[i];
    assert all[|done|] == a;
    AttachmentsAre(done);
  }

  /** A message is received as sent, and the next starts right behind it. */
  lemma MessageReadsBack(m: Encoded, rest: seq<Byte>)
    requires Sendable(m)
    ensures ReadMessage(MessageBytes(m) + rest, map[]) == MessageRead(Ok(Some(Raw(m))), rest, map[])
  {
    assert [] + m.pending == m.pending;
    Associative(ContentFrames(m.pending), JsonFrame(m.json), rest);
    FramesAreStored([], m.pending, JsonFrame(m.json) + rest);
    JsonIsLast(m.json, Attachments(m.pending), rest);
  }

  // ----- Messages that are sent but not received -----

  lemma {:induction false} ContentFramesConcat(a: seq<Attachment>, b: seq<Attachment>)
    ensures ContentFrames(a + b) == ContentFrames(a) + ContentFrames(b)
  {
    if a == [] {
      assert a + b == b;
    } else {
      assert (a + b)[1..] == a[1..] + b;
      ContentFramesConcat(a[1..], b);
    }
  }

  lemma ContentRefused(a: Attachment, received: Received, rest: seq<Byte>)
    requires Fits(a) && |received| == MAX_UNCLAIMED_ATTACHMENTS
    ensures ReadMessage(ContentFrame(a) + rest, received).result == Err(InvalidFrame(TooManyUnclaimed))
  {
    TypesArePlain();
    ReadPrinted(ContentHeader(a), a.content, rest);
  }

  lemma JsonRefused(json: seq<Byte>, received: Received, rest: seq<Byte>)
    requires MAX_JSON_BYTES < |json| <= U64_MAX
    ensures ReadMessage(JsonFrame(json) + rest, received).result == Err(InvalidFrame(JsonTooLarge))
  {
    TypesArePlain();
    assert |JSON_TYPE| != |OCTET_TYPE|;
    ReadPrinted(JsonHeader(json), json, rest);
  }

  lemma FramesSplit(stored: seq<Attachment>, a: Attachment, tail: seq<Attachment>, last: seq<Byte>)
    ensures ContentFrames(stored + ([a] + tail)) + last
         == ContentFrames(stored) + (ContentFrame(a) + (ContentFrames(tail) + last))
  {
    ContentFramesConcat(stored, [a] + tail);
    assert ([a] + tail)[1..] == tail;
    Associative(ContentFrames(stored), ContentFrames([a] + tail), last);
    Associative(ContentFrame(a), ContentFrames(tail), last);
  }

  lemma NextRefused(stored: seq<Attachment>, a: Attachment, tail: seq<Attachment>, last: seq<Byte>)
    requires Acceptable(stored) && |stored| == MAX_UNCLAIMED_ATTACHMENTS && Fits(a)
    ensures ReadMessage(ContentFrames(stored + ([a] + tail)) + last, map[]).result
         == Err(InvalidFrame(TooManyUnclaimed))
  {
    var after := ContentFrame(a) + (ContentFrames(tail) + last);
    assert [] + stored == stored;
    FramesSplit(stored, a, tail, last);
    FramesAreStored([], stored, after);
    AttachmentsAre(stored);
    ContentRefused(a, Attachments(stored), ContentFrames(tail) + last);
  }

  lemma TooManyRefused(m: Encoded, rest: seq<Byte>)
    requires Acceptable(m.pending) && |m.pending| > MAX_UNCLAIMED_ATTACHMENTS
    ensures ReadMessage(MessageBytes(m) + rest, map[]).result == Err(InvalidFrame(TooManyUnclaimed))
  {
    var n := MAX_UNCLAIMED_ATTACHMENTS;
    var stored, a, tail := m.pending[..n], m.pending[n], m.pending[n + 1..];
    assert m.pending == stored + ([a] + tail);
    Associative(ContentFrames(m.pending), JsonFrame(m.json), rest);
    NextRefused(stored, a, tail, JsonFrame(m.json) + rest);
  }

  lemma TooLargeRefused(m: Encoded, rest: seq<Byte>)
    requires Acceptable(m.pending) && |m.pending| <= MAX_UNCLAIMED_ATTACHMENTS
    requires MAX_JSON_BYTES < |m.json| <= U64_MAX
    ensures ReadMessage(MessageBytes(m) + rest, map[]).result == Err(InvalidFrame(JsonTooLarge))
  {
    assert [] + m.pending == m.pending;
    Associative(ContentFrames(m.pending), JsonFrame(m.json), rest);
    FramesAreStored([], m.pending, JsonFrame(m.json) + rest);
    JsonRefused(m.json, Attachments(m.pending), rest);
  }

  /** The sender looks at the size of each attachment only. What it sends is received as
      sent exactly if there are no more attachments than the receiver stores and the
      JSON is within its cap; the first of the two that fails is the error. */
  lemma SentIsReceivedIff(m: Encoded, rest: seq<Byte>)
    requires Acceptable(m.pending) && |m.json| <= U64_MAX
    ensures var read := ReadMessage(MessageBytes(m) + rest, map[]);
      && (read == MessageRead(Ok(Some(Raw(m))), rest, map[]) <==>
          |m.pending| <= MAX_UNCLAIMED_ATTACHMENTS && |m.json| <= MAX_JSON_BYTES)
      && (read.result == Err(InvalidFrame(TooManyUnclaimed)) <==> |m.pending| > MAX_UNCLAIMED_ATTACHMENTS)
      && (read.result == Err(InvalidFrame(JsonTooLarge)) <==>
          |m.pending| <= MAX_UNCLAIMED_ATTACHMENTS && |m.json| > MAX_JSON_BYTES)
  {
    if |m.pending| > MAX_UNCLAIMED_ATTACHMENTS {
      TooManyRefused(m, rest);
    } else if |m.json| > MAX_JSON_BYTES {
      TooLargeRefused(m, rest);
    } else {
      MessageReadsBack(m, rest);
    }
  }

  // ----- Whole conversations -----

  function AllBytes(messages: seq<Encoded>): seq<Byte> {
    if messages == [] then [] else MessageBytes(messages[0]) + AllBytes(messages[1..])
  }

  function RawAll(messages: seq<Encoded>): (r: seq<RawMessage>)
    ensures |r| == |messages|
  {
    seq(|messages|, i requires 0 <= i < |messages| => Raw(messages[i]))
  }

  /** Receiving until the stream ends: the messages, and how it ended. */
  function ReceiveAll(stream: seq<Byte>, received: Received): (seq<RawMessage>, Option<ProtocolError>)
    decreases |stream|
  {
    var read := ReadMessage(stream, received);
    match read.result
    case Err(e) => ([], Some(e))
    case Ok(None) => ([], None)
    case Ok(Some(message)) =>
      if |read.rest| >= |stream| then ([], None)
      else
        var (others, end) := ReceiveAll(read.rest, read.received);
        ([message] + others, end)
  }

  lemma ReceiveNext(stream: seq<Byte>, message: RawMessage, rest: seq<Byte>)
    requires ReadMessage(stream, map[]) == MessageRead(Ok(Some(message)), rest, map[]) && |rest| < |stream|
    ensures ReceiveAll(stream, map[]) == ([message] + ReceiveAll(rest, map[]).0, ReceiveAll(rest, map[]).1)
  {
  }

  /** Any list of messages, sent one after the other, is received as the same list,
      and then the stream ends cleanly. */
  lemma {:induction false} ConversationReadsBack(messages: seq<Encoded>)
    requires forall i :: 0 <= i < |messages| ==> Sendable(messages[i])
    ensures ReceiveAll(AllBytes(messages), map[]) == (RawAll(messages), None)
    decreases |messages|
  {
    if messages == [] {
      assert ScanHeader([], 0) == CleanEnd;
    } else {
      MessageReadsBack(messages[0], AllBytes(messages[1..]));
      MessageIsNotEmpty(messages[0]);
      ReceiveNext(AllBytes(messages), Raw(messages[0]), AllBytes(messages[1..]));
      ConversationReadsBack(messages[1..]);
      assert RawAll(messages) == [Raw(messages[0])] + RawAll(messages[1..]);
    }
  }

  lemma MessageIsNotEmpty(m: Encoded)
    ensures |MessageBytes(m)| > 0
  {
    HeaderBytesAre(JsonHeader(m.json));
  }

  /** Which attachments a received message has: those sent, by their ids. */
  lemma ReceivedAttachments(m: Encoded, id: nat)
    requires Sendable(m)
    ensures id in Raw(m).attachments <==> exists i :: 0 <= i < |m.pending| && m.pending[i].id == id
    ensures forall i :: 0 <= i < |m.pending| ==>
      m.pending[i].id in Raw(m).attachments && Raw(m).attachments[m.pending[i].id] == m.pending[i].content
  {
    AttachmentsAre(m.pending);
  }
}
