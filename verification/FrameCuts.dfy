/** Streams that break off: what the receiver makes of a message cut short. */
module FrameCuts {
  import opened FrameHeaders
  import opened Frames
  import opened FrameLaws
  import opened Octets
  import opened Sequences
  import opened Wrappers

  // ----- One frame cut short -----

  lemma {:induction false} ScanBreaksOff(stream: seq<Byte>, n: nat)
    requires n <= |stream| <= MAX_HEADER_BYTES && stream != []
    requires forall k :: n < k <= |stream| ==> !EndsBlank(stream, k)
    ensures ScanHeader(stream, n) == BrokenOff
    decreases |stream| - n
  {
    if n < |stream| {
      ScanBreaksOff(stream, n + 1);
    }
  }

  lemma HeaderCut(h: Header, p: nat)
    requires Printable(h) && 0 < p < |PrintHeader(h)|
    ensures ScanHeader(PrintHeader(h)[..p], 0) == BrokenOff
  {
    var text := PrintHeader(h);
    HeaderFits(h);
    HeaderLinesArePlain(h);
    forall k | 0 < k <= p ensures !EndsBlank(text[..p], k) {
      if k >= 4 {
        NoBlankBefore(HeaderLines(h), k - 4);
        assert text[..p][k - 4..k] == text[k - 4..k];
      }
    }
    ScanBreaksOff(text[..p], 0);
  }

  lemma CutInHeader(h: Header, body: seq<Byte>, p: nat, received: Received)
    requires Printable(h) && 0 < p < |PrintHeader(h)|
    ensures ReadMessage((PrintHeader(h) + body)[..p], received).result == Err(UnexpectedEof)
  {
    HeaderCut(h, p);
    assert (PrintHeader(h) + body)[..p] == PrintHeader(h)[..p];
  }

  lemma CutAtBody(h: Header, body: seq<Byte>, p: nat)
    requires Printable(h) && |PrintHeader(h)| <= p < |PrintHeader(h) + body|
    ensures var stream, n := (PrintHeader(h) + body)[..p], |PrintHeader(h)|;
      && ScanHeader(stream, 0) == HeaderBytes(n)
      && ParseHeader(stream[..n]) == Ok(h)
      && |stream[n..]| < |body|
  {
    var part := body[..p - |PrintHeader(h)|];
    ReadPrinted(h, part, []);
    assert PrintHeader(h) + part + [] == (PrintHeader(h) + body)[..p];
  }

  lemma CutInContent(a: Attachment, p: nat, received: Received)
    requires Fits(a) && |received| < MAX_UNCLAIMED_ATTACHMENTS && a.id !in received
    requires |PrintHeader(ContentHeader(a))| <= p < |ContentFrame(a)|
    ensures ReadMessage(ContentFrame(a)[..p], received).result == Err(InvalidFrame(AttachmentEnded))
  {
    TypesArePlain();
    CutAtBody(ContentHeader(a), a.content, p);
  }

  lemma CutInJson(json: seq<Byte>, p: nat, received: Received)
    requires |json| <= MAX_JSON_BYTES && |PrintHeader(JsonHeader(json))| <= p < |JsonFrame(json)|
    ensures ReadMessage(JsonFrame(json)[..p], received).result == Err(UnexpectedEof)
  {
    TypesArePlain();
    assert |JSON_TYPE| != |OCTET_TYPE|;
    CutAtBody(JsonHeader(json), json, p);
  }

  // ----- Which frame a cut falls into -----

  /** Where frame `j` starts: behind the attachments before it. */
  function StartOf(m: Encoded, j: nat): nat
    requires j <= |m.pending|
  {
    |ContentFrames(m.pending[..j])|
  }

  /** Attachments first, the JSON last. */
  function HeaderOf(m: Encoded, j: nat): Header
    requires j <= |m.pending|
  {
    if j < |m.pending| then ContentHeader(m.pending[j]) else JsonHeader(m.json)
  }

  function BodyOf(m: Encoded, j: nat): seq<Byte>
    requires j <= |m.pending|
  {
    if j < |m.pending| then m.pending[j].content else m.json
  }

  function FrameOf(m: Encoded, j: nat): seq<Byte>
    requires j <= |m.pending|
  {
    PrintHeader(HeaderOf(m, j)) + BodyOf(m, j)
  }

  lemma FramesInFront(m: Encoded, j: nat) returns (behind: seq<Byte>)
    requires j <= |m.pending|
    ensures MessageBytes(m) == ContentFrames(m.pending[..j]) + (FrameOf(m, j) + behind)
    ensures j == |m.pending| ==> behind == []
    ensures j < |m.pending| ==> StartOf(m, j + 1) == StartOf(m, j) + |FrameOf(m, j)|
    ensures |FrameOf(m, j)| > 0
  {
    HeaderBytesAre(HeaderOf(m, j));
    if j == |m.pending| {
      behind := [];
      assert m.pending[..j] == m.pending;
      assert FrameOf(m, j) + behind == JsonFrame(m.json);
    } else {
      var front, a, tail := m.pending[..j], m.pending[j], m.pending[j + 1..];
      behind := ContentFrames(tail) + JsonFrame(m.json);
      assert m.pending == front + ([a] + tail);
      FramesSplit(front, a, tail, JsonFrame(m.json));
      OneMoreFrame(m.pending, j);
    }
  }

  lemma {:induction false} FrameAt(m: Encoded, k: nat, from: nat) returns (j: nat)
    requires from <= |m.pending| && StartOf(m, from) <= k < |MessageBytes(m)|
    ensures from <= j <= |m.pending| && StartOf(m, j) <= k < StartOf(m, j) + |FrameOf(m, j)|
    decreases |m.pending| - from
  {
    var behind := FramesInFront(m, from);
    if k < StartOf(m, from) + |FrameOf(m, from)| {
      j := from;
    } else {
      j := FrameAt(m, k, from + 1);
    }
  }

  lemma {:induction false} StartsAscend(m: Encoded, i: nat, j: nat)
    requires i < j <= |m.pending|
    ensures StartOf(m, i) + |FrameOf(m, i)| <= StartOf(m, j)
  {
    var behind := FramesInFront(m, j - 1);
    if i < j - 1 { StartsAscend(m, i, j - 1); }
  }

  // ----- A message cut short -----

  /** What the receiver says of a message cut behind its first `k` bytes, in frame `j`:
      a clean end if nothing of the frame has come, a broken attachment if its header is
      complete, and an unexpected end otherwise. */
  function CutResult(m: Encoded, j: nat, k: nat): Result<Option<RawMessage>, ProtocolError>
    requires j <= |m.pending|
  {
    if k == StartOf(m, j) then Ok(None)
    else if j < |m.pending| && k >= StartOf(m, j) + |PrintHeader(HeaderOf(m, j))|
    then Err(InvalidFrame(AttachmentEnded))
    else Err(UnexpectedEof)
  }

  lemma NextFits(m: Encoded, j: nat)
    requires Sendable(m) && j <= |m.pending|
    ensures Acceptable(m.pending[..j]) && |m.pending[..j]| <= MAX_UNCLAIMED_ATTACHMENTS
    ensures j < |m.pending| ==>
      && Fits(m.pending[j])
      && m.pending[j].id !in Attachments(m.pending[..j])
      && |Attachments(m.pending[..j])| < MAX_UNCLAIMED_ATTACHMENTS
    ensures Printable(HeaderOf(m, j))
  {
    TypesArePlain();
    if j < |m.pending| {
      assert m.pending == m.pending[..j] + ([m.pending[j]] + m.pending[j + 1..]);
      NextIsNew(m.pending[..j], m.pending[j], m.pending[j + 1..]);
    }
  }

  predicate InFrame(m: Encoded, j: nat, k: nat) {
    j <= |m.pending| && StartOf(m, j) <= k < StartOf(m, j) + |FrameOf(m, j)|
  }

  /** What has come of frame `j`. */
  function PartOf(m: Encoded, j: nat, k: nat): seq<Byte>
    requires InFrame(m, j, k)
  {
    FrameOf(m, j)[..k - StartOf(m, j)]
  }

  lemma NothingYet(received: Received)
    ensures ReadMessage([], received).result == Ok(None)
  {
    assert ScanHeader([], 0) == CleanEnd;
  }

  lemma CutInFront(m: Encoded, j: nat, k: nat)
    requires Sendable(m) && InFrame(m, j, k) && k == StartOf(m, j)
    ensures ReadMessage(PartOf(m, j, k), Attachments(m.pending[..j])).result == Ok(None)
  {
    NothingYet(Attachments(m.pending[..j]));
    assert PartOf(m, j, k) == [];
  }

  lemma CutInHead(m: Encoded, j: nat, k: nat)
    requires Sendable(m) && InFrame(m, j, k)
    requires StartOf(m, j) < k < StartOf(m, j) + |PrintHeader(HeaderOf(m, j))|
    ensures ReadMessage(PartOf(m, j, k), Attachments(m.pending[..j])).result == Err(UnexpectedEof)
  {
    NextFits(m, j);
    CutInHeader(HeaderOf(m, j), BodyOf(m, j), k - StartOf(m, j), Attachments(m.pending[..j]));
  }

  lemma CutInAttachment(m: Encoded, j: nat, k: nat)
    requires Sendable(m) && j < |m.pending| && InFrame(m, j, k)
    requires StartOf(m, j) + |PrintHeader(HeaderOf(m, j))| <= k
    ensures ReadMessage(PartOf(m, j, k), Attachments(m.pending[..j])).result == Err(InvalidFrame(AttachmentEnded))
  {
    var p := k - StartOf(m, j);
    NextFits(m, j);
    assert PartOf(m, j, k) == ContentFrame(m.pending[j])[..p];
    CutInContent(m.pending[j], p, Attachments(m.pending[..j]));
  }

  lemma CutInLast(m: Encoded, k: nat)
    requires Sendable(m) && InFrame(m, |m.pending|, k)
    requires StartOf(m, |m.pending|) + |PrintHeader(JsonHeader(m.json))| <= k
    ensures ReadMessage(PartOf(m, |m.pending|, k), Attachments(m.pending[..|m.pending|])).result == Err(UnexpectedEof)
  {
    var p := k - StartOf(m, |m.pending|);
    assert PartOf(m, |m.pending|, k) == JsonFrame(m.json)[..p];
    CutInJson(m.json, p, Attachments(m.pending[..|m.pending|]));
  }

  lemma FrameCut(m: Encoded, j: nat, k: nat)
    requires Sendable(m) && InFrame(m, j, k)
    ensures ReadMessage(PartOf(m, j, k), Attachments(m.pending[..j])).result == CutResult(m, j, k)
  {
    if k == StartOf(m, j) {
      CutInFront(m, j, k);
    } else if k < StartOf(m, j) + |PrintHeader(HeaderOf(m, j))| {
      CutInHead(m, j, k);
    } else if j < |m.pending| {
      HeaderBytesAre(HeaderOf(m, j));
      CutInAttachment(m, j, k);
    } else {
      HeaderBytesAre(HeaderOf(m, j));
      CutInLast(m, k);
    }
  }

  lemma CutSplits(m: Encoded, j: nat, k: nat)
    requires InFrame(m, j, k)
    ensures k <= |MessageBytes(m)|
    ensures MessageBytes(m)[..k] == ContentFrames(m.pending[..j]) + PartOf(m, j, k)
  {
    var behind := FramesInFront(m, j);
  }

  lemma CutIsPart(m: Encoded, j: nat, k: nat)
    requires Sendable(m) && InFrame(m, j, k) && k <= |MessageBytes(m)|
    ensures ReadMessage(MessageBytes(m)[..k], map[]) == ReadMessage(PartOf(m, j, k), Attachments(m.pending[..j]))
  {
    var front := m.pending[..j];
    CutSplits(m, j, k);
    NextFits(m, j);
    assert [] + front == front;
    FramesAreStored([], front, PartOf(m, j, k));
  }

  /** Every proper prefix of a message lies in one of its frames, and is answered by
      where in it the cut is. */
  lemma CutShort(m: Encoded, k: nat) returns (j: nat)
    requires Sendable(m) && k < |MessageBytes(m)|
    ensures InFrame(m, j, k) && ReadMessage(MessageBytes(m)[..k], map[]).result == CutResult(m, j, k)
  {
    j := FrameAt(m, k, 0);
    CutIsPart(m, j, k);
    FrameCut(m, j, k);
  }

  predicate BetweenFrames(m: Encoded, j: nat, k: nat)
    requires j <= |m.pending|
  {
    k == StartOf(m, j)
  }

  predicate InAttachment(m: Encoded, j: nat, k: nat)
    requires j < |m.pending|
  {
    StartOf(m, j) + |PrintHeader(HeaderOf(m, j))| <= k < StartOf(m, j) + |FrameOf(m, j)|
  }

  lemma OnlyOneFrame(m: Encoded, i: nat, j: nat, k: nat)
    requires i <= |m.pending| && j <= |m.pending| && i != j
    requires StartOf(m, j) <= k < StartOf(m, j) + |FrameOf(m, j)|
    ensures !BetweenFrames(m, i, k)
    ensures i < |m.pending| ==> !InAttachment(m, i, k)
  {
    var behind := FramesInFront(m, i);
    if i < j { StartsAscend(m, i, j); } else { StartsAscend(m, j, i); }
  }

  /** No proper prefix of a message is ever delivered; the stream ends cleanly exactly if
      the cut is in front of a frame; an attachment is reported broken exactly if the cut
      is in its bytes; otherwise the end is unexpected. */
  lemma NothingCutIsDelivered(m: Encoded, k: nat)
    requires Sendable(m) && k < |MessageBytes(m)|
    ensures var result := ReadMessage(MessageBytes(m)[..k], map[]).result;
      && result in {Ok(None), Err(UnexpectedEof), Err(InvalidFrame(AttachmentEnded))}
      && (result == Ok(None) <==> exists j :: 0 <= j <= |m.pending| && BetweenFrames(m, j, k))
      && (result == Err(InvalidFrame(AttachmentEnded)) <==>
            exists j :: 0 <= j < |m.pending| && InAttachment(m, j, k))
  {
    var j := CutShort(m, k);
    forall i | 0 <= i <= |m.pending| && i != j
      ensures !BetweenFrames(m, i, k) && (i < |m.pending| ==> !InAttachment(m, i, k))
    {
      OnlyOneFrame(m, i, j, k);
    }
    assert BetweenFrames(m, j, k) <==> k == StartOf(m, j);
    assert j < |m.pending| ==>
      (InAttachment(m, j, k) <==> StartOf(m, j) + |PrintHeader(HeaderOf(m, j))| <= k);
  }

  // ----- A conversation cut short -----

  lemma CutAlone(m: Encoded, k: nat)
    requires Sendable(m) && k < |MessageBytes(m)|
    ensures var result := ReadMessage(MessageBytes(m)[..k], map[]).result;
      ReceiveAll(MessageBytes(m)[..k], map[]) == ([], if result.Err? then Some(result.error) else None)
  {
    var j := CutShort(m, k);
  }

  /** The messages that came whole are received as sent, and then the cut one is answered
      as if it had come alone. */
  lemma {:induction false} ConversationCut(messages: seq<Encoded>, m: Encoded, k: nat)
    requires forall i :: 0 <= i < |messages| ==> Sendable(messages[i])
    requires Sendable(m) && k < |MessageBytes(m)|
    ensures var result := ReadMessage(MessageBytes(m)[..k], map[]).result;
      ReceiveAll(AllBytes(messages) + MessageBytes(m)[..k], map[])
        == (RawAll(messages), if result.Err? then Some(result.error) else None)
    decreases |messages|
  {
    var cut := MessageBytes(m)[..k];
    if messages == [] {
      assert AllBytes(messages) + cut == cut;
      CutAlone(m, k);
    } else {
      var rest := AllBytes(messages[1..]) + cut;
      Associative(MessageBytes(messages[0]), AllBytes(messages[1..]), cut);
      MessageReadsBack(messages[0], rest);
      MessageIsNotEmpty(messages[0]);
      ReceiveNext(AllBytes(messages) + cut, Raw(messages[0]), rest);
      ConversationCut(messages[1..], m, k);
      assert RawAll(messages) == [Raw(messages[0])] + RawAll(messages[1..]);
    }
  }
}
