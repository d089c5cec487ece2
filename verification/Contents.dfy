/** Numbering a message's attachments when it is encoded, and claiming them when it
    is decoded. */
module Contents {
  import opened Frames
  import opened FrameLaws
  import opened Octets
  import opened Wrappers

  /** A value as the serializer visits it: text and single-use contents; a content
      that was taken before has none left. */
  datatype Piece = Text(text: seq<Byte>) | Content(content: Option<seq<Byte>>)

  /** The JSON as the deserializer visits it. */
  datatype Token = Literal(text: seq<Byte>) | Reference(id: nat)

  datatype ContentError = AlreadyConsumed | UnknownOrClaimed(id: nat) | Unclaimed(count: nat)

  type Encoding = Result<(seq<Token>, seq<Attachment>), ContentError>

  // ----- Encoding -----

  /** What is done so far, in front of what is still to come. */
  function Before(tokens: seq<Token>, pending: seq<Attachment>, rest: Encoding): Encoding {
    if rest.Err? then rest else Ok((tokens + rest.value.0, pending + rest.value.1))
  }

  /** The numbering, from the front: each content takes the next number. */
  function EncodeFrom(value: seq<Piece>, nextId: nat): Encoding {
    if value == [] then Ok(([], []))
    else
      match value[0]
      case Text(text) => Before([Literal(text)], [], EncodeFrom(value[1..], nextId))
      case Content(None) => Err(AlreadyConsumed)
      case Content(Some(content)) =>
        Before([Reference(nextId)], [Attachment(nextId, content)], EncodeFrom(value[1..], nextId + 1))
  }

  class EncodeContext {
    var nextId: nat
    var pending: seq<Attachment>

    constructor ()
      ensures nextId == 1 && pending == []
    {
      nextId, pending := 1, [];
    }

    method SerializeContent(content: Option<seq<Byte>>) returns (token: Result<Token, ContentError>)
      modifies this
      ensures content.None? ==> token == Err(AlreadyConsumed) && nextId == old(nextId) && pending == old(pending)
      ensures content.Some? ==>
        && token == Ok(Reference(old(nextId)))
        && nextId == old(nextId) + 1
        && pending == old(pending) + [Attachment(old(nextId), content.value)]
    {
      if content.None? {
        return Err(AlreadyConsumed);
      }
      var id := nextId;
      nextId := nextId + 1;
      pending := pending + [Attachment(id, content.value)];
      return Ok(Reference(id));
    }
  }

  lemma BeforeNothing(rest: Encoding)
    ensures Before([], [], rest) == rest
  {
    if rest.Ok? {
      assert [] + rest.value.0 == rest.value.0 && [] + rest.value.1 == rest.value.1;
    }
  }

  lemma BeforeEnd(tokens: seq<Token>, pending: seq<Attachment>)
    ensures Before(tokens, pending, Ok(([], []))) == Ok((tokens, pending))
  {
    assert tokens + [] == tokens && pending + [] == pending;
  }

  lemma BeforeBefore(tokens: seq<Token>, pending: seq<Attachment>, t: seq<Token>, p: seq<Attachment>, rest: Encoding)
    ensures Before(tokens + t, pending + p, rest) == Before(tokens, pending, Before(t, p, rest))
  {
    if rest.Ok? {
      assert tokens + t + rest.value.0 == tokens + (t + rest.value.0);
      assert pending + p + rest.value.1 == pending + (p + rest.value.1);
    }
  }

  method Encode(value: seq<Piece>) returns (r: Encoding)
    ensures r == EncodeFrom(value, 1)
  {
    var context := new EncodeContext();
    var tokens := [];
    BeforeNothing(EncodeFrom(value, 1));
    var i := 0;
    while i < |value|
      invariant i <= |value|
      invariant Before(tokens, context.pending, EncodeFrom(value[i..], context.nextId)) == EncodeFrom(value, 1)
    {
      assert value[i..][1..] == value[i + 1..];
      match value[i] {
        case Text(text) =>
          BeforeBefore(tokens, context.pending, [Literal(text)], [], EncodeFrom(value[i + 1..], context.nextId));
          assert context.pending + [] == context.pending;
          tokens := tokens + [Literal(text)];
        case Content(content) =>
          var token := context.SerializeContent(content);
          if token.Err? {
            return Err(token.error);
          }
          ghost var id := context.nextId - 1;
          BeforeBefore(tokens, context.pending[..|context.pending| - 1], [token.value], [Attachment(id, content.value)],
                       EncodeFrom(value[i + 1..], context.nextId));
          tokens := tokens + [token.value];
      }
      i := i + 1;
    }
    BeforeEnd(tokens, context.pending);
    return Ok((tokens, context.pending));
  }

  // ----- Decoding -----

  function Ahead(pieces: seq<Piece>, rest: Result<seq<Piece>, ContentError>): Result<seq<Piece>, ContentError> {
    if rest.Err? then rest else Ok(pieces + rest.value)
  }

  /** Claims from the front; at the end nothing may be left. */
  function DecodeFrom(tokens: seq<Token>, attachments: map<nat, seq<Byte>>): Result<seq<Piece>, ContentError> {
    if tokens == [] then (if attachments == map[] then Ok([]) else Err(Unclaimed(|attachments|)))
    else
      match tokens[0]
      case Literal(text) => Ahead([Text(text)], DecodeFrom(tokens[1..], attachments))
      case Reference(id) =>
        if id !in attachments then Err(UnknownOrClaimed(id))
        else Ahead([Content(Some(attachments[id]))], DecodeFrom(tokens[1..], attachments - {id}))
  }

  class DecodeContext {
    var attachments: map<nat, seq<Byte>>

    constructor (attachments: map<nat, seq<Byte>>)
      ensures this.attachments == attachments
    {
      this.attachments := attachments;
    }

    /** Takes an attachment out, so that no other reference gets it. */
    method Claim(id: nat) returns (content: Result<seq<Byte>, ContentError>)
      modifies this
      ensures attachments == old(attachments) - {id}
      ensures content == if id in old(attachments) then Ok(old(attachments)[id]) else Err(UnknownOrClaimed(id))
    {
      if id !in attachments {
        assert attachments - {id} == attachments;
        return Err(UnknownOrClaimed(id));
      }
      content := Ok(attachments[id]);
      attachments := attachments - {id};
    }
  }

  lemma AheadOfNothing(rest: Result<seq<Piece>, ContentError>)
    ensures Ahead([], rest) == rest
  {
    if rest.Ok? {
      assert [] + rest.value == rest.value;
    }
  }

  lemma AheadAhead(pieces: seq<Piece>, p: seq<Piece>, rest: Result<seq<Piece>, ContentError>)
    ensures Ahead(pieces + p, rest) == Ahead(pieces, Ahead(p, rest))
  {
    if rest.Ok? {
      assert pieces + p + rest.value == pieces + (p + rest.value);
    }
  }

  method Decode(tokens: seq<Token>, attachments: map<nat, seq<Byte>>) returns (r: Result<seq<Piece>, ContentError>)
    ensures r == DecodeFrom(tokens, attachments)
  {
    var context := new DecodeContext(attachments);
    var pieces := [];
    AheadOfNothing(DecodeFrom(tokens, attachments));
    var i := 0;
    while i < |tokens|
      invariant i <= |tokens|
      invariant Ahead(pieces, DecodeFrom(tokens[i..], context.attachments)) == DecodeFrom(tokens, attachments)
    {
      assert tokens[i..][1..] == tokens[i + 1..];
      match tokens[i] {
        case Literal(text) =>
          AheadAhead(pieces, [Text(text)], DecodeFrom(tokens[i + 1..], context.attachments));
          pieces := pieces + [Text(text)];
        case Reference(id) =>
          var content := context.Claim(id);
          if content.Err? {
            return Err(content.error);
          }
          AheadAhead(pieces, [Content(Some(content.value))], DecodeFrom(tokens[i + 1..], context.attachments));
          pieces := pieces + [Content(Some(content.value))];
      }
      i := i + 1;
    }
    if context.attachments != map[] {
      return Err(Unclaimed(|context.attachments|));
    }
    assert pieces + [] == pieces;
    return Ok(pieces);
  }

  // ----- Laws -----

  predicate Consumed(value: seq<Piece>) {
    exists i :: 0 <= i < |value| && value[i] == Content(None)
  }

  ghost predicate Numbered(pending: seq<Attachment>, first: nat) {
    forall i :: 0 <= i < |pending| ==> pending[i].id == first + i
  }

  /** Encoding fails exactly when a content was taken before, and numbers the others
      one after the other. */
  lemma {:induction false} EncodeNumbers(value: seq<Piece>, nextId: nat)
    ensures EncodeFrom(value, nextId).Ok? <==> !Consumed(value)
    ensures EncodeFrom(value, nextId).Ok? ==> Numbered(EncodeFrom(value, nextId).value.1, nextId)
    decreases |value|
  {
    if value != [] {
      EncodeNumbers(value[1..], if value[0].Content? then nextId + 1 else nextId);
      ConsumedSplits(value);
    }
  }

  lemma ConsumedSplits(value: seq<Piece>)
    requires value != []
    ensures Consumed(value) <==> value[0] == Content(None) || Consumed(value[1..])
  {
    assert forall i :: 0 <= i < |value| - 1 ==> value[1..][i] == value[i + 1];
    if Consumed(value) && value[0] != Content(None) {
      var i :| 0 <= i < |value| && value[i] == Content(None);
      assert value[1..][i - 1] == Content(None);
    }
  }

  /** How many contents come before piece `i`. */
  function ContentsBefore(value: seq<Piece>, i: nat): nat
    requires i <= |value|
    decreases i
  {
    if i == 0 then 0 else (if value[0].Content? then 1 else 0) + ContentsBefore(value[1..], i - 1)
  }

  /** Every piece is encoded in its place: a text as it is, a content as a reference to the
      attachment with its bytes. */
  lemma {:induction false} EncodeInPlace(value: seq<Piece>, nextId: nat, i: nat)
    requires EncodeFrom(value, nextId).Ok? && i < |value|
    ensures var (tokens, pending) := EncodeFrom(value, nextId).value;
      && |tokens| == |value|
      && match value[i]
         case Text(text) => tokens[i] == Literal(text)
         case Content(content) =>
           var n := ContentsBefore(value, i);
           && tokens[i] == Reference(nextId + n)
           && n < |pending| && content.Some? && pending[n] == Attachment(nextId + n, content.value)
    decreases |value|
  {
    var nextId' := if value[0].Content? then nextId + 1 else nextId;
    if i > 0 {
      EncodeInPlace(value[1..], nextId', i - 1);
    } else if |value| > 1 {
      EncodeInPlace(value[1..], nextId', 0);
    }
  }

  lemma FirstClaimed(a: Attachment, rest: seq<Attachment>)
    requires Numbered([a] + rest, a.id)
    ensures Numbered(rest, a.id + 1)
    ensures a.id in Attachments([a] + rest) && Attachments([a] + rest)[a.id] == a.content
    ensures Attachments([a] + rest) - {a.id} == Attachments(rest)
  {
    assert forall i :: 0 <= i < |rest| ==> ([a] + rest)[i + 1] == rest[i];
    FirstOverwritten(a, rest);
    NumberedAbove(a.id, rest);
    WithoutFirst(Attachments(rest), a.id, a.content);
  }

  lemma NumberedAbove(id: nat, rest: seq<Attachment>)
    requires Numbered(rest, id + 1)
    ensures id !in Attachments(rest)
  {
    AttachmentsAre(rest);
  }

  lemma WithoutFirst(table: map<nat, seq<Byte>>, id: nat, content: seq<Byte>)
    requires id !in table
    ensures (map[id := content] + table)[id] == content
    ensures (map[id := content] + table) - {id} == table
  {
  }

  lemma {:induction false} FirstOverwritten(a: Attachment, rest: seq<Attachment>)
    ensures Attachments([a] + rest) == map[a.id := a.content] + Attachments(rest)
    decreases |rest|
  {
    if rest == [] {
      assert [a] + rest == [a] && [a][..0] == [];
    } else {
      assert ([a] + rest)[..|rest|] == [a] + rest[..|rest| - 1];
      FirstOverwritten(a, rest[..|rest| - 1]);
    }
  }

  /** Decoding what was encoded gives the value back and claims every attachment. */
  lemma {:induction false} DecodeEncoded(value: seq<Piece>, nextId: nat)
    requires !Consumed(value)
    ensures EncodeFrom(value, nextId).Ok?
    ensures var (tokens, pending) := EncodeFrom(value, nextId).value;
      DecodeFrom(tokens, Attachments(pending)) == Ok(value)
    decreases |value|
  {
    EncodeNumbers(value, nextId);
    if value != [] {
      ConsumedSplits(value);
      assert value == [value[0]] + value[1..];
      match value[0]
      case Text(text) =>
        DecodeEncoded(value[1..], nextId);
        var (tokens, pending) := EncodeFrom(value[1..], nextId).value;
        assert ([Literal(text)] + tokens)[1..] == tokens && [] + pending == pending;
      case Content(content) =>
        DecodeEncoded(value[1..], nextId + 1);
        var (tokens, pending) := EncodeFrom(value[1..], nextId + 1).value;
        assert ([Reference(nextId)] + tokens)[1..] == tokens;
        FirstClaimed(Attachment(nextId, content.value), pending);
    }
  }

  /** A message of an unconsumed value, within the caps, is one that both sides
      accept, and decoding what is received gives the value back, for any JSON syntax
      that parses to what was encoded. */
  lemma EncodedIsReceived(value: seq<Piece>, json: seq<Byte>, parse: seq<Byte> -> seq<Token>, rest: seq<Byte>)
    requires !Consumed(value) && EncodeFrom(value, 1).Ok? && parse(json) == EncodeFrom(value, 1).value.0
    requires |json| <= MAX_JSON_BYTES && |EncodeFrom(value, 1).value.1| <= MAX_UNCLAIMED_ATTACHMENTS
    requires forall a :: a in EncodeFrom(value, 1).value.1 ==> |a.content| <= MAX_ATTACHMENT_BYTES
    ensures var read := ReadMessage(MessageBytes(Encoded(json, EncodeFrom(value, 1).value.1)) + rest, map[]);
      && read.result.Ok? && read.result.value.Some? && read.rest == rest
      && var message := read.result.value.value;
      DecodeFrom(parse(message.json), message.attachments) == Ok(value)
  {
    EncodeNumbers(value, 1);
    DecodeEncoded(value, 1);
    MessageReadsBack(Encoded(json, EncodeFrom(value, 1).value.1), rest);
  }

  function References(tokens: seq<Token>): seq<nat> {
    if tokens == [] then []
    else (if tokens[0].Reference? then [tokens[0].id] else []) + References(tokens[1..])
  }

  ghost predicate NoRepeats(ids: seq<nat>) {
    forall i, j :: 0 <= i < j < |ids| ==> ids[i] != ids[j]
  }

  ghost predicate ClaimsAll(ids: seq<nat>, keys: set<nat>) {
    NoRepeats(ids) && forall id :: id in ids <==> id in keys
  }

  lemma ClaimFirst(id: nat, ids: seq<nat>, keys: set<nat>)
    ensures ClaimsAll([id] + ids, keys) <==> id in keys && ClaimsAll(ids, keys - {id})
  {
    var all := [id] + ids;
    assert all[1..] == ids;
    assert forall i :: 0 <= i < |ids| ==> all[i + 1] == ids[i];
    if ClaimsAll(all, keys) {
      assert all[0] in keys;
      assert id !in ids;
      forall x ensures x in ids <==> x in keys - {id} {
        assert x in all <==> x == id || x in ids;
      }
    }
    if id in keys && ClaimsAll(ids, keys - {id}) {
      forall x ensures x in all <==> x in keys {
        assert x in all <==> x == id || x in ids;
      }
      forall i, j | 0 <= i < j < |all| ensures all[i] != all[j] {
        assert all[j] in ids;
      }
    }
  }

  /** Decoding succeeds exactly when every attachment is referred to, once, and
      nothing else is. */
  lemma {:induction false} DecodeIff(tokens: seq<Token>, attachments: map<nat, seq<Byte>>)
    ensures DecodeFrom(tokens, attachments).Ok? <==> ClaimsAll(References(tokens), attachments.Keys)
    decreases |tokens|
  {
    if tokens == [] {
      if attachments != map[] {
        var id :| id in attachments.Keys;
      }
    } else if tokens[0].Literal? {
      DecodeIff(tokens[1..], attachments);
      assert [] + References(tokens[1..]) == References(tokens[1..]);
    } else {
      var id := tokens[0].id;
      assert (attachments - {id}).Keys == attachments.Keys - {id};
      DecodeIff(tokens[1..], attachments - {id});
      ClaimFirst(id, References(tokens[1..]), attachments.Keys);
    }
  }
}
