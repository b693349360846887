/** What a reader finds in the frame of a message, stated on the message's own fields. */
module FrameReading {
  import opened Basics
  import opened Varint
  import opened Ordering
  import opened WireFrame
  import opened Messages
  import Base64
  import Utf

  // -- the wire order -----------------------------------------------------------------

  function Concat(parts: seq<seq<byte>>): seq<byte>
  {
    if parts == [] then [] else parts[0] + Concat(parts[1..])
  }

  function Oks(parts: seq<seq<byte>>): (r: seq<Encoded>)
    ensures |r| == |parts|
  {
    seq(|parts|, i requires 0 <= i < |parts| => Ok(parts[i]))
  }

  lemma {:induction false} JoinedOks(parts: seq<seq<byte>>)
    ensures Joined(Oks(parts)) == Ok(Concat(parts))
  {
    if parts != [] {
      JoinedOks(parts[1..]);
      assert Oks(parts)[1..] == Oks(parts[1..]);
    }
  }

  function Str(s: string): seq<byte>
  {
    EncBytes(Utf.Utf8(s))
  }

  function OptStr(s: Option<string>): seq<byte>
  {
    match s
    case None => [0]
    case Some(text) => [1] + Str(text)
  }

  function OptRaw(b: Option<seq<byte>>): seq<byte>
  {
    match b
    case None => [0]
    case Some(raw) => [1] + EncBytes(raw)
  }

  function OptId(b: Option<seq<byte>>): seq<byte>
  {
    match b
    case None => [0]
    case Some(raw) => [1] + raw
  }

  /** The first half of the fields, as they lie on the wire. */
  function FrontParts(m: Message): seq<seq<byte>>
    requires Encodable(m)
  {
    [m.id, Str(m.sender), Str(m.recipient), Str(m.appId),
     [PriorityCode(m.priority)], [m.ttl], [m.hopCount], VarintBytes(ZigZag(m.timestampMs).value),
     VarintBytes(m.lamportClock), [ContentTypeCode(m.contentType)]]
  }

  function BackParts(m: Message): seq<seq<byte>>
  {
    [Str(ContentHead(m.content)), OptRaw(m.binaryContent), OptStr(m.mediaMetadata),
     EncSeq(Utf8Items(Sorted(m.metadata, ByKey)), EncPair), [if m.requiresAck then 1 else 0],
     OptId(m.replyToMsg), OptStr(m.forwardedFrom),
     EncSeq(ContentExt(m.content) + ReplyExt(m.replyContext), EncExt)]
  }

  lemma FrontIsOks(m: Message)
    requires Encodable(m)
    ensures RoutingFields(m) + CounterFields(m) == Oks(FrontParts(m))
  {
  }

  lemma OptionsAre(raw: Option<seq<byte>>, text: Option<string>, id: Option<seq<byte>>)
    ensures EncodeOpt(raw, EncodeRaw) == Ok(OptRaw(raw)) && EncodeOpt(text, EncodeStr) == Ok(OptStr(text))
    ensures id.None? || |id.value| == 16 ==> EncodeOpt(id, EncodeUuid) == Ok(OptId(id))
  {
  }

  lemma PayloadIsOks(m: Message)
    ensures PayloadFields(m) == Oks(BackParts(m))[..3]
  {
    OptionsAre(m.binaryContent, m.mediaMetadata, None);
  }

  lemma TrailerIsOks(m: Message)
    requires Encodable(m)
    ensures TrailerFields(m) == Oks(BackParts(m))[3..]
  {
    OptionsAre(None, m.forwardedFrom, m.replyToMsg);
  }

  lemma BackIsOks(m: Message)
    requires Encodable(m)
    ensures PayloadFields(m) + TrailerFields(m) == Oks(BackParts(m))
  {
    PayloadIsOks(m);
    TrailerIsOks(m);
  }

  lemma FourGroups(a: seq<Encoded>, b: seq<Encoded>, c: seq<Encoded>, d: seq<Encoded>)
    ensures a + (b + (c + d)) == (a + b) + (c + d)
  {
  }

  /** The bytes are the magic byte and then every field, sender before recipient, in the order of the format. */
  lemma WireOrder(m: Message)
    requires Encodable(m)
    ensures EncodeFrame(m) == Ok([0xF5] + (Concat(FrontParts(m)) + Concat(BackParts(m))))
  {
    FourGroups(RoutingFields(m), CounterFields(m), PayloadFields(m), TrailerFields(m));
    FrontIsOks(m);
    BackIsOks(m);
    JoinedAppend(Oks(FrontParts(m)), Oks(BackParts(m)));
    JoinedOks(FrontParts(m));
    JoinedOks(BackParts(m));
  }

  /** The numbers of the names run in the order of their declaration. */
  lemma CodesInOrder()
    ensures 0 == PriorityCode(Low) < PriorityCode(Medium) < PriorityCode(High) < PriorityCode(Critical) == 3
    ensures 0 == ContentTypeCode(Text) < ContentTypeCode(Image) < ContentTypeCode(Video) < ContentTypeCode(Audio)
    ensures ContentTypeCode(Audio) < ContentTypeCode(VoiceNote) < ContentTypeCode(VideoNote)
    ensures ContentTypeCode(VideoNote) < ContentTypeCode(File) < ContentTypeCode(FileChunk)
    ensures ContentTypeCode(FileChunk) < ContentTypeCode(Poll) == 8
  {
  }

  // -- what a reader finds --------------------------------------------------------------

  predicate Names(r: Routing, m: Message)
  {
    r.id == m.id && r.sender == Utf.Utf8(m.sender) && r.recipient == Utf.Utf8(m.recipient) &&
    r.appId == Utf.Utf8(m.appId)
  }

  predicate Counts(c: Counters, m: Message)
  {
    && c.priority == PriorityCode(m.priority) && c.contentType == ContentTypeCode(m.contentType)
    && c.ttl == m.ttl && c.hopCount == m.hopCount
    && c.timestampMs == m.timestampMs && c.lamportClock == m.lamportClock
  }

  predicate OptText(field: Option<seq<byte>>, text: Option<string>)
  {
    (field.Some? <==> text.Some?) && (text.Some? ==> field.value == Utf.Utf8(text.value))
  }

  /** The text of a tail extension, which precedes any other. */
  function TailText(ext: seq<(nat, seq<byte>)>): string
  {
    if ext != [] && ext[0].0 == 1 then Base64.Encode(ext[0].1) else ""
  }

  /** The reply context of the last extension. */
  function ReplyText(ext: seq<(nat, seq<byte>)>): Option<string>
  {
    if ext != [] && ext[|ext| - 1].0 == 2 then Utf.Utf8Decode(ext[|ext| - 1].1) else None
  }

  /** Content put back together from its field and the tail extension. */
  function RebuiltContent(f: Frame): Option<string>
  {
    match Utf.Utf8Decode(f.payload.content)
    case Some(head) => Some(head + TailText(f.trailer.ext))
    case None => None
  }

  /** The metadata pairs are the message's, each once, in the byte order of their keys. */
  ghost predicate Lists(pairs: seq<(seq<byte>, seq<byte>)>, items: Items)
  {
    && |pairs| == |items|
    && (forall k, v :: (k, v) in items ==> (Utf.Utf8(k), Utf.Utf8(v)) in pairs)
    && (forall i, j :: 0 <= i < j < |pairs| ==> LexLe(pairs[i].0, pairs[j].0))
  }

  predicate CarriesText(f: Frame, m: Message)
  {
    RebuiltContent(f) == Some(m.content) && ReplyText(f.trailer.ext) == m.replyContext
  }

  predicate CarriesOptions(f: Frame, m: Message)
  {
    && f.payload.binaryContent == m.binaryContent && OptText(f.payload.mediaMetadata, m.mediaMetadata)
    && f.trailer.requiresAck == m.requiresAck && OptText(f.trailer.forwardedFrom, m.forwardedFrom)
    && f.trailer.replyToMsg == m.replyToMsg
  }

  ghost predicate Carries(f: Frame, m: Message)
  {
    && Names(f.routing, m) && Counts(f.counters, m) && CarriesText(f, m) && CarriesOptions(f, m)
    && Lists(f.trailer.metadata, m.metadata)
  }

  lemma MetadataListed(items: Items)
    ensures Lists(Utf8Items(Sorted(items, ByKey)), items)
  {
    var sorted := Sorted(items, ByKey);
    SortedIsSort(items, ByKey);
    var pairs := Utf8Items(sorted);
    forall k, v | (k, v) in items ensures (Utf.Utf8(k), Utf.Utf8(v)) in pairs {
      var i :| 0 <= i < |sorted| && sorted[i] == (k, v);
      assert pairs[i] == (Utf.Utf8(k), Utf.Utf8(v));
    }
    forall i, j | 0 <= i < j < |pairs| ensures LexLe(pairs[i].0, pairs[j].0) {
      assert LexLe(ByKey(sorted[i]), ByKey(sorted[j]));
    }
  }

  lemma ContentRebuilt(content: string, reply: Option<string>)
    ensures ContentHead(content) + TailText(ContentExt(content) + ReplyExt(reply)) == content
    ensures ReplyText(ContentExt(content) + ReplyExt(reply)) == reply
  {
    var ext := ContentExt(content) + ReplyExt(reply);
    if reply.Some? {
      assert ext[|ext| - 1] == ReplyExt(reply)[0];
      Utf.Utf8RoundTrip(reply.value);
    }
    if Base64.SplitTail(content).Some? {
      assert ext[0] == ContentExt(content)[0];
      Base64.SplitRebuilds(content);
    } else {
      assert content + "" == content;
    }
  }

  lemma TextCarried(m: Message)
    requires Encodable(m)
    ensures CarriesText(FrameOf(m), m)
  {
    ContentRebuilt(m.content, m.replyContext);
    Utf.Utf8RoundTrip(ContentHead(m.content));
    var ext := FrameOf(m).trailer.ext;
    assert ext == ContentExt(m.content) + ReplyExt(m.replyContext);
    assert FrameOf(m).payload.content == Utf.Utf8(ContentHead(m.content));
  }

  lemma FrameCarries(m: Message)
    requires Encodable(m)
    ensures Carries(FrameOf(m), m)
  {
    MetadataListed(m.metadata);
    TextCarried(m);
  }

  /** From the encoding of a message and any suffix, the reader finds every field of the message, and the suffix. */
  lemma ReadsBack(m: Message, s: seq<byte>)
    requires Encodable(m)
    ensures EncodeFrame(m).Ok?
    ensures var back := ReadFrame(EncodeFrame(m).value + s);
            back.Some? && back.value.1 == s && Carries(back.value.0, m)
  {
    EncodeFrameRaises(m);
    FrameInverts(FrameOf(m), s);
    FrameCarries(m);
  }
}
