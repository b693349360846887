/** From a message to its frame, and what two equal frames say about their messages. */
module Messages {
  import opened Basics
  import opened Varint
  import opened Ordering
  import opened WireFrame
  import Base64
  import Utf

  const EXT_TAG_B64_TAIL := 1
  const EXT_TAG_REPLY_CONTEXT := 2

  datatype Priority = Low | Medium | High | Critical

  datatype ContentType = Text | Image | Video | Audio | VoiceNote | VideoNote | File | FileChunk | Poll

  /** A Python dict of metadata, in insertion order. */
  type Items = d: seq<(string, string)> | forall i, j :: 0 <= i < j < |d| ==> d[i].0 != d[j].0

  datatype Message = Message(
    id: seq<byte>, sender: string, recipient: string, appId: string,
    priority: Priority, ttl: int, hopCount: int, timestampMs: int, lamportClock: int,
    contentType: ContentType, content: string,
    binaryContent: Option<seq<byte>>, mediaMetadata: Option<string>, metadata: Items,
    requiresAck: bool, replyToMsg: Option<seq<byte>>, forwardedFrom: Option<string>,
    replyContext: Option<string>)

  function PriorityCode(p: Priority): (r: byte)
    ensures r < 4
  {
    match p
    case Low => 0
    case Medium => 1
    case High => 2
    case Critical => 3
  }

  function ContentTypeCode(c: ContentType): (r: byte)
    ensures r < 9
  {
    match c
    case Text => 0
    case Image => 1
    case Video => 2
    case Audio => 3
    case VoiceNote => 4
    case VideoNote => 5
    case File => 6
    case FileChunk => 7
    case Poll => 8
  }

  function OptUtf8(s: Option<string>): Option<seq<byte>>
  {
    if s.None? then None else Some(Utf.Utf8(s.value))
  }

  const ByKey: ((string, string)) -> seq<int> := (kv: (string, string)) => Utf.Utf8(kv.0)

  function Utf8Items(items: seq<(string, string)>): (r: seq<(seq<byte>, seq<byte>)>)
    ensures |r| == |items|
  {
    seq(|items|, i requires 0 <= i < |items| => (Utf.Utf8(items[i].0), Utf.Utf8(items[i].1)))
  }

  /** The content that stays in the content field, and the extension entry for what was split off it. */
  function ContentHead(content: string): string
  {
    match Base64.SplitTail(content)
    case Some((head, _)) => head
    case None => content
  }

  function ContentExt(content: string): seq<(nat, seq<byte>)>
  {
    match Base64.SplitTail(content)
    case Some((_, raw)) => [(EXT_TAG_B64_TAIL, raw)]
    case None => []
  }

  function ReplyExt(context: Option<string>): seq<(nat, seq<byte>)>
  {
    if context.None? then [] else [(EXT_TAG_REPLY_CONTEXT, Utf.Utf8(context.value))]
  }

  // -- field by field -------------------------------------------------------------

  type Encoded = Result<seq<byte>>

  function EncodeUuid(raw: seq<byte>): Encoded
  {
    if |raw| != 16 then Raised else Ok(raw)
  }

  function EncodeU8(value: int): Encoded
  {
    if 0 <= value < 256 then Ok([value]) else Raised
  }

  function EncodeI64(value: int): Encoded
  {
    match ZigZag(value)
    case Ok(u) => Ok(VarintBytes(u))
    case Raised => Raised
  }

  function EncodeU64(value: int): Encoded
  {
    if 0 <= value < TWO_64 then Ok(VarintBytes(value)) else Raised
  }

  function EncodeRaw(value: seq<byte>): Encoded
  {
    Ok(EncBytes(value))
  }

  function EncodeStr(value: string): Encoded
  {
    Ok(EncBytes(Utf.Utf8(value)))
  }

  function EncodeOpt<T>(value: Option<T>, inner: T -> Encoded): Encoded
  {
    match value
    case None => Ok([0])
    case Some(v) =>
      match inner(v)
      case Ok(bytes) => Ok([1] + bytes)
      case Raised => Raised
  }

  function Both(a: Encoded, b: Encoded): Encoded
  {
    if a.Raised? || b.Raised? then Raised else Ok(a.value + b.value)
  }

  /** The fields one after the other, unless one of them raises. */
  function Joined(fields: seq<Encoded>): Encoded
  {
    if fields == [] then Ok([]) else Both(fields[0], Joined(fields[1..]))
  }

  function RoutingFields(m: Message): seq<Encoded>
  {
    [EncodeUuid(m.id), EncodeStr(m.sender), EncodeStr(m.recipient), EncodeStr(m.appId)]
  }

  function CounterFields(m: Message): seq<Encoded>
  {
    [EncodeU8(PriorityCode(m.priority)), EncodeU8(m.ttl), EncodeU8(m.hopCount), EncodeI64(m.timestampMs),
     EncodeU64(m.lamportClock), EncodeU8(ContentTypeCode(m.contentType))]
  }

  function PayloadFields(m: Message): seq<Encoded>
  {
    [EncodeStr(ContentHead(m.content)), EncodeOpt(m.binaryContent, EncodeRaw), EncodeOpt(m.mediaMetadata, EncodeStr)]
  }

  function TrailerFields(m: Message): seq<Encoded>
  {
    [Ok(EncSeq(Utf8Items(Sorted(m.metadata, ByKey)), EncPair)), Ok(EncBool(m.requiresAck)),
     EncodeOpt(m.replyToMsg, EncodeUuid), EncodeOpt(m.forwardedFrom, EncodeStr),
     Ok(EncSeq(ContentExt(m.content) + ReplyExt(m.replyContext), EncExt))]
  }

  /** Every field in wire order behind the magic byte; the first that cannot be encoded raises for the whole. */
  function EncodeFrame(m: Message): Encoded
  {
    Both(Ok([WIRE_V1_MAGIC]),
         Joined(RoutingFields(m) + (CounterFields(m) + (PayloadFields(m) + TrailerFields(m)))))
  }

  // -- the frame of a message -------------------------------------------------------

  /** The messages whose fields all have their widths. */
  predicate Encodable(m: Message)
  {
    && |m.id| == 16
    && 0 <= m.ttl < 256 && 0 <= m.hopCount < 256
    && -TWO_63 <= m.timestampMs < TWO_63 && 0 <= m.lamportClock < TWO_64
    && (m.replyToMsg.Some? ==> |m.replyToMsg.value| == 16)
  }

  function RoutingOf(m: Message): Routing
    requires Encodable(m)
  {
    Routing(m.id, Utf.Utf8(m.sender), Utf.Utf8(m.recipient), Utf.Utf8(m.appId))
  }

  function CountersOf(m: Message): Counters
    requires Encodable(m)
  {
    Counters(PriorityCode(m.priority), m.ttl, m.hopCount, m.timestampMs, m.lamportClock, ContentTypeCode(m.contentType))
  }

  function PayloadOf(m: Message): Payload
  {
    Payload(Utf.Utf8(ContentHead(m.content)), m.binaryContent, OptUtf8(m.mediaMetadata))
  }

  function TrailerOf(m: Message): Trailer
    requires Encodable(m)
  {
    var replyToMsg: Option<Uuid> := if m.replyToMsg.None? then None else Some(m.replyToMsg.value);
    Trailer(
      Utf8Items(Sorted(m.metadata, ByKey)), m.requiresAck, replyToMsg, OptUtf8(m.forwardedFrom),
      ContentExt(m.content) + ReplyExt(m.replyContext))
  }

  function FrameOf(m: Message): Frame
    requires Encodable(m)
  {
    Frame(RoutingOf(m), CountersOf(m), PayloadOf(m), TrailerOf(m))
  }

  lemma {:induction false} JoinedAppend(a: seq<Encoded>, b: seq<Encoded>)
    ensures Joined(a + b) == Both(Joined(a), Joined(b))
  {
    if a == [] {
      assert a + b == b;
      assert Joined(b).Ok? ==> [] + Joined(b).value == Joined(b).value;
    } else {
      JoinedAppend(a[1..], b);
      assert (a + b)[1..] == a[1..] + b;
      if Joined(a).Ok? && Joined(b).Ok? {
        Assoc(a[0].value, Joined(a[1..]).value, Joined(b).value);
      }
    }
  }

  lemma JoinedCons(first: Encoded, rest: seq<Encoded>)
    ensures Joined([first] + rest) == Both(first, Joined(rest))
  {
    assert ([first] + rest)[1..] == rest;
  }

  lemma JoinedOne(last: Encoded)
    ensures Joined([last]) == last
  {
    assert [last][1..] == [];
    assert last.Ok? ==> last.value + [] == last.value;
  }

  lemma Joined3(a: Encoded, b: Encoded, c: Encoded)
    ensures Joined([a, b, c]) == Both(a, Both(b, c))
  {
    assert [a, b, c] == [a] + ([b] + [c]);
    JoinedCons(a, [b] + [c]);
    JoinedCons(b, [c]);
    JoinedOne(c);
  }

  lemma Joined4(a: Encoded, b: Encoded, c: Encoded, d: Encoded)
    ensures Joined([a, b, c, d]) == Both(a, Both(b, Both(c, d)))
  {
    assert [a, b, c, d] == [a] + [b, c, d];
    JoinedCons(a, [b, c, d]);
    Joined3(b, c, d);
  }

  lemma Joined5(a: Encoded, b: Encoded, c: Encoded, d: Encoded, e: Encoded)
    ensures Joined([a, b, c, d, e]) == Both(a, Both(b, Both(c, Both(d, e))))
  {
    assert [a, b, c, d, e] == [a] + [b, c, d, e];
    JoinedCons(a, [b, c, d, e]);
    Joined4(b, c, d, e);
  }

  lemma Joined6(a: Encoded, b: Encoded, c: Encoded, d: Encoded, e: Encoded, f: Encoded)
    ensures Joined([a, b, c, d, e, f]) == Both(a, Both(b, Both(c, Both(d, Both(e, f)))))
  {
    assert [a, b, c, d, e, f] == [a] + [b, c, d, e, f];
    JoinedCons(a, [b, c, d, e, f]);
    Joined5(b, c, d, e, f);
  }

  lemma RoutingJoined(m: Message)
    ensures Joined(RoutingFields(m)).Ok? <==> |m.id| == 16
    ensures Encodable(m) ==> Joined(RoutingFields(m)) == Ok(EncRouting(RoutingOf(m)))
  {
    Joined4(EncodeUuid(m.id), EncodeStr(m.sender), EncodeStr(m.recipient), EncodeStr(m.appId));
  }

  lemma CountersJoined(m: Message)
    ensures Joined(CounterFields(m)).Ok? <==>
              && 0 <= m.ttl < 256 && 0 <= m.hopCount < 256
              && -TWO_63 <= m.timestampMs < TWO_63 && 0 <= m.lamportClock < TWO_64
    ensures Encodable(m) ==> Joined(CounterFields(m)) == Ok(EncCounters(CountersOf(m)))
  {
    Joined6(EncodeU8(PriorityCode(m.priority)), EncodeU8(m.ttl), EncodeU8(m.hopCount), EncodeI64(m.timestampMs),
            EncodeU64(m.lamportClock), EncodeU8(ContentTypeCode(m.contentType)));
  }

  lemma OptionsEncoded(raw: Option<seq<byte>>, text: Option<string>)
    ensures EncodeOpt(raw, EncodeRaw) == Ok(EncOpt(raw, EncBytes))
    ensures EncodeOpt(text, EncodeStr) == Ok(EncOpt(OptUtf8(text), EncBytes))
  {
  }

  lemma PayloadJoined(m: Message)
    ensures Joined(PayloadFields(m)) == Ok(EncPayload(PayloadOf(m)))
  {
    OptionsEncoded(m.binaryContent, m.mediaMetadata);
    var content := EncodeStr(ContentHead(m.content));
    Joined3(content, Ok(EncOpt(m.binaryContent, EncBytes)), Ok(EncOpt(OptUtf8(m.mediaMetadata), EncBytes)));
  }

  lemma TrailerJoined(m: Message)
    ensures Joined(TrailerFields(m)).Ok? <==> (m.replyToMsg.Some? ==> |m.replyToMsg.value| == 16)
    ensures Encodable(m) ==> Joined(TrailerFields(m)) == Ok(EncTrailer(TrailerOf(m)))
  {
    OptionsEncoded(None, m.forwardedFrom);
    var f := TrailerFields(m);
    Joined5(f[0], f[1], f[2], f[3], f[4]);
  }

  lemma GroupsJoined(a: seq<Encoded>, b: seq<Encoded>, c: seq<Encoded>, d: seq<Encoded>)
    ensures Joined(a + (b + (c + d))) == Both(Joined(a), Both(Joined(b), Both(Joined(c), Joined(d))))
  {
    JoinedAppend(a, b + (c + d));
    JoinedAppend(b, c + d);
    JoinedAppend(c, d);
  }

  /** Encoding raises exactly when some field is outside its width; else it lays out the message's frame. */
  lemma EncodeFrameRaises(m: Message)
    ensures EncodeFrame(m).Ok? <==> Encodable(m)
    ensures Encodable(m) ==> EncodeFrame(m) == Ok(FrameBytes(FrameOf(m)))
  {
    GroupsJoined(RoutingFields(m), CounterFields(m), PayloadFields(m), TrailerFields(m));
    RoutingJoined(m);
    CountersJoined(m);
    PayloadJoined(m);
    TrailerJoined(m);
  }

  ghost function ItemSet(items: seq<(string, string)>): set<(string, string)>
  {
    set kv | kv in items
  }

  /** The same message: every field alike, the metadata as a map. */
  ghost predicate SameMessage(m: Message, n: Message)
  {
    && ItemSet(m.metadata) == ItemSet(n.metadata)
    && m.(metadata := []) == n.(metadata := [])
  }

  // -- what each field determines -------------------------------------------------

  lemma OptUtf8Injective(a: Option<string>, b: Option<string>)
    requires OptUtf8(a) == OptUtf8(b)
    ensures a == b
  {
    if a.Some? && b.Some? {
      Utf.Utf8Injective(a.value, b.value);
    }
  }

  /** The content field and the extensions together determine the whole content and the reply context. */
  lemma ContentDetermined(c: string, rc: Option<string>, d: string, rd: Option<string>)
    requires Utf.Utf8(ContentHead(c)) == Utf.Utf8(ContentHead(d))
    requires ContentExt(c) + ReplyExt(rc) == ContentExt(d) + ReplyExt(rd)
    ensures c == d && rc == rd
  {
    Utf.Utf8Injective(ContentHead(c), ContentHead(d));
    ExtensionsApart(ContentExt(c), ReplyExt(rc), ContentExt(d), ReplyExt(rd));
    if Base64.SplitTail(c).Some? {
      Base64.SplitRebuilds(c);
      Base64.SplitRebuilds(d);
    }
    if rc.Some? {
      assert ReplyExt(rc)[0] == ReplyExt(rd)[0];
      Utf.Utf8Injective(rc.value, rd.value);
    }
  }

  /** At most one entry of tag 1 followed by at most one of tag 2 is read back apart. */
  lemma ExtensionsApart(
    a: seq<(nat, seq<byte>)>, b: seq<(nat, seq<byte>)>, c: seq<(nat, seq<byte>)>, d: seq<(nat, seq<byte>)>)
    requires |a| <= 1 && |b| <= 1 && |c| <= 1 && |d| <= 1
    requires forall i :: 0 <= i < |a| ==> a[i].0 == EXT_TAG_B64_TAIL
    requires forall i :: 0 <= i < |c| ==> c[i].0 == EXT_TAG_B64_TAIL
    requires forall i :: 0 <= i < |b| ==> b[i].0 == EXT_TAG_REPLY_CONTEXT
    requires forall i :: 0 <= i < |d| ==> d[i].0 == EXT_TAG_REPLY_CONTEXT
    requires a + b == c + d
    ensures a == c && b == d
  {
    var all := a + b;
    assert |a| > 0 ==> all[0] == a[0];
    assert |c| > 0 ==> all[0] == c[0];
    assert |a| == |c|;
    assert a == all[..|a|] && c == all[..|c|];
    assert b == all[|a|..] && d == all[|c|..];
  }

  lemma Utf8ItemsInjective(a: seq<(string, string)>, b: seq<(string, string)>)
    requires Utf8Items(a) == Utf8Items(b)
    ensures a == b
  {
    forall i | 0 <= i < |a| ensures a[i] == b[i] {
      assert Utf8Items(a)[i] == Utf8Items(b)[i];
      Utf.Utf8Injective(a[i].0, b[i].0);
      Utf.Utf8Injective(a[i].1, b[i].1);
    }
  }

  lemma SortedMetadataDetermines(a: Items, b: Items)
    requires Sorted(a, ByKey) == Sorted(b, ByKey)
    ensures ItemSet(a) == ItemSet(b)
  {
    SortedIsSort(a, ByKey);
    SortedIsSort(b, ByKey);
  }

  /** The sorted metadata does not depend on the order of insertion. */
  lemma MetadataOrderForgotten(a: Items, b: Items)
    requires ItemSet(a) == ItemSet(b)
    ensures Sorted(a, ByKey) == Sorted(b, ByKey)
  {
    SortedIsSort(a, ByKey);
    SortedIsSort(b, ByKey);
    SameSetSameMultiset(a, b);
    ItemsKeyInjective(a, Sorted(a, ByKey));
    SortIsUnique(Sorted(a, ByKey), Sorted(b, ByKey), ByKey);
  }

  lemma SameSetSameMultiset(a: Items, b: Items)
    requires ItemSet(a) == ItemSet(b)
    ensures multiset(a) == multiset(b)
  {
    var x, y: seq<(string, string)> := a, b;
    forall kv: (string, string) ensures multiset(x)[kv] == multiset(y)[kv] {
      Once(x, kv);
      Once(y, kv);
      assert kv in x <==> kv in ItemSet(a);
      assert kv in y <==> kv in ItemSet(b);
    }
  }

  lemma {:induction false} Once(a: seq<(string, string)>, kv: (string, string))
    requires forall i, j :: 0 <= i < j < |a| ==> a[i].0 != a[j].0
    ensures multiset(a)[kv] == if kv in a then 1 else 0
  {
    if a != [] {
      Once(a[1..], kv);
      assert a == [a[0]] + a[1..];
      if kv == a[0] {
        assert kv !in a[1..];
      }
    }
  }

  lemma ItemsKeyInjective(a: Items, s: seq<(string, string)>)
    requires forall x :: x in s <==> x in a
    ensures KeyInjective(s, ByKey)
  {
    forall i, j | 0 <= i < |s| && 0 <= j < |s| && ByKey(s[i]) == ByKey(s[j]) ensures s[i] == s[j] {
      Utf.Utf8Injective(s[i].0, s[j].0);
      assert s[i] in a && s[j] in a;
    }
  }

  // -- the encoder is exact ---------------------------------------------------------

  lemma FrameDeterminesMessage(m: Message, n: Message)
    requires Encodable(m) && Encodable(n) && FrameOf(m) == FrameOf(n)
    ensures SameMessage(m, n)
  {
    RoutingDetermined(m, n);
    CountersDetermined(m, n);
    PayloadDetermined(m, n);
    TrailerDetermined(m, n);
  }

  lemma CodesDetermined(p: Priority, q: Priority, c: ContentType, d: ContentType)
    ensures PriorityCode(p) == PriorityCode(q) ==> p == q
    ensures ContentTypeCode(c) == ContentTypeCode(d) ==> c == d
  {
  }

  lemma CountersDetermined(m: Message, n: Message)
    requires Encodable(m) && Encodable(n) && CountersOf(m) == CountersOf(n)
    ensures m.priority == n.priority && m.contentType == n.contentType
    ensures m.ttl == n.ttl && m.hopCount == n.hopCount
    ensures m.timestampMs == n.timestampMs && m.lamportClock == n.lamportClock
  {
    CodesDetermined(m.priority, n.priority, m.contentType, n.contentType);
  }

  lemma PayloadDetermined(m: Message, n: Message)
    requires Encodable(m) && Encodable(n) && PayloadOf(m) == PayloadOf(n)
    requires TrailerOf(m).ext == TrailerOf(n).ext
    ensures m.content == n.content && m.replyContext == n.replyContext
    ensures m.binaryContent == n.binaryContent && m.mediaMetadata == n.mediaMetadata
  {
    ContentDetermined(m.content, m.replyContext, n.content, n.replyContext);
    OptUtf8Injective(m.mediaMetadata, n.mediaMetadata);
  }

  lemma TrailerDetermined(m: Message, n: Message)
    requires Encodable(m) && Encodable(n) && TrailerOf(m) == TrailerOf(n)
    ensures ItemSet(m.metadata) == ItemSet(n.metadata)
    ensures m.requiresAck == n.requiresAck && m.replyToMsg == n.replyToMsg && m.forwardedFrom == n.forwardedFrom
  {
    OptUtf8Injective(m.forwardedFrom, n.forwardedFrom);
    Utf8ItemsInjective(Sorted(m.metadata, ByKey), Sorted(n.metadata, ByKey));
    SortedMetadataDetermines(m.metadata, n.metadata);
  }

  lemma RoutingDetermined(m: Message, n: Message)
    requires Encodable(m) && Encodable(n) && RoutingOf(m) == RoutingOf(n)
    ensures m.id == n.id && m.sender == n.sender && m.recipient == n.recipient && m.appId == n.appId
  {
    Utf.Utf8Injective(m.sender, n.sender);
    Utf.Utf8Injective(m.recipient, n.recipient);
    Utf.Utf8Injective(m.appId, n.appId);
  }

  /**
   * Two frames, each followed by anything, are the same bytes exactly when the messages are the
   * same, metadata order aside, and so is what follows: the encoding is injective and prefix-free.
   */
  lemma EncodeFrameIsExact(m: Message, n: Message, s: seq<byte>, t: seq<byte>)
    requires EncodeFrame(m).Ok? && EncodeFrame(n).Ok?
    ensures EncodeFrame(m).value + s == EncodeFrame(n).value + t <==> SameMessage(m, n) && s == t
  {
    EncodeFrameRaises(m);
    EncodeFrameRaises(n);
    if EncodeFrame(m).value + s == EncodeFrame(n).value + t {
      FrameInverts(FrameOf(m), s);
      FrameInverts(FrameOf(n), t);
      FrameDeterminesMessage(m, n);
    } else if SameMessage(m, n) {
      MetadataOrderForgotten(m.metadata, n.metadata);
      assert FrameOf(m) == FrameOf(n);
    }
  }
}
