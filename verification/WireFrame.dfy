/** The 0xF5 frame: its byte layout, a reader for it, and what the layout determines. */
module WireFrame {
  import opened Basics
  import opened Varint

  const WIRE_V1_MAGIC: byte := 0xF5

  type i64 = x: int | -TWO_63 <= x < TWO_63
  type u64 = x: int | 0 <= x < TWO_64
  type Uuid = b: seq<byte> | |b| == 16 witness seq(16, _ => 0)

  // -- primitive encodings and their readers ------------------------------------

  type Reader<T> = seq<byte> -> Option<(T, seq<byte>)>

  /** `read` recovers every encoded value and stops exactly where it ends. */
  ghost predicate Inverts<T(!new)>(enc: T -> seq<byte>, read: Reader<T>)
  {
    forall v: T, rest: seq<byte> :: read(enc(v) + rest) == Some((v, rest))
  }

  function EncI64(v: i64): seq<byte>
  {
    VarintBytes(ZigZag(v).value)
  }

  function ReadI64(s: seq<byte>): Option<(i64, seq<byte>)>
  {
    var (u, rest) :- ReadVarint(s);
    if u < TWO_64 then Some((UnZigZag(u), rest)) else None
  }

  function ReadU64(s: seq<byte>): Option<(u64, seq<byte>)>
  {
    var (u, rest) :- ReadVarint(s);
    if u < TWO_64 then Some((u, rest)) else None
  }

  function ReadU8(s: seq<byte>): Option<(byte, seq<byte>)>
  {
    if s == [] then None else Some((s[0], s[1..]))
  }

  function EncBool(v: bool): seq<byte>
  {
    if v then [1] else [0]
  }

  function ReadBool(s: seq<byte>): Option<(bool, seq<byte>)>
  {
    if s == [] || s[0] > 1 then None else Some((s[0] == 1, s[1..]))
  }

  function EncUuid(v: Uuid): seq<byte>
  {
    v
  }

  function ReadUuid(s: seq<byte>): Option<(Uuid, seq<byte>)>
  {
    if |s| < 16 then None else Some((s[..16], s[16..]))
  }

  function EncBytes(v: seq<byte>): seq<byte>
  {
    VarintBytes(|v|) + v
  }

  function ReadBytes(s: seq<byte>): Option<(seq<byte>, seq<byte>)>
  {
    var (n, rest) :- ReadVarint(s);
    if n <= |rest| then Some((rest[..n], rest[n..])) else None
  }

  function EncPair(v: (seq<byte>, seq<byte>)): seq<byte>
  {
    EncBytes(v.0) + EncBytes(v.1)
  }

  function ReadPair(s: seq<byte>): Option<((seq<byte>, seq<byte>), seq<byte>)>
  {
    var (k, s1) :- ReadBytes(s);
    var (v, s2) :- ReadBytes(s1);
    Some(((k, v), s2))
  }

  function EncExt(v: (nat, seq<byte>)): seq<byte>
  {
    VarintBytes(v.0) + EncBytes(v.1)
  }

  function ReadExt(s: seq<byte>): Option<((nat, seq<byte>), seq<byte>)>
  {
    var (tag, s1) :- ReadVarint(s);
    var (v, s2) :- ReadBytes(s1);
    Some(((tag, v), s2))
  }

  function EncOpt<T>(v: Option<T>, inner: T -> seq<byte>): seq<byte>
  {
    if v.None? then [0] else [1] + inner(v.value)
  }

  function ReadOpt<T>(s: seq<byte>, inner: Reader<T>): Option<(Option<T>, seq<byte>)>
  {
    if s == [] || s[0] > 1 then None
    else if s[0] == 0 then Some((None, s[1..]))
    else
      var (v, rest) :- inner(s[1..]);
      Some((Some(v), rest))
  }

  function EncAll<T>(vs: seq<T>, inner: T -> seq<byte>): seq<byte>
  {
    if vs == [] then [] else inner(vs[0]) + EncAll(vs[1..], inner)
  }

  function ReadAll<T>(n: nat, s: seq<byte>, inner: Reader<T>): Option<(seq<T>, seq<byte>)>
  {
    if n == 0 then Some(([], s))
    else
      var (v, s1) :- inner(s);
      var (vs, s2) :- ReadAll(n - 1, s1, inner);
      Some(([v] + vs, s2))
  }

  function EncSeq<T>(vs: seq<T>, inner: T -> seq<byte>): seq<byte>
  {
    VarintBytes(|vs|) + EncAll(vs, inner)
  }

  function ReadSeq<T>(s: seq<byte>, inner: Reader<T>): Option<(seq<T>, seq<byte>)>
  {
    var (n, s1) :- ReadVarint(s);
    ReadAll(n, s1, inner)
  }

  lemma Assoc(a: seq<byte>, b: seq<byte>, c: seq<byte>)
    ensures (a + b) + c == a + (b + c)
  {
  }

  lemma Assoc3(a: seq<byte>, b: seq<byte>, c: seq<byte>, d: seq<byte>)
    ensures (a + (b + c)) + d == a + (b + (c + d))
  {
    Assoc(b, c, d);
    Assoc(a, b + c, d);
  }

  lemma Assoc4(a: seq<byte>, b: seq<byte>, c: seq<byte>, d: seq<byte>, e: seq<byte>)
    ensures (a + (b + (c + d))) + e == a + (b + (c + (d + e)))
  {
    Assoc3(b, c, d, e);
    Assoc(a, b + (c + d), e);
  }

  lemma I64Inverts(v: i64, rest: seq<byte>)
    ensures ReadI64(EncI64(v) + rest) == Some((v, rest))
  {
    ReadVarintInverts(ZigZag(v).value, rest);
    ZigZagBijection(v, 0);
  }

  lemma U64Inverts(v: u64, rest: seq<byte>)
    ensures ReadU64(VarintBytes(v) + rest) == Some((v, rest))
  {
    ReadVarintInverts(v, rest);
  }

  lemma U8Inverts(v: byte, rest: seq<byte>)
    ensures ReadU8([v] + rest) == Some((v, rest))
  {
    assert ([v] + rest)[1..] == rest;
  }

  lemma BoolInverts(v: bool, rest: seq<byte>)
    ensures ReadBool(EncBool(v) + rest) == Some((v, rest))
  {
    assert (EncBool(v) + rest)[1..] == rest;
  }

  lemma BytesInvert(v: seq<byte>, rest: seq<byte>)
    ensures ReadBytes(EncBytes(v) + rest) == Some((v, rest))
  {
    Assoc(VarintBytes(|v|), v, rest);
    ReadVarintInverts(|v|, v + rest);
  }

  lemma PairInverts()
    ensures Inverts(EncPair, ReadPair)
  {
    forall v: (seq<byte>, seq<byte>), rest: seq<byte> ensures ReadPair(EncPair(v) + rest) == Some((v, rest)) {
      Assoc(EncBytes(v.0), EncBytes(v.1), rest);
      BytesInvert(v.0, EncBytes(v.1) + rest);
      BytesInvert(v.1, rest);
    }
  }

  lemma ExtInverts()
    ensures Inverts(EncExt, ReadExt)
  {
    forall v: (nat, seq<byte>), rest: seq<byte> ensures ReadExt(EncExt(v) + rest) == Some((v, rest)) {
      Assoc(VarintBytes(v.0), EncBytes(v.1), rest);
      ReadVarintInverts(v.0, EncBytes(v.1) + rest);
      BytesInvert(v.1, rest);
    }
  }

  lemma BytesInverts()
    ensures Inverts(EncBytes, ReadBytes)
  {
    forall v: seq<byte>, rest: seq<byte> ensures ReadBytes(EncBytes(v) + rest) == Some((v, rest)) {
      BytesInvert(v, rest);
    }
  }

  lemma UuidInverts()
    ensures Inverts(EncUuid, ReadUuid)
  {
  }

  lemma OptInverts<T(!new)>(v: Option<T>, enc: T -> seq<byte>, read: Reader<T>, rest: seq<byte>)
    requires Inverts(enc, read)
    ensures ReadOpt(EncOpt(v, enc) + rest, read) == Some((v, rest))
  {
    if v.None? {
      assert ([0] + rest)[1..] == rest;
    } else {
      Assoc([1], enc(v.value), rest);
      assert ([1] + (enc(v.value) + rest))[1..] == enc(v.value) + rest;
    }
  }

  lemma {:induction false} AllInverts<T(!new)>(vs: seq<T>, enc: T -> seq<byte>, read: Reader<T>, rest: seq<byte>)
    requires Inverts(enc, read)
    ensures ReadAll(|vs|, EncAll(vs, enc) + rest, read) == Some((vs, rest))
  {
    if vs == [] {
      assert [] + rest == rest;
    } else {
      AllInverts(vs[1..], enc, read, rest);
      Assoc(enc(vs[0]), EncAll(vs[1..], enc), rest);
      assert read(enc(vs[0]) + (EncAll(vs[1..], enc) + rest)) == Some((vs[0], EncAll(vs[1..], enc) + rest));
      assert vs == [vs[0]] + vs[1..];
    }
  }

  lemma SeqInverts<T(!new)>(vs: seq<T>, enc: T -> seq<byte>, read: Reader<T>, rest: seq<byte>)
    requires Inverts(enc, read)
    ensures ReadSeq(EncSeq(vs, enc) + rest, read) == Some((vs, rest))
  {
    Assoc(VarintBytes(|vs|), EncAll(vs, enc), rest);
    ReadVarintInverts(|vs|, EncAll(vs, enc) + rest);
    AllInverts(vs, enc, read, rest);
  }

  /** An id carries no length: one a byte longer, before a shorter sender, is the same bytes. */
  lemma IdsOfAnyLengthAreAmbiguous(id: seq<byte>, rest: seq<byte>)
    ensures id + (EncBytes([0]) + rest) == (id + [1]) + (EncBytes([]) + rest)
  {
    assert EncBytes([0]) == [1, 0] && EncBytes([]) == [0];
  }

  // -- the frame ------------------------------------------------------------------

  /** The fields of a frame, strings already encoded and names already numbered. */
  datatype Frame = Frame(routing: Routing, counters: Counters, payload: Payload, trailer: Trailer)

  datatype Routing = Routing(id: Uuid, sender: seq<byte>, recipient: seq<byte>, appId: seq<byte>)

  datatype Counters = Counters(
    priority: byte, ttl: byte, hopCount: byte, timestampMs: i64, lamportClock: u64, contentType: byte)

  datatype Payload = Payload(content: seq<byte>, binaryContent: Option<seq<byte>>, mediaMetadata: Option<seq<byte>>)

  datatype Trailer = Trailer(
    metadata: seq<(seq<byte>, seq<byte>)>, requiresAck: bool, replyToMsg: Option<Uuid>,
    forwardedFrom: Option<seq<byte>>, ext: seq<(nat, seq<byte>)>)

  function EncRouting(r: Routing): seq<byte>
  {
    r.id + (EncBytes(r.sender) + (EncBytes(r.recipient) + EncBytes(r.appId)))
  }

  function ReadRouting(s: seq<byte>): Option<(Routing, seq<byte>)>
  {
    var (id, s1) :- ReadUuid(s);
    var (sender, s2) :- ReadBytes(s1);
    var (recipient, s3) :- ReadBytes(s2);
    var (appId, s4) :- ReadBytes(s3);
    Some((Routing(id, sender, recipient, appId), s4))
  }

  function EncCounters(c: Counters): seq<byte>
  {
    [c.priority] + ([c.ttl] + ([c.hopCount] +
    (EncI64(c.timestampMs) + (VarintBytes(c.lamportClock) + [c.contentType]))))
  }

  function ReadCounters(s: seq<byte>): Option<(Counters, seq<byte>)>
  {
    var (priority, s1) :- ReadU8(s);
    var (ttl, s2) :- ReadU8(s1);
    var (hopCount, s3) :- ReadU8(s2);
    var (timestampMs, s4) :- ReadI64(s3);
    var (lamportClock, s5) :- ReadU64(s4);
    var (contentType, s6) :- ReadU8(s5);
    Some((Counters(priority, ttl, hopCount, timestampMs, lamportClock, contentType), s6))
  }

  function EncPayload(p: Payload): seq<byte>
  {
    EncBytes(p.content) + (EncOpt(p.binaryContent, EncBytes) + EncOpt(p.mediaMetadata, EncBytes))
  }

  function ReadPayload(s: seq<byte>): Option<(Payload, seq<byte>)>
  {
    var (content, s1) :- ReadBytes(s);
    var (binaryContent, s2) :- ReadOpt(s1, ReadBytes);
    var (mediaMetadata, s3) :- ReadOpt(s2, ReadBytes);
    Some((Payload(content, binaryContent, mediaMetadata), s3))
  }

  function EncTrailer(t: Trailer): seq<byte>
  {
    EncSeq(t.metadata, EncPair) + (EncBool(t.requiresAck) +
    (EncOpt(t.replyToMsg, EncUuid) + (EncOpt(t.forwardedFrom, EncBytes) + EncSeq(t.ext, EncExt))))
  }

  function ReadTrailer(s: seq<byte>): Option<(Trailer, seq<byte>)>
  {
    var (metadata, s1) :- ReadSeq(s, ReadPair);
    var (requiresAck, s2) :- ReadBool(s1);
    var (replyToMsg, s3) :- ReadOpt(s2, ReadUuid);
    var (forwardedFrom, s4) :- ReadOpt(s3, ReadBytes);
    var (ext, s5) :- ReadSeq(s4, ReadExt);
    Some((Trailer(metadata, requiresAck, replyToMsg, forwardedFrom, ext), s5))
  }

  /** The frame's bytes, in wire order. */
  function FrameBytes(f: Frame): seq<byte>
  {
    [WIRE_V1_MAGIC] +
    (EncRouting(f.routing) + (EncCounters(f.counters) + (EncPayload(f.payload) + EncTrailer(f.trailer))))
  }

  function ReadFrame(s: seq<byte>): Option<(Frame, seq<byte>)>
  {
    if s == [] || s[0] != WIRE_V1_MAGIC then None
    else
      var (routing, s1) :- ReadRouting(s[1..]);
      var (counters, s2) :- ReadCounters(s1);
      var (payload, s3) :- ReadPayload(s2);
      var (trailer, s4) :- ReadTrailer(s3);
      Some((Frame(routing, counters, payload, trailer), s4))
  }

  lemma RoutingInverts(r: Routing, rest: seq<byte>)
    ensures ReadRouting(EncRouting(r) + rest) == Some((r, rest))
  {
    var e3 := EncBytes(r.appId);
    var e2 := EncBytes(r.recipient);
    var e1 := EncBytes(r.sender);
    Assoc4(r.id, e1, e2, e3, rest);
    BytesInvert(r.sender, e2 + (e3 + rest));
    BytesInvert(r.recipient, e3 + rest);
    BytesInvert(r.appId, rest);
  }

  lemma CountersInvert(c: Counters, rest: seq<byte>)
    ensures ReadCounters(EncCounters(c) + rest) == Some((c, rest))
  {
    var e4, e5, e6 := EncI64(c.timestampMs), VarintBytes(c.lamportClock), [c.contentType];
    var s5 := e5 + (e6 + rest);
    Assoc6([c.priority], [c.ttl], [c.hopCount], e4, e5, e6, rest);
    U8Inverts(c.priority, [c.ttl] + ([c.hopCount] + (e4 + s5)));
    U8Inverts(c.ttl, [c.hopCount] + (e4 + s5));
    U8Inverts(c.hopCount, e4 + s5);
    I64Inverts(c.timestampMs, s5);
    U64Inverts(c.lamportClock, e6 + rest);
    U8Inverts(c.contentType, rest);
  }

  lemma Assoc6(a: seq<byte>, b: seq<byte>, c: seq<byte>, d: seq<byte>, e: seq<byte>, f: seq<byte>, g: seq<byte>)
    ensures (a + (b + (c + (d + (e + f))))) + g == a + (b + (c + (d + (e + (f + g)))))
  {
    Assoc(e, f, g);
    Assoc(d, e + f, g);
    Assoc(c, d + (e + f), g);
    Assoc(b, c + (d + (e + f)), g);
    Assoc(a, b + (c + (d + (e + f))), g);
  }

  lemma PayloadInverts(p: Payload, rest: seq<byte>)
    ensures ReadPayload(EncPayload(p) + rest) == Some((p, rest))
  {
    BytesInverts();
    var e3 := EncOpt(p.mediaMetadata, EncBytes);
    var e2 := EncOpt(p.binaryContent, EncBytes);
    Assoc3(EncBytes(p.content), e2, e3, rest);
    BytesInvert(p.content, e2 + (e3 + rest));
    OptInverts(p.binaryContent, EncBytes, ReadBytes, e3 + rest);
    OptInverts(p.mediaMetadata, EncBytes, ReadBytes, rest);
  }

  lemma TrailerInverts(t: Trailer, rest: seq<byte>)
    ensures ReadTrailer(EncTrailer(t) + rest) == Some((t, rest))
  {
    BytesInverts();
    UuidInverts();
    PairInverts();
    ExtInverts();
    var e1, e2, e3 := EncSeq(t.metadata, EncPair), EncBool(t.requiresAck), EncOpt(t.replyToMsg, EncUuid);
    var e4, e5 := EncOpt(t.forwardedFrom, EncBytes), EncSeq(t.ext, EncExt);
    var s4 := e4 + (e5 + rest);
    Assoc5(e1, e2, e3, e4, e5, rest);
    SeqInverts(t.metadata, EncPair, ReadPair, e2 + (e3 + s4));
    BoolInverts(t.requiresAck, e3 + s4);
    OptInverts(t.replyToMsg, EncUuid, ReadUuid, s4);
    OptInverts(t.forwardedFrom, EncBytes, ReadBytes, e5 + rest);
    SeqInverts(t.ext, EncExt, ReadExt, rest);
  }

  lemma Assoc5(a: seq<byte>, b: seq<byte>, c: seq<byte>, d: seq<byte>, e: seq<byte>, f: seq<byte>)
    ensures (a + (b + (c + (d + e)))) + f == a + (b + (c + (d + (e + f))))
  {
    Assoc(d, e, f);
    Assoc(c, d + e, f);
    Assoc(b, c + (d + e), f);
    Assoc(a, b + (c + (d + e)), f);
  }

  /** From a frame followed by anything at all, the reader recovers every field and what followed. */
  lemma FrameInverts(f: Frame, rest: seq<byte>)
    ensures ReadFrame(FrameBytes(f) + rest) == Some((f, rest))
  {
    var e1, e2, e3, e4 := EncRouting(f.routing), EncCounters(f.counters), EncPayload(f.payload), EncTrailer(f.trailer);
    var s := FrameBytes(f) + rest;
    Assoc5([WIRE_V1_MAGIC], e1, e2, e3, e4, rest);
    assert s[1..] == e1 + (e2 + (e3 + (e4 + rest)));
    RoutingInverts(f.routing, e2 + (e3 + (e4 + rest)));
    CountersInvert(f.counters, e3 + (e4 + rest));
    PayloadInverts(f.payload, e4 + rest);
    TrailerInverts(f.trailer, rest);
  }
}
