/** The bytes that are signed: length-prefixed fields under mutually non-prefixing domains. */
module SigningPayloads {
  import opened Basics
  import Utf

  // -- big-endian integers -----------------------------------------------------------

  function Pow256(k: nat): (r: nat)
    ensures r >= 1
  {
    if k == 0 then 1 else 256 * Pow256(k - 1)
  }

  /** `n.to_bytes(k, "big")` for an `n` that fits. */
  function BigEndian(n: nat, k: nat): (r: seq<byte>)
    ensures |r| == k
    decreases k
  {
    if k == 0 then [] else BigEndian(n / 256, k - 1) + [n % 256]
  }

  function FromBigEndian(b: seq<byte>): nat
  {
    if b == [] then 0 else 256 * FromBigEndian(b[..|b| - 1]) + b[|b| - 1]
  }

  lemma {:induction false} BigEndianRoundTrip(n: nat, k: nat)
    requires n < Pow256(k)
    ensures FromBigEndian(BigEndian(n, k)) == n
  {
    if k > 0 {
      BigEndianRoundTrip(n / 256, k - 1);
      assert BigEndian(n, k)[..k - 1] == BigEndian(n / 256, k - 1);
    }
  }

  const U32_LIMIT := 0x1_0000_0000
  const TWO_63 := 0x8000_0000_0000_0000
  const TWO_64 := 0x1_0000_0000_0000_0000

  lemma Limits()
    ensures Pow256(4) == U32_LIMIT && Pow256(8) == TWO_64
  {
    assert Pow256(2) == 65536;
    assert Pow256(6) == 281474976710656;
  }

  lemma LastByte(n: nat, k: nat)
    requires k >= 1
    ensures BigEndian(n, k) == BigEndian(n / 256, k - 1) + [n % 256]
  {
  }

  /** Most significant byte first. */
  lemma FourBytes(n: nat, k: nat)
    requires k == 4
    ensures BigEndian(n, k) == [n / 0x100_0000 % 256, n / 0x1_0000 % 256, n / 0x100 % 256, n % 256]
  {
    var a := n / 256;
    var b := a / 256;
    var c := b / 256;
    LastByte(n, k);
    LastByte(a, k - 1);
    LastByte(b, k - 2);
    LastByte(c, k - 3);
    assert b == n / 0x1_0000 && c == n / 0x100_0000;
  }

  // -- canonical payloads --------------------------------------------------------------

  predicate Framable(fields: seq<seq<byte>>)
  {
    forall i :: 0 <= i < |fields| ==> |fields[i]| < U32_LIMIT
  }

  function Prefixed(field: seq<byte>): seq<byte>
  {
    BigEndian(|field|, 4) + field
  }

  function PrefixedAll(fields: seq<seq<byte>>): seq<byte>
  {
    if fields == [] then [] else Prefixed(fields[0]) + PrefixedAll(fields[1..])
  }

  lemma Assoc(a: seq<byte>, b: seq<byte>, c: seq<byte>)
    ensures (a + b) + c == a + (b + c)
  {
  }

  /** The loop over the fields; a length that does not fit four bytes raises. */
  method CanonicalPayload(domain: seq<byte>, fields: seq<seq<byte>>) returns (r: Result<seq<byte>>)
    ensures r.Ok? <==> Framable(fields)
    ensures r.Ok? ==> r.value == domain + PrefixedAll(fields)
  {
    var out := domain;
    for i := 0 to |fields|
      invariant Framable(fields[..i])
      invariant out + PrefixedAll(fields[i..]) == domain + PrefixedAll(fields)
    {
      var field := fields[i];
      if |field| >= U32_LIMIT {
        return Raised;
      }
      ghost var rest := fields[i + 1..];
      assert PrefixedAll(fields[i..]) == Prefixed(field) + PrefixedAll(rest) by {
        assert fields[i..][1..] == rest;
      }
      Assoc(out, BigEndian(|field|, 4), field);
      Assoc(out, Prefixed(field), PrefixedAll(rest));
      out := out + BigEndian(|field|, 4);
      out := out + field;
      assert fields[..i + 1] == fields[..i] + [field];
    }
    assert fields[..|fields|] == fields;
    return Ok(out);
  }

  /** A reader of one field and what follows it. */
  function ReadField(s: seq<byte>): (r: Option<(seq<byte>, seq<byte>)>)
    ensures r.Some? ==> |r.value.1| < |s|
  {
    if |s| < 4 then None
    else
      var n := FromBigEndian(s[..4]);
      if |s| < 4 + n then None else Some((s[4..4 + n], s[4 + n..]))
  }

  function ReadFields(s: seq<byte>): Option<seq<seq<byte>>>
    decreases |s|
  {
    if s == [] then Some([])
    else
      var (field, rest) :- ReadField(s);
      var fields :- ReadFields(rest);
      Some([field] + fields)
  }

  lemma ReadFieldInverts(field: seq<byte>, rest: seq<byte>)
    requires |field| < U32_LIMIT
    ensures ReadField(Prefixed(field) + rest) == Some((field, rest))
  {
    var s := Prefixed(field) + rest;
    Limits();
    BigEndianRoundTrip(|field|, 4);
    assert s[..4] == BigEndian(|field|, 4);
    assert s[4..4 + |field|] == field;
    assert s[4 + |field|..] == rest;
  }

  lemma {:induction false} ReadFieldsInverts(fields: seq<seq<byte>>)
    requires Framable(fields)
    ensures ReadFields(PrefixedAll(fields)) == Some(fields)
  {
    if fields != [] {
      ReadFieldInverts(fields[0], PrefixedAll(fields[1..]));
      ReadFieldsInverts(fields[1..]);
      assert fields == [fields[0]] + fields[1..];
    }
  }

  /** Under one domain, a payload determines its fields, however many there are. */
  lemma PayloadDeterminesFields(domain: seq<byte>, f: seq<seq<byte>>, g: seq<seq<byte>>)
    requires Framable(f) && Framable(g)
    ensures domain + PrefixedAll(f) == domain + PrefixedAll(g) <==> f == g
  {
    if domain + PrefixedAll(f) == domain + PrefixedAll(g) {
      assert PrefixedAll(f) == (domain + PrefixedAll(f))[|domain|..];
      assert PrefixedAll(g) == (domain + PrefixedAll(g))[|domain|..];
      ReadFieldsInverts(f);
      ReadFieldsInverts(g);
    }
  }

  // -- address proofs -------------------------------------------------------------------

  /** The address is a field; the challenge is appended raw. */
  function AddressProofPayload(domain: seq<byte>, address: string, challenge: seq<byte>): Result<seq<byte>>
  {
    var encoded := Utf.Utf8(address);
    if |encoded| < U32_LIMIT then Ok(domain + PrefixedAll([encoded]) + challenge) else Raised
  }

  /** The relay's twin, written out without the shared builder. */
  function RelayProofPayload(account: string, challenge: seq<byte>): Result<seq<byte>>
  {
    var encoded := Utf.Utf8(account);
    if |encoded| < U32_LIMIT then Ok(RELAY_ADDR_DOMAIN + BigEndian(|encoded|, 4) + encoded + challenge) else Raised
  }

  lemma ProofLayout(domain: seq<byte>, address: string, challenge: seq<byte>)
    requires |Utf.Utf8(address)| < U32_LIMIT
    ensures AddressProofPayload(domain, address, challenge) == Ok(domain + (Prefixed(Utf.Utf8(address)) + challenge))
  {
    var encoded := Utf.Utf8(address);
    var one: seq<seq<byte>> := [encoded];
    assert one[1..] == [];
    assert PrefixedAll([encoded]) == Prefixed(encoded) + [] == Prefixed(encoded);
    Assoc(domain, Prefixed(encoded), challenge);
  }

  /** Both builders lay a relay proof out alike. */
  lemma RelayProofIsAddressProof(account: string, challenge: seq<byte>)
    ensures RelayProofPayload(account, challenge) == AddressProofPayload(RELAY_ADDR_DOMAIN, account, challenge)
  {
    if |Utf.Utf8(account)| < U32_LIMIT {
      var encoded := Utf.Utf8(account);
      ProofLayout(RELAY_ADDR_DOMAIN, account, challenge);
      Assoc(RELAY_ADDR_DOMAIN, BigEndian(|encoded|, 4), encoded);
      Assoc(RELAY_ADDR_DOMAIN, Prefixed(encoded), challenge);
    }
  }

  /** A proof determines the address and the challenge it commits to. */
  lemma ProofDetermines(domain: seq<byte>, a: string, c: seq<byte>, b: string, d: seq<byte>)
    requires AddressProofPayload(domain, a, c).Ok? && AddressProofPayload(domain, b, d).Ok?
    ensures AddressProofPayload(domain, a, c) == AddressProofPayload(domain, b, d) <==> a == b && c == d
  {
    ProofLayout(domain, a, c);
    ProofLayout(domain, b, d);
    if AddressProofPayload(domain, a, c) == AddressProofPayload(domain, b, d) {
      var s, t := Prefixed(Utf.Utf8(a)) + c, Prefixed(Utf.Utf8(b)) + d;
      assert s == (domain + s)[|domain|..] && t == (domain + t)[|domain|..];
      ReadFieldInverts(Utf.Utf8(a), c);
      ReadFieldInverts(Utf.Utf8(b), d);
      Utf.Utf8Injective(a, b);
    }
  }

  /** What a verifier reads after the domain: the address as a field, then the challenge and nothing more. */
  lemma ProofReadsBack(domain: seq<byte>, address: string, challenge: seq<byte>)
    ensures AddressProofPayload(domain, address, challenge).Ok? <==> |Utf.Utf8(address)| < U32_LIMIT
    ensures AddressProofPayload(domain, address, challenge).Ok? ==>
              var payload := AddressProofPayload(domain, address, challenge).value;
              && domain <= payload
              && ReadField(payload[|domain|..]) == Some((Utf.Utf8(address), challenge))
  {
    if |Utf.Utf8(address)| < U32_LIMIT {
      ProofLayout(domain, address, challenge);
      var s := Prefixed(Utf.Utf8(address)) + challenge;
      assert (domain + s)[|domain|..] == s;
      ReadFieldInverts(Utf.Utf8(address), challenge);
    }
  }

  // -- domains ------------------------------------------------------------------------------

  function Ascii(s: string): (r: seq<byte>)
    requires forall i :: 0 <= i < |s| ==> s[i] as int < 128
    ensures |r| == |s|
  {
    seq(|s|, i requires 0 <= i < |s| => s[i] as int)
  }

  const CTRL_DOMAIN_V1 := Ascii("offline-ctrl-v1")
  const CTRL_DOMAIN_V2 := Ascii("offline-ctrl-v2")
  const DISC_DOMAIN := Ascii("offline-disc-v1")
  const INVITE_DOMAIN := Ascii("offline-invite-v1")
  const RELAY_ADDR_DOMAIN := Ascii("offline-relay-addr-v1")
  const GATEWAY_ADDR_DOMAIN := Ascii("offline-gateway-addr-v1")

  const LIVE_DOMAINS := [
    CTRL_DOMAIN_V1, CTRL_DOMAIN_V2, DISC_DOMAIN, INVITE_DOMAIN, RELAY_ADDR_DOMAIN, GATEWAY_ADDR_DOMAIN]

  /** Two different live domains differ at a place both have: at the ninth byte, or the control pair at its last. */
  lemma DomainsDiffer(i: nat, j: nat)
    requires i < j < |LIVE_DOMAINS|
    ensures |LIVE_DOMAINS[i]| > 14 && |LIVE_DOMAINS[j]| > 14
    ensures LIVE_DOMAINS[i][8] != LIVE_DOMAINS[j][8] || LIVE_DOMAINS[i][14] != LIVE_DOMAINS[j][14]
  {
    assert CTRL_DOMAIN_V1[8] == 'c' as int && CTRL_DOMAIN_V1[14] == '1' as int;
    assert CTRL_DOMAIN_V2[8] == 'c' as int && CTRL_DOMAIN_V2[14] == '2' as int;
    assert DISC_DOMAIN[8] == 'd' as int;
    assert INVITE_DOMAIN[8] == 'i' as int;
    assert RELAY_ADDR_DOMAIN[8] == 'r' as int;
    assert GATEWAY_ADDR_DOMAIN[8] == 'g' as int;
  }

  /** Nothing signed under one live domain is ever the bytes signed under another, whatever follows either. */
  lemma DomainsSeparate(i: nat, j: nat, x: seq<byte>, y: seq<byte>)
    requires i < |LIVE_DOMAINS| && j < |LIVE_DOMAINS| && i != j
    ensures LIVE_DOMAINS[i] + x != LIVE_DOMAINS[j] + y
  {
    var d, e := LIVE_DOMAINS[i], LIVE_DOMAINS[j];
    DomainsDiffer(if i < j then i else j, if i < j then j else i);
    assert (d + x)[8] == d[8] && (e + y)[8] == e[8];
    assert (d + x)[14] == d[14] && (e + y)[14] == e[14];
  }

  // -- control messages -------------------------------------------------------------------------

  /** `t.to_bytes(8, "big", signed=True)` for a `t` that fits. */
  function SignedBigEndian(t: int): (r: seq<byte>)
    requires -TWO_63 <= t < TWO_63
    ensures |r| == 8
  {
    BigEndian(if t < 0 then t + TWO_64 else t, 8)
  }

  lemma SignedBigEndianInjective(t: int, u: int)
    requires -TWO_63 <= t < TWO_63 && -TWO_63 <= u < TWO_63
    requires SignedBigEndian(t) == SignedBigEndian(u)
    ensures t == u
  {
    Limits();
    BigEndianRoundTrip(if t < 0 then t + TWO_64 else t, 8);
    BigEndianRoundTrip(if u < 0 then u + TWO_64 else u, 8);
  }

  datatype Control = Control(sender: string, msgId: string, recipient: string, content: string)

  function ControlFields(c: Control): (r: seq<seq<byte>>)
    ensures |r| == 4
  {
    [Utf.Utf8(c.sender), Utf.Utf8(c.msgId), Utf.Utf8(c.recipient), Utf.Utf8(c.content)]
  }

  function CtrlPayloadV1(c: Control): Result<seq<byte>>
  {
    var fields := ControlFields(c);
    if Framable(fields) then Ok(CTRL_DOMAIN_V1 + PrefixedAll(fields)) else Raised
  }

  function CtrlPayloadV2(c: Control, timestampMs: int): Result<seq<byte>>
  {
    if -TWO_63 <= timestampMs < TWO_63 && Framable(ControlFields(c)) then
      Ok(CTRL_DOMAIN_V2 + PrefixedAll(ControlFields(c) + [SignedBigEndian(timestampMs)]))
    else
      Raised
  }

  /** What a verifier of the first version reads: sender, id, recipient and content, in that order. */
  lemma CtrlV1ReadsBack(c: Control)
    requires CtrlPayloadV1(c).Ok?
    ensures var payload := CtrlPayloadV1(c).value;
            && |payload| >= 15 && payload[..15] == Ascii("offline-ctrl-v1")
            && ReadFields(payload[15..]) ==
               Some([Utf.Utf8(c.sender), Utf.Utf8(c.msgId), Utf.Utf8(c.recipient), Utf.Utf8(c.content)])
  {
    ReadFieldsInverts(ControlFields(c));
    assert CtrlPayloadV1(c).value[15..] == PrefixedAll(ControlFields(c));
  }

  /** The second version adds the time, as eight bytes of two's complement. */
  lemma CtrlV2ReadsBack(c: Control, t: int)
    requires CtrlPayloadV2(c, t).Ok?
    ensures var payload := CtrlPayloadV2(c, t).value;
            && |payload| >= 15 && payload[..15] == Ascii("offline-ctrl-v2")
            && var fields := ReadFields(payload[15..]);
            && fields.Some? && |fields.value| == 5 && |fields.value[4]| == 8
            && fields.value[..4] == [Utf.Utf8(c.sender), Utf.Utf8(c.msgId), Utf.Utf8(c.recipient), Utf.Utf8(c.content)]
            && t == FromBigEndian(fields.value[4]) - (if FromBigEndian(fields.value[4]) < TWO_63 then 0 else TWO_64)
  {
    var fields := ControlFields(c) + [SignedBigEndian(t)];
    ReadFieldsInverts(fields);
    assert CtrlPayloadV2(c, t).value[15..] == PrefixedAll(fields);
    assert fields[..4] == ControlFields(c);
    Limits();
    BigEndianRoundTrip(if t < 0 then t + TWO_64 else t, 8);
  }

  lemma ControlFieldsInjective(c: Control, d: Control)
    requires ControlFields(c) == ControlFields(d)
    ensures c == d
  {
    var f, g := ControlFields(c), ControlFields(d);
    assert f[0] == g[0] && f[1] == g[1] && f[2] == g[2] && f[3] == g[3];
    Utf.Utf8Injective(c.sender, d.sender);
    Utf.Utf8Injective(c.msgId, d.msgId);
    Utf.Utf8Injective(c.recipient, d.recipient);
    Utf.Utf8Injective(c.content, d.content);
  }

  lemma CtrlV1Determines(c: Control, d: Control)
    requires CtrlPayloadV1(c).Ok? && CtrlPayloadV1(d).Ok?
    ensures CtrlPayloadV1(c) == CtrlPayloadV1(d) <==> c == d
  {
    PayloadDeterminesFields(CTRL_DOMAIN_V1, ControlFields(c), ControlFields(d));
    if ControlFields(c) == ControlFields(d) {
      ControlFieldsInjective(c, d);
    }
  }

  lemma CtrlV2Determines(c: Control, t: int, d: Control, u: int)
    requires CtrlPayloadV2(c, t).Ok? && CtrlPayloadV2(d, u).Ok?
    ensures CtrlPayloadV2(c, t) == CtrlPayloadV2(d, u) <==> c == d && t == u
  {
    var f := ControlFields(c) + [SignedBigEndian(t)];
    var g := ControlFields(d) + [SignedBigEndian(u)];
    PayloadDeterminesFields(CTRL_DOMAIN_V2, f, g);
    if f == g {
      assert f[4] == g[4] && f[..4] == ControlFields(c) && g[..4] == ControlFields(d);
      ControlFieldsInjective(c, d);
      SignedBigEndianInjective(t, u);
    }
  }

  /** A v1 payload with anything appended, a timestamp included, is never a v2 payload. */
  lemma V1NeverV2(c: Control, d: Control, t: int, stamp: seq<byte>)
    requires CtrlPayloadV1(c).Ok? && CtrlPayloadV2(d, t).Ok?
    ensures CtrlPayloadV1(c).value + stamp != CtrlPayloadV2(d, t).value
  {
    var f := PrefixedAll(ControlFields(c));
    Assoc(CTRL_DOMAIN_V1, f, stamp);
    DomainsSeparate(0, 1, f + stamp, PrefixedAll(ControlFields(d) + [SignedBigEndian(t)]));
  }
}
