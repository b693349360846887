/** Service descriptors as DNS-SD TXT records (sections 6.1 to 6.4 of RFC 6763), written and read back. */
module DnsSd {
  import opened Basics
  import opened Ordering
  import opened Utf

  const TXT_VERSION := "1"
  const MAX_TXT_STRING_BYTES := 255
  const MAX_SID_BYTES := 200
  const MAX_TXT_RECORD_BYTES := 1300
  const ADDRESS_PREFIX := "off1"
  const CAPABILITY_PREFIX := "c."
  const EQUALS: byte := 61

  datatype Source = Local | Mesh | Lan

  /** A dict of strings, in insertion order. */
  type Dict = d: seq<(string, string)> | DistinctKeys(d)

  predicate DistinctKeys(d: seq<(string, string)>)
  {
    forall i, j :: 0 <= i < j < |d| ==> d[i].0 != d[j].0
  }

  datatype ServiceRecord = ServiceRecord(
    serviceId: string, version: string, capabilities: Dict, provider: string, source: Source)

  // -- keys -------------------------------------------------------------------------

  predicate KeyChar(c: char)
  {
    0x20 <= c as int <= 0x7E && c != '='
  }

  /** What the key check lets through: printable ASCII without `=`, and not empty. */
  predicate KeyOk(key: string)
  {
    key != "" && forall i :: 0 <= i < |key| ==> KeyChar(key[i])
  }

  function LowerChar(c: char): (r: char)
    ensures KeyChar(c) ==> KeyChar(r)
  {
    if 'A' <= c <= 'Z' then (c as int + 32) as char else c
  }

  /** `s.lower()` for ASCII. */
  function Lower(s: string): (r: string)
    ensures |r| == |s|
  {
    seq(|s|, i requires 0 <= i < |s| => LowerChar(s[i]))
  }

  lemma LowerFacts(s: string)
    ensures Lower(Lower(s)) == Lower(s)
    ensures KeyOk(s) ==> KeyOk(Lower(s))
    ensures Lower(CAPABILITY_PREFIX + s) == CAPABILITY_PREFIX + Lower(s)
  {
  }

  // -- writing --------------------------------------------------------------------------

  predicate CapabilitiesOk(caps: seq<(string, string)>)
  {
    && (forall i :: 0 <= i < |caps| ==> KeyOk(caps[i].0))
    && (forall i, j :: 0 <= i < j < |caps| ==> Lower(caps[i].0) != Lower(caps[j].0))
  }

  /** The check of the capability keys, folding as it goes. */
  method CheckCapabilities(caps: Dict) returns (ok: bool)
    ensures ok <==> CapabilitiesOk(caps)
  {
    var folded: map<string, string> := map[];
    for i := 0 to |caps|
      invariant CapabilitiesOk(caps[..i])
      invariant forall j :: 0 <= j < i ==> Lower(caps[j].0) in folded && folded[Lower(caps[j].0)] == caps[j].0
      invariant forall k :: k in folded ==> exists j :: 0 <= j < i && k == Lower(caps[j].0)
    {
      var key := caps[i].0;
      var good := CheckKey(key);
      if !good {
        return false;
      }
      if Lower(key) !in folded {
        folded := folded[Lower(key) := key];
      } else if folded[Lower(key)] != key {
        return false;
      }
      assert caps[..i + 1] == caps[..i] + [caps[i]];
    }
    assert caps[..|caps|] == caps;
    return true;
  }

  method CheckKey(key: string) returns (ok: bool)
    ensures ok <==> KeyOk(key)
  {
    if key == "" {
      return false;
    }
    for i := 0 to |key|
      invariant forall j :: 0 <= j < i ==> KeyChar(key[j])
    {
      var code := key[i] as int;
      if code < 0x20 || code > 0x7E || key[i] == '=' {
        return false;
      }
    }
    return true;
  }

  const ByFoldedKey: ((string, string)) -> seq<int> := (kv: (string, string)) => Utf8(Lower(kv.0))

  function CapabilityEntries(caps: seq<(string, string)>): (r: seq<(string, string)>)
    ensures |r| == |caps|
  {
    seq(|caps|, i requires 0 <= i < |caps| => (CAPABILITY_PREFIX + caps[i].0, caps[i].1))
  }

  function FixedEntries(sid: string, version: string, address: string): seq<(string, string)>
  {
    [("txtvers", TXT_VERSION)] + [("sid", sid)] + [("ver", version)] + [("addr", address)]
  }

  /** The entries of a descriptor's record, fixed keys first. */
  function Layout(record: ServiceRecord, address: string): seq<(string, string)>
  {
    FixedEntries(record.serviceId, record.version, address) +
    CapabilityEntries(Sorted(record.capabilities, ByFoldedKey))
  }

  lemma EntryPerCapability(caps: seq<(string, string)>, kv: (string, string))
    ensures ("c." + kv.0, kv.1) in CapabilityEntries(caps) <==> kv in caps
  {
    var entries := CapabilityEntries(caps);
    if kv in caps {
      var i :| 0 <= i < |caps| && caps[i] == kv;
      assert entries[i] == ("c." + kv.0, kv.1);
    }
    if ("c." + kv.0, kv.1) in entries {
      var i :| 0 <= i < |entries| && entries[i] == ("c." + kv.0, kv.1);
      assert entries[i].0[2..] == caps[i].0 && ("c." + kv.0)[2..] == kv.0;
    }
  }

  /** The fixed entries come first under their own names, then a prefixed entry per capability by folded key. */
  lemma LayoutOrder(record: ServiceRecord, address: string, kv: (string, string))
    ensures |Layout(record, address)| == 4 + |record.capabilities|
    ensures Layout(record, address)[..4] ==
            [("txtvers", "1"), ("sid", record.serviceId), ("ver", record.version), ("addr", address)]
    ensures ("c." + kv.0, kv.1) in Layout(record, address)[4..] <==> kv in record.capabilities
  {
    var sorted := Sorted(record.capabilities, ByFoldedKey);
    SortedIsSort(record.capabilities, ByFoldedKey);
    EntryPerCapability(sorted, kv);
    assert Layout(record, address)[4..] == CapabilityEntries(sorted);
  }

  lemma CapabilitiesByFoldedKey(record: ServiceRecord, address: string, i: nat, j: nat)
    requires 4 <= i < j < |Layout(record, address)|
    ensures var (k, l) := (Layout(record, address)[i].0, Layout(record, address)[j].0);
            |k| >= 2 && |l| >= 2 && LexLe(Utf8(Lower(k[2..])), Utf8(Lower(l[2..])))
  {
    var sorted := Sorted(record.capabilities, ByFoldedKey);
    SortedIsSort(record.capabilities, ByFoldedKey);
    var (a, b) := (sorted[i - 4], sorted[j - 4]);
    assert LexLe(ByFoldedKey(a), ByFoldedKey(b));
    assert Layout(record, address)[i].0[2..] == a.0 && Layout(record, address)[j].0[2..] == b.0;
  }

  function StringSize(entry: (string, string)): nat
  {
    |Utf8(entry.0)| + 1 + |Utf8(entry.1)|
  }

  /** The record's size on the wire: one length octet per string. */
  function TxtRecordSize(entries: seq<(string, string)>): nat
  {
    if entries == [] then 0 else 1 + StringSize(entries[0]) + TxtRecordSize(entries[1..])
  }

  predicate StringsFit(entries: seq<(string, string)>)
  {
    forall i :: 0 <= i < |entries| ==> StringSize(entries[i]) <= MAX_TXT_STRING_BYTES
  }

  /** Everything a publisher's record is refused for. */
  predicate Publishable(record: ServiceRecord, address: string)
  {
    && ADDRESS_PREFIX <= address
    && |Utf8(record.serviceId)| <= MAX_SID_BYTES
    && CapabilitiesOk(record.capabilities)
    && StringsFit(Layout(record, address))
    && TxtRecordSize(Layout(record, address)) <= MAX_TXT_RECORD_BYTES
  }

  method CheckStrings(entries: seq<(string, string)>) returns (ok: bool)
    ensures ok <==> StringsFit(entries)
  {
    for i := 0 to |entries|
      invariant forall j :: 0 <= j < i ==> StringSize(entries[j]) <= MAX_TXT_STRING_BYTES
    {
      if StringSize(entries[i]) > MAX_TXT_STRING_BYTES {
        return false;
      }
    }
    return true;
  }

  method TxtRecord(record: ServiceRecord, address: string) returns (r: Result<seq<(string, string)>>)
    ensures r.Ok? <==> Publishable(record, address)
    ensures r.Ok? ==> r.value == Layout(record, address)
  {
    if !(ADDRESS_PREFIX <= address) {
      return Raised;
    }
    if |Utf8(record.serviceId)| > MAX_SID_BYTES {
      return Raised;
    }
    var ok := CheckCapabilities(record.capabilities);
    if !ok {
      return Raised;
    }
    var entries := Layout(record, address);
    var fit := CheckStrings(entries);
    if !fit {
      return Raised;
    }
    if TxtRecordSize(entries) > MAX_TXT_RECORD_BYTES {
      return Raised;
    }
    return Ok(entries);
  }

  // -- the wire form ------------------------------------------------------------------------

  /** One `key=value` string. */
  function EntryBytes(entry: (string, string)): (r: seq<byte>)
    ensures |r| == StringSize(entry)
  {
    Utf8(entry.0) + [EQUALS] + Utf8(entry.1)
  }

  /** The record's strings, each behind its length octet. */
  function Wire(entries: seq<(string, string)>): seq<byte>
    requires StringsFit(entries)
  {
    if entries == [] then [] else [StringSize(entries[0])] + EntryBytes(entries[0]) + Wire(entries[1..])
  }

  lemma {:induction false} WireSize(entries: seq<(string, string)>)
    requires StringsFit(entries)
    ensures |Wire(entries)| == TxtRecordSize(entries)
  {
    if entries != [] {
      WireSize(entries[1..]);
    }
  }

  // -- reading ----------------------------------------------------------------------------------

  type Pair = (seq<byte>, Option<seq<byte>>)

  /** Index of the first `=` at or after `from`, or the length when there is none. */
  function FirstEquals(s: seq<byte>, from: nat): (i: nat)
    requires from <= |s|
    ensures from <= i <= |s|
    decreases |s| - from
  {
    if from == |s| || s[from] == EQUALS then from else FirstEquals(s, from + 1)
  }

  /** A string with no `=` is a key with no value. */
  function Partition(s: seq<byte>): Pair
  {
    var i := FirstEquals(s, 0);
    if i < |s| then (s[..i], Some(s[i + 1..])) else (s, None)
  }

  /** What one string contributes: nothing when it is empty. */
  function Contribution(s: seq<byte>): seq<Pair>
  {
    if s == [] then [] else [Partition(s)]
  }

  function Prepend(pairs: seq<Pair>, rest: Option<seq<Pair>>): Option<seq<Pair>>
  {
    if rest.None? then None else Some(pairs + rest.value)
  }

  /** The strings of a record from `offset` on; `None` when a length octet runs past the end. */
  function StringsFrom(raw: seq<byte>, offset: nat): Option<seq<seq<byte>>>
    requires offset <= |raw|
    decreases |raw| - offset
  {
    if offset == |raw| then Some([])
    else
      var end := offset + 1 + raw[offset];
      if end > |raw| then None
      else
        var rest :- StringsFrom(raw, end);
        Some([raw[offset + 1..end]] + rest)
  }

  function Pairs(strings: seq<seq<byte>>): seq<Pair>
  {
    if strings == [] then [] else Contribution(strings[0]) + Pairs(strings[1..])
  }

  function ParsedFrom(raw: seq<byte>, offset: nat): Option<seq<Pair>>
    requires offset <= |raw|
  {
    var strings :- StringsFrom(raw, offset);
    Some(Pairs(strings))
  }

  lemma ParsedOne(raw: seq<byte>, offset: nat)
    requires offset < |raw| && offset + 1 + raw[offset] <= |raw|
    ensures var end := offset + 1 + raw[offset];
            ParsedFrom(raw, offset) == Prepend(Contribution(raw[offset + 1..end]), ParsedFrom(raw, end))
  {
    var end := offset + 1 + raw[offset];
    var rest := StringsFrom(raw, end);
    if rest.Some? {
      assert ([raw[offset + 1..end]] + rest.value)[1..] == rest.value;
    }
  }

  function Parsed(raw: seq<byte>): Option<seq<Pair>>
  {
    ParsedFrom(raw, 0)
  }

  lemma PrependTwice(a: seq<Pair>, b: seq<Pair>, rest: Option<seq<Pair>>)
    ensures Prepend(a, Prepend(b, rest)) == Prepend(a + b, rest)
    ensures Prepend([], rest) == rest
  {
    if rest.Some? {
      assert a + (b + rest.value) == (a + b) + rest.value;
      assert [] + rest.value == rest.value;
    }
  }

  /** One string read off the record; `None` when its length octet runs past the end. */
  method NextString(raw: seq<byte>, offset: nat) returns (s: Option<seq<byte>>)
    requires offset < |raw|
    ensures s.None? ==> ParsedFrom(raw, offset) == None
    ensures s.Some? ==>
              && offset + 1 + |s.value| <= |raw|
              && ParsedFrom(raw, offset) == Prepend(Contribution(s.value), ParsedFrom(raw, offset + 1 + |s.value|))
  {
    var length := raw[offset] as int;
    if offset + 1 + length > |raw| {
      return None;
    }
    ParsedOne(raw, offset);
    return Some(raw[offset + 1..offset + 1 + length]);
  }

  lemma PrependOne(pairs: seq<Pair>, s: seq<byte>, rest: Option<seq<Pair>>)
    ensures s == [] ==> Prepend(pairs, Prepend(Contribution(s), rest)) == Prepend(pairs, rest)
    ensures s != [] ==> Prepend(pairs, Prepend(Contribution(s), rest)) == Prepend(pairs + [Partition(s)], rest)
  {
    PrependTwice(pairs, Contribution(s), rest);
    assert pairs + [] == pairs;
  }

  method ParseTxt(raw: seq<byte>) returns (r: Option<seq<Pair>>)
    ensures r == Parsed(raw)
  {
    var pairs: seq<Pair> := [];
    var offset := 0;
    PrependTwice([], [], Parsed(raw));
    while offset < |raw|
      invariant 0 <= offset <= |raw|
      invariant Parsed(raw) == Prepend(pairs, ParsedFrom(raw, offset))
    {
      var s := NextString(raw, offset);
      if s.None? {
        return None;
      }
      offset := offset + 1 + |s.value|;
      PrependOne(pairs, s.value, ParsedFrom(raw, offset));
      if s.value == [] {
        continue;
      }
      pairs := pairs + [Partition(s.value)];
    }
    assert pairs + [] == pairs;
    return Some(pairs);
  }

  /** `y` is what `x` holds from place `d` on. */
  predicate EndsIn(x: seq<byte>, d: nat, y: seq<byte>)
  {
    |x| == d + |y| && forall p :: 0 <= p < |y| ==> y[p] == x[d + p]
  }

  lemma SameSlice(x: seq<byte>, d: nat, y: seq<byte>, i: nat, j: nat)
    requires EndsIn(x, d, y) && i <= j <= |y|
    ensures x[d + i..d + j] == y[i..j]
  {
  }

  /** What is read from a place on depends only on what is there. */
  lemma {:induction false} StringsShift(x: seq<byte>, d: nat, y: seq<byte>, k: nat)
    requires EndsIn(x, d, y) && k <= |y|
    ensures StringsFrom(x, d + k) == StringsFrom(y, k)
    decreases |y| - k
  {
    if k < |y| {
      var end := k + 1 + y[k];
      if end <= |y| {
        StringsShift(x, d, y, end);
        SameSlice(x, d, y, k + 1, end);
      }
    }
  }

  /** `b.decode("ascii")`. */
  function AsciiDecode(b: seq<byte>): Option<string>
  {
    if forall i :: 0 <= i < |b| ==> b[i] < 128 then
      Some(seq(|b|, i requires 0 <= i < |b| => b[i] as char))
    else None
  }

  /** What the reader has gathered: every key seen, the fixed fields, the capabilities. */
  datatype Gathered = Gathered(seen: set<string>, fields: map<string, string>, capabilities: Dict)

  predicate FixedKey(name: string)
  {
    name == "txtvers" || name == "sid" || name == "ver" || name == "addr"
  }

  predicate CapabilityKey(name: string)
  {
    |name| > 2 && CAPABILITY_PREFIX <= name
  }

  ghost predicate GatheredOk(g: Gathered)
  {
    forall i :: 0 <= i < |g.capabilities| ==> CAPABILITY_PREFIX + g.capabilities[i].0 in g.seen
  }

  /** The folded name and decoded text of one string, unless the record is to be ignored for it. */
  function ReadEntry(pair: Pair): Option<(string, string)>
  {
    var key :- AsciiDecode(pair.0);
    if !KeyOk(Lower(key)) then None
    else
      var text :- (if pair.1.None? then Some("") else Utf8Decode(pair.1.value));
      Some((Lower(key), text))
  }

  function Gather(g: Gathered, name: string, text: string): (r: Gathered)
    requires GatheredOk(g) && name !in g.seen
    ensures GatheredOk(r)
  {
    var seen := g.seen + {name};
    if FixedKey(name) then g.(seen := seen, fields := g.fields[name := text])
    else if CapabilityKey(name) then
      assert name == CAPABILITY_PREFIX + name[2..];
      assert forall i :: 0 <= i < |g.capabilities| ==> CAPABILITY_PREFIX + g.capabilities[i].0 != name;
      g.(seen := seen, capabilities := g.capabilities + [(name[2..], text)])
    else g.(seen := seen)
  }

  function GatherAll(g: Gathered, pairs: seq<Pair>): (r: Option<Gathered>)
    requires GatheredOk(g)
    ensures r.Some? ==> GatheredOk(r.value)
    decreases |pairs|
  {
    if pairs == [] then Some(g)
    else
      var (name, text) :- ReadEntry(pairs[0]);
      if name in g.seen then None else GatherAll(Gather(g, name, text), pairs[1..])
  }

  const NOTHING := Gathered({}, map[], [])

  /** The record the gathered fields make, if they make one. */
  function Assemble(g: Gathered): Option<ServiceRecord>
  {
    if "txtvers" !in g.fields || g.fields["txtvers"] != TXT_VERSION then None
    else if "sid" !in g.fields || g.fields["sid"] == "" || |Utf8(g.fields["sid"])| > MAX_SID_BYTES then None
    else if "addr" !in g.fields || g.fields["addr"] == "" || !(ADDRESS_PREFIX <= g.fields["addr"]) then None
    else
      var version := if "ver" in g.fields then g.fields["ver"] else "";
      Some(ServiceRecord(g.fields["sid"], version, g.capabilities, g.fields["addr"], Lan))
  }

  function RecordOf(raw: seq<byte>): Option<ServiceRecord>
  {
    var pairs :- Parsed(raw);
    if |raw| > MAX_TXT_RECORD_BYTES then None
    else
      var g :- GatherAll(NOTHING, pairs);
      Assemble(g)
  }

  method RecordFromTxt(raw: seq<byte>) returns (r: Option<ServiceRecord>)
    ensures r == RecordOf(raw)
  {
    var parsed := ParseTxt(raw);
    if parsed.None? || |raw| > MAX_TXT_RECORD_BYTES {
      return None;
    }
    var pairs := parsed.value;
    var g := NOTHING;
    for i := 0 to |pairs|
      invariant GatheredOk(g)
      invariant GatherAll(NOTHING, pairs) == GatherAll(g, pairs[i..])
    {
      assert pairs[i..][1..] == pairs[i + 1..];
      var entry := ReadEntry(pairs[i]);
      if entry.None? || entry.value.0 in g.seen {
        return None;
      }
      g := Gather(g, entry.value.0, entry.value.1);
    }
    return Assemble(g);
  }

  // -- what is written is read back -------------------------------------------------------------

  lemma {:induction false} Utf8OfAscii(s: string)
    requires forall i :: 0 <= i < |s| ==> s[i] as int < 128
    ensures |Utf8(s)| == |s| && forall i :: 0 <= i < |s| ==> Utf8(s)[i] == s[i] as int
  {
    if s != [] {
      Utf8OfAscii(s[1..]);
    }
  }

  lemma KeyBytes(key: string)
    requires KeyOk(key)
    ensures EQUALS !in Utf8(key) && AsciiDecode(Utf8(key)) == Some(key)
  {
    Utf8OfAscii(key);
    var b := Utf8(key);
    forall i | 0 <= i < |b| ensures b[i] != EQUALS && b[i] < 128 && b[i] as char == key[i] {
      assert KeyChar(key[i]);
    }
    assert AsciiDecode(b).value == key;
  }

  lemma {:induction false} FirstEqualsAt(s: seq<byte>, from: nat, at: nat)
    requires from <= at < |s| && s[at] == EQUALS && forall i :: from <= i < at ==> s[i] != EQUALS
    ensures FirstEquals(s, from) == at
    decreases at - from
  {
    if from < at {
      FirstEqualsAt(s, from + 1, at);
    }
  }

  function WirePair(entry: (string, string)): Pair
  {
    (Utf8(entry.0), Some(Utf8(entry.1)))
  }

  lemma PartitionEntry(entry: (string, string))
    requires KeyOk(entry.0)
    ensures Partition(EntryBytes(entry)) == WirePair(entry)
    ensures ReadEntry(WirePair(entry)) == Some((Lower(entry.0), entry.1))
  {
    var key, value := Utf8(entry.0), Utf8(entry.1);
    KeyBytes(entry.0);
    FirstEqualsAt(key + [EQUALS] + value, 0, |key|);
    assert (key + [EQUALS] + value)[..|key|] == key;
    assert (key + [EQUALS] + value)[|key| + 1..] == value;
    LowerFacts(entry.0);
    Utf8RoundTrip(entry.1);
  }

  predicate KeysOk(entries: seq<(string, string)>)
  {
    forall i :: 0 <= i < |entries| ==> KeyOk(entries[i].0)
  }

  function WirePairs(entries: seq<(string, string)>): seq<Pair>
  {
    if entries == [] then [] else [WirePair(entries[0])] + WirePairs(entries[1..])
  }

  lemma {:induction false} ParsedWire(entries: seq<(string, string)>)
    requires StringsFit(entries) && KeysOk(entries)
    ensures Parsed(Wire(entries)) == Some(WirePairs(entries))
  {
    if entries != [] {
      ParsedWire(entries[1..]);
      PartitionEntry(entries[0]);
      OneString(EntryBytes(entries[0]), Wire(entries[1..]));
    }
  }

  lemma FirstString(s: seq<byte>, rest: seq<byte>, raw: seq<byte>)
    requires |s| <= 255 && raw == [|s|] + s + rest
    ensures |raw| == 1 + |s| + |rest| && raw[0] == |s| && raw[1..1 + |s|] == s && EndsIn(raw, 1 + |s|, rest)
  {
  }

  lemma OneString(s: seq<byte>, rest: seq<byte>)
    requires 0 < |s| <= 255
    ensures Parsed([|s|] + s + rest) == Prepend([Partition(s)], Parsed(rest))
  {
    var raw: seq<byte> := [|s|] + s + rest;
    FirstString(s, rest, raw);
    StringsShift(raw, 1 + |s|, rest, 0);
    ParsedOne(raw, 0);
  }

  /** Capabilities under their folded keys. */
  function Folded(caps: seq<(string, string)>): (r: seq<(string, string)>)
    ensures |r| == |caps|
  {
    seq(|caps|, i requires 0 <= i < |caps| => (Lower(caps[i].0), caps[i].1))
  }

  predicate Fresh(seen: set<string>, caps: seq<(string, string)>)
  {
    forall i :: 0 <= i < |caps| ==> CAPABILITY_PREFIX + Lower(caps[i].0) !in seen
  }

  /** One more capability string adds one more capability. */
  lemma GatherCapability(g: Gathered, key: string, text: string)
    requires GatheredOk(g) && KeyOk(key) && CAPABILITY_PREFIX + Lower(key) !in g.seen
    ensures Gather(g, CAPABILITY_PREFIX + Lower(key), text)
         == Gathered(g.seen + {CAPABILITY_PREFIX + Lower(key)}, g.fields, g.capabilities + [(Lower(key), text)])
  {
    var name := CAPABILITY_PREFIX + Lower(key);
    assert name[0] == 'c' && name[2..] == Lower(key);
  }

  /** Reading the first capability string leaves the rest to read. */
  lemma GatherFirst(g: Gathered, caps: seq<(string, string)>)
    requires GatheredOk(g) && CapabilitiesOk(caps) && Fresh(g.seen, caps) && caps != []
    ensures var next := Gather(g, CAPABILITY_PREFIX + Lower(caps[0].0), caps[0].1);
            GatherAll(g, WirePairs(CapabilityEntries(caps))) == GatherAll(next, WirePairs(CapabilityEntries(caps[1..])))
  {
    var entries := CapabilityEntries(caps);
    var key := caps[0].0;
    LowerFacts(key);
    assert KeyOk(CAPABILITY_PREFIX + key);
    PartitionEntry(entries[0]);
    assert entries[1..] == CapabilityEntries(caps[1..]);
    assert WirePairs(entries)[1..] == WirePairs(entries[1..]);
  }

  lemma {:induction false} GatherCapabilities(g: Gathered, caps: seq<(string, string)>)
    requires GatheredOk(g) && CapabilitiesOk(caps) && Fresh(g.seen, caps)
    ensures var r := GatherAll(g, WirePairs(CapabilityEntries(caps)));
            r.Some? && r.value.fields == g.fields && r.value.capabilities == g.capabilities + Folded(caps)
    decreases |caps|
  {
    if caps == [] {
      assert g.capabilities + Folded(caps) == g.capabilities;
    } else {
      var (key, text) := caps[0];
      GatherFirst(g, caps);
      GatherCapability(g, key, text);
      StillFresh(g.seen, caps);
      GatherCapabilities(Gather(g, CAPABILITY_PREFIX + Lower(key), text), caps[1..]);
      FoldedCons(g.capabilities, caps);
    }
  }

  lemma FoldedCons(a: seq<(string, string)>, caps: seq<(string, string)>)
    requires caps != []
    ensures a + [(Lower(caps[0].0), caps[0].1)] + Folded(caps[1..]) == a + Folded(caps)
  {
  }

  lemma StillFresh(seen: set<string>, caps: seq<(string, string)>)
    requires caps != [] && CapabilitiesOk(caps) && Fresh(seen, caps)
    ensures Fresh(seen + {CAPABILITY_PREFIX + Lower(caps[0].0)}, caps[1..])
  {
    forall i | 0 <= i < |caps| - 1
      ensures CAPABILITY_PREFIX + Lower(caps[1..][i].0) != CAPABILITY_PREFIX + Lower(caps[0].0)
    {
      var x, y := Lower(caps[i + 1].0), Lower(caps[0].0);
      assert (CAPABILITY_PREFIX + x)[2..] == x && (CAPABILITY_PREFIX + y)[2..] == y;
    }
  }

  // -- the fixed fields --------------------------------------------------------------------------

  lemma PairsAssoc(a: seq<Pair>, b: seq<Pair>, c: seq<Pair>)
    ensures (a + b) + c == a + (b + c)
  {
  }

  lemma {:induction false} WirePairsAppend(a: seq<(string, string)>, b: seq<(string, string)>)
    ensures WirePairs(a + b) == WirePairs(a) + WirePairs(b)
  {
    if a == [] {
      assert a + b == b;
    } else {
      WirePairsAppend(a[1..], b);
      assert (a + b)[0] == a[0] && (a + b)[1..] == a[1..] + b;
      PairsAssoc([WirePair(a[0])], WirePairs(a[1..]), WirePairs(b));
    }
  }

  lemma {:induction false} GatherAllAppend(g: Gathered, a: seq<Pair>, b: seq<Pair>)
    requires GatheredOk(g) && GatherAll(g, a).Some?
    ensures GatherAll(g, a + b) == GatherAll(GatherAll(g, a).value, b)
    decreases |a|
  {
    if a == [] {
      assert a + b == b;
    } else {
      var (name, text) := ReadEntry(a[0]).value;
      GatherAllAppend(Gather(g, name, text), a[1..], b);
      assert (a + b)[1..] == a[1..] + b;
    }
  }

  /** One string under a fixed, lower-case key. */
  lemma GatherFixed(g: Gathered, key: string, text: string)
    requires GatheredOk(g) && FixedKey(key) && key !in g.seen
    ensures GatherAll(g, [WirePair((key, text))])
         == Some(Gathered(g.seen + {key}, g.fields[key := text], g.capabilities))
  {
    assert KeyOk(key) && Lower(key) == key;
    PartitionEntry((key, text));
    var one: seq<Pair> := [WirePair((key, text))];
    assert one[1..] == [];
  }

  const FIXED_KEYS: set<string> := {"txtvers"} + {"sid"} + {"ver"} + {"addr"}

  lemma WireOne(entry: (string, string))
    ensures WirePairs([entry]) == [WirePair(entry)]
  {
    assert [entry][1..] == [];
  }

  /** One more string at the end of what has been gathered. */
  lemma GatherSnoc(entries: seq<(string, string)>, g: Gathered, key: string, text: string)
    requires GatheredOk(g) && GatherAll(NOTHING, WirePairs(entries)) == Some(g)
    requires FixedKey(key) && key !in g.seen
    ensures GatherAll(NOTHING, WirePairs(entries + [(key, text)]))
         == Some(Gathered(g.seen + {key}, g.fields[key := text], g.capabilities))
  {
    WirePairsAppend(entries, [(key, text)]);
    WireOne((key, text));
    GatherAllAppend(NOTHING, WirePairs(entries), [WirePair((key, text))]);
    GatherFixed(g, key, text);
  }

  function FixedFields(sid: string, version: string, address: string): map<string, string>
  {
    map["txtvers" := TXT_VERSION]["sid" := sid]["ver" := version]["addr" := address]
  }

  lemma GatherTwo(entries: seq<(string, string)>, g: Gathered, k1: string, t1: string, k2: string, t2: string)
    requires GatheredOk(g) && GatherAll(NOTHING, WirePairs(entries)) == Some(g)
    requires FixedKey(k1) && FixedKey(k2) && k1 != k2 && k1 !in g.seen && k2 !in g.seen
    ensures GatherAll(NOTHING, WirePairs(entries + [(k1, t1)] + [(k2, t2)]))
         == Some(Gathered(g.seen + {k1} + {k2}, g.fields[k1 := t1][k2 := t2], g.capabilities))
  {
    GatherSnoc(entries, g, k1, t1);
    GatherSnoc(entries + [(k1, t1)], Gathered(g.seen + {k1}, g.fields[k1 := t1], g.capabilities), k2, t2);
  }

  lemma GatherOne(text: string)
    ensures GatherAll(NOTHING, WirePairs([("txtvers", text)])) ==
              Some(Gathered({"txtvers"}, map["txtvers" := text], []))
  {
    GatherFixed(NOTHING, "txtvers", text);
    assert NOTHING.seen + {"txtvers"} == {"txtvers"};
    assert NOTHING.fields["txtvers" := text] == map["txtvers" := text];
    WireOne(("txtvers", text));
  }

  /** After the version entry, the three other fixed fields in turn. */
  lemma GatherThree(first: seq<(string, string)>, g: Gathered, sid: string, version: string, address: string)
    requires GatheredOk(g) && GatherAll(NOTHING, WirePairs(first)) == Some(g) && g.seen == {"txtvers"}
    ensures GatherAll(NOTHING, WirePairs(first + [("sid", sid)] + [("ver", version)] + [("addr", address)]))
         == Some(Gathered(g.seen + {"sid"} + {"ver"} + {"addr"},
                          g.fields["sid" := sid]["ver" := version]["addr" := address], g.capabilities))
  {
    GatherTwo(first, g, "sid", sid, "ver", version);
    var h := Gathered(g.seen + {"sid"} + {"ver"}, g.fields["sid" := sid]["ver" := version], g.capabilities);
    GatherSnoc(first + [("sid", sid)] + [("ver", version)], h, "addr", address);
  }

  lemma GatherFixedFields(sid: string, version: string, address: string)
    ensures GatherAll(NOTHING, WirePairs(FixedEntries(sid, version, address)))
         == Some(Gathered(FIXED_KEYS, FixedFields(sid, version, address), []))
  {
    GatherOne(TXT_VERSION);
    var g := Gathered({"txtvers"}, map["txtvers" := TXT_VERSION], []);
    GatherThree([("txtvers", TXT_VERSION)], g, sid, version, address);
  }

  lemma CapabilitiesFresh(caps: seq<(string, string)>)
    ensures Fresh(FIXED_KEYS, caps)
  {
    forall i | 0 <= i < |caps| ensures CAPABILITY_PREFIX + Lower(caps[i].0) !in FIXED_KEYS {
      var name := CAPABILITY_PREFIX + Lower(caps[i].0);
      assert name[0] == 'c' && name[1] == '.';
    }
  }

  lemma SortedCapabilities(caps: Dict)
    requires CapabilitiesOk(caps)
    ensures CapabilitiesOk(Sorted(caps, ByFoldedKey))
  {
    var s := Sorted(caps, ByFoldedKey);
    SortedIsSort(caps, ByFoldedKey);
    forall i | 0 <= i < |s| ensures KeyOk(s[i].0) {
      assert s[i] in caps;
    }
    forall i, j | 0 <= i < j < |s| ensures Lower(s[i].0) != Lower(s[j].0) {
      SortedKeepsApart(caps, s, i, j);
    }
  }

  lemma SortedKeepsApart(caps: Dict, s: seq<(string, string)>, i: nat, j: nat)
    requires CapabilitiesOk(caps) && multiset(s) == multiset(caps) && i < j < |s|
    ensures Lower(s[i].0) != Lower(s[j].0)
  {
    SameElements(s, caps);
    assert s[i] in caps && s[j] in caps;
    var a :| 0 <= a < |caps| && caps[a] == s[i];
    var b :| 0 <= b < |caps| && caps[b] == s[j];
    if a == b {
      TwiceInSequence(s, i, j);
      OnceInDict(caps, s[i]);
    }
  }

  lemma TwiceInSequence(s: seq<(string, string)>, i: nat, j: nat)
    requires i < j < |s| && s[i] == s[j]
    ensures multiset(s)[s[i]] >= 2
  {
    var a, b := s[..j], s[j..];
    assert s == a + b && a[i] == s[i] && b[0] == s[j];
    assert multiset(a)[s[i]] >= 1 && multiset(b)[s[i]] >= 1;
  }

  lemma {:induction false} OnceInDict(d: seq<(string, string)>, kv: (string, string))
    requires DistinctKeys(d)
    ensures multiset(d)[kv] <= 1
  {
    if d != [] {
      OnceInDict(d[1..], kv);
      assert d == [d[0]] + d[1..];
      if d[0] == kv {
        assert kv !in d[1..];
      }
    }
  }

  lemma LayoutKeysOk(record: ServiceRecord, address: string)
    requires CapabilitiesOk(record.capabilities)
    ensures KeysOk(Layout(record, address))
  {
    var caps := Sorted(record.capabilities, ByFoldedKey);
    SortedCapabilities(record.capabilities);
    var entries := Layout(record, address);
    forall i | 0 <= i < |entries| ensures KeyOk(entries[i].0) {
      if i >= 4 {
        assert entries[i] == CapabilityEntries(caps)[i - 4];
        assert KeyOk(caps[i - 4].0);
      }
    }
  }

  /** What reading back gathers from a published record. */
  lemma GatherLayout(record: ServiceRecord, address: string)
    requires CapabilitiesOk(record.capabilities)
    ensures var g := GatherAll(NOTHING, WirePairs(Layout(record, address)));
            && g.Some?
            && g.value.fields == FixedFields(record.serviceId, record.version, address)
            && g.value.capabilities == Folded(Sorted(record.capabilities, ByFoldedKey))
  {
    var caps := Sorted(record.capabilities, ByFoldedKey);
    var fixed := FixedEntries(record.serviceId, record.version, address);
    SortedCapabilities(record.capabilities);
    CapabilitiesFresh(caps);
    GatherFixedFields(record.serviceId, record.version, address);
    WirePairsAppend(fixed, CapabilityEntries(caps));
    GatherAllAppend(NOTHING, WirePairs(fixed), WirePairs(CapabilityEntries(caps)));
    GatherCapabilities(GatherAll(NOTHING, WirePairs(fixed)).value, caps);
    assert [] + Folded(caps) == Folded(caps);
  }

  lemma RecordOfPairs(raw: seq<byte>, pairs: seq<Pair>)
    requires Parsed(raw) == Some(pairs) && |raw| <= MAX_TXT_RECORD_BYTES && GatherAll(NOTHING, pairs).Some?
    ensures RecordOf(raw) == Assemble(GatherAll(NOTHING, pairs).value)
  {
  }

  /** A published record reads back as its gathered fields assemble. */
  lemma ReadBack(record: ServiceRecord, address: string) returns (g: Gathered)
    requires Publishable(record, address)
    ensures RecordOf(Wire(Layout(record, address))) == Assemble(g)
    ensures g.fields == FixedFields(record.serviceId, record.version, address)
    ensures g.capabilities == Folded(Sorted(record.capabilities, ByFoldedKey))
  {
    var entries := Layout(record, address);
    WireSize(entries);
    LayoutKeysOk(record, address);
    ParsedWire(entries);
    GatherLayout(record, address);
    RecordOfPairs(Wire(entries), WirePairs(entries));
    g := GatherAll(NOTHING, WirePairs(entries)).value;
  }

  /** Folding a sorted permutation keeps every capability. */
  lemma NoneLost(caps: Dict)
    ensures var out := Folded(Sorted(caps, ByFoldedKey));
            |out| == |caps| && forall i :: 0 <= i < |caps| ==> (Lower(caps[i].0), caps[i].1) in out
  {
    var s := Sorted(caps, ByFoldedKey);
    SortedIsSort(caps, ByFoldedKey);
    forall i | 0 <= i < |caps| ensures (Lower(caps[i].0), caps[i].1) in Folded(s) {
      assert caps[i] in s;
      var j :| 0 <= j < |s| && s[j] == caps[i];
      assert Folded(s)[j] == (Lower(caps[i].0), caps[i].1);
    }
  }

  /**
   * Every publishable record takes exactly its computed size on the wire and is read back with the
   * same id, version, address and capabilities, keys folded, none lost or merged; unless its service
   * id is empty, in which case a reader ignores it.
   */
  lemma TxtRoundTrip(record: ServiceRecord, address: string)
    requires Publishable(record, address)
    ensures |Wire(Layout(record, address))| == TxtRecordSize(Layout(record, address)) <= MAX_TXT_RECORD_BYTES
    ensures var back := RecordOf(Wire(Layout(record, address)));
            && (back.Some? <==> record.serviceId != "")
            && (back.Some? ==>
                  && back.value.serviceId == record.serviceId && back.value.version == record.version
                  && back.value.provider == address && back.value.source == Lan
                  && |back.value.capabilities| == |record.capabilities|
                  && forall i :: 0 <= i < |record.capabilities| ==>
                       (Lower(record.capabilities[i].0), record.capabilities[i].1) in back.value.capabilities)
  {
    WireSize(Layout(record, address));
    var g := ReadBack(record, address);
    AssembleFixed(g, record.serviceId, record.version, address);
    NoneLost(record.capabilities);
  }

  lemma {:induction false} SmallerString(entries: seq<(string, string)>, i: nat, e: (string, string))
    requires i < |entries| && StringSize(e) <= StringSize(entries[i])
    ensures TxtRecordSize(entries[i := e]) <= TxtRecordSize(entries)
    ensures StringsFit(entries) ==> StringsFit(entries[i := e])
  {
    if i == 0 {
      assert entries[i := e][1..] == entries[1..];
    } else {
      SmallerString(entries[1..], i - 1, e);
      assert entries[i := e][1..] == entries[1..][i - 1 := e];
    }
  }

  lemma NamelessLayout(record: ServiceRecord, address: string, key: string)
    requires key == Layout(record, address)[1].0
    ensures Layout(record.(serviceId := ""), address) == Layout(record, address)[1 := (key, "")]
    ensures StringSize((key, "")) <= StringSize(Layout(record, address)[1])
  {
  }

  lemma NamelessFits(record: ServiceRecord, address: string)
    requires Publishable(record, address)
    ensures Publishable(record.(serviceId := ""), address)
  {
    var entries := Layout(record, address);
    NamelessLayout(record, address, entries[1].0);
    SmallerString(entries, 1, (entries[1].0, ""));
  }

  /** Whatever can be published can be published under an empty service id, and is then ignored. */
  lemma EmptyIdIsPublished(record: ServiceRecord, address: string)
    requires Publishable(record, address)
    ensures var nameless := record.(serviceId := "");
            Publishable(nameless, address) && RecordOf(Wire(Layout(nameless, address))) == None
  {
    NamelessFits(record, address);
    TxtRoundTrip(record.(serviceId := ""), address);
  }

  predicate Ascii(s: string)
  {
    forall i :: 0 <= i < |s| ==> s[i] as int < 128
  }

  predicate Short(e: (string, string))
  {
    Ascii(e.0) && Ascii(e.1) && |e.0| <= 7 && |e.1| <= 4
  }

  lemma {:induction false} ShortStrings(entries: seq<(string, string)>)
    requires forall i :: 0 <= i < |entries| ==> Short(entries[i])
    ensures StringsFit(entries) && TxtRecordSize(entries) <= 13 * |entries|
  {
    forall i | 0 <= i < |entries| ensures StringSize(entries[i]) <= 12 {
      Utf8OfAscii(entries[i].0);
      Utf8OfAscii(entries[i].1);
    }
    if entries != [] {
      ShortStrings(entries[1..]);
    }
  }

  lemma SomethingIsPublished()
    ensures Publishable(ServiceRecord("", "", [], "", Local), "off1")
  {
    var entries := Layout(ServiceRecord("", "", [], "", Local), "off1");
    assert entries == FixedEntries("", "", "off1");
    ShortStrings(entries);
  }

  lemma AssembleFixed(g: Gathered, sid: string, version: string, address: string)
    requires g.fields == FixedFields(sid, version, address)
    requires |Utf8(sid)| <= MAX_SID_BYTES && ADDRESS_PREFIX <= address
    ensures Assemble(g) == if sid == "" then None else Some(ServiceRecord(sid, version, g.capabilities, address, Lan))
  {
    assert g.fields["txtvers"] == TXT_VERSION && g.fields["sid"] == sid;
    assert g.fields["ver"] == version && g.fields["addr"] == address;
  }
}
