/** Addresses as bech32m renderings of a hash, and the session slot two of them share. */
module Addresses {
  import opened Basics
  import opened Bits
  import opened ConvertBits
  import opened Bech32
  import Ordering

  const CHARSET := "qpzry9x8gf2tvdw0s3jn54khce6mua7l"
  const ADDRESS_HRP := "off"
  const ADDRESS_VERSION: byte := 0x01
  const ADDRESS_HASH_LEN := 20

  // -- characters ------------------------------------------------------------------

  /** `s.index(c)`, `None` where it raises. */
  function IndexIn(s: string, c: char): (r: Option<nat>)
    ensures r.Some? ==> r.value < |s| && s[r.value] == c
  {
    if s == [] then None
    else if s[0] == c then Some(0)
    else
      var i :- IndexIn(s[1..], c);
      Some(i + 1)
  }

  lemma {:induction false} IndexInFinds(s: string, d: nat)
    requires NoDuplicates(s) && d < |s|
    ensures IndexIn(s, s[d]) == Some(d)
  {
    if d > 0 {
      IndexInFinds(s[1..], d - 1);
    }
  }

  lemma CharsetDistinct()
    ensures |CHARSET| == 32 && NoDuplicates(CHARSET)
  {
  }

  function Render(symbols: seq<nat>): (r: string)
    requires Symbols(symbols)
    ensures |r| == |symbols|
  {
    seq(|symbols|, i requires 0 <= i < |symbols| => CHARSET[symbols[i]])
  }

  function Unrender(s: string): (r: Option<seq<nat>>)
    ensures r.Some? ==> |r.value| == |s|
  {
    if s == [] then Some([])
    else
      var i :- IndexIn(CHARSET, s[0]);
      var rest :- Unrender(s[1..]);
      Some([i] + rest)
  }

  lemma {:induction false} UnrenderInverts(symbols: seq<nat>)
    requires Symbols(symbols)
    ensures Unrender(Render(symbols)) == Some(symbols)
  {
    if symbols != [] {
      CharsetDistinct();
      IndexInFinds(CHARSET, symbols[0]);
      UnrenderInverts(symbols[1..]);
      assert Render(symbols)[1..] == Render(symbols[1..]);
      assert symbols == [symbols[0]] + symbols[1..];
    }
  }

  // -- addresses --------------------------------------------------------------------

  function Bech32Encode(hrp: string, data: seq<nat>): string
    requires Symbols(data)
  {
    ChecksumIsSixSymbols(hrp, data);
    hrp + "1" + Render(data + CreateChecksum(hrp, data))
  }

  /** The payload of an address, as five-bit symbols. */
  function PayloadSymbols(hash: seq<byte>): (r: seq<nat>)
    ensures Symbols(r)
  {
    OctetsWithin([ADDRESS_VERSION] + hash);
    var out := Regrouped([ADDRESS_VERSION] + hash, 8, 5, true).value;
    SymbolsWithin([ADDRESS_VERSION] + hash);
    out
  }

  lemma OctetsWithin(b: seq<byte>)
    ensures InRange(b, 8)
  {
    assert Pow2(8) == 256;
  }

  lemma SymbolsWithin(b: seq<byte>)
    requires Regrouped(b, 8, 5, true).Some?
    ensures Symbols(Regrouped(b, 8, 5, true).value)
  {
    assert Pow2(5) == 32;
    var _ := PaddedSpells(BitString(b, 8), 5);
  }

  function AddressFromHash(hash: seq<byte>): Result<string>
  {
    if |hash| != ADDRESS_HASH_LEN then Raised
    else Ok(Bech32Encode(ADDRESS_HRP, PayloadSymbols(hash)))
  }

  /** `addr[4:-6]`. */
  function DataPart(addr: string): string
  {
    if |addr| < 10 then "" else addr[|ADDRESS_HRP| + 1..|addr| - 6]
  }

  /** The hash bytes of a rendering; raises on a character or a grouping that no payload has. */
  function AddressHash(addr: string): Result<seq<byte>>
  {
    match Unrender(DataPart(addr))
    case None => Raised
    case Some(data) =>
      match Regrouped(data, 5, 8, false)
      case None => Raised
      case Some(payload) =>
        PayloadIsOctets(data);
        Ok(if payload == [] then [] else payload[1..])
  }

  lemma PayloadIsOctets(data: seq<int>)
    requires Regrouped(data, 5, 8, false).Some?
    ensures forall i :: 0 <= i < |Regrouped(data, 5, 8, false).value| ==> Regrouped(data, 5, 8, false).value[i] < 256
  {
    GroupsWithin(BitString(data, 5), 8);
    assert Pow2(8) == 256;
  }

  lemma PayloadLength(hash: seq<byte>)
    requires |hash| == ADDRESS_HASH_LEN
    ensures |PayloadSymbols(hash)| == 34
  {
    var payload := [ADDRESS_VERSION] + hash;
    RegroupLength(payload, 8, 5);
    ThirtyFour(|Groups(BitString(payload, 8), 5)|, |Leftover(BitString(payload, 8), 5)|);
    OctetsWithin(payload);
  }

  lemma ThirtyFour(n: nat, l: nat)
    requires n * 5 + l == 21 * 8 && l < 5
    ensures n == 33 && l == 3
  {
  }

  /** Every 20-byte hash has a 44-character rendering that gives the hash back; nothing else renders. */
  lemma AddressRoundTrip(hash: seq<byte>)
    ensures AddressFromHash(hash).Ok? <==> |hash| == ADDRESS_HASH_LEN
    ensures AddressFromHash(hash).Ok? ==>
              var addr := AddressFromHash(hash).value;
              && |addr| == 44 && ADDRESS_HRP <= addr && AddressHash(addr) == Ok(hash)
              && Unrender(DataPart(addr)).Some?
              && Regrouped(Unrender(DataPart(addr)).value, 5, 8, false) == Some([0x01] + hash)
  {
    if |hash| == ADDRESS_HASH_LEN {
      var data := PayloadSymbols(hash);
      var addr := Bech32Encode(ADDRESS_HRP, data);
      PayloadLength(hash);
      RenderedData(data);
      UnrenderInverts(data);
      var payload: seq<byte> := [ADDRESS_VERSION] + hash;
      OctetsWithin(payload);
      PadThenUnpad(payload, 8, 5);
      assert payload[1..] == hash;
    }
  }

  lemma RenderedData(data: seq<nat>)
    requires Symbols(data)
    ensures var addr := Bech32Encode(ADDRESS_HRP, data);
            |addr| == |data| + 10 && ADDRESS_HRP <= addr && DataPart(addr) == Render(data)
  {
    var checksum := CreateChecksum(ADDRESS_HRP, data);
    ChecksumIsSixSymbols(ADDRESS_HRP, data);
    var all := Render(data + checksum);
    assert all[..|data|] == Render(data);
    var addr := Bech32Encode(ADDRESS_HRP, data);
    assert addr == (ADDRESS_HRP + "1") + all;
    assert addr[4..] == all;
    assert addr[4..|addr| - 6] == all[..|data|];
  }

  // -- session slots -------------------------------------------------------------------

  function SessionId(a: string, b: string): Result<string>
  {
    match (AddressHash(a), AddressHash(b))
    case (Ok(ha), Ok(hb)) =>
      if Ordering.LexLe(ha, hb) then Ok("session:" + a + ":" + b) else Ok("session:" + b + ":" + a)
    case (_, _) => Raised
  }

  /** The two addresses a slot names, smaller hash first. */
  lemma SessionIdOrders(g: seq<byte>, h: seq<byte>)
    requires |g| == ADDRESS_HASH_LEN && |h| == ADDRESS_HASH_LEN
    ensures var a, b := AddressFromHash(g).value, AddressFromHash(h).value;
            SessionId(a, b) ==
              (if Ordering.LexLe(g, h) then Ok("session:" + a + ":" + b) else Ok("session:" + b + ":" + a))
  {
    AddressRoundTrip(g);
    AddressRoundTrip(h);
  }

  lemma SlotDetermines(a: string, b: string, c: string, d: string)
    requires |a| == |c| && "session:" + a + ":" + b == "session:" + c + ":" + d
    ensures a == c && b == d
  {
    var s, t := "session:" + a + ":" + b, "session:" + c + ":" + d;
    assert a == s[8..8 + |a|] && c == t[8..8 + |a|];
    assert b == s[9 + |a|..] && d == t[9 + |a|..];
  }

  lemma AddressDetermines(g: seq<byte>, h: seq<byte>)
    requires |g| == ADDRESS_HASH_LEN && |h| == ADDRESS_HASH_LEN
    ensures AddressFromHash(g) == AddressFromHash(h) <==> g == h
  {
    AddressRoundTrip(g);
    AddressRoundTrip(h);
  }

  /** Two pairs of addresses share a slot exactly when they are the same pair, in either order. */
  lemma SessionIdIsUnorderedPair(g: seq<byte>, h: seq<byte>, k: seq<byte>, l: seq<byte>)
    requires |g| == |h| == |k| == |l| == ADDRESS_HASH_LEN
    ensures var a, b := AddressFromHash(g).value, AddressFromHash(h).value;
            var c, d := AddressFromHash(k).value, AddressFromHash(l).value;
            SessionId(a, b) == SessionId(c, d) <==> (g == k && h == l) || (g == l && h == k)
  {
    var a, b := AddressFromHash(g).value, AddressFromHash(h).value;
    var c, d := AddressFromHash(k).value, AddressFromHash(l).value;
    SessionIdOrders(g, h);
    SessionIdOrders(k, l);
    if SessionId(a, b) == SessionId(c, d) {
      SlotPairs(g, h, k, l);
    } else if g == l && h == k && Ordering.LexLe(g, h) && Ordering.LexLe(h, g) {
      Ordering.LexAntisymmetric(g, h);
    } else if g == l && h == k {
      Ordering.LexTotal(g, h);
    }
  }

  lemma SlotPairs(g: seq<byte>, h: seq<byte>, k: seq<byte>, l: seq<byte>)
    requires |g| == |h| == |k| == |l| == ADDRESS_HASH_LEN
    requires var a, b := AddressFromHash(g).value, AddressFromHash(h).value;
             var c, d := AddressFromHash(k).value, AddressFromHash(l).value;
             SessionId(a, b) == SessionId(c, d)
    ensures (g == k && h == l) || (g == l && h == k)
  {
    var a, b := AddressFromHash(g).value, AddressFromHash(h).value;
    var c, d := AddressFromHash(k).value, AddressFromHash(l).value;
    SessionIdOrders(g, h);
    SessionIdOrders(k, l);
    AddressRoundTrip(g);
    AddressRoundTrip(h);
    AddressRoundTrip(k);
    AddressRoundTrip(l);
    var (p, q) := if Ordering.LexLe(g, h) then (a, b) else (b, a);
    var (r, s) := if Ordering.LexLe(k, l) then (c, d) else (d, c);
    SlotDetermines(p, q, r, s);
  }

  // -- slots of arbitrary strings -----------------------------------------------------------

  function Power(w: string, n: nat): string
  {
    if n == 0 then "" else w + Power(w, n - 1)
  }

  /** Both strings are powers of one. */
  ghost predicate CommonRoot(u: string, v: string)
  {
    exists w: string, i: nat, j: nat :: u == Power(w, i) && v == Power(w, j)
  }

  lemma {:induction false} PowerAdd(w: string, i: nat, j: nat)
    ensures Power(w, i) + Power(w, j) == Power(w, i + j)
  {
    if i == 0 {
      assert "" + Power(w, j) == Power(w, j);
    } else {
      PowerAdd(w, i - 1, j);
      assert (w + Power(w, i - 1)) + Power(w, j) == w + (Power(w, i - 1) + Power(w, j));
    }
  }

  /** Strings that read the same joined in either order are powers of one string. */
  lemma {:induction false} RootOf(u: string, v: string) returns (w: string, i: nat, j: nat)
    requires u + v == v + u
    ensures u == Power(w, i) && v == Power(w, j)
    decreases |u| + |v|, |u|
  {
    if u == "" {
      w, i, j := v, 0, 1;
      assert v + "" == v;
      assert Power(v, 1) == v + Power(v, 0);
    } else if |u| > |v| {
      w, j, i := RootOf(v, u);
    } else {
      var rest := v[|u|..];
      assert u == (u + v)[..|u|] == v[..|u|];
      assert v == u + rest;
      assert u + (u + rest) == u + (rest + u);
      assert (u + (u + rest))[|u|..] == u + rest && (u + (rest + u))[|u|..] == rest + u;
      var k;
      w, i, k := RootOf(u, rest);
      j := i + k;
      PowerAdd(w, i, k);
    }
  }

  lemma CommuteExactly(u: string, v: string)
    ensures u + v == v + u <==> CommonRoot(u, v)
  {
    if u + v == v + u {
      var w, i, j := RootOf(u, v);
    } else if CommonRoot(u, v) {
      var w: string, i: nat, j: nat :| u == Power(w, i) && v == Power(w, j);
      PowerAdd(w, i, j);
      PowerAdd(w, j, i);
    }
  }

  lemma SlotsCross(a: string, b: string)
    ensures "session:" + a + ":" + b == "session:" + b + ":" + a <==> CommonRoot(a + ":", b + ":")
  {
    var s, t := "session:" + a + ":" + b, "session:" + b + ":" + a;
    var x, y := (a + ":") + (b + ":"), (b + ":") + (a + ":");
    assert s + ":" == "session:" + x && t + ":" == "session:" + y;
    assert x == (s + ":")[8..] && y == (t + ":")[8..];
    assert s == (s + ":")[..|s|] && t == (t + ":")[..|t|];
    CommuteExactly(a + ":", b + ":");
  }

  /**
   * The slot of any two strings depends on their order exactly when both carry the same hash and they are not,
   * each with a colon behind it, powers of one string.
   */
  lemma SessionIdSymmetricExactly(a: string, b: string)
    ensures SessionId(a, b) == SessionId(b, a) <==>
              || AddressHash(a).Raised? || AddressHash(b).Raised?
              || AddressHash(a) != AddressHash(b) || CommonRoot(a + ":", b + ":")
  {
    if AddressHash(a).Ok? && AddressHash(b).Ok? {
      var ha, hb := AddressHash(a).value, AddressHash(b).value;
      if ha == hb {
        Ordering.LexReflexive(ha);
        SlotsCross(a, b);
      } else {
        Ordering.LexTotal(ha, hb);
        if Ordering.LexLe(ha, hb) && Ordering.LexLe(hb, ha) {
          Ordering.LexAntisymmetric(ha, hb);
        }
      }
    }
  }

  /** Without colons in them, only equal strings are. */
  lemma RootWithoutColons(a: string, b: string)
    requires ':' !in a && ':' !in b
    ensures CommonRoot(a + ":", b + ":") <==> a == b
  {
    var x, y := (a + ":") + (b + ":"), (b + ":") + (a + ":");
    CommuteExactly(a + ":", b + ":");
    if x == y {
      assert x[|a|] == ':' && y[|b|] == ':';
      assert |a| == |b|;
      assert a == x[..|a|] && b == y[..|b|];
    }
  }

  /** A rendering with its last character replaced. */
  function Mistyped(addr: string): string
    requires addr != ""
  {
    addr[..|addr| - 1] + [if addr[|addr| - 1] == 'q' then 'p' else 'q']
  }

  lemma CharsetHasNoColon()
    ensures ':' !in CHARSET
  {
  }

  lemma RenderedCharacters(symbols: seq<nat>, c: char)
    requires Symbols(symbols) && c !in CHARSET
    ensures c !in Render(symbols)
  {
    forall i | 0 <= i < |symbols| ensures Render(symbols)[i] != c {
      assert CHARSET[symbols[i]] in CHARSET;
    }
  }

  lemma RenderingsHaveNoColon(data: seq<nat>)
    requires Symbols(data)
    ensures ':' !in Bech32Encode(ADDRESS_HRP, data)
  {
    ChecksumIsSixSymbols(ADDRESS_HRP, data);
    CharsetHasNoColon();
    RenderedCharacters(data + CreateChecksum(ADDRESS_HRP, data), ':');
  }

  lemma MistypedCarriesTheHash(a: string)
    requires |a| >= 10
    ensures Mistyped(a) != a && AddressHash(Mistyped(a)) == AddressHash(a)
    ensures ':' !in a ==> ':' !in Mistyped(a)
  {
    var b := Mistyped(a);
    assert b[|a| - 1] != a[|a| - 1];
    assert b[..|a| - 1] == a[..|a| - 1];
    assert b[4..|a| - 6] == b[..|a| - 1][4..|a| - 6];
    assert a[4..|a| - 6] == a[..|a| - 1][4..|a| - 6];
    assert DataPart(b) == DataPart(a);
  }

  /** The checksum is not looked at: an address and its mistyped form carry one hash, and order decides the slot. */
  lemma SlotDependsOnOrder(hash: seq<byte>)
    requires |hash| == ADDRESS_HASH_LEN
    ensures var a := AddressFromHash(hash).value;
            && |a| == 44 && Mistyped(a) != a && AddressHash(Mistyped(a)) == AddressHash(a) == Ok(hash)
            && SessionId(a, Mistyped(a)) != SessionId(Mistyped(a), a)
  {
    var a := AddressFromHash(hash).value;
    AddressRoundTrip(hash);
    RenderingsHaveNoColon(PayloadSymbols(hash));
    MistypedCarriesTheHash(a);
    RootWithoutColons(a, Mistyped(a));
    SessionIdSymmetricExactly(a, Mistyped(a));
  }
}
