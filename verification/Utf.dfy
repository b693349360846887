/** UTF-8 and UTF-16, and which of the two orders strings by scalar value. */
module Utf {
  import opened Basics
  import opened Ordering

  // -- UTF-8 ----------------------------------------------------------------

  /** Section 3 of RFC 3629. */
  function Utf8Char(c: char): (r: seq<byte>)
    ensures 1 <= |r| <= 4
  {
    var v := c as int;
    if v < 0x80 then [v]
    else if v < 0x800 then [0xC0 + v / 0x40, 0x80 + v % 0x40]
    else if v < 0x10000 then [0xE0 + v / 0x1000, 0x80 + v / 0x40 % 0x40, 0x80 + v % 0x40]
    else [0xF0 + v / 0x40000, 0x80 + v / 0x1000 % 0x40, 0x80 + v / 0x40 % 0x40, 0x80 + v % 0x40]
  }

  /** `s.encode("utf-8")`. */
  function Utf8(s: string): seq<byte>
  {
    if s == [] then [] else Utf8Char(s[0]) + Utf8(s[1..])
  }

  function Scalars(s: string): seq<int>
  {
    if s == [] then [] else [s[0] as int] + Scalars(s[1..])
  }

  lemma {:induction false} ScalarsInjective(s: string, t: string)
    requires Scalars(s) == Scalars(t)
    ensures s == t
  {
    if s != [] && t != [] {
      assert Scalars(s)[1..] == Scalars(s[1..]) && Scalars(t)[1..] == Scalars(t[1..]);
      assert Scalars(s)[0] == Scalars(t)[0];
      ScalarsInjective(s[1..], t[1..]);
      assert s == [s[0]] + s[1..] && t == [t[0]] + t[1..];
    }
  }

  /** Of two numbers with equal leading parts, the last base-64 digit decides. */
  lemma DigitOrder(v: nat, w: nat)
    ensures v < w ==> v / 0x40 < w / 0x40 || (v / 0x40 == w / 0x40 && v % 0x40 < w % 0x40)
  {
  }

  lemma Utf8CharOrder2(v: nat, w: nat)
    requires v < w
    ensures v / 0x1000 < w / 0x1000 || (v / 0x1000 == w / 0x1000 &&
            (v / 0x40 % 0x40 < w / 0x40 % 0x40 || (v / 0x40 % 0x40 == w / 0x40 % 0x40 && v % 0x40 < w % 0x40)))
  {
    assert v / 0x1000 == v / 0x40 / 0x40 && w / 0x1000 == w / 0x40 / 0x40;
    DigitOrder(v, w);
    DigitOrder(v / 0x40, w / 0x40);
  }

  lemma Utf8CharOrder3(v: nat, w: nat)
    requires v < w
    ensures v / 0x40000 < w / 0x40000 || (v / 0x40000 == w / 0x40000 &&
            (v / 0x1000 % 0x40 < w / 0x1000 % 0x40 || (v / 0x1000 % 0x40 == w / 0x1000 % 0x40 &&
            (v / 0x40 % 0x40 < w / 0x40 % 0x40 || (v / 0x40 % 0x40 == w / 0x40 % 0x40 && v % 0x40 < w % 0x40)))))
  {
    assert v / 0x40000 == v / 0x1000 / 0x40 && w / 0x40000 == w / 0x1000 / 0x40;
    Utf8CharOrder2(v, w);
    DigitOrder(v / 0x1000, w / 0x1000);
  }

  /** Sequences decided by their first difference, whatever follows. */
  predicate DecidedBelow(p: seq<int>, q: seq<int>)
  {
    exists k :: 0 <= k < |p| && k < |q| && p[..k] == q[..k] && p[k] < q[k]
  }

  /** Where the encodings of two different scalars first differ, the smaller scalar has the smaller byte. */
  lemma Utf8CharOrder(c: char, d: char)
    requires c < d
    ensures DecidedBelow(Utf8Char(c), Utf8Char(d))
  {
    var p: seq<int>, q: seq<int> := Utf8Char(c), Utf8Char(d);
    var v, w := c as int, d as int;
    if p[0] < q[0] {
      assert p[..0] == q[..0];
    } else {
      assert |p| == |q| by { assert v < 0x40000 * 8 && w < 0x40000 * 8; }
      assert p[..1] == [p[0]] && q[..1] == [q[0]] by { Utf8LeadOrder(v, w); }
      if |p| == 2 {
        DigitOrder(v, w);
      } else if |p| == 3 {
        Utf8CharOrder2(v, w);
        assert p[1] == q[1] ==> p[..2] == q[..2];
      } else if |p| == 4 {
        Utf8CharOrder3(v, w);
        assert p[1] == q[1] ==> p[..2] == q[..2];
        assert p[1] == q[1] && p[2] == q[2] ==> p[..3] == q[..3];
      }
    }
  }

  lemma Utf8LeadOrder(v: nat, w: nat)
    requires v <= w
    ensures v / 0x40 <= w / 0x40 && v / 0x1000 <= w / 0x1000 && v / 0x40000 <= w / 0x40000
  {
  }

  lemma DecidedOrder(p: seq<int>, q: seq<int>, x: seq<int>, y: seq<int>)
    requires DecidedBelow(p, q)
    ensures LexLe(p + x, q + y) && !LexLe(q + y, p + x)
  {
    var k :| 0 <= k < |p| && k < |q| && p[..k] == q[..k] && p[k] < q[k];
    assert (p + x)[..k] == p[..k] && (q + y)[..k] == q[..k];
    LexFirstDifference(p + x, q + y, k);
  }

  /** UTF-8 byte order is scalar-value order, for all strings. */
  lemma {:induction false} Utf8OrderIsScalarOrder(s: string, t: string)
    ensures LexLe(Utf8(s), Utf8(t)) <==> LexLe(Scalars(s), Scalars(t))
  {
    if s != [] && t != [] {
      var s8, t8 := Utf8(s[1..]), Utf8(t[1..]);
      if s[0] == t[0] {
        Utf8OrderIsScalarOrder(s[1..], t[1..]);
        LexCommonPrefix(Utf8Char(s[0]), s8, t8);
      } else if s[0] < t[0] {
        Utf8CharOrder(s[0], t[0]);
        DecidedOrder(Utf8Char(s[0]), Utf8Char(t[0]), s8, t8);
      } else {
        Utf8CharOrder(t[0], s[0]);
        DecidedOrder(Utf8Char(t[0]), Utf8Char(s[0]), t8, s8);
      }
    }
  }

  lemma Utf8Injective(s: string, t: string)
    requires Utf8(s) == Utf8(t)
    ensures s == t
  {
    LexReflexive(Utf8(s));
    Utf8OrderIsScalarOrder(s, t);
    Utf8OrderIsScalarOrder(t, s);
    LexAntisymmetric(Scalars(s), Scalars(t));
    ScalarsInjective(s, t);
  }

  // -- UTF-8, decoding --------------------------------------------------------

  predicate Continuation(b: byte)
  {
    0x80 <= b < 0xC0
  }

  /** The strict decoder's reading of one scalar: its value and how many bytes it took. */
  function ReadScalar(b: seq<byte>): (r: Option<(char, nat)>)
    ensures r.Some? ==> 0 < r.value.1 <= |b|
  {
    if b == [] then None
    else if b[0] < 0x80 then Some((b[0] as char, 1))
    else if 0xC2 <= b[0] < 0xE0 && |b| >= 2 && Continuation(b[1]) then
      Some((((b[0] as int - 0xC0) * 0x40 + (b[1] as int - 0x80)) as char, 2))
    else if 0xE0 <= b[0] < 0xF0 && |b| >= 3 && Continuation(b[1]) && Continuation(b[2]) then
      var v := (b[0] as int - 0xE0) * 0x1000 + (b[1] as int - 0x80) * 0x40 + (b[2] as int - 0x80);
      if 0x800 <= v < 0xD800 || 0xE000 <= v then Some((v as char, 3)) else None
    else if 0xF0 <= b[0] < 0xF8 && |b| >= 4 && Continuation(b[1]) && Continuation(b[2]) && Continuation(b[3]) then
      var v := (b[0] as int - 0xF0) * 0x40000 + (b[1] as int - 0x80) * 0x1000
               + (b[2] as int - 0x80) * 0x40 + (b[3] as int - 0x80);
      if 0x10000 <= v < 0x110000 then Some((v as char, 4)) else None
    else None
  }

  /** `b.decode("utf-8")`, with `None` for a `UnicodeDecodeError`. */
  function Utf8Decode(b: seq<byte>): Option<string>
  {
    if b == [] then Some([])
    else
      var (c, n) :- ReadScalar(b);
      var rest :- Utf8Decode(b[n..]);
      Some([c] + rest)
  }

  lemma ReadScalarInverts(c: char, rest: seq<byte>)
    ensures ReadScalar(Utf8Char(c) + rest) == Some((c, |Utf8Char(c)|))
  {
    var v := c as int;
    var b := Utf8Char(c) + rest;
    var p := Utf8Char(c);
    assert forall i :: 0 <= i < |p| ==> b[i] == p[i];
    if |p| == 3 {
      assert v / 0x1000 == v / 0x40 / 0x40;
    } else if |p| == 4 {
      assert v / 0x1000 == v / 0x40 / 0x40;
      assert v / 0x40000 == v / 0x1000 / 0x40;
    }
  }

  /** Decoding recovers every string from its encoding. */
  lemma {:induction false} Utf8RoundTrip(s: string)
    ensures Utf8Decode(Utf8(s)) == Some(s)
  {
    if s != [] {
      ReadScalarInverts(s[0], Utf8(s[1..]));
      assert Utf8(s)[|Utf8Char(s[0])|..] == Utf8(s[1..]);
      Utf8RoundTrip(s[1..]);
      assert s == [s[0]] + s[1..];
    }
  }

  // -- UTF-16 ---------------------------------------------------------------

  function Utf16Char(c: char): (r: seq<int>)
    ensures 1 <= |r| <= 2
  {
    var v := c as int;
    if v < 0x10000 then [v]
    else [0xD800 + (v - 0x10000) / 0x400, 0xDC00 + (v - 0x10000) % 0x400]
  }

  /** A scalar above U+FFFF is a lead and a trail surrogate carrying ten bits each. */
  lemma SurrogatePair(c: char)
    ensures c as int < 0x10000 <==> |Utf16Char(c)| == 1
    ensures c as int < 0x10000 ==> Utf16Char(c)[0] == c as int
    ensures c as int >= 0x10000 ==>
              var (lead, trail) := (Utf16Char(c)[0] - 0xD800, Utf16Char(c)[1] - 0xDC00);
              0 <= lead < 0x400 && 0 <= trail < 0x400 && c as int == 0x10000 + 0x400 * lead + trail
  {
  }

  /** The code units of `s`. */
  function Utf16(s: string): seq<int>
  {
    if s == [] then [] else Utf16Char(s[0]) + Utf16(s[1..])
  }

  /** One scalar above U+FFFF, whose lead surrogate falls below the other, in U+E000..U+FFFF. */
  predicate SurrogateInverts(c: char, d: char)
  {
    0xFFFF < c as int && 0xE000 <= d as int <= 0xFFFF
  }

  lemma Utf16CharOrder(c: char, d: char)
    requires c < d
    ensures SurrogateInverts(d, c) ==> DecidedBelow(Utf16Char(d), Utf16Char(c))
    ensures !SurrogateInverts(d, c) ==> DecidedBelow(Utf16Char(c), Utf16Char(d))
  {
    var p, q := Utf16Char(c), Utf16Char(d);
    assert p[..0] == q[..0];
    if p[0] == q[0] {
      assert p[..1] == [p[0]] && q[..1] == [q[0]];
    }
  }

  /** At the first scalar where the strings differ, one is above U+FFFF and one in U+E000..U+FFFF. */
  predicate Distinguishes(s: string, t: string)
  {
    s != [] && t != [] &&
    if s[0] == t[0] then Distinguishes(s[1..], t[1..])
    else SurrogateInverts(s[0], t[0]) || SurrogateInverts(t[0], s[0])
  }

  /** The two orders put a pair differently exactly when it distinguishes them. */
  lemma {:induction false} OrdersDiffer(s: string, t: string)
    ensures (LexLe(Utf8(s), Utf8(t)) != LexLe(Utf16(s), Utf16(t))) <==> Distinguishes(s, t)
  {
    if s != [] && t != [] {
      var s16, t16 := Utf16(s[1..]), Utf16(t[1..]);
      Utf8OrderIsScalarOrder(s, t);
      if s[0] == t[0] {
        OrdersDiffer(s[1..], t[1..]);
        Utf8OrderIsScalarOrder(s[1..], t[1..]);
        LexCommonPrefix(Utf16Char(s[0]), s16, t16);
      } else if s[0] < t[0] {
        Utf16CharOrder(s[0], t[0]);
        DecideEither(Utf16Char(s[0]), Utf16Char(t[0]), s16, t16);
      } else {
        Utf16CharOrder(t[0], s[0]);
        DecideEither(Utf16Char(s[0]), Utf16Char(t[0]), s16, t16);
      }
    }
  }

  lemma DecideEither(p: seq<int>, q: seq<int>, x: seq<int>, y: seq<int>)
    ensures DecidedBelow(p, q) ==> LexLe(p + x, q + y) && !LexLe(q + y, p + x)
    ensures DecidedBelow(q, p) ==> LexLe(q + y, p + x) && !LexLe(p + x, q + y)
  {
    if DecidedBelow(p, q) {
      DecidedOrder(p, q, x, y);
    }
    if DecidedBelow(q, p) {
      DecidedOrder(q, p, y, x);
    }
  }

  // -- the guard on the conformance vectors' key sets -------------------------

  const ByUtf8: string -> seq<int> := (k: string) => Utf8(k)
  const ByUtf16: string -> seq<int> := (k: string) => Utf16(k)

  /** Refuses a key set that sorts alike under both orders. */
  function AssertDistinguishesUtf16Order(keys: seq<string>): Result<()>
  {
    if Sorted(keys, ByUtf8) == Sorted(keys, ByUtf16) then Raised else Ok(())
  }

  predicate HoldsDistinguishingPair(keys: seq<string>)
  {
    exists i, j :: 0 <= i < |keys| && 0 <= j < |keys| && Distinguishes(keys[i], keys[j])
  }

  /** The guard accepts a key set exactly when it holds a pair the two orders invert. */
  lemma GuardIsExact(keys: seq<string>)
    ensures AssertDistinguishesUtf16Order(keys).Ok? <==> HoldsDistinguishingPair(keys)
  {
    if HoldsDistinguishingPair(keys) {
      var i, j :| 0 <= i < |keys| && 0 <= j < |keys| && Distinguishes(keys[i], keys[j]);
      PairForcesDifference(keys, keys[i], keys[j]);
    } else {
      forall x, y | x in keys && y in keys
        ensures LexLe(ByUtf8(x), ByUtf8(y)) <==> LexLe(ByUtf16(x), ByUtf16(y))
      {
        OrdersDiffer(x, y);
      }
      SortsAgree(keys, ByUtf8, ByUtf16);
    }
  }

  lemma PairForcesDifference(keys: seq<string>, s: string, t: string)
    requires s in keys && t in keys && Distinguishes(s, t)
    ensures Sorted(keys, ByUtf8) != Sorted(keys, ByUtf16)
  {
    if Sorted(keys, ByUtf8) == Sorted(keys, ByUtf16) {
      var l := Sorted(keys, ByUtf8);
      SortedIsSort(keys, ByUtf8);
      SortedIsSort(keys, ByUtf16);
      var i :| 0 <= i < |l| && l[i] == s;
      var j :| 0 <= j < |l| && l[j] == t;
      OrdersDiffer(s, t);
      OrdersDiffer(t, s);
      DistinguishesSymmetric(s, t);
      DistinctOrders(s, t);
    }
  }

  lemma {:induction false} DistinguishesSymmetric(s: string, t: string)
    requires Distinguishes(s, t)
    ensures Distinguishes(t, s) && s != t
  {
    if s[0] == t[0] {
      DistinguishesSymmetric(s[1..], t[1..]);
    }
  }

  lemma DistinctOrders(s: string, t: string)
    requires s != t
    ensures LexLe(Utf8(s), Utf8(t)) != LexLe(Utf8(t), Utf8(s))
  {
    LexTotal(Utf8(s), Utf8(t));
    if LexLe(Utf8(s), Utf8(t)) && LexLe(Utf8(t), Utf8(s)) {
      LexAntisymmetric(Utf8(s), Utf8(t));
      Utf8Injective(s, t);
    }
  }
}
