/** LEB128 varints and zigzag, the primitive encodings of the wire format. */
module Varint {
  import opened Basics

  const TWO_63 := 0x8000_0000_0000_0000
  const TWO_64 := 0x1_0000_0000_0000_0000

  // -- varint ---------------------------------------------------------------

  /** The bytes `Varint` produces, least significant group of seven bits first. */
  function VarintBytes(n: nat): (r: seq<byte>)
    ensures r != []
  {
    if n < 128 then [n] else [128 + n % 128] + VarintBytes(n / 128)
  }

  /** The encoder loop: seven data bits per byte, high bit continues. */
  method Varint(value: int) returns (r: Result<seq<byte>>)
    ensures r.Raised? <==> value < 0
    ensures r.Ok? ==> r.value == VarintBytes(value)
  {
    if value < 0 {
      return Raised;
    }
    var v: nat := value;
    var out: seq<byte> := [];
    while true
      invariant out + VarintBytes(v) == VarintBytes(value)
      decreases v
    {
      var low := v % 128;
      ghost var before := v;
      v := v / 128;
      if v != 0 {
        assert out + VarintBytes(before) == (out + [128 + low]) + VarintBytes(v);
        out := out + [128 + low];
      } else {
        return Ok(out + [low]);
      }
    }
  }

  /** A reader of one varint, independent of the encoder: the value and what follows it. */
  function ReadVarint(s: seq<byte>): (r: Option<(nat, seq<byte>)>)
  {
    if s == [] then None
    else if s[0] < 128 then Some((s[0], s[1..]))
    else
      var (high, rest) :- ReadVarint(s[1..]);
      Some((s[0] - 128 + 128 * high, rest))
  }

  /** A varint is self-delimiting and invertible, whatever follows it. */
  lemma {:induction false} ReadVarintInverts(n: nat, rest: seq<byte>)
    ensures ReadVarint(VarintBytes(n) + rest) == Some((n, rest))
  {
    var s := VarintBytes(n) + rest;
    if n < 128 {
      assert s[1..] == rest;
    } else {
      assert s[1..] == VarintBytes(n / 128) + rest;
      ReadVarintInverts(n / 128, rest);
    }
  }

  function Pow128(i: nat): (r: nat)
    ensures r >= 1
  {
    if i == 0 then 1 else 128 * Pow128(i - 1)
  }

  lemma QuotientOfQuotient(n: nat, b: nat)
    requires b >= 1
    ensures n / 128 / b == n / (128 * b)
  {
    var q, r := n / 128 / b, n / 128 % b;
    assert n / 128 == q * b + r;
    var m := 128 * b;
    assert n == q * m + (128 * r + n % 128) by {
      assert 128 * (q * b) == q * m;
    }
    Divides(n, m, q, 128 * r + n % 128);
  }

  lemma MulMonotone(a: nat, b: nat, m: nat)
    ensures a <= b ==> a * m <= b * m
  {
  }

  lemma Divides(n: nat, m: nat, q: nat, r: nat)
    requires m >= 1 && n == q * m + r && r < m
    ensures n / m == q
  {
    var p := n / m;
    MulMonotone(p + 1, q, m);
    MulMonotone(q + 1, p, m);
  }

  /** Byte `i` holds bits `7 i` to `7 i + 6`, and its high bit is set on every byte but the last. */
  lemma {:induction false} VarintDigits(n: nat, i: nat)
    requires i < |VarintBytes(n)|
    ensures VarintBytes(n)[i] % 128 == n / Pow128(i) % 128
    ensures VarintBytes(n)[i] >= 128 <==> i + 1 < |VarintBytes(n)|
  {
    if i > 0 {
      VarintDigits(n / 128, i - 1);
      QuotientOfQuotient(n, Pow128(i - 1));
    }
  }

  /** No reading of a varint starts with a redundant most significant zero group. */
  predicate Minimal(s: seq<byte>)
  {
    s != [] && (s[0] >= 128 ==> |s| > 1 && s[1] != 0 && Minimal(s[1..]))
  }

  /** Conversely every minimally written varint is the encoder's own output. */
  lemma {:induction false} VarintIsCanonical(s: seq<byte>)
    requires Minimal(s)
    ensures ReadVarint(s).Some?
    ensures var (n, rest) := ReadVarint(s).value;
            s == VarintBytes(n) + rest && (s[0] != 0 ==> n > 0)
  {
    if s[0] < 128 {
      assert s == [s[0]] + s[1..];
    } else {
      VarintIsCanonical(s[1..]);
      var (high, rest) := ReadVarint(s[1..]).value;
      var n := s[0] - 128 + 128 * high;
      assert n / 128 == high && n % 128 == s[0] - 128;
      assert s == [s[0]] + s[1..];
      assert VarintBytes(n) + rest == [s[0]] + (VarintBytes(high) + rest);
    }
  }

  /** `bound` is 128 to the power `groups`. */
  lemma {:induction false} VarintLengthBound(n: nat, groups: nat, bound: nat)
    requires groups >= 1 && bound == Pow128(groups) && n < bound
    ensures |VarintBytes(n)| <= groups
  {
    if n >= 128 {
      VarintLengthBound(n / 128, groups - 1, bound / 128);
    }
  }

  /** Every u64 fits ten bytes. */
  lemma VarintU64Length(n: nat)
    requires n < TWO_64
    ensures |VarintBytes(n)| <= 10
  {
    assert Pow128(2) == 16384;
    assert Pow128(4) == 268435456;
    assert Pow128(6) == 4398046511104;
    assert Pow128(8) == 72057594037927936;
    assert Pow128(10) == 1180591620717411303424;
    VarintLengthBound(n, 10, Pow128(10));
  }

  // -- zigzag ---------------------------------------------------------------

  /** Exclusive or of two unbounded two's complement integers. */
  function Xor(a: int, b: int): int
    decreases (if a < 0 then -a else a) + (if b < 0 then -b else b)
  {
    if (a == 0 || a == -1) && (b == 0 || b == -1) then
      if a == b then 0 else -1
    else
      2 * Xor(a / 2, b / 2) + (if a % 2 == b % 2 then 0 else 1)
  }

  lemma {:induction false} XorZero(a: int)
    ensures Xor(a, 0) == a
    decreases if a < 0 then -a else a
  {
    if a != 0 && a != -1 {
      XorZero(a / 2);
    }
  }

  lemma {:induction false} XorMinusOne(a: int)
    ensures Xor(a, -1) == -1 - a
    decreases if a < 0 then -a else a
  {
    if a != 0 && a != -1 {
      XorMinusOne(a / 2);
    }
  }

  /** `(n << 1) ^ (n >> 63)` with an arithmetic shift, truncated to 64 bits. */
  function ZigZag(value: int): (r: Result<nat>)
    ensures r.Ok? <==> -TWO_63 <= value < TWO_63
    ensures r.Ok? ==> r.value == (if value >= 0 then 2 * value else -2 * value - 1) < TWO_64
  {
    if -TWO_63 <= value < TWO_63 then
      XorZero(2 * value);
      XorMinusOne(2 * value);
      Ok(Xor(2 * value, value / TWO_63) % TWO_64)
    else
      Raised
  }

  /** The inverse of `ZigZag`, on all of u64. */
  function UnZigZag(u: nat): int
  {
    if u % 2 == 0 then u / 2 else -(u / 2) - 1
  }

  /** Zigzag is a bijection between i64 and u64. */
  lemma ZigZagBijection(value: int, u: nat)
    ensures -TWO_63 <= value < TWO_63 ==> UnZigZag(ZigZag(value).value) == value
    ensures u < TWO_64 ==> ZigZag(UnZigZag(u)) == Ok(u)
  {
    if u < TWO_64 {
      var v := UnZigZag(u);
      assert u % 2 == 0 ==> u == 2 * v;
      assert u % 2 == 1 ==> u == -2 * v - 1;
    }
  }
}
