/** Big-endian bit strings: the meaning both regroupings of the codec preserve. */
module Bits {

  function Pow2(n: nat): (r: nat)
    ensures r >= 1
  {
    if n == 0 then 1 else 2 * Pow2(n - 1)
  }

  /** The low `w` bits of `x`, most significant first. */
  function BitsOf(x: nat, w: nat): (r: seq<bool>)
    ensures |r| == w
    ensures forall i :: 0 <= i < w ==> r[i] == (Shr(x, w - 1 - i) % 2 == 1)
  {
    seq(w, i requires 0 <= i < w => Shr(x, w - 1 - i) % 2 == 1)
  }

  /** The number a bit string spells. */
  function Value(bits: seq<bool>): (r: nat)
  {
    if bits == [] then 0
    else 2 * Value(bits[..|bits| - 1]) + (if bits[|bits| - 1] then 1 else 0)
  }

  /** The bit string of a sequence of `w`-bit groups. */
  function BitString(groups: seq<nat>, w: nat): seq<bool>
  {
    if groups == [] then [] else BitsOf(groups[0], w) + BitString(groups[1..], w)
  }

  /** The whole `w`-bit groups of a bit string. */
  function Groups(bits: seq<bool>, w: nat): seq<nat>
    requires w > 0
    decreases |bits|
  {
    if |bits| < w then [] else [Value(bits[..w])] + Groups(bits[w..], w)
  }

  /** What is left of a bit string after its whole `w`-bit groups. */
  function Leftover(bits: seq<bool>, w: nat): (r: seq<bool>)
    requires w > 0
    ensures |r| < w
    decreases |bits|
  {
    if |bits| < w then bits else Leftover(bits[w..], w)
  }

  predicate Within(groups: seq<nat>, w: nat)
  {
    forall i :: 0 <= i < |groups| ==> groups[i] < Pow2(w)
  }

  function Zeros(n: nat): (r: seq<bool>)
    ensures |r| == n
  {
    seq(n, _ => false)
  }

  // -- shifts and masks ---------------------------------------------------------

  /** `x << n`. */
  function Shl(x: nat, n: nat): nat
  {
    if n == 0 then x else 2 * Shl(x, n - 1)
  }

  /** `x >> n`. */
  function Shr(x: nat, n: nat): nat
  {
    if n == 0 then x else Shr(x / 2, n - 1)
  }

  /** `x & ((1 << n) - 1)`. */
  function Low(x: nat, n: nat): (r: nat)
    ensures r < Pow2(n)
    decreases n
  {
    if n == 0 then 0 else 2 * Low(x / 2, n - 1) + x % 2
  }

  lemma {:induction false} ShiftedAway(x: nat, n: nat)
    ensures Shr(x, n) == 0 <==> x < Pow2(n)
    decreases n
  {
    if n > 0 {
      ShiftedAway(x / 2, n - 1);
    }
  }

  // -- one group ------------------------------------------------------------

  lemma BitsOfHalf(x: nat, w: nat)
    requires w > 0
    ensures BitsOf(x, w) == BitsOf(x / 2, w - 1) + [x % 2 == 1]
  {
    forall i | 0 <= i < w - 1 ensures BitsOf(x, w)[i] == BitsOf(x / 2, w - 1)[i] {
      assert Shr(x, w - 1 - i) == Shr(x / 2, w - 2 - i);
    }
  }

  lemma {:induction false} ValueOfBits(x: nat, w: nat)
    requires x < Pow2(w)
    ensures Value(BitsOf(x, w)) == x
  {
    if w > 0 {
      ValueOfBits(x / 2, w - 1);
      BitsOfHalf(x, w);
      assert BitsOf(x, w)[..w - 1] == BitsOf(x / 2, w - 1);
    }
  }

  lemma {:induction false} BitsOfValue(bits: seq<bool>)
    ensures Value(bits) < Pow2(|bits|) && BitsOf(Value(bits), |bits|) == bits
  {
    if bits != [] {
      var init := bits[..|bits| - 1];
      BitsOfValue(init);
      assert Value(bits) / 2 == Value(init);
      BitsOfHalf(Value(bits), |bits|);
      assert bits == init + [bits[|bits| - 1]];
    }
  }

  lemma {:induction false} ZeroBits(w: nat)
    ensures BitsOf(0, w) == Zeros(w)
  {
    if w > 0 {
      ZeroBits(w - 1);
      BitsOfHalf(0, w);
    }
  }

  /** The low bits of `x` are the low bits of its shift followed by the bits shifted out. */
  lemma {:induction false} BitsSplit(x: nat, a: nat, b: nat)
    ensures BitsOf(x, a + b) == BitsOf(Shr(x, b), a) + BitsOf(x, b)
    decreases b
  {
    if b > 0 {
      BitsSplit(x / 2, a, b - 1);
      BitsOfHalf(x, a + b);
      BitsOfHalf(x, b);
    }
  }

  /** Masking to `m` bits keeps every bit below `m`. */
  lemma {:induction false} BitsOfLow(x: nat, m: nat, w: nat)
    requires w <= m
    ensures BitsOf(Low(x, m), w) == BitsOf(x, w)
    decreases w
  {
    if w > 0 {
      assert Low(x, m) / 2 == Low(x / 2, m - 1);
      BitsOfLow(x / 2, m - 1, w - 1);
      BitsOfHalf(x, w);
      BitsOfHalf(Low(x, m), w);
    }
  }

  /** Shifting a value in appends its bits. */
  lemma {:induction false} BitsOfShl(x: nat, v: nat, a: nat, w: nat)
    requires v < Pow2(w)
    ensures BitsOf(Shl(x, w) + v, a + w) == BitsOf(x, a) + BitsOf(v, w)
    decreases w
  {
    if w > 0 {
      assert (Shl(x, w) + v) / 2 == Shl(x, w - 1) + v / 2;
      BitsOfShl(x, v / 2, a, w - 1);
      BitsOfHalf(Shl(x, w) + v, a + w);
      BitsOfHalf(v, w);
    }
  }

  // -- sequences of groups ----------------------------------------------------

  lemma {:induction false} GroupsWithin(bits: seq<bool>, w: nat)
    requires w > 0
    ensures Within(Groups(bits, w), w)
    decreases |bits|
  {
    if |bits| >= w {
      GroupsWithin(bits[w..], w);
      BitsOfValue(bits[..w]);
    }
  }

  /** Cutting a bit string into groups and a leftover loses nothing. */
  lemma {:induction false} CutIsExact(bits: seq<bool>, w: nat)
    requires w > 0
    ensures BitString(Groups(bits, w), w) + Leftover(bits, w) == bits
    decreases |bits|
  {
    if |bits| >= w {
      var first, rest := bits[..w], bits[w..];
      var groups, left := Groups(rest, w), Leftover(rest, w);
      CutIsExact(rest, w);
      assert BitsOf(Value(first), w) == first by { BitsOfValue(first); }
      BitStringCons(Value(first), groups, w);
      Reassociate(first, BitString(groups, w), left);
    }
  }

  lemma Reassociate(a: seq<bool>, b: seq<bool>, c: seq<bool>)
    ensures (a + b) + c == a + (b + c)
  {
  }

  lemma BitStringCons(x: nat, groups: seq<nat>, w: nat)
    ensures BitString([x] + groups, w) == BitsOf(x, w) + BitString(groups, w)
  {
    assert ([x] + groups)[1..] == groups;
  }

  /** Only one sequence of groups and one leftover spell a given bit string. */
  lemma {:induction false} CutIsUnique(groups: seq<nat>, w: nat, left: seq<bool>)
    requires w > 0 && Within(groups, w) && |left| < w
    ensures Groups(BitString(groups, w) + left, w) == groups
    ensures Leftover(BitString(groups, w) + left, w) == left
  {
    var bits := BitString(groups, w) + left;
    if groups == [] {
      assert bits == left;
    } else {
      CutIsUnique(groups[1..], w, left);
      ValueOfBits(groups[0], w);
      assert bits[..w] == BitsOf(groups[0], w);
      assert bits[w..] == BitString(groups[1..], w) + left;
      assert groups == [groups[0]] + groups[1..];
    }
  }

  /** Regrouping that leaves nothing over can be regrouped back. */
  lemma RegroupExact(values: seq<nat>, a: nat, b: nat)
    requires a > 0 && b > 0 && Within(values, a)
    requires Leftover(BitString(values, a), b) == []
    ensures var octets := Groups(BitString(values, a), b);
            && Groups(BitString(octets, b), a) == values
            && Leftover(BitString(octets, b), a) == []
  {
    var bits := BitString(values, a);
    assert BitString(Groups(bits, b), b) == bits by {
      CutIsExact(bits, b);
      assert BitString(Groups(bits, b), b) + [] == BitString(Groups(bits, b), b);
    }
    assert bits + [] == bits;
    CutIsUnique(values, a, []);
  }

  /** How many groups a regrouping yields, and how many bits it leaves. */
  lemma RegroupLength(values: seq<nat>, a: nat, b: nat)
    requires a > 0 && b > 0
    ensures |Groups(BitString(values, a), b)| * b + |Leftover(BitString(values, a), b)| == |values| * a
  {
    BitStringLength(values, a);
    GroupsLength(BitString(values, a), b);
  }

  lemma {:induction false} BitStringAppend(a: seq<nat>, b: seq<nat>, w: nat)
    ensures BitString(a + b, w) == BitString(a, w) + BitString(b, w)
  {
    if a == [] {
      assert a + b == b;
    } else {
      BitStringAppend(a[1..], b, w);
      assert (a + b)[0] == a[0] && (a + b)[1..] == a[1..] + b;
      Reassociate(BitsOf(a[0], w), BitString(a[1..], w), BitString(b, w));
    }
  }

  lemma BitStringSnoc(a: seq<nat>, x: nat, w: nat)
    ensures BitString(a + [x], w) == BitString(a, w) + BitsOf(x, w)
  {
    BitStringAppend(a, [x], w);
    assert BitString([x], w) == BitsOf(x, w) + [];
  }

  // -- lengths ------------------------------------------------------------------

  lemma {:induction false} BitStringLength(groups: seq<nat>, w: nat)
    ensures |BitString(groups, w)| == |groups| * w
  {
    if groups != [] {
      BitStringLength(groups[1..], w);
      assert |groups| * w == (|groups| - 1) * w + w;
    }
  }

  lemma {:induction false} GroupsLength(bits: seq<bool>, w: nat)
    requires w > 0
    ensures |Groups(bits, w)| * w + |Leftover(bits, w)| == |bits|
    decreases |bits|
  {
    if |bits| >= w {
      GroupsLength(bits[w..], w);
      var n := |Groups(bits[w..], w)|;
      assert (n + 1) * w == n * w + w;
    }
  }
}
