/** The bech32m checksum of BIP-350: a linear map whose steps lose nothing. */
module Bech32 {
  import opened Basics
  import opened Bits

  // -- words ---------------------------------------------------------------------

  const WIDTH := 30

  /** The checksum register and everything mixed into it, most significant bit first. */
  type Word = s: seq<bool> | |s| == WIDTH witness Zeros(WIDTH)

  function Xor(a: Word, b: Word): (r: Word)
    ensures forall i :: 0 <= i < WIDTH ==> r[i] == (a[i] != b[i])
  {
    seq(WIDTH, i requires 0 <= i < WIDTH => a[i] != b[i])
  }

  const ZERO: Word := Zeros(WIDTH)

  function WordOf(n: nat): Word
  {
    BitsOf(n, WIDTH)
  }

  lemma XorShuffle(a: Word, b: Word, c: Word, d: Word)
    ensures Xor(Xor(a, b), Xor(c, d)) == Xor(Xor(a, c), Xor(b, d))
  {
  }

  lemma XorAssoc(a: Word, b: Word, c: Word)
    ensures Xor(Xor(a, b), c) == Xor(a, Xor(b, c))
  {
  }

  lemma XorCancels(a: Word, b: Word)
    ensures Xor(a, Xor(a, b)) == b && Xor(a, ZERO) == a && Xor(ZERO, a) == a
    ensures Xor(a, b) == ZERO <==> a == b
  {
    if Xor(a, b) == ZERO {
      forall i | 0 <= i < WIDTH ensures a[i] == b[i] {
        assert Xor(a, b)[i] == ZERO[i];
      }
    }
  }

  // -- the register ------------------------------------------------------------------

  const BECH32M_CONST := 0x2BC830A3

  const GENERATOR := [0x3B6A57B2, 0x26508E6D, 0x1EA119FA, 0x3D4233DD, 0x2A1462B3]

  /** `generator[i]` when bit `i` of the five top bits is set, else zero. */
  function Tap(top: seq<bool>, i: nat): Word
    requires |top| == 5 && i < 5
  {
    if top[4 - i] then WordOf(GENERATOR[i]) else ZERO
  }

  /** The first `n` of them mixed together. */
  function Mixed(top: seq<bool>, n: nat): Word
    requires |top| == 5 && n <= |top|
  {
    if n == 0 then ZERO else Xor(Mixed(top, n - 1), Tap(top, n - 1))
  }

  function Taps(top: seq<bool>): Word
    requires |top| == 5
  {
    Mixed(top, |top|)
  }

  /** The top five bits move out and select generators; the rest moves up. */
  function Shift(chk: Word): Word
  {
    Xor(chk[5..] + Zeros(5), Taps(chk[..5]))
  }

  function Step(chk: Word, value: nat): Word
  {
    Xor(Shift(chk), WordOf(value))
  }

  /** The register after `values`, from `chk`. */
  function Fold(chk: Word, values: seq<nat>): Word
    decreases |values|
  {
    if values == [] then chk else Fold(Step(chk, values[0]), values[1..])
  }

  /** What of the last value lies above the register: the next step would mask it off. */
  function Spill(values: seq<nat>): nat
  {
    if values == [] then 0 else Above(values[|values| - 1])
  }

  function Above(value: nat): nat
  {
    value / 0x4000_0000 * 0x4000_0000
  }

  function PolymodOf(values: seq<nat>): nat
  {
    Value(Fold(WordOf(1), values)) + Spill(values)
  }

  /** The loop over the symbols. */
  method Polymod(values: seq<nat>) returns (chk: nat)
    ensures chk == PolymodOf(values)
  {
    var register, spill := WordOf(1), 0;
    for k := 0 to |values|
      invariant Fold(register, values[k..]) == Fold(WordOf(1), values)
      invariant spill == Spill(values[..k])
    {
      ghost var before := register;
      var top := register[..5];
      register := Xor(register[5..] + Zeros(5), WordOf(values[k]));
      register := MixIn(register, top);
      spill := Above(values[k]);
      StepOrder(before, values[k]);
      ghost var rest := values[k..];
      assert rest[0] == values[k] && rest[1..] == values[k + 1..];
    }
    assert values[..|values|] == values;
    return Value(register) + spill;
  }

  lemma SymbolsDoNotSpill(values: seq<nat>)
    requires values != [] && values[|values| - 1] < 32
    ensures Spill(values) == 0
  {
  }

  /** The loop over the five generators. */
  method MixIn(shifted: Word, top: seq<bool>) returns (chk: Word)
    requires |top| == 5
    ensures chk == Xor(shifted, Taps(top))
  {
    chk := shifted;
    XorCancels(shifted, shifted);
    for i := 0 to |top|
      invariant chk == Xor(shifted, Mixed(top, i))
    {
      XorAssoc(shifted, Mixed(top, i), Tap(top, i));
      chk := Xor(chk, Tap(top, i));
    }
  }

  /** The symbol is mixed in before the generators; the order does not matter. */
  lemma StepOrder(chk: Word, value: nat)
    ensures Step(chk, value) == Xor(Xor(chk[5..] + Zeros(5), WordOf(value)), Taps(chk[..5]))
  {
  }

  // -- linearity -----------------------------------------------------------------

  lemma {:induction false} MixedLinear(a: seq<bool>, b: seq<bool>, c: seq<bool>, n: nat)
    requires |a| == |b| == |c| == 5 && n <= |c|
    requires forall i :: 0 <= i < 5 ==> c[i] == (a[i] != b[i])
    ensures Mixed(c, n) == Xor(Mixed(a, n), Mixed(b, n))
  {
    if n > 0 {
      MixedLinear(a, b, c, n - 1);
      assert Tap(c, n - 1) == Xor(Tap(a, n - 1), Tap(b, n - 1));
      XorShuffle(Mixed(a, n - 1), Mixed(b, n - 1), Tap(a, n - 1), Tap(b, n - 1));
    }
  }

  lemma ShiftLinear(a: Word, b: Word)
    ensures Shift(Xor(a, b)) == Xor(Shift(a), Shift(b))
  {
    var c := Xor(a, b);
    MixedLinear(a[..5], b[..5], c[..5], |c[..5]|);
    assert c[5..] + Zeros(5) == Xor(a[5..] + Zeros(5), b[5..] + Zeros(5));
    XorShuffle(a[5..] + Zeros(5), b[5..] + Zeros(5), Taps(a[..5]), Taps(b[..5]));
  }

  lemma StepSplit(c: Word, d: Word, w: nat)
    ensures Step(Xor(c, d), w) == Xor(Shift(c), Step(d, w))
  {
    ShiftLinear(c, d);
    XorAssoc(Shift(c), Shift(d), WordOf(w));
  }

  lemma LowBits(n: nat)
    ensures Shr(n, 4) == n / 16 && Shr(n, 3) == n / 8 && Shr(n, 2) == n / 4 && Shr(n, 1) == n / 2 && Shr(n, 0) == n
  {
    var n1 := n / 2;
    var n2 := n1 / 2;
    var n3 := n2 / 2;
    assert n2 == n / 4 && n3 == n / 8;
    assert Shr(n2, 2) == Shr(n3, 1) == n3 / 2;
    assert Shr(n1, 3) == Shr(n2, 2);
  }

  /** The low five bits of the five generators, as the rows of an invertible matrix. */
  lemma GeneratorTails()
    ensures var g := WordOf(GENERATOR[0]); g[25] && !g[26] && !g[27] && g[28] && !g[29]
    ensures var g := WordOf(GENERATOR[1]); !g[25] && g[26] && g[27] && !g[28] && g[29]
    ensures var g := WordOf(GENERATOR[2]); g[25] && g[26] && !g[27] && g[28] && !g[29]
    ensures var g := WordOf(GENERATOR[3]); g[25] && g[26] && g[27] && !g[28] && g[29]
    ensures var g := WordOf(GENERATOR[4]); g[25] && !g[26] && !g[27] && g[28] && g[29]
  {
    LowBits(GENERATOR[0]);
    LowBits(GENERATOR[1]);
    LowBits(GENERATOR[2]);
    LowBits(GENERATOR[3]);
    LowBits(GENERATOR[4]);
  }

  lemma MixedBit(top: seq<bool>, n: nat, j: nat)
    requires |top| == 5 && 0 < n <= |top| && j < WIDTH
    ensures Mixed(top, n)[j] == (Mixed(top, n - 1)[j] != (top[5 - n] && WordOf(GENERATOR[n - 1])[j]))
  {
  }

  lemma TapsBit(top: seq<bool>, j: nat)
    requires |top| == 5 && j < WIDTH
    ensures Taps(top)[j] ==
            (((((top[4] && WordOf(GENERATOR[0])[j]) != (top[3] && WordOf(GENERATOR[1])[j]))
                != (top[2] && WordOf(GENERATOR[2])[j])) != (top[1] && WordOf(GENERATOR[3])[j]))
                != (top[0] && WordOf(GENERATOR[4])[j]))
  {
    var n := |top|;
    MixedBit(top, n, j);
    MixedBit(top, n - 1, j);
    MixedBit(top, n - 2, j);
    MixedBit(top, n - 3, j);
    MixedBit(top, n - 4, j);
  }

  /** No choice of top bits is invisible in the low bits of the feedback. */
  lemma TapsSeparate(top: seq<bool>)
    requires |top| == 5
    requires forall j :: 25 <= j < WIDTH ==> !Taps(top)[j]
    ensures forall i :: 0 <= i < 5 ==> !top[i]
  {
    GeneratorTails();
    TapsBit(top, 25);
    TapsBit(top, 26);
    TapsBit(top, 27);
    TapsBit(top, 28);
    TapsBit(top, 29);
  }

  lemma {:induction false} MixedNothing(top: seq<bool>, n: nat)
    requires |top| == 5 && n <= |top| && forall i :: 0 <= i < 5 ==> !top[i]
    ensures Mixed(top, n) == ZERO
  {
    if n > 0 {
      MixedNothing(top, n - 1);
    }
  }

  lemma ShiftKernel(x: Word)
    requires Shift(x) == ZERO
    ensures x == ZERO
  {
    var up, taps := x[5..] + Zeros(5), Taps(x[..5]);
    XorCancels(up, taps);
    assert up == taps;
    assert forall j :: 25 <= j < WIDTH ==> !up[j];
    TapsSeparate(x[..5]);
    MixedNothing(x[..5], |x[..5]|);
    forall i | 0 <= i < WIDTH ensures x[i] == ZERO[i] {
      if i < 5 {
        assert x[i] == x[..5][i];
      } else {
        assert x[i] == up[i - 5];
      }
    }
  }

  /** No step merges two registers. */
  lemma StepInjective(a: Word, b: Word, v: nat)
    requires Step(a, v) == Step(b, v)
    ensures a == b
  {
    XorCommutes(Shift(a), WordOf(v));
    XorCommutes(Shift(b), WordOf(v));
    XorCancels(WordOf(v), Shift(a));
    XorCancels(WordOf(v), Shift(b));
    XorCancels(Shift(a), Shift(b));
    ShiftLinear(a, b);
    ShiftKernel(Xor(a, b));
    XorCancels(a, b);
  }

  lemma XorCommutes(a: Word, b: Word)
    ensures Xor(a, b) == Xor(b, a)
  {
  }

  lemma {:induction false} FoldAppend(c: Word, a: seq<nat>, b: seq<nat>)
    ensures Fold(c, a + b) == Fold(Fold(c, a), b)
    decreases |a|
  {
    if a == [] {
      assert a + b == b;
    } else {
      assert (a + b)[1..] == a[1..] + b;
      FoldAppend(Step(c, a[0]), a[1..], b);
    }
  }

  /** No run of symbols merges two different registers. */
  lemma {:induction false} FoldInjective(a: Word, b: Word, values: seq<nat>)
    requires Fold(a, values) == Fold(b, values)
    ensures a == b
    decreases |values|
  {
    if values != [] {
      FoldInjective(Step(a, values[0]), Step(b, values[0]), values[1..]);
      StepInjective(a, b, values[0]);
    }
  }

  // -- windows of six symbols ----------------------------------------------------------

  /** Symbols side by side in the low end of the register. */
  function Window(w: seq<nat>): Word
    requires |w| <= 6
  {
    BitStringLength(w, 5);
    Zeros(WIDTH - 5 * |w|) + BitString(w, 5)
  }

  /** While the register has room, a symbol arrives in it as it stands. */
  lemma StepWindow(w: seq<nat>, x: nat)
    requires |w| < 6 && x < 32
    ensures Step(Window(w), x) == Window(w + [x])
  {
    var bits, low := BitString(w, 5), BitsOf(x, 5);
    var k := WIDTH - 5 - 5 * |w|;
    assert Window(w) == Zeros(k + 5) + bits && |bits| == 5 * |w| by { BitStringLength(w, 5); }
    assert Window(w + [x]) == Zeros(k) + (bits + low) by { BitStringSnoc(w, x, 5); }
    ShiftUp(k, bits);
    SymbolWord(x);
    MixLow(Zeros(k) + bits, low);
    Reassociate(Zeros(k), bits, low);
  }

  /** With no bit at the top the register just moves up. */
  lemma ShiftUp(k: nat, bits: seq<bool>)
    requires k + 5 + |bits| == WIDTH
    ensures Shift(Zeros(k + 5) + bits) == (Zeros(k) + bits) + Zeros(5)
  {
    var reg := Zeros(k + 5) + bits;
    MixedNothing(reg[..5], |reg[..5]|);
    assert reg[5..] == Zeros(k) + bits;
    XorCancels(reg[5..] + Zeros(5), ZERO);
  }

  lemma MixLow(high: seq<bool>, low: seq<bool>)
    requires |high| == 25 && |low| == 5
    ensures Xor(high + Zeros(5), Zeros(25) + low) == high + low
  {
  }

  lemma SymbolWord(x: nat)
    requires x < 32
    ensures WordOf(x) == Zeros(25) + BitsOf(x, 5)
  {
    assert Pow2(5) == 32;
    BitsSplit(x, 25, 5);
    ShiftedAway(x, 5);
    ZeroBits(25);
  }

  predicate Symbols(values: seq<nat>)
  {
    forall i :: 0 <= i < |values| ==> values[i] < 32
  }

  function ZeroSymbols(n: nat): (r: seq<nat>)
    ensures |r| == n
  {
    if n == 0 then [] else ZeroSymbols(n - 1) + [0]
  }

  lemma SplitStep(c: Word, p: seq<nat>, x: nat)
    requires |p| < 6 && x < 32
    ensures Step(Xor(c, Window(p)), x) == Xor(Step(c, 0), Window(p + [x]))
  {
    StepSplit(c, Window(p), x);
    StepWindow(p, x);
    ZeroStep(c);
  }

  lemma ZeroStep(c: Word)
    ensures Step(c, 0) == Shift(c)
  {
    SymbolWord(0);
    ZeroBits(5);
    assert WordOf(0) == ZERO;
    XorCancels(Shift(c), ZERO);
  }

  lemma FoldSnoc(c: Word, a: seq<nat>, x: nat)
    ensures Fold(c, a + [x]) == Step(Fold(c, a), x)
  {
    FoldAppend(c, a, [x]);
    assert [x][1..] == [];
  }

  /** Up to six symbols reach the register as they stand, on top of what as many zeros would leave. */
  lemma {:induction false} FoldSymbols(c: Word, w: seq<nat>)
    requires |w| <= 6 && Symbols(w)
    ensures Fold(c, w) == Xor(Fold(c, ZeroSymbols(|w|)), Window(w))
    decreases |w|
  {
    if w == [] {
      FoldNothing(c, w);
    } else {
      FoldSymbols(c, w[..|w| - 1]);
      FoldSymbolsLast(c, w[..|w| - 1], w[|w| - 1], w);
    }
  }

  lemma FoldSymbolsLast(c: Word, init: seq<nat>, x: nat, w: seq<nat>)
    requires |init| < 6 && x < 32 && w == init + [x]
    requires Fold(c, init) == Xor(Fold(c, ZeroSymbols(|init|)), Window(init))
    ensures Fold(c, w) == Xor(Fold(c, ZeroSymbols(|w|)), Window(w))
  {
    FoldSymbolsStep(c, init, x);
  }

  lemma FoldNothing(c: Word, w: seq<nat>)
    requires w == []
    ensures Fold(c, w) == Xor(Fold(c, ZeroSymbols(|w|)), Window(w))
  {
    assert Window(w) == ZERO;
    assert ZeroSymbols(|w|) == [];
    XorCancels(c, ZERO);
  }

  lemma FoldSymbolsStep(c: Word, init: seq<nat>, x: nat)
    requires |init| < 6 && x < 32
    requires Fold(c, init) == Xor(Fold(c, ZeroSymbols(|init|)), Window(init))
    ensures Fold(c, init + [x]) == Xor(Fold(c, ZeroSymbols(|init| + 1)), Window(init + [x]))
  {
    FoldSnoc(c, init, x);
    FoldSnoc(c, ZeroSymbols(|init|), 0);
    SplitStep(Fold(c, ZeroSymbols(|init|)), init, x);
  }

  lemma WindowInjective(w: seq<nat>, v: seq<nat>)
    requires |w| == |v| <= 6 && Symbols(w) && Symbols(v) && Window(w) == Window(v)
    ensures w == v
  {
    assert Pow2(5) == 32;
    var k := WIDTH - 5 * |w|;
    BitStringLength(w, 5);
    BitStringLength(v, 5);
    assert BitString(w, 5) == Window(w)[k..] == Window(v)[k..] == BitString(v, 5);
    CutIsUnique(w, 5, []);
    CutIsUnique(v, 5, []);
  }

  lemma ValueInjective(a: Word, b: Word)
    requires Value(a) == Value(b)
    ensures a == b
  {
    BitsOfValue(a);
    BitsOfValue(b);
  }

  // -- the checksum ------------------------------------------------------------------

  function HrpExpand(hrp: string): seq<nat>
  {
    seq(|hrp|, i requires 0 <= i < |hrp| => hrp[i] as int / 32) + [0] +
    seq(|hrp|, i requires 0 <= i < |hrp| => hrp[i] as int % 32)
  }

  /** The high halves of the characters, a zero, and then their low halves. */
  lemma HrpHalves(hrp: string, i: nat)
    ensures |HrpExpand(hrp)| == 2 * |hrp| + 1 && HrpExpand(hrp)[|hrp|] == 0
    ensures i < |hrp| ==>
              var high, low := HrpExpand(hrp)[i], HrpExpand(hrp)[|hrp| + 1 + i];
              hrp[i] as int == 32 * high + low && low < 32
  {
  }

  /** The polymod of the whole with six zeros, adjusted by the constant and cut into six symbols. */
  function CreateChecksum(hrp: string, data: seq<nat>): seq<nat>
  {
    Groups(Xor(Fold(WordOf(1), HrpExpand(hrp) + data + ZeroSymbols(6)), WordOf(BECH32M_CONST)), 5)
  }

  /** A register's six symbols, put side by side, are the register. */
  lemma ChecksumSpells(reg: Word)
    ensures |Groups(reg, 5)| == 6 && Symbols(Groups(reg, 5)) && Window(Groups(reg, 5)) == reg
  {
    GroupsLength(reg, 5);
    SixFives(|Groups(reg, 5)|, |Leftover(reg, 5)|);
    CutIsExact(reg, 5);
    GroupsWithin(reg, 5);
    assert Pow2(5) == 32;
  }

  lemma SixFives(n: nat, l: nat)
    requires n * 5 + l == 30 && l < 5
    ensures n == 6 && l == 0
  {
  }

  lemma ChecksumIsSixSymbols(hrp: string, data: seq<nat>)
    ensures |CreateChecksum(hrp, data)| == 6 && Symbols(CreateChecksum(hrp, data))
  {
    ChecksumSpells(Xor(Fold(WordOf(1), HrpExpand(hrp) + data + ZeroSymbols(6)), WordOf(BECH32M_CONST)));
  }

  /** Symbols that spell what six zeros would leave, mixed with a target, bring the register to the target. */
  lemma CheckedFold(c: Word, values: seq<nat>, target: Word, n: nat)
    requires n == 6
    ensures Fold(c, values + Groups(Xor(Fold(c, values + ZeroSymbols(n)), target), 5)) == target
  {
    var checksum := Groups(Xor(Fold(c, values + ZeroSymbols(n)), target), 5);
    var d := Fold(c, values);
    var bare := Fold(d, ZeroSymbols(n));
    FoldAppend(c, values, checksum);
    FoldAppend(c, values, ZeroSymbols(n));
    ChecksumSpells(Xor(bare, target));
    FoldSymbols(d, checksum);
    XorCancels(bare, target);
  }

  /** For every human-readable part and data of any length, the checksummed whole satisfies BIP-350. */
  lemma ChecksumVerifies(hrp: string, data: seq<nat>)
    ensures PolymodOf(HrpExpand(hrp) + data + CreateChecksum(hrp, data)) == BECH32M_CONST
  {
    var values := HrpExpand(hrp) + data;
    CheckedFold(WordOf(1), values, WordOf(BECH32M_CONST), 6);
    ConstantFits();
    ChecksumIsSixSymbols(hrp, data);
    SymbolsDoNotSpill(values + CreateChecksum(hrp, data));
  }

  lemma ConstantFits()
    ensures Value(WordOf(BECH32M_CONST)) == BECH32M_CONST
  {
    assert Pow2(10) == 1024;
    assert Pow2(20) == 1048576;
    assert BECH32M_CONST < Pow2(30);
    WordValue(BECH32M_CONST, 30);
  }

  lemma WordValue(x: nat, w: nat)
    requires w == WIDTH && x < Pow2(w)
    ensures Value(WordOf(x)) == x
  {
    ValueOfBits(x, w);
  }

  lemma SameSpill(before: seq<nat>, w: seq<nat>, v: seq<nat>, after: seq<nat>)
    requires |w| == |v| && Symbols(w) && Symbols(v) && w != v
    ensures Spill(before + w + after) == Spill(before + v + after)
  {
    if after == [] {
      SymbolsDoNotSpill(before + w + after);
      SymbolsDoNotSpill(before + v + after);
    }
  }

  /** Changing up to six consecutive symbols, however many of them, changes the polymod. */
  lemma BurstErrorDetected(before: seq<nat>, w: seq<nat>, v: seq<nat>, after: seq<nat>)
    requires |w| == |v| <= 6 && Symbols(w) && Symbols(v) && w != v
    ensures PolymodOf(before + w + after) != PolymodOf(before + v + after)
  {
    var c := Fold(WordOf(1), before);
    FoldAppend(WordOf(1), before + w, after);
    FoldAppend(WordOf(1), before + v, after);
    FoldAppend(WordOf(1), before, w);
    FoldAppend(WordOf(1), before, v);
    SameSpill(before, w, v, after);
    if PolymodOf(before + w + after) == PolymodOf(before + v + after) {
      ValueInjective(Fold(Fold(c, w), after), Fold(Fold(c, v), after));
      FoldInjective(Fold(c, w), Fold(c, v), after);
      SameWindow(c, w, v);
    }
  }

  lemma SameWindow(c: Word, w: seq<nat>, v: seq<nat>)
    requires |w| == |v| <= 6 && Symbols(w) && Symbols(v) && Fold(c, w) == Fold(c, v)
    ensures w == v
  {
    FoldSymbols(c, w);
    FoldSymbols(c, v);
    var bare := Fold(c, ZeroSymbols(|w|));
    XorCancels(bare, Window(w));
    XorCancels(bare, Window(v));
    WindowInjective(w, v);
  }

  /** In particular, changing any one data or checksum symbol of a checksummed whole breaks it. */
  lemma SingleErrorDetected(hrp: string, data: seq<nat>, i: nat, y: nat)
    requires Symbols(data) && y < 32
    requires i < |data + CreateChecksum(hrp, data)| && (data + CreateChecksum(hrp, data))[i] != y
    ensures PolymodOf(HrpExpand(hrp) + (data + CreateChecksum(hrp, data))[i := y]) != BECH32M_CONST
  {
    var checksum := CreateChecksum(hrp, data);
    var code := data + checksum;
    assert Symbols(code) by { ChecksumIsSixSymbols(hrp, data); }
    assert PolymodOf(HrpExpand(hrp) + code) == BECH32M_CONST by {
      ChecksumVerifies(hrp, data);
      AssocSymbols(HrpExpand(hrp), data, checksum);
    }
    ReplaceOne(HrpExpand(hrp), code, i, code[i]);
    ReplaceOne(HrpExpand(hrp), code, i, y);
    assert code[i := code[i]] == code;
    BurstErrorDetected(HrpExpand(hrp) + code[..i], [code[i]], [y], code[i + 1..]);
  }

  lemma AssocSymbols(a: seq<nat>, b: seq<nat>, c: seq<nat>)
    ensures a + b + c == a + (b + c)
  {
  }

  lemma ReplaceOne(a: seq<nat>, code: seq<nat>, i: nat, y: nat)
    requires i < |code|
    ensures a + code[i := y] == a + code[..i] + [y] + code[i + 1..]
  {
  }
}
