/** Regrouping of a bit string between group widths, as bech32 does between bytes and symbols. */
module ConvertBits {
  import opened Basics
  import opened Bits

  predicate InRange(data: seq<int>, w: nat)
  {
    forall i :: 0 <= i < |data| ==> 0 <= data[i] < Pow2(w)
  }

  /** The last group of a padded regrouping: what is left over, filled up with zeros. */
  function PaddedGroup(left: seq<bool>, w: nat): seq<nat>
    requires |left| <= w
  {
    if left == [] then [] else [Value(left + Zeros(w - |left|))]
  }

  /** What `Convert` computes, stated on the bit string the data spells. */
  function Regrouped(data: seq<int>, frombits: nat, tobits: nat, pad: bool): Option<seq<nat>>
    requires frombits > 0 && tobits > 0
  {
    if !InRange(data, frombits) then None
    else
      var bits := BitString(data, frombits);
      var left := Leftover(bits, tobits);
      if pad then
        Some(Groups(bits, tobits) + PaddedGroup(left, tobits))
      else if |left| < frombits && left == Zeros(|left|) then
        Some(Groups(bits, tobits))
      else
        None
  }

  /** Shifting a value into the accumulator appends its bits, and the truncating mask drops none that count. */
  lemma ShiftIn(acc: nat, v: nat, bits: nat, w: nat, m: nat)
    requires v < Pow2(w) && bits + w <= m
    ensures BitsOf(Low(Shl(acc, w) + v, m), bits + w) == BitsOf(acc, bits) + BitsOf(v, w)
  {
    BitsOfLow(Shl(acc, w) + v, m, bits + w);
    BitsOfShl(acc, v, bits, w);
  }

  /** Taking the top group out of the accumulator takes its leading bits. */
  lemma TakeOut(acc: nat, bits: nat, w: nat)
    ensures BitsOf(acc, w + bits) == BitsOf(Low(Shr(acc, bits), w), w) + BitsOf(acc, bits)
  {
    BitsSplit(acc, w, bits);
    BitsOfLow(Shr(acc, bits), w, w);
  }

  /** The final shift pads the pending bits with zeros on the right. */
  lemma PadOut(acc: nat, bits: nat, w: nat)
    requires bits <= w
    ensures BitsOf(Low(Shl(acc, w - bits), w), w) == BitsOf(acc, bits) + Zeros(w - bits)
  {
    ShiftIn(acc, 0, bits, w - bits, w);
    ZeroBits(w - bits);
  }

  /** What the accumulator and the output spell, after `done` of the data. */
  ghost predicate Spells(done: seq<int>, frombits: nat, ret: seq<nat>, tobits: nat, acc: nat, bits: nat)
  {
    && InRange(done, frombits) && Within(ret, tobits)
    && BitString(done, frombits) == BitString(ret, tobits) + BitsOf(acc, bits)
  }

  lemma SpellsShiftIn(done: seq<int>, frombits: nat, ret: seq<nat>, tobits: nat, acc: nat, bits: nat, value: nat)
    requires Spells(done, frombits, ret, tobits, acc, bits) && bits < tobits && value < Pow2(frombits)
    ensures Spells(done + [value], frombits, ret, tobits,
                   Low(Shl(acc, frombits) + value, frombits + tobits - 1), bits + frombits)
  {
    ShiftIn(acc, value, bits, frombits, frombits + tobits - 1);
    BitStringSnoc(done, value, frombits);
    var whole := BitString(ret, tobits);
    assert (whole + BitsOf(acc, bits)) + BitsOf(value, frombits)
        == whole + (BitsOf(acc, bits) + BitsOf(value, frombits));
  }

  lemma SpellsTakeOut(done: seq<int>, frombits: nat, ret: seq<nat>, tobits: nat, acc: nat, bits: nat)
    requires Spells(done, frombits, ret, tobits, acc, tobits + bits)
    ensures Spells(done, frombits, ret + [Low(Shr(acc, bits), tobits)], tobits, acc, bits)
  {
    var group := Low(Shr(acc, bits), tobits);
    TakeOut(acc, bits, tobits);
    BitStringSnoc(ret, group, tobits);
    var whole := BitString(ret, tobits);
    assert whole + (BitsOf(group, tobits) + BitsOf(acc, bits)) == (whole + BitsOf(group, tobits)) + BitsOf(acc, bits);
  }

  lemma SpellsEnd(data: seq<int>, frombits: nat, ret: seq<nat>, tobits: nat, acc: nat, bits: nat)
    requires frombits > 0 && tobits > 0 && bits < tobits
    requires Spells(data, frombits, ret, tobits, acc, bits)
    ensures Regrouped(data, frombits, tobits, true)
         == Some(if bits != 0 then ret + [Low(Shl(acc, tobits - bits), tobits)] else ret)
    ensures Regrouped(data, frombits, tobits, false)
         == (if bits >= frombits || Low(Shl(acc, tobits - bits), tobits) != 0 then None else Some(ret))
  {
    var padded := Low(Shl(acc, tobits - bits), tobits);
    CutIsUnique(ret, tobits, BitsOf(acc, bits));
    PadOut(acc, bits, tobits);
    ValueOfBits(padded, tobits);
    assert PaddedGroup(BitsOf(acc, bits), tobits) == if bits != 0 then [padded] else [];
    assert ret + [] == ret;
    ZeroGroup(acc, bits, tobits);
  }

  lemma ZeroGroup(acc: nat, bits: nat, w: nat)
    requires bits < w
    ensures Low(Shl(acc, w - bits), w) == 0 <==> BitsOf(acc, bits) == Zeros(bits)
  {
    var x := Low(Shl(acc, w - bits), w);
    PadOut(acc, bits, w);
    ValueOfBits(x, w);
    ValueOfBits(0, w);
    ZeroBits(w);
    assert Zeros(bits) + Zeros(w - bits) == Zeros(w);
    if x == 0 {
      assert BitsOf(acc, bits) == Zeros(w)[..bits];
    }
  }

  lemma OutOfRange(data: seq<int>, i: nat, frombits: nat, tobits: nat, pad: bool)
    requires frombits > 0 && tobits > 0 && i < |data|
    requires data[i] < 0 || Shr(data[i], frombits) != 0
    ensures Regrouped(data, frombits, tobits, pad) == None
  {
    if data[i] >= 0 {
      ShiftedAway(data[i], frombits);
    }
  }

  /** The inner loop: whole groups leave the accumulator, leading bits first. */
  method Emit(ghost done: seq<int>, ghost frombits: nat, ret0: seq<nat>, tobits: nat, acc: nat, bits0: nat)
    returns (ret: seq<nat>, bits: nat)
    requires tobits > 0 && Spells(done, frombits, ret0, tobits, acc, bits0)
    ensures bits < tobits && Spells(done, frombits, ret, tobits, acc, bits)
  {
    ret, bits := ret0, bits0;
    while bits >= tobits
      invariant Spells(done, frombits, ret, tobits, acc, bits)
    {
      bits := bits - tobits;
      SpellsTakeOut(done, frombits, ret, tobits, acc, bits);
      ret := ret + [Low(Shr(acc, bits), tobits)];
    }
  }

  /** The accumulator loop, proved equal to the regrouping of the spelled bit string. */
  method Convert(data: seq<int>, frombits: nat, tobits: nat, pad: bool) returns (r: Option<seq<nat>>)
    requires frombits > 0 && tobits > 0
    ensures r == Regrouped(data, frombits, tobits, pad)
  {
    var acc: nat, bits: nat := 0, 0;
    var ret: seq<nat> := [];
    ghost var done: seq<int> := [];
    for i := 0 to |data|
      invariant done == data[..i] && bits < tobits
      invariant Spells(done, frombits, ret, tobits, acc, bits)
    {
      var value := data[i];
      if value < 0 || Shr(value, frombits) != 0 {
        OutOfRange(data, i, frombits, tobits, pad);
        return None;
      }
      ret, acc, bits := Absorb(done, frombits, ret, tobits, acc, bits, value);
      done := done + [value];
    }
    assert done == data;
    r := Finish(data, frombits, tobits, pad, ret, acc, bits);
  }

  /** One value goes into the accumulator and the groups it completes come out. */
  method Absorb(ghost done: seq<int>, frombits: nat, ret0: seq<nat>, tobits: nat, acc0: nat, bits0: nat, value: nat)
    returns (ret: seq<nat>, acc: nat, bits: nat)
    requires frombits > 0 && bits0 < tobits && Shr(value, frombits) == 0
    requires Spells(done, frombits, ret0, tobits, acc0, bits0)
    ensures bits < tobits && Spells(done + [value], frombits, ret, tobits, acc, bits)
  {
    ShiftedAway(value, frombits);
    SpellsShiftIn(done, frombits, ret0, tobits, acc0, bits0, value);
    acc := Low(Shl(acc0, frombits) + value, frombits + tobits - 1);
    ret, bits := Emit(done + [value], frombits, ret0, tobits, acc, bits0 + frombits);
  }

  /** After the loop: the pending bits are padded, or refused unless they are a short run of zeros. */
  method Finish(ghost data: seq<int>, frombits: nat, tobits: nat, pad: bool, ret: seq<nat>, acc: nat, bits: nat)
    returns (r: Option<seq<nat>>)
    requires frombits > 0 && bits < tobits && Spells(data, frombits, ret, tobits, acc, bits)
    ensures r == Regrouped(data, frombits, tobits, pad)
  {
    SpellsEnd(data, frombits, ret, tobits, acc, bits);
    if pad {
      return Some(if bits != 0 then ret + [Low(Shl(acc, tobits - bits), tobits)] else ret);
    } else if bits >= frombits || Low(Shl(acc, tobits - bits), tobits) != 0 {
      return None;
    }
    return Some(ret);
  }

  /** The padded regrouping spells the same bits, followed by fewer zeros than a group. */
  lemma PaddedSpells(bits: seq<bool>, w: nat) returns (k: nat)
    requires w > 0
    ensures k < w
    ensures BitString(Groups(bits, w) + PaddedGroup(Leftover(bits, w), w), w) == bits + Zeros(k)
    ensures Within(Groups(bits, w) + PaddedGroup(Leftover(bits, w), w), w)
  {
    var groups, left := Groups(bits, w), Leftover(bits, w);
    CutIsExact(bits, w);
    GroupsWithin(bits, w);
    if left == [] {
      k := 0;
      assert groups + [] == groups && bits + [] == bits;
      assert BitString(groups, w) + [] == BitString(groups, w);
    } else {
      k := w - |left|;
      PaddedTail(groups, left, w);
    }
  }

  lemma PaddedTail(groups: seq<nat>, left: seq<bool>, w: nat)
    requires 0 < |left| < w
    ensures BitString(groups + PaddedGroup(left, w), w) == (BitString(groups, w) + left) + Zeros(w - |left|)
    ensures PaddedGroup(left, w)[0] < Pow2(w)
  {
    var tail := left + Zeros(w - |left|);
    assert BitsOf(Value(tail), w) == tail && Value(tail) < Pow2(w) by { BitsOfValue(tail); }
    assert PaddedGroup(left, w) == [Value(tail)];
    BitStringSnoc(groups, Value(tail), w);
    Reassociate(BitString(groups, w), left, Zeros(w - |left|));
  }

  /** Padding out to narrower groups and regrouping back without padding recovers the data. */
  lemma PadThenUnpad(data: seq<nat>, w: nat, v: nat)
    requires 0 < v <= w && Within(data, w)
    ensures Regrouped(data, w, v, true).Some?
    ensures Regrouped(Regrouped(data, w, v, true).value, v, w, false) == Some(data)
  {
    var k := PaddedSpells(BitString(data, w), v);
    CutIsUnique(data, w, Zeros(k));
  }

  /** What the unpadded direction accepts is exactly the padded regrouping of what it yields. */
  lemma UnpadThenPad(data: seq<nat>, w: nat, v: nat)
    requires w > 0 && v > 0 && Regrouped(data, w, v, false).Some?
    ensures Regrouped(Regrouped(data, w, v, false).value, v, w, true) == Some(data)
  {
    var bits := BitString(data, w);
    var left := Leftover(bits, v);
    var out := Groups(bits, v);
    CutIsExact(bits, v);
    GroupsWithin(bits, v);
    assert BitString(out, v) + Zeros(|left|) == bits;
    ZerosAreThePadding(data, w, BitString(out, v), |left|);
  }

  /** A bit string that differs from the data's only in missing trailing zeros pads to the data. */
  lemma ZerosAreThePadding(data: seq<nat>, w: nat, shown: seq<bool>, k: nat)
    requires Within(data, w) && k < w
    requires BitString(data, w) == shown + Zeros(k)
    ensures Groups(shown, w) + PaddedGroup(Leftover(shown, w), w) == data
  {
    if k == 0 {
      assert shown + [] == shown && data + [] == data;
      CutIsUnique(data, w, []);
    } else {
      assert data != [];
      var init, last := data[..|data| - 1], data[|data| - 1];
      assert data == init + [last];
      PaddingOfLast(init, last, w, shown, k);
    }
  }

  lemma PaddingOfLast(init: seq<nat>, last: nat, w: nat, shown: seq<bool>, k: nat)
    requires Within(init, w) && last < Pow2(w) && 0 < k < w
    requires BitString(init + [last], w) == shown + Zeros(k)
    ensures Groups(shown, w) + PaddedGroup(Leftover(shown, w), w) == init + [last]
  {
    var bits := BitsOf(last, w);
    BitStringSnoc(init, last, w);
    SplitLast(BitString(init, w), bits, shown, k);
    CutIsUnique(init, w, bits[..w - k]);
    ValueOfBits(last, w);
  }

  lemma SplitLast(head: seq<bool>, last: seq<bool>, shown: seq<bool>, k: nat)
    requires head + last == shown + Zeros(k) && k <= |last|
    ensures shown == head + last[..|last| - k]
    ensures last == last[..|last| - k] + Zeros(k)
  {
    var all := head + last;
    assert shown == all[..|shown|];
    assert Zeros(k) == all[|shown|..];
    assert all[|shown|..] == last[|last| - k..];
  }
}
