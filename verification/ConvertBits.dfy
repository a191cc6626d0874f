/** convertbits: general power-of-two base conversion through a masked accumulator. */
module ConvertBits {
  import opened Python
  import opened Bits
  import opened Checksums
  import opened BitGroups

  lemma MaskCuts(x: nat, k: nat)
    ensures Pow2(k) == Shl(1, k)
    ensures BitAnd(x, Pow2(k) - 1) == Cut(x, k)
    ensures Cut(x, k) < Pow2(k)
  {
    AndMask(x, k);
    CutIsMod(x, k);
    CutBound(x, k);
  }

  lemma {:induction false} FitsSmall(x: nat, k: nat)
    ensures Fits(x, k) <==> x < Pow2(k)
  {
    if k > 0 { FitsSmall(x / 2, k - 1); }
  }

  /** The unread bits after a value has been shifted into the masked accumulator. */
  lemma ShiftIn(acc: nat, bits: nat, value: nat, from: nat, to: nat) returns (next: nat)
    requires value < Pow2(from) && bits < to
    ensures next == BitAnd(BitOr(Shl(acc, from), value), Shl(1, from + to - 1) - 1)
    ensures Bin(next, bits + from) == Bin(acc, bits) + Bin(value, from)
  {
    OrDisjoint(acc, from, value);
    var x := acc * Pow2(from) + value;
    MaskCuts(x, from + to - 1);
    BinAppend(acc, bits, value, from);
    BinCut(x, bits + from, from + to - 1);
    next := Cut(x, from + to - 1);
  }

  /** The value taken from the top of the unread bits. */
  lemma TakeOut(acc: nat, bits: nat, to: nat) returns (v: nat)
    ensures v == BitAnd(Shr(acc, bits), Shl(1, to) - 1) && v < Pow2(to)
    ensures Bin(acc, to + bits) == Bin(v, to) + Bin(acc, bits)
  {
    MaskCuts(Shr(acc, bits), to);
    BinSplit(acc, to, bits);
    BinCut(Shr(acc, bits), to, to);
    v := Cut(Shr(acc, bits), to);
  }

  /** The last value when the unread bits are completed by zeros. */
  lemma PadOut(acc: nat, bits: nat, to: nat) returns (v: nat)
    requires bits < to
    ensures v == BitAnd(Shl(acc, to - bits), Shl(1, to) - 1) && v < Pow2(to)
    ensures Bin(v, to) == Bin(acc, bits) + Falses(to - bits)
    ensures v == 0 <==> true !in Bin(acc, bits)
  {
    var x := acc * Pow2(to - bits);
    MaskCuts(x, to);
    BinAppend(acc, bits, 0, to - bits);
    BinZero(to - bits);
    BinCut(x, to, to);
    v := Cut(x, to);
    ValueBin(v, to);
    ValueZero(Bin(v, to));
  }

  lemma InRangeSnoc(data: seq<int>, v: int, w: nat)
    requires InRange(data, w) && 0 <= v < Pow2(w)
    ensures InRange(data + [v], w)
  {}

  lemma PrefixInRange(data: seq<int>, i: nat, w: nat)
    requires i < |data| && InRange(data[..i], w)
    ensures data[..i + 1] == data[..i] + [data[i]]
    ensures 0 <= data[i] < Pow2(w) ==> InRange(data[..i + 1], w)
    ensures !(0 <= data[i] < Pow2(w)) ==> !InRange(data, w)
  {}

  method Convert(data: seq<int>, frombits: nat, tobits: nat, pad: bool) returns (r: Option<seq<int>>)
    requires frombits >= 1 && tobits >= 1
    ensures r == Regroup(data, frombits, tobits, pad)
  {
    var acc: nat, bits: nat, ret: seq<int> := 0, 0, [];
    for i := 0 to |data|
      invariant bits < tobits && InRange(data[..i], frombits) && InRange(ret, tobits)
      invariant BitsOf(ret, tobits) + Bin(acc, bits) == BitsOf(data[..i], frombits)
    {
      var value := data[i];
      PrefixInRange(data, i, frombits);
      if value >= 0 { FitsSmall(value, frombits); }
      if value < 0 || Shr(value, frombits) != 0 {
        return None;
      }
      ghost var next := ShiftIn(acc, bits, value, frombits, tobits);
      OneMore(ret, tobits, Bin(acc, bits), data[..i], value, frombits);
      acc := BitAnd(BitOr(Shl(acc, frombits), value), Shl(1, frombits + tobits - 1) - 1);
      bits := bits + frombits;
      ghost var read := BitsOf(data[..i + 1], frombits);
      assert BitsOf(ret, tobits) + Bin(acc, bits) == read;
      ret, bits := TakeGroups(ret, acc, bits, tobits);
    }
    assert data[..|data|] == data;
    r := Flush(ret, acc, bits, frombits, tobits, pad);
  }

  lemma OneMore(ret: seq<int>, to: nat, unread: seq<bool>, data: seq<int>, value: int, from: nat)
    requires BitsOf(ret, to) + unread == BitsOf(data, from)
    ensures BitsOf(ret, to) + (unread + Bin(value, from)) == BitsOf(data + [value], from)
  {
    BitsSnoc(data, value, from);
    Associative(BitsOf(ret, to), unread, Bin(value, from));
  }

  /** The end of convertbits: the padding, or the checks that replace it. */
  method Flush(ret: seq<int>, acc: nat, bits: nat, frombits: nat, tobits: nat, pad: bool) returns (r: Option<seq<int>>)
    requires bits < tobits && InRange(ret, tobits)
    ensures r == Complete(BitsOf(ret, tobits) + Bin(acc, bits), frombits, tobits, pad)
  {
    ghost var rest := Bin(acc, bits);
    ghost var b := BitsOf(ret, tobits) + rest;
    WholeOf(ret, tobits, rest);
    assert b[|b| - bits..] == rest;
    ghost var last := PadOut(acc, bits, tobits);
    if pad {
      if bits != 0 {
        Padded(ret, rest, last, tobits);
        return Some(ret + [BitAnd(Shl(acc, tobits - bits), Shl(1, tobits) - 1)]);
      }
      assert b + Falses(0) == b;
    } else if bits >= frombits || BitAnd(Shl(acc, tobits - bits), Shl(1, tobits) - 1) != 0 {
      return None;
    }
    return Some(ret);
  }

  lemma Padded(ret: seq<int>, rest: seq<bool>, last: nat, to: nat)
    requires 0 < |rest| < to && InRange(ret, to) && last < Pow2(to)
    requires Bin(last, to) == rest + Falses(to - |rest|)
    ensures Whole(BitsOf(ret, to) + rest + Falses(to - |rest|), to) == ret + [last]
  {
    InRangeSnoc(ret, last, to);
    BitsSnoc(ret, last, to);
    WholeExact(ret + [last], to);
    Associative(BitsOf(ret, to), rest, Falses(to - |rest|));
  }

  /** The inner loop: takes whole output groups off the unread bits. */
  method TakeGroups(ret0: seq<int>, acc: nat, bits0: nat, tobits: nat) returns (ret: seq<int>, bits: nat)
    requires tobits >= 1 && InRange(ret0, tobits)
    ensures bits < tobits && InRange(ret, tobits)
    ensures BitsOf(ret, tobits) + Bin(acc, bits) == BitsOf(ret0, tobits) + Bin(acc, bits0)
  {
    ret, bits := ret0, bits0;
    while bits >= tobits
      invariant InRange(ret, tobits)
      invariant BitsOf(ret, tobits) + Bin(acc, bits) == BitsOf(ret0, tobits) + Bin(acc, bits0)
    {
      bits := bits - tobits;
      ghost var v := TakeOut(acc, bits, tobits);
      InRangeSnoc(ret, v, tobits);
      BitsSnoc(ret, v, tobits);
      ret := ret + [BitAnd(Shr(acc, bits), Shl(1, tobits) - 1)];
    }
  }
}
