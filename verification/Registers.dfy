/** Checksum registers as lists of five-bit words, on which they can be computed. */
module Registers {
  import opened Bits
  import opened Checksums

  /** Digits, the least significant one first. */
  datatype Digits = End | Digit(low: bv5, rest: Digits)

  function Count(r: Digits): nat {
    if r.End? then 0 else 1 + Count(r.rest)
  }

  function Number(r: Digits): nat {
    if r.End? then 0 else r.low as nat + 32 * Number(r.rest)
  }

  function Xor(a: Digits, b: Digits): Digits {
    if a.End? || b.End? then End else Digit(a.low ^ b.low, Xor(a.rest, b.rest))
  }

  function Top(r: Digits): bv5
    requires r.Digit?
  {
    if r.rest.End? then r.low else Top(r.rest)
  }

  function WithoutTop(r: Digits): Digits
    requires r.Digit?
  {
    if r.rest.End? then End else Digit(r.low, WithoutTop(r.rest))
  }

  datatype Taps = Taps(g0: Digits, g1: Digits, g2: Digits, g3: Digits, g4: Digits)

  /** Shift the top digit out and a symbol in, and mix in the generators of the bits shifted out. */
  function Step(r: Digits, v: bv5, g: Taps): Digits
    requires r.Digit?
  {
    var t := Top(r);
    var x := Digit(v, WithoutTop(r));
    var x := if t & 1 != 0 then Xor(x, g.g0) else x;
    var x := if t & 2 != 0 then Xor(x, g.g1) else x;
    var x := if t & 4 != 0 then Xor(x, g.g2) else x;
    var x := if t & 8 != 0 then Xor(x, g.g3) else x;
    if t & 16 != 0 then Xor(x, g.g4) else x
  }

  /** Words as the numbers they are. */
  function Plain(vs: seq<bv5>): (ns: seq<nat>)
    ensures |ns| == |vs| && forall i :: 0 <= i < |vs| ==> ns[i] == vs[i] as nat
  {
    if vs == [] then [] else [vs[0] as nat] + Plain(vs[1..])
  }

  // ------------------------------------------------------------ digits and numbers

  function FiveBits(x: bv5): Bits5 {
    Bits5(x & 1 != 0, x & 2 != 0, x & 4 != 0, x & 8 != 0, x & 16 != 0)
  }

  lemma BitsValue(x: bv5)
    ensures LowNumber(FiveBits(x)) == x as nat < 32
  {}

  lemma BitsXor(x: bv5, y: bv5)
    ensures FiveBits(x ^ y) == Xor5(FiveBits(x), FiveBits(y))
  {}

  lemma LowDigit(d: Bits5, n: nat)
    ensures LowNumber(d) < 32 && Low(LowNumber(d) + 32 * n) == d && (LowNumber(d) + 32 * n) / 32 == n
  {
    var x := LowNumber(d) + 32 * n;
    var b4 := (if d.b4 then 1 else 0) + 2 * n;
    var b3 := (if d.b3 then 1 else 0) + 2 * b4;
    var b2 := (if d.b2 then 1 else 0) + 2 * b3;
    var b1 := (if d.b1 then 1 else 0) + 2 * b2;
    assert x == (if d.b0 then 1 else 0) + 2 * b1;
    assert x / 2 == b1 && b1 / 2 == b2 && b2 / 2 == b3 && b3 / 2 == b4;
  }

  lemma FromLow(x: nat)
    ensures x == LowNumber(Low(x)) + 32 * (x / 32)
  {
    LowValue(x % 32);
    LowOfSum(x % 32, x / 32);
  }

  lemma LowOfSum(y: nat, q: nat)
    requires y < 32
    ensures Low(y + 32 * q) == Low(y)
  {
    LowValue(y);
    LowDigit(Low(y), q);
    LowDigit(Low(y), 0);
  }

  /** The number of a digit and more digits, taken apart again. */
  lemma DigitApart(x: bv5, r: Digits)
    ensures Number(Digit(x, r)) == x as nat + 32 * Number(r) && Count(Digit(x, r)) == 1 + Count(r)
    ensures Low(Number(Digit(x, r))) == FiveBits(x) && Number(Digit(x, r)) / 32 == Number(r)
  {
    hide FiveBits, Low;
    BitsValue(x);
    LowDigit(FiveBits(x), Number(r));
  }

  lemma {:induction false} XorNumbers(a: Digits, b: Digits)
    requires Count(a) == Count(b)
    ensures BitXor(Number(a), Number(b)) == Number(Xor(a, b)) && Count(Xor(a, b)) == Count(a)
  {
    hide LowNumber, Low, BitXor, Xor5, FiveBits, Number;
    if a.End? {
      assert BitXor(Number(a), Number(b)) == Number(Xor(a, b)) by { NoDigits(a, b); }
    } else {
      var x, y := Number(a), Number(b);
      var z := BitXor(x, y);
      DigitApart(a.low, a.rest);
      DigitApart(b.low, b.rest);
      LowXor(x, y);
      ShrXor(x, y, 5);
      Shr5(x);
      Shr5(y);
      Shr5(z);
      XorNumbers(a.rest, b.rest);
      BitsXor(a.low, b.low);
      BitsValue(a.low ^ b.low);
      FromLow(z);
      DigitApart(a.low ^ b.low, Xor(a.rest, b.rest));
    }
  }

  lemma NoDigits(a: Digits, b: Digits)
    requires a.End? && b.End?
    ensures BitXor(Number(a), Number(b)) == Number(Xor(a, b))
  {}

  // ------------------------------------------------------------ one round

  lemma Shr5More(a: nat, k: nat)
    ensures Shr(a, 5 + k) == Shr(a / 32, k) && Cut(a, 5 + k) == a % 32 + 32 * Cut(a / 32, k)
  {
    ShrShr(a, 5, k);
    Shr5(a);
    var a1 := a / 2;
    var a2 := a1 / 2;
    var a3 := a2 / 2;
    var a4 := a3 / 2;
    assert a4 / 2 == a / 32;
    assert Cut(a4, 1 + k) == 2 * Cut(a / 32, k) + a4 % 2;
    assert Cut(a3, 2 + k) == 2 * Cut(a4, 1 + k) + a3 % 2;
    assert Cut(a2, 3 + k) == 2 * Cut(a3, 2 + k) + a2 % 2;
    assert Cut(a1, 4 + k) == 2 * Cut(a2, 3 + k) + a1 % 2;
  }

  lemma {:induction false} TopApart(r: Digits, k: nat)
    requires r.Digit? && k == 5 * (Count(r) - 1)
    ensures Shr(Number(r), k) == Top(r) as nat && Cut(Number(r), k) == Number(WithoutTop(r))
    ensures Count(WithoutTop(r)) == Count(r) - 1
  {
    hide LowNumber, Low, Shr, Cut, FiveBits;
    var n := Number(r);
    BitsValue(r.low);
    if r.rest.End? {
      assert Shr(n, 0) == n && Cut(n, 0) == 0 by { NothingCut(n); }
    } else {
      Shr5More(n, k - 5);
      TopApart(r.rest, k - 5);
      assert n % 32 == r.low as nat && n / 32 == Number(r.rest);
    }
  }

  lemma NothingCut(n: nat)
    ensures Shr(n, 0) == n && Cut(n, 0) == 0
  {}

  function Generator(g: Taps): Generators {
    Generators(Number(g.g0), Number(g.g1), Number(g.g2), Number(g.g3), Number(g.g4))
  }

  predicate AsLong(g: Taps, n: nat) {
    Count(g.g0) == Count(g.g1) == Count(g.g2) == Count(g.g3) == Count(g.g4) == n
  }

  /** A round on digits is the round on the number they stand for. */
  lemma StepIs(r: Digits, v: bv5, g: Taps, k: nat)
    requires r.Digit? && k == 5 * (Count(r) - 1) && AsLong(g, Count(r))
    ensures Round(Number(r), v as nat, k, Generator(g)) == Number(Step(r, v, g)) && Count(Step(r, v, g)) == Count(r)
  {
    hide LowNumber, Low, Shr, Cut, BitXor, Number, Xor, Top, WithoutTop;
    TopApart(r, k);
    var x, t := Digit(v, WithoutTop(r)), Top(r);
    DigitApart(v, WithoutTop(r));
    DigitApart(t, End);
    assert Number(Digit(t, End)) == t as nat by { NoMore(); }
    BitsValue(v);
    AppendSymbol(Number(WithoutTop(r)), v as nat);
    var x0 := if t & 1 != 0 then Xor(x, g.g0) else x;
    var x1 := if t & 2 != 0 then Xor(x0, g.g1) else x0;
    var x2 := if t & 4 != 0 then Xor(x1, g.g2) else x1;
    var x3 := if t & 8 != 0 then Xor(x2, g.g3) else x2;
    XorNumbers(x, g.g0);
    XorNumbers(x0, g.g1);
    XorNumbers(x1, g.g2);
    XorNumbers(x2, g.g3);
    XorNumbers(x3, g.g4);
  }

  lemma NoMore()
    ensures Number(End) == 0 && Count(End) == 0
  {}

  // ------------------------------------------------------------ digit by digit

  lemma NumberCons(x: bv5, r: Digits)
    ensures Number(Digit(x, r)) == x as nat + 32 * Number(r) && Count(Digit(x, r)) == 1 + Count(r)
  {}

  lemma XorCons(x: bv5, r: Digits, y: bv5, s: Digits)
    ensures Xor(Digit(x, r), Digit(y, s)) == Digit(x ^ y, Xor(r, s)) && Xor(End, End) == End
  {}

  lemma TopOnly(x: bv5)
    ensures Top(Digit(x, End)) == x && WithoutTop(Digit(x, End)) == End
  {}

  lemma TopCons(x: bv5, r: Digits)
    requires r.Digit?
    ensures Top(Digit(x, r)) == Top(r) && WithoutTop(Digit(x, r)) == Digit(x, WithoutTop(r))
  {}
}
