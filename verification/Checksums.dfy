/**
 * Shift registers over GF(2) with five-bit symbols: the theory shared by the descriptor checksum
 * (eight symbols) and Bech32 (six symbols).
 */
module Checksums {
  import opened Bits

  /** The alphabet of checksum symbols. */
  const SYMBOL_CHARSET: string := "qpzry9x8gf2tvdw0s3jn54khce6mua7l"

  lemma CharsetInjective(i: nat, j: nat)
    requires i < 32 && j < 32 && SYMBOL_CHARSET[i] == SYMBOL_CHARSET[j]
    ensures i == j
  {
    if i < j {
      CharsetDistinct(i, j);
    } else if j < i {
      CharsetDistinct(j, i);
    }
  }

  lemma CharsetDistinct(i: nat, j: nat)
    requires i < j < 32
    ensures SYMBOL_CHARSET[i] != SYMBOL_CHARSET[j]
  {}

  /** `a ^ b`, bit by bit from the least significant end. */
  function BitXor(a: nat, b: nat): nat
    decreases a + b
  {
    if a == 0 then b
    else if b == 0 then a
    else 2 * BitXor(a / 2, b / 2) + (if a % 2 != b % 2 then 1 else 0)
  }

  lemma XorStep(a: nat, b: nat)
    ensures BitXor(a, b) == 2 * BitXor(a / 2, b / 2) + (if a % 2 != b % 2 then 1 else 0)
    ensures BitXor(a, b) / 2 == BitXor(a / 2, b / 2)
    ensures BitXor(a, b) % 2 == (if a % 2 != b % 2 then 1 else 0)
  {}

  lemma {:induction false} XorAssociative(a: nat, b: nat, c: nat)
    ensures BitXor(BitXor(a, b), c) == BitXor(a, BitXor(b, c))
    decreases a + b + c
  {
    if a + b + c > 0 {
      XorAssociative(a / 2, b / 2, c / 2);
      XorOuter(a, b, c);
      XorInner(a, b, c);
    }
  }

  lemma XorOnRight(a: nat, z: nat, z2: nat, p: nat)
    requires z / 2 == z2 && z % 2 == p
    ensures BitXor(a, z) == 2 * BitXor(a / 2, z2) + (if a % 2 != p then 1 else 0)
  {
    XorStep(a, z);
  }

  lemma XorOnLeft(z: nat, z2: nat, p: nat, a: nat)
    requires z / 2 == z2 && z % 2 == p
    ensures BitXor(z, a) == 2 * BitXor(z2, a / 2) + (if p != a % 2 then 1 else 0)
  {
    XorStep(z, a);
  }

  function Parity(a: nat, b: nat, c: nat): nat {
    (a + b + c) % 2
  }

  lemma ParityLeft(a: nat, b: nat, c: nat, p: nat)
    requires p == (if a % 2 != b % 2 then 1 else 0)
    ensures (if p != c % 2 then 1 else 0) == Parity(a, b, c)
    ensures (if c % 2 != p then 1 else 0) == Parity(c, a, b)
  {}

  lemma XorOuter(a: nat, b: nat, c: nat)
    ensures BitXor(BitXor(a, b), c) == 2 * BitXor(BitXor(a / 2, b / 2), c / 2) + Parity(a, b, c)
  {
    var p := if a % 2 != b % 2 then 1 else 0;
    XorStep(a, b);
    ParityLeft(a, b, c, p);
    XorOnLeft(BitXor(a, b), BitXor(a / 2, b / 2), p, c);
  }

  lemma XorInner(a: nat, b: nat, c: nat)
    ensures BitXor(a, BitXor(b, c)) == 2 * BitXor(a / 2, BitXor(b / 2, c / 2)) + Parity(a, b, c)
  {
    var p := if b % 2 != c % 2 then 1 else 0;
    XorStep(b, c);
    ParityLeft(b, c, a, p);
    XorOnRight(a, BitXor(b, c), BitXor(b / 2, c / 2), p);
  }

  lemma {:induction false} XorCommutative(a: nat, b: nat)
    ensures BitXor(a, b) == BitXor(b, a)
    decreases a + b
  {
    if a > 0 && b > 0 { XorCommutative(a / 2, b / 2); }
  }

  lemma {:induction false} XorCancel(a: nat, b: nat, c: nat)
    requires BitXor(a, c) == BitXor(b, c)
    ensures a == b
    decreases a + b + c
  {
    if a + b + c > 0 {
      XorStep(a, c);
      XorStep(b, c);
      XorCancel(a / 2, b / 2, c / 2);
    }
  }

  lemma {:induction false} XorSelf(a: nat)
    ensures BitXor(a, a) == 0
  {
    if a > 0 { XorSelf(a / 2); }
  }

  /** The k lowest bits. */
  function Cut(a: nat, k: nat): nat {
    if k == 0 then 0 else 2 * Cut(a / 2, k - 1) + a % 2
  }

  lemma {:induction false} CutShr(a: nat, b: nat, k: nat)
    requires Cut(a, k) == Cut(b, k) && Shr(a, k) == Shr(b, k)
    ensures a == b
  {
    if k > 0 { CutShr(a / 2, b / 2, k - 1); }
  }

  lemma {:induction false} CutIsMod(a: nat, k: nat)
    ensures Cut(a, k) == a % Pow2(k)
  {
    if k == 0 {
      assert Pow2(0) == 1;
    } else {
      CutIsMod(a / 2, k - 1);
      HalfMod(a, Pow2(k - 1));
    }
  }

  lemma {:induction false} ShrXor(a: nat, b: nat, k: nat)
    ensures Shr(BitXor(a, b), k) == BitXor(Shr(a, k), Shr(b, k))
  {
    if k > 0 {
      XorStep(a, b);
      ShrXor(a / 2, b / 2, k - 1);
    }
  }

  lemma {:induction false} ShrShr(a: nat, i: nat, j: nat)
    ensures Shr(Shr(a, i), j) == Shr(a, i + j)
  {
    if i > 0 { ShrShr(a / 2, i - 1, j); }
  }

  lemma {:induction false} ShrCut(a: nat, i: nat, j: nat)
    requires i <= j
    ensures Shr(Cut(a, j), i) == Cut(Shr(a, i), j - i)
  {
    if i > 0 {
      assert Cut(a, j) / 2 == Cut(a / 2, j - 1);
      ShrCut(a / 2, i - 1, j - 1);
    }
  }

  lemma {:induction false} CutFits(a: nat, k: nat)
    ensures Shr(Cut(a, k), k) == 0
  {
    if k > 0 {
      assert Cut(a, k) / 2 == Cut(a / 2, k - 1);
      CutFits(a / 2, k - 1);
    }
  }

  lemma Shr5(a: nat)
    ensures Shr(a, 5) == a / 32
  {
    assert Shr(a, 5) == Shr(a / 2, 4) == Shr(a / 2 / 2, 3) == Shr(a / 2 / 2 / 2, 2);
    assert Shr(a / 2 / 2 / 2, 2) == Shr(a / 2 / 2 / 2 / 2, 1) == Shr(a / 2 / 2 / 2 / 2 / 2, 0);
  }

  // ------------------------------------------------------------ five bits

  datatype Bits5 = Bits5(b0: bool, b1: bool, b2: bool, b3: bool, b4: bool)

  function Low(x: nat): Bits5 {
    Bits5(x % 2 == 1, x / 2 % 2 == 1, x / 2 / 2 % 2 == 1, x / 2 / 2 / 2 % 2 == 1, x / 2 / 2 / 2 / 2 % 2 == 1)
  }

  function Xor5(s: Bits5, t: Bits5): Bits5 {
    Bits5(s.b0 != t.b0, s.b1 != t.b1, s.b2 != t.b2, s.b3 != t.b3, s.b4 != t.b4)
  }

  lemma LowXor(a: nat, b: nat)
    ensures Low(BitXor(a, b)) == Xor5(Low(a), Low(b))
  {
    var a1, b1 := a / 2, b / 2;
    var a2, b2 := a1 / 2, b1 / 2;
    var a3, b3 := a2 / 2, b2 / 2;
    XorStep(a, b);
    XorStep(a1, b1);
    XorStep(a2, b2);
    XorStep(a3, b3);
    XorStep(a3 / 2, b3 / 2);
  }

  /** A number below 32 is its five bits. */
  lemma LowInjective(a: nat, b: nat)
    requires a < 32 && b < 32 && Low(a) == Low(b)
    ensures a == b
  {
    LowValue(a);
    LowValue(b);
  }

  function LowNumber(t: Bits5): nat {
    var b3 := (if t.b3 then 1 else 0) + (if t.b4 then 2 else 0);
    var b2 := (if t.b2 then 1 else 0) + 2 * b3;
    var b1 := (if t.b1 then 1 else 0) + 2 * b2;
    (if t.b0 then 1 else 0) + 2 * b1
  }

  lemma LowValue(a: nat)
    requires a < 32
    ensures a == LowNumber(Low(a))
  {
    var a1 := a / 2;
    var a2 := a1 / 2;
    var a3 := a2 / 2;
    assert a3 / 2 < 2;
  }

  // ------------------------------------------------------------ one round

  /** The constants of the register, one for each bit of the symbol shifted out. */
  datatype Generators = Generators(g0: nat, g1: nat, g2: nat, g3: nat, g4: nat)

  function Mix(x: nat, t: Bits5, g: Generators): nat {
    var x := if t.b0 then BitXor(x, g.g0) else x;
    var x := if t.b1 then BitXor(x, g.g1) else x;
    var x := if t.b2 then BitXor(x, g.g2) else x;
    var x := if t.b3 then BitXor(x, g.g3) else x;
    if t.b4 then BitXor(x, g.g4) else x
  }

  /** Shift out the bits from `k` on, shift in `v`, mix in what was shifted out. */
  function Round(c: nat, v: nat, k: nat, g: Generators): nat {
    Mix(BitXor(32 * Cut(c, k), v), Low(Shr(c, k)), g)
  }

  lemma XorWhen(x: nat, y: nat, on: bool, g: nat, z: nat, w: nat)
    requires z == BitXor(x, y) && w == (if on then BitXor(z, g) else z)
    ensures w == BitXor(x, if on then BitXor(y, g) else y)
  {
    XorAssociative(x, y, g);
  }

  /** Mixing is addition of a term that depends on the shifted-out symbol only. */
  lemma MixAdds(x: nat, t: Bits5, g: Generators)
    ensures Mix(x, t, g) == BitXor(x, Mix(0, t, g))
  {
    var x0 := if t.b0 then BitXor(x, g.g0) else x;
    var y0 := if t.b0 then BitXor(0, g.g0) else 0;
    assert BitXor(x, 0) == x;
    XorWhen(x, 0, t.b0, g.g0, x, x0);
    var x1 := if t.b1 then BitXor(x0, g.g1) else x0;
    var y1 := if t.b1 then BitXor(y0, g.g1) else y0;
    XorWhen(x, y0, t.b1, g.g1, x0, x1);
    var x2 := if t.b2 then BitXor(x1, g.g2) else x1;
    var y2 := if t.b2 then BitXor(y1, g.g2) else y1;
    XorWhen(x, y1, t.b2, g.g2, x1, x2);
    var x3 := if t.b3 then BitXor(x2, g.g3) else x2;
    var y3 := if t.b3 then BitXor(y2, g.g3) else y2;
    XorWhen(x, y2, t.b3, g.g3, x2, x3);
    var x4 := if t.b4 then BitXor(x3, g.g4) else x3;
    XorWhen(x, y3, t.b4, g.g4, x3, x4);
  }

  /** The low symbol that the shifted-out bits contribute. */
  function Mix5(s: Bits5, t: Bits5, g: Generators): Bits5 {
    var s := if t.b0 then Xor5(s, Low(g.g0)) else s;
    var s := if t.b1 then Xor5(s, Low(g.g1)) else s;
    var s := if t.b2 then Xor5(s, Low(g.g2)) else s;
    var s := if t.b3 then Xor5(s, Low(g.g3)) else s;
    if t.b4 then Xor5(s, Low(g.g4)) else s
  }

  lemma LowMix(x: nat, t: Bits5, g: Generators)
    ensures Low(Mix(x, t, g)) == Mix5(Low(x), t, g)
  {
    var x0 := if t.b0 then BitXor(x, g.g0) else x;
    LowXor(x, g.g0);
    var x1 := if t.b1 then BitXor(x0, g.g1) else x0;
    LowXor(x0, g.g1);
    var x2 := if t.b2 then BitXor(x1, g.g2) else x1;
    LowXor(x1, g.g2);
    var x3 := if t.b3 then BitXor(x2, g.g3) else x2;
    LowXor(x2, g.g3);
    LowXor(x3, g.g4);
  }

  /** The shifted-out symbol can be read off the low symbol of its contribution. */
  ghost predicate Invertible(g: Generators) {
    forall s: Bits5, t: Bits5 :: Mix5(Low(0), s, g) == Mix5(Low(0), t, g) ==> s == t
  }

  /** `x` has at most `w` bits. */
  predicate Fits(x: nat, w: nat) {
    Shr(x, w) == 0
  }

  predicate AllFit(g: Generators, w: nat) {
    Fits(g.g0, w) && Fits(g.g1, w) && Fits(g.g2, w) && Fits(g.g3, w) && Fits(g.g4, w)
  }

  lemma {:induction false} SmallFits(x: nat, k: nat)
    requires x < Pow2(k)
    ensures Fits(x, k)
  {
    if k > 0 { SmallFits(x / 2, k - 1); }
  }

  lemma Pow2Width(k: nat)
    ensures Pow2(k + 5) == 32 * Pow2(k)
  {
    assert Pow2(k + 5) == 2 * Pow2(k + 4) && Pow2(k + 4) == 2 * Pow2(k + 3) && Pow2(k + 3) == 2 * Pow2(k + 2);
    assert Pow2(k + 2) == 2 * Pow2(k + 1) && Pow2(k + 1) == 2 * Pow2(k);
  }

  lemma Powers()
    ensures Pow2(5) == 32 && Pow2(25) == 0x2000000 && Pow2(30) == 0x40000000
    ensures Pow2(35) == 0x800000000 && Pow2(40) == 0x10000000000
  {
    assert Pow2(0) == 1;
    Pow2Width(0);
    Pow2Width(5);
    Pow2Width(10);
    Pow2Width(15);
    Pow2Width(20);
    Pow2Width(25);
    Pow2Width(30);
    Pow2Width(35);
  }

  lemma XorFits(a: nat, b: nat, w: nat)
    requires Fits(a, w) && Fits(b, w)
    ensures Fits(BitXor(a, b), w)
  {
    ShrXor(a, b, w);
    assert BitXor(0, 0) == 0;
  }

  lemma MixFits(x: nat, t: Bits5, g: Generators, w: nat)
    requires Fits(x, w) && AllFit(g, w)
    ensures Fits(Mix(x, t, g), w)
  {
    var x0 := if t.b0 then BitXor(x, g.g0) else x;
    XorFits(x, g.g0, w);
    var x1 := if t.b1 then BitXor(x0, g.g1) else x0;
    XorFits(x0, g.g1, w);
    var x2 := if t.b2 then BitXor(x1, g.g2) else x1;
    XorFits(x1, g.g2, w);
    var x3 := if t.b3 then BitXor(x2, g.g3) else x2;
    XorFits(x2, g.g3, w);
    XorFits(x3, g.g4, w);
  }

  /** The register keeps its width. */
  lemma RoundFits(c: nat, v: nat, k: nat, g: Generators)
    requires Fits(v, k + 5) && AllFit(g, k + 5)
    ensures Fits(Round(c, v, k, g), k + 5)
  {
    var x := 32 * Cut(c, k);
    assert Fits(x, k + 5) by {
      Shr5(x);
      ShrShr(x, 5, k);
      CutFits(c, k);
    }
    XorFits(x, v, k + 5);
    MixFits(BitXor(x, v), Low(Shr(c, k)), g, k + 5);
  }

  lemma TopFits(c: nat, k: nat)
    requires Fits(c, k + 5)
    ensures Shr(c, k) < 32
  {
    ShrShr(c, k, 5);
    Shr5(Shr(c, k));
  }

  /** Two registers that a round with one value takes to the same register were equal. */
  lemma RoundInjective(a: nat, b: nat, v: nat, k: nat, g: Generators)
    requires Invertible(g) && Fits(a, k + 5) && Fits(b, k + 5)
    requires Round(a, v, k, g) == Round(b, v, k, g)
    ensures a == b
  {
    var x, y := 32 * Cut(a, k), 32 * Cut(b, k);
    var s, t := Low(Shr(a, k)), Low(Shr(b, k));
    MixAdds(BitXor(x, v), s, g);
    MixAdds(BitXor(y, v), t, g);
    TopsEqual(x, y, v, s, t, g);
    XorCancel(BitXor(x, v), BitXor(y, v), Mix(0, s, g));
    XorCancel(x, y, v);
    TopFits(a, k);
    TopFits(b, k);
    LowInjective(Shr(a, k), Shr(b, k));
    CutShr(a, b, k);
  }

  lemma TopsEqual(x: nat, y: nat, v: nat, s: Bits5, t: Bits5, g: Generators)
    requires Invertible(g) && x % 32 == 0 && y % 32 == 0
    requires BitXor(BitXor(x, v), Mix(0, s, g)) == BitXor(BitXor(y, v), Mix(0, t, g))
    ensures s == t
  {
    LowXor(BitXor(x, v), Mix(0, s, g));
    LowXor(BitXor(y, v), Mix(0, t, g));
    LowXor(x, v);
    LowXor(y, v);
    LowZero(x);
    LowZero(y);
    LowMix(0, s, g);
    LowMix(0, t, g);
    Xor5Cancel(Xor5(Low(0), Low(v)), Mix5(Low(0), s, g), Mix5(Low(0), t, g));
  }

  lemma Xor5Cancel(u: Bits5, s: Bits5, t: Bits5)
    requires Xor5(u, s) == Xor5(u, t)
    ensures s == t
  {}

  lemma LowZero(x: nat)
    requires x % 32 == 0
    ensures Low(x) == Low(0)
  {
    var y := x / 32;
    assert x / 2 == 16 * y;
    assert x / 2 / 2 == 8 * y;
    assert x / 2 / 2 / 2 == 4 * y;
    assert x / 2 / 2 / 2 / 2 == 2 * y;
  }

  // ------------------------------------------------------------ bursts

  /** The registers agree except perhaps in their `n` lowest symbols. */
  predicate AgreeAbove(a: nat, b: nat, n: nat) {
    Shr(a, 5 * n) == Shr(b, 5 * n)
  }

  lemma AgreeMore(a: nat, b: nat, i: nat, j: nat)
    requires i <= j && Shr(a, i) == Shr(b, i)
    ensures Shr(a, j) == Shr(b, j)
  {
    ShrShr(a, i, j - i);
    ShrShr(b, i, j - i);
  }

  /**
   * While the top symbol is shared, a round moves the disagreement up by one symbol, and it makes the
   * registers equal only if they were equal and got the same symbol.
   */
  lemma RoundNear(a: nat, b: nat, v: nat, w: nat, n: nat, k: nat, g: Generators)
    requires v < 32 && w < 32 && 5 * n <= k && AgreeAbove(a, b, n)
    ensures AgreeAbove(Round(a, v, k, g), Round(b, w, k, g), n + 1)
    ensures Round(a, v, k, g) == Round(b, w, k, g) <==> a == b && v == w
  {
    AgreeMore(a, b, 5 * n, k);
    var x, y := 32 * Cut(a, k) + v, 32 * Cut(b, k) + w;
    var d := RoundAdds(a, v, k, g);
    var e := RoundAdds(b, w, k, g);
    Shifted(a, v, n, k);
    Shifted(b, w, n, k);
    ShrXor(x, d, 5 * (n + 1));
    ShrXor(y, d, 5 * (n + 1));
    if BitXor(x, d) == BitXor(y, d) {
      XorCancel(x, y, d);
      CutShr(a, b, k);
    }
  }

  lemma RoundAdds(a: nat, v: nat, k: nat, g: Generators) returns (d: nat)
    requires v < 32
    ensures d == Mix(0, Low(Shr(a, k)), g) && Round(a, v, k, g) == BitXor(32 * Cut(a, k) + v, d)
  {
    AppendSymbol(Cut(a, k), v);
    d := Mix(0, Low(Shr(a, k)), g);
    MixAdds(32 * Cut(a, k) + v, Low(Shr(a, k)), g);
  }

  /** Shifting in a symbol is exclusive-or into cleared bits. */
  lemma {:induction false} Append(x: nat, v: nat, k: nat)
    requires v < Pow2(k)
    ensures BitXor(x * Pow2(k), v) == x * Pow2(k) + v
  {
    if k == 0 {
      assert Pow2(0) == 1 && v == 0;
    } else {
      Append(x, v / 2, k - 1);
      MulDouble(x, Pow2(k - 1));
      XorHalf(x * Pow2(k - 1), v);
    }
  }

  lemma XorHalf(x: nat, v: nat)
    requires BitXor(x, v / 2) == x + v / 2
    ensures BitXor(2 * x, v) == 2 * x + v
  {
    XorStep(2 * x, v);
  }

  lemma AppendSymbol(x: nat, v: nat)
    requires v < 32
    ensures BitXor(32 * x, v) == 32 * x + v
  {
    Powers();
    Append(x, v, 5);
  }

  lemma Shifted(a: nat, v: nat, n: nat, k: nat)
    requires v < 32 && 5 * n <= k
    ensures Shr(32 * Cut(a, k) + v, 5 * (n + 1)) == Cut(Shr(a, 5 * n), k - 5 * n)
  {
    var x := Cut(a, k);
    ShrShr(32 * x + v, 5, 5 * n);
    Shr5(32 * x + v);
    ShrCut(a, 5 * n, k);
  }

  // ------------------------------------------------------------ whole runs

  type Sym = v: nat | v < 32

  /** The text of symbols. */
  function Chars(data: seq<Sym>): (s: string)
    ensures |s| == |data|
    ensures forall i :: 0 <= i < |data| ==> s[i] == SYMBOL_CHARSET[data[i]]
  {
    if data == [] then [] else [SYMBOL_CHARSET[data[0]]] + Chars(data[1..])
  }

  lemma CharsJoined(a: seq<Sym>, b: seq<Sym>)
    ensures Chars(a + b) == Chars(a) + Chars(b)
  {
    hide Chars;
  }

  function Fold(c: nat, vs: seq<nat>, k: nat, g: Generators): nat
    decreases |vs|
  {
    if vs == [] then c else Fold(Round(c, vs[0], k, g), vs[1..], k, g)
  }

  lemma {:induction false} FoldConcat(c: nat, x: seq<nat>, y: seq<nat>, k: nat, g: Generators)
    ensures Fold(c, x + y, k, g) == Fold(Fold(c, x, k, g), y, k, g)
    decreases |x|
  {
    if x == [] {
      assert x + y == y;
    } else {
      assert (x + y)[0] == x[0] && (x + y)[1..] == x[1..] + y;
      FoldConcat(Round(c, x[0], k, g), x[1..], y, k, g);
    }
  }

  lemma FoldSnoc(c: nat, x: seq<nat>, v: nat, k: nat, g: Generators)
    ensures Fold(c, x + [v], k, g) == Round(Fold(c, x, k, g), v, k, g)
  {
    FoldConcat(c, x, [v], k, g);
  }

  predicate ValuesFit(vs: seq<nat>, w: nat) {
    forall i :: 0 <= i < |vs| ==> Fits(vs[i], w)
  }

  lemma {:induction false} FoldFits(c: nat, vs: seq<nat>, k: nat, g: Generators)
    requires Fits(c, k + 5) && AllFit(g, k + 5) && ValuesFit(vs, k + 5)
    ensures Fits(Fold(c, vs, k, g), k + 5)
    decreases |vs|
  {
    if vs != [] {
      RoundFits(c, vs[0], k, g);
      FoldFits(Round(c, vs[0], k, g), vs[1..], k, g);
    }
  }

  lemma {:induction false} FoldInjective(a: nat, b: nat, vs: seq<nat>, k: nat, g: Generators)
    requires Fits(a, k + 5) && Fits(b, k + 5) && AllFit(g, k + 5) && Invertible(g) && ValuesFit(vs, k + 5)
    requires Fold(a, vs, k, g) == Fold(b, vs, k, g)
    ensures a == b
    decreases |vs|
  {
    if vs != [] {
      RoundFits(a, vs[0], k, g);
      RoundFits(b, vs[0], k, g);
      FoldInjective(Round(a, vs[0], k, g), Round(b, vs[0], k, g), vs[1..], k, g);
      RoundInjective(a, b, vs[0], k, g);
    }
  }

  /** Different symbols within the length of the register leave different registers. */
  lemma {:induction false} FoldNear(a: nat, b: nat, x: seq<Sym>, y: seq<Sym>, n: nat, k: nat, g: Generators)
    requires |x| == |y| && 5 * (n + |x|) <= k + 5 && AgreeAbove(a, b, n)
    ensures Fold(a, x, k, g) == Fold(b, y, k, g) <==> a == b && x == y
    decreases |x|
  {
    if x != [] {
      RoundNear(a, b, x[0], y[0], n, k, g);
      FoldNear(Round(a, x[0], k, g), Round(b, y[0], k, g), x[1..], y[1..], n + 1, k, g);
      assert x == [x[0]] + x[1..] && y == [y[0]] + y[1..];
    }
  }

  // ------------------------------------------------------------ appended symbols

  /** Symbols as one number, most significant first. */
  function Pack(vs: seq<Sym>): nat {
    if vs == [] then 0 else 32 * Pack(vs[..|vs| - 1]) + vs[|vs| - 1]
  }

  /** The `n` lowest symbols of a number, most significant first. */
  function Unpack(c: nat, n: nat): (vs: seq<Sym>)
    ensures |vs| == n
  {
    if n == 0 then [] else Unpack(c / 32, n - 1) + [c % 32]
  }

  lemma {:induction false} PackDigits(c: nat, n: nat)
    requires Fits(c, 5 * n)
    ensures Pack(Unpack(c, n)) == c
  {
    if n > 0 {
      ShrShr(c, 5, 5 * (n - 1));
      Shr5(c);
      PackDigits(c / 32, n - 1);
      assert Unpack(c, n)[..n - 1] == Unpack(c / 32, n - 1);
    }
  }

  lemma {:induction false} DigitsPack(vs: seq<Sym>)
    ensures Fits(Pack(vs), 5 * |vs|) && Unpack(Pack(vs), |vs|) == vs
  {
    if vs != [] {
      var init := vs[..|vs| - 1];
      DigitsPack(init);
      assert Pack(vs) / 32 == Pack(init) && Pack(vs) % 32 == vs[|vs| - 1];
      Shr5(Pack(vs));
      ShrShr(Pack(vs), 5, 5 * |init|);
      assert vs == init + [vs[|vs| - 1]];
    }
  }

  lemma XorJoin(x: nat, i: nat, y: nat, j: nat)
    requires i < 2 && j < 2
    ensures BitXor(2 * x + i, 2 * y + j) == 2 * BitXor(x, y) + (if i != j then 1 else 0)
  {
    XorStep(2 * x + i, 2 * y + j);
  }

  lemma {:induction false} CutXor(a: nat, b: nat, k: nat)
    ensures Cut(BitXor(a, b), k) == BitXor(Cut(a, k), Cut(b, k))
  {
    if k > 0 {
      CutXor(a / 2, b / 2, k - 1);
      XorStep(a, b);
      XorJoin(Cut(a / 2, k - 1), a % 2, Cut(b / 2, k - 1), b % 2);
    }
  }

  lemma {:induction false} CutFitted(a: nat, k: nat)
    requires Fits(a, k)
    ensures Cut(a, k) == a
  {
    if k > 0 { CutFitted(a / 2, k - 1); }
  }

  lemma DoubleXor(a: nat, b: nat)
    ensures BitXor(2 * a, 2 * b) == 2 * BitXor(a, b)
  {
    XorStep(2 * a, 2 * b);
  }

  lemma FourXor(a: nat, b: nat)
    ensures BitXor(4 * a, 4 * b) == 4 * BitXor(a, b)
  {
    DoubleXor(a, b);
    DoubleXor(2 * a, 2 * b);
  }

  lemma ShiftXor(a: nat, b: nat)
    ensures BitXor(32 * a, 32 * b) == 32 * BitXor(a, b)
  {
    FourXor(a, b);
    FourXor(4 * a, 4 * b);
    DoubleXor(16 * a, 16 * b);
  }

  /** An addition to a register that is not yet shifted out only moves up. */
  lemma RoundLinear(a: nat, p: nat, v: nat, k: nat, g: Generators)
    requires Fits(p, k) && v < 32
    ensures Round(BitXor(a, p), v, k, g) == BitXor(Round(a, 0, k, g), 32 * p + v)
  {
    ShrXor(a, p, k);
    CutXor(a, p, k);
    CutFitted(p, k);
    assert BitXor(Shr(a, k), 0) == Shr(a, k);
    var x, t := 32 * Cut(a, k), Low(Shr(a, k));
    var d := Mix(0, t, g);
    ShiftXor(Cut(a, k), p);
    XorAssociative(x, 32 * p, v);
    AppendSymbol(p, v);
    var q := 32 * p + v;
    MixAdds(BitXor(x, q), t, g);
    MixAdds(x, t, g);
    XorAssociative(x, q, d);
    XorCommutative(q, d);
    XorAssociative(x, d, q);
    assert BitXor(x, 0) == x;
  }

  function ZeroSymbols(n: nat): (vs: seq<Sym>)
    ensures |vs| == n
  {
    if n == 0 then [] else ZeroSymbols(n - 1) + [0]
  }

  /** Symbols that fill the register add their number to what as many zeros give. */
  lemma {:induction false} FoldPack(c: nat, vs: seq<Sym>, k: nat, g: Generators)
    requires 5 * |vs| <= k + 5
    ensures Fold(c, vs, k, g) == BitXor(Fold(c, ZeroSymbols(|vs|), k, g), Pack(vs))
    decreases |vs|
  {
    if vs == [] {
      assert BitXor(c, 0) == c;
    } else {
      var init, v := vs[..|vs| - 1], vs[|vs| - 1];
      assert vs == init + [v];
      FoldPack(c, init, k, g);
      FoldPackSnoc(c, init, v, k, g);
    }
  }

  lemma FoldPackSnoc(c: nat, init: seq<Sym>, v: Sym, k: nat, g: Generators)
    requires 5 * |init| <= k
    requires Fold(c, init, k, g) == BitXor(Fold(c, ZeroSymbols(|init|), k, g), Pack(init))
    ensures Fold(c, init + [v], k, g) == BitXor(Fold(c, ZeroSymbols(|init| + 1), k, g), 32 * Pack(init) + v)
  {
    var p := Pack(init);
    PackFits(init, k);
    FoldSnoc(c, init, v, k, g);
    FoldSnoc(c, ZeroSymbols(|init|), 0, k, g);
    RoundLinear(Fold(c, ZeroSymbols(|init|), k, g), p, v, k, g);
  }

  lemma PackFits(vs: seq<Sym>, k: nat)
    requires 5 * |vs| <= k
    ensures Fits(Pack(vs), k)
  {
    DigitsPack(vs);
    ShrShr(Pack(vs), 5 * |vs|, k - 5 * |vs|);
    ShrOfZero(k - 5 * |vs|);
  }

  lemma {:induction false} ShrOfZero(j: nat)
    ensures Shr(0, j) == 0
  {
    if j > 0 { ShrOfZero(j - 1); }
  }

  /** Exactly one choice of closing symbols brings the register to a given value. */
  lemma ClosingSymbols(c: nat, vs: seq<Sym>, target: nat, n: nat, k: nat, g: Generators)
    requires |vs| == n && 5 * n == k + 5 && Fits(c, k + 5) && Fits(target, k + 5) && AllFit(g, k + 5)
    ensures Fold(c, vs, k, g) == target
       <==> vs == Unpack(BitXor(Fold(c, ZeroSymbols(n), k, g), target), n)
  {
    var z := Fold(c, ZeroSymbols(n), k, g);
    var want := BitXor(z, target);
    ZerosFit(n, k + 5);
    FoldFits(c, ZeroSymbols(n), k, g);
    XorFits(z, target, k + 5);
    FoldPack(c, vs, k, g);
    XorSelf(z);
    XorAssociative(z, z, target);
    XorAssociative(z, z, Pack(vs));
    PackDigits(want, n);
    DigitsPack(vs);
  }

  lemma {:induction false} ZerosFit(n: nat, w: nat)
    ensures ValuesFit(ZeroSymbols(n), w)
  {
    ShrOfZero(w);
    if n > 0 { ZerosFit(n - 1, w); }
  }
}
