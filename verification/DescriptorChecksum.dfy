/** The checksum of output descriptors (BIP 380, section "Checksum"). */
module DescriptorChecksum {
  import opened Python
  import opened Strings
  import opened Bits
  import opened Checksums

  // The alphabet in its classes of 32 characters, the last of which lacks one.
  const CLASS0: string := "0123456789()[],'/*abcdefgh@:$%{}"
  const CLASS1: string := "IJKLMNOPQRSTUVWXYZ&+-.;<=>?!^_|~"
  const CLASS2: string := "ijklmnopqrstuvwxyzABCDEFGH`#\"\\ "

  function InputCharset(): (s: string)
    ensures |s| == 95
  {
    CLASS0 + CLASS1 + CLASS2
  }

  const GENERATORS := Generators(0xf5dee51989, 0xa9fdca3312, 0x1bab10e32d, 0x3706b1677a, 0x644d626ffd)

  function PolyMod(c: nat, val: nat): nat {
    var c0 := Shr(c, 35);
    var c := BitXor(Shl(BitAnd(c, 0x7ffffffff), 5), val);
    var c := if BitAnd(c0, 1) != 0 then BitXor(c, 0xf5dee51989) else c;
    var c := if BitAnd(c0, 2) != 0 then BitXor(c, 0xa9fdca3312) else c;
    var c := if BitAnd(c0, 4) != 0 then BitXor(c, 0x1bab10e32d) else c;
    var c := if BitAnd(c0, 8) != 0 then BitXor(c, 0x3706b1677a) else c;
    if BitAnd(c0, 16) != 0 then BitXor(c, 0x644d626ffd) else c
  }

  // ------------------------------------------------------------ specification

  /** The loop variables: register, pending class digits and their number. */
  datatype State = State(c: nat, cls: nat, count: nat)

  const START := State(1, 0, 0)

  /** An index into the input alphabet. */
  type Pos = p: nat | p < 95 witness 0

  predicate Describable(desc: string) {
    forall i :: 0 <= i < |desc| ==> desc[i] in InputCharset()
  }

  function Positions(desc: string): (ps: seq<Pos>)
    requires Describable(desc)
    ensures |ps| == |desc|
    ensures forall i :: 0 <= i < |desc| ==> ps[i] == Find(InputCharset(), desc[i]).value
  {
    if desc == [] then [] else [Find(InputCharset(), desc[0]).value] + Positions(desc[1..])
  }

  /** One character: its low five bits at once, its class after every third character. */
  function Feed(s: State, pos: Pos): State {
    var c := PolyMod(s.c, pos % 32);
    var cls := 3 * s.cls + pos / 32;
    if s.count == 2 then State(PolyMod(c, cls), 0, 0) else State(c, cls, s.count + 1)
  }

  function FeedAll(s: State, ps: seq<Pos>): State
    decreases |ps|
  {
    if ps == [] then s else FeedAll(Feed(s, ps[0]), ps[1..])
  }

  function Drain(c: nat, n: nat): nat
    decreases n
  {
    if n == 0 then c else Drain(PolyMod(c, 0), n - 1)
  }

  function Finish(s: State): nat {
    BitXor(Drain(if s.count > 0 then PolyMod(s.c, s.cls) else s.c, 8), 1)
  }

  /** The character for the symbol `k` places from the right. */
  function Symbol(c: nat, k: nat): char {
    SYMBOL_CHARSET[Shr(c, 5 * k) % 32]
  }

  function Symbols(c: nat, n: nat): (s: string)
    ensures |s| == n
  {
    if n == 0 then [] else [Symbol(c, n - 1)] + Symbols(c, n - 1)
  }

  function Checksum(desc: string): string {
    if Describable(desc) then Symbols(Finish(FeedAll(START, Positions(desc))), 8) else ""
  }

  // ------------------------------------------------------------ the register

  lemma {:induction false} AndBit(x: nat, j: nat)
    ensures BitAnd(x, Pow2(j)) != 0 <==> Shr(x, j) % 2 == 1
  {
    if j == 0 {
      assert Pow2(0) == 1;
    } else {
      AndBit(x / 2, j - 1);
      assert Pow2(j) / 2 == Pow2(j - 1) && Pow2(j) % 2 == 0;
      if x == 0 { ShrZero(j); }
    }
  }

  lemma {:induction false} ShrZero(j: nat)
    ensures Shr(0, j) == 0
  {
    if j > 0 { ShrZero(j - 1); }
  }

  /** The five tests of the shifted-out symbol look at its five bits. */
  lemma TestsAreBits(x: nat)
    ensures Low(x) == Bits5(BitAnd(x, 1) != 0, BitAnd(x, 2) != 0, BitAnd(x, 4) != 0, BitAnd(x, 8) != 0,
                            BitAnd(x, 16) != 0)
  {
    assert Pow2(0) == 1 && Pow2(1) == 2 && Pow2(2) == 4 && Pow2(3) == 8 && Pow2(4) == 16;
    AndBit(x, 0);
    AndBit(x, 1);
    AndBit(x, 2);
    AndBit(x, 3);
    AndBit(x, 4);
    assert Shr(x, 1) == x / 2;
    assert Shr(x, 2) == Shr(x / 2, 1) == x / 2 / 2;
    assert Shr(x, 3) == Shr(x / 2, 2) == Shr(x / 2 / 2, 1) == x / 2 / 2 / 2;
    assert Shr(x, 4) == Shr(x / 2, 3) == Shr(x / 2 / 2, 2) == Shr(x / 2 / 2 / 2, 1) == x / 2 / 2 / 2 / 2;
  }

  lemma MaskIsCut(c: nat)
    ensures BitAnd(c, 0x7ffffffff) == Cut(c, 35)
  {
    Powers();
    AndMask(c, 35);
    CutIsMod(c, 35);
  }

  /** The code's round is the register of the general theory. */
  lemma PolyModIsRound(c: nat, val: nat)
    ensures PolyMod(c, val) == Round(c, val, 35, GENERATORS)
  {
    MaskIsCut(c);
    Powers();
    TestsAreBits(Shr(c, 35));
  }

  lemma GeneratorsFit()
    ensures AllFit(GENERATORS, 40)
  {
    Powers();
    SmallFits(0xf5dee51989, 40);
    SmallFits(0xa9fdca3312, 40);
    SmallFits(0x1bab10e32d, 40);
    SmallFits(0x3706b1677a, 40);
    SmallFits(0x644d626ffd, 40);
  }

  lemma GeneratorsInvert()
    ensures Invertible(GENERATORS)
  {
    assert Low(0xf5dee51989) == Bits5(true, false, false, true, false);
    assert Low(0xa9fdca3312) == Bits5(false, true, false, false, true);
    assert Low(0x1bab10e32d) == Bits5(true, false, true, true, false);
    assert Low(0x3706b1677a) == Bits5(false, true, false, true, true);
    assert Low(0x644d626ffd) == Bits5(true, false, true, true, true);
    forall s: Bits5, t: Bits5 | Mix5(Low(0), s, GENERATORS) == Mix5(Low(0), t, GENERATORS)
      ensures s == t
    {
      Unmixed(GENERATORS, s);
      Unmixed(GENERATORS, t);
    }
  }

  /** Solves the five linear equations for the shifted-out bits. */
  function Unmix(o: Bits5): Bits5 {
    var t3 := o.b0 != o.b3;
    var t4 := o.b1 != o.b4;
    Bits5(o.b0 != o.b2, o.b1 != t3, o.b2 != t4, t3, t4)
  }

  lemma Unmixed(g: Generators, t: Bits5)
    requires Low(g.g0) == Bits5(true, false, false, true, false)
    requires Low(g.g1) == Bits5(false, true, false, false, true)
    requires Low(g.g2) == Bits5(true, false, true, true, false)
    requires Low(g.g3) == Bits5(false, true, false, true, true)
    requires Low(g.g4) == Bits5(true, false, true, true, true)
    ensures Unmix(Mix5(Low(0), t, g)) == t
  {
    var zero := Bits5(false, false, false, false, false);
    assert Low(0) == zero;
    Equations(t, Low(g.g0), Low(g.g1), Low(g.g2), Low(g.g3), Low(g.g4), g, zero);
  }

  lemma Equations(t: Bits5, h0: Bits5, h1: Bits5, h2: Bits5, h3: Bits5, h4: Bits5, g: Generators, zero: Bits5)
    requires h0 == Low(g.g0) == Bits5(true, false, false, true, false)
    requires h1 == Low(g.g1) == Bits5(false, true, false, false, true)
    requires h2 == Low(g.g2) == Bits5(true, false, true, true, false)
    requires h3 == Low(g.g3) == Bits5(false, true, false, true, true)
    requires h4 == Low(g.g4) == Bits5(true, false, true, true, true)
    requires zero == Bits5(false, false, false, false, false)
    ensures Unmix(Mix5(zero, t, g)) == t
  {
    var s0 := if t.b0 then Xor5(zero, h0) else zero;
    assert s0 == Bits5(t.b0, false, false, t.b0, false);
    var s1 := if t.b1 then Xor5(s0, h1) else s0;
    assert s1 == Bits5(t.b0, t.b1, false, t.b0, t.b1);
    var s2 := if t.b2 then Xor5(s1, h2) else s1;
    assert s2 == Bits5(t.b0 != t.b2, t.b1, t.b2, t.b0 != t.b2, t.b1);
    var s3 := if t.b3 then Xor5(s2, h3) else s2;
    assert s3 == Bits5(t.b0 != t.b2, t.b1 != t.b3, t.b2, (t.b0 != t.b2) != t.b3, t.b1 != t.b3);
  }

  // ------------------------------------------------------------ lockstep

  /** A state the loop can be in. */
  predicate Sane(s: State) {
    Fits(s.c, 40) && s.count < 3 && s.cls < (if s.count == 0 then 1 else if s.count == 1 then 3 else 9)
  }

  /**
   * Two states that were equal `n` rounds ago, at a boundary between groups of three characters:
   * a group takes four rounds, so `n % 4` characters are pending.
   */
  predicate Abreast(s: State, t: State, n: nat) {
    && Sane(s) && Sane(t)
    && s.count == t.count == n % 4
    && AgreeAbove(s.c, t.c, n)
  }

  lemma PolyModFits(c: nat, val: nat)
    requires val < 32
    ensures Fits(PolyMod(c, val), 40)
  {
    PolyModIsRound(c, val);
    Powers();
    GeneratorsFit();
    SmallFits(val, 40);
    RoundFits(c, val, 35, GENERATORS);
  }

  lemma PolyModInjective(a: nat, b: nat, val: nat)
    requires Fits(a, 40) && Fits(b, 40) && PolyMod(a, val) == PolyMod(b, val)
    ensures a == b
  {
    PolyModIsRound(a, val);
    PolyModIsRound(b, val);
    GeneratorsInvert();
    RoundInjective(a, b, val, 35, GENERATORS);
  }

  lemma PolyModNear(a: nat, b: nat, v: nat, w: nat, n: nat)
    requires v < 32 && w < 32 && n <= 7 && AgreeAbove(a, b, n)
    ensures AgreeAbove(PolyMod(a, v), PolyMod(b, w), n + 1)
    ensures PolyMod(a, v) == PolyMod(b, w) <==> a == b && v == w
  {
    PolyModIsRound(a, v);
    PolyModIsRound(b, w);
    RoundNear(a, b, v, w, n, 35, GENERATORS);
  }

  lemma FeedSane(s: State, p: Pos)
    requires Sane(s)
    ensures Sane(Feed(s, p))
  {
    PolyModFits(s.c, p % 32);
    if s.count == 2 { PolyModFits(PolyMod(s.c, p % 32), 3 * s.cls + p / 32); }
  }

  function RoundsAfter(n: nat): nat {
    if n % 4 == 2 then n + 2 else n + 1
  }

  /** A character keeps the states abreast, and makes them equal only if it found them equal. */
  lemma FeedAbreast(s: State, t: State, p: Pos, q: Pos, n: nat)
    requires Abreast(s, t, n) && n <= 6
    ensures Abreast(Feed(s, p), Feed(t, q), RoundsAfter(n))
    ensures Feed(s, p) == Feed(t, q) <==> s == t && p == q
  {
    hide PolyMod, AgreeAbove, Fits;
    FeedSane(s, p);
    FeedSane(t, q);
    FeedRegisters(s, t, p, q, n);
  }

  lemma FeedRegisters(s: State, t: State, p: Pos, q: Pos, n: nat)
    requires Abreast(s, t, n) && n <= 6
    ensures AgreeAbove(Feed(s, p).c, Feed(t, q).c, RoundsAfter(n))
    ensures Feed(s, p) == Feed(t, q) <==> s == t && p == q
  {
    PolyModNear(s.c, t.c, p % 32, q % 32, n);
    ClassDigits(s.cls, t.cls, p, q);
    if s.count == 2 {
      PolyModNear(PolyMod(s.c, p % 32), PolyMod(t.c, q % 32), 3 * s.cls + p / 32, 3 * t.cls + q / 32, n + 1);
    }
  }

  lemma ClassDigits(x: nat, y: nat, p: nat, q: nat)
    requires p < 96 && q < 96
    ensures p % 32 == q % 32 && 3 * x + p / 32 == 3 * y + q / 32 <==> x == y && p == q
  {
    assert p / 32 < 3 && q / 32 < 3;
  }

  /** The same character keeps different states that have the same class digits different. */
  lemma FeedSame(s: State, t: State, p: Pos)
    requires Sane(s) && Sane(t) && s.cls == t.cls && s.count == t.count && s != t
    ensures Feed(s, p).cls == Feed(t, p).cls && Feed(s, p).count == Feed(t, p).count && Feed(s, p) != Feed(t, p)
  {
    if PolyMod(s.c, p % 32) == PolyMod(t.c, p % 32) {
      PolyModInjective(s.c, t.c, p % 32);
    }
    if s.count == 2 {
      PolyModFits(s.c, p % 32);
      PolyModFits(t.c, p % 32);
      var cls := 3 * s.cls + p / 32;
      if PolyMod(PolyMod(s.c, p % 32), cls) == PolyMod(PolyMod(t.c, p % 32), cls) {
        PolyModInjective(PolyMod(s.c, p % 32), PolyMod(t.c, p % 32), cls);
      }
    }
  }

  // ------------------------------------------------------------ detection

  lemma {:induction false} FeedAllSane(s: State, ps: seq<Pos>)
    requires Sane(s)
    ensures Sane(FeedAll(s, ps))
    decreases |ps|
  {
    if ps != [] {
      FeedSane(s, ps[0]);
      FeedAllSane(Feed(s, ps[0]), ps[1..]);
    }
  }

  lemma {:induction false} FeedAllConcat(s: State, x: seq<Pos>, y: seq<Pos>)
    ensures FeedAll(s, x + y) == FeedAll(FeedAll(s, x), y)
    decreases |x|
  {
    if x == [] {
      assert x + y == y;
    } else {
      assert (x + y)[0] == x[0] && (x + y)[1..] == x[1..] + y;
      FeedAllConcat(Feed(s, x[0]), x[1..], y);
    }
  }

  /** The number of pending characters after `n` more. */
  function CountAfter(count: nat, n: nat): nat
    decreases n
  {
    if n == 0 then count else CountAfter(if count == 2 then 0 else count + 1, n - 1)
  }

  lemma {:induction false} CountAfterGroups(count: nat, n: nat)
    requires count < 3
    ensures CountAfter(count, n) == (count + n) % 3
    decreases n
  {
    if n > 0 { CountAfterGroups(if count == 2 then 0 else count + 1, n - 1); }
  }

  lemma {:induction false} FeedAllCount(s: State, ps: seq<Pos>)
    requires Sane(s)
    ensures FeedAll(s, ps).count == CountAfter(s.count, |ps|)
    decreases |ps|
  {
    if ps != [] {
      FeedSane(s, ps[0]);
      FeedAllCount(Feed(s, ps[0]), ps[1..]);
    }
  }

  /** The characters left in a frame of two groups when `n` rounds are done. */
  function LeftInFrame(n: nat): nat
    requires n <= 8 && n % 4 < 3
  {
    if n == 8 then 0 else 6 - 3 * (n / 4) - n % 4
  }

  /** Within the frame the states stay apart, whatever is fed. */
  lemma {:induction false} FrameAbreast(s: State, t: State, x: seq<Pos>, y: seq<Pos>, n: nat) returns (m: nat)
    requires n <= 8 && Abreast(s, t, n) && |x| == |y| <= LeftInFrame(n)
    ensures m <= 8 && Abreast(FeedAll(s, x), FeedAll(t, y), m)
    ensures FeedAll(s, x) == FeedAll(t, y) <==> s == t && x == y
    decreases |x|
  {
    if x == [] {
      m := n;
    } else {
      FeedAbreast(s, t, x[0], y[0], n);
      m := FrameAbreast(Feed(s, x[0]), Feed(t, y[0]), x[1..], y[1..], RoundsAfter(n));
      assert x == [x[0]] + x[1..] && y == [y[0]] + y[1..];
    }
  }

  /** After the frame a common rest keeps them apart. */
  lemma {:induction false} RestSame(s: State, t: State, rest: seq<Pos>)
    requires Sane(s) && Sane(t) && s.cls == t.cls && s.count == t.count && s != t
    ensures FeedAll(s, rest).cls == FeedAll(t, rest).cls && FeedAll(s, rest).count == FeedAll(t, rest).count
    ensures FeedAll(s, rest) != FeedAll(t, rest)
    decreases |rest|
  {
    if rest != [] {
      FeedSame(s, t, rest[0]);
      FeedSane(s, rest[0]);
      FeedSane(t, rest[0]);
      RestSame(Feed(s, rest[0]), Feed(t, rest[0]), rest[1..]);
    }
  }

  lemma {:induction false} DrainInjective(a: nat, b: nat, n: nat)
    requires Fits(a, 40) && Fits(b, 40) && Drain(a, n) == Drain(b, n)
    ensures a == b
    decreases n
  {
    if n > 0 {
      PolyModFits(a, 0);
      PolyModFits(b, 0);
      DrainInjective(PolyMod(a, 0), PolyMod(b, 0), n - 1);
      PolyModInjective(a, b, 0);
    }
  }

  lemma {:induction false} DrainFits(a: nat, n: nat)
    requires Fits(a, 40)
    ensures Fits(Drain(a, n), 40)
    decreases n
  {
    if n > 0 {
      PolyModFits(a, 0);
      DrainFits(PolyMod(a, 0), n - 1);
    }
  }

  /** The register before the eight closing rounds. */
  function Flushed(s: State): nat {
    if s.count > 0 then PolyMod(s.c, s.cls) else s.c
  }

  lemma FlushFits(s: State)
    requires Sane(s)
    ensures Fits(Flushed(s), 40)
  {
    if s.count > 0 { PolyModFits(s.c, s.cls); }
  }

  lemma FinishFits(s: State)
    requires Sane(s)
    ensures Fits(Finish(s), 40)
  {
    FlushFits(s);
    DrainFits(Flushed(s), 8);
    Powers();
    SmallFits(1, 40);
    XorFits(Drain(Flushed(s), 8), 1, 40);
  }

  lemma FinishInjective(s: State, t: State)
    requires Sane(s) && Sane(t) && Finish(s) == Finish(t)
    ensures Flushed(s) == Flushed(t)
  {
    XorCancel(Drain(Flushed(s), 8), Drain(Flushed(t), 8), 1);
    FlushFits(s);
    FlushFits(t);
    DrainInjective(Flushed(s), Flushed(t), 8);
  }

  lemma FlushAbreast(s: State, t: State, n: nat)
    requires n <= 8 && Abreast(s, t, n) && s != t
    ensures Flushed(s) != Flushed(t)
  {
    if s.count > 0 { PolyModNear(s.c, t.c, s.cls, t.cls, n); }
  }

  lemma FlushSame(s: State, t: State)
    requires Sane(s) && Sane(t) && s.cls == t.cls && s.count == t.count && s != t
    ensures Flushed(s) != Flushed(t)
  {
    if s.count > 0 && Flushed(s) == Flushed(t) { PolyModInjective(s.c, t.c, s.cls); }
  }

  lemma {:induction false} SymbolsInjective(a: nat, b: nat, n: nat)
    requires Symbols(a, n) == Symbols(b, n)
    ensures Cut(a, 5 * n) == Cut(b, 5 * n)
  {
    if n > 0 {
      var i, j := Shr(a, 5 * (n - 1)), Shr(b, 5 * (n - 1));
      assert Symbols(a, n)[0] == Symbol(a, n - 1) && Symbols(b, n)[0] == Symbol(b, n - 1);
      CharsetInjective(i % 32, j % 32);
      assert Symbols(a, n)[1..] == Symbols(a, n - 1) && Symbols(b, n)[1..] == Symbols(b, n - 1);
      SymbolsInjective(a, b, n - 1);
      CutExtends(a, b, 5 * (n - 1));
    }
  }

  /** Equal low bits and equal next symbols are equal low bits five places further. */
  lemma {:induction false} CutExtends(a: nat, b: nat, k: nat)
    requires Cut(a, k) == Cut(b, k) && Shr(a, k) % 32 == Shr(b, k) % 32
    ensures Cut(a, k + 5) == Cut(b, k + 5)
  {
    if k == 0 {
      Powers();
      CutIsMod(a, 5);
      CutIsMod(b, 5);
    } else {
      CutExtends(a / 2, b / 2, k - 1);
    }
  }

  lemma ChecksumsDiffer(s: State, t: State)
    requires Sane(s) && Sane(t) && Flushed(s) != Flushed(t)
    ensures Symbols(Finish(s), 8) != Symbols(Finish(t), 8)
  {
    if Symbols(Finish(s), 8) == Symbols(Finish(t), 8) {
      SymbolsInjective(Finish(s), Finish(t), 8);
      FinishFits(s);
      FinishFits(t);
      CutShr(Finish(s), Finish(t), 40);
      FinishInjective(s, t);
    }
  }

  /**
   * Any damage confined to two aligned groups of three characters reaches the flushed register:
   * `x` and `y` stand for the damaged frame, which is full unless it ends the descriptor.
   */
  lemma FrameFlushed(s: State, pre: seq<Pos>, x: seq<Pos>, y: seq<Pos>, post: seq<Pos>)
    requires Sane(s) && s.count == 0
    requires |pre| % 3 == 0 && |x| == |y| <= 6 && x != y && (|x| == 6 || post == [])
    ensures Sane(FeedAll(s, pre + (x + post))) && Sane(FeedAll(s, pre + (y + post)))
    ensures Flushed(FeedAll(s, pre + (x + post))) != Flushed(FeedAll(s, pre + (y + post)))
  {
    FeedAllSane(s, pre);
    FeedAllCount(s, pre);
    CountAfterGroups(0, |pre|);
    FeedAllConcat(s, pre, x + post);
    FeedAllConcat(s, pre, y + post);
    FrameThenRest(FeedAll(s, pre), x, y, post);
  }

  lemma FrameThenRest(s: State, x: seq<Pos>, y: seq<Pos>, post: seq<Pos>)
    requires Sane(s) && s.count == 0
    requires |x| == |y| <= 6 && x != y && (|x| == 6 || post == [])
    ensures Sane(FeedAll(s, x + post)) && Sane(FeedAll(s, y + post))
    ensures Flushed(FeedAll(s, x + post)) != Flushed(FeedAll(s, y + post))
  {
    var m := FrameAbreast(s, s, x, y, 0);
    var s1, t1 := FeedAll(s, x), FeedAll(s, y);
    FeedAllConcat(s, x, post);
    FeedAllConcat(s, y, post);
    FeedAllSane(s1, post);
    FeedAllSane(t1, post);
    if |x| == 6 {
      FeedAllCount(s, x);
      FeedAllCount(s, y);
      CountAfterGroups(0, 6);
      RestSame(s1, t1, post);
      FlushSame(FeedAll(s1, post), FeedAll(t1, post));
    } else {
      FlushAbreast(s1, t1, m);
    }
  }

  /**
   * Two descriptors that differ, but only within four adjacent characters, have different checksums. In
   * particular every one-character substitution is detected, in descriptors of any length.
   */
  lemma DamageDetected(a: string, b: string, i: nat)
    requires Describable(a) && Describable(b) && |a| == |b| && a != b
    requires forall k :: 0 <= k < |a| && !(i <= k < i + 4) ==> a[k] == b[k]
    ensures Checksum(a) != Checksum(b)
  {
    if i < |a| {
      PositionsLocal(a, b);
      assert Sane(START) by { Powers(); SmallFits(1, 40); }
      PositionsDamaged(START, Positions(a), Positions(b), i);
      ChecksumsDiffer(FeedAll(START, Positions(a)), FeedAll(START, Positions(b)));
    }
  }

  lemma PositionsLocal(a: string, b: string)
    requires Describable(a) && Describable(b) && |a| == |b|
    ensures forall k :: 0 <= k < |a| ==> (a[k] == b[k] <==> Positions(a)[k] == Positions(b)[k])
  {}

  lemma Frame<T>(a: seq<T>, b: seq<T>, i: nat) returns (pre: seq<T>, x: seq<T>, y: seq<T>, post: seq<T>)
    requires |a| == |b| && i < |a|
    requires forall k :: 0 <= k < |a| && !(i <= k < i + 4) ==> a[k] == b[k]
    ensures a == pre + (x + post) && b == pre + (y + post)
    ensures |pre| % 3 == 0 && |x| == |y| <= 6 && (|x| == 6 || post == [])
  {
    var lo := 3 * (i / 3);
    var hi := Min(lo + 6, |a|);
    pre, x, y, post := a[..lo], a[lo..hi], b[lo..hi], a[hi..];
    assert pre == b[..lo] && post == b[hi..];
    assert a == pre + (x + post) && b == pre + (y + post);
  }

  lemma PositionsDamaged(s: State, a: seq<Pos>, b: seq<Pos>, i: nat)
    requires Sane(s) && s.count == 0 && |a| == |b| && a != b && i < |a|
    requires forall k :: 0 <= k < |a| && !(i <= k < i + 4) ==> a[k] == b[k]
    ensures Sane(FeedAll(s, a)) && Sane(FeedAll(s, b)) && Flushed(FeedAll(s, a)) != Flushed(FeedAll(s, b))
  {
    var pre, x, y, post := Frame(a, b, i);
    FrameFlushed(s, pre, x, y, post);
  }

  // ------------------------------------------------------------ the code

  /** DescriptorChecksum: the loops of the code compute the checksum of the specification. */
  method ComputeChecksum(desc: string) returns (ret: string)
    ensures ret == Checksum(desc)
  {
    var s := Scan(desc, START);
    if s == None {
      return "";
    }
    var c := s.value.c;
    if s.value.count > 0 {
      c := PolyMod(c, s.value.cls);
    }
    c := Close(c, 8);
    c := BitXor(c, 1);
    ret := Show(c, 8);
  }

  /** The loop over the characters, which gives up at the first one outside the alphabet. */
  method Scan(desc: string, start: State) returns (r: Option<State>)
    requires start.count < 3
    ensures r == if Describable(desc) then Some(FeedAll(start, Positions(desc))) else None
  {
    var c: nat, cls: nat, clscount: nat := start.c, start.cls, start.count;
    ghost var ps: seq<Pos> := [];
    for i := 0 to |desc|
      invariant clscount < 3 && |ps| == i
      invariant Describable(desc[..i]) && Positions(desc[..i]) == ps
      invariant State(c, cls, clscount) == FeedAll(start, ps)
    {
      var pos := Find(InputCharset(), desc[i]);
      if pos == None {
        return None;
      }
      PositionsSnoc(desc[..i], desc[i]);
      assert desc[..i] + [desc[i]] == desc[..i + 1];
      FeedAllSnoc(start, ps, pos.value);
      ps := ps + [pos.value];
      c, cls, clscount := FeedOne(c, cls, clscount, pos.value);
    }
    assert desc[..|desc|] == desc;
    r := Some(State(c, cls, clscount));
  }

  lemma {:induction false} PositionsSnoc(desc: string, ch: char)
    requires Describable(desc) && ch in InputCharset()
    ensures Describable(desc + [ch]) && Positions(desc + [ch]) == Positions(desc) + [Find(InputCharset(), ch).value]
    decreases |desc|
  {
    if desc != [] {
      PositionsSnoc(desc[1..], ch);
      assert (desc + [ch])[1..] == desc[1..] + [ch];
    }
  }

  lemma FeedAllSnoc(s: State, ps: seq<Pos>, p: Pos)
    ensures FeedAll(s, ps + [p]) == Feed(FeedAll(s, ps), p)
  {
    FeedAllConcat(s, ps, [p]);
  }

  /** The body of the loop. */
  method FeedOne(c0: nat, cls0: nat, count0: nat, pos: Pos) returns (c: nat, cls: nat, clscount: nat)
    requires count0 < 3
    ensures clscount < 3 && State(c, cls, clscount) == Feed(State(c0, cls0, count0), pos)
  {
    LowFive(pos);
    c := PolyMod(c0, BitAnd(pos, 31));
    cls := cls0 * 3 + Shr(pos, 5);
    clscount := count0 + 1;
    if clscount == 3 {
      c := PolyMod(c, cls);
      cls := 0;
      clscount := 0;
    }
  }

  /** The closing rounds. */
  method Close(c0: nat, n: nat) returns (c: nat)
    ensures c == Drain(c0, n)
  {
    c := c0;
    for j := 0 to n
      invariant Drain(c0, n) == Drain(c, n - j)
    {
      c := PolyMod(c, 0);
    }
  }

  /** The symbols of the register, most significant first. */
  method Show(c: nat, n: nat) returns (ret: string)
    ensures ret == Symbols(c, n)
  {
    ret := [];
    for j := 0 to n
      invariant Symbols(c, n) == ret + Symbols(c, n - j)
    {
      LowFive(Shr(c, 5 * (n - 1 - j)));
      ret := ret + [SYMBOL_CHARSET[BitAnd(Shr(c, 5 * (n - 1 - j)), 31)]];
    }
  }

  lemma LowFive(x: nat)
    ensures BitAnd(x, 31) == x % 32 && Shr(x, 5) == x / 32
  {
    Powers();
    AndMask(x, 5);
    Shr5(x);
  }
}
