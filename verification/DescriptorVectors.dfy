/**
 * What a descriptor checksum is: the eight symbols that bring the register of the expanded descriptor to 1
 * (BIP 380, section "Checksum"), computed on a published example.
 */
module DescriptorVectors {
  import opened Python
  import opened Sequences
  import opened Strings
  import opened Bits
  import opened Checksums
  import R = Registers
  import opened D = DescriptorChecksum

  // ------------------------------------------------------------ the expanded descriptor

  /** The low parts of the positions, after every three of them their high parts as one symbol. */
  function Expanded(ps: seq<Pos>): seq<nat> {
    if |ps| >= 3 then
      [ps[0] % 32, ps[1] % 32, ps[2] % 32, 9 * (ps[0] / 32) + 3 * (ps[1] / 32) + ps[2] / 32] + Expanded(ps[3..])
    else if |ps| == 2 then [ps[0] % 32, ps[1] % 32, 3 * (ps[0] / 32) + ps[1] / 32]
    else if |ps| == 1 then [ps[0] % 32, ps[0] / 32]
    else []
  }

  lemma FoldFour(c: nat, v0: nat, v1: nat, v2: nat, v3: nat, rest: seq<nat>, k: nat, g: Generators)
    ensures Fold(c, [v0, v1, v2, v3] + rest, k, g)
         == Fold(Round(Round(Round(Round(c, v0, k, g), v1, k, g), v2, k, g), v3, k, g), rest, k, g)
  {
    hide Round;
    FoldConcat(c, [v0, v1, v2, v3], rest, k, g);
    FoldConcat(c, [v0, v1], [v2, v3], k, g);
    assert [v0, v1] + [v2, v3] == [v0, v1, v2, v3];
    FoldTwo(c, v0, v1, k, g);
    FoldTwo(Round(Round(c, v0, k, g), v1, k, g), v2, v3, k, g);
  }

  lemma FoldTwo(c: nat, v0: nat, v1: nat, k: nat, g: Generators)
    ensures Fold(c, [v0, v1], k, g) == Round(Round(c, v0, k, g), v1, k, g)
  {
    hide Round;
    assert [v0, v1][1..] == [v1] && [v1][1..] == [];
    assert Fold(Round(c, v0, k, g), [v1], k, g) == Round(Round(c, v0, k, g), v1, k, g);
  }

  /** Three characters make four rounds. */
  lemma GroupFed(c: nat, p: Pos, q: Pos, r: Pos, cls: nat)
    requires cls == 9 * (p / 32) + 3 * (q / 32) + r / 32
    ensures FeedAll(State(c, 0, 0), [p, q, r])
         == State(PolyMod(PolyMod(PolyMod(PolyMod(c, p % 32), q % 32), r % 32), cls), 0, 0)
  {
    hide PolyMod;
    var s1 := Feed(State(c, 0, 0), p);
    var s2 := Feed(s1, q);
    assert [p, q, r][1..] == [q, r] && [q, r][1..] == [r] && [r][1..] == [];
    assert FeedAll(s2, [r]) == Feed(s2, r);
    assert FeedAll(s1, [q, r]) == FeedAll(s2, [r]);
  }

  lemma FourRounds(c: nat, v0: nat, v1: nat, v2: nat, v3: nat, rest: seq<nat>)
    ensures Fold(c, [v0, v1, v2, v3] + rest, 35, D.GENERATORS)
         == Fold(PolyMod(PolyMod(PolyMod(PolyMod(c, v0), v1), v2), v3), rest, 35, D.GENERATORS)
  {
    hide PolyMod, Round, Fold;
    PolyModIsRound(c, v0);
    PolyModIsRound(PolyMod(c, v0), v1);
    PolyModIsRound(PolyMod(PolyMod(c, v0), v1), v2);
    PolyModIsRound(PolyMod(PolyMod(PolyMod(c, v0), v1), v2), v3);
    FoldFour(c, v0, v1, v2, v3, rest, 35, D.GENERATORS);
  }

  /** The register after a descriptor, its last class symbol included, is that of its expansion. */
  lemma {:induction false} ExpandedFeeds(c: nat, ps: seq<Pos>)
    ensures Flushed(FeedAll(State(c, 0, 0), ps)) == Fold(c, Expanded(ps), 35, D.GENERATORS)
    decreases |ps|
  {
    hide PolyMod, Round;
    if |ps| >= 3 {
      hide Feed, Expanded;
      var p, q, r, rest := ps[0], ps[1], ps[2], ps[3..];
      ExpandedMore(ps);
      assert ps == [p, q, r] + rest;
      FeedAllConcat(State(c, 0, 0), [p, q, r], rest);
      var cls := 9 * (p / 32) + 3 * (q / 32) + r / 32;
      GroupFed(c, p, q, r, cls);
      FourRounds(c, p % 32, q % 32, r % 32, cls, Expanded(rest));
      ExpandedFeeds(PolyMod(PolyMod(PolyMod(PolyMod(c, p % 32), q % 32), r % 32), cls), rest);
    } else {
      ShortFeeds(c, ps);
    }
  }

  lemma ExpandedMore(ps: seq<Pos>)
    requires |ps| >= 3
    ensures Expanded(ps)
         == [ps[0] % 32, ps[1] % 32, ps[2] % 32, 9 * (ps[0] / 32) + 3 * (ps[1] / 32) + ps[2] / 32] + Expanded(ps[3..])
  {}

  lemma ShortFeeds(c: nat, ps: seq<Pos>)
    requires |ps| < 3
    ensures Flushed(FeedAll(State(c, 0, 0), ps)) == Fold(c, Expanded(ps), 35, D.GENERATORS)
  {
    if |ps| == 1 {
      OneFeeds(c, ps[0]);
      assert ps == [ps[0]];
    } else if |ps| == 2 {
      TwoFeed(c, ps[0], ps[1]);
      assert ps == [ps[0], ps[1]];
    }
  }

  lemma OneFeeds(c: nat, p: Pos)
    ensures Flushed(FeedAll(State(c, 0, 0), [p])) == Fold(c, Expanded([p]), 35, D.GENERATORS)
  {
    hide PolyMod, Round;
    var s1 := Feed(State(c, 0, 0), p);
    assert FeedAll(State(c, 0, 0), [p]) == s1;
    PolyModIsRound(c, p % 32);
    PolyModIsRound(s1.c, p / 32);
    FoldTwo(c, p % 32, p / 32, 35, D.GENERATORS);
  }

  lemma TwoFeed(c: nat, p: Pos, q: Pos)
    ensures Flushed(FeedAll(State(c, 0, 0), [p, q])) == Fold(c, Expanded([p, q]), 35, D.GENERATORS)
  {
    hide PolyMod, Round, Fold, Expanded;
    var s1 := Feed(State(c, 0, 0), p);
    var s2 := Feed(s1, q);
    var cls := 3 * (p / 32) + q / 32;
    FeedTwo(State(c, 0, 0), p, q);
    assert s2 == State(PolyMod(PolyMod(c, p % 32), q % 32), cls, 2);
    PolyModIsRound(c, p % 32);
    PolyModIsRound(s1.c, q % 32);
    PolyModIsRound(s2.c, cls);
    FoldTwo(c, p % 32, q % 32, 35, D.GENERATORS);
    FoldSnoc(c, [p % 32, q % 32], cls, 35, D.GENERATORS);
    assert [p % 32, q % 32] + [cls] == Expanded([p, q]) by { ExpandedTwo(p, q); }
  }

  lemma ExpandedTwo(p: Pos, q: Pos)
    ensures Expanded([p, q]) == [p % 32, q % 32] + [3 * (p / 32) + q / 32]
  {}

  lemma FeedTwo(s: State, p: Pos, q: Pos)
    ensures FeedAll(s, [p, q]) == Feed(Feed(s, p), q)
  {
    hide Feed;
    assert [p, q][1..] == [q] && [q][1..] == [];
    assert FeedAll(Feed(s, p), [q]) == Feed(Feed(s, p), q);
  }

  // ------------------------------------------------------------ the closing symbols

  lemma {:induction false} DrainIsZeros(c: nat, n: nat)
    ensures Drain(c, n) == Fold(c, ZeroSymbols(n), 35, D.GENERATORS)
    decreases n
  {
    hide PolyMod, Round;
    if n > 0 {
      PolyModIsRound(c, 0);
      DrainIsZeros(PolyMod(c, 0), n - 1);
      ZeroFirst(n);
    }
  }

  lemma {:induction false} ZeroFirst(n: nat)
    requires n > 0
    ensures ZeroSymbols(n)[0] == 0 && ZeroSymbols(n)[1..] == ZeroSymbols(n - 1)
  {
    if n > 1 {
      ZeroFirst(n - 1);
      assert ZeroSymbols(n - 1)[1..] + [0] == ZeroSymbols(n)[1..];
    }
  }

  lemma {:induction false} SymbolAt(c: nat, n: nat, k: nat)
    requires k < n
    ensures Unpack(c, n)[n - 1 - k] == Shr(c, 5 * k) % 32
    decreases n
  {
    if k > 0 {
      SymbolAt(c / 32, n - 1, k - 1);
      ShrShr(c, 5, 5 * (k - 1));
      Shr5(c);
    }
  }

  lemma {:induction false} SymbolsAt(c: nat, n: nat, k: nat)
    requires k < n
    ensures Symbols(c, n)[n - 1 - k] == Symbol(c, k)
    decreases n
  {
    if k < n - 1 { SymbolsAt(c, n - 1, k); }
  }

  lemma SymbolsAreChars(c: nat, n: nat)
    ensures Symbols(c, n) == Chars(Unpack(c, n))
  {
    hide Symbols, Chars, Unpack, Shr;
    forall i | 0 <= i < n ensures Symbols(c, n)[i] == Chars(Unpack(c, n))[i] {
      SymbolAt(c, n, n - 1 - i);
      SymbolsAt(c, n, n - 1 - i);
    }
  }

  lemma CharsInjective(a: seq<Sym>, b: seq<Sym>)
    requires Chars(a) == Chars(b)
    ensures a == b
  {
    hide Chars;
    forall i | 0 <= i < |a| ensures a[i] == b[i] {
      assert SYMBOL_CHARSET[a[i]] == Chars(a)[i] == Chars(b)[i] == SYMBOL_CHARSET[b[i]];
      CharsetInjective(a[i], b[i]);
    }
  }

  /** Eight symbols are the checksum of a descriptor exactly if they close its register to 1. */
  lemma ChecksumCloses(desc: string, cs: seq<Sym>)
    requires Describable(desc) && |cs| == 8
    ensures Checksum(desc) == Chars(cs) <==> Fold(1, Expanded(Positions(desc)) + cs, 35, D.GENERATORS) == 1
  {
    hide Drain, PolyMod, Round, Symbols, Chars, Fold, Unpack, Fits;
    var s := FeedAll(START, Positions(desc));
    var c := Flushed(s);
    StartSane();
    FeedAllSane(START, Positions(desc));
    FlushFits(s);
    ExpandedFeeds(1, Positions(desc));
    DrainIsZeros(c, 8);
    FoldConcat(1, Expanded(Positions(desc)), cs, 35, D.GENERATORS);
    D.GeneratorsFit();
    OneFits();
    ClosingSymbols(c, cs, 1, 8, 35, D.GENERATORS);
    SymbolsAreChars(Finish(s), 8);
    if Chars(Unpack(Finish(s), 8)) == Chars(cs) {
      CharsInjective(Unpack(Finish(s), 8), cs);
    }
  }

  lemma StartSane()
    ensures Sane(START)
  {
    OneFits();
  }

  lemma OneFits()
    ensures Fits(1, 40)
  {
    Powers();
    SmallFits(1, 40);
  }

  // ------------------------------------------------------------ the register in digits

  /** A register of forty bits, the least significant digit first. */
  datatype Word = Word(d0: bv5, d1: bv5, d2: bv5, d3: bv5, d4: bv5, d5: bv5, d6: bv5, d7: bv5)

  function Xor(a: Word, b: Word): Word {
    Word(a.d0 ^ b.d0, a.d1 ^ b.d1, a.d2 ^ b.d2, a.d3 ^ b.d3, a.d4 ^ b.d4, a.d5 ^ b.d5, a.d6 ^ b.d6, a.d7 ^ b.d7)
  }

  function RoundOf(w: Word, v: bv5): Word {
    var t := w.d7;
    var x := Word(v, w.d0, w.d1, w.d2, w.d3, w.d4, w.d5, w.d6);
    var x := if t & 1 != 0 then Xor(x, Word(9, 12, 6, 10, 14, 15, 23, 30)) else x;
    var x := if t & 2 != 0 then Xor(x, Word(18, 24, 12, 20, 28, 30, 7, 21)) else x;
    var x := if t & 4 != 0 then Xor(x, Word(13, 25, 24, 1, 17, 21, 14, 3)) else x;
    var x := if t & 8 != 0 then Xor(x, Word(26, 27, 25, 2, 11, 3, 28, 6)) else x;
    if t & 16 != 0 then Xor(x, Word(29, 31, 27, 4, 22, 6, 17, 12)) else x
  }

  function Run(w: Word, vs: seq<bv5>): Word
    decreases vs
  {
    if vs == [] then w else Run(RoundOf(w, vs[0]), vs[1..])
  }

  function Digits(w: Word): R.Digits {
    R.Digit(w.d0, R.Digit(w.d1, R.Digit(w.d2, R.Digit(w.d3, UpperDigits(w)))))
  }

  function UpperDigits(w: Word): R.Digits {
    R.Digit(w.d4, R.Digit(w.d5, R.Digit(w.d6, R.Digit(w.d7, R.End))))
  }

  function Value(w: Word): nat {
    w.d0 as nat + 0x20 * w.d1 as nat + 0x400 * w.d2 as nat + 0x8000 * w.d3 as nat + 0x100000 * UpperValue(w)
  }

  function UpperValue(w: Word): nat {
    w.d4 as nat + 0x20 * w.d5 as nat + 0x400 * w.d6 as nat + 0x8000 * w.d7 as nat
  }

  lemma UpperDigitsValue(w: Word)
    ensures R.Number(UpperDigits(w)) == UpperValue(w) && R.Count(UpperDigits(w)) == 4
  {
    hide R.Number, R.Count;
    var r7 := R.Digit(w.d7, R.End);
    var r6 := R.Digit(w.d6, r7);
    var r5 := R.Digit(w.d5, r6);
    R.NoMore();
    R.NumberCons(w.d7, R.End);
    R.NumberCons(w.d6, r7);
    R.NumberCons(w.d5, r6);
    R.NumberCons(w.d4, r5);
  }

  lemma DigitsValue(w: Word)
    ensures R.Number(Digits(w)) == Value(w) && R.Count(Digits(w)) == 8
  {
    hide R.Number, R.Count, UpperDigits, UpperValue;
    var r3 := R.Digit(w.d3, UpperDigits(w));
    var r2 := R.Digit(w.d2, r3);
    var r1 := R.Digit(w.d1, r2);
    UpperDigitsValue(w);
    R.NumberCons(w.d3, UpperDigits(w));
    R.NumberCons(w.d2, r3);
    R.NumberCons(w.d1, r2);
    R.NumberCons(w.d0, r1);
  }

  function Taps(): R.Taps {
    R.Taps(Digits(Word(9, 12, 6, 10, 14, 15, 23, 30)), Digits(Word(18, 24, 12, 20, 28, 30, 7, 21)),
           Digits(Word(13, 25, 24, 1, 17, 21, 14, 3)), Digits(Word(26, 27, 25, 2, 11, 3, 28, 6)),
           Digits(Word(29, 31, 27, 4, 22, 6, 17, 12)))
  }

  lemma TapsAreGenerators()
    ensures R.Generator(Taps()) == D.GENERATORS && R.AsLong(Taps(), 8)
  {
    hide Digits, R.Number, R.Count;
    DigitsValue(Word(9, 12, 6, 10, 14, 15, 23, 30));
    DigitsValue(Word(18, 24, 12, 20, 28, 30, 7, 21));
    DigitsValue(Word(13, 25, 24, 1, 17, 21, 14, 3));
    DigitsValue(Word(26, 27, 25, 2, 11, 3, 28, 6));
    DigitsValue(Word(29, 31, 27, 4, 22, 6, 17, 12));
  }

  lemma UpperXor(a: Word, b: Word)
    ensures UpperDigits(Xor(a, b)) == R.Xor(UpperDigits(a), UpperDigits(b))
  {
    hide R.Xor;
    var r7, s7 := R.Digit(a.d7, R.End), R.Digit(b.d7, R.End);
    var r6, s6 := R.Digit(a.d6, r7), R.Digit(b.d6, s7);
    var r5, s5 := R.Digit(a.d5, r6), R.Digit(b.d5, s6);
    R.XorCons(a.d7, R.End, b.d7, R.End);
    R.XorCons(a.d6, r7, b.d6, s7);
    R.XorCons(a.d5, r6, b.d5, s6);
    R.XorCons(a.d4, r5, b.d4, s5);
  }

  lemma XorDigits(a: Word, b: Word)
    ensures Digits(Xor(a, b)) == R.Xor(Digits(a), Digits(b))
  {
    hide R.Xor, UpperDigits;
    var r3, s3 := R.Digit(a.d3, UpperDigits(a)), R.Digit(b.d3, UpperDigits(b));
    var r2, s2 := R.Digit(a.d2, r3), R.Digit(b.d2, s3);
    var r1, s1 := R.Digit(a.d1, r2), R.Digit(b.d1, s2);
    UpperXor(a, b);
    R.XorCons(a.d3, UpperDigits(a), b.d3, UpperDigits(b));
    R.XorCons(a.d2, r3, b.d2, s3);
    R.XorCons(a.d1, r2, b.d1, s2);
    R.XorCons(a.d0, r1, b.d0, s1);
  }

  lemma UpperTop(w: Word)
    ensures R.Top(UpperDigits(w)) == w.d7
    ensures R.WithoutTop(UpperDigits(w)) == R.Digit(w.d4, R.Digit(w.d5, R.Digit(w.d6, R.End)))
  {
    hide R.Top, R.WithoutTop;
    var r7 := R.Digit(w.d7, R.End);
    var r6 := R.Digit(w.d6, r7);
    var r5 := R.Digit(w.d5, r6);
    R.TopOnly(w.d7);
    R.TopCons(w.d6, r7);
    R.TopCons(w.d5, r6);
    R.TopCons(w.d4, r5);
  }

  lemma ShiftDigits(w: Word, v: bv5)
    ensures Digits(Word(v, w.d0, w.d1, w.d2, w.d3, w.d4, w.d5, w.d6)) == R.Digit(v, R.WithoutTop(Digits(w)))
    ensures R.Top(Digits(w)) == w.d7
  {
    hide R.Top, R.WithoutTop;
    var r3 := R.Digit(w.d3, UpperDigits(w));
    var r2 := R.Digit(w.d2, r3);
    var r1 := R.Digit(w.d1, r2);
    UpperTop(w);
    R.TopCons(w.d3, UpperDigits(w));
    R.TopCons(w.d2, r3);
    R.TopCons(w.d1, r2);
    R.TopCons(w.d0, r1);
  }

  lemma RoundDigits(w: Word, v: bv5)
    ensures Digits(RoundOf(w, v)) == R.Step(Digits(w), v, Taps())
  {
    hide Digits, Xor, R.Xor, R.Top, R.WithoutTop;
    var t := w.d7;
    var x := Word(v, w.d0, w.d1, w.d2, w.d3, w.d4, w.d5, w.d6);
    var x0 := if t & 1 != 0 then Xor(x, Word(9, 12, 6, 10, 14, 15, 23, 30)) else x;
    var x1 := if t & 2 != 0 then Xor(x0, Word(18, 24, 12, 20, 28, 30, 7, 21)) else x0;
    var x2 := if t & 4 != 0 then Xor(x1, Word(13, 25, 24, 1, 17, 21, 14, 3)) else x1;
    var x3 := if t & 8 != 0 then Xor(x2, Word(26, 27, 25, 2, 11, 3, 28, 6)) else x2;
    ShiftDigits(w, v);
    XorDigits(x, Word(9, 12, 6, 10, 14, 15, 23, 30));
    XorDigits(x0, Word(18, 24, 12, 20, 28, 30, 7, 21));
    XorDigits(x1, Word(13, 25, 24, 1, 17, 21, 14, 3));
    XorDigits(x2, Word(26, 27, 25, 2, 11, 3, 28, 6));
    XorDigits(x3, Word(29, 31, 27, 4, 22, 6, 17, 12));
  }

  lemma RoundValue(w: Word, v: bv5)
    ensures Value(RoundOf(w, v)) == Round(Value(w), v as nat, 35, D.GENERATORS)
  {
    hide RoundOf, Value, R.Number, R.Count, R.Step, Round;
    DigitsValue(w);
    DigitsValue(RoundOf(w, v));
    RoundDigits(w, v);
    TapsAreGenerators();
    R.StepIs(Digits(w), v, Taps(), 35);
  }

  // ------------------------------------------------------------ runs

  /** Feeding the values takes one register to the other. */
  ghost predicate Goes(c: Word, ns: seq<nat>, d: Word) {
    Fold(Value(c), ns, 35, D.GENERATORS) == Value(d)
  }

  lemma {:induction false} RunValue(c: Word, vs: seq<bv5>)
    ensures Goes(c, R.Plain(vs), Run(c, vs))
    decreases vs
  {
    hide Value, RoundOf, Round;
    if vs != [] {
      RoundValue(c, vs[0]);
      RunValue(RoundOf(c, vs[0]), vs[1..]);
      assert R.Plain(vs)[0] == vs[0] as nat && R.Plain(vs)[1..] == R.Plain(vs[1..]);
    }
  }

  lemma Feeds(c: Word, vs: seq<bv5>, ns: seq<nat>)
    requires |ns| == |vs| && forall i :: 0 <= i < |vs| ==> ns[i] == vs[i] as nat
    ensures Goes(c, ns, Run(c, vs))
  {
    hide Run, Goes;
    RunValue(c, vs);
    assert R.Plain(vs) == ns;
  }

  lemma Follow(c: Word, x: seq<nat>, d: Word, y: seq<nat>, e: Word)
    requires Goes(c, x, d) && Goes(d, y, e)
    ensures Goes(c, x + y, e)
  {
    FoldConcat(Value(c), x, y, 35, D.GENERATORS);
  }

  const ONE := Word(1, 0, 0, 0, 0, 0, 0, 0)

  // ------------------------------------------------------------ raw(deadbeef)#89f8spxm

  lemma VectorA()
    ensures Goes(ONE, [9, 18, 14, 20, 10, 21, 22, 0], Word(9, 26, 19, 0, 26, 1, 5, 23))
  {
    hide Goes, Run;
    VectorARun();
    Feeds(ONE, [9, 18, 14, 20, 10, 21, 22, 0], [9, 18, 14, 20, 10, 21, 22, 0]);
  }

  lemma VectorARun()
    ensures Run(ONE, [9, 18, 14, 20, 10, 21, 22, 0])
         == Word(9, 26, 19, 0, 26, 1, 5, 23)
  {}

  lemma VectorB()
    ensures Goes(Word(9, 26, 19, 0, 26, 1, 5, 23), [18, 21, 19, 0, 22, 22, 23, 0], Word(27, 12, 6, 0, 2, 5, 23, 11))
  {
    hide Goes, Run;
    VectorBRun();
    Feeds(Word(9, 26, 19, 0, 26, 1, 5, 23), [18, 21, 19, 0, 22, 22, 23, 0], [18, 21, 19, 0, 22, 22, 23, 0]);
  }

  lemma VectorBRun()
    ensures Run(Word(9, 26, 19, 0, 26, 1, 5, 23), [18, 21, 19, 0, 22, 22, 23, 0])
         == Word(27, 12, 6, 0, 2, 5, 23, 11)
  {}

  lemma VectorC()
    ensures Goes(Word(27, 12, 6, 0, 2, 5, 23, 11), [11, 0], Word(21, 22, 26, 13, 27, 2, 26, 22))
  {
    hide Goes, Run;
    VectorCRun();
    Feeds(Word(27, 12, 6, 0, 2, 5, 23, 11), [11, 0], [11, 0]);
  }

  lemma VectorCRun()
    ensures Run(Word(27, 12, 6, 0, 2, 5, 23, 11), [11, 0])
         == Word(21, 22, 26, 13, 27, 2, 26, 22)
  {}

  lemma VectorClose()
    ensures Goes(Word(21, 22, 26, 13, 27, 2, 26, 22), [7, 5, 9, 7, 16, 1, 6, 27], ONE)
  {
    hide Goes, Run;
    VectorCloseRun();
    Feeds(Word(21, 22, 26, 13, 27, 2, 26, 22), [7, 5, 9, 7, 16, 1, 6, 27], [7, 5, 9, 7, 16, 1, 6, 27]);
  }

  lemma VectorCloseRun()
    ensures Run(Word(21, 22, 26, 13, 27, 2, 26, 22), [7, 5, 9, 7, 16, 1, 6, 27])
         == ONE
  {}

  lemma VectorRegister()
    ensures Fold(1, [9, 18, 14, 20, 10, 21, 22, 0] + [18, 21, 19, 0, 22, 22, 23, 0] + [11, 0] + [7, 5, 9, 7, 16, 1, 6, 27],
                 35, D.GENERATORS) == 1
  {
    hide Goes;
    VectorA();
    VectorB();
    VectorC();
    VectorClose();
    var a, b, c := [9, 18, 14, 20, 10, 21, 22, 0], [18, 21, 19, 0, 22, 22, 23, 0], [11, 0];
    Follow(ONE, a, Word(9, 26, 19, 0, 26, 1, 5, 23), b, Word(27, 12, 6, 0, 2, 5, 23, 11));
    Follow(ONE, a + b, Word(27, 12, 6, 0, 2, 5, 23, 11), c, Word(21, 22, 26, 13, 27, 2, 26, 22));
    Follow(ONE, a + b + c, Word(21, 22, 26, 13, 27, 2, 26, 22), [7, 5, 9, 7, 16, 1, 6, 27], ONE);
    FromOne(a + b + c + [7, 5, 9, 7, 16, 1, 6, 27]);
  }

  lemma FromOne(vs: seq<nat>)
    requires Goes(ONE, vs, ONE)
    ensures Fold(1, vs, 35, D.GENERATORS) == 1
  {
    hide Fold;
  }

  lemma InClass0(p: nat, ch: char)
    requires p < 32 && CLASS0[p] == ch && forall i :: 0 <= i < p ==> CLASS0[i] != ch
    ensures ch in InputCharset() && Find(InputCharset(), ch) == Some(p)
  {
    assert InputCharset()[..p] == CLASS0[..p];
    assert InputCharset()[p] == ch;
    FindUnique(InputCharset(), ch, p);
  }

  lemma InClass2(p: nat, ch: char)
    requires p < 31 && CLASS2[p] == ch && forall i :: 0 <= i < p ==> CLASS2[i] != ch
    requires ch !in CLASS0 && ch !in CLASS1
    ensures ch in InputCharset() && Find(InputCharset(), ch) == Some(64 + p)
  {
    assert InputCharset()[..64 + p] == CLASS0 + CLASS1 + CLASS2[..p];
    assert InputCharset()[64 + p] == ch;
    FindUnique(InputCharset(), ch, 64 + p);
  }

  lemma ParenOpens()
    ensures '(' in InputCharset() && Find(InputCharset(), '(') == Some(10)
  {
    hide InputCharset, Find;
    InClass0(10, '(');
  }

  lemma ParenCloses()
    ensures ')' in InputCharset() && Find(InputCharset(), ')') == Some(11)
  {
    hide InputCharset, Find;
    InClass0(11, ')');
  }

  lemma LetterA()
    ensures 'a' in InputCharset() && Find(InputCharset(), 'a') == Some(18)
  {
    hide InputCharset, Find;
    InClass0(18, 'a');
  }

  lemma LetterB()
    ensures 'b' in InputCharset() && Find(InputCharset(), 'b') == Some(19)
  {
    hide InputCharset, Find;
    InClass0(19, 'b');
  }

  lemma LetterD()
    ensures 'd' in InputCharset() && Find(InputCharset(), 'd') == Some(21)
  {
    hide InputCharset, Find;
    InClass0(21, 'd');
  }

  lemma LetterE()
    ensures 'e' in InputCharset() && Find(InputCharset(), 'e') == Some(22)
  {
    hide InputCharset, Find;
    InClass0(22, 'e');
  }

  lemma LetterF()
    ensures 'f' in InputCharset() && Find(InputCharset(), 'f') == Some(23)
  {
    hide InputCharset, Find;
    InClass0(23, 'f');
  }

  lemma NotInClass0(ch: char)
    requires ch == 'r' || ch == 'w'
    ensures ch !in CLASS0
  {}

  lemma NotInClass1(ch: char)
    requires ch == 'r' || ch == 'w'
    ensures ch !in CLASS1
  {}

  lemma LetterR()
    ensures 'r' in InputCharset() && Find(InputCharset(), 'r') == Some(73)
  {
    hide InputCharset, Find;
    NotInClass0('r');
    NotInClass1('r');
    InClass2(9, 'r');
  }

  lemma LetterW()
    ensures 'w' in InputCharset() && Find(InputCharset(), 'w') == Some(78)
  {
    hide InputCharset, Find;
    NotInClass0('w');
    NotInClass1('w');
    InClass2(14, 'w');
  }

  lemma RawPositions()
    ensures Describable("raw(deadbeef)")
    ensures Positions("raw(deadbeef)") == [73, 18, 78, 10, 21, 22] + ([18, 21, 19, 22, 22, 23] + [11])
  {
    hide InputCharset, Find, Positions;
    ParenOpens();
    ParenCloses();
    LetterA();
    LetterB();
    LetterD();
    LetterE();
    LetterF();
    LetterR();
    LetterW();
  }

  lemma RawExpanded()
    ensures Expanded([73, 18, 78, 10, 21, 22] + ([18, 21, 19, 22, 22, 23] + [11]))
         == [9, 18, 14, 20, 10, 21, 22, 0] + ([18, 21, 19, 0, 22, 22, 23, 0] + [11, 0])
  {
    hide Expanded;
    ExpandedGroups(73, 18, 78, 10, 21, 22, [18, 21, 19, 22, 22, 23] + [11]);
    ExpandedGroups(18, 21, 19, 22, 22, 23, [11]);
    ExpandedOne(11);
  }

  lemma ExpandedOne(p: Pos)
    ensures Expanded([p]) == [p % 32, p / 32]
  {}

  lemma ExpandedGroups(p0: Pos, p1: Pos, p2: Pos, p3: Pos, p4: Pos, p5: Pos, rest: seq<Pos>)
    ensures Expanded([p0, p1, p2, p3, p4, p5] + rest)
         == [p0 % 32, p1 % 32, p2 % 32, 9 * (p0 / 32) + 3 * (p1 / 32) + p2 / 32,
             p3 % 32, p4 % 32, p5 % 32, 9 * (p3 / 32) + 3 * (p4 / 32) + p5 / 32] + Expanded(rest)
  {
    hide Expanded;
    var ps := [p0, p1, p2, p3, p4, p5] + rest;
    ExpandedMore(ps);
    assert ps[3..] == [p3, p4, p5] + rest;
    ExpandedMore(ps[3..]);
    assert ps[3..][3..] == rest;
  }

  lemma RawChars()
    ensures Chars([7, 5, 9, 7, 16, 1, 6, 27]) == "89f8spxm"
  {
    hide Chars;
  }

  /** An example of BIP 380. */
  lemma RawChecksum()
    ensures Checksum("raw(deadbeef)") == "89f8spxm"
  {
    hide Positions, Describable, Expanded, Fold, Chars, Checksum;
    RawPositions();
    RawExpanded();
    RawChars();
    VectorRegister();
    Associate([9, 18, 14, 20, 10, 21, 22, 0], [18, 21, 19, 0, 22, 22, 23, 0], [11, 0]);
    ChecksumCloses("raw(deadbeef)", [7, 5, 9, 7, 16, 1, 6, 27]);
  }
}
