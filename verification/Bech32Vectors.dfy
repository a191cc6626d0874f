/**
 * Published addresses: the register, its constants, the alphabet and the order of bits, computed on test
 * vectors of BIP 173 and BIP 350.
 */
module Bech32Vectors {
  import opened Python
  import opened Sequences
  import opened Checksums
  import opened Bits
  import R = Registers
  import opened BitGroups
  import opened Bech32

  // ------------------------------------------------------------ the register in digits

  /** A register of thirty bits, the least significant digit first. */
  datatype Word = Word(d0: bv5, d1: bv5, d2: bv5, d3: bv5, d4: bv5, d5: bv5)

  function Xor(a: Word, b: Word): Word {
    Word(a.d0 ^ b.d0, a.d1 ^ b.d1, a.d2 ^ b.d2, a.d3 ^ b.d3, a.d4 ^ b.d4, a.d5 ^ b.d5)
  }

  function RoundOf(w: Word, v: bv5): Word {
    var t := w.d5;
    var x := Word(v, w.d0, w.d1, w.d2, w.d3, w.d4);
    var x := if t & 1 != 0 then Xor(x, Word(18, 29, 21, 20, 22, 29)) else x;
    var x := if t & 2 != 0 then Xor(x, Word(13, 19, 3, 1, 5, 19)) else x;
    var x := if t & 4 != 0 then Xor(x, Word(26, 15, 6, 2, 10, 15)) else x;
    var x := if t & 8 != 0 then Xor(x, Word(29, 30, 12, 4, 20, 30)) else x;
    if t & 16 != 0 then Xor(x, Word(19, 21, 24, 8, 1, 21)) else x
  }

  function Run(w: Word, vs: seq<bv5>): Word
    decreases vs
  {
    if vs == [] then w else Run(RoundOf(w, vs[0]), vs[1..])
  }

  function Digits(w: Word): R.Digits {
    R.Digit(w.d0, R.Digit(w.d1, R.Digit(w.d2, R.Digit(w.d3, R.Digit(w.d4, R.Digit(w.d5, R.End))))))
  }

  function Value(w: Word): nat {
    w.d0 as nat + 0x20 * w.d1 as nat + 0x400 * w.d2 as nat + 0x8000 * w.d3 as nat + 0x100000 * w.d4 as nat
    + 0x2000000 * w.d5 as nat
  }

  lemma DigitsValue(w: Word)
    ensures R.Number(Digits(w)) == Value(w) && R.Count(Digits(w)) == 6
  {
    hide R.Number, R.Count;
    var r1 := R.Digit(w.d5, R.End);
    var r2 := R.Digit(w.d4, r1);
    var r3 := R.Digit(w.d3, r2);
    var r4 := R.Digit(w.d2, r3);
    var r5 := R.Digit(w.d1, r4);
    R.NoMore();
    R.NumberCons(w.d5, R.End);
    R.NumberCons(w.d4, r1);
    R.NumberCons(w.d3, r2);
    R.NumberCons(w.d2, r3);
    R.NumberCons(w.d1, r4);
    R.NumberCons(w.d0, r5);
  }

  function Taps(): R.Taps {
    R.Taps(Digits(Word(18, 29, 21, 20, 22, 29)), Digits(Word(13, 19, 3, 1, 5, 19)), Digits(Word(26, 15, 6, 2, 10, 15)),
           Digits(Word(29, 30, 12, 4, 20, 30)), Digits(Word(19, 21, 24, 8, 1, 21)))
  }

  lemma TapsAreGenerators()
    ensures R.Generator(Taps()) == Bech32.GENERATORS && R.AsLong(Taps(), 6)
  {
    hide Digits, R.Number, R.Count;
    DigitsValue(Word(18, 29, 21, 20, 22, 29));
    DigitsValue(Word(13, 19, 3, 1, 5, 19));
    DigitsValue(Word(26, 15, 6, 2, 10, 15));
    DigitsValue(Word(29, 30, 12, 4, 20, 30));
    DigitsValue(Word(19, 21, 24, 8, 1, 21));
  }

  lemma XorDigits(a: Word, b: Word)
    ensures Digits(Xor(a, b)) == R.Xor(Digits(a), Digits(b))
  {
    hide R.Xor;
    var r1, s1 := R.Digit(a.d5, R.End), R.Digit(b.d5, R.End);
    var r2, s2 := R.Digit(a.d4, r1), R.Digit(b.d4, s1);
    var r3, s3 := R.Digit(a.d3, r2), R.Digit(b.d3, s2);
    var r4, s4 := R.Digit(a.d2, r3), R.Digit(b.d2, s3);
    var r5, s5 := R.Digit(a.d1, r4), R.Digit(b.d1, s4);
    R.XorCons(a.d5, R.End, b.d5, R.End);
    R.XorCons(a.d4, r1, b.d4, s1);
    R.XorCons(a.d3, r2, b.d3, s2);
    R.XorCons(a.d2, r3, b.d2, s3);
    R.XorCons(a.d1, r4, b.d1, s4);
    R.XorCons(a.d0, r5, b.d0, s5);
  }

  lemma ShiftDigits(w: Word, v: bv5)
    ensures Digits(Word(v, w.d0, w.d1, w.d2, w.d3, w.d4)) == R.Digit(v, R.WithoutTop(Digits(w)))
    ensures R.Top(Digits(w)) == w.d5
  {
    hide R.Top, R.WithoutTop;
    var r1 := R.Digit(w.d5, R.End);
    var r2 := R.Digit(w.d4, r1);
    var r3 := R.Digit(w.d3, r2);
    var r4 := R.Digit(w.d2, r3);
    var r5 := R.Digit(w.d1, r4);
    R.TopOnly(w.d5);
    R.TopCons(w.d4, r1);
    R.TopCons(w.d3, r2);
    R.TopCons(w.d2, r3);
    R.TopCons(w.d1, r4);
    R.TopCons(w.d0, r5);
  }

  lemma RoundDigits(w: Word, v: bv5)
    ensures Digits(RoundOf(w, v)) == R.Step(Digits(w), v, Taps())
  {
    hide Digits, Xor, R.Xor, R.Top, R.WithoutTop;
    var t := w.d5;
    var x := Word(v, w.d0, w.d1, w.d2, w.d3, w.d4);
    var x0 := if t & 1 != 0 then Xor(x, Word(18, 29, 21, 20, 22, 29)) else x;
    var x1 := if t & 2 != 0 then Xor(x0, Word(13, 19, 3, 1, 5, 19)) else x0;
    var x2 := if t & 4 != 0 then Xor(x1, Word(26, 15, 6, 2, 10, 15)) else x1;
    var x3 := if t & 8 != 0 then Xor(x2, Word(29, 30, 12, 4, 20, 30)) else x2;
    ShiftDigits(w, v);
    XorDigits(x, Word(18, 29, 21, 20, 22, 29));
    XorDigits(x0, Word(13, 19, 3, 1, 5, 19));
    XorDigits(x1, Word(26, 15, 6, 2, 10, 15));
    XorDigits(x2, Word(29, 30, 12, 4, 20, 30));
    XorDigits(x3, Word(19, 21, 24, 8, 1, 21));
  }

  lemma RoundValue(w: Word, v: bv5)
    ensures Value(RoundOf(w, v)) == Round(Value(w), v as nat, 25, Bech32.GENERATORS)
  {
    hide RoundOf, Value, R.Number, R.Count, R.Step, Round;
    DigitsValue(w);
    DigitsValue(RoundOf(w, v));
    RoundDigits(w, v);
    TapsAreGenerators();
    R.StepIs(Digits(w), v, Taps(), 25);
  }

  // ------------------------------------------------------------ runs

  /** Feeding the values takes one register to the other. */
  ghost predicate Goes(c: Word, ns: seq<nat>, d: Word) {
    Fold(Value(c), ns, 25, Bech32.GENERATORS) == Value(d)
  }

  lemma {:induction false} RunValue(c: Word, vs: seq<bv5>)
    ensures Goes(c, R.Plain(vs), Run(c, vs))
    decreases vs
  {
    hide Value, RoundOf, Round;
    if vs != [] {
      RoundValue(c, vs[0]);
      RunValue(RoundOf(c, vs[0]), vs[1..]);
      assert R.Plain(vs)[0] == vs[0] as nat && R.Plain(vs)[1..] == R.Plain(vs[1..]);
    }
  }

  lemma Feeds(c: Word, vs: seq<bv5>, ns: seq<nat>)
    requires |ns| == |vs| && forall i :: 0 <= i < |vs| ==> ns[i] == vs[i] as nat
    ensures Goes(c, ns, Run(c, vs))
  {
    hide Run, Goes;
    RunValue(c, vs);
    assert R.Plain(vs) == ns;
  }

  /** One stretch after the other. */
  lemma Follow(c: Word, x: seq<nat>, d: Word, y: seq<nat>, e: Word)
    requires Goes(c, x, d) && Goes(d, y, e)
    ensures Goes(c, x + y, e)
  {
    FoldConcat(Value(c), x, y, 25, Bech32.GENERATORS);
  }

  const START := Word(1, 0, 0, 0, 0, 0)

  lemma FromStart(vs: seq<nat>, d: Word)
    requires Goes(START, vs, d)
    ensures Register(vs) == Value(d)
  {}

  // ------------------------------------------------------------ addresses

  lemma ExpandBc()
    ensures Expand("bc") == [3, 3, 0, 2, 3]
  {
    hide Expand;
    ExpandIs("bc");
    var e := Expand("bc");
    assert e[0] == 'b' as int / 32 && e[1] == 'c' as int / 32;
    assert e[2 + 1 + 0] == 'b' as int % 32 && e[2 + 1 + 1] == 'c' as int % 32;
  }

  /** Symbols that spell out the program, and the register closed by six more, make an address. */
  lemma Address(ver: Sym, prog: seq<byte>, conv: seq<Sym>, p: nat, cs: seq<Sym>)
    requires |cs| == 6 && Fitting("bc", ver, |conv|, |prog|)
    requires |conv| * 5 == |prog| * 8 + p && p < 5 && BigEndian(conv, 5) == BigEndian(Nats(prog), 8) * Pow2(p)
    requires Register([3, 3, 0, 2, 3] + ([ver] + conv + cs)) == Const(EncodingFor(ver))
    ensures SegwitDecode("bc", "bc1" + Chars([ver] + conv + cs)) == Some(Program(ver, Nats(prog)))
    ensures SegwitEncode("bc", ver, prog) == Ok(Some("bc1" + Chars([ver] + conv + cs)))
  {
    hide Register, Chars, Create, SegwitOf, BechDecode, Regroup, BigEndian, Expand, Const, EncodingFor, Nats;
    var data := [ver] + conv;
    NatsInRange(prog);
    SymbolRange(conv);
    RegroupNumber(Nats(prog), 8, 5, conv, p);
    RegroupBack(Nats(prog), 8, 5);
    ExpandBc();
    VerifyMeans(EncodingFor(ver), "bc", data + cs);
    ChecksumUnique(EncodingFor(ver), "bc", data, cs);
    assert Text(EncodingFor(ver), "bc", data) == "bc1" + Chars(data + cs);
    SegwitText("bc", ver, conv, Nats(prog));
    EncodeText("bc", ver, conv, Nats(prog));
  }

  // ------------------------------------------------------------ bc1sw50qgdz25j

  lemma ShortHead()
    ensures Goes(START, [3, 3, 0, 2, 3, 16], Word(2, 30, 23, 20, 21, 30))
  {
    hide Goes, Run;
    ShortHeadRun();
    Feeds(START, [3, 3, 0, 2, 3, 16], [3, 3, 0, 2, 3, 16]);
  }

  lemma ShortHeadRun()
    ensures Run(START, [3, 3, 0, 2, 3, 16]) == Word(2, 30, 23, 20, 21, 30)
  {}

  lemma ShortProgram()
    ensures Goes(Word(2, 30, 23, 20, 21, 30), [14, 20, 15, 0], Word(26, 6, 6, 1, 6, 8))
  {
    hide Goes, Run;
    ShortProgramRun();
    Feeds(Word(2, 30, 23, 20, 21, 30), [14, 20, 15, 0], [14, 20, 15, 0]);
  }

  lemma ShortProgramRun()
    ensures Run(Word(2, 30, 23, 20, 21, 30), [14, 20, 15, 0]) == Word(26, 6, 6, 1, 6, 8)
  {}

  lemma ShortClose()
    ensures Goes(Word(26, 6, 6, 1, 6, 8), [8, 13, 2, 10, 20, 18], Word(3, 5, 12, 16, 28, 21))
  {
    hide Goes, Run;
    ShortCloseRun();
    Feeds(Word(26, 6, 6, 1, 6, 8), [8, 13, 2, 10, 20, 18], [8, 13, 2, 10, 20, 18]);
  }

  lemma ShortCloseRun()
    ensures Run(Word(26, 6, 6, 1, 6, 8), [8, 13, 2, 10, 20, 18]) == Word(3, 5, 12, 16, 28, 21)
  {}

  // ------------------------------------------------------------ bc1qw508d6qejxtdg4y5r3zarvary0c5xw7kv8f3t4

  lemma LongHead()
    ensures Goes(START, [3, 3, 0, 2, 3, 0], Word(18, 30, 23, 20, 21, 30))
  {
    hide Goes, Run;
    LongHeadRun();
    Feeds(START, [3, 3, 0, 2, 3, 0], [3, 3, 0, 2, 3, 0]);
  }

  lemma LongHeadRun()
    ensures Run(START, [3, 3, 0, 2, 3, 0]) == Word(18, 30, 23, 20, 21, 30)
  {}

  lemma LongA()
    ensures Goes(Word(18, 30, 23, 20, 21, 30), [14, 20, 15, 7, 13, 26, 0, 25], Word(14, 30, 18, 23, 17, 21))
  {
    hide Goes, Run;
    LongARun();
    Feeds(Word(18, 30, 23, 20, 21, 30), [14, 20, 15, 7, 13, 26, 0, 25], [14, 20, 15, 7, 13, 26, 0, 25]);
  }

  lemma LongARun()
    ensures Run(Word(18, 30, 23, 20, 21, 30), [14, 20, 15, 7, 13, 26, 0, 25]) == Word(14, 30, 18, 23, 17, 21)
  {}

  lemma LongB()
    ensures Goes(Word(14, 30, 18, 23, 17, 21), [18, 6, 11, 13, 8, 21, 4, 20], Word(11, 26, 31, 3, 26, 17))
  {
    hide Goes, Run;
    LongBRun();
    Feeds(Word(14, 30, 18, 23, 17, 21), [18, 6, 11, 13, 8, 21, 4, 20], [18, 6, 11, 13, 8, 21, 4, 20]);
  }

  lemma LongBRun()
    ensures Run(Word(14, 30, 18, 23, 17, 21), [18, 6, 11, 13, 8, 21, 4, 20]) == Word(11, 26, 31, 3, 26, 17)
  {}

  lemma LongC()
    ensures Goes(Word(11, 26, 31, 3, 26, 17), [3, 17, 2, 29, 3, 12, 29, 3], Word(20, 11, 28, 16, 3, 21))
  {
    hide Goes, Run;
    LongCRun();
    Feeds(Word(11, 26, 31, 3, 26, 17), [3, 17, 2, 29, 3, 12, 29, 3], [3, 17, 2, 29, 3, 12, 29, 3]);
  }

  lemma LongCRun()
    ensures Run(Word(11, 26, 31, 3, 26, 17), [3, 17, 2, 29, 3, 12, 29, 3]) == Word(20, 11, 28, 16, 3, 21)
  {}

  lemma LongD()
    ensures Goes(Word(20, 11, 28, 16, 3, 21), [4, 15, 24, 20, 6, 14, 30, 22], Word(13, 7, 17, 19, 23, 4))
  {
    hide Goes, Run;
    LongDRun();
    Feeds(Word(20, 11, 28, 16, 3, 21), [4, 15, 24, 20, 6, 14, 30, 22], [4, 15, 24, 20, 6, 14, 30, 22]);
  }

  lemma LongDRun()
    ensures Run(Word(20, 11, 28, 16, 3, 21), [4, 15, 24, 20, 6, 14, 30, 22]) == Word(13, 7, 17, 19, 23, 4)
  {}

  lemma LongClose()
    ensures Goes(Word(13, 7, 17, 19, 23, 4), [12, 7, 9, 17, 11, 21], START)
  {
    hide Goes, Run;
    LongCloseRun();
    Feeds(Word(13, 7, 17, 19, 23, 4), [12, 7, 9, 17, 11, 21], [12, 7, 9, 17, 11, 21]);
  }

  lemma LongCloseRun()
    ensures Run(Word(13, 7, 17, 19, 23, 4), [12, 7, 9, 17, 11, 21]) == START
  {}

  // ------------------------------------------------------------ the two addresses

  lemma ShortRegister()
    ensures Register([3, 3, 0, 2, 3] + ([16] + [14, 20, 15, 0] + [8, 13, 2, 10, 20, 18])) == 0x2bc830a3
  {
    hide Register, Goes, Fold;
    ShortHead();
    ShortProgram();
    ShortClose();
    Follow(START, [3, 3, 0, 2, 3, 16], Word(2, 30, 23, 20, 21, 30), [14, 20, 15, 0], Word(26, 6, 6, 1, 6, 8));
    Follow(START, [3, 3, 0, 2, 3, 16] + [14, 20, 15, 0], Word(26, 6, 6, 1, 6, 8), [8, 13, 2, 10, 20, 18],
           Word(3, 5, 12, 16, 28, 21));
    FromStart([3, 3, 0, 2, 3, 16] + [14, 20, 15, 0] + [8, 13, 2, 10, 20, 18], Word(3, 5, 12, 16, 28, 21));
    Regrouped([3, 3, 0, 2, 3], [16], [14, 20, 15, 0], [8, 13, 2, 10, 20, 18]);
    assert [3, 3, 0, 2, 3] + [16] == [3, 3, 0, 2, 3, 16];
  }

  lemma Regrouped<T>(a: seq<T>, b: seq<T>, c: seq<T>, d: seq<T>)
    ensures a + (b + c + d) == a + b + c + d
  {}

  lemma Spelled(a: seq<Sym>, b: seq<Sym>, c: seq<Sym>, x: string, y: string, z: string)
    requires Chars(a) == x && Chars(b) == y && Chars(c) == z
    ensures Chars(a + b + c) == x + y + z
  {
    hide Chars;
    CharsJoined(a, b);
    CharsJoined(a + b, c);
  }

  lemma ShortText()
    ensures "bc1" + Chars([16] + [14, 20, 15, 0] + [8, 13, 2, 10, 20, 18]) == "bc1sw50qgdz25j"
  {
    hide Chars;
    assert Chars([16]) == "s" && Chars([14, 20, 15, 0]) == "w50q" && Chars([8, 13, 2, 10, 20, 18]) == "gdz25j";
    Spelled([16], [14, 20, 15, 0], [8, 13, 2, 10, 20, 18], "s", "w50q", "gdz25j");
  }

  /** An address of BIP 350, of version 16 and two bytes. */
  lemma ShortAddress()
    ensures SegwitDecode("bc", "bc1sw50qgdz25j") == Some(Program(16, [0x75, 0x1e]))
    ensures SegwitEncode("bc", 16, [0x75, 0x1e]) == Ok(Some("bc1sw50qgdz25j"))
  {
    hide Register, Chars, Expand, BechDecode, Regroup, BigEndian, SegwitDecode, SegwitEncode;
    assert Pow2(4) == 16;
    ShortGroups();
    assert Nats([0x75, 0x1e]) == [0x75, 0x1e];
    ShortRegister();
    ShortText();
    Address(16, [0x75, 0x1e], [14, 20, 15, 0], 4, [8, 13, 2, 10, 20, 18]);
  }

  lemma ShortGroups()
    ensures BigEndian([14, 20, 15, 0], 5) == 0x751e0 && BigEndian([0x75, 0x1e], 8) == 0x751e
  {}

  function LongSymbols(): (r: seq<Sym>)
    ensures |r| == 32
  {
    [14, 20, 15, 7, 13, 26, 0, 25] + [18, 6, 11, 13, 8, 21, 4, 20] + [3, 17, 2, 29, 3, 12, 29, 3]
    + [4, 15, 24, 20, 6, 14, 30, 22]
  }

  function LongProgram(): (r: seq<byte>)
    ensures |r| == 20
  {
    [0x75, 0x1e, 0x76, 0xe8, 0x19] + [0x91, 0x96, 0xd4, 0x54, 0x94] + [0x1c, 0x45, 0xd1, 0xb3, 0xa3]
    + [0x23, 0xf1, 0x43, 0x3b, 0xd6]
  }

  lemma LongRegister()
    ensures Register([3, 3, 0, 2, 3] + ([0] + LongSymbols() + [12, 7, 9, 17, 11, 21])) == 1
  {
    hide Register, Goes, Fold;
    LongHead();
    LongA();
    LongB();
    LongC();
    LongD();
    LongClose();
    var a, b, c, d := [14, 20, 15, 7, 13, 26, 0, 25], [18, 6, 11, 13, 8, 21, 4, 20], [3, 17, 2, 29, 3, 12, 29, 3],
      [4, 15, 24, 20, 6, 14, 30, 22];
    var vs := [3, 3, 0, 2, 3, 0] + (a + b + c + d) + [12, 7, 9, 17, 11, 21];
    Follow(Word(18, 30, 23, 20, 21, 30), a, Word(14, 30, 18, 23, 17, 21), b, Word(11, 26, 31, 3, 26, 17));
    Follow(Word(18, 30, 23, 20, 21, 30), a + b, Word(11, 26, 31, 3, 26, 17), c, Word(20, 11, 28, 16, 3, 21));
    Follow(Word(18, 30, 23, 20, 21, 30), a + b + c, Word(20, 11, 28, 16, 3, 21), d, Word(13, 7, 17, 19, 23, 4));
    Follow(START, [3, 3, 0, 2, 3, 0], Word(18, 30, 23, 20, 21, 30), a + b + c + d, Word(13, 7, 17, 19, 23, 4));
    Follow(START, [3, 3, 0, 2, 3, 0] + (a + b + c + d), Word(13, 7, 17, 19, 23, 4), [12, 7, 9, 17, 11, 21], START);
    FromStart(vs, START);
    Regrouped([3, 3, 0, 2, 3], [0], LongSymbols(), [12, 7, 9, 17, 11, 21]);
    assert [3, 3, 0, 2, 3] + [0] == [3, 3, 0, 2, 3, 0];
  }

  lemma LongCharsA()
    ensures Chars([14, 20, 15, 7, 13, 26, 0, 25]) == "w508d6qe" && Chars([0]) == "q"
  {
    hide Chars;
  }

  lemma LongCharsB()
    ensures Chars([18, 6, 11, 13, 8, 21, 4, 20]) == "jxtdg4y5"
  {
    hide Chars;
  }

  lemma LongCharsC()
    ensures Chars([3, 17, 2, 29, 3, 12, 29, 3]) == "r3zarvar"
  {
    hide Chars;
  }

  lemma LongCharsD()
    ensures Chars([4, 15, 24, 20, 6, 14, 30, 22]) == "y0c5xw7k" && Chars([12, 7, 9, 17, 11, 21]) == "v8f3t4"
  {
    hide Chars;
  }

  lemma LongSpelled(v: seq<Sym>, a: seq<Sym>, b: seq<Sym>, c: seq<Sym>, d: seq<Sym>, cs: seq<Sym>)
    ensures Chars(v + (a + b + c + d) + cs)
         == Chars(v) + (Chars(a) + Chars(b) + Chars(c) + Chars(d)) + Chars(cs)
  {
    hide Chars;
    CharsJoined(a, b);
    CharsJoined(a + b, c);
    CharsJoined(a + b + c, d);
    CharsJoined(v, a + b + c + d);
    CharsJoined(v + (a + b + c + d), cs);
  }

  lemma LongText()
    ensures "bc1" + Chars([0] + LongSymbols() + [12, 7, 9, 17, 11, 21]) == "bc1qw508d6qejxtdg4y5r3zarvary0c5xw7kv8f3t4"
  {
    hide Chars;
    LongCharsA();
    LongCharsB();
    LongCharsC();
    LongCharsD();
    LongSpelled([0], [14, 20, 15, 7, 13, 26, 0, 25], [18, 6, 11, 13, 8, 21, 4, 20], [3, 17, 2, 29, 3, 12, 29, 3],
                [4, 15, 24, 20, 6, 14, 30, 22], [12, 7, 9, 17, 11, 21]);
    LongJoined("w508d6qe" + "jxtdg4y5" + "r3zarvar" + "y0c5xw7k");
  }

  lemma LongJoined(program: string)
    requires program == "w508d6qe" + "jxtdg4y5" + "r3zarvar" + "y0c5xw7k"
    ensures "bc1" + ("q" + program + "v8f3t4") == "bc1qw508d6qejxtdg4y5r3zarvary0c5xw7kv8f3t4"
  {
    assert "w508d6qe" + "jxtdg4y5" == "w508d6qejxtdg4y5";
    assert program == "w508d6qejxtdg4y5r3zarvary0c5xw7k";
    Regrouped("bc1", "q", program, "v8f3t4");
    assert "bc1" + "q" == "bc1q";
    FrameStart();
    FrameEnd();
  }

  lemma FrameStart()
    ensures "bc1q" + "w508d6qejxtdg4y5r3zarvary0c5xw7k" == "bc1qw508d6qejxtdg4y5r3zarvary0c5xw7k"
  {}

  lemma FrameEnd()
    ensures "bc1qw508d6qejxtdg4y5r3zarvary0c5xw7k" + "v8f3t4" == "bc1qw508d6qejxtdg4y5r3zarvary0c5xw7kv8f3t4"
  {}

  lemma ReadTwo(n: int, a: int, b: int, rest: seq<int>, w: nat)
    ensures ReadOn(n, [a, b] + rest, w) == ReadOn((n * Pow2(w) + a) * Pow2(w) + b, rest, w)
  {
    assert ([a, b] + rest)[1..] == [b] + rest && ([b] + rest)[1..] == rest;
  }

  /** Eight symbols are five bytes if they are the same forty bits. */
  lemma EightAreFive(n: int, s: seq<int>, b: seq<int>)
    requires |s| == 8 && |b| == 5
    requires 0x800000000 * s[0] + 0x40000000 * s[1] + 0x2000000 * s[2] + 0x100000 * s[3] + 0x8000 * s[4]
      + 0x400 * s[5] + 0x20 * s[6] + s[7] == 0x100000000 * b[0] + 0x1000000 * b[1] + 0x10000 * b[2] + 0x100 * b[3] + b[4]
    ensures ReadOn(n, s, 5) == ReadOn(n, b, 8)
  {
    hide ReadOn;
    assert Pow2(5) == 32 && Pow2(8) == 256;
    assert s == [s[0], s[1]] + ([s[2], s[3]] + ([s[4], s[5]] + ([s[6], s[7]] + [])));
    assert b == [b[0], b[1]] + ([b[2], b[3]] + [b[4]]);
    var s1 := (n * 32 + s[0]) * 32 + s[1];
    var s2 := (s1 * 32 + s[2]) * 32 + s[3];
    var s3 := (s2 * 32 + s[4]) * 32 + s[5];
    ReadTwo(n, s[0], s[1], [s[2], s[3]] + ([s[4], s[5]] + ([s[6], s[7]] + [])), 5);
    ReadTwo(s1, s[2], s[3], [s[4], s[5]] + ([s[6], s[7]] + []), 5);
    ReadTwo(s2, s[4], s[5], [s[6], s[7]] + [], 5);
    ReadTwo(s3, s[6], s[7], [], 5);
    var b1 := (n * 256 + b[0]) * 256 + b[1];
    var b2 := (b1 * 256 + b[2]) * 256 + b[3];
    ReadTwo(n, b[0], b[1], [b[2], b[3]] + [b[4]], 8);
    ReadTwo(b1, b[2], b[3], [b[4]], 8);
    ReadOne(b2, b[4], 8);
    ReadNone((s3 * 32 + s[6]) * 32 + s[7], 5);
  }

  lemma ReadOne(n: int, a: int, w: nat)
    ensures ReadOn(n, [a], w) == n * Pow2(w) + a
  {}

  lemma ReadNone(n: int, w: nat)
    ensures ReadOn(n, [], w) == n
  {}

  lemma {:induction false} ReadJoined(n: int, a: seq<int>, b: seq<int>, w: nat)
    ensures ReadOn(n, a + b, w) == ReadOn(ReadOn(n, a, w), b, w)
    decreases |a|
  {
    if a == [] {
      assert a + b == b;
    } else {
      assert (a + b)[1..] == a[1..] + b;
      ReadJoined(n * Pow2(w) + a[0], a[1..], b, w);
    }
  }

  lemma ReadFour(n: int, a: seq<int>, b: seq<int>, c: seq<int>, d: seq<int>, w: nat)
    ensures ReadOn(n, a + b + c + d, w) == ReadOn(ReadOn(ReadOn(ReadOn(n, a, w), b, w), c, w), d, w)
  {
    hide ReadOn;
    ReadJoined(n, a + b + c, d, w);
    ReadJoined(n, a + b, c, w);
    ReadJoined(n, a, b, w);
  }

  lemma NatsJoined(a: seq<byte>, b: seq<byte>)
    ensures Nats(a + b) == Nats(a) + Nats(b)
  {
    hide Nats;
  }

  lemma LongGroups()
    ensures BigEndian(LongSymbols(), 5) == BigEndian(Nats(LongProgram()), 8)
  {
    hide ReadOn;
    LongNats();
    ReadFour(0, [14, 20, 15, 7, 13, 26, 0, 25], [18, 6, 11, 13, 8, 21, 4, 20], [3, 17, 2, 29, 3, 12, 29, 3],
             [4, 15, 24, 20, 6, 14, 30, 22], 5);
    ReadFour(0, [0x75, 0x1e, 0x76, 0xe8, 0x19], [0x91, 0x96, 0xd4, 0x54, 0x94], [0x1c, 0x45, 0xd1, 0xb3, 0xa3],
             [0x23, 0xf1, 0x43, 0x3b, 0xd6], 8);
    var a := ReadOn(0, [14, 20, 15, 7, 13, 26, 0, 25], 5);
    EightAreFive(0, [14, 20, 15, 7, 13, 26, 0, 25], [0x75, 0x1e, 0x76, 0xe8, 0x19]);
    var b := ReadOn(a, [18, 6, 11, 13, 8, 21, 4, 20], 5);
    EightAreFive(a, [18, 6, 11, 13, 8, 21, 4, 20], [0x91, 0x96, 0xd4, 0x54, 0x94]);
    var c := ReadOn(b, [3, 17, 2, 29, 3, 12, 29, 3], 5);
    EightAreFive(b, [3, 17, 2, 29, 3, 12, 29, 3], [0x1c, 0x45, 0xd1, 0xb3, 0xa3]);
    EightAreFive(c, [4, 15, 24, 20, 6, 14, 30, 22], [0x23, 0xf1, 0x43, 0x3b, 0xd6]);
  }

  lemma LongNats()
    ensures Nats(LongProgram()) == [0x75, 0x1e, 0x76, 0xe8, 0x19] + [0x91, 0x96, 0xd4, 0x54, 0x94]
      + [0x1c, 0x45, 0xd1, 0xb3, 0xa3] + [0x23, 0xf1, 0x43, 0x3b, 0xd6]
  {
    hide Nats;
    var a: seq<byte>, b: seq<byte> := [0x75, 0x1e, 0x76, 0xe8, 0x19], [0x91, 0x96, 0xd4, 0x54, 0x94];
    var c: seq<byte>, d: seq<byte> := [0x1c, 0x45, 0xd1, 0xb3, 0xa3], [0x23, 0xf1, 0x43, 0x3b, 0xd6];
    NatsJoined(a, b);
    NatsJoined(a + b, c);
    NatsJoined(a + b + c, d);
    assert Nats(a) == [0x75, 0x1e, 0x76, 0xe8, 0x19];
    assert Nats(b) == [0x91, 0x96, 0xd4, 0x54, 0x94];
    assert Nats(c) == [0x1c, 0x45, 0xd1, 0xb3, 0xa3];
    assert Nats(d) == [0x23, 0xf1, 0x43, 0x3b, 0xd6];
  }

  /** The first address of BIP 173: version 0 and twenty bytes. */
  lemma LongAddress()
    ensures LongProgram() == [0x75, 0x1e, 0x76, 0xe8, 0x19, 0x91, 0x96, 0xd4, 0x54, 0x94, 0x1c, 0x45, 0xd1, 0xb3, 0xa3,
                              0x23, 0xf1, 0x43, 0x3b, 0xd6]
    ensures SegwitDecode("bc", "bc1qw508d6qejxtdg4y5r3zarvary0c5xw7kv8f3t4") == Some(Program(0, Nats(LongProgram())))
    ensures SegwitEncode("bc", 0, LongProgram()) == Ok(Some("bc1qw508d6qejxtdg4y5r3zarvary0c5xw7kv8f3t4"))
  {
    hide Register, Chars, Expand, BechDecode, Regroup, BigEndian, SegwitDecode, SegwitEncode, LongSymbols, Nats;
    assert Pow2(0) == 1;
    LongGroups();
    LongRegister();
    LongText();
    Address(0, LongProgram(), LongSymbols(), 0, [12, 7, 9, 17, 11, 21]);
  }
}
