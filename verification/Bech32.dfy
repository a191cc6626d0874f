/** Bech32 and Bech32m (BIP 173, BIP 350) and segwit addresses. */
module Bech32 {
  import opened Python
  import opened Sequences
  import opened Strings
  import opened Bits
  import opened Checksums
  import opened BitGroups

  const BECH32_CONST: nat := 1
  const BECH32M_CONST: nat := 0x2bc830a3

  datatype Encoding = BECH32 | BECH32M

  const GENERATORS := Generators(0x3b6a57b2, 0x26508e6d, 0x1ea119fa, 0x3d4233dd, 0x2a1462b3)

  // ------------------------------------------------------------ checksum

  /** The register after the values; PolyMod below is the code's loop. */
  function Register(values: seq<nat>): nat {
    Fold(1, values, 25, GENERATORS)
  }

  function Tops(hrp: string): (r: seq<nat>)
    ensures |r| == |hrp|
  {
    if hrp == [] then [] else [Shr(hrp[0] as int, 5)] + Tops(hrp[1..])
  }

  function Lows(hrp: string): (r: seq<nat>)
    ensures |r| == |hrp|
  {
    if hrp == [] then [] else [BitAnd(hrp[0] as int, 31)] + Lows(hrp[1..])
  }

  function Expand(hrp: string): seq<nat> {
    Tops(hrp) + [0] + Lows(hrp)
  }

  function Const(enc: Encoding): nat {
    if enc == BECH32M then BECH32M_CONST else BECH32_CONST
  }

  function Verify(hrp: string, data: seq<Sym>): Option<Encoding> {
    var check := Register(Expand(hrp) + data);
    if check == BECH32_CONST then Some(BECH32)
    else if check == BECH32M_CONST then Some(BECH32M)
    else None
  }

  function Create(enc: Encoding, hrp: string, data: seq<Sym>): (r: seq<Sym>)
    ensures |r| == 6
  {
    Unpack(BitXor(Register(Expand(hrp) + data + ZeroSymbols(6)), Const(enc)), 6)
  }

  // ------------------------------------------------------------ strings

  /** The symbols a text stands for, if every character has one. */
  function Indices(s: string): (data: Option<seq<Sym>>)
    ensures data.Some? ==> |data.value| == |s|
  {
    if s == [] then Some([])
    else
      match (Find(SYMBOL_CHARSET, s[0]), Indices(s[1..]))
      case (Some(v), Some(vs)) => Some([v] + vs)
      case _ => None
  }

  predicate Printable(s: string) {
    forall i :: 0 <= i < |s| ==> 33 <= s[i] as int <= 126
  }

  datatype Decoded = Decoded(encoding: Encoding, hrp: string, data: seq<Sym>)

  function Text(enc: Encoding, hrp: string, data: seq<Sym>): string {
    hrp + "1" + Chars(data + Create(enc, hrp, data))
  }

  /** A value past the alphabet is an IndexError. */
  function BechEncode(enc: Encoding, hrp: string, data: seq<nat>): Result<string> {
    if forall i :: 0 <= i < |data| ==> data[i] < 32 then Ok(Text(enc, hrp, data)) else Err(IndexError)
  }

  /** After the separator: the symbols, the checksum. */
  function DecodeData(hrp: string, rest: string): Option<Decoded>
    requires |rest| >= 6
  {
    match Indices(rest)
    case None => None
    case Some(data) =>
      match Verify(hrp, data)
      case None => None
      case Some(enc) => Some(Decoded(enc, hrp, data[..|data| - 6]))
  }

  /** The last separator, and the length limits. */
  function DecodeLower(bech: string): Option<Decoded> {
    var pos := RFind(bech, '1');
    if pos == None || pos.value < 1 || pos.value + 7 > |bech| || |bech| > 90 then None
    else DecodeData(bech[..pos.value], bech[pos.value + 1..])
  }

  function BechDecode(bech: string): Option<Decoded> {
    if !Printable(bech) || (Lower(bech) != bech && Upper(bech) != bech) then None
    else DecodeLower(Lower(bech))
  }

  // ------------------------------------------------------------ the register

  lemma GeneratorsFit()
    ensures AllFit(GENERATORS, 30)
  {
    Powers();
    SmallFits(0x3b6a57b2, 30);
    SmallFits(0x26508e6d, 30);
    SmallFits(0x1ea119fa, 30);
    SmallFits(0x3d4233dd, 30);
    SmallFits(0x2a1462b3, 30);
  }

  /** Solves the five linear equations for the shifted-out bits. */
  function Unmix(o: Bits5): Bits5 {
    var t4 := o.b0 != o.b2;
    var t2 := o.b3 != o.b2;
    var t3 := o.b4 != o.b1;
    Bits5(o.b1 != (t2 != t4), o.b2 != t3, t2, t3, t4)
  }

  lemma Unmixed(g: Generators, t: Bits5, zero: Bits5)
    requires zero == Bits5(false, false, false, false, false)
    requires Low(g.g0) == Bits5(false, true, false, false, true)
    requires Low(g.g1) == Bits5(true, false, true, true, false)
    requires Low(g.g2) == Bits5(false, true, false, true, true)
    requires Low(g.g3) == Bits5(true, false, true, true, true)
    requires Low(g.g4) == Bits5(true, true, false, false, true)
    ensures Unmix(Mix5(zero, t, g)) == t
  {
    var s0 := if t.b0 then Xor5(zero, Low(g.g0)) else zero;
    assert s0 == Bits5(false, t.b0, false, false, t.b0);
    var s1 := if t.b1 then Xor5(s0, Low(g.g1)) else s0;
    assert s1 == Bits5(t.b1, t.b0, t.b1, t.b1, t.b0);
    var s2 := if t.b2 then Xor5(s1, Low(g.g2)) else s1;
    assert s2 == Bits5(t.b1, t.b0 != t.b2, t.b1, t.b1 != t.b2, t.b0 != t.b2);
    var s3 := if t.b3 then Xor5(s2, Low(g.g3)) else s2;
    assert s3 == Bits5(t.b1 != t.b3, t.b0 != t.b2, t.b1 != t.b3, (t.b1 != t.b2) != t.b3, (t.b0 != t.b2) != t.b3);
  }

  lemma GeneratorsInvert()
    ensures Invertible(GENERATORS)
  {
    assert Low(0x3b6a57b2) == Bits5(false, true, false, false, true);
    assert Low(0x26508e6d) == Bits5(true, false, true, true, false);
    assert Low(0x1ea119fa) == Bits5(false, true, false, true, true);
    assert Low(0x3d4233dd) == Bits5(true, false, true, true, true);
    assert Low(0x2a1462b3) == Bits5(true, true, false, false, true);
    forall s: Bits5, t: Bits5 | Mix5(Low(0), s, GENERATORS) == Mix5(Low(0), t, GENERATORS)
      ensures s == t
    {
      Unmixed(GENERATORS, s, Low(0));
      Unmixed(GENERATORS, t, Low(0));
    }
  }

  lemma {:induction false} TopsFit(hrp: string)
    ensures ValuesFit(Tops(hrp), 30)
  {
    if hrp != [] {
      Powers();
      Shr5(hrp[0] as int);
      SmallFits(Shr(hrp[0] as int, 5), 30);
      TopsFit(hrp[1..]);
    }
  }

  lemma {:induction false} LowsFit(hrp: string)
    ensures ValuesFit(Lows(hrp), 30)
  {
    if hrp != [] {
      Powers();
      AndMask(hrp[0] as int, 5);
      SmallFits(BitAnd(hrp[0] as int, 31), 30);
      LowsFit(hrp[1..]);
    }
  }

  lemma SymbolsFit(data: seq<Sym>)
    ensures ValuesFit(data, 30)
  {
    Powers();
    forall i | 0 <= i < |data| ensures Fits(data[i], 30) { SmallFits(data[i], 30); }
  }

  lemma ExpandFits(hrp: string)
    ensures ValuesFit(Expand(hrp), 30)
  {
    TopsFit(hrp);
    LowsFit(hrp);
    ShrOfZero(30);
  }

  lemma {:induction false} HalvesAre(hrp: string, i: nat)
    requires i < |hrp|
    ensures Tops(hrp)[i] == hrp[i] as int / 32 && Lows(hrp)[i] == hrp[i] as int % 32
  {
    if i == 0 {
      Shr5(hrp[0] as int);
      Powers();
      AndMask(hrp[0] as int, 5);
    } else {
      HalvesAre(hrp[1..], i - 1);
    }
  }

  /** The expanded prefix: the high parts of the characters, a zero, their low five bits. */
  lemma ExpandIs(hrp: string)
    ensures |Expand(hrp)| == 2 * |hrp| + 1
    ensures forall i :: 0 <= i < |hrp| ==> Expand(hrp)[i] == hrp[i] as int / 32
    ensures Expand(hrp)[|hrp|] == 0
    ensures forall i :: 0 <= i < |hrp| ==> Expand(hrp)[|hrp| + 1 + i] == hrp[i] as int % 32
  {
    hide Tops, Lows;
    forall i | 0 <= i < |hrp|
      ensures Expand(hrp)[i] == hrp[i] as int / 32 && Expand(hrp)[|hrp| + 1 + i] == hrp[i] as int % 32
    {
      HalvesAre(hrp, i);
    }
  }

  /** Two prefixes never expand to the same values. */
  lemma ExpandInjective(a: string, b: string)
    requires Expand(a) == Expand(b)
    ensures a == b
  {
    hide Expand;
    ExpandIs(a);
    ExpandIs(b);
    assert |a| == |b|;
    forall i | 0 <= i < |a| ensures a[i] == b[i] {
      var j := |a| + 1 + i;
      assert a[i] as int / 32 == Expand(a)[i] == b[i] as int / 32;
      assert a[i] as int % 32 == Expand(a)[j] == b[i] as int % 32;
      assert a[i] as int == b[i] as int;
    }
  }

  /** The register always has at most 30 bits. */
  lemma RegisterFits(hrp: string, data: seq<Sym>)
    ensures Fits(Register(Expand(hrp) + data), 30)
  {
    ExpandFits(hrp);
    SymbolsFit(data);
    GeneratorsFit();
    Powers();
    SmallFits(1, 30);
    FoldFits(1, Expand(hrp) + data, 25, GENERATORS);
  }

  lemma ConstFits(enc: Encoding)
    ensures Fits(Const(enc), 30)
  {
    Powers();
    SmallFits(Const(enc), 30);
  }

  lemma VerifyMeans(enc: Encoding, hrp: string, data: seq<Sym>)
    ensures Verify(hrp, data) == Some(enc) <==> Register(Expand(hrp) + data) == Const(enc)
  {}

  lemma Closing(c: nat, values: seq<nat>, cs: seq<Sym>, target: nat)
    requires |cs| == 6 && c == Register(values) && Fits(c, 30) && Fits(target, 30)
    ensures Register(values + cs) == target <==> cs == Unpack(BitXor(Register(values + ZeroSymbols(6)), target), 6)
  {
    GeneratorsFit();
    FoldConcat(1, values, cs, 25, GENERATORS);
    FoldConcat(1, values, ZeroSymbols(6), 25, GENERATORS);
    ClosingSymbols(c, cs, target, 6, 25, GENERATORS);
  }

  /**
   * Six symbols after the data verify under an encoding exactly if they are the checksum created for it:
   * the checksum exists, verifies and is unique.
   */
  lemma ChecksumUnique(enc: Encoding, hrp: string, data: seq<Sym>, cs: seq<Sym>)
    requires |cs| == 6
    ensures Verify(hrp, data + cs) == Some(enc) <==> cs == Create(enc, hrp, data)
  {
    RegisterFits(hrp, data);
    ConstFits(enc);
    Associative(Expand(hrp), data, cs);
    VerifyMeans(enc, hrp, data + cs);
    Closing(Register(Expand(hrp) + data), Expand(hrp) + data, cs, Const(enc));
  }

  /**
   * Two symbol lists that differ, but only within six adjacent symbols of data or checksum, never verify
   * under the same encoding. In particular no single changed symbol goes unnoticed.
   */
  lemma BurstDetected(enc: Encoding, hrp: string, a: seq<Sym>, b: seq<Sym>, i: nat)
    requires |a| == |b| && a != b && forall k :: 0 <= k < |a| && !(i <= k < i + 6) ==> a[k] == b[k]
    requires Verify(hrp, a) == Some(enc)
    ensures Verify(hrp, b) != Some(enc)
  {
    if i < |a| {
      var pre, x, y, post := Window(a, b, i);
      var c := Register(Expand(hrp) + pre);
      Parts(hrp, pre, x, post);
      Parts(hrp, pre, y, post);
      RegisterFits(hrp, pre);
      GeneratorsFit();
      GeneratorsInvert();
      FoldNear(c, c, x, y, 0, 25, GENERATORS);
      SymbolsFit(x);
      SymbolsFit(y);
      SymbolsFit(post);
      FoldFits(c, x, 25, GENERATORS);
      FoldFits(c, y, 25, GENERATORS);
      if Verify(hrp, b) == Some(enc) {
        FoldInjective(Fold(c, x, 25, GENERATORS), Fold(c, y, 25, GENERATORS), post, 25, GENERATORS);
      }
    }
  }

  lemma Parts(hrp: string, pre: seq<Sym>, x: seq<Sym>, post: seq<Sym>)
    ensures Register(Expand(hrp) + (pre + (x + post)))
         == Fold(Fold(Register(Expand(hrp) + pre), x, 25, GENERATORS), post, 25, GENERATORS)
  {
    Associative(Expand(hrp), pre, x + post);
    FoldConcat(1, Expand(hrp) + pre, x + post, 25, GENERATORS);
    FoldConcat(Register(Expand(hrp) + pre), x, post, 25, GENERATORS);
  }

  lemma Window<T>(a: seq<T>, b: seq<T>, i: nat) returns (pre: seq<T>, x: seq<T>, y: seq<T>, post: seq<T>)
    requires |a| == |b| && i < |a|
    requires forall k :: 0 <= k < |a| && !(i <= k < i + 6) ==> a[k] == b[k]
    ensures a == pre + (x + post) && b == pre + (y + post) && |x| == |y| <= 6
  {
    var hi := Min(i + 6, |a|);
    pre, x, y, post := a[..i], a[i..hi], b[i..hi], a[hi..];
    assert pre == b[..i] && post == b[hi..];
  }

  // ------------------------------------------------------------ the polymod loop

  /** The taps from `i` on. */
  function MixFrom(x: nat, t: Bits5, i: nat): nat {
    var x := if i <= 0 && t.b0 then BitXor(x, 0x3b6a57b2) else x;
    var x := if i <= 1 && t.b1 then BitXor(x, 0x26508e6d) else x;
    var x := if i <= 2 && t.b2 then BitXor(x, 0x1ea119fa) else x;
    var x := if i <= 3 && t.b3 then BitXor(x, 0x3d4233dd) else x;
    if i <= 4 && t.b4 then BitXor(x, 0x2a1462b3) else x
  }

  method PolyMod(values: seq<nat>) returns (chk: nat)
    ensures chk == Register(values)
  {
    var generator: seq<nat> := [0x3b6a57b2, 0x26508e6d, 0x1ea119fa, 0x3d4233dd, 0x2a1462b3];
    chk := 1;
    for j := 0 to |values|
      invariant Fold(chk, values[j..], 25, GENERATORS) == Register(values)
    {
      ghost var before, rest := chk, values[j..];
      var value := values[j];
      var top := Shr(chk, 25);
      chk := BitXor(Shl(BitAnd(chk, 0x1ffffff), 5), value);
      MaskIsCut(before);
      for i := 0 to 5
        invariant MixFrom(chk, Low(top), i) == Round(before, value, 25, GENERATORS)
      {
        TapBit(top, i);
        chk := BitXor(chk, if BitAnd(Shr(top, i), 1) != 0 then generator[i] else 0);
      }
      assert rest[0] == value && rest[1..] == values[j + 1..];
    }
  }

  lemma MaskIsCut(c: nat)
    ensures Shl(BitAnd(c, 0x1ffffff), 5) == 32 * Cut(c, 25)
  {
    Powers();
    AndMask(c, 25);
    CutIsMod(c, 25);
  }

  lemma TapBit(x: nat, i: nat)
    requires i < 5
    ensures BitAnd(Shr(x, i), 1) != 0 <==> (if i == 0 then Low(x).b0 else if i == 1 then Low(x).b1
                                            else if i == 2 then Low(x).b2 else if i == 3 then Low(x).b3 else Low(x).b4)
  {
    var x1 := x / 2;
    var x2 := x1 / 2;
    var x3 := x2 / 2;
    assert Shr(x, i) == (if i == 0 then x else if i == 1 then x1 else if i == 2 then x2 else if i == 3 then x3 else x3 / 2)
      by { ShrSmall(x, i); }
    AndOne(Shr(x, i));
  }

  lemma AndOne(x: nat)
    ensures BitAnd(x, 1) == x % 2
  {}

  lemma ShrSmall(x: nat, i: nat)
    requires i < 5
    ensures Shr(x, i) == (if i == 0 then x else if i == 1 then x / 2 else if i == 2 then x / 2 / 2
                          else if i == 3 then x / 2 / 2 / 2 else x / 2 / 2 / 2 / 2)
  {
    if i >= 1 {
      assert Shr(x, i) == Shr(x / 2, i - 1);
      if i >= 2 {
        assert Shr(x / 2, i - 1) == Shr(x / 2 / 2, i - 2);
        if i >= 3 {
          assert Shr(x / 2 / 2, i - 2) == Shr(x / 2 / 2 / 2, i - 3);
        }
      }
    }
  }

  // ------------------------------------------------------------ text

  /** What bech32_decode can return as human-readable part. */
  predicate LowercasePrintable(s: string) {
    forall i :: 0 <= i < |s| ==> 33 <= s[i] as int <= 126 && !('A' <= s[i] <= 'Z')
  }

  lemma CharsetLower(v: Sym)
    ensures 33 <= SYMBOL_CHARSET[v] as int <= 126 && !('A' <= SYMBOL_CHARSET[v] <= 'Z') && SYMBOL_CHARSET[v] != '1'
  {}

  lemma CharsLower(data: seq<Sym>)
    ensures LowercasePrintable(Chars(data)) && '1' !in Chars(data)
  {
    forall i | 0 <= i < |data|
      ensures 33 <= Chars(data)[i] as int <= 126 && !('A' <= Chars(data)[i] <= 'Z') && Chars(data)[i] != '1'
    {
      CharsetLower(data[i]);
    }
  }

  lemma {:induction false} IndicesOfChars(data: seq<Sym>)
    ensures Indices(Chars(data)) == Some(data)
  {
    if data != [] {
      IndicesOfChars(data[1..]);
      var s := Chars(data);
      assert s[1..] == Chars(data[1..]);
      assert s[0] in SYMBOL_CHARSET;
      CharsetInjective(Find(SYMBOL_CHARSET, s[0]).value, data[0]);
      assert data == [data[0]] + data[1..];
    }
  }

  lemma {:induction false} CharsOfIndices(s: string)
    requires Indices(s).Some?
    ensures Chars(Indices(s).value) == s
  {
    if s != [] {
      CharsOfIndices(s[1..]);
      var data := Indices(s).value;
      assert data[1..] == Indices(s[1..]).value;
      assert s == [s[0]] + s[1..];
    }
  }

  lemma LowerIsSame(s: string)
    requires LowercasePrintable(s)
    ensures Lower(s) == s
  {}

  lemma LowerIsLower(s: string)
    requires Printable(s)
    ensures LowercasePrintable(Lower(s)) && Lower(Lower(s)) == Lower(s)
  {}

  lemma DecodeChars(enc: Encoding, hrp: string, data: seq<Sym>)
    ensures DecodeData(hrp, Chars(data + Create(enc, hrp, data))) == Some(Decoded(enc, hrp, data))
  {
    var cs := Create(enc, hrp, data);
    CharsLower(data + cs);
    IndicesOfChars(data + cs);
    ChecksumUnique(enc, hrp, data, cs);
    assert (data + cs)[..|data|] == data;
  }

  lemma TextLower(hrp: string, rest: string)
    requires LowercasePrintable(hrp) && LowercasePrintable(rest)
    ensures LowercasePrintable(hrp + "1" + rest)
  {}

  lemma TextParts(hrp: string, rest: string)
    ensures (hrp + "1" + rest)[..|hrp|] == hrp && (hrp + "1" + rest)[|hrp| + 1..] == rest
  {}

  lemma DecodeLowerAt(s: string, pos: nat)
    requires RFind(s, '1') == Some(pos) && 1 <= pos && pos + 7 <= |s| <= 90
    ensures DecodeLower(s) == DecodeData(s[..pos], s[pos + 1..])
  {}

  lemma DecodeOneCase(s: string)
    requires LowercasePrintable(s)
    ensures BechDecode(s) == DecodeLower(s)
  {
    LowerIsSame(s);
  }

  lemma DecodeJoined(hrp: string, rest: string)
    requires |hrp| >= 1 && |rest| >= 6 && |hrp| + 1 + |rest| <= 90
    requires LowercasePrintable(hrp) && LowercasePrintable(rest) && '1' !in rest
    ensures BechDecode(hrp + "1" + rest) == DecodeData(hrp, rest)
  {
    var s := hrp + "1" + rest;
    TextLower(hrp, rest);
    DecodeOneCase(s);
    RFindAt(hrp, '1', rest);
    TextParts(hrp, rest);
    DecodeLowerAt(s, |hrp|);
  }

  /** The text of well-sized data decodes to exactly what was encoded. */
  lemma DecodeText(enc: Encoding, hrp: string, data: seq<Sym>)
    requires |hrp| >= 1 && LowercasePrintable(hrp) && |hrp| + |data| + 7 <= 90
    ensures BechDecode(Text(enc, hrp, data)) == Some(Decoded(enc, hrp, data))
  {
    CharsLower(data + Create(enc, hrp, data));
    DecodeChars(enc, hrp, data);
    DecodeJoined(hrp, Chars(data + Create(enc, hrp, data)));
  }

  lemma DataDecoded(hrp: string, rest: string)
    requires |rest| >= 6 && DecodeData(hrp, rest).Some?
    ensures var d := DecodeData(hrp, rest).value;
            d.hrp == hrp && |d.data| == |rest| - 6 && Chars(d.data + Create(d.encoding, hrp, d.data)) == rest
  {
    var all := Indices(rest).value;
    var data, cs := all[..|all| - 6], all[|all| - 6..];
    assert all == data + cs;
    ChecksumUnique(Verify(hrp, all).value, hrp, data, cs);
    CharsOfIndices(rest);
  }

  lemma PrefixLower(s: string, pos: nat)
    requires LowercasePrintable(s) && pos < |s| && s[pos] == '1'
    ensures LowercasePrintable(s[..pos]) && s == s[..pos] + "1" + s[pos + 1..]
  {}

  lemma LowerDecoded(s: string)
    requires LowercasePrintable(s) && DecodeLower(s).Some?
    ensures var d := DecodeLower(s).value;
            Text(d.encoding, d.hrp, d.data) == s && |d.hrp| >= 1 && LowercasePrintable(d.hrp)
    ensures |s| == |DecodeLower(s).value.hrp| + |DecodeLower(s).value.data| + 7 <= 90
  {
    var pos := RFind(s, '1').value;
    DataDecoded(s[..pos], s[pos + 1..]);
    PrefixLower(s, pos);
  }

  /** Only the text of its result, in one case, is accepted by bech32_decode. */
  lemma TextOfDecoded(bech: string)
    requires BechDecode(bech).Some?
    ensures var d := BechDecode(bech).value;
            Text(d.encoding, d.hrp, d.data) == Lower(bech) && |d.hrp| >= 1 && LowercasePrintable(d.hrp)
    ensures Printable(bech) && (Lower(bech) == bech || Upper(bech) == bech)
    ensures |bech| == |BechDecode(bech).value.hrp| + |BechDecode(bech).value.data| + 7 <= 90
  {
    LowerIsLower(bech);
    LowerDecoded(Lower(bech));
  }

  /** An address in capitals is the address. */
  lemma CapitalsDecode(s: string)
    requires LowercasePrintable(s)
    ensures BechDecode(Upper(s)) == BechDecode(s)
  {
    hide Upper, Lower, DecodeLower;
    LowerIsSame(s);
    assert Lower(Upper(s)) == s;
    assert Upper(Upper(s)) == Upper(s);
    assert Printable(Upper(s));
  }

  // ------------------------------------------------------------ segwit addresses

  datatype Program = Program(version: nat, program: seq<nat>)

  /** The checks on what bech32_decode returned. */
  function SegwitOf(got: Option<Decoded>, hrp: string): Option<Program> {
    if got == None || got.value.hrp != hrp then None
    else
      var data := got.value.data;
      match Regroup(if data == [] then [] else data[1..], 5, 8, false)
      case None => None
      case Some(decoded) =>
        if |decoded| < 2 || |decoded| > 40 then None
        else if data == [] then None
        else if data[0] > 16 then None
        else if data[0] == 0 && |decoded| != 20 && |decoded| != 32 then None
        else if (data[0] == 0 && got.value.encoding != BECH32) || (data[0] != 0 && got.value.encoding != BECH32M) then None
        else Some(Program(data[0], decoded))
  }

  function SegwitDecode(hrp: string, addr: string): Option<Program> {
    SegwitOf(BechDecode(addr), hrp)
  }

  function EncodeSymbols(hrp: string, witver: nat, conv: seq<nat>): Result<Option<string>> {
    var ret :- BechEncode(EncodingFor(witver), hrp, [witver] + conv);
    Ok(if SegwitDecode(hrp, ret) == None then None else Some(ret))
  }

  function SegwitEncode(hrp: string, witver: nat, witprog: seq<byte>): Result<Option<string>> {
    match Regroup(Nats(witprog), 8, 5, true)
    case None => Ok(None)
    case Some(conv) => EncodeSymbols(hrp, witver, conv)
  }

  function EncodingFor(witver: nat): Encoding {
    if witver == 0 then BECH32 else BECH32M
  }

  lemma NatsInRange(b: seq<byte>)
    ensures InRange(Nats(b), 8)
  {
    assert Pow2(8) == 256;
  }

  lemma SymbolRange(data: seq<nat>)
    ensures InRange(data, 5) <==> forall i :: 0 <= i < |data| ==> data[i] < 32
  {
    Powers();
  }

  lemma RoundedUp(n: nat, p: nat, m: nat)
    requires 8 * n + p == 5 * m && p < 5
    ensures m == (8 * n + 4) / 5
  {}

  lemma PaddedLength(bits: seq<bool>, to: nat)
    requires to >= 1
    ensures |bits| + Padding(|bits|, to) == |Whole(bits + Falses(Padding(|bits|, to)), to)| * to
    ensures Padding(|bits|, to) < to
  {
    var all := bits + Falses(Padding(|bits|, to));
    PaddingFits(|bits|, to);
    WholeBitsExact(all, to);
    BitsLength(Whole(all, to), to);
  }

  lemma RegroupLength(data: seq<int>, a: nat, b: nat) returns (p: nat)
    requires InRange(data, a) && b >= 1
    ensures p < b && Regroup(data, a, b, true).Some? && |data| * a + p == |Regroup(data, a, b, true).value| * b
  {
    BitsLength(data, a);
    PaddedLength(BitsOf(data, a), b);
    p := Padding(|BitsOf(data, a)|, b);
  }

  /** A program of `n` bytes takes one symbol for every five bits, rounded up. */
  lemma ConvLength(b: seq<byte>) returns (conv: seq<nat>)
    ensures Regroup(Nats(b), 8, 5, true) == Some(conv) && InRange(conv, 5)
    ensures |conv| == (8 * |b| + 4) / 5
    ensures Regroup(conv, 5, 8, false) == Some(Nats(b))
  {
    NatsInRange(b);
    conv := RegroupBoth(Nats(b), 8, 5);
    var p := RegroupLength(Nats(b), 8, 5);
    RoundedUp(|b|, p, |conv|);
  }

  lemma RegroupBoth(data: seq<int>, a: nat, b: nat) returns (conv: seq<nat>)
    requires 1 <= b <= a && InRange(data, a)
    ensures Regroup(data, a, b, true) == Some(conv) && InRange(conv, b) && Regroup(conv, b, a, false) == Some(data)
  {
    RegroupBack(data, a, b);
    conv := Regroup(data, a, b, true).value;
  }

  predicate StandardProgram(witver: nat, n: nat) {
    witver <= 16 && 2 <= n <= 40 && (witver == 0 ==> n == 20 || n == 32)
  }

  predicate Fitting(hrp: string, witver: nat, symbols: nat, n: nat) {
    |hrp| >= 1 && LowercasePrintable(hrp) && |hrp| + symbols + 8 <= 90 && StandardProgram(witver, n)
  }

  /** The versions, lengths and prefixes the standards allow, with room for them in 90 characters. */
  predicate Encodable(hrp: string, witver: nat, n: nat) {
    Fitting(hrp, witver, (8 * n + 4) / 5, n)
  }

  lemma SegwitOfGot(hrp: string, ver: Sym, conv: seq<Sym>, program: seq<nat>)
    requires Regroup(conv, 5, 8, false) == Some(program)
    ensures SegwitOf(Some(Decoded(EncodingFor(ver), hrp, [ver] + conv)), hrp)
         == if StandardProgram(ver, |program|) then Some(Program(ver, program)) else None
  {
    assert ([ver] + conv)[1..] == conv;
  }

  lemma HeadTail<T>(s: seq<T>)
    requires s != []
    ensures s == [s[0]] + s[1..]
  {}

  lemma SegwitOfParts(got: Option<Decoded>, hrp: string) returns (ver: Sym, conv: seq<Sym>, program: seq<nat>)
    requires SegwitOf(got, hrp).Some?
    ensures got == Some(Decoded(EncodingFor(ver), hrp, [ver] + conv))
    ensures Regroup(conv, 5, 8, false) == Some(program)
    ensures SegwitOf(got, hrp) == Some(Program(ver, program))
  {
    ver, conv := got.value.data[0], got.value.data[1..];
    program := SegwitOf(got, hrp).value.program;
    HeadTail(got.value.data);
  }

  lemma DecodedShape(hrp: string, addr: string)
    requires BechDecode(addr).Some? && BechDecode(addr).value.hrp == hrp
    ensures |hrp| >= 1 && LowercasePrintable(hrp) && |addr| <= 90
  {
    TextOfDecoded(addr);
  }

  lemma TextRejected(enc: Encoding, hrp: string, data: seq<Sym>)
    requires !(|hrp| >= 1 && LowercasePrintable(hrp) && |hrp| + |data| + 7 <= 90)
    ensures BechDecode(Text(enc, hrp, data)) == None || BechDecode(Text(enc, hrp, data)).value.hrp != hrp
  {
    var text := Text(enc, hrp, data);
    if BechDecode(text).Some? && BechDecode(text).value.hrp == hrp {
      DecodedShape(hrp, text);
    }
  }

  /** The text for a version and program decodes to them exactly if the standards allow it. */
  lemma SegwitText(hrp: string, ver: Sym, conv: seq<Sym>, program: seq<nat>)
    requires Regroup(conv, 5, 8, false) == Some(program)
    ensures SegwitOf(BechDecode(Text(EncodingFor(ver), hrp, [ver] + conv)), hrp)
         == if Fitting(hrp, ver, |conv|, |program|) then Some(Program(ver, program)) else None
  {
    var data := [ver] + conv;
    SegwitOfGot(hrp, ver, conv, program);
    if |hrp| >= 1 && LowercasePrintable(hrp) && |hrp| + |data| + 7 <= 90 {
      DecodeText(EncodingFor(ver), hrp, data);
    } else {
      TextRejected(EncodingFor(ver), hrp, data);
    }
  }

  lemma EncodeText(hrp: string, ver: Sym, conv: seq<Sym>, program: seq<nat>)
    requires Regroup(conv, 5, 8, false) == Some(program)
    ensures EncodeSymbols(hrp, ver, conv)
         == Ok(if Fitting(hrp, ver, |conv|, |program|) then Some(Text(EncodingFor(ver), hrp, [ver] + conv)) else None)
  {
    SegwitText(hrp, ver, conv, program);
  }

  lemma EncodeTooLarge(hrp: string, witver: nat, conv: seq<nat>)
    requires witver >= 32
    ensures EncodeSymbols(hrp, witver, conv) == Err(IndexError)
  {
    assert ([witver] + conv)[0] >= 32;
  }

  /**
   * encode gives an address exactly for the versions, lengths and prefixes the standards allow, and the
   * address decodes to exactly the version and program; larger versions up to 31 give None, beyond that
   * indexing the alphabet fails.
   */
  lemma SegwitRoundTrip(hrp: string, witver: nat, prog: seq<byte>)
    ensures match SegwitEncode(hrp, witver, prog)
            case Err(e) => e == IndexError && witver >= 32
            case Ok(None) => witver < 32 && !Encodable(hrp, witver, |prog|)
            case Ok(Some(addr)) =>
              Encodable(hrp, witver, |prog|) && SegwitDecode(hrp, addr) == Some(Program(witver, Nats(prog)))
  {
    var conv := ConvLength(prog);
    SymbolRange(conv);
    if witver < 32 {
      EncodeText(hrp, witver, conv, Nats(prog));
      SegwitText(hrp, witver, conv, Nats(prog));
    } else {
      EncodeTooLarge(hrp, witver, conv);
    }
  }

  /** The bytes of a program. */
  lemma BytesOf(data: seq<nat>) returns (b: seq<byte>)
    requires InRange(data, 8)
    ensures Nats(b) == data
  {
    assert Pow2(8) == 256;
    b := ToBytes(data);
  }

  lemma BytesBack(conv: seq<Sym>, program: seq<nat>) returns (prog: seq<byte>)
    requires Regroup(conv, 5, 8, false) == Some(program)
    ensures Nats(prog) == program && Regroup(Nats(prog), 8, 5, true) == Some(conv)
  {
    RegroupForth(conv, 8, 5);
    prog := BytesOf(program);
  }

  /**
   * decode accepts only addresses that encode produces, in one case: decoding and encoding again gives
   * the address in lower case, so no two addresses differing in more than case name one program.
   */
  lemma SegwitCanonical(hrp: string, addr: string) returns (prog: seq<byte>)
    requires SegwitDecode(hrp, addr).Some?
    ensures Nats(prog) == SegwitDecode(hrp, addr).value.program
    ensures SegwitEncode(hrp, SegwitDecode(hrp, addr).value.version, prog) == Ok(Some(Lower(addr)))
    ensures Lower(addr) == addr || Upper(addr) == addr
  {
    var ver, conv, program := SegwitOfParts(BechDecode(addr), hrp);
    TextOfDecoded(addr);
    prog := BytesBack(conv, program);
    SegwitText(hrp, ver, conv, program);
    SegwitOfGot(hrp, ver, conv, program);
    EncodeText(hrp, ver, conv, program);
  }
}
