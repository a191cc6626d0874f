/** The values of PSBT records: how each is checked, decoded and written again. */
module PsbtCodecs {
  import opened Python
  import opened Sequences
  import opened Serialize
  import opened TxSpec
  import opened KeyPaths

  /** The ways record values are read. */
  datatype Codec =
    | CTx          // a transaction, with or without witness
    | CUnsigned    // a transaction without witness and without scriptSigs
    | CTxOut
    | CRaw         // any bytes; empty means absent
    | CLooseU32    // four bytes, a struct.error otherwise
    | CU32
    | CTime
    | CHeight
    | CU8
    | CI64
    | CStack       // a witness stack; empty means absent
    | CBytes(lo: nat, hi: nat)
    | COrigin
    | CTapPath
    | CPubkeys
    | CCount

  datatype Value =
    | VTx(tx: Tx)
    | VOut(out: TxOut)
    | VBytes(bytes: Bytes)
    | VNum(num: int)
    | VStack(stack: Stack)
    | VOrigin(origin: Origin)
    | VPath(hashes: set<Bytes>, path: Origin)
    | VKeys(keys: seq<Bytes>)

  /** The order in which the code happens to iterate over a set. */
  type Order = set<Bytes> -> seq<Bytes>

  ghost predicate IsOrder(list: Order) {
    forall s: set<Bytes> ::
      && |list(s)| == |s| && (forall k :: k in list(s) <==> k in s)
      && forall i, j :: 0 <= i < j < |list(s)| ==> list(s)[i] != list(s)[j]
  }

  // ------------------------------------------------------------ key origins in bytes

  function U32s(path: seq<int>): Bytes {
    if path == [] then [] else Le(path[0] % U32, 4) + U32s(path[1..])
  }

  /** KeyOriginInfo.serialize */
  function OriginBytes(o: Origin): Bytes {
    o.fingerprint + U32s(o.path)
  }

  function ReadU32s(s: Bytes): (r: Result<seq<int>>)
    ensures r.Err? ==> r.error == StructError
  {
    if s == [] then Ok([])
    else if |s| < 4 then Err(StructError)
    else
      var more :- ReadU32s(s[4..]);
      Ok([FromLe(s[..4])] + more)
  }

  /** KeyOriginInfo.deserialize: a fingerprint of up to four bytes, then whole words. */
  function ReadOrigin(s: Bytes): Result<Origin> {
    var n := if |s| < 4 then |s| else 4;
    var path :- ReadU32s(s[n..]);
    Ok(Origin(s[..n], path))
  }

  predicate OriginFits(o: Origin) {
    && |o.fingerprint| <= 4 && (|o.fingerprint| < 4 ==> o.path == [])
    && forall i :: 0 <= i < |o.path| ==> IsIndex(o.path[i])
  }

  lemma {:induction false} U32sRoundTrip(path: seq<int>)
    requires forall i :: 0 <= i < |path| ==> IsIndex(path[i])
    ensures ReadU32s(U32s(path)) == Ok(path)
  {
    if path != [] {
      U32sRoundTrip(path[1..]);
      var s := U32s(path);
      assert s[4..] == U32s(path[1..]) && s[..4] == Le(path[0], 4);
      Widths();
      LeRoundTrip(path[0], 4);
      assert path == [path[0]] + path[1..];
    }
  }

  lemma OriginRoundTrip(o: Origin)
    requires OriginFits(o)
    ensures ReadOrigin(OriginBytes(o)) == Ok(o)
  {
    U32sRoundTrip(o.path);
    var s := OriginBytes(o);
    if |o.fingerprint| < 4 {
      assert s == o.fingerprint;
      assert s[|s|..] == [];
    } else {
      assert s[..4] == o.fingerprint && s[4..] == U32s(o.path);
    }
  }

  lemma {:induction false} U32sFit(s: Bytes)
    requires ReadU32s(s).Ok?
    ensures forall i :: 0 <= i < |ReadU32s(s).value| ==> IsIndex(ReadU32s(s).value[i])
    ensures s == [] ==> ReadU32s(s).value == []
    decreases |s|
  {
    if s != [] {
      Widths();
      FromLeRoundTrip(s[..4]);
      U32sFit(s[4..]);
    }
  }

  lemma OriginReadFits(s: Bytes)
    requires ReadOrigin(s).Ok?
    ensures OriginFits(ReadOrigin(s).value)
  {
    U32sFit(s[(if |s| < 4 then |s| else 4)..]);
  }

  // ------------------------------------------------------------ leaf hashes

  /** `n` reads of 32 bytes, which give less at the end of the value. */
  function ReadHashes(n: nat, s: Bytes): (set<Bytes>, Bytes)
    decreases n
  {
    if n == 0 then ({}, s)
    else if |s| >= 32 then
      var (more, rest) := ReadHashes(n - 1, s[32..]);
      ({s[..32]} + more, rest)
    else
      var (more, rest) := ReadHashes(n - 1, []);
      ({s} + more, rest)
  }

  function ToSet(xs: seq<Bytes>): (r: set<Bytes>)
    ensures forall k :: k in r <==> k in xs
  {
    if xs == [] then {} else {xs[0]} + ToSet(xs[1..])
  }

  lemma {:induction false} HashesRoundTrip(xs: seq<Bytes>, rest: Bytes)
    requires forall i :: 0 <= i < |xs| ==> |xs[i]| == 32
    ensures ReadHashes(|xs|, Concat(xs) + rest) == (ToSet(xs), rest)
  {
    if xs == [] {
      assert Concat(xs) + rest == rest;
    } else {
      var s := Concat(xs) + rest;
      assert s == xs[0] + (Concat(xs[1..]) + rest);
      assert s[..32] == xs[0] && s[32..] == Concat(xs[1..]) + rest;
      HashesRoundTrip(xs[1..], rest);
    }
  }

  lemma {:induction false} HashesFew(n: nat, s: Bytes)
    ensures |ReadHashes(n, s).0| <= n
    decreases n
  {
    if n > 0 {
      if |s| >= 32 {
        HashesFew(n - 1, s[32..]);
      } else {
        HashesFew(n - 1, []);
      }
    }
  }

  // ------------------------------------------------------------ public key lists

  function Chunks(s: Bytes): (r: seq<Bytes>)
    requires |s| % 33 == 0
    ensures forall i :: 0 <= i < |r| ==> |r[i]| == 33
    ensures s != [] ==> r != []
  {
    if s == [] then [] else [s[..33]] + Chunks(s[33..])
  }

  lemma {:induction false} ChunksRoundTrip(xs: seq<Bytes>)
    requires forall i :: 0 <= i < |xs| ==> |xs[i]| == 33
    ensures |Concat(xs)| % 33 == 0 && Chunks(Concat(xs)) == xs && (xs != [] ==> Concat(xs) != [])
  {
    if xs != [] {
      ChunksRoundTrip(xs[1..]);
      var s := Concat(xs);
      assert s[..33] == xs[0] && s[33..] == Concat(xs[1..]);
      assert |s| == 33 + |Concat(xs[1..])|;
      assert xs == [xs[0]] + xs[1..];
    }
  }

  // ------------------------------------------------------------ decoding

  const LOCKTIME_THRESHOLD: nat := 500000000

  function Number(v: Bytes, k: nat, error: Error): (r: Result<nat>)
    ensures r.Ok? ==> |v| == k && r.value == FromLe(v)
  {
    if |v| == k then Ok(FromLe(v)) else Err(error)
  }

  predicate NoScripts(tx: Tx) {
    forall i :: 0 <= i < |tx.vin| ==> tx.vin[i].scriptSig == []
  }

  function Decode(c: Codec, v: Bytes): Result<Value> {
    match c
    case CTx =>
      var (tx, _) :- ReadTx(EMPTY, v);
      Ok(VTx(tx))
    case CUnsigned =>
      var r := ReadPlain(v);
      if r.Ok? && r.value.1 == [] && NoScripts(r.value.0) then Ok(VTx(r.value.0)) else Err(PSBTSerializationError)
    case CTxOut =>
      var (out, _) :- ReadOut(v);
      Ok(VOut(out))
    case CRaw => Ok(VBytes(v))
    case CLooseU32 =>
      var n :- Number(v, 4, StructError);
      Ok(VNum(n))
    case CU32 =>
      var n :- Number(v, 4, PSBTSerializationError);
      Ok(VNum(n))
    case CTime =>
      var n :- Number(v, 4, PSBTSerializationError);
      if n < LOCKTIME_THRESHOLD then Err(PSBTSerializationError) else Ok(VNum(n))
    case CHeight =>
      var n :- Number(v, 4, PSBTSerializationError);
      if n == 0 || n >= LOCKTIME_THRESHOLD then Err(PSBTSerializationError) else Ok(VNum(n))
    case CU8 =>
      var n :- Number(v, 1, PSBTSerializationError);
      Ok(VNum(n))
    case CI64 =>
      var n :- Number(v, 8, PSBTSerializationError);
      Ok(VNum(Signed(n, 8)))
    case CStack =>
      var (stack, _) :- ReadStack(v);
      Ok(VStack(stack))
    case CBytes(lo, hi) => if lo <= |v| <= hi then Ok(VBytes(v)) else Err(PSBTSerializationError)
    case COrigin =>
      var o :- ReadOrigin(v);
      Ok(VOrigin(o))
    case CTapPath =>
      var (n, s) :- ReadCompactSize(v);
      var (hashes, rest) := ReadHashes(n, s);
      var o :- ReadOrigin(rest);
      Ok(VPath(hashes, o))
    case CPubkeys =>
      if v == [] || |v| % 33 != 0 then Err(PSBTSerializationError) else Ok(VKeys(Chunks(v)))
    case CCount =>
      var (n, _) :- ReadCompactSize(v);
      Ok(VNum(n))
  }

  // ------------------------------------------------------------ encoding

  /** Values as decoding makes them. */
  predicate Fits(c: Codec, x: Value) {
    match c
    case CTx => x.VTx? && TxFits(x.tx) && (x.tx.wit == [] || |x.tx.wit| == |x.tx.vin|)
    case CUnsigned => x.VTx? && TxFits(x.tx) && x.tx.wit == [] && NoScripts(x.tx)
    case CTxOut => x.VOut? && OutFits(x.out)
    case CRaw => x.VBytes?
    case CLooseU32 => x.VNum? && 0 <= x.num < U32
    case CU32 => x.VNum? && 0 <= x.num < U32
    case CTime => x.VNum? && LOCKTIME_THRESHOLD <= x.num < U32
    case CHeight => x.VNum? && 0 < x.num < LOCKTIME_THRESHOLD
    case CU8 => x.VNum? && 0 <= x.num < 256
    case CI64 => x.VNum? && FitsSigned(x.num, 8)
    case CStack => x.VStack? && StackFits(x.stack)
    case CBytes(lo, hi) => x.VBytes? && lo <= |x.bytes| <= hi
    case COrigin => x.VOrigin? && OriginFits(x.origin)
    case CTapPath => x.VPath? && OriginFits(x.path) && |x.hashes| < U64
    case CPubkeys => x.VKeys? && x.keys != [] && forall i :: 0 <= i < |x.keys| ==> |x.keys[i]| == 33
    case CCount => x.VNum? && 0 <= x.num < U64
  }

  function Encode(c: Codec, x: Value, list: Order): Bytes
    requires Fits(c, x)
  {
    match c
    case CTx => SerWithWitness(x.tx)
    case CUnsigned => SerWithWitness(x.tx)
    case CTxOut => SerOut(x.out)
    case CRaw => x.bytes
    case CLooseU32 => Le(x.num, 4)
    case CU32 => Le(x.num, 4)
    case CTime => Le(x.num, 4)
    case CHeight => Le(x.num, 4)
    case CU8 => Le(x.num, 1)
    case CI64 => SignedLe(x.num, 8)
    case CStack => SerStack(x.stack)
    case CBytes(_, _) => x.bytes
    case COrigin => OriginBytes(x.origin)
    case CTapPath => CompactSize(|x.hashes|) + (Concat(list(x.hashes)) + OriginBytes(x.path))
    case CPubkeys => Concat(x.keys)
    case CCount => CompactSize(x.num)
  }

  /** Witness lists that say nothing are dropped. */
  function NormalTx(tx: Tx): Tx {
    if HasWitness(tx) then Normal(tx) else tx.(wit := [])
  }

  function NormalValue(x: Value): Value {
    if x.VTx? then VTx(NormalTx(x.tx)) else x
  }

  /**
   * Values that are written unambiguously: a transaction with an input or without outputs, and leaf hashes
   * of full length.
   */
  predicate Plain(x: Value) {
    match x
    case VTx(tx) => tx.vin != [] || tx.vout == []
    case VPath(hashes, _) => forall h :: h in hashes ==> |h| == 32
    case _ => true
  }

  // ------------------------------------------------------------ decoded values fit

  lemma LeFits(s: Bytes, k: nat)
    requires ReadLe(s, k).Ok?
    ensures ReadLe(s, k).value.0 < Pow256(k)
  {
    FromLeBound(s, k);
  }

  lemma SignedFits(n: nat, k: nat)
    requires n < Pow256(k)
    ensures FitsSigned(Signed(n, k), k)
  {}

  lemma InReadFits(s: Bytes)
    requires ReadIn(s).Ok?
    ensures InFits(ReadIn(s).value.0)
  {
    hide ReadLe, ReadString, Pow256;
    Widths();
    var (hash, s1) := ReadLe(s, U256_BYTES).value;
    var (n, s2) := ReadLe(s1, 4).value;
    var (script, s3) := ReadString(s2).value;
    LeFits(s, U256_BYTES);
    LeFits(s1, 4);
    StringConsumes(s2);
    LeFits(s3, 4);
  }

  lemma OutReadFits(s: Bytes)
    requires ReadOut(s).Ok?
    ensures OutFits(ReadOut(s).value.0)
  {
    hide ReadString, Pow256;
    LeFits(s, 8);
    SignedFits(ReadLe(s, 8).value.0, 8);
    StringConsumes(s[8..]);
  }

  lemma StackReadFits(s: Bytes)
    requires ReadStack(s).Ok?
    ensures StackFits(ReadStack(s).value.0)
  {
    hide ReadString;
    CountConsumes(s);
    var (n, rest) := ReadCompactSize(s).value;
    ItemsReadFit(n, rest);
    ReadAllCount(ReadString, n, rest);
  }

  lemma {:induction false} ItemsReadFit(n: nat, s: Bytes)
    requires ReadAll(ReadString, n, s).Ok?
    ensures forall i :: 0 <= i < |ReadAll(ReadString, n, s).value.0| ==> |ReadAll(ReadString, n, s).value.0[i]| < U64
    decreases n
  {
    hide ReadString;
    if n > 0 {
      StringConsumes(s);
      ItemsReadFit(n - 1, ReadString(s).value.1);
    }
  }

  lemma {:induction false} InsReadFit(n: nat, s: Bytes)
    requires ReadAll(ReadIn, n, s).Ok?
    ensures forall i :: 0 <= i < |ReadAll(ReadIn, n, s).value.0| ==> InFits(ReadAll(ReadIn, n, s).value.0[i])
    decreases n
  {
    hide ReadIn, InFits;
    if n > 0 {
      InReadFits(s);
      InsReadFit(n - 1, ReadIn(s).value.1);
    }
  }

  lemma {:induction false} OutsReadFit(n: nat, s: Bytes)
    requires ReadAll(ReadOut, n, s).Ok?
    ensures forall i :: 0 <= i < |ReadAll(ReadOut, n, s).value.0| ==> OutFits(ReadAll(ReadOut, n, s).value.0[i])
    decreases n
  {
    hide ReadOut, OutFits;
    if n > 0 {
      OutReadFits(s);
      OutsReadFit(n - 1, ReadOut(s).value.1);
    }
  }

  lemma {:induction false} StacksReadFit(n: nat, s: Bytes)
    requires ReadAll(ReadStack, n, s).Ok?
    ensures forall i :: 0 <= i < |ReadAll(ReadStack, n, s).value.0| ==> StackFits(ReadAll(ReadStack, n, s).value.0[i])
    decreases n
  {
    hide ReadStack, StackFits;
    if n > 0 {
      StackReadFits(s);
      StacksReadFit(n - 1, ReadStack(s).value.1);
    }
  }

  lemma VinReadFits(s: Bytes)
    requires ReadVector(ReadIn, s).Ok?
    ensures var xs := ReadVector(ReadIn, s).value.0;
            |xs| < U64 && forall i :: 0 <= i < |xs| ==> InFits(xs[i])
  {
    hide ReadIn, InFits;
    CountConsumes(s);
    var (n, rest) := ReadCompactSize(s).value;
    InsReadFit(n, rest);
    ReadAllCount(ReadIn, n, rest);
  }

  lemma VoutReadFits(s: Bytes)
    requires ReadVector(ReadOut, s).Ok?
    ensures var xs := ReadVector(ReadOut, s).value.0;
            |xs| < U64 && forall i :: 0 <= i < |xs| ==> OutFits(xs[i])
  {
    hide ReadOut, OutFits;
    CountConsumes(s);
    var (n, rest) := ReadCompactSize(s).value;
    OutsReadFit(n, rest);
    ReadAllCount(ReadOut, n, rest);
  }

  lemma VersionReadFits(s: Bytes)
    requires ReadSigned(s, 4).Ok?
    ensures FitsSigned(ReadSigned(s, 4).value.0, 4)
  {
    hide Pow256;
    LeFits(s, 4);
    SignedFits(ReadLe(s, 4).value.0, 4);
  }

  lemma PlainTailFits(v: int, vin: seq<TxIn>, wit: seq<Stack>, s: Bytes)
    requires ReadPlainTail(v, vin, wit, s).Ok? && FitsSigned(v, 4) && wit == []
    requires |vin| < U64 && forall i :: 0 <= i < |vin| ==> InFits(vin[i])
    ensures var tx := ReadPlainTail(v, vin, wit, s).value.0;
            TxFits(tx) && tx.wit == [] && tx.vin == vin && tx.nVersion == v
  {
    hide ReadVector, ReadLe, FitsSigned;
    Widths();
    VoutReadFits(s);
    LeFits(ReadVector(ReadOut, s).value.1, 4);
  }

  lemma WitnessTailFits(v: int, s: Bytes)
    requires ReadWitnessTail(v, s).Ok? && FitsSigned(v, 4)
    ensures var tx := ReadWitnessTail(v, s).value.0;
            TxFits(tx) && |tx.wit| == |tx.vin|
  {
    hide ReadVector, ReadLe, FitsSigned, ReadAll;
    Widths();
    VinReadFits(s);
    var (vin, s1) := ReadVector(ReadIn, s).value;
    VoutReadFits(s1);
    var (vout, s2) := ReadVector(ReadOut, s1).value;
    StacksReadFit(|vin|, s2);
    ReadAllCount(ReadStack, |vin|, s2);
    LeFits(ReadAll(ReadStack, |vin|, s2).value.1, 4);
  }

  lemma NoInputsFits(v: int, s: Bytes)
    requires ReadNoInputs(EMPTY, v, s).Ok? && FitsSigned(v, 4)
    ensures var tx := ReadNoInputs(EMPTY, v, s).value.0;
            TxFits(tx) && (tx.wit == [] || |tx.wit| == |tx.vin|)
  {
    hide ReadWitnessTail, FitsSigned;
    Widths();
    var (flags, s1) := ReadLe(s, 1).value;
    if flags != 0 {
      WitnessTailFits(v, s1);
    } else {
      LeFits(s1, 4);
    }
  }

  lemma TxReadFits(s: Bytes)
    requires ReadTx(EMPTY, s).Ok?
    ensures Fits(CTx, VTx(ReadTx(EMPTY, s).value.0))
  {
    hide ReadVector, ReadSigned, ReadPlainTail, ReadNoInputs, FitsSigned, TxFits;
    VersionReadFits(s);
    var (v, s1) := ReadSigned(s, 4).value;
    VinReadFits(s1);
    var (vin, s2) := ReadVector(ReadIn, s1).value;
    if vin != [] {
      PlainTailFits(v, vin, [], s2);
    } else {
      NoInputsFits(v, s2);
    }
  }

  lemma PlainReadFits(s: Bytes)
    requires ReadPlain(s).Ok?
    ensures TxFits(ReadPlain(s).value.0) && ReadPlain(s).value.0.wit == []
  {
    hide ReadVector, ReadSigned, ReadPlainTail, FitsSigned, TxFits;
    VersionReadFits(s);
    var (v, s1) := ReadSigned(s, 4).value;
    VinReadFits(s1);
    PlainTailFits(v, ReadVector(ReadIn, s1).value.0, [], ReadVector(ReadIn, s1).value.1);
  }

  lemma PathReadFits(v: Bytes)
    requires Decode(CTapPath, v).Ok?
    ensures Fits(CTapPath, Decode(CTapPath, v).value)
  {
    CountConsumes(v);
    var (n, s) := ReadCompactSize(v).value;
    HashesFew(n, s);
    OriginReadFits(ReadHashes(n, s).1);
  }

  lemma CountReadFits(v: Bytes)
    requires Decode(CCount, v).Ok?
    ensures Fits(CCount, Decode(CCount, v).value)
  {
    CountConsumes(v);
  }

  lemma NumberFits(v: Bytes)
    ensures FromLe(v) < Pow256(|v|)
  {
    FromLeRoundTrip(v);
  }

  /** Whatever decodes has a value that can be written. */
  lemma DecodeFits(c: Codec, v: Bytes)
    requires Decode(c, v).Ok?
    ensures Fits(c, Decode(c, v).value)
  {
    hide ReadTx, ReadPlain, ReadOut, ReadStack, ReadOrigin, ReadCompactSize, TxFits, OutFits, StackFits, OriginFits, FromLe,
         Pow256, FitsSigned, Signed;
    Widths();
    NumberFits(v);
    match c
    case CTx => TxReadFits(v);
    case CUnsigned => PlainReadFits(v);
    case CTxOut => OutReadFits(v);
    case CI64 => SignedFits(FromLe(v), 8);
    case CStack => StackReadFits(v);
    case COrigin => OriginReadFits(v);
    case CTapPath => PathReadFits(v);
    case CCount => CountReadFits(v);
    case _ =>
  }

  // ------------------------------------------------------------ decoding undoes encoding

  lemma NothingBehind(s: Bytes)
    ensures s + [] == s
  {}

  lemma TxRecodes(tx: Tx)
    requires Fits(CTx, VTx(tx))
    ensures Decode(CTx, SerWithWitness(tx)) == Ok(VTx(NormalTx(tx))) <==> tx.vin != [] || tx.vout == []
  {
    hide ReadTx, SerWithWitness, TxFits, Normal;
    NothingBehind(SerWithWitness(tx));
    TxRoundTripIff(tx, []);
    if tx.vin == [] && tx.vout != [] {
      PlainIsForm(tx);
      if Decode(CTx, SerWithWitness(tx)) == Ok(VTx(NormalTx(tx))) {
        OutputsMisread(tx, [], ReadTx(EMPTY, SerWithWitness(tx)).value.1);
      }
    }
  }

  lemma UnsignedRecodes(tx: Tx)
    requires Fits(CUnsigned, VTx(tx))
    ensures Decode(CUnsigned, SerWithWitness(tx)) == Ok(VTx(tx))
  {
    hide ReadPlain, SerWithWitness, TxFits, SerPlain;
    NothingBehind(SerWithWitness(tx));
    PlainIsForm(tx);
    PlainRoundTrip(tx, []);
    assert tx.(wit := []) == tx;
  }

  lemma PathRecodes(hashes: set<Bytes>, path: Origin, list: Order)
    requires Fits(CTapPath, VPath(hashes, path)) && Plain(VPath(hashes, path)) && IsOrder(list)
    ensures Decode(CTapPath, Encode(CTapPath, VPath(hashes, path), list)) == Ok(VPath(hashes, path))
  {
    hide ReadCompactSize, CompactSize, ReadOrigin, OriginBytes;
    var xs := list(hashes);
    CompactSizeRoundTrip(|hashes|, Concat(xs) + OriginBytes(path));
    forall i | 0 <= i < |xs| ensures |xs[i]| == 32 { assert xs[i] in hashes; }
    HashesRoundTrip(xs, OriginBytes(path));
    assert ToSet(xs) == hashes;
    OriginRoundTrip(path);
  }

  lemma NumberRecodes(n: nat, k: nat, error: Error)
    requires n < Pow256(k)
    ensures Number(Le(n, k), k, error) == Ok(n)
  {
    LeRoundTrip(n, k);
  }

  lemma SignedRecodes(n: int)
    requires FitsSigned(n, 8)
    ensures Decode(CI64, SignedLe(n, 8)) == Ok(VNum(n))
  {
    NothingBehind(SignedLe(n, 8));
    SignedRoundTrip(n, 8, []);
    assert SignedLe(n, 8)[..8] == SignedLe(n, 8);
  }

  lemma OutRecodes(out: TxOut)
    requires OutFits(out)
    ensures Decode(CTxOut, SerOut(out)) == Ok(VOut(out))
  {
    hide ReadOut, SerOut;
    NothingBehind(SerOut(out));
    OutRoundTrip(out, []);
  }

  lemma StackRecodes(stack: Stack)
    requires StackFits(stack)
    ensures Decode(CStack, SerStack(stack)) == Ok(VStack(stack))
  {
    hide ReadStack, SerStack;
    NothingBehind(SerStack(stack));
    StackRoundTrip(stack, []);
  }

  lemma CountRecodes(n: nat)
    requires n < U64
    ensures Decode(CCount, CompactSize(n)) == Ok(VNum(n))
  {
    hide ReadCompactSize, CompactSize;
    NothingBehind(CompactSize(n));
    CompactSizeRoundTrip(n, []);
  }

  /** A value written by a PSBT reads back, with a transaction's empty witness list dropped. */
  lemma Recode(c: Codec, x: Value, list: Order)
    requires Fits(c, x) && (c == CUnsigned || Plain(x)) && IsOrder(list)
    ensures Decode(c, Encode(c, x, list)) == Ok(NormalValue(x))
  {
    hide ReadTx, ReadPlain, ReadOut, ReadStack, ReadOrigin, ReadCompactSize, TxFits, OutFits, StackFits, OriginFits, FromLe,
         Pow256, FitsSigned, Signed, Le, CompactSize, SerWithWitness, SerOut, SerStack, Concat, Chunks, OriginBytes;
    Widths();
    match c
    case CTx => TxRecodes(x.tx);
    case CUnsigned =>
      UnsignedRecodes(x.tx);
      assert NormalTx(x.tx) == x.tx;
    case CTxOut => OutRecodes(x.out);
    case CRaw =>
    case CLooseU32 => NumberRecodes(x.num, 4, StructError);
    case CU32 => NumberRecodes(x.num, 4, PSBTSerializationError);
    case CTime => NumberRecodes(x.num, 4, PSBTSerializationError);
    case CHeight => NumberRecodes(x.num, 4, PSBTSerializationError);
    case CU8 => NumberRecodes(x.num, 1, PSBTSerializationError);
    case CI64 => SignedRecodes(x.num);
    case CStack => StackRecodes(x.stack);
    case CBytes(_, _) =>
    case COrigin => OriginRoundTrip(x.origin);
    case CTapPath => PathRecodes(x.hashes, x.path, list);
    case CPubkeys => ChunksRoundTrip(x.keys);
    case CCount => CountRecodes(x.num);
  }
}
