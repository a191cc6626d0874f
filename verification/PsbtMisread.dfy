/**
 * The three ways in which a PSBT that was read does not survive being written: for each, byte strings that are read
 * to such a PSBT.
 */
module PsbtMisread {
  import opened Python
  import opened Sequences
  import opened Serialize
  import opened TxSpec
  import opened KeyPaths
  import opened KeyValue
  import opened PsbtCodecs
  import opened PsbtMaps
  import opened PsbtMapsRoundTrip
  import opened PsbtMapTheorems
  import opened Psbts
  import opened PsbtRoundTrip

  // ------------------------------------------------------------ one block under two scripts

  /** The type of a leaf script written the long way: the rest of the key is the same block. */
  lemma LongType(b: Bytes)
    requires |b| >= 33 && b[0] == 0x15 && b[1] == 0
    ensures TypeOf([0xfd] + b) == Ok(TAP_LEAF) && ([0xfd] + b)[1..] == b
  {
    ReadTag(0xfd, b);
    var two := b[..2];
    assert two[1..][1..] == [] && two[0] == 0x15 && two[1..][0] == 0;
    assert FromLe(two[1..][1..]) == 0;
    assert FromLe(two[1..]) == 0;
    assert FromLe(two) == 0x15;
  }

  lemma LongKeyApplies(version: nat, f: Fields, seen: set<Bytes>, b: Bytes, script: Bytes, leafVersion: byte)
    requires BlockValid(b) && b[0] == 0x15 && b[1] == 0 && [0xfd] + b !in seen
    ensures Apply(INPUT, version, f, seen, ([0xfd] + b, script + [leafVersion]))
         == Ok(f.(taps := AddBlock(f.taps, script, leafVersion, b)))
  {
    hide TypeOf, AddBlock;
    LongType(b);
    var v := script + [leafVersion];
    assert v[..|v| - 1] == script && v[|v| - 1] == leafVersion;
  }

  function TwoScripts(b: Bytes, first: TapScript, second: TapScript): seq<Record> {
    [([0x15] + b, first.script + [first.leafVersion]), ([0xfd] + b, second.script + [second.leafVersion])]
  }

  /** Two records with the same control block but different scripts are both accepted. */
  lemma SameBlockTwice(version: nat, b: Bytes, first: TapScript, second: TapScript)
    requires BlockValid(b) && b[0] == 0x15 && b[1] == 0 && first.blocks == second.blocks == {b}
    requires first.script != second.script || first.leafVersion != second.leafVersion
    ensures KeysThere(TwoScripts(b, first, second))
    ensures var r := Fold(INPUT, version, NO_FIELDS, {}, TwoScripts(b, first, second));
            r.Ok? && r.value.0 == NO_FIELDS.(taps := [first, second]) && !BlocksApart(r.value.0.taps)
  {
    hide TypeOf, KindOf;
    TapLeafIs(INPUT, TAP_LEAF);
    var rs := TwoScripts(b, first, second);
    var f1 := NO_FIELDS.(taps := [first]);
    var f2 := NO_FIELDS.(taps := [first, second]);
    assert SoFar([], first.script, first.leafVersion, {b}) == [first];
    assert {} + {b} == {b};
    BlockApplies(version, NO_FIELDS, {}, TAP_LEAF, [], first.script, first.leafVersion, {}, b);
    assert rs[0].0[0] != rs[1].0[0];
    assert [first] + [second] == [first, second];
    assert NoSuchTap([first], second.script, second.leafVersion);
    AddFirst([first], second.script, second.leafVersion, b);
    LongKeyApplies(version, f1, {} + {rs[0].0}, b, second.script, second.leafVersion);
    FoldOne(INPUT, version, NO_FIELDS, {}, rs[0], f1);
    FoldOne(INPUT, version, f1, {} + {rs[0].0}, rs[1], f2);
    FoldConcat(INPUT, version, NO_FIELDS, {}, [rs[0]], [rs[1]]);
    assert rs == [rs[0]] + [rs[1]];
    assert f2.taps[0].blocks * f2.taps[1].blocks == {b};
  }

  // ------------------------------------------------------------ a previous transaction without inputs

  /** The witness form of a transaction without inputs. */
  function NoInputsForm(tx: Tx): Bytes
    requires TxFits(tx)
  {
    SignedLe(tx.nVersion, 4) + ([0, 1] + (SerVector(SerIn, tx.vin) + (SerVector(SerOut, tx.vout)
      + (SerAll(SerStack, tx.wit) + Le(tx.nLockTime, 4)))))
  }

  /** It is read, whatever outputs it has, although it cannot be written again. */
  lemma NoInputsRead(tx: Tx)
    requires TxFits(tx) && tx.vin == [] && tx.wit == []
    ensures Decode(CTx, NoInputsForm(tx)) == Ok(VTx(tx))
  {
    hide ReadVector, SerVector, ReadSigned, SignedLe, Le, ReadWitnessTail, SerAll, ReadLe, OutFits, FitsSigned;
    var tail := SerVector(SerIn, tx.vin) + (SerVector(SerOut, tx.vout) + (SerAll(SerStack, tx.wit) + (Le(tx.nLockTime, 4) + [])));
    assert Le(tx.nLockTime, 4) + [] == Le(tx.nLockTime, 4);
    assert NoInputsForm(tx) == SignedLe(tx.nVersion, 4) + ([0] + ([1] + tail)) by {
      WitnessShape(SignedLe(tx.nVersion, 4), SerVector(SerIn, tx.vin), SerVector(SerOut, tx.vout), SerAll(SerStack, tx.wit),
                   Le(tx.nLockTime, 4), []);
      NothingBehind(NoInputsForm(tx));
    }
    VersionRead(tx, [0] + ([1] + tail));
    EmptyVin([1] + tail);
    ReadTag(1, tail);
    WitnessTailRoundTrip(tx, []);
  }

  /** So previous transactions without inputs but with outputs are read, and what is written for them is not. */
  lemma NoInputsLost(tx: Tx)
    requires TxFits(tx) && tx.vin == [] && tx.wit == [] && tx.vout != []
    ensures Decode(CTx, NoInputsForm(tx)) == Ok(VTx(tx))
    ensures Decode(CTx, SerWithWitness(tx)) != Ok(VTx(tx))
  {
    hide TxFits, SerWithWitness, ReadTx;
    NoInputsRead(tx);
    TxRecodes(tx);
    assert NormalTx(tx) == tx;
  }

  // ------------------------------------------------------------ cut-off leaf hashes

  const CUT: Bytes := [1]

  /** A derivation that ends inside its second leaf hash is read with the part that is there. */
  lemma CutHashRead(full: Bytes)
    requires |full| == 32
    ensures Decode(CTapPath, CompactSize(2) + (full + CUT)) == Ok(VPath({full, CUT}, Origin([], [])))
  {
    hide ReadCompactSize;
    CompactSizeRoundTrip(2, full + CUT);
    assert (full + CUT)[..32] == full && (full + CUT)[32..] == CUT;
    assert ReadHashes(1, CUT) == ({CUT} + ReadHashes(0, []).0, ReadHashes(0, []).1);
    assert {full} + ({CUT} + {}) == {full, CUT};
    var none: Bytes := [];
    assert none[..0] == [] && none[0..] == [];
  }

  lemma ConcatTwo(a: Bytes, b: Bytes)
    ensures Concat([a, b]) == a + b
  {
    var xs := [a, b];
    assert xs[1..] == [b] && xs[1..][1..] == [];
    assert Concat(xs[1..]) == b + [];
  }

  /** If the set happens to be iterated with the cut hash first, the hashes come back different. */
  lemma CutHashLost(full: Bytes, list: Order)
    requires |full| == 32 && full != [1] + full[..31] && list({full, CUT}) == [CUT, full] && IsOrder(list)
    ensures Decode(CTapPath, Encode(CTapPath, VPath({full, CUT}, Origin([], [])), list)) != Ok(VPath({full, CUT}, Origin([], [])))
  {
    hide ReadCompactSize, CompactSize, IsOrder;
    var s := CUT + full;
    ConcatTwo(CUT, full);
    assert OriginBytes(Origin([], [])) == [];
    assert |{full, CUT}| == 2;
    CompactSizeRoundTrip(2, s + []);
    assert s + [] == s;
    var (hashes, rest) := ReadHashes(2, s);
    assert s[..32] in hashes;
    assert s[..32] == [1] + full[..31] && |s[..32]| == 32;
    assert s[..32] != CUT;
  }

  /** Iterated with the cut hash last, they come back as they were. */
  lemma CutHashLastKept(fulls: seq<Bytes>, cut: Bytes, hashes: set<Bytes>, list: Order)
    requires (forall i :: 0 <= i < |fulls| ==> |fulls[i]| == 32) && |cut| < 32
    requires IsOrder(list) && list(hashes) == fulls + [cut] && |hashes| < U64
    ensures Decode(CTapPath, Encode(CTapPath, VPath(hashes, Origin([], [])), list)) == Ok(VPath(hashes, Origin([], [])))
  {
    hide ReadCompactSize, CompactSize, ReadHashes, Concat, IsOrder, ToSet, ReadOrigin, OriginBytes;
    ConcatLast(fulls, cut);
    NoOrigin();
    var s := Concat(fulls) + cut;
    assert s + [] == s;
    CompactSizeRoundTrip(|hashes|, s);
    LastRead(fulls, cut);
    ListedLast(fulls, cut, hashes, list);
  }

  lemma ListedLast(fulls: seq<Bytes>, cut: Bytes, hashes: set<Bytes>, list: Order)
    requires IsOrder(list) && list(hashes) == fulls + [cut]
    ensures |hashes| == |fulls| + 1 && ToSet(fulls) + {cut} == hashes
  {
    forall h ensures h in hashes <==> h in ToSet(fulls) + {cut} {
      assert h in hashes <==> h in fulls + [cut];
    }
  }

  lemma NoOrigin()
    ensures ReadOrigin([]) == Ok(Origin([], [])) && OriginBytes(Origin([], [])) == [] && OriginFits(Origin([], []))
  {
    var none: Bytes := [];
    assert none[..0] == [] && none[0..] == [];
  }

  lemma OneCut(n: nat, cut: Bytes)
    requires n == 1 && |cut| < 32
    ensures ReadHashes(n, cut) == ({cut}, [])
  {
    var more := ReadHashes(n - 1, []);
    assert more == ({}, []);
    assert {cut} + {} == {cut};
  }

  lemma {:induction false} LastRead(fulls: seq<Bytes>, cut: Bytes)
    requires (forall i :: 0 <= i < |fulls| ==> |fulls[i]| == 32) && |cut| < 32
    ensures ReadHashes(|fulls| + 1, Concat(fulls) + cut) == (ToSet(fulls) + {cut}, [])
  {
    var s := Concat(fulls) + cut;
    if fulls == [] {
      assert s == cut;
      OneCut(|fulls| + 1, cut);
      assert ToSet(fulls) + {cut} == {cut};
    } else {
      assert s == fulls[0] + (Concat(fulls[1..]) + cut);
      assert s[..32] == fulls[0] && s[32..] == Concat(fulls[1..]) + cut;
      LastRead(fulls[1..], cut);
      assert {fulls[0]} + (ToSet(fulls[1..]) + {cut}) == ToSet(fulls) + {cut};
    }
  }

  // ------------------------------------------------------------ whole PSBTs

  /** An unsigned transaction with one input and no outputs. */
  function OneInput(hash: nat): Tx {
    Tx(2, [TxIn(OutPoint(hash, 0), [], 0)], [], [], 0)
  }

  lemma OneInputFits(hash: nat)
    requires hash < Pow256(U256_BYTES)
    ensures TxFits(OneInput(hash)) && Fits(CUnsigned, VTx(OneInput(hash)))
    ensures |SerPlain(OneInput(hash))| < U64
  {
    hide Le, Pow256;
    Widths();
    var x := TxIn(OutPoint(hash, 0), [], 0);
    var ins, outs: seq<TxOut> := [x], [];
    assert InFits(x);
    assert |SerIn(x)| == 32 + 4 + 1 + 4;
    assert ins[1..] == [];
    assert SerAll(SerIn, ins) == SerIn(x) + SerAll(SerIn, []);
    assert |SerVector(SerIn, ins)| <= 9 + 41;
    assert |SerVector(SerOut, outs)| <= 9;
  }

  /** A PSBT of version 0 whose single input has the given records. */
  function OneInputPsbt(tx: Tx, rs: seq<Record>): Bytes
    requires TxFits(tx) && |SerPlain(tx)| < U64 && RecordsOk(rs)
  {
    PSBT_MAGIC + (SerRecords([([0], SerPlain(tx))]) + [0] + (SerRecords(rs) + [0]))
  }

  function OneInputBytes(hash: nat, rs: seq<Record>): Bytes
    requires hash < Pow256(U256_BYTES) && RecordsOk(rs)
  {
    OneInputFits(hash);
    OneInputPsbt(OneInput(hash), rs)
  }

  lemma GlobalTxApplies(tx: Tx)
    requires Fits(CUnsigned, VTx(tx))
    ensures Apply(GLOBAL, 0, NO_FIELDS, {}, ([0], SerPlain(tx))) == Ok(NO_FIELDS.(singles := map[UNSIGNED_TX := VTx(tx)]))
  {
    hide ReadPlain, SerPlain, TxFits, TypeOf, SerWithWitness, Decode;
    TypeOfKey(0, []);
    assert [TypeByte(0)] + [] == [0];
    UnsignedRecodes(tx);
    PlainIsForm(tx);
    assert NO_FIELDS.singles[UNSIGNED_TX := VTx(tx)] == map[UNSIGNED_TX := VTx(tx)];
  }

  lemma GlobalTxRead(tx: Tx, rest: Bytes)
    requires Fits(CUnsigned, VTx(tx)) && |SerPlain(tx)| < U64
    ensures RecordsOk([([0], SerPlain(tx))])
    ensures ReadMap(GLOBAL, 0, NO_FIELDS, {}, SerRecords([([0], SerPlain(tx))]) + [0] + rest)
         == Ok((NO_FIELDS.(singles := map[UNSIGNED_TX := VTx(tx)]), rest))
  {
    hide SerPlain, TxFits, Apply, ReadMap, SerRecord, TypeOf, IsCount, Fold;
    var r := ([0], SerPlain(tx));
    var rs := [r];
    NotACount(SerPlain(tx));
    GlobalTxApplies(tx);
    FoldOne(GLOBAL, 0, NO_FIELDS, {}, r, NO_FIELDS.(singles := map[UNSIGNED_TX := VTx(tx)]));
    MapRead(GLOBAL, 0, NO_FIELDS, {}, rs, rest);
  }

  lemma NotACount(v: Bytes)
    ensures !IsCount(GLOBAL, ([0], v))
  {
    TypeOfKey(0, []);
    assert [TypeByte(0)] + [] == [0];
  }

  lemma InputsHaveNoCounts(rs: seq<Record>)
    ensures CountsPlain(INPUT, rs)
  {
    hide TypeOf;
  }

  /** What the records give is what the read PSBT holds, besides the outpoint. */
  lemma OneInputRead(hash: nat, rs: seq<Record>, hash256: Hash, f: Fields, seen: set<Bytes>)
    requires hash < Pow256(U256_BYTES) && RecordsOk(rs) && KeysThere(rs)
    requires Fold(INPUT, 0, NO_FIELDS, {}, rs) == Ok((f, seen)) && UtxoMatches(f, Le(hash, U256_BYTES), hash256)
    ensures ReadPsbt(OneInputBytes(hash, rs), hash256).Ok?
    ensures ReadPsbt(OneInputBytes(hash, rs), hash256).value.inputs == [FillInput(f, OneInput(hash).vin[0])]
  {
    hide SerRecords, ReadMap, Fold, TxFits, SerPlain, RecordsOk, UtxoMatches, FillInput, Le;
    var tx := OneInput(hash);
    OneInputFits(hash);
    var body := SerRecords(rs) + [0];
    GlobalTxRead(tx, body);
    var s := OneInputPsbt(tx, rs);
    assert s[..5] == PSBT_MAGIC && s[5..] == SerRecords([([0], SerPlain(tx))]) + [0] + body;
    InputsHaveNoCounts(rs);
    MapRead(INPUT, 0, NO_FIELDS, {}, rs, []);
    assert body + [] == body && SerRecords(rs) + [0] + [] == body;
    assert body != [] by { assert |body| > 0; }
    OneMap(hash, f, body, hash256);
    assert [f] + [] == [f];
  }

  lemma OneMap(hash: nat, f: Fields, body: Bytes, hash256: Hash)
    requires UtxoMatches(f, Le(hash, U256_BYTES), hash256) && body != []
    requires ReadMap(INPUT, 0, NO_FIELDS, {}, body) == Ok((f, []))
    ensures var tx := OneInput(hash);
            var g := NO_FIELDS.(singles := map[UNSIGNED_TX := VTx(tx)]);
            && VersionAllows(g) && ReadBody(g, body, hash256).Ok?
            && ReadBody(g, body, hash256).value.inputs == [FillInput(f, tx.vin[0])]
  {
    hide ReadMap, UtxoMatches, FillInput, Le;
    var tx := OneInput(hash);
    var g := NO_FIELDS.(singles := map[UNSIGNED_TX := VTx(tx)]);
    assert VersionOf(g) == 0 && TxOf(g) == tx;
    var check := InputCheck(0, tx.vin, hash256);
    assert check(0, f);
    NoMaps(INPUT, 0, check, 1, 1, []);
    NoMaps(OUTPUT, 0, OutputCheck(0), 0, 0, []);
    assert [f] + [] == [f];
    var p := ReadBody(g, body, hash256).value;
    assert p.inputs == FillInputs([f], tx.vin);
  }

  lemma NoMaps(tb: Table, version: nat, check: Check, n: nat, i: nat, s: Bytes)
    requires i == n
    ensures ReadMaps(tb, version, check, n, i, s) == Ok(([], s))
  {}

  lemma FilledKeeps(f: Fields, x: TxIn)
    ensures var g := FillInput(f, x); g.taps == f.taps && g.keyed == f.keyed && Final(INPUT, g) == Final(INPUT, f)
    ensures NON_WITNESS_UTXO in f.singles ==>
              NON_WITNESS_UTXO in FillInput(f, x).singles
              && FillInput(f, x).singles[NON_WITNESS_UTXO] == f.singles[NON_WITNESS_UTXO]
  {}

  /** Bytes that are read to a PSBT with one control block under two leaf scripts. */
  lemma TwoScriptsPsbt(hash: nat, b: Bytes, first: TapScript, second: TapScript, hash256: Hash)
    requires hash < Pow256(U256_BYTES)
    requires BlockValid(b) && b[0] == 0x15 && b[1] == 0 && first.blocks == second.blocks == {b}
    requires first.script != second.script || first.leafVersion != second.leafVersion
    requires RecordsOk(TwoScripts(b, first, second))
    ensures var r := ReadPsbt(OneInputBytes(hash, TwoScripts(b, first, second)), hash256);
            r.Ok? && AllFullHashes(INPUT, r.value.inputs) && !AllUnambiguous(INPUT, r.value.inputs)
  {
    hide ReadPsbt, OneInputBytes, Pow256, BlocksApart, Fold, FillInput, BlockValid, TwoScripts, RecordsOk;
    SameBlockTwice(0, b, first, second);
    var rs := TwoScripts(b, first, second);
    var (f, seen) := Fold(INPUT, 0, NO_FIELDS, {}, rs).value;
    OneInputRead(hash, rs, hash256, f, seen);
    FilledKeeps(f, OneInput(hash).vin[0]);
    var g := FillInput(f, OneInput(hash).vin[0]);
    var p := ReadPsbt(OneInputBytes(hash, rs), hash256).value;
    assert p.inputs[0] == g && !Unambiguous(INPUT, g);
  }

  lemma NoInputsFold(utxo: Tx)
    requires TxFits(utxo) && utxo.vin == [] && utxo.wit == []
    ensures KeysThere([([0], NoInputsForm(utxo))])
    ensures Fold(INPUT, 0, NO_FIELDS, {}, [([0], NoInputsForm(utxo))])
         == Ok((NO_FIELDS.(singles := map[NON_WITNESS_UTXO := VTx(utxo)]), {[0]}))
  {
    hide TxFits, NoInputsForm, TypeOf, Decode;
    TypeOfKey(0, []);
    assert [TypeByte(0)] + [] == [0];
    NoInputsRead(utxo);
    var r := ([0], NoInputsForm(utxo));
    var f := NO_FIELDS.(singles := map[NON_WITNESS_UTXO := VTx(utxo)]);
    assert NO_FIELDS.singles[NON_WITNESS_UTXO := VTx(utxo)] == map[NON_WITNESS_UTXO := VTx(utxo)];
    FoldOne(INPUT, 0, NO_FIELDS, {}, r, f);
    assert {} + {r.0} == {[0]};
  }

  /** Bytes that are read to a PSBT with a previous transaction without inputs but with outputs. */
  lemma NoInputsPsbt(utxo: Tx, hash256: Hash)
    requires TxFits(utxo) && utxo.vin == [] && utxo.wit == [] && utxo.vout != [] && |NoInputsForm(utxo)| < U64
    ensures FromLe(hash256(SerPlain(utxo))) < Pow256(U256_BYTES)
    ensures var r := ReadPsbt(OneInputBytes(FromLe(hash256(SerPlain(utxo))), [([0], NoInputsForm(utxo))]), hash256);
            r.Ok? && AllFullHashes(INPUT, r.value.inputs) && !AllUnambiguous(INPUT, r.value.inputs)
  {
    hide ReadPsbt, OneInputBytes, Pow256, Fold, TxFits, NoInputsForm, SerPlain, FillInput, Le, FromLe;
    var id := hash256(SerPlain(utxo));
    FromLeRoundTrip(id);
    var rs := [([0], NoInputsForm(utxo))];
    NoInputsFold(utxo);
    var f := NO_FIELDS.(singles := map[NON_WITNESS_UTXO := VTx(utxo)]);
    OneInputRead(FromLe(id), rs, hash256, f, {[0]});
    FilledKeeps(f, OneInput(FromLe(id)).vin[0]);
    var g := FillInput(f, OneInput(FromLe(id)).vin[0]);
    var p := ReadPsbt(OneInputBytes(FromLe(id), rs), hash256).value;
    assert p.inputs[0] == g && !PlainSingle(INPUT, NON_WITNESS_UTXO, g.singles[NON_WITNESS_UTXO]);
  }

  const TAP_DERIVATION: nat := 0x16

  lemma CutHashFold(key: Bytes, full: Bytes)
    requires |key| == 32 && |full| == 32
    ensures KeysThere([([0x16] + key, CompactSize(2) + (full + CUT))])
    ensures Fold(INPUT, 0, NO_FIELDS, {}, [([0x16] + key, CompactSize(2) + (full + CUT))])
         == Ok((NO_FIELDS.(keyed := map[TAP_DERIVATION := [(key, VPath({full, CUT}, Origin([], [])))]]), {[0x16] + key}))
  {
    hide TypeOf, Decode, CompactSize;
    TypeOfKey(TAP_DERIVATION, key);
    CutHashRead(full);
    var r := ([0x16] + key, CompactSize(2) + (full + CUT));
    var d := [(key, VPath({full, CUT}, Origin([], [])))];
    assert r.0[1..] == key;
    assert NO_FIELDS.keyed[TAP_DERIVATION := d] == map[TAP_DERIVATION := d];
    FoldOne(INPUT, 0, NO_FIELDS, {}, r, NO_FIELDS.(keyed := map[TAP_DERIVATION := d]));
    assert {} + {r.0} == {r.0};
  }

  /** Bytes that are read to a PSBT with a cut-off leaf hash. */
  lemma CutHashPsbt(hash: nat, key: Bytes, full: Bytes, hash256: Hash)
    requires hash < Pow256(U256_BYTES) && |key| == 32 && |full| == 32
    ensures var r := ReadPsbt(OneInputBytes(hash, [([0x16] + key, CompactSize(2) + (full + CUT))]), hash256);
            r.Ok? && !AllFullHashes(INPUT, r.value.inputs)
  {
    hide ReadPsbt, OneInputBytes, Pow256, Fold, FillInput;
    var rs := [([0x16] + key, CompactSize(2) + (full + CUT))];
    CutHashFold(key, full);
    var f := NO_FIELDS.(keyed := map[TAP_DERIVATION := [(key, VPath({full, CUT}, Origin([], [])))]]);
    OneInputRead(hash, rs, hash256, f, {[0x16] + key});
    FilledKeeps(f, OneInput(hash).vin[0]);
    var g := FillInput(f, OneInput(hash).vin[0]);
    var p := ReadPsbt(OneInputBytes(hash, rs), hash256).value;
    assert p.inputs[0] == g && CUT in {full, CUT};
    assert !Plain(g.keyed[TAP_DERIVATION][0].1);
  }
}
