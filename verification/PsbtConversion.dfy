/** The transaction that a PSBT stands for, and that changing the PSBT version keeps it. */
module PsbtConversion {
  import opened Python
  import opened Serialize
  import opened TxSpec
  import opened Dicts
  import opened PsbtCodecs
  import opened PsbtMaps
  import opened PsbtMapsRoundTrip
  import opened PsbtMapTheorems
  import opened PsbtMapReachable
  import opened Psbts
  import opened PsbtRoundTrip
  import opened PsbtTheorems
  import LockTime

  const FINAL_SEQUENCE: nat := 0xffff_ffff

  // ------------------------------------------------------------ get_unsigned_tx

  function NatField(f: Fields, t: nat): Option<nat> {
    if t in f.singles && f.singles[t].VNum? && f.singles[t].num >= 0 then Some(f.singles[t].num) else None
  }

  function LocksOf(f: Fields): LockTime.Locks {
    LockTime.Locks(NatField(f, TIME_LOCKTIME), NatField(f, HEIGHT_LOCKTIME))
  }

  function AllLocks(fs: seq<Fields>): (r: seq<LockTime.Locks>)
    ensures |r| == |fs| && forall i :: 0 <= i < |r| ==> r[i] == LocksOf(fs[i])
  {
    seq(|fs|, i requires 0 <= i < |fs| => LocksOf(fs[i]))
  }

  function BytesField(f: Fields, t: nat): Bytes {
    if t in f.singles && f.singles[t].VBytes? then f.singles[t].bytes else []
  }

  /** The input that an input map describes; without a sequence number it is final. */
  function TxInOf(f: Fields): Result<TxIn> {
    var txid := BytesField(f, PREVIOUS_TXID);
    if NatField(f, OUTPUT_INDEX).None? then Err(AssertionError)
    else if |txid| < 32 then Err(StructError)
    else
      var sequence := NatField(f, SEQUENCE);
      Ok(TxIn(OutPoint(FromLe(txid[..32]), NatField(f, OUTPUT_INDEX).value), [],
              if sequence.Some? then sequence.value else FINAL_SEQUENCE))
  }

  function TxOutOf(f: Fields): Result<TxOut> {
    if AMOUNT in f.singles && f.singles[AMOUNT].VNum? then Ok(TxOut(f.singles[AMOUNT].num, BytesField(f, SCRIPT)))
    else Err(AssertionError)
  }

  function TxInsOf(fs: seq<Fields>): Result<seq<TxIn>> {
    if fs == [] then Ok([])
    else
      var init :- TxInsOf(fs[..|fs| - 1]);
      var x :- TxInOf(fs[|fs| - 1]);
      Ok(init + [x])
  }

  function TxOutsOf(fs: seq<Fields>): Result<seq<TxOut>> {
    if fs == [] then Ok([])
    else
      var init :- TxOutsOf(fs[..|fs| - 1]);
      var x :- TxOutOf(fs[|fs| - 1]);
      Ok(init + [x])
  }

  /** get_unsigned_tx: in version 2 it is put together and then hashed, which needs every number to fit. */
  function UnsignedTx(p: Psbt): Result<Tx> {
    if p.version == 0 then Ok(p.tx)
    else if !(TX_VERSION in p.globals.singles && p.globals.singles[TX_VERSION].VNum?) then Err(AssertionError)
    else
      var lock :- LockTime.Determine(AllLocks(p.inputs), NatField(p.globals, FALLBACK_LOCKTIME));
      var vin :- TxInsOf(p.inputs);
      var vout :- TxOutsOf(p.outputs);
      var tx := Tx(p.globals.singles[TX_VERSION].num, vin, vout, [], lock);
      if TxFits(tx) then Ok(tx) else Err(StructError)
  }

  function ConvertToV2(p: Psbt): Psbt {
    p.(version := 2)
  }

  function ConvertToV0(p: Psbt): Result<Psbt> {
    var tx :- UnsignedTx(p);
    Ok(p.(version := 0, tx := tx, isExplicit := false))
  }

  // ------------------------------------------------------------ from version 0 to version 2

  lemma TxInFilled(f: Fields, x: TxIn)
    requires InFits(x) && x.scriptSig == []
    ensures TxInOf(FillInput(f, x)) == Ok(x)
  {
    LeRoundTrip(x.prevout.hash, U256_BYTES);
    var txid := Le(x.prevout.hash, U256_BYTES);
    assert txid[..32] == txid;
  }

  lemma TxOutFilled(f: Fields, x: TxOut)
    ensures TxOutOf(FillOutput(f, x)) == Ok(x)
  {}

  lemma {:induction false} TxInsFilled(fs: seq<Fields>, vin: seq<TxIn>)
    requires |fs| == |vin|
    requires forall i :: 0 <= i < |vin| ==> InFits(vin[i]) && vin[i].scriptSig == [] && fs[i] == FillInput(fs[i], vin[i])
    ensures TxInsOf(fs) == Ok(vin)
    decreases |fs|
  {
    hide InFits, FillInput, TxInOf;
    if fs != [] {
      var n := |fs| - 1;
      TxInsFilled(fs[..n], vin[..n]);
      TxInFilled(fs[n], vin[n]);
      assert vin == vin[..n] + [vin[n]];
    }
  }

  lemma {:induction false} TxOutsFilled(fs: seq<Fields>, vout: seq<TxOut>)
    requires |fs| == |vout| && forall i :: 0 <= i < |vout| ==> fs[i] == FillOutput(fs[i], vout[i])
    ensures TxOutsOf(fs) == Ok(vout)
    decreases |fs|
  {
    hide FillOutput, TxOutOf;
    if fs != [] {
      var n := |fs| - 1;
      TxOutsFilled(fs[..n], vout[..n]);
      TxOutFilled(fs[n], vout[n]);
      assert vout == vout[..n] + [vout[n]];
    }
  }

  lemma NoLocksNone(fs: seq<Fields>)
    requires NoLocks(fs)
    ensures forall i :: 0 <= i < |fs| ==> AllLocks(fs)[i] == LockTime.Locks(None, None)
  {}

  /** A PSBT of version 0 turned into version 2 stands for its unsigned transaction still. */
  lemma ToV2KeepsTx(p: Psbt, hash256: Hash)
    requires ValidPsbt(p, hash256) && p.version == 0
    ensures UnsignedTx(p) == UnsignedTx(ConvertToV2(p)) == Ok(p.tx)
  {
    hide InputsValid, OutputsValid, Valid, FillInput, FillOutput, InFits, OutFits, NoLocks, LocksOf, FitsSigned;
    var q := ConvertToV2(p);
    forall i | 0 <= i < |p.inputs| ensures p.inputs[i] == FillInput(p.inputs[i], p.tx.vin[i]) {
      assert p.inputs[i] == FillInputs(p.inputs, p.tx.vin)[i];
    }
    forall i | 0 <= i < |p.outputs| ensures p.outputs[i] == FillOutput(p.outputs[i], p.tx.vout[i]) {
      assert p.outputs[i] == FillOutputs(p.outputs, p.tx.vout)[i];
    }
    TxInsFilled(p.inputs, p.tx.vin);
    TxOutsFilled(p.outputs, p.tx.vout);
    NoLocksNone(p.inputs);
    LockTime.NoRequirements(AllLocks(p.inputs), Some(p.tx.nLockTime));
    assert NatField(p.globals, FALLBACK_LOCKTIME) == Some(p.tx.nLockTime);
    assert Tx(p.tx.nVersion, p.tx.vin, p.tx.vout, [], p.tx.nLockTime) == p.tx;
  }

  // ------------------------------------------------------------ what version 0 writes of a map

  lemma AgreeFits(tb: Table, f: Fields, g: Fields)
    requires AgreeOld(tb, f, g)
    ensures Final(tb, f) == Final(tb, g)
  {
    hide KindOf;
    FinalTypes();
  }

  lemma SectionAgrees(tb: Table, f: Fields, g: Fields, t: nat, list: Order)
    requires AgreeOld(tb, f, g) && FieldsFit(tb, f) && FieldsFit(tb, g) && t < 253
    ensures RecordsOf(tb, 0, f, t, list) == RecordsOf(tb, 0, g, t, list)
  {
    hide KindOf, Encode, Fits, KeyedRecords, TapRecords, InOrder;
    assert KindOf(tb, t).Single? && Writes(KindOf(tb, t).when, 0) ==> OldType(tb, t);
  }

  lemma {:induction false} SectionsAgree(tb: Table, f: Fields, g: Fields, ts: seq<nat>, list: Order)
    requires AgreeOld(tb, f, g) && FieldsFit(tb, f) && FieldsFit(tb, g) && Small(ts)
    ensures RecordsOfAll(tb, 0, f, ts, list) == RecordsOfAll(tb, 0, g, ts, list)
    decreases |ts|
  {
    hide AgreeOld, FieldsFit, RecordsOf, Final;
    if ts != [] {
      AgreeFits(tb, f, g);
      SectionAgrees(tb, f, g, ts[|ts| - 1], list);
      SectionsAgree(tb, f, g, ts[..|ts| - 1], list);
    }
  }

  lemma RecordsAgree(tb: Table, f: Fields, g: Fields, list: Order)
    requires AgreeOld(tb, f, g) && FieldsFit(tb, f) && FieldsFit(tb, g)
    ensures Records(tb, 0, f, list) == Records(tb, 0, g, list)
  {
    hide FieldsFit, RecordsOfAll, KindOf;
    OrderCovers(tb, 0);
    SectionsAgree(tb, f, g, WriteOrder(tb), list);
  }

  ghost predicate AllAgree(tb: Table, fs: seq<Fields>, gs: seq<Fields>) {
    |fs| == |gs| && forall i :: 0 <= i < |fs| ==> AgreeOld(tb, fs[i], gs[i])
  }

  lemma {:induction false} MapsAgree(tb: Table, fs: seq<Fields>, gs: seq<Fields>, list: Order)
    requires AllAgree(tb, fs, gs) && AllWritable(tb, 0, fs, list) && AllValid(tb, gs)
    ensures AllWritable(tb, 0, gs, list) && SerMaps(tb, 0, fs, list) == SerMaps(tb, 0, gs, list)
    decreases |fs|
  {
    hide AgreeOld, FieldsFit, Records, Valid;
    forall i | 0 <= i < |gs| ensures Writable(tb, 0, gs[i], list) && Records(tb, 0, fs[i], list) == Records(tb, 0, gs[i], list) {
      ValidFits(tb, gs[i]);
      RecordsAgree(tb, fs[i], gs[i], list);
    }
    if fs != [] {
      MapsAgree(tb, fs[1..], gs[1..], list);
    }
  }

  // ------------------------------------------------------------ from version 2 to version 0

  /** The fields that version 0 writes. */
  function Old(tb: Table, f: Fields): Fields {
    f.(singles := map t | t in f.singles && OldType(tb, t) :: f.singles[t])
  }

  function AllOldOf(tb: Table, fs: seq<Fields>): (r: seq<Fields>)
    ensures |r| == |fs| && forall i :: 0 <= i < |r| ==> r[i] == Old(tb, fs[i])
  {
    seq(|fs|, i requires 0 <= i < |fs| => Old(tb, fs[i]))
  }

  lemma OldValid(tb: Table, f: Fields)
    requires Valid(tb, f)
    ensures Valid(tb, Old(tb, f)) && NoNewFields(tb, Old(tb, f)) && AgreeOld(tb, f, Old(tb, f))
  {
    hide KindOf, SingleValid, KeyedValid, OtherValid, TapsValid;
  }

  lemma FilledAgrees(f: Fields, x: TxIn, g: Fields, y: TxOut)
    ensures AgreeOld(INPUT, f, FillInput(f, x)) && AgreeOld(OUTPUT, g, FillOutput(g, y))
  {}

  lemma AgreeTrans(tb: Table, f: Fields, g: Fields, h: Fields)
    requires AgreeOld(tb, f, g) && AgreeOld(tb, g, h)
    ensures AgreeOld(tb, f, h)
  {
    hide KindOf, OldType;
  }

  /** The PSBT of version 0 that reads like `p` of version 2 in version 0. */
  function AsRead(p: Psbt, tx: Tx): Psbt
    requires |p.inputs| == |tx.vin| && |p.outputs| == |tx.vout|
  {
    SetupFromTx(Psbt(0, false, tx, p.globals.(singles := map[]), AllOldOf(INPUT, p.inputs), AllOldOf(OUTPUT, p.outputs)), tx)
  }

  lemma {:induction false} TxInsAt(fs: seq<Fields>, i: nat)
    requires TxInsOf(fs).Ok? && i < |fs|
    ensures |TxInsOf(fs).value| == |fs| && TxInOf(fs[i]) == Ok(TxInsOf(fs).value[i])
    decreases |fs|
  {
    hide TxInOf;
    var n := |fs| - 1;
    if i < n { TxInsAt(fs[..n], i); }
    TxInsCount(fs[..n]);
  }

  lemma {:induction false} TxInsCount(fs: seq<Fields>)
    requires TxInsOf(fs).Ok?
    ensures |TxInsOf(fs).value| == |fs|
    decreases |fs|
  {
    hide TxInOf;
    if fs != [] { TxInsCount(fs[..|fs| - 1]); }
  }

  lemma {:induction false} TxOutsCount(fs: seq<Fields>)
    requires TxOutsOf(fs).Ok?
    ensures |TxOutsOf(fs).value| == |fs|
    decreases |fs|
  {
    hide TxOutOf;
    if fs != [] { TxOutsCount(fs[..|fs| - 1]); }
  }

  lemma TxInIs(f: Fields)
    requires Valid(INPUT, f) && PREVIOUS_TXID in f.singles && TxInOf(f).Ok?
    ensures TxInOf(f).value.scriptSig == []
    ensures f.singles[PREVIOUS_TXID] == VBytes(Le(TxInOf(f).value.prevout.hash, U256_BYTES))
  {
    hide KeyedValid, OtherValid, TapsValid;
    ValidSingle(INPUT, f, PREVIOUS_TXID);
    var txid := f.singles[PREVIOUS_TXID].bytes;
    assert |txid| == 32 && txid[..32] == txid;
    FromLeRoundTrip(txid);
  }

  lemma OldInputAllowed(version: nat, tx: Tx, hash256: Hash, i: nat, f: Fields)
    requires Valid(INPUT, f) && version >= 2 && InputAllowed(version, [], hash256, i, f)
    requires i < |tx.vin| && TxInOf(f) == Ok(tx.vin[i])
    ensures Valid(INPUT, Old(INPUT, f)) && NoNewFields(INPUT, Old(INPUT, f))
    ensures InputAllowed(0, tx.vin, hash256, i, Old(INPUT, f)) && tx.vin[i].scriptSig == []
  {
    hide Valid, TxFits, SerPlain, Le, TxInOf, NoNewFields;
    OldValid(INPUT, f);
    TxInIs(f);
  }

  lemma ToV0Inputs(p: Psbt, tx: Tx, hash256: Hash)
    requires InputsValid(p.version, [], p.inputs, hash256) && p.version >= 2 && TxFits(tx) && TxInsOf(p.inputs) == Ok(tx.vin)
    ensures |p.inputs| == |tx.vin| && NoScripts(tx)
    ensures Checked(INPUT, InputCheck(0, tx.vin, hash256), 0, AllOldOf(INPUT, p.inputs))
    ensures AllOld(INPUT, AllOldOf(INPUT, p.inputs))
  {
    hide Valid, InputAllowed, NoNewFields, TxInOf, TxFits, Old;
    var fs := AllOldOf(INPUT, p.inputs);
    TxInsCount(p.inputs);
    forall i | 0 <= i < |fs|
      ensures Valid(INPUT, fs[i]) && NoNewFields(INPUT, fs[i]) && InputCheck(0, tx.vin, hash256)(0 + i, fs[i])
      ensures tx.vin[i].scriptSig == []
    {
      TxInsAt(p.inputs, i);
      OldInputAllowed(p.version, tx, hash256, i, p.inputs[i]);
    }
  }

  lemma ToV0Outputs(p: Psbt)
    requires OutputsValid(p.version, p.outputs)
    ensures Checked(OUTPUT, OutputCheck(0), 0, AllOldOf(OUTPUT, p.outputs))
  {
    hide Valid, Old;
    var fs := AllOldOf(OUTPUT, p.outputs);
    forall i | 0 <= i < |fs| ensures Valid(OUTPUT, fs[i]) && OutputCheck(0)(0 + i, fs[i]) {
      OldValid(OUTPUT, p.outputs[i]);
    }
  }

  lemma UnsignedParts(p: Psbt)
    requires p.version != 0 && UnsignedTx(p).Ok?
    ensures var tx := UnsignedTx(p).value;
            TxFits(tx) && tx.wit == [] && TxInsOf(p.inputs) == Ok(tx.vin) && TxOutsOf(p.outputs) == Ok(tx.vout)
  {
    hide TxFits, TxInsOf, TxOutsOf;
  }

  lemma AsReadValid(p: Psbt, tx: Tx, hash256: Hash)
    requires ValidPsbt(p, hash256) && p.version != 0 && UnsignedTx(p) == Ok(tx)
    ensures |p.inputs| == |tx.vin| && |p.outputs| == |tx.vout|
    ensures ValidPsbt(AsRead(p, tx), hash256) && AsRead(p, tx).tx == tx && AsRead(p, tx).version == 0
  {
    hide Valid, InputsValid, OutputsValid, TxFits, NoScripts, UnsignedTx, Checked, AllOld, NoLocks, AllOldOf;
    UnsignedParts(p);
    TxOutsCount(p.outputs);
    ToV0Inputs(p, tx, hash256);
    ToV0Outputs(p);
    OldCounts(p);
    OldInputs(tx, AllOldOf(INPUT, p.inputs), hash256);
    OldOutputs(tx, AllOldOf(OUTPUT, p.outputs));
    WithoutSingles(p.globals);
    assert p.globals.(singles := map[]).(singles := map[]) == p.globals.(singles := map[]);
  }

  lemma OldCounts(p: Psbt)
    ensures |AllOldOf(INPUT, p.inputs)| == |p.inputs| && |AllOldOf(OUTPUT, p.outputs)| == |p.outputs|
  {}

  lemma AsReadAgrees(p: Psbt, tx: Tx)
    requires AllValid(INPUT, p.inputs) && AllValid(OUTPUT, p.outputs) && |p.inputs| == |tx.vin| && |p.outputs| == |tx.vout|
    ensures AllAgree(INPUT, p.inputs, AsRead(p, tx).inputs) && AllAgree(OUTPUT, p.outputs, AsRead(p, tx).outputs)
  {
    hide Valid, AgreeOld, FillInput, FillOutput, Old;
    var q := AsRead(p, tx);
    var none, nothing := TxIn(OutPoint(0, 0), [], 0), TxOut(0, []);
    forall i | 0 <= i < |p.inputs| ensures AgreeOld(INPUT, p.inputs[i], q.inputs[i]) {
      var g := Old(INPUT, p.inputs[i]);
      OldValid(INPUT, p.inputs[i]);
      FilledAgrees(g, tx.vin[i], g, nothing);
      AgreeTrans(INPUT, p.inputs[i], g, q.inputs[i]);
    }
    forall i | 0 <= i < |p.outputs| ensures AgreeOld(OUTPUT, p.outputs[i], q.outputs[i]) {
      var g := Old(OUTPUT, p.outputs[i]);
      OldValid(OUTPUT, p.outputs[i]);
      FilledAgrees(g, none, g, tx.vout[i]);
      AgreeTrans(OUTPUT, p.outputs[i], g, q.outputs[i]);
    }
  }

  lemma UnambiguousAgrees(tb: Table, f: Fields, g: Fields)
    requires AgreeOld(tb, f, g) && Valid(tb, g)
    ensures FullHashes(tb, f) ==> FullHashes(tb, g)
    ensures Unambiguous(tb, f) ==> Unambiguous(tb, g)
  {
    hide KindOf, SingleValid, KeyedValid, OtherValid, TapsValid, PlainSingle, Plain, BlocksApart, Signing, OldType;
    AgreeFits(tb, f, g);
    UtxoOld();
    if Unambiguous(tb, f) {
      forall t | t in g.singles ensures PlainSingle(tb, t, g.singles[t]) {
        if !PlainSingle(tb, t, g.singles[t]) { OnlyUtxoHere(tb, t, g.singles[t]); }
      }
    }
  }

  lemma UtxoOld()
    ensures OldType(INPUT, NON_WITNESS_UTXO)
  {}

  lemma OnlyUtxoHere(tb: Table, t: nat, x: Value)
    requires SingleValid(tb, t, x) && !PlainSingle(tb, t, x)
    ensures tb == INPUT && t == NON_WITNESS_UTXO
  {}

  lemma AllAgreed(tb: Table, fs: seq<Fields>, gs: seq<Fields>)
    requires AllAgree(tb, fs, gs) && AllValid(tb, gs)
    ensures AllFullHashes(tb, fs) ==> AllFullHashes(tb, gs)
    ensures AllUnambiguous(tb, fs) ==> AllUnambiguous(tb, gs)
  {
    hide AgreeOld, Valid, FullHashes, Unambiguous;
    forall i | 0 <= i < |gs|
      ensures FullHashes(tb, fs[i]) ==> FullHashes(tb, gs[i])
      ensures Unambiguous(tb, fs[i]) ==> Unambiguous(tb, gs[i])
    {
      UnambiguousAgrees(tb, fs[i], gs[i]);
    }
  }

  /** What version 0 writes of `p` is what it writes of the PSBT that is read back. */
  lemma SameBytes(p: Psbt, tx: Tx, list: Order, hash256: Hash)
    requires ValidPsbt(p, hash256) && p.version != 0 && UnsignedTx(p) == Ok(tx) && Serializable(ConvertToV0(p).value, list)
    ensures |p.inputs| == |tx.vin| && |p.outputs| == |tx.vout|
    ensures Serializable(AsRead(p, tx), list) && PsbtBytes(ConvertToV0(p).value, list) == PsbtBytes(AsRead(p, tx), list)
  {
    hide Valid, UnsignedTx, ValidPsbt, FillInputs, FillOutputs, AllOldOf, SerMap, SerMaps, AllAgree, AllWritable, Writable;
    var q := ConvertToV0(p).value;
    AsReadValid(p, tx, hash256);
    NormalChecks(p, hash256);
    NormalChecks(AsRead(p, tx), hash256);
    AsReadAgrees(p, tx);
    MapsAgree(INPUT, q.inputs, AsRead(p, tx).inputs, list);
    MapsAgree(OUTPUT, q.outputs, AsRead(p, tx).outputs, list);
    assert GlobalRecord(q) == GlobalRecord(AsRead(p, tx));
  }

  lemma FilledTx(p: Psbt)
    requires p.version == 0 ==> |p.inputs| == |p.tx.vin| && |p.outputs| == |p.tx.vout|
    ensures NormalPsbt(p).tx == p.tx && NormalPsbt(p).version == p.version
  {
    hide NormalAll, Normalized, FillInputs, FillOutputs;
  }

  /**
   * A PSBT of version 2 that has an unsigned transaction at all, turned into version 0, written, read and turned
   * back, has the same one.
   */
  lemma ToV0AndBackKeepsTx(p: Psbt, list: Order, hash256: Hash)
    requires ValidPsbt(p, hash256) && p.version != 0 && UnsignedTx(p).Ok?
    requires Serializable(ConvertToV0(p).value, list) && IsOrder(list)
    requires AllUnambiguous(INPUT, p.inputs) && AllFullHashes(OUTPUT, p.outputs)
    ensures var r := ReadPsbt(PsbtBytes(ConvertToV0(p).value, list), hash256);
            r.Ok? && r.value.version == 0 && r.value.tx == UnsignedTx(p).value
            && UnsignedTx(ConvertToV2(r.value)) == UnsignedTx(p)
  {
    hide Valid, UnsignedTx, ValidPsbt, AsRead, ReadPsbt, PsbtBytes, IsOrder, AllUnambiguous, AllFullHashes, Serializable,
         AllAgree, AllValid, NormalPsbt;
    var tx := UnsignedTx(p).value;
    SameBytes(p, tx, list, hash256);
    AsReadValid(p, tx, hash256);
    NormalChecks(p, hash256);
    var q := AsRead(p, tx);
    NormalChecks(q, hash256);
    AsReadAgrees(p, tx);
    AllFull(p.inputs);
    AllAgreed(INPUT, p.inputs, q.inputs);
    AllAgreed(OUTPUT, p.outputs, q.outputs);
    PsbtRoundTrips(q, list, hash256);
    FilledTx(q);
    ReadPsbtIsValid(PsbtBytes(q, list), hash256);
    ToV2KeepsTx(NormalPsbt(q), hash256);
  }

  // ------------------------------------------------------------ when there is a transaction

  lemma OutpointKinds(x: Value)
    ensures SingleValid(INPUT, PREVIOUS_TXID, x) ==> x.VBytes? && |x.bytes| == 32
    ensures SingleValid(INPUT, OUTPUT_INDEX, x) || SingleValid(INPUT, SEQUENCE, x) ==> x.VNum? && 0 <= x.num < U32
  {}

  lemma TxInFits(f: Fields)
    requires Valid(INPUT, f) && PREVIOUS_TXID in f.singles && OUTPUT_INDEX in f.singles
    ensures TxInOf(f).Ok? && InFits(TxInOf(f).value)
  {
    hide Valid, SingleValid, FromLe, Pow256;
    ValidSingle(INPUT, f, PREVIOUS_TXID);
    OutpointKinds(f.singles[PREVIOUS_TXID]);
    ValidSingle(INPUT, f, OUTPUT_INDEX);
    OutpointKinds(f.singles[OUTPUT_INDEX]);
    if SEQUENCE in f.singles {
      ValidSingle(INPUT, f, SEQUENCE);
      OutpointKinds(f.singles[SEQUENCE]);
    }
    var txid := f.singles[PREVIOUS_TXID].bytes;
    assert txid[..32] == txid;
    FromLeRoundTrip(txid);
  }

  lemma TxOutFits(f: Fields)
    requires Valid(OUTPUT, f) && AMOUNT in f.singles && |BytesField(f, SCRIPT)| < U64
    ensures TxOutOf(f).Ok? && OutFits(TxOutOf(f).value)
  {
    hide KeyedValid, OtherValid, TapsValid;
    ValidSingle(OUTPUT, f, AMOUNT);
  }

  lemma {:induction false} TxInsFit(version: nat, fs: seq<Fields>, hash256: Hash)
    requires version >= 2 && InputsValid(version, [], fs, hash256)
    ensures TxInsOf(fs).Ok? && |TxInsOf(fs).value| == |fs|
    ensures forall i :: 0 <= i < |fs| ==> InFits(TxInsOf(fs).value[i])
    decreases |fs|
  {
    hide Valid, TxInOf, InFits, UtxoMatches;
    if fs != [] {
      var n := |fs| - 1;
      assert InputAllowed(version, [], hash256, n, fs[n]);
      TxInsFit(version, fs[..n], hash256);
      TxInFits(fs[n]);
    }
  }

  predicate ScriptsShort(fs: seq<Fields>) {
    forall i :: 0 <= i < |fs| ==> |BytesField(fs[i], SCRIPT)| < U64
  }

  lemma {:induction false} TxOutsFit(version: nat, fs: seq<Fields>)
    requires version >= 2 && OutputsValid(version, fs) && ScriptsShort(fs)
    ensures TxOutsOf(fs).Ok? && |TxOutsOf(fs).value| == |fs|
    ensures forall i :: 0 <= i < |fs| ==> OutFits(TxOutsOf(fs).value[i])
    decreases |fs|
  {
    hide Valid, TxOutOf, OutFits;
    if fs != [] {
      var n := |fs| - 1;
      TxOutsFit(version, fs[..n]);
      TxOutFits(fs[n]);
    }
  }

  lemma MaxTimeBound(xs: seq<LockTime.Locks>, bound: nat)
    requires forall i :: 0 <= i < |xs| ==> LockTime.OrZero(xs[i].time) <= bound && LockTime.OrZero(xs[i].height) <= bound
    ensures LockTime.MaxTime(xs) <= bound && LockTime.MaxHeight(xs) <= bound
  {
    LockTime.MaxTimeIsMax(xs);
    LockTime.MaxHeightIsMax(xs);
  }

  lemma LockKinds(x: Value)
    ensures SingleValid(INPUT, TIME_LOCKTIME, x) || SingleValid(INPUT, HEIGHT_LOCKTIME, x) ==> x.VNum? && 0 <= x.num < U32
  {}

  lemma LocksFit(f: Fields)
    requires Valid(INPUT, f)
    ensures LockTime.OrZero(LocksOf(f).time) < U32 && LockTime.OrZero(LocksOf(f).height) < U32
  {
    hide Valid, SingleValid;
    if TIME_LOCKTIME in f.singles {
      ValidSingle(INPUT, f, TIME_LOCKTIME);
      LockKinds(f.singles[TIME_LOCKTIME]);
    }
    if HEIGHT_LOCKTIME in f.singles {
      ValidSingle(INPUT, f, HEIGHT_LOCKTIME);
      LockKinds(f.singles[HEIGHT_LOCKTIME]);
    }
  }

  lemma LockFits(p: Psbt, hash256: Hash)
    requires ValidPsbt(p, hash256) && p.version != 0
    ensures var r := LockTime.Determine(AllLocks(p.inputs), NatField(p.globals, FALLBACK_LOCKTIME)); r.Ok? ==> r.value < U32
  {
    hide KeyedValid, OtherValid, TapsValid, Valid, InputAllowed, OutputsValid, LocksOf;
    forall i | 0 <= i < |p.inputs|
      ensures LockTime.OrZero(AllLocks(p.inputs)[i].time) <= U32 - 1 && LockTime.OrZero(AllLocks(p.inputs)[i].height) <= U32 - 1
    {
      LocksFit(p.inputs[i]);
    }
    MaxTimeBound(AllLocks(p.inputs), U32 - 1);
    if FALLBACK_LOCKTIME in p.globals.singles {
      ValidSingle(GLOBAL, p.globals, FALLBACK_LOCKTIME);
      GlobalKinds(FALLBACK_LOCKTIME, p.globals.singles[FALLBACK_LOCKTIME]);
    }
  }

  /** A PSBT of version 2 has a transaction exactly if its version fits a signed word and its lock times agree. */
  lemma HasUnsignedTx(p: Psbt, hash256: Hash)
    requires ValidPsbt(p, hash256) && p.version != 0 && ScriptsShort(p.outputs)
    ensures p.globals.singles[TX_VERSION].VNum?
    ensures UnsignedTx(p).Ok? <==>
              && p.globals.singles[TX_VERSION].num < 0x8000_0000
              && !(LockTime.SomeOnlyTime(AllLocks(p.inputs)) && LockTime.SomeOnlyHeight(AllLocks(p.inputs)))
  {
    hide Valid, InputsValid, OutputsValid, TxInsOf, TxOutsOf, ScriptsShort, InFits, OutFits;
    ValidSingle(GLOBAL, p.globals, TX_VERSION);
    GlobalKinds(TX_VERSION, p.globals.singles[TX_VERSION]);
    TxInsFit(p.version, p.inputs, hash256);
    TxOutsFit(p.version, p.outputs);
    LockFits(p, hash256);
    Widths();
  }

  // ------------------------------------------------------------ round trips keep the transaction

  lemma NormalTxIn(version: nat, f: Fields)
    requires version >= 2
    ensures TxInOf(Normalized(INPUT, version, f)) == TxInOf(f) && LocksOf(Normalized(INPUT, version, f)) == LocksOf(f)
  {
    hide Ordered, SortDict, Final, NormalTx;
    var g := Normalized(INPUT, version, f);
    assert forall t :: t in {PREVIOUS_TXID, OUTPUT_INDEX, SEQUENCE, TIME_LOCKTIME, HEIGHT_LOCKTIME} ==>
      KeptSingle(INPUT, version, f, t);
  }

  lemma NormalTxOut(version: nat, f: Fields)
    requires version >= 2
    ensures TxOutOf(Normalized(OUTPUT, version, f)) == TxOutOf(f)
  {
    hide Ordered, SortDict, Final, NormalTx;
    assert forall t :: t in {AMOUNT, SCRIPT} ==> KeptSingle(OUTPUT, version, f, t);
  }

  lemma {:induction false} NormalTxIns(version: nat, fs: seq<Fields>)
    requires version >= 2
    ensures TxInsOf(NormalAll(INPUT, version, fs)) == TxInsOf(fs)
    decreases |fs|
  {
    hide TxInOf, Normalized, LocksOf;
    if fs != [] {
      var n := |fs| - 1;
      NormalTxIns(version, fs[..n]);
      NormalTxIn(version, fs[n]);
      assert NormalAll(INPUT, version, fs)[..n] == NormalAll(INPUT, version, fs[..n]);
    }
  }

  lemma {:induction false} NormalTxOuts(version: nat, fs: seq<Fields>)
    requires version >= 2
    ensures TxOutsOf(NormalAll(OUTPUT, version, fs)) == TxOutsOf(fs)
    decreases |fs|
  {
    hide TxOutOf, Normalized;
    if fs != [] {
      var n := |fs| - 1;
      NormalTxOuts(version, fs[..n]);
      NormalTxOut(version, fs[n]);
      assert NormalAll(OUTPUT, version, fs)[..n] == NormalAll(OUTPUT, version, fs[..n]);
    }
  }

  lemma NormalAllLocks(version: nat, fs: seq<Fields>)
    requires version >= 2
    ensures AllLocks(NormalAll(INPUT, version, fs)) == AllLocks(fs)
  {
    hide LocksOf, Normalized, TxInOf;
    forall i | 0 <= i < |fs| ensures LocksOf(NormalAll(INPUT, version, fs)[i]) == LocksOf(fs[i]) {
      NormalTxIn(version, fs[i]);
    }
  }

  lemma NormalVersion(version: nat, g: Fields)
    requires version >= 2 && Valid(GLOBAL, g)
    ensures NatField(Normalized(GLOBAL, version, g), FALLBACK_LOCKTIME) == NatField(g, FALLBACK_LOCKTIME)
    ensures TX_VERSION in Normalized(GLOBAL, version, g).singles <==> TX_VERSION in g.singles
    ensures TX_VERSION in g.singles ==> Normalized(GLOBAL, version, g).singles[TX_VERSION] == g.singles[TX_VERSION]
  {
    hide Ordered, SortDict, NormalTx, KeyedValid, OtherValid, TapsValid;
    assert forall t :: t in {TX_VERSION, FALLBACK_LOCKTIME} ==> KeptSingle(GLOBAL, version, g, t);
    if TX_VERSION in g.singles { ValidSingle(GLOBAL, g, TX_VERSION); }
  }

  /** Serializing and reading a PSBT keeps the transaction it stands for. */
  lemma NormalKeepsTx(p: Psbt, hash256: Hash)
    requires ValidPsbt(p, hash256)
    ensures p.version == 0 ==> |p.inputs| == |p.tx.vin| && |p.outputs| == |p.tx.vout|
    ensures UnsignedTx(NormalPsbt(p)) == UnsignedTx(p)
  {
    hide Valid, InputsValid, OutputsValid, Normalized, NormalAll, TxInsOf, TxOutsOf, AllLocks, TxFits, NatField, FillInputs,
         FillOutputs;
    NormalLengths(p, hash256);
    FilledTx(p);
    if p.version != 0 {
      NormalTxIns(p.version, p.inputs);
      NormalTxOuts(p.version, p.outputs);
      NormalAllLocks(p.version, p.inputs);
      NormalVersion(p.version, p.globals);
    }
  }

  // ------------------------------------------------------------ from version 0 to version 2, written and read

  /** `p` of version 0 as a PSBT of version 2 that was read. */
  function AsV2(p: Psbt): Psbt {
    p.(version := 2, isExplicit := true, tx := EMPTY)
  }

  lemma AsV2Inputs(p: Psbt, hash256: Hash)
    requires ValidPsbt(p, hash256) && p.version == 0
    ensures InputsValid(2, [], p.inputs, hash256)
  {
    hide Valid, TxFits, SerPlain, Le, FillOutputs, OutputsValid, NoLocks;
    forall i | 0 <= i < |p.inputs| ensures Valid(INPUT, p.inputs[i]) && InputAllowed(2, [], hash256, i, p.inputs[i]) {
      assert p.inputs[i] == FillInput(p.inputs[i], p.tx.vin[i]);
    }
  }

  lemma AsV2Globals(p: Psbt, hash256: Hash)
    requires ValidPsbt(p, hash256) && p.version == 0 && p.tx.nVersion >= 0
    ensures ValidGlobals(AsV2(p))
  {
    hide KindOf, InputsValid, OutputsValid, FillInputs, FillOutputs, NoLocks, InFits, OutFits, KeyedValid, OtherValid,
         TapsValid, FitsSigned;
    assert p.tx.nVersion < U32 by { SignedBound(p.tx.nVersion); }
    VersionFields(p.tx.nVersion, p.tx.nLockTime);
  }

  lemma SignedBound(n: int)
    requires FitsSigned(n, 4)
    ensures n < U32
  {
    Widths();
  }

  lemma VersionFields(n: nat, m: nat)
    requires n < U32 && m < U32
    ensures SingleValid(GLOBAL, TX_VERSION, VNum(n)) && SingleValid(GLOBAL, FALLBACK_LOCKTIME, VNum(m))
  {}

  lemma AsV2Bytes(p: Psbt, list: Order, hash256: Hash)
    requires ValidPsbt(p, hash256) && p.version == 0 && Serializable(ConvertToV2(p), list)
    ensures p.tx.nVersion >= 0
    ensures Serializable(AsV2(p), list) && PsbtBytes(AsV2(p), list) == PsbtBytes(ConvertToV2(p), list)
  {
    hide KindOf, InputsValid, OutputsValid, FillInputs, FillOutputs, NoLocks, Records, Valid, AllWritable, SerMap, SerMaps;
    var g := GlobalRecord(ConvertToV2(p));
    assert g == GlobalRecord(AsV2(p));
    assert TX_VERSION in g.singles && g.singles[TX_VERSION] == VNum(p.tx.nVersion);
    VersionFits(VNum(p.tx.nVersion));
  }

  lemma VersionFits(x: Value)
    ensures Fits(KindOf(GLOBAL, TX_VERSION).codec, x) ==> x.VNum? && x.num >= 0
  {}

  predicate HaveScripts(tx: Tx) {
    forall i :: 0 <= i < |tx.vout| ==> tx.vout[i].scriptPubKey != []
  }

  lemma AsV2Outputs(p: Psbt, hash256: Hash)
    requires ValidPsbt(p, hash256) && p.version == 0
    ensures forall i :: 0 <= i < |p.outputs| ==> (OutputAllowed(2, p.outputs[i]) <==> p.tx.vout[i].scriptPubKey != [])
    ensures OutputsValid(2, p.outputs) <==> HaveScripts(p.tx)
  {
    hide Valid, FillInputs, InputsValid, NoLocks, Fits;
    forall i | 0 <= i < |p.outputs| ensures OutputAllowed(2, p.outputs[i]) <==> p.tx.vout[i].scriptPubKey != [] {
      assert p.outputs[i] == FillOutput(p.outputs[i], p.tx.vout[i]);
    }
    if OutputsValid(2, p.outputs) {
      forall i | 0 <= i < |p.tx.vout| ensures p.tx.vout[i].scriptPubKey != [] {
        assert OutputAllowed(2, p.outputs[i]);
      }
    }
  }

  /** Reading fails at a map that does not pass its check. */
  lemma {:induction false} MapsFail(tb: Table, version: nat, check: Check, n: nat, i: nat, fs: seq<Fields>, list: Order,
                                    rest: Bytes, j: nat)
    requires AllWritable(tb, version, fs, list) && AllValid(tb, fs) && AllFullHashes(tb, fs) && AllUnambiguous(tb, fs)
    requires IsOrder(list) && n == i + |fs| && j < |fs| && !check(i + j, Normalized(tb, version, fs[j]))
    ensures ReadMaps(tb, version, check, n, i, SerMaps(tb, version, fs, list) + rest).Err?
    decreases |fs|
  {
    hide ReadMap, Writable, Valid, FullHashes, Unambiguous, IsOrder, Normalized, SerMap;
    SerMapShape(tb, version, fs, list, rest);
    FirstWritable(tb, version, fs, list);
    var more := SerMaps(tb, version, fs[1..], list) + rest;
    MapReread(tb, version, fs[0], list, more);
    if j > 0 {
      assert fs[j] == fs[1..][j - 1] && i + 1 + (j - 1) == i + j;
      MapsFail(tb, version, check, n, i + 1, fs[1..], list, rest, j - 1);
    }
  }

  lemma NoScriptNotAllowed(f: Fields)
    requires !OutputAllowed(2, f)
    ensures !OutputAllowed(2, Normalized(OUTPUT, 2, f))
  {
    hide NormalValue, SortDict, Ordered;
  }

  lemma NoScriptFails(p: Psbt, list: Order, hash256: Hash, i: nat)
    requires ValidPsbt(p, hash256) && p.version == 0 && Serializable(ConvertToV2(p), list) && IsOrder(list)
    requires AllUnambiguous(INPUT, p.inputs) && AllFullHashes(OUTPUT, p.outputs)
    requires i < |p.outputs| && !OutputAllowed(2, p.outputs[i])
    ensures ReadPsbt(PsbtBytes(ConvertToV2(p), list), hash256).Err?
  {
    hide Valid, ValidPsbt, IsOrder, AllUnambiguous, AllFullHashes, Normalized, ReadMaps, SerMaps, NormalChecked, AllWritable,
         AllValid, GlobalRecord, Writable, ReadPsbt, PsbtBytes, InputCheck, CountOf, VersionOf, TxOf, KeptGlobals,
         VersionAllows, ValidGlobals, InputsValid, OutputAllowed;
    AsV2Bytes(p, list, hash256);
    AsV2Globals(p, hash256);
    AsV2Inputs(p, hash256);
    NormalChecks(p, hash256);
    var q := AsV2(p);
    var body := ReadsBody(q, list, hash256);
    GlobalsNormal(q);
    var outs := SerMaps(OUTPUT, 2, q.outputs, list);
    assert outs + [] == outs;
    AllFull(p.inputs);
    OutputsUnambiguous(p.outputs);
    V2Checks(p.inputs, hash256);
    MapsReread(INPUT, 2, InputCheck(2, [], hash256), |q.inputs|, 0, q.inputs, list, outs);
    NoScriptNotAllowed(p.outputs[i]);
    MapsFail(OUTPUT, 2, OutputCheck(2), |q.outputs|, 0, q.outputs, list, [], i);
  }

  lemma V2Checks(fs: seq<Fields>, hash256: Hash)
    requires InputsValid(2, [], fs, hash256)
    ensures NormalChecked(INPUT, 2, InputCheck(2, [], hash256), 0, fs)
  {
    hide Valid, InputAllowed, Normalized;
    forall j | 0 <= j < |fs| ensures InputCheck(2, [], hash256)(0 + j, Normalized(INPUT, 2, fs[j])) {
      NormalInputAllowed(2, [], hash256, j, fs[j]);
    }
  }

  /**
   * A PSBT of version 0, written as version 2, is read again exactly if every output has a script; and then it
   * stands for the same transaction. (It can be written at all only if the transaction's version is not negative.)
   */
  lemma ToV2AndReadKeepsTx(p: Psbt, list: Order, hash256: Hash)
    requires ValidPsbt(p, hash256) && p.version == 0 && Serializable(ConvertToV2(p), list) && IsOrder(list)
    requires AllUnambiguous(INPUT, p.inputs) && AllFullHashes(OUTPUT, p.outputs)
    ensures p.tx.nVersion >= 0
    ensures ReadPsbt(PsbtBytes(ConvertToV2(p), list), hash256).Ok? <==> HaveScripts(p.tx)
    ensures HaveScripts(p.tx) ==> UnsignedTx(ReadPsbt(PsbtBytes(ConvertToV2(p), list), hash256).value) == Ok(p.tx)
  {
    hide Valid, IsOrder, AllUnambiguous, AllFullHashes, ReadPsbt, PsbtBytes, Serializable, NormalPsbt, InputsValid,
         ValidGlobals, TxInsOf, TxOutsOf, AllLocks, OutputsValid, OutputAllowed;
    AsV2Bytes(p, list, hash256);
    AsV2Outputs(p, hash256);
    if HaveScripts(p.tx) {
      AsV2Globals(p, hash256);
      AsV2Inputs(p, hash256);
      var q := AsV2(p);
      AllFull(p.inputs);
      PsbtRoundTrips(q, list, hash256);
      NormalKeepsTx(q, hash256);
      ToV2KeepsTx(p, hash256);
      assert UnsignedTx(q) == UnsignedTx(ConvertToV2(p));
    } else {
      var i :| 0 <= i < |p.tx.vout| && p.tx.vout[i].scriptPubKey == [];
      NormalLengths(p, hash256);
      NoScriptFails(p, list, hash256, i);
    }
  }
}
