/** What is written for a normal form is what was written before: a second round trip changes nothing. */
module PsbtStability {
  import opened Python
  import opened Sequences
  import opened Serialize
  import opened TxSpec
  import opened Dicts
  import opened PsbtCodecs
  import opened PsbtMaps
  import opened PsbtMapsRoundTrip
  import opened PsbtMapTheorems
  import opened PsbtMapReachable
  import opened Psbts
  import opened PsbtRoundTrip
  import opened PsbtTheorems
  import opened PsbtConversion

  // ------------------------------------------------------------ one map

  lemma TxFormNormal(tx: Tx)
    requires Fits(CTx, VTx(tx))
    ensures Fits(CTx, VTx(NormalTx(tx))) && SerWithWitness(NormalTx(tx)) == SerWithWitness(tx)
  {
    hide InFits, OutFits, StackFits;
    if HasWitness(tx) {
      ResizedSame(tx.wit, |tx.vin|);
      assert Normal(tx) == tx;
    }
  }

  lemma EncodeNormal(c: Codec, x: Value, list: Order)
    requires Fits(c, x)
    ensures Fits(c, NormalValue(x)) && Encode(c, NormalValue(x), list) == Encode(c, x, list)
  {
    hide NormalTx, TxFits, SerWithWitness, OutFits, StackFits, OriginFits, Concat, OriginBytes;
    if c == CTx {
      TxFormNormal(x.tx);
    } else if c == CUnsigned {
      UnsignedField(x.tx);
    }
  }

  lemma SectionNormal(tb: Table, version: nat, f: Fields, t: nat, list: Order)
    requires Valid(tb, f) && FieldsFit(tb, f) && t < 253
    ensures FieldsFit(tb, Normalized(tb, version, f))
    ensures Section(tb, version, Normalized(tb, version, f), t, list) == Section(tb, version, f, t, list)
  {
    hide KindOf, Encode, Fits, NormalValue, SortDict, TapsValid, OtherValid, KeyedRecords, TapRecords, Final, Signing,
         DictValid;
    var g := Normalized(tb, version, f);
    NormalizedTwice(tb, version, f);
    ValidFits(tb, g);
    FinalSame(tb, version, f);
    TapLeafIs(tb, t);
    TapSigning();
    if Kept(tb, f, t) {
      match KindOf(tb, t)
      case Single(codec, when) =>
        if t in f.singles && Writes(when, version) { EncodeNormal(codec, f.singles[t], list); }
      case Keyed(_, byTail, codec) => if t in f.keyed { SortedTwice(f.keyed[t]); }
      case TapLeaf =>
      case Other =>
    }
  }

  lemma {:induction false} SectionsNormal(tb: Table, version: nat, f: Fields, ts: seq<nat>, list: Order)
    requires Valid(tb, f) && FieldsFit(tb, f) && Small(ts)
    ensures FieldsFit(tb, Normalized(tb, version, f))
    ensures RecordsOfAll(tb, version, Normalized(tb, version, f), ts, list) == RecordsOfAll(tb, version, f, ts, list)
    decreases |ts|
  {
    hide Valid, FieldsFit, RecordsOf, Normalized, Final, Signing;
    NormalizedTwice(tb, version, f);
    ValidFits(tb, Normalized(tb, version, f));
    if ts != [] {
      SectionNormal(tb, version, f, ts[|ts| - 1], list);
      SectionsNormal(tb, version, f, ts[..|ts| - 1], list);
    }
  }

  /** A map and its normal form are written alike. */
  lemma RecordsNormal(tb: Table, version: nat, f: Fields, list: Order)
    requires Valid(tb, f) && FieldsFit(tb, f)
    ensures FieldsFit(tb, Normalized(tb, version, f))
    ensures Records(tb, version, Normalized(tb, version, f), list) == Records(tb, version, f, list)
  {
    hide Valid, FieldsFit, RecordsOfAll, NormalValue, Ordered, SortDict, Final, Signing;
    OrderCovers(tb, 0);
    SectionsNormal(tb, version, f, WriteOrder(tb), list);
    SortedTwice(f.other);
  }

  // ------------------------------------------------------------ all maps

  lemma {:induction false} MapsNormal(tb: Table, version: nat, fs: seq<Fields>, list: Order)
    requires AllValid(tb, fs) && AllWritable(tb, version, fs, list)
    ensures AllWritable(tb, version, NormalAll(tb, version, fs), list)
    ensures SerMaps(tb, version, NormalAll(tb, version, fs), list) == SerMaps(tb, version, fs, list)
    decreases |fs|
  {
    hide Valid, FieldsFit, Records, Normalized;
    var gs := NormalAll(tb, version, fs);
    forall i | 0 <= i < |gs|
      ensures Writable(tb, version, gs[i], list) && Records(tb, version, gs[i], list) == Records(tb, version, fs[i], list)
    {
      RecordsNormal(tb, version, fs[i], list);
    }
    if fs != [] {
      assert gs[1..] == NormalAll(tb, version, fs[1..]);
      MapsNormal(tb, version, fs[1..], list);
    }
  }

  lemma FilledInputsValid(fs: seq<Fields>, gs: seq<Fields>, tx: Tx)
    requires Fits(CUnsigned, VTx(tx)) && |fs| == |tx.vin| && AllValid(INPUT, fs) && gs == FillInputs(fs, tx.vin)
    ensures AllValid(INPUT, gs) && AllAgree(INPUT, fs, gs)
  {
    hide Valid, InFits, OutFits, AgreeOld, FillInput;
    forall i | 0 <= i < |gs| ensures Valid(INPUT, gs[i]) && AgreeOld(INPUT, fs[i], gs[i]) {
      FilledInputValid(fs[i], tx.vin[i]);
      FilledAgrees(fs[i], tx.vin[i], fs[i], TxOut(0, []));
    }
  }

  lemma FilledOutputsValid(fs: seq<Fields>, gs: seq<Fields>, tx: Tx)
    requires Fits(CUnsigned, VTx(tx)) && |fs| == |tx.vout| && AllValid(OUTPUT, fs) && gs == FillOutputs(fs, tx.vout)
    ensures AllValid(OUTPUT, gs) && AllAgree(OUTPUT, fs, gs)
  {
    hide Valid, InFits, OutFits, AgreeOld, FillOutput;
    forall i | 0 <= i < |gs| ensures Valid(OUTPUT, gs[i]) && AgreeOld(OUTPUT, fs[i], gs[i]) {
      FilledOutput(fs[i], tx.vout[i]);
      FilledAgrees(fs[i], TxIn(OutPoint(0, 0), [], 0), fs[i], tx.vout[i]);
    }
  }

  lemma FilledInputValid(f: Fields, x: TxIn)
    requires Valid(INPUT, f) && InFits(x)
    ensures Valid(INPUT, FillInput(f, x))
  {
    hide SingleValid, KeyedValid, OtherValid, TapsValid, Le;
    OutpointFields(x);
  }

  /** The global map of the normal form is the normal form of the global map. */
  lemma GlobalRecordNormal(p: Psbt)
    requires ValidGlobals(p)
    ensures GlobalRecord(NormalPsbt(p)) == Normalized(GLOBAL, p.version, GlobalRecord(p))
  {
    hide Valid, Fits, FillInputs, FillOutputs, SortDict, Ordered, NoLocks, NormalAll, KeptSingle, NormalValue;
    GlobalSingles(p);
    NormalCount(INPUT, p.version, p.inputs);
    NormalCount(OUTPUT, p.version, p.outputs);
    if p.version != 0 { KeptNumbers(p); }
    var a := GlobalRecord(NormalPsbt(p));
    var b := Normalized(GLOBAL, p.version, GlobalRecord(p));
    assert a.singles == b.singles;
    assert a.keyed == b.keyed;
  }

  lemma KeptNumbers(p: Psbt)
    requires ValidGlobals(p) && p.version != 0
    ensures Normalized(GLOBAL, p.version, p.globals).singles == p.globals.singles
  {
    hide KindOf, SingleValid, KeyedValid, OtherValid, TapsValid, KeptSingle, NormalValue;
    forall t | t in p.globals.singles
      ensures KeptSingle(GLOBAL, p.version, p.globals, t) && NormalValue(p.globals.singles[t]) == p.globals.singles[t]
    {
      NumberKept(p.version, t, p.globals.singles[t]);
    }
  }

  lemma GlobalBytesNormal(p: Psbt, list: Order)
    requires ValidGlobals(p) && Writable(GLOBAL, p.version, GlobalRecord(p), list)
    ensures Writable(GLOBAL, p.version, GlobalRecord(NormalPsbt(p)), list)
    ensures SerMap(GLOBAL, p.version, GlobalRecord(NormalPsbt(p)), list) == SerMap(GLOBAL, p.version, GlobalRecord(p), list)
  {
    hide ValidGlobals, Records, FieldsFit, Normalized, Valid, GlobalRecord, NormalPsbt;
    GlobalRecordValid(p);
    GlobalRecordNormal(p);
    RecordsNormal(GLOBAL, p.version, GlobalRecord(p), list);
  }

  lemma MapBytesNormal(p: Psbt, list: Order, hash256: Hash)
    requires ValidPsbt(p, hash256) && Serializable(p, list)
    ensures p.version == 0 ==> |p.inputs| == |p.tx.vin| && |p.outputs| == |p.tx.vout|
    ensures AllWritable(INPUT, p.version, NormalPsbt(p).inputs, list)
    ensures AllWritable(OUTPUT, p.version, NormalPsbt(p).outputs, list)
    ensures SerMaps(INPUT, p.version, NormalPsbt(p).inputs, list) == SerMaps(INPUT, p.version, p.inputs, list)
    ensures SerMaps(OUTPUT, p.version, NormalPsbt(p).outputs, list) == SerMaps(OUTPUT, p.version, p.outputs, list)
  {
    hide AllWritable, AllValid, Valid, Writable, NormalAll, SerMaps, FillInputs, FillOutputs, GlobalRecord, InputsValid,
         OutputsValid, Normalized, Fits, AllAgree, NoLocks;
    NormalLengths(p, hash256);
    NormalChecks(p, hash256);
    NormalCount(INPUT, p.version, p.inputs);
    NormalCount(OUTPUT, p.version, p.outputs);
    MapsNormal(INPUT, p.version, p.inputs, list);
    MapsNormal(OUTPUT, p.version, p.outputs, list);
    if p.version == 0 {
      var ins, outs := NormalAll(INPUT, 0, p.inputs), NormalAll(OUTPUT, 0, p.outputs);
      NormalAllTwice(INPUT, 0, p.inputs);
      NormalAllTwice(OUTPUT, 0, p.outputs);
      FilledInputsValid(ins, FillInputs(ins, p.tx.vin), p.tx);
      FilledOutputsValid(outs, FillOutputs(outs, p.tx.vout), p.tx);
      MapsAgree(INPUT, ins, FillInputs(ins, p.tx.vin), list);
      MapsAgree(OUTPUT, outs, FillOutputs(outs, p.tx.vout), list);
    }
  }

  lemma VersionKept(p: Psbt)
    requires ValidGlobals(p) && p.version >= 2
    ensures TX_VERSION in NormalPsbt(p).globals.singles
  {
    hide Valid, NormalAll, Normalized;
    KeptNumbers(p);
  }

  /** A PSBT and its normal form are written as the same bytes. */
  lemma SameBytesNormal(p: Psbt, list: Order, hash256: Hash)
    requires ValidPsbt(p, hash256) && Serializable(p, list)
    ensures p.version == 0 ==> |p.inputs| == |p.tx.vin| && |p.outputs| == |p.tx.vout|
    ensures Serializable(NormalPsbt(p), list) && PsbtBytes(NormalPsbt(p), list) == PsbtBytes(p, list)
  {
    hide AllWritable, Writable, SerMaps, SerMap, GlobalRecord, ValidGlobals, NormalPsbt, InputsValid, OutputsValid;
    NormalLengths(p, hash256);
    FilledTx(p);
    GlobalBytesNormal(p, list);
    MapBytesNormal(p, list, hash256);
    if p.version >= 2 { VersionKept(p); }
  }

  /**
   * Whatever was read: what is read back from its serialization is serialized to the very same bytes, so a second
   * round trip changes nothing.
   */
  lemma SecondRoundTrip(s: Bytes, list: Order, hash256: Hash)
    requires ReadPsbt(s, hash256).Ok? && IsOrder(list) && Serializable(ReadPsbt(s, hash256).value, list)
    requires AllUnambiguous(INPUT, ReadPsbt(s, hash256).value.inputs)
    requires AllFullHashes(OUTPUT, ReadPsbt(s, hash256).value.outputs)
    ensures var written := PsbtBytes(ReadPsbt(s, hash256).value, list);
            var again := ReadPsbt(written, hash256);
            && again.Ok? && Serializable(again.value, list)
            && PsbtBytes(again.value, list) == written && ReadPsbt(PsbtBytes(again.value, list), hash256) == again
  {
    hide ReadPsbt, PsbtBytes, Serializable, AllFullHashes, AllUnambiguous, IsOrder, ValidPsbt, NormalPsbt;
    var p := ReadPsbt(s, hash256).value;
    ReadPsbtIsValid(s, hash256);
    AllFull(p.inputs);
    PsbtRoundTrips(p, list, hash256);
    SameBytesNormal(p, list, hash256);
  }
}
