/** PSBTs by the numbers of their fields: where they begin, what they need, and which transaction they describe. */
module PsbtLayout {
  import opened Python
  import opened Serialize
  import opened TxSpec
  import opened KeyValue
  import opened PsbtCodecs
  import opened PsbtMaps
  import opened PsbtMapsRoundTrip
  import opened PsbtMapReachable
  import opened PsbtFields
  import opened Psbts
  import opened PsbtRoundTrip
  import opened PsbtTheorems
  import opened PsbtConversion

  // ------------------------------------------------------------ the bytes

  /** "psbt" and 0xff, the global map, the maps of the inputs, the maps of the outputs. */
  lemma Layout(p: Psbt, list: Order)
    requires Serializable(p, list)
    ensures PsbtBytes(p, list) == [0x70, 0x73, 0x62, 0x74, 0xff]
         + SerRecords(Records(GLOBAL, p.version, GlobalRecord(p), list)) + [0]
         + SerMaps(INPUT, p.version, p.inputs, list) + SerMaps(OUTPUT, p.version, p.outputs, list)
  {
    hide Records, SerMaps, SerRecords, GlobalRecord;
    var g := SerRecords(Records(GLOBAL, p.version, GlobalRecord(p), list));
    assert PSBT_MAGIC + (g + [0]) == [0x70, 0x73, 0x62, 0x74, 0xff] + g + [0];
  }

  /** What the global map says besides the fields that are kept: the transaction or the counts, and the version. */
  lemma GlobalsWritten(p: Psbt)
    ensures var g := GlobalRecord(p).singles;
            && (p.version == 0 ==> 0x00 in g && g[0x00] == VTx(p.tx) && g.Keys <= {0x00, 0xfb})
            && (p.version != 0 ==> 0x04 in g && g[0x04] == VNum(|p.inputs|) && 0x05 in g && g[0x05] == VNum(|p.outputs|))
            && (p.version != 0 ==> forall t :: t !in {0x04, 0x05, 0xfb} ==>
                  (t in g <==> t in p.globals.singles) && (t in g ==> g[t] == p.globals.singles[t]))
            && (p.version != 0 || p.isExplicit ==> 0xfb in g && g[0xfb] == VNum(p.version))
  {}

  /** The global map has what its version needs and nothing of the other version. */
  predicate GlobalsComplete(g: Fields) {
    if 0xfb !in g.singles || g.singles[0xfb] == VNum(0) then
      0x00 in g.singles && forall t :: 0x02 <= t <= 0x06 ==> t !in g.singles
    else
      g.singles[0xfb].VNum? && g.singles[0xfb].num >= 2 && 0x02 in g.singles && 0x04 in g.singles && 0x05 in g.singles
      && 0x00 !in g.singles
  }

  lemma AllowedIff(g: Fields)
    requires 0xfb in g.singles ==> g.singles[0xfb].VNum? && g.singles[0xfb].num >= 0
    ensures VersionAllows(g) <==> GlobalsComplete(g)
    ensures VersionOf(g) == if 0xfb in g.singles then g.singles[0xfb].num else 0
  {
    var singles := g.singles.Keys;
    assert {TX_VERSION, FALLBACK_LOCKTIME, INPUT_COUNT, OUTPUT_COUNT, TX_MODIFIABLE} !! singles
      <==> 0x02 !in singles && 0x03 !in singles && 0x04 !in singles && 0x05 !in singles && 0x06 !in singles;
    assert {TX_VERSION, INPUT_COUNT, OUTPUT_COUNT} <= singles <==> 0x02 in singles && 0x04 in singles && 0x05 in singles;
  }

  /** Whatever is read begins as a PSBT must, and its global map is complete. */
  lemma ReadNeeds(s: Bytes, hash256: Hash) returns (g: Fields, rest: Bytes)
    requires ReadPsbt(s, hash256).Ok?
    ensures |s| >= 5 && s[..5] == [0x70, 0x73, 0x62, 0x74, 0xff]
    ensures ReadMap(GLOBAL, 0, NO_FIELDS, {}, s[5..]) == Ok((g, rest)) && GlobalsComplete(g)
    ensures ReadPsbt(s, hash256).value.version == if 0xfb in g.singles then g.singles[0xfb].num else 0
  {
    hide ReadMap, ReadMaps, InputCheck, OutputCheck, VersionAllows, VersionOf, GlobalsComplete, FieldsFit, Valid, KindOf;
    g := ReadMap(GLOBAL, 0, NO_FIELDS, {}, s[5..]).value.0;
    rest := ReadMap(GLOBAL, 0, NO_FIELDS, {}, s[5..]).value.1;
    NothingIsValid(GLOBAL);
    ReadIsValid(GLOBAL, 0, NO_FIELDS, {}, s[5..]);
    VersionIsNumber(g);
    AllowedIff(g);
  }

  lemma VersionIsNumber(g: Fields)
    requires Valid(GLOBAL, g)
    ensures 0xfb in g.singles ==> g.singles[0xfb].VNum? && g.singles[0xfb].num >= 0
  {
    hide KeyedValid, OtherValid;
    if 0xfb in g.singles { assert SingleValid(GLOBAL, 0xfb, g.singles[0xfb]); }
  }

  predicate InputComplete(f: Fields, hash256: Hash) {
    && 0x0e in f.singles && f.singles[0x0e].VBytes? && 0x0f in f.singles
    && (0x00 in f.singles ==>
          f.singles[0x00].VTx? && TxFits(f.singles[0x00].tx)
          && hash256(SerPlain(f.singles[0x00].tx)) == f.singles[0x0e].bytes)
  }

  lemma OldInput(p: Psbt, hash256: Hash, i: nat)
    requires ValidPsbt(p, hash256) && i < |p.inputs| && p.version == 0
    ensures p.inputs[i] == FillInput(p.inputs[i], p.tx.vin[i])
  {
    hide Valid, FillInput, Fits, NoLocks, InputsValid, OutputsValid;
    assert p.inputs[i] == FillInputs(p.inputs, p.tx.vin)[i];
  }

  lemma OldOutput(p: Psbt, hash256: Hash, i: nat)
    requires ValidPsbt(p, hash256) && i < |p.outputs| && p.version == 0
    ensures p.outputs[i] == FillOutput(p.outputs[i], p.tx.vout[i])
  {
    hide Valid, FillOutput, Fits, NoLocks, InputsValid, OutputsValid;
    assert p.outputs[i] == FillOutputs(p.outputs, p.tx.vout)[i];
  }

  lemma VersionTwo(p: Psbt, hash256: Hash)
    requires ValidPsbt(p, hash256) && p.version != 0
    ensures p.version >= 2
  {
    hide Valid, InputsValid, OutputsValid;
  }

  /**
   * Inputs and outputs that were read have what they need, and a previous transaction that comes with an input is
   * the one its outpoint names.
   */
  lemma MapsComplete(s: Bytes, hash256: Hash, i: nat)
    requires ReadPsbt(s, hash256).Ok?
    ensures var p := ReadPsbt(s, hash256).value; i < |p.inputs| ==> InputComplete(p.inputs[i], hash256)
    ensures var p := ReadPsbt(s, hash256).value;
            i < |p.outputs| ==> 0x03 in p.outputs[i].singles && (p.version != 0 ==> 0x04 in p.outputs[i].singles)
  {
    hide ReadPsbt, Valid, TxFits, SerPlain, ValidPsbt, FillInputs, FillOutputs;
    ReadPsbtIsValid(s, hash256);
    var p := ReadPsbt(s, hash256).value;
    if p.version != 0 { VersionTwo(p, hash256); }
    if i < |p.inputs| {
      InputsAreValid(p, hash256, i);
      InputNumbers(p.inputs[i]);
      if p.version == 0 { OldInput(p, hash256, i); }
    }
    if i < |p.outputs| {
      OutputsAllowed(p, hash256, i);
      if p.version == 0 { OldOutput(p, hash256, i); }
    }
  }

  lemma OutputsAllowed(p: Psbt, hash256: Hash, i: nat)
    requires ValidPsbt(p, hash256) && i < |p.outputs|
    ensures OutputAllowed(p.version, p.outputs[i])
  {
    hide Valid, InputsValid, ValidGlobals;
  }

  lemma InputsAreValid(p: Psbt, hash256: Hash, i: nat)
    requires ValidPsbt(p, hash256) && i < |p.inputs|
    ensures Valid(INPUT, p.inputs[i]) && InputAllowed(p.version, p.tx.vin, hash256, i, p.inputs[i])
  {
    hide Valid;
  }

  // ------------------------------------------------------------ the transaction

  /** The outpoint of an input by its fields, and its sequence number, the final one if there is none. */
  predicate DescribesInput(f: Fields, x: TxIn) {
    && 0x0e in f.singles && f.singles[0x0e].VBytes? && |f.singles[0x0e].bytes| >= 32
    && x.prevout.hash == FromLe(f.singles[0x0e].bytes[..32])
    && 0x0f in f.singles && f.singles[0x0f] == VNum(x.prevout.n)
    && x.scriptSig == []
    && (if 0x10 in f.singles then f.singles[0x10] == VNum(x.nSequence) else x.nSequence == 0xffff_ffff)
  }

  predicate DescribesOutput(f: Fields, x: TxOut) {
    && 0x03 in f.singles && f.singles[0x03] == VNum(x.nValue)
    && (if 0x04 in f.singles then f.singles[0x04] == VBytes(x.scriptPubKey) else x.scriptPubKey == [])
  }

  predicate DescribesLocks(f: Fields, x: LockTime.Locks) {
    && (if 0x11 in f.singles then x.time.Some? && f.singles[0x11] == VNum(x.time.value) else x.time == None)
    && (if 0x12 in f.singles then x.height.Some? && f.singles[0x12] == VNum(x.height.value) else x.height == None)
  }

  lemma InputNumbers(f: Fields)
    requires Valid(INPUT, f)
    ensures forall t :: (t == 0x0f || t == 0x10 || t == 0x11 || t == 0x12) && t in f.singles ==>
              f.singles[t].VNum? && f.singles[t].num >= 0
    ensures 0x0e in f.singles ==> f.singles[0x0e].VBytes?
  {
    hide KeyedValid, OtherValid, TapsValid, SingleValid;
    forall t | (t == 0x0f || t == 0x10 || t == 0x11 || t == 0x12) && t in f.singles
      ensures f.singles[t].VNum? && f.singles[t].num >= 0
    {
      ValidNumber(t, f.singles[t]);
    }
    if 0x0e in f.singles { ValidTxid(f.singles[0x0e]); }
  }

  lemma ValidNumber(t: nat, x: Value)
    requires SingleValid(INPUT, t, x) && (t == 0x0f || t == 0x10 || t == 0x11 || t == 0x12)
    ensures x.VNum? && x.num >= 0
  {}

  lemma ValidTxid(x: Value)
    requires SingleValid(INPUT, 0x0e, x)
    ensures x.VBytes?
  {}

  lemma InputDescribed(f: Fields)
    requires Valid(INPUT, f)
    ensures TxInOf(f).Ok? ==> DescribesInput(f, TxInOf(f).value)
    ensures DescribesLocks(f, LocksOf(f))
  {
    hide Valid, FromLe;
    InputNumbers(f);
  }

  lemma OutputDescribed(f: Fields)
    requires Valid(OUTPUT, f)
    ensures TxOutOf(f).Ok? ==> DescribesOutput(f, TxOutOf(f).value)
  {
    hide KeyedValid, OtherValid, TapsValid;
    if 0x04 in f.singles { assert SingleValid(OUTPUT, 0x04, f.singles[0x04]); }
  }

  lemma {:induction false} InputsDescribed(fs: seq<Fields>)
    requires AllValid(INPUT, fs) && TxInsOf(fs).Ok?
    ensures |TxInsOf(fs).value| == |fs| && forall i :: 0 <= i < |fs| ==> DescribesInput(fs[i], TxInsOf(fs).value[i])
    decreases |fs|
  {
    hide Valid, TxInOf, DescribesInput;
    if fs != [] {
      InputsDescribed(fs[..|fs| - 1]);
      InputDescribed(fs[|fs| - 1]);
    }
  }

  lemma {:induction false} OutputsDescribed(fs: seq<Fields>)
    requires AllValid(OUTPUT, fs) && TxOutsOf(fs).Ok?
    ensures |TxOutsOf(fs).value| == |fs| && forall i :: 0 <= i < |fs| ==> DescribesOutput(fs[i], TxOutsOf(fs).value[i])
    decreases |fs|
  {
    hide Valid, TxOutOf, DescribesOutput;
    if fs != [] {
      OutputsDescribed(fs[..|fs| - 1]);
      OutputDescribed(fs[|fs| - 1]);
    }
  }

  /**
   * The transaction that a PSBT of version 2 stands for is the one its fields describe, and its lock time is
   * determined from the lock times of the inputs and the fallback.
   */
  lemma UnsignedTxDescribed(p: Psbt, tx: Tx)
    requires p.version != 0 && UnsignedTx(p) == Ok(tx) && AllValid(INPUT, p.inputs) && AllValid(OUTPUT, p.outputs)
    ensures 0x02 in p.globals.singles && p.globals.singles[0x02] == VNum(tx.nVersion) && tx.wit == []
    ensures |tx.vin| == |p.inputs| && forall i :: 0 <= i < |tx.vin| ==> DescribesInput(p.inputs[i], tx.vin[i])
    ensures |tx.vout| == |p.outputs| && forall i :: 0 <= i < |tx.vout| ==> DescribesOutput(p.outputs[i], tx.vout[i])
    ensures LockTime.Determine(AllLocks(p.inputs), NatField(p.globals, 0x03)) == Ok(tx.nLockTime)
    ensures forall i :: 0 <= i < |p.inputs| ==> DescribesLocks(p.inputs[i], AllLocks(p.inputs)[i])
  {
    hide TxInsOf, TxOutsOf, DescribesInput, DescribesOutput, DescribesLocks, LocksOf, LockTime.Determine, Valid, TxFits;
    InputsDescribed(p.inputs);
    OutputsDescribed(p.outputs);
    forall i | 0 <= i < |p.inputs| ensures DescribesLocks(p.inputs[i], AllLocks(p.inputs)[i]) {
      InputDescribed(p.inputs[i]);
    }
  }

  /** A PSBT of version 0 describes its transaction in the same fields. */
  lemma SetUpDescribes(p: Psbt, tx: Tx)
    requires |p.inputs| == |tx.vin| && |p.outputs| == |tx.vout|
    ensures var q := SetupFromTx(p, tx);
            && 0x02 in q.globals.singles && q.globals.singles[0x02] == VNum(tx.nVersion)
            && 0x03 in q.globals.singles && q.globals.singles[0x03] == VNum(tx.nLockTime)
            && |q.inputs| == |tx.vin| && |q.outputs| == |tx.vout|
    ensures forall i :: 0 <= i < |tx.vin| ==> Outpoint(SetupFromTx(p, tx).inputs[i], tx.vin[i])
    ensures forall i :: 0 <= i < |tx.vout| ==> DescribesOutput(SetupFromTx(p, tx).outputs[i], tx.vout[i])
  {
  }

  predicate Outpoint(f: Fields, x: TxIn) {
    && 0x0e in f.singles && f.singles[0x0e] == VBytes(Le(x.prevout.hash, 32))
    && 0x0f in f.singles && f.singles[0x0f] == VNum(x.prevout.n)
    && 0x10 in f.singles && f.singles[0x10] == VNum(x.nSequence)
  }

  // ------------------------------------------------------------ fields that come back

  lemma FillKeeps(f: Fields, x: TxIn, finished: bool, t: nat)
    requires SingleWritten(INPUT, 0, finished, t)
    ensures t in FillInput(f, x).singles <==> t in f.singles
    ensures t in f.singles ==> FillInput(f, x).singles[t] == f.singles[t]
  {}

  lemma FillKeepsKeyed(f: Fields, x: TxIn)
    ensures FillInput(f, x).keyed == f.keyed
  {}

  /**
   * Every field of an input that is written comes back with its value when the PSBT is read again; in particular
   * a finished input keeps its previous outputs, its final scripts and, in version 2, its outpoint.
   */
  lemma InputFieldsComeBack(p: Psbt, list: Order, hash256: Hash, i: nat, t: nat)
    requires ValidPsbt(p, hash256) && Serializable(p, list) && IsOrder(list) && i < |p.inputs|
    requires AllFullHashes(INPUT, p.inputs) && AllFullHashes(OUTPUT, p.outputs) && AllUnambiguous(INPUT, p.inputs)
    ensures ReadPsbt(PsbtBytes(p, list), hash256).Ok?
    ensures var q := ReadPsbt(PsbtBytes(p, list), hash256).value;
            && |q.inputs| == |p.inputs|
            && (t in p.inputs[i].singles && SingleWritten(INPUT, p.version, Finished(p.inputs[i]), t) ==>
                  t in q.inputs[i].singles && SameValue(p.inputs[i].singles[t], q.inputs[i].singles[t]))
            && (t in p.inputs[i].keyed && KeyedWritten(INPUT, Finished(p.inputs[i]), t) && !SortedType(INPUT, t) ==>
                  t in q.inputs[i].keyed && q.inputs[i].keyed[t] == p.inputs[i].keyed[t])
  {
    hide Valid, ReadPsbt, PsbtBytes, Serializable, ValidPsbt, SameValue, Normalized, AllFullHashes, AllUnambiguous, IsOrder,
         InputAllowed, SingleWritten, KeyedWritten, SortedType, FillInput;
    PsbtRoundTrips(p, list, hash256);
    if p.version == 0 && SingleWritten(INPUT, 0, Finished(p.inputs[i]), t) {
      FillKeeps(Normalized(INPUT, 0, p.inputs[i]), p.tx.vin[i], Finished(p.inputs[i]), t);
    }
    if p.version == 0 { FillKeepsKeyed(Normalized(INPUT, 0, p.inputs[i]), p.tx.vin[i]); }
    assert Valid(INPUT, p.inputs[i]) by { InputsAreValid(p, hash256, i); }
    NormalFields(INPUT, p.version, p.inputs[i]);
  }
}
