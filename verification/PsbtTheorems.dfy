/** The round trip of whole PSBTs. */
module PsbtTheorems {
  import opened Python
  import opened Serialize
  import opened TxSpec
  import opened KeyValue
  import opened Dicts
  import opened PsbtCodecs
  import opened PsbtMaps
  import opened PsbtMapsRoundTrip
  import opened PsbtMapExact
  import opened PsbtMapReachable
  import opened Psbts
  import opened PsbtRoundTrip

  // ------------------------------------------------------------ the global map

  lemma AdmittedAnyVersion(version: nat, f: Fields, seen: set<Bytes>, key: Bytes, s: Bytes)
    requires key != []
    ensures ReadRecord(GLOBAL, version, f, seen, key, s) == ReadRecord(GLOBAL, 0, f, seen, key, s)
  {
    hide KindOf, TypeOf, ReadValue, Store, Keys;
  }

  /** The global map is read alike in all versions: its checks come later. */
  lemma {:induction false} GlobalAnyVersion(version: nat, f: Fields, seen: set<Bytes>, s: Bytes)
    ensures ReadMap(GLOBAL, version, f, seen, s) == ReadMap(GLOBAL, 0, f, seen, s)
    decreases |s|
  {
    hide ReadString, ReadRecord;
    ReadStringBound(s);
    if ReadString(s).Ok? && ReadString(s).value.0 != [] {
      var (key, s1) := ReadString(s).value;
      AdmittedAnyVersion(version, f, seen, key, s1);
      ReadRecordBound(GLOBAL, 0, f, seen, key, s1);
      if ReadRecord(GLOBAL, 0, f, seen, key, s1).Ok? {
        var (g, rest) := ReadRecord(GLOBAL, 0, f, seen, key, s1).value;
        GlobalAnyVersion(version, g, seen + {key}, rest);
      }
    }
  }

  lemma NumberFields(version: nat, n: nat, m: nat)
    requires version < U32 && n < U64 && m < U64
    ensures SingleValid(GLOBAL, PSBT_VERSION, VNum(version))
    ensures SingleValid(GLOBAL, INPUT_COUNT, VNum(n)) && SingleValid(GLOBAL, OUTPUT_COUNT, VNum(m))
  {}

  lemma UnsignedField(tx: Tx)
    requires Fits(CUnsigned, VTx(tx))
    ensures SingleValid(GLOBAL, UNSIGNED_TX, VTx(tx)) && NormalValue(VTx(tx)) == VTx(tx)
  {
    hide TxFits;
    assert tx.(wit := []) == tx;
  }

  lemma GlobalRecordValid(p: Psbt)
    requires ValidGlobals(p)
    ensures Valid(GLOBAL, GlobalRecord(p))
  {
    hide KindOf, SingleValid, KeyedValid, OtherValid, TapsValid, InputsValid, OutputsValid, Fits, FillInputs, FillOutputs;
    var g := GlobalRecord(p);
    if p.version == 0 {
      UnsignedField(p.tx);
      NumberFields(0, 0, 0);
    } else {
      NumberFields(p.version, |p.inputs|, |p.outputs|);
    }
    forall t | t in g.singles ensures SingleValid(GLOBAL, t, g.singles[t]) {}
  }

  lemma GlobalKeyed(t: nat, x: Value)
    requires KindOf(GLOBAL, t).Keyed? && Fits(KindOf(GLOBAL, t).codec, x)
    ensures Plain(x)
  {}

  lemma GlobalUnambiguous(g: Fields)
    requires Valid(GLOBAL, g)
    ensures Unambiguous(GLOBAL, g)
  {
    hide KindOf, Fits, SingleValid, Plain, OtherValid, TapsValid, PlainSingle;
    forall t | t in g.singles ensures PlainSingle(GLOBAL, t, g.singles[t]) {
      if !PlainSingle(GLOBAL, t, g.singles[t]) { OnlyUtxo(GLOBAL, t, g.singles[t]); }
    }
    forall t, i | t in g.keyed && 0 <= i < |g.keyed[t]| ensures Plain(g.keyed[t][i].1) {
      GlobalKeyed(t, g.keyed[t][i].1);
    }
  }

  lemma GlobalReads(version: nat, g: Fields, list: Order, rest: Bytes)
    requires Valid(GLOBAL, g) && Writable(GLOBAL, version, g, list) && IsOrder(list)
    ensures ReadMap(GLOBAL, 0, NO_FIELDS, {}, SerMap(GLOBAL, version, g, list) + rest)
         == Ok((Normalized(GLOBAL, version, g), rest))
  {
    hide ReadMap, Valid, Writable, IsOrder, Normalized, SerMap, Unambiguous;
    GlobalUnambiguous(g);
    assert FullHashes(GLOBAL, g) by { UnambiguousFull(GLOBAL, g); }
    MapReread(GLOBAL, version, g, list, rest);
    GlobalAnyVersion(version, NO_FIELDS, {}, SerMapOf(version, g, list, rest));
  }

  function SerMapOf(version: nat, g: Fields, list: Order, rest: Bytes): Bytes
    requires Writable(GLOBAL, version, g, list)
  {
    SerMap(GLOBAL, version, g, list) + rest
  }

  lemma UnambiguousFull(tb: Table, f: Fields)
    requires Unambiguous(tb, f)
    ensures FullHashes(tb, f)
  {
    hide FullHashes, PlainSingle, BlocksApart, Final;
  }

  lemma NumberKept(version: nat, t: nat, x: Value)
    requires SingleValid(GLOBAL, t, x) && (if version == 0 then t in {UNSIGNED_TX, PSBT_VERSION} else t != UNSIGNED_TX && version >= 2)
    ensures forall f :: KeptSingle(GLOBAL, version, f, t)
    ensures t != UNSIGNED_TX ==> NormalValue(x) == x
  {}

  /** The written global fields survive normalizing. */
  lemma GlobalSingles(p: Psbt)
    requires ValidGlobals(p)
    ensures Normalized(GLOBAL, p.version, GlobalRecord(p)).singles == GlobalRecord(p).singles
  {
    hide KindOf, SingleValid, KeyedValid, OtherValid, TapsValid, InputsValid, OutputsValid, Fits, FillInputs, FillOutputs,
         NormalTx, KeptSingle, SortDict, Ordered;
    var g := GlobalRecord(p);
    GlobalRecordValid(p);
    forall t | t in g.singles ensures KeptSingle(GLOBAL, p.version, g, t) && NormalValue(g.singles[t]) == g.singles[t] {
      NumberKept(p.version, t, g.singles[t]);
      if t == UNSIGNED_TX { UnsignedField(p.tx); }
    }
  }

  lemma GlobalsNormal(p: Psbt)
    requires ValidGlobals(p)
    ensures var ng := Normalized(GLOBAL, p.version, GlobalRecord(p));
            && VersionAllows(ng) && VersionOf(ng) == p.version && TxOf(ng) == p.tx
            && (PSBT_VERSION in ng.singles <==> p.isExplicit)
            && CountOf(ng, INPUT_COUNT, |p.tx.vin|) == |p.inputs|
            && CountOf(ng, OUTPUT_COUNT, |p.tx.vout|) == |p.outputs|
            && KeptGlobals(ng) == Normalized(GLOBAL, p.version, p.globals)
  {
    hide Valid, InputsValid, OutputsValid, Fits, FillInputs, FillOutputs, SortDict, Ordered;
    GlobalSingles(p);
    var ng := Normalized(GLOBAL, p.version, GlobalRecord(p));
    KeptNormal(p);
  }

  lemma KeptNormal(p: Psbt)
    requires ValidGlobals(p)
    ensures KeptGlobals(Normalized(GLOBAL, p.version, GlobalRecord(p))) == Normalized(GLOBAL, p.version, p.globals)
  {
    hide Valid, InputsValid, OutputsValid, Fits, FillInputs, FillOutputs, SortDict, Ordered, NormalValue;
    var a := KeptGlobals(Normalized(GLOBAL, p.version, GlobalRecord(p)));
    var b := Normalized(GLOBAL, p.version, p.globals);
    assert a.singles == b.singles;
    assert a.keyed == b.keyed;
  }

  // ------------------------------------------------------------ checks on normal forms

  lemma KeptTypes(version: nat, f: Fields)
    ensures KeptSingle(INPUT, version, f, NON_WITNESS_UTXO)
    ensures version >= 2 ==> KeptSingle(INPUT, version, f, PREVIOUS_TXID) && KeptSingle(INPUT, version, f, OUTPUT_INDEX)
  {}

  lemma NormalInputAllowed(version: nat, vin: seq<TxIn>, hash256: Hash, i: nat, f: Fields)
    requires InputAllowed(version, vin, hash256, i, f)
    ensures InputAllowed(version, vin, hash256, i, Normalized(INPUT, version, f))
  {
    hide Valid, SortDict, Ordered, KeptSingle, NormalTx, TxFits, SerPlain;
    var g := Normalized(INPUT, version, f);
    KeptTypes(version, f);
    if NON_WITNESS_UTXO in f.singles { SamePlain(f.singles[NON_WITNESS_UTXO]); }
  }

  lemma SamePlain(x: Value)
    requires x.VTx? && TxFits(x.tx)
    ensures NormalValue(x).VTx? && TxFits(NormalValue(x).tx) && SerPlain(NormalValue(x).tx) == SerPlain(x.tx)
  {
    hide InFits, OutFits;
    ResizedFits(x.tx);
  }

  lemma NormalOutputAllowed(version: nat, f: Fields)
    requires OutputAllowed(version, f)
    ensures OutputAllowed(version, Normalized(OUTPUT, version, f))
  {
    hide NormalValue, SortDict, Ordered;
  }

  lemma NormalChecks(p: Psbt, hash256: Hash)
    requires ValidPsbt(p, hash256)
    ensures NormalChecked(INPUT, p.version, InputCheck(p.version, p.tx.vin, hash256), 0, p.inputs)
    ensures NormalChecked(OUTPUT, p.version, OutputCheck(p.version), 0, p.outputs)
    ensures AllValid(INPUT, p.inputs) && AllValid(OUTPUT, p.outputs)
  {
    hide Valid, InputAllowed, OutputAllowed, Normalized, ValidOld;
    forall j | 0 <= j < |p.inputs|
      ensures InputCheck(p.version, p.tx.vin, hash256)(0 + j, Normalized(INPUT, p.version, p.inputs[j]))
    {
      NormalInputAllowed(p.version, p.tx.vin, hash256, j, p.inputs[j]);
    }
    forall j | 0 <= j < |p.outputs| ensures OutputCheck(p.version)(0 + j, Normalized(OUTPUT, p.version, p.outputs[j])) {
      NormalOutputAllowed(p.version, p.outputs[j]);
    }
  }

  lemma OutputsUnambiguous(fs: seq<Fields>)
    requires AllValid(OUTPUT, fs) && AllFullHashes(OUTPUT, fs)
    ensures AllUnambiguous(OUTPUT, fs)
  {
    hide KindOf, SingleValid, KeyedValid, OtherValid, TapsValid, PlainSingle, FullHashes;
    forall i | 0 <= i < |fs| ensures Unambiguous(OUTPUT, fs[i]) {
      forall t | t in fs[i].singles ensures PlainSingle(OUTPUT, t, fs[i].singles[t]) {
        if !PlainSingle(OUTPUT, t, fs[i].singles[t]) { OnlyUtxo(OUTPUT, t, fs[i].singles[t]); }
      }
    }
  }

  // ------------------------------------------------------------ filling in is one-to-one on what version 0 reads

  lemma FillInjective(f: Fields, g: Fields, x: TxIn)
    requires NoNewFields(INPUT, f) && NoNewFields(INPUT, g) && FillInput(f, x) == FillInput(g, x)
    ensures f == g
  {
    var a, b := FillInput(f, x), FillInput(g, x);
    forall t ensures t in f.singles <==> t in g.singles { assert t in a.singles <==> t in b.singles; }
    forall t | t in f.singles ensures f.singles[t] == g.singles[t] { assert a.singles[t] == b.singles[t]; }
    assert f.singles == g.singles;
  }

  lemma NormalIsOld(tb: Table, f: Fields)
    ensures NoNewFields(tb, Normalized(tb, 0, f))
  {
    hide KindOf, NormalValue, Ordered, SortDict;
  }

  lemma NormalAllOld(tb: Table, fs: seq<Fields>)
    ensures AllOld(tb, NormalAll(tb, 0, fs))
  {
    hide Normalized, NoNewFields;
    forall i | 0 <= i < |fs| ensures NoNewFields(tb, NormalAll(tb, 0, fs)[i]) { NormalIsOld(tb, fs[i]); }
  }

  lemma FillInputsInjective(fs: seq<Fields>, gs: seq<Fields>, vin: seq<TxIn>)
    requires |fs| == |gs| == |vin| && AllOld(INPUT, fs) && AllOld(INPUT, gs) && FillInputs(fs, vin) == FillInputs(gs, vin)
    ensures fs == gs
  {
    hide FillInput, NoNewFields;
    forall i | 0 <= i < |fs| ensures fs[i] == gs[i] {
      assert FillInputs(fs, vin)[i] == FillInputs(gs, vin)[i];
      FillInjective(fs[i], gs[i], vin[i]);
    }
  }

  // ------------------------------------------------------------ the theorem

  /** The maps behind the global one as they are read again. */
  lemma BodyReads(p: Psbt, list: Order, hash256: Hash)
    returns (rin: Result<(seq<Fields>, Bytes)>, rout: Result<(seq<Fields>, Bytes)>)
    requires ValidPsbt(p, hash256) && Serializable(p, list) && IsOrder(list)
    requires AllFullHashes(INPUT, p.inputs) && AllFullHashes(OUTPUT, p.outputs)
    ensures var outs := SerMaps(OUTPUT, p.version, p.outputs, list);
            && rin == ReadMaps(INPUT, p.version, InputCheck(p.version, p.tx.vin, hash256), |p.inputs|, 0,
                               SerMaps(INPUT, p.version, p.inputs, list) + outs)
            && rout == ReadMaps(OUTPUT, p.version, OutputCheck(p.version), |p.outputs|, 0, outs)
            && (rin.Ok? ==> rin.value.1 == outs)
    ensures rin.Ok? && rin.value.0 == NormalAll(INPUT, p.version, p.inputs) <==> AllUnambiguous(INPUT, p.inputs)
    ensures rout.Ok? && rout.value.0 == NormalAll(OUTPUT, p.version, p.outputs)
  {
    hide ValidPsbt, IsOrder, AllFullHashes, AllUnambiguous, NormalAll, AllWritable, Writable, NormalChecked, AllValid,
         ReadMaps, SerMaps, InputCheck, OutputCheck;
    var outs := SerMaps(OUTPUT, p.version, p.outputs, list);
    NormalChecks(p, hash256);
    OutputsUnambiguous(p.outputs);
    assert outs + [] == outs;
    rin := ReadMaps(INPUT, p.version, InputCheck(p.version, p.tx.vin, hash256), |p.inputs|, 0,
                    SerMaps(INPUT, p.version, p.inputs, list) + outs);
    rout := ReadMaps(OUTPUT, p.version, OutputCheck(p.version), |p.outputs|, 0, outs);
    MapsReread(INPUT, p.version, InputCheck(p.version, p.tx.vin, hash256), |p.inputs|, 0, p.inputs, list, outs);
    MapsReread(OUTPUT, p.version, OutputCheck(p.version), |p.outputs|, 0, p.outputs, list, []);
  }

  lemma BytesShape(p: Psbt, list: Order) returns (body: Bytes)
    requires Serializable(p, list)
    ensures body == SerMaps(INPUT, p.version, p.inputs, list) + SerMaps(OUTPUT, p.version, p.outputs, list)
    ensures var s := PsbtBytes(p, list);
            |s| >= 5 && s[..5] == PSBT_MAGIC && s[5..] == SerMap(GLOBAL, p.version, GlobalRecord(p), list) + body
  {
    hide FieldsFit, Records, AllWritable, SerMaps, SerMap, GlobalRecord;
    body := SerMaps(INPUT, p.version, p.inputs, list) + SerMaps(OUTPUT, p.version, p.outputs, list);
    MagicShape(SerMap(GLOBAL, p.version, GlobalRecord(p), list), SerMaps(INPUT, p.version, p.inputs, list),
               SerMaps(OUTPUT, p.version, p.outputs, list));
  }

  lemma MagicShape(a: Bytes, b: Bytes, c: Bytes)
    ensures var s := PSBT_MAGIC + a + b + c; |s| >= 5 && s[..5] == PSBT_MAGIC && s[5..] == a + (b + c)
  {}

  lemma ReadsBody(p: Psbt, list: Order, hash256: Hash) returns (body: Bytes)
    requires ValidGlobals(p) && Serializable(p, list) && IsOrder(list)
    ensures body == SerMaps(INPUT, p.version, p.inputs, list) + SerMaps(OUTPUT, p.version, p.outputs, list)
    ensures VersionAllows(Normalized(GLOBAL, p.version, GlobalRecord(p)))
    ensures ReadPsbt(PsbtBytes(p, list), hash256) == ReadBody(Normalized(GLOBAL, p.version, GlobalRecord(p)), body, hash256)
  {
    hide ValidGlobals, IsOrder, AllWritable, Writable, ReadMap, SerMap, SerMaps, PsbtBytes, Normalized, GlobalRecord, ReadBody,
         VersionAllows;
    body := BytesShape(p, list);
    GlobalRecordValid(p);
    GlobalReads(p.version, GlobalRecord(p), list, body);
    GlobalsNormal(p);
  }

  lemma PartsValid(p: Psbt, hash256: Hash)
    requires ValidPsbt(p, hash256)
    ensures ValidGlobals(p)
  {
    hide ValidGlobals, InputsValid, OutputsValid;
  }

  lemma NormalLengths(p: Psbt, hash256: Hash)
    requires ValidPsbt(p, hash256)
    ensures p.version == 0 ==> |p.inputs| == |p.tx.vin| && |p.outputs| == |p.tx.vout|
  {
    hide InputsValid, OutputsValid;
  }

  /**
   * Every valid PSBT whose leaf hashes all have their full length, and so every PSBT that was read without cutting
   * one off, comes back in normal form from what it is serialized to, unless an input has a previous transaction
   * without inputs but with outputs, or, not finalized, one control block under two leaf scripts: and then it
   * does not.
   */
  lemma PsbtRoundTrips(p: Psbt, list: Order, hash256: Hash)
    requires ValidPsbt(p, hash256) && Serializable(p, list) && IsOrder(list)
    requires AllFullHashes(INPUT, p.inputs) && AllFullHashes(OUTPUT, p.outputs)
    ensures p.version == 0 ==> |p.inputs| == |p.tx.vin| && |p.outputs| == |p.tx.vout|
    ensures ReadPsbt(PsbtBytes(p, list), hash256) == Ok(NormalPsbt(p)) <==> AllUnambiguous(INPUT, p.inputs)
  {
    hide ValidPsbt, IsOrder, AllFullHashes, AllUnambiguous, NormalAll, AllWritable, Writable, ReadMaps, SerMaps, InputCheck,
         OutputCheck, Normalized, GlobalRecord, PsbtBytes, ReadPsbt, CountOf, VersionOf, TxOf, KeptGlobals, VersionAllows,
         FillInputs, FillOutputs, AllOld;
    NormalLengths(p, hash256);
    assert ValidGlobals(p) by { PartsValid(p, hash256); }
    var body := ReadsBody(p, list, hash256);
    GlobalsNormal(p);
    var rin, rout := BodyReads(p, list, hash256);
    if p.version == 0 && rin.Ok? {
      ReadMapsCount(INPUT, 0, InputCheck(0, p.tx.vin, hash256), |p.inputs|, 0, body);
      MapsReadOld(INPUT, InputCheck(0, p.tx.vin, hash256), |p.inputs|, 0, body);
      NormalAllOld(INPUT, p.inputs);
      NormalCount(INPUT, 0, p.inputs);
      NormalCount(OUTPUT, 0, p.outputs);
      if FillInputs(rin.value.0, p.tx.vin) == FillInputs(NormalAll(INPUT, 0, p.inputs), p.tx.vin) {
        FillInputsInjective(rin.value.0, NormalAll(INPUT, 0, p.inputs), p.tx.vin);
      }
    }
  }

  lemma NormalCount(tb: Table, version: nat, fs: seq<Fields>)
    ensures |NormalAll(tb, version, fs)| == |fs|
  {}

  // ------------------------------------------------------------ a second round trip changes nothing

  predicate OldType(tb: Table, t: nat) {
    KindOf(tb, t).Single? && KindOf(tb, t).when != V2Only
  }

  /** Fields that differ in what version 0 does not write. */
  ghost predicate AgreeOld(tb: Table, f: Fields, g: Fields) {
    && f.keyed == g.keyed && f.taps == g.taps && f.other == g.other
    && (forall t :: OldType(tb, t) ==> (t in f.singles <==> t in g.singles))
    && (forall t :: OldType(tb, t) && t in f.singles && t in g.singles ==> f.singles[t] == g.singles[t])
  }

  lemma NormalizedAgree(tb: Table, f: Fields, g: Fields)
    requires AgreeOld(tb, f, g)
    ensures Normalized(tb, 0, f) == Normalized(tb, 0, g)
  {
    hide KindOf, NormalValue, Ordered, SortDict, Signing;
    FinalTypes();
    assert Final(tb, f) == Final(tb, g);
    var a, b := Normalized(tb, 0, f), Normalized(tb, 0, g);
    forall t ensures (t in a.singles <==> t in b.singles) && (t in a.singles ==> a.singles[t] == b.singles[t]) {
      assert t in a.singles || t in b.singles ==> OldType(tb, t);
    }
    assert a.singles == b.singles;
    assert a.keyed == b.keyed;
  }

  lemma FinalTypes()
    ensures OldType(INPUT, 0x07) && OldType(INPUT, 0x08)
  {}

  lemma NormalizeFilled(f: Fields, x: TxIn)
    ensures Normalized(INPUT, 0, FillInput(f, x)) == Normalized(INPUT, 0, f)
  {
    hide Normalized;
    NormalizedAgree(INPUT, FillInput(f, x), f);
  }

  lemma NormalizeFilledOutput(f: Fields, x: TxOut)
    ensures Normalized(OUTPUT, 0, FillOutput(f, x)) == Normalized(OUTPUT, 0, f)
  {
    hide Normalized;
    NormalizedAgree(OUTPUT, FillOutput(f, x), f);
  }

  lemma NormalAllTwice(tb: Table, version: nat, fs: seq<Fields>)
    requires AllValid(tb, fs)
    ensures AllValid(tb, NormalAll(tb, version, fs))
    ensures NormalAll(tb, version, NormalAll(tb, version, fs)) == NormalAll(tb, version, fs)
  {
    hide Valid, Normalized;
    forall i | 0 <= i < |fs|
      ensures Valid(tb, NormalAll(tb, version, fs)[i])
      ensures Normalized(tb, version, NormalAll(tb, version, fs)[i]) == NormalAll(tb, version, fs)[i]
    {
      NormalizedTwice(tb, version, fs[i]);
    }
  }

  lemma NormalFilledInputs(fs: seq<Fields>, vin: seq<TxIn>)
    requires |fs| == |vin| && AllValid(INPUT, fs)
    ensures NormalAll(INPUT, 0, FillInputs(fs, vin)) == NormalAll(INPUT, 0, fs)
  {
    hide Valid, Normalized, FillInput;
    forall i | 0 <= i < |fs| ensures NormalAll(INPUT, 0, FillInputs(fs, vin))[i] == NormalAll(INPUT, 0, fs)[i] {
      NormalizeFilled(fs[i], vin[i]);
    }
  }

  lemma NormalFilledOutputs(fs: seq<Fields>, vout: seq<TxOut>)
    requires |fs| == |vout| && AllValid(OUTPUT, fs)
    ensures NormalAll(OUTPUT, 0, FillOutputs(fs, vout)) == NormalAll(OUTPUT, 0, fs)
  {
    hide Valid, Normalized, FillOutput;
    forall i | 0 <= i < |fs| ensures NormalAll(OUTPUT, 0, FillOutputs(fs, vout))[i] == NormalAll(OUTPUT, 0, fs)[i] {
      NormalizeFilledOutput(fs[i], vout[i]);
    }
  }

  lemma NormalGlobalsTwice(version: nat, g: Fields, h: Fields)
    requires Valid(GLOBAL, g.(singles := map[])) && h == Normalized(GLOBAL, version, g)
    requires version >= 2 ==> Valid(GLOBAL, g)
    requires version == 0 ==> g.singles.Keys <= {TX_VERSION, FALLBACK_LOCKTIME}
    ensures Valid(GLOBAL, h.(singles := map[])) && (version >= 2 ==> Valid(GLOBAL, h))
    ensures version == 0 || version >= 2 ==> Normalized(GLOBAL, version, h) == h && (version == 0 ==> h.singles == map[])
  {
    hide Valid, NormalValue, Ordered, SortDict;
    if version >= 2 {
      NormalizedTwice(GLOBAL, version, g);
      WithoutSingles(h);
    } else if version == 0 {
      NormalizedTwice(GLOBAL, version, g.(singles := map[]));
      assert h.singles == map[];
      assert h == Normalized(GLOBAL, version, g.(singles := map[]));
    } else {
      NormalizedTwice(GLOBAL, version, g.(singles := map[]));
      WithoutSingles(Normalized(GLOBAL, version, g.(singles := map[])));
      assert h.(singles := map[]) == Normalized(GLOBAL, version, g.(singles := map[])).(singles := map[]);
    }
  }

  lemma WithoutSingles(h: Fields)
    requires Valid(GLOBAL, h)
    ensures Valid(GLOBAL, h.(singles := map[]))
  {
    hide KindOf, SingleValid, KeyedValid, OtherValid, TapsValid;
  }

  lemma NormalOnceMore(version: nat, g: Fields, tx: Tx)
    requires version == 0 && g.singles == map[]
    ensures Normalized(GLOBAL, 0, g.(singles := g.singles[TX_VERSION := VNum(tx.nVersion)]
                                                         [FALLBACK_LOCKTIME := VNum(tx.nLockTime)]))
         == Normalized(GLOBAL, 0, g)
  {
    hide Normalized;
    NormalizedAgree(GLOBAL, g.(singles := g.singles[TX_VERSION := VNum(tx.nVersion)]
                                                   [FALLBACK_LOCKTIME := VNum(tx.nLockTime)]), g);
  }

  /** The normal form is normal. */
  lemma NormalPsbtTwice(p: Psbt, hash256: Hash)
    requires ValidPsbt(p, hash256)
    ensures p.version == 0 ==> |p.inputs| == |p.tx.vin| && |p.outputs| == |p.tx.vout|
    ensures NormalPsbt(NormalPsbt(p)) == NormalPsbt(p)
  {
    hide Valid, IsOrder, NormalAll, Normalized, InputsValid, OutputsValid, FillInputs, FillOutputs, Fits, NoLocks, AllValid;
    NormalLengths(p, hash256);
    NormalChecks(p, hash256);
    NormalCount(INPUT, p.version, p.inputs);
    NormalCount(OUTPUT, p.version, p.outputs);
    NormalAllTwice(INPUT, p.version, p.inputs);
    NormalAllTwice(OUTPUT, p.version, p.outputs);
    var h := Normalized(GLOBAL, p.version, p.globals);
    if p.version >= 2 { WithoutSingles(p.globals); }
    NormalGlobalsTwice(p.version, p.globals, h);
    if p.version == 0 {
      NormalFilledInputs(NormalAll(INPUT, 0, p.inputs), p.tx.vin);
      NormalFilledOutputs(NormalAll(OUTPUT, 0, p.outputs), p.tx.vout);
      NormalOnceMore(0, h, p.tx);
    }
  }

  lemma AllFull(fs: seq<Fields>)
    requires AllUnambiguous(INPUT, fs)
    ensures AllFullHashes(INPUT, fs)
  {
    hide Unambiguous, FullHashes;
    forall i | 0 <= i < |fs| ensures FullHashes(INPUT, fs[i]) { UnambiguousFull(INPUT, fs[i]); }
  }
}
