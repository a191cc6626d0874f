/** Reading a serialized PSBT: every PSBT that was ever read comes back in normal form, and when not. */
module PsbtRoundTrip {
  import opened Python
  import opened Sequences
  import opened Serialize
  import opened TxSpec
  import opened PsbtCodecs
  import opened PsbtMaps
  import opened PsbtMapsRoundTrip
  import opened PsbtMapTheorems
  import opened PsbtMapExact
  import opened PsbtMapReachable
  import opened Psbts

  // ------------------------------------------------------------ PSBTs as reading makes them

  predicate InputsValid(version: nat, vin: seq<TxIn>, fs: seq<Fields>, hash256: Hash) {
    forall i :: 0 <= i < |fs| ==> Valid(INPUT, fs[i]) && InputAllowed(version, vin, hash256, i, fs[i])
  }

  predicate OutputsValid(version: nat, fs: seq<Fields>) {
    forall i :: 0 <= i < |fs| ==> Valid(OUTPUT, fs[i]) && OutputAllowed(version, fs[i])
  }

  predicate NoLocks(fs: seq<Fields>) {
    forall i :: 0 <= i < |fs| ==> TIME_LOCKTIME !in fs[i].singles && HEIGHT_LOCKTIME !in fs[i].singles
  }

  /** Version 0: everything about the transaction is what the unsigned transaction says. */
  predicate ValidOld(p: Psbt) {
    && Fits(CUnsigned, VTx(p.tx))
    && |p.inputs| == |p.tx.vin| && |p.outputs| == |p.tx.vout|
    && p.inputs == FillInputs(p.inputs, p.tx.vin) && p.outputs == FillOutputs(p.outputs, p.tx.vout)
    && p.globals.singles == map[TX_VERSION := VNum(p.tx.nVersion), FALLBACK_LOCKTIME := VNum(p.tx.nLockTime)]
    && Valid(GLOBAL, p.globals.(singles := map[]))
    && NoLocks(p.inputs)
  }

  /** Version 2 and above. */
  predicate ValidNew(p: Psbt) {
    && 2 <= p.version < U32 && p.isExplicit && p.tx == EMPTY
    && TX_VERSION in p.globals.singles && p.globals.singles.Keys <= {TX_VERSION, FALLBACK_LOCKTIME, TX_MODIFIABLE}
    && Valid(GLOBAL, p.globals)
    && |p.inputs| < U64 && |p.outputs| < U64
  }

  predicate ValidGlobals(p: Psbt) {
    if p.version == 0 then ValidOld(p) else ValidNew(p)
  }

  predicate ValidPsbt(p: Psbt, hash256: Hash) {
    && InputsValid(p.version, p.tx.vin, p.inputs, hash256)
    && OutputsValid(p.version, p.outputs)
    && ValidGlobals(p)
  }

  // ------------------------------------------------------------ everything read is valid

  ghost predicate Checked(tb: Table, check: Check, i: nat, fs: seq<Fields>) {
    forall j :: 0 <= j < |fs| ==> Valid(tb, fs[j]) && check(i + j, fs[j])
  }

  lemma CheckedCons(tb: Table, check: Check, i: nat, f: Fields, more: seq<Fields>)
    requires Valid(tb, f) && check(i, f) && Checked(tb, check, i + 1, more)
    ensures Checked(tb, check, i, [f] + more)
  {
    hide Valid;
    forall j | 0 <= j < |[f] + more| ensures Valid(tb, ([f] + more)[j]) && check(i + j, ([f] + more)[j]) {
      if j > 0 {
        assert ([f] + more)[j] == more[j - 1];
        assert check(i + 1 + (j - 1), more[j - 1]);
      }
    }
  }

  lemma {:induction false} MapsReadValid(tb: Table, version: nat, check: Check, n: nat, i: nat, s: Bytes)
    requires i <= n && ReadMaps(tb, version, check, n, i, s).Ok?
    ensures Checked(tb, check, i, ReadMaps(tb, version, check, n, i, s).value.0)
    decreases n - i
  {
    hide ReadMap, Valid, Checked;
    if i < n {
      NothingIsValid(tb);
      ReadIsValid(tb, version, NO_FIELDS, {}, s);
      var (f, rest) := ReadMap(tb, version, NO_FIELDS, {}, s).value;
      MapsReadValid(tb, version, check, n, i + 1, rest);
      CheckedCons(tb, check, i, f, ReadMaps(tb, version, check, n, i + 1, rest).value.0);
    } else {
      NothingChecked(tb, check, i);
    }
  }

  lemma NothingChecked(tb: Table, check: Check, i: nat)
    ensures Checked(tb, check, i, [])
  {}

  predicate AllOld(tb: Table, fs: seq<Fields>) {
    forall i :: 0 <= i < |fs| ==> NoNewFields(tb, fs[i])
  }

  lemma AllOldCons(tb: Table, f: Fields, more: seq<Fields>)
    requires NoNewFields(tb, f) && AllOld(tb, more)
    ensures AllOld(tb, [f] + more)
  {
    hide NoNewFields;
  }

  lemma NoNewStart(tb: Table)
    ensures NoNewFields(tb, NO_FIELDS)
  {}

  lemma {:induction false} MapsReadOld(tb: Table, check: Check, n: nat, i: nat, s: Bytes)
    requires tb != GLOBAL && i <= n && ReadMaps(tb, 0, check, n, i, s).Ok?
    ensures AllOld(tb, ReadMaps(tb, 0, check, n, i, s).value.0)
    decreases n - i
  {
    hide ReadMap, NoNewFields;
    if i < n {
      NoNewStart(tb);
      ReadNoNewFields(tb, NO_FIELDS, {}, s);
      var (f, rest) := ReadMap(tb, 0, NO_FIELDS, {}, s).value;
      MapsReadOld(tb, check, n, i + 1, rest);
      AllOldCons(tb, f, ReadMaps(tb, 0, check, n, i + 1, rest).value.0);
    }
  }

  lemma FilledInput(version: nat, vin: seq<TxIn>, hash256: Hash, i: nat, f: Fields)
    requires Valid(INPUT, f) && InputAllowed(0, vin, hash256, i, f) && i < |vin| && InFits(vin[i])
    ensures var g := FillInput(f, vin[i]); Valid(INPUT, g) && InputAllowed(0, vin, hash256, i, g)
  {
    hide TapsValid, KeyedValid, OtherValid, TxFits, SingleValid;
    var g := FillInput(f, vin[i]);
    OutpointFields(vin[i]);
    forall t | t in g.singles ensures SingleValid(INPUT, t, g.singles[t]) {
      if t !in {PREVIOUS_TXID, OUTPUT_INDEX, SEQUENCE} { assert g.singles[t] == f.singles[t]; }
    }
  }

  lemma OutpointFields(x: TxIn)
    requires InFits(x)
    ensures SingleValid(INPUT, PREVIOUS_TXID, VBytes(Le(x.prevout.hash, U256_BYTES)))
    ensures SingleValid(INPUT, OUTPUT_INDEX, VNum(x.prevout.n)) && SingleValid(INPUT, SEQUENCE, VNum(x.nSequence))
  {
    hide Le;
  }

  lemma FilledOutput(f: Fields, x: TxOut)
    requires Valid(OUTPUT, f) && OutFits(x)
    ensures Valid(OUTPUT, FillOutput(f, x)) && OutputAllowed(0, FillOutput(f, x))
  {
    hide TapsValid, KeyedValid, OtherValid, TxFits, FitsSigned;
    var g := FillOutput(f, x);
    forall t | t in g.singles ensures SingleValid(OUTPUT, t, g.singles[t]) {
      if t !in {AMOUNT, SCRIPT} { assert g.singles[t] == f.singles[t]; }
    }
  }

  /** Filling in twice is filling in once. */
  lemma FilledTwice(f: Fields, x: TxIn, g: Fields, y: TxOut)
    ensures FillInput(FillInput(f, x), x) == FillInput(f, x)
    ensures FillOutput(FillOutput(g, y), y) == FillOutput(g, y)
  {}

  lemma GlobalKinds(t: nat, x: Value)
    requires SingleValid(GLOBAL, t, x)
    ensures t in {UNSIGNED_TX, TX_VERSION, FALLBACK_LOCKTIME, INPUT_COUNT, OUTPUT_COUNT, TX_MODIFIABLE, PSBT_VERSION}
    ensures if t == UNSIGNED_TX then Fits(CUnsigned, x) else x.VNum? && x.num >= 0
    ensures t == INPUT_COUNT || t == OUTPUT_COUNT ==> x.num < U64
    ensures t == TX_VERSION || t == FALLBACK_LOCKTIME || t == PSBT_VERSION ==> x.num < U32
  {}

  lemma KeptGlobalsValid(g: Fields)
    requires Valid(GLOBAL, g)
    ensures Valid(GLOBAL, KeptGlobals(g)) && Valid(GLOBAL, KeptGlobals(g).(singles := map[]))
  {
    hide KindOf, TapsValid, SingleValid, KeyedValid, OtherValid;
  }

  lemma ReadOldIsValid(g: Fields, s: Bytes, hash256: Hash)
    requires Valid(GLOBAL, g) && VersionAllows(g) && VersionOf(g) == 0 && ReadBody(g, s, hash256).Ok?
    ensures ValidPsbt(ReadBody(g, s, hash256).value, hash256)
  {
    hide Valid, ReadMaps, InFits, OutFits, InputAllowed, NoNewFields, UtxoMatches, Checked;
    var tx := TxOf(g);
    assert SingleValid(GLOBAL, UNSIGNED_TX, g.singles[UNSIGNED_TX]) by { ValidSingle(GLOBAL, g, UNSIGNED_TX); }
    GlobalKinds(UNSIGNED_TX, g.singles[UNSIGNED_TX]);
    var check := InputCheck(0, tx.vin, hash256);
    var (inputs, rest) := ReadMaps(INPUT, 0, check, |tx.vin|, 0, s).value;
    var (outputs, _) := ReadMaps(OUTPUT, 0, OutputCheck(0), |tx.vout|, 0, rest).value;
    ReadMapsCount(INPUT, 0, check, |tx.vin|, 0, s);
    ReadMapsCount(OUTPUT, 0, OutputCheck(0), |tx.vout|, 0, rest);
    MapsReadValid(INPUT, 0, check, |tx.vin|, 0, s);
    MapsReadValid(OUTPUT, 0, OutputCheck(0), |tx.vout|, 0, rest);
    MapsReadOld(INPUT, check, |tx.vin|, 0, s);
    var p := ReadBody(g, s, hash256).value;
    assert p.tx == tx && p.inputs == FillInputs(inputs, tx.vin) && p.outputs == FillOutputs(outputs, tx.vout);
    OldInputs(tx, inputs, hash256);
    OldOutputs(tx, outputs);
    KeptGlobalsValid(g);
    assert KeptGlobals(g).singles == map[];
  }

  lemma ValidSingle(tb: Table, f: Fields, t: nat)
    requires Valid(tb, f) && t in f.singles
    ensures SingleValid(tb, t, f.singles[t])
  {
    hide SingleValid;
  }

  lemma OldInputs(tx: Tx, fs: seq<Fields>, hash256: Hash)
    requires Fits(CUnsigned, VTx(tx)) && |fs| == |tx.vin|
    requires Checked(INPUT, InputCheck(0, tx.vin, hash256), 0, fs) && AllOld(INPUT, fs)
    ensures InputsValid(0, tx.vin, FillInputs(fs, tx.vin), hash256)
    ensures FillInputs(FillInputs(fs, tx.vin), tx.vin) == FillInputs(fs, tx.vin) && NoLocks(FillInputs(fs, tx.vin))
  {
    hide Valid, InFits, OutFits, InputAllowed, FillInput, NoNewFields;
    forall i | 0 <= i < |fs|
      ensures Valid(INPUT, FillInput(fs[i], tx.vin[i]))
      ensures InputAllowed(0, tx.vin, hash256, i, FillInput(fs[i], tx.vin[i]))
      ensures FillInput(FillInput(fs[i], tx.vin[i]), tx.vin[i]) == FillInput(fs[i], tx.vin[i])
      ensures TIME_LOCKTIME !in FillInput(fs[i], tx.vin[i]).singles && HEIGHT_LOCKTIME !in FillInput(fs[i], tx.vin[i]).singles
    {
      assert InputCheck(0, tx.vin, hash256)(0 + i, fs[i]);
      FilledInput(0, tx.vin, hash256, i, fs[i]);
      FilledTwice(fs[i], tx.vin[i], fs[i], TxOut(0, []));
      NoLocksFilled(fs[i], tx.vin[i]);
    }
  }

  lemma NoLocksFilled(f: Fields, x: TxIn)
    requires NoNewFields(INPUT, f)
    ensures TIME_LOCKTIME !in FillInput(f, x).singles && HEIGHT_LOCKTIME !in FillInput(f, x).singles
  {}

  lemma OldOutputs(tx: Tx, fs: seq<Fields>)
    requires Fits(CUnsigned, VTx(tx)) && |fs| == |tx.vout|
    requires Checked(OUTPUT, OutputCheck(0), 0, fs)
    ensures OutputsValid(0, FillOutputs(fs, tx.vout))
    ensures FillOutputs(FillOutputs(fs, tx.vout), tx.vout) == FillOutputs(fs, tx.vout)
  {
    hide Valid, InFits, OutFits, FillOutput;
    forall i | 0 <= i < |fs|
      ensures Valid(OUTPUT, FillOutput(fs[i], tx.vout[i])) && OutputAllowed(0, FillOutput(fs[i], tx.vout[i]))
      ensures FillOutput(FillOutput(fs[i], tx.vout[i]), tx.vout[i]) == FillOutput(fs[i], tx.vout[i])
    {
      FilledOutput(fs[i], tx.vout[i]);
      FilledTwice(fs[i], TxIn(OutPoint(0, 0), [], 0), fs[i], tx.vout[i]);
    }
  }

  lemma ReadNewIsValid(g: Fields, s: Bytes, hash256: Hash)
    requires Valid(GLOBAL, g) && VersionAllows(g) && VersionOf(g) != 0 && ReadBody(g, s, hash256).Ok?
    ensures ValidPsbt(ReadBody(g, s, hash256).value, hash256)
  {
    hide Valid, ReadMaps, InputAllowed, Checked, InputsValid, OutputsValid;
    var v := VersionOf(g);
    forall t | t in g.singles ensures SingleValid(GLOBAL, t, g.singles[t]) { ValidSingle(GLOBAL, g, t); }
    GlobalKinds(PSBT_VERSION, g.singles[PSBT_VERSION]);
    GlobalKinds(INPUT_COUNT, g.singles[INPUT_COUNT]);
    GlobalKinds(OUTPUT_COUNT, g.singles[OUTPUT_COUNT]);
    var nIn, nOut := g.singles[INPUT_COUNT].num, g.singles[OUTPUT_COUNT].num;
    var check := InputCheck(v, [], hash256);
    var (inputs, rest) := ReadMaps(INPUT, v, check, nIn, 0, s).value;
    var (outputs, _) := ReadMaps(OUTPUT, v, OutputCheck(v), nOut, 0, rest).value;
    ReadMapsCount(INPUT, v, check, nIn, 0, s);
    ReadMapsCount(OUTPUT, v, OutputCheck(v), nOut, 0, rest);
    MapsReadValid(INPUT, v, check, nIn, 0, s);
    MapsReadValid(OUTPUT, v, OutputCheck(v), nOut, 0, rest);
    CheckedInputs(v, [], inputs, hash256);
    CheckedOutputs(v, outputs);
    KeptGlobalsValid(g);
  }

  lemma CheckedInputs(v: nat, vin: seq<TxIn>, fs: seq<Fields>, hash256: Hash)
    requires Checked(INPUT, InputCheck(v, vin, hash256), 0, fs)
    ensures InputsValid(v, vin, fs, hash256)
  {
    hide Valid, InputAllowed;
    forall i | 0 <= i < |fs| ensures Valid(INPUT, fs[i]) && InputAllowed(v, vin, hash256, i, fs[i]) {
      assert InputCheck(v, vin, hash256)(0 + i, fs[i]);
    }
  }

  lemma CheckedOutputs(v: nat, fs: seq<Fields>)
    requires Checked(OUTPUT, OutputCheck(v), 0, fs)
    ensures OutputsValid(v, fs)
  {
    hide Valid, OutputAllowed;
    forall i | 0 <= i < |fs| ensures Valid(OUTPUT, fs[i]) && OutputAllowed(v, fs[i]) {
      assert OutputCheck(v)(0 + i, fs[i]);
    }
  }

  /** Every PSBT that can be read from any bytes is valid. */
  lemma ReadPsbtIsValid(s: Bytes, hash256: Hash)
    requires ReadPsbt(s, hash256).Ok?
    ensures ValidPsbt(ReadPsbt(s, hash256).value, hash256)
  {
    hide Valid, ReadMap, ReadBody, VersionAllows, VersionOf, ValidPsbt;
    NothingIsValid(GLOBAL);
    ReadIsValid(GLOBAL, 0, NO_FIELDS, {}, s[5..]);
    var (g, rest) := ReadMap(GLOBAL, 0, NO_FIELDS, {}, s[5..]).value;
    if VersionOf(g) == 0 {
      ReadOldIsValid(g, rest, hash256);
    } else {
      ReadNewIsValid(g, rest, hash256);
    }
  }

  // ------------------------------------------------------------ reading what was written

  function NormalAll(tb: Table, version: nat, fs: seq<Fields>): (r: seq<Fields>)
    ensures |r| == |fs| && forall i :: 0 <= i < |r| ==> r[i] == Normalized(tb, version, fs[i])
  {
    seq(|fs|, i requires 0 <= i < |fs| => Normalized(tb, version, fs[i]))
  }

  /** The normal form: every map in normal form, and in version 0 filled in from the unsigned transaction again. */
  function NormalPsbt(p: Psbt): Psbt
    requires p.version == 0 ==> |p.inputs| == |p.tx.vin| && |p.outputs| == |p.tx.vout|
  {
    var q := p.(globals := Normalized(GLOBAL, p.version, p.globals),
                inputs := NormalAll(INPUT, p.version, p.inputs),
                outputs := NormalAll(OUTPUT, p.version, p.outputs));
    if p.version == 0 then SetupFromTx(q, p.tx) else q
  }

  predicate AllValid(tb: Table, fs: seq<Fields>) {
    forall i :: 0 <= i < |fs| ==> Valid(tb, fs[i])
  }

  predicate AllFullHashes(tb: Table, fs: seq<Fields>) {
    forall i :: 0 <= i < |fs| ==> FullHashes(tb, fs[i])
  }

  predicate AllUnambiguous(tb: Table, fs: seq<Fields>) {
    forall i :: 0 <= i < |fs| ==> Unambiguous(tb, fs[i])
  }

  ghost predicate NormalChecked(tb: Table, version: nat, check: Check, i: nat, fs: seq<Fields>) {
    forall j :: 0 <= j < |fs| ==> check(i + j, Normalized(tb, version, fs[j]))
  }

  lemma SerMapShape(tb: Table, version: nat, fs: seq<Fields>, list: Order, rest: Bytes)
    requires fs != [] && AllWritable(tb, version, fs, list)
    ensures AllWritable(tb, version, fs[1..], list)
    ensures SerMaps(tb, version, fs, list) + rest == SerMap(tb, version, fs[0], list) + (SerMaps(tb, version, fs[1..], list) + rest)
    ensures SerMaps(tb, version, fs, list) + rest != []
  {
    hide SerMap, FieldsFit, Records;
    var first := SerMap(tb, version, fs[0], list);
    Associate(first, SerMaps(tb, version, fs[1..], list), rest);
    SerMapThere(tb, version, fs[0], list);
    LongerThan(first, SerMaps(tb, version, fs[1..], list) + rest);
  }

  lemma LongerThan(a: Bytes, b: Bytes)
    requires |a| > 0
    ensures a + b != []
  {
    assert |a + b| > 0;
  }

  lemma SerMapThere(tb: Table, version: nat, f: Fields, list: Order)
    requires Writable(tb, version, f, list)
    ensures |SerMap(tb, version, f, list)| > 0
  {
    hide Records, FieldsFit;
  }

  lemma TailNormal(tb: Table, version: nat, check: Check, i: nat, fs: seq<Fields>)
    requires fs != [] && NormalChecked(tb, version, check, i, fs) && AllValid(tb, fs) && AllFullHashes(tb, fs)
    ensures NormalChecked(tb, version, check, i + 1, fs[1..]) && AllValid(tb, fs[1..]) && AllFullHashes(tb, fs[1..])
    ensures check(i, Normalized(tb, version, fs[0])) && Valid(tb, fs[0]) && FullHashes(tb, fs[0])
    ensures AllUnambiguous(tb, fs) <==> Unambiguous(tb, fs[0]) && AllUnambiguous(tb, fs[1..])
    ensures NormalAll(tb, version, fs) == [Normalized(tb, version, fs[0])] + NormalAll(tb, version, fs[1..])
  {
    hide Valid, FullHashes, Unambiguous, Normalized;
    forall j | 0 <= j < |fs[1..]| ensures check(i + 1 + j, Normalized(tb, version, fs[1..][j])) {
      assert check(i + (j + 1), Normalized(tb, version, fs[j + 1]));
    }
    assert check(i + 0, Normalized(tb, version, fs[0]));
    if AllUnambiguous(tb, fs[1..]) && Unambiguous(tb, fs[0]) {
      forall j | 0 <= j < |fs| ensures Unambiguous(tb, fs[j]) {
        if j > 0 { assert fs[j] == fs[1..][j - 1]; }
      }
    }
  }

  /** Reading written maps stops right behind them, and gives normal forms exactly if all are unambiguous. */
  lemma {:induction false} MapsReread(tb: Table, version: nat, check: Check, n: nat, i: nat, fs: seq<Fields>, list: Order,
                                      rest: Bytes)
    requires AllWritable(tb, version, fs, list) && AllValid(tb, fs) && AllFullHashes(tb, fs) && IsOrder(list)
    requires n == i + |fs| && NormalChecked(tb, version, check, i, fs)
    ensures var r := ReadMaps(tb, version, check, n, i, SerMaps(tb, version, fs, list) + rest);
            && (r.Ok? ==> r.value.1 == rest)
            && (r.Ok? && r.value.0 == NormalAll(tb, version, fs) <==> AllUnambiguous(tb, fs))
    decreases |fs|
  {
    hide ReadMap, Writable, Valid, FullHashes, Unambiguous, IsOrder, Normalized, SerMap, AllWritable, AllValid, AllFullHashes,
         NormalChecked, AllUnambiguous;
    var s := SerMaps(tb, version, fs, list) + rest;
    if fs == [] {
      assert s == rest;
      NoneUnambiguous(tb);
    } else {
      TailNormal(tb, version, check, i, fs);
      SerMapShape(tb, version, fs, list, rest);
      FirstWritable(tb, version, fs, list);
      var more := SerMaps(tb, version, fs[1..], list) + rest;
      MapReread(tb, version, fs[0], list, more);
      var h := ReadMap(tb, version, NO_FIELDS, {}, s);
      MapsReread(tb, version, check, n, i + 1, fs[1..], list, rest);
    }
  }

  lemma NoneUnambiguous(tb: Table)
    ensures AllUnambiguous(tb, [])
  {}

  lemma FirstWritable(tb: Table, version: nat, fs: seq<Fields>, list: Order)
    requires fs != [] && AllWritable(tb, version, fs, list)
    ensures Writable(tb, version, fs[0], list)
  {
    hide Writable;
  }

  lemma MapReread(tb: Table, version: nat, f: Fields, list: Order, rest: Bytes)
    requires Valid(tb, f) && FullHashes(tb, f) && Writable(tb, version, f, list) && IsOrder(list)
    ensures var r := ReadMap(tb, version, NO_FIELDS, {}, SerMap(tb, version, f, list) + rest);
            && (r.Ok? ==> r.value.1 == rest)
            && (r == Ok((Normalized(tb, version, f), rest)) <==> Unambiguous(tb, f))
  {
    hide ReadMap, Valid, FullHashes, Unambiguous, IsOrder, Normalized, SerMap, FieldsFit, Records, Reread;
    ReadsWritten(tb, version, f, list, rest);
    RereadsExactly(tb, version, f, list);
  }
}
