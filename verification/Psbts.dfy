/** PSBTs (BIP 174, BIP 370): the global map, the inputs and the outputs as one byte string. */
module Psbts {
  import opened Python
  import opened Serialize
  import opened TxSpec
  import opened KeyValue
  import opened PsbtCodecs
  import opened PsbtMaps

  // ------------------------------------------------------------ field types by name

  const UNSIGNED_TX: nat := 0x00
  const TX_VERSION: nat := 0x02
  const FALLBACK_LOCKTIME: nat := 0x03
  const INPUT_COUNT: nat := 0x04
  const OUTPUT_COUNT: nat := 0x05
  const TX_MODIFIABLE: nat := 0x06
  const PSBT_VERSION: nat := 0xfb

  const NON_WITNESS_UTXO: nat := 0x00
  const PREVIOUS_TXID: nat := 0x0e
  const OUTPUT_INDEX: nat := 0x0f
  const SEQUENCE: nat := 0x10
  const TIME_LOCKTIME: nat := 0x11
  const HEIGHT_LOCKTIME: nat := 0x12

  const AMOUNT: nat := 0x03
  const SCRIPT: nat := 0x04

  /**
   * A PSBT object. `globals` holds what the object keeps of the global map: extended keys, transaction version,
   * fallback lock time, flags and unknown records.
   */
  datatype Psbt = Psbt(
    version: nat,
    isExplicit: bool,
    tx: Tx,
    globals: Fields,
    inputs: seq<Fields>,
    outputs: seq<Fields>)

  // ------------------------------------------------------------ the unsigned transaction in the fields of version 2

  function FillInput(f: Fields, x: TxIn): Fields {
    f.(singles := f.singles[PREVIOUS_TXID := VBytes(Le(x.prevout.hash, U256_BYTES))]
                           [OUTPUT_INDEX := VNum(x.prevout.n)][SEQUENCE := VNum(x.nSequence)])
  }

  function FillOutput(f: Fields, x: TxOut): Fields {
    var singles := f.singles[AMOUNT := VNum(x.nValue)];
    f.(singles := if x.scriptPubKey == [] then singles - {SCRIPT} else singles[SCRIPT := VBytes(x.scriptPubKey)])
  }

  function FillInputs(fs: seq<Fields>, vin: seq<TxIn>): (r: seq<Fields>)
    requires |fs| == |vin|
    ensures |r| == |fs| && forall i :: 0 <= i < |r| ==> r[i] == FillInput(fs[i], vin[i])
  {
    seq(|fs|, i requires 0 <= i < |fs| => FillInput(fs[i], vin[i]))
  }

  function FillOutputs(fs: seq<Fields>, vout: seq<TxOut>): (r: seq<Fields>)
    requires |fs| == |vout|
    ensures |r| == |fs| && forall i :: 0 <= i < |r| ==> r[i] == FillOutput(fs[i], vout[i])
  {
    seq(|fs|, i requires 0 <= i < |fs| => FillOutput(fs[i], vout[i]))
  }

  /** setup_from_tx */
  function SetupFromTx(p: Psbt, tx: Tx): Psbt
    requires |p.inputs| == |tx.vin| && |p.outputs| == |tx.vout|
  {
    p.(globals := p.globals.(singles := p.globals.singles[TX_VERSION := VNum(tx.nVersion)]
                                                         [FALLBACK_LOCKTIME := VNum(tx.nLockTime)]),
       inputs := FillInputs(p.inputs, tx.vin),
       outputs := FillOutputs(p.outputs, tx.vout))
  }

  // ------------------------------------------------------------ reading

  function VersionOf(g: Fields): nat {
    if PSBT_VERSION in g.singles && g.singles[PSBT_VERSION].VNum? && g.singles[PSBT_VERSION].num >= 0 then
      g.singles[PSBT_VERSION].num
    else 0
  }

  function TxOf(g: Fields): Tx {
    if UNSIGNED_TX in g.singles && g.singles[UNSIGNED_TX].VTx? then g.singles[UNSIGNED_TX].tx else EMPTY
  }

  /** A count in the global map, or else the length of the list in the transaction. */
  function CountOf(g: Fields, t: nat, length: nat): nat {
    if t in g.singles && g.singles[t].VNum? && g.singles[t].num >= 0 then g.singles[t].num else length
  }

  /** The fields that a version must have or must not have. */
  predicate VersionAllows(g: Fields) {
    var v := VersionOf(g);
    if v == 0 then
      UNSIGNED_TX in g.singles && {TX_VERSION, FALLBACK_LOCKTIME, INPUT_COUNT, OUTPUT_COUNT, TX_MODIFIABLE} !! g.singles.Keys
    else
      v >= 2 && {TX_VERSION, INPUT_COUNT, OUTPUT_COUNT} <= g.singles.Keys && UNSIGNED_TX !in g.singles
  }

  /** The checks on one map after it has been read, by its position. */
  type Check = (int, Fields) -> bool

  /** The id that the outpoint of an input names, as bytes. */
  function PrevTxid(version: nat, vin: seq<TxIn>, i: int, f: Fields): Bytes {
    if version >= 2 then (if PREVIOUS_TXID in f.singles && f.singles[PREVIOUS_TXID].VBytes? then f.singles[PREVIOUS_TXID].bytes else [])
    else if 0 <= i < |vin| then Le(vin[i].prevout.hash, U256_BYTES)
    else []
  }

  /** A previous transaction that comes with an input is the one its outpoint names. */
  predicate UtxoMatches(f: Fields, prevTxid: Bytes, hash256: Hash) {
    NON_WITNESS_UTXO in f.singles ==>
      var x := f.singles[NON_WITNESS_UTXO];
      x.VTx? && TxFits(x.tx) && hash256(SerPlain(x.tx)) == prevTxid
  }

  predicate InputAllowed(version: nat, vin: seq<TxIn>, hash256: Hash, i: int, f: Fields) {
    && (version >= 2 ==> PREVIOUS_TXID in f.singles && OUTPUT_INDEX in f.singles)
    && UtxoMatches(f, PrevTxid(version, vin, i, f), hash256)
  }

  predicate OutputAllowed(version: nat, f: Fields) {
    version >= 2 ==> AMOUNT in f.singles && SCRIPT in f.singles
  }

  function InputCheck(version: nat, vin: seq<TxIn>, hash256: Hash): Check {
    (i, f) => InputAllowed(version, vin, hash256, i, f)
  }

  function OutputCheck(version: nat): Check {
    (_, f) => OutputAllowed(version, f)
  }

  /** Up to `n` maps, which must all be there. */
  function ReadMaps(tb: Table, version: nat, check: Check, n: nat, i: nat, s: Bytes): Result<(seq<Fields>, Bytes)>
    requires i <= n
    decreases n - i
  {
    if i == n then Ok(([], s))
    else if s == [] then Err(PSBTSerializationError)
    else
      var (f, rest) :- ReadMap(tb, version, NO_FIELDS, {}, s);
      if !check(i, f) then Err(PSBTSerializationError)
      else
        var (more, rest) :- ReadMaps(tb, version, check, n, i + 1, rest);
        Ok(([f] + more, rest))
  }

  lemma {:induction false} ReadMapsCount(tb: Table, version: nat, check: Check, n: nat, i: nat, s: Bytes)
    requires i <= n && ReadMaps(tb, version, check, n, i, s).Ok?
    ensures |ReadMaps(tb, version, check, n, i, s).value.0| == n - i
    decreases n - i
  {
    hide ReadMap;
    if i < n {
      var (f, rest) := ReadMap(tb, version, NO_FIELDS, {}, s).value;
      ReadMapsCount(tb, version, check, n, i + 1, rest);
    }
  }

  /** The global fields that the object keeps. */
  function KeptGlobals(g: Fields): Fields {
    g.(singles := map t | t in g.singles && t in {TX_VERSION, FALLBACK_LOCKTIME, TX_MODIFIABLE} :: g.singles[t])
  }

  /** The maps behind the global one, and the object made of everything. */
  function ReadBody(g: Fields, s: Bytes, hash256: Hash): Result<Psbt>
    requires VersionAllows(g)
  {
    var version := VersionOf(g);
    var tx := TxOf(g);
    var nIn := CountOf(g, INPUT_COUNT, |tx.vin|);
    var nOut := CountOf(g, OUTPUT_COUNT, |tx.vout|);
    var (inputs, rest) :- ReadMaps(INPUT, version, InputCheck(version, tx.vin, hash256), nIn, 0, s);
    var (outputs, _) :- ReadMaps(OUTPUT, version, OutputCheck(version), nOut, 0, rest);
    var p := Psbt(version, PSBT_VERSION in g.singles, tx, KeptGlobals(g), inputs, outputs);
    if version == 0 then
      ReadMapsCount(INPUT, version, InputCheck(version, tx.vin, hash256), nIn, 0, s);
      ReadMapsCount(OUTPUT, version, OutputCheck(version), nOut, 0, rest);
      Ok(SetupFromTx(p, tx))
    else Ok(p)
  }

  /** PSBT.deserialize, behind base64. */
  function ReadPsbt(s: Bytes, hash256: Hash): Result<Psbt> {
    if |s| < 5 || s[..5] != PSBT_MAGIC then Err(PSBTSerializationError)
    else
      var (g, rest) :- ReadMap(GLOBAL, 0, NO_FIELDS, {}, s[5..]);
      if !VersionAllows(g) then Err(PSBTSerializationError) else ReadBody(g, rest, hash256)
  }

  // ------------------------------------------------------------ writing

  /** The global map as it is written. */
  function GlobalRecord(p: Psbt): Fields {
    var singles :=
      if p.version == 0 then map[UNSIGNED_TX := VTx(p.tx)]
      else p.globals.singles[INPUT_COUNT := VNum(|p.inputs|)][OUTPUT_COUNT := VNum(|p.outputs|)];
    p.globals.(singles := if p.version > 0 || p.isExplicit then singles[PSBT_VERSION := VNum(p.version)] else singles)
  }

  predicate Writable(tb: Table, version: nat, f: Fields, list: Order) {
    FieldsFit(tb, f) && RecordsOk(Records(tb, version, f, list))
  }

  predicate AllWritable(tb: Table, version: nat, fs: seq<Fields>, list: Order) {
    forall i :: 0 <= i < |fs| ==> Writable(tb, version, fs[i], list)
  }

  function SerMaps(tb: Table, version: nat, fs: seq<Fields>, list: Order): Bytes
    requires AllWritable(tb, version, fs, list)
  {
    if fs == [] then [] else SerMap(tb, version, fs[0], list) + SerMaps(tb, version, fs[1..], list)
  }

  lemma {:induction false} SerMapsLast(tb: Table, version: nat, fs: seq<Fields>, list: Order)
    requires fs != [] && AllWritable(tb, version, fs, list)
    ensures AllWritable(tb, version, fs[..|fs| - 1], list)
    ensures SerMaps(tb, version, fs, list)
         == SerMaps(tb, version, fs[..|fs| - 1], list) + SerMap(tb, version, fs[|fs| - 1], list)
    decreases |fs|
  {
    hide FieldsFit, Records, SerMap;
    var n := |fs| - 1;
    if n == 0 {
      assert fs[1..] == [] && fs[..0] == [];
      assert SerMaps(tb, version, fs[1..], list) == [];
    } else {
      var more := fs[1..];
      SerMapsLast(tb, version, more, list);
      assert more[..n - 1] == fs[..n][1..] && more[n - 1] == fs[n];
      assert fs[..n][0] == fs[0];
    }
  }

  /** Every number fits its width, every length has a compact size, and version 2 has a transaction version. */
  predicate Serializable(p: Psbt, list: Order) {
    && Writable(GLOBAL, p.version, GlobalRecord(p), list)
    && AllWritable(INPUT, p.version, p.inputs, list)
    && AllWritable(OUTPUT, p.version, p.outputs, list)
    && (p.version >= 2 ==> TX_VERSION in p.globals.singles)
  }

  /** PSBT.serialize, before base64. */
  function PsbtBytes(p: Psbt, list: Order): Bytes
    requires Serializable(p, list)
  {
    PSBT_MAGIC + SerMap(GLOBAL, p.version, GlobalRecord(p), list)
    + SerMaps(INPUT, p.version, p.inputs, list) + SerMaps(OUTPUT, p.version, p.outputs, list)
  }
}
