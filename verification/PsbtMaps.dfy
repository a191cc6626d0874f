/** The key-value maps of PSBTs (BIP 174, 370, 371, 373): what each record type is, reading and writing. */
module PsbtMaps {
  import opened Python
  import opened Serialize
  import opened KeyValue
  import opened Dicts
  import opened PsbtCodecs

  // ------------------------------------------------------------ record types

  datatype Table = INPUT | OUTPUT | GLOBAL

  /** The PSBT versions a field is written in. */
  datatype When = Always | V2Only | V0Only

  datatype Kind =
    | Single(codec: Codec, when: When)                       // the key is the type alone
    | Keyed(lens: set<nat>, byTail: bool, codec: Codec)      // a dictionary over what follows the type
    | TapLeaf                                                // control blocks, grouped by leaf script
    | Other                                                  // kept as it is

  function InputKind(t: nat): Kind {
    if t == 0x00 then Single(CTx, Always)
    else if t == 0x01 then Single(CTxOut, Always)
    else if t == 0x02 then Keyed({34, 66}, true, CRaw)
    else if t == 0x03 then Single(CLooseU32, Always)
    else if t == 0x04 || t == 0x05 || t == 0x07 then Single(CRaw, Always)
    else if t == 0x06 then Keyed({34, 66}, true, COrigin)
    else if t == 0x08 then Single(CStack, Always)
    else if t == 0x0e then Single(CBytes(32, 32), V2Only)
    else if t == 0x0f || t == 0x10 then Single(CU32, V2Only)
    else if t == 0x11 then Single(CTime, V2Only)
    else if t == 0x12 then Single(CHeight, V2Only)
    else if t == 0x13 then Single(CBytes(64, 65), Always)
    else if t == 0x14 then Keyed({65}, false, CBytes(64, 65))
    else if t == 0x15 then TapLeaf
    else if t == 0x16 then Keyed({33}, false, CTapPath)
    else if t == 0x17 || t == 0x18 then Single(CBytes(32, 32), Always)
    else if t == 0x1a then Keyed({34}, false, CPubkeys)
    else if t == 0x1b then Keyed({67, 99}, false, CBytes(66, 66))
    else if t == 0x1c then Keyed({67, 99}, false, CBytes(32, 32))
    else Other
  }

  function OutputKind(t: nat): Kind {
    if t == 0x00 || t == 0x01 || t == 0x06 then Single(CRaw, Always)
    else if t == 0x02 then Keyed({34, 66}, true, COrigin)
    else if t == 0x03 then Single(CI64, V2Only)
    else if t == 0x04 then Single(CRaw, V2Only)
    else if t == 0x05 then Single(CBytes(32, 32), Always)
    else if t == 0x07 then Keyed({33}, false, CTapPath)
    else if t == 0x08 then Keyed({34}, false, CPubkeys)
    else Other
  }

  function GlobalKind(t: nat): Kind {
    if t == 0x00 then Single(CUnsigned, V0Only)
    else if t == 0x01 then Keyed({79}, true, COrigin)
    else if t == 0x02 || t == 0x03 then Single(CU32, V2Only)
    else if t == 0x04 || t == 0x05 then Single(CCount, V2Only)
    else if t == 0x06 then Single(CU8, V2Only)
    else if t == 0xfb then Single(CU32, Always)
    else Other
  }

  function KindOf(tb: Table, t: nat): Kind {
    match tb
    case INPUT => InputKind(t)
    case OUTPUT => OutputKind(t)
    case GLOBAL => GlobalKind(t)
  }

  /** The order in which record types are written. */
  function WriteOrder(tb: Table): seq<nat> {
    match tb
    case INPUT => [0x00, 0x01, 0x02, 0x03, 0x04, 0x05, 0x06, 0x13, 0x14, 0x15, 0x16, 0x17, 0x18, 0x07, 0x08,
                   0x1a, 0x1b, 0x1c, 0x0e, 0x0f, 0x10, 0x11, 0x12]
    case OUTPUT => [0x00, 0x01, 0x02, 0x03, 0x04, 0x05, 0x06, 0x07, 0x08]
    case GLOBAL => [0x00, 0x01, 0x02, 0x03, 0x04, 0x05, 0x06, 0xfb]
  }

  /** What only matters while signing, and is left out of finalized inputs. */
  predicate Signing(tb: Table, t: nat) {
    tb == INPUT && (0x02 <= t <= 0x06 || 0x13 <= t <= 0x18)
  }

  predicate Writes(when: When, version: nat) {
    match when
    case Always => true
    case V2Only => version >= 2
    case V0Only => version == 0
  }

  // ------------------------------------------------------------ fields

  /** A leaf script with its version and the control blocks it can be spent with. */
  datatype TapScript = TapScript(script: Bytes, leafVersion: byte, blocks: set<Bytes>)

  datatype Fields = Fields(
    singles: map<nat, Value>,
    keyed: map<nat, Dict<Value>>,
    taps: seq<TapScript>,
    other: Dict<Bytes>)

  const NO_FIELDS := Fields(map[], map[], [], [])

  function DictOf(f: Fields, t: nat): Dict<Value> {
    if t in f.keyed then f.keyed[t] else []
  }

  /** Empty scripts and empty stacks are what fields hold from the start. */
  predicate Blank(x: Value) {
    x == VBytes([]) || x == VStack([])
  }

  predicate Final(tb: Table, f: Fields) {
    tb == INPUT && (0x07 in f.singles || 0x08 in f.singles)
  }

  /** self.tap_scripts[(script, version)].add(block), with an empty set for a new script. */
  function AddBlock(taps: seq<TapScript>, script: Bytes, leafVersion: byte, block: Bytes): seq<TapScript> {
    if taps == [] then [TapScript(script, leafVersion, {block})]
    else if taps[0].script == script && taps[0].leafVersion == leafVersion then
      [TapScript(script, leafVersion, taps[0].blocks + {block})] + taps[1..]
    else [taps[0]] + AddBlock(taps[1..], script, leafVersion, block)
  }

  // ------------------------------------------------------------ reading

  /** The type that a key starts with. */
  function TypeOf(key: Bytes): Result<nat> {
    var (t, _) :- ReadCompactSize(key);
    Ok(t)
  }

  /** The checks on a key before its value is read. */
  predicate Admitted(tb: Table, version: nat, f: Fields, seen: set<Bytes>, t: nat, key: Bytes)
    requires key != []
  {
    match KindOf(tb, t)
    case Single(_, when) => key !in seen && |key| == 1 && !(tb != GLOBAL && when == V2Only && version == 0)
    case Keyed(lens, byTail, _) =>
      |key| in lens && if byTail then key[1..] !in Keys(DictOf(f, t)) else key !in seen
    case TapLeaf => key !in seen && |key| >= 34 && (|key| - 2) % 32 == 0
    case Other => key !in Keys(f.other)
  }

  /** The value of a record; counts are read past their length, whatever it says. */
  function ReadValue(tb: Table, t: nat, s: Bytes): Result<(Bytes, Bytes)> {
    if KindOf(tb, t).Single? && KindOf(tb, t).codec == CCount then
      var (_, s) :- ReadCompactSize(s);
      var (n, s) :- ReadCompactSize(s);
      if n < U64 then Ok((CompactSize(n), s)) else Err(StructError)
    else ReadString(s)
  }

  function Store(tb: Table, f: Fields, t: nat, key: Bytes, v: Bytes): Result<Fields>
    requires key != []
  {
    match KindOf(tb, t)
    case Single(codec, _) =>
      var x :- Decode(codec, v);
      Ok(if Blank(x) then f else f.(singles := f.singles[t := x]))
    case Keyed(_, _, codec) =>
      var x :- Decode(codec, v);
      Ok(f.(keyed := f.keyed[t := Put(DictOf(f, t), key[1..], x)]))
    case TapLeaf =>
      if v == [] then Err(PSBTSerializationError)
      else Ok(f.(taps := AddBlock(f.taps, v[..|v| - 1], v[|v| - 1], key[1..])))
    case Other => Ok(f.(other := Put(f.other, key, v)))
  }

  /** One record, its key already read: the fields and what follows it. */
  function ReadRecord(tb: Table, version: nat, f: Fields, seen: set<Bytes>, key: Bytes, s: Bytes): Result<(Fields, Bytes)>
    requires key != []
  {
    var t :- TypeOf(key);
    if !Admitted(tb, version, f, seen, t, key) then Err(PSBTSerializationError)
    else
      var (v, rest) :- ReadValue(tb, t, s);
      var g :- Store(tb, f, t, key, v);
      Ok((g, rest))
  }

  lemma ReadRecordBound(tb: Table, version: nat, f: Fields, seen: set<Bytes>, key: Bytes, s: Bytes)
    requires key != []
    ensures ReadRecord(tb, version, f, seen, key, s).Ok? ==> |ReadRecord(tb, version, f, seen, key, s).value.1| < |s|
  {
    hide KindOf, Admitted, Store, TypeOf;
    ReadStringBound(s);
    ReadCompactSizeBound(s);
    if ReadCompactSize(s).Ok? { ReadCompactSizeBound(ReadCompactSize(s).value.1); }
  }

  /** The read loop: up to an empty key, or to a key that cannot be read, which ends the stream. */
  function ReadMap(tb: Table, version: nat, f: Fields, seen: set<Bytes>, s: Bytes): Result<(Fields, Bytes)>
    decreases |s|
  {
    ReadStringBound(s);
    match ReadString(s)
    case Err(_) => Ok((f, []))
    case Ok((key, s)) =>
      if key == [] then Ok((f, s))
      else
        ReadRecordBound(tb, version, f, seen, key, s);
        var (g, rest) :- ReadRecord(tb, version, f, seen, key, s);
        ReadMap(tb, version, g, seen + {key}, rest)
  }

  // ------------------------------------------------------------ writing

  function TypeByte(t: nat): byte
    requires t < 253
  {
    t as byte
  }

  /** Values of dictionaries as decoding makes them. */
  predicate DictFits(codec: Codec, d: Dict<Value>) {
    forall i :: 0 <= i < |d| ==> Fits(codec, d[i].1)
  }

  function KeyedRecords(t: nat, codec: Codec, d: Dict<Value>, list: Order): (r: seq<Record>)
    requires t < 253 && DictFits(codec, d)
    ensures |r| == |d|
  {
    if d == [] then []
    else [([TypeByte(t)] + d[0].0, Encode(codec, d[0].1, list))] + KeyedRecords(t, codec, d[1..], list)
  }

  function BlockRecords(t: nat, blocks: seq<Bytes>, v: Bytes): (r: seq<Record>)
    requires t < 253
    ensures |r| == |blocks|
  {
    if blocks == [] then [] else [([TypeByte(t)] + blocks[0], v)] + BlockRecords(t, blocks[1..], v)
  }

  function TapRecords(t: nat, taps: seq<TapScript>, list: Order): seq<Record>
    requires t < 253
  {
    if taps == [] then []
    else BlockRecords(t, list(taps[0].blocks), taps[0].script + [taps[0].leafVersion]) + TapRecords(t, taps[1..], list)
  }

  /** Fields whose values decoding can have made. */
  predicate FieldsFit(tb: Table, f: Fields) {
    && (forall t :: t in f.singles ==> KindOf(tb, t).Single? && Fits(KindOf(tb, t).codec, f.singles[t]))
    && (forall t :: t in f.keyed ==> KindOf(tb, t).Keyed? && DictFits(KindOf(tb, t).codec, f.keyed[t]))
  }

  /** Dictionaries that the code sorts are brought in order. */
  function InOrder(byTail: bool, d: Dict<Value>): Dict<Value> {
    if byTail then SortDict(d) else d
  }

  lemma InOrderFits(byTail: bool, codec: Codec, d: Dict<Value>)
    requires DictFits(codec, d)
    ensures DictFits(codec, InOrder(byTail, d))
  {
    SortedItems(d);
    forall i | 0 <= i < |InOrder(byTail, d)| ensures Fits(codec, InOrder(byTail, d)[i].1) {
      assert InOrder(byTail, d)[i] in d;
    }
  }

  /** The records of one type. */
  function RecordsOf(tb: Table, version: nat, f: Fields, t: nat, list: Order): seq<Record>
    requires FieldsFit(tb, f) && t < 253
  {
    match KindOf(tb, t)
    case Single(codec, when) =>
      if t in f.singles && Writes(when, version) then [([TypeByte(t)], Encode(codec, f.singles[t], list))] else []
    case Keyed(_, byTail, codec) =>
      InOrderFits(byTail, codec, DictOf(f, t));
      KeyedRecords(t, codec, InOrder(byTail, DictOf(f, t)), list)
    case TapLeaf => TapRecords(t, f.taps, list)
    case Other => []
  }

  /** The records of the types in `ts`, without those that are only for signing if the input is final. */
  function RecordsOfAll(tb: Table, version: nat, f: Fields, ts: seq<nat>, list: Order): seq<Record>
    requires FieldsFit(tb, f) && forall i :: 0 <= i < |ts| ==> ts[i] < 253
  {
    if ts == [] then []
    else
      var t := ts[|ts| - 1];
      RecordsOfAll(tb, version, f, ts[..|ts| - 1], list)
      + (if Final(tb, f) && Signing(tb, t) then [] else RecordsOf(tb, version, f, t, list))
  }

  /** All records of a map, unknown ones last. */
  function Records(tb: Table, version: nat, f: Fields, list: Order): seq<Record>
    requires FieldsFit(tb, f)
  {
    RecordsOfAll(tb, version, f, WriteOrder(tb), list) + SortDict(f.other)
  }

  /** A serialized map: its records and the separator. */
  function SerMap(tb: Table, version: nat, f: Fields, list: Order): Bytes
    requires FieldsFit(tb, f) && RecordsOk(Records(tb, version, f, list))
  {
    SerRecords(Records(tb, version, f, list)) + [0]
  }
}
