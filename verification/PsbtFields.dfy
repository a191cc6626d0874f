/**
 * The record types by their numbers: which fields of a map are written, as which records, which of them come
 * back, and which records are refused.
 */
module PsbtFields {
  import opened Python
  import opened Sequences
  import opened Serialize
  import opened TxSpec
  import opened KeyValue
  import opened Dicts
  import opened PsbtCodecs
  import opened PsbtMaps
  import opened PsbtMapsRoundTrip
  import opened PsbtMapTheorems
  import opened PsbtMapExact

  // ------------------------------------------------------------ what is written

  /** An input with a final scriptSig or a final witness. */
  predicate Finished(f: Fields) {
    0x07 in f.singles || 0x08 in f.singles
  }

  /**
   * The fields under a key of one byte that are written. A finished input keeps its previous outputs and what
   * finishes it; version 2 adds the fields that describe the transaction.
   */
  predicate SingleWritten(tb: Table, version: nat, finished: bool, t: nat) {
    match tb
    case INPUT =>
      || t == 0x00 || t == 0x01 || t == 0x07 || t == 0x08
      || (0x0e <= t <= 0x12 && version >= 2)
      || ((0x03 <= t <= 0x05 || t == 0x13 || t == 0x17 || t == 0x18) && !finished)
    case OUTPUT => t == 0x00 || t == 0x01 || t == 0x05 || t == 0x06 || (0x03 <= t <= 0x04 && version >= 2)
    case GLOBAL => t == 0xfb || (t == 0x00 && version == 0) || (0x02 <= t <= 0x06 && version >= 2)
  }

  predicate KeyedWritten(tb: Table, finished: bool, t: nat) {
    match tb
    case INPUT => 0x1a <= t <= 0x1c || ((t == 0x02 || t == 0x06 || t == 0x14 || t == 0x16) && !finished)
    case OUTPUT => t == 0x02 || t == 0x07 || t == 0x08
    case GLOBAL => t == 0x01
  }

  /** The bytes that a field's value is written as. */
  predicate Spelled(tb: Table, t: nat, x: Value, v: Bytes, list: Order) {
    match x
    case VTx(tx) => TxFits(tx) && v == SerWithWitness(tx)
    case VOut(out) => OutFits(out) && v == SerOut(out)
    case VBytes(b) => v == b
    case VStack(stack) => StackFits(stack) && v == SerStack(stack)
    case VOrigin(o) => v == OriginBytes(o)
    case VPath(hashes, o) => |hashes| < U64 && v == CompactSize(|hashes|) + (Concat(list(hashes)) + OriginBytes(o))
    case VKeys(keys) => v == Concat(keys)
    case VNum(n) =>
      if tb == OUTPUT then v == SignedLe(n, 8)
      else if tb == GLOBAL && (t == 0x04 || t == 0x05) then 0 <= n < U64 && v == CompactSize(n)
      else if tb == GLOBAL && t == 0x06 then n >= 0 && v == Le(n, 1)
      else n >= 0 && v == Le(n, 4)
  }

  /** Records are told apart by the first byte of their keys. */
  predicate StartsWith(key: Bytes, t: nat) {
    key != [] && key[0] as nat == t
  }

  lemma SingleSpelled(tb: Table, t: nat, x: Value, list: Order)
    requires KindOf(tb, t).Single? && PsbtCodecs.Fits(KindOf(tb, t).codec, x)
    ensures Spelled(tb, t, x, Encode(KindOf(tb, t).codec, x, list), list)
  {
    hide TxFits, OutFits, StackFits, SerWithWitness, SerOut, SerStack, OriginBytes, CompactSize, SignedLe;
  }

  lemma KeyedSpelled(tb: Table, t: nat, x: Value, list: Order)
    requires KindOf(tb, t).Keyed? && PsbtCodecs.Fits(KindOf(tb, t).codec, x)
    ensures Spelled(tb, t, x, Encode(KindOf(tb, t).codec, x, list), list)
  {
    hide TxFits, OutFits, StackFits, SerWithWitness, SerOut, SerStack, OriginBytes, CompactSize, SignedLe;
  }

  lemma SingleKind(tb: Table, version: nat, f: Fields, t: nat)
    requires SingleWritten(tb, version, Finished(f), t)
    ensures KindOf(tb, t).Single? && Writes(KindOf(tb, t).when, version) && Kept(tb, f, t)
  {}

  lemma KeyedKind(tb: Table, f: Fields, t: nat)
    requires KeyedWritten(tb, Finished(f), t)
    ensures KindOf(tb, t).Keyed? && Kept(tb, f, t)
  {}

  /** The records of a type that is not left out stand among all records. */
  lemma SectionStands(tb: Table, version: nat, f: Fields, t: nat, list: Order, r: Record)
    requires FieldsFit(tb, f) && t < 253 && !KindOf(tb, t).Other? && Kept(tb, f, t)
    requires r in RecordsOf(tb, version, f, t, list)
    ensures r in Records(tb, version, f, list)
  {
    hide FieldsFit, KindOf, RecordsOf, Records, WriteOrder, Kept;
    OrderCovers(tb, t);
    var n :| 0 <= n < |WriteOrder(tb)| && WriteOrder(tb)[n] == t;
    var before, after := SectionLies(tb, version, f, n, list);
  }

  lemma SingleStands(tb: Table, version: nat, f: Fields, t: nat, list: Order) returns (v: Bytes)
    requires FieldsFit(tb, f) && t in f.singles && SingleWritten(tb, version, Finished(f), t)
    ensures Spelled(tb, t, f.singles[t], v, list)
    ensures ([t as byte], v) in Records(tb, version, f, list)
  {
    hide KindOf, Records, Spelled, Encode, PsbtCodecs.Fits, Kept;
    SingleKind(tb, version, f, t);
    v := Encode(KindOf(tb, t).codec, f.singles[t], list);
    SingleSpelled(tb, t, f.singles[t], list);
    assert RecordsOf(tb, version, f, t, list) == [([TypeByte(t)], v)];
    SectionStands(tb, version, f, t, list, ([TypeByte(t)], v));
  }

  lemma {:induction false} KeyedRecordAt(t: nat, codec: Codec, d: Dict<Value>, i: nat, list: Order)
    requires t < 253 && DictFits(codec, d) && i < |d|
    ensures KeyedRecords(t, codec, d, list)[i] == ([TypeByte(t)] + d[i].0, Encode(codec, d[i].1, list))
  {
    if i > 0 { KeyedRecordAt(t, codec, d[1..], i - 1, list); }
  }

  lemma InOrderHas(byTail: bool, d: Dict<Value>, i: nat) returns (j: nat)
    requires Distinct(d) && i < |d|
    ensures j < |InOrder(byTail, d)| && InOrder(byTail, d)[j] == d[i]
  {
    if byTail {
      SortedItems(d);
      InKeys(d, i);
      j := KeyIndex(SortDict(d), d[i].0);
      var x := SortDict(d)[j];
      assert x in d;
      var k :| 0 <= k < |d| && d[k] == x;
    } else {
      j := i;
    }
  }

  lemma KeyedStands(tb: Table, version: nat, f: Fields, t: nat, i: nat, list: Order) returns (v: Bytes)
    requires FieldsFit(tb, f) && t in f.keyed && Distinct(f.keyed[t]) && i < |f.keyed[t]|
    requires KeyedWritten(tb, Finished(f), t)
    ensures Spelled(tb, t, f.keyed[t][i].1, v, list)
    ensures ([t as byte] + f.keyed[t][i].0, v) in Records(tb, version, f, list)
  {
    hide KindOf, Records, Spelled, Encode, PsbtCodecs.Fits, Kept, InOrder, KeyedRecords;
    KeyedKind(tb, f, t);
    var kind := KindOf(tb, t);
    v := Encode(kind.codec, f.keyed[t][i].1, list);
    KeyedSpelled(tb, t, f.keyed[t][i].1, list);
    var d := InOrder(kind.byTail, f.keyed[t]);
    var j := InOrderHas(kind.byTail, f.keyed[t], i);
    InOrderFits(kind.byTail, kind.codec, f.keyed[t]);
    KeyedRecordAt(t, kind.codec, d, j, list);
    assert RecordsOf(tb, version, f, t, list) == KeyedRecords(t, kind.codec, d, list);
    SectionStands(tb, version, f, t, list, ([TypeByte(t)] + f.keyed[t][i].0, v));
  }

  lemma {:induction false} BlockRecordIs(t: nat, blocks: seq<Bytes>, v: Bytes, b: Bytes)
    requires t < 253 && b in blocks
    ensures ([TypeByte(t)] + b, v) in BlockRecords(t, blocks, v)
  {
    if blocks[0] != b { BlockRecordIs(t, blocks[1..], v, b); }
  }

  lemma {:induction false} TapRecordIs(t: nat, taps: seq<TapScript>, list: Order, i: nat, b: Bytes)
    requires t < 253 && IsOrder(list) && i < |taps| && b in taps[i].blocks
    ensures ([TypeByte(t)] + b, taps[i].script + [taps[i].leafVersion]) in TapRecords(t, taps, list)
  {
    hide BlockRecords;
    if i == 0 {
      BlockRecordIs(t, list(taps[0].blocks), taps[0].script + [taps[0].leafVersion], b);
    } else {
      TapRecordIs(t, taps[1..], list, i - 1, b);
    }
  }

  /** Every control block of an input that is not finished has its record. */
  lemma TapStands(version: nat, f: Fields, i: nat, b: Bytes, list: Order)
    requires FieldsFit(INPUT, f) && IsOrder(list) && !Finished(f) && i < |f.taps| && b in f.taps[i].blocks
    ensures ([0x15] + b, f.taps[i].script + [f.taps[i].leafVersion]) in Records(INPUT, version, f, list)
  {
    hide FieldsFit, Records, IsOrder, TapRecords;
    TapRecordIs(0x15, f.taps, list, i, b);
    SectionStands(INPUT, version, f, 0x15, list, ([0x15] + b, f.taps[i].script + [f.taps[i].leafVersion]));
  }

  lemma OtherStands(tb: Table, version: nat, f: Fields, i: nat, list: Order)
    requires FieldsFit(tb, f) && Distinct(f.other) && i < |f.other|
    ensures f.other[i] in Records(tb, version, f, list)
  {
    hide FieldsFit, RecordsOfAll, SortDict;
    SortedItems(f.other);
    InKeys(f.other, i);
    var j := KeyIndex(SortDict(f.other), f.other[i].0);
    var x := SortDict(f.other)[j];
    assert x in f.other;
    var k :| 0 <= k < |f.other| && f.other[k] == x;
    assert x == f.other[i];
  }

  // ------------------------------------------------------------ nothing else is written

  /** A record of a field that is written. */
  predicate Belongs(tb: Table, version: nat, f: Fields, r: Record) {
    || r in f.other
    || exists t: nat | t < 253 :: StartsWith(r.0, t) &&
         (|| (t in f.singles && SingleWritten(tb, version, Finished(f), t))
          || (t in f.keyed && KeyedWritten(tb, Finished(f), t))
          || (tb == INPUT && t == 0x15 && f.taps != [] && !Finished(f)))
  }

  lemma {:induction false} InSections(tb: Table, version: nat, f: Fields, ts: seq<nat>, list: Order, r: Record)
    returns (t: nat)
    requires FieldsFit(tb, f) && Small(ts) && r in RecordsOfAll(tb, version, f, ts, list)
    ensures t in ts && Kept(tb, f, t) && t < 253 && r in RecordsOf(tb, version, f, t, list)
    decreases |ts|
  {
    hide FieldsFit, RecordsOf, Final, Signing;
    t := ts[|ts| - 1];
    if !(Kept(tb, f, t) && r in RecordsOf(tb, version, f, t, list)) {
      t := InSections(tb, version, f, ts[..|ts| - 1], list, r);
    }
  }

  lemma {:induction false} InKeyedRecords(t: nat, codec: Codec, d: Dict<Value>, list: Order, r: Record)
    requires t < 253 && DictFits(codec, d) && r in KeyedRecords(t, codec, d, list)
    ensures StartsWith(r.0, t) && d != []
  {
    hide Encode;
    if r != KeyedRecords(t, codec, d, list)[0] {
      assert r in KeyedRecords(t, codec, d[1..], list);
      InKeyedRecords(t, codec, d[1..], list, r);
    }
  }

  lemma {:induction false} InBlockRecords(t: nat, blocks: seq<Bytes>, v: Bytes, r: Record)
    requires t < 253 && r in BlockRecords(t, blocks, v)
    ensures StartsWith(r.0, t)
  {
    if r != BlockRecords(t, blocks, v)[0] {
      assert r in BlockRecords(t, blocks[1..], v);
      InBlockRecords(t, blocks[1..], v, r);
    }
  }

  lemma {:induction false} InTapRecords(t: nat, taps: seq<TapScript>, list: Order, r: Record)
    requires t < 253 && r in TapRecords(t, taps, list)
    ensures StartsWith(r.0, t) && taps != []
  {
    hide BlockRecords;
    var v := taps[0].script + [taps[0].leafVersion];
    if r in BlockRecords(t, list(taps[0].blocks), v) {
      InBlockRecords(t, list(taps[0].blocks), v, r);
    } else {
      InTapRecords(t, taps[1..], list, r);
    }
  }

  lemma KindSingle(tb: Table, version: nat, f: Fields, t: nat)
    requires KindOf(tb, t).Single? && Writes(KindOf(tb, t).when, version) && Kept(tb, f, t)
    ensures SingleWritten(tb, version, Finished(f), t)
  {}

  lemma KindKeyed(tb: Table, f: Fields, t: nat)
    requires KindOf(tb, t).Keyed? && Kept(tb, f, t)
    ensures KeyedWritten(tb, Finished(f), t)
  {}

  lemma KindTap(tb: Table, f: Fields, t: nat)
    requires KindOf(tb, t).TapLeaf? && Kept(tb, f, t)
    ensures tb == INPUT && t == 0x15 && !Finished(f)
  {}

  lemma SectionBelongs(tb: Table, version: nat, f: Fields, t: nat, list: Order, r: Record)
    requires FieldsFit(tb, f) && t < 253 && Kept(tb, f, t) && r in RecordsOf(tb, version, f, t, list)
    ensures Belongs(tb, version, f, r)
  {
    hide KindOf, Kept, Encode, KeyedRecords, TapRecords, InOrder, SingleWritten, KeyedWritten, Writes, SortDict,
         PsbtCodecs.Fits;
    match KindOf(tb, t)
    case Single(codec, when) =>
      KindSingle(tb, version, f, t);
      assert StartsWith(r.0, t);
    case Keyed(_, byTail, codec) =>
      KindKeyed(tb, f, t);
      EmptyInOrder(byTail);
      InOrderFits(byTail, codec, DictOf(f, t));
      InKeyedRecords(t, codec, InOrder(byTail, DictOf(f, t)), list, r);
      assert StartsWith(r.0, t);
    case TapLeaf =>
      KindTap(tb, f, t);
      InTapRecords(t, f.taps, list, r);
      assert StartsWith(r.0, t);
    case Other =>
  }

  lemma EmptyInOrder(byTail: bool)
    ensures InOrder(byTail, []) == []
  {
    EmptyRecords(0, byTail, CRaw, s => []);
  }

  /** Every record that is written is that of a field that is written. */
  lemma NothingElse(tb: Table, version: nat, f: Fields, list: Order, r: Record)
    requires FieldsFit(tb, f) && r in Records(tb, version, f, list)
    ensures Belongs(tb, version, f, r)
  {
    hide FieldsFit, RecordsOfAll, RecordsOf, SortDict, WriteOrder, KindOf, Kept, Belongs;
    if r in SortDict(f.other) {
      SortedItems(f.other);
      OtherBelongs(tb, version, f, r);
    } else {
      OrderCovers(tb, 0);
      var t := InSections(tb, version, f, WriteOrder(tb), list, r);
      SectionBelongs(tb, version, f, t, list, r);
    }
  }

  lemma OtherBelongs(tb: Table, version: nat, f: Fields, r: Record)
    requires r in f.other
    ensures Belongs(tb, version, f, r)
  {}

  /** No record of a finished input has a type that matters only while signing, unless reading left it unknown. */
  lemma FinishedDropsSigning(version: nat, f: Fields, list: Order, r: Record, t: nat)
    requires FieldsFit(INPUT, f) && Finished(f) && r in Records(INPUT, version, f, list) && r !in f.other
    requires 0x02 <= t <= 0x06 || 0x13 <= t <= 0x18
    ensures !StartsWith(r.0, t)
  {
    hide FieldsFit, Records;
    NothingElse(INPUT, version, f, list, r);
  }

  // ------------------------------------------------------------ what comes back

  /** Dictionaries over public keys are sorted when they are written. */
  predicate SortedType(tb: Table, t: nat) {
    match tb
    case INPUT => t == 0x02 || t == 0x06
    case OUTPUT => t == 0x02
    case GLOBAL => t == 0x01
  }

  /** A witness list that says nothing is dropped, one that is too short or too long is brought to length. */
  predicate SameValue(x: Value, y: Value) {
    if x.VTx? then
      y.VTx? && y.tx.nVersion == x.tx.nVersion && y.tx.vin == x.tx.vin && y.tx.vout == x.tx.vout
      && y.tx.nLockTime == x.tx.nLockTime
      && (|x.tx.wit| == |x.tx.vin| ==>
            y.tx.wit == x.tx.wit || (y.tx.wit == [] && forall i :: 0 <= i < |x.tx.wit| ==> x.tx.wit[i] == []))
    else y == x
  }

  /** The fields that come back are exactly those that are written, each with its value. */
  lemma NormalFields(tb: Table, version: nat, f: Fields)
    requires Valid(tb, f)
    ensures var g := Normalized(tb, version, f);
            && (forall t :: t in g.singles <==> t in f.singles && SingleWritten(tb, version, Finished(f), t))
            && (forall t :: t in g.singles ==> SameValue(f.singles[t], g.singles[t]))
            && (forall t :: t in g.keyed <==> t in f.keyed && KeyedWritten(tb, Finished(f), t))
            && (forall t :: t in g.keyed ==> g.keyed[t] == if SortedType(tb, t) then SortDict(f.keyed[t]) else f.keyed[t])
            && g.taps == (if tb == INPUT && Finished(f) then [] else f.taps)
            && g.other == SortDict(f.other)
  {
    hide SingleValid, KeyedValid, TapsValid, OtherValid, SortDict, NormalValue, SingleWritten, KeyedWritten, KindOf,
         SameValue, Kept;
    var g := Normalized(tb, version, f);
    forall t ensures t in g.singles <==> t in f.singles && SingleWritten(tb, version, Finished(f), t) {
      NormalSingle(tb, version, f, t);
    }
    forall t | t in g.singles ensures SameValue(f.singles[t], g.singles[t]) {
      NormalIsSame(f.singles[t]);
    }
    forall t
      ensures t in g.keyed <==> t in f.keyed && KeyedWritten(tb, Finished(f), t)
      ensures t in g.keyed ==> g.keyed[t] == if SortedType(tb, t) then SortDict(f.keyed[t]) else f.keyed[t]
    {
      NormalKeyed(tb, f, t);
    }
  }

  lemma NormalSingle(tb: Table, version: nat, f: Fields, t: nat)
    requires t in f.singles ==> SingleValid(tb, t, f.singles[t])
    ensures t in f.singles ==> (KeptSingle(tb, version, f, t) <==> SingleWritten(tb, version, Finished(f), t))
  {
    hide KindOf, Kept, SingleWritten, Writes;
    if t in f.singles {
      if KeptSingle(tb, version, f, t) { KindSingle(tb, version, f, t); }
      if SingleWritten(tb, version, Finished(f), t) { SingleKind(tb, version, f, t); }
    }
  }

  lemma NormalKeyed(tb: Table, f: Fields, t: nat)
    requires t in f.keyed ==> KeyedValid(tb, t, f.keyed[t])
    ensures t in f.keyed ==> (Kept(tb, f, t) <==> KeyedWritten(tb, Finished(f), t))
    ensures t in f.keyed ==> Ordered(tb, t, f.keyed[t]) == if SortedType(tb, t) then SortDict(f.keyed[t]) else f.keyed[t]
  {
    hide SortDict, Kept;
    if t in f.keyed {
      if Kept(tb, f, t) { KindKeyed(tb, f, t); }
      if KeyedWritten(tb, Finished(f), t) { KeyedKind(tb, f, t); }
    }
  }

  lemma NormalIsSame(x: Value)
    ensures SameValue(x, NormalValue(x))
  {
    if x.VTx? && HasWitness(x.tx) && |x.tx.wit| == |x.tx.vin| {
      assert Normal(x.tx).wit == x.tx.wit;
    }
  }

  // ------------------------------------------------------------ what is refused

  predicate KnownType(tb: Table, t: nat) {
    match tb
    case INPUT => t <= 0x08 || 0x0e <= t <= 0x18 || 0x1a <= t <= 0x1c
    case OUTPUT => t <= 0x08
    case GLOBAL => t <= 0x06 || t == 0xfb
  }

  /** How long keys are: a public key of 33 or 65 bytes, an x-only key, a leaf hash, an extended key and so on. */
  predicate KeyLength(tb: Table, t: nat, n: nat) {
    match tb
    case INPUT =>
      if t == 0x02 || t == 0x06 then n == 34 || n == 66
      else if t == 0x14 then n == 65
      else if t == 0x15 then n >= 34 && (n - 2) % 32 == 0
      else if t == 0x16 then n == 33
      else if t == 0x1a then n == 34
      else if t == 0x1b || t == 0x1c then n == 67 || n == 99
      else n == 1
    case OUTPUT =>
      if t == 0x02 then n == 34 || n == 66 else if t == 0x07 then n == 33 else if t == 0x08 then n == 34 else n == 1
    case GLOBAL => if t == 0x01 then n == 79 else n == 1
  }

  /** The fields of version 2 do not stand in inputs and outputs of version 0. */
  predicate InVersion(tb: Table, version: nat, t: nat) {
    match tb
    case INPUT => 0x0e <= t <= 0x12 ==> version != 0
    case OUTPUT => 0x03 <= t <= 0x04 ==> version != 0
    case GLOBAL => true
  }

  /** A key is new if it was not read before; where the code asks its dictionary, if the dictionary lacks it. */
  predicate NewKey(tb: Table, f: Fields, seen: set<Bytes>, t: nat, key: Bytes)
    requires key != []
  {
    if !KnownType(tb, t) then key !in Keys(f.other)
    else if SortedType(tb, t) then key[1..] !in Keys(DictOf(f, t))
    else key !in seen
  }

  /** A key is accepted exactly if its type is not known or allows its length and version, and if it is new. */
  lemma AdmittedIff(tb: Table, version: nat, f: Fields, seen: set<Bytes>, t: nat, key: Bytes)
    requires key != []
    ensures Admitted(tb, version, f, seen, t, key)
       <==> (KnownType(tb, t) ==> KeyLength(tb, t, |key|) && InVersion(tb, version, t)) && NewKey(tb, f, seen, t, key)
  {
    hide Keys, DictOf;
  }

  /** The values that are accepted, apart from what is decoded further. */
  predicate ValueAccepted(tb: Table, t: nat, v: Bytes) {
    match tb
    case INPUT =>
      if t == 0x0e || t == 0x17 || t == 0x18 || t == 0x1c then |v| == 32
      else if t == 0x03 || t == 0x0f || t == 0x10 then |v| == 4
      else if t == 0x11 then |v| == 4 && 500000000 <= FromLe(v)
      else if t == 0x12 then |v| == 4 && 0 < FromLe(v) < 500000000
      else if t == 0x13 || t == 0x14 then |v| == 64 || |v| == 65
      else if t == 0x15 then v != []
      else if t == 0x1a then v != [] && |v| % 33 == 0
      else if t == 0x1b then |v| == 66
      else true
    case OUTPUT =>
      if t == 0x03 then |v| == 8
      else if t == 0x05 then |v| == 32
      else if t == 0x08 then v != [] && |v| % 33 == 0
      else true
    case GLOBAL =>
      if t == 0x02 || t == 0x03 || t == 0xfb then |v| == 4 else if t == 0x06 then |v| == 1 else true
  }

  lemma StoredIsAccepted(tb: Table, f: Fields, t: nat, key: Bytes, v: Bytes)
    requires key != [] && Store(tb, f, t, key, v).Ok?
    ensures ValueAccepted(tb, t, v)
  {
    hide Put, DictOf, Blank, AddBlock, ReadTx, ReadPlain, ReadOut, ReadStack, ReadOrigin, ReadHashes, ReadCompactSize,
         Signed, FromLe, Chunks;
  }

  /** Whatever record is read has a key and a value that its type allows. */
  lemma RecordChecked(tb: Table, version: nat, f: Fields, seen: set<Bytes>, t: nat, key: Bytes, s: Bytes)
    requires key != [] && TypeOf(key) == Ok(t) && KnownType(tb, t) && ReadRecord(tb, version, f, seen, key, s).Ok?
    ensures KeyLength(tb, t, |key|) && InVersion(tb, version, t) && NewKey(tb, f, seen, t, key)
    ensures ReadValue(tb, t, s).Ok? && ValueAccepted(tb, t, ReadValue(tb, t, s).value.0)
  {
    hide TypeOf, Admitted, KeyLength, InVersion, NewKey, ReadValue, Store, ValueAccepted;
    AdmittedIff(tb, version, f, seen, t, key);
    StoredIsAccepted(tb, f, t, key, ReadValue(tb, t, s).value.0);
  }

  // ------------------------------------------------------------ no key twice

  /** A dictionary knows the keys that were read into it. */
  ghost predicate Remembered(tb: Table, f: Fields, seen: set<Bytes>) {
    forall k :: k in seen ==> Remembers(tb, f, k)
  }

  predicate Remembers(tb: Table, f: Fields, key: Bytes) {
    && key != [] && TypeOf(key).Ok?
    && var t := TypeOf(key).value;
       if !KnownType(tb, t) then key in Keys(f.other)
       else SortedType(tb, t) ==> key[1..] in Keys(DictOf(f, t))
  }

  lemma KindsKnown(tb: Table, t: nat)
    ensures KindOf(tb, t).Other? <==> !KnownType(tb, t)
    ensures SortedType(tb, t) ==> KindOf(tb, t).Keyed?
  {}

  lemma {:induction false} PutKeeps<V>(d: Dict<V>, k: Bytes, v: V)
    ensures Keys(Put(d, k, v)) == Keys(d) + {k}
    decreases d
  {
    if d == [] {
      assert [(k, v)][1..] == [];
    } else if d[0].0 == k {
      assert ([(k, v)] + d[1..])[1..] == d[1..];
    } else {
      PutKeeps(d[1..], k, v);
      assert ([d[0]] + Put(d[1..], k, v))[1..] == Put(d[1..], k, v);
    }
  }

  lemma StoreRemembers(tb: Table, f: Fields, t: nat, key: Bytes, v: Bytes, k: Bytes)
    requires key != [] && TypeOf(key) == Ok(t) && Store(tb, f, t, key, v).Ok? && (k == key || Remembers(tb, f, k))
    ensures Remembers(tb, Store(tb, f, t, key, v).value, k)
  {
    hide TypeOf, KindOf, Decode, Put, Keys, KnownType, SortedType, AddBlock, Blank;
    KindsKnown(tb, t);
    match KindOf(tb, t)
    case Single(_, _) =>
    case Keyed(_, _, codec) => PutKeeps(DictOf(f, t), key[1..], Decode(codec, v).value);
    case TapLeaf =>
    case Other => PutKeeps(f.other, key, v);
  }

  lemma ApplyRemembers(tb: Table, version: nat, f: Fields, seen: set<Bytes>, r: Record)
    requires r.0 != [] && Remembered(tb, f, seen) && Apply(tb, version, f, seen, r).Ok?
    ensures r.0 !in seen && Remembered(tb, Apply(tb, version, f, seen, r).value, seen + {r.0})
  {
    hide TypeOf, Admitted, Store, Remembers;
    var t := TypeOf(r.0).value;
    AdmittedIff(tb, version, f, seen, t, r.0);
    if r.0 in seen { assert Remembers(tb, f, r.0); RememberedIsOld(tb, f, seen, t, r.0); }
    forall k | k in seen + {r.0} ensures Remembers(tb, Store(tb, f, t, r.0, r.1).value, k) {
      StoreRemembers(tb, f, t, r.0, r.1, k);
    }
  }

  lemma RememberedIsOld(tb: Table, f: Fields, seen: set<Bytes>, t: nat, key: Bytes)
    requires key in seen && Remembers(tb, f, key) && TypeOf(key) == Ok(t)
    ensures !NewKey(tb, f, seen, t, key)
  {
    hide TypeOf, Keys;
  }

  lemma {:induction false} FoldedApart(tb: Table, version: nat, f: Fields, seen: set<Bytes>, rs: seq<Record>)
    requires KeysThere(rs) && Remembered(tb, f, seen) && Fold(tb, version, f, seen, rs).Ok?
    ensures forall i :: 0 <= i < |rs| ==> rs[i].0 !in seen
    ensures forall i, j :: 0 <= i < j < |rs| ==> rs[i].0 != rs[j].0
    decreases |rs|
  {
    hide Apply, Remembered;
    if rs != [] {
      ApplyRemembers(tb, version, f, seen, rs[0]);
      FoldedApart(tb, version, Apply(tb, version, f, seen, rs[0]).value, seen + {rs[0].0}, rs[1..]);
      forall j | 1 <= j < |rs| ensures rs[j].0 !in seen && rs[j].0 != rs[0].0 {
        assert rs[1..][j - 1] == rs[j];
      }
    }
  }

  /** Records are read only if no two of them have the same key. */
  lemma NoKeyTwice(tb: Table, version: nat, rs: seq<Record>, rest: Bytes)
    requires RecordsOk(rs) && CountsPlain(tb, rs)
    requires ReadMap(tb, version, NO_FIELDS, {}, SerRecords(rs) + [0] + rest).Ok?
    ensures forall i, j :: 0 <= i < j < |rs| ==> rs[i].0 != rs[j].0
  {
    hide ReadMap, SerRecords, CountsPlain;
    MapRead(tb, version, NO_FIELDS, {}, rs, rest);
    FoldedApart(tb, version, NO_FIELDS, {}, rs);
  }
}
