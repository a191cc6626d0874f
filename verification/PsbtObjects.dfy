/** The objects of psbt.py: loops over a stream that fill fields, loops that write them, and version changes in place. */
module PsbtObjects {
  import opened Python
  import opened Serialize
  import opened Streams
  import opened TxSpec
  import opened KeyValue
  import opened Dicts
  import opened PsbtCodecs
  import opened PsbtMaps
  import opened Psbts
  import opened PsbtConversion
  import Transactions
  import LockTime

  /** The fields that version 2 requires at the end of a map. */
  predicate HasRequired(tb: Table, version: nat, f: Fields) {
    version >= 2 ==>
      match tb
      case INPUT => PREVIOUS_TXID in f.singles && OUTPUT_INDEX in f.singles
      case OUTPUT => AMOUNT in f.singles && SCRIPT in f.singles
      case GLOBAL => true
  }

  lemma {:induction false} SerRecordsConcat(a: seq<Record>, b: seq<Record>)
    requires RecordsOk(a + b)
    ensures RecordsOk(a) && RecordsOk(b) && SerRecords(a + b) == SerRecords(a) + SerRecords(b)
    decreases |a|
  {
    hide SerRecord;
    forall i | 0 <= i < |a| ensures 0 < |a[i].0| < U64 && |a[i].1| < U64 { assert (a + b)[i] == a[i]; }
    forall i | 0 <= i < |b| ensures 0 < |b[i].0| < U64 && |b[i].1| < U64 { assert (a + b)[|a| + i] == b[i]; }
    if a == [] {
      assert a + b == b;
    } else {
      assert (a + b)[1..] == a[1..] + b && (a + b)[0] == a[0];
      SerRecordsConcat(a[1..], b);
    }
  }

  /** r += ser_string(key); r += ser_string(value), for each record. */
  method WriteRecords(before: Bytes, rs: seq<Record>) returns (r: Bytes)
    requires RecordsOk(rs)
    ensures r == before + SerRecords(rs)
  {
    hide SerString;
    r := before;
    for i := 0 to |rs|
      invariant RecordsOk(rs[..i]) && r == before + SerRecords(rs[..i])
    {
      r := r + SerString(rs[i].0);
      r := r + SerString(rs[i].1);
      OneMoreRecord(rs, i);
    }
    assert rs[..|rs|] == rs;
  }

  lemma OneMoreRecord(rs: seq<Record>, i: nat)
    requires RecordsOk(rs) && i < |rs|
    ensures RecordsOk(rs[..i]) && RecordsOk(rs[..i + 1])
    ensures SerRecords(rs[..i + 1]) == SerRecords(rs[..i]) + (SerString(rs[i].0) + SerString(rs[i].1))
  {
    hide SerString;
    assert rs[..i + 1] == rs[..i] + [rs[i]];
    SerRecordsConcat(rs[..i], [rs[i]]);
    assert [rs[i]][1..] == [];
    assert SerRecords([rs[i]]) == SerRecord(rs[i]) + [];
  }

  /** PartiallySignedInput and PartiallySignedOutput, and the fields that PSBT reads from the global map. */
  class PartiallySigned {
    const table: Table
    var version: nat
    var singles: map<nat, Value>
    var keyed: map<nat, Dict<Value>>
    var taps: seq<TapScript>
    var other: Dict<Bytes>

    constructor (table: Table, version: nat)
      ensures this.table == table && this.version == version && Value() == NO_FIELDS
    {
      this.table, this.version := table, version;
      singles, keyed, taps, other := map[], map[], [], [];
    }

    function Value(): Fields
      reads this
    {
      Fields(singles, keyed, taps, other)
    }

    method Set(f: Fields)
      modifies this
      ensures version == old(version) && Value() == f
    {
      singles, keyed, taps, other := f.singles, f.keyed, f.taps, f.other;
    }

    method FillFromInput(x: TxIn)
      modifies this
      ensures version == old(version) && Value() == FillInput(old(Value()), x)
    {
      hide Le;
      singles := singles[PREVIOUS_TXID := VBytes(Le(x.prevout.hash, U256_BYTES))];
      singles := singles[OUTPUT_INDEX := VNum(x.prevout.n)];
      singles := singles[SEQUENCE := VNum(x.nSequence)];
    }

    method FillFromOutput(x: TxOut)
      modifies this
      ensures version == old(version) && Value() == FillOutput(old(Value()), x)
    {
      singles := singles[AMOUNT := VNum(x.nValue)];
      singles := if x.scriptPubKey == [] then singles - {SCRIPT} else singles[SCRIPT := VBytes(x.scriptPubKey)];
    }

    /** The branches of the read loop: a value goes into the field of its type. */
    method Fill(t: nat, key: Bytes, v: Bytes) returns (r: Result<()>)
      requires key != []
      modifies this
      ensures version == old(version)
      ensures match Store(table, old(Value()), t, key, v)
              case Ok(g) => r == Ok(()) && Value() == g
              case Err(e) => r == Err(e)
    {
      match KindOf(table, t) {
        case Single(codec, _) =>
          var x := Decode(codec, v);
          if x.Err? { return Err(x.error); }
          if !Blank(x.value) { singles := singles[t := x.value]; }
        case Keyed(_, _, codec) =>
          var x := Decode(codec, v);
          if x.Err? { return Err(x.error); }
          keyed := keyed[t := Put(if t in keyed then keyed[t] else [], key[1..], x.value)];
        case TapLeaf =>
          if v == [] { return Err(PSBTSerializationError); }
          taps := AddBlock(taps, v[..|v| - 1], v[|v| - 1], key[1..]);
        case Other =>
          other := Put(other, key, v);
      }
      return Ok(());
    }

    /** The value of a record, which for counts is not a string. */
    method DeserValue(f: BytesIO, t: nat) returns (r: Result<Bytes>)
      requires f.Valid()
      modifies f
      ensures f.Valid()
      ensures match ReadValue(table, t, old(f.Rest()))
              case Ok((v, rest)) => r == Ok(v) && f.Rest() == rest
              case Err(e) => r == Err(e)
    {
      hide KindOf, ReadString, ReadCompactSize, CompactSize;
      if KindOf(table, t).Single? && KindOf(table, t).codec == CCount {
        var length := f.DeserCompactSize();
        if length.Err? { return Err(length.error); }
        var n := f.DeserCompactSize();
        if n.Err? { return Err(n.error); }
        return if n.value < U64 then Ok(CompactSize(n.value)) else Err(StructError);
      } else {
        r := f.DeserString();
      }
    }

    /** The read loop: up to an empty key, or to a key that cannot be read. */
    method ReadAll(f: BytesIO) returns (r: Result<()>)
      requires f.Valid()
      modifies this, f
      ensures f.Valid() && version == old(version)
      ensures match ReadMap(table, version, old(Value()), {}, old(f.Rest()))
              case Ok((g, rest)) => r == Ok(()) && Value() == g && f.Rest() == rest
              case Err(e) => r == Err(e)
    {
      hide KindOf, Admitted, Store, ReadValue, ReadString, ReadCompactSize;
      ghost var goal := ReadMap(table, version, Value(), {}, f.Rest());
      var seen: set<Bytes> := {};
      while true
        invariant f.Valid() && version == old(version)
        invariant goal == ReadMap(table, version, Value(), seen, f.Rest())
        decreases |f.Rest()|
      {
        ghost var s := f.Rest();
        ReadStringBound(s);
        var key := f.DeserString();
        if key.Err? {
          assert goal == Ok((Value(), f.Rest()));
          break;
        }
        if |key.value| == 0 {
          assert goal == Ok((Value(), f.Rest()));
          break;
        }
        ReadRecordBound(table, version, Value(), seen, key.value, f.Rest());
        var k := new BytesIO(key.value);
        var t := k.DeserCompactSize();
        if t.Err? { return Err(t.error); }
        if !Admitted(table, version, Value(), seen, t.value, key.value) { return Err(PSBTSerializationError); }
        var v := DeserValue(f, t.value);
        if v.Err? { return Err(v.error); }
        var filled := Fill(t.value, key.value, v.value);
        if filled.Err? { return Err(filled.error); }
        seen := seen + {key.value};
      }
      return Ok(());
    }

    method Deserialize(f: BytesIO) returns (r: Result<()>)
      requires f.Valid()
      modifies this, f
      ensures f.Valid() && version == old(version)
      ensures match ReadMap(table, version, old(Value()), {}, old(f.Rest()))
              case Ok((g, rest)) =>
                Value() == g && f.Rest() == rest
                && r == if HasRequired(table, version, g) then Ok(()) else Err(PSBTSerializationError)
              case Err(e) => r == Err(e)
    {
      hide ReadMap;
      r := ReadAll(f);
      if r.Ok? && !HasRequired(table, version, Value()) { return Err(PSBTSerializationError); }
    }

    /** serialize: the record types in their order, without what only matters for signing in a final input. */
    method Serialize(list: Order) returns (r: Bytes)
      requires Writable(table, version, Value(), list)
      ensures r == SerMap(table, version, Value(), list)
    {
      hide RecordsOf, KindOf, SortDict, FieldsFit, SerRecords, Final;
      var f := Value();
      var ts := WriteOrder(table);
      assert forall i :: 0 <= i < |ts| ==> ts[i] < 253 by { TypesSmall(table); }
      hide WriteOrder;
      r := [];
      ghost var all := RecordsOfAll(table, version, f, ts, list);
      SerRecordsConcat(all, SortDict(f.other));
      assert RecordsOfAll(table, version, f, ts[..0], list) == [];
      assert SerRecords([]) == [] by { NoBytes(); }
      for i := 0 to |ts|
        invariant RecordsOk(RecordsOfAll(table, version, f, ts[..i], list))
        invariant r == SerRecords(RecordsOfAll(table, version, f, ts[..i], list))
      {
        NextType(table, version, f, ts, i, list);
        if !(Final(table, f) && Signing(table, ts[i])) {
          r := WriteRecords(r, RecordsOf(table, version, f, ts[i], list));
        }
      }
      assert ts[..|ts|] == ts;
      r := WriteRecords(r, SortDict(f.other));
      r := r + [0];
    }
  }

  lemma TypesSmall(tb: Table)
    ensures forall i :: 0 <= i < |WriteOrder(tb)| ==> WriteOrder(tb)[i] < 253
  {}

  lemma NoBytes()
    ensures SerRecords([]) == []
  {}

  lemma {:induction false} PrefixOk(tb: Table, version: nat, f: Fields, ts: seq<nat>, i: nat, list: Order)
    requires FieldsFit(tb, f) && i <= |ts| && (forall j :: 0 <= j < |ts| ==> ts[j] < 253)
    requires RecordsOk(RecordsOfAll(tb, version, f, ts, list))
    ensures RecordsOk(RecordsOfAll(tb, version, f, ts[..i], list))
    decreases |ts|
  {
    hide FieldsFit, RecordsOf, Final;
    if i == |ts| {
      assert ts[..i] == ts;
    } else {
      var init := ts[..|ts| - 1];
      assert init[..i] == ts[..i];
      var a := RecordsOfAll(tb, version, f, init, list);
      var all := RecordsOfAll(tb, version, f, ts, list);
      assert |a| <= |all| && a == all[..|a|];
      forall j | 0 <= j < |a| ensures 0 < |a[j].0| < U64 && |a[j].1| < U64 { assert a[j] == all[j]; }
      PrefixOk(tb, version, f, init, i, list);
    }
  }

  lemma NextType(tb: Table, version: nat, f: Fields, ts: seq<nat>, i: nat, list: Order)
    requires FieldsFit(tb, f) && i < |ts| && (forall j :: 0 <= j < |ts| ==> ts[j] < 253)
    requires RecordsOk(RecordsOfAll(tb, version, f, ts, list))
    ensures RecordsOk(RecordsOfAll(tb, version, f, ts[..i], list))
    ensures RecordsOk(RecordsOfAll(tb, version, f, ts[..i + 1], list))
    ensures var rs := if Final(tb, f) && Signing(tb, ts[i]) then [] else RecordsOf(tb, version, f, ts[i], list);
            RecordsOk(rs) && SerRecords(RecordsOfAll(tb, version, f, ts[..i + 1], list))
                          == SerRecords(RecordsOfAll(tb, version, f, ts[..i], list)) + SerRecords(rs)
  {
    hide FieldsFit, RecordsOf, Final, RecordsOk;
    assert ts[..i + 1][..i] == ts[..i] && ts[..i + 1][i] == ts[i];
    PrefixOk(tb, version, f, ts, i + 1, list);
    var rs := if Final(tb, f) && Signing(tb, ts[i]) then [] else RecordsOf(tb, version, f, ts[i], list);
    SerRecordsConcat(RecordsOfAll(tb, version, f, ts[..i], list), rs);
  }

  // ------------------------------------------------------------ lists of maps

  function Values(ms: seq<PartiallySigned>): (r: seq<Fields>)
    reads ms
    ensures |r| == |ms| && forall i :: 0 <= i < |ms| ==> r[i] == ms[i].Value()
  {
    seq(|ms|, i requires 0 <= i < |ms| reads ms => ms[i].Value())
  }

  /** Different objects of one kind and version. */
  ghost predicate Alike(ms: seq<PartiallySigned>, tb: Table, version: nat)
    reads ms
  {
    && (forall i :: 0 <= i < |ms| ==> ms[i].table == tb && ms[i].version == version)
    && forall i, j :: 0 <= i < j < |ms| ==> ms[i] != ms[j]
  }

  lemma ReadNext(tb: Table, version: nat, check: Check, n: nat, i: nat, before: seq<Fields>, s: Bytes)
    requires i < n
    ensures Transactions.Later(before, ReadMaps(tb, version, check, n, i, s)) ==
            if s == [] then Err(PSBTSerializationError)
            else match ReadMap(tb, version, NO_FIELDS, {}, s)
                 case Err(e) => Err(e)
                 case Ok((f, rest)) =>
                   if !check(i, f) then Err(PSBTSerializationError)
                   else Transactions.Later(before + [f], ReadMaps(tb, version, check, n, i + 1, rest))
  {
    hide ReadMap;
    if s != [] && ReadMap(tb, version, NO_FIELDS, {}, s).Ok? {
      var (f, rest) := ReadMap(tb, version, NO_FIELDS, {}, s).value;
      var r := ReadMaps(tb, version, check, n, i + 1, rest);
      if r.Ok? { assert before + ([f] + r.value.0) == before + [f] + r.value.0; }
    }
  }

  lemma ReadNoMore(tb: Table, version: nat, check: Check, n: nat, before: seq<Fields>, s: Bytes)
    ensures Transactions.Later(before, ReadMaps(tb, version, check, n, n, s)) == Ok((before, s))
  {
    assert before + [] == before;
  }

  /** The loop over the inputs, each checked against its previous transaction. */
  method ReadInputs(f: BytesIO, version: nat, vin: seq<TxIn>, n: nat, hash256: Hash) 
    returns (r: Result<()>, ms: seq<PartiallySigned>)
    requires f.Valid()
    modifies f
    ensures f.Valid()
    ensures match ReadMaps(INPUT, version, InputCheck(version, vin, hash256), n, 0, old(f.Rest()))
            case Ok((fs, rest)) =>
              r == Ok(()) && Alike(ms, INPUT, version) && Values(ms) == fs && f.Rest() == rest
              && forall i :: 0 <= i < |ms| ==> fresh(ms[i])
            case Err(e) => r == Err(e)
  {
    hide ReadMap, UtxoMatches, PrevTxid, Transactions.Later, ReadMaps;
    ghost var check := InputCheck(version, vin, hash256);
    ghost var goal := ReadMaps(INPUT, version, check, n, 0, f.Rest());
    Transactions.LaterNothing(goal);
    ms := [];
    assert Values(ms) == [];
    for i := 0 to n
      invariant f.Valid() && |ms| == i && Alike(ms, INPUT, version) && (forall j :: 0 <= j < |ms| ==> fresh(ms[j]))
      invariant goal == Transactions.Later(Values(ms), ReadMaps(INPUT, version, check, n, i, f.Rest()))
    {
      ghost var before := Values(ms);
      ReadNext(INPUT, version, check, n, i, before, f.Rest());
      if f.pos == |f.data| {
        assert f.Rest() == [] && goal == Err(PSBTSerializationError);
        break;
      }
      var m := new PartiallySigned(INPUT, version);
      var read := m.Deserialize(f);
      if read.Err? { return Err(read.error), ms; }
      assert Values(ms) == before;
      ms := ms + [m];
      assert Values(ms) == before + [m.Value()];
      if !UtxoMatches(m.Value(), PrevTxid(version, vin, i, m.Value()), hash256) { return Err(PSBTSerializationError), ms; }
    }
    if |ms| != n { return Err(PSBTSerializationError), ms; }
    ReadNoMore(INPUT, version, check, n, Values(ms), f.Rest());
    return Ok(()), ms;
  }

  method ReadOutputs(f: BytesIO, version: nat, n: nat) 
    returns (r: Result<()>, ms: seq<PartiallySigned>)
    requires f.Valid()
    modifies f
    ensures f.Valid()
    ensures match ReadMaps(OUTPUT, version, OutputCheck(version), n, 0, old(f.Rest()))
            case Ok((fs, rest)) =>
              r == Ok(()) && Alike(ms, OUTPUT, version) && Values(ms) == fs && f.Rest() == rest
              && forall i :: 0 <= i < |ms| ==> fresh(ms[i])
            case Err(e) => r == Err(e)
  {
    hide ReadMap, Transactions.Later, ReadMaps;
    ghost var check := OutputCheck(version);
    ghost var goal := ReadMaps(OUTPUT, version, check, n, 0, f.Rest());
    Transactions.LaterNothing(goal);
    ms := [];
    assert Values(ms) == [];
    for i := 0 to n
      invariant f.Valid() && |ms| == i && Alike(ms, OUTPUT, version) && (forall j :: 0 <= j < |ms| ==> fresh(ms[j]))
      invariant goal == Transactions.Later(Values(ms), ReadMaps(OUTPUT, version, check, n, i, f.Rest()))
    {
      ghost var before := Values(ms);
      ReadNext(OUTPUT, version, check, n, i, before, f.Rest());
      if f.pos == |f.data| {
        assert f.Rest() == [] && goal == Err(PSBTSerializationError);
        break;
      }
      var m := new PartiallySigned(OUTPUT, version);
      var read := m.Deserialize(f);
      if read.Err? { return Err(read.error), ms; }
      assert Values(ms) == before;
      ms := ms + [m];
      assert Values(ms) == before + [m.Value()];
    }
    if |ms| != n { return Err(PSBTSerializationError), ms; }
    ReadNoMore(OUTPUT, version, check, n, Values(ms), f.Rest());
    return Ok(()), ms;
  }

  lemma SerMapsSoFar(tb: Table, version: nat, fs: seq<Fields>, i: nat, list: Order)
    requires i < |fs| && AllWritable(tb, version, fs, list)
    ensures AllWritable(tb, version, fs[..i], list) && AllWritable(tb, version, fs[..i + 1], list)
    ensures SerMaps(tb, version, fs[..i + 1], list) == SerMaps(tb, version, fs[..i], list) + SerMap(tb, version, fs[i], list)
  {
    hide Writable, SerMap;
    assert fs[..i + 1][..i] == fs[..i];
    SerMapsLast(tb, version, fs[..i + 1], list);
  }

  method WriteMaps(before: Bytes, ms: seq<PartiallySigned>, tb: Table, version: nat, list: Order) returns (r: Bytes)
    requires Alike(ms, tb, version) && AllWritable(tb, version, Values(ms), list)
    ensures r == before + SerMaps(tb, version, Values(ms), list)
  {
    hide FieldsFit, Records, SerMap;
    r := before;
    var fs := Values(ms);
    assert fs[..0] == [];
    for i := 0 to |ms|
      invariant AllWritable(tb, version, fs[..i], list) && r == before + SerMaps(tb, version, fs[..i], list)
    {
      SerMapsSoFar(tb, version, fs, i, list);
      var b := ms[i].Serialize(list);
      r := r + b;
    }
    assert fs[..|ms|] == fs;
  }

  method FillAllInputs(ms: seq<PartiallySigned>, vin: seq<TxIn>, ghost version: nat)
    requires Alike(ms, INPUT, version) && |ms| == |vin|
    modifies ms
    ensures Alike(ms, INPUT, version) && Values(ms) == FillInputs(old(Values(ms)), vin)
  {
    hide FillInput;
    for i := 0 to |ms|
      invariant Alike(ms, INPUT, version)
      invariant forall j :: 0 <= j < i ==> ms[j].Value() == FillInput(old(ms[j].Value()), vin[j])
      invariant forall j :: i <= j < |ms| ==> ms[j].Value() == old(ms[j].Value())
    {
      ms[i].FillFromInput(vin[i]);
    }
  }

  method FillAllOutputs(ms: seq<PartiallySigned>, vout: seq<TxOut>, ghost version: nat)
    requires Alike(ms, OUTPUT, version) && |ms| == |vout|
    modifies ms
    ensures Alike(ms, OUTPUT, version) && Values(ms) == FillOutputs(old(Values(ms)), vout)
  {
    hide FillOutput;
    for i := 0 to |ms|
      invariant Alike(ms, OUTPUT, version)
      invariant forall j :: 0 <= j < i ==> ms[j].Value() == FillOutput(old(ms[j].Value()), vout[j])
      invariant forall j :: i <= j < |ms| ==> ms[j].Value() == old(ms[j].Value())
    {
      ms[i].FillFromOutput(vout[i]);
    }
  }

  method FillBoth(ins: seq<PartiallySigned>, outs: seq<PartiallySigned>, t: Tx, ghost version: nat)
    requires Alike(ins, INPUT, version) && |ins| == |t.vin| && Alike(outs, OUTPUT, version) && |outs| == |t.vout|
    modifies ins, outs
    ensures Alike(ins, INPUT, version) && Values(ins) == FillInputs(old(Values(ins)), t.vin)
    ensures Alike(outs, OUTPUT, version) && Values(outs) == FillOutputs(old(Values(outs)), t.vout)
  {
    hide FillInputs, FillOutputs, Values;
    FillAllInputs(ins, t.vin, version);
    ghost var filled := Values(ins);
    FillAllOutputs(outs, t.vout, version);
    assert Values(ins) == filled;
  }

  method SetVersion(ms: seq<PartiallySigned>, tb: Table, ghost before: nat, v: nat)
    requires Alike(ms, tb, before)
    modifies ms
    ensures Alike(ms, tb, v) && Values(ms) == old(Values(ms))
  {
    for i := 0 to |ms|
      invariant forall j :: 0 <= j < |ms| ==> ms[j].table == tb && ms[j].Value() == old(ms[j].Value())
      invariant forall j :: 0 <= j < i ==> ms[j].version == v
    {
      ms[i].version := v;
    }
  }

  method SetVersions(ins: seq<PartiallySigned>, outs: seq<PartiallySigned>, ghost before: nat, v: nat)
    requires Alike(ins, INPUT, before) && Alike(outs, OUTPUT, before)
    modifies ins, outs
    ensures Alike(ins, INPUT, v) && Values(ins) == old(Values(ins))
    ensures Alike(outs, OUTPUT, v) && Values(outs) == old(Values(outs))
  {
    hide Values;
    SetVersion(ins, INPUT, before, v);
    ghost var same := Values(ins);
    SetVersion(outs, OUTPUT, before, v);
    assert Values(ins) == same;
  }

  // ------------------------------------------------------------ PSBT

  class PSBT {
    var tx: Tx
    var inputs: seq<PartiallySigned>
    var outputs: seq<PartiallySigned>
    /** Extended keys, transaction version, fallback lock time, flags and unknown records. */
    var globals: Fields
    var version: nat
    var isExplicit: bool

    ghost predicate Valid()
      reads this, inputs, outputs
    {
      Alike(inputs, INPUT, version) && Alike(outputs, OUTPUT, version)
    }

    function Value(): Psbt
      reads this, inputs, outputs
    {
      Psbt(version, isExplicit, tx, globals, Values(inputs), Values(outputs))
    }

    constructor ()
      ensures Valid() && Value() == Psbt(0, false, EMPTY, NO_FIELDS, [], [])
      ensures inputs == [] && outputs == []
    {
      tx, inputs, outputs, globals, version, isExplicit := EMPTY, [], [], NO_FIELDS, 0, false;
    }

    /** setup_from_tx */
    method SetupFromTx(t: Tx)
      requires Valid() && |inputs| == |t.vin| && |outputs| == |t.vout|
      modifies this`globals, inputs, outputs
      ensures Valid() && Value() == Psbts.SetupFromTx(old(Value()), t)
    {
      globals := globals.(singles := globals.singles[TX_VERSION := VNum(t.nVersion)]);
      globals := globals.(singles := globals.singles[FALLBACK_LOCKTIME := VNum(t.nLockTime)]);
      hide FillInputs, FillOutputs, Values, Alike;
      FillBoth(inputs, outputs, t, version);
    }

    /** The loop over the global map. */
    method ReadGlobals(f: BytesIO) returns (r: Result<Fields>)
      requires f.Valid() && version == 0 && !isExplicit
      modifies this`tx, this`globals, this`version, this`isExplicit, f
      ensures f.Valid()
      ensures match ReadMap(GLOBAL, 0, NO_FIELDS, {}, old(f.Rest()))
              case Ok((g, rest)) =>
                r == Ok(g) && f.Rest() == rest
                && version == VersionOf(g) && isExplicit == (PSBT_VERSION in g.singles)
                && tx == TxOf(g) && globals == KeptGlobals(g)
              case Err(e) => r == Err(e)
    {
      hide ReadMap, KeptGlobals, TxOf;
      var g := new PartiallySigned(GLOBAL, 0);
      var read := g.ReadAll(f);
      if read.Err? { return Err(read.error); }
      var gf := g.Value();
      if PSBT_VERSION in gf.singles {
        version, isExplicit := VersionOf(gf), true;
      }
      tx, globals := TxOf(gf), KeptGlobals(gf);
      return Ok(gf);
    }

    /** The inputs and outputs behind the global map. */
    method ReadLists(f: BytesIO, gf: Fields, hash256: Hash) returns (r: Result<()>)
      requires f.Valid() && VersionAllows(gf)
      requires version == VersionOf(gf) && isExplicit == (PSBT_VERSION in gf.singles)
      requires tx == TxOf(gf) && globals == KeptGlobals(gf)
      modifies this`inputs, this`outputs, this`globals, f
      ensures match ReadBody(gf, old(f.Rest()), hash256)
              case Ok(p) => r == Ok(()) && Valid() && Value() == p
              case Err(e) => r == Err(e)
    {
      hide ReadMap, ReadMaps, VersionAllows, FillInputs, FillOutputs, KeptGlobals, TxOf, VersionOf, CountOf, InputCheck,
           Alike, Values;
      ghost var s := f.Rest();
      var inputCount := CountOf(gf, INPUT_COUNT, |tx.vin|);
      var read, ins := ReadInputs(f, version, tx.vin, inputCount, hash256);
      if read.Err? { return read; }
      ghost var s2 := f.Rest();
      ghost var fs := Values(ins);
      var outputCount := CountOf(gf, OUTPUT_COUNT, |tx.vout|);
      var outs;
      read, outs := ReadOutputs(f, version, outputCount);
      if read.Err? { return read; }
      assert Values(ins) == fs;
      inputs, outputs := ins, outs;
      if version == 0 {
        CountsAre(gf, s, s2, hash256);
        SetupFromTx(tx);
      }
      return Ok(());
    }

    /** deserialize, on a new object, behind base64. */
    method Deserialize(psbt: Bytes, hash256: Hash) returns (r: Result<()>)
      requires inputs == [] && outputs == [] && tx == EMPTY && globals == NO_FIELDS && version == 0 && !isExplicit
      modifies this
      ensures match ReadPsbt(psbt, hash256)
              case Ok(p) => r == Ok(()) && Valid() && Value() == p
              case Err(e) => r == Err(e)
    {
      hide ReadMap, ReadBody, VersionAllows, KeptGlobals, TxOf, VersionOf, Values, Alike;
      var f := new BytesIO(psbt);
      var magic := f.Read(5);
      if magic != PSBT_MAGIC { return Err(PSBTSerializationError); }
      var gf := ReadGlobals(f);
      if gf.Err? { return Err(gf.error); }
      if !VersionAllows(gf.value) { return Err(PSBTSerializationError); }
      r := ReadLists(f, gf.value, hash256);
    }

    /** serialize, before base64. */
    method Serialize(list: Order) returns (r: Bytes)
      requires Valid() && Serializable(Value(), list)
      ensures r == PsbtBytes(Value(), list)
    {
      hide FieldsFit, Records, SerMap, SerMaps, Alike, AllWritable, GlobalRecord, Values;
      var g := new PartiallySigned(GLOBAL, version);
      g.Set(GlobalRecord(Value()));
      r := g.Serialize(list);
      r := WriteMaps(PSBT_MAGIC + r, inputs, INPUT, version, list);
      r := WriteMaps(r, outputs, OUTPUT, version, list);
    }

    /** compute_lock_time */
    method ComputeLockTime() returns (r: Result<nat>)
      requires Valid()
      ensures r == LockTime.Determine(AllLocks(Values(inputs)), NatField(globals, FALLBACK_LOCKTIME))
    {
      r := LockTime.ComputeLockTime(AllLocks(Values(inputs)), NatField(globals, FALLBACK_LOCKTIME));
    }

    /** get_unsigned_tx */
    method GetUnsignedTx() returns (r: Result<Tx>)
      requires Valid()
      ensures r == UnsignedTx(Value())
    {
      hide TxInOf, TxOutOf, TxFits, NatField, LocksOf, LockTime.Determine;
      if version == 0 { return Ok(tx); }
      if !(TX_VERSION in globals.singles && globals.singles[TX_VERSION].VNum?) { return Err(AssertionError); }
      var lock := ComputeLockTime();
      if lock.Err? { return Err(lock.error); }
      var vin := UnsignedInputs(inputs);
      if vin.Err? { return Err(vin.error); }
      var vout := UnsignedOutputs(outputs);
      if vout.Err? { return Err(vout.error); }
      var t := Tx(globals.singles[TX_VERSION].num, vin.value, vout.value, [], lock.value);
      return if TxFits(t) then Ok(t) else Err(StructError);
    }

    /** _convert_version */
    method ConvertVersion(v: nat)
      requires Valid()
      modifies this`version, inputs, outputs
      ensures Valid() && Value() == old(Value()).(version := v)
    {
      hide Values;
      version := v;
      SetVersions(inputs, outputs, old(version), v);
    }

    method ConvertToV2()
      requires Valid()
      modifies this`version, inputs, outputs
      ensures Valid() && Value() == PsbtConversion.ConvertToV2(old(Value()))
    {
      hide Values, Alike;
      ConvertVersion(2);
    }

    method ConvertToV0() returns (r: Result<()>)
      requires Valid()
      modifies this`version, this`tx, this`isExplicit, inputs, outputs
      ensures Valid()
      ensures match PsbtConversion.ConvertToV0(old(Value()))
              case Ok(q) => r == Ok(()) && Value() == q
              case Err(e) => r == Err(e) && Value() == old(Value())
    {
      hide Values, Alike, UnsignedTx;
      var t := GetUnsignedTx();
      if t.Err? { return Err(t.error); }
      ConvertVersion(0);
      tx := t.value;
      isExplicit := false;
      return Ok(());
    }
  }

  method UnsignedInputs(ms: seq<PartiallySigned>) returns (r: Result<seq<TxIn>>)
    ensures r == TxInsOf(Values(ms))
  {
    hide TxInOf;
    var fs := Values(ms);
    var xs: seq<TxIn> := [];
    assert fs[..0] == [];
    for i := 0 to |ms|
      invariant TxInsOf(fs[..i]) == Ok(xs)
    {
      assert fs[..i + 1][..i] == fs[..i];
      var x := TxInOf(ms[i].Value());
      if x.Err? {
        TxInsFail(fs, i + 1);
        return Err(x.error);
      }
      xs := xs + [x.value];
    }
    assert fs[..|ms|] == fs;
    return Ok(xs);
  }

  lemma {:induction false} TxInsFail(fs: seq<Fields>, i: nat)
    requires i <= |fs| && TxInsOf(fs[..i]).Err?
    ensures TxInsOf(fs) == TxInsOf(fs[..i])
    decreases |fs|
  {
    hide TxInOf;
    if i == |fs| {
      assert fs[..i] == fs;
    } else {
      assert fs[..|fs| - 1][..i] == fs[..i];
      TxInsFail(fs[..|fs| - 1], i);
    }
  }

  method UnsignedOutputs(ms: seq<PartiallySigned>) returns (r: Result<seq<TxOut>>)
    ensures r == TxOutsOf(Values(ms))
  {
    hide TxOutOf;
    var fs := Values(ms);
    var xs: seq<TxOut> := [];
    assert fs[..0] == [];
    for i := 0 to |ms|
      invariant TxOutsOf(fs[..i]) == Ok(xs)
    {
      assert fs[..i + 1][..i] == fs[..i];
      var x := TxOutOf(ms[i].Value());
      if x.Err? {
        TxOutsFail(fs, i + 1);
        return Err(x.error);
      }
      xs := xs + [x.value];
    }
    assert fs[..|ms|] == fs;
    return Ok(xs);
  }

  lemma {:induction false} TxOutsFail(fs: seq<Fields>, i: nat)
    requires i <= |fs| && TxOutsOf(fs[..i]).Err?
    ensures TxOutsOf(fs) == TxOutsOf(fs[..i])
    decreases |fs|
  {
    hide TxOutOf;
    if i == |fs| {
      assert fs[..i] == fs;
    } else {
      assert fs[..|fs| - 1][..i] == fs[..i];
      TxOutsFail(fs[..|fs| - 1], i);
    }
  }

  /** Without counts there are as many maps as the transaction has inputs and outputs. */
  lemma CountsAre(g: Fields, s: Bytes, s2: Bytes, hash256: Hash)
    requires VersionAllows(g) && VersionOf(g) == 0
    ensures CountOf(g, INPUT_COUNT, |TxOf(g).vin|) == |TxOf(g).vin|
    ensures CountOf(g, OUTPUT_COUNT, |TxOf(g).vout|) == |TxOf(g).vout|
    ensures var r := ReadMaps(INPUT, 0, InputCheck(0, TxOf(g).vin, hash256), |TxOf(g).vin|, 0, s);
            r.Ok? ==> |r.value.0| == |TxOf(g).vin|
    ensures var r := ReadMaps(OUTPUT, 0, OutputCheck(0), |TxOf(g).vout|, 0, s2);
            r.Ok? ==> |r.value.0| == |TxOf(g).vout|
  {
    hide ReadMaps;
    var check := InputCheck(0, TxOf(g).vin, hash256);
    if ReadMaps(INPUT, 0, check, |TxOf(g).vin|, 0, s).Ok? { ReadMapsCount(INPUT, 0, check, |TxOf(g).vin|, 0, s); }
    if ReadMaps(OUTPUT, 0, OutputCheck(0), |TxOf(g).vout|, 0, s2).Ok? {
      ReadMapsCount(OUTPUT, 0, OutputCheck(0), |TxOf(g).vout|, 0, s2);
    }
  }
}
