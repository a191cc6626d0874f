/** What the read loop can produce, and that normal forms stay as they are. */
module PsbtMapReachable {
  import opened Python
  import opened Serialize
  import opened TxSpec
  import opened KeyValue
  import opened Dicts
  import opened PsbtCodecs
  import opened PsbtMaps
  import opened PsbtMapsRoundTrip
  import opened PsbtMapTheorems

  // ------------------------------------------------------------ one record keeps fields valid

  lemma StoresSingle(tb: Table, version: nat, f: Fields, seen: set<Bytes>, t: nat, key: Bytes, v: Bytes)
    requires Valid(tb, f) && key != [] && KindOf(tb, t).Single? && Store(tb, f, t, key, v).Ok?
    ensures Valid(tb, Store(tb, f, t, key, v).value)
  {
    hide KindOf, Decode, Fits, TapsValid, OtherValid, KeyedValid;
    DecodeFits(KindOf(tb, t).codec, v);
  }

  lemma PutValid(lens: set<nat>, codec: Codec, d: Dict<Value>, k: Bytes, x: Value)
    requires d == [] || DictValid(lens, codec, d)
    requires 1 + |k| in lens && Fits(codec, x)
    ensures DictValid(lens, codec, Put(d, k, x))
  {
    hide Fits, Put;
    PutDistinct(d, k, x);
    PutItems(d, k, x);
    var e := Put(d, k, x);
    forall i | 0 <= i < |e| ensures 1 + |e[i].0| in lens && Fits(codec, e[i].1) {
      assert e[i] in e;
    }
  }

  lemma StoresKeyed(tb: Table, version: nat, f: Fields, seen: set<Bytes>, t: nat, key: Bytes, v: Bytes)
    requires Valid(tb, f) && key != [] && KindOf(tb, t).Keyed? && |key| in KindOf(tb, t).lens && Store(tb, f, t, key, v).Ok?
    ensures Valid(tb, Store(tb, f, t, key, v).value)
  {
    hide KindOf, Decode, Fits, TapsValid, OtherValid, SingleValid, DictValid, Put;
    var kind := KindOf(tb, t);
    DecodeFits(kind.codec, v);
    PutValid(kind.lens, kind.codec, DictOf(f, t), key[1..], Decode(kind.codec, v).value);
  }

  lemma TapsValidTail(taps: seq<TapScript>)
    requires TapsValid(taps) && taps != []
    ensures TapsValid(taps[1..]) && NoSuchTap(taps[1..], taps[0].script, taps[0].leafVersion)
  {
    hide BlockValid;
    var more := taps[1..];
    forall i | 0 <= i < |more|
      ensures more[i].blocks != {} && forall b :: b in more[i].blocks ==> BlockValid(b)
      ensures more[i].script != taps[0].script || more[i].leafVersion != taps[0].leafVersion
    {
      assert more[i] == taps[i + 1];
    }
    forall i, j | 0 <= i < j < |more| ensures more[i].script != more[j].script || more[i].leafVersion != more[j].leafVersion {
      assert more[i] == taps[i + 1] && more[j] == taps[j + 1];
    }
  }

  lemma TapsValidCons(tap: TapScript, more: seq<TapScript>)
    requires TapsValid(more) && NoSuchTap(more, tap.script, tap.leafVersion)
    requires tap.blocks != {} && forall b :: b in tap.blocks ==> BlockValid(b)
    ensures TapsValid([tap] + more)
  {
    hide BlockValid;
    var all := [tap] + more;
    forall i | 0 <= i < |all| ensures all[i].blocks != {} && forall b :: b in all[i].blocks ==> BlockValid(b) {
      if i > 0 { assert all[i] == more[i - 1]; }
    }
    forall i, j | 0 <= i < j < |all| ensures all[i].script != all[j].script || all[i].leafVersion != all[j].leafVersion {
      assert all[j] == more[j - 1];
      if i > 0 { assert all[i] == more[i - 1]; }
    }
  }

  lemma {:induction false} AddBlockValid(taps: seq<TapScript>, script: Bytes, leafVersion: byte, block: Bytes)
    requires TapsValid(taps) && BlockValid(block)
    ensures TapsValid(AddBlock(taps, script, leafVersion, block))
    ensures forall s, l :: NoSuchTap(taps, s, l) && (s != script || l != leafVersion) ==>
              NoSuchTap(AddBlock(taps, script, leafVersion, block), s, l)
    decreases |taps|
  {
    hide BlockValid, TapsValid;
    if taps == [] {
      OneTap(script, leafVersion, block);
    } else {
      TapsValidTail(taps);
      var tap, more := taps[0], taps[1..];
      FirstTap(taps);
      assert taps == [tap] + more;
      if tap.script == script && tap.leafVersion == leafVersion {
        TapsValidCons(TapScript(script, leafVersion, tap.blocks + {block}), more);
      } else {
        AddBlockValid(more, script, leafVersion, block);
        TapsValidCons(tap, AddBlock(more, script, leafVersion, block));
        forall s, l | NoSuchTap(taps, s, l) ensures NoSuchTap(more, s, l) {
          forall i | 0 <= i < |more| ensures more[i].script != s || more[i].leafVersion != l { assert more[i] == taps[i + 1]; }
        }
      }
    }
  }

  lemma FirstTap(taps: seq<TapScript>)
    requires TapsValid(taps) && taps != []
    ensures taps[0].blocks != {} && forall b :: b in taps[0].blocks ==> BlockValid(b)
  {}

  lemma OneTap(script: Bytes, leafVersion: byte, block: Bytes)
    requires BlockValid(block)
    ensures TapsValid([TapScript(script, leafVersion, {block})])
  {}

  lemma StoresTap(f: Fields, t: nat, key: Bytes, v: Bytes)
    requires Valid(INPUT, f) && |key| >= 34 && (|key| - 2) % 32 == 0 && KindOf(INPUT, t).TapLeaf?
    requires Store(INPUT, f, t, key, v).Ok?
    ensures Valid(INPUT, Store(INPUT, f, t, key, v).value)
  {
    hide KindOf, SingleValid, KeyedValid, OtherValid, TapsValid, AddBlock;
    AddBlockValid(f.taps, v[..|v| - 1], v[|v| - 1], key[1..]);
  }

  lemma StoresOther(tb: Table, f: Fields, t: nat, key: Bytes, v: Bytes)
    requires Valid(tb, f) && key != [] && TypeOf(key) == Ok(t) && KindOf(tb, t).Other?
    ensures Store(tb, f, t, key, v).Ok? && Valid(tb, Store(tb, f, t, key, v).value)
  {
    hide KindOf, SingleValid, KeyedValid, TapsValid, TypeOf, Put;
    PutDistinct(f.other, key, v);
    PutItems(f.other, key, v);
    var e := Put(f.other, key, v);
    forall i | 0 <= i < |e| ensures e[i].0 != [] && TypeOf(e[i].0).Ok? && KindOf(tb, TypeOf(e[i].0).value).Other? {
      assert e[i] in e;
    }
  }

  lemma RecordKeepsValid(tb: Table, version: nat, f: Fields, seen: set<Bytes>, key: Bytes, s: Bytes)
    requires Valid(tb, f) && key != [] && ReadRecord(tb, version, f, seen, key, s).Ok?
    ensures Valid(tb, ReadRecord(tb, version, f, seen, key, s).value.0)
  {
    hide KindOf, Valid, TypeOf, Store, ReadValue, Keys;
    var t := TypeOf(key).value;
    var v := ReadValue(tb, t, s).value.0;
    TapLeafIs(tb, t);
    match KindOf(tb, t)
    case Single(_, _) => StoresSingle(tb, version, f, seen, t, key, v);
    case Keyed(_, _, _) => StoresKeyed(tb, version, f, seen, t, key, v);
    case TapLeaf => StoresTap(f, t, key, v);
    case Other => StoresOther(tb, f, t, key, v);
  }

  /** Whatever is read from any stream has the form that the round trip theorems speak about. */
  lemma {:induction false} ReadIsValid(tb: Table, version: nat, f: Fields, seen: set<Bytes>, s: Bytes)
    requires Valid(tb, f) && ReadMap(tb, version, f, seen, s).Ok?
    ensures Valid(tb, ReadMap(tb, version, f, seen, s).value.0)
    decreases |s|
  {
    hide Valid, ReadRecord, ReadString;
    ReadStringBound(s);
    if ReadString(s).Ok? && ReadString(s).value.0 != [] {
      var (key, s1) := ReadString(s).value;
      ReadRecordBound(tb, version, f, seen, key, s1);
      RecordKeepsValid(tb, version, f, seen, key, s1);
      var (g, rest) := ReadRecord(tb, version, f, seen, key, s1).value;
      ReadIsValid(tb, version, g, seen + {key}, rest);
    }
  }

  lemma NothingIsValid(tb: Table)
    ensures Valid(tb, NO_FIELDS)
  {}

  /** Inputs and outputs of version 0 have none of the fields of version 2. */
  predicate NoNewFields(tb: Table, f: Fields) {
    forall t :: t in f.singles && KindOf(tb, t).Single? ==> KindOf(tb, t).when != V2Only
  }

  lemma {:induction false} ReadNoNewFields(tb: Table, f: Fields, seen: set<Bytes>, s: Bytes)
    requires tb != GLOBAL && NoNewFields(tb, f) && ReadMap(tb, 0, f, seen, s).Ok?
    ensures NoNewFields(tb, ReadMap(tb, 0, f, seen, s).value.0)
    decreases |s|
  {
    hide ReadString, ReadRecord, NoNewFields;
    ReadStringBound(s);
    if ReadString(s).Ok? && ReadString(s).value.0 != [] {
      var (key, s1) := ReadString(s).value;
      ReadRecordBound(tb, 0, f, seen, key, s1);
      RecordNoNewFields(tb, f, seen, key, s1);
      var (g, rest) := ReadRecord(tb, 0, f, seen, key, s1).value;
      ReadNoNewFields(tb, g, seen + {key}, rest);
    }
  }

  lemma RecordNoNewFields(tb: Table, f: Fields, seen: set<Bytes>, key: Bytes, s: Bytes)
    requires tb != GLOBAL && NoNewFields(tb, f) && key != [] && ReadRecord(tb, 0, f, seen, key, s).Ok?
    ensures NoNewFields(tb, ReadRecord(tb, 0, f, seen, key, s).value.0)
  {
    hide KindOf, Decode, TypeOf, ReadValue, Put, AddBlock;
  }

  // ------------------------------------------------------------ the normal form is normal

  lemma NormalTxTwice(x: Value, c: Codec)
    requires Fits(c, x)
    ensures NormalValue(NormalValue(x)) == NormalValue(x) && Fits(c, NormalValue(x))
    ensures Plain(NormalValue(x)) == Plain(x) && Blank(NormalValue(x)) == Blank(x)
  {
    hide InFits, OutFits, StackFits;
    if x.VTx? {
      var tx := x.tx;
      if HasWitness(tx) {
        ResizedSame(tx.wit, |tx.vin|);
        assert Normal(tx) == tx;
      }
    }
  }

  lemma {:induction false} ResizedSame(wit: seq<Stack>, n: nat)
    requires |wit| == n
    ensures Resized(wit, n) == wit
  {}

  lemma OrderedTwice(tb: Table, t: nat, d: Dict<Value>)
    requires KeyedValid(tb, t, d)
    ensures Ordered(tb, t, Ordered(tb, t, d)) == Ordered(tb, t, d) && KeyedValid(tb, t, Ordered(tb, t, d))
    ensures forall x :: x in Ordered(tb, t, d) ==> x in d
  {
    hide KindOf, SortDict, DictValid;
    SortedTwice(d);
    InOrderValid(KindOf(tb, t).byTail, KindOf(tb, t).lens, KindOf(tb, t).codec, d);
  }

  lemma FinalSame(tb: Table, version: nat, f: Fields)
    ensures Final(tb, Normalized(tb, version, f)) == Final(tb, f)
  {
    hide NormalValue, Ordered, SortDict;
  }

  lemma NormalSingles(tb: Table, version: nat, f: Fields, t: nat)
    requires Valid(tb, f) && t in f.singles && KeptSingle(tb, version, f, t)
    ensures NormalValue(NormalValue(f.singles[t])) == NormalValue(f.singles[t]) && SingleValid(tb, t, NormalValue(f.singles[t]))
    ensures PlainSingle(tb, t, NormalValue(f.singles[t])) == PlainSingle(tb, t, f.singles[t])
  {
    hide KindOf, Fits, NormalTx, Plain, TapsValid, OtherValid, KeyedValid, Blank;
    NormalTxTwice(f.singles[t], KindOf(tb, t).codec);
  }

  /** Normal forms are valid, normal, and written without doubt if what they come from is. */
  lemma NormalizedTwice(tb: Table, version: nat, f: Fields)
    requires Valid(tb, f)
    ensures Valid(tb, Normalized(tb, version, f))
    ensures Normalized(tb, version, Normalized(tb, version, f)) == Normalized(tb, version, f)
  {
    hide KindOf, Fits, NormalTx, NormalValue, Plain, TapsValid, OtherValid, Ordered, SortDict, KeyedValid, SingleValid, Final,
         Signing;
    var g := Normalized(tb, version, f);
    FinalSame(tb, version, f);
    forall t | t in g.singles
      ensures SingleValid(tb, t, g.singles[t]) && NormalValue(g.singles[t]) == g.singles[t]
    {
      NormalSingles(tb, version, f, t);
    }
    forall t | t in g.keyed ensures KeyedValid(tb, t, g.keyed[t]) && Ordered(tb, t, g.keyed[t]) == g.keyed[t] {
      OrderedTwice(tb, t, f.keyed[t]);
    }
    SortedTwice(f.other);
    SortedOthers(tb, f.other);
    NoTapsValid();
  }

  lemma NoTapsValid()
    ensures TapsValid([])
  {}

}
