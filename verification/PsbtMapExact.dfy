/** Exactly when a written map reads back, and what reading can produce at all. */
module PsbtMapExact {
  import opened Python
  import opened Sequences
  import opened Serialize
  import opened TxSpec
  import opened KeyValue
  import opened Dicts
  import opened PsbtCodecs
  import opened PsbtMaps
  import opened PsbtMapsRoundTrip
  import opened PsbtMapTheorems

  // ------------------------------------------------------------ a key seen twice

  predicate IsBlockKey(key: Bytes) {
    key != [] && TypeOf(key) == Ok(TAP_LEAF)
  }

  lemma {:induction false} SeenFails(version: nat, f: Fields, seen: set<Bytes>, rs: seq<Record>, q: nat)
    requires KeysThere(rs) && q < |rs| && rs[q].0 in seen && IsBlockKey(rs[q].0)
    ensures Fold(INPUT, version, f, seen, rs).Err?
    decreases |rs|
  {
    hide Store, TypeOf;
    if q > 0 && Apply(INPUT, version, f, seen, rs[0]).Ok? {
      SeenFails(version, Apply(INPUT, version, f, seen, rs[0]).value, seen + {rs[0].0}, rs[1..], q - 1);
    }
  }

  lemma {:induction false} RepeatFails(version: nat, f: Fields, seen: set<Bytes>, rs: seq<Record>, p: nat, q: nat)
    requires KeysThere(rs) && p < q < |rs| && rs[p].0 == rs[q].0 && IsBlockKey(rs[q].0)
    ensures Fold(INPUT, version, f, seen, rs).Err?
    decreases |rs|
  {
    hide Apply, TypeOf;
    if Apply(INPUT, version, f, seen, rs[0]).Ok? {
      var g := Apply(INPUT, version, f, seen, rs[0]).value;
      if p == 0 {
        SeenFails(version, g, seen + {rs[0].0}, rs[1..], q - 1);
      } else {
        RepeatFails(version, g, seen + {rs[0].0}, rs[1..], p - 1, q - 1);
      }
    }
  }

  lemma {:induction false} BlockRecordAt(t: nat, blocks: seq<Bytes>, v: Bytes, b: Bytes) returns (p: nat)
    requires t < 253 && b in blocks
    ensures p < |BlockRecords(t, blocks, v)| && BlockRecords(t, blocks, v)[p].0 == [TypeByte(t)] + b
  {
    if blocks[0] == b {
      p := 0;
    } else {
      p := BlockRecordAt(t, blocks[1..], v, b);
      p := p + 1;
    }
  }

  lemma {:induction false} TapRecordAt(t: nat, taps: seq<TapScript>, list: Order, i: nat, b: Bytes) returns (p: nat)
    requires t < 253 && IsOrder(list) && i < |taps| && b in taps[i].blocks
    ensures p < |TapRecords(t, taps, list)| && TapRecords(t, taps, list)[p].0 == [TypeByte(t)] + b
  {
    hide BlockRecords;
    var v := taps[0].script + [taps[0].leafVersion];
    if i == 0 {
      p := BlockRecordAt(t, list(taps[0].blocks), v, b);
    } else {
      p := TapRecordAt(t, taps[1..], list, i - 1, b);
      p := p + |BlockRecords(t, list(taps[0].blocks), v)|;
    }
  }

  lemma {:induction false} TwoTapRecords(t: nat, taps: seq<TapScript>, list: Order, i: nat, j: nat, b: Bytes)
    returns (p: nat, q: nat)
    requires t < 253 && IsOrder(list) && i < j < |taps| && b in taps[i].blocks && b in taps[j].blocks
    ensures p < q < |TapRecords(t, taps, list)|
    ensures TapRecords(t, taps, list)[p].0 == TapRecords(t, taps, list)[q].0 == [TypeByte(t)] + b
  {
    hide BlockRecords, IsOrder;
    var v := taps[0].script + [taps[0].leafVersion];
    var n := |BlockRecords(t, list(taps[0].blocks), v)|;
    if i == 0 {
      assert b in list(taps[0].blocks) by { ListBlocks(list, taps[0].blocks); }
      p := BlockRecordAt(t, list(taps[0].blocks), v, b);
      q := TapRecordAt(t, taps[1..], list, j - 1, b);
      q := q + n;
    } else {
      p, q := TwoTapRecords(t, taps[1..], list, i - 1, j - 1, b);
      p, q := p + n, q + n;
    }
  }

  // ------------------------------------------------------------ where records stand

  lemma {:induction false} SectionsPrefix(tb: Table, version: nat, f: Fields, ts: seq<nat>, n: nat, list: Order)
    returns (more: seq<Record>)
    requires FieldsFit(tb, f) && Small(ts) && n <= |ts|
    ensures RecordsOfAll(tb, version, f, ts, list) == RecordsOfAll(tb, version, f, ts[..n], list) + more
    decreases |ts|
  {
    hide FieldsFit, RecordsOf;
    if n == |ts| {
      assert ts[..n] == ts;
      more := [];
    } else {
      var init := ts[..|ts| - 1];
      var m := SectionsPrefix(tb, version, f, init, n, list);
      assert init[..n] == ts[..n];
      more := m + Section(tb, version, f, ts[|ts| - 1], list);
    }
  }

  /** The records of the n-th type lie between some before and some after. */
  lemma SectionLies(tb: Table, version: nat, f: Fields, n: nat, list: Order)
    returns (before: seq<Record>, after: seq<Record>)
    requires FieldsFit(tb, f) && n < |WriteOrder(tb)| && Small(WriteOrder(tb))
    ensures Records(tb, version, f, list) == before + Section(tb, version, f, WriteOrder(tb)[n], list) + after
    ensures n == 0 ==> before == []
  {
    hide FieldsFit, RecordsOf, WriteOrder, SortDict, Kept;
    var ts := WriteOrder(tb);
    var more := SectionsPrefix(tb, version, f, ts, n + 1, list);
    before := LastSection(tb, version, f, ts, n, list);
    after := more + SortDict(f.other);
    Associate(before + Section(tb, version, f, ts[n], list), more, SortDict(f.other));
  }

  lemma LastSection(tb: Table, version: nat, f: Fields, ts: seq<nat>, n: nat, list: Order) returns (before: seq<Record>)
    requires FieldsFit(tb, f) && n < |ts| && Small(ts)
    ensures RecordsOfAll(tb, version, f, ts[..n + 1], list) == before + Section(tb, version, f, ts[n], list)
    ensures n == 0 ==> before == []
  {
    hide FieldsFit, RecordsOf, Final, Signing;
    assert ts[..n + 1][..n] == ts[..n] && ts[..n + 1][n] == ts[n];
    before := RecordsOfAll(tb, version, f, ts[..n], list);
  }

  // ------------------------------------------------------------ the two ways to be misread

  /** A field that has been read stays as it is. */
  lemma {:induction false} SingleStays(tb: Table, version: nat, f: Fields, seen: set<Bytes>, rs: seq<Record>, t: nat)
    requires t < 253 && KeysThere(rs) && [TypeByte(t)] in seen && t in f.singles && KindOf(tb, t).Single?
    requires Fold(tb, version, f, seen, rs).Ok?
    ensures t in Fold(tb, version, f, seen, rs).value.0.singles
    ensures Fold(tb, version, f, seen, rs).value.0.singles[t] == f.singles[t]
    decreases |rs|
  {
    hide KindOf, Apply, TypeOf;
    if rs != [] {
      SingleStep(tb, version, f, seen, rs[0], t);
      SingleStays(tb, version, Apply(tb, version, f, seen, rs[0]).value, seen + {rs[0].0}, rs[1..], t);
    }
  }

  lemma KeyOfType(key: Bytes, t: nat)
    requires |key| == 1 && TypeOf(key) == Ok(t)
    ensures t < 253 && key == [TypeByte(t)]
  {
    ReadTag(key[0], []);
    assert [key[0]] + [] == key;
  }

  lemma SingleStep(tb: Table, version: nat, f: Fields, seen: set<Bytes>, r: Record, t: nat)
    requires t < 253 && r.0 != [] && [TypeByte(t)] in seen && t in f.singles && KindOf(tb, t).Single?
    requires Apply(tb, version, f, seen, r).Ok?
    ensures var g := Apply(tb, version, f, seen, r).value; t in g.singles && g.singles[t] == f.singles[t]
  {
    hide KindOf, TypeOf, Decode;
    var u := TypeOf(r.0).value;
    if u == t { KeyOfType(r.0, t); }
  }

  const UTXO: nat := 0x00

  lemma UtxoDecodes(tx: Tx, list: Order)
    requires Fits(CTx, VTx(tx)) && !Plain(VTx(tx))
    ensures Decode(CTx, Encode(CTx, VTx(tx), list)) != Ok(VTx(NormalTx(tx)))
  {
    hide ReadTx, SerWithWitness, TxFits, NormalTx;
    TxRecodes(tx);
  }

  lemma TxNotBlank(v: Bytes)
    requires Decode(CTx, v).Ok?
    ensures Decode(CTx, v).value.VTx?
  {
    hide ReadTx;
  }

  lemma FitsTx(x: Value)
    requires Fits(CTx, x)
    ensures x.VTx?
  {
    hide TxFits;
  }

  lemma UtxoApplies(version: nat, x: Value, list: Order)
    requires Fits(CTx, x) && !Plain(x)
    ensures var r := Apply(INPUT, version, NO_FIELDS, {}, ([TypeByte(UTXO)], Encode(CTx, x, list)));
            r.Ok? ==> UTXO in r.value.singles && r.value.singles[UTXO] != NormalValue(x)
  {
    hide Decode, Encode, Fits, Plain, NormalTx, TypeOf;
    FitsTx(x);
    assert [TypeByte(UTXO)] + [] == [TypeByte(UTXO)];
    TypeOfKey(UTXO, []);
    var v := Encode(CTx, x, list);
    UtxoDecodes(x.tx, list);
    if Decode(CTx, v).Ok? { TxNotBlank(v); }
  }

  lemma UtxoMisread(version: nat, f: Fields, list: Order)
    requires Valid(INPUT, f) && FieldsFit(INPUT, f) && UTXO in f.singles && !Plain(f.singles[UTXO])
    requires KeysThere(Records(INPUT, version, f, list))
    ensures Reread(INPUT, version, f, list) != Ok(Normalized(INPUT, version, f))
  {
    hide Decode, Encode, Fits, Plain, Apply, FieldsFit, Records, NormalValue, WriteOrder, TapsValid, OtherValid, KeyedValid,
         Ordered, SortDict, Final;
    var x := f.singles[UTXO];
    OrderCovers(INPUT, UTXO);
    var before, after := FirstIsUtxo(version, f, list);
    var r := ([TypeByte(UTXO)], Encode(CTx, x, list));
    var rs := Records(INPUT, version, f, list);
    assert rs[0] == r && rs[1..] == after;
    UtxoApplies(version, x, list);
    if Apply(INPUT, version, NO_FIELDS, {}, r).Ok? {
      var h := Apply(INPUT, version, NO_FIELDS, {}, r).value;
      assert {} + {r.0} == {r.0};
      if Fold(INPUT, version, h, {r.0}, after).Ok? {
        SingleStays(INPUT, version, h, {r.0}, after, UTXO);
      }
      UtxoKept(version, f);
    }
  }

  lemma UtxoKept(version: nat, f: Fields)
    requires UTXO in f.singles
    ensures UTXO in Normalized(INPUT, version, f).singles
    ensures Normalized(INPUT, version, f).singles[UTXO] == NormalValue(f.singles[UTXO])
  {
    hide NormalValue, Ordered, SortDict, Final;
  }

  lemma FirstIsUtxo(version: nat, f: Fields, list: Order) returns (before: seq<Record>, after: seq<Record>)
    requires FieldsFit(INPUT, f) && UTXO in f.singles && Small(WriteOrder(INPUT))
    ensures Fits(CTx, f.singles[UTXO])
    ensures Records(INPUT, version, f, list) == [([TypeByte(UTXO)], Encode(CTx, f.singles[UTXO], list))] + after
  {
    hide Encode, Fits, Final, Records;
    before, after := SectionLies(INPUT, version, f, 0, list);
  }

  lemma BlocksMisread(version: nat, f: Fields, list: Order)
    requires Valid(INPUT, f) && FieldsFit(INPUT, f) && IsOrder(list) && !Final(INPUT, f) && !BlocksApart(f.taps)
    requires KeysThere(Records(INPUT, version, f, list))
    ensures Reread(INPUT, version, f, list).Err?
  {
    hide FieldsFit, Valid, IsOrder, Records, Final, TypeOf, Fold;
    var i, j :| 0 <= i < j < |f.taps| && !(f.taps[i].blocks !! f.taps[j].blocks);
    var b :| b in f.taps[i].blocks && b in f.taps[j].blocks;
    var p, q := TwoTapRecords(TAP_LEAF, f.taps, list, i, j, b);
    var before, after := TapsLie(version, f, list);
    var taps := TapRecords(TAP_LEAF, f.taps, list);
    var rs := Records(INPUT, version, f, list);
    assert rs[|before| + p] == taps[p] && rs[|before| + q] == taps[q];
    TypeOfKey(TAP_LEAF, b);
    RepeatFails(version, NO_FIELDS, {}, rs, |before| + p, |before| + q);
  }

  lemma TapsLie(version: nat, f: Fields, list: Order) returns (before: seq<Record>, after: seq<Record>)
    requires FieldsFit(INPUT, f) && !Final(INPUT, f)
    ensures Records(INPUT, version, f, list) == before + TapRecords(TAP_LEAF, f.taps, list) + after
  {
    hide FieldsFit, Final, TapRecords, Records;
    assert Small(WriteOrder(INPUT)) by { OrderCovers(INPUT, 0); }
    before, after := SectionLies(INPUT, version, f, 9, list);
  }

  lemma OnlyUtxo(tb: Table, t: nat, x: Value)
    requires SingleValid(tb, t, x) && !PlainSingle(tb, t, x)
    ensures tb == INPUT && t == UTXO
  {}

  lemma NoTapsApart()
    ensures BlocksApart([])
  {}

  /**
   * Apart from cut-off leaf hashes, fields come back in normal form exactly if a previous transaction
   * without inputs has no outputs either, and no control block stands under two leaf scripts.
   */
  lemma RereadsExactly(tb: Table, version: nat, f: Fields, list: Order)
    requires Valid(tb, f) && FieldsFit(tb, f) && IsOrder(list) && FullHashes(tb, f)
    ensures KeysThere(Records(tb, version, f, list))
    ensures Reread(tb, version, f, list) == Ok(Normalized(tb, version, f)) <==> Unambiguous(tb, f)
  {
    hide FieldsFit, IsOrder, KindOf, TapsValid, OtherValid, SingleValid, KeyedValid, Plain, PlainSingle, BlocksApart,
         Records, Fold, FullHashes, Final, Kept;
    RecordKeys(tb, version, f, list);
    if Unambiguous(tb, f) {
      Rereads(tb, version, f, list);
    } else if t :| t in f.singles && !PlainSingle(tb, t, f.singles[t]) {
      OnlyUtxo(tb, t, f.singles[t]);
      assert !Plain(f.singles[t]) by { assert !PlainSingle(tb, t, f.singles[t]); NotPlain(tb, t, f.singles[t]); }
      UtxoMisread(version, f, list);
    } else {
      NoTapsApart();
      BlocksMisread(version, f, list);
    }
  }

  lemma NotPlain(tb: Table, t: nat, x: Value)
    requires !PlainSingle(tb, t, x)
    ensures !Plain(x)
  {}

  lemma {:induction false} KeyedKeys(t: nat, codec: Codec, d: Dict<Value>, list: Order)
    requires t < 253 && DictFits(codec, d)
    ensures KeysThere(KeyedRecords(t, codec, d, list))
  {
    hide Encode, Fits;
    if d != [] { KeyedKeys(t, codec, d[1..], list); }
  }

  lemma {:induction false} BlockKeysThere(t: nat, blocks: seq<Bytes>, v: Bytes)
    requires t < 253
    ensures KeysThere(BlockRecords(t, blocks, v))
  {
    if blocks != [] { BlockKeysThere(t, blocks[1..], v); }
  }

  lemma {:induction false} TapKeys(t: nat, taps: seq<TapScript>, list: Order)
    requires t < 253
    ensures KeysThere(TapRecords(t, taps, list))
  {
    hide BlockRecords;
    if taps != [] {
      BlockKeysThere(t, list(taps[0].blocks), taps[0].script + [taps[0].leafVersion]);
      TapKeys(t, taps[1..], list);
    }
  }

  lemma SectionKeys(tb: Table, version: nat, f: Fields, t: nat, list: Order)
    requires FieldsFit(tb, f) && t < 253
    ensures KeysThere(Section(tb, version, f, t, list))
  {
    hide KindOf, Encode, Fits, KeyedRecords, TapRecords, Kept, InOrder;
    var kind := KindOf(tb, t);
    if kind.Keyed? {
      InOrderFits(kind.byTail, kind.codec, DictOf(f, t));
      KeyedKeys(t, kind.codec, InOrder(kind.byTail, DictOf(f, t)), list);
    } else if kind.TapLeaf? {
      TapKeys(t, f.taps, list);
    }
  }

  lemma {:induction false} SectionsKeys(tb: Table, version: nat, f: Fields, ts: seq<nat>, list: Order)
    requires FieldsFit(tb, f) && Small(ts)
    ensures KeysThere(RecordsOfAll(tb, version, f, ts, list))
    decreases |ts|
  {
    hide FieldsFit, RecordsOf;
    if ts != [] {
      SectionsKeys(tb, version, f, ts[..|ts| - 1], list);
      SectionKeys(tb, version, f, ts[|ts| - 1], list);
    }
  }

  lemma RecordKeys(tb: Table, version: nat, f: Fields, list: Order)
    requires Valid(tb, f) && FieldsFit(tb, f)
    ensures KeysThere(Records(tb, version, f, list))
  {
    hide FieldsFit, KindOf, TapsValid, SingleValid, KeyedValid, RecordsOfAll, SortDict;
    OrderCovers(tb, 0);
    SectionsKeys(tb, version, f, WriteOrder(tb), list);
    SortedOthers(tb, f.other);
  }
}
