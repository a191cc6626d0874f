/** Writing a map and reading it again: what comes back, and exactly when that is the normal form. */
module PsbtMapTheorems {
  import opened Python
  import opened Serialize
  import opened KeyValue
  import opened Dicts
  import opened PsbtCodecs
  import opened PsbtMaps
  import opened PsbtMapsRoundTrip

  // ------------------------------------------------------------ what has been read after some types

  const TAP_LEAF: nat := 0x15

  /** The part of fields that belongs to the types in `ts`. */
  function Upto(tb: Table, g: Fields, ts: seq<nat>): Fields {
    Fields(
      map t | t in g.singles && t in ts :: g.singles[t],
      map t | t in g.keyed && t in ts :: g.keyed[t],
      if tb == INPUT && TAP_LEAF in ts then g.taps else [],
      [])
  }

  /** What reading has made of `f` after the records of the types in `ts`. */
  function Done(tb: Table, version: nat, f: Fields, ts: seq<nat>): Fields {
    Upto(tb, Normalized(tb, version, f), ts)
  }

  function Section(tb: Table, version: nat, f: Fields, t: nat, list: Order): seq<Record>
    requires FieldsFit(tb, f) && t < 253
  {
    if Kept(tb, f, t) then RecordsOf(tb, version, f, t, list) else []
  }

  lemma TapLeafIs(tb: Table, t: nat)
    ensures KindOf(tb, t).TapLeaf? <==> tb == INPUT && t == TAP_LEAF
  {}

  lemma TapSigning()
    ensures Signing(INPUT, TAP_LEAF)
  {}

  lemma UptoSame(tb: Table, g: Fields, ts: seq<nat>, t: nat)
    requires t !in g.singles && t !in g.keyed && (tb == INPUT && t == TAP_LEAF ==> g.taps == [])
    ensures Upto(tb, g, ts + [t]) == Upto(tb, g, ts)
  {}

  lemma UptoSingle(tb: Table, g: Fields, ts: seq<nat>, t: nat)
    requires t in g.singles && t !in g.keyed && !(tb == INPUT && t == TAP_LEAF)
    ensures var h := Upto(tb, g, ts); Upto(tb, g, ts + [t]) == h.(singles := h.singles[t := g.singles[t]])
  {}

  lemma UptoKeyed(tb: Table, g: Fields, ts: seq<nat>, t: nat)
    requires t in g.keyed && t !in g.singles && !(tb == INPUT && t == TAP_LEAF)
    ensures var h := Upto(tb, g, ts); Upto(tb, g, ts + [t]) == h.(keyed := h.keyed[t := g.keyed[t]])
  {}

  lemma UptoTaps(g: Fields, ts: seq<nat>)
    requires TAP_LEAF !in g.keyed && TAP_LEAF !in g.singles
    ensures Upto(INPUT, g, ts + [TAP_LEAF]) == Upto(INPUT, g, ts).(taps := g.taps)
  {}

  lemma UptoNot(tb: Table, g: Fields, ts: seq<nat>, t: nat)
    requires t !in ts
    ensures DictOf(Upto(tb, g, ts), t) == [] && (tb == INPUT && t == TAP_LEAF ==> Upto(tb, g, ts).taps == [])
  {}

  /** Keys read so far begin with one of the types in `ts`. */
  predicate OfTypes(keys: set<Bytes>, ts: seq<nat>) {
    forall k :: k in keys ==> k != [] && k[0] as nat in ts
  }

  lemma FreshKey(seen: set<Bytes>, ts: seq<nat>, t: nat, tail: Bytes)
    requires t < 253 && t !in ts && OfTypes(seen, ts)
    ensures [TypeByte(t)] + tail !in seen
  {
    assert ([TypeByte(t)] + tail)[0] as nat == t;
  }

  // ------------------------------------------------------------ one type after the others

  lemma NothingFolds(tb: Table, version: nat, f: Fields, seen: set<Bytes>)
    ensures KeysThere([]) && Fold(tb, version, f, seen, []) == Ok((f, seen + {}))
  {
    assert seen + {} == seen;
  }

  lemma SingleSection(tb: Table, version: nat, f: Fields, ts: seq<nat>, seen: set<Bytes>, t: nat, list: Order)
    returns (keys: set<Bytes>)
    requires Valid(tb, f) && FieldsFit(tb, f) && Unambiguous(tb, f) && IsOrder(list) && t < 253 && t !in ts && OfTypes(seen, ts)
    requires KindOf(tb, t).Single? && Kept(tb, f, t)
    ensures OfType(keys, t) && KeysThere(RecordsOf(tb, version, f, t, list))
    ensures Fold(tb, version, Done(tb, version, f, ts), seen, RecordsOf(tb, version, f, t, list))
         == Ok((Done(tb, version, f, ts + [t]), seen + keys))
  {
    hide KindOf, Upto, Apply, Encode, Fits, Plain, IsOrder, NormalValue, SortDict, TapsValid, BlocksApart, OtherValid,
         Kept, Final, OfTypes;
    var g := Normalized(tb, version, f);
    var h := Upto(tb, g, ts);
    TapLeafIs(tb, t);
    FreshKey(seen, ts, t, []);
    assert [TypeByte(t)] + [] == [TypeByte(t)];
    if t in f.singles && Writes(KindOf(tb, t).when, version) {
      var r := ([TypeByte(t)], Encode(KindOf(tb, t).codec, f.singles[t], list));
      SingleApplies(tb, version, h, seen, t, f.singles[t], list);
      UptoSingle(tb, g, ts, t);
      FoldOne(tb, version, h, seen, r, Upto(tb, g, ts + [t]));
      keys := {[TypeByte(t)]};
    } else {
      keys := {};
      UptoSame(tb, g, ts, t);
      NothingFolds(tb, version, h, seen);
    }
  }

  lemma InOrderValid(byTail: bool, lens: set<nat>, codec: Codec, d: Dict<Value>)
    requires DictValid(lens, codec, d)
    ensures DictValid(lens, codec, InOrder(byTail, d))
    ensures forall x :: x in InOrder(byTail, d) ==> x in d
  {
    hide Fits, SortDict;
    SortedItems(d);
    forall i | 0 <= i < |InOrder(byTail, d)|
      ensures 1 + |InOrder(byTail, d)[i].0| in lens && Fits(codec, InOrder(byTail, d)[i].1)
    {
      assert InOrder(byTail, d)[i] in d;
    }
  }

  lemma KeyedSection(tb: Table, version: nat, f: Fields, ts: seq<nat>, seen: set<Bytes>, t: nat, list: Order)
    returns (keys: set<Bytes>)
    requires Valid(tb, f) && FieldsFit(tb, f) && Unambiguous(tb, f) && IsOrder(list) && t < 253 && t !in ts && OfTypes(seen, ts)
    requires KindOf(tb, t).Keyed? && Kept(tb, f, t)
    ensures OfType(keys, t) && KeysThere(RecordsOf(tb, version, f, t, list))
    ensures Fold(tb, version, Done(tb, version, f, ts), seen, RecordsOf(tb, version, f, t, list))
         == Ok((Done(tb, version, f, ts + [t]), seen + keys))
  {
    hide KindOf, Upto, Apply, Encode, Fits, Plain, IsOrder, NormalValue, SortDict, TapsValid, BlocksApart, OtherValid,
         Kept, Final, OfTypes, KeyedRecords, InOrder;
    var g := Normalized(tb, version, f);
    var h := Upto(tb, g, ts);
    var kind := KindOf(tb, t);
    TapLeafIs(tb, t);
    UptoNot(tb, g, ts, t);
    if t in f.keyed {
      var d := InOrder(kind.byTail, f.keyed[t]);
      InOrderFits(kind.byTail, kind.codec, f.keyed[t]);
      InOrderValid(kind.byTail, kind.lens, kind.codec, f.keyed[t]);
      assert [] + d == d;
      forall i | 0 <= i < |d| ensures 1 + |d[i].0| in kind.lens && Plain(d[i].1) && [TypeByte(t)] + d[i].0 !in seen {
        assert d[i] in f.keyed[t];
        FreshKey(seen, ts, t, d[i].0);
      }
      keys := KeyedFolds(tb, version, h, seen, t, [], d, list);
      UptoKeyed(tb, g, ts, t);
    } else {
      EmptyRecords(t, kind.byTail, kind.codec, list);
      keys := {};
      UptoSame(tb, g, ts, t);
      NothingFolds(tb, version, h, seen);
    }
  }

  lemma NoKeys<V>(d: Dict<V>)
    requires Keys(d) == {}
    ensures d == []
  {
    hide Keys;
    if d != [] { InKeys(d, 0); }
  }

  lemma EmptyRecords(t: nat, byTail: bool, codec: Codec, list: Order)
    requires t < 253
    ensures InOrder(byTail, []) == [] && KeyedRecords(t, codec, [], list) == []
  {
    SortedItems<Value>([]);
    NoKeys(SortDict<Value>([]));
  }

  lemma TapSection(version: nat, f: Fields, ts: seq<nat>, seen: set<Bytes>, t: nat, list: Order)
    returns (keys: set<Bytes>)
    requires Valid(INPUT, f) && FieldsFit(INPUT, f) && Unambiguous(INPUT, f) && IsOrder(list)
    requires t < 253 && t !in ts && OfTypes(seen, ts) && KindOf(INPUT, t).TapLeaf? && Kept(INPUT, f, t)
    ensures OfType(keys, t) && KeysThere(RecordsOf(INPUT, version, f, t, list))
    ensures Fold(INPUT, version, Done(INPUT, version, f, ts), seen, RecordsOf(INPUT, version, f, t, list))
         == Ok((Done(INPUT, version, f, ts + [t]), seen + keys))
  {
    hide KindOf, Upto, Apply, Encode, Fits, Plain, IsOrder, NormalValue, SortDict, TapsValid, BlocksApart, OtherValid,
         Final, OfTypes, TapRecords, Signing;
    var g := Normalized(INPUT, version, f);
    var h := Upto(INPUT, g, ts);
    TapLeafIs(INPUT, t);
    TapSigning();
    UptoNot(INPUT, g, ts, t);
    assert [] + f.taps == f.taps;
    forall b | b in AllBlocks(f.taps) ensures [TypeByte(t)] + b !in seen { FreshKey(seen, ts, t, b); }
    keys := TapsFold(version, h, seen, t, [], f.taps, list);
    UptoTaps(g, ts);
  }

  lemma AnySection(tb: Table, version: nat, f: Fields, ts: seq<nat>, seen: set<Bytes>, t: nat, list: Order)
    returns (keys: set<Bytes>)
    requires Valid(tb, f) && FieldsFit(tb, f) && Unambiguous(tb, f) && IsOrder(list) && t < 253 && t !in ts && OfTypes(seen, ts)
    ensures OfType(keys, t) && KeysThere(Section(tb, version, f, t, list))
    ensures Fold(tb, version, Done(tb, version, f, ts), seen, Section(tb, version, f, t, list))
         == Ok((Done(tb, version, f, ts + [t]), seen + keys))
  {
    hide KindOf, Upto, Apply, Encode, Fits, Plain, IsOrder, NormalValue, SortDict, TapsValid, BlocksApart, OtherValid,
         Final, OfTypes, KeyedRecords, TapRecords, Unambiguous, Signing, FieldsFit;
    var g := Normalized(tb, version, f);
    TapLeafIs(tb, t);
    TapSigning();
    if !Kept(tb, f, t) || KindOf(tb, t).Other? {
      keys := {};
      UptoSame(tb, g, ts, t);
      NothingFolds(tb, version, Upto(tb, g, ts), seen);
    } else if KindOf(tb, t).Single? {
      keys := SingleSection(tb, version, f, ts, seen, t, list);
    } else if KindOf(tb, t).Keyed? {
      keys := KeyedSection(tb, version, f, ts, seen, t, list);
    } else {
      keys := TapSection(version, f, ts, seen, t, list);
    }
  }

  // ------------------------------------------------------------ all types

  predicate Ascending(ts: seq<nat>) {
    forall i, j :: 0 <= i < j < |ts| ==> ts[i] != ts[j]
  }

  predicate Small(ts: seq<nat>) {
    forall i :: 0 <= i < |ts| ==> ts[i] < 253
  }

  lemma {:induction false} SectionsFold(tb: Table, version: nat, f: Fields, ts: seq<nat>, list: Order)
    returns (seen: set<Bytes>)
    requires Valid(tb, f) && FieldsFit(tb, f) && Unambiguous(tb, f) && IsOrder(list) && Ascending(ts) && Small(ts)
    ensures OfTypes(seen, ts) && KeysThere(RecordsOfAll(tb, version, f, ts, list))
    ensures Fold(tb, version, NO_FIELDS, {}, RecordsOfAll(tb, version, f, ts, list))
         == Ok((Done(tb, version, f, ts), seen))
    decreases |ts|
  {
    hide Valid, FieldsFit, Unambiguous, IsOrder, KindOf, Upto, Apply, RecordsOf, Normalized;
    if ts == [] {
      seen := {};
      UptoNothing(tb, Normalized(tb, version, f));
    } else {
      var n := |ts| - 1;
      var (init, t) := (ts[..n], ts[n]);
      assert ts == init + [t];
      var before := SectionsFold(tb, version, f, init, list);
      var keys := AnySection(tb, version, f, init, before, t, list);
      FoldConcat(tb, version, NO_FIELDS, {}, RecordsOfAll(tb, version, f, init, list), Section(tb, version, f, t, list));
      seen := before + keys;
    }
  }

  lemma UptoNothing(tb: Table, g: Fields)
    ensures Upto(tb, g, []) == NO_FIELDS
  {}

  lemma {:induction false} OrderCovers(tb: Table, t: nat)
    ensures !KindOf(tb, t).Other? <==> t in WriteOrder(tb)
    ensures Ascending(WriteOrder(tb)) && Small(WriteOrder(tb))
  {
    var ts := WriteOrder(tb);
    forall i, j | 0 <= i < j < |ts| ensures ts[i] != ts[j] {}
  }

  // ------------------------------------------------------------ counts and lengths of records

  lemma CountEncodes(x: Value, list: Order)
    requires Fits(CCount, x)
    ensures ReadCompactSize(Encode(CCount, x, list)).Ok? && ReadCompactSize(Encode(CCount, x, list)).value.0 == x.num
  {
    hide ReadCompactSize;
    NothingBehind(CompactSize(x.num));
    CompactSizeRoundTrip(x.num, []);
  }

  lemma CountsOfConcat(tb: Table, a: seq<Record>, b: seq<Record>)
    requires CountsPlain(tb, a) && CountsPlain(tb, b)
    ensures CountsPlain(tb, a + b)
  {
    hide IsCount, ReadCompactSize, CompactSize;
    forall i | 0 <= i < |a + b| && IsCount(tb, (a + b)[i])
      ensures ReadCompactSize((a + b)[i].1).Ok? && ReadCompactSize((a + b)[i].1).value.0 < U64
      ensures (a + b)[i].1 == CompactSize(ReadCompactSize((a + b)[i].1).value.0)
    {
      if i < |a| { assert (a + b)[i] == a[i]; } else { assert (a + b)[i] == b[i - |a|]; }
    }
  }

  predicate NoCounts(tb: Table, rs: seq<Record>) {
    forall i :: 0 <= i < |rs| ==> !IsCount(tb, rs[i])
  }

  lemma NotCount(tb: Table, t: nat, tail: Bytes, v: Bytes)
    requires t < 253 && !KindOf(tb, t).Single?
    ensures !IsCount(tb, ([TypeByte(t)] + tail, v))
  {
    hide KindOf, TypeOf;
    TypeOfKey(t, tail);
  }

  lemma {:induction false} KeyedNoCounts(tb: Table, t: nat, codec: Codec, d: Dict<Value>, list: Order)
    requires t < 253 && DictFits(codec, d) && KindOf(tb, t).Keyed?
    ensures NoCounts(tb, KeyedRecords(t, codec, d, list))
  {
    hide KindOf, IsCount, Encode;
    if d != [] {
      NotCount(tb, t, d[0].0, Encode(codec, d[0].1, list));
      KeyedNoCounts(tb, t, codec, d[1..], list);
    }
  }

  lemma {:induction false} BlocksNoCounts(t: nat, blocks: seq<Bytes>, v: Bytes)
    requires t < 253 && KindOf(INPUT, t).TapLeaf?
    ensures NoCounts(INPUT, BlockRecords(t, blocks, v))
  {
    hide KindOf, IsCount;
    if blocks != [] {
      NotCount(INPUT, t, blocks[0], v);
      BlocksNoCounts(t, blocks[1..], v);
    }
  }

  lemma {:induction false} TapsNoCounts(t: nat, taps: seq<TapScript>, list: Order)
    requires t < 253 && KindOf(INPUT, t).TapLeaf?
    ensures NoCounts(INPUT, TapRecords(t, taps, list))
  {
    hide KindOf, IsCount, BlockRecords;
    if taps != [] {
      BlocksNoCounts(t, list(taps[0].blocks), taps[0].script + [taps[0].leafVersion]);
      TapsNoCounts(t, taps[1..], list);
    }
  }

  lemma SectionCounts(tb: Table, version: nat, f: Fields, t: nat, list: Order)
    requires FieldsFit(tb, f) && t < 253
    ensures CountsPlain(tb, Section(tb, version, f, t, list))
  {
    hide KindOf, Encode, Fits, KeyedRecords, TapRecords, ReadCompactSize, CompactSize, Kept, TypeOf, InOrder;
    var kind := KindOf(tb, t);
    if kind.Single? && t in f.singles {
      assert [TypeByte(t)] + [] == [TypeByte(t)];
      TypeOfKey(t, []);
      if kind.codec == CCount { CountIs(f.singles[t], list); }
    } else if kind.Keyed? {
      InOrderFits(kind.byTail, kind.codec, DictOf(f, t));
      KeyedNoCounts(tb, t, kind.codec, InOrder(kind.byTail, DictOf(f, t)), list);
    } else if kind.TapLeaf? {
      TapLeafIs(tb, t);
      TapsNoCounts(t, f.taps, list);
    }
  }

  lemma CountIs(x: Value, list: Order)
    requires Fits(CCount, x)
    ensures var v := Encode(CCount, x, list);
            ReadCompactSize(v).Ok? && ReadCompactSize(v).value.0 < U64 && v == CompactSize(ReadCompactSize(v).value.0)
  {
    hide ReadCompactSize;
    CountEncodes(x, list);
  }

  lemma {:induction false} SectionsCounts(tb: Table, version: nat, f: Fields, ts: seq<nat>, list: Order)
    requires FieldsFit(tb, f) && Small(ts)
    ensures CountsPlain(tb, RecordsOfAll(tb, version, f, ts, list))
    decreases |ts|
  {
    hide FieldsFit, CountsPlain, RecordsOf;
    if ts == [] {
      NoRecords(tb);
    } else {
      var init := ts[..|ts| - 1];
      SectionsCounts(tb, version, f, init, list);
      SectionCounts(tb, version, f, ts[|ts| - 1], list);
      CountsOfConcat(tb, RecordsOfAll(tb, version, f, init, list), Section(tb, version, f, ts[|ts| - 1], list));
    }
  }

  lemma NoRecords(tb: Table)
    ensures CountsPlain(tb, [])
  {}

  lemma OthersCounts(tb: Table, d: Dict<Bytes>)
    requires OtherValid(tb, d)
    ensures CountsPlain(tb, d)
  {
    hide KindOf, TypeOf;
  }

  lemma SortedOthers(tb: Table, d: Dict<Bytes>)
    requires OtherValid(tb, d)
    ensures OtherValid(tb, SortDict(d))
  {
    hide KindOf, TypeOf, SortDict;
    SortedItems(d);
    var e := SortDict(d);
    forall i | 0 <= i < |e| ensures e[i].0 != [] && TypeOf(e[i].0).Ok? && KindOf(tb, TypeOf(e[i].0).value).Other? {
      assert e[i] in d;
    }
  }

  lemma RecordsCounts(tb: Table, version: nat, f: Fields, list: Order)
    requires Valid(tb, f) && FieldsFit(tb, f)
    ensures CountsPlain(tb, Records(tb, version, f, list))
  {
    hide CountsPlain, FieldsFit, KindOf, TapsValid, RecordsOfAll, SortDict, SingleValid, KeyedValid;
    OrderCovers(tb, 0);
    SectionsCounts(tb, version, f, WriteOrder(tb), list);
    SortedOthers(tb, f.other);
    OthersCounts(tb, SortDict(f.other));
    CountsOfConcat(tb, RecordsOfAll(tb, version, f, WriteOrder(tb), list), SortDict(f.other));
  }

  // ------------------------------------------------------------ the whole map

  /** What reading makes of the records that `f` is written as. */
  function Reread(tb: Table, version: nat, f: Fields, list: Order): Result<Fields>
    requires FieldsFit(tb, f) && KeysThere(Records(tb, version, f, list))
  {
    match Fold(tb, version, NO_FIELDS, {}, Records(tb, version, f, list))
    case Ok((h, _)) => Ok(h)
    case Err(e) => Err(e)
  }

  function Before<T>(r: Result<T>, rest: Bytes): Result<(T, Bytes)> {
    var x :- r;
    Ok((x, rest))
  }

  /** The read loop consumes exactly what was written, whatever it makes of it. */
  lemma ReadsWritten(tb: Table, version: nat, f: Fields, list: Order, rest: Bytes)
    requires Valid(tb, f) && FieldsFit(tb, f) && RecordsOk(Records(tb, version, f, list))
    ensures KeysThere(Records(tb, version, f, list))
    ensures ReadMap(tb, version, NO_FIELDS, {}, SerMap(tb, version, f, list) + rest)
         == Before(Reread(tb, version, f, list), rest)
  {
    hide Valid, FieldsFit, Records, Fold, ReadMap;
    RecordsCounts(tb, version, f, list);
    MapRead(tb, version, NO_FIELDS, {}, Records(tb, version, f, list), rest);
  }

  lemma AllTypes(tb: Table, version: nat, f: Fields)
    requires Valid(tb, f)
    ensures Done(tb, version, f, WriteOrder(tb)) == Normalized(tb, version, f).(other := [])
  {
    hide KindOf, WriteOrder, OtherValid, Kept, NormalValue, Ordered, SortDict;
    var ts := WriteOrder(tb);
    forall t ensures !KindOf(tb, t).Other? <==> t in ts { OrderCovers(tb, t); }
    TapLeafIs(tb, TAP_LEAF);
    var g := Normalized(tb, version, f);
    assert Done(tb, version, f, ts).singles == g.singles;
    assert Done(tb, version, f, ts).keyed == g.keyed;
  }

  lemma Rereads(tb: Table, version: nat, f: Fields, list: Order)
    requires Valid(tb, f) && FieldsFit(tb, f) && Unambiguous(tb, f) && IsOrder(list)
    ensures KeysThere(Records(tb, version, f, list))
    ensures Reread(tb, version, f, list) == Ok(Normalized(tb, version, f))
  {
    hide FieldsFit, Unambiguous, IsOrder, KindOf, WriteOrder, TapsValid, SingleValid, KeyedValid, Fold, Kept, NormalValue,
         Ordered, SortDict, RecordsOfAll, Upto, OtherValid;
    var ts := WriteOrder(tb);
    OrderCovers(tb, 0);
    var seen := SectionsFold(tb, version, f, ts, list);
    AllTypes(tb, version, f);
    SortedOthers(tb, f.other);
    var d := SortDict(f.other);
    assert [] + d == d;
    var after := OthersFold(tb, version, Done(tb, version, f, ts), seen, [], d);
    FoldConcat(tb, version, NO_FIELDS, {}, RecordsOfAll(tb, version, f, ts, list), d);
  }
}
