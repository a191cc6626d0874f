/** Reading a written map gives its normal form back. */
module PsbtMapsRoundTrip {
  import opened Python
  import opened Serialize
  import opened KeyValue
  import opened Dicts
  import opened PsbtCodecs
  import opened PsbtMaps

  // ------------------------------------------------------------ records one by one

  predicate KeysThere(rs: seq<Record>) {
    forall i :: 0 <= i < |rs| ==> rs[i].0 != []
  }

  function Apply(tb: Table, version: nat, f: Fields, seen: set<Bytes>, r: Record): Result<Fields>
    requires r.0 != []
  {
    var t :- TypeOf(r.0);
    if !Admitted(tb, version, f, seen, t, r.0) then Err(PSBTSerializationError)
    else Store(tb, f, t, r.0, r.1)
  }

  function Fold(tb: Table, version: nat, f: Fields, seen: set<Bytes>, rs: seq<Record>): Result<(Fields, set<Bytes>)>
    requires KeysThere(rs)
    decreases |rs|
  {
    if rs == [] then Ok((f, seen))
    else
      var g :- Apply(tb, version, f, seen, rs[0]);
      Fold(tb, version, g, seen + {rs[0].0}, rs[1..])
  }

  /** Counts stand in the stream as the code writes them. */
  predicate IsCount(tb: Table, r: Record) {
    r.0 != [] && TypeOf(r.0).Ok? && KindOf(tb, TypeOf(r.0).value).Single?
    && KindOf(tb, TypeOf(r.0).value).codec == CCount
  }

  predicate CountsPlain(tb: Table, rs: seq<Record>) {
    forall i :: 0 <= i < |rs| && IsCount(tb, rs[i]) ==>
      ReadCompactSize(rs[i].1).Ok? && ReadCompactSize(rs[i].1).value.0 < U64
      && rs[i].1 == CompactSize(ReadCompactSize(rs[i].1).value.0)
  }

  lemma CountValue(n: nat, rest: Bytes)
    requires n < U64
    ensures var v := SerString(CompactSize(n));
            ReadCompactSize(v + rest).Ok? && ReadCompactSize(ReadCompactSize(v + rest).value.1) == Ok((n, rest))
  {
    hide ReadCompactSize;
    var c := CompactSize(n);
    CompactSizeRoundTrip(|c|, c + rest);
    CompactSizeRoundTrip(n, rest);
    assert SerString(c) + rest == CompactSize(|c|) + (c + rest);
  }

  lemma ValueRead(tb: Table, r: Record, t: nat, rest: Bytes)
    requires r.0 != [] && TypeOf(r.0) == Ok(t) && |r.1| < U64 && CountsPlain(tb, [r])
    ensures ReadValue(tb, t, SerString(r.1) + rest) == Ok((r.1, rest))
  {
    hide KindOf, TypeOf, ReadCompactSize, CompactSize, SerString, ReadString;
    StringRoundTrip(r.1, rest);
    if IsCount(tb, r) {
      assert [r][0] == r;
      CountValue(ReadCompactSize(r.1).value.0, rest);
    }
  }

  lemma RecordRead(tb: Table, version: nat, f: Fields, seen: set<Bytes>, r: Record, rest: Bytes)
    requires r.0 != [] && |r.1| < U64 && CountsPlain(tb, [r])
    ensures ReadRecord(tb, version, f, seen, r.0, SerString(r.1) + rest)
         == match Apply(tb, version, f, seen, r) case Ok(g) => Ok((g, rest)) case Err(e) => Err(e)
  {
    hide KindOf, TypeOf, SerString, ReadValue, Admitted, Store, CountsPlain;
    if TypeOf(r.0).Ok? { ValueRead(tb, r, TypeOf(r.0).value, rest); }
  }

  lemma SeparatorRead(rest: Bytes)
    ensures ReadString([0] + rest) == Ok(([], rest))
  {
    StringRoundTrip([], rest);
    assert SerString([]) + rest == [0] + rest;
  }

  /** The read loop on written records is the fold over them. */
  lemma {:induction false} MapRead(tb: Table, version: nat, f: Fields, seen: set<Bytes>, rs: seq<Record>, rest: Bytes)
    requires RecordsOk(rs) && CountsPlain(tb, rs)
    ensures KeysThere(rs)
    ensures ReadMap(tb, version, f, seen, SerRecords(rs) + [0] + rest)
         == match Fold(tb, version, f, seen, rs) case Ok((g, _)) => Ok((g, rest)) case Err(e) => Err(e)
    decreases |rs|
  {
    hide Apply, ReadRecord, SerString, ReadString, IsCount;
    if rs == [] {
      assert SerRecords(rs) + [0] + rest == [0] + rest;
      SeparatorRead(rest);
    } else {
      var r := rs[0];
      var tail := SerRecords(rs[1..]) + [0] + rest;
      assert SerRecords(rs) + [0] + rest == SerString(r.0) + (SerString(r.1) + tail);
      StringRoundTrip(r.0, SerString(r.1) + tail);
      assert CountsPlain(tb, [r]);
      RecordRead(tb, version, f, seen, r, tail);
      if Apply(tb, version, f, seen, r).Ok? {
        MapRead(tb, version, Apply(tb, version, f, seen, r).value, seen + {r.0}, rs[1..], rest);
      }
    }
  }

  lemma {:induction false} FoldConcat(tb: Table, version: nat, f: Fields, seen: set<Bytes>, a: seq<Record>, b: seq<Record>)
    requires KeysThere(a) && KeysThere(b)
    ensures KeysThere(a + b)
    ensures Fold(tb, version, f, seen, a + b)
         == match Fold(tb, version, f, seen, a) case Ok((g, s)) => Fold(tb, version, g, s, b) case Err(e) => Err(e)
    decreases |a|
  {
    hide Apply;
    if a == [] {
      assert a + b == b;
    } else {
      assert (a + b)[0] == a[0] && (a + b)[1..] == a[1..] + b;
      if Apply(tb, version, f, seen, a[0]).Ok? {
        FoldConcat(tb, version, Apply(tb, version, f, seen, a[0]).value, seen + {a[0].0}, a[1..], b);
      }
    }
  }

  lemma FoldOne(tb: Table, version: nat, f: Fields, seen: set<Bytes>, r: Record, g: Fields)
    requires r.0 != [] && Apply(tb, version, f, seen, r) == Ok(g)
    ensures Fold(tb, version, f, seen, [r]) == Ok((g, seen + {r.0}))
  {
    hide Apply;
    assert [r][1..] == [];
  }

  // ------------------------------------------------------------ valid fields and their normal form

  /** Dictionaries that reading can have made: never empty, with keys of the right lengths. */
  predicate DictValid(lens: set<nat>, codec: Codec, d: Dict<Value>) {
    && d != [] && Distinct(d)
    && forall i :: 0 <= i < |d| ==> 1 + |d[i].0| in lens && Fits(codec, d[i].1)
  }

  predicate BlockValid(b: Bytes) {
    |b| >= 33 && (|b| - 1) % 32 == 0
  }

  predicate TapsValid(taps: seq<TapScript>) {
    && (forall i, j :: 0 <= i < j < |taps| ==>
          taps[i].script != taps[j].script || taps[i].leafVersion != taps[j].leafVersion)
    && forall i :: 0 <= i < |taps| ==> taps[i].blocks != {} && forall b :: b in taps[i].blocks ==> BlockValid(b)
  }

  predicate SingleValid(tb: Table, t: nat, x: Value) {
    KindOf(tb, t).Single? && Fits(KindOf(tb, t).codec, x) && !Blank(x)
  }

  predicate KeyedValid(tb: Table, t: nat, d: Dict<Value>) {
    KindOf(tb, t).Keyed? && DictValid(KindOf(tb, t).lens, KindOf(tb, t).codec, d)
  }

  predicate OtherValid(tb: Table, d: Dict<Bytes>) {
    && Distinct(d)
    && forall i :: 0 <= i < |d| ==> d[i].0 != [] && TypeOf(d[i].0).Ok? && KindOf(tb, TypeOf(d[i].0).value).Other?
  }

  /** Fields as the read loop makes them. */
  predicate Valid(tb: Table, f: Fields) {
    && (forall t :: t in f.singles ==> SingleValid(tb, t, f.singles[t]))
    && (forall t :: t in f.keyed ==> KeyedValid(tb, t, f.keyed[t]))
    && TapsValid(f.taps) && (tb != INPUT ==> f.taps == [])
    && OtherValid(tb, f.other)
  }

  lemma ValidFits(tb: Table, f: Fields)
    requires Valid(tb, f)
    ensures FieldsFit(tb, f)
  {
    hide KindOf;
  }

  /** Whether a type is written. */
  predicate Kept(tb: Table, f: Fields, t: nat) {
    !(Final(tb, f) && Signing(tb, t))
  }

  predicate KeptSingle(tb: Table, version: nat, f: Fields, t: nat) {
    KindOf(tb, t).Single? && Writes(KindOf(tb, t).when, version) && Kept(tb, f, t)
  }

  function Ordered(tb: Table, t: nat, d: Dict<Value>): Dict<Value> {
    match KindOf(tb, t)
    case Keyed(_, byTail, _) => InOrder(byTail, d)
    case _ => d
  }

  /**
   * The normal form: without the signing fields of finalized inputs and the fields of other versions,
   * with sorted dictionaries sorted, and without empty witness lists.
   */
  function Normalized(tb: Table, version: nat, f: Fields): Fields {
    Fields(
      map t | t in f.singles && KeptSingle(tb, version, f, t) :: NormalValue(f.singles[t]),
      map t | t in f.keyed && Kept(tb, f, t) :: Ordered(tb, t, f.keyed[t]),
      if Final(tb, f) then [] else f.taps,
      SortDict(f.other))
  }

  /** No control block stands under two leaf scripts. */
  predicate BlocksApart(taps: seq<TapScript>) {
    forall i, j :: 0 <= i < j < |taps| ==> taps[i].blocks !! taps[j].blocks
  }

  /** The unsigned transaction is read in a way that leaves no doubt; other values may be misread. */
  predicate PlainSingle(tb: Table, t: nat, x: Value) {
    (KindOf(tb, t).Single? && KindOf(tb, t).codec == CUnsigned) || Plain(x)
  }

  /** Every leaf hash that is written has its full length. */
  predicate FullHashes(tb: Table, f: Fields) {
    forall t, i :: t in f.keyed && Kept(tb, f, t) && 0 <= i < |f.keyed[t]| ==> Plain(f.keyed[t][i].1)
  }

  /** Fields that are written unambiguously. */
  predicate Unambiguous(tb: Table, f: Fields) {
    && FullHashes(tb, f)
    && (forall t :: t in f.singles ==> PlainSingle(tb, t, f.singles[t]))
    && (Final(tb, f) || BlocksApart(f.taps))
  }

  // ------------------------------------------------------------ one type

  lemma TypeOfKey(t: nat, tail: Bytes)
    requires t < 253
    ensures TypeOf([TypeByte(t)] + tail) == Ok(t)
  {
    ReadTag(TypeByte(t), tail);
  }

  lemma SingleApplies(tb: Table, version: nat, f: Fields, seen: set<Bytes>, t: nat, x: Value, list: Order)
    requires t < 253 && SingleValid(tb, t, x) && PlainSingle(tb, t, x) && IsOrder(list)
    requires Writes(KindOf(tb, t).when, version) && [TypeByte(t)] !in seen
    ensures Apply(tb, version, f, seen, ([TypeByte(t)], Encode(KindOf(tb, t).codec, x, list)))
         == Ok(f.(singles := f.singles[t := NormalValue(x)]))
  {
    hide KindOf, TypeOf, Decode, Encode, Fits, Plain, NormalTx, IsOrder;
    TypeOfKey(t, []);
    assert [TypeByte(t)] + [] == [TypeByte(t)];
    Recode(KindOf(tb, t).codec, x, list);
  }

  lemma KeyedCodec(tb: Table, t: nat)
    requires KindOf(tb, t).Keyed?
    ensures KindOf(tb, t).codec != CTx && KindOf(tb, t).codec != CUnsigned
  {}

  lemma NotTx(c: Codec, x: Value)
    requires Fits(c, x) && c != CTx && c != CUnsigned
    ensures NormalValue(x) == x
  {}

  lemma KeyedApplies(tb: Table, version: nat, f: Fields, seen: set<Bytes>, t: nat, k: Bytes, x: Value, list: Order)
    requires t < 253 && KindOf(tb, t).Keyed? && 1 + |k| in KindOf(tb, t).lens
    requires Fits(KindOf(tb, t).codec, x) && Plain(x) && IsOrder(list)
    requires k !in Keys(DictOf(f, t)) && [TypeByte(t)] + k !in seen
    ensures Apply(tb, version, f, seen, ([TypeByte(t)] + k, Encode(KindOf(tb, t).codec, x, list)))
         == Ok(f.(keyed := f.keyed[t := DictOf(f, t) + [(k, x)]]))
  {
    hide KindOf, TypeOf, Decode, Encode, Fits, Plain, NormalTx, IsOrder, Keys, Put, DictOf;
    TypeOfKey(t, k);
    KeyedCodec(tb, t);
    Recode(KindOf(tb, t).codec, x, list);
    NotTx(KindOf(tb, t).codec, x);
    PutNew(DictOf(f, t), k, x);
    assert ([TypeByte(t)] + k)[1..] == k;
  }

  lemma NewKey<V>(acc: Dict<V>, d: Dict<V>)
    requires d != [] && Distinct(acc + d)
    ensures d[0].0 !in Keys(acc)
  {
    assert (acc + d)[|acc|] == d[0];
    forall i | 0 <= i < |acc| ensures (acc + d)[i] == acc[i] {}
    if d[0].0 in Keys(acc) {
      var i := KeyIndex(acc, d[0].0);
    }
  }

  /** The keys that records of one type leave behind all begin with that type. */
  predicate OfType(keys: set<Bytes>, t: nat)
    requires t < 253
  {
    forall k :: k in keys ==> k != [] && k[0] == TypeByte(t)
  }

  lemma {:induction false} KeyedFolds(tb: Table, version: nat, f: Fields, seen: set<Bytes>, t: nat, acc: Dict<Value>,
                                      d: Dict<Value>, list: Order) returns (keys: set<Bytes>)
    requires t < 253 && KindOf(tb, t).Keyed? && IsOrder(list) && DictOf(f, t) == acc && Distinct(acc + d)
    requires DictFits(KindOf(tb, t).codec, d)
    requires forall i :: 0 <= i < |d| ==> 1 + |d[i].0| in KindOf(tb, t).lens && Plain(d[i].1) && [TypeByte(t)] + d[i].0 !in seen
    ensures OfType(keys, t) && KeysThere(KeyedRecords(t, KindOf(tb, t).codec, d, list))
    ensures Fold(tb, version, f, seen, KeyedRecords(t, KindOf(tb, t).codec, d, list))
         == Ok((if d == [] then f else f.(keyed := f.keyed[t := acc + d]), seen + keys))
    decreases |d|
  {
    hide KindOf, Apply, Encode, Fits, Plain, IsOrder;
    if d == [] {
      keys := {};
      assert seen + {} == seen;
    } else {
      var (k, x) := d[0];
      var key := [TypeByte(t)] + k;
      var g := f.(keyed := f.keyed[t := acc + [(k, x)]]);
      var codec := KindOf(tb, t).codec;
      NewKey(acc, d);
      KeyedApplies(tb, version, f, seen, t, k, x, list);
      assert acc + d == acc + [(k, x)] + d[1..];
      NoLater(t, d, acc);
      var more := KeyedFolds(tb, version, g, seen + {key}, t, acc + [(k, x)], d[1..], list);
      var rs := KeyedRecords(t, codec, d, list);
      assert rs[0] == (key, Encode(codec, x, list)) && rs[1..] == KeyedRecords(t, codec, d[1..], list);
      keys := {key} + more;
      assert seen + {key} + more == seen + keys;
      if d[1..] == [] {
        assert acc + [(k, x)] == acc + d;
      } else {
        assert g.keyed[t := acc + [(k, x)] + d[1..]] == f.keyed[t := acc + d];
      }
    }
  }

  /** Later keys of a dictionary differ from its first. */
  lemma NoLater(t: nat, d: Dict<Value>, acc: Dict<Value>)
    requires t < 253 && d != [] && Distinct(acc + d)
    ensures forall i :: 0 <= i < |d[1..]| ==> [TypeByte(t)] + d[1..][i].0 != [TypeByte(t)] + d[0].0
  {
    forall i | 0 <= i < |d[1..]| ensures [TypeByte(t)] + d[1..][i].0 != [TypeByte(t)] + d[0].0 {
      assert (acc + d)[|acc|].0 != (acc + d)[|acc| + 1 + i].0;
      assert ([TypeByte(t)] + d[1..][i].0)[1..] == d[1..][i].0 && ([TypeByte(t)] + d[0].0)[1..] == d[0].0;
    }
  }

  // ------------------------------------------------------------ leaf scripts

  predicate NoSuchTap(taps: seq<TapScript>, script: Bytes, leafVersion: byte) {
    forall i :: 0 <= i < |taps| ==> taps[i].script != script || taps[i].leafVersion != leafVersion
  }

  lemma {:induction false} AddFirst(taps: seq<TapScript>, script: Bytes, leafVersion: byte, block: Bytes)
    requires NoSuchTap(taps, script, leafVersion)
    ensures AddBlock(taps, script, leafVersion, block) == taps + [TapScript(script, leafVersion, {block})]
    decreases |taps|
  {
    if taps != [] {
      assert taps[0].script != script || taps[0].leafVersion != leafVersion;
      forall i | 0 <= i < |taps[1..]| ensures taps[1..][i].script != script || taps[1..][i].leafVersion != leafVersion {
        assert taps[1..][i] == taps[i + 1];
      }
      AddFirst(taps[1..], script, leafVersion, block);
    }
  }

  lemma {:induction false} AddNext(taps: seq<TapScript>, last: TapScript, block: Bytes)
    requires NoSuchTap(taps, last.script, last.leafVersion)
    ensures AddBlock(taps + [last], last.script, last.leafVersion, block)
         == taps + [last.(blocks := last.blocks + {block})]
    decreases |taps|
  {
    if taps != [] {
      assert taps[0].script != last.script || taps[0].leafVersion != last.leafVersion;
      forall i | 0 <= i < |taps[1..]|
        ensures taps[1..][i].script != last.script || taps[1..][i].leafVersion != last.leafVersion
      {
        assert taps[1..][i] == taps[i + 1];
      }
      AddNext(taps[1..], last, block);
      assert (taps + [last])[1..] == taps[1..] + [last];
    } else {
      assert taps + [last] == [last];
    }
  }

  /** The script with the blocks added so far, if there are any. */
  function SoFar(taps: seq<TapScript>, script: Bytes, leafVersion: byte, blocks: set<Bytes>): seq<TapScript> {
    if blocks == {} then taps else taps + [TapScript(script, leafVersion, blocks)]
  }

  lemma BlockApplies(version: nat, f: Fields, seen: set<Bytes>, t: nat, taps: seq<TapScript>, script: Bytes,
                     leafVersion: byte, done: set<Bytes>, block: Bytes)
    requires t < 253 && KindOf(INPUT, t).TapLeaf? && f.taps == SoFar(taps, script, leafVersion, done)
    requires NoSuchTap(taps, script, leafVersion) && BlockValid(block) && [TypeByte(t)] + block !in seen
    ensures Apply(INPUT, version, f, seen, ([TypeByte(t)] + block, script + [leafVersion]))
         == Ok(f.(taps := SoFar(taps, script, leafVersion, done + {block})))
  {
    hide KindOf, TypeOf, NoSuchTap, AddBlock;
    TypeOfKey(t, block);
    var v := script + [leafVersion];
    assert v[..|v| - 1] == script && v[|v| - 1] == leafVersion;
    assert ([TypeByte(t)] + block)[1..] == block;
    if done == {} {
      AddFirst(taps, script, leafVersion, block);
      assert {} + {block} == {block};
    } else {
      AddNext(taps, TapScript(script, leafVersion, done), block);
    }
  }

  predicate NoRepeats(xs: seq<Bytes>) {
    forall i, j :: 0 <= i < j < |xs| ==> xs[i] != xs[j]
  }

  /** The keys of some blocks. */
  function BlockKeys(t: nat, blocks: seq<Bytes>): (r: set<Bytes>)
    requires t < 253
    ensures forall k :: k in r ==> k != [] && k[0] == TypeByte(t) && k[1..] in blocks
  {
    if blocks == [] then {}
    else
      assert ([TypeByte(t)] + blocks[0])[1..] == blocks[0];
      {[TypeByte(t)] + blocks[0]} + BlockKeys(t, blocks[1..])
  }

  lemma {:induction false} BlocksFold(version: nat, f: Fields, seen: set<Bytes>, t: nat, taps: seq<TapScript>,
                                      script: Bytes, leafVersion: byte, done: set<Bytes>, blocks: seq<Bytes>)
    requires t < 253 && KindOf(INPUT, t).TapLeaf? && f.taps == SoFar(taps, script, leafVersion, done)
    requires NoSuchTap(taps, script, leafVersion) && NoRepeats(blocks)
    requires forall i :: 0 <= i < |blocks| ==> BlockValid(blocks[i]) && [TypeByte(t)] + blocks[i] !in seen
    ensures KeysThere(BlockRecords(t, blocks, script + [leafVersion]))
    ensures Fold(INPUT, version, f, seen, BlockRecords(t, blocks, script + [leafVersion]))
         == Ok((f.(taps := SoFar(taps, script, leafVersion, done + ToSet(blocks))), seen + BlockKeys(t, blocks)))
    decreases |blocks|
  {
    hide KindOf, Apply, NoSuchTap, BlockValid, SoFar;
    var v := script + [leafVersion];
    if blocks == [] {
      assert done + {} == done && seen + {} == seen;
      assert f.(taps := f.taps) == f;
    } else {
      var b, more := blocks[0], blocks[1..];
      var key := [TypeByte(t)] + b;
      var g := f.(taps := SoFar(taps, script, leafVersion, done + {b}));
      BlockApplies(version, f, seen, t, taps, script, leafVersion, done, b);
      forall i | 0 <= i < |more| ensures BlockValid(more[i]) && [TypeByte(t)] + more[i] !in seen + {key} {
        assert more[i] == blocks[i + 1];
        assert ([TypeByte(t)] + more[i])[1..] == more[i] && key[1..] == b;
      }
      BlocksFold(version, g, seen + {key}, t, taps, script, leafVersion, done + {b}, more);
      var rs := BlockRecords(t, blocks, v);
      assert rs[0] == (key, v) && rs[1..] == BlockRecords(t, more, v);
      assert done + {b} + ToSet(more) == done + ToSet(blocks);
      assert seen + {key} + BlockKeys(t, more) == seen + BlockKeys(t, blocks);
    }
  }

  /** All blocks of some scripts. */
  function AllBlocks(taps: seq<TapScript>): (r: set<Bytes>)
    ensures forall i, b :: 0 <= i < |taps| && b in taps[i].blocks ==> b in r
  {
    if taps == [] then {} else taps[0].blocks + AllBlocks(taps[1..])
  }

  lemma {:induction false} InAllBlocks(taps: seq<TapScript>, b: Bytes) returns (i: nat)
    requires b in AllBlocks(taps)
    ensures i < |taps| && b in taps[i].blocks
  {
    if b in taps[0].blocks {
      i := 0;
    } else {
      i := InAllBlocks(taps[1..], b);
      i := i + 1;
    }
  }

  lemma ListBlocks(list: Order, blocks: set<Bytes>)
    requires IsOrder(list)
    ensures NoRepeats(list(blocks)) && ToSet(list(blocks)) == blocks
  {}

  lemma TapsTail(tap: TapScript, more: seq<TapScript>, done: seq<TapScript>)
    requires TapsValid(done + ([tap] + more)) && BlocksApart([tap] + more)
    ensures NoSuchTap(done, tap.script, tap.leafVersion) && tap.blocks != {}
    ensures forall b :: b in tap.blocks ==> BlockValid(b)
    ensures BlocksApart(more) && forall b :: b in AllBlocks(more) ==> b !in tap.blocks
  {
    var all := done + ([tap] + more);
    assert all[|done|] == tap;
    forall i | 0 <= i < |done| ensures done[i].script != tap.script || done[i].leafVersion != tap.leafVersion {
      assert all[i] == done[i];
    }
    forall i, j | 0 <= i < j < |more| ensures more[i].blocks !! more[j].blocks {
      assert ([tap] + more)[i + 1] == more[i] && ([tap] + more)[j + 1] == more[j];
    }
    forall b | b in AllBlocks(more) ensures b !in tap.blocks {
      var i := InAllBlocks(more, b);
      assert ([tap] + more)[0] == tap && ([tap] + more)[i + 1] == more[i];
    }
  }

  lemma {:induction false} TapsFold(version: nat, f: Fields, seen: set<Bytes>, t: nat, done: seq<TapScript>,
                                    taps: seq<TapScript>, list: Order) returns (keys: set<Bytes>)
    requires t < 253 && KindOf(INPUT, t).TapLeaf? && f.taps == done && IsOrder(list)
    requires TapsValid(done + taps) && BlocksApart(taps)
    requires forall b :: b in AllBlocks(taps) ==> [TypeByte(t)] + b !in seen
    ensures OfType(keys, t) && KeysThere(TapRecords(t, taps, list))
    ensures Fold(INPUT, version, f, seen, TapRecords(t, taps, list)) == Ok((f.(taps := done + taps), seen + keys))
    decreases |taps|
  {
    hide KindOf, Apply, NoSuchTap, BlockValid, TapsValid, BlocksApart, IsOrder, BlockRecords;
    if taps == [] {
      keys := {};
      assert done + taps == done && seen + {} == seen;
      assert f.(taps := f.taps) == f;
    } else {
      var tap, more := taps[0], taps[1..];
      assert taps == [tap] + more;
      var v := tap.script + [tap.leafVersion];
      var blocks := list(tap.blocks);
      TapsTail(tap, more, done);
      ListBlocks(list, tap.blocks);
      forall i | 0 <= i < |blocks| ensures BlockValid(blocks[i]) && [TypeByte(t)] + blocks[i] !in seen {
        assert blocks[i] in ToSet(blocks);
      }
      BlocksFold(version, f, seen, t, done, tap.script, tap.leafVersion, {}, blocks);
      assert {} + ToSet(blocks) == tap.blocks;
      var g := f.(taps := done + [tap]);
      var seen1 := seen + BlockKeys(t, blocks);
      forall b | b in AllBlocks(more) ensures [TypeByte(t)] + b !in seen1 {
        assert b in AllBlocks(taps);
        assert ([TypeByte(t)] + b)[1..] == b;
      }
      assert done + [tap] + more == done + taps;
      var rest := TapsFold(version, g, seen1, t, done + [tap], more, list);
      FoldConcat(INPUT, version, f, seen, BlockRecords(t, blocks, v), TapRecords(t, more, list));
      keys := BlockKeys(t, blocks) + rest;
      assert seen1 + rest == seen + keys;
    }
  }

  // ------------------------------------------------------------ unknown records

  lemma OtherApplies(tb: Table, version: nat, f: Fields, seen: set<Bytes>, k: Bytes, v: Bytes)
    requires k != [] && TypeOf(k).Ok? && KindOf(tb, TypeOf(k).value).Other? && k !in Keys(f.other)
    ensures Apply(tb, version, f, seen, (k, v)) == Ok(f.(other := f.other + [(k, v)]))
  {
    hide KindOf, TypeOf;
    PutNew(f.other, k, v);
  }

  lemma {:induction false} OthersFold(tb: Table, version: nat, f: Fields, seen: set<Bytes>, acc: Dict<Bytes>,
                                      d: Dict<Bytes>) returns (after: set<Bytes>)
    requires f.other == acc && OtherValid(tb, acc + d)
    ensures KeysThere(d)
    ensures Fold(tb, version, f, seen, d) == Ok((f.(other := acc + d), after))
    decreases |d|
  {
    hide KindOf, TypeOf, Apply;
    forall i | 0 <= i < |d| ensures d[i].0 != [] { assert (acc + d)[|acc| + i] == d[i]; }
    if d == [] {
      after := seen;
      assert acc + d == acc && f.(other := f.other) == f;
    } else {
      var (k, v) := d[0];
      assert (acc + d)[|acc|] == d[0];
      NewKey(acc, d);
      OtherApplies(tb, version, f, seen, k, v);
      assert acc + d == acc + [(k, v)] + d[1..];
      after := OthersFold(tb, version, f.(other := acc + [(k, v)]), seen + {k}, acc + [(k, v)], d[1..]);
    }
  }
}
