/** Loading what was dumped, under the schema itself or under one with fewer fields. */
module ProtobufRoundTrip {
  import opened Python
  import opened ProtobufSpec

  // ------------------------------------------------------------ numbers and readers

  /** A reader over `d` followed by `tail` that comes to its end behind `d`. */
  predicate Holds(r: Reader, d: Bytes, tail: Bytes) {
    r.rest == d + tail && (r.limit == Some(|d|) || (r.limit == None && tail == []))
  }

  lemma {:induction false} HoldsOn(r: Reader, a: Bytes, b: Bytes, tail: Bytes)
    requires Holds(r, a + b, tail)
    ensures Allows(r, |a|) && |a| <= |r.rest| && r.rest == a + (b + tail) && Holds(Advance(r, |a|), b, tail)
  {
    assert r.rest == a + (b + tail);
    assert r.rest[|a|..] == b + tail;
  }

  lemma {:induction false} AdvanceTwice(r: Reader, i: nat, j: nat)
    requires Allows(r, i + j) && i + j <= |r.rest|
    ensures Advance(Advance(r, i), j) == Advance(r, i + j)
  {}

  lemma {:induction false} UvarintLoads(n: nat, r: Reader, more: Bytes, first: bool)
    requires r.rest == Uvarint(n) + more && Allows(r, |Uvarint(n)|)
    ensures LoadUvarint(r, first) == Ok((n, Advance(r, |Uvarint(n)|)))
  {
    var d := Uvarint(n);
    assert r.rest[0] == d[0];
    if n >= 128 {
      var next := Advance(r, 1);
      assert d == [d[0]] + Uvarint(n / 128);
      assert next.rest == Uvarint(n / 128) + more;
      UvarintLoads(n / 128, next, more, false);
      AdvanceTwice(r, 1, |Uvarint(n / 128)|);
    }
  }

  lemma {:induction false} EndLoads(r: Reader, tail: Bytes)
    requires Holds(r, [], tail)
    ensures LoadUvarint(r, true) == Err(EOFError)
  {}

  lemma {:induction false} KeyParts(tag: nat, t: FieldType)
    ensures Key(tag, t) / 8 == tag && Key(tag, t) % 8 == WireType(t)
  {}

  // ------------------------------------------------------------ what comes back

  /** A schema with some of the fields of another, and all message types that those need. */
  predicate SubSchema(sub: Schema, schema: Schema) {
    && (forall name :: name in schema ==> DistinctTags(schema[name]))
    && forall name :: name in sub ==> name in schema && FewerFields(sub, sub[name], schema[name])
  }

  predicate FewerFields(sub: Schema, few: Fields, fs: Fields) {
    && DistinctTags(few)
    && forall j :: 0 <= j < |few| ==> FieldOf(fs, few[j]) && (few[j].1.typ.TMessage? ==> few[j].1.typ.name in sub)
  }

  predicate FieldOf(fs: Fields, x: (nat, Field)) {
    Find(fs, x.0) < |fs| && fs[Find(fs, x.0)] == x
  }

  /** One element, loaded under the smaller schema. */
  function Reload(sub: Schema, schema: Schema, t: FieldType, v: Value): (r: Result<Value>)
    requires SubSchema(sub, schema) && Typed(schema, t, v) && (t.TMessage? ==> t.name in sub)
    ensures r.Err? ==> r.error == ValueError
    decreases v, 1
  {
    if t.TMessage? then ReloadMessage(sub, schema, v) else Ok(v)
  }

  function ReloadItems(sub: Schema, schema: Schema, t: FieldType, s: Value, k: nat): (r: Result<seq<Value>>)
    requires SubSchema(sub, schema) && (t.TMessage? ==> t.name in sub)
    requires s.Many? && k <= |s.items| && forall i :: 0 <= i < |s.items| ==> Typed(schema, t, s.items[i])
    ensures r.Err? ==> r.error == ValueError
    decreases s, 0, |s.items| - k
  {
    if k == |s.items| then Ok([])
    else
      var x :- Reload(sub, schema, t, s.items[k]);
      var more :- ReloadItems(sub, schema, t, s, k + 1);
      Ok([x] + more)
  }

  /** A whole attribute; None is not dumped, so it comes back as what the field starts with. */
  function ReloadSlot(sub: Schema, schema: Schema, f: Field, s: Value): (r: Result<Value>)
    requires SubSchema(sub, schema) && TypedSlot(schema, f, s) && (f.typ.TMessage? ==> f.typ.name in sub)
    ensures r.Err? ==> r.error == ValueError
    decreases s, 2
  {
    if s.Unset? then Ok(Initial(f))
    else if f.repeated then
      var items :- ReloadItems(sub, schema, f.typ, s, 0);
      Ok(Many(items))
    else Reload(sub, schema, f.typ, s)
  }

  /** The attributes of the smaller schema from the j-th on. */
  function ReloadFields(sub: Schema, schema: Schema, m: Value, j: nat): (r: Result<seq<Value>>)
    requires SubSchema(sub, schema) && TypedMessage(schema, m) && m.name in sub && j <= |sub[m.name]|
    ensures r.Err? ==> r.error == ValueError
    ensures r.Ok? ==> |r.value| == |sub[m.name]| - j
    decreases m, 0, |sub[m.name]| - j
  {
    if j == |sub[m.name]| then Ok([])
    else
      var (tag, f) := sub[m.name][j];
      assert FieldOf(schema[m.name], sub[m.name][j]);
      var x :- ReloadSlot(sub, schema, f, m.slots[Find(schema[m.name], tag)]);
      var more :- ReloadFields(sub, schema, m, j + 1);
      Ok([x] + more)
  }

  function ReloadMessage(sub: Schema, schema: Schema, m: Value): (r: Result<Value>)
    requires SubSchema(sub, schema) && TypedMessage(schema, m) && m.name in sub
    ensures r.Err? ==> r.error == ValueError
    decreases m, 0
  {
    var slots :- ReloadFields(sub, schema, m, 0);
    if Absent(sub[m.name], slots) then Err(ValueError) else Ok(Message(m.name, slots))
  }

  // ------------------------------------------------------------ one value

  lemma {:induction false} NumberLoads(schema: Schema, t: FieldType, v: Value, r: Reader, more: Bytes)
    requires Typed(schema, t, v) && WireType(t) == WIRE_INT
    requires r.rest == DumpValue(schema, t, v) + more && Allows(r, |DumpValue(schema, t, v)|)
    ensures exists n :: LoadUvarint(r, true) == Ok((n, Advance(r, |DumpValue(schema, t, v)|))) && FromUvarint(t, n) == v
  {
    hide Uvarint, LoadUvarint;
    var n := if t.TBool? then (if v.b then 1 else 0) else if t.TSint32? || t.TSint64? then SintToUint(v.n) else v.n;
    UvarintLoads(n, r, more, true);
    if t.TSint32? || t.TSint64? { ZigZag(v.n, 0); }
  }

  lemma {:induction false} BlobLoads(b: Bytes, r: Reader, more: Bytes)
    requires r.rest == Uvarint(|b|) + b + more && Allows(r, |Uvarint(|b|) + b|)
    ensures LoadUvarint(r, true) == Ok((|b|, Advance(r, |Uvarint(|b|)|)))
    ensures LoadBytes(Advance(r, |Uvarint(|b|)|), |b|) == (b, Advance(r, |Uvarint(|b|) + b|))
  {
    hide Uvarint, LoadUvarint;
    var d := Uvarint(|b|);
    assert r.rest == d + (b + more);
    UvarintLoads(|b|, r, b + more, true);
    var next := Advance(r, |d|);
    assert next.rest == b + more;
    assert next.rest[..|b|] + Zeros(0) == b;
    AdvanceTwice(r, |d|, |b|);
  }

  /** Skipping takes exactly what was dumped. */
  lemma {:induction false} ValueSkipped(schema: Schema, t: FieldType, v: Value, r: Reader, more: Bytes)
    requires Typed(schema, t, v)
    requires r.rest == DumpValue(schema, t, v) + more && Allows(r, |DumpValue(schema, t, v)|)
    ensures Skip(WireType(t), r) == Ok(Advance(r, |DumpValue(schema, t, v)|))
  {
    hide Uvarint, LoadUvarint, LoadBytes, DumpMessage;
    if WireType(t) == WIRE_INT {
      NumberLoads(schema, t, v, r, more);
    } else {
      BlobLoads(if t.TMessage? then DumpMessage(schema, v) else v.bytes, r, more);
    }
  }

  lemma {:induction false} LimitedHolds(d: Bytes, r: Reader, more: Bytes)
    requires r.rest == Uvarint(|d|) + d + more && Allows(r, |Uvarint(|d|) + d|)
    ensures LoadUvarint(r, true) == Ok((|d|, Advance(r, |Uvarint(|d|)|)))
    ensures var next := Advance(r, |Uvarint(|d|)|);
            Holds(Limited(next, |d|), d, more)
            && Within(Advance(Limited(next, |d|), |d|), next)
            && Resume(next, Advance(Limited(next, |d|), |d|)) == Advance(r, |Uvarint(|d|) + d|)
  {
    hide Uvarint, LoadUvarint;
    var u := Uvarint(|d|);
    assert r.rest == u + (d + more);
    UvarintLoads(|d|, r, d + more, true);
    AdvanceTwice(r, |u|, |d|);
  }

  lemma {:induction false} ValueLoads(sub: Schema, schema: Schema, f: Field, v: Value, r: Reader, more: Bytes)
    requires SubSchema(sub, schema) && Typed(schema, f.typ, v) && (f.typ.TMessage? ==> f.typ.name in sub)
    requires r.rest == DumpValue(schema, f.typ, v) + more && Allows(r, |DumpValue(schema, f.typ, v)|)
    ensures LoadValues(sub, f, WireType(f.typ), r)
         == match Reload(sub, schema, f.typ, v)
            case Ok(x) => Ok(([x], Advance(r, |DumpValue(schema, f.typ, v)|)))
            case Err(e) => Err(e)
    decreases v, 2
  {
    hide Uvarint, LoadUvarint, LoadBytes, DumpMessage, LoadMessage, ReloadMessage, SubSchema, TypedMessage, Within;
    var t := f.typ;
    if WireType(t) == WIRE_INT {
      NumberLoads(schema, t, v, r, more);
    } else if t.TMessage? {
      var d := DumpMessage(schema, v);
      LimitedHolds(d, r, more);
      var inner := Limited(Advance(r, |Uvarint(|d|)|), |d|);
      MessageLoads(sub, schema, v, inner, more);
    } else {
      BlobLoads(v.bytes, r, more);
    }
  }

  // ------------------------------------------------------------ one attribute

  lemma {:induction false} ItemSkipped(sub: Schema, schema: Schema, few: Fields, slots: seq<Value>, tag: nat, t: FieldType, v: Value, r: Reader,
                    b: Bytes, tail: Bytes)
    requires |slots| == |few| && Find(few, tag) == |few| && Typed(schema, t, v)
    requires Holds(r, Uvarint(Key(tag, t)) + DumpValue(schema, t, v) + b, tail)
    ensures var a := Uvarint(Key(tag, t)) + DumpValue(schema, t, v);
            Allows(r, |a|) && |a| <= |r.rest| && Holds(Advance(r, |a|), b, tail)
            && LoadFields(sub, few, slots, r) == LoadFields(sub, few, slots, Advance(r, |a|))
  {
    hide Uvarint, LoadUvarint, DumpValue, Key, Skip, Find;
    var u, d := Uvarint(Key(tag, t)), DumpValue(schema, t, v);
    HoldsOn(r, u + d, b, tail);
    assert r.rest == u + (d + (b + tail));
    UvarintLoads(Key(tag, t), r, d + (b + tail), true);
    KeyParts(tag, t);
    var r1 := Advance(r, |u|);
    assert r1.rest == d + (b + tail);
    ValueSkipped(schema, t, v, r1, b + tail);
    AdvanceTwice(r, |u|, |d|);
    Unfolded(sub, few, slots, r);
  }

  /** One turn of the loop, without what it promises. */
  lemma {:induction false} Unfolded(sub: Schema, few: Fields, slots: seq<Value>, r: Reader)
    requires |slots| == |few| && LoadUvarint(r, true).Ok?
    ensures var (key, r1) := LoadUvarint(r, true).value;
            var i := Find(few, key / 8);
            LoadFields(sub, few, slots, r) ==
              if i == |few| then
                match Skip(key % 8, r1)
                case Err(e) => Err(e)
                case Ok(r2) => LoadFields(sub, few, slots, r2)
              else
                match LoadValues(sub, few[i].1, key % 8, r1)
                case Err(e) => Err(e)
                case Ok((values, r2)) =>
                  match Put(few[i].1, slots[i], values)
                  case Err(e) => Err(e)
                  case Ok(slot) => LoadFields(sub, few, slots[i := slot], r2)
  {
    LoadUvarintWithin(r, true);
  }

  lemma {:induction false} ItemLoads(sub: Schema, schema: Schema, few: Fields, slots: seq<Value>, tag: nat, f: Field, v: Value, r: Reader,
                  b: Bytes, tail: Bytes)
    requires SubSchema(sub, schema) && Typed(schema, f.typ, v) && (f.typ.TMessage? ==> f.typ.name in sub)
    requires |slots| == |few| && Find(few, tag) < |few| && few[Find(few, tag)].1 == f
    requires Holds(r, Uvarint(Key(tag, f.typ)) + DumpValue(schema, f.typ, v) + b, tail)
    ensures var a := Uvarint(Key(tag, f.typ)) + DumpValue(schema, f.typ, v);
            var i := Find(few, tag);
            Allows(r, |a|) && |a| <= |r.rest| && Holds(Advance(r, |a|), b, tail)
            && LoadFields(sub, few, slots, r)
            == match Reload(sub, schema, f.typ, v)
               case Err(e) => Err(e)
               case Ok(x) => LoadFields(sub, few, slots[i := Put(f, slots[i], [x]).value], Advance(r, |a|))
    decreases v, 3
  {
    hide Uvarint, LoadUvarint, DumpValue, Key, Skip, Find, Reload, LoadValues, SubSchema, Typed;
    var u, d := Uvarint(Key(tag, f.typ)), DumpValue(schema, f.typ, v);
    HoldsOn(r, u + d, b, tail);
    assert r.rest == u + (d + (b + tail));
    UvarintLoads(Key(tag, f.typ), r, d + (b + tail), true);
    KeyParts(tag, f.typ);
    var r1 := Advance(r, |u|);
    assert r1.rest == d + (b + tail);
    ValueLoads(sub, schema, f, v, r1, b + tail);
    AdvanceTwice(r, |u|, |d|);
    Unfolded(sub, few, slots, r);
  }

  lemma {:induction false} ItemsSkipped(sub: Schema, schema: Schema, few: Fields, slots: seq<Value>, tag: nat, t: FieldType,
                                        s: Value, k: nat, r: Reader, b: Bytes, tail: Bytes)
    requires s.Many? && k <= |s.items| && forall i :: 0 <= i < |s.items| ==> Typed(schema, t, s.items[i])
    requires |slots| == |few| && Find(few, tag) == |few|
    requires Holds(r, DumpItems(schema, tag, t, s, k) + b, tail)
    ensures var a := DumpItems(schema, tag, t, s, k);
            Allows(r, |a|) && |a| <= |r.rest| && Holds(Advance(r, |a|), b, tail)
            && LoadFields(sub, few, slots, r) == LoadFields(sub, few, slots, Advance(r, |a|))
    decreases |s.items| - k
  {
    hide Uvarint, DumpValue, Key, LoadFields, Typed, Find;
    HoldsOn(r, DumpItems(schema, tag, t, s, k), b, tail);
    if k == |s.items| {
      Stays(r);
    } else {
      var a := Uvarint(Key(tag, t)) + DumpValue(schema, t, s.items[k]);
      var more := DumpItems(schema, tag, t, s, k + 1);
      assert DumpItems(schema, tag, t, s, k) + b == a + (more + b);
      ItemSkipped(sub, schema, few, slots, tag, t, s.items[k], r, more + b, tail);
      ItemsSkipped(sub, schema, few, slots, tag, t, s, k + 1, Advance(r, |a|), b, tail);
      AdvanceTwice(r, |a|, |more|);
    }
  }

  lemma {:induction false} Stays(r: Reader)
    ensures Advance(r, 0) == r
  {}

  lemma {:induction false} ItemsLoad(sub: Schema, schema: Schema, few: Fields, slots: seq<Value>, tag: nat, f: Field, s: Value,
                                     k: nat, r: Reader, b: Bytes, tail: Bytes)
    requires SubSchema(sub, schema) && (f.typ.TMessage? ==> f.typ.name in sub) && f.repeated
    requires s.Many? && k <= |s.items| && forall i :: 0 <= i < |s.items| ==> Typed(schema, f.typ, s.items[i])
    requires |slots| == |few| && Find(few, tag) < |few| && few[Find(few, tag)].1 == f && slots[Find(few, tag)].Many?
    requires Holds(r, DumpItems(schema, tag, f.typ, s, k) + b, tail)
    ensures var a := DumpItems(schema, tag, f.typ, s, k);
            var i := Find(few, tag);
            Allows(r, |a|) && |a| <= |r.rest| && Holds(Advance(r, |a|), b, tail)
            && LoadFields(sub, few, slots, r)
            == match ReloadItems(sub, schema, f.typ, s, k)
               case Err(e) => Err(e)
               case Ok(xs) => LoadFields(sub, few, slots[i := Many(slots[i].items + xs)], Advance(r, |a|))
    decreases s, 3, |s.items| - k
  {
    hide Uvarint, DumpValue, Key, LoadFields, Typed, Find, SubSchema, Reload;
    var i := Find(few, tag);
    HoldsOn(r, DumpItems(schema, tag, f.typ, s, k), b, tail);
    if k == |s.items| {
      Stays(r);
      assert slots[i].items + [] == slots[i].items;
      assert slots[i := slots[i]] == slots;
    } else {
      var a := Uvarint(Key(tag, f.typ)) + DumpValue(schema, f.typ, s.items[k]);
      var more := DumpItems(schema, tag, f.typ, s, k + 1);
      assert DumpItems(schema, tag, f.typ, s, k) + b == a + (more + b);
      ItemLoads(sub, schema, few, slots, tag, f, s.items[k], r, more + b, tail);
      if Reload(sub, schema, f.typ, s.items[k]).Ok? {
        var x := Reload(sub, schema, f.typ, s.items[k]).value;
        var slots' := slots[i := Many(slots[i].items + [x])];
        ItemsLoad(sub, schema, few, slots', tag, f, s, k + 1, Advance(r, |a|), b, tail);
        AdvanceTwice(r, |a|, |more|);
        if ReloadItems(sub, schema, f.typ, s, k + 1).Ok? {
          var xs := ReloadItems(sub, schema, f.typ, s, k + 1).value;
          assert slots[i].items + [x] + xs == slots[i].items + ([x] + xs);
          assert slots'[i := Many(slots[i].items + ([x] + xs))] == slots[i := Many(slots[i].items + ([x] + xs))];
        }
      }
    }
  }

  lemma {:induction false} SlotSkipped(sub: Schema, schema: Schema, few: Fields, slots: seq<Value>, tag: nat, f: Field, s: Value, r: Reader,
                    b: Bytes, tail: Bytes)
    requires TypedSlot(schema, f, s) && |slots| == |few| && Find(few, tag) == |few|
    requires Holds(r, DumpSlot(schema, tag, f, s) + b, tail)
    ensures var a := DumpSlot(schema, tag, f, s);
            Allows(r, |a|) && |a| <= |r.rest| && Holds(Advance(r, |a|), b, tail)
            && LoadFields(sub, few, slots, r) == LoadFields(sub, few, slots, Advance(r, |a|))
  {
    hide Uvarint, DumpValue, Key, LoadFields, Typed, Find, DumpItems;
    HoldsOn(r, DumpSlot(schema, tag, f, s), b, tail);
    if s.Unset? {
      Stays(r);
    } else if f.repeated {
      ItemsSkipped(sub, schema, few, slots, tag, f.typ, s, 0, r, b, tail);
    } else {
      ItemSkipped(sub, schema, few, slots, tag, f.typ, s, r, b, tail);
    }
  }

  lemma {:induction false} SlotLoads(sub: Schema, schema: Schema, few: Fields, slots: seq<Value>, tag: nat, f: Field, s: Value, r: Reader,
                  b: Bytes, tail: Bytes)
    requires SubSchema(sub, schema) && TypedSlot(schema, f, s) && (f.typ.TMessage? ==> f.typ.name in sub)
    requires |slots| == |few| && Find(few, tag) < |few| && few[Find(few, tag)].1 == f && slots[Find(few, tag)] == Initial(f)
    requires Holds(r, DumpSlot(schema, tag, f, s) + b, tail)
    ensures var a := DumpSlot(schema, tag, f, s);
            Allows(r, |a|) && |a| <= |r.rest| && Holds(Advance(r, |a|), b, tail)
            && LoadFields(sub, few, slots, r)
            == match ReloadSlot(sub, schema, f, s)
               case Err(e) => Err(e)
               case Ok(x) => LoadFields(sub, few, slots[Find(few, tag) := x], Advance(r, |a|))
    decreases s, 4
  {
    hide Uvarint, DumpValue, Key, LoadFields, Typed, Find, SubSchema, Reload, DumpItems, ReloadItems;
    var i := Find(few, tag);
    HoldsOn(r, DumpSlot(schema, tag, f, s), b, tail);
    if s.Unset? {
      Stays(r);
      assert slots[i := slots[i]] == slots;
    } else if f.repeated {
      ItemsLoad(sub, schema, few, slots, tag, f, s, 0, r, b, tail);
      if ReloadItems(sub, schema, f.typ, s, 0).Ok? {
        assert [] + ReloadItems(sub, schema, f.typ, s, 0).value == ReloadItems(sub, schema, f.typ, s, 0).value;
      }
    } else {
      ItemLoads(sub, schema, few, slots, tag, f, s, r, b, tail);
    }
  }

  // ------------------------------------------------------------ one message

  /** The attributes when the first `i` fields of the larger schema have been loaded. */
  predicate Partly(sub: Schema, schema: Schema, m: Value, i: nat, slots: seq<Value>)
    requires SubSchema(sub, schema) && TypedMessage(schema, m) && m.name in sub
  {
    var fs, few := schema[m.name], sub[m.name];
    && |slots| == |few|
    && forall j :: 0 <= j < |few| ==> FieldOf(fs, few[j]) && PartlyAt(sub, schema, m, i, j, slots[j])
  }

  predicate PartlyAt(sub: Schema, schema: Schema, m: Value, i: nat, j: nat, x: Value)
    requires SubSchema(sub, schema) && TypedMessage(schema, m) && m.name in sub && j < |sub[m.name]|
    requires FieldOf(schema[m.name], sub[m.name][j])
  {
    var (tag, f) := sub[m.name][j];
    var at := Find(schema[m.name], tag);
    assert FieldOf(schema[m.name], sub[m.name][j]);
    if at < i then ReloadSlot(sub, schema, f, m.slots[at]) == Ok(x) else x == Initial(f)
  }

  lemma {:induction false} PartlyDone(sub: Schema, schema: Schema, m: Value, j: nat, slots: seq<Value>)
    requires SubSchema(sub, schema) && TypedMessage(schema, m) && m.name in sub
    requires Partly(sub, schema, m, |m.slots|, slots) && j <= |slots|
    ensures ReloadFields(sub, schema, m, j) == Ok(slots[j..])
    decreases |slots| - j
  {
    hide ReloadSlot, SubSchema, TypedSlot, Find;
    PartlyCount(sub, schema, m, |m.slots|, slots);
    if j < |slots| {
      assert PartlyAt(sub, schema, m, |m.slots|, j, slots[j]);
      SlotsMatch(sub, schema, m, j);
      PartlyDone(sub, schema, m, j + 1, slots);
      assert slots[j..] == [slots[j]] + slots[j + 1..];
    }
  }

  lemma {:induction false} SlotsMatch(sub: Schema, schema: Schema, m: Value, j: nat)
    requires SubSchema(sub, schema) && TypedMessage(schema, m) && m.name in sub && j < |sub[m.name]|
    ensures FieldOf(schema[m.name], sub[m.name][j]) && Find(schema[m.name], sub[m.name][j].0) < |m.slots|
    ensures FewerFields(sub, sub[m.name], schema[m.name])
  {
    hide Find, TypedSlot;
  }

  lemma {:induction false} ReloadFails(sub: Schema, schema: Schema, m: Value, j: nat, k: nat)
    requires SubSchema(sub, schema) && TypedMessage(schema, m) && m.name in sub && k <= j < |sub[m.name]|
    requires FieldOf(schema[m.name], sub[m.name][j])
    requires ReloadSlot(sub, schema, sub[m.name][j].1, m.slots[Find(schema[m.name], sub[m.name][j].0)]).Err?
    ensures ReloadFields(sub, schema, m, k).Err?
    decreases j - k
  {
    hide ReloadSlot, SubSchema, TypedMessage, Find;
    if k < j { ReloadFails(sub, schema, m, j, k + 1); }
  }

  lemma {:induction false} PartlyNext(sub: Schema, schema: Schema, m: Value, i: nat, slots: seq<Value>, j: nat, x: Value)
    requires SubSchema(sub, schema) && TypedMessage(schema, m) && m.name in sub && i < |m.slots|
    requires Partly(sub, schema, m, i, slots)
    requires j == Find(sub[m.name], schema[m.name][i].0) && j < |sub[m.name]|
    requires ReloadSlot(sub, schema, schema[m.name][i].1, m.slots[i]) == Ok(x)
    ensures Partly(sub, schema, m, i + 1, slots[j := x])
  {
    hide ReloadSlot;
    var fs, few := schema[m.name], sub[m.name];
    FindAt(fs, i);
    forall k | 0 <= k < |few| ensures FieldOf(fs, few[k]) && PartlyAt(sub, schema, m, i + 1, k, slots[j := x][k]) {
      assert PartlyAt(sub, schema, m, i, k, slots[k]);
      if Find(fs, few[k].0) == i {
        assert few[k].0 == few[j].0;
        assert k == j;
      }
    }
  }

  lemma {:induction false} PartlySkipped(sub: Schema, schema: Schema, m: Value, i: nat, slots: seq<Value>)
    requires SubSchema(sub, schema) && TypedMessage(schema, m) && m.name in sub && i < |m.slots|
    requires Partly(sub, schema, m, i, slots)
    requires Find(sub[m.name], schema[m.name][i].0) == |sub[m.name]|
    ensures Partly(sub, schema, m, i + 1, slots)
  {
    hide ReloadSlot;
    var fs, few := schema[m.name], sub[m.name];
    forall k | 0 <= k < |few| ensures FieldOf(fs, few[k]) && PartlyAt(sub, schema, m, i + 1, k, slots[k]) {
      assert PartlyAt(sub, schema, m, i, k, slots[k]);
      assert few[k].0 != fs[i].0;
    }
  }

  /** A known field is the same in both schemas, and nothing has come for it before its turn. */
  lemma {:induction false} KnownField(sub: Schema, schema: Schema, m: Value, i: nat, slots: seq<Value>, j: nat)
    requires SubSchema(sub, schema) && TypedMessage(schema, m) && m.name in sub && i < |m.slots|
    requires Partly(sub, schema, m, i, slots)
    requires j == Find(sub[m.name], schema[m.name][i].0) && j < |sub[m.name]|
    ensures sub[m.name][j] == schema[m.name][i] && FieldOf(schema[m.name], sub[m.name][j])
    ensures Find(schema[m.name], sub[m.name][j].0) == i
    ensures slots[j] == Initial(schema[m.name][i].1)
    ensures schema[m.name][i].1.typ.TMessage? ==> schema[m.name][i].1.typ.name in sub
    ensures TypedSlot(schema, schema[m.name][i].1, m.slots[i])
  {
    hide ReloadSlot, TypedSlot;
    FindAt(schema[m.name], i);
    assert PartlyAt(sub, schema, m, i, j, slots[j]);
  }

  lemma {:induction false} FieldsLoad(sub: Schema, schema: Schema, m: Value, i: nat, slots: seq<Value>, r: Reader, tail: Bytes)
    requires SubSchema(sub, schema) && TypedMessage(schema, m) && m.name in sub && i <= |m.slots|
    requires Partly(sub, schema, m, i, slots) && Holds(r, DumpFields(schema, m, i), tail)
    ensures Allows(r, |DumpFields(schema, m, i)|)
    ensures LoadFields(sub, sub[m.name], slots, r)
         == match ReloadFields(sub, schema, m, 0)
            case Err(e) => Err(e)
            case Ok(all) => Ok((all, Advance(r, |DumpFields(schema, m, i)|)))
    decreases m, 0, |m.slots| - i
  {
    hide SubSchema, TypedSlot, Find, ReloadSlot, DumpSlot, ReloadFields, Partly, Uvarint;
    var d := DumpFields(schema, m, i);
    assert d + [] == d;
    HoldsOn(r, d, [], tail);
    if i == |m.slots| {
      EndLoads(r, tail);
      Stays(r);
      PartlyCount(sub, schema, m, i, slots);
      PartlyDone(sub, schema, m, 0, slots);
      assert slots[0..] == slots;
    } else {
      var (tag, f) := schema[m.name][i];
      var a, b := DumpSlot(schema, tag, f, m.slots[i]), DumpFields(schema, m, i + 1);
      var few := sub[m.name];
      var j := Find(few, tag);
      PartlyCount(sub, schema, m, i, slots);
      OneField(sub, schema, m, i, slots, r, a, b, tail, j);
    }
  }

  lemma {:induction false} PartlyCount(sub: Schema, schema: Schema, m: Value, i: nat, slots: seq<Value>)
    requires SubSchema(sub, schema) && TypedMessage(schema, m) && m.name in sub && Partly(sub, schema, m, i, slots)
    ensures |slots| == |sub[m.name]|
  {
    hide ReloadSlot, Find, TypedSlot;
  }

  lemma {:induction false} OneField(sub: Schema, schema: Schema, m: Value, i: nat, slots: seq<Value>, r: Reader, a: Bytes, b: Bytes, tail: Bytes,
                 j: nat)
    requires SubSchema(sub, schema) && TypedMessage(schema, m) && m.name in sub && i < |m.slots|
    requires Partly(sub, schema, m, i, slots) && |slots| == |sub[m.name]| && Holds(r, a + b, tail)
    requires a == DumpSlot(schema, schema[m.name][i].0, schema[m.name][i].1, m.slots[i]) && b == DumpFields(schema, m, i + 1)
    requires j == Find(sub[m.name], schema[m.name][i].0)
    ensures Allows(r, |a + b|) && |a + b| <= |r.rest|
    ensures LoadFields(sub, sub[m.name], slots, r)
         == match ReloadFields(sub, schema, m, 0)
            case Err(e) => Err(e)
            case Ok(all) => Ok((all, Advance(r, |a + b|)))
    decreases m, 0, |m.slots| - i, 0
  {
    hide SubSchema, TypedSlot, Find, ReloadSlot, DumpSlot, ReloadFields, Partly, Uvarint, DumpFields, LoadFields;
    var (tag, f) := schema[m.name][i];
    var few := sub[m.name];
    HoldsOn(r, a, b, tail);
    assert a + b + [] == a + b;
    HoldsOn(r, a + b, [], tail);
    AdvanceTwice(r, |a|, |b|);
    if j == |few| {
      SlotSkipped(sub, schema, few, slots, tag, f, m.slots[i], r, b, tail);
      PartlySkipped(sub, schema, m, i, slots);
      FieldsLoad(sub, schema, m, i + 1, slots, Advance(r, |a|), tail);
    } else {
      KnownField(sub, schema, m, i, slots, j);
      SlotLoads(sub, schema, few, slots, tag, f, m.slots[i], r, b, tail);
      if ReloadSlot(sub, schema, f, m.slots[i]).Ok? {
        var x := ReloadSlot(sub, schema, f, m.slots[i]).value;
        PartlyNext(sub, schema, m, i, slots, j, x);
        FieldsLoad(sub, schema, m, i + 1, slots[j := x], Advance(r, |a|), tail);
      } else {
        ReloadFails(sub, schema, m, j, 0);
      }
    }
  }

  lemma {:induction false} PartlyStart(sub: Schema, schema: Schema, m: Value)
    requires SubSchema(sub, schema) && TypedMessage(schema, m) && m.name in sub
    ensures Partly(sub, schema, m, 0, Initials(sub[m.name]))
  {
    hide ReloadSlot, Find, TypedSlot;
  }

  /**
   * Loading a dumped message under a schema with fewer fields takes exactly what was dumped, and gives the
   * message's projection to those fields.
   */
  lemma {:induction false} MessageLoads(sub: Schema, schema: Schema, m: Value, r: Reader, tail: Bytes)
    requires SubSchema(sub, schema) && TypedMessage(schema, m) && m.name in sub
    requires Holds(r, DumpMessage(schema, m), tail)
    ensures Allows(r, |DumpMessage(schema, m)|)
    ensures LoadMessage(sub, m.name, r)
         == match ReloadMessage(sub, schema, m)
            case Err(e) => Err(e)
            case Ok(x) => Ok((x, Advance(r, |DumpMessage(schema, m)|)))
    decreases m, 1
  {
    hide SubSchema, TypedSlot, ReloadFields, DumpFields, LoadFields, Partly;
    PartlyStart(sub, schema, m);
    FieldsLoad(sub, schema, m, 0, Initials(sub[m.name]), r, tail);
  }

  // ------------------------------------------------------------ what comes back of a message

  lemma {:induction false} AttributeAt(sub: Schema, schema: Schema, m: Value, j: nat, k: nat)
    requires SubSchema(sub, schema) && TypedMessage(schema, m) && m.name in sub && j <= k < |sub[m.name]|
    requires ReloadFields(sub, schema, m, j).Ok?
    ensures FieldOf(schema[m.name], sub[m.name][k])
    ensures ReloadSlot(sub, schema, sub[m.name][k].1, m.slots[Find(schema[m.name], sub[m.name][k].0)])
         == Ok(ReloadFields(sub, schema, m, j).value[k - j])
    decreases k - j
  {
    hide ReloadSlot, SubSchema, TypedSlot, Find;
    SlotsMatch(sub, schema, m, k);
    if j < k { AttributeAt(sub, schema, m, j + 1, k); }
  }

  /**
   * A loaded message has exactly the smaller schema's attributes, each the reloaded attribute with that tag of
   * the message that was dumped.
   */
  lemma {:induction false} Projection(sub: Schema, schema: Schema, m: Value, k: nat)
    requires SubSchema(sub, schema) && TypedMessage(schema, m) && m.name in sub && ReloadMessage(sub, schema, m).Ok?
    requires k < |sub[m.name]|
    ensures FieldOf(schema[m.name], sub[m.name][k])
    ensures var x := ReloadMessage(sub, schema, m).value;
            && x.Message? && x.name == m.name && |x.slots| == |sub[m.name]|
            && ReloadSlot(sub, schema, sub[m.name][k].1, m.slots[Find(schema[m.name], sub[m.name][k].0)]) == Ok(x.slots[k])
  {
    hide ReloadSlot, SubSchema, TypedSlot, Find;
    AttributeAt(sub, schema, m, 0, k);
  }

  // ------------------------------------------------------------ under the schema itself

  /** Nothing is left out that loading would fill in or ask for. */
  predicate Complete(schema: Schema, v: Value)
    requires v.Message? ==> TypedMessage(schema, v)
    decreases v, 0
  {
    v.Message? ==> forall i :: 0 <= i < |v.slots| ==> CompleteSlot(schema, schema[v.name][i].1, v.slots[i])
  }

  predicate CompleteSlot(schema: Schema, f: Field, s: Value)
    requires TypedSlot(schema, f, s)
    decreases s, 2
  {
    if s.Unset? then !f.repeated && !f.required && f.default.Unset?
    else if f.repeated then forall i :: 0 <= i < |s.items| ==> CompleteItem(schema, f.typ, s.items[i])
    else CompleteItem(schema, f.typ, s)
  }

  predicate CompleteItem(schema: Schema, t: FieldType, v: Value)
    requires Typed(schema, t, v)
    decreases v, 1
  {
    t.TMessage? ==> Complete(schema, v)
  }

  lemma {:induction false} ItemSame(schema: Schema, t: FieldType, v: Value)
    requires SubSchema(schema, schema) && Typed(schema, t, v) && (t.TMessage? ==> t.name in schema)
    ensures Reload(schema, schema, t, v) == Ok(v) <==> CompleteItem(schema, t, v)
    decreases v, 2
  {
    hide SubSchema, TypedMessage, Complete, ReloadMessage;
    if t.TMessage? { MessageSame(schema, v); }
  }

  lemma {:induction false} ItemsSame(schema: Schema, t: FieldType, s: Value, k: nat)
    requires SubSchema(schema, schema) && (t.TMessage? ==> t.name in schema)
    requires s.Many? && k <= |s.items| && forall i :: 0 <= i < |s.items| ==> Typed(schema, t, s.items[i])
    ensures (forall i :: k <= i < |s.items| ==> CompleteItem(schema, t, s.items[i]))
       <==> ReloadItems(schema, schema, t, s, k) == Ok(s.items[k..])
    decreases s, 3, |s.items| - k
  {
    hide SubSchema, Typed, CompleteItem, Reload;
    if k < |s.items| {
      ItemSame(schema, t, s.items[k]);
      ItemsSame(schema, t, s, k + 1);
      assert s.items[k..] == [s.items[k]] + s.items[k + 1..];
      if ReloadItems(schema, schema, t, s, k) == Ok(s.items[k..]) {
        var all := ReloadItems(schema, schema, t, s, k).value;
        assert all[0] == s.items[k] && all[1..] == s.items[k + 1..];
      }
    }
  }

  lemma {:induction false} SlotSame(schema: Schema, f: Field, s: Value)
    requires SubSchema(schema, schema) && TypedSlot(schema, f, s) && (f.typ.TMessage? ==> f.typ.name in schema)
    ensures ReloadSlot(schema, schema, f, s) == Ok(s) <==> CompleteSlot(schema, f, s)
    decreases s, 4
  {
    hide SubSchema, Typed, CompleteItem, Reload, ReloadItems;
    if s.Unset? {
    } else if f.repeated {
      ItemsSame(schema, f.typ, s, 0);
      assert s.items[0..] == s.items;
      assert s == Many(s.items);
    } else {
      ItemSame(schema, f.typ, s);
    }
  }

  /** The fields of a message under its own schema. */
  lemma {:induction false} OwnField(schema: Schema, m: Value, i: nat)
    requires SubSchema(schema, schema) && TypedMessage(schema, m) && i < |m.slots|
    ensures Find(schema[m.name], schema[m.name][i].0) == i && FieldOf(schema[m.name], schema[m.name][i])
    ensures TypedSlot(schema, schema[m.name][i].1, m.slots[i])
    ensures schema[m.name][i].1.typ.TMessage? ==> schema[m.name][i].1.typ.name in schema
  {
    hide TypedSlot;
    FindAt(schema[m.name], i);
  }

  lemma {:induction false} FieldsSame(schema: Schema, m: Value, j: nat)
    requires SubSchema(schema, schema) && TypedMessage(schema, m) && j <= |m.slots|
    requires forall i :: 0 <= i < |m.slots| ==> CompleteSlot(schema, schema[m.name][i].1, m.slots[i])
    ensures ReloadFields(schema, schema, m, j) == Ok(m.slots[j..])
    decreases m, 0, |m.slots| - j
  {
    hide SubSchema, TypedSlot, CompleteSlot, ReloadSlot, Find;
    Named(schema, m);
    if j < |m.slots| {
      OwnField(schema, m, j);
      SlotSame(schema, schema[m.name][j].1, m.slots[j]);
      FieldsSame(schema, m, j + 1);
      assert m.slots[j..] == [m.slots[j]] + m.slots[j + 1..];
    } else {
      assert m.slots[j..] == [];
    }
  }

  lemma {:induction false} NoPlaceholder(schema: Schema, m: Value)
    requires TypedMessage(schema, m)
    ensures Missing !in m.slots
  {
    forall i | 0 <= i < |m.slots| ensures m.slots[i] != Missing {
      assert TypedSlot(schema, schema[m.name][i].1, m.slots[i]);
    }
  }

  lemma {:induction false} MessageSame(schema: Schema, m: Value)
    requires SubSchema(schema, schema) && TypedMessage(schema, m)
    ensures ReloadMessage(schema, schema, m) == Ok(m) <==> Complete(schema, m)
    decreases m, 1
  {
    hide SubSchema, TypedSlot, CompleteSlot, ReloadSlot, Find, ReloadFields;
    if Complete(schema, m) {
      FieldsSame(schema, m, 0);
      assert m.slots[0..] == m.slots;
      NoPlaceholder(schema, m);
      assert m == Message(m.name, m.slots);
    }
    if ReloadMessage(schema, schema, m) == Ok(m) {
      forall i | 0 <= i < |m.slots| ensures CompleteSlot(schema, schema[m.name][i].1, m.slots[i]) {
        OwnField(schema, m, i);
        Projection(schema, schema, m, i);
        SlotSame(schema, schema[m.name][i].1, m.slots[i]);
      }
    }
  }

  /**
   * A message that was dumped loads as itself exactly if it leaves nothing out that loading would fill in or ask
   * for, at any depth: attributes that are None must belong to fields that are neither required nor repeated and
   * have no default.
   */
  lemma {:induction false} RoundTrip(schema: Schema, m: Value)
    requires SubSchema(schema, schema) && TypedMessage(schema, m)
    ensures Complete(schema, m)
       <==> LoadMessage(schema, m.name, Reader(None, DumpMessage(schema, m))) == Ok((m, Reader(None, [])))
  {
    hide SubSchema, TypedMessage, Complete, LoadMessage, ReloadMessage, DumpMessage;
    var d := DumpMessage(schema, m);
    var r := Reader(None, d);
    assert d + [] == d;
    Named(schema, m);
    MessageLoads(schema, schema, m, r, []);
    MessageSame(schema, m);
    assert d[|d|..] == [];
  }

  lemma {:induction false} Named(schema: Schema, m: Value)
    requires TypedMessage(schema, m)
    ensures m.Message? && m.name in schema && |m.slots| == |schema[m.name]|
  {
    hide TypedSlot;
  }

  // ------------------------------------------------------------ packed arrays

  function Packed(ns: seq<nat>): Bytes {
    if ns == [] then [] else Uvarint(ns[0]) + Packed(ns[1..])
  }

  function FromUvarints(t: FieldType, ns: seq<nat>): (r: seq<Value>)
    ensures |r| == |ns| && forall i :: 0 <= i < |ns| ==> r[i] == FromUvarint(t, ns[i])
  {
    seq(|ns|, i requires 0 <= i < |ns| => FromUvarint(t, ns[i]))
  }

  lemma {:induction false} OneMore(t: FieldType, ns: seq<nat>)
    requires ns != []
    ensures FromUvarints(t, ns) == [FromUvarint(t, ns[0])] + FromUvarints(t, ns[1..])
  {
    hide FromUvarint;
  }

  lemma {:induction false} PackedLoads(t: FieldType, ns: seq<nat>, r: Reader, tail: Bytes)
    requires Holds(r, Packed(ns), tail)
    ensures Allows(r, |Packed(ns)|) && LoadPacked(t, r) == Ok((FromUvarints(t, ns), Advance(r, |Packed(ns)|)))
    decreases |ns|
  {
    hide Uvarint, LoadUvarint, FromUvarint, FromUvarints, Advance, Allows;
    assert Packed(ns) + [] == Packed(ns);
    HoldsOn(r, Packed(ns), [], tail);
    if ns == [] {
      EndLoads(r, tail);
      Stays(r);
    } else {
      var a, b := Uvarint(ns[0]), Packed(ns[1..]);
      HoldsOn(r, a, b, tail);
      UvarintLoads(ns[0], r, b + tail, true);
      PackedLoads(t, ns[1..], Advance(r, |a|), tail);
      AdvanceTwice(r, |a|, |b|);
      OneMore(t, ns);
    }
  }

  /** A packed array brings its numbers as values of the field, and takes exactly its length. */
  lemma {:induction false} ArrayLoads(t: FieldType, ns: seq<nat>, r: Reader, more: Bytes)
    requires r.rest == Uvarint(|Packed(ns)|) + Packed(ns) + more && Allows(r, |Uvarint(|Packed(ns)|) + Packed(ns)|)
    ensures LoadArray(t, r) == Ok((FromUvarints(t, ns), Advance(r, |Uvarint(|Packed(ns)|) + Packed(ns)|)))
  {
    hide Uvarint, LoadUvarint, Packed, LoadPacked;
    LimitedHolds(Packed(ns), r, more);
    PackedLoads(t, ns, Limited(Advance(r, |Uvarint(|Packed(ns)|)|), |Packed(ns)|), more);
  }
}
