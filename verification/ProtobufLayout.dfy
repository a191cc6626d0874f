/** The wire format of messages, byte by byte. */
module ProtobufLayout {
  import opened Python
  import opened Sequences
  import opened ProtobufSpec

  // ------------------------------------------------------------ numbers

  /** What the bytes of a number mean: seven bits each, the lowest first, the top bit of all but the last set. */
  function Sevens(b: Bytes): nat {
    if b == [] then 0 else b[0] as nat % 128 + 128 * Sevens(b[1..])
  }

  lemma {:induction false} UvarintBytes(n: nat)
    ensures Sevens(Uvarint(n)) == n
    ensures forall i :: 0 <= i < |Uvarint(n)| ==> (Uvarint(n)[i] >= 128 <==> i < |Uvarint(n)| - 1)
    ensures n == 0 <==> Uvarint(n) == [0]
    ensures n != 0 ==> Uvarint(n)[|Uvarint(n)| - 1] != 0
  {
    if n < 128 {
      assert [n as byte][1..] == [];
    } else {
      UvarintBytes(n / 128);
      var more := Uvarint(n / 128);
      var b := Uvarint(n);
      assert b[0] as nat == n % 128 + 128 && b[1..] == more;
      forall i | 0 <= i < |b| ensures b[i] >= 128 <==> i < |b| - 1 {
        if i > 0 { assert b[i] == more[i - 1]; }
      }
      assert b[|b| - 1] == more[|more| - 1];
    }
  }

  // ------------------------------------------------------------ fields

  /** A key is the tag and the wire type: 2 for what has a length, 0 for numbers. */
  function KeyOf(tag: nat, t: FieldType): nat {
    8 * tag + match t
              case TBytes => 2
              case TText => 2
              case TMessage(_) => 2
              case _ => 0
  }

  /** An element: a number, zigzag if the type is signed, or a length and as many bytes. */
  predicate ElementBytes(schema: Schema, t: FieldType, v: Value, b: Bytes) {
    match t
    case TSint32 => v.Int? && b == Uvarint(if v.n < 0 then -2 * v.n - 1 else 2 * v.n)
    case TSint64 => v.Int? && b == Uvarint(if v.n < 0 then -2 * v.n - 1 else 2 * v.n)
    case TBool => v.Flag? && b == [if v.b then 1 else 0]
    case TBytes => v.Blob? && b == Uvarint(|v.bytes|) + v.bytes
    case TText => v.Blob? && b == Uvarint(|v.bytes|) + v.bytes
    case TMessage(_) => TypedMessage(schema, v) && b == Uvarint(|DumpMessage(schema, v)|) + DumpMessage(schema, v)
    case _ => v.Int? && v.n >= 0 && b == Uvarint(v.n)
  }

  lemma ElementDumped(schema: Schema, t: FieldType, v: Value)
    requires Typed(schema, t, v)
    ensures ElementBytes(schema, t, v, DumpValue(schema, t, v))
  {
    hide DumpMessage, TypedMessage;
  }

  /** The elements of a field: none for None, one, or those of the list. */
  function Elements(f: Field, s: Value): seq<Value> {
    if s.Unset? then [] else if f.repeated then (if s.Many? then s.items else []) else [s]
  }

  lemma {:induction false} ItemsDumped(schema: Schema, tag: nat, t: FieldType, s: Value, k: nat)
    returns (parts: seq<Bytes>)
    requires s.Many? && k <= |s.items| && forall i :: 0 <= i < |s.items| ==> Typed(schema, t, s.items[i])
    ensures |parts| == |s.items| - k
    ensures forall i :: 0 <= i < |parts| ==> ElementBytes(schema, t, s.items[k + i], parts[i])
    ensures DumpItems(schema, tag, t, s, k) == Concat(Keyed(Uvarint(KeyOf(tag, t)), parts))
    decreases |s.items| - k
  {
    hide DumpValue, Typed, ElementBytes, Uvarint, Concat, Keyed, KeyOf, Key;
    if k == |s.items| {
      parts := [];
      KeyedNone(Uvarint(KeyOf(tag, t)));
    } else {
      var more := ItemsDumped(schema, tag, t, s, k + 1);
      var v := DumpValue(schema, t, s.items[k]);
      ElementDumped(schema, t, s.items[k]);
      parts := [v] + more;
      KeyIs(tag, t);
      KeyedCons(Uvarint(KeyOf(tag, t)), v, more);
    }
  }

  lemma KeyIs(tag: nat, t: FieldType)
    ensures Key(tag, t) == KeyOf(tag, t)
  {}

  lemma KeyedNone(key: Bytes)
    ensures Concat(Keyed(key, [])) == []
  {}

  lemma KeyedCons(key: Bytes, v: Bytes, more: seq<Bytes>)
    ensures Concat(Keyed(key, [v] + more)) == key + v + Concat(Keyed(key, more))
  {
    assert ([v] + more)[1..] == more;
    var all := Keyed(key, [v] + more);
    assert all[0] == key + v && all[1..] == Keyed(key, more);
  }

  /** Every element behind the key of its field. */
  function Keyed(key: Bytes, parts: seq<Bytes>): (r: seq<Bytes>)
    ensures |r| == |parts| && forall i :: 0 <= i < |r| ==> r[i] == key + parts[i]
  {
    if parts == [] then [] else [key + parts[0]] + Keyed(key, parts[1..])
  }

  /** A field is written as its elements, each behind the field's key. */
  lemma SlotDumped(schema: Schema, tag: nat, f: Field, s: Value) returns (parts: seq<Bytes>)
    requires TypedSlot(schema, f, s)
    ensures |parts| == |Elements(f, s)|
    ensures forall i :: 0 <= i < |parts| ==> ElementBytes(schema, f.typ, Elements(f, s)[i], parts[i])
    ensures DumpSlot(schema, tag, f, s) == Concat(Keyed(Uvarint(KeyOf(tag, f.typ)), parts))
  {
    hide DumpValue, Typed, ElementBytes, Uvarint, DumpItems;
    if s.Unset? {
      parts := [];
    } else if f.repeated {
      parts := ItemsDumped(schema, tag, f.typ, s, 0);
    } else {
      ElementDumped(schema, f.typ, s);
      var v := DumpValue(schema, f.typ, s);
      parts := [v];
      OneKeyed(Uvarint(KeyOf(tag, f.typ)), v);
    }
  }

  lemma OneKeyed(key: Bytes, v: Bytes)
    ensures Concat(Keyed(key, [v])) == key + v
  {
    assert Keyed(key, [v])[1..] == [];
    assert Concat(Keyed(key, [v])) == (key + v) + Concat([]);
  }

  lemma {:induction false} FieldsDumped(schema: Schema, m: Value, i: nat) returns (parts: seq<Bytes>)
    requires TypedMessage(schema, m) && i <= |m.slots|
    ensures |parts| == |m.slots| - i && DumpFields(schema, m, i) == Concat(parts)
    ensures forall j :: 0 <= j < |parts| ==>
              var (tag, f) := schema[m.name][i + j];
              TypedSlot(schema, f, m.slots[i + j]) && parts[j] == DumpSlot(schema, tag, f, m.slots[i + j])
    decreases |m.slots| - i
  {
    hide DumpSlot, TypedSlot;
    if i == |m.slots| {
      parts := [];
    } else {
      var more := FieldsDumped(schema, m, i + 1);
      var (tag, f) := schema[m.name][i];
      parts := [DumpSlot(schema, tag, f, m.slots[i])] + more;
      assert parts[1..] == more;
      forall j | 0 <= j < |parts|
        ensures TypedSlot(schema, schema[m.name][i + j].1, m.slots[i + j])
        ensures parts[j] == DumpSlot(schema, schema[m.name][i + j].0, schema[m.name][i + j].1, m.slots[i + j])
      {
        if j > 0 { assert parts[j] == more[j - 1] && schema[m.name][i + 1 + (j - 1)] == schema[m.name][i + j]; }
      }
    }
  }

  /** A message is its fields in the order of the schema. */
  lemma MessageDumped(schema: Schema, m: Value) returns (parts: seq<Bytes>)
    requires TypedMessage(schema, m)
    ensures |parts| == |m.slots| && DumpMessage(schema, m) == Concat(parts)
    ensures forall j :: 0 <= j < |parts| ==>
              var (tag, f) := schema[m.name][j];
              TypedSlot(schema, f, m.slots[j]) && parts[j] == DumpSlot(schema, tag, f, m.slots[j])
  {
    hide DumpSlot, TypedSlot, DumpFields;
    parts := FieldsDumped(schema, m, 0);
  }

  /** The numbers that fit a type. */
  lemma Ranges(n: int)
    ensures InRange(TUint32, n) <==> 0 <= n <= 0xffff_ffff
    ensures InRange(TUint64, n) <==> 0 <= n <= 0xffff_ffff_ffff_ffff
    ensures InRange(TSint32, n) <==> -0x8000_0000 <= n <= 0x7fff_ffff
    ensures InRange(TSint64, n) <==> -0x8000_0000_0000_0000 <= n <= 0x7fff_ffff_ffff_ffff
  {}

  function ExampleSchema(): Schema {
    map["Example" := [(1, Field(TUint32, false, false, Unset)), (2, Field(TText, false, false, Unset))]]
  }

  /** A number and a text as fields 1 and 2. */
  lemma Example(text: Bytes)
    requires |text| == 7
    ensures TypedMessage(ExampleSchema(), Message("Example", [Int(150), Blob(text)]))
    ensures DumpMessage(ExampleSchema(), Message("Example", [Int(150), Blob(text)]))
         == [0x08, 0x96, 0x01, 0x12, 0x07] + text
  {
    var schema := ExampleSchema();
    var m := Message("Example", [Int(150), Blob(text)]);
    SmallNumbers();
    assert DumpFields(schema, m, 2) == [];
    assert DumpSlot(schema, 2, schema["Example"][1].1, Blob(text)) == [0x12] + ([0x07] + text);
    assert DumpFields(schema, m, 1) == [0x12] + ([0x07] + text) + [];
    assert DumpSlot(schema, 1, schema["Example"][0].1, Int(150)) == [0x08] + [0x96, 0x01];
    assert DumpFields(schema, m, 0) == [0x08] + [0x96, 0x01] + DumpFields(schema, m, 1);
  }

  lemma SmallNumbers()
    ensures Uvarint(7) == [0x07] && Uvarint(8) == [0x08] && Uvarint(18) == [0x12] && Uvarint(150) == [0x96, 0x01]
  {}
}
