/** The minimal protobuf codec of trezorlib as functions: schemas, messages, dumping, loading. */
module ProtobufSpec {
  import opened Python

  // ------------------------------------------------------------ schemas and messages

  datatype FieldType =
    | TUint32 | TUint64 | TSint32 | TSint64
    | TBool
    | TBytes
    | TText                      // text stands for its UTF-8 encoding
    | TEnum(members: set<int>)
    | TMessage(name: string)

  /** A field of a message type; `default` is Unset unless the schema gives one. */
  datatype Field = Field(typ: FieldType, repeated: bool, required: bool, default: Value)

  /** The fields of a message type in the order of its FIELDS, by tag. */
  type Fields = seq<(nat, Field)>

  /** The message types, by name. */
  type Schema = map<string, Fields>

  /** Attribute values. `Unset` is None, `Missing` is the placeholder of a required field that was not given. */
  datatype Value =
    | Int(n: int)
    | Flag(b: bool)
    | Blob(bytes: Bytes)
    | Message(name: string, slots: seq<Value>)
    | Many(items: seq<Value>)
    | Unset
    | Missing

  const WIRE_INT: nat := 0
  const WIRE_LENGTH: nat := 2

  function WireType(t: FieldType): nat {
    if t.TBytes? || t.TText? || t.TMessage? then WIRE_LENGTH else WIRE_INT
  }

  /** A tag's place among the fields, or their number. */
  function Find(fs: Fields, tag: nat): (i: nat)
    ensures i <= |fs| && (i < |fs| ==> fs[i].0 == tag)
    ensures forall j :: 0 <= j < i ==> fs[j].0 != tag
  {
    if fs == [] then 0
    else if fs[0].0 == tag then 0
    else
      var i := Find(fs[1..], tag);
      i + 1
  }

  predicate DistinctTags(fs: Fields) {
    forall i, j :: 0 <= i < j < |fs| ==> fs[i].0 != fs[j].0
  }

  lemma FindAt(fs: Fields, i: nat)
    requires DistinctTags(fs) && i < |fs|
    ensures Find(fs, fs[i].0) == i
  {
    var j := Find(fs, fs[i].0);
  }

  // ------------------------------------------------------------ numbers

  /** dump_uvarint: seven bits a byte, the lowest first, all but the last with the top bit set. */
  function Uvarint(n: nat): (b: Bytes)
    ensures |b| > 0
  {
    if n < 128 then [n as byte] else [(n % 128 + 128) as byte] + Uvarint(n / 128)
  }

  function SintToUint(n: int): (u: nat) {
    if n < 0 then -2 * n - 1 else 2 * n
  }

  function UintToSint(u: nat): int {
    if u % 2 == 1 then -(u / 2) - 1 else u / 2
  }

  /** The signed encoding is one-to-one between all integers and all naturals. */
  lemma ZigZag(n: int, u: nat)
    ensures UintToSint(SintToUint(n)) == n && SintToUint(UintToSint(u)) == u
  {
    if n < 0 {
      assert SintToUint(n) == 2 * (-n - 1) + 1;
    }
  }

  // ------------------------------------------------------------ readers

  /** What is left of a stream, and how much of it may be read; without a limit it is the stream itself. */
  datatype Reader = Reader(limit: Option<nat>, rest: Bytes)

  predicate Allows(r: Reader, k: nat) {
    r.limit.Some? ==> k <= r.limit.value
  }

  function Advance(r: Reader, k: nat): Reader
    requires Allows(r, k) && k <= |r.rest|
  {
    Reader(if r.limit.Some? then Some(r.limit.value - k) else None, r.rest[k..])
  }

  /** readinto: nothing beyond the limit, and what there is at the end of the stream. */
  function Available(r: Reader, k: nat): (m: nat)
    ensures m <= k && m <= |r.rest| && Allows(r, m)
  {
    if !Allows(r, k) then 0 else if k <= |r.rest| then k else |r.rest|
  }

  /** LimitedReader(r, limit) */
  function Limited(r: Reader, limit: nat): Reader {
    Reader(Some(if r.limit.Some? && r.limit.value < limit then r.limit.value else limit), r.rest)
  }

  /** `sub` reads a part of what `r` reads. */
  predicate Within(sub: Reader, r: Reader) {
    |sub.rest| <= |r.rest| && Allows(r, |r.rest| - |sub.rest|)
  }

  /** `r` after a limited reader on it has come to `sub`. */
  function Resume(r: Reader, sub: Reader): Reader
    requires Within(sub, r)
  {
    Advance(r, |r.rest| - |sub.rest|)
  }

  /** load_uvarint; `first` says that nothing of the number has been read yet. */
  function LoadUvarint(r: Reader, first: bool): Result<(nat, Reader)>
    decreases |r.rest|
  {
    if Available(r, 1) == 0 then Err(if first then EOFError else IOError)
    else
      var b := r.rest[0];
      if b < 128 then Ok((b as nat, Advance(r, 1)))
      else
        var (n, r) :- LoadUvarint(Advance(r, 1), false);
        Ok((b as nat - 128 + 128 * n, r))
  }

  /** Everything after a step of a reader belongs to what it read before. */
  lemma {:induction false} LoadUvarintWithin(r: Reader, first: bool)
    ensures LoadUvarint(r, first).Ok? ==>
              Within(LoadUvarint(r, first).value.1, r)
              && |LoadUvarint(r, first).value.1.rest| < |r.rest|
              && LoadUvarint(r, first).value.1 == Resume(r, LoadUvarint(r, first).value.1)
    decreases |r.rest|
  {
    if Available(r, 1) != 0 && r.rest[0] >= 128 {
      LoadUvarintWithin(Advance(r, 1), false);
    }
  }

  /** bytearray(k) filled by readinto, whose result is not looked at: what is missing stays zero. */
  function LoadBytes(r: Reader, k: nat): (Bytes, Reader) {
    var m := Available(r, k);
    (r.rest[..m] + Zeros(k - m), Advance(r, m))
  }

  // ------------------------------------------------------------ loading

  /** decode_varint_field: what does not fit the type is only logged. */
  function FromUvarint(t: FieldType, n: nat): Value {
    if t.TSint32? || t.TSint64? then Int(UintToSint(n))
    else if t.TBool? then Flag(n != 0)
    else Int(n)
  }

  /** decode_packed_array_field: numbers up to the end of a limited reader. */
  function LoadPacked(t: FieldType, r: Reader): Result<(seq<Value>, Reader)>
    decreases |r.rest|
  {
    LoadUvarintWithin(r, true);
    match LoadUvarint(r, true)
    case Err(EOFError) => Ok(([], r))
    case Err(e) => Err(e)
    case Ok((n, next)) =>
      var (more, end) :- LoadPacked(t, next);
      Ok(([FromUvarint(t, n)] + more, end))
  }

  lemma {:induction false} LoadPackedWithin(t: FieldType, r: Reader)
    ensures LoadPacked(t, r).Ok? ==> Within(LoadPacked(t, r).value.1, r)
    decreases |r.rest|
  {
    LoadUvarintWithin(r, true);
    if LoadUvarint(r, true).Ok? { LoadPackedWithin(t, LoadUvarint(r, true).value.1); }
  }

  /** What a field holds before anything is loaded. */
  function Initial(f: Field): Value {
    if f.repeated then Many([]) else if f.required then Missing else f.default
  }

  function Initials(fs: Fields): (r: seq<Value>)
    ensures |r| == |fs| && forall i :: 0 <= i < |fs| ==> r[i] == Initial(fs[i].1)
  {
    seq(|fs|, i requires 0 <= i < |fs| => Initial(fs[i].1))
  }

  /** Values that have come for a field. */
  function Put(f: Field, before: Value, values: seq<Value>): Result<Value> {
    if f.repeated then Ok(Many((if before.Many? then before.items else []) + values))
    else if |values| != 1 then Err(ValueError)
    else Ok(values[0])
  }

  lemma WithinTrans(a: Reader, b: Reader, c: Reader)
    requires Within(a, b) && Within(b, c) && b == Resume(c, b)
    ensures Within(a, c)
  {}

  /** A required field for which nothing has come. */
  predicate Absent(fs: Fields, slots: seq<Value>)
    requires |slots| == |fs|
  {
    exists i :: 0 <= i < |fs| && fs[i].1.required && slots[i] == Missing
  }

  /** load_message on a message type: the fields up to the end of the reader. */
  function LoadMessage(schema: Schema, name: string, r: Reader): Result<(Value, Reader)>
    ensures LoadMessage(schema, name, r).Ok? ==> Within(LoadMessage(schema, name, r).value.1, r)
    decreases |r.rest|, 3
  {
    if name !in schema then Err(ValueError)
    else
      var (slots, end) :- LoadFields(schema, schema[name], Initials(schema[name]), r);
      if Absent(schema[name], slots) then Err(ValueError) else Ok((Message(name, slots), end))
  }

  function LoadFields(schema: Schema, fs: Fields, slots: seq<Value>, r: Reader): Result<(seq<Value>, Reader)>
    requires |slots| == |fs|
    ensures LoadFields(schema, fs, slots, r).Ok? ==> Within(LoadFields(schema, fs, slots, r).value.1, r)
    ensures LoadFields(schema, fs, slots, r).Ok? ==> |LoadFields(schema, fs, slots, r).value.0| == |fs|
    decreases |r.rest|, 2
  {
    LoadUvarintWithin(r, true);
    match LoadUvarint(r, true)
    case Err(EOFError) => Ok((slots, r))
    case Err(e) => Err(e)
    case Ok((key, r1)) =>
      var i := Find(fs, key / 8);
      if i == |fs| then
        var r2 :- Skip(key % 8, r1);
        WithinTrans(r2, r1, r);
        var (all, end) :- LoadFields(schema, fs, slots, r2);
        Carried(end, r2, r1, r);
        Ok((all, end))
      else
        var (values, r2) :- LoadValues(schema, fs[i].1, key % 8, r1);
        WithinTrans(r2, r1, r);
        var slot :- Put(fs[i].1, slots[i], values);
        var (all, end) :- LoadFields(schema, fs, slots[i := slot], r2);
        Carried(end, r2, r1, r);
        Ok((all, end))
  }

  lemma Carried(end: Reader, r2: Reader, r1: Reader, r: Reader)
    requires Within(end, r2) && Within(r2, r1) && r2 == Resume(r1, r2) && Within(r1, r) && r1 == Resume(r, r1)
    ensures Within(end, r)
  {}

  /** An unknown field is passed over. */
  function Skip(wtype: nat, r: Reader): (s: Result<Reader>)
    ensures s.Ok? ==> Within(s.value, r) && s.value == Resume(r, s.value)
  {
    if wtype == WIRE_INT then
      LoadUvarintWithin(r, true);
      var (_, end) :- LoadUvarint(r, true);
      Ok(end)
    else if wtype == WIRE_LENGTH then
      LoadUvarintWithin(r, true);
      var (k, next) :- LoadUvarint(r, true);
      Ok(LoadBytes(next, k).1)
    else Err(ValueError)
  }

  /** The values that one key brings: a packed array, or a single value of the field's own wire type. */
  function LoadValues(schema: Schema, f: Field, wtype: nat, r: Reader): (s: Result<(seq<Value>, Reader)>)
    ensures s.Ok? ==> Within(s.value.1, r) && s.value.1 == Resume(r, s.value.1)
    decreases |r.rest|, 1
  {
    if f.typ.TMessage? && f.typ.name !in schema then Err(ValueError)
    else if wtype == WIRE_LENGTH && WireType(f.typ) == WIRE_INT && f.repeated then LoadArray(f.typ, r)
    else if wtype != WireType(f.typ) then Err(ValueError)
    else
      LoadUvarintWithin(r, true);
      var (n, next) :- LoadUvarint(r, true);
      if wtype == WIRE_INT then Ok(([FromUvarint(f.typ, n)], next))
      else if f.typ.TMessage? then
        var (m, sub) :- LoadMessage(schema, f.typ.name, Limited(next, n));
        Resumed(r, next, n, sub);
        Ok(([m], Resume(next, sub)))
      else
        LoadedBytes(r, next, n);
        Ok(([Blob(LoadBytes(next, n).0)], LoadBytes(next, n).1))
  }

  function LoadArray(t: FieldType, r: Reader): (s: Result<(seq<Value>, Reader)>)
    ensures s.Ok? ==> Within(s.value.1, r) && s.value.1 == Resume(r, s.value.1)
  {
    LoadUvarintWithin(r, true);
    var (k, next) :- LoadUvarint(r, true);
    LoadPackedWithin(t, Limited(next, k));
    var (values, sub) :- LoadPacked(t, Limited(next, k));
    Resumed(r, next, k, sub);
    Ok((values, Resume(next, sub)))
  }

  /** A limited reader that is done leaves its parent further on. */
  lemma Resumed(r: Reader, next: Reader, limit: nat, sub: Reader)
    requires Within(next, r) && next == Resume(r, next) && Within(sub, Limited(next, limit))
    ensures Within(sub, next) && Within(Resume(next, sub), r) && Resume(next, sub) == Resume(r, Resume(next, sub))
  {}

  lemma LoadedBytes(r: Reader, next: Reader, k: nat)
    requires Within(next, r) && next == Resume(r, next)
    ensures Within(LoadBytes(next, k).1, r) && LoadBytes(next, k).1 == Resume(r, LoadBytes(next, k).1)
  {}

  // ------------------------------------------------------------ dumping

  const BITS32: int := 0x1_0000_0000
  const BITS64: int := 0x1_0000_0000_0000_0000

  /** value_fits */
  predicate InRange(t: FieldType, n: int) {
    match t
    case TUint32 => 0 <= n < BITS32
    case TUint64 => 0 <= n < BITS64
    case TSint32 => -BITS32 <= 2 * n < BITS32
    case TSint64 => -BITS64 <= 2 * n < BITS64
    case TEnum(members) => n in members && n >= 0
    case _ => false
  }

  /** Values that dump_message accepts for one element of a field. */
  predicate Typed(schema: Schema, t: FieldType, v: Value)
    decreases v, 1
  {
    match t
    case TBool => v.Flag?
    case TBytes => v.Blob?
    case TText => v.Blob?
    case TMessage(name) => v.Message? && v.name == name && TypedMessage(schema, v)
    case _ => v.Int? && InRange(t, v.n)
  }

  predicate TypedSlot(schema: Schema, f: Field, s: Value)
    decreases s, 2
  {
    if s.Unset? then true
    else if f.repeated then s.Many? && forall i :: 0 <= i < |s.items| ==> Typed(schema, f.typ, s.items[i])
    else Typed(schema, f.typ, s)
  }

  predicate TypedMessage(schema: Schema, m: Value)
    decreases m, 0
  {
    && m.Message? && m.name in schema && |m.slots| == |schema[m.name]|
    && forall i :: 0 <= i < |m.slots| ==> TypedSlot(schema, schema[m.name][i].1, m.slots[i])
  }

  function DumpValue(schema: Schema, t: FieldType, v: Value): Bytes
    requires Typed(schema, t, v)
    decreases v, 1
  {
    match t
    case TBool => Uvarint(if v.b then 1 else 0)
    case TBytes => Uvarint(|v.bytes|) + v.bytes
    case TText => Uvarint(|v.bytes|) + v.bytes
    case TMessage(_) =>
      var d := DumpMessage(schema, v);
      Uvarint(|d|) + d
    case TSint32 => Uvarint(SintToUint(v.n))
    case TSint64 => Uvarint(SintToUint(v.n))
    case _ => Uvarint(v.n)
  }

  function Key(tag: nat, t: FieldType): nat {
    8 * tag + WireType(t)
  }

  function DumpItems(schema: Schema, tag: nat, t: FieldType, s: Value, k: nat): Bytes
    requires s.Many? && k <= |s.items| && forall i :: 0 <= i < |s.items| ==> Typed(schema, t, s.items[i])
    decreases s, 0, |s.items| - k
  {
    if k == |s.items| then []
    else Uvarint(Key(tag, t)) + DumpValue(schema, t, s.items[k]) + DumpItems(schema, tag, t, s, k + 1)
  }

  function DumpSlot(schema: Schema, tag: nat, f: Field, s: Value): Bytes
    requires TypedSlot(schema, f, s)
    decreases s, 2
  {
    if s.Unset? then []
    else if f.repeated then DumpItems(schema, tag, f.typ, s, 0)
    else Uvarint(Key(tag, f.typ)) + DumpValue(schema, f.typ, s)
  }

  /** The fields from the i-th on, in the order of the schema. */
  function DumpFields(schema: Schema, m: Value, i: nat): Bytes
    requires TypedMessage(schema, m) && i <= |m.slots|
    decreases m, 0, |m.slots| - i
  {
    if i == |m.slots| then []
    else
      var (tag, f) := schema[m.name][i];
      DumpSlot(schema, tag, f, m.slots[i]) + DumpFields(schema, m, i + 1)
  }

  function DumpMessage(schema: Schema, m: Value): Bytes
    requires TypedMessage(schema, m)
    decreases m, 0
  {
    DumpFields(schema, m, 0)
  }
}
