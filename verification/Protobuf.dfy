/** protobuf.py: readers with limits, writers that count, and the loops that load and dump messages. */
module Protobuf {
  import opened Python
  import Spec = ProtobufSpec

  type Value = Spec.Value
  type Schema = Spec.Schema
  type FieldType = Spec.FieldType
  type Field = Spec.Field

  // ------------------------------------------------------------ writers

  /** A writer that keeps what is written, or a CountingWriter that keeps only how much it was. */
  class Writer {
    const counts: bool
    var size: nat
    var data: Bytes
    ghost var written: Bytes

    ghost predicate Valid()
      reads this
    {
      if counts then size == |written| else data == written
    }

    constructor (counts: bool)
      ensures Valid() && written == [] && this.counts == counts
    {
      this.counts, size, data, written := counts, 0, [], [];
    }

    method Write(b: Bytes)
      requires Valid()
      modifies this
      ensures Valid() && written == old(written) + b
    {
      if counts { size := size + |b|; } else { data := data + b; }
      written := written + b;
    }
  }

  method DumpUvarint(w: Writer, n: int) returns (r: Result<()>)
    requires w.Valid()
    modifies w
    ensures w.Valid()
    ensures n < 0 ==> r == Err(ValueError) && w.written == old(w.written)
    ensures n >= 0 ==> r == Ok(()) && w.written == old(w.written) + Spec.Uvarint(n)
  {
    if n < 0 { return Err(ValueError); }
    var left := n;
    var shifted := 1;
    ghost var done: Bytes := [];
    assert done + Spec.Uvarint(n) == Spec.Uvarint(n);
    while shifted != 0
      invariant w.Valid() && left >= 0 && shifted >= 0 && w.written == old(w.written) + done
      invariant shifted != 0 ==> done + Spec.Uvarint(left) == Spec.Uvarint(n)
      invariant shifted == 0 ==> done == Spec.Uvarint(n)
      decreases left + shifted
    {
      shifted := left / 128;
      var b := if shifted != 0 then left % 128 + 128 else left % 128;
      w.Write([b as byte]);
      if shifted != 0 {
        assert done + ([b as byte] + Spec.Uvarint(shifted)) == done + [b as byte] + Spec.Uvarint(shifted);
      }
      done := done + [b as byte];
      left := shifted;
    }
    return Ok(());
  }

  method DumpBlob(w: Writer, b: Bytes)
    requires w.Valid()
    modifies w
    ensures w.Valid() && w.written == old(w.written) + (Spec.Uvarint(|b|) + b)
  {
    var _ := DumpUvarint(w, |b|);
    w.Write(b);
    assert old(w.written) + Spec.Uvarint(|b|) + b == old(w.written) + (Spec.Uvarint(|b|) + b);
  }

  /** One element of a field. An embedded message is dumped twice: to count it, and to write it. */
  method DumpValue(schema: Schema, w: Writer, t: FieldType, v: Value) returns (r: Result<()>)
    requires w.Valid()
    modifies w
    ensures w.Valid()
    ensures r.Ok? <==> Spec.Typed(schema, t, v)
    ensures r.Ok? ==> w.written == old(w.written) + Spec.DumpValue(schema, t, v)
    decreases v, 2
  {
    hide Spec.TypedMessage, Spec.DumpMessage, Spec.Uvarint, Spec.SintToUint;
    if t.TMessage? {
      if !v.Message? || v.name != t.name { return Err(ValueError); }
      var counter := new Writer(true);
      r := DumpMessage(schema, counter, v);
      if r.Err? { return; }
      ghost var d := Spec.DumpMessage(schema, v);
      assert counter.written == d;
      var _ := DumpUvarint(w, counter.size);
      r := DumpMessage(schema, w, v);
      assert old(w.written) + Spec.Uvarint(|d|) + d == old(w.written) + (Spec.Uvarint(|d|) + d);
    } else if t.TBytes? || t.TText? {
      if !v.Blob? { return Err(AssertionError); }
      DumpBlob(w, v.bytes);
      return Ok(());
    } else if t.TBool? {
      if !v.Flag? { return Err(ValueError); }
      r := DumpUvarint(w, if v.b then 1 else 0);
    } else {
      if !v.Int? || !Spec.InRange(t, v.n) { return Err(ValueError); }
      r := DumpUvarint(w, if t.TSint32? || t.TSint64? then Spec.SintToUint(v.n) else v.n);
    }
  }

  method DumpItems(schema: Schema, w: Writer, tag: nat, t: FieldType, s: Value) returns (r: Result<()>)
    requires w.Valid() && s.Many?
    modifies w
    ensures w.Valid()
    ensures r.Ok? <==> forall i :: 0 <= i < |s.items| ==> Spec.Typed(schema, t, s.items[i])
    ensures r.Ok? ==> w.written == old(w.written) + Spec.DumpItems(schema, tag, t, s, 0)
    decreases s, 3
  {
    hide Spec.Typed, Spec.DumpValue, Spec.Uvarint, Spec.Key;
    ghost var typed := forall i :: 0 <= i < |s.items| ==> Spec.Typed(schema, t, s.items[i]);
    for k := 0 to |s.items|
      invariant w.Valid() && forall i :: 0 <= i < k ==> Spec.Typed(schema, t, s.items[i])
      invariant typed ==> w.written + Spec.DumpItems(schema, tag, t, s, k) == old(w.written) + Spec.DumpItems(schema, tag, t, s, 0)
    {
      ghost var before := w.written;
      var _ := DumpUvarint(w, Spec.Key(tag, t));
      r := DumpValue(schema, w, t, s.items[k]);
      if r.Err? { return; }
      if typed {
        NextItem(before, schema, tag, t, s, k);
      }
    }
    return Ok(());
  }

  lemma NextItem(before: Bytes, schema: Schema, tag: nat, t: FieldType, s: Value, k: nat)
    requires s.Many? && k < |s.items| && forall i :: 0 <= i < |s.items| ==> Spec.Typed(schema, t, s.items[i])
    ensures before + Spec.DumpItems(schema, tag, t, s, k)
         == before + Spec.Uvarint(Spec.Key(tag, t)) + Spec.DumpValue(schema, t, s.items[k])
            + Spec.DumpItems(schema, tag, t, s, k + 1)
  {
    hide Spec.Typed, Spec.DumpValue, Spec.Uvarint, Spec.Key;
    var a, b, c := Spec.Uvarint(Spec.Key(tag, t)), Spec.DumpValue(schema, t, s.items[k]), Spec.DumpItems(schema, tag, t, s, k + 1);
    assert before + (a + b + c) == before + a + b + c;
  }

  /** One attribute: None is left out, a placeholder is refused. */
  method DumpSlot(schema: Schema, w: Writer, tag: nat, f: Field, s: Value) returns (r: Result<()>)
    requires w.Valid()
    modifies w
    ensures w.Valid()
    ensures r.Ok? <==> Spec.TypedSlot(schema, f, s)
    ensures r.Ok? ==> w.written == old(w.written) + Spec.DumpSlot(schema, tag, f, s)
    decreases s, 4
  {
    hide Spec.DumpValue, Spec.Uvarint, Spec.Key, Spec.DumpItems;
    if s.Missing? { return Err(ValueError); }
    if s.Unset? { return Ok(()); }
    if f.repeated {
      if !s.Many? { return Err(TypeError); }
      r := DumpItems(schema, w, tag, f.typ, s);
    } else {
      ghost var before := w.written;
      var _ := DumpUvarint(w, Spec.Key(tag, f.typ));
      r := DumpValue(schema, w, f.typ, s);
      if r.Ok? {
        var a, b := Spec.Uvarint(Spec.Key(tag, f.typ)), Spec.DumpValue(schema, f.typ, s);
        assert before + a + b == before + (a + b);
      }
    }
  }

  /** dump_message: it succeeds exactly on messages that fit the schema. */
  method DumpMessage(schema: Schema, w: Writer, m: Value) returns (r: Result<()>)
    requires w.Valid()
    modifies w
    ensures w.Valid()
    ensures r.Ok? <==> Spec.TypedMessage(schema, m)
    ensures r.Ok? ==> w.written == old(w.written) + Spec.DumpMessage(schema, m)
    decreases m, 1
  {
    hide Spec.DumpSlot, Spec.TypedSlot;
    if !m.Message? || m.name !in schema || |m.slots| != |schema[m.name]| { return Err(TypeError); }
    var fs := schema[m.name];
    ghost var typed := Spec.TypedMessage(schema, m);
    for i := 0 to |fs|
      invariant w.Valid() && forall j :: 0 <= j < i ==> Spec.TypedSlot(schema, fs[j].1, m.slots[j])
      invariant typed ==> w.written + Spec.DumpFields(schema, m, i) == old(w.written) + Spec.DumpFields(schema, m, 0)
    {
      ghost var before := w.written;
      r := DumpSlot(schema, w, fs[i].0, fs[i].1, m.slots[i]);
      if r.Err? { return; }
      if typed {
        var a, b := Spec.DumpSlot(schema, fs[i].0, fs[i].1, m.slots[i]), Spec.DumpFields(schema, m, i + 1);
        assert before + (a + b) == before + a + b;
      }
    }
    return Ok(());
  }

  // ------------------------------------------------------------ readers

  /** The least of the limits, if there are any. */
  function Least(limits: seq<nat>): Option<nat> {
    if limits == [] then None
    else
      match Least(limits[..|limits| - 1])
      case None => Some(limits[|limits| - 1])
      case Some(k) => Some(if k < limits[|limits| - 1] then k else limits[|limits| - 1])
  }

  predicate AllAtLeast(limits: seq<nat>, k: nat) {
    forall i :: 0 <= i < |limits| ==> k <= limits[i]
  }

  function Less(limits: seq<nat>, k: nat): (r: seq<nat>)
    requires AllAtLeast(limits, k)
    ensures |r| == |limits| && forall i :: 0 <= i < |r| ==> r[i] == limits[i] - k
  {
    seq(|limits|, i requires 0 <= i < |limits| => limits[i] - k)
  }

  /** The limits after `k` bytes have been read. */
  predicate Follows(before: seq<nat>, after: seq<nat>, k: nat) {
    AllAtLeast(before, k) && after == Less(before, k)
  }

  lemma {:induction false} LeastIs(limits: seq<nat>, k: nat)
    ensures AllAtLeast(limits, k) <==> (Least(limits).Some? ==> k <= Least(limits).value)
    ensures Least(limits).None? <==> limits == []
    decreases |limits|
  {
    if limits != [] {
      var init := limits[..|limits| - 1];
      LeastIs(init, k);
      assert AllAtLeast(limits, k) <==> AllAtLeast(init, k) && k <= limits[|limits| - 1];
    }
  }

  lemma {:induction false} LeastLess(limits: seq<nat>, k: nat)
    requires AllAtLeast(limits, k)
    ensures Least(limits).Some? ==> Least(limits).value >= k && Least(Less(limits, k)) == Some(Least(limits).value - k)
    ensures Least(limits).None? ==> Least(Less(limits, k)) == None
    decreases |limits|
  {
    LeastIs(limits, k);
    if limits != [] {
      var init := limits[..|limits| - 1];
      LeastLess(init, k);
      assert Less(limits, k)[..|limits| - 1] == Less(init, k);
    }
  }

  lemma Nothing(r: Spec.Reader)
    ensures Spec.Advance(r, 0) == r
  {}

  lemma FollowsLess(limits: seq<nat>, k: nat)
    requires AllAtLeast(limits, k)
    ensures Follows(limits, Less(limits, k), k)
  {}

  /** A stream, and the limits of the LimitedReaders on it: each reads through the one before. */
  class Input {
    const data: Bytes
    var pos: nat
    var limits: seq<nat>

    ghost predicate Valid()
      reads this
    {
      pos <= |data|
    }

    /** What the innermost reader can do. */
    ghost function State(): Spec.Reader
      requires Valid()
      reads this
    {
      Spec.Reader(Least(limits), data[pos..])
    }

    constructor (data: Bytes)
      ensures Valid() && pos == 0 && limits == [] && this.data == data && State() == Spec.Reader(None, data)
    {
      this.data, pos, limits := data, 0, [];
    }

    /** Since `from` and `before`, only reading has happened. */
    ghost predicate Moved(from: nat, before: seq<nat>)
      reads this
    {
      Valid() && from <= pos && Follows(before, limits, pos - from)
    }

    /** readinto, from the innermost limit to the outermost. */
    method ReadInto(n: nat) returns (b: Bytes)
      requires Valid()
      modifies this`pos, this`limits
      ensures Moved(old(pos), old(limits)) && |b| == Spec.Available(old(State()), n)
      ensures b == old(data[pos..])[..|b|] && State() == Spec.Advance(old(State()), |b|)
    {
      hide Less, Follows, Least;
      ghost var before, start := limits, State();
      for i := |limits| downto 0
        invariant forall j :: i <= j < |limits| ==> n <= limits[j]
      {
        if limits[i] < n {
          LeastIs(limits, n);
          FollowsNone(limits);
          Nothing(start);
          return [];
        }
      }
      LeastIs(limits, n);
      var end := Min(pos + n, |data|);
      b := data[pos..end];
      LeastLess(limits, |b|);
      limits := Less(limits, |b|);
      pos := end;
      FollowsLess(before, |b|);
      assert data[end..] == start.rest[|b|..];
    }

    /** LimitedReader(self, limit) */
    method Limit(limit: nat)
      requires Valid()
      modifies this`limits
      ensures Valid() && limits == old(limits) + [limit] && State() == Spec.Limited(old(State()), limit)
    {
      limits := limits + [limit];
      assert limits[..|limits| - 1] == old(limits);
    }

    /** Back to the reader outside. */
    method Unlimit(ghost from: nat, ghost before: seq<nat>, ghost limit: nat, ghost start: Spec.Reader)
      requires Moved(from, before + [limit]) && start == Spec.Reader(Least(before), data[from..]) && from <= |data|
      modifies this`limits
      ensures Moved(from, before)
      ensures Spec.Within(old(State()), start) && State() == Spec.Resume(start, old(State()))
    {
      ghost var k := pos - from;
      assert (before + [limit])[..|before|] == before;
      assert forall i :: 0 <= i < |before| ==> before[i] == (before + [limit])[i];
      limits := limits[..|limits| - 1];
      assert limits == Less(before, k);
      LeastIs(before, k);
      LeastLess(before, k);
    }
  }

  lemma FollowsTwice(before: seq<nat>, mid: seq<nat>, after: seq<nat>, i: nat, j: nat)
    requires Follows(before, mid, i) && Follows(mid, after, j)
    ensures Follows(before, after, i + j)
  {
    forall k | 0 <= k < |before| ensures i + j <= before[k] { assert j <= mid[k]; }
  }

  lemma FollowsNone(limits: seq<nat>)
    ensures Follows(limits, limits, 0)
  {}

  // ------------------------------------------------------------ loading

  method LoadUvarint(f: Input) returns (r: Result<nat>)
    requires f.Valid()
    modifies f`pos, f`limits
    ensures f.Moved(old(f.pos), old(f.limits))
    ensures match Spec.LoadUvarint(old(f.State()), true)
            case Ok((n, end)) => r == Ok(n) && f.State() == end && f.pos > old(f.pos)
            case Err(e) => r == Err(e) && (e == EOFError ==> f.pos == old(f.pos) && f.State() == old(f.State()))
  {
    hide Follows;
    var result: nat, scale: nat, bytesRead: nat := 0, 1, 0;
    var b: byte := 128;
    ghost var start := f.State();
    FollowsNone(f.limits);
    while b >= 128
      invariant f.Moved(old(f.pos), old(f.limits)) && scale >= 1
      invariant bytesRead == 0 ==> f.pos == old(f.pos) && f.State() == start
      invariant bytesRead > 0 ==> f.pos > old(f.pos)
      invariant b >= 128 ==>
                  Spec.LoadUvarint(start, true) == Carry(result, scale, Spec.LoadUvarint(f.State(), bytesRead == 0))
      invariant b < 128 ==> Spec.LoadUvarint(start, true) == Ok((result, f.State())) && bytesRead > 0
      decreases b >= 128, |f.data| - f.pos
    {
      ghost var s := f.State();
      ghost var at, here := f.pos, f.limits;
      var buffer := f.ReadInto(1);
      FollowsTwice(old(f.limits), here, f.limits, at - old(f.pos), f.pos - at);
      if |buffer| == 0 { return Err(if bytesRead > 0 then IOError else EOFError); }
      bytesRead := bytesRead + 1;
      b := buffer[0];
      assert b == s.rest[0];
      CarryMore(result, scale, s, bytesRead == 1);
      result := result + (b as nat % 128) * scale;
      scale := scale * 128;
    }
    return Ok(result);
  }

  /** A number whose lower digits, up to `scale`, have been read. */
  function Carry(low: nat, scale: nat, r: Result<(nat, Spec.Reader)>): Result<(nat, Spec.Reader)> {
    match r
    case Err(e) => Err(e)
    case Ok((n, end)) => Ok((low + n * scale, end))
  }

  lemma CarryMore(low: nat, scale: nat, s: Spec.Reader, first: bool)
    requires Spec.Available(s, 1) == 1
    ensures var b := s.rest[0] as nat;
            Carry(low, scale, Spec.LoadUvarint(s, first)) ==
              if b < 128 then Ok((low + (b % 128) * scale, Spec.Advance(s, 1)))
              else Carry(low + (b % 128) * scale, scale * 128, Spec.LoadUvarint(Spec.Advance(s, 1), false))
  {
    hide Spec.Advance;
    var b := s.rest[0] as nat;
    if b >= 128 && Spec.LoadUvarint(Spec.Advance(s, 1), false).Ok? {
      var n := Spec.LoadUvarint(Spec.Advance(s, 1), false).value.0;
      MoreDigits(low, b - 128, n, scale);
    }
  }

  lemma MoreDigits(low: nat, digit: nat, n: nat, scale: nat)
    ensures low + (digit + 128 * n) * scale == low + digit * scale + n * (scale * 128)
  {}

  /** bytearray(k), filled by readinto. */
  method LoadBytes(f: Input, k: nat) returns (b: Bytes)
    requires f.Valid()
    modifies f`pos, f`limits
    ensures f.Moved(old(f.pos), old(f.limits))
    ensures (b, f.State()) == Spec.LoadBytes(old(f.State()), k)
  {
    hide Follows;
    b := f.ReadInto(k);
    b := b + Zeros(k - |b|);
  }

  method LoadPacked(f: Input, t: FieldType) returns (r: Result<seq<Value>>)
    requires f.Valid()
    modifies f`pos, f`limits
    ensures f.Valid()
    ensures match Spec.LoadPacked(t, old(f.State()))
            case Ok((vs, end)) => r == Ok(vs) && f.State() == end && f.Moved(old(f.pos), old(f.limits))
            case Err(e) => r == Err(e)
  {
    hide Follows, Spec.FromUvarint, Spec.LoadUvarint, Least;
    var vs: seq<Value> := [];
    ghost var goal := Spec.LoadPacked(t, f.State());
    FollowsNone(f.limits);
    NothingBefore(goal);
    while true
      invariant f.Moved(old(f.pos), old(f.limits)) && goal == Behind(vs, Spec.LoadPacked(t, f.State()))
      decreases |f.data| - f.pos
    {
      ghost var s := f.State();
      ghost var at, here := f.pos, f.limits;
      var n := LoadUvarint(f);
      FollowsTwice(old(f.limits), here, f.limits, at - old(f.pos), f.pos - at);
      if n == Err(EOFError) {
        assert vs + [] == vs;
        return Ok(vs);
      }
      if n.Err? { return Err(n.error); }
      BehindOne(vs, Spec.FromUvarint(t, n.value), Spec.LoadPacked(t, f.State()));
      vs := vs + [Spec.FromUvarint(t, n.value)];
    }
  }

  function Behind(before: seq<Value>, r: Result<(seq<Value>, Spec.Reader)>): Result<(seq<Value>, Spec.Reader)> {
    match r
    case Err(e) => Err(e)
    case Ok((vs, end)) => Ok((before + vs, end))
  }

  lemma BehindOne(before: seq<Value>, v: Value, r: Result<(seq<Value>, Spec.Reader)>)
    ensures Behind(before, Behind([v], r)) == Behind(before + [v], r)
  {
    if r.Ok? { assert before + ([v] + r.value.0) == before + [v] + r.value.0; }
  }

  lemma NothingBefore(r: Result<(seq<Value>, Spec.Reader)>)
    ensures Behind([], r) == r
  {
    if r.Ok? { assert [] + r.value.0 == r.value.0; }
  }

  /** decode_packed_array_field */
  method LoadArray(f: Input, t: FieldType) returns (r: Result<seq<Value>>)
    requires f.Valid()
    modifies f`pos, f`limits
    ensures f.Valid()
    ensures match Spec.LoadArray(t, old(f.State()))
            case Ok((vs, end)) => r == Ok(vs) && f.State() == end && f.Moved(old(f.pos), old(f.limits))
            case Err(e) => r == Err(e)
  {
    hide Follows, Spec.LoadUvarint, Spec.LoadPacked, Spec.Limited, Spec.Within, Spec.Resume, Least;
    var length := LoadUvarint(f);
    if length.Err? { return Err(length.error); }
    ghost var from, before, start := f.pos, f.limits, f.State();
    f.Limit(length.value);
    r := LoadPacked(f, t);
    if r.Err? { return; }
    f.Unlimit(from, before, length.value, start);
    FollowsTwice(old(f.limits), before, f.limits, from - old(f.pos), f.pos - from);
  }

  method Skip(f: Input, wtype: nat) returns (r: Result<()>)
    requires f.Valid()
    modifies f`pos, f`limits
    ensures f.Valid()
    ensures match Spec.Skip(wtype, old(f.State()))
            case Ok(end) => r == Ok(()) && f.State() == end && f.Moved(old(f.pos), old(f.limits))
            case Err(e) => r == Err(e)
  {
    hide Follows, Spec.LoadUvarint, Spec.LoadBytes;
    if wtype == Spec.WIRE_INT {
      var n := LoadUvarint(f);
      return if n.Ok? then Ok(()) else Err(n.error);
    } else if wtype == Spec.WIRE_LENGTH {
      var k := LoadUvarint(f);
      if k.Err? { return Err(k.error); }
      ghost var from, before := f.pos, f.limits;
      var _ := LoadBytes(f, k.value);
      FollowsTwice(old(f.limits), before, f.limits, from - old(f.pos), f.pos - from);
      return Ok(());
    } else {
      return Err(ValueError);
    }
  }

  /** What one key brings. */
  method LoadValues(schema: Schema, f: Input, field: Field, wtype: nat) returns (r: Result<seq<Value>>)
    requires f.Valid()
    modifies f`pos, f`limits
    ensures f.Valid()
    ensures match Spec.LoadValues(schema, field, wtype, old(f.State()))
            case Ok((vs, end)) => r == Ok(vs) && f.State() == end && f.Moved(old(f.pos), old(f.limits))
            case Err(e) => r == Err(e)
    decreases |f.data| - f.pos, 1
  {
    hide Follows, Spec.LoadUvarint, Spec.LoadBytes, Spec.LoadMessage, Spec.LoadArray, Spec.Limited, Spec.FromUvarint;
    var t := field.typ;
    if t.TMessage? && t.name !in schema { return Err(ValueError); }
    if wtype == Spec.WIRE_LENGTH && Spec.WireType(t) == Spec.WIRE_INT && field.repeated {
      r := LoadArray(f, t);
      return;
    }
    if wtype != Spec.WireType(t) { return Err(ValueError); }
    var n := LoadUvarint(f);
    if n.Err? { return Err(n.error); }
    if wtype == Spec.WIRE_INT { return Ok([Spec.FromUvarint(t, n.value)]); }
    ghost var from, before, start := f.pos, f.limits, f.State();
    if t.TMessage? {
      f.Limit(n.value);
      FollowsNone(f.limits);
      var m := LoadMessage(schema, f, t.name);
      if m.Err? { return Err(m.error); }
      f.Unlimit(from, before, n.value, start);
      FollowsTwice(old(f.limits), before, f.limits, from - old(f.pos), f.pos - from);
      return Ok([m.value]);
    }
    var b := LoadBytes(f, n.value);
    FollowsTwice(old(f.limits), before, f.limits, from - old(f.pos), f.pos - from);
    return Ok([Spec.Value.Blob(b)]);
  }

  /** load_message */
  method LoadMessage(schema: Schema, f: Input, name: string) returns (r: Result<Value>)
    requires f.Valid()
    modifies f`pos, f`limits
    ensures f.Valid()
    ensures match Spec.LoadMessage(schema, name, old(f.State()))
            case Ok((m, end)) => r == Ok(m) && f.State() == end && f.Moved(old(f.pos), old(f.limits))
            case Err(e) => r == Err(e)
    decreases |f.data| - f.pos, 2
  {
    hide Follows, Spec.LoadUvarint, Spec.LoadValues, Spec.Skip, Spec.Put, Spec.Find;
    if name !in schema { return Err(ValueError); }
    var fs := schema[name];
    var slots := Spec.Initials(fs);
    ghost var goal := Spec.LoadFields(schema, fs, slots, f.State());
    FollowsNone(f.limits);
    while true
      invariant f.Moved(old(f.pos), old(f.limits)) && |slots| == |fs|
      invariant goal == Spec.LoadFields(schema, fs, slots, f.State())
      decreases |f.data| - f.pos
    {
      ghost var at, here := f.pos, f.limits;
      var key := LoadUvarint(f);
      FollowsTwice(old(f.limits), here, f.limits, at - old(f.pos), f.pos - at);
      if key == Err(EOFError) {
        assert goal == Ok((slots, f.State()));
        break;
      }
      if key.Err? { return Err(key.error); }
      ghost var mid, there := f.pos, f.limits;
      var tag, wtype := key.value / 8, key.value % 8;
      var i := Spec.Find(fs, tag);
      if i == |fs| {
        var skipped := Skip(f, wtype);
        if skipped.Err? { return Err(skipped.error); }
        FollowsTwice(old(f.limits), there, f.limits, mid - old(f.pos), f.pos - mid);
        continue;
      }
      var values := LoadValues(schema, f, fs[i].1, wtype);
      if values.Err? { return Err(values.error); }
      FollowsTwice(old(f.limits), there, f.limits, mid - old(f.pos), f.pos - mid);
      var slot := Spec.Put(fs[i].1, slots[i], values.value);
      if slot.Err? { return Err(slot.error); }
      slots := slots[i := slot.value];
    }
    if Spec.Absent(fs, slots) { return Err(ValueError); }
    return Ok(Spec.Value.Message(name, slots));
  }
}
