/** Key-value maps as PSBTs write them: records up to an empty key. */
module KeyValue {
  import opened Python
  import opened Serialize
  import opened Streams

  /** What every PSBT begins with. */
  const PSBT_MAGIC: Bytes := [0x70, 0x73, 0x62, 0x74, 0xff]

  type Record = (Bytes, Bytes)

  predicate RecordsOk(rs: seq<Record>) {
    forall i :: 0 <= i < |rs| ==> 0 < |rs[i].0| < U64 && |rs[i].1| < U64
  }

  function SerRecord(r: Record): Bytes
    requires |r.0| < U64 && |r.1| < U64
  {
    SerString(r.0) + SerString(r.1)
  }

  function SerRecords(rs: seq<Record>): Bytes
    requires RecordsOk(rs)
  {
    if rs == [] then [] else SerRecord(rs[0]) + SerRecords(rs[1..])
  }

  lemma ReadStringBound(s: Bytes)
    ensures ReadString(s).Ok? ==> |ReadString(s).value.1| < |s| && |ReadString(s).value.0| < U64
  {
    ReadCompactSizeBound(s);
  }

  /** The records up to the separator, or up to a key that cannot be read. */
  function ReadRecords(s: Bytes): Result<(seq<Record>, Bytes)>
    decreases |s|
  {
    ReadStringBound(s);
    match ReadString(s)
    case Err(_) => Ok(([], []))
    case Ok((key, s1)) =>
      if key == [] then Ok(([], s1))
      else
        ReadStringBound(s1);
        var (value, s2) :- ReadString(s1);
        var (more, rest) :- ReadRecords(s2);
        Ok(([(key, value)] + more, rest))
  }

  /** Written records and a separator are read back, and the reader stops right behind the separator. */
  lemma {:induction false} RecordsRoundTrip(rs: seq<Record>, rest: Bytes)
    requires RecordsOk(rs)
    ensures ReadRecords(SerRecords(rs) + [0] + rest) == Ok((rs, rest))
    decreases |rs|
  {
    if rs == [] {
      assert SerRecords(rs) + [0] + rest == SerString([]) + rest;
      StringRoundTrip([], rest);
    } else {
      var (key, value) := rs[0];
      var tail := SerRecords(rs[1..]) + [0] + rest;
      assert SerRecords(rs) + [0] + rest == SerString(key) + (SerString(value) + tail);
      StringRoundTrip(key, SerString(value) + tail);
      StringRoundTrip(value, tail);
      RecordsRoundTrip(rs[1..], rest);
      assert rs == [rs[0]] + rs[1..];
    }
  }

  /** Later records replace earlier ones with the same key. */
  function ToMap(rs: seq<Record>): map<Bytes, Bytes> {
    if rs == [] then map[] else ToMap(rs[..|rs| - 1])[rs[|rs| - 1].0 := rs[|rs| - 1].1]
  }

  function StreamToMap(s: Bytes): Result<(map<Bytes, Bytes>, Bytes)> {
    var (rs, rest) :- ReadRecords(s);
    Ok((ToMap(rs), rest))
  }

  /** parse_stream_to_map. */
  method ParseStreamToMap(f: BytesIO) returns (r: Result<map<Bytes, Bytes>>)
    requires f.Valid()
    modifies f
    ensures f.Valid()
    ensures match StreamToMap(old(f.Rest()))
            case Ok((m, rest)) => r == Ok(m) && f.Rest() == rest
            case Err(e) => r == Err(e)
  {
    var result := map[];
    ghost var done: seq<Record> := [];
    ghost var all := ReadRecords(f.Rest());
    assert all.Ok? ==> done + all.value.0 == all.value.0;
    while true
      invariant f.Valid() && result == ToMap(done)
      invariant match ReadRecords(f.Rest())
                case Ok((rs, rest)) => ReadRecords(old(f.Rest())) == Ok((done + rs, rest))
                case Err(e) => ReadRecords(old(f.Rest())) == Err(e)
      decreases |f.Rest()|
    {
      ghost var s := f.Rest();
      ReadStringBound(s);
      var key := f.DeserString();
      if key.Err? {
        break;
      }
      if |key.value| == 0 {
        break;
      }
      ReadStringBound(f.Rest());
      var value := f.DeserString();
      if value.Err? {
        return Err(value.error);
      }
      result := result[key.value := value.value];
      AppendRecord(s, done, (key.value, value.value), f.Rest());
      done := done + [(key.value, value.value)];
    }
    assert done + [] == done;
    r := Ok(result);
  }

  lemma AppendRecord(s: Bytes, done: seq<Record>, x: Record, s2: Bytes)
    ensures ToMap(done + [x]) == ToMap(done)[x.0 := x.1]
    ensures forall rs :: done + ([x] + rs) == (done + [x]) + rs
  {
    assert (done + [x])[..|done|] == done;
  }
}
