/** Byte streams, and the readers of _serialize.py on them. */
module Streams {
  import opened Python
  import opened Serialize

  class BytesIO {
    const data: Bytes
    var pos: nat

    ghost predicate Valid()
      reads this
    {
      pos <= |data|
    }

    /** The bytes not read yet. */
    ghost function Rest(): Bytes
      requires Valid()
      reads this
    {
      data[pos..]
    }

    constructor (data: Bytes)
      ensures Valid() && Rest() == data && this.data == data
    {
      this.data, pos := data, 0;
    }

    /** Up to `n` bytes, fewer at the end of the stream. */
    method Read(n: nat) returns (b: Bytes)
      requires Valid()
      modifies this
      ensures Valid()
      ensures n <= |old(Rest())| ==> b == old(Rest())[..n] && Rest() == old(Rest())[n..]
      ensures n > |old(Rest())| ==> b == old(Rest()) && Rest() == []
    {
      var end := Min(pos + n, |data|);
      b := data[pos..end];
      pos := end;
    }

    /** struct.unpack of a little-endian unsigned integer of `k` bytes. */
    method ReadUint(k: nat) returns (r: Result<nat>)
      requires Valid()
      modifies this
      ensures Valid()
      ensures match ReadLe(old(Rest()), k)
              case Ok((n, rest)) => r == Ok(n) && Rest() == rest
              case Err(e) => r == Err(e) && Rest() == []
    {
      var b := Read(k);
      r := if |b| < k then Err(StructError) else Ok(FromLe(b));
    }

    method DeserCompactSize() returns (r: Result<nat>)
      requires Valid()
      modifies this
      ensures Valid()
      ensures match ReadCompactSize(old(Rest()))
              case Ok((n, rest)) => r == Ok(n) && Rest() == rest
              case Err(e) => r == Err(e) && Rest() == []
    {
      r := ReadUint(1);
      if r.Ok? {
        if r.value == 253 {
          r := ReadUint(2);
        } else if r.value == 254 {
          r := ReadUint(4);
        } else if r.value == 255 {
          r := ReadUint(8);
        }
      }
    }

    method DeserString() returns (r: Result<Bytes>)
      requires Valid()
      modifies this
      ensures Valid()
      ensures match ReadString(old(Rest()))
              case Ok((b, rest)) => r == Ok(b) && Rest() == rest
              case Err(e) => r == Err(e) && Rest() == []
    {
      var n := DeserCompactSize();
      if n.Err? {
        return Err(n.error);
      }
      var b := Read(n.value);
      r := Ok(b);
    }
  }
}
