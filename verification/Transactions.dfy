/** CTransaction: an object whose fields are read from a stream, serialized and hashed. */
module Transactions {
  import opened Python
  import opened Serialize
  import opened Streams
  import opened TxSpec

  // ------------------------------------------------------------ readers on streams

  /** deser_uint256, eight words of 32 bits. */
  method DeserUint256(f: BytesIO) returns (r: Result<nat>)
    requires f.Valid()
    modifies f
    ensures f.Valid()
    ensures match ReadLe(old(f.Rest()), U256_BYTES)
            case Ok((n, rest)) => r == Ok(n) && f.Rest() == rest
            case Err(e) => r == Err(e)
  {
    ghost var start := f.Rest();
    var n := 0;
    for i := 0 to 8
      invariant f.Valid() && 4 * i <= |start|
      invariant f.Rest() == start[4 * i..] && n == FromLe(start[..4 * i])
    {
      ghost var before := f.Rest();
      var t := f.ReadUint(4);
      if t.Err? {
        return Err(t.error);
      }
      assert before[..4] == start[4 * i..4 * (i + 1)] && before[4..] == start[4 * (i + 1)..];
      FromLeWords(start[..4 * i], before[..4]);
      assert start[..4 * (i + 1)] == start[..4 * i] + before[..4];
      n := n + t.value * Pow256(4 * i);
    }
    return Ok(n);
  }

  lemma {:induction false} FromLeWords(a: Bytes, b: Bytes)
    ensures FromLe(a + b) == FromLe(a) + FromLe(b) * Pow256(|a|)
    decreases |a|
  {
    if a == [] {
      assert a + b == b;
    } else {
      assert (a + b)[1..] == a[1..] + b;
      FromLeWords(a[1..], b);
      Scale(FromLe(b), Pow256(|a| - 1));
    }
  }

  lemma Scale(x: nat, p: nat)
    ensures 256 * (x * p) == x * (256 * p)
  {}

  method DeserIn(f: BytesIO) returns (r: Result<TxIn>)
    requires f.Valid()
    modifies f
    ensures f.Valid()
    ensures match ReadIn(old(f.Rest()))
            case Ok((x, rest)) => r == Ok(x) && f.Rest() == rest
            case Err(e) => r == Err(e)
  {
    var hash := DeserUint256(f);
    if hash.Err? { return Err(hash.error); }
    var n := f.ReadUint(4);
    if n.Err? { return Err(n.error); }
    var scriptSig := f.DeserString();
    if scriptSig.Err? { return Err(scriptSig.error); }
    var nSequence := f.ReadUint(4);
    if nSequence.Err? { return Err(nSequence.error); }
    return Ok(TxIn(OutPoint(hash.value, n.value), scriptSig.value, nSequence.value));
  }

  method DeserOut(f: BytesIO) returns (r: Result<TxOut>)
    requires f.Valid()
    modifies f
    ensures f.Valid()
    ensures match ReadOut(old(f.Rest()))
            case Ok((x, rest)) => r == Ok(x) && f.Rest() == rest
            case Err(e) => r == Err(e)
  {
    var nValue := f.ReadUint(8);
    if nValue.Err? { return Err(nValue.error); }
    var scriptPubKey := f.DeserString();
    if scriptPubKey.Err? { return Err(scriptPubKey.error); }
    return Ok(TxOut(Signed(nValue.value, 8), scriptPubKey.value));
  }

  /** What is read later goes behind what was read before. */
  function Later<T>(before: seq<T>, r: Result<(seq<T>, Bytes)>): Result<(seq<T>, Bytes)> {
    var (more, rest) :- r;
    Ok((before + more, rest))
  }

  lemma LaterNothing<T>(r: Result<(seq<T>, Bytes)>)
    ensures Later([], r) == r
  {
    if r.Ok? { assert [] + r.value.0 == r.value.0; }
  }

  /** One element of the loop in deser_vector. */
  lemma ReadOneMore<T>(read: Reader<T>, before: seq<T>, n: nat, s: Bytes)
    requires n > 0
    ensures read(s).Ok? ==>
              Later(before, ReadAll(read, n, s)) == Later(before + [read(s).value.0], ReadAll(read, n - 1, read(s).value.1))
    ensures read(s).Err? ==> Later(before, ReadAll(read, n, s)) == Err(read(s).error)
  {
    if read(s).Ok? {
      var (x, rest) := read(s).value;
      var r := ReadAll(read, n - 1, rest);
      if r.Ok? { assert before + ([x] + r.value.0) == before + [x] + r.value.0; }
    }
  }

  method DeserIns(f: BytesIO) returns (r: Result<seq<TxIn>>)
    requires f.Valid()
    modifies f
    ensures f.Valid()
    ensures match ReadVector(ReadIn, old(f.Rest()))
            case Ok((xs, rest)) => r == Ok(xs) && f.Rest() == rest
            case Err(e) => r == Err(e)
  {
    hide ReadIn, ReadAll;
    ghost var start := f.Rest();
    var nit := f.DeserCompactSize();
    if nit.Err? { return Err(nit.error); }
    ghost var all := ReadVector(ReadIn, start);
    var xs: seq<TxIn> := [];
    LaterNothing(all);
    for i := 0 to nit.value
      invariant f.Valid() && all == Later(xs, ReadAll(ReadIn, nit.value - i, f.Rest()))
    {
      ReadOneMore(ReadIn, xs, nit.value - i, f.Rest());
      var x := DeserIn(f);
      if x.Err? { return Err(x.error); }
      xs := xs + [x.value];
    }
    ReadNone(ReadIn, f.Rest());
    assert xs + [] == xs;
    return Ok(xs);
  }

  lemma ReadNone<T>(read: Reader<T>, s: Bytes)
    ensures ReadAll(read, 0, s) == Ok(([], s))
  {}

  method DeserOuts(f: BytesIO) returns (r: Result<seq<TxOut>>)
    requires f.Valid()
    modifies f
    ensures f.Valid()
    ensures match ReadVector(ReadOut, old(f.Rest()))
            case Ok((xs, rest)) => r == Ok(xs) && f.Rest() == rest
            case Err(e) => r == Err(e)
  {
    hide ReadOut, ReadAll;
    ghost var start := f.Rest();
    var nit := f.DeserCompactSize();
    if nit.Err? { return Err(nit.error); }
    ghost var all := ReadVector(ReadOut, start);
    var xs: seq<TxOut> := [];
    LaterNothing(all);
    for i := 0 to nit.value
      invariant f.Valid() && all == Later(xs, ReadAll(ReadOut, nit.value - i, f.Rest()))
    {
      ReadOneMore(ReadOut, xs, nit.value - i, f.Rest());
      var x := DeserOut(f);
      if x.Err? { return Err(x.error); }
      xs := xs + [x.value];
    }
    ReadNone(ReadOut, f.Rest());
    assert xs + [] == xs;
    return Ok(xs);
  }

  /** deser_string_vector */
  method DeserStack(f: BytesIO) returns (r: Result<Stack>)
    requires f.Valid()
    modifies f
    ensures f.Valid()
    ensures match ReadStack(old(f.Rest()))
            case Ok((xs, rest)) => r == Ok(xs) && f.Rest() == rest
            case Err(e) => r == Err(e)
  {
    hide ReadString, ReadAll;
    ghost var start := f.Rest();
    var nit := f.DeserCompactSize();
    if nit.Err? { return Err(nit.error); }
    ghost var all := ReadStack(start);
    var xs: Stack := [];
    LaterNothing(all);
    for i := 0 to nit.value
      invariant f.Valid() && all == Later(xs, ReadAll(ReadString, nit.value - i, f.Rest()))
    {
      ReadOneMore(ReadString, xs, nit.value - i, f.Rest());
      var x := f.DeserString();
      if x.Err? { return Err(x.error); }
      xs := xs + [x.value];
    }
    ReadNone(ReadString, f.Rest());
    assert xs + [] == xs;
    return Ok(xs);
  }

  /** CTxWitness.deserialize: one stack for each input. */
  method DeserWitness(f: BytesIO, n: nat) returns (r: Result<seq<Stack>>)
    requires f.Valid()
    modifies f
    ensures f.Valid()
    ensures match ReadAll(ReadStack, n, old(f.Rest()))
            case Ok((xs, rest)) => r == Ok(xs) && f.Rest() == rest
            case Err(e) => r == Err(e)
  {
    hide ReadStack, ReadAll;
    ghost var all := ReadAll(ReadStack, n, f.Rest());
    var xs: seq<Stack> := [];
    LaterNothing(all);
    for i := 0 to n
      invariant f.Valid() && all == Later(xs, ReadAll(ReadStack, n - i, f.Rest()))
    {
      ReadOneMore(ReadStack, xs, n - i, f.Rest());
      var x := DeserStack(f);
      if x.Err? { return Err(x.error); }
      xs := xs + [x.value];
    }
    ReadNone(ReadStack, f.Rest());
    assert xs + [] == xs;
    return Ok(xs);
  }

  // ------------------------------------------------------------ the object

  class CTransaction {
    var nVersion: int
    var vin: seq<TxIn>
    var vout: seq<TxOut>
    var wit: seq<Stack>
    var nLockTime: nat
    /** The cached transaction id, as a number and as bytes. */
    var sha256: Option<nat>
    var hash: Option<Digest>

    /** The value of the object, without the caches. */
    function Value(): Tx
      reads this
    {
      Tx(nVersion, vin, vout, wit, nLockTime)
    }

    constructor ()
      ensures Value() == EMPTY && sha256 == None && hash == None
    {
      nVersion, vin, vout, wit, nLockTime := 1, [], [], [], 0;
      sha256, hash := None, None;
    }

    /** The outputs, when there were inputs; the witness form, or nothing, when there were none. */
    method DeserializeBody(f: BytesIO, ghost old0: Tx) returns (r: Result<()>)
      requires f.Valid() && vout == old0.vout && wit == old0.wit
      modifies `vin, `vout, `wit, `nLockTime, f
      ensures f.Valid()
      ensures match (if old(vin) != [] then ReadPlainTail(nVersion, old(vin), old0.wit, old(f.Rest()))
                     else ReadNoInputs(old0, nVersion, old(f.Rest())))
              case Ok((tx, rest)) => r == Ok(()) && Value() == tx && f.Rest() == rest
              case Err(e) => r == Err(e)
    {
      hide ReadIn, ReadOut, ReadStack, ReadAll, ReadVector;
      var flags: nat := 0;
      if |vin| == 0 {
        var flag := f.ReadUint(1);
        if flag.Err? { return Err(flag.error); }
        flags := flag.value;
        if flags != 0 {
          var ins := DeserIns(f);
          if ins.Err? { return Err(ins.error); }
          vin := ins.value;
          var outs := DeserOuts(f);
          if outs.Err? { return Err(outs.error); }
          vout := outs.value;
        }
      } else {
        var outs := DeserOuts(f);
        if outs.Err? { return Err(outs.error); }
        vout := outs.value;
      }
      if flags != 0 {
        var stacks := DeserWitness(f, |vin|);
        if stacks.Err? { return Err(stacks.error); }
        wit := stacks.value;
      }
      var lock := f.ReadUint(4);
      if lock.Err? { return Err(lock.error); }
      nLockTime := lock.value;
      return Ok(());
    }

    method Deserialize(f: BytesIO) returns (r: Result<()>)
      requires f.Valid()
      modifies this, f
      ensures f.Valid()
      ensures match ReadTx(old(Value()), old(f.Rest()))
              case Ok((tx, rest)) => r == Ok(()) && Value() == tx && f.Rest() == rest && sha256 == None && hash == None
              case Err(e) => r == Err(e)
    {
      hide ReadVector, ReadPlainTail, ReadNoInputs;
      ghost var before := Value();
      var version := f.ReadUint(4);
      if version.Err? { return Err(version.error); }
      nVersion := Signed(version.value, 4);
      var ins := DeserIns(f);
      if ins.Err? { return Err(ins.error); }
      vin := ins.value;
      r := DeserializeBody(f, before);
      if r.Ok? {
        sha256, hash := None, None;
      }
    }

    method DeserializeWithoutWitness(f: BytesIO) returns (r: Result<()>)
      requires f.Valid()
      modifies this, f
      ensures f.Valid()
      ensures match ReadPlain(old(f.Rest()))
              case Ok((tx, rest)) => r == Ok(()) && Value() == tx && f.Rest() == rest && sha256 == None && hash == None
              case Err(e) => r == Err(e)
    {
      hide ReadIn, ReadOut, ReadAll;
      var version := f.ReadUint(4);
      if version.Err? { return Err(version.error); }
      nVersion := Signed(version.value, 4);
      var ins := DeserIns(f);
      if ins.Err? { return Err(ins.error); }
      vin := ins.value;
      var outs := DeserOuts(f);
      if outs.Err? { return Err(outs.error); }
      vout := outs.value;
      wit := [];
      var lock := f.ReadUint(4);
      if lock.Err? { return Err(lock.error); }
      nLockTime, sha256, hash := lock.value, None, None;
      return Ok(());
    }

    method SerializeWithoutWitness() returns (r: Bytes)
      requires TxFits(Value())
      ensures r == SerPlain(Value())
    {
      r := SignedLe(nVersion, 4);
      r := r + SerVector(SerIn, vin);
      r := r + SerVector(SerOut, vout);
      r := r + Le(nLockTime, 4);
      PlainShape(SignedLe(nVersion, 4), SerVector(SerIn, vin), SerVector(SerOut, vout), Le(nLockTime, 4));
    }

    method NullWitness() returns (r: bool)
      ensures r == !HasWitness(Value())
    {
      for i := 0 to |wit|
        invariant forall j :: 0 <= j < i ==> wit[j] == []
      {
        if wit[i] != [] {
          return false;
        }
      }
      return true;
    }

    /** Brings the witness list to the number of inputs when there is a witness to write. */
    method SerializeWithWitness() returns (r: Bytes)
      requires TxFits(Value())
      modifies this`wit
      ensures r == SerWithWitness(old(Value()))
      ensures Value() == if HasWitness(old(Value())) then Normal(old(Value())) else old(Value())
    {
      hide SerAll, SerVector;
      ghost var before := Value();
      var nothing := NullWitness();
      r := SignedLe(nVersion, 4);
      if !nothing {
        r := r + [0, 1];
      }
      r := r + SerVector(SerIn, vin);
      r := r + SerVector(SerOut, vout);
      if !nothing {
        ResizedFits(before);
        if |wit| != |vin| {
          wit := Resized(wit, |vin|);
        } else {
          assert wit == Resized(wit, |vin|);
        }
        r := r + SerAll(SerStack, wit);
        WitnessFormShape(SignedLe(nVersion, 4), SerVector(SerIn, vin), SerVector(SerOut, vout), SerAll(SerStack, wit),
                         Le(nLockTime, 4));
      } else {
        PlainShape(SignedLe(nVersion, 4), SerVector(SerIn, vin), SerVector(SerOut, vout), Le(nLockTime, 4));
      }
      r := r + Le(nLockTime, 4);
    }

    /** Without the witness the id is cached; with it, a number is returned and nothing is cached. */
    method CalcSha256(withWitness: bool, hash256: Hash) returns (r: Option<nat>)
      requires TxFits(Value())
      modifies this
      ensures withWitness ==>
                && r == Some(FromLe(hash256(SerWithWitness(old(Value())))))
                && sha256 == old(sha256) && hash == old(hash)
                && Value() == if HasWitness(old(Value())) then Normal(old(Value())) else old(Value())
      ensures !withWitness ==>
                && r == None && Value() == old(Value())
                && sha256 == (if old(sha256) == None then Some(Txid(Value(), hash256)) else old(sha256))
                && hash == Some(hash256(SerPlain(Value())))
    {
      if withWitness {
        var bytes := SerializeWithWitness();
        return Some(FromLe(hash256(bytes)));
      }
      if sha256 == None {
        var bytes := SerializeWithoutWitness();
        sha256 := Some(FromLe(hash256(bytes)));
      }
      var bytes := SerializeWithoutWitness();
      hash := Some(hash256(bytes));
      return None;
    }

    /** The cache agrees with the fields, whatever was cached before. */
    method Rehash(hash256: Hash)
      requires TxFits(Value())
      modifies this
      ensures Value() == old(Value())
      ensures sha256 == Some(Txid(Value(), hash256)) && hash == Some(hash256(SerPlain(Value())))
    {
      sha256 := None;
      var _ := CalcSha256(false, hash256);
    }
  }

  lemma PlainShape(v: Bytes, ins: Bytes, outs: Bytes, lock: Bytes)
    ensures v + ins + outs + lock == v + (ins + (outs + lock))
  {}

  lemma WitnessFormShape(v: Bytes, ins: Bytes, outs: Bytes, wit: Bytes, lock: Bytes)
    ensures v + [0, 1] + ins + outs + wit + lock == v + ([0, 1] + (ins + (outs + (wit + lock))))
  {}
}
