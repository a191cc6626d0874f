/** Transactions as values, their two serializations and the parser (BIP 144). */
module TxSpec {
  import opened Python
  import opened Sequences
  import opened Serialize
  import opened Bits

  datatype OutPoint = OutPoint(hash: nat, n: nat)

  datatype TxIn = TxIn(prevout: OutPoint, scriptSig: Bytes, nSequence: nat)

  datatype TxOut = TxOut(nValue: int, scriptPubKey: Bytes)

  type Stack = seq<Bytes>

  /** `wit` has one witness stack for each input, when the code has made it so. */
  datatype Tx = Tx(nVersion: int, vin: seq<TxIn>, vout: seq<TxOut>, wit: seq<Stack>, nLockTime: nat)

  /** What CTransaction() starts with. */
  const EMPTY := Tx(1, [], [], [], 0)

  // ------------------------------------------------------------ numbers and vectors

  /** struct.pack of a signed integer of `k` bytes. */
  function SignedLe(n: int, k: nat): (b: Bytes)
    ensures |b| == k
  {
    Le(n % Pow256(k), k)
  }

  predicate FitsSigned(n: int, k: nat) {
    0 <= 2 * n + Pow256(k) && 2 * n < Pow256(k)
  }

  function Signed(n: nat, k: nat): int {
    if 2 * n < Pow256(k) then n else n - Pow256(k)
  }

  function ReadSigned(s: Bytes, k: nat): Result<(int, Bytes)> {
    var (n, rest) :- ReadLe(s, k);
    Ok((Signed(n, k), rest))
  }

  lemma SignedRoundTrip(n: int, k: nat, rest: Bytes)
    requires FitsSigned(n, k)
    ensures ReadSigned(SignedLe(n, k) + rest, k) == Ok((n, rest))
  {
    var p := Pow256(k);
    assert n % p == if n < 0 then n + p else n by { ModSigned(n, p); }
    ReadLeRoundTrip(n % p, k, rest);
  }

  lemma ModSigned(n: int, p: nat)
    requires p >= 1 && 0 <= 2 * n + p && 2 * n < p
    ensures n % p == if n < 0 then n + p else n
  {
    if n < 0 {
      ModUnique(n, p, -1, n + p);
    } else {
      ModUnique(n, p, 0, n);
    }
  }

  /** The elements of a vector one after the other. */
  function SerAll<T>(ser: T --> Bytes, xs: seq<T>): Bytes
    requires forall i :: 0 <= i < |xs| ==> ser.requires(xs[i])
  {
    if xs == [] then [] else ser(xs[0]) + SerAll(ser, xs[1..])
  }

  /** ser_vector, ser_string_vector */
  function SerVector<T>(ser: T --> Bytes, xs: seq<T>): Bytes
    requires |xs| < U64 && forall i :: 0 <= i < |xs| ==> ser.requires(xs[i])
  {
    CompactSize(|xs|) + SerAll(ser, xs)
  }

  type Reader<T> = Bytes -> Result<(T, Bytes)>

  function ReadAll<T>(read: Reader<T>, n: nat, s: Bytes): Result<(seq<T>, Bytes)>
    decreases n
  {
    if n == 0 then Ok(([], s))
    else
      var (x, rest) :- read(s);
      var (more, last) :- ReadAll(read, n - 1, rest);
      Ok(([x] + more, last))
  }

  /** deser_vector, deser_string_vector */
  function ReadVector<T>(read: Reader<T>, s: Bytes): Result<(seq<T>, Bytes)> {
    var (n, rest) :- ReadCompactSize(s);
    ReadAll(read, n, rest)
  }

  /** Reading undoes writing for one element, whatever follows it. */
  ghost predicate Undoes<T(!new)>(ser: T --> Bytes, read: Reader<T>, x: T)
    requires ser.requires(x)
  {
    forall rest: Bytes :: read(ser(x) + rest) == Ok((x, rest))
  }

  lemma {:induction false} AllRoundTrip<T(!new)>(ser: T --> Bytes, read: Reader<T>, xs: seq<T>, rest: Bytes)
    requires forall i :: 0 <= i < |xs| ==> ser.requires(xs[i]) && Undoes(ser, read, xs[i])
    ensures ReadAll(read, |xs|, SerAll(ser, xs) + rest) == Ok((xs, rest))
    decreases |xs|
  {
    if xs == [] {
      assert SerAll(ser, xs) + rest == rest;
    } else {
      var more := SerAll(ser, xs[1..]);
      Associate(ser(xs[0]), more, rest);
      assert Undoes(ser, read, xs[0]);
      assert read(ser(xs[0]) + (more + rest)) == Ok((xs[0], more + rest));
      AllRoundTrip(ser, read, xs[1..], rest);
      assert xs == [xs[0]] + xs[1..];
    }
  }

  /** A vector reads back exactly if its elements do. */
  lemma VectorRoundTrip<T(!new)>(ser: T --> Bytes, read: Reader<T>, xs: seq<T>, rest: Bytes)
    requires |xs| < U64 && forall i :: 0 <= i < |xs| ==> ser.requires(xs[i]) && Undoes(ser, read, xs[i])
    ensures ReadVector(read, SerVector(ser, xs) + rest) == Ok((xs, rest))
  {
    Associate(CompactSize(|xs|), SerAll(ser, xs), rest);
    CompactSizeRoundTrip(|xs|, SerAll(ser, xs) + rest);
    AllRoundTrip(ser, read, xs, rest);
  }

  // ------------------------------------------------------------ inputs, outputs, witnesses

  const U256_BYTES: nat := 32

  predicate InFits(x: TxIn) {
    x.prevout.hash < Pow256(U256_BYTES) && x.prevout.n < U32 && |x.scriptSig| < U64 && x.nSequence < U32
  }

  predicate OutFits(x: TxOut) {
    FitsSigned(x.nValue, 8) && |x.scriptPubKey| < U64
  }

  predicate StackFits(x: Stack) {
    |x| < U64 && forall i :: 0 <= i < |x| ==> |x[i]| < U64
  }

  function SerIn(x: TxIn): Bytes
    requires InFits(x)
  {
    Le(x.prevout.hash, U256_BYTES) + Le(x.prevout.n, 4) + SerString(x.scriptSig) + Le(x.nSequence, 4)
  }

  function ReadIn(s: Bytes): Result<(TxIn, Bytes)> {
    var (hash, s) :- ReadLe(s, U256_BYTES);
    var (n, s) :- ReadLe(s, 4);
    var (scriptSig, s) :- ReadString(s);
    var (nSequence, s) :- ReadLe(s, 4);
    Ok((TxIn(OutPoint(hash, n), scriptSig, nSequence), s))
  }

  function SerOut(x: TxOut): Bytes
    requires OutFits(x)
  {
    SignedLe(x.nValue, 8) + SerString(x.scriptPubKey)
  }

  function ReadOut(s: Bytes): Result<(TxOut, Bytes)> {
    var (nValue, s) :- ReadSigned(s, 8);
    var (scriptPubKey, s) :- ReadString(s);
    Ok((TxOut(nValue, scriptPubKey), s))
  }

  function SerItem(b: Bytes): Bytes
    requires |b| < U64
  {
    SerString(b)
  }

  function SerStack(x: Stack): Bytes
    requires StackFits(x)
  {
    SerVector(SerItem, x)
  }

  function ReadStack(s: Bytes): Result<(Stack, Bytes)> {
    ReadVector(ReadString, s)
  }

  lemma InRoundTrip(x: TxIn, rest: Bytes)
    requires InFits(x)
    ensures ReadIn(SerIn(x) + rest) == Ok((x, rest))
  {
    hide ReadLe, ReadString, SerString, Le;
    Widths();
    var s3 := Le(x.nSequence, 4) + rest;
    var s2 := SerString(x.scriptSig) + s3;
    var s1 := Le(x.prevout.n, 4) + s2;
    assert SerIn(x) + rest == Le(x.prevout.hash, U256_BYTES) + s1;
    ReadLeRoundTrip(x.prevout.hash, U256_BYTES, s1);
    ReadLeRoundTrip(x.prevout.n, 4, s2);
    StringRoundTrip(x.scriptSig, s3);
    ReadLeRoundTrip(x.nSequence, 4, rest);
  }

  lemma OutRoundTrip(x: TxOut, rest: Bytes)
    requires OutFits(x)
    ensures ReadOut(SerOut(x) + rest) == Ok((x, rest))
  {
    hide ReadSigned, ReadString, SerString, SignedLe, FitsSigned;
    Associate(SignedLe(x.nValue, 8), SerString(x.scriptPubKey), rest);
    SignedRoundTrip(x.nValue, 8, SerString(x.scriptPubKey) + rest);
    StringRoundTrip(x.scriptPubKey, rest);
  }

  lemma StackRoundTrip(x: Stack, rest: Bytes)
    requires StackFits(x)
    ensures ReadStack(SerStack(x) + rest) == Ok((x, rest))
  {
    hide ReadString, SerString;
    forall i | 0 <= i < |x| ensures Undoes(SerItem, ReadString, x[i]) {
      forall r: Bytes ensures ReadString(SerItem(x[i]) + r) == Ok((x[i], r)) {
        StringRoundTrip(x[i], r);
      }
    }
    VectorRoundTrip(SerItem, ReadString, x, rest);
  }

  // ------------------------------------------------------------ transactions

  /** Field widths that struct.pack demands, and lists that have a compact size. */
  predicate TxFits(tx: Tx) {
    && FitsSigned(tx.nVersion, 4) && tx.nLockTime < U32
    && |tx.vin| < U64 && (forall i :: 0 <= i < |tx.vin| ==> InFits(tx.vin[i]))
    && |tx.vout| < U64 && (forall i :: 0 <= i < |tx.vout| ==> OutFits(tx.vout[i]))
    && (forall i :: 0 <= i < |tx.wit| ==> StackFits(tx.wit[i]))
  }

  /** serialize_without_witness */
  function SerPlain(tx: Tx): Bytes
    requires TxFits(tx)
  {
    SignedLe(tx.nVersion, 4) + (SerVector(SerIn, tx.vin) + (SerVector(SerOut, tx.vout) + Le(tx.nLockTime, 4)))
  }

  /** Some input has a witness. */
  predicate HasWitness(tx: Tx) {
    exists i :: 0 <= i < |tx.wit| && tx.wit[i] != []
  }

  /** As many stacks as inputs: cut off, or filled up with empty ones. */
  function Resized(wit: seq<Stack>, n: nat): (r: seq<Stack>)
    ensures |r| == n
    ensures forall i :: 0 <= i < n ==> r[i] == if i < |wit| then wit[i] else []
    decreases n - |wit|
  {
    if |wit| >= n then wit[..n] else Resized(wit + [[]], n)
  }

  lemma ResizedFits(tx: Tx)
    requires TxFits(tx)
    ensures forall i :: 0 <= i < |tx.vin| ==> StackFits(Resized(tx.wit, |tx.vin|)[i])
  {
    assert StackFits([]);
  }

  /** serialize_with_witness: without any witness it is the plain form. */
  function SerWithWitness(tx: Tx): Bytes
    requires TxFits(tx)
  {
    ResizedFits(tx);
    if HasWitness(tx) then
      SignedLe(tx.nVersion, 4) + ([0, 1] + (SerVector(SerIn, tx.vin) + (SerVector(SerOut, tx.vout)
        + (SerAll(SerStack, Resized(tx.wit, |tx.vin|)) + Le(tx.nLockTime, 4)))))
    else
      SerPlain(tx)
  }

  /** What comes behind the inputs when there is no witness. */
  function ReadPlainTail(nVersion: int, vin: seq<TxIn>, wit: seq<Stack>, s: Bytes): Result<(Tx, Bytes)> {
    var (vout, s) :- ReadVector(ReadOut, s);
    var (nLockTime, s) :- ReadLe(s, 4);
    Ok((Tx(nVersion, vin, vout, wit, nLockTime), s))
  }

  /** Inputs, outputs and witnesses behind the marker and flag. */
  function ReadWitnessTail(nVersion: int, s: Bytes): Result<(Tx, Bytes)> {
    var (vin, s) :- ReadVector(ReadIn, s);
    var (vout, s) :- ReadVector(ReadOut, s);
    var (wit, s) :- ReadAll(ReadStack, |vin|, s);
    var (nLockTime, s) :- ReadLe(s, 4);
    Ok((Tx(nVersion, vin, vout, wit, nLockTime), s))
  }

  /** Behind an empty input list: a flag, and with it the witness form, without it nothing but the lock time. */
  function ReadNoInputs(old0: Tx, nVersion: int, s: Bytes): Result<(Tx, Bytes)> {
    var (flags, s) :- ReadLe(s, 1);
    if flags != 0 then ReadWitnessTail(nVersion, s)
    else
      var (nLockTime, s) :- ReadLe(s, 4);
      Ok((Tx(nVersion, [], old0.vout, old0.wit, nLockTime), s))
  }

  /** deserialize on an object with the value `old0`: outputs and witnesses it does not read stay as they were. */
  function ReadTx(old0: Tx, s: Bytes): Result<(Tx, Bytes)> {
    var (nVersion, s) :- ReadSigned(s, 4);
    var (vin, s) :- ReadVector(ReadIn, s);
    if vin != [] then ReadPlainTail(nVersion, vin, old0.wit, s) else ReadNoInputs(old0, nVersion, s)
  }

  /** deserialize_without_witness */
  function ReadPlain(s: Bytes): Result<(Tx, Bytes)> {
    var (nVersion, s) :- ReadSigned(s, 4);
    var (vin, s) :- ReadVector(ReadIn, s);
    ReadPlainTail(nVersion, vin, [], s)
  }

  // ------------------------------------------------------------ round trips

  lemma VinRoundTrip(xs: seq<TxIn>, rest: Bytes)
    requires |xs| < U64 && forall i :: 0 <= i < |xs| ==> InFits(xs[i])
    ensures ReadVector(ReadIn, SerVector(SerIn, xs) + rest) == Ok((xs, rest))
  {
    hide ReadIn, SerIn, InFits;
    forall i | 0 <= i < |xs| ensures Undoes(SerIn, ReadIn, xs[i]) {
      forall r: Bytes ensures ReadIn(SerIn(xs[i]) + r) == Ok((xs[i], r)) {
        InRoundTrip(xs[i], r);
      }
    }
    VectorRoundTrip(SerIn, ReadIn, xs, rest);
  }

  lemma VoutRoundTrip(xs: seq<TxOut>, rest: Bytes)
    requires |xs| < U64 && forall i :: 0 <= i < |xs| ==> OutFits(xs[i])
    ensures ReadVector(ReadOut, SerVector(SerOut, xs) + rest) == Ok((xs, rest))
  {
    hide ReadOut, SerOut, OutFits;
    forall i | 0 <= i < |xs| ensures Undoes(SerOut, ReadOut, xs[i]) {
      forall r: Bytes ensures ReadOut(SerOut(xs[i]) + r) == Ok((xs[i], r)) {
        OutRoundTrip(xs[i], r);
      }
    }
    VectorRoundTrip(SerOut, ReadOut, xs, rest);
  }

  lemma WitRoundTrip(xs: seq<Stack>, rest: Bytes)
    requires forall i :: 0 <= i < |xs| ==> StackFits(xs[i])
    ensures ReadAll(ReadStack, |xs|, SerAll(SerStack, xs) + rest) == Ok((xs, rest))
  {
    hide ReadStack, SerStack, StackFits;
    forall i | 0 <= i < |xs| ensures Undoes(SerStack, ReadStack, xs[i]) {
      forall r: Bytes ensures ReadStack(SerStack(xs[i]) + r) == Ok((xs[i], r)) {
        StackRoundTrip(xs[i], r);
      }
    }
    AllRoundTrip(SerStack, ReadStack, xs, rest);
  }

  lemma PlainTailRoundTrip(tx: Tx, wit: seq<Stack>, rest: Bytes)
    requires TxFits(tx)
    ensures ReadPlainTail(tx.nVersion, tx.vin, wit, SerVector(SerOut, tx.vout) + Le(tx.nLockTime, 4) + rest)
         == Ok((tx.(wit := wit), rest))
  {
    hide ReadVector, SerVector, ReadLe, Le;
    Widths();
    Associate(SerVector(SerOut, tx.vout), Le(tx.nLockTime, 4), rest);
    VoutRoundTrip(tx.vout, Le(tx.nLockTime, 4) + rest);
    ReadLeRoundTrip(tx.nLockTime, 4, rest);
  }

  /** The plain form reads back, whatever follows it, up to the witnesses it leaves out. */
  lemma PlainRoundTrip(tx: Tx, rest: Bytes)
    requires TxFits(tx)
    ensures ReadPlain(SerPlain(tx) + rest) == Ok((tx.(wit := []), rest))
    ensures tx.vin != [] ==> forall o: Tx :: ReadTx(o, SerPlain(tx) + rest) == Ok((tx.(wit := o.wit), rest))
  {
    hide ReadVector, SerVector, ReadSigned, SignedLe, Le, ReadPlainTail;
    Widths();
    var s2 := SerVector(SerOut, tx.vout) + Le(tx.nLockTime, 4) + rest;
    var s1 := SerVector(SerIn, tx.vin) + s2;
    assert SerPlain(tx) + rest == SignedLe(tx.nVersion, 4) + s1;
    SignedRoundTrip(tx.nVersion, 4, s1);
    VinRoundTrip(tx.vin, s2);
    PlainTailRoundTrip(tx, [], rest);
    forall o: Tx | tx.vin != [] ensures ReadTx(o, SerPlain(tx) + rest) == Ok((tx.(wit := o.wit), rest)) {
      PlainTailRoundTrip(tx, o.wit, rest);
    }
  }

  /** The witness list brought to the number of inputs, as serializing leaves it. */
  function Normal(tx: Tx): Tx {
    tx.(wit := Resized(tx.wit, |tx.vin|))
  }

  lemma WitnessTailRoundTrip(tx: Tx, rest: Bytes)
    requires TxFits(tx) && |tx.wit| == |tx.vin|
    ensures ReadWitnessTail(tx.nVersion, SerVector(SerIn, tx.vin) + (SerVector(SerOut, tx.vout)
              + (SerAll(SerStack, tx.wit) + (Le(tx.nLockTime, 4) + rest)))) == Ok((tx, rest))
  {
    hide ReadVector, SerVector, ReadLe, Le, ReadAll, SerAll;
    Widths();
    var s3 := Le(tx.nLockTime, 4) + rest;
    var s2 := SerAll(SerStack, tx.wit) + s3;
    var s1 := SerVector(SerOut, tx.vout) + s2;
    VinRoundTrip(tx.vin, s1);
    VoutRoundTrip(tx.vout, s2);
    WitRoundTrip(tx.wit, s3);
    ReadLeRoundTrip(tx.nLockTime, 4, rest);
  }

  lemma EmptyVin(s: Bytes)
    ensures ReadVector(ReadIn, [0] + s) == Ok(([], s))
  {
    ReadTag(0, s);
  }

  lemma NormalFits(tx: Tx)
    requires TxFits(tx)
    ensures TxFits(Normal(tx))
  {}

  /** The witness form reads back with its witnesses, whatever follows it and whatever the object was before. */
  lemma WitnessRoundTrip(tx: Tx, old0: Tx, rest: Bytes)
    requires TxFits(tx) && HasWitness(tx)
    ensures ReadTx(old0, SerWithWitness(tx) + rest) == Ok((Normal(tx), rest))
  {
    hide ReadVector, SerVector, ReadSigned, SignedLe, Le, ReadWitnessTail, SerAll, ReadLe, TxFits, Normal;
    NormalFits(tx);
    var n := Normal(tx);
    assert n == tx.(wit := Resized(tx.wit, |tx.vin|)) by { NormalIs(tx); }
    var tail := SerVector(SerIn, tx.vin) + (SerVector(SerOut, tx.vout)
                  + (SerAll(SerStack, n.wit) + (Le(tx.nLockTime, 4) + rest)));
    WitnessShape(SignedLe(tx.nVersion, 4), SerVector(SerIn, tx.vin), SerVector(SerOut, tx.vout),
                 SerAll(SerStack, n.wit), Le(tx.nLockTime, 4), rest);
    assert SerWithWitness(tx) + rest == SignedLe(tx.nVersion, 4) + ([0] + ([1] + tail));
    VersionRead(tx, [0] + ([1] + tail));
    EmptyVin([1] + tail);
    ReadTag(1, tail);
    WitnessTailRoundTrip(n, rest);
  }

  lemma NormalIs(tx: Tx)
    ensures Normal(tx) == tx.(wit := Resized(tx.wit, |tx.vin|))
  {}

  lemma VersionRead(tx: Tx, rest: Bytes)
    requires TxFits(tx)
    ensures ReadSigned(SignedLe(tx.nVersion, 4) + rest, 4) == Ok((tx.nVersion, rest))
  {
    SignedRoundTrip(tx.nVersion, 4, rest);
  }

  lemma WitnessShape(v: Bytes, ins: Bytes, outs: Bytes, wit: Bytes, lock: Bytes, rest: Bytes)
    ensures v + ([0, 1] + (ins + (outs + (wit + lock)))) + rest
         == v + ([0] + ([1] + (ins + (outs + (wit + (lock + rest))))))
  {}

  /**
   * A fresh object that reads what serialize_with_witness wrote has the value that was written, and stops
   * where it ends: for every transaction with an input.
   */
  lemma TxRoundTrip(tx: Tx, rest: Bytes)
    requires TxFits(tx) && tx.vin != []
    ensures ReadTx(EMPTY, SerWithWitness(tx) + rest) == Ok((if HasWitness(tx) then Normal(tx) else tx.(wit := []), rest))
  {
    hide SerPlain, SerWithWitness, ReadTx, Normal, TxFits;
    if HasWitness(tx) {
      WitnessRoundTrip(tx, EMPTY, rest);
    } else {
      PlainRoundTrip(tx, rest);
      PlainIsForm(tx);
    }
  }

  lemma PlainIsForm(tx: Tx)
    requires TxFits(tx) && !HasWitness(tx)
    ensures SerWithWitness(tx) == SerPlain(tx)
  {}

  // ------------------------------------------------------------ transactions without inputs

  lemma CountConsumes(s: Bytes)
    requires ReadCompactSize(s).Ok?
    ensures var (n, rest) := ReadCompactSize(s).value;
            n < U64 && |s| - |rest| >= |CompactSize(n)|
  {
    Widths();
    FromLeBound(s, 1);
    FromLeBound(s[1..], 2);
    FromLeBound(s[1..], 4);
    FromLeBound(s[1..], 8);
  }

  lemma CountGrows(a: nat, b: nat)
    requires a <= b < U64
    ensures |CompactSize(a)| <= |CompactSize(b)|
  {}

  lemma StringConsumes(s: Bytes)
    requires ReadString(s).Ok?
    ensures var (b, rest) := ReadString(s).value;
            |b| < U64 && |s| - |rest| >= |SerString(b)|
  {
    CountConsumes(s);
    CountGrows(|ReadString(s).value.0|, ReadCompactSize(s).value.0);
  }

  lemma OutConsumes(s: Bytes)
    requires ReadOut(s).Ok? && OutFits(ReadOut(s).value.0)
    ensures |s| - |ReadOut(s).value.1| >= |SerOut(ReadOut(s).value.0)|
  {
    StringConsumes(s[8..]);
  }

  lemma {:induction false} OutsConsume(n: nat, s: Bytes)
    requires ReadAll(ReadOut, n, s).Ok?
    requires forall i :: 0 <= i < |ReadAll(ReadOut, n, s).value.0| ==> OutFits(ReadAll(ReadOut, n, s).value.0[i])
    ensures |ReadAll(ReadOut, n, s).value.0| == n
    ensures |s| - |ReadAll(ReadOut, n, s).value.1| >= |SerAll(SerOut, ReadAll(ReadOut, n, s).value.0)|
    decreases n
  {
    hide ReadOut, SerOut, OutFits;
    if n > 0 {
      var (x, rest) := ReadOut(s).value;
      var (more, last) := ReadAll(ReadOut, n - 1, rest).value;
      var xs := ReadAll(ReadOut, n, s).value.0;
      assert xs == [x] + more && xs[0] == x && xs[1..] == more;
      forall i | 0 <= i < |more| ensures OutFits(more[i]) { assert more[i] == xs[i + 1]; }
      OutConsumes(s);
      OutsConsume(n - 1, rest);
    }
  }

  lemma VoutConsumes(s: Bytes)
    requires ReadVector(ReadOut, s).Ok?
    requires forall i :: 0 <= i < |ReadVector(ReadOut, s).value.0| ==> OutFits(ReadVector(ReadOut, s).value.0[i])
    ensures var (xs, rest) := ReadVector(ReadOut, s).value;
            |xs| < U64 && |s| - |rest| >= |SerVector(SerOut, xs)|
  {
    hide ReadOut, SerOut, OutFits;
    CountConsumes(s);
    var (n, rest) := ReadCompactSize(s).value;
    OutsConsume(n, rest);
  }

  lemma {:induction false} ReadAllCount<T>(read: Reader<T>, n: nat, s: Bytes)
    requires ReadAll(read, n, s).Ok?
    ensures |ReadAll(read, n, s).value.0| == n
    decreases n
  {
    if n > 0 { ReadAllCount(read, n - 1, read(s).value.1); }
  }

  lemma VinConsumes(s: Bytes)
    requires ReadVector(ReadIn, s).Ok? && ReadVector(ReadIn, s).value.0 == []
    ensures |s| - |ReadVector(ReadIn, s).value.1| >= 1
  {
    hide ReadIn;
    CountConsumes(s);
    var (n, rest) := ReadCompactSize(s).value;
    ReadAllCount(ReadIn, n, rest);
  }

  /** Bytes of a plain transaction taken for a witness form are too few to give the same outputs. */
  lemma TooShort(v: int, vout: seq<TxOut>, s: Bytes, t: Tx, rest: Bytes)
    requires |vout| < U64 && forall i :: 0 <= i < |vout| ==> OutFits(vout[i])
    requires ReadWitnessTail(v, s) == Ok((t, rest)) && t.vin == [] && t.vout == vout
    ensures |s| - |rest| >= 5 + |SerVector(SerOut, vout)|
  {
    hide ReadIn, ReadOut, SerOut, OutFits, SerVector, ReadVector;
    VinConsumes(s);
    var s1 := ReadVector(ReadIn, s).value.1;
    VoutConsumes(s1);
  }

  /**
   * Without inputs the plain form is ambiguous: its zero input count reads as the marker of the witness
   * form. So what serialize_with_witness writes reads back exactly if there is an input, a witness, or
   * no output.
   */
  lemma TxRoundTripIff(tx: Tx, rest: Bytes)
    requires TxFits(tx)
    ensures ReadTx(EMPTY, SerWithWitness(tx) + rest) == Ok((if HasWitness(tx) then Normal(tx) else tx.(wit := []), rest))
       <==> tx.vin != [] || HasWitness(tx) || tx.vout == []
  {
    hide SerWithWitness, ReadTx, Normal, TxFits;
    if tx.vin != [] {
      TxRoundTrip(tx, rest);
    } else if HasWitness(tx) {
      WitnessRoundTrip(tx, EMPTY, rest);
    } else {
      PlainIsForm(tx);
      if tx.vout == [] {
        NothingRoundTrip(tx, rest);
      } else {
        OutputsMisread(tx, rest, rest);
      }
    }
  }

  lemma NoInputsShape(tx: Tx, rest: Bytes)
    requires TxFits(tx) && tx.vin == []
    ensures SerPlain(tx) + rest
         == SignedLe(tx.nVersion, 4) + ([0] + (SerVector(SerOut, tx.vout) + (Le(tx.nLockTime, 4) + rest)))
  {
    hide SignedLe, SerOut, Le;
    assert SerVector(SerIn, []) == [0];
  }

  lemma NothingRoundTrip(tx: Tx, rest: Bytes)
    requires TxFits(tx) && tx.vin == [] && tx.vout == []
    ensures ReadTx(EMPTY, SerPlain(tx) + rest) == Ok((tx.(wit := []), rest))
  {
    hide SignedLe, ReadSigned, Le, ReadVector, ReadWitnessTail;
    Widths();
    var lock := Le(tx.nLockTime, 4) + rest;
    NoInputsShape(tx, rest);
    assert SerVector(SerOut, []) == [0];
    VersionRead(tx, [0] + ([0] + lock));
    EmptyVin([0] + lock);
    ReadTag(0, lock);
    ReadLeRoundTrip(tx.nLockTime, 4, rest);
  }

  /** The misread form never has the same value, even if bytes are left over, as long as it stays within its end. */
  lemma OutputsMisread(tx: Tx, rest: Bytes, left: Bytes)
    requires TxFits(tx) && tx.vin == [] && tx.vout != [] && |rest| <= |left|
    ensures ReadTx(EMPTY, SerPlain(tx) + rest) != Ok((tx.(wit := []), left))
  {
    hide SignedLe, ReadSigned, Le, ReadVector, ReadWitnessTail, SerOut, SerAll;
    var outs := SerVector(SerOut, tx.vout);
    var lock := Le(tx.nLockTime, 4) + rest;
    NoInputsShape(tx, rest);
    VersionRead(tx, [0] + (outs + lock));
    EmptyVin(outs + lock);
    CountNotZero(|tx.vout|);
    var flag, s := outs[0], outs[1..] + lock;
    assert outs + lock == [flag] + s;
    ReadTag(flag, s);
    if ReadTx(EMPTY, SerPlain(tx) + rest) == Ok((tx.(wit := []), left)) {
      TooShort(tx.nVersion, tx.vout, s, tx.(wit := []), left);
    }
  }

  lemma CountNotZero(n: nat)
    requires 0 < n < U64
    ensures CompactSize(n)[0] != 0
  {}

  // ------------------------------------------------------------ the transaction id

  /** The transaction id: HASH256 of the plain form, as a little-endian number. */
  function Txid(tx: Tx, hash256: Hash): nat
    requires TxFits(tx)
  {
    FromLe(hash256(SerPlain(tx)))
  }

  /** Witnesses do not reach the transaction id. */
  lemma TxidIgnoresWitness(tx: Tx, wit: seq<Stack>, hash256: Hash)
    requires TxFits(tx) && TxFits(tx.(wit := wit))
    ensures Txid(tx, hash256) == Txid(tx.(wit := wit), hash256)
  {}
}
