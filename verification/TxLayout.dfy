/** Where the bytes of a transaction stand, in both forms, and what its id is the hash of. */
module TxLayout {
  import opened Python
  import opened Sequences
  import opened Serialize
  import opened TxSpec

  /** The outpoint, the script behind its length, the sequence number. */
  predicate InputBytes(x: TxIn, b: Bytes) {
    && |x.scriptSig| < U64
    && b == Le(x.prevout.hash, 32) + Le(x.prevout.n, 4) + CompactSize(|x.scriptSig|) + x.scriptSig + Le(x.nSequence, 4)
  }

  /** The amount, the script behind its length. */
  predicate OutputBytes(x: TxOut, b: Bytes) {
    |x.scriptPubKey| < U64 && b == SignedLe(x.nValue, 8) + CompactSize(|x.scriptPubKey|) + x.scriptPubKey
  }

  /** The number of items, and each item behind its length. */
  predicate StackBytes(x: Stack, b: Bytes, items: seq<Bytes>) {
    && |x| == |items| < U64 && b == CompactSize(|x|) + Concat(items)
    && forall i :: 0 <= i < |x| ==> |x[i]| < U64 && items[i] == CompactSize(|x[i]|) + x[i]
  }

  lemma {:induction false} AllParts<T>(ser: T --> Bytes, xs: seq<T>) returns (parts: seq<Bytes>)
    requires forall i :: 0 <= i < |xs| ==> ser.requires(xs[i])
    ensures |parts| == |xs| && SerAll(ser, xs) == Concat(parts)
    ensures forall i :: 0 <= i < |xs| ==> parts[i] == ser(xs[i])
  {
    if xs == [] {
      parts := [];
    } else {
      var more := AllParts(ser, xs[1..]);
      parts := [ser(xs[0])] + more;
      assert parts[1..] == more;
    }
  }

  lemma InputParts(vin: seq<TxIn>) returns (ins: seq<Bytes>)
    requires |vin| < U64 && forall i :: 0 <= i < |vin| ==> InFits(vin[i])
    ensures SerVector(SerIn, vin) == CompactSize(|vin|) + Concat(ins)
    ensures |ins| == |vin| && forall i :: 0 <= i < |vin| ==> InputBytes(vin[i], ins[i])
  {
    hide Le, CompactSize, SerAll, Concat;
    ins := AllParts(SerIn, vin);
    forall i | 0 <= i < |vin| ensures InputBytes(vin[i], ins[i]) {
      var x := vin[i];
      var front := Le(x.prevout.hash, 32) + Le(x.prevout.n, 4);
      Associate(front, CompactSize(|x.scriptSig|), x.scriptSig);
    }
  }

  lemma OutputParts(vout: seq<TxOut>) returns (outs: seq<Bytes>)
    requires |vout| < U64 && forall i :: 0 <= i < |vout| ==> OutFits(vout[i])
    ensures SerVector(SerOut, vout) == CompactSize(|vout|) + Concat(outs)
    ensures |outs| == |vout| && forall i :: 0 <= i < |vout| ==> OutputBytes(vout[i], outs[i])
  {
    hide SignedLe, CompactSize, SerAll, Concat;
    outs := AllParts(SerOut, vout);
    forall i | 0 <= i < |vout| ensures OutputBytes(vout[i], outs[i]) {
      Associate(SignedLe(vout[i].nValue, 8), CompactSize(|vout[i].scriptPubKey|), vout[i].scriptPubKey);
    }
  }

  lemma StackParts(x: Stack) returns (items: seq<Bytes>)
    requires StackFits(x)
    ensures StackBytes(x, SerStack(x), items)
  {
    hide CompactSize, SerAll, Concat;
    items := AllParts(SerItem, x);
  }

  ghost predicate IsStackBytes(x: Stack, b: Bytes) {
    exists items :: StackBytes(x, b, items)
  }

  lemma StacksParts(wit: seq<Stack>) returns (stacks: seq<Bytes>)
    requires forall i :: 0 <= i < |wit| ==> StackFits(wit[i])
    ensures SerAll(SerStack, wit) == Concat(stacks)
    ensures |stacks| == |wit| && forall i :: 0 <= i < |wit| ==> IsStackBytes(wit[i], stacks[i])
  {
    hide CompactSize, SerAll, Concat, SerStack;
    stacks := AllParts(SerStack, wit);
    forall i | 0 <= i < |wit| ensures IsStackBytes(wit[i], stacks[i]) {
      var items := StackParts(wit[i]);
    }
  }

  /** The form without witnesses: version, inputs, outputs, lock time. */
  lemma PlainLayout(tx: Tx) returns (ins: seq<Bytes>, outs: seq<Bytes>)
    requires TxFits(tx)
    ensures SerPlain(tx) == SignedLe(tx.nVersion, 4) + (CompactSize(|tx.vin|) + Concat(ins))
                          + (CompactSize(|tx.vout|) + Concat(outs)) + Le(tx.nLockTime, 4)
    ensures |ins| == |tx.vin| && forall i :: 0 <= i < |ins| ==> InputBytes(tx.vin[i], ins[i])
    ensures |outs| == |tx.vout| && forall i :: 0 <= i < |outs| ==> OutputBytes(tx.vout[i], outs[i])
  {
    hide SignedLe, SerVector, InputBytes, OutputBytes, InFits, OutFits, Le, CompactSize, Concat;
    ins := InputParts(tx.vin);
    outs := OutputParts(tx.vout);
  }

  /**
   * The form with witnesses, used as soon as one input has one: a zero byte and a one byte behind the version, and
   * before the lock time a stack for every input.
   */
  lemma WitnessLayout(tx: Tx) returns (ins: seq<Bytes>, outs: seq<Bytes>, stacks: seq<Bytes>)
    requires TxFits(tx) && exists i :: 0 <= i < |tx.wit| && tx.wit[i] != []
    ensures SerWithWitness(tx) == SignedLe(tx.nVersion, 4) + [0, 1] + (CompactSize(|tx.vin|) + Concat(ins))
                                + (CompactSize(|tx.vout|) + Concat(outs)) + Concat(stacks) + Le(tx.nLockTime, 4)
    ensures |ins| == |tx.vin| && forall i :: 0 <= i < |ins| ==> InputBytes(tx.vin[i], ins[i])
    ensures |outs| == |tx.vout| && forall i :: 0 <= i < |outs| ==> OutputBytes(tx.vout[i], outs[i])
    ensures |stacks| == |tx.vin|
    ensures forall i :: 0 <= i < |stacks| ==> IsStackBytes(if i < |tx.wit| then tx.wit[i] else [], stacks[i])
  {
    hide SignedLe, SerVector, SerAll, InputBytes, OutputBytes, IsStackBytes, InFits, OutFits, StackFits, Le, CompactSize,
         Concat, Resized;
    ins := InputParts(tx.vin);
    outs := OutputParts(tx.vout);
    ResizedFits(tx);
    stacks := StacksParts(Resized(tx.wit, |tx.vin|));
  }

  lemma NoWitnessLayout(tx: Tx)
    requires TxFits(tx) && forall i :: 0 <= i < |tx.wit| ==> tx.wit[i] == []
    ensures SerWithWitness(tx) == SerPlain(tx)
  {}

  /** The id is the hash of the form without witnesses, its first byte being the least significant one. */
  lemma TxidOfPlain(tx: Tx, hash256: Hash)
    requires TxFits(tx)
    ensures Le(Txid(tx, hash256), 32) == hash256(SerPlain(tx))
  {
    hide SerPlain, TxFits;
    FromLeRoundTrip(hash256(SerPlain(tx)));
  }
}
