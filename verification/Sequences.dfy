/** Sequences put together and taken over element by element. */
module Sequences {
  import opened Python

  function Concat(parts: seq<Bytes>): Bytes {
    if parts == [] then [] else parts[0] + Concat(parts[1..])
  }

  lemma {:induction false} ConcatLast(parts: seq<Bytes>, last: Bytes)
    ensures Concat(parts + [last]) == Concat(parts) + last
  {
    if parts == [] {
      assert parts + [last] == [last];
      assert Concat([last]) == last + Concat([last][1..]);
    } else {
      ConcatLast(parts[1..], last);
      assert (parts + [last])[1..] == parts[1..] + [last];
    }
  }

  lemma Associate<T>(a: seq<T>, b: seq<T>, c: seq<T>)
    ensures a + b + c == a + (b + c)
  {}

  /** Bytes as numbers. */
  function Nats(b: Bytes): (r: seq<nat>)
    ensures |r| == |b| && forall i :: 0 <= i < |b| ==> r[i] == b[i] as nat
  {
    if b == [] then [] else [b[0] as nat] + Nats(b[1..])
  }

  function ToBytes(ns: seq<nat>): (b: Bytes)
    requires forall i :: 0 <= i < |ns| ==> ns[i] < 256
    ensures |b| == |ns| && forall i :: 0 <= i < |ns| ==> b[i] as nat == ns[i]
  {
    if ns == [] then [] else [ns[0] as byte] + ToBytes(ns[1..])
  }
}
