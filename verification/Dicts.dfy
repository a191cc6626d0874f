/** Dictionaries in insertion order, and `sorted` over their items. */
module Dicts {
  import opened Python
  import opened Ordering

  type Dict<V> = seq<(Bytes, V)>

  function Keys<V>(d: Dict<V>): set<Bytes> {
    if d == [] then {} else {d[0].0} + Keys(d[1..])
  }

  lemma {:induction false} InKeys<V>(d: Dict<V>, i: nat)
    requires i < |d|
    ensures d[i].0 in Keys(d)
  {
    if i > 0 { InKeys(d[1..], i - 1); }
  }

  predicate Distinct<V>(d: Dict<V>) {
    forall i, j :: 0 <= i < j < |d| ==> d[i].0 != d[j].0
  }

  function Get<V>(d: Dict<V>, k: Bytes): Option<V> {
    if d == [] then None
    else if d[0].0 == k then Some(d[0].1)
    else Get(d[1..], k)
  }

  /** d[k] = v: an old key keeps its place. */
  function Put<V>(d: Dict<V>, k: Bytes, v: V): Dict<V> {
    if d == [] then [(k, v)]
    else if d[0].0 == k then [(k, v)] + d[1..]
    else [d[0]] + Put(d[1..], k, v)
  }

  lemma {:induction false} GetIn<V>(d: Dict<V>, k: Bytes)
    ensures Get(d, k).Some? <==> k in Keys(d)
  {
    if d != [] { GetIn(d[1..], k); }
  }

  lemma {:induction false} GetAt<V>(d: Dict<V>, i: nat)
    requires Distinct(d) && i < |d|
    ensures Get(d, d[i].0) == Some(d[i].1)
  {
    if i > 0 { GetAt(d[1..], i - 1); }
  }

  /** A new key goes to the end. */
  lemma {:induction false} PutNew<V>(d: Dict<V>, k: Bytes, v: V)
    requires k !in Keys(d)
    ensures Put(d, k, v) == d + [(k, v)]
  {
    if d != [] { PutNew(d[1..], k, v); }
  }

  lemma {:induction false} NotInKeys<V>(d: Dict<V>, k: Bytes)
    requires k !in Keys(d)
    ensures forall i :: 0 <= i < |d| ==> d[i].0 != k
  {
    forall i | 0 <= i < |d| ensures d[i].0 != k { InKeys(d, i); }
  }

  lemma DistinctCons<V>(x: (Bytes, V), d: Dict<V>)
    requires Distinct(d) && x.0 !in Keys(d)
    ensures Distinct([x] + d) && Keys([x] + d) == {x.0} + Keys(d)
  {
    NotInKeys(d, x.0);
    assert ([x] + d)[1..] == d;
  }

  lemma DistinctTail<V>(d: Dict<V>)
    requires d != [] && Distinct(d)
    ensures Distinct(d[1..]) && d[0].0 !in Keys(d[1..])
  {
    if d[0].0 in Keys(d[1..]) {
      var i := KeyIndex(d[1..], d[0].0);
    }
  }

  lemma {:induction false} KeyIndex<V>(d: Dict<V>, k: Bytes) returns (i: nat)
    requires k in Keys(d)
    ensures i < |d| && d[i].0 == k
  {
    if d[0].0 == k {
      i := 0;
    } else {
      i := KeyIndex(d[1..], k);
      i := i + 1;
    }
  }

  lemma {:induction false} GetOfDict<V>(d: Dict<V>, k: Bytes, v: V)
    requires Get(d, k) == Some(v)
    ensures exists i :: 0 <= i < |d| && d[i] == (k, v)
  {
    if d[0].0 == k {
      assert d[0] == (k, v);
    } else {
      GetOfDict(d[1..], k, v);
      var i :| 0 <= i < |d[1..]| && d[1..][i] == (k, v);
      assert d[i + 1] == (k, v);
    }
  }

  lemma {:induction false} PutDistinct<V>(d: Dict<V>, k: Bytes, v: V)
    requires Distinct(d)
    ensures Distinct(Put(d, k, v)) && Keys(Put(d, k, v)) == Keys(d) + {k}
  {
    if d == [] {
      assert Keys([(k, v)]) == {k} by { assert [(k, v)][1..] == []; }
    } else {
      DistinctTail(d);
      if d[0].0 == k {
        DistinctCons((k, v), d[1..]);
      } else {
        PutDistinct(d[1..], k, v);
        DistinctCons(d[0], Put(d[1..], k, v));
      }
    }
  }

  lemma {:induction false} PutItems<V>(d: Dict<V>, k: Bytes, v: V)
    ensures forall x :: x in Put(d, k, v) ==> x == (k, v) || x in d
    ensures Put(d, k, v) != []
  {
    if d != [] && d[0].0 != k { PutItems(d[1..], k, v); }
  }

  // ------------------------------------------------------------ sorted items

  function Listed<V>(d: Dict<V>, ks: seq<Bytes>): (r: Dict<V>)
    requires forall k :: k in ks ==> k in Keys(d)
    ensures |r| == |ks|
    ensures forall i :: 0 <= i < |ks| ==> r[i].0 == ks[i] && Get(d, ks[i]) == Some(r[i].1)
  {
    if ks == [] then []
    else
      GetIn(d, ks[0]);
      [(ks[0], Get(d, ks[0]).value)] + Listed(d, ks[1..])
  }

  /** sorted(d.items()), for a dictionary: keys are distinct, so values are never compared. */
  function SortDict<V>(d: Dict<V>): Dict<V> {
    Listed(d, Sorted(Keys(d)))
  }

  function ToKeySet(ks: seq<Bytes>): (r: set<Bytes>)
    ensures forall k :: k in r <==> k in ks
  {
    if ks == [] then {} else {ks[0]} + ToKeySet(ks[1..])
  }

  lemma {:induction false} ListedKeys<V>(d: Dict<V>, ks: seq<Bytes>)
    requires forall k :: k in ks ==> k in Keys(d)
    ensures Keys(Listed(d, ks)) == ToKeySet(ks)
  {
    if ks != [] {
      ListedKeys(d, ks[1..]);
      assert Listed(d, ks)[1..] == Listed(d, ks[1..]);
    }
  }

  lemma SortedItems<V>(d: Dict<V>)
    ensures Distinct(SortDict(d)) && Keys(SortDict(d)) == Keys(d)
    ensures forall x :: x in SortDict(d) ==> x in d
    ensures d != [] ==> SortDict(d) != []
  {
    hide Sorted, Keys;
    var ks := Sorted(Keys(d));
    var e := SortDict(d);
    SortedAscends(Keys(d));
    ListedKeys(d, ks);
    assert ToKeySet(ks) == Keys(d);
    forall x | x in e ensures x in d {
      var i :| 0 <= i < |e| && e[i] == x;
      GetOfDict(d, e[i].0, e[i].1);
    }
    if d != [] {
      InKeys(d, 0);
      assert d[0].0 in ks;
    }
  }

  /** Sorting sorted items changes nothing. */
  lemma SortedTwice<V>(d: Dict<V>)
    ensures SortDict(SortDict(d)) == SortDict(d)
  {
    var e := SortDict(d);
    SortedItems(d);
    var f := SortDict(e);
    assert |e| == |f|;
    forall i | 0 <= i < |e| ensures f[i] == e[i] {
      assert e[i].0 == Sorted(Keys(d))[i] && f[i].0 == Sorted(Keys(e))[i];
      GetAt(e, i);
    }
  }
}
