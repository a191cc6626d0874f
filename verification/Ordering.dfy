/** Python's ordering of byte strings and `sorted` over the keys of a dictionary. */
module Ordering {
  import opened Python

  predicate LexLeq(a: Bytes, b: Bytes) {
    if a == [] then true
    else if b == [] then false
    else a[0] < b[0] || (a[0] == b[0] && LexLeq(a[1..], b[1..]))
  }

  /** Byte strings are compared at their first difference, and a proper prefix comes first. */
  ghost predicate FirstDiffers(a: Bytes, b: Bytes, i: nat) {
    i < |a| && i < |b| && a[..i] == b[..i] && a[i] as int < b[i] as int
  }

  lemma FirstAgree(a: Bytes, b: Bytes, i: nat)
    requires FirstDiffers(a, b, i) && i > 0
    ensures a[0] == b[0]
  {
    assert a[0] == a[..i][0] == b[..i][0] == b[0];
  }

  lemma {:induction false} LexMeans(a: Bytes, b: Bytes)
    ensures LexLeq(a, b) <==> a <= b || exists i: nat :: FirstDiffers(a, b, i)
    decreases |a|
  {
    if a != [] && b != [] {
      if a[0] == b[0] {
        LexMeans(a[1..], b[1..]);
        if a[1..] <= b[1..] {
          assert a == [a[0]] + a[1..] && b == [b[0]] + b[1..];
        }
        forall i: nat | FirstDiffers(a[1..], b[1..], i) ensures FirstDiffers(a, b, i + 1) {
          assert a[..i + 1] == [a[0]] + a[1..][..i] && b[..i + 1] == [b[0]] + b[1..][..i];
        }
        forall i: nat | FirstDiffers(a, b, i) ensures i > 0 && FirstDiffers(a[1..], b[1..], i - 1) {
          assert a[1..][..i - 1] == a[..i][1..] && b[1..][..i - 1] == b[..i][1..];
        }
      } else {
        if a[0] < b[0] { assert FirstDiffers(a, b, 0); }
        forall i: nat | FirstDiffers(a, b, i) ensures i == 0 {
          if i > 0 { FirstAgree(a, b, i); }
        }
      }
    }
  }

  lemma {:induction false} LexTotal(a: Bytes, b: Bytes)
    ensures LexLeq(a, b) || LexLeq(b, a)
    decreases |a|
  {
    if a != [] && b != [] { LexTotal(a[1..], b[1..]); }
  }

  lemma {:induction false} LexAntisymmetric(a: Bytes, b: Bytes)
    requires LexLeq(a, b) && LexLeq(b, a)
    ensures a == b
    decreases |a|
  {
    if a != [] && b != [] {
      LexAntisymmetric(a[1..], b[1..]);
      assert a == [a[0]] + a[1..] && b == [b[0]] + b[1..];
    }
  }

  lemma {:induction false} LexTransitive(a: Bytes, b: Bytes, c: Bytes)
    requires LexLeq(a, b) && LexLeq(b, c)
    ensures LexLeq(a, c)
    decreases |a|
  {
    if a != [] && a[0] == b[0] && b[0] == c[0] { LexTransitive(a[1..], b[1..], c[1..]); }
  }

  predicate IsLeast(k: Bytes, s: set<Bytes>) {
    k in s && forall x :: x in s ==> LexLeq(k, x)
  }

  lemma {:induction false} LeastExists(s: set<Bytes>) returns (k: Bytes)
    requires s != {}
    ensures IsLeast(k, s)
    decreases |s|
  {
    var x :| x in s;
    if s == {x} {
      k := x;
      LexTotal(x, x);
    } else {
      var t := s - {x};
      var y := LeastExists(t);
      LexTotal(x, y);
      k := if LexLeq(x, y) then x else y;
      LexTotal(x, x);
      forall z | z in s
        ensures LexLeq(k, z)
      {
        if z in t && k == x { LexTransitive(x, y, z); }
      }
    }
  }

  function Least(s: set<Bytes>): (k: Bytes)
    requires s != {}
    ensures IsLeast(k, s)
  {
    LeastIsThere(s);
    LeastUnique(s);
    var k :| IsLeast(k, s);
    k
  }

  lemma LeastIsThere(s: set<Bytes>)
    requires s != {}
    ensures exists k :: IsLeast(k, s)
  {
    var k := LeastExists(s);
  }

  lemma LeastUnique(s: set<Bytes>)
    ensures forall a, b :: IsLeast(a, s) && IsLeast(b, s) ==> a == b
  {
    forall a, b | IsLeast(a, s) && IsLeast(b, s)
      ensures a == b
    {
      LexAntisymmetric(a, b);
    }
  }

  /** `sorted(keys)`. */
  function Sorted(s: set<Bytes>): (r: seq<Bytes>)
    ensures |r| == |s|
    ensures forall k :: k in r <==> k in s
  {
    if s == {} then []
    else
      var k := Least(s);
      [k] + Sorted(s - {k})
  }

  ghost predicate Ascending(r: seq<Bytes>) {
    forall i, j :: 0 <= i < j < |r| ==> LexLeq(r[i], r[j]) && r[i] != r[j]
  }

  lemma {:induction false} SortedAscends(s: set<Bytes>)
    ensures Ascending(Sorted(s))
    decreases |s|
  {
    if s != {} {
      var k := Least(s);
      SortedAscends(s - {k});
      var r := Sorted(s - {k});
      forall j | 0 <= j < |r|
        ensures LexLeq(k, r[j]) && k != r[j]
      {
        assert r[j] in s - {k};
      }
    }
  }

  /** The values of a dictionary in the order of its sorted keys. */
  function SortedValues(m: map<Bytes, Bytes>): (r: seq<Bytes>)
    ensures |r| == |m|
    ensures forall i :: 0 <= i < |m| ==> Sorted(m.Keys)[i] in m && r[i] == m[Sorted(m.Keys)[i]]
  {
    var ks := Sorted(m.Keys);
    assert |m.Keys| == |m|;
    assert forall i :: 0 <= i < |ks| ==> ks[i] in m.Keys;
    seq(|ks|, i requires 0 <= i < |ks| => m[ks[i]])
  }
}
