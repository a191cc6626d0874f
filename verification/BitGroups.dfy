/** Regrouping a bit string: what convertbits computes, and why it can be undone. */
module BitGroups {
  import opened Python
  import opened Bits
  import opened Checksums

  /** The `k` lowest bits of `x`, most significant first. */
  function Bin(x: int, k: nat): (b: seq<bool>)
    ensures |b| == k
    decreases k
  {
    if k == 0 then [] else Bin(x / 2, k - 1) + [x % 2 == 1]
  }

  function FromBits(b: seq<bool>): nat {
    if b == [] then 0 else 2 * FromBits(b[..|b| - 1]) + (if b[|b| - 1] then 1 else 0)
  }

  function Falses(n: nat): (b: seq<bool>)
    ensures |b| == n && forall i :: 0 <= i < n ==> !b[i]
  {
    if n == 0 then [] else Falses(n - 1) + [false]
  }

  /** The bits of a list of `w`-bit values. */
  function BitsOf(data: seq<int>, w: nat): seq<bool> {
    if data == [] then [] else BitsOf(data[..|data| - 1], w) + Bin(data[|data| - 1], w)
  }

  lemma {:induction false} BitsLength(data: seq<int>, w: nat)
    ensures |BitsOf(data, w)| == |data| * w
    decreases |data|
  {
    if data != [] {
      BitsLength(data[..|data| - 1], w);
      SuccTimes(|data| - 1, w);
    }
  }

  lemma SuccTimes(n: nat, w: nat)
    ensures (n + 1) * w == n * w + w
  {}

  /** The `n` values of `w` bits each that a bit string is made of. */
  function Groups(b: seq<bool>, w: nat, n: nat): (r: seq<nat>)
    requires |b| == n * w
    ensures |r| == n
    decreases n
  {
    if n == 0 then []
    else
      assert n * w == (n - 1) * w + w;
      Groups(b[..(n - 1) * w], w, n - 1) + [FromBits(b[(n - 1) * w..])]
  }

  predicate InRange(data: seq<int>, w: nat) {
    forall i :: 0 <= i < |data| ==> 0 <= data[i] < Pow2(w)
  }

  // ------------------------------------------------------------ one value

  lemma {:induction false} ValueBin(x: nat, k: nat)
    requires x < Pow2(k)
    ensures FromBits(Bin(x, k)) == x
  {
    if k > 0 {
      ValueBin(x / 2, k - 1);
      assert Bin(x, k)[..k - 1] == Bin(x / 2, k - 1);
    }
  }

  lemma {:induction false} BinValue(b: seq<bool>)
    ensures FromBits(b) < Pow2(|b|) && Bin(FromBits(b), |b|) == b
  {
    if b != [] {
      var c := b[..|b| - 1];
      BinValue(c);
      assert FromBits(b) / 2 == FromBits(c);
      assert b == c + [b[|b| - 1]];
    }
  }

  /** The bits of a number are the bits of its high part, then those of its low part. */
  lemma {:induction false} BinSplit(x: nat, i: nat, j: nat)
    ensures Bin(x, i + j) == Bin(Shr(x, j), i) + Bin(x, j)
  {
    if j > 0 {
      BinSplit(x / 2, i, j - 1);
    }
  }

  lemma {:induction false} BinCut(x: nat, k: nat, m: nat)
    requires k <= m
    ensures Bin(Cut(x, m), k) == Bin(x, k)
  {
    if k > 0 {
      assert Cut(x, m) / 2 == Cut(x / 2, m - 1) && Cut(x, m) % 2 == x % 2;
      BinCut(x / 2, k - 1, m - 1);
    }
  }

  lemma {:induction false} CutBound(x: nat, k: nat)
    ensures Cut(x, k) < Pow2(k)
  {
    if k > 0 { CutBound(x / 2, k - 1); }
  }

  /** Shifting in a value appends its bits. */
  lemma {:induction false} BinAppend(x: nat, i: nat, v: nat, j: nat)
    requires v < Pow2(j)
    ensures Bin(x * Pow2(j) + v, i + j) == Bin(x, i) + Bin(v, j)
    decreases j
  {
    if j == 0 {
      assert Pow2(0) == 1 && v == 0;
    } else {
      var y := x * Pow2(j - 1);
      MulDouble(x, Pow2(j - 1));
      BinAppend(x, i, v / 2, j - 1);
      HalfSum(y, v);
    }
  }

  lemma HalfSum(y: nat, v: nat)
    ensures (2 * y + v) / 2 == y + v / 2 && (2 * y + v) % 2 == v % 2
  {}

  lemma {:induction false} BinZero(j: nat)
    ensures Bin(0, j) == Falses(j)
  {
    if j > 0 { BinZero(j - 1); }
  }

  /** Only zero has no true bit. */
  lemma {:induction false} ValueZero(b: seq<bool>)
    ensures FromBits(b) == 0 <==> true !in b
  {
    if b != [] {
      ValueZero(b[..|b| - 1]);
      assert b == b[..|b| - 1] + [b[|b| - 1]];
    }
  }

  lemma {:induction false} FalsesAre(b: seq<bool>)
    requires true !in b
    ensures b == Falses(|b|)
  {
    forall i | 0 <= i < |b| ensures b[i] == Falses(|b|)[i] {
      assert b[i] != true;
    }
  }

  // ------------------------------------------------------------ lists of values

  /** Cutting the bits of a list into groups gives the list back. */
  predicate GroupsBack(data: seq<int>, w: nat) {
    |BitsOf(data, w)| == |data| * w && Groups(BitsOf(data, w), w, |data|) == data
  }

  lemma {:induction false} GroupsBits(data: seq<int>, w: nat)
    requires InRange(data, w)
    ensures GroupsBack(data, w)
    decreases |data|
  {
    if data == [] {
    } else {
      var init, x := data[..|data| - 1], data[|data| - 1];
      assert data == init + [x];
      GroupsBits(init, w);
      GroupsBitsSnoc(init, x, w);
    }
  }

  lemma GroupsBitsSnoc(init: seq<int>, x: int, w: nat)
    requires 0 <= x < Pow2(w) && GroupsBack(init, w)
    ensures GroupsBack(init + [x], w)
  {
    ValueBin(x, w);
    BitsLength(init + [x], w);
    BitsSnoc(init, x, w);
    GroupsSnoc(BitsOf(init, w), Bin(x, w), w, |init|);
  }

  lemma GroupsSnoc(b: seq<bool>, c: seq<bool>, w: nat, n: nat)
    requires |b| == n * w && |c| == w
    ensures |b + c| == (n + 1) * w && Groups(b + c, w, n + 1) == Groups(b, w, n) + [FromBits(c)]
  {
    SuccTimes(n, w);
    assert (b + c)[..n * w] == b && (b + c)[n * w..] == c;
  }

  lemma {:induction false} BitsGroups(b: seq<bool>, w: nat, n: nat)
    requires |b| == n * w
    ensures InRange(Groups(b, w, n), w) && BitsOf(Groups(b, w, n), w) == b
    decreases n
  {
    if n > 0 {
      SuccTimes(n - 1, w);
      var c, d := b[..(n - 1) * w], b[(n - 1) * w..];
      BitsGroups(c, w, n - 1);
      BitsGroupsSnoc(c, d, w, n - 1);
      assert b == c + d;
    }
  }

  lemma BitsGroupsSnoc(c: seq<bool>, d: seq<bool>, w: nat, n: nat)
    requires |c| == n * w && |d| == w && InRange(Groups(c, w, n), w) && BitsOf(Groups(c, w, n), w) == c
    ensures |c + d| == (n + 1) * w
    ensures InRange(Groups(c + d, w, n + 1), w) && BitsOf(Groups(c + d, w, n + 1), w) == c + d
  {
    BinValue(d);
    GroupsSnoc(c, d, w, n);
    BitsSnoc(Groups(c, w, n), FromBits(d), w);
  }

  lemma BitsSnoc(data: seq<int>, v: int, w: nat)
    ensures BitsOf(data + [v], w) == BitsOf(data, w) + Bin(v, w)
  {
    assert (data + [v])[..|data|] == data;
  }

  // ------------------------------------------------------------ regrouping

  /** The number of whole groups. */
  function Quot(n: nat, to: nat): nat
    requires to >= 1
  {
    if n < to then 0 else 1 + Quot(n - to, to)
  }

  /** The number of bits after the last whole group. */
  function Rest(n: nat, to: nat): (r: nat)
    requires to >= 1
    ensures r < to
  {
    if n < to then n else Rest(n - to, to)
  }

  lemma {:induction false} QuotRest(n: nat, to: nat)
    requires to >= 1
    ensures n == Quot(n, to) * to + Rest(n, to)
  {
    if n >= to {
      QuotRest(n - to, to);
      SuccTimes(Quot(n - to, to), to);
    }
  }

  function Whole(b: seq<bool>, to: nat): (r: seq<nat>)
    requires to >= 1
  {
    QuotRest(|b|, to);
    Groups(b[..Quot(|b|, to) * to], to, Quot(|b|, to))
  }

  /** The padding that completes the last group. */
  function Padding(n: nat, to: nat): nat
    requires to >= 1
  {
    if Rest(n, to) == 0 then 0 else to - Rest(n, to)
  }

  /** With padding the last group is completed by zeros; without, the rest must be zero and short. */
  function Complete(b: seq<bool>, from: nat, to: nat, pad: bool): Option<seq<nat>>
    requires to >= 1
  {
    var r := Rest(|b|, to);
    QuotRest(|b|, to);
    if pad then Some(Whole(b + Falses(Padding(|b|, to)), to))
    else if r >= from || true in b[|b| - r..] then None
    else Some(Whole(b, to))
  }

  /** What convertbits returns: the same bit string in groups of another size. */
  function Regroup(data: seq<int>, from: nat, to: nat, pad: bool): Option<seq<nat>>
    requires to >= 1
  {
    if InRange(data, from) then Complete(BitsOf(data, from), from, to, pad) else None
  }

  lemma {:induction false} RestUnique(n: nat, to: nat, q: nat, r: nat)
    requires to >= 1 && n == q * to + r && r < to
    ensures Quot(n, to) == q && Rest(n, to) == r
    decreases q
  {
    if q > 0 {
      SuccTimes(q - 1, to);
      RestUnique(n - to, to, q - 1, r);
    }
  }

  lemma WholeAt(b: seq<bool>, w: nat, n: nat, head: seq<bool>, rest: seq<bool>)
    requires w >= 1 && b == head + rest && |head| == n * w && |rest| < w
    ensures Whole(b, w) == Groups(head, w, n) && Rest(|b|, w) == |rest|
  {
    RestUnique(|b|, w, n, |rest|);
    assert b[..|head|] == head;
  }

  /** Whole groups and a shorter rest determine the list. */
  lemma WholeOf(data: seq<int>, w: nat, rest: seq<bool>)
    requires w >= 1 && InRange(data, w) && |rest| < w
    ensures Whole(BitsOf(data, w) + rest, w) == data
    ensures Rest(|BitsOf(data, w) + rest|, w) == |rest|
  {
    GroupsBits(data, w);
    WholeAt(BitsOf(data, w) + rest, w, |data|, BitsOf(data, w), rest);
  }

  lemma WholeExact(data: seq<int>, w: nat)
    requires w >= 1 && InRange(data, w)
    ensures Whole(BitsOf(data, w), w) == data && Rest(|BitsOf(data, w)|, w) == 0
  {
    WholeOf(data, w, []);
    assert BitsOf(data, w) + [] == BitsOf(data, w);
  }

  lemma Associative<T>(a: seq<T>, b: seq<T>, c: seq<T>)
    ensures a + b + c == a + (b + c)
  {}

  lemma SplitAt<T>(b: seq<T>, k: nat, r: nat)
    requires |b| == k + r
    ensures b == b[..k] + b[|b| - r..]
  {}

  lemma WholeBits(b: seq<bool>, w: nat)
    requires w >= 1
    ensures Rest(|b|, w) <= |b|
    ensures InRange(Whole(b, w), w) && b == BitsOf(Whole(b, w), w) + b[|b| - Rest(|b|, w)..]
  {
    QuotRest(|b|, w);
    var n := Quot(|b|, w);
    SplitAt(b, n * w, Rest(|b|, w));
    BitsGroups(b[..n * w], w, n);
  }

  /** Without a rest the groups are the whole string. */
  lemma WholeBitsExact(b: seq<bool>, w: nat)
    requires w >= 1 && Rest(|b|, w) == 0
    ensures InRange(Whole(b, w), w) && BitsOf(Whole(b, w), w) == b
  {
    WholeBits(b, w);
    assert b[|b|..] == [];
  }

  /** Padding completes the last group and is shorter than a group. */
  lemma {:induction false} PaddingFits(n: nat, to: nat)
    requires to >= 1
    ensures Padding(n, to) < to && Rest(n + Padding(n, to), to) == 0
  {
    if n >= to {
      PaddingFits(n - to, to);
    }
  }

  lemma {:induction false} PaddingUnique(n: nat, to: nat, p: nat)
    requires to >= 1 && p < to && Rest(n + p, to) == 0
    ensures Padding(n, to) == p
  {
    if n >= to {
      PaddingUnique(n - to, to, p);
    }
  }

  /** Regrouping into smaller groups with padding is undone by the strict way back. */
  lemma RegroupBack(data: seq<int>, a: nat, b: nat)
    requires 1 <= b <= a && InRange(data, a)
    ensures var ys := Regroup(data, a, b, true);
            ys.Some? && InRange(ys.value, b) && Regroup(ys.value, b, a, false) == Some(data)
  {
    var bits := BitsOf(data, a);
    var p := Padding(|bits|, b);
    PaddingFits(|bits|, b);
    var all := bits + Falses(p);
    WholeBitsExact(all, b);
    WholeOf(data, a, Falses(p));
    Tail(bits, Falses(p));
  }

  lemma Tail<T>(a: seq<T>, b: seq<T>)
    ensures (a + b)[|a + b| - |b|..] == b
  {}

  /** The strict way accepts only what padding would have produced. */
  lemma RegroupForth(ys: seq<int>, a: nat, b: nat)
    requires 1 <= b <= a && Regroup(ys, b, a, false).Some?
    ensures InRange(ys, b) && InRange(Regroup(ys, b, a, false).value, a)
    ensures Regroup(Regroup(ys, b, a, false).value, a, b, true) == Some(ys)
  {
    var all := BitsOf(ys, b);
    var r := Rest(|all|, a);
    var data := Whole(all, a);
    WholeBits(all, a);
    var rest := all[|all| - r..];
    FalsesAre(rest);
    var bits := BitsOf(data, a);
    assert all == bits + Falses(r);
    WholeExact(ys, b);
    PaddingUnique(|bits|, b, r);
  }

  // ------------------------------------------------------------ the number of a list

  /** Reading digits to the base 2^w after those of `n`. */
  function ReadOn(n: int, data: seq<int>, w: nat): int
    decreases data
  {
    if data == [] then n else ReadOn(n * Pow2(w) + data[0], data[1..], w)
  }

  /** The number whose digits to the base 2^w the values are, the most significant one first. */
  function BigEndian(data: seq<int>, w: nat): int {
    ReadOn(0, data, w)
  }

  lemma {:induction false} ReadLast(n: int, data: seq<int>, w: nat)
    requires data != []
    ensures ReadOn(n, data, w) == ReadOn(n, data[..|data| - 1], w) * Pow2(w) + data[|data| - 1]
    decreases data
  {
    if |data| > 1 {
      ReadLast(n * Pow2(w) + data[0], data[1..], w);
      assert data[1..][..|data| - 2] == data[..|data| - 1][1..];
    }
  }

  lemma {:induction false} BitsJoined(a: seq<bool>, b: seq<bool>)
    ensures FromBits(a + b) == FromBits(a) * Pow2(|b|) + FromBits(b)
    decreases |b|
  {
    if b == [] {
      assert a + b == a;
    } else {
      var c := b[..|b| - 1];
      BitsJoined(a, c);
      assert (a + b)[..|a + b| - 1] == a + c;
      MulDouble(FromBits(a), Pow2(|c|));
    }
  }

  lemma {:induction false} BitsNumber(data: seq<int>, w: nat)
    requires InRange(data, w)
    ensures FromBits(BitsOf(data, w)) == BigEndian(data, w)
    decreases |data|
  {
    if data != [] {
      var init, x := data[..|data| - 1], data[|data| - 1];
      BitsNumber(init, w);
      ReadLast(0, data, w);
      BitsJoined(BitsOf(init, w), Bin(x, w));
      ValueBin(x, w);
    }
  }

  /** Lists of equal length in range are told apart by their numbers. */
  lemma NumberInjective(a: seq<int>, b: seq<int>, w: nat)
    requires InRange(a, w) && InRange(b, w) && |a| == |b| && BigEndian(a, w) == BigEndian(b, w)
    ensures a == b
  {
    BitsNumber(a, w);
    BitsNumber(b, w);
    BitsLength(a, w);
    BitsLength(b, w);
    BinValue(BitsOf(a, w));
    BinValue(BitsOf(b, w));
    GroupsBits(a, w);
    GroupsBits(b, w);
  }

  lemma PaddedNumber(data: seq<int>, a: nat, b: nat, p: nat, n: nat) returns (r: seq<nat>)
    requires b >= 1 && InRange(data, a) && n * b == |data| * a + p && p < b
    ensures Regroup(data, a, b, true) == Some(r) && InRange(r, b) && |r| == n
    ensures BigEndian(r, b) == BigEndian(data, a) * Pow2(p)
  {
    var bits := BitsOf(data, a);
    BitsLength(data, a);
    RestUnique(|bits| + p, b, n, 0);
    PaddingUnique(|bits|, b, p);
    var all := bits + Falses(p);
    WholeBitsExact(all, b);
    r := Whole(all, b);
    BitsNumber(data, a);
    BitsNumber(r, b);
    BitsJoined(bits, Falses(p));
    ValueZero(Falses(p));
  }

  /**
   * What regrouping with padding computes, as numbers: the `n` groups that are needed spell out the same
   * number, shifted by the padding.
   */
  lemma RegroupNumber(data: seq<int>, a: nat, b: nat, ys: seq<nat>, p: nat)
    requires b >= 1 && InRange(data, a) && InRange(ys, b) && |ys| * b == |data| * a + p && p < b
    ensures Regroup(data, a, b, true) == Some(ys) <==> BigEndian(ys, b) == BigEndian(data, a) * Pow2(p)
  {
    var r := PaddedNumber(data, a, b, p, |ys|);
    if BigEndian(ys, b) == BigEndian(r, b) {
      NumberInjective(ys, r, b);
    }
  }
}
