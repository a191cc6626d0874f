/** Powers of two, logarithms and bit operations on unbounded natural numbers. */
module Bits {

  function Pow2(k: nat): (p: nat)
    ensures p >= 1
  {
    if k == 0 then 1 else 2 * Pow2(k - 1)
  }

  /** `a & b`, bit by bit from the least significant end. */
  function BitAnd(a: nat, b: nat): nat {
    if a == 0 || b == 0 then 0
    else 2 * BitAnd(a / 2, b / 2) + (if a % 2 == 1 && b % 2 == 1 then 1 else 0)
  }

  /** `a | b`. */
  function BitOr(a: nat, b: nat): nat
    decreases a + b
  {
    if a == 0 then b
    else if b == 0 then a
    else 2 * BitOr(a / 2, b / 2) + (if a % 2 == 1 || b % 2 == 1 then 1 else 0)
  }

  function Shl(a: nat, k: nat): nat { a * Pow2(k) }

  function Shr(a: nat, k: nat): nat {
    if k == 0 then a else Shr(a / 2, k - 1)
  }

  ghost predicate IsPowerOf2(n: int) {
    exists k: nat :: n == Pow2(k)
  }

  lemma {:induction false} Pow2Add(a: nat, b: nat)
    ensures Pow2(a + b) == Pow2(a) * Pow2(b)
  {
    if b > 0 {
      Pow2Add(a, b - 1);
      var x, y := Pow2(a), Pow2(b - 1);
      assert 2 * (x * y) == x * (2 * y);
    }
  }

  lemma {:induction false} Pow2Monotone(a: nat, b: nat)
    requires a < b
    ensures 2 * Pow2(a) <= Pow2(b)
  {
    if a + 1 < b { Pow2Monotone(a, b - 1); }
  }

  lemma {:induction false} AndSelf(n: nat)
    ensures BitAnd(n, n) == n
  {
    if n > 0 { AndSelf(n / 2); }
  }

  /** The test `n & (n - 1) == 0` recognises exactly the powers of two. */
  lemma {:induction false} AndPredecessor(n: nat)
    requires n >= 1
    ensures BitAnd(n, n - 1) == 0 <==> IsPowerOf2(n)
  {
    if n == 1 {
      assert Pow2(0) == 1;
    } else if n % 2 == 0 {
      AndPredecessor(n / 2);
      assert (n - 1) / 2 == n / 2 - 1;
      if BitAnd(n / 2, n / 2 - 1) == 0 {
        var k: nat :| n / 2 == Pow2(k);
        assert n == Pow2(k + 1);
      }
      if IsPowerOf2(n) {
        var k: nat :| n == Pow2(k);
        assert n / 2 == Pow2(k - 1);
      }
    } else {
      AndSelf(n / 2);
      assert (n - 1) / 2 == n / 2;
      assert !IsPowerOf2(n) by { OddNotPower(n); }
    }
  }

  lemma OddNotPower(n: nat)
    requires n > 1 && n % 2 == 1
    ensures !IsPowerOf2(n)
  {
    forall k: nat
      ensures n != Pow2(k)
    {
      if k > 0 { assert Pow2(k) == 2 * Pow2(k - 1); }
    }
  }

  lemma MulAtLeast(m: nat, d: nat)
    requires d >= 1
    ensures m * d >= m
  {}

  /** A quotient and an in-range remainder are the ones of Euclidean division. */
  lemma ModUnique(a: int, m: int, q: int, r: int)
    requires m > 0 && a == m * q + r && 0 <= r < m
    ensures a / m == q && a % m == r
  {
    DivUnique(m, q, r, a / m, a % m);
  }

  lemma DivUnique(m: int, q: int, r: int, q': int, r': int)
    requires 0 <= r < m && 0 <= r' < m && m * q + r == m * q' + r'
    ensures q == q' && r == r'
  {
    if q > q' {
      assert m * (q - q') == r' - r;
      MulAtLeast(m, q - q');
    } else if q < q' {
      assert m * (q' - q) == r - r';
      MulAtLeast(m, q' - q);
    }
  }

  lemma HalfMod(a: nat, p: nat)
    requires p >= 1
    ensures a % (2 * p) == 2 * ((a / 2) % p) + a % 2
    ensures a / (2 * p) == a / 2 / p
  {
    var q, r := a / 2 / p, (a / 2) % p;
    assert a / 2 == p * q + r;
    assert (2 * p) * q == 2 * (p * q);
    ModUnique(a, 2 * p, q, 2 * r + a % 2);
  }

  /** Masking with 2^k - 1 keeps the low k bits. */
  lemma {:induction false} AndMask(a: nat, k: nat)
    ensures BitAnd(a, Pow2(k) - 1) == a % Pow2(k)
  {
    if k == 0 {
      assert Pow2(0) == 1;
    } else {
      var p := Pow2(k - 1);
      AndMask(a / 2, k - 1);
      assert Pow2(k) == 2 * p;
      assert (2 * p - 1) / 2 == p - 1 && (2 * p - 1) % 2 == 1;
      HalfMod(a, p);
    }
  }

  /** Or-ing into cleared low bits is addition. */
  lemma {:induction false} OrDisjoint(a: nat, k: nat, b: nat)
    requires b < Pow2(k)
    ensures BitOr(a * Pow2(k), b) == a * Pow2(k) + b
  {
    if k == 0 {
      assert Pow2(0) == 1 && b == 0;
    } else {
      var x := a * Pow2(k - 1);
      OrDisjoint(a, k - 1, b / 2);
      assert a * Pow2(k) == 2 * x by { MulDouble(a, Pow2(k - 1)); }
      OrHalf(x, b);
    }
  }

  lemma MulDouble(a: int, p: int)
    ensures a * (2 * p) == 2 * (a * p)
  {}

  lemma OrHalf(x: nat, b: nat)
    requires BitOr(x, b / 2) == x + b / 2
    ensures BitOr(2 * x, b) == 2 * x + b
  {}

  // -------------------------------------------------------------- splitting

  /** The largest power of two strictly below `n`: the number of leaves of the left subtree. */
  function Split(n: nat): (p: nat)
    requires n >= 2
    ensures 1 <= p < n <= 2 * p
  {
    if n == 2 then 1 else 2 * Split((n + 1) / 2)
  }

  function CeilLog(n: nat): nat {
    if n <= 1 then 0 else 1 + CeilLog((n + 1) / 2)
  }

  lemma {:induction false} SplitIsPowerOf2(n: nat)
    requires n >= 2
    ensures IsPowerOf2(Split(n))
  {
    if n == 2 {
      assert Pow2(0) == 1;
    } else {
      SplitIsPowerOf2((n + 1) / 2);
      var k: nat :| Split((n + 1) / 2) == Pow2(k);
      assert Split(n) == Pow2(k + 1);
    }
  }

  lemma PowersApart(a: nat, b: nat)
    requires IsPowerOf2(a) && IsPowerOf2(b) && a < b
    ensures 2 * a <= b
  {
    var i: nat :| a == Pow2(i);
    var j: nat :| b == Pow2(j);
    if j < i {
      Pow2Monotone(j, i);
    }
    if i < j {
      Pow2Monotone(i, j);
    }
  }

  lemma SplitUnique(n: nat, p: nat)
    requires n >= 2 && IsPowerOf2(p) && p < n <= 2 * p
    ensures p == Split(n)
  {
    SplitIsPowerOf2(n);
    if p < Split(n) {
      PowersApart(p, Split(n));
    } else if Split(n) < p {
      PowersApart(Split(n), p);
    }
  }

  /** `r` is the rounded-up base-2 logarithm of `n`. */
  predicate IsCeilLog(n: nat, r: nat) {
    n <= Pow2(r) < 2 * n
  }

  lemma {:induction false} CeilLogBounds(n: nat)
    requires n >= 1
    ensures n <= Pow2(CeilLog(n)) < 2 * n
  {
    if n > 1 { CeilLogBounds((n + 1) / 2); }
  }

  lemma CeilLogUnique(n: nat, r: nat)
    requires n >= 1 && n <= Pow2(r) < 2 * n
    ensures r == CeilLog(n)
  {
    CeilLogBounds(n);
    if r < CeilLog(n) {
      Pow2Monotone(r, CeilLog(n));
    } else if CeilLog(n) < r {
      Pow2Monotone(CeilLog(n), r);
    }
  }

  lemma {:induction false} CeilLogMonotone(a: nat, b: nat)
    requires a <= b
    ensures CeilLog(a) <= CeilLog(b)
  {
    if a > 1 { CeilLogMonotone((a + 1) / 2, (b + 1) / 2); }
  }

  /** The left subtree is one level shorter than the whole. */
  lemma {:induction false} CeilLogSplit(n: nat)
    requires n >= 2
    ensures CeilLog(Split(n)) == CeilLog(n) - 1
  {
    if n > 2 {
      CeilLogSplit((n + 1) / 2);
      var s := Split((n + 1) / 2);
      assert (2 * s + 1) / 2 == s;
      assert CeilLog(2 * s) == 1 + CeilLog(s);
    }
  }

  /** The number of set bits. */
  function PopCount(n: nat): nat {
    if n == 0 then 0 else n % 2 + PopCount(n / 2)
  }

  lemma {:induction false} PopCountPower(n: nat)
    ensures PopCount(n) == 0 <==> n == 0
    ensures PopCount(n) == 1 <==> IsPowerOf2(n)
  {
    if n == 0 {
      forall k: nat ensures n != Pow2(k) {}
    } else {
      PopCountPower(n / 2);
      if n == 1 {
        assert Pow2(0) == 1;
      } else if n % 2 == 1 {
        OddNotPower(n);
      } else {
        PowerHalf(n);
      }
    }
  }

  lemma PowerHalf(n: nat)
    requires n > 1 && n % 2 == 0
    ensures IsPowerOf2(n) <==> IsPowerOf2(n / 2)
  {
    if IsPowerOf2(n) {
      var k: nat :| n == Pow2(k);
      assert n / 2 == Pow2(k - 1);
    }
    if IsPowerOf2(n / 2) {
      var k: nat :| n / 2 == Pow2(k);
      assert n == Pow2(k + 1);
    }
  }

  /** Away from powers of two, Split(n) is the top bit of n. */
  lemma {:induction false} PopCountSplit(n: nat)
    requires n >= 2 && !IsPowerOf2(n)
    ensures PopCount(n - Split(n)) == PopCount(n) - 1 && n - Split(n) < Split(n)
  {
    if n == 2 || n == 3 {
      assert Pow2(1) == 2 * Pow2(0);
      assert n == 3;
      assert Split(3) == 2 * Split(2);
      assert PopCount(3) == 1 + PopCount(1) && PopCount(1) == 1 + PopCount(0);
    } else {
      var m := n / 2;
      SplitIsPowerOf2(m);
      PopCountPower(n);
      PopCountPower(m);
      if IsPowerOf2(m) {
        PowerHalf(2 * m);
        assert n == 2 * m + 1;
        PowerDouble(m);
        SplitUnique(n, 2 * m);
        assert PopCount(n) == 1 + PopCount(m) && PopCount(1) == 1 + PopCount(0);
      } else {
        PopCountSplit(m);
        PowerDouble(Split(m));
        SplitUnique(n, 2 * Split(m));
        assert (n - Split(n)) / 2 == m - Split(m) && (n - Split(n)) % 2 == n % 2;
      }
    }
  }

  lemma PowerDouble(n: nat)
    requires IsPowerOf2(n)
    ensures IsPowerOf2(2 * n)
  {
    var k: nat :| n == Pow2(k);
    assert 2 * n == Pow2(k + 1);
  }

  lemma SplitIsPow2CeilLog(n: nat)
    requires n >= 2
    ensures CeilLog(n) >= 1 && Split(n) == Pow2(CeilLog(n) - 1)
  {
    CeilLogBounds(n);
    assert Pow2(CeilLog(n)) == 2 * Pow2(CeilLog(n) - 1);
    SplitUnique(n, Pow2(CeilLog(n) - 1));
  }

  lemma CeilLogNext(n: nat, r: nat)
    requires n >= 1 && IsCeilLog(n, r)
    ensures IsPowerOf2(n) ==> IsCeilLog(n + 1, r + 1)
    ensures n >= 2 && n - Split(n) < Split(n) ==> IsCeilLog(n + 1, r)
  {
    CeilLogUnique(n, r);
    if IsPowerOf2(n) {
      var k: nat :| n == Pow2(k);
      CeilLogUnique(n, k);
    }
    if n >= 2 {
      SplitIsPow2CeilLog(n);
      assert Pow2(r) == 2 * Split(n);
    }
  }
}
