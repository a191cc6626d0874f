/** Recomputing a Merkle tree along one path, on trees as values. */
module MerkleUpdate {
  import opened Bits
  import opened MerkleSpec

  function Count<D>(t: Tree<D>): (n: nat)
    ensures n >= 1
  {
    match t
    case Leaf(_) => 1
    case Branch(_, l, r) => Count(l) + Count(r)
  }

  function SetLeaf<D>(t: Tree<D>, i: nat, x: D): Tree<D>
    requires i < Count(t)
  {
    match t
    case Leaf(_) => Leaf(x)
    case Branch(v, l, r) =>
      if i < Count(l) then Branch(v, SetLeaf(l, i, x), r) else Branch(v, l, SetLeaf(r, i - Count(l), x))
  }

  /** The number of inner nodes above leaf `i`. */
  function Depth<D>(t: Tree<D>, i: nat): nat
    requires i < Count(t)
  {
    match t
    case Leaf(_) => 0
    case Branch(_, l, r) => 1 + (if i < Count(l) then Depth(l, i) else Depth(r, i - Count(l)))
  }

  /** The tree with the nodes above leaf `i` recomputed, except the topmost `j` of them. */
  function Rehash<D>(h: Hasher<D>, t: Tree<D>, i: nat, j: nat): Tree<D>
    requires i < Count(t)
    decreases t
  {
    match t
    case Leaf(_) => t
    case Branch(v, l, r) =>
      var j' := if j == 0 then 0 else j - 1;
      var l' := if i < Count(l) then Rehash(h, l, i, j') else l;
      var r' := if i < Count(l) then r else Rehash(h, r, i - Count(l), j');
      Branch(if j == 0 then h(Pair(l'.value, r'.value)) else v, l', r')
  }

  lemma {:induction false} RehashNone<D>(h: Hasher<D>, t: Tree<D>, i: nat)
    requires i < Count(t)
    ensures Rehash(h, t, i, Depth(t, i)) == t
  {
    match t {
      case Leaf(_) =>
      case Branch(_, l, r) =>
        if i < Count(l) { RehashNone(h, l, i); } else { RehashNone(h, r, i - Count(l)); }
    }
  }

  lemma {:induction false} RehashCount<D>(h: Hasher<D>, t: Tree<D>, i: nat, j: nat)
    requires i < Count(t)
    ensures Count(Rehash(h, t, i, j)) == Count(t)
    ensures t.Branch? ==> Count(Rehash(h, t, i, j).left) == Count(t.left)
  {
    match t {
      case Leaf(_) =>
      case Branch(_, l, r) =>
        var j' := if j == 0 then 0 else j - 1;
        if i < Count(l) { RehashCount(h, l, i, j'); } else { RehashCount(h, r, i - Count(l), j'); }
    }
  }

  lemma {:induction false} BuildCount<D>(h: Hasher<D>, vs: seq<D>)
    requires vs != []
    ensures Count(Build(h, vs)) == |vs|
    decreases |vs|
  {
    if |vs| > 1 {
      BuildCount(h, vs[..Split(|vs|)]);
      BuildCount(h, vs[Split(|vs|)..]);
    }
  }

  /** Setting a leaf and recomputing the path above it is rebuilding the whole tree. */
  lemma {:induction false} SetIsRebuild<D>(h: Hasher<D>, vs: seq<D>, i: nat, x: D)
    requires i < |vs|
    ensures Count(Build(h, vs)) == |vs| == Count(SetLeaf(Build(h, vs), i, x))
    ensures Rehash(h, SetLeaf(Build(h, vs), i, x), i, 0) == Build(h, vs[i := x])
    decreases |vs|
  {
    BuildCount(h, vs);
    if |vs| > 1 {
      var k := Split(|vs|);
      var ws := vs[i := x];
      BuildCount(h, vs[..k]);
      if i < k {
        SetIsRebuild(h, vs[..k], i, x);
        assert ws[..k] == vs[..k][i := x] && ws[k..] == vs[k..];
      } else {
        SetIsRebuild(h, vs[k..], i - k, x);
        assert ws[k..] == vs[k..][i - k := x] && ws[..k] == vs[..k];
      }
    }
  }

  /** Appending to a complete tree puts a new root on top. */
  lemma AppendComplete<D>(h: Hasher<D>, vs: seq<D>, x: D, v: D)
    requires vs != [] && IsPowerOf2(|vs|)
    ensures var t := Branch(v, Build(h, vs), Leaf(x));
            Count(t) == |vs| + 1 && Rehash(h, t, |vs|, 0) == Build(h, vs + [x])
  {
    BuildCount(h, vs);
    SplitUnique(|vs| + 1, |vs|);
    assert (vs + [x])[..|vs|] == vs && (vs + [x])[|vs|..] == [x];
  }

  /** Appending when the right half is complete puts a new node on top of the right half. */
  lemma AppendRight<D>(h: Hasher<D>, vs: seq<D>, x: D, v: D, w: D)
    requires |vs| > 1 && IsPowerOf2(|vs| - Split(|vs|)) && |vs| - Split(|vs|) < Split(|vs|)
    ensures var k := Split(|vs|);
            var t := Branch(w, Build(h, vs[..k]), Branch(v, Build(h, vs[k..]), Leaf(x)));
            Count(t) == |vs| + 1 && Rehash(h, t, |vs|, 0) == Build(h, vs + [x])
  {
    var k := Split(|vs|);
    var l, r := vs[..k], vs[k..];
    BuildCount(h, l);
    AppendComplete(h, r, x, v);
    AppendSlices(vs, x, k);
    SplitNext(|vs|);
    var t := Branch(w, Build(h, l), Branch(v, Build(h, r), Leaf(x)));
    RehashRight(h, t, |vs|);
    BuildSplit(h, vs + [x], |vs| + 1, k);
  }

  lemma RehashRight<D>(h: Hasher<D>, t: Tree<D>, i: nat)
    requires t.Branch? && Count(t.left) <= i < Count(t)
    ensures var r := Rehash(h, t.right, i - Count(t.left), 0);
            Rehash(h, t, i, 0) == Branch(h(Pair(t.left.value, r.value)), t.left, r)
  {}

  lemma AppendSlices<D>(vs: seq<D>, x: D, k: nat)
    requires k <= |vs|
    ensures (vs + [x])[..k] == vs[..k] && (vs + [x])[k..] == vs[k..] + [x]
  {}

  lemma SplitNext(n: nat)
    requires n > 1 && n - Split(n) < Split(n)
    ensures Split(n + 1) == Split(n)
  {
    SplitIsPowerOf2(n);
    SplitUnique(n + 1, Split(n));
  }

  lemma BuildSplit<D>(h: Hasher<D>, ws: seq<D>, n: nat, k: nat)
    requires |ws| == n > 1 && k == Split(n)
    ensures var l, r := Build(h, ws[..k]), Build(h, ws[k..]);
            Build(h, ws) == Branch(h(Pair(l.value, r.value)), l, r)
  {}

  // ---------------------------------------------------------------- reading

  function LeafAt<D>(t: Tree<D>, i: nat): D
    requires i < Count(t)
  {
    match t
    case Leaf(v) => v
    case Branch(_, l, r) => if i < Count(l) then LeafAt(l, i) else LeafAt(r, i - Count(l))
  }

  lemma {:induction false} BuildLeaf<D>(h: Hasher<D>, vs: seq<D>, i: nat)
    requires i < |vs|
    ensures Count(Build(h, vs)) == |vs| && LeafAt(Build(h, vs), i) == vs[i]
    decreases |vs|
  {
    BuildCount(h, vs);
    if |vs| > 1 {
      var k := Split(|vs|);
      BuildCount(h, vs[..k]);
      if i < k { BuildLeaf(h, vs[..k], i); } else { BuildLeaf(h, vs[k..], i - k); }
    }
  }

  /** The siblings of the path to leaf `i`, from the bottom. */
  function Siblings<D>(t: Tree<D>, i: nat): (p: seq<D>)
    requires i < Count(t)
    ensures |p| == Depth(t, i)
  {
    match t
    case Leaf(_) => []
    case Branch(_, l, r) =>
      if i < Count(l) then Siblings(l, i) + [r.value] else Siblings(r, i - Count(l)) + [l.value]
  }

  lemma {:induction false} BuildSiblings<D>(h: Hasher<D>, vs: seq<D>, i: nat)
    requires i < |vs|
    ensures Count(Build(h, vs)) == |vs| && Siblings(Build(h, vs), i) == ProofOf(h, vs, i)
    decreases |vs|
  {
    BuildCount(h, vs);
    if |vs| > 1 {
      var k := Split(|vs|);
      BuildCount(h, vs[..k]);
      if i < k { BuildSiblings(h, vs[..k], i); } else { BuildSiblings(h, vs[k..], i - k); }
    }
  }
}
