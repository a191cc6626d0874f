/** The mutable Merkle tree of merkle.py, proved against the tree of MerkleSpec. */
module MerkleTrees {
  import opened Python
  import opened Bits
  import opened MerkleSpec
  import opened MerkleUpdate

  // ---------------------------------------------------------------- arithmetic

  method FloorLg(n: nat) returns (r: nat)
    requires n > 0
    ensures Pow2(r) <= n < Pow2(r + 1)
  {
    r := 0;
    var t := 1;
    while 2 * t <= n
      invariant t == Pow2(r) && t <= n
    {
      t := 2 * t;
      r := r + 1;
    }
  }

  method CeilLg(n: nat) returns (r: nat)
    requires n > 0
    ensures r == CeilLog(n)
  {
    r := 0;
    var t := 1;
    while t < n
      invariant t == Pow2(r) && t < 2 * n
    {
      t := 2 * t;
      r := r + 1;
    }
    CeilLogUnique(n, r);
  }

  predicate PowerOf2Test(n: nat)
    requires n >= 1
    ensures PowerOf2Test(n) <==> IsPowerOf2(n)
  {
    AndPredecessor(n);
    BitAnd(n, n - 1) == 0
  }

  method LargestPowerOf2LessThan(n: nat) returns (p: nat)
    requires n > 1
    ensures p == Split(n)
  {
    if PowerOf2Test(n) {
      p := n / 2;
      var k: nat :| n == Pow2(k);
      assert p == Pow2(k - 1);
    } else {
      var k := FloorLg(n);
      p := Shl(1, k);
      assert n != Pow2(k);
    }
    SplitUnique(n, p);
  }

  // ---------------------------------------------------------------- nodes

  /** A node of the tree. The root is the only node without a parent; leaves have no children. */
  class Node {
    var left: Node?
    var right: Node?
    var parent: Node?
    var value: Digest

    constructor (left: Node?, right: Node?, parent: Node?, value: Digest)
      ensures this.left == left && this.right == right && this.parent == parent && this.value == value
    {
      this.left, this.right, this.parent, this.value := left, right, parent, value;
    }

    method RecomputeValue(sha: Hash)
      requires left != null && right != null
      modifies this`value
      ensures value == Combine(sha, old(left.value), old(right.value))
    {
      value := Combine(sha, left.value, right.value);
    }

    method Sibling() returns (r: Result<Node?>)
      ensures parent == null ==> r == Err(IndexError)
      ensures parent != null && parent.left == this ==> r == Ok(parent.right)
      ensures parent != null && parent.left != this && parent.right == this ==> r == Ok(parent.left)
      ensures parent != null && parent.left != this && parent.right != this ==> r == Err(IndexError)
    {
      if parent == null {
        r := Err(IndexError);
      } else if parent.left == this {
        r := Ok(parent.right);
      } else if parent.right == this {
        r := Ok(parent.left);
      } else {
        r := Err(IndexError);
      }
    }
  }

  // ---------------------------------------------------------------- shape

  /** The skeleton of a tree of nodes. */
  datatype Shape = SLeaf(node: Node) | SBranch(node: Node, left: Shape, right: Shape)

  ghost function Nodes(s: Shape): (S: set<Node>)
    ensures s.node in S
  {
    match s
    case SLeaf(n) => {n}
    case SBranch(n, l, r) => {n} + Nodes(l) + Nodes(r)
  }

  ghost function LeavesOf(s: Shape): (ls: seq<Node>)
    ensures |ls| >= 1
  {
    match s
    case SLeaf(n) => [n]
    case SBranch(_, l, r) => LeavesOf(l) + LeavesOf(r)
  }

  /** The nodes are pairwise distinct and their child and parent pointers follow the skeleton. */
  ghost predicate Linked(s: Shape)
    reads Nodes(s)`left, Nodes(s)`right, Nodes(s)`parent
  {
    match s
    case SLeaf(n) => n.left == null && n.right == null
    case SBranch(n, l, r) =>
      && n.left == l.node && n.right == r.node && l.node.parent == n && r.node.parent == n
      && n !in Nodes(l) && n !in Nodes(r) && Nodes(l) !! Nodes(r)
      && Linked(l) && Linked(r)
  }

  /** The values in the nodes. */
  ghost function Values(s: Shape): (t: Tree<Digest>)
    reads Nodes(s)`value
    ensures t.value == s.node.value
  {
    match s
    case SLeaf(n) => Leaf(n.value)
    case SBranch(n, l, r) => Branch(n.value, Values(l), Values(r))
  }

  /** The nodes from the top to leaf `i`. */
  ghost function Path(s: Shape, i: nat): (p: seq<Node>)
    requires i < |LeavesOf(s)|
    ensures p != [] && p[0] == s.node
  {
    match s
    case SLeaf(n) => [n]
    case SBranch(n, l, r) =>
      [n] + (if i < |LeavesOf(l)| then Path(l, i) else Path(r, i - |LeavesOf(l)|))
  }

  ghost predicate Distinct(leaves: seq<Node>) {
    forall i, j | 0 <= i < j < |leaves| :: leaves[i] != leaves[j]
  }

  lemma {:induction false} CountLeaves(s: Shape)
    ensures Count(Values(s)) == |LeavesOf(s)|
  {
    match s {
      case SLeaf(_) =>
      case SBranch(_, l, r) => CountLeaves(l); CountLeaves(r);
    }
  }

  lemma {:induction false} PathFacts(s: Shape, i: nat)
    requires i < |LeavesOf(s)|
    ensures Path(s, i)[|Path(s, i)| - 1] == LeavesOf(s)[i]
    ensures forall n :: n in Path(s, i) ==> n in Nodes(s)
    ensures Count(Values(s)) == |LeavesOf(s)| && |Path(s, i)| == Depth(Values(s), i) + 1
  {
    CountLeaves(s);
    match s {
      case SLeaf(_) =>
      case SBranch(_, l, r) =>
        CountLeaves(l);
        if i < |LeavesOf(l)| { PathFacts(l, i); } else { PathFacts(r, i - |LeavesOf(l)|); }
    }
  }

  lemma {:induction false} LeafInNodes(s: Shape, i: nat)
    requires i < |LeavesOf(s)|
    ensures LeavesOf(s)[i] in Nodes(s)
  {
    match s {
      case SLeaf(_) =>
      case SBranch(_, l, r) =>
        if i < |LeavesOf(l)| { LeafInNodes(l, i); } else { LeafInNodes(r, i - |LeavesOf(l)|); }
    }
  }

  /** Walking up: each node on the path is the parent of the next, and the inner ones have both children. */
  lemma {:induction false} PathParent(s: Shape, i: nat, j: nat)
    requires Linked(s) && i < |LeavesOf(s)| && j + 1 < |Path(s, i)|
    ensures Path(s, i)[j + 1].parent == Path(s, i)[j]
    ensures Path(s, i)[j].left != null && Path(s, i)[j].right != null
  {
    match s {
      case SLeaf(_) =>
      case SBranch(_, l, r) =>
        if j > 0 {
          if i < |LeavesOf(l)| { PathParent(l, i, j - 1); } else { PathParent(r, i - |LeavesOf(l)|, j - 1); }
        }
    }
  }

  // ---------------------------------------------------------------- recomputing along a path

  type Store = map<Node, Digest>

  /** The values of a set of nodes at one moment. */
  ghost function Stored(S: set<Node>): (m: Store)
    reads S`value
    ensures m.Keys == S
  {
    map n | n in S :: n.value
  }

  ghost function ValuesIn(s: Shape, m: Store): (t: Tree<Digest>)
    requires Nodes(s) <= m.Keys
    ensures t.value == m[s.node]
  {
    match s
    case SLeaf(n) => Leaf(m[n])
    case SBranch(n, l, r) => Branch(m[n], ValuesIn(l, m), ValuesIn(r, m))
  }

  lemma {:induction false} ValuesAreStored(s: Shape, S: set<Node>)
    requires Nodes(s) <= S
    ensures Values(s) == ValuesIn(s, Stored(S))
  {
    match s {
      case SLeaf(_) =>
      case SBranch(_, l, r) => ValuesAreStored(l, S); ValuesAreStored(r, S);
    }
  }

  lemma {:induction false} ValuesElsewhere(s: Shape, m: Store, n: Node, x: Digest)
    requires Nodes(s) <= m.Keys && n !in Nodes(s)
    ensures ValuesIn(s, m[n := x]) == ValuesIn(s, m)
  {
    match s {
      case SLeaf(_) =>
      case SBranch(_, l, r) => ValuesElsewhere(l, m, n, x); ValuesElsewhere(r, m, n, x);
    }
  }

  /** Writing a leaf. */
  lemma {:induction false} LeafWritten(s: Shape, m: Store, i: nat, x: Digest)
    requires Linked(s) && Nodes(s) <= m.Keys && i < |LeavesOf(s)| == Count(ValuesIn(s, m))
    ensures ValuesIn(s, m[LeavesOf(s)[i] := x]) == SetLeaf(ValuesIn(s, m), i, x)
  {
    LeafInNodes(s, i);
    match s {
      case SLeaf(_) =>
      case SBranch(_, l, r) =>
        CountIn(l, m);
        var k := |LeavesOf(l)|;
        if i < k {
          LeafInNodes(l, i);
          LeafWritten(l, m, i, x);
          ValuesElsewhere(r, m, LeavesOf(l)[i], x);
        } else {
          LeafInNodes(r, i - k);
          LeafWritten(r, m, i - k, x);
          ValuesElsewhere(l, m, LeavesOf(r)[i - k], x);
        }
    }
  }

  lemma {:induction false} CountIn(s: Shape, m: Store)
    requires Nodes(s) <= m.Keys
    ensures Count(ValuesIn(s, m)) == |LeavesOf(s)|
  {
    match s {
      case SLeaf(_) =>
      case SBranch(_, l, r) => CountIn(l, m); CountIn(r, m);
    }
  }

  /** Recomputing the top node when everything below it is done. */
  lemma RecomputeTop(sha: Hash, s: Shape, m: Store, i: nat, t: Tree<Digest>)
    requires Linked(s) && s.SBranch? && Nodes(s) <= m.Keys && i < Count(t)
    requires ValuesIn(s, m) == Rehash(Tagged(sha), t, i, 1)
    ensures ValuesIn(s, m[s.node := Combine(sha, m[s.left.node], m[s.right.node])]) == Rehash(Tagged(sha), t, i, 0)
  {
    var x := Combine(sha, m[s.left.node], m[s.right.node]);
    ValuesElsewhere(s.left, m, s.node, x);
    ValuesElsewhere(s.right, m, s.node, x);
  }

  /** A change below the left (or right) child, seen from the node above. */
  lemma RecomputeLeft(h: Hasher<Digest>, s: Shape, m: Store, i: nat, j: nat, t: Tree<Digest>, p: Node, x: Digest)
    requires Linked(s) && s.SBranch? && Nodes(s) <= m.Keys && p in Nodes(s.left)
    requires i < Count(t) && j >= 2 && ValuesIn(s, m) == Rehash(h, t, i, j) && i < Count(t.left)
    requires ValuesIn(s.left, m[p := x]) == Rehash(h, t.left, i, j - 2)
    ensures ValuesIn(s, m[p := x]) == Rehash(h, t, i, j - 1)
  {
    ValuesElsewhere(s.right, m, p, x);
  }

  lemma RecomputeRight(h: Hasher<Digest>, s: Shape, m: Store, i: nat, j: nat, t: Tree<Digest>, p: Node, x: Digest)
    requires Linked(s) && s.SBranch? && Nodes(s) <= m.Keys && p in Nodes(s.right)
    requires i < Count(t) && j >= 2 && ValuesIn(s, m) == Rehash(h, t, i, j) && i >= Count(t.left)
    requires ValuesIn(s.right, m[p := x]) == Rehash(h, t.right, i - Count(t.left), j - 2)
    ensures ValuesIn(s, m[p := x]) == Rehash(h, t, i, j - 1)
  {
    ValuesElsewhere(s.left, m, p, x);
  }

  /** Recomputing `p`, one more node on the path to leaf `i`. */
  lemma {:induction false} RecomputeStep(sha: Hash, s: Shape, m: Store, i: nat, j: nat, t: Tree<Digest>, p: Node)
    requires Linked(s) && Nodes(s) <= m.Keys
    requires i < |LeavesOf(s)| == Count(t) && 1 <= j < |Path(s, i)| && p == Path(s, i)[j - 1]
    requires ValuesIn(s, m) == Rehash(Tagged(sha), t, i, j)
    ensures p in Nodes(s) && p.left != null && p.right != null && p.left in m && p.right in m
    ensures ValuesIn(s, m[p := Combine(sha, m[p.left], m[p.right])]) == Rehash(Tagged(sha), t, i, j - 1)
  {
    if j == 1 {
      RecomputeTop(sha, s, m, i, t);
    } else {
      var h, l, r, k := Tagged(sha), s.left, s.right, |LeavesOf(s.left)|;
      CountIn(l, m);
      RehashCount(h, t, i, j);
      if i < k {
        RecomputeStep(sha, l, m, i, j - 1, t.left, p);
        RecomputeLeft(h, s, m, i, j, t, p, Combine(sha, m[p.left], m[p.right]));
      } else {
        RecomputeStep(sha, r, m, i - k, j - 1, t.right, p);
        RecomputeRight(h, s, m, i, j, t, p, Combine(sha, m[p.left], m[p.right]));
      }
    }
  }

  // ---------------------------------------------------------------- building

  /** The leaves are childless and hold `vs`. */
  ghost predicate FreshLeaves(leaves: seq<Node>, vs: seq<Digest>)
    requires |leaves| == |vs|
    reads leaves`left, leaves`right, leaves`value
  {
    forall i | 0 <= i < |leaves| ::
      leaves[i].left == null && leaves[i].right == null && leaves[i].value == vs[i]
  }

  method SetParent(n: Node, p: Node, ghost s: Shape)
    requires Linked(s) && s.node == n
    modifies n`parent
    ensures n.parent == p && Linked(s)
  {
    n.parent := p;
  }

  /** Puts a new node on top of two trees with node sets `L` and `R`. */
  method Join(sha: Hash, l: Node, r: Node, ghost sl: Shape, ghost sr: Shape, ghost L: set<Node>, ghost R: set<Node>)
    returns (root: Node)
    requires L == Nodes(sl) && R == Nodes(sr) && L !! R
    requires Linked(sl) && Linked(sr) && sl.node == l && sr.node == r
    modifies l`parent, r`parent
    ensures fresh(root) && root.parent == null
    ensures Linked(SBranch(root, sl, sr))
    ensures Values(SBranch(root, sl, sr)) == Branch(Combine(sha, old(l.value), old(r.value)), old(Values(sl)), old(Values(sr)))
  {
    root := new Node(l, r, null, NIL);
    assert root !in L && root !in R;
    root.RecomputeValue(sha);
    SetParent(l, root, sl);
    SetParent(r, root, sr);
  }

  /** `part` is the run of `leaves` that starts at `begin`. */
  ghost predicate IsPart(part: seq<Node>, leaves: seq<Node>, begin: nat) {
    begin + |part| <= |leaves| && forall i | 0 <= i < |part| :: part[i] == leaves[begin + i]
  }

  lemma Halves(part: seq<Node>, vs: seq<Digest>, leaves: seq<Node>, begin: nat, k: nat)
    returns (a: seq<Node>, b: seq<Node>)
    requires |part| == |vs| && k <= |part| && Distinct(part) && FreshLeaves(part, vs) && IsPart(part, leaves, begin)
    ensures |a| == k && |b| == |part| - k && part == a + b
    ensures Distinct(a) && FreshLeaves(a, vs[..k]) && IsPart(a, leaves, begin)
    ensures Distinct(b) && FreshLeaves(b, vs[k..]) && IsPart(b, leaves, begin + k)
    ensures forall n | n in a :: n in part && n !in b
    ensures forall n | n in b :: n in part
  {
    a, b := part[..k], part[k..];
  }

  /** The run of leaves is `part` and holds the values `vs`; the nodes of the tree are `S`. */
  method MakeTree(sha: Hash, leaves: seq<Node>, begin: nat, size: nat, ghost part: seq<Node>, ghost vs: seq<Digest>)
    returns (root: Node, ghost s: Shape, ghost S: set<Node>)
    requires |part| == |vs| == size > 0 && Distinct(part) && FreshLeaves(part, vs) && IsPart(part, leaves, begin)
    modifies part`parent
    ensures s.node == root && LeavesOf(s) == part && Linked(s) && Values(s) == Build(Tagged(sha), vs)
    ensures S == Nodes(s) && forall n | n in S :: n in part || fresh(n)
    ensures size == 1 ==> s == SLeaf(part[0]) && root.parent == old(part[0].parent)
    ensures size > 1 ==> root.parent == null
    decreases size, 1
  {
    if size == 1 {
      assert part[0] == leaves[begin];
      return leaves[begin], SLeaf(leaves[begin]), {leaves[begin]};
    }
    var k := LargestPowerOf2LessThan(size);
    ghost var sl, sr, L, R;
    var l, r;
    l, r, sl, sr, L, R := MakeHalves(sha, leaves, begin, size, k, part, vs);
    assert l in L + R && r in L + R;
    root := Join(sha, l, r, sl, sr, L, R);
    s, S := SBranch(root, sl, sr), {root} + L + R;
    BuildSplit(Tagged(sha), vs, size, k);
  }

  /** The two recursive calls of MakeTree. */
  method MakeHalves(sha: Hash, leaves: seq<Node>, begin: nat, size: nat, k: nat, ghost part: seq<Node>, ghost vs: seq<Digest>)
    returns (l: Node, r: Node, ghost sl: Shape, ghost sr: Shape, ghost L: set<Node>, ghost R: set<Node>)
    requires |part| == |vs| == size && 0 < k < size
    requires Distinct(part) && FreshLeaves(part, vs) && IsPart(part, leaves, begin)
    modifies part`parent
    ensures sl.node == l && sr.node == r && LeavesOf(sl) + LeavesOf(sr) == part && Linked(sl) && Linked(sr)
    ensures Values(sl) == Build(Tagged(sha), vs[..k]) && Values(sr) == Build(Tagged(sha), vs[k..])
    ensures L == Nodes(sl) && R == Nodes(sr) && L !! R
    ensures forall n | n in L + R :: n in part || fresh(n)
    decreases size, 0
  {
    hide Linked, Values, Build, Nodes, LeavesOf;
    ghost var a, b := Halves(part, vs, leaves, begin, k);
    l, sl, L := MakeTree(sha, leaves, begin, k, a, vs[..k]);
    assert forall n | n in b :: n !in L;
    r, sr, R := MakeTree(sha, leaves, begin + k, size - k, b, vs[k..]);
  }

  // ---------------------------------------------------------------- reading

  lemma {:induction false} LeafValue(s: Shape, i: nat)
    requires i < |LeavesOf(s)|
    ensures Count(Values(s)) == |LeavesOf(s)| && LeavesOf(s)[i].value == LeafAt(Values(s), i)
  {
    CountLeaves(s);
    match s {
      case SLeaf(_) =>
      case SBranch(_, l, r) =>
        CountLeaves(l);
        if i < |LeavesOf(l)| { LeafValue(l, i); } else { LeafValue(r, i - |LeavesOf(l)|); }
    }
  }

  /** The half of the tree that holds leaf `i`, and the index of the leaf in it. */
  lemma HalfWith(s: Shape, i: nat) returns (u: Shape, v: nat)
    requires s.SBranch? && Linked(s) && i < |LeavesOf(s)| == Count(Values(s))
    ensures u == s.left || u == s.right
    ensures v < |LeavesOf(u)| == Count(Values(u)) && Linked(u) && Path(s, i) == [s.node] + Path(u, v)
    ensures |Path(u, v)| == Depth(Values(u), v) + 1 && Depth(Values(s), i) == Depth(Values(u), v) + 1
    ensures Siblings(Values(s), i) ==
            Siblings(Values(u), v) + [(if u == s.left then s.right else s.left).node.value]
  {
    CountLeaves(s.left);
    if i < |LeavesOf(s.left)| {
      u, v := s.left, i;
    } else {
      u, v := s.right, i - |LeavesOf(s.left)|;
    }
    PathFacts(u, v);
    assert s.left.node in Nodes(s.left) && s.right.node in Nodes(s.right);
  }

  /** `x` is the value of the sibling of `q`, the node below `p` on the path to leaf `i`. */
  lemma {:induction false} PathSibling(s: Shape, i: nat, c: nat, p: Node, q: Node, x: Digest)
    requires Linked(s) && i < |LeavesOf(s)| == Count(Values(s)) && c + 1 < |Path(s, i)| == Depth(Values(s), i) + 1
    requires p == Path(s, i)[c] && q == Path(s, i)[c + 1] && x == Siblings(Values(s), i)[Depth(Values(s), i) - 1 - c]
    ensures q.parent == p && p.left != null && p.right != null && p.left in Nodes(s) && p.right in Nodes(s)
    ensures (q == p.left && x == p.right.value) || (q != p.left && q == p.right && x == p.left.value)
  {
    var u, v := HalfWith(s, i);
    if c > 0 {
      PathSibling(u, v, c - 1, p, q, x);
    }
  }

  method MakeLeaves(elements: seq<Digest>) returns (ls: seq<Node>)
    ensures |ls| == |elements| && Distinct(ls) && FreshLeaves(ls, elements)
    ensures forall i | 0 <= i < |ls| :: fresh(ls[i]) && ls[i].parent == null
  {
    ls := [];
    for i := 0 to |elements|
      invariant |ls| == i && Distinct(ls)
      invariant forall j | 0 <= j < i :: fresh(ls[j]) && ls[j].left == null && ls[j].right == null
      invariant forall j | 0 <= j < i :: ls[j].parent == null && ls[j].value == elements[j]
    {
      var n := new Node(null, null, null, elements[i]);
      ls := ls + [n];
    }
  }

  // ---------------------------------------------------------------- fixing up

  /** Recomputes `node`, the `j`-th on the path to leaf `i` of a tree with nodes `S`, and everything above it. */
  method FixUp(sha: Hash, node: Node?, ghost s: Shape, ghost S: set<Node>, ghost i: nat, ghost j: nat, ghost t: Tree<Digest>)
    requires S == Nodes(s) && Linked(s) && s.node.parent == null
    requires i < |LeavesOf(s)| == Count(t) && j < |Path(s, i)|
    requires node == if j == 0 then null else Path(s, i)[j - 1]
    requires Values(s) == Rehash(Tagged(sha), t, i, j)
    modifies S`value
    ensures Values(s) == Rehash(Tagged(sha), t, i, 0)
  {
    var n := node;
    ghost var c: nat := j;
    while n != null
      invariant c < |Path(s, i)| && Linked(s)
      invariant n == if c == 0 then null else Path(s, i)[c - 1]
      invariant Values(s) == Rehash(Tagged(sha), t, i, c)
      decreases c
    {
      ghost var m := Stored(S);
      ValuesAreStored(s, S);
      RecomputeStep(sha, s, m, i, c, t, n);
      n.RecomputeValue(sha);
      assert Stored(S) == m[n := n.value];
      ValuesAreStored(s, S);
      if c >= 2 { PathParent(s, i, c - 2); }
      n := n.parent;
      c := c - 1;
    }
  }

  /** Overwrites leaf `i`. */
  method WriteLeaf(leaf: Node, x: Digest, ghost s: Shape, ghost S: set<Node>, ghost i: nat)
    requires S == Nodes(s) && Linked(s) && i < |LeavesOf(s)| == Count(Values(s)) && leaf == LeavesOf(s)[i]
    modifies S`value
    ensures Values(s) == SetLeaf(old(Values(s)), i, x)
  {
    ghost var m := Stored(S);
    LeafInNodes(s, i);
    ValuesAreStored(s, S);
    LeafWritten(s, m, i, x);
    leaf.value := x;
    assert Stored(S) == m[leaf := x];
    ValuesAreStored(s, S);
  }

  /** Changes leaf `i` of the tree over `vs` and recomputes what is above it. */
  method SetLeafIn(sha: Hash, leaf: Node, x: Digest, ghost s: Shape, ghost S: set<Node>, ghost i: nat, ghost vs: seq<Digest>)
    requires S == Nodes(s) && Linked(s) && s.node.parent == null
    requires i < |LeavesOf(s)| == |vs| && leaf == LeavesOf(s)[i] && Values(s) == Build(Tagged(sha), vs)
    modifies S`value
    ensures Values(s) == Build(Tagged(sha), vs[i := x])
  {
    SetIsRebuild(Tagged(sha), vs, i, x);
    ghost var t := SetLeaf(Values(s), i, x);
    ghost var j := |Path(s, i)| - 1;
    WriteLeaf(leaf, x, s, S, i);
    PathFacts(s, i);
    RehashNone(Tagged(sha), t, i);
    if j > 0 { PathParent(s, i, j - 1); }
    FixUp(sha, leaf.parent, s, S, i, j, t);
  }

  // ---------------------------------------------------------------- appending

  lemma BranchShape(s: Shape, h: Hasher<Digest>, vs: seq<Digest>)
    requires Linked(s) && |vs| > 1 && Values(s) == Build(h, vs)
    ensures s.SBranch? && s.node.right == s.right.node
    ensures Values(s.left) == Build(h, vs[..Split(|vs|)]) && Values(s.right) == Build(h, vs[Split(|vs|)..])
  {}

  /** Puts `leaf` beside the whole tree, below a new root. */
  method AttachAtRoot(cur: Node, leaf: Node, ghost s: Shape, ghost S: set<Node>)
    returns (n: Node, ghost s': Shape)
    requires S == Nodes(s) && Linked(s) && s.node == cur && cur.parent == null
    requires leaf !in S && leaf.left == null && leaf.right == null
    modifies cur`parent, leaf`parent
    ensures fresh(n) && n.parent == null && s' == SBranch(n, s, SLeaf(leaf)) && Linked(s')
    ensures Values(s') == Branch(NIL, old(Values(s)), Leaf(leaf.value))
  {
    n := new Node(cur, leaf, cur.parent, NIL);
    SetParent(cur, n, s);
    SetParent(leaf, n, SLeaf(leaf));
    s' := SBranch(n, s, SLeaf(leaf));
  }

  lemma GrownRight(s: Shape, n: Node, leaf: Node) returns (s': Shape)
    requires s.SBranch?
    ensures s' == SBranch(s.node, s.left, SBranch(n, s.right, SLeaf(leaf)))
    ensures LeavesOf(s') == LeavesOf(s) + [leaf] && Nodes(s') == {n, leaf} + Nodes(s)
    ensures Path(s', |LeavesOf(s)|) == [s.node, n, leaf]
  {
    var r := SBranch(n, s.right, SLeaf(leaf));
    s' := SBranch(s.node, s.left, r);
    assert LeavesOf(r) == LeavesOf(s.right) + [leaf] && Nodes(r) == {n, leaf} + Nodes(s.right);
    assert Path(r, |LeavesOf(s.right)|) == [n, leaf];
  }

  /** Puts `leaf` beside the right subtree, below a new right child of the root. */
  method AttachAtRight(cur: Node, leaf: Node, ghost s: Shape, ghost S: set<Node>)
    returns (n: Node, ghost s': Shape)
    requires S == Nodes(s) && s.SBranch? && Linked(s) && s.right.node == cur
    requires leaf !in S && leaf.left == null && leaf.right == null
    modifies s.node`right, cur`parent, leaf`parent
    ensures fresh(n) && n.parent == s.node
    ensures Linked(s') && LeavesOf(s') == LeavesOf(s) + [leaf] && Nodes(s') == {n, leaf} + Nodes(s)
    ensures s'.node == s.node && Path(s', |LeavesOf(s)|) == [s.node, n, leaf]
    ensures Values(s') == Branch(s.node.value, old(Values(s.left)), Branch(NIL, old(Values(s.right)), Leaf(leaf.value)))
  {
    n := new Node(cur, leaf, cur.parent, NIL);
    assert cur.parent.right == cur;
    cur.parent.right := n;
    SetParent(cur, n, s.right);
    SetParent(leaf, n, SLeaf(leaf));
    assert Values(SBranch(n, s.right, SLeaf(leaf))) == Branch(NIL, old(Values(s.right)), Leaf(leaf.value));
    s' := GrownRight(s, n, leaf);
  }

  /** fix_up on a node right above the last leaf: the whole tree is recomputed along that path. */
  method FixUpAboveLast(sha: Hash, n: Node, ghost s: Shape, ghost S: set<Node>, ghost i: nat, ghost j: nat)
    requires S == Nodes(s) && Linked(s) && s.node.parent == null
    requires |LeavesOf(s)| == i + 1 && j + 1 == |Path(s, i)| && j > 0 && n == Path(s, i)[j - 1]
    modifies S`value
    ensures Linked(s)
    ensures Count(old(Values(s))) == i + 1 && Values(s) == Rehash(Tagged(sha), old(Values(s)), i, 0)
  {
    PathFacts(s, i);
    RehashNone(Tagged(sha), Values(s), i);
    FixUp(sha, n, s, S, i, j, Values(s));
  }

  /** add: the new leaf goes beside a complete tree. */
  method GrowAtRoot(sha: Hash, cur: Node, leaf: Node, ghost s: Shape, ghost S: set<Node>, ghost vs: seq<Digest>)
    returns (n: Node, ghost s': Shape, ghost S': set<Node>)
    requires S == Nodes(s) && Linked(s) && s.node == cur && cur.parent == null
    requires leaf !in S && leaf.left == null && leaf.right == null
    requires |LeavesOf(s)| == |vs| && IsPowerOf2(|vs|) && Values(s) == Build(Tagged(sha), vs)
    modifies S`value, cur`parent, leaf`parent, leaf`value
    ensures S' == Nodes(s') == {n, leaf} + S && fresh(n) && s'.node == n && n.parent == null && Linked(s')
    ensures LeavesOf(s') == LeavesOf(s) + [leaf] && Values(s') == Build(Tagged(sha), vs + [old(leaf.value)])
  {
    ghost var x := leaf.value;
    n, s' := AttachAtRoot(cur, leaf, s, S);
    S' := {n, leaf} + S;
    FixUpAboveLast(sha, n, s', S', |vs|, 1);
    AppendComplete(Tagged(sha), vs, x, NIL);
  }

  /** add: the new leaf goes beside the complete right subtree. */
  method GrowAtRight(sha: Hash, cur: Node, leaf: Node, ghost s: Shape, ghost S: set<Node>, ghost vs: seq<Digest>)
    returns (n: Node, ghost s': Shape, ghost S': set<Node>)
    requires S == Nodes(s) && s.SBranch? && Linked(s) && s.right.node == cur && s.node.parent == null
    requires leaf !in S && leaf.left == null && leaf.right == null
    requires |LeavesOf(s)| == |vs| > 1 && Values(s) == Build(Tagged(sha), vs)
    requires IsPowerOf2(|vs| - Split(|vs|)) && |vs| - Split(|vs|) < Split(|vs|)
    modifies S`value, s.node`right, cur`parent, leaf`parent, leaf`value
    ensures S' == Nodes(s') == {n, leaf} + S && fresh(n) && s'.node == s.node && s.node.parent == null && Linked(s')
    ensures LeavesOf(s') == LeavesOf(s) + [leaf] && Values(s') == Build(Tagged(sha), vs + [old(leaf.value)])
  {
    hide Build, Split, IsPowerOf2, Tagged;
    AppendRight(Tagged(sha), vs, leaf.value, NIL, s.node.value);
    BranchShape(s, Tagged(sha), vs);
    n, s' := AttachAtRight(cur, leaf, s, S);
    S' := {n, leaf} + S;
    FixUpAboveLast(sha, n, s', S', |vs|, 2);
  }

  /** The loop of prove_leaf. */
  method WalkUp(leaf: Node, ghost s: Shape, ghost S: set<Node>, ghost i: nat) returns (proof: seq<Digest>)
    requires S == Nodes(s) && Linked(s) && s.node.parent == null
    requires i < |LeavesOf(s)| == Count(Values(s)) && leaf == LeavesOf(s)[i]
    ensures proof == Siblings(Values(s), i)
  {
    PathFacts(s, i);
    ghost var path, all, d := Path(s, i), Siblings(Values(s), i), Depth(Values(s), i);
    ghost var c: nat := d;
    var node := leaf;
    proof := [];
    while node.parent != null
      invariant c <= d && node == path[c] && proof == all[..d - c]
      decreases c
    {
      PathSibling(s, i, c - 1, path[c - 1], node, all[d - c]);
      var sibling := node.Sibling();
      proof := proof + [sibling.value.value];
      node := node.parent;
      c := c - 1;
    }
    if c > 0 { PathParent(s, i, c - 1); }
  }

  // ---------------------------------------------------------------- the tree

  class MerkleTree {
    const sha: Hash
    var leaves: seq<Node>
    var rootNode: Node?
    var depth: Option<nat>
    ghost var values: seq<Digest>     // the values of the leaves
    ghost var shape: Option<Shape>    // the skeleton of a non-empty tree
    ghost var nodes: set<Node>

    /** The tree is, pointer for pointer and value for value, the one a fresh build over `values` makes. */
    ghost predicate Valid()
      reads this, nodes
    {
      && |leaves| == |values|
      && (leaves == [] ==> rootNode == null && depth == None && shape == None && nodes == {})
      && (leaves != [] ==>
            && shape.Some? && nodes == Nodes(shape.value) && LeavesOf(shape.value) == leaves
            && Linked(shape.value) && rootNode == shape.value.node && shape.value.node.parent == null
            && depth.Some? && IsCeilLog(|values|, depth.value)
            && Values(shape.value) == Build(Tagged(sha), values))
    }

    function Root(): (r: Digest)
      reads this, rootNode
    {
      if rootNode == null then NIL else rootNode.value
    }

    lemma RootIsMerkleRoot()
      requires Valid()
      ensures Root() == MerkleRoot(sha, values)
    {}

    constructor (sha: Hash, elements: seq<Digest>)
      ensures Valid() && fresh(nodes) && this.sha == sha && values == elements
    {
      this.sha := sha;
      values := elements;
      var ls := MakeLeaves(elements);
      leaves := ls;
      if |ls| > 0 {
        var root;
        ghost var s, S;
        root, s, S := MakeTree(sha, ls, 0, |ls|, ls, elements);
        var d := CeilLg(|ls|);
        CeilLogBounds(|ls|);
        rootNode, depth, shape, nodes := root, Some(d), Some(s), S;
      } else {
        rootNode, depth, shape, nodes := null, None, None, {};
      }
    }
  
    /** `set(index, x)` below the current length. */
    method SetExisting(index: nat, x: Digest)
      requires Valid() && index < |leaves|
      modifies nodes`value, this`values
      ensures Valid() && values == old(values)[index := x]
    {
      SetLeafIn(sha, leaves[index], x, shape.value, nodes, index, values);
      values := values[index := x];
    }
  
    /** The walk of `add` to the node the new leaf goes beside. Halving `ltree_size` makes it a
        float, the next subtraction makes `cur_root_size` one, and the power-of-two test rejects that. */
    method FindSpot() returns (r: Result<Node>)
      requires Valid() && leaves != []
      ensures r.Ok? <==> PopCount(|leaves|) <= 2
      ensures IsPowerOf2(|leaves|) ==> r == Ok(shape.value.node)
      ensures r.Ok? && !IsPowerOf2(|leaves|) ==>
                && shape.value.SBranch? && r == Ok(shape.value.right.node)
                && IsPowerOf2(|leaves| - Split(|leaves|)) && |leaves| - Split(|leaves|) < Split(|leaves|)
    {
      ghost var n, s := |leaves|, shape.value;
      PopCountPower(n);
      var cur: Node := rootNode;
      var size: int := |leaves|;
      var ltree: int := if depth.value == 0 then 0 else Shl(1, depth.value - 1);
      var sizeIsFloat, ltreeIsFloat := false, false;
      if !IsPowerOf2(n) {
        assert Pow2(0) == 1 && Pow2(1) == 2;
        PopCountSplit(n);
        PopCountPower(n - Split(n));
        CeilLogUnique(n, depth.value);
        SplitIsPow2CeilLog(n);
        assert ltree == Split(n);
      }
      ghost var steps := 0;
      while true
        invariant 0 <= steps <= 2
        invariant steps == 0 ==> cur == s.node && size == n && !sizeIsFloat && !ltreeIsFloat
        invariant steps == 0 ==> (!IsPowerOf2(n) ==> ltree == Split(n))
        invariant steps >= 1 ==> !IsPowerOf2(n) && s.SBranch?
        invariant steps == 1 ==> cur == s.right.node && size == n - Split(n) && !sizeIsFloat && ltreeIsFloat
        invariant steps == 2 ==> PopCount(n) > 2 && sizeIsFloat
        decreases 3 - steps
      {
        if size < 1 {
          return Err(AssertionError);
        }
        if sizeIsFloat {
          return Err(TypeError);
        }
        if PowerOf2Test(size) {
          return Ok(cur);
        }
        BranchShape(s, Tagged(sha), values);
        if steps == 1 { BranchShape(s.right, Tagged(sha), values[Split(n)..]); }
        cur := cur.right;
        size := size - ltree;
        sizeIsFloat := ltreeIsFloat;
        ltree := ltree / 2;
        ltreeIsFloat := true;
        steps := steps + 1;
      }
    }
    
    /** Appends a leaf. With at most two bits set in the old size this is a rebuild over the longer list;
        with three or more the walk fails after the leaf list has grown, and the tree is left broken. */
    method Add(x: Bytes) returns (r: Result<()>)
      requires Valid()
      modifies this, nodes
      ensures |x| != 32 ==> r == Err(ValueError) && unchanged(this) && unchanged(old(nodes))
      ensures |x| == 32 && PopCount(|old(values)|) <= 2 ==>
                r.Ok? && Valid() && values == old(values) + [x] && fresh(nodes - old(nodes))
      ensures |x| == 32 && PopCount(|old(values)|) > 2 ==>
                && r.Err? && !Valid() && unchanged(old(nodes))
                && |leaves| == |old(leaves)| + 1 && leaves[..|old(leaves)|] == old(leaves)
                && rootNode == old(rootNode) && depth == old(depth) && values == old(values)
    {
      if |x| != 32 {
        return Err(ValueError);
      }
      var d: Digest := x;
      var leaf := new Node(null, null, null, d);
      if |leaves| == 0 {
        leaves, rootNode, depth := [leaf], leaf, Some(0);
        values, shape, nodes := [d], Some(SLeaf(leaf)), {leaf};
        return Ok(());
      }
      var spot := FindSpot();
      if spot.Err? {
        leaves := leaves + [leaf];
        return Err(spot.error);
      }
      var cur := spot.value;
      if cur.parent == null {
        AddAtRoot(cur, leaf);
      } else {
        AddAtRight(cur, leaf);
      }
      r := Ok(());
    }

    /** Makes a non-empty tree the contents of this object. */
    method Install(ls: seq<Node>, root: Node, d: nat, ghost vs: seq<Digest>, ghost s: Shape, ghost S: set<Node>)
      requires |vs| > 0 && |ls| == |vs| && IsCeilLog(|vs|, d)
      requires S == Nodes(s) && LeavesOf(s) == ls && Linked(s) && root == s.node && root.parent == null
      requires Values(s) == Build(Tagged(sha), vs)
      modifies this
      ensures Valid() && values == vs && nodes == S
    {
      hide Build, Linked, Nodes, LeavesOf, Values, IsCeilLog;
      leaves, rootNode, depth, values, shape, nodes := ls, root, Some(d), vs, Some(s), S;
    }

    method AddAtRoot(cur: Node, leaf: Node)
      requires Valid() && leaves != [] && cur == rootNode && IsPowerOf2(|leaves|)
      requires leaf !in nodes && leaf.left == null && leaf.right == null
      modifies this, nodes, leaf
      ensures Valid() && values == old(values) + [old(leaf.value)] && fresh(nodes - old(nodes) - {leaf})
    {
      ghost var s', S', x := shape.value, nodes, leaf.value;
      var n;
      CeilLogNext(|leaves|, depth.value);
      n, s', S' := GrowAtRoot(sha, cur, leaf, shape.value, nodes, values);
      Install(leaves + [leaf], n, depth.value + 1, values + [x], s', S');
    }

    method AddAtRight(cur: Node, leaf: Node)
      requires Valid() && |leaves| > 1 && shape.value.SBranch? && cur == shape.value.right.node
      requires IsPowerOf2(|leaves| - Split(|leaves|)) && |leaves| - Split(|leaves|) < Split(|leaves|)
      requires leaf !in nodes && leaf.left == null && leaf.right == null
      modifies this, nodes, leaf
      ensures Valid() && values == old(values) + [old(leaf.value)] && fresh(nodes - old(nodes) - {leaf})
    {
      ghost var s', S', x := shape.value, nodes, leaf.value;
      var n;
      CeilLogNext(|leaves|, depth.value);
      n, s', S' := GrowAtRight(sha, cur, leaf, shape.value, nodes, values);
      Install(leaves + [leaf], rootNode, depth.value, values + [x], s', S');
    }
  
    /** Changes the leaf at `index`, or appends when `index` is the current length. */
    method Set(index: int, x: Bytes) returns (r: Result<()>)
      requires Valid()
      modifies this, nodes
      ensures !(0 <= index <= |old(values)|) ==> r == Err(AssertionError) && unchanged(this) && unchanged(old(nodes))
      ensures 0 <= index <= |old(values)| && |x| != 32 ==>
                r == Err(ValueError) && unchanged(this) && unchanged(old(nodes))
      ensures 0 <= index < |old(values)| && |x| == 32 ==>
                && r.Ok? && Valid() && values == old(values)[index := x]
                && leaves == old(leaves) && nodes == old(nodes)
      ensures index == |old(values)| && |x| == 32 && PopCount(|old(values)|) <= 2 ==>
                r.Ok? && Valid() && values == old(values) + [x] && fresh(nodes - old(nodes))
      ensures index == |old(values)| && |x| == 32 && PopCount(|old(values)|) > 2 ==> r.Err? && !Valid()
    {
      if !(0 <= index <= |leaves|) {
        return Err(AssertionError);
      }
      if |x| != 32 {
        return Err(ValueError);
      }
      if index == |leaves| {
        r := Add(x);
      } else {
        SetExisting(index, x);
        r := Ok(());
      }
    }

    method Get(i: nat) returns (x: Digest)
      requires Valid() && i < |leaves|
      ensures x == values[i]
    {
      x := leaves[i].value;
      LeafValue(shape.value, i);
      BuildLeaf(Tagged(sha), values, i);
    }

    /** The index of the first leaf that holds `x`. */
    method LeafIndex(x: Bytes) returns (r: Result<nat>)
      requires Valid()
      ensures r.Ok? ==> r.value < |values| && values[r.value] == x && forall k | 0 <= k < r.value :: values[k] != x
      ensures r.Err? ==> r.error == ValueError && x !in values
    {
      var idx := 0;
      while idx < |leaves|
        invariant idx <= |leaves| && forall k | 0 <= k < idx :: values[k] != x
      {
        var v := Get(idx);
        if v == x {
          return Ok(idx);
        }
        idx := idx + 1;
      }
      r := Err(ValueError);
    }

    /** The sibling values from the leaf up to the root. */
    method ProveLeaf(index: nat) returns (proof: seq<Digest>)
      requires Valid() && index < |leaves|
      ensures proof == ProofOf(Tagged(sha), values, index)
    {
      BuildSiblings(Tagged(sha), values, index);
      proof := WalkUp(leaves[index], shape.value, nodes, index);
    }

    method Copy() returns (t: MerkleTree)
      requires Valid()
      ensures fresh(t) && fresh(t.nodes) && t.Valid() && t.sha == sha && t.values == values
    {
      var vs := [];
      for i := 0 to |leaves|
        invariant |vs| == i && forall k | 0 <= k < i :: vs[k] == values[k]
      {
        var v := Get(i);
        vs := vs + [v];
      }
      assert vs == values;
      t := new MerkleTree(sha, vs);
    }
  }
}
