/** The left-complete Merkle tree of a list of values, as a value. */
module MerkleSpec {
  import opened Python
  import opened Bits

  /** What gets hashed: an element (tag 0x00) or a pair of node values (tag 0x01). */
  datatype Input<D> = Element(bytes: Bytes) | Pair(left: D, right: D)

  type Hasher<!D> = Input<D> -> D

  datatype Tree<D> = Leaf(value: D) | Branch(value: D, left: Tree, right: Tree)

  /** The tree a fresh build over `vs` produces. */
  function Build<D>(h: Hasher<D>, vs: seq<D>): Tree<D>
    requires vs != []
  {
    if |vs| == 1 then Leaf(vs[0])
    else
      var l, r := Build(h, vs[..Split(|vs|)]), Build(h, vs[Split(|vs|)..]);
      Branch(h(Pair(l.value, r.value)), l, r)
  }

  function RootOf<D>(h: Hasher<D>, vs: seq<D>): D
    requires vs != []
  {
    Build(h, vs).value
  }

  lemma RootOfBranch<D>(h: Hasher<D>, vs: seq<D>)
    requires |vs| > 1
    ensures var k := Split(|vs|); RootOf(h, vs) == h(Pair(RootOf(h, vs[..k]), RootOf(h, vs[k..])))
  {}

  /** The sibling values met on the way from leaf `i` up to the root. */
  function ProofOf<D>(h: Hasher<D>, vs: seq<D>, i: nat): seq<D>
    requires i < |vs|
  {
    if |vs| == 1 then []
    else
      var k := Split(|vs|);
      if i < k then ProofOf(h, vs[..k], i) + [RootOf(h, vs[k..])]
      else ProofOf(h, vs[k..], i - k) + [RootOf(h, vs[..k])]
  }

  /** What a verifier computes from a leaf, its index, the number of leaves and a proof. */
  function RootFromProof<D>(h: Hasher<D>, n: nat, i: nat, leaf: D, proof: seq<D>): Option<D>
    requires i < n
    decreases n
  {
    if n == 1 then (if proof == [] then Some(leaf) else None)
    else if proof == [] then None
    else
      var k, top, rest := Split(n), proof[|proof| - 1], proof[..|proof| - 1];
      if i < k then
        match RootFromProof(h, k, i, leaf, rest)
        case None => None
        case Some(v) => Some(h(Pair(v, top)))
      else
        match RootFromProof(h, n - k, i - k, leaf, rest)
        case None => None
        case Some(v) => Some(h(Pair(top, v)))
  }

  /** One level of a proof, seen by the verifier. */
  lemma FollowProof<D>(h: Hasher<D>, n: nat, i: nat, leaf: D, rest: seq<D>, top: D, v: D)
    requires i < n && n > 1
    requires var k := Split(n);
             if i < k then RootFromProof(h, k, i, leaf, rest) == Some(v)
             else RootFromProof(h, n - k, i - k, leaf, rest) == Some(v)
    ensures RootFromProof(h, n, i, leaf, rest + [top]) == Some(h(if i < Split(n) then Pair(v, top) else Pair(top, v)))
  {
    var proof := rest + [top];
    assert proof[..|proof| - 1] == rest && proof[|proof| - 1] == top;
  }

  /** Membership proofs are complete: the verifier arrives at the root. */
  lemma {:induction false} ProofComplete<D>(h: Hasher<D>, vs: seq<D>, i: nat)
    requires i < |vs|
    ensures RootFromProof(h, |vs|, i, vs[i], ProofOf(h, vs, i)) == Some(RootOf(h, vs))
    decreases |vs|
  {
    hide RootOf, RootFromProof;
    if |vs| > 1 {
      var k := Split(|vs|);
      var l, r := RootOf(h, vs[..k]), RootOf(h, vs[k..]);
      RootOfBranch(h, vs);
      if i < k {
        ProofComplete(h, vs[..k], i);
        FollowProof(h, |vs|, i, vs[i], ProofOf(h, vs[..k], i), r, l);
      } else {
        ProofComplete(h, vs[k..], i - k);
        FollowProof(h, |vs|, i, vs[i], ProofOf(h, vs[k..], i - k), l, r);
      }
    } else {
      OneLeaf(h, vs, i);
    }
  }

  lemma OneLeaf<D>(h: Hasher<D>, vs: seq<D>, i: nat)
    requires |vs| == 1 && i == 0
    ensures RootFromProof(h, 1, i, vs[i], ProofOf(h, vs, i)) == Some(RootOf(h, vs))
  {}

  /** No proof is longer than the depth of the tree. */
  lemma {:induction false} ProofLength<D>(h: Hasher<D>, vs: seq<D>, i: nat)
    requires i < |vs|
    ensures |ProofOf(h, vs, i)| <= CeilLog(|vs|)
    decreases |vs|
  {
    if |vs| > 1 {
      var n, k := |vs|, Split(|vs|);
      CeilLogSplit(n);
      if i < k {
        ProofLength(h, vs[..k], i);
      } else {
        ProofLength(h, vs[k..], i - k);
        CeilLogMonotone(n - k, k);
      }
    }
  }

  // ------------------------------------------------------------ binding

  /** The pairs hashed while building the tree. */
  ghost function BuildInputs<D>(h: Hasher<D>, vs: seq<D>): set<Input<D>> {
    if |vs| <= 1 then {}
    else
      var k := Split(|vs|);
      {Pair(RootOf(h, vs[..k]), RootOf(h, vs[k..]))} + BuildInputs(h, vs[..k]) + BuildInputs(h, vs[k..])
  }

  /** Two different inputs, one from each set, with the same hash. */
  ghost predicate Collide<D>(h: Hasher<D>, s: set<Input<D>>, t: set<Input<D>>) {
    exists a, b :: a in s && b in t && a != b && h(a) == h(b)
  }

  lemma CollideMono<D>(h: Hasher<D>, s: set<Input<D>>, t: set<Input<D>>, s': set<Input<D>>, t': set<Input<D>>)
    requires s <= s' && t <= t' && Collide(h, s, t)
    ensures Collide(h, s', t')
  {}

  lemma SplitConcat<T>(xs: seq<T>, ys: seq<T>, i: nat, j: nat)
    requires i <= |xs| && j <= |ys| && xs[..i] == ys[..j] && xs[i..] == ys[j..]
    ensures xs == ys
  {
    assert xs == xs[..i] + xs[i..] && ys == ys[..j] + ys[j..];
  }

  /** The root binds the list: equal roots of equally long lists mean equal lists,
      unless the two computations themselves exhibit a hash collision. */
  lemma {:induction false} RootBinding<D>(h: Hasher<D>, vs: seq<D>, ws: seq<D>)
    requires |vs| == |ws| > 0 && RootOf(h, vs) == RootOf(h, ws)
    ensures vs == ws || Collide(h, BuildInputs(h, vs), BuildInputs(h, ws))
    decreases |vs|
  {
    if |vs| > 1 {
      var k := Split(|vs|);
      var S, T := BuildInputs(h, vs), BuildInputs(h, ws);
      var a, b := Pair(RootOf(h, vs[..k]), RootOf(h, vs[k..])), Pair(RootOf(h, ws[..k]), RootOf(h, ws[k..]));
      assert a in S && b in T;
      if a == b {
        RootBinding(h, vs[..k], ws[..k]);
        RootBinding(h, vs[k..], ws[k..]);
        if vs[..k] != ws[..k] {
          CollideMono(h, BuildInputs(h, vs[..k]), BuildInputs(h, ws[..k]), S, T);
        } else if vs[k..] != ws[k..] {
          CollideMono(h, BuildInputs(h, vs[k..]), BuildInputs(h, ws[k..]), S, T);
        } else {
          SplitConcat(vs, ws, k, k);
        }
      }
    }
  }

  function ElementHashes<D>(h: Hasher<D>, es: seq<Bytes>): (r: seq<D>)
    ensures |r| == |es|
    ensures forall i :: 0 <= i < |es| ==> r[i] == h(Element(es[i]))
  {
    seq(|es|, i requires 0 <= i < |es| => h(Element(es[i])))
  }

  lemma ElementHashesSlice<D>(h: Hasher<D>, es: seq<Bytes>, k: nat)
    requires k <= |es|
    ensures ElementHashes(h, es)[..k] == ElementHashes(h, es[..k])
    ensures ElementHashes(h, es)[k..] == ElementHashes(h, es[k..])
  {}

  /** Everything hashed while hashing the elements and building their tree. */
  ghost function ListInputs<D>(h: Hasher<D>, es: seq<Bytes>): set<Input<D>> {
    (set e | e in es :: Element(e)) + BuildInputs(h, ElementHashes(h, es))
  }

  ghost function ListRoot<D>(h: Hasher<D>, es: seq<Bytes>): D
    requires es != []
  {
    RootOf(h, ElementHashes(h, es))
  }

  lemma ListBranch<D>(h: Hasher<D>, es: seq<Bytes>) returns (left: seq<Bytes>, right: seq<Bytes>)
    requires |es| > 1
    ensures left != [] && right != [] && left + right == es && |left| == Split(|es|)
    ensures ListInputs(h, left) <= ListInputs(h, es) && ListInputs(h, right) <= ListInputs(h, es)
    ensures Pair(ListRoot(h, left), ListRoot(h, right)) in ListInputs(h, es)
    ensures ListRoot(h, es) == h(Pair(ListRoot(h, left), ListRoot(h, right)))
  {
    var k := Split(|es|);
    left, right := es[..k], es[k..];
    ElementHashesSlice(h, es, k);
  }

  /** For lists of hashed elements the root binds the length as well: the two tags keep leaves
      and inner nodes apart. */
  lemma {:induction false} ListRootBinding<D>(h: Hasher<D>, xs: seq<Bytes>, ys: seq<Bytes>)
    requires xs != [] && ys != [] && ListRoot(h, xs) == ListRoot(h, ys)
    ensures xs == ys || Collide(h, ListInputs(h, xs), ListInputs(h, ys))
    decreases |xs|
  {
    var S, T := ListInputs(h, xs), ListInputs(h, ys);
    if |xs| == 1 && |ys| == 1 {
      assert Element(xs[0]) in S && Element(ys[0]) in T;
    } else if |xs| == 1 {
      var c, d := ListBranch(h, ys);
      assert Element(xs[0]) in S;
    } else if |ys| == 1 {
      var a, b := ListBranch(h, xs);
      assert Element(ys[0]) in T;
    } else {
      var a, b := ListBranch(h, xs);
      var c, d := ListBranch(h, ys);
      if ListRoot(h, a) == ListRoot(h, c) && ListRoot(h, b) == ListRoot(h, d) {
        ListRootBinding(h, a, c);
        ListRootBinding(h, b, d);
        if a != c {
          CollideMono(h, ListInputs(h, a), ListInputs(h, c), S, T);
        } else if b != d {
          CollideMono(h, ListInputs(h, b), ListInputs(h, d), S, T);
        }
      }
    }
  }

  /** The pairs a verifier hashes while following a proof. */
  ghost function ProofInputs<D>(h: Hasher<D>, n: nat, i: nat, leaf: D, proof: seq<D>): set<Input<D>>
    requires i < n
    decreases n
  {
    if n == 1 || proof == [] then {}
    else
      var k, top, rest := Split(n), proof[|proof| - 1], proof[..|proof| - 1];
      if i < k then
        match RootFromProof(h, k, i, leaf, rest)
        case None => {}
        case Some(v) => {Pair(v, top)} + ProofInputs(h, k, i, leaf, rest)
      else
        match RootFromProof(h, n - k, i - k, leaf, rest)
        case None => {}
        case Some(v) => {Pair(top, v)} + ProofInputs(h, n - k, i - k, leaf, rest)
  }

  /** One level of an accepted proof: `part` is the half that holds position `i`, `input` what the
      verifier hashed last. */
  lemma ProofStep<D>(h: Hasher<D>, vs: seq<D>, i: nat, leaf: D, proof: seq<D>)
    returns (part: seq<D>, j: nat, input: Input<D>)
    requires 1 < |vs| && i < |vs|
    requires RootFromProof(h, |vs|, i, leaf, proof) == Some(RootOf(h, vs))
    ensures proof != [] && j < |part| < |vs| && part[j] == vs[i]
    ensures input in ProofInputs(h, |vs|, i, leaf, proof) && h(input) == RootOf(h, vs)
    ensures ProofInputs(h, |part|, j, leaf, proof[..|proof| - 1]) <= ProofInputs(h, |vs|, i, leaf, proof)
    ensures BuildInputs(h, part) <= BuildInputs(h, vs)
    ensures var k := Split(|vs|);
            input == Pair(RootOf(h, vs[..k]), RootOf(h, vs[k..])) ==>
              && RootFromProof(h, |part|, j, leaf, proof[..|proof| - 1]) == Some(RootOf(h, part))
              && ProofOf(h, vs, i) == ProofOf(h, part, j) + [proof[|proof| - 1]]
  {
    hide RootOf;
    var n, k, top, rest := |vs|, Split(|vs|), proof[|proof| - 1], proof[..|proof| - 1];
    if i < k {
      part, j := vs[..k], i;
      input := Pair(RootFromProof(h, k, i, leaf, rest).value, top);
    } else {
      part, j := vs[k..], i - k;
      input := Pair(top, RootFromProof(h, n - k, i - k, leaf, rest).value);
    }
  }

  lemma ProofOfOne<D>(h: Hasher<D>, vs: seq<D>, i: nat, leaf: D, proof: seq<D>)
    requires |vs| == 1 && i < 1 && RootFromProof(h, 1, i, leaf, proof) == Some(RootOf(h, vs))
    ensures leaf == vs[i] && proof == ProofOf(h, vs, i)
  {}

  lemma TopInput<D>(h: Hasher<D>, vs: seq<D>)
    requires |vs| > 1
    ensures var b := Pair(RootOf(h, vs[..Split(|vs|)]), RootOf(h, vs[Split(|vs|)..]));
            b in BuildInputs(h, vs) && h(b) == RootOf(h, vs)
  {
    RootOfBranch(h, vs);
  }

  /** Membership proofs are sound: whatever the verifier accepts at position `i` is the value
      at position `i`, with the genuine proof, unless the two computations exhibit a collision. */
  lemma {:induction false} ProofSound<D>(h: Hasher<D>, vs: seq<D>, i: nat, leaf: D, proof: seq<D>)
    requires i < |vs|
    requires RootFromProof(h, |vs|, i, leaf, proof) == Some(RootOf(h, vs))
    ensures (leaf == vs[i] && proof == ProofOf(h, vs, i))
         || Collide(h, ProofInputs(h, |vs|, i, leaf, proof), BuildInputs(h, vs))
    decreases |vs|
  {
    hide RootFromProof, ProofOf, ProofInputs, RootOf, BuildInputs;
    if |vs| == 1 {
      ProofOfOne(h, vs, i, leaf, proof);
    } else {
      var part, j, a := ProofStep(h, vs, i, leaf, proof);
      var rest, k := proof[..|proof| - 1], Split(|vs|);
      var b := Pair(RootOf(h, vs[..k]), RootOf(h, vs[k..]));
      assert b in BuildInputs(h, vs) && h(b) == RootOf(h, vs) by { TopInput(h, vs); }
      if a == b {
        ProofSound(h, part, j, leaf, rest);
        if leaf == part[j] && rest == ProofOf(h, part, j) {
          assert proof == rest + [proof[|proof| - 1]];
        } else {
          CollideMono(h, ProofInputs(h, |part|, j, leaf, rest), BuildInputs(h, part),
                      ProofInputs(h, |vs|, i, leaf, proof), BuildInputs(h, vs));
        }
      }
    }
  }

  // ------------------------------------------------------------ SHA-256 instance

  const NIL: Digest := Zeros(32)

  /** The byte string handed to SHA-256. */
  function Encode(input: Input<Digest>): Bytes {
    match input
    case Element(e) => [0] + e
    case Pair(l, r) => [1] + l + r
  }

  function Tagged(sha: Hash): Hasher<Digest> {
    input => sha(Encode(input))
  }

  /** combine_hashes, on two 32-byte values. */
  function Combine(sha: Hash, l: Digest, r: Digest): (d: Digest)
    ensures d == Tagged(sha)(Pair(l, r))
  {
    assert [1] + l + r == Encode(Pair(l, r));
    sha([1] + l + r)
  }

  /** Different inputs are hashed as different byte strings, so a collision of inputs is a
      collision of SHA-256. */
  lemma EncodeInjective(a: Input<Digest>, b: Input<Digest>)
    requires Encode(a) == Encode(b)
    ensures a == b
  {
    var x, y := Encode(a), Encode(b);
    assert x[0] == y[0];
    match a {
      case Element(e) =>
        assert x[1..] == e && y[1..] == b.bytes;
      case Pair(l, r) =>
        assert x[1..33] == l && x[33..] == r;
        assert y[1..33] == b.left && y[33..] == b.right;
    }
  }

  /** `MerkleTree(values).root`. */
  function MerkleRoot(sha: Hash, vs: seq<Digest>): Digest {
    if vs == [] then NIL else RootOf(Tagged(sha), vs)
  }

  /** The root of `MerkleTree(element_hash(el) for el in elements)`. */
  function ElementsRoot(sha: Hash, es: seq<Bytes>): Digest {
    MerkleRoot(sha, ElementHashes(Tagged(sha), es))
  }

  /** An empty list has the all-zero root, one value is its own root, one element is hashed behind a zero byte. */
  lemma SmallRoots(sha: Hash, v: Digest, e: Bytes)
    ensures MerkleRoot(sha, []) == Zeros(32) && MerkleRoot(sha, [v]) == v
    ensures ElementsRoot(sha, []) == Zeros(32) && ElementsRoot(sha, [e]) == sha([0] + e)
  {
    assert Encode(Element(e)) == [0] + e;
    assert ElementHashes(Tagged(sha), [e]) == [sha([0] + e)];
  }

  /**
   * More values are hashed behind a one byte: the root of the first `k`, then that of the rest, where `k` is
   * the power of two that is less than their number and at least half of it.
   */
  lemma RootOfParts(sha: Hash, vs: seq<Digest>, k: nat)
    requires IsPowerOf2(k) && k < |vs| <= 2 * k
    ensures MerkleRoot(sha, vs) == sha([1] + MerkleRoot(sha, vs[..k]) + MerkleRoot(sha, vs[k..]))
  {
    SplitUnique(|vs|, k);
    RootOfBranch(Tagged(sha), vs);
    var l, r := RootOf(Tagged(sha), vs[..k]), RootOf(Tagged(sha), vs[k..]);
    assert Encode(Pair(l, r)) == [1] + l + r;
    assert k > 0;
  }

  lemma {:induction false} HashesJoined<D>(h: Hasher<D>, xs: seq<Bytes>, ys: seq<Bytes>)
    ensures ElementHashes(h, xs + ys) == ElementHashes(h, xs) + ElementHashes(h, ys)
  {
    hide ElementHashes;
  }

  /** The same for elements. */
  lemma ElementsRootOfParts(sha: Hash, xs: seq<Bytes>, ys: seq<Bytes>)
    requires IsPowerOf2(|xs|) && 1 <= |ys| <= |xs|
    ensures ElementsRoot(sha, xs + ys) == sha([1] + ElementsRoot(sha, xs) + ElementsRoot(sha, ys))
  {
    HashesJoined(Tagged(sha), xs, ys);
    var hs := ElementHashes(Tagged(sha), xs + ys);
    RootOfParts(sha, hs, |xs|);
    assert hs[..|xs|] == ElementHashes(Tagged(sha), xs) && hs[|xs|..] == ElementHashes(Tagged(sha), ys);
  }

  /** Two different byte strings with one SHA-256 value, one hashed for each of two sets of inputs. */
  ghost predicate ShaCollides(sha: Hash, s: set<Input<Digest>>, t: set<Input<Digest>>) {
    exists a, b :: a in s && b in t && Encode(a) != Encode(b) && sha(Encode(a)) == sha(Encode(b))
  }

  /** A collision of inputs is a collision of SHA-256. */
  lemma CollisionOfSha(sha: Hash, s: set<Input<Digest>>, t: set<Input<Digest>>)
    requires Collide(Tagged(sha), s, t)
    ensures ShaCollides(sha, s, t)
  {
    var a, b :| a in s && b in t && a != b && Tagged(sha)(a) == Tagged(sha)(b);
    if Encode(a) == Encode(b) { EncodeInjective(a, b); }
  }

  /**
   * The root of hashed elements binds the list and its length: lists with one root are the same list, or two
   * different byte strings that were hashed for them have one SHA-256 value.
   */
  lemma ElementsRootBinding(sha: Hash, xs: seq<Bytes>, ys: seq<Bytes>)
    requires xs != [] && ys != [] && ElementsRoot(sha, xs) == ElementsRoot(sha, ys)
    ensures xs == ys || ShaCollides(sha, ListInputs(Tagged(sha), xs), ListInputs(Tagged(sha), ys))
  {
    ListRootBinding(Tagged(sha), xs, ys);
    if xs != ys { CollisionOfSha(sha, ListInputs(Tagged(sha), xs), ListInputs(Tagged(sha), ys)); }
  }

  /** The root of equally many digests binds them in the same sense. */
  lemma MerkleRootBinding(sha: Hash, vs: seq<Digest>, ws: seq<Digest>)
    requires |vs| == |ws| && MerkleRoot(sha, vs) == MerkleRoot(sha, ws)
    ensures vs == ws || ShaCollides(sha, BuildInputs(Tagged(sha), vs), BuildInputs(Tagged(sha), ws))
  {
    if vs != ws {
      RootBinding(Tagged(sha), vs, ws);
      CollisionOfSha(sha, BuildInputs(Tagged(sha), vs), BuildInputs(Tagged(sha), ws));
    }
  }
}
