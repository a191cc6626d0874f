/** The interpreter of client_command.py, proved against CommandSpec. */
module ClientCommand {
  import opened Python
  import opened Sequences
  import opened Serialize
  import opened MerkleSpec
  import opened MerkleTrees
  import opened CommandSpec
  import opened Ordering

  class ByteStreamParser {
    const input: Bytes
    var pos: nat

    ghost predicate Valid()
      reads this
    {
      pos <= |input|
    }

    ghost function Rest(): Bytes
      requires Valid()
      reads this
    {
      input[pos..]
    }

    constructor (input: Bytes)
      ensures Valid() && Rest() == input
    {
      this.input, pos := input, 0;
    }

    method ReadBytes(n: nat) returns (r: Result<Bytes>)
      requires Valid()
      modifies this
      ensures Valid()
      ensures match CommandSpec.ReadBytes(old(Rest()), n)
              case Ok((b, rest)) => r == Ok(b) && Rest() == rest
              case Err(e) => r == Err(e)
    {
      var end := Min(pos + n, |input|);
      var result := input[pos..end];
      assert pos + n <= |input| ==> result == input[pos..][..n] && input[end..] == input[pos..][n..];
      pos := end;
      r := if |result| < n then Err(ValueError) else Ok(result);
    }

    method ReadUint(n: nat) returns (r: Result<nat>)
      requires Valid()
      modifies this
      ensures Valid()
      ensures match AsValueError<(nat, Bytes)>(ReadLe(old(Rest()), n))
              case Ok((v, rest)) => r == Ok(v) && Rest() == rest
              case Err(e) => r == Err(e)
    {
      var b := ReadBytes(n);
      r := if b.Err? then Err(b.error) else Ok(FromLe(b.value));
    }

    method ReadVarint() returns (r: Result<nat>)
      requires Valid()
      modifies this
      ensures Valid()
      ensures match CommandSpec.ReadVarint(old(Rest()))
              case Ok((v, rest)) => r == Ok(v) && Rest() == rest
              case Err(e) => r == Err(e)
    {
      var prefix := ReadUint(1);
      if prefix.Err? {
        return prefix;
      }
      if prefix.value == 253 {
        r := ReadUint(2);
      } else if prefix.value == 254 {
        r := ReadUint(4);
      } else if prefix.value == 255 {
        r := ReadUint(8);
      } else {
        r := prefix;
      }
    }

    method AssertEmpty() returns (r: Result<()>)
      requires Valid()
      modifies this
      ensures Valid() && r == CommandSpec.AssertEmpty(old(Rest()))
    {
      var b := input[pos..Min(pos + 1, |input|)];
      pos := Min(pos + 1, |input|);
      r := if b != [] then Err(ValueError) else Ok(());
    }
  }

  class ClientCommandInterpreter {
    const sha: Hash
    var knownPreimages: map<Digest, Bytes>
    var knownTrees: map<Digest, MerkleTree>
    var queue: seq<Bytes>
    var yielded: seq<Bytes>
    ghost var treeValues: map<Digest, seq<Digest>>  // the leaf hashes of the known trees
    ghost var Repr: set<object>                     // the known trees and their nodes

    ghost predicate Valid()
      reads this, Repr
    {
      && this !in Repr
      && treeValues.Keys == knownTrees.Keys
      && (forall r | r in knownTrees ::
            && knownTrees[r] in Repr && knownTrees[r].nodes <= Repr
            && knownTrees[r].Valid() && knownTrees[r].sha == sha && knownTrees[r].values == treeValues[r])
    }

    ghost function Model(): State
      reads this
    {
      State(knownPreimages, treeValues, queue, yielded)
    }

    constructor (sha: Hash)
      ensures Valid() && fresh(Repr) && this.sha == sha && Model() == State(map[], map[], [], [])
    {
      this.sha := sha;
      knownPreimages, knownTrees, queue, yielded := map[], map[], [], [];
      treeValues, Repr := map[], {};
    }

    // ------------------------------------------------------------ knowledge

    method AddKnownPreimage(element: Bytes)
      requires Valid()
      modifies this`knownPreimages
      ensures Valid() && knownPreimages == old(knownPreimages)[sha(element) := element]
    {
      knownPreimages := knownPreimages[sha(element) := element];
    }

    method AddKnownList(elements: seq<Bytes>)
      requires Valid()
      modifies this`knownPreimages, this`knownTrees, this`treeValues, this`Repr
      ensures Valid() && fresh(Repr - old(Repr))
      ensures Model() == WithList(sha, old(Model()), elements)
    {
      AddElements(elements);
      var hashes := ElementHashes(Tagged(sha), elements);
      var mt := new MerkleTree(sha, hashes);
      mt.RootIsMerkleRoot();
      AddTree(mt);
    }

    /** The keys of a dictionary in order, and its values in the order of their keys. */
    method AddKnownMapping(mapping: map<Bytes, Bytes>)
      requires Valid()
      modifies this`knownPreimages, this`knownTrees, this`treeValues, this`Repr
      ensures Valid() && fresh(Repr - old(Repr))
      ensures Model() == WithList(sha, WithList(sha, old(Model()), Sorted(mapping.Keys)), SortedValues(mapping))
    {
      AddKnownList(Sorted(mapping.Keys));
      AddKnownList(SortedValues(mapping));
    }

    method AddElements(elements: seq<Bytes>)
      requires Valid()
      modifies this`knownPreimages
      ensures Valid() && knownPreimages == WithPreimages(sha, old(knownPreimages), elements)
    {
      for i := 0 to |elements|
        invariant Valid()
        invariant knownPreimages == WithPreimages(sha, old(knownPreimages), elements[..i])
      {
        AddKnownPreimage([0] + elements[i]);
        WithPreimagesLast(sha, old(knownPreimages), elements[..i], elements[i]);
        assert elements[..i + 1] == elements[..i] + [elements[i]];
      }
      assert elements[..|elements|] == elements;
    }

    method AddTree(mt: MerkleTree)
      requires Valid() && mt.Valid() && mt.sha == sha
      modifies this`knownTrees, this`treeValues, this`Repr
      ensures Valid() && treeValues == old(treeValues)[mt.Root() := mt.values]
      ensures Repr == old(Repr) + {mt} + mt.nodes
    {
      knownTrees := knownTrees[mt.Root() := mt];
      treeValues := treeValues[mt.Root() := mt.values];
      Repr := Repr + {mt} + mt.nodes;
    }

    // ------------------------------------------------------------ commands

    method Yield(request: Bytes) returns (r: Result<Bytes>)
      requires Valid() && request != []
      modifies this`yielded
      ensures Valid() && Reply(r, Model()) == ExecuteYield(old(Model()), request)
    {
      yielded := yielded + [request[1..]];
      r := Ok([]);
    }

    method GetPreimage(request: Bytes) returns (r: Result<Bytes>)
      requires Valid() && request != []
      modifies this`queue
      ensures Valid() && Reply(r, Model()) == ExecutePreimage(old(Model()), request)
    {
      var h := ReadPreimageRequest(request[1..]);
      if h.Err? {
        return Err(h.error);
      }
      if h.value in knownPreimages {
        var p := knownPreimages[h.value];
        if |p| >= U64 {
          return Err(StructError);
        }
        var lenOut := CompactSize(|p|);
        var payloadSize := Min(255 - |lenOut| - 1, |p|);
        var rest := Singles(p[payloadSize..]);
        assert payloadSize == |p| ==> queue + rest == queue;
        if payloadSize < |p| {
          queue := queue + rest;
        }
        r := Ok(lenOut + [payloadSize as byte] + p[..payloadSize]);
      } else {
        r := Err(RuntimeError);
      }
    }

    static method ReadPreimageRequest(body: Bytes) returns (r: Result<Digest>)
      ensures r == PreimageRequest(body)
    {
      var req := new ByteStreamParser(body);
      var first := req.ReadBytes(1);
      if first.Err? {
        return Err(first.error);
      }
      if first.value != [0] {
        return Err(RuntimeError);
      }
      var h := req.ReadBytes(32);
      if h.Err? {
        return Err(h.error);
      }
      var e := req.AssertEmpty();
      if e.Err? {
        return Err(e.error);
      }
      r := Ok(h.value);
    }

    method GetMerkleLeafProof(request: Bytes) returns (r: Result<Bytes>)
      requires Valid() && request != []
      modifies this`queue
      ensures Valid() && Reply(r, Model()) == ExecuteProof(sha, old(Model()), request)
    {
      var q := ReadProofRequest(request[1..]);
      if q.Err? {
        return Err(q.error);
      }
      var ProofQuery(root, size, index) := q.value;
      if root !in knownTrees {
        return Err(ValueError);
      }
      var mt := knownTrees[root];
      if index >= size || |mt.leaves| != size {
        return Err(ValueError);
      }
      if |queue| != 0 {
        return Err(RuntimeError);
      }
      ProofRequestBound(request[1..]);
      var proof, leaf := LeafAndProof(mt, index);
      var answer := AnswerProof(leaf, proof);
      r := Ok(answer);
    }

    /** Sends what fits of a proof and queues the rest. */
    method AnswerProof(leaf: Digest, proof: seq<Digest>) returns (answer: Bytes)
      requires Valid() && queue == [] && |proof| < 256
      modifies this`queue
      ensures Valid() && answer == ProofAnswer(leaf, proof) && queue == proof[Min(MAX_PROOF_ELEMENTS, |proof|)..]
    {
      var n := Min((255 - 32 - 1 - 1) / 32, |proof|);
      var leftover := |proof| - n;
      if leftover > 0 {
        queue := queue + proof[|proof| - leftover..];
      }
      answer := leaf + [|proof| as byte] + [n as byte] + Concat(proof[..n]);
    }

    static method LeafAndProof(mt: MerkleTree, index: nat) returns (proof: seq<Digest>, leaf: Digest)
      requires mt.Valid() && index < |mt.leaves| < U64
      ensures proof == ProofOf(Tagged(mt.sha), mt.values, index) && leaf == mt.values[index] && |proof| <= 64
    {
      ProofShort(mt.sha, mt.values, index);
      proof := mt.ProveLeaf(index);
      leaf := mt.Get(index);
    }

    static method ReadProofRequest(body: Bytes) returns (r: Result<ProofQuery>)
      ensures r == ProofRequest(body)
    {
      var req := new ByteStreamParser(body);
      var root := req.ReadBytes(32);
      if root.Err? {
        return Err(root.error);
      }
      var size := req.ReadVarint();
      if size.Err? {
        return Err(size.error);
      }
      var index := req.ReadVarint();
      if index.Err? {
        return Err(index.error);
      }
      var e := req.AssertEmpty();
      if e.Err? {
        return Err(e.error);
      }
      r := Ok(ProofQuery(root.value, size.value, index.value));
    }

    method GetMerkleLeafIndex(request: Bytes) returns (r: Result<Bytes>)
      requires Valid() && request != []
      ensures Reply(r, Model()) == ExecuteIndex(Model(), request)
    {
      var q := ReadIndexRequest(request[1..]);
      if q.Err? {
        return Err(q.error);
      }
      var (root, leaf) := q.value;
      if root !in knownTrees {
        return Err(ValueError);
      }
      var i := knownTrees[root].LeafIndex(leaf);
      var index := if i.Ok? then i.value else 0;
      var found := if i.Ok? then 1 else 0;
      if index >= U64 {
        return Err(StructError);
      }
      r := Ok([found as byte] + CompactSize(index));
    }

    static method ReadIndexRequest(body: Bytes) returns (r: Result<(Digest, Digest)>)
      ensures r == IndexRequest(body)
    {
      var req := new ByteStreamParser(body);
      var root := req.ReadBytes(32);
      if root.Err? {
        return Err(root.error);
      }
      var leaf := req.ReadBytes(32);
      if leaf.Err? {
        return Err(leaf.error);
      }
      var e := req.AssertEmpty();
      if e.Err? {
        return Err(e.error);
      }
      r := Ok((root.value, leaf.value));
    }

    method GetMoreElements(request: Bytes) returns (r: Result<Bytes>)
      requires Valid()
      modifies this`queue
      ensures Valid() && Reply(r, Model()) == ExecuteMore(old(Model()), request)
    {
      if |request| != 1 {
        return Err(ValueError);
      }
      if |queue| == 0 {
        return Err(ValueError);
      }
      var w := |queue[0]|;
      if exists i :: 0 <= i < |queue| && |queue[i]| != w {
        return Err(ValueError);
      }
      var elements, n := PopElements(w);
      if n > 255 || w > 255 {
        return Err(OverflowError);
      }
      r := Ok([n as byte] + [w as byte] + elements);
      assert [n as byte] + [w as byte] == [n as byte, w as byte];
    }

    method PopElements(w: nat) returns (elements: Bytes, n: nat)
      requires Valid() && Uniform(queue, w)
      modifies this`queue
      ensures Valid() && n == Batch(old(queue), w)
      ensures elements == Concat(old(queue)[..n]) && queue == old(queue)[n..]
    {
      elements, n := [], 0;
      while |queue| > 0 && |elements| + w <= 253
        invariant n <= |old(queue)| && queue == old(queue)[n..]
        invariant elements == Concat(old(queue)[..n]) && |elements| == n * w
        invariant n <= Batch(old(queue), w)
        decreases |queue|
      {
        PopOne(old(queue), w, n);
        elements := elements + queue[0];
        queue := queue[1..];
        n := n + 1;
      }
      PoppedAll(old(queue), w, n);
    }

    method Execute(hwResponse: Bytes) returns (r: Result<Bytes>)
      requires Valid()
      modifies this`queue, this`yielded
      ensures Valid() && Reply(r, Model()) == CommandSpec.Execute(sha, old(Model()), hwResponse)
    {
      if |hwResponse| == 0 {
        return Err(RuntimeError);
      }
      var code := hwResponse[0];
      if code == YIELD {
        r := Yield(hwResponse);
      } else if code == GET_PREIMAGE {
        r := GetPreimage(hwResponse);
      } else if code == GET_MERKLE_LEAF_INDEX {
        r := GetMerkleLeafIndex(hwResponse);
      } else if code == GET_MERKLE_LEAF_PROOF {
        r := GetMerkleLeafProof(hwResponse);
      } else if code == GET_MORE_ELEMENTS {
        r := GetMoreElements(hwResponse);
      } else {
        r := Err(RuntimeError);
      }
    }
  }

  // ---------------------------------------------------------------- popping the queue

  lemma PopOne(q: seq<Bytes>, w: nat, n: nat)
    requires Uniform(q, w) && n < |q| && n * w + w <= 253 && n <= Batch(q, w)
    ensures Concat(q[..n + 1]) == Concat(q[..n]) + q[n] && (n + 1) * w == n * w + w && n + 1 <= Batch(q, w)
  {
    ConcatLast(q[..n], q[n]);
    assert q[..n + 1] == q[..n] + [q[n]];
    assert (n + 1) * w == n * w + w;
    if w > 0 { QuotientBound(n + 1, w); }
  }

  lemma PoppedAll(q: seq<Bytes>, w: nat, n: nat)
    requires n <= Batch(q, w) && (n == |q| || n * w + w > 253)
    ensures n == Batch(q, w)
  {
    if n < |q| && w > 0 && n < 253 / w {
      QuotientReach(n, w);
    }
  }

  lemma QuotientBound(k: nat, w: nat)
    requires w > 0 && k * w <= 253
    ensures k <= 253 / w
  {
    assert 253 == w * (253 / w) + 253 % w;
    if k > 253 / w {
      MulUp(253 / w + 1, k, w);
    }
  }

  lemma QuotientReach(k: nat, w: nat)
    requires w > 0 && k < 253 / w
    ensures k * w + w <= 253
  {
    MulUp(k + 1, 253 / w, w);
    assert (k + 1) * w == k * w + w;
    assert 253 == w * (253 / w) + 253 % w;
  }

  lemma MulUp(a: nat, b: nat, w: nat)
    requires a <= b
    ensures a * w <= b * w
  {}

}
