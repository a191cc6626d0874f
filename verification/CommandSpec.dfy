/** The client-command protocol of client_command.py as a state machine over values. */
module CommandSpec {
  import opened Python
  import opened Sequences
  import opened Bits
  import opened Serialize
  import opened MerkleSpec

  const YIELD: byte := 0x10
  const GET_PREIMAGE: byte := 0x40
  const GET_MERKLE_LEAF_PROOF: byte := 0x41
  const GET_MERKLE_LEAF_INDEX: byte := 0x42
  const GET_MORE_ELEMENTS: byte := 0xA0

  /** What the interpreter knows and remembers; a known tree is given by its leaf hashes. */
  datatype State = State(preimages: map<Digest, Bytes>, trees: map<Digest, seq<Digest>>,
                         queue: seq<Bytes>, yielded: seq<Bytes>)

  /** What one command answers (or raises) and the state it leaves. */
  datatype Reply = Reply(answer: Result<Bytes>, state: State)

  function AsValueError<T>(r: Result<T>): Result<T> {
    if r.Err? then Err(ValueError) else r
  }

  /** ByteStreamParser.read_bytes on the bytes still unread. */
  function ReadBytes(s: Bytes, n: nat): Result<(Bytes, Bytes)> {
    AsValueError(Take(s, n))
  }

  function ReadVarint(s: Bytes): Result<(nat, Bytes)> {
    AsValueError(ReadCompactSize(s))
  }

  function ReadHash(s: Bytes): (r: Result<(Digest, Bytes)>) {
    if 32 <= |s| then Ok((s[..32], s[32..])) else Err(ValueError)
  }

  function AssertEmpty(s: Bytes): Result<()> {
    if s == [] then Ok(()) else Err(ValueError)
  }

  /** The bytes of `b` as one-byte elements. */
  function Singles(b: Bytes): (q: seq<Bytes>)
    ensures |q| == |b| && forall i :: 0 <= i < |b| ==> q[i] == [b[i]]
  {
    seq(|b|, i requires 0 <= i < |b| => [b[i]])
  }

  // ---------------------------------------------------------------- requests

  function PreimageRequest(req: Bytes): Result<Digest> {
    var (first, s1) :- ReadBytes(req, 1);
    if first != [0] then Err(RuntimeError)
    else
      var (h, s2) :- ReadHash(s1);
      var _ :- AssertEmpty(s2);
      Ok(h)
  }

  datatype ProofQuery = ProofQuery(root: Digest, size: nat, index: nat)

  function ProofRequest(req: Bytes): Result<ProofQuery> {
    var (root, s1) :- ReadHash(req);
    var (size, s2) :- ReadVarint(s1);
    var (index, s3) :- ReadVarint(s2);
    var _ :- AssertEmpty(s3);
    Ok(ProofQuery(root, size, index))
  }

  function IndexRequest(req: Bytes): Result<(Digest, Digest)> {
    var (root, s1) :- ReadHash(req);
    var (leaf, s2) :- ReadHash(s1);
    var _ :- AssertEmpty(s2);
    Ok((root, leaf))
  }

  lemma ProofRequestBound(req: Bytes)
    ensures ProofRequest(req).Ok? ==> ProofRequest(req).value.size < U64
  {
    if |req| >= 32 { ReadCompactSizeBound(req[32..]); }
  }

  // ---------------------------------------------------------------- commands

  function ExecuteYield(st: State, req: Bytes): Reply
    requires req != []
  {
    Reply(Ok([]), st.(yielded := st.yielded + [req[1..]]))
  }

  /** How many bytes of a preimage go into the first answer. */
  function PayloadSize(p: Bytes): (k: nat)
    requires |p| < U64
    ensures k <= |p| && k <= 253
  {
    Min(255 - |CompactSize(|p|)| - 1, |p|)
  }

  function PreimageAnswer(p: Bytes): Bytes
    requires |p| < U64
  {
    CompactSize(|p|) + [PayloadSize(p) as byte] + p[..PayloadSize(p)]
  }

  function ExecutePreimage(st: State, req: Bytes): Reply
    requires req != []
  {
    match PreimageRequest(req[1..])
    case Err(e) => Reply(Err(e), st)
    case Ok(h) =>
      if h !in st.preimages then Reply(Err(RuntimeError), st)
      else
        var p := st.preimages[h];
        if |p| >= U64 then Reply(Err(StructError), st)
        else Reply(Ok(PreimageAnswer(p)), st.(queue := st.queue + Singles(p[PayloadSize(p)..])))
  }

  /** At most six sibling hashes fit in an answer. */
  const MAX_PROOF_ELEMENTS: nat := 6

  function ProofAnswer(leaf: Digest, proof: seq<Digest>): Bytes
    requires |proof| < 256
  {
    var k := Min(MAX_PROOF_ELEMENTS, |proof|);
    leaf + [|proof| as byte] + [k as byte] + Concat(proof[..k])
  }

  lemma ProofShort(sha: Hash, vs: seq<Digest>, i: nat)
    requires i < |vs| < U64
    ensures |ProofOf(Tagged(sha), vs, i)| <= 64
  {
    ProofLength(Tagged(sha), vs, i);
    CeilLogBounds(|vs|);
    Pow2Of64();
    if CeilLog(|vs|) > 64 { Pow2Monotone(64, CeilLog(|vs|)); }
  }

  lemma Pow2Of64()
    ensures Pow2(64) == U64
  {
    Pow2Add(4, 4);
    assert Pow2(4) == 4 * Pow2(2) && Pow2(2) == 4 * Pow2(0);
    Pow2Add(8, 8);
    Pow2Add(16, 16);
    Pow2Add(32, 32);
  }

  function ExecuteProof(sha: Hash, st: State, req: Bytes): Reply
    requires req != []
  {
    match ProofRequest(req[1..])
    case Err(e) => Reply(Err(e), st)
    case Ok(ProofQuery(root, size, index)) =>
      if root !in st.trees then Reply(Err(ValueError), st)
      else
        var vs := st.trees[root];
        if index >= size || |vs| != size then Reply(Err(ValueError), st)
        else if st.queue != [] then Reply(Err(RuntimeError), st)
        else
          ProofRequestBound(req[1..]);
          ProofShort(sha, vs, index);
          var proof := ProofOf(Tagged(sha), vs, index);
          Reply(Ok(ProofAnswer(vs[index], proof)), st.(queue := proof[Min(MAX_PROOF_ELEMENTS, |proof|)..]))
  }

  /** The position of the first occurrence of `x`. */
  function IndexOf(vs: seq<Digest>, x: Digest): (r: Option<nat>)
    ensures r == None ==> x !in vs
    ensures r.Some? ==> r.value < |vs| && vs[r.value] == x && forall k :: 0 <= k < r.value ==> vs[k] != x
  {
    if vs == [] then None
    else if vs[0] == x then Some(0)
    else
      match IndexOf(vs[1..], x)
      case None => None
      case Some(i) => Some(i + 1)
  }

  function ExecuteIndex(st: State, req: Bytes): Reply
    requires req != []
  {
    match IndexRequest(req[1..])
    case Err(e) => Reply(Err(e), st)
    case Ok((root, leaf)) =>
      if root !in st.trees then Reply(Err(ValueError), st)
      else
        match IndexOf(st.trees[root], leaf)
        case None => Reply(Ok([0] + CompactSize(0)), st)
        case Some(i) =>
          if i >= U64 then Reply(Err(StructError), st) else Reply(Ok([1] + CompactSize(i)), st)
  }

  predicate Uniform(queue: seq<Bytes>, w: nat) {
    forall i :: 0 <= i < |queue| ==> |queue[i]| == w
  }

  /** How many elements of width `w` one answer takes. */
  function Batch(queue: seq<Bytes>, w: nat): (k: nat)
    ensures k <= |queue|
    ensures 0 < w <= 253 && queue != [] ==> k > 0
  {
    if w == 0 then |queue| else Min(|queue|, 253 / w)
  }

  function ExecuteMore(st: State, req: Bytes): Reply {
    if |req| != 1 then Reply(Err(ValueError), st)
    else if st.queue == [] then Reply(Err(ValueError), st)
    else
      var w := |st.queue[0]|;
      if !Uniform(st.queue, w) then Reply(Err(ValueError), st)
      else
        var k := Batch(st.queue, w);
        var st' := st.(queue := st.queue[k..]);
        if k > 255 || w > 255 then Reply(Err(OverflowError), st')
        else Reply(Ok([k as byte, w as byte] + Concat(st.queue[..k])), st')
  }

  function Execute(sha: Hash, st: State, req: Bytes): Reply {
    if req == [] then Reply(Err(RuntimeError), st)
    else if req[0] == YIELD then ExecuteYield(st, req)
    else if req[0] == GET_PREIMAGE then ExecutePreimage(st, req)
    else if req[0] == GET_MERKLE_LEAF_INDEX then ExecuteIndex(st, req)
    else if req[0] == GET_MERKLE_LEAF_PROOF then ExecuteProof(sha, st, req)
    else if req[0] == GET_MORE_ELEMENTS then ExecuteMore(st, req)
    else Reply(Err(RuntimeError), st)
  }

  // ---------------------------------------------------------------- knowledge

  /** add_known_preimage for `0x00 || el` of every element. */
  function WithPreimages(sha: Hash, m: map<Digest, Bytes>, elements: seq<Bytes>): map<Digest, Bytes>
    decreases |elements|
  {
    if elements == [] then m
    else WithPreimages(sha, m[sha([0] + elements[0]) := [0] + elements[0]], elements[1..])
  }

  lemma {:induction false} WithPreimagesLast(sha: Hash, m: map<Digest, Bytes>, elements: seq<Bytes>, x: Bytes)
    ensures WithPreimages(sha, m, elements + [x]) == WithPreimages(sha, m, elements)[sha([0] + x) := [0] + x]
    decreases |elements|
  {
    if elements == [] {
      assert elements + [x] == [x];
      assert WithPreimages(sha, m, [x]) == WithPreimages(sha, m[sha([0] + x) := [0] + x], [x][1..]);
    } else {
      WithPreimagesLast(sha, m[sha([0] + elements[0]) := [0] + elements[0]], elements[1..], x);
      assert (elements + [x])[1..] == elements[1..] + [x];
    }
  }

  /** add_known_list. */
  function WithList(sha: Hash, st: State, elements: seq<Bytes>): State {
    var hashes := ElementHashes(Tagged(sha), elements);
    st.(preimages := WithPreimages(sha, st.preimages, elements),
        trees := st.trees[MerkleRoot(sha, hashes) := hashes])
  }
}
