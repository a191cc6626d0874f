/** Properties of whole conversations with the client-command interpreter. */
module CommandRuns {
  import opened Python
  import opened Sequences
  import opened Bits
  import opened Serialize
  import opened MerkleSpec
  import opened CommandSpec

  // ---------------------------------------------------------------- one answer

  lemma {:induction false} ConcatUniform(q: seq<Bytes>, w: nat)
    requires Uniform(q, w)
    ensures |Concat(q)| == |q| * w
  {
    if q != [] {
      ConcatUniform(q[1..], w);
      MulStep(|q|, w);
    }
  }

  lemma MulStep(n: nat, w: nat)
    requires n > 0
    ensures n * w == w + (n - 1) * w
  {}

  lemma BatchBytes(q: seq<Bytes>, w: nat)
    requires Uniform(q, w) && w > 0
    ensures |Concat(q[..Batch(q, w)])| <= 253
  {
    var k := Batch(q, w);
    ConcatUniform(q[..k], w);
    BatchBound(k, w);
  }

  lemma BatchBound(k: nat, w: nat)
    requires w > 0 && k <= 253 / w
    ensures k * w <= 253
  {
    MulMonotone(k, 253 / w, w);
    assert 253 == w * (253 / w) + 253 % w;
  }

  lemma MulMonotone(a: nat, b: nat, w: nat)
    requires a <= b
    ensures a * w <= b * w
  {}

  /** Every answer sent to the device is at most 255 bytes long, in every state and for every request. */
  lemma AnswerFits(sha: Hash, st: State, req: Bytes)
    ensures var a := Execute(sha, st, req).answer; a.Ok? ==> |a.value| <= 255
  {
    if req != [] && req[0] == GET_MORE_ELEMENTS && st.queue != [] && Uniform(st.queue, |st.queue[0]|) {
      var w := |st.queue[0]|;
      if w > 0 {
        BatchBytes(st.queue, w);
      } else {
        ConcatUniform(st.queue[..Batch(st.queue, w)], 0);
      }
    } else if req != [] && req[0] == GET_MERKLE_LEAF_PROOF && ExecuteProof(sha, st, req).answer.Ok? {
      var q := ProofRequest(req[1..]).value;
      var vs := st.trees[q.root];
      ProofRequestBound(req[1..]);
      ProofShort(sha, vs, q.index);
      var proof := ProofOf(Tagged(sha), vs, q.index);
      ConcatUniform(proof[..Min(MAX_PROOF_ELEMENTS, |proof|)], 32);
    }
  }

  // ---------------------------------------------------------------- draining the queue

  const MORE: Bytes := [0xA0]

  /** `n` GET_MORE_ELEMENTS requests in a row: the answers and the state after them. */
  function RepeatMore(sha: Hash, st: State, n: nat): Result<(seq<Bytes>, State)>
    decreases n
  {
    if n == 0 then Ok(([], st))
    else
      var reply := Execute(sha, st, MORE);
      var first :- reply.answer;
      var (more, st') :- RepeatMore(sha, reply.state, n - 1);
      Ok(([first] + more, st'))
  }

  /** `n` elements of width `w` in a row. */
  function Elements(b: Bytes, n: nat, w: nat): seq<Bytes>
    requires |b| == n * w
    decreases n
  {
    if n == 0 then []
    else
      MulStep(n, w);
      [b[..w]] + Elements(b[w..], n - 1, w)
  }

  /** What the device reads from an answer: the number of elements, their width, the elements. */
  function DecodeMore(a: Bytes): Result<seq<Bytes>> {
    if |a| < 2 || |a| - 2 != a[0] as nat * a[1] as nat then Err(ValueError)
    else Ok(Elements(a[2..], a[0] as nat, a[1] as nat))
  }

  /** The elements of all answers, in order. */
  function Received(answers: seq<Bytes>): seq<Bytes> {
    if answers == [] then []
    else (if DecodeMore(answers[0]).Ok? then DecodeMore(answers[0]).value else []) + Received(answers[1..])
  }

  function Payloads(answers: seq<Bytes>): Bytes {
    Concat(Received(answers))
  }

  /** The number of rounds it takes to empty a queue of `n` elements of width `w`. */
  function Rounds(n: nat, w: nat): nat
    requires 1 <= w <= 253
  {
    (n + 253 / w - 1) / (253 / w)
  }

  lemma {:induction false} ConcatSplit(q: seq<Bytes>, k: nat)
    requires k <= |q|
    ensures Concat(q) == Concat(q[..k]) + Concat(q[k..])
  {
    if k > 0 {
      ConcatSplit(q[1..], k - 1);
      assert q[..k][1..] == q[1..][..k - 1];
      assert q[k..] == q[1..][k - 1..];
    } else {
      assert q[k..] == q;
    }
  }

  lemma RoundsStep(n: nat, w: nat)
    requires 1 <= w <= 253 && n > 0
    ensures Rounds(n, w) == 1 + Rounds(n - Min(n, 253 / w), w)
  {
    var b := 253 / w;
    if n >= b {
      assert (n + b - 1) / b == 1 + (n - 1) / b by { DivStep(n - 1, b); }
      assert n - b + b - 1 == n - 1;
    } else {
      ModUnique(n + b - 1, b, 1, n - 1);
      ModUnique(b - 1, b, 0, b - 1);
    }
  }

  lemma DivStep(a: nat, b: nat)
    requires b > 0
    ensures (a + b) / b == 1 + a / b
  {
    ModUnique(a + b, b, a / b + 1, a % b);
  }

  lemma {:induction false} ElementsOfConcat(q: seq<Bytes>, w: nat)
    requires Uniform(q, w)
    ensures |Concat(q)| == |q| * w && Elements(Concat(q), |q|, w) == q
  {
    ConcatUniform(q, w);
    if q != [] {
      ElementsOfConcat(q[1..], w);
      MulStep(|q|, w);
      assert Concat(q)[..w] == q[0] && Concat(q)[w..] == Concat(q[1..]);
      assert q == [q[0]] + q[1..];
    }
  }

  lemma DecodeBatch(q: seq<Bytes>, w: nat)
    requires Uniform(q, w) && |q| < 256 && w < 256
    ensures DecodeMore([|q| as byte, w as byte] + Concat(q)) == Ok(q)
  {
    var a := [|q| as byte, w as byte] + Concat(q);
    ElementsOfConcat(q, w);
    assert a[2..] == Concat(q);
  }

  /** One GET_MORE_ELEMENTS on a queue of elements of one width. */
  lemma MoreStep(sha: Hash, st: State, w: nat) returns (k: nat, a: Bytes)
    requires Uniform(st.queue, w) && 1 <= w <= 253 && st.queue != []
    ensures k == Min(|st.queue|, 253 / w) && 0 < k <= 255
    ensures DecodeMore(a) == Ok(st.queue[..k])
    ensures Execute(sha, st, MORE) == Reply(Ok(a), st.(queue := st.queue[k..]))
  {
    k := Batch(st.queue, w);
    a := [k as byte, w as byte] + Concat(st.queue[..k]);
    DecodeBatch(st.queue[..k], w);
  }

  lemma RepeatStep(sha: Hash, st: State, a: Bytes, q: seq<Bytes>, st': State, n: nat)
    requires Execute(sha, st, MORE) == Reply(Ok(a), st') && DecodeMore(a) == Ok(q) && RepeatMore(sha, st', n).Ok?
    ensures RepeatMore(sha, st, n + 1).Ok? && RepeatMore(sha, st, n + 1).value.1 == RepeatMore(sha, st', n).value.1
    ensures Received(RepeatMore(sha, st, n + 1).value.0) == q + Received(RepeatMore(sha, st', n).value.0)
  {
    var rest := RepeatMore(sha, st', n).value.0;
    assert ([a] + rest)[1..] == rest;
  }

  lemma NothingToDrain(sha: Hash, st: State, w: nat)
    requires st.queue == [] && 1 <= w <= 253
    ensures Rounds(0, w) == 0 && RepeatMore(sha, st, 0) == Ok(([], st.(queue := [])))
    ensures Received([]) == st.queue && Execute(sha, st, MORE).answer == Err(ValueError)
  {
    ModUnique(253 / w - 1, 253 / w, 0, 253 / w - 1);
    assert st.(queue := []) == st;
  }

  /** Asking for more until the queue is empty yields exactly its elements, in order, in an exact
      number of rounds; one more request raises. */
  lemma {:induction false} DrainDelivers(sha: Hash, st: State, w: nat)
    requires Uniform(st.queue, w) && 1 <= w <= 253
    ensures var r := RepeatMore(sha, st, Rounds(|st.queue|, w));
            && r.Ok? && r.value.1 == st.(queue := [])
            && Received(r.value.0) == st.queue
            && Execute(sha, r.value.1, MORE).answer == Err(ValueError)
    decreases |st.queue|
  {
    hide Execute, Received, DecodeMore, Batch, Rounds, Concat;
    if st.queue == [] {
      NothingToDrain(sha, st, w);
    } else {
      var k, a := MoreStep(sha, st, w);
      var st' := st.(queue := st.queue[k..]);
      RoundsStep(|st.queue|, w);
      DrainDelivers(sha, st', w);
      RepeatStep(sha, st, a, st.queue[..k], st', Rounds(|st'.queue|, w));
      assert st.queue == st.queue[..k] + st.queue[k..];
    }
  }

  // ---------------------------------------------------------------- preimages

  function PreimageReq(h: Digest): Bytes {
    [0x40, 0] + h
  }

  /** What the device makes of the first answer and the answers that follow: the announced length and
      the bytes received. */
  function DecodePreimage(first: Bytes, more: seq<Bytes>): Result<(nat, Bytes)> {
    var (n, s1) :- ReadCompactSize(first);
    var (k, s2) :- ReadLe(s1, 1);
    var (data, _) :- Take(s2, k);
    Ok((n, data + Payloads(more)))
  }

  lemma PreimageReqParses(h: Digest)
    ensures PreimageRequest(PreimageReq(h)[1..]) == Ok(h)
  {
    var s := PreimageReq(h)[1..];
    assert s[..1] == [0] && s[1..] == h;
    assert s[1..][..32] == h && s[1..][32..] == [];
  }

  lemma PreimageAnswerParses(p: Bytes, more: seq<Bytes>)
    requires |p| < U64 && Payloads(more) == p[PayloadSize(p)..]
    ensures DecodePreimage(PreimageAnswer(p), more) == Ok((|p|, p))
  {
    hide CompactSize, ReadCompactSize, Payloads;
    var k := PayloadSize(p);
    assert p[..k] + p[k..] == p;
    var s := [k as byte] + p[..k];
    assert PreimageAnswer(p) == CompactSize(|p|) + s;
    CompactSizeRoundTrip(|p|, s);
    ReadTag(k as byte, p[..k]);
    assert p[..k][..k] == p[..k];
  }

  lemma {:induction false} ConcatSingles(b: Bytes)
    ensures Concat(Singles(b)) == b
  {
    if b != [] {
      assert Singles(b)[1..] == Singles(b[1..]);
      ConcatSingles(b[1..]);
      assert b == [b[0]] + b[1..];
    }
  }

  /** Asked for a known preimage on an empty queue, the interpreter answers it whole: the first answer
      and as many follow-ups as it takes deliver every byte in order, and leave the state as it was. */
  lemma PreimageDelivered(sha: Hash, st: State, h: Digest) returns (first: Bytes, more: seq<Bytes>, st': State)
    requires st.queue == [] && h in st.preimages && |st.preimages[h]| < U64
    ensures Execute(sha, st, PreimageReq(h)) == Reply(Ok(first), st')
    ensures RepeatMore(sha, st', Rounds(|st.preimages[h]| - PayloadSize(st.preimages[h]), 1)) == Ok((more, st))
    ensures DecodePreimage(first, more) == Ok((|st.preimages[h]|, st.preimages[h]))
  {
    var p := st.preimages[h];
    var k := PayloadSize(p);
    first, st' := PreimageAnswer(p), st.(queue := Singles(p[k..]));
    PreimageReply(sha, st, h);
    DrainDelivers(sha, st', 1);
    ConcatSingles(p[k..]);
    more := RepeatMore(sha, st', Rounds(|p| - k, 1)).value.0;
    PreimageAnswerParses(p, more);
  }

  lemma PreimageReply(sha: Hash, st: State, h: Digest)
    requires st.queue == [] && h in st.preimages && |st.preimages[h]| < U64
    ensures var p := st.preimages[h];
            Execute(sha, st, PreimageReq(h)) == Reply(Ok(PreimageAnswer(p)), st.(queue := Singles(p[PayloadSize(p)..])))
  {
    PreimageReqParses(h);
  }

  // ---------------------------------------------------------------- membership proofs

  function ProofReq(root: Digest, size: nat, index: nat): Bytes
    requires size < U64 && index < U64
  {
    [0x41] + (root + (CompactSize(size) + CompactSize(index)))
  }

  function Digests(b: Bytes): Result<seq<Digest>> {
    if b == [] then Ok([])
    else
      var (d, rest) :- ReadHash(b);
      var more :- Digests(rest);
      Ok([d] + more)
  }

  /** The leaf, the announced proof length and the proof the device reads from the answers. */
  function DecodeProof(first: Bytes, more: seq<Bytes>): Result<(Digest, nat, seq<Digest>)> {
    var (leaf, s1) :- ReadHash(first);
    var (n, s2) :- ReadLe(s1, 1);
    var (k, s3) :- ReadLe(s2, 1);
    var (data, _) :- Take(s3, 32 * k);
    var proof :- Digests(data + Payloads(more));
    Ok((leaf, n, proof))
  }

  lemma HashFirst(d: Digest, rest: Bytes)
    ensures ReadHash(d + rest) == Ok((d, rest))
  {
    assert (d + rest)[..32] == d && (d + rest)[32..] == rest;
  }

  lemma ProofReqParses(root: Digest, size: nat, index: nat)
    requires size < U64 && index < U64
    ensures ProofRequest(ProofReq(root, size, index)[1..]) == Ok(ProofQuery(root, size, index))
  {
    var s1 := CompactSize(size) + CompactSize(index);
    var s := root + s1;
    assert ProofReq(root, size, index)[1..] == s;
    HashFirst(root, s1);
    CompactSizeRoundTrip(size, CompactSize(index));
    assert CompactSize(index) + [] == CompactSize(index);
    CompactSizeRoundTrip(index, []);
  }

  lemma {:induction false} DigestsOfConcat(ds: seq<Digest>)
    ensures Digests(Concat(ds)) == Ok(ds)
  {
    if ds != [] {
      DigestsOfConcat(ds[1..]);
      HashFirst(ds[0], Concat(ds[1..]));
      assert ds == [ds[0]] + ds[1..];
    }
  }

  lemma ProofAnswerParses(leaf: Digest, proof: seq<Digest>, more: seq<Bytes>)
    requires |proof| < 256 && Payloads(more) == Concat(proof[Min(MAX_PROOF_ELEMENTS, |proof|)..])
    ensures DecodeProof(ProofAnswer(leaf, proof), more) == Ok((leaf, |proof|, proof))
  {
    var k := Min(MAX_PROOF_ELEMENTS, |proof|);
    var data := Concat(proof[..k]);
    var s1 := [|proof| as byte] + ([k as byte] + data);
    var first := ProofAnswer(leaf, proof);
    assert first == leaf + s1;
    HashFirst(leaf, s1);
    ReadTag(|proof| as byte, [k as byte] + data);
    ReadTag(k as byte, data);
    ConcatUniform(proof[..k], 32);
    assert data[..32 * k] == data;
    ConcatSplit(proof, k);
    DigestsOfConcat(proof);
  }

  /** Asked for leaf `i` of a known tree on an empty queue, the interpreter delivers that leaf and a
      proof the device can check against the root, in a bounded number of rounds. */
  lemma ProofDelivered(sha: Hash, st: State, root: Digest, i: nat)
    returns (first: Bytes, more: seq<Bytes>, st': State, n: nat, proof: seq<Digest>)
    requires st.queue == [] && root in st.trees && i < |st.trees[root]| < U64
    requires MerkleRoot(sha, st.trees[root]) == root
    ensures Execute(sha, st, ProofReq(root, |st.trees[root]|, i)) == Reply(Ok(first), st')
    ensures n <= 9 && RepeatMore(sha, st', n) == Ok((more, st))
    ensures DecodeProof(first, more) == Ok((st.trees[root][i], |proof|, proof))
    ensures RootFromProof(Tagged(sha), |st.trees[root]|, i, st.trees[root][i], proof) == Some(root)
  {
    var vs := st.trees[root];
    proof := ProofOf(Tagged(sha), vs, i);
    ProofReply(sha, st, root, i);
    var k := Min(MAX_PROOF_ELEMENTS, |proof|);
    first, st' := ProofAnswer(vs[i], proof), st.(queue := proof[k..]);
    n := Rounds(|proof| - k, 32);
    DrainDelivers(sha, st', 32);
    more := RepeatMore(sha, st', n).value.0;
    ProofAnswerParses(vs[i], proof, more);
    ProofComplete(Tagged(sha), vs, i);
  }

  lemma ProofReply(sha: Hash, st: State, root: Digest, i: nat)
    requires st.queue == [] && root in st.trees && i < |st.trees[root]| < U64
    ensures var vs := st.trees[root];
            var proof := ProofOf(Tagged(sha), vs, i);
            && |proof| <= 64
            && Execute(sha, st, ProofReq(root, |vs|, i)) ==
                 Reply(Ok(ProofAnswer(vs[i], proof)), st.(queue := proof[Min(MAX_PROOF_ELEMENTS, |proof|)..]))
  {
    ProofReqParses(root, |st.trees[root]|, i);
    ProofShort(sha, st.trees[root], i);
  }

  // ---------------------------------------------------------------- leaf indexes

  function IndexReq(root: Digest, leaf: Digest): Bytes {
    [0x42] + (root + leaf)
  }

  /** A flag and an index, and nothing behind them. */
  function DecodeIndex(a: Bytes): Result<(nat, nat)> {
    var (found, s1) :- ReadLe(a, 1);
    var (index, s2) :- ReadCompactSize(s1);
    var _ :- AssertEmpty(s2);
    Ok((found, index))
  }

  lemma IndexReqParses(root: Digest, leaf: Digest)
    ensures IndexRequest(IndexReq(root, leaf)[1..]) == Ok((root, leaf))
  {
    assert IndexReq(root, leaf)[1..] == root + leaf;
    HashFirst(root, leaf);
    assert leaf + [] == leaf;
    HashFirst(leaf, []);
  }

  lemma IndexAnswerParses(found: byte, index: nat)
    requires index < U64
    ensures DecodeIndex([found] + CompactSize(index)) == Ok((found as nat, index))
  {
    hide CompactSize, ReadCompactSize;
    ReadTag(found, CompactSize(index));
    assert CompactSize(index) + [] == CompactSize(index);
    CompactSizeRoundTrip(index, []);
  }

  /** Asked for a leaf of a known tree, the interpreter answers 1 and the least index of that leaf, or
      0 and 0 if the tree does not have it, and stays as it was. */
  lemma IndexDelivered(sha: Hash, st: State, root: Digest, leaf: Digest) returns (a: Bytes, i: nat)
    requires root in st.trees && |st.trees[root]| < U64
    ensures Execute(sha, st, IndexReq(root, leaf)) == Reply(Ok(a), st)
    ensures leaf !in st.trees[root] ==> DecodeIndex(a) == Ok((0, 0))
    ensures leaf in st.trees[root] ==>
              && DecodeIndex(a) == Ok((1, i)) && i < |st.trees[root]|
              && st.trees[root][i] == leaf && forall k :: 0 <= k < i ==> st.trees[root][k] != leaf
  {
    IndexReqParses(root, leaf);
    var at := IndexOf(st.trees[root], leaf);
    i := if at.Some? then at.value else 0;
    a := [if at.Some? then 1 else 0] + CompactSize(i);
    IndexAnswerParses(if at.Some? then 1 else 0, i);
  }

  // ---------------------------------------------------------------- yields and errors

  lemma YieldAppends(sha: Hash, st: State, data: Bytes)
    ensures Execute(sha, st, [0x10] + data) == Reply(Ok([]), st.(yielded := st.yielded + [data]))
  {
    assert ([0x10] + data)[1..] == data;
  }

  /** A byte that is none of the command codes, or no byte at all, is a RuntimeError. */
  lemma UnknownCommand(sha: Hash, st: State, req: Bytes)
    requires req == [] || req[0] !in {0x10, 0x40, 0x41, 0x42, 0xA0}
    ensures Execute(sha, st, req) == Reply(Err(RuntimeError), st)
  {}

  /** The errors of well-formed requests: what is not known, a size that is not that of the tree, and a
      proof asked for while elements wait. None of them changes anything. */
  lemma Refused(sha: Hash, st: State, h: Digest, root: Digest, leaf: Digest, size: nat, index: nat)
    requires size < U64 && index < U64
    ensures h !in st.preimages ==> Execute(sha, st, PreimageReq(h)) == Reply(Err(RuntimeError), st)
    ensures root !in st.trees ==> Execute(sha, st, IndexReq(root, leaf)) == Reply(Err(ValueError), st)
    ensures root !in st.trees || index >= size || |st.trees[root]| != size ==>
              Execute(sha, st, ProofReq(root, size, index)) == Reply(Err(ValueError), st)
    ensures root in st.trees && index < size == |st.trees[root]| && st.queue != [] ==>
              Execute(sha, st, ProofReq(root, size, index)) == Reply(Err(RuntimeError), st)
  {
    PreimageReqParses(h);
    IndexReqParses(root, leaf);
    ProofReqParses(root, size, index);
  }

  // ---------------------------------------------------------------- whole conversations

  /** The state after a conversation; an exception leaves the state the failing command left. */
  function Run(sha: Hash, st: State, reqs: seq<Bytes>): State
    decreases |reqs|
  {
    if reqs == [] then st else Run(sha, Execute(sha, st, reqs[0]).state, reqs[1..])
  }

  /** Queued elements are single bytes of a preimage or sibling hashes. */
  predicate Widths1Or32(queue: seq<Bytes>) {
    forall i :: 0 <= i < |queue| ==> |queue[i]| == 1 || |queue[i]| == 32
  }

  ghost predicate Mixed(queue: seq<Bytes>) {
    forall w: nat :: !Uniform(queue, w)
  }

  lemma ExecuteKeepsWidths(sha: Hash, st: State, req: Bytes)
    requires Widths1Or32(st.queue)
    ensures Widths1Or32(Execute(sha, st, req).state.queue)
    ensures var st' := Execute(sha, st, req).state; st'.preimages == st.preimages && st'.trees == st.trees
  {}

  /** In every conversation from an empty queue the queue holds elements of length 1 or 32 only, and
      what is known never changes. */
  lemma {:induction false} RunKeepsWidths(sha: Hash, st: State, reqs: seq<Bytes>)
    requires Widths1Or32(st.queue)
    ensures var st' := Run(sha, st, reqs);
            Widths1Or32(st'.queue) && st'.preimages == st.preimages && st'.trees == st.trees
    decreases |reqs|
  {
    if reqs != [] {
      ExecuteKeepsWidths(sha, st, reqs[0]);
      RunKeepsWidths(sha, Execute(sha, st, reqs[0]).state, reqs[1..]);
    }
  }

  /** The data of the requests that are yields. */
  function Yields(reqs: seq<Bytes>): seq<Bytes> {
    if reqs == [] then []
    else (if reqs[0] != [] && reqs[0][0] == 0x10 then [reqs[0][1..]] else []) + Yields(reqs[1..])
  }

  /** In every conversation what is yielded is recorded, in order, and nothing else is. */
  lemma {:induction false} RunYields(sha: Hash, st: State, reqs: seq<Bytes>)
    ensures Run(sha, st, reqs).yielded == st.yielded + Yields(reqs)
    decreases |reqs|
  {
    hide Execute;
    if reqs != [] {
      var st' := Execute(sha, st, reqs[0]).state;
      OnlyYieldsYield(sha, st, reqs[0]);
      RunYields(sha, st', reqs[1..]);
    }
  }

  lemma OnlyYieldsYield(sha: Hash, st: State, req: Bytes)
    ensures Execute(sha, st, req).state.yielded
         == st.yielded + if req != [] && req[0] == 0x10 then [req[1..]] else []
  {}

  /** GET_MORE_ELEMENTS answers exactly when the queue is non-empty and its elements have one length. */
  lemma MoreAnswersIff(sha: Hash, st: State)
    requires Widths1Or32(st.queue)
    ensures Execute(sha, st, MORE).answer.Ok? <==> st.queue != [] && !Mixed(st.queue)
  {
    if st.queue != [] {
      var w := |st.queue[0]|;
      if Uniform(st.queue, w) {
        var k, a := MoreStep(sha, st, w);
      } else {
        forall v: nat
          ensures !Uniform(st.queue, v)
        {
          if v != w { assert |st.queue[0]| != v; }
        }
      }
    }
  }

  /** GET_PREIMAGE does not look at the queue. Sent while elements of width `w` wait, it keeps their
      length uniform exactly when nothing has to be queued or single bytes were waiting. */
  lemma PreimageMixesIff(sha: Hash, st: State, h: Digest, w: nat)
    requires st.queue != [] && Uniform(st.queue, w)
    requires h in st.preimages && |st.preimages[h]| < U64
    ensures var p := st.preimages[h];
            Mixed(Execute(sha, st, PreimageReq(h)).state.queue) <==> PayloadSize(p) < |p| && w != 1
  {
    PreimageReqParses(h);
    var p := st.preimages[h];
    var tail := Singles(p[PayloadSize(p)..]);
    var q := st.queue + tail;
    assert Execute(sha, st, PreimageReq(h)).state.queue == q;
    if PayloadSize(p) == |p| {
      assert q == st.queue;
    } else if w == 1 {
      assert Uniform(q, 1);
    } else {
      forall v: nat
        ensures !Uniform(q, v)
      {
        assert |q[0]| == w && |q[|st.queue|]| == 1;
      }
    }
  }

  lemma ExecuteKeepsMixed(sha: Hash, st: State, req: Bytes)
    requires Mixed(st.queue)
    ensures Mixed(Execute(sha, st, req).state.queue) && Execute(sha, st, MORE).answer.Err?
  {
    var q, q' := st.queue, Execute(sha, st, req).state.queue;
    assert !Uniform(q, 0);
    assert !Uniform(q, |q[0]|);
    assert q <= q';
    forall v: nat
      ensures !Uniform(q', v)
    {
      assert !Uniform(q, v);
      var i :| 0 <= i < |q| && |q[i]| != v;
      assert |q'[i]| != v;
    }
  }

  /** A mixed queue is never served again: whatever the device sends, GET_MORE_ELEMENTS keeps raising. */
  lemma {:induction false} MixedIsStuck(sha: Hash, st: State, reqs: seq<Bytes>)
    requires Mixed(st.queue)
    ensures Execute(sha, Run(sha, st, reqs), MORE).answer.Err?
    decreases |reqs|
  {
    if reqs == [] {
      ExecuteKeepsMixed(sha, st, MORE);
    } else {
      ExecuteKeepsMixed(sha, st, reqs[0]);
      MixedIsStuck(sha, Execute(sha, st, reqs[0]).state, reqs[1..]);
    }
  }

  /** A device that asks for a preimage only once the queue is empty. */
  predicate Patient(sha: Hash, st: State, reqs: seq<Bytes>)
    decreases |reqs|
  {
    if reqs == [] then true
    else
      && (reqs[0] != [] && reqs[0][0] == GET_PREIMAGE ==> st.queue == [])
      && Patient(sha, Execute(sha, st, reqs[0]).state, reqs[1..])
  }

  ghost predicate Orderly(queue: seq<Bytes>) {
    Uniform(queue, 1) || Uniform(queue, 32)
  }

  lemma ExecuteKeepsOrder(sha: Hash, st: State, req: Bytes)
    requires Orderly(st.queue) && (req != [] && req[0] == GET_PREIMAGE ==> st.queue == [])
    ensures Orderly(Execute(sha, st, req).state.queue)
  {
    var q' := Execute(sha, st, req).state.queue;
    if req == [] {
    } else if req[0] == GET_PREIMAGE {
      assert Uniform(q', 1);
    } else if req[0] == GET_MERKLE_LEAF_PROOF {
      if Uniform(st.queue, 1) && st.queue != [] { assert Uniform(q', 1); } else { assert Uniform(q', 32); }
    } else if Uniform(st.queue, 1) {
      assert Uniform(q', 1);
    } else {
      assert Uniform(q', 32);
    }
  }

  /** With a patient device the queue always has elements of one length, so GET_MORE_ELEMENTS answers
      whenever something is waiting. */
  lemma {:induction false} PatientIsServed(sha: Hash, st: State, reqs: seq<Bytes>)
    requires Orderly(st.queue) && Patient(sha, st, reqs)
    ensures var st' := Run(sha, st, reqs);
            Orderly(st'.queue) && (st'.queue != [] ==> Execute(sha, st', MORE).answer.Ok?)
    decreases |reqs|
  {
    if reqs == [] {
      if st.queue != [] {
        var k, a := MoreStep(sha, st, if Uniform(st.queue, 1) then 1 else 32);
      }
    } else {
      ExecuteKeepsOrder(sha, st, reqs[0]);
      PatientIsServed(sha, Execute(sha, st, reqs[0]).state, reqs[1..]);
    }
  }
}
