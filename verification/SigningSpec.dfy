/** What the host commits to in a signing request, and what it has taught its interpreter by then. */
module SigningSpec {
  import opened Python
  import opened Serialize
  import opened Ordering
  import opened MerkleSpec
  import opened CommandSpec
  import opened CommandRuns

  /** One call of add_known_preimage or add_known_list. */
  datatype Lesson = Preimage(bytes: Bytes) | List(elements: seq<Bytes>)

  const EMPTY: State := State(map[], map[], [], [])

  function Learn(sha: Hash, st: State, lesson: Lesson): State {
    match lesson
    case Preimage(p) => st.(preimages := st.preimages[sha(p) := p])
    case List(es) => WithList(sha, st, es)
  }

  function LearnAll(sha: Hash, lessons: seq<Lesson>): State {
    if lessons == [] then EMPTY
    else Learn(sha, LearnAll(sha, lessons[..|lessons| - 1]), lessons[|lessons| - 1])
  }

  // ---------------------------------------------------------------- what stays true while learning

  function LeafHash(sha: Hash, e: Bytes): Digest {
    sha([0] + e)
  }

  ghost predicate PreimagesHash(sha: Hash, m: map<Digest, Bytes>) {
    forall h :: h in m ==> sha(m[h]) == h
  }

  /** Every known tree is the tree of a taught list, filed under its root. */
  ghost predicate TreesTaught(sha: Hash, trees: map<Digest, seq<Digest>>, lessons: seq<Lesson>) {
    forall r :: r in trees ==>
      exists es :: List(es) in lessons && trees[r] == ElementHashes(Tagged(sha), es) && ElementsRoot(sha, es) == r
  }

  ghost predicate LessonKept(sha: Hash, st: State, lesson: Lesson) {
    match lesson
    case Preimage(p) => sha(p) in st.preimages
    case List(es) => ElementsRoot(sha, es) in st.trees && forall e :: e in es ==> LeafHash(sha, e) in st.preimages
  }

  ghost predicate Sound(sha: Hash, st: State, lessons: seq<Lesson>) {
    && st.queue == []
    && PreimagesHash(sha, st.preimages)
    && TreesTaught(sha, st.trees, lessons)
    && forall x :: x in lessons ==> LessonKept(sha, st, x)
  }

  lemma {:induction false} WithPreimagesFacts(sha: Hash, m: map<Digest, Bytes>, es: seq<Bytes>)
    requires PreimagesHash(sha, m)
    ensures PreimagesHash(sha, WithPreimages(sha, m, es))
    ensures forall h :: h in m ==> h in WithPreimages(sha, m, es)
    ensures forall e :: e in es ==> LeafHash(sha, e) in WithPreimages(sha, m, es)
    decreases |es|
  {
    if es != [] {
      var m' := m[sha([0] + es[0]) := [0] + es[0]];
      WithPreimagesFacts(sha, m', es[1..]);
      assert LeafHash(sha, es[0]) in m';
      assert forall e :: e in es ==> e == es[0] || e in es[1..];
    }
  }

  lemma LearnKeeps(sha: Hash, st: State, lessons: seq<Lesson>, x: Lesson)
    requires Sound(sha, st, lessons)
    ensures Sound(sha, Learn(sha, st, x), lessons + [x])
  {
    var st' := Learn(sha, st, x);
    if x.List? { WithPreimagesFacts(sha, st.preimages, x.elements); }
    forall r | r in st'.trees
      ensures exists es :: List(es) in lessons + [x] && st'.trees[r] == ElementHashes(Tagged(sha), es)
                        && ElementsRoot(sha, es) == r
    {
      if x.List? && r == ElementsRoot(sha, x.elements) {
        assert List(x.elements) in lessons + [x];
      } else {
        var es :| List(es) in lessons && st.trees[r] == ElementHashes(Tagged(sha), es) && ElementsRoot(sha, es) == r;
        assert List(es) in lessons + [x];
      }
    }
    forall y | y in lessons + [x]
      ensures LessonKept(sha, st', y)
    {
      assert y == x || y in lessons;
      if y in lessons { assert LessonKept(sha, st, y); }
    }
  }

  /** Whatever is taught, in whatever order: stored preimages hash to their key, known trees are filed
      under their root, and every leaf of every taught list has a preimage. No collision is assumed away. */
  lemma {:induction false} LearnAllSound(sha: Hash, lessons: seq<Lesson>)
    ensures Sound(sha, LearnAll(sha, lessons), lessons)
  {
    if lessons != [] {
      var n := |lessons| - 1;
      LearnAllSound(sha, lessons[..n]);
      LearnKeeps(sha, LearnAll(sha, lessons[..n]), lessons[..n], lessons[n]);
      assert lessons == lessons[..n] + [lessons[n]];
    }
  }

  /** Something hashed for the list `es` has the all-zero hash that stands for the empty tree. */
  ghost predicate HashesToNil(sha: Hash, es: seq<Bytes>) {
    exists a :: a in ListInputs(Tagged(sha), es) && Tagged(sha)(a) == NIL
  }

  /** Two lists with one root: the same list, or an explicit SHA-256 collision (or preimage of zero) in their trees. */
  ghost predicate SameOrBroken(sha: Hash, es: seq<Bytes>, fs: seq<Bytes>) {
    es == fs || ShaCollides(sha, ListInputs(Tagged(sha), es), ListInputs(Tagged(sha), fs))
    || HashesToNil(sha, es) || HashesToNil(sha, fs)
  }

  lemma RootInput(sha: Hash, es: seq<Bytes>) returns (a: Input<Digest>)
    requires es != []
    ensures a in ListInputs(Tagged(sha), es) && Tagged(sha)(a) == ElementsRoot(sha, es)
  {
    if |es| == 1 {
      a := Element(es[0]);
    } else {
      var l, r := ListBranch(Tagged(sha), es);
      a := Pair(ListRoot(Tagged(sha), l), ListRoot(Tagged(sha), r));
    }
  }

  lemma SameRoot(sha: Hash, es: seq<Bytes>, fs: seq<Bytes>)
    requires ElementsRoot(sha, es) == ElementsRoot(sha, fs)
    ensures SameOrBroken(sha, es, fs)
  {
    if es == [] && fs == [] {
    } else if es == [] {
      var a := RootInput(sha, fs);
    } else if fs == [] {
      var a := RootInput(sha, es);
    } else {
      ElementsRootBinding(sha, es, fs);
    }
  }

  /** The root of a taught list is known, and the tree kept under it is the tree of that very list, or
      of a taught list that breaks the hash with it. */
  lemma TaughtRootKnown(sha: Hash, lessons: seq<Lesson>, es: seq<Bytes>) returns (fs: seq<Bytes>)
    requires List(es) in lessons
    ensures ElementsRoot(sha, es) in LearnAll(sha, lessons).trees && List(fs) in lessons
    ensures LearnAll(sha, lessons).trees[ElementsRoot(sha, es)] == ElementHashes(Tagged(sha), fs)
    ensures ElementsRoot(sha, fs) == ElementsRoot(sha, es) && SameOrBroken(sha, es, fs)
  {
    var st := LearnAll(sha, lessons);
    var root := ElementsRoot(sha, es);
    LearnAllSound(sha, lessons);
    assert LessonKept(sha, st, List(es));
    fs :| List(fs) in lessons && st.trees[root] == ElementHashes(Tagged(sha), fs) && ElementsRoot(sha, fs) == root;
    SameRoot(sha, es, fs);
  }

  lemma QueueStaysEmpty(sha: Hash, lessons: seq<Lesson>)
    ensures LearnAll(sha, lessons).queue == []
  {
    LearnAllSound(sha, lessons);
  }

  lemma HashAt(sha: Hash, es: seq<Bytes>, i: nat)
    requires i < |es|
    ensures ElementHashes(Tagged(sha), es)[i] == LeafHash(sha, es[i])
  {
    assert Encode(Element(es[i])) == [0] + es[i];
  }

  /** Asked for leaf `i` of a taught list, the interpreter delivers its hash with a proof that checks
      against the root, unless the list breaks the hash with another taught list. */
  lemma TaughtLeafServed(sha: Hash, lessons: seq<Lesson>, es: seq<Bytes>, i: nat)
    returns (fs: seq<Bytes>, first: Bytes, more: seq<Bytes>, st': State, n: nat, proof: seq<Digest>)
    requires List(es) in lessons && i < |es| < U64
    ensures List(fs) in lessons && SameOrBroken(sha, es, fs)
    ensures fs == es ==>
              && Execute(sha, LearnAll(sha, lessons), ProofReq(ElementsRoot(sha, es), |es|, i)) == Reply(Ok(first), st')
              && RepeatMore(sha, st', n) == Ok((more, LearnAll(sha, lessons)))
              && DecodeProof(first, more) == Ok((LeafHash(sha, es[i]), |proof|, proof))
              && RootFromProof(Tagged(sha), |es|, i, LeafHash(sha, es[i]), proof) == Some(ElementsRoot(sha, es))
  {
    fs := TaughtRootKnown(sha, lessons, es);
    QueueStaysEmpty(sha, lessons);
    HashAt(sha, es, i);
    if fs == es {
      first, more, st', n, proof := ProofDelivered(sha, LearnAll(sha, lessons), ElementsRoot(sha, es), i);
    } else {
      first, more, st', n, proof := [], [], EMPTY, 0, [];
    }
  }

  /** `j` is the first place in the list whose element has the leaf hash `x`. */
  ghost predicate FirstLeaf(sha: Hash, es: seq<Bytes>, x: Digest, j: nat) {
    j < |es| && LeafHash(sha, es[j]) == x && forall k :: 0 <= k < j ==> LeafHash(sha, es[k]) != x
  }

  /** Asked where a taught list has a leaf, the interpreter answers the first place, or that it is not there,
      unless the list breaks the hash with another taught list. */
  lemma TaughtIndexServed(sha: Hash, lessons: seq<Lesson>, es: seq<Bytes>, x: Digest)
    returns (fs: seq<Bytes>, a: Bytes, j: nat)
    requires List(es) in lessons && |es| < U64
    ensures List(fs) in lessons && SameOrBroken(sha, es, fs)
    ensures fs == es ==>
              Execute(sha, LearnAll(sha, lessons), IndexReq(ElementsRoot(sha, es), x)) == Reply(Ok(a), LearnAll(sha, lessons))
    ensures fs == es && (exists k :: 0 <= k < |es| && LeafHash(sha, es[k]) == x) ==>
              DecodeIndex(a) == Ok((1, j)) && FirstLeaf(sha, es, x, j)
    ensures fs == es && (forall k :: 0 <= k < |es| ==> LeafHash(sha, es[k]) != x) ==> DecodeIndex(a) == Ok((0, 0))
  {
    fs := TaughtRootKnown(sha, lessons, es);
    forall k | 0 <= k < |es| ensures ElementHashes(Tagged(sha), es)[k] == LeafHash(sha, es[k]) {
      HashAt(sha, es, k);
    }
    if fs == es {
      a, j := IndexDelivered(sha, LearnAll(sha, lessons), ElementsRoot(sha, es), x);
    } else {
      a, j := [], 0;
    }
  }

  /** Asked for the preimage of a leaf of a taught list, or of a taught preimage, the interpreter
      delivers bytes that hash to it; they are the taught ones unless the two collide. */
  lemma TaughtPreimageServed(sha: Hash, lessons: seq<Lesson>, p: Bytes)
    returns (q: Bytes, first: Bytes, more: seq<Bytes>, st': State)
    requires Preimage(p) in lessons || exists es, e :: List(es) in lessons && e in es && p == [0] + e
    ensures sha(q) == sha(p)
    ensures |q| < U64 ==>
              && Execute(sha, LearnAll(sha, lessons), PreimageReq(sha(p))) == Reply(Ok(first), st')
              && RepeatMore(sha, st', Rounds(|q| - PayloadSize(q), 1)) == Ok((more, LearnAll(sha, lessons)))
              && DecodePreimage(first, more) == Ok((|q|, q))
  {
    hide Execute, RepeatMore, DecodePreimage, LearnAll, Rounds, PreimageReq;
    var st := LearnAll(sha, lessons);
    LearnAllSound(sha, lessons);
    if Preimage(p) in lessons {
      assert LessonKept(sha, st, Preimage(p));
    } else {
      var es, e :| List(es) in lessons && e in es && p == [0] + e;
      assert LessonKept(sha, st, List(es));
      assert LeafHash(sha, e) == sha(p);
    }
    q := st.preimages[sha(p)];
    if |q| < U64 {
      first, more, st' := PreimageDelivered(sha, st, sha(p));
    } else {
      first, more, st' := [], [], EMPTY;
    }
  }

  // ---------------------------------------------------------------- commitments

  /** get_merkleized_map_commitment. */
  function MapCommitment(sha: Hash, m: map<Bytes, Bytes>): Bytes
    requires |m| < U64
  {
    CompactSize(|m|) + (ElementsRoot(sha, Sorted(m.Keys)) + ElementsRoot(sha, SortedValues(m)))
  }

  function Commitments(sha: Hash, ms: seq<map<Bytes, Bytes>>): (r: seq<Bytes>)
    requires forall m :: m in ms ==> |m| < U64
    ensures |r| == |ms| && forall i :: 0 <= i < |ms| ==> r[i] == MapCommitment(sha, ms[i])
  {
    seq(|ms|, i requires 0 <= i < |ms| => MapCommitment(sha, ms[i]))
  }

  /** A wallet policy with its texts already encoded. */
  datatype Wallet = Wallet(v1: bool, name: Bytes, template: Bytes, keys: seq<Bytes>)

  predicate WalletOk(w: Wallet) {
    |w.name| < 256 && |w.template| < U64 && |w.keys| < U64
  }

  /** WalletPolicy.serialize; its hash is the wallet id. */
  function WalletBytes(sha: Hash, w: Wallet): Bytes
    requires WalletOk(w)
  {
    [if w.v1 then 1 else 2] + ([|w.name| as byte] + (w.name + (CompactSize(|w.template|)
    + ((if w.v1 then w.template else sha(w.template)) + (CompactSize(|w.keys|) + ElementsRoot(sha, w.keys))))))
  }

  /** The data of the SIGN_PSBT command. */
  function SignPsbtData(sha: Hash, g: map<Bytes, Bytes>, ins: seq<map<Bytes, Bytes>>, outs: seq<map<Bytes, Bytes>>,
                        w: Wallet, hmac: Option<Digest>): Bytes
    requires |g| < U64 && |ins| < U64 && |outs| < U64 && WalletOk(w)
    requires forall m :: m in ins || m in outs ==> |m| < U64
  {
    MapCommitment(sha, g)
    + (CompactSize(|ins|) + (ElementsRoot(sha, Commitments(sha, ins))
    + (CompactSize(|outs|) + (ElementsRoot(sha, Commitments(sha, outs))
    + (sha(WalletBytes(sha, w)) + (if hmac.Some? then hmac.value else NIL))))))
  }

  /** What the device reads from them. */
  datatype MapRoots = MapRoots(size: nat, keys: Digest, values: Digest)

  datatype Request = Request(globals: MapRoots, inputCount: nat, inputs: Digest, outputCount: nat, outputs: Digest,
                             walletId: Digest, hmac: Digest)

  /** The template itself in version 1, its hash in version 2. */
  datatype WalletFields = WalletFields(version: nat, name: Bytes, templateLength: nat, template: Bytes, keyCount: nat,
                                       keys: Digest)

  function ReadMapRoots(s: Bytes): Result<(MapRoots, Bytes)> {
    var (n, s1) :- ReadVarint(s);
    var (k, s2) :- ReadHash(s1);
    var (v, s3) :- ReadHash(s2);
    Ok((MapRoots(n, k, v), s3))
  }

  function ReadRequest(s: Bytes): Result<Request> {
    var (g, s1) :- ReadMapRoots(s);
    var (nIn, s2) :- ReadVarint(s1);
    var (ins, s3) :- ReadHash(s2);
    var (nOut, s4) :- ReadVarint(s3);
    var (outs, s5) :- ReadHash(s4);
    var (id, s6) :- ReadHash(s5);
    var (hmac, s7) :- ReadHash(s6);
    var _ :- AssertEmpty(s7);
    Ok(Request(g, nIn, ins, nOut, outs, id, hmac))
  }

  function ReadWallet(s: Bytes): Result<WalletFields> {
    var (version, s1) :- ReadLe(s, 1);
    if version != 1 && version != 2 then Err(ValueError)
    else
      var (nameLength, s2) :- ReadLe(s1, 1);
      var (name, s3) :- Take(s2, nameLength);
      var (n, s4) :- ReadVarint(s3);
      var (template, s5) :- Take(s4, if version == 1 then n else 32);
      var (count, s6) :- ReadVarint(s5);
      var (keys, s7) :- ReadHash(s6);
      var _ :- AssertEmpty(s7);
      Ok(WalletFields(version, name, n, template, count, keys))
  }

  lemma MapCommitmentReads(sha: Hash, m: map<Bytes, Bytes>, rest: Bytes)
    requires |m| < U64
    ensures ReadMapRoots(MapCommitment(sha, m) + rest)
         == Ok((MapRoots(|m|, ElementsRoot(sha, Sorted(m.Keys)), ElementsRoot(sha, SortedValues(m))), rest))
  {
    var k, v := ElementsRoot(sha, Sorted(m.Keys)), ElementsRoot(sha, SortedValues(m));
    assert MapCommitment(sha, m) + rest == CompactSize(|m|) + (k + (v + rest));
    CompactSizeRoundTrip(|m|, k + (v + rest));
    HashFirst(k, v + rest);
    HashFirst(v, rest);
  }

  lemma RequestReads(sha: Hash, g: map<Bytes, Bytes>, ins: seq<map<Bytes, Bytes>>, outs: seq<map<Bytes, Bytes>>,
                     w: Wallet, hmac: Option<Digest>)
    requires |g| < U64 && |ins| < U64 && |outs| < U64 && WalletOk(w)
    requires forall m :: m in ins || m in outs ==> |m| < U64
    ensures ReadRequest(SignPsbtData(sha, g, ins, outs, w, hmac)) == Ok(Request(
      MapRoots(|g|, ElementsRoot(sha, Sorted(g.Keys)), ElementsRoot(sha, SortedValues(g))),
      |ins|, ElementsRoot(sha, Commitments(sha, ins)), |outs|, ElementsRoot(sha, Commitments(sha, outs)),
      sha(WalletBytes(sha, w)), if hmac.Some? then hmac.value else NIL))
  {
    var a, b, id := ElementsRoot(sha, Commitments(sha, ins)), ElementsRoot(sha, Commitments(sha, outs)), sha(WalletBytes(sha, w));
    var mac: Digest := if hmac.Some? then hmac.value else NIL;
    var s6 := id + mac;
    var s4 := CompactSize(|outs|) + (b + s6);
    MapCommitmentReads(sha, g, CompactSize(|ins|) + (a + s4));
    CountedHashReads(|ins|, a, s4);
    CountedHashReads(|outs|, b, s6);
    HashFirst(id, mac);
    HashAlone(mac);
  }

  lemma HashAlone(d: Digest)
    ensures ReadHash(d) == Ok((d, []))
  {
    assert d + [] == d;
    HashFirst(d, []);
  }

  lemma CountedHashReads(n: nat, d: Digest, rest: Bytes)
    requires n < U64
    ensures ReadVarint(CompactSize(n) + (d + rest)) == Ok((n, d + rest)) && ReadHash(d + rest) == Ok((d, rest))
  {
    CompactSizeRoundTrip(n, d + rest);
    HashFirst(d, rest);
  }

  /** Every field of a wallet can be read from its serialization. */
  lemma WalletReads(sha: Hash, w: Wallet)
    requires WalletOk(w)
    ensures ReadWallet(WalletBytes(sha, w)) == Ok(WalletFields(
      if w.v1 then 1 else 2, w.name, |w.template|, if w.v1 then w.template else sha(w.template),
      |w.keys|, ElementsRoot(sha, w.keys)))
  {
    var keys := ElementsRoot(sha, w.keys);
    var t: Bytes := if w.v1 then w.template else sha(w.template);
    var s5 := CompactSize(|w.keys|) + keys;
    var s4 := t + s5;
    var s3 := CompactSize(|w.template|) + s4;
    ReadTag(if w.v1 then 1 else 2, [|w.name| as byte] + (w.name + s3));
    ReadTag(|w.name| as byte, w.name + s3);
    TakeFirst(w.name, s3);
    CompactSizeRoundTrip(|w.template|, s4);
    TakeFirst(t, s5);
    CompactSizeRoundTrip(|w.keys|, keys);
    assert keys + [] == keys;
    HashFirst(keys, []);
  }

  /** Two wallets with one id have the same version, name, template and keys, or two different byte strings
      with one hash are named: the serializations, the templates, or what is hashed for the lists of keys. */
  lemma WalletIdBinding(sha: Hash, v: Wallet, w: Wallet) returns (a: Bytes, b: Bytes)
    requires WalletOk(v) && WalletOk(w) && sha(WalletBytes(sha, v)) == sha(WalletBytes(sha, w))
    ensures (a, b) in {(WalletBytes(sha, v), WalletBytes(sha, w)), (v.template, w.template)} && sha(a) == sha(b)
    ensures a != b || (v.v1 == w.v1 && v.name == w.name && v.template == w.template)
    ensures WalletBytes(sha, v) != WalletBytes(sha, w) ==> a != b
    ensures WalletBytes(sha, v) == WalletBytes(sha, w) ==> |v.keys| == |w.keys| && SameOrBroken(sha, v.keys, w.keys)
  {
    a, b := WalletBytes(sha, v), WalletBytes(sha, w);
    if a == b {
      WalletReads(sha, v);
      WalletReads(sha, w);
      SameRoot(sha, v.keys, w.keys);
      if sha(v.template) == sha(w.template) {
        a, b := v.template, w.template;
      }
    }
  }

  lemma TakeFirst(a: Bytes, rest: Bytes)
    ensures Take(a + rest, |a|) == Ok((a, rest))
  {
    assert (a + rest)[..|a|] == a && (a + rest)[|a|..] == rest;
  }

  // ---------------------------------------------------------------- the signing set-up

  function MapLessons(m: map<Bytes, Bytes>): seq<Lesson> {
    [List(Sorted(m.Keys)), List(SortedValues(m))]
  }

  function MapsLessons(ms: seq<map<Bytes, Bytes>>): seq<Lesson> {
    if ms == [] then [] else MapsLessons(ms[..|ms| - 1]) + MapLessons(ms[|ms| - 1])
  }

  function WalletLessons(sha: Hash, w: Wallet): seq<Lesson>
    requires WalletOk(w)
  {
    [List(w.keys), Preimage(WalletBytes(sha, w)), Preimage(w.template)]
  }

  /** What sign_psbt teaches its interpreter before it sends the command. */
  function SetupLessons(sha: Hash, g: map<Bytes, Bytes>, ins: seq<map<Bytes, Bytes>>, outs: seq<map<Bytes, Bytes>>,
                        w: Wallet): seq<Lesson>
    requires WalletOk(w)
    requires forall m :: m in ins || m in outs ==> |m| < U64
  {
    WalletLessons(sha, w) + MapLessons(g) + MapsLessons(ins) + MapsLessons(outs)
    + [List(Commitments(sha, ins)), List(Commitments(sha, outs))]
  }

  lemma {:induction false} MapsLessonsHold(ms: seq<map<Bytes, Bytes>>, i: nat)
    requires i < |ms|
    ensures List(Sorted(ms[i].Keys)) in MapsLessons(ms) && List(SortedValues(ms[i])) in MapsLessons(ms)
  {
    if i < |ms| - 1 {
      MapsLessonsHold(ms[..|ms| - 1], i);
    } else {
      assert MapLessons(ms[i])[0] in MapsLessons(ms) && MapLessons(ms[i])[1] in MapsLessons(ms);
    }
  }

  /** Both trees of a map were taught. */
  ghost predicate MapTaught(sha: Hash, lessons: seq<Lesson>, m: map<Bytes, Bytes>) {
    List(Sorted(m.Keys)) in lessons && List(SortedValues(m)) in lessons
  }

  lemma SetupTeaches(sha: Hash, g: map<Bytes, Bytes>, ins: seq<map<Bytes, Bytes>>, outs: seq<map<Bytes, Bytes>>, w: Wallet)
    requires WalletOk(w)
    requires forall m :: m in ins || m in outs ==> |m| < U64
    ensures var lessons := SetupLessons(sha, g, ins, outs, w);
            && List(w.keys) in lessons && Preimage(WalletBytes(sha, w)) in lessons && Preimage(w.template) in lessons
            && MapTaught(sha, lessons, g)
            && (forall m :: m in ins || m in outs ==> MapTaught(sha, lessons, m))
            && List(Commitments(sha, ins)) in lessons && List(Commitments(sha, outs)) in lessons
  {
    var lessons := SetupLessons(sha, g, ins, outs, w);
    var last := [List(Commitments(sha, ins)), List(Commitments(sha, outs))];
    assert WalletLessons(sha, w)[0] in lessons && WalletLessons(sha, w)[1] in lessons && WalletLessons(sha, w)[2] in lessons;
    assert MapLessons(g)[0] in lessons && MapLessons(g)[1] in lessons;
    assert last[0] in lessons && last[1] in lessons;
    forall m | m in ins || m in outs
      ensures MapTaught(sha, lessons, m)
    {
      if m in ins {
        var i :| 0 <= i < |ins| && ins[i] == m;
        MapsLessonsHold(ins, i);
      } else {
        var i :| 0 <= i < |outs| && outs[i] == m;
        MapsLessonsHold(outs, i);
      }
    }
  }

  /** Every root the request commits to is known when it is sent, and so is every root the device finds
      by following the committed leaves: the map roots inside each input and output commitment, and the
      template hash and key-list root inside the wallet serialization, which has the wallet's own version,
      name and template. */
  lemma SigningRequestCovered(sha: Hash, g: map<Bytes, Bytes>, ins: seq<map<Bytes, Bytes>>, outs: seq<map<Bytes, Bytes>>,
                              w: Wallet, hmac: Option<Digest>)
    returns (st: State, req: Request, fields: WalletFields)
    requires |g| < U64 && |ins| < U64 && |outs| < U64 && WalletOk(w)
    requires forall m :: m in ins || m in outs ==> |m| < U64
    ensures st == LearnAll(sha, SetupLessons(sha, g, ins, outs, w))
    ensures ReadRequest(SignPsbtData(sha, g, ins, outs, w, hmac)) == Ok(req)
    ensures req.globals.keys in st.trees && req.globals.values in st.trees
    ensures req.inputs in st.trees && req.outputs in st.trees
    ensures req.walletId in st.preimages && sha(WalletBytes(sha, w)) == req.walletId
    ensures ReadWallet(WalletBytes(sha, w)) == Ok(fields) && fields.keys in st.trees
    ensures fields.version == (if w.v1 then 1 else 2) && fields.name == w.name && fields.keyCount == |w.keys|
    ensures fields.templateLength == |w.template|
    ensures fields.template == (if w.v1 then w.template else sha(w.template))
    ensures sha(w.template) in st.preimages
    ensures forall m :: m in ins || m in outs ==> MapCovered(sha, st, m)
  {
    var lessons := SetupLessons(sha, g, ins, outs, w);
    st := LearnAll(sha, lessons);
    RequestReads(sha, g, ins, outs, w, hmac);
    req := ReadRequest(SignPsbtData(sha, g, ins, outs, w, hmac)).value;
    WalletReads(sha, w);
    fields := ReadWallet(WalletBytes(sha, w)).value;
    SetupTeaches(sha, g, ins, outs, w);
    ListKnown(sha, lessons, w.keys);
    ListKnown(sha, lessons, Sorted(g.Keys));
    ListKnown(sha, lessons, SortedValues(g));
    ListKnown(sha, lessons, Commitments(sha, ins));
    ListKnown(sha, lessons, Commitments(sha, outs));
    PreimageKnown(sha, lessons, WalletBytes(sha, w));
    PreimageKnown(sha, lessons, w.template);
    forall m | m in ins || m in outs
      ensures MapCovered(sha, st, m)
    {
      CoverMap(sha, lessons, if m in ins then ins else outs, m);
    }
  }

  /** The leaf that commits to a map has a preimage, and the roots inside the commitment are known. */
  ghost predicate MapCovered(sha: Hash, st: State, m: map<Bytes, Bytes>) {
    && |m| < U64
    && LeafHash(sha, MapCommitment(sha, m)) in st.preimages
    && var mr := ReadMapRoots(MapCommitment(sha, m));
       mr.Ok? && mr.value.0.keys in st.trees && mr.value.0.values in st.trees
  }

  lemma CoverMap(sha: Hash, lessons: seq<Lesson>, ms: seq<map<Bytes, Bytes>>, m: map<Bytes, Bytes>)
    requires m in ms && (forall x :: x in ms ==> |x| < U64)
    requires List(Commitments(sha, ms)) in lessons && MapTaught(sha, lessons, m)
    ensures MapCovered(sha, LearnAll(sha, lessons), m)
  {
    MapCommitmentReads(sha, m, []);
    assert MapCommitment(sha, m) + [] == MapCommitment(sha, m);
    ListKnown(sha, lessons, Sorted(m.Keys));
    ListKnown(sha, lessons, SortedValues(m));
    ListKnown(sha, lessons, Commitments(sha, ms));
    CommitmentListed(sha, ms, m);
  }

  lemma CommitmentListed(sha: Hash, ms: seq<map<Bytes, Bytes>>, m: map<Bytes, Bytes>)
    requires m in ms && forall x :: x in ms ==> |x| < U64
    ensures MapCommitment(sha, m) in Commitments(sha, ms)
  {
    var i :| 0 <= i < |ms| && ms[i] == m;
    assert Commitments(sha, ms)[i] == MapCommitment(sha, m);
  }

  lemma ListKnown(sha: Hash, lessons: seq<Lesson>, es: seq<Bytes>)
    requires List(es) in lessons
    ensures ElementsRoot(sha, es) in LearnAll(sha, lessons).trees
    ensures forall e :: e in es ==> LeafHash(sha, e) in LearnAll(sha, lessons).preimages
  {
    LearnAllSound(sha, lessons);
    assert LessonKept(sha, LearnAll(sha, lessons), List(es));
  }

  lemma PreimageKnown(sha: Hash, lessons: seq<Lesson>, p: Bytes)
    requires Preimage(p) in lessons
    ensures sha(p) in LearnAll(sha, lessons).preimages
  {
    LearnAllSound(sha, lessons);
    assert LessonKept(sha, LearnAll(sha, lessons), Preimage(p));
  }
}
