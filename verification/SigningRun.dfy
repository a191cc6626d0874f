/** The set-up of NewClient.sign_psbt: parse the PSBT's maps, teach the interpreter, build the command. */
module SigningRun {
  import opened Python
  import opened Serialize
  import opened Streams
  import opened KeyValue
  import opened Ordering
  import opened CommandSpec
  import opened ClientCommand
  import opened SigningSpec

  type ByteMap = map<Bytes, Bytes>

  /** `n` maps in a row. */
  function ReadMaps(s: Bytes, n: nat): Result<(seq<ByteMap>, Bytes)> {
    if n == 0 then Ok(([], s))
    else
      var (ms, s1) :- ReadMaps(s, n - 1);
      var (m, s2) :- StreamToMap(s1);
      Ok((ms + [m], s2))
  }

  /** The global, input and output maps of a serialized PSBT. */
  function ReadPsbtMaps(s: Bytes, nIn: nat, nOut: nat): Result<(ByteMap, seq<ByteMap>, seq<ByteMap>)> {
    if |s| < 5 || s[..5] != PSBT_MAGIC then Err(AssertionError)
    else
      var (g, s1) :- StreamToMap(s[5..]);
      var (ins, s2) :- ReadMaps(s1, nIn);
      var (outs, _) :- ReadMaps(s2, nOut);
      Ok((g, ins, outs))
  }

  method ParseMaps(f: BytesIO, n: nat) returns (r: Result<seq<ByteMap>>)
    requires f.Valid()
    modifies f
    ensures f.Valid()
    ensures match ReadMaps(old(f.Rest()), n)
            case Ok((ms, rest)) => r == Ok(ms) && f.Rest() == rest
            case Err(e) => r == Err(e)
  {
    var ms: seq<ByteMap> := [];
    for i := 0 to n
      invariant f.Valid() && ReadMaps(old(f.Rest()), i) == Ok((ms, f.Rest()))
    {
      var m := ParseStreamToMap(f);
      if m.Err? {
        ReadMapsFails(old(f.Rest()), i + 1, n);
        return Err(m.error);
      }
      ms := ms + [m.value];
    }
    r := Ok(ms);
  }

  lemma {:induction false} ReadMapsFails(s: Bytes, i: nat, n: nat)
    requires i <= n && ReadMaps(s, i).Err?
    ensures ReadMaps(s, n) == Err(ReadMaps(s, i).error)
  {
    if i < n { ReadMapsFails(s, i, n - 1); }
  }

  lemma LearnAllAppend(sha: Hash, lessons: seq<Lesson>, x: Lesson)
    ensures LearnAll(sha, lessons + [x]) == Learn(sha, LearnAll(sha, lessons), x)
  {
    assert (lessons + [x])[..|lessons|] == lessons;
  }

  lemma LearnMap(sha: Hash, lessons: seq<Lesson>, m: ByteMap)
    ensures LearnAll(sha, lessons + MapLessons(m))
         == WithList(sha, WithList(sha, LearnAll(sha, lessons), Sorted(m.Keys)), SortedValues(m))
  {
    var ks, vs := List(Sorted(m.Keys)), List(SortedValues(m));
    LearnAllAppend(sha, lessons, ks);
    LearnAllAppend(sha, lessons + [ks], vs);
    assert lessons + MapLessons(m) == lessons + [ks] + [vs];
  }

  /** The interpreter has been taught exactly these lessons. */
  ghost predicate Taught(c: ClientCommandInterpreter, lessons: seq<Lesson>)
    reads c, c.Repr
  {
    c.Valid() && c.Model() == LearnAll(c.sha, lessons)
  }

  method TeachMap(c: ClientCommandInterpreter, m: ByteMap, ghost before: seq<Lesson>, ghost after: seq<Lesson>)
    requires Taught(c, before) && after == before + MapLessons(m)
    modifies c
    ensures Taught(c, after) && fresh(c.Repr - old(c.Repr))
  {
    c.AddKnownMapping(m);
    LearnMap(c.sha, before, m);
  }

  method TeachMaps(c: ClientCommandInterpreter, ms: seq<ByteMap>, ghost before: seq<Lesson>, ghost after: seq<Lesson>)
    requires Taught(c, before) && after == before + MapsLessons(ms)
    modifies c
    ensures Taught(c, after) && fresh(c.Repr - old(c.Repr))
  {
    ghost var now := LessonsUpTo(before, ms, 0);
    assert now == before;
    for i := 0 to |ms|
      invariant Taught(c, now) && fresh(c.Repr - old(c.Repr))
      invariant now == LessonsUpTo(before, ms, i)
    {
      MapsLessonsStep(before, ms, i);
      TeachMap(c, ms[i], now, LessonsUpTo(before, ms, i + 1));
      now := LessonsUpTo(before, ms, i + 1);
    }
    assert ms[..|ms|] == ms;
  }

  ghost function LessonsUpTo(before: seq<Lesson>, ms: seq<ByteMap>, i: nat): seq<Lesson>
    requires i <= |ms|
  {
    before + MapsLessons(ms[..i])
  }

  lemma MapsLessonsStep(before: seq<Lesson>, ms: seq<ByteMap>, i: nat)
    requires i < |ms|
    ensures LessonsUpTo(before, ms, i + 1) == LessonsUpTo(before, ms, i) + MapLessons(ms[i])
  {
    assert ms[..i + 1][..i] == ms[..i];
    assert MapsLessons(ms[..i + 1]) == MapsLessons(ms[..i]) + MapLessons(ms[i]);
  }

  method TeachList(c: ClientCommandInterpreter, es: seq<Bytes>, ghost before: seq<Lesson>, ghost after: seq<Lesson>)
    requires Taught(c, before) && after == before + [List(es)]
    modifies c
    ensures Taught(c, after) && fresh(c.Repr - old(c.Repr))
  {
    c.AddKnownList(es);
    LearnAllAppend(c.sha, before, List(es));
  }

  method TeachPreimage(c: ClientCommandInterpreter, p: Bytes, ghost before: seq<Lesson>, ghost after: seq<Lesson>)
    requires Taught(c, before) && after == before + [Preimage(p)]
    modifies c
    ensures Taught(c, after) && c.Repr == old(c.Repr)
  {
    c.AddKnownPreimage(p);
    LearnAllAppend(c.sha, before, Preimage(p));
  }

  method TeachWallet(sha: Hash, w: Wallet) returns (c: ClientCommandInterpreter)
    requires WalletOk(w)
    ensures fresh(c) && Taught(c, WalletLessons(sha, w)) && fresh(c.Repr) && c.sha == sha
  {
    ghost var l1 := [List(w.keys)];
    ghost var l2 := l1 + [Preimage(WalletBytes(sha, w))];
    ghost var l3 := l2 + [Preimage(w.template)];
    assert l3 == WalletLessons(sha, w);
    c := new ClientCommandInterpreter(sha);
    TeachList(c, w.keys, [], l1);
    TeachPreimage(c, WalletBytes(sha, w), l1, l2);
    TeachPreimage(c, w.template, l2, l3);
  }

  /** The interpreter knows what the returned command data commit to (see SigningRequestCovered). */
  method SetUpSigning(sha: Hash, psbt: Bytes, nIn: nat, nOut: nat, w: Wallet, hmac: Option<Digest>)
    returns (r: Result<Bytes>, c: ClientCommandInterpreter)
    requires WalletOk(w) && nIn < U64 && nOut < U64
    ensures r.Ok? ==>
              && ReadPsbtMaps(psbt, nIn, nOut).Ok?
              && var (g, ins, outs) := ReadPsbtMaps(psbt, nIn, nOut).value;
                 && |g| < U64 && |ins| == nIn && |outs| == nOut
                 && (forall m :: m in ins || m in outs ==> |m| < U64)
                 && r.value == SignPsbtData(sha, g, ins, outs, w, hmac)
                 && c.sha == sha && Taught(c, SetupLessons(sha, g, ins, outs, w))
    ensures match ReadPsbtMaps(psbt, nIn, nOut)
            case Err(e) => r == Err(e)
            case Ok((g, ins, outs)) => r.Ok? <==> |g| < U64 && forall m :: m in ins || m in outs ==> |m| < U64
  {
    var f := new BytesIO(psbt);
    c := TeachWallet(sha, w);
    var magic := f.Read(5);
    if magic != PSBT_MAGIC {
      return Err(AssertionError), c;
    }
    var maps := ParseThree(f, nIn, nOut, psbt);
    if maps.Err? {
      return Err(maps.error), c;
    }
    var (g, ins, outs) := maps.value;
    if |g| >= U64 || (exists m :: m in ins && |m| >= U64) || (exists m :: m in outs && |m| >= U64) {
      return Err(StructError), c;
    }
    TeachPsbt(c, g, ins, outs, w);
    ReadMapsCount(psbt, nIn, nOut);
    r := Ok(SignPsbtData(sha, g, ins, outs, w, hmac));
  }

  method ParseThree(f: BytesIO, nIn: nat, nOut: nat, ghost psbt: Bytes) returns (r: Result<(ByteMap, seq<ByteMap>, seq<ByteMap>)>)
    requires f.Valid() && |psbt| >= 5 && psbt[..5] == PSBT_MAGIC && f.Rest() == psbt[5..]
    modifies f
    ensures r == ReadPsbtMaps(psbt, nIn, nOut)
  {
    var g := ParseStreamToMap(f);
    if g.Err? {
      return Err(g.error);
    }
    var ins := ParseMaps(f, nIn);
    if ins.Err? {
      return Err(ins.error);
    }
    var outs := ParseMaps(f, nOut);
    if outs.Err? {
      return Err(outs.error);
    }
    r := Ok((g.value, ins.value, outs.value));
  }

  lemma ReadMapsCount(psbt: Bytes, nIn: nat, nOut: nat)
    requires ReadPsbtMaps(psbt, nIn, nOut).Ok?
    ensures var (g, ins, outs) := ReadPsbtMaps(psbt, nIn, nOut).value; |ins| == nIn && |outs| == nOut
  {
    var (g, s1) := StreamToMap(psbt[5..]).value;
    MapsCount(s1, nIn);
    MapsCount(ReadMaps(s1, nIn).value.1, nOut);
  }

  lemma {:induction false} MapsCount(s: Bytes, n: nat)
    ensures ReadMaps(s, n).Ok? ==> |ReadMaps(s, n).value.0| == n
  {
    if n > 0 { MapsCount(s, n - 1); }
  }

  method TeachPsbt(c: ClientCommandInterpreter, g: ByteMap, ins: seq<ByteMap>, outs: seq<ByteMap>, w: Wallet)
    requires WalletOk(w) && |g| < U64 && forall m :: m in ins || m in outs ==> |m| < U64
    requires Taught(c, WalletLessons(c.sha, w))
    modifies c
    ensures Taught(c, SetupLessons(c.sha, g, ins, outs, w))
  {
    var a, b := Commitments(c.sha, ins), Commitments(c.sha, outs);
    ghost var l0 := WalletLessons(c.sha, w);
    ghost var l1 := l0 + MapLessons(g);
    ghost var l2 := l1 + MapsLessons(ins);
    ghost var l3 := l2 + MapsLessons(outs);
    ghost var l4 := l3 + [List(a)];
    ghost var l5 := l4 + [List(b)];
    assert l5 == SetupLessons(c.sha, g, ins, outs, w);
    TeachMap(c, g, l0, l1);
    TeachMaps(c, ins, l1, l2);
    TeachMaps(c, outs, l2, l3);
    TeachList(c, a, l3, l4);
    TeachList(c, b, l4, l5);
  }
}
