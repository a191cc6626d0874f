/** Signing a PSBT with a Ledger: what is serialized is what the set-up parses and commits to. */
module PsbtSigning {
  import opened Python
  import opened Serialize
  import opened KeyValue
  import opened PsbtCodecs
  import opened PsbtMaps
  import opened Psbts
  import opened SigningSpec
  import opened ClientCommand
  import SigningRun

  /** The key-value pairs of one map, as they are serialized. */
  function Pairs(tb: Table, version: nat, f: Fields, list: Order): map<Bytes, Bytes>
    requires FieldsFit(tb, f)
  {
    ToMap(Records(tb, version, f, list))
  }

  function AllPairs(tb: Table, version: nat, fs: seq<Fields>, list: Order): seq<map<Bytes, Bytes>>
    requires AllWritable(tb, version, fs, list)
  {
    if fs == [] then []
    else AllPairs(tb, version, fs[..|fs| - 1], list) + [Pairs(tb, version, fs[|fs| - 1], list)]
  }

  lemma MapParsed(tb: Table, version: nat, f: Fields, list: Order, rest: Bytes)
    requires Writable(tb, version, f, list)
    ensures StreamToMap(SerMap(tb, version, f, list) + rest) == Ok((Pairs(tb, version, f, list), rest))
  {
    hide FieldsFit, Records, ReadRecords;
    RecordsRoundTrip(Records(tb, version, f, list), rest);
  }

  lemma {:induction false} MapsParsed(tb: Table, version: nat, fs: seq<Fields>, list: Order, rest: Bytes)
    requires AllWritable(tb, version, fs, list)
    ensures SigningRun.ReadMaps(SerMaps(tb, version, fs, list) + rest, |fs|) == Ok((AllPairs(tb, version, fs, list), rest))
    decreases |fs|
  {
    hide FieldsFit, Records, SerMap, StreamToMap, Pairs;
    if fs == [] {
      assert SerMaps(tb, version, fs, list) + rest == rest;
    } else {
      var n := |fs| - 1;
      SerMapsLast(tb, version, fs, list);
      MapParsed(tb, version, fs[n], list, rest);
      var last := SerMap(tb, version, fs[n], list);
      assert SerMaps(tb, version, fs, list) + rest == SerMaps(tb, version, fs[..n], list) + (last + rest);
      MapsParsed(tb, version, fs[..n], list, last + rest);
    }
  }

  /** The parser of the signing client finds the maps that were serialized. */
  lemma PsbtParsed(p: Psbt, list: Order)
    requires Serializable(p, list)
    ensures SigningRun.ReadPsbtMaps(PsbtBytes(p, list), |p.inputs|, |p.outputs|)
         == Ok((Pairs(GLOBAL, p.version, GlobalRecord(p), list), AllPairs(INPUT, p.version, p.inputs, list),
                AllPairs(OUTPUT, p.version, p.outputs, list)))
  {
    hide FieldsFit, Records, SerMap, SerMaps, AllWritable, StreamToMap, AllPairs, Pairs, SigningRun.ReadMaps, GlobalRecord;
    var g := SerMap(GLOBAL, p.version, GlobalRecord(p), list);
    var ins, outs := SerMaps(INPUT, p.version, p.inputs, list), SerMaps(OUTPUT, p.version, p.outputs, list);
    var s := PsbtBytes(p, list);
    assert s[..5] == PSBT_MAGIC && s[5..] == g + (ins + outs);
    assert outs + [] == outs;
    MapParsed(GLOBAL, p.version, GlobalRecord(p), list, ins + outs);
    MapsParsed(INPUT, p.version, p.inputs, list, outs);
    MapsParsed(OUTPUT, p.version, p.outputs, list, []);
  }

  // ------------------------------------------------------------ sizes

  lemma {:induction false} RecordsLength(rs: seq<Record>)
    requires RecordsOk(rs)
    ensures |rs| <= |SerRecords(rs)|
  {
    hide SerString;
    if rs != [] {
      RecordsLength(rs[1..]);
      assert |SerRecord(rs[0])| > 0 by { KeyThere(rs[0]); }
    }
  }

  lemma KeyThere(r: Record)
    requires 0 < |r.0| < U64 && |r.1| < U64
    ensures |SerRecord(r)| > 0
  {}

  lemma {:induction false} ToMapSize(rs: seq<Record>)
    ensures |ToMap(rs)| <= |rs|
    decreases |rs|
  {
    if rs != [] { ToMapSize(rs[..|rs| - 1]); }
  }

  lemma PairsSize(tb: Table, version: nat, f: Fields, list: Order)
    requires Writable(tb, version, f, list)
    ensures |Pairs(tb, version, f, list)| < |SerMap(tb, version, f, list)|
  {
    hide FieldsFit, Records, ToMap, SerRecords;
    ToMapSize(Records(tb, version, f, list));
    RecordsLength(Records(tb, version, f, list));
  }

  lemma {:induction false} AllPairsSize(tb: Table, version: nat, fs: seq<Fields>, list: Order)
    requires AllWritable(tb, version, fs, list)
    ensures forall m :: m in AllPairs(tb, version, fs, list) ==> |m| < |SerMaps(tb, version, fs, list)|
    decreases |fs|
  {
    hide FieldsFit, Records, SerMap, Pairs;
    if fs != [] {
      SerMapsLast(tb, version, fs, list);
      PairsSize(tb, version, fs[|fs| - 1], list);
      AllPairsSize(tb, version, fs[..|fs| - 1], list);
    }
  }

  lemma SizesOk(p: Psbt, list: Order)
    requires Serializable(p, list) && |PsbtBytes(p, list)| < U64
    ensures |Pairs(GLOBAL, p.version, GlobalRecord(p), list)| < U64
    ensures forall m :: m in AllPairs(INPUT, p.version, p.inputs, list) ==> |m| < U64
    ensures forall m :: m in AllPairs(OUTPUT, p.version, p.outputs, list) ==> |m| < U64
  {
    hide FieldsFit, Records, SerMap, SerMaps, AllWritable, Pairs, AllPairs, GlobalRecord;
    PairsSize(GLOBAL, p.version, GlobalRecord(p), list);
    AllPairsSize(INPUT, p.version, p.inputs, list);
    AllPairsSize(OUTPUT, p.version, p.outputs, list);
  }

  // ------------------------------------------------------------ the set-up

  /**
   * sign_psbt up to the request: it always succeeds, and the command data commit to exactly the maps that the PSBT
   * is serialized to, all of which the interpreter has been taught.
   */
  method SetUp(sha: Hash, p: Psbt, list: Order, w: Wallet, hmac: Option<Digest>)
    returns (r: Result<Bytes>, c: ClientCommandInterpreter)
    requires WalletOk(w) && Serializable(p, list) && |PsbtBytes(p, list)| < U64
    requires |p.inputs| < U64 && |p.outputs| < U64
    ensures p.version != 2 ==> r == Err(AssertionError)
    ensures p.version == 2 ==>
              var (g, ins, outs) := (Pairs(GLOBAL, 2, GlobalRecord(p), list), AllPairs(INPUT, 2, p.inputs, list),
                                     AllPairs(OUTPUT, 2, p.outputs, list));
              && r.Ok? && c.sha == sha
              && |g| < U64 && |ins| == |p.inputs| && |outs| == |p.outputs| && (forall m :: m in ins || m in outs ==> |m| < U64)
              && r.value == SignPsbtData(sha, g, ins, outs, w, hmac)
              && SigningRun.Taught(c, SetupLessons(sha, g, ins, outs, w))
  {
    hide FieldsFit, Records, SerMap, SerMaps, AllWritable, Pairs, AllPairs, GlobalRecord, PsbtBytes;
    if p.version != 2 {
      c := new ClientCommandInterpreter(sha);
      return Err(AssertionError), c;
    }
    PsbtParsed(p, list);
    SizesOk(p, list);
    r, c := SigningRun.SetUpSigning(sha, PsbtBytes(p, list), |p.inputs|, |p.outputs|, w, hmac);
  }
}
