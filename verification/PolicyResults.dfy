/** What wallet policies keep: parsed descriptors, and the templates of multisig wallets. */
module PolicyResults {
  import opened Python
  import opened Sequences
  import opened Strings
  import opened KeyPaths
  import opened KeyExpressions
  import opened Descriptors
  import opened DescriptorAccepted
  import opened DescriptorText
  import opened Templates
  import opened WalletPolicies

  // ------------------------------------------------------------ proper keys are fit for policies

  lemma {:induction false} ShortFromLen(path: seq<seq<int>>, seen: bool, allow: bool)
    requires IsPath(path, seen, allow) && Longest(path) <= 2
    ensures ShortPath(path)
    decreases |path|
  {
    if path != [] {
      ShortFromLen(path[1..], seen || |path[0]| > 1, allow);
      assert ShortEntry(path[0]);
      forall i | 0 <= i < |path| ensures ShortEntry(path[i]) {
        if i > 0 { assert path[i] == path[1..][i - 1]; }
      }
    }
  }

  predicate NoTemplateChars(s: string) {
    forall i :: 0 <= i < |s| ==> s[i] !in "@<*"
  }

  lemma NoTemplateConcat(a: string, b: string)
    requires NoTemplateChars(a) && NoTemplateChars(b)
    ensures NoTemplateChars(a + b)
  {}

  lemma {:induction false} SinglesText(path: seq<int>)
    requires forall i :: 0 <= i < |path| ==> IsIndex(path[i])
    ensures NoTemplateChars(PathText(Singles(path), '\''))
  {
    if path != [] {
      SinglesText(path[1..]);
      IndexTextShape(path[0], '\'');
      var x := IndexText(path[0], '\'');
      assert NoTemplateChars(x);
      assert Singles(path)[0] == [path[0]] && Singles(path)[1..] == Singles(path[1..]);
      assert EntryText([path[0]], '\'') == x;
      NoTemplateConcat("/", x);
      NoTemplateConcat("/" + x, PathText(Singles(path[1..]), '\''));
    }
  }

  lemma HexDigitPlain(d: nat)
    requires d < 16
    ensures HEX[d] !in "@<*"
  {}

  lemma {:induction false} HexPlain(b: Bytes)
    ensures NoTemplateChars(Hexlify(b))
  {
    if b != [] {
      HexPlain(b[1..]);
      HexDigitPlain(b[0] as int / 16);
      HexDigitPlain(b[0] as int % 16);
    }
  }

  lemma OriginPlain(o: Origin)
    requires IsOrigin(o)
    ensures NoTemplateChars("[" + OriginText(o, '\'') + "]")
  {
    HexPlain(o.fingerprint);
    SinglesText(o.path);
    NoTemplateConcat(Hexlify(o.fingerprint), PathText(Singles(o.path), '\''));
    NoTemplateConcat("[", OriginText(o, '\''));
    NoTemplateConcat("[" + OriginText(o, '\''), "]");
  }

  lemma ProperInfo(k: Key, check: KeyCheck)
    requires IsKey(k, check) && NoTemplateChars(k.pubkey)
    ensures InfoText(KeyInfo(k))
  {
    hide OriginText;
    if k.origin.Some? { OriginPlain(k.origin.value); }
    NoTemplateConcat(OriginPart(k, '\''), k.pubkey);
    var s := KeyInfo(k);
    assert s[|s| - 1] == k.pubkey[|k.pubkey| - 1];
  }

  lemma ProperInPolicy(k: Key, n: nat, check: KeyCheck)
    requires IsKey(k, check) && NoTemplateChars(k.pubkey) && PolicyKey(k) && k.exprIndex < n
    ensures InPolicy(k, n)
  {
    hide KeyInfo, InfoText;
    ProperInfo(k, check);
    if k.derivPath.Some? { ShortFromLen(k.derivPath.value, false, true); }
  }

  predicate FitForPolicy(k: Key, check: KeyCheck) {
    IsKey(k, check) && PolicyKey(k) && NoTemplateChars(k.pubkey)
  }

  lemma FitIsPolicy(d: Descriptor, check: KeyCheck)
    requires Numbered(AllKeys(d), 0) && forall k :: k in AllKeys(d) ==> FitForPolicy(k, check)
    ensures Template(d) == Ok(DescText(d, PlaceholderText)) && IsPolicy(d)
  {
    hide IsKey, PolicyKey, InPolicy, NoTemplateChars, DescText, AllKeys, KeyInfo;
    var keys := AllKeys(d);
    forall i | 0 <= i < |keys| ensures InPolicy(keys[i], |keys|) && PolicyKey(keys[i]) {
      assert keys[i] in keys;
      ProperInPolicy(keys[i], |keys|, check);
    }
  }

  lemma {:induction false} StructuredNumbered(d: Descriptor, ctx: Context, index: nat)
    requires Structured(d, ctx, index)
    ensures Numbered(AllKeys(d), index)
    decreases d
  {
    match d
    case Sh(sub) => StructuredNumbered(sub, P2SH, index);
    case Wsh(sub) => StructuredNumbered(sub, P2WSH, index);
    case Tr(_, scripts, _) => LeafKeysAreKeys(scripts);
    case _ =>
  }

  /** Two ways to write the same way of showing keys. */
  lemma ShowsAlike(d: Descriptor)
    ensures DescText(d, (k: Key) => KeyText(k, '\'')) == DescText(d, Shower('\''))
  {
    hide DescText, Parts, Flatten, Over, AllKeys, KeyText;
    var plain := (k: Key) => KeyText(k, '\'');
    PartsText(d, plain);
    PartsText(d, Shower('\''));
    PartsOver(d);
    FlattenAgrees(Parts(d), AllKeys(d), plain, Shower('\''));
  }

  /**
   * For every descriptor of the language whose keys are ranged with multipath steps of at most two: the
   * template exists, and filling the key information in and parsing the text gives the descriptor back.
   */
  lemma PolicyKeepsDescriptor(d: Descriptor, check: KeyCheck, change: bool)
    requires Structured(d, TOP, 0)
    requires forall k :: k in AllKeys(d) ==> FitForPolicy(k, check)
    ensures Template(d).Ok?
    ensures ParseDescriptor(GetDescriptor(Template(d).value, KeyInfos(AllKeys(d)), false, change), check) == Ok(d)
  {
    hide Structured, IsKey, PolicyKey, NoTemplateChars, DescText, GetDescriptor, ParseDescriptor, AllKeys, Template,
         IsPolicy, Numbered;
    StructuredNumbered(d, TOP, 0);
    FitIsPolicy(d, check);
    PolicyRoundTrip(d, false, change);
    ShowsAlike(d);
    assert ProperKeys(AllKeys(d), check) by {
      forall i | 0 <= i < |AllKeys(d)| ensures IsKey(AllKeys(d)[i], check) { assert AllKeys(d)[i] in AllKeys(d); }
    }
    TextRoundTrip(d, check, '\'');
  }

  // ------------------------------------------------------------ multisig wallets

  datatype AddressType = LEGACY | WIT | SH_WIT

  function Prefix(t: AddressType, op: string): string {
    match t
    case LEGACY => "sh(" + op + "("
    case WIT => "wsh(" + op + "("
    case SH_WIT => "sh(wsh(" + op + "("
  }

  function Suffix(t: AddressType): string {
    match t
    case LEGACY => "))"
    case WIT => "))"
    case SH_WIT => ")))"
  }

  function MultisigOp(isSorted: bool): string {
    if isSorted then "sortedmulti" else "multi"
  }

  /** The key list of a multisig template, from key `k` on. */
  function KeyList(k: nat, n: nat): (r: seq<string>)
    requires k <= n
    ensures |r| == n - k
    decreases n - k
  {
    if k == n then [] else [Placeholder(k) + "/**"] + KeyList(k + 1, n)
  }

  /** MultisigWallet's template for the second policy version; a bad threshold is a ValueError. */
  function MultisigTemplate(t: AddressType, threshold: int, n: nat, isSorted: bool): Result<string> {
    if !(1 <= threshold <= n <= 16) then Err(ValueError)
    else Ok(Prefix(t, MultisigOp(isSorted)) + (Str(threshold) + ",") + Join(KeyList(0, n), ',') + Suffix(t))
  }

  /** The keys of one branch: each key information with the branch and a wildcard. */
  function BranchKeys(keys: seq<string>, branch: string): (r: seq<string>)
    ensures |r| == |keys| && forall i :: 0 <= i < |keys| ==> r[i] == keys[i] + branch
  {
    if keys == [] then [] else [keys[0] + branch] + BranchKeys(keys[1..], branch)
  }

  function RefList(k: nat, n: nat, tail: string): seq<Piece>
    requires k <= n
    decreases n - k
  {
    if k == n then []
    else if k + 1 == n then [Ref(k, tail)]
    else [Ref(k, tail)] + [Text(",")] + RefList(k + 1, n, tail)
  }

  lemma RenderSingle(p: Piece, sub: nat -> string)
    ensures Render([p], sub) == RenderOne(p, sub)
  {
    assert [p][1..] == [];
    assert RenderOne(p, sub) + "" == RenderOne(p, sub);
  }

  lemma {:induction false} RenderList(k: nat, keys: seq<string>)
    requires k <= |keys|
    ensures Render(RefList(k, |keys|, "/**"), Partly(keys, |keys|)) == Join(KeyList(k, |keys|), ',')
    ensures Render(RefList(k, |keys|, "/**"), Partly(keys, 0)) == Join(BranchKeys(keys[k..], "/**"), ',')
    decreases |keys| - k
  {
    var n := |keys|;
    if k < n {
      var a, b := Partly(keys, n), Partly(keys, 0);
      assert keys[k..][0] == keys[k] && keys[k..][1..] == keys[k + 1..];
      RenderSingle(Ref(k, "/**"), a);
      RenderSingle(Ref(k, "/**"), b);
      if k + 1 < n {
        RenderList(k + 1, keys);
        var rest := RefList(k + 1, n, "/**");
        RenderSingle(Text(","), a);
        RenderSingle(Text(","), b);
        RenderConcat([Ref(k, "/**")], [Text(",")], a);
        RenderConcat([Ref(k, "/**")], [Text(",")], b);
        RenderConcat([Ref(k, "/**")] + [Text(",")], rest, a);
        RenderConcat([Ref(k, "/**")] + [Text(",")], rest, b);
        assert KeyList(k, n)[1..] == KeyList(k + 1, n);
        assert BranchKeys(keys[k..], "/**")[1..] == BranchKeys(keys[k + 1..], "/**");
      }
    }
  }

  lemma {:induction false} ListRefers(k: nat, n: nat)
    requires k <= n
    ensures Refers(RefList(k, n, "/**"), n)
    decreases n - k
  {
    if k + 1 < n {
      ListRefers(k + 1, n);
      var ps := RefList(k, n, "/**");
      forall i | 0 <= i < |ps|
        ensures match ps[i]
                case Text(t) => NoAt(t)
                case Ref(j, tail) => j < n && NoAt(tail) && tail != [] && !IsDigit(tail[0])
      {
        if i >= 2 { assert ps[i] == RefList(k + 1, n, "/**")[i - 2]; }
      }
    }
  }

  predicate InfoTexts(keys: seq<string>) {
    forall i :: 0 <= i < |keys| ==> InfoText(keys[i])
  }

  lemma ReplaceAt(c: char, s: string, put: string)
    requires c != '/' || s == [] || s[0] != '*'
    ensures Replace([c] + s, "/**", put) == [c] + Replace(s, "/**", put)
  {
    var t := [c] + s;
    assert t[1..] == s;
    if |t| >= 3 {
      assert t[..3][0] == c && t[..3][1] == s[0];
    }
  }

  /** Text without stars that does not end in a slash is passed over. */
  lemma {:induction false} ReplacePlain(a: string, rest: string, put: string)
    requires '*' !in a && (a != [] ==> a[|a| - 1] != '/')
    ensures Replace(a + rest, "/**", put) == a + Replace(rest, "/**", put)
    decreases |a|
  {
    hide Replace;
    if a == [] {
      assert a + rest == rest;
      assert "" + Replace(rest, "/**", put) == Replace(rest, "/**", put);
    } else {
      var c, more := a[0], a[1..];
      assert a == [c] + more;
      Associate([c], more, rest);
      if more != [] {
        assert (more + rest)[0] == a[1];
        assert more[|more| - 1] == a[|a| - 1];
      }
      ReplaceAt(c, more + rest, put);
      ReplacePlain(more, rest, put);
      Associate([c], more, Replace(rest, "/**", put));
    }
  }

  lemma StarsReplaced(key: string, rest: string, put: string)
    requires InfoText(key)
    ensures Replace(key + "/**" + rest, "/**", put) == key + put + Replace(rest, "/**", put)
  {
    hide Replace;
    Associate(key, "/**", rest);
    ReplacePlain(key, "/**" + rest, put);
    ReplaceHit("/**", rest, put);
    Associate(key, put, Replace(rest, "/**", put));
  }

  lemma {:induction false} ListReplaced(keys: seq<string>, rest: string, put: string)
    requires InfoTexts(keys)
    ensures Replace(Join(BranchKeys(keys, "/**"), ',') + rest, "/**", put)
         == Join(BranchKeys(keys, put), ',') + Replace(rest, "/**", put)
    decreases |keys|
  {
    hide Replace, InfoText;
    if keys == [] {
      assert "" + rest == rest && "" + Replace(rest, "/**", put) == Replace(rest, "/**", put);
    } else if |keys| == 1 {
      StarsReplaced(keys[0], rest, put);
      assert Join(BranchKeys(keys, "/**"), ',') == keys[0] + "/**";
      assert Join(BranchKeys(keys, put), ',') == keys[0] + put;
    } else {
      var more, moreDone := Join(BranchKeys(keys[1..], "/**"), ','), Join(BranchKeys(keys[1..], put), ',');
      assert BranchKeys(keys, "/**")[1..] == BranchKeys(keys[1..], "/**");
      assert BranchKeys(keys, put)[1..] == BranchKeys(keys[1..], put);
      assert Join(BranchKeys(keys, "/**"), ',') == keys[0] + "/**" + [','] + more;
      assert Join(BranchKeys(keys, put), ',') == keys[0] + put + [','] + moreDone;
      assert keys[0] + "/**" + [','] + more + rest == keys[0] + "/**" + ([','] + (more + rest));
      StarsReplaced(keys[0], [','] + (more + rest), put);
      ReplacePlain([','], more + rest, put);
      ListReplaced(keys[1..], rest, put);
      assert keys[0] + put + ([','] + (moreDone + Replace(rest, "/**", put)))
          == keys[0] + put + [','] + moreDone + Replace(rest, "/**", put);
    }
  }

  lemma {:induction false} ListUnchosen(keys: seq<string>, branch: string)
    requires InfoTexts(keys) && '<' !in branch
    ensures '<' !in Join(BranchKeys(keys, branch), ',')
    decreases |keys|
  {
    if |keys| == 1 {
      assert BranchKeys(keys, branch)[0] == keys[0] + branch;
    } else if |keys| > 1 {
      ListUnchosen(keys[1..], branch);
      assert BranchKeys(keys, branch)[1..] == BranchKeys(keys[1..], branch);
      assert InfoText(keys[0]);
    }
  }

  lemma PrefixPlain(t: AddressType, isSorted: bool)
    ensures NoTemplateChars(Prefix(t, MultisigOp(isSorted)))
    ensures NoTemplateChars(Suffix(t)) && Suffix(t) != [] && Suffix(t)[|Suffix(t)| - 1] == ')'
  {
    var op := MultisigOp(isSorted);
    OpPlain(isSorted);
    var script := match t case LEGACY => "sh(" case WIT => "wsh(" case SH_WIT => "sh(wsh(";
    assert NoTemplateChars(script) && NoTemplateChars("(");
    NoTemplateConcat(script, op);
    NoTemplateConcat(script + op, "(");
  }

  lemma OpPlain(isSorted: bool)
    ensures NoTemplateChars(MultisigOp(isSorted))
  {}

  lemma HeadPlain(t: AddressType, isSorted: bool, threshold: nat)
    ensures var head := Prefix(t, MultisigOp(isSorted)) + (Str(threshold) + ",");
            NoTemplateChars(head) && head[|head| - 1] == ','
  {
    hide Prefix, MultisigOp;
    PrefixPlain(t, isSorted);
    DecimalDigits(threshold);
    assert NoTemplateChars(Decimal(threshold));
    NoTemplateConcat(Decimal(threshold), ",");
    NoTemplateConcat(Prefix(t, MultisigOp(isSorted)), Decimal(threshold) + ",");
  }

  lemma RefersFramed(head: string, ps: seq<Piece>, tail: string, n: nat)
    requires NoAt(head) && NoAt(tail) && Refers(ps, n)
    ensures Refers([Text(head)] + ps + [Text(tail)], n)
  {}

  lemma RenderFramed(head: string, ps: seq<Piece>, tail: string, sub: nat -> string)
    ensures Render([Text(head)] + ps + [Text(tail)], sub) == head + Render(ps, sub) + tail
  {
    RenderSingle(Text(head), sub);
    RenderSingle(Text(tail), sub);
    RenderConcat([Text(head)], ps, sub);
    RenderConcat([Text(head)] + ps, [Text(tail)], sub);
  }

  /** After the loop every placeholder of a multisig template is its key, with the marker still behind it. */
  lemma MultisigSubstituted(head: string, tail: string, keys: seq<string>)
    requires NoAt(head) && NoAt(tail) && InfoTexts(keys)
    ensures Substitute(head + Join(KeyList(0, |keys|), ',') + tail, keys, |keys|)
         == head + Join(BranchKeys(keys, "/**"), ',') + tail
  {
    hide Render, Refers, Substitute, Join, KeyList, BranchKeys;
    var n := |keys|;
    var ps := [Text(head)] + RefList(0, n, "/**") + [Text(tail)];
    ListRefers(0, n);
    RefersFramed(head, RefList(0, n, "/**"), tail, n);
    RenderList(0, keys);
    assert keys[0..] == keys;
    RenderFramed(head, RefList(0, n, "/**"), tail, Partly(keys, n));
    RenderFramed(head, RefList(0, n, "/**"), tail, Partly(keys, 0));
    forall i | 0 <= i < n ensures NoAt(keys[i]) { assert InfoText(keys[i]); }
    SubstituteIsSimultaneous(ps, keys, n);
  }

  /**
   * A multisig wallet describes what it says: the descriptor is the script around the threshold and every
   * key in order, each with the receiving or the change branch.
   */
  lemma MultisigDescriptor(t: AddressType, threshold: int, keys: seq<string>, isSorted: bool, change: bool)
    requires InfoTexts(keys)
    ensures var template := MultisigTemplate(t, threshold, |keys|, isSorted);
            template.Ok? <==> 1 <= threshold <= |keys| <= 16
    ensures 1 <= threshold <= |keys| <= 16 ==>
              GetDescriptor(MultisigTemplate(t, threshold, |keys|, isSorted).value, keys, true, change)
              == Prefix(t, MultisigOp(isSorted)) + (Str(threshold) + ",")
                 + Join(BranchKeys(keys, if change then "/1/*" else "/0/*"), ',') + Suffix(t)
  {
    hide Substitute, Replace, Choose, Join, KeyList, BranchKeys, Str, Prefix, Suffix, InfoTexts, MultisigOp, NoTemplateChars;
    if 1 <= threshold <= |keys| <= 16 {
      var head, tail := Prefix(t, MultisigOp(isSorted)) + (Str(threshold) + ","), Suffix(t);
      PrefixPlain(t, isSorted);
      HeadPlain(t, isSorted, threshold);
      MultisigFilled(head, tail, keys, change);
    }
  }

  /** The same for any plain text around the list of keys. */
  lemma MultisigFilled(head: string, tail: string, keys: seq<string>, change: bool)
    requires InfoTexts(keys) && NoTemplateChars(head) && NoTemplateChars(tail)
    requires head != [] && head[|head| - 1] == ',' && tail != [] && tail[|tail| - 1] == ')'
    ensures GetDescriptor(head + Join(KeyList(0, |keys|), ',') + tail, keys, true, change)
         == head + Join(BranchKeys(keys, if change then "/1/*" else "/0/*"), ',') + tail
  {
    hide Substitute, Replace, Choose, Join, KeyList, BranchKeys, InfoTexts, NoTemplateChars;
    var put := if change then "/1/*" else "/0/*";
    PlainText(head);
    PlainText(tail);
    MultisigSubstituted(head, tail, keys);
    MultisigReplaced(head, tail, keys, put);
    ListUnchosen(keys, put);
    var text := head + Join(BranchKeys(keys, put), ',') + tail;
    LastOf(head + Join(BranchKeys(keys, put), ','), tail);
    NotInParts(head, Join(BranchKeys(keys, put), ','), tail, '<');
    Unchosen(text, change);
  }

  lemma PlainText(s: string)
    requires NoTemplateChars(s)
    ensures NoAt(s) && '<' !in s
  {}

  lemma NotInParts(a: string, b: string, c: string, ch: char)
    requires ch !in a && ch !in b && ch !in c
    ensures ch !in a + b + c
  {}

  lemma MultisigReplaced(head: string, tail: string, keys: seq<string>, put: string)
    requires InfoTexts(keys) && NoTemplateChars(head) && NoTemplateChars(tail)
    requires head != [] && head[|head| - 1] == ',' && tail != [] && tail[|tail| - 1] == ')'
    ensures Replace(head + Join(BranchKeys(keys, "/**"), ',') + tail, "/**", put)
         == head + Join(BranchKeys(keys, put), ',') + tail
  {
    hide Replace, Join, BranchKeys, InfoTexts;
    var list, done := Join(BranchKeys(keys, "/**"), ','), Join(BranchKeys(keys, put), ',');
    Associate(head, list, tail);
    ReplacePlain(head, list + tail, put);
    ListReplaced(keys, tail, put);
    ReplacePlain(tail, "", put);
    assert tail + "" == tail && Replace("", "/**", put) == "" by { ReplaceShort("", "/**", put); }
    Associate(head, done, tail);
  }

  lemma LastOf(a: string, b: string)
    requires b != []
    ensures (a + b)[|a + b| - 1] == b[|b| - 1]
  {}

  lemma Unchosen(s: string, change: bool)
    requires '<' !in s && s != [] && s[|s| - 1] != '/'
    ensures Choose(s, change) == s
  {
    ChooseNoAngle(s, "", change);
    assert s + "" == s;
    assert Choose("", change) == "";
  }
}
