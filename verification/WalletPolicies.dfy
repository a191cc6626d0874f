/** Wallet policies (BIP 388): descriptors split into a template and keys, and put together again. */
module WalletPolicies {
  import opened Python
  import opened Sequences
  import opened Strings
  import opened KeyPaths
  import opened KeyExpressions
  import opened TapTrees
  import opened Descriptors
  import opened DescriptorAccepted
  import opened Templates

  // ------------------------------------------------------------ choosing a multipath element

  /** The number of digits at the front. */
  function DigitsEnd(s: string): (n: nat)
    ensures n <= |s|
  {
    if s != [] && IsDigit(s[0]) then 1 + DigitsEnd(s[1..]) else 0
  }

  /** A match of the expression /<(\d+);(\d+)> at the front: both groups and the length. */
  function MatchMultipath(s: string): (m: Option<(string, string, nat)>)
    ensures m.Some? ==> 6 <= m.value.2 <= |s|
  {
    if |s| < 2 || s[0] != '/' || s[1] != '<' then None
    else
      var a := DigitsEnd(s[2..]);
      if a == 0 || 2 + a >= |s| || s[2 + a] != ';' then None
      else
        var b := DigitsEnd(s[3 + a..]);
        if b == 0 || 3 + a + b >= |s| || s[3 + a + b] != '>' then None
        else Some((s[2..2 + a], s[3 + a..3 + a + b], 4 + a + b))
  }

  /** re.sub with that expression: each match becomes a slash and one of its groups. */
  function Choose(s: string, change: bool): string
    decreases |s|
  {
    if s == [] then []
    else
      match MatchMultipath(s)
      case Some((m, n, len)) => "/" + (if change then n else m) + Choose(s[len..], change)
      case None => [s[0]] + Choose(s[1..], change)
  }

  /** WalletPolicy.get_descriptor; the loop is in PolicyDescriptor below. */
  function GetDescriptor(template: string, keys: seq<string>, v2: bool, change: bool): string {
    var desc := Substitute(template, keys, |keys|);
    var desc := Replace(desc, "/**", if change then "/1/*" else "/0/*");
    if v2 then Choose(desc, change) else desc
  }

  method PolicyDescriptor(template: string, keys: seq<string>, v2: bool, change: bool) returns (desc: string)
    ensures desc == GetDescriptor(template, keys, v2, change)
  {
    desc := template;
    for i := |keys| downto 0
      invariant Substitute(template, keys, |keys|) == Substitute(desc, keys, i)
    {
      desc := Replace(desc, Placeholder(i), keys[i]);
    }
    desc := Replace(desc, "/**", if change then "/1/*" else "/0/*");
    if v2 {
      desc := Choose(desc, change);
    }
  }

  // ------------------------------------------------------------ where nothing is chosen

  lemma ChoosePast(c: char, s: string, change: bool)
    requires c != '/' || s == [] || s[0] != '<'
    ensures Choose([c] + s, change) == [c] + Choose(s, change)
  {
    assert ([c] + s)[1..] == s;
  }

  lemma {:induction false} ChooseNoSlash(a: string, rest: string, change: bool)
    requires '/' !in a
    ensures Choose(a + rest, change) == a + Choose(rest, change)
    decreases |a|
  {
    hide Choose;
    if a == [] {
      assert a + rest == rest;
      assert "" + Choose(rest, change) == Choose(rest, change);
    } else {
      var c, more := a[0], a[1..];
      assert a == [c] + more;
      Associate([c], more, rest);
      ChoosePast(c, more + rest, change);
      ChooseNoSlash(more, rest, change);
      Associate([c], more, Choose(rest, change));
    }
  }

  lemma {:induction false} ChooseNoAngle(a: string, rest: string, change: bool)
    requires '<' !in a && (a != [] ==> a[|a| - 1] != '/')
    ensures Choose(a + rest, change) == a + Choose(rest, change)
    decreases |a|
  {
    hide Choose;
    if a == [] {
      assert a + rest == rest;
      assert "" + Choose(rest, change) == Choose(rest, change);
    } else {
      var c, more := a[0], a[1..];
      assert a == [c] + more;
      Associate([c], more, rest);
      if more != [] {
        assert (more + rest)[0] == a[1];
        assert more[|more| - 1] == a[|a| - 1];
      }
      ChoosePast(c, more + rest, change);
      ChooseNoAngle(more, rest, change);
      Associate([c], more, Choose(rest, change));
    }
  }

  // ------------------------------------------------------------ one path entry

  lemma {:induction false} DigitsEndAt(d: string, rest: string)
    requires AllDigits(d) && (rest == [] || !IsDigit(rest[0]))
    ensures DigitsEnd(d + rest) == |d|
    decreases |d|
  {
    if d == [] {
      assert d + rest == rest;
    } else {
      assert (d + rest)[0] == d[0] && (d + rest)[1..] == d[1..] + rest;
      DigitsEndAt(d[1..], rest);
    }
  }

  lemma MatchAt(m: string, n: string, rest: string)
    requires m != [] && n != [] && AllDigits(m) && AllDigits(n)
    ensures MatchMultipath("/<" + m + ";" + n + ">" + rest) == Some((m, n, |m| + |n| + 4))
    ensures ("/<" + m + ";" + n + ">" + rest)[|m| + |n| + 4..] == rest
  {
    var s := "/<" + m + ";" + n + ">" + rest;
    assert s[2..] == m + (";" + n + ">" + rest);
    DigitsEndAt(m, ";" + n + ">" + rest);
    assert s[3 + |m|..] == n + (">" + rest);
    DigitsEndAt(n, ">" + rest);
    assert s[2..2 + |m|] == m && s[3 + |m|..3 + |m| + |n|] == n;
  }

  lemma ChooseHit(m: string, n: string, rest: string, change: bool)
    requires m != [] && n != [] && AllDigits(m) && AllDigits(n)
    ensures Choose("/<" + m + ";" + n + ">" + rest, change) == "/" + (if change then n else m) + Choose(rest, change)
  {
    MatchAt(m, n, rest);
  }

  /** A hardened element keeps the expression from matching. */
  lemma NoMatchFirst(m: string, tail: string)
    requires AllDigits(m)
    ensures MatchMultipath("/<" + (m + "'" + tail)) == None
  {
    var s := "/<" + (m + "'" + tail);
    assert s[2..] == m + ("'" + tail);
    DigitsEndAt(m, "'" + tail);
  }

  lemma NoMatchSecond(m: string, n: string, tail: string)
    requires m != [] && AllDigits(m) && AllDigits(n)
    ensures MatchMultipath("/<" + (m + ";" + (n + "'" + tail))) == None
  {
    var s := "/<" + (m + ";" + (n + "'" + tail));
    assert s[2..] == m + (";" + (n + "'" + tail));
    DigitsEndAt(m, ";" + (n + "'" + tail));
    assert s[3 + |m|..] == n + ("'" + tail);
    DigitsEndAt(n, "'" + tail);
  }

  /** The element of a multipath entry that stays: both have to be unhardened. */
  function Pick(mp: seq<int>, change: bool): seq<int> {
    if |mp| == 2 && !IsHardened(mp[0]) && !IsHardened(mp[1]) then [mp[if change then 1 else 0]] else mp
  }

  function PickPath(path: seq<seq<int>>, change: bool): (r: seq<seq<int>>)
    ensures |r| == |path|
  {
    if path == [] then [] else [Pick(path[0], change)] + PickPath(path[1..], change)
  }

  lemma PairText(a: int, b: int)
    ensures EntryText([a, b], '\'') == "<" + (IndexText(a, '\'') + ";" + IndexText(b, '\'')) + ">"
  {
    var texts := IndexTexts([a, b], '\'');
    assert texts[0] == IndexText(a, '\'') && texts[1] == IndexText(b, '\'');
    assert texts[1..] == [IndexText(b, '\'')];
    assert Join(texts, ';') == texts[0] + [';'] + Join(texts[1..], ';');
  }

  lemma UnhardenedText(i: int)
    requires IsIndex(i) && !IsHardened(i)
    ensures IndexText(i, '\'') == Decimal(i) && AllDigits(Decimal(i))
  {
    DecimalDigits(i);
    assert Decimal(i) + [] == Decimal(i);
  }

  lemma HardenedText(i: int)
    requires IsIndex(i) && IsHardened(i)
    ensures IndexText(i, '\'') == Decimal(Unharden(i)) + "'" && AllDigits(Decimal(Unharden(i)))
  {
    HardenUnharden(i);
    DecimalDigits(Unharden(i));
  }

  lemma PairShape(x: string, y: string, rest: string)
    ensures "/" + ("<" + (x + ";" + y) + ">") + rest == "/<" + x + ";" + y + ">" + rest
    ensures "/" + ("<" + (x + ";" + y) + ">") + rest == "/<" + (x + (";" + y + ">" + rest))
    ensures "/" + ("<" + (x + ";" + y) + ">") + rest == "/<" + (x + ";" + (y + (">" + rest)))
  {}

  lemma ChooseMiss(s: string, change: bool)
    requires s != [] && MatchMultipath(s) == None
    ensures Choose(s, change) == [s[0]] + Choose(s[1..], change)
  {}

  /** A pair with a hardened element stays as it is. */
  lemma PairStays(x: string, y: string, rest: string, change: bool)
    requires '/' !in x && '/' !in y && MatchMultipath("/" + ("<" + (x + ";" + y) + ">") + rest) == None
    ensures Choose("/" + ("<" + (x + ";" + y) + ">") + rest, change)
         == "/" + ("<" + (x + ";" + y) + ">") + Choose(rest, change)
  {
    hide Choose, MatchMultipath;
    var e := "<" + (x + ";" + y) + ">";
    var s := "/" + e + rest;
    ChooseMiss(s, change);
    assert s[1..] == e + rest && s[0] == '/';
    ChooseNoSlash(e, rest, change);
    Associate("/", e, Choose(rest, change));
  }

  /** Indexes of an entry of one or two. */
  predicate ShortEntry(mp: seq<int>) {
    1 <= |mp| <= 2 && forall i :: 0 <= i < |mp| ==> IsIndex(mp[i])
  }

  lemma SingleStays(mp: seq<int>, rest: string, change: bool)
    requires |mp| == 1 && IsIndex(mp[0])
    ensures Choose("/" + EntryText(mp, '\'') + rest, change) == "/" + EntryText(mp, '\'') + Choose(rest, change)
  {
    hide Choose;
    var x := IndexText(mp[0], '\'');
    IndexTextShape(mp[0], '\'');
    assert '<' !in "/" + x;
    assert ("/" + x)[|x|] == x[|x| - 1];
    ChooseNoAngle("/" + x, rest, change);
  }

  lemma IndexNoSlash(i: int)
    requires IsIndex(i)
    ensures '/' !in IndexText(i, '\'')
  {
    IndexTextShape(i, '\'');
  }

  lemma PairChosen(a: int, b: int, rest: string, change: bool)
    requires IsIndex(a) && IsIndex(b)
    ensures Choose("/" + EntryText([a, b], '\'') + rest, change)
         == "/" + EntryText(Pick([a, b], change), '\'') + Choose(rest, change)
  {
    hide Choose, MatchMultipath, IndexText;
    var x, y := IndexText(a, '\''), IndexText(b, '\'');
    PairText(a, b);
    IndexNoSlash(a);
    IndexNoSlash(b);
    PairShape(x, y, rest);
    if IsHardened(a) {
      HardenedText(a);
      NoMatchFirst(Decimal(Unharden(a)), ";" + y + ">" + rest);
      PairStays(x, y, rest, change);
    } else if IsHardened(b) {
      UnhardenedText(a);
      HardenedText(b);
      NoMatchSecond(Decimal(a), Decimal(Unharden(b)), ">" + rest);
      PairStays(x, y, rest, change);
    } else {
      UnhardenedText(a);
      UnhardenedText(b);
      ChooseHit(x, y, rest, change);
    }
  }

  lemma EntryChosen(mp: seq<int>, rest: string, change: bool)
    requires ShortEntry(mp)
    ensures Choose("/" + EntryText(mp, '\'') + rest, change)
         == "/" + EntryText(Pick(mp, change), '\'') + Choose(rest, change)
  {
    hide Choose, EntryText;
    if |mp| == 1 {
      SingleStays(mp, rest, change);
    } else {
      assert mp == [mp[0], mp[1]];
      PairChosen(mp[0], mp[1], rest, change);
    }
  }

  predicate ShortPath(path: seq<seq<int>>) {
    forall i :: 0 <= i < |path| ==> ShortEntry(path[i])
  }

  lemma {:induction false} PathChosen(path: seq<seq<int>>, rest: string, change: bool)
    requires ShortPath(path)
    ensures Choose(PathText(path, '\'') + rest, change) == PathText(PickPath(path, change), '\'') + Choose(rest, change)
    decreases |path|
  {
    hide Choose, EntryText, Pick, ShortEntry;
    if path == [] {
      assert PathText(path, '\'') + rest == rest;
      assert PathText([], '\'') + Choose(rest, change) == Choose(rest, change);
    } else {
      var e, more := "/" + EntryText(path[0], '\''), PathText(path[1..], '\'');
      Associate(e, more, rest);
      EntryChosen(path[0], more + rest, change);
      PathChosen(path[1..], rest, change);
      Associate("/" + EntryText(Pick(path[0], change), '\''), PathText(PickPath(path[1..], change), '\''),
                Choose(rest, change));
      assert PickPath(path, change)[0] == Pick(path[0], change) && PickPath(path, change)[1..] == PickPath(path[1..], change);
    }
  }

  // ------------------------------------------------------------ keys of policies

  /** The key with its multipath element chosen. */
  function Chosen(k: Key, change: bool): Key {
    match k.derivPath
    case None => k
    case Some(path) => k.(derivPath := Some(PickPath(path, change)))
  }

  lemma StepsChosen(k: Key, rest: string, change: bool)
    requires k.ranged && (k.derivPath.Some? ==> ShortPath(k.derivPath.value))
    ensures Choose(StepsPart(k, '\'') + rest, change) == StepsPart(Chosen(k, change), '\'') + Choose(rest, change)
  {
    hide Choose, ShortPath;
    ChooseNoAngle("/*", rest, change);
    if k.derivPath.Some? && k.derivPath.value != [] {
      var path := k.derivPath.value;
      Associate(PathText(path, '\''), "/*", rest);
      PathChosen(path, "/*" + rest, change);
      Associate(PathText(PickPath(path, change), '\''), "/*", Choose(rest, change));
    } else {
      assert StepsPart(k, '\'') == "/*" && StepsPart(Chosen(k, change), '\'') == "/*";
    }
  }

  /** get_bip388_key_info */
  function KeyInfo(k: Key): string {
    OriginPart(k, '\'') + k.pubkey
  }

  lemma KeyTextIsInfo(k: Key)
    ensures KeyText(k, '\'') == KeyInfo(k) + StepsPart(k, '\'')
  {
    Associate(OriginPart(k, '\''), k.pubkey, StepsPart(k, '\''));
  }

  /** get_bip388_placeholder: only ranged keys with multipath entries of at most two. */
  predicate PolicyKey(k: Key) {
    k.ranged && MultipathLen(k) <= 2
  }

  function PlaceholderText(k: Key): string {
    Placeholder(k.exprIndex) + StepsPart(k, '\'')
  }

  /** get_bip388_template: any key that is not for policies is an InvalidPolicyError. */
  function Template(d: Descriptor): Result<string> {
    if forall i :: 0 <= i < |AllKeys(d)| ==> PolicyKey(AllKeys(d)[i]) then Ok(DescText(d, PlaceholderText))
    else Err(InvalidPolicyError)
  }

  /** The key information vector: get_bip388_key_info of get_pubkey_providers. */
  function KeyInfos(keys: seq<Key>): (r: seq<string>)
    ensures |r| == |keys| && forall i :: 0 <= i < |keys| ==> r[i] == KeyInfo(keys[i])
  {
    if keys == [] then [] else [KeyInfo(keys[0])] + KeyInfos(keys[1..])
  }

  // ------------------------------------------------------------ descriptors as parts

  datatype Part = Plain(text: string) | Shown(key: Key)

  function Flatten(ps: seq<Part>, show: Key -> string): string {
    if ps == [] then "" else FlattenOne(ps[0], show) + Flatten(ps[1..], show)
  }

  function FlattenOne(p: Part, show: Key -> string): string {
    match p
    case Plain(t) => t
    case Shown(k) => show(k)
  }

  lemma {:induction false} FlattenConcat(a: seq<Part>, b: seq<Part>, show: Key -> string)
    ensures Flatten(a + b, show) == Flatten(a, show) + Flatten(b, show)
    decreases |a|
  {
    if a == [] {
      assert a + b == b;
      assert "" + Flatten(b, show) == Flatten(b, show);
    } else {
      assert (a + b)[0] == a[0] && (a + b)[1..] == a[1..] + b;
      FlattenConcat(a[1..], b, show);
      Associate(FlattenOne(a[0], show), Flatten(a[1..], show), Flatten(b, show));
    }
  }

  lemma FlattenSingle(p: Part, show: Key -> string)
    ensures Flatten([p], show) == FlattenOne(p, show)
  {
    assert [p][1..] == [];
    assert FlattenOne(p, show) + "" == FlattenOne(p, show);
  }

  function KeyParts(keys: seq<Key>): seq<Part> {
    if keys == [] then []
    else if |keys| == 1 then [Shown(keys[0])]
    else [Shown(keys[0])] + [Plain(",")] + KeyParts(keys[1..])
  }

  function Parts(d: Descriptor): seq<Part>
    decreases d, 1
  {
    [Plain(Name(FuncFor(d)) + "(")] + BodyParts(d) + [Plain(")")]
  }

  function BodyParts(d: Descriptor): seq<Part>
    decreases d, 0
  {
    match d
    case Pk(k) => [Shown(k)]
    case Pkh(k) => [Shown(k)]
    case Wpkh(k) => [Shown(k)]
    case Multi(keys, thresh, _) => [Plain(Str(thresh) + ",")] + KeyParts(keys)
    case Sh(sub) => Parts(sub)
    case Wsh(sub) => Parts(sub)
    case Tr(internal, scripts, depths) => [Shown(internal)] + TreeParts([], scripts, depths)
  }

  /** The parts that the script tree printer emits from a given path on. */
  function TreeParts(path: seq<bool>, scripts: seq<Descriptor>, depths: seq<nat>): seq<Part>
    decreases scripts, 1
  {
    if scripts == [] || depths == [] then []
    else
      var p := Grow(path, depths[0]);
      [Plain("," + GrowText(|path|, depths[0]))] + Parts(scripts[0]) + [Plain(PoppedText(p))]
      + TreeParts(Flip(Popped(p)), scripts[1..], depths[1..])
  }

  lemma {:induction false} KeyPartsText(keys: seq<Key>, show: Key -> string)
    ensures Flatten(KeyParts(keys), show) == Join(KeyTexts(keys, show), ',')
    decreases |keys|
  {
    if |keys| == 1 {
      FlattenSingle(Shown(keys[0]), show);
    } else if |keys| > 1 {
      KeyPartsText(keys[1..], show);
      FlattenSingle(Shown(keys[0]), show);
      FlattenSingle(Plain(","), show);
      FlattenConcat([Shown(keys[0])], [Plain(",")], show);
      FlattenConcat([Shown(keys[0])] + [Plain(",")], KeyParts(keys[1..]), show);
      assert KeyTexts(keys, show)[1..] == KeyTexts(keys[1..], show);
    }
  }

  lemma Three(a: Part, b: seq<Part>, c: Part, show: Key -> string)
    ensures Flatten([a] + b + [c], show) == FlattenOne(a, show) + Flatten(b, show) + FlattenOne(c, show)
  {
    FlattenSingle(a, show);
    FlattenSingle(c, show);
    FlattenConcat([a], b, show);
    FlattenConcat([a] + b, [c], show);
  }

  /** The parts of a descriptor make its text, whatever its keys are shown as. */
  lemma {:induction false} PartsText(d: Descriptor, show: Key -> string)
    ensures Flatten(Parts(d), show) == DescText(d, show)
    decreases d, 1
  {
    hide Flatten, BodyParts, Body;
    BodyText(d, show);
    Three(Plain(Name(FuncFor(d)) + "("), BodyParts(d), Plain(")"), show);
  }

  lemma {:induction false} BodyText(d: Descriptor, show: Key -> string)
    ensures Flatten(BodyParts(d), show) == Body(d, show)
    decreases d, 0
  {
    hide Flatten, Parts, DescText;
    match d
    case Pk(k) => FlattenSingle(Shown(k), show);
    case Pkh(k) => FlattenSingle(Shown(k), show);
    case Wpkh(k) => FlattenSingle(Shown(k), show);
    case Multi(keys, thresh, _) =>
      FlattenSingle(Plain(Str(thresh) + ","), show);
      FlattenConcat([Plain(Str(thresh) + ",")], KeyParts(keys), show);
      KeyPartsText(keys, show);
    case Sh(sub) => PartsText(sub, show);
    case Wsh(sub) => PartsText(sub, show);
    case Tr(internal, scripts, depths) =>
      FlattenSingle(Shown(internal), show);
      FlattenConcat([Shown(internal)], TreeParts([], scripts, depths), show);
      TreePartsText([], scripts, depths, show);
  }

  lemma {:induction false} TreePartsText(path: seq<bool>, scripts: seq<Descriptor>, depths: seq<nat>, show: Key -> string)
    ensures Flatten(TreeParts(path, scripts, depths), show) == PrintAll(path, LeafTexts(scripts, depths, show))
    decreases scripts, 1
  {
    hide Parts, DescText, PrintOne;
    if scripts != [] && depths != [] {
      var p := Grow(path, depths[0]);
      var rest := TreeParts(Flip(Popped(p)), scripts[1..], depths[1..]);
      var items := LeafTexts(scripts, depths, show);
      PartsText(scripts[0], show);
      TreePartsText(Flip(Popped(p)), scripts[1..], depths[1..], show);
      Three(Plain("," + GrowText(|path|, depths[0])), Parts(scripts[0]), Plain(PoppedText(p)), show);
      FlattenConcat([Plain("," + GrowText(|path|, depths[0]))] + Parts(scripts[0]) + [Plain(PoppedText(p))], rest, show);
      assert items[1..] == LeafTexts(scripts[1..], depths[1..], show);
      PrintAllStep(path, items, p, Flip(Popped(p)));
      Regroup4(GrowText(|path|, depths[0]), DescText(scripts[0], show), PoppedText(p), Flatten(rest, show));
    }
  }

  lemma Regroup4(g: string, v: string, c: string, rest: string)
    ensures "," + g + v + c + rest == "," + (g + (v + (c + rest)))
  {}

  /** Plain text of descriptors: no character that means something in templates, paths or expressions. */
  predicate CleanText(t: string) {
    forall i :: 0 <= i < |t| ==> t[i] !in "@<*/"
  }

  predicate PartOver(p: Part, keys: seq<Key>) {
    match p
    case Plain(t) => CleanText(t)
    case Shown(k) => k in keys
  }

  /** Clean text and keys out of a given list. */
  predicate Over(ps: seq<Part>, keys: seq<Key>) {
    forall i :: 0 <= i < |ps| ==> PartOver(ps[i], keys)
  }

  lemma OverConcat(a: seq<Part>, b: seq<Part>, keys: seq<Key>)
    requires Over(a, keys) && Over(b, keys)
    ensures Over(a + b, keys)
  {
    hide PartOver;
  }

  lemma OverMore(ps: seq<Part>, some: seq<Key>, all: seq<Key>)
    requires Over(ps, some) && forall k :: k in some ==> k in all
    ensures Over(ps, all)
  {}

  lemma OverFramed(a: Part, ps: seq<Part>, c: Part, keys: seq<Key>)
    requires PartOver(a, keys) && Over(ps, keys) && PartOver(c, keys)
    ensures Over([a] + ps + [c], keys)
  {
    hide PartOver;
  }

  lemma {:induction false} KeyPartsOver(keys: seq<Key>, all: seq<Key>)
    requires forall k :: k in keys ==> k in all
    ensures Over(KeyParts(keys), all)
    decreases |keys|
  {
    if |keys| > 1 {
      forall k | k in keys[1..] ensures k in all {}
      KeyPartsOver(keys[1..], all);
      assert PartOver(Shown(keys[0]), all) && PartOver(Plain(","), all);
      OverConcat([Shown(keys[0])] + [Plain(",")], KeyParts(keys[1..]), all);
    } else if |keys| == 1 {
      assert PartOver(Shown(keys[0]), all);
    }
  }

  lemma NumberClean(i: int)
    ensures CleanText(Str(i) + ",")
  {
    hide Decimal;
    DecimalDigits(if i < 0 then -i else i);
  }

  lemma {:induction false} GrowClean(n: nat, depth: nat)
    ensures CleanText("," + GrowText(n, depth)) && CleanText(GrowText(n, depth))
    decreases depth + 1 - n
  {
    if n <= depth { GrowClean(n + 1, depth); }
  }

  lemma {:induction false} PoppedClean(path: seq<bool>)
    ensures CleanText(PoppedText(path))
  {
    if path != [] && path[|path| - 1] { PoppedClean(path[..|path| - 1]); }
  }

  lemma NameClean(func: Func)
    ensures CleanText(Name(func) + "(") && CleanText(")")
  {}

  lemma {:induction false} PartsOver(d: Descriptor)
    ensures Over(Parts(d), AllKeys(d))
    decreases d, 1
  {
    hide Over, CleanText, BodyParts, AllKeys;
    BodyOver(d);
    NameClean(FuncFor(d));
    OverFramed(Plain(Name(FuncFor(d)) + "("), BodyParts(d), Plain(")"), AllKeys(d));
  }

  lemma OverSingle(p: Part, keys: seq<Key>)
    requires PartOver(p, keys)
    ensures Over([p], keys)
  {}

  lemma {:induction false} BodyOver(d: Descriptor)
    ensures Over(BodyParts(d), AllKeys(d))
    decreases d, 0
  {
    hide Over, CleanText;
    match d
    case Pk(k) => OverSingle(Shown(k), AllKeys(d));
    case Pkh(k) => OverSingle(Shown(k), AllKeys(d));
    case Wpkh(k) => OverSingle(Shown(k), AllKeys(d));
    case Multi(keys, thresh, _) =>
      NumberClean(thresh);
      OverSingle(Plain(Str(thresh) + ","), keys);
      KeyPartsOver(keys, keys);
      OverConcat([Plain(Str(thresh) + ",")], KeyParts(keys), keys);
    case Sh(sub) => PartsOver(sub);
    case Wsh(sub) => PartsOver(sub);
    case Tr(internal, scripts, depths) =>
      OverSingle(Shown(internal), AllKeys(d));
      TreeOver([], scripts, depths);
      OverMore(TreeParts([], scripts, depths), KeysOf(scripts), AllKeys(d));
      OverConcat([Shown(internal)], TreeParts([], scripts, depths), AllKeys(d));
  }

  lemma {:induction false} TreeOver(path: seq<bool>, scripts: seq<Descriptor>, depths: seq<nat>)
    ensures Over(TreeParts(path, scripts, depths), KeysOf(scripts))
    decreases scripts, 1
  {
    hide CleanText, Parts, AllKeys;
    if scripts != [] && depths != [] {
      var p := Grow(path, depths[0]);
      var here := [Plain("," + GrowText(|path|, depths[0]))] + Parts(scripts[0]) + [Plain(PoppedText(p))];
      var rest := TreeParts(Flip(Popped(p)), scripts[1..], depths[1..]);
      GrowClean(|path|, depths[0]);
      PoppedClean(p);
      PartsOver(scripts[0]);
      OverFramed(Plain("," + GrowText(|path|, depths[0])), Parts(scripts[0]), Plain(PoppedText(p)), AllKeys(scripts[0]));
      OverMore(here, AllKeys(scripts[0]), KeysOf(scripts));
      TreeOver(Flip(Popped(p)), scripts[1..], depths[1..]);
      OverMore(rest, KeysOf(scripts[1..]), KeysOf(scripts));
      OverConcat(here, rest, KeysOf(scripts));
    }
  }

  // ------------------------------------------------------------ putting a policy together

  function ToPiece(p: Part): Piece {
    match p
    case Plain(t) => Text(t)
    case Shown(k) => Ref(k.exprIndex, StepsPart(k, '\''))
  }

  function ToPieces(ps: seq<Part>): (r: seq<Piece>)
    ensures |r| == |ps| && forall i :: 0 <= i < |ps| ==> r[i] == ToPiece(ps[i])
  {
    if ps == [] then [] else [ToPiece(ps[0])] + ToPieces(ps[1..])
  }

  /** Keys shown as something that depends on their number, with their derivation steps. */
  function WithSteps(sub: nat -> string): Key -> string {
    (k: Key) => sub(k.exprIndex) + StepsPart(k, '\'')
  }

  lemma {:induction false} RenderIsFlatten(ps: seq<Part>, sub: nat -> string)
    ensures Render(ToPieces(ps), sub) == Flatten(ps, WithSteps(sub))
  {
    hide StepsPart;
    if ps != [] {
      RenderIsFlatten(ps[1..], sub);
      assert ToPieces(ps)[0] == ToPiece(ps[0]) && ToPieces(ps)[1..] == ToPieces(ps[1..]);
    }
  }

  lemma {:induction false} FlattenAgrees(ps: seq<Part>, keys: seq<Key>, a: Key -> string, b: Key -> string)
    requires Over(ps, keys) && forall k :: k in keys ==> a(k) == b(k)
    ensures Flatten(ps, a) == Flatten(ps, b)
  {
    if ps != [] {
      assert PartOver(ps[0], keys);
      assert Over(ps[1..], keys) by {
        forall i | 0 <= i < |ps[1..]| ensures PartOver(ps[1..][i], keys) { assert ps[1..][i] == ps[i + 1]; }
      }
      FlattenAgrees(ps[1..], keys, a, b);
    }
  }

  /** Text whose stars never stand side by side, nor in front. */
  predicate Calm(s: string) {
    (s != [] ==> s[0] != '*') && forall i :: 0 <= i < |s| - 1 ==> !(s[i] == '*' && s[i + 1] == '*')
  }

  lemma CalmConcat(a: string, b: string)
    requires Calm(a) && Calm(b)
    ensures Calm(a + b)
  {}

  lemma {:induction false} NoDoubleStar(s: string, put: string)
    requires forall i :: 0 <= i < |s| - 1 ==> !(s[i] == '*' && s[i + 1] == '*')
    ensures Replace(s, "/**", put) == s
  {
    if |s| >= 3 {
      assert !(s[1] == '*' && s[2] == '*');
      NoDoubleStar(s[1..], put);
      assert s == [s[0]] + s[1..];
    }
  }

  lemma {:induction false} FlattenCalm(ps: seq<Part>, keys: seq<Key>, show: Key -> string)
    requires Over(ps, keys) && forall k :: k in keys ==> Calm(show(k))
    ensures Calm(Flatten(ps, show))
  {
    if ps != [] {
      assert PartOver(ps[0], keys);
      assert Over(ps[1..], keys) by {
        forall i | 0 <= i < |ps[1..]| ensures PartOver(ps[1..][i], keys) { assert ps[1..][i] == ps[i + 1]; }
      }
      FlattenCalm(ps[1..], keys, show);
      CalmConcat(FlattenOne(ps[0], show), Flatten(ps[1..], show));
    }
  }

  /** Key information as policies need it: nothing that templates and paths give a meaning. */
  predicate InfoText(s: string) {
    s != [] && s[|s| - 1] != '/' && forall i :: 0 <= i < |s| ==> s[i] !in "@<*"
  }

  /** Keys of a policy: numbered below `n`, ranged, with short paths and clean key information. */
  predicate InPolicy(k: Key, n: nat) {
    && k.exprIndex < n && k.ranged && InfoText(KeyInfo(k))
    && (k.derivPath.Some? ==> ShortPath(k.derivPath.value))
  }

  lemma {:induction false} PathTextChars(path: seq<seq<int>>)
    requires ShortPath(path)
    ensures forall i :: 0 <= i < |PathText(path, '\'')| ==> PathText(path, '\'')[i] !in "@*"
    ensures PathText(path, '\'') != [] ==> PathText(path, '\'')[0] == '/'
  {
    if path != [] {
      assert ShortEntry(path[0]);
      EntryShape(path[0], '\'');
      assert forall i :: 0 <= i < |EntryText(path[0], '\'')| ==> EntryText(path[0], '\'')[i] !in "@*";
      assert ShortPath(path[1..]);
      PathTextChars(path[1..]);
    }
  }

  lemma StepsShape(k: Key)
    requires k.ranged && (k.derivPath.Some? ==> ShortPath(k.derivPath.value))
    ensures var t := StepsPart(k, '\'');
            NoAt(t) && t != [] && t[0] == '/' && Calm(t)
  {
    if k.derivPath.Some? && k.derivPath.value != [] {
      PathTextChars(k.derivPath.value);
    }
  }

  lemma InfoWithSteps(k: Key, n: nat)
    requires InPolicy(k, n)
    ensures Calm(KeyInfo(k) + StepsPart(k, '\''))
  {
    hide StepsPart, KeyInfo;
    StepsShape(k);
    CalmConcat(KeyInfo(k), StepsPart(k, '\''));
  }

  /** Keys shown in full, and with their multipath element chosen. */
  function InfoShow(): Key -> string {
    (k: Key) => KeyInfo(k) + StepsPart(k, '\'')
  }

  function ChosenShow(change: bool): Key -> string {
    (k: Key) => KeyInfo(k) + StepsPart(Chosen(k, change), '\'')
  }

  lemma KeyChosen(k: Key, n: nat, rest: string, change: bool)
    requires InPolicy(k, n)
    ensures Choose(InfoShow()(k) + rest, change) == ChosenShow(change)(k) + Choose(rest, change)
  {
    hide Choose, StepsPart, KeyInfo, Chosen;
    var info, steps := KeyInfo(k), StepsPart(k, '\'');
    Associate(info, steps, rest);
    ChooseNoAngle(info, steps + rest, change);
    StepsChosen(k, rest, change);
    Associate(info, StepsPart(Chosen(k, change), '\''), Choose(rest, change));
  }

  lemma {:induction false} FlattenChosen(ps: seq<Part>, keys: seq<Key>, n: nat, change: bool)
    requires Over(ps, keys) && forall k :: k in keys ==> InPolicy(k, n)
    ensures Choose(Flatten(ps, InfoShow()), change) == Flatten(ps, ChosenShow(change))
  {
    hide InPolicy, KeyInfo, StepsPart, Chosen;
    if ps != [] {
      var rest := Flatten(ps[1..], InfoShow());
      assert PartOver(ps[0], keys);
      assert Over(ps[1..], keys) by {
        forall i | 0 <= i < |ps[1..]| ensures PartOver(ps[1..][i], keys) { assert ps[1..][i] == ps[i + 1]; }
      }
      FlattenChosen(ps[1..], keys, n, change);
      match ps[0]
      case Plain(t) => ChooseNoSlash(t, rest, change);
      case Shown(k) => KeyChosen(k, n, rest, change);
    }
  }

  lemma PiecesRefer(ps: seq<Part>, keys: seq<Key>, n: nat)
    requires Over(ps, keys) && forall k :: k in keys ==> InPolicy(k, n)
    ensures Refers(ToPieces(ps), n)
  {
    hide StepsPart, KeyInfo;
    forall i | 0 <= i < |ps|
      ensures match ToPieces(ps)[i]
              case Text(t) => NoAt(t)
              case Ref(k, tail) => k < n && NoAt(tail) && tail != [] && !IsDigit(tail[0])
    {
      assert PartOver(ps[i], keys);
      match ps[i]
      case Plain(t) =>
      case Shown(k) => StepsShape(k);
    }
  }

  /** A descriptor with the keys of a policy: numbered in order, and each fit for policies. */
  predicate IsPolicy(d: Descriptor) {
    var keys := AllKeys(d);
    Numbered(keys, 0) && forall i :: 0 <= i < |keys| ==> InPolicy(keys[i], |keys|)
  }

  lemma SubstituteDescriptor(d: Descriptor)
    requires IsPolicy(d)
    ensures var infos := KeyInfos(AllKeys(d));
            Substitute(DescText(d, PlaceholderText), infos, |infos|) == Flatten(Parts(d), InfoShow())
  {
    hide Flatten, Parts, DescText, InPolicy, StepsPart, KeyInfo, Render, Substitute, Refers, Over, AllKeys;
    var keys := AllKeys(d);
    var infos := KeyInfos(keys);
    var n := |keys|;
    PartsText(d, PlaceholderText);
    PartsOver(d);
    FlattenAgrees(Parts(d), keys, PlaceholderText, WithSteps(Partly(infos, n)));
    RenderIsFlatten(Parts(d), Partly(infos, n));
    PiecesRefer(Parts(d), keys, n);
    forall i | 0 <= i < n ensures NoAt(infos[i]) { InfoNoAt(keys[i], n); }
    SubstituteIsSimultaneous(ToPieces(Parts(d)), infos, n);
    RenderIsFlatten(Parts(d), Partly(infos, 0));
    forall k | k in keys ensures WithSteps(Partly(infos, 0))(k) == InfoShow()(k) {
      var i: nat :| i < n && keys[i] == k;
      assert k.exprIndex == i && infos[i] == KeyInfo(k);
    }
    FlattenAgrees(Parts(d), keys, WithSteps(Partly(infos, 0)), InfoShow());
  }

  lemma InfoNoAt(k: Key, n: nat)
    requires InPolicy(k, n)
    ensures NoAt(KeyInfo(k))
  {
    hide KeyInfo;
  }

  /**
   * A template and its keys lose nothing: filling the key information into the template of a descriptor
   * gives the descriptor back, with the receiving or the change element chosen in each multipath step
   * that is not hardened. Policies of the first version leave multipath steps alone.
   */
  lemma PolicyRoundTrip(d: Descriptor, v2: bool, change: bool)
    requires IsPolicy(d)
    ensures GetDescriptor(DescText(d, PlaceholderText), KeyInfos(AllKeys(d)), v2, change)
         == if v2 then DescText(d, (k: Key) => KeyText(Chosen(k, change), '\'')) else DescText(d, (k: Key) => KeyText(k, '\''))
  {
    hide Flatten, Parts, DescText, InPolicy, StepsPart, KeyInfo, Render, Substitute, Refers, Over, AllKeys, Replace,
         Choose, Calm, KeyText, Chosen;
    var keys := AllKeys(d);
    var full := Flatten(Parts(d), InfoShow());
    SubstituteDescriptor(d);
    PartsOver(d);
    forall k | k in keys ensures Calm(InfoShow()(k)) && InPolicy(k, |keys|) {
      InfoWithSteps(k, |keys|);
    }
    FlattenCalm(Parts(d), keys, InfoShow());
    CalmNoDoubleStar(full, if change then "/1/*" else "/0/*");
    FlattenChosen(Parts(d), keys, |keys|, change);
    var chosen := (k: Key) => KeyText(Chosen(k, change), '\'');
    var plain := (k: Key) => KeyText(k, '\'');
    forall k | k in keys ensures ChosenShow(change)(k) == chosen(k) && InfoShow()(k) == plain(k) {
      KeyTextIsInfo(k);
      KeyTextIsInfo(Chosen(k, change));
      ChosenInfo(k, change);
    }
    FlattenAgrees(Parts(d), keys, ChosenShow(change), chosen);
    FlattenAgrees(Parts(d), keys, InfoShow(), plain);
    PartsText(d, chosen);
    PartsText(d, plain);
  }

  lemma CalmNoDoubleStar(s: string, put: string)
    requires Calm(s)
    ensures Replace(s, "/**", put) == s
  {
    NoDoubleStar(s, put);
  }

  lemma ChosenInfo(k: Key, change: bool)
    ensures KeyInfo(Chosen(k, change)) == KeyInfo(k)
  {}
}
