/** Parsing undoes printing, for every descriptor the parser can return. */
module DescriptorRoundTrip {
  import opened Python
  import opened Strings
  import opened KeyExpressions
  import opened TapTrees
  import opened Descriptors

  // ------------------------------------------------------------ well-formed descriptors

  /** A way to print keys, with the way to read them. */
  datatype KeyForm = KeyForm(show: Key -> string, read: KeyReader)

  /** Reading undoes printing for this key, and its text has no structuring characters. */
  predicate Fine(k: Key, f: KeyForm) {
    f.read(f.show(k), k.exprIndex) == Ok(k) && f.show(k) != [] && KeyChars(f.show(k))
  }

  /** Such keys, numbered from `index` on. */
  predicate Sequential(keys: seq<Key>, index: nat, f: KeyForm) {
    forall i :: 0 <= i < |keys| ==> Fine(keys[i], f) && keys[i].exprIndex == index + i
  }

  predicate IsMulti(keys: seq<Key>, thresh: int, ctx: Context) {
    && ctx != P2TR && 1 <= |keys| <= 16 && 1 <= thresh <= |keys| && (ctx == TOP ==> |keys| <= 3)
    && Multipaths(keys, None).Ok?
  }

  predicate AllPk(scripts: seq<Descriptor>) {
    forall i :: 0 <= i < |scripts| ==> scripts[i].Pk?
  }

  /** The keys of leaf scripts, which can only be pk(). */
  function LeafKeys(scripts: seq<Descriptor>): (r: seq<Key>)
    requires AllPk(scripts)
    ensures |r| == |scripts|
  {
    if scripts == [] then [] else [scripts[0].key] + LeafKeys(scripts[1..])
  }

  ghost predicate IsTree(scripts: seq<Descriptor>, depths: seq<nat>) {
    exists t: Tree<Descriptor> :: Height(t) <= MAX_TAPROOT_NODES && scripts == Leaves(t) && depths == Depths(t, 0)
  }

  /** Descriptors allowed in a context, with keys numbered in the order they are printed. */
  ghost predicate WellFormed(d: Descriptor, ctx: Context, index: nat, f: KeyForm) {
    match d
    case Pk(k) => Fine(k, f) && k.exprIndex == index
    case Pkh(k) => ctx != P2TR && Fine(k, f) && k.exprIndex == index
    case Wpkh(k) => (ctx == TOP || ctx == P2SH) && Fine(k, f) && k.exprIndex == index
    case Multi(keys, thresh, _) => IsMulti(keys, thresh, ctx) && Sequential(keys, index, f)
    case Sh(sub) => ctx == TOP && WellFormed(sub, P2SH, index, f)
    case Wsh(sub) => (ctx == TOP || ctx == P2SH) && WellFormed(sub, P2WSH, index, f)
    case Tr(internal, scripts, depths) =>
      && ctx == TOP && Fine(internal, f) && internal.exprIndex == index
      && AllPk(scripts) && Sequential(LeafKeys(scripts), index + 1, f)
      && Multipath(internal, None).Ok? && Multipaths(LeafKeys(scripts), Multipath(internal, None).value).Ok?
      && ((scripts == [] && depths == []) || IsTree(scripts, depths))
  }

  function KeyCount(d: Descriptor): nat {
    match d
    case Pk(_) => 1
    case Pkh(_) => 1
    case Wpkh(_) => 1
    case Multi(keys, _, _) => |keys|
    case Sh(sub) => KeyCount(sub)
    case Wsh(sub) => KeyCount(sub)
    case Tr(_, scripts, _) => 1 + |scripts|
  }

  // ------------------------------------------------------------ functions and keys

  /** The body of a printed function is what the parser takes apart. */
  lemma FuncText(name: string, body: string)
    requires '(' !in name
    ensures FuncExpr(name + "(" + body + ")") == Ok((name, body))
  {
    var s := name + "(" + body + ")";
    FindAt(name, '(', body + ")");
    assert s == name + ['('] + (body + ")");
    RFindAt(name + "(" + body, ')', "");
    assert s == name + "(" + body + [')'] + "";
    assert s[|name| + 1..|s| - 1] == body;
  }

  lemma NameReads(func: Func)
    ensures FuncOf(Name(func)) == Some(func) && '(' !in Name(func)
  {}

  /** A printed descriptor reaches the branch for its function with exactly its body. */
  lemma FuncParses(func: Func, body: string, ctx: Context, index: nat, read: KeyReader)
    requires Allowed(func, ctx)
    ensures Parse(Name(func) + "(" + body + ")", ctx, index, read) == ParseFunc(func, body, ctx, index, read)
  {
    NameReads(func);
    FuncText(Name(func), body);
  }

  lemma PubkeyLast(k: Key, f: KeyForm)
    requires Fine(k, f)
    ensures ParsePubkey(f.show(k), k.exprIndex, f.read) == Ok((k, []))
  {
    assert Find(f.show(k), ',') == None;
  }

  lemma PubkeyThen(k: Key, rest: string, f: KeyForm)
    requires Fine(k, f)
    ensures ParsePubkey(f.show(k) + "," + rest, k.exprIndex, f.read) == Ok((k, rest))
  {
    FindAt(f.show(k), ',', rest);
  }

  lemma KeysStep(expr: string, k: Key, rest: string, more: seq<Key>, last: nat, seen: Option<nat>, next: Option<nat>,
                 read: KeyReader)
    requires expr != [] && ParsePubkey(expr, k.exprIndex, read) == Ok((k, rest)) && Multipath(k, seen) == Ok(next)
    requires ParseKeys(rest, k.exprIndex + 1, next, read) == Ok((more, last))
    ensures ParseKeys(expr, k.exprIndex, seen, read) == Ok(([k] + more, last))
  {}

  lemma KeysLast(k: Key, seen: Option<nat>, f: KeyForm)
    requires Fine(k, f) && Multipath(k, seen).Ok?
    ensures ParseKeys(f.show(k), k.exprIndex, seen, f.read) == Ok(([k], k.exprIndex + 1))
  {
    hide ParsePubkey;
    PubkeyLast(k, f);
    KeysStep(f.show(k), k, [], [], k.exprIndex + 1, seen, Multipath(k, seen).value, f.read);
    assert [k] + [] == [k];
  }

  lemma KeysNext(k: Key, rest: string, keys: seq<Key>, last: nat, seen: Option<nat>, f: KeyForm)
    requires Fine(k, f) && Multipath(k, seen).Ok?
    requires ParseKeys(rest, k.exprIndex + 1, Multipath(k, seen).value, f.read) == Ok((keys, last))
    ensures ParseKeys(f.show(k) + "," + rest, k.exprIndex, seen, f.read) == Ok(([k] + keys, last))
  {
    hide ParseKeys, ParsePubkey;
    PubkeyThen(k, rest, f);
    KeysStep(f.show(k) + "," + rest, k, rest, keys, last, seen, Multipath(k, seen).value, f.read);
  }

  lemma SequentialConcat(a: seq<Key>, b: seq<Key>, index: nat, f: KeyForm)
    requires Sequential(a + b, index, f)
    ensures Sequential(a, index, f) && Sequential(b, index + |a|, f)
  {
    forall i | 0 <= i < |a| ensures Fine(a[i], f) && a[i].exprIndex == index + i {
      assert (a + b)[i] == a[i];
    }
    forall i | 0 <= i < |b| ensures Fine(b[i], f) && b[i].exprIndex == index + |a| + i {
      assert (a + b)[|a| + i] == b[i];
    }
  }

  lemma {:induction false} MultipathsConcat(a: seq<Key>, b: seq<Key>, seen: Option<nat>)
    requires Multipaths(a + b, seen).Ok?
    ensures Multipaths(a, seen).Ok? && Multipaths(b, Multipaths(a, seen).value) == Multipaths(a + b, seen)
    decreases |a|
  {
    if a == [] {
      assert a + b == b;
    } else {
      assert (a + b)[1..] == a[1..] + b;
      MultipathsConcat(a[1..], b, Multipath(a[0], seen).value);
    }
  }

  lemma JoinKeys(k: Key, more: seq<Key>, show: Key -> string)
    ensures Join(KeyTexts([k] + more, show), ',')
         == if more == [] then show(k) else show(k) + "," + Join(KeyTexts(more, show), ',')
  {
    assert ([k] + more)[1..] == more;
    var texts := KeyTexts(more, show);
    assert KeyTexts([k] + more, show) == [show(k)] + texts;
    assert ([show(k)] + texts)[1..] == texts;
  }

  lemma {:induction false} KeysRoundTrip(keys: seq<Key>, index: nat, seen: Option<nat>, f: KeyForm)
    requires keys != [] && Sequential(keys, index, f) && Multipaths(keys, seen).Ok?
    ensures ParseKeys(Join(KeyTexts(keys, f.show), ','), index, seen, f.read) == Ok((keys, index + |keys|))
    decreases |keys|
  {
    hide ParseKeys, Fine, KeyTexts, Join;
    var k, more := keys[0], keys[1..];
    assert keys == [k] + more;
    SequentialConcat([k], more, index, f);
    assert [k][0] == k;
    JoinKeys(k, more, f.show);
    if more == [] {
      KeysLast(k, seen, f);
      assert keys == [k];
    } else {
      KeysRoundTrip(more, index + 1, Multipath(k, seen).value, f);
      KeysNext(k, Join(KeyTexts(more, f.show), ','), more, index + |keys|, seen, f);
    }
  }

  lemma MultiRoundTrip(keys: seq<Key>, thresh: int, isSorted: bool, ctx: Context, index: nat, f: KeyForm)
    requires IsMulti(keys, thresh, ctx) && Sequential(keys, index, f)
    ensures ParseMulti(Str(thresh) + "," + Join(KeyTexts(keys, f.show), ','), isSorted, ctx, index, f.read)
         == Ok((Multi(keys, thresh, isSorted), index + |keys|))
  {
    DecimalDigits(thresh);
    IntOfDecimal(thresh);
    assert ',' !in Decimal(thresh);
    FindAt(Decimal(thresh), ',', Join(KeyTexts(keys, f.show), ','));
    KeysRoundTrip(keys, index, None, f);
  }

  // ------------------------------------------------------------ script trees

  /** What can stand behind a leaf script. */
  predicate LeafEnd(rest: string) {
    rest == [] || rest[0] == ',' || rest[0] == '}'
  }

  lemma EndPlain(c: char, s: string, level: nat)
    requires c !in "(){}" && (level == 0 ==> c != ',')
    ensures ExprEnd([c] + s, level) == 1 + ExprEnd(s, level)
  {
    assert ([c] + s)[1..] == s;
  }

  lemma EndOpen(s: string, level: nat)
    ensures ExprEnd("(" + s, level) == 1 + ExprEnd(s, level + 1)
    ensures ExprEnd(")" + s, level + 1) == 1 + ExprEnd(s, level)
  {
    assert ("(" + s)[1..] == s && (")" + s)[1..] == s;
  }

  lemma {:induction false} KeyEnd(k: string, rest: string)
    requires KeyChars(k) && LeafEnd(rest)
    ensures ExprEnd(k + (")" + rest), 1) == |k| + 1
  {
    if k == [] {
      assert k + (")" + rest) == ")" + rest;
      EndOpen(rest, 0);
    } else {
      KeyEnd(k[1..], rest);
      EndPlain(k[0], k[1..] + (")" + rest), 1);
      assert [k[0]] + (k[1..] + (")" + rest)) == k + (")" + rest);
    }
  }

  lemma LeafShape(k: string, rest: string)
    ensures "pk" + "(" + k + ")" + rest == ['p'] + (['k'] + ("(" + (k + (")" + rest))))
  {}

  lemma EndName(s: string, n: nat)
    requires ExprEnd("(" + s, 0) == n
    ensures ExprEnd(['p'] + (['k'] + ("(" + s)), 0) == n + 2
  {
    EndPlain('k', "(" + s, 0);
    EndPlain('p', ['k'] + ("(" + s), 0);
  }

  /** A printed leaf script is cut off whole from what follows it. */
  lemma LeafEnds(k: string, rest: string)
    requires KeyChars(k) && LeafEnd(rest)
    ensures ExprEnd("pk" + "(" + k + ")" + rest, 0) == |k| + 4
  {
    var body := k + (")" + rest);
    KeyEnd(k, rest);
    EndOpen(body, 0);
    EndName(body, |k| + 2);
    LeafShape(k, rest);
  }

  lemma PkRoundTrip(k: Key, ctx: Context, f: KeyForm)
    requires Fine(k, f)
    ensures Parse("pk" + "(" + f.show(k) + ")", ctx, k.exprIndex, f.read) == Ok((Pk(k), k.exprIndex + 1))
  {
    FuncParses(PK, f.show(k), ctx, k.exprIndex, f.read);
    PubkeyLast(k, f);
  }

  /** Leaves read before come before those read later. */
  function Before(scripts: seq<Descriptor>, depths: seq<nat>, r: Result<(seq<Descriptor>, seq<nat>, nat)>)
    : Result<(seq<Descriptor>, seq<nat>, nat)>
  {
    var (s, d, last) :- r;
    Ok((scripts + s, depths + d, last))
  }

  lemma BeforeBefore(s1: seq<Descriptor>, d1: seq<nat>, s2: seq<Descriptor>, d2: seq<nat>,
                     r: Result<(seq<Descriptor>, seq<nat>, nat)>)
    ensures Before(s1, d1, Before(s2, d2, r)) == Before(s1 + s2, d1 + d2, r)
  {
    if r.Ok? {
      assert s1 + (s2 + r.value.0) == s1 + s2 + r.value.0;
      assert d1 + (d2 + r.value.1) == d1 + d2 + r.value.1;
    }
  }

  lemma OnePath(k: Key, seen: Option<nat>)
    ensures Multipaths([k], seen) == Multipath(k, seen)
  {
    assert [k][1..] == [];
  }

  lemma LeafStep(s: string, end: nat, sub: Descriptor, last: nat, next: Option<nat>, branches: seq<bool>, index: nat,
                 seen: Option<nat>, read: KeyReader)
    requires s != [] && s[0] != '{' && ExprEnd(s, 0) == end
    requires Parse(s[..end], P2TR, index, read) == Ok((sub, last)) && Multipaths(OwnKeys(sub), seen) == Ok(next)
    ensures ParseSubtree(s, branches, index, seen, read)
         == Before([sub], [|branches|], ParseAfter(s[end..], branches, last, next, read))
  {}

  lemma LeafParses(k: Key, branches: seq<bool>, seen: Option<nat>, rest: string, f: KeyForm)
    requires Fine(k, f) && LeafEnd(rest) && Multipath(k, seen).Ok?
    ensures ParseSubtree("pk" + "(" + f.show(k) + ")" + rest, branches, k.exprIndex, seen, f.read)
         == Before([Pk(k)], [|branches|], ParseAfter(rest, branches, k.exprIndex + 1, Multipath(k, seen).value, f.read))
  {
    hide ParseSubtree, ParseAfter, Before, Parse;
    var text := f.show(k);
    var s := "pk" + "(" + text + ")" + rest;
    LeafEnds(text, rest);
    PkRoundTrip(k, P2TR, f);
    OnePath(k, seen);
    assert s[..|text| + 4] == "pk" + "(" + text + ")" && s[|text| + 4..] == rest;
    LeafStep(s, |text| + 4, Pk(k), k.exprIndex + 1, Multipath(k, seen).value, branches, k.exprIndex, seen, f.read);
  }

  function TextTree(t: Tree<Descriptor>, show: Key -> string): Tree<string> {
    match t
    case Leaf(d) => Leaf(DescText(d, show))
    case Node(l, r) => Node(TextTree(l, show), TextTree(r, show))
  }

  lemma {:induction false} LeafKeysConcat(a: seq<Descriptor>, b: seq<Descriptor>)
    requires AllPk(a) && AllPk(b)
    ensures AllPk(a + b) && LeafKeys(a + b) == LeafKeys(a) + LeafKeys(b)
    decreases |a|
  {
    if a == [] {
      assert a + b == b;
    } else {
      assert (a + b)[1..] == a[1..] + b;
      LeafKeysConcat(a[1..], b);
    }
  }

  /** Trees of pk() leaves whose keys continue from a given index and multipath length. */
  predicate Readable(t: Tree<Descriptor>, index: nat, seen: Option<nat>, f: KeyForm) {
    && AllPk(Leaves(t)) && Sequential(LeafKeys(Leaves(t)), index, f) && Multipaths(LeafKeys(Leaves(t)), seen).Ok?
  }

  /** The multipath length known after a tree. */
  function AfterTree(t: Tree<Descriptor>, seen: Option<nat>): Option<nat>
    requires AllPk(Leaves(t)) && Multipaths(LeafKeys(Leaves(t)), seen).Ok?
  {
    Multipaths(LeafKeys(Leaves(t)), seen).value
  }

  lemma ReadableNode(l: Tree<Descriptor>, r: Tree<Descriptor>, index: nat, seen: Option<nat>, f: KeyForm)
    requires Readable(Node(l, r), index, seen, f)
    ensures Readable(l, index, seen, f) && Readable(r, index + |Leaves(l)|, AfterTree(l, seen), f)
    ensures AfterTree(r, AfterTree(l, seen)) == AfterTree(Node(l, r), seen)
  {
    var a, b := Leaves(l), Leaves(r);
    assert AllPk(a) && AllPk(b) by {
      forall i | 0 <= i < |a| ensures a[i].Pk? { assert (a + b)[i] == a[i]; }
      forall i | 0 <= i < |b| ensures b[i].Pk? { assert (a + b)[|a| + i] == b[i]; }
    }
    LeafKeysConcat(a, b);
    SequentialConcat(LeafKeys(a), LeafKeys(b), index, f);
    MultipathsConcat(LeafKeys(a), LeafKeys(b), seen);
  }

  lemma OpenStep(s: string, branches: seq<bool>, index: nat, seen: Option<nat>, read: KeyReader)
    requires |branches| < MAX_TAPROOT_NODES
    ensures ParseSubtree("{" + s, branches, index, seen, read) == ParseSubtree(s, branches + [false], index, seen, read)
  {
    assert ("{" + s)[1..] == s;
  }

  lemma AfterStep(s: string, branches: seq<bool>, index: nat, seen: Option<nat>, read: KeyReader)
    ensures ParseAfter("," + s, branches + [false], index, seen, read)
         == ParseSubtree(s, branches + [true], index, seen, read)
    ensures ParseAfter("}" + s, branches + [true], index, seen, read) == ParseAfter(s, branches, index, seen, read)
  {
    assert ("," + s)[1..] == s && ("}" + s)[1..] == s;
    assert (branches + [false])[..|branches|] == branches && (branches + [true])[..|branches|] == branches;
  }

  lemma NodeShape(l: string, r: string, rest: string)
    ensures "{" + l + "," + r + "}" + rest == "{" + (l + ("," + (r + ("}" + rest))))
  {}

  lemma TreeLeafParses(d: Descriptor, branches: seq<bool>, index: nat, seen: Option<nat>, rest: string, f: KeyForm)
    requires Readable(Leaf(d), index, seen, f) && LeafEnd(rest)
    ensures ParseSubtree(DescText(d, f.show) + rest, branches, index, seen, f.read)
         == Before([d], [|branches|], ParseAfter(rest, branches, index + 1, AfterTree(Leaf(d), seen), f.read))
  {
    hide ParseSubtree, ParseAfter, Before;
    assert LeafKeys([d]) == [d.key] by { assert [d][1..] == []; }
    assert [d.key][0] == d.key && [d][0] == d;
    OnePath(d.key, seen);
    LeafParses(d.key, branches, seen, rest, f);
  }

  /** A node, put together from what the machine does with its two children. */
  lemma NodeParses(lt: string, rt: string, rest: string, ls: seq<Descriptor>, ld: seq<nat>, rs: seq<Descriptor>,
                   rd: seq<nat>, branches: seq<bool>, index: nat, mid: nat, last: nat, seen: Option<nat>,
                   midSeen: Option<nat>, lastSeen: Option<nat>, read: KeyReader)
    requires |branches| < MAX_TAPROOT_NODES
    requires ParseSubtree(lt + ("," + (rt + ("}" + rest))), branches + [false], index, seen, read)
          == Before(ls, ld, ParseAfter("," + (rt + ("}" + rest)), branches + [false], mid, midSeen, read))
    requires ParseSubtree(rt + ("}" + rest), branches + [true], mid, midSeen, read)
          == Before(rs, rd, ParseAfter("}" + rest, branches + [true], last, lastSeen, read))
    ensures ParseSubtree("{" + lt + "," + rt + "}" + rest, branches, index, seen, read)
         == Before(ls + rs, ld + rd, ParseAfter(rest, branches, last, lastSeen, read))
  {
    hide ParseSubtree, ParseAfter, Before;
    NodeShape(lt, rt, rest);
    OpenStep(lt + ("," + (rt + ("}" + rest))), branches, index, seen, read);
    AfterStep(rt + ("}" + rest), branches, mid, midSeen, read);
    AfterStep(rest, branches, last, lastSeen, read);
    BeforeBefore(ls, ld, rs, rd, ParseAfter(rest, branches, last, lastSeen, read));
  }

  /** The parser's machine reads a subtree off its text, then goes on with what follows. */
  lemma {:induction false} SubtreeParses(t: Tree<Descriptor>, branches: seq<bool>, index: nat, seen: Option<nat>,
                                         rest: string, f: KeyForm)
    requires Readable(t, index, seen, f) && |branches| + Height(t) <= MAX_TAPROOT_NODES && LeafEnd(rest)
    ensures ParseSubtree(TreeText(TextTree(t, f.show)) + rest, branches, index, seen, f.read)
         == Before(Leaves(t), Depths(t, |branches|),
                   ParseAfter(rest, branches, index + |Leaves(t)|, AfterTree(t, seen), f.read))
    decreases t
  {
    hide ParseSubtree, ParseAfter, Before, Multipaths, LeafKeys, Sequential, AllPk, AfterTree;
    match t
    case Leaf(d) =>
      TreeLeafParses(d, branches, index, seen, rest, f);
    case Node(l, r) =>
      ReadableNode(l, r, index, seen, f);
      var lt, rt := TreeText(TextTree(l, f.show)), TreeText(TextTree(r, f.show));
      var mid, midSeen := index + |Leaves(l)|, AfterTree(l, seen);
      SubtreeParses(l, branches + [false], index, seen, "," + (rt + ("}" + rest)), f);
      SubtreeParses(r, branches + [true], mid, midSeen, "}" + rest, f);
      NodeParses(lt, rt, rest, Leaves(l), Depths(l, |branches| + 1), Leaves(r), Depths(r, |branches| + 1), branches,
                 index, mid, index + |Leaves(t)|, seen, midSeen, AfterTree(t, seen), f.read);
  }

  /** The machine reads a whole tree, and leaves alone what stands behind it. */
  lemma TreeParses(t: Tree<Descriptor>, index: nat, seen: Option<nat>, f: KeyForm)
    requires Readable(t, index, seen, f) && Height(t) <= MAX_TAPROOT_NODES
    ensures ParseSubtree(TreeText(TextTree(t, f.show)), [], index, seen, f.read)
         == Ok((Leaves(t), Depths(t, 0), index + |Leaves(t)|))
  {
    hide ParseSubtree;
    var text := TreeText(TextTree(t, f.show));
    SubtreeParses(t, [], index, seen, "", f);
    assert text + "" == text;
    assert Leaves(t) + [] == Leaves(t) && Depths(t, 0) + [] == Depths(t, 0);
  }

  lemma {:induction false} LeafTextsConcat(s1: seq<Descriptor>, d1: seq<nat>, s2: seq<Descriptor>, d2: seq<nat>,
                                           show: Key -> string)
    requires |s1| == |d1|
    ensures LeafTexts(s1 + s2, d1 + d2, show) == LeafTexts(s1, d1, show) + LeafTexts(s2, d2, show)
    decreases |s1|
  {
    if s1 == [] {
      assert s1 + s2 == s2 && d1 + d2 == d2;
    } else {
      assert (s1 + s2)[1..] == s1[1..] + s2 && (d1 + d2)[1..] == d1[1..] + d2;
      LeafTextsConcat(s1[1..], d1[1..], s2, d2, show);
    }
  }

  lemma {:induction false} LeafTextsOfTree(t: Tree<Descriptor>, d: nat, show: Key -> string)
    ensures LeafTexts(Leaves(t), Depths(t, d), show) == Items(TextTree(t, show), d)
    decreases t
  {
    match t
    case Leaf(s) =>
      assert [s][1..] == [] && [d][1..] == [];
    case Node(l, r) =>
      LeafTextsOfTree(l, d + 1, show);
      LeafTextsOfTree(r, d + 1, show);
      LeafTextsConcat(Leaves(l), Depths(l, d + 1), Leaves(r), Depths(r, d + 1), show);
  }

  /** What a tr() descriptor prints between its parentheses. */
  lemma TreePrints(t: Tree<Descriptor>, show: Key -> string)
    ensures PrintAll([], LeafTexts(Leaves(t), Depths(t, 0), show)) == "," + TreeText(TextTree(t, show))
  {
    LeafTextsOfTree(t, 0, show);
    PrinterPrintsTrees(TextTree(t, show));
  }

  lemma {:induction false} TreeTextNonEmpty(t: Tree<Descriptor>, show: Key -> string)
    requires AllPk(Leaves(t))
    ensures TreeText(TextTree(t, show)) != []
    decreases t
  {
    match t
    case Leaf(d) => assert [d][0].Pk?;
    case Node(l, r) =>
  }

  // ------------------------------------------------------------ the whole language

  lemma TrRoundTrip(internal: Key, scripts: seq<Descriptor>, depths: seq<nat>, f: KeyForm)
    requires WellFormed(Tr(internal, scripts, depths), TOP, internal.exprIndex, f)
    ensures ParseTr(Body(Tr(internal, scripts, depths), f.show), internal.exprIndex, f.read)
         == Ok((Tr(internal, scripts, depths), internal.exprIndex + 1 + |scripts|))
  {
    hide ParseSubtree, ParsePubkey, ParseTr, TreeText, TextTree, PrintAll, LeafTexts, Multipaths;
    if scripts == [] {
      TrAlone(internal, f);
    } else {
      var t: Tree<Descriptor> :|
        Height(t) <= MAX_TAPROOT_NODES && scripts == Leaves(t) && depths == Depths(t, 0);
      TreePrints(t, f.show);
      TreeTextNonEmpty(t, f.show);
      TreeParses(t, internal.exprIndex + 1, Multipath(internal, None).value, f);
      TrWithTree(internal, scripts, depths, TreeText(TextTree(t, f.show)), f);
    }
  }

  lemma TrAlone(internal: Key, f: KeyForm)
    requires Fine(internal, f)
    ensures ParseTr(Body(Tr(internal, [], []), f.show), internal.exprIndex, f.read)
         == Ok((Tr(internal, [], []), internal.exprIndex + 1))
  {
    PubkeyLast(internal, f);
    assert f.show(internal) + PrintAll([], LeafTexts([], [], f.show)) == f.show(internal);
  }

  lemma TrStep(expr: string, internal: Key, rest: string, seen: Option<nat>, scripts: seq<Descriptor>, depths: seq<nat>,
               last: nat, read: KeyReader)
    requires ParsePubkey(expr, internal.exprIndex, read) == Ok((internal, rest)) && rest != []
    requires seen == (if MultipathLen(internal) > 1 then Some(MultipathLen(internal)) else None)
    requires ParseSubtree(rest, [], internal.exprIndex + 1, seen, read) == Ok((scripts, depths, last))
    ensures ParseTr(expr, internal.exprIndex, read) == Ok((Tr(internal, scripts, depths), last))
  {}

  lemma TrWithTree(internal: Key, scripts: seq<Descriptor>, depths: seq<nat>, text: string, f: KeyForm)
    requires Fine(internal, f) && text != [] && Multipath(internal, None).Ok?
    requires ParseSubtree(text, [], internal.exprIndex + 1, Multipath(internal, None).value, f.read)
          == Ok((scripts, depths, internal.exprIndex + 1 + |scripts|))
    ensures ParseTr(f.show(internal) + ("," + text), internal.exprIndex, f.read)
         == Ok((Tr(internal, scripts, depths), internal.exprIndex + 1 + |scripts|))
  {
    hide ParseSubtree, ParsePubkey, ParseTr;
    var expr := f.show(internal) + ("," + text);
    assert expr == f.show(internal) + "," + text;
    PubkeyThen(internal, text, f);
    TrStep(expr, internal, text, Multipath(internal, None).value, scripts, depths, internal.exprIndex + 1 + |scripts|, f.read);
  }

  lemma OnlyKeyRoundTrip(k: Key, f: KeyForm)
    requires Fine(k, f)
    ensures ParseOnlyKey(f.show(k), k.exprIndex, f.read) == Ok(k)
  {
    PubkeyLast(k, f);
  }

  /** The three descriptors of one key. */
  lemma SingleRoundTrip(d: Descriptor, k: Key, ctx: Context, f: KeyForm)
    requires (d == Pk(k) || d == Pkh(k) || d == Wpkh(k)) && Fine(k, f)
    ensures ParseFunc(FuncFor(d), f.show(k), ctx, k.exprIndex, f.read) == Ok((d, k.exprIndex + 1))
  {
    OnlyKeyRoundTrip(k, f);
  }

  /** A body that reads back makes a descriptor that reads back. */
  lemma FromBody(d: Descriptor, body: string, ctx: Context, index: nat, last: nat, read: KeyReader)
    requires Allowed(FuncFor(d), ctx) && ParseFunc(FuncFor(d), body, ctx, index, read) == Ok((d, last))
    ensures Parse(Name(FuncFor(d)) + "(" + body + ")", ctx, index, read) == Ok((d, last))
  {
    hide Parse, ParseFunc;
    FuncParses(FuncFor(d), body, ctx, index, read);
  }

  lemma MultiBody(d: Descriptor, ctx: Context, index: nat, f: KeyForm)
    requires d.Multi? && WellFormed(d, ctx, index, f)
    ensures ParseFunc(FuncFor(d), Body(d, f.show), ctx, index, f.read) == Ok((d, index + KeyCount(d)))
  {
    hide ParseMulti;
    MultiRoundTrip(d.keys, d.thresh, d.isSorted, ctx, index, f);
  }

  lemma ShBody(sub: Descriptor, text: string, ctx: Context, index: nat, last: nat, read: KeyReader)
    requires Parse(text, P2SH, index, read) == Ok((sub, last))
    ensures ParseFunc(SH, text, ctx, index, read) == Ok((Sh(sub), last))
  {}

  lemma WshBody(sub: Descriptor, text: string, ctx: Context, index: nat, last: nat, read: KeyReader)
    requires Parse(text, P2WSH, index, read) == Ok((sub, last))
    ensures ParseFunc(WSH, text, ctx, index, read) == Ok((Wsh(sub), last))
  {}

  lemma TrBody(d: Descriptor, index: nat, f: KeyForm)
    requires d.Tr? && WellFormed(d, TOP, index, f)
    ensures ParseFunc(FuncFor(d), Body(d, f.show), TOP, index, f.read) == Ok((d, index + KeyCount(d)))
  {
    hide ParseTr;
    TrRoundTrip(d.internal, d.scripts, d.depths, f);
  }

  lemma AllowedHere(d: Descriptor, ctx: Context, index: nat, f: KeyForm)
    requires WellFormed(d, ctx, index, f)
    ensures Allowed(FuncFor(d), ctx)
  {}

  /**
   * Parsing undoes printing: for every well-formed descriptor in every context, whatever the keys look
   * like, as long as each of them reads back from its own text.
   */
  lemma {:induction false} ParseText(d: Descriptor, ctx: Context, index: nat, f: KeyForm)
    requires WellFormed(d, ctx, index, f)
    ensures Parse(DescText(d, f.show), ctx, index, f.read) == Ok((d, index + KeyCount(d)))
    decreases d
  {
    hide Parse, ParseFunc;
    var last := index + KeyCount(d);
    match d {
      case Pk(k) => SingleRoundTrip(d, k, ctx, f);
      case Pkh(k) => SingleRoundTrip(d, k, ctx, f);
      case Wpkh(k) => SingleRoundTrip(d, k, ctx, f);
      case Multi(_, _, _) => MultiBody(d, ctx, index, f);
      case Sh(sub) =>
        ParseText(sub, P2SH, index, f);
        ShBody(sub, DescText(sub, f.show), ctx, index, last, f.read);
      case Wsh(sub) =>
        ParseText(sub, P2WSH, index, f);
        WshBody(sub, DescText(sub, f.show), ctx, index, last, f.read);
      case Tr(_, _, _) => TrBody(d, index, f);
    }
    AllowedHere(d, ctx, index, f);
    FromBody(d, Body(d, f.show), ctx, index, last, f.read);
  }
}
