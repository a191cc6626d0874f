/** The language of descriptors: what their texts look like, and that the parser accepts nothing else. */
module DescriptorLanguage {
  import opened Python
  import opened Strings
  import opened KeyPaths
  import opened KeyExpressions
  import opened TapTrees
  import opened Descriptors
  import opened DescriptorRoundTrip
  import opened DescriptorAccepted
  import opened DescriptorText

  // ------------------------------------------------------------ texts

  /** The functions with one argument. */
  lemma SimpleTexts(k: Key, sub: Descriptor, show: Key -> string)
    ensures DescText(Pk(k), show) == "pk(" + show(k) + ")"
    ensures DescText(Pkh(k), show) == "pkh(" + show(k) + ")"
    ensures DescText(Wpkh(k), show) == "wpkh(" + show(k) + ")"
    ensures DescText(Sh(sub), show) == "sh(" + DescText(sub, show) + ")"
    ensures DescText(Wsh(sub), show) == "wsh(" + DescText(sub, show) + ")"
    ensures DescText(Tr(k, [], []), show) == "tr(" + show(k) + ")"
  {
    assert "pk" + "(" == "pk(" && "pkh" + "(" == "pkh(" && "wpkh" + "(" == "wpkh(";
    assert "sh" + "(" == "sh(" && "wsh" + "(" == "wsh(" && "tr" + "(" == "tr(";
    NoScripts(k, show);
  }

  lemma NoScripts(k: Key, show: Key -> string)
    ensures Body(Tr(k, [], []), show) == show(k)
  {
    assert TapTrees.PrintAll([], LeafTexts([], [], show)) == "";
    assert show(k) + "" == show(k);
  }

  /** The threshold, then the keys in order. */
  lemma MultiText(keys: seq<Key>, thresh: int, isSorted: bool, show: Key -> string) returns (texts: seq<string>)
    ensures |texts| == |keys| && forall i :: 0 <= i < |keys| ==> texts[i] == show(keys[i])
    ensures DescText(Multi(keys, thresh, isSorted), show)
         == (if isSorted then "sortedmulti(" else "multi(") + (Str(thresh) + "," + Join(texts, ',')) + ")"
  {
    hide Join, Str;
    texts := KeyTexts(keys, show);
    forall i | 0 <= i < |keys| ensures texts[i] == show(keys[i]) { KeyTextAt(keys, show, i); }
    assert "multi" + "(" == "multi(" && "sortedmulti" + "(" == "sortedmulti(";
  }

  lemma {:induction false} KeyTextAt(keys: seq<Key>, show: Key -> string, i: nat)
    requires i < |keys|
    ensures KeyTexts(keys, show)[i] == show(keys[i])
  {
    if i > 0 { KeyTextAt(keys[1..], show, i - 1); }
  }

  /** A script tree: its internal key, a comma, and every branch as a pair in braces. */
  lemma TreeDescText(k: Key, t: Tree<Descriptor>, show: Key -> string)
    ensures DescText(Tr(k, Leaves(t), Depths(t, 0)), show) == "tr(" + (show(k) + ("," + TreeText(TextTree(t, show)))) + ")"
  {
    hide PrintAll, LeafTexts, TreeText, TextTree;
    TreePrints(t, show);
    assert "tr" + "(" == "tr(";
  }

  /** One leaf on the left and two on the right. */
  lemma ThreeLeaves(k: Key, a: Descriptor, b: Descriptor, c: Descriptor, show: Key -> string)
    ensures DescText(Tr(k, [a, b, c], [1, 2, 2]), show)
         == "tr(" + (show(k) + ("," + Pair(DescText(a, show), Pair(DescText(b, show), DescText(c, show))))) + ")"
  {
    hide DescText;
    var t := Node(Leaf(a), Node(Leaf(b), Leaf(c)));
    ThreeLeavesOf(a, b, c);
    TreeDescText(k, t, show);
    ThreeTexts(a, b, c, show);
  }

  function Pair(l: string, r: string): string {
    "{" + l + "," + r + "}"
  }

  lemma ThreeTexts(a: Descriptor, b: Descriptor, c: Descriptor, show: Key -> string)
    ensures TreeText(TextTree(Node(Leaf(a), Node(Leaf(b), Leaf(c))), show))
         == Pair(DescText(a, show), Pair(DescText(b, show), DescText(c, show)))
  {
    LeafText(a, show);
    LeafText(b, show);
    LeafText(c, show);
    NodeText(Leaf(b), Leaf(c), show);
    NodeText(Leaf(a), Node(Leaf(b), Leaf(c)), show);
  }

  lemma LeafText(d: Descriptor, show: Key -> string)
    ensures TreeText(TextTree(Leaf(d), show)) == DescText(d, show)
  {}

  lemma NodeText(l: Tree<Descriptor>, r: Tree<Descriptor>, show: Key -> string)
    ensures TreeText(TextTree(Node(l, r), show)) == Pair(TreeText(TextTree(l, show)), TreeText(TextTree(r, show)))
  {}

  lemma ThreeLeavesOf(a: Descriptor, b: Descriptor, c: Descriptor)
    ensures Leaves(Node(Leaf(a), Node(Leaf(b), Leaf(c)))) == [a, b, c]
    ensures Depths(Node(Leaf(a), Node(Leaf(b), Leaf(c))), 0) == [1, 2, 2]
  {
    var r := Node(Leaf(b), Leaf(c));
    assert Leaves(r) == [b] + [c] && Depths(r, 1) == [2] + [2];
    assert Leaves(Node(Leaf(a), r)) == [a] + Leaves(r) && Depths(Node(Leaf(a), r), 0) == [1] + Depths(r, 1);
  }

  lemma TwoIndexes(a: int, b: int)
    ensures IndexTexts([a, b], 'h') == [IndexText(a, 'h'), IndexText(b, 'h')]
  {}

  lemma TwoJoined(x: string, y: string)
    ensures Join([x, y], ';') == x + ";" + y
  {
    assert [x, y][1..] == [y];
  }

  /** A step with two alternatives. */
  lemma PairStep(a: int, b: int)
    ensures PathText([[a, b]], 'h') == "/" + ("<" + (IndexText(a, 'h') + ";" + IndexText(b, 'h')) + ">")
  {
    hide IndexText, Join;
    TwoIndexes(a, b);
    TwoJoined(IndexText(a, 'h'), IndexText(b, 'h'));
    assert [[a, b]][1..] == [];
    assert "/" + EntryText([a, b], 'h') + "" == "/" + EntryText([a, b], 'h');
  }

  lemma TwoSteps(a: int, b: int)
    ensures PathText(Singles([a, b]), 'h') == "/" + IndexText(a, 'h') + ("/" + IndexText(b, 'h'))
  {
    hide IndexText;
    assert [a, b][1..] == [b] && [b][1..] == [];
    assert Singles([a, b]) == [[a], [b]] && [[a], [b]][1..] == [[b]] && [[b]][1..] == [];
    assert PathText([[b]], 'h') == "/" + IndexText(b, 'h') + "";
  }

  /** A key expression: the origin in brackets, the key, its steps, and a star for a range. */
  lemma KeyExample(pubkey: string)
    ensures KeyText(Key(Some(Origin([0xd3, 0x4d, 0xb3, 0x3f], [0x8000_0002, 7])), pubkey, Some([[0, 1]]), 0, true), 'h')
         == "[" + "d34db33f/2h/7" + "]" + (pubkey + ("/<0;1>" + "/*"))
  {
    hide PathText, OriginText;
    PairExample();
    OriginExample();
  }

  lemma PairExample()
    ensures PathText([[0, 1]], 'h') == "/<0;1>"
  {
    hide IndexText, PathText;
    HardenedSteps(0);
    HardenedSteps(1);
    SmallNumbers();
    PairStep(0, 1);
    assert "/" + ("<" + ("0" + ";" + "1") + ">") == "/<0;1>";
  }

  lemma SmallNumbers()
    ensures Decimal(0) == "0" && Decimal(1) == "1" && Decimal(2) == "2" && Decimal(7) == "7"
  {}

  lemma OriginExample()
    ensures OriginText(Origin([0xd3, 0x4d, 0xb3, 0x3f], [0x8000_0002, 7]), 'h') == "d34db33f/2h/7"
  {
    hide IndexText, Hexlify, PathText, Singles;
    HardenedSteps(2);
    HardenedSteps(7);
    SmallNumbers();
    HexExample();
    TwoSteps(0x8000_0002, 7);
    assert "/" + "2h" + ("/" + "7") == "/2h/7";
    assert "d34db33f" + "/2h/7" == "d34db33f/2h/7";
  }

  lemma HexExample()
    ensures Hexlify([0xd3, 0x4d, 0xb3, 0x3f]) == "d34db33f"
  {
    hide Hexlify;
    var b: Bytes := [0xd3, 0x4d, 0xb3, 0x3f];
    HexlifyAt(b, 0);
    HexlifyAt(b, 1);
    HexlifyAt(b, 2);
    HexlifyAt(b, 3);
  }

  // ------------------------------------------------------------ nothing else is accepted

  lemma {:induction false} KeysMultipaths(expr: string, index: nat, seen: Option<nat>, read: KeyReader)
    requires ParseKeys(expr, index, seen, read).Ok?
    ensures Multipaths(ParseKeys(expr, index, seen, read).value.0, seen).Ok?
    decreases |expr|
  {
    hide ParsePubkey, Multipath;
    if expr != [] {
      var (k, rest) := ParsePubkey(expr, index, read).value;
      var next := Multipath(k, seen).value;
      PubkeyShrinks(expr, index, read);
      KeysMultipaths(rest, index + 1, next, read);
      var more := ParseKeys(rest, index + 1, next, read).value.0;
      assert ([k] + more)[1..] == more;
    }
  }

  lemma PubkeyShrinks(expr: string, index: nat, read: KeyReader)
    requires ParsePubkey(expr, index, read).Ok? && expr != []
    ensures |ParsePubkey(expr, index, read).value.1| < |expr|
  {}

  /** The leaves of a script tree are pk() only. */
  lemma LeafIsPk(expr: string, index: nat, read: KeyReader)
    requires Parse(expr, P2TR, index, read).Ok?
    ensures Parse(expr, P2TR, index, read).value.0.Pk?
  {
    hide ParseOnlyKey, FuncExpr;
  }

  /** Leaf scripts that are all pk() and agree on the length of their multipath steps. */
  predicate GoodLeaves(scripts: seq<Descriptor>, seen: Option<nat>) {
    AllPk(scripts) && Multipaths(LeafKeys(scripts), seen).Ok?
  }

  lemma GoodLeavesCons(sub: Descriptor, more: seq<Descriptor>, seen: Option<nat>, next: Option<nat>)
    requires sub.Pk? && Multipaths(OwnKeys(sub), seen) == Ok(next) && GoodLeaves(more, next)
    ensures GoodLeaves([sub] + more, seen)
  {
    hide Multipath;
    assert [sub.key][1..] == [];
    assert Multipath(sub.key, seen) == Ok(next);
    var all := [sub] + more;
    assert all[1..] == more;
    assert LeafKeys(all) == [sub.key] + LeafKeys(more);
    assert ([sub.key] + LeafKeys(more))[1..] == LeafKeys(more);
  }

  lemma {:induction false} SubtreeLeaves(expr: string, branches: seq<bool>, index: nat, seen: Option<nat>, read: KeyReader)
    requires ParseSubtree(expr, branches, index, seen, read).Ok?
    ensures GoodLeaves(ParseSubtree(expr, branches, index, seen, read).value.0, seen)
    decreases |expr|, 1
  {
    hide Parse, Multipaths, OwnKeys, GoodLeaves, ExprEnd;
    if expr[0] == '{' {
      SubtreeLeaves(expr[1..], branches + [false], index, seen, read);
    } else {
      var end := ExprEnd(expr, 0);
      LeafIsPk(expr[..end], index, read);
      var (sub, last) := Parse(expr[..end], P2TR, index, read).value;
      var next := Multipaths(OwnKeys(sub), seen).value;
      AfterLeaves(expr[end..], branches, last, next, read);
      GoodLeavesCons(sub, ParseAfter(expr[end..], branches, last, next, read).value.0, seen, next);
    }
  }

  lemma {:induction false} AfterLeaves(expr: string, branches: seq<bool>, index: nat, seen: Option<nat>, read: KeyReader)
    requires ParseAfter(expr, branches, index, seen, read).Ok?
    ensures GoodLeaves(ParseAfter(expr, branches, index, seen, read).value.0, seen)
    decreases |expr|, 0
  {
    hide ParseSubtree;
    if branches != [] {
      var init := branches[..|branches| - 1];
      if branches[|branches| - 1] {
        AfterLeaves(expr[1..], init, index, seen, read);
      } else {
        SubtreeLeaves(expr[1..], init + [true], index, seen, read);
      }
    }
  }

  /** The result of a parse is a descriptor allowed there, its keys numbered from `index` on. */
  ghost predicate StructuredResult(r: Result<(Descriptor, nat)>, ctx: Context, index: nat) {
    r.Ok? ==> Structured(r.value.0, ctx, index)
  }

  lemma TrStructured(expr: string, index: nat, read: KeyReader)
    requires StoresIndex(read)
    ensures StructuredResult(ParseTr(expr, index, read), TOP, index)
  {
    hide ParseSubtree, ParseAfter, IsTree, Multipaths, StoresIndex;
    if ParseTr(expr, index, read).Ok? {
      var (internal, rest) := ParsePubkey(expr, index, read).value;
      TrNumbered(expr, index, read);
      AcceptedTree(expr, index, read);
      var d := ParseTr(expr, index, read).value.0;
      var seen := if MultipathLen(internal) > 1 then Some(MultipathLen(internal)) else None;
      if rest != [] {
        SubtreeLeaves(rest, [], index + 1, seen, read);
      } else {
        NoLeaves(seen);
      }
      LeafKeysAreKeys(d.scripts);
      FirstKey(internal, LeafKeys(d.scripts), seen);
    }
  }

  lemma NoLeaves(seen: Option<nat>)
    ensures GoodLeaves([], seen)
  {}

  lemma FirstKey(k: Key, more: seq<Key>, seen: Option<nat>)
    requires seen == (if MultipathLen(k) > 1 then Some(MultipathLen(k)) else None) && Multipaths(more, seen).Ok?
    ensures Multipaths([k] + more, None).Ok?
  {
    assert ([k] + more)[1..] == more;
  }

  lemma MultiStructured(expr: string, isSorted: bool, ctx: Context, index: nat, read: KeyReader)
    requires StoresIndex(read) && ctx != P2TR
    ensures StructuredResult(ParseMulti(expr, isSorted, ctx, index, read), ctx, index)
  {
    hide ParseKeys, Multipaths, IntOf, StoresIndex;
    if ParseMulti(expr, isSorted, ctx, index, read).Ok? {
      var rest := expr[Find(expr, ',').value + 1..];
      KeysNumbered(rest, index, None, read);
      KeysMultipaths(rest, index, None, read);
    }
  }

  lemma {:induction false} FuncStructured(func: Func, expr: string, ctx: Context, index: nat, read: KeyReader)
    requires StoresIndex(read) && Allowed(func, ctx)
    ensures StructuredResult(ParseFunc(func, expr, ctx, index, read), ctx, index)
    decreases |expr|, 2
  {
    hide Parse, ParseOnlyKey, ParseMulti, ParseTr, IsMulti, IsTree, Multipaths, StoresIndex;
    match func
    case SH => ParseStructured(expr, P2SH, index, read);
    case WSH => ParseStructured(expr, P2WSH, index, read);
    case TR => TrStructured(expr, index, read);
    case SORTEDMULTI => MultiStructured(expr, true, ctx, index, read);
    case MULTI => MultiStructured(expr, false, ctx, index, read);
    case PK => OnlyKeyNumbered(expr, index, read);
    case PKH => OnlyKeyNumbered(expr, index, read);
    case WPKH => OnlyKeyNumbered(expr, index, read);
  }

  lemma {:induction false} ParseStructured(desc: string, ctx: Context, index: nat, read: KeyReader)
    requires StoresIndex(read)
    ensures StructuredResult(Parse(desc, ctx, index, read), ctx, index)
    decreases |desc|, 0
  {
    hide ParseFunc, Structured, FuncOf, StoresIndex, Allowed;
    if FuncExpr(desc).Ok? {
      var (name, expr) := FuncExpr(desc).value;
      if FuncOf(name).Some? && Allowed(FuncOf(name).value, ctx) {
        FuncStructured(FuncOf(name).value, expr, ctx, index, read);
      }
    }
  }

  /**
   * parse_descriptor returns descriptors of the language only: functions where they are allowed, at most 16 keys
   * and at most 3 of them outside of sh() and wsh(), thresholds between 1 and their number, script trees of pk()
   * no deeper than 128, multipath steps of one length in a multisig or tree, and keys numbered in their order.
   */
  lemma ParsedIsStructured(desc: string, check: KeyCheck)
    requires ParseDescriptor(desc, check).Ok?
    ensures Structured(ParseDescriptor(desc, check).value, TOP, 0)
  {
    hide Parse, Structured, DescriptorChecksum.Checksum, Reader;
    ReaderStores(check);
    ParseStructured(desc, TOP, 0, Reader(check));
    if Find(desc, '#').Some? {
      ParseStructured(desc[..Find(desc, '#').value], TOP, 0, Reader(check));
    }
  }
}
