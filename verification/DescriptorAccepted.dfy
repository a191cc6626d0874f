/** What holds of every descriptor the parser returns, whatever the text was. */
module DescriptorAccepted {
  import opened Python
  import opened KeyExpressions
  import opened TapTrees
  import opened Descriptors
  import opened DescriptorRoundTrip
  import Bits
  import opened Strings

  lemma PendingLeft(branches: seq<bool>)
    ensures Pending(branches + [false]) == [|branches| + 1] + Pending(branches)
    ensures Pending(branches + [true]) == Pending(branches)
  {
    assert (branches + [false])[..|branches|] == branches && (branches + [true])[..|branches|] == branches;
  }

  /** A leaf in front of a forest. */
  lemma LeafFirst(sub: Descriptor, branches: seq<bool>, more: Forest<Descriptor>)
    requires Levels(more) == Pending(branches) && Within(more, MAX_TAPROOT_NODES) && |branches| <= MAX_TAPROOT_NODES
    ensures var g := Trees(Leaf(sub), |branches|, more);
            Levels(g) == [|branches|] + Pending(branches) && Within(g, MAX_TAPROOT_NODES)
            && ForestLeaves(g) == [sub] + ForestLeaves(more) && ForestDepths(g) == [|branches|] + ForestDepths(more)
  {}

  /** What the machine accepts in a given state is a forest that completes the state's branches. */
  lemma {:induction false} SubtreeForest(expr: string, branches: seq<bool>, index: nat, seen: Option<nat>, read: KeyReader)
    returns (g: Forest<Descriptor>)
    requires ParseSubtree(expr, branches, index, seen, read).Ok? && |branches| <= MAX_TAPROOT_NODES
    ensures Levels(g) == [|branches|] + Pending(branches) && Within(g, MAX_TAPROOT_NODES)
    ensures ForestLeaves(g) == ParseSubtree(expr, branches, index, seen, read).value.0
    ensures ForestDepths(g) == ParseSubtree(expr, branches, index, seen, read).value.1
    decreases |expr|, 1
  {
    hide Parse, ExprEnd, Multipaths, Within, Levels, Pending, ForestLeaves, ForestDepths, OwnKeys;
    if expr[0] == '{' {
      var f := SubtreeForest(expr[1..], branches + [false], index, seen, read);
      PendingLeft(branches);
      g := Merge(f, |branches|, Pending(branches), MAX_TAPROOT_NODES);
    } else {
      var end := ExprEnd(expr, 0);
      var (sub, last) := Parse(expr[..end], P2TR, index, read).value;
      var next := Multipaths(OwnKeys(sub), seen).value;
      var more := AfterForest(expr[end..], branches, last, next, read);
      LeafFirst(sub, branches, more);
      g := Trees(Leaf(sub), |branches|, more);
    }
  }

  lemma {:induction false} AfterForest(expr: string, branches: seq<bool>, index: nat, seen: Option<nat>, read: KeyReader)
    returns (g: Forest<Descriptor>)
    requires ParseAfter(expr, branches, index, seen, read).Ok? && |branches| <= MAX_TAPROOT_NODES
    ensures Levels(g) == Pending(branches) && Within(g, MAX_TAPROOT_NODES)
    ensures ForestLeaves(g) == ParseAfter(expr, branches, index, seen, read).value.0
    ensures ForestDepths(g) == ParseAfter(expr, branches, index, seen, read).value.1
    decreases |expr|, 0
  {
    hide ParseSubtree;
    if branches == [] {
      g := Nothing;
    } else {
      var init := branches[..|branches| - 1];
      if branches[|branches| - 1] {
        assert branches == init + [true];
        g := AfterForest(expr[1..], init, index, seen, read);
      } else {
        assert branches == init + [false];
        g := SubtreeForest(expr[1..], init + [true], index, seen, read);
        PendingLeft(init);
      }
    }
  }

  /**
   * The depth list of every accepted tr() descriptor with scripts is that of a full binary tree of depth
   * at most 128, with the scripts as its leaves from left to right.
   */
  lemma AcceptedTree(expr: string, index: nat, read: KeyReader)
    requires ParseTr(expr, index, read).Ok?
    ensures var d := ParseTr(expr, index, read).value.0;
            d.Tr? && ((d.scripts == [] && d.depths == []) || IsTree(d.scripts, d.depths))
  {
    hide ParseSubtree;
    var (internal, rest) := ParsePubkey(expr, index, read).value;
    if rest != [] {
      var seen := if MultipathLen(internal) > 1 then Some(MultipathLen(internal)) else None;
      var g := SubtreeForest(rest, [], index + 1, seen, read);
      assert Pending([]) == [] && [0] + [] == [0];
      var t := OneTree(g, 0, MAX_TAPROOT_NODES);
    }
  }

  /** In the terms of BIP 341: the leaves share out the whole tree, the sum of 2^-depth being 1. */
  lemma AcceptedWeight(scripts: seq<Descriptor>, depths: seq<nat>)
    requires IsTree(scripts, depths)
    ensures |scripts| == |depths| && Weight(depths, MAX_TAPROOT_NODES) == Bits.Pow2(MAX_TAPROOT_NODES)
  {
    hide Bits.Pow2;
    var t: Tree<Descriptor> :|
      Height(t) <= MAX_TAPROOT_NODES && scripts == Leaves(t) && depths == Depths(t, 0);
    TreeWeight(t, 0, MAX_TAPROOT_NODES);
  }

  // ------------------------------------------------------------ key indexes

  /** get_pubkey_providers: all keys in the order they stand in the text. */
  function AllKeys(d: Descriptor): seq<Key>
    decreases d
  {
    match d
    case Sh(sub) => AllKeys(sub)
    case Wsh(sub) => AllKeys(sub)
    case Tr(internal, scripts, _) => [internal] + KeysOf(scripts)
    case _ => OwnKeys(d)
  }

  function KeysOf(scripts: seq<Descriptor>): seq<Key>
    decreases scripts
  {
    if scripts == [] then [] else AllKeys(scripts[0]) + KeysOf(scripts[1..])
  }

  predicate Numbered(keys: seq<Key>, index: nat) {
    forall i :: 0 <= i < |keys| ==> keys[i].exprIndex == index + i
  }

  /** Readers that store the index they are given, as PubkeyProvider.parse does. */
  ghost predicate StoresIndex(read: KeyReader) {
    forall s: string, i: nat :: read(s, i).Ok? ==> read(s, i).value.exprIndex == i
  }

  lemma NumberedConcat(a: seq<Key>, b: seq<Key>, index: nat)
    requires Numbered(a, index) && Numbered(b, index + |a|)
    ensures Numbered(a + b, index)
  {}

  lemma {:induction false} KeysNumbered(expr: string, index: nat, seen: Option<nat>, read: KeyReader)
    requires StoresIndex(read) && ParseKeys(expr, index, seen, read).Ok?
    ensures var r := ParseKeys(expr, index, seen, read).value;
            Numbered(r.0, index) && r.1 == index + |r.0|
    decreases |expr|
  {
    if expr != [] {
      var (k, rest) := ParsePubkey(expr, index, read).value;
      KeysNumbered(rest, index + 1, Multipath(k, seen).value, read);
      NumberedConcat([k], ParseKeys(rest, index + 1, Multipath(k, seen).value, read).value.0, index);
    }
  }

  predicate NumberedResult(r: Result<(Descriptor, nat)>, index: nat) {
    r.Ok? ==> Numbered(AllKeys(r.value.0), index) && r.value.1 == index + |AllKeys(r.value.0)|
  }

  predicate NumberedLeaves(r: Result<(seq<Descriptor>, seq<nat>, nat)>, index: nat) {
    r.Ok? ==> Numbered(KeysOf(r.value.0), index) && r.value.2 == index + |KeysOf(r.value.0)|
  }

  /** Keys are numbered in the order they are met, and none is left out. */
  lemma {:induction false} ParseNumbered(desc: string, ctx: Context, index: nat, read: KeyReader)
    requires StoresIndex(read)
    ensures NumberedResult(Parse(desc, ctx, index, read), index)
    decreases |desc|, 0
  {
    if FuncExpr(desc).Ok? {
      var (name, expr) := FuncExpr(desc).value;
      if FuncOf(name).Some? && Allowed(FuncOf(name).value, ctx) {
        FuncNumbered(FuncOf(name).value, expr, ctx, index, read);
      }
    }
  }

  lemma {:induction false} FuncNumbered(func: Func, expr: string, ctx: Context, index: nat, read: KeyReader)
    requires StoresIndex(read)
    ensures NumberedResult(ParseFunc(func, expr, ctx, index, read), index)
    decreases |expr|, 2
  {
    match func
    case SH => ParseNumbered(expr, P2SH, index, read);
    case WSH => ParseNumbered(expr, P2WSH, index, read);
    case TR => TrNumbered(expr, index, read);
    case SORTEDMULTI => MultiNumbered(expr, true, ctx, index, read);
    case MULTI => MultiNumbered(expr, false, ctx, index, read);
    case PK => OnlyKeyNumbered(expr, index, read);
    case PKH => OnlyKeyNumbered(expr, index, read);
    case WPKH => OnlyKeyNumbered(expr, index, read);
  }

  lemma OnlyKeyNumbered(expr: string, index: nat, read: KeyReader)
    requires StoresIndex(read)
    ensures ParseOnlyKey(expr, index, read).Ok? ==> ParseOnlyKey(expr, index, read).value.exprIndex == index
  {}

  lemma MultiNumbered(expr: string, isSorted: bool, ctx: Context, index: nat, read: KeyReader)
    requires StoresIndex(read)
    ensures NumberedResult(ParseMulti(expr, isSorted, ctx, index, read), index)
  {
    if ParseMulti(expr, isSorted, ctx, index, read).Ok? {
      KeysNumbered(expr[Find(expr, ',').value + 1..], index, None, read);
    }
  }

  lemma {:induction false} TrNumbered(expr: string, index: nat, read: KeyReader)
    requires StoresIndex(read)
    ensures NumberedResult(ParseTr(expr, index, read), index)
    decreases |expr|, 1
  {
    if ParsePubkey(expr, index, read).Ok? {
      var (internal, rest) := ParsePubkey(expr, index, read).value;
      if rest == [] {
        assert KeysOf([]) == [];
      } else {
        var seen := if MultipathLen(internal) > 1 then Some(MultipathLen(internal)) else None;
        SubtreeNumbered(rest, [], index + 1, seen, read);
        var leaves := ParseSubtree(rest, [], index + 1, seen, read);
        if leaves.Ok? { NumberedConcat([internal], KeysOf(leaves.value.0), index); }
      }
    }
  }

  lemma {:induction false} SubtreeNumbered(expr: string, branches: seq<bool>, index: nat, seen: Option<nat>, read: KeyReader)
    requires StoresIndex(read)
    ensures NumberedLeaves(ParseSubtree(expr, branches, index, seen, read), index)
    decreases |expr|, 1
  {
    hide Parse, Multipaths, AllKeys;
    if ParseSubtree(expr, branches, index, seen, read).Ok? {
      if expr[0] == '{' {
        SubtreeNumbered(expr[1..], branches + [false], index, seen, read);
      } else {
        var end := ExprEnd(expr, 0);
        ParseNumbered(expr[..end], P2TR, index, read);
        var (sub, last) := Parse(expr[..end], P2TR, index, read).value;
        var next := Multipaths(OwnKeys(sub), seen).value;
        AfterNumbered(expr[end..], branches, last, next, read);
        var more := ParseAfter(expr[end..], branches, last, next, read).value.0;
        NumberedConcat(AllKeys(sub), KeysOf(more), index);
        assert ([sub] + more)[1..] == more;
      }
    }
  }

  lemma {:induction false} AfterNumbered(expr: string, branches: seq<bool>, index: nat, seen: Option<nat>, read: KeyReader)
    requires StoresIndex(read)
    ensures NumberedLeaves(ParseAfter(expr, branches, index, seen, read), index)
    decreases |expr|, 0
  {
    hide ParseSubtree;
    if branches == [] {
      assert KeysOf([]) == [];
    } else if ParseAfter(expr, branches, index, seen, read).Ok? {
      var init := branches[..|branches| - 1];
      if branches[|branches| - 1] {
        AfterNumbered(expr[1..], init, index, seen, read);
      } else {
        SubtreeNumbered(expr[1..], init + [true], index, seen, read);
      }
    }
  }
}
