/** Script trees of tr(): binary trees, their leaf lists with depths, and the printer's stack machine. */
module TapTrees {
  import opened Python
  import opened Bits

  datatype Tree<T> = Leaf(value: T) | Node(left: Tree<T>, right: Tree<T>)

  datatype Item<T> = Item(value: T, depth: nat)

  /** The leaves from left to right with their depths, for a tree whose root is at depth `d`. */
  function Items<T>(t: Tree<T>, d: nat): (r: seq<Item<T>>)
    ensures r != []
  {
    match t
    case Leaf(v) => [Item(v, d)]
    case Node(l, r) => Items(l, d + 1) + Items(r, d + 1)
  }

  function Leaves<T>(t: Tree<T>): (r: seq<T>)
    ensures r != []
  {
    match t
    case Leaf(v) => [v]
    case Node(l, r) => Leaves(l) + Leaves(r)
  }

  function Depths<T>(t: Tree<T>, d: nat): (r: seq<nat>)
    ensures |r| == |Leaves(t)|
  {
    match t
    case Leaf(_) => [d]
    case Node(l, r) => Depths(l, d + 1) + Depths(r, d + 1)
  }

  function Height<T>(t: Tree<T>): nat {
    match t
    case Leaf(_) => 0
    case Node(l, r) => 1 + Max(Height(l), Height(r))
  }

  /** The text that BIP 386 gives a tree. */
  function TreeText(t: Tree<string>): string {
    match t
    case Leaf(v) => v
    case Node(l, r) => "{" + TreeText(l) + "," + TreeText(r) + "}"
  }

  // ------------------------------------------------------------ the printer

  /** The path to the leaf being printed, one entry for each level, true for a right branch. */
  function Grow(path: seq<bool>, depth: nat): (r: seq<bool>)
    decreases depth + 1 - |path|
  {
    if |path| <= depth then Grow(path + [false], depth) else path
  }

  /** The braces opened on the way; the entry for the root has none. */
  function GrowText(n: nat, depth: nat): string
    decreases depth + 1 - n
  {
    if n <= depth then (if n > 0 then "{" else "") + GrowText(n + 1, depth) else ""
  }

  /** Leave the right branches that end here. */
  function Popped(path: seq<bool>): seq<bool> {
    if path != [] && path[|path| - 1] then Popped(path[..|path| - 1]) else path
  }

  function PoppedText(path: seq<bool>): string {
    if path != [] && path[|path| - 1] then "}" + PoppedText(path[..|path| - 1]) else ""
  }

  /** Step from a left branch to the right one beside it. */
  function Flip(path: seq<bool>): seq<bool> {
    if path != [] then path[..|path| - 1] + [true] else path
  }

  /** The leaf itself, what it closes, and the other leaves. */
  function PrintOpened(p: seq<bool>, items: seq<Item<string>>): string
    requires items != []
    decreases |items|, 0
  {
    items[0].value + (PoppedText(p) + PrintAll(Flip(Popped(p)), items[1..]))
  }

  function PrintOne(path: seq<bool>, items: seq<Item<string>>): string
    requires items != []
    decreases |items|, 1
  {
    GrowText(|path|, items[0].depth) + PrintOpened(Grow(path, items[0].depth), items)
  }

  /** What the loop over the leaves prints from a given path on. */
  function PrintAll(path: seq<bool>, items: seq<Item<string>>): string
    decreases |items|, 2
  {
    if items == [] then "" else "," + PrintOne(path, items)
  }

  lemma PrintLeaf(p: seq<bool>, v: string, d: nat, more: seq<Item<string>>)
    requires |p| == d + 1
    ensures PrintOne(p, [Item(v, d)] + more) == v + (PoppedText(p) + PrintAll(Flip(Popped(p)), more))
  {
    assert ([Item(v, d)] + more)[1..] == more;
    assert GrowText(|p|, d) == "";
  }

  /** Entering a node opens a brace. */
  lemma PrintEnter(p: seq<bool>, items: seq<Item<string>>)
    requires p != [] && items != [] && items[0].depth >= |p|
    ensures PrintOne(p, items) == "{" + PrintOne(p + [false], items)
  {
    var d := items[0].depth;
    BraceFirst(GrowText(|p| + 1, d), PrintOpened(Grow(p, d), items));
  }

  lemma BraceFirst(a: string, b: string)
    ensures ("{" + a) + b == "{" + (a + b)
  {}

  lemma {:induction false} FirstDepth<T>(t: Tree<T>, d: nat)
    ensures Items(t, d)[0].depth >= d
  {
    if t.Node? { FirstDepth(t.left, d + 1); }
  }

  lemma PopRight(p: seq<bool>)
    ensures PoppedText(p + [true]) == "}" + PoppedText(p) && Popped(p + [true]) == Popped(p)
    ensures PoppedText(p + [false]) == "" && Flip(Popped(p + [false])) == p + [true]
  {
    assert (p + [true])[..|p|] == p && (p + [false])[..|p|] == p;
  }

  lemma PrintAllNonEmpty(p: seq<bool>, items: seq<Item<string>>)
    requires items != []
    ensures PrintAll(p, items) == "," + PrintOne(p, items)
  {}

  /** The machine prints a subtree as its text, then closes what the subtree ends. */
  lemma {:induction false} PrintSubtree(t: Tree<string>, p: seq<bool>, more: seq<Item<string>>)
    requires p != []
    ensures PrintOne(p, Items(t, |p| - 1) + more)
         == TreeText(t) + (PoppedText(p) + PrintAll(Flip(Popped(p)), more))
    decreases t
  {
    match t
    case Leaf(v) => PrintLeaf(p, v, |p| - 1, more);
    case Node(l, r) =>
      var ls, rs := Items(l, |p|), Items(r, |p|);
      FirstDepth(l, |p|);
      assert Items(t, |p| - 1) + more == ls + (rs + more);
      PrintEnter(p, ls + (rs + more));
      PrintSubtree(l, p + [false], rs + more);
      PopRight(p);
      PrintAllNonEmpty(p + [true], rs + more);
      PrintSubtree(r, p + [true], more);
      NodeText(TreeText(l), TreeText(r), PoppedText(p), PrintAll(Flip(Popped(p)), more),
               PrintOne(p, ls + (rs + more)), PrintOne(p + [false], ls + (rs + more)), PrintOne(p + [true], rs + more));
  }

  lemma NodeText(l: string, r: string, close: string, more: string, all: string, fromLeft: string, fromRight: string)
    requires all == "{" + fromLeft
    requires fromLeft == l + ("" + ("," + fromRight))
    requires fromRight == r + (("}" + close) + more)
    ensures all == "{" + l + "," + r + "}" + (close + more)
  {}

  /** The entry for the root costs no brace. */
  lemma PrintRoot(items: seq<Item<string>>)
    requires items != []
    ensures PrintOne([], items) == PrintOne([false], items)
  {
    assert [] + [false] == [false];
  }

  /** The stack machine prints every tree as its text, behind a comma. */
  lemma PrinterPrintsTrees(t: Tree<string>)
    ensures PrintAll([], Items(t, 0)) == "," + TreeText(t)
  {
    var items := Items(t, 0);
    PrintAllNonEmpty([], items);
    PrintRoot(items);
    assert items + [] == items;
    PrintSubtree(t, [false], []);
    var end := PoppedText([false]) + PrintAll(Flip(Popped([false])), []);
    assert end == "";
    assert TreeText(t) + end == TreeText(t);
  }

  lemma PrintAllStep(p: seq<bool>, items: seq<Item<string>>, p1: seq<bool>, p2: seq<bool>)
    requires items != [] && p1 == Grow(p, items[0].depth) && p2 == Flip(Popped(p1))
    ensures PrintAll(p, items)
         == "," + (GrowText(|p|, items[0].depth) + (items[0].value + (PoppedText(p1) + PrintAll(p2, items[1..]))))
  {
    PrintOpenedStep(p1, items, p2);
    var after := PrintOpened(p1, items);
    assert PrintOne(p, items) == GrowText(|p|, items[0].depth) + after;
  }

  lemma PrintOpenedStep(p1: seq<bool>, items: seq<Item<string>>, p2: seq<bool>)
    requires items != [] && p2 == Flip(Popped(p1))
    ensures PrintOpened(p1, items) == items[0].value + (PoppedText(p1) + PrintAll(p2, items[1..]))
  {}

  lemma OneItem(r0: string, g: string, v: string, c: string, rest: string)
    ensures r0 + "," + g + v + c + rest == r0 + ("," + (g + (v + (c + rest))))
  {}

  /** The loop of the printers in TRDescriptor: for each leaf, open braces, print it, close braces. */
  method PrintLoop(start: string, items: seq<Item<string>>) returns (r: string)
    ensures r == start + PrintAll([], items)
  {
    r := start;
    var path: seq<bool> := [];
    assert items[0..] == items;
    for i := 0 to |items|
      invariant start + PrintAll([], items) == r + PrintAll(path, items[i..])
    {
      ghost var rest := items[i..];
      assert rest[0] == items[i] && rest[1..] == items[i + 1..];
      ghost var r0, p0, p1 := r, path, Grow(path, items[i].depth);
      r, path := OpenBraces(r + ",", path, items[i].depth);
      r := r + items[i].value;
      r, path := CloseBraces(r, path);
      if |path| > 0 {
        path := path[..|path| - 1] + [true];
      }
      PrintAllStep(p0, rest, p1, path);
      OneItem(r0, GrowText(|p0|, items[i].depth), items[i].value, PoppedText(p1), PrintAll(path, items[i + 1..]));
    }
  }

  method OpenBraces(start: string, path0: seq<bool>, depth: nat) returns (r: string, path: seq<bool>)
    ensures r == start + GrowText(|path0|, depth) && path == Grow(path0, depth)
  {
    r, path := start, path0;
    while |path| <= depth
      invariant Grow(path, depth) == Grow(path0, depth)
      invariant r + GrowText(|path|, depth) == start + GrowText(|path0|, depth)
      decreases depth + 1 - |path|
    {
      if |path| > 0 {
        BraceFirst(GrowText(|path| + 1, depth), "");
        r := r + "{";
      }
      path := path + [false];
    }
  }

  method CloseBraces(start: string, path0: seq<bool>) returns (r: string, path: seq<bool>)
    ensures r == start + PoppedText(path0) && path == Popped(path0)
  {
    r, path := start, path0;
    while |path| > 0 && path[|path| - 1]
      invariant Popped(path) == Popped(path0)
      invariant r + PoppedText(path) == start + PoppedText(path0)
      decreases |path|
    {
      r := r + "}";
      path := path[..|path| - 1];
    }
  }

  // ------------------------------------------------------------ depth lists of trees

  /** The depths add up to one whole tree: the sum of 2^-depth is 1, here with `n` bits behind the point. */
  function Weight(depths: seq<nat>, n: nat): nat {
    if depths == [] then 0
    else (if depths[0] <= n then Pow2(n - depths[0]) else 0) + Weight(depths[1..], n)
  }

  lemma {:induction false} WeightConcat(a: seq<nat>, b: seq<nat>, n: nat)
    ensures Weight(a + b, n) == Weight(a, n) + Weight(b, n)
  {
    if a == [] {
      assert a + b == b;
    } else {
      assert (a + b)[1..] == a[1..] + b;
      WeightConcat(a[1..], b, n);
    }
  }

  lemma {:induction false} TreeWeight<T>(t: Tree<T>, d: nat, n: nat)
    requires d + Height(t) <= n
    ensures Weight(Depths(t, d), n) == Pow2(n - d)
    decreases t
  {
    match t
    case Leaf(v) => assert Depths(t, d)[1..] == [];
    case Node(l, r) =>
      TreeWeight(l, d + 1, n);
      TreeWeight(r, d + 1, n);
      WeightConcat(Depths(l, d + 1), Depths(r, d + 1), n);
  }

  /** The trees that a stack of branches still waits for, from the innermost left branch outwards. */
  function Pending(branches: seq<bool>): seq<nat> {
    if branches == [] then []
    else if branches[|branches| - 1] then Pending(branches[..|branches| - 1])
    else [|branches|] + Pending(branches[..|branches| - 1])
  }

  /** Trees with their roots at given levels, one after the other. */
  datatype Forest<T> = Nothing | Trees(root: Tree<T>, level: nat, rest: Forest<T>)

  function Levels<T>(f: Forest<T>): seq<nat> {
    match f
    case Nothing => []
    case Trees(_, level, rest) => [level] + Levels(rest)
  }

  function ForestLeaves<T>(f: Forest<T>): seq<T> {
    match f
    case Nothing => []
    case Trees(root, _, rest) => Leaves(root) + ForestLeaves(rest)
  }

  function ForestDepths<T>(f: Forest<T>): seq<nat> {
    match f
    case Nothing => []
    case Trees(root, level, rest) => Depths(root, level) + ForestDepths(rest)
  }

  /** No leaf is deeper than the limit. */
  predicate Within<T>(f: Forest<T>, limit: nat) {
    match f
    case Nothing => true
    case Trees(root, level, rest) => level + Height(root) <= limit && Within(rest, limit)
  }

  /** Two neighbouring trees one level down are one tree. */
  lemma Merge<T>(f: Forest<T>, d: nat, levels: seq<nat>, limit: nat) returns (g: Forest<T>)
    requires Levels(f) == [d + 1] + ([d + 1] + levels) && Within(f, limit)
    ensures Levels(g) == [d] + levels && Within(g, limit)
    ensures ForestLeaves(g) == ForestLeaves(f) && ForestDepths(g) == ForestDepths(f)
  {
    assert Levels(f)[0] == d + 1 && Levels(f)[1..] == [d + 1] + levels;
    var h := f.rest;
    assert Levels(h)[0] == d + 1 && Levels(h)[1..] == levels;
    g := Trees(Node(f.root, h.root), d, h.rest);
    assert ForestLeaves(f) == Leaves(f.root) + (Leaves(h.root) + ForestLeaves(h.rest));
    assert ForestDepths(f) == Depths(f.root, d + 1) + (Depths(h.root, d + 1) + ForestDepths(h.rest));
  }

  lemma OneTree<T>(f: Forest<T>, d: nat, limit: nat) returns (t: Tree<T>)
    requires Levels(f) == [d] && Within(f, limit)
    ensures ForestLeaves(f) == Leaves(t) && ForestDepths(f) == Depths(t, d) && d + Height(t) <= limit
  {
    assert Levels(f)[0] == d && Levels(f)[1..] == [];
    assert f.rest.Nothing?;
    t := f.root;
  }
}
