/** The loops of the descriptor parser, proved against the recursive specification. */
module DescriptorParser {
  import opened Python
  import opened Strings
  import opened KeyExpressions
  import opened Descriptors
  import opened DescriptorRoundTrip
  import opened DescriptorText
  import DescriptorChecksum

  /** _get_expr: the expression `s` begins with, and the rest. */
  method GetExpr(s: string) returns (expr: string, rest: string)
    ensures expr == s[..ExprEnd(s, 0)] && rest == s[ExprEnd(s, 0)..]
  {
    var level: nat := 0;
    assert s[0..] == s;
    for i := 0 to |s|
      invariant ExprEnd(s, 0) == i + ExprEnd(s[i..], level)
    {
      ghost var tail := s[i..];
      assert tail[0] == s[i] && tail[1..] == s[i + 1..];
      var c := s[i];
      if c == '(' || c == '{' {
        level := level + 1;
      } else if level > 0 && (c == ')' || c == '}') {
        level := level - 1;
      } else if level == 0 && (c == ')' || c == '}' || c == ',') {
        return s[..i], s[i..];
      }
    }
    assert s[..|s|] == s && s[|s|..] == [];
    return s, "";
  }

  /** Keys read before come before those read later. */
  function KeysBefore(keys: seq<Key>, r: Result<(seq<Key>, nat)>): Result<(seq<Key>, nat)> {
    var (more, last) :- r;
    Ok((keys + more, last))
  }

  lemma KeysBeforeOne(keys: seq<Key>, k: Key, r: Result<(seq<Key>, nat)>)
    ensures KeysBefore(keys, KeysBefore([k], r)) == KeysBefore(keys + [k], r)
    ensures KeysBefore([], r) == r
  {
    if r.Ok? {
      assert keys + ([k] + r.value.0) == keys + [k] + r.value.0;
      assert [] + r.value.0 == r.value.0;
    }
  }

  lemma ParseKeysStep(expr: string, index: nat, seen: Option<nat>, k: Key, rest: string, next: Option<nat>, read: KeyReader)
    requires expr != [] && ParsePubkey(expr, index, read) == Ok((k, rest)) && Multipath(k, seen) == Ok(next)
    ensures ParseKeys(expr, index, seen, read) == KeysBefore([k], ParseKeys(rest, index + 1, next, read))
  {}

  lemma ParseKeysFails(expr: string, index: nat, seen: Option<nat>, read: KeyReader)
    requires expr != []
    ensures ParsePubkey(expr, index, read).Err? ==>
              ParseKeys(expr, index, seen, read) == Err(ParsePubkey(expr, index, read).error)
    ensures ParsePubkey(expr, index, read).Ok? && Multipath(ParsePubkey(expr, index, read).value.0, seen).Err? ==>
              ParseKeys(expr, index, seen, read) == Err(Multipath(ParsePubkey(expr, index, read).value.0, seen).error)
  {}

  /** The loop over the keys of multi and sortedmulti. */
  method ReadKeys(expr0: string, index0: nat, read: KeyReader) returns (r: Result<(seq<Key>, nat)>)
    ensures r == ParseKeys(expr0, index0, None, read)
  {
    hide ParseKeys, ParsePubkey, Multipath;
    var expr, index: nat, keys: seq<Key>, seen: Option<nat> := expr0, index0, [], None;
    KeysBeforeOne([], Key(None, [], None, 0, false), ParseKeys(expr, index, seen, read));
    while expr != []
      invariant ParseKeys(expr0, index0, None, read) == KeysBefore(keys, ParseKeys(expr, index, seen, read))
      decreases |expr|
    {
      var first := ParsePubkey(expr, index, read);
      ParseKeysFails(expr, index, seen, read);
      if first.Err? {
        return Err(first.error);
      }
      var (k, rest) := first.value;
      var next := Multipath(k, seen);
      if next.Err? {
        return Err(next.error);
      }
      ParseKeysStep(expr, index, seen, k, rest, next.value, read);
      KeysBeforeOne(keys, k, ParseKeys(rest, index + 1, next.value, read));
      keys, expr, index, seen := keys + [k], rest, index + 1, next.value;
    }
    NoMoreKeys(index, seen, read);
    assert keys + [] == keys;
    return Ok((keys, index));
  }

  lemma NoMoreKeys(index: nat, seen: Option<nat>, read: KeyReader)
    ensures ParseKeys([], index, seen, read) == Ok(([], index))
  {}

  /** The multi and sortedmulti branch. */
  method ReadMulti(expr: string, isSorted: bool, ctx: Context, index: nat, read: KeyReader)
    returns (r: Result<(Descriptor, nat)>)
    ensures r == ParseMulti(expr, isSorted, ctx, index, read)
  {
    var comma := Find(expr, ',');
    if comma == None {
      return Err(ValueError);
    }
    var thresh := IntOf(expr[..comma.value]);
    if thresh.Err? {
      return Err(thresh.error);
    }
    var keys := ReadKeys(expr[comma.value + 1..], index, read);
    if keys.Err? {
      return Err(keys.error);
    }
    var n := |keys.value.0|;
    if n == 0 || n > 16 {
      return Err(ValueError);
    } else if thresh.value < 1 || thresh.value > n {
      return Err(ValueError);
    } else if ctx == TOP && n > 3 {
      return Err(ValueError);
    }
    return Ok((Multi(keys.value.0, thresh.value, isSorted), keys.value.1));
  }

  /** _parse_descriptor */
  method ReadDescriptor(desc: string, ctx: Context, index: nat, read: KeyReader) returns (r: Result<(Descriptor, nat)>)
    ensures r == Parse(desc, ctx, index, read)
    decreases |desc|, 0
  {
    hide ParseMulti, ParseTr, ParseOnlyKey;
    var split := FuncExpr(desc);
    if split.Err? {
      return Err(split.error);
    }
    var (name, expr) := split.value;
    var func := FuncOf(name);
    if func == None || !Allowed(func.value, ctx) {
      return Err(ValueError);
    }
    match func.value {
      case PK =>
        var k := ParseOnlyKey(expr, index, read);
        return if k.Ok? then Ok((Pk(k.value), index + 1)) else Err(k.error);
      case PKH =>
        var k := ParseOnlyKey(expr, index, read);
        return if k.Ok? then Ok((Pkh(k.value), index + 1)) else Err(k.error);
      case WPKH =>
        var k := ParseOnlyKey(expr, index, read);
        return if k.Ok? then Ok((Wpkh(k.value), index + 1)) else Err(k.error);
      case MULTI =>
        r := ReadMulti(expr, false, ctx, index, read);
      case SORTEDMULTI =>
        r := ReadMulti(expr, true, ctx, index, read);
      case SH =>
        var sub := ReadDescriptor(expr, P2SH, index, read);
        return if sub.Ok? then Ok((Sh(sub.value.0), sub.value.1)) else Err(sub.error);
      case WSH =>
        var sub := ReadDescriptor(expr, P2WSH, index, read);
        return if sub.Ok? then Ok((Wsh(sub.value.0), sub.value.1)) else Err(sub.error);
      case TR =>
        r := ReadTr(expr, index, read);
    }
  }

  /** The tr branch. */
  method ReadTr(expr: string, index: nat, read: KeyReader) returns (r: Result<(Descriptor, nat)>)
    ensures r == ParseTr(expr, index, read)
    decreases |expr|, 2
  {
    hide ParseSubtree;
    var first := ParsePubkey(expr, index, read);
    if first.Err? {
      return Err(first.error);
    }
    var (internal, rest) := first.value;
    if rest == [] {
      return Ok((Tr(internal, [], []), index + 1));
    }
    var seen := if MultipathLen(internal) > 1 then Some(MultipathLen(internal)) else None;
    var tree := ReadTree(rest, index + 1, seen, read);
    if tree.Err? {
      return Err(tree.error);
    }
    return Ok((Tr(internal, tree.value.0, tree.value.1), tree.value.2));
  }

  /** The loop over the leaves of a script tree, with its stack of branches. */
  method ReadTree(expr0: string, index0: nat, seen0: Option<nat>, read: KeyReader)
    returns (r: Result<(seq<Descriptor>, seq<nat>, nat)>)
    ensures r == ParseSubtree(expr0, [], index0, seen0, read)
    decreases |expr0|, 1
  {
    hide ParseSubtree, ParseAfter, Parse, Multipaths;
    var expr, index, seen := expr0, index0, seen0;
    var branches: seq<bool> := [];
    var scripts: seq<Descriptor>, depths: seq<nat> := [], [];
    ghost var all := ParseSubtree(expr0, [], index0, seen0, read);
    BeforeNothing(all);
    while true
      invariant |expr| <= |expr0|
      invariant all == Before(scripts, depths, ParseSubtree(expr, branches, index, seen, read))
      decreases |expr|
    {
      ghost var before := ParseSubtree(expr, branches, index, seen, read);
      var step: Result<()>;
      step, expr, branches := OpenAll(expr, branches, index, seen, read);
      if step.Err? {
        return Err(step.error);
      }
      var sarg, rest := GetExpr(expr);
      var sub := ReadDescriptor(sarg, P2TR, index, read);
      LeafRead(expr, branches, index, seen, read);
      if sub.Err? {
        return Err(sub.error);
      }
      var next := Multipaths(OwnKeys(sub.value.0), seen);
      if next.Err? {
        return Err(next.error);
      }
      var depth: nat := |branches|;
      assert rest == expr[ExprEnd(expr, 0)..] && sarg != [] by { NonEmptyLeaf(sarg, index, read); }
      BeforeBefore(scripts, depths, [sub.value.0], [depth], ParseAfter(rest, branches, sub.value.1, next.value, read));
      scripts, depths, index, seen := scripts + [sub.value.0], depths + [depth], sub.value.1, next.value;
      step, expr, branches := CloseAll(rest, branches, index, seen, read);
      if step.Err? {
        return Err(step.error);
      }
      if branches == [] {
        assert scripts + [] == scripts && depths + [] == depths;
        return Ok((scripts, depths, index));
      }
    }
  }

  lemma BeforeNothing(r: Result<(seq<Descriptor>, seq<nat>, nat)>)
    ensures Before([], [], r) == r
  {
    if r.Ok? { assert [] + r.value.0 == r.value.0 && [] + r.value.1 == r.value.1; }
  }

  /** Process open braces: an error, or a state at the front of a leaf. */
  method OpenAll(expr0: string, branches0: seq<bool>, ghost index: nat, ghost seen: Option<nat>, ghost read: KeyReader)
    returns (r: Result<()>, expr: string, branches: seq<bool>)
    ensures |expr| <= |expr0|
    ensures r.Err? ==> ParseSubtree(expr0, branches0, index, seen, read) == Err(r.error)
    ensures r.Ok? ==> expr != [] && expr[0] != '{'
    ensures r.Ok? ==>
              ParseSubtree(expr0, branches0, index, seen, read) == ParseSubtree(expr, branches, index, seen, read)
  {
    expr, branches := expr0, branches0;
    while true
      invariant |expr| <= |expr0|
      invariant ParseSubtree(expr0, branches0, index, seen, read) == ParseSubtree(expr, branches, index, seen, read)
      decreases |expr|
    {
      if expr == [] {
        return Err(IndexError), expr, branches;
      }
      if expr[0] != '{' {
        return Ok(()), expr, branches;
      }
      if |branches + [false]| > MAX_TAPROOT_NODES {
        return Err(ValueError), expr, branches;
      }
      expr, branches := expr[1..], branches + [false];
    }
  }

  /** Process closing braces, then expect a comma unless the tree is complete. */
  method CloseAll(expr0: string, branches0: seq<bool>, ghost index: nat, ghost seen: Option<nat>, ghost read: KeyReader)
    returns (r: Result<()>, expr: string, branches: seq<bool>)
    ensures |expr| <= |expr0|
    ensures r.Err? ==> ParseAfter(expr0, branches0, index, seen, read) == Err(r.error)
    ensures r.Ok? && branches == [] ==> ParseAfter(expr0, branches0, index, seen, read) == Ok(([], [], index))
    ensures r.Ok? && branches != [] ==>
              ParseAfter(expr0, branches0, index, seen, read) == ParseSubtree(expr, branches, index, seen, read)
  {
    hide ParseSubtree;
    expr, branches := expr0, branches0;
    while branches != [] && branches[|branches| - 1]
      invariant |expr| <= |expr0|
      invariant ParseAfter(expr0, branches0, index, seen, read) == ParseAfter(expr, branches, index, seen, read)
      decreases |expr|
    {
      if expr == [] {
        return Err(IndexError), expr, branches;
      }
      if expr[0] != '}' {
        return Err(ValueError), expr, branches;
      }
      expr, branches := expr[1..], branches[..|branches| - 1];
    }
    if branches != [] {
      if expr == [] {
        return Err(IndexError), expr, branches;
      }
      if expr[0] != ',' {
        return Err(ValueError), expr, branches;
      }
      expr, branches := expr[1..], branches[..|branches| - 1] + [true];
    }
    r := Ok(());
  }

  function AtLeaf(expr: string, branches: seq<bool>, sub: Result<(Descriptor, nat)>, seen: Option<nat>, read: KeyReader)
    : Result<(seq<Descriptor>, seq<nat>, nat)>
  {
    var (script, last) :- sub;
    var next :- Multipaths(OwnKeys(script), seen);
    Before([script], [|branches|], ParseAfter(expr[ExprEnd(expr, 0)..], branches, last, next, read))
  }

  /** What the specification does at a leaf. */
  lemma LeafRead(expr: string, branches: seq<bool>, index: nat, seen: Option<nat>, read: KeyReader)
    requires expr != [] && expr[0] != '{'
    ensures ParseSubtree(expr, branches, index, seen, read)
         == AtLeaf(expr, branches, Parse(expr[..ExprEnd(expr, 0)], P2TR, index, read), seen, read)
  {
    hide Parse, ParseAfter, Multipaths;
  }

  lemma NonEmptyLeaf(sarg: string, index: nat, read: KeyReader)
    requires Parse(sarg, P2TR, index, read).Ok?
    ensures sarg != []
  {
    hide ParseFunc;
  }

  /** parse_descriptor */
  method ReadChecked(desc: string, check: KeyCheck) returns (r: Result<Descriptor>)
    ensures r == ParseDescriptor(desc, check)
    ensures Find(desc, '#').Some? ==>
              var i := Find(desc, '#').value;
              desc[i + 1..] != DescriptorChecksum.Checksum(desc[..i]) ==> r == Err(ValueError)
  {
    hide Parse, DescriptorChecksum.Checksum, Reader;
    var i := Find(desc, '#');
    var text := desc;
    if i.Some? {
      text := desc[..i.value];
      var computed := DescriptorChecksum.ComputeChecksum(text);
      if computed != desc[i.value + 1..] {
        return Err(ValueError);
      }
    }
    var d := ReadDescriptor(text, TOP, 0, Reader(check));
    return if d.Ok? then Ok(d.value.0) else Err(d.error);
  }
}
