/** Output descriptors: printing and parsing (BIP 380, BIP 386, BIP 389). */
module Descriptors {
  import opened Python
  import opened Strings
  import opened KeyExpressions
  import TapTrees

  datatype Descriptor =
    | Pk(key: Key)
    | Pkh(key: Key)
    | Wpkh(key: Key)
    | Multi(keys: seq<Key>, thresh: int, isSorted: bool)
    | Sh(sub: Descriptor)
    | Wsh(sub: Descriptor)
    | Tr(internal: Key, scripts: seq<Descriptor>, depths: seq<nat>)

  // ------------------------------------------------------------ printing

  function KeyTexts(keys: seq<Key>, show: Key -> string): (r: seq<string>)
    ensures |r| == |keys|
  {
    if keys == [] then [] else [show(keys[0])] + KeyTexts(keys[1..], show)
  }

  /** The descriptor functions. */
  datatype Func = PK | PKH | WPKH | MULTI | SORTEDMULTI | SH | WSH | TR

  function Name(func: Func): string {
    match func
    case PK => "pk"
    case PKH => "pkh"
    case WPKH => "wpkh"
    case MULTI => "multi"
    case SORTEDMULTI => "sortedmulti"
    case SH => "sh"
    case WSH => "wsh"
    case TR => "tr"
  }

  function FuncFor(d: Descriptor): Func {
    match d
    case Pk(_) => PK
    case Pkh(_) => PKH
    case Wpkh(_) => WPKH
    case Multi(_, _, isSorted) => if isSorted then SORTEDMULTI else MULTI
    case Sh(_) => SH
    case Wsh(_) => WSH
    case Tr(_, _, _) => TR
  }

  /** to_string_no_checksum, and get_bip388_template, which differ only in how keys are shown. */
  function DescText(d: Descriptor, show: Key -> string): string
    decreases d, 1
  {
    Name(FuncFor(d)) + "(" + Body(d, show) + ")"
  }

  function Body(d: Descriptor, show: Key -> string): string
    decreases d, 0
  {
    match d
    case Pk(k) => show(k)
    case Pkh(k) => show(k)
    case Wpkh(k) => show(k)
    case Multi(keys, thresh, _) => Str(thresh) + "," + Join(KeyTexts(keys, show), ',')
    case Sh(sub) => DescText(sub, show)
    case Wsh(sub) => DescText(sub, show)
    case Tr(internal, scripts, depths) => show(internal) + TapTrees.PrintAll([], LeafTexts(scripts, depths, show))
  }

  /** The leaves that both lists have; the code has as many depths as scripts in every object it builds. */
  function LeafTexts(scripts: seq<Descriptor>, depths: seq<nat>, show: Key -> string): seq<TapTrees.Item<string>>
    decreases scripts, 1
  {
    if scripts == [] || depths == [] then []
    else [TapTrees.Item(DescText(scripts[0], show), depths[0])] + LeafTexts(scripts[1..], depths[1..], show)
  }

  // ------------------------------------------------------------ parsing

  /** PubkeyProvider.parse, on text without a comma. */
  type KeyReader = (string, nat) -> Result<Key>

  datatype Context = TOP | P2SH | P2WSH | P2TR

  const MAX_TAPROOT_NODES: nat := 128

  /** The function name and what stands between the first opening and the last closing parenthesis. */
  function FuncExpr(s: string): (r: Result<(string, string)>)
    ensures r.Ok? ==> |r.value.1| < |s|
  {
    match (Find(s, '('), RFind(s, ')'))
    case (Some(start), Some(end)) => Ok((s[..start], if start < end then s[start + 1..end] else ""))
    case _ => Err(ValueError)
  }

  /** Where the expression that `s` begins with ends, `level` brackets deep. */
  function ExprEnd(s: string, level: nat): (n: nat)
    ensures n <= |s|
  {
    if s == [] then 0
    else if s[0] == '(' || s[0] == '{' then 1 + ExprEnd(s[1..], level + 1)
    else if level > 0 && (s[0] == ')' || s[0] == '}') then 1 + ExprEnd(s[1..], level - 1)
    else if level == 0 && (s[0] == ')' || s[0] == '}' || s[0] == ',') then 0
    else 1 + ExprEnd(s[1..], level)
  }

  /** The common length of the multipath entries seen so far; keys without one do not matter. */
  function Multipath(k: Key, seen: Option<nat>): Result<Option<nat>> {
    var n := MultipathLen(k);
    if n <= 1 then Ok(seen)
    else if seen == None then Ok(Some(n))
    else if seen.value == n then Ok(seen)
    else Err(ValueError)
  }

  function Multipaths(keys: seq<Key>, seen: Option<nat>): Result<Option<nat>> {
    if keys == [] then Ok(seen)
    else
      var next :- Multipath(keys[0], seen);
      Multipaths(keys[1..], next)
  }

  /** The keys of a descriptor itself, without those of its subdescriptors. */
  function OwnKeys(d: Descriptor): seq<Key> {
    match d
    case Pk(k) => [k]
    case Pkh(k) => [k]
    case Wpkh(k) => [k]
    case Multi(keys, _, _) => keys
    case Sh(_) => []
    case Wsh(_) => []
    case Tr(internal, _, _) => [internal]
  }

  /** parse_pubkey: the key expression up to the first comma, and the text behind it. */
  function ParsePubkey(expr: string, index: nat, read: KeyReader): (r: Result<(Key, string)>)
    ensures r.Ok? && expr != [] ==> |r.value.1| < |expr|
  {
    match Find(expr, ',')
    case None =>
      var k :- read(expr, index);
      Ok((k, []))
    case Some(comma) =>
      var k :- read(expr[..comma], index);
      Ok((k, expr[comma + 1..]))
  }

  /** The key list of multi and sortedmulti. */
  function ParseKeys(expr: string, index: nat, seen: Option<nat>, read: KeyReader): Result<(seq<Key>, nat)>
    decreases |expr|
  {
    if expr == [] then Ok(([], index))
    else
      var (k, rest) :- ParsePubkey(expr, index, read);
      var next :- Multipath(k, seen);
      var (more, last) :- ParseKeys(rest, index + 1, next, read);
      Ok(([k] + more, last))
  }

  function ParseMulti(expr: string, isSorted: bool, ctx: Context, index: nat, read: KeyReader): Result<(Descriptor, nat)> {
    match Find(expr, ',')
    case None => Err(ValueError)
    case Some(comma) =>
      var thresh :- IntOf(expr[..comma]);
      var (keys, last) :- ParseKeys(expr[comma + 1..], index, None, read);
      if |keys| == 0 || |keys| > 16 then Err(ValueError)
      else if thresh < 1 || thresh > |keys| then Err(ValueError)
      else if ctx == TOP && |keys| > 3 then Err(ValueError)
      else Ok((Multi(keys, thresh, isSorted), last))
  }

  /** The only key of pk, pkh and wpkh. */
  function ParseOnlyKey(expr: string, index: nat, read: KeyReader): Result<Key> {
    var (k, rest) :- ParsePubkey(expr, index, read);
    if rest == [] then Ok(k) else Err(ValueError)
  }

  /** The function of a name; the code compares the names one after the other. */
  function FuncOf(name: string): Option<Func> {
    if name == "pk" then Some(PK)
    else if name == "pkh" then Some(PKH)
    else if name == "sortedmulti" then Some(SORTEDMULTI)
    else if name == "multi" then Some(MULTI)
    else if name == "wpkh" then Some(WPKH)
    else if name == "sh" then Some(SH)
    else if name == "wsh" then Some(WSH)
    else if name == "tr" then Some(TR)
    else None
  }

  /** Where each function is allowed. */
  predicate Allowed(func: Func, ctx: Context) {
    match func
    case PK => true
    case PKH => ctx != P2TR
    case SORTEDMULTI => ctx != P2TR
    case MULTI => ctx != P2TR
    case WPKH => ctx == TOP || ctx == P2SH
    case SH => ctx == TOP
    case WSH => ctx == TOP || ctx == P2SH
    case TR => ctx == TOP
  }

  /** _parse_descriptor: the descriptor and the index of the next key. */
  function Parse(desc: string, ctx: Context, index: nat, read: KeyReader): Result<(Descriptor, nat)>
    decreases |desc|, 0
  {
    var (name, expr) :- FuncExpr(desc);
    match FuncOf(name)
    case None => Err(ValueError)
    case Some(func) => if Allowed(func, ctx) then ParseFunc(func, expr, ctx, index, read) else Err(ValueError)
  }

  function ParseFunc(func: Func, expr: string, ctx: Context, index: nat, read: KeyReader): Result<(Descriptor, nat)>
    decreases |expr|, 2
  {
    match func
    case PK =>
      var k :- ParseOnlyKey(expr, index, read);
      Ok((Pk(k), index + 1))
    case PKH =>
      var k :- ParseOnlyKey(expr, index, read);
      Ok((Pkh(k), index + 1))
    case SORTEDMULTI => ParseMulti(expr, true, ctx, index, read)
    case MULTI => ParseMulti(expr, false, ctx, index, read)
    case WPKH =>
      var k :- ParseOnlyKey(expr, index, read);
      Ok((Wpkh(k), index + 1))
    case SH =>
      var (sub, last) :- Parse(expr, P2SH, index, read);
      Ok((Sh(sub), last))
    case WSH =>
      var (sub, last) :- Parse(expr, P2WSH, index, read);
      Ok((Wsh(sub), last))
    case TR => ParseTr(expr, index, read)
  }

  /** The internal key, and the script tree if there is one. */
  function ParseTr(expr: string, index: nat, read: KeyReader): Result<(Descriptor, nat)>
    decreases |expr|, 1
  {
    var (internal, rest) :- ParsePubkey(expr, index, read);
    if rest == [] then Ok((Tr(internal, [], []), index + 1))
    else
      var seen := if MultipathLen(internal) > 1 then Some(MultipathLen(internal)) else None;
      var (scripts, depths, last) :- ParseSubtree(rest, [], index + 1, seen, read);
      Ok((Tr(internal, scripts, depths), last))
  }

  /** The opening braces and the leaf at the front of `expr`, then all that follows. */
  function ParseSubtree(expr: string, branches: seq<bool>, index: nat, seen: Option<nat>, read: KeyReader)
    : Result<(seq<Descriptor>, seq<nat>, nat)>
    decreases |expr|, 1
  {
    if expr == [] then Err(IndexError)
    else if expr[0] == '{' then
      if |branches| + 1 > MAX_TAPROOT_NODES then Err(ValueError)
      else ParseSubtree(expr[1..], branches + [false], index, seen, read)
    else
      var end := ExprEnd(expr, 0);
      var (sub, last) :- Parse(expr[..end], P2TR, index, read);
      var next :- Multipaths(OwnKeys(sub), seen);
      var (scripts, depths, final) :- ParseAfter(expr[end..], branches, last, next, read);
      var depth: nat := |branches|;
      Ok(([sub] + scripts, [depth] + depths, final))
  }

  /** What has to follow a finished subtree: closing braces, then a comma and the right sibling. */
  function ParseAfter(expr: string, branches: seq<bool>, index: nat, seen: Option<nat>, read: KeyReader)
    : Result<(seq<Descriptor>, seq<nat>, nat)>
    decreases |expr|, 0
  {
    if branches == [] then Ok(([], [], index))
    else if expr == [] then Err(IndexError)
    else
      var init := branches[..|branches| - 1];
      if branches[|branches| - 1] then
        if expr[0] == '}' then ParseAfter(expr[1..], init, index, seen, read) else Err(ValueError)
      else
        if expr[0] == ',' then ParseSubtree(expr[1..], init + [true], index, seen, read) else Err(ValueError)
  }
}
