/** to_string and parse_descriptor: descriptors of real key expressions, with their checksum. */
module DescriptorText {
  import opened Python
  import opened Strings
  import opened KeyExpressions
  import opened TapTrees
  import opened Descriptors
  import opened DescriptorRoundTrip
  import opened DescriptorAccepted
  import Checksums
  import DescriptorChecksum

  /** PubkeyProvider.parse as the descriptor parser calls it. */
  function Reader(check: KeyCheck): KeyReader {
    (s: string, index: nat) => ParseKey(s, index, check)
  }

  /** PubkeyProvider.to_string with a given mark for hardened steps. */
  function Shower(hardened: char): Key -> string {
    (k: Key) => KeyText(k, hardened)
  }

  /** Descriptor.to_string: the text, a hash sign and the checksum of the text. */
  function ToString(d: Descriptor, hardened: char): string {
    var text := DescText(d, Shower(hardened));
    text + "#" + DescriptorChecksum.Checksum(text)
  }

  /** parse_descriptor: checks the checksum, if there is one. */
  function ParseDescriptor(desc: string, check: KeyCheck): Result<Descriptor> {
    match Find(desc, '#')
    case Some(i) =>
      if DescriptorChecksum.Checksum(desc[..i]) != desc[i + 1..] then Err(ValueError)
      else
        var (d, _) :- Parse(desc[..i], TOP, 0, Reader(check));
        Ok(d)
    case None =>
      var (d, _) :- Parse(desc, TOP, 0, Reader(check));
      Ok(d)
  }

  // ------------------------------------------------------------ the descriptors of the language

  /** Descriptors allowed in a context, with keys numbered in the order they are printed. */
  ghost predicate Structured(d: Descriptor, ctx: Context, index: nat) {
    match d
    case Pk(k) => k.exprIndex == index
    case Pkh(k) => ctx != P2TR && k.exprIndex == index
    case Wpkh(k) => (ctx == TOP || ctx == P2SH) && k.exprIndex == index
    case Multi(keys, thresh, _) => IsMulti(keys, thresh, ctx) && Numbered(keys, index)
    case Sh(sub) => ctx == TOP && Structured(sub, P2SH, index)
    case Wsh(sub) => (ctx == TOP || ctx == P2SH) && Structured(sub, P2WSH, index)
    case Tr(internal, scripts, depths) =>
      && ctx == TOP && AllPk(scripts) && Numbered([internal] + LeafKeys(scripts), index)
      && Multipaths([internal] + LeafKeys(scripts), None).Ok?
      && ((scripts == [] && depths == []) || IsTree(scripts, depths))
  }

  predicate ProperKeys(keys: seq<Key>, check: KeyCheck) {
    forall i :: 0 <= i < |keys| ==> IsKey(keys[i], check)
  }

  lemma ProperKeyIsFine(k: Key, check: KeyCheck, hardened: char)
    requires IsKey(k, check) && (hardened == 'h' || hardened == '\'')
    ensures Fine(k, KeyForm(Shower(hardened), Reader(check)))
  {
    hide ParseKey, KeyText, IsKey, KeyChars;
    KeyRoundTrip(k, check, hardened);
    KeyTextChars(k, check, hardened);
  }

  lemma ProperSequential(keys: seq<Key>, index: nat, check: KeyCheck, hardened: char)
    requires ProperKeys(keys, check) && Numbered(keys, index) && (hardened == 'h' || hardened == '\'')
    ensures Sequential(keys, index, KeyForm(Shower(hardened), Reader(check)))
  {
    hide Fine, IsKey;
    forall i | 0 <= i < |keys| ensures Fine(keys[i], KeyForm(Shower(hardened), Reader(check))) {
      ProperKeyIsFine(keys[i], check, hardened);
    }
  }

  lemma {:induction false} LeafKeysAreKeys(scripts: seq<Descriptor>)
    requires AllPk(scripts)
    ensures KeysOf(scripts) == LeafKeys(scripts)
  {
    if scripts != [] { LeafKeysAreKeys(scripts[1..]); }
  }

  lemma ProperTr(internal: Key, scripts: seq<Descriptor>, depths: seq<nat>, index: nat, check: KeyCheck, hardened: char)
    requires Structured(Tr(internal, scripts, depths), TOP, index) && (hardened == 'h' || hardened == '\'')
    requires ProperKeys(AllKeys(Tr(internal, scripts, depths)), check)
    ensures WellFormed(Tr(internal, scripts, depths), TOP, index, KeyForm(Shower(hardened), Reader(check)))
  {
    hide Fine, IsKey, Multipath, IsTree;
    LeafKeysAreKeys(scripts);
    var keys := [internal] + LeafKeys(scripts);
    ProperSequential(keys, index, check, hardened);
    SequentialConcat([internal], LeafKeys(scripts), index, KeyForm(Shower(hardened), Reader(check)));
    assert [internal][0] == internal;
    MultipathsConcat([internal], LeafKeys(scripts), None);
    OnePath(internal, None);
  }

  lemma {:induction false} ProperWellFormed(d: Descriptor, ctx: Context, index: nat, check: KeyCheck, hardened: char)
    requires Structured(d, ctx, index) && ProperKeys(AllKeys(d), check) && (hardened == 'h' || hardened == '\'')
    ensures WellFormed(d, ctx, index, KeyForm(Shower(hardened), Reader(check)))
    decreases d
  {
    hide Fine, IsKey, IsMulti;
    match d
    case Pk(k) =>
      assert AllKeys(d)[0] == k;
      ProperKeyIsFine(k, check, hardened);
    case Pkh(k) =>
      assert AllKeys(d)[0] == k;
      ProperKeyIsFine(k, check, hardened);
    case Wpkh(k) =>
      assert AllKeys(d)[0] == k;
      ProperKeyIsFine(k, check, hardened);
    case Multi(keys, _, _) => ProperSequential(keys, index, check, hardened);
    case Sh(sub) => ProperWellFormed(sub, P2SH, index, check, hardened);
    case Wsh(sub) => ProperWellFormed(sub, P2WSH, index, check, hardened);
    case Tr(internal, scripts, depths) => ProperTr(internal, scripts, depths, index, check, hardened);
  }

  // ------------------------------------------------------------ no hash sign before the checksum

  predicate NoHash(s: string) {
    forall i :: 0 <= i < |s| ==> s[i] != '#'
  }

  lemma NoHashConcat(a: string, b: string)
    requires NoHash(a) && NoHash(b)
    ensures NoHash(a + b)
  {}

  lemma {:induction false} JoinNoHash(keys: seq<Key>, f: KeyForm)
    requires forall i :: 0 <= i < |keys| ==> Fine(keys[i], f)
    ensures NoHash(Join(KeyTexts(keys, f.show), ','))
    decreases |keys|
  {
    if keys != [] {
      var k, more := keys[0], keys[1..];
      assert keys == [k] + more;
      JoinKeys(k, more, f.show);
      JoinNoHash(more, f);
      ShownNoHash(k, f);
      NoHashConcat(f.show(k), ",");
      NoHashConcat(f.show(k) + ",", Join(KeyTexts(more, f.show), ','));
    }
  }

  lemma ShownNoHash(k: Key, f: KeyForm)
    requires Fine(k, f)
    ensures NoHash(f.show(k))
  {}

  lemma NameNoHash(func: Func)
    ensures NoHash(Name(func))
  {}

  lemma TextNoHash(func: Func, body: string)
    requires NoHash(body)
    ensures NoHash(Name(func) + "(" + body + ")")
  {
    NameNoHash(func);
    NoHashConcat(Name(func), "(");
    NoHashConcat(Name(func) + "(", body);
    NoHashConcat(Name(func) + "(" + body, ")");
  }

  lemma {:induction false} TreeNoHash(t: Tree<Descriptor>, index: nat, seen: Option<nat>, f: KeyForm)
    requires Readable(t, index, seen, f)
    ensures NoHash(TreeText(TextTree(t, f.show)))
    decreases t
  {
    match t
    case Leaf(d) =>
      assert [d][0] == d && LeafKeys([d])[0] == d.key;
      ShownNoHash(d.key, f);
      TextNoHash(PK, f.show(d.key));
      assert DescText(d, f.show) == Name(PK) + "(" + f.show(d.key) + ")";
    case Node(l, r) =>
      ReadableNode(l, r, index, seen, f);
      TreeNoHash(l, index, seen, f);
      TreeNoHash(r, index + |Leaves(l)|, AfterTree(l, seen), f);
      var lt, rt := TreeText(TextTree(l, f.show)), TreeText(TextTree(r, f.show));
      NoHashConcat("{", lt);
      NoHashConcat("{" + lt, ",");
      NoHashConcat("{" + lt + ",", rt);
      NoHashConcat("{" + lt + "," + rt, "}");
  }

  lemma MultiNoHash(keys: seq<Key>, thresh: nat, f: KeyForm)
    requires forall i :: 0 <= i < |keys| ==> Fine(keys[i], f)
    ensures NoHash(Str(thresh) + "," + Join(KeyTexts(keys, f.show), ','))
  {
    JoinNoHash(keys, f);
    DecimalDigits(thresh);
    NoHashConcat(Decimal(thresh), ",");
    NoHashConcat(Decimal(thresh) + ",", Join(KeyTexts(keys, f.show), ','));
  }

  lemma TrNoHash(internal: Key, scripts: seq<Descriptor>, depths: seq<nat>, index: nat, f: KeyForm)
    requires WellFormed(Tr(internal, scripts, depths), TOP, index, f)
    ensures NoHash(Body(Tr(internal, scripts, depths), f.show))
  {
    hide Fine, Multipath;
    ShownNoHash(internal, f);
    if scripts == [] {
      assert PrintAll([], LeafTexts([], [], f.show)) == "";
      NoHashConcat(f.show(internal), "");
    } else {
      var t: Tree<Descriptor> :|
        Height(t) <= MAX_TAPROOT_NODES && scripts == Leaves(t) && depths == Depths(t, 0);
      TreePrints(t, f.show);
      TreeNoHash(t, index + 1, Multipath(internal, None).value, f);
      NoHashConcat(",", TreeText(TextTree(t, f.show)));
      NoHashConcat(f.show(internal), "," + TreeText(TextTree(t, f.show)));
    }
  }

  /** A printed descriptor contains no hash sign of its own. */
  lemma {:induction false} DescNoHash(d: Descriptor, ctx: Context, index: nat, f: KeyForm)
    requires WellFormed(d, ctx, index, f)
    ensures NoHash(DescText(d, f.show))
    decreases d
  {
    hide Fine, IsTree;
    match d {
      case Pk(k) => ShownNoHash(k, f);
      case Pkh(k) => ShownNoHash(k, f);
      case Wpkh(k) => ShownNoHash(k, f);
      case Multi(keys, thresh, _) => MultiNoHash(keys, thresh, f);
      case Sh(sub) => DescNoHash(sub, P2SH, index, f);
      case Wsh(sub) => DescNoHash(sub, P2WSH, index, f);
      case Tr(internal, scripts, depths) => TrNoHash(internal, scripts, depths, index, f);
    }
    TextNoHash(FuncFor(d), Body(d, f.show));
  }

  // ------------------------------------------------------------ main result

  /**
   * parse_descriptor undoes to_string: for every descriptor of the language with proper keys, printed with
   * either mark for hardened steps, with its checksum or without.
   */
  lemma TextRoundTrip(d: Descriptor, check: KeyCheck, hardened: char)
    requires Structured(d, TOP, 0) && ProperKeys(AllKeys(d), check) && (hardened == 'h' || hardened == '\'')
    ensures ParseDescriptor(ToString(d, hardened), check) == Ok(d)
    ensures ParseDescriptor(DescText(d, Shower(hardened)), check) == Ok(d)
  {
    hide Parse, DescText, DescriptorChecksum.Checksum, Structured, ProperKeys, WellFormed;
    var f := KeyForm(Shower(hardened), Reader(check));
    var text := DescText(d, Shower(hardened));
    ProperWellFormed(d, TOP, 0, check, hardened);
    ParseText(d, TOP, 0, f);
    DescNoHash(d, TOP, 0, f);
    FindAt(text, '#', DescriptorChecksum.Checksum(text));
    assert Find(text, '#') == None;
  }

  // ------------------------------------------------------------ wrong checksums

  /**
   * What follows the first hash sign must be the checksum of what precedes it. With the right one the text
   * is read as if it had none, with every other one parse_descriptor raises a ValueError.
   */
  lemma WrongChecksumRejected(text: string, sum: string, check: KeyCheck)
    requires '#' !in text
    ensures ParseDescriptor(text + "#" + sum, check)
         == if sum == DescriptorChecksum.Checksum(text) then ParseDescriptor(text, check) else Err(ValueError)
  {
    hide Parse, DescriptorChecksum.Checksum;
    FindAt(text, '#', sum);
    assert Find(text, '#') == None;
  }

  lemma ChecksumChars(text: string)
    ensures '#' !in DescriptorChecksum.Checksum(text)
    ensures |DescriptorChecksum.Checksum(text)| == if DescriptorChecksum.Describable(text) then 8 else 0
  {
    hide DescriptorChecksum.FeedAll, DescriptorChecksum.Finish, DescriptorChecksum.Positions;
    if DescriptorChecksum.Describable(text) {
      SymbolsChars(DescriptorChecksum.Finish(DescriptorChecksum.FeedAll(DescriptorChecksum.START,
                                             DescriptorChecksum.Positions(text))), 8);
    }
  }

  lemma {:induction false} SymbolsChars(c: nat, n: nat)
    ensures '#' !in DescriptorChecksum.Symbols(c, n)
  {
    if n > 0 {
      SymbolsChars(c, n - 1);
      NotHash(DescriptorChecksum.Symbol(c, n - 1));
    }
  }

  lemma NotHash(ch: char)
    requires ch in Checksums.SYMBOL_CHARSET
    ensures ch != '#'
  {}

  lemma ChecksumsApart(text: string, damaged: string, i: nat)
    requires DescriptorChecksum.Describable(damaged) && |damaged| == |text| && damaged != text
    requires forall k :: 0 <= k < |text| && !(i <= k < i + 4) ==> damaged[k] == text[k]
    ensures DescriptorChecksum.Checksum(damaged) != DescriptorChecksum.Checksum(text)
  {
    ChecksumChars(text);
    ChecksumChars(damaged);
    if DescriptorChecksum.Describable(text) {
      DescriptorChecksum.DamageDetected(text, damaged, i);
    }
  }

  /**
   * A text with its checksum that is damaged before the hash sign, only within four adjacent characters and
   * only to characters of the alphabet, is a ValueError. A hash sign may be among them.
   */
  lemma DamagedRejected(text: string, damaged: string, i: nat, check: KeyCheck)
    requires DescriptorChecksum.Describable(damaged) && |damaged| == |text| && damaged != text
    requires forall k :: 0 <= k < |text| && !(i <= k < i + 4) ==> damaged[k] == text[k]
    ensures ParseDescriptor(damaged + "#" + DescriptorChecksum.Checksum(text), check) == Err(ValueError)
  {
    hide ParseDescriptor, DescriptorChecksum.Checksum, DescriptorChecksum.Describable;
    var sum := DescriptorChecksum.Checksum(text);
    match Find(damaged, '#')
    case None =>
      ChecksumsApart(text, damaged, i);
      WrongChecksumRejected(damaged, sum, check);
    case Some(p) => EarlyHash(damaged[..p], damaged[p + 1..], damaged, sum, check);
  }

  lemma EarlyHash(before: string, middle: string, damaged: string, sum: string, check: KeyCheck)
    requires '#' !in before && damaged == before + "#" + middle
    ensures ParseDescriptor(damaged + "#" + sum, check) == Err(ValueError)
  {
    hide ParseDescriptor, DescriptorChecksum.Checksum;
    var after := middle + "#" + sum;
    assert damaged + "#" + sum == before + "#" + after;
    assert after[|middle|] == '#';
    ChecksumChars(before);
    WrongChecksumRejected(before, after, check);
  }

  lemma ReaderStores(check: KeyCheck)
    ensures StoresIndex(Reader(check))
  {
    hide ParseKey;
  }

  /**
   * In every descriptor that parse_descriptor returns, the i-th key of get_pubkey_providers has the
   * expression index i.
   */
  lemma ParsedKeysNumbered(desc: string, check: KeyCheck)
    requires ParseDescriptor(desc, check).Ok?
    ensures Numbered(AllKeys(ParseDescriptor(desc, check).value), 0)
  {
    hide Parse, AllKeys, DescriptorChecksum.Checksum;
    ReaderStores(check);
    ParseNumbered(desc, TOP, 0, Reader(check));
    if Find(desc, '#').Some? {
      ParseNumbered(desc[..Find(desc, '#').value], TOP, 0, Reader(check));
    }
  }
}
