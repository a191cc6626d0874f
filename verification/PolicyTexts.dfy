/** What policies and templates look like, letter by letter, and which descriptors have one. */
module PolicyTexts {
  import opened Python
  import opened Strings
  import opened KeyPaths
  import opened KeyExpressions
  import opened Descriptors
  import opened DescriptorAccepted
  import opened Templates
  import opened WalletPolicies
  import opened PolicyResults

  // ------------------------------------------------------------ multisig wallets

  /** The script of an address type around a multisig expression. */
  function Around(t: AddressType, body: string): string {
    match t
    case LEGACY => "sh(" + body + ")"
    case WIT => "wsh(" + body + ")"
    case SH_WIT => "sh(wsh(" + body + "))"
  }

  /** The text that a multisig wallet stands for. */
  lemma MultisigText(t: AddressType, threshold: int, keys: seq<string>, isSorted: bool, change: bool)
    returns (branch: seq<string>)
    requires InfoTexts(keys) && 1 <= threshold <= |keys| <= 16
    ensures MultisigTemplate(t, threshold, |keys|, isSorted).Ok?
    ensures |branch| == |keys| && forall i :: 0 <= i < |keys| ==> branch[i] == keys[i] + (if change then "/1/*" else "/0/*")
    ensures GetDescriptor(MultisigTemplate(t, threshold, |keys|, isSorted).value, keys, true, change)
         == Around(t, (if isSorted then "sortedmulti(" else "multi(") + Str(threshold) + "," + Join(branch, ',') + ")")
  {
    hide GetDescriptor, MultisigTemplate, InfoTexts, Join, Str, BranchKeys, Around, Prefix, Suffix, MultisigOp;
    MultisigDescriptor(t, threshold, keys, isSorted, change);
    branch := BranchKeys(keys, if change then "/1/*" else "/0/*");
    FramedText(t, MultisigOp(isSorted), Str(threshold), Join(branch, ','));
    OpText(isSorted);
  }

  lemma OpText(isSorted: bool)
    ensures MultisigOp(isSorted) + "(" == if isSorted then "sortedmulti(" else "multi("
  {}

  lemma FramedText(t: AddressType, op: string, threshold: string, list: string)
    ensures Prefix(t, op) + (threshold + ",") + list + Suffix(t)
         == Around(t, op + "(" + threshold + "," + list + ")")
  {
    match t
    case LEGACY => FramedOne("sh(", op, threshold, list, ")", "))");
    case WIT => FramedOne("wsh(", op, threshold, list, ")", "))");
    case SH_WIT => FramedOne("sh(wsh(", op, threshold, list, "))", ")))");
  }

  lemma FramedOne(outer: string, op: string, threshold: string, list: string, close: string, all: string)
    requires all == ")" + close
    ensures outer + op + "(" + (threshold + ",") + list + all
         == outer + (op + "(" + threshold + "," + list + ")") + close
  {}

  // ------------------------------------------------------------ which keys have a template

  /** Ranged, and no step has more than two alternatives. */
  predicate FewAlternatives(k: Key) {
    k.ranged && (k.derivPath.Some? ==> forall i :: 0 <= i < |k.derivPath.value| ==> |k.derivPath.value[i]| <= 2)
  }

  lemma {:induction false} LongestIs(path: seq<seq<int>>, n: nat)
    ensures Longest(path) <= n <==> forall i :: 0 <= i < |path| ==> |path[i]| <= n
  {
    if path != [] {
      LongestIs(path[1..], n);
      forall i | 1 <= i < |path| ensures path[i] == path[1..][i - 1] {}
    }
  }

  lemma PolicyKeyIff(k: Key)
    ensures PolicyKey(k) <==> FewAlternatives(k)
  {
    if k.derivPath.Some? { LongestIs(k.derivPath.value, 2); }
  }

  predicate AllFew(keys: seq<Key>) {
    forall i :: 0 <= i < |keys| ==> FewAlternatives(keys[i])
  }

  predicate AllPolicy(keys: seq<Key>) {
    forall i :: 0 <= i < |keys| ==> PolicyKey(keys[i])
  }

  lemma TemplateOf(d: Descriptor)
    ensures Template(d) == if AllPolicy(AllKeys(d)) then Ok(DescText(d, PlaceholderText)) else Err(InvalidPolicyError)
  {
    hide AllKeys, PolicyKey, DescText;
  }

  /** A descriptor has a template exactly if all its keys are ranged and no step has more than two alternatives. */
  lemma TemplateIff(d: Descriptor)
    ensures Template(d).Ok? <==> AllFew(AllKeys(d))
    ensures Template(d).Err? ==> Template(d) == Err(InvalidPolicyError)
  {
    hide AllKeys, PolicyKey, FewAlternatives, DescText;
    TemplateOf(d);
    forall i | 0 <= i < |AllKeys(d)| ensures PolicyKey(AllKeys(d)[i]) <==> FewAlternatives(AllKeys(d)[i]) {
      PolicyKeyIff(AllKeys(d)[i]);
    }
  }

  lemma HardenedIs(i: int)
    requires IsIndex(i)
    ensures IsHardened(i) <==> i >= 0x8000_0000
  {}

  /** Which alternative is chosen, and that hardened steps are left alone. */
  lemma ChosenStep(k: Key, a: int, b: int, change: bool)
    requires k.derivPath == Some([[a, b]]) && IsIndex(a) && IsIndex(b)
    ensures a < 0x8000_0000 && b < 0x8000_0000 ==> Chosen(k, change).derivPath == Some([[if change then b else a]])
    ensures a >= 0x8000_0000 || b >= 0x8000_0000 ==> Chosen(k, change) == k
  {
    hide IsHardened;
    HardenedIs(a);
    HardenedIs(b);
    assert [[a, b]][1..] == [];
    assert PickPath([[a, b]], change) == [Pick([a, b], change)];
    assert k.derivPath.value == [[a, b]];
  }

  /** The template of the most common wallet: one key with a receiving and a change branch. */
  lemma PairTemplate(pubkey: string, origin: Option<Origin>)
    ensures var d := Wpkh(Key(origin, pubkey, Some([[0, 1]]), 0, true));
            Template(d) == Ok("wpkh(@0/<0;1>/*)") && KeyInfos(AllKeys(d)) == [OriginPart(d.key, '\'') + pubkey]
  {
    hide OriginPart, PlaceholderText;
    var k := Key(origin, pubkey, Some([[0, 1]]), 0, true);
    var d := Wpkh(k);
    PairKey(k);
    assert AllKeys(d) == [k];
    assert FewAlternatives(k);
    assert AllFew([k]);
    assert AllFew(AllKeys(d));
    TemplateIff(d);
    TemplateOf(d);
    assert "wpkh" + "(" + "@0/<0;1>/*" + ")" == "wpkh(@0/<0;1>/*)";
    assert DescText(d, PlaceholderText) == "wpkh" + "(" + "@0/<0;1>/*" + ")";
    assert [k][0] == k && [k][1..] == [];
    assert KeyInfos([k]) == [KeyInfo(k)] + KeyInfos([]);
  }

  lemma PairKey(k: Key)
    requires k.derivPath == Some([[0, 1]]) && k.exprIndex == 0 && k.ranged
    ensures PlaceholderText(k) == "@0/<0;1>/*"
  {
    hide IndexText;
    assert [[0, 1]][1..] == [];
    PairText(0, 1);
    UnhardenedText(0);
    UnhardenedText(1);
    SmallDecimals();
    assert PathText([[0, 1]], '\'') == "/" + EntryText([0, 1], '\'') + PathText([], '\'');
    assert Placeholder(0) == "@" + "0";
  }

  lemma SmallDecimals()
    ensures Decimal(0) == "0" && Decimal(1) == "1"
  {}
}
