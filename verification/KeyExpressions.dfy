/** Key expressions of descriptors: origin, key, derivation steps. */
module KeyExpressions {
  import opened Python
  import opened Strings
  import opened KeyPaths

  datatype Key = Key(
    origin: Option<Origin>,
    pubkey: string,
    derivPath: Option<seq<seq<int>>>,
    exprIndex: nat,
    ranged: bool)

  /**
   * What the constructor does with the key text itself: nothing for hex, ExtendedKey.deserialize
   * otherwise. The error it raises, if any, is a parameter of the model.
   */
  type KeyCheck = string -> Option<Error>

  function Longest(path: seq<seq<int>>): nat {
    if path == [] then 0 else Max(|path[0]|, Longest(path[1..]))
  }

  function MultipathLen(k: Key): nat {
    if k.derivPath.Some? && k.derivPath.value != [] then Longest(k.derivPath.value) else 1
  }

  // ------------------------------------------------------------ printing

  function OriginPart(k: Key, hardened: char): string {
    if k.origin.Some? then "[" + OriginText(k.origin.value, hardened) + "]" else ""
  }

  function StepsPart(k: Key, hardened: char): string {
    (if k.derivPath.Some? && k.derivPath.value != [] then PathText(k.derivPath.value, hardened) else "")
    + (if k.ranged then "/*" else "")
  }

  /** PubkeyProvider.to_string */
  function KeyText(k: Key, hardened: char): string {
    OriginPart(k, hardened) + (k.pubkey + StepsPart(k, hardened))
  }

  // ------------------------------------------------------------ parsing

  /** The derivation steps after the slash. */
  function ParseSteps(steps: string): Result<(Option<seq<seq<int>>>, bool)> {
    var ranged := steps != [] && steps[|steps| - 1] == '*';
    var text := if ranged then (if |steps| >= 2 then steps[..|steps| - 2] else []) else steps;
    if text == [] then Ok((None, ranged))
    else
      var path :- ParsePath(text, true);
      Ok((Some(path), ranged))
  }

  /** What follows the origin. */
  function ParseKeyAndSteps(origin: Option<Origin>, s: string, index: nat, check: KeyCheck): Result<Key> {
    var slash := Find(s, '/');
    var pubkey := if slash.Some? then s[..slash.value] else s;
    var (path, ranged) :- if slash.Some? then ParseSteps(s[slash.value + 1..]) else Ok((None, false));
    match check(pubkey)
    case Some(e) => Err(e)
    case None => Ok(Key(origin, pubkey, path, index, ranged))
  }

  /** PubkeyProvider.parse */
  function ParseKey(s: string, index: nat, check: KeyCheck): (r: Result<Key>)
    ensures r.Ok? ==> s != [] && r.value.exprIndex == index
  {
    if s == [] then Err(IndexError)
    else if s[0] == '[' then
      match Find(s, ']')
      case None => Err(ValueError)
      case Some(end) =>
        assert end >= 1;
        var origin :- ParseOrigin(s[1..end]);
        ParseKeyAndSteps(Some(origin), s[end + 1..], index, check)
    else
      ParseKeyAndSteps(None, s, index, check)
  }

  // ------------------------------------------------------------ round trip

  /** Key text without the delimiters of the descriptor language, as hex and extended keys are. */
  predicate IsToken(s: string) {
    s != [] && forall i :: 0 <= i < |s| ==> s[i] !in "[/,(){}#"
  }

  predicate IsKey(k: Key, check: KeyCheck) {
    && (k.origin.Some? ==> IsOrigin(k.origin.value))
    && IsToken(k.pubkey) && check(k.pubkey) == None
    && (k.derivPath.Some? ==> k.derivPath.value != [] && IsPath(k.derivPath.value, false, true))
  }

  lemma EndAfter(a: string, b: string)
    requires EntryEnd(b)
    ensures EntryEnd(a + b)
  {
    assert (a + b)[|a + b| - 1] == b[|b| - 1];
  }

  /** Printed paths end in a digit, a hardening mark or a closing angle bracket. */
  lemma {:induction false} PathEnd(path: seq<seq<int>>, seen: bool, hardened: char)
    requires path != [] && IsPath(path, seen, true) && (hardened == 'h' || hardened == '\'')
    ensures EntryEnd(PathText(path, hardened)) && PathText(path, hardened)[0] == '/' && |PathText(path, hardened)| >= 2
    decreases |path|
  {
    var entry, more := "/" + EntryText(path[0], hardened), path[1..];
    EntryShape(path[0], hardened);
    EndAfter("/", EntryText(path[0], hardened));
    if |path| == 1 {
      assert entry + PathText(more, hardened) == entry;
    } else {
      PathEnd(more, seen || |path[0]| > 1, hardened);
      EndAfter(entry, PathText(more, hardened));
    }
  }

  lemma StepsRanged(text: string, path: seq<seq<int>>)
    requires text != [] && ParsePath(text, true) == Ok(path)
    ensures ParseSteps(text + "/*") == Ok((Some(path), true))
  {
    assert (text + "/*")[..|text|] == text;
  }

  lemma StepsPlain(text: string, path: seq<seq<int>>)
    requires text != [] && text[|text| - 1] != '*' && ParsePath(text, true) == Ok(path)
    ensures ParseSteps(text) == Ok((Some(path), false))
  {}

  lemma PathStepsRoundTrip(path: seq<seq<int>>, ranged: bool, hardened: char)
    requires path != [] && IsPath(path, false, true) && (hardened == 'h' || hardened == '\'')
    ensures var t := PathText(path, hardened) + (if ranged then "/*" else "");
            t != [] && t[0] == '/' && ParseSteps(t[1..]) == Ok((Some(path), ranged))
  {
    hide ParsePath, ParseSteps, IsPath;
    var text := PathText(path, hardened);
    PathEnd(path, false, hardened);
    PathRoundTrip(path, true, hardened);
    if ranged {
      StepsRanged(text[1..], path);
      assert (text + "/*")[1..] == text[1..] + "/*";
    } else {
      StepsPlain(text[1..], path);
      assert text + "" == text;
    }
  }

  lemma StepsRoundTrip(k: Key, hardened: char)
    requires k.derivPath.Some? ==> k.derivPath.value != [] && IsPath(k.derivPath.value, false, true)
    requires hardened == 'h' || hardened == '\''
    ensures var t := StepsPart(k, hardened);
            (t == [] <==> k.derivPath == None && !k.ranged)
            && (t != [] ==> t[0] == '/' && ParseSteps(t[1..]) == Ok((k.derivPath, k.ranged)))
  {
    if k.derivPath.Some? {
      PathStepsRoundTrip(k.derivPath.value, k.ranged, hardened);
    } else if k.ranged {
      assert StepsPart(k, hardened) == "/*";
      assert "/*"[1..] == "*";
    }
  }

  lemma NoSlash(s: string)
    requires IsToken(s)
    ensures '/' !in s
  {}

  lemma StepsAfter(origin: Option<Origin>, pubkey: string, steps: string, path: Option<seq<seq<int>>>, ranged: bool,
                   index: nat, check: KeyCheck)
    requires '/' !in pubkey && check(pubkey) == None
    requires steps != [] && steps[0] == '/' && ParseSteps(steps[1..]) == Ok((path, ranged))
    ensures ParseKeyAndSteps(origin, pubkey + steps, index, check) == Ok(Key(origin, pubkey, path, index, ranged))
  {
    assert pubkey + steps == pubkey + ['/'] + steps[1..];
    FindAt(pubkey, '/', steps[1..]);
  }

  lemma KeyAndStepsRoundTrip(k: Key, check: KeyCheck, hardened: char)
    requires IsKey(k, check) && (hardened == 'h' || hardened == '\'')
    ensures ParseKeyAndSteps(k.origin, k.pubkey + StepsPart(k, hardened), k.exprIndex, check) == Ok(k)
  {
    var t := StepsPart(k, hardened);
    StepsRoundTrip(k, hardened);
    NoSlash(k.pubkey);
    if t == [] {
      assert k.pubkey + t == k.pubkey;
    } else {
      StepsAfter(k.origin, k.pubkey, t, k.derivPath, k.ranged, k.exprIndex, check);
    }
  }

  lemma Bracketed(o: string, rest: string)
    requires ']' !in o
    ensures var s := "[" + o + "]" + rest;
            Find(s, ']') == Some(|o| + 1) && s[1..|o| + 1] == o && s[|o| + 2..] == rest
  {
    var open := "[" + o;
    FindAt(open, ']', rest);
    assert (open + [']'] + rest)[1..|o| + 1] == o;
  }

  lemma WithOrigin(o: Origin, text: string, rest: string, k: Key, check: KeyCheck)
    requires ParseOrigin(text) == Ok(o) && ']' !in text
    requires ParseKeyAndSteps(Some(o), rest, k.exprIndex, check) == Ok(k)
    ensures ParseKey("[" + text + "]" + rest, k.exprIndex, check) == Ok(k)
  {
    Bracketed(text, rest);
  }

  /** Reading a printed key expression gives it back, whichever mark hardened steps were printed with. */
  lemma KeyRoundTrip(k: Key, check: KeyCheck, hardened: char)
    requires IsKey(k, check) && (hardened == 'h' || hardened == '\'')
    ensures ParseKey(KeyText(k, hardened), k.exprIndex, check) == Ok(k)
  {
    var rest := k.pubkey + StepsPart(k, hardened);
    KeyAndStepsRoundTrip(k, check, hardened);
    if k.origin.Some? {
      OriginRoundTrip(k.origin.value, hardened);
      WithOrigin(k.origin.value, OriginText(k.origin.value, hardened), rest, k, check);
    } else {
      assert KeyText(k, hardened) == rest;
      assert rest[0] == k.pubkey[0];
    }
  }

  /** The characters of a printed key expression: none that structures a descriptor. */
  predicate KeyChars(s: string) {
    forall i :: 0 <= i < |s| ==> s[i] !in ",(){}#"
  }

  lemma {:induction false} PathKeyChars(path: seq<seq<int>>, seen: bool, allow: bool, hardened: char)
    requires IsPath(path, seen, allow) && (hardened == 'h' || hardened == '\'')
    ensures KeyChars(PathText(path, hardened))
    decreases |path|
  {
    if path != [] {
      EntryShape(path[0], hardened);
      EntryKeyChars(EntryText(path[0], hardened));
      PathKeyChars(path[1..], seen || |path[0]| > 1, allow, hardened);
    }
  }

  lemma EntryKeyChars(s: string)
    requires EntryChars(s)
    ensures KeyChars(s)
  {}

  lemma {:induction false} HexKeyChars(b: Bytes)
    ensures KeyChars(Hexlify(b))
  {
    if b != [] {
      HexDigitKeyChar(b[0] as int / 16);
      HexDigitKeyChar(b[0] as int % 16);
      HexKeyChars(b[1..]);
    }
  }

  lemma HexDigitKeyChar(d: nat)
    requires d < 16
    ensures HEX[d] !in ",(){}#"
  {}

  lemma KeyCharsConcat(a: string, b: string)
    requires KeyChars(a) && KeyChars(b)
    ensures KeyChars(a + b)
  {}

  lemma OriginKeyChars(o: Origin, hardened: char)
    requires IsOrigin(o) && (hardened == 'h' || hardened == '\'')
    ensures KeyChars("[" + OriginText(o, hardened) + "]")
  {
    HexKeyChars(o.fingerprint);
    SinglesPath(o.path);
    PathKeyChars(Singles(o.path), false, false, hardened);
    KeyCharsConcat(Hexlify(o.fingerprint), PathText(Singles(o.path), hardened));
  }

  lemma StepsKeyChars(k: Key, hardened: char)
    requires k.derivPath.Some? ==> IsPath(k.derivPath.value, false, true)
    requires hardened == 'h' || hardened == '\''
    ensures KeyChars(StepsPart(k, hardened))
  {
    if k.derivPath.Some? { PathKeyChars(k.derivPath.value, false, true, hardened); }
  }

  lemma KeyTextChars(k: Key, check: KeyCheck, hardened: char)
    requires IsKey(k, check) && (hardened == 'h' || hardened == '\'')
    ensures KeyText(k, hardened) != [] && KeyChars(KeyText(k, hardened))
  {
    if k.origin.Some? { OriginKeyChars(k.origin.value, hardened); }
    StepsKeyChars(k, hardened);
    KeyCharsConcat(k.pubkey, StepsPart(k, hardened));
    KeyCharsConcat(OriginPart(k, hardened), k.pubkey + StepsPart(k, hardened));
  }
}
