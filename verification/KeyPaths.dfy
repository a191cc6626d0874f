/** Derivation paths and key origins as text (BIP 32, BIP 380, BIP 389). */
module KeyPaths {
  import opened Python
  import opened Strings

  // ------------------------------------------------------------ hardened indexes

  const HARDENED_FLAG: int := 0x80000000

  /** Bit 31 of a two's complement integer of any size. */
  predicate IsHardened(i: int) {
    i / HARDENED_FLAG % 2 == 1
  }

  /** i | HARDENED_FLAG */
  function Harden(i: int): int {
    if IsHardened(i) then i else i + HARDENED_FLAG
  }

  /** i & ~HARDENED_FLAG */
  function Unharden(i: int): int {
    if IsHardened(i) then i - HARDENED_FLAG else i
  }

  predicate IsIndex(i: int) {
    0 <= i < 0x1_0000_0000
  }

  lemma HardenUnharden(i: int)
    requires IsIndex(i)
    ensures 0 <= Unharden(i) < HARDENED_FLAG
    ensures IsHardened(i) ==> Harden(Unharden(i)) == i
  {}

  // ------------------------------------------------------------ printing

  function IndexText(i: int, hardened: char): string {
    Str(Unharden(i)) + (if IsHardened(i) then [hardened] else [])
  }

  function IndexTexts(mp: seq<int>, hardened: char): (r: seq<string>)
    ensures |r| == |mp| && forall i :: 0 <= i < |mp| ==> r[i] == IndexText(mp[i], hardened)
  {
    if mp == [] then [] else [IndexText(mp[0], hardened)] + IndexTexts(mp[1..], hardened)
  }

  function EntryText(mp: seq<int>, hardened: char): string {
    if |mp| == 1 then IndexText(mp[0], hardened)
    else "<" + Join(IndexTexts(mp, hardened), ';') + ">"
  }

  /** _path_to_string: each entry after a slash. */
  function PathText(path: seq<seq<int>>, hardened: char): string {
    if path == [] then "" else "/" + EntryText(path[0], hardened) + PathText(path[1..], hardened)
  }

  // ------------------------------------------------------------ parsing

  function StrToHarden(x: string): Result<int> {
    if x != [] && x[0] == '-' then
      var i :- IntOf(x);
      Ok(Harden(if i < 0 then -i else i))
    else if x != [] && (x[|x| - 1] == 'h' || x[|x| - 1] == '\'') then
      var i :- IntOf(x[..|x| - 1]);
      Ok(Harden(i))
    else
      IntOf(x)
  }

  function StrsToHarden(xs: seq<string>): (r: Result<seq<int>>)
    ensures r.Ok? ==> |r.value| == |xs|
  {
    if xs == [] then Ok([])
    else
      var i :- StrToHarden(xs[0]);
      var more :- StrsToHarden(xs[1..]);
      Ok([i] + more)
  }

  function ParseMultipath(x: string): (r: Result<seq<int>>)
    requires x != [] && x[0] == '<'
    ensures r.Ok? ==> |r.value| >= 2
  {
    if |x| < 2 || x[|x| - 1] != '>' then Err(ValueError)
    else
      var mp := Split(x[1..|x| - 1], ';');
      if |mp| < 2 then Err(ValueError) else StrsToHarden(mp)
  }

  /** One path entry; `seen` says that a multipath entry came before. */
  function ParseIndex(x: string, seen: bool, allow: bool): (r: Result<(seq<int>, bool)>)
    ensures r.Ok? ==> r.value.0 != []
  {
    if x != [] && x[0] == '<' then
      if seen || !allow then Err(ValueError)
      else
        var mp :- ParseMultipath(x);
        Ok((mp, true))
    else
      var i :- StrToHarden(x);
      Ok(([i], seen))
  }

  function ParseEntries(n: seq<string>, seen: bool, allow: bool): (r: Result<seq<seq<int>>>)
    ensures r.Ok? ==> forall i :: 0 <= i < |r.value| ==> r.value[i] != []
  {
    if n == [] then Ok([])
    else
      var (idx, seen) :- ParseIndex(n[0], seen, allow);
      var more :- ParseEntries(n[1..], seen, allow);
      Ok([idx] + more)
  }

  /** The entries of a path text, without a leading "m". */
  function Entries(nstr: string): seq<string> {
    var n := Split(nstr, '/');
    if n[0] == "m" then n[1..] else n
  }

  function ParsePath(nstr: string, allow: bool): Result<seq<seq<int>>> {
    if nstr == [] then Ok([]) else ParseEntries(Entries(nstr), false, allow)
  }

  /** What is read later goes behind what was read before. */
  function Behind<T>(before: seq<T>, r: Result<seq<T>>): Result<seq<T>> {
    var more :- r;
    Ok(before + more)
  }

  lemma BehindNothing<T>(r: Result<seq<T>>)
    ensures Behind([], r) == r
  {
    if r.Ok? { assert [] + r.value == r.value; }
  }

  lemma BehindOne<T>(before: seq<T>, x: T, r: Result<seq<T>>)
    ensures Behind(before, Behind([x], r)) == Behind(before + [x], r)
  {
    if r.Ok? { assert before + ([x] + r.value) == before + [x] + r.value; }
  }

  /** The loop of _parse_path. */
  method ReadPath(nstr: string, allow: bool) returns (r: Result<seq<seq<int>>>)
    ensures r == ParsePath(nstr, allow)
  {
    if nstr == [] {
      return Ok([]);
    }
    var n := Entries(nstr);
    var path: seq<seq<int>> := [];
    var seen := false;
    BehindNothing(ParseEntries(n, false, allow));
    assert n[0..] == n;
    for i := 0 to |n|
      invariant ParsePath(nstr, allow) == Behind(path, ParseEntries(n[i..], seen, allow))
    {
      ghost var rest := n[i..];
      assert rest[0] == n[i] && rest[1..] == n[i + 1..];
      var idx := ParseIndex(n[i], seen, allow);
      if idx.Err? {
        return Err(idx.error);
      }
      BehindOne(path, idx.value.0, ParseEntries(n[i + 1..], idx.value.1, allow));
      path, seen := path + [idx.value.0], idx.value.1;
    }
    assert path + [] == path;
    return Ok(path);
  }

  // ------------------------------------------------------------ round trip

  /** What a parsed path looks like: indexes below 2^32, and at most one multipath entry, of two or more. */
  predicate IsPath(path: seq<seq<int>>, seen: bool, allow: bool) {
    path == [] ||
    (if |path[0]| == 1 then IsIndex(path[0][0]) && IsPath(path[1..], seen, allow)
     else
       && |path[0]| >= 2 && !seen && allow && IsPath(path[1..], true, allow)
       && forall i :: 0 <= i < |path[0]| ==> IsIndex(path[0][i]))
  }

  /** The characters of a printed index. */
  predicate IndexChars(s: string, hardened: char) {
    forall i :: 0 <= i < |s| ==> IsDigit(s[i]) || s[i] == hardened
  }

  lemma IndexTextShape(i: int, hardened: char)
    requires IsIndex(i)
    ensures var t := IndexText(i, hardened);
            t != [] && IsDigit(t[0]) && IndexChars(t, hardened)
  {
    HardenUnharden(i);
    DecimalDigits(Unharden(i));
  }

  /** Reading a printed index, with either mark for hardened ones. */
  lemma IndexRoundTrip(i: int, hardened: char)
    requires IsIndex(i) && (hardened == 'h' || hardened == '\'')
    ensures StrToHarden(IndexText(i, hardened)) == Ok(i)
  {
    HardenUnharden(i);
    var d := Decimal(Unharden(i));
    DecimalDigits(Unharden(i));
    IntOfDecimal(Unharden(i));
    if IsHardened(i) {
      assert (d + [hardened])[..|d|] == d;
    } else {
      assert d + [] == d;
      assert IsDigit(d[|d| - 1]);
    }
  }

  lemma {:induction false} IndexesRoundTrip(mp: seq<int>, hardened: char)
    requires (forall i :: 0 <= i < |mp| ==> IsIndex(mp[i])) && (hardened == 'h' || hardened == '\'')
    ensures StrsToHarden(IndexTexts(mp, hardened)) == Ok(mp)
  {
    if mp != [] {
      var i, more := mp[0], mp[1..];
      IndexRoundTrip(i, hardened);
      IndexesRoundTrip(more, hardened);
      StrsCons(IndexText(i, hardened), IndexTexts(more, hardened), i, more);
      assert mp == [i] + more;
    }
  }

  lemma StrsCons(x: string, xs: seq<string>, i: int, more: seq<int>)
    requires StrToHarden(x) == Ok(i) && StrsToHarden(xs) == Ok(more)
    ensures StrsToHarden([x] + xs) == Ok([i] + more)
  {
    assert ([x] + xs)[1..] == xs;
  }

  lemma MultipathRoundTrip(mp: seq<int>, hardened: char)
    requires |mp| >= 2 && (forall i :: 0 <= i < |mp| ==> IsIndex(mp[i])) && (hardened == 'h' || hardened == '\'')
    ensures var x := EntryText(mp, hardened);
            x != [] && x[0] == '<' && ParseMultipath(x) == Ok(mp)
  {
    var texts := IndexTexts(mp, hardened);
    forall i | 0 <= i < |mp| ensures ';' !in texts[i] {
      IndexTextShape(mp[i], hardened);
    }
    SplitJoin(texts, ';');
    IndexesRoundTrip(mp, hardened);
    var x := EntryText(mp, hardened);
    assert x[1..|x| - 1] == Join(texts, ';');
  }

  lemma EntryRoundTrip(mp: seq<int>, seen: bool, allow: bool, hardened: char)
    requires IsPath([mp], seen, allow) && (hardened == 'h' || hardened == '\'')
    ensures ParseIndex(EntryText(mp, hardened), seen, allow) == Ok((mp, seen || |mp| > 1))
  {
    if |mp| == 1 {
      IndexTextShape(mp[0], hardened);
      IndexRoundTrip(mp[0], hardened);
      assert mp == [mp[0]];
    } else {
      MultipathRoundTrip(mp, hardened);
    }
  }

  function EntryTexts(path: seq<seq<int>>, hardened: char): (r: seq<string>)
    ensures |r| == |path|
  {
    if path == [] then [] else [EntryText(path[0], hardened)] + EntryTexts(path[1..], hardened)
  }

  lemma {:induction false} EntriesRoundTrip(path: seq<seq<int>>, seen: bool, allow: bool, hardened: char)
    requires IsPath(path, seen, allow) && (hardened == 'h' || hardened == '\'')
    ensures ParseEntries(EntryTexts(path, hardened), seen, allow) == Ok(path)
    decreases |path|
  {
    if path != [] {
      assert IsPath([path[0]], seen, allow);
      EntryRoundTrip(path[0], seen, allow, hardened);
      EntriesRoundTrip(path[1..], seen || |path[0]| > 1, allow, hardened);
      assert path == [path[0]] + path[1..];
    }
  }

  /** Characters that path entries are made of. */
  predicate EntryChars(s: string) {
    forall i :: 0 <= i < |s| ==> IsDigit(s[i]) || s[i] in "h'<>;"
  }

  predicate EntryEnd(s: string) {
    s != [] && (IsDigit(s[|s| - 1]) || s[|s| - 1] in "h'>")
  }

  lemma {:induction false} JoinChars(xs: seq<string>)
    requires forall i :: 0 <= i < |xs| ==> EntryChars(xs[i])
    ensures EntryChars(Join(xs, ';'))
    decreases |xs|
  {
    if |xs| > 1 { JoinChars(xs[1..]); }
  }

  lemma EntryShape(mp: seq<int>, hardened: char)
    requires mp != [] && (forall i :: 0 <= i < |mp| ==> IsIndex(mp[i])) && (hardened == 'h' || hardened == '\'')
    ensures EntryChars(EntryText(mp, hardened)) && EntryEnd(EntryText(mp, hardened))
    ensures EntryText(mp, hardened) != "m"
  {
    forall i | 0 <= i < |mp| ensures EntryChars(IndexText(mp[i], hardened)) && EntryEnd(IndexText(mp[i], hardened)) {
      IndexTextShape(mp[i], hardened);
    }
    if |mp| > 1 { JoinChars(IndexTexts(mp, hardened)); }
  }

  lemma {:induction false} PathIsJoin(path: seq<seq<int>>, hardened: char)
    requires path != []
    ensures PathText(path, hardened) == "/" + Join(EntryTexts(path, hardened), '/')
    decreases |path|
  {
    if |path| == 1 {
      assert PathText(path[1..], hardened) == "";
    } else {
      PathIsJoin(path[1..], hardened);
      assert EntryTexts(path, hardened)[1..] == EntryTexts(path[1..], hardened);
    }
  }

  lemma {:induction false} EntryTextsShape(path: seq<seq<int>>, seen: bool, allow: bool, hardened: char)
    requires IsPath(path, seen, allow) && (hardened == 'h' || hardened == '\'')
    ensures forall i :: 0 <= i < |path| ==>
              EntryChars(EntryTexts(path, hardened)[i]) && EntryEnd(EntryTexts(path, hardened)[i])
              && EntryTexts(path, hardened)[i] != "m" && '/' !in EntryTexts(path, hardened)[i]
    decreases |path|
  {
    if path != [] {
      EntryShape(path[0], hardened);
      EntryTextsShape(path[1..], seen || |path[0]| > 1, allow, hardened);
    }
  }

  /**
   * Reading the text of a path, without its first slash, gives the path back, whichever mark hardened
   * indexes were printed with.
   */
  lemma PathRoundTrip(path: seq<seq<int>>, allow: bool, hardened: char)
    requires IsPath(path, false, allow) && path != [] && (hardened == 'h' || hardened == '\'')
    ensures ParsePath(PathText(path, hardened)[1..], allow) == Ok(path)
  {
    var texts := EntryTexts(path, hardened);
    PathIsJoin(path, hardened);
    EntryTextsShape(path, false, allow, hardened);
    SplitJoin(texts, '/');
    JoinNonEmpty(texts, '/');
    assert PathText(path, hardened)[1..] == Join(texts, '/');
    EntriesRoundTrip(path, false, allow, hardened);
  }

  /** A leading "m" stands for the key itself and is not part of the path. */
  lemma LeadingM(path: seq<seq<int>>, allow: bool, hardened: char)
    requires IsPath(path, false, allow) && (hardened == 'h' || hardened == '\'')
    ensures ParsePath("m" + PathText(path, hardened), allow) == Ok(path)
  {
    hide PathText, IsPath, ParseEntries, Split, Join;
    var texts := EntryTexts(path, hardened);
    EntriesRoundTrip(path, false, allow, hardened);
    if path == [] {
      NoPath(hardened);
      OnlyM();
    } else {
      PathIsJoin(path, hardened);
      EntryTextsShape(path, false, allow, hardened);
      SplitJoin(texts, '/');
      WithM(Join(texts, '/'));
      assert "m" + ("/" + Join(texts, '/')) == "m" + "/" + Join(texts, '/');
    }
  }

  lemma NoPath(hardened: char)
    ensures PathText([], hardened) == "" && EntryTexts([], hardened) == []
  {}

  lemma OnlyM()
    ensures Entries("m" + "") == [] && "m" + "" != ""
  {
    assert "m" + "" == "m";
    assert Find("m", '/') == None;
  }

  lemma WithM(rest: string)
    ensures Entries("m" + "/" + rest) == Split(rest, '/')
  {
    SplitCons("m", '/', rest);
  }

  /** Hardened steps begin at 2^31; they are written with either mark, or with a minus sign. */
  lemma HardenedSteps(n: nat)
    requires n < 0x8000_0000
    ensures StrToHarden(Decimal(n)) == Ok(n)
    ensures StrToHarden(Decimal(n) + "h") == StrToHarden(Decimal(n) + "'") == Ok(n + 0x8000_0000)
    ensures StrToHarden("-" + Decimal(n)) == Ok(n + 0x8000_0000)
    ensures IndexText(n, 'h') == Decimal(n) && IndexText(n + 0x8000_0000, 'h') == Decimal(n) + "h"
  {
    hide StrToHarden, Decimal;
    IndexRoundTrip(n, 'h');
    IndexRoundTrip(n + 0x8000_0000, 'h');
    IndexRoundTrip(n + 0x8000_0000, '\'');
    assert Decimal(n) + [] == Decimal(n);
    MinusStep(n);
  }

  lemma MinusStep(n: nat)
    requires n < 0x8000_0000
    ensures StrToHarden("-" + Decimal(n)) == Ok(n + 0x8000_0000)
  {
    hide IntOf, Decimal;
    MinusDecimal(n);
  }

  lemma MinusDecimal(n: nat)
    ensures IntOf("-" + Decimal(n)) == Ok(0 - n)
  {
    hide Decimal, NumeralValue;
    DecimalDigits(n);
    var s := Decimal(n);
    var t := "-" + s;
    assert IsDigit(s[|s| - 1]);
    assert t[|t| - 1] == s[|s| - 1];
    assert Strip(t) == t;
    assert t[1..] == s;
  }

  lemma JoinNonEmpty(xs: seq<string>, ch: char)
    requires |xs| >= 1 && xs[0] != []
    ensures Join(xs, ch) != []
  {}

  // ------------------------------------------------------------ key origins

  datatype Origin = Origin(fingerprint: Bytes, path: seq<int>)

  const HEX: string := "0123456789abcdef"

  function Hexlify(b: Bytes): (s: string)
    ensures |s| == 2 * |b|
  {
    if b == [] then [] else [HEX[b[0] as int / 16], HEX[b[0] as int % 16]] + Hexlify(b[1..])
  }

  function HexValue(c: char): Option<nat> {
    if '0' <= c <= '9' then Some(c as int - '0' as int)
    else if 'a' <= c <= 'f' then Some(c as int - 'a' as int + 10)
    else if 'A' <= c <= 'F' then Some(c as int - 'A' as int + 10)
    else None
  }

  /** binascii.unhexlify */
  function Unhexlify(s: string): Result<Bytes> {
    if s == [] then Ok([])
    else if |s| == 1 then Err(ValueError)
    else
      match (HexValue(s[0]), HexValue(s[1]))
      case (Some(hi), Some(lo)) =>
        var more :- Unhexlify(s[2..]);
        Ok([(16 * hi + lo) as byte] + more)
      case _ => Err(ValueError)
  }

  lemma HexDigit(d: nat)
    requires d < 16
    ensures HexValue(HEX[d]) == Some(d) && LowerChar(HEX[d]) == HEX[d] && HEX[d] !in "/]"
  {}

  predicate HexChars(s: string) {
    forall i :: 0 <= i < |s| ==> s[i] !in "/]" && LowerChar(s[i]) == s[i]
  }

  /** Two digits a byte, the high one first. */
  lemma {:induction false} HexlifyAt(b: Bytes, i: nat)
    requires i < |b|
    ensures Hexlify(b)[2 * i] == "0123456789abcdef"[b[i] as int / 16]
    ensures Hexlify(b)[2 * i + 1] == "0123456789abcdef"[b[i] as int % 16]
  {
    if i > 0 { HexlifyAt(b[1..], i - 1); }
  }

  lemma HexPair(b: byte, rest: string, more: Bytes)
    requires Unhexlify(rest) == Ok(more) && HexChars(rest)
    ensures var s := [HEX[b as int / 16], HEX[b as int % 16]] + rest;
            Unhexlify(s) == Ok([b] + more) && HexChars(s)
  {
    var s := [HEX[b as int / 16], HEX[b as int % 16]] + rest;
    HexDigit(b as int / 16);
    HexDigit(b as int % 16);
    assert s[2..] == rest;
  }

  lemma {:induction false} HexRoundTrip(b: Bytes)
    ensures Unhexlify(Hexlify(b)) == Ok(b) && HexChars(Hexlify(b))
  {
    if b != [] {
      HexRoundTrip(b[1..]);
      HexPair(b[0], Hexlify(b[1..]), b[1..]);
      assert b == [b[0]] + b[1..];
    }
  }

  function Singles(path: seq<int>): (r: seq<seq<int>>)
    ensures |r| == |path| && forall i :: 0 <= i < |path| ==> r[i] == [path[i]]
  {
    if path == [] then [] else [[path[0]]] + Singles(path[1..])
  }

  function Firsts(path: seq<seq<int>>): (r: seq<int>)
    requires forall i :: 0 <= i < |path| ==> path[i] != []
  {
    if path == [] then [] else [path[0][0]] + Firsts(path[1..])
  }

  /** KeyOriginInfo.to_string */
  function OriginText(o: Origin, hardened: char): string {
    Hexlify(o.fingerprint) + PathText(Singles(o.path), hardened)
  }

  /** parse_path: without multipath entries, the first index of each entry. */
  function ParsePlainPath(nstr: string): Result<seq<int>> {
    var path :- ParsePath(nstr, false);
    Ok(Firsts(path))
  }

  /** KeyOriginInfo.from_string */
  function ParseOrigin(text: string): Result<Origin> {
    var s := Lower(text);
    var fingerprint :- Unhexlify(Head(s, 8));
    if |Split(s, '/')| > 1 then
      var path :- ParsePlainPath(Drop(s, 9));
      Ok(Origin(fingerprint, path))
    else
      Ok(Origin(fingerprint, []))
  }

  predicate IsOrigin(o: Origin) {
    |o.fingerprint| == 4 && forall i :: 0 <= i < |o.path| ==> IsIndex(o.path[i])
  }

  /** The characters of printed origins. */
  predicate OriginChars(s: string) {
    forall i :: 0 <= i < |s| ==> LowerChar(s[i]) == s[i] && s[i] != ']'
  }

  lemma {:induction false} PathChars(path: seq<seq<int>>, seen: bool, allow: bool, hardened: char)
    requires IsPath(path, seen, allow) && (hardened == 'h' || hardened == '\'')
    ensures OriginChars(PathText(path, hardened))
    decreases |path|
  {
    if path != [] {
      EntryShape(path[0], hardened);
      PathChars(path[1..], seen || |path[0]| > 1, allow, hardened);
    }
  }

  lemma {:induction false} SinglesPath(path: seq<int>)
    requires forall i :: 0 <= i < |path| ==> IsIndex(path[i])
    ensures IsPath(Singles(path), false, false) && Firsts(Singles(path)) == path
  {
    if path != [] {
      SinglesPath(path[1..]);
      assert Singles(path)[1..] == Singles(path[1..]);
    }
  }

  lemma LowerSame(s: string)
    requires OriginChars(s)
    ensures Lower(s) == s
  {}

  /** Reading a printed origin gives it back; its text never closes the bracket it stands in. */
  lemma OriginRoundTrip(o: Origin, hardened: char)
    requires IsOrigin(o) && (hardened == 'h' || hardened == '\'')
    ensures ParseOrigin(OriginText(o, hardened)) == Ok(o) && ']' !in OriginText(o, hardened)
  {
    var hex, path := Hexlify(o.fingerprint), PathText(Singles(o.path), hardened);
    var s := hex + path;
    HexRoundTrip(o.fingerprint);
    SinglesPath(o.path);
    PathChars(Singles(o.path), false, false, hardened);
    LowerSame(s);
    assert s[..8] == hex;
    if o.path == [] {
      assert s == hex;
      assert Find(s, '/') == None;
    } else {
      var rest := path[1..];
      assert path == "/" + rest by { PathIsJoin(Singles(o.path), hardened); }
      SplitCons(hex, '/', rest);
      assert s == hex + ['/'] + rest && s[9..] == rest;
      PathRoundTrip(Singles(o.path), false, hardened);
    }
  }
}
