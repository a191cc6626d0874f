/** The Python string operations the text formats use. */
module Strings {
  import opened Python

  /** str.find for one character: the first index. */
  function Find(s: string, ch: char): (p: Option<nat>)
    ensures p.Some? ==> p.value < |s| && s[p.value] == ch && ch !in s[..p.value]
    ensures p.Some? <==> ch in s
  {
    if ch in s then
      FirstIndex(s, ch);
      var p: nat :| p < |s| && s[p] == ch && ch !in s[..p];
      Some(p)
    else
      None
  }

  lemma {:induction false} FirstIndex(s: string, ch: char)
    requires ch in s
    ensures exists p: nat :: p < |s| && s[p] == ch && ch !in s[..p]
    decreases |s|
  {
    var i: nat :| i < |s| && s[i] == ch;
    if ch in s[..i] {
      FirstIndex(s[..i], ch);
      var p: nat :| p < |s[..i]| && s[..i][p] == ch && ch !in s[..i][..p];
      assert s[..i][..p] == s[..p];
    }
  }

  lemma InPrefix<T>(s: seq<T>, q: nat, p: nat)
    requires q < p <= |s|
    ensures s[q] in s[..p]
  {
    assert s[..p][q] == s[q];
  }

  lemma FindUnique(s: string, ch: char, p: nat)
    requires p < |s| && s[p] == ch && ch !in s[..p]
    ensures Find(s, ch) == Some(p)
  {
    var q := Find(s, ch).value;
    if q < p {
      InPrefix(s, q, p);
    } else if p < q {
      InPrefix(s, p, q);
    }
  }

  lemma FindAt(a: string, ch: char, rest: string)
    requires ch !in a
    ensures Find(a + [ch] + rest, ch) == Some(|a|)
    ensures (a + [ch] + rest)[..|a|] == a && (a + [ch] + rest)[|a| + 1..] == rest
  {
    FindUnique(a + [ch] + rest, ch, |a|);
  }

  /** str.rfind for one character: the last index. */
  function RFind(s: string, ch: char): (p: Option<nat>)
    ensures p.Some? ==> p.value < |s| && s[p.value] == ch && ch !in s[p.value + 1..]
    ensures p.Some? <==> ch in s
  {
    if s == [] then None
    else if s[|s| - 1] == ch then Some(|s| - 1)
    else
      var p := RFind(s[..|s| - 1], ch);
      assert p.Some? ==> s[p.value + 1..] == s[..|s| - 1][p.value + 1..] + [s[|s| - 1]];
      assert s == s[..|s| - 1] + [s[|s| - 1]];
      p
  }

  lemma {:induction false} RFindAt(a: string, ch: char, rest: string)
    requires ch !in rest
    ensures RFind(a + [ch] + rest, ch) == Some(|a|)
    decreases |rest|
  {
    var s := a + [ch] + rest;
    if rest == [] {
      assert s[|s| - 1] == ch;
    } else {
      var init := rest[..|rest| - 1];
      RFindAt(a, ch, init);
      assert s[..|s| - 1] == a + [ch] + init;
      assert s[|s| - 1] == rest[|rest| - 1];
    }
  }

  function LowerChar(c: char): char {
    if 'A' <= c <= 'Z' then c - 'A' + 'a' else c
  }

  function UpperChar(c: char): char {
    if 'a' <= c <= 'z' then c - 'a' + 'A' else c
  }

  /** str.lower and str.upper on ASCII strings. */
  function Lower(s: string): (r: string)
    ensures |r| == |s| && forall i :: 0 <= i < |s| ==> r[i] == LowerChar(s[i])
  {
    if s == [] then [] else [LowerChar(s[0])] + Lower(s[1..])
  }

  function Upper(s: string): (r: string)
    ensures |r| == |s| && forall i :: 0 <= i < |s| ==> r[i] == UpperChar(s[i])
  {
    if s == [] then [] else [UpperChar(s[0])] + Upper(s[1..])
  }

  /** s[:n] and s[n:], which clip at the end of the string. */
  function Head<T>(s: seq<T>, n: nat): seq<T> {
    if n <= |s| then s[..n] else s
  }

  function Drop<T>(s: seq<T>, n: nat): seq<T> {
    if n <= |s| then s[n..] else []
  }

  // ------------------------------------------------------------ split and join

  function Split(s: string, ch: char): (r: seq<string>)
    ensures |r| >= 1
    decreases |s|
  {
    match Find(s, ch)
    case None => [s]
    case Some(p) => [s[..p]] + Split(s[p + 1..], ch)
  }

  function Join(xs: seq<string>, ch: char): string {
    if xs == [] then ""
    else if |xs| == 1 then xs[0]
    else xs[0] + [ch] + Join(xs[1..], ch)
  }

  lemma SplitCons(a: string, ch: char, rest: string)
    requires ch !in a
    ensures Split(a + [ch] + rest, ch) == [a] + Split(rest, ch)
  {
    FindAt(a, ch, rest);
  }

  /** Splitting undoes joining, for any pieces without the separator. */
  lemma {:induction false} SplitJoin(xs: seq<string>, ch: char)
    requires |xs| >= 1 && forall i :: 0 <= i < |xs| ==> ch !in xs[i]
    ensures Split(Join(xs, ch), ch) == xs
    decreases |xs|
  {
    if |xs| == 1 {
      assert Find(xs[0], ch) == None;
    } else {
      var a, more := xs[0], xs[1..];
      SplitJoin(more, ch);
      SplitCons(a, ch, Join(more, ch));
      assert xs == [a] + more;
    }
  }

  // ------------------------------------------------------------ numbers

  function Digit(d: nat): char
    requires d < 10
  {
    '0' + d as char
  }

  /** str(n) */
  function Decimal(n: nat): (s: string)
    ensures s != []
  {
    if n < 10 then [Digit(n)] else Decimal(n / 10) + [Digit(n % 10)]
  }

  function Str(i: int): string {
    if i < 0 then "-" + Decimal(-i) else Decimal(i)
  }

  predicate IsDigit(c: char) { '0' <= c <= '9' }

  /** ASCII whitespace, which int() ignores at both ends. */
  predicate IsSpace(c: char) { c == ' ' || '\t' <= c <= '\r' }

  function Strip(s: string): string
    decreases |s|
  {
    if s == [] then []
    else if IsSpace(s[0]) then Strip(s[1..])
    else if IsSpace(s[|s| - 1]) then Strip(s[..|s| - 1])
    else s
  }

  /** Digits, with single underscores between them. */
  predicate Numeral(s: string) {
    && s != [] && IsDigit(s[|s| - 1])
    && forall i :: 0 <= i < |s| ==> IsDigit(s[i]) || (s[i] == '_' && 0 < i && IsDigit(s[i - 1]))
  }

  function DigitValue(c: char): nat {
    if IsDigit(c) then c as int - '0' as int else 0
  }

  function NumeralValue(s: string): int {
    if s == [] then 0
    else if s[|s| - 1] == '_' then NumeralValue(s[..|s| - 1])
    else 10 * NumeralValue(s[..|s| - 1]) + DigitValue(s[|s| - 1])
  }

  /** int(s) for ASCII text. */
  function IntOf(s: string): Result<int> {
    var t := Strip(s);
    var u := if t != [] && (t[0] == '+' || t[0] == '-') then t[1..] else t;
    if Numeral(u) then Ok(if t[0] == '-' then -NumeralValue(u) else NumeralValue(u)) else Err(ValueError)
  }

  predicate AllDigits(s: string) {
    forall i :: 0 <= i < |s| ==> IsDigit(s[i])
  }

  lemma {:induction false} DecimalDigits(n: nat)
    ensures AllDigits(Decimal(n)) && NumeralValue(Decimal(n)) == n
  {
    if n < 10 {
      assert NumeralValue([Digit(n)]) == 10 * NumeralValue([]) + n;
    } else {
      DecimalDigits(n / 10);
      var s := Decimal(n);
      assert s[..|s| - 1] == Decimal(n / 10);
    }
  }

  /** Printing and reading a number. */
  lemma IntOfDecimal(n: nat)
    ensures IntOf(Decimal(n)) == Ok(n)
  {
    DecimalDigits(n);
    var s := Decimal(n);
    assert IsDigit(s[0]) && IsDigit(s[|s| - 1]);
  }
}
