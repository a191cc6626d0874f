/** Text with key references, and the textual substitutions that wallet policies use. */
module Templates {
  import opened Sequences
  import opened Strings

  /** A stretch of plain text, or a reference to a key with the derivation steps behind it. */
  datatype Piece = Text(text: string) | Ref(index: nat, tail: string)

  /** The text of pieces when references are replaced all at once. */
  function Render(ps: seq<Piece>, sub: nat -> string): string {
    if ps == [] then ""
    else RenderOne(ps[0], sub) + Render(ps[1..], sub)
  }

  function RenderOne(p: Piece, sub: nat -> string): string {
    match p
    case Text(t) => t
    case Ref(i, tail) => sub(i) + tail
  }

  lemma {:induction false} RenderConcat(a: seq<Piece>, b: seq<Piece>, sub: nat -> string)
    ensures Render(a + b, sub) == Render(a, sub) + Render(b, sub)
    decreases |a|
  {
    if a == [] {
      assert a + b == b;
      assert "" + Render(b, sub) == Render(b, sub);
    } else {
      assert (a + b)[0] == a[0] && (a + b)[1..] == a[1..] + b;
      RenderConcat(a[1..], b, sub);
      Associate(RenderOne(a[0], sub), Render(a[1..], sub), Render(b, sub));
    }
  }

  // ------------------------------------------------------------ replacing

  /** str.replace: all occurrences from left to right, without overlap. */
  function Replace(s: string, find: string, put: string): string
    requires find != []
    decreases |s|
  {
    if |s| < |find| then s
    else if s[..|find|] == find then put + Replace(s[|find|..], find, put)
    else [s[0]] + Replace(s[1..], find, put)
  }

  lemma ReplacePast(c: char, s: string, find: string, put: string)
    requires find != [] && find[0] != c
    ensures Replace([c] + s, find, put) == [c] + Replace(s, find, put)
  {
    var t := [c] + s;
    assert t[1..] == s;
    if |t| >= |find| {
      assert t[..|find|][0] == c;
    }
  }

  /** Nothing is found where the first character does not occur. */
  lemma {:induction false} ReplaceSkip(a: string, rest: string, find: string, put: string)
    requires find != [] && find[0] !in a
    ensures Replace(a + rest, find, put) == a + Replace(rest, find, put)
    decreases |a|
  {
    hide Replace;
    if a == [] {
      assert a + rest == rest;
      assert "" + Replace(rest, find, put) == Replace(rest, find, put);
    } else {
      var c, more := a[0], a[1..];
      assert a == [c] + more;
      ReplaceSkip(more, rest, find, put);
      Associate([c], more, rest);
      ReplacePast(c, more + rest, find, put);
      Associate([c], more, Replace(rest, find, put));
    }
  }

  lemma ReplaceShort(s: string, find: string, put: string)
    requires |s| < |find|
    ensures Replace(s, find, put) == s
  {}

  lemma ReplaceHit(find: string, rest: string, put: string)
    requires find != []
    ensures Replace(find + rest, find, put) == put + Replace(rest, find, put)
  {
    assert (find + rest)[..|find|] == find && (find + rest)[|find|..] == rest;
  }

  lemma ReplaceMiss(s: string, find: string, put: string)
    requires find != [] && s != [] && !(find <= s)
    ensures Replace(s, find, put) == [s[0]] + Replace(s[1..], find, put)
  {
    if |s| < |find| { assert s == [s[0]] + s[1..]; }
  }

  // ------------------------------------------------------------ substituting references

  function Placeholder(i: nat): string {
    "@" + Decimal(i)
  }

  /** The references from `j` on are replaced, the others still stand. */
  function Partly(keys: seq<string>, j: nat): nat -> string {
    (i: nat) => if j <= i < |keys| then keys[i] else Placeholder(i)
  }

  /** The loop of get_descriptor, from the highest reference down. */
  function Substitute(s: string, keys: seq<string>, n: nat): string
    requires n <= |keys|
    decreases n
  {
    if n == 0 then s else Substitute(Replace(s, Placeholder(n - 1), keys[n - 1]), keys, n - 1)
  }

  predicate NoAt(s: string) {
    '@' !in s
  }

  /** Pieces whose references are in range and are not followed by a digit. */
  predicate Refers(ps: seq<Piece>, n: nat) {
    forall i :: 0 <= i < |ps| ==>
      match ps[i]
      case Text(t) => NoAt(t)
      case Ref(k, tail) => k < n && NoAt(tail) && tail != [] && !IsDigit(tail[0])
  }

  lemma {:induction false} DecimalLength(i: nat, j: nat)
    requires i <= j
    ensures |Decimal(i)| <= |Decimal(j)|
  {
    if i >= 10 { DecimalLength(i / 10, j / 10); }
  }

  lemma NotPrefix(p: string, s: string, k: nat)
    requires k < |p| && k < |s| && p[k] != s[k]
    ensures !(p <= s)
  {}

  lemma Differ(a: string, b: string) returns (k: nat)
    requires |a| == |b| && a != b
    ensures k < |a| && a[k] != b[k]
  {
    k :| k < |a| && a[k] != b[k];
  }

  /** A smaller number is never mistaken for the beginning of a greater one. */
  lemma PrefixFree(i: nat, j: nat, tail: string)
    requires i < j && tail != [] && !IsDigit(tail[0])
    ensures !(Placeholder(j) <= Placeholder(i) + tail)
  {
    DecimalLength(i, j);
    DecimalDigits(i);
    DecimalDigits(j);
    var a, b, s := Decimal(i), Decimal(j), Placeholder(i) + tail;
    if |a| < |b| {
      assert s[1 + |a|] == tail[0] && Placeholder(j)[1 + |a|] == b[|a|];
      NotPrefix(Placeholder(j), s, 1 + |a|);
    } else {
      var k := Differ(a, b);
      assert s[1 + k] == a[k] && Placeholder(j)[1 + k] == b[k];
      NotPrefix(Placeholder(j), s, 1 + k);
    }
  }

  lemma NoAtDecimal(i: nat)
    ensures NoAt(Decimal(i))
  {
    DecimalDigits(i);
  }

  lemma ReplaceHigher(i: nat, tail: string, rest: string, keys: seq<string>, j: nat)
    requires j < i < |keys| && NoAt(keys[i]) && NoAt(tail)
    ensures Replace(keys[i] + tail + rest, Placeholder(j), keys[j])
         == keys[i] + tail + Replace(rest, Placeholder(j), keys[j])
  {
    ReplaceSkip(keys[i] + tail, rest, Placeholder(j), keys[j]);
  }

  lemma ReplaceSame(j: nat, tail: string, rest: string, put: string)
    requires NoAt(tail)
    ensures Replace(Placeholder(j) + tail + rest, Placeholder(j), put) == put + tail + Replace(rest, Placeholder(j), put)
  {
    hide Replace;
    var find := Placeholder(j);
    Associate(find, tail, rest);
    ReplaceHit(find, tail + rest, put);
    ReplaceSkip(tail, rest, find, put);
    Associate(put, tail, Replace(rest, find, put));
  }

  lemma ReplaceLower(i: nat, tail: string, rest: string, j: nat, put: string)
    requires i < j && NoAt(tail) && tail != [] && !IsDigit(tail[0])
    ensures Replace(Placeholder(i) + tail + rest, Placeholder(j), put)
         == Placeholder(i) + tail + Replace(rest, Placeholder(j), put)
  {
    hide Replace;
    var find := Placeholder(j);
    var s := Placeholder(i) + tail + rest;
    PrefixFree(i, j, tail + rest);
    Associate(Placeholder(i), tail, rest);
    ReplaceMiss(s, find, put);
    NoAtDecimal(i);
    assert s[1..] == Decimal(i) + tail + rest;
    ReplaceSkip(Decimal(i) + tail, rest, find, put);
    assert ['@'] + (Decimal(i) + tail + Replace(rest, find, put)) == Placeholder(i) + tail + Replace(rest, find, put);
  }

  predicate NoAts(keys: seq<string>) {
    forall k :: 0 <= k < |keys| ==> NoAt(keys[k])
  }

  /** One replacement at one reference. */
  lemma ReplaceRef(i: nat, tail: string, rest: string, keys: seq<string>, j: nat)
    requires i < |keys| && j < |keys| && NoAts(keys)
    requires NoAt(tail) && tail != [] && !IsDigit(tail[0])
    ensures Replace(Partly(keys, j + 1)(i) + tail + rest, Placeholder(j), keys[j])
         == Partly(keys, j)(i) + tail + Replace(rest, Placeholder(j), keys[j])
  {
    hide Replace;
    if i > j {
      ReplaceHigher(i, tail, rest, keys, j);
    } else if i == j {
      ReplaceSame(j, tail, rest, keys[j]);
    } else {
      ReplaceLower(i, tail, rest, j, keys[j]);
    }
  }

  /** One replacement over the whole text does exactly the references with its number. */
  lemma {:induction false} ReplaceStep(ps: seq<Piece>, keys: seq<string>, j: nat)
    requires Refers(ps, |keys|) && NoAts(keys) && j < |keys|
    ensures Replace(Render(ps, Partly(keys, j + 1)), Placeholder(j), keys[j]) == Render(ps, Partly(keys, j))
    decreases |ps|
  {
    hide Replace;
    if ps == [] {
      ReplaceShort([], Placeholder(j), keys[j]);
    } else {
      ReplaceStep(ps[1..], keys, j);
      match ps[0]
      case Text(t) => ReplaceSkip(t, Render(ps[1..], Partly(keys, j + 1)), Placeholder(j), keys[j]);
      case Ref(i, tail) => ReplaceRef(i, tail, Render(ps[1..], Partly(keys, j + 1)), keys, j);
    }
  }

  /**
   * Replacing one reference after the other, from the highest number down, is replacing all of them at
   * once: no number is ever taken for the beginning of another, and no key is ever replaced in.
   */
  lemma {:induction false} SubstituteIsSimultaneous(ps: seq<Piece>, keys: seq<string>, n: nat)
    requires Refers(ps, |keys|) && NoAts(keys) && n <= |keys|
    ensures Substitute(Render(ps, Partly(keys, n)), keys, n) == Render(ps, Partly(keys, 0))
    decreases n
  {
    hide Replace, Render, Refers;
    if n > 0 {
      ReplaceStep(ps, keys, n - 1);
      SubstituteIsSimultaneous(ps, keys, n - 1);
    }
  }
}
