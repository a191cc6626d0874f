/** Bitcoin's integer and string encodings (_serialize.py) and their parsers. */
module Serialize {
  import opened Python
  import Bits

  function Pow256(k: nat): (p: nat)
    ensures p >= 1
  {
    if k == 0 then 1 else 256 * Pow256(k - 1)
  }

  /** `n` in `k` bytes, least significant first. */
  function Le(n: nat, k: nat): (b: Bytes)
    ensures |b| == k
  {
    if k == 0 then [] else [(n % 256) as byte] + Le(n / 256, k - 1)
  }

  function FromLe(b: Bytes): nat {
    if b == [] then 0 else b[0] as nat + 256 * FromLe(b[1..])
  }

  lemma {:induction false} LeRoundTrip(n: nat, k: nat)
    requires n < Pow256(k)
    ensures FromLe(Le(n, k)) == n
  {
    if k > 0 {
      LeRoundTrip(n / 256, k - 1);
      assert Le(n, k)[1..] == Le(n / 256, k - 1);
    }
  }

  lemma {:induction false} FromLeRoundTrip(b: Bytes)
    ensures FromLe(b) < Pow256(|b|) && Le(FromLe(b), |b|) == b
  {
    if b != [] {
      FromLeRoundTrip(b[1..]);
      assert b == [b[0]] + b[1..];
    }
  }

  const U16: nat := 0x1_0000
  const U32: nat := 0x1_0000_0000
  const U64: nat := 0x1_0000_0000_0000_0000

  lemma Widths()
    ensures Pow256(1) == 0x100 && Pow256(2) == U16 && Pow256(4) == U32 && Pow256(8) == U64
  {
    assert Pow256(2) == 256 * Pow256(1);
    assert Pow256(4) == 256 * 256 * Pow256(2);
    assert Pow256(8) == 256 * 256 * (256 * 256 * Pow256(4));
  }

  // ---------------------------------------------------------------- compact sizes

  /** ser_compact_size; larger numbers do not fit and make struct.pack fail. */
  function CompactSize(n: nat): (b: Bytes)
    requires n < U64
    ensures 1 <= |b| <= 9
  {
    if n < 253 then [n as byte]
    else if n < U16 then [253] + Le(n, 2)
    else if n < U32 then [254] + Le(n, 4)
    else [255] + Le(n, 8)
  }

  /** Little-endian: byte `i` of the number has the weight 256^i. */
  lemma {:induction false} LeByte(n: nat, k: nat, i: nat)
    requires i < k
    ensures Le(n, k)[i] as nat == n / Pow256(i) % 256
  {
    if i == 0 {
      assert Pow256(0) == 1;
    } else {
      LeByte(n / 256, k - 1, i - 1);
      DivTwice(n, Pow256(i - 1));
    }
  }

  lemma DivTwice(n: nat, p: nat)
    requires p >= 1
    ensures n / (256 * p) == n / 256 / p
  {
    var q, r := n / 256 / p, n / 256 % p;
    assert n / 256 == p * q + r;
    assert n == 256 * (p * q) + 256 * r + n % 256;
    assert 256 * (p * q) == 256 * p * q;
    Bits.ModUnique(n, 256 * p, q, 256 * r + n % 256);
  }

  /** One byte below 253, else a mark and two, four or eight bytes. */
  lemma CompactSizeBytes(n: nat)
    requires n < U64
    ensures n <= 252 ==> CompactSize(n) == [n as byte]
    ensures 253 <= n <= 0xffff ==> CompactSize(n) == [253, (n % 256) as byte, (n / 256 % 256) as byte]
    ensures 0x1_0000 <= n <= 0xffff_ffff ==> CompactSize(n) == [254] + Le(n, 4)
    ensures 0x1_0000_0000 <= n ==> CompactSize(n) == [255] + Le(n, 8)
  {
    assert Le(n, 2) == [(n % 256) as byte] + Le(n / 256, 1);
  }

  /** Reading `k` bytes off the front of a stream, or failing. */
  function Take(s: Bytes, k: nat): Result<(Bytes, Bytes)> {
    if k <= |s| then Ok((s[..k], s[k..])) else Err(StructError)
  }

  function ReadLe(s: Bytes, k: nat): Result<(nat, Bytes)> {
    var (b, rest) :- Take(s, k);
    Ok((FromLe(b), rest))
  }

  /** deser_compact_size. */
  function ReadCompactSize(s: Bytes): Result<(nat, Bytes)> {
    var (tag, rest) :- ReadLe(s, 1);
    if tag == 253 then ReadLe(rest, 2)
    else if tag == 254 then ReadLe(rest, 4)
    else if tag == 255 then ReadLe(rest, 8)
    else Ok((tag, rest))
  }

  lemma ReadLeRoundTrip(n: nat, k: nat, rest: Bytes)
    requires n < Pow256(k)
    ensures ReadLe(Le(n, k) + rest, k) == Ok((n, rest))
  {
    LeRoundTrip(n, k);
    assert (Le(n, k) + rest)[..k] == Le(n, k) && (Le(n, k) + rest)[k..] == rest;
  }

  lemma ReadTag(t: byte, rest: Bytes)
    ensures ReadLe([t] + rest, 1) == Ok((t as nat, rest))
  {
    var s := [t] + rest;
    assert s[..1] == [t] && s[1..] == rest;
    assert FromLe([t]) == t as nat + 256 * FromLe([t][1..]);
  }

  /** A compact size is read back exactly, and the reader stops right behind it. */
  lemma CompactSizeRoundTrip(n: nat, rest: Bytes)
    requires n < U64
    ensures ReadCompactSize(CompactSize(n) + rest) == Ok((n, rest))
  {
    Widths();
    if n < 253 {
      ReadTag(n as byte, rest);
    } else {
      var (tag: byte, k) := if n < U16 then (253, 2) else if n < U32 then (254, 4) else (255, 8);
      assert CompactSize(n) + rest == [tag] + (Le(n, k) + rest);
      ReadTag(tag, Le(n, k) + rest);
      ReadLeRoundTrip(n, k, rest);
    }
  }

  lemma ReadCompactSizeBound(s: Bytes)
    ensures var r := ReadCompactSize(s);
            r.Ok? ==> r.value.0 < U64 && |r.value.1| < |s| && r.value.1 == s[|s| - |r.value.1|..]
  {
    Widths();
    FromLeBound(s, 1);
    if |s| >= 1 {
      FromLeBound(s[1..], 2);
      FromLeBound(s[1..], 4);
      FromLeBound(s[1..], 8);
    }
  }

  lemma FromLeBound(s: Bytes, k: nat)
    ensures ReadLe(s, k).Ok? ==> ReadLe(s, k).value.0 < Pow256(k)
  {
    if k <= |s| { FromLeRoundTrip(s[..k]); }
  }

  // ---------------------------------------------------------------- strings

  /** ser_string. */
  function SerString(s: Bytes): Bytes
    requires |s| < U64
  {
    CompactSize(|s|) + s
  }

  /** deser_string: the count, then as many bytes as the stream still has, up to the count. */
  function ReadString(s: Bytes): Result<(Bytes, Bytes)> {
    var (n, rest) :- ReadCompactSize(s);
    if n <= |rest| then Ok((rest[..n], rest[n..])) else Ok((rest, []))
  }

  lemma StringRoundTrip(b: Bytes, rest: Bytes)
    requires |b| < U64
    ensures ReadString(SerString(b) + rest) == Ok((b, rest))
  {
    assert SerString(b) + rest == CompactSize(|b|) + (b + rest);
    CompactSizeRoundTrip(|b|, b + rest);
    assert (b + rest)[..|b|] == b && (b + rest)[|b|..] == rest;
  }
}
