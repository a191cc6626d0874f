/** Base 58 text, with and without a checksum. */
module Base58 {
  import opened Python
  import opened Sequences
  import opened Strings
  import opened Bits

  /** Digits and letters without zero, capital I and O, and small l. */
  const B58_DIGITS: string := "123456789" + "ABCDEFGH" + "JKLMN" + "PQRSTUVWXYZ" + "abcdefghijk" + "mnopqrstuvwxyz"

  // ------------------------------------------------------------ positional numerals

  /** The number that digits stand for, most significant first. */
  function Value(ds: seq<nat>, base: nat): nat {
    if ds == [] then 0 else base * Value(ds[..|ds| - 1], base) + ds[|ds| - 1]
  }

  /** The digits of a number, without leading zeros. */
  function Digits(n: nat, base: nat): (ds: seq<nat>)
    requires base >= 2
    ensures forall i :: 0 <= i < |ds| ==> ds[i] < base
    ensures ds != [] ==> ds[0] != 0
    ensures ds == [] <==> n == 0
  {
    if n == 0 then []
    else
      Smaller(n, base);
      Digits(n / base, base) + [n % base]
  }

  lemma Smaller(n: nat, base: nat)
    requires base >= 2 && n >= 1
    ensures n / base < n && n == base * (n / base) + n % base
  {}

  predicate AreDigits(ds: seq<nat>, base: nat) {
    forall i :: 0 <= i < |ds| ==> ds[i] < base
  }

  lemma {:induction false} ValueDigits(n: nat, base: nat)
    requires base >= 2
    ensures Value(Digits(n, base), base) == n
  {
    if n > 0 {
      Smaller(n, base);
      ValueDigits(n / base, base);
      assert Digits(n, base)[..|Digits(n, base)| - 1] == Digits(n / base, base);
    }
  }

  lemma {:induction false} DigitsValue(ds: seq<nat>, base: nat)
    requires base >= 2 && AreDigits(ds, base) && (ds != [] ==> ds[0] != 0)
    ensures Digits(Value(ds, base), base) == ds
    decreases |ds|
  {
    if ds != [] {
      var init, last := ds[..|ds| - 1], ds[|ds| - 1];
      DigitsValue(init, base);
      ModUnique(Value(ds, base), base, Value(init, base), last);
      if init == [] {
        assert Value(init, base) == 0;
        assert ds == [last];
      } else {
        assert ds == init + [last];
        Positive(Value(init, base), base);
      }
    }
  }

  lemma Positive(v: nat, base: nat)
    requires v >= 1 && base >= 2
    ensures base * v >= 1
  {}

  lemma {:induction false} ValueLeading(k: nat, ds: seq<nat>, base: nat)
    ensures Value(Nils(k) + ds, base) == Value(ds, base)
    decreases |ds|, k
  {
    if ds != [] {
      assert (Nils(k) + ds)[..|Nils(k) + ds| - 1] == Nils(k) + ds[..|ds| - 1];
      ValueLeading(k, ds[..|ds| - 1], base);
    } else if k > 0 {
      assert Nils(k) + ds == Nils(k - 1) + [0];
      assert (Nils(k - 1) + [0])[..k - 1] == Nils(k - 1) + [];
      ValueLeading(k - 1, [], base);
    }
  }

  function Nils(k: nat): (r: seq<nat>)
    ensures |r| == k && forall i :: 0 <= i < k ==> r[i] == 0
  {
    if k == 0 then [] else Nils(k - 1) + [0]
  }

  // ------------------------------------------------------------ leading zeros

  /** How many elements at the front are `z`. */
  function Leading<T(==)>(s: seq<T>, z: T): (k: nat)
    ensures k <= |s| && (forall i :: 0 <= i < k ==> s[i] == z) && (k < |s| ==> s[k] != z)
  {
    if s == [] || s[0] != z then 0 else 1 + Leading(s[1..], z)
  }

  lemma LeadingUnique<T>(s: seq<T>, z: T, k: nat)
    requires k <= |s| && (forall i :: 0 <= i < k ==> s[i] == z) && (k < |s| ==> s[k] != z)
    ensures Leading(s, z) == k
  {}

  function Repeat<T>(z: T, k: nat): (r: seq<T>)
    ensures |r| == k && forall i :: 0 <= i < k ==> r[i] == z
  {
    if k == 0 then [] else [z] + Repeat(z, k - 1)
  }

  lemma LeadingSplit<T>(s: seq<T>, z: T)
    ensures s == Repeat(z, Leading(s, z)) + s[Leading(s, z)..]
  {}

  // ------------------------------------------------------------ bytes and text

  function Text(ds: seq<nat>): (s: string)
    requires AreDigits(ds, 58)
    ensures |s| == |ds| && forall i :: 0 <= i < |ds| ==> s[i] == B58_DIGITS[ds[i]]
  {
    if ds == [] then [] else [B58_DIGITS[ds[0]]] + Text(ds[1..])
  }

  /** The values of base 58 characters; another character is a BadArgumentError. */
  function Indices(s: string): (r: Result<seq<nat>>)
    ensures r.Ok? ==> |r.value| == |s| && AreDigits(r.value, 58)
    ensures r.Ok? ==> forall i :: 0 <= i < |s| ==> B58_DIGITS[r.value[i]] == s[i]
    ensures r.Err? ==> r.error == BadArgumentError
  {
    if s == [] then Ok([])
    else
      match Find(B58_DIGITS, s[0])
      case None => Err(BadArgumentError)
      case Some(d) =>
        var more :- Indices(s[1..]);
        Ok([d] + more)
  }

  /** encode: the number in base 58, behind a 1 for each leading zero byte. */
  function Encode(b: Bytes): string {
    Repeat('1', Leading(b, 0)) + Text(Digits(Value(Nats(b), 256), 58))
  }

  /** The bytes of a number through its hexadecimal text: at least one. */
  function NumberBytes(n: nat): Bytes {
    if n == 0 then [0] else ToBytes(Digits(n, 256))
  }

  /** decode: a zero byte for each leading 1, the last character excepted, and the number. */
  function Decode(s: string): Result<Bytes> {
    if s == [] then Ok([])
    else
      var ds :- Indices(s);
      Ok(Repeat(0 as byte, Leading(s[..|s| - 1], '1')) + NumberBytes(Value(ds, 58)))
  }

  // ------------------------------------------------------------ round trips

  /** The character of a digit, by ranges. */
  function DigitCode(i: nat): int {
    if i < 9 then '1' as int + i
    else if i < 17 then 'A' as int + (i - 9)
    else if i < 22 then 'J' as int + (i - 17)
    else if i < 33 then 'P' as int + (i - 22)
    else if i < 44 then 'a' as int + (i - 33)
    else 'm' as int + (i - 44)
  }

  lemma AlphabetRanges(i: nat)
    requires i < 58
    ensures |B58_DIGITS| == 58 && B58_DIGITS[i] as int == DigitCode(i)
  {
    if i < 9 {
      assert B58_DIGITS[i] == "123456789"[i];
    } else if i < 17 {
      assert B58_DIGITS[i] == "ABCDEFGH"[i - 9];
    } else if i < 22 {
      assert B58_DIGITS[i] == "JKLMN"[i - 17];
    } else if i < 33 {
      assert B58_DIGITS[i] == "PQRSTUVWXYZ"[i - 22];
    } else if i < 44 {
      assert B58_DIGITS[i] == "abcdefghijk"[i - 33];
    } else {
      assert B58_DIGITS[i] == "mnopqrstuvwxyz"[i - 44];
    }
  }

  lemma DigitsInjective(i: nat, j: nat)
    requires i < 58 && j < 58 && B58_DIGITS[i] == B58_DIGITS[j]
    ensures i == j
  {
    AlphabetRanges(i);
    AlphabetRanges(j);
  }

  lemma IndicesCons(s: string, d: nat, more: seq<nat>)
    requires s != [] && Find(B58_DIGITS, s[0]) == Some(d) && Indices(s[1..]) == Ok(more)
    ensures Indices(s) == Ok([d] + more)
  {}

  lemma DigitFound(d: nat)
    requires d < 58
    ensures Find(B58_DIGITS, B58_DIGITS[d]) == Some(d)
  {
    assert B58_DIGITS[d] in B58_DIGITS;
    DigitsInjective(Find(B58_DIGITS, B58_DIGITS[d]).value, d);
  }

  lemma {:induction false} IndicesOfText(ds: seq<nat>)
    requires AreDigits(ds, 58)
    ensures Indices(Text(ds)) == Ok(ds)
  {
    hide Find, Indices;
    if ds == [] {
      NoIndices();
    } else {
      IndicesOfText(ds[1..]);
      DigitFound(ds[0]);
      TextCons(ds);
      IndicesCons(Text(ds), ds[0], ds[1..]);
      assert ds == [ds[0]] + ds[1..];
    }
  }

  lemma NoIndices()
    ensures Indices(Text([])) == Ok([])
  {}

  lemma TextCons(ds: seq<nat>)
    requires AreDigits(ds, 58) && ds != []
    ensures Text(ds) != [] && Text(ds)[0] == B58_DIGITS[ds[0]] && Text(ds)[1..] == Text(ds[1..])
  {}

  lemma DigitOne(d: nat)
    requires d < 58
    ensures B58_DIGITS[d] == '1' <==> d == 0
  {
    AlphabetRanges(d);
  }

  lemma OneIsZero(ds: seq<nat>, i: nat)
    requires AreDigits(ds, 58) && i < |ds|
    ensures Text(ds)[i] == '1' <==> ds[i] == 0
  {
    hide Text;
    DigitOne(ds[i]);
  }

  lemma TextLeading(k: nat, ds: seq<nat>)
    requires AreDigits(ds, 58)
    ensures AreDigits(Nils(k) + ds, 58) && Text(Nils(k) + ds) == Repeat('1', k) + Text(ds)
  {
    hide B58_DIGITS;
    var all := Nils(k) + ds;
    forall i | 0 <= i < |all| ensures Text(all)[i] == (Repeat('1', k) + Text(ds))[i] {
      if i < k {
        OneIsZero(all, i);
      } else {
        assert all[i] == ds[i - k];
      }
    }
  }

  lemma NatsLeading(k: nat, t: Bytes)
    ensures Nats(Repeat(0 as byte, k) + t) == Nils(k) + Nats(t)
  {}

  lemma BytesOfNats(t: Bytes)
    ensures AreDigits(Nats(t), 256) && ToBytes(Nats(t)) == t
  {}

  lemma NatsOfBytes(ds: seq<nat>)
    requires AreDigits(ds, 256)
    ensures Nats(ToBytes(ds)) == ds
  {}

  /** The shape of encoded text: a 1 for each zero byte, then digits that do not start with zero. */
  lemma EncodeShape(k: nat, t: Bytes)
    requires t != [] ==> t[0] != 0
    ensures var n := Value(Nats(t), 256);
            Encode(Repeat(0 as byte, k) + t) == Text(Nils(k) + Digits(n, 58)) && (n == 0 <==> t == [])
            && Digits(n, 256) == Nats(t)
  {
    hide Digits, Value;
    var b := Repeat(0 as byte, k) + t;
    LeadingUnique(b, 0, k);
    NatsLeading(k, t);
    ValueLeading(k, Nats(t), 256);
    BytesOfNats(t);
    DigitsValue(Nats(t), 256);
    TextLeading(k, Digits(Value(Nats(t), 256), 58));
  }

  /** The ones counted by the code: all leading ones, but never the last character. */
  lemma OnesCounted(k: nat, ds: seq<nat>)
    requires AreDigits(ds, 58) && AreDigits(Nils(k) + ds, 58) && (ds != [] ==> ds[0] != 0) && k + |ds| > 0
    ensures var s := Text(Nils(k) + ds);
            Leading(s[..|s| - 1], '1') == if ds == [] then k - 1 else k
  {
    hide B58_DIGITS;
    var all := Nils(k) + ds;
    var s := Text(all);
    var front := s[..|s| - 1];
    var pad := if ds == [] then k - 1 else k;
    forall i | 0 <= i < pad ensures front[i] == '1' { OneIsZero(all, i); }
    if pad < |front| { OneIsZero(all, pad); }
    LeadingUnique(front, '1', pad);
  }

  /** The shape of decoded text. */
  lemma DecodeShape(k: nat, ds: seq<nat>)
    requires AreDigits(ds, 58) && (ds != [] ==> ds[0] != 0)
    ensures var n := Value(ds, 58);
            Decode(Text(Nils(k) + ds)) == Ok(Repeat(0 as byte, k) + ToBytes(Digits(n, 256)))
            && Digits(n, 58) == ds && (n == 0 <==> ds == [])
  {
    hide Digits, Value, Indices, Text, Decode;
    var all := Nils(k) + ds;
    IndicesOfText(all);
    ValueLeading(k, ds, 58);
    DigitsValue(ds, 58);
    if all != [] {
      OnesCounted(k, ds);
      var pad := if ds == [] then k - 1 else k;
      DecodeIs(Text(all), all, pad);
      if ds == [] {
        assert Repeat(0 as byte, k - 1) + [0] == Repeat(0 as byte, k) + [];
      }
    } else {
      DecodeNothing(Text(all));
    }
  }

  lemma DecodeIs(s: string, ds: seq<nat>, pad: nat)
    requires s != [] && Indices(s) == Ok(ds) && Leading(s[..|s| - 1], '1') == pad
    ensures Decode(s) == Ok(Repeat(0 as byte, pad) + NumberBytes(Value(ds, 58)))
  {}

  lemma DecodeNothing(s: string)
    requires s == []
    ensures Decode(s) == Ok(Repeat(0 as byte, 0) + [])
  {
    assert Repeat(0 as byte, 0) + [] == [];
  }

  /** Decoding undoes encoding for every byte string, leading zeros included. */
  lemma DecodeEncode(b: Bytes)
    ensures Decode(Encode(b)) == Ok(b)
  {
    hide Decode, Encode, Digits, Value, Text;
    var k := Leading(b, 0);
    var t := b[k..];
    LeadingSplit(b, 0);
    EncodeShape(k, t);
    DecodeShape(k, Digits(Value(Nats(t), 256), 58));
    ValueDigits(Value(Nats(t), 256), 58);
    BytesOfNats(t);
  }

  /** Encoding undoes decoding for every text over the alphabet: no two texts decode alike. */
  lemma EncodeDecode(s: string)
    requires Decode(s).Ok?
    ensures Encode(Decode(s).value) == s
  {
    hide Decode, Encode, Digits, Value;
    var all := DecodedDigits(s);
    var k := Leading(all, 0);
    var ds := all[k..];
    LeadingSplit(all, 0);
    assert all == Nils(k) + ds;
    DecodeShape(k, ds);
    var n := Value(ds, 58);
    NatsOfBytes(Digits(n, 256));
    ValueDigits(n, 256);
    EncodeShape(k, ToBytes(Digits(n, 256)));
  }

  lemma DecodedDigits(s: string) returns (ds: seq<nat>)
    requires Decode(s).Ok?
    ensures AreDigits(ds, 58) && Text(ds) == s
  {
    ds := if s == [] then [] else Indices(s).value;
  }

  // ------------------------------------------------------------ checksums

  function EncodeCheck(b: Bytes, hash256: Hash): string {
    Encode(b + hash256(b)[..4])
  }

  function DecodeCheck(s: string, hash256: Hash): Result<Bytes> {
    var data :- Decode(s);
    var cut := if |data| < 4 then 0 else |data| - 4;
    if data[cut..] != hash256(data[..cut])[..4] then Err(ValueError) else Ok(data[..cut])
  }

  /** A text passes the check with a payload exactly if it is the checked encoding of that payload. */
  lemma CheckRoundTrip(s: string, b: Bytes, hash256: Hash)
    ensures DecodeCheck(s, hash256) == Ok(b) <==> s == EncodeCheck(b, hash256)
  {
    hide Decode, Encode;
    var data := b + hash256(b)[..4];
    DecodeEncode(data);
    assert data[..|b|] == b && data[|b|..] == hash256(b)[..4];
    if DecodeCheck(s, hash256) == Ok(b) {
      EncodeDecode(s);
      var got := Decode(s).value;
      var cut := if |got| < 4 then 0 else |got| - 4;
      assert got == got[..cut] + got[cut..];
    }
  }

  /** What a checked text says: the payload, then the first four bytes of its hash. */
  lemma CheckedBytes(b: Bytes, hash256: Hash)
    ensures Decode(EncodeCheck(b, hash256)) == Ok(b + hash256(b)[..4])
  {
    DecodeEncode(b + hash256(b)[..4]);
  }

  /**
   * What a text says: as many ones as there are zero bytes, then without a leading one the same number in base 58,
   * its digits taken from the alphabet in the order of digits, capitals and small letters.
   */
  lemma EncodeMeans(b: Bytes) returns (zeros: nat, ds: seq<nat>)
    ensures zeros <= |b| && (forall i :: 0 <= i < zeros ==> b[i] == 0) && (zeros < |b| ==> b[zeros] != 0)
    ensures |Encode(b)| == zeros + |ds| && forall i :: 0 <= i < zeros ==> Encode(b)[i] == '1'
    ensures AreDigits(ds, 58) && (ds != [] ==> ds[0] != 0) && Value(ds, 58) == Value(Nats(b), 256)
    ensures forall i :: 0 <= i < |ds| ==> Encode(b)[zeros + i] as int == DigitCode(ds[i])
  {
    hide Value, Digits, Text;
    zeros, ds := Leading(b, 0), Digits(Value(Nats(b), 256), 58);
    ValueDigits(Value(Nats(b), 256), 58);
    forall i | 0 <= i < |ds| ensures Encode(b)[zeros + i] as int == DigitCode(ds[i]) {
      AlphabetRanges(ds[i]);
    }
  }

  // ------------------------------------------------------------ the loops

  method EncodeBytes(b: Bytes) returns (res: string)
    ensures res == Encode(b)
  {
    hide B58_DIGITS;
    var n := Value(Nats(b), 256);
    var temp: seq<char> := [];
    ghost var done: seq<nat> := [];
    ghost var all := Digits(n, 58);
    assert all + [] == all;
    while n > 0
      invariant AreDigits(done, 58) && Digits(n, 58) + done == all
      invariant temp == Reversed(Text(done))
    {
      Smaller(n, 58);
      AlphabetRanges(n % 58);
      ghost var before := done;
      done := [n % 58] + done;
      assert Digits(n, 58) + before == Digits(n / 58, 58) + done;
      ReversedCons(B58_DIGITS[n % 58], Text(before));
      assert Text(done)[1..] == Text(before) by { assert done[1..] == before; }
      temp := temp + [B58_DIGITS[n % 58]];
      n := n / 58;
    }
    assert [] + done == done;
    ReversedTwice(Text(done));
    res := Reversed(temp);
    var pad := CountLeading(b, 0);
    res := Repeat('1', pad) + res;
  }

  /** s[::-1] */
  function Reversed<T>(s: seq<T>): (r: seq<T>)
    ensures |r| == |s| && forall i :: 0 <= i < |s| ==> r[i] == s[|s| - 1 - i]
  {
    if s == [] then [] else Reversed(s[1..]) + [s[0]]
  }

  lemma ReversedCons<T>(x: T, s: seq<T>)
    ensures Reversed([x] + s) == Reversed(s) + [x]
  {
    assert ([x] + s)[1..] == s;
  }

  lemma ReversedTwice<T>(s: seq<T>)
    ensures Reversed(Reversed(s)) == s
  {}

  /** The loop that counts leading zeros or ones. */
  method CountLeading<T(==)>(s: seq<T>, z: T) returns (pad: nat)
    ensures pad == Leading(s, z)
  {
    pad := 0;
    for i := 0 to |s|
      invariant pad == i && forall j :: 0 <= j < i ==> s[j] == z
    {
      if s[i] == z {
        pad := pad + 1;
      } else {
        LeadingUnique(s, z, pad);
        return;
      }
    }
    LeadingUnique(s, z, pad);
  }

  method DecodeText(s: string) returns (r: Result<Bytes>)
    ensures r == Decode(s)
  {
    hide B58_DIGITS;
    if s == [] {
      return Ok([]);
    }
    var n: nat := 0;
    ghost var ds: seq<nat> := [];
    FollowingOne([], 0, Indices(s));
    assert s[0..] == s;
    for i := 0 to |s|
      invariant Indices(s) == Following(ds, Indices(s[i..]))
      invariant n == Value(ds, 58)
    {
      ghost var rest := s[i..];
      assert rest[0] == s[i] && rest[1..] == s[i + 1..];
      n := n * 58;
      var digit := Find(B58_DIGITS, s[i]);
      if digit == None {
        return Err(BadArgumentError);
      }
      FollowingOne(ds, digit.value, Indices(s[i + 1..]));
      assert (ds + [digit.value])[..|ds|] == ds;
      n := n + digit.value;
      ds := ds + [digit.value];
    }
    assert s[|s|..] == [] && ds + [] == ds;
    var res := NumberBytes(n);
    var pad := CountLeading(s[..|s| - 1], '1');
    return Ok(Repeat(0 as byte, pad) + res);
  }

  function Following(before: seq<nat>, r: Result<seq<nat>>): Result<seq<nat>> {
    var more :- r;
    Ok(before + more)
  }

  lemma FollowingOne(before: seq<nat>, d: nat, r: Result<seq<nat>>)
    ensures Following(before, Following([d], r)) == Following(before + [d], r)
    ensures Following([], r) == r
  {
    if r.Ok? {
      assert before + ([d] + r.value) == before + [d] + r.value;
      assert [] + r.value == r.value;
    }
  }
}
