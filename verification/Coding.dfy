/** Fixed-width, variable-width and length-prefixed encodings. */
module Coding {
  import opened DbFormat

  const WORD32: nat := 0x1_0000_0000
  const WORD64: nat := 0x1_0000_0000_0000_0000

  type Uint32 = n: nat | n < WORD32
  type Uint64 = n: nat | n < WORD64

  // ---- Fixed width --------------------------------------------------------------------------------------------

  // `width` bytes, least significant first.
  function Fixed(n: nat, width: nat): (r: Bytes)
    ensures |r| == width
  {
    if width == 0 then [] else [n % 256] + Fixed(n / 256, width - 1)
  }

  function Unfixed(b: Bytes): nat {
    if b == [] then 0 else b[0] + 256 * Unfixed(b[1..])
  }

  function Pow(base: nat, e: nat): nat {
    if e == 0 then 1 else base * Pow(base, e - 1)
  }

  lemma QuotientFits(n: nat, m: nat)
    requires n < 256 * m
    ensures n / 256 < m
  {
  }

  lemma {:induction false} UnfixedFixed(n: nat, width: nat)
    requires n < Pow(256, width)
    ensures Unfixed(Fixed(n, width)) == n
  {
    if width > 0 {
      QuotientFits(n, Pow(256, width - 1));
      UnfixedFixed(n / 256, width - 1);
      assert Fixed(n, width)[1..] == Fixed(n / 256, width - 1);
    }
  }

  lemma {:induction false} FixedUnfixed(b: Bytes)
    ensures Unfixed(b) < Pow(256, |b|) && Fixed(Unfixed(b), |b|) == b
  {
    if b != [] {
      FixedUnfixed(b[1..]);
      LowByte(b[0], Unfixed(b[1..]));
      assert b == [b[0]] + b[1..];
    }
  }

  lemma LowByte(low: nat, rest: nat)
    requires low < 256
    ensures (low + 256 * rest) % 256 == low && (low + 256 * rest) / 256 == rest
  {
  }

  lemma ByteByByte(v: nat)
    ensures v / 0x100 / 256 == v / 0x1_0000 && v / 0x1_0000 / 256 == v / 0x100_0000
  {
  }

  method EncodeFixed32(v: Uint32) returns (r: Bytes)
    ensures r == Fixed(v, 4)
  {
    r := [v % 256, v / 0x100 % 256, v / 0x1_0000 % 256, v / 0x100_0000 % 256];
    ByteByByte(v);
    assert Fixed(v / 0x100_0000, 1) == [v / 0x100_0000 % 256] + Fixed(v / 0x100_0000 / 256, 0);
    assert Fixed(v / 0x1_0000, 2) == [v / 0x1_0000 % 256] + Fixed(v / 0x100_0000, 1);
    assert Fixed(v / 0x100, 3) == [v / 0x100 % 256] + Fixed(v / 0x1_0000, 2);
    assert Fixed(v, 4) == [v % 256] + Fixed(v / 0x100, 3);
  }

  lemma Pow256()
    ensures Pow(256, 2) == 0x1_0000 && Pow(256, 4) == WORD32 && Pow(256, 8) == WORD64
  {
    assert Pow(256, 2) == 0x1_0000;
    assert Pow(256, 4) == WORD32;
    assert Pow(256, 6) == 0x1_0000_0000_0000;
  }

  // The word stored at position `p`.
  function Word32(s: Bytes, p: nat): Uint32
    requires p + 4 <= |s|
  {
    FixedUnfixed(s[p..p + 4]);
    Pow256();
    Unfixed(s[p..p + 4])
  }

  lemma Word32Stored(before: Bytes, v: Uint32, rest: Bytes)
    ensures Word32(before + Fixed(v, 4) + rest, |before|) == v
  {
    var s := before + Fixed(v, 4) + rest;
    assert s[|before|..|before| + 4] == Fixed(v, 4);
    Pow256();
    UnfixedFixed(v, 4);
  }

  method DecodeFixed32(b: Bytes) returns (v: Uint32)
    requires |b| >= 4
    ensures v == Word32(b, 0)
  {
    var b0: nat, b1: nat, b2: nat, b3: nat := b[0], b[1], b[2], b[3];
    v := b0 + b1 * 0x100 + b2 * 0x1_0000 + b3 * 0x100_0000;
    var c := b[0..4];
    assert c[1..][1..][1..][1..] == [];
    assert Unfixed(c[1..][1..][1..]) == b[3];
    assert Unfixed(c[1..][1..]) == b2 + 256 * b3;
    assert Unfixed(c[1..]) == b1 + 256 * (b2 + 256 * b3);
  }

  lemma Fixed64RoundTrip(v: Uint64, rest: Bytes)
    ensures Unfixed((Fixed(v, 8) + rest)[..8]) == v
  {
    Pow256();
    assert (Fixed(v, 8) + rest)[..8] == Fixed(v, 8);
    UnfixedFixed(v, 8);
  }

  lemma Assoc<T>(a: seq<T>, b: seq<T>, c: seq<T>)
    ensures a + b + c == a + (b + c)
  {
  }

  // An array of words, as it ends blocks of several kinds.
  function Words(ns: seq<nat>): (r: Bytes)
    ensures |r| == 4 * |ns|
  {
    if ns == [] then [] else Words(ns[..|ns| - 1]) + Fixed(ns[|ns| - 1], 4)
  }

  lemma {:induction false} WordAt(before: Bytes, ns: seq<nat>, i: nat, rest: Bytes)
    requires i < |ns| && ns[i] < WORD32
    ensures |before + Words(ns) + rest| >= |before| + 4 * i + 4
    ensures Word32(before + Words(ns) + rest, |before| + 4 * i) == ns[i]
  {
    hide Word32, Fixed;
    var n := |ns| - 1;
    var front, last := Words(ns[..n]), Fixed(ns[n], 4);
    assert before + (front + last) + rest == before + front + last + rest;
    if i == n {
      Word32Stored(before + front, ns[n], rest);
    } else {
      WordAt(before, ns[..n], i, last + rest);
      Assoc(before + front, last, rest);
    }
  }

  // ---- Variable width ---------------------------------------------------------------------------------------------

  // Seven bits to a byte, least significant first; the high bit says that more bytes follow.
  function Varint(v: nat): (r: Bytes)
    ensures r != []
  {
    if v < 128 then [v] else [v % 128 + 128] + Varint(v / 128)
  }

  // The first varint of `s`, of at most `room` bytes, with its length.
  function Unvarint(s: Bytes, room: nat): (r: Option<(nat, nat)>)
    ensures r.Some? ==> 0 < r.value.1 <= |s| && r.value.1 <= room
  {
    if room == 0 || s == [] then None
    else if s[0] < 128 then Some((s[0], 1))
    else
      var rest := Unvarint(s[1..], room - 1);
      if rest.None? then None else Some((s[0] - 128 + 128 * rest.value.0, rest.value.1 + 1))
  }

  lemma {:induction false} UnvarintVarint(v: nat, room: nat, rest: Bytes)
    requires |Varint(v)| <= room
    ensures Unvarint(Varint(v) + rest, room) == Some((v, |Varint(v)|))
  {
    if v >= 128 {
      UnvarintVarint(v / 128, room - 1, rest);
      var s := Varint(v) + rest;
      assert s == [v % 128 + 128] + (Varint(v / 128) + rest);
      assert s[1..] == Varint(v / 128) + rest;
    }
  }

  // The first `n` bytes are a varint: each but the last says that more bytes follow.
  predicate IsVarint(s: Bytes, n: nat) {
    0 < n <= |s| && s[n - 1] < 128 && forall i :: 0 <= i < n - 1 ==> s[i] >= 128
  }

  // The low seven bits of each byte, least significant first.
  function Base128(s: Bytes): nat {
    if s == [] then 0 else s[0] % 128 + 128 * Base128(s[1..])
  }

  lemma IsVarintNext(s: Bytes, n: nat)
    requires n > 0
    ensures IsVarint(s, n + 1) <==> |s| > 0 && s[0] >= 128 && IsVarint(s[1..], n)
  {
    if |s| > 0 && IsVarint(s[1..], n) && s[0] >= 128 {
      forall i | 0 <= i < n ensures s[i] >= 128 {
        assert i > 0 ==> s[i] == s[1..][i - 1];
      }
    }
    if IsVarint(s, n + 1) {
      forall i | 0 <= i < n - 1 ensures s[1..][i] >= 128 {
      }
    }
  }

  // On any bytes: there is a varint within the room, and it is the one read; or there is none.
  lemma {:induction false} UnvarintExact(s: Bytes, room: nat)
    ensures Unvarint(s, room).None? ==> forall n :: 0 < n <= room ==> !IsVarint(s, n)
    ensures Unvarint(s, room).Some? ==>
      var (v, n) := Unvarint(s, room).value; IsVarint(s, n) && v == Base128(s[..n])
    decreases room
  {
    if room > 0 && s != [] && s[0] >= 128 {
      UnvarintExact(s[1..], room - 1);
      forall n: nat | 0 < n < room ensures IsVarint(s, n + 1) <==> IsVarint(s[1..], n) {
        IsVarintNext(s, n);
      }
      if Unvarint(s, room).Some? {
        var n := Unvarint(s, room).value.1;
        IsVarintNext(s, n - 1);
        assert s[..n][1..] == s[1..][..n - 1];
      } else {
        forall n | 0 < n <= room ensures !IsVarint(s, n) {
          assert n > 1 ==> (IsVarint(s, n - 1 + 1) <==> IsVarint(s[1..], n - 1));
        }
      }
    } else if room > 0 && s != [] {
      assert s[..1][1..] == [] && s[..1][0] == s[0];
    }
  }

  lemma VarintIsUnique(s: Bytes, m: nat, n: nat)
    requires IsVarint(s, m) && IsVarint(s, n)
    ensures m == n
  {
  }

  lemma {:induction false} VarintSize(v: nat, k: nat)
    requires v < Pow(128, k) && k > 0
    ensures |Varint(v)| <= k
  {
    if v >= 128 {
      assert Pow(128, 0) == 1;
      assert v / 128 < Pow(128, k - 1);
      VarintSize(v / 128, k - 1);
    }
  }

  lemma Varint32Size(v: Uint32)
    ensures |Varint(v)| <= 5
  {
    assert Pow(128, 5) > WORD32 by {
      assert Pow(128, 3) == 0x20_0000;
    }
    VarintSize(v, 5);
  }

  lemma Varint64Size(v: Uint64)
    ensures |Varint(v)| <= 10
  {
    assert Pow(128, 10) > WORD64 by {
      assert Pow(128, 3) == 0x20_0000;
      assert Pow(128, 6) == 0x400_0000_0000;
      assert Pow(128, 8) == 0x100_0000_0000_0000;
    }
    VarintSize(v, 10);
  }

  method EncodeVarint32(v: Uint32) returns (r: Bytes)
    ensures r == Varint(v)
  {
    if v < 0x80 {
      r := [v];
    } else if v < 0x4000 {
      r := [v % 128 + 128, v / 0x80];
    } else if v < 0x20_0000 {
      r := [v % 128 + 128, v / 0x80 % 128 + 128, v / 0x4000];
    } else if v < 0x1000_0000 {
      r := [v % 128 + 128, v / 0x80 % 128 + 128, v / 0x4000 % 128 + 128, v / 0x20_0000];
    } else {
      r := [v % 128 + 128, v / 0x80 % 128 + 128, v / 0x4000 % 128 + 128, v / 0x20_0000 % 128 + 128, v / 0x1000_0000];
    }
    VarintSteps(v);
  }

  lemma VarintSteps(v: Uint32)
    ensures v >= 0x80 ==> Varint(v) == [v % 128 + 128] + Varint(v / 0x80)
    ensures v >= 0x4000 ==> Varint(v / 0x80) == [v / 0x80 % 128 + 128] + Varint(v / 0x4000)
    ensures v >= 0x20_0000 ==> Varint(v / 0x4000) == [v / 0x4000 % 128 + 128] + Varint(v / 0x20_0000)
    ensures v >= 0x1000_0000 ==> Varint(v / 0x20_0000) == [v / 0x20_0000 % 128 + 128] + Varint(v / 0x1000_0000)
  {
    assert v / 0x80 / 128 == v / 0x4000 && v / 0x4000 / 128 == v / 0x20_0000 && v / 0x20_0000 / 128 == v / 0x1000_0000;
  }

  method EncodeVarint64(v0: Uint64) returns (r: Bytes)
    ensures r == Varint(v0)
  {
    var v := v0;
    r := [];
    while v >= 128
      invariant Varint(v0) == r + Varint(v)
    {
      r := r + [v % 128 + 128];
      v := v / 128;
    }
    r := r + [v];
  }

  // What a decoder of `room` bytes into a word of size `word` returns: a value cut to the word, and the length.
  function Cut(r: Option<(nat, nat)>, word: nat): Option<(nat, nat)>
    requires word > 0
  {
    if r.None? then None else Some((r.value.0 % word, r.value.1))
  }

  function Resume(result: nat, scale: nat, i: nat, rest: Option<(nat, nat)>): Option<(nat, nat)> {
    if rest.None? then None else Some((result + Times(scale, rest.value.0), rest.value.1 + i))
  }

  lemma ResumeStep(s: Bytes, i: nat, room: nat, result: nat, scale: nat)
    requires i < room && i < |s| && s[i] >= 128
    ensures Resume(result, scale, i, Unvarint(s[i..], room - i))
         == Resume(result + Times(scale, s[i] - 128), scale * 128, i + 1, Unvarint(s[i + 1..], room - i - 1))
  {
    assert s[i..][1..] == s[i + 1..];
    var rest := Unvarint(s[i + 1..], room - i - 1);
    if rest.Some? {
      Distribute(scale, s[i] - 128, rest.value.0);
    }
  }

  lemma Distribute(scale: nat, a: nat, b: nat)
    ensures scale * (a + 128 * b) == scale * a + scale * 128 * b
  {
  }

  // Decoding into 32 or 64 bits: higher bits are shifted out.
  method DecodeVarint(s: Bytes, room: nat, word: nat) returns (r: Option<(nat, nat)>)
    requires word == WORD32 || word == WORD64
    ensures r == Cut(Unvarint(s, room), word)
  {
    ghost var whole: nat := 0;
    var result: nat, scale: nat, i: nat := 0, 1, 0;
    while i < room && i < |s|
      invariant i <= room && i <= |s| && result == whole % word
      invariant Unvarint(s, room) == Resume(whole, scale, i, Unvarint(s[i..], room - i))
    {
      var byte := s[i];
      var part: nat := Times(scale, if byte >= 128 then byte - 128 else byte);
      CutSum(whole, part, word);
      result := (result + part) % word;
      if byte >= 128 {
        ResumeStep(s, i, room, whole, scale);
        whole := whole + part;
        scale := scale * 128;
      } else {
        return Some((result, i + 1));
      }
      i := i + 1;
    }
    r := None;
  }

  function Times(a: nat, b: nat): nat {
    a * b
  }

  lemma CutSum(a: nat, b: nat, word: nat)
    requires word == WORD32 || word == WORD64
    ensures (a % word + b) % word == (a + b) % word
  {
    if word == WORD32 {
      assert (a % WORD32 + b) % WORD32 == (a + b) % WORD32;
    } else {
      assert (a % WORD64 + b) % WORD64 == (a + b) % WORD64;
    }
  }

  // What decoding an encoded value gives, with anything behind it.
  lemma Varint32RoundTrip(v: Uint32, rest: Bytes)
    ensures Cut(Unvarint(Varint(v) + rest, 5), WORD32) == Some((v, |Varint(v)|))
  {
    Varint32Size(v);
    UnvarintVarint(v, 5, rest);
  }

  lemma Varint64RoundTrip(v: Uint64, rest: Bytes)
    ensures Cut(Unvarint(Varint(v) + rest, 10), WORD64) == Some((v, |Varint(v)|))
  {
    Varint64Size(v);
    UnvarintVarint(v, 10, rest);
  }

  // ---- Consuming an input ---------------------------------------------------------------------------------------------

  // The first varint, and what follows it.
  function Get(s: Bytes, room: nat, word: nat): (r: Option<(nat, Bytes)>)
    requires word > 0
    ensures r.Some? ==> r.value.0 < word && |r.value.1| < |s|
  {
    var r := Cut(Unvarint(s, room), word);
    if r.None? then None else Some((r.value.0, s[r.value.1..]))
  }

  function Get32(s: Bytes): (r: Option<(Uint32, Bytes)>)
    ensures r.Some? ==> |r.value.1| < |s|
  {
    Get(s, 5, WORD32)
  }

  function Get64(s: Bytes): (r: Option<(Uint64, Bytes)>)
    ensures r.Some? ==> |r.value.1| < |s|
  {
    Get(s, 10, WORD64)
  }

  lemma DropFront<T>(a: seq<T>, b: seq<T>)
    ensures (a + b)[|a|..] == b
  {
  }

  lemma Get32Back(v: Uint32, rest: Bytes)
    ensures Get32(Varint(v) + rest) == Some((v, rest))
  {
    Varint32RoundTrip(v, rest);
    DropFront(Varint(v), rest);
  }

  lemma Get64Back(v: Uint64, rest: Bytes)
    ensures Get64(Varint(v) + rest) == Some((v, rest))
  {
    Varint64RoundTrip(v, rest);
    DropFront(Varint(v), rest);
  }

  method GetVarint(s: Bytes, room: nat, word: nat) returns (r: Option<(nat, Bytes)>)
    requires word == WORD32 || word == WORD64
    ensures r == Get(s, room, word)
  {
    var d := DecodeVarint(s, room, word);
    r := if d.None? then None else Some((d.value.0, s[d.value.1..]));
  }

  // ---- Length prefix -------------------------------------------------------------------------------------------------

  function Prefixed(s: Bytes): Bytes
    requires |s| < WORD32
  {
    Varint(|s|) + s
  }

  // The first length-prefixed slice of `s`, and what follows it.
  function Unprefixed(s: Bytes): (r: Option<(Bytes, Bytes)>)
    ensures r.Some? ==> |r.value.1| < |s|
  {
    var len := Cut(Unvarint(s, 5), WORD32);
    if len.None? || len.value.0 > |s| - len.value.1 then None
    else Some((s[len.value.1..][..len.value.0], s[len.value.1..][len.value.0..]))
  }

  lemma UnprefixedPrefixed(s: Bytes, rest: Bytes)
    requires |s| < WORD32
    ensures Unprefixed(Prefixed(s) + rest) == Some((s, rest))
  {
    assert Prefixed(s) + rest == Varint(|s|) + (s + rest);
    Varint32RoundTrip(|s|, s + rest);
    DropFront(Varint(|s|), s + rest);
    DropFront(s, rest);
  }

  // `s` begins with a varint of at most five bytes, whose low 32 bits are the length of `data`, and then `data`.
  ghost predicate IsPrefixed(s: Bytes, data: Bytes, rest: Bytes) {
    exists n :: 0 < n <= 5 && IsVarint(s, n) && Base128(s[..n]) % WORD32 == |data| && s[n..] == data + rest
  }

  // On any bytes.
  lemma UnprefixedExact(s: Bytes, data: Bytes, rest: Bytes)
    ensures Unprefixed(s) == Some((data, rest)) <==> IsPrefixed(s, data, rest)
  {
    UnvarintExact(s, 5);
    var r := Unvarint(s, 5);
    if r.Some? {
      var n := r.value.1;
      if IsPrefixed(s, data, rest) {
        var m :| 0 < m <= 5 && IsVarint(s, m) && Base128(s[..m]) % WORD32 == |data| && s[m..] == data + rest;
        VarintIsUnique(s, m, n);
        assert (data + rest)[..|data|] == data;
        DropFront(data, rest);
      }
      if Unprefixed(s) == Some((data, rest)) {
        assert s[n..] == data + rest;
      }
    }
  }

  method PutLengthPrefixedSlice(s: Bytes) returns (r: Bytes)
    requires |s| < WORD32
    ensures r == Prefixed(s)
  {
    var size := EncodeVarint32(|s|);
    r := size + s;
  }

  method GetLengthPrefixedSlice(s: Bytes) returns (r: Option<(Bytes, Bytes)>)
    ensures r == Unprefixed(s)
  {
    var len := GetVarint(s, 5, WORD32);
    if len.None? || len.value.0 > |len.value.1| {
      return None;
    }
    var rest := len.value.1;
    r := Some((rest[..len.value.0], rest[len.value.0..]));
  }
}
