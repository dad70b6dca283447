/** Reading back what was written, for the values that are not messages. */
module ProtoScalars {
  import opened DbFormat
  import opened Coding
  import opened ProtoTypes

  lemma TailOfVarint(v: nat, rest: Bytes)
    requires v >= 128
    ensures (Varint(v) + rest)[0] == v % 128 + 128 && (Varint(v) + rest)[1..] == Varint(v / 128) + rest
  {
    var s := Varint(v) + rest;
    assert s == [v % 128 + 128] + (Varint(v / 128) + rest);
  }

  lemma Digits(w: nat, scale: nat)
    ensures Times(w % 128, scale) + Times(w / 128, 128 * scale) == Times(w, scale)
  {
    calc {
      Times(w % 128, scale) + Times(w / 128, 128 * scale);
      w % 128 * scale + w / 128 * (128 * scale);
      { MulAssoc(w / 128, 128, scale); }
      w % 128 * scale + w / 128 * 128 * scale;
      { AddMul(w % 128, w / 128 * 128, scale); }
      (w % 128 + w / 128 * 128) * scale;
      w * scale;
    }
  }

  lemma MulAssoc(a: nat, b: nat, c: nat)
    ensures a * (b * c) == a * b * c
  {
  }

  lemma AddMul(a: nat, b: nat, c: nat)
    ensures a * c + b * c == (a + b) * c
  {
  }

  lemma TimesMonotone(a: nat, b: nat, scale: nat)
    requires a <= b
    ensures Times(a, scale) <= Times(b, scale)
  {
    AddMul(a, b - a, scale);
  }

  lemma PowValues()
    ensures Pow(128, 1) == 0x80 && Pow(128, 2) == 0x4000 && Pow(128, 3) == 0x20_0000
    ensures Pow(128, 4) == 0x1000_0000 && Pow(128, 5) > WORD32
  {
    assert Pow(128, 1) == 0x80;
    assert Pow(128, 2) == 0x4000;
    assert Pow(128, 3) == 0x20_0000;
    assert Pow(128, 4) == 0x1000_0000;
  }

  lemma {:induction false} PowGrows(j: nat, k: nat)
    requires j <= k
    ensures Pow(128, j) <= Pow(128, k)
  {
    if j < k {
      PowGrows(j, k - 1);
    }
  }

  lemma TenthPower()
    ensures Pow(128, 10) > WORD64
  {
    assert Pow(128, 3) == 0x20_0000;
    assert Pow(128, 6) == 0x400_0000_0000;
    assert Pow(128, 8) == 0x100_0000_0000_0000;
  }

  lemma Pow64Limit(k: nat)
    requires Pow(128, k) < WORD64
    ensures k < 10
  {
    if k >= 10 {
      PowGrows(10, k);
      TenthPower();
    }
  }

  lemma OneByte(w: nat, rest: Bytes)
    requires w < 128
    ensures Varint(w) + rest != [] && (Varint(w) + rest)[0] == w && (Varint(w) + rest)[1..] == rest
  {
  }

  // The digits of a number from position `k` on: the low one, and the others.
  lemma DigitsAt(w: nat, k: nat)
    ensures Pow(128, k + 1) == 128 * Pow(128, k)
    ensures Times(w % 128, Pow(128, k)) + Times(w / 128, Pow(128, k + 1)) == Times(w, Pow(128, k))
  {
    Digits(w, Pow(128, k));
  }

  lemma More64Step(w: nat, result: nat, k: nat, rest: Bytes)
    requires k < 10 && result + Times(w % 128, Pow(128, k)) < WORD64
    ensures More64(Varint(w) + rest, result, k)
      == if w < 128 then Some((result + Times(w % 128, Pow(128, k)), rest))
         else More64(Varint(w / 128) + rest, result + Times(w % 128, Pow(128, k)), k + 1)
  {
    hide Varint, Pow, Times;
    if w < 128 {
      OneByte(w, rest);
    } else {
      TailOfVarint(w, rest);
    }
  }

  lemma {:induction false} More64Back(w: nat, result: nat, k: nat, rest: Bytes)
    requires w > 0 || k == 0
    requires result + Times(w, Pow(128, k)) < WORD64
    ensures More64(Varint(w) + rest, result, k) == Some((result + Times(w, Pow(128, k)), rest))
    decreases w
  {
    AtLeastScale(w, Pow(128, k));
    hide Times, Varint, More64;
    if k > 0 {
      Pow64Limit(k);
    }
    DigitsAt(w, k);
    More64Step(w, result, k, rest);
    if w >= 128 {
      More64Back(w / 128, result + Times(w % 128, Pow(128, k)), k + 1, rest);
    }
  }

  lemma AtLeastScale(w: nat, scale: nat)
    ensures w > 0 ==> scale <= Times(w, scale)
    ensures w < 128 ==> Times(w % 128, scale) == Times(w, scale)
  {
    if w > 0 {
      TimesMonotone(1, w, scale);
    }
  }

  lemma Varint64Back(v: Uint64, rest: Bytes)
    ensures Varint64(Varint(v) + rest) == Some((v, rest))
  {
    assert Times(v, Pow(128, 0)) == v;
    More64Back(v, 0, 0, rest);
  }

  lemma Pow32Limit(k: nat)
    requires Pow(128, k) < WORD32
    ensures k < 5
  {
    if k >= 5 {
      PowGrows(5, k);
      PowValues();
    }
  }

  lemma More32Step(w: nat, result: nat, k: nat, rest: Bytes)
    requires k < 5 && result + Times(w % 128, Pow(128, k)) < WORD32 && (k == 4 ==> w < 16)
    ensures More32(Varint(w) + rest, result, k)
      == if w < 128 then Some((result + Times(w % 128, Pow(128, k)), rest))
         else More32(Varint(w / 128) + rest, result + Times(w % 128, Pow(128, k)), k + 1)
  {
    hide Varint, Pow, Times;
    if w < 128 {
      OneByte(w, rest);
    } else {
      TailOfVarint(w, rest);
    }
  }

  // Only the low four bits of a fifth digit fit.
  lemma FifthDigit(w: nat)
    requires Times(w, Pow(128, 4)) < WORD32
    ensures w < 16
  {
    PowValues();
  }

  lemma {:induction false} More32Back(w: nat, result: nat, k: nat, rest: Bytes)
    requires w > 0 && k > 0
    requires result + Times(w, Pow(128, k)) < WORD32
    ensures More32(Varint(w) + rest, result, k) == Some((result + Times(w, Pow(128, k)), rest))
    decreases w
  {
    AtLeastScale(w, Pow(128, k));
    if k == 4 {
      FifthDigit(w);
    }
    hide Times, Varint, More32;
    Pow32Limit(k);
    DigitsAt(w, k);
    More32Step(w, result, k, rest);
    if w >= 128 {
      More32Back(w / 128, result + Times(w % 128, Pow(128, k)), k + 1, rest);
    }
  }

  lemma Varint32Back(v: Uint32, rest: Bytes)
    ensures Varint32(Varint(v) + rest) == Some((v, rest))
  {
    if v < 128 {
      assert (Varint(v) + rest)[1..] == rest;
    } else {
      TailOfVarint(v, rest);
      assert Pow(128, 1) == 128;
      assert Times(v / 128, 128) == v / 128 * 128;
      More32Back(v / 128, v % 128, 1, rest);
    }
  }

  // ---- Varints on any bytes ------------------------------------------------------------------------------------------

  lemma {:induction false} HighPower(x: nat, k: nat)
    requires k >= 5
    ensures Times(x, Pow(128, k)) % WORD32 == 0
    decreases k
  {
    if k == 5 {
      assert Pow(128, 5) == 8 * WORD32 by {
        PowValues();
      }
      MultipleOfWord(x);
    } else {
      assert Times(x, Pow(128, k)) == Times(128 * x, Pow(128, k - 1)) by {
        MulAssoc(x, 128, Pow(128, k - 1));
      }
      HighPower(128 * x, k - 1);
    }
  }

  lemma MultipleOfWord(x: nat)
    ensures Times(x, 8 * WORD32) % WORD32 == 0
  {
    assert x * (8 * WORD32) == (8 * x) * WORD32;
  }

  // The number so far, and the digits of the first `n` bytes from position `k` on, cut to the word.
  ghost function Low(s: Bytes, n: nat, result: nat, k: nat, word: nat): nat
    requires n <= |s| && word > 0
  {
    (result + Times(Base128(s[..n]), Pow(128, k))) % word
  }

  // Taking the first digit in leaves the same number.
  lemma LowNext(s: Bytes, n: nat, result: nat, k: nat, word: nat)
    requires 0 < n <= |s| && (word == WORD32 || word == WORD64)
    ensures Low(s, n, result, k, word)
         == Low(s[1..], n - 1, (result + Times(s[0] % 128, Pow(128, k))) % word, k + 1, word)
  {
    var rest := Base128(s[1..][..n - 1]);
    assert s[..n][1..] == s[1..][..n - 1];
    DigitsOf(s[0] % 128, rest, k);
    CutSum(result + Times(s[0] % 128, Pow(128, k)), Times(rest, Pow(128, k + 1)), word);
  }

  lemma DigitsOf(digit: nat, rest: nat, k: nat)
    requires digit < 128
    ensures Times(digit + 128 * rest, Pow(128, k)) == Times(digit, Pow(128, k)) + Times(rest, Pow(128, k + 1))
  {
    AddMul(digit, 128 * rest, Pow(128, k));
    MulAssoc(rest, 128, Pow(128, k));
  }

  lemma LowLast(s: Bytes, result: nat, k: nat, word: nat)
    requires s != [] && word > 0
    ensures Low(s, 1, result, k, word) == (result + Times(s[0] % 128, Pow(128, k))) % word
  {
    assert s[..1][1..] == [] && Base128(s[..1]) == s[0] % 128;
  }

  // A byte behind the 32 bits that is let through: no bits, or what a negative number has there.
  predicate IsExtension(byte: Byte, position: nat, low: nat) {
    byte % 128 == 0 || (low >= 0x8000_0000 && byte == if position < 9 then 0xff else 0x01)
  }

  // The bytes from position `k` on are let through.
  ghost predicate Accepts(s: Bytes, n: nat, k: nat, low: nat)
    requires 0 < n <= |s|
  {
    && (forall i :: 0 <= i < n && k + i >= 5 ==> IsExtension(s[i], k + i, low))
    && (k + n == 5 ==> s[n - 1] % 128 < 16)
  }

  lemma AcceptsNext(s: Bytes, n: nat, k: nat, low: nat)
    requires 1 < n <= |s|
    ensures Accepts(s, n, k, low) <==> (k >= 5 ==> IsExtension(s[0], k, low)) && Accepts(s[1..], n - 1, k + 1, low)
  {
    hide IsExtension;
    if Accepts(s[1..], n - 1, k + 1, low) && (k >= 5 ==> IsExtension(s[0], k, low)) {
      forall i | 0 <= i < n && k + i >= 5 ensures IsExtension(s[i], k + i, low) {
        assert i > 0 ==> s[i] == s[1..][i - 1];
      }
    }
    if Accepts(s, n, k, low) {
      forall i | 0 <= i < n - 1 && k + 1 + i >= 5 ensures IsExtension(s[1..][i], k + 1 + i, low) {
        assert s[1..][i] == s[i + 1];
      }
    }
  }

  // Digits behind the 32 bits do not change the number.
  lemma LowIsResult(s: Bytes, n: nat, result: nat, k: nat)
    requires n <= |s| && k >= 5 && result < WORD32
    ensures Low(s, n, result, k, WORD32) == result
  {
    HighPower(Base128(s[..n]), k);
    AddMultiple(result, Times(Base128(s[..n]), Pow(128, k)));
  }

  lemma AddMultiple(a: nat, b: nat)
    requires a < WORD32 && b % WORD32 == 0
    ensures (a + b) % WORD32 == a
  {
  }

  lemma {:induction false} More32Exact(s: Bytes, n: nat, result: nat, k: nat)
    requires IsVarint(s, n) && result < WORD32
    ensures var low := Low(s, n, result, k, WORD32);
      More32(s, result, k) == if Accepts(s, n, k, low) then Some((low, s[n..])) else None
    decreases n
  {
    var low := Low(s, n, result, k, WORD32);
    if k >= 5 {
      LowIsResult(s, n, result, k);
    }
    if n == 1 {
      LowLast(s, result, k, WORD32);
      hide Low, Pow, Times;
    } else {
      LowNext(s, n, result, k, WORD32);
      AcceptsNext(s, n, k, low);
      IsVarintNext(s, n - 1);
      assert s[1..][n - 1..] == s[n..];
      var next := if k >= 5 then result else (result + Times(s[0] % 128, Pow(128, k))) % WORD32;
      if k >= 5 {
        LowIsResult(s[1..], n - 1, result, k + 1);
      }
      More32Exact(s[1..], n - 1, next, k + 1);
      hide Low, Pow, Times, Accepts;
    }
  }

  lemma {:induction false} More32None(s: Bytes, result: nat, k: nat)
    requires forall n :: 0 < n <= |s| ==> !IsVarint(s, n)
    ensures More32(s, result, k) == None
    decreases |s|
  {
    hide Pow, Times;
    if s != [] {
      assert !IsVarint(s, 1);
      forall n | 0 < n <= |s| - 1 ensures !IsVarint(s[1..], n) {
        IsVarintNext(s, n);
      }
      var next := if k >= 5 then result else (result + Times(s[0] % 128, Pow(128, k))) % WORD32;
      More32None(s[1..], next, k + 1);
    }
  }

  /**
   * On any bytes: what is read into 32 bits is the low half of the varint that is there. With five bytes or fewer it
   * has to fit; behind five bytes there may only be zeros or the sign of a negative number, and the three bits that
   * the fifth byte has above the 32 are not looked at.
   */
  lemma Varint32Exact(s: Bytes, n: nat)
    requires IsVarint(s, n)
    ensures var low := Base128(s[..n]) % WORD32;
      Varint32(s) == if Accepts(s, n, 0, low) then Some((low, s[n..])) else None
  {
    var low := Base128(s[..n]) % WORD32;
    assert Low(s, n, 0, 0, WORD32) == low by {
      assert Times(Base128(s[..n]), Pow(128, 0)) == Base128(s[..n]);
    }
    if n == 1 {
      assert s[..1][1..] == [];
    } else {
      FirstPart(s[0]);
      LowNext(s, n, 0, 0, WORD32);
      AcceptsNext(s, n, 0, low);
      IsVarintNext(s, n - 1);
      assert s[1..][n - 1..] == s[n..];
      More32Exact(s[1..], n - 1, s[0] - 128, 1);
      hide Low, Pow, Times, Accepts;
    }
  }

  lemma FirstPart(b: Byte)
    ensures Times(b % 128, Pow(128, 0)) == if b >= 128 then b - 128 else b
    ensures (0 + Times(b % 128, Pow(128, 0))) % WORD32 == Times(b % 128, Pow(128, 0))
  {
    var low := b % 128;
    assert Pow(128, 0) == 1 && Times(low, 1) == low;
  }

  lemma NoVarint32(s: Bytes)
    requires forall n :: 0 < n <= |s| ==> !IsVarint(s, n)
    ensures Varint32(s) == None
  {
    if s != [] {
      assert !IsVarint(s, 1);
      forall n | 0 < n <= |s| - 1 ensures !IsVarint(s[1..], n) {
        IsVarintNext(s, n);
      }
      More32None(s[1..], s[0] - 128, 1);
    }
  }

  lemma Unwound(s: Bytes)
    requires |s| >= 4 && s[1] == s[2] == s[3] == 0x80
    ensures Base128(s) == s[0] % 128 + 0x1000_0000 * Base128(s[4..])
  {
    assert s[1..][1..][1..][1..] == s[4..];
    assert Base128(s[1..][1..][1..]) == 128 * Base128(s[4..]);
    assert Base128(s[1..][1..]) == 0x4000 * Base128(s[4..]);
    assert Base128(s[1..]) == 0x20_0000 * Base128(s[4..]);
  }

  lemma FiveBytes(s: Bytes)
    requires s == [0x85, 0x80, 0x80, 0x80, 0x70]
    ensures Base128(s) == 0x7_0000_0005 && Varint32(s) == None
  {
    Unwound(s);
    assert s[4..] == [0x70] && s[4..][1..] == [] && s[..5] == s;
    assert Base128(s[4..]) == 0x70;
    hide Varint32, Base128;
    Varint32Exact(s, 5);
  }

  lemma SixBytes(s: Bytes)
    requires s == [0x85, 0x80, 0x80, 0x80, 0xf0, 0x00]
    ensures Base128(s) == 0x7_0000_0005 && Varint32(s) == Some((5, []))
  {
    Unwound(s);
    assert s[4..] == [0xf0, 0x00] && s[4..][1..] == [0x00] && s[4..][1..][1..] == [] && s[..6] == s && s[6..] == [];
    assert Base128(s[4..][1..]) == 0;
    assert Base128(s[4..]) == 0x70;
    hide Varint32, Base128;
    Varint32Exact(s, 6);
  }

  // A varint of 35 bits is refused, but read as its low 32 if a byte without bits stands behind it.
  lemma HighBitsAreLost()
    ensures Base128([0x85, 0x80, 0x80, 0x80, 0x70]) == Base128([0x85, 0x80, 0x80, 0x80, 0xf0, 0x00]) == 0x7_0000_0005
    ensures Varint32([0x85, 0x80, 0x80, 0x80, 0x70]) == None
    ensures Varint32([0x85, 0x80, 0x80, 0x80, 0xf0, 0x00]) == Some((5, []))
  {
    hide Varint32, Base128;
    FiveBytes([0x85, 0x80, 0x80, 0x80, 0x70]);
    SixBytes([0x85, 0x80, 0x80, 0x80, 0xf0, 0x00]);
  }

  lemma {:induction false} More64Exact(s: Bytes, n: nat, result: nat, k: nat)
    requires IsVarint(s, n) && result < WORD64
    ensures More64(s, result, k)
      == if k + n <= 10 then Some((Low(s, n, result, k, WORD64), s[n..])) else None
    decreases n
  {
    if n == 1 {
      LowLast(s, result, k, WORD64);
      hide Low, Pow, Times;
    } else {
      LowNext(s, n, result, k, WORD64);
      IsVarintNext(s, n - 1);
      assert s[1..][n - 1..] == s[n..];
      More64Exact(s[1..], n - 1, (result + Times(s[0] % 128, Pow(128, k))) % WORD64, k + 1);
      hide Low, Pow, Times;
    }
  }

  // On any bytes: ten bytes at most are read into 64 bits, and higher bits are cut off.
  lemma Varint64Exact(s: Bytes, n: nat)
    requires IsVarint(s, n)
    ensures Varint64(s) == if n <= 10 then Some((Base128(s[..n]) % WORD64, s[n..])) else None
  {
    More64Exact(s, n, 0, 0);
    assert Times(Base128(s[..n]), Pow(128, 0)) == Base128(s[..n]);
  }

  lemma SliceBack(b: Bytes, rest: Bytes)
    requires |b| < WORD32
    ensures Slice(Varint(|b|) + b + rest) == Some((b, rest))
  {
    hide Varint, Varint32;
    Assoc(Varint(|b|), b, rest);
    Varint32Back(|b|, b + rest);
    DropFront(b, rest);
    TakeFront(b, rest);
  }

  lemma TakeFront<T>(a: seq<T>, b: seq<T>)
    ensures (a + b)[..|a|] == a
  {
  }

  lemma {:induction false} NoNul(s: Bytes)
    requires 0 !in s
    ensures UpToNul(s) == s
  {
    if s != [] {
      NoNul(s[1..]);
    }
  }

  lemma SignedBack(n: int, size: IntSize)
    requires SignedFits(n, size)
    ensures 0 <= Unsigned64(n) < WORD64
    ensures Signed(Unsigned64(n), if size == 8 then WORD64 else WORD32) == n
  {
  }

  lemma ZigZagBack(n: int, size: IntSize)
    requires SignedFits(n, size)
    ensures ZigZag(n) < WORD64 && UnZigZag(ZigZag(n)) == n
  {
  }

  lemma FixedBack(n: nat, width: nat, rest: Bytes)
    requires n < Pow(256, width)
    ensures (Fixed(n, width) + rest)[..width] == Fixed(n, width) && (Fixed(n, width) + rest)[width..] == rest
    ensures Unfixed(Fixed(n, width)) == n
  {
    UnfixedFixed(n, width);
  }

  // A value that is not a message comes back, unless it is a string that fills its buffer.
  lemma ScalarBack(t: LType, v: Value, base: Value, rest: Bytes)
    requires !t.TMessage? && Typed(t, v) && EncValue(t, v).Some? && |EncValue(t, v).value| < WORD32
    ensures
      var r := DecValue(t, base, EncValue(t, v).value + rest);
      r == if t.TString? && |v.s| == t.dataSize then None else Some((v, rest))
  {
    hide Varint, Varint32, Varint64, Slice, Fixed, Unfixed, UpToNul, Signed, UnZigZag, ZigZag, Unsigned64;
    match t
    case TBool =>
      Varint32Back(if v.b then 1 else 0, rest);
    case TVarint(size) =>
      SignedBack(v.n, size);
      Varint64Back(Unsigned64(v.n), rest);
    case TUVarint(size) =>
      Varint64Back(v.n, rest);
    case TSVarint(size) =>
      ZigZagBack(v.n, size);
      Varint64Back(ZigZag(v.n), rest);
    case TFixed32 =>
      Pow256();
      FixedBack(v.n, 4, rest);
    case TFixed64 =>
      Pow256();
      FixedBack(v.n, 8, rest);
    case TBytes(_) =>
      SliceBack(v.s, rest);
    case TString(_) =>
      SliceBack(v.s, rest);
      NoNul(v.s);
    case TFixedBytes(dataSize) =>
      SliceBack(v.s, rest);
      if v.s == [] {
        assert Zero(t) == VBytes([]);
      }
  }
}
