/** Iterating over a finished block: sequential decoding, binary search over restart points, stepping back. */
module BlockIter {
  import opened DbFormat
  import opened Coding
  import opened Comparators
  import opened Blocks

  // ---- Decoding one entry --------------------------------------------------------------------------------------------

  // The three sizes at the front of `s` and where they end.
  datatype Header = Header(shared: nat, nonShared: nat, valueLength: nat, size: nat)

  function Word(s: Bytes): Option<(nat, nat)> {
    Cut(Unvarint(s, 5), WORD32)
  }

  function Sizes(s: Bytes): (r: Option<Header>)
    ensures r.Some? ==> 3 <= r.value.size <= |s|
  {
    var a := Word(s);
    if a.None? then None else
    var s1 := s[a.value.1..];
    var b := Word(s1);
    if b.None? then None else
    var s2 := s1[b.value.1..];
    var c := Word(s2);
    if c.None? then None else
    Some(Header(a.value.0, b.value.0, c.value.0, a.value.1 + b.value.1 + c.value.1))
  }

  // The sizes, if that many bytes of key and value follow.
  function EntryHeader(s: Bytes): (r: Option<Header>)
    ensures r.Some? ==> 3 <= r.value.size && r.value.size + r.value.nonShared + r.value.valueLength <= |s|
  {
    var h := Sizes(s);
    if h.None? || |s| - h.value.size < h.value.nonShared + h.value.valueLength then None else h
  }

  lemma SmallWord(s: Bytes)
    requires s != [] && s[0] < 128
    ensures Word(s) == Some((s[0], 1))
  {
  }

  lemma SmallSizes(s: Bytes)
    requires |s| >= 3 && s[0] < 128 && s[1] < 128 && s[2] < 128
    ensures Sizes(s) == Some(Header(s[0], s[1], s[2], 3))
  {
    hide Word;
    SmallWord(s);
    SmallWord(s[1..]);
    SmallWord(s[1..][1..]);
  }

  method DecodeSizes(s: Bytes) returns (r: Option<Header>)
    ensures r == Sizes(s)
  {
    hide Unvarint;
    var a := DecodeVarint(s, 5, WORD32);
    if a.None? {
      return None;
    }
    var s1 := s[a.value.1..];
    var b := DecodeVarint(s1, 5, WORD32);
    if b.None? {
      return None;
    }
    var s2 := s1[b.value.1..];
    var c := DecodeVarint(s2, 5, WORD32);
    if c.None? {
      return None;
    }
    r := Some(Header(a.value.0, b.value.0, c.value.0, a.value.1 + b.value.1 + c.value.1));
  }

  method DecodeEntry(s: Bytes) returns (r: Option<Header>)
    ensures r == EntryHeader(s)
  {
    if |s| < 3 {
      return None;
    }
    hide Sizes;
    var h: Option<Header>;
    if s[0] < 128 && s[1] < 128 && s[2] < 128 {
      SmallSizes(s);
      h := Some(Header(s[0], s[1], s[2], 3));
    } else {
      h := DecodeSizes(s);
    }
    if h.None? || |s| - h.value.size < h.value.nonShared + h.value.valueLength {
      return None;
    }
    r := h;
  }

  lemma Regroup4<T>(a: seq<T>, b: seq<T>, c: seq<T>, d: seq<T>)
    ensures a + b + c + d == a + (b + (c + d))
  {
  }

  lemma DecodesSizes(x: Uint32, y: Uint32, z: Uint32, rest: Bytes)
    requires y + z <= |rest|
    ensures var s := Varint(x) + Varint(y) + Varint(z) + rest; var size := |Varint(x)| + |Varint(y)| + |Varint(z)|;
      EntryHeader(s) == Some(Header(x, y, z, size)) && s[size..] == rest
  {
    var a, b, c := Varint(x), Varint(y), Varint(z);
    Regroup4(a, b, c, rest);
    DropFront(a + b + c, rest);
    hide Varint, Sizes;
    SizesAre(x, y, z, rest);
  }

  lemma SizesAre(x: Uint32, y: Uint32, z: Uint32, rest: Bytes)
    ensures Sizes(Varint(x) + (Varint(y) + (Varint(z) + rest)))
         == Some(Header(x, y, z, |Varint(x)| + |Varint(y)| + |Varint(z)|))
  {
    hide Varint, Word, Sizes;
    var s2 := Varint(z) + rest;
    var s1 := Varint(y) + s2;
    ReadsWord(x, s1);
    ReadsWord(y, s2);
    ReadsWord(z, rest);
    ThreeWords(Varint(x) + s1, s1, s2, (x, |Varint(x)|), (y, |Varint(y)|), (z, |Varint(z)|));
  }

  lemma ThreeWords(s: Bytes, s1: Bytes, s2: Bytes, a: (nat, nat), b: (nat, nat), c: (nat, nat))
    requires a.1 <= |s| && b.1 <= |s1|
    requires Word(s) == Some(a) && s[a.1..] == s1 && Word(s1) == Some(b) && s1[b.1..] == s2 && Word(s2) == Some(c)
    ensures Sizes(s) == Some(Header(a.0, b.0, c.0, a.1 + b.1 + c.1))
  {
    hide Word;
  }

  lemma ReadsWord(x: Uint32, rest: Bytes)
    ensures Word(Varint(x) + rest) == Some((x, |Varint(x)|)) && (Varint(x) + rest)[|Varint(x)|..] == rest
  {
    Varint32RoundTrip(x, rest);
    DropFront(Varint(x), rest);
  }

  // The entry at the front of `s` is decoded to its sizes, the rest of its key and its value.
  lemma DecodesEntry(shared: nat, p: Pair, rest: Bytes)
    requires shared <= |p.key| < WORD32 && |p.value| < WORD32
    ensures var s := EntryBytes(shared, p) + rest; var h := EntryHeader(s);
      && h.Some? && h.value.shared == shared && h.value.nonShared == |p.key| - shared && h.value.valueLength == |p.value|
      && h.value.size + h.value.nonShared + h.value.valueLength == |EntryBytes(shared, p)|
      && s[h.value.size..][..h.value.nonShared] == p.key[shared..]
      && s[h.value.size + h.value.nonShared..][..h.value.valueLength] == p.value
  {
    hide EntryHeader, Varint, Word;
    var a, b, c := Varint(shared), Varint(|p.key| - shared), Varint(|p.value|);
    var key, value := p.key[shared..], p.value;
    var s := EntryBytes(shared, p) + rest;
    DecodesSizes(shared, |p.key| - shared, |p.value|, key + value + rest);
    EntrySplit(a, b, c, key, value, rest);
  }

  lemma EntrySplit<T>(a: seq<T>, b: seq<T>, c: seq<T>, key: seq<T>, value: seq<T>, rest: seq<T>)
    ensures a + b + c + key + value + rest == a + b + c + (key + value + rest)
    ensures (key + value + rest)[..|key|] == key
    ensures (a + b + c + key + value + rest)[|a| + |b| + |c|..][..|key|] == key
    ensures (a + b + c + key + value + rest)[|a| + |b| + |c| + |key|..][..|value|] == value
  {
    var s := a + b + c + key + value + rest;
    assert s == a + b + c + (key + value + rest);
    assert s[|a| + |b| + |c|..] == key + value + rest;
    assert s[|a| + |b| + |c| + |key|..] == value + rest;
  }

  // ---- The iterator -----------------------------------------------------------------------------------------------------

  // Position of the first pair whose key is not before `target`.
  ghost predicate IsLowerBound(c: Comparator, pairs: seq<Pair>, target: Bytes, pos: nat) {
    && pos <= |pairs|
    && (forall i :: 0 <= i < pos ==> c.before(pairs[i].key, target))
    && (pos < |pairs| ==> !c.before(pairs[pos].key, target))
  }

  ghost predicate Increasing(c: Comparator, pairs: seq<Pair>) {
    forall i, j :: 0 <= i < j < |pairs| ==> c.before(pairs[i].key, pairs[j].key)
  }

  class Iter {
    const comparator: Comparator
    const data: Bytes
    // Offset and length of the restart array.
    const restarts: nat
    const numRestarts: nat
    ghost const layout: Layout

    // Offset of the current entry; at or past `restarts` when not valid.
    var current: nat
    var restartIndex: nat
    var key: Bytes
    var valueStart: nat
    var valueLength: nat
    var corrupted: bool
    ghost var pos: nat

    constructor (comparator: Comparator, data: Bytes, ghost area: Bytes, ghost layout: Layout)
      requires IsBlock(data, area, layout) && SizesFit(layout.pairs)
      ensures this.comparator == comparator && this.layout == layout
      ensures Ok() && pos == |layout.pairs|
    {
      CountStored(data, area, layout);
      PointsStored(data, area, layout);
      hide IsBlock, Holds, Words, Word32, SizesFit, Layout.Shaped;
      var n := Word32(data, |data| - 4);
      this.comparator, this.data, this.layout := comparator, data, layout;
      restarts, numRestarts := |data| - (1 + n) * 4, n;
      current, restartIndex := |data| - (1 + n) * 4, n;
      key, valueStart, valueLength, corrupted := [], 0, 0, false;
      pos := |layout.pairs|;
    }

    ghost predicate Base() {
      && restarts <= |data| && Holds(data[..restarts], layout) && numRestarts == |layout.restarts|
      && |data| == restarts + 4 * numRestarts + 4
      && SizesFit(layout.pairs)
      && forall k :: 0 <= k < numRestarts ==> Word32(data, restarts + 4 * k) == layout.offsets[layout.restarts[k]]
    }

    // At entry i, with `restartIndex` the last restart point before it, or its own.
    ghost predicate At(i: nat)
      requires Base()
      reads this
    {
      && i < |layout.pairs| && current == layout.offsets[i] && key == layout.pairs[i].key
      && valueStart + valueLength == layout.offsets[i + 1] <= |data|
      && data[valueStart..valueStart + valueLength] == layout.pairs[i].value
      && restartIndex < numRestarts && layout.restarts[restartIndex] <= i
      && (restartIndex + 1 < numRestarts ==> i <= layout.restarts[restartIndex + 1])
    }

    // Before entry i, ready to decode it.
    ghost predicate Ready(i: nat)
      requires Base()
      reads this
    {
      && i <= |layout.pairs| && valueStart + valueLength == layout.offsets[i]
      && restartIndex < numRestarts && layout.restarts[restartIndex] <= i
      && (restartIndex + 1 < numRestarts ==> i <= layout.restarts[restartIndex + 1] + 1)
      && (i < |layout.pairs| ==>
            && layout.shared[i] <= |key| && layout.shared[i] <= |layout.pairs[i].key|
            && key[..layout.shared[i]] == layout.pairs[i].key[..layout.shared[i]])
    }

    ghost predicate Ok()
      reads this
    {
      && Base() && !corrupted && pos <= |layout.pairs|
      && (pos < |layout.pairs| ==> At(pos))
      && (pos == |layout.pairs| ==> current == restarts && restartIndex == numRestarts)
    }

    predicate Valid()
      reads this
    {
      current < restarts
    }

    function NextEntryOffset(): nat
      reads this
    {
      valueStart + valueLength
    }

    function GetRestartPoint(index: nat): (r: nat)
      requires Base() && index < numRestarts
      ensures r == layout.offsets[layout.restarts[index]]
    {
      Word32(data, restarts + 4 * index)
    }

    method SeekToRestartPoint(index: nat)
      requires Base() && index < numRestarts
      modifies this
      ensures Ready(layout.restarts[index]) && corrupted == old(corrupted)
    {
      key := [];
      restartIndex := index;
      var offset := GetRestartPoint(index);
      valueStart, valueLength := offset, 0;
      RestartShares(index);
    }

    lemma RestartShares(index: nat)
      requires Base() && index < numRestarts
      ensures layout.restarts[index] <= |layout.pairs|
      ensures layout.restarts[index] < |layout.pairs| ==> layout.shared[layout.restarts[index]] == 0
      ensures index + 1 < numRestarts ==> layout.restarts[index] <= layout.restarts[index + 1]
    {
      var i := layout.restarts[index];
      if i < |layout.pairs| {
        assert EntryAt(data[..restarts], layout, i);
        assert layout.Shares(i);
      }
    }

    method CorruptionError()
      modifies this
      ensures current == restarts && corrupted
    {
      current, restartIndex, corrupted := restarts, numRestarts, true;
      key, valueStart, valueLength := [], 0, 0;
    }

    // What the entry at offset i decodes to, given the bytes from there on.
    lemma EntryHere(i: nat)
      requires Base() && i < |layout.pairs|
      ensures layout.offsets[i] < layout.offsets[i + 1] <= restarts
      ensures var s, h := data[layout.offsets[i]..restarts], EntryHeader(data[layout.offsets[i]..restarts]);
        && h.Some? && h.value.shared == layout.shared[i]
        && layout.shared[i] <= |layout.pairs[i].key| && |layout.KeyBefore(i)| >= layout.shared[i]
        && h.value.nonShared == |layout.pairs[i].key| - layout.shared[i]
        && h.value.valueLength == |layout.pairs[i].value|
        && layout.offsets[i] + h.value.size + h.value.nonShared + h.value.valueLength == layout.offsets[i + 1]
        && s[h.value.size..][..h.value.nonShared] == layout.pairs[i].key[layout.shared[i]..]
        && s[h.value.size + h.value.nonShared..][..h.value.valueLength] == layout.pairs[i].value
    {
      var area := data[..restarts];
      assert EntryAt(area, layout, i);
      OffsetsIncrease(layout, i + 1, |layout.pairs|);
      var o, o' := layout.offsets[i], layout.offsets[i + 1];
      var entry, rest := EntryBytes(layout.shared[i], layout.pairs[i]), data[o'..restarts];
      assert area[o..o'] == data[o..o'];
      assert data[o..restarts] == data[o..o'] + rest;
      DecodesEntry(layout.shared[i], layout.pairs[i], rest);
    }

    // Decode the entry at the end of the current one.
    method ParseNextKey(ghost i: nat) returns (found: bool)
      requires Base() && Ready(i) && !corrupted
      modifies this
      ensures Ok() && pos == i && found == (i < |layout.pairs|)
    {
      OffsetsOrder(i, |layout.pairs|);
      current := NextEntryOffset();
      if current >= restarts {
        current, restartIndex := restarts, numRestarts;
        pos := |layout.pairs|;
        return false;
      }
      found := DecodeHere(i);
      AdvanceRestart(i);
      pos := i;
    }

    // What the iterator makes of it, from the part of the key it holds.
    lemma HereDecodes(i: nat)
      requires Base() && i < |layout.pairs| && current == layout.offsets[i] < restarts
      requires layout.shared[i] <= |key| && layout.shared[i] <= |layout.pairs[i].key|
      requires key[..layout.shared[i]] == layout.pairs[i].key[..layout.shared[i]]
      ensures restarts <= |data| && layout.offsets[i + 1] <= |data|
      ensures var s, h := data[current..restarts], EntryHeader(data[current..restarts]);
        && h.Some? && h.value.shared <= |key|
        && key[..h.value.shared] + s[h.value.size..][..h.value.nonShared] == layout.pairs[i].key
        && var start := current + h.value.size + h.value.nonShared;
           && start + h.value.valueLength == layout.offsets[i + 1]
           && data[start..start + h.value.valueLength] == layout.pairs[i].value
    {
      EntryHere(i);
      var p, shared := layout.pairs[i], layout.shared[i];
      var h := EntryHeader(data[current..restarts]).value;
      hide EntryHeader, Iter.Base;
      KeyAndValue(data, current, restarts, h.size, h.nonShared, h.valueLength, p.key, shared);
    }

    method DecodeHere(ghost i: nat) returns (ok: bool)
      requires Base() && i < |layout.pairs| && current == layout.offsets[i] < restarts
      requires layout.shared[i] <= |key| && layout.shared[i] <= |layout.pairs[i].key|
      requires key[..layout.shared[i]] == layout.pairs[i].key[..layout.shared[i]]
      modifies this
      ensures ok && key == layout.pairs[i].key
      ensures valueStart + valueLength == layout.offsets[i + 1] <= |data|
      ensures data[valueStart..valueStart + valueLength] == layout.pairs[i].value
      ensures current == old(current) && restartIndex == old(restartIndex) && corrupted == old(corrupted)
    {
      HereDecodes(i);
      hide *;
      ok := TakeEntry();
    }

    // Decode at `current`, whatever is there.
    method TakeEntry() returns (ok: bool)
      requires current < restarts <= |data|
      modifies this
      ensures var s, h := data[old(current)..restarts], EntryHeader(data[old(current)..restarts]);
        && ok == (h.Some? && h.value.shared <= |old(key)|)
        && (ok ==>
             && key == old(key)[..h.value.shared] + s[h.value.size..][..h.value.nonShared]
             && valueStart == old(current) + h.value.size + h.value.nonShared && valueLength == h.value.valueLength
             && current == old(current) && restartIndex == old(restartIndex) && corrupted == old(corrupted))
      ensures !ok ==> corrupted
    {
      hide EntryHeader;
      var s := data[current..restarts];
      var h := DecodeEntry(s);
      if h.None? || |key| < h.value.shared {
        CorruptionError();
        return false;
      }
      key := key[..h.value.shared] + s[h.value.size..][..h.value.nonShared];
      valueStart, valueLength := current + h.value.size + h.value.nonShared, h.value.valueLength;
      ok := true;
    }

    method AdvanceRestart(ghost i: nat)
      requires Base() && i < |layout.pairs| && current == layout.offsets[i]
      requires restartIndex < numRestarts && layout.restarts[restartIndex] <= i
      modifies this`restartIndex
      ensures restartIndex < numRestarts && layout.restarts[restartIndex] <= i
      ensures restartIndex + 1 < numRestarts ==> i <= layout.restarts[restartIndex + 1]
    {
      while restartIndex + 1 < numRestarts && GetRestartPoint(restartIndex + 1) < current
        invariant restartIndex < numRestarts && layout.restarts[restartIndex] <= i
        decreases numRestarts - restartIndex
      {
        OffsetsOrder(layout.restarts[restartIndex + 1], i);
        restartIndex := restartIndex + 1;
      }
      if restartIndex + 1 < numRestarts {
        OffsetsOrder(layout.restarts[restartIndex + 1], i);
      }
    }

    // The key and value at the current position.
    function Key(): (k: Bytes)
      requires Ok() && Valid()
      reads this
      ensures pos < |layout.pairs| && k == layout.pairs[pos].key
    {
      ValidMeansBefore();
      key
    }

    function Value(): (v: Bytes)
      requires Ok() && Valid()
      reads this
      ensures pos < |layout.pairs| && v == layout.pairs[pos].value
    {
      ValidMeansBefore();
      data[valueStart..valueStart + valueLength]
    }

    lemma ValidMeansBefore()
      requires Ok()
      ensures Valid() <==> pos < |layout.pairs|
    {
      OffsetsOrder(pos, |layout.pairs|);
    }

    lemma ReadyNext(i: nat)
      requires Base() && At(i)
      ensures Ready(i + 1)
    {
      if i + 1 < |layout.pairs| {
        assert EntryAt(data[..restarts], layout, i + 1);
      }
    }

    method Next()
      requires Ok() && Valid()
      modifies this
      ensures Ok() && pos == old(pos) + 1
    {
      ValidMeansBefore();
      ReadyNext(pos);
      hide Iter.At, Iter.Ready;
      var _ := ParseNextKey(pos + 1);
    }

    method SeekToFirst()
      requires Ok()
      modifies this
      ensures Ok() && pos == 0
    {
      hide Iter.At;
      SeekToRestartPoint(0);
      var _ := ParseNextKey(0);
    }

    // Scan from a restart point to the entry that ends at `limit`, where entry `stop` starts; at least one entry.
    method ScanTo(index: nat, limit: nat, ghost stop: nat)
      requires Base() && !corrupted && index < numRestarts && layout.restarts[index] <= stop <= |layout.pairs|
      requires limit == layout.offsets[stop]
      modifies this
      ensures Ok() && pos == if layout.restarts[index] < stop then stop - 1 else stop
    {
      hide Holds;
      SeekToRestartPoint(index);
      ghost var first := layout.restarts[index];
      ghost var i := first;
      var more := true;
      while more
        invariant Base() && !corrupted && first <= i && (i < stop || i == first)
        invariant more ==> Ready(i)
        invariant !more ==> Ok() && pos == if first < stop then stop - 1 else stop
        decreases more, stop - i
      {
        var found := ParseNextKey(i);
        if found {
          OffsetsOrder(i + 1, stop);
        }
        if found && NextEntryOffset() < limit {
          ReadyNext(i);
          i := i + 1;
        } else {
          more := false;
        }
      }
    }

    method SeekToLast()
      requires Ok()
      modifies this
      ensures Ok() && pos == if layout.pairs == [] then 0 else |layout.pairs| - 1
    {
      ScanTo(numRestarts - 1, restarts, |layout.pairs|);
    }

    // Back to the last restart point before the current entry.
    method Prev()
      requires Ok() && Valid()
      modifies this
      ensures Ok() && pos == if old(pos) == 0 then |layout.pairs| else old(pos) - 1
    {
      ValidMeansBefore();
      var original := current;
      while GetRestartPoint(restartIndex) >= original
        invariant unchanged(`pos, `current, `corrupted) && restartIndex < numRestarts
        decreases restartIndex
      {
        OffsetsOrder(layout.restarts[restartIndex], pos);
        if restartIndex == 0 {
          current, restartIndex := restarts, numRestarts;
          pos := |layout.pairs|;
          return;
        }
        restartIndex := restartIndex - 1;
      }
      OffsetsOrder(layout.restarts[restartIndex], pos);
      ScanTo(restartIndex, original, pos);
    }

    // The last restart point whose key is before `target`, or the first one.
    method FindRestart(target: Bytes) returns (left: nat)
      requires Ok()
      ensures left < numRestarts
      ensures left > 0 ==> comparator.before(layout.pairs[layout.restarts[left]].key, target)
    {
      left := 0;
      var right := numRestarts - 1;
      while left < right
        invariant left <= right < numRestarts
        invariant left > 0 ==> comparator.before(layout.pairs[layout.restarts[left]].key, target)
      {
        var mid := (left + right + 1) / 2;
        var offset := GetRestartPoint(mid);
        RestartShares(mid);
        EntryHere(layout.restarts[mid]);
        var s := data[offset..restarts];
        var h := DecodeEntry(s);
        var midKey := s[h.value.size..][..h.value.nonShared];
        assert midKey == layout.pairs[layout.restarts[mid]].key;
        if comparator.before(midKey, target) {
          left := mid;
        } else {
          right := mid - 1;
        }
      }
    }

    method Seek(target: Bytes)
      requires Ok() && comparator.Ok() && Increasing(comparator, layout.pairs)
      modifies this
      ensures Ok() && IsLowerBound(comparator, layout.pairs, target, pos)
    {
      var left := FindRestart(target);
      BeforeRestart(left, target);
      SeekToRestartPoint(left);
      ScanFor(target, layout.restarts[left]);
    }

    // Linear search from entry `i0` on.
    method ScanFor(target: Bytes, ghost i0: nat)
      requires Base() && !corrupted && i0 <= |layout.pairs| && Ready(i0)
      requires forall k :: 0 <= k < i0 ==> comparator.before(layout.pairs[k].key, target)
      modifies this
      ensures Ok() && IsLowerBound(comparator, layout.pairs, target, pos)
    {
      hide Holds, Layout.Shaped, Iter.Ready, SizesFit;
      ghost var i := i0;
      var more := true;
      while more
        invariant Base() && !corrupted && i <= |layout.pairs|
        invariant forall k :: 0 <= k < i ==> comparator.before(layout.pairs[k].key, target)
        invariant more ==> Ready(i)
        invariant !more ==> Ok() && pos == i && IsLowerBound(comparator, layout.pairs, target, pos)
        decreases more, |layout.pairs| - i
      {
        var found := ParseNextKey(i);
        if !found || !comparator.before(key, target) {
          more := false;
        } else {
          ReadyNext(i);
          i := i + 1;
        }
      }
    }

    lemma BeforeRestart(left: nat, target: Bytes)
      requires Base() && comparator.Ok() && Increasing(comparator, layout.pairs) && left < numRestarts
      requires left > 0 ==> comparator.before(layout.pairs[layout.restarts[left]].key, target)
      ensures layout.restarts[left] <= |layout.pairs|
      ensures forall k :: 0 <= k < layout.restarts[left] ==> comparator.before(layout.pairs[k].key, target)
    {
      hide Comparator.Ok;
      forall k | 0 <= k < layout.restarts[left] ensures comparator.before(layout.pairs[k].key, target) {
        UserOrder(comparator, layout.pairs[k].key, layout.pairs[layout.restarts[left]].key, target);
      }
    }

    lemma OffsetsOrder(i: nat, j: nat)
      requires Base() && i <= |layout.pairs| && j <= |layout.pairs|
      ensures layout.offsets[i] < layout.offsets[j] <==> i < j
    {
      if i <= j {
        OffsetsIncrease(layout, i, j);
      } else {
        OffsetsIncrease(layout, j, i);
      }
    }
  }

  lemma KeyAndValue<T>(data: seq<T>, from: nat, to: nat, size: nat, keyRest: nat, value: nat, key: seq<T>, shared: nat)
    requires from <= to <= |data| && from + size + keyRest + value <= to && shared <= |key|
    ensures data[from..to][size + keyRest..][..value] == data[from + size + keyRest..from + size + keyRest + value]
    ensures key[..shared] + key[shared..] == key
  {
  }

  lemma CountStored(data: Bytes, area: Bytes, l: Layout)
    requires IsBlock(data, area, l)
    ensures |data| == |area| + 4 * |l.restarts| + 4 && Word32(data, |data| - 4) == |l.restarts|
  {
    var front := area + Words(Points(l));
    Word32Stored(front, |l.restarts|, []);
    assert data == front + Fixed(|l.restarts|, 4) + [];
  }

  lemma PointsStored(data: Bytes, area: Bytes, l: Layout)
    requires IsBlock(data, area, l)
    ensures |area| <= |data| && data[..|area|] == area && Holds(area, l)
    ensures forall k :: 0 <= k < |l.restarts| ==> Word32(data, |area| + 4 * k) == l.offsets[l.restarts[k]]
  {
    var points := Points(l);
    PointsFit(area, l);
    hide Holds, Words, Word32, Fixed;
    forall k | 0 <= k < |l.restarts| ensures Word32(data, |area| + 4 * k) == l.offsets[l.restarts[k]] {
      WordAt(area, points, k, Fixed(|l.restarts|, 4));
    }
  }

  // Every finished block is read back as the pairs that were added, forwards and backwards.
  method ReadForward(it: Iter) returns (pairs: seq<Pair>)
    requires it.Ok()
    modifies it
    ensures it.Ok() && pairs == it.layout.pairs
  {
    hide Iter.Ok;
    pairs := [];
    it.SeekToFirst();
    it.ValidMeansBefore();
    while it.Valid()
      invariant it.Ok() && it.pos <= |it.layout.pairs| && pairs == it.layout.pairs[..it.pos]
      invariant it.Valid() <==> it.pos < |it.layout.pairs|
      decreases |it.layout.pairs| - it.pos
    {
      pairs := pairs + [Pair(it.Key(), it.Value())];
      it.Next();
      it.ValidMeansBefore();
    }
  }

  lemma Prepend<T>(s: seq<T>, i: nat)
    requires i < |s|
    ensures [s[i]] + s[i + 1..] == s[i..] && s[0..] == s
  {
  }

  method ReadBackward(it: Iter) returns (pairs: seq<Pair>)
    requires it.Ok()
    modifies it
    ensures it.Ok() && pairs == it.layout.pairs
  {
    hide Iter.Ok;
    pairs := [];
    it.SeekToLast();
    it.ValidMeansBefore();
    ghost var all := it.layout.pairs;
    while it.Valid()
      invariant it.Ok() && (it.Valid() <==> it.pos < |all|)
      invariant it.pos < |all| ==> pairs == all[it.pos + 1..]
      invariant it.pos >= |all| ==> pairs == all
      decreases if it.pos < |all| then it.pos + 1 else 0
    {
      Prepend(all, it.pos);
      pairs := [Pair(it.Key(), it.Value())] + pairs;
      it.Prev();
      it.ValidMeansBefore();
    }
  }
}
