/** Building a table: data blocks in a file, and an index with one short key for each. */
module TableBuilding {
  import opened DbFormat
  import opened Coding
  import opened Comparators
  import opened LogFormat
  import opened Blocks

  const TRAILER: nat := 5

  datatype Handle = Handle(offset: nat, size: nat)

  predicate HandleFits(h: Handle) {
    h.offset < WORD64 && h.size < WORD64
  }

  function HandleBytes(h: Handle): (r: Bytes)
  {
    Varint(h.offset) + Varint(h.size)
  }

  method EncodeHandle(h: Handle) returns (r: Bytes)
    requires HandleFits(h)
    ensures r == HandleBytes(h) && |r| <= 20
  {
    var a := EncodeVarint64(h.offset);
    var b := EncodeVarint64(h.size);
    Varint64Size(h.offset);
    Varint64Size(h.size);
    r := a + b;
  }

  method DecodeHandle(s: Bytes) returns (r: Option<Handle>)
    ensures forall h :: HandleFits(h) && s == HandleBytes(h) ==> r == Some(h)
  {
    forall h | HandleFits(h) && s == HandleBytes(h)
      ensures Cut(Unvarint(s, 10), WORD64) == Some((h.offset, |Varint(h.offset)|))
      ensures s[|Varint(h.offset)|..] == Varint(h.size)
      ensures Cut(Unvarint(Varint(h.size), 10), WORD64) == Some((h.size, |Varint(h.size)|))
    {
      Varint64RoundTrip(h.offset, Varint(h.size));
      Varint64RoundTrip(h.size, []);
      assert Varint(h.size) + [] == Varint(h.size);
    }
    var a := DecodeVarint(s, 10, WORD64);
    if a.None? {
      return None;
    }
    var b := DecodeVarint(s[a.value.1..], 10, WORD64);
    if b.None? {
      return None;
    }
    r := Some(Handle(a.value.0, b.value.0));
  }

  // What follows a block in the file: its compression type, here always none, and a masked checksum of both.
  function Trailer(crc: Crc, block: Bytes): (r: Bytes)
    ensures |r| == TRAILER
  {
    [0] + Fixed(Mask(crc.value(block + [0])), 4)
  }

  // The blocks of a table: where each is, what it holds, its key in the index; block k holds the pairs of the
  // table from bounds[k] up to bounds[k + 1].
  datatype Contents = Contents(handles: seq<Handle>, layouts: seq<Layout>, seps: seq<Bytes>, bounds: seq<nat>) {
    ghost predicate BlockAt(all: seq<Pair>, k: nat) {
      && k < |layouts| && k + 1 < |bounds| && bounds[k] < bounds[k + 1] <= |all|
      && layouts[k].pairs == all[bounds[k]..bounds[k + 1]]
    }

    ghost predicate Shaped(all: seq<Pair>) {
      && |handles| == |layouts| == |bounds| - 1 && |seps| <= |layouts| && bounds[0] == 0
      && forall k :: 0 <= k < |layouts| ==> BlockAt(all, k)
    }

    function End(): nat {
      if bounds == [] then 0 else bounds[|bounds| - 1]
    }

    // The k-th index key is at or after every key of its block and of those before, and before every later key:
    // it separates the last key of its block from the next one.
    ghost predicate SepAt(c: Comparator, all: seq<Pair>, k: nat) {
      && k < |seps| && k + 1 < |bounds| && c.isKey(seps[k]) && bounds[k + 1] <= |all|
      && (forall i :: 0 <= i < bounds[k + 1] ==> !c.before(seps[k], all[i].key))
      && (forall i :: bounds[k + 1] <= i < |all| ==> c.before(seps[k], all[i].key))
      && (0 < bounds[k + 1] < |all| ==> seps[k] == c.separator(all[bounds[k + 1] - 1].key, all[bounds[k + 1]].key))
    }

    ghost predicate Separated(c: Comparator, all: seq<Pair>) {
      forall k :: 0 <= k < |seps| ==> SepAt(c, all, k)
    }
  }

  ghost predicate StoredAt(crc: Crc, file: Bytes, h: Handle, l: Layout) {
    && h.offset + h.size + TRAILER <= |file| && HandleFits(h) && SizesFit(l.pairs)
    && var data := file[h.offset..h.offset + h.size];
       && l.Shaped() && l.offsets[|l.pairs|] <= |data|
       && IsBlock(data, data[..l.offsets[|l.pairs|]], l)
       && file[h.offset + h.size..h.offset + h.size + TRAILER] == Trailer(crc, data)
  }

  ghost predicate Stored(crc: Crc, file: Bytes, handles: seq<Handle>, layouts: seq<Layout>) {
    && |handles| == |layouts| && (forall k :: 0 <= k < |handles| ==> StoredAt(crc, file, handles[k], layouts[k]))
    && (forall j, k :: 0 <= j < k < |handles| ==> handles[j].offset < handles[k].offset)
  }

  ghost predicate KeysIncrease(c: Comparator, all: seq<Pair>) {
    && (forall i :: 0 <= i < |all| ==> c.isKey(all[i].key))
    && (forall i, j :: 0 <= i < j < |all| ==> c.before(all[i].key, all[j].key))
  }

  ghost predicate Indexes(index: seq<Pair>, t: Contents) {
    && |index| == |t.seps| <= |t.handles|
    && forall k :: 0 <= k < |index| ==> index[k] == Pair(t.seps[k], HandleBytes(t.handles[k]))
  }

  // A finished table.
  ghost predicate IsTable(c: Comparator, crc: Crc, file: Bytes, index: seq<Pair>, all: seq<Pair>, t: Contents) {
    && t.Shaped(all) && Stored(crc, file, t.handles, t.layouts) && t.Separated(c, all) && KeysIncrease(c, all)
    && |t.seps| == |t.layouts| && Indexes(index, t) && t.End() == |all|
  }

  // ---- Steps of building ------------------------------------------------------------------------------------------------

  lemma SepAppend(c: Comparator, all: seq<Pair>, t: Contents, p: Pair, k: nat)
    requires t.SepAt(c, all, k) && c.before(t.seps[k], p.key)
    requires 0 < t.bounds[k + 1] == |all| ==> t.seps[k] == c.separator(all[|all| - 1].key, p.key)
    ensures t.SepAt(c, all + [p], k)
  {
  }

  lemma KeysAppend(c: Comparator, all: seq<Pair>, p: Pair)
    requires c.Ok() && KeysIncrease(c, all) && c.isKey(p.key) && (all != [] ==> c.before(all[|all| - 1].key, p.key))
    ensures KeysIncrease(c, all + [p])
  {
    hide Comparator.Ok;
    var r := all + [p];
    forall i, j | 0 <= i < j < |r| ensures c.before(r[i].key, r[j].key) {
      if j == |all| && i < j - 1 {
        UserOrder(c, r[i].key, r[j - 1].key, r[j].key);
      }
    }
  }

  // The separator for a block that ends the table so far goes between its keys and the next one.
  lemma SeparatorFits(c: Comparator, all: seq<Pair>, t: Contents, sep: Bytes)
    requires c.Ok() && KeysIncrease(c, all) && all != [] && t.Separated(c, all)
    requires |t.seps| + 1 < |t.bounds| && t.bounds[|t.seps| + 1] == |all|
    requires c.isKey(sep) && !c.before(sep, all[|all| - 1].key)
    ensures t.(seps := t.seps + [sep]).Separated(c, all)
  {
    hide Comparator.Ok;
    var last := all[|all| - 1].key;
    forall i | 0 <= i < |all| ensures !c.before(sep, all[i].key) {
      if i < |all| - 1 && c.before(sep, all[i].key) {
        UserOrder(c, sep, all[i].key, last);
      }
    }
    var t' := t.(seps := t.seps + [sep]);
    forall k | 0 <= k < |t'.seps| ensures t'.SepAt(c, all, k) {
      assert k < |t.seps| ==> t.SepAt(c, all, k);
    }
  }

  lemma ShapedAppend(all: seq<Pair>, t: Contents, p: Pair)
    requires t.Shaped(all)
    ensures t.Shaped(all + [p])
  {
    forall k | 0 <= k < |t.layouts| ensures t.BlockAt(all + [p], k) {
      assert t.BlockAt(all, k);
      assert (all + [p])[t.bounds[k]..t.bounds[k + 1]] == all[t.bounds[k]..t.bounds[k + 1]];
    }
  }

  lemma StoredStays(crc: Crc, file: Bytes, more: Bytes, h: Handle, l: Layout)
    requires StoredAt(crc, file, h, l)
    ensures StoredAt(crc, file + more, h, l)
  {
    assert (file + more)[h.offset..h.offset + h.size] == file[h.offset..h.offset + h.size];
    assert (file + more)[h.offset + h.size..h.offset + h.size + TRAILER] == file[h.offset + h.size..h.offset + h.size + TRAILER];
  }

  lemma StoredInside(crc: Crc, file: Bytes, h: Handle, l: Layout)
    requires StoredAt(crc, file, h, l)
    ensures h.offset < |file|
  {
  }

  lemma BlockStored(crc: Crc, file: Bytes, data: Bytes, area: Bytes, l: Layout)
    requires IsBlock(data, area, l) && SizesFit(l.pairs) && |file| + |data| < WORD64
    ensures StoredAt(crc, file + data + Trailer(crc, data), Handle(|file|, |data|), l)
  {
    var r := file + data + Trailer(crc, data);
    assert r[|file|..|file| + |data|] == data;
    assert r[|file| + |data|..|file| + |data| + TRAILER] == Trailer(crc, data);
    assert data[..|area|] == area;
  }

  // ---- The builder ----------------------------------------------------------------------------------------------------------

  // What the fields of a builder say about the pairs added so far; `pending` is the handle of a block that is not
  // in the index yet.
  ghost predicate Described(c: Comparator, crc: Crc, file: Bytes, all: seq<Pair>, t: Contents, pending: Option<Handle>,
                            lastKey: Bytes)
  {
    && t.Shaped(all) && Stored(crc, file, t.handles, t.layouts) && t.Separated(c, all) && KeysIncrease(c, all)
    && t.End() <= |all| && |t.layouts| == |t.seps| + (if pending.Some? then 1 else 0)
    && (pending.Some? ==> pending.value == t.handles[|t.seps|] && t.End() == |all| && HandleFits(pending.value))
    && (all != [] ==> lastKey == all[|all| - 1].key) && |lastKey| < WORD32
  }

  lemma MakeDescribed(c: Comparator, crc: Crc, file: Bytes, all: seq<Pair>, t: Contents, pending: Option<Handle>,
                      lastKey: Bytes)
    requires t.Shaped(all) && Stored(crc, file, t.handles, t.layouts) && t.Separated(c, all) && KeysIncrease(c, all)
    requires t.End() <= |all| && |t.layouts| == |t.seps| + (if pending.Some? then 1 else 0)
    requires pending.Some? ==> pending.value == t.handles[|t.seps|] && t.End() == |all| && HandleFits(pending.value)
    requires (all != [] ==> lastKey == all[|all| - 1].key) && |lastKey| < WORD32
    ensures Described(c, crc, file, all, t, pending, lastKey)
  {
  }

  lemma LastEnd(all: seq<Pair>, t: Contents)
    requires t.Shaped(all) && t.layouts != []
    ensures t.End() == t.bounds[|t.layouts|] && all != []
  {
    assert t.BlockAt(all, |t.layouts| - 1);
  }

  lemma ShapedWithSep(all: seq<Pair>, t: Contents, sep: Bytes)
    requires t.Shaped(all) && |t.seps| < |t.layouts|
    ensures t.(seps := t.seps + [sep]).Shaped(all)
  {
    var t' := t.(seps := t.seps + [sep]);
    forall k | 0 <= k < |t.layouts| ensures t'.BlockAt(all, k) {
      assert t.BlockAt(all, k);
    }
  }

  lemma IndexEntryAdded(c: Comparator, crc: Crc, file: Bytes, all: seq<Pair>, t: Contents, h: Handle, lastKey: Bytes,
                        sep: Bytes)
    requires c.Ok() && Described(c, crc, file, all, t, Some(h), lastKey)
    requires c.isKey(sep) && !c.before(sep, lastKey)
    ensures Described(c, crc, file, all, t.(seps := t.seps + [sep]), None, lastKey)
    ensures t.End() == |all|
  {
    LastEnd(all, t);
    hide Comparator.Ok, Stored, Contents.Separated, KeysIncrease;
    SeparatorFits(c, all, t, sep);
    ShapedWithSep(all, t, sep);
    hide Contents.Shaped;
    MakeDescribed(c, crc, file, all, t.(seps := t.seps + [sep]), None, lastKey);
  }

  lemma IndexAppend(index: seq<Pair>, t: Contents, sep: Bytes)
    requires Indexes(index, t) && |t.seps| < |t.handles|
    ensures Indexes(index + [Pair(sep, HandleBytes(t.handles[|t.seps|]))], t.(seps := t.seps + [sep]))
  {
  }

  lemma IndexStep(c: Comparator, crc: Crc, file: Bytes, all: seq<Pair>, t: Contents, h: Handle, lastKey: Bytes,
                  index: seq<Pair>, sep: Bytes)
    requires c.Ok() && Described(c, crc, file, all, t, Some(h), lastKey) && Indexes(index, t)
    requires c.isKey(sep) && !c.before(sep, lastKey)
    ensures var t' := t.(seps := t.seps + [sep]);
      && Described(c, crc, file, all, t', None, lastKey) && Indexes(index + [Pair(sep, HandleBytes(h))], t')
      && t'.End() == t.End() == |all|
    ensures HandleFits(h)
  {
    assert |t.seps| < |t.handles| && h == t.handles[|t.seps|];
    hide Comparator.Ok, Contents.Shaped, Contents.Separated, Stored, KeysIncrease;
    IndexEntryAdded(c, crc, file, all, t, h, lastKey, sep);
    IndexAppend(index, t, sep);
  }

  lemma SeparatedGrows(c: Comparator, all: seq<Pair>, t: Contents, p: Pair)
    requires c.Ok() && t.Shaped(all) && t.Separated(c, all) && |t.seps| == |t.layouts|
    requires all != [] ==> c.before(all[|all| - 1].key, p.key)
    requires |t.seps| > 0 && t.End() == |all| ==> c.before(t.seps[|t.seps| - 1], p.key)
    requires |t.seps| > 0 && t.End() == |all| > 0 ==> t.seps[|t.seps| - 1] == c.separator(all[|all| - 1].key, p.key)
    ensures t.Separated(c, all + [p])
  {
    hide Comparator.Ok;
    forall k | 0 <= k < |t.seps| ensures t.SepAt(c, all + [p], k) {
      assert t.SepAt(c, all, k);
      if k + 1 < |t.layouts| {
        assert t.BlockAt(all, k + 1);
      }
      if t.bounds[k + 1] < |all| {
        UserOrder(c, t.seps[k], all[|all| - 1].key, p.key);
      }
      SepAppend(c, all, t, p, k);
    }
  }

  lemma PairAdded(c: Comparator, crc: Crc, file: Bytes, all: seq<Pair>, t: Contents, lastKey: Bytes, p: Pair)
    requires c.Ok() && Described(c, crc, file, all, t, None, lastKey)
    requires c.isKey(p.key) && |p.key| < WORD32 && (all != [] ==> c.before(lastKey, p.key))
    requires |t.seps| > 0 && t.End() == |all| ==> c.before(t.seps[|t.seps| - 1], p.key)
    requires |t.seps| > 0 && t.End() == |all| > 0 ==> t.seps[|t.seps| - 1] == c.separator(lastKey, p.key)
    ensures Described(c, crc, file, all + [p], t, None, p.key)
  {
    hide Comparator.Ok, Contents.Shaped, Stored, Contents.Separated, KeysIncrease;
    KeysAppend(c, all, p);
    ShapedAppend(all, t, p);
    SeparatedGrows(c, all, t, p);
    MakeDescribed(c, crc, file, all + [p], t, None, p.key);
  }

  lemma LastIsKey(c: Comparator, crc: Crc, file: Bytes, all: seq<Pair>, t: Contents, h: Handle, lastKey: Bytes)
    requires Described(c, crc, file, all, t, Some(h), lastKey)
    ensures all != [] && c.isKey(lastKey) && |lastKey| < WORD32
  {
    LastEnd(all, t);
    hide Stored, Contents.Separated, Contents.Shaped;
  }

  lemma SeparatorLies(c: Comparator, a: Bytes, b: Bytes)
    requires c.Ok() && c.isKey(a) && c.isKey(b) && c.before(a, b)
    ensures var sep := c.separator(a, b); c.isKey(sep) && !c.before(sep, a) && c.before(sep, b) && |sep| <= |a|
  {
    hide Comparator.IsOrder;
  }

  lemma SuccessorLies(c: Comparator, a: Bytes)
    requires c.Ok() && c.isKey(a)
    ensures var sep := c.successor(a); c.isKey(sep) && !c.before(sep, a) && |sep| <= |a|
  {
    hide Comparator.IsOrder;
  }

  lemma AppendAfter<T>(s: seq<T>, i: nat, x: T)
    requires i <= |s|
    ensures (s + [x])[i..] == s[i..] + [x]
  {
  }

  lemma EmptyBuffer(area: Bytes, l: Layout)
    requires Holds(area, l)
    ensures area == [] <==> l.pairs == []
  {
    OffsetsIncrease(l, 0, |l.pairs|);
  }

  lemma NoBlocks(c: Comparator, crc: Crc, file: Bytes, all: seq<Pair>, t: Contents, pending: Option<Handle>, lastKey: Bytes)
    requires Described(c, crc, file, all, t, pending, lastKey)
    ensures pending.None? && t.seps == [] ==> t.End() == 0
  {
    hide Stored, Contents.Separated, KeysIncrease;
  }

  function WithBlock(t: Contents, h: Handle, l: Layout, end: nat): Contents {
    Contents(t.handles + [h], t.layouts + [l], t.seps, t.bounds + [end])
  }

  lemma StoredGrows(crc: Crc, file: Bytes, t: Contents, data: Bytes, area: Bytes, l: Layout)
    requires Stored(crc, file, t.handles, t.layouts) && |file| + |data| < WORD64
    requires IsBlock(data, area, l) && SizesFit(l.pairs)
    ensures Stored(crc, file + data + Trailer(crc, data), t.handles + [Handle(|file|, |data|)], t.layouts + [l])
  {
    BlockStored(crc, file, data, area, l);
    var file' := file + data + Trailer(crc, data);
    assert file' == file + (data + Trailer(crc, data));
    hide StoredAt, IsBlock, SizesFit;
    var hs, ls := t.handles + [Handle(|file|, |data|)], t.layouts + [l];
    forall k | 0 <= k < |hs|
      ensures StoredAt(crc, file', hs[k], ls[k]) && (k < |t.handles| ==> hs[k].offset < |file|)
    {
      if k < |t.handles| {
        StoredStays(crc, file, data + Trailer(crc, data), t.handles[k], t.layouts[k]);
        StoredInside(crc, file, t.handles[k], t.layouts[k]);
      }
    }
  }

  lemma ShapedWithBlock(all: seq<Pair>, t: Contents, h: Handle, l: Layout)
    requires t.Shaped(all) && t.End() < |all| && l.pairs == all[t.End()..]
    ensures WithBlock(t, h, l, |all|).Shaped(all) && WithBlock(t, h, l, |all|).End() == |all|
  {
    var t' := WithBlock(t, h, l, |all|);
    forall k | 0 <= k < |t'.layouts| ensures t'.BlockAt(all, k) {
      assert k < |t.layouts| ==> t.BlockAt(all, k);
    }
  }

  lemma SeparatedWithBlock(c: Comparator, all: seq<Pair>, t: Contents, h: Handle, l: Layout)
    requires t.Separated(c, all)
    ensures WithBlock(t, h, l, |all|).Separated(c, all)
  {
    var t' := WithBlock(t, h, l, |all|);
    forall k | 0 <= k < |t'.seps| ensures t'.SepAt(c, all, k) {
      assert t.SepAt(c, all, k);
    }
  }

  lemma WithBlockIndexes(index: seq<Pair>, t: Contents, h: Handle, l: Layout, end: nat)
    requires Indexes(index, t)
    ensures Indexes(index, WithBlock(t, h, l, end))
  {
  }

  lemma BlockAdded(c: Comparator, crc: Crc, file: Bytes, all: seq<Pair>, t: Contents, lastKey: Bytes, data: Bytes,
                   area: Bytes, l: Layout)
    requires Described(c, crc, file, all, t, None, lastKey) && |file| + |data| < WORD64
    requires l.pairs == all[t.End()..] && l.pairs != [] && SizesFit(l.pairs) && IsBlock(data, area, l)
    ensures var h := Handle(|file|, |data|);
      && Described(c, crc, file + data + Trailer(crc, data), all, WithBlock(t, h, l, |all|), Some(h), lastKey)
      && WithBlock(t, h, l, |all|).End() == |all|
  {
    var h := Handle(|file|, |data|);
    var t' := WithBlock(t, h, l, |all|);
    StoredGrows(crc, file, t, data, area, l);
    ShapedWithBlock(all, t, h, l);
    SeparatedWithBlock(c, all, t, h, l);
    hide Contents.Shaped, Stored, KeysIncrease, IsBlock, Contents.Separated, SizesFit;
    MakeDescribed(c, crc, file + data + Trailer(crc, data), all, t', Some(h), lastKey);
  }

  lemma TableDone(c: Comparator, crc: Crc, file: Bytes, index: seq<Pair>, all: seq<Pair>, t: Contents, lastKey: Bytes)
    requires Described(c, crc, file, all, t, None, lastKey) && Indexes(index, t) && t.End() == |all|
    ensures IsTable(c, crc, file, index, all, t)
  {
    hide Contents.Shaped, Contents.Separated, Stored, KeysIncrease;
  }

  lemma TableStays(c: Comparator, crc: Crc, file: Bytes, more: Bytes, index: seq<Pair>, all: seq<Pair>, t: Contents)
    requires IsTable(c, crc, file, index, all, t)
    ensures IsTable(c, crc, file + more, index, all, t)
  {
    hide Contents.Shaped, Contents.Separated, KeysIncrease, Indexes, StoredAt;
    forall k | 0 <= k < |t.handles| ensures StoredAt(crc, file + more, t.handles[k], t.layouts[k]) {
      StoredStays(crc, file, more, t.handles[k], t.layouts[k]);
    }
  }

  class TableBuilder {
    const comparator: Comparator
    const crc: Crc
    const blockSize: nat
    const dataBlock: BlockBuilder
    const indexBlock: BlockBuilder
    var file: Bytes
    var lastKey: Bytes
    var numEntries: nat
    var pendingIndexEntry: bool
    var pendingHandle: Handle
    ghost var all: seq<Pair>
    ghost var t: Contents

    constructor (comparator: Comparator, crc: Crc, blockSize: nat, restartInterval: nat)
      requires comparator.Ok() && restartInterval >= 1
      ensures this.comparator == comparator && this.crc == crc && this.blockSize == blockSize
      ensures Valid() && all == [] && fresh(dataBlock) && fresh(indexBlock) && file == []
    {
      this.comparator, this.crc, this.blockSize := comparator, crc, blockSize;
      dataBlock := new BlockBuilder(restartInterval);
      indexBlock := new BlockBuilder(1);
      file, lastKey, numEntries, pendingIndexEntry, pendingHandle := [], [], 0, false, Handle(0, 0);
      all, t := [], Contents([], [], [], [0]);
    }

    ghost function Pending(): Option<Handle>
      reads this
    {
      if pendingIndexEntry then Some(pendingHandle) else None
    }

    ghost predicate Valid()
      reads this, dataBlock, indexBlock
    {
      && dataBlock != indexBlock && dataBlock.Valid() && indexBlock.Valid() && comparator.Ok()
      && Described(comparator, crc, file, all, t, Pending(), lastKey) && numEntries == |all|
      && Indexes(indexBlock.layout.pairs, t) && t.End() <= |all|
      && dataBlock.layout.pairs == all[t.End()..]
    }

    // Close the index entry of the last block with a key at or after its last key and, unless the table ends here,
    // before the next one.
    method AddIndexEntry(sep: Bytes)
      requires Valid() && pendingIndexEntry
      requires comparator.isKey(sep) && !comparator.before(sep, lastKey) && |sep| < WORD32
      modifies this, indexBlock
      ensures Valid() && !pendingIndexEntry && all == old(all) && file == old(file) && lastKey == old(lastKey)
      ensures t == old(t).(seps := old(t).seps + [sep]) && numEntries == old(numEntries)
      ensures indexBlock.CurrentSizeEstimate() <= old(indexBlock.CurrentSizeEstimate()) + 39 + |sep|
    {
      hide Comparator.Ok, Described, Indexes, BlockBuilder.Valid, HandleBytes;
      IndexStep(comparator, crc, file, all, t, pendingHandle, lastKey, indexBlock.layout.pairs, sep);
      assert dataBlock != indexBlock && dataBlock.Valid() && indexBlock.Valid() && comparator.Ok();
      assert numEntries == |all| && dataBlock.layout.pairs == all[t.End()..];
      hide *;
      var handle := EncodeHandle(pendingHandle);
      indexBlock.Add(sep, handle);
      pendingIndexEntry := false;
      t := t.(seps := t.seps + [sep]);
      MakeValid();
    }

    // Unless a block waits for its index entry, there is no block, or pairs have come after the last one.
    ghost predicate Settled()
      reads this
    {
      !pendingIndexEntry ==> t.seps == [] || t.End() < |all|
    }

    method Add(key: Bytes, value: Bytes)
      requires Valid() && Settled() && comparator.isKey(key) && (all != [] ==> comparator.before(lastKey, key))
      requires dataBlock.CurrentSizeEstimate() + 19 + |key| + |value| < WORD32
      requires |file| + WORD32 < WORD64
      modifies this, dataBlock, indexBlock
      ensures Valid() && Settled() && all == old(all) + [Pair(key, value)]
      // A data block is written as soon as its size reaches the limit, and not before.
      ensures if pendingIndexEntry then dataBlock.layout.pairs == [] && pendingHandle.size >= blockSize
              else dataBlock.layout.pairs != [] && dataBlock.CurrentSizeEstimate() < blockSize
    {
      hide Comparator.Ok, Described, Indexes, BlockBuilder.Valid;
      if pendingIndexEntry {
        SeparatorOk(key);
        var sep := comparator.separator(lastKey, key);
        AddIndexEntry(sep);
      }
      AddPair(key, value);
      if dataBlock.CurrentSizeEstimate() >= blockSize {
        Flush();
      }
    }

    lemma SeparatorOk(key: Bytes)
      requires Valid() && pendingIndexEntry && comparator.isKey(key) && (all != [] ==> comparator.before(lastKey, key))
      ensures var sep := comparator.separator(lastKey, key);
        && comparator.isKey(sep) && !comparator.before(sep, lastKey) && comparator.before(sep, key) && |sep| < WORD32
    {
      hide Comparator.Ok, Described, Indexes, BlockBuilder.Valid;
      LastIsKey(comparator, crc, file, all, t, pendingHandle, lastKey);
      SeparatorLies(comparator, lastKey, key);
    }

    // The pair itself: into the data block, after every index key.
    method AddPair(key: Bytes, value: Bytes)
      requires Valid() && !pendingIndexEntry && comparator.isKey(key) && |key| < WORD32 && |value| < WORD32
      requires all != [] ==> comparator.before(lastKey, key)
      requires |t.seps| > 0 && t.End() == |all| ==> (
        comparator.before(t.seps[|t.seps| - 1], key) && t.seps[|t.seps| - 1] == comparator.separator(lastKey, key))
      modifies this, dataBlock
      ensures Valid() && Settled() && !pendingIndexEntry && all == old(all) + [Pair(key, value)]
      ensures file == old(file) && dataBlock.layout.pairs != []
      ensures dataBlock.CurrentSizeEstimate() <= old(dataBlock.CurrentSizeEstimate()) + 19 + |key| + |value|
    {
      hide Comparator.Ok, Described, Indexes, BlockBuilder.Valid;
      ghost var p := Pair(key, value);
      PairAdded(comparator, crc, file, all, t, lastKey, p);
      AppendAfter(all, t.End(), p);
      assert indexBlock.Valid() && dataBlock != indexBlock && comparator.Ok() && numEntries == |all|;
      assert Indexes(indexBlock.layout.pairs, t) && t.End() <= |all|;
      dataBlock.Add(key, value);
      lastKey, numEntries, all := key, numEntries + 1, all + [p];
      MakeValid();
    }

    // Write the data block out; its index entry waits for the next key.
    method Flush()
      requires Valid() && Settled() && !(pendingIndexEntry && dataBlock.layout.pairs != [])
      requires dataBlock.CurrentSizeEstimate() < WORD32 && |file| + WORD32 < WORD64
      modifies this, dataBlock
      ensures Valid() && all == old(all) && dataBlock.layout.pairs == [] && (all != [] ==> pendingIndexEntry)
      ensures lastKey == old(lastKey) && |file| <= |old(file)| + WORD32 + TRAILER && Settled()
      ensures old(dataBlock.layout.pairs) != [] ==> pendingHandle.size == old(dataBlock.CurrentSizeEstimate())
    {
      hide Comparator.Ok, Described, Indexes, Holds;
      EmptyBuffer(dataBlock.buffer, dataBlock.layout);
      if dataBlock.buffer == [] {
        NoBlocks(comparator, crc, file, all, t, Pending(), lastKey);
        return;
      }
      WriteDataBlock();
    }

    method WriteDataBlock()
      requires Valid() && !pendingIndexEntry && dataBlock.layout.pairs != []
      requires dataBlock.CurrentSizeEstimate() < WORD32 && |file| + WORD32 < WORD64
      modifies this, dataBlock
      ensures Valid() && all == old(all) && dataBlock.layout.pairs == [] && pendingIndexEntry
      ensures lastKey == old(lastKey) && |file| <= |old(file)| + WORD32 + TRAILER
      ensures pendingHandle.size == old(dataBlock.CurrentSizeEstimate())
    {
      hide Comparator.Ok, Described, Indexes, IsBlock, Holds, SizesFit;
      ghost var before, l, area := t, dataBlock.layout, dataBlock.buffer;
      assert indexBlock.Valid() && dataBlock != indexBlock && comparator.Ok() && numEntries == |all|;
      var data := dataBlock.Finish();
      BlockAdded(comparator, crc, file, all, before, lastKey, data, area, l);
      WithBlockIndexes(indexBlock.layout.pairs, before, Handle(|file|, |data|), l, |all|);
      pendingHandle := Handle(|file|, |data|);
      t := WithBlock(before, pendingHandle, l, |all|);
      file := file + data + Trailer(crc, data);
      pendingIndexEntry := true;
      dataBlock.Reset();
      MakeValid();
    }

    // The last block gets its index entry, with a short key at or after its last one.
    method CompleteIndex()
      requires Valid() && dataBlock.layout.pairs == [] && (all != [] ==> pendingIndexEntry)
      requires indexBlock.CurrentSizeEstimate() + 39 + |lastKey| < WORD32
      modifies this, indexBlock
      ensures Valid() && all == old(all) && |file| == |old(file)|
      ensures IsTable(comparator, crc, file, indexBlock.layout.pairs, all, t)
      ensures indexBlock.CurrentSizeEstimate() < WORD32
    {
      hide Comparator.Ok, Described, Indexes, BlockBuilder.Valid, IsTable;
      if pendingIndexEntry {
        LastIsKey(comparator, crc, file, all, t, pendingHandle, lastKey);
        SuccessorLies(comparator, lastKey);
        var sep := comparator.successor(lastKey);
        AddIndexEntry(sep);
      }
      TableDone(comparator, crc, file, indexBlock.layout.pairs, all, t, lastKey);
    }

    // Finish the last block and the index, and write the index.
    method Finish() returns (index: Handle)
      requires Valid() && Settled() && !(pendingIndexEntry && dataBlock.layout.pairs != [])
      requires dataBlock.CurrentSizeEstimate() < WORD32 && |file| + 2 * WORD32 + TRAILER < WORD64
      requires indexBlock.CurrentSizeEstimate() + 39 + |lastKey| < WORD32
      modifies this, dataBlock, indexBlock
      ensures all == old(all)
      ensures IsTable(comparator, crc, file, indexBlock.layout.pairs, all, t)
      ensures StoredAt(crc, file, index, indexBlock.layout)
    {
      hide *;
      TwoBlocks();
      Flush();
      CompleteIndex();
      TwoBlocks();
      index := WriteIndexBlock();
    }

    lemma TwoBlocks()
      requires Valid()
      ensures dataBlock != indexBlock && indexBlock.Valid()
    {
    }

    method WriteIndexBlock() returns (index: Handle)
      requires dataBlock != indexBlock && indexBlock.Valid() && indexBlock.CurrentSizeEstimate() < WORD32
      requires |file| + WORD32 < WORD64 && IsTable(comparator, crc, file, indexBlock.layout.pairs, all, t)
      modifies this`file, indexBlock
      ensures IsTable(comparator, crc, file, indexBlock.layout.pairs, all, t)
      ensures StoredAt(crc, file, index, indexBlock.layout)
    {
      hide IsTable, StoredAt, IsBlock, SizesFit, Trailer;
      ghost var area, l, pairs := indexBlock.buffer, indexBlock.layout, indexBlock.layout.pairs;
      var data := indexBlock.Finish();
      index := Handle(|file|, |data|);
      BlockStored(crc, file, data, area, l);
      TableStays(comparator, crc, file, data + Trailer(crc, data), pairs, all, t);
      assert file + data + Trailer(crc, data) == file + (data + Trailer(crc, data));
      file := file + data + Trailer(crc, data);
    }

    lemma MakeValid()
      requires dataBlock != indexBlock && dataBlock.Valid() && indexBlock.Valid() && comparator.Ok()
      requires Described(comparator, crc, file, all, t, Pending(), lastKey)
      requires numEntries == |all| && Indexes(indexBlock.layout.pairs, t) && t.End() <= |all|
      requires dataBlock.layout.pairs == all[t.End()..]
      ensures Valid()
    {
    }
  }
}
