/** Reading a table: point lookups in one block, and the two-level iterator over index and data blocks. */
module Tables {
  import opened DbFormat
  import opened Coding
  import opened Comparators
  import opened LogFormat
  import opened Blocks
  import opened BlockIter
  import opened TableBuilding

  // ---- What the index says about the pairs of a table -------------------------------------------------------------

  lemma HandlesDiffer(a: Handle, b: Handle)
    requires HandleFits(a) && HandleFits(b) && HandleBytes(a) == HandleBytes(b)
    ensures a == b
  {
    Varint64RoundTrip(a.offset, Varint(a.size));
    Varint64RoundTrip(b.offset, Varint(b.size));
    assert HandleBytes(a)[|Varint(a.offset)|..] == Varint(a.size);
    assert HandleBytes(b)[|Varint(b.offset)|..] == Varint(b.size);
    Varint64RoundTrip(a.size, []);
    Varint64RoundTrip(b.size, []);
    assert Varint(a.size) + [] == Varint(a.size) && Varint(b.size) + [] == Varint(b.size);
  }

  // A block's handle names it.
  lemma HandleNames(crc: Crc, file: Bytes, t: Contents, j: nat, k: nat)
    requires Stored(crc, file, t.handles, t.layouts) && j < |t.handles| && k < |t.handles|
    requires HandleBytes(t.handles[j]) == HandleBytes(t.handles[k])
    ensures j == k
  {
    assert StoredAt(crc, file, t.handles[j], t.layouts[j]) && StoredAt(crc, file, t.handles[k], t.layouts[k]);
    hide StoredAt, HandleBytes;
    HandleFitsAt(crc, file, t.handles[j], t.layouts[j]);
    HandleFitsAt(crc, file, t.handles[k], t.layouts[k]);
    HandlesDiffer(t.handles[j], t.handles[k]);
  }

  lemma HandleFitsAt(crc: Crc, file: Bytes, h: Handle, l: Layout)
    requires StoredAt(crc, file, h, l)
    ensures HandleFits(h)
  {
  }

  lemma IndexIncreases(c: Comparator, all: seq<Pair>, t: Contents, index: seq<Pair>)
    requires c.Ok() && KeysIncrease(c, all) && t.Shaped(all) && t.Separated(c, all) && |t.seps| == |t.layouts|
    requires Indexes(index, t)
    ensures Increasing(c, index)
  {
    hide Comparator.Ok;
    forall j, k | 0 <= j < k < |index| ensures c.before(index[j].key, index[k].key) {
      SepsIncrease(c, all, t, j, k);
    }
  }

  lemma {:induction false} BoundsIncrease(all: seq<Pair>, t: Contents, j: nat, k: nat)
    requires t.Shaped(all) && j <= k <= |t.layouts|
    ensures t.bounds[j] <= t.bounds[k] <= |all| && (j < k ==> t.bounds[j] < t.bounds[k])
  {
    if j < k {
      assert t.BlockAt(all, k - 1);
      BoundsIncrease(all, t, j, k - 1);
    } else if k > 0 {
      assert t.BlockAt(all, k - 1);
    }
  }

  lemma SepsIncrease(c: Comparator, all: seq<Pair>, t: Contents, j: nat, k: nat)
    requires c.Ok() && KeysIncrease(c, all) && t.Shaped(all) && t.Separated(c, all)
    requires j < k < |t.seps| && |t.seps| == |t.layouts|
    ensures c.before(t.seps[j], t.seps[k])
  {
    hide Comparator.Ok;
    assert t.SepAt(c, all, j) && t.SepAt(c, all, k) && t.BlockAt(all, k);
    BoundsIncrease(all, t, j + 1, k);
    var x := all[t.bounds[k]].key;
    assert c.before(t.seps[j], x) && !c.before(t.seps[k], x);
    NotBefore(c, t.seps[j], x, t.seps[k]);
  }

  // a < x <= b gives a < b; x and b are keys.
  lemma NotBefore(c: Comparator, a: Bytes, x: Bytes, b: Bytes)
    requires c.Ok() && c.isKey(x) && c.isKey(b) && c.before(a, x) && !c.before(b, x)
    ensures c.before(a, b)
  {
  }

  // The index key found for a target, and the position found in its block, give the position in the table.
  lemma SeekFits(c: Comparator, all: seq<Pair>, t: Contents, index: seq<Pair>, target: Bytes, p: nat, q: nat)
    requires c.Ok() && c.isKey(target) && KeysIncrease(c, all) && t.Shaped(all) && t.Separated(c, all)
    requires |t.seps| == |t.layouts| && Indexes(index, t) && t.End() == |all|
    requires IsLowerBound(c, index, target, p)
    requires p < |t.layouts| ==> IsLowerBound(c, t.layouts[p].pairs, target, q)
    ensures IsLowerBound(c, all, target, if p < |t.layouts| then t.bounds[p] + q else |all|)
  {
    assert |t.bounds| == |t.layouts| + 1 && t.bounds[0] == 0 && t.End() == t.bounds[|t.layouts|];
    hide Comparator.Ok, KeysIncrease, Contents.Shaped, Contents.Separated;
    var g := if p < |t.layouts| then t.bounds[p] + q else |all|;
    BoundsIncrease(all, t, p, |t.layouts|);
    if p < |t.layouts| {
      InBlock(all, t, p);
    }
    forall i | 0 <= i < g ensures c.before(all[i].key, target) {
      if i < t.bounds[p] {
        BeforeBlock(c, all, t, p, i, target);
      } else {
        assert all[i] == t.layouts[p].pairs[i - t.bounds[p]];
      }
    }
    if g < |all| {
      if q < |t.layouts[p].pairs| {
        assert all[g] == t.layouts[p].pairs[q];
      } else {
        AfterBlock(c, all, t, p, target);
      }
    }
  }

  lemma InBlock(all: seq<Pair>, t: Contents, p: nat)
    requires t.Shaped(all) && p < |t.layouts|
    ensures t.bounds[p] + |t.layouts[p].pairs| == t.bounds[p + 1] <= |all|
    ensures forall i :: t.bounds[p] <= i < t.bounds[p + 1] ==> all[i] == t.layouts[p].pairs[i - t.bounds[p]]
  {
    assert t.BlockAt(all, p);
  }

  lemma BeforeBlock(c: Comparator, all: seq<Pair>, t: Contents, p: nat, i: nat, target: Bytes)
    requires c.Ok() && c.isKey(target) && KeysIncrease(c, all) && t.Shaped(all) && t.Separated(c, all)
    requires 0 < p <= |t.seps| == |t.layouts| && i < t.bounds[p] <= |all| && c.before(t.seps[p - 1], target)
    ensures c.before(all[i].key, target)
  {
    assert t.SepAt(c, all, p - 1);
    Between(c, all[i].key, t.seps[p - 1], target);
  }

  lemma Between(c: Comparator, x: Bytes, sep: Bytes, target: Bytes)
    requires c.Ok() && c.isKey(x) && c.isKey(sep) && !c.before(sep, x) && c.before(sep, target)
    ensures c.before(x, target)
  {
  }

  lemma AfterBlock(c: Comparator, all: seq<Pair>, t: Contents, p: nat, target: Bytes)
    requires c.Ok() && c.isKey(target) && KeysIncrease(c, all) && t.Shaped(all) && t.Separated(c, all)
    requires p < |t.seps| == |t.layouts| && t.bounds[p + 1] < |all| && !c.before(t.seps[p], target)
    ensures !c.before(all[t.bounds[p + 1]].key, target)
  {
    assert t.SepAt(c, all, p);
    Past(c, t.seps[p], all[t.bounds[p + 1]].key, target);
  }

  lemma Past(c: Comparator, sep: Bytes, x: Bytes, target: Bytes)
    requires c.Ok() && !c.before(sep, target) && c.before(sep, x)
    ensures !c.before(x, target)
  {
  }

  // ---- Reading blocks -------------------------------------------------------------------------------------------------------

  // The block at a handle, unless its checksum is verified and wrong.
  method ReadBlock(crc: Crc, file: Bytes, h: Handle, verify: bool) returns (r: Option<Bytes>)
    ensures forall l :: StoredAt(crc, file, h, l) ==> r == Some(file[h.offset..h.offset + h.size])
  {
    forall l | StoredAt(crc, file, h, l)
      ensures h.offset + h.size + TRAILER <= |file|
      ensures var data, n := file[h.offset..h.offset + h.size], h.offset + h.size;
        file[n] == 0 && Word32(file, n + 1) == Mask(crc.value(data + [0]))
    {
      TrailerStored(crc, file, h, l);
    }
    var n := h.offset + h.size;
    if |file| < n + TRAILER {
      return None;
    }
    var data := file[h.offset..n];
    if verify {
      var expected := Unmask(Word32(file, n + 1));
      UnmaskMask(crc.value(data + [0]));
      if crc.value(data + [file[n]]) != expected {
        return None;
      }
    }
    if file[n] != 0 {
      return None;
    }
    r := Some(data);
  }

  lemma TrailerStored(crc: Crc, file: Bytes, h: Handle, l: Layout)
    requires StoredAt(crc, file, h, l)
    ensures h.offset + h.size + TRAILER <= |file|
    ensures var data, n := file[h.offset..h.offset + h.size], h.offset + h.size;
      file[n] == 0 && Word32(file, n + 1) == Mask(crc.value(data + [0]))
  {
    var data, n := file[h.offset..h.offset + h.size], h.offset + h.size;
    var sum := Mask(crc.value(data + [0]));
    hide IsBlock, Mask, SizesFit;
    var trailer := file[n..n + TRAILER];
    assert trailer == [0] + Fixed(sum, 4);
    assert file[n] == trailer[0];
    assert file == file[..n + 1] + Fixed(sum, 4) + file[n + TRAILER..] by {
      assert file == file[..n + 1] + file[n + 1..n + TRAILER] + file[n + TRAILER..];
      assert file[n + 1..n + TRAILER] == trailer[1..];
    }
    Word32Stored(file[..n + 1], sum, file[n + TRAILER..]);
  }

  // An opened table: the file, and its index block.
  // `p` is the first pair whose key is not before `k`.
  ghost predicate FirstFrom(c: Comparator, all: seq<Pair>, k: Bytes, p: Pair) {
    p in all && !c.before(p.key, k) && forall q <- all :: !c.before(q.key, k) ==> !c.before(q.key, p.key)
  }

  predicate SameUser(a: Bytes, b: Bytes) {
    |a| >= 8 && |b| >= 8 && UserPart(a) == UserPart(b)
  }

  lemma BoundIsFirst(c: Comparator, all: seq<Pair>, k: Bytes, g: nat)
    requires c.Ok() && KeysIncrease(c, all) && IsLowerBound(c, all, k, g)
    ensures g < |all| ==> FirstFrom(c, all, k, all[g])
    ensures forall p :: FirstFrom(c, all, k, p) ==> g < |all| && p == all[g]
  {
    forall i | g <= i < |all| ensures i == g || c.before(all[g].key, all[i].key) {
    }
    if g < |all| {
      forall q | q in all && !c.before(q.key, k) ensures !c.before(q.key, all[g].key) {
        var i :| 0 <= i < |all| && all[i] == q;
        UserOrder(c, all[g].key, q.key, k);
      }
    }
    forall p | FirstFrom(c, all, k, p) ensures g < |all| && p == all[g] {
      var i :| 0 <= i < |all| && all[i] == p;
      assert i >= g;
    }
  }

  class Table {
    const comparator: Comparator
    const crc: Crc
    const verify: bool
    const file: Bytes
    const indexHandle: Handle
    ghost const index: Layout
    ghost const all: seq<Pair>
    ghost const t: Contents

    constructor (comparator: Comparator, crc: Crc, verify: bool, file: Bytes, indexHandle: Handle, ghost index: Layout,
                 ghost all: seq<Pair>, ghost t: Contents)
      requires comparator.Ok() && IsTable(comparator, crc, file, index.pairs, all, t)
      requires StoredAt(crc, file, indexHandle, index)
      ensures Ok() && this.comparator == comparator && this.all == all && this.t == t && this.index == index
    {
      this.comparator, this.crc, this.verify, this.file := comparator, crc, verify, file;
      this.indexHandle, this.index, this.all, this.t := indexHandle, index, all, t;
    }

    ghost predicate Ok() {
      && comparator.Ok() && IsTable(comparator, crc, file, index.pairs, all, t)
      && StoredAt(crc, file, indexHandle, index)
    }

    // An iterator over the block at a handle.
    method OpenBlock(h: Handle, ghost l: Layout) returns (it: Iter)
      requires StoredAt(crc, file, h, l)
      ensures fresh(it) && it.Ok() && it.layout == l && it.comparator == comparator
    {
      var data := ReadBlock(crc, file, h, verify);
      it := new Iter(comparator, data.value, data.value[..l.offsets[|l.pairs|]], l);
    }

    method NewIndexIterator() returns (it: Iter)
      requires Ok()
      ensures fresh(it) && it.Ok() && it.layout == index && it.comparator == comparator
    {
      hide IsTable, StoredAt, Comparator.Ok;
      it := OpenBlock(indexHandle, index);
    }

    // The block that the k-th index entry names.
    method BlockReader(handle: Bytes, ghost k: nat) returns (it: Iter)
      requires Ok() && k < |t.handles| && handle == HandleBytes(t.handles[k])
      ensures k < |t.layouts| && fresh(it) && it.Ok() && it.layout == t.layouts[k] && it.comparator == comparator
    {
      assert StoredAt(crc, file, t.handles[k], t.layouts[k]);
      HandleFitsAt(crc, file, t.handles[k], t.layouts[k]);
      hide IsTable, StoredAt, Comparator.Ok;
      var h := DecodeHandle(handle);
      it := OpenBlock(h.value, t.layouts[k]);
    }

    // What the index holds.
    lemma IndexFacts()
      requires Ok()
      ensures |index.pairs| == |t.seps| == |t.layouts| == |t.handles| && |t.bounds| == |t.layouts| + 1
      ensures Increasing(comparator, index.pairs) && t.bounds[0] == 0 && t.bounds[|t.layouts|] == |all|
      ensures forall k :: 0 <= k < |index.pairs| ==> index.pairs[k].value == HandleBytes(t.handles[k])
    {
      hide Comparator.Ok;
      IndexIncreases(comparator, all, t, index.pairs);
    }

    // `k` lies after the pair before position g, yet not after the index key between that pair and the one at g.
    ghost predicate InGap(k: Bytes, g: nat) {
      && 0 < g < |all| && comparator.before(all[g - 1].key, k)
      && !comparator.before(comparator.separator(all[g - 1].key, all[g].key), k)
    }

    // The first pair at or after `k`, looked for in one block only; it is missed only where `k` lies in a gap.
    method InternalGet(k: Bytes) returns (r: Option<Pair>, ghost g: nat)
      requires Ok() && comparator.isKey(k)
      ensures r.Some? ==> FirstFrom(comparator, all, k, r.value)
      ensures IsLowerBound(comparator, all, k, g)
      ensures r.Some? ==> g < |all| && r.value == all[g]
      ensures r.None? ==> g == |all| || InGap(k, g)
    {
      hide *;
      IndexFacts();
      OkFacts();
      var iter := NewIndexIterator();
      iter.Seek(k);
      iter.ValidMeansBefore();
      r := None;
      g := |all|;
      if iter.Valid() {
        var block := BlockReader(iter.Value(), iter.pos);
        BlockIncreases(iter.pos);
        block.Seek(k);
        block.ValidMeansBefore();
        g := t.bounds[iter.pos] + block.pos;
        if block.Valid() {
          r := Some(Pair(block.Key(), block.Value()));
        }
        Found(k, iter.pos, block.pos);
      } else {
        PastTheIndex(k);
      }
      BoundIsFirst(comparator, all, k, g);
    }

    lemma OkFacts()
      requires Ok()
      ensures comparator.Ok() && KeysIncrease(comparator, all)
    {
    }

    lemma PastTheIndex(k: Bytes)
      requires Ok() && comparator.isKey(k) && IsLowerBound(comparator, index.pairs, k, |index.pairs|)
      ensures IsLowerBound(comparator, all, k, |all|)
    {
      hide Comparator.Ok;
      SeekFits(comparator, all, t, index.pairs, k, |index.pairs|, 0);
    }

    lemma Found(k: Bytes, p: nat, q: nat)
      requires Ok() && comparator.isKey(k) && IsLowerBound(comparator, index.pairs, k, p) && p < |t.layouts|
      requires IsLowerBound(comparator, t.layouts[p].pairs, k, q)
      ensures p + 1 < |t.bounds| && IsLowerBound(comparator, all, k, t.bounds[p] + q)
      ensures q <= |t.layouts[p].pairs| && t.bounds[p] + q <= |all|
      ensures q < |t.layouts[p].pairs| ==> t.bounds[p] + q < |all| && t.layouts[p].pairs[q] == all[t.bounds[p] + q]
      ensures q == |t.layouts[p].pairs| && t.bounds[p] + q < |all| ==> InGap(k, t.bounds[p] + q)
    {
      hide Comparator.Ok;
      SeekFits(comparator, all, t, index.pairs, k, p, q);
      InBlock(all, t, p);
      assert t.SepAt(comparator, all, p) && t.BlockAt(all, p);
      hide KeysIncrease, Contents.Separated, Contents.Shaped, Stored;
      assert index.pairs[p].key == t.seps[p];
    }

    lemma BlockIncreases(p: nat)
      requires Ok() && p < |t.layouts|
      ensures Increasing(comparator, t.layouts[p].pairs)
    {
      InBlock(all, t, p);
      hide Comparator.Ok;
      var b := t.layouts[p].pairs;
      forall i, j | 0 <= i < j < |b| ensures comparator.before(b[i].key, b[j].key) {
        assert b[i] == all[t.bounds[p] + i] && b[j] == all[t.bounds[p] + j];
      }
    }
  }

  // Over internal keys a gap hides nothing: the pair after it has another user key. So looking in one block suffices.
  lemma GapHidesNothing(user: Comparator, a: Bytes, b: Bytes, k: Bytes)
    requires user.Ok() && |a| >= 8 && |b| >= 8 && |k| >= 8 && user.isKey(UserPart(a)) && user.isKey(UserPart(b))
    requires InternalBefore(user, a, b) && InternalBefore(user, a, k)
    requires !InternalBefore(user, InternalSeparator(user, a, b), k)
    ensures UserPart(b) != UserPart(k)
  {
    hide Comparator.Ok, Unfixed, Fixed;
    var ua, ub := UserPart(a), UserPart(b);
    var tmp := user.separator(ua, ub);
    ShortenedParts(tmp);
    UserSeparator(user, ua, ub);
  }

  method PointGet(table: Table, ghost user: Comparator, k: Bytes) returns (r: Option<Pair>)
    requires table.Ok() && user.Ok() && table.comparator == InternalKeyComparator(user) && table.comparator.isKey(k)
    ensures r.Some? ==> FirstFrom(table.comparator, table.all, k, r.value)
    ensures forall p :: FirstFrom(table.comparator, table.all, k, p) && SameUser(p.key, k) ==> r == Some(p)
  {
    hide Comparator.Ok;
    ghost var g: nat;
    r, g := table.InternalGet(k);
    table.OkFacts();
    BoundIsFirst(table.comparator, table.all, k, g);
    hide IsLowerBound, StoredAt, Stored, Contents.Separated, Contents.Shaped;
    if g < |table.all| {
      assert table.comparator.isKey(table.all[g].key);
      if r.None? {
        var a, b := table.all[g - 1].key, table.all[g].key;
        assert table.comparator.isKey(a) && table.comparator.before(a, b);
        GapHidesNothing(user, a, b, k);
      }
    }
  }

  // ---- The two-level iterator -------------------------------------------------------------------------------------------------

  class TwoLevelIterator {
    const table: Table
    const index: Iter
    var data: Iter?
    var dataHandle: Bytes
    // Which block `data` reads.
    ghost var block: nat
    // The position in the table; |all| when not valid.
    ghost var at: nat

    constructor (table: Table)
      requires table.Ok()
      ensures this.table == table && Ok() && at == |table.all| && fresh(index) && data == null
    {
      hide Table.Ok;
      var it := table.NewIndexIterator();
      this.table, index, data, dataHandle := table, it, null, [];
      block, at := 0, |table.all|;
    }

    ghost predicate Base()
      reads this, index, data
    {
      && table.Ok() && index.Ok() && index.layout == table.index && index.comparator == table.comparator
      && (data != null ==> data != index && data.Ok() && BlockOpen(data, block) && dataHandle == HandleBytes(table.t.handles[block]))
    }

    ghost predicate BlockOpen(it: Iter, k: nat) {
      && k < |table.t.layouts| && k < |table.t.handles| && k < |table.t.bounds|
      && it.layout == table.t.layouts[k] && it.comparator == table.comparator
    }

    // The data iterator reads the block the index iterator is at; there is none past the last block.
    ghost predicate InStep()
      reads this, index, data
    {
      && (data == null <==> index.pos >= |table.t.layouts|)
      && (data != null ==> block == index.pos)
    }

    ghost predicate Ok()
      reads this, index, data
    {
      && Base() && at <= |table.all|
      && (data == null ==> at == |table.all|)
      && (data != null ==>
            && InStep() && data.pos < |data.layout.pairs| && block < |table.t.bounds|
            && at == table.t.bounds[block] + data.pos && at < |table.all|)
    }

    predicate Valid()
      reads this, data
    {
      data != null && data.Valid()
    }

    // Open the block of the current index entry, unless it is open already.
    method InitDataBlock()
      requires Base()
      modifies this`data, this`dataHandle, this`block
      ensures Base() && InStep() && (data == old(data) || data == null || fresh(data))
    {
      hide Table.Ok, Iter.Ok, Increasing, HandleBytes;
      table.IndexFacts();
      index.ValidMeansBefore();
      if !index.Valid() {
        data := null;
      } else {
        var handle := index.Value();
        if data != null && handle == dataHandle {
          SameBlock(index.pos);
        } else {
          OpenData(handle);
        }
      }
    }

    method OpenData(handle: Bytes)
      requires Base() && index.pos < |table.t.layouts| == |table.t.handles| < |table.t.bounds|
      requires handle == HandleBytes(table.t.handles[index.pos])
      modifies this`data, this`dataHandle, this`block
      ensures Base() && InStep() && data != null && fresh(data)
    {
      hide Table.Ok, Iter.Ok, HandleBytes;
      data := table.BlockReader(handle, index.pos);
      dataHandle, block := handle, index.pos;
    }

    // The data iterator stands at position g of the table, or at the end of a block that ends there.
    ghost predicate AtForward(g: nat)
      reads this, index, data
    {
      && InStep() && g <= |table.all|
      && (data == null ==> g == |table.all|)
      && (data != null ==> block < |table.t.bounds| && data.pos <= |data.layout.pairs| && g == table.t.bounds[block] + data.pos)
    }

    // The data iterator stands just before position g, or before the start of a block that starts there.
    ghost predicate AtBackward(g: nat)
      reads this, index, data
    {
      && InStep() && g <= |table.all|
      && (data == null ==> g == 0)
      && (data != null ==>
            && block < |table.t.bounds| && data.pos <= |data.layout.pairs|
            && g == table.t.bounds[block] + if data.pos < |data.layout.pairs| then data.pos + 1 else 0)
    }

    lemma BlockBounds()
      requires Base() && data != null
      ensures block + 1 < |table.t.bounds| && block < |table.t.layouts|
      ensures table.t.bounds[block] + |data.layout.pairs| == table.t.bounds[block + 1] <= |table.all|
      ensures table.t.bounds[0] == 0 && (block + 1 == |table.t.layouts| ==> table.t.bounds[block + 1] == |table.all|)
      ensures data.Valid() <==> data.pos < |data.layout.pairs|
      ensures data.pos <= |data.layout.pairs|
    {
      hide Comparator.Ok, Iter.Ok;
      table.IndexFacts();
      InBlock(table.all, table.t, block);
      data.ValidMeansBefore();
      PosBounded(data);
    }

    lemma PosBounded(it: Iter)
      requires it.Ok()
      ensures it.pos <= |it.layout.pairs|
    {
    }

    lemma IndexBounds()
      requires Base()
      ensures |table.index.pairs| == |table.t.layouts| && index.pos <= |table.t.layouts|
      ensures index.Valid() <==> index.pos < |table.t.layouts|
      ensures |table.t.bounds| == |table.t.layouts| + 1 && table.t.bounds[0] == 0
      ensures table.t.bounds[|table.t.layouts|] == |table.all|
    {
      hide Comparator.Ok, Iter.Ok, Table.Ok;
      table.IndexFacts();
      index.ValidMeansBefore();
      PosBounded(index);
    }

    method SkipEmptyDataBlocksForward(ghost g: nat)
      requires Base() && AtForward(g)
      modifies this, index, data
      ensures Ok() && at == g && (data == old(data) || data == null || fresh(data))
    {
      hide Table.Ok, Iter.Ok;
      while data == null || !data.Valid()
        invariant Base() && AtForward(g) && (data == old(data) || data == null || fresh(data))
        decreases |table.t.layouts| - index.pos
      {
        IndexBounds();
        if !index.Valid() {
          data := null;
          at := |table.all|;
          return;
        }
        BlockBounds();
        index.Next();
        InitDataBlock();
        if data != null {
          data.SeekToFirst();
        }
        IndexBounds();
      }
      BlockBounds();
      at := g;
    }

    method SkipEmptyDataBlocksBackward(ghost g: nat)
      requires Base() && AtBackward(g)
      modifies this, index, data
      ensures Ok() && at == (if g == 0 then |table.all| else g - 1) && (data == old(data) || data == null || fresh(data))
    {
      hide Table.Ok, Iter.Ok;
      while data == null || !data.Valid()
        invariant Base() && AtBackward(g) && (data == old(data) || data == null || fresh(data))
        decreases data != null, index.pos
      {
        IndexBounds();
        if !index.Valid() {
          data := null;
          at := |table.all|;
          return;
        }
        BlockBounds();
        index.Prev();
        InitDataBlock();
        if data != null {
          data.SeekToLast();
          BlockBounds();
        }
        IndexBounds();
      }
      BlockBounds();
      at := g - 1;
    }

    method SeekToFirst()
      requires Ok()
      modifies this, index, data
      ensures Ok() && at == 0 && (data == old(data) || data == null || fresh(data))
    {
      hide Table.Ok, Iter.Ok;
      index.SeekToFirst();
      InitDataBlock();
      IndexBounds();
      if data != null {
        data.SeekToFirst();
      }
      SkipEmptyDataBlocksForward(0);
    }

    method SeekToLast()
      requires Ok()
      modifies this, index, data
      ensures Ok() && at == (if table.all == [] then 0 else |table.all| - 1)
      ensures data == old(data) || data == null || fresh(data)
    {
      hide Table.Ok, Iter.Ok;
      index.SeekToLast();
      InitDataBlock();
      IndexBounds();
      if data != null {
        data.SeekToLast();
        BlockBounds();
      }
      SkipEmptyDataBlocksBackward(|table.all|);
    }

    method Seek(target: Bytes)
      requires Ok() && table.comparator.isKey(target)
      modifies this, index, data
      ensures Ok() && IsLowerBound(table.comparator, table.all, target, at)
      ensures data == old(data) || data == null || fresh(data)
    {
      hide Table.Ok, Iter.Ok, IsLowerBound, Increasing, Comparator.Ok;
      table.IndexFacts();
      table.OkFacts();
      index.Seek(target);
      InitDataBlock();
      IndexBounds();
      ghost var g := |table.all|;
      if data != null {
        table.BlockIncreases(block);
        data.Seek(target);
        BlockBounds();
        table.Found(target, block, data.pos);
        g := table.t.bounds[block] + data.pos;
      } else {
        table.PastTheIndex(target);
      }
      SkipEmptyDataBlocksForward(g);
    }

    method Next()
      requires Ok() && Valid()
      modifies this, index, data
      ensures Ok() && at == old(at) + 1 && (data == old(data) || data == null || fresh(data))
    {
      hide Table.Ok, Iter.Ok;
      data.Next();
      SkipEmptyDataBlocksForward(at + 1);
    }

    method Prev()
      requires Ok() && Valid()
      modifies this, index, data
      ensures Ok() && at == (if old(at) == 0 then |table.all| else old(at) - 1)
      ensures data == old(data) || data == null || fresh(data)
    {
      hide Table.Ok, Iter.Ok;
      data.Prev();
      SkipEmptyDataBlocksBackward(at);
    }

    // The pair at the current position.
    function Current(): (p: Pair)
      requires Ok() && Valid()
      reads this, index, data
      ensures at < |table.all| && p == table.all[at]
    {
      CurrentIsAt();
      Pair(data.Key(), data.Value())
    }

    lemma CurrentIsAt()
      requires Ok() && data != null
      ensures data.Ok() && data.Valid() && at < |table.all| && data.layout.pairs[data.pos] == table.all[at]
    {
      hide Comparator.Ok, Iter.Ok;
      BlockBounds();
      InBlock(table.all, table.t, block);
    }

    lemma ValidMeansBefore()
      requires Ok()
      ensures Valid() <==> at < |table.all|
    {
      hide Iter.Ok, Table.Ok;
      if data != null {
        BlockBounds();
      }
    }

    lemma SameBlock(k: nat)
      requires Base() && data != null && k < |table.t.handles| && dataHandle == HandleBytes(table.t.handles[k])
      ensures block == k
    {
      hide StoredAt, HandleBytes, Comparator.Ok;
      HandleNames(table.crc, table.file, table.t, block, k);
    }
  }

  // A table reads back as exactly the pairs that were added.
  method ReadTable(table: Table) returns (pairs: seq<Pair>)
    requires table.Ok()
    ensures pairs == table.all
  {
    hide *;
    var it := new TwoLevelIterator(table);
    it.SeekToFirst();
    it.ValidMeansBefore();
    pairs := [];
    while it.Valid()
      invariant it.Ok() && fresh(it) && fresh(it.index) && (it.data == null || fresh(it.data))
      invariant it.table == table && it.at <= |table.all| && pairs == table.all[..it.at]
      invariant it.Valid() <==> it.at < |table.all|
      decreases |table.all| - it.at
    {
      pairs := pairs + [it.Current()];
      it.Next();
      it.ValidMeansBefore();
    }
  }
}
