/** Blocks of prefix-compressed entries with restart points: building one, and iterating over it. */
module Blocks {
  import opened DbFormat
  import opened Coding
  import opened Comparators

  datatype Pair = Pair(key: Bytes, value: Bytes)

  // One entry: how much of the key is shared with the key before, the sizes of the rest, and the rest.
  function EntryBytes(shared: nat, p: Pair): Bytes
    requires shared <= |p.key|
  {
    Varint(shared) + Varint(|p.key| - shared) + Varint(|p.value|) + p.key[shared..] + p.value
  }

  // What a sequence of bytes holds: its entries, where each starts, how much each shares, and which are restarts.
  datatype Layout = Layout(pairs: seq<Pair>, offsets: seq<nat>, shared: seq<nat>, restarts: seq<nat>) {
    predicate Shaped() {
      && |offsets| == |pairs| + 1 && |shared| == |pairs| && offsets[0] == 0
      && (forall i :: 0 <= i < |pairs| ==> offsets[i] < offsets[i + 1])
      && restarts != [] && restarts[0] == 0
      && (forall k :: 0 < k < |restarts| ==> restarts[k] < |pairs|)
      && (forall j, k :: 0 <= j < k < |restarts| ==> restarts[j] < restarts[k])
    }

    function KeyBefore(i: nat): Bytes
      requires i <= |pairs|
    {
      if i == 0 then [] else pairs[i - 1].key
    }

    predicate Shares(i: nat)
      requires Shaped() && i < |pairs|
    {
      && shared[i] <= |KeyBefore(i)| && shared[i] <= |pairs[i].key|
      && KeyBefore(i)[..shared[i]] == pairs[i].key[..shared[i]]
      && (i in restarts ==> shared[i] == 0)
    }
  }

  // A restart at every so many entries.
  ghost predicate Spaced(restarts: seq<nat>, count: nat, restartInterval: nat) {
    && restarts != [] && count <= restarts[|restarts| - 1] + restartInterval
    && forall k :: 0 <= k < |restarts| - 1 ==> restarts[k + 1] == restarts[k] + restartInterval
  }

  // Between restarts as much is shared as the keys have in common.
  ghost predicate SharesMost(l: Layout, i: nat)
    requires i < |l.pairs| == |l.shared|
  {
    l.shared[i] == if i in l.restarts then 0 else Common(l.KeyBefore(i), l.pairs[i].key)
  }

  ghost predicate Compressed(l: Layout, restartInterval: nat) {
    && Spaced(l.restarts, |l.pairs|, restartInterval) && |l.shared| == |l.pairs|
    && forall i :: 0 <= i < |l.pairs| ==> SharesMost(l, i)
  }

  ghost predicate Holds(area: Bytes, l: Layout) {
    && l.Shaped() && l.offsets[|l.pairs|] == |area|
    && forall i :: 0 <= i < |l.pairs| ==> EntryAt(area, l, i)
  }

  ghost predicate EntryAt(area: Bytes, l: Layout, i: nat)
    requires l.Shaped() && i < |l.pairs|
  {
    && l.Shares(i) && l.offsets[i + 1] <= |area|
    && area[l.offsets[i]..l.offsets[i + 1]] == EntryBytes(l.shared[i], l.pairs[i])
  }

  // The restart array, and its length.
  function Points(l: Layout): (r: seq<nat>)
    requires l.Shaped()
    ensures |r| == |l.restarts|
    ensures forall k :: 0 <= k < |r| ==> l.restarts[k] < |l.offsets| && r[k] == l.offsets[l.restarts[k]]
  {
    seq(|l.restarts|, k requires 0 <= k < |l.restarts| => l.offsets[l.restarts[k]])
  }

  // A finished block.
  ghost predicate IsBlock(data: Bytes, area: Bytes, l: Layout) {
    && Holds(area, l) && |data| < WORD32
    && data == area + Words(Points(l)) + Fixed(|l.restarts|, 4)
  }

  ghost predicate SizesFit(pairs: seq<Pair>) {
    forall i :: 0 <= i < |pairs| ==> |pairs[i].key| < WORD32 && |pairs[i].value| < WORD32
  }

  lemma EntryStays(area: Bytes, more: Bytes, l: Layout, l': Layout, i: nat)
    requires l.Shaped() && l'.Shaped() && i < |l.pairs| <= |l'.pairs| && EntryAt(area, l, i)
    requires l.pairs <= l'.pairs && l.offsets <= l'.offsets && l.shared <= l'.shared && (i in l'.restarts ==> i in l.restarts)
    ensures EntryAt(area + more, l', i)
  {
    assert (area + more)[l.offsets[i]..l.offsets[i + 1]] == area[l.offsets[i]..l.offsets[i + 1]];
    assert l'.KeyBefore(i) == l.KeyBefore(i);
  }

  class BlockBuilder {
    const restartInterval: nat
    var buffer: Bytes
    var restarts: seq<nat>
    var counter: nat
    var lastKey: Bytes
    var finished: bool
    ghost var layout: Layout

    constructor (restartInterval: nat)
      requires restartInterval >= 1
      ensures this.restartInterval == restartInterval && Valid() && layout.pairs == []
      ensures CurrentSizeEstimate() == 8
    {
      this.restartInterval := restartInterval;
      buffer, restarts, counter, lastKey, finished := [], [0], 0, [], false;
      layout := Layout([], [0], [], [0]);
    }

    ghost predicate Valid()
      reads this
    {
      && restartInterval >= 1 && counter <= restartInterval && !finished
      && Holds(buffer, layout) && restarts == Points(layout)
      && Compressed(layout, restartInterval)
      && |layout.pairs| == layout.restarts[|layout.restarts| - 1] + counter
      && lastKey == layout.KeyBefore(|layout.pairs|)
      && (layout.pairs == [] ==> counter == 0)
      && SizesFit(layout.pairs)
    }

    method Reset()
      requires restartInterval >= 1
      modifies this
      ensures Valid() && layout.pairs == [] && CurrentSizeEstimate() == 8
    {
      buffer, restarts, counter, lastKey, finished := [], [0], 0, [], false;
      layout := Layout([], [0], [], [0]);
    }

    function CurrentSizeEstimate(): nat
      reads this
    {
      |buffer| + 4 * |restarts| + 4
    }

    method SharedPrefix(key: Bytes) returns (shared: nat)
      ensures shared == Common(lastKey, key)
    {
      var minLength := if |lastKey| < |key| then |lastKey| else |key|;
      shared := 0;
      while shared < minLength && lastKey[shared] == key[shared]
        invariant shared <= minLength && lastKey[..shared] == key[..shared]
      {
        shared := shared + 1;
      }
      CommonIsLongest(lastKey, key, shared);
    }

    method AppendEntry(shared: nat, key: Bytes, value: Bytes)
      requires shared <= |key| < WORD32 && |value| < WORD32
      modifies `buffer
      ensures buffer == old(buffer) + EntryBytes(shared, Pair(key, value))
      ensures |buffer| <= |old(buffer)| + 15 + |key| + |value|
    {
      Varint32Size(shared);
      Varint32Size(|key| - shared);
      Varint32Size(|value|);
      var nonShared := |key| - shared;
      var a := EncodeVarint32(shared);
      var b := EncodeVarint32(nonShared);
      var c := EncodeVarint32(|value|);
      hide Varint;
      buffer := buffer + (a + b + c + key[shared..] + value);
    }

    // How much of the next key to share; none at a restart point, which starts here.
    method PickShared(key: Bytes) returns (shared: nat, ghost starts: seq<nat>, ghost before: nat)
      requires Valid()
      modifies `restarts, `counter
      ensures shared <= |key| && shared <= |lastKey| && lastKey[..shared] == key[..shared]
      ensures counter < restartInterval && before == old(counter)
      ensures (starts == layout.restarts && restarts == old(restarts) && counter == before
               && shared == Common(lastKey, key))
           || (starts == layout.restarts + [|layout.pairs|] && restarts == old(restarts) + [|buffer|]
               && shared == 0 && layout.pairs != [] && counter == 0 && before == restartInterval)
    {
      shared, starts, before := 0, layout.restarts, counter;
      if counter < restartInterval {
        shared := SharedPrefix(key);
      } else {
        starts := starts + [|layout.pairs|];
        restarts := restarts + [|buffer|];
        counter := 0;
      }
    }

    lemma Parts()
      ensures Valid() <==>
        && restartInterval >= 1 && counter <= restartInterval && !finished
        && Holds(buffer, layout) && restarts == Points(layout) && Compressed(layout, restartInterval)
        && |layout.pairs| == layout.restarts[|layout.restarts| - 1] + counter
        && lastKey == layout.KeyBefore(|layout.pairs|)
        && (layout.pairs == [] ==> counter == 0)
        && SizesFit(layout.pairs)
    {
    }

    method Add(key: Bytes, value: Bytes)
      requires Valid() && |key| < WORD32 && |value| < WORD32
      modifies this
      ensures Valid() && layout.pairs == old(layout.pairs) + [Pair(key, value)]
      ensures CurrentSizeEstimate() <= old(CurrentSizeEstimate()) + 19 + |key| + |value|
    {
      ghost var before, area, p := layout, buffer, Pair(key, value);
      Parts();
      hide Holds, EntryBytes, Layout.Shaped, Points, Compressed, Common, SizesFit, BlockBuilder.Valid, Layout.KeyBefore;
      var shared;
      ghost var starts, oldCounter;
      shared, starts, oldCounter := PickShared(key);
      AppendEntry(shared, key, value);
      KeyRebuilt(lastKey, key, shared);
      lastKey := lastKey[..shared] + key[shared..];
      counter := counter + 1;
      layout := Layout(before.pairs + [p], before.offsets + [|buffer|], before.shared + [shared], starts);
      EntryAdded(area, before, p, shared, starts, layout, buffer);
      CompressedGrows(area, before, p, shared, starts, layout, restartInterval, oldCounter);
      SizesGrow(before.pairs, p);
      Parts();
    }

    // Append the restart array and its length.
    method Finish() returns (data: Bytes)
      requires Valid() && CurrentSizeEstimate() < WORD32
      modifies this
      ensures layout == old(layout) && IsBlock(data, old(buffer), layout) && SizesFit(layout.pairs)
      ensures Compressed(layout, restartInterval)
      ensures |data| == old(CurrentSizeEstimate())
    {
      hide Holds;
      ghost var area, points := buffer, restarts;
      for i := 0 to |restarts|
        invariant restarts == points && layout == old(layout) && |points| == |layout.restarts|
        invariant Holds(area, layout)
        invariant buffer == area + Words(points[..i])
      {
        PointsFit(area, layout);
        var word := EncodeFixed32(restarts[i]);
        assert points[..i + 1][..i] == points[..i];
        Assoc(area, Words(points[..i]), word);
        buffer := buffer + word;
      }
      assert points[..|points|] == points;
      var count := EncodeFixed32(|restarts|);
      buffer := buffer + count;
      finished := true;
      data := buffer;
    }
  }

  lemma SizesGrow(pairs: seq<Pair>, p: Pair)
    requires SizesFit(pairs) && |p.key| < WORD32 && |p.value| < WORD32
    ensures SizesFit(pairs + [p])
  {
  }

  lemma SpacedGrows(restarts: seq<nat>, count: nat, restartInterval: nat)
    requires Spaced(restarts, count, restartInterval) && restartInterval >= 1
    ensures count < restarts[|restarts| - 1] + restartInterval ==> Spaced(restarts, count + 1, restartInterval)
    ensures count == restarts[|restarts| - 1] + restartInterval
      ==> Spaced(restarts + [count], count + 1, restartInterval)
  {
  }

  // Appending an entry leaves what is said of those before.
  lemma MostStays(l: Layout, l': Layout, i: nat)
    requires i < |l.pairs| == |l.shared| && |l'.pairs| == |l'.shared| && SharesMost(l, i)
    requires l.pairs <= l'.pairs && l.shared <= l'.shared
    requires l'.restarts == l.restarts || l'.restarts == l.restarts + [|l.pairs|]
    ensures SharesMost(l', i)
  {
    assert l'.KeyBefore(i) == l.KeyBefore(i);
    assert i in l'.restarts <==> i in l.restarts;
  }

  lemma MostShared(l: Layout, l': Layout, p: Pair, shared: nat)
    requires l.Shaped() && l'.pairs == l.pairs + [p] && l'.shared == l.shared + [shared]
    requires (l'.restarts == l.restarts && shared == Common(l.KeyBefore(|l.pairs|), p.key))
          || (l'.restarts == l.restarts + [|l.pairs|] && shared == 0)
    ensures SharesMost(l', |l.pairs|)
  {
    var n := |l.pairs|;
    assert l'.KeyBefore(n) == l.KeyBefore(n);
    if l'.restarts == l.restarts && n in l.restarts {
      assert n == 0;
    }
  }

  lemma ShapedLayout(area: Bytes, l: Layout)
    requires Holds(area, l)
    ensures l.Shaped() && |l.pairs| == |l.shared|
  {
  }

  lemma AllShareMost(l: Layout, l': Layout, p: Pair, shared: nat)
    requires l.Shaped() && l'.pairs == l.pairs + [p] && l'.shared == l.shared + [shared]
    requires forall i :: 0 <= i < |l.pairs| ==> SharesMost(l, i)
    requires (l'.restarts == l.restarts && shared == Common(l.KeyBefore(|l.pairs|), p.key))
          || (l'.restarts == l.restarts + [|l.pairs|] && shared == 0)
    ensures forall i :: 0 <= i < |l'.pairs| ==> SharesMost(l', i)
  {
    MostShared(l, l', p, shared);
    hide SharesMost, Common, Layout.KeyBefore;
    forall i | 0 <= i < |l'.pairs| ensures SharesMost(l', i) {
      if i < |l.pairs| {
        MostStays(l, l', i);
      }
    }
  }

  // Appending an entry, behind a restart or not.
  lemma CompressedGrows(area: Bytes, l: Layout, p: Pair, shared: nat, starts: seq<nat>, l': Layout,
                        restartInterval: nat, counter: nat)
    requires Holds(area, l) && Compressed(l, restartInterval) && restartInterval >= 1
    requires |l.pairs| == l.restarts[|l.restarts| - 1] + counter
    requires l' == Layout(l.pairs + [p], l'.offsets, l.shared + [shared], starts)
    requires (starts == l.restarts && counter < restartInterval && shared == Common(l.KeyBefore(|l.pairs|), p.key))
          || (starts == l.restarts + [|l.pairs|] && counter == restartInterval && shared == 0)
    ensures Compressed(l', restartInterval)
    ensures |l'.pairs| == l'.restarts[|l'.restarts| - 1] + if starts == l.restarts then counter + 1 else 1
  {
    ShapedLayout(area, l);
    hide Holds, Spaced, SharesMost, Common, Layout.KeyBefore;
    AllShareMost(l, l', p, shared);
    hide Layout.Shaped;
    SpacedGrows(l.restarts, |l.pairs|, restartInterval);
    if starts != l.restarts {
      assert l'.restarts[|l'.restarts| - 1] == |l.pairs|;
    }
  }

  lemma KeyRebuilt<T>(last: seq<T>, key: seq<T>, shared: nat)
    requires shared <= |last| && shared <= |key| && last[..shared] == key[..shared]
    ensures last[..shared] + key[shared..] == key
  {
  }

  lemma {:induction false} OffsetsIncrease(l: Layout, i: nat, j: nat)
    requires l.Shaped() && i <= j <= |l.pairs|
    ensures l.offsets[i] <= l.offsets[j] && (i < j ==> l.offsets[i] < l.offsets[j])
  {
    if i < j {
      OffsetsIncrease(l, i, j - 1);
    }
  }

  lemma PointsFit(area: Bytes, l: Layout)
    requires Holds(area, l)
    ensures forall k :: 0 <= k < |Points(l)| ==> Points(l)[k] <= |area|
  {
    forall k | 0 <= k < |Points(l)| ensures Points(l)[k] <= |area| {
      OffsetsIncrease(l, l.restarts[k], |l.pairs|);
    }
  }

  lemma EntryAdded(area: Bytes, l: Layout, p: Pair, shared: nat, starts: seq<nat>, l': Layout, area': Bytes)
    requires Holds(area, l) && shared <= |p.key| && shared <= |l.KeyBefore(|l.pairs|)|
    requires l.KeyBefore(|l.pairs|)[..shared] == p.key[..shared]
    requires area' == area + EntryBytes(shared, p)
    requires starts == l.restarts || (starts == l.restarts + [|l.pairs|] && shared == 0 && l.pairs != [])
    requires l' == Layout(l.pairs + [p], l.offsets + [|area'|], l.shared + [shared], starts)
    ensures Holds(area', l') && l'.KeyBefore(|l'.pairs|) == p.key
    ensures Points(l') == if starts == l.restarts then Points(l) else Points(l) + [|area|]
  {
    var n := |l.pairs|;
    assert |EntryBytes(shared, p)| > 0;
    assert l'.Shaped();
    forall i | 0 <= i < |l'.pairs| ensures EntryAt(area', l', i) {
      if i < n {
        EntryStays(area, EntryBytes(shared, p), l, l', i);
      } else {
        assert area'[l'.offsets[n]..l'.offsets[n + 1]] == EntryBytes(shared, p);
      }
    }
  }
}
