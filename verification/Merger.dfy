/** The merging iterator: several sorted children seen as one sorted sequence, in both directions. */
module Merger {
  import opened DbFormat
  import opened Versions
  import opened Iterators

  datatype Direction = Forward | Reverse

  // `merged` is the sorted union of the children, whose keys are distinct.
  ghost predicate IsMerge(lists: seq<seq<Entry>>, merged: seq<Entry>) {
    && (forall i :: 0 <= i < |lists| ==> Sorted(lists[i]))
    && Sorted(merged)
    && (forall i, e :: 0 <= i < |lists| && e in lists[i] ==> e in merged)
    && (forall e :: e in merged ==> exists i :: 0 <= i < |lists| && e in lists[i])
    && (forall i, j, d, e :: 0 <= i < j < |lists| && d in lists[i] && e in lists[j] ==> d.key != e.key)
  }

  // A list read forward from merged[c]: at its first entry at or after that one.
  ghost predicate AtCut(es: seq<Entry>, p: nat, merged: seq<Entry>, c: nat)
    requires c <= |merged|
  {
    p <= |es| &&
    if c == |merged| then p == |es| else
    && (forall j :: 0 <= j < p ==> Less(es[j].key, merged[c].key))
    && (forall j :: p <= j < |es| ==> !Less(es[j].key, merged[c].key))
  }

  // A list read backward from before merged[c]: at its last entry before that one, or not valid.
  ghost predicate AtBack(es: seq<Entry>, p: nat, merged: seq<Entry>, c: nat)
    requires c <= |merged|
  {
    p <= |es| &&
    if c == |merged| then p == Last(es) else
    && (forall j :: 0 <= j < |es| && (j <= p < |es|) ==> Less(es[j].key, merged[c].key))
    && (forall j :: 0 <= j < |es| && !(j <= p < |es|) ==> !Less(es[j].key, merged[c].key))
  }

  lemma IndexIn(lists: seq<seq<Entry>>, merged: seq<Entry>, i: nat, j: nat) returns (m: nat)
    requires IsMerge(lists, merged) && i < |lists| && j < |lists[i]|
    ensures m < |merged| && merged[m] == lists[i][j]
  {
    assert lists[i][j] in merged;
    m :| 0 <= m < |merged| && merged[m] == lists[i][j];
  }

  lemma HolderOf(lists: seq<seq<Entry>>, merged: seq<Entry>, c: nat) returns (i: nat, k: nat)
    requires IsMerge(lists, merged) && c < |merged|
    ensures i < |lists| && k < |lists[i]| && lists[i][k] == merged[c]
    ensures forall j, e :: 0 <= j < |lists| && j != i && e in lists[j] ==> e.key != merged[c].key
  {
    assert merged[c] in merged;
    i :| 0 <= i < |lists| && merged[c] in lists[i];
    k :| 0 <= k < |lists[i]| && lists[i][k] == merged[c];
  }

  // At a cut, the child that holds merged[c] is at it, and every other valid child is after it.
  lemma CutHead(lists: seq<seq<Entry>>, merged: seq<Entry>, ps: seq<nat>, c: nat) returns (i: nat)
    requires IsMerge(lists, merged) && |ps| == |lists| && c < |merged|
    requires forall i :: 0 <= i < |lists| ==> AtCut(lists[i], ps[i], merged, c)
    ensures i < |lists| && ps[i] < |lists[i]| && lists[i][ps[i]] == merged[c]
    ensures forall j :: 0 <= j < |lists| && ps[j] < |lists[j]| && j != i ==> Less(merged[c].key, lists[j][ps[j]].key)
  {
    var k;
    i, k := HolderOf(lists, merged, c);
    assert AtCut(lists[i], ps[i], merged, c);
    OrderedBy(lists[i], ps[i], k);
    hide IsMerge;
    forall j | 0 <= j < |lists| && ps[j] < |lists[j]| && j != i ensures Less(merged[c].key, lists[j][ps[j]].key) {
      assert AtCut(lists[j], ps[j], merged, c);
      assert lists[j][ps[j]] in lists[j];
      LessIsTotal(merged[c].key, lists[j][ps[j]].key);
    }
  }

  // Stepping over merged[c] moves every child to the next cut.
  lemma CutAdvance(lists: seq<seq<Entry>>, merged: seq<Entry>, i: nat, p: nat, c: nat)
    requires IsMerge(lists, merged) && i < |lists| && c < |merged| && AtCut(lists[i], p, merged, c)
    ensures p < |lists[i]| && lists[i][p] == merged[c] ==> AtCut(lists[i], p + 1, merged, c + 1)
    ensures !(p < |lists[i]| && lists[i][p] == merged[c]) ==> AtCut(lists[i], p, merged, c + 1)
  {
    var es := lists[i];
    var q := if p < |es| && es[p] == merged[c] then p + 1 else p;
    if c + 1 < |merged| {
      assert Less(merged[c].key, merged[c + 1].key);
    }
    forall j: nat | q <= j < |es| ensures c + 1 < |merged| && !Less(es[j].key, merged[c + 1].key) {
      var m := IndexIn(lists, merged, i, j);
      OrderedBy(merged, m, c);
      OrderedBy(es, p, j);
      assert m != c;
      OrderedBy(merged, m, c + 1);
    }
    assert q < |es| ==> !Less(es[q].key, merged[c].key);
  }

  // Backward, the child that holds the entry before merged[c] is at it, and every other valid child is before it.
  lemma BackHead(lists: seq<seq<Entry>>, merged: seq<Entry>, ps: seq<nat>, c: nat) returns (i: nat)
    requires IsMerge(lists, merged) && |ps| == |lists| && 0 < c <= |merged|
    requires forall i :: 0 <= i < |lists| ==> AtBack(lists[i], ps[i], merged, c)
    ensures i < |lists| && ps[i] < |lists[i]| && lists[i][ps[i]] == merged[c - 1]
    ensures forall j :: 0 <= j < |lists| && ps[j] < |lists[j]| && j != i ==> Less(lists[j][ps[j]].key, merged[c - 1].key)
  {
    var k;
    i, k := HolderOf(lists, merged, c - 1);
    BackReach(lists, merged, i, ps[i], k, c);
    forall j | 0 <= j < |lists| && ps[j] < |lists[j]| && j != i ensures Less(lists[j][ps[j]].key, merged[c - 1].key) {
      var m := IndexIn(lists, merged, j, ps[j]);
      BackBound(lists, merged, j, ps[j], m, c);
      hide IsMerge, AtBack;
      assert lists[j][ps[j]] in lists[j];
      OrderedBy(merged, m, c - 1);
    }
  }

  lemma BackBound(lists: seq<seq<Entry>>, merged: seq<Entry>, i: nat, p: nat, m: nat, c: nat)
    requires IsMerge(lists, merged) && i < |lists| && c <= |merged| && AtBack(lists[i], p, merged, c)
    requires p < |lists[i]| && m < |merged| && merged[m] == lists[i][p]
    ensures m < c
  {
    if c < |merged| {
      OrderedBy(merged, m, c);
    }
  }

  lemma BackReach(lists: seq<seq<Entry>>, merged: seq<Entry>, i: nat, p: nat, k: nat, c: nat)
    requires IsMerge(lists, merged) && i < |lists| && 0 < c <= |merged| && AtBack(lists[i], p, merged, c)
    requires k < |lists[i]| && lists[i][k] == merged[c - 1]
    ensures p == k
  {
    var es := lists[i];
    if c < |merged| {
      assert Less(merged[c - 1].key, merged[c].key);
    }
    assert k <= p < |es|;
    var m := IndexIn(lists, merged, i, p);
    BackBound(lists, merged, i, p, m, c);
    if k < p {
      OrderedBy(es, k, p);
      OrderedBy(merged, c - 1, m);
    }
  }

  lemma BackStep(lists: seq<seq<Entry>>, merged: seq<Entry>, i: nat, p: nat, c: nat)
    requires IsMerge(lists, merged) && i < |lists| && 0 < c <= |merged| && AtBack(lists[i], p, merged, c)
    ensures p < |lists[i]| && lists[i][p] == merged[c - 1] ==> AtBack(lists[i], Before(lists[i], p), merged, c - 1)
    ensures !(p < |lists[i]| && lists[i][p] == merged[c - 1]) ==> AtBack(lists[i], p, merged, c - 1)
  {
    var es := lists[i];
    forall j: nat | j < |es| ensures Less(es[j].key, merged[c - 1].key) <==> j <= p < |es| && es[j] != merged[c - 1] {
      var m := IndexIn(lists, merged, i, j);
      OrderedBy(merged, m, c - 1);
      if c < |merged| {
        OrderedBy(merged, m, c);
      }
    }
    if p < |es| && es[p] == merged[c - 1] {
      forall j: nat | j < |es| ensures es[j] == es[p] <==> j == p {
        OrderedBy(es, j, p);
      }
    } else if p < |es| {
      forall j: nat | j <= p ensures es[j] != merged[c - 1] {
        if es[j] == merged[c - 1] {
          BackReach(lists, merged, i, p, j, c);
        }
      }
    }
  }

  lemma FirstIsCut(lists: seq<seq<Entry>>, merged: seq<Entry>, i: nat)
    requires IsMerge(lists, merged) && i < |lists|
    ensures AtCut(lists[i], 0, merged, 0)
  {
    forall j: nat | j < |lists[i]| ensures merged != [] && !Less(lists[i][j].key, merged[0].key) {
      var m := IndexIn(lists, merged, i, j);
      OrderedBy(merged, m, 0);
    }
    assert lists[i] != [] ==> !Less(lists[i][0].key, merged[0].key);
  }

  lemma SeekIsCut(lists: seq<seq<Entry>>, merged: seq<Entry>, i: nat, k: InternalKey)
    requires IsMerge(lists, merged) && i < |lists|
    ensures AtCut(lists[i], LowerBound(lists[i], k), merged, LowerBound(merged, k))
  {
    var es, p, c := lists[i], LowerBound(lists[i], k), LowerBound(merged, k);
    forall j: nat | j < |es| ensures (c < |merged| && !Less(es[j].key, merged[c].key)) <==> p <= j {
      var m := IndexIn(lists, merged, i, j);
      if p < |es| {
        OrderedBy(es, j, p);
      }
      if c < |merged| {
        OrderedBy(merged, m, c);
      }
    }
    assert p < |es| ==> c < |merged|;
  }

  // After seeking just past merged[c], a list without that key is at the cut.
  lemma PastIsCut(lists: seq<seq<Entry>>, merged: seq<Entry>, i: nat, cur: nat, p: nat, c: nat)
    requires IsMerge(lists, merged) && i < |lists| && cur < |lists| && i != cur && c < |merged|
    requires merged[c] in lists[cur] && p <= |lists[i]|
    requires forall j :: 0 <= j < p ==> !Less(merged[c].key, lists[i][j].key)
    requires forall j :: p <= j < |lists[i]| ==> Less(merged[c].key, lists[i][j].key)
    ensures AtCut(lists[i], p, merged, c)
  {
    forall j: nat | j < |lists[i]| ensures Less(lists[i][j].key, merged[c].key) <==> j < p {
      assert lists[i][j] in lists[i];
      LessIsTotal(lists[i][j].key, merged[c].key);
    }
  }

  method SeekPast(child: Iterator, k: InternalKey)
    requires child.Ok()
    modifies child
    ensures child.Ok()
    ensures forall j :: 0 <= j < child.pos ==> !Less(k, child.entries[j].key)
    ensures forall j :: child.pos <= j < |child.entries| ==> Less(k, child.entries[j].key)
  {
    child.Seek(k);
    ghost var p := child.pos;
    forall j: nat | p < j < |child.entries| ensures Less(k, child.entries[j].key) {
      OrderedBy(child.entries, p, j);
      LessIsTotal(k, child.entries[p].key);
    }
    if child.Valid() {
      LessIsTotal(k, child.Entry().key);
      if child.Entry().key == k {
        child.Next();
      }
    }
  }

  method SeekBefore(child: Iterator, k: InternalKey)
    requires child.Ok()
    modifies child
    ensures child.Ok()
    ensures forall j :: 0 <= j < |child.entries| ==> (Less(child.entries[j].key, k) <==> j <= child.pos < |child.entries|)
  {
    child.Seek(k);
    ghost var p := child.pos;
    forall j: nat | p <= j < |child.entries| ensures !Less(child.entries[j].key, k) {
      OrderedBy(child.entries, p, j);
    }
    if child.Valid() {
      // At the first entry at or after k: step back to the one before.
      child.Prev();
    } else {
      // No entry at or after k.
      child.SeekToLast();
    }
  }

  class MergingIterator {
    const children: seq<Iterator>
    var current: Option<nat>
    var direction: Direction
    ghost const merged: seq<Entry>
    // Where the iterator stands in `merged`; |merged| stands for "not valid".
    ghost var at: nat

    constructor (children: seq<Iterator>, ghost merged: seq<Entry>)
      requires forall i, j :: 0 <= i < j < |children| ==> children[i] != children[j]
      requires forall c :: c in children ==> c.Ok()
      requires IsMerge(ListsOf(children), merged)
      ensures this.children == children && this.merged == merged && Ok() && at == |merged|
    {
      this.children, this.merged := children, merged;
      current, direction, at := None, Forward, |merged|;
    }

    ghost function Lists(): seq<seq<Entry>> {
      ListsOf(children)
    }

    ghost function Positions(): seq<nat>
      reads children
    {
      seq(|children|, i requires 0 <= i < |children| reads children => children[i].pos)
    }

    ghost predicate Base()
      reads this, children
    {
      && (forall i, j :: 0 <= i < j < |children| ==> children[i] != children[j])
      && (forall i :: 0 <= i < |children| ==> children[i].Ok())
      && IsMerge(Lists(), merged)
    }

    ghost predicate AllAtCut(c: nat)
      requires c <= |merged|
      reads this, children
    {
      forall i :: 0 <= i < |children| ==> AtCut(children[i].entries, children[i].pos, merged, c)
    }

    ghost predicate AllAtBack(c: nat)
      requires c <= |merged|
      reads this, children
    {
      forall i :: 0 <= i < |children| ==> AtBack(children[i].entries, children[i].pos, merged, c)
    }

    ghost predicate Ok()
      reads this, children
      ensures Ok() ==> Sorted(merged) && at <= |merged| && (Valid() <==> at < |merged|)
    {
      && Base() && at <= |merged|
      && (current.None? <==> at == |merged|)
      && (current.Some? ==>
            && current.value < |children| && children[current.value].Valid()
            && children[current.value].Entry() == merged[at]
            && (direction.Forward? ==> AllAtCut(at))
            && (direction.Reverse? ==> AllAtBack(at + 1)))
    }

    predicate Valid()
      reads this
    {
      current.Some?
    }

    function Entry(): (e: Entry)
      requires Ok() && Valid()
      reads this, children
      ensures e == merged[at]
    {
      children[current.value].Entry()
    }

    // The smallest child becomes current.
    method FindSmallest(ghost c: nat)
      requires Base() && c <= |merged| && AllAtCut(c)
      modifies this`current, this`at
      ensures Base() && AllAtCut(c) && at == c
      ensures current.None? <==> c == |merged|
      ensures current.Some? ==> current.value < |children| && children[current.value].Valid()
      ensures current.Some? ==> children[current.value].Entry() == merged[c]
    {
      hide IsMerge;
      var smallest: Option<nat> := None;
      for i := 0 to |children|
        invariant smallest.None? ==> forall j :: 0 <= j < i ==> !children[j].Valid()
        invariant smallest.Some? ==> smallest.value < i && children[smallest.value].Valid()
        invariant smallest.Some? ==> forall j :: 0 <= j < i && children[j].Valid() ==>
            !Less(children[j].Entry().key, children[smallest.value].Entry().key)
      {
        if children[i].Valid() {
          if smallest.None? {
            smallest := Some(i);
          } else if Less(children[i].Entry().key, children[smallest.value].Entry().key) {
            smallest := Some(i);
          }
        }
      }
      current := smallest;
      at := c;
      if c < |merged| {
        ghost var lists, ps := Lists(), Positions();
        var h := CutHead(lists, merged, ps, c);
        forall j: nat | j < |children| && children[j].Valid() && j != h
          ensures Less(merged[c].key, children[j].Entry().key)
        {
          assert lists[j][ps[j]] == children[j].Entry();
        }
      }
    }

    // The largest child becomes current.
    method FindLargest(ghost c: nat)
      requires Base() && c <= |merged| && AllAtBack(c)
      modifies this`current, this`at
      ensures Base() && AllAtBack(c)
      ensures at == if c == 0 then |merged| else c - 1
      ensures current.None? <==> c == 0
      ensures current.Some? ==> current.value < |children| && children[current.value].Valid()
      ensures current.Some? ==> children[current.value].Entry() == merged[c - 1]
    {
      hide IsMerge;
      var largest: Option<nat> := None;
      for i := |children| downto 0
        invariant largest.None? ==> forall j :: i <= j < |children| ==> !children[j].Valid()
        invariant largest.Some? ==> i <= largest.value < |children| && children[largest.value].Valid()
        invariant largest.Some? ==> forall j :: i <= j < |children| && children[j].Valid() ==>
            !Less(children[largest.value].Entry().key, children[j].Entry().key)
      {
        if children[i].Valid() {
          if largest.None? {
            largest := Some(i);
          } else if Less(children[largest.value].Entry().key, children[i].Entry().key) {
            largest := Some(i);
          }
        }
      }
      current := largest;
      at := if c == 0 then |merged| else c - 1;
      if c > 0 {
        ghost var lists, ps := Lists(), Positions();
        var h := BackHead(lists, merged, ps, c);
        forall j: nat | j < |children| && children[j].Valid() && j != h
          ensures Less(children[j].Entry().key, merged[c - 1].key)
        {
          assert lists[j][ps[j]] == children[j].Entry();
        }
      } else if current.Some? {
        NothingBefore(Lists(), merged, current.value, children[current.value].pos);
      }
    }

    method SeekToFirst()
      requires Ok()
      modifies this`current, this`direction, this`at, children
      ensures Ok() && at == 0
    {
      hide IsMerge;
      for i := 0 to |children|
        invariant Base()
        invariant forall j :: 0 <= j < i ==> children[j].pos == 0
      {
        children[i].SeekToFirst();
      }
      forall j | 0 <= j < |children| ensures AtCut(children[j].entries, children[j].pos, merged, 0) {
        FirstIsCut(Lists(), merged, j);
      }
      FindSmallest(0);
      direction := Forward;
    }

    method SeekToLast()
      requires Ok()
      modifies this`current, this`direction, this`at, children
      ensures Ok() && at == Last(merged)
    {
      hide IsMerge;
      for i := 0 to |children|
        invariant Base()
        invariant forall j :: 0 <= j < i ==> children[j].pos == Last(children[j].entries)
      {
        children[i].SeekToLast();
      }
      FindLargest(|merged|);
      direction := Reverse;
    }

    method Seek(k: InternalKey)
      requires Ok()
      modifies this`current, this`direction, this`at, children
      ensures Ok() && at == LowerBound(merged, k)
    {
      hide IsMerge;
      for i := 0 to |children|
        invariant Base()
        invariant forall j :: 0 <= j < i ==> children[j].pos == LowerBound(children[j].entries, k)
      {
        children[i].Seek(k);
      }
      ghost var c := LowerBound(merged, k);
      forall j | 0 <= j < |children| ensures AtCut(children[j].entries, children[j].pos, merged, c) {
        SeekIsCut(Lists(), merged, j, k);
      }
      FindSmallest(c);
      direction := Forward;
    }

    // Turn around: put every child but the current one after the current key.
    method TurnForward()
      requires Ok() && Valid() && direction.Reverse?
      modifies this`direction, children
      ensures Ok() && Valid() && direction.Forward?
    {
      hide IsMerge, AtCut, AtBack;
      var cur, k := current.value, Entry().key;
      CurrentAtCut();
      for i := 0 to |children|
        invariant Base() && children[cur].pos == old(children[cur].pos)
        invariant forall j :: 0 <= j < i ==> AtCut(children[j].entries, children[j].pos, merged, at)
      {
        if i != cur {
          SeekPast(children[i], k);
          PastIsCut(Lists(), merged, i, cur, children[i].pos, at);
        }
      }
      direction := Forward;
    }

    method TurnReverse()
      requires Ok() && Valid() && direction.Forward?
      modifies this`direction, children
      ensures Ok() && Valid() && direction.Reverse?
    {
      hide IsMerge, AtCut, AtBack;
      var cur, k := current.value, Entry().key;
      CurrentAtBack();
      for i := 0 to |children|
        invariant Base() && children[cur].pos == old(children[cur].pos)
        invariant forall j :: 0 <= j < i ==> AtBack(children[j].entries, children[j].pos, merged, at + 1)
      {
        if i != cur {
          SeekBefore(children[i], k);
          BeforeIsBack(Lists(), merged, i, cur, children[i].pos, at);
        }
      }
      direction := Reverse;
    }

    lemma CurrentAtCut()
      requires Base() && at < |merged| && current.Some? && current.value < |children|
      requires children[current.value].Valid() && children[current.value].Entry() == merged[at]
      ensures AtCut(children[current.value].entries, children[current.value].pos, merged, at)
    {
      var c := children[current.value];
      forall j: nat | j < |c.entries| ensures Less(c.entries[j].key, merged[at].key) <==> j < c.pos {
        OrderedBy(c.entries, j, c.pos);
      }
    }

    lemma CurrentAtBack()
      requires Base() && at < |merged| && current.Some? && current.value < |children|
      requires children[current.value].Valid() && children[current.value].Entry() == merged[at]
      ensures AtBack(children[current.value].entries, children[current.value].pos, merged, at + 1)
    {
      var c := children[current.value];
      HereIsBack(Lists(), merged, current.value, c.pos, at);
    }

    method Next()
      requires Ok() && Valid()
      modifies this`current, this`direction, this`at, children
      ensures Ok() && at == old(at) + 1
    {
      hide IsMerge, AtCut, AtBack;
      if direction != Forward {
        TurnForward();
      }
      forall j | 0 <= j < |children|
        ensures if j == current.value then AtCut(children[j].entries, children[j].pos + 1, merged, at + 1)
                else AtCut(children[j].entries, children[j].pos, merged, at + 1)
      {
        OthersAhead(j);
        CutAdvance(Lists(), merged, j, children[j].pos, at);
      }
      children[current.value].Next();
      FindSmallest(at + 1);
    }

    method Prev()
      requires Ok() && Valid()
      modifies this`current, this`direction, this`at, children
      ensures Ok() && at == Before(merged, old(at))
    {
      hide IsMerge, AtCut, AtBack;
      if direction != Reverse {
        TurnReverse();
      }
      forall j | 0 <= j < |children|
        ensures if j == current.value then AtBack(children[j].entries, Before(children[j].entries, children[j].pos), merged, at)
                else AtBack(children[j].entries, children[j].pos, merged, at)
      {
        OthersAhead(j);
        BackStep(Lists(), merged, j, children[j].pos, at + 1);
      }
      children[current.value].Prev();
      FindLargest(at);
    }

    // Only the current child stands at the current entry.
    lemma OthersAhead(j: nat)
      requires Ok() && Valid() && j < |children|
      ensures children[j].Valid() && children[j].Entry() == merged[at] <==> j == current.value
    {
      if children[j].Valid() && j != current.value {
        assert children[j].Entry() in Lists()[j] && merged[at] in Lists()[current.value];
      }
    }
  }

  // After seeking just before merged[c], a list without that key is behind it.
  lemma BeforeIsBack(lists: seq<seq<Entry>>, merged: seq<Entry>, i: nat, cur: nat, p: nat, c: nat)
    requires IsMerge(lists, merged) && i < |lists| && cur < |lists| && i != cur && c < |merged|
    requires merged[c] in lists[cur] && p <= |lists[i]|
    requires forall j :: 0 <= j < |lists[i]| ==> (Less(lists[i][j].key, merged[c].key) <==> j <= p < |lists[i]|)
    ensures AtBack(lists[i], p, merged, c + 1)
  {
    var es := lists[i];
    forall j: nat | j < |es|
      ensures c + 1 < |merged| ==> (Less(es[j].key, merged[c + 1].key) <==> j <= p < |es|)
      ensures c + 1 == |merged| ==> j <= p < |es|
    {
      assert es[j] in lists[i];
      var m := IndexIn(lists, merged, i, j);
      assert m != c;
      OrderedBy(merged, m, c);
      if c + 1 < |merged| {
        OrderedBy(merged, m, c + 1);
      }
    }
    assert es != [] ==> es[|es| - 1] in es;
  }

  // The list that holds merged[c], standing at it, is behind merged[c + 1].
  lemma HereIsBack(lists: seq<seq<Entry>>, merged: seq<Entry>, i: nat, p: nat, c: nat)
    requires IsMerge(lists, merged) && i < |lists| && c < |merged|
    requires p < |lists[i]| && lists[i][p] == merged[c]
    ensures AtBack(lists[i], p, merged, c + 1)
  {
    var es := lists[i];
    forall j: nat | j < |es|
      ensures c + 1 < |merged| ==> (Less(es[j].key, merged[c + 1].key) <==> j <= p)
      ensures c + 1 == |merged| ==> j <= p
    {
      var m := IndexIn(lists, merged, i, j);
      OrderedBy(merged, m, c);
      OrderedBy(es, j, p);
      OrderedBy(es, p, j);
      OrderedBy(merged, c, m);
      if c + 1 < |merged| {
        OrderedBy(merged, m, c + 1);
      }
    }
    assert es != [] ==> es[|es| - 1] in es;
  }

  ghost function ListsOf(children: seq<Iterator>): seq<seq<Entry>> {
    seq(|children|, i requires 0 <= i < |children| => children[i].entries)
  }

  lemma NothingBefore(lists: seq<seq<Entry>>, merged: seq<Entry>, i: nat, p: nat)
    requires IsMerge(lists, merged) && i < |lists| && AtBack(lists[i], p, merged, 0)
    ensures p == |lists[i]|
  {
    if p < |lists[i]| {
      var m := IndexIn(lists, merged, i, p);
      OrderedBy(merged, m, 0);
    }
  }
}
