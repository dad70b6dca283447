/** The skip list behind a memtable: sorted lists of links, one above the other, over nodes that are never freed. */
module SkipLists {
  import opened DbFormat
  import opened Versions

  const MAX_HEIGHT: nat := 12

  // A node has one link for each level it is on. Nodes lie in an arena and are named by their place in it; the head
  // is node 0, and because nothing links to the head, 0 is also the null link.
  datatype Node = Node(entry: Entry, next: seq<nat>)

  // The node at position `i` of a list, counting the head as position 0, and the one after it.
  function At(list: seq<nat>, i: nat): nat
    requires i <= |list|
  {
    if i == 0 then 0 else list[i - 1]
  }

  function After(list: seq<nat>, i: nat): nat
    requires i <= |list|
  {
    if i < |list| then list[i] else 0
  }

  ghost predicate LinkAt(nodes: seq<Node>, level: nat, list: seq<nat>, i: nat)
    requires i <= |list|
  {
    var x := At(list, i);
    x < |nodes| && level < |nodes[x].next| && nodes[x].next[level] == After(list, i)
  }

  // The links of one level run from the head through the list.
  ghost predicate Linked(nodes: seq<Node>, level: nat, list: seq<nat>) {
    forall i :: 0 <= i <= |list| ==> LinkAt(nodes, level, list, i)
  }

  ghost predicate Ascending(nodes: seq<Node>, list: seq<nat>) {
    && (forall i :: 0 <= i < |list| ==> 0 < list[i] < |nodes|)
    && forall i, j :: 0 <= i < j < |list| ==> Less(nodes[list[i]].entry.key, nodes[list[j]].entry.key)
  }

  // A level holds exactly the nodes that reach up to it, so each level is a sublist of the one below.
  ghost predicate Holds(nodes: seq<Node>, level: nat, list: seq<nat>) {
    forall n :: 0 < n < |nodes| ==> (n in list <==> level < |nodes[n].next|)
  }

  ghost predicate ListOk(nodes: seq<Node>, level: nat, list: seq<nat>) {
    Linked(nodes, level, list) && Ascending(nodes, list) && Holds(nodes, level, list)
  }

  ghost predicate Shaped(nodes: seq<Node>, maxHeight: nat) {
    && 1 <= maxHeight <= MAX_HEIGHT && nodes != [] && |nodes[0].next| == MAX_HEIGHT
    && forall n :: 0 < n < |nodes| ==> 1 <= |nodes[n].next| <= maxHeight
  }

  function Entries(nodes: seq<Node>, list: seq<nat>): (r: seq<Entry>)
    requires forall i :: 0 <= i < |list| ==> list[i] < |nodes|
    ensures |r| == |list| && forall i :: 0 <= i < |list| ==> r[i] == nodes[list[i]].entry
  {
    seq(|list|, i requires 0 <= i < |list| => nodes[list[i]].entry)
  }

  // ---- Searching ------------------------------------------------------------------------------------------------

  ghost predicate Below(nodes: seq<Node>, list: seq<nat>, i: nat, k: InternalKey) {
    && i <= |list|
    && forall j :: 0 <= j < i ==> list[j] < |nodes| && Less(nodes[list[j]].entry.key, k)
  }

  // The keys before position `i` are below `k`, and the others are not.
  ghost predicate Split(nodes: seq<Node>, list: seq<nat>, i: nat, k: InternalKey) {
    && Below(nodes, list, i, k)
    && forall j :: i <= j < |list| ==> list[j] < |nodes| && !Less(nodes[list[j]].entry.key, k)
  }

  lemma SplitHere(nodes: seq<Node>, list: seq<nat>, i: nat, k: InternalKey)
    requires Ascending(nodes, list) && Below(nodes, list, i, k)
    requires i < |list| ==> !Less(nodes[list[i]].entry.key, k)
    ensures Split(nodes, list, i, k)
  {
  }

  lemma LowerBoundIs(es: seq<Entry>, k: InternalKey, p: nat)
    requires p <= |es| && (forall i :: 0 <= i < p ==> Less(es[i].key, k)) && (p < |es| ==> !Less(es[p].key, k))
    ensures p == LowerBound(es, k)
  {
  }

  lemma SplitIsLowerBound(nodes: seq<Node>, list: seq<nat>, i: nat, k: InternalKey)
    requires Ascending(nodes, list) && Split(nodes, list, i, k)
    ensures i == LowerBound(Entries(nodes, list), k) && Sorted(Entries(nodes, list))
  {
    LowerBoundIs(Entries(nodes, list), k, i);
  }

  // ---- Linking in a node --------------------------------------------------------------------------------------------

  function SetNext(nodes: seq<Node>, x: nat, level: nat, to: nat): (r: seq<Node>)
    requires x < |nodes| && level < |nodes[x].next|
    ensures |r| == |nodes|
    ensures forall n :: 0 <= n < |nodes| ==> r[n].entry == nodes[n].entry && |r[n].next| == |nodes[n].next|
    ensures r[x].next[level] == to
    ensures forall n, l :: 0 <= n < |nodes| && 0 <= l < |nodes[n].next| && (n != x || l != level) ==>
      r[n].next[l] == nodes[n].next[l]
  {
    nodes[x := nodes[x].(next := nodes[x].next[level := to])]
  }

  function With(list: seq<nat>, p: nat, n: nat): seq<nat>
    requires p <= |list|
  {
    list[..p] + [n] + list[p..]
  }

  lemma OtherLevel(nodes: seq<Node>, x: nat, level: nat, to: nat, other: nat, list: seq<nat>)
    requires x < |nodes| && level < |nodes[x].next| && other != level
    requires Linked(nodes, other, list)
    ensures Linked(SetNext(nodes, x, level, to), other, list)
  {
    var r := SetNext(nodes, x, level, to);
    forall i | 0 <= i <= |list| ensures LinkAt(r, other, list, i) {
      assert LinkAt(nodes, other, list, i);
    }
  }

  // The two links that put a new node into one level.
  lemma LinkIn(nodes: seq<Node>, level: nat, list: seq<nat>, p: nat, n: nat)
    requires Linked(nodes, level, list) && Ascending(nodes, list) && p <= |list|
    requires 0 < n < |nodes| && level < |nodes[n].next| && n !in list
    ensures
      var x := At(list, p);
      && LinkAt(nodes, level, list, p)
      && Linked(SetNext(SetNext(nodes, n, level, nodes[x].next[level]), x, level, n), level, With(list, p, n))
  {
    var x := At(list, p);
    assert LinkAt(nodes, level, list, p);
    var r := SetNext(SetNext(nodes, n, level, nodes[x].next[level]), x, level, n);
    var more := With(list, p, n);
    forall i | 0 <= i <= |more| ensures LinkAt(r, level, more, i) {
      if i < p {
        assert LinkAt(nodes, level, list, i);
        assert At(more, i) == At(list, i) && After(more, i) == After(list, i);
        assert At(list, i) != x by {
          DistinctAt(nodes, list, i, p);
        }
      } else if i == p {
        assert At(more, i) == x && After(more, i) == n;
      } else if i == p + 1 {
        assert At(more, i) == n && After(more, i) == After(list, p);
      } else {
        assert LinkAt(nodes, level, list, i - 1);
        assert At(more, i) == At(list, i - 1) && After(more, i) == After(list, i - 1);
        assert At(list, i - 1) != x by {
          DistinctAt(nodes, list, p, i - 1);
        }
      }
    }
  }

  lemma DistinctAt(nodes: seq<Node>, list: seq<nat>, i: nat, j: nat)
    requires Ascending(nodes, list) && i < j <= |list|
    ensures At(list, i) != At(list, j)
  {
    if i > 0 {
      assert Less(nodes[list[i - 1]].entry.key, nodes[list[j - 1]].entry.key);
    }
  }

  // ---- The class ------------------------------------------------------------------------------------------------------

  ghost predicate Levels(nodes: seq<Node>, lists: seq<seq<nat>>) {
    |lists| == MAX_HEIGHT && forall l :: 0 <= l < MAX_HEIGHT ==> ListOk(nodes, l, lists[l])
  }

  // What the search leaves for each level: a node, and its position there.
  ghost predicate Path(nodes: seq<Node>, lists: seq<seq<nat>>, prev: seq<nat>, at: seq<nat>, k: InternalKey, l: nat) {
    && l < |prev| && l < |at| && l < |lists| && at[l] <= |lists[l]|
    && Split(nodes, lists[l], at[l], k) && prev[l] == At(lists[l], at[l])
  }

  class SkipList {
    var nodes: seq<Node>
    var maxHeight: nat

    // The nodes of each level, in order.
    ghost var lists: seq<seq<nat>>

    ghost predicate Valid()
      reads this
    {
      Shaped(nodes, maxHeight) && Levels(nodes, lists)
    }

    // The entries, in order.
    ghost function Contents(): seq<Entry>
      requires Valid()
      reads this
    {
      Entries(nodes, lists[0])
    }

    constructor (anyEntry: Entry)
      ensures Valid() && Contents() == []
    {
      nodes := [Node(anyEntry, seq(MAX_HEIGHT, _ => 0))];
      maxHeight := 1;
      lists := seq(MAX_HEIGHT, _ => []);
    }

    predicate KeyIsAfterNode(k: InternalKey, n: nat)
      requires n < |nodes|
      reads this
    {
      n != 0 && Less(nodes[n].entry.key, k)
    }

    // The first node at or after the key, with the node before that place on every level.
    method FindGreaterOrEqual(k: InternalKey) returns (x: nat, prev: seq<nat>, ghost at: seq<nat>)
      requires Valid()
      ensures |prev| == maxHeight && |at| == maxHeight
      ensures forall l :: 0 <= l < maxHeight ==> Path(nodes, lists, prev, at, k, l)
      ensures at[0] == LowerBound(Contents(), k) && x == After(lists[0], at[0])
    {
      hide ListOk, Split;
      prev := seq(maxHeight, _ => 0);
      at := prev;
      var node: nat, level: nat := 0, maxHeight - 1;
      ghost var i: nat := 0;
      var found := false;
      x := 0;
      while !found
        invariant level < maxHeight && |prev| == maxHeight && |at| == maxHeight && Levels(nodes, lists)
        invariant i <= |lists[level]| && node == At(lists[level], i) && Below(nodes, lists[level], i, k)
        invariant forall l :: level < l < maxHeight ==> Path(nodes, lists, prev, at, k, l)
        invariant found ==> level == 0 && Path(nodes, lists, prev, at, k, 0) && x == After(lists[0], at[0])
        decreases !found, level, |lists[level]| - i
      {
        var next := NextOf(node, level, i);
        if KeyIsAfterNode(k, next) {
          node, i := next, i + 1;
        } else {
          StopHere(nodes, lists, level, i, k);
          PathGrows(nodes, lists, prev, at, k, level, i, prev[level := node], at[level := i]);
          prev, at := prev[level := node], at[level := i];
          if level == 0 {
            found, x := true, next;
          } else {
            i := Down(nodes, lists, level, i, k);
            level := level - 1;
          }
        }
      }
      FoundIsLowerBound(nodes, lists, at[0], k);
    }

    // The last node before the key, or the head.
    method FindLessThan(k: InternalKey) returns (x: nat)
      requires Valid()
      ensures LowerBound(Contents(), k) <= |lists[0]| && x == At(lists[0], LowerBound(Contents(), k))
    {
      hide ListOk, Split;
      var level: nat := maxHeight - 1;
      x := 0;
      ghost var i: nat := 0;
      var found := false;
      while !found
        invariant level < maxHeight && Levels(nodes, lists)
        invariant i <= |lists[level]| && x == At(lists[level], i) && Below(nodes, lists[level], i, k)
        invariant found ==> level == 0 && Split(nodes, lists[0], i, k)
        decreases !found, level, |lists[level]| - i
      {
        var next := NextOf(x, level, i);
        if next == 0 || !Less(nodes[next].entry.key, k) {
          StopHere(nodes, lists, level, i, k);
          if level == 0 {
            found := true;
          } else {
            i := Down(nodes, lists, level, i, k);
            level := level - 1;
          }
        } else {
          x, i := next, i + 1;
        }
      }
      FoundIsLowerBound(nodes, lists, i, k);
    }

    // The last node, or the head.
    method FindLast() returns (x: nat)
      requires Valid()
      ensures x == At(lists[0], |lists[0]|)
    {
      hide ListOk;
      var level: nat := maxHeight - 1;
      x := 0;
      ghost var i: nat := 0;
      var found := false;
      while !found
        invariant level < maxHeight && Levels(nodes, lists)
        invariant i <= |lists[level]| && x == At(lists[level], i)
        invariant found ==> level == 0 && i == |lists[0]|
        decreases !found, level, |lists[level]| - i
      {
        var next := NextOf(x, level, i);
        if next == 0 {
          if level == 0 {
            found := true;
          } else {
            i := SameNodeBelow(nodes, lists, level, i);
            level := level - 1;
          }
        } else {
          x, i := next, i + 1;
        }
      }
    }

    method Contains(k: InternalKey) returns (r: bool)
      requires Valid()
      ensures r <==> exists e :: e in Contents() && e.key == k
    {
      var x, _, at := FindGreaterOrEqual(k);
      r := x != 0 && nodes[x].entry.key == k;
      assert ListOk(nodes, 0, lists[0]);
      ghost var es := Contents();
      assert at[0] < |es| ==> es[at[0]] == nodes[x].entry && x != 0;
      if e :| e in es && e.key == k {
        ghost var j :| 0 <= j < |es| && es[j] == e;
        LowerBoundIs(es, k, j);
      }
    }

    // Every level is in order, and part of the one below.
    lemma LevelsNest(l: nat)
      requires Valid() && l + 1 < MAX_HEIGHT
      ensures Sorted(LevelContents(l))
      ensures forall e :: e in LevelContents(l + 1) ==> e in LevelContents(l)
    {
      assert ListOk(nodes, l, lists[l]) && ListOk(nodes, l + 1, lists[l + 1]);
      ContentsSorted(nodes, lists[l]);
      ghost var upper := LevelContents(l + 1);
      forall i | 0 <= i < |upper| ensures upper[i] in LevelContents(l) {
        var n := lists[l + 1][i];
        assert n in lists[l + 1];
        assert n in lists[l];
        var j :| 0 <= j < |lists[l]| && lists[l][j] == n;
        assert LevelContents(l)[j] == upper[i];
      }
    }

    // The entries of one level, in order.
    ghost function LevelContents(l: nat): seq<Entry>
      requires Valid() && l < MAX_HEIGHT
      reads this
    {
      assert ListOk(nodes, l, lists[l]);
      Entries(nodes, lists[l])
    }

    // A new entry, on as many levels as `height` says: each of them gains it, and the others stay.
    method Insert(e: Entry, height: nat)
      requires Valid() && 1 <= height <= MAX_HEIGHT
      requires forall d :: d in Contents() ==> d.key != e.key
      modifies this
      ensures Valid() && Contents() == InsertEntry(old(Contents()), e)
      ensures forall l :: 0 <= l < MAX_HEIGHT ==>
        LevelContents(l) == if l < height then InsertEntry(old(LevelContents(l)), e) else old(LevelContents(l))
      ensures maxHeight == if height > old(maxHeight) then height else old(maxHeight)
    {
      var _, prev, at := FindGreaterOrEqual(e.key);
      ghost var before, lists0 := nodes, lists;
      if height > maxHeight {
        RaisedPath(nodes, lists, maxHeight, prev, at, e.key, height);
        prev, at := prev + seq(height - maxHeight, _ => 0), at + seq(height - maxHeight, _ => 0);
        maxHeight := height;
      }
      assert ListOk(before, 0, lists0[0]);
      hide Shaped, Levels, Path, Linking, InsertEntry, ListOk;
      StartLinking(before, lists0, prev, at, e, height);
      nodes := nodes + [Node(e, seq(height, _ => 0))];
      LinkNode(before, lists0, prev, at, e, height);
      EndLinking(before, old(maxHeight), lists0, prev, at, nodes, lists, e, height);
    }

    // Link the new node in, level by level.
    method LinkNode(ghost before: seq<Node>, ghost lists0: seq<seq<nat>>, prev: seq<nat>, ghost at: seq<nat>,
                    ghost e: Entry, height: nat)
      requires Linking(before, lists0, prev, at, nodes, lists, e, height, 0)
      modifies this`nodes, this`lists
      ensures Linking(before, lists0, prev, at, nodes, lists, e, height, height)
    {
      var n := |nodes| - 1;
      hide Path, LinkingAt;
      for i := 0 to height
        invariant Linking(before, lists0, prev, at, nodes, lists, e, height, i) && n == |nodes| - 1
      {
        LinkStep(before, lists0, prev, at, nodes, lists, e, height, i);
        nodes := SetNext(nodes, n, i, nodes[prev[i]].next[i]);
        nodes := SetNext(nodes, prev[i], i, n);
        lists := lists[i := With(lists[i], at[i], n)];
      }
    }

    // Follow one link.
    function NextOf(x: nat, level: nat, ghost i: nat): (r: nat)
      requires Levels(nodes, lists) && level < MAX_HEIGHT && i <= |lists[level]| && x == At(lists[level], i)
      reads this
      ensures r == After(lists[level], i) && r < |nodes| && (r == 0 <==> i == |lists[level]|)
    {
      assert ListOk(nodes, level, lists[level]);
      assert LinkAt(nodes, level, lists[level], i);
      assert LinkAt(nodes, level, lists[level], 0);
      nodes[x].next[level]
    }
  }

  lemma StopHere(nodes: seq<Node>, lists: seq<seq<nat>>, level: nat, i: nat, k: InternalKey)
    requires Levels(nodes, lists) && level < MAX_HEIGHT && Below(nodes, lists[level], i, k)
    requires i < |lists[level]| ==>
      lists[level][i] < |nodes| && !Less(nodes[lists[level][i]].entry.key, k)
    ensures Split(nodes, lists[level], i, k)
  {
    assert ListOk(nodes, level, lists[level]);
    SplitHere(nodes, lists[level], i, k);
  }

  lemma PathGrows(nodes: seq<Node>, lists: seq<seq<nat>>, prev: seq<nat>, at: seq<nat>, k: InternalKey,
                  level: nat, i: nat, prev1: seq<nat>, at1: seq<nat>)
    requires level < |prev| == |at| <= |lists| && i <= |lists[level]| && Split(nodes, lists[level], i, k)
    requires forall l :: level < l < |prev| ==> Path(nodes, lists, prev, at, k, l)
    requires prev1 == prev[level := At(lists[level], i)] && at1 == at[level := i]
    ensures forall l :: level <= l < |prev| ==> Path(nodes, lists, prev1, at1, k, l)
  {
    hide Split;
    forall l | level <= l < |prev| ensures Path(nodes, lists, prev1, at1, k, l) {
      assert l > level ==> Path(nodes, lists, prev, at, k, l);
    }
  }

  lemma SameNodeBelow(nodes: seq<Node>, lists: seq<seq<nat>>, level: nat, i: nat) returns (j: nat)
    requires Levels(nodes, lists) && 0 < level < MAX_HEIGHT && i <= |lists[level]|
    ensures j <= |lists[level - 1]| && At(lists[level - 1], j) == At(lists[level], i)
  {
    assert ListOk(nodes, level, lists[level]) && ListOk(nodes, level - 1, lists[level - 1]);
    if i == 0 {
      j := 0;
    } else {
      var x := lists[level][i - 1];
      assert x in lists[level];
      assert x in lists[level - 1];
      var p :| 0 <= p < |lists[level - 1]| && lists[level - 1][p] == x;
      j := p + 1;
    }
  }

  // Going down a level keeps the node, and everything before it below the key.
  lemma Down(nodes: seq<Node>, lists: seq<seq<nat>>, level: nat, i: nat, k: InternalKey) returns (j: nat)
    requires Levels(nodes, lists) && 0 < level < MAX_HEIGHT && Below(nodes, lists[level], i, k)
    ensures j <= |lists[level - 1]| && At(lists[level - 1], j) == At(lists[level], i)
    ensures Below(nodes, lists[level - 1], j, k)
  {
    j := SameNodeBelow(nodes, lists, level, i);
    assert ListOk(nodes, level, lists[level]) && ListOk(nodes, level - 1, lists[level - 1]);
    assert j == 0 <==> i == 0 by {
      assert i > 0 ==> lists[level][i - 1] > 0;
      assert j > 0 ==> lists[level - 1][j - 1] > 0;
    }
  }

  lemma FoundIsLowerBound(nodes: seq<Node>, lists: seq<seq<nat>>, i: nat, k: InternalKey)
    requires Levels(nodes, lists) && Split(nodes, lists[0], i, k)
    ensures ListOk(nodes, 0, lists[0]) && i == LowerBound(Entries(nodes, lists[0]), k)
  {
    assert ListOk(nodes, 0, lists[0]);
    SplitIsLowerBound(nodes, lists[0], i, k);
  }

  // ---- One insertion, level by level ------------------------------------------------------------------------------------

  lemma SomeNodeReaches(nodes: seq<Node>, l: nat, list: seq<nat>) returns (n: nat)
    requires ListOk(nodes, l, list) && list != []
    ensures 0 < n < |nodes| && l < |nodes[n].next|
  {
    n := list[0];
    assert n in list;
  }

  lemma EmptyAbove(nodes: seq<Node>, lists: seq<seq<nat>>, maxHeight: nat, l: nat)
    requires Shaped(nodes, maxHeight) && Levels(nodes, lists) && maxHeight <= l < MAX_HEIGHT
    ensures lists[l] == []
  {
    hide ListOk;
    assert ListOk(nodes, l, lists[l]);
    if lists[l] != [] {
      var n := SomeNodeReaches(nodes, l, lists[l]);
    }
  }

  // The head precedes everything on the levels that were not in use.
  lemma RaisedPath(nodes: seq<Node>, lists: seq<seq<nat>>, maxHeight: nat, prev: seq<nat>, at: seq<nat>,
                   k: InternalKey, height: nat)
    requires Shaped(nodes, maxHeight) && Levels(nodes, lists) && maxHeight < height <= MAX_HEIGHT
    requires |prev| == |at| == maxHeight
    requires forall l :: 0 <= l < maxHeight ==> Path(nodes, lists, prev, at, k, l)
    ensures
      var zeros: seq<nat> := seq(height - maxHeight, _ => 0);
      forall l :: 0 <= l < height ==> Path(nodes, lists, prev + zeros, at + zeros, k, l)
  {
    var zeros: seq<nat> := seq(height - maxHeight, _ => 0);
    forall l | 0 <= l < height ensures Path(nodes, lists, prev + zeros, at + zeros, k, l) {
      if l < maxHeight {
        assert Path(nodes, lists, prev, at, k, l);
      } else {
        EmptyAbove(nodes, lists, maxHeight, l);
      }
    }
  }

  ghost predicate SameShape(a: seq<Node>, b: seq<Node>) {
    |a| == |b| && forall n :: 0 <= n < |a| ==> a[n].entry == b[n].entry && |a[n].next| == |b[n].next|
  }

  // One level while a node is linked in: `done` says whether it has the node already.
  ghost predicate LinkingAt(before: seq<Node>, list0: seq<nat>, p: nat, nodes: seq<Node>, list: seq<nat>,
                            l: nat, done: bool) {
    && Linked(nodes, l, list) && Ascending(before, list0)
    && if done then p <= |list0| && list == With(list0, p, |before|) else list == list0
  }

  // The node is on levels below `i`, and not yet on the others.
  ghost predicate Linking(before: seq<Node>, lists0: seq<seq<nat>>, prev: seq<nat>, at: seq<nat>,
                          nodes: seq<Node>, lists: seq<seq<nat>>, e: Entry, height: nat, i: nat) {
    && i <= height <= MAX_HEIGHT && |prev| >= height && |at| >= height && before != []
    && |lists0| == MAX_HEIGHT && |lists| == MAX_HEIGHT
    && SameShape(before + [Node(e, seq(height, _ => 0))], nodes)
    && (forall l :: 0 <= l < height ==> Path(before, lists0, prev, at, e.key, l))
    && forall l :: 0 <= l < MAX_HEIGHT ==>
         LinkingAt(before, lists0[l], if l < |at| then at[l] else 0, nodes, lists[l], l, l < i)
  }

  lemma StartLinking(before: seq<Node>, lists: seq<seq<nat>>, prev: seq<nat>, at: seq<nat>, e: Entry, height: nat)
    requires Levels(before, lists) && height <= MAX_HEIGHT && |prev| >= height && |at| >= height && before != []
    requires forall l :: 0 <= l < height ==> Path(before, lists, prev, at, e.key, l)
    ensures Linking(before, lists, prev, at, before + [Node(e, seq(height, _ => 0))], lists, e, height, 0)
  {
    hide Path;
    var nodes := before + [Node(e, seq(height, _ => 0))];
    forall l | 0 <= l < MAX_HEIGHT
      ensures LinkingAt(before, lists[l], if l < |at| then at[l] else 0, nodes, lists[l], l, false)
    {
      assert ListOk(before, l, lists[l]);
      forall i | 0 <= i <= |lists[l]| ensures LinkAt(nodes, l, lists[l], i) {
        assert LinkAt(before, l, lists[l], i);
      }
    }
  }

  lemma AscendingInShape(before: seq<Node>, nodes: seq<Node>, list: seq<nat>)
    requires |before| <= |nodes| && Ascending(before, list)
    requires forall n :: 0 <= n < |before| ==> nodes[n].entry == before[n].entry
    ensures Ascending(nodes, list)
  {
  }

  lemma LinkStep(before: seq<Node>, lists0: seq<seq<nat>>, prev: seq<nat>, at: seq<nat>,
                 nodes: seq<Node>, lists: seq<seq<nat>>, e: Entry, height: nat, i: nat)
    requires Linking(before, lists0, prev, at, nodes, lists, e, height, i) && i < height
    ensures |nodes| == |before| + 1 && |lists| == MAX_HEIGHT
    ensures i < |nodes[|before|].next| && at[i] <= |lists[i]| && prev[i] < |nodes| && i < |nodes[prev[i]].next|
    ensures
      var r := SetNext(SetNext(nodes, |before|, i, nodes[prev[i]].next[i]), prev[i], i, |before|);
      Linking(before, lists0, prev, at, r, lists[i := With(lists[i], at[i], |before|)], e, height, i + 1)
  {
    hide Linked, Ascending, Split;
    var n, x := |before|, prev[i];
    assert Path(before, lists0, prev, at, e.key, i);
    assert LinkingAt(before, lists0[i], at[i], nodes, lists[i], i, false);
    SplitInside(before, lists0[i], at[i], e.key);
    AscendingInShape(before, nodes, lists0[i]);
    NotIn(before, lists0[i]);
    LinkIn(nodes, i, lists[i], at[i], n);
    var r := SetNext(SetNext(nodes, n, i, nodes[x].next[i]), x, i, n);
    var more := lists[i := With(lists[i], at[i], n)];
    forall l | 0 <= l < MAX_HEIGHT
      ensures LinkingAt(before, lists0[l], if l < |at| then at[l] else 0, r, more[l], l, l < i + 1)
    {
      assert LinkingAt(before, lists0[l], if l < |at| then at[l] else 0, nodes, lists[l], l, l < i);
      if l != i {
        OtherLevel(nodes, n, i, nodes[x].next[i], l, lists[l]);
        OtherLevel(SetNext(nodes, n, i, nodes[x].next[i]), x, i, n, l, lists[l]);
      }
    }
  }

  lemma SplitInside(nodes: seq<Node>, list: seq<nat>, i: nat, k: InternalKey)
    requires Split(nodes, list, i, k)
    ensures i <= |list|
  {
  }

  lemma NotIn(nodes: seq<Node>, list: seq<nat>)
    requires Ascending(nodes, list)
    ensures |nodes| !in list
  {
  }

  lemma EntriesWith(before: seq<Node>, list: seq<nat>, p: nat, nodes: seq<Node>, e: Entry)
    requires Ascending(before, list) && p <= |list| && |before| < |nodes| && nodes[|before|].entry == e
    requires forall n :: 0 <= n < |before| ==> nodes[n].entry == before[n].entry
    ensures forall i :: 0 <= i < |list| + 1 ==> With(list, p, |before|)[i] < |nodes|
    ensures
      var es := Entries(before, list);
      Entries(nodes, With(list, p, |before|)) == es[..p] + [e] + es[p..]
  {
  }

  lemma AscendingIfSorted(nodes: seq<Node>, list: seq<nat>)
    requires forall i :: 0 <= i < |list| ==> 0 < list[i] < |nodes|
    requires Sorted(Entries(nodes, list))
    ensures Ascending(nodes, list)
  {
    var es := Entries(nodes, list);
    forall i, j | 0 <= i < j < |list| ensures Less(nodes[list[i]].entry.key, nodes[list[j]].entry.key) {
      assert Less(es[i].key, es[j].key);
    }
  }

  lemma HoldsWith(before: seq<Node>, l: nat, list: seq<nat>, p: nat, nodes: seq<Node>, e: Entry, height: nat)
    requires Holds(before, l, list) && p <= |list| && l < height
    requires SameShape(before + [Node(e, seq(height, _ => 0))], nodes)
    ensures Holds(nodes, l, With(list, p, |before|))
  {
    var more := With(list, p, |before|);
    forall m | 0 < m < |nodes| ensures m in more <==> l < |nodes[m].next| {
      assert m in more <==> m in list || m == |before| by {
        assert list == list[..p] + list[p..];
      }
    }
  }

  // The level that gained the node is in order again.
  lemma GainedLevel(before: seq<Node>, l: nat, list: seq<nat>, p: nat, nodes: seq<Node>, e: Entry, height: nat)
    requires ListOk(before, l, list) && Split(before, list, p, e.key) && l < height && before != []
    requires SameShape(before + [Node(e, seq(height, _ => 0))], nodes)
    requires forall i :: 0 <= i < |list| ==> before[list[i]].entry.key != e.key
    requires Linked(nodes, l, With(list, p, |before|))
    ensures ListOk(nodes, l, With(list, p, |before|))
    ensures Entries(nodes, With(list, p, |before|)) == InsertEntry(Entries(before, list), e)
  {
    var more, es := With(list, p, |before|), Entries(before, list);
    assert forall n :: 0 <= n < |before| ==> nodes[n].entry == before[n].entry;
    assert nodes[|before|].entry == e && |before| < |nodes|;
    assert forall i :: 0 <= i < |more| ==> 0 < more[i] < |nodes|;
    forall d | d in es ensures d.key != e.key {
    }
    hide Linked, Holds, SameShape, Less, Sorted;
    SplitIsLowerBound(before, list, p, e.key);
    EntriesWith(before, list, p, nodes, e);
    InsertEntrySorted(es, e);
    AscendingIfSorted(nodes, more);
    HoldsWith(before, l, list, p, nodes, e, height);
  }

  // A level above the node stays as it was.
  lemma KeptLevel(before: seq<Node>, l: nat, list: seq<nat>, nodes: seq<Node>, e: Entry, height: nat)
    requires ListOk(before, l, list) && l >= height && before != []
    requires SameShape(before + [Node(e, seq(height, _ => 0))], nodes)
    requires Linked(nodes, l, list)
    ensures ListOk(nodes, l, list) && Entries(nodes, list) == Entries(before, list)
  {
    NotIn(before, list);
  }

  // How a level ends up.
  ghost predicate LevelDone(before: seq<Node>, list0: seq<nat>, nodes: seq<Node>, list: seq<nat>, l: nat,
                            e: Entry, height: nat) {
    && ListOk(before, l, list0) && ListOk(nodes, l, list)
    && Entries(nodes, list) == if l < height then InsertEntry(Entries(before, list0), e) else Entries(before, list0)
  }

  lemma EndLevel(before: seq<Node>, lists0: seq<seq<nat>>, prev: seq<nat>, at: seq<nat>,
                 nodes: seq<Node>, lists: seq<seq<nat>>, e: Entry, height: nat, l: nat)
    requires Levels(before, lists0) && l < MAX_HEIGHT
    requires ListOk(before, 0, lists0[0]) && forall d :: d in Entries(before, lists0[0]) ==> d.key != e.key
    requires Linking(before, lists0, prev, at, nodes, lists, e, height, height)
    ensures LevelDone(before, lists0[l], nodes, lists[l], l, e, height)
  {
    hide Linked, Split, SameShape, Ascending, Holds, InsertEntry;
    assert ListOk(before, l, lists0[l]);
    assert LinkingAt(before, lists0[l], if l < |at| then at[l] else 0, nodes, lists[l], l, l < height);
    if l < height {
      assert Path(before, lists0, prev, at, e.key, l);
      KeyIsNew(before, l, lists0[l], lists0[0], e.key);
      GainedLevel(before, l, lists0[l], at[l], nodes, e, height);
    } else {
      KeptLevel(before, l, lists0[l], nodes, e, height);
    }
  }

  lemma EndShape(before: seq<Node>, maxHeight: nat, nodes: seq<Node>, e: Entry, height: nat)
    requires Shaped(before, maxHeight) && 1 <= height <= MAX_HEIGHT
    requires SameShape(before + [Node(e, seq(height, _ => 0))], nodes)
    ensures Shaped(nodes, if height > maxHeight then height else maxHeight)
  {
  }

  lemma EndLinking(before: seq<Node>, maxHeight: nat, lists0: seq<seq<nat>>, prev: seq<nat>, at: seq<nat>,
                   nodes: seq<Node>, lists: seq<seq<nat>>, e: Entry, height: nat)
    requires Shaped(before, maxHeight) && Levels(before, lists0) && 1 <= height <= MAX_HEIGHT
    requires ListOk(before, 0, lists0[0]) && forall d :: d in Entries(before, lists0[0]) ==> d.key != e.key
    requires Linking(before, lists0, prev, at, nodes, lists, e, height, height)
    ensures Shaped(nodes, if height > maxHeight then height else maxHeight) && Levels(nodes, lists)
    ensures forall l :: 0 <= l < MAX_HEIGHT ==> LevelDone(before, lists0[l], nodes, lists[l], l, e, height)
  {
    EndShape(before, maxHeight, nodes, e, height);
    hide LinkingAt, Path, ListOk, Shaped, InsertEntry, SameShape;
    forall l | 0 <= l < MAX_HEIGHT ensures LevelDone(before, lists0[l], nodes, lists[l], l, e, height) {
      EndLevel(before, lists0, prev, at, nodes, lists, e, height, l);
    }
    assert forall l :: 0 <= l < MAX_HEIGHT ==> LevelDone(before, lists0[l], nodes, lists[l], l, e, height);
  }

  lemma KeyIsNew(nodes: seq<Node>, l: nat, list: seq<nat>, bottom: seq<nat>, k: InternalKey)
    requires ListOk(nodes, l, list) && ListOk(nodes, 0, bottom)
    requires forall d :: d in Entries(nodes, bottom) ==> d.key != k
    ensures forall i :: 0 <= i < |list| ==> nodes[list[i]].entry.key != k
  {
    forall i | 0 <= i < |list| ensures nodes[list[i]].entry.key != k {
      assert list[i] in list;
      assert list[i] in bottom;
      var j :| 0 <= j < |bottom| && bottom[j] == list[i];
      assert Entries(nodes, bottom)[j] in Entries(nodes, bottom);
    }
  }

  // ---- Iterating ----------------------------------------------------------------------------------------------------------

  // A cursor over the contents; moving back searches for the node again.
  class Iterator {
    const list: SkipList
    var node: nat

    // The position in the contents, with their number for "not valid".
    ghost var pos: nat

    ghost predicate Ok()
      reads this, list
    {
      && list.Valid() && pos <= |list.lists[0]| && node == After(list.lists[0], pos)
    }

    constructor (list: SkipList)
      requires list.Valid()
      ensures Ok() && this.list == list && pos == |list.Contents()|
    {
      this.list, node := list, 0;
      pos := |list.lists[0]|;
    }

    predicate Valid()
      reads this
    {
      node != 0
    }

    lemma ValidInside()
      requires Ok()
      ensures Valid() <==> pos < |list.Contents()|
      ensures Valid() ==> node < |list.nodes| && list.nodes[node].entry == list.Contents()[pos]
    {
      assert ListOk(list.nodes, 0, list.lists[0]);
    }

    method Entry() returns (e: Entry)
      requires Ok() && Valid()
      ensures pos < |list.Contents()| && e == list.Contents()[pos]
    {
      ValidInside();
      e := list.nodes[node].entry;
    }

    method Next()
      requires Ok() && Valid()
      modifies this
      ensures Ok() && pos == old(pos) + 1
    {
      ValidInside();
      node := list.NextOf(node, 0, pos + 1);
      pos := pos + 1;
    }

    method Prev()
      requires Ok() && Valid()
      modifies this
      ensures Ok() && pos == if old(pos) == 0 then |list.Contents()| else old(pos) - 1
    {
      ValidInside();
      ghost var es := list.Contents();
      BoundOfItself(list.nodes, list.lists[0], pos);
      node := list.FindLessThan(list.nodes[node].entry.key);
      pos := if pos == 0 then |es| else pos - 1;
    }

    method Seek(k: InternalKey)
      requires Ok()
      modifies this
      ensures Ok() && pos == LowerBound(list.Contents(), k)
    {
      var x, _, at := list.FindGreaterOrEqual(k);
      node, pos := x, at[0];
    }

    method SeekToFirst()
      requires Ok()
      modifies this
      ensures Ok() && pos == 0
    {
      node, pos := list.NextOf(0, 0, 0), 0;
    }

    method SeekToLast()
      requires Ok()
      modifies this
      ensures Ok() && pos == if list.Contents() == [] then 0 else |list.Contents()| - 1
    {
      node := list.FindLast();
      pos := if |list.lists[0]| == 0 then 0 else |list.lists[0]| - 1;
    }
  }

  lemma BoundOfItself(nodes: seq<Node>, list: seq<nat>, i: nat)
    requires Ascending(nodes, list) && i < |list|
    ensures i == LowerBound(Entries(nodes, list), nodes[list[i]].entry.key)
  {
    LowerBoundIs(Entries(nodes, list), nodes[list[i]].entry.key, i);
  }

  // ---- The memtable ---------------------------------------------------------------------------------------------------------

  class MemTable {
    const table: SkipList

    ghost predicate Valid()
      reads this, table
    {
      table.Valid()
    }

    constructor (anyEntry: Entry)
      ensures Valid() && fresh(table) && table.Contents() == []
    {
      table := new SkipList(anyEntry);
    }

    method Add(s: Sequence, kind: Kind, u: UserKey, value: Bytes, height: nat)
      requires Valid() && 1 <= height <= MAX_HEIGHT
      requires forall d :: d in table.Contents() ==> d.key != InternalKey(u, s, kind)
      modifies table
      ensures Valid()
      ensures table.Contents() == InsertEntry(old(table.Contents()), DbFormat.Entry(InternalKey(u, s, kind), value))
    {
      table.Insert(DbFormat.Entry(InternalKey(u, s, kind), value), height);
    }

    // The newest entry of the user key at the snapshot, if there is one.
    method Get(u: UserKey, s: Sequence) returns (r: Option<Entry>)
      requires Valid()
      ensures r.Some? ==> Newest(EntrySet(table.Contents()), u, s, r.value)
      ensures r.None? ==> NoneSeen(EntrySet(table.Contents()), u, s)
    {
      var iter := new Iterator(table);
      iter.Seek(SeekKey(u, s));
      iter.ValidInside();
      ContentsSorted(table.nodes, table.lists[0]);
      r := None;
      if iter.Valid() {
        var e := iter.Entry();
        if e.key.user == u {
          r := Some(e);
        }
      }
      ProbeDecides(table.Contents(), u, s);
    }
  }

  lemma ContentsSorted(nodes: seq<Node>, list: seq<nat>)
    requires Ascending(nodes, list)
    ensures Sorted(Entries(nodes, list))
  {
  }

  // Whether the entry at the lower bound has the user key decides the lookup.
  lemma ProbeDecides(es: seq<Entry>, u: UserKey, s: Sequence)
    requires Sorted(es)
    ensures
      var i := LowerBound(es, SeekKey(u, s));
      if i < |es| && es[i].key.user == u then Newest(EntrySet(es), u, s, es[i]) else NoneSeen(EntrySet(es), u, s)
  {
  }
}
