/** Circular doubly linked lists through a memory of handles, each with a dummy head. */
module Rings {
  import opened DbFormat
  import opened Coding
  import opened HandleTables

  // A handle in memory. Handles are named by their address; heads of lists are handles too.
  datatype Handle = Handle(
    key: Bytes, hash: Uint32, charge: nat, inCache: bool, refs: nat, next: nat, prev: nat)

  type Memory = map<nat, Handle>

  ghost predicate Link(mem: Memory, a: nat, b: nat) {
    a in mem && b in mem && mem[a].next == b && mem[b].prev == a
  }

  // Position `i` of a ring: the head at both ends.
  function Node(head: nat, s: seq<nat>, i: nat): nat {
    if 1 <= i <= |s| then s[i - 1] else head
  }

  // From the head through the list, oldest first, and back.
  ghost predicate Ring(mem: Memory, head: nat, s: seq<nat>) {
    && head !in s && Distinct(s)
    && forall i :: 0 <= i <= |s| ==> Link(mem, Node(head, s, i), Node(head, s, i + 1))
  }

  ghost predicate OnRing(head: nat, s: seq<nat>, id: nat) {
    id == head || id in s
  }

  lemma RingMembers(mem: Memory, head: nat, s: seq<nat>, id: nat)
    requires Ring(mem, head, s) && OnRing(head, s, id)
    ensures id in mem && mem[id].next in mem && mem[id].prev in mem
    ensures OnRing(head, s, mem[id].next) && OnRing(head, s, mem[id].prev)
  {
    assert Link(mem, Node(head, s, 0), Node(head, s, 1));
    assert Link(mem, Node(head, s, |s|), Node(head, s, |s| + 1));
    if id != head {
      var p :| 0 <= p < |s| && s[p] == id;
      assert Link(mem, Node(head, s, p), Node(head, s, p + 1));
      assert Link(mem, Node(head, s, p + 1), Node(head, s, p + 2));
    }
  }

  lemma RingFrame(mem: Memory, mem1: Memory, head: nat, s: seq<nat>)
    requires Ring(mem, head, s)
    requires forall id :: OnRing(head, s, id) ==>
      id in mem1 && id in mem && mem1[id].next == mem[id].next && mem1[id].prev == mem[id].prev
    ensures Ring(mem1, head, s)
  {
    forall i | 0 <= i <= |s| ensures Link(mem1, Node(head, s, i), Node(head, s, i + 1)) {
      assert Link(mem, Node(head, s, i), Node(head, s, i + 1));
      assert OnRing(head, s, Node(head, s, i)) && OnRing(head, s, Node(head, s, i + 1));
    }
  }

  // Everything but the links.
  ghost predicate SameData(a: Memory, b: Memory) {
    && a.Keys == b.Keys
    && forall id :: id in a ==> a[id] == b[id].(next := a[id].next, prev := a[id].prev)
  }

  // Take a handle out of the list it is on.
  function Unlinked(mem: Memory, e: nat): (r: Memory)
    requires e in mem && mem[e].next in mem && mem[e].prev in mem
    ensures SameData(mem, r)
    ensures forall id :: id in mem && id != mem[e].next && id != mem[e].prev ==> r[id] == mem[id]
  {
    var m1 := mem[mem[e].next := mem[mem[e].next].(prev := mem[e].prev)];
    m1[mem[e].prev := m1[mem[e].prev].(next := mem[e].next)]
  }

  // Make a handle the newest of a list.
  function Appended(mem: Memory, head: nat, e: nat): (r: Memory)
    requires e in mem && head in mem && mem[head].prev in mem && e != head && mem[head].prev != e
    ensures SameData(mem, r)
    ensures forall id :: id in mem && id != e && id != head && id != mem[head].prev ==> r[id] == mem[id]
  {
    var last := mem[head].prev;
    var m1 := mem[e := mem[e].(next := head, prev := last)];
    var m2 := m1[last := m1[last].(next := e)];
    m2[head := m2[head].(prev := e)]
  }

  lemma NodesDiffer(head: nat, s: seq<nat>, i: nat, j: nat)
    requires head !in s && Distinct(s) && i < j <= |s|
    ensures Node(head, s, i) != Node(head, s, j)
  {
  }

  lemma UnlinkKeepsRing(mem: Memory, head: nat, s: seq<nat>, p: nat)
    requires Ring(mem, head, s) && p < |s|
    ensures s[p] in mem && mem[s[p]].next == Node(head, s, p + 2) && mem[s[p]].prev == Node(head, s, p)
    ensures mem[s[p]].next in mem && mem[s[p]].prev in mem
    ensures Ring(Unlinked(mem, s[p]), head, WithoutAt(s, p))
  {
    var e, r := s[p], WithoutAt(s, p);
    var a, b := Node(head, s, p), Node(head, s, p + 2);
    assert Link(mem, Node(head, s, p), Node(head, s, p + 1));
    assert Link(mem, Node(head, s, p + 1), Node(head, s, p + 2));
    WithoutAtOk(s, p);
    var mem1 := Unlinked(mem, e);
    assert mem1[a].next == b && mem1[b].prev == a;
    forall i | 0 <= i <= |r| ensures Link(mem1, Node(head, r, i), Node(head, r, i + 1)) {
      if i < p {
        assert Link(mem, Node(head, s, i), Node(head, s, i + 1));
        assert Node(head, r, i) == Node(head, s, i) && Node(head, r, i + 1) == Node(head, s, i + 1);
        NodesDiffer(head, s, i, p);
        KeepsPrev(mem, head, s, p, i + 1);
      } else if i == p {
        assert Node(head, r, i) == a && Node(head, r, i + 1) == b;
      } else {
        assert Link(mem, Node(head, s, i + 1), Node(head, s, i + 2));
        assert Node(head, r, i) == Node(head, s, i + 1) && Node(head, r, i + 1) == Node(head, s, i + 2);
        NodesDiffer(head, s, p, i + 1);
        KeepsPrev(mem, head, s, p, i + 2);
      }
    }
  }

  // Only the node behind the removed one gets another predecessor.
  lemma KeepsPrev(mem: Memory, head: nat, s: seq<nat>, p: nat, j: nat)
    requires head !in s && Distinct(s) && p < |s| && 1 <= j <= |s| + 1 && j != p + 2
    requires j <= p || j > p + 2
    ensures Node(head, s, j) != Node(head, s, p + 2)
  {
    if j <= p {
      if p + 2 <= |s| {
        NodesDiffer(head, s, j, p + 2);
      }
    } else if j <= |s| {
      NodesDiffer(head, s, p + 2, j);
    } else {
      NodesDiffer(head, s, 0, p + 2);
    }
  }

  lemma AppendKeepsRing(mem: Memory, head: nat, s: seq<nat>, e: nat)
    requires Ring(mem, head, s) && e in mem && !OnRing(head, s, e)
    ensures head in mem && mem[head].prev in mem && mem[head].prev == Node(head, s, |s|)
    ensures Ring(Appended(mem, head, e), head, s + [e])
  {
    assert Link(mem, Node(head, s, |s|), Node(head, s, |s| + 1));
    var mem1, r := Appended(mem, head, e), s + [e];
    var last := Node(head, s, |s|);
    forall i | 0 <= i <= |r| ensures Link(mem1, Node(head, r, i), Node(head, r, i + 1)) {
      if i < |s| {
        assert Link(mem, Node(head, s, i), Node(head, s, i + 1));
        assert Node(head, r, i) == Node(head, s, i) && Node(head, r, i + 1) == Node(head, s, i + 1);
        NodesDiffer(head, s, i, |s|);
        NodesDiffer(head, s, 0, i + 1);
      } else if i == |s| {
        assert Node(head, r, i) == last && Node(head, r, i + 1) == e;
      } else {
        assert Node(head, r, i) == e && Node(head, r, i + 1) == head;
      }
    }
  }
}
