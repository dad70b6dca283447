/** The least-recently-used cache: reference counts, a list of idle entries and one of entries in use. */
module Caches {
  import opened DbFormat
  import opened Coding
  import opened HandleTables
  import opened Rings

  // The dummy heads of the two lists.
  const LRU: nat := 0
  const IN_USE: nat := 1

  /**
   * Memory, the two lists (oldest first), the table, how many references clients hold, the sum of charges, the
   * handles that were passed to their deleter, and the next unused address.
   */
  datatype State = State(
    mem: Memory, lru: seq<nat>, inUse: seq<nat>, slots: map<Key, Slot>, clients: map<nat, nat>,
    usage: nat, deleted: seq<nat>, nextId: nat)

  function IndexOf(s: seq<nat>, x: nat): (i: nat)
    requires x in s
    ensures i < |s| && s[i] == x
  {
    if s[0] == x then 0 else 1 + IndexOf(s[1..], x)
  }

  function Without(s: seq<nat>, x: nat): seq<nat> {
    if x in s then WithoutAt(s, IndexOf(s, x)) else s
  }

  lemma WithoutOk(s: seq<nat>, x: nat)
    requires Distinct(s)
    ensures Distinct(Without(s, x)) && forall y :: y in Without(s, x) <==> y in s && y != x
  {
    if x in s {
      WithoutAtOk(s, IndexOf(s, x));
    }
  }

  function Charge(mem: Memory, id: nat): nat {
    if id in mem then mem[id].charge else 0
  }

  function Charges(mem: Memory, s: seq<nat>): nat {
    if s == [] then 0 else Charge(mem, s[0]) + Charges(mem, s[1..])
  }

  // ---- The invariant ----------------------------------------------------------------------------------------------

  ghost predicate TwoRings(mem: Memory, lru: seq<nat>, inUse: seq<nat>) {
    && Ring(mem, LRU, lru) && Ring(mem, IN_USE, inUse)
    && forall id :: !(OnRing(LRU, lru, id) && OnRing(IN_USE, inUse, id))
  }

  ghost predicate IsEntry(st: State, id: nat) {
    id in st.mem && id != LRU && id != IN_USE
  }

  ghost predicate Cached(st: State, id: nat) {
    IsEntry(st, id) && st.mem[id].inCache
  }

  /** A cached entry is on exactly one list: idle with the cache's reference only, or in use with more. */
  ghost predicate EntryOk(st: State, id: nat)
    requires id in st.mem
  {
    var h := st.mem[id];
    && id in st.clients && id < st.nextId
    && h.refs > 0 && h.refs == st.clients[id] + (if h.inCache then 1 else 0)
    && (id in st.lru <==> h.inCache && h.refs == 1)
    && (id in st.inUse <==> h.inCache && h.refs > 1)
  }

  ghost predicate Entries(st: State) {
    && (forall id :: IsEntry(st, id) ==> EntryOk(st, id))
    && forall id :: id in st.clients ==> IsEntry(st, id)
  }

  function SlotOf(h: Handle, id: nat): Slot {
    Slot(id, h.key, h.hash)
  }

  ghost predicate InTable(st: State, id: nat)
    requires id in st.mem
  {
    var s := SlotOf(st.mem[id], id);
    KeyOf(s) in st.slots && st.slots[KeyOf(s)] == s
  }

  // The table has exactly the cached entries, but for one that was just taken out.
  ghost predicate TableOk(st: State, lost: Option<nat>) {
    && (forall k :: k in st.slots ==>
         && Cached(st, st.slots[k].id) && st.slots[k] == SlotOf(st.mem[st.slots[k].id], st.slots[k].id)
         && KeyOf(st.slots[k]) == k && lost != Some(st.slots[k].id))
    && (forall id: nat :: Cached(st, id) && lost != Some(id) ==> InTable(st, id))
    && (lost.Some? ==> Cached(st, lost.value))
  }

  // No deleter runs twice, and every handle is either alive or deleted.
  ghost predicate Deletions(st: State) {
    && Distinct(st.deleted) && st.nextId >= 2
    && (forall id :: id in st.deleted ==> 2 <= id < st.nextId && id !in st.mem)
    && forall id :: 2 <= id < st.nextId ==> id in st.mem || id in st.deleted
  }

  // The lists are rings, and the charges on them add up to the usage.
  ghost predicate Lists(st: State) {
    && TwoRings(st.mem, st.lru, st.inUse)
    && st.usage == Charges(st.mem, st.lru) + Charges(st.mem, st.inUse)
  }

  ghost predicate Ok(st: State, lost: Option<nat>) {
    Lists(st) && Entries(st) && TableOk(st, lost) && Deletions(st)
  }

  // Every handle ever handed out has been deleted exactly once, or is still needed by a client or the table.
  lemma HandleFate(st: State, id: nat)
    requires Ok(st, None) && 2 <= id < st.nextId
    ensures id in st.deleted <==> !(id in st.clients && (st.clients[id] > 0 || Cached(st, id)))
    ensures multiset(st.deleted)[id] <= 1
    ensures Cached(st, id) <==> exists k :: k in st.slots && st.slots[k].id == id
    ensures Cached(st, id) ==> (id in st.lru <==> id !in st.inUse)
  {
    OnceInList(st.deleted, id);
    if IsEntry(st, id) {
      assert EntryOk(st, id);
    }
    if Cached(st, id) {
      assert InTable(st, id);
    }
  }

  lemma {:induction false} OnceInList(s: seq<nat>, x: nat)
    requires Distinct(s)
    ensures multiset(s)[x] <= 1
  {
    if s != [] {
      OnceInList(s[1..], x);
      assert s == [s[0]] + s[1..];
      if s[0] == x {
        assert x !in s[1..];
      }
    }
  }

  // ---- Charges ------------------------------------------------------------------------------------------------------

  lemma {:induction false} ChargesFrame(a: Memory, b: Memory, s: seq<nat>)
    requires forall id :: id in s ==> Charge(a, id) == Charge(b, id)
    ensures Charges(a, s) == Charges(b, s)
  {
    if s != [] {
      ChargesFrame(a, b, s[1..]);
    }
  }

  lemma {:induction false} ChargesAppend(mem: Memory, s: seq<nat>, x: nat)
    ensures Charges(mem, s + [x]) == Charges(mem, s) + Charge(mem, x)
  {
    if s == [] {
      assert [x][1..] == [];
    } else {
      ChargesAppend(mem, s[1..], x);
      assert (s + [x])[1..] == s[1..] + [x];
    }
  }

  lemma {:induction false} ChargesCut(mem: Memory, s: seq<nat>, i: nat)
    requires i < |s|
    ensures Charges(mem, s) == Charges(mem, WithoutAt(s, i)) + Charge(mem, s[i])
  {
    if i == 0 {
      assert WithoutAt(s, 0) == s[1..];
    } else {
      ChargesCut(mem, s[1..], i - 1);
      assert WithoutAt(s, i)[0] == s[0] && WithoutAt(s, i)[1..] == WithoutAt(s[1..], i - 1);
    }
  }

  lemma ChargesWithout(mem: Memory, s: seq<nat>, x: nat)
    ensures Charges(mem, s) == Charges(mem, Without(s, x)) + if x in s then Charge(mem, x) else 0
  {
    if x in s {
      ChargesCut(mem, s, IndexOf(s, x));
    }
  }

  // ---- Lists ----------------------------------------------------------------------------------------------------------

  lemma RingsFrame(mem: Memory, mem1: Memory, lru: seq<nat>, inUse: seq<nat>)
    requires TwoRings(mem, lru, inUse)
    requires forall id :: OnRing(LRU, lru, id) || OnRing(IN_USE, inUse, id) ==>
      id in mem1 && id in mem && mem1[id].next == mem[id].next && mem1[id].prev == mem[id].prev
    ensures TwoRings(mem1, lru, inUse)
  {
    RingFrame(mem, mem1, LRU, lru);
    RingFrame(mem, mem1, IN_USE, inUse);
  }

  lemma Detach(mem: Memory, lru: seq<nat>, inUse: seq<nat>, e: nat)
    requires TwoRings(mem, lru, inUse) && (e in lru || e in inUse)
    ensures e in mem && mem[e].next in mem && mem[e].prev in mem
    ensures TwoRings(Unlinked(mem, e), Without(lru, e), Without(inUse, e))
  {
    hide Ring, Unlinked, WithoutAt, IndexOf;
    var head, s, head2, s2 := LRU, lru, IN_USE, inUse;
    if e in inUse {
      head, s, head2, s2 := IN_USE, inUse, LRU, lru;
    }
    RingIsDistinct(mem, LRU, lru);
    RingIsDistinct(mem, IN_USE, inUse);
    WithoutOk(lru, e);
    WithoutOk(inUse, e);
    UnlinkKeepsRing(mem, head, s, IndexOf(s, e));
    RingMembers(mem, head, s, e);
    assert OnRing(head, s, e) && !OnRing(head2, s2, e);
    RingFrame(mem, Unlinked(mem, e), head2, s2) by {
      forall id | OnRing(head2, s2, id)
        ensures id in mem && Unlinked(mem, e)[id] == mem[id]
      {
        RingMembers(mem, head2, s2, id);
      }
    }
  }

  lemma RingIsDistinct(mem: Memory, head: nat, s: seq<nat>)
    requires Ring(mem, head, s)
    ensures Distinct(s) && head !in s
  {
  }

  lemma Attach(mem: Memory, lru: seq<nat>, inUse: seq<nat>, head: nat, e: nat)
    requires TwoRings(mem, lru, inUse) && e in mem && !OnRing(LRU, lru, e) && !OnRing(IN_USE, inUse, e)
    requires head == LRU || head == IN_USE
    ensures head in mem && mem[head].prev in mem && mem[head].prev != e
    ensures
      if head == LRU then TwoRings(Appended(mem, head, e), lru + [e], inUse)
      else TwoRings(Appended(mem, head, e), lru, inUse + [e])
  {
    hide Ring, Appended;
    var s, head2, s2 := lru, IN_USE, inUse;
    if head == IN_USE {
      s, head2, s2 := inUse, LRU, lru;
    }
    AppendKeepsRing(mem, head, s, e);
    RingMembers(mem, head, s, head);
    RingFrame(mem, Appended(mem, head, e), head2, s2) by {
      forall id | OnRing(head2, s2, id)
        ensures id in mem && Appended(mem, head, e)[id] == mem[id]
      {
        RingMembers(mem, head2, s2, id);
      }
    }
  }

  // The lists once `e` is the newest of one of them.
  function LruWith(lru: seq<nat>, e: nat, head: nat): seq<nat> {
    if head == LRU then Without(lru, e) + [e] else Without(lru, e)
  }

  function InUseWith(inUse: seq<nat>, e: nat, head: nat): seq<nat> {
    if head == LRU then Without(inUse, e) else Without(inUse, e) + [e]
  }

  lemma Relist(mem: Memory, lru: seq<nat>, inUse: seq<nat>, e: nat, head: nat)
    requires TwoRings(mem, lru, inUse) && (e in lru || e in inUse) && (head == LRU || head == IN_USE)
    ensures e in mem && mem[e].next in mem && mem[e].prev in mem
    ensures
      var m1 := Unlinked(mem, e);
      && TwoRings(m1, Without(lru, e), Without(inUse, e)) && e in m1
      && head in m1 && m1[head].prev in m1 && m1[head].prev != e && e != head
      && TwoRings(Appended(m1, head, e), LruWith(lru, e, head), InUseWith(inUse, e, head))
  {
    hide Ring, Unlinked, Appended, WithoutAt, IndexOf;
    RingIsDistinct(mem, LRU, lru);
    RingIsDistinct(mem, IN_USE, inUse);
    WithoutOk(lru, e);
    WithoutOk(inUse, e);
    Detach(mem, lru, inUse, e);
    assert OnRing(LRU, lru, e) || OnRing(IN_USE, inUse, e);
    assert OnRing(LRU, lru, LRU) && OnRing(IN_USE, inUse, IN_USE);
    assert e != LRU && e != IN_USE;
    Attach(Unlinked(mem, e), Without(lru, e), Without(inUse, e), head, e);
  }

  lemma RelistCharges(mem: Memory, mem1: Memory, lru: seq<nat>, inUse: seq<nat>, e: nat, head: nat)
    requires forall id :: Charge(mem1, id) == Charge(mem, id)
    requires Distinct(lru) && Distinct(inUse) && (e in lru <==> e !in inUse)
    ensures Charges(mem1, LruWith(lru, e, head)) + Charges(mem1, InUseWith(inUse, e, head))
         == Charges(mem, lru) + Charges(mem, inUse)
  {
    hide Charge, Charges, Without;
    var a, b := LruWith(lru, e, head), InUseWith(inUse, e, head);
    ChargesFrame(mem1, mem, a);
    ChargesFrame(mem1, mem, b);
    ChargesWithout(mem, lru, e);
    ChargesWithout(mem, inUse, e);
    ChargesAppend(mem, Without(lru, e), e);
    ChargesAppend(mem, Without(inUse, e), e);
  }

  // ---- What a step leaves alone -----------------------------------------------------------------------------------

  // Other handles keep everything but their links.
  ghost predicate SameBut(mem: Memory, mem1: Memory, e: nat) {
    forall id :: id != e ==>
      && (id in mem <==> id in mem1)
      && (id in mem ==> mem1[id] == mem[id].(next := mem1[id].next, prev := mem1[id].prev))
  }

  ghost predicate OthersStay(st: State, st1: State, e: nat) {
    && SameBut(st.mem, st1.mem, e) && st.nextId <= st1.nextId
    && forall id :: id != e ==>
         && (id in st.lru <==> id in st1.lru) && (id in st.inUse <==> id in st1.inUse)
         && (id in st.clients <==> id in st1.clients) && (id in st.clients ==> st1.clients[id] == st.clients[id])
  }

  lemma EntriesStep(st: State, st1: State, e: nat)
    requires Entries(st) && OthersStay(st, st1, e)
    requires IsEntry(st1, e) ==> EntryOk(st1, e)
    requires e in st1.clients ==> IsEntry(st1, e)
    ensures Entries(st1)
  {
    forall id | IsEntry(st1, id) ensures EntryOk(st1, id) {
      if id != e {
        assert IsEntry(st, id);
      }
    }
  }

  // The table does not change, and neither does what it knows of `e`.
  lemma TableStep(st: State, st1: State, e: nat, lost: Option<nat>)
    requires TableOk(st, lost) && SameBut(st.mem, st1.mem, e) && st1.slots == st.slots
    requires IsEntry(st, e) && IsEntry(st1, e)
    requires SlotOf(st1.mem[e], e) == SlotOf(st.mem[e], e) && st1.mem[e].inCache == st.mem[e].inCache
    ensures TableOk(st1, lost)
  {
    forall id: nat | Cached(st1, id) && lost != Some(id) ensures InTable(st1, id) {
      assert Cached(st, id);
      assert InTable(st, id);
    }
    forall k | k in st1.slots ensures Cached(st1, st1.slots[k].id) {
      assert Cached(st, st.slots[k].id);
    }
  }

  // `e` is outside the table now.
  lemma TableLeft(st: State, st1: State, e: nat, lost: Option<nat>)
    requires TableOk(st, lost) && SameBut(st.mem, st1.mem, e) && st1.slots == st.slots
    requires lost == Some(e) || !Cached(st, e)
    requires lost.Some? ==> lost.value == e
    requires !Cached(st1, e)
    ensures TableOk(st1, None)
  {
    forall id: nat | Cached(st1, id) ensures InTable(st1, id) {
      assert id != e && Cached(st, id);
      assert InTable(st, id);
    }
    forall k | k in st1.slots
      ensures Cached(st1, st1.slots[k].id)
      ensures st1.slots[k] == SlotOf(st1.mem[st1.slots[k].id], st1.slots[k].id)
    {
      assert Cached(st, st.slots[k].id) && st.slots[k].id != e;
    }
  }

  // ---- The cache --------------------------------------------------------------------------------------------------

  class LRUCache {
    var capacity: nat
    var usage: nat
    var mem: Memory
    const table: HandleTable
    var nextId: nat

    ghost var lru: seq<nat>
    ghost var inUse: seq<nat>
    ghost var clients: map<nat, nat>
    ghost var deleted: seq<nat>

    ghost function St(): State
      reads this, table
    {
      State(mem, lru, inUse, table.m, clients, usage, deleted, nextId)
    }

    ghost predicate Valid()
      reads this, table
    {
      table.Valid() && Ok(St(), None)
    }

    constructor (capacity: nat)
      ensures Valid() && this.capacity == capacity && fresh(table)
      ensures St().lru == [] && St().inUse == [] && St().slots == map[] && clients == map[] && deleted == []
    {
      this.capacity, usage, nextId := capacity, 0, 2;
      mem := map[LRU := Handle([], 0, 0, false, 0, LRU, LRU), IN_USE := Handle([], 0, 0, false, 0, IN_USE, IN_USE)];
      lru, inUse, clients, deleted := [], [], map[], [];
      table := new HandleTable();
    }

    // Make an entry the newest of one of the lists.
    method Move(e: nat, head: nat)
      requires TwoRings(mem, lru, inUse) && (e in lru || e in inUse) && (head == LRU || head == IN_USE)
      modifies this`mem, this`lru, this`inUse
      ensures TwoRings(mem, lru, inUse) && SameData(old(mem), mem)
      ensures lru == LruWith(old(lru), e, head) && inUse == InUseWith(old(inUse), e, head)
    {
      hide TwoRings, Without;
      Relist(mem, lru, inUse, e, head);
      mem := Unlinked(mem, e);
      mem := Appended(mem, head, e);
      lru, inUse := LruWith(lru, e, head), InUseWith(inUse, e, head);
    }

    // A client gets a reference; an idle entry becomes the newest one in use.
    method Ref(e: nat)
      requires Valid() && Cached(St(), e)
      modifies this`mem, this`lru, this`inUse, this`clients
      ensures Valid()
      ensures lru == Without(old(lru), e)
      ensures inUse == if e in old(inUse) then old(inUse) else old(inUse) + [e]
      ensures clients == old(clients)[e := old(clients)[e] + 1]
    {
      ghost var st := St();
      RingsOf(st);
      EntryFacts(st, e);
      hide Ok, HandleTable.Valid, TwoRings, SameData, WithoutAt, IndexOf, EntryOk;
      if mem[e].refs == 1 && mem[e].inCache {
        Move(e, IN_USE);
        DataStays(st.mem, mem, e);
      }
      ghost var moved := St();
      mem := mem[e := mem[e].(refs := mem[e].refs + 1)];
      clients := clients[e := clients[e] + 1];
      RefOk(st, moved, St(), e);
    }

    // One reference less: the last one ends the handle, the last of a client makes a cached entry idle.
    method Unref(e: nat)
      requires e in mem && mem[e].refs > 0
      requires mem[e].inCache && mem[e].refs == 2 ==> TwoRings(mem, lru, inUse) && (e in lru || e in inUse)
      modifies this`mem, this`lru, this`inUse, this`deleted
      ensures Dropped(old(mem), old(lru), old(inUse), mem, lru, inUse, e)
      ensures deleted == old(deleted) + if old(mem)[e].refs == 1 then [e] else []
    {
      hide TwoRings, SameData, LruWith, InUseWith;
      if mem[e].inCache && mem[e].refs == 2 {
        RingsUpdate(mem, lru, inUse, e, mem[e].(refs := 1));
      }
      mem := mem[e := mem[e].(refs := mem[e].refs - 1)];
      if mem[e].refs == 0 {
        deleted := deleted + [e];
        mem := mem - {e};
        assert mem == old(mem) - {e};
      } else if mem[e].inCache && mem[e].refs == 1 {
        Move(e, LRU);
      }
    }

    // A client gives its reference back.
    method Release(e: nat)
      requires Valid() && e in clients && clients[e] > 0
      modifies this`mem, this`lru, this`inUse, this`clients, this`deleted
      ensures Valid() && AfterRelease(old(St()), St(), e)
    {
      ghost var st := St();
      RingsOf(st);
      EntryFacts(st, e);
      hide Ok, HandleTable.Valid, TwoRings, EntryOk, Dropped, AfterRelease;
      ghost var last := mem[e].refs == 1;
      Unref(e);
      clients := if last then clients - {e} else clients[e := clients[e] - 1];
      ReleaseOk(st, St(), e);
    }

    // Take an entry off its list and out of the count.
    method TakeOut(e: nat)
      requires Ok(St(), Some(e))
      modifies this`mem, this`lru, this`inUse, this`usage
      ensures Taken(old(St()), St(), e)
    {
      ghost var st := St();
      LostFacts(st, e);
      hide Ok, TwoRings, EntryOk, Cached, Lists, Without;
      Detach(mem, lru, inUse, e);
      mem := Unlinked(mem, e);
      lru, inUse := Without(lru, e), Without(inUse, e);
      mem := mem[e := mem[e].(inCache := false)];
      usage := usage - mem[e].charge;
    }

    // Finish erasing an entry that is no longer in the table; it goes when no client holds it.
    method FinishErase(e: nat)
      requires table.Valid() && Ok(St(), Some(e))
      modifies this`mem, this`lru, this`inUse, this`clients, this`deleted, this`usage
      ensures Valid() && AfterErase(old(St()), St(), e)
    {
      ghost var st := St();
      hide Ok, HandleTable.Valid, Dropped, AfterErase, Taken;
      TakeOut(e);
      ghost var mid := St();
      TakenRefs(st, mid, e);
      ghost var last := mem[e].refs == 1;
      Unref(e);
      clients := if last then clients - {e} else clients;
      EraseOk(st, mid, St(), e);
    }

    // The entry that is not in the table yet becomes the newest in use.
    method AddInUse(e: nat)
      requires Ok(St(), None) && IsEntry(St(), e) && !Cached(St(), e) && e in clients && clients[e] == 1
      modifies this`mem, this`inUse, this`usage
      ensures Ok(St(), Some(e)) && AddedInUse(old(St()), St(), e)
    {
      ghost var st := St();
      RingsOf(st);
      EntryFacts(st, e);
      hide Ok, TwoRings, EntryOk, AddedInUse;
      mem := mem[e := mem[e].(refs := 2, inCache := true)];
      RingsUpdate(st.mem, lru, inUse, e, mem[e]);
      ghost var mem1 := mem;
      OffRings(st, e);
      Attach(mem, lru, inUse, IN_USE, e);
      mem := Appended(mem, IN_USE, e);
      inUse := inUse + [e];
      usage := usage + mem[e].charge;
      AddOk(st, mem1, St(), e);
    }

    /**
     * A new handle, held by the caller. With a capacity it takes the key's place in the cache; then idle entries
     * go, oldest first, until the rest fits or none is left.
     */
    method Insert(key: Bytes, hash: Uint32, charge: nat) returns (e: nat, ghost grown: State, ghost k: nat)
      requires Valid()
      modifies this, table
      ensures Valid() && e == old(nextId) && capacity == old(capacity)
      ensures Inserted(old(St()), grown, (key, hash), charge, capacity > 0)
      ensures Evicted(grown, St(), k) && (usage <= capacity || lru == [])
      ensures forall j :: 0 <= j < k ==> grown.usage - Charges(grown.mem, grown.lru[..j]) > capacity
    {
      hide Ok, HandleTable.Valid, Inserted, Evicted, AddedInUse, AfterErase;
      ghost var st := St();
      e := nextId;
      nextId := nextId + 1;
      mem := mem[e := Handle(key, hash, charge, false, 1, 0, 0)];
      clients := clients[e := 1];
      ghost var st1 := St();
      NewHandleOk(st, st1, key, hash, charge);
      if capacity > 0 {
        AddInUse(e);
        ghost var st2 := St();
        AddedFacts(st1, st2, e);
        var replaced := table.Insert(Slot(e, key, hash));
        PutOk(st2, e, (key, hash));
        ghost var st3 := St();
        if replaced.Some? {
          FinishErase(replaced.value.id);
          InsertedInPlace(st, st1, st2, st3, St(), (key, hash), charge);
        } else {
          InsertedNew(st, st1, st2, st3, (key, hash), charge);
        }
      } else {
        NotCached(st, st1, (key, hash), charge);
      }
      grown := St();
      k := Evict();
    }

    method Lookup(key: Bytes, hash: Uint32) returns (r: Option<nat>)
      requires Valid()
      modifies this`mem, this`lru, this`inUse, this`clients
      ensures Valid()
      ensures r.Some? <==> (key, hash) in table.m
      ensures r.None? ==> St() == old(St())
      ensures r.Some? ==>
        var e := r.value;
        && e == table.m[(key, hash)].id && e in old(clients)
        && clients == old(clients)[e := old(clients)[e] + 1]
        && lru == Without(old(lru), e) && inUse == if e in old(inUse) then old(inUse) else old(inUse) + [e]
    {
      hide Ok, HandleTable.Valid;
      var s := table.Lookup(key, hash);
      r := None;
      if s.Some? {
        TableFacts(St(), (key, hash));
        Ref(s.value.id);
        r := Some(s.value.id);
      }
    }

    method Erase(key: Bytes, hash: Uint32)
      requires Valid()
      modifies this`mem, this`lru, this`inUse, this`clients, this`deleted, this`usage, table
      ensures Valid() && table.m == old(table.m) - {(key, hash)}
      ensures (key, hash) !in old(table.m) ==> St() == old(St())
      ensures (key, hash) in old(table.m) ==>
        AfterErase(old(St()).(slots := old(table.m) - {(key, hash)}), St(), old(table.m)[(key, hash)].id)
    {
      hide Ok, HandleTable.Valid, AfterErase;
      ghost var st := St();
      var s := table.Remove(key, hash);
      if s.Some? {
        LoseOk(st, (key, hash));
        assert St() == st.(slots := st.slots - {(key, hash)});
        FinishErase(s.value.id);
      } else {
        assert st.slots - {(key, hash)} == st.slots;
      }
    }

    // Erase the oldest idle entry.
    method EvictOldest()
      requires Valid() && lru != []
      modifies this`mem, this`lru, this`inUse, this`clients, this`deleted, this`usage, table
      ensures Valid() && Evicted(old(St()), St(), 1)
    {
      ghost var st := St();
      OldestFacts(st);
      hide Ok, HandleTable.Valid, AfterErase, Evicted, InTable;
      var e := mem[LRU].next;
      var key, hash := mem[e].key, mem[e].hash;
      ghost var k := (key, hash);
      var s := table.Remove(key, hash);
      LoseOk(st, k);
      ghost var lost := St();
      FinishErase(e);
      EvictedOne(st, lost, St(), k);
    }

    // Erase idle entries, oldest first, until the rest fits or none is left.
    method Evict() returns (ghost k: nat)
      requires Valid()
      modifies this`mem, this`lru, this`inUse, this`clients, this`deleted, this`usage, table
      ensures Valid() && Evicted(old(St()), St(), k) && (usage <= capacity || lru == [])
      ensures forall j :: 0 <= j < k ==> old(usage) - Charges(old(mem), old(lru)[..j]) > capacity
    {
      hide Ok, HandleTable.Valid, Evicted;
      k := 0;
      ghost var st := St();
      EvictedNone(st);
      OldestIsFirst(st);
      while usage > capacity && mem[LRU].next != LRU
        invariant Valid() && Evicted(st, St(), k)
        invariant LRU in mem && (mem[LRU].next == LRU <==> lru == []) && k <= |st.lru|
        invariant forall j :: 0 <= j < k ==> st.usage - Charges(st.mem, st.lru[..j]) > capacity
        decreases |lru|
      {
        ghost var a := St();
        EvictOldest();
        EvictedMore(st, a, St(), k);
        OldestIsFirst(St());
        k := k + 1;
      }
    }

    // Erase all idle entries.
    method Prune()
      requires Valid()
      modifies this`mem, this`lru, this`inUse, this`clients, this`deleted, this`usage, table
      ensures Valid() && lru == [] && Evicted(old(St()), St(), |old(lru)|)
    {
      hide Ok, HandleTable.Valid, Evicted;
      ghost var k := 0;
      ghost var st := St();
      EvictedNone(st);
      OldestIsFirst(st);
      while mem[LRU].next != LRU
        invariant Valid() && Evicted(st, St(), k) && k + |lru| == |st.lru|
        invariant LRU in mem && (mem[LRU].next == LRU <==> lru == [])
        decreases |lru|
      {
        ghost var a := St();
        EvictOldest();
        EvictedMore(st, a, St(), k);
        OldestIsFirst(St());
        k := k + 1;
      }
    }
  }

  lemma TableFacts(st: State, k: Key)
    requires Ok(st, None) && k in st.slots
    ensures Cached(st, st.slots[k].id) && st.slots[k].id in st.clients
  {
    assert EntryOk(st, st.slots[k].id);
  }

  // Out of the table first: the entry is the lost one.
  lemma LoseOk(st: State, k: Key)
    requires Ok(st, None) && k in st.slots
    ensures Ok(st.(slots := st.slots - {k}), Some(st.slots[k].id))
  {
    var e, st1 := st.slots[k].id, st.(slots := st.slots - {k});
    hide TwoRings, Charges, Deletions;
    forall id: nat | Cached(st1, id) && id != e ensures InTable(st1, id) {
      assert Cached(st, id);
      assert InTable(st, id);
    }
    forall j | j in st1.slots
      ensures Cached(st1, st1.slots[j].id) && st1.slots[j] == SlotOf(st1.mem[st1.slots[j].id], st1.slots[j].id)
      ensures KeyOf(st1.slots[j]) == j && e != st1.slots[j].id
    {
      assert Cached(st, st.slots[j].id);
    }
    assert Entries(st1) by {
      EntriesStep(st, st1, e);
    }
  }

  lemma OldestIsFirst(st: State)
    requires Ok(st, None)
    ensures LRU in st.mem && (st.mem[LRU].next == LRU <==> st.lru == [])
    ensures st.lru != [] ==> st.mem[LRU].next == st.lru[0]
  {
    assert Link(st.mem, Node(LRU, st.lru, 0), Node(LRU, st.lru, 1));
  }

  lemma OldestFacts(st: State)
    requires Ok(st, None) && st.lru != []
    ensures LRU in st.mem && st.mem[LRU].next == st.lru[0] && Cached(st, st.lru[0])
    ensures InTable(st, st.lru[0]) && st.lru[0] in st.clients && st.clients[st.lru[0]] == 0
    ensures
      var s := SlotOf(st.mem[st.lru[0]], st.lru[0]);
      KeyOf(s) in st.slots && st.slots[KeyOf(s)] == s
  {
    OldestIsFirst(st);
    var e := st.lru[0];
    RingMembers(st.mem, LRU, st.lru, e);
    assert !OnRing(IN_USE, st.inUse, e) by {
      assert OnRing(LRU, st.lru, e);
    }
    assert e != LRU && e != IN_USE;
    assert EntryOk(st, e);
  }

  // The `k` oldest idle entries are gone, in that order, and the rest stays.
  ghost predicate Evicted(st: State, st1: State, k: nat) {
    && k <= |st.lru|
    && st1.lru == st.lru[k..] && st1.inUse == st.inUse
    && st1.deleted == st.deleted + st.lru[..k]
    && st1.usage == st.usage - Charges(st.mem, st.lru[..k])
    && (forall key :: key in st1.slots <==> key in st.slots && st.slots[key].id !in st.lru[..k])
    && (forall key :: key in st1.slots ==> st1.slots[key] == st.slots[key])
    && (forall id :: id in st1.clients <==> id in st.clients && id !in st.lru[..k])
    && (forall id :: id in st1.clients ==> st1.clients[id] == st.clients[id])
    && (forall id :: id in st.lru[k..] ==> Charge(st1.mem, id) == Charge(st.mem, id))
    && st1.nextId == st.nextId
  }

  lemma EvictedNone(st: State)
    ensures Evicted(st, st, 0)
  {
  }
  // ---- Insertion ----------------------------------------------------------------------------------------------------

  ghost predicate AddedInUse(st: State, st1: State, e: nat) {
    && e in st.mem && e in st1.mem
    && SameBut(st.mem, st1.mem, e) && SlotOf(st1.mem[e], e) == SlotOf(st.mem[e], e)
    && st1.mem[e].charge == st.mem[e].charge && st1.mem[e].inCache
    && st1 == st.(mem := st1.mem, inUse := st.inUse + [e], usage := st.usage + st.mem[e].charge)
  }

  lemma OffRings(st: State, e: nat)
    requires Entries(st) && IsEntry(st, e) && !Cached(st, e)
    ensures !OnRing(LRU, st.lru, e) && !OnRing(IN_USE, st.inUse, e)
  {
    assert EntryOk(st, e);
  }

  lemma NewHandleOk(st: State, st1: State, key: Bytes, hash: Uint32, charge: nat)
    requires Ok(st, None)
    requires
      var e := st.nextId;
      st1 == st.(mem := st.mem[e := Handle(key, hash, charge, false, 1, 0, 0)], clients := st.clients[e := 1],
                 nextId := e + 1)
    ensures Ok(st1, None) && IsEntry(st1, st.nextId) && !Cached(st1, st.nextId)
  {
    var e := st.nextId;
    FreshAddress(st);
    hide TwoRings, Charges;
    ListsFrame(st, st1);
    EntriesStep(st, st1, e);
    TableLeft(st, st1, e, None);
  }

  lemma ListsFrame(st: State, st1: State)
    requires Lists(st) && st1.lru == st.lru && st1.inUse == st.inUse && st1.usage == st.usage
    requires forall id :: id in st.mem ==> id in st1.mem && st1.mem[id] == st.mem[id]
    ensures Lists(st1)
  {
    forall id | OnRing(LRU, st.lru, id) || OnRing(IN_USE, st.inUse, id) ensures id in st.mem {
      if OnRing(LRU, st.lru, id) {
        RingMembers(st.mem, LRU, st.lru, id);
      } else {
        RingMembers(st.mem, IN_USE, st.inUse, id);
      }
    }
    hide TwoRings;
    RingsFrame(st.mem, st1.mem, st.lru, st.inUse);
    ChargesFrame(st.mem, st1.mem, st.lru);
    ChargesFrame(st.mem, st1.mem, st.inUse);
  }

  // The next address is not in use.
  lemma FreshAddress(st: State)
    requires Ok(st, None)
    ensures st.nextId !in st.mem && st.nextId >= 2 && st.nextId !in st.clients
    ensures st.nextId !in st.lru && st.nextId !in st.inUse
  {
    forall id: nat | IsEntry(st, id) ensures id < st.nextId {
      assert EntryOk(st, id);
    }
    assert !IsEntry(st, st.nextId);
    forall id | OnRing(LRU, st.lru, id) ensures id in st.mem {
      RingMembers(st.mem, LRU, st.lru, id);
    }
    forall id | OnRing(IN_USE, st.inUse, id) ensures id in st.mem {
      RingMembers(st.mem, IN_USE, st.inUse, id);
    }
  }

  lemma AddOk(st: State, mem1: Memory, st1: State, e: nat)
    requires Ok(st, None) && IsEntry(st, e) && !Cached(st, e) && e in st.clients && st.clients[e] == 1
    requires mem1 == st.mem[e := st.mem[e].(refs := 2, inCache := true)]
    requires TwoRings(st1.mem, st1.lru, st1.inUse) && SameData(mem1, st1.mem)
    requires st1 == st.(mem := st1.mem, inUse := st.inUse + [e], usage := st.usage + st.mem[e].charge)
    ensures Ok(st1, Some(e)) && AddedInUse(st, st1, e)
  {
    hide TwoRings, Charges, Deletions;
    EntryFacts(st, e);
    EntriesStep(st, st1, e);
    AddedTable(st, st1, e);
    ChargesFrame(st.mem, st1.mem, st.lru);
    ChargesFrame(st.mem, st1.mem, st.inUse);
    ChargesAppend(st1.mem, st.inUse, e);
    DeletionsStay(st, st1);
  }

  lemma DeletionsStay(st: State, st1: State)
    requires Deletions(st) && st1.mem.Keys == st.mem.Keys && st1.deleted == st.deleted && st1.nextId == st.nextId
    ensures Deletions(st1)
  {
    assert forall id :: id in st1.mem <==> id in st1.mem.Keys;
  }

  lemma AddedTable(st: State, st1: State, e: nat)
    requires TableOk(st, None) && SameBut(st.mem, st1.mem, e) && st1.slots == st.slots && !Cached(st, e)
    requires Cached(st1, e)
    ensures TableOk(st1, Some(e))
  {
    forall id: nat | Cached(st1, id) && id != e ensures InTable(st1, id) {
      assert Cached(st, id);
      assert InTable(st, id);
    }
    forall k | k in st1.slots
      ensures Cached(st1, st1.slots[k].id) && st1.slots[k].id != e
      ensures st1.slots[k] == SlotOf(st1.mem[st1.slots[k].id], st1.slots[k].id)
    {
      assert Cached(st, st.slots[k].id) && st.slots[k].id != e;
    }
  }

  lemma AddedFacts(st1: State, st2: State, e: nat)
    requires Ok(st2, Some(e)) && AddedInUse(st1, st2, e)
    ensures e in st1.mem && Cached(st2, e) && KeyOf(SlotOf(st2.mem[e], e)) == KeyOf(SlotOf(st1.mem[e], e))
  {
  }

  // The table takes the entry in; the one it held under the key is the lost one.
  lemma PutOk(st: State, e: nat, k: Key)
    requires Ok(st, Some(e)) && Cached(st, e) && k == KeyOf(SlotOf(st.mem[e], e))
    ensures Ok(st.(slots := st.slots[k := Slot(e, k.0, k.1)]), if k in st.slots then Some(st.slots[k].id) else None)
  {
    var st1 := st.(slots := st.slots[k := Slot(e, k.0, k.1)]);
    var lost := if k in st.slots then Some(st.slots[k].id) else None;
    hide TwoRings, Charges, Deletions;
    forall id: nat | Cached(st1, id) && lost != Some(id) ensures InTable(st1, id) {
      if id != e {
        assert Cached(st, id);
        assert InTable(st, id);
      }
    }
    forall j | j in st1.slots
      ensures Cached(st1, st1.slots[j].id) && st1.slots[j] == SlotOf(st1.mem[st1.slots[j].id], st1.slots[j].id)
      ensures KeyOf(st1.slots[j]) == j && lost != Some(st1.slots[j].id)
    {
      if j != k {
        assert Cached(st, st.slots[j].id);
      }
    }
    EntriesStep(st, st1, e);
  }

  // What an insertion does before anything is evicted.
  ghost predicate Inserted(st: State, g: State, k: Key, charge: nat, cached: bool) {
    var e := st.nextId;
    && g.nextId == e + 1
    && e in g.mem && SlotOf(g.mem[e], e) == Slot(e, k.0, k.1) && g.mem[e].charge == charge
    && if !cached then
         g == st.(mem := g.mem, clients := st.clients[e := 1], nextId := e + 1)
       else
         && g.slots == st.slots[k := Slot(e, k.0, k.1)]
         && if k !in st.slots then
              && g.lru == st.lru && g.inUse == st.inUse + [e] && g.usage == st.usage + charge
              && g.deleted == st.deleted && g.clients == st.clients[e := 1]
            else
              var o := st.slots[k].id;
              && g.lru == Without(st.lru, o) && g.inUse == Without(st.inUse + [e], o)
              && g.usage == st.usage + charge - Charge(st.mem, o)
              && o in st.clients
              && g.deleted == (if st.clients[o] == 0 then st.deleted + [o] else st.deleted)
              && g.clients == (if st.clients[o] == 0 then st.clients[e := 1] - {o} else st.clients[e := 1])
  }

  ghost predicate HasNewHandle(st: State, st1: State, k: Key, charge: nat) {
    st1 == st.(mem := st.mem[st.nextId := Handle(k.0, k.1, charge, false, 1, 0, 0)],
               clients := st.clients[st.nextId := 1], nextId := st.nextId + 1)
  }

  lemma NotCached(st: State, st1: State, k: Key, charge: nat)
    requires HasNewHandle(st, st1, k, charge)
    ensures Inserted(st, st1, k, charge, false)
  {
  }

  lemma InsertedNew(st: State, st1: State, st2: State, st3: State, k: Key, charge: nat)
    requires HasNewHandle(st, st1, k, charge) && AddedInUse(st1, st2, st.nextId)
    requires st3 == st2.(slots := st2.slots[k := Slot(st.nextId, k.0, k.1)]) && k !in st.slots
    ensures Inserted(st, st3, k, charge, true)
  {
  }

  lemma InsertedInPlace(st: State, st1: State, st2: State, st3: State, g: State, k: Key, charge: nat)
    requires Ok(st, None) && HasNewHandle(st, st1, k, charge) && AddedInUse(st1, st2, st.nextId)
    requires st3 == st2.(slots := st2.slots[k := Slot(st.nextId, k.0, k.1)]) && k in st.slots
    requires AfterErase(st3, g, st.slots[k].id)
    ensures Inserted(st, g, k, charge, true)
  {
    TableFacts(st, k);
    FreshAddress(st);
    var o := st.slots[k].id;
    hide Ok, Without;
    assert o in st.mem && o != st.nextId;
    assert SlotOf(g.mem[st.nextId], st.nextId) == SlotOf(st3.mem[st.nextId], st.nextId);
  }

  // ---- Eviction -----------------------------------------------------------------------------------------------------

  lemma KeyOfEntry(st: State, k: Key, j: Key)
    requires TableOk(st, None) && k in st.slots && j in st.slots && st.slots[j].id == st.slots[k].id
    ensures j == k
  {
  }

  lemma FirstLeaves(s: seq<nat>)
    requires s != [] && Distinct(s)
    ensures Without(s, s[0]) == s[1..] && s[..1] == [s[0]] && s[0] !in s[1..]
  {
    assert WithoutAt(s, 0) == s[1..];
  }

  lemma EvictedOne(st: State, lost: State, st1: State, k: Key)
    requires Ok(st, None) && st.lru != [] && st.lru[0] in st.clients && st.clients[st.lru[0]] == 0
    requires k in st.slots && st.slots[k].id == st.lru[0]
    requires lost == st.(slots := st.slots - {k}) && AfterErase(lost, st1, st.lru[0])
    ensures Evicted(st, st1, 1)
  {
    var e := st.lru[0];
    RingsOf(st);
    RingsAreDistinct(st.mem, st.lru, st.inUse);
    FirstLeaves(st.lru);
    assert Charges(st.mem, [e]) == Charge(st.mem, e) by {
      ChargesAppend(st.mem, [], e);
      assert [] + [e] == [e];
    }
    forall j | j in st.slots ensures st.slots[j].id == e <==> j == k {
      if st.slots[j].id == e {
        KeyOfEntry(st, k, j);
      }
    }
    forall id | id in st.lru[1..] ensures Charge(st1.mem, id) == Charge(st.mem, id) {
      assert id != e;
    }
  }

  lemma EvictedMore(st: State, a: State, b: State, k: nat)
    requires Evicted(st, a, k) && Evicted(a, b, 1) && a.lru != []
    ensures k < |st.lru| && Evicted(st, b, k + 1)
    ensures |b.lru| + 1 == |a.lru| && a.usage == st.usage - Charges(st.mem, st.lru[..k])
  {
    var e := st.lru[k];
    assert st.lru[..k + 1] == st.lru[..k] + [e];
    assert a.lru[..1] == [e] && a.lru[1..] == st.lru[k + 1..];
    assert st.lru[k..] == [e] + st.lru[k + 1..];
    hide Charge;
    ChargesAppend(st.mem, st.lru[..k], e);
    assert Charges(a.mem, [e]) == Charge(a.mem, e) by {
      ChargesAppend(a.mem, [], e);
      assert [] + [e] == [e];
    }
  }

  // An entry is off its list and out of the count, and no longer marked as cached.
  ghost predicate Taken(st: State, mid: State, e: nat) {
    && e in st.mem && st.mem[e].next in st.mem && st.mem[e].prev in st.mem
    && st.usage >= st.mem[e].charge
    && mid == st.(mem := Unlinked(st.mem, e)[e := Unlinked(st.mem, e)[e].(inCache := false)],
                  lru := Without(st.lru, e), inUse := Without(st.inUse, e), usage := st.usage - st.mem[e].charge)
  }

  lemma TakenRefs(st: State, mid: State, e: nat)
    requires Ok(st, Some(e)) && Taken(st, mid, e)
    ensures e in mid.mem && mid.mem[e].refs > 0 && !mid.mem[e].inCache
  {
    TakenFacts(st, mid, e);
  }

  lemma TakenFacts(st: State, mid: State, e: nat)
    requires Ok(st, Some(e)) && Taken(st, mid, e)
    ensures e in mid.mem && mid.mem[e].refs == st.mem[e].refs > 0 && !mid.mem[e].inCache
    ensures mid.mem[e].refs == st.mem[e].refs && mid.mem[e].key == st.mem[e].key && mid.mem[e].charge == st.mem[e].charge
    ensures SameBut(st.mem, mid.mem, e) && mid.lru == Without(st.lru, e) && mid.inUse == Without(st.inUse, e)
    ensures mid == st.(mem := mid.mem, lru := mid.lru, inUse := mid.inUse, usage := mid.usage)
    ensures mid.usage == st.usage - st.mem[e].charge
  {
    LostFacts(st, e);
  }

  lemma LostFacts(st: State, e: nat)
    requires Ok(st, Some(e))
    ensures IsEntry(st, e) && Cached(st, e) && EntryOk(st, e) && TwoRings(st.mem, st.lru, st.inUse)
    ensures st.mem[e].refs > 0 && (e in st.lru || e in st.inUse) && st.usage >= st.mem[e].charge
  {
    RingsAreDistinct(st.mem, st.lru, st.inUse);
    ChargesWithout(st.mem, st.lru, e);
    ChargesWithout(st.mem, st.inUse, e);
  }

  // What taking an entry out of the cache does once it is out of the table.
  ghost predicate AfterErase(st: State, st1: State, e: nat) {
    && e in st.mem && e in st.clients && st.usage >= st.mem[e].charge
    && var last := st.clients[e] == 0;
    && st1.lru == Without(st.lru, e) && st1.inUse == Without(st.inUse, e)
    && st1.usage == st.usage - st.mem[e].charge
    && st1.deleted == (if last then st.deleted + [e] else st.deleted)
    && st1.clients == (if last then st.clients - {e} else st.clients)
    && st1.slots == st.slots && st1.nextId == st.nextId
    && SameBut(st.mem, st1.mem, e)
  }

  lemma MidLists(st: State, mid: State, e: nat)
    requires Lists(st) && IsEntry(st, e) && (e in st.lru || e in st.inUse) && Taken(st, mid, e)
    ensures Lists(mid)
  {
    hide TwoRings, Unlinked, Charges, Without;
    RingsAreDistinct(st.mem, st.lru, st.inUse);
    Detach(st.mem, st.lru, st.inUse, e);
    RingsUpdate(Unlinked(st.mem, e), mid.lru, mid.inUse, e, mid.mem[e]);
    ChargesWithout(st.mem, st.lru, e);
    ChargesWithout(st.mem, st.inUse, e);
    ChargesFrame(st.mem, mid.mem, mid.lru);
    ChargesFrame(st.mem, mid.mem, mid.inUse);
  }

  lemma MidKeeps(st: State, mid: State, e: nat)
    requires Ok(st, Some(e)) && Cached(st, e)
    requires SameBut(st.mem, mid.mem, e) && e in mid.mem && !mid.mem[e].inCache
    requires mid.lru == Without(st.lru, e) && mid.inUse == Without(st.inUse, e)
    requires mid == st.(mem := mid.mem, lru := mid.lru, inUse := mid.inUse, usage := mid.usage)
    ensures OthersStay(st, mid, e) && TableOk(mid, None) && Deletions(mid)
    ensures e !in mid.lru && e !in mid.inUse
  {
    RingsAreDistinct(st.mem, st.lru, st.inUse);
    WithoutOk(st.lru, e);
    WithoutOk(st.inUse, e);
    TableLeft(st, mid, e, Some(e));
  }

  lemma EraseFrees(st: State, mid: State, st1: State, e: nat)
    requires Ok(st, Some(e)) && Taken(st, mid, e) && mid.mem[e].refs == 1
    requires st1 == mid.(mem := mid.mem - {e}, clients := st.clients - {e}, deleted := st.deleted + [e])
    ensures Ok(st1, None) && AfterErase(st, st1, e)
  {
    hide TwoRings, TableOk, Charges, Deletions, Lists, Without, Taken;
    LostFacts(st, e);
    TakenFacts(st, mid, e);
    MidLists(st, mid, e);
    MidKeeps(st, mid, e);
    FreedOk(mid, st1, e);
    EntriesStep(st, st1, e);
  }

  lemma EraseKeeps(st: State, mid: State, st1: State, e: nat)
    requires Ok(st, Some(e)) && Taken(st, mid, e) && mid.mem[e].refs > 1
    requires st1 == mid.(mem := Counted(mid.mem, e, mid.mem[e].refs - 1))
    ensures Ok(st1, None) && AfterErase(st, st1, e)
  {
    hide TwoRings, TableOk, Charges, Deletions, Lists, Without, Taken;
    LostFacts(st, e);
    TakenFacts(st, mid, e);
    MidLists(st, mid, e);
    MidKeeps(st, mid, e);
    Recounted(mid, st1, e, None);
    EntriesStep(st, st1, e);
  }

  lemma EraseOk(st: State, mid: State, st1: State, e: nat)
    requires Ok(st, Some(e)) && Taken(st, mid, e) && mid.mem[e].refs > 0
    requires Dropped(mid.mem, mid.lru, mid.inUse, st1.mem, st1.lru, st1.inUse, e)
    requires
      var last := mid.mem[e].refs == 1;
      st1 == mid.(mem := st1.mem, lru := st1.lru, inUse := st1.inUse,
                  clients := if last then st.clients - {e} else st.clients,
                  deleted := st.deleted + if last then [e] else [])
    ensures Ok(st1, None) && AfterErase(st, st1, e)
  {
    TakenFacts(st, mid, e);
    hide Ok, Taken, AfterErase;
    if mid.mem[e].refs == 1 {
      EraseFrees(st, mid, st1, e);
    } else {
      assert st.deleted + [] == st.deleted;
      EraseKeeps(st, mid, st1, e);
    }
  }

  // An idle entry goes to the end of the idle ones; a handle nobody needs is passed to its deleter.
  ghost predicate AfterRelease(st: State, st1: State, e: nat) {
    && e in st.mem && e in st.clients && st.clients[e] > 0
    && var idle := st.mem[e].inCache && st.clients[e] == 1;
    var last := !st.mem[e].inCache && st.clients[e] == 1;
    && st1.lru == (if idle then st.lru + [e] else st.lru)
    && st1.inUse == (if idle then Without(st.inUse, e) else st.inUse)
    && st1.deleted == (if last then st.deleted + [e] else st.deleted)
    && st1.clients == (if last then st.clients - {e} else st.clients[e := st.clients[e] - 1])
    && st1.slots == st.slots && st1.usage == st.usage && st1.nextId == st.nextId
  }

  // What dropping one reference does to memory and lists.
  ghost predicate Dropped(mem: Memory, lru: seq<nat>, inUse: seq<nat>,
                          mem1: Memory, lru1: seq<nat>, inUse1: seq<nat>, e: nat)
    requires e in mem && mem[e].refs > 0
  {
    if mem[e].refs == 1 then mem1 == mem - {e} && lru1 == lru && inUse1 == inUse
    else if mem[e].refs == 2 && mem[e].inCache then
      && SameData(Counted(mem, e, 1), mem1) && TwoRings(mem1, lru1, inUse1)
      && lru1 == LruWith(lru, e, LRU) && inUse1 == InUseWith(inUse, e, LRU)
    else mem1 == Counted(mem, e, mem[e].refs - 1) && lru1 == lru && inUse1 == inUse
  }

  // One entry with another count of references.
  function Counted(mem: Memory, e: nat, refs: nat): Memory
    requires e in mem
  {
    mem[e := mem[e].(refs := refs)]
  }

  // What giving a client's reference back does.
  ghost predicate Released(st: State, st1: State, e: nat)
    requires e in st.mem && e in st.clients && st.clients[e] > 0 && st.mem[e].refs > 0
  {
    var last := st.mem[e].refs == 1;
    && Dropped(st.mem, st.lru, st.inUse, st1.mem, st1.lru, st1.inUse, e)
    && st1 == st.(mem := st1.mem, lru := st1.lru, inUse := st1.inUse,
                  clients := if last then st.clients - {e} else st.clients[e := st.clients[e] - 1],
                  deleted := st.deleted + if last then [e] else [])
  }

  lemma ReleaseOk(st: State, st1: State, e: nat)
    requires Ok(st, None) && e in st.mem && e in st.clients && st.clients[e] > 0 && st.mem[e].refs > 0
    requires Released(st, st1, e)
    ensures Ok(st1, None) && AfterRelease(st, st1, e)
  {
    hide TwoRings, TableOk, Charges, Deletions, Lists;
    EntryFacts(st, e);
    if st.mem[e].refs == 1 {
      assert st.deleted + [e] == st1.deleted;
      FreedOk(st, st1, e);
    } else {
      assert st.deleted + [] == st.deleted;
      var counted := st.(mem := Counted(st.mem, e, st.mem[e].refs - 1), clients := st.clients[e := st.clients[e] - 1]);
      Recounted(st, counted, e, None);
      if Cached(st, e) && st.mem[e].refs == 2 {
        MovedKeeps(counted, st1, e, LRU);
      }
    }
    EntriesStep(st, st1, e);
  }

  // Freeing a handle that is on no list and not cached.
  lemma FreedOk(st: State, st1: State, e: nat)
    requires Lists(st) && TableOk(st, None) && Deletions(st)
    requires IsEntry(st, e) && e < st.nextId && !Cached(st, e) && e !in st.lru && e !in st.inUse
    requires st1 == st.(mem := st.mem - {e}, clients := st.clients - {e}, deleted := st.deleted + [e])
    ensures Lists(st1) && TableOk(st1, None) && Deletions(st1)
  {
    TableLeft(st, st1, e, None);
    FreedLists(st, st1, e);
  }

  lemma FreedLists(st: State, st1: State, e: nat)
    requires Lists(st) && IsEntry(st, e) && e !in st.lru && e !in st.inUse
    requires st1.mem == st.mem - {e} && st1.lru == st.lru && st1.inUse == st.inUse && st1.usage == st.usage
    ensures Lists(st1)
  {
    forall id | OnRing(LRU, st.lru, id) || OnRing(IN_USE, st.inUse, id) ensures id in st.mem {
      if OnRing(LRU, st.lru, id) {
        RingMembers(st.mem, LRU, st.lru, id);
      } else {
        RingMembers(st.mem, IN_USE, st.inUse, id);
      }
    }
    hide TwoRings;
    RingsFrame(st.mem, st1.mem, st.lru, st.inUse);
    ChargesFrame(st.mem, st1.mem, st.lru);
    ChargesFrame(st.mem, st1.mem, st.inUse);
  }

  lemma DataStays(mem: Memory, mem1: Memory, e: nat)
    requires SameData(mem, mem1) && e in mem
    ensures e in mem1 && mem1[e] == mem[e].(next := mem1[e].next, prev := mem1[e].prev)
  {
  }

  lemma EntryFacts(st: State, e: nat)
    requires Entries(st) && IsEntry(st, e)
    ensures EntryOk(st, e) && (Cached(st, e) ==> e in st.lru || e in st.inUse)
    ensures e in st.lru ==> e !in st.inUse
  {
  }

  lemma RingsOf(st: State)
    requires Ok(st, None)
    ensures TwoRings(st.mem, st.lru, st.inUse) && Entries(st)
  {
  }

  lemma RingsAreDistinct(mem: Memory, lru: seq<nat>, inUse: seq<nat>)
    requires TwoRings(mem, lru, inUse)
    ensures Distinct(lru) && Distinct(inUse) && forall id :: id in lru ==> id !in inUse
  {
    forall id | id in lru ensures id !in inUse {
      assert OnRing(LRU, lru, id);
    }
  }

  lemma RingsUpdate(mem: Memory, lru: seq<nat>, inUse: seq<nat>, e: nat, h: Handle)
    requires TwoRings(mem, lru, inUse) && e in mem && h.next == mem[e].next && h.prev == mem[e].prev
    ensures TwoRings(mem[e := h], lru, inUse)
  {
    forall id | OnRing(LRU, lru, id) || OnRing(IN_USE, inUse, id) ensures id in mem {
      if OnRing(LRU, lru, id) {
        RingMembers(mem, LRU, lru, id);
      } else {
        RingMembers(mem, IN_USE, inUse, id);
      }
    }
    hide TwoRings;
    RingsFrame(mem, mem[e := h], lru, inUse);
  }

  // An entry was moved to the list of `head`, or stayed.
  ghost predicate MovedTo(st: State, moved: State, e: nat, head: nat) {
    && SameData(st.mem, moved.mem) && TwoRings(moved.mem, moved.lru, moved.inUse)
    && moved == st.(mem := moved.mem, lru := moved.lru, inUse := moved.inUse)
    && moved.lru == LruWith(st.lru, e, head) && moved.inUse == InUseWith(st.inUse, e, head)
  }

  lemma MovedMembers(st: State, moved: State, e: nat, head: nat)
    requires MovedTo(st, moved, e, head) && Distinct(st.lru) && Distinct(st.inUse)
    ensures forall id :: id in moved.lru <==> (if id == e then head == LRU else id in st.lru)
    ensures forall id :: id in moved.inUse <==> (if id == e then head != LRU else id in st.inUse)
  {
    WithoutOk(st.lru, e);
    WithoutOk(st.inUse, e);
  }

  lemma MovedKeeps(st: State, moved: State, e: nat, head: nat)
    requires Lists(st) && TableOk(st, None) && Deletions(st)
    requires Cached(st, e) && (e in st.lru <==> e !in st.inUse) && MovedTo(st, moved, e, head)
    ensures OthersStay(st, moved, e) && Lists(moved) && TableOk(moved, None) && Deletions(moved)
    ensures e in moved.lru <==> head == LRU
    ensures e in moved.inUse <==> head != LRU
  {
    RingsAreDistinct(st.mem, st.lru, st.inUse);
    MovedMembers(st, moved, e, head);
    TableStep(st, moved, e, None);
    RelistCharges(st.mem, moved.mem, st.lru, st.inUse, e, head);
  }

  // A new count of references for one entry.
  lemma Recounted(moved: State, st1: State, e: nat, lost: Option<nat>)
    requires Lists(moved) && TableOk(moved, lost) && Deletions(moved)
    requires IsEntry(moved, e) && e in st1.mem
    requires st1.mem == moved.mem[e := moved.mem[e].(refs := st1.mem[e].refs)]
    requires st1 == moved.(mem := st1.mem, clients := st1.clients)
    ensures Lists(st1) && TableOk(st1, lost) && Deletions(st1)
  {
    hide TwoRings, TableOk, Charges;
    RingsUpdate(moved.mem, moved.lru, moved.inUse, e, st1.mem[e]);
    TableStep(moved, st1, e, lost);
    ChargesFrame(moved.mem, st1.mem, moved.lru);
    ChargesFrame(moved.mem, st1.mem, moved.inUse);
  }

  lemma RefOk(st: State, moved: State, st1: State, e: nat)
    requires Ok(st, None) && Cached(st, e)
    requires if st.mem[e].refs == 1 then MovedTo(st, moved, e, IN_USE) else moved == st
    requires st1.mem == moved.mem[e := moved.mem[e].(refs := moved.mem[e].refs + 1)]
    requires st1 == moved.(mem := st1.mem, clients := st.clients[e := st.clients[e] + 1])
    ensures Ok(st1, None)
  {
    hide TwoRings, TableOk, Charges, Deletions, Lists;
    EntryFacts(st, e);
    if st.mem[e].refs == 1 {
      MovedKeeps(st, moved, e, IN_USE);
    }
    Recounted(moved, st1, e, None);
    EntriesStep(st, st1, e);
  }
}
