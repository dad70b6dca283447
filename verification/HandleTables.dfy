/** The hash table of the cache: buckets of chained handles that grow with the number of entries. */
module HandleTables {
  import opened DbFormat
  import opened Coding

  // What the table looks at in a handle: its address, key and hash.
  datatype Slot = Slot(id: nat, key: Bytes, hash: Uint32)

  type Key = (Bytes, Uint32)

  function KeyOf(s: Slot): Key {
    (s.key, s.hash)
  }

  // Tables have a power of two of buckets, so masking the hash is taking its remainder.
  function Bucket(hash: Uint32, length: nat): (b: nat)
    requires length > 0
    ensures b < length
  {
    hash % length
  }

  ghost predicate SlotOk(length: nat, m: map<Key, Slot>, s: Slot, b: nat)
    requires length > 0
  {
    Bucket(s.hash, length) == b && KeyOf(s) in m && m[KeyOf(s)] == s
  }

  ghost predicate Distinct<T>(s: seq<T>) {
    forall i, j :: 0 <= i < j < |s| ==> s[i] != s[j]
  }

  function WithoutAt<T>(s: seq<T>, i: nat): seq<T>
    requires i < |s|
  {
    s[..i] + s[i + 1..]
  }

  // Taking one element out of a list without duplicates.
  lemma WithoutAtOk<T>(s: seq<T>, i: nat)
    requires i < |s| && Distinct(s)
    ensures Distinct(WithoutAt(s, i)) && forall x :: x in WithoutAt(s, i) <==> x in s && x != s[i]
  {
    var r := WithoutAt(s, i);
    forall x | x in s && x != s[i] ensures x in r {
      var j :| 0 <= j < |s| && s[j] == x;
      assert r[if j < i then j else j - 1] == x;
    }
  }

  ghost predicate ChainOk(length: nat, m: map<Key, Slot>, chain: seq<Slot>, b: nat)
    requires length > 0
  {
    Distinct(chain) && forall s <- chain :: SlotOk(length, m, s, b)
  }

  // The buckets hold exactly the slots of `m`, each in the chain of its hash.
  ghost predicate Holds(buckets: seq<seq<Slot>>, m: map<Key, Slot>) {
    && buckets != []
    && (forall b :: 0 <= b < |buckets| ==> ChainOk(|buckets|, m, buckets[b], b))
    && forall k :: k in m ==> KeyOf(m[k]) == k && m[k] in buckets[Bucket(k.1, |buckets|)]
  }

  lemma AddFront(buckets: seq<seq<Slot>>, m: map<Key, Slot>, s: Slot)
    requires Holds(buckets, m) && KeyOf(s) !in m
    ensures
      var b := Bucket(s.hash, |buckets|);
      Holds(buckets[b := [s] + buckets[b]], m[KeyOf(s) := s])
  {
    var b := Bucket(s.hash, |buckets|);
    NotInChains(buckets, m, s);
    ReplaceChain(buckets, m, m[KeyOf(s) := s], b, [s] + buckets[b]);
  }

  lemma AddBack(buckets: seq<seq<Slot>>, m: map<Key, Slot>, s: Slot)
    requires Holds(buckets, m) && KeyOf(s) !in m
    ensures
      var b := Bucket(s.hash, |buckets|);
      Holds(buckets[b := buckets[b] + [s]], m[KeyOf(s) := s])
  {
    var b := Bucket(s.hash, |buckets|);
    NotInChains(buckets, m, s);
    ReplaceChain(buckets, m, m[KeyOf(s) := s], b, buckets[b] + [s]);
  }

  lemma NotInChains(buckets: seq<seq<Slot>>, m: map<Key, Slot>, s: Slot)
    requires Holds(buckets, m) && KeyOf(s) !in m
    ensures forall b :: 0 <= b < |buckets| ==> s !in buckets[b]
  {
    forall b | 0 <= b < |buckets| ensures s !in buckets[b] {
      assert ChainOk(|buckets|, m, buckets[b], b);
    }
  }

  // Changing one chain, for a map that differs only on keys of that bucket.
  lemma ReplaceChain(buckets: seq<seq<Slot>>, m: map<Key, Slot>, m1: map<Key, Slot>, b: nat, chain: seq<Slot>)
    requires Holds(buckets, m) && b < |buckets| && ChainOk(|buckets|, m1, chain, b)
    requires forall k: Key :: Bucket(k.1, |buckets|) != b ==> (k in m <==> k in m1) && (k in m ==> m1[k] == m[k])
    requires forall k :: k in m1 && Bucket(k.1, |buckets|) == b ==> KeyOf(m1[k]) == k && m1[k] in chain
    ensures Holds(buckets[b := chain], m1)
  {
    var r := buckets[b := chain];
    forall c | 0 <= c < |r| ensures ChainOk(|r|, m1, r[c], c) {
      if c != b {
        assert ChainOk(|buckets|, m, buckets[c], c);
        forall s | s in r[c] ensures SlotOk(|r|, m1, s, c) {
          assert SlotOk(|buckets|, m, s, c);
        }
      }
    }
  }

  lemma ReplaceSlot(buckets: seq<seq<Slot>>, m: map<Key, Slot>, i: nat, s: Slot)
    requires Holds(buckets, m)
    requires
      var b := Bucket(s.hash, |buckets|);
      i < |buckets[b]| && KeyOf(buckets[b][i]) == KeyOf(s)
    ensures
      var b := Bucket(s.hash, |buckets|);
      Holds(buckets[b := buckets[b][i := s]], m[KeyOf(s) := s])
  {
    var b := Bucket(s.hash, |buckets|);
    var was, chain := buckets[b], buckets[b][i := s];
    assert ChainOk(|buckets|, m, was, b);
    assert SlotOk(|buckets|, m, was[i], b);
    var m1 := m[KeyOf(s) := s];
    forall j | 0 <= j < |chain| && j != i ensures chain[j] != s && SlotOk(|buckets|, m1, chain[j], b) {
      assert SlotOk(|buckets|, m, was[j], b);
      assert was[j] != was[i];
    }
    forall k | k in m1 && Bucket(k.1, |buckets|) == b ensures KeyOf(m1[k]) == k && m1[k] in chain {
      if k == KeyOf(s) {
        assert chain[i] == s;
      } else {
        var j :| 0 <= j < |was| && was[j] == m[k];
        assert chain[j] == m[k];
      }
    }
    ReplaceChain(buckets, m, m1, b, chain);
  }

  lemma DropSlot(buckets: seq<seq<Slot>>, m: map<Key, Slot>, b: nat, i: nat)
    requires Holds(buckets, m) && b < |buckets| && i < |buckets[b]|
    ensures
      var k := KeyOf(buckets[b][i]);
      k in m && m[k] == buckets[b][i] && Holds(buckets[b := WithoutAt(buckets[b], i)], m - {k})
  {
    hide WithoutAt;
    var was := buckets[b];
    assert ChainOk(|buckets|, m, was, b);
    assert SlotOk(|buckets|, m, was[i], b);
    WithoutAtOk(was, i);
    var m1 := m - {KeyOf(was[i])};
    forall s | s in WithoutAt(was, i) ensures SlotOk(|buckets|, m1, s, b) {
      assert SlotOk(|buckets|, m, s, b);
    }
    ReplaceChain(buckets, m, m1, b, WithoutAt(was, i));
  }

  // The slots of the first chains, and of the first places of the next.
  ghost function Moved(buckets: seq<seq<Slot>>, m: map<Key, Slot>, b: nat, i: nat): map<Key, Slot>
    requires buckets != [] && b <= |buckets| && (if b < |buckets| then i <= |buckets[b]| else i == 0)
  {
    map k | k in m
      && (Bucket(k.1, |buckets|) < b || (Bucket(k.1, |buckets|) == b && m[k] in buckets[b][..i])) :: m[k]
  }

  lemma MovedStep(buckets: seq<seq<Slot>>, m: map<Key, Slot>, b: nat, i: nat)
    requires Holds(buckets, m) && b < |buckets| && i < |buckets[b]|
    ensures
      var s := buckets[b][i];
      && KeyOf(s) !in Moved(buckets, m, b, i)
      && Moved(buckets, m, b, i + 1) == Moved(buckets, m, b, i)[KeyOf(s) := s]
  {
    var chain := buckets[b];
    var s := chain[i];
    assert ChainOk(|buckets|, m, chain, b);
    assert SlotOk(|buckets|, m, s, b);
    assert chain[..i + 1] == chain[..i] + [s];
    assert s !in chain[..i];
    forall k | k in m && m[k] == s ensures k == KeyOf(s) {
    }
  }

  lemma MovedChain(buckets: seq<seq<Slot>>, m: map<Key, Slot>, b: nat)
    requires Holds(buckets, m) && b < |buckets|
    ensures Moved(buckets, m, b, |buckets[b]|) == Moved(buckets, m, b + 1, 0)
  {
    assert buckets[b][..|buckets[b]|] == buckets[b];
  }

  lemma MovedAll(buckets: seq<seq<Slot>>, m: map<Key, Slot>)
    requires buckets != []
    ensures Moved(buckets, m, 0, 0) == map[] && Moved(buckets, m, |buckets|, 0) == m
  {
  }

  class HandleTable {
    var buckets: seq<seq<Slot>>
    var elems: nat

    // The table as a map.
    ghost var m: map<Key, Slot>

    ghost predicate Valid()
      reads this
    {
      Holds(buckets, m) && elems == |m| && |buckets| >= 4
    }

    constructor ()
      ensures Valid() && m == map[]
    {
      buckets, elems, m := [[], [], [], []], 0, map[];
    }

    // The place of the key in its chain, or the end of the chain.
    method FindPointer(key: Bytes, hash: Uint32) returns (b: nat, i: nat)
      requires Valid()
      ensures b == Bucket(hash, |buckets|) && i <= |buckets[b]|
      ensures (key, hash) in m <==> i < |buckets[b]|
      ensures i < |buckets[b]| ==> KeyOf(buckets[b][i]) == (key, hash) && m[(key, hash)] == buckets[b][i]
    {
      b, i := Bucket(hash, |buckets|), 0;
      ghost var chain := buckets[b];
      assert ChainOk(|buckets|, m, chain, b);
      while i < |buckets[b]| && (buckets[b][i].hash != hash || buckets[b][i].key != key)
        invariant i <= |buckets[b]| && ((key, hash) in m ==> m[(key, hash)] in chain[i..])
      {
        assert chain[i..] == [chain[i]] + chain[i + 1..];
        i := i + 1;
      }
      if i < |chain| {
        assert SlotOk(|buckets|, m, chain[i], b);
      }
    }

    method Lookup(key: Bytes, hash: Uint32) returns (r: Option<Slot>)
      requires Valid()
      ensures r == if (key, hash) in m then Some(m[(key, hash)]) else None
    {
      var b, i := FindPointer(key, hash);
      r := if i < |buckets[b]| then Some(buckets[b][i]) else None;
    }

    // Put a slot in the place of the one with its key, or at the end of the chain.
    method Insert(h: Slot) returns (replaced: Option<Slot>)
      requires Valid()
      modifies this
      ensures Valid() && m == old(m)[KeyOf(h) := h]
      ensures replaced == if KeyOf(h) in old(m) then Some(old(m)[KeyOf(h)]) else None
    {
      hide Holds;
      var b, i := FindPointer(h.key, h.hash);
      if i < |buckets[b]| {
        replaced := Some(buckets[b][i]);
        ReplaceSlot(buckets, m, i, h);
        buckets := buckets[b := buckets[b][i := h]];
        assert m.Keys == m[KeyOf(h) := h].Keys;
        m := m[KeyOf(h) := h];
      } else {
        replaced := None;
        AddBack(buckets, m, h);
        buckets := buckets[b := buckets[b] + [h]];
        m := m[KeyOf(h) := h];
        elems := elems + 1;
        if elems > |buckets| {
          Resize();
        }
      }
    }

    method Remove(key: Bytes, hash: Uint32) returns (r: Option<Slot>)
      requires Valid()
      modifies this
      ensures Valid() && m == old(m) - {(key, hash)}
      ensures r == if (key, hash) in old(m) then Some(old(m)[(key, hash)]) else None
    {
      hide Holds;
      var b, i := FindPointer(key, hash);
      if i < |buckets[b]| {
        r := Some(buckets[b][i]);
        DropSlot(buckets, m, b, i);
        buckets := buckets[b := WithoutAt(buckets[b], i)];
        elems := elems - 1;
        m := m - {(key, hash)};
      } else {
        r := None;
        assert m - {(key, hash)} == m;
      }
    }

    // Twice as many buckets until there is one for each entry; every handle moves to the front of its new chain.
    method Resize()
      requires Valid()
      modifies this
      ensures Valid() && m == old(m) && |buckets| >= elems
    {
      var newLength := 4;
      while newLength < elems
        invariant newLength >= 4
      {
        newLength := newLength * 2;
      }
      var newList: seq<seq<Slot>> := seq(newLength, _ => []);
      assert Holds(newList, map[]);
      hide Holds, Moved;
      MovedAll(buckets, m);
      for b := 0 to |buckets|
        invariant unchanged(this) && |newList| == newLength && Holds(newList, Moved(buckets, m, b, 0))
      {
        newList := MoveChain(newList, b);
      }
      assert Holds(newList, m);
      buckets := newList;
    }

    method MoveChain(list: seq<seq<Slot>>, b: nat) returns (newList: seq<seq<Slot>>)
      requires Holds(buckets, m) && b < |buckets| && list != []
      requires Holds(list, Moved(buckets, m, b, 0))
      ensures |newList| == |list| && Holds(newList, Moved(buckets, m, b + 1, 0))
    {
      hide Holds, Moved;
      newList := list;
      for i := 0 to |buckets[b]|
        invariant |newList| == |list| && Holds(newList, Moved(buckets, m, b, i))
      {
        var s := buckets[b][i];
        MovedStep(buckets, m, b, i);
        AddFront(newList, Moved(buckets, m, b, i), s);
        var c := Bucket(s.hash, |newList|);
        newList := newList[c := [s] + newList[c]];
      }
      MovedChain(buckets, m, b);
    }
  }
}
