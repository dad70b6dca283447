/** Bloom filters, and the block that holds one filter for every 2 KB of table data. */
module Filters {
  import opened DbFormat
  import opened Coding

  const FILTER_BASE_LG: Byte := 11
  const FILTER_BASE: nat := 2048

  // ---- Bits of a byte string --------------------------------------------------------------------------------------

  predicate Bit(b: nat, i: nat) {
    if i == 0 then b % 2 == 1 else Bit(b / 2, i - 1)
  }

  // The number with one bit set.
  function SetBit(b: nat, i: nat): nat {
    if i > 0 then b % 2 + 2 * SetBit(b / 2, i - 1)
    else if b % 2 == 1 then b
    else b + 1
  }

  lemma HalfOf(low: nat, rest: nat)
    requires low < 2
    ensures (low + 2 * rest) / 2 == rest && (low + 2 * rest) % 2 == low
  {
  }

  // Setting a bit adds its value, unless it is set already.
  lemma {:induction false} SetBitAdds(b: nat, i: nat)
    ensures Bit(SetBit(b, i), i)
    ensures SetBit(b, i) == if Bit(b, i) then b else b + Pow(2, i)
  {
    if i > 0 {
      SetBitAdds(b / 2, i - 1);
      HalfOf(b % 2, SetBit(b / 2, i - 1));
    }
  }

  // It leaves the other bits as they are.
  lemma {:induction false} SetBitSets(b: nat, i: nat, j: nat)
    ensures Bit(SetBit(b, i), j) <==> j == i || Bit(b, j)
  {
    if i > 0 {
      HalfOf(b % 2, SetBit(b / 2, i - 1));
      if j > 0 {
        SetBitSets(b / 2, i - 1, j - 1);
      }
    } else if j > 0 {
      assert SetBit(b, 0) / 2 == b / 2;
    }
  }

  lemma {:induction false} SetBitFits(b: nat, i: nat, width: nat)
    requires b < Pow(2, width) && i < width
    ensures SetBit(b, i) < Pow(2, width)
  {
    if i > 0 {
      HalfFits(b, Pow(2, width - 1));
      SetBitFits(b / 2, i - 1, width - 1);
    } else {
      HalfFits(b, Pow(2, width - 1));
    }
  }

  lemma HalfFits(b: nat, m: nat)
    requires b < 2 * m
    ensures b / 2 < m
  {
  }

  function SetByteBit(b: Byte, i: nat): Byte
    requires i < 8
  {
    SetBitFits(b, i, 8);
    assert Pow(2, 8) == 256 by {
      assert Pow(2, 4) == 16;
    }
    SetBit(b, i)
  }

  // A shift to the right.
  function Shifted(n: nat, k: nat): nat {
    if k == 0 then n else Shifted(n / 2, k - 1)
  }

  predicate BitAt(a: Bytes, p: nat)
    requires p < 8 * |a|
  {
    Bit(a[p / 8], p % 8)
  }

  function Marked(a: Bytes, p: nat): (r: Bytes)
    requires p < 8 * |a|
    ensures |r| == |a|
  {
    a[p / 8 := SetByteBit(a[p / 8], p % 8)]
  }

  lemma MarkedSets(a: Bytes, p: nat, q: nat)
    requires p < 8 * |a| && q < 8 * |a|
    ensures BitAt(Marked(a, p), q) <==> q == p || BitAt(a, q)
  {
    hide Bit, SetBit;
    if p / 8 == q / 8 {
      SetBitSets(a[p / 8], p % 8, q % 8);
    }
  }

  // ---- Bloom filters ------------------------------------------------------------------------------------------------

  // The hash rotated right by 17 bits.
  function Delta(h: Uint32): Uint32 {
    h / 0x2_0000 + h % 0x2_0000 * 0x8000
  }

  function Probe(a: Bytes, h: nat): (p: nat)
    requires a != []
    ensures p < 8 * |a|
  {
    h % (8 * |a|)
  }

  function WithProbes(a: Bytes, h: Uint32, delta: Uint32, k: nat): (r: Bytes)
    requires a != []
    ensures |r| == |a|
    decreases k
  {
    if k == 0 then a else WithProbes(Marked(a, Probe(a, h)), (h + delta) % WORD32, delta, k - 1)
  }

  predicate HasProbes(a: Bytes, h: Uint32, delta: Uint32, k: nat)
    requires a != []
    decreases k
  {
    k == 0 || (BitAt(a, Probe(a, h)) && HasProbes(a, (h + delta) % WORD32, delta, k - 1))
  }

  // The position of probe number `j` among so many bits.
  function Position(bits: nat, h: Uint32, delta: Uint32, j: nat): (p: nat)
    requires bits > 0
    ensures p < bits
  {
    (h + Times(j, delta)) % WORD32 % bits
  }

  lemma PositionNext(bits: nat, h: Uint32, delta: Uint32, j: nat)
    requires bits > 0
    ensures Position(bits, h, delta, 0) == h % bits
    ensures Position(bits, h, delta, j + 1) == Position(bits, (h + delta) % WORD32, delta, j)
  {
    assert Times(0, delta) == 0;
    assert Times(j + 1, delta) == Times(j, delta) + delta;
    CutSum(h + delta, Times(j, delta), WORD32);
  }

  ghost predicate IsProbe(bits: nat, h: Uint32, delta: Uint32, k: nat, p: nat)
    requires bits > 0
  {
    exists j: nat :: j < k && p == Position(bits, h, delta, j)
  }

  lemma IsProbeNext(bits: nat, h: Uint32, delta: Uint32, k: nat, p: nat)
    requires bits > 0 && k > 0
    ensures IsProbe(bits, h, delta, k, p) <==> p == h % bits || IsProbe(bits, (h + delta) % WORD32, delta, k - 1, p)
  {
    PositionNext(bits, h, delta, 0);
    if IsProbe(bits, h, delta, k, p) {
      var j: nat :| j < k && p == Position(bits, h, delta, j);
      if j > 0 {
        PositionNext(bits, h, delta, j - 1);
      }
    }
    if IsProbe(bits, (h + delta) % WORD32, delta, k - 1, p) {
      var j: nat :| j < k - 1 && p == Position(bits, (h + delta) % WORD32, delta, j);
      PositionNext(bits, h, delta, j);
    }
  }

  // The bits that are set are those that were, and those of the probes.
  lemma {:induction false} ProbesSet(a: Bytes, h: Uint32, delta: Uint32, k: nat, p: nat)
    requires p < 8 * |a|
    ensures BitAt(WithProbes(a, h, delta, k), p) <==> BitAt(a, p) || IsProbe(8 * |a|, h, delta, k, p)
    decreases k
  {
    hide BitAt, Marked, IsProbe;
    if k > 0 {
      MarkedSets(a, Probe(a, h), p);
      IsProbeNext(8 * |a|, h, delta, k, p);
      ProbesSet(Marked(a, Probe(a, h)), (h + delta) % WORD32, delta, k - 1, p);
    } else {
      NoProbe(8 * |a|, h, delta, p);
    }
  }

  lemma NoProbe(bits: nat, h: Uint32, delta: Uint32, p: nat)
    requires bits > 0
    ensures !IsProbe(bits, h, delta, 0, p)
  {
  }

  // Reading asks for the bit of every probe.
  lemma {:induction false} HasProbesIs(a: Bytes, h: Uint32, delta: Uint32, k: nat)
    requires a != []
    ensures HasProbes(a, h, delta, k) <==> forall p :: 0 <= p < 8 * |a| && IsProbe(8 * |a|, h, delta, k, p) ==> BitAt(a, p)
    decreases k
  {
    var bits := 8 * |a|;
    hide BitAt, IsProbe;
    if k > 0 {
      forall p | 0 <= p < bits
        ensures IsProbe(bits, h, delta, k, p)
          <==> p == Probe(a, h) || IsProbe(bits, (h + delta) % WORD32, delta, k - 1, p)
      {
        IsProbeNext(bits, h, delta, k, p);
      }
      HasProbesIs(a, (h + delta) % WORD32, delta, k - 1);
    } else {
      forall p | 0 <= p < bits ensures !IsProbe(bits, h, delta, 0, p) {
        NoProbe(bits, h, delta, p);
      }
    }
  }

  datatype BloomFilterPolicy = BloomFilterPolicy(bitsPerKey: nat, hash: Bytes -> Uint32) {
    // 0.69 probes for each bit of a key, between 1 and 30.
    function Probes(): (k: Byte)
      ensures 1 <= k <= 30
    {
      var k := bitsPerKey * 69 / 100;
      if k < 1 then 1 else if k > 30 then 30 else k
    }

    // At least 64 bits, whatever the number of keys.
    function NumBytes(n: nat): (r: nat)
      ensures r >= 8
    {
      ((if Times(n, bitsPerKey) < 64 then 64 else Times(n, bitsPerKey)) + 7) / 8
    }

    function WithKeys(a: Bytes, keys: seq<Bytes>): (r: Bytes)
      requires a != []
      ensures |r| == |a|
      decreases |keys|
    {
      if keys == [] then a
      else WithKeys(WithProbes(a, hash(keys[0]), Delta(hash(keys[0])), Probes()), keys[1..])
    }

    function Filter(keys: seq<Bytes>): Bytes {
      WithKeys(seq(NumBytes(|keys|), _ => 0), keys) + [Probes()]
    }

    predicate MayMatch(key: Bytes, filter: Bytes) {
      && |filter| >= 2
      && var k := filter[|filter| - 1];
         k > 30 || HasProbes(filter[..|filter| - 1], hash(key), Delta(hash(key)), k)
    }

    // A probe of one of the keys.
    ghost predicate IsKeyProbe(bits: nat, keys: seq<Bytes>, p: nat)
      requires bits > 0
    {
      exists i :: 0 <= i < |keys| && IsProbe(bits, hash(keys[i]), Delta(hash(keys[i])), Probes(), p)
    }

    lemma IsKeyProbeFirst(bits: nat, keys: seq<Bytes>, p: nat)
      requires bits > 0 && keys != []
      ensures IsKeyProbe(bits, keys, p) <==>
        IsProbe(bits, hash(keys[0]), Delta(hash(keys[0])), Probes(), p) || IsKeyProbe(bits, keys[1..], p)
    {
      hide IsProbe, Delta, BloomFilterPolicy.Probes;
      if IsKeyProbe(bits, keys, p) {
        var i :| 0 <= i < |keys| && IsProbe(bits, hash(keys[i]), Delta(hash(keys[i])), Probes(), p);
        assert i > 0 ==> keys[i] == keys[1..][i - 1];
      }
      if IsKeyProbe(bits, keys[1..], p) {
        var i :| 0 <= i < |keys| - 1 && IsProbe(bits, hash(keys[1..][i]), Delta(hash(keys[1..][i])), Probes(), p);
        assert keys[i + 1] == keys[1..][i];
      }
    }

    lemma {:induction false} KeysSet(a: Bytes, keys: seq<Bytes>, p: nat)
      requires p < 8 * |a|
      ensures BitAt(WithKeys(a, keys), p) <==> BitAt(a, p) || IsKeyProbe(8 * |a|, keys, p)
      decreases |keys|
    {
      hide BitAt, WithProbes, IsProbe, Delta, BloomFilterPolicy.Probes;
      if keys != [] {
        var h := hash(keys[0]);
        IsKeyProbeFirst(8 * |a|, keys, p);
        ProbesSet(a, h, Delta(h), Probes(), p);
        hide BloomFilterPolicy.IsKeyProbe;
        KeysSet(WithProbes(a, h, Delta(h), Probes()), keys[1..], p);
      }
    }

    lemma ZeroBits(a: Bytes, p: nat)
      requires p < 8 * |a| && forall i :: 0 <= i < |a| ==> a[i] == 0
      ensures !BitAt(a, p)
    {
      ZeroBit(p % 8);
    }

    lemma {:induction false} ZeroBit(i: nat)
      ensures !Bit(0, i)
    {
      if i > 0 {
        ZeroBit(i - 1);
      }
    }

    /**
     * A filter says no exactly for the keys with a probe that is none of any key put in: it never misses one that
     * was, and errs only where every probe meets another's.
     */
    lemma MatchesExactly(keys: seq<Bytes>, key: Bytes)
      ensures var bits := 8 * NumBytes(|keys|);
        MayMatch(key, Filter(keys)) <==>
        forall p :: 0 <= p < bits && IsProbe(bits, hash(key), Delta(hash(key)), Probes(), p) ==> IsKeyProbe(bits, keys, p)
    {
      hide WithProbes, IsProbe, Delta, BitAt, BloomFilterPolicy.IsKeyProbe;
      var zeros: Bytes := seq(NumBytes(|keys|), _ => 0);
      var a := WithKeys(zeros, keys);
      assert Filter(keys)[..|Filter(keys)| - 1] == a;
      forall p | 0 <= p < 8 * |a| ensures BitAt(a, p) <==> IsKeyProbe(8 * |a|, keys, p) {
        ZeroBits(zeros, p);
        KeysSet(zeros, keys, p);
      }
      HasProbesIs(a, hash(key), Delta(hash(key)), Probes());
      hide BloomFilterPolicy.WithKeys, HasProbes, BloomFilterPolicy.NumBytes;
    }

    // A key that was put into the filter may match.
    lemma AddedKeyMatches(keys: seq<Bytes>, key: Bytes)
      requires key in keys
      ensures MayMatch(key, Filter(keys))
    {
      MatchesExactly(keys, key);
      hide BloomFilterPolicy.MayMatch, BloomFilterPolicy.Filter, IsProbe, Delta;
    }

    method CreateFilter(keys: seq<Bytes>, dst0: Bytes) returns (dst: Bytes)
      ensures dst == dst0 + Filter(keys)
    {
      hide WithProbes, Marked, Delta;
      var bits := |keys| * bitsPerKey;
      if bits < 64 {
        bits := 64;
      }
      var bytes := (bits + 7) / 8;
      assert bytes == NumBytes(|keys|);
      var a: Bytes := seq(bytes, _ => 0);
      ghost var zeros := a;
      assert keys[0..] == keys;
      for i := 0 to |keys|
        invariant |a| == bytes && WithKeys(a, keys[i..]) == WithKeys(zeros, keys)
      {
        assert keys[i..][1..] == keys[i + 1..];
        a := AddKey(a, hash(keys[i]));
      }
      dst := dst0 + (a + [Probes()]);
    }

    method AddKey(a0: Bytes, h0: Uint32) returns (a: Bytes)
      requires a0 != []
      ensures a == WithProbes(a0, h0, Delta(h0), Probes())
    {
      hide BloomFilterPolicy.Probes;
      a := a0;
      var h: Uint32, delta := h0, Delta(h0);
      for j := 0 to Probes()
        invariant |a| == |a0| && WithProbes(a, h, delta, Probes() - j) == WithProbes(a0, h0, delta, Probes())
      {
        var bitpos := Probe(a, h);
        a := a[bitpos / 8 := SetByteBit(a[bitpos / 8], bitpos % 8)];
        h := (h + delta) % WORD32;
      }
    }

    method KeyMayMatch(key: Bytes, filter: Bytes) returns (r: bool)
      ensures r == MayMatch(key, filter)
    {
      hide BitAt, Delta;
      if |filter| < 2 {
        return false;
      }
      var a := filter[..|filter| - 1];
      var k := filter[|filter| - 1];
      if k > 30 {
        return true;
      }
      var h: Uint32, delta := hash(key), Delta(hash(key));
      for j := 0 to k
        invariant HasProbes(a, hash(key), delta, k) == HasProbes(a, h, delta, k - j)
      {
        if !BitAt(a, Probe(a, h)) {
          return false;
        }
        h := (h + delta) % WORD32;
      }
      r := true;
    }

    function Policy(): FilterPolicy {
      FilterPolicy(keys => Filter(keys), (key, filter) => MayMatch(key, filter))
    }

    lemma BloomNeverMisses()
      ensures Policy().NeverMisses()
    {
      forall keys: seq<Bytes>, key | key in keys ensures Policy().matches(key, Policy().create(keys)) {
        AddedKeyMatches(keys, key);
      }
    }
  }

  // ---- The filter block -------------------------------------------------------------------------------------------

  datatype FilterPolicy = FilterPolicy(create: seq<Bytes> -> Bytes, matches: (Bytes, Bytes) -> bool) {
    ghost predicate NeverMisses() {
      forall keys: seq<Bytes>, key: Bytes :: key in keys ==> matches(key, create(keys))
    }

    // A slot without keys has an empty filter.
    function SlotFilter(keys: seq<Bytes>): Bytes {
      if keys == [] then [] else create(keys)
    }

    function Filters(slots: seq<seq<Bytes>>): Bytes {
      if slots == [] then [] else Filters(slots[..|slots| - 1]) + SlotFilter(slots[|slots| - 1])
    }
  }

  function Joined(keys: seq<Bytes>): Bytes {
    if keys == [] then [] else Joined(keys[..|keys| - 1]) + keys[|keys| - 1]
  }

  lemma {:induction false} JoinedSlice(keys: seq<Bytes>, i: nat)
    requires i < |keys|
    ensures |Joined(keys[..i])| <= |Joined(keys[..i + 1])| <= |Joined(keys)|
    ensures Joined(keys)[|Joined(keys[..i])|..|Joined(keys[..i + 1])|] == keys[i]
  {
    var n := |keys| - 1;
    var init := keys[..n];
    if i < n {
      JoinedSlice(init, i);
      assert init[..i] == keys[..i] && init[..i + 1] == keys[..i + 1];
      SliceOfFront(Joined(init), keys[n], |Joined(keys[..i])|, |Joined(keys[..i + 1])|);
    } else {
      assert keys[..i + 1] == keys;
    }
  }

  lemma SliceOfFront<T>(a: seq<T>, b: seq<T>, i: nat, j: nat)
    requires i <= j <= |a|
    ensures (a + b)[i..j] == a[i..j]
  {
  }

  lemma {:induction false} FiltersSlice(p: FilterPolicy, slots: seq<seq<Bytes>>, i: nat)
    requires i < |slots|
    ensures |p.Filters(slots[..i])| <= |p.Filters(slots[..i + 1])| <= |p.Filters(slots)|
    ensures p.Filters(slots)[|p.Filters(slots[..i])|..|p.Filters(slots[..i + 1])|] == p.SlotFilter(slots[i])
  {
    hide FilterPolicy.SlotFilter;
    var n := |slots| - 1;
    var init := slots[..n];
    if i < n {
      FiltersSlice(p, init, i);
      assert init[..i] == slots[..i] && init[..i + 1] == slots[..i + 1];
      SliceOfFront(p.Filters(init), p.SlotFilter(slots[n]), |p.Filters(slots[..i])|, |p.Filters(slots[..i + 1])|);
    } else {
      assert slots[..i + 1] == slots;
    }
  }

  // Offsets are stored in 32 bits.
  function Offset(p: FilterPolicy, slots: seq<seq<Bytes>>, i: nat): Uint32
    requires i <= |slots|
  {
    |p.Filters(slots[..i])| % WORD32
  }

  function OffsetsOf(p: FilterPolicy, slots: seq<seq<Bytes>>): seq<Uint32> {
    seq(|slots|, i requires 0 <= i < |slots| => Offset(p, slots, i))
  }

  // The whole block: the filters, their offsets, where those start, and the base.
  function Block(p: FilterPolicy, slots: seq<seq<Bytes>>): Bytes {
    p.Filters(slots) + Words(OffsetsOf(p, slots)) + Fixed(|p.Filters(slots)| % WORD32, 4) + [FILTER_BASE_LG]
  }

  class FilterBlockBuilder {
    const policy: FilterPolicy
    var keys: Bytes
    var start: seq<nat>
    var result: Bytes
    var filterOffsets: seq<Uint32>

    // The keys behind each generated filter, those that wait for the next, and all with their block offsets.
    ghost var slots: seq<seq<Bytes>>
    ghost var pending: seq<Bytes>
    ghost var added: seq<(nat, Bytes)>

    ghost predicate Valid()
      reads this
    {
      && keys == Joined(pending) && |start| == |pending|
      && (forall i :: 0 <= i < |start| ==> start[i] == |Joined(pending[..i])|)
      && result == policy.Filters(slots) && filterOffsets == OffsetsOf(policy, slots)
      && (forall i :: 0 <= i < |added| ==> Kept(slots, pending, added[i]))
    }

    constructor (policy: FilterPolicy)
      ensures Valid() && added == [] && slots == [] && pending == [] && this.policy == policy
    {
      this.policy := policy;
      keys, start, result, filterOffsets := [], [], [], [];
      slots, pending, added := [], [], [];
    }

    // Blocks come in the order of their offsets.
    method StartBlock(blockOffset: nat)
      requires Valid() && blockOffset / FILTER_BASE >= |slots|
      modifies this
      ensures Valid() && added == old(added) && |slots| == blockOffset / FILTER_BASE
    {
      var filterIndex := blockOffset / FILTER_BASE;
      while filterIndex > |filterOffsets|
        invariant Valid() && added == old(added) && |slots| <= filterIndex
        decreases filterIndex - |slots|
      {
        GenerateFilter();
      }
    }

    // A key of the block that was started last.
    method AddKey(key: Bytes, ghost blockOffset: nat)
      requires Valid() && |slots| == blockOffset / FILTER_BASE
      modifies this
      ensures Valid() && added == old(added) + [(blockOffset, key)] && slots == old(slots)
    {
      hide Joined, OffsetsOf;
      start := start + [|keys|];
      keys := keys + key;
      GrowJoined(pending, key);
      ghost var before := pending;
      pending := pending + [key];
      forall i | 0 <= i < |start| ensures start[i] == |Joined(pending[..i])| {
        if i < |before| {
          assert pending[..i] == before[..i];
        } else {
          assert pending[..i] == before;
        }
      }
      forall i | 0 <= i < |added| ensures Kept(slots, pending, added[i]) {
        assert Kept(slots, before, added[i]);
      }
      assert key == pending[|before|];
      added := added + [(blockOffset, key)];
    }

    method GenerateFilter()
      requires Valid()
      modifies this
      ensures Valid() && added == old(added) && slots == old(slots) + [old(pending)] && pending == []
    {
      var numKeys := |start|;
      OffsetsGrow(policy, slots, pending);
      KeptInSlot(slots, pending, added);
      if numKeys == 0 {
        filterOffsets := filterOffsets + [|result| % WORD32];
      } else {
        var tmpKeys := TakeKeys();
        filterOffsets := filterOffsets + [|result| % WORD32];
        result := result + policy.create(tmpKeys);
        keys, start := [], [];
      }
      slots, pending := slots + [pending], [];
    }

    // The keys again, cut out of the flattened string.
    method TakeKeys() returns (tmpKeys: seq<Bytes>)
      requires Valid()
      ensures tmpKeys == pending
    {
      hide FilterPolicy.Filters, OffsetsOf, Kept;
      var ends := start + [|keys|];
      tmpKeys := [];
      for i := 0 to |start|
        invariant tmpKeys == pending[..i]
      {
        JoinedSlice(pending, i);
        assert ends[i + 1] == |Joined(pending[..i + 1])| by {
          assert i + 1 == |start| ==> pending[..i + 1] == pending;
        }
        tmpKeys := tmpKeys + [keys[ends[i]..ends[i + 1]]];
      }
    }

    method Finish() returns (contents: Bytes)
      requires Valid()
      modifies this
      ensures added == old(added) && contents == Block(policy, slots)
      ensures forall i :: 0 <= i < |added| ==> InSlot(slots, added[i])
      ensures policy.NeverMisses() && |result| < WORD32 ==>
        forall i :: 0 <= i < |added| ==> MayMatch(policy, contents, added[i].0, added[i].1)
    {
      if start != [] {
        GenerateFilter();
      }
      if policy.NeverMisses() && |result| < WORD32 {
        AddedKeysMayMatch(policy, slots, added);
      }
      hide FilterPolicy.Filters, OffsetsOf, Kept, MayMatch;
      var offsets := Offsets();
      var word := EncodeFixed32(|result| % WORD32);
      contents := result + offsets + word + [FILTER_BASE_LG];
    }

    method Offsets() returns (r: Bytes)
      ensures r == Words(filterOffsets)
    {
      r := [];
      for i := 0 to |filterOffsets|
        invariant r == Words(filterOffsets[..i])
      {
        var word := EncodeFixed32(filterOffsets[i]);
        assert filterOffsets[..i + 1][..i] == filterOffsets[..i];
        r := r + word;
      }
      assert filterOffsets[..|filterOffsets|] == filterOffsets;
    }
  }

  // A key waits in its slot or is there already.
  ghost predicate Kept(slots: seq<seq<Bytes>>, pending: seq<Bytes>, a: (nat, Bytes)) {
    InSlot(slots, a) || (a.0 / FILTER_BASE == |slots| && a.1 in pending)
  }

  ghost predicate InSlot(slots: seq<seq<Bytes>>, a: (nat, Bytes)) {
    a.0 / FILTER_BASE < |slots| && a.1 in slots[a.0 / FILTER_BASE]
  }

  lemma GrowJoined(keys: seq<Bytes>, key: Bytes)
    ensures Joined(keys + [key]) == Joined(keys) + key
  {
    assert (keys + [key])[..|keys|] == keys;
  }

  lemma OffsetsGrow(p: FilterPolicy, slots: seq<seq<Bytes>>, keys: seq<Bytes>)
    ensures OffsetsOf(p, slots + [keys]) == OffsetsOf(p, slots) + [|p.Filters(slots)| % WORD32]
    ensures p.Filters(slots + [keys]) == p.Filters(slots) + p.SlotFilter(keys)
  {
    var more := slots + [keys];
    assert more[..|slots|] == slots;
    forall i | 0 <= i < |slots| ensures Offset(p, more, i) == Offset(p, slots, i) {
      assert more[..i] == slots[..i];
    }
  }

  lemma KeptInSlot(slots: seq<seq<Bytes>>, pending: seq<Bytes>, added: seq<(nat, Bytes)>)
    requires forall i :: 0 <= i < |added| ==> Kept(slots, pending, added[i])
    ensures forall i :: 0 <= i < |added| ==> Kept(slots + [pending], [], added[i])
  {
    forall i | 0 <= i < |added| ensures Kept(slots + [pending], [], added[i]) {
      var a := added[i];
      if InSlot(slots, a) {
        assert (slots + [pending])[a.0 / FILTER_BASE] == slots[a.0 / FILTER_BASE];
      } else {
        assert (slots + [pending])[|slots|] == pending;
      }
    }
  }

  // ---- The reader ---------------------------------------------------------------------------------------------------

  // What the reader takes from the tail of a block: the offset array, the number of filters, and the base.
  datatype Tail = Tail(offsets: nat, num: nat, baseLg: Byte)

  function ReadTail(contents: Bytes): (t: Tail)
    ensures t.num > 0 ==> t.offsets + 4 * t.num + 5 <= |contents|
  {
    var n := |contents|;
    if n < 5 then Tail(0, 0, 0) else
    var lastWord := Word32(contents, n - 5);
    if lastWord > n - 5 then Tail(0, 0, contents[n - 1])
    else Tail(lastWord, (n - 5 - lastWord) / 4, contents[n - 1])
  }

  predicate MayMatch(p: FilterPolicy, contents: Bytes, blockOffset: nat, key: Bytes) {
    var t := ReadTail(contents);
    var index := Shifted(blockOffset, t.baseLg);
    index >= t.num ||
    var start, limit := Word32(contents, t.offsets + 4 * index), Word32(contents, t.offsets + 4 * index + 4);
    if start <= limit <= t.offsets then p.matches(key, contents[start..limit]) else start != limit
  }

  lemma ShiftedTwice(n: nat, k: nat)
    ensures Shifted(n, k + 2) == Shifted(n / 4, k)
  {
    assert n / 2 / 2 == n / 4;
    assert Shifted(n, k + 2) == Shifted(n / 2, k + 1);
  }

  lemma ShiftedByBase(n: nat)
    ensures Shifted(n, FILTER_BASE_LG) == n / FILTER_BASE
  {
    ShiftedTwice(n, 9);
    ShiftedTwice(n / 4, 7);
    ShiftedTwice(n / 16, 5);
    ShiftedTwice(n / 64, 3);
    ShiftedTwice(n / 256, 1);
    assert Shifted(n / 1024, 1) == n / 1024 / 2;
  }

  lemma TailOfBlock(p: FilterPolicy, slots: seq<seq<Bytes>>)
    requires |p.Filters(slots)| < WORD32
    ensures ReadTail(Block(p, slots)) == Tail(|p.Filters(slots)|, |slots|, FILTER_BASE_LG)
  {
    hide FilterPolicy.Filters, Word32, Fixed;
    var front := p.Filters(slots) + Words(OffsetsOf(p, slots));
    Word32Stored(front, |p.Filters(slots)|, [FILTER_BASE_LG]);
  }

  lemma OffsetIs(p: FilterPolicy, slots: seq<seq<Bytes>>, i: nat)
    requires |p.Filters(slots)| < WORD32 && i <= |slots|
    ensures |OffsetsOf(p, slots)| == |slots|
    ensures |p.Filters(slots[..i])| == if i < |slots| then OffsetsOf(p, slots)[i] else |p.Filters(slots)|
  {
    hide FilterPolicy.Filters, FilterPolicy.SlotFilter;
    if i < |slots| {
      FiltersSlice(p, slots, i);
      assert OffsetsOf(p, slots)[i] == Offset(p, slots, i);
    } else {
      assert slots[..i] == slots;
    }
  }

  // The word behind filter `i`: its end is the next offset, or the start of the offset array.
  lemma OffsetWord(p: FilterPolicy, slots: seq<seq<Bytes>>, i: nat)
    requires |p.Filters(slots)| < WORD32 && i <= |slots|
    ensures Word32(Block(p, slots), |p.Filters(slots)| + 4 * i) == |p.Filters(slots[..i])|
  {
    hide FilterPolicy.Filters, OffsetsOf, Words, Fixed, Word32;
    OffsetIs(p, slots, i);
    WordInBlock(p.Filters(slots), OffsetsOf(p, slots), |p.Filters(slots)|, i);
  }

  lemma WordInBlock(f: Bytes, offsets: seq<Uint32>, last: Uint32, i: nat)
    requires i <= |offsets|
    ensures
      var contents := f + Words(offsets) + Fixed(last, 4) + [FILTER_BASE_LG];
      Word32(contents, |f| + 4 * i) == if i < |offsets| then offsets[i] else last
  {
    hide Word32, Fixed, Words;
    if i < |offsets| {
      WordAt(f, offsets, i, Fixed(last, 4) + [FILTER_BASE_LG]);
      Assoc(f + Words(offsets), Fixed(last, 4), [FILTER_BASE_LG]);
    } else {
      Word32Stored(f + Words(offsets), last, [FILTER_BASE_LG]);
    }
  }

  /**
   * What a finished block says of a key: in a slot it has, exactly what the policy says of that slot's filter;
   * behind the last slot, that the key may be there.
   */
  lemma BlockSays(p: FilterPolicy, slots: seq<seq<Bytes>>, blockOffset: nat, key: Bytes)
    requires |p.Filters(slots)| < WORD32
    ensures
      var i := blockOffset / FILTER_BASE;
      MayMatch(p, Block(p, slots), blockOffset, key) <==>
        i >= |slots| || p.matches(key, p.SlotFilter(slots[i]))
  {
    hide FilterPolicy.Filters, FilterPolicy.SlotFilter, OffsetsOf, Word32, ReadTail, Fixed;
    TailOfBlock(p, slots);
    ShiftedByBase(blockOffset);
    var i := blockOffset / FILTER_BASE;
    if i < |slots| {
      OffsetWord(p, slots, i);
      OffsetWord(p, slots, i + 1);
      FiltersSlice(p, slots, i);
      var start, limit := |p.Filters(slots[..i])|, |p.Filters(slots[..i + 1])|;
      FrontSlice(p.Filters(slots), Words(OffsetsOf(p, slots)), Fixed(|p.Filters(slots)|, 4), [FILTER_BASE_LG],
                 start, limit);
    }
  }

  lemma FrontSlice<T>(a: seq<T>, b: seq<T>, c: seq<T>, d: seq<T>, i: nat, j: nat)
    requires i <= j <= |a|
    ensures (a + b + c + d)[i..j] == a[i..j]
  {
  }

  // A key that was added after its block was started may match, whatever else the block holds.
  lemma AddedKeyMayMatch(p: FilterPolicy, slots: seq<seq<Bytes>>, blockOffset: nat, key: Bytes)
    requires p.NeverMisses() && |p.Filters(slots)| < WORD32 && InSlot(slots, (blockOffset, key))
    ensures MayMatch(p, Block(p, slots), blockOffset, key)
  {
    hide MayMatch, Block, FilterPolicy.Filters;
    BlockSays(p, slots, blockOffset, key);
  }

  lemma AddedKeysMayMatch(p: FilterPolicy, slots: seq<seq<Bytes>>, added: seq<(nat, Bytes)>)
    requires p.NeverMisses() && |p.Filters(slots)| < WORD32
    requires forall i :: 0 <= i < |added| ==> InSlot(slots, added[i])
    ensures forall i :: 0 <= i < |added| ==> MayMatch(p, Block(p, slots), added[i].0, added[i].1)
  {
    hide MayMatch, Block, FilterPolicy.Filters;
    forall i | 0 <= i < |added| ensures MayMatch(p, Block(p, slots), added[i].0, added[i].1) {
      assert InSlot(slots, added[i]);
      AddedKeyMayMatch(p, slots, added[i].0, added[i].1);
    }
  }

  class FilterBlockReader {
    const policy: FilterPolicy
    const contents: Bytes
    var offsets: nat
    var num: nat
    var baseLg: Byte

    ghost predicate Valid()
      reads this
    {
      ReadTail(contents) == Tail(offsets, num, baseLg)
    }

    constructor (policy: FilterPolicy, contents: Bytes)
      ensures Valid() && this.policy == policy && this.contents == contents
    {
      this.policy, this.contents := policy, contents;
      offsets, num, baseLg := 0, 0, 0;
      new;
      var n := |contents|;
      if n >= 5 {
        baseLg := contents[n - 1];
        var lastWord := Word32(contents, n - 5);
        if lastWord <= n - 5 {
          offsets, num := lastWord, (n - 5 - lastWord) / 4;
        }
      }
    }

    method KeyMayMatch(blockOffset: nat, key: Bytes) returns (r: bool)
      requires Valid()
      ensures r == MayMatch(policy, contents, blockOffset, key)
    {
      hide Word32;
      var index := Shifted(blockOffset, baseLg);
      if index < num {
        var start := Word32(contents, offsets + 4 * index);
        var limit := Word32(contents, offsets + 4 * index + 4);
        if start <= limit <= offsets {
          return policy.matches(key, contents[start..limit]);
        } else if start == limit {
          return false;
        }
      }
      r := true;
    }
  }
}
