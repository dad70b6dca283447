/** Write batches: a header with a sequence number and a count, and one record for each operation. */
module WriteBatches {
  import opened DbFormat
  import opened Coding

  const HEADER: nat := 12
  const MAX_COUNT: nat := 0x7fff_ffff
  const VALUE_TAG: Byte := 1
  const DELETION_TAG: Byte := 0

  datatype Op = Put(key: Bytes, value: Bytes) | Delete(key: Bytes)

  predicate OpFits(op: Op) {
    |op.key| < WORD32 && (op.Put? ==> |op.value| < WORD32)
  }

  function OpBytes(op: Op): (r: Bytes)
    requires OpFits(op)
    ensures r != []
  {
    match op
    case Put(key, value) => [VALUE_TAG] + Prefixed(key) + Prefixed(value)
    case Delete(key) => [DELETION_TAG] + Prefixed(key)
  }

  ghost predicate OpsFit(ops: seq<Op>) {
    forall i :: 0 <= i < |ops| ==> OpFits(ops[i])
  }

  ghost function Records(ops: seq<Op>): Bytes
    requires OpsFit(ops)
  {
    if ops == [] then [] else OpBytes(ops[0]) + Records(ops[1..])
  }

  ghost function BatchSize(ops: seq<Op>): nat
    requires OpsFit(ops)
  {
    HEADER + |Records(ops)|
  }

  lemma {:induction false} RecordsLength(ops: seq<Op>)
    requires OpsFit(ops)
    ensures |ops| <= |Records(ops)|
  {
    if ops != [] {
      RecordsLength(ops[1..]);
    }
  }

  lemma {:induction false} RecordsConcat(a: seq<Op>, b: seq<Op>)
    requires OpsFit(a) && OpsFit(b)
    ensures OpsFit(a + b) && Records(a + b) == Records(a) + Records(b)
  {
    hide OpFits, OpBytes;
    if a == [] {
      assert a + b == b;
    } else {
      RecordsConcat(a[1..], b);
      RestOfConcat(a, b);
      Assoc(OpBytes(a[0]), Records(a[1..]), Records(b));
    }
  }

  lemma RestOfConcat<T>(a: seq<T>, b: seq<T>)
    requires a != []
    ensures (a + b)[0] == a[0] && (a + b)[1..] == a[1..] + b
  {
  }

  lemma OneRecord(op: Op)
    requires OpFits(op)
    ensures OpsFit([op]) && Records([op]) == OpBytes(op)
  {
    assert [op][1..] == [];
  }

  // The first operation of `s`, and what follows it.
  function FirstOp(s: Bytes): (r: Option<(Op, Bytes)>)
    ensures r.Some? ==> |r.value.1| < |s|
  {
    if s == [] then None
    else if s[0] == VALUE_TAG then
      var key := Unprefixed(s[1..]);
      if key.None? then None else
      var value := Unprefixed(key.value.1);
      if value.None? then None else Some((Put(key.value.0, value.value.0), value.value.1))
    else if s[0] == DELETION_TAG then
      var key := Unprefixed(s[1..]);
      if key.None? then None else Some((Delete(key.value.0), key.value.1))
    else None
  }

  // `s` begins with the record of an operation: a known tag, and one or two slices.
  ghost predicate IsRecord(s: Bytes, op: Op, rest: Bytes) {
    && s != []
    && match op
       case Put(key, value) =>
         s[0] == VALUE_TAG && exists mid :: IsPrefixed(s[1..], key, mid) && IsPrefixed(mid, value, rest)
       case Delete(key) => s[0] == DELETION_TAG && IsPrefixed(s[1..], key, rest)
  }

  // On any bytes: what is handed over is a record that is there.
  lemma FirstOpExact(s: Bytes, op: Op, rest: Bytes)
    ensures FirstOp(s) == Some((op, rest)) <==> IsRecord(s, op, rest)
  {
    hide IsPrefixed, Unprefixed;
    if s != [] {
      var key := Unprefixed(s[1..]);
      match op
      case Put(k, v) =>
        if s[0] == VALUE_TAG && FirstOp(s) == Some((op, rest)) {
          UnprefixedExact(s[1..], k, key.value.1);
          UnprefixedExact(key.value.1, v, rest);
        }
        if IsRecord(s, op, rest) {
          var mid :| IsPrefixed(s[1..], k, mid) && IsPrefixed(mid, v, rest);
          UnprefixedExact(s[1..], k, mid);
          UnprefixedExact(mid, v, rest);
        }
      case Delete(k) =>
        UnprefixedExact(s[1..], k, rest);
    }
  }

  // The operations a reader of the records is handed, and whether it reaches the end.
  function Parsed(s: Bytes): (seq<Op>, bool) {
    if s == [] then ([], true) else
    var first := FirstOp(s);
    if first.None? then ([], false) else
    var rest := Parsed(first.value.1);
    ([first.value.0] + rest.0, rest.1)
  }

  lemma FirstOpBack(op: Op, rest: Bytes)
    requires OpFits(op)
    ensures FirstOp(OpBytes(op) + rest) == Some((op, rest))
  {
    var s := OpBytes(op) + rest;
    match op
    case Put(key, value) =>
      Tail(VALUE_TAG, Prefixed(key), Prefixed(value), rest);
      UnprefixedPrefixed(key, Prefixed(value) + rest);
      UnprefixedPrefixed(value, rest);
    case Delete(key) =>
      Tail(DELETION_TAG, Prefixed(key), [], rest);
      UnprefixedPrefixed(key, rest);
  }

  lemma Tail<T>(x: T, a: seq<T>, b: seq<T>, rest: seq<T>)
    ensures ([x] + a + b + rest)[0] == x && ([x] + a + b + rest)[1..] == a + (b + rest)
    ensures [x] + a + [] + rest == [x] + a + rest && a + ([] + rest) == a + rest
  {
  }

  lemma {:induction false} ParsedBack(ops: seq<Op>)
    requires OpsFit(ops)
    ensures Parsed(Records(ops)) == (ops, true)
  {
    hide FirstOp, OpBytes, OpFits;
    if ops != [] {
      FirstOpBack(ops[0], Records(ops[1..]));
      ParsedBack(ops[1..]);
      ParsedStep(OpBytes(ops[0]) + Records(ops[1..]));
      Cons(ops);
    }
  }

  lemma ParsedStep(s: Bytes)
    requires FirstOp(s).Some?
    ensures var first := FirstOp(s).value; var rest := Parsed(first.1);
      Parsed(s) == ([first.0] + rest.0, rest.1)
  {
  }

  lemma Cons<T>(s: seq<T>)
    requires s != []
    ensures [s[0]] + s[1..] == s
  {
  }

  datatype Status = Done | TooSmall | BadRecord | WrongCount

  method TakeOp(input: Bytes) returns (r: Option<(Op, Bytes)>)
    requires input != []
    ensures r == FirstOp(input)
  {
    var tag, rest := input[0], input[1..];
    if tag == VALUE_TAG {
      var key := GetLengthPrefixedSlice(rest);
      if key.None? {
        return None;
      }
      var value := GetLengthPrefixedSlice(key.value.1);
      if value.None? {
        return None;
      }
      r := Some((Put(key.value.0, value.value.0), value.value.1));
    } else if tag == DELETION_TAG {
      var key := GetLengthPrefixedSlice(rest);
      if key.None? {
        return None;
      }
      r := Some((Delete(key.value.0), key.value.1));
    } else {
      r := None;
    }
  }

  // Operations under consecutive sequence numbers from `first` on.
  ghost predicate Numbered(adds: seq<(nat, Op)>, ops: seq<Op>, first: nat) {
    |adds| == |ops| && forall i :: 0 <= i < |adds| ==> adds[i] == (first + i, ops[i])
  }

  function Number(ops: seq<Op>, first: nat): (adds: seq<(nat, Op)>)
    ensures Numbered(adds, ops, first)
  {
    seq(|ops|, i requires 0 <= i < |ops| => (first + i, ops[i]))
  }

  class WriteBatch {
    var rep: Bytes

    // The operations the batch holds.
    ghost var ops: seq<Op>

    constructor ()
      ensures Valid() && ops == [] && SequenceIs(0)
    {
      rep, ops := seq(HEADER, _ => 0), [];
      new;
      assert rep == Fixed(0, 8) + Fixed(0, 4) + Records([]) by {
        ZeroBytes();
      }
    }

    // Back to an empty batch.
    method Clear()
      modifies this
      ensures Valid() && ops == [] && SequenceIs(0)
    {
      rep, ops := seq(HEADER, _ => 0), [];
      assert rep == Fixed(0, 8) + Fixed(0, 4) + Records([]) by {
        ZeroBytes();
      }
    }

    ghost predicate Valid()
      reads this
    {
      && OpsFit(ops) && |ops| <= MAX_COUNT && |rep| >= HEADER
      && rep[8..HEADER] == Fixed(|ops|, 4) && rep[HEADER..] == Records(ops)
    }

    ghost predicate SequenceIs(s: Uint64)
      reads this
    {
      |rep| >= HEADER && rep[..8] == Fixed(s, 8)
    }

    method ByteSize() returns (n: nat)
      requires Valid()
      ensures OpsFit(ops) && n == BatchSize(ops) && n >= |ops|
    {
      RecordsLength(ops);
      n := |rep|;
    }

    method Count() returns (n: nat)
      requires Valid()
      ensures n == |ops|
    {
      Word32At(rep, |ops|);
      n := Word32(rep, 8);
    }

    method SetCount(n: Uint32)
      requires |rep| >= HEADER
      modifies this`rep
      ensures |rep| == |old(rep)| && rep[..8] == old(rep)[..8] && rep[8..HEADER] == Fixed(n, 4)
      ensures rep[HEADER..] == old(rep)[HEADER..]
    {
      var word := EncodeFixed32(n);
      rep := rep[..8] + word + rep[HEADER..];
    }

    method SetSequence(s: Uint64)
      requires Valid()
      modifies this`rep
      ensures Valid() && SequenceIs(s)
    {
      ReplaceFront(rep, Fixed(s, 8));
      hide Fixed, Records, OpsFit;
      rep := Fixed(s, 8) + rep[8..];
    }

    method Sequence() returns (s: nat)
      requires |rep| >= HEADER
      ensures s == Unfixed(rep[..8])
    {
      s := Unfixed(rep[..8]);
    }

    method Put(key: Bytes, value: Bytes)
      requires Valid() && |ops| < MAX_COUNT && |key| < WORD32 && |value| < WORD32
      modifies this
      ensures Valid() && ops == old(ops) + [Op.Put(key, value)] && rep[..8] == old(rep)[..8]
    {
      var n := Count();
      SetCount(n + 1);
      var k := PutLengthPrefixedSlice(key);
      var v := PutLengthPrefixedSlice(value);
      OneRecord(Op.Put(key, value));
      AppendRecords([VALUE_TAG] + k + v, [Op.Put(key, value)]);
    }

    method Delete(key: Bytes)
      requires Valid() && |ops| < MAX_COUNT && |key| < WORD32
      modifies this
      ensures Valid() && ops == old(ops) + [Op.Delete(key)] && rep[..8] == old(rep)[..8]
    {
      var n := Count();
      SetCount(n + 1);
      var k := PutLengthPrefixedSlice(key);
      OneRecord(Op.Delete(key));
      AppendRecords([DELETION_TAG] + k, [Op.Delete(key)]);
    }

    // All operations of another batch, or of this one again.
    method Append(source: WriteBatch)
      requires Valid() && source.Valid() && |ops| + |source.ops| <= MAX_COUNT
      modifies this
      ensures Valid() && ops == old(ops) + old(source.ops) && rep[..8] == old(rep)[..8]
    {
      hide OpsFit, Records, Fixed;
      ghost var added := source.ops;
      var n := Count();
      var m := source.Count();
      SetCount(n + m);
      AppendRecords(source.rep[HEADER..], added);
    }

    // Hand the operations over one by one, and say how it ended.
    method Iterate() returns (handled: seq<Op>, status: Status)
      ensures |rep| < HEADER ==> handled == [] && status == TooSmall
      ensures |rep| >= HEADER ==> var p := Parsed(rep[HEADER..]);
        handled == p.0 && status == if !p.1 then BadRecord else if |p.0| != Word32(rep, 8) then WrongCount else Done
      ensures Valid() ==> handled == ops && status == Done
    {
      ghost var valid := Valid();
      if valid {
        ParsedBack(ops);
        Word32At(rep, |ops|);
      }
      handled := [];
      if |rep| < HEADER {
        return [], TooSmall;
      }
      assert valid ==> Parsed(rep[HEADER..]) == (ops, true) && Word32(rep, 8) == |ops|;
      hide FirstOp, Word32, Records, OpsFit, WriteBatch.Valid;
      var input := rep[HEADER..];
      var bad := false;
      ghost var goal := Parsed(input);
      assert [] + goal.0 == goal.0;
      while input != [] && !bad
        invariant !bad ==> goal == (handled + Parsed(input).0, Parsed(input).1)
        invariant bad ==> goal == (handled, false)
        decreases !bad, |input|
      {
        var first := TakeOp(input);
        if first.None? {
          bad := true;
          assert handled + [] == handled;
        } else {
          ghost var rest := Parsed(first.value.1).0;
          Assoc(handled, [first.value.0], rest);
          handled, input := handled + [first.value.0], first.value.1;
        }
      }
      assert handled + [] == handled;
      status := if bad then BadRecord else if |handled| != Word32(rep, 8) then WrongCount else Done;
    }

    // Add every operation to a memtable, under consecutive sequence numbers.
    method InsertInto(ghost first: Uint64) returns (adds: seq<(nat, Op)>, status: Status)
      requires |rep| >= HEADER
      ensures var p := Parsed(rep[HEADER..]);
        && Numbered(adds, p.0, Unfixed(rep[..8]))
        && status == if !p.1 then BadRecord else if |p.0| != Word32(rep, 8) then WrongCount else Done
      ensures Valid() && SequenceIs(first) ==> Numbered(adds, ops, first) && status == Done
    {
      if SequenceIs(first) {
        SequenceBack(rep, first);
      }
      hide *;
      var sequence := Sequence();
      var handled, ended := Iterate();
      adds, status := Number(handled, sequence), ended;
    }

    method AppendRecords(bytes: Bytes, ghost added: seq<Op>)
      requires OpsFit(ops) && OpsFit(added) && |ops| + |added| <= MAX_COUNT && |rep| >= HEADER
      requires rep[8..HEADER] == Fixed(|ops| + |added|, 4) && rep[HEADER..] == Records(ops)
      requires bytes == Records(added)
      modifies this
      ensures Valid() && ops == old(ops) + added && rep[..8] == old(rep)[..8]
    {
      hide OpsFit, Records;
      RecordsConcat(ops, added);
      AppendedParts(rep, bytes);
      rep := rep + bytes;
      ops := ops + added;
    }
  }

  lemma AppendedParts<T>(rep: seq<T>, more: seq<T>)
    requires |rep| >= HEADER
    ensures (rep + more)[..8] == rep[..8] && (rep + more)[8..HEADER] == rep[8..HEADER]
    ensures (rep + more)[HEADER..] == rep[HEADER..] + more
  {
  }

  lemma ReplaceFront<T>(rep: seq<T>, front: seq<T>)
    requires |rep| >= HEADER && |front| == 8
    ensures var r := front + rep[8..];
      |r| == |rep| && r[..8] == front && r[8..HEADER] == rep[8..HEADER] && r[HEADER..] == rep[HEADER..]
  {
  }

  lemma SequenceBack(rep: Bytes, n: Uint64)
    requires |rep| >= HEADER && rep[..8] == Fixed(n, 8)
    ensures Unfixed(rep[..8]) == n
  {
    Fixed64RoundTrip(n, []);
    assert (Fixed(n, 8) + [])[..8] == Fixed(n, 8);
  }

  lemma ZeroBytes()
    ensures Fixed(0, 8) == [0, 0, 0, 0, 0, 0, 0, 0] && Fixed(0, 4) == [0, 0, 0, 0]
  {
    assert Fixed(0, 4) == [0, 0, 0, 0];
    assert Fixed(0, 6) == [0, 0] + Fixed(0, 4);
    assert Fixed(0, 8) == [0, 0] + Fixed(0, 6);
  }

  lemma Word32At(rep: Bytes, n: Uint32)
    requires |rep| >= HEADER && rep[8..HEADER] == Fixed(n, 4)
    ensures Word32(rep, 8) == n
  {
    Word32Stored(rep[..8], n, rep[HEADER..]);
    assert rep == rep[..8] + rep[8..HEADER] + rep[HEADER..];
  }
}
