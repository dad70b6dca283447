/** Reading an encoded message on top of what a structure holds gives the merge of both. */
module ProtoMerge {
  import opened DbFormat
  import opened Coding
  import opened ProtoTypes
  import opened ProtoScalars

  const MAX_TAG: nat := 0x2000_0000

  // Field numbers are distinct and below 2^29.
  ghost predicate DescriptorOk(t: LType)
    decreases t, 0
  {
    t.TMessage? ==>
      && (forall i :: 0 <= i < |t.fields| ==> 1 <= t.fields[i].tag < MAX_TAG && DescriptorOk(t.fields[i].ltype))
      && forall i, j :: 0 <= i < j < |t.fields| ==> t.fields[i].tag != t.fields[j].tag
  }

  // ---- Merging --------------------------------------------------------------------------------------------------

  // What a structure of the type can hold, whatever the numbers and strings are.
  ghost predicate Shaped(t: LType, v: Value)
    decreases t, 1
  {
    t.TMessage? ==> v.VMessage? && ShapedMessage(t, v.values)
  }

  ghost predicate ShapedMessage(t: LType, values: seq<FieldValue>)
    requires t.TMessage?
    decreases t, 0
  {
    |values| == |t.fields| && forall i :: 0 <= i < |values| ==> ShapedField(t.fields[i], values[i])
  }

  ghost predicate ShapedField(f: Field, fv: FieldValue)
    decreases f, 0
  {
    match f.htype
    case Required => fv.One? && Shaped(f.ltype, fv.v)
    case Singular => fv.One? && Shaped(f.ltype, fv.v)
    case Optional => fv.Opt? && Shaped(f.ltype, fv.v)
    case OneOf(_) => fv.Opt? && Shaped(f.ltype, fv.v)
    case Repeated(_) => fv.Many?
  }

  lemma {:induction false} ZeroIsShaped(t: LType)
    ensures Shaped(t, Zero(t))
    decreases t
  {
    if t.TMessage? {
      var z := Zero(t).values;
      forall i | 0 <= i < |z| ensures ShapedField(t.fields[i], z[i]) {
        assert z[i] == ZeroField(t.fields[i]);
        ZeroIsShaped(t.fields[i].ltype);
      }
    }
  }

  lemma {:induction false} TypedIsShaped(t: LType, v: Value)
    requires Typed(t, v)
    ensures Shaped(t, v)
    decreases t
  {
    if t.TMessage? {
      assert TypedMessage(t, v.values);
      forall i | 0 <= i < |v.values| ensures ShapedField(t.fields[i], v.values[i]) {
        assert TypedField(t.fields[i], v.values[i]);
        if !t.fields[i].htype.Repeated? {
          TypedIsShaped(t.fields[i].ltype, v.values[i].v);
        }
      }
    }
  }

  // A value takes the place of the one before; messages are merged field by field.
  ghost function MergeValue(t: LType, base: Value, v: Value): (r: Value)
    requires Shaped(t, base) && Typed(t, v)
    ensures Shaped(t, r)
    decreases t, 1
  {
    if t.TMessage? then VMessage(Merge(t, base.values, v.values)) else v
  }

  ghost function Merge(t: LType, base: seq<FieldValue>, values: seq<FieldValue>): (r: seq<FieldValue>)
    requires t.TMessage? && ShapedMessage(t, base) && TypedMessage(t, values)
    ensures ShapedMessage(t, r)
    decreases t, 0
  {
    seq(|values|, j requires 0 <= j < |values| =>
      MergeField(t.fields[j], base[j], values[j], OtherSet(t, values, j, |values|)))
  }

  // Among the first `n` fields another member of the same union is set.
  ghost predicate OtherSet(t: LType, values: seq<FieldValue>, j: nat, n: nat)
    requires t.TMessage? && |values| == |t.fields| && j < |values| && n <= |values|
  {
    exists k :: 0 <= k < n && k != j && t.fields[j].htype.OneOf? && t.fields[k].htype == t.fields[j].htype
      && values[k].Opt? && values[k].has
  }

  // A member of a union that was not set is read from scratch.
  function BaseOf(f: Field, base: FieldValue): Value
    requires !base.Many?
  {
    if f.htype.OneOf? && base.Opt? && f.ltype.TMessage? && !base.has then Zero(f.ltype) else base.v
  }

  lemma BaseIsShaped(f: Field, base: FieldValue)
    requires ShapedField(f, base) && !f.htype.Repeated?
    ensures Shaped(f.ltype, BaseOf(f, base))
  {
    ZeroIsShaped(f.ltype);
  }

  // What was not written leaves the field; arrays grow, and a union member gives way to another.
  ghost function MergeField(f: Field, base: FieldValue, fv: FieldValue, otherSet: bool): (r: FieldValue)
    requires ShapedField(f, base) && TypedField(f, fv)
    ensures ShapedField(f, r)
    decreases f, 1
  {
    if f.htype.Repeated? then Many(base.items + Fresh(f, fv.items))
    else if IsAbsent(f, fv) then
      if f.htype.OneOf? && otherSet then Opt(false, base.v) else base
    else
      BaseIsShaped(f, base);
      var v := MergeValue(f.ltype, BaseOf(f, base), fv.v);
      if f.htype.Optional? || f.htype.OneOf? then Opt(true, v) else One(v)
  }

  // Array items are read from scratch.
  ghost function Fresh(f: Field, items: seq<Value>): (r: seq<Value>)
    requires forall k :: 0 <= k < |items| ==> Typed(f.ltype, items[k])
    ensures |r| == |items|
    decreases f, 0
  {
    ZeroIsShaped(f.ltype);
    seq(|items|, k requires 0 <= k < |items| => MergeValue(f.ltype, Zero(f.ltype), items[k]))
  }

  // Reading succeeds unless a string fills its buffer or an array has no room.
  ghost predicate MergeOk(t: LType, base: Value, v: Value)
    requires Shaped(t, base) && Typed(t, v)
    decreases t, 1
  {
    match t
    case TString(dataSize) => |v.s| < dataSize
    case TMessage(_) => MessageOk(t, base.values, v.values)
    case _ => true
  }

  ghost predicate MessageOk(t: LType, base: seq<FieldValue>, values: seq<FieldValue>)
    requires t.TMessage? && ShapedMessage(t, base) && TypedMessage(t, values)
    decreases t, 0
  {
    forall j :: 0 <= j < |values| ==> FieldOk(t.fields[j], base[j], values[j])
  }

  ghost predicate FieldOk(f: Field, base: FieldValue, fv: FieldValue)
    requires ShapedField(f, base) && TypedField(f, fv)
    decreases f, 0
  {
    if IsAbsent(f, fv) then true
    else if f.htype.Repeated? then |base.items| + |fv.items| <= f.htype.arraySize && ItemsOk(f, fv.items)
    else
      BaseIsShaped(f, base);
      MergeOk(f.ltype, BaseOf(f, base), fv.v)
  }

  ghost predicate ItemsOk(f: Field, items: seq<Value>)
    requires forall k :: 0 <= k < |items| ==> Typed(f.ltype, items[k])
    decreases f, 0, |items|
  {
    ZeroIsShaped(f.ltype);
    items == [] || (MergeOk(f.ltype, Zero(f.ltype), items[0]) && ItemsOk(f, items[1..]))
  }

  // ---- Finding the field ------------------------------------------------------------------------------------------

  lemma TagFinds(t: LType, i: nat)
    requires t.TMessage? && DescriptorOk(t) && i < |t.fields|
    ensures FieldAt(t, t.fields[i].tag, 0) == i
  {
    var r := FieldAt(t, t.fields[i].tag, 0);
  }

  lemma TagParts(tag: nat, wireType: nat)
    requires wireType < 8
    ensures (tag * 8 + wireType) / 8 == tag && (tag * 8 + wireType) % 8 == wireType
  {
  }

  // One record of field `i` is read by that field's decoder.
  lemma RecordStarts(t: LType, values: seq<FieldValue>, i: nat, wireType: nat, body: Bytes, seen: set<nat>)
    requires t.TMessage? && DescriptorOk(t) && |values| == |t.fields| && i < |values| && wireType < 8
    ensures
      var next := DecField(t, values, i, wireType, body);
      DecMessage(t, values, TagBytes(t.fields[i].tag, wireType) + body, seen)
      == if next.None? then None else DecMessage(t, next.value.0, next.value.1, Seen(t, i, seen))
  {
    hide DecField, Seen, AllSeen, Varint, Varint32, FieldAt;
    var tag := t.fields[i].tag;
    Varint32Back(tag * 8 + wireType, body);
    TagParts(tag, wireType);
    TagFinds(t, i);
  }

  // ---- Required fields ----------------------------------------------------------------------------------------------

  // The numbers seen once the fields from position `i` on have been read.
  ghost function SeenAll(t: LType, i: nat, seen: set<nat>): set<nat>
    requires t.TMessage? && i <= |t.fields|
    decreases |t.fields| - i
  {
    if i == |t.fields| then seen else SeenAll(t, i + 1, Seen(t, i, seen))
  }

  lemma {:induction false} SeenAllGrows(t: LType, i: nat, seen: set<nat>)
    requires t.TMessage? && i <= |t.fields|
    requires forall r: nat :: r < RequiredBefore(t, i) && r < MAX_REQUIRED ==> r in seen
    ensures AllSeen(t, SeenAll(t, i, seen))
    decreases |t.fields| - i
  {
    if i < |t.fields| {
      SeenAllGrows(t, i + 1, Seen(t, i, seen));
    }
  }

  // ---- Values and fields --------------------------------------------------------------------------------------------

  // The structure after one field of the message.
  ghost function Put(t: LType, cur: seq<FieldValue>, i: nat, fv: FieldValue): (r: seq<FieldValue>)
    requires t.TMessage? && ShapedMessage(t, cur) && i < |cur| && TypedField(t.fields[i], fv)
    ensures |r| == |cur|
  {
    var f := t.fields[i];
    if IsAbsent(f, fv) then cur
    else if f.htype.OneOf? then Chosen(t, cur, i, MergeField(f, cur[i], fv, false).v)
    else cur[i := MergeField(f, cur[i], fv, false)]
  }

  lemma PutIsShaped(t: LType, cur: seq<FieldValue>, i: nat, fv: FieldValue)
    requires t.TMessage? && ShapedMessage(t, cur) && i < |cur| && TypedField(t.fields[i], fv)
    ensures ShapedMessage(t, Put(t, cur, i, fv))
  {
    var r := Put(t, cur, i, fv);
    forall j | 0 <= j < |r| ensures ShapedField(t.fields[j], r[j]) {
      assert ShapedField(t.fields[j], cur[j]);
      assert j == i ==> ShapedField(t.fields[i], MergeField(t.fields[i], cur[i], fv, false));
    }
  }

  lemma {:induction false} ValueRead(t: LType, base: Value, v: Value, rest: Bytes)
    requires DescriptorOk(t) && Shaped(t, base) && Typed(t, v)
    requires EncValue(t, v).Some? && |EncValue(t, v).value| < WORD32
    ensures DecValue(t, base, EncValue(t, v).value + rest)
      == if MergeOk(t, base, v) then Some((MergeValue(t, base, v), rest)) else None
    decreases t, 3
  {
    if !t.TMessage? {
      ScalarBack(t, v, base, rest);
    } else {
      var b := EncMessage(t, v.values, 0).value;
      SliceBack(b, rest);
      MessageRead(t, base.values, v.values, [], {});
      assert b + [] == b;
      SeenAllGrows(t, 0, {});
      hide EncMessage, Varint, Slice, MessageOk, Merge;
    }
  }

  lemma FieldParts(t: LType, cur: seq<FieldValue>, i: nat)
    requires t.TMessage? && ShapedMessage(t, cur) && i < |cur|
    ensures |cur| == |t.fields| && ShapedField(t.fields[i], cur[i])
  {
  }

  // What was written for one field, with anything behind it.
  lemma {:induction false} FieldRead(t: LType, cur: seq<FieldValue>, i: nat, fv: FieldValue, rest: Bytes, seen: set<nat>)
    requires t.TMessage? && DescriptorOk(t) && ShapedMessage(t, cur) && i < |cur| == |t.fields|
    requires TypedField(t.fields[i], fv) && ShapedField(t.fields[i], cur[i])
    requires EncField(t.fields[i], fv).Some? && |EncField(t.fields[i], fv).value| < WORD32
    ensures DecMessage(t, cur, EncField(t.fields[i], fv).value + rest, seen)
      == if FieldOk(t.fields[i], cur[i], fv) then DecMessage(t, Put(t, cur, i, fv), rest, Seen(t, i, seen)) else None
    decreases t, 1
  {
    var f := t.fields[i];
    if IsAbsent(f, fv) {
      assert [] + rest == rest;
    } else if f.htype.Repeated? {
      ArrayRead(t, cur, i, fv.items, rest, seen);
    } else {
      SingleRead(t, cur, i, fv, rest, seen);
    }
  }

  lemma {:induction false} SingleRead(t: LType, cur: seq<FieldValue>, i: nat, fv: FieldValue, rest: Bytes, seen: set<nat>)
    requires t.TMessage? && DescriptorOk(t) && ShapedMessage(t, cur) && i < |cur| == |t.fields|
    requires TypedField(t.fields[i], fv) && ShapedField(t.fields[i], cur[i])
    requires !t.fields[i].htype.Repeated? && !IsAbsent(t.fields[i], fv)
    requires EncTagged(t.fields[i], fv.v).Some? && |EncTagged(t.fields[i], fv.v).value| < WORD32
    ensures DecMessage(t, cur, EncTagged(t.fields[i], fv.v).value + rest, seen)
      == if FieldOk(t.fields[i], cur[i], fv) then DecMessage(t, Put(t, cur, i, fv), rest, Seen(t, i, seen)) else None
    decreases t, 0
  {
    var f := t.fields[i];
    var body := EncValue(f.ltype, fv.v).value;
    BaseIsShaped(f, cur[i]);
    ValueRead(f.ltype, BaseOf(f, cur[i]), fv.v, rest);
    RecordStarts(t, cur, i, WireType(f.ltype), body + rest, seen);
    Assoc(TagBytes(f.tag, WireType(f.ltype)), body, rest);
    hide EncValue, DecMessage, TagBytes, Seen, DecValue, MergeOk, MergeValue, ShapedMessage, Shaped, Typed, DescriptorOk;
  }

  // ---- Arrays ----------------------------------------------------------------------------------------------------------

  lemma PackableNotEmpty(t: LType, v: Value)
    requires Packable(t) && Typed(t, v)
    ensures EncValue(t, v).Some? && EncValue(t, v).value != []
  {
  }

  // A packed array: item after item until the bytes end or the array is full.
  lemma {:induction false} PackedRead(f: Field, items: seq<Value>, done: seq<Value>, arraySize: nat)
    requires Packable(f.ltype) && forall i :: 0 <= i < |items| ==> Typed(f.ltype, items[i])
    requires EncPacked(f, items).Some? && |EncPacked(f, items).value| < WORD32
    ensures DecPacked(f.ltype, done, arraySize, EncPacked(f, items).value)
      == if items == [] || |done| + |items| <= arraySize then Some(done + items) else None
    decreases |items|
  {
    if items == [] {
      assert done + items == done;
    } else {
      var a, b := EncValue(f.ltype, items[0]).value, EncPacked(f, items[1..]).value;
      PackableNotEmpty(f.ltype, items[0]);
      ScalarBack(f.ltype, items[0], Zero(f.ltype), b);
      PackedRead(f, items[1..], done + [items[0]], arraySize);
      assert done + [items[0]] + items[1..] == done + items;
    }
  }

  lemma {:induction false} PackableItems(f: Field, items: seq<Value>)
    requires Packable(f.ltype) && forall k :: 0 <= k < |items| ==> Typed(f.ltype, items[k])
    ensures Fresh(f, items) == items && ItemsOk(f, items)
    decreases |items|
  {
    if items != [] {
      PackableItems(f, items[1..]);
    }
  }

  lemma {:induction false} ArrayRead(t: LType, cur: seq<FieldValue>, i: nat, items: seq<Value>, rest: Bytes, seen: set<nat>)
    requires t.TMessage? && DescriptorOk(t) && |cur| == |t.fields| && i < |cur| && cur[i].Many?
    requires t.fields[i].htype.Repeated? && TypedField(t.fields[i], Many(items)) && items != []
    requires EncField(t.fields[i], Many(items)).Some? && |EncField(t.fields[i], Many(items)).value| < WORD32
    ensures
      var f, done := t.fields[i], cur[i].items;
      DecMessage(t, cur, EncField(f, Many(items)).value + rest, seen)
      == if |done| + |items| <= f.htype.arraySize && ItemsOk(f, items) then
           DecMessage(t, cur[i := Many(done + Fresh(f, items))], rest, Seen(t, i, seen))
         else None
    decreases t, 0, |items| + 2
  {
    var f, done := t.fields[i], cur[i].items;
    if Packable(f.ltype) {
      var b := EncPacked(f, items).value;
      PackedRead(f, items, done, f.htype.arraySize);
      PackableItems(f, items);
      RecordStarts(t, cur, i, 2, Varint(|b|) + b + rest, seen);
      Assoc(TagBytes(f.tag, 2), Varint(|b|) + b, rest);
      SliceBack(b, rest);
      hide EncPacked, DecPacked, Varint, TagBytes, Slice, DecMessage, Fresh, ItemsOk;
    } else {
      EachRead(t, cur, i, done, items, rest, seen);
    }
  }

  // An array that is not packed, or need not be: record after record.
  lemma {:induction false} EachRead(t: LType, cur: seq<FieldValue>, i: nat, done: seq<Value>, items: seq<Value>,
                                    rest: Bytes, seen: set<nat>)
    requires t.TMessage? && DescriptorOk(t) && |cur| == |t.fields| && i < |cur| && cur[i] == Many(done)
    requires t.fields[i].htype.Repeated? && forall k :: 0 <= k < |items| ==> Typed(t.fields[i].ltype, items[k])
    requires EncEach(t.fields[i], items).Some? && |EncEach(t.fields[i], items).value| < WORD32
    ensures DecMessage(t, cur, EncEach(t.fields[i], items).value + rest, seen)
      == if (items == [] || |done| + |items| <= t.fields[i].htype.arraySize) && ItemsOk(t.fields[i], items) then
           DecMessage(t, cur[i := Many(done + Fresh(t.fields[i], items))], rest, seen)
         else None
    decreases t, 0, |items| + 1
  {
    var f := t.fields[i];
    if items == [] {
      assert [] + rest == rest;
      assert Fresh(f, items) == [] && done + [] == done && cur[i := Many(done)] == cur;
    } else {
      var record, more := EncTagged(f, items[0]).value, EncEach(f, items[1..]).value;
      Assoc(record, more, rest);
      ItemRead(t, cur, i, done, items[0], more + rest, seen);
      FreshFirst(f, items);
      ZeroIsShaped(f.ltype);
      var w := MergeValue(f.ltype, Zero(f.ltype), items[0]);
      var next := cur[i := Many(done + [w])];
      hide EncTagged, DecMessage, Fresh, MergeOk, MergeValue, Typed;
      if |done| < f.htype.arraySize && MergeOk(f.ltype, Zero(f.ltype), items[0]) {
        EachRead(t, next, i, done + [w], items[1..], rest, seen);
        Assoc(done, [w], Fresh(f, items[1..]));
        assert next[i := Many(done + Fresh(f, items))] == cur[i := Many(done + Fresh(f, items))];
      }
    }
  }

  lemma FreshFirst(f: Field, items: seq<Value>)
    requires items != [] && forall k :: 0 <= k < |items| ==> Typed(f.ltype, items[k])
    ensures Shaped(f.ltype, Zero(f.ltype))
    ensures Fresh(f, items) == [MergeValue(f.ltype, Zero(f.ltype), items[0])] + Fresh(f, items[1..])
  {
    ZeroIsShaped(f.ltype);
  }

  lemma {:induction false} ItemRead(t: LType, cur: seq<FieldValue>, i: nat, done: seq<Value>, v: Value, rest: Bytes,
                                    seen: set<nat>)
    requires t.TMessage? && DescriptorOk(t) && |cur| == |t.fields| && i < |cur| && cur[i] == Many(done)
    requires t.fields[i].htype.Repeated? && Typed(t.fields[i].ltype, v)
    requires EncTagged(t.fields[i], v).Some? && |EncTagged(t.fields[i], v).value| < WORD32
    ensures Shaped(t.fields[i].ltype, Zero(t.fields[i].ltype))
    ensures
      var f, zero := t.fields[i], Zero(t.fields[i].ltype);
      DecMessage(t, cur, EncTagged(f, v).value + rest, seen)
      == if |done| < f.htype.arraySize && MergeOk(f.ltype, zero, v) then
           DecMessage(t, cur[i := Many(done + [MergeValue(f.ltype, zero, v)])], rest, seen)
         else None
    decreases t, 0, 0
  {
    var f := t.fields[i];
    var body := EncValue(f.ltype, v).value;
    ZeroIsShaped(f.ltype);
    ValueRead(f.ltype, Zero(f.ltype), v, rest);
    RecordStarts(t, cur, i, WireType(f.ltype), body + rest, seen);
    Assoc(TagBytes(f.tag, WireType(f.ltype)), body, rest);
    NotPackedType(f.ltype);
    hide EncValue, DecMessage, TagBytes, DecValue, MergeOk, MergeValue, DescriptorOk, Typed, Slice;
  }

  // A value that may stand in a packed array never looks like one by itself.
  lemma NotPackedType(t: LType)
    ensures Packable(t) ==> WireType(t) != 2
  {
  }

  // ---- The whole message ---------------------------------------------------------------------------------------------

  // One field while the message is read: before its own turn only another member of its union can change it.
  ghost function MidField(f: Field, base: FieldValue, fv: FieldValue, done: bool, otherSet: bool): (r: FieldValue)
    requires ShapedField(f, base) && TypedField(f, fv)
    ensures ShapedField(f, r)
  {
    if done then MergeField(f, base, fv, otherSet)
    else if f.htype.OneOf? && otherSet then Opt(false, base.v)
    else base
  }

  // The structure after the first `i` fields of the message.
  ghost function Upto(t: LType, base: seq<FieldValue>, values: seq<FieldValue>, i: nat): (r: seq<FieldValue>)
    requires t.TMessage? && ShapedMessage(t, base) && TypedMessage(t, values) && i <= |values|
    ensures |r| == |values| && ShapedMessage(t, r)
  {
    seq(|values|, j requires 0 <= j < |values| =>
      MidField(t.fields[j], base[j], values[j], j < i, OtherSet(t, values, j, i)))
  }

  lemma NotSet(t: LType, values: seq<FieldValue>, i: nat, j: nat)
    requires t.TMessage? && TypedMessage(t, values) && i < |values| && j < |values| && i != j
    requires t.fields[i].htype.OneOf? && t.fields[j].htype == t.fields[i].htype
    requires values[i].Opt? && values[i].has
    ensures values[j].Opt? && !values[j].has
  {
    assert TypedField(t.fields[j], values[j]);
    assert Compatible(t, values, if i < j then i else j, if i < j then j else i);
  }

  lemma OnlyOneSet(t: LType, values: seq<FieldValue>, j: nat, n: nat)
    requires t.TMessage? && TypedMessage(t, values) && j < |values| && n <= |values|
    requires values[j].Opt? && values[j].has
    ensures !OtherSet(t, values, j, n)
  {
    forall k | 0 <= k < n && k != j && t.fields[j].htype.OneOf? && t.fields[k].htype == t.fields[j].htype
      ensures !(values[k].Opt? && values[k].has)
    {
      NotSet(t, values, j, k);
    }
  }

  lemma OtherSetNext(t: LType, values: seq<FieldValue>, j: nat, n: nat)
    requires t.TMessage? && |values| == |t.fields| && j < |values| && n < |values|
    ensures OtherSet(t, values, j, n + 1) <==> (
      OtherSet(t, values, j, n)
      || (n != j && t.fields[j].htype.OneOf? && t.fields[n].htype == t.fields[j].htype && values[n].Opt? && values[n].has))
  {
  }

  // The field itself is still as it was, unless another member of its union was set, and then it is not written.
  lemma StillBase(t: LType, base: seq<FieldValue>, values: seq<FieldValue>, i: nat)
    requires t.TMessage? && ShapedMessage(t, base) && TypedMessage(t, values) && i < |values|
    ensures TypedField(t.fields[i], values[i]) && ShapedField(t.fields[i], base[i])
    ensures !IsAbsent(t.fields[i], values[i]) ==>
      Upto(t, base, values, i)[i] == base[i] && !(t.fields[i].htype.OneOf? && OtherSet(t, values, i, i + 1))
  {
    assert TypedField(t.fields[i], values[i]) && ShapedField(t.fields[i], base[i]);
    if t.fields[i].htype.OneOf? && values[i].has {
      OnlyOneSet(t, values, i, i);
      OnlyOneSet(t, values, i, i + 1);
    }
    hide ShapedField, TypedField, MergeField, Compatible, OtherSet;
  }

  lemma AbsentMerge(f: Field, base: FieldValue, fv: FieldValue, otherSet: bool)
    requires ShapedField(f, base) && TypedField(f, fv) && IsAbsent(f, fv)
    ensures MergeField(f, base, fv, otherSet) == if f.htype.OneOf? && otherSet then Opt(false, base.v) else base
  {
    if f.htype.Repeated? {
      assert fv.items == [] && base.items + [] == base.items;
    }
  }

  lemma UptoAt(t: LType, base: seq<FieldValue>, values: seq<FieldValue>, i: nat, j: nat)
    requires t.TMessage? && ShapedMessage(t, base) && TypedMessage(t, values) && i <= |values| && j < |values|
    ensures ShapedField(t.fields[j], base[j]) && TypedField(t.fields[j], values[j])
    ensures Upto(t, base, values, i)[j]
      == MidField(t.fields[j], base[j], values[j], j < i, OtherSet(t, values, j, i))
  {
    assert ShapedField(t.fields[j], base[j]) && TypedField(t.fields[j], values[j]);
    hide MidField, OtherSet, ShapedField, TypedField, Compatible;
  }

  // The field whose turn it is.
  lemma UptoNextHere(t: LType, base: seq<FieldValue>, values: seq<FieldValue>, i: nat)
    requires t.TMessage? && ShapedMessage(t, base) && TypedMessage(t, values) && i < |values|
    requires TypedField(t.fields[i], values[i])
    ensures Upto(t, base, values, i + 1)[i] == Put(t, Upto(t, base, values, i), i, values[i])[i]
  {
    var f := t.fields[i];
    UptoAt(t, base, values, i, i);
    UptoAt(t, base, values, i + 1, i);
    StillBase(t, base, values, i);
    OtherSetNext(t, values, i, i);
    if IsAbsent(f, values[i]) {
      AbsentMerge(f, base[i], values[i], OtherSet(t, values, i, i + 1));
      hide Upto, ShapedMessage, TypedMessage, OtherSet, MergeField, IsAbsent;
    } else {
      SameWithOther(f, base[i], values[i], OtherSet(t, values, i, i + 1));
      OneOrOpt(f, base[i], values[i]);
      hide Upto, ShapedMessage, TypedMessage, OtherSet, MergeField, IsAbsent;
    }
  }

  lemma SameWithOther(f: Field, base: FieldValue, fv: FieldValue, otherSet: bool)
    requires ShapedField(f, base) && TypedField(f, fv) && !IsAbsent(f, fv)
    ensures MergeField(f, base, fv, otherSet) == MergeField(f, base, fv, false)
  {
  }

  lemma OneOrOpt(f: Field, base: FieldValue, fv: FieldValue)
    requires ShapedField(f, base) && TypedField(f, fv) && !IsAbsent(f, fv)
    ensures f.htype.OneOf? ==>
      MergeField(f, base, fv, false).Opt? && MergeField(f, base, fv, false) == Opt(true, MergeField(f, base, fv, false).v)
  {
    if f.htype.OneOf? {
      BaseIsShaped(f, base);
    }
  }

  // Any other field.
  lemma UptoNextThere(t: LType, base: seq<FieldValue>, values: seq<FieldValue>, i: nat, j: nat)
    requires t.TMessage? && ShapedMessage(t, base) && TypedMessage(t, values) && i < |values| && j < |values| && i != j
    requires TypedField(t.fields[i], values[i])
    ensures Upto(t, base, values, i + 1)[j] == Put(t, Upto(t, base, values, i), i, values[i])[j]
  {
    var f, g := t.fields[i], t.fields[j];
    UptoAt(t, base, values, i, j);
    UptoAt(t, base, values, i + 1, j);
    OtherSetNext(t, values, j, i);
    if !IsAbsent(f, values[i]) && f.htype.OneOf? && g.htype == f.htype {
      NotSet(t, values, i, j);
      assert IsAbsent(g, values[j]) && base[j].Opt?;
      AbsentMerge(g, base[j], values[j], OtherSet(t, values, j, i));
      AbsentMerge(g, base[j], values[j], OtherSet(t, values, j, i + 1));
      hide Upto, ShapedMessage, TypedMessage, OtherSet, MergeField;
    } else {
      assert f.htype.OneOf? && values[i].has ==> !IsAbsent(f, values[i]);
      hide Upto, ShapedMessage, TypedMessage, OtherSet, MergeField;
    }
  }

  lemma UptoNext(t: LType, base: seq<FieldValue>, values: seq<FieldValue>, i: nat)
    requires t.TMessage? && ShapedMessage(t, base) && TypedMessage(t, values) && i < |values|
    ensures TypedField(t.fields[i], values[i])
    ensures Upto(t, base, values, i + 1) == Put(t, Upto(t, base, values, i), i, values[i])
    ensures ShapedField(t.fields[i], base[i]) && ShapedField(t.fields[i], Upto(t, base, values, i)[i])
    ensures FieldOk(t.fields[i], Upto(t, base, values, i)[i], values[i]) <==> FieldOk(t.fields[i], base[i], values[i])
  {
    StillBase(t, base, values, i);
    var next := Put(t, Upto(t, base, values, i), i, values[i]);
    assert ShapedField(t.fields[i], base[i]) && ShapedField(t.fields[i], Upto(t, base, values, i)[i]);
    hide Upto, Put;
    forall j | 0 <= j < |values| ensures Upto(t, base, values, i + 1)[j] == next[j] {
      if j == i {
        UptoNextHere(t, base, values, i);
      } else {
        UptoNextThere(t, base, values, i, j);
      }
    }
  }

  lemma UptoEnds(t: LType, base: seq<FieldValue>, values: seq<FieldValue>)
    requires t.TMessage? && ShapedMessage(t, base) && TypedMessage(t, values)
    ensures Upto(t, base, values, 0) == base && Upto(t, base, values, |values|) == Merge(t, base, values)
  {
  }

  ghost predicate OkFrom(t: LType, base: seq<FieldValue>, values: seq<FieldValue>, i: nat)
    requires t.TMessage? && ShapedMessage(t, base) && TypedMessage(t, values) && i <= |values|
  {
    forall j :: i <= j < |values| ==> FieldOk(t.fields[j], base[j], values[j])
  }

  lemma FirstField(t: LType, values: seq<FieldValue>, i: nat)
    requires t.TMessage? && TypedMessage(t, values) && i < |values| && EncMessage(t, values, i).Some?
    ensures TypedField(t.fields[i], values[i])
    ensures EncField(t.fields[i], values[i]).Some? && EncMessage(t, values, i + 1).Some?
    ensures EncMessage(t, values, i).value == EncField(t.fields[i], values[i]).value + EncMessage(t, values, i + 1).value
  {
  }

  lemma OkNext(t: LType, base: seq<FieldValue>, values: seq<FieldValue>, i: nat)
    requires t.TMessage? && ShapedMessage(t, base) && TypedMessage(t, values) && i < |values|
    requires TypedField(t.fields[i], values[i]) && ShapedField(t.fields[i], base[i])
    ensures OkFrom(t, base, values, i) <==> FieldOk(t.fields[i], base[i], values[i]) && OkFrom(t, base, values, i + 1)
  {
    hide FieldOk;
  }

  lemma {:induction false} MessageFrom(t: LType, base: seq<FieldValue>, values: seq<FieldValue>, i: nat, rest: Bytes,
                                       seen: set<nat>)
    requires t.TMessage? && DescriptorOk(t) && ShapedMessage(t, base) && TypedMessage(t, values) && i <= |values|
    requires |values| == |t.fields|
    requires EncMessage(t, values, i).Some? && |EncMessage(t, values, i).value| < WORD32
    ensures DecMessage(t, Upto(t, base, values, i), EncMessage(t, values, i).value + rest, seen)
      == if OkFrom(t, base, values, i) then DecMessage(t, Upto(t, base, values, |values|), rest, SeenAll(t, i, seen))
         else None
    decreases t, 2, |values| - i
  {
    if i == |values| {
      assert [] + rest == rest;
    } else {
      FirstField(t, values, i);
      UptoNext(t, base, values, i);
      OkNext(t, base, values, i);
      var field, more := EncField(t.fields[i], values[i]).value, EncMessage(t, values, i + 1).value;
      hide EncField, EncMessage, DecMessage, FieldOk, Upto, Put, DescriptorOk, TypedMessage, ShapedMessage, OkFrom,
           TypedField, ShapedField;
      FieldRead(t, Upto(t, base, values, i), i, values[i], more + rest, seen);
      Assoc(field, more, rest);
      if FieldOk(t.fields[i], base[i], values[i]) {
        MessageFrom(t, base, values, i + 1, rest, Seen(t, i, seen));
      }
    }
  }

  // What was written for a message, with anything behind it.
  lemma {:induction false} MessageRead(t: LType, base: seq<FieldValue>, values: seq<FieldValue>, rest: Bytes,
                                       seen: set<nat>)
    requires t.TMessage? && DescriptorOk(t) && ShapedMessage(t, base) && TypedMessage(t, values)
    requires EncMessage(t, values, 0).Some? && |EncMessage(t, values, 0).value| < WORD32
    ensures DecMessage(t, base, EncMessage(t, values, 0).value + rest, seen)
      == if MessageOk(t, base, values) then DecMessage(t, Merge(t, base, values), rest, SeenAll(t, 0, seen)) else None
    decreases t, 2, |values| + 1
  {
    UptoEnds(t, base, values);
    assert MessageOk(t, base, values) <==> OkFrom(t, base, values, 0) by {
      hide FieldOk;
    }
    hide Upto, Merge, DecMessage, EncMessage, OkFrom, MessageOk;
    MessageFrom(t, base, values, 0, rest, seen);
  }

  /**
   * Decoding an encoded message on top of a structure gives the merge of both: values that were written replace the
   * ones before, messages are merged, arrays are appended to, a union keeps the member set last. It is refused if
   * and only if a string fills its buffer or an array has no room.
   */
  lemma DecodingMerges(t: LType, base: seq<FieldValue>, values: seq<FieldValue>)
    requires t.TMessage? && DescriptorOk(t) && ShapedMessage(t, base) && TypedMessage(t, values)
    requires EncMessage(t, values, 0).Some? && |EncMessage(t, values, 0).value| < WORD32
    ensures DecMessage(t, base, EncMessage(t, values, 0).value, {})
      == if MessageOk(t, base, values) then Some(Merge(t, base, values)) else None
  {
    var b := EncMessage(t, values, 0).value;
    assert b + [] == b;
    SeenAllGrows(t, 0, {});
    hide EncMessage, MessageOk, Merge, DescriptorOk, TypedMessage;
    MessageRead(t, base, values, [], {});
  }

  // A zero byte behind the message ends it, whatever follows.
  lemma ZeroEndsMessage(t: LType, base: seq<FieldValue>, values: seq<FieldValue>, rest: Bytes)
    requires t.TMessage? && DescriptorOk(t) && ShapedMessage(t, base) && TypedMessage(t, values)
    requires EncMessage(t, values, 0).Some? && |EncMessage(t, values, 0).value| < WORD32
    ensures DecMessage(t, base, EncMessage(t, values, 0).value + ([0] + rest), {})
         == DecMessage(t, base, EncMessage(t, values, 0).value, {})
  {
    SeenAllGrows(t, 0, {});
    hide EncMessage, MessageOk, Merge, DescriptorOk, TypedMessage, SeenAll;
    MessageRead(t, base, values, [0] + rest, {});
    DecodingMerges(t, base, values);
    if MessageOk(t, base, values) {
      ZeroTag(t, Merge(t, base, values), rest, SeenAll(t, 0, {}));
    }
  }

  lemma ZeroTag(t: LType, values: seq<FieldValue>, rest: Bytes, seen: set<nat>)
    requires t.TMessage? && |values| == |t.fields|
    ensures DecMessage(t, values, [0] + rest, seen) == if AllSeen(t, seen) then Some(values) else None
  {
    hide AllSeen;
  }

  // Two encodings one behind the other are read as the second message merged into the first.
  lemma ConcatenationMerges(t: LType, base: seq<FieldValue>, first: seq<FieldValue>, second: seq<FieldValue>)
    requires t.TMessage? && DescriptorOk(t) && ShapedMessage(t, base)
    requires TypedMessage(t, first) && TypedMessage(t, second)
    requires EncMessage(t, first, 0).Some? && |EncMessage(t, first, 0).value| < WORD32
    requires EncMessage(t, second, 0).Some? && |EncMessage(t, second, 0).value| < WORD32
    ensures
      var r := DecMessage(t, base, EncMessage(t, first, 0).value + EncMessage(t, second, 0).value, {});
      r == if MessageOk(t, base, first) && MessageOk(t, Merge(t, base, first), second) then
             Some(Merge(t, Merge(t, base, first), second))
           else None
  {
    var b := EncMessage(t, second, 0).value;
    assert b + [] == b;
    SeenAllGrows(t, 0, {});
    SeenMore(t, 0, SeenAll(t, 0, {}));
    hide EncMessage, MessageOk, Merge, DescriptorOk, TypedMessage, SeenAll;
    MessageRead(t, base, first, b, {});
    if MessageOk(t, base, first) {
      MessageRead(t, Merge(t, base, first), second, [], SeenAll(t, 0, {}));
    }
  }

  lemma {:induction false} SeenMore(t: LType, i: nat, seen: set<nat>)
    requires t.TMessage? && i <= |t.fields|
    ensures seen <= SeenAll(t, i, seen)
    decreases |t.fields| - i
  {
    if i < |t.fields| {
      SeenMore(t, i + 1, Seen(t, i, seen));
    }
  }
}
