/** A reader that does not know some fields: it skips them, and reads the others as if they were alone. */
module ProtoUnknown {
  import opened DbFormat
  import opened Coding
  import opened ProtoTypes
  import opened ProtoScalars
  import opened ProtoMerge

  // ---- One value -------------------------------------------------------------------------------------------------

  lemma {:induction false} VarintSkipped(n: nat, rest: Bytes)
    ensures SkipVarint(Varint(n) + rest) == Some(rest)
    decreases n
  {
    hide Varint;
    if n < 128 {
      OneByte(n, rest);
    } else {
      TailOfVarint(n, rest);
      VarintSkipped(n / 128, rest);
      NotEmpty(n, rest);
    }
  }

  lemma NotEmpty(n: nat, rest: Bytes)
    ensures Varint(n) + rest != []
  {
  }

  // A value is skipped by its wire type alone, whatever its type is.
  lemma ValueSkipped(t: LType, v: Value, rest: Bytes)
    requires Typed(t, v) && EncValue(t, v).Some? && |EncValue(t, v).value| < WORD32
    ensures SkipField(WireType(t), EncValue(t, v).value + rest) == Some(rest)
  {
    match t
    case TBool => VarintSkipped(if v.b then 1 else 0, rest);
    case TVarint(_) => VarintSkipped(Unsigned64(v.n), rest);
    case TUVarint(_) => VarintSkipped(v.n, rest);
    case TSVarint(_) => VarintSkipped(ZigZag(v.n), rest);
    case TFixed32 => DropFront(Fixed(v.n, 4), rest);
    case TFixed64 => DropFront(Fixed(v.n, 8), rest);
    case TBytes(_) => SliceBack(v.s, rest);
    case TString(_) => SliceBack(v.s, rest);
    case TFixedBytes(_) => SliceBack(v.s, rest);
    case TMessage(_) => SliceBack(EncMessage(t, v.values, 0).value, rest);
  }

  // ---- One field -------------------------------------------------------------------------------------------------

  ghost predicate Unknown(t: LType, tag: nat)
    requires t.TMessage?
  {
    1 <= tag < MAX_TAG && forall i :: 0 <= i < |t.fields| ==> t.fields[i].tag != tag
  }

  lemma RecordSkipped(t: LType, values: seq<FieldValue>, tag: nat, wireType: nat, body: Bytes, rest: Bytes, seen: set<nat>)
    requires t.TMessage? && |values| == |t.fields| && Unknown(t, tag) && wireType < 8
    requires SkipField(wireType, body + rest) == Some(rest)
    ensures DecMessage(t, values, TagBytes(tag, wireType) + body + rest, seen) == DecMessage(t, values, rest, seen)
  {
    hide DecField, Seen, AllSeen, Varint, Varint32, SkipField;
    Assoc(TagBytes(tag, wireType), body, rest);
    Varint32Back(tag * 8 + wireType, body + rest);
    TagParts(tag, wireType);
    var r := FieldAt(t, tag, 0);
    assert TagBytes(tag, wireType) + (body + rest) != [] by {
      NotEmpty(tag * 8 + wireType, body + rest);
    }
  }

  lemma TaggedSkipped(t: LType, values: seq<FieldValue>, f: Field, v: Value, rest: Bytes, seen: set<nat>)
    requires t.TMessage? && |values| == |t.fields| && Unknown(t, f.tag) && Typed(f.ltype, v)
    requires EncTagged(f, v).Some? && |EncTagged(f, v).value| < WORD32
    ensures DecMessage(t, values, EncTagged(f, v).value + rest, seen) == DecMessage(t, values, rest, seen)
  {
    var body := EncValue(f.ltype, v).value;
    ValueSkipped(f.ltype, v, rest);
    hide DecMessage, EncValue, SkipField, TagBytes;
    RecordSkipped(t, values, f.tag, WireType(f.ltype), body, rest, seen);
  }

  lemma {:induction false} EachSkipped(t: LType, values: seq<FieldValue>, f: Field, items: seq<Value>, rest: Bytes,
                                       seen: set<nat>)
    requires t.TMessage? && |values| == |t.fields| && Unknown(t, f.tag)
    requires forall i :: 0 <= i < |items| ==> Typed(f.ltype, items[i])
    requires EncEach(f, items).Some? && |EncEach(f, items).value| < WORD32
    ensures DecMessage(t, values, EncEach(f, items).value + rest, seen) == DecMessage(t, values, rest, seen)
    decreases |items|
  {
    hide DecMessage, EncTagged;
    if items == [] {
      assert [] + rest == rest;
    } else {
      var record, more := EncTagged(f, items[0]).value, EncEach(f, items[1..]).value;
      Assoc(record, more, rest);
      TaggedSkipped(t, values, f, items[0], more + rest, seen);
      EachSkipped(t, values, f, items[1..], rest, seen);
    }
  }

  // Whatever was written for a field the reader does not know, it reads on behind it.
  lemma FieldSkipped(t: LType, values: seq<FieldValue>, f: Field, fv: FieldValue, rest: Bytes, seen: set<nat>)
    requires t.TMessage? && |values| == |t.fields| && Unknown(t, f.tag) && TypedField(f, fv)
    requires EncField(f, fv).Some? && |EncField(f, fv).value| < WORD32
    ensures DecMessage(t, values, EncField(f, fv).value + rest, seen) == DecMessage(t, values, rest, seen)
  {
    hide DecMessage, EncTagged, EncEach, EncPacked;
    if EncField(f, fv).value == [] {
      assert [] + rest == rest;
    } else if !f.htype.Repeated? {
      TaggedSkipped(t, values, f, fv.v, rest, seen);
    } else if Packable(f.ltype) {
      var b := EncPacked(f, fv.items).value;
      SliceBack(b, rest);
      RecordSkipped(t, values, f.tag, 2, Varint(|b|) + b, rest, seen);
    } else {
      EachSkipped(t, values, f, fv.items, rest, seen);
    }
  }

  // ---- The whole message ------------------------------------------------------------------------------------------

  // The fields of `t` are those of `wide` at the positions `keep`.
  ghost predicate Narrower(t: LType, values: seq<FieldValue>, wide: LType, all: seq<FieldValue>, keep: seq<nat>)
    requires t.TMessage? && wide.TMessage?
  {
    && |keep| == |t.fields| == |values| && |wide.fields| == |all|
    && (forall k :: 0 <= k < |keep| ==> keep[k] < |all|)
    && (forall j, k :: 0 <= j < k < |keep| ==> keep[j] < keep[k])
    && forall k :: 0 <= k < |keep| ==> t.fields[k] == wide.fields[keep[k]] && values[k] == all[keep[k]]
  }

  lemma NarrowerIsOk(t: LType, values: seq<FieldValue>, wide: LType, all: seq<FieldValue>, keep: seq<nat>)
    requires t.TMessage? && wide.TMessage? && Narrower(t, values, wide, all, keep)
    requires DescriptorOk(wide) && TypedMessage(wide, all)
    ensures DescriptorOk(t) && TypedMessage(t, values)
  {
    forall i | 0 <= i < |values| ensures TypedField(t.fields[i], values[i]) {
      assert TypedField(wide.fields[keep[i]], all[keep[i]]);
    }
    forall i, j | 0 <= i < j < |values| ensures Compatible(t, values, i, j) {
      assert Compatible(wide, all, keep[i], keep[j]);
    }
    forall i, j | 0 <= i < j < |t.fields| ensures t.fields[i].tag != t.fields[j].tag {
      assert keep[i] < keep[j];
    }
    forall i | 0 <= i < |t.fields| ensures 1 <= t.fields[i].tag < MAX_TAG && DescriptorOk(t.fields[i].ltype) {
      assert DescriptorOk(wide.fields[keep[i]].ltype);
    }
  }

  lemma UnknownTo(t: LType, values: seq<FieldValue>, wide: LType, all: seq<FieldValue>, keep: seq<nat>, i: nat)
    requires t.TMessage? && wide.TMessage? && Narrower(t, values, wide, all, keep) && DescriptorOk(wide)
    requires i < |all| && i !in keep
    ensures Unknown(t, wide.fields[i].tag)
  {
    forall k | 0 <= k < |t.fields| ensures t.fields[k].tag != wide.fields[i].tag {
      assert keep[k] in keep;
    }
  }

  // Position `i` of the wide message is position `j` of the narrow one.
  ghost predicate Aligned(keep: seq<nat>, i: nat, j: nat) {
    j <= |keep| && (forall k :: 0 <= k < j ==> keep[k] < i) && forall k :: j <= k < |keep| ==> i <= keep[k]
  }

  lemma AlignedNext(keep: seq<nat>, i: nat, j: nat)
    requires Aligned(keep, i, j) && forall a, b :: 0 <= a < b < |keep| ==> keep[a] < keep[b]
    ensures if j < |keep| && keep[j] == i then Aligned(keep, i + 1, j + 1) else Aligned(keep, i + 1, j) && i !in keep
  {
  }

  // A reader at position `j` of its own message, at position `i` of the wide one.
  ghost predicate Reading(t: LType, base: seq<FieldValue>, values: seq<FieldValue>, wide: LType, all: seq<FieldValue>,
                          keep: seq<nat>, i: nat, j: nat)
  {
    && t.TMessage? && wide.TMessage? && Narrower(t, values, wide, all, keep) && ShapedMessage(t, base)
    && DescriptorOk(wide) && TypedMessage(wide, all) && DescriptorOk(t) && TypedMessage(t, values)
    && i <= |all| && Aligned(keep, i, j) && EncMessage(wide, all, i).Some? && |EncMessage(wide, all, i).value| < WORD32
  }

  // What is next in the wide message: a field the reader knows, or one it does not.
  lemma NextField(t: LType, base: seq<FieldValue>, values: seq<FieldValue>, wide: LType, all: seq<FieldValue>,
                  keep: seq<nat>, i: nat, j: nat)
    requires Reading(t, base, values, wide, all, keep, i, j) && i < |all|
    ensures |wide.fields| == |all| && TypedField(wide.fields[i], all[i])
    ensures EncField(wide.fields[i], all[i]).Some? && EncMessage(wide, all, i + 1).Some?
    ensures EncMessage(wide, all, i).value == EncField(wide.fields[i], all[i]).value + EncMessage(wide, all, i + 1).value
    ensures j <= |keep| == |t.fields| == |values| == |base|
    ensures j < |keep| && keep[j] == i ==>
      t.fields[j] == wide.fields[i] && values[j] == all[i] && Reading(t, base, values, wide, all, keep, i + 1, j + 1)
    ensures !(j < |keep| && keep[j] == i) ==>
      Unknown(t, wide.fields[i].tag) && Reading(t, base, values, wide, all, keep, i + 1, j)
  {
    FirstField(wide, all, i);
    AlignedNext(keep, i, j);
    hide DescriptorOk, TypedField, EncField, EncMessage, TypedMessage, ShapedMessage;
    if !(j < |keep| && keep[j] == i) {
      UnknownTo(t, values, wide, all, keep, i);
    }
    assert |base| == |t.fields| by {
      ShapedLength(t, base);
    }
  }

  lemma ShapedLength(t: LType, base: seq<FieldValue>)
    requires t.TMessage? && ShapedMessage(t, base)
    ensures |base| == |t.fields|
  {
  }

  // The rest of the wide message is read as the rest of the reader's own.
  ghost predicate ReadsOn(t: LType, base: seq<FieldValue>, values: seq<FieldValue>, j: nat, bytes: Bytes, seen: set<nat>)
    requires t.TMessage? && ShapedMessage(t, base) && TypedMessage(t, values) && j <= |values| == |t.fields|
  {
    DecMessage(t, Upto(t, base, values, j), bytes, seen)
    == if OkFrom(t, base, values, j) then DecMessage(t, Upto(t, base, values, |values|), [], SeenAll(t, j, seen)) else None
  }

  lemma {:induction false} NarrowFrom(t: LType, base: seq<FieldValue>, values: seq<FieldValue>, wide: LType,
                                      all: seq<FieldValue>, keep: seq<nat>, i: nat, j: nat, seen: set<nat>)
    requires Reading(t, base, values, wide, all, keep, i, j)
    ensures j <= |values| == |t.fields| && ReadsOn(t, base, values, j, EncMessage(wide, all, i).value, seen)
    decreases |all| - i
  {
    if i == |all| {
      assert j == |keep|;
      hide DecMessage, Upto, ShapedMessage, TypedMessage, DescriptorOk;
    } else {
      NextField(t, base, values, wide, all, keep, i, j);
      var rest := EncMessage(wide, all, i + 1).value;
      if j < |keep| && keep[j] == i {
        NarrowFrom(t, base, values, wide, all, keep, i + 1, j + 1, Seen(t, j, seen));
        KnownStep(t, base, values, j, rest, seen);
      } else {
        hide EncMessage, EncField, DecMessage, TypedField, TypedMessage, Unknown, ShapedMessage, Upto;
        NarrowFrom(t, base, values, wide, all, keep, i + 1, j, seen);
        FieldSkipped(t, Upto(t, base, values, j), wide.fields[i], all[i], rest, seen);
      }
    }
  }

  lemma KnownStep(t: LType, base: seq<FieldValue>, values: seq<FieldValue>, j: nat, rest: Bytes, seen: set<nat>)
    requires t.TMessage? && DescriptorOk(t) && ShapedMessage(t, base) && TypedMessage(t, values)
    requires j < |values| == |t.fields| && TypedField(t.fields[j], values[j])
    requires EncField(t.fields[j], values[j]).Some? && |EncField(t.fields[j], values[j]).value| < WORD32
    requires ReadsOn(t, base, values, j + 1, rest, Seen(t, j, seen))
    ensures ReadsOn(t, base, values, j, EncField(t.fields[j], values[j]).value + rest, seen)
  {
    UptoNext(t, base, values, j);
    OkNext(t, base, values, j);
    hide EncField, DecMessage, FieldOk, Upto, Put, DescriptorOk, TypedMessage, ShapedMessage, OkFrom, TypedField,
         ShapedField;
    FieldRead(t, Upto(t, base, values, j), j, values[j], rest, seen);
  }

  /**
   * A message written with more fields than the reader knows is read as the message of the fields it knows: merged
   * into what is there, and refused exactly when that message would be.
   */
  lemma UnknownFieldsAreSkipped(t: LType, base: seq<FieldValue>, values: seq<FieldValue>, wide: LType,
                                all: seq<FieldValue>, keep: seq<nat>)
    requires t.TMessage? && wide.TMessage? && Narrower(t, values, wide, all, keep) && ShapedMessage(t, base)
    requires DescriptorOk(wide) && TypedMessage(wide, all)
    requires EncMessage(wide, all, 0).Some? && |EncMessage(wide, all, 0).value| < WORD32
    ensures DescriptorOk(t) && TypedMessage(t, values)
    ensures DecMessage(t, base, EncMessage(wide, all, 0).value, {})
      == if MessageOk(t, base, values) then Some(Merge(t, base, values)) else None
  {
    NarrowerIsOk(t, values, wide, all, keep);
    UptoEnds(t, base, values);
    SeenAllGrows(t, 0, {});
    assert MessageOk(t, base, values) <==> OkFrom(t, base, values, 0) by {
      hide FieldOk;
    }
    assert Reading(t, base, values, wide, all, keep, 0, 0) by {
      hide Narrower, DescriptorOk, EncMessage, TypedMessage, ShapedMessage;
    }
    hide Reading, Upto, Merge, EncMessage, OkFrom, MessageOk, DescriptorOk, TypedMessage, ShapedMessage, Narrower;
    NarrowFrom(t, base, values, wide, all, keep, 0, 0, {});
  }
}
