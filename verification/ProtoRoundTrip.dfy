/** Decoding what was encoded gives the message again, up to the payloads of fields that are off. */
module ProtoRoundTrip {
  import opened DbFormat
  import opened Coding
  import opened ProtoTypes
  import opened ProtoScalars
  import opened ProtoMerge

  // ---- What coming back means -----------------------------------------------------------------------------------

  ghost predicate Same(t: LType, a: Value, b: Value)
    decreases t, 1
  {
    if !t.TMessage? then a == b
    else a.VMessage? && b.VMessage? && SameMessage(t, a.values, b.values)
  }

  ghost predicate SameMessage(t: LType, a: seq<FieldValue>, b: seq<FieldValue>)
    requires t.TMessage?
    decreases t, 0
  {
    |a| == |t.fields| == |b| && forall i :: 0 <= i < |a| ==> SameField(t.fields[i], a[i], b[i])
  }

  ghost predicate SameField(f: Field, a: FieldValue, b: FieldValue)
    decreases f, 0
  {
    match f.htype
    case Repeated(_) =>
      && a.Many? && b.Many? && |a.items| == |b.items|
      && forall i :: 0 <= i < |a.items| ==> Same(f.ltype, a.items[i], b.items[i])
    case Required => a.One? && b.One? && Same(f.ltype, a.v, b.v)
    case Singular => a.One? && b.One? && Same(f.ltype, a.v, b.v)
    case _ => a.Opt? && b.Opt? && a.has == b.has && (a.has ==> Same(f.ltype, a.v, b.v))
  }

  // No string that is written fills its buffer to the last byte.
  ghost predicate Terminated(t: LType, v: Value)
    requires Typed(t, v)
    decreases t, 1
  {
    match t
    case TString(dataSize) => |v.s| < dataSize
    case TMessage(_) => TerminatedFrom(t, v.values, 0)
    case _ => true
  }

  ghost predicate TerminatedFrom(t: LType, values: seq<FieldValue>, i: nat)
    requires t.TMessage? && TypedMessage(t, values) && i <= |values|
    decreases t, 0, |values| - i
  {
    i == |values| || (TerminatedField(t.fields[i], values[i]) && TerminatedFrom(t, values, i + 1))
  }

  ghost predicate TerminatedField(f: Field, fv: FieldValue)
    requires TypedField(f, fv)
    decreases f, 1
  {
    match f.htype
    case Required => Terminated(f.ltype, fv.v)
    case Singular => IsZero(f.ltype, fv.v) || Terminated(f.ltype, fv.v)
    case Repeated(_) => TerminatedItems(f, fv.items)
    case _ => fv.has ==> Terminated(f.ltype, fv.v)
  }

  ghost predicate TerminatedItems(f: Field, items: seq<Value>)
    requires forall i :: 0 <= i < |items| ==> Typed(f.ltype, items[i])
    decreases f, 0, |items|
  {
    items == [] || (Terminated(f.ltype, items[0]) && TerminatedItems(f, items[1..]))
  }

  // ---- Fields that are not written ----------------------------------------------------------------------------------

  lemma {:induction false} ZeroIsSame(t: LType, v: Value)
    requires Typed(t, v) && IsZero(t, v)
    ensures Same(t, v, Zero(t))
    decreases t, 1
  {
    if t.TMessage? {
      assert TypedMessage(t, v.values);
      var z := Zero(t).values;
      forall i | 0 <= i < |v.values| ensures SameField(t.fields[i], v.values[i], z[i]) {
        AbsentIsSame(t.fields[i], v.values[i]);
      }
    } else if t.TFixedBytes? {
      assert v.s == [];
    }
  }

  lemma {:induction false} AbsentIsSame(f: Field, fv: FieldValue)
    requires TypedField(f, fv) && IsAbsent(f, fv)
    ensures SameField(f, fv, ZeroField(f))
    decreases f, 0
  {
    if f.htype.Singular? {
      ZeroIsSame(f.ltype, fv.v);
    }
  }

  // ---- Merging into a fresh structure ---------------------------------------------------------------------------

  lemma {:induction false} MergeIsSame(t: LType, v: Value)
    requires Typed(t, v)
    ensures Shaped(t, Zero(t)) && Same(t, v, MergeValue(t, Zero(t), v))
    decreases t, 1
  {
    ZeroIsShaped(t);
    if t.TMessage? {
      assert TypedMessage(t, v.values);
      var z := Zero(t).values;
      forall j | 0 <= j < |v.values|
        ensures SameField(t.fields[j], v.values[j], Merge(t, z, v.values)[j])
      {
        assert z[j] == ZeroField(t.fields[j]) && TypedField(t.fields[j], v.values[j]);
        FieldIsSame(t.fields[j], v.values[j], OtherSet(t, v.values, j, |v.values|));
      }
    }
  }

  lemma {:induction false} FieldIsSame(f: Field, fv: FieldValue, otherSet: bool)
    requires TypedField(f, fv)
    ensures ShapedField(f, ZeroField(f)) && SameField(f, fv, MergeField(f, ZeroField(f), fv, otherSet))
    decreases f, 0
  {
    ZeroIsShaped(f.ltype);
    if f.htype.Repeated? {
      assert [] + Fresh(f, fv.items) == Fresh(f, fv.items);
      forall k | 0 <= k < |fv.items| ensures Same(f.ltype, fv.items[k], Fresh(f, fv.items)[k]) {
        MergeIsSame(f.ltype, fv.items[k]);
      }
    } else if IsAbsent(f, fv) {
      AbsentIsSame(f, fv);
    } else {
      MergeIsSame(f.ltype, fv.v);
    }
  }

  // Into a fresh structure everything fits that was encoded, but for strings without room for their terminator.
  lemma {:induction false} ZeroHasRoom(t: LType, v: Value)
    requires Typed(t, v) && EncValue(t, v).Some?
    ensures Shaped(t, Zero(t)) && (MergeOk(t, Zero(t), v) <==> Terminated(t, v))
    decreases t, 3
  {
    ZeroIsShaped(t);
    if t.TMessage? {
      ZeroHasRoomFrom(t, v.values, 0);
    }
  }

  lemma {:induction false} ZeroHasRoomFrom(t: LType, values: seq<FieldValue>, i: nat)
    requires t.TMessage? && TypedMessage(t, values) && i <= |values| && EncMessage(t, values, i).Some?
    ensures ShapedMessage(t, Zero(t).values)
    ensures OkFrom(t, Zero(t).values, values, i) <==> TerminatedFrom(t, values, i)
    decreases t, 1, |values| - i
  {
    ZeroIsShaped(t);
    if i < |values| {
      FirstField(t, values, i);
      var f := t.fields[i];
      assert Zero(t).values[i] == ZeroField(f);
      FieldHasRoom(f, values[i]);
      OkNext(t, Zero(t).values, values, i);
      hide EncField, EncMessage, FieldOk, OkFrom, Zero, ZeroField, TerminatedField;
      ZeroHasRoomFrom(t, values, i + 1);
    }
  }

  lemma {:induction false} FieldHasRoom(f: Field, fv: FieldValue)
    requires TypedField(f, fv) && EncField(f, fv).Some?
    ensures ShapedField(f, ZeroField(f)) && (FieldOk(f, ZeroField(f), fv) <==> TerminatedField(f, fv))
    decreases f, 2
  {
    ZeroIsShaped(f.ltype);
    if !IsAbsent(f, fv) {
      if f.htype.Repeated? {
        ItemsHaveRoom(f, fv.items);
      } else {
        assert EncValue(f.ltype, fv.v).Some?;
        ZeroHasRoom(f.ltype, fv.v);
      }
    }
  }

  lemma {:induction false} ItemsHaveRoom(f: Field, items: seq<Value>)
    requires forall k :: 0 <= k < |items| ==> Typed(f.ltype, items[k])
    requires EncEach(f, items).Some? || EncPacked(f, items).Some?
    ensures ItemsOk(f, items) <==> TerminatedItems(f, items)
    decreases f, 1, |items|
  {
    if items != [] {
      ZeroHasRoom(f.ltype, items[0]);
      ItemsHaveRoom(f, items[1..]);
    }
  }

  /**
   * A message comes back if and only if no string that is written fills its buffer, and then it is the same
   * message up to the payloads of fields that are off.
   */
  lemma MessageRoundTrip(t: LType, values: seq<FieldValue>)
    requires t.TMessage? && DescriptorOk(t) && TypedMessage(t, values)
    requires EncMessage(t, values, 0).Some? && |EncMessage(t, values, 0).value| < WORD32
    ensures
      var r := DecMessage(t, Zero(t).values, EncMessage(t, values, 0).value, {});
      && (r.Some? <==> TerminatedFrom(t, values, 0))
      && (r.Some? ==> SameMessage(t, values, r.value))
  {
    ZeroIsShaped(t);
    MergeIsSame(t, VMessage(values));
    ZeroHasRoomFrom(t, values, 0);
    hide EncMessage, DecMessage, TypedMessage, DescriptorOk, TerminatedFrom, FieldOk;
    DecodingMerges(t, Zero(t).values, values);
  }
}
