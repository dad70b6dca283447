/** What decoding any bytes can give: only messages that can be encoded again, and none that lacks a required field. */
module ProtoSoundness {
  import opened DbFormat
  import opened Coding
  import opened ProtoTypes
  import opened ProtoScalars
  import opened ProtoMerge
  import opened ProtoRoundTrip

  // ---- What a structure can hold after decoding ------------------------------------------------------------------

  // Values within the sizes of the descriptor: strings leave room for their terminator.
  ghost predicate Sound(t: LType, v: Value)
    decreases t, 1
  {
    && Typed(t, v)
    && match t
       case TBytes(capacity) => |v.s| <= capacity
       case TString(dataSize) => |v.s| < dataSize
       case TMessage(_) => SoundMessage(t, v.values)
       case _ => true
  }

  ghost predicate SoundMessage(t: LType, values: seq<FieldValue>)
    requires t.TMessage?
    decreases t, 0
  {
    TypedMessage(t, values) && forall i :: 0 <= i < |values| ==> SoundField(t.fields[i], values[i])
  }

  ghost predicate SoundField(f: Field, fv: FieldValue)
    decreases f, 0
  {
    && TypedField(f, fv)
    && match f.htype
       case Repeated(arraySize) => |fv.items| <= arraySize && forall i :: 0 <= i < |fv.items| ==> Sound(f.ltype, fv.items[i])
       case _ => Sound(f.ltype, fv.v)
  }

  // Every string has room for its terminator.
  ghost predicate Roomy(t: LType) {
    match t
    case TString(dataSize) => dataSize > 0
    case TMessage(fields) => forall i :: 0 <= i < |fields| ==> Roomy(fields[i].ltype)
    case _ => true
  }

  lemma {:induction false} ZeroIsSound(t: LType)
    requires Roomy(t)
    ensures Sound(t, Zero(t))
    decreases t
  {
    if t.TMessage? {
      var z := Zero(t).values;
      forall i | 0 <= i < |z| ensures SoundField(t.fields[i], z[i]) {
        assert z[i] == ZeroField(t.fields[i]);
        ZeroIsSound(t.fields[i].ltype);
      }
      assert forall i :: 0 <= i < |z| ==> TypedField(t.fields[i], z[i]);
    }
  }

  // ---- Decoding keeps to it ------------------------------------------------------------------------------------------

  lemma {:induction false} More32Fits(s: Bytes, result: nat, k: nat)
    requires result < WORD32
    ensures More32(s, result, k).Some? ==> More32(s, result, k).value.0 < WORD32
    decreases |s|
  {
    if s != [] {
      var next := if k >= 5 then result else (result + Times(s[0] % 128, Pow(128, k))) % WORD32;
      More32Fits(s[1..], next, k + 1);
    }
  }

  lemma SliceFits(s: Bytes)
    ensures Slice(s).Some? ==> |Slice(s).value.0| < WORD32
  {
    if s != [] && s[0] >= 128 {
      More32Fits(s[1..], s[0] - 128, 1);
    }
  }

  lemma {:induction false} UpToNulFits(s: Bytes)
    ensures |UpToNul(s)| <= |s| && 0 !in UpToNul(s)
  {
    if s != [] && s[0] != 0 {
      UpToNulFits(s[1..]);
    }
  }

  lemma ScalarIsSound(t: LType, base: Value, s: Bytes)
    requires !t.TMessage? && Roomy(t)
    ensures var r := DecValue(t, base, s); r.Some? ==> Sound(t, r.value.0)
  {
    hide Varint32, Varint64, Slice, Signed, UnZigZag, Unfixed, UpToNul;
    SliceFits(s);
    Pow256();
    match t
    case TFixed32 =>
      if |s| >= 4 {
        FixedUnfixed(s[..4]);
      }
    case TFixed64 =>
      if |s| >= 8 {
        FixedUnfixed(s[..8]);
      }
    case TString(_) =>
      if Slice(s).Some? {
        UpToNulFits(Slice(s).value.0);
      }
    case TFixedBytes(_) => ZeroIsSound(t);
    case _ =>
  }

  lemma SetIsSound(t: LType, values: seq<FieldValue>, i: nat, x: FieldValue)
    requires t.TMessage? && SoundMessage(t, values) && i < |values| && SoundField(t.fields[i], x)
    requires !t.fields[i].htype.OneOf?
    ensures SoundMessage(t, values[i := x])
  {
    var next := values[i := x];
    forall j, k | 0 <= j < k < |next| ensures Compatible(t, next, j, k) {
      assert Compatible(t, values, j, k);
    }
  }

  lemma ChosenIsSound(t: LType, values: seq<FieldValue>, i: nat, v: Value)
    requires t.TMessage? && SoundMessage(t, values) && i < |values| && Sound(t.fields[i].ltype, v)
    requires t.fields[i].htype.OneOf?
    ensures SoundMessage(t, Chosen(t, values, i, v))
  {
    var next := Chosen(t, values, i, v);
    forall j | 0 <= j < |next| ensures SoundField(t.fields[j], next[j]) {
      assert SoundField(t.fields[j], values[j]);
    }
    forall j, k | 0 <= j < k < |next| ensures Compatible(t, next, j, k) {
      assert Compatible(t, values, j, k);
    }
    assert forall j :: 0 <= j < |next| ==> TypedField(t.fields[j], next[j]);
  }

  lemma {:induction false} ValueIsSound(t: LType, base: Value, s: Bytes)
    requires Roomy(t) && (t.TMessage? ==> Sound(t, base))
    ensures var r := DecValue(t, base, s); r.Some? ==> Sound(t, r.value.0)
    decreases t, 2
  {
    if !t.TMessage? {
      ScalarIsSound(t, base, s);
    } else {
      var b := Slice(s);
      if b.Some? && base.VMessage? && |base.values| == |t.fields| {
        MessageIsSound(t, base.values, b.value.0, {});
      }
    }
  }

  lemma {:induction false} MessageIsSound(t: LType, values: seq<FieldValue>, s: Bytes, seen: set<nat>)
    requires t.TMessage? && Roomy(t) && |values| == |t.fields| && SoundMessage(t, values)
    ensures var r := DecMessage(t, values, s, seen); r.Some? ==> SoundMessage(t, r.value)
    decreases t, 1, |s|
  {
    hide Varint32, AllSeen, SkipField, DecField, SoundMessage, Seen, FieldAt;
    var tag := Varint32(s);
    if s != [] && tag.Some? && tag.value.0 != 0 {
      var i := FieldAt(t, tag.value.0 / 8, 0);
      if i == |t.fields| {
        var rest := SkipField(tag.value.0 % 8, tag.value.1);
        if rest.Some? {
          MessageIsSound(t, values, rest.value, seen);
        }
      } else {
        FieldIsSound(t, values, i, tag.value.0 % 8, tag.value.1);
        var next := DecField(t, values, i, tag.value.0 % 8, tag.value.1);
        if next.Some? {
          MessageIsSound(t, next.value.0, next.value.1, Seen(t, i, seen));
        }
      }
    }
  }

  lemma {:induction false} FieldIsSound(t: LType, values: seq<FieldValue>, i: nat, wireType: nat, s: Bytes)
    requires t.TMessage? && Roomy(t) && |values| == |t.fields| && SoundMessage(t, values) && i < |values|
    ensures var r := DecField(t, values, i, wireType, s); r.Some? ==> SoundMessage(t, r.value.0)
    decreases t, 0
  {
    var f := t.fields[i];
    assert SoundField(f, values[i]) && TypedField(f, values[i]);
    ZeroIsSound(f.ltype);
    hide SoundMessage, DecValue, DecPacked, Chosen, Zero, Slice;
    match f.htype
    case Repeated(arraySize) =>
      if wireType == 2 && Packable(f.ltype) {
        var b := Slice(s);
        if b.Some? {
          PackedIsSound(f, values[i].items, arraySize, b.value.0);
          var items := DecPacked(f.ltype, values[i].items, arraySize, b.value.0);
          if items.Some? {
            SetIsSound(t, values, i, Many(items.value));
          }
        }
      } else if |values[i].items| < arraySize {
        ValueIsSound(f.ltype, Zero(f.ltype), s);
        var v := DecValue(f.ltype, Zero(f.ltype), s);
        if v.Some? {
          SetIsSound(t, values, i, Many(values[i].items + [v.value.0]));
        }
      }
    case OneOf(_) =>
      var base := if f.ltype.TMessage? && !values[i].has then Zero(f.ltype) else values[i].v;
      ValueIsSound(f.ltype, base, s);
      var v := DecValue(f.ltype, base, s);
      if v.Some? {
        ChosenIsSound(t, values, i, v.value.0);
      }
    case Optional =>
      ValueIsSound(f.ltype, values[i].v, s);
      var v := DecValue(f.ltype, values[i].v, s);
      if v.Some? {
        SetIsSound(t, values, i, Opt(true, v.value.0));
      }
    case _ =>
      ValueIsSound(f.ltype, values[i].v, s);
      var v := DecValue(f.ltype, values[i].v, s);
      if v.Some? {
        SetIsSound(t, values, i, One(v.value.0));
      }
  }

  lemma {:induction false} PackedIsSound(f: Field, items: seq<Value>, arraySize: nat, s: Bytes)
    requires Packable(f.ltype) && Roomy(f.ltype) && |items| <= arraySize
    requires forall i :: 0 <= i < |items| ==> Sound(f.ltype, items[i])
    ensures var r := DecPacked(f.ltype, items, arraySize, s);
      r.Some? ==> |r.value| <= arraySize && forall i :: 0 <= i < |r.value| ==> Sound(f.ltype, r.value[i])
    decreases |s|
  {
    if s != [] && |items| < arraySize {
      var v := DecValue(f.ltype, Zero(f.ltype), s);
      ScalarIsSound(f.ltype, Zero(f.ltype), s);
      if v.Some? {
        hide DecValue, Sound;
        PackedIsSound(f, items + [v.value.0], arraySize, v.value.1);
      }
    }
  }

  // ---- It can be encoded, and comes back ---------------------------------------------------------------------------

  lemma {:induction false} SoundEncodes(t: LType, v: Value)
    requires Sound(t, v)
    ensures EncValue(t, v).Some? && Terminated(t, v)
    decreases t, 2
  {
    if t.TMessage? {
      SoundEncodesFrom(t, v.values, 0);
    }
  }

  lemma {:induction false} SoundEncodesFrom(t: LType, values: seq<FieldValue>, i: nat)
    requires t.TMessage? && SoundMessage(t, values) && i <= |values|
    ensures EncMessage(t, values, i).Some? && TerminatedFrom(t, values, i)
    decreases t, 1, |values| - i
  {
    if i < |values| {
      assert SoundField(t.fields[i], values[i]) && TypedField(t.fields[i], values[i]);
      SoundFieldEncodes(t.fields[i], values[i]);
      hide SoundMessage, EncField, TerminatedField;
      SoundEncodesFrom(t, values, i + 1);
    }
  }

  lemma {:induction false} SoundFieldEncodes(f: Field, fv: FieldValue)
    requires SoundField(f, fv)
    ensures EncField(f, fv).Some? && TerminatedField(f, fv)
    decreases f, 2
  {
    if f.htype.Repeated? {
      ItemsEncode(f, fv.items);
      hide EncPacked, EncEach, TerminatedItems, Sound;
    } else {
      SoundEncodes(f.ltype, fv.v);
      hide EncValue, Terminated, Sound, IsZero;
    }
  }

  lemma {:induction false} ItemsEncode(f: Field, items: seq<Value>)
    requires forall i :: 0 <= i < |items| ==> Sound(f.ltype, items[i])
    ensures forall i :: 0 <= i < |items| ==> Typed(f.ltype, items[i])
    ensures EncPacked(f, items).Some? && EncEach(f, items).Some? && TerminatedItems(f, items)
    decreases f, 1, |items|
  {
    if items != [] {
      SoundEncodes(f.ltype, items[0]);
      hide Sound, EncValue, Terminated;
      ItemsEncode(f, items[1..]);
    }
  }

  /**
   * What is decoded from any bytes fits the descriptor and can be encoded; unless the encoding is too long for a
   * length, decoding it gives the same message again.
   */
  lemma DecodedComesBack(t: LType, s: Bytes)
    requires t.TMessage? && DescriptorOk(t) && Roomy(t)
    ensures
      var r := DecMessage(t, Zero(t).values, s, {});
      r.Some? ==>
        && SoundMessage(t, r.value) && EncMessage(t, r.value, 0).Some?
        && (|EncMessage(t, r.value, 0).value| < WORD32 ==>
              var again := DecMessage(t, Zero(t).values, EncMessage(t, r.value, 0).value, {});
              again.Some? && SameMessage(t, r.value, again.value))
  {
    ZeroIsSound(t);
    MessageIsSound(t, Zero(t).values, s, {});
    var r := DecMessage(t, Zero(t).values, s, {});
    if r.Some? {
      SoundEncodesFrom(t, r.value, 0);
      hide DecMessage, EncMessage, SoundMessage, TerminatedFrom;
      if |EncMessage(t, r.value, 0).value| < WORD32 {
        MessageRoundTrip(t, r.value);
      }
    }
  }

  // ---- Required fields -----------------------------------------------------------------------------------------------

  // Reading all records without asking for required fields: the message, and the fields that had a record.
  ghost function ReadRecords(t: LType, values: seq<FieldValue>, s: Bytes, had: set<nat>): Option<(seq<FieldValue>, set<nat>)>
    requires t.TMessage? && |values| == |t.fields|
    decreases |s|
  {
    if s == [] then Some((values, had)) else
    var tag := Varint32(s);
    if tag.None? then None
    else if tag.value.0 == 0 then Some((values, had)) else
    var i := FieldAt(t, tag.value.0 / 8, 0);
    if i == |t.fields| then
      var rest := SkipField(tag.value.0 % 8, tag.value.1);
      if rest.None? then None else ReadRecords(t, values, rest.value, had)
    else
      var next := DecField(t, values, i, tag.value.0 % 8, tag.value.1);
      if next.None? then None else ReadRecords(t, next.value.0, next.value.1, had + {i})
  }

  ghost predicate MustBeThere(t: LType, i: nat)
    requires t.TMessage? && i < |t.fields|
  {
    t.fields[i].htype.Required? && |RequiredAmong(t, i)| < MAX_REQUIRED
  }

  // The required fields before position `i`.
  ghost function RequiredAmong(t: LType, i: nat): set<nat>
    requires t.TMessage? && i <= |t.fields|
  {
    set j: nat | j < i && t.fields[j].htype.Required?
  }

  lemma {:induction false} RequiredCounted(t: LType, i: nat)
    requires t.TMessage? && i <= |t.fields|
    ensures RequiredBefore(t, i) == |RequiredAmong(t, i)|
  {
    if i > 0 {
      RequiredCounted(t, i - 1);
      assert RequiredAmong(t, i)
          == RequiredAmong(t, i - 1) + if t.fields[i - 1].htype.Required? then {i - 1} else {};
    } else {
      assert RequiredAmong(t, 0) == {};
    }
  }

  lemma {:induction false} NumbersGrow(t: LType, i: nat, j: nat)
    requires t.TMessage? && i <= j <= |t.fields|
    ensures RequiredBefore(t, i) <= RequiredBefore(t, j)
    ensures i < j && t.fields[i].htype.Required? ==> RequiredBefore(t, i) < RequiredBefore(t, j)
  {
    if i < j {
      NumbersGrow(t, i, j - 1);
    }
  }

  // Every number below the count belongs to a required field.
  lemma {:induction false} NumberHasField(t: LType, r: nat, n: nat) returns (i: nat)
    requires t.TMessage? && n <= |t.fields| && r < RequiredBefore(t, n)
    ensures i < n && t.fields[i].htype.Required? && RequiredBefore(t, i) == r
    decreases n
  {
    if t.fields[n - 1].htype.Required? && RequiredBefore(t, n - 1) == r {
      i := n - 1;
    } else {
      i := NumberHasField(t, r, n - 1);
    }
  }

  // The numbers seen are those of the fields that had a record.
  ghost predicate SeenIs(t: LType, seen: set<nat>, had: set<nat>)
    requires t.TMessage?
  {
    forall i: nat :: i < |t.fields| && t.fields[i].htype.Required? && RequiredBefore(t, i) < MAX_REQUIRED
      ==> (i in had <==> RequiredBefore(t, i) in seen)
  }

  lemma SeenIsNext(t: LType, seen: set<nat>, had: set<nat>, i: nat)
    requires t.TMessage? && i < |t.fields| && SeenIs(t, seen, had)
    ensures SeenIs(t, Seen(t, i, seen), had + {i})
  {
    forall j: nat | j < |t.fields| && t.fields[j].htype.Required? && RequiredBefore(t, j) < MAX_REQUIRED
      ensures j in had + {i} <==> RequiredBefore(t, j) in Seen(t, i, seen)
    {
      if i < j {
        NumbersGrow(t, i, j);
      } else if j < i {
        NumbersGrow(t, j, i);
      }
    }
  }

  lemma AllSeenIs(t: LType, seen: set<nat>, had: set<nat>)
    requires t.TMessage? && SeenIs(t, seen, had)
    ensures AllSeen(t, seen) <==> forall i: nat :: i < |t.fields| && MustBeThere(t, i) ==> i in had
  {
    var n := RequiredBefore(t, |t.fields|);
    forall i: nat | i < |t.fields| ensures MustBeThere(t, i)
      <==> t.fields[i].htype.Required? && RequiredBefore(t, i) < MAX_REQUIRED
    {
      RequiredCounted(t, i);
    }
    hide MustBeThere;
    if AllSeen(t, seen) {
      forall i: nat | i < |t.fields| && MustBeThere(t, i) ensures i in had {
        NumbersGrow(t, i, |t.fields|);
        assert RequiredBefore(t, i) in seen;
      }
    }
    if forall i: nat :: i < |t.fields| && MustBeThere(t, i) ==> i in had {
      forall r: nat | r < n && r < MAX_REQUIRED ensures r in seen {
        var i := NumberHasField(t, r, |t.fields|);
        assert MustBeThere(t, i);
      }
    }
  }

  lemma {:induction false} RequiredDecides(t: LType, values: seq<FieldValue>, s: Bytes, seen: set<nat>, had: set<nat>)
    requires t.TMessage? && |values| == |t.fields| && SeenIs(t, seen, had)
    ensures
      var r := ReadRecords(t, values, s, had);
      DecMessage(t, values, s, seen)
      == if r.Some? && (forall i: nat :: i < |t.fields| && MustBeThere(t, i) ==> i in r.value.1) then Some(r.value.0)
         else None
    decreases |s|
  {
    AllSeenIs(t, seen, had);
    hide Varint32, AllSeen, SkipField, DecField, Seen, FieldAt, MustBeThere, SeenIs;
    var tag := Varint32(s);
    if s != [] && tag.Some? && tag.value.0 != 0 {
      var i := FieldAt(t, tag.value.0 / 8, 0);
      if i == |t.fields| {
        var rest := SkipField(tag.value.0 % 8, tag.value.1);
        if rest.Some? {
          RequiredDecides(t, values, rest.value, seen, had);
        }
      } else {
        var next := DecField(t, values, i, tag.value.0 % 8, tag.value.1);
        if next.Some? {
          SeenIsNext(t, seen, had, i);
          RequiredDecides(t, next.value.0, next.value.1, Seen(t, i, seen), had + {i});
        }
      }
    }
  }

  // Decoding succeeds exactly if the records can be read and each of the first 64 required fields has one.
  lemma RequiredFieldsAreThere(t: LType, values: seq<FieldValue>, s: Bytes)
    requires t.TMessage? && |values| == |t.fields|
    ensures
      var r := ReadRecords(t, values, s, {});
      DecMessage(t, values, s, {})
      == if r.Some? && (forall i: nat :: i < |t.fields| && MustBeThere(t, i) ==> i in r.value.1) then Some(r.value.0)
         else None
  {
    RequiredDecides(t, values, s, {}, {});
  }
}
