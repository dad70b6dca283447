/** Encoding to a stream that writes or only counts, and decoding from a stream of bytes. */
module ProtoStreams {
  import opened DbFormat
  import opened Coding
  import opened ProtoTypes

  // A stream without a callback only counts.
  class OStream {
    const writes: bool
    const maxSize: nat
    var written: nat
    var buffer: Bytes

    ghost predicate Valid()
      reads this
    {
      if writes then |buffer| == written <= maxSize else buffer == []
    }

    ghost predicate Fits(n: nat)
      reads this
    {
      writes ==> written + n <= maxSize
    }

    constructor Sizing()
      ensures Valid() && !writes && written == 0
    {
      writes, maxSize, written, buffer := false, 0, 0, [];
    }

    constructor ToBuffer(size: nat)
      ensures Valid() && writes && maxSize == size && written == 0 && buffer == []
    {
      writes, maxSize, written, buffer := true, size, 0, [];
    }

    // The bytes went out, or were counted.
    twostate predicate Wrote(b: Bytes)
      reads this
    {
      written == old(written) + |b| && buffer == old(buffer) + if writes then b else []
    }

    method Write(b: Bytes) returns (ok: bool)
      requires Valid()
      modifies this
      ensures Valid() && (ok <==> old(Fits(|b|))) && (ok ==> Wrote(b))
    {
      ok := true;
      if |b| > 0 && writes {
        if written + |b| > maxSize {
          return false;
        }
        buffer := buffer + b;
      }
      written := written + |b|;
    }

    // Counting without bytes.
    method Count(n: nat)
      requires Valid() && !writes
      modifies this
      ensures Valid() && written == old(written) + n && buffer == old(buffer)
    {
      written := written + n;
    }

    method WriteVarint(v: nat) returns (ok: bool)
      requires Valid()
      modifies this
      ensures Valid() && (ok <==> old(Fits(|Varint(v)|))) && (ok ==> Wrote(Varint(v)))
    {
      if v <= 0x7f {
        ok := Write([v]);
        return;
      }
      var bytes, rest := [], v;
      while rest >= 128
        invariant Varint(v) == bytes + Varint(rest)
      {
        bytes, rest := bytes + [rest % 128 + 128], rest / 128;
      }
      ok := Write(bytes + [rest]);
    }

    // A length and the bytes.
    method WriteString(s: Bytes) returns (ok: bool)
      requires Valid()
      modifies this
      ensures Valid() && (ok <==> old(Fits(|Varint(|s|) + s|))) && (ok ==> Wrote(Varint(|s|) + s))
    {
      ok := WriteVarint(|s|);
      if ok {
        ok := Write(s);
      }
    }
  }

  /** What encoding promises: it succeeds if the value can be encoded and there is room, and then that goes out. */
  twostate predicate Encoded(stream: OStream, new enc: Option<Bytes>, ok: bool)
    reads stream
  {
    && stream.Valid()
    && (ok <==> enc.Some? && old(stream.Fits(|enc.value|)))
    && (ok ==> stream.Wrote(enc.value))
  }

  method IsZeroValue(t: LType, v: Value) returns (r: bool)
    requires Typed(t, v)
    ensures r == IsZero(t, v)
    decreases t, 2
  {
    match t
    case TBool => r := !v.b;
    case TBytes(_) => r := v.s == [];
    case TString(_) => r := v.s == [];
    case TFixedBytes(dataSize) => r := dataSize == 0;
    case TMessage(fields) =>
      assert TypedMessage(t, v.values);
      for i := 0 to |fields|
        invariant forall j :: 0 <= j < i ==> IsAbsent(fields[j], v.values[j])
      {
        var absent := IsAbsentField(fields[i], v.values[i]);
        if !absent {
          return false;
        }
      }
      r := true;
    case _ => r := v.n == 0;
  }

  method IsAbsentField(f: Field, fv: FieldValue) returns (r: bool)
    requires TypedField(f, fv)
    ensures r == IsAbsent(f, fv)
    decreases f, 1
  {
    match f.htype
    case Required => r := false;
    case Singular => r := IsZeroValue(f.ltype, fv.v);
    case Optional => r := !fv.has;
    case OneOf(_) => r := !fv.has;
    case Repeated(_) => r := fv.items == [];
  }

  lemma JoinStep(pre: Bytes, b: Option<Bytes>, rest: Option<Bytes>)
    ensures Join(Some(pre), Join(b, rest)) == if b.None? then None else Join(Some(pre + b.value), rest)
  {
    if b.Some? && rest.Some? {
      assert pre + (b.value + rest.value) == pre + b.value + rest.value;
    }
  }

  lemma JoinNothing(b: Option<Bytes>)
    ensures Join(Some([]), b) == b && Join(b, Some([])) == b
  {
    if b.Some? {
      assert [] + b.value == b.value && b.value + [] == b.value;
    }
  }

  // All fields in order.
  method Encode(stream: OStream, t: LType, values: seq<FieldValue>) returns (ok: bool)
    requires stream.Valid() && t.TMessage? && TypedMessage(t, values)
    modifies stream
    ensures Encoded(stream, EncMessage(t, values, 0), ok)
    decreases t, 1, 1
  {
    hide EncField;
    ghost var goal := EncMessage(t, values, 0);
    ghost var pre: Bytes := [];
    JoinNothing(goal);
    assert old(stream.buffer) + [] == old(stream.buffer);
    for i := 0 to |values|
      invariant stream.Valid() && stream.Wrote(pre)
      invariant goal == Join(Some(pre), EncMessage(t, values, i))
    {
      JoinStep(pre, EncField(t.fields[i], values[i]), EncMessage(t, values, i + 1));
      ok := EncodeField(stream, t.fields[i], values[i]);
      if !ok {
        return;
      }
      pre := pre + EncField(t.fields[i], values[i]).value;
    }
    JoinNothing(Some(pre));
    ok := true;
  }

  method EncodeField(stream: OStream, f: Field, fv: FieldValue) returns (ok: bool)
    requires stream.Valid() && TypedField(f, fv)
    modifies stream
    ensures Encoded(stream, EncField(f, fv), ok)
    decreases f, 4
  {
    hide EncTagged, IsZero, EncPacked, EncEach;
    ok := true;
    match f.htype
    case Required => ok := EncodeTagged(stream, f, fv.v);
    case Singular =>
      var zero := IsZeroValue(f.ltype, fv.v);
      if !zero {
        ok := EncodeTagged(stream, f, fv.v);
      }
    case Optional =>
      if fv.has {
        ok := EncodeTagged(stream, f, fv.v);
      }
    case OneOf(_) =>
      if fv.has {
        ok := EncodeTagged(stream, f, fv.v);
      }
    case Repeated(arraySize) =>
      if |fv.items| > 0 {
        if |fv.items| > arraySize {
          return false;
        }
        if Packable(f.ltype) {
          ok := EncodePacked(stream, f, fv.items);
        } else {
          ok := EncodeEach(stream, f, fv.items);
        }
      }
  }

  method EncodeTagged(stream: OStream, f: Field, v: Value) returns (ok: bool)
    requires stream.Valid() && Typed(f.ltype, v)
    modifies stream
    ensures Encoded(stream, EncTagged(f, v), ok)
    decreases f, 1
  {
    hide EncValue, Varint;
    ok := stream.WriteVarint(f.tag * 8 + WireType(f.ltype));
    if ok {
      ok := EncodeValue(stream, f.ltype, v);
    }
  }

  // Items one behind the other; the first `n` of them are `pre`.
  method EncodeItems(stream: OStream, f: Field, items: seq<Value>) returns (ok: bool)
    requires stream.Valid() && forall i :: 0 <= i < |items| ==> Typed(f.ltype, items[i])
    modifies stream
    ensures Encoded(stream, EncPacked(f, items), ok)
    decreases f, 1
  {
    hide EncValue;
    ghost var goal := EncPacked(f, items);
    ghost var pre: Bytes := [];
    JoinNothing(goal);
    assert old(stream.buffer) + [] == old(stream.buffer);
    assert items[0..] == items;
    for i := 0 to |items|
      invariant stream.Valid() && stream.Wrote(pre)
      invariant goal == Join(Some(pre), EncPacked(f, items[i..]))
    {
      assert items[i..][1..] == items[i + 1..];
      JoinStep(pre, EncValue(f.ltype, items[i]), EncPacked(f, items[i + 1..]));
      ok := EncodeValue(stream, f.ltype, items[i]);
      if !ok {
        return;
      }
      pre := pre + EncValue(f.ltype, items[i]).value;
    }
    JoinNothing(Some(pre));
    ok := true;
  }

  method EncodeEach(stream: OStream, f: Field, items: seq<Value>) returns (ok: bool)
    requires stream.Valid() && forall i :: 0 <= i < |items| ==> Typed(f.ltype, items[i])
    modifies stream
    ensures Encoded(stream, EncEach(f, items), ok)
    decreases f, 2
  {
    hide EncTagged;
    ghost var goal := EncEach(f, items);
    ghost var pre: Bytes := [];
    JoinNothing(goal);
    assert old(stream.buffer) + [] == old(stream.buffer);
    assert items[0..] == items;
    for i := 0 to |items|
      invariant stream.Valid() && stream.Wrote(pre)
      invariant goal == Join(Some(pre), EncEach(f, items[i..]))
    {
      assert items[i..][1..] == items[i + 1..];
      JoinStep(pre, EncTagged(f, items[i]), EncEach(f, items[i + 1..]));
      ok := EncodeTagged(stream, f, items[i]);
      if !ok {
        return;
      }
      pre := pre + EncTagged(f, items[i]).value;
    }
    JoinNothing(Some(pre));
    ok := true;
  }

  lemma {:induction false} PackedSize(f: Field, items: seq<Value>)
    requires Packable(f.ltype) && forall i :: 0 <= i < |items| ==> Typed(f.ltype, items[i])
    ensures EncPacked(f, items).Some?
    ensures f.ltype.TFixed32? ==> |EncPacked(f, items).value| == 4 * |items|
    ensures f.ltype.TFixed64? ==> |EncPacked(f, items).value| == 8 * |items|
  {
    if items != [] {
      PackedSize(f, items[1..]);
    }
  }

  method PackedLength(f: Field, items: seq<Value>) returns (size: nat)
    requires Packable(f.ltype) && forall i :: 0 <= i < |items| ==> Typed(f.ltype, items[i])
    ensures EncPacked(f, items).Some? && size == |EncPacked(f, items).value|
    decreases f, 2
  {
    PackedSize(f, items);
    if f.ltype.TFixed32? {
      size := 4 * |items|;
    } else if f.ltype.TFixed64? {
      size := 8 * |items|;
    } else {
      hide EncPacked;
      var sizing := new OStream.Sizing();
      var _ := EncodeItems(sizing, f, items);
      size := sizing.written;
    }
  }

  // A packed array: tag, size, and then the items, unless the stream only counts.
  method EncodePacked(stream: OStream, f: Field, items: seq<Value>) returns (ok: bool)
    requires stream.Valid() && Packable(f.ltype) && forall i :: 0 <= i < |items| ==> Typed(f.ltype, items[i])
    modifies stream
    ensures Encoded(stream, Join(Some(TagBytes(f.tag, 2)), WithLength(EncPacked(f, items))), ok)
    decreases f, 3
  {
    hide EncPacked, Varint;
    var size := PackedLength(f, items);
    ok := stream.WriteVarint(f.tag * 8 + 2);
    if !ok {
      return;
    }
    ok := stream.WriteVarint(size);
    if !ok {
      return;
    }
    if !stream.writes {
      stream.Count(size);
    } else {
      ok := EncodeItems(stream, f, items);
    }
  }

  method EncodeValue(stream: OStream, t: LType, v: Value) returns (ok: bool)
    requires stream.Valid() && Typed(t, v)
    modifies stream
    ensures Encoded(stream, EncValue(t, v), ok)
    decreases t, 2
  {
    hide Varint, EncMessage;
    match t
    case TBool => ok := stream.WriteVarint(if v.b then 1 else 0);
    case TVarint(_) => ok := stream.WriteVarint(Unsigned64(v.n));
    case TUVarint(_) => ok := stream.WriteVarint(v.n);
    case TSVarint(_) => ok := stream.WriteVarint(ZigZag(v.n));
    case TFixed32 =>
      var b := EncodeFixed32(v.n);
      ok := stream.Write(b);
    case TFixed64 => ok := stream.Write(Fixed(v.n, 8));
    case TBytes(capacity) =>
      if |v.s| > capacity {
        return false;
      }
      ok := stream.WriteString(v.s);
    case TString(_) => ok := stream.WriteString(v.s);
    case TFixedBytes(_) => ok := stream.WriteString(v.s);
    case TMessage(_) => ok := EncodeSubmessage(stream, t, v.values);
  }

  /**
   * Size first, then content: a pass that only counts, the length, and a pass that writes into exactly that
   * much room, so the two never disagree.
   */
  method EncodeSubmessage(stream: OStream, t: LType, values: seq<FieldValue>) returns (ok: bool)
    requires stream.Valid() && t.TMessage? && TypedMessage(t, values)
    modifies stream
    ensures Encoded(stream, WithLength(EncMessage(t, values, 0)), ok)
    decreases t, 1, 2
  {
    hide EncMessage, Varint;
    ghost var enc := EncMessage(t, values, 0);
    var sizing := new OStream.Sizing();
    ok := Encode(sizing, t, values);
    if !ok {
      return;
    }
    var size := sizing.written;
    ok := stream.WriteVarint(size);
    if !ok {
      return;
    }
    if !stream.writes {
      stream.Count(size);
    } else if stream.written + size > stream.maxSize {
      ok := false;
    } else {
      var sub := new OStream.ToBuffer(size);
      var status := Encode(sub, t, values);
      assert sub.written == size && sub.buffer == enc.value;
      stream.written, stream.buffer := stream.written + sub.written, stream.buffer + sub.buffer;
      ok := sub.written == size && status;
    }
  }

  // The size a message will take, without writing it.
  method GetEncodedSize(t: LType, values: seq<FieldValue>) returns (ok: bool, size: nat)
    requires t.TMessage? && TypedMessage(t, values)
    ensures ok <==> EncMessage(t, values, 0).Some?
    ensures ok ==> size == |EncMessage(t, values, 0).value|
  {
    hide EncMessage;
    var stream := new OStream.Sizing();
    ok := Encode(stream, t, values);
    size := stream.written;
  }

  // ---- Decoding -----------------------------------------------------------------------------------------------------

  class IStream {
    var left: Bytes

    constructor (bytes: Bytes)
      ensures left == bytes
    {
      left := bytes;
    }

    method ReadByte() returns (b: Option<Byte>)
      modifies this
      ensures b.None? <==> old(left) == []
      ensures b.Some? ==> b.value == old(left)[0] && left == old(left)[1..]
      ensures b.None? ==> left == old(left)
    {
      if left == [] {
        return None;
      }
      b := Some(left[0]);
      left := left[1..];
    }

    method Read(n: nat) returns (b: Option<Bytes>)
      modifies this
      ensures b.None? <==> |old(left)| < n
      ensures b.Some? ==> b.value == old(left)[..n] && left == old(left)[n..]
      ensures b.None? ==> left == old(left)
    {
      if |left| < n {
        return None;
      }
      b := Some(left[..n]);
      left := left[n..];
    }

    method DecodeVarint32() returns (r: Option<nat>)
      modifies this
      ensures var v := Varint32(old(left));
        r.Some? == v.Some? && (r.Some? ==> v == Some((r.value, left)))
    {
      var b := ReadByte();
      if b.None? {
        return None;
      }
      var byte := b.value;
      if byte < 128 {
        return Some(byte);
      }
      var result: nat, k := byte - 128, 1;
      while byte >= 128
        invariant k >= 1
        invariant byte >= 128 ==> Varint32(old(left)) == More32(left, result, k)
        invariant byte < 128 ==>
          Varint32(old(left)) == if k == 5 && byte % 128 / 16 != 0 then None else Some((result, left))
        decreases byte >= 128, |left|
      {
        b := ReadByte();
        if b.None? {
          return None;
        }
        byte := b.value;
        if k >= 5 {
          var sign := if k < 9 then 0xff else 0x01;
          if byte % 128 != 0 && (result < 0x8000_0000 || byte != sign) {
            return None;
          }
        } else {
          result := (result + Times(byte % 128, Pow(128, k))) % WORD32;
        }
        k := k + 1;
      }
      if k == 5 && byte % 128 / 16 != 0 {
        return None;
      }
      r := Some(result);
    }

    method DecodeVarint64() returns (r: Option<Uint64>)
      modifies this
      ensures var v := Varint64(old(left));
        r.Some? == v.Some? && (r.Some? ==> v == Some((r.value, left)))
    {
      var result: nat, k := 0, 0;
      var more := true;
      while more
        invariant more ==> Varint64(old(left)) == More64(left, result, k)
        invariant !more ==> Varint64(old(left)) == Some((result, left))
        decreases more, |left|
      {
        if k >= 10 {
          return None;
        }
        var b := ReadByte();
        if b.None? {
          return None;
        }
        result := (result + Times(b.value % 128, Pow(128, k))) % WORD64;
        more := b.value >= 128;
        k := k + 1;
      }
      r := Some(result);
    }

    // A length, and the bytes that belong to it.
    method TakeSlice() returns (b: Option<Bytes>)
      modifies this
      ensures var v := Slice(old(left));
        b.Some? == v.Some? && (b.Some? ==> v == Some((b.value, left)))
    {
      var size := DecodeVarint32();
      if size.None? {
        return None;
      }
      b := Read(size.value);
    }

    method Skip(wireType: nat) returns (ok: bool)
      modifies this
      ensures var v := SkipField(wireType, old(left));
        ok == v.Some? && (ok ==> v == Some(left))
    {
      hide Slice;
      if wireType == 0 {
        var more := true;
        while more
          invariant more ==> SkipVarint(old(left)) == SkipVarint(left)
          invariant !more ==> SkipVarint(old(left)) == Some(left)
          decreases more, |left|
        {
          var b := ReadByte();
          if b.None? {
            return false;
          }
          more := b.value >= 128;
        }
        ok := true;
      } else if wireType == 1 {
        var b := Read(8);
        ok := b.Some?;
      } else if wireType == 2 {
        var b := TakeSlice();
        ok := b.Some?;
      } else if wireType == 5 {
        var b := Read(4);
        ok := b.Some?;
      } else {
        ok := false;
      }
    }
  }

  /** What decoding one value promises: the value and the bytes behind it. */
  twostate predicate Decoded(stream: IStream, new spec: Option<(Value, Bytes)>, new r: Option<Value>)
    reads stream
  {
    r.Some? == spec.Some? && (r.Some? ==> spec == Some((r.value, stream.left)))
  }

  method DecodeValue(stream: IStream, t: LType, base: Value) returns (r: Option<Value>)
    modifies stream
    ensures Decoded(stream, DecValue(t, base, old(stream.left)), r)
    decreases t, 2
  {
    hide Slice, Varint32, Varint64, DecMessage, UpToNul, Zero;
    r := None;
    match t
    case TBool =>
      var v := stream.DecodeVarint32();
      if v.Some? {
        r := Some(VBool(v.value != 0));
      }
    case TVarint(size) =>
      var v := stream.DecodeVarint64();
      if v.Some? {
        var n := Signed(v.value, if size == 8 then WORD64 else WORD32);
        r := if SignedFits(n, size) then Some(VInt(n)) else None;
      }
    case TUVarint(size) =>
      var v := stream.DecodeVarint64();
      if v.Some? {
        r := if v.value < Range(size) then Some(VInt(v.value)) else None;
      }
    case TSVarint(size) =>
      var v := stream.DecodeVarint64();
      if v.Some? {
        var n := UnZigZag(v.value);
        r := if SignedFits(n, size) then Some(VInt(n)) else None;
      }
    case TFixed32 =>
      var b := stream.Read(4);
      if b.Some? {
        r := Some(VInt(Unfixed(b.value)));
      }
    case TFixed64 =>
      var b := stream.Read(8);
      if b.Some? {
        r := Some(VInt(Unfixed(b.value)));
      }
    case TBytes(capacity) =>
      var b := stream.TakeSlice();
      if b.Some? && |b.value| <= capacity {
        r := Some(VBytes(b.value));
      }
    case TString(dataSize) =>
      var b := stream.TakeSlice();
      if b.Some? && |b.value| + 1 <= dataSize {
        r := Some(VBytes(UpToNul(b.value)));
      }
    case TFixedBytes(dataSize) =>
      var b := stream.TakeSlice();
      if b.Some? {
        if b.value == [] {
          r := Some(Zero(t));
        } else if |b.value| == dataSize {
          r := Some(VBytes(b.value));
        }
      }
    case TMessage(fields) =>
      var b := stream.TakeSlice();
      if b.Some? && base.VMessage? && |base.values| == |fields| {
        var sub := new IStream(b.value);
        var m := DecodeNoInit(sub, t, base.values);
        if m.Some? {
          r := Some(VMessage(m.value));
        }
      }
  }

  // Records until the bytes end or a zero tag stands there; then all required fields have to be there.
  method DecodeNoInit(stream: IStream, t: LType, values0: seq<FieldValue>) returns (r: Option<seq<FieldValue>>)
    requires t.TMessage? && |values0| == |t.fields|
    modifies stream
    ensures r == DecMessage(t, values0, old(stream.left), {})
    decreases t, 1
  {
    hide Varint32, DecField, SkipField, AllSeen, Seen, FieldAt;
    var values, seen: set<nat> := values0, {};
    ghost var goal := DecMessage(t, values0, stream.left, {});
    var ended := false;
    while stream.left != [] && !ended
      invariant |values| == |t.fields|
      invariant !ended ==> goal == DecMessage(t, values, stream.left, seen)
      invariant ended ==> goal == if AllSeen(t, seen) then Some(values) else None
      decreases !ended, |stream.left|
    {
      ghost var before := stream.left;
      var tag := stream.DecodeVarint32();
      if tag.None? {
        return None;
      }
      if tag.value == 0 {
        ended := true;
      } else {
        var i := FieldAt(t, tag.value / 8, 0);
        if i == |t.fields| {
          var ok := stream.Skip(tag.value % 8);
          if !ok {
            return None;
          }
        } else {
          var next := DecodeField(stream, t, values, i, tag.value % 8);
          if next.None? {
            return None;
          }
          seen := Seen(t, i, seen);
          values := next.value;
        }
      }
    }
    r := if AllSeen(t, seen) then Some(values) else None;
  }

  method DecodeField(stream: IStream, t: LType, values: seq<FieldValue>, i: nat, wireType: nat)
    returns (r: Option<seq<FieldValue>>)
    requires t.TMessage? && |values| == |t.fields| && i < |values|
    modifies stream
    ensures
      var spec := DecField(t, values, i, wireType, old(stream.left));
      r.Some? == spec.Some? && (r.Some? ==> spec == Some((r.value, stream.left)))
    decreases t, 0
  {
    hide DecValue, DecPacked, Slice, Zero, Chosen;
    var f := t.fields[i];
    r := None;
    match f.htype
    case Repeated(arraySize) =>
      if values[i].Many? {
        if wireType == 2 && Packable(f.ltype) {
          var b := stream.TakeSlice();
          if b.Some? {
            var sub := new IStream(b.value);
            var items := DecodePacked(sub, f.ltype, values[i].items, arraySize);
            if items.Some? {
              r := Some(values[i := Many(items.value)]);
            }
          }
        } else if |values[i].items| < arraySize {
          var v := DecodeValue(stream, f.ltype, Zero(f.ltype));
          if v.Some? {
            r := Some(values[i := Many(values[i].items + [v.value])]);
          }
        }
      }
    case OneOf(_) =>
      if values[i].Opt? {
        var base := if f.ltype.TMessage? && !values[i].has then Zero(f.ltype) else values[i].v;
        var v := DecodeValue(stream, f.ltype, base);
        if v.Some? {
          r := Some(Chosen(t, values, i, v.value));
        }
      }
    case Optional =>
      if values[i].Opt? {
        var v := DecodeValue(stream, f.ltype, values[i].v);
        if v.Some? {
          r := Some(values[i := Opt(true, v.value)]);
        }
      }
    case _ =>
      if values[i].One? {
        var v := DecodeValue(stream, f.ltype, values[i].v);
        if v.Some? {
          r := Some(values[i := One(v.value)]);
        }
      }
  }

  method DecodePacked(stream: IStream, t: LType, items0: seq<Value>, arraySize: nat) returns (r: Option<seq<Value>>)
    modifies stream
    ensures r == DecPacked(t, items0, arraySize, old(stream.left))
    decreases t, 3
  {
    hide DecValue, Zero;
    var items := items0;
    while stream.left != [] && |items| < arraySize
      invariant DecPacked(t, items0, arraySize, old(stream.left)) == DecPacked(t, items, arraySize, stream.left)
      decreases |stream.left|
    {
      var v := DecodeValue(stream, t, Zero(t));
      if v.None? {
        return None;
      }
      items := items + [v.value];
    }
    r := if stream.left != [] then None else Some(items);
  }

  // A fresh message: defaults first, then what the stream says.
  method Decode(stream: IStream, t: LType) returns (r: Option<seq<FieldValue>>)
    requires t.TMessage?
    modifies stream
    ensures r == DecMessage(t, Zero(t).values, old(stream.left), {})
  {
    hide DecMessage;
    r := DecodeNoInit(stream, t, Zero(t).values);
  }
}
