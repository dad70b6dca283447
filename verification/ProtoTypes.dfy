/** Message descriptors, message values, and the wire format as functions: what is written, and what is read back. */
module ProtoTypes {
  import opened DbFormat
  import opened Coding

  // ---- Descriptors and values -----------------------------------------------------------------------------------

  // Widths of integer fields, in bytes.
  type IntSize = n: nat | n == 1 || n == 2 || n == 4 || n == 8 witness 1

  datatype LType =
    | TBool
    | TVarint(size: IntSize)
    | TUVarint(size: IntSize)
    | TSVarint(size: IntSize)
    | TFixed32
    | TFixed64
    | TBytes(capacity: nat)
    | TString(dataSize: nat)
    | TFixedBytes(dataSize: nat)
    | TMessage(fields: seq<Field>)

  // A singular field has no has-flag: it is written unless it is zero.
  datatype HType = Required | Optional | Singular | Repeated(arraySize: nat) | OneOf(group: nat)

  datatype Field = Field(tag: nat, htype: HType, ltype: LType)

  // The content of a field: integers of every kind are numbers, and strings end before their terminator.
  datatype Value = VBool(b: bool) | VInt(n: int) | VBytes(s: Bytes) | VMessage(values: seq<FieldValue>)

  datatype FieldValue = One(v: Value) | Opt(has: bool, v: Value) | Many(items: seq<Value>)

  function Range(size: IntSize): nat {
    if size == 1 then 0x100 else if size == 2 then 0x1_0000 else if size == 4 then WORD32 else WORD64
  }

  predicate SignedFits(n: int, size: IntSize) {
    -(Range(size) / 2) <= n < Range(size) / 2
  }

  predicate Packable(t: LType) {
    !t.TBytes? && !t.TString? && !t.TFixedBytes? && !t.TMessage?
  }

  // Values a C structure of this type can hold.
  ghost predicate Typed(t: LType, v: Value)
    decreases t, 1
  {
    match t
    case TBool => v.VBool?
    case TVarint(size) => v.VInt? && SignedFits(v.n, size)
    case TUVarint(size) => v.VInt? && 0 <= v.n < Range(size)
    case TSVarint(size) => v.VInt? && SignedFits(v.n, size)
    case TFixed32 => v.VInt? && 0 <= v.n < WORD32
    case TFixed64 => v.VInt? && 0 <= v.n < WORD64
    case TBytes(_) => v.VBytes? && |v.s| < WORD32
    case TString(dataSize) => v.VBytes? && |v.s| <= dataSize && 0 !in v.s
    case TFixedBytes(dataSize) => v.VBytes? && |v.s| == dataSize
    case TMessage(fields) => v.VMessage? && TypedMessage(t, v.values)
  }

  ghost predicate TypedMessage(t: LType, values: seq<FieldValue>)
    requires t.TMessage?
    decreases t, 0
  {
    && |values| == |t.fields|
    && (forall i :: 0 <= i < |values| ==> TypedField(t.fields[i], values[i]))
    && forall i, j :: 0 <= i < j < |values| ==> Compatible(t, values, i, j)
  }

  // Of the members of one union, at most one is set.
  predicate Compatible(t: LType, values: seq<FieldValue>, i: nat, j: nat)
    requires t.TMessage? && |values| == |t.fields| && i < |values| && j < |values|
  {
    t.fields[i].htype.OneOf? && t.fields[j].htype == t.fields[i].htype && values[i].Opt? && values[j].Opt? ==>
      !values[i].has || !values[j].has
  }

  ghost predicate TypedField(f: Field, fv: FieldValue)
    decreases f, 0
  {
    match f.htype
    case Required => fv.One? && Typed(f.ltype, fv.v)
    case Singular => fv.One? && Typed(f.ltype, fv.v)
    case Optional => fv.Opt? && Typed(f.ltype, fv.v)
    case OneOf(_) => fv.Opt? && Typed(f.ltype, fv.v)
    case Repeated(_) => fv.Many? && forall i :: 0 <= i < |fv.items| ==> Typed(f.ltype, fv.items[i])
  }

  // ---- Writing ----------------------------------------------------------------------------------------------------

  function WireType(t: LType): nat {
    match t
    case TFixed32 => 5
    case TFixed64 => 1
    case TBytes(_) => 2
    case TString(_) => 2
    case TFixedBytes(_) => 2
    case TMessage(_) => 2
    case _ => 0
  }

  function TagBytes(tag: nat, wireType: nat): Bytes {
    Varint(tag * 8 + wireType)
  }

  function ZigZag(n: int): nat {
    if n < 0 then -2 * n - 1 else 2 * n
  }

  function Unsigned64(n: int): int {
    if n < 0 then n + WORD64 else n
  }

  function Join(a: Option<Bytes>, b: Option<Bytes>): Option<Bytes> {
    if a.None? || b.None? then None else Some(a.value + b.value)
  }

  function WithLength(b: Option<Bytes>): Option<Bytes> {
    if b.None? then None else Some(Varint(|b.value|) + b.value)
  }

  // One value without its tag; none if a length is not allowed.
  ghost function EncValue(t: LType, v: Value): Option<Bytes>
    requires Typed(t, v)
    decreases t, 2
  {
    match t
    case TBool => Some(Varint(if v.b then 1 else 0))
    case TVarint(_) => Some(Varint(Unsigned64(v.n)))
    case TUVarint(_) => Some(Varint(v.n))
    case TSVarint(_) => Some(Varint(ZigZag(v.n)))
    case TFixed32 => Some(Fixed(v.n, 4))
    case TFixed64 => Some(Fixed(v.n, 8))
    case TBytes(capacity) => if |v.s| > capacity then None else Some(Varint(|v.s|) + v.s)
    case TString(_) => Some(Varint(|v.s|) + v.s)
    case TFixedBytes(_) => Some(Varint(|v.s|) + v.s)
    case TMessage(_) => WithLength(EncMessage(t, v.values, 0))
  }

  // The fields from position `i` on.
  ghost function EncMessage(t: LType, values: seq<FieldValue>, i: nat): Option<Bytes>
    requires t.TMessage? && TypedMessage(t, values) && i <= |values|
    decreases t, 1, |values| - i
  {
    if i == |values| then Some([])
    else Join(EncField(t.fields[i], values[i]), EncMessage(t, values, i + 1))
  }

  ghost function EncField(f: Field, fv: FieldValue): Option<Bytes>
    requires TypedField(f, fv)
    decreases f, 2
  {
    match f.htype
    case Required => EncTagged(f, fv.v)
    case Singular => if IsZero(f.ltype, fv.v) then Some([]) else EncTagged(f, fv.v)
    case Optional => if fv.has then EncTagged(f, fv.v) else Some([])
    case OneOf(_) => if fv.has then EncTagged(f, fv.v) else Some([])
    case Repeated(arraySize) =>
      if fv.items == [] then Some([])
      else if |fv.items| > arraySize then None
      else if Packable(f.ltype) then
        Join(Some(TagBytes(f.tag, 2)), WithLength(EncPacked(f, fv.items)))
      else EncEach(f, fv.items)
  }

  ghost function EncTagged(f: Field, v: Value): Option<Bytes>
    requires Typed(f.ltype, v)
    decreases f, 0
  {
    Join(Some(TagBytes(f.tag, WireType(f.ltype))), EncValue(f.ltype, v))
  }

  // Array items, one behind the other.
  ghost function EncPacked(f: Field, items: seq<Value>): Option<Bytes>
    requires forall i :: 0 <= i < |items| ==> Typed(f.ltype, items[i])
    decreases f, 1, |items|
  {
    if items == [] then Some([]) else Join(EncValue(f.ltype, items[0]), EncPacked(f, items[1..]))
  }

  // Array items, each with the tag.
  ghost function EncEach(f: Field, items: seq<Value>): Option<Bytes>
    requires forall i :: 0 <= i < |items| ==> Typed(f.ltype, items[i])
    decreases f, 1, |items|
  {
    if items == [] then Some([]) else Join(EncTagged(f, items[0]), EncEach(f, items[1..]))
  }

  // The check that decides whether a singular field is written.
  ghost predicate IsZero(t: LType, v: Value)
    requires Typed(t, v)
    decreases t, 2
  {
    match t
    case TBool => !v.b
    case TBytes(_) => v.s == []
    case TString(_) => v.s == []
    case TFixedBytes(dataSize) => dataSize == 0
    case TMessage(fields) =>
      assert TypedMessage(t, v.values);
      forall i :: 0 <= i < |fields| ==> IsAbsent(fields[i], v.values[i])
    case _ => v.n == 0
  }

  ghost predicate IsAbsent(f: Field, fv: FieldValue)
    requires TypedField(f, fv)
    decreases f, 1
  {
    match f.htype
    case Required => false
    case Singular => IsZero(f.ltype, fv.v)
    case Optional => !fv.has
    case OneOf(_) => !fv.has
    case Repeated(_) => fv.items == []
  }

  // ---- Reading ----------------------------------------------------------------------------------------------------

  // A varint into 32 bits: bytes behind them may hold no bits, or those of a negative number.
  function More32(s: Bytes, result: nat, k: nat): (r: Option<(nat, Bytes)>)
    ensures r.Some? ==> |r.value.1| < |s|
  {
    if s == [] then None else
    var byte := s[0];
    var sign := if k < 9 then 0xff else 0x01;
    if k >= 5 && byte % 128 != 0 && (result < 0x8000_0000 || byte != sign) then None else
    var next := if k >= 5 then result else (result + Times(byte % 128, Pow(128, k))) % WORD32;
    if byte >= 128 then More32(s[1..], next, k + 1)
    else if k == 4 && byte % 128 / 16 != 0 then None
    else Some((next, s[1..]))
  }

  function Varint32(s: Bytes): (r: Option<(nat, Bytes)>)
    ensures r.Some? ==> |r.value.1| < |s|
  {
    if s == [] then None
    else if s[0] < 128 then Some((s[0], s[1..]))
    else More32(s[1..], s[0] - 128, 1)
  }

  // A varint into 64 bits: ten bytes at most, and higher bits are shifted out.
  function More64(s: Bytes, result: nat, k: nat): (r: Option<(nat, Bytes)>)
    ensures r.Some? ==> |r.value.1| < |s| && r.value.0 < WORD64
  {
    if k >= 10 || s == [] then None else
    var byte := s[0];
    var next := (result + Times(byte % 128, Pow(128, k))) % WORD64;
    if byte >= 128 then More64(s[1..], next, k + 1) else Some((next, s[1..]))
  }

  function Varint64(s: Bytes): (r: Option<(nat, Bytes)>)
    ensures r.Some? ==> |r.value.1| < |s| && r.value.0 < WORD64
  {
    More64(s, 0, 0)
  }

  function Signed(n: nat, range: nat): int
    requires range > 0
  {
    if n % range >= range / 2 then n % range - range else n % range
  }

  function UnZigZag(n: nat): int {
    if n % 2 == 1 then -(n / 2) - 1 else n / 2
  }

  // The bytes before the first zero.
  function UpToNul(s: Bytes): Bytes {
    if s == [] || s[0] == 0 then [] else [s[0]] + UpToNul(s[1..])
  }

  // A length, and that many bytes.
  function Slice(s: Bytes): (r: Option<(Bytes, Bytes)>)
    ensures r.Some? ==> |r.value.1| < |s|
  {
    var len := Varint32(s);
    if len.None? || |len.value.1| < len.value.0 then None
    else Some((len.value.1[..len.value.0], len.value.1[len.value.0..]))
  }

  function Number(v: int, ok: bool, rest: Bytes): Option<(Value, Bytes)> {
    if ok then Some((VInt(v), rest)) else None
  }

  // How a structure starts out.
  function Zero(t: LType): Value
    decreases t, 0
  {
    match t
    case TBool => VBool(false)
    case TBytes(_) => VBytes([])
    case TString(_) => VBytes([])
    case TFixedBytes(dataSize) => VBytes(seq(dataSize, _ => 0))
    case TMessage(fields) => VMessage(seq(|fields|, i requires 0 <= i < |fields| => ZeroField(fields[i])))
    case _ => VInt(0)
  }

  function ZeroField(f: Field): FieldValue
    decreases f, 1
  {
    match f.htype
    case Required => One(Zero(f.ltype))
    case Singular => One(Zero(f.ltype))
    case Optional => Opt(false, Zero(f.ltype))
    case OneOf(_) => Opt(false, Zero(f.ltype))
    case Repeated(_) => Many([])
  }

  // One value; a message is read on top of what is there.
  function DecValue(t: LType, base: Value, s: Bytes): (r: Option<(Value, Bytes)>)
    ensures r.Some? ==> |r.value.1| < |s|
    decreases t, 2
  {
    match t
    case TBool =>
      var v := Varint32(s);
      if v.None? then None else Some((VBool(v.value.0 != 0), v.value.1))
    case TVarint(size) =>
      var v := Varint64(s);
      if v.None? then None else
      var n := Signed(v.value.0, if size == 8 then WORD64 else WORD32);
      Number(n, SignedFits(n, size), v.value.1)
    case TUVarint(size) =>
      var v := Varint64(s);
      if v.None? then None else Number(v.value.0, v.value.0 < Range(size), v.value.1)
    case TSVarint(size) =>
      var v := Varint64(s);
      if v.None? then None else
      var n := UnZigZag(v.value.0);
      Number(n, SignedFits(n, size), v.value.1)
    case TFixed32 => if |s| < 4 then None else Some((VInt(Unfixed(s[..4])), s[4..]))
    case TFixed64 => if |s| < 8 then None else Some((VInt(Unfixed(s[..8])), s[8..]))
    case TBytes(capacity) =>
      var b := Slice(s);
      if b.None? || |b.value.0| > capacity then None else Some((VBytes(b.value.0), b.value.1))
    case TString(dataSize) =>
      var b := Slice(s);
      if b.None? || |b.value.0| + 1 > dataSize then None else Some((VBytes(UpToNul(b.value.0)), b.value.1))
    case TFixedBytes(dataSize) =>
      var b := Slice(s);
      if b.None? then None
      else if b.value.0 == [] then Some((Zero(t), b.value.1))
      else if |b.value.0| != dataSize then None
      else Some((VBytes(b.value.0), b.value.1))
    case TMessage(fields) =>
      var b := Slice(s);
      if b.None? || !base.VMessage? || |base.values| != |fields| then None else
      var m := DecMessage(t, base.values, b.value.0, {});
      if m.None? then None else Some((VMessage(m.value), b.value.1))
  }

  // The tag of the next record; zero ends the message.
  function FieldAt(t: LType, tag: nat, i: nat): (r: nat)
    requires t.TMessage? && i <= |t.fields|
    ensures i <= r <= |t.fields| && (r < |t.fields| ==> t.fields[r].tag == tag)
    ensures forall j :: i <= j < r ==> t.fields[j].tag != tag
    decreases |t.fields| - i
  {
    if i == |t.fields| || t.fields[i].tag == tag then i else FieldAt(t, tag, i + 1)
  }

  const MAX_REQUIRED: nat := 64

  // How many required fields stand before position `i`.
  function RequiredBefore(t: LType, i: nat): nat
    requires t.TMessage? && i <= |t.fields|
  {
    if i == 0 then 0 else RequiredBefore(t, i - 1) + if t.fields[i - 1].htype.Required? then 1 else 0
  }

  // Of the first 64 required fields, all were seen.
  function AllSeen(t: LType, seen: set<nat>): bool
    requires t.TMessage?
  {
    var n := RequiredBefore(t, |t.fields|);
    forall r: nat | r < (if n > MAX_REQUIRED then MAX_REQUIRED else n) :: r in seen
  }

  function Seen(t: LType, i: nat, seen: set<nat>): set<nat>
    requires t.TMessage? && i < |t.fields|
  {
    var r := RequiredBefore(t, i);
    if t.fields[i].htype.Required? && r < MAX_REQUIRED then seen + {r} else seen
  }

  // The records of a message, until the bytes end or a zero tag stands there.
  function DecMessage(t: LType, values: seq<FieldValue>, s: Bytes, seen: set<nat>): (r: Option<seq<FieldValue>>)
    requires t.TMessage? && |values| == |t.fields|
    ensures r.Some? ==> |r.value| == |values|
    decreases t, 1, |s|
  {
    if s == [] then (if AllSeen(t, seen) then Some(values) else None) else
    var tag := Varint32(s);
    if tag.None? then None
    else if tag.value.0 == 0 then (if AllSeen(t, seen) then Some(values) else None) else
    var i := FieldAt(t, tag.value.0 / 8, 0);
    if i == |t.fields| then
      var rest := SkipField(tag.value.0 % 8, tag.value.1);
      if rest.None? then None else DecMessage(t, values, rest.value, seen)
    else
      var next := DecField(t, values, i, tag.value.0 % 8, tag.value.1);
      if next.None? then None else DecMessage(t, next.value.0, next.value.1, Seen(t, i, seen))
  }

  // An unknown field is skipped by its wire type.
  function SkipField(wireType: nat, s: Bytes): (r: Option<Bytes>)
    ensures r.Some? ==> |r.value| <= |s|
  {
    if wireType == 0 then SkipVarint(s)
    else if wireType == 1 then (if |s| < 8 then None else Some(s[8..]))
    else if wireType == 2 then
      var b := Slice(s);
      if b.None? then None else Some(b.value.1)
    else if wireType == 5 then (if |s| < 4 then None else Some(s[4..]))
    else None
  }

  function SkipVarint(s: Bytes): (r: Option<Bytes>)
    ensures r.Some? ==> |r.value| <= |s|
  {
    if s == [] then None else if s[0] >= 128 then SkipVarint(s[1..]) else Some(s[1..])
  }

  // The other members of a union are off once one is set.
  function Chosen(t: LType, values: seq<FieldValue>, i: nat, v: Value): (r: seq<FieldValue>)
    requires t.TMessage? && |values| == |t.fields| && i < |values|
    ensures |r| == |values|
  {
    seq(|values|, j requires 0 <= j < |values| =>
      if j == i then Opt(true, v)
      else if t.fields[j].htype == t.fields[i].htype && values[j].Opt? then Opt(false, values[j].v)
      else values[j])
  }

  // One record of field `i`.
  function DecField(t: LType, values: seq<FieldValue>, i: nat, wireType: nat, s: Bytes)
    : (r: Option<(seq<FieldValue>, Bytes)>)
    requires t.TMessage? && |values| == |t.fields| && i < |values|
    ensures r.Some? ==> |r.value.0| == |values| && |r.value.1| <= |s|
    decreases t, 0
  {
    var f := t.fields[i];
    match f.htype
    case Repeated(arraySize) =>
      if !values[i].Many? then None
      else if wireType == 2 && Packable(f.ltype) then
        var b := Slice(s);
        if b.None? then None else
        var items := DecPacked(f.ltype, values[i].items, arraySize, b.value.0);
        if items.None? then None else Some((values[i := Many(items.value)], b.value.1))
      else if |values[i].items| >= arraySize then None
      else
        var v := DecValue(f.ltype, Zero(f.ltype), s);
        if v.None? then None else Some((values[i := Many(values[i].items + [v.value.0])], v.value.1))
    case OneOf(_) =>
      if !values[i].Opt? then None else
      var base := if f.ltype.TMessage? && !values[i].has then Zero(f.ltype) else values[i].v;
      var v := DecValue(f.ltype, base, s);
      if v.None? then None else Some((Chosen(t, values, i, v.value.0), v.value.1))
    case Optional =>
      if !values[i].Opt? then None else
      var v := DecValue(f.ltype, values[i].v, s);
      if v.None? then None else Some((values[i := Opt(true, v.value.0)], v.value.1))
    case _ =>
      if !values[i].One? then None else
      var v := DecValue(f.ltype, values[i].v, s);
      if v.None? then None else Some((values[i := One(v.value.0)], v.value.1))
  }

  // Items of a packed array behind those that are there; bytes that remain do not fit the array.
  function DecPacked(t: LType, items: seq<Value>, arraySize: nat, s: Bytes): Option<seq<Value>>
    decreases t, 3, |s|
  {
    if s == [] then Some(items)
    else if |items| >= arraySize then None
    else
      var v := DecValue(t, Zero(t), s);
      if v.None? then None else DecPacked(t, items + [v.value.0], arraySize, v.value.1)
  }
}
