/** Version edits as records of the manifest: tags followed by varints and length-prefixed slices. */
module VersionEdits {
  import opened DbFormat
  import opened Coding

  const COMPARATOR_TAG: Uint32 := 1
  const LOG_NUMBER_TAG: Uint32 := 2
  const NEXT_FILE_NUMBER_TAG: Uint32 := 3
  const LAST_SEQUENCE_TAG: Uint32 := 4
  const COMPACT_POINTER_TAG: Uint32 := 5
  const DELETED_FILE_TAG: Uint32 := 6
  const NEW_FILE_TAG: Uint32 := 7
  const PREV_LOG_NUMBER_TAG: Uint32 := 9

  datatype FileMetaData = FileMetaData(number: Uint64, fileSize: Uint64, smallest: Bytes, largest: Bytes)

  // What an edit holds: an absent value is one whose has-flag is off. The deleted files are an ordered set.
  datatype Edit = Edit(
    comparator: Option<Bytes>,
    logNumber: Option<Uint64>,
    prevLogNumber: Option<Uint64>,
    nextFileNumber: Option<Uint64>,
    lastSequence: Option<Uint64>,
    compactPointers: seq<(Uint32, Bytes)>,
    deletedFiles: seq<(Uint32, Uint64)>,
    newFiles: seq<(Uint32, FileMetaData)>)

  datatype Record =
    | ComparatorName(name: Bytes)
    | LogNumber(n: Uint64)
    | PrevLogNumber(n: Uint64)
    | NextFileNumber(n: Uint64)
    | LastSequence(n: Uint64)
    | CompactPointer(level: Uint32, key: Bytes)
    | DeletedFile(level: Uint32, n: Uint64)
    | NewFile(level: Uint32, file: FileMetaData)

  // ---- Writing --------------------------------------------------------------------------------------------------

  // Slices have 32-bit lengths.
  predicate Fits(r: Record) {
    match r
    case ComparatorName(name) => |name| < WORD32
    case CompactPointer(_, key) => |key| < WORD32
    case NewFile(_, f) => |f.smallest| < WORD32 && |f.largest| < WORD32
    case _ => true
  }

  function RecordBytes(r: Record): Bytes
    requires Fits(r)
  {
    match r
    case ComparatorName(name) => Varint(COMPARATOR_TAG) + Prefixed(name)
    case LogNumber(n) => Varint(LOG_NUMBER_TAG) + Varint(n)
    case PrevLogNumber(n) => Varint(PREV_LOG_NUMBER_TAG) + Varint(n)
    case NextFileNumber(n) => Varint(NEXT_FILE_NUMBER_TAG) + Varint(n)
    case LastSequence(n) => Varint(LAST_SEQUENCE_TAG) + Varint(n)
    case CompactPointer(level, key) => Varint(COMPACT_POINTER_TAG) + (Varint(level) + Prefixed(key))
    case DeletedFile(level, n) => Varint(DELETED_FILE_TAG) + (Varint(level) + Varint(n))
    case NewFile(level, f) =>
      Varint(NEW_FILE_TAG)
      + (Varint(level) + (Varint(f.number) + (Varint(f.fileSize) + (Prefixed(f.smallest) + Prefixed(f.largest)))))
  }

  ghost predicate AllFit(rs: seq<Record>) {
    forall i :: 0 <= i < |rs| ==> Fits(rs[i])
  }

  ghost function AllBytes(rs: seq<Record>): Bytes
    requires AllFit(rs)
  {
    if rs == [] then [] else RecordBytes(rs[0]) + AllBytes(rs[1..])
  }

  // ---- Reading --------------------------------------------------------------------------------------------------

  function GetLevel(s: Bytes): (r: Option<(Uint32, Bytes)>)
    ensures r.Some? ==> |r.value.1| < |s|
  {
    var v := Get32(s);
    if v.None? || v.value.0 >= NUM_LEVELS then None else v
  }

  function GetInternalKey(s: Bytes): (r: Option<(Bytes, Bytes)>)
    ensures r.Some? ==> |r.value.1| < |s|
  {
    var key := Unprefixed(s);
    if key.None? || key.value.0 == [] then None else key
  }

  function FileFields(level: Uint32, s: Bytes): (r: Option<(Record, Bytes)>)
    ensures r.Some? ==> |r.value.1| < |s|
  {
    var number := Get64(s);
    if number.None? then None else
    var size := Get64(number.value.1);
    if size.None? then None else
    var smallest := GetInternalKey(size.value.1);
    if smallest.None? then None else
    var largest := GetInternalKey(smallest.value.1);
    if largest.None? then None else
    Some((NewFile(level, FileMetaData(number.value.0, size.value.0, smallest.value.0, largest.value.0)),
          largest.value.1))
  }

  // The record that follows a tag.
  function Fields(tag: Uint32, s: Bytes): (r: Option<(Record, Bytes)>)
    ensures r.Some? ==> |r.value.1| < |s|
  {
    if tag == COMPARATOR_TAG then
      var name := Unprefixed(s);
      if name.None? then None else Some((ComparatorName(name.value.0), name.value.1))
    else if tag == LOG_NUMBER_TAG || tag == PREV_LOG_NUMBER_TAG || tag == NEXT_FILE_NUMBER_TAG || tag == LAST_SEQUENCE_TAG then
      var n := Get64(s);
      if n.None? then None
      else Some((NumberRecord(tag, n.value.0), n.value.1))
    else if tag == COMPACT_POINTER_TAG || tag == DELETED_FILE_TAG || tag == NEW_FILE_TAG then
      var level := GetLevel(s);
      if level.None? then None
      else if tag == COMPACT_POINTER_TAG then
        var key := GetInternalKey(level.value.1);
        if key.None? then None else Some((CompactPointer(level.value.0, key.value.0), key.value.1))
      else if tag == DELETED_FILE_TAG then
        var n := Get64(level.value.1);
        if n.None? then None else Some((DeletedFile(level.value.0, n.value.0), n.value.1))
      else FileFields(level.value.0, level.value.1)
    else None
  }

  function NumberRecord(tag: Uint32, n: Uint64): Record {
    if tag == LOG_NUMBER_TAG then LogNumber(n)
    else if tag == PREV_LOG_NUMBER_TAG then PrevLogNumber(n)
    else if tag == NEXT_FILE_NUMBER_TAG then NextFileNumber(n)
    else LastSequence(n)
  }

  // What a record does to the edit it is read into.
  function Applied(e: Edit, r: Record): Edit {
    match r
    case ComparatorName(name) => e.(comparator := Some(name))
    case LogNumber(n) => e.(logNumber := Some(n))
    case PrevLogNumber(n) => e.(prevLogNumber := Some(n))
    case NextFileNumber(n) => e.(nextFileNumber := Some(n))
    case LastSequence(n) => e.(lastSequence := Some(n))
    case CompactPointer(level, key) => e.(compactPointers := e.compactPointers + [(level, key)])
    case DeletedFile(level, n) => e.(deletedFiles := Inserted(e.deletedFiles, (level, n)))
    case NewFile(level, f) => e.(newFiles := e.newFiles + [(level, f)])
  }

  predicate Before(a: (Uint32, Uint64), b: (Uint32, Uint64)) {
    a.0 < b.0 || (a.0 == b.0 && a.1 < b.1)
  }

  ghost predicate Ascending(s: seq<(Uint32, Uint64)>) {
    forall i, j :: 0 <= i < j < |s| ==> Before(s[i], s[j])
  }

  // A set kept as an ascending list.
  function Inserted(s: seq<(Uint32, Uint64)>, x: (Uint32, Uint64)): seq<(Uint32, Uint64)> {
    if s == [] || Before(x, s[0]) then [x] + s
    else if s[0] == x then s
    else [s[0]] + Inserted(s[1..], x)
  }

  lemma {:induction false} InsertedIsSet(s: seq<(Uint32, Uint64)>, x: (Uint32, Uint64))
    requires Ascending(s)
    ensures Ascending(Inserted(s, x)) && forall y :: y in Inserted(s, x) <==> y in s || y == x
  {
    if !(s == [] || Before(x, s[0]) || s[0] == x) {
      InsertedIsSet(s[1..], x);
      assert s == [s[0]] + s[1..];
      forall y | y in Inserted(s[1..], x) ensures Before(s[0], y) {
      }
    }
  }

  // What the bytes do to an edit, and whether all of them are records.
  function Decoded(e: Edit, s: Bytes): (Edit, bool)
    decreases |s|
  {
    var tag := Get32(s);
    if tag.None? then (e, s == []) else
    var first := Fields(tag.value.0, tag.value.1);
    if first.None? then (e, false) else Decoded(Applied(e, first.value.0), first.value.1)
  }

  // Everything is cleared but the compaction pointers.
  function Cleared(e: Edit): Edit {
    Edit(None, None, None, None, None, e.compactPointers, [], [])
  }

  // ---- One record -------------------------------------------------------------------------------------------------

  // A level is below seven, and an internal key is not empty.
  predicate Readable(r: Record) {
    match r
    case CompactPointer(level, key) => level < NUM_LEVELS && key != []
    case DeletedFile(level, _) => level < NUM_LEVELS
    case NewFile(level, f) => level < NUM_LEVELS && f.smallest != [] && f.largest != []
    case _ => true
  }

  function TagOf(r: Record): Uint32 {
    match r
    case ComparatorName(_) => COMPARATOR_TAG
    case LogNumber(_) => LOG_NUMBER_TAG
    case PrevLogNumber(_) => PREV_LOG_NUMBER_TAG
    case NextFileNumber(_) => NEXT_FILE_NUMBER_TAG
    case LastSequence(_) => LAST_SEQUENCE_TAG
    case CompactPointer(_, _) => COMPACT_POINTER_TAG
    case DeletedFile(_, _) => DELETED_FILE_TAG
    case NewFile(_, _) => NEW_FILE_TAG
  }

  lemma FileFieldsBack(level: Uint32, f: FileMetaData, rest: Bytes)
    requires Fits(NewFile(level, f))
    ensures
      var bytes := Varint(f.number) + (Varint(f.fileSize) + (Prefixed(f.smallest) + Prefixed(f.largest)));
      FileFields(level, bytes + rest)
        == if f.smallest != [] && f.largest != [] then Some((NewFile(level, f), rest)) else None
  {
    hide Get64, Unprefixed, Prefixed, Varint;
    var d := Prefixed(f.largest);
    var c := Prefixed(f.smallest) + d;
    var b := Varint(f.fileSize) + c;
    Assoc(Varint(f.number), b, rest);
    Assoc(Varint(f.fileSize), c, rest);
    Assoc(Prefixed(f.smallest), d, rest);
    Get64Back(f.number, b + rest);
    Get64Back(f.fileSize, c + rest);
    UnprefixedPrefixed(f.smallest, d + rest);
    UnprefixedPrefixed(f.largest, rest);
  }

  lemma FieldsBack(r: Record, body: Bytes, rest: Bytes)
    requires Fits(r) && RecordBytes(r) == Varint(TagOf(r)) + body
    ensures Fields(TagOf(r), body + rest) == if Readable(r) then Some((r, rest)) else None
  {
    hide Get32, Get64, Unprefixed, Prefixed, Varint, FileFields;
    SameTail(Varint(TagOf(r)), body, RecordBytes(r));
    match r
    case ComparatorName(name) =>
      SameTail(Varint(TagOf(r)), Prefixed(name), RecordBytes(r));
      UnprefixedPrefixed(name, rest);
    case LogNumber(n) =>
      SameTail(Varint(TagOf(r)), Varint(n), RecordBytes(r));
      Get64Back(n, rest);
    case PrevLogNumber(n) =>
      SameTail(Varint(TagOf(r)), Varint(n), RecordBytes(r));
      Get64Back(n, rest);
    case NextFileNumber(n) =>
      SameTail(Varint(TagOf(r)), Varint(n), RecordBytes(r));
      Get64Back(n, rest);
    case LastSequence(n) =>
      SameTail(Varint(TagOf(r)), Varint(n), RecordBytes(r));
      Get64Back(n, rest);
    case CompactPointer(level, key) =>
      SameTail(Varint(TagOf(r)), Varint(level) + Prefixed(key), RecordBytes(r));
      Assoc(Varint(level), Prefixed(key), rest);
      Get32Back(level, Prefixed(key) + rest);
      UnprefixedPrefixed(key, rest);
    case DeletedFile(level, n) =>
      SameTail(Varint(TagOf(r)), Varint(level) + Varint(n), RecordBytes(r));
      Assoc(Varint(level), Varint(n), rest);
      Get32Back(level, Varint(n) + rest);
      Get64Back(n, rest);
    case NewFile(level, f) =>
      var file := Varint(f.number) + (Varint(f.fileSize) + (Prefixed(f.smallest) + Prefixed(f.largest)));
      SameTail(Varint(TagOf(r)), Varint(level) + file, RecordBytes(r));
      Assoc(Varint(level), file, rest);
      Get32Back(level, file + rest);
      FileFieldsBack(level, f, rest);
  }

  lemma SameTail<T>(a: seq<T>, b: seq<T>, whole: seq<T>)
    requires whole == a + b
    ensures b == whole[|a|..]
  {
  }

  lemma StepBack(e: Edit, r: Record, rest: Bytes)
    requires Fits(r)
    ensures Decoded(e, RecordBytes(r) + rest) == if Readable(r) then Decoded(Applied(e, r), rest) else (e, false)
  {
    hide Get32, Fields, Varint, Prefixed;
    var body := RecordBytes(r)[|Varint(TagOf(r))|..];
    assert RecordBytes(r) == Varint(TagOf(r)) + body;
    FieldsBack(r, body, rest);
    Assoc(Varint(TagOf(r)), body, rest);
    Get32Back(TagOf(r), body + rest);
  }

  // ---- A whole edit -------------------------------------------------------------------------------------------------

  function AppliedAll(e: Edit, rs: seq<Record>): Edit
    decreases |rs|
  {
    if rs == [] then e else AppliedAll(Applied(e, rs[0]), rs[1..])
  }

  ghost predicate AllReadable(rs: seq<Record>) {
    forall i :: 0 <= i < |rs| ==> Readable(rs[i])
  }

  lemma {:induction false} DecodedRecords(e: Edit, rs: seq<Record>)
    requires AllFit(rs)
    ensures Decoded(e, AllBytes(rs)).1 <==> AllReadable(rs)
    ensures AllReadable(rs) ==> Decoded(e, AllBytes(rs)).0 == AppliedAll(e, rs)
    decreases |rs|
  {
    hide RecordBytes, Applied, Readable, Fits;
    if rs == [] {
      assert Get32([]).None?;
    } else {
      hide Decoded;
      StepBack(e, rs[0], AllBytes(rs[1..]));
      DecodedRecords(Applied(e, rs[0]), rs[1..]);
      assert AllReadable(rs) <==> Readable(rs[0]) && AllReadable(rs[1..]) by {
        if Readable(rs[0]) && AllReadable(rs[1..]) {
          forall i | 0 <= i < |rs| ensures Readable(rs[i]) {
            if i > 0 {
              assert rs[i] == rs[1..][i - 1];
            }
          }
        }
      }
    }
  }

  function NameRecords(name: Option<Bytes>): seq<Record> {
    if name.None? then [] else [ComparatorName(name.value)]
  }

  function NumberRecords(tag: Uint32, n: Option<Uint64>): seq<Record> {
    if n.None? then [] else [NumberRecord(tag, n.value)]
  }

  function HeadRecords(e: Edit): seq<Record> {
    NameRecords(e.comparator)
    + NumberRecords(LOG_NUMBER_TAG, e.logNumber)
    + NumberRecords(PREV_LOG_NUMBER_TAG, e.prevLogNumber)
    + NumberRecords(NEXT_FILE_NUMBER_TAG, e.nextFileNumber)
    + NumberRecords(LAST_SEQUENCE_TAG, e.lastSequence)
  }

  function PointerRecords(ps: seq<(Uint32, Bytes)>): seq<Record> {
    seq(|ps|, i requires 0 <= i < |ps| => CompactPointer(ps[i].0, ps[i].1))
  }

  function DeletedRecords(ds: seq<(Uint32, Uint64)>): seq<Record> {
    seq(|ds|, i requires 0 <= i < |ds| => DeletedFile(ds[i].0, ds[i].1))
  }

  function NewRecords(fs: seq<(Uint32, FileMetaData)>): seq<Record> {
    seq(|fs|, i requires 0 <= i < |fs| => NewFile(fs[i].0, fs[i].1))
  }

  function RecordsOf(e: Edit): seq<Record> {
    HeadRecords(e) + PointerRecords(e.compactPointers) + DeletedRecords(e.deletedFiles) + NewRecords(e.newFiles)
  }

  // An edit whose slices have 32-bit lengths and whose deleted files form a set.
  ghost predicate Encodable(e: Edit) {
    AllFit(RecordsOf(e)) && Ascending(e.deletedFiles)
  }

  predicate PointerOk(p: (Uint32, Bytes)) {
    p.0 < NUM_LEVELS && p.1 != []
  }

  predicate FileOk(f: (Uint32, FileMetaData)) {
    f.0 < NUM_LEVELS && f.1.smallest != [] && f.1.largest != []
  }

  // Levels below seven, and no empty internal key.
  ghost predicate WellFormed(e: Edit) {
    && (forall p <- e.compactPointers :: PointerOk(p))
    && (forall d <- e.deletedFiles :: d.0 < NUM_LEVELS)
    && (forall f <- e.newFiles :: FileOk(f))
  }

  lemma PointersReadable(ps: seq<(Uint32, Bytes)>)
    ensures AllReadable(PointerRecords(ps)) <==> forall p <- ps :: PointerOk(p)
  {
    if AllReadable(PointerRecords(ps)) {
      forall i | 0 <= i < |ps| ensures PointerOk(ps[i]) {
        assert Readable(PointerRecords(ps)[i]);
      }
    } else {
      var i :| 0 <= i < |ps| && !Readable(PointerRecords(ps)[i]);
      assert ps[i] in ps && !PointerOk(ps[i]);
    }
  }

  lemma DeletedReadable(ds: seq<(Uint32, Uint64)>)
    ensures AllReadable(DeletedRecords(ds)) <==> forall d <- ds :: d.0 < NUM_LEVELS
  {
    if AllReadable(DeletedRecords(ds)) {
      forall i | 0 <= i < |ds| ensures ds[i].0 < NUM_LEVELS {
        assert Readable(DeletedRecords(ds)[i]);
      }
    } else {
      var i :| 0 <= i < |ds| && !Readable(DeletedRecords(ds)[i]);
      assert ds[i] in ds && ds[i].0 >= NUM_LEVELS;
    }
  }

  lemma NewReadable(fs: seq<(Uint32, FileMetaData)>)
    ensures AllReadable(NewRecords(fs)) <==> forall f <- fs :: FileOk(f)
  {
    if AllReadable(NewRecords(fs)) {
      forall i | 0 <= i < |fs| ensures FileOk(fs[i]) {
        assert Readable(NewRecords(fs)[i]);
      }
    } else {
      var i :| 0 <= i < |fs| && !Readable(NewRecords(fs)[i]);
      assert fs[i] in fs && !FileOk(fs[i]);
    }
  }

  lemma ReadableConcat(a: seq<Record>, b: seq<Record>)
    ensures AllReadable(a + b) <==> AllReadable(a) && AllReadable(b)
  {
    hide Readable;
    if AllReadable(a + b) {
      forall i | 0 <= i < |a| ensures Readable(a[i]) {
        assert a[i] == (a + b)[i];
      }
      forall i | 0 <= i < |b| ensures Readable(b[i]) {
        assert b[i] == (a + b)[|a| + i];
      }
    }
  }

  lemma WellFormedIsReadable(e: Edit)
    ensures WellFormed(e) <==> AllReadable(RecordsOf(e))
  {
    var p, d, n := PointerRecords(e.compactPointers), DeletedRecords(e.deletedFiles), NewRecords(e.newFiles);
    ReadableConcat(HeadRecords(e) + p + d, n);
    ReadableConcat(HeadRecords(e) + p, d);
    ReadableConcat(HeadRecords(e), p);
    HeadIsReadable(e);
    PointersReadable(e.compactPointers);
    DeletedReadable(e.deletedFiles);
    NewReadable(e.newFiles);
  }

  lemma HeadIsReadable(e: Edit)
    ensures AllReadable(HeadRecords(e))
  {
  }

  lemma {:induction false} AppliedConcat(e: Edit, a: seq<Record>, b: seq<Record>)
    ensures AppliedAll(e, a + b) == AppliedAll(AppliedAll(e, a), b)
    decreases |a|
  {
    hide Applied;
    if a == [] {
      assert a + b == b;
    } else {
      assert (a + b)[1..] == a[1..] + b;
      AppliedConcat(Applied(e, a[0]), a[1..], b);
    }
  }

  lemma AppliedOne(e: Edit, r: Record)
    ensures AppliedAll(e, [r]) == Applied(e, r)
  {
    assert [r][1..] == [];
  }

  lemma HeadBack(x: Edit, e: Edit)
    ensures AppliedAll(Cleared(x), HeadRecords(e))
      == e.(compactPointers := x.compactPointers, deletedFiles := [], newFiles := [])
  {
    var a := NameRecords(e.comparator);
    var b := NumberRecords(LOG_NUMBER_TAG, e.logNumber);
    var c := NumberRecords(PREV_LOG_NUMBER_TAG, e.prevLogNumber);
    var d := NumberRecords(NEXT_FILE_NUMBER_TAG, e.nextFileNumber);
    var f := NumberRecords(LAST_SEQUENCE_TAG, e.lastSequence);
    var e0 := Cleared(x);
    var e1 := AppliedAll(e0, a);
    var e2 := AppliedAll(e1, b);
    var e3 := AppliedAll(e2, c);
    var e4 := AppliedAll(e3, d);
    AppliedConcat(e0, a + b + c + d, f);
    AppliedConcat(e0, a + b + c, d);
    AppliedConcat(e0, a + b, c);
    AppliedConcat(e0, a, b);
    if e.comparator.Some? { AppliedOne(e0, a[0]); }
    if e.logNumber.Some? { AppliedOne(e1, b[0]); }
    if e.prevLogNumber.Some? { AppliedOne(e2, c[0]); }
    if e.nextFileNumber.Some? { AppliedOne(e3, d[0]); }
    if e.lastSequence.Some? { AppliedOne(e4, f[0]); }
  }

  lemma {:induction false} PointersBack(e: Edit, ps: seq<(Uint32, Bytes)>)
    ensures AppliedAll(e, PointerRecords(ps)) == e.(compactPointers := e.compactPointers + ps)
    decreases |ps|
  {
    if ps == [] {
      assert e.compactPointers + ps == e.compactPointers;
    } else {
      var next := Applied(e, CompactPointer(ps[0].0, ps[0].1));
      assert PointerRecords(ps)[1..] == PointerRecords(ps[1..]);
      PointersBack(next, ps[1..]);
      assert e.compactPointers + [ps[0]] + ps[1..] == e.compactPointers + ps;
    }
  }

  lemma {:induction false} InsertedAtEnd(s: seq<(Uint32, Uint64)>, x: (Uint32, Uint64))
    requires Ascending(s + [x])
    ensures Inserted(s, x) == s + [x]
  {
    if s != [] {
      assert (s + [x])[0] == s[0] && (s + [x])[|s|] == x;
      assert (s + [x])[1..] == s[1..] + [x];
      InsertedAtEnd(s[1..], x);
    }
  }

  lemma {:induction false} DeletedBack(e: Edit, ds: seq<(Uint32, Uint64)>)
    requires Ascending(e.deletedFiles + ds)
    ensures AppliedAll(e, DeletedRecords(ds)) == e.(deletedFiles := e.deletedFiles + ds)
    decreases |ds|
  {
    if ds == [] {
      assert e.deletedFiles + ds == e.deletedFiles;
    } else {
      var all := e.deletedFiles + ds;
      assert e.deletedFiles + [ds[0]] == all[..|e.deletedFiles| + 1];
      InsertedAtEnd(e.deletedFiles, ds[0]);
      var next := Applied(e, DeletedFile(ds[0].0, ds[0].1));
      assert DeletedRecords(ds)[1..] == DeletedRecords(ds[1..]);
      assert next.deletedFiles + ds[1..] == all;
      DeletedBack(next, ds[1..]);
    }
  }

  lemma {:induction false} NewBack(e: Edit, fs: seq<(Uint32, FileMetaData)>)
    ensures AppliedAll(e, NewRecords(fs)) == e.(newFiles := e.newFiles + fs)
    decreases |fs|
  {
    if fs == [] {
      assert e.newFiles + fs == e.newFiles;
    } else {
      var next := Applied(e, NewFile(fs[0].0, fs[0].1));
      assert NewRecords(fs)[1..] == NewRecords(fs[1..]);
      NewBack(next, fs[1..]);
      assert e.newFiles + [fs[0]] + fs[1..] == e.newFiles + fs;
    }
  }

  lemma RecordsBack(x: Edit, e: Edit)
    requires Ascending(e.deletedFiles)
    ensures AppliedAll(Cleared(x), RecordsOf(e)) == e.(compactPointers := x.compactPointers + e.compactPointers)
  {
    var h, p := HeadRecords(e), PointerRecords(e.compactPointers);
    var d, n := DeletedRecords(e.deletedFiles), NewRecords(e.newFiles);
    hide AppliedAll, HeadRecords, PointerRecords, DeletedRecords, NewRecords, Cleared;
    var e0 := Cleared(x);
    AppliedConcat(e0, h + p + d, n);
    AppliedConcat(e0, h + p, d);
    AppliedConcat(e0, h, p);
    HeadBack(x, e);
    var e1 := AppliedAll(e0, h);
    PointersBack(e1, e.compactPointers);
    var e2 := AppliedAll(e1, p);
    assert e2.deletedFiles + e.deletedFiles == e.deletedFiles;
    DeletedBack(e2, e.deletedFiles);
    var e3 := AppliedAll(e2, d);
    assert e3.newFiles + e.newFiles == e.newFiles;
    NewBack(e3, e.newFiles);
  }

  /**
   * Reading an edit back succeeds exactly if its levels and keys are in order, and then gives the edit again,
   * but with its compaction pointers after those that were already there: clearing leaves them.
   */
  lemma EditReadsBack(x: Edit, e: Edit)
    requires Encodable(e)
    ensures
      var r := Decoded(Cleared(x), AllBytes(RecordsOf(e)));
      && (r.1 <==> WellFormed(e))
      && (r.1 ==> r.0 == e.(compactPointers := x.compactPointers + e.compactPointers))
  {
    hide Decoded, AllBytes, AppliedAll, RecordsOf, Cleared;
    DecodedRecords(Cleared(x), RecordsOf(e));
    WellFormedIsReadable(e);
    RecordsBack(x, e);
  }

  // ---- Any bytes -------------------------------------------------------------------------------------------------

  // An edit within what the records can say.
  ghost predicate InRange(e: Edit) {
    && WellFormed(e) && Ascending(e.deletedFiles)
    && (e.comparator.Some? ==> |e.comparator.value| < WORD32)
    && (forall i :: 0 <= i < |e.compactPointers| ==> |e.compactPointers[i].1| < WORD32)
    && forall i :: 0 <= i < |e.newFiles| ==>
         |e.newFiles[i].1.smallest| < WORD32 && |e.newFiles[i].1.largest| < WORD32
  }

  lemma SliceFits(s: Bytes)
    ensures Unprefixed(s).Some? ==> |Unprefixed(s).value.0| < WORD32
  {
  }

  lemma FieldsAreReadable(tag: Uint32, s: Bytes)
    ensures Fields(tag, s).Some? ==>
      var r := Fields(tag, s).value.0; Readable(r) && Fits(r) && TagOf(r) == tag
  {
    hide Unprefixed, Get32, Get64;
    SliceFits(s);
    var level := GetLevel(s);
    if level.Some? {
      SliceFits(level.value.1);
      var number := Get64(level.value.1);
      if number.Some? {
        var size := Get64(number.value.1);
        if size.Some? {
          SliceFits(size.value.1);
          var smallest := GetInternalKey(size.value.1);
          if smallest.Some? {
            SliceFits(smallest.value.1);
          }
        }
      }
    }
  }

  lemma AppliedInRange(e: Edit, r: Record)
    requires InRange(e) && Readable(r) && Fits(r)
    ensures InRange(Applied(e, r))
  {
    if r.DeletedFile? {
      InsertedIsSet(e.deletedFiles, (r.level, r.n));
    }
  }

  lemma {:induction false} DecodedInRange(e: Edit, s: Bytes)
    requires InRange(e)
    ensures InRange(Decoded(e, s).0)
    decreases |s|
  {
    hide InRange, Fields, Applied, Get32, Readable, Fits;
    var tag := Get32(s);
    if tag.Some? {
      var first := Fields(tag.value.0, tag.value.1);
      if first.Some? {
        FieldsAreReadable(tag.value.0, tag.value.1);
        AppliedInRange(e, first.value.0);
        DecodedInRange(Applied(e, first.value.0), first.value.1);
      }
    }
  }

  lemma FitConcat(a: seq<Record>, b: seq<Record>)
    requires AllFit(a) && AllFit(b)
    ensures AllFit(a + b)
  {
    hide Fits;
  }

  lemma InRangeIsEncodable(e: Edit)
    requires InRange(e)
    ensures Encodable(e)
  {
    assert AllFit(NameRecords(e.comparator));
    assert AllFit(NumberRecords(LOG_NUMBER_TAG, e.logNumber)) && AllFit(NumberRecords(PREV_LOG_NUMBER_TAG, e.prevLogNumber));
    assert AllFit(NumberRecords(NEXT_FILE_NUMBER_TAG, e.nextFileNumber));
    assert AllFit(NumberRecords(LAST_SEQUENCE_TAG, e.lastSequence));
    assert AllFit(PointerRecords(e.compactPointers)) && AllFit(DeletedRecords(e.deletedFiles));
    assert AllFit(NewRecords(e.newFiles));
    hide AllFit;
    FitConcat(NameRecords(e.comparator), NumberRecords(LOG_NUMBER_TAG, e.logNumber));
    FitConcat(NameRecords(e.comparator) + NumberRecords(LOG_NUMBER_TAG, e.logNumber),
              NumberRecords(PREV_LOG_NUMBER_TAG, e.prevLogNumber));
    FitConcat(NameRecords(e.comparator) + NumberRecords(LOG_NUMBER_TAG, e.logNumber)
              + NumberRecords(PREV_LOG_NUMBER_TAG, e.prevLogNumber), NumberRecords(NEXT_FILE_NUMBER_TAG, e.nextFileNumber));
    FitConcat(NameRecords(e.comparator) + NumberRecords(LOG_NUMBER_TAG, e.logNumber)
              + NumberRecords(PREV_LOG_NUMBER_TAG, e.prevLogNumber)
              + NumberRecords(NEXT_FILE_NUMBER_TAG, e.nextFileNumber), NumberRecords(LAST_SEQUENCE_TAG, e.lastSequence));
    FitConcat(HeadRecords(e), PointerRecords(e.compactPointers));
    FitConcat(HeadRecords(e) + PointerRecords(e.compactPointers), DeletedRecords(e.deletedFiles));
    FitConcat(HeadRecords(e) + PointerRecords(e.compactPointers) + DeletedRecords(e.deletedFiles),
              NewRecords(e.newFiles));
  }

  // Whatever the bytes are, what has been read of them can be written, and reads back as it is.
  lemma DecodedReadsBack(s: Bytes)
    ensures
      var nothing := Edit(None, None, None, None, None, [], [], []);
      var e := Decoded(nothing, s).0;
      && WellFormed(e) && Encodable(e)
      && Decoded(nothing, AllBytes(RecordsOf(e))) == (e, true)
  {
    var nothing := Edit(None, None, None, None, None, [], [], []);
    var e := Decoded(nothing, s).0;
    DecodedInRange(nothing, s);
    InRangeIsEncodable(e);
    EditReadsBack(nothing, e);
    hide Decoded, AllBytes, RecordsOf, Encodable;
    assert Cleared(nothing) == nothing && [] + e.compactPointers == e.compactPointers;
  }

  // ---- The methods ----------------------------------------------------------------------------------------------------

  method PutVarint32(dst: Bytes, v: Uint32) returns (r: Bytes)
    ensures r == dst + Varint(v)
  {
    var b := EncodeVarint32(v);
    r := dst + b;
  }

  method PutVarint64(dst: Bytes, v: Uint64) returns (r: Bytes)
    ensures r == dst + Varint(v)
  {
    var b := EncodeVarint64(v);
    r := dst + b;
  }

  method PutSlice(dst: Bytes, s: Bytes) returns (r: Bytes)
    requires |s| < WORD32
    ensures r == dst + Prefixed(s)
  {
    var b := PutLengthPrefixedSlice(s);
    r := dst + b;
  }

  // Append one record.
  method PutRecord(dst: Bytes, r: Record) returns (out: Bytes)
    requires Fits(r)
    ensures out == dst + RecordBytes(r)
  {
    hide Varint, Prefixed;
    out := PutVarint32(dst, TagOf(r));
    match r
    case ComparatorName(name) =>
      out := PutSlice(out, name);
      Assoc(dst, Varint(COMPARATOR_TAG), Prefixed(name));
    case LogNumber(n) =>
      out := PutVarint64(out, n);
      Assoc(dst, Varint(LOG_NUMBER_TAG), Varint(n));
    case PrevLogNumber(n) =>
      out := PutVarint64(out, n);
      Assoc(dst, Varint(PREV_LOG_NUMBER_TAG), Varint(n));
    case NextFileNumber(n) =>
      out := PutVarint64(out, n);
      Assoc(dst, Varint(NEXT_FILE_NUMBER_TAG), Varint(n));
    case LastSequence(n) =>
      out := PutVarint64(out, n);
      Assoc(dst, Varint(LAST_SEQUENCE_TAG), Varint(n));
    case CompactPointer(level, key) =>
      out := PutVarint32(out, level);
      out := PutSlice(out, key);
      Join3(dst, Varint(COMPACT_POINTER_TAG), Varint(level), Prefixed(key));
    case DeletedFile(level, n) =>
      out := PutVarint32(out, level);
      out := PutVarint64(out, n);
      Join3(dst, Varint(DELETED_FILE_TAG), Varint(level), Varint(n));
    case NewFile(level, f) =>
      out := PutVarint32(out, level);
      out := PutVarint64(out, f.number);
      out := PutVarint64(out, f.fileSize);
      out := PutSlice(out, f.smallest);
      out := PutSlice(out, f.largest);
      Join6(dst, Varint(NEW_FILE_TAG), Varint(level), Varint(f.number), Varint(f.fileSize),
            Prefixed(f.smallest), Prefixed(f.largest));
  }

  lemma Join3<T>(s: seq<T>, a: seq<T>, b: seq<T>, c: seq<T>)
    ensures s + a + b + c == s + (a + (b + c))
  {
  }

  lemma Join6<T>(s: seq<T>, a: seq<T>, b: seq<T>, c: seq<T>, d: seq<T>, e: seq<T>, f: seq<T>)
    ensures s + a + b + c + d + e + f == s + (a + (b + (c + (d + (e + f)))))
  {
    Assoc(s + a + b + c + d, e, f);
    Assoc(s + a + b + c, d, e + f);
    Join3(s, a, b, c);
    Assoc(s, a + (b + c), d + (e + f));
    Assoc(a, b + c, d + (e + f));
    Assoc(b, c, d + (e + f));
  }

  method TakeInternalKey(s: Bytes) returns (r: Option<(Bytes, Bytes)>)
    ensures r == GetInternalKey(s)
  {
    r := GetLengthPrefixedSlice(s);
    if r.Some? && r.value.0 == [] {
      r := None;
    }
  }

  method TakeFile(level: Uint32, s: Bytes) returns (r: Option<(Record, Bytes)>)
    ensures r == FileFields(level, s)
  {
    hide Get, Unprefixed;
    var number := GetVarint(s, 10, WORD64);
    if number.None? {
      return None;
    }
    var size := GetVarint(number.value.1, 10, WORD64);
    if size.None? {
      return None;
    }
    var smallest := TakeInternalKey(size.value.1);
    if smallest.None? {
      return None;
    }
    var largest := TakeInternalKey(smallest.value.1);
    if largest.None? {
      return None;
    }
    var f := FileMetaData(number.value.0, size.value.0, smallest.value.0, largest.value.0);
    r := Some((NewFile(level, f), largest.value.1));
  }

  method TakeFields(tag: Uint32, s: Bytes) returns (r: Option<(Record, Bytes)>)
    ensures r == Fields(tag, s)
  {
    hide Get, Unprefixed, FileFields;
    if tag == COMPARATOR_TAG {
      var name := GetLengthPrefixedSlice(s);
      r := if name.None? then None else Some((ComparatorName(name.value.0), name.value.1));
    } else if tag in {LOG_NUMBER_TAG, PREV_LOG_NUMBER_TAG, NEXT_FILE_NUMBER_TAG, LAST_SEQUENCE_TAG} {
      var n := GetVarint(s, 10, WORD64);
      r := if n.None? then None else Some((NumberRecord(tag, n.value.0), n.value.1));
    } else if tag in {COMPACT_POINTER_TAG, DELETED_FILE_TAG, NEW_FILE_TAG} {
      var level := GetVarint(s, 5, WORD32);
      if level.None? || level.value.0 >= NUM_LEVELS {
        return None;
      }
      if tag == COMPACT_POINTER_TAG {
        var key := TakeInternalKey(level.value.1);
        r := if key.None? then None else Some((CompactPointer(level.value.0, key.value.0), key.value.1));
      } else if tag == DELETED_FILE_TAG {
        var n := GetVarint(level.value.1, 10, WORD64);
        r := if n.None? then None else Some((DeletedFile(level.value.0, n.value.0), n.value.1));
      } else {
        r := TakeFile(level.value.0, level.value.1);
      }
    } else {
      r := None;
    }
  }

  class VersionEdit {
    var comparator: Option<Bytes>
    var logNumber: Option<Uint64>
    var prevLogNumber: Option<Uint64>
    var nextFileNumber: Option<Uint64>
    var lastSequence: Option<Uint64>
    var compactPointers: seq<(Uint32, Bytes)>
    var deletedFiles: seq<(Uint32, Uint64)>
    var newFiles: seq<(Uint32, FileMetaData)>

    function Contents(): Edit
      reads this
    {
      Edit(comparator, logNumber, prevLogNumber, nextFileNumber, lastSequence, compactPointers, deletedFiles, newFiles)
    }

    constructor ()
      ensures Contents() == Edit(None, None, None, None, None, [], [], [])
    {
      comparator, logNumber, prevLogNumber, nextFileNumber, lastSequence := None, None, None, None, None;
      compactPointers, deletedFiles, newFiles := [], [], [];
    }

    method Clear()
      modifies this
      ensures Contents() == Cleared(old(Contents()))
    {
      comparator, logNumber, prevLogNumber, nextFileNumber, lastSequence := None, None, None, None, None;
      deletedFiles, newFiles := [], [];
    }

    // One setter for each kind of record.
    method Set(r: Record)
      modifies this
      ensures Contents() == Applied(old(Contents()), r)
      ensures Ascending(old(deletedFiles)) ==> Ascending(deletedFiles)
    {
      match r
      case ComparatorName(name) => comparator := Some(name);
      case LogNumber(n) => logNumber := Some(n);
      case PrevLogNumber(n) => prevLogNumber := Some(n);
      case NextFileNumber(n) => nextFileNumber := Some(n);
      case LastSequence(n) => lastSequence := Some(n);
      case CompactPointer(level, key) => compactPointers := compactPointers + [(level, key)];
      case DeletedFile(level, n) =>
        if Ascending(deletedFiles) {
          InsertedIsSet(deletedFiles, (level, n));
        }
        deletedFiles := Inserted(deletedFiles, (level, n));
      case NewFile(level, f) => newFiles := newFiles + [(level, f)];
    }

    method EncodeTo() returns (dst: Bytes)
      requires Encodable(Contents())
      ensures dst == AllBytes(RecordsOf(Contents()))
    {
      ghost var h, p := HeadRecords(Contents()), PointerRecords(compactPointers);
      ghost var d, n := DeletedRecords(deletedFiles), NewRecords(newFiles);
      FitSplit(h + p + d, n);
      FitSplit(h + p, d);
      FitSplit(h, p);
      hide AllFit, AllBytes, HeadRecords, PointerRecords, DeletedRecords, NewRecords;
      dst := PutHead();
      dst := PutPointers(dst, h);
      dst := PutDeleted(dst, h + p);
      dst := PutNew(dst, h + p + d);
    }

    method PutPointers(dst0: Bytes, ghost done: seq<Record>) returns (dst: Bytes)
      requires AllFit(done) && dst0 == AllBytes(done) && AllFit(PointerRecords(compactPointers))
      ensures AllFit(done + PointerRecords(compactPointers))
      ensures dst == AllBytes(done + PointerRecords(compactPointers))
    {
      hide AllBytes, Fits;
      dst := dst0;
      ghost var all := PointerRecords(compactPointers);
      assert done + all[..0] == done;
      for i := 0 to |compactPointers|
        invariant PutUpTo(dst, done, all, i)
      {
        dst := PutNext(dst, CompactPointer(compactPointers[i].0, compactPointers[i].1), done, all, i);
      }
      assert all[..|all|] == all;
    }

    method PutDeleted(dst0: Bytes, ghost done: seq<Record>) returns (dst: Bytes)
      requires AllFit(done) && dst0 == AllBytes(done) && AllFit(DeletedRecords(deletedFiles))
      ensures AllFit(done + DeletedRecords(deletedFiles))
      ensures dst == AllBytes(done + DeletedRecords(deletedFiles))
    {
      hide AllBytes, Fits;
      dst := dst0;
      ghost var all := DeletedRecords(deletedFiles);
      assert done + all[..0] == done;
      for i := 0 to |deletedFiles|
        invariant PutUpTo(dst, done, all, i)
      {
        dst := PutNext(dst, DeletedFile(deletedFiles[i].0, deletedFiles[i].1), done, all, i);
      }
      assert all[..|all|] == all;
    }

    method PutNew(dst0: Bytes, ghost done: seq<Record>) returns (dst: Bytes)
      requires AllFit(done) && dst0 == AllBytes(done) && AllFit(NewRecords(newFiles))
      ensures AllFit(done + NewRecords(newFiles))
      ensures dst == AllBytes(done + NewRecords(newFiles))
    {
      hide AllBytes, Fits;
      dst := dst0;
      ghost var all := NewRecords(newFiles);
      assert done + all[..0] == done;
      for i := 0 to |newFiles|
        invariant PutUpTo(dst, done, all, i)
      {
        dst := PutNext(dst, NewFile(newFiles[i].0, newFiles[i].1), done, all, i);
      }
      assert all[..|all|] == all;
    }

    method PutHead() returns (dst: Bytes)
      requires AllFit(HeadRecords(Contents()))
      ensures dst == AllBytes(HeadRecords(Contents()))
    {
      ghost var a := NameRecords(comparator);
      ghost var b := NumberRecords(LOG_NUMBER_TAG, logNumber);
      ghost var c := NumberRecords(PREV_LOG_NUMBER_TAG, prevLogNumber);
      ghost var d := NumberRecords(NEXT_FILE_NUMBER_TAG, nextFileNumber);
      ghost var f := NumberRecords(LAST_SEQUENCE_TAG, lastSequence);
      FitSplit(a + b + c + d, f);
      FitSplit(a + b + c, d);
      FitSplit(a + b, c);
      FitSplit(a, b);
      assert [] + a == a;
      assert AllFit([]) && AllBytes([]) == [];
      hide AllFit, AllBytes, NameRecords, NumberRecords;
      dst := PutName([], comparator, []);
      dst := PutNumber(dst, logNumber, LOG_NUMBER_TAG, a);
      dst := PutNumber(dst, prevLogNumber, PREV_LOG_NUMBER_TAG, a + b);
      dst := PutNumber(dst, nextFileNumber, NEXT_FILE_NUMBER_TAG, a + b + c);
      dst := PutNumber(dst, lastSequence, LAST_SEQUENCE_TAG, a + b + c + d);
    }

    // Read an edit; on bad bytes, what was read before them stays.
    method DecodeFrom(src: Bytes) returns (ok: bool)
      modifies this
      ensures (Contents(), ok) == Decoded(Cleared(old(Contents())), src)
    {
      hide Get, Fields, Applied;
      Clear();
      ghost var goal := Decoded(Contents(), src);
      var input := src;
      ok := true;
      var more := true;
      while ok && more
        invariant goal == if ok then Decoded(Contents(), input) else (Contents(), false)
        invariant !more ==> Get32(input).None?
        decreases ok, more, |input|
      {
        var tag := GetVarint(input, 5, WORD32);
        if tag.None? {
          more := false;
        } else {
          var first := TakeFields(tag.value.0, tag.value.1);
          if first.None? {
            ok := false;
          } else {
            Set(first.value.0);
            input := first.value.1;
          }
        }
      }
      if ok && input != [] {
        ok := false;
      }
    }
  }

  // The bytes of `done` and of the first `n` records of `all`.
  ghost predicate PutUpTo(dst: Bytes, done: seq<Record>, all: seq<Record>, n: nat) {
    && n <= |all| && AllFit(all)
    && AllFit(done + all[..n]) && dst == AllBytes(done + all[..n])
  }

  lemma FitSplit(a: seq<Record>, b: seq<Record>)
    requires AllFit(a + b)
    ensures AllFit(a) && AllFit(b)
  {
    hide Fits;
    forall i | 0 <= i < |a| ensures Fits(a[i]) {
      assert a[i] == (a + b)[i];
    }
    forall i | 0 <= i < |b| ensures Fits(b[i]) {
      assert b[i] == (a + b)[|a| + i];
    }
  }

  lemma {:induction false} BytesConcat(a: seq<Record>, b: seq<Record>)
    requires AllFit(a) && AllFit(b)
    ensures AllFit(a + b) && AllBytes(a + b) == AllBytes(a) + AllBytes(b)
  {
    hide RecordBytes, Fits;
    if a == [] {
      assert a + b == b;
    } else {
      assert (a + b)[0] == a[0] && (a + b)[1..] == a[1..] + b;
      BytesConcat(a[1..], b);
      Assoc(RecordBytes(a[0]), AllBytes(a[1..]), AllBytes(b));
    }
  }

  lemma BytesOfOne(r: Record)
    requires Fits(r)
    ensures AllFit([r]) && AllBytes([r]) == RecordBytes(r)
  {
    assert [r][1..] == [];
  }

  method PutMore(dst: Bytes, r: Record, ghost done: seq<Record>) returns (out: Bytes)
    requires AllFit(done) && dst == AllBytes(done) && Fits(r)
    ensures AllFit(done + [r]) && out == AllBytes(done + [r])
  {
    BytesOfOne(r);
    BytesConcat(done, [r]);
    out := PutRecord(dst, r);
  }

  method PutName(dst: Bytes, name: Option<Bytes>, ghost done: seq<Record>) returns (out: Bytes)
    requires AllFit(done) && dst == AllBytes(done) && AllFit(NameRecords(name))
    ensures AllFit(done + NameRecords(name)) && out == AllBytes(done + NameRecords(name))
  {
    hide AllBytes;
    out := dst;
    if name.Some? {
      assert NameRecords(name)[0] == ComparatorName(name.value);
      out := PutMore(dst, ComparatorName(name.value), done);
    } else {
      assert done + [] == done;
    }
  }

  method PutNumber(dst: Bytes, n: Option<Uint64>, tag: Uint32, ghost done: seq<Record>) returns (out: Bytes)
    requires AllFit(done) && dst == AllBytes(done)
    ensures AllFit(done + NumberRecords(tag, n)) && out == AllBytes(done + NumberRecords(tag, n))
  {
    hide AllBytes;
    out := dst;
    if n.Some? {
      out := PutMore(dst, NumberRecord(tag, n.value), done);
    } else {
      assert done + [] == done;
    }
  }

  method PutNext(dst: Bytes, r: Record, ghost done: seq<Record>, ghost all: seq<Record>, ghost n: nat)
    returns (out: Bytes)
    requires PutUpTo(dst, done, all, n) && n < |all| && r == all[n]
    ensures PutUpTo(out, done, all, n + 1)
  {
    hide Fits, AllBytes;
    assert all[..n + 1] == all[..n] + [r];
    Assoc(done, all[..n], [r]);
    out := PutMore(dst, r, done + all[..n]);
  }
}
