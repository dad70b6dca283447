/** Reading a log back, and what a reader sees of a log that was cut off anywhere. */
module LogReader {
  import opened DbFormat
  import opened Coding
  import opened LogFormat

  datatype PhysicalResult = Fragmented(kind: Byte, payload: Bytes) | BadRecord | Eof

  // The numbers that stand for the end of the file and for a bad record are not kept apart from record types.
  const EOF_TYPE: Byte := LAST + 1
  const BAD_TYPE: Byte := LAST + 2

  function ByType(kind: Byte, payload: Bytes): PhysicalResult {
    if kind == EOF_TYPE then Eof else if kind == BAD_TYPE then BadRecord else Fragmented(kind, payload)
  }

  // A result, the position after it, and how many corruptions were reported on the way.
  datatype Outcome<T> = Outcome(result: T, next: nat, reports: nat)

  function Available(file: Bytes, p: nat): nat
    requires p <= |file|
  {
    if |file| < BlockEnd(p) then |file| else BlockEnd(p)
  }

  // The physical record at position `p`, which is read within its block.
  function PhysicalAt(crc: Crc, checksum: bool, file: Bytes, p: nat): (r: Outcome<PhysicalResult>)
    requires p <= |file|
    ensures p <= r.next <= |file| && (!r.result.Eof? ==> p < r.next)
    decreases |file| - p
  {
    var end := Available(file, p);
    var atEof := |file| < BlockEnd(p);
    if end - p < HEADER then
      if atEof then Outcome(Eof, end, 0) else PhysicalAt(crc, checksum, file, end)
    else
      var length := file[p + 4] + 256 * file[p + 5] as nat;
      var kind := file[p + 6];
      if HEADER + length > end - p then
        if atEof then Outcome(Eof, end, 0) else Outcome(BadRecord, end, 1)
      else if kind == ZERO && length == 0 then Outcome(BadRecord, end, 0)
      else
        var payload := file[p + HEADER..p + HEADER + length];
        if checksum && crc.value([kind] + payload) != Unmask(Word32(file, p)) then Outcome(BadRecord, end, 1)
        else Outcome(ByType(kind, payload), p + HEADER + length, 0)
  }

  // The next logical record: whole, or put together from its fragments. `partial` holds what has been read of
  // a fragmented one.
  function RecordAt(crc: Crc, checksum: bool, file: Bytes, p: nat, partial: Option<Bytes>): (r: Outcome<Option<Bytes>>)
    requires p <= |file|
    ensures p <= r.next <= |file| && (r.result.Some? ==> p < r.next)
    decreases |file| - p
  {
    var physical := PhysicalAt(crc, checksum, file, p);
    var next, reports := physical.next, physical.reports;
    match physical.result
    case Eof => Outcome(None, next, reports)
    case BadRecord =>
      More(RecordAt(crc, checksum, file, next, None), reports + if partial.Some? then 1 else 0)
    case Fragmented(kind, payload) =>
      var lost := if partial.Some? && partial.value != [] then 1 else 0;
      if kind == FULL then Outcome(Some(payload), next, reports + lost)
      else if kind == FIRST then More(RecordAt(crc, checksum, file, next, Some(payload)), reports + lost)
      else if kind == MIDDLE && partial.Some? then
        More(RecordAt(crc, checksum, file, next, Some(partial.value + payload)), reports)
      else if kind == LAST && partial.Some? then Outcome(Some(partial.value + payload), next, reports)
      else if kind == MIDDLE || kind == LAST then More(RecordAt(crc, checksum, file, next, None), reports + 1)
      else More(RecordAt(crc, checksum, file, next, None), reports + 1)
  }

  function More<T>(r: Outcome<T>, reports: nat): Outcome<T> {
    r.(reports := r.reports + reports)
  }

  // ---- Only what is checked is returned -------------------------------------------------------------------------

  datatype Piece = Piece(at: nat, kind: Byte, payload: Bytes) {
    function End(): nat {
      at + HEADER + |payload|
    }
  }

  // A physical record lies at the place within one block, and its checksum is that of its kind and payload.
  ghost predicate CheckedAt(crc: Crc, checksum: bool, file: Bytes, piece: Piece) {
    var Piece(at, kind, payload) := piece;
    && piece.End() <= |file| && at % BLOCK + HEADER + |payload| <= BLOCK
    && file[at + 4] as nat + 256 * file[at + 5] as nat == |payload| && file[at + 6] == kind
    && file[at + HEADER..piece.End()] == payload
    && (checksum ==> crc.value([kind] + payload) == Unmask(Word32(file, at)))
  }

  lemma WithinBlock(at: nat, n: nat)
    ensures at % BLOCK + n <= BLOCK <==> at + n <= BlockEnd(at)
  {
  }

  lemma PaddingSkipped(crc: Crc, checksum: bool, file: Bytes, p: nat)
    requires p <= |file| && Start(p) <= |file|
    ensures PhysicalAt(crc, checksum, file, p) == PhysicalAt(crc, checksum, file, Start(p))
  {
    StartFits(p);
  }

  lemma CutPadding(crc: Crc, checksum: bool, file: Bytes, p: nat)
    requires p <= |file| < Start(p)
    ensures PhysicalAt(crc, checksum, file, p) == Outcome(Eof, |file|, 0)
  {
  }

  // A fragment that is read is one that was checked, and it stands right at the place of the next header.
  lemma FragmentIsChecked(crc: Crc, checksum: bool, file: Bytes, p: nat)
    requires p <= |file| && PhysicalAt(crc, checksum, file, p).result.Fragmented?
    ensures var o := PhysicalAt(crc, checksum, file, p);
      var piece := Piece(Start(p), o.result.kind, o.result.payload);
      CheckedAt(crc, checksum, file, piece) && o.next == piece.End() && o.reports == 0
      && piece.kind != EOF_TYPE && piece.kind != BAD_TYPE && !(piece.kind == ZERO && piece.payload == [])
  {
    if Start(p) > |file| {
      CutPadding(crc, checksum, file, p);
    } else {
      PaddingSkipped(crc, checksum, file, p);
      StartFits(p);
      var q := Start(p);
      assert Start(q) == q;
      var o := PhysicalAt(crc, checksum, file, q);
      WithinBlock(q, HEADER + |o.result.payload|);
      hide Start, BlockEnd, Word32, Unmask;
    }
  }

  // What is made of a physical record that lies within its block.
  lemma PhysicalHere(crc: Crc, checksum: bool, file: Bytes, piece: Piece)
    requires CheckedAt(crc, false, file, piece)
    ensures PhysicalAt(crc, checksum, file, piece.at)
      == if piece.kind == ZERO && piece.payload == [] then Outcome(BadRecord, Available(file, piece.at), 0)
         else if checksum && crc.value([piece.kind] + piece.payload) != Unmask(Word32(file, piece.at)) then
           Outcome(BadRecord, Available(file, piece.at), 1)
         else Outcome(ByType(piece.kind, piece.payload), piece.End(), 0)
  {
    WithinBlock(piece.at, HEADER + |piece.payload|);
    hide BlockEnd, Word32, Unmask;
  }

  // Conversely what is checked is read, unless it is an empty zero record or its type stands for something else.
  lemma CheckedIsRead(crc: Crc, checksum: bool, file: Bytes, p: nat, piece: Piece)
    requires p <= |file| && piece.at == Start(p) && CheckedAt(crc, checksum, file, piece)
    ensures PhysicalAt(crc, checksum, file, p)
      == if piece.kind == ZERO && piece.payload == [] then Outcome(BadRecord, Available(file, piece.at), 0)
         else Outcome(ByType(piece.kind, piece.payload), piece.End(), 0)
  {
    hide PhysicalAt, Start, Available, Word32, Unmask, ByType;
    PaddingSkipped(crc, checksum, file, p);
    PhysicalHere(crc, checksum, file, piece);
  }

  // A checksum that does not match gives no record: the rest of the block is dropped and reported.
  lemma DamageIsReported(crc: Crc, file: Bytes, p: nat, piece: Piece)
    requires p <= |file| && piece.at == Start(p) && CheckedAt(crc, false, file, piece)
    requires !(piece.kind == ZERO && piece.payload == [])
    requires crc.value([piece.kind] + piece.payload) != Unmask(Word32(file, piece.at))
    ensures PhysicalAt(crc, true, file, p) == Outcome(BadRecord, Available(file, piece.at), 1)
  {
    hide PhysicalAt, Start, Available, Word32, Unmask, ByType;
    PaddingSkipped(crc, true, file, p);
    PhysicalHere(crc, true, file, piece);
  }

  ghost function Payloads(pieces: seq<Piece>): Bytes {
    if pieces == [] then [] else pieces[0].payload + Payloads(pieces[1..])
  }

  // Checked fragments one behind the other from `p` on, to the end of a record that has begun.
  ghost predicate Continues(crc: Crc, checksum: bool, file: Bytes, p: nat, next: nat, pieces: seq<Piece>)
    decreases |pieces|
  {
    && pieces != []
    && var first := pieces[0];
    && first.at == Start(p) && CheckedAt(crc, checksum, file, first)
    && if |pieces| == 1 then first.kind == LAST && next == first.End()
       else first.kind == MIDDLE && Continues(crc, checksum, file, first.End(), next, pieces[1..])
  }

  // The fragments of one record: a whole one, or a first one, any number of middle ones and a last one.
  ghost predicate IsRecord(crc: Crc, checksum: bool, file: Bytes, next: nat, pieces: seq<Piece>) {
    && pieces != []
    && var first := pieces[0];
    && CheckedAt(crc, checksum, file, first)
    && if |pieces| == 1 then first.kind == FULL && next == first.End()
       else first.kind == FIRST && Continues(crc, checksum, file, first.End(), next, pieces[1..])
  }

  // Whatever the bytes are, a record that is read is put together from checked fragments.
  lemma {:induction false} RecordIsChecked(crc: Crc, checksum: bool, file: Bytes, p: nat, partial: Option<Bytes>)
    returns (pieces: seq<Piece>)
    requires p <= |file| && RecordAt(crc, checksum, file, p, partial).result.Some?
    ensures var o := RecordAt(crc, checksum, file, p, partial);
      || (IsRecord(crc, checksum, file, o.next, pieces) && p <= pieces[0].at && o.result.value == Payloads(pieces))
      || (partial.Some? && Continues(crc, checksum, file, p, o.next, pieces)
          && o.result.value == partial.value + Payloads(pieces))
    decreases |file| - p
  {
    var o := PhysicalAt(crc, checksum, file, p);
    hide PhysicalAt;
    if o.result.BadRecord? {
      pieces := RecordIsChecked(crc, checksum, file, o.next, None);
    } else {
      FragmentIsChecked(crc, checksum, file, p);
      var piece := Piece(Start(p), o.result.kind, o.result.payload);
      hide CheckedAt, Start;
      PayloadsFrom(piece, []);
      pieces := [piece];
      if piece.kind == FIRST {
        var more := RecordIsChecked(crc, checksum, file, o.next, Some(piece.payload));
        pieces := if IsRecord(crc, checksum, file, RecordAt(crc, checksum, file, p, partial).next, more)
          && o.next <= more[0].at && RecordAt(crc, checksum, file, p, partial).result.value == Payloads(more)
          then more else [piece] + more;
        PayloadsFrom(piece, more);
      } else if piece.kind == MIDDLE && partial.Some? {
        var more := RecordIsChecked(crc, checksum, file, o.next, Some(partial.value + piece.payload));
        pieces := if IsRecord(crc, checksum, file, RecordAt(crc, checksum, file, p, partial).next, more)
          && o.next <= more[0].at && RecordAt(crc, checksum, file, p, partial).result.value == Payloads(more)
          then more else [piece] + more;
        PayloadsFrom(piece, more);
        Assoc(partial.value, piece.payload, Payloads(more));
      } else if piece.kind != FULL && piece.kind != LAST {
        pieces := RecordIsChecked(crc, checksum, file, o.next, None);
      } else if piece.kind == LAST && partial.None? {
        pieces := RecordIsChecked(crc, checksum, file, o.next, None);
      }
    }
  }

  // The record that ends at `next` is put together from checked fragments at or behind `p`.
  ghost predicate Checked(crc: Crc, checksum: bool, file: Bytes, p: nat, next: nat, data: Bytes) {
    exists pieces: seq<Piece> :: IsRecord(crc, checksum, file, next, pieces) && p <= pieces[0].at && data == Payloads(pieces)
  }

  // The same of what `Reader.ReadRecord` returns.
  lemma RecordsAreChecked(crc: Crc, checksum: bool, file: Bytes, p: nat)
    requires p <= |file|
    ensures var o := RecordAt(crc, checksum, file, p, None);
      o.result.Some? ==> Checked(crc, checksum, file, p, o.next, o.result.value)
  {
    if RecordAt(crc, checksum, file, p, None).result.Some? {
      var pieces := RecordIsChecked(crc, checksum, file, p, None);
      hide IsRecord, RecordAt, Payloads;
    }
  }

  lemma PayloadsFrom(piece: Piece, more: seq<Piece>)
    ensures Payloads([piece] + more) == piece.payload + Payloads(more)
    ensures ([piece] + more)[1..] == more && [piece] + [] == [piece] && piece.payload + [] == piece.payload
  {
  }

  // A checked fragment of the type that stands for the end of the file ends the reading without a report, whatever
  // comes behind it.
  lemma TypeEndsLog(crc: Crc, checksum: bool, file: Bytes, p: nat, piece: Piece, partial: Option<Bytes>)
    requires p <= |file| && piece.at == Start(p) && CheckedAt(crc, checksum, file, piece) && piece.kind == EOF_TYPE
    ensures RecordAt(crc, checksum, file, p, partial) == Outcome(None, piece.End(), 0)
  {
    CheckedIsRead(crc, checksum, file, p, piece);
  }

  class Reader {
    const crc: Crc
    const checksum: bool
    const file: Bytes
    var filePos: nat
    var buffer: Bytes
    var eof: bool
    var reports: nat

    constructor (crc: Crc, checksum: bool, file: Bytes)
      ensures this.crc == crc && this.checksum == checksum && this.file == file
      ensures Valid() && Position() == 0 && reports == 0
    {
      this.crc, this.checksum, this.file := crc, checksum, file;
      filePos, buffer, eof, reports := 0, [], false, 0;
    }

    // The buffer holds what is left of the block read last.
    ghost predicate Valid()
      reads `filePos, `buffer, `eof
      ensures Valid() ==> |buffer| <= filePos <= |file|
    {
      && filePos <= |file| && |buffer| <= filePos && buffer == file[filePos - |buffer|..filePos]
      && (!eof ==> filePos % BLOCK == 0 && (buffer != [] ==> filePos == BlockEnd(Position())))
      && (eof ==> filePos == |file| < BlockEnd(Position()))
    }

    ghost function Position(): (p: nat)
      requires |buffer| <= filePos
      reads `filePos, `buffer
    {
      filePos - |buffer|
    }

    ghost function Ahead(): Outcome<PhysicalResult>
      requires |buffer| <= filePos <= |file|
      reads this
    {
      PhysicalAt(crc, checksum, file, Position())
    }

    ghost predicate Gives(o: Outcome<PhysicalResult>, r: PhysicalResult, reportsBefore: nat)
      requires Valid()
      reads this
    {
      r == o.result && Position() == o.next && reports == reportsBefore + o.reports
    }

    // The next block of the file, or what there is of it.
    method ReadBlock()
      requires Valid() && |buffer| < HEADER && !eof
      modifies this
      ensures Valid() && reports == old(reports)
      ensures Position() == old(filePos) && |buffer| == Available(file, Position()) - Position()
      ensures eof <==> |file| < BlockEnd(Position())
    {
      var n := if |file| - filePos < BLOCK then |file| - filePos else BLOCK;
      buffer := file[filePos..filePos + n];
      filePos := filePos + n;
      if n < BLOCK {
        eof := true;
      }
    }

    // Read on until there is room for a header; the end of the file may come first.
    method FillBuffer()
      requires Valid()
      modifies this
      ensures Valid() && reports == old(reports) && Ahead() == old(Ahead())
      ensures |buffer| < HEADER ==> eof
    {
      while |buffer| < HEADER && !eof
        invariant Valid() && reports == old(reports) && Ahead() == old(Ahead())
        decreases !eof, |file| - filePos
      {
        ReadBlock();
      }
    }

    method ReadPhysicalRecord() returns (r: PhysicalResult)
      requires Valid()
      modifies this
      ensures Valid() && Gives(old(Ahead()), r, old(reports))
      // A fragment is one that lies in the file where the next header goes, with the checksum of what is returned.
      ensures r.Fragmented? ==>
        var piece := Piece(Start(old(Position())), r.kind, r.payload);
        CheckedAt(crc, checksum, file, piece) && Position() == piece.End()
    {
      if Ahead().result.Fragmented? {
        FragmentIsChecked(crc, checksum, file, Position());
      }
      hide CheckedAt, Start;
      FillBuffer();
      if |buffer| < HEADER {
        buffer := [];
        return Eof;
      }
      InBuffer();
      r := ParseHeader();
    }

    lemma InBuffer()
      requires Valid() && |buffer| >= HEADER
      ensures filePos == Available(file, Position()) && (eof <==> |file| < BlockEnd(Position()))
      ensures Word32(buffer, 0) == Word32(file, Position())
      ensures forall k :: 0 <= k < |buffer| ==> buffer[k] == file[Position() + k]
    {
      assert buffer[0..4] == file[Position()..Position() + 4];
    }

    method ParseHeader() returns (r: PhysicalResult)
      requires Valid() && |buffer| >= HEADER
      requires filePos == Available(file, Position()) && (eof <==> |file| < BlockEnd(Position()))
      requires Word32(buffer, 0) == Word32(file, Position())
      requires forall k :: 0 <= k < |buffer| ==> buffer[k] == file[Position() + k]
      modifies this
      ensures Valid() && Gives(old(Ahead()), r, old(reports))
    {
      BlockEndKeeps(|file|, |file|);
      hide BlockEnd, Word32, Unmask;
      var low: nat, high: nat, kind := buffer[4], buffer[5], buffer[6];
      var length := low + 256 * high;
      if HEADER + length > |buffer| {
        buffer := [];
        if !eof {
          reports := reports + 1;
          return BadRecord;
        }
        return Eof;
      }
      if kind == ZERO && length == 0 {
        buffer := [];
        return BadRecord;
      }
      r := ParseBody(kind, length);
    }

    // The checks of a physical record that lies within the buffer.
    method ParseBody(kind: Byte, length: nat) returns (r: PhysicalResult)
      requires Valid() && HEADER + length <= |buffer| && !(kind == ZERO && length == 0)
      requires filePos == Available(file, Position())
      requires Word32(buffer, 0) == Word32(file, Position())
      requires file[Position() + 4] as nat + 256 * file[Position() + 5] as nat == length && file[Position() + 6] == kind
      modifies this
      ensures Valid() && Gives(old(Ahead()), r, old(reports))
    {
      ghost var p := Position();
      HereInBuffer(kind, length);
      BlockEndKeeps(|file|, |file|);
      BlockEndKeeps(p, p + HEADER + length);
      SliceOfSlice(file, p, filePos, HEADER, HEADER + length);
      hide BlockEnd, Word32, Unmask, PhysicalAt, Available, ByType;
      var payload := buffer[HEADER..HEADER + length];
      if checksum {
        var expected := DecodeFixed32(buffer);
        if crc.value([kind] + payload) != Unmask(expected) {
          buffer := [];
          reports := reports + 1;
          return BadRecord;
        }
      }
      buffer := buffer[HEADER + length..];
      r := ByType(kind, payload);
    }

    // What is to be made of the physical record at the head of the buffer.
    lemma HereInBuffer(kind: Byte, length: nat)
      requires Valid() && HEADER + length <= |buffer| && !(kind == ZERO && length == 0)
      requires filePos == Available(file, Position())
      requires file[Position() + 4] as nat + 256 * file[Position() + 5] as nat == length && file[Position() + 6] == kind
      ensures var payload := buffer[HEADER..HEADER + length];
        Ahead() == if checksum && crc.value([kind] + payload) != Unmask(Word32(file, Position())) then
          Outcome(BadRecord, filePos, 1) else Outcome(ByType(kind, payload), Position() + HEADER + length, 0)
    {
      var p := Position();
      SliceOfSlice(file, p, filePos, HEADER, HEADER + length);
      var piece := Piece(p, kind, file[p + HEADER..p + HEADER + length]);
      WithinBlock(p, HEADER + length);
      hide Word32, Unmask, PhysicalAt, ByType;
      assert CheckedAt(crc, false, file, piece);
      PhysicalHere(crc, checksum, file, piece);
    }

    // What reading goes on to, given what is known of a fragmented record and of reports so far.
    ghost function Pending(partial: Option<Bytes>, reportsBefore: nat): Outcome<Option<Bytes>>
      requires Valid()
      reads this
    {
      var o := RecordAt(crc, checksum, file, Position(), partial);
      Outcome(o.result, o.next, if reports >= reportsBefore then o.reports + (reports - reportsBefore) else 0)
    }

    method ReadRecord() returns (r: Option<Bytes>)
      requires Valid()
      modifies this
      ensures Valid() && var o := RecordAt(crc, checksum, file, old(Position()), None);
        r == o.result && Position() == o.next && reports == old(reports) + o.reports
    {
      hide Valid, PhysicalAt;
      var partial: Option<Bytes> := None;
      ghost var goal := Pending(partial, reports);
      while true
        invariant Valid() && reports >= old(reports)
        invariant Pending(partial, old(reports)) == goal
        decreases |file| - Position()
      {
        var physical := ReadPhysicalRecord();
        var lost := partial.Some? && partial.value != [];
        match physical
        case Eof => return None;
        case BadRecord =>
          if partial.Some? {
            reports := reports + 1;
          }
          partial := None;
        case Fragmented(kind, payload) =>
          if kind == FULL {
            if lost {
              reports := reports + 1;
            }
            return Some(payload);
          } else if kind == FIRST {
            if lost {
              reports := reports + 1;
            }
            partial := Some(payload);
          } else if kind == MIDDLE {
            if partial.None? {
              reports := reports + 1;
            } else {
              partial := Some(partial.value + payload);
            }
          } else if kind == LAST {
            if partial.None? {
              reports := reports + 1;
            } else {
              return Some(partial.value + payload);
            }
          } else {
            reports := reports + 1;
            partial := None;
          }
      }
    }
  }

  lemma SliceOfSlice<T>(s: seq<T>, a: nat, b: nat, i: nat, j: nat)
    requires a <= b <= |s| && i <= j <= b - a
    ensures s[a..b][i..j] == s[a + i..a + j] && s[a..b][j..] == s[a + j..b]
  {
    forall k | 0 <= k < j - i ensures s[a..b][i..j][k] == s[a + i..a + j][k] {
      assert s[a..b][i + k] == s[a + i + k];
    }
    forall k | 0 <= k < b - a - j ensures s[a..b][j..][k] == s[a + j..b][k] {
      assert s[a..b][j + k] == s[a + j + k];
    }
  }

  lemma BlockEndKeeps(p: nat, q: nat)
    requires p <= q
    ensures BlockEnd(p) <= BlockEnd(q) && (q < BlockEnd(p) ==> BlockEnd(q) == BlockEnd(p))
    ensures p < BlockEnd(p) <= p + BLOCK
  {
  }
}
