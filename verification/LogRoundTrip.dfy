/** What was appended to a log is read back, and a log cut off anywhere gives exactly its whole records. */
module LogRoundTrip {
  import opened DbFormat
  import opened Coding
  import opened LogFormat
  import opened LogReader

  // ---- One physical record -------------------------------------------------------------------------------------

  lemma PhysicalParts(crc: Crc, pre: Bytes, kind: Byte, payload: Bytes, rest: Bytes)
    requires |payload| <= 0xffff
    ensures var file, s := pre + Physical(crc, kind, payload) + rest, |pre|;
      && Word32(file, s) == Mask(crc.value([kind] + payload)) && file[s + 6] == kind
      && file[s + 4] as nat + 256 * file[s + 5] as nat == |payload|
      && file[s + HEADER..s + HEADER + |payload|] == payload
  {
    var file, s := pre + Physical(crc, kind, payload) + rest, |pre|;
    var sum := Mask(crc.value([kind] + payload));
    var tail := [|payload| % 256, |payload| / 256] + [kind] + payload;
    hide Mask, Fixed, Word32;
    assert Physical(crc, kind, payload) == Fixed(sum, 4) + tail;
    assert file == pre + Fixed(sum, 4) + (tail + rest);
    Word32Stored(pre, sum, tail + rest);
    assert file[s + 4..] == tail + rest;
    assert file[s + 4] == tail[0] && file[s + 5] == tail[1] && file[s + 6] == tail[2];
    assert file[s + HEADER..s + HEADER + |payload|] == tail[3..];
  }

  lemma InBlock(s: nat, n: nat)
    requires s % BLOCK + HEADER + n <= BLOCK
    ensures s + HEADER + n <= BlockEnd(s)
  {
  }

  lemma ReadsPhysical(crc: Crc, checksum: bool, pre: Bytes, kind: Byte, payload: Bytes, rest: Bytes)
    requires |payload| <= 0xffff && |pre| % BLOCK + HEADER + |payload| <= BLOCK && ZERO < kind <= LAST
    ensures PhysicalAt(crc, checksum, pre + Physical(crc, kind, payload) + rest, |pre|)
         == Outcome(Fragmented(kind, payload), |pre| + HEADER + |payload|, 0)
  {
    InBlock(|pre|, |payload|);
    PhysicalParts(crc, pre, kind, payload, rest);
    UnmaskMask(crc.value([kind] + payload));
    hide BlockEnd, Physical, Word32, Mask, Unmask;
  }

  // A physical record cut short counts as the end of the file, not as a corruption.
  lemma CutPhysical(crc: Crc, checksum: bool, pre: Bytes, kind: Byte, payload: Bytes, m: nat)
    requires |payload| <= 0xffff && |pre| % BLOCK + HEADER + |payload| <= BLOCK
    requires m < HEADER + |payload|
    ensures PhysicalAt(crc, checksum, pre + Physical(crc, kind, payload)[..m], |pre|) == Outcome(Eof, |pre| + m, 0)
  {
    InBlock(|pre|, |payload|);
    var whole := Physical(crc, kind, payload);
    var file := pre + whole[..m];
    if m >= HEADER {
      PhysicalParts(crc, pre, kind, payload, []);
      assert file == (pre + whole + [])[..|file|];
    }
    hide BlockEnd, Physical, Word32, Mask, Unmask;
  }

  // ---- One fragment, with its padding -------------------------------------------------------------------------------

  lemma FragmentFits(p: nat, data: Bytes)
    ensures Start(p) % BLOCK + HEADER + Fragment(p, data) <= BLOCK
  {
    StartFits(p);
  }

  lemma ReadsHead(crc: Crc, checksum: bool, before: Bytes, data: Bytes, begin: bool, rest: Bytes)
    ensures var p, n, head := |before|, Fragment(|before|, data), Head(crc, |before|, data, begin);
      PhysicalAt(crc, checksum, before + head + rest, p)
      == Outcome(Fragmented(RecordKind(begin, n == |data|), data[..n]), p + |head|, 0)
  {
    var p, n, head := |before|, Fragment(|before|, data), Head(crc, |before|, data, begin);
    var pre, body := before + Zeros(Start(p) - p), Physical(crc, RecordKind(begin, n == |data|), data[..n]);
    assert before + head + rest == pre + body + rest;
    assert ZERO < RecordKind(begin, n == |data|) <= LAST;
    FragmentFits(p, data);
    hide PhysicalAt, Physical, Fragment, Start, Head;
    PaddingSkipped(crc, checksum, before + head + rest, p);
    ReadsPhysical(crc, checksum, pre, RecordKind(begin, n == |data|), data[..n], rest);
  }

  lemma CutHead(crc: Crc, checksum: bool, before: Bytes, data: Bytes, begin: bool, m: nat)
    requires m < |Head(crc, |before|, data, begin)|
    ensures PhysicalAt(crc, checksum, before + Head(crc, |before|, data, begin)[..m], |before|)
         == Outcome(Eof, |before| + m, 0)
  {
    var p, n, head := |before|, Fragment(|before|, data), Head(crc, |before|, data, begin);
    var pad := Start(p) - p;
    var file := before + head[..m];
    FragmentFits(p, data);
    if m < pad {
      hide PhysicalAt, Physical, Fragment, Start, Head;
      CutPadding(crc, checksum, file, p);
    } else {
      var pre, body := before + Zeros(pad), Physical(crc, RecordKind(begin, n == |data|), data[..n]);
      assert file == pre + body[..m - pad];
      hide PhysicalAt, Physical, Fragment, Start, Head;
      PaddingSkipped(crc, checksum, file, p);
      CutPhysical(crc, checksum, pre, RecordKind(begin, n == |data|), data[..n], m - pad);
    }
  }

  // ---- A file that ends anywhere in what was written, or goes on after it ------------------------------------------------

  ghost predicate Along(file: Bytes, before: Bytes, part: Bytes) {
    before <= file && (file <= before + part || before + part <= file)
  }

  lemma AlongHead(file: Bytes, before: Bytes, head: Bytes, tail: Bytes)
    requires Along(file, before, head + tail)
    ensures Along(file, before, head)
    ensures |before + head| <= |file| ==> Along(file, before + head, tail)
  {
    assert before + (head + tail) == before + head + tail;
  }

  lemma HeadAt(crc: Crc, checksum: bool, file: Bytes, before: Bytes, data: Bytes, begin: bool)
    requires Along(file, before, Head(crc, |before|, data, begin))
    ensures var n, p := Fragment(|before|, data), |before + Head(crc, |before|, data, begin)|;
      PhysicalAt(crc, checksum, file, |before|) == if p <= |file|
        then Outcome(Fragmented(RecordKind(begin, n == |data|), data[..n]), p, 0) else Outcome(Eof, |file|, 0)
  {
    var head := Head(crc, |before|, data, begin);
    hide Head, Fragment, RecordKind, PhysicalAt;
    if |before + head| <= |file| {
      assert file == before + head + file[|before + head|..];
      ReadsHead(crc, checksum, before, data, begin, file[|before + head|..]);
    } else {
      assert file == before + head[..|file| - |before|];
      CutHead(crc, checksum, before, data, begin, |file| - |before|);
    }
  }

  // ---- One record --------------------------------------------------------------------------------------------------------

  function Joined(partial: Option<Bytes>, data: Bytes): Bytes {
    if partial.None? then data else partial.value + data
  }

  lemma JoinedInParts(partial: Option<Bytes>, data: Bytes, n: nat)
    requires n <= |data|
    ensures Joined(Some(Joined(partial, data[..n])), data[n..]) == Joined(partial, data)
  {
    assert data == data[..n] + data[n..];
  }

  // One step of reading. In the middle of a record, and only there, `partial` holds what has been read of it.
  lemma OneStep(crc: Crc, checksum: bool, file: Bytes, before: Bytes, data: Bytes, begin: bool, partial: Option<Bytes>)
    requires Along(file, before, Head(crc, |before|, data, begin)) && (begin <==> partial.None?)
    ensures var n, p := Fragment(|before|, data), |before + Head(crc, |before|, data, begin)|;
      RecordAt(crc, checksum, file, |before|, partial) ==
        if p > |file| then Outcome(None, |file|, 0)
        else if n == |data| then Outcome(Some(Joined(partial, data)), p, 0)
        else RecordAt(crc, checksum, file, p, Some(Joined(partial, data[..n])))
  {
    HeadAt(crc, checksum, file, before, data, begin);
    assert data[..|data|] == data;
    hide PhysicalAt, Head, Fragment;
  }

  lemma FragmentsOnce(crc: Crc, p: nat, data: Bytes, begin: bool)
    ensures var n, head := Fragment(p, data), Head(crc, p, data, begin);
      Fragments(crc, p, data, begin) == if n == |data| then head else head + Fragments(crc, p + |head|, data[n..], false)
  {
    hide Head, Fragment, Start, Room;
  }

  lemma FragmentsAre(crc: Crc, before: Bytes, data: Bytes, begin: bool)
    ensures var n, head := Fragment(|before|, data), Head(crc, |before|, data, begin);
      Fragments(crc, |before|, data, begin)
        == if n == |data| then head else head + Fragments(crc, |before + head|, data[n..], false)
  {
    hide Head, Fragment, Start, Room, Physical, RecordKind, Zeros, BlockEnd, Mask, Fixed;
    FragmentsOnce(crc, |before|, data, begin);
    hide Fragments;
    assert |before + Head(crc, |before|, data, begin)| == |before| + |Head(crc, |before|, data, begin)|;
  }

  // What reading a record gives that ends at position `end`.
  function Expected(file: Bytes, end: nat, record: Bytes): Outcome<Option<Bytes>> {
    if end <= |file| then Outcome(Some(record), end, 0) else Outcome(None, |file|, 0)
  }

  // A record that lies wholly in the file is read; of one that does not, nothing is read and nothing reported.
  lemma {:induction false} RecordAlong(crc: Crc, checksum: bool, file: Bytes, before: Bytes, data: Bytes, begin: bool,
                                       partial: Option<Bytes>)
    requires Along(file, before, Fragments(crc, |before|, data, begin)) && (begin <==> partial.None?)
    ensures RecordAt(crc, checksum, file, |before|, partial)
         == Expected(file, |before| + |Fragments(crc, |before|, data, begin)|, Joined(partial, data))
    decreases |data|, if Room(|before|) == 0 then 1 else 0
  {
    hide *;
    NextRoom(|before|, data);
    AlongFragments(crc, file, before, data, begin);
    var n, written := Fragment(|before|, data), before + Head(crc, |before|, data, begin);
    if n < |data| && |written| <= |file| {
      RecordAlong(crc, checksum, file, written, data[n..], false, Some(Joined(partial, data[..n])));
    }
    GoesOn(crc, checksum, file, before, data, begin, partial);
  }

  lemma AlongFragments(crc: Crc, file: Bytes, before: Bytes, data: Bytes, begin: bool)
    requires Along(file, before, Fragments(crc, |before|, data, begin))
    ensures var n, head := Fragment(|before|, data), Head(crc, |before|, data, begin);
      && Along(file, before, head)
      && (n < |data| && |before + head| <= |file|
          ==> Along(file, before + head, Fragments(crc, |before + head|, data[n..], false)))
  {
    var n, head := Fragment(|before|, data), Head(crc, |before|, data, begin);
    FragmentsAre(crc, before, data, begin);
    hide Head, Fragment, Fragments, Along;
    if n < |data| {
      AlongHead(file, before, head, Fragments(crc, |before + head|, data[n..], false));
    }
  }

  lemma GoesOn(crc: Crc, checksum: bool, file: Bytes, before: Bytes, data: Bytes, begin: bool, partial: Option<Bytes>)
    requires Along(file, before, Head(crc, |before|, data, begin)) && (begin <==> partial.None?)
    requires var n, p := Fragment(|before|, data), |before + Head(crc, |before|, data, begin)|;
      var read := Some(Joined(partial, data[..n]));
      n < |data| && p <= |file| ==> (
        RecordAt(crc, checksum, file, p, read)
        == Expected(file, p + |Fragments(crc, p, data[n..], false)|, Joined(read, data[n..])))
    ensures RecordAt(crc, checksum, file, |before|, partial)
         == Expected(file, |before| + |Fragments(crc, |before|, data, begin)|, Joined(partial, data))
  {
    hide Head, Fragment, Fragments, RecordAt, Joined, Along;
    FragmentsAre(crc, before, data, begin);
    OneStep(crc, checksum, file, before, data, begin, partial);
    JoinedInParts(partial, data, Fragment(|before|, data));
  }

  // ---- The whole log -----------------------------------------------------------------------------------------------------

  // The file after the records have been appended to it, by one writer or by several in turn.
  ghost function Appended(crc: Crc, start: Bytes, records: seq<Bytes>): (r: Bytes)
    ensures start <= r
  {
    if records == [] then start else
    var n := |records| - 1;
    var before := Appended(crc, start, records[..n]);
    before + Fragments(crc, |before|, records[n], true)
  }

  // All records that a reader returns from position `p` on, and the corruptions it reports up to the end.
  ghost function ReadAll(crc: Crc, checksum: bool, file: Bytes, p: nat): (r: (seq<Bytes>, nat))
    requires p <= |file|
    decreases |file| - p
  {
    var o := RecordAt(crc, checksum, file, p, None);
    if o.result.None? then ([], o.reports) else
    var rest := ReadAll(crc, checksum, file, o.next);
    ([o.result.value] + rest.0, o.reports + rest.1)
  }

  // Exactly the first `k` records lie wholly in the first `m` bytes.
  ghost predicate WholeIn(crc: Crc, records: seq<Bytes>, m: nat, k: nat) {
    && k <= |records| && |Appended(crc, [], records[..k])| <= m
    && (k < |records| ==> m < |Appended(crc, [], records[..k + 1])|)
  }

  lemma {:induction false} AppendedGrows(crc: Crc, start: Bytes, records: seq<Bytes>, k: nat)
    requires k <= |records|
    ensures Appended(crc, start, records[..k]) <= Appended(crc, start, records)
    decreases |records|
  {
    if k == |records| {
      assert records[..k] == records;
    } else {
      var n := |records| - 1;
      AppendedGrows(crc, start, records[..n], k);
      assert records[..n][..k] == records[..k];
    }
  }

  lemma AppendedNext(crc: Crc, start: Bytes, records: seq<Bytes>, k: nat)
    requires k < |records|
    ensures var before := Appended(crc, start, records[..k]);
      Appended(crc, start, records[..k + 1]) == before + Fragments(crc, |before|, records[k], true)
  {
    assert records[..k + 1][..k] == records[..k];
  }

  // From the j-th record on, a file cut at `m` gives the whole records that follow, and no report.
  lemma {:induction false} ReadsFrom(crc: Crc, checksum: bool, records: seq<Bytes>, m: nat, k: nat, j: nat)
    requires m <= |Appended(crc, [], records)| && WholeIn(crc, records, m, k) && j <= k
    ensures |Appended(crc, [], records[..j])| <= m
    ensures ReadAll(crc, checksum, Appended(crc, [], records)[..m], |Appended(crc, [], records[..j])|) == (records[j..k], 0)
    decreases k - j
  {
    if j < k {
      Within(crc, records, m, k, j);
      ReadsFrom(crc, checksum, records, m, k, j + 1);
      AppendedNext(crc, [], records, j);
      hide *;
      ReadsOnTo(crc, checksum, Appended(crc, [], records)[..m], Appended(crc, [], records[..j]), records[j]);
      PrependRecord(records, j, k);
    } else {
      assert records[j..k] == [];
      if j < |records| {
        Within(crc, records, m, k, j);
        AppendedNext(crc, [], records, j);
        hide *;
        ReadsOnTo(crc, checksum, Appended(crc, [], records)[..m], Appended(crc, [], records[..j]), records[j]);
      } else {
        AllWithin(crc, records, m, k);
        hide *;
        AtTheEnd(crc, checksum, Appended(crc, [], records)[..m]);
      }
    }
  }

  lemma ReadsOnTo(crc: Crc, checksum: bool, file: Bytes, before: Bytes, record: Bytes)
    requires Along(file, before, Fragments(crc, |before|, record, true))
    ensures |before| <= |file|
    ensures var end := |before + Fragments(crc, |before|, record, true)|;
      ReadAll(crc, checksum, file, |before|) == if end > |file| then ([], 0) else
        var rest := ReadAll(crc, checksum, file, end);
        ([record] + rest.0, rest.1)
  {
    var end := |before| + |Fragments(crc, |before|, record, true)|;
    RecordAlong(crc, checksum, file, before, record, true, None);
    ReadAllIs(crc, checksum, file, |before|);
    assert Joined(None, record) == record;
    hide Fragments, RecordAt, ReadAll;
    if end <= |file| {
      var rest := ReadAll(crc, checksum, file, end);
      assert ReadAll(crc, checksum, file, |before|) == ([record] + rest.0, 0 + rest.1);
    }
  }

  lemma ReadAllIs(crc: Crc, checksum: bool, file: Bytes, p: nat)
    requires p <= |file|
    ensures var o := RecordAt(crc, checksum, file, p, None);
      ReadAll(crc, checksum, file, p) == if o.result.None? then ([], o.reports) else
        var rest := ReadAll(crc, checksum, file, o.next);
        ([o.result.value] + rest.0, o.reports + rest.1)
  {
  }

  lemma AllWithin(crc: Crc, records: seq<Bytes>, m: nat, k: nat)
    requires m <= |Appended(crc, [], records)| && WholeIn(crc, records, m, k) && k == |records|
    ensures records[..k] == records && m == |Appended(crc, [], records)|
  {
    assert records[..k] == records;
  }

  lemma Within(crc: Crc, records: seq<Bytes>, m: nat, k: nat, j: nat)
    requires m <= |Appended(crc, [], records)| && WholeIn(crc, records, m, k) && j <= k && j < |records|
    ensures var before := Appended(crc, [], records[..j]);
      Along(Appended(crc, [], records)[..m], before, Fragments(crc, |before|, records[j], true))
    ensures j < k ==> |Appended(crc, [], records[..j + 1])| <= m
  {
    AppendedGrows(crc, [], records, j);
    AppendedGrows(crc, [], records, j + 1);
    AppendedNext(crc, [], records, j);
    if j < k {
      AppendedGrows(crc, [], records[..k], j + 1);
      assert records[..k][..j + 1] == records[..j + 1];
    }
    hide Appended, Fragments;
    var all, before := Appended(crc, [], records), Appended(crc, [], records[..j]);
    AlongCut(all, before, Fragments(crc, |before|, records[j], true), m);
  }

  lemma AlongCut(all: Bytes, before: Bytes, part: Bytes, m: nat)
    requires before + part <= all && |before| <= m <= |all|
    ensures Along(all[..m], before, part)
  {
  }

  lemma PrependRecord(records: seq<Bytes>, j: nat, k: nat)
    requires j < k <= |records|
    ensures [records[j]] + records[j + 1..k] == records[j..k]
  {
  }

  lemma {:induction false} WholeExists(crc: Crc, records: seq<Bytes>, m: nat) returns (k: nat)
    requires m <= |Appended(crc, [], records)|
    ensures WholeIn(crc, records, m, k)
    decreases |records|
  {
    assert records[..|records|] == records;
    if m == |Appended(crc, [], records)| {
      k := |records|;
    } else {
      var n := |records| - 1;
      if |Appended(crc, [], records[..n])| <= m {
        k := n;
      } else {
        k := WholeExists(crc, records[..n], m);
        assert records[..n][..k] == records[..k] && (k < n ==> records[..n][..k + 1] == records[..k + 1]);
      }
    }
  }

  lemma AtTheEnd(crc: Crc, checksum: bool, file: Bytes)
    ensures ReadAll(crc, checksum, file, |file|) == ([], 0)
  {
    BlockEndKeeps(|file|, |file|);
    hide BlockEnd;
    assert PhysicalAt(crc, checksum, file, |file|) == Outcome(Eof, |file|, 0);
    hide PhysicalAt;
    assert RecordAt(crc, checksum, file, |file|, None) == Outcome(None, |file|, 0);
  }

  // A log cut off anywhere gives its whole records in order, and no corruption is reported.
  lemma CrashKeepsWholeRecords(crc: Crc, checksum: bool, records: seq<Bytes>, m: nat, k: nat)
    requires m <= |Appended(crc, [], records)| && WholeIn(crc, records, m, k)
    ensures ReadAll(crc, checksum, Appended(crc, [], records)[..m], 0) == (records[..k], 0)
  {
    ReadsFrom(crc, checksum, records, m, k, 0);
    assert records[..0] == [];
  }

  lemma LogReadsBack(crc: Crc, checksum: bool, records: seq<Bytes>)
    ensures ReadAll(crc, checksum, Appended(crc, [], records), 0) == (records, 0)
  {
    var all := Appended(crc, [], records);
    assert all[..|all|] == all && records[..|records|] == records;
    CrashKeepsWholeRecords(crc, checksum, records, |all|, |records|);
  }

  // Writers in turn, each opened at the end of what is there, write the same file as one writer.
  lemma {:induction false} ReopenedWriter(crc: Crc, first: seq<Bytes>, second: seq<Bytes>)
    ensures Appended(crc, Appended(crc, [], first), second) == Appended(crc, [], first + second)
  {
    if second == [] {
      assert first + second == first;
    } else {
      var n := |second| - 1;
      ReopenedWriter(crc, first, second[..n]);
      assert (first + second)[..|first + second| - 1] == first + second[..n];
    }
  }

  // Recovery after a crash: read records until there are no more.
  method Recover(reader: Reader) returns (records: seq<Bytes>)
    requires reader.Valid()
    modifies reader
    ensures reader.Valid()
    ensures var all := ReadAll(reader.crc, reader.checksum, reader.file, old(reader.Position()));
      records == all.0 && reader.reports == old(reader.reports) + all.1
  {
    hide RecordAt, Reader.Valid;
    records := [];
    var more := true;
    ghost var goal := ReadAll(reader.crc, reader.checksum, reader.file, reader.Position());
    while more
      invariant reader.Valid()
      invariant more ==> var rest := ReadAll(reader.crc, reader.checksum, reader.file, reader.Position());
        goal.0 == records + rest.0 && old(reader.reports) + goal.1 == reader.reports + rest.1
      invariant !more ==> goal.0 == records && old(reader.reports) + goal.1 == reader.reports
      decreases more, |reader.file| - reader.Position()
    {
      var record := reader.ReadRecord();
      if record.Some? {
        records := records + [record.value];
      } else {
        more := false;
      }
    }
  }

  function Concat<T>(xss: seq<seq<T>>): seq<T> {
    if xss == [] then [] else Concat(xss[..|xss| - 1]) + xss[|xss| - 1]
  }

  lemma AppendedInTurn(crc: Crc, turns: seq<seq<Bytes>>, i: nat)
    requires i < |turns|
    ensures Appended(crc, Appended(crc, [], Concat(turns[..i])), turns[i]) == Appended(crc, [], Concat(turns[..i + 1]))
  {
    assert turns[..i + 1][..i] == turns[..i];
    ReopenedWriter(crc, Concat(turns[..i]), turns[i]);
  }

  // One writer, opened at the end of a file, appends records.
  method WriteAll(crc: Crc, start: Bytes, records: seq<Bytes>) returns (file: Bytes)
    ensures file == Appended(crc, start, records)
  {
    var writer := new Writer(crc, start);
    hide Fragments, Writer.Valid;
    for i := 0 to |records|
      invariant writer.Valid() && writer.dest == Appended(crc, start, records[..i])
    {
      AppendedNext(crc, start, records, i);
      writer.AddRecord(records[i]);
    }
    assert records[..|records|] == records;
    file := writer.dest;
  }

  method WriteInTurn(crc: Crc, turns: seq<seq<Bytes>>) returns (file: Bytes)
    ensures file == Appended(crc, [], Concat(turns))
  {
    file := [];
    for i := 0 to |turns|
      invariant file == Appended(crc, [], Concat(turns[..i]))
    {
      AppendedInTurn(crc, turns, i);
      file := WriteAll(crc, file, turns[i]);
    }
    assert turns[..|turns|] == turns;
  }

  // Writers in turn, a crash that leaves the first `m` bytes, and recovery: the whole records, in order, and nothing
  // reported.
  method CrashAndRecover(crc: Crc, checksum: bool, turns: seq<seq<Bytes>>, m: nat)
    returns (records: seq<Bytes>, reports: nat)
    ensures var all, size := Concat(turns), |Appended(crc, [], Concat(turns))|;
      && WholeIn(crc, all, if m < size then m else size, |records|)
      && records == all[..|records|] && reports == 0
  {
    var file := WriteInTurn(crc, turns);
    var size := if m < |file| then m else |file|;
    ghost var all := Concat(turns);
    ghost var k := WholeExists(crc, all, size);
    assert k <= |all|;
    hide *;
    CrashKeepsWholeRecords(crc, checksum, all, size, k);
    var reader := new Reader(crc, checksum, file[..size]);
    records := Recover(reader);
    reports := reader.reports;
    assert |records| == k;
  }
}
