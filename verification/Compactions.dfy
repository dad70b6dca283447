/** The merge of a compaction: which entries it drops and which files it writes. */
module Compactions {
  import opened DbFormat
  import opened Versions
  import opened Merger
  import opened OutputCuts

  // A full scan of the levels below the output level: no file there covers `u`.
  ghost predicate BaseLevel(v: Version, level: nat, u: UserKey) {
    forall l, f :: level + 2 <= l < |v| && f in v[l] ==> !(f.smallest.user <= u <= f.largest.user)
  }

  // The sequence number remembered from the entry before, or the maximum at the first entry of a user key.
  function LastSequence(input: seq<Entry>, i: nat): Sequence
    requires i < |input|
  {
    if i > 0 && input[i - 1].key.user == input[i].key.user then input[i - 1].key.seqno else MAX_SEQUENCE
  }

  // Rule (A): a newer entry of the same user key is itself visible to the oldest snapshot.
  predicate Hidden(input: seq<Entry>, i: nat, oldest: Sequence)
    requires i < |input|
  {
    LastSequence(input, i) <= oldest
  }

  // The second rule: a deletion that no deeper level can need.
  ghost predicate Obsolete(v: Version, level: nat, e: Entry, oldest: Sequence) {
    e.key.kind.Deletion? && e.key.seqno <= oldest && BaseLevel(v, level, e.key.user)
  }

  ghost predicate Dropped(v: Version, level: nat, input: seq<Entry>, i: nat, oldest: Sequence)
    requires i < |input|
  {
    Hidden(input, i, oldest) || Obsolete(v, level, input[i], oldest)
  }

  // The entries of input[..n] that the compaction writes.
  ghost function Kept(v: Version, level: nat, input: seq<Entry>, n: nat, oldest: Sequence): seq<Entry>
    requires n <= |input|
  {
    if n == 0 then [] else
    Kept(v, level, input, n - 1, oldest) + if Dropped(v, level, input, n - 1, oldest) then [] else [input[n - 1]]
  }

  lemma {:induction false} KeptMembers(v: Version, level: nat, input: seq<Entry>, n: nat, oldest: Sequence, e: Entry)
    requires n <= |input|
    ensures e in Kept(v, level, input, n, oldest)
       <==> exists i :: 0 <= i < n && input[i] == e && !Dropped(v, level, input, i, oldest)
  {
    if n > 0 {
      KeptMembers(v, level, input, n - 1, oldest, e);
    }
  }

  // When sequence numbers are used up, rule (A) takes even the first entry of every user key.
  lemma {:induction false} NothingKeptAtMaximum(v: Version, level: nat, input: seq<Entry>, n: nat)
    requires n <= |input|
    ensures Kept(v, level, input, n, MAX_SEQUENCE) == []
  {
    if n > 0 {
      NothingKeptAtMaximum(v, level, input, n - 1);
    }
  }

  lemma {:induction false} KeptSorted(v: Version, level: nat, input: seq<Entry>, n: nat, oldest: Sequence)
    requires n <= |input| && Sorted(input)
    ensures Sorted(Kept(v, level, input, n, oldest))
    ensures forall k :: 0 <= k < |Kept(v, level, input, n, oldest)| ==>
      exists i :: 0 <= i < n && Kept(v, level, input, n, oldest)[k] == input[i]
  {
    if n > 0 {
      KeptSorted(v, level, input, n - 1, oldest);
      var before := Kept(v, level, input, n - 1, oldest);
      forall k | 0 <= k < |before| ensures Less(before[k].key, input[n - 1].key) {
        var i :| 0 <= i < n - 1 && before[k] == input[i];
      }
    }
  }

  function Flatten(files: seq<File>): seq<Entry> {
    if files == [] then [] else Flatten(files[..|files| - 1]) + files[|files| - 1].entries
  }

  lemma {:induction false} FlattenMembers(files: seq<File>)
    ensures EntrySet(Flatten(files)) == LevelEntries(files)
  {
    if files != [] {
      var n := |files| - 1;
      FlattenMembers(files[..n]);
      assert files == files[..n] + [files[n]];
      forall e ensures e in Flatten(files) <==> e in LevelEntries(files) {
        assert e in Flatten(files) <==> e in EntrySet(Flatten(files[..n])) || e in files[n].entries;
        assert e in LevelEntries(files) <==> e in LevelEntries(files[..n]) || e in files[n].entries;
      }
    }
  }

  lemma {:induction false} FlattenLevelSorted(files: seq<File>)
    requires FilesValid(files) && Sorted(Flatten(files))
    ensures LevelSorted(files)
  {
    if files != [] {
      var n := |files| - 1;
      var before := Flatten(files[..n]);
      assert Flatten(files) == before + files[n].entries;
      assert forall i :: 0 <= i < |before| ==> Flatten(files)[i] == before[i];
      FlattenLevelSorted(files[..n]);
      FlattenMembers(files[..n]);
      FileRange(files[n]);
      forall i | 0 <= i < n ensures Less(files[i].largest, files[n].smallest) {
        assert files[i] in files[..n] && files[i].Valid();
        var last := files[i].entries[|files[i].entries| - 1];
        assert last in files[i].entries && last in LevelEntries(files[..n]);
        var k :| 0 <= k < |before| && before[k] == last;
        assert Flatten(files)[|before|] == files[n].entries[0];
      }
    }
  }

  // ---- Where one output file ends and the next begins ------------------------------------------------------------

  ghost function Cuts(rule: CutRule, v: Version, level: nat, input: seq<Entry>, n: nat, oldest: Sequence): Cutting
    requires n <= |input|
  {
    if n == 0 then Cutting([], [], Progress(0, false, 0)) else
    var c := Arrive(rule, Cuts(rule, v, level, input, n - 1, oldest), input[n - 1].key);
    if Dropped(v, level, input, n - 1, oldest) then c else Put(rule, c, input[n - 1])
  }

  // The entries of each output file.
  ghost function Pieces(rule: CutRule, v: Version, level: nat, input: seq<Entry>, oldest: Sequence): seq<seq<Entry>> {
    Close(Cuts(rule, v, level, input, |input|, oldest)).closed
  }

  lemma {:induction false} CutsAreOk(rule: CutRule, v: Version, level: nat, input: seq<Entry>, n: nat, oldest: Sequence)
    requires n <= |input| && Sorted(input) && ByLargest(rule.grandparents)
    ensures CutOk(rule, input, n, Cuts(rule, v, level, input, n, oldest))
  {
    if n == 0 {
      StartCutOk(rule, input);
    } else {
      hide CutOk, Sorted, ByLargest, Arrive, Put, Close, Dropped;
      CutsAreOk(rule, v, level, input, n - 1, oldest);
      var c := Cuts(rule, v, level, input, n - 1, oldest);
      ArriveCutOk(rule, input, n - 1, c);
      if !Dropped(v, level, input, n - 1, oldest) {
        PutCutOk(rule, input, n, Arrive(rule, c, input[n - 1].key));
      }
    }
  }

  // Between two output files there is a reason to cut, within a file there is none, and so no file overlaps more
  // of the level below the next than the limit.
  lemma PiecesAreWellCut(rule: CutRule, v: Version, level: nat, input: seq<Entry>, oldest: Sequence)
    requires Sorted(input) && ByLargest(rule.grandparents)
    ensures var pieces := Pieces(rule, v, level, input, oldest);
      && WellCut(rule, input, pieces)
      && forall k :: 0 <= k < |pieces| ==>
           Overlap(rule.grandparents, pieces[k][0].key, LastKey(pieces[k])) <= rule.maxGrandparentOverlap
  {
    CutsAreOk(rule, v, level, input, |input|, oldest);
    var pieces := Pieces(rule, v, level, input, oldest);
    assert forall k :: 0 <= k < |pieces| ==> Spans(input, |input|, pieces[k]);
    hide Spans, Sorted, Together, Apart, Pieces, CutOk, ByLargest;
    forall k | 0 <= k < |pieces|
      ensures Overlap(rule.grandparents, pieces[k][0].key, LastKey(pieces[k])) <= rule.maxGrandparentOverlap
    {
      PieceOverlap(rule, input, |input|, pieces, k);
    }
  }

  function EntriesOf(files: seq<File>): (r: seq<seq<Entry>>)
    ensures |r| == |files| && forall i :: 0 <= i < |r| ==> r[i] == files[i].entries
  {
    seq(|files|, i requires 0 <= i < |files| => files[i].entries)
  }

  lemma EntriesOfAppend(files: seq<File>, f: File)
    ensures EntriesOf(files + [f]) == EntriesOf(files) + [f.entries]
  {
  }

  ghost predicate OverlapsLittle(outputs: seq<File>, grandparents: seq<File>, limit: nat) {
    forall f :: f in outputs ==> Overlap(grandparents, f.smallest, f.largest) <= limit
  }

  class Compaction {
    const version: Version
    const level: nat
    const grandparents: seq<File>
    const maxGrandparentOverlap: nat
    var levelPtrs: seq<nat>
    var grandparentIndex: nat
    var seenKey: bool
    var overlappedBytes: nat

    constructor (version: Version, level: nat, grandparents: seq<File>, maxGrandparentOverlap: nat)
      requires |version| == NUM_LEVELS
      ensures this.version == version && this.level == level && this.grandparents == grandparents
      ensures this.maxGrandparentOverlap == maxGrandparentOverlap && Started()
    {
      this.version, this.level, this.grandparents := version, level, grandparents;
      this.maxGrandparentOverlap := maxGrandparentOverlap;
      levelPtrs := seq(NUM_LEVELS, _ => 0);
      grandparentIndex, seenKey, overlappedBytes := 0, false, 0;
    }

    ghost predicate Started()
      reads this
    {
      && |version| == |levelPtrs| == NUM_LEVELS
      && (forall l :: 0 <= l < NUM_LEVELS ==> levelPtrs[l] == 0)
      && grandparentIndex == 0 && !seenKey && overlappedBytes == 0
    }

    function Scanned(): Progress
      reads `grandparentIndex, `seenKey, `overlappedBytes
    {
      Progress(grandparentIndex, seenKey, overlappedBytes)
    }

    // Every file a cursor has passed ends before `u`.
    ghost predicate Behind(u: UserKey)
      reads this
    {
      && |version| == |levelPtrs| == NUM_LEVELS
      && grandparentIndex <= |grandparents|
      && (forall l :: level + 2 <= l < NUM_LEVELS ==> LevelSorted(version[l]) && levelPtrs[l] <= |version[l]|)
      && (forall l, i :: level + 2 <= l < NUM_LEVELS && 0 <= i < levelPtrs[l] ==> version[l][i].largest.user < u)
    }

    // For user keys that never decrease, the moving cursors answer as a full scan would.
    method IsBaseLevelForKey(u: UserKey) returns (r: bool)
      requires Behind(u)
      modifies this`levelPtrs
      ensures Behind(u)
      ensures r <==> BaseLevel(version, level, u)
    {
      var lvl := level + 2;
      while lvl < NUM_LEVELS
        invariant level + 2 <= lvl
        invariant Behind(u)
        invariant forall l, f :: level + 2 <= l < lvl && l < |version| && f in version[l] ==>
            !(f.smallest.user <= u <= f.largest.user)
      {
        var files := version[lvl];
        while levelPtrs[lvl] < |files|
          invariant Behind(u)
          invariant levelPtrs[lvl] <= |files|
          decreases |files| - levelPtrs[lvl]
        {
          var f := files[levelPtrs[lvl]];
          if u <= f.largest.user {
            if u >= f.smallest.user {
              assert f in version[lvl];
              return false;
            }
            break;
          }
          levelPtrs := levelPtrs[lvl := levelPtrs[lvl] + 1];
        }
        NoFileCovers(files, levelPtrs[lvl], u);
        lvl := lvl + 1;
      }
      r := true;
    }

    method ShouldStopBefore(k: InternalKey) returns (r: bool)
      requires Behind(k.user)
      modifies this`grandparentIndex, this`seenKey, this`overlappedBytes
      ensures Behind(k.user)
      ensures var p := Pass(grandparents, old(Scanned()), k).(seen := true);
        r == (p.overlapped > maxGrandparentOverlap) && Scanned() == if r then p.(overlapped := 0) else p
      // At the first key it never stops; at a later one it does exactly if the grandparents that end since the stop
      // before are too many bytes.
      ensures ByLargest(grandparents) && old(Scanned()) == Progress(0, false, 0)
        ==> !r && Scans(grandparents, Scanned(), k, k)
      ensures forall since, last ::
        ByLargest(grandparents) && Scans(grandparents, old(Scanned()), since, last) && !Less(k, last) ==>
          && (r <==> Overlap(grandparents, since, k) > maxGrandparentOverlap)
          && Scans(grandparents, Scanned(), if r then k else since, k)
    {
      ScanDecides(grandparents, Scanned(), k);
      hide ByLargest, Scans;
      ghost var goal := Pass(grandparents, Scanned(), k);
      while grandparentIndex < |grandparents| && Less(grandparents[grandparentIndex].largest, k)
        invariant grandparentIndex <= |grandparents| && Pass(grandparents, Scanned(), k) == goal
      {
        if seenKey {
          overlappedBytes := overlappedBytes + grandparents[grandparentIndex].size;
        }
        grandparentIndex := grandparentIndex + 1;
      }
      seenKey := true;
      if overlappedBytes > maxGrandparentOverlap {
        overlappedBytes := 0;
        return true;
      }
      return false;
    }
  }

  lemma NoFileCovers(files: seq<File>, p: nat, u: UserKey)
    requires LevelSorted(files) && p <= |files|
    requires forall i :: 0 <= i < p ==> files[i].largest.user < u
    requires p < |files| ==> u < files[p].smallest.user
    ensures forall f :: f in files ==> !(f.smallest.user <= u <= f.largest.user)
  {
    forall i | p < i < |files| ensures u < files[i].smallest.user {
      LargestIncreasing(files, p, i);
    }
  }

  ghost predicate OutputsOk(outputs: seq<File>, firstNumber: nat) {
    && FilesValid(outputs)
    && forall i :: 0 <= i < |outputs| ==> outputs[i].number == firstNumber + i
  }

  // The size recorded for each file is that of the finished table.
  ghost predicate Sized(outputs: seq<File>, fileSize: seq<Entry> -> nat) {
    forall f :: f in outputs ==> f.size == fileSize(f.entries)
  }

  ghost predicate BuilderOk(b: seq<Entry>, smallest: InternalKey, largest: InternalKey) {
    b != [] && Sorted(b) && smallest == b[0].key && largest == b[|b| - 1].key
  }

  // What `PiecesAreWellCut` says of the files that hold the pieces.
  lemma FilesAreWellCut(rule: CutRule, v: Version, level: nat, input: seq<Entry>, oldest: Sequence,
                        outputs: seq<File>, firstNumber: nat)
    requires Sorted(input) && ByLargest(rule.grandparents) && OutputsOk(outputs, firstNumber)
    requires EntriesOf(outputs) == Pieces(rule, v, level, input, oldest)
    ensures WellCut(rule, input, EntriesOf(outputs))
    ensures OverlapsLittle(outputs, rule.grandparents, rule.maxGrandparentOverlap)
  {
    PiecesAreWellCut(rule, v, level, input, oldest);
    hide WellCut, Pieces, Sorted, ByLargest;
    forall f | f in outputs ensures Overlap(rule.grandparents, f.smallest, f.largest) <= rule.maxGrandparentOverlap {
      var k :| 0 <= k < |outputs| && outputs[k] == f;
      assert f.Valid() && EntriesOf(outputs)[k] == f.entries;
    }
  }

  // The output side of a compaction: finished files and at most one open table builder.
  class CompactionState {
    const firstNumber: nat
    // The size of a table while it is being built, and once it is finished.
    const builderSize: seq<Entry> -> nat
    const fileSize: seq<Entry> -> nat
    const maxOutputFileSize: nat
    var outputs: seq<File>
    var builder: Option<seq<Entry>>
    var number: nat
    var smallest: InternalKey
    var largest: InternalKey
    var nextFileNumber: nat

    constructor (nextFileNumber: nat, builderSize: seq<Entry> -> nat, fileSize: seq<Entry> -> nat,
                 maxOutputFileSize: nat)
      ensures Valid() && Written() == [] && builder.None? && firstNumber == nextFileNumber && outputs == []
      ensures this.builderSize == builderSize && this.maxOutputFileSize == maxOutputFileSize
      ensures this.fileSize == fileSize
    {
      this.firstNumber, this.nextFileNumber := nextFileNumber, nextFileNumber;
      this.builderSize, this.fileSize, this.maxOutputFileSize := builderSize, fileSize, maxOutputFileSize;
      outputs, builder, number := [], None, 0;
      smallest, largest := SeekKey(0.0, 0), SeekKey(0.0, 0);
    }

    ghost predicate Valid()
      reads this
    {
      && OutputsOk(outputs, firstNumber) && Sized(outputs, fileSize)
      && nextFileNumber == firstNumber + |outputs| + (if builder.Some? then 1 else 0)
      && (builder.Some? ==> BuilderOk(builder.value, smallest, largest) && number == firstNumber + |outputs|)
    }

    ghost function Open(): seq<Entry>
      reads this
    {
      if builder.Some? then builder.value else []
    }

    ghost function Written(): seq<Entry>
      reads this
    {
      Flatten(outputs) + if builder.Some? then builder.value else []
    }

    method OpenCompactionOutputFile()
      requires Valid() && builder.None?
      modifies this`builder, this`number, this`nextFileNumber
      ensures builder == Some([]) && number == firstNumber + |outputs| && nextFileNumber == number + 1
    {
      number, nextFileNumber := nextFileNumber, nextFileNumber + 1;
      builder := Some([]);
    }

    method FinishCompactionOutputFile()
      requires Valid() && builder.Some?
      modifies this
      ensures Valid() && builder.None? && Written() == old(Written())
      ensures EntriesOf(outputs) == EntriesOf(old(outputs)) + [old(Open())]
    {
      var before := outputs;
      EntriesOfAppend(before, File(number, fileSize(builder.value), smallest, largest, builder.value));
      outputs := outputs + [File(number, fileSize(builder.value), smallest, largest, builder.value)];
      builder := None;
      assert outputs[..|before|] == before;
    }

    // Close the last output file.
    method Finish() returns (r: seq<File>)
      requires Valid() && Sorted(Written())
      modifies this
      ensures Flatten(r) == old(Written()) && OutputsOk(r, firstNumber) && LevelSorted(r)
      ensures nextFileNumber == firstNumber + |r| && Sized(r, fileSize)
      ensures EntriesOf(r) == EntriesOf(old(outputs)) + if old(Open()) == [] then [] else [old(Open())]
    {
      if builder.Some? {
        FinishCompactionOutputFile();
      }
      r := outputs;
      assert Written() == Flatten(r);
      FlattenLevelSorted(r);
    }

    method Add(e: Entry)
      requires Valid() && Sorted(Written() + [e])
      modifies this
      ensures Valid() && Written() == old(Written()) + [e]
      ensures var open := old(Open()) + [e];
        if builderSize(open) >= maxOutputFileSize
        then Open() == [] && EntriesOf(outputs) == EntriesOf(old(outputs)) + [open]
        else Open() == open && outputs == old(outputs)
    {
      ghost var all := Written() + [e];
      if builder.None? {
        OpenCompactionOutputFile();
      }
      var b := builder.value;
      TailSorted(Flatten(outputs), b + [e], all);
      if b == [] {
        smallest := e.key;
      }
      largest := e.key;
      builder := Some(b + [e]);
      assert Written() == all;
      if builderSize(builder.value) >= maxOutputFileSize {
        FinishCompactionOutputFile();
      }
    }
  }

  lemma TailSorted(before: seq<Entry>, tail: seq<Entry>, all: seq<Entry>)
    requires Sorted(all) && all == before + tail
    ensures Sorted(tail)
  {
    forall i, j | 0 <= i < j < |tail| ensures Less(tail[i].key, tail[j].key) {
      assert tail[i] == all[|before| + i] && tail[j] == all[|before| + j];
    }
  }

  // Decide one entry from the user key and sequence number remembered from the entry before it.
  method ShouldDrop(c: Compaction, e: Entry, lastSequenceForKey: Sequence, oldest: Sequence) returns (drop: bool)
    requires c.Behind(e.key.user)
    modifies c`levelPtrs
    ensures c.Behind(e.key.user)
    ensures drop <==> lastSequenceForKey <= oldest || Obsolete(c.version, c.level, e, oldest)
  {
    drop := false;
    if lastSequenceForKey <= oldest {
      drop := true;
    } else if e.key.kind.Deletion? && e.key.seqno <= oldest {
      drop := c.IsBaseLevelForKey(e.key.user);
    }
  }

  ghost predicate Remembers(all: seq<Entry>, i: nat, currentUserKey: Option<UserKey>, lastSequenceForKey: Sequence)
    requires i <= |all|
  {
    && (i == 0 ==> currentUserKey == None)
    && (i > 0 ==> currentUserKey == Some(all[i - 1].key.user) && lastSequenceForKey == all[i - 1].key.seqno)
  }

  // Whether to drop one entry, from what is remembered of the entry before.
  method Decide(c: Compaction, ghost all: seq<Entry>, ghost i: nat, e: Entry, currentUserKey0: Option<UserKey>,
                lastSequenceForKey0: Sequence, oldest: Sequence)
    returns (drop: bool, currentUserKey: Option<UserKey>, lastSequenceForKey: Sequence)
    requires i < |all| && all[i] == e && c.Behind(e.key.user)
    requires Remembers(all, i, currentUserKey0, lastSequenceForKey0)
    modifies c`levelPtrs
    ensures c.Behind(e.key.user) && Remembers(all, i + 1, currentUserKey, lastSequenceForKey)
    ensures drop <==> Dropped(c.version, c.level, all, i, oldest)
  {
    currentUserKey, lastSequenceForKey := currentUserKey0, lastSequenceForKey0;
    if currentUserKey != Some(e.key.user) {
      currentUserKey := Some(e.key.user);
      lastSequenceForKey := MAX_SEQUENCE;
    }
    assert lastSequenceForKey == LastSequence(all, i);
    hide Compaction.Behind, Obsolete;
    drop := ShouldDrop(c, e, lastSequenceForKey, oldest);
    lastSequenceForKey := e.key.seqno;
  }

  // One entry of the merge: possibly close the output file, decide, and write the entry unless it is dropped.
  method HandleEntry(c: Compaction, st: CompactionState, ghost all: seq<Entry>, ghost i: nat, e: Entry,
                     currentUserKey0: Option<UserKey>, lastSequenceForKey0: Sequence, oldest: Sequence)
    returns (currentUserKey: Option<UserKey>, lastSequenceForKey: Sequence)
    requires Sorted(all) && i < |all| && all[i] == e && st.Valid()
    requires c.Behind(e.key.user) && Remembers(all, i, currentUserKey0, lastSequenceForKey0)
    requires st.Written() == Kept(c.version, c.level, all, i, oldest)
    requires CutSoFar(c, st) == Cuts(RuleOf(c, st), c.version, c.level, all, i, oldest)
    modifies c, st
    ensures st.Valid() && c.Behind(e.key.user) && Remembers(all, i + 1, currentUserKey, lastSequenceForKey)
    ensures st.Written() == Kept(c.version, c.level, all, i + 1, oldest)
    ensures CutSoFar(c, st) == Cuts(RuleOf(c, st), c.version, c.level, all, i + 1, oldest)
  {
    hide LevelSorted, OutputsOk, Sized, BuilderOk, Dropped, Remembers, CompactionState.Valid, CompactionState.Written, Sorted,
         Compaction.Behind, Pass, Put, Arrive, CompactionState.Open;
    ArriveStep(c, st, e.key);
    var drop;
    drop, currentUserKey, lastSequenceForKey :=
      Decide(c, all, i, e, currentUserKey0, lastSequenceForKey0, oldest);
    if !drop {
      KeptSorted(c.version, c.level, all, i + 1, oldest);
      PutStep(c, st, e);
    }
  }

  ghost function RuleOf(c: Compaction, st: CompactionState): CutRule {
    CutRule(c.grandparents, c.maxGrandparentOverlap, st.builderSize, st.maxOutputFileSize)
  }

  ghost function CutSoFar(c: Compaction, st: CompactionState): Cutting
    reads c, st
  {
    Cutting(EntriesOf(st.outputs), st.Open(), c.Scanned())
  }

  // The arrival of a key, which may close the open file.
  method ArriveStep(c: Compaction, st: CompactionState, k: InternalKey)
    requires st.Valid() && c.Behind(k.user)
    modifies c`grandparentIndex, c`seenKey, c`overlappedBytes, st
    ensures st.Valid() && c.Behind(k.user) && st.Written() == old(st.Written())
    ensures CutSoFar(c, st) == Arrive(RuleOf(c, st), old(CutSoFar(c, st)), k)
  {
    OpenIsNonempty(st);
    hide Pass, Compaction.Behind, CompactionState.Valid, CompactionState.Written;
    var stop := c.ShouldStopBefore(k);
    if stop && st.builder.Some? {
      st.FinishCompactionOutputFile();
    }
  }

  lemma OpenIsNonempty(st: CompactionState)
    requires st.Valid()
    ensures st.builder.Some? <==> st.Open() != []
  {
  }

  method PutStep(c: Compaction, st: CompactionState, e: Entry)
    requires st.Valid() && Sorted(st.Written() + [e])
    modifies st
    ensures st.Valid() && st.Written() == old(st.Written()) + [e]
    ensures CutSoFar(c, st) == Put(RuleOf(c, st), old(CutSoFar(c, st)), e)
  {
    hide CompactionState.Valid, CompactionState.Written, Sorted;
    st.Add(e);
  }

  // What holds each time around the loop of a compaction, with `input` at entry i of the merge.
  ghost predicate AtEntry(c: Compaction, st: CompactionState, all: seq<Entry>, i: nat, currentUserKey: Option<UserKey>,
                          lastSequenceForKey: Sequence, oldest: Sequence)
    reads c, st
  {
    && i <= |all| && st.Valid() && Remembers(all, i, currentUserKey, lastSequenceForKey)
    && (i < |all| ==> c.Behind(all[i].key.user))
    && st.Written() == Kept(c.version, c.level, all, i, oldest)
    && CutSoFar(c, st) == Cuts(RuleOf(c, st), c.version, c.level, all, i, oldest)
  }

  method Step(c: Compaction, st: CompactionState, input: MergingIterator, currentUserKey0: Option<UserKey>,
              lastSequenceForKey0: Sequence, oldest: Sequence)
    returns (currentUserKey: Option<UserKey>, lastSequenceForKey: Sequence)
    requires input.Ok() && input.Valid()
    requires AtEntry(c, st, input.merged, input.at, currentUserKey0, lastSequenceForKey0, oldest)
    modifies c, st, input, input.children
    ensures input.Ok() && input.at == old(input.at) + 1
    ensures AtEntry(c, st, input.merged, input.at, currentUserKey, lastSequenceForKey, oldest)
  {
    hide MergingIterator.Ok, Compaction.Behind, Remembers, Kept, CompactionState.Valid, CompactionState.Written, Sorted,
         Cuts, CutSoFar;
    ghost var all, i := input.merged, input.at;
    currentUserKey, lastSequenceForKey := HandleEntry(c, st, all, i, input.Entry(), currentUserKey0,
                                                      lastSequenceForKey0, oldest);
    if i + 1 < |all| {
      StillBehind(c, all, i);
    }
    assert AtEntry(c, st, all, i + 1, currentUserKey, lastSequenceForKey, oldest);
    hide AtEntry;
    input.Next();
  }

  method DoCompactionWork(c: Compaction, st: CompactionState, input: MergingIterator, oldest: Sequence)
    returns (outputs: seq<File>)
    requires c.Started() && st.Valid() && st.outputs == [] && st.builder.None?
    requires input.Ok()
    requires forall l :: c.level + 2 <= l < NUM_LEVELS ==> LevelSorted(c.version[l])
    modifies c, st, input, input.children
    ensures Flatten(outputs) == Kept(c.version, c.level, input.merged, |input.merged|, oldest)
    ensures OutputsOk(outputs, st.firstNumber) && LevelSorted(outputs)
    ensures st.nextFileNumber == st.firstNumber + |outputs| && Sized(outputs, st.fileSize)
    ensures EntriesOf(outputs) == Pieces(RuleOf(c, st), c.version, c.level, input.merged, oldest)
    // Files are cut where the size or the overlap asks for it, and only there; none overlaps too much.
    ensures ByLargest(c.grandparents) ==> WellCut(RuleOf(c, st), input.merged, EntriesOf(outputs))
    ensures ByLargest(c.grandparents) ==> OverlapsLittle(outputs, c.grandparents, c.maxGrandparentOverlap)
  {
    ghost var all := input.merged;
    var currentUserKey: Option<UserKey> := None;
    var lastSequenceForKey: Sequence := MAX_SEQUENCE;
    assert AtEntry(c, st, all, 0, currentUserKey, lastSequenceForKey, oldest);
    hide AtEntry, MergingIterator.Ok;
    input.SeekToFirst();
    while input.Valid()
      invariant input.Ok() && AtEntry(c, st, all, input.at, currentUserKey, lastSequenceForKey, oldest)
      decreases |all| - input.at
    {
      currentUserKey, lastSequenceForKey := Step(c, st, input, currentUserKey, lastSequenceForKey, oldest);
    }
    outputs := FinishWork(c, st, all, currentUserKey, lastSequenceForKey, oldest);
    if ByLargest(c.grandparents) {
      FilesAreWellCut(RuleOf(c, st), c.version, c.level, all, oldest, outputs, st.firstNumber);
    }
  }

  method FinishWork(c: Compaction, st: CompactionState, ghost all: seq<Entry>, ghost currentUserKey: Option<UserKey>,
                    ghost lastSequenceForKey: Sequence, ghost oldest: Sequence) returns (outputs: seq<File>)
    requires Sorted(all) && AtEntry(c, st, all, |all|, currentUserKey, lastSequenceForKey, oldest)
    modifies st
    ensures Flatten(outputs) == Kept(c.version, c.level, all, |all|, oldest)
    ensures OutputsOk(outputs, st.firstNumber) && LevelSorted(outputs)
    ensures st.nextFileNumber == st.firstNumber + |outputs| && Sized(outputs, st.fileSize)
    ensures EntriesOf(outputs) == Pieces(RuleOf(c, st), c.version, c.level, all, oldest)
  {
    KeptSorted(c.version, c.level, all, |all|, oldest);
    outputs := st.Finish();
  }

  // The cursors stay behind: user keys never decrease along the merge.
  lemma StillBehind(c: Compaction, all: seq<Entry>, i: nat)
    requires Sorted(all) && i + 1 < |all| && c.Behind(all[i].key.user)
    ensures c.Behind(all[i + 1].key.user)
  {
    assert Less(all[i].key, all[i + 1].key);
  }
}
