/** The store itself: memtables, the current version and snapshots, and the operations that change them. */
module Engine {
  import opened DbFormat
  import opened Versions
  import opened Inputs
  import opened Iterators
  import opened Merger
  import opened Sources
  import opened OutputCuts
  import opened Compactions
  import opened CompactionMeaning
  import opened VersionSet
  import opened Flushing
  import opened Database
  import Lookup
  import DbIter

  // Limits, and the sizes of tables as functions of what they hold.
  datatype Options = Options(maxGrandparentOverlap: nat, expandedLimit: nat, maxFileSize: nat, maxOutputFileSize: nat,
                             builderSize: seq<Entry> -> nat, fileSize: seq<Entry> -> nat) {
    function Rule(grandparents: seq<File>): CutRule {
      CutRule(grandparents, maxGrandparentOverlap, builderSize, maxOutputFileSize)
    }
  }

  // Which compaction to run: a requested range, the file after the compaction pointer in a level that
  // is too large, or a file that was searched in vain too often.
  datatype Request =
    | Manual(level: nat, begin: Option<UserKey>, end: Option<UserKey>)
    | Automatic(level: nat)
    | AfterSeeks(level: nat, file: File)

  // What a request asks for, given the compaction pointers.
  ghost predicate Asked(options: Options, v: Version, pointers: seq<Option<InternalKey>>, request: Request,
                        chosen: seq<File>)
    requires Possible(v, request) && |pointers| == NUM_LEVELS
  {
    var files := v[request.level];
    match request
    case Manual(level, begin, end) => FirstOfRange(level, files, begin, end, options.maxFileSize, chosen)
    case Automatic(level) => exists f :: FirstPast(files, pointers[level], f) && AroundFile(level, files, f, chosen)
    case AfterSeeks(level, f) => AroundFile(level, files, f, chosen)
  }

  ghost predicate Possible(v: Version, request: Request) {
    && request.level + 1 < NUM_LEVELS && |v| == NUM_LEVELS
    && (request.Automatic? ==> v[request.level] != [])
    && (request.AfterSeeks? ==> request.file in v[request.level])
  }

  // The inputs contain what was asked for, and the grandparents are those of the inputs.
  ghost predicate Answers(options: Options, v: Version, request: Request, chosen: seq<File>, c: Choice,
                          grandparents: seq<File>)
    requires Possible(v, request)
  {
    && c.level == request.level && GoodChoice(v, c) && (forall f :: f in chosen ==> f in c.inputs0)
    && Ordered(c.level, c.inputs0) && (c.level > 0 ==> Convex(v[c.level], c.inputs0))
    && SetUp(v[c.level], v[c.level + 1], chosen, options.expandedLimit, c)
    && AreGrandparents(v, c, grandparents)
  }

  // Only a range that no file overlaps leaves nothing to do.
  ghost predicate NothingToDo(v: Version, request: Request)
    requires Possible(v, request)
  {
    request.Manual? && forall f :: f in v[request.level] ==> !Overlaps(f, request.begin, request.end)
  }

  // A file moves down as it is if it was not asked for as part of a range, is alone in both levels, and overlaps
  // little two levels down.
  predicate MovesDown(options: Options, request: Request, c: Choice, grandparents: seq<File>) {
    && !request.Manual? && |c.inputs0| == 1 && c.inputs1 == []
    && TotalFileSize(grandparents) <= options.maxGrandparentOverlap
  }

  // Anything else is merged, with the limits that apply to its grandparents.
  ghost predicate IsEventFor(options: Options, request: Request, c: Choice, grandparents: seq<File>, ev: Event) {
    if MovesDown(options, request, c, grandparents) then ev == TrivialMove(c)
    else
      && ev.Compact? && ev.run.c == c && ev.rule == options.Rule(grandparents)
      && Sized(ev.run.outputs, options.fileSize)
  }

  // What a request for a compaction that has work to do ends in: the event, the compaction pointers, and for a
  // range where the rest of it begins.
  ghost predicate Serves(options: Options, v: Version, pointers: seq<Option<InternalKey>>, request: Request, ev: Event,
                         next: seq<Option<InternalKey>>, manualEnd: Option<InternalKey>)
    requires Possible(v, request) && |pointers| == NUM_LEVELS
  {
    exists chosen, c, grandparents ::
      ServesWith(options, v, pointers, request, chosen, c, grandparents, ev, next, manualEnd)
  }

  ghost predicate ServesWith(options: Options, v: Version, pointers: seq<Option<InternalKey>>, request: Request,
                             chosen: seq<File>, c: Choice, grandparents: seq<File>, ev: Event,
                             next: seq<Option<InternalKey>>, manualEnd: Option<InternalKey>)
    requires Possible(v, request) && |pointers| == NUM_LEVELS
  {
    && Asked(options, v, pointers, request, chosen) && Answers(options, v, request, chosen, c, grandparents)
    && IsEventFor(options, request, c, grandparents, ev)
    && next == pointers[c.level := Some(c.largest)]
    && manualEnd == if request.Manual? then Some(c.inputs0[|c.inputs0| - 1].largest) else None
  }

  // The inputs of the requested compaction, if there are any.
  method PickInputs(options: Options, v: Version, pointers: seq<Option<InternalKey>>, request: Request)
    returns (c: Option<Choice>, grandparents: seq<File>, ghost chosen: seq<File>)
    requires Inv(v) && Possible(v, request) && |pointers| == NUM_LEVELS
    ensures c.None? <==> NothingToDo(v, request)
    ensures c.Some? ==>
      && GoodChoice(v, c.value) && Ordered(c.value.level, c.value.inputs0) && c.value.level == request.level
      && Asked(options, v, pointers, request, chosen) && Answers(options, v, request, chosen, c.value, grandparents)
  {
    hide GoodChoice, Ordered, SetUp, AreGrandparents, FirstPast, AroundFile, FirstOfRange, Inv, Overlaps, Convex;
    match request
    case Manual(level, begin, end) =>
      c, grandparents, chosen := CompactRange(v, level, begin, end, options.maxFileSize, options.expandedLimit);
    case Automatic(level) =>
      var f := PickFile(v[level], pointers[level]);
      var choice;
      choice, grandparents, chosen := PickCompaction(v, level, f, options.expandedLimit);
      c := Some(choice);
    case AfterSeeks(level, f) =>
      var choice;
      choice, grandparents, chosen := PickCompaction(v, level, f, options.expandedLimit);
      c := Some(choice);
  }

  // ---- Iterators over lists of entries -----------------------------------------------------------------------

  method MakeIterators(lists: seq<seq<Entry>>) returns (its: seq<Iterator>)
    requires AllSorted(lists)
    ensures |its| == |lists| && fresh(its)
    ensures forall i, j :: 0 <= i < j < |its| ==> its[i] != its[j]
    ensures forall i :: 0 <= i < |its| ==> its[i].Ok() && its[i].entries == lists[i]
  {
    its := [];
    for n := 0 to |lists|
      invariant |its| == n && fresh(its)
      invariant forall i, j :: 0 <= i < j < n ==> its[i] != its[j]
      invariant forall i :: 0 <= i < n ==> its[i].Ok() && its[i].entries == lists[i]
    {
      var it := new Iterator(lists[n]);
      its := its + [it];
    }
  }

  method NewMergingIterator(lists: seq<seq<Entry>>, ghost es: set<Entry>) returns (it: MergingIterator)
    requires Hold(lists, es)
    ensures it.Ok() && fresh(it) && fresh(it.children) && EntrySet(it.merged) == es
  {
    ghost var merged := MergeExists(lists);
    var children := MakeIterators(lists);
    assert ListsOf(children) == lists;
    it := new MergingIterator(children, merged);
  }

  // ---- Lookups across three sources ----------------------------------------------------------------------------

  lemma HitDecides(above: set<Entry>, here: set<Entry>, below: set<Entry>, u: UserKey, s: Sequence, e: Entry)
    requires Newer(above + here, below) && NoneSeen(above, u, s) && Newest(here, u, s, e)
    ensures Newest(above + here + below, u, s, e)
  {
    assert Newest(above + here, u, s, e);
    NewestInNewer(above + here, below, u, s, e);
  }

  function ValueOf(e: Option<Entry>): Option<Bytes> {
    if e.Some? && e.value.key.kind.Value? then Some(e.value.value) else None
  }

  lemma AnswerIsRead(es: set<Entry>, u: UserKey, s: Sequence, e: Option<Entry>)
    requires e.Some? ==> Newest(es, u, s, e.value)
    requires e.None? ==> NoneSeen(es, u, s)
    ensures ValueOf(e) == Read(es, u, s)
  {
    if e.Some? {
      ReadFromNewest(es, u, s, e.value);
    }
  }

  // ---- Adding to the memtable --------------------------------------------------------------------------------------

  lemma InsertStep(mem0: seq<Entry>, mem: seq<Entry>, last: Sequence, ops: seq<Op>, i: nat)
    requires last + |ops| <= MAX_SEQUENCE && i < |ops| && AtMost(EntrySet(mem0), last)
    requires Sorted(mem) && EntrySet(mem) == EntrySet(mem0) + NewEntries(last, ops[..i])
    ensures var r := InsertEntry(mem, NewEntry(last, ops, i));
      Sorted(r) && EntrySet(r) == EntrySet(mem0) + NewEntries(last, ops[..i + 1])
  {
    NewEntriesAppend(last, ops, i);
    NewEntriesAreHigh(last, ops[..i]);
    var e := NewEntry(last, ops, i);
    hide Sorted, NewEntries, InsertEntry;
    forall d | d in mem ensures d.key != e.key {
      assert d in EntrySet(mem);
    }
    InsertEntrySorted(mem, e);
  }

  method InsertInto(mem0: seq<Entry>, last: Sequence, ops: seq<Op>) returns (mem: seq<Entry>)
    requires Sorted(mem0) && last + |ops| <= MAX_SEQUENCE && AtMost(EntrySet(mem0), last)
    ensures Sorted(mem) && EntrySet(mem) == EntrySet(mem0) + NewEntries(last, ops)
  {
    mem := mem0;
    assert NewEntries(last, ops[..0]) == {};
    hide *;
    for i := 0 to |ops|
      invariant Sorted(mem) && EntrySet(mem) == EntrySet(mem0) + NewEntries(last, ops[..i])
    {
      InsertStep(mem0, mem, last, ops, i);
      mem := InsertEntry(mem, NewEntry(last, ops, i));
    }
    assert ops[..|ops|] == ops;
  }

  class DBImpl {
    const options: Options
    var mem: seq<Entry>
    var imm: Option<seq<Entry>>
    var version: Version
    var lastSequence: Sequence
    var nextFileNumber: nat
    var snapshots: seq<Sequence>
    // Per level, the largest key of the compaction before.
    var compactPointer: seq<Option<InternalKey>>

    constructor (options: Options, nextFileNumber: nat)
      ensures this.options == options && Initial(St()) && Valid()
      ensures compactPointer == seq(NUM_LEVELS, _ => None)
    {
      this.options, this.nextFileNumber := options, nextFileNumber;
      compactPointer := seq(NUM_LEVELS, _ => None);
      mem, imm, version := [], None, seq(NUM_LEVELS, _ => []);
      lastSequence, snapshots := 0, [];
      new;
      InitialOk(St());
    }

    ghost function St(): State
      reads this
    {
      State(mem, imm, version, lastSequence, nextFileNumber, snapshots)
    }

    ghost predicate Valid()
      reads this
    {
      StateOk(St()) && |compactPointer| == NUM_LEVELS
    }

    // The value of the newest entry the snapshot may see, over memtables and files.
    method Get(u: UserKey, snapshot: Option<Sequence>) returns (r: Option<Bytes>)
      requires Valid()
      ensures snapshot.Some? ==> r == Read(Contents(St()), u, snapshot.value)
      ensures snapshot.None? ==> r == Read(Contents(St()), u, lastSequence)
    {
      var s := if snapshot.Some? then snapshot.value else lastSequence;
      ghost var m, i, f := EntrySet(mem), Imm(St()), VersionEntries(version);
      assert Contents(St()) == m + i + f && Newer(m, i) && Newer(m + i, f);
      hide Inv, VersionEntries, AtMost, NumbersBelow, Newer, Newest, NoneSeen, Contents, Upper, Sorted;
      var e := Probe(mem, u, s);
      if e.Some? {
        assert {} + m == m && m + i + f == {} + m + (i + f);
        NewestInNewer(m, i, u, s, e.value);
        NewestInNewer(m + i, f, u, s, e.value);
      } else {
        if imm.Some? {
          e := Probe(imm.value, u, s);
        } else {
          NothingSeen(u, s);
        }
        if e.Some? {
          HitDecides(m, i, f, u, s, e.value);
        } else {
          e := Lookup.Get(version, u, s);
          MissDecides(m, i, f, u, s, e);
        }
      }
      AnswerIsRead(m + i + f, u, s, e);
      r := ValueOf(e);
    }

    // Consecutive sequence numbers for the operations of one batch, all added to the memtable.
    method Write(ops: seq<Op>)
      requires Valid() && lastSequence + |ops| <= MAX_SEQUENCE
      modifies this`mem, this`lastSequence
      ensures Valid() && Next(old(St()), St(), Event.Write(ops))
    {
      ghost var before := St();
      assert AtMost(EntrySet(mem), lastSequence) by {
        hide Inv, VersionEntries, Newer, NumbersBelow, Sorted;
      }
      hide NewEntries, Sorted;
      mem := InsertInto(mem, lastSequence, ops);
      lastSequence := lastSequence + |ops|;
      assert Next(before, St(), Event.Write(ops));
      EventKeepsState(before, St(), Event.Write(ops));
    }

    // A full memtable becomes the immutable one; its log takes a file number.
    method SwitchMemTable()
      requires Valid() && imm.None?
      modifies this`nextFileNumber, this`imm, this`mem
      ensures Valid() && Next(old(St()), St(), Event.SwitchMemTable)
    {
      ghost var before := St();
      nextFileNumber := nextFileNumber + 1;
      imm, mem := Some(mem), [];
      EventKeepsState(before, St(), Event.SwitchMemTable);
    }

    method CompactMemTable() returns (ghost ev: Event)
      requires Valid() && imm.Some?
      modifies this`nextFileNumber, this`imm, this`version
      ensures Valid() && imm.None? && Next(old(St()), St(), ev) && (ev.Flush? || ev.FlushNothing?)
      // The table has the size it was built with, and goes down as far as it may.
      ensures ev.Flush? ==>
        && ev.file.size == options.fileSize(ev.file.entries) && |version| == NUM_LEVELS
        && ev.level <= MAX_MEM_COMPACT_LEVEL
        && StopsFor(old(version), ev.level, ev.file.smallest.user, ev.file.largest.user, options.maxGrandparentOverlap)
    {
      ghost var before := St();
      var number, entries := nextFileNumber, imm.value;
      if entries == [] {
        ev := FlushNothing;
        nextFileNumber, imm := number + 1, None;
      } else {
        var f := File(number, options.fileSize(entries), entries[0].key, entries[|entries| - 1].key, entries);
        assert Sorted(entries) && Inv(version) && NumbersBelow(version, number);
        hide Inv, Placeable, Flushed, NumbersBelow, Sorted;
        var level := PickLevelForMemTableOutput(version, f.smallest.user, f.largest.user, options.maxGrandparentOverlap);
        PlaceableLevel(version, level, f.smallest.user, f.largest.user);
        version := InstallFlush(version, f, level);
        nextFileNumber, imm := number + 1, None;
        ev := Flush(f, level);
        assert Next(before, St(), ev);
      }
      hide Next, StateOk;
      EventKeepsState(before, St(), ev);
    }

    lemma VersionOk()
      requires Valid()
      ensures Inv(version) && |version| == NUM_LEVELS && Sorted(mem) && NumbersBelow(version, nextFileNumber)
      ensures Newer(Upper(St()), VersionEntries(version)) && KeysDistinct(Upper(St()))
    {
      ContentsDistinct(St());
    }

    // One round of background work: flush the immutable memtable if there is one, else run a compaction. A manual
    // one returns where the rest of its range begins.
    method BackgroundCompaction(request: Request) returns (manualEnd: Option<InternalKey>, ghost ev: Option<Event>)
      requires Valid() && Possible(version, request)
      modifies this`nextFileNumber, this`imm, this`version, this`compactPointer
      ensures Valid()
      ensures ev.None? ==> St() == old(St()) && compactPointer == old(compactPointer)
      ensures ev.Some? ==> Next(old(St()), St(), ev.value)
      ensures old(imm).Some? ==>
        imm.None? && ev.Some? && (ev.value.Flush? || ev.value.FlushNothing?) && compactPointer == old(compactPointer)
      ensures old(imm).None? ==> (ev.None? <==> NothingToDo(old(version), request))
      ensures old(imm).None? && ev.Some? ==>
        Serves(options, old(version), old(compactPointer), request, ev.value, compactPointer, manualEnd)
      ensures manualEnd.Some? <==> old(imm).None? && ev.Some? && request.Manual?
    {
      manualEnd := None;
      assert |compactPointer| == NUM_LEVELS > request.level;
      VersionOk();
      hide StateOk, Next, Possible, Asked, Answers, GoodChoice, IsEventFor, Ordered, StopsFor, NothingToDo, Inv, Newer,
           VersionEntries, NumbersBelow, KeysDistinct, Sorted, Serves;
      if imm.Some? {
        ghost var flush := CompactMemTable();
        ev := Some(flush);
        return;
      }
      var choice, grandparents;
      ghost var chosen;
      choice, grandparents, chosen := PickInputs(options, version, compactPointer, request);
      if choice.None? {
        ev := None;
        return;
      }
      ghost var done;
      manualEnd, done := RunRequest(request, choice.value, grandparents, chosen);
      ev := Some(done);
    }

    // Move the file or run the compaction that was chosen.
    method RunRequest(request: Request, c: Choice, grandparents: seq<File>, ghost chosen: seq<File>)
      returns (manualEnd: Option<InternalKey>, ghost ev: Event)
      requires Valid() && GoodChoice(version, c) && Ordered(c.level, c.inputs0) && c.level < NUM_LEVELS
      requires Possible(version, request) && Asked(options, version, compactPointer, request, chosen)
      requires Answers(options, version, request, chosen, c, grandparents)
      modifies this`version, this`nextFileNumber, this`compactPointer
      ensures Valid() && Next(old(St()), St(), ev)
      ensures Serves(options, old(version), old(compactPointer), request, ev, compactPointer, manualEnd)
      ensures manualEnd.Some? <==> request.Manual?
    {
      hide *;
      InputsNotEmpty(version, c);
      StateParts();
      ghost var v, pointers := version, compactPointer;
      manualEnd := if request.Manual? then Some(c.inputs0[|c.inputs0| - 1].largest) else None;
      ev := RunChoice(request, c, grandparents);
      MakeServes(options, v, pointers, request, ev, manualEnd, chosen, c, grandparents);
      StateParts();
      compactPointer := compactPointer[c.level := Some(c.largest)];
      StateParts();
    }

    method RunChoice(request: Request, c: Choice, grandparents: seq<File>) returns (ghost ev: Event)
      requires Valid() && GoodChoice(version, c) && Ordered(c.level, c.inputs0)
      modifies this`version, this`nextFileNumber
      ensures Valid() && Next(old(St()), St(), ev) && IsEventFor(options, request, c, grandparents, ev)
    {
      hide StateOk, Next, GoodChoice, Ordered;
      if !request.Manual? && |c.inputs0| == 1 && |c.inputs1| == 0
        && TotalFileSize(grandparents) <= options.maxGrandparentOverlap
      {
        MoveFile(c);
        ev := TrivialMove(c);
      } else {
        ghost var r := RunCompaction(c, grandparents);
        ev := Compact(r, options.Rule(grandparents));
      }
    }

    method MoveFile(c: Choice)
      requires Valid() && GoodChoice(version, c) && |c.inputs0| == 1 && c.inputs1 == []
      modifies this`version
      ensures Valid() && Next(old(St()), St(), TrivialMove(c))
    {
      ghost var before := St();
      VersionOk();
      MovedFileIsNew(version, c);
      hide StateOk, GoodChoice, Compacted, NewOutputs;
      version := InstallCompactionResults(version, c, c.inputs0);
      assert Next(before, St(), TrivialMove(c));
      hide Next;
      EventKeepsState(before, St(), TrivialMove(c));
    }

    method RunCompaction(c: Choice, grandparents: seq<File>) returns (ghost r: Run)
      requires Valid() && GoodChoice(version, c) && Ordered(c.level, c.inputs0)
      modifies this`version, this`nextFileNumber
      ensures Valid() && Next(old(St()), St(), Compact(r, options.Rule(grandparents)))
      ensures r.c == c && Sized(r.outputs, options.fileSize)
    {
      hide *;
      ghost var before := St();
      VersionOk();
      StateParts();
      var oldest := if snapshots == [] then lastSequence else snapshots[0];
      version, nextFileNumber, r :=
        CompactAndInstall(options, version, c, grandparents, nextFileNumber, oldest, Upper(before));
      StateParts();
      MakeCompact(before, St(), r, options.Rule(grandparents));
      EventKeepsState(before, St(), Compact(r, options.Rule(grandparents)));
    }

    lemma StateParts()
      ensures St() == State(mem, imm, version, lastSequence, nextFileNumber, snapshots)
      ensures Oldest(St()) == if snapshots == [] then lastSequence else snapshots[0]
      ensures Valid() <==> StateOk(St()) && |compactPointer| == NUM_LEVELS
    {
    }

    method GetSnapshot() returns (s: Sequence)
      requires Valid()
      modifies this`snapshots
      ensures Valid() && s == old(lastSequence) && Next(old(St()), St(), TakeSnapshot)
      ensures snapshots == old(snapshots) + [s]
    {
      ghost var before := St();
      s := lastSequence;
      snapshots := snapshots + [s];
      hide StateOk;
      EventKeepsState(before, St(), TakeSnapshot);
    }

    method ReleaseSnapshot(i: nat)
      requires Valid() && i < |snapshots|
      modifies this`snapshots
      ensures Valid() && Next(old(St()), St(), Event.ReleaseSnapshot(i))
      ensures snapshots == old(snapshots)[..i] + old(snapshots)[i + 1..]
    {
      ghost var before := St();
      snapshots := snapshots[..i] + snapshots[i + 1..];
      hide StateOk;
      EventKeepsState(before, St(), Event.ReleaseSnapshot(i));
    }

    // An iterator over the whole store, which later changes of the store do not affect.
    method NewIterator(snapshot: Option<Sequence>) returns (it: DbIter.DBIter)
      requires Valid()
      ensures it.Ok() && fresh(it) && fresh(it.iter) && fresh(it.iter.children)
      ensures EntrySet(it.Es()) == Contents(St())
      ensures snapshot.Some? ==> it.sequence == snapshot.value
      ensures snapshot.None? ==> it.sequence == lastSequence
    {
      assert Inv(version) && Sorted(mem) && (imm.Some? ==> Sorted(imm.value));
      StoreListsOk(mem, imm, version, Imm(St()));
      hide Hold, Inv, StateOk, Sorted, VersionEntries;
      var iter := NewMergingIterator(StoreLists(mem, imm, version), Contents(St()));
      it := new DbIter.DBIter(iter, if snapshot.Some? then snapshot.value else lastSequence);
    }
  }

  // A client: a value read at a snapshot reads the same after a write, which the latest reads see.
  method ReadWriteRead(db: DBImpl, u: UserKey, ops: seq<Op>)
    returns (first: Option<Bytes>, again: Option<Bytes>, latest: Option<Bytes>)
    requires db.Valid() && db.lastSequence + |ops| <= MAX_SEQUENCE
    modifies db
    ensures db.Valid() && again == first && latest == Applied(ops, u, first)
  {
    ghost var start := db.St();
    var s := db.GetSnapshot();
    ghost var a := db.St();
    SnapshotKeepsState(start, a, TakeSnapshot);
    first := db.Get(u, Some(s));
    db.Write(ops);
    WriteKeepsSnapshots(a, db.St(), ops, u, s);
    again := db.Get(u, Some(s));
    latest := db.Get(u, None);
  }

  function ChoiceOf(ev: Event): Choice
    requires ev.TrivialMove? || ev.Compact?
  {
    if ev.TrivialMove? then ev.choice else ev.run.c
  }

  lemma ServedBy(options: Options, v: Version, pointers: seq<Option<InternalKey>>, request: Request, ev: Event,
                 next: seq<Option<InternalKey>>, manualEnd: Option<InternalKey>)
    returns (chosen: seq<File>, grandparents: seq<File>)
    requires Possible(v, request) && |pointers| == NUM_LEVELS
    requires Serves(options, v, pointers, request, ev, next, manualEnd)
    ensures (ev.TrivialMove? || ev.Compact?) && Asked(options, v, pointers, request, chosen)
    ensures Answers(options, v, request, chosen, ChoiceOf(ev), grandparents)
    ensures IsEventFor(options, request, ChoiceOf(ev), grandparents, ev)
    ensures ChoiceOf(ev).inputs0 != []
    ensures request.Manual? ==> manualEnd == Some(ChoiceOf(ev).inputs0[|ChoiceOf(ev).inputs0| - 1].largest)
  {
    hide ServesWith;
    var c;
    chosen, c, grandparents :| ServesWith(options, v, pointers, request, chosen, c, grandparents, ev, next, manualEnd);
    ServedWith(options, v, pointers, request, chosen, c, grandparents, ev, next, manualEnd);
  }

  lemma ServedWith(options: Options, v: Version, pointers: seq<Option<InternalKey>>, request: Request,
                   chosen: seq<File>, c: Choice, grandparents: seq<File>, ev: Event, next: seq<Option<InternalKey>>,
                   manualEnd: Option<InternalKey>)
    requires Possible(v, request) && |pointers| == NUM_LEVELS
    requires ServesWith(options, v, pointers, request, chosen, c, grandparents, ev, next, manualEnd)
    ensures (ev.TrivialMove? || ev.Compact?) && ChoiceOf(ev) == c
    ensures Asked(options, v, pointers, request, chosen) && Answers(options, v, request, chosen, c, grandparents)
    ensures IsEventFor(options, request, c, grandparents, ev)
    ensures c.inputs0 != []
    ensures request.Manual? ==> manualEnd == Some(c.inputs0[|c.inputs0| - 1].largest)
  {
    InputsNotEmpty(v, c);
  }

  ghost predicate TakesFirst(all: seq<File>, maxFileSize: nat, taken: seq<File>) {
    exists n: nat :: IsLimit(all, maxFileSize, n) && AllIn(all[..n], taken)
  }

  ghost predicate AllIn(files: seq<File>, taken: seq<File>) {
    forall f :: f in files ==> f in taken
  }

  // The files of a level that overlap a range are taken, at level 0 all of them and else up to the size limit; the
  // file past the compaction pointer is taken; the file searched in vain is taken.
  ghost predicate TakesWhatIsAsked(options: Options, v: Version, pointers: seq<Option<InternalKey>>, request: Request,
                                   taken: seq<File>)
    requires Possible(v, request) && |pointers| == NUM_LEVELS
  {
    var files := v[request.level];
    match request
    case Manual(level, begin, end) =>
      if level == 0 then forall f :: f in files && Overlaps(f, begin, end) ==> f in taken
      else TakesFirst(Overlapping(files, begin, end), options.maxFileSize, taken)
    case Automatic(level) => exists f :: FirstPast(files, pointers[level], f) && f in taken
    case AfterSeeks(level, f) => f in taken
  }

  lemma InRangeTakes(files: seq<File>, begin: Option<UserKey>, end: Option<UserKey>, r: seq<File>)
    requires InRange(0, files, begin, end, r)
    ensures forall f :: f in files && Overlaps(f, begin, end) ==> f in r
  {
  }

  lemma AroundItself(v: Version, level: nat, f: File, chosen: seq<File>)
    requires Inv(v) && level < NUM_LEVELS && f in v[level] && AroundFile(level, v[level], f, chosen)
    ensures f in chosen
  {
    IsValidFile(v, level, f);
    FileRange(f);
    hide Inv, InRange;
    if level == 0 {
      InRangeTakes(v[0], Some(f.smallest.user), Some(f.largest.user), chosen);
    }
  }

  lemma FirstPastIsThere(files: seq<File>, pointer: Option<InternalKey>, f: File)
    requires files != [] && FirstPast(files, pointer, f)
    ensures f in files
  {
  }

  lemma FirstAreTaken(level: nat, files: seq<File>, begin: Option<UserKey>, end: Option<UserKey>, maxFileSize: nat,
                      chosen: seq<File>, taken: seq<File>)
    requires level > 0 && FirstOfRange(level, files, begin, end, maxFileSize, chosen) && AllIn(chosen, taken)
    ensures TakesFirst(Overlapping(files, begin, end), maxFileSize, taken)
  {
    var all := Overlapping(files, begin, end);
    var n: nat :| IsLimit(all, maxFileSize, n) && chosen == all[..n];
    assert AllIn(all[..n], taken);
  }

  lemma AskedIsTaken(options: Options, v: Version, pointers: seq<Option<InternalKey>>, request: Request,
                     chosen: seq<File>, taken: seq<File>)
    requires Inv(v) && Possible(v, request) && |pointers| == NUM_LEVELS
    requires Asked(options, v, pointers, request, chosen) && forall f :: f in chosen ==> f in taken
    ensures TakesWhatIsAsked(options, v, pointers, request, taken)
  {
    hide Inv, FirstPast, AroundFile, IsLimit, InRange, Overlaps;
    match request
    case Manual(level, begin, end) =>
      var files := v[level];
      if level == 0 {
        InRangeTakes(files, begin, end, chosen);
      } else {
        FirstAreTaken(level, files, begin, end, options.maxFileSize, chosen, taken);
      }
    case Automatic(level) =>
      var f :| FirstPast(v[level], pointers[level], f) && AroundFile(level, v[level], f, chosen);
      FirstPastIsThere(v[level], pointers[level], f);
      AroundItself(v, level, f, chosen);
    case AfterSeeks(level, f) =>
      AroundItself(v, level, f, chosen);
  }

  lemma GrandparentsAreUnique(v: Version, c: Choice, gs: seq<File>, hs: seq<File>)
    requires AreGrandparents(v, c, gs) && AreGrandparents(v, c, hs)
    ensures gs == hs
  {
    if c.level + 2 < |v| {
      var start, limit :| Spanned(c, start, limit)
        && gs == Overlapping(v[c.level + 2], Some(start.user), Some(limit.user));
      var start', limit' :| Spanned(c, start', limit')
        && hs == Overlapping(v[c.level + 2], Some(start'.user), Some(limit'.user));
      LessIsTotal(start, start');
      LessIsTotal(limit, limit');
    }
  }

  /**
   * What `BackgroundCompaction` promises of a request with work to do, in terms of the request alone: it takes the
   * files asked for, and moves a file down exactly under the three conditions for that.
   */
  lemma RequestIsServed(options: Options, v: Version, pointers: seq<Option<InternalKey>>, request: Request, ev: Event,
                        next: seq<Option<InternalKey>>, manualEnd: Option<InternalKey>)
    requires Inv(v) && Possible(v, request) && |pointers| == NUM_LEVELS
    requires Serves(options, v, pointers, request, ev, next, manualEnd)
    ensures (ev.TrivialMove? || ev.Compact?) && ChoiceOf(ev).level == request.level
    ensures TakesWhatIsAsked(options, v, pointers, request, ChoiceOf(ev).inputs0)
    ensures forall gs :: AreGrandparents(v, ChoiceOf(ev), gs) ==>
      && (ev.TrivialMove? <==> MovesDown(options, request, ChoiceOf(ev), gs))
      && (ev.Compact? ==> ev.rule == options.Rule(gs))
  {
    var chosen, grandparents := ServedBy(options, v, pointers, request, ev, next, manualEnd);
    var c := ChoiceOf(ev);
    hide Inv, Serves, Asked, TakesWhatIsAsked, Possible, GoodChoice, SetUp, Ordered, Convex;
    AskedIsTaken(options, v, pointers, request, chosen, c.inputs0);
    forall gs | AreGrandparents(v, c, gs) ensures gs == grandparents {
      GrandparentsAreUnique(v, c, gs, grandparents);
    }
  }

  // The output files of background work are cut where the size or the overlap asks for it, and overlap little two
  // levels down.
  lemma CompactionIsWellCut(options: Options, a: State, b: State, pointers: seq<Option<InternalKey>>, request: Request,
                            ev: Event, next: seq<Option<InternalKey>>, manualEnd: Option<InternalKey>)
    requires Inv(a.version) && Possible(a.version, request) && |pointers| == NUM_LEVELS
    requires Next(a, b, ev) && ev.Compact?
    requires Serves(options, a.version, pointers, request, ev, next, manualEnd)
    ensures WellCut(ev.rule, ev.run.input, EntriesOf(ev.run.outputs))
    ensures OverlapsLittle(ev.run.outputs, ev.rule.grandparents, options.maxGrandparentOverlap)
  {
    var chosen, grandparents := ServedBy(options, a.version, pointers, request, ev, next, manualEnd);
    assert AreGrandparents(a.version, ev.run.c, grandparents);
    hide Inv, Answers, Next, ByLargest, WellCut, OverlapsLittle, Serves, AreGrandparents, Asked;
    GrandparentsByLargest(a.version, ev.run.c, grandparents);
    CompactIsWellCut(a, b, ev.run, ev.rule);
  }

  lemma GrandparentsByLargest(v: Version, c: Choice, grandparents: seq<File>)
    requires Inv(v) && AreGrandparents(v, c, grandparents)
    ensures ByLargest(grandparents)
  {
    if c.level + 2 < NUM_LEVELS {
      assert LevelOk(c.level + 2, v[c.level + 2]);
      hide Inv, LevelOk;
      var start, limit :| Spanned(c, start, limit)
        && grandparents == Overlapping(v[c.level + 2], Some(start.user), Some(limit.user));
      OverlappingSorted(v[c.level + 2], Some(start.user), Some(limit.user));
      LevelIsByLargest(grandparents);
    }
  }

  lemma MakeServes(options: Options, v: Version, pointers: seq<Option<InternalKey>>, request: Request, ev: Event,
                   manualEnd: Option<InternalKey>, chosen: seq<File>, c: Choice, grandparents: seq<File>)
    requires Possible(v, request) && |pointers| == NUM_LEVELS && Asked(options, v, pointers, request, chosen)
    requires Answers(options, v, request, chosen, c, grandparents)
    requires IsEventFor(options, request, c, grandparents, ev)
    requires c.inputs0 != [] && c.level < NUM_LEVELS
    requires manualEnd == if request.Manual? then Some(c.inputs0[|c.inputs0| - 1].largest) else None
    ensures Serves(options, v, pointers, request, ev, pointers[c.level := Some(c.largest)], manualEnd)
  {
    var next := pointers[c.level := Some(c.largest)];
    assert ServesWith(options, v, pointers, request, chosen, c, grandparents, ev, next, manualEnd) by {
      hide Asked, Possible, IsEventFor;
    }
    hide ServesWith;
  }

  lemma InputsNotEmpty(v: Version, c: Choice)
    requires GoodChoice(v, c)
    ensures c.inputs0 != []
  {
  }

  lemma PlaceableLevel(v: Version, level: nat, lo: UserKey, hi: UserKey)
    requires Placeable(v, level, lo, hi)
    ensures level < NUM_LEVELS
  {
  }

  lemma MovedFileIsNew(v: Version, c: Choice)
    requires Inv(v) && GoodChoice(v, c) && |c.inputs0| == 1
    ensures NewOutputs(v, c, c.inputs0)
  {
    assert NumbersDisjoint(v[c.level], v[c.level + 1]);
    assert c.inputs0[0] in v[c.level];
    hide Inv, GoodChoice;
  }

  lemma SortedBelow(v: Version)
    requires Inv(v)
    ensures forall l :: 1 <= l < NUM_LEVELS ==> LevelSorted(v[l])
  {
    forall l | 1 <= l < NUM_LEVELS ensures LevelSorted(v[l]) {
      assert LevelOk(l, v[l]);
    }
  }

  lemma OutputsAreNew(v: Version, c: Choice, outputs: seq<File>, n: nat)
    requires GoodChoice(v, c) && NumbersBelow(v, n) && OutputsOk(outputs, n)
    ensures NewOutputs(v, c, outputs)
  {
    hide FilesValid;
    ConsecutiveNumbers(outputs, n);
  }

  // Merge the inputs of a choice into output files numbered from `n` on.
  method CompactFiles(options: Options, v: Version, c: Choice, grandparents: seq<File>, n: nat, oldest: Sequence)
    returns (outputs: seq<File>, next: nat, ghost input: seq<Entry>)
    requires Inv(v) && GoodChoice(v, c) && Ordered(c.level, c.inputs0)
    ensures MergeOf(c, input)
    ensures Flatten(outputs) == Kept(v, c.level, input, |input|, oldest)
    ensures OutputsOk(outputs, n) && LevelSorted(outputs) && next == n + |outputs|
    ensures Sized(outputs, options.fileSize)
    ensures EntriesOf(outputs) == Pieces(options.Rule(grandparents), v, c.level, input, oldest)
  {
    SortedBelow(v);
    InputListsOk(v, c);
    hide Hold, GoodChoice, Newer, Ordered, LevelEntries, Kept, LevelSorted, OutputsOk, Flatten, Pieces;
    var compaction := new Compaction(v, c.level, grandparents, options.maxGrandparentOverlap);
    var st := new CompactionState(n, options.builderSize, options.fileSize, options.maxOutputFileSize);
    hide Inv;
    var iter := NewMergingIterator(InputLists(c), LevelEntries(c.inputs0) + LevelEntries(c.inputs1));
    input := iter.merged;
    outputs := DoCompactionWork(compaction, st, iter, oldest);
    next := st.nextFileNumber;
  }

  method CompactAndInstall(options: Options, v: Version, c: Choice, grandparents: seq<File>, n: nat, oldest: Sequence,
                           ghost upper: set<Entry>) returns (after: Version, next: nat, ghost r: Run)
    requires Inv(v) && NumbersBelow(v, n) && GoodChoice(v, c) && Ordered(c.level, c.inputs0)
    requires Newer(upper, VersionEntries(v)) && KeysDistinct(upper)
    ensures Ok(r) && r.v == v && r.c == c && r.upper == upper && r.oldest == oldest
    ensures r.after == after && next == n + |r.outputs|
    ensures OutputsOk(r.outputs, n) && LevelSorted(r.outputs) && Sized(r.outputs, options.fileSize)
    ensures EntriesOf(r.outputs) == Pieces(options.Rule(grandparents), v, c.level, r.input, oldest)
  {
    hide *;
    var outputs;
    ghost var input;
    outputs, next, input := CompactFiles(options, v, c, grandparents, n, oldest);
    OutputsAreNew(v, c, outputs, n);
    after := InstallCompactionResults(v, c, outputs);
    r := Run.Run(v, c, input, oldest, outputs, after, upper);
    MakeOk(r);
  }

  lemma NothingSeen(u: UserKey, s: Sequence)
    ensures NoneSeen({}, u, s)
  {
  }

  lemma MissDecides(a: set<Entry>, b: set<Entry>, c: set<Entry>, u: UserKey, s: Sequence, e: Option<Entry>)
    requires NoneSeen(a, u, s) && NoneSeen(b, u, s)
    requires e.Some? ==> Newest(c, u, s, e.value)
    requires e.None? ==> NoneSeen(c, u, s)
    ensures e.Some? ==> Newest(a + b + c, u, s, e.value)
    ensures e.None? ==> NoneSeen(a + b + c, u, s)
  {
  }
}
