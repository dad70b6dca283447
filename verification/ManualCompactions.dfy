/** Compacting a range by hand, level by level, and what is left of the range above the deepest level. */
module ManualCompactions {
  import opened DbFormat
  import opened Versions
  import opened Inputs
  import opened Builder
  import opened CompactionMeaning
  import opened Compactions
  import opened Flushing
  import opened Database
  import opened Engine

  ghost predicate NoneOverlaps(files: seq<File>, begin: Option<UserKey>, end: Option<UserKey>) {
    forall f :: f in files ==> !Overlaps(f, begin, end)
  }

  // What overlaps the whole range overlaps the part that begins at `b`.
  ghost predicate OnlyFrom(files: seq<File>, begin: Option<UserKey>, end: Option<UserKey>, b: Option<UserKey>) {
    forall f :: f in files && Overlaps(f, begin, end) ==> Overlaps(f, b, end)
  }

  // ---- A trace of steps -----------------------------------------------------------------------------------------

  ghost predicate Trace(states: seq<State>, events: seq<Event>) {
    && |states| == |events| + 1
    && forall i :: 0 <= i < |events| ==> Next(states[i], states[i + 1], events[i])
  }

  ghost predicate TraceFrom(states: seq<State>, events: seq<Event>, a: State, b: State) {
    Trace(states, events) && states[0] == a && states[|events|] == b
  }

  lemma TraceOne(a: State, b: State, ev: Event)
    requires Next(a, b, ev)
    ensures TraceFrom([a, b], [ev], a, b)
  {
  }

  lemma TraceGrows(states: seq<State>, events: seq<Event>, a: State, b: State, c: State, ev: Event)
    requires TraceFrom(states, events, a, b) && Next(b, c, ev)
    ensures TraceFrom(states + [c], events + [ev], a, c)
  {
    hide Next;
  }

  lemma TraceJoins(states: seq<State>, events: seq<Event>, more: seq<State>, others: seq<Event>, a: State, b: State,
                   c: State)
    requires TraceFrom(states, events, a, b) && TraceFrom(more, others, b, c)
    ensures TraceFrom(states + more[1..], events + others, a, c)
  {
    hide Next;
    var all, evs := states + more[1..], events + others;
    forall i | 0 <= i < |evs| ensures Next(all[i], all[i + 1], evs[i]) {
      if i < |events| {
        assert all[i] == states[i] && all[i + 1] == states[i + 1];
      } else {
        var j := i - |events|;
        assert all[i] == more[j] && all[i + 1] == more[j + 1] && evs[i] == others[j];
      }
    }
  }

  // ---- One level -------------------------------------------------------------------------------------------------

  // A file that was not taken, though it overlaps the rest of the range, begins behind the last one taken.
  lemma LeftBehindIsLater(files: seq<File>, taken: seq<File>, begin: Option<UserKey>, end: Option<UserKey>, n: nat, f: File)
    requires LevelSorted(files) && LevelSorted(taken) && Convex(files, taken) && forall t :: t in taken ==> t in files
    requires 0 < n <= |Overlapping(files, begin, end)| && AllIn(Overlapping(files, begin, end)[..n], taken)
    requires f in files && f !in taken && Overlaps(f, begin, end) && taken != []
    ensures Less(taken[|taken| - 1].largest, f.smallest)
  {
    var all, last := Overlapping(files, begin, end), taken[|taken| - 1];
    OverlappingSorted(files, begin, end);
    assert all[..n][0] in taken;
    var i :| 0 <= i < |all| && all[i] == f;
    forall k | 0 <= k < n ensures all[k] in taken {
      assert all[..n][k] in taken;
    }
    LargestIncreasing(all, 0, i);
    assert last in files;
    LessIsTotal(last.smallest, f.smallest);
    hide Overlapping, Overlaps;
    InOrder(files, last, f);
    if Less(f.smallest, last.smallest) {
      assert all[0] in files && all[0] in taken && last in taken;
    }
  }

  lemma InOrder(files: seq<File>, f: File, g: File)
    requires LevelSorted(files) && f in files && g in files && f != g
    ensures Less(f.smallest, g.smallest) ==> Less(f.largest, g.smallest)
    ensures f.smallest != g.smallest
  {
    var i :| 0 <= i < |files| && files[i] == f;
    var j :| 0 <= j < |files| && files[j] == g;
    if i < j {
      LargestIncreasing(files, i, j);
    } else {
      LargestIncreasing(files, j, i);
    }
  }

  ghost predicate SameButTwo(v: Version, r: Version, level: nat) {
    |v| == |r| == NUM_LEVELS && forall l :: 0 <= l < NUM_LEVELS && l != level && l != level + 1 ==> r[l] == v[l]
  }

  lemma TakenAreGone(files: seq<File>, taken: seq<File>, r: seq<File>)
    requires Replaces(files, taken, [], r) && taken != [] && forall f :: f in taken ==> f in files
    ensures FileSet(r) < FileSet(files) && forall f :: f in r <==> f in files && f !in taken
  {
    assert taken[0] in FileSet(files) && taken[0] !in FileSet(r);
  }

  // What is left of the level, and overlaps the range, overlaps the part behind the last file taken.
  lemma RestIsBehind(options: Options, v: Version, pointers: seq<Option<InternalKey>>, level: nat,
                     begin: Option<UserKey>, from: Option<UserKey>, end: Option<UserKey>, taken: seq<File>, r: seq<File>)
    requires Inv(v) && Possible(v, Manual(level, from, end)) && |pointers| == NUM_LEVELS
    requires TakesWhatIsAsked(options, v, pointers, Manual(level, from, end), taken)
    requires Ordered(level, taken) && (level > 0 ==> Convex(v[level], taken)) && taken != []
    requires (forall f :: f in taken ==> f in v[level]) && forall f :: f in r <==> f in v[level] && f !in taken
    requires OnlyFrom(v[level], begin, end, from)
    ensures OnlyFrom(r, begin, end, Some(taken[|taken| - 1].largest.user))
  {
    assert LevelOk(level, v[level]);
    hide Inv, LevelOk;
    if level > 0 {
      var all := Overlapping(v[level], from, end);
      var n: nat :| IsLimit(all, options.maxFileSize, n) && AllIn(all[..n], taken);
      assert LevelSorted(v[level]) && LevelSorted(taken) && FilesValid(v[level]);
      hide LevelSorted, Convex, Overlapping, AllIn, FilesValid;
      forall f | f in r && Overlaps(f, begin, end) ensures Overlaps(f, Some(taken[|taken| - 1].largest.user), end) {
        assert f in all;
        LeftBehindIsLater(v[level], taken, from, end, n, f);
        InRange(v[level], f);
      }
    }
  }

  lemma InRange(files: seq<File>, f: File)
    requires FilesValid(files) && f in files
    ensures f.smallest.user <= f.largest.user
  {
    FileRange(f);
  }

  lemma CompactStep(a: State, b: State, ev: Event)
    requires Next(a, b, ev) && ev.Compact?
    ensures b == a.(version := b.version, nextFileNumber := b.nextFileNumber)
    ensures SameButTwo(a.version, b.version, ChoiceOf(ev).level) && ChoiceOf(ev).level < NUM_LEVELS
    ensures Replaces(a.version[ChoiceOf(ev).level], ChoiceOf(ev).inputs0, [], b.version[ChoiceOf(ev).level])
  {
  }

  lemma AnswerFacts(options: Options, v: Version, request: Request, chosen: seq<File>, c: Choice, grandparents: seq<File>)
    requires Possible(v, request) && Answers(options, v, request, chosen, c, grandparents)
    ensures c.level == request.level < |v| && forall f :: f in c.inputs0 ==> f in v[c.level]
    ensures Ordered(c.level, c.inputs0) && (c.level > 0 ==> Convex(v[c.level], c.inputs0))
  {
  }

  lemma ManualIsMerged(options: Options, request: Request, c: Choice, grandparents: seq<File>, ev: Event)
    requires request.Manual? && IsEventFor(options, request, c, grandparents, ev)
    ensures ev.Compact?
  {
  }

  // One round on a level takes files of the range from it, the first that are left first.
  lemma RoundTakes(options: Options, a: State, b: State, pointers: seq<Option<InternalKey>>, level: nat,
                   begin: Option<UserKey>, from: Option<UserKey>, end: Option<UserKey>, ev: Event,
                   next: seq<Option<InternalKey>>, manualEnd: Option<InternalKey>)
    requires Inv(a.version) && Possible(a.version, Manual(level, from, end)) && |pointers| == NUM_LEVELS
    requires level < |a.version|
    requires Serves(options, a.version, pointers, Manual(level, from, end), ev, next, manualEnd) && Next(a, b, ev)
    requires OnlyFrom(a.version[level], begin, end, from)
    ensures manualEnd.Some? && b == a.(version := b.version, nextFileNumber := b.nextFileNumber)
    ensures SameButTwo(a.version, b.version, level) && |b.version| == |a.version|
    ensures FileSet(b.version[level]) < FileSet(a.version[level])
    ensures OnlyFrom(b.version[level], begin, end, Some(manualEnd.value.user))
  {
    hide *;
    var v, request := a.version, Manual(level, from, end);
    var chosen, grandparents := ServedBy(options, v, pointers, request, ev, next, manualEnd);
    RequestIsServed(options, v, pointers, request, ev, next, manualEnd);
    ManualIsMerged(options, request, ChoiceOf(ev), grandparents, ev);
    CompactStep(a, b, ev);
    var c := ChoiceOf(ev);
    AnswerFacts(options, v, request, chosen, c, grandparents);
    SameLength(v, b.version, level);
    TakenAreGone(v[level], c.inputs0, b.version[level]);
    RestIsBehind(options, v, pointers, level, begin, from, end, c.inputs0, b.version[level]);
  }

  lemma SameLength(v: Version, r: Version, level: nat)
    requires SameButTwo(v, r, level)
    ensures |v| == |r| == NUM_LEVELS
  {
  }

  // What one level looks like after a manual compaction of it.
  ghost predicate LevelDone(a: State, b: State, level: nat, begin: Option<UserKey>, end: Option<UserKey>) {
    && b == a.(version := b.version, nextFileNumber := b.nextFileNumber)
    && SameButTwo(a.version, b.version, level) && level < NUM_LEVELS && NoneOverlaps(b.version[level], begin, end)
  }

  // Round after round until no file of the level overlaps what is left of the range.
  method CompactLevel(db: DBImpl, level: nat, begin: Option<UserKey>, end: Option<UserKey>)
    returns (ghost states: seq<State>, ghost events: seq<Event>)
    requires db.Valid() && level + 1 < NUM_LEVELS && db.imm.None?
    modifies db
    ensures db.Valid() && TraceFrom(states, events, old(db.St()), db.St())
    ensures LevelDone(old(db.St()), db.St(), level, begin, end)
  {
    hide Inv, Serves, Next, StateOk, Overlaps;
    ghost var start := db.St();
    states, events := [start], [];
    db.VersionOk();
    var from, done := begin, false;
    while !done
      invariant db.Valid() && db.imm.None? && |db.version| == NUM_LEVELS
      invariant TraceFrom(states, events, start, db.St())
      invariant db.St() == start.(version := db.version, nextFileNumber := db.nextFileNumber)
      invariant SameButTwo(start.version, db.version, level) && OnlyFrom(db.version[level], begin, end, from)
      invariant done ==> NoneOverlaps(db.version[level], begin, end)
      decreases !done, FileSet(db.version[level])
    {
      db.VersionOk();
      ghost var a, pointers := db.St(), db.compactPointer;
      var manualEnd;
      ghost var ev;
      manualEnd, ev := db.BackgroundCompaction(Manual(level, from, end));
      if manualEnd.Some? {
        RoundTakes(db.options, a, db.St(), pointers, level, begin, from, end, ev.value, db.compactPointer, manualEnd);
        TraceGrows(states, events, start, a, db.St(), ev.value);
        states, events := states + [db.St()], events + [ev.value];
        from := Some(manualEnd.value.user);
      } else {
        done := true;
      }
    }
  }

  // ---- All levels ------------------------------------------------------------------------------------------------

  // The deepest level with a file that overlaps the range, or 1.
  ghost predicate IsDeepest(v: Version, begin: Option<UserKey>, end: Option<UserKey>, deepest: nat)
    requires |v| == NUM_LEVELS
  {
    && 1 <= deepest < NUM_LEVELS
    && (deepest > 1 ==> !NoneOverlaps(v[deepest], begin, end))
    && forall l :: deepest < l < NUM_LEVELS ==> NoneOverlaps(v[l], begin, end)
  }

  method DeepestLevel(v: Version, begin: Option<UserKey>, end: Option<UserKey>) returns (deepest: nat)
    requires Inv(v)
    ensures IsDeepest(v, begin, end, deepest)
  {
    SortedBelow(v);
    hide Inv, LevelSorted, Overlaps;
    deepest := 1;
    for l := 1 to NUM_LEVELS
      invariant 1 <= deepest < NUM_LEVELS && (deepest < l || deepest == 1)
      invariant deepest > 1 ==> !NoneOverlaps(v[deepest], begin, end)
      invariant forall k :: deepest < k < l ==> NoneOverlaps(v[k], begin, end)
    {
      var overlaps := SomeFileOverlapsRange(true, v[l], begin, end);
      if overlaps {
        deepest := l;
      }
    }
  }

  // Both memtables become files.
  method FlushMemTables(db: DBImpl) returns (ghost states: seq<State>, ghost events: seq<Event>)
    requires db.Valid()
    modifies db
    ensures db.Valid() && db.mem == [] && db.imm.None? && TraceFrom(states, events, old(db.St()), db.St())
  {
    hide Inv, Next, StateOk;
    ghost var start := db.St();
    states, events := [start], [];
    ghost var a := start;
    if db.imm.Some? {
      ghost var first := db.CompactMemTable();
      TraceGrows(states, events, start, a, db.St(), first);
      states, events, a := states + [db.St()], events + [first], db.St();
    }
    db.SwitchMemTable();
    assert db.mem == [] by {
      SwitchEmpties(a, db.St());
    }
    TraceGrows(states, events, start, a, db.St(), Event.SwitchMemTable);
    states, events, a := states + [db.St()], events + [Event.SwitchMemTable], db.St();
    ghost var last := db.CompactMemTable();
    TraceGrows(states, events, start, a, db.St(), last);
    states, events := states + [db.St()], events + [last];
  }

  lemma SwitchEmpties(a: State, b: State)
    requires Next(a, b, Event.SwitchMemTable)
    ensures b.mem == [] && b.imm.Some?
  {
  }

  // Levels above `n` hold nothing of the range.
  ghost predicate ClearAbove(v: Version, n: nat, begin: Option<UserKey>, end: Option<UserKey>)
    requires |v| == NUM_LEVELS
  {
    forall l :: 0 <= l < n && l < NUM_LEVELS ==> NoneOverlaps(v[l], begin, end)
  }

  lemma OneMoreLevel(a: State, b: State, level: nat, begin: Option<UserKey>, end: Option<UserKey>)
    requires |a.version| == NUM_LEVELS && ClearAbove(a.version, level, begin, end) && LevelDone(a, b, level, begin, end)
    ensures |b.version| == NUM_LEVELS && ClearAbove(b.version, level + 1, begin, end)
    ensures b.mem == a.mem && b.imm == a.imm
  {
    hide NoneOverlaps;
  }

  /**
   * Compact a range: flush the memtables, and then each level above the deepest one that overlaps the range. What
   * is left of the range lies in that level or below it.
   */
  method CompactRange(db: DBImpl, begin: Option<UserKey>, end: Option<UserKey>)
    returns (deepest: nat, ghost states: seq<State>, ghost events: seq<Event>)
    requires db.Valid()
    modifies db
    ensures db.Valid() && TraceFrom(states, events, old(db.St()), db.St())
    ensures |old(db.version)| == NUM_LEVELS && IsDeepest(old(db.version), begin, end, deepest)
    ensures db.mem == [] && db.imm.None? && |db.version| == NUM_LEVELS && ClearAbove(db.version, deepest, begin, end)
  {
    db.VersionOk();
    hide Inv, Next, StateOk, TraceFrom, LevelDone, IsDeepest, ClearAbove, Newer, VersionEntries, NumbersBelow,
         KeysDistinct, Sorted;
    ghost var start := db.St();
    deepest := DeepestLevel(db.version, begin, end);
    DeepestIsLevel(db.version, begin, end, deepest);
    states, events := FlushMemTables(db);
    db.VersionOk();
    NothingAbove(db.version, begin, end);
    for level := 0 to deepest
      invariant db.Valid() && db.mem == [] && db.imm.None? && |db.version| == NUM_LEVELS
      invariant TraceFrom(states, events, start, db.St()) && ClearAbove(db.version, level, begin, end)
    {
      ghost var a := db.St();
      ghost var more, others;
      more, others := CompactLevel(db, level, begin, end);
      TraceJoins(states, events, more, others, start, a, db.St());
      OneMoreLevel(a, db.St(), level, begin, end);
      states, events := states + more[1..], events + others;
    }
  }

  lemma DeepestIsLevel(v: Version, begin: Option<UserKey>, end: Option<UserKey>, deepest: nat)
    requires |v| == NUM_LEVELS && IsDeepest(v, begin, end, deepest)
    ensures deepest < NUM_LEVELS
  {
  }

  lemma NothingAbove(v: Version, begin: Option<UserKey>, end: Option<UserKey>)
    requires |v| == NUM_LEVELS
    ensures ClearAbove(v, 0, begin, end)
  {
  }

  predicate InKeyRange(u: UserKey, begin: Option<UserKey>, end: Option<UserKey>) {
    (begin.Some? ==> begin.value <= u) && (end.Some? ==> u <= end.value)
  }

  // In terms of entries: every entry of the range that the store holds lies in a file at or below the level.
  lemma RangeLiesBelow(st: State, begin: Option<UserKey>, end: Option<UserKey>, deepest: nat, e: Entry)
    requires StateOk(st) && st.mem == [] && st.imm.None? && |st.version| == NUM_LEVELS
    requires ClearAbove(st.version, deepest, begin, end)
    requires e in Contents(st) && InKeyRange(e.key.user, begin, end)
    ensures exists l, f: File :: deepest <= l < NUM_LEVELS && f in st.version[l] && e in f.entries
    ensures forall l, f: File :: 0 <= l < deepest && l < NUM_LEVELS && f in st.version[l] ==> e !in f.entries
  {
    assert e in VersionEntries(st.version);
    var v := st.version;
    assert Inv(v);
    hide StateOk, Contents, Inv, ClearAbove;
    forall l, f: File | 0 <= l < deepest && l < NUM_LEVELS && f in v[l] ensures e !in f.entries {
      IsValidFile(v, l, f);
      ClearLevel(v, deepest, begin, end, l, f);
      OutsideFile(f, begin, end, e);
    }
    var l, f := HomeOf(v, e);
    assert 0 <= l < |v| && f in v[l] && e in f.entries;
  }

  lemma OutsideFile(f: File, begin: Option<UserKey>, end: Option<UserKey>, e: Entry)
    requires f.Valid() && !Overlaps(f, begin, end) && InKeyRange(e.key.user, begin, end)
    ensures e !in f.entries
  {
    if e in f.entries {
      FileBounds(f, e);
    }
  }

  lemma ClearLevel(v: Version, n: nat, begin: Option<UserKey>, end: Option<UserKey>, l: nat, f: File)
    requires |v| == NUM_LEVELS && ClearAbove(v, n, begin, end) && l < n && l < NUM_LEVELS && f in v[l]
    ensures !Overlaps(f, begin, end)
  {
    assert NoneOverlaps(v[l], begin, end);
  }

  // The trace goes on any run of the store.
  lemma RunGoesOn(states: seq<State>, events: seq<Event>, more: seq<State>, others: seq<Event>, b: State)
    requires IsRun(states, events) && TraceFrom(more, others, states[|events|], b)
    ensures IsRun(states + more[1..], events + others)
  {
    hide Next, Initial;
    assert TraceFrom(states, events, states[0], states[|events|]);
    TraceJoins(states, events, more, others, states[0], states[|events|], b);
  }
}
