/** The whole store as a state machine: writes, snapshots and background work, and what reads mean over a run. */
module Database {
  import opened DbFormat
  import opened Versions
  import Builder
  import opened Inputs
  import opened OutputCuts
  import opened Compactions
  import opened CompactionMeaning
  import opened LevelSteps
  import opened Flushing

  datatype State = State(mem: seq<Entry>, imm: Option<seq<Entry>>, version: Version,
                         lastSequence: Sequence, nextFileNumber: nat, snapshots: seq<Sequence>)

  datatype Op = Op(user: UserKey, kind: Kind, value: Bytes)

  ghost function Imm(st: State): set<Entry> {
    if st.imm.Some? then EntrySet(st.imm.value) else {}
  }

  ghost function Upper(st: State): set<Entry> {
    EntrySet(st.mem) + Imm(st)
  }

  ghost function Contents(st: State): set<Entry> {
    Upper(st) + VersionEntries(st.version)
  }

  // The smallest sequence number a reader may still use.
  function Oldest(st: State): Sequence {
    if st.snapshots == [] then st.lastSequence else st.snapshots[0]
  }

  ghost predicate AtMost(es: set<Entry>, s: nat) {
    forall e :: e in es ==> e.key.seqno <= s
  }

  ghost predicate StateOk(st: State) {
    && Inv(st.version) && Sorted(st.mem) && (st.imm.Some? ==> Sorted(st.imm.value))
    && Newer(EntrySet(st.mem), Imm(st)) && Newer(Upper(st), VersionEntries(st.version))
    && AtMost(Contents(st), st.lastSequence)
    && NumbersBelow(st.version, st.nextFileNumber)
    && (forall i, j :: 0 <= i < j < |st.snapshots| ==> st.snapshots[i] <= st.snapshots[j])
    && (forall i :: 0 <= i < |st.snapshots| ==> st.snapshots[i] <= st.lastSequence)
  }

  // The entries of a batch, numbered consecutively after `last`.
  function NewEntry(last: nat, ops: seq<Op>, i: nat): Entry
    requires i < |ops| && last + |ops| <= MAX_SEQUENCE
  {
    Entry(InternalKey(ops[i].user, last + 1 + i, ops[i].kind), ops[i].value)
  }

  ghost function NewEntries(last: nat, ops: seq<Op>): set<Entry>
    requires last + |ops| <= MAX_SEQUENCE
  {
    set i: nat | i < |ops| :: NewEntry(last, ops, i)
  }

  datatype Event =
    | Write(ops: seq<Op>)
    | SwitchMemTable
    | FlushNothing
    | Flush(file: File, level: nat)
    | TrivialMove(choice: Choice)
    | Compact(run: Run, rule: CutRule)
    | TakeSnapshot
    | ReleaseSnapshot(index: nat)

  ghost predicate Next(a: State, b: State, ev: Event) {
    match ev
    case Write(ops) =>
      && a.lastSequence + |ops| <= MAX_SEQUENCE
      && Sorted(b.mem) && EntrySet(b.mem) == EntrySet(a.mem) + NewEntries(a.lastSequence, ops)
      && b == a.(mem := b.mem, lastSequence := a.lastSequence + |ops|)
    case SwitchMemTable =>
      a.imm.None? && b == a.(imm := Some(a.mem), mem := [], nextFileNumber := a.nextFileNumber + 1)
    case FlushNothing =>
      a.imm == Some([]) && b == a.(imm := None, nextFileNumber := a.nextFileNumber + 1)
    case Flush(f, level) =>
      && a.imm == Some(f.entries) && f.Valid() && f.number == a.nextFileNumber
      && Placeable(a.version, level, f.smallest.user, f.largest.user)
      && Flushed(a.version, f, level, b.version)
      && b == a.(imm := None, version := b.version, nextFileNumber := a.nextFileNumber + 1)
    case TrivialMove(c) =>
      && GoodChoice(a.version, c) && |c.inputs0| == 1 && c.inputs1 == []
      && Compacted(a.version, c, c.inputs0, b.version)
      && b == a.(version := b.version)
    case Compact(r, rule) =>
      && Ok(r) && r.v == a.version && r.upper == Upper(a) && r.oldest == Oldest(a)
      && OutputsOk(r.outputs, a.nextFileNumber) && LevelSorted(r.outputs)
      && EntriesOf(r.outputs) == Pieces(rule, r.v, r.c.level, r.input, r.oldest)
      && b == a.(version := r.after, nextFileNumber := a.nextFileNumber + |r.outputs|)
    case TakeSnapshot =>
      b == a.(snapshots := a.snapshots + [a.lastSequence])
    case ReleaseSnapshot(i) =>
      i < |a.snapshots| && b == a.(snapshots := a.snapshots[..i] + a.snapshots[i + 1..])
  }

  lemma MakeCompact(a: State, b: State, r: Run, rule: CutRule)
    requires Ok(r) && r.v == a.version && r.upper == Upper(a) && r.oldest == Oldest(a)
    requires OutputsOk(r.outputs, a.nextFileNumber) && LevelSorted(r.outputs)
    requires EntriesOf(r.outputs) == Pieces(rule, r.v, r.c.level, r.input, r.oldest)
    requires b == a.(version := r.after, nextFileNumber := a.nextFileNumber + |r.outputs|)
    ensures Next(a, b, Compact(r, rule))
  {
  }

  // The invariant relating the store to everything ever written.
  ghost predicate Faithful(st: State, written: set<Entry>) {
    && KeysDistinct(written) && AtMost(written, st.lastSequence)
    && forall u, s: Sequence :: Oldest(st) <= s ==> Read(Contents(st), u, s) == Read(written, u, s)
  }

  ghost function WrittenBy(a: State, ev: Event, written: set<Entry>): set<Entry> {
    if ev.Write? && a.lastSequence + |ev.ops| <= MAX_SEQUENCE then written + NewEntries(a.lastSequence, ev.ops) else written
  }

  // ---- Single events keep the state well formed -------------------------------------------------------------

  lemma HigherIsNewer(xs: set<Entry>, ys: set<Entry>, s: nat)
    requires AtMost(ys, s) && forall x :: x in xs ==> x.key.seqno > s
    ensures Newer(xs, ys)
  {
  }

  lemma NewEntriesAreHigh(last: nat, ops: seq<Op>)
    requires last + |ops| <= MAX_SEQUENCE
    ensures forall e :: e in NewEntries(last, ops) ==> last < e.key.seqno <= last + |ops|
    ensures KeysDistinct(NewEntries(last, ops))
  {
  }

  lemma NewEntriesAppend(last: nat, ops: seq<Op>, i: nat)
    requires last + |ops| <= MAX_SEQUENCE && i < |ops|
    ensures NewEntries(last, ops[..i + 1]) == NewEntries(last, ops[..i]) + {NewEntry(last, ops, i)}
  {
    var a, b := ops[..i + 1], ops[..i];
    assert forall k: nat :: k < i ==> NewEntry(last, a, k) == NewEntry(last, b, k);
    assert NewEntry(last, a, i) == NewEntry(last, ops, i);
    forall e ensures e in NewEntries(last, a) <==> e in NewEntries(last, b) || e == NewEntry(last, ops, i) {
      if e in NewEntries(last, a) {
        var k: nat :| k < |a| && e == NewEntry(last, a, k);
        assert k < i ==> e == NewEntry(last, b, k);
      }
      if e in NewEntries(last, b) {
        var k: nat :| k < |b| && e == NewEntry(last, b, k);
        assert e == NewEntry(last, a, k);
      }
    }
  }

  lemma WriteKeepsState(a: State, b: State, ops: seq<Op>)
    requires StateOk(a) && Next(a, b, Write(ops))
    ensures StateOk(b)
  {
    var added := NewEntries(a.lastSequence, ops);
    NewEntriesAreHigh(a.lastSequence, ops);
    hide Inv, Sorted, NumbersBelow, VersionEntries, NewEntries;
    HigherIsNewer(added, Imm(a), a.lastSequence);
    HigherIsNewer(added, VersionEntries(a.version), a.lastSequence);
    NewerUnion(EntrySet(a.mem), added, Imm(a));
    NewerUnion(Upper(a), added, VersionEntries(a.version));
    assert Upper(b) == Upper(a) + added;
  }

  lemma SwitchKeepsState(a: State, b: State)
    requires StateOk(a) && Next(a, b, SwitchMemTable)
    ensures StateOk(b) && Contents(b) == Contents(a)
  {
    hide Inv, VersionEntries;
    assert Upper(b) == Upper(a);
  }

  lemma FlushKeepsState(a: State, b: State, f: File, level: nat)
    requires StateOk(a) && Next(a, b, Flush(f, level))
    ensures StateOk(b) && Contents(b) == Contents(a)
  {
    hide VersionEntries, LevelEntries, Newer, AtMost, Flushed, Sorted, NumbersBelow, Inv;
    var v := a.version;
    FlushedEntries(v, f, level, b.version);
    FlushedBound(v, f, level, b.version);
    assert EntrySet(f.entries) == Imm(a);
    ImmIsBetween(a);
    FlushKeepsInv(v, f, level, b.version);
    FlushedStateOk(a, b);
  }

  lemma ImmIsBetween(a: State)
    requires StateOk(a)
    ensures Newer(EntrySet(a.mem), Imm(a)) && Newer(Imm(a), VersionEntries(a.version))
    ensures Newer(EntrySet(a.mem), VersionEntries(a.version))
  {
    hide Inv, VersionEntries, NumbersBelow, Newer, AtMost, Sorted;
    NewerSubsets(Upper(a), VersionEntries(a.version), Imm(a), VersionEntries(a.version));
    NewerSubsets(Upper(a), VersionEntries(a.version), EntrySet(a.mem), VersionEntries(a.version));
  }

  lemma FlushedStateOk(a: State, b: State)
    requires StateOk(a) && Inv(b.version) && NumbersBelow(b.version, b.nextFileNumber)
    requires VersionEntries(b.version) == VersionEntries(a.version) + Imm(a)
    requires b == a.(imm := None, version := b.version, nextFileNumber := b.nextFileNumber)
    ensures StateOk(b) && Contents(b) == Contents(a)
  {
    ImmIsBetween(a);
    hide Inv, VersionEntries, NumbersBelow, Newer, Sorted;
    NewerUnion(VersionEntries(a.version), Imm(a), EntrySet(a.mem));
    NothingIsOlder(EntrySet(b.mem));
    assert Upper(b) == EntrySet(a.mem);
    assert Contents(b) == Contents(a);
  }

  lemma NothingIsOlder(xs: set<Entry>)
    ensures Newer(xs, {})
  {
  }

  lemma FlushedBound(v: Version, f: File, level: nat, r: Version)
    requires Flushed(v, f, level, r) && NumbersBelow(v, f.number)
    ensures NumbersBelow(r, f.number + 1)
  {
    forall l, g | 0 <= l < |r| && g in r[l] ensures g.number < f.number + 1 {
      if l == level {
        assert g in Builder.FileSet(r[l]);
      }
    }
  }

  lemma FlushNothingKeepsState(a: State, b: State)
    requires StateOk(a) && Next(a, b, FlushNothing)
    ensures StateOk(b) && Contents(b) == Contents(a)
  {
    hide Inv, VersionEntries;
    assert Upper(b) == Upper(a);
  }

  lemma MovedOutputs(v: Version, c: Choice)
    requires Inv(v) && GoodChoice(v, c) && |c.inputs0| == 1
    ensures GoodOutputs(v, c, c.inputs0)
  {
    var o := c.inputs0[0];
    assert o in v[c.level];
    IsValidFile(v, c.level, o);
    FileRange(o);
    assert |v| == NUM_LEVELS && c.level + 1 < NUM_LEVELS && c.inputs0 == [o];
    hide GoodChoice, Inv;
    forall l, f | 0 <= l < |v| && f in v[l] && f.number == o.number ensures f == o {
      NumbersUnique(v, l, f, c.level, o);
    }
  }

  lemma IsValidFile(v: Version, l: nat, f: File)
    requires Inv(v) && l < NUM_LEVELS && f in v[l]
    ensures f.Valid()
  {
    assert LevelOk(l, v[l]);
  }

  lemma MovedEntries(v: Version, c: Choice, r: Version)
    requires GoodChoice(v, c) && c.inputs1 == [] && Compacted(v, c, c.inputs0, r)
    ensures VersionEntries(r) == VersionEntries(v)
  {
    hide SortedFiles, LeavesNewer;
    forall e | e in VersionEntries(v) ensures e in VersionEntries(r) {
      var l, f := HomeOf(v, e);
      if l == c.level && f in c.inputs0 {
        HasHome(r, l + 1, f, e);
      } else {
        HasHome(r, l, f, e);
      }
    }
    forall e | e in VersionEntries(r) ensures e in VersionEntries(v) {
      var l, f := HomeOf(r, e);
      if l == c.level + 1 && f in c.inputs0 {
        HasHome(v, c.level, f, e);
      } else {
        HasHome(v, l, f, e);
      }
    }
  }

  lemma ReplacedNumbers(v: Version, c: Choice, outputs: seq<File>, r: Version, n: nat)
    requires Compacted(v, c, outputs, r) && NumbersBelow(v, n) && forall o :: o in outputs ==> o.number < n
    ensures NumbersBelow(r, n)
  {
  }

  lemma MoveKeepsState(a: State, b: State, c: Choice)
    requires StateOk(a) && Next(a, b, TrivialMove(c))
    ensures StateOk(b) && Contents(b) == Contents(a)
  {
    MovedOutputs(a.version, c);
    ReplacementKeepsInv(a.version, c, c.inputs0, b.version);
    MovedEntries(a.version, c, b.version);
    assert forall o :: o in c.inputs0 ==> o.number < a.nextFileNumber;
    ReplacedNumbers(a.version, c, c.inputs0, b.version, a.nextFileNumber);
    hide Inv, VersionEntries, GoodOutputs, Compacted, NumbersBelow, GoodChoice;
  }

  lemma CompactedOutputs(r: Run, n: nat)
    requires Ok(r) && OutputsOk(r.outputs, n) && LevelSorted(r.outputs) && NumbersBelow(r.v, n)
    ensures GoodOutputs(r.v, r.c, r.outputs)
  {
    hide Ok, LevelSorted, FilesValid, LevelEntries, NumbersDistinct;
    WrittenWasInput(r);
    ConsecutiveNumbers(r.outputs, n);
  }

  lemma ConsecutiveNumbers(files: seq<File>, n: nat)
    requires forall i :: 0 <= i < |files| ==> files[i].number == n + i
    ensures NumbersDistinct(files) && forall f :: f in files ==> n <= f.number < n + |files|
  {
    forall f, g | f in files && g in files && f.number == g.number ensures f == g {
      var i: nat :| i < |files| && files[i] == f;
      var j: nat :| j < |files| && files[j] == g;
    }
  }

  lemma WrittenWasInput(r: Run)
    requires Ok(r)
    ensures LevelEntries(r.outputs) <= LevelEntries(r.c.inputs0) + LevelEntries(r.c.inputs1)
  {
    assert EntrySet(r.input) == LevelEntries(r.c.inputs0) + LevelEntries(r.c.inputs1);
    hide Ok, LevelEntries;
    forall e | e in LevelEntries(r.outputs) ensures e in EntrySet(r.input) {
      WrittenWasKept(r, e);
    }
  }

  lemma CompactKeepsVersion(r: Run, n: nat)
    requires Ok(r) && OutputsOk(r.outputs, n) && LevelSorted(r.outputs) && NumbersBelow(r.v, n)
    ensures Inv(r.after) && NumbersBelow(r.after, n + |r.outputs|)
  {
    CompactedOutputs(r, n);
    assert Inv(r.v) && GoodChoice(r.v, r.c) && Compacted(r.v, r.c, r.outputs, r.after);
    hide Ok, Inv, GoodOutputs, Compacted, GoodChoice;
    ReplacementKeepsInv(r.v, r.c, r.outputs, r.after);
    ConsecutiveNumbers(r.outputs, n);
    ReplacedNumbers(r.v, r.c, r.outputs, r.after, n + |r.outputs|);
  }

  lemma CompactKeepsState(a: State, b: State, r: Run, rule: CutRule)
    requires StateOk(a) && Next(a, b, Compact(r, rule))
    ensures StateOk(b) && Contents(a) == Before(r) && Contents(b) == After(r)
  {
    hide Inv, VersionEntries, Ok, NumbersBelow, Newer, OutputsOk;
    CompactKeepsVersion(r, a.nextFileNumber);
    AfterVersionIsSubset(r);
    NewerSubsets(Upper(a), VersionEntries(r.v), Upper(a), VersionEntries(r.after));
  }

  lemma AfterVersionIsSubset(r: Run)
    requires Ok(r)
    ensures VersionEntries(r.after) <= VersionEntries(r.v)
  {
    hide Ok, VersionEntries;
    forall d | d in VersionEntries(r.after) ensures d in VersionEntries(r.v) {
      var _, _, _ := SurvivorHome(r, d);
    }
  }

  lemma EventKeepsState(a: State, b: State, ev: Event)
    requires StateOk(a) && Next(a, b, ev)
    ensures StateOk(b)
  {
    hide StateOk;
    match ev
    case Write(ops) => WriteKeepsState(a, b, ops);
    case SwitchMemTable => SwitchKeepsState(a, b);
    case FlushNothing => FlushNothingKeepsState(a, b);
    case Flush(f, level) => FlushKeepsState(a, b, f, level);
    case TrivialMove(c) => MoveKeepsState(a, b, c);
    case Compact(r, rule) => CompactKeepsState(a, b, r, rule);
    case TakeSnapshot => SnapshotKeepsState(a, b, ev);
    case ReleaseSnapshot(i) => SnapshotKeepsState(a, b, ev);
  }

  lemma SnapshotKeepsState(a: State, b: State, ev: Event)
    requires StateOk(a) && Next(a, b, ev) && (ev.TakeSnapshot? || ev.ReleaseSnapshot?)
    ensures StateOk(b) && Contents(b) == Contents(a) && Oldest(a) <= Oldest(b)
  {
    hide Inv, VersionEntries, Newer, NumbersBelow, Sorted, AtMost;
    assert Upper(b) == Upper(a);
  }

  // ---- Reads over a run ---------------------------------------------------------------------------------------

  // A write changes only what snapshots taken after it see.
  lemma WriteReads(contents: set<Entry>, written: set<Entry>, added: set<Entry>, last: nat, u: UserKey, s: Sequence)
    requires KeysDistinct(contents) && KeysDistinct(written) && KeysDistinct(added)
    requires AtMost(contents, last) && AtMost(written, last) && forall e :: e in added ==> e.key.seqno > last
    requires Read(contents, u, s) == Read(written, u, s)
    ensures Read(contents + added, u, s) == Read(written + added, u, s)
  {
    var top := NewestExists(added, u, s);
    if top.None? {
      ReadDependsOnSeen(contents, contents + added, u, s);
      ReadDependsOnSeen(written, written + added, u, s);
    } else {
      assert Newest(contents + added, u, s, top.value) && Newest(written + added, u, s, top.value);
      ReadFromNewest(contents + added, u, s, top.value);
      ReadFromNewest(written + added, u, s, top.value);
    }
  }

  lemma ContentsDistinct(st: State)
    requires StateOk(st)
    ensures KeysDistinct(Upper(st)) && KeysDistinct(Contents(st))
  {
    assert KeysDistinct(EntrySet(st.mem)) && KeysDistinct(Imm(st)) by {
      hide Inv, VersionEntries, Newer, NumbersBelow, AtMost;
      SortedDistinct(st.mem);
      if st.imm.Some? {
        SortedDistinct(st.imm.value);
      }
    }
    hide Inv, VersionEntries, NumbersBelow, AtMost, Sorted;
    AllKeysDistinct(st.version, Upper(st));
  }

  lemma SortedDistinct(es: seq<Entry>)
    requires Sorted(es)
    ensures KeysDistinct(EntrySet(es))
  {
    forall d, e | d in EntrySet(es) && e in EntrySet(es) && d.key == e.key ensures d == e {
      var i: nat :| i < |es| && es[i] == d;
      var j: nat :| j < |es| && es[j] == e;
      assert i < j ==> Less(d.key, e.key);
    }
  }

  // Every event keeps the store faithful to all that was written, as long as compactions are harmless.
  lemma EventKeepsFaithful(a: State, b: State, ev: Event, written: set<Entry>)
    requires StateOk(a) && Next(a, b, ev) && Faithful(a, written)
    requires ev.Compact? ==> Harmless(ev.run)
    ensures Faithful(b, WrittenBy(a, ev, written))
  {
    match ev
    case Write(ops) => WriteKeepsFaithful(a, b, ops, written);
    case Compact(r, rule) => CompactKeepsFaithful(a, b, r, rule, written);
    case _ =>
      assert Contents(b) == Contents(a) && Oldest(a) <= Oldest(b) by {
        match ev
        case Flush(f, level) => FlushKeepsState(a, b, f, level);
        case FlushNothing => FlushNothingKeepsState(a, b);
        case TrivialMove(c) => MoveKeepsState(a, b, c);
        case SwitchMemTable => SwitchKeepsState(a, b);
        case _ => SnapshotKeepsState(a, b, ev);
      }
      hide StateOk, Next, Contents, KeysDistinct;
  }

  lemma WriteKeepsFaithful(a: State, b: State, ops: seq<Op>, written: set<Entry>)
    requires StateOk(a) && Next(a, b, Write(ops)) && Faithful(a, written)
    ensures Faithful(b, WrittenBy(a, Write(ops), written))
  {
    var last, added := a.lastSequence, NewEntries(a.lastSequence, ops);
    NewEntriesAreHigh(last, ops);
    ContentsDistinct(a);
    assert AtMost(Contents(a), last);
    assert Oldest(a) <= Oldest(b);
    assert Contents(b) == Contents(a) + added by {
      hide Inv, VersionEntries, Newer, NumbersBelow, Sorted, NewEntries;
    }
    hide StateOk, Contents, NewEntries;
    forall u, s: Sequence | Oldest(b) <= s ensures Read(Contents(b), u, s) == Read(written + added, u, s) {
      WriteReads(Contents(a), written, added, last, u, s);
    }
  }

  lemma CompactFacts(a: State, b: State, r: Run, rule: CutRule)
    requires Next(a, b, Compact(r, rule))
    ensures Ok(r) && Oldest(b) == Oldest(a) == r.oldest && b.lastSequence == a.lastSequence
  {
    hide Ok, OutputsOk, LevelSorted;
  }

  lemma CompactKeepsFaithful(a: State, b: State, r: Run, rule: CutRule, written: set<Entry>)
    requires StateOk(a) && Next(a, b, Compact(r, rule)) && Faithful(a, written) && Harmless(r)
    ensures Faithful(b, written)
  {
    hide StateOk, Next, Ok, Contents, Before, After, KeysDistinct, Uncovers, AtMost, Oldest;
    CompactFacts(a, b, r, rule);
    CompactKeepsState(a, b, r, rule);
    forall u, s: Sequence | Oldest(b) <= s ensures Read(Contents(b), u, s) == Read(written, u, s) {
      ReadAgrees(r, u, s);
    }
  }

  ghost predicate Initial(st: State) {
    && st.mem == [] && st.imm.None? && st.version == seq(NUM_LEVELS, _ => [])
    && st.lastSequence == 0 && st.snapshots == []
  }

  ghost predicate IsRun(states: seq<State>, events: seq<Event>) {
    && |states| == |events| + 1 && Initial(states[0])
    && forall i :: 0 <= i < |events| ==> Next(states[i], states[i + 1], events[i])
  }

  ghost function Written(states: seq<State>, events: seq<Event>, n: nat): set<Entry>
    requires IsRun(states, events) && n <= |events|
  {
    if n == 0 then {} else WrittenBy(states[n - 1], events[n - 1], Written(states, events, n - 1))
  }

  // The two ways in which a compaction can change what is read.
  ghost predicate Harmless(r: Run) {
    !Uncovers(r) && r.oldest < MAX_SEQUENCE
  }

  ghost predicate AllHarmless(events: seq<Event>) {
    forall i :: 0 <= i < |events| && events[i].Compact? ==> Harmless(events[i].run)
  }

  lemma InitialOk(st: State)
    requires Initial(st)
    ensures StateOk(st) && Faithful(st, {})
  {
    assert forall l :: 0 <= l < NUM_LEVELS ==> st.version[l] == [];
    assert Contents(st) == {};
  }

  // The level invariant holds in every state of every run.
  lemma {:induction false} RunKeepsState(states: seq<State>, events: seq<Event>, n: nat)
    requires IsRun(states, events) && n <= |events|
    ensures StateOk(states[n])
  {
    if n == 0 {
      InitialOk(states[0]);
    } else {
      hide StateOk, Next;
      RunKeepsState(states, events, n - 1);
      EventKeepsState(states[n - 1], states[n], events[n - 1]);
    }
  }

  lemma {:induction false} RunIsFaithful(states: seq<State>, events: seq<Event>, n: nat)
    requires IsRun(states, events) && n <= |events| && AllHarmless(events)
    ensures Faithful(states[n], Written(states, events, n))
  {
    hide StateOk, Next, Faithful, Uncovers, WrittenBy, Initial;
    if n == 0 {
      InitialOk(states[0]);
    } else {
      RunIsFaithful(states, events, n - 1);
      RunKeepsState(states, events, n - 1);
      FaithfulStep(states, events, n - 1);
    }
  }

  lemma FaithfulStep(states: seq<State>, events: seq<Event>, n: nat)
    requires IsRun(states, events) && n < |events| && AllHarmless(events)
    requires StateOk(states[n]) && Faithful(states[n], Written(states, events, n))
    ensures Faithful(states[n + 1], Written(states, events, n + 1))
  {
    hide StateOk, Next, Faithful, Uncovers, WrittenBy, Initial;
    EventKeepsFaithful(states[n], states[n + 1], events[n], Written(states, events, n));
  }

  lemma NewerWritesAreHigher(a: State, b: State, ev: Event, written: set<Entry>)
    requires Next(a, b, ev)
    ensures a.lastSequence <= b.lastSequence && written <= WrittenBy(a, ev, written)
    ensures forall e :: e in WrittenBy(a, ev, written) && e !in written ==> e.key.seqno > a.lastSequence
  {
    if ev.Write? {
      WriteAdvances(a, b, ev.ops);
      NewEntriesAreHigh(a.lastSequence, ev.ops);
    } else {
      OnlyWritesAdvance(a, b, ev);
    }
  }

  lemma {:induction false} LaterWritesAreHigher(states: seq<State>, events: seq<Event>, m: nat, n: nat)
    requires IsRun(states, events) && m <= n <= |events|
    ensures states[m].lastSequence <= states[n].lastSequence
    ensures Written(states, events, m) <= Written(states, events, n)
    ensures forall e :: e in Written(states, events, n) && e.key.seqno <= states[m].lastSequence ==> e in Written(states, events, m)
  {
    if m < n {
      hide Next, WrittenBy;
      LaterWritesAreHigher(states, events, m, n - 1);
      NewerWritesAreHigher(states[n - 1], states[n], events[n - 1], Written(states, events, n - 1));
    }
  }

  // A snapshot in use reads the same at every later moment: whatever is written, flushed, moved or compacted.
  lemma SnapshotReadsRepeat(states: seq<State>, events: seq<Event>, m: nat, n: nat, u: UserKey, s: Sequence)
    requires IsRun(states, events) && m <= n <= |events| && AllHarmless(events)
    requires Oldest(states[m]) <= s <= states[m].lastSequence && Oldest(states[n]) <= s
    ensures Read(Contents(states[n]), u, s) == Read(Contents(states[m]), u, s)
  {
    RunIsFaithful(states, events, m);
    RunIsFaithful(states, events, n);
    LaterWritesAreHigher(states, events, m, n);
    var early, late := Written(states, events, m), Written(states, events, n);
    hide IsRun, AllHarmless, Written;
    ReadDependsOnSeen(early, late, u, s);
  }

  // ---- The store as a map -----------------------------------------------------------------------------------------

  // What a batch makes of the value of one user key: its last operation on the key decides.
  function Applied(ops: seq<Op>, u: UserKey, before: Option<Bytes>): Option<Bytes> {
    if ops == [] then before else
    var last := ops[|ops| - 1];
    if last.user == u then (if last.kind.Value? then Some(last.value) else None) else Applied(ops[..|ops| - 1], u, before)
  }

  // The value of a user key after the first `n` events, of which only the writes matter.
  function Latest(events: seq<Event>, n: nat, u: UserKey): Option<Bytes>
    requires n <= |events|
  {
    if n == 0 then None
    else if events[n - 1].Write? then Applied(events[n - 1].ops, u, Latest(events, n - 1, u))
    else Latest(events, n - 1, u)
  }

  lemma ReadAtOrPast(es: set<Entry>, u: UserKey, s: Sequence, t: Sequence)
    requires AtMost(es, s) && s <= t
    ensures Read(es, u, t) == Read(es, u, s)
  {
    forall e ensures Newest(es, u, t, e) <==> Newest(es, u, s, e) {
    }
  }

  lemma OneMoreRead(es: set<Entry>, e: Entry, u: UserKey, s: Sequence)
    requires AtMost(es, s) && s < e.key.seqno
    ensures Read(es + {e}, u, e.key.seqno)
         == if e.key.user != u then Read(es, u, s) else if e.key.kind.Value? then Some(e.value) else None
  {
    var t := e.key.seqno;
    if e.key.user == u {
      assert Newest(es + {e}, u, t, e);
      ReadFromNewest(es + {e}, u, t, e);
    } else {
      ReadDependsOnSeen(es + {e}, es, u, t);
      ReadAtOrPast(es, u, s, t);
    }
  }

  lemma UpToLast(written: set<Entry>, last: nat, ops: seq<Op>, n: nat)
    requires AtMost(written, last) && last + |ops| <= MAX_SEQUENCE && n < |ops|
    ensures var before, e := written + NewEntries(last, ops[..n]), NewEntry(last, ops, n);
      && written + NewEntries(last, ops[..n + 1]) == before + {e}
      && AtMost(before, last + n) && e.key.seqno == last + n + 1
  {
    NewEntriesAppend(last, ops, n);
    NewEntriesAreHigh(last, ops[..n]);
    hide NewEntries;
  }

  lemma LastDecides(ops: seq<Op>, u: UserKey, before: Option<Bytes>)
    requires ops != []
    ensures var n := |ops| - 1;
      Applied(ops, u, before)
      == if ops[n].user != u then Applied(ops[..n], u, before)
         else if ops[n].kind.Value? then Some(ops[n].value) else None
  {
  }

  // Reading behind a batch gives what the batch makes of what was there.
  lemma {:induction false} BatchReads(written: set<Entry>, last: nat, ops: seq<Op>, u: UserKey)
    requires AtMost(written, last) && last + |ops| <= MAX_SEQUENCE
    ensures Read(written + NewEntries(last, ops), u, last + |ops|) == Applied(ops, u, Read(written, u, last))
  {
    hide Read;
    if ops == [] {
      assert written + NewEntries(last, ops) == written;
    } else {
      LastDecides(ops, u, Read(written, u, last));
      hide NewEntries, AtMost, Applied;
      var n := |ops| - 1;
      assert ops[..n + 1] == ops;
      UpToLast(written, last, ops, n);
      BatchReads(written, last, ops[..n], u);
      OneMoreRead(written + NewEntries(last, ops[..n]), NewEntry(last, ops, n), u, last + n);
    }
  }

  lemma WriteAdds(a: State, b: State, ops: seq<Op>)
    requires StateOk(a) && Next(a, b, Write(ops))
    ensures Contents(b) == Contents(a) + NewEntries(a.lastSequence, ops) && AtMost(Contents(a), a.lastSequence)
  {
    hide Inv, VersionEntries, Newer, NumbersBelow, Sorted, NewEntries;
  }

  // A write leaves what earlier snapshots see as it was, and makes the batch what the latest reads see.
  lemma WriteKeepsSnapshots(a: State, b: State, ops: seq<Op>, u: UserKey, s: Sequence)
    requires StateOk(a) && Next(a, b, Write(ops)) && s <= a.lastSequence
    ensures Read(Contents(b), u, s) == Read(Contents(a), u, s)
    ensures Read(Contents(b), u, b.lastSequence) == Applied(ops, u, Read(Contents(a), u, a.lastSequence))
  {
    WriteAdds(a, b, ops);
    WriteAdvances(a, b, ops);
    NewEntriesAreHigh(a.lastSequence, ops);
    hide StateOk, Contents, NewEntries, Next, Read, Applied, KeysDistinct, AtMost;
    ReadDependsOnSeen(Contents(a), Contents(b), u, s);
    BatchReads(Contents(a), a.lastSequence, ops, u);
  }

  lemma WriteAdvances(a: State, b: State, ops: seq<Op>)
    requires Next(a, b, Write(ops))
    ensures b.lastSequence == a.lastSequence + |ops|
  {
  }

  lemma OnlyWritesAdvance(a: State, b: State, ev: Event)
    requires Next(a, b, ev) && !ev.Write?
    ensures b.lastSequence == a.lastSequence
  {
    hide Ok, OutputsOk, LevelSorted, Placeable, Flushed, GoodChoice, Compacted;
  }

  // One event, seen from all that was written.
  lemma WrittenStep(a: State, b: State, ev: Event, written: set<Entry>, u: UserKey)
    requires Next(a, b, ev) && AtMost(written, a.lastSequence)
    ensures AtMost(WrittenBy(a, ev, written), b.lastSequence)
    ensures Read(WrittenBy(a, ev, written), u, b.lastSequence)
      == if ev.Write? then Applied(ev.ops, u, Read(written, u, a.lastSequence)) else Read(written, u, a.lastSequence)
  {
    if ev.Write? {
      WriteAdvances(a, b, ev.ops);
      NewEntriesAreHigh(a.lastSequence, ev.ops);
      hide Next, Read, Applied, NewEntries;
      BatchReads(written, a.lastSequence, ev.ops, u);
    } else {
      OnlyWritesAdvance(a, b, ev);
    }
  }

  lemma {:induction false} WrittenIsLatest(states: seq<State>, events: seq<Event>, n: nat, u: UserKey)
    requires IsRun(states, events) && n <= |events|
    ensures AtMost(Written(states, events, n), states[n].lastSequence)
    ensures Read(Written(states, events, n), u, states[n].lastSequence) == Latest(events, n, u)
  {
    if n > 0 {
      hide Next, Read, Applied, AtMost, WrittenBy;
      WrittenIsLatest(states, events, n - 1, u);
      WrittenStep(states[n - 1], states[n], events[n - 1], Written(states, events, n - 1), u);
    } else {
      NothingRead(u, states[0].lastSequence);
    }
  }

  lemma NothingRead(u: UserKey, s: Sequence)
    ensures Read({}, u, s) == None
  {
  }

  // The store is a map: a read at the number that was current after m events gives what the writes among those
  // events made of the key, then and as long as no compaction has been told that nobody reads there any more.
  lemma RunReadsWrites(states: seq<State>, events: seq<Event>, m: nat, n: nat, u: UserKey)
    requires IsRun(states, events) && m <= n <= |events| && AllHarmless(events)
    requires Oldest(states[n]) <= states[m].lastSequence
    ensures Read(Contents(states[n]), u, states[m].lastSequence) == Latest(events, m, u)
  {
    RunKeepsState(states, events, m);
    RunIsFaithful(states, events, m);
    WrittenIsLatest(states, events, m, u);
    OldestIsUsable(states[m]);
    var s := states[m].lastSequence;
    hide IsRun, AllHarmless, StateOk, Latest, Oldest, Written;
    SnapshotReadsRepeat(states, events, m, n, u, s);
  }

  lemma OldestIsUsable(st: State)
    requires StateOk(st)
    ensures Oldest(st) <= st.lastSequence && forall s :: s in st.snapshots ==> Oldest(st) <= s <= st.lastSequence
  {
    hide Inv, Sorted, Newer, NumbersBelow, AtMost;
  }

  // A snapshot taken after m events and still held after n reads as the map was when it was taken.
  lemma HeldSnapshotReads(states: seq<State>, events: seq<Event>, m: nat, n: nat, u: UserKey)
    requires IsRun(states, events) && m <= n <= |events| && AllHarmless(events)
    requires states[m].lastSequence in states[n].snapshots
    ensures Read(Contents(states[n]), u, states[m].lastSequence) == Latest(events, m, u)
  {
    RunKeepsState(states, events, n);
    OldestIsUsable(states[n]);
    hide IsRun, AllHarmless, StateOk, Latest, Oldest;
    RunReadsWrites(states, events, m, n, u);
  }

  // The files of a compaction are cut as `DoCompactionWork` promises.
  lemma CompactIsWellCut(a: State, b: State, r: Run, rule: CutRule)
    requires Next(a, b, Compact(r, rule)) && ByLargest(rule.grandparents)
    ensures WellCut(rule, r.input, EntriesOf(r.outputs))
    ensures OverlapsLittle(r.outputs, rule.grandparents, rule.maxGrandparentOverlap)
  {
    assert Sorted(r.input);
    hide Ok, WellCut, Pieces, Sorted, ByLargest, OverlapsLittle;
    FilesAreWellCut(rule, r.v, r.c.level, r.input, r.oldest, r.outputs, a.nextFileNumber);
  }
}
