/**
 * A run of the store, from empty, in which a deleted key comes back: the reason why the main results of
 * CompactionMeaning and Database speak of compactions that do not uncover. Only the files of the level being
 * compacted are extended by boundary files, not those of the level below.
 */
module Resurrection {
  import opened DbFormat
  import opened Versions
  import opened Builder
  import opened Coding
  import opened Comparators
  import opened Inputs
  import opened OutputCuts
  import opened Compactions
  import opened CompactionMeaning
  import opened Flushing
  import opened Database

  // Two user keys: a short one, and one so long that an entry with it fills a data block.
  const HIGH_LENGTH: nat := 2000

  function LowKey(): Bytes { [97] }
  function HighKey(): Bytes { seq(HIGH_LENGTH, _ => 98) }

  const LOW: UserKey := Rank(LowKey())
  const HIGH: UserKey := Rank(HighKey())

  lemma LowIsBefore()
    ensures LOW < HIGH
  {
    RankKeepsOrder(LowKey(), HighKey());
  }

  // A value that nearly fills a table of the smallest size allowed.
  const VALUE_LENGTH: nat := 1048000

  function LongValue(): (r: Bytes)
    ensures |r| == VALUE_LENGTH
  {
    seq(VALUE_LENGTH, _ => 0)
  }

  // What is written: a value of HIGH, and after a snapshot a value of LOW and the deletion of HIGH; last, LOW again.
  function First(): Entry { Entry(InternalKey(HIGH, 1, Value), [1]) }
  function Second(): Entry { Entry(InternalKey(LOW, 2, Value), LongValue()) }
  function Third(): Entry { Entry(InternalKey(HIGH, 3, Deletion), []) }
  function Fourth(): Entry { Entry(InternalKey(LOW, 4, Value), [4]) }

  function Table(number: nat, entries: seq<Entry>): File
    requires entries != []
  {
    File(number, 0, entries[0].key, entries[|entries| - 1].key, entries)
  }

  // The first table; the two tables it is split into, with HIGH straddling them; the second table, and its merge.
  function Whole(): File { Table(1, [Second(), Third(), First()]) }
  function Left(): File { Table(2, [Second(), Third()]) }
  function Right(): File { Table(3, [First()]) }
  function Late(): File { Table(5, [Fourth()]) }
  function Merged(): File { Table(6, [Fourth()]) }

  function Files(two: seq<File>, three: seq<File>): (v: Version)
    ensures |v| == NUM_LEVELS && v[2] == two && v[3] == three
    ensures forall l :: 0 <= l < NUM_LEVELS && l != 2 && l != 3 ==> v[l] == []
  {
    [[], [], two, three, [], [], []]
  }

  // ---- Sizes: tables of at least 1 MB, data blocks of at least 1 KB -------------------------------------------------

  const TABLE_SIZE: nat := 0x10_0000
  const BLOCK_SIZE: nat := 1024

  function KeyLength(u: UserKey): nat {
    if u == HIGH then HIGH_LENGTH else 1
  }

  // An entry that shares nothing with the one before: three sizes, the internal key, the value.
  function EntryLength(e: Entry): nat {
    var key := KeyLength(e.key.user) + 8;
    1 + |Varint(key)| + |Varint(|e.value|)| + key + |e.value|
  }

  datatype Sizes = Sizes(flushed: nat, open: nat)

  // The bytes of the data blocks written so far, each with a restart point, a count and a trailer, and of the open one.
  function TableSizes(es: seq<Entry>): Sizes {
    if es == [] then Sizes(0, 0) else
    var before := TableSizes(es[..|es| - 1]);
    var open := before.open + EntryLength(es[|es| - 1]);
    if open + 8 >= BLOCK_SIZE then Sizes(before.flushed + open + 13, 0) else Sizes(before.flushed, open)
  }

  function FlushedSize(es: seq<Entry>): nat {
    TableSizes(es).flushed
  }

  function Rule(): CutRule {
    CutRule([], 10 * TABLE_SIZE, FlushedSize, TABLE_SIZE)
  }

  lemma VarintLengths()
    ensures |Varint(9)| == 1 && |Varint(0)| == 1 && |Varint(1)| == 1 && |Varint(2008)| == 2 && |Varint(VALUE_LENGTH)| == 3
  {
    assert Varint(2008 / 128) == [15];
    assert VALUE_LENGTH / 128 == 8187 && VALUE_LENGTH / 128 / 128 == 63;
    assert |Varint(8187)| == 2 by {
      assert Varint(63) == [63];
    }
  }

  // The first table is closed after the deletion, and not before.
  lemma FlushedSizes()
    ensures FlushedSize([Second()]) < TABLE_SIZE <= FlushedSize([Second(), Third()])
    ensures FlushedSize([First()]) < TABLE_SIZE && FlushedSize([Fourth()]) < TABLE_SIZE
  {
    LowIsBefore();
    VarintLengths();
    assert EntryLength(Second()) == VALUE_LENGTH + 14 && EntryLength(Third()) == 2012;
    assert EntryLength(First()) == 2013 && EntryLength(Fourth()) == 13;
    hide EntryLength, Varint, Rank;
    assert [Second(), Third()][..1] == [Second()];
    assert TableSizes([]) == Sizes(0, 0);
    assert [First()][..0] == [] && [Second()][..0] == [] && [Fourth()][..0] == [];
    assert TableSizes([Second()]) == Sizes(VALUE_LENGTH + 27, 0);
  }

  // ---- The states and events of the run -----------------------------------------------------------------------

  function S0(): State { State([], None, Files([], []), 0, 0, []) }
  function S1(): State { S0().(mem := [First()], lastSequence := 1) }
  function S2(): State { S1().(snapshots := [1]) }
  function S3(): State { S2().(mem := [Second(), Third(), First()], lastSequence := 3) }
  function S4(): State { S3().(mem := [], imm := Some([Second(), Third(), First()]), nextFileNumber := 1) }
  function S5(): State { S4().(imm := None, version := Files([Whole()], []), nextFileNumber := 2) }
  function S6(): State { S5().(version := Files([], [Left(), Right()]), nextFileNumber := 4) }
  function S7(): State { S6().(snapshots := []) }
  function S8(): State { S7().(mem := [Fourth()], lastSequence := 4) }
  function S9(): State { S8().(mem := [], imm := Some([Fourth()]), nextFileNumber := 5) }
  function S10(): State { S9().(imm := None, version := Files([Late()], [Left(), Right()]), nextFileNumber := 6) }
  function S11(): State { S10().(version := Files([], [Merged(), Right()]), nextFileNumber := 7) }

  // HIGH is split over two tables: both its entries are needed, one by the snapshot.
  function SplitRun(): Run {
    Run(S5().version, Choice(2, [Whole()], [], Whole().smallest, Whole().largest), [Second(), Third(), First()], 1,
        [Left(), Right()], S6().version, {})
  }

  // Only the left table overlaps the new one; the deletion in it is dropped, the value in the right one stays.
  function LateRun(): Run {
    Run(S10().version, Choice(2, [Late()], [Left()], Late().smallest, Late().largest), [Fourth(), Second(), Third()], 4,
        [Merged()], S11().version, {})
  }

  function Write0(): Event { Write([Op(HIGH, Value, [1])]) }
  function Write2(): Event { Write([Op(LOW, Value, LongValue()), Op(HIGH, Deletion, [])]) }
  function Write7(): Event { Write([Op(LOW, Value, [4])]) }

  // ---- Each step is allowed ---------------------------------------------------------------------------------------

  lemma Writes()
    ensures Next(S0(), S1(), Write0()) && Next(S2(), S3(), Write2()) && Next(S7(), S8(), Write7())
  {
    LowIsBefore();
    hide Rank, LongValue;
    var ops0, ops2, ops7 := [Op(HIGH, Value, [1])], [Op(LOW, Value, LongValue()), Op(HIGH, Deletion, [])], [Op(LOW, Value, [4])];
    assert NewEntry(0, ops0, 0) == First() && NewEntry(3, ops7, 0) == Fourth();
    assert NewEntry(1, ops2, 0) == Second() && NewEntry(1, ops2, 1) == Third();
    assert NewEntries(0, ops0) == {First()} && NewEntries(3, ops7) == {Fourth()};
    assert NewEntries(1, ops2) == {Second(), Third()};
    assert EntrySet([]) == {} && EntrySet([First()]) == {First()} && EntrySet([Fourth()]) == {Fourth()};
    assert EntrySet([Second(), Third(), First()]) == {First()} + {Second(), Third()};
  }

  lemma Flushes()
    ensures Next(S4(), S5(), Flush(Whole(), 2)) && Next(S9(), S10(), Flush(Late(), 2))
  {
    LowIsBefore();
    hide Rank, LongValue;
    assert FileSet([]) == {} && FileSet([Whole()]) == {} + {Whole()} && FileSet([Late()]) == {} + {Late()};
  }

  lemma SplitDrops()
    ensures var r := SplitRun();
      !Dropped(r.v, 2, r.input, 0, 1) && !Dropped(r.v, 2, r.input, 1, 1) && !Dropped(r.v, 2, r.input, 2, 1)
  {
    LowIsBefore();
    hide Rank, LongValue;
  }

  lemma SplitKept()
    ensures var r := SplitRun(); Kept(r.v, 2, r.input, 3, 1) == r.input && Flatten(r.outputs) == r.input
  {
    var r := SplitRun();
    SplitDrops();
    hide Dropped, Rank, LongValue, Files;
    assert Kept(r.v, 2, r.input, 1, 1) == [Second()];
    assert Kept(r.v, 2, r.input, 2, 1) == [Second(), Third()];
    FlattenTwo(Left(), Right());
  }

  lemma FlattenTwo(f: File, g: File)
    ensures Flatten([f]) == f.entries && Flatten([f, g]) == f.entries + g.entries
  {
    assert [f][..0] == [] && [f, g][..1] == [f];
  }

  // With no grandparents only sizes decide.
  lemma CutsOnce(v: Version, input: seq<Entry>, n: nat, oldest: Sequence)
    requires n < |input| && Cuts(Rule(), v, 2, input, n, oldest).progress.overlapped == 0
    ensures var c, d := Cuts(Rule(), v, 2, input, n, oldest), Cuts(Rule(), v, 2, input, n + 1, oldest);
      var arrived := c.(progress := c.progress.(seen := true));
      d == if Dropped(v, 2, input, n, oldest) then arrived else Put(Rule(), arrived, input[n])
  {
    hide Dropped, Put, FlushedSize, Rank;
    assert forall p, k :: Pass([], p, k) == p;
  }

  lemma SplitPieces()
    ensures var r := SplitRun(); EntriesOf(r.outputs) == Pieces(Rule(), r.v, r.c.level, r.input, r.oldest)
  {
    SplitDrops();
    FlushedSizes();
    var v, input := SplitRun().v, SplitRun().input;
    assert input == [Second(), Third(), First()];
    assert Cuts(Rule(), v, 2, input, 0, 1) == Cutting([], [], Progress(0, false, 0));
    hide Dropped, FlushedSize, Rank, Cuts, First, Second, Third;
    CutsOnce(v, input, 0, 1);
    assert Cuts(Rule(), v, 2, input, 1, 1) == Cutting([], [Second()], Progress(0, true, 0));
    CutsOnce(v, input, 1, 1);
    assert [Second()] + [Third()] == [Second(), Third()];
    assert Cuts(Rule(), v, 2, input, 2, 1) == Cutting([[Second(), Third()]], [], Progress(0, true, 0));
    CutsOnce(v, input, 2, 1);
    assert Cuts(Rule(), v, 2, input, 3, 1) == Cutting([[Second(), Third()]], [First()], Progress(0, true, 0));
  }

  lemma LatePieces()
    ensures var r := LateRun(); EntriesOf(r.outputs) == Pieces(Rule(), r.v, r.c.level, r.input, r.oldest)
  {
    LateDrops();
    FlushedSizes();
    var v, input := LateRun().v, LateRun().input;
    assert Dropped(v, 2, input, 1, 4) && Dropped(v, 2, input, 2, 4);
    assert Cuts(Rule(), v, 2, input, 0, 4) == Cutting([], [], Progress(0, false, 0));
    hide Dropped, FlushedSize, Rank, Cuts;
    CutsOnce(v, input, 0, 4);
    CutsOnce(v, input, 1, 4);
    CutsOnce(v, input, 2, 4);
    assert Cuts(Rule(), v, 2, input, 3, 4) == Cutting([], [Fourth()], Progress(0, true, 0));
  }

  lemma LateDrops()
    ensures var r := LateRun(); !Dropped(r.v, 2, r.input, 0, 4) && Hidden(r.input, 1, 4) && Obsolete(r.v, 2, Third(), 4)
  {
    LowIsBefore();
    hide Rank, LongValue;
  }

  lemma LateKept()
    ensures var r := LateRun(); Kept(r.v, 2, r.input, 3, 4) == [Fourth()] && Flatten(r.outputs) == [Fourth()]
  {
    var r := LateRun();
    LateDrops();
    FlattenTwo(Merged(), Merged());
    hide Obsolete, Hidden;
    assert Kept(r.v, 2, r.input, 1, 4) == [Fourth()];
    assert Kept(r.v, 2, r.input, 2, 4) == [Fourth()];
  }

  lemma OneFile(f: File)
    ensures LevelEntries([f]) == EntrySet(f.entries) && LevelEntries([]) == {}
  {
    assert f in [f];
  }

  lemma SplitMerge()
    ensures MergeOf(SplitRun().c, SplitRun().input)
  {
    LowIsBefore();
    hide Rank, LongValue;
    OneFile(Whole());
    hide LevelEntries;
  }

  lemma SplitChoice()
    ensures GoodChoice(SplitRun().v, SplitRun().c)
    ensures Compacted(SplitRun().v, SplitRun().c, SplitRun().outputs, SplitRun().after)
  {
    LowIsBefore();
    hide Rank, LongValue;
    assert Whole() in SplitRun().c.inputs0;
  }

  lemma LateMerge()
    ensures MergeOf(LateRun().c, LateRun().input)
  {
    LowIsBefore();
    hide Rank, LongValue;
    OneFile(Late());
    OneFile(Left());
    hide LevelEntries;
    assert EntrySet([Fourth(), Second(), Third()]) == EntrySet([Fourth()]) + EntrySet([Second(), Third()]);
  }

  lemma LateOverlaps()
    ensures Overlapping([Left(), Right()], Some(LOW), Some(LOW)) == [Left()]
  {
    LowIsBefore();
    hide Rank, LongValue;
    assert [Left(), Right()][..1] == [Left()] && [Left()][..0] == [];
    assert Overlapping([Left()], Some(LOW), Some(LOW)) == [Left()];
  }

  lemma LateChoice()
    ensures GoodChoice(LateRun().v, LateRun().c)
    ensures Compacted(LateRun().v, LateRun().c, LateRun().outputs, LateRun().after)
  {
    LowIsBefore();
    hide Rank, LongValue;
    LateOverlaps();
    assert Late() in LateRun().c.inputs0;
  }

  lemma SplitOutputs()
    ensures OutputsOk([Left(), Right()], 2) && LevelSorted([Left(), Right()])
  {
    LowIsBefore();
    hide Rank, LongValue;
    assert Left().Valid() && Right().Valid();
  }

  lemma Compacts()
    requires StateOk(S5())
    ensures Next(S5(), S6(), Compact(SplitRun(), Rule()))
  {
    LowIsBefore();
    hide Rank, LongValue;
    SplitKept();
    SplitChoice();
    SplitMerge();
    SplitOutputs();
    hide Kept, GoodChoice, Compacted, LevelEntries, Sorted, Newer, Flatten;
    assert Upper(S5()) == {} && KeysDistinct({});
    hide VersionEntries, Inv;
    MakeOk(SplitRun());
    hide Ok, Upper, StateOk, OutputsOk, LevelSorted;
    SplitPieces();
    MakeCompact(S5(), S6(), SplitRun(), Rule());
  }

  lemma CompactsLate()
    requires StateOk(S10())
    ensures Next(S10(), S11(), Compact(LateRun(), Rule()))
  {
    LowIsBefore();
    hide Rank, LongValue;
    LateKept();
    LateChoice();
    LateMerge();
    hide Kept, GoodChoice, Compacted, LevelEntries, Sorted, Newer, Flatten;
    assert Upper(S10()) == {} && KeysDistinct({});
    hide VersionEntries, Inv;
    MakeOk(LateRun());
    hide Ok, Upper, StateOk;
    LatePieces();
    MakeCompact(S10(), S11(), LateRun(), Rule());
  }

  ghost function RunStates(): seq<State> {
    [S0(), S1(), S2(), S3(), S4(), S5(), S6(), S7(), S8(), S9(), S10(), S11()]
  }

  ghost function RunEvents(): seq<Event> {
    [Write0(), TakeSnapshot, Write2(), SwitchMemTable, Flush(Whole(), 2), Compact(SplitRun(), Rule()), ReleaseSnapshot(0),
     Write7(), SwitchMemTable, Flush(Late(), 2), Compact(LateRun(), Rule())]
  }

  lemma OtherSteps()
    ensures Initial(S0())
    ensures Next(S1(), S2(), TakeSnapshot) && Next(S6(), S7(), ReleaseSnapshot(0))
    ensures Next(S3(), S4(), SwitchMemTable) && Next(S8(), S9(), SwitchMemTable)
  {
    assert Files([], []) == seq(NUM_LEVELS, _ => []);
  }

  lemma IsARun()
    ensures IsRun(RunStates(), RunEvents())
    ensures StateOk(S10())
  {
    OtherSteps();
    Writes();
    Flushes();
    hide Next, StateOk, S0, S1, S2, S3, S4, S5, S6, S7, S8, S9, S10, S11, Initial;
    hide Write0, Write2, Write7, SplitRun, LateRun, Whole, Late;
    InitialOk(S0());
    EventKeepsState(S0(), S1(), Write0());
    EventKeepsState(S1(), S2(), TakeSnapshot);
    EventKeepsState(S2(), S3(), Write2());
    EventKeepsState(S3(), S4(), SwitchMemTable);
    EventKeepsState(S4(), S5(), Flush(Whole(), 2));
    Compacts();
    EventKeepsState(S5(), S6(), Compact(SplitRun(), Rule()));
    EventKeepsState(S6(), S7(), ReleaseSnapshot(0));
    EventKeepsState(S7(), S8(), Write7());
    EventKeepsState(S8(), S9(), SwitchMemTable);
    EventKeepsState(S9(), S10(), Flush(Late(), 2));
    CompactsLate();
  }

  ghost function Everything(): set<Entry> {
    {First(), Second(), Third(), Fourth()}
  }

  lemma WrittenInAll()
    requires IsRun(RunStates(), RunEvents())
    ensures Written(RunStates(), RunEvents(), 11) == Everything()
  {
    var states, events := RunStates(), RunEvents();
    WrittenByEach();
    hide S0, S2, S7, WrittenBy, Write0, Write2, Write7, IsRun, Everything;
    assert Written(states, events, 1) == {First()};
    assert Written(states, events, 3) == {First(), Second(), Third()};
    assert Written(states, events, 5) == {First(), Second(), Third()};
    assert Written(states, events, 7) == {First(), Second(), Third()};
    assert Written(states, events, 8) == Everything();
    assert Written(states, events, 10) == Everything();
  }

  lemma WrittenByEach()
    ensures WrittenBy(S0(), Write0(), {}) == {First()}
    ensures WrittenBy(S2(), Write2(), {First()}) == {First(), Second(), Third()}
    ensures WrittenBy(S7(), Write7(), {First(), Second(), Third()}) == Everything()
    ensures forall a, ev: Event, w :: !ev.Write? ==> WrittenBy(a, ev, w) == w
  {
    LowIsBefore();
    hide Rank, LongValue;
    var ops0, ops2, ops7 := [Op(HIGH, Value, [1])], [Op(LOW, Value, LongValue()), Op(HIGH, Deletion, [])], [Op(LOW, Value, [4])];
    assert NewEntry(0, ops0, 0) == First() && NewEntry(3, ops7, 0) == Fourth();
    assert NewEntry(1, ops2, 0) == Second() && NewEntry(1, ops2, 1) == Third();
    assert NewEntries(0, ops0) == {First()} && NewEntries(3, ops7) == {Fourth()};
    assert NewEntries(1, ops2) == {Second(), Third()};
  }

  lemma LateBoundary()
    ensures LateRun().c.inputs1 != [] && |LateRun().v| == NUM_LEVELS && LastInput(LateRun().c).user == HIGH
    ensures IsBoundary(LateRun().v[3], LastInput(LateRun().c), Right())
  {
    LowIsBefore();
    hide Rank, LongValue;
    assert Right() in LateRun().v[3];
  }

  lemma DeletionIsNewest()
    ensures Newest(Everything(), HIGH, 4, Third())
  {
    LowIsBefore();
    hide Rank, LongValue;
  }

  lemma LateUncovers()
    requires Ok(LateRun())
    ensures Uncovers(LateRun())
  {
    LowIsBefore();
    hide Rank, LongValue;
    LateDrops();
    BeforeLate();
    LateBoundary();
    DeletionIsNewest();
    assert LateRun().input == [Fourth(), Second(), Third()] && LateRun().c.level == 2 && LateRun().oldest == 4;
    hide Ok, Obsolete, Before, IsBoundary, Newest, LateRun, Everything;
    MakeUncovers(LateRun(), Right(), Third());
  }

  lemma BeforeLate()
    ensures Before(LateRun()) == Everything()
  {
    LowIsBefore();
    hide Rank, LongValue;
    var v := LateRun().v;
    OneFile(Late());
    assert LevelEntries(v[2]) == {Fourth()} && LevelEntries(v[3]) == {Second(), Third(), First()} by {
      LevelOfTwo(Left(), Right());
    }
    OneFile(Left());
    forall e ensures e in VersionEntries(v) <==> e in LevelEntries(v[2]) || e in LevelEntries(v[3]) {
    }
  }

  lemma LevelOfTwo(f: File, g: File)
    ensures LevelEntries([f, g]) == EntrySet(f.entries) + EntrySet(g.entries)
  {
    assert f in [f, g] && g in [f, g];
  }

  // From the empty store, without releasing anything in use: HIGH was deleted, and reads as present.
  lemma DeletedKeyComesBack()
    ensures IsRun(RunStates(), RunEvents())
    ensures Read(Written(RunStates(), RunEvents(), 11), HIGH, 4) == None
    ensures Read(Contents(S10()), HIGH, 4) == None
    ensures Read(Contents(S11()), HIGH, 4) != None
  {
    IsARun();
    WrittenInAll();
    DeletionIsNewest();
    CompactsLate();
    LateStates();
    hide *;
    ReadFromNewest(Everything(), HIGH, 4, Third());
    LateUncovers();
    var u := UncoversChangesRead(LateRun());
    LateBoundary();
  }

  lemma LateStates()
    requires StateOk(S10()) && Next(S10(), S11(), Compact(LateRun(), Rule()))
    ensures Ok(LateRun()) && LateRun().oldest == 4
    ensures Contents(S10()) == Before(LateRun()) && Contents(S11()) == After(LateRun())
  {
    LowIsBefore();
    hide Rank, LongValue;
    CompactFacts(S10(), S11(), LateRun(), Rule());
    CompactKeepsState(S10(), S11(), LateRun(), Rule());
  }
}
