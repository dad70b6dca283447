/** What a compaction does to reads: nothing, except when a deletion it drops still hides a file left behind. */
module CompactionMeaning {
  import opened DbFormat
  import opened Versions
  import opened Inputs
  import opened Compactions

  // One compaction: the version before, the chosen inputs and their merge, and the version after.
  // `upper` holds the entries of both memtables.
  datatype Run = Run(v: Version, c: Choice, input: seq<Entry>, oldest: Sequence, outputs: seq<File>,
                     after: Version, upper: set<Entry>)

  ghost predicate Replaces(files: seq<File>, removed: seq<File>, added: seq<File>, r: seq<File>) {
    SortedFiles(r) && forall f :: f in r <==> (f in files && f !in removed) || f in added
  }

  ghost predicate Compacted(v: Version, c: Choice, outputs: seq<File>, after: Version) {
    && |v| == |after| == NUM_LEVELS && c.level + 1 < NUM_LEVELS
    && (forall l :: 0 <= l < NUM_LEVELS && l != c.level && l != c.level + 1 ==> after[l] == v[l])
    && Replaces(v[c.level], c.inputs0, [], after[c.level])
    && Replaces(v[c.level + 1], c.inputs1, outputs, after[c.level + 1])
  }

  ghost predicate MergeOf(c: Choice, input: seq<Entry>) {
    Sorted(input) && EntrySet(input) == LevelEntries(c.inputs0) + LevelEntries(c.inputs1)
  }

  ghost predicate Ok(r: Run) {
    && Inv(r.v) && GoodChoice(r.v, r.c) && MergeOf(r.c, r.input)
    && Flatten(r.outputs) == Kept(r.v, r.c.level, r.input, |r.input|, r.oldest)
    && Compacted(r.v, r.c, r.outputs, r.after)
    && Newer(r.upper, VersionEntries(r.v)) && KeysDistinct(r.upper)
  }

  lemma MakeOk(r: Run)
    requires Inv(r.v) && GoodChoice(r.v, r.c)
    requires MergeOf(r.c, r.input)
    requires Flatten(r.outputs) == Kept(r.v, r.c.level, r.input, |r.input|, r.oldest)
    requires Compacted(r.v, r.c, r.outputs, r.after)
    requires Newer(r.upper, VersionEntries(r.v)) && KeysDistinct(r.upper)
    ensures Ok(r)
  {
  }

  ghost function Before(r: Run): set<Entry> {
    r.upper + VersionEntries(r.v)
  }

  ghost function After(r: Run): set<Entry> {
    r.upper + VersionEntries(r.after)
  }

  // ---- Keys are distinct ---------------------------------------------------------------------------

  lemma HomeOf(v: Version, e: Entry) returns (l: nat, f: File)
    requires |v| == NUM_LEVELS && e in VersionEntries(v)
    ensures l < NUM_LEVELS && f in v[l] && e in f.entries
  {
    l :| 0 <= l < |v| && e in LevelEntries(v[l]);
    f :| f in v[l] && e in f.entries;
  }

  lemma HasHome(v: Version, l: nat, f: File, e: Entry)
    requires l < |v| && f in v[l] && e in f.entries
    ensures e in LevelEntries(v[l]) && e in VersionEntries(v)
  {
  }

  // Entries of one user key in different files of a level are ordered.
  lemma FilesApart(l: nat, files: seq<File>, f: File, g: File, d: Entry, e: Entry)
    requires LevelOk(l, files) && f in files && g in files && f != g
    requires d in f.entries && e in g.entries && d.key.user == e.key.user
    ensures Less(d.key, e.key) || Less(e.key, d.key)
  {
    if l == 0 {
      assert d in EntrySet(f.entries) && e in EntrySet(g.entries);
      assert f.number != g.number;
    } else {
      var i: nat :| i < |files| && files[i] == f;
      var j: nat :| j < |files| && files[j] == g;
      if i < j {
        FilesInOrder(files, i, j, d, e);
      } else {
        FilesInOrder(files, j, i, e, d);
      }
    }
  }

  lemma LevelsApart(v: Version, l: nat, m: nat, d: Entry, e: Entry)
    requires Inv(v) && l < m < NUM_LEVELS && d in LevelEntries(v[l]) && e in LevelEntries(v[m])
    requires d.key.user == e.key.user
    ensures Less(d.key, e.key)
  {
    hide LevelOk, LevelEntries;
    assert Newer(LevelEntries(v[l]), LevelEntries(v[m]));
  }

  lemma HomeIsUnique(v: Version, l: nat, f: File, m: nat, g: File, d: Entry, e: Entry)
    requires Inv(v) && l < NUM_LEVELS && m < NUM_LEVELS
    requires f in v[l] && g in v[m] && d in f.entries && e in g.entries && d.key == e.key
    ensures l == m && f == g && d == e
  {
    HasHome(v, l, f, d);
    HasHome(v, m, g, e);
    hide LevelEntries;
    if l < m {
      LevelsApart(v, l, m, d, e);
    } else if m < l {
      LevelsApart(v, m, l, e, d);
    } else if f != g {
      FilesApart(l, v[l], f, g, d, e);
    } else {
      assert LevelOk(l, v[l]) && f.Valid();
    }
  }

  lemma VersionKeysDistinct(v: Version)
    requires Inv(v)
    ensures KeysDistinct(VersionEntries(v))
  {
    forall d, e | d in VersionEntries(v) && e in VersionEntries(v) && d.key == e.key ensures d == e {
      var l, f := HomeOf(v, d);
      var m, g := HomeOf(v, e);
      HomeIsUnique(v, l, f, m, g, d, e);
    }
  }

  lemma AllKeysDistinct(v: Version, upper: set<Entry>)
    requires Inv(v) && Newer(upper, VersionEntries(v)) && KeysDistinct(upper)
    ensures KeysDistinct(upper + VersionEntries(v))
  {
    VersionKeysDistinct(v);
    hide Inv;
  }

  // ---- What stays and what goes ---------------------------------------------------------------------

  lemma InputHome(r: Run, e: Entry) returns (l: nat, f: File)
    requires Ok(r) && e in r.input
    ensures (l == r.c.level && f in r.c.inputs0) || (l == r.c.level + 1 && f in r.c.inputs1)
    ensures l < |r.v| && f in r.v[l] && e in f.entries && e in VersionEntries(r.v)
  {
    hide Inv, Newer, Sorted, KeysDistinct, LeavesNewer, Compacted, VersionEntries;
    assert e in EntrySet(r.input);
    if e in LevelEntries(r.c.inputs0) {
      l := r.c.level;
      f :| f in r.c.inputs0 && e in f.entries;
    } else {
      l := r.c.level + 1;
      f :| f in r.c.inputs1 && e in f.entries;
    }
    HasHome(r.v, l, f, e);
  }

  lemma InputsAreMerged(r: Run, f: File, e: Entry)
    requires Ok(r) && (f in r.c.inputs0 || f in r.c.inputs1) && e in f.entries
    ensures e in r.input
  {
    hide Inv, Newer, Sorted, KeysDistinct, GoodChoice, Compacted, VersionEntries;
    assert e in EntrySet(r.input);
  }

  lemma WrittenWasKept(r: Run, e: Entry)
    requires Ok(r)
    ensures e in LevelEntries(r.outputs)
       <==> exists i :: 0 <= i < |r.input| && r.input[i] == e && !Dropped(r.v, r.c.level, r.input, i, r.oldest)
  {
    hide Inv, Newer, Sorted, KeysDistinct, GoodChoice, Compacted, VersionEntries, LevelEntries, Dropped;
    FlattenMembers(r.outputs);
    assert e in LevelEntries(r.outputs) <==> e in Flatten(r.outputs);
    KeptMembers(r.v, r.c.level, r.input, |r.input|, r.oldest, e);
  }

  ghost predicate LeftBehind(r: Run, l: nat, f: File) {
    && l < |r.v| && f in r.v[l]
    && (l == r.c.level ==> f !in r.c.inputs0)
    && (l == r.c.level + 1 ==> f !in r.c.inputs1)
  }

  // The version after holds exactly the files left behind and the outputs.
  lemma FilesAfter(r: Run, l: nat, f: File)
    requires Ok(r) && l < NUM_LEVELS
    ensures f in r.after[l] <==> LeftBehind(r, l, f) || (l == r.c.level + 1 && f in r.outputs)
  {
    hide Inv, Newer, Sorted, KeysDistinct, GoodChoice, SortedFiles, MergeOf, VersionEntries;
  }

  // Where an entry of the version after comes from.
  lemma SurvivorHome(r: Run, d: Entry) returns (written: bool, l: nat, f: File)
    requires Ok(r) && d in VersionEntries(r.after)
    ensures written ==> d in LevelEntries(r.outputs)
    ensures !written ==> LeftBehind(r, l, f) && d in f.entries
    ensures d in VersionEntries(r.v)
  {
    l, f := HomeOf(r.after, d);
    FilesAfter(r, l, f);
    written := l == r.c.level + 1 && f in r.outputs;
    if written {
      assert d in LevelEntries(r.outputs);
      WrittenWasKept(r, d);
      var _, _ := InputHome(r, d);
    } else {
      HasHome(r.v, l, f, d);
    }
  }

  // An entry the version after lacks was dropped from the merge.
  lemma DroppedOrStays(r: Run, e: Entry) returns (i: nat)
    requires Ok(r) && e in VersionEntries(r.v)
    ensures e in VersionEntries(r.after)
      || (i < |r.input| && r.input[i] == e && Dropped(r.v, r.c.level, r.input, i, r.oldest))
  {
    SameLength(r);
    hide Ok, VersionEntries, LevelEntries, Dropped;
    var l, f := HomeOf(r.v, e);
    FilesAfter(r, l, f);
    i := 0;
    if LeftBehind(r, l, f) {
      HasHome(r.after, l, f, e);
    } else {
      InputsAreMerged(r, f, e);
      i :| 0 <= i < |r.input| && r.input[i] == e;
      if !Dropped(r.v, r.c.level, r.input, i, r.oldest) {
        WrittenWasKept(r, e);
        WrittenStays(r, e);
      }
    }
  }

  lemma WrittenStays(r: Run, e: Entry)
    requires Ok(r) && e in LevelEntries(r.outputs)
    ensures e in VersionEntries(r.after)
  {
    hide Inv, Newer, Sorted, KeysDistinct, MergeOf, VersionEntries;
    var o :| o in r.outputs && e in o.entries;
    FilesAfter(r, r.c.level + 1, o);
    HasHome(r.after, r.c.level + 1, o, e);
  }

  // An entry dropped by rule (A) is no answer: the entry before it is newer and visible as well.
  lemma HiddenIsNotNewest(r: Run, i: nat, u: UserKey, s: Sequence)
    requires Ok(r) && i < |r.input| && Hidden(r.input, i, r.oldest) && r.oldest <= s && r.oldest < MAX_SEQUENCE
    ensures !Newest(Before(r), u, s, r.input[i])
  {
    hide Inv, Newer, KeysDistinct, GoodChoice, Compacted, Kept, VersionEntries, LevelEntries;
    assert i > 0;
    var _, _ := InputHome(r, r.input[i - 1]);
    assert Less(r.input[i - 1].key, r.input[i].key);
  }

  // After an obsolete deletion every later input entry of its user key is hidden.
  lemma LaterIsHidden(input: seq<Entry>, oldest: Sequence, i: nat, j: nat)
    requires Sorted(input) && i < j < |input| && input[i].key.user == input[j].key.user
    requires input[i].key.seqno <= oldest
    ensures Hidden(input, j, oldest)
  {
    assert i < j - 1 ==> Less(input[i].key, input[j - 1].key);
    assert Less(input[j - 1].key, input[j].key);
  }

  lemma InOrder(es: seq<Entry>, i: nat, j: nat)
    requires Sorted(es) && i < |es| && j < |es| && Less(es[i].key, es[j].key)
    ensures i < j
  {
  }

  lemma NotWrittenAfter(r: Run, e: Entry, d: Entry)
    requires Ok(r) && e in r.input && e.key.seqno <= r.oldest
    requires d.key.user == e.key.user && Less(e.key, d.key)
    ensures d !in LevelEntries(r.outputs)
  {
    hide Inv, Newer, KeysDistinct, GoodChoice, Compacted, VersionEntries, LevelEntries, Hidden;
    WrittenWasKept(r, d);
    var i: nat :| i < |r.input| && r.input[i] == e;
    forall j: nat | j < |r.input| && r.input[j] == d ensures Dropped(r.v, r.c.level, r.input, j, r.oldest) {
      InOrder(r.input, i, j);
      LaterIsHidden(r.input, r.oldest, i, j);
    }
  }

  // ---- What an obsolete deletion may still hide ------------------------------------------------------

  // A file left behind with an older entry than an input file of `level` has: there is none.
  lemma NothingOlderThanInputs0(r: Run, fe: File, e: Entry, l: nat, f: File, d: Entry)
    requires Ok(r) && fe in r.c.inputs0 && e in fe.entries && LeftBehind(r, l, f) && d in f.entries
    requires l <= r.c.level + 1 && d.key.user == e.key.user
    ensures Less(d.key, e.key)
  {
    hide KeysDistinct, Compacted, MergeOf, VersionEntries, LevelSorted, SortedFiles, Kept;
    assert fe in r.v[r.c.level];
    if l < r.c.level {
      HasHome(r.v, l, f, d);
      HasHome(r.v, r.c.level, fe, e);
      LevelsApart(r.v, l, r.c.level, d, e);
    } else if l == r.c.level {
      assert d in EntrySet(f.entries) && e in EntrySet(fe.entries);
    } else {
      assert LevelOk(l, r.v[l]) && LevelOk(r.c.level, r.v[r.c.level]);
      SharersOverlap(r.c, fe, e, f, d);
    }
  }

  // A file that shares a user key with an input file of `level` overlaps the range of the choice.
  lemma SharersOverlap(c: Choice, fe: File, e: Entry, f: File, d: Entry)
    requires fe in c.inputs0 && IsSmallest(c.inputs0, c.smallest) && IsLargest(c.inputs0, c.largest)
    requires fe.Valid() && f.Valid() && e in fe.entries && d in f.entries && d.key.user == e.key.user
    ensures Overlaps(f, Some(c.smallest.user), Some(c.largest.user))
  {
    FileBounds(f, d);
    FileBounds(fe, e);
    assert !Less(fe.smallest, c.smallest) && !Less(c.largest, fe.largest);
  }

  lemma UpperIsNewer(r: Run, d: Entry, e: Entry)
    requires Ok(r) && e in VersionEntries(r.v) && d.key.user == e.key.user && Less(e.key, d.key)
    ensures d !in r.upper
  {
    hide Inv, KeysDistinct, Compacted, MergeOf, VersionEntries, GoodChoice, Kept;
  }

  // An entry that survives, older than an obsolete input deletion of its user key, sits in a file of the
  // output level that was left behind, while the deletion came from a chosen file of that level.
  lemma OlderSurvivor(r: Run, e: Entry, d: Entry) returns (h: File, g: File)
    requires Ok(r) && e in r.input && Obsolete(r.v, r.c.level, e, r.oldest)
    requires d in After(r) && d.key.user == e.key.user && Less(e.key, d.key)
    ensures h in r.c.inputs1 && e in h.entries && r.c.level + 1 < |r.v|
    ensures LeftBehind(r, r.c.level + 1, g) && d in g.entries
  {
    hide KeysDistinct, Compacted, MergeOf, VersionEntries, LevelEntries, LevelOk, Kept, Newer;
    var le, fe := InputHome(r, e);
    UpperIsNewer(r, d, e);
    var written, l, f := SurvivorHome(r, d);
    NotWrittenAfter(r, e, d);
    LevelFileBounds(r.v, l, f, d);
    assert l < r.c.level + 2;
    HasHome(r.v, l, f, d);
    HasHome(r.v, le, fe, e);
    h, g := fe, f;
    if fe in r.c.inputs0 && le == r.c.level {
      NothingOlderThanInputs0(r, fe, e, l, f, d);
    } else if l < le {
      LevelsApart(r.v, l, le, d, e);
    }
  }

  lemma LevelFileBounds(v: Version, l: nat, f: File, d: Entry)
    requires Inv(v) && l < NUM_LEVELS && f in v[l] && d in f.entries
    ensures f.smallest.user <= d.key.user <= f.largest.user
  {
    assert LevelOk(l, v[l]);
    FileBounds(f, d);
  }

  lemma FilePositions(files: seq<File>, h: File, g: File, e: Entry, d: Entry)
    requires FilesValid(files) && LevelSorted(files)
    requires h in files && g in files && h != g && e in h.entries && d in g.entries && Less(e.key, d.key)
    ensures Less(h.smallest, g.smallest)
  {
    var i: nat :| i < |files| && files[i] == h;
    var j: nat :| j < |files| && files[j] == g;
    if j < i {
      FilesInOrder(files, j, i, d, e);
    }
  }

  lemma SameStart(files: seq<File>, f: File, g: File)
    requires LevelSorted(files) && f in files && g in files && f.smallest == g.smallest
    ensures f == g
  {
    var i: nat :| i < |files| && files[i] == f;
    var j: nat :| j < |files| && files[j] == g;
    if i < j {
      LargestIncreasing(files, i, j);
    } else if j < i {
      LargestIncreasing(files, j, i);
    }
  }

  lemma LastIsLargest(files: seq<File>, h: File)
    requires LevelSorted(files) && h in files
    ensures !Less(files[|files| - 1].largest, h.largest)
  {
    var i: nat :| i < |files| && files[i] == h;
    if i < |files| - 1 {
      LargestIncreasing(files, i, |files| - 1);
    }
  }

  // In a sorted level, a file not picked by overlap that comes after a picked one comes after all of them.
  lemma PastAllPicked(files: seq<File>, lo: Option<UserKey>, hi: Option<UserKey>, h: File, g: File, m: File)
    requires LevelSorted(files) && g in files && !Overlaps(g, lo, hi)
    requires h in files && Overlaps(h, lo, hi) && m in files && Overlaps(m, lo, hi)
    requires Less(h.smallest, g.smallest)
    ensures Less(m.largest, g.smallest)
  {
    PositionsInOrder(files, h, g);
    LessIsTotal(m.smallest, g.smallest);
    if m.smallest == g.smallest {
      SameStart(files, m, g);
    } else if Less(m.smallest, g.smallest) {
      PositionsInOrder(files, m, g);
    } else {
      PositionsInOrder(files, g, m);
    }
  }

  ghost function LastInput(c: Choice): InternalKey
    requires c.inputs1 != []
  {
    c.inputs1[|c.inputs1| - 1].largest
  }

  // A file left behind after a chosen one of the output level, with a user key of it, starts past the largest
  // key taken from that level, and with that very user key.
  lemma LeftBehindStartsPast(r: Run, h: File, e: Entry, g: File, d: Entry)
    requires Ok(r) && h in r.c.inputs1 && LeftBehind(r, r.c.level + 1, g)
    requires e in h.entries && d in g.entries && d.key.user == e.key.user && Less(e.key, d.key)
    ensures StartsPast(g, LastInput(r.c)) && g.smallest.user == e.key.user
    ensures !Less(LastInput(r.c), e.key)
  {
    hide KeysDistinct, Compacted, MergeOf, VersionEntries, LevelEntries, SortedFiles, Kept, LeavesNewer, Newer;
    var below := r.v[r.c.level + 1];
    assert LevelOk(r.c.level + 1, below);
    hide Inv;
    var lo, hi := Some(r.c.smallest.user), Some(r.c.largest.user);
    FileBounds(h, e);
    FileBounds(g, d);
    OverlappingSorted(below, lo, hi);
    LastIsLargest(r.c.inputs1, h);
    var last := r.c.inputs1[|r.c.inputs1| - 1];
    assert last in r.c.inputs1;
    FilePositions(below, h, g, e, d);
    PastAllPicked(below, lo, hi, h, g, last);
  }

  // The one case in which a compaction changes what is read: the newest entry of the last user key taken
  // from the output level is a deletion among the inputs, no deeper level covers that user key, and the next
  // file of the output level begins with a value of it.
  ghost predicate Uncovers(r: Run) {
    && r.c.inputs1 != [] && r.c.level + 1 < |r.v|
    && (exists g :: IsBoundary(r.v[r.c.level + 1], LastInput(r.c), g) && g.smallest.kind.Value?)
    && (exists e :: e in r.input && Newest(Before(r), LastInput(r.c).user, r.oldest, e) && Obsolete(r.v, r.c.level, e, r.oldest))
  }

  // ---- The main results ---------------------------------------------------------------------------------

  // A read that changes was answered by an obsolete deletion among the inputs.
  lemma OnlyDeletionsGo(r: Run, u: UserKey, s: Sequence, e: Entry)
    requires Ok(r) && r.oldest <= s && r.oldest < MAX_SEQUENCE && Newest(Before(r), u, s, e)
    ensures e in After(r) || (e in r.input && Obsolete(r.v, r.c.level, e, r.oldest))
  {
    hide Inv, Newer, KeysDistinct, Compacted, MergeOf, VersionEntries, LevelEntries, GoodChoice, Kept, BaseLevel;
    if e !in r.upper {
      var i := DroppedOrStays(r, e);
      if e !in VersionEntries(r.after) && Hidden(r.input, i, r.oldest) {
        HiddenIsNotNewest(r, i, u, s);
      }
    }
  }

  lemma AfterIsSubset(r: Run)
    requires Ok(r)
    ensures After(r) <= Before(r)
  {
    hide Ok, VersionEntries;
    forall d | d in VersionEntries(r.after) ensures d in VersionEntries(r.v) {
      var _, _, _ := SurvivorHome(r, d);
    }
  }

  lemma BoundaryExists(files: seq<File>, k: InternalKey, g: File) returns (b: File)
    requires g in files && StartsPast(g, k)
    ensures IsBoundary(files, k, b) && !Less(g.smallest, b.smallest)
  {
    b := SmallestStart(files, k, g, |files|);
    assert files[..|files|] == files;
  }

  lemma {:induction false} SmallestStart(files: seq<File>, k: InternalKey, g: File, n: nat) returns (b: File)
    requires n <= |files| && g in files && StartsPast(g, k)
    ensures b in files && StartsPast(b, k) && !Less(g.smallest, b.smallest)
    ensures forall h :: h in files[..n] && StartsPast(h, k) ==> !Less(h.smallest, b.smallest)
  {
    if n == 0 {
      b := g;
    } else {
      b := SmallestStart(files, k, g, n - 1);
      if StartsPast(files[n - 1], k) && Less(files[n - 1].smallest, b.smallest) {
        b := files[n - 1];
      }
      assert files[..n] == files[..n - 1] + [files[n - 1]];
    }
  }

  // The boundary file of the output level was left behind, and no surviving entry of its user key that is
  // older than an obsolete input deletion is newer than its first entry.
  lemma BoundaryLeads(r: Run, e: Entry, b: File, d: Entry)
    requires Ok(r) && e in r.input && Obsolete(r.v, r.c.level, e, r.oldest)
    requires r.c.inputs1 != [] && IsBoundary(r.v[r.c.level + 1], LastInput(r.c), b)
    requires d in After(r) && d.key.user == e.key.user && Less(e.key, d.key)
    ensures b.Valid() && (d == b.entries[0] || Less(b.smallest, d.key))
  {
    var h, g := OlderSurvivor(r, e, d);
    LeftBehindStartsPast(r, h, e, g, d);
    var below := r.v[r.c.level + 1];
    assert LevelOk(r.c.level + 1, below);
    hide Ok, LeftBehind, After, Obsolete;
    LessIsTotal(b.smallest, g.smallest);
    assert !Less(g.smallest, b.smallest);
    if b.smallest == g.smallest {
      SameStart(below, b, g);
    } else {
      PositionsInOrder(below, b, g);
      FileBounds(g, d);
    }
  }

  lemma NoneStartsPastLast(files: seq<File>, b: File)
    requires LevelSorted(files) && b in files
    ensures !StartsPast(b, files[|files| - 1].largest)
  {
    LastIsLargest(files, b);
    var i: nat :| i < |files| && files[i] == b;
    assert !Less(files[i].largest, files[i].smallest);
  }

  lemma BoundaryStays(r: Run, b: File) returns (first: Entry)
    requires Ok(r) && r.c.inputs1 != [] && IsBoundary(r.v[r.c.level + 1], LastInput(r.c), b)
    ensures b.Valid() && first == b.entries[0] && first.key == b.smallest && first in After(r)
  {
    hide Newer, KeysDistinct, Compacted, MergeOf, VersionEntries, Kept, LeavesNewer, Sorted, LevelSorted;
    var level := r.c.level + 1;
    assert LevelOk(level, r.v[level]);
    hide Inv;
    first := b.entries[0];
    OverlappingSorted(r.v[level], Some(r.c.smallest.user), Some(r.c.largest.user));
    if b in r.c.inputs1 {
      NoneStartsPastLast(r.c.inputs1, b);
    }
    assert LeftBehind(r, level, b);
    FilesAfter(r, level, b);
    assert |r.after| == NUM_LEVELS by {
      SameLength(r);
    }
    HasHome(r.after, level, b, first);
  }

  lemma SameLength(r: Run)
    requires Ok(r)
    ensures |r.v| == |r.after| == NUM_LEVELS && r.c.level + 1 < NUM_LEVELS
  {
  }

  // The first entry of the boundary file is a value, if a surviving value answers in place of the deletion.
  lemma BoundaryAnswers(r: Run, u: UserKey, s: Sequence, e: Entry, d: Entry, b: File)
    requires Ok(r) && r.oldest <= s && e in r.input && Sees(e, u, s) && Obsolete(r.v, r.c.level, e, r.oldest)
    requires Newest(After(r), u, s, d) && Less(e.key, d.key)
    requires r.c.inputs1 != [] && IsBoundary(r.v[r.c.level + 1], LastInput(r.c), b)
    requires b.smallest.user == u && Less(e.key, b.smallest)
    ensures b.smallest == d.key
  {
    hide Ok, BaseLevel, After, LeftBehind, IsBoundary;
    var first := BoundaryStays(r, b);
    BoundaryLeads(r, e, b, d);
  }

  // Input entries of that user key precede the boundary file.
  lemma InputsBeforeBoundary(r: Run, e: Entry, b: File)
    requires Ok(r) && e in r.input && r.c.inputs1 != []
    requires IsBoundary(r.v[r.c.level + 1], LastInput(r.c), b) && e.key.user == LastInput(r.c).user
    ensures Less(e.key, b.smallest)
  {
    hide Ok, LevelSorted, IsSmallest, IsLargest, FilesValid;
    var _, fe := InputHome(r, e);
    BelowFacts(r);
    IsValid(r, r.c.level + 1, b);
    if fe in r.c.inputs1 {
      IsValid(r, r.c.level + 1, fe);
      EndsAtLast(r.c.inputs1, fe, e, b);
    } else {
      IsValid(r, r.c.level, fe);
      SharersOverlap(r.c, fe, e, b, b.entries[0]);
      NoneStartsPastLast(r.c.inputs1, b);
    }
  }

  lemma IsValid(r: Run, l: nat, f: File)
    requires Ok(r) && l < NUM_LEVELS && f in r.v[l]
    ensures f.Valid()
  {
    assert LevelOk(l, r.v[l]);
  }

  lemma BelowFacts(r: Run)
    requires Ok(r)
    ensures |r.v| == NUM_LEVELS && r.c.level + 1 < NUM_LEVELS
    ensures LevelSorted(r.v[r.c.level + 1]) && LevelSorted(r.c.inputs1)
    ensures r.c.inputs1 == Overlapping(r.v[r.c.level + 1], Some(r.c.smallest.user), Some(r.c.largest.user))
    ensures IsSmallest(r.c.inputs0, r.c.smallest) && IsLargest(r.c.inputs0, r.c.largest)
    ensures forall f :: f in r.c.inputs0 ==> f in r.v[r.c.level]
  {
    hide LevelSorted, IsSmallest, IsLargest, Newer, LeavesNewer;
    var below := r.v[r.c.level + 1];
    assert LevelOk(r.c.level + 1, below);
    OverlappingSorted(below, Some(r.c.smallest.user), Some(r.c.largest.user));
  }

  lemma EndsAtLast(files: seq<File>, f: File, e: Entry, b: File)
    requires LevelSorted(files) && f in files && f.Valid() && e in f.entries
    requires StartsPast(b, files[|files| - 1].largest)
    ensures Less(e.key, b.smallest)
  {
    FileBounds(f, e);
    LastIsLargest(files, f);
  }

  // If reading `u` at `s` turns from a deletion into a value, the compaction uncovers.
  lemma ChangedReadUncovers(r: Run, u: UserKey, s: Sequence, e: Entry, d: Entry)
    requires Ok(r) && r.oldest <= s && Newest(Before(r), u, s, e)
    requires e in r.input && Obsolete(r.v, r.c.level, e, r.oldest)
    requires Newest(After(r), u, s, d) && d != e && d.key.kind.Value?
    ensures Uncovers(r)
  {
    AfterIsSubset(r);
    SameLength(r);
    hide Ok, After, BaseLevel, LeftBehind, Uncovers, IsBoundary, Obsolete;
    assert Less(e.key, d.key);
    var h, g := OlderSurvivor(r, e, d);
    LeftBehindStartsPast(r, h, e, g, d);
    var k := LastInput(r.c);
    var b := BoundaryExists(r.v[r.c.level + 1], k, g);
    InputsBeforeBoundary(r, e, b);
    BoundaryAnswers(r, u, s, e, d, b);
    NewestSooner(r, u, s, e);
    MakeUncovers(r, b, e);
  }

  lemma NewestSooner(r: Run, u: UserKey, s: Sequence, e: Entry)
    requires Newest(Before(r), u, s, e) && e.key.seqno <= r.oldest <= s
    ensures Newest(Before(r), u, r.oldest, e)
  {
  }

  lemma MakeUncovers(r: Run, b: File, e: Entry)
    requires Ok(r) && r.c.inputs1 != []
    requires IsBoundary(r.v[r.c.level + 1], LastInput(r.c), b) && b.smallest.kind.Value?
    requires e in r.input && Newest(Before(r), LastInput(r.c).user, r.oldest, e) && Obsolete(r.v, r.c.level, e, r.oldest)
    ensures Uncovers(r)
  {
    SameLength(r);
    hide Ok, IsBoundary, Newest, Obsolete;
  }

  // If it uncovers, the read of that user key at the oldest snapshot changes.
  lemma UncoversChangesRead(r: Run) returns (u: UserKey)
    requires Ok(r) && Uncovers(r)
    ensures r.c.inputs1 != [] && u == LastInput(r.c).user
    ensures Read(Before(r), u, r.oldest) == None
    ensures Read(After(r), u, r.oldest) != None
  {
    SameLength(r);
    hide Ok, After, Before, BaseLevel, LeftBehind;
    u := LastInput(r.c).user;
    var b :| IsBoundary(r.v[r.c.level + 1], LastInput(r.c), b) && b.smallest.kind.Value?;
    var e :| e in r.input && Newest(Before(r), u, r.oldest, e) && Obsolete(r.v, r.c.level, e, r.oldest);
    ReadFromNewest(Before(r), u, r.oldest, e);
    var first := BoundaryStays(r, b);
    InputsBeforeBoundary(r, e, b);
    FirstAnswers(r, u, e, b, first);
    ReadFromNewest(After(r), u, r.oldest, first);
  }

  lemma FirstAnswers(r: Run, u: UserKey, e: Entry, b: File, first: Entry)
    requires Ok(r) && e in r.input && Newest(Before(r), u, r.oldest, e) && Obsolete(r.v, r.c.level, e, r.oldest)
    requires r.c.inputs1 != [] && IsBoundary(r.v[r.c.level + 1], LastInput(r.c), b) && LastInput(r.c).user == u
    requires first in After(r) && first.key == b.smallest && Less(e.key, b.smallest) && b.smallest.user == u
    requires b.Valid() && first == b.entries[0]
    ensures Newest(After(r), u, r.oldest, first)
  {
    hide Ok, After, Before, Obsolete, LeftBehind, IsBoundary;
    AfterIsSubset(r);
    DroppedIsGone(r, e);
    forall d | d in After(r) && Sees(d, u, r.oldest) && d != first ensures Less(first.key, d.key) {
      assert d in Before(r);
      BoundaryLeads(r, e, b, d);
    }
  }

  lemma DroppedIsGone(r: Run, e: Entry)
    requires Ok(r) && e in r.input && Obsolete(r.v, r.c.level, e, r.oldest)
    ensures e !in After(r)
  {
    hide Ok, LevelEntries, BaseLevel;
    WrittenWasKept(r, e);
    UnwrittenIsGone(r, e);
  }

  // An input that is not written is in none of the sources after the compaction.
  lemma UnwrittenIsGone(r: Run, e: Entry)
    requires Ok(r) && e in r.input && e !in LevelEntries(r.outputs)
    ensures e !in After(r)
  {
    hide KeysDistinct, MergeOf, VersionEntries, LevelOk, Kept, BaseLevel;
    var le, fe := InputHome(r, e);
    assert e !in r.upper;
    hide Newer;
    if e in VersionEntries(r.after) {
      var l, f := HomeOf(r.after, e);
      FilesAfter(r, l, f);
      if LeftBehind(r, l, f) {
        HomeIsUnique(r.v, l, f, le, fe, e, e);
      }
    }
  }

  // Once the sequence numbers are used up, a compaction without snapshots loses all its inputs, and nothing else.
  lemma CompactionAtMaximum(r: Run)
    requires Ok(r) && r.oldest == MAX_SEQUENCE
    ensures After(r) == Before(r) - EntrySet(r.input)
  {
    NothingKeptAtMaximum(r.v, r.c.level, r.input, |r.input|);
    FlattenMembers(r.outputs);
    assert LevelEntries(r.outputs) == {};
    hide Ok, Kept, LevelEntries, VersionEntries;
    AfterIsSubset(r);
    forall e | e in r.input ensures e !in After(r) {
      UnwrittenIsGone(r, e);
    }
    forall e | e in Before(r) && e !in r.input ensures e in After(r) {
      if e !in r.upper {
        var i := DroppedOrStays(r, e);
      }
    }
  }

  // Reads agree at every snapshot that may still be used, for every user key, exactly when the compaction does
  // not uncover.
  lemma CompactionKeepsReads(r: Run)
    requires Ok(r) && r.oldest < MAX_SEQUENCE
    ensures (forall u, s :: r.oldest <= s ==> Read(After(r), u, s) == Read(Before(r), u, s)) <==> !Uncovers(r)
  {
    if Uncovers(r) {
      var u := UncoversChangesRead(r);
      assert Read(After(r), u, r.oldest) != Read(Before(r), u, r.oldest);
    } else {
      forall u, s: Sequence | r.oldest <= s ensures Read(After(r), u, s) == Read(Before(r), u, s) {
        ReadAgrees(r, u, s);
      }
    }
  }

  lemma ReadAgrees(r: Run, u: UserKey, s: Sequence)
    requires Ok(r) && !Uncovers(r) && r.oldest <= s && r.oldest < MAX_SEQUENCE
    ensures Read(After(r), u, s) == Read(Before(r), u, s)
  {
    AfterIsSubset(r);
    AllKeysDistinct(r.v, r.upper);
    assert KeysDistinct(Before(r));
    hide Ok, After, Before, LeftBehind, BaseLevel, Uncovers;
    var top := NewestExists(Before(r), u, s);
    if top.None? {
      assert NoneSeen(After(r), u, s);
    } else {
      var e := top.value;
      ReadFromNewest(Before(r), u, s, e);
      OnlyDeletionsGo(r, u, s, e);
      if e in After(r) {
        assert Newest(After(r), u, s, e);
        ReadFromNewest(After(r), u, s, e);
      } else if d :| Newest(After(r), u, s, d) && d.key.kind.Value? {
        ChangedReadUncovers(r, u, s, e, d);
      }
    }
  }

  // In particular a level below whose next file starts with another user key is always safe.
  lemma SafeWithoutBoundary(r: Run, u: UserKey, s: Sequence)
    requires Ok(r) && r.oldest <= s && r.oldest < MAX_SEQUENCE
    requires r.c.inputs1 == [] || NoBoundary(r.v[r.c.level + 1], LastInput(r.c))
    ensures Read(After(r), u, s) == Read(Before(r), u, s)
  {
    hide Ok, Before, After, Newest, Obsolete, Read;
    NoBoundaryNeverUncovers(r);
    ReadAgrees(r, u, s);
  }

  lemma NoBoundaryNeverUncovers(r: Run)
    requires Ok(r) && (r.c.inputs1 == [] || NoBoundary(r.v[r.c.level + 1], LastInput(r.c)))
    ensures !Uncovers(r)
  {
    hide Ok, Before, Newest, Obsolete;
  }
}
