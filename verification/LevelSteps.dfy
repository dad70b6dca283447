/** Flushes, trivial moves and compactions keep the level invariant. */
module LevelSteps {
  import opened DbFormat
  import opened Versions
  import opened Inputs
  import opened Compactions
  import opened CompactionMeaning

  // ---- Sorted, disjoint file lists ------------------------------------------------------------------------

  ghost predicate Apart(f: File, g: File) {
    Less(f.largest, g.smallest) || Less(g.largest, f.smallest)
  }

  ghost predicate AllApart(files: seq<File>) {
    forall f, g :: f in files && g in files && f != g ==> Apart(f, g)
  }

  lemma SortedIsApart(files: seq<File>)
    requires LevelSorted(files)
    ensures AllApart(files) && Ranged(files)
  {
    forall f, g | f in files && g in files && f != g ensures Apart(f, g) {
      var i: nat :| i < |files| && files[i] == f;
      var j: nat :| j < |files| && files[j] == g;
    }
  }

  lemma ApartIsSorted(files: seq<File>)
    requires AllApart(files) && Ranged(files) && SortedFiles(files)
    ensures LevelSorted(files)
  {
    forall i, j | 0 <= i < j < |files| ensures Less(files[i].largest, files[j].smallest) {
      assert files[i] in files && files[j] in files && BySmallest(files[i], files[j]);
      assert Apart(files[i], files[j]);
    }
  }

  // ---- One level replaced ------------------------------------------------------------------------------------

  // What the outputs put into the level below must satisfy.
  ghost predicate GoodOutputs(v: Version, c: Choice, outputs: seq<File>) {
    && FilesValid(outputs) && LevelSorted(outputs) && NumbersDistinct(outputs)
    && LevelEntries(outputs) <= LevelEntries(c.inputs0) + LevelEntries(c.inputs1)
    && (forall l, f, o :: 0 <= l < |v| && f in v[l] && o in outputs && f.number == o.number
          ==> f in c.inputs0 || f in c.inputs1)
  }

  lemma UpperLevelOk(v: Version, c: Choice, outputs: seq<File>, after: Version)
    requires Inv(v) && Compacted(v, c, outputs, after)
    ensures LevelOk(c.level, after[c.level])
  {
    hide Newer;
    var files, left := v[c.level], after[c.level];
    assert LevelOk(c.level, files);
    assert forall f :: f in left ==> f in files;
    if c.level > 0 {
      SortedIsApart(files);
      ApartIsSorted(left);
    }
  }

  ghost predicate IsInput(c: Choice, f: File) {
    f in c.inputs0 || f in c.inputs1
  }

  ghost predicate MergedAfter(c: Choice, g: File) {
    forall f, e :: IsInput(c, f) && e in f.entries ==> Less(g.largest, e.key)
  }

  ghost predicate MergedBefore(c: Choice, g: File) {
    forall f, e :: IsInput(c, f) && e in f.entries ==> Less(e.key, g.smallest)
  }

  // Every entry that is merged lies on the same side of a file left behind in the level below.
  lemma MergedOnOneSide(v: Version, c: Choice, g: File)
    requires Inv(v) && GoodChoice(v, c) && g in v[c.level + 1] && g !in c.inputs1
    ensures MergedAfter(c, g) || MergedBefore(c, g)
  {
    hide Newer, LeavesNewer, LevelEntries;
    assert LevelOk(c.level, v[c.level]) && LevelOk(c.level + 1, v[c.level + 1]);
    hide Inv, LevelOk;
    if g.largest.user < c.smallest.user {
      forall f, e | IsInput(c, f) && e in f.entries ensures Less(g.largest, e.key) {
        OneSide(v, c, g, f, e);
      }
    } else {
      forall f, e | IsInput(c, f) && e in f.entries ensures Less(e.key, g.smallest) {
        OneSide(v, c, g, f, e);
      }
    }
  }

  lemma OneSide(v: Version, c: Choice, g: File, f: File, e: Entry)
    requires |v| == NUM_LEVELS && c.level + 1 < NUM_LEVELS && FilesValid(v[c.level]) && FilesValid(v[c.level + 1])
    requires LevelSorted(v[c.level + 1]) && GoodChoice(v, c)
    requires g in v[c.level + 1] && g !in c.inputs1 && IsInput(c, f) && e in f.entries
    ensures if g.largest.user < c.smallest.user then Less(g.largest, e.key) else Less(e.key, g.smallest)
  {
    hide Sorted, LeavesNewer;
    FileBounds(f, e);
    FileRange(g);
    if f in c.inputs0 {
      assert !Less(f.smallest, c.smallest) && !Less(c.largest, f.largest);
    } else {
      LessIsTotal(f.smallest, g.smallest);
      if Less(f.smallest, g.smallest) {
        PositionsInOrder(v[c.level + 1], f, g);
      } else if Less(g.smallest, f.smallest) {
        PositionsInOrder(v[c.level + 1], g, f);
      } else {
        SameStart(v[c.level + 1], f, g);
      }
    }
  }

  lemma OutputHome(v: Version, c: Choice, outputs: seq<File>, o: File, e: Entry) returns (f: File)
    requires GoodOutputs(v, c, outputs) && o in outputs && e in o.entries
    ensures IsInput(c, f) && e in f.entries
  {
    assert e in LevelEntries(outputs);
    if e in LevelEntries(c.inputs0) {
      f :| f in c.inputs0 && e in f.entries;
    } else {
      f :| f in c.inputs1 && e in f.entries;
    }
  }

  lemma OutputApart(v: Version, c: Choice, outputs: seq<File>, o: File, g: File)
    requires GoodOutputs(v, c, outputs) && o in outputs
    requires MergedAfter(c, g) || MergedBefore(c, g)
    ensures Apart(o, g)
  {
    assert o.Valid();
    var first, last := o.entries[0], o.entries[|o.entries| - 1];
    var f := OutputHome(v, c, outputs, o, first);
    var f' := OutputHome(v, c, outputs, o, last);
    hide GoodOutputs, IsInput;
  }

  lemma LowerApart(v: Version, c: Choice, outputs: seq<File>, r: seq<File>)
    requires |v| == NUM_LEVELS && c.level + 1 < NUM_LEVELS && GoodOutputs(v, c, outputs)
    requires AllApart(v[c.level + 1]) && AllApart(outputs)
    requires forall f :: f in r <==> (f in v[c.level + 1] && f !in c.inputs1) || f in outputs
    requires forall g :: g in v[c.level + 1] && g !in c.inputs1 ==> MergedAfter(c, g) || MergedBefore(c, g)
    ensures AllApart(r)
  {
    hide GoodOutputs, MergedAfter, MergedBefore;
    forall f, g | f in r && g in r && f != g ensures Apart(f, g) {
      if f in outputs {
        if g !in outputs {
          OutputApart(v, c, outputs, f, g);
        }
      } else if g in outputs {
        OutputApart(v, c, outputs, g, f);
      }
    }
  }

  lemma LowerLevelOk(v: Version, c: Choice, outputs: seq<File>, after: Version)
    requires Inv(v) && GoodChoice(v, c) && GoodOutputs(v, c, outputs) && Compacted(v, c, outputs, after)
    ensures LevelOk(c.level + 1, after[c.level + 1])
  {
    NumbersStayDistinct(v, c, outputs, after);
    LowerFilesValid(v, c, outputs, after);
    LowerIsApart(v, c, outputs, after);
    hide Inv, GoodLevels, NumbersDistinct, GoodOutputs, AllApart, Ranged, FilesValid, LevelSorted;
    ApartIsSorted(after[c.level + 1]);
  }

  lemma LowerFilesValid(v: Version, c: Choice, outputs: seq<File>, after: Version)
    requires Inv(v) && GoodOutputs(v, c, outputs) && Compacted(v, c, outputs, after)
    ensures FilesValid(after[c.level + 1]) && Ranged(after[c.level + 1])
  {
    assert LevelOk(c.level + 1, v[c.level + 1]);
    hide Inv, LevelSorted, NumbersDistinct, LevelEntries, SortedFiles;
    ValidRanged(after[c.level + 1]);
  }

  lemma LowerIsApart(v: Version, c: Choice, outputs: seq<File>, after: Version)
    requires Inv(v) && GoodChoice(v, c) && GoodOutputs(v, c, outputs) && Compacted(v, c, outputs, after)
    ensures AllApart(after[c.level + 1])
  {
    var files, r := v[c.level + 1], after[c.level + 1];
    assert LevelSorted(files) by {
      assert LevelOk(c.level + 1, files);
    }
    assert LevelSorted(outputs);
    assert forall f :: f in r <==> (f in files && f !in c.inputs1) || f in outputs by {
      hide Inv, GoodChoice, GoodOutputs;
    }
    hide Inv, GoodChoice, GoodOutputs, MergedAfter, MergedBefore, AllApart, LevelSorted, Compacted, Ranged;
    SortedIsApart(files);
    SortedIsApart(outputs);
    forall g | g in files && g !in c.inputs1 ensures MergedAfter(c, g) || MergedBefore(c, g) {
      MergedOnOneSide(v, c, g);
    }
    LowerApart(v, c, outputs, r);
  }

  lemma NumbersStayDistinct(v: Version, c: Choice, outputs: seq<File>, after: Version)
    requires Inv(v) && GoodChoice(v, c) && GoodOutputs(v, c, outputs) && Compacted(v, c, outputs, after)
    ensures NumbersDistinct(after[c.level + 1])
  {
    hide LeavesNewer, Newer, IsSmallest, IsLargest;
    assert LevelOk(c.level + 1, v[c.level + 1]) && NumbersDisjoint(v[c.level], v[c.level + 1]);
    assert forall f :: f in c.inputs0 ==> f in v[c.level];
    hide Inv, GoodChoice, LevelSorted, SortedFiles, FilesValid, LevelEntries;
  }

  // ---- Across levels ------------------------------------------------------------------------------------------

  lemma NewerSubsets(xs: set<Entry>, ys: set<Entry>, xs': set<Entry>, ys': set<Entry>)
    requires Newer(xs, ys) && xs' <= xs && ys' <= ys
    ensures Newer(xs', ys')
  {
  }

  lemma NewerUnion(xs: set<Entry>, ys: set<Entry>, zs: set<Entry>)
    ensures Newer(xs, zs) && Newer(ys, zs) ==> Newer(xs + ys, zs)
    ensures Newer(zs, xs) && Newer(zs, ys) ==> Newer(zs, xs + ys)
  {
  }

  lemma UpperEntries(v: Version, c: Choice, outputs: seq<File>, after: Version)
    requires GoodChoice(v, c) && Compacted(v, c, outputs, after)
    ensures LevelEntries(after[c.level]) <= LevelEntries(v[c.level])
  {
    hide SortedFiles, GoodLevels;
    assert forall f :: f in after[c.level] ==> f in v[c.level];
  }

  lemma LowerEntries(v: Version, c: Choice, outputs: seq<File>, after: Version)
    requires GoodChoice(v, c) && Compacted(v, c, outputs, after) && GoodOutputs(v, c, outputs)
    ensures LevelEntries(after[c.level + 1]) <= LevelEntries(v[c.level + 1]) + LevelEntries(c.inputs0)
    ensures LevelEntries(c.inputs0) <= LevelEntries(v[c.level])
  {
    hide SortedFiles, LeavesNewer, FilesValid, LevelSorted;
    forall e | e in LevelEntries(after[c.level + 1])
      ensures e in LevelEntries(v[c.level + 1]) || e in LevelEntries(c.inputs0)
    {
      var f :| f in after[c.level + 1] && e in f.entries;
      if f in outputs {
        assert e in LevelEntries(outputs);
      }
    }
  }

  // What stays in `level` is newer than what was moved down from it.
  lemma LeftIsNewer(v: Version, c: Choice, outputs: seq<File>, after: Version)
    requires GoodChoice(v, c) && Compacted(v, c, outputs, after)
    ensures Newer(LevelEntries(after[c.level]), LevelEntries(c.inputs0))
  {
    hide SortedFiles;
    forall d, e | d in LevelEntries(after[c.level]) && e in LevelEntries(c.inputs0) && d.key.user == e.key.user
      ensures Less(d.key, e.key)
    {
      var g :| g in after[c.level] && d in g.entries;
      var f :| f in c.inputs0 && e in f.entries;
      assert g in v[c.level] && g !in c.inputs0;
      assert Newer(EntrySet(g.entries), EntrySet(f.entries));
      assert d in EntrySet(g.entries) && e in EntrySet(f.entries);
    }
  }

  lemma LevelsStayNewer(v: Version, c: Choice, outputs: seq<File>, after: Version, l: nat, m: nat)
    requires Inv(v) && GoodChoice(v, c) && GoodOutputs(v, c, outputs) && Compacted(v, c, outputs, after)
    requires l < m < NUM_LEVELS
    ensures Newer(LevelEntries(after[l]), LevelEntries(after[m]))
  {
    UpperEntries(v, c, outputs, after);
    LowerEntries(v, c, outputs, after);
    LeftIsNewer(v, c, outputs, after);
    var a, b := c.level, c.level + 1;
    hide LevelOk, LevelEntries, GoodLevels, GoodOutputs, Newer, NumbersDisjoint, Replaces;
    assert Newer(LevelEntries(v[l]), LevelEntries(v[m]));
    assert a < m ==> Newer(LevelEntries(v[a]), LevelEntries(v[m]));
    assert l < a ==> Newer(LevelEntries(v[l]), LevelEntries(v[a]));
    assert l != a && l != b ==> after[l] == v[l];
    assert m != a && m != b ==> after[m] == v[m];
    hide *;
    var taken := LevelEntries(c.inputs0);
    if l == a && m == b {
      NewerSubsets(LevelEntries(v[a]), LevelEntries(v[b]), LevelEntries(after[a]), LevelEntries(v[b]));
      NewerUnion(LevelEntries(v[b]), taken, LevelEntries(after[a]));
      NewerSubsets(LevelEntries(after[a]), LevelEntries(v[b]) + taken, LevelEntries(after[a]), LevelEntries(after[b]));
    } else if l == b {
      NewerSubsets(LevelEntries(v[a]), LevelEntries(v[m]), taken, LevelEntries(v[m]));
      NewerUnion(LevelEntries(v[b]), taken, LevelEntries(v[m]));
      NewerSubsets(LevelEntries(v[b]) + taken, LevelEntries(v[m]), LevelEntries(after[b]), LevelEntries(after[m]));
    } else if m == b {
      NewerSubsets(LevelEntries(v[l]), LevelEntries(v[a]), LevelEntries(v[l]), taken);
      NewerUnion(LevelEntries(v[b]), taken, LevelEntries(v[l]));
      NewerSubsets(LevelEntries(v[l]), LevelEntries(v[b]) + taken, LevelEntries(after[l]), LevelEntries(after[b]));
    } else {
      NewerSubsets(LevelEntries(v[l]), LevelEntries(v[m]), LevelEntries(after[l]), LevelEntries(after[m]));
    }
  }

  lemma NumbersUnique(v: Version, l: nat, f: File, m: nat, g: File)
    requires Inv(v) && l < NUM_LEVELS && m < NUM_LEVELS && f in v[l] && g in v[m]
    ensures f.number == g.number ==> l == m && f == g
  {
    if l < m {
      assert NumbersDisjoint(v[l], v[m]);
    } else if m < l {
      assert NumbersDisjoint(v[m], v[l]);
    } else {
      assert LevelOk(l, v[l]);
    }
  }

  // An output's number is used by no file outside the inputs.
  lemma OutputNumber(v: Version, c: Choice, outputs: seq<File>, o: File, l: nat, g: File)
    requires Inv(v) && GoodChoice(v, c) && GoodOutputs(v, c, outputs) && o in outputs && l < NUM_LEVELS && g in v[l]
    requires l != c.level + 1 && !(l == c.level && g in c.inputs0)
    ensures o.number != g.number
  {
    hide Inv, LeavesNewer, LevelSorted, FilesValid, LevelEntries, IsSmallest, IsLargest;
    if g in c.inputs0 {
      NumbersUnique(v, l, g, c.level, g);
    } else if g in c.inputs1 {
      NumbersUnique(v, l, g, c.level + 1, g);
    }
  }

  lemma FileAfter(v: Version, c: Choice, outputs: seq<File>, after: Version, l: nat, f: File)
    requires Compacted(v, c, outputs, after) && l < NUM_LEVELS && f in after[l]
    ensures (f in v[l] && !(l == c.level && f in c.inputs0)) || (l == c.level + 1 && f in outputs)
  {
  }

  lemma NumbersStayDisjoint(v: Version, c: Choice, outputs: seq<File>, after: Version, l: nat, m: nat)
    requires Inv(v) && GoodChoice(v, c) && GoodOutputs(v, c, outputs) && Compacted(v, c, outputs, after)
    requires l < m < NUM_LEVELS
    ensures NumbersDisjoint(after[l], after[m])
  {
    assert NumbersDisjoint(v[l], v[m]);
    hide Inv, GoodChoice, GoodOutputs;
    forall f, g | f in after[l] && g in after[m] ensures f.number != g.number {
      FileAfter(v, c, outputs, after, l, f);
      FileAfter(v, c, outputs, after, m, g);
      hide Compacted;
      if f !in v[l] || (l == c.level + 1 && f in outputs) {
        OutputNumber(v, c, outputs, f, m, g);
      } else if g !in v[m] || (m == c.level + 1 && g in outputs) {
        OutputNumber(v, c, outputs, g, l, f);
      }
    }
  }

  // The level invariant survives every replacement of a good choice by good outputs.
  lemma ReplacementKeepsInv(v: Version, c: Choice, outputs: seq<File>, after: Version)
    requires Inv(v) && GoodChoice(v, c) && GoodOutputs(v, c, outputs) && Compacted(v, c, outputs, after)
    ensures Inv(after)
  {
    hide LevelOk, LevelEntries, GoodLevels, GoodOutputs, Newer, NumbersDisjoint, Replaces;
    forall l | 0 <= l < NUM_LEVELS ensures LevelOk(l, after[l]) {
      if l == c.level {
        UpperLevelOk(v, c, outputs, after);
      } else if l == c.level + 1 {
        LowerLevelOk(v, c, outputs, after);
      }
    }
    forall l, m | 0 <= l < m < NUM_LEVELS
      ensures Newer(LevelEntries(after[l]), LevelEntries(after[m])) && NumbersDisjoint(after[l], after[m])
    {
      LevelsStayNewer(v, c, outputs, after, l, m);
      NumbersStayDisjoint(v, c, outputs, after, l, m);
    }
  }
}
