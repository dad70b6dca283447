/** Installing a version edit: from the edit of a flush, a trivial move or a compaction to the next version. */
module VersionSet {
  import opened DbFormat
  import opened Versions
  import opened Inputs
  import opened Builder
  import opened CompactionMeaning

  ghost predicate FreshIn(v: Version, e: VersionEdit) {
    forall l :: 0 <= l < |v| ==> Identify(FileSet(v[l]) + AddedIn(e, l)) && Numbers(AddedIn(e, l)) !! Numbers(FileSet(v[l]))
  }

  method LogAndApply(v: Version, e: VersionEdit) returns (r: Version)
    requires |v| == NUM_LEVELS && EditOk(e) && FreshIn(v, e)
    requires forall l :: 0 <= l < NUM_LEVELS ==> SortedFiles(v[l])
    ensures |r| == NUM_LEVELS
    ensures forall l :: 0 <= l < NUM_LEVELS ==> IsListing(r[l], EditLevel(FileSet(v[l]), e, l))
  {
    var b := new VersionBuilder(v);
    b.Apply(e);
    forall l | 0 <= l < NUM_LEVELS
      ensures SortedFiles(b.levels[l].added) && Unequal(v[l], b.levels[l].added)
      ensures Live(FileSet(v[l]), b.levels[l]) == EditLevel(FileSet(v[l]), e, l)
    {
      OneEdit(v, e, l);
    }
    r := b.SaveTo();
  }

  // Every level of a version lists what is left of the files of `base` after the edits.
  ghost predicate Edited(base: Version, es: seq<VersionEdit>, v: Version) {
    && |base| == |v| == NUM_LEVELS
    && forall l :: 0 <= l < NUM_LEVELS ==> IsListing(v[l], EditAll(FileSet(base[l]), es, l))
  }

  ghost predicate CleanHistory(base: Version, es: seq<VersionEdit>) {
    && |base| == NUM_LEVELS && (forall e :: e in es ==> EditOk(e))
    && forall l :: 0 <= l < NUM_LEVELS ==> SortedFiles(base[l]) && NeverReadded(FileSet(base[l]), es, l)
  }

  // One version for each edit.
  method ApplyStepwise(base: Version, es: seq<VersionEdit>) returns (v: Version)
    requires CleanHistory(base, es)
    ensures Edited(base, es, v)
  {
    v := base;
    for k := 0 to |es|
      invariant Edited(base, es[..k], v)
    {
      assert es[k] in es && EditOk(es[k]);
      EditIsFresh(base, es, k, v);
      ghost var before := v;
      hide CleanHistory, NeverReadded, FreshIn;
      v := LogAndApply(v, es[k]);
      OneMoreEdit(base, es, k, before, v);
    }
    assert es[..|es|] == es;
  }

  lemma EditIsFresh(base: Version, es: seq<VersionEdit>, k: nat, v: Version)
    requires CleanHistory(base, es) && k < |es| && Edited(base, es[..k], v)
    ensures FreshIn(v, es[k])
  {
    hide NeverReadded;
    forall l | 0 <= l < NUM_LEVELS
      ensures Identify(FileSet(v[l]) + AddedIn(es[k], l)) && Numbers(AddedIn(es[k], l)) !! Numbers(FileSet(v[l]))
    {
      NextIsFresh(FileSet(base[l]), es, l, k);
    }
  }

  lemma OneMoreEdit(base: Version, es: seq<VersionEdit>, k: nat, v: Version, r: Version)
    requires k < |es| && Edited(base, es[..k], v) && |r| == NUM_LEVELS
    requires forall l :: 0 <= l < NUM_LEVELS ==> IsListing(r[l], EditLevel(FileSet(v[l]), es[k], l))
    ensures Edited(base, es[..k + 1], r)
  {
    assert es[..k + 1][..k] == es[..k];
    hide SortedFiles, EditLevel;
  }

  // One builder for all edits and one version at the end, as when the manifest is read back.
  method Recover(base: Version, es: seq<VersionEdit>) returns (v: Version)
    requires CleanHistory(base, es)
    ensures Edited(base, es, v)
  {
    var b := new VersionBuilder(base);
    hide CleanHistory;
    for k := 0 to |es|
      invariant b.levels == GatherAll(es[..k])
    {
      HistoryEdit(base, es, k);
      assert es[..k + 1][..k] == es[..k];
      b.Apply(es[k]);
    }
    assert es[..|es|] == es;
    forall l | 0 <= l < NUM_LEVELS
      ensures SortedFiles(base[l]) && SortedFiles(b.levels[l].added) && Unequal(base[l], b.levels[l].added)
      ensures Live(FileSet(base[l]), b.levels[l]) == EditAll(FileSet(base[l]), es, l)
    {
      LevelGathered(base, es, l);
    }
    v := b.SaveTo();
  }

  lemma HistoryEdit(base: Version, es: seq<VersionEdit>, k: nat)
    requires CleanHistory(base, es) && k < |es|
    ensures EditOk(es[k]) && forall e :: e in es ==> EditOk(e)
  {
    assert es[k] in es;
  }

  lemma LevelGathered(base: Version, es: seq<VersionEdit>, l: nat)
    requires CleanHistory(base, es) && l < NUM_LEVELS
    ensures var ls := GatherAll(es)[l];
      && SortedFiles(base[l]) && SortedFiles(ls.added) && Unequal(base[l], ls.added)
      && Live(FileSet(base[l]), ls) == EditAll(FileSet(base[l]), es, l)
  {
    hide NeverReadded;
    GatherAllLive(FileSet(base[l]), es, l);
    AddedIsNew(FileSet(base[l]), es, l);
    FreshIsUnequal(base[l], GatherAll(es)[l]);
  }

  lemma EditedUnique(base: Version, es: seq<VersionEdit>, a: Version, b: Version)
    requires Edited(base, es, a) && Edited(base, es, b)
    ensures a == b
  {
    forall l | 0 <= l < NUM_LEVELS ensures a[l] == b[l] {
      ListingUnique(a[l], b[l]);
    }
  }

  // Reading the manifest back gives the very version that the edits led to one by one.
  method RecoverIsHistory(base: Version, es: seq<VersionEdit>) returns (recovered: Version, installed: Version)
    requires CleanHistory(base, es)
    ensures recovered == installed && Edited(base, es, recovered)
  {
    recovered := Recover(base, es);
    installed := ApplyStepwise(base, es);
    EditedUnique(base, es, recovered, installed);
  }

  lemma OneEdit(v: Version, e: VersionEdit, l: nat)
    requires |v| == NUM_LEVELS && EditOk(e) && l < NUM_LEVELS && FreshIn(v, e)
    ensures var ls := Gather(Nothing(), e)[l];
      && SortedFiles(ls.added) && Unequal(v[l], ls.added)
      && Live(FileSet(v[l]), ls) == EditLevel(FileSet(v[l]), e, l)
  {
    assert Nothing()[l] == LevelState({}, []);
    assert FileSet(v[l]) + FileSet([]) == FileSet(v[l]);
    GatherLive(FileSet(v[l]), Nothing(), e, l);
    var ls := Gather(Nothing(), e)[l];
    assert FileSet(ls.added) == AddedIn(e, l);
    FreshIsUnequal(v[l], ls);
    assert Live(FileSet(v[l]), Nothing()[l]) == FileSet(v[l]);
  }

  function Tagged<T>(l: nat, xs: seq<T>): (r: seq<(nat, T)>)
    ensures |r| == |xs| && forall i :: 0 <= i < |xs| ==> r[i] == (l, xs[i])
  {
    seq(|xs|, i requires 0 <= i < |xs| => (l, xs[i]))
  }

  lemma AtTagged<T>(l: nat, xs: seq<T>, m: nat)
    ensures At(Tagged(l, xs), m) == if l == m then set x | x in xs else {}
  {
    var t := Tagged(l, xs);
    forall x ensures x in At(t, m) <==> l == m && x in xs {
      if l == m && x in xs {
        var i: nat :| i < |xs| && xs[i] == x;
        assert t[i] in t;
      }
    }
  }

  lemma AtConcat<T>(xs: seq<(nat, T)>, ys: seq<(nat, T)>, l: nat)
    ensures At(xs + ys, l) == At(xs, l) + At(ys, l)
  {
    forall x ensures x in At(xs + ys, l) <==> x in At(xs, l) || x in At(ys, l) {
      assert (l, x) in xs + ys <==> (l, x) in xs || (l, x) in ys;
    }
  }

  function NumbersOf(files: seq<File>): (r: seq<nat>)
    ensures |r| == |files| && forall i :: 0 <= i < |files| ==> r[i] == files[i].number
  {
    seq(|files|, i requires 0 <= i < |files| => files[i].number)
  }

  // The edit of a compaction: its inputs deleted, its outputs added below.
  function CompactionEdit(c: Choice, outputs: seq<File>): VersionEdit {
    VersionEdit(Tagged(c.level, NumbersOf(c.inputs0)) + Tagged(c.level + 1, NumbersOf(c.inputs1)),
                Tagged(c.level + 1, outputs))
  }

  lemma DeletingRemoves(files: seq<File>, chosen: seq<File>, f: File)
    requires NumbersDistinct(files) && f in files && forall g :: g in chosen ==> g in files
    ensures f.number in NumbersOf(chosen) <==> f in chosen
  {
    if f in chosen {
      var i: nat :| i < |chosen| && chosen[i] == f;
      assert NumbersOf(chosen)[i] == f.number;
    }
    if f.number in NumbersOf(chosen) {
      var i: nat :| i < |chosen| && NumbersOf(chosen)[i] == f.number;
      assert chosen[i] in files;
    }
  }

  // Output numbers that the version does not use, except for files that are taken away.
  ghost predicate NewOutputs(v: Version, c: Choice, outputs: seq<File>) {
    && NumbersDistinct(outputs) && |v| == NUM_LEVELS && c.level + 1 < NUM_LEVELS
    && NumbersDisjoint(outputs, v[c.level + 1])
  }

  lemma CompactionEditLevels(v: Version, c: Choice, outputs: seq<File>, l: nat)
    requires Inv(v) && GoodChoice(v, c) && NewOutputs(v, c, outputs) && l < NUM_LEVELS
    ensures AddedIn(CompactionEdit(c, outputs), l) == if l == c.level + 1 then FileSet(outputs) else {}
    ensures forall f :: f in v[l] ==> (f.number in DeletedIn(CompactionEdit(c, outputs), l)
        <==> (l == c.level && f in c.inputs0) || (l == c.level + 1 && f in c.inputs1))
  {
    hide Newer, LeavesNewer, LevelSorted, FilesValid;
    assert LevelOk(l, v[l]);
    hide Inv;
    AtTagged(c.level + 1, outputs, l);
    AtConcat(Tagged(c.level, NumbersOf(c.inputs0)), Tagged(c.level + 1, NumbersOf(c.inputs1)), l);
    AtTagged(c.level, NumbersOf(c.inputs0), l);
    AtTagged(c.level + 1, NumbersOf(c.inputs1), l);
    forall f | f in v[l]
      ensures f.number in DeletedIn(CompactionEdit(c, outputs), l)
        <==> (l == c.level && f in c.inputs0) || (l == c.level + 1 && f in c.inputs1)
    {
      if l == c.level {
        DeletingRemoves(v[l], c.inputs0, f);
      } else if l == c.level + 1 {
        DeletingRemoves(v[l], c.inputs1, f);
      }
    }
  }

  lemma CompactionEditIsFresh(v: Version, c: Choice, outputs: seq<File>)
    requires Inv(v) && GoodChoice(v, c) && NewOutputs(v, c, outputs)
    ensures FreshIn(v, CompactionEdit(c, outputs)) && EditOk(CompactionEdit(c, outputs))
  {
    hide Newer, LeavesNewer, LevelSorted, FilesValid;
    forall l | 0 <= l < NUM_LEVELS
      ensures var a := AddedIn(CompactionEdit(c, outputs), l); Identify(FileSet(v[l]) + a) && Numbers(a) !! Numbers(FileSet(v[l]))
    {
      assert LevelOk(l, v[l]);
      CompactionEditLevels(v, c, outputs, l);
    }
  }

  lemma SameFiles(v: Version, c: Choice, outputs: seq<File>, r: Version, l: nat)
    requires Inv(v) && GoodChoice(v, c) && NewOutputs(v, c, outputs) && l < NUM_LEVELS == |r|
    requires IsListing(r[l], EditLevel(FileSet(v[l]), CompactionEdit(c, outputs), l))
    ensures l == c.level ==> Replaces(v[l], c.inputs0, [], r[l])
    ensures l == c.level + 1 ==> Replaces(v[l], c.inputs1, outputs, r[l])
    ensures l != c.level && l != c.level + 1 ==> r[l] == v[l]
  {
    CompactionEditLevels(v, c, outputs, l);
    assert LevelOk(l, v[l]);
    hide Inv, GoodChoice, LevelOk;
    assert forall f :: f in r[l] <==> f in EditLevel(FileSet(v[l]), CompactionEdit(c, outputs), l) by {
      assert forall f :: f in r[l] <==> f in FileSet(r[l]);
    }
    if l != c.level && l != c.level + 1 {
      assert FileSet(r[l]) == FileSet(v[l]);
      ListingUnique(r[l], v[l]);
    }
  }

  method InstallCompactionResults(v: Version, c: Choice, outputs: seq<File>) returns (r: Version)
    requires Inv(v) && GoodChoice(v, c) && NewOutputs(v, c, outputs)
    ensures Compacted(v, c, outputs, r)
  {
    var e := CompactionEdit(c, outputs);
    CompactionEditIsFresh(v, c, outputs);
    forall l | 0 <= l < NUM_LEVELS ensures SortedFiles(v[l]) {
      assert LevelOk(l, v[l]);
    }
    hide Inv, Replaces, IsListing;
    r := LogAndApply(v, e);
    forall l | 0 <= l < NUM_LEVELS
      ensures l == c.level ==> Replaces(v[l], c.inputs0, [], r[l])
      ensures l == c.level + 1 ==> Replaces(v[l], c.inputs1, outputs, r[l])
      ensures l != c.level && l != c.level + 1 ==> r[l] == v[l]
    {
      SameFiles(v, c, outputs, r, l);
    }
  }
}
