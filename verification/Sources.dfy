/** The sorted lists that make up levels, memtables and the whole store, and their merge. */
module Sources {
  import opened DbFormat
  import opened Versions
  import opened Inputs
  import opened Compactions
  import opened CompactionMeaning
  import opened Iterators
  import opened Merger
  import LevelSteps
  import Lookup

  // ---- Sorting a set of entries -----------------------------------------------------------------------------

  lemma {:induction false} SortSet(es: set<Entry>) returns (r: seq<Entry>)
    requires KeysDistinct(es)
    ensures Sorted(r) && EntrySet(r) == es
    decreases es
  {
    if es == {} {
      r := [];
    } else {
      var e :| e in es;
      var rest := SortSet(es - {e});
      assert forall d :: d in rest ==> d in EntrySet(rest);
      InsertEntrySorted(rest, e);
      r := InsertEntry(rest, e);
    }
  }

  // ---- Lists with distinct keys --------------------------------------------------------------------------------

  ghost predicate AllSorted(lists: seq<seq<Entry>>) {
    forall i :: 0 <= i < |lists| ==> Sorted(lists[i])
  }

  ghost predicate NoSharedKeys(lists: seq<seq<Entry>>) {
    forall i, j, d, e :: 0 <= i < j < |lists| && d in lists[i] && e in lists[j] ==> d.key != e.key
  }

  ghost predicate KeysApart(xs: set<Entry>, ys: set<Entry>) {
    forall d, e :: d in xs && e in ys ==> d.key != e.key
  }

  ghost function Union(lists: seq<seq<Entry>>): set<Entry> {
    set i, e | 0 <= i < |lists| && e in lists[i] :: e
  }

  // Sorted lists without a common key that together hold `es`.
  ghost predicate Hold(lists: seq<seq<Entry>>, es: set<Entry>) {
    AllSorted(lists) && NoSharedKeys(lists) && Union(lists) == es
  }

  lemma UnionConcat(xs: seq<seq<Entry>>, ys: seq<seq<Entry>>)
    ensures Union(xs + ys) == Union(xs) + Union(ys)
  {
    forall e ensures e in Union(xs + ys) <==> e in Union(xs) || e in Union(ys) {
      if i: nat :| i < |xs + ys| && e in (xs + ys)[i] {
        if i < |xs| {
          assert e in xs[i];
        } else {
          assert e in ys[i - |xs|];
        }
      }
      if i: nat :| i < |xs| && e in xs[i] {
        assert e in (xs + ys)[i];
      }
      if i: nat :| i < |ys| && e in ys[i] {
        assert e in (xs + ys)[|xs| + i];
      }
    }
  }

  lemma NoSharedConcat(xs: seq<seq<Entry>>, ys: seq<seq<Entry>>)
    requires NoSharedKeys(xs) && NoSharedKeys(ys) && KeysApart(Union(xs), Union(ys))
    ensures NoSharedKeys(xs + ys)
  {
    var all := xs + ys;
    forall i, j, d: Entry, e: Entry | 0 <= i < j < |all| && d in all[i] && e in all[j] ensures d.key != e.key {
      if j < |xs| {
        assert d in xs[i] && e in xs[j];
      } else if i < |xs| {
        assert d in xs[i] && e in ys[j - |xs|];
        assert d in Union(xs) && e in Union(ys);
      } else {
        assert d in ys[i - |xs|] && e in ys[j - |xs|];
      }
    }
  }

  lemma MergeExists(lists: seq<seq<Entry>>) returns (merged: seq<Entry>)
    requires Hold(lists, Union(lists))
    ensures IsMerge(lists, merged) && EntrySet(merged) == Union(lists)
  {
    forall d, e | d in Union(lists) && e in Union(lists) && d.key == e.key ensures d == e {
      var i: nat :| i < |lists| && d in lists[i];
      var j: nat :| j < |lists| && e in lists[j];
      assert i == j;
      var m: nat :| m < |lists[i]| && lists[i][m] == d;
      var n: nat :| n < |lists[i]| && lists[i][n] == e;
      OrderedBy(lists[i], m, n);
    }
    merged := SortSet(Union(lists));
    assert forall e :: e in merged <==> e in Union(lists) by {
      assert forall e :: e in merged <==> e in EntrySet(merged);
    }
  }

  // ---- The children that read a list of files ---------------------------------------------------------------------

  // Level 0: one child per file. Deeper: one child that walks the files in order.
  function ChildLists(level: nat, files: seq<File>): (r: seq<seq<Entry>>) {
    if level == 0 then seq(|files|, i requires 0 <= i < |files| => files[i].entries)
    else if files == [] then [] else [Flatten(files)]
  }

  lemma {:induction false} FlattenSorted(files: seq<File>)
    requires FilesValid(files) && LevelSorted(files)
    ensures Sorted(Flatten(files))
  {
    if files != [] {
      var n := |files| - 1;
      FlattenSorted(files[..n]);
      FlattenMembers(files[..n]);
      var before, last := Flatten(files[..n]), files[n].entries;
      assert files[n] in files;
      forall i, j | 0 <= i < |before| && 0 <= j < |last| ensures Less(before[i].key, last[j].key) {
        assert before[i] in EntrySet(before);
        var f :| f in files[..n] && before[i] in f.entries;
        var k: nat :| k < n && files[k] == f;
        FilesInOrder(files, k, n, before[i], last[j]);
      }
      var r := Flatten(files);
      assert r == before + last;
      forall i, j | 0 <= i < j < |r| ensures Less(r[i].key, r[j].key) {
      }
    }
  }

  lemma Level0ListsOk(all: seq<File>, files: seq<File>)
    requires LevelOk(0, all) && SortedFiles(files) && forall f :: f in files ==> f in all
    ensures Hold(ChildLists(0, files), LevelEntries(files))
  {
    var lists := ChildLists(0, files);
    assert forall i :: 0 <= i < |files| ==> files[i] in all && files[i].Valid();
    forall i, j, d: Entry, e: Entry | 0 <= i < j < |lists| && d in lists[i] && e in lists[j] ensures d.key != e.key {
      DifferentFiles(all, files, i, j, d, e);
    }
    Level0Union(files);
  }

  lemma Level0Union(files: seq<File>)
    ensures Union(ChildLists(0, files)) == LevelEntries(files)
  {
    var lists := ChildLists(0, files);
    forall e ensures e in Union(lists) <==> e in LevelEntries(files) {
      if i: nat :| i < |lists| && e in lists[i] {
        assert files[i] in files && e in files[i].entries;
      }
      if f :| f in files && e in f.entries {
        var i: nat :| i < |files| && files[i] == f;
        assert e in lists[i];
      }
    }
  }

  lemma DifferentFiles(all: seq<File>, files: seq<File>, i: nat, j: nat, d: Entry, e: Entry)
    requires LevelOk(0, all) && SortedFiles(files) && forall f :: f in files ==> f in all
    requires i < j < |files| && d in files[i].entries && e in files[j].entries
    ensures d.key != e.key
  {
    assert files[i] in all && files[j] in all && BySmallest(files[i], files[j]);
    hide LevelOk;
    if d.key.user == e.key.user {
      FilesApart(0, all, files[i], files[j], d, e);
    }
  }

  lemma ChildListsOk(level: nat, all: seq<File>, files: seq<File>)
    requires LevelOk(level, all) && (forall f :: f in files ==> f in all)
    requires SortedFiles(files) && (level > 0 ==> LevelSorted(files))
    ensures Hold(ChildLists(level, files), LevelEntries(files))
  {
    var lists := ChildLists(level, files);
    if level == 0 {
      Level0ListsOk(all, files);
    } else if files != [] {
      FlattenSorted(files);
      FlattenMembers(files);
      assert lists == [Flatten(files)];
      hide LevelOk, SortedFiles, LevelSorted, Flatten;
      assert forall e :: e in Union(lists) <==> e in lists[0];
      assert forall e :: e in Flatten(files) <==> e in EntrySet(Flatten(files));
    }
  }

  // The files of a choice, read as a compaction reads them.
  function InputLists(c: Choice): seq<seq<Entry>> {
    ChildLists(c.level, c.inputs0) + ChildLists(c.level + 1, c.inputs1)
  }

  lemma NewerIsApart(xs: set<Entry>, ys: set<Entry>)
    requires Newer(xs, ys)
    ensures KeysApart(xs, ys)
  {
  }

  lemma ConcatOk(xs: seq<seq<Entry>>, ys: seq<seq<Entry>>, a: set<Entry>, b: set<Entry>)
    requires Hold(xs, a) && Hold(ys, b) && Newer(a, b)
    ensures Hold(xs + ys, a + b)
  {
    NewerIsApart(a, b);
    hide Newer, KeysApart, Union, Sorted, NoSharedKeys;
    NoSharedConcat(xs, ys);
    UnionConcat(xs, ys);
  }

  // The children of a compaction hold exactly its inputs, each in order and no key twice.
  lemma InputListsOk(v: Version, c: Choice)
    requires Inv(v) && GoodChoice(v, c) && Ordered(c.level, c.inputs0)
    ensures Hold(InputLists(c), LevelEntries(c.inputs0) + LevelEntries(c.inputs1))
  {
    hide Newer, LeavesNewer, LevelEntries, IsSmallest, IsLargest;
    var files, below := v[c.level], v[c.level + 1];
    assert LevelOk(c.level, files) && LevelOk(c.level + 1, below) && Newer(LevelEntries(files), LevelEntries(below));
    assert forall f :: f in c.inputs0 ==> f in files;
    var lo, hi := Some(c.smallest.user), Some(c.largest.user);
    assert c.inputs1 == Overlapping(below, lo, hi);
    hide Inv, LevelOk, GoodChoice;
    OverlappingOrdered(c.level + 1, below, lo, hi);
    ChildListsOk(c.level, files, c.inputs0);
    ChildListsOk(c.level + 1, below, c.inputs1);
    hide ChildLists, Hold, Ordered;
    PartOfLevel(files, c.inputs0);
    PartOfLevel(below, c.inputs1);
    LevelSteps.NewerSubsets(LevelEntries(files), LevelEntries(below), LevelEntries(c.inputs0), LevelEntries(c.inputs1));
    ConcatOk(ChildLists(c.level, c.inputs0), ChildLists(c.level + 1, c.inputs1),
             LevelEntries(c.inputs0), LevelEntries(c.inputs1));
  }

  lemma PartOfLevel(files: seq<File>, part: seq<File>)
    requires forall f :: f in part ==> f in files
    ensures LevelEntries(part) <= LevelEntries(files)
  {
  }

  // ---- The children that read a whole version, and the whole store -----------------------------------------------

  function VersionLists(v: Version, n: nat): seq<seq<Entry>>
    requires n <= |v|
  {
    if n == 0 then [] else VersionLists(v, n - 1) + ChildLists(n - 1, v[n - 1])
  }

  lemma UpToStep(v: Version, n: nat)
    requires n < |v|
    ensures Lookup.UpTo(v, 0) == {}
    ensures Lookup.UpTo(v, n + 1) == Lookup.UpTo(v, n) + LevelEntries(v[n])
  {
    hide LevelEntries;
  }

  lemma {:induction false} VersionListsOk(v: Version, n: nat)
    requires |v| == NUM_LEVELS && Inv(v) && n <= NUM_LEVELS
    ensures Hold(VersionLists(v, n), Lookup.UpTo(v, n))
  {
    hide Inv, LevelEntries, Lookup.UpTo, ChildLists, Newer;
    if n == 0 {
      UpToStep(v, 0);
    } else {
      VersionListsOk(v, n - 1);
      LevelListsOk(v, n - 1);
      UpToIsNewer(v, n - 1);
      UpToStep(v, n - 1);
      hide *;
      ConcatOk(VersionLists(v, n - 1), ChildLists(n - 1, v[n - 1]), Lookup.UpTo(v, n - 1), LevelEntries(v[n - 1]));
      assert Hold(VersionLists(v, n - 1) + ChildLists(n - 1, v[n - 1]), Lookup.UpTo(v, n));
      VersionListsStep(v, n);
    }
  }

  lemma VersionListsStep(v: Version, n: nat)
    requires 0 < n <= |v|
    ensures VersionLists(v, n) == VersionLists(v, n - 1) + ChildLists(n - 1, v[n - 1])
  {
    hide ChildLists;
  }

  lemma LevelListsOk(v: Version, l: nat)
    requires Inv(v) && l < NUM_LEVELS
    ensures Hold(ChildLists(l, v[l]), LevelEntries(v[l]))
  {
    assert LevelOk(l, v[l]);
    hide Inv, Hold, ChildLists;
    ChildListsOk(l, v[l], v[l]);
  }

  lemma UpToIsNewer(v: Version, n: nat)
    requires Inv(v) && n < NUM_LEVELS
    ensures Newer(Lookup.UpTo(v, n), LevelEntries(v[n]))
  {
    hide LevelEntries, LevelOk;
    forall d, e | d in Lookup.UpTo(v, n) && e in LevelEntries(v[n]) && d.key.user == e.key.user ensures Less(d.key, e.key) {
      var l :| 0 <= l < n && d in LevelEntries(v[l]);
      LevelsApart(v, l, n, d, e);
    }
  }

  // Both memtables, then the files of the version.
  function StoreLists(mem: seq<Entry>, imm: Option<seq<Entry>>, v: Version): seq<seq<Entry>>
    requires |v| == NUM_LEVELS
  {
    [mem] + ((if imm.Some? then [imm.value] else []) + VersionLists(v, NUM_LEVELS))
  }

  lemma OneList(es: seq<Entry>)
    requires Sorted(es)
    ensures Hold([es], EntrySet(es))
  {
    forall e ensures e in Union([es]) <==> e in es {
      if e in es {
        assert e in [es][0];
      }
    }
  }

  lemma ThreeParts(xs: seq<seq<Entry>>, ys: seq<seq<Entry>>, zs: seq<seq<Entry>>, a: set<Entry>, b: set<Entry>, c: set<Entry>)
    requires Hold(xs, a) && Hold(ys, b) && Hold(zs, c) && Newer(a, b) && Newer(a + b, c)
    ensures Hold(xs + (ys + zs), a + b + c)
  {
    LevelSteps.NewerSubsets(a + b, c, b, c);
    LevelSteps.NewerSubsets(a + b, c, a, c);
    LevelSteps.NewerUnion(b, c, a);
    hide Hold, Newer;
    ConcatOk(ys, zs, b, c);
    ConcatOk(xs, ys + zs, a, b + c);
    assert a + (b + c) == a + b + c;
  }

  lemma StoreListsOk(mem: seq<Entry>, imm: Option<seq<Entry>>, v: Version, immSet: set<Entry>)
    requires Inv(v) && Sorted(mem) && (imm.Some? ==> Sorted(imm.value))
    requires immSet == if imm.Some? then EntrySet(imm.value) else {}
    requires Newer(EntrySet(mem), immSet) && Newer(EntrySet(mem) + immSet, VersionEntries(v))
    ensures Hold(StoreLists(mem, imm, v), EntrySet(mem) + immSet + VersionEntries(v))
  {
    var immLists := if imm.Some? then [imm.value] else [];
    VersionListsOk(v, NUM_LEVELS);
    assert Lookup.UpTo(v, NUM_LEVELS) == VersionEntries(v);
    OneList(mem);
    assert Hold(immLists, immSet) by {
      if imm.Some? {
        OneList(imm.value);
      }
    }
    hide Hold, Newer, EntrySet, VersionEntries, Inv, Lookup.UpTo, Sorted, VersionLists;
    ThreeParts([mem], immLists, VersionLists(v, NUM_LEVELS), EntrySet(mem), immSet, VersionEntries(v));
  }
}
