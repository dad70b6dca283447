/** Applying version edits: the batched builder and what its result is. */
module Builder {
  import opened DbFormat
  import opened Versions

  // Files removed and added, each with its level.
  datatype VersionEdit = VersionEdit(deletedFiles: seq<(nat, nat)>, newFiles: seq<(nat, File)>)

  ghost predicate EditOk(e: VersionEdit) {
    && (forall d :: d in e.deletedFiles ==> d.0 < NUM_LEVELS)
    && (forall n :: n in e.newFiles ==> n.0 < NUM_LEVELS)
  }

  ghost function At<T>(xs: seq<(nat, T)>, l: nat): set<T> {
    set x | x in xs && x.0 == l :: x.1
  }

  lemma AtAppend<T>(xs: seq<(nat, T)>, x: (nat, T), l: nat)
    ensures At(xs + [x], l) == At(xs, l) + if x.0 == l then {x.1} else {}
  {
    forall y ensures y in At(xs + [x], l) <==> y in At(xs, l) || (x.0 == l && x.1 == y) {
      if x.0 == l && x.1 == y {
        assert x in xs + [x];
      }
      if y in At(xs, l) {
        var z :| z in xs && z.0 == l && z.1 == y;
        assert z in xs + [x];
      }
    }
  }

  ghost function DeletedIn(e: VersionEdit, l: nat): set<nat> {
    At(e.deletedFiles, l)
  }

  ghost function AddedIn(e: VersionEdit, l: nat): set<File> {
    At(e.newFiles, l)
  }

  ghost function Numbers(fs: set<File>): set<nat> {
    set f | f in fs :: f.number
  }

  ghost function FileSet(files: seq<File>): set<File> {
    set f | f in files
  }

  // The files of one level after an edit that both deletes and adds: deletions come first.
  ghost function EditLevel(fs: set<File>, e: VersionEdit, l: nat): set<File> {
    (set f | f in fs && f.number !in DeletedIn(e, l)) + AddedIn(e, l)
  }

  // A file list is determined by its files: sorted, without repetition.
  ghost predicate IsListing(files: seq<File>, fs: set<File>) {
    SortedFiles(files) && FileSet(files) == fs
  }

  lemma BySmallestTotal(f: File, g: File)
    ensures BySmallest(f, g) || BySmallest(g, f) || (f.smallest == g.smallest && f.number == g.number)
    ensures !(BySmallest(f, g) && BySmallest(g, f))
  {
    LessIsTotal(f.smallest, g.smallest);
  }

  lemma {:induction false} ListingUnique(a: seq<File>, b: seq<File>)
    requires SortedFiles(a) && SortedFiles(b) && FileSet(a) == FileSet(b)
    ensures a == b
  {
    BothEmpty(a, b);
    if a != [] {
      assert a[0] in FileSet(b) && b[0] in FileSet(a);
      FirstsAgree(a, b);
      RestOf(a);
      RestOf(b);
      ListingUnique(a[1..], b[1..]);
    }
  }

  lemma BothEmpty(a: seq<File>, b: seq<File>)
    requires FileSet(a) == FileSet(b)
    ensures a == [] <==> b == []
  {
    if a != [] {
      assert a[0] in FileSet(a);
    }
    if b != [] {
      assert b[0] in FileSet(b);
    }
  }

  lemma FirstsAgree(a: seq<File>, b: seq<File>)
    requires SortedFiles(a) && SortedFiles(b) && a != [] && b != [] && a[0] in b && b[0] in a
    ensures a[0] == b[0]
  {
    var i: nat :| i < |b| && b[i] == a[0];
    var j: nat :| j < |a| && a[j] == b[0];
  }

  lemma RestOf(a: seq<File>)
    requires SortedFiles(a) && a != []
    ensures SortedFiles(a[1..]) && FileSet(a[1..]) == FileSet(a) - {a[0]}
  {
    forall f ensures f in a[1..] <==> f in a && f != a[0] {
      if f in a && f != a[0] {
        var i: nat :| i < |a| && a[i] == f;
        assert a[1..][i - 1] == f;
      }
      if f in a[1..] {
        var i: nat :| i < |a[1..]| && a[1..][i] == f;
        assert a[i + 1] == f && BySmallest(a[0], a[i + 1]);
      }
    }
  }

  // Insertion into an ordered set: an element equal to a present one is not inserted.
  function Insert(files: seq<File>, f: File): seq<File> {
    if files == [] then [f]
    else if BySmallest(files[0], f) then [files[0]] + Insert(files[1..], f)
    else if BySmallest(f, files[0]) then [f] + files
    else files
  }

  lemma ConsSorted(f: File, rest: seq<File>)
    requires SortedFiles(rest) && forall g :: g in FileSet(rest) ==> BySmallest(f, g)
    ensures SortedFiles([f] + rest) && FileSet([f] + rest) == {f} + FileSet(rest)
  {
    var r := [f] + rest;
    forall i, j | 0 <= i < j < |r| ensures BySmallest(r[i], r[j]) {
      assert r[j] in FileSet(rest);
    }
  }

  lemma FirstIsBefore(f: File, files: seq<File>)
    requires SortedFiles(files) && files != [] && BySmallest(f, files[0])
    ensures forall g :: g in FileSet(files) ==> BySmallest(f, g)
  {
    forall i | 0 <= i < |files| ensures BySmallest(f, files[i]) {
      assert i > 0 ==> BySmallest(files[0], files[i]);
    }
  }

  lemma HeadIsBefore(files: seq<File>)
    requires SortedFiles(files) && files != []
    ensures forall g :: g in FileSet(files[1..]) ==> BySmallest(files[0], g)
  {
    forall i | 0 <= i < |files[1..]| ensures BySmallest(files[0], files[1..][i]) {
      assert BySmallest(files[0], files[i + 1]);
    }
  }

  lemma {:induction false} InsertSorted(files: seq<File>, f: File)
    requires SortedFiles(files)
    ensures SortedFiles(Insert(files, f))
    ensures FileSet(files) <= FileSet(Insert(files, f)) <= FileSet(files) + {f}
    ensures f.number !in Numbers(FileSet(files)) ==> f in FileSet(Insert(files, f))
  {
    if files == [] {
    } else {
      RestOf(files);
      assert files[0] in FileSet(files);
      if BySmallest(files[0], f) {
        InsertSorted(files[1..], f);
        HeadIsBefore(files);
        hide SortedFiles, BySmallest, FileSet;
        ConsSorted(files[0], Insert(files[1..], f));
      } else if BySmallest(f, files[0]) {
        FirstIsBefore(f, files);
        hide SortedFiles, BySmallest, FileSet;
        ConsSorted(f, files);
      } else {
        BySmallestTotal(f, files[0]);
      }
    }
  }

  // What a builder has gathered for one level.
  datatype LevelState = LevelState(deleted: set<nat>, added: seq<File>)

  type Levels = seq<LevelState>

  function Delete(ls: Levels, d: (nat, nat)): Levels
    requires d.0 < |ls|
  {
    ls[d.0 := ls[d.0].(deleted := ls[d.0].deleted + {d.1})]
  }

  function Add(ls: Levels, n: (nat, File)): Levels
    requires n.0 < |ls|
  {
    ls[n.0 := LevelState(ls[n.0].deleted - {n.1.number}, Insert(ls[n.0].added, n.1))]
  }

  function DeleteAll(ls: Levels, ds: seq<(nat, nat)>): (r: Levels)
    requires forall d :: d in ds ==> d.0 < |ls|
    ensures |r| == |ls|
  {
    if ds == [] then ls else Delete(DeleteAll(ls, ds[..|ds| - 1]), ds[|ds| - 1])
  }

  function AddAll(ls: Levels, ns: seq<(nat, File)>): (r: Levels)
    requires forall n :: n in ns ==> n.0 < |ls|
    ensures |r| == |ls|
  {
    if ns == [] then ls else Add(AddAll(ls, ns[..|ns| - 1]), ns[|ns| - 1])
  }

  // The effect of one edit on what is gathered: its deletions, then its additions.
  function Gather(ls: Levels, e: VersionEdit): (r: Levels)
    requires |ls| == NUM_LEVELS && EditOk(e)
    ensures |r| == NUM_LEVELS
  {
    AddAll(DeleteAll(ls, e.deletedFiles), e.newFiles)
  }

  class VersionBuilder {
    const base: Version
    var levels: Levels

    constructor (base: Version)
      requires |base| == NUM_LEVELS
      ensures this.base == base && levels == Nothing()
    {
      this.base := base;
      levels := Nothing();
    }

    method Apply(e: VersionEdit)
      requires |levels| == NUM_LEVELS && EditOk(e)
      modifies this`levels
      ensures levels == Gather(old(levels), e)
    {
      var start := levels;
      for i := 0 to |e.deletedFiles|
        invariant levels == DeleteAll(start, e.deletedFiles[..i])
      {
        assert e.deletedFiles[..i + 1][..i] == e.deletedFiles[..i];
        levels := Delete(levels, e.deletedFiles[i]);
      }
      assert e.deletedFiles[..|e.deletedFiles|] == e.deletedFiles;
      var mid := levels;
      for i := 0 to |e.newFiles|
        invariant levels == AddAll(mid, e.newFiles[..i])
      {
        assert e.newFiles[..i + 1][..i] == e.newFiles[..i];
        levels := Add(levels, e.newFiles[i]);
      }
      assert e.newFiles[..|e.newFiles|] == e.newFiles;
    }

    // One level of the new version: the base files and the added files merged in order, without the deleted.
    method SaveLevel(l: nat) returns (files: seq<File>)
      requires |base| == |levels| == NUM_LEVELS && l < NUM_LEVELS
      requires SortedFiles(base[l]) && SortedFiles(levels[l].added)
      ensures FileSet(files) == Live(FileSet(base[l]), levels[l])
      ensures Unequal(base[l], levels[l].added) ==> SortedFiles(files)
    {
      var baseFiles, added, deleted := base[l], levels[l].added, levels[l].deleted;
      files := [];
      var b: nat, a: nat := 0, 0;
      WalkStarts(baseFiles, added, deleted);
      hide Walked, SortedFiles, FileSet, Live, Unequal;
      while a < |added|
        invariant Walked(files, baseFiles, b, added, a, deleted)
        invariant b <= |baseFiles| && a <= |added|
      {
        // All base files before the added one.
        files, b := SaveUpTo(files, baseFiles, b, added, a, deleted);
        TakeAdded(files, baseFiles, b, added, a, deleted);
        files := MaybeAddFile(files, added[a], deleted);
        a := a + 1;
      }
      files, b := SaveUpTo(files, baseFiles, b, added, a, deleted);
      WalkEnds(files, baseFiles, added, levels[l]);
    }

    method SaveTo() returns (v: Version)
      requires |base| == |levels| == NUM_LEVELS
      requires forall l :: 0 <= l < NUM_LEVELS ==> SortedFiles(base[l]) && SortedFiles(levels[l].added)
      requires forall l :: 0 <= l < NUM_LEVELS ==> Unequal(base[l], levels[l].added)
      ensures |v| == NUM_LEVELS
      ensures forall l :: 0 <= l < NUM_LEVELS ==> IsListing(v[l], Live(FileSet(base[l]), levels[l]))
    {
      v := [];
      for l := 0 to NUM_LEVELS
        invariant |v| == l
        invariant forall k :: 0 <= k < l ==> IsListing(v[k], Live(FileSet(base[k]), levels[k]))
      {
        var files := SaveLevel(l);
        v := v + [files];
      }
    }
  }

  function Nothing(): Levels {
    seq(NUM_LEVELS, _ => LevelState({}, []))
  }

  ghost function LiveOf(fs: set<File>, deleted: set<nat>): set<File> {
    set f | f in fs && f.number !in deleted
  }

  ghost function Live(base: set<File>, ls: LevelState): set<File> {
    LiveOf(base + FileSet(ls.added), ls.deleted)
  }

  ghost predicate Unequal(fs: seq<File>, gs: seq<File>) {
    forall f, g :: f in fs && g in gs ==> !(f.smallest == g.smallest && f.number == g.number)
  }

  ghost predicate AllBefore(fs: seq<File>, gs: seq<File>) {
    forall i, j :: 0 <= i < |fs| && 0 <= j < |gs| ==> BySmallest(fs[i], gs[j])
  }

  ghost predicate Merged(files: seq<File>, rest: seq<File>, more: seq<File>) {
    SortedFiles(files) && AllBefore(files, rest) && AllBefore(files, more)
  }

  // The base files up to the next added one, or up to their end.
  method SaveUpTo(files0: seq<File>, baseFiles: seq<File>, b0: nat, added: seq<File>, a: nat, deleted: set<nat>)
    returns (files: seq<File>, b: nat)
    requires SortedFiles(baseFiles) && SortedFiles(added) && b0 <= |baseFiles| && a <= |added|
    requires Walked(files0, baseFiles, b0, added, a, deleted)
    ensures b <= |baseFiles| && Walked(files, baseFiles, b, added, a, deleted)
    ensures b < |baseFiles| ==> a < |added| && BySmallest(added[a], baseFiles[b])
  {
    hide Walked, SortedFiles, BySmallest;
    files, b := files0, b0;
    while b < |baseFiles| && (a == |added| || !BySmallest(added[a], baseFiles[b]))
      invariant b <= |baseFiles| && Walked(files, baseFiles, b, added, a, deleted)
    {
      TakeBase(files, baseFiles, b, added, a, deleted);
      files := MaybeAddFile(files, baseFiles[b], deleted);
      b := b + 1;
    }
  }

  method MaybeAddFile(files: seq<File>, f: File, deleted: set<nat>) returns (r: seq<File>)
    ensures r == if f.number in deleted then files else files + [f]
  {
    if f.number in deleted {
      r := files;
    } else {
      r := files + [f];
    }
  }

  // Taking the next file of one list keeps the merge in order when it precedes the next of the other.
  lemma TakeNext(files: seq<File>, xs: seq<File>, i: nat, ys: seq<File>, j: nat, deleted: set<nat>)
    requires i < |xs| && j <= |ys| && SortedFiles(xs) && SortedFiles(ys)
    requires j < |ys| ==> BySmallest(xs[i], ys[j]) || !BySmallest(ys[j], xs[i])
    requires FileSet(files) == LiveOf(FileSet(xs[..i]) + FileSet(ys[..j]), deleted)
    ensures var r := if xs[i].number in deleted then files else files + [xs[i]];
      && FileSet(r) == LiveOf(FileSet(xs[..i + 1]) + FileSet(ys[..j]), deleted)
      && (Unequal(xs, ys) && Merged(files, xs[i..], ys[j..]) ==> Merged(r, xs[i + 1..], ys[j..]))
  {
    var f := xs[i];
    assert xs[..i + 1] == xs[..i] + [f];
    assert FileSet(xs[..i + 1]) == FileSet(xs[..i]) + {f};
    assert FileSet(files + [f]) == FileSet(files) + {f};
    if Unequal(xs, ys) && Merged(files, xs[i..], ys[j..]) {
      assert xs[i..][0] == f;
      assert xs[i..] == [f] + xs[i + 1..];
      if j < |ys| {
        assert f in xs && ys[j] in ys;
        BySmallestTotal(f, ys[j]);
        FirstIsBeforeRest(f, ys, j);
      }
    }
  }

  // The merge walk after `i` base files and `j` added ones.
  ghost predicate Walked(files: seq<File>, xs: seq<File>, i: nat, ys: seq<File>, j: nat, deleted: set<nat>) {
    && i <= |xs| && j <= |ys|
    && FileSet(files) == LiveOf(FileSet(xs[..i]) + FileSet(ys[..j]), deleted)
    && (Unequal(xs, ys) ==> Merged(files, xs[i..], ys[j..]))
  }

  lemma WalkStarts(xs: seq<File>, ys: seq<File>, deleted: set<nat>)
    ensures Walked([], xs, 0, ys, 0, deleted)
  {
  }

  lemma TakeBase(files: seq<File>, xs: seq<File>, i: nat, ys: seq<File>, j: nat, deleted: set<nat>)
    requires i < |xs| && SortedFiles(xs) && SortedFiles(ys) && Walked(files, xs, i, ys, j, deleted)
    requires j < |ys| ==> !BySmallest(ys[j], xs[i])
    ensures Walked(if xs[i].number in deleted then files else files + [xs[i]], xs, i + 1, ys, j, deleted)
  {
    hide FileSet, LiveOf, SortedFiles, Merged, Unequal;
    TakeNext(files, xs, i, ys, j, deleted);
  }

  lemma TakeAdded(files: seq<File>, xs: seq<File>, i: nat, ys: seq<File>, j: nat, deleted: set<nat>)
    requires j < |ys| && SortedFiles(xs) && SortedFiles(ys) && Walked(files, xs, i, ys, j, deleted)
    requires i < |xs| ==> BySmallest(ys[j], xs[i])
    ensures Walked(if ys[j].number in deleted then files else files + [ys[j]], xs, i, ys, j + 1, deleted)
  {
    assert Unequal(xs, ys) ==> Unequal(ys, xs);
    hide FileSet, LiveOf, SortedFiles, Unequal;
    assert FileSet(xs[..i]) + FileSet(ys[..j]) == FileSet(ys[..j]) + FileSet(xs[..i]);
    assert FileSet(xs[..i]) + FileSet(ys[..j + 1]) == FileSet(ys[..j + 1]) + FileSet(xs[..i]);
    TakeNext(files, ys, j, xs, i, deleted);
  }

  lemma WalkEnds(files: seq<File>, xs: seq<File>, ys: seq<File>, level: LevelState)
    requires ys == level.added && Walked(files, xs, |xs|, ys, |ys|, level.deleted)
    ensures FileSet(files) == Live(FileSet(xs), level)
    ensures Unequal(xs, ys) ==> SortedFiles(files)
  {
    assert xs[..|xs|] == xs && ys[..|ys|] == ys;
  }

  lemma FirstIsBeforeRest(f: File, ys: seq<File>, j: nat)
    requires j < |ys| && SortedFiles(ys) && BySmallest(f, ys[j])
    ensures forall k :: 0 <= k < |ys| - j ==> BySmallest(f, ys[j..][k])
  {
    forall k | 0 <= k < |ys| - j ensures BySmallest(f, ys[j..][k]) {
      assert ys[j..][k] == ys[j + k];
    }
  }

  // ---- What a whole run of edits leaves ----------------------------------------------------------------

  lemma {:induction false} DeleteAllEffect(ls: Levels, ds: seq<(nat, nat)>, l: nat)
    requires l < |ls| && forall d :: d in ds ==> d.0 < |ls|
    ensures DeleteAll(ls, ds)[l] == ls[l].(deleted := ls[l].deleted + At(ds, l))
  {
    if ds != [] {
      var n := |ds| - 1;
      DeleteAllEffect(ls, ds[..n], l);
      assert ds == ds[..n] + [ds[n]];
      AtAppend(ds[..n], ds[n], l);
    }
  }

  // Numbers identify files.
  ghost predicate Identify(fs: set<File>) {
    forall f, g :: f in fs && g in fs && f.number == g.number ==> f == g
  }

  lemma {:induction false} AddAllEffect(ls: Levels, ns: seq<(nat, File)>, l: nat)
    requires l < |ls| && (forall n :: n in ns ==> n.0 < |ls|) && SortedFiles(ls[l].added)
    requires Identify(FileSet(ls[l].added) + At(ns, l))
    ensures AddAll(ls, ns)[l].deleted == ls[l].deleted - Numbers(At(ns, l))
    ensures FileSet(AddAll(ls, ns)[l].added) == FileSet(ls[l].added) + At(ns, l)
    ensures SortedFiles(AddAll(ls, ns)[l].added)
  {
    assert ns == [] ==> At(ns, l) == {} && Numbers(At(ns, l)) == {};
    hide SortedFiles, FileSet, Numbers, At, Insert;
    if ns != [] {
      var n := |ns| - 1;
      assert ns == ns[..n] + [ns[n]];
      AtAppend(ns[..n], ns[n], l);
      AddAllEffect(ls, ns[..n], l);
      if ns[n].0 == l {
        InsertedFile(AddAll(ls, ns[..n])[l].added, ns[n].1);
        MoreNumbers(At(ns[..n], l), ns[n].1);
        var gone, more := Numbers(At(ns[..n], l)), {ns[n].1.number};
        assert ls[l].deleted - gone - more == ls[l].deleted - (gone + more);
      }
    }
  }

  lemma InsertedFile(files: seq<File>, f: File)
    requires SortedFiles(files) && Identify(FileSet(files) + {f})
    ensures SortedFiles(Insert(files, f)) && FileSet(Insert(files, f)) == FileSet(files) + {f}
  {
    InsertSorted(files, f);
    if f.number in Numbers(FileSet(files)) {
      var g :| g in FileSet(files) && g.number == f.number;
      assert g == f;
    }
  }

  lemma MoreNumbers(fs: set<File>, f: File)
    ensures Numbers(fs + {f}) == Numbers(fs) + {f.number}
  {
  }

  function GatherAll(es: seq<VersionEdit>): (r: Levels)
    requires forall e :: e in es ==> EditOk(e)
    ensures |r| == NUM_LEVELS
  {
    if es == [] then Nothing() else Gather(GatherAll(es[..|es| - 1]), es[|es| - 1])
  }

  // One version per edit, as sets.
  ghost function EditAll(fs: set<File>, es: seq<VersionEdit>, l: nat): set<File> {
    if es == [] then fs else EditLevel(EditAll(fs, es[..|es| - 1], l), es[|es| - 1], l)
  }

  // Every file that is in the level at the start or is ever added to it.
  ghost function Ever(fs: set<File>, es: seq<VersionEdit>, l: nat): set<File> {
    if es == [] then fs else Ever(fs, es[..|es| - 1], l) + AddedIn(es[|es| - 1], l)
  }

  // No edit adds a file number to a level that has held it before.
  ghost predicate NeverReadded(fs: set<File>, es: seq<VersionEdit>, l: nat) {
    if es == [] then Identify(fs) else
    && NeverReadded(fs, es[..|es| - 1], l)
    && Identify(AddedIn(es[|es| - 1], l))
    && Numbers(AddedIn(es[|es| - 1], l)) !! Numbers(Ever(fs, es[..|es| - 1], l))
  }

  lemma {:induction false} EverIdentified(fs: set<File>, es: seq<VersionEdit>, l: nat)
    requires NeverReadded(fs, es, l)
    ensures Identify(Ever(fs, es, l))
  {
    if es != [] {
      var n := |es| - 1;
      EverIdentified(fs, es[..n], l);
      forall f, g | f in Ever(fs, es, l) && g in Ever(fs, es, l) && f.number == g.number ensures f == g {
        assert f.number in Numbers(AddedIn(es[n], l)) || f.number in Numbers(Ever(fs, es[..n], l));
        if f in AddedIn(es[n], l) {
          assert f.number in Numbers(AddedIn(es[n], l));
        }
        if g in AddedIn(es[n], l) {
          assert g.number in Numbers(AddedIn(es[n], l));
        }
        if f in Ever(fs, es[..n], l) {
          assert f.number in Numbers(Ever(fs, es[..n], l));
        }
        if g in Ever(fs, es[..n], l) {
          assert g.number in Numbers(Ever(fs, es[..n], l));
        }
      }
    }
  }

  lemma {:induction false} GatherAllLive(fs: set<File>, es: seq<VersionEdit>, l: nat)
    requires l < NUM_LEVELS && (forall e :: e in es ==> EditOk(e)) && NeverReadded(fs, es, l)
    ensures Live(fs, GatherAll(es)[l]) == EditAll(fs, es, l)
    ensures fs + FileSet(GatherAll(es)[l].added) == Ever(fs, es, l)
    ensures SortedFiles(GatherAll(es)[l].added)
  {
    if es != [] {
      var n := |es| - 1;
      GatherAllLive(fs, es[..n], l);
      EverIdentified(fs, es, l);
      GatherLive(fs, GatherAll(es[..n]), es[n], l);
    }
  }

  lemma GatherLive(fs: set<File>, ls: Levels, e: VersionEdit, l: nat)
    requires |ls| == NUM_LEVELS && l < NUM_LEVELS && EditOk(e) && SortedFiles(ls[l].added)
    requires Identify(fs + FileSet(ls[l].added) + AddedIn(e, l))
    requires Numbers(AddedIn(e, l)) !! Numbers(fs + FileSet(ls[l].added))
    ensures SortedFiles(Gather(ls, e)[l].added)
    ensures FileSet(Gather(ls, e)[l].added) == FileSet(ls[l].added) + AddedIn(e, l)
    ensures Live(fs, Gather(ls, e)[l]) == EditLevel(Live(fs, ls[l]), e, l)
  {
    var mid := DeleteAll(ls, e.deletedFiles);
    DeleteAllEffect(ls, e.deletedFiles, l);
    AddAllEffect(mid, e.newFiles, l);
    var added := AddedIn(e, l);
    var after := Gather(ls, e)[l];
    forall f ensures f in Live(fs, after) <==> f in EditLevel(Live(fs, ls[l]), e, l) {
      if f in added {
        assert f.number in Numbers(added);
      }
      if f in fs + FileSet(ls[l].added) {
        assert f.number in Numbers(fs + FileSet(ls[l].added));
      }
    }
  }

  lemma {:induction false} NeverReaddedPrefix(fs: set<File>, es: seq<VersionEdit>, l: nat, k: nat)
    requires NeverReadded(fs, es, l) && k <= |es|
    ensures NeverReadded(fs, es[..k], l)
    decreases |es|
  {
    if k == |es| {
      assert es[..k] == es;
    } else {
      NeverReaddedPrefix(fs, es[..|es| - 1], l, k);
      assert es[..|es| - 1][..k] == es[..k];
    }
  }

  lemma {:induction false} EditedWasThere(fs: set<File>, es: seq<VersionEdit>, l: nat)
    ensures EditAll(fs, es, l) <= Ever(fs, es, l) && fs <= Ever(fs, es, l)
  {
    if es != [] {
      EditedWasThere(fs, es[..|es| - 1], l);
    }
  }

  // An edit that adds no number again is fresh in the version it is applied to.
  lemma NextIsFresh(fs: set<File>, es: seq<VersionEdit>, l: nat, k: nat)
    requires NeverReadded(fs, es, l) && k < |es|
    ensures var now, added := EditAll(fs, es[..k], l), AddedIn(es[k], l);
      Identify(now + added) && Numbers(added) !! Numbers(now)
  {
    NeverReaddedPrefix(fs, es, l, k + 1);
    assert es[..k + 1][..k] == es[..k];
    EverIdentified(fs, es[..k + 1], l);
    EditedWasThere(fs, es[..k], l);
  }

  lemma {:induction false} AddedIsNew(fs: set<File>, es: seq<VersionEdit>, l: nat)
    requires l < NUM_LEVELS && (forall e :: e in es ==> EditOk(e)) && NeverReadded(fs, es, l)
    ensures Numbers(fs) !! Numbers(FileSet(GatherAll(es)[l].added))
  {
    if es != [] {
      var n := |es| - 1;
      AddedIsNew(fs, es[..n], l);
      GatherAllLive(fs, es[..n], l);
      EverIdentified(fs, es, l);
      EditedWasThere(fs, es[..n], l);
      GatherLive(fs, GatherAll(es[..n]), es[n], l);
      var before, added := FileSet(GatherAll(es[..n])[l].added), AddedIn(es[n], l);
      assert FileSet(GatherAll(es)[l].added) == before + added;
      assert Numbers(before + added) == Numbers(before) + Numbers(added);
    }
  }

  // The builder's own precondition: a fresh number is never equal to a present file.
  lemma FreshIsUnequal(fs: seq<File>, ls: LevelState)
    requires Numbers(FileSet(fs)) !! Numbers(FileSet(ls.added))
    ensures Unequal(fs, ls.added)
  {
    forall f, g | f in fs && g in ls.added ensures f.number != g.number {
      assert f in FileSet(fs) && g in FileSet(ls.added);
      assert f.number in Numbers(FileSet(fs)) && g.number in Numbers(FileSet(ls.added));
    }
  }
}
