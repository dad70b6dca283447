/** Point lookup: level-0 files newest first, then one file per deeper level, stopping at the first hit. */
module Lookup {
  import opened DbFormat
  import opened Versions

  ghost predicate Misses(files: seq<File>, u: UserKey, s: Sequence) {
    NoneSeen(LevelEntries(files), u, s)
  }

  // Level 0: the candidates are all files covering `u`, tried from the highest number down.
  method GetLevel0(files: seq<File>, u: UserKey, s: Sequence) returns (r: Option<Entry>)
    requires LevelOk(0, files)
    ensures r.Some? ==> Newest(LevelEntries(files), u, s, r.value)
    ensures r.None? ==> Misses(files, u, s)
  {
    var tmp := [];
    for i := 0 to |files|
      invariant forall f :: f in tmp <==> f in files[..i] && f.smallest.user <= u <= f.largest.user
    {
      assert files[..i + 1] == files[..i] + [files[i]];
      if u >= files[i].smallest.user && u <= files[i].largest.user {
        tmp := tmp + [files[i]];
      }
    }
    assert files[..|files|] == files;
    tmp := SortNewestFirst(tmp);
    for i := 0 to |tmp|
      invariant forall k :: 0 <= k < i ==> NoneSeen(EntrySet(tmp[k].entries), u, s)
    {
      r := Probe(tmp[i].entries, u, s);
      if r.Some? {
        Level0Hit(files, tmp, i, u, s, r.value);
        return;
      }
    }
    r := None;
    Level0Miss(files, tmp, u, s);
  }

  ghost predicate Candidates(files: seq<File>, tmp: seq<File>, u: UserKey) {
    && LevelOk(0, files)
    && (forall f :: f in tmp <==> f in files && f.smallest.user <= u <= f.largest.user)
    && (forall i, j :: 0 <= i < j < |tmp| ==> tmp[i].number >= tmp[j].number)
  }

  lemma CandidateOf(files: seq<File>, tmp: seq<File>, u: UserKey, e: Entry) returns (k: nat)
    requires Candidates(files, tmp, u) && e in LevelEntries(files) && e.key.user == u
    ensures k < |tmp| && e in tmp[k].entries
  {
    var f :| f in files && e in f.entries;
    FileBounds(f, e);
    assert f in tmp;
    k :| 0 <= k < |tmp| && tmp[k] == f;
  }

  lemma Level0Hit(files: seq<File>, tmp: seq<File>, i: nat, u: UserKey, s: Sequence, e: Entry)
    requires Candidates(files, tmp, u) && i < |tmp|
    requires forall k :: 0 <= k < i ==> NoneSeen(EntrySet(tmp[k].entries), u, s)
    requires Newest(EntrySet(tmp[i].entries), u, s, e)
    ensures Newest(LevelEntries(files), u, s, e)
  {
    assert tmp[i] in files;
    assert e in LevelEntries(files);
    forall d | d in LevelEntries(files) && Sees(d, u, s) && d != e ensures Less(e.key, d.key) {
      var k := CandidateOf(files, tmp, u, d);
      assert d in EntrySet(tmp[k].entries) && e in EntrySet(tmp[i].entries);
      assert tmp[k] in files;
    }
  }

  lemma Level0Miss(files: seq<File>, tmp: seq<File>, u: UserKey, s: Sequence)
    requires Candidates(files, tmp, u)
    requires forall k :: 0 <= k < |tmp| ==> NoneSeen(EntrySet(tmp[k].entries), u, s)
    ensures Misses(files, u, s)
  {
    forall d | d in LevelEntries(files) && d.key.user == u ensures !Sees(d, u, s) {
      var k := CandidateOf(files, tmp, u, d);
      assert d in EntrySet(tmp[k].entries);
    }
  }

  // Deeper levels: only the first file whose largest key is at or after the seek key can hold the answer,
  // even when one user key straddles two files.
  method GetSortedLevel(files: seq<File>, u: UserKey, s: Sequence) returns (r: Option<Entry>)
    requires FilesValid(files) && LevelSorted(files)
    ensures r.Some? ==> Newest(LevelEntries(files), u, s, r.value)
    ensures r.None? ==> Misses(files, u, s)
  {
    var index := FindFile(files, SeekKey(u, s));
    r := None;
    if index < |files| {
      if u < files[index].smallest.user {
      } else {
        assert files[index] in files;
        r := Probe(files[index].entries, u, s);
      }
    }
    forall d | d in LevelEntries(files) && Sees(d, u, s)
      ensures r.Some? && (d == r.value || Less(r.value.key, d.key))
    {
      OnlyFile(files, index, u, s, d, r);
    }
    if r.Some? {
      assert files[index] in files;
    }
  }

  lemma OnlyFile(files: seq<File>, index: nat, u: UserKey, s: Sequence, d: Entry, r: Option<Entry>)
    requires FilesValid(files) && LevelSorted(files)
    requires forall i :: 0 <= i < index && i < |files| ==> Less(files[i].largest, SeekKey(u, s))
    requires index < |files| ==> !Less(files[index].largest, SeekKey(u, s))
    requires r.Some? ==> (
      && index < |files| && u >= files[index].smallest.user
      && Newest(EntrySet(files[index].entries), u, s, r.value))
    requires r.None? && index < |files| ==>
      u < files[index].smallest.user || NoneSeen(EntrySet(files[index].entries), u, s)
    requires d in LevelEntries(files) && Sees(d, u, s)
    ensures r.Some? && (d == r.value || Less(r.value.key, d.key))
  {
    var f :| f in files && d in f.entries;
    var k :| 0 <= k < |files| && files[k] == f;
    FileBounds(f, d);
    assert k >= index;
    if k == index {
      assert d in EntrySet(f.entries);
    } else {
      // The file at `index` ends at or after the seek key and before `d`, so it ends inside `u`.
      var g := files[index];
      assert g in files;
      var last := g.entries[|g.entries| - 1];
      assert last in EntrySet(g.entries);
      FilesInOrder(files, index, k, last, d);
      assert Sees(last, u, s);
      FileBounds(g, last);
      FileBounds(g, g.entries[0]);
      FilesInOrder(files, index, k, r.value, d);
    }
  }

  ghost function UpTo(v: Version, n: nat): set<Entry>
    requires n <= |v|
  {
    set l, e | 0 <= l < n && e in LevelEntries(v[l]) :: e
  }

  // The answer of one version is the newest entry, at or before the snapshot, of all its levels.
  method Get(v: Version, u: UserKey, s: Sequence) returns (r: Option<Entry>)
    requires Inv(v)
    ensures r.Some? ==> Newest(VersionEntries(v), u, s, r.value)
    ensures r.None? ==> NoneSeen(VersionEntries(v), u, s)
  {
    r := GetLevel0(v[0], u, s);
    var level := 1;
    while level < NUM_LEVELS && r.None?
      invariant 1 <= level <= NUM_LEVELS
      invariant r.Some? ==> Newest(UpTo(v, level), u, s, r.value)
      invariant r.None? ==> NoneSeen(UpTo(v, level), u, s)
    {
      r := GetSortedLevel(v[level], u, s);
      assert UpTo(v, level + 1) == UpTo(v, level) + LevelEntries(v[level]);
      level := level + 1;
    }
    if r.Some? {
      DeeperIsOlder(v, level, u, s, r.value);
    } else {
      assert UpTo(v, level) == VersionEntries(v);
    }
  }

  lemma DeeperIsOlder(v: Version, level: nat, u: UserKey, s: Sequence, e: Entry)
    requires Inv(v) && 1 <= level <= NUM_LEVELS && Newest(UpTo(v, level), u, s, e)
    ensures Newest(VersionEntries(v), u, s, e)
  {
    var m :| 0 <= m < level && e in LevelEntries(v[m]);
    forall d | d in VersionEntries(v) && Sees(d, u, s) && d != e ensures Less(e.key, d.key) {
      var l :| 0 <= l < |v| && d in LevelEntries(v[l]);
      if l < level {
        assert d in UpTo(v, level);
      } else {
        assert Newer(LevelEntries(v[m]), LevelEntries(v[l]));
      }
    }
  }
}
