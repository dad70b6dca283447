/** Writing a memtable out as a table file. */
module Flushing {
  import opened DbFormat
  import opened Versions
  import opened Inputs
  import opened Builder
  import opened VersionSet
  import opened LevelSteps

  const MAX_MEM_COMPACT_LEVEL: nat := 2

  ghost predicate NoOverlap(files: seq<File>, lo: UserKey, hi: UserKey) {
    forall g :: g in files ==> !Overlaps(g, Some(lo), Some(hi))
  }

  // A level for a memtable's table: 0, or deeper as long as nothing at or above that level overlaps it.
  ghost predicate Placeable(v: Version, level: nat, lo: UserKey, hi: UserKey) {
    && |v| == NUM_LEVELS && level <= MAX_MEM_COMPACT_LEVEL
    && (level > 0 ==> forall l :: 0 <= l <= level ==> NoOverlap(v[l], lo, hi))
  }

  // A level above the last one allowed has a reason: an overlap one level down, or too much data two levels down.
  ghost predicate StopsFor(v: Version, level: nat, lo: UserKey, hi: UserKey, maxGrandparentOverlap: nat)
    requires |v| == NUM_LEVELS && level <= MAX_MEM_COMPACT_LEVEL
  {
    level < MAX_MEM_COMPACT_LEVEL ==>
      || (level == 0 && !NoOverlap(v[0], lo, hi)) || !NoOverlap(v[level + 1], lo, hi)
      || TotalFileSize(Overlapping(v[level + 2], Some(lo), Some(hi))) > maxGrandparentOverlap
  }

  method PickLevelForMemTableOutput(v: Version, lo: UserKey, hi: UserKey, maxGrandparentOverlap: nat)
    returns (level: nat)
    requires Inv(v)
    ensures Placeable(v, level, lo, hi) && StopsFor(v, level, lo, hi, maxGrandparentOverlap)
  {
    assert forall l :: 0 <= l < NUM_LEVELS ==> LevelOk(l, v[l]);
    hide Inv;
    level := 0;
    var overlap := SomeFileOverlapsRange(false, v[0], Some(lo), Some(hi));
    if !overlap {
      while level < MAX_MEM_COMPACT_LEVEL
        invariant level <= MAX_MEM_COMPACT_LEVEL
        invariant forall l :: 0 <= l <= level ==> NoOverlap(v[l], lo, hi)
      {
        overlap := SomeFileOverlapsRange(true, v[level + 1], Some(lo), Some(hi));
        if overlap {
          break;
        }
        var overlaps, _, _ := GetOverlappingInputs(v[level + 2], level + 2, Some(lo), Some(hi));
        if TotalFileSize(overlaps) > maxGrandparentOverlap {
          break;
        }
        level := level + 1;
      }
    }
  }

  ghost predicate Flushed(v: Version, f: File, level: nat, r: Version) {
    && |v| == |r| == NUM_LEVELS && level < NUM_LEVELS
    && (forall l :: 0 <= l < NUM_LEVELS && l != level ==> r[l] == v[l])
    && IsListing(r[level], FileSet(v[level]) + {f})
  }

  ghost predicate NumbersBelow(v: Version, n: nat) {
    forall l, f :: 0 <= l < |v| && f in v[l] ==> f.number < n
  }

  lemma FlushedLevelOk(v: Version, f: File, level: nat, r: Version)
    requires Inv(v) && f.Valid() && Placeable(v, level, f.smallest.user, f.largest.user)
    requires Flushed(v, f, level, r) && NumbersBelow(v, f.number) && Newer(EntrySet(f.entries), LevelEntries(v[level]))
    ensures LevelOk(level, r[level])
  {
    var files, added := v[level], r[level];
    assert LevelOk(level, files);
    hide Inv;
    assert forall g :: g in added <==> g in files || g == f by {
      assert forall g :: g in added <==> g in FileSet(added);
    }
    if level == 0 {
      forall g | g in files ensures Newer(EntrySet(f.entries), EntrySet(g.entries)) {
        assert EntrySet(g.entries) <= LevelEntries(files);
        NewerSubsets(EntrySet(f.entries), LevelEntries(files), EntrySet(f.entries), EntrySet(g.entries));
      }
    } else {
      hide Newer;
      SortedIsApart(files);
      FileRange(f);
      assert NoOverlap(v[level], f.smallest.user, f.largest.user);
      ApartIsSorted(added);
    }
  }

  lemma NoOverlapIsNewer(files: seq<File>, f: File)
    requires FilesValid(files) && f.Valid() && NoOverlap(files, f.smallest.user, f.largest.user)
    ensures Newer(LevelEntries(files), EntrySet(f.entries))
  {
    forall d, e | d in LevelEntries(files) && e in EntrySet(f.entries) ensures d.key.user != e.key.user {
      var g :| g in files && d in g.entries;
      FileBounds(g, d);
      FileBounds(f, e);
    }
  }

  lemma FlushedEntries(v: Version, f: File, level: nat, r: Version)
    requires Flushed(v, f, level, r)
    ensures LevelEntries(r[level]) == LevelEntries(v[level]) + EntrySet(f.entries)
    ensures VersionEntries(r) == VersionEntries(v) + EntrySet(f.entries)
  {
    assert forall g :: g in r[level] <==> g in v[level] || g == f by {
      assert forall g :: g in r[level] <==> g in FileSet(r[level]);
    }
    forall e ensures e in LevelEntries(r[level]) <==> e in LevelEntries(v[level]) || e in f.entries {
      if e in f.entries {
        assert f in r[level];
      }
    }
    assert forall l :: 0 <= l < NUM_LEVELS ==> LevelEntries(r[l]) == LevelEntries(v[l]) + if l == level then EntrySet(f.entries) else {};
    hide LevelEntries;
    forall e ensures e in VersionEntries(r) <==> e in VersionEntries(v) || e in EntrySet(f.entries) {
      if e in EntrySet(f.entries) {
        assert e in LevelEntries(r[level]);
      }
    }
  }

  // A flush keeps the level invariant, at whichever level it was placed.
  lemma FlushKeepsInv(v: Version, f: File, level: nat, r: Version)
    requires Inv(v) && f.Valid() && Placeable(v, level, f.smallest.user, f.largest.user)
    requires Flushed(v, f, level, r) && NumbersBelow(v, f.number) && Newer(EntrySet(f.entries), VersionEntries(v))
    ensures Inv(r)
  {
    forall l | 0 <= l < NUM_LEVELS ensures Newer(EntrySet(f.entries), LevelEntries(v[l])) {
      assert LevelEntries(v[l]) <= VersionEntries(v);
      NewerSubsets(EntrySet(f.entries), VersionEntries(v), EntrySet(f.entries), LevelEntries(v[l]));
    }
    FlushedLevelOk(v, f, level, r);
    FlushedEntries(v, f, level, r);
    forall l, m | 0 <= l < m < NUM_LEVELS
      ensures Newer(LevelEntries(r[l]), LevelEntries(r[m])) && NumbersDisjoint(r[l], r[m])
    {
      assert Newer(LevelEntries(v[l]), LevelEntries(v[m])) && NumbersDisjoint(v[l], v[m]) && LevelOk(l, v[l]);
      hide Inv, LevelEntries, VersionEntries, LevelOk, Newer, NumbersDisjoint;
      FlushedPair(v, f, level, r, l, m);
    }
  }

  lemma FlushedPair(v: Version, f: File, level: nat, r: Version, l: nat, m: nat)
    requires |v| == NUM_LEVELS && l < m < NUM_LEVELS && LevelOk(l, v[l]) && f.Valid()
    requires Placeable(v, level, f.smallest.user, f.largest.user)
    requires Flushed(v, f, level, r) && NumbersBelow(v, f.number)
    requires Newer(LevelEntries(v[l]), LevelEntries(v[m])) && NumbersDisjoint(v[l], v[m])
    requires Newer(EntrySet(f.entries), LevelEntries(v[m]))
    ensures Newer(LevelEntries(r[l]), LevelEntries(r[m])) && NumbersDisjoint(r[l], r[m])
  {
    hide LevelEntries, LevelOk, Newer, NumbersDisjoint;
    FlushedEntries(v, f, level, r);
    FlushedNumbers(v, f, level, r, l, m);
    if l == level {
      NewerUnion(LevelEntries(v[l]), EntrySet(f.entries), LevelEntries(v[m]));
    } else if m == level {
      FlushedBelow(v, f, level, l);
      NewerUnion(LevelEntries(v[m]), EntrySet(f.entries), LevelEntries(v[l]));
    }
  }

  lemma FlushedBelow(v: Version, f: File, level: nat, l: nat)
    requires |v| == NUM_LEVELS && Placeable(v, level, f.smallest.user, f.largest.user) && l < level
    requires f.Valid() && LevelOk(l, v[l])
    ensures Newer(LevelEntries(v[l]), EntrySet(f.entries))
  {
    NoOverlapIsNewer(v[l], f);
  }

  lemma FlushedNumbers(v: Version, f: File, level: nat, r: Version, l: nat, m: nat)
    requires Flushed(v, f, level, r) && NumbersBelow(v, f.number) && l < m < NUM_LEVELS && NumbersDisjoint(v[l], v[m])
    ensures NumbersDisjoint(r[l], r[m])
  {
    hide SortedFiles;
    forall g, h | g in r[l] && h in r[m] ensures g.number != h.number {
      assert g in FileSet(r[l]) && h in FileSet(r[m]);
      assert g in v[l] || g == f;
      assert h in v[m] || h == f;
    }
  }

  method InstallFlush(v: Version, f: File, level: nat) returns (r: Version)
    requires Inv(v) && level < NUM_LEVELS && NumbersBelow(v, f.number)
    ensures Flushed(v, f, level, r)
  {
    var e := VersionEdit([], Tagged(level, [f]));
    forall l | 0 <= l < NUM_LEVELS
      ensures SortedFiles(v[l]) && AddedIn(e, l) == (if l == level then {f} else {}) && DeletedIn(e, l) == {}
      ensures Identify(FileSet(v[l]) + AddedIn(e, l)) && Numbers(AddedIn(e, l)) !! Numbers(FileSet(v[l]))
    {
      assert LevelOk(l, v[l]);
      AtTagged(level, [f], l);
    }
    hide Inv, LevelOk;
    r := LogAndApply(v, e);
    forall l | 0 <= l < NUM_LEVELS
      ensures l != level ==> r[l] == v[l]
      ensures l == level ==> IsListing(r[l], FileSet(v[l]) + {f})
    {
      assert EditLevel(FileSet(v[l]), e, l) == FileSet(v[l]) + AddedIn(e, l);
      if l != level {
        ListingUnique(r[l], v[l]);
      }
    }
  }
}
