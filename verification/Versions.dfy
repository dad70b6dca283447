/** One immutable version: table files in seven levels, and the lookup of one key in it. */
module Versions {
  import opened DbFormat

  datatype File = File(number: nat, size: nat, smallest: InternalKey, largest: InternalKey, entries: seq<Entry>) {
    ghost predicate Valid() {
      && |entries| > 0 && Sorted(entries)
      && smallest == entries[0].key && largest == entries[|entries| - 1].key
    }
  }

  type Version = seq<seq<File>>

  ghost function LevelEntries(files: seq<File>): set<Entry> {
    set f, e | f in files && e in f.entries :: e
  }

  ghost function VersionEntries(v: Version): set<Entry> {
    set l, e | 0 <= l < |v| && e in LevelEntries(v[l]) :: e
  }

  ghost predicate FilesValid(files: seq<File>) {
    forall f :: f in files ==> f.Valid()
  }

  // Disjoint internal-key ranges, in order.
  ghost predicate LevelSorted(files: seq<File>) {
    && (forall i :: 0 <= i < |files| ==> !Less(files[i].largest, files[i].smallest))
    && (forall i, j :: 0 <= i < j < |files| ==> Less(files[i].largest, files[j].smallest))
  }

  // For every user key in both, all of `xs` is newer than all of `ys`: it comes first in internal-key order.
  ghost predicate Newer(xs: set<Entry>, ys: set<Entry>) {
    forall d, e :: d in xs && e in ys && d.key.user == e.key.user ==> Less(d.key, e.key)
  }

  // Overlapping level-0 files are ordered by file number.
  ghost predicate NumberedByAge(files: seq<File>) {
    forall f, g :: f in files && g in files && f.number > g.number
      ==> Newer(EntrySet(f.entries), EntrySet(g.entries))
  }

  ghost predicate NumbersDistinct(files: seq<File>) {
    forall f, g :: f in files && g in files && f.number == g.number ==> f == g
  }

  // The order of the file lists of a version: smallest key, then number.
  predicate BySmallest(f: File, g: File) {
    Less(f.smallest, g.smallest) || (f.smallest == g.smallest && f.number < g.number)
  }

  ghost predicate SortedFiles(files: seq<File>) {
    forall i, j :: 0 <= i < j < |files| ==> BySmallest(files[i], files[j])
  }

  ghost predicate NumbersDisjoint(fs: seq<File>, gs: seq<File>) {
    forall f, g :: f in fs && g in gs ==> f.number != g.number
  }

  ghost predicate LevelOk(l: nat, files: seq<File>) {
    && FilesValid(files) && NumbersDistinct(files) && SortedFiles(files)
    && (l == 0 ==> NumberedByAge(files))
    && (l > 0 ==> LevelSorted(files))
  }

  // The level invariant: deeper levels are sorted and disjoint, and newer data is shallower.
  ghost predicate Inv(v: Version) {
    && |v| == NUM_LEVELS
    && (forall l :: 0 <= l < NUM_LEVELS ==> LevelOk(l, v[l]))
    && (forall l, m :: 0 <= l < m < NUM_LEVELS ==>
          Newer(LevelEntries(v[l]), LevelEntries(v[m])) && NumbersDisjoint(v[l], v[m]))
  }

  lemma FileBounds(f: File, e: Entry)
    requires f.Valid() && e in f.entries
    ensures !Less(e.key, f.smallest) && !Less(f.largest, e.key)
    ensures f.smallest.user <= e.key.user <= f.largest.user
  {
  }

  lemma FileRange(f: File)
    requires f.Valid()
    ensures !Less(f.largest, f.smallest) && f.smallest.user <= f.largest.user
  {
    FileBounds(f, f.entries[0]);
  }

  lemma LargestIncreasing(files: seq<File>, i: nat, j: nat)
    requires LevelSorted(files) && i < j < |files|
    ensures Less(files[i].largest, files[j].largest) && Less(files[i].smallest, files[j].smallest)
    ensures files[i].smallest.user <= files[i].largest.user <= files[j].smallest.user <= files[j].largest.user
  {
  }

  lemma PositionsInOrder(files: seq<File>, f: File, g: File)
    requires LevelSorted(files) && f in files && g in files && Less(f.smallest, g.smallest)
    ensures f.smallest.user <= f.largest.user <= g.smallest.user <= g.largest.user
    ensures Less(f.largest, g.smallest)
  {
    var i: nat :| i < |files| && files[i] == f;
    var j: nat :| j < |files| && files[j] == g;
    if i < j {
      LargestIncreasing(files, i, j);
    }
  }

  // In a sorted level, entries of an earlier file precede entries of a later one.
  lemma FilesInOrder(files: seq<File>, i: nat, j: nat, d: Entry, e: Entry)
    requires FilesValid(files) && LevelSorted(files) && i < j < |files|
    requires d in files[i].entries && e in files[j].entries
    ensures Less(d.key, e.key)
  {
    FileBounds(files[i], d);
    FileBounds(files[j], e);
  }

  // Index of the first file whose largest key is at or after `key`.
  method FindFile(files: seq<File>, key: InternalKey) returns (right: nat)
    requires LevelSorted(files)
    ensures right <= |files|
    ensures forall i :: 0 <= i < right ==> Less(files[i].largest, key)
    ensures forall i :: right <= i < |files| ==> !Less(files[i].largest, key)
  {
    var left := 0;
    right := |files|;
    while left < right
      invariant left <= right <= |files|
      invariant forall i :: 0 <= i < left ==> Less(files[i].largest, key)
      invariant forall i :: right <= i < |files| ==> !Less(files[i].largest, key)
    {
      var mid := (left + right) / 2;
      if Less(files[mid].largest, key) {
        forall i | 0 <= i < mid ensures Less(files[i].largest, key) {
          LargestIncreasing(files, i, mid);
        }
        left := mid + 1;
      } else {
        forall i | mid < i < |files| ensures !Less(files[i].largest, key) {
          LargestIncreasing(files, mid, i);
        }
        right := mid;
      }
    }
  }

  predicate AfterFile(u: Option<UserKey>, f: File) {
    u.Some? && u.value > f.largest.user
  }

  predicate BeforeFile(u: Option<UserKey>, f: File) {
    u.Some? && u.value < f.smallest.user
  }

  predicate Overlaps(f: File, lo: Option<UserKey>, hi: Option<UserKey>) {
    !AfterFile(lo, f) && !BeforeFile(hi, f)
  }

  method SomeFileOverlapsRange(disjointSorted: bool, files: seq<File>, lo: Option<UserKey>, hi: Option<UserKey>)
    returns (r: bool)
    requires disjointSorted ==> LevelSorted(files)
    ensures r <==> exists f :: f in files && Overlaps(f, lo, hi)
  {
    if !disjointSorted {
      for i := 0 to |files|
        invariant forall k :: 0 <= k < i ==> !Overlaps(files[k], lo, hi)
      {
        if AfterFile(lo, files[i]) || BeforeFile(hi, files[i]) {
        } else {
          assert files[i] in files && Overlaps(files[i], lo, hi);
          return true;
        }
      }
      return false;
    }
    var index := 0;
    if lo.Some? {
      index := FindFile(files, SeekKey(lo.value, MAX_SEQUENCE));
    }
    if index >= |files| {
      return false;
    }
    assert !AfterFile(lo, files[index]);
    forall f | f in files && Overlaps(f, lo, hi) ensures Overlaps(files[index], lo, hi) {
      var k :| 0 <= k < |files| && files[k] == f;
      if k > index {
        LargestIncreasing(files, index, k);
      }
    }
    assert files[index] in files;
    r := !BeforeFile(hi, files[index]);
  }

  // Position of the first entry at or after `k`: where a table or memtable seek lands.
  function LowerBound(es: seq<Entry>, k: InternalKey): (r: nat)
    ensures r <= |es|
    ensures forall i :: 0 <= i < r ==> Less(es[i].key, k)
    ensures r < |es| ==> !Less(es[r].key, k)
  {
    if es == [] || !Less(es[0].key, k) then 0 else 1 + LowerBound(es[1..], k)
  }

  // ---- Adding to a sorted source ----------------------------------------------------------------------------------

  lemma OrderedBy(es: seq<Entry>, i: nat, j: nat)
    requires Sorted(es) && i < |es| && j < |es|
    ensures Less(es[i].key, es[j].key) <==> i < j
  {
    if i < j {
    } else if j < i {
      assert Less(es[j].key, es[i].key);
    }
  }

  function InsertEntry(es: seq<Entry>, e: Entry): seq<Entry> {
    var p := LowerBound(es, e.key);
    es[..p] + [e] + es[p..]
  }

  lemma EntrySetConcat(a: seq<Entry>, b: seq<Entry>)
    ensures EntrySet(a + b) == EntrySet(a) + EntrySet(b)
  {
  }

  lemma SortedConcat(a: seq<Entry>, e: Entry, b: seq<Entry>)
    requires Sorted(a) && Sorted(b)
    requires forall i :: 0 <= i < |a| ==> Less(a[i].key, e.key)
    requires forall i :: 0 <= i < |b| ==> Less(e.key, b[i].key)
    ensures Sorted(a + [e] + b)
  {
    var r := a + [e] + b;
    forall i, j | 0 <= i < j < |r| ensures Less(r[i].key, r[j].key) {
    }
  }

  lemma SplitSorted(es: seq<Entry>, p: nat)
    requires Sorted(es) && p <= |es|
    ensures Sorted(es[..p]) && Sorted(es[p..])
  {
  }

  lemma PastBound(es: seq<Entry>, e: Entry, i: nat)
    requires Sorted(es) && LowerBound(es, e.key) <= i < |es| && es[i].key != e.key
    ensures Less(e.key, es[i].key)
  {
    LessIsTotal(e.key, es[i].key);
    OrderedBy(es, LowerBound(es, e.key), i);
  }

  lemma InsertEntrySorted(es: seq<Entry>, e: Entry)
    requires Sorted(es) && forall d :: d in es ==> d.key != e.key
    ensures Sorted(InsertEntry(es, e)) && EntrySet(InsertEntry(es, e)) == EntrySet(es) + {e}
  {
    var p := LowerBound(es, e.key);
    SplitSorted(es, p);
    assert forall i :: 0 <= i < p ==> Less(es[i].key, e.key);
    forall i | p <= i < |es| ensures Less(e.key, es[i].key) {
      assert es[i] in es;
      PastBound(es, e, i);
    }
    hide Sorted, Less, LowerBound;
    SortedConcat(es[..p], e, es[p..]);
    InsertedSet(es, p, e);
  }

  lemma InsertedSet(es: seq<Entry>, p: nat, e: Entry)
    requires p <= |es|
    ensures EntrySet(es[..p] + [e] + es[p..]) == EntrySet(es) + {e}
  {
    assert es == es[..p] + es[p..];
    EntrySetConcat(es[..p], es[p..]);
    EntrySetConcat(es[..p], [e]);
    EntrySetConcat(es[..p] + [e], es[p..]);
    assert EntrySet([e]) == {e};
  }

  // One sorted source: seek, then keep the entry found only if it has the wanted user key.
  method Probe(es: seq<Entry>, u: UserKey, s: Sequence) returns (r: Option<Entry>)
    requires Sorted(es)
    ensures r.Some? ==> Newest(EntrySet(es), u, s, r.value)
    ensures r.None? ==> NoneSeen(EntrySet(es), u, s)
  {
    var i := LowerBound(es, SeekKey(u, s));
    if i < |es| && es[i].key.user == u {
      r := Some(es[i]);
    } else {
      r := None;
    }
  }

  // A hit in a newer source is the newest of both sources; a miss leaves the older source to decide.
  lemma NewestInNewer(xs: set<Entry>, ys: set<Entry>, u: UserKey, s: Sequence, e: Entry)
    requires Newer(xs, ys) && Newest(xs, u, s, e)
    ensures Newest(xs + ys, u, s, e)
  {
  }

  ghost predicate NewestFirst(files: seq<File>) {
    forall i, j :: 0 <= i < j < |files| ==> files[i].number >= files[j].number
  }

  method InsertNewestFirst(files: seq<File>, f: File) returns (r: seq<File>)
    requires NewestFirst(files)
    ensures NewestFirst(r) && forall x :: x in r <==> x == f || x in files
  {
    var k := 0;
    while k < |files| && files[k].number > f.number
      invariant k <= |files|
      invariant forall i :: 0 <= i < k ==> files[i].number > f.number
    {
      k := k + 1;
    }
    r := files[..k] + [f] + files[k..];
    assert files == files[..k] + files[k..];
  }

  method SortNewestFirst(files: seq<File>) returns (r: seq<File>)
    ensures NewestFirst(r) && forall f :: f in r <==> f in files
  {
    hide NewestFirst;
    r := [];
    assert NewestFirst(r) by {
      NoneIsNewestFirst();
    }
    for n := 0 to |files|
      invariant NewestFirst(r) && forall f :: f in r <==> f in files[..n]
    {
      assert files[..n + 1] == files[..n] + [files[n]];
      r := InsertNewestFirst(r, files[n]);
    }
  }

  lemma NoneIsNewestFirst()
    ensures NewestFirst([])
  {
  }
}
