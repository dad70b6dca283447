/** Choosing the input files of a compaction. */
module Inputs {
  import opened DbFormat
  import opened Versions

  // The files of a level that overlap a user-key range, in level order.
  function Overlapping(files: seq<File>, lo: Option<UserKey>, hi: Option<UserKey>): (r: seq<File>)
    ensures forall f :: f in r <==> f in files && Overlaps(f, lo, hi)
  {
    if files == [] then [] else
    var n := |files| - 1;
    Overlapping(files[..n], lo, hi) + if Overlaps(files[n], lo, hi) then [files[n]] else []
  }

  lemma OverlappingAppend(files: seq<File>, i: nat, lo: Option<UserKey>, hi: Option<UserKey>)
    requires i < |files|
    ensures Overlapping(files[..i + 1], lo, hi)
         == Overlapping(files[..i], lo, hi) + if Overlaps(files[i], lo, hi) then [files[i]] else []
  {
    assert files[..i + 1][..i] == files[..i];
  }

  lemma {:induction false} OverlappingSorted(files: seq<File>, lo: Option<UserKey>, hi: Option<UserKey>)
    requires LevelSorted(files)
    ensures LevelSorted(Overlapping(files, lo, hi))
  {
    if files != [] {
      var n := |files| - 1;
      OverlappingSorted(files[..n], lo, hi);
      var before := Overlapping(files[..n], lo, hi);
      forall i | 0 <= i < |before| ensures Less(before[i].largest, files[n].smallest) {
        assert before[i] in files[..n];
        var k :| 0 <= k < n && files[k] == before[i];
      }
    }
  }

  lemma {:induction false} OverlappingListed(files: seq<File>, lo: Option<UserKey>, hi: Option<UserKey>)
    requires SortedFiles(files)
    ensures SortedFiles(Overlapping(files, lo, hi))
  {
    if files != [] {
      var n := |files| - 1;
      OverlappingListed(files[..n], lo, hi);
      var before := Overlapping(files[..n], lo, hi);
      forall i | 0 <= i < |before| ensures BySmallest(before[i], files[n]) {
        assert before[i] in files[..n];
        var k :| 0 <= k < n && files[k] == before[i];
      }
    }
  }

  lemma SortedIsListed(files: seq<File>)
    requires LevelSorted(files)
    ensures SortedFiles(files)
  {
    forall i, j | 0 <= i < j < |files| ensures BySmallest(files[i], files[j]) {
      LargestIncreasing(files, i, j);
    }
  }

  // Files of one level in an order in which they can be read.
  ghost predicate Ordered(level: nat, files: seq<File>) {
    SortedFiles(files) && (level > 0 ==> LevelSorted(files))
  }

  lemma OverlappingOrdered(level: nat, files: seq<File>, lo: Option<UserKey>, hi: Option<UserKey>)
    requires LevelOk(level, files)
    ensures Ordered(level, Overlapping(files, lo, hi))
  {
    OverlappingListed(files, lo, hi);
    if level > 0 {
      OverlappingSorted(files, lo, hi);
    }
  }

  // ---- Level-0 closure -------------------------------------------------------------------------

  ghost predicate NotAbove(x: Option<UserKey>, y: Option<UserKey>) {
    x.None? || (y.Some? && x.value <= y.value)
  }

  ghost predicate NotBelow(x: Option<UserKey>, y: Option<UserKey>) {
    x.None? || (y.Some? && x.value >= y.value)
  }

  predicate Inside(f: File, lo: Option<UserKey>, hi: Option<UserKey>) {
    (lo.Some? ==> lo.value <= f.smallest.user) && (hi.Some? ==> f.largest.user <= hi.value)
  }

  // No file sticks out of the range it overlaps.
  ghost predicate RangeClosed(files: seq<File>, lo: Option<UserKey>, hi: Option<UserKey>) {
    forall f :: f in files && Overlaps(f, lo, hi) ==> Inside(f, lo, hi)
  }

  lemma ClosedAppend(files: seq<File>, i: nat, lo: Option<UserKey>, hi: Option<UserKey>)
    requires i < |files| && RangeClosed(files[..i], lo, hi)
    ensures !Overlaps(files[i], lo, hi) || Inside(files[i], lo, hi) ==> RangeClosed(files[..i + 1], lo, hi)
  {
    assert files[..i + 1] == files[..i] + [files[i]];
  }

  ghost predicate WithinEveryClosed(files: seq<File>, begin: Option<UserKey>, end: Option<UserKey>,
                                    lo: Option<UserKey>, hi: Option<UserKey>) {
    forall x, y :: NotAbove(x, begin) && NotBelow(y, end) && RangeClosed(files, x, y)
      ==> NotAbove(x, lo) && NotBelow(y, hi)
  }

  // (lo, hi) is the least range around (begin, end) that is closed under overlap with `files`.
  ghost predicate LeastClosed(files: seq<File>, begin: Option<UserKey>, end: Option<UserKey>,
                              lo: Option<UserKey>, hi: Option<UserKey>) {
    && NotAbove(lo, begin) && NotBelow(hi, end)
    && RangeClosed(files, lo, hi)
    && WithinEveryClosed(files, begin, end, lo, hi)
  }

  // How many file ends lie outside a range: what each restart of the level-0 search reduces.
  ghost function Outside(files: seq<File>, lo: Option<UserKey>, hi: Option<UserKey>): nat {
    if files == [] then 0 else
    Outside(files[1..], lo, hi)
    + (if lo.Some? && files[0].smallest.user < lo.value then 1 else 0)
    + (if hi.Some? && files[0].largest.user > hi.value then 1 else 0)
  }

  lemma {:induction false} OutsideShrinks(files: seq<File>, lo: Option<UserKey>, hi: Option<UserKey>,
                                          lo': Option<UserKey>, hi': Option<UserKey>, f: File)
    requires lo'.Some? == lo.Some? && hi'.Some? == hi.Some?
    requires (lo.Some? ==> lo'.value <= lo.value) && (hi.Some? ==> hi'.value >= hi.value)
    ensures Outside(files, lo', hi') <= Outside(files, lo, hi)
    ensures f in files && lo.Some? && lo'.value == f.smallest.user < lo.value
      ==> Outside(files, lo', hi') < Outside(files, lo, hi)
    ensures f in files && hi.Some? && hi'.value == f.largest.user > hi.value
      ==> Outside(files, lo', hi') < Outside(files, lo, hi)
  {
    if files != [] {
      OutsideShrinks(files[1..], lo, hi, lo', hi', f);
      assert files == [files[0]] + files[1..];
    }
  }

  // A file that overlaps the current range and sticks out of it moves the range; every closed range
  // around the request contains the moved range too.
  lemma WidenIsForced(files: seq<File>, begin: Option<UserKey>, end: Option<UserKey>,
                      lo: Option<UserKey>, hi: Option<UserKey>, f: File)
    requires WithinEveryClosed(files, begin, end, lo, hi)
    requires f in files && Overlaps(f, lo, hi)
    ensures lo.Some? ==> WithinEveryClosed(files, begin, end, Some(f.smallest.user), hi) || f.smallest.user >= lo.value
    ensures hi.Some? ==> WithinEveryClosed(files, begin, end, lo, Some(f.largest.user)) || f.largest.user <= hi.value
  {
    forall x, y | NotAbove(x, begin) && NotBelow(y, end) && RangeClosed(files, x, y)
      ensures lo.Some? ==> NotAbove(x, Some(f.smallest.user))
      ensures hi.Some? ==> NotBelow(y, Some(f.largest.user))
    {
      assert NotAbove(x, lo) && NotBelow(y, hi);
      assert Overlaps(f, x, y);
    }
  }

  // The files of one level that overlap [begin, end]. At level 0 the range grows with every file found
  // to stick out of it and the search restarts; (lo, hi) is the range the search ends with.
  method GetOverlappingInputs(files: seq<File>, level: nat, begin: Option<UserKey>, end: Option<UserKey>)
    returns (inputs: seq<File>, lo: Option<UserKey>, hi: Option<UserKey>)
    ensures inputs == Overlapping(files, lo, hi)
    ensures level > 0 ==> lo == begin && hi == end
    ensures level == 0 ==> LeastClosed(files, begin, end, lo, hi)
  {
    inputs := [];
    lo, hi := begin, end;
    var i := 0;
    while i < |files|
      invariant i <= |files|
      invariant inputs == Overlapping(files[..i], lo, hi)
      invariant lo.Some? == begin.Some? && hi.Some? == end.Some?
      invariant NotAbove(lo, begin) && NotBelow(hi, end)
      invariant level > 0 ==> lo == begin && hi == end
      invariant level == 0 ==> RangeClosed(files[..i], lo, hi) && WithinEveryClosed(files, begin, end, lo, hi)
      decreases Outside(files, lo, hi), |files| - i
    {
      var f := files[i];
      OverlappingAppend(files, i, lo, hi);
      if level == 0 {
        ClosedAppend(files, i, lo, hi);
      }
      i := i + 1;
      if lo.Some? && f.largest.user < lo.value {
      } else if hi.Some? && f.smallest.user > hi.value {
      } else {
        inputs := inputs + [f];
        if level == 0 {
          WidenIsForced(files, begin, end, lo, hi, f);
          if lo.Some? && f.smallest.user < lo.value {
            OutsideShrinks(files, lo, hi, Some(f.smallest.user), hi, f);
            lo, inputs, i := Some(f.smallest.user), [], 0;
          } else if hi.Some? && f.largest.user > hi.value {
            OutsideShrinks(files, lo, hi, lo, Some(f.largest.user), f);
            hi, inputs, i := Some(f.largest.user), [], 0;
          }
        }
      }
    }
    assert files[..i] == files;
  }

  // What the search for a range finds: at level 0 all that overlaps the least closed range around it.
  ghost predicate InRange(level: nat, files: seq<File>, begin: Option<UserKey>, end: Option<UserKey>, r: seq<File>) {
    if level > 0 then r == Overlapping(files, begin, end)
    else exists lo, hi :: LeastClosed(files, begin, end, lo, hi) && r == Overlapping(files, lo, hi)
  }

  // ---- Key ranges of file lists ------------------------------------------------------------------

  ghost predicate IsSmallest(files: seq<File>, k: InternalKey) {
    (exists f :: f in files && f.smallest == k) && forall f :: f in files ==> !Less(f.smallest, k)
  }

  ghost predicate IsLargest(files: seq<File>, k: InternalKey) {
    (exists f :: f in files && f.largest == k) && forall f :: f in files ==> !Less(k, f.largest)
  }

  method GetRange(inputs: seq<File>) returns (smallest: InternalKey, largest: InternalKey)
    requires inputs != []
    ensures IsSmallest(inputs, smallest) && IsLargest(inputs, largest)
  {
    smallest, largest := inputs[0].smallest, inputs[0].largest;
    for i := 1 to |inputs|
      invariant IsSmallest(inputs[..i], smallest) && IsLargest(inputs[..i], largest)
    {
      assert inputs[..i + 1] == inputs[..i] + [inputs[i]];
      if Less(inputs[i].smallest, smallest) {
        smallest := inputs[i].smallest;
      }
      if Less(largest, inputs[i].largest) {
        largest := inputs[i].largest;
      }
      assert inputs[i] in inputs[..i + 1];
    }
    assert inputs[..|inputs|] == inputs;
  }

  function TotalFileSize(files: seq<File>): nat {
    if files == [] then 0 else files[0].size + TotalFileSize(files[1..])
  }

  // ---- Boundary files ------------------------------------------------------------------------------

  // `g` begins after `k` but with the same user key: it holds older entries of that key.
  predicate StartsPast(g: File, k: InternalKey) {
    Less(k, g.smallest) && g.smallest.user == k.user
  }

  ghost predicate IsBoundary(files: seq<File>, k: InternalKey, g: File) {
    && g in files && StartsPast(g, k)
    && forall h :: h in files && StartsPast(h, k) ==> !Less(h.smallest, g.smallest)
  }

  ghost predicate NoBoundary(files: seq<File>, k: InternalKey) {
    forall g :: g in files ==> !StartsPast(g, k)
  }

  method FindSmallestBoundaryFile(files: seq<File>, k: InternalKey) returns (r: Option<File>)
    ensures r.None? ==> NoBoundary(files, k)
    ensures r.Some? ==> IsBoundary(files, k, r.value)
  {
    r := None;
    for i := 0 to |files|
      invariant r.None? ==> NoBoundary(files[..i], k)
      invariant r.Some? ==> IsBoundary(files[..i], k, r.value)
    {
      assert files[..i + 1] == files[..i] + [files[i]];
      if StartsPast(files[i], k) {
        if r.None? || Less(files[i].smallest, r.value.smallest) {
          r := Some(files[i]);
        }
      }
    }
    assert files[..|files|] == files;
  }

  // No file of the level lies strictly between two chosen ones.
  ghost predicate Convex(files: seq<File>, chosen: seq<File>) {
    forall f, g, h :: f in chosen && h in chosen && g in files ==>
      Less(f.smallest, g.smallest) && Less(g.smallest, h.smallest) ==> g in chosen
  }

  ghost function CountAfter(files: seq<File>, k: InternalKey): nat {
    if files == [] then 0 else CountAfter(files[1..], k) + if Less(k, files[0].smallest) then 1 else 0
  }

  lemma {:induction false} CountAfterShrinks(files: seq<File>, k: InternalKey, k': InternalKey, g: File)
    requires Less(k, k')
    ensures CountAfter(files, k') <= CountAfter(files, k)
    ensures g in files && Less(k, g.smallest) && !Less(k', g.smallest) ==> CountAfter(files, k') < CountAfter(files, k)
  {
    if files != [] {
      CountAfterShrinks(files[1..], k, k', g);
      assert files == [files[0]] + files[1..];
    }
  }

  lemma ConvexExtends(files: seq<File>, chosen: seq<File>, k: InternalKey, b: File)
    requires Ranged(files) && LevelSorted(files) && Convex(files, chosen)
    requires forall f :: f in chosen ==> f in files
    requires IsLargest(chosen, k) && IsBoundary(files, k, b)
    ensures Convex(files, chosen + [b])
  {
    forall f, g, h | f in chosen + [b] && h in chosen + [b] && g in files
      && Less(f.smallest, g.smallest) && Less(g.smallest, h.smallest)
      ensures g in chosen + [b]
    {
      if g !in chosen {
        if Less(k, g.smallest) {
          NothingFollows(files, chosen, k, b, g, h);
          assert false;
        } else {
          assert f in chosen;
          EndsBefore(files, chosen, k, g);
        }
      }
    }
  }

  // A file past every chosen one is no earlier than the boundary file, if a chosen one or the boundary
  // file comes with its user key or later.
  lemma NothingFollows(files: seq<File>, chosen: seq<File>, k: InternalKey, b: File, g: File, h: File)
    requires Ranged(files) && (forall f :: f in chosen ==> f in files)
    requires IsLargest(chosen, k) && IsBoundary(files, k, b)
    requires g in files && Less(k, g.smallest) && h in chosen + [b]
    ensures !Less(g.smallest, h.smallest)
  {
    if h in chosen {
      assert !Less(k, h.largest) && !Less(h.largest, h.smallest);
    } else if g.smallest.user == k.user {
      assert StartsPast(g, k);
    }
  }

  // A file that does not start past the largest chosen key lies before a chosen one.
  lemma EndsBefore(files: seq<File>, chosen: seq<File>, k: InternalKey, g: File)
    requires LevelSorted(files) && (forall f :: f in chosen ==> f in files) && IsLargest(chosen, k)
    requires g in files && g !in chosen && !Less(k, g.smallest)
    ensures exists m :: m in chosen && Less(g.smallest, m.smallest)
  {
    var m :| m in chosen && m.largest == k;
    var i :| 0 <= i < |files| && files[i] == m;
    var j :| 0 <= j < |files| && files[j] == g;
    if j < i {
      LargestIncreasing(files, j, i);
    }
  }

  // Every file of the level that begins with the largest user key of `chosen` is chosen already.
  ghost predicate HasAllStarts(files: seq<File>, chosen: seq<File>) {
    forall k, g :: IsLargest(chosen, k) && g in files && g.smallest.user == k.user ==> g in chosen
  }

  ghost predicate Ranged(files: seq<File>) {
    forall f :: f in files ==> !Less(f.largest, f.smallest)
  }

  lemma ValidRanged(files: seq<File>)
    requires FilesValid(files)
    ensures Ranged(files)
  {
    forall f | f in files ensures !Less(f.largest, f.smallest) {
      FileRange(f);
    }
  }

  lemma BoundaryStep(files: seq<File>, chosen: seq<File>, k: InternalKey, b: File)
    requires Ranged(files) && IsLargest(chosen, k) && IsBoundary(files, k, b)
    requires forall f :: f in chosen ==> f in files
    ensures b !in chosen && IsLargest(chosen + [b], b.largest)
    ensures CountAfter(files, b.largest) < CountAfter(files, k)
  {
    LessIsTotal(b.smallest, b.largest);
    CountAfterShrinks(files, k, b.largest, b);
    assert b in chosen + [b];
  }

  lemma BoundaryInOrder(files: seq<File>, chosen: seq<File>, k: InternalKey, b: File)
    requires Ranged(files) && LevelSorted(chosen) && IsLargest(chosen, k) && IsBoundary(files, k, b)
    ensures LevelSorted(chosen + [b])
  {
    forall i | 0 <= i < |chosen| ensures Less(chosen[i].largest, b.smallest) {
      assert chosen[i] in chosen;
    }
  }

  ghost predicate IsNextBoundary(files: seq<File>, before: seq<File>, b: File) {
    exists k :: IsLargest(before, k) && IsBoundary(files, k, b)
  }

  // Each added file is the boundary file of those before it.
  ghost predicate BoundaryChain(files: seq<File>, chosen: seq<File>, r: seq<File>) {
    && chosen <= r
    && forall i :: |chosen| <= i < |r| ==> IsNextBoundary(files, r[..i], r[i])
  }

  // Boundary files are added until there is none.
  ghost predicate Completed(files: seq<File>, chosen: seq<File>, r: seq<File>) {
    BoundaryChain(files, chosen, r) && exists k :: IsLargest(r, k) && NoBoundary(files, k)
  }

  lemma ChainGrows(files: seq<File>, chosen: seq<File>, r: seq<File>, k: InternalKey, b: File)
    requires BoundaryChain(files, chosen, r) && IsLargest(r, k) && IsBoundary(files, k, b)
    ensures BoundaryChain(files, chosen, r + [b])
  {
    var longer := r + [b];
    forall i | |chosen| <= i < |longer| ensures IsNextBoundary(files, longer[..i], longer[i]) {
      if i < |r| {
        assert longer[..i] == r[..i];
      } else {
        assert longer[..i] == r;
      }
    }
  }

  method AddBoundaryInputs(files: seq<File>, chosen: seq<File>) returns (r: seq<File>, largest: Option<InternalKey>)
    requires Ranged(files) && forall f :: f in chosen ==> f in files
    ensures BoundaryChain(files, chosen, r) && forall f :: f in r ==> f in files
    ensures largest.Some? <==> chosen != []
    ensures chosen == [] ==> r == []
    ensures chosen != [] ==> IsLargest(r, largest.value) && NoBoundary(files, largest.value)
    ensures LevelSorted(files) && Convex(files, chosen) ==> Convex(files, r)
    ensures LevelSorted(chosen) ==> LevelSorted(r)
    ensures HasAllStarts(files, chosen) ==> r == chosen
  {
    r, largest := chosen, None;
    if chosen == [] {
      return;
    }
    var _, k := GetRange(chosen);
    var continueSearching := true;
    while continueSearching
      invariant BoundaryChain(files, chosen, r) && forall f :: f in r ==> f in files
      invariant IsLargest(r, k)
      invariant !continueSearching ==> NoBoundary(files, k)
      invariant LevelSorted(files) && Convex(files, chosen) ==> Convex(files, r)
      invariant LevelSorted(chosen) ==> LevelSorted(r)
      invariant HasAllStarts(files, chosen) ==> r == chosen
      decreases continueSearching, CountAfter(files, k)
    {
      var b := FindSmallestBoundaryFile(files, k);
      if b.Some? {
        BoundaryStep(files, r, k, b.value);
        ChainGrows(files, chosen, r, k, b.value);
        if LevelSorted(files) && Convex(files, chosen) {
          ConvexExtends(files, r, k, b.value);
        }
        if LevelSorted(chosen) {
          BoundaryInOrder(files, r, k, b.value);
        }
        r, k := r + [b.value], b.value.largest;
      } else {
        continueSearching := false;
      }
    }
    largest := Some(k);
  }

  // ---- The whole choice ------------------------------------------------------------------------------

  // Files of one level and the level below it that are compacted together; [smallest, largest] is the
  // range of `inputs0`.
  datatype Choice = Choice(level: nat, inputs0: seq<File>, inputs1: seq<File>,
                           smallest: InternalKey, largest: InternalKey)

  // What is left of the level is newer than what is taken from it.
  ghost predicate LeavesNewer(files: seq<File>, chosen: seq<File>) {
    forall f, g :: f in chosen && g in files && g !in chosen ==> Newer(EntrySet(g.entries), EntrySet(f.entries))
  }

  ghost predicate GoodLevels(files: seq<File>, below: seq<File>, c: Choice) {
    && c.inputs0 != [] && (forall f :: f in c.inputs0 ==> f in files)
    && LeavesNewer(files, c.inputs0)
    && IsSmallest(c.inputs0, c.smallest) && IsLargest(c.inputs0, c.largest)
    && c.inputs1 == Overlapping(below, Some(c.smallest.user), Some(c.largest.user))
  }

  ghost predicate GoodChoice(v: Version, c: Choice) {
    |v| == NUM_LEVELS && c.level + 1 < NUM_LEVELS && GoodLevels(v[c.level], v[c.level + 1], c)
  }

  // A level-0 choice that shares no user key with the rest of level 0.
  ghost predicate Isolated(files: seq<File>, chosen: seq<File>) {
    exists lo, hi :: chosen == Overlapping(files, lo, hi) && RangeClosed(files, lo, hi)
  }

  ghost predicate Pickable(level: nat, files: seq<File>, chosen: seq<File>) {
    && chosen != [] && (forall f :: f in chosen ==> f in files) && Ordered(level, chosen)
    && (level == 0 ==> Isolated(files, chosen))
    && (level > 0 ==> Convex(files, chosen))
  }

  lemma ApartIsNewer(f: File, g: File)
    requires f.Valid() && g.Valid()
    requires f.largest.user < g.smallest.user || g.largest.user < f.smallest.user
    ensures Newer(EntrySet(g.entries), EntrySet(f.entries))
  {
    forall d | d in g.entries ensures g.smallest.user <= d.key.user <= g.largest.user {
      FileBounds(g, d);
    }
    forall e | e in f.entries ensures f.smallest.user <= e.key.user <= f.largest.user {
      FileBounds(f, e);
    }
  }

  lemma IsolatedLeavesNewer(files: seq<File>, chosen: seq<File>)
    requires FilesValid(files) && Isolated(files, chosen)
    ensures LeavesNewer(files, chosen) && HasAllStarts(files, chosen)
  {
    var lo, hi :| chosen == Overlapping(files, lo, hi) && RangeClosed(files, lo, hi);
    forall f, g | f in chosen && g in files && g !in chosen ensures Newer(EntrySet(g.entries), EntrySet(f.entries)) {
      assert Inside(f, lo, hi) && !Overlaps(g, lo, hi);
      ApartIsNewer(f, g);
    }
    forall k, g | IsLargest(chosen, k) && g in files && g.smallest.user == k.user ensures g in chosen {
      var m :| m in chosen && m.largest == k;
      FileRange(g);
      FileRange(m);
      assert Inside(m, lo, hi) && Overlaps(g, lo, hi);
    }
  }

  lemma EarlierIsNewer(files: seq<File>, i: nat, j: nat)
    requires FilesValid(files) && LevelSorted(files) && i < j < |files|
    ensures Newer(EntrySet(files[i].entries), EntrySet(files[j].entries))
  {
    forall d, e | d in files[i].entries && e in files[j].entries ensures Less(d.key, e.key) {
      FilesInOrder(files, i, j, d, e);
    }
  }

  lemma ConvexLeavesNewer(files: seq<File>, chosen: seq<File>, k: InternalKey)
    requires FilesValid(files) && LevelSorted(files) && Convex(files, chosen)
    requires (forall f :: f in chosen ==> f in files) && IsLargest(chosen, k) && NoBoundary(files, k)
    ensures LeavesNewer(files, chosen)
  {
    forall f, g | f in chosen && g in files && g !in chosen ensures Newer(EntrySet(g.entries), EntrySet(f.entries)) {
      var i :| 0 <= i < |files| && files[i] == f;
      var j :| 0 <= j < |files| && files[j] == g;
      if j < i {
        EarlierIsNewer(files, j, i);
      } else {
        LeftBehindIsApart(files, chosen, k, i, j);
        ApartIsNewer(f, g);
      }
    }
  }

  // A file after a chosen one that was not chosen shares no user key with it.
  lemma LeftBehindIsApart(files: seq<File>, chosen: seq<File>, k: InternalKey, i: nat, j: nat)
    requires LevelSorted(files) && Convex(files, chosen)
    requires (forall f :: f in chosen ==> f in files) && IsLargest(chosen, k) && NoBoundary(files, k)
    requires i < j < |files| && files[i] in chosen && files[j] !in chosen
    ensures files[i].largest.user < files[j].smallest.user
  {
    LargestIncreasing(files, i, j);
    var f, g := files[i], files[j];
    if Less(k, g.smallest) {
      assert !StartsPast(g, k) && !Less(k, f.largest);
    } else {
      EndsBefore(files, chosen, k, g);
    }
  }

  lemma OverlappingConvex(files: seq<File>, lo: Option<UserKey>, hi: Option<UserKey>)
    requires LevelSorted(files)
    ensures Convex(files, Overlapping(files, lo, hi))
  {
    forall f, g, h | f in files && Overlaps(f, lo, hi) && h in files && Overlaps(h, lo, hi) && g in files
      && Less(f.smallest, g.smallest) && Less(g.smallest, h.smallest) ensures Overlaps(g, lo, hi)
    {
      PositionsInOrder(files, f, g);
      PositionsInOrder(files, g, h);
    }
  }

  // Both kinds of levels: the files overlapping a range, closed at level 0, can be picked.
  method PickOverlapping(files: seq<File>, level: nat, begin: Option<UserKey>, end: Option<UserKey>)
    returns (r: seq<File>)
    requires LevelOk(level, files)
    ensures r != [] ==> Pickable(level, files, r)
    ensures forall f :: f in files && Overlaps(f, begin, end) ==> f in r
    ensures InRange(level, files, begin, end, r)
  {
    var lo, hi;
    r, lo, hi := GetOverlappingInputs(files, level, begin, end);
    OverlappingOrdered(level, files, lo, hi);
    if level > 0 {
      OverlappingConvex(files, lo, hi);
    }
  }

  // Boundary files first, then the range of the result.
  method CompleteLevel(files: seq<File>, level: nat, chosen: seq<File>)
    returns (r: seq<File>, smallest: InternalKey, largest: InternalKey)
    requires LevelOk(level, files) && Pickable(level, files, chosen)
    ensures Completed(files, chosen, r) && (forall f :: f in r ==> f in files)
    ensures LeavesNewer(files, r) && Ordered(level, r) && (level > 0 ==> Convex(files, r))
    ensures IsSmallest(r, smallest) && IsLargest(r, largest)
  {
    if level == 0 {
      IsolatedLeavesNewer(files, chosen);
    }
    ValidRanged(files);
    var k;
    r, k := AddBoundaryInputs(files, chosen);
    if level > 0 {
      ConvexLeavesNewer(files, r, k.value);
      SortedIsListed(r);
    }
    smallest, largest := GetRange(r);
  }

  // The joint range of what a choice takes from both levels.
  ghost predicate Spanned(c: Choice, start: InternalKey, limit: InternalKey) {
    IsSmallest(c.inputs0 + c.inputs1, start) && IsLargest(c.inputs0 + c.inputs1, limit)
  }

  // The larger choice around the joint range of `c`.
  ghost predicate Around(files: seq<File>, below: seq<File>, c: Choice, start: InternalKey, limit: InternalKey, e: Choice) {
    && e.level == c.level
    && IsSmallest(e.inputs0, e.smallest) && IsLargest(e.inputs0, e.largest)
    && e.inputs1 == Overlapping(below, Some(e.smallest.user), Some(e.largest.user))
    && exists picked :: InRange(c.level, files, Some(start.user), Some(limit.user), picked)
         && Completed(files, picked, e.inputs0)
  }

  // It is taken if it has more files at the level, as many below, and is not too large.
  predicate MayGrow(c: Choice, e: Choice, expandedLimit: nat) {
    && |e.inputs0| > |c.inputs0| && |e.inputs1| == |c.inputs1|
    && TotalFileSize(c.inputs1) + TotalFileSize(e.inputs0) < expandedLimit
  }

  ghost predicate Grown(files: seq<File>, below: seq<File>, c: Choice, expandedLimit: nat, r: Choice) {
    exists start, limit, e :: Spanned(c, start, limit) && Around(files, below, c, start, limit, e)
      && r == if MayGrow(c, e, expandedLimit) then e else c
  }

  // Grow the inputs at `level` when that picks up no further file at the level below.
  method ExpandInputs(files: seq<File>, below: seq<File>, c: Choice, allStart: InternalKey, allLimit: InternalKey,
                      expandedLimit: nat) returns (r: Choice)
    requires LevelOk(c.level, files) && LevelOk(c.level + 1, below) && GoodLevels(files, below, c)
    requires Spanned(c, allStart, allLimit) && Ordered(c.level, c.inputs0)
    requires c.level > 0 ==> Convex(files, c.inputs0)
    ensures GoodLevels(files, below, r) && r.level == c.level && Ordered(r.level, r.inputs0)
    ensures r.level > 0 ==> Convex(files, r.inputs0)
    ensures forall f :: f in c.inputs0 ==> f in r.inputs0
    ensures Grown(files, below, c, expandedLimit, r)
  {
    hide Ordered, Pickable, LeavesNewer, IsSmallest, IsLargest, Completed, Convex;
    var expanded0 := PickOverlapping(files, c.level, Some(allStart.user), Some(allLimit.user));
    RangeMeetsItsFiles(files, c.inputs0, c.inputs1, allStart, allLimit, expanded0);
    var inputs0, smallest, largest := CompleteLevel(files, c.level, expanded0);
    CompletedExtends(files, expanded0, inputs0);
    hide InRange, LevelOk;
    ghost var e := Choice(c.level, inputs0, Overlapping(below, Some(smallest.user), Some(largest.user)), smallest, largest);
    assert Around(files, below, c, allStart, allLimit, e);
    if |inputs0| > |c.inputs0| && TotalFileSize(c.inputs1) + TotalFileSize(inputs0) < expandedLimit {
      var expanded1, _, _ := GetOverlappingInputs(below, c.level + 1, Some(smallest.user), Some(largest.user));
      if |expanded1| == |c.inputs1| {
        r := Choice(c.level, inputs0, expanded1, smallest, largest);
        MakeChoice(files, below, r);
        MakeGrown(files, below, c, allStart, allLimit, e, expandedLimit);
        return;
      }
    }
    r := c;
    MakeGrown(files, below, c, allStart, allLimit, e, expandedLimit);
  }

  lemma MakeGrown(files: seq<File>, below: seq<File>, c: Choice, start: InternalKey, limit: InternalKey, e: Choice,
                  expandedLimit: nat)
    requires Spanned(c, start, limit) && Around(files, below, c, start, limit, e)
    ensures Grown(files, below, c, expandedLimit, if MayGrow(c, e, expandedLimit) then e else c)
  {
  }

  lemma MakeChoice(files: seq<File>, below: seq<File>, c: Choice)
    requires c.inputs0 != [] && (forall f :: f in c.inputs0 ==> f in files)
    requires LeavesNewer(files, c.inputs0)
    requires IsSmallest(c.inputs0, c.smallest) && IsLargest(c.inputs0, c.largest)
    requires c.inputs1 == Overlapping(below, Some(c.smallest.user), Some(c.largest.user))
    ensures GoodLevels(files, below, c)
  {
  }

  // The files asked for and their boundary files.
  ghost predicate IsBase(files: seq<File>, below: seq<File>, level: nat, chosen: seq<File>, base: Choice) {
    base.level == level && Completed(files, chosen, base.inputs0) && GoodLevels(files, below, base)
  }

  // From the files asked for: the boundary files, the overlapping files below, and the larger choice if it is allowed.
  ghost predicate SetUp(files: seq<File>, below: seq<File>, chosen: seq<File>, expandedLimit: nat, c: Choice) {
    exists base :: IsBase(files, below, c.level, chosen, base)
      && if base.inputs1 == [] then c == base else Grown(files, below, base, expandedLimit, c)
  }

  // The files asked for and their boundary files, and what overlaps them below.
  method BaseChoice(files: seq<File>, below: seq<File>, level: nat, chosen: seq<File>) returns (c: Choice)
    requires LevelOk(level, files) && Pickable(level, files, chosen)
    ensures IsBase(files, below, level, chosen, c) && Ordered(level, c.inputs0)
    ensures level > 0 ==> Convex(files, c.inputs0)
    ensures forall f :: f in chosen ==> f in c.inputs0
  {
    hide Pickable, Ordered, Convex, IsSmallest, IsLargest, LeavesNewer, LevelOk;
    var inputs0, smallest, largest := CompleteLevel(files, level, chosen);
    CompletedExtends(files, chosen, inputs0);
    var inputs1, _, _ := GetOverlappingInputs(below, level + 1, Some(smallest.user), Some(largest.user));
    c := Choice(level, inputs0, inputs1, smallest, largest);
  }

  method SetupLevels(files: seq<File>, below: seq<File>, level: nat, chosen: seq<File>, expandedLimit: nat)
    returns (c: Choice, allStart: InternalKey, allLimit: InternalKey)
    requires LevelOk(level, files) && LevelOk(level + 1, below) && Pickable(level, files, chosen)
    ensures GoodLevels(files, below, c) && c.level == level && Ordered(level, c.inputs0)
    ensures level > 0 ==> Convex(files, c.inputs0)
    ensures forall f :: f in chosen ==> f in c.inputs0
    ensures SetUp(files, below, chosen, expandedLimit, c) && Spanned(c, allStart, allLimit)
  {
    hide LevelOk, Pickable, Completed, Ordered, IsSmallest, IsLargest, Grown, GoodLevels, Convex;
    var base := BaseChoice(files, below, level, chosen);
    NotEmpty(files, below, base);
    allStart, allLimit := GetRange(base.inputs0 + base.inputs1);
    c := base;
    if base.inputs1 != [] {
      c := ExpandInputs(files, below, base, allStart, allLimit, expandedLimit);
      NotEmpty(files, below, c);
      allStart, allLimit := GetRange(c.inputs0 + c.inputs1);
    }
    hide IsBase;
  }

  lemma CompletedExtends(files: seq<File>, chosen: seq<File>, r: seq<File>)
    requires Completed(files, chosen, r)
    ensures chosen <= r && forall f :: f in chosen ==> f in r
  {
  }

  lemma NotEmpty(files: seq<File>, below: seq<File>, c: Choice)
    requires GoodLevels(files, below, c)
    ensures c.inputs0 != []
  {
  }

  // The files two levels down that overlap the joint range of the inputs.
  ghost predicate AreGrandparents(v: Version, c: Choice, grandparents: seq<File>) {
    if c.level + 2 < |v| then
      exists start, limit :: Spanned(c, start, limit)
        && grandparents == Overlapping(v[c.level + 2], Some(start.user), Some(limit.user))
    else grandparents == []
  }

  method SetupOtherInputs(v: Version, level: nat, chosen: seq<File>, expandedLimit: nat)
    returns (c: Choice, grandparents: seq<File>)
    requires Inv(v) && level + 1 < NUM_LEVELS && Pickable(level, v[level], chosen)
    ensures GoodChoice(v, c) && c.level == level && Ordered(level, c.inputs0)
    ensures level > 0 ==> Convex(v[level], c.inputs0)
    ensures forall f :: f in chosen ==> f in c.inputs0
    ensures SetUp(v[level], v[level + 1], chosen, expandedLimit, c) && AreGrandparents(v, c, grandparents)
  {
    assert |v| == NUM_LEVELS && LevelOk(level, v[level]) && LevelOk(level + 1, v[level + 1]);
    hide SetUp, Spanned, Pickable, Inv, LevelOk, GoodLevels, Ordered, LeastClosed, Convex;
    var allStart, allLimit;
    c, allStart, allLimit := SetupLevels(v[level], v[level + 1], level, chosen, expandedLimit);
    grandparents := [];
    if level + 2 < NUM_LEVELS {
      var files, _, _ := GetOverlappingInputs(v[level + 2], level + 2, Some(allStart.user), Some(allLimit.user));
      grandparents := files;
    }
  }

  // Files picked by overlap with the joint range include the ones that span it.
  lemma RangeMeetsItsFiles(files: seq<File>, fs: seq<File>, gs: seq<File>, lo: InternalKey, hi: InternalKey,
                           picked: seq<File>)
    requires FilesValid(files) && fs != [] && forall f :: f in fs ==> f in files
    requires IsSmallest(fs + gs, lo) && IsLargest(fs + gs, hi)
    requires forall f :: f in files && Overlaps(f, Some(lo.user), Some(hi.user)) ==> f in picked
    ensures picked != [] && forall f :: f in fs ==> f in picked
  {
    forall f | f in fs ensures f in picked {
      assert f in fs + gs;
      FileRange(f);
    }
    assert fs[0] in picked;
  }

  predicate PastPointer(pointer: Option<InternalKey>, f: File) {
    pointer.None? || Less(pointer.value, f.largest)
  }

  // The first file past the compaction pointer, or the first of all if there is none.
  ghost predicate FirstPast(files: seq<File>, pointer: Option<InternalKey>, f: File)
    requires files != []
  {
    if exists g :: g in files && PastPointer(pointer, g) then
      exists i :: 0 <= i < |files| && f == files[i] && PastPointer(pointer, f)
        && forall k :: 0 <= k < i ==> !PastPointer(pointer, files[k])
    else f == files[0]
  }

  method PickFile(files: seq<File>, pointer: Option<InternalKey>) returns (f: File)
    requires files != []
    ensures f in files && FirstPast(files, pointer, f)
  {
    for i := 0 to |files|
      invariant forall k :: 0 <= k < i ==> !PastPointer(pointer, files[k])
    {
      if pointer.None? || Less(pointer.value, files[i].largest) {
        assert files[i] in files && PastPointer(pointer, files[i]);
        return files[i];
      }
    }
    f := files[0];
  }

  // What a compaction of one file begins with: the file, and at level 0 all that overlaps it, directly or not.
  ghost predicate AroundFile(level: nat, files: seq<File>, f: File, chosen: seq<File>) {
    if level == 0 then InRange(0, files, Some(f.smallest.user), Some(f.largest.user), chosen) else chosen == [f]
  }

  method PickCompaction(v: Version, level: nat, picked: File, expandedLimit: nat)
    returns (c: Choice, grandparents: seq<File>, ghost chosen: seq<File>)
    requires Inv(v) && level + 1 < NUM_LEVELS && picked in v[level]
    ensures GoodChoice(v, c) && c.level == level && picked in c.inputs0 && Ordered(level, c.inputs0)
    ensures level > 0 ==> Convex(v[level], c.inputs0)
    ensures AroundFile(level, v[level], picked, chosen) && forall f :: f in chosen ==> f in c.inputs0
    ensures SetUp(v[level], v[level + 1], chosen, expandedLimit, c) && AreGrandparents(v, c, grandparents)
  {
    var inputs := [picked];
    if level == 0 {
      var smallest, largest := GetRange(inputs);
      FileRange(picked);
      inputs := PickOverlapping(v[0], 0, Some(smallest.user), Some(largest.user));
      assert Overlaps(picked, Some(smallest.user), Some(largest.user));
    } else {
      FileRange(picked);
      assert Convex(v[level], inputs);
    }
    chosen := inputs;
    hide SetUp, AreGrandparents, GoodChoice, Ordered, Convex;
    c, grandparents := SetupOtherInputs(v, level, inputs, expandedLimit);
  }

  lemma PrefixConvex(files: seq<File>, lo: Option<UserKey>, hi: Option<UserKey>, n: nat)
    requires LevelSorted(files) && n <= |Overlapping(files, lo, hi)|
    ensures Convex(files, Overlapping(files, lo, hi)[..n])
  {
    var all := Overlapping(files, lo, hi);
    OverlappingConvex(files, lo, hi);
    OverlappingSorted(files, lo, hi);
    forall f, g, h | f in all[..n] && h in all[..n] && g in files
      && Less(f.smallest, g.smallest) && Less(g.smallest, h.smallest) ensures g in all[..n]
    {
      assert f in all && h in all;
      InPrefix(all, n, g, h);
    }
  }

  lemma EarlierStart(files: seq<File>, j: nat, k: nat)
    requires LevelSorted(files) && j < |files| && k < |files|
    ensures Less(files[j].smallest, files[k].smallest) ==> j < k
  {
    if k < j {
      LargestIncreasing(files, k, j);
    }
  }

  lemma InPrefix(all: seq<File>, n: nat, g: File, h: File)
    requires LevelSorted(all) && n <= |all|
    requires g in all && h in all[..n] && Less(g.smallest, h.smallest)
    ensures g in all[..n]
  {
    var j: nat :| j < |all| && all[j] == g;
    var k: nat :| k < n && all[..n][k] == h;
    EarlierStart(all, j, k);
    assert all[..n][j] == g;
  }

  lemma PrefixPickable(level: nat, files: seq<File>, lo: Option<UserKey>, hi: Option<UserKey>, n: nat)
    requires level > 0 && LevelOk(level, files) && 0 < n <= |Overlapping(files, lo, hi)|
    ensures Pickable(level, files, Overlapping(files, lo, hi)[..n])
  {
    OverlappingSorted(files, lo, hi);
    PrefixConvex(files, lo, hi, n);
    SortedIsListed(Overlapping(files, lo, hi)[..n]);
  }

  // As many of the files as it takes for their sizes to reach a limit.
  ghost predicate IsLimit(inputs: seq<File>, maxFileSize: nat, n: nat) {
    && n <= |inputs| && (inputs != [] ==> n > 0)
    && (n < |inputs| ==> TotalFileSize(inputs[..n]) >= maxFileSize)
    && (n > 1 ==> TotalFileSize(inputs[..n - 1]) < maxFileSize)
  }

  method LimitInputs(inputs: seq<File>, maxFileSize: nat) returns (n: nat)
    ensures IsLimit(inputs, maxFileSize, n)
  {
    var total := 0;
    n := 0;
    while n < |inputs|
      invariant n <= |inputs| && total == TotalFileSize(inputs[..n])
      invariant n > 0 ==> total < maxFileSize
      invariant n > 1 ==> TotalFileSize(inputs[..n - 1]) < maxFileSize
    {
      TotalAppend(inputs, n);
      assert inputs[..n + 1][..n] == inputs[..n];
      total := total + inputs[n].size;
      n := n + 1;
      assert n > 1 ==> TotalFileSize(inputs[..n - 1]) < maxFileSize;
      if total >= maxFileSize {
        break;
      }
    }
    assert inputs[..|inputs|] == inputs;
  }

  lemma {:induction false} TotalAppend(files: seq<File>, n: nat)
    requires n < |files|
    ensures TotalFileSize(files[..n + 1]) == TotalFileSize(files[..n]) + files[n].size
  {
    if n > 0 {
      TotalAppend(files[1..], n - 1);
      assert files[..n + 1][1..] == files[1..][..n] && files[..n][1..] == files[1..][..n - 1];
    }
  }

  // What a compaction of a range begins with.
  ghost predicate FirstOfRange(level: nat, files: seq<File>, begin: Option<UserKey>, end: Option<UserKey>,
                               maxFileSize: nat, chosen: seq<File>) {
    if level == 0 then InRange(0, files, begin, end, chosen)
    else
      var all := Overlapping(files, begin, end);
      exists n: nat :: IsLimit(all, maxFileSize, n) && chosen == all[..n]
  }

  // The files of a range to begin with, if there are any.
  method FirstFiles(files: seq<File>, level: nat, begin: Option<UserKey>, end: Option<UserKey>, maxFileSize: nat)
    returns (inputs: seq<File>)
    requires LevelOk(level, files)
    ensures inputs == [] <==> forall f :: f in files ==> !Overlaps(f, begin, end)
    ensures inputs != [] ==> Pickable(level, files, inputs) && FirstOfRange(level, files, begin, end, maxFileSize, inputs)
  {
    hide Pickable, Overlaps, LeastClosed, LevelOk;
    inputs := PickOverlapping(files, level, begin, end);
    if inputs == [] {
      return;
    }
    if level > 0 {
      var n := LimitInputs(inputs, maxFileSize);
      PrefixPickable(level, files, begin, end, n);
      assert inputs[0] in inputs;
      inputs := inputs[..n];
    } else {
      SomeOverlaps(files, begin, end, inputs);
    }
  }

  // A file of a level-0 choice comes with one that overlaps what was asked for.
  lemma SomeOverlaps(files: seq<File>, begin: Option<UserKey>, end: Option<UserKey>, r: seq<File>)
    requires InRange(0, files, begin, end, r) && r != []
    ensures exists f :: f in files && Overlaps(f, begin, end)
  {
    var lo, hi :| LeastClosed(files, begin, end, lo, hi) && r == Overlapping(files, lo, hi);
    if forall f :: f in files ==> !Overlaps(f, begin, end) {
      assert NotAbove(begin, begin) && NotBelow(end, end) && RangeClosed(files, begin, end);
      assert r[0] in r;
    }
  }

  method CompactRange(v: Version, level: nat, begin: Option<UserKey>, end: Option<UserKey>,
                      maxFileSize: nat, expandedLimit: nat)
    returns (r: Option<Choice>, grandparents: seq<File>, ghost chosen: seq<File>)
    requires Inv(v) && level + 1 < NUM_LEVELS
    ensures r.None? <==> forall f :: f in v[level] ==> !Overlaps(f, begin, end)
    ensures r.Some? ==>
      && GoodChoice(v, r.value) && r.value.level == level && Ordered(level, r.value.inputs0)
      && (level > 0 ==> Convex(v[level], r.value.inputs0))
      && FirstOfRange(level, v[level], begin, end, maxFileSize, chosen)
      && (forall f :: f in chosen ==> f in r.value.inputs0)
      && SetUp(v[level], v[level + 1], chosen, expandedLimit, r.value) && AreGrandparents(v, r.value, grandparents)
  {
    assert LevelOk(level, v[level]);
    hide Inv, LevelOk, GoodChoice, Ordered, Pickable, Overlaps, SetUp, AreGrandparents, FirstOfRange, Convex;
    var inputs := FirstFiles(v[level], level, begin, end, maxFileSize);
    chosen, grandparents := inputs, [];
    if inputs == [] {
      return None, [], [];
    }
    var c;
    c, grandparents := SetupOtherInputs(v, level, inputs, expandedLimit);
    r := Some(c);
  }
}
