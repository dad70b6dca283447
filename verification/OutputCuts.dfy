/** Where a compaction closes one output file and opens the next. */
module OutputCuts {
  import opened DbFormat
  import opened Versions

  // When to close an output file: it is large enough, or it overlaps too much of the level below the next.
  datatype CutRule = CutRule(grandparents: seq<File>, maxGrandparentOverlap: nat,
                             builderSize: seq<Entry> -> nat, maxOutputFileSize: nat)

  // How far the scan over the grandparents has come, and how many of their bytes the open file overlaps.
  datatype Progress = Progress(passed: nat, seen: bool, overlapped: nat)

  // The entries of the closed output files, and of the open one.
  datatype Cutting = Cutting(closed: seq<seq<Entry>>, open: seq<Entry>, progress: Progress)

  function Pass(grandparents: seq<File>, p: Progress, k: InternalKey): Progress
    decreases |grandparents| - p.passed
  {
    if p.passed < |grandparents| && Less(grandparents[p.passed].largest, k) then
      Pass(grandparents, p.(passed := p.passed + 1,
                            overlapped := p.overlapped + if p.seen then grandparents[p.passed].size else 0), k)
    else p
  }

  function Close(c: Cutting): Cutting {
    if c.open == [] then c else c.(closed := c.closed + [c.open], open := [])
  }

  // The arrival of a key may close the open file before it.
  function Arrive(rule: CutRule, c: Cutting, k: InternalKey): Cutting {
    var p := Pass(rule.grandparents, c.progress, k).(seen := true);
    if p.overlapped > rule.maxGrandparentOverlap then Close(c.(progress := p.(overlapped := 0))) else c.(progress := p)
  }

  // Writing an entry may close the file after it.
  function Put(rule: CutRule, c: Cutting, e: Entry): Cutting {
    var open := c.open + [e];
    if rule.builderSize(open) >= rule.maxOutputFileSize then c.(closed := c.closed + [open], open := [])
    else c.(open := open)
  }

  // ---- The overlap that is counted -------------------------------------------------------------------------------

  // `f` ends at or after `a` and before `b`.
  predicate EndsWithin(f: File, a: InternalKey, b: InternalKey) {
    !Less(f.largest, a) && Less(f.largest, b)
  }

  // The bytes of the files that end between two keys.
  function Overlap(files: seq<File>, a: InternalKey, b: InternalKey): nat {
    if files == [] then 0 else
    var n := |files| - 1;
    Overlap(files[..n], a, b) + if EndsWithin(files[n], a, b) then files[n].size else 0
  }

  ghost predicate ByLargest(files: seq<File>) {
    forall i, j :: 0 <= i < j < |files| ==> Less(files[i].largest, files[j].largest)
  }

  lemma LevelIsByLargest(files: seq<File>)
    requires LevelSorted(files)
    ensures ByLargest(files)
  {
    forall i, j | 0 <= i < j < |files| ensures Less(files[i].largest, files[j].largest) {
      LargestIncreasing(files, i, j);
    }
  }

  lemma {:induction false} OverlapSame(files: seq<File>, a: InternalKey, b: InternalKey, c: InternalKey, d: InternalKey)
    requires forall i :: 0 <= i < |files| ==> (EndsWithin(files[i], a, b) <==> EndsWithin(files[i], c, d))
    ensures Overlap(files, a, b) == Overlap(files, c, d)
  {
    if files != [] {
      OverlapSame(files[..|files| - 1], a, b, c, d);
    }
  }

  lemma {:induction false} OverlapShrinks(files: seq<File>, a: InternalKey, b: InternalKey, c: InternalKey, d: InternalKey)
    requires !Less(c, a) && !Less(b, d)
    ensures Overlap(files, c, d) <= Overlap(files, a, b)
  {
    if files != [] {
      OverlapShrinks(files[..|files| - 1], a, b, c, d);
    }
  }

  lemma {:induction false} NothingWithin(files: seq<File>, a: InternalKey, b: InternalKey)
    requires forall i :: 0 <= i < |files| ==> !EndsWithin(files[i], a, b)
    ensures Overlap(files, a, b) == 0
  {
    if files != [] {
      NothingWithin(files[..|files| - 1], a, b);
    }
  }

  // Files from position `m` on do not count.
  lemma {:induction false} OverlapPrefix(files: seq<File>, a: InternalKey, b: InternalKey, m: nat)
    requires m <= |files| && forall i :: m <= i < |files| ==> !EndsWithin(files[i], a, b)
    ensures Overlap(files, a, b) == Overlap(files[..m], a, b)
    decreases |files| - m
  {
    if m < |files| {
      OverlapPrefix(files, a, b, m + 1);
      assert files[..m + 1][..m] == files[..m];
    } else {
      assert files[..m] == files;
    }
  }

  // The scan stands after the files that end before `last`; it has counted those that end from `since` on.
  ghost predicate Scans(files: seq<File>, p: Progress, since: InternalKey, last: InternalKey) {
    && p.seen && p.passed <= |files| && !Less(last, since)
    && (forall i :: 0 <= i < p.passed ==> Less(files[i].largest, last))
    && (forall i :: p.passed <= i < |files| ==> !Less(files[i].largest, last))
    && p.overlapped == Overlap(files, since, last)
  }

  // The scan on its way to `k`: only what it has passed counts.
  ghost predicate Scanning(files: seq<File>, p: Progress, since: InternalKey, last: InternalKey, k: InternalKey) {
    && p.passed <= |files| && !Less(last, since) && !Less(k, last)
    && (forall i :: 0 <= i < p.passed ==> Less(files[i].largest, k))
    && (forall i :: p.passed <= i < |files| ==> !Less(files[i].largest, last))
    && p.overlapped == Overlap(files[..p.passed], since, k)
  }

  lemma {:induction false} PassScans(files: seq<File>, p: Progress, since: InternalKey, last: InternalKey, k: InternalKey)
    requires ByLargest(files) && p.seen && Scanning(files, p, since, last, k)
    ensures Scans(files, Pass(files, p, k), since, k)
    decreases |files| - p.passed
  {
    if p.passed < |files| && Less(files[p.passed].largest, k) {
      var n := p.passed;
      assert files[..n + 1][..n] == files[..n];
      PassScans(files, p.(passed := n + 1, overlapped := p.overlapped + files[n].size), since, last, k);
    } else {
      OverlapPrefix(files, since, k, p.passed);
    }
  }

  // A further key: the count covers the files that end between where it began and that key.
  lemma NextKeyScans(files: seq<File>, p: Progress, since: InternalKey, last: InternalKey, k: InternalKey)
    requires ByLargest(files) && Scans(files, p, since, last) && !Less(k, last)
    ensures Scans(files, Pass(files, p, k).(seen := true), since, k)
  {
    OverlapPrefix(files, since, last, p.passed);
    OverlapSame(files[..p.passed], since, last, since, k);
    PassScans(files, p, since, last, k);
  }

  // The first key: the files that end before it do not count.
  lemma {:induction false} FirstKeyScans(files: seq<File>, p: Progress, k: InternalKey)
    requires ByLargest(files) && !p.seen && p.overlapped == 0 && p.passed <= |files|
    requires forall i :: 0 <= i < p.passed ==> Less(files[i].largest, k)
    ensures Scans(files, Pass(files, p, k).(seen := true), k, k)
    decreases |files| - p.passed
  {
    if p.passed < |files| && Less(files[p.passed].largest, k) {
      FirstKeyScans(files, p.(passed := p.passed + 1), k);
    } else {
      NothingWithin(files, k, k);
    }
  }

  // The scan may begin anew at `k`, as it does when the file is closed before it.
  lemma ScanDecides(files: seq<File>, p: Progress, k: InternalKey)
    ensures var q := Pass(files, p, k).(seen := true);
      && (ByLargest(files) && p == Progress(0, false, 0) ==> Scans(files, q, k, k) && q.overlapped == 0)
      && forall since, last :: ByLargest(files) && Scans(files, p, since, last) && !Less(k, last) ==>
           && q.overlapped == Overlap(files, since, k)
           && Scans(files, q, since, k) && Scans(files, q.(overlapped := 0), k, k)
  {
    NothingWithin(files, k, k);
    if ByLargest(files) && p == Progress(0, false, 0) {
      FirstKeyScans(files, p, k);
    }
    forall since, last | ByLargest(files) && Scans(files, p, since, last) && !Less(k, last)
      ensures var q := Pass(files, p, k).(seen := true); Scans(files, q, since, k)
    {
      NextKeyScans(files, p, since, last, k);
    }
  }

  // ---- Where the overlap forces a new file ------------------------------------------------------------------------

  // The last position among the first `n` where a new file had to begin: the first position, and then each one at
  // which the files that end since the one before are too many bytes.
  ghost function LastStop(rule: CutRule, input: seq<Entry>, n: nat): (b: nat)
    requires 0 < n <= |input|
    ensures b < n
    decreases n, 0
  {
    if n > 1 && IsStop(rule, input, n - 1) then n - 1 else if n == 1 then 0 else LastStop(rule, input, n - 1)
  }

  ghost predicate IsStop(rule: CutRule, input: seq<Entry>, b: nat)
    requires b < |input|
    decreases b, 1
  {
    b > 0 && Overlap(rule.grandparents, input[LastStop(rule, input, b)].key, input[b].key) > rule.maxGrandparentOverlap
  }

  // A new file had to begin after `a` and by `b`.
  ghost predicate StopBetween(rule: CutRule, input: seq<Entry>, a: InternalKey, b: InternalKey) {
    exists i: nat :: i < |input| && IsStop(rule, input, i) && Less(a, input[i].key) && !Less(b, input[i].key)
  }

  // ---- What the pieces are --------------------------------------------------------------------------------------

  ghost function LastKey(piece: seq<Entry>): InternalKey
    requires piece != []
  {
    piece[|piece| - 1].key
  }

  // Nowhere inside the piece was there a reason to close the file.
  ghost predicate Together(rule: CutRule, input: seq<Entry>, piece: seq<Entry>) {
    forall m :: 0 < m < |piece| ==>
      rule.builderSize(piece[..m]) < rule.maxOutputFileSize && !StopBetween(rule, input, piece[m - 1].key, piece[m].key)
  }

  // There was a reason to close the file of the first piece before the second.
  ghost predicate Apart(rule: CutRule, input: seq<Entry>, piece: seq<Entry>, next: seq<Entry>)
    requires piece != [] && next != []
  {
    rule.builderSize(piece) >= rule.maxOutputFileSize || StopBetween(rule, input, LastKey(piece), next[0].key)
  }

  // A file ends where it is large enough or where the overlap forces a new one, and nowhere else.
  ghost predicate WellCut(rule: CutRule, input: seq<Entry>, pieces: seq<seq<Entry>>) {
    && (forall k :: 0 <= k < |pieces| ==> pieces[k] != [] && Together(rule, input, pieces[k]))
    && forall k :: 0 <= k < |pieces| - 1 ==> Apart(rule, input, pieces[k], pieces[k + 1])
  }

  // The piece begins and ends with entries among the first `n`.
  ghost predicate Spans(input: seq<Entry>, n: nat, piece: seq<Entry>)
    requires n <= |input|
  {
    piece != [] && exists i, j :: 0 <= i <= j < n && piece[0].key == input[i].key && LastKey(piece) == input[j].key
  }

  ghost predicate AllSpan(input: seq<Entry>, n: nat, pieces: seq<seq<Entry>>)
    requires n <= |input|
  {
    forall k :: 0 <= k < |pieces| ==> Spans(input, n, pieces[k])
  }

  // A stop among the first `n` entries that comes after `a`.
  ghost predicate StopAfter(rule: CutRule, input: seq<Entry>, n: nat, a: InternalKey)
    requires n <= |input|
  {
    exists i: nat :: i < n && IsStop(rule, input, i) && Less(a, input[i].key)
  }

  ghost predicate ScanOk(rule: CutRule, input: seq<Entry>, n: nat, p: Progress)
    requires n <= |input|
  {
    if n == 0 then p == Progress(0, false, 0)
    else Scans(rule.grandparents, p, input[LastStop(rule, input, n)].key, input[n - 1].key)
  }

  // Whether the last piece may go on depends on its size and on the stops met since.
  ghost predicate TailOk(rule: CutRule, input: seq<Entry>, n: nat, all: seq<seq<Entry>>, open: seq<Entry>)
    requires n <= |input|
  {
    && (open != [] ==> all != [] && all[|all| - 1] == open)
    && (all != [] ==>
          var last := all[|all| - 1];
          && n > 0 && last != [] && !Less(input[n - 1].key, LastKey(last))
          && (open == [] <==> rule.builderSize(last) >= rule.maxOutputFileSize || StopAfter(rule, input, n, LastKey(last))))
  }

  // What is known after `n` entries have arrived.
  ghost predicate CutOk(rule: CutRule, input: seq<Entry>, n: nat, c: Cutting)
    requires n <= |input|
  {
    var all := Close(c).closed;
    && WellCut(rule, input, all) && AllSpan(input, n, all)
    && TailOk(rule, input, n, all, c.open) && ScanOk(rule, input, n, c.progress)
  }

  lemma StartCutOk(rule: CutRule, input: seq<Entry>)
    ensures CutOk(rule, input, 0, Cutting([], [], Progress(0, false, 0)))
  {
  }

  // The scan decides exactly whether the arriving key is a stop.
  lemma ArriveScan(rule: CutRule, input: seq<Entry>, n: nat, p: Progress)
    requires n < |input| && Sorted(input) && ByLargest(rule.grandparents) && ScanOk(rule, input, n, p)
    ensures var q := Pass(rule.grandparents, p, input[n].key).(seen := true);
      && (q.overlapped > rule.maxGrandparentOverlap <==> IsStop(rule, input, n))
      && ScanOk(rule, input, n + 1, if IsStop(rule, input, n) then q.(overlapped := 0) else q)
  {
    var files, k := rule.grandparents, input[n].key;
    NothingWithin(files, k, k);
    if n == 0 {
      FirstKeyScans(files, p, k);
    } else {
      NextKeyScans(files, p, input[LastStop(rule, input, n)].key, input[n - 1].key, k);
    }
  }

  lemma StopAfterNext(rule: CutRule, input: seq<Entry>, n: nat, a: InternalKey)
    requires n < |input| && Less(a, input[n].key)
    ensures StopAfter(rule, input, n + 1, a) <==> StopAfter(rule, input, n, a) || IsStop(rule, input, n)
  {
    hide IsStop;
    if IsStop(rule, input, n) {
      assert StopAfter(rule, input, n + 1, a);
    }
  }

  lemma LaterKey(input: seq<Entry>, n: nat, a: InternalKey)
    requires 0 < n < |input| && Sorted(input) && !Less(input[n - 1].key, a)
    ensures Less(a, input[n].key)
  {
    assert Less(input[n - 1].key, input[n].key);
  }

  // A key that is a stop closes the open piece; any other leaves it.
  lemma ArriveTail(rule: CutRule, input: seq<Entry>, n: nat, all: seq<seq<Entry>>, open: seq<Entry>)
    requires n < |input| && Sorted(input) && TailOk(rule, input, n, all, open)
    ensures TailOk(rule, input, n + 1, all, if IsStop(rule, input, n) then [] else open)
    ensures all != [] ==> all[|all| - 1] != [] && Less(LastKey(all[|all| - 1]), input[n].key)
  {
    if all != [] {
      var a := LastKey(all[|all| - 1]);
      LaterKey(input, n, a);
      StopAfterNext(rule, input, n, a);
      hide IsStop, StopAfter, Sorted;
    }
  }

  lemma SpansStay(input: seq<Entry>, n: nat, pieces: seq<seq<Entry>>)
    requires n < |input| && AllSpan(input, n, pieces)
    ensures AllSpan(input, n + 1, pieces)
  {
    forall k | 0 <= k < |pieces| ensures Spans(input, n + 1, pieces[k]) {
      assert Spans(input, n, pieces[k]);
    }
  }

  lemma ArriveCutOk(rule: CutRule, input: seq<Entry>, n: nat, c: Cutting)
    requires n < |input| && Sorted(input) && ByLargest(rule.grandparents) && CutOk(rule, input, n, c)
    ensures var d, all := Arrive(rule, c, input[n].key), Close(c).closed;
      && CutOk(rule, input, n + 1, d) && Close(d).closed == all
      && (all != [] ==> all[|all| - 1] != [] && Less(LastKey(all[|all| - 1]), input[n].key))
  {
    hide Pass, Sorted, ByLargest, WellCut, ScanOk, IsStop, AllSpan, TailOk;
    var all := Close(c).closed;
    ArriveScan(rule, input, n, c.progress);
    ArriveTail(rule, input, n, all, c.open);
    SpansStay(input, n, all);
  }

  // A stop that has been met after `a` lies before the entry at hand.
  lemma MetStops(rule: CutRule, input: seq<Entry>, n: nat, a: InternalKey)
    requires 0 < n <= |input| && Sorted(input)
    ensures StopBetween(rule, input, a, input[n - 1].key) <==> StopAfter(rule, input, n, a)
  {
    hide IsStop;
    if StopBetween(rule, input, a, input[n - 1].key) {
      var i: nat :| i < |input| && IsStop(rule, input, i) && Less(a, input[i].key) && !Less(input[n - 1].key, input[i].key);
      NotBefore(input, n - 1, i);
    }
    if StopAfter(rule, input, n, a) {
      var i: nat :| i < n && IsStop(rule, input, i) && Less(a, input[i].key);
      NotBefore(input, n - 1, i);
    }
  }

  lemma NotBefore(input: seq<Entry>, i: nat, j: nat)
    requires Sorted(input) && i < |input| && j < |input|
    ensures !Less(input[i].key, input[j].key) <==> j <= i
  {
  }

  lemma TogetherGrows(rule: CutRule, input: seq<Entry>, piece: seq<Entry>, e: Entry)
    requires Together(rule, input, piece)
    requires piece != [] ==> rule.builderSize(piece) < rule.maxOutputFileSize
    requires piece != [] ==> !StopBetween(rule, input, LastKey(piece), e.key)
    ensures Together(rule, input, piece + [e])
  {
    var longer := piece + [e];
    forall m | 0 < m < |longer|
      ensures rule.builderSize(longer[..m]) < rule.maxOutputFileSize
      ensures !StopBetween(rule, input, longer[m - 1].key, longer[m].key)
    {
      assert longer[..m] == piece[..m];
      assert m == |piece| ==> piece[..m] == piece;
    }
  }

  lemma PutTail(rule: CutRule, input: seq<Entry>, n: nat, all: seq<seq<Entry>>, piece: seq<Entry>)
    requires 0 < n <= |input| && Sorted(input)
    requires piece != [] && LastKey(piece) == input[n - 1].key && all != [] && all[|all| - 1] == piece
    ensures TailOk(rule, input, n, all, if rule.builderSize(piece) >= rule.maxOutputFileSize then [] else piece)
  {
    hide StopAfter;
    MetStops(rule, input, n, input[n - 1].key);
    NotBefore(input, n - 1, n - 1);
    hide Sorted, IsStop;
  }

  lemma PutCutOk(rule: CutRule, input: seq<Entry>, n: nat, c: Cutting)
    requires 0 < n <= |input| && Sorted(input) && CutOk(rule, input, n, c)
    requires var all := Close(c).closed;
      all != [] ==> all[|all| - 1] != [] && Less(LastKey(all[|all| - 1]), input[n - 1].key)
    ensures CutOk(rule, input, n, Put(rule, c, input[n - 1]))
  {
    hide ScanOk, IsStop, Sorted, StopAfter, StopBetween, WellCut, AllSpan, Together;
    var e, all, open := input[n - 1], Close(c).closed, c.open + [input[n - 1]];
    if all != [] {
      MetStops(rule, input, n, LastKey(all[|all| - 1]));
    }
    assert Together(rule, input, c.open) by {
      OpenTogether(rule, input, all, c.open);
    }
    TogetherGrows(rule, input, c.open, e);
    PieceGrows(rule, input, all, c.open, e);
    SpanGrows(input, n, all, c.open);
    var next := (if c.open == [] then all else all[..|all| - 1]) + [open];
    PutTail(rule, input, n, next, open);
    hide TailOk;
    assert Close(Put(rule, c, e)).closed == next;
  }

  lemma OpenTogether(rule: CutRule, input: seq<Entry>, all: seq<seq<Entry>>, open: seq<Entry>)
    requires WellCut(rule, input, all) && (open != [] ==> all != [] && all[|all| - 1] == open)
    ensures Together(rule, input, open)
  {
  }

  lemma SpanGrows(input: seq<Entry>, n: nat, all: seq<seq<Entry>>, open: seq<Entry>)
    requires 0 < n <= |input| && AllSpan(input, n, all)
    requires open != [] ==> all != [] && all[|all| - 1] == open
    ensures AllSpan(input, n, (if open == [] then all else all[..|all| - 1]) + [open + [input[n - 1]]])
  {
    var e := input[n - 1];
    if open == [] {
      assert LastKey([e]) == e.key;
    } else {
      var k := |all| - 1;
      assert Spans(input, n, all[k]);
    }
    assert Spans(input, n, open + [e]);
    var next := (if open == [] then all else all[..|all| - 1]) + [open + [e]];
    hide Spans;
    forall k | 0 <= k < |next| ensures Spans(input, n, next[k]) {
      assert k < |next| - 1 ==> next[k] == all[k];
      assert k == |next| - 1 ==> next[k] == open + [e];
    }
  }

  // Appending to the open piece, or opening a piece behind the last.
  lemma PieceGrows(rule: CutRule, input: seq<Entry>, all: seq<seq<Entry>>, open: seq<Entry>, e: Entry)
    requires WellCut(rule, input, all) && Together(rule, input, open + [e])
    requires open != [] ==> all != [] && all[|all| - 1] == open
    requires open == [] && all != [] ==> Apart(rule, input, all[|all| - 1], [e])
    ensures WellCut(rule, input, (if open == [] then all else all[..|all| - 1]) + [open + [e]])
  {
    var next := (if open == [] then all else all[..|all| - 1]) + [open + [e]];
    hide Together, StopBetween;
    forall k | 0 <= k < |next| ensures next[k] != [] && Together(rule, input, next[k]) {
      assert k < |next| - 1 ==> next[k] == all[k];
    }
    forall k | 0 <= k < |next| - 1 ensures Apart(rule, input, next[k], next[k + 1]) {
      assert next[k] == all[k];
      if k + 1 < |all| {
        assert Apart(rule, input, all[k], all[k + 1]);
        assert next[k + 1][0] == all[k + 1][0];
      }
    }
  }

  // ---- No file overlaps too much ----------------------------------------------------------------------------------

  lemma {:induction false} LastStopStays(rule: CutRule, input: seq<Entry>, i: nat, j: nat)
    requires i <= j < |input| && forall b :: i < b <= j ==> !IsStop(rule, input, b)
    ensures LastStop(rule, input, j + 1) == LastStop(rule, input, i + 1)
  {
    if i < j {
      LastStopStays(rule, input, i, j - 1);
    }
  }

  // Without a stop behind the first of two entries, the files that end between them are not too many bytes.
  lemma OverlapIsBounded(rule: CutRule, input: seq<Entry>, i: nat, j: nat)
    requires Sorted(input) && i <= j < |input| && !StopBetween(rule, input, input[i].key, input[j].key)
    ensures Overlap(rule.grandparents, input[i].key, input[j].key) <= rule.maxGrandparentOverlap
  {
    if i == j {
      NothingWithin(rule.grandparents, input[i].key, input[j].key);
    } else {
      forall b | i < b <= j ensures !IsStop(rule, input, b) {
        assert Less(input[i].key, input[b].key) && !Less(input[j].key, input[b].key);
      }
      LastStopStays(rule, input, i, j - 1);
      var s := LastStop(rule, input, i + 1);
      assert s == LastStop(rule, input, j) && s <= i;
      OverlapShrinks(rule.grandparents, input[s].key, input[j].key, input[i].key, input[j].key);
    }
  }

  lemma {:induction false} NoStopInside(rule: CutRule, input: seq<Entry>, piece: seq<Entry>, m: nat)
    requires Together(rule, input, piece) && m < |piece|
    ensures !StopBetween(rule, input, piece[0].key, piece[m].key)
  {
    if m > 0 {
      NoStopInside(rule, input, piece, m - 1);
      assert !StopBetween(rule, input, piece[m - 1].key, piece[m].key);
    }
  }

  // A file overlaps no more bytes of the level below the next than the limit.
  lemma PieceOverlap(rule: CutRule, input: seq<Entry>, n: nat, pieces: seq<seq<Entry>>, k: nat)
    requires n <= |input| && Sorted(input) && WellCut(rule, input, pieces) && k < |pieces|
    requires Spans(input, n, pieces[k])
    ensures Overlap(rule.grandparents, pieces[k][0].key, LastKey(pieces[k])) <= rule.maxGrandparentOverlap
  {
    var piece := pieces[k];
    NoStopInside(rule, input, piece, |piece| - 1);
    var i, j :| 0 <= i <= j < n && piece[0].key == input[i].key && LastKey(piece) == input[j].key;
    OverlapIsBounded(rule, input, i, j);
  }

  // ---- The count goes on over a file that is closed for its size -----------------------------------------------------

  function EntryOf(u: UserKey): Entry {
    Entry(InternalKey(u, 1, Value), [])
  }

  function FileTo(number: nat, u: UserKey): File {
    File(number, 6, InternalKey(u, 1, Value), InternalKey(u, 1, Value), [EntryOf(u)])
  }

  // Two entries to a file, at most 10 bytes of the level below the next, and two files of 6 bytes there.
  function SmallRule(): CutRule {
    CutRule([FileTo(1, 2.0), FileTo(2, 4.0)], 10, (es: seq<Entry>) => |es|, 2)
  }

  function FourEntries(): seq<Entry> {
    [EntryOf(1.0), EntryOf(3.0), EntryOf(3.5), EntryOf(5.0)]
  }

  /**
   * Closing a file for its size does not reset the count, so that the next file may end although it overlaps little
   * itself: the first file ends at 3.0 for its size, and the second ends before 5.0, where 12 bytes have been
   * counted since 1.0, though only 6 of them lie between 3.5 and 5.0.
   */
  lemma SizeCutKeepsCounting()
    ensures var rule, input := SmallRule(), FourEntries();
      && Sorted(input) && ByLargest(rule.grandparents)
      && WellCut(rule, input, [[input[0], input[1]], [input[2]], [input[3]]])
      && Overlap(rule.grandparents, input[2].key, input[3].key) == 6 < rule.maxGrandparentOverlap
      && rule.builderSize([input[2]]) < rule.maxOutputFileSize
  {
    var rule, input := SmallRule(), FourEntries();
    var gs := rule.grandparents;
    assert gs[..1] == [FileTo(1, 2.0)] && gs[..1][..0] == [];
    SmallOverlap(input[0].key, input[1].key, 6);
    SmallOverlap(input[0].key, input[2].key, 6);
    SmallOverlap(input[0].key, input[3].key, 12);
    SmallOverlap(input[2].key, input[3].key, 6);
    assert LastStop(rule, input, 1) == 0;
    assert !IsStop(rule, input, 1) && LastStop(rule, input, 2) == 0;
    assert !IsStop(rule, input, 2) && LastStop(rule, input, 3) == 0;
    assert IsStop(rule, input, 3);
    hide IsStop, Overlap, LastStop;
    assert StopBetween(rule, input, input[2].key, input[3].key);
    assert !StopBetween(rule, input, input[0].key, input[1].key);
    var pieces := [[input[0], input[1]], [input[2]], [input[3]]];
    assert [input[0], input[1]][..1] == [input[0]];
    hide StopBetween;
    assert Together(rule, input, pieces[0]) && Together(rule, input, pieces[1]) && Together(rule, input, pieces[2]);
    assert Apart(rule, input, pieces[0], pieces[1]) && Apart(rule, input, pieces[1], pieces[2]);
  }

  lemma SmallOverlap(a: InternalKey, b: InternalKey, n: nat)
    requires n == (if EndsWithin(FileTo(1, 2.0), a, b) then 6 else 0) + if EndsWithin(FileTo(2, 4.0), a, b) then 6 else 0
    ensures Overlap(SmallRule().grandparents, a, b) == n
  {
    var gs := SmallRule().grandparents;
    assert gs[..1] == [FileTo(1, 2.0)] && gs[..1][..0] == [];
    assert Overlap(gs[..1][..0], a, b) == 0;
    assert Overlap(gs[..1], a, b) == if EndsWithin(FileTo(1, 2.0), a, b) then 6 else 0;
  }
}
