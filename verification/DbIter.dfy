/** The user's iterator: one visible entry per user key, over all versions of all keys. */
module DbIter {
  import opened DbFormat
  import opened Versions
  import opened Iterators
  import opened Merger

  predicate Seen(es: seq<Entry>, s: Sequence, i: nat)
    requires i < |es|
  {
    es[i].key.seqno <= s
  }

  // Entry i is what a reader at snapshot `s` sees under its user key: the newest version it may see, and a value.
  ghost predicate IsLive(es: seq<Entry>, s: Sequence, i: nat)
    requires i < |es|
  {
    && Seen(es, s, i) && es[i].key.kind.Value?
    && forall j :: 0 <= j < i && es[j].key.user == es[i].key.user ==> !Seen(es, s, j)
  }

  // The cursor of the specification moves over live positions; |es| stands for "not valid".
  ghost function NextLive(es: seq<Entry>, s: Sequence, i: nat): (r: nat)
    requires i <= |es|
    ensures i <= r <= |es|
    ensures r < |es| ==> IsLive(es, s, r)
    ensures forall j :: i <= j < r ==> !IsLive(es, s, j)
    decreases |es| - i
  {
    if i == |es| || IsLive(es, s, i) then i else NextLive(es, s, i + 1)
  }

  ghost function PrevLive(es: seq<Entry>, s: Sequence, i: nat): (r: nat)
    requires i <= |es|
    ensures r < i || r == |es|
    ensures r < |es| ==> IsLive(es, s, r)
    ensures forall j :: (r < j || r == |es|) && 0 <= j < i ==> !IsLive(es, s, j)
  {
    if i == 0 then |es| else if IsLive(es, s, i - 1) then i - 1 else PrevLive(es, s, i - 1)
  }

  // A live position is what a read of its user key returns; a user key without one reads as absent.
  lemma LiveIsRead(es: seq<Entry>, s: Sequence, i: nat)
    requires Sorted(es) && i < |es| && IsLive(es, s, i)
    ensures Newest(EntrySet(es), es[i].key.user, s, es[i])
    ensures Read(EntrySet(es), es[i].key.user, s) == Some(es[i].value)
  {
    var e, u := es[i], es[i].key.user;
    forall d | d in EntrySet(es) && Sees(d, u, s) && d != e ensures Less(e.key, d.key) {
      var j: nat :| j < |es| && es[j] == d;
      if j < i {
        assert Seen(es, s, j);
      }
    }
    ReadFromNewest(EntrySet(es), u, s, e);
  }

  lemma ReadIsLive(es: seq<Entry>, s: Sequence, u: UserKey) returns (i: nat)
    requires Sorted(es) && Read(EntrySet(es), u, s).Some?
    ensures i < |es| && IsLive(es, s, i) && es[i].key.user == u
  {
    var e :| Newest(EntrySet(es), u, s, e) && e.key.kind.Value?;
    i :| 0 <= i < |es| && es[i] == e;
    forall j | 0 <= j < i && es[j].key.user == u ensures !Seen(es, s, j) {
      assert es[j] in EntrySet(es);
      assert Less(es[j].key, e.key);
    }
  }

  class DBIter {
    const iter: MergingIterator
    const sequence: Sequence
    var savedKey: Option<UserKey>
    var savedValue: Bytes
    var direction: Direction
    var valid: bool
    // The live position the iterator stands at; |entries| when not valid.
    ghost var at: nat

    constructor (iter: MergingIterator, sequence: Sequence)
      requires iter.Ok()
      ensures this.iter == iter && this.sequence == sequence && Ok() && !valid
    {
      this.iter, this.sequence := iter, sequence;
      savedKey, savedValue, direction, valid := None, [], Forward, false;
      at := |iter.merged|;
    }

    ghost function Es(): seq<Entry> {
      iter.merged
    }

    // Moving backwards the inner iterator stands before every version of the current key that can be seen.
    ghost predicate Ok()
      reads this, iter, iter.children
      ensures Ok() ==> at <= |Es()| && (valid <==> at < |Es()|)
    {
      && iter.Ok() && at <= |Es()| && (valid <==> at < |Es()|)
      && (valid ==> IsLive(Es(), sequence, at))
      && (valid && direction.Forward? ==> iter.at == at)
      && (valid && direction.Reverse? ==>
            && savedKey == Some(Es()[at].key.user) && savedValue == Es()[at].value
            && StandsBefore(Es(), sequence, iter.at, at))
    }

    function Key(): (k: UserKey)
      requires Ok() && valid
      reads this, iter, iter.children
      ensures k == Es()[at].key.user
    {
      if direction.Forward? then iter.Entry().key.user else savedKey.value
    }

    function Value(): (v: Bytes)
      requires Ok() && valid
      reads this, iter, iter.children
      ensures v == Es()[at].value
    {
      if direction.Forward? then iter.Entry().value else savedValue
    }

    // Scan forward to the first acceptable entry at or after position `lo`.
    method FindNextUserEntry(skipping0: bool, ghost lo: nat)
      requires iter.Ok() && iter.Valid() && direction.Forward? && iter.at <= lo <= |Es()|
      requires skipping0 ==> savedKey.Some?
      requires Skips(Es(), sequence, iter.at, lo, skipping0, savedKey)
      modifies this, iter, iter.children
      ensures Ok() && direction.Forward? && at == NextLive(Es(), sequence, lo)
    {
      hide IsLive, Skips, MergingIterator.Ok;
      ghost var goal := NextLive(Es(), sequence, lo);
      var skipping := skipping0;
      while true
        invariant iter.Ok() && iter.Valid() && direction.Forward?
        invariant skipping ==> savedKey.Some?
        invariant Skips(Es(), sequence, iter.at, lo, skipping, savedKey)
        invariant iter.at <= goal
        decreases |Es()| - iter.at
      {
        var e := iter.Entry();
        if e.key.seqno <= sequence {
          if e.key.kind.Deletion? {
            DeletionHides(Es(), sequence, iter.at, lo, skipping, savedKey);
            savedKey := Some(e.key.user);
            skipping := true;
          } else if skipping && e.key.user <= savedKey.value {
            // Entry hidden.
          } else {
            ShownIsLive(Es(), sequence, iter.at, lo, skipping, savedKey);
            valid := true;
            savedKey := None;
            at := iter.at;
            return;
          }
        }
        StepSkips(Es(), sequence, iter.at, lo, skipping, savedKey);
        iter.Next();
        if !iter.Valid() {
          break;
        }
      }
      savedKey := None;
      valid := false;
      at := |Es()|;
    }

    // Scan backward for the last acceptable entry before position `hi`.
    method FindPrevUserEntry(ghost hi: nat)
      requires iter.Ok() && direction.Reverse? && hi <= |Es()| && (iter.Valid() ==> iter.at < hi)
      requires NoneLive(Es(), sequence, iter.at, hi)
      modifies this, iter, iter.children
      ensures Ok() && at == PrevLive(Es(), sequence, hi)
    {
      hide IsLive, NoneLive, StandsBefore, PrevLive, MergingIterator.Ok;
      var valueType := Kind.Deletion;
      ghost var m := 0;
      if iter.Valid() {
        while true
          invariant iter.Ok() && iter.Valid() && direction.Reverse? && iter.at < hi
          invariant valueType.Deletion? ==> NoneLive(Es(), sequence, iter.at, hi)
          invariant valueType.Value? ==> HoldsAt(Es(), sequence, iter.at, hi, m, savedKey, savedValue)
          decreases iter.at
        {
          var e := iter.Entry();
          if e.key.seqno <= sequence {
            if valueType.Value? && e.key.user < savedKey.value {
              break;
            }
            TakeHold(Es(), sequence, iter.at, hi, m, savedKey, savedValue);
            valueType := e.key.kind;
            if valueType.Deletion? {
              savedKey, savedValue := None, [];
              DeletionHolds(Es(), sequence, iter.at, hi);
            } else {
              savedKey, savedValue := Some(e.key.user), e.value;
              m := iter.at;
              ValueHolds(Es(), sequence, iter.at, hi);
            }
          } else {
            UnseenHolds(Es(), sequence, iter.at, hi, m, savedKey, savedValue);
          }
          iter.Prev();
          if !iter.Valid() {
            break;
          }
        }
      }
      if valueType.Deletion? {
        NoneIsLast(Es(), sequence, iter.at, hi);
        valid := false;
        savedKey, savedValue := None, [];
        direction := Forward;
        at := |Es()|;
      } else {
        valid := true;
        at := m;
        HeldIsLive(Es(), sequence, iter.at, hi, m, savedKey, savedValue);
      }
    }

    method Next()
      requires Ok() && valid
      modifies this, iter, iter.children
      ensures Ok() && at == NextLive(Es(), sequence, old(at) + 1)
    {
      hide MergingIterator.Ok;
      if direction.Reverse? {
        direction := Forward;
        // The inner iterator stands before the entries of this key; step into them.
        if !iter.Valid() {
          iter.SeekToFirst();
        } else {
          iter.Next();
        }
      } else {
        savedKey := Some(iter.Entry().key.user);
        iter.Next();
      }
      if !iter.Valid() {
        valid := false;
        savedKey := None;
        at := |Es()|;
        return;
      }
      FindNextUserEntry(true, at + 1);
    }

    method Prev()
      requires Ok() && valid
      modifies this, iter, iter.children
      ensures Ok() && at == PrevLive(Es(), sequence, old(at))
    {
      hide MergingIterator.Ok;
      ghost var hi := at;
      if direction.Forward? {
        savedKey := Some(iter.Entry().key.user);
        while true
          invariant iter.Ok() && iter.Valid() && iter.at <= hi
          invariant savedKey == Some(Es()[hi].key.user)
          invariant forall j :: iter.at <= j <= hi ==> Es()[j].key.user == Es()[hi].key.user
          decreases iter.at
        {
          UsersOrdered(Es(), hi);
          iter.Prev();
          if !iter.Valid() {
            SameUserNotLive(Es(), sequence, |Es()|, hi);
            valid := false;
            savedKey, savedValue := None, [];
            at := |Es()|;
            return;
          }
          if iter.Entry().key.user < savedKey.value {
            break;
          }
        }
        SameUserNotLive(Es(), sequence, iter.at, hi);
        direction := Reverse;
      } else {
        BetweenNotLive(Es(), sequence, iter.at, hi);
      }
      FindPrevUserEntry(hi);
    }

    method Seek(u: UserKey)
      requires Ok()
      modifies this, iter, iter.children
      ensures Ok() && at == NextLive(Es(), sequence, LowerBound(Es(), SeekKey(u, sequence)))
    {
      hide MergingIterator.Ok;
      direction := Forward;
      savedKey, savedValue := None, [];
      iter.Seek(SeekKey(u, sequence));
      if iter.Valid() {
        SeekSkips(Es(), sequence, u);
        FindNextUserEntry(false, iter.at);
      } else {
        valid := false;
        at := |Es()|;
      }
    }

    method SeekToFirst()
      requires Ok()
      modifies this, iter, iter.children
      ensures Ok() && at == NextLive(Es(), sequence, 0)
    {
      hide MergingIterator.Ok;
      direction := Forward;
      savedValue := [];
      iter.SeekToFirst();
      if iter.Valid() {
        FindNextUserEntry(false, 0);
      } else {
        valid := false;
        at := |Es()|;
      }
    }

    method SeekToLast()
      requires Ok()
      modifies this, iter, iter.children
      ensures Ok() && at == PrevLive(Es(), sequence, |Es()|)
    {
      hide MergingIterator.Ok;
      direction := Reverse;
      savedValue := [];
      iter.SeekToLast();
      FindPrevUserEntry(|Es()|);
    }
  }

  ghost predicate StandsBefore(es: seq<Entry>, s: Sequence, p: nat, at: nat)
    requires at < |es|
  {
    && p <= |es|
    && (p < |es| ==> p < at && es[p].key.user < es[at].key.user)
    && (forall j :: (p < j || p == |es|) && 0 <= j < at ==> !Seen(es, s, j))
  }

  // No live position after p (all positions, if p is not valid) and before hi.
  ghost predicate NoneLive(es: seq<Entry>, s: Sequence, p: nat, hi: nat)
  {
    forall j :: (p < j || p == |es|) && 0 <= j < hi && j < |es| ==> !IsLive(es, s, j)
  }

  // The value remembered while scanning backward comes from m, the last entry looked at that can be seen.
  ghost predicate HoldsAt(es: seq<Entry>, s: Sequence, p: nat, hi: nat, m: nat, key: Option<UserKey>, value: Bytes)
  {
    && hi <= |es| && m < hi && (p < m || p == |es|)
    && Seen(es, s, m) && es[m].key.kind.Value? && key == Some(es[m].key.user) && value == es[m].value
    && (forall j :: (p < j || p == |es|) && 0 <= j < m ==> !Seen(es, s, j))
    && (forall j :: m < j < hi ==> !IsLive(es, s, j))
  }

  lemma HeldIsLive(es: seq<Entry>, s: Sequence, p: nat, hi: nat, m: nat, key: Option<UserKey>, value: Bytes)
    requires Sorted(es) && HoldsAt(es, s, p, hi, m, key, value) && p <= |es|
    requires p < |es| ==> es[p].key.user < es[m].key.user
    ensures IsLive(es, s, m) && m == PrevLive(es, s, hi) && StandsBefore(es, s, p, m)
  {
    if p < |es| {
      UsersOrdered(es, p);
    }
    forall j | 0 <= j < m && es[j].key.user == es[m].key.user ensures !Seen(es, s, j) {
    }
  }

  lemma UsersOrdered(es: seq<Entry>, p: nat)
    requires Sorted(es) && p < |es|
    ensures forall j :: 0 <= j <= p ==> es[j].key.user <= es[p].key.user
  {
    forall j | 0 <= j < p ensures es[j].key.user <= es[p].key.user {
      assert Less(es[j].key, es[p].key);
    }
  }

  // The entry at p can be seen and does not belong to an earlier key than the value held: it takes its place.
  lemma TakeHold(es: seq<Entry>, s: Sequence, p: nat, hi: nat, m: nat, key: Option<UserKey>, value: Bytes)
    requires Sorted(es) && p < |es| && Seen(es, s, p) && p < hi <= |es|
    requires NoneLive(es, s, p, hi)
      || (HoldsAt(es, s, p, hi, m, key, value) && !(es[p].key.user < es[m].key.user))
    ensures forall j :: p < j < hi ==> !IsLive(es, s, j)
  {
    if HoldsAt(es, s, p, hi, m, key, value) {
      UsersOrdered(es, m);
    }
  }

  lemma NoneIsLast(es: seq<Entry>, s: Sequence, p: nat, hi: nat)
    requires p == |es| && hi <= |es| && NoneLive(es, s, p, hi)
    ensures PrevLive(es, s, hi) == |es|
  {
  }

  lemma DeletionHolds(es: seq<Entry>, s: Sequence, p: nat, hi: nat)
    requires p < |es| && es[p].key.kind.Deletion? && forall j :: p < j < hi ==> j < |es| && !IsLive(es, s, j)
    ensures NoneLive(es, s, Before(es, p), hi)
  {
  }

  lemma ValueHolds(es: seq<Entry>, s: Sequence, p: nat, hi: nat)
    requires p < |es| && p < hi <= |es| && es[p].key.kind.Value? && Seen(es, s, p)
    requires forall j :: p < j < hi ==> !IsLive(es, s, j)
    ensures HoldsAt(es, s, Before(es, p), hi, p, Some(es[p].key.user), es[p].value)
  {
  }

  lemma UnseenHolds(es: seq<Entry>, s: Sequence, p: nat, hi: nat, m: nat, key: Option<UserKey>, value: Bytes)
    requires p < |es| && !Seen(es, s, p)
    ensures NoneLive(es, s, p, hi) ==> NoneLive(es, s, Before(es, p), hi)
    ensures HoldsAt(es, s, p, hi, m, key, value) ==> HoldsAt(es, s, Before(es, p), hi, m, key, value)
  {
  }

  lemma SameUserNotLive(es: seq<Entry>, s: Sequence, p: nat, hi: nat)
    requires Sorted(es) && hi < |es| && IsLive(es, s, hi)
    requires forall j :: (p < j || p == |es|) && 0 <= j <= hi ==> es[j].key.user == es[hi].key.user
    ensures NoneLive(es, s, p, hi)
    ensures p == |es| ==> PrevLive(es, s, hi) == |es|
  {
  }

  lemma BetweenNotLive(es: seq<Entry>, s: Sequence, p: nat, at: nat)
    requires at < |es| && StandsBefore(es, s, p, at)
    ensures NoneLive(es, s, p, at)
  {
  }

  // Entries before q that can be seen hide nothing at or after q, except what the skip key covers; the skip key
  // covers no live entry at or after lo, and what lies between q and lo cannot be shown.
  ghost predicate Skips(es: seq<Entry>, s: Sequence, q: nat, lo: nat, skipping: bool, skip: Option<UserKey>)
    requires skipping ==> skip.Some?
  {
    && q <= |es| && lo <= |es|
    && (forall j, i :: 0 <= j < q <= i < |es| && Seen(es, s, j) && es[j].key.user == es[i].key.user
          ==> skipping && es[i].key.user <= skip.value)
    && (skipping ==> forall i :: q <= i < |es| && lo <= i && es[i].key.user <= skip.value ==> !IsLive(es, s, i))
    && (forall i :: q <= i < lo && Seen(es, s, i) ==> es[i].key.kind.Value? && skipping && es[i].key.user <= skip.value)
  }

  lemma DeletionHides(es: seq<Entry>, s: Sequence, q: nat, lo: nat, skipping: bool, skip: Option<UserKey>)
    requires skipping ==> skip.Some?
    requires Sorted(es) && q < |es| && Seen(es, s, q) && es[q].key.kind.Deletion? && Skips(es, s, q, lo, skipping, skip)
    ensures Skips(es, s, q, lo, true, Some(es[q].key.user))
  {
    var u := es[q].key.user;
    forall i | q <= i < |es| && es[i].key.user <= u ensures !IsLive(es, s, i) {
      if q < i {
        assert Less(es[q].key, es[i].key);
      }
    }
    forall j, i | 0 <= j < q <= i < |es| && Seen(es, s, j) && es[j].key.user == es[i].key.user
      ensures es[i].key.user <= u
    {
      assert Less(es[j].key, es[q].key);
    }
  }

  lemma ShownIsLive(es: seq<Entry>, s: Sequence, q: nat, lo: nat, skipping: bool, skip: Option<UserKey>)
    requires skipping ==> skip.Some?
    requires Sorted(es) && q < |es| && Seen(es, s, q) && es[q].key.kind.Value? && Skips(es, s, q, lo, skipping, skip)
    requires !(skipping && es[q].key.user <= skip.value)
    ensures IsLive(es, s, q) && lo <= q
  {
  }

  lemma StepSkips(es: seq<Entry>, s: Sequence, q: nat, lo: nat, skipping: bool, skip: Option<UserKey>)
    requires skipping ==> skip.Some?
    requires Sorted(es) && q < |es| && Skips(es, s, q, lo, skipping, skip)
    requires Seen(es, s, q) ==> skipping && es[q].key.user <= skip.value
    ensures Skips(es, s, q + 1, lo, skipping, skip)
    ensures lo <= q ==> !IsLive(es, s, q)
  {
  }

  lemma SeekSkips(es: seq<Entry>, s: Sequence, u: UserKey)
    requires Sorted(es)
    ensures var q := LowerBound(es, SeekKey(u, s)); Skips(es, s, q, q, false, None)
    ensures forall i :: 0 <= i < |es| && Seen(es, s, i) ==> (LowerBound(es, SeekKey(u, s)) <= i <==> u <= es[i].key.user)
  {
    var q := LowerBound(es, SeekKey(u, s));
    forall i | q <= i < |es| ensures u <= es[i].key.user {
      if q < i {
        assert Less(es[q].key, es[i].key);
      }
    }
  }

  // Seeking a user key lands on the first live position at or after it.
  lemma SeekLandsOnFirst(es: seq<Entry>, s: Sequence, u: UserKey, i: nat)
    requires Sorted(es) && i < |es| && IsLive(es, s, i) && u <= es[i].key.user
    ensures var r := NextLive(es, s, LowerBound(es, SeekKey(u, s)));
      r <= i && u <= es[r].key.user
  {
    SeekSkips(es, s, u);
  }

  // The calls a user can make. Next and Prev are allowed only at a valid position.
  datatype Call = CallNext | CallPrev | CallSeek(u: UserKey) | CallSeekToFirst | CallSeekToLast

  ghost function CursorStep(es: seq<Entry>, s: Sequence, at: nat, c: Call): (r: nat)
    requires at <= |es|
    ensures r <= |es|
  {
    match c
    case CallNext => if at < |es| then NextLive(es, s, at + 1) else at
    case CallPrev => if at < |es| then PrevLive(es, s, at) else at
    case CallSeek(u) => NextLive(es, s, LowerBound(es, SeekKey(u, s)))
    case CallSeekToFirst => NextLive(es, s, 0)
    case CallSeekToLast => PrevLive(es, s, |es|)
  }

  ghost function CursorRun(es: seq<Entry>, s: Sequence, at: nat, calls: seq<Call>): (r: nat)
    requires at <= |es|
    ensures r <= |es|
  {
    if calls == [] then at else
    CursorStep(es, s, CursorRun(es, s, at, calls[..|calls| - 1]), calls[|calls| - 1])
  }

  // Any sequence of calls, turning around at will, leaves the iterator where the cursor is.
  method Replay(it: DBIter, calls: seq<Call>)
    requires it.Ok()
    modifies it, it.iter, it.iter.children
    ensures it.Ok() && it.at == CursorRun(it.Es(), it.sequence, old(it.at), calls)
  {
    hide DBIter.Ok;
    for i := 0 to |calls|
      invariant it.Ok() && it.at == CursorRun(it.Es(), it.sequence, old(it.at), calls[..i])
    {
      assert calls[..i + 1][..i] == calls[..i];
      match calls[i] {
        case CallNext =>
          if it.valid {
            it.Next();
          }
        case CallPrev =>
          if it.valid {
            it.Prev();
          }
        case CallSeek(u) => it.Seek(u);
        case CallSeekToFirst => it.SeekToFirst();
        case CallSeekToLast => it.SeekToLast();
      }
    }
    assert calls[..|calls|] == calls;
  }
}
