/** A cursor over a sorted sequence of entries, and the merge of several of them. */
module Iterators {
  import opened DbFormat
  import opened Versions

  // The positions a cursor over `es` may take; |es| stands for "not valid".
  function Last(es: seq<Entry>): nat {
    if es == [] then 0 else |es| - 1
  }

  function Before(es: seq<Entry>, p: nat): nat
    requires p < |es|
  {
    if p == 0 then |es| else p - 1
  }

  class Iterator {
    const entries: seq<Entry>
    var pos: nat

    constructor (entries: seq<Entry>)
      requires Sorted(entries)
      ensures this.entries == entries && Ok() && pos == |entries|
    {
      this.entries, pos := entries, |entries|;
    }

    ghost predicate Ok()
      reads this
    {
      Sorted(entries) && pos <= |entries|
    }

    predicate Valid()
      reads this
    {
      pos < |entries|
    }

    function Entry(): Entry
      requires Valid()
      reads this
    {
      entries[pos]
    }

    method SeekToFirst()
      requires Ok()
      modifies this
      ensures Ok() && pos == 0
    {
      pos := 0;
    }

    method SeekToLast()
      requires Ok()
      modifies this
      ensures Ok() && pos == Last(entries)
    {
      pos := Last(entries);
    }

    method Seek(k: InternalKey)
      requires Ok()
      modifies this
      ensures Ok() && pos == LowerBound(entries, k)
    {
      pos := LowerBound(entries, k);
    }

    method Next()
      requires Ok() && Valid()
      modifies this
      ensures Ok() && pos == old(pos) + 1
    {
      pos := pos + 1;
    }

    method Prev()
      requires Ok() && Valid()
      modifies this
      ensures Ok() && pos == Before(entries, old(pos))
    {
      pos := Before(entries, pos);
    }
  }
}
