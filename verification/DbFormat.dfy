/** Internal keys, their order, and what a read of one user key at one snapshot sees. */
module DbFormat {
  const NUM_LEVELS: nat := 7
  const MAX_SEQUENCE: nat := 0xff_ffff_ffff_ffff

  type Byte = b: nat | b < 256
  type Bytes = seq<Byte>

  // A user key stands for its position in the order of the user comparator. Byte strings are
  // countable, so every comparator embeds into the reals; module Comparators proves it for the
  // bytewise one.
  type UserKey = real
  type Sequence = n: nat | n <= MAX_SEQUENCE

  datatype Option<+T> = None | Some(value: T)

  datatype Kind = Deletion | Value

  datatype InternalKey = InternalKey(user: UserKey, seqno: Sequence, kind: Kind)

  datatype Entry = Entry(key: InternalKey, value: Bytes)

  // A packed trailer: the sequence number shifted over the one-byte type.
  function Tag(k: InternalKey): nat {
    k.seqno * 256 + if k.kind.Value? then 1 else 0
  }

  // Increasing user key, then decreasing trailer.
  predicate Less(a: InternalKey, b: InternalKey) {
    a.user < b.user || (a.user == b.user && Tag(a) > Tag(b))
  }

  // The least internal key that a read of `u` at snapshot `s` may see.
  function SeekKey(u: UserKey, s: Sequence): InternalKey {
    InternalKey(u, s, Value)
  }

  lemma TagInjective(a: InternalKey, b: InternalKey)
    requires a.user == b.user && Tag(a) == Tag(b)
    ensures a == b
  {
  }

  lemma LessIsTotal(a: InternalKey, b: InternalKey)
    ensures a == b || Less(a, b) || Less(b, a)
  {
    if a.user == b.user && Tag(a) == Tag(b) {
      TagInjective(a, b);
    }
  }

  ghost predicate Sorted(es: seq<Entry>) {
    forall i, j :: 0 <= i < j < |es| ==> Less(es[i].key, es[j].key)
  }

  predicate Sees(e: Entry, u: UserKey, s: Sequence) {
    e.key.user == u && e.key.seqno <= s
  }

  // `e` is the entry a read of `u` at `s` over `es` has to return: the newest it may see.
  ghost predicate Newest(es: set<Entry>, u: UserKey, s: Sequence, e: Entry) {
    && e in es && Sees(e, u, s)
    && forall d :: d in es && Sees(d, u, s) && d != e ==> Less(e.key, d.key)
  }

  ghost predicate NoneSeen(es: set<Entry>, u: UserKey, s: Sequence) {
    forall d :: d in es ==> !Sees(d, u, s)
  }

  // The meaning of a set of entries: the value a user reads, with deletions absent.
  ghost function Read(es: set<Entry>, u: UserKey, s: Sequence): (r: Option<Bytes>)
    ensures r.Some? <==> exists e :: Newest(es, u, s, e) && e.key.kind.Value?
    ensures forall e :: Newest(es, u, s, e) && e.key.kind.Value? ==> r == Some(e.value)
  {
    if exists e :: Newest(es, u, s, e) && e.key.kind.Value? then
      var e :| Newest(es, u, s, e) && e.key.kind.Value?;
      Some(e.value)
    else
      None
  }

  ghost predicate KeysDistinct(es: set<Entry>) {
    forall d, e :: d in es && e in es && d.key == e.key ==> d == e
  }

  // A read is well defined whenever no internal key occurs twice.
  lemma {:induction false} NewestExists(es: set<Entry>, u: UserKey, s: Sequence) returns (r: Option<Entry>)
    requires KeysDistinct(es)
    ensures r.None? ==> NoneSeen(es, u, s)
    ensures r.Some? ==> Newest(es, u, s, r.value)
    decreases es
  {
    if es == {} {
      r := None;
    } else {
      var d :| d in es;
      var rest := es - {d};
      r := NewestExists(rest, u, s);
      assert forall x :: x in es <==> x == d || x in rest;
      if Sees(d, u, s) {
        if r.None? {
          r := Some(d);
        } else {
          LessIsTotal(d.key, r.value.key);
          if Less(d.key, r.value.key) {
            r := Some(d);
          }
        }
      }
    }
  }

  // The result of a point lookup decides the read: a hit on a deletion and a miss both read as absent.
  lemma ReadFromNewest(es: set<Entry>, u: UserKey, s: Sequence, e: Entry)
    requires Newest(es, u, s, e)
    ensures Read(es, u, s) == if e.key.kind.Value? then Some(e.value) else None
  {
    if d: Entry :| Newest(es, u, s, d) && d.key.kind.Value? {
      assert d == e || (Less(d.key, e.key) && Less(e.key, d.key));
    }
  }

  // Two entry sets that agree on what a read sees read alike.
  lemma ReadDependsOnSeen(a: set<Entry>, b: set<Entry>, u: UserKey, s: Sequence)
    requires forall e :: Sees(e, u, s) ==> (e in a <==> e in b)
    ensures Read(a, u, s) == Read(b, u, s)
  {
    forall e ensures Newest(a, u, s, e) <==> Newest(b, u, s, e) {
    }
  }

  ghost function EntrySet(es: seq<Entry>): set<Entry> {
    set e | e in es
  }
}
