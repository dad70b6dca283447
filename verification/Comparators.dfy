/** Orders on byte strings: the bytewise comparator, internal keys on top of it, and the shortening of index keys. */
module Comparators {
  import opened DbFormat
  import opened Coding

  // A comparator: the strings it is meant for, its order, and its two ways to find a short string.
  datatype Comparator = Comparator(isKey: Bytes -> bool, before: (Bytes, Bytes) -> bool,
                                   separator: (Bytes, Bytes) -> Bytes, successor: Bytes -> Bytes) {
    predicate NotAfter(a: Bytes, b: Bytes) {
      !before(b, a)
    }

    ghost predicate IsOrder() {
      && (forall a, b :: isKey(a) && isKey(b) ==> a == b || before(a, b) || before(b, a))
      && (forall a, b :: before(a, b) ==> !before(b, a))
      && (forall a, b, c :: before(a, b) && before(b, c) ==> before(a, c))
    }

    // The index of a table relies on nothing else: a separator lies in [a, b), or is `a` when there is no room, and
    // a successor is at or after `a`; neither is ever longer.
    ghost predicate Separates() {
      && (forall a, b {:trigger separator(a, b)} :: isKey(a) && isKey(b) && before(a, b) ==>
            isKey(separator(a, b)) && NotAfter(a, separator(a, b)) && before(separator(a, b), b))
      && (forall a, b {:trigger separator(a, b)} :: isKey(a) && isKey(b) ==>
            |separator(a, b)| <= |a| && (a == b ==> separator(a, b) == a))
      && (forall a {:trigger successor(a)} :: isKey(a) ==>
            isKey(successor(a)) && NotAfter(a, successor(a)) && |successor(a)| <= |a|)
    }

    ghost predicate Ok() {
      IsOrder() && Separates()
    }
  }

  // ---- Bytewise -----------------------------------------------------------------------------------------------------

  // Lexicographic, and a prefix comes first.
  predicate Bytewise(a: Bytes, b: Bytes) {
    b != [] && (a == [] || a[0] < b[0] || (a[0] == b[0] && Bytewise(a[1..], b[1..])))
  }

  // Every string has a position on the real line, in bytewise order.
  function Rank(s: Bytes): (r: real)
    ensures 0.0 <= r < 1.0
  {
    if s == [] then 0.0 else (s[0] as real + 1.0 + Rank(s[1..])) / 257.0
  }

  lemma {:induction false} RankKeepsOrder(a: Bytes, b: Bytes)
    ensures Bytewise(a, b) <==> Rank(a) < Rank(b)
    ensures Rank(a) == Rank(b) ==> a == b
  {
    if a != [] && b != [] {
      RankKeepsOrder(a[1..], b[1..]);
      assert a == [a[0]] + a[1..] && b == [b[0]] + b[1..];
      assert a[0] < b[0] ==> a[0] as real + 1.0 <= b[0] as real;
      assert b[0] < a[0] ==> b[0] as real + 1.0 <= a[0] as real;
    }
  }

  lemma BytewiseIsOrder(a: Bytes, b: Bytes, c: Bytes)
    ensures a == b || Bytewise(a, b) || Bytewise(b, a)
    ensures Bytewise(a, b) ==> !Bytewise(b, a)
    ensures Bytewise(a, b) && Bytewise(b, c) ==> Bytewise(a, c)
  {
    RankKeepsOrder(a, b);
    RankKeepsOrder(b, a);
    RankKeepsOrder(b, c);
    RankKeepsOrder(a, c);
  }

  // The sign of a comparison, as memcmp and the lengths give it.
  method Compare(a: Bytes, b: Bytes) returns (r: int)
    ensures r < 0 <==> Bytewise(a, b)
    ensures r > 0 <==> Bytewise(b, a)
    ensures r == 0 <==> a == b
  {
    var n := if |a| < |b| then |a| else |b|;
    var i := 0;
    while i < n && a[i] == b[i]
      invariant i <= n && a[..i] == b[..i]
    {
      i := i + 1;
    }
    SkipCommon(a, b, i);
    SkipCommon(b, a, i);
    assert a == a[..i] + a[i..] && b == b[..i] + b[i..];
    if i < n {
      var x: int, y: int := a[i], b[i];
      r := x - y;
    } else if |a| < |b| {
      r := -1;
    } else if |a| > |b| {
      r := 1;
    } else {
      r := 0;
    }
  }

  lemma {:induction false} SkipCommon(a: Bytes, b: Bytes, i: nat)
    requires i <= |a| && i <= |b| && a[..i] == b[..i]
    ensures Bytewise(a, b) <==> Bytewise(a[i..], b[i..])
  {
    if i == 0 {
      assert a[0..] == a && b[0..] == b;
    } else {
      assert a[..i][0] == b[..i][0];
      assert a[..i][1..] == a[1..][..i - 1] && b[..i][1..] == b[1..][..i - 1];
      SkipCommon(a[1..], b[1..], i - 1);
      assert a[1..][i - 1..] == a[i..] && b[1..][i - 1..] == b[i..];
    }
  }

  // Length of the common prefix.
  function Common(a: Bytes, b: Bytes): (n: nat)
    ensures n <= |a| && n <= |b| && a[..n] == b[..n]
    ensures n < |a| && n < |b| ==> a[n] != b[n]
  {
    if a == [] || b == [] || a[0] != b[0] then 0 else
    assert a == [a[0]] + a[1..] && b == [b[0]] + b[1..];
    1 + Common(a[1..], b[1..])
  }

  lemma {:induction false} CommonIsLongest(a: Bytes, b: Bytes, n: nat)
    requires n <= |a| && n <= |b| && a[..n] == b[..n] && (n < |a| && n < |b| ==> a[n] != b[n])
    ensures n == Common(a, b)
  {
    if n > 0 {
      assert a[..n][0] == b[..n][0];
      assert a[..n][1..] == a[1..][..n - 1] && b[..n][1..] == b[1..][..n - 1];
      CommonIsLongest(a[1..], b[1..], n - 1);
    }
  }

  // Cut after the first difference, with that byte raised by one, if a byte fits between.
  function ShortestSeparator(start: Bytes, limit: Bytes): Bytes {
    var d := Common(start, limit);
    if d < |start| && d < |limit| && start[d] < 0xff && start[d] + 1 < limit[d]
    then start[..d] + [start[d] + 1] else start
  }

  method FindShortestSeparator(start: Bytes, limit: Bytes) returns (r: Bytes)
    ensures r == ShortestSeparator(start, limit)
  {
    r := start;
    var minLength := if |start| < |limit| then |start| else |limit|;
    var diffIndex := 0;
    while diffIndex < minLength && start[diffIndex] == limit[diffIndex]
      invariant diffIndex <= minLength && start[..diffIndex] == limit[..diffIndex]
    {
      diffIndex := diffIndex + 1;
    }
    CommonIsLongest(start, limit, diffIndex);
    if diffIndex >= minLength {
      // Do not shorten if one string is a prefix of the other.
    } else {
      var diffByte := start[diffIndex];
      if diffByte < 0xff && diffByte + 1 < limit[diffIndex] {
        r := r[diffIndex := diffByte + 1];
        r := r[..diffIndex + 1];
      }
    }
  }

  // The first byte that can be raised is raised, and the rest cut off.
  function ShortSuccessor(key: Bytes): Bytes {
    if key == [] then [] else if key[0] != 0xff then [key[0] + 1] else [key[0]] + ShortSuccessor(key[1..])
  }

  lemma SuccessorRaises(key: Bytes, i: nat)
    requires i < |key| && key[i] != 0xff
    ensures ShortSuccessor(key[i..]) == [key[i] + 1]
    ensures key[i := key[i] + 1][..i + 1] == key[..i] + [key[i] + 1]
  {
    var tail := key[i..];
    assert tail[0] == key[i];
    assert ShortSuccessor(tail) == [tail[0] + 1];
  }

  lemma SuccessorKeeps(key: Bytes, i: nat)
    requires i < |key| && key[i] == 0xff
    ensures key[..i] + ShortSuccessor(key[i..]) == key[..i + 1] + ShortSuccessor(key[i + 1..])
  {
    var tail := key[i..];
    assert tail[0] == key[i] && tail[1..] == key[i + 1..];
    assert ShortSuccessor(tail) == [key[i]] + ShortSuccessor(key[i + 1..]);
    hide ShortSuccessor;
    TakeOneMore(key, i, ShortSuccessor(key[i + 1..]));
  }

  lemma TakeOneMore<T>(s: seq<T>, i: nat, rest: seq<T>)
    requires i < |s|
    ensures s[..i] + ([s[i]] + rest) == s[..i + 1] + rest
  {
  }

  method FindShortSuccessor(key: Bytes) returns (r: Bytes)
    ensures r == ShortSuccessor(key)
  {
    var n := |key|;
    assert key[0..] == key && key[n..] == [] && key[..n] == key && key[..0] == [];
    assert ShortSuccessor(key[n..]) == [];
    hide ShortSuccessor;
    for i := 0 to n
      invariant ShortSuccessor(key) == key[..i] + ShortSuccessor(key[i..])
    {
      if key[i] != 0xff {
        SuccessorRaises(key, i);
        r := key[i := key[i] + 1];
        r := r[..i + 1];
        return;
      }
      SuccessorKeeps(key, i);
    }
    r := key;
  }

  lemma SeparatorLiesBetween(a: Bytes, b: Bytes)
    ensures |ShortestSeparator(a, b)| <= |a|
    ensures Bytewise(a, b) ==> !Bytewise(ShortestSeparator(a, b), a) && Bytewise(ShortestSeparator(a, b), b)
    ensures !Bytewise(a, b) ==> ShortestSeparator(a, b) == a
  {
    var r, d := ShortestSeparator(a, b), Common(a, b);
    BytewiseIsOrder(a, a, a);
    if r != a {
      assert r[..d] == a[..d] == b[..d];
      SkipCommon(a, b, d);
      SkipCommon(r, a, d);
      SkipCommon(r, b, d);
    } else if d < |a| && d < |b| {
      SkipCommon(a, b, d);
    }
  }

  lemma {:induction false} SuccessorIsNotBefore(a: Bytes)
    ensures |ShortSuccessor(a)| <= |a| && !Bytewise(ShortSuccessor(a), a)
  {
    if a != [] && a[0] == 0xff {
      SuccessorIsNotBefore(a[1..]);
    }
  }

  function BytewiseComparator(): Comparator {
    Comparator(_ => true, Bytewise, ShortestSeparator, ShortSuccessor)
  }

  lemma BytewiseOrders()
    ensures BytewiseComparator().IsOrder()
  {
    hide Bytewise, ShortestSeparator, ShortSuccessor;
    forall a, b ensures (a == b || Bytewise(a, b) || Bytewise(b, a)) && (Bytewise(a, b) ==> !Bytewise(b, a)) {
      BytewiseIsOrder(a, b, a);
    }
    forall a, b, c | Bytewise(a, b) && Bytewise(b, c) ensures Bytewise(a, c) {
      BytewiseIsOrder(a, b, c);
    }
  }

  lemma BytewiseSeparates()
    ensures BytewiseComparator().Separates()
  {
    hide Bytewise, ShortestSeparator, ShortSuccessor;
    forall a, b
      ensures Bytewise(a, b) ==> !Bytewise(ShortestSeparator(a, b), a) && Bytewise(ShortestSeparator(a, b), b)
      ensures |ShortestSeparator(a, b)| <= |a|
    {
      SeparatorLiesBetween(a, b);
    }
    forall a
      ensures ShortestSeparator(a, a) == a && |ShortSuccessor(a)| <= |a| && !Bytewise(ShortSuccessor(a), a)
    {
      SeparatorLiesBetween(a, a);
      BytewiseIsOrder(a, a, a);
      SuccessorIsNotBefore(a);
    }
  }

  lemma BytewiseIsOk()
    ensures BytewiseComparator().Ok()
  {
    BytewiseOrders();
    BytewiseSeparates();
    hide Comparator.IsOrder, Comparator.Separates;
  }

  // ---- Internal keys ----------------------------------------------------------------------------------------------------

  function UserPart(k: Bytes): Bytes
    requires |k| >= 8
  {
    k[..|k| - 8]
  }

  function TagPart(k: Bytes): nat
    requires |k| >= 8
  {
    Unfixed(k[|k| - 8..])
  }

  // Increasing user key, then decreasing tag.
  predicate InternalBefore(user: Comparator, a: Bytes, b: Bytes) {
    && |a| >= 8 && |b| >= 8
    && (user.before(UserPart(a), UserPart(b)) || (UserPart(a) == UserPart(b) && TagPart(a) > TagPart(b)))
  }

  // The tag that sorts before all others of its user key.
  const SEEK_TAG: nat := MAX_SEQUENCE * 256 + 1

  function Shortened(user: Comparator, key: Bytes, tmp: Bytes): Bytes
    requires |key| >= 8
  {
    if |tmp| < |UserPart(key)| && user.before(UserPart(key), tmp) then tmp + Fixed(SEEK_TAG, 8) else key
  }

  function InternalSeparator(user: Comparator, a: Bytes, b: Bytes): Bytes {
    if |a| >= 8 && |b| >= 8 then Shortened(user, a, user.separator(UserPart(a), UserPart(b))) else a
  }

  function InternalSuccessor(user: Comparator, a: Bytes): Bytes {
    if |a| >= 8 then Shortened(user, a, user.successor(UserPart(a))) else a
  }

  function InternalKeyComparator(user: Comparator): Comparator {
    Comparator(k => |k| >= 8 && user.isKey(UserPart(k)), (a, b) => InternalBefore(user, a, b),
               (a, b) => InternalSeparator(user, a, b), a => InternalSuccessor(user, a))
  }

  lemma SameParts(a: Bytes, b: Bytes)
    requires |a| >= 8 && |b| >= 8 && UserPart(a) == UserPart(b) && TagPart(a) == TagPart(b)
    ensures a == b
  {
    FixedUnfixed(a[|a| - 8..]);
    FixedUnfixed(b[|b| - 8..]);
    assert a == UserPart(a) + a[|a| - 8..] && b == UserPart(b) + b[|b| - 8..];
  }

  lemma InternalIsOrder(user: Comparator)
    requires user.Ok()
    ensures InternalKeyComparator(user).IsOrder()
  {
    forall a, b | |a| >= 8 && |b| >= 8 && user.isKey(UserPart(a)) && user.isKey(UserPart(b))
      ensures a == b || InternalBefore(user, a, b) || InternalBefore(user, b, a)
    {
      if UserPart(a) == UserPart(b) && TagPart(a) == TagPart(b) {
        SameParts(a, b);
      }
    }
  }

  lemma ShortenedParts(tmp: Bytes)
    ensures var k := tmp + Fixed(SEEK_TAG, 8); |k| >= 8 && UserPart(k) == tmp
  {
    var k := tmp + Fixed(SEEK_TAG, 8);
    assert k[..|k| - 8] == tmp;
  }

  lemma UserOrder(c: Comparator, a: Bytes, b: Bytes, d: Bytes)
    requires c.Ok()
    ensures !(c.before(a, b) && c.before(b, a))
    ensures c.before(a, b) && c.before(b, d) ==> c.before(a, d)
  {
    hide Comparator.Separates;
  }

  lemma UserSeparator(c: Comparator, a: Bytes, b: Bytes)
    requires c.Ok() && c.isKey(a) && c.isKey(b)
    ensures c.before(a, b) ==> c.isKey(c.separator(a, b)) && c.before(c.separator(a, b), b)
    ensures c.separator(a, a) == a && c.isKey(c.successor(a))
  {
    hide Comparator.IsOrder;
  }

  // Shortening keeps the order: a user key that became shorter is larger, so any tag will do.
  lemma SeparatorOfPair(user: Comparator, a: Bytes, b: Bytes)
    requires user.Ok() && |a| >= 8 && |b| >= 8 && user.isKey(UserPart(a)) && user.isKey(UserPart(b))
    requires InternalBefore(user, a, b)
    ensures var r := InternalSeparator(user, a, b);
      |r| >= 8 && user.isKey(UserPart(r)) && !InternalBefore(user, r, a) && InternalBefore(user, r, b)
  {
    hide Comparator.Ok, Unfixed, Fixed;
    var ua, ub := UserPart(a), UserPart(b);
    var tmp := user.separator(ua, ub);
    ShortenedParts(tmp);
    UserSeparator(user, ua, ub);
    UserOrder(user, ua, tmp, ub);
    UserOrder(user, ua, ub, ua);
    UserOrder(user, ua, ua, ua);
  }

  lemma SuccessorOf(user: Comparator, a: Bytes)
    requires user.Ok() && |a| >= 8 && user.isKey(UserPart(a))
    ensures var r := InternalSuccessor(user, a);
      |r| >= 8 && user.isKey(UserPart(r)) && !InternalBefore(user, r, a)
    ensures InternalSeparator(user, a, a) == a
  {
    hide Comparator.Ok, Unfixed, Fixed;
    var ua := UserPart(a);
    var tmp := user.successor(ua);
    ShortenedParts(tmp);
    UserSeparator(user, ua, ua);
    UserOrder(user, ua, tmp, ua);
    UserOrder(user, ua, ua, ua);
  }

  lemma NeverLonger(user: Comparator, a: Bytes, b: Bytes)
    ensures |InternalSeparator(user, a, b)| <= |a| && |InternalSuccessor(user, a)| <= |a|
  {
  }

  lemma InternalSeparates(user: Comparator)
    requires user.Ok()
    ensures InternalKeyComparator(user).Separates()
  {
    hide Comparator.Ok, InternalBefore, InternalSeparator, InternalSuccessor;
    var c := InternalKeyComparator(user);
    forall a, b | c.isKey(a) && c.isKey(b) && c.before(a, b)
      ensures c.isKey(c.separator(a, b)) && c.NotAfter(a, c.separator(a, b)) && c.before(c.separator(a, b), b)
    {
      SeparatorOfPair(user, a, b);
    }
    forall a, b ensures |InternalSeparator(user, a, b)| <= |a| && |InternalSuccessor(user, a)| <= |a| {
      NeverLonger(user, a, b);
    }
    forall a | c.isKey(a)
      ensures c.separator(a, a) == a && c.isKey(c.successor(a)) && c.NotAfter(a, c.successor(a))
    {
      SuccessorOf(user, a);
    }
  }

  lemma InternalIsOk(user: Comparator)
    requires user.Ok()
    ensures InternalKeyComparator(user).Ok()
  {
    InternalIsOrder(user);
    InternalSeparates(user);
  }

  // ---- Byte strings and positions ----------------------------------------------------------------------------------------

  predicate ParsesAsInternal(k: Bytes) {
    |k| >= 8 && TagPart(k) % 256 <= 1 && TagPart(k) / 256 <= MAX_SEQUENCE
  }

  function Decoded(k: Bytes): InternalKey
    requires ParsesAsInternal(k)
  {
    InternalKey(Rank(UserPart(k)), TagPart(k) / 256, if TagPart(k) % 256 == 1 then Value else Deletion)
  }

  // Internal keys of the other modules are encoded ones, with each user key replaced by its position.
  lemma DecodedKeepsOrder(a: Bytes, b: Bytes)
    requires ParsesAsInternal(a) && ParsesAsInternal(b)
    ensures InternalBefore(BytewiseComparator(), a, b) <==> Less(Decoded(a), Decoded(b))
    ensures Decoded(a) == Decoded(b) ==> a == b
  {
    hide Unfixed, Bytewise, Rank;
    RankKeepsOrder(UserPart(a), UserPart(b));
    assert Tag(Decoded(a)) == TagPart(a) && Tag(Decoded(b)) == TagPart(b);
    if Decoded(a) == Decoded(b) {
      SameParts(a, b);
    }
  }
}
