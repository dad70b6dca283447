/** The queue of writers: the one at its front writes for as many of the others as it may. */
module WriteQueue {
  import opened DbFormat
  import opened Coding
  import opened WriteBatches

  // A write without a batch only asks for a new memtable.
  datatype Request = Request(batch: Option<seq<Op>>, sync: bool)

  const SMALL_WRITE: nat := 0x2_0000
  const MAX_GROUP: nat := 0x10_0000

  // ---- Grouping -------------------------------------------------------------------------------------------------

  ghost predicate Fits(r: Request) {
    r.batch.Some? ==> OpsFit(r.batch.value) && |r.batch.value| <= MAX_COUNT
  }

  ghost predicate AllFit(q: seq<Request>) {
    forall i :: 0 <= i < |q| ==> Fits(q[i])
  }

  // How large a group may get behind a first batch of this size.
  function MaxSize(first: nat): nat {
    if first <= SMALL_WRITE then first + SMALL_WRITE else MAX_GROUP
  }

  // How many of the queued requests join a group of the given size.
  ghost function Followers(q: seq<Request>, sync: bool, size: nat, maxSize: nat): (n: nat)
    requires AllFit(q)
    ensures n <= |q|
  {
    if q == [] || (q[0].sync && !sync) then 0
    else if q[0].batch.None? then 1 + Followers(q[1..], sync, size, maxSize)
    else
      assert Fits(q[0]);
      var more := size + BatchSize(q[0].batch.value);
      if more > maxSize then 0 else 1 + Followers(q[1..], sync, more, maxSize)
  }

  ghost function GroupSize(q: seq<Request>): (n: nat)
    requires AllFit(q) && q != [] && q[0].batch.Some?
    ensures 0 < n <= |q|
  {
    assert Fits(q[0]);
    var size := BatchSize(q[0].batch.value);
    1 + Followers(q[1..], q[0].sync, size, MaxSize(size))
  }

  ghost function BytesOf(r: Request): nat
    requires Fits(r)
  {
    if r.batch.Some? then BatchSize(r.batch.value) else 0
  }

  // The bytes of the batches of the first `n` requests.
  ghost function BatchBytes(q: seq<Request>, n: nat): nat
    requires AllFit(q) && n <= |q|
  {
    if n == 0 then 0 else
    assert Fits(q[n - 1]);
    BatchBytes(q, n - 1) + BytesOf(q[n - 1])
  }

  lemma {:induction false} BytesFrom(q: seq<Request>, n: nat)
    requires AllFit(q) && n < |q|
    ensures Fits(q[0]) && BatchBytes(q, n + 1) == BytesOf(q[0]) + BatchBytes(q[1..], n)
  {
    assert Fits(q[0]) && Fits(q[n]);
    if n > 0 {
      BytesFrom(q, n - 1);
      assert q[1..][n - 1] == q[n];
    }
  }

  lemma {:induction false} NoBytes(q: seq<Request>, n: nat)
    requires AllFit(q) && n <= |q| && forall i :: 0 <= i < n ==> q[i].batch.None?
    ensures BatchBytes(q, n) == 0
  {
    if n > 0 {
      assert Fits(q[n - 1]);
      NoBytes(q, n - 1);
    }
  }

  // The first `n` requests may join a group of the given size, and the next one, if there is one, may not: it is
  // synchronous behind a leader that is not, or its batch makes the group too large.
  ghost predicate Largest(q: seq<Request>, n: nat, sync: bool, size: nat, maxSize: nat)
    requires AllFit(q)
  {
    && n <= |q| && (forall i :: 0 <= i < n ==> !q[i].sync || sync)
    && (size + BatchBytes(q, n) <= maxSize || forall i :: 0 <= i < n ==> q[i].batch.None?)
    && (n < |q| ==> (q[n].sync && !sync) || (q[n].batch.Some? && size + BatchBytes(q, n + 1) > maxSize))
  }

  lemma LargestGrows(q: seq<Request>, n: nat, sync: bool, size: nat, maxSize: nat)
    requires AllFit(q) && q != [] && Fits(q[0]) && (!q[0].sync || sync)
    requires q[0].batch.Some? ==> size + BytesOf(q[0]) <= maxSize
    requires Largest(q[1..], n, sync, size + BytesOf(q[0]), maxSize)
    ensures Largest(q, n + 1, sync, size, maxSize)
  {
    hide BatchSize;
    BytesFrom(q, n);
    if n < |q[1..]| {
      BytesFrom(q, n + 1);
    }
    if forall i :: 0 <= i < n ==> q[1..][i].batch.None? {
      NoBytes(q[1..], n);
    }
    forall i | 0 <= i < n + 1 ensures !q[i].sync || sync {
      assert i > 0 ==> q[i] == q[1..][i - 1];
    }
    forall i | 0 < i < n + 1 ensures q[i] == q[1..][i - 1] {
    }
  }

  lemma FollowersFirst(q: seq<Request>, sync: bool, size: nat, maxSize: nat)
    requires AllFit(q) && q != []
    ensures Fits(q[0]) && AllFit(q[1..])
    ensures var more := size + BytesOf(q[0]);
      Followers(q, sync, size, maxSize)
      == if (q[0].sync && !sync) || (q[0].batch.Some? && more > maxSize) then 0
         else 1 + Followers(q[1..], sync, more, maxSize)
  {
    assert Fits(q[0]);
    hide BatchSize;
  }

  lemma NoneIsLargest(q: seq<Request>, sync: bool, size: nat, maxSize: nat)
    requires AllFit(q)
    requires q != [] ==> Fits(q[0]) && ((q[0].sync && !sync) || (q[0].batch.Some? && size + BytesOf(q[0]) > maxSize))
    ensures Largest(q, 0, sync, size, maxSize)
  {
    if q != [] {
      assert BatchBytes(q, 1) == BatchBytes(q, 0) + BytesOf(q[0]);
    }
  }

  lemma {:induction false} FollowersAreMost(q: seq<Request>, sync: bool, size: nat, maxSize: nat)
    requires AllFit(q)
    ensures Largest(q, Followers(q, sync, size, maxSize), sync, size, maxSize)
    decreases |q|
  {
    hide Fits, Largest, BytesOf;
    if q == [] {
      NoneIsLargest(q, sync, size, maxSize);
    } else {
      FollowersFirst(q, sync, size, maxSize);
      hide AllFit, Followers;
      var more := size + BytesOf(q[0]);
      if (q[0].sync && !sync) || (q[0].batch.Some? && more > maxSize) {
        NoneIsLargest(q, sync, size, maxSize);
      } else {
        FollowersAreMost(q[1..], sync, more, maxSize);
        LargestGrows(q, Followers(q[1..], sync, more, maxSize), sync, size, maxSize);
      }
    }
  }

  lemma LeaderGrows(q: seq<Request>, n: nat, limit: nat)
    requires AllFit(q) && q != [] && Fits(q[0]) && Largest(q[1..], n, q[0].sync, BytesOf(q[0]), limit)
    ensures n + 1 <= |q|
    ensures BatchBytes(q, n + 1) <= limit || forall i :: 0 < i < n + 1 ==> q[i].batch.None?
    ensures forall i :: 0 <= i < n + 1 ==> !q[i].sync || q[0].sync
    ensures n + 1 < |q| ==>
      (q[n + 1].sync && !q[0].sync) || (q[n + 1].batch.Some? && BatchBytes(q, n + 2) > limit)
  {
    BytesFrom(q, n);
    if n < |q[1..]| {
      BytesFrom(q, n + 1);
    }
    hide AllFit, Fits, BytesOf, BatchBytes;
    forall i | 0 < i < n + 1 ensures q[i] == q[1..][i - 1] {
    }
  }

  /**
   * A group takes in requests up to the first that may not join: it stays within the limit unless only its leader
   * has a batch, and it could not have been extended.
   */
  lemma GroupIsLargest(q: seq<Request>)
    requires AllFit(q) && q != [] && q[0].batch.Some?
    ensures Fits(q[0])
    ensures
      var n, first := GroupSize(q), BatchSize(q[0].batch.value);
      var limit := if first <= SMALL_WRITE then first + SMALL_WRITE else MAX_GROUP;
      && (BatchBytes(q, n) <= limit || forall i :: 0 < i < n ==> q[i].batch.None?)
      && (forall i :: 0 <= i < n ==> !q[i].sync || q[0].sync)
      && (n < |q| ==> (q[n].sync && !q[0].sync) || (q[n].batch.Some? && BatchBytes(q, n + 1) > limit))
  {
    hide *;
    LeaderFirst(q);
    var size := BatchSize(q[0].batch.value);
    LimitIs(size);
    FollowersAreMost(q[1..], q[0].sync, size, MaxSize(size));
    LeaderGrows(q, Followers(q[1..], q[0].sync, size, MaxSize(size)), MaxSize(size));
  }

  lemma LeaderFirst(q: seq<Request>)
    requires AllFit(q) && q != [] && q[0].batch.Some?
    ensures Fits(q[0]) && OpsFit(q[0].batch.value) && AllFit(q[1..]) && BytesOf(q[0]) == BatchSize(q[0].batch.value)
    ensures
      var size := BatchSize(q[0].batch.value);
      GroupSize(q) == 1 + Followers(q[1..], q[0].sync, size, MaxSize(size))
  {
    assert Fits(q[0]);
    hide Followers, BatchSize, MaxSize;
  }

  lemma LimitIs(size: nat)
    ensures MaxSize(size) == if size <= SMALL_WRITE then size + SMALL_WRITE else MAX_GROUP
  {
  }

  function OpsOf(r: Request): seq<Op> {
    if r.batch.None? then [] else r.batch.value
  }

  function AllOps(q: seq<Request>): seq<Op> {
    if q == [] then [] else AllOps(q[..|q| - 1]) + OpsOf(q[|q| - 1])
  }

  // ---- The steps of a run -----------------------------------------------------------------------------------------

  // A group under way: how many requests, and, unless there was no room, what is written under which first number.
  datatype Group = Group(size: nat, roomOk: bool, written: Option<seq<Op>>, first: nat)

  // A completed request: the leader of its group and whether that was itself, the number of its first operation if
  // the group was written, and the outcome.
  datatype Served = Served(request: Request, leader: Request, led: bool, first: Option<nat>, ok: bool)

  datatype State = State(queue: seq<Request>, lastSequence: nat, group: Option<Group>)

  // The whole run so far: requests in order of arrival, completed ones, and what went into the memtable.
  datatype History = History(arrived: seq<Request>, served: seq<Served>, adds: seq<(nat, Op)>)

  datatype System = System(state: State, history: History)

  datatype Event =
    | Arrive(request: Request)
    | Lead(roomOk: bool)
    | Finish(ok: bool)

  // What the writer at the front of the queue does once there is room, or there is an error instead.
  ghost function Led(q: seq<Request>, lastSequence: nat, roomOk: bool): (g: Group)
    requires AllFit(q) && q != []
    ensures 0 < g.size <= |q|
  {
    if roomOk && q[0].batch.Some? then Group(GroupSize(q), true, Some(AllOps(q[..GroupSize(q)])), lastSequence + 1)
    else Group(1, roomOk, None, lastSequence + 1)
  }

  function Written(g: Group): seq<Op> {
    if g.written.None? then [] else g.written.value
  }

  function ServedAs(q: seq<Request>, r: Request, leader: Request, g: Group, ok: bool): Served {
    Served(r, leader, q == [], if g.written.None? then None else Some(g.first + |AllOps(q)|), ok)
  }

  // The requests of a finished group, each with the number of its first operation.
  function Completed(q: seq<Request>, leader: Request, g: Group, ok: bool): seq<Served> {
    if q == [] then []
    else Completed(q[..|q| - 1], leader, g, ok) + [ServedAs(q[..|q| - 1], q[|q| - 1], leader, g, ok)]
  }

  // A request may arrive at any time, also while a group is being written.
  ghost predicate Next(a: System, e: Event, b: System) {
    match e
    case Arrive(r) =>
      && Fits(r)
      && b.state == a.state.(queue := a.state.queue + [r])
      && b.history == a.history.(arrived := a.history.arrived + [r])
    case Lead(roomOk) =>
      && a.state.group.None? && a.state.queue != [] && AllFit(a.state.queue)
      && b.state == a.state.(group := Some(Led(a.state.queue, a.state.lastSequence, roomOk)))
      && b.history == a.history
    case Finish(ok) =>
      && a.state.group.Some? && a.state.queue != []
      && var g := a.state.group.value;
      && g.size <= |a.state.queue|
      && b.state == State(a.state.queue[g.size..], a.state.lastSequence + |Written(g)|, None)
      && var allOk := if g.written.Some? then ok else g.roomOk;
         b.history == History(
           a.history.arrived,
           a.history.served + Completed(a.state.queue[..g.size], a.state.queue[0], g, allOk),
           a.history.adds + if allOk then Number(Written(g), g.first) else [])
  }

  // ---- What every run keeps ---------------------------------------------------------------------------------------

  function Requests(served: seq<Served>): seq<Request> {
    seq(|served|, i requires 0 <= i < |served| => served[i].request)
  }

  function OpsWritten(s: Served): seq<Op> {
    if s.first.Some? then OpsOf(s.request) else []
  }

  // The last number in use after these.
  function LastAfter(served: seq<Served>, start: nat): nat {
    if served == [] then start
    else LastAfter(served[..|served| - 1], start) + |OpsWritten(served[|served| - 1])|
  }

  // Each written request gets the numbers behind all earlier ones.
  ghost predicate Consecutive(served: seq<Served>, start: nat) {
    forall i :: 0 <= i < |served| && served[i].first.Some? ==>
      served[i].first.value == LastAfter(served[..i], start) + 1
  }

  ghost predicate SyncLed(served: seq<Served>) {
    forall i :: 0 <= i < |served| && served[i].request.sync ==> served[i].leader.sync
  }

  // What the successful ones put into the memtable, request by request.
  function AddsOf(served: seq<Served>): seq<(nat, Op)> {
    if served == [] then []
    else
      var last := served[|served| - 1];
      AddsOf(served[..|served| - 1])
      + if last.ok && last.first.Some? then Number(OpsOf(last.request), last.first.value) else []
  }

  // A group under way stands at the front of the queue.
  ghost predicate GroupOk(s: State) {
    s.group.Some? ==>
      var g := s.group.value;
      && 0 < g.size <= |s.queue| && g.first == s.lastSequence + 1
      && (g.written.Some? ==> g.written.value == AllOps(s.queue[..g.size]))
      && forall i :: 0 <= i < g.size && s.queue[i].sync ==> s.queue[0].sync
  }

  ghost predicate Inv(y: System, start: nat) {
    && AllFit(y.state.queue)
    && y.history.arrived == Requests(y.history.served) + y.state.queue
    && y.state.lastSequence == LastAfter(y.history.served, start)
    && Consecutive(y.history.served, start)
    && SyncLed(y.history.served)
    && y.history.adds == AddsOf(y.history.served)
    && GroupOk(y.state)
  }

  lemma {:induction false} FollowersAreLed(q: seq<Request>, sync: bool, size: nat, maxSize: nat, i: nat)
    requires AllFit(q) && i < Followers(q, sync, size, maxSize) && q[i].sync
    ensures sync
    decreases |q|
  {
    if i > 0 {
      var more := if q[0].batch.None? then size else assert Fits(q[0]); size + BatchSize(q[0].batch.value);
      FollowersAreLed(q[1..], sync, more, maxSize, i - 1);
    }
  }

  lemma LedIsOk(q: seq<Request>, lastSequence: nat, roomOk: bool)
    requires AllFit(q) && q != []
    ensures GroupOk(State(q, lastSequence, Some(Led(q, lastSequence, roomOk))))
  {
    var g := Led(q, lastSequence, roomOk);
    forall i | 0 <= i < g.size && q[i].sync ensures q[0].sync {
      if i > 0 {
        assert Fits(q[0]);
        var size := BatchSize(q[0].batch.value);
        FollowersAreLed(q[1..], q[0].sync, size, MaxSize(size), i - 1);
      }
    }
  }

  lemma NumberConcat(a: seq<Op>, b: seq<Op>, first: nat)
    ensures Number(a + b, first) == Number(a, first) + Number(b, first + |a|)
  {
  }

  lemma SnocServed(served: seq<Served>, s: Served, start: nat)
    ensures LastAfter(served + [s], start) == LastAfter(served, start) + |OpsWritten(s)|
    ensures AddsOf(served + [s])
      == AddsOf(served) + if s.ok && s.first.Some? then Number(OpsOf(s.request), s.first.value) else []
    ensures Requests(served + [s]) == Requests(served) + [s.request]
  {
    assert (served + [s])[..|served|] == served;
  }

  lemma SnocConsecutive(served: seq<Served>, s: Served, start: nat)
    requires Consecutive(served, start) && (s.first.Some? ==> s.first.value == LastAfter(served, start) + 1)
    ensures Consecutive(served + [s], start)
  {
    var more := served + [s];
    forall i | 0 <= i < |more| && more[i].first.Some?
      ensures more[i].first.value == LastAfter(more[..i], start) + 1
    {
      if i < |served| {
        assert more[..i] == served[..i];
      } else {
        assert more[..i] == served;
      }
    }
  }

  // What a group's first requests `q` add to those served before.
  ghost predicate Completes(
      all: seq<Served>, served: seq<Served>, q: seq<Request>, g: Group, ok: bool, start: nat) {
    && Consecutive(all, start) && SyncLed(all)
    && Requests(all) == Requests(served) + q
    && LastAfter(all, start) == LastAfter(served, start) + (if g.written.Some? then |AllOps(q)| else 0)
    && AddsOf(all) == AddsOf(served) + if ok && g.written.Some? then Number(AllOps(q), g.first) else []
  }

  lemma SnocOps(q: seq<Request>, r: Request)
    ensures AllOps(q + [r]) == AllOps(q) + OpsOf(r)
  {
    assert (q + [r])[..|q|] == q;
  }

  lemma AddsStep(all: seq<Served>, q: seq<Request>, r: Request, leader: Request,
                 g: Group, ok: bool, start: nat, before: seq<(nat, Op)>)
    requires AddsOf(all) == before + if ok && g.written.Some? then Number(AllOps(q), g.first) else []
    ensures AddsOf(all + [ServedAs(q, r, leader, g, ok)])
      == before + if ok && g.written.Some? then Number(AllOps(q + [r]), g.first) else []
  {
    hide Number, AllOps, LastAfter, AddsOf, Requests, OpsOf, Consecutive, SyncLed;
    SnocServed(all, ServedAs(q, r, leader, g, ok), start);
    if ok && g.written.Some? {
      SnocOps(q, r);
      NumberConcat(AllOps(q), OpsOf(r), g.first);
      Assoc(before, Number(AllOps(q), g.first), Number(OpsOf(r), g.first + |AllOps(q)|));
    } else {
      NothingMore(AddsOf(all));
    }
  }

  lemma NothingMore<T>(a: seq<T>)
    ensures a + [] == a
  {
  }

  lemma SnocSync(served: seq<Served>, s: Served)
    requires SyncLed(served) && (s.request.sync ==> s.leader.sync)
    ensures SyncLed(served + [s])
  {
  }

  // One request more.
  lemma GroupStep(all: seq<Served>, served: seq<Served>, q: seq<Request>, r: Request, leader: Request,
                  g: Group, ok: bool, start: nat)
    requires g.first == LastAfter(served, start) + 1 && (r.sync ==> leader.sync)
    requires Completes(all, served, q, g, ok, start)
    ensures Completes(all + [ServedAs(q, r, leader, g, ok)], served, q + [r], g, ok, start)
  {
    hide Number, AllOps, LastAfter, AddsOf, Requests, OpsOf, Consecutive, SyncLed;
    var s := ServedAs(q, r, leader, g, ok);
    SnocServed(all, s, start);
    SnocConsecutive(all, s, start);
    SnocSync(all, s);
    SnocOps(q, r);
    Assoc(Requests(served), q, [r]);
    AddsStep(all, q, r, leader, g, ok, start, AddsOf(served));
  }

  // Completing a group, request by request.
  lemma {:induction false} GroupCompletes(
      served: seq<Served>, q: seq<Request>, leader: Request, g: Group, ok: bool, start: nat)
    requires Consecutive(served, start) && SyncLed(served)
    requires g.first == LastAfter(served, start) + 1
    requires forall i :: 0 <= i < |q| && q[i].sync ==> leader.sync
    ensures Completes(served + Completed(q, leader, g, ok), served, q, g, ok, start)
    decreases |q|
  {
    if q == [] {
      Nothing(served, g, ok, start);
    } else {
      hide Completes;
      var n := |q| - 1;
      GroupCompletes(served, q[..n], leader, g, ok, start);
      var before := Completed(q[..n], leader, g, ok);
      GroupStep(served + before, served, q[..n], q[n], leader, g, ok, start);
      Assoc(served, before, [ServedAs(q[..n], q[n], leader, g, ok)]);
      assert q[..n] + [q[n]] == q;
    }
  }

  lemma Nothing(served: seq<Served>, g: Group, ok: bool, start: nat)
    requires Consecutive(served, start) && SyncLed(served)
    ensures Completes(served + [], served, [], g, ok, start)
  {
    assert served + [] == served;
  }

  lemma StepKeepsInv(a: System, e: Event, b: System, start: nat)
    requires Inv(a, start) && Next(a, e, b)
    ensures Inv(b, start)
  {
    hide LastAfter, Consecutive, SyncLed, AddsOf, Requests, Completed, Number, Followers, AllOps;
    match e
    case Arrive(r) =>
      ArrivalKeepsGroup(a.state, r);
    case Lead(roomOk) =>
      LedIsOk(a.state.queue, a.state.lastSequence, roomOk);
    case Finish(ok) =>
      var g := a.state.group.value;
      var allOk := if g.written.Some? then ok else g.roomOk;
      var q := a.state.queue;
      GroupCompletes(a.history.served, q[..g.size], q[0], g, allOk, start);
      assert q == q[..g.size] + q[g.size..];
      NumberNothing(g.first);
  }

  lemma NumberNothing(first: nat)
    ensures Number([], first) == []
  {
  }

  lemma ArrivalKeepsGroup(s: State, r: Request)
    requires GroupOk(s)
    ensures GroupOk(s.(queue := s.queue + [r]))
  {
    if s.group.Some? {
      assert (s.queue + [r])[..s.group.value.size] == s.queue[..s.group.value.size];
    }
  }

  ghost predicate IsRun(run: seq<System>, events: seq<Event>, start: nat) {
    && |run| == |events| + 1
    && run[0] == System(State([], start, None), History([], [], []))
    && forall i :: 0 <= i < |events| ==> Next(run[i], events[i], run[i + 1])
  }

  /**
   * Over every run: each arrived request is completed once or still queued, in order of arrival; the written ones
   * hold consecutive numbers in that order, and the last sequence number is their sum; no sync request is
   * served by a leader that is not; and the memtable got each request's operations under its own numbers.
   */
  lemma {:induction false} RunKeepsInv(run: seq<System>, events: seq<Event>, start: nat)
    requires IsRun(run, events, start)
    ensures Inv(run[|events|], start)
    decreases |events|
  {
    hide Next, Inv;
    var n := |events|;
    if n == 0 {
      StartIsOk(run[0], start);
    } else {
      RunKeepsInv(run[..n], events[..n - 1], start);
      StepKeepsInv(run[n - 1], events[n - 1], run[n], start);
    }
  }

  lemma StartIsOk(y: System, start: nat)
    requires y == System(State([], start, None), History([], [], []))
    ensures Inv(y, start)
  {
  }

  lemma {:induction false} LastGrows(served: seq<Served>, start: nat, i: nat, j: nat)
    requires i <= j <= |served|
    ensures LastAfter(served[..i], start) <= LastAfter(served[..j], start)
    decreases j
  {
    if i < j {
      LastGrows(served, start, i, j - 1);
      assert served[..j][..j - 1] == served[..j - 1];
    }
  }

  // Of two written requests, the earlier holds only smaller numbers.
  lemma RangesAreDisjoint(served: seq<Served>, start: nat, i: nat, j: nat)
    requires Consecutive(served, start) && i < j < |served|
    requires served[i].first.Some? && served[j].first.Some?
    ensures served[i].first.value + |OpsOf(served[i].request)| <= served[j].first.value
  {
    LastGrows(served, start, i + 1, j);
    assert served[..i + 1][..i] == served[..i];
  }

  // A request for a new memtable that waits behind a write is served by it, without one, unless it alone asks for sync.
  lemma SwitchIsAbsorbed(q: seq<Request>)
    requires AllFit(q) && |q| >= 2 && q[0].batch.Some? && q[1].batch.None?
    ensures GroupSize(q) >= 2 <==> !q[1].sync || q[0].sync
  {
    assert q[1..][0] == q[1];
  }

  // ---- The methods ------------------------------------------------------------------------------------------------

  class Writer {
    const batch: WriteBatch?
    const sync: bool
    var done: bool
    var ok: bool

    constructor (batch: WriteBatch?, sync: bool)
      ensures this.batch == batch && this.sync == sync && !done
    {
      this.batch, this.sync, done, ok := batch, sync, false, false;
    }
  }

  ghost function Batches(ws: seq<Writer>): set<WriteBatch> {
    set w <- ws | w.batch != null :: w.batch
  }

  ghost function RequestOf(w: Writer): Request
    reads if w.batch == null then {} else {w.batch}`ops
  {
    Request(if w.batch == null then None else Some(w.batch.ops), w.sync)
  }

  ghost function Queue(ws: seq<Writer>): (q: seq<Request>)
    reads Batches(ws)`ops
    ensures |q| == |ws|
  {
    if ws == [] then []
    else
      assert forall w <- ws[1..] :: w in ws;
      [RequestOf(ws[0])] + Queue(ws[1..])
  }

  lemma {:induction false} QueueAt(ws: seq<Writer>, i: nat)
    requires i < |ws|
    ensures Queue(ws)[i] == RequestOf(ws[i])
  {
    if i > 0 {
      QueueAt(ws[1..], i - 1);
    }
  }

  lemma {:induction false} QueueConcat(a: seq<Writer>, b: seq<Writer>)
    ensures Queue(a + b) == Queue(a) + Queue(b)
  {
    if a == [] {
      assert a + b == b;
    } else {
      QueueConcat(a[1..], b);
      assert (a + b)[1..] == a[1..] + b;
    }
  }

  ghost predicate BatchesValid(ws: seq<Writer>)
    reads Batches(ws)
  {
    forall b <- Batches(ws) :: b.Valid()
  }

  lemma QueueFits(ws: seq<Writer>)
    requires BatchesValid(ws)
    ensures AllFit(Queue(ws))
  {
    forall i | 0 <= i < |ws| ensures Fits(Queue(ws)[i]) {
      QueueAt(ws, i);
      if ws[i].batch != null {
        assert ws[i].batch in Batches(ws);
      }
    }
  }

  lemma QueueSuffix(ws: seq<Writer>, k: nat)
    requires k <= |ws|
    ensures Queue(ws[k..]) == Queue(ws)[k..]
  {
    hide Queue;
    QueueConcat(ws[..k], ws[k..]);
    assert ws == ws[..k] + ws[k..];
  }

  lemma SuffixIsValid(ws: seq<Writer>, k: nat)
    requires k <= |ws| && BatchesValid(ws)
    ensures BatchesValid(ws[k..]) && Batches(ws[k..]) <= Batches(ws)
  {
    hide WriteBatch.Valid;
    assert forall w <- ws[k..] :: w in ws;
  }

  // How the request at position `i` extends a group, or ends it.
  lemma FollowersStep(q: seq<Request>, i: nat, sync: bool, size: nat, maxSize: nat)
    requires AllFit(q) && i < |q|
    ensures Fits(q[i]) && AllFit(q[i..]) && AllFit(q[i + 1..])
    ensures q[i].sync && !sync ==> Followers(q[i..], sync, size, maxSize) == 0
    ensures !(q[i].sync && !sync) && q[i].batch.None? ==>
      Followers(q[i..], sync, size, maxSize) == 1 + Followers(q[i + 1..], sync, size, maxSize)
    ensures !(q[i].sync && !sync) && q[i].batch.Some? ==>
      var more := size + BatchSize(q[i].batch.value);
      Followers(q[i..], sync, size, maxSize) ==
        if more > maxSize then 0 else 1 + Followers(q[i + 1..], sync, more, maxSize)
  {
    hide Fits;
    assert q[i..][0] == q[i] && q[i..][1..] == q[i + 1..];
  }

  lemma OpsStep(q: seq<Request>, i: nat)
    requires i < |q|
    ensures AllOps(q[..i + 1]) == AllOps(q[..i]) + OpsOf(q[i])
  {
    assert q[..i + 1][..i] == q[..i];
  }

  lemma GroupStart(q: seq<Request>)
    requires AllFit(q) && q != [] && q[0].batch.Some?
    ensures Fits(q[0]) && AllFit(q[1..]) && AllOps(q[..1]) == q[0].batch.value
    ensures
      var size := BatchSize(q[0].batch.value);
      GroupSize(q) == 1 + Followers(q[1..], q[0].sync, size, MaxSize(size))
  {
    assert AllOps(q[..0]) == [];
    OpsStep(q, 0);
  }

  /**
   * The batch for the writer at the front: its own if it stays alone, and otherwise the temporary one with the
   * operations of the whole group.
   */
  method BuildBatchGroup(writers: seq<Writer>, tmp: WriteBatch) returns (result: WriteBatch, last: nat)
    requires writers != [] && writers[0].batch != null && BatchesValid(writers)
    requires tmp !in Batches(writers) && tmp.Valid() && tmp.ops == []
    modifies tmp
    ensures AllFit(Queue(writers)) && last + 1 == GroupSize(Queue(writers))
    ensures result.Valid() && result.ops == AllOps(Queue(writers)[..last + 1])
    ensures result == tmp || (result == writers[0].batch && tmp.Valid() && tmp.ops == [])
  {
    hide WriteBatch.Valid, OpsFit, Records, Fits, AllOps, Followers, GroupSize, Queue, BatchSize;
    ghost var q := Queue(writers);
    QueueFits(writers);
    QueueAt(writers, 0);
    GroupStart(q);
    var first := writers[0];
    assert first.batch in Batches(writers);
    result := first.batch;
    var size: nat := result.ByteSize();
    var maxSize := if size <= SMALL_WRITE then size + SMALL_WRITE else MAX_GROUP;
    last := 0;
    ghost var goal := GroupSize(q);
    var i := 1;
    var full := false;
    while i < |writers| && !full
      invariant 1 <= i <= |writers| && last == i - 1
      invariant goal == i + if full then 0 else Followers(q[i..], first.sync, size, maxSize)
      invariant result == first.batch || result == tmp
      invariant result == first.batch ==> tmp.Valid() && tmp.ops == []
      invariant result.Valid() && result.ops == AllOps(q[..i])
      invariant !full ==> |result.ops| <= size
      decreases |writers| - i, !full
    {
      var w := writers[i];
      QueueAt(writers, i);
      FollowersStep(q, i, first.sync, size, maxSize);
      OpsStep(q, i);
      if w.sync && !first.sync {
        full := true;
      } else if w.batch == null {
        i, last := i + 1, i;
      } else {
        assert w.batch in Batches(writers);
        var n := w.batch.ByteSize();
        size := size + n;
        if size > maxSize {
          full := true;
        } else {
          if result == first.batch {
            result := tmp;
            result.Append(first.batch);
          }
          result.Append(w.batch);
          i, last := i + 1, i;
        }
      }
    }
    assert q[|writers|..] == [];
    NoFollowers(first.sync, size, maxSize);
  }

  lemma NoFollowers(sync: bool, size: nat, maxSize: nat)
    ensures Followers([], sync, size, maxSize) == 0
  {
  }

  class DBWriters {
    var writers: seq<Writer>
    var lastSequence: nat
    const tmpBatch: WriteBatch

    constructor (last: nat)
      ensures Valid() && writers == [] && lastSequence == last
      ensures fresh(tmpBatch)
    {
      writers, lastSequence := [], last;
      tmpBatch := new WriteBatch();
    }

    ghost predicate Valid()
      reads this, tmpBatch, Batches(writers)
    {
      && BatchesValid(writers) && tmpBatch !in Batches(writers)
      && tmpBatch.Valid() && tmpBatch.ops == []
      && forall i, j :: 0 <= i < j < |writers| ==> writers[i] != writers[j]
    }

    method Join(w: Writer)
      requires Valid() && w !in writers
      requires w.batch != null ==> w.batch.Valid() && w.batch != tmpBatch
      modifies this`writers
      ensures Valid() && writers == old(writers) + [w]
      ensures Queue(writers) == old(Queue(writers)) + [RequestOf(w)]
    {
      QueueConcat(writers, [w]);
      assert Queue([w]) == [RequestOf(w)];
      writers := writers + [w];
    }

    // The writer at the front, once there is room for its write or an error instead.
    method Lead(roomOk: bool) returns (batch: WriteBatch?, size: nat)
      requires Valid() && writers != [] && lastSequence + 1 < WORD64
      modifies tmpBatch, Batches(writers)
      ensures BatchesValid(writers) && Queue(writers) == old(Queue(writers)) && AllFit(Queue(writers))
      ensures
        var g := Led(Queue(writers), lastSequence, roomOk);
        && size == g.size && (batch == null <==> g.written.None?)
        && (batch != null ==> batch.Valid() && batch.ops == g.written.value && batch.SequenceIs(g.first))
      ensures batch == null || batch == tmpBatch || batch in Batches(writers)
      ensures batch != tmpBatch ==> tmpBatch.Valid() && tmpBatch.ops == []
    {
      hide WriteBatch.Valid, WriteBatch.SequenceIs, AllOps, GroupSize, Fits, Queue;
      QueueFits(writers);
      QueueAt(writers, 0);
      batch, size := null, 1;
      if roomOk && writers[0].batch != null {
        var last: nat;
        assert writers[0].batch in Batches(writers);
        batch, last := BuildBatchGroup(writers, tmpBatch);
        size := last + 1;
        batch.SetSequence(lastSequence + 1);
      }
    }

    // What remains once the group is in the log and the memtable, or an error is known.
    method Finish(batch: WriteBatch?, size: nat, ok: bool)
      requires BatchesValid(writers) && tmpBatch !in Batches(writers)
      requires batch != null ==> batch.Valid()
      requires batch != tmpBatch ==> tmpBatch.Valid() && tmpBatch.ops == []
      requires 0 < size <= |writers| && forall i, j :: 0 <= i < j < |writers| ==> writers[i] != writers[j]
      modifies this, tmpBatch, writers
      ensures Valid() && writers == old(writers)[size..]
      ensures Queue(writers) == old(Queue(writers))[size..]
      ensures lastSequence == old(lastSequence) + if batch == null then 0 else |old(batch.ops)|
      ensures forall i :: 0 < i < size ==> old(writers)[i].done && old(writers)[i].ok == ok
      ensures forall i :: size <= i < |old(writers)| || i == 0 ==> unchanged(old(writers)[i])
    {
      hide WriteBatch.Valid, Queue, BatchesValid;
      CloseBatch(batch);
      QueueSuffix(writers, size);
      SuffixIsValid(writers, size);
      ghost var rest := writers[size..];
      assert forall b <- Batches(rest) :: b in Batches(writers);
      PopGroup(size, ok);
      assert BatchesValid(rest);
    }

    // Take over the numbers of what was written, and empty the temporary batch.
    method CloseBatch(batch: WriteBatch?)
      requires BatchesValid(writers) && tmpBatch !in Batches(writers)
      requires batch != null ==> batch.Valid()
      requires batch != tmpBatch ==> tmpBatch.Valid() && tmpBatch.ops == []
      modifies this`lastSequence, tmpBatch
      ensures BatchesValid(writers) && tmpBatch.Valid() && tmpBatch.ops == []
      ensures Queue(writers) == old(Queue(writers))
      ensures lastSequence == old(lastSequence) + if batch == null then 0 else |old(batch.ops)|
    {
      hide WriteBatch.Valid, Queue;
      if batch != null {
        var n := batch.Count();
        lastSequence := lastSequence + n;
        if batch == tmpBatch {
          tmpBatch.Clear();
        }
      }
    }

    // Complete the writers of a group up to its last one; the leader itself returns.
    method PopGroup(size: nat, ok: bool)
      requires 0 < size <= |writers| && forall i, j :: 0 <= i < j < |writers| ==> writers[i] != writers[j]
      modifies this`writers, writers
      ensures writers == old(writers)[size..]
      ensures forall i :: 0 < i < size ==> old(writers)[i].done && old(writers)[i].ok == ok
      ensures forall i :: size <= i < |old(writers)| || i == 0 ==> unchanged(old(writers)[i])
    {
      ghost var all := writers;
      var leader, lastWriter := writers[0], writers[size - 1];
      ghost var k := 0;
      var ended := false;
      while !ended
        invariant k <= size && (ended <==> k == size) && writers == all[k..]
        invariant forall i :: 0 < i < k ==> all[i].done && all[i].ok == ok
        invariant forall i :: k <= i < |all| || i == 0 ==> unchanged(all[i])
        decreases size - k, !ended
      {
        var ready := writers[0];
        writers := writers[1..];
        if ready != leader {
          ready.ok, ready.done := ok, true;
        }
        k := k + 1;
        if ready == lastWriter {
          ended := true;
        }
      }
    }
  }
}
