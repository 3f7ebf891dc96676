/**
 The emitter and the watchdog as code over the stored events of one tenant. Each method is
 proved to make exactly the calls of the state machine of module Outbox.
 */
module OutboxEmitter {
  import opened Wrappers
  import opened Outbox

  const LIMIT: nat := 100

  // ---------------------------------------------------------------------------
  // Fetching
  // ---------------------------------------------------------------------------

  /// The rows that a query for one status may return: any of them, each once, as many as
  /// there are up to the limit.
  ghost predicate Answers(rows: seq<nat>, events: seq<Event>, status: Status) {
    && (forall n :: 0 <= n < |rows| ==> rows[n] < |events| && events[rows[n]].row.status == status)
    && (forall m, n :: 0 <= m < n < |rows| ==> rows[m] != rows[n])
    && |rows| <= LIMIT
    && (|rows| < LIMIT ==> forall i :: 0 <= i < |events| && events[i].row.status == status ==> i in rows)
  }

  function DueOf(rows: seq<nat>, events: seq<Event>, now: int): seq<nat>
    requires forall n :: 0 <= n < |rows| ==> rows[n] < |events|
  {
    if rows == [] then []
    else
      DueOf(rows[..|rows| - 1], events, now)
      + if Due(events[rows[|rows| - 1]].row, now) then [rows[|rows| - 1]] else []
  }

  lemma {:induction false} DueOfMembers(rows: seq<nat>, events: seq<Event>, now: int)
    requires forall n :: 0 <= n < |rows| ==> rows[n] < |events|
    ensures forall i :: i in DueOf(rows, events, now) <==> i in rows && Due(events[i].row, now)
  {
    if rows != [] {
      DueOfMembers(rows[..|rows| - 1], events, now);
      assert rows == rows[..|rows| - 1] + [rows[|rows| - 1]];
    }
  }

  ghost predicate Distinct(rows: seq<nat>) {
    forall m, n :: 0 <= m < n < |rows| ==> rows[m] != rows[n]
  }

  lemma {:induction false} DueOfDistinct(rows: seq<nat>, events: seq<Event>, now: int)
    requires Distinct(rows) && forall n :: 0 <= n < |rows| ==> rows[n] < |events|
    ensures Distinct(DueOf(rows, events, now))
  {
    if rows != [] {
      DueOfDistinct(rows[..|rows| - 1], events, now);
      DueOfMembers(rows[..|rows| - 1], events, now);
    }
  }

  /// Inserts an event behind those created no later than it.
  function Insert(i: nat, sorted: seq<nat>, created: seq<int>): seq<nat>
    requires i < |created| && forall n :: 0 <= n < |sorted| ==> sorted[n] < |created|
  {
    if sorted == [] || created[sorted[|sorted| - 1]] <= created[i] then sorted + [i]
    else Insert(i, sorted[..|sorted| - 1], created) + [sorted[|sorted| - 1]]
  }

  ghost predicate Fifo(rows: seq<nat>, created: seq<int>) {
    && (forall n :: 0 <= n < |rows| ==> rows[n] < |created|)
    && forall m, n :: 0 <= m < n < |rows| ==> created[rows[m]] <= created[rows[n]]
  }

  lemma {:induction false} BehindAll(rows: seq<nat>, init: seq<nat>, i: nat, last: nat, created: seq<int>)
    requires Fifo(rows, created) && multiset(rows) == multiset(init) + multiset{i}
    requires last < |created| && i < |created| && created[i] <= created[last]
    requires Fifo(init + [last], created)
    ensures Fifo(rows + [last], created)
  {
    forall n | 0 <= n < |rows| ensures created[rows[n]] <= created[last] {
      assert rows[n] in multiset(rows);
      if rows[n] != i {
        var m :| 0 <= m < |init| && init[m] == rows[n];
        assert (init + [last])[m] == init[m] && (init + [last])[|init|] == last;
      }
    }
  }

  lemma {:induction false} InsertAddsOne(i: nat, sorted: seq<nat>, created: seq<int>)
    requires i < |created| && forall n :: 0 <= n < |sorted| ==> sorted[n] < |created|
    ensures multiset(Insert(i, sorted, created)) == multiset(sorted) + multiset{i}
  {
    if sorted != [] && created[sorted[|sorted| - 1]] > created[i] {
      var init, last := sorted[..|sorted| - 1], sorted[|sorted| - 1];
      InsertAddsOne(i, init, created);
      assert sorted == init + [last];
    }
  }

  lemma AppendIsFifo(i: nat, sorted: seq<nat>, created: seq<int>)
    requires i < |created| && Fifo(sorted, created) && (sorted == [] || created[sorted[|sorted| - 1]] <= created[i])
    ensures Fifo(sorted + [i], created)
  {
  }

  lemma {:induction false} InsertIsFifo(i: nat, sorted: seq<nat>, created: seq<int>)
    requires i < |created| && Fifo(sorted, created)
    ensures Fifo(Insert(i, sorted, created), created)
    ensures multiset(Insert(i, sorted, created)) == multiset(sorted) + multiset{i}
  {
    InsertAddsOne(i, sorted, created);
    if sorted != [] && created[sorted[|sorted| - 1]] > created[i] {
      var init, last := sorted[..|sorted| - 1], sorted[|sorted| - 1];
      assert sorted == init + [last];
      assert Fifo(init, created);
      hide Fifo;
      InsertIsFifo(i, init, created);
      BehindAll(Insert(i, init, created), init, i, last, created);
    } else {
      AppendIsFifo(i, sorted, created);
    }
  }

  /// sort_by_key(created_at)
  function SortByCreation(rows: seq<nat>, created: seq<int>): (sorted: seq<nat>)
    requires forall n :: 0 <= n < |rows| ==> rows[n] < |created|
    ensures Fifo(sorted, created) && multiset(sorted) == multiset(rows)
  {
    if rows == [] then []
    else
      var init := SortByCreation(rows[..|rows| - 1], created);
      InsertIsFifo(rows[|rows| - 1], init, created);
      assert rows == rows[..|rows| - 1] + [rows[|rows| - 1]];
      Insert(rows[|rows| - 1], init, created)
  }

  function CountStatus(events: seq<Event>, status: Status): nat {
    if events == [] then 0
    else CountStatus(events[..|events| - 1], status)
         + if events[|events| - 1].row.status == status then 1 else 0
  }

  /// The first rows of a status, in storage order, leaving out row i.
  function OthersOf(events: seq<Event>, status: Status, i: nat): seq<nat> {
    if events == [] then []
    else
      OthersOf(events[..|events| - 1], status, i)
      + if events[|events| - 1].row.status == status && |events| - 1 != i then [|events| - 1] else []
  }

  lemma {:induction false} OthersOfMembers(events: seq<Event>, status: Status, i: nat)
    ensures var rows := OthersOf(events, status, i);
            && Distinct(rows)
            && (forall m: nat :: m in rows <==> m < |events| && events[m].row.status == status && m != i)
            && |rows| == CountStatus(events, status) - if i < |events| && events[i].row.status == status then 1 else 0
  {
    if events != [] {
      var init := events[..|events| - 1];
      OthersOfMembers(init, status, i);
      var rows := OthersOf(events, status, i);
      forall m: nat ensures m in rows <==> m < |events| && events[m].row.status == status && m != i {
        assert m in rows <==> m in OthersOf(init, status, i) || (m == |events| - 1 && events[m].row.status == status && m != i);
        assert m < |init| ==> init[m] == events[m];
      }
      forall m, n | 0 <= m < n < |rows| ensures rows[m] != rows[n] {
        assert rows[m] == OthersOf(init, status, i)[m];
        assert rows[m] in OthersOf(init, status, i);
      }
    }
  }

  lemma {:induction false} DistinctFit(rows: seq<nat>, events: seq<Event>, status: Status)
    requires Distinct(rows)
    requires forall n :: 0 <= n < |rows| ==> rows[n] < |events| && events[rows[n]].row.status == status
    ensures |rows| <= CountStatus(events, status)
  {
    var all := OthersOf(events, status, |events|);
    OthersOfMembers(events, status, |events|);
    DistinctIsNoLonger(rows, all);
  }

  lemma {:induction false} DistinctIsNoLonger(a: seq<nat>, b: seq<nat>)
    requires Distinct(a) && forall n :: 0 <= n < |a| ==> a[n] in b
    ensures |a| <= |b|
    decreases |a|
  {
    if a != [] {
      var x := a[|a| - 1];
      var k :| 0 <= k < |b| && b[k] == x;
      var rest := b[..k] + b[k + 1..];
      var init := a[..|a| - 1];
      forall n | 0 <= n < |init| ensures init[n] in rest {
        assert init[n] == a[n] && a[n] in b;
        var m :| 0 <= m < |b| && b[m] == a[n];
        assert m != k;
        assert if m < k then rest[m] == a[n] else rest[m - 1] == a[n];
      }
      DistinctIsNoLonger(init, rest);
    }
  }

  /// The query limit is applied before the retry filter. A failed event is certain to be
  /// looked at, whichever rows the store returns, if and only if at most a hundred events
  /// are FAILED, the permanently failed ones included.
  lemma FailedEventIsSeenForSure(events: seq<Event>, i: nat)
    requires i < |events| && events[i].row.status.Failed?
    ensures (forall rows :: Answers(rows, events, Failed) ==> i in rows) <==> CountStatus(events, Failed) <= 100
  {
    if CountStatus(events, Failed) <= LIMIT {
      forall rows | Answers(rows, events, Failed) ensures i in rows {
        if i !in rows && |rows| == LIMIT {
          DistinctFit(rows + [i], events, Failed);
        }
      }
    } else {
      OthersOfMembers(events, Failed, i);
      var rows := OthersOf(events, Failed, i)[..LIMIT];
      forall n | 0 <= n < |rows| ensures rows[n] < |events| && events[rows[n]].row.status == Failed && rows[n] != i {
        assert rows[n] in OthersOf(events, Failed, i);
      }
      assert Answers(rows, events, Failed) && i !in rows;
    }
  }

  lemma {:induction false} FoundOnce(pending: seq<nat>, failed: seq<nat>, events: seq<Event>, now: int)
    requires Answers(pending, events, Pending) && Answers(failed, events, Failed)
    ensures var found := pending + DueOf(failed, events, now);
            && Distinct(found) && (forall n :: 0 <= n < |found| ==> found[n] < |events|)
            && forall i :: i in found <==> i in pending || (i in failed && Due(events[i].row, now))
  {
    DueOfMembers(failed, events, now);
    DueOfDistinct(failed, events, now);
    var due := DueOf(failed, events, now);
    var found := pending + due;
    forall n | 0 <= n < |found| ensures found[n] < |events| {
      if n >= |pending| {
        assert due[n - |pending|] in failed;
      }
    }
    forall m, n | 0 <= m < n < |found| ensures found[m] != found[n] {
      if m < |pending| <= n {
        assert due[n - |pending|] in failed;
      }
    }
  }

  // ---------------------------------------------------------------------------
  // Emitting
  // ---------------------------------------------------------------------------

  /// A fetched event, before and after its visit.
  ghost function Emitted(e: Event, visited: bool, now: int, world: World, n: nat): Event {
    if visited then Visit(Apply(e, Fetch(now)), |e.workers|, world, n) else Apply(e, Fetch(now))
  }

  /// What a visit leaves of an event: it is claimed if it was pending or failed and the claim
  /// is answered, sent, and marked with what the bus answered. The n-th failure is followed by
  /// a wait that doubles from half a minute; the fifth by none.
  ghost predicate VisitEnds(e: Event, f: Event, world: World, n: nat) {
    var claims := (e.row.status == Pending || e.row.status == Failed) && world.faults(n).Fine? && !world.faults(n + 1).NotApplied?;
    var sends := claims && world.faults(n + 1).Fine? && world.faults(n + 2).Fine?;
    var delivers := sends && world.faults(n + 3).Fine? && !world.faults(n + 4).NotApplied?;
    var fails := sends && !world.faults(n + 3).Fine? && world.faults(n + 4).Fine? && !world.faults(n + 5).NotApplied?;
    var retries := e.row.retryCount;
    && f.row == (if !claims then e.row
                 else if fails then
                   Row(Failed, retries + 1,
                       world.clock(n + 5) + (if retries < 4 then [30_000, 60_000, 120_000, 240_000][retries] else 0),
                       world.clock(n + 1))
                 else Row(if delivers then Delivered else Processing, retries, e.row.retryAt, world.clock(n + 1)))
    && f.attempts == e.attempts + (if sends then 1 else 0)
    && f.published == e.published + (if sends && !world.faults(n + 3).NotApplied? then 1 else 0)
    && f.failures == e.failures + (if fails then 1 else 0) && f.resets == e.resets
  }

  lemma VisitEndsSo(e: Event, j: nat, world: World, n: nat)
    requires j < |e.workers| && e.workers[j].Listed?
    ensures VisitEnds(e, Visit(e, j, world, n), world, n)
  {
    var e1 := Apply(e, world.At(j, n));
    assert e1.workers[j].Admitted? || e1.workers[j].Done?;
    var e2 := Apply(e1, world.At(j, n + 1));
    assert e2.workers[j].Hydrating? || e2.workers[j].Done?;
    var e3 := Apply(e2, world.At(j, n + 2));
    assert e3.workers[j].Publishing? || e3.workers[j].Done?;
    var e4 := Apply(e3, world.At(j, n + 3));
    assert e4.workers[j].MarkingDelivered? || e4.workers[j].Recounting? || e4.workers[j].Done?;
    var e5 := Apply(e4, world.At(j, n + 4));
    assert e5.workers[j].Done? || e5.workers[j] == MarkingFailed(e.row.retryCount);
    assert Pow2(1) == 2 && Pow2(2) == 4 && Pow2(3) == 8;
  }

  lemma EmittedEnds(e: Event, now: int, world: World, n: nat)
    requires Due(e.row, now)
    ensures VisitEnds(e, Emitted(e, true, now, world, n), world, n)
  {
    hide Visit, VisitEnds;
    var f := Apply(e, Fetch(now));
    assert f.workers[|e.workers|].Listed? && f.row == e.row;
    VisitEndsSo(f, |e.workers|, world, n);
    SameEnds(e, f, Visit(f, |e.workers|, world, n), world, n);
  }

  lemma SameEnds(e: Event, f: Event, g: Event, world: World, n: nat)
    requires f == e.(workers := f.workers) && VisitEnds(f, g, world, n)
    ensures VisitEnds(e, g, world, n)
  {
  }

  /// All that the visits of a pass have done to the rows.
  lemma AllEnds(before: seq<Event>, after: seq<Event>, list: seq<nat>, visited: nat, now: int, world: World)
    requires EmittedSoFar(before, after, list, visited, now, world) && visited <= |list|
    requires forall k :: 0 <= k < |list| ==> list[k] < |before| && Due(before[list[k]].row, now)
    ensures forall k :: 0 <= k < visited ==>
              list[k] < |before| && list[k] < |after| && VisitEnds(before[list[k]], after[list[k]], world, 6 * k)
  {
    hide Emitted, VisitEnds, Due;
    forall k | 0 <= k < visited
      ensures list[k] < |before| && list[k] < |after| && VisitEnds(before[list[k]], after[list[k]], world, 6 * k)
    {
      EmittedEnds(before[list[k]], now, world, 6 * k);
    }
  }

  lemma OthersStay(before: seq<Event>, after: seq<Event>, list: seq<nat>, pending: seq<nat>, failed: seq<nat>,
                   visited: nat, now: int, world: World)
    requires EmittedSoFar(before, after, list, visited, now, world)
    requires Answers(pending, before, Pending) && Answers(failed, before, Failed)
    requires forall i :: i in list ==>
               i in pending || (i in failed && i < |before| && before[i].row.retryCount < 5 && before[i].row.retryAt <= now)
    ensures |after| == |before|
    ensures forall i :: 0 <= i < |before| && before[i].row.status == Failed
                        && (before[i].row.retryCount >= 5 || now < before[i].row.retryAt) ==>
              after[i] == before[i]
  {
    hide Emitted;
    forall i | 0 <= i < |before| && before[i].row.status == Failed
               && (before[i].row.retryCount >= 5 || now < before[i].row.retryAt)
      ensures i !in list
    {
    }
  }

  lemma EmittedMeaning(e: Event, now: int, world: World, n: nat)
    requires Due(e.row, now)
    ensures var f := Emitted(e, false, now, world, n);
            && f == Apply(e, Fetch(now)) && f.workers == e.workers + [Listed]
            && Emitted(e, true, now, world, n) == Visit(f, |f.workers| - 1, world, n)
  {
  }

  /// The visit to the event ends in a mark that is not answered.
  predicate GivesUp(e: Event, world: World, n: nat) {
    && (e.row.status.Pending? || e.row.status.Failed?)
    && world.faults(n).Fine? && world.faults(n + 1).Fine? && world.faults(n + 2).Fine?
    && !(world.faults(n + 4).Fine? && (world.faults(n + 3).Fine? || world.faults(n + 5).Fine?))
  }

  /// The event has been in PROCESSING since the cutoff or longer.
  predicate Orphan(e: Event, cutoff: int) {
    e.row.status.Processing? && e.row.claimedAt <= cutoff
  }

  /// The watchdog's step on one listed event.
  function Reset(e: Event, cutoff: int, world: World, n: nat): Event {
    if Orphan(e, cutoff) then Apply(Apply(e, Watch(cutoff)), world.At(|e.workers|, n)) else e
  }

  function Orphans(events: seq<Event>, rows: seq<nat>, cutoff: int): nat
    requires forall n :: 0 <= n < |rows| ==> rows[n] < |events|
  {
    if rows == [] then 0
    else Orphans(events, rows[..|rows| - 1], cutoff) + if Orphan(events[rows[|rows| - 1]], cutoff) then 1 else 0
  }

  /// The first events of the list have been visited, the others only fetched, the rest left alone.
  ghost predicate EmittedSoFar(before: seq<Event>, after: seq<Event>, list: seq<nat>, visited: nat, now: int, world: World) {
    && |after| == |before|
    && (forall i :: 0 <= i < |before| && i !in list ==> after[i] == before[i])
    && forall k :: 0 <= k < |list| ==>
                     list[k] < |before| && after[list[k]] == Emitted(before[list[k]], k < visited, now, world, 6 * k)
  }

  lemma NothingEmitted(before: seq<Event>, after: seq<Event>, list: seq<nat>, now: int, world: World)
    requires |after| == |before| && forall i :: i in list ==> i < |before| && Due(before[i].row, now)
    requires forall i :: 0 <= i < |before| ==> after[i] == if i in list then Apply(before[i], Fetch(now)) else before[i]
    ensures EmittedSoFar(before, after, list, 0, now, world)
  {
    hide Apply, Visit, Due;
    forall k | 0 <= k < |list| ensures list[k] < |before| && after[list[k]] == Emitted(before[list[k]], false, now, world, 6 * k) {
      assert list[k] in list;
    }
  }

  lemma NextToEmit(before: seq<Event>, after: seq<Event>, list: seq<nat>, visited: nat, now: int, world: World)
    requires EmittedSoFar(before, after, list, visited, now, world) && visited < |list|
    requires list[visited] < |before| ==> Due(before[list[visited]].row, now)
    ensures list[visited] < |after| == |before| && after[list[visited]] == Apply(before[list[visited]], Fetch(now))
    ensures after[list[visited]].workers == before[list[visited]].workers + [Listed]
  {
    hide Visit;
  }

  lemma EmitMore(before: seq<Event>, after: seq<Event>, list: seq<nat>, visited: nat, now: int, world: World)
    requires EmittedSoFar(before, after, list, visited, now, world) && visited < |list| && Distinct(list)
    requires list[visited] < |before| ==> Due(before[list[visited]].row, now)
    ensures list[visited] < |after|
    ensures var i := list[visited];
            EmittedSoFar(before, after[i := Visit(after[i], |after[i].workers| - 1, world, 6 * visited)], list, visited + 1, now, world)
  {
    hide Visit, Emitted, Apply;
    NextToEmit(before, after, list, visited, now, world);
    EmittedMeaning(before[list[visited]], now, world, 6 * visited);
  }

  lemma FetchedGivesUp(e: Event, now: int, world: World, n: nat)
    ensures GivesUp(Apply(e, Fetch(now)), world, n) <==> GivesUp(e, world, n)
  {
  }

  class Emitter {
    var events: seq<Event>
    const created: seq<int>

    constructor (events: seq<Event>, created: seq<int>)
      ensures this.events == events && this.created == created
    {
      this.events := events;
      this.created := created;
    }

    /// fetch_pending_events: the pending rows, the failed rows that are due, oldest first.
    method FetchPending(pending: seq<nat>, failed: seq<nat>, now: int) returns (list: seq<nat>)
      requires |created| == |events|
      requires Answers(pending, events, Pending) && Answers(failed, events, Failed)
      modifies this`events
      ensures Fifo(list, created) && Distinct(list) && |events| == |old(events)|
      ensures forall i :: i in list <==>
                i in pending || (i in failed && old(events)[i].row.retryCount < 5 && old(events)[i].row.retryAt <= now)
      ensures forall i :: i in list ==> i < |events| && Due(old(events)[i].row, now)
      ensures forall i :: 0 <= i < |events| ==>
                events[i] == if i in list then Apply(old(events)[i], Fetch(now)) else old(events)[i]
    {
      var found := FindDue(pending, failed, now);
      FoundOnce(pending, failed, events, now);
      assert forall i :: i in pending ==> Due(events[i].row, now);
      list := SortByCreation(found, created);
      SortedMembers(found, list);
      ListAll(list, now);
    }

    /// The pending rows, then the failed rows that have retries left and have waited.
    method FindDue(pending: seq<nat>, failed: seq<nat>, now: int) returns (found: seq<nat>)
      requires forall n :: 0 <= n < |failed| ==> failed[n] < |events| && events[failed[n]].row.status.Failed?
      ensures found == pending + DueOf(failed, events, now)
    {
      found := pending;
      var n := 0;
      while n < |failed|
        invariant 0 <= n <= |failed|
        invariant found == pending + DueOf(failed[..n], events, now)
      {
        assert failed[..n + 1][..n] == failed[..n];
        var row := events[failed[n]].row;
        if row.retryCount < MAX_RETRIES && row.retryAt <= now {
          found := found + [failed[n]];
        }
        n := n + 1;
      }
      assert failed[..n] == failed;
    }

    lemma {:induction false} SortedMembers(rows: seq<nat>, sorted: seq<nat>)
      requires multiset(rows) == multiset(sorted) && Distinct(rows)
      ensures Distinct(sorted) && forall i :: i in sorted <==> i in rows
    {
      forall i ensures i in sorted <==> i in rows {
        assert i in sorted <==> i in multiset(sorted);
        assert i in rows <==> i in multiset(rows);
      }
      forall m, n | 0 <= m < n < |sorted| ensures sorted[m] != sorted[n] {
        if sorted[m] == sorted[n] {
          TwiceIsTwo(sorted, m, n);
          OnceIsOne(rows, sorted[m]);
          assert false;
        }
      }
    }

    lemma {:induction false} TwiceIsTwo(s: seq<nat>, m: nat, n: nat)
      requires m < n < |s| && s[m] == s[n]
      ensures multiset(s)[s[m]] >= 2
    {
      assert s == s[..n] + [s[n]] + s[n + 1..];
      assert s[m] in s[..n];
    }

    lemma {:induction false} OnceIsOne(s: seq<nat>, x: nat)
      requires Distinct(s)
      ensures multiset(s)[x] <= 1
    {
      if s != [] {
        OnceIsOne(s[..|s| - 1], x);
        assert s == s[..|s| - 1] + [s[|s| - 1]];
        if x == s[|s| - 1] {
          assert x !in s[..|s| - 1];
        }
      }
    }

    /// Registers the emitter with every event it has fetched.
    method ListAll(list: seq<nat>, now: int)
      requires Distinct(list) && forall n :: 0 <= n < |list| ==> list[n] < |events|
      modifies this`events
      ensures |events| == |old(events)|
      ensures forall i :: 0 <= i < |events| ==>
                events[i] == if i in list then Apply(old(events)[i], Fetch(now)) else old(events)[i]
    {
      var n := 0;
      while n < |list|
        invariant 0 <= n <= |list| && |events| == |old(events)|
        invariant forall i :: 0 <= i < |events| ==>
                    events[i] == if i in list[..n] then Apply(old(events)[i], Fetch(now)) else old(events)[i]
      {
        events := events[list[n] := Apply(events[list[n]], Fetch(now))];
        assert list[..n + 1] == list[..n] + [list[n]];
        n := n + 1;
      }
      assert list[..n] == list;
    }

    /// try_claim_event: read the status, write PROCESSING, read the event.
    method TryClaim(i: nat, j: nat, world: World, n: nat) returns (claimed: bool)
      requires i < |events| && j < |events[i].workers| && events[i].workers[j].Listed?
      modifies this`events
      ensures var e := old(events)[i];
              events == old(events)[i := Apply(Apply(Apply(e, world.At(j, n)), world.At(j, n + 1)), world.At(j, n + 2))]
      ensures i < |events| && j < |events[i].workers|
      ensures claimed <==> && (old(events)[i].row.status.Pending? || old(events)[i].row.status.Failed?)
                           && world.faults(n).Fine? && world.faults(n + 1).Fine? && world.faults(n + 2).Fine?
      ensures claimed ==> events[i].workers[j].Publishing?
      ensures !claimed ==> events[i].workers[j].Done?
    {
      var e := events[i];
      ghost var e1 := Apply(e, world.At(j, n));
      ghost var e2 := Apply(e1, world.At(j, n + 1));
      if !world.faults(n).Fine? || (e.row.status != Pending && e.row.status != Failed) {
        events := events[i := Move(e, j, Done)];
        assert e1 == e2 == events[i];
        return false;
      }
      assert e1 == Move(e, j, Admitted);
      if !world.faults(n + 1).NotApplied? {
        e := e.(row := e.row.(status := Processing, claimedAt := world.clock(n + 1)));
      }
      assert e2 == Move(e, j, if world.faults(n + 1).Fine? then Hydrating else Done);
      claimed := world.faults(n + 1).Fine? && world.faults(n + 2).Fine?;
      events := events[i := Move(e, j, if claimed then Publishing else Done)];
      assert events[i] == Apply(e2, world.At(j, n + 2));
    }

    method MarkDelivered(i: nat, j: nat, world: World, n: nat) returns (ok: bool)
      requires i < |events| && j < |events[i].workers| && events[i].workers[j].MarkingDelivered?
      modifies this`events
      ensures events == old(events)[i := Apply(Apply(old(events)[i], world.At(j, n)), world.At(j, n + 1))]
      ensures ok <==> world.faults(n).Fine?
    {
      var e := events[i];
      if !world.faults(n).NotApplied? {
        e := e.(row := e.row.(status := Delivered));
      }
      ok := world.faults(n).Fine?;
      events := events[i := Move(e, j, Done)];
    }

    method MarkFailed(i: nat, j: nat, world: World, n: nat) returns (ok: bool)
      requires i < |events| && j < |events[i].workers| && events[i].workers[j].Recounting?
      modifies this`events
      ensures events == old(events)[i := Apply(Apply(old(events)[i], world.At(j, n)), world.At(j, n + 1))]
      ensures ok <==> world.faults(n).Fine? && world.faults(n + 1).Fine?
    {
      var e := events[i];
      ghost var e1 := Apply(e, world.At(j, n));
      if !world.faults(n).Fine? {
        events := events[i := Move(e, j, Done)];
        assert e1 == events[i];
        return false;
      }
      assert e1 == Move(e, j, MarkingFailed(e.row.retryCount));
      var next := e.row.retryCount + 1;
      var delay := 0;
      if next < MAX_RETRIES {
        delay := Pow2(e.row.retryCount) * BASE_DELAY;
        if delay > MAX_DELAY {
          delay := MAX_DELAY;
        }
      }
      if !world.faults(n + 1).NotApplied? {
        e := e.(row := e.row.(status := Failed, retryCount := next, retryAt := world.clock(n + 1) + delay),
                failures := e.failures + 1);
      }
      ok := world.faults(n + 1).Fine?;
      events := events[i := Move(e, j, Done)];
      assert events[i] == Apply(e1, world.At(j, n + 1));
    }

    lemma FinishedWorkerStays(e: Event, j: nat, world: World, n: nat)
      requires j < |e.workers| && e.workers[j].Done?
      ensures Apply(e, world.At(j, n + 3)) == Apply(e, world.At(j, n + 4)) == Apply(e, world.At(j, n + 5)) == e
    {
    }

    /// Sends the claimed event to the bus.
    method Publish(i: nat, j: nat, world: World, n: nat) returns (sent: bool)
      requires i < |events| && j < |events[i].workers| && events[i].workers[j].Publishing?
      modifies this`events
      ensures events == old(events)[i := Apply(old(events)[i], world.At(j, n))]
      ensures i < |events| && j < |events[i].workers|
      ensures sent <==> world.faults(n).Fine?
      ensures events[i].workers[j] == if sent then MarkingDelivered else Recounting
    {
      var e := events[i];
      e := e.(attempts := e.attempts + 1);
      if !world.faults(n).NotApplied? {
        e := e.(published := e.published + 1);
      }
      sent := world.faults(n).Fine?;
      events := events[i := Move(e, j, if sent then MarkingDelivered else Recounting)];
    }

    /// What emit does with one fetched event. False: the whole pass is given up.
    method EmitOne(i: nat, j: nat, world: World, n: nat) returns (ok: bool)
      requires i < |events| && j < |events[i].workers| && events[i].workers[j].Listed?
      modifies this`events
      ensures events == old(events)[i := Visit(old(events)[i], j, world, n)]
      ensures VisitEnds(old(events)[i], events[i], world, n)
      ensures ok <==> !GivesUp(old(events)[i], world, n)
    {
      VisitEndsSo(events[i], j, world, n);
      var claimed := TryClaim(i, j, world, n);
      if !claimed {
        FinishedWorkerStays(events[i], j, world, n);
        return true;
      }
      var sent := Publish(i, j, world, n + 3);
      if sent {
        ok := MarkDelivered(i, j, world, n + 4);
      } else {
        ok := MarkFailed(i, j, world, n + 4);
      }
    }

    /// emit: fetch, then claim, publish and mark one event after the other, oldest first. A
    /// mark that fails gives up the rest of the pass.
    method Emit(pending: seq<nat>, failed: seq<nat>, now: int, world: World) returns (list: seq<nat>, visited: nat)
      requires |created| == |events|
      requires Answers(pending, events, Pending) && Answers(failed, events, Failed)
      modifies this`events
      ensures Fifo(list, created) && Distinct(list) && visited <= |list| && |events| == |old(events)|
      ensures forall i :: i in list <==>
                i in pending || (i in failed && old(events)[i].row.retryCount < 5 && old(events)[i].row.retryAt <= now)
      ensures forall i :: 0 <= i < |events| && old(events)[i].row.status == Failed
                          && (old(events)[i].row.retryCount >= 5 || now < old(events)[i].row.retryAt) ==>
                events[i] == old(events)[i]
      ensures EmittedSoFar(old(events), events, list, visited, now, world)
      ensures forall k :: 0 <= k < visited ==>
                list[k] < |events| && VisitEnds(old(events)[list[k]], events[list[k]], world, 6 * k)
      ensures forall k :: 0 <= k < visited - 1 ==> !GivesUp(old(events)[list[k]], world, 6 * k)
      ensures visited < |list| ==> 0 < visited && GivesUp(old(events)[list[visited - 1]], world, 6 * (visited - 1))
    {
      hide Visit, Fifo, Answers, Emitted, GivesUp, Apply, Due, EmittedSoFar, VisitEnds;
      list := FetchPending(pending, failed, now);
      visited := 0;
      var going := true;
      NothingEmitted(old(events), events, list, now, world);
      while visited < |list| && going
        invariant 0 <= visited <= |list| && |events| == |old(events)|
        invariant EmittedSoFar(old(events), events, list, visited, now, world)
        invariant forall k :: 0 <= k < visited - 1 ==> !GivesUp(old(events)[list[k]], world, 6 * k)
        invariant going <==> visited == 0 || !GivesUp(old(events)[list[visited - 1]], world, 6 * (visited - 1))
        decreases |list| - visited
      {
        var i := list[visited];
        assert i in list;
        NextToEmit(old(events), events, list, visited, now, world);
        EmitMore(old(events), events, list, visited, now, world);
        FetchedGivesUp(old(events)[i], now, world, 6 * visited);
        going := EmitOne(i, |events[i].workers| - 1, world, 6 * visited);
        visited := visited + 1;
      }
      AllEnds(old(events), events, list, visited, now, world);
      OthersStay(old(events), events, list, pending, failed, visited, now, world);
    }

    /// reset_orphaned_processing: every listed event claimed before the cutoff goes back to
    /// PENDING, up to the first write that is not answered. `stopped` is its place.
    method ResetOrphaned(processing: seq<nat>, cutoff: int, world: World) returns (resetCount: nat, ok: bool, ghost stopped: nat)
      requires Answers(processing, events, Processing)
      modifies this`events
      ensures stopped <= |processing| && (ok <==> stopped == |processing|) && forall i :: i in processing ==> i < |old(events)|
      ensures forall n :: 0 <= n < stopped && Orphan(old(events)[processing[n]], cutoff) ==> world.faults(n).Fine?
      ensures !ok ==> Orphan(old(events)[processing[stopped]], cutoff) && !world.faults(stopped).Fine?
      ensures resetCount == Orphans(old(events), processing[..stopped], cutoff)
      ensures ResetSoFar(old(events), events, processing, if ok then stopped else stopped + 1, cutoff, world)
      ensures ok ==> forall i :: i in processing ==>
                i < |events| && events[i].row.status == if old(events)[i].row.claimedAt <= cutoff then Pending else Processing
    {
      hide Orphans, Apply, Reset, ResetSoFar;
      resetCount, ok := 0, true;
      var n := 0;
      NothingReset(events, processing, cutoff, world);
      while n < |processing|
        invariant 0 <= n <= |processing| && |events| == |old(events)| && ok
        invariant forall m :: 0 <= m < n && Orphan(old(events)[processing[m]], cutoff) ==> world.faults(m).Fine?
        invariant resetCount == Orphans(old(events), processing[..n], cutoff)
        invariant ResetSoFar(old(events), events, processing, n, cutoff, world)
      {
        var i := processing[n];
        assert processing[..n + 1] == processing[..n] + [i];
        OneMoreOrphan(old(events), processing[..n], i, cutoff);
        ResetRow(old(events)[i], cutoff, world, n);
        ResetMore(old(events), events, processing, n, cutoff, world);
        if events[i].row.claimedAt <= cutoff {
          var e := events[i].(workers := events[i].workers + [Orphaned]);
          var fault := world.faults(n);
          if !fault.NotApplied? {
            e := e.(row := e.row.(status := Pending), resets := e.resets + 1);
          }
          events := events[i := Move(e, |events[i].workers|, Done)];
          if !fault.Fine? {
            ok, stopped := false, n;
            return;
          }
          resetCount := resetCount + 1;
        }
        n := n + 1;
      }
      stopped := n;
      AllReset(old(events), events, processing, cutoff, world);
    }
  }

  /// The watchdog has dealt with the first n listed events and with no other event.
  ghost predicate ResetSoFar(before: seq<Event>, after: seq<Event>, rows: seq<nat>, n: nat, cutoff: int, world: World) {
    && n <= |rows| && |after| == |before|
    && (forall i :: 0 <= i < |before| && i !in rows[..n] ==> after[i] == before[i])
    && forall m :: 0 <= m < n ==> rows[m] < |before| && after[rows[m]] == Reset(before[rows[m]], cutoff, world, m)
  }

  lemma NothingReset(events: seq<Event>, rows: seq<nat>, cutoff: int, world: World)
    ensures ResetSoFar(events, events, rows, 0, cutoff, world)
    ensures Orphans(events, rows[..0], cutoff) == 0
  {
  }

  lemma ResetMore(before: seq<Event>, after: seq<Event>, rows: seq<nat>, n: nat, cutoff: int, world: World)
    requires ResetSoFar(before, after, rows, n, cutoff, world) && Answers(rows, before, Processing) && n < |rows|
    ensures rows[n] < |after| && after[rows[n]] == before[rows[n]]
    ensures ResetSoFar(before, after[rows[n] := Reset(before[rows[n]], cutoff, world, n)], rows, n + 1, cutoff, world)
    ensures Reset(before[rows[n]], cutoff, world, n) == before[rows[n]] ==> ResetSoFar(before, after, rows, n + 1, cutoff, world)
  {
    hide Reset;
    assert rows[n] !in rows[..n];
    assert rows[..n + 1] == rows[..n] + [rows[n]];
    var next := after[rows[n] := Reset(before[rows[n]], cutoff, world, n)];
    assert Reset(before[rows[n]], cutoff, world, n) == before[rows[n]] ==> next == after;
  }

  lemma AllReset(before: seq<Event>, after: seq<Event>, rows: seq<nat>, cutoff: int, world: World)
    requires ResetSoFar(before, after, rows, |rows|, cutoff, world) && Answers(rows, before, Processing)
    requires forall n :: 0 <= n < |rows| && Orphan(before[rows[n]], cutoff) ==> world.faults(n).Fine?
    ensures forall i :: i in rows ==>
              i < |after| && after[i].row.status == if before[i].row.claimedAt <= cutoff then Pending else Processing
  {
    hide Reset;
    forall i | i in rows
      ensures i < |after| && after[i].row.status == if before[i].row.claimedAt <= cutoff then Pending else Processing
    {
      var n :| 0 <= n < |rows| && rows[n] == i;
      ResetRow(before[i], cutoff, world, n);
    }
  }

  lemma OneMoreOrphan(events: seq<Event>, rows: seq<nat>, i: nat, cutoff: int)
    requires i < |events| && forall n :: 0 <= n < |rows| ==> rows[n] < |events|
    ensures Orphans(events, rows + [i], cutoff) == Orphans(events, rows, cutoff) + if Orphan(events[i], cutoff) then 1 else 0
  {
    assert (rows + [i])[..|rows|] == rows;
  }

  lemma ResetRow(e: Event, cutoff: int, world: World, n: nat)
    requires e.row.status.Processing?
    ensures var applied := Orphan(e, cutoff) && !world.faults(n).NotApplied?;
            Reset(e, cutoff, world, n) ==
            if !Orphan(e, cutoff) then e
            else
              Move(e.(workers := e.workers + [Orphaned],
                      row := if applied then e.row.(status := Pending) else e.row,
                      resets := if applied then e.resets + 1 else e.resets), |e.workers|, Done)
  {
    if Orphan(e, cutoff) {
      assert Apply(e, Watch(cutoff)).workers[|e.workers|] == Orphaned;
    }
  }
}
