/**
 The reservation service as code over a shared store, one request at a time: every call
 to the store or to the ledger may fail or lose its answer, and between two calls any
 number of other requests may run. Each request is proved to be a run of the state
 machine of module Quota, so everything proved about runs holds of it.
 */
module QuotaService {
  import opened Wrappers
  import opened Quota
  import opened QuotaExactness

  datatype DebitReply = DebitDone(usage: int) | DebitRefused(usage: int, limit: int) | DebitFailed

  datatype ClaimReply = Claimed(debited: bool) | Leased | AlreadyClosed(reason: CloseReason) | NotFound | ClaimFailed

  datatype ReserveReply =
    | Allowed(reservation: nat, tokens: int)
    | QuotaExhausted(usage: int, limit: int)
    | InvalidArgument
    | Internal

  datatype ReconcileReply =
    | Accounted(consumed: int, returned: int)
    | NegativeTokens
    | Busy
    | Unknown
    | NeverApplied(reason: CloseReason)
    | ReconcileFailed

  /// Which events other requests make before the n-th call, and how the n-th call fares.
  datatype World = World(others: nat -> seq<Event>, faults: nat -> Fault, clock: nat -> int)

  /// Nobody interferes and every call answers.
  ghost predicate Quiet(world: World) {
    forall n: nat :: world.others(n) == [] && world.faults(n).Fine?
  }

  /// The first n calls of the reserve request of ticket i, with what others do before each.
  function ReserveTrace(begin: Event, world: World, i: nat, limit: int, seed: int, n: nat): seq<Event> {
    if n == 0 then [begin]
    else
      ReserveTrace(begin, world, i, limit, seed, n - 1) + world.others(n - 1)
      + [Reserve(i, world.faults(n - 1), if n == 2 then limit else 0, if n == 2 then seed else 0)]
  }

  lemma ReserveTraceUnrolls(begin: Event, world: World, i: nat, limit: int, seed: int, n: nat)
    ensures ReserveTrace(begin, world, i, limit, seed, 0) == [begin]
    ensures ReserveTrace(begin, world, i, limit, seed, n + 1) ==
            ReserveTrace(begin, world, i, limit, seed, n) + world.others(n)
            + [Reserve(i, world.faults(n), if n == 1 then limit else 0, if n == 1 then seed else 0)]
  {
  }

  /// n calls of process j of ticket i, from the world's call `from` on.
  function ProcessTrace(before: seq<Event>, world: World, i: nat, j: nat, from: nat, n: nat): seq<Event> {
    if n == 0 then before
    else
      ProcessTrace(before, world, i, j, from, n - 1) + world.others(from + n - 1)
      + [Continue(i, j, world.faults(from + n - 1), world.clock(from + n - 1))]
  }

  lemma ProcessTraceUnrolls(before: seq<Event>, world: World, i: nat, j: nat, from: nat)
    ensures var t1 := before + world.others(from) + [Continue(i, j, world.faults(from), world.clock(from))];
            var t2 := t1 + world.others(from + 1) + [Continue(i, j, world.faults(from + 1), world.clock(from + 1))];
            && ProcessTrace(before, world, i, j, from, 0) == before
            && ProcessTrace(before, world, i, j, from, 1) == t1
            && ProcessTrace(before, world, i, j, from, 2) == t2
            && ProcessTrace(before, world, i, j, from, 3) ==
               t2 + world.others(from + 2) + [Continue(i, j, world.faults(from + 2), world.clock(from + 2))]
  {
  }

  /// A sweep lists tickets.
  function Visits(list: seq<nat>, now: int): seq<Event> {
    seq(|list|, n requires 0 <= n < |list| => BeginSweep(list[n], now))
  }

  /// The trace of a sweep that has made calls[n] calls for the n-th listed ticket.
  function SweepTrace(world: World, now: int, list: seq<nat>, slots: seq<nat>, calls: seq<nat>): seq<Event>
    requires |calls| <= |list| == |slots|
  {
    if calls == [] then Visits(list, now)
    else
      var n := |calls| - 1;
      ProcessTrace(SweepTrace(world, now, list, slots, calls[..n]), world, list[n], slots[n], 3 * n, calls[n])
  }

  /// What a claim answers about the row it finds.
  function ClaimAnswer(row: Option<Stored>, fault: Fault, now: int): ClaimReply {
    if !fault.Fine? then ClaimFailed
    else if row.None? then NotFound
    else if row.value.closed then AlreadyClosed(row.value.reason)
    else if row.value.leaseUntil > now then Leased
    else Claimed(row.value.debited)
  }

  /// What the ledger answers a debit about the counter it finds.
  function DebitAnswer(c: Option<Counter>, amount: int, limit: int, seed: int, fault: Fault): DebitReply {
    if !fault.Fine? then DebitFailed
    else if Usage(c, seed) >= limit then DebitRefused(Usage(c, seed), limit)
    else DebitDone(Usage(c, seed) + amount)
  }

  /// What a reserve request answers, by the counter its debit found.
  function ReserveAnswer(found: Option<Counter>, i: nat, estimated: int, limit: int, seed: int, world: World): ReserveReply {
    if !world.faults(0).Fine? then Internal
    else
      match DebitAnswer(found, estimated, limit, seed, world.faults(1))
      case DebitFailed => Internal
      case DebitRefused(usage, lim) => QuotaExhausted(usage, lim)
      case DebitDone(_) => if world.faults(2).Fine? then Allowed(i, estimated) else Internal
  }

  /// Two views of one reservation.
  predicate Same(t: Ticket, u: Ticket) {
    t.key == u.key && t.estimated == u.estimated
  }

  /// The ticket store only grows around ticket i and its process j.
  predicate Extends(before: seq<Ticket>, after: seq<Ticket>, i: nat, j: nat)
    requires i < |before| && j < |before[i].processes|
  {
    |after| >= |before| && |after[i].processes| >= |before[i].processes| && Same(after[i], before[i])
  }

  /// Nobody else drives process j of ticket i.
  ghost predicate Spares(world: World, i: nat, j: nat) {
    forall m: nat :: SparesProcess(world.others(m), i, j)
  }

  /// Away from ticket i, the processes that nobody drives are where they were.
  ghost predicate Untouched(before: seq<Ticket>, after: seq<Ticket>, i: nat, world: World) {
    && |after| >= |before|
    && forall p, q :: 0 <= p < |before| && 0 <= q < |before[p].processes| && p != i && Spares(world, p, q) ==>
         q < |after[p].processes| && after[p].processes[q] == before[p].processes[q]
  }

  lemma UntouchedJoins(before: seq<Ticket>, middle: seq<Ticket>, after: seq<Ticket>, i: nat, world: World)
    requires Untouched(before, middle, i, world) && Untouched(middle, after, i, world)
    ensures Untouched(before, after, i, world)
  {
  }

  lemma StillThere(before: seq<Ticket>, after: seq<Ticket>, i: nat, j: nat)
    requires i < |before| && j < |before[i].processes| && Extends(before, after, i, j)
    ensures |after| >= |before| && |after[i].processes| >= |before[i].processes| && Same(after[i], before[i])
  {
  }

  /// The reservation is in the index of expired ones.
  predicate Overdue(t: Ticket, now: int) {
    t.stored.Some? && !t.stored.value.closed && t.expiresAt < now
  }

  /// A sweep visit has listed the reservation.
  function Visited(t: Ticket): Ticket {
    if t.stored.None? then t else t.(processes := t.processes + [Listed(t.stored.value.debited)])
  }

  /// Expired reservations taken from one shard at a visit.
  const SWEEP_BATCH: nat := 25

  /// The list of a sweep that has looked at the first i tickets.
  ghost predicate Listing(list: seq<nat>, slots: seq<nat>, before: seq<Ticket>, after: seq<Ticket>, i: nat,
                          shard: nat -> bool, now: int) {
    && |after| == |before| && |slots| == |list|
    && (forall n :: 0 <= n < |list| ==>
          && list[n] < i && list[n] < |before| && shard(list[n]) && Overdue(before[list[n]], now)
          && slots[n] == |before[list[n]].processes| && after[list[n]] == Visited(before[list[n]]))
    && (forall m, n :: 0 <= m < n < |list| ==> list[m] != list[n])
    && (forall m :: i <= m < |after| ==> after[m] == before[m])
  }

  lemma {:induction false} ListingGrows(list: seq<nat>, slots: seq<nat>, before: seq<Ticket>, after: seq<Ticket>, i: nat,
                                        shard: nat -> bool, now: int)
    requires Listing(list, slots, before, after, i, shard, now)
    requires i < |before| && Overdue(before[i], now) && shard(i)
    ensures Listing(list + [i], slots + [|before[i].processes|], before, after[i := Visited(before[i])], i + 1, shard, now)
  {
  }

  lemma ListingStarts(tickets: seq<Ticket>, shard: nat -> bool, now: int)
    ensures Listing([], [], tickets, tickets, 0, shard, now)
  {
  }

  lemma ListingSkips(list: seq<nat>, slots: seq<nat>, before: seq<Ticket>, after: seq<Ticket>, i: nat, shard: nat -> bool, now: int)
    requires Listing(list, slots, before, after, i, shard, now) && i < |after|
    ensures after[i] == before[i] && Listing(list, slots, before, after, i + 1, shard, now)
  {
  }

  /// From the last listed ticket on nothing has changed.
  lemma ListingEnds(list: seq<nat>, slots: seq<nat>, before: seq<Ticket>, after: seq<Ticket>, i: nat, shard: nat -> bool, now: int)
    requires Listing(list, slots, before, after, i, shard, now) && i <= |after|
    ensures |after| == |before| && Listing(list, slots, before, after, |after|, shard, now)
  {
  }

  lemma RunFromNone(s: State)
    ensures RunFrom(s, []) == s
  {
  }

  datatype Report = Report(refunded: nat, abandoned: nat, skipped: nat, failed: nat) {
    function Touched(): nat { refunded + abandoned + skipped + failed }

    /// The entry for one ticket, by what the claim found and which calls were answered. `saw`
    /// says that the ticket was listed as debited.
    function With(saw: bool, found: Ticket, world: World, n: nat): Report {
      if !world.faults(n).Fine? then this.(failed := failed + 1)
      else if !Claimable(found, world.clock(n)) then this.(skipped := skipped + 1)
      else if !world.faults(n + 1).Fine? || (saw && !world.faults(n + 2).Fine?) then this.(failed := failed + 1)
      else if saw then this.(refunded := refunded + 1)
      else this.(abandoned := abandoned + 1)
    }
  }

  predicate Listable(tickets: seq<Ticket>, list: seq<nat>) {
    forall n :: 0 <= n < |list| ==> list[n] < |tickets| && tickets[list[n]].stored.Some?
  }

  /// The report of a sweep so far: for each ticket, what its claim found.
  ghost function ReportOf(start: State, world: World, now: int, list: seq<nat>, slots: seq<nat>, calls: seq<nat>): Report
    requires |calls| <= |list| == |slots| && Listable(start.tickets, list)
  {
    if calls == [] then Report(0, 0, 0, 0)
    else
      var n := |calls| - 1;
      var found := RunFrom(start, SweepTrace(world, now, list, slots, calls[..n]) + world.others(3 * n));
      var before := ReportOf(start, world, now, list, slots, calls[..n]);
      if list[n] < |found.tickets|
      then before.With(start.tickets[list[n]].stored.value.debited, found.tickets[list[n]], world, 3 * n)
      else before
  }

  /// How many of the listed tickets nobody holds when their turn comes, among those that were
  /// listed as debited, or among the others.
  ghost function FreeOnes(tickets: seq<Ticket>, list: seq<nat>, world: World, debited: bool): nat
    requires Listable(tickets, list)
  {
    if list == [] then 0
    else
      var n := |list| - 1;
      var t := tickets[list[n]];
      FreeOnes(tickets, list[..n], world, debited)
      + if !t.stored.value.closed && t.stored.value.leaseUntil <= world.clock(3 * n) && t.stored.value.debited == debited then 1 else 0
  }

  /// Of an undisturbed sweep: a refund for each debited one it claims, an abandonment for each
  /// of the others, a skip for each ticket somebody holds, and no failure.
  ghost predicate Counted(report: Report, tickets: seq<Ticket>, list: seq<nat>, world: World)
    requires Listable(tickets, list)
  {
    && report.refunded == FreeOnes(tickets, list, world, true)
    && report.abandoned == FreeOnes(tickets, list, world, false)
    && report.skipped == |list| - report.refunded - report.abandoned
    && report.failed == 0
  }

  lemma NothingCounted(tickets: seq<Ticket>, world: World)
    ensures Counted(Report(0, 0, 0, 0), tickets, [], world)
  {
  }

  lemma CountOne(report: Report, tickets: seq<Ticket>, list: seq<nat>, i: nat, world: World)
    requires Listable(tickets, list + [i]) && Listable(tickets, list) && Counted(report, tickets, list, world)
    requires i < |tickets| && tickets[i].stored.Some?
    ensures Counted(if !Claimable(tickets[i], world.clock(3 * |list|)) then report.(skipped := report.skipped + 1)
                    else if tickets[i].stored.value.debited then report.(refunded := report.refunded + 1)
                    else report.(abandoned := report.abandoned + 1), tickets, list + [i], world)
  {
    assert (list + [i])[..|list|] == list;
  }

  /// What an undisturbed sweep makes of a claimable ticket: closed and off its lease, expired
  /// with the estimate refunded if it was listed as debited, abandoned otherwise.
  ghost predicate Swept(t: Ticket, u: Ticket, saw: bool) {
    && t.stored.Some?
    && u.stored == Some(t.stored.value.(closed := true, reason := if saw then Expired else Abandoned, leaseUntil := 0))
    && u.final == (if saw && t.final.Free? then BySweep else t.final)
    && u.debit == t.debit && u.late == t.late && Same(u, t)
  }

  /// Nobody interferes; calls may fail.
  ghost predicate Alone(world: World) {
    forall n: nat :: world.others(n) == []
  }

  /// What a request leaves for others to see: the row of the ticket, its two ledger keys and
  /// the usage on its counter.
  datatype Books = Books(row: Option<Stored>, final: Settlement, late: Option<nat>, usage: Option<int>)

  function UsageAt(counters: map<Key, Counter>, k: Key): Option<int> {
    if k in counters then Some(counters[k].value) else None
  }

  function BooksOf(s: State, i: nat): Books
    requires i < |s.tickets|
  {
    var t := s.tickets[i];
    Books(t.stored, t.final, t.late, UsageAt(s.counters, t.key))
  }

  /// Nothing but ticket i and its counter has changed.
  ghost predicate OnlyAt(before: State, after: State, i: nat)
    requires i < |before.tickets|
  {
    && |after.tickets| == |before.tickets|
    && after.tickets == before.tickets[i := after.tickets[i]] && Same(after.tickets[i], before.tickets[i])
    && after.counters - {before.tickets[i].key} == before.counters - {before.tickets[i].key}
  }

  function UsageIn(c: Option<Counter>): Option<int> {
    if c.Some? then Some(c.value.value) else None
  }

  lemma RowOf(s: State, i: nat)
    requires i < |s.tickets|
    ensures BooksOf(s, i).row == s.tickets[i].stored
    ensures var c := CounterOf(s, s.tickets[i].key); BooksOf(s, i).usage == UsageIn(c)
  {
  }

  lemma OnlyAtJoins(a: State, b: State, c: State, i: nat)
    requires i < |a.tickets| && OnlyAt(a, b, i) && OnlyAt(b, c, i)
    ensures OnlyAt(a, c, i)
  {
    var k := a.tickets[i].key;
    forall other ensures other in a.counters - {k} <==> other in c.counters - {k} {
      assert other in a.counters - {k} <==> other in b.counters - {k};
      assert other in b.counters - {k} <==> other in c.counters - {k};
    }
    forall other | other in a.counters - {k} ensures a.counters[other] == c.counters[other] {
      assert (a.counters - {k})[other] == (b.counters - {k})[other] == (c.counters - {k})[other];
    }
  }

  /// An entry in the ledger: a missing counter starts from zero, and none goes below it.
  function Entered(usage: Option<int>, delta: int): Option<int> {
    var sum := (if usage.Some? then usage.value else 0) + delta;
    Some(if sum < 0 then 0 else sum)
  }

  /// The shared key takes the difference once; an answered entry is followed by the close.
  function AfterSettling(b: Books, estimated: int, actual: nat, saw: bool, world: World): Books {
    var b1 := AfterEntry(b, estimated, ByClient(actual, saw), world.faults(1));
    if world.faults(1).Fine? then AfterClosing(b1, Settled, world.faults(2)) else b1
  }

  /// An entry under the shared key: the first one moves the counter by its difference.
  function AfterEntry(b: Books, estimated: int, who: Settlement, fault: Fault): Books {
    if fault.NotApplied? || b.final != Free then b
    else
      b.(final := who,
         usage := Entered(b.usage, match who
                                   case Free => 0
                                   case BySweep => -estimated
                                   case ByRollback => -estimated
                                   case ByClient(actual, saw) => if saw then actual - estimated else actual))
  }

  function AfterClosing(b: Books, reason: CloseReason, fault: Fault): Books {
    b.(row := if fault.NotApplied? || b.row.None? then b.row else Some(Stored(b.row.value.debited, true, reason, 0)))
  }

  /// The late key takes what was used once.
  function AfterCharging(b: Books, actual: nat, world: World): Books {
    if world.faults(1).NotApplied? || b.late != None then b
    else b.(late := Some(actual), usage := Entered(b.usage, actual))
  }

  /// The shared key takes the estimate back once, and the row is closed as rejected.
  function AfterTakingBack(b: Books, estimated: int, world: World): Books {
    AfterClosing(AfterEntry(b, estimated, ByRollback, world.faults(3)), Rejected, world.faults(4))
  }

  /// The row is marked as debited; if the mark is not answered, the debit is taken back.
  function AfterMarking(b: Books, estimated: int, world: World): Books {
    var marked := b.(row := if world.faults(2).NotApplied? || b.row.None? then b.row else Some(b.row.value.(debited := true)));
    if world.faults(2).Fine? then marked else AfterTakingBack(marked, estimated, world)
  }

  /// The lease is taken if the row is open and nobody holds it.
  function AfterClaiming(b: Books, fault: Fault, now: int): Books {
    b.(row := if !fault.NotApplied? && b.row.Some? && !b.row.value.closed && b.row.value.leaseUntil <= now
              then Some(b.row.value.(leaseUntil := now + 30)) else b.row)
  }

  /// The counter takes the estimate if its usage is below the limit.
  predicate Takes(usage: Option<int>, limit: int, seed: int, fault: Fault) {
    !fault.NotApplied? && (if usage.Some? then usage.value else seed) < limit
  }

  function AfterDebiting(b: Books, estimated: int, limit: int, seed: int, fault: Fault): Books {
    if Takes(b.usage, limit, seed, fault)
    then b.(usage := Some((if b.usage.Some? then b.usage.value else seed) + estimated)) else b
  }

  /// What a reconciliation answers and leaves behind when nobody interferes, whichever of its
  /// calls fail. Somebody else's lease or a closed row stops it; a ticket whose estimate the
  /// sweep gave back is charged under the late key; otherwise it holds the lease for thirty
  /// seconds, settles the difference under the shared key, and closes the row as settled.
  ghost predicate Reconciled(b: Books, b': Books, estimated: int, actual: nat, reply: ReconcileReply, world: World) {
    var now := world.clock(0);
    var open := b.row.Some? && !b.row.value.closed && b.row.value.leaseUntil <= now;
    var expired := b.row.Some? && b.row.value.closed && b.row.value.reason == Expired;
    var claimed := open && world.faults(0).Fine?;
    var settles := claimed && !world.faults(1).NotApplied? && b.final == Free;
    var charges := expired && world.faults(0).Fine? && actual > 0 && !world.faults(1).NotApplied? && b.late == None;
    var debited := b.row.Some? && b.row.value.debited;
    && b'.row == (if claimed && world.faults(1).Fine? && !world.faults(2).NotApplied? then Some(Stored(debited, true, Settled, 0))
                  else if open && !world.faults(0).NotApplied? then Some(b.row.value.(leaseUntil := now + 30))
                  else b.row)
    && b'.final == (if settles then ByClient(actual, debited) else b.final)
    && b'.late == (if charges then Some(actual) else b.late)
    && b'.usage == (if settles then Entered(b.usage, if debited then actual - estimated else actual)
                    else if charges then Entered(b.usage, actual)
                    else b.usage)
    && reply == (if !world.faults(0).Fine? then ReconcileFailed
                 else if b.row.None? then Unknown
                 else if b.row.value.closed then
                   match b.row.value.reason
                   case Settled => Accounted(actual, if estimated > actual then estimated - actual else 0)
                   case Expired => if actual > 0 && !world.faults(1).Fine? then ReconcileFailed
                                   else Accounted(actual, if estimated > 0 then estimated else 0)
                   case reason => NeverApplied(reason)
                 else if !open then Busy
                 else if !world.faults(1).Fine? then ReconcileFailed
                 else Accounted(actual, if debited && estimated > actual then estimated - actual else 0))
  }

  /// What a visit of the sweep leaves behind when nobody interferes, whichever of its calls
  /// fail: a lease it does not get stops it; a ticket listed as debited gets its estimate back
  /// under the shared key and, only if that is answered, is closed as expired; any other is
  /// closed as abandoned.
  ghost predicate VisitLeaves(b: Books, b': Books, estimated: int, saw: bool, world: World, n: nat) {
    var now := world.clock(n);
    var open := b.row.Some? && !b.row.value.closed && b.row.value.leaseUntil <= now;
    var claimed := open && world.faults(n).Fine?;
    var refunds := claimed && saw && !world.faults(n + 1).NotApplied? && b.final == Free;
    && b'.row == (if claimed && saw && world.faults(n + 1).Fine? && !world.faults(n + 2).NotApplied?
                  then Some(Stored(b.row.value.debited, true, Expired, 0))
                  else if claimed && !saw && !world.faults(n + 1).NotApplied?
                  then Some(Stored(b.row.value.debited, true, Abandoned, 0))
                  else if open && !world.faults(n).NotApplied? then Some(b.row.value.(leaseUntil := now + 30))
                  else b.row)
    && b'.final == (if refunds then BySweep else b.final)
    && b'.late == b.late
    && b'.usage == (if refunds then Entered(b.usage, -estimated) else b.usage)
  }

  /// The calls of a visit that has the lease, one after the other.
  function AfterSweeping(b: Books, estimated: int, saw: bool, world: World, n: nat): Books {
    if !saw then AfterClosing(b, Abandoned, world.faults(n + 1))
    else
      var refunded := AfterEntry(b, estimated, BySweep, world.faults(n + 1));
      if world.faults(n + 1).Fine? then AfterClosing(refunded, Expired, world.faults(n + 2)) else refunded
  }

  lemma VisitLeavesSo(b: Books, b': Books, estimated: int, saw: bool, world: World, n: nat)
    requires var b1 := AfterClaiming(b, world.faults(n), world.clock(n));
             b' == if ClaimAnswer(b.row, world.faults(n), world.clock(n)).Claimed? then AfterSweeping(b1, estimated, saw, world, n) else b1
    ensures VisitLeaves(b, b', estimated, saw, world, n)
  {
    hide Entered;
  }

  /// What a reservation answers and leaves behind when nobody interferes, whichever of its
  /// calls fail: the row is opened first; the counter takes the estimate if its usage is below
  /// the limit; a refused ticket is closed as rejected; a debit that cannot be marked is taken
  /// back under the settlement key and the ticket closed as rejected.
  ghost predicate Reserved(usage: Option<int>, b: Books, debit: bool, i: nat, estimated: int, limit: int, seed: int,
                           reply: ReserveReply, world: World)
  {
    var found := if usage.Some? then usage.value else seed;
    var isOpen := world.faults(0).Fine?;
    var answered := isOpen && world.faults(1).Fine?;
    var unmarked := answered && found < limit && !world.faults(2).Fine?;
    var rolledBack := unmarked && !world.faults(3).NotApplied?;
    var rejected := || (answered && found >= limit && !world.faults(2).NotApplied?)
                    || (unmarked && !world.faults(4).NotApplied?);
    var marked := answered && found < limit && !world.faults(2).NotApplied?;
    && debit == (isOpen && !world.faults(1).NotApplied? && found < limit)
    && b.row == (if world.faults(0).NotApplied? then None
                 else Some(Stored(marked, rejected, if rejected then Rejected else Settled, 0)))
    && b.final == (if rolledBack then ByRollback else Free)
    && b.late == None
    && b.usage == (if rolledBack then Some(if found < 0 then 0 else found)
                   else if debit then Some(found + estimated)
                   else usage)
    && reply == (if !answered then Internal
                 else if found >= limit then QuotaExhausted(found, limit)
                 else if unmarked then Internal
                 else Allowed(i, estimated))
  }

  lemma ReconciledMeans(b: Books, b1: Books, b': Books, claim: ClaimReply, estimated: int, actual: nat, reply: ReconcileReply, world: World)
    requires claim == ClaimAnswer(b.row, world.faults(0), world.clock(0)) && b1 == AfterClaiming(b, world.faults(0), world.clock(0))
    requires b' == match claim
                   case Claimed(debited) => AfterSettling(b1, estimated, actual, debited, world)
                   case AlreadyClosed(Expired) => (if actual > 0 then AfterCharging(b1, actual, world) else b1)
                   case _ => b1
    requires Replica.Replies(reply, claim, estimated, actual, world.faults(1).Fine?)
    ensures Reconciled(b, b', estimated, actual, reply, world)
  {
    hide Entered;
  }

  /// An answered refusal closes the row, an answered grant marks it.
  function AfterDeciding(b: Books, estimated: int, limit: int, seed: int, outcome: DebitReply, world: World): Books {
    var b2 := AfterDebiting(b, estimated, limit, seed, world.faults(1));
    match outcome
    case DebitFailed => b2
    case DebitRefused(_, _) => AfterClosing(b2, Rejected, world.faults(2))
    case DebitDone(_) => AfterMarking(b2, estimated, world)
  }

  lemma ReservedMeans(c: Option<Counter>, b1: Books, b': Books, debit: bool, i: nat, estimated: int,
                      limit: int, seed: int, reply: ReserveReply, world: World)
    requires b1 == Books(if world.faults(0).NotApplied? then None else Some(Stored(false, false, Settled, 0)), Free, None,
                         UsageIn(c))
    requires reply == ReserveAnswer(c, i, estimated, limit, seed, world)
    requires
      if !world.faults(0).Fine? then b' == b1 && !debit
      else
        && b' == AfterDeciding(b1, estimated, limit, seed, DebitAnswer(c, estimated, limit, seed, world.faults(1)), world)
        && debit == Takes(b1.usage, limit, seed, world.faults(1))
    ensures Reserved(b1.usage, b', debit, i, estimated, limit, seed, reply, world)
  {
  }

  /// One more ticket, and nothing else has changed but its counter.
  ghost predicate OneMore(before: State, after: State, key: Key) {
    && |after.tickets| == |before.tickets| + 1 && after.tickets[..|before.tickets|] == before.tickets
    && after.counters - {key} == before.counters - {key}
  }

  lemma OneMoreStays(before: State, middle: State, after: State, key: Key)
    requires OneMore(before, middle, key) && middle.tickets[|before.tickets|].key == key
    requires OnlyAt(middle, after, |before.tickets|)
    ensures OneMore(before, after, key)
  {
  }

  /// The events do not drive the reserve request of ticket i.
  ghost predicate SparesReserve(events: seq<Event>, i: nat) {
    forall n :: 0 <= n < |events| ==> !(events[n].Reserve? && events[n].i == i)
  }

  /// The events do not drive process j of ticket i.
  ghost predicate SparesProcess(events: seq<Event>, i: nat, j: nat) {
    forall n :: 0 <= n < |events| ==> !(events[n].Continue? && events[n].i == i && events[n].j == j)
  }

  lemma {:induction false} OthersSpareReserve(s: State, events: seq<Event>, i: nat)
    requires i < |s.tickets| && SparesReserve(events, i)
    ensures var s' := RunFrom(s, events);
            && |s'.tickets| >= |s.tickets|
            && Same(s'.tickets[i], s.tickets[i])
            && s'.tickets[i].pc == s.tickets[i].pc && s'.tickets[i].debit == s.tickets[i].debit
    decreases |events|
  {
    if events != [] {
      var e, s1 := events[0], Apply(s, events[0]);
      assert !(e.Reserve? && e.i == i);
      if e.Continue? && e.i == i && e.j < |s.tickets[i].processes| {
        ProcessLeavesRequest(s.tickets[i], CounterOf(s, s.tickets[i].key), e.j, e.fault, e.now);
      }
      OthersSpareReserve(s1, events[1..], i);
    }
  }

  lemma {:induction false} ProcessLeavesRequest(t: Ticket, c: Option<Counter>, j: nat, fault: Fault, now: int)
    requires j < |t.processes|
    ensures var t' := ProcessStep(t, c, j, fault, now).0;
            Same(t', t) && t'.pc == t.pc && t'.debit == t.debit
  {
    match t.processes[j]
    case Listed(_) =>
    case _ =>
  }

  lemma {:induction false} OthersSpareProcess(s: State, events: seq<Event>, i: nat, j: nat)
    requires i < |s.tickets| && j < |s.tickets[i].processes| && SparesProcess(events, i, j)
    ensures var s' := RunFrom(s, events);
            && |s'.tickets| >= |s.tickets| && |s'.tickets[i].processes| >= |s.tickets[i].processes|
            && s'.tickets[i].processes[j] == s.tickets[i].processes[j] && Same(s'.tickets[i], s.tickets[i])
    decreases |events|
  {
    if events != [] {
      var e, s1 := events[0], Apply(s, events[0]);
      assert !(e.Continue? && e.i == i && e.j == j);
      if e.Continue? && e.i == i && e.j < |s.tickets[i].processes| {
        ProcessStepPreserves(s.tickets[i], CounterOf(s, s.tickets[i].key), e.j, e.fault, e.now);
        ProcessLeavesRequest(s.tickets[i], CounterOf(s, s.tickets[i].key), e.j, e.fault, e.now);
      }
      if e.Reserve? && e.i == i {
        RequestLeavesProcesses(s.tickets[i], CounterOf(s, s.tickets[i].key), e.fault, e.limit, e.seed);
      }
      OthersSpareProcess(s1, events[1..], i, j);
    }
  }

  lemma {:induction false} RequestLeavesProcesses(t: Ticket, c: Option<Counter>, fault: Fault, limit: int, seed: int)
    ensures var t' := ReserveStep(t, c, fault, limit, seed).0;
            t'.processes == t.processes && Same(t', t)
  {
    match t.pc
    case _ =>
  }

  lemma {:induction false} RunFromJoins(s: State, a: seq<Event>, b: seq<Event>)
    ensures RunFrom(s, a + b) == RunFrom(RunFrom(s, a), b)
    decreases |a|
  {
    if a == [] {
      assert a + b == b;
    } else {
      assert (a + b)[1..] == a[1..] + b;
      RunFromJoins(Apply(s, a[0]), a[1..], b);
    }
  }

  lemma {:induction false} RunFromOne(s: State, e: Event)
    ensures RunFrom(s, [e]) == Apply(s, e)
  {
    assert RunFrom(Apply(s, e), [e][1..]) == Apply(s, e);
  }

  lemma QuietMeans(world: World, n: nat)
    requires Quiet(world)
    ensures world.others(n) == [] && world.faults(n).Fine? && world.faults(n + 1).Fine? && world.faults(n + 2).Fine?
  {
  }

  lemma QuietCall(start: State, trace: seq<Event>, e: Event)
    ensures RunFrom(start, trace + [] + [e]) == Apply(RunFrom(start, trace), e)
  {
    assert trace + [] == trace;
    RunFromJoins(start, trace, [e]);
    RunFromOne(RunFrom(start, trace), e);
  }

  lemma ClaimIsWon(t: Ticket, fault: Fault, now: int)
    ensures ClaimAnswer(t.stored, fault, now).ClaimFailed? <==> !fault.Fine?
    ensures ClaimAnswer(t.stored, fault, now).Claimed? <==> fault.Fine? && Claimable(t, now)
  {
  }

  /// The calls of an undisturbed sweep visit.
  lemma QuietClaim(s: State, i: nat, j: nat, a: int)
    requires i < |s.tickets| && j < |s.tickets[i].processes| && s.tickets[i].processes[j].Listed?
    ensures var s1 := Apply(s, Continue(i, j, Fine, a));
            && |s1.tickets| == |s.tickets| && s1.tickets == s.tickets[i := s1.tickets[i]] && s1.counters == s.counters
            && s1.tickets[i] == SetProcess(Claim(s.tickets[i], Fine, a), j, s1.tickets[i].processes[j])
  {
    assert Claim(s.tickets[i], Fine, a).processes == s.tickets[i].processes;
    var c := CounterOf(s, s.tickets[i].key);
    assert c.Some? ==> s.counters[s.tickets[i].key := c.value] == s.counters;
  }

  lemma QuietClose(s: State, i: nat, j: nat, a: int)
    requires i < |s.tickets| && j < |s.tickets[i].processes| && s.tickets[i].processes[j].SweepClosing?
    ensures var s1 := Apply(s, Continue(i, j, Fine, a));
            && |s1.tickets| == |s.tickets| && s1.tickets == s.tickets[i := s1.tickets[i]] && s1.counters == s.counters
            && s1.tickets[i] == SetProcess(Close(s.tickets[i], Fine, s.tickets[i].processes[j].reason), j, SweepGone)
  {
    var c := CounterOf(s, s.tickets[i].key);
    assert c.Some? ==> s.counters[s.tickets[i].key := c.value] == s.counters;
  }

  lemma QuietRefund(s: State, i: nat, j: nat, a: int)
    requires i < |s.tickets| && j < |s.tickets[i].processes| && s.tickets[i].processes[j].Refunding?
    ensures var s1, t := Apply(s, Continue(i, j, Fine, a)), s.tickets[i];
            && |s1.tickets| == |s.tickets| && s1.tickets == s.tickets[i := s1.tickets[i]]
            && s1.tickets[i] == SetProcess(if t.final.Free? then t.(final := BySweep) else t, j, SweepClosing(Expired))
            && s1.counters == if t.final.Free? then s.counters[t.key := Adjust(CounterOf(s, t.key), -t.estimated).value] else s.counters
  {
    var c := CounterOf(s, s.tickets[i].key);
    assert c.Some? ==> s.counters[s.tickets[i].key := c.value] == s.counters;
  }

  /// A claimed ticket that is closed at the end has been swept.
  lemma ClosedIsSwept(t: Ticket, a: int, j: nat, saw: bool, p: Process, q: Process)
    requires j < |t.processes| && Claimable(t, a)
    ensures var t1 := SetProcess(Claim(t, Fine, a), j, p);
            var t2 := if saw && t1.final.Free? then t1.(final := BySweep) else t1;
            Swept(t, SetProcess(Close(SetProcess(t2, j, q), Fine, if saw then Expired else Abandoned), j, SweepGone), saw)
    ensures var t1 := SetProcess(Claim(t, Fine, a), j, p);
            !saw ==> Swept(t, SetProcess(Close(t1, Fine, Abandoned), j, SweepGone), saw)
  {
  }

  /// An undisturbed visit to one listed ticket, from claim to close.
  lemma QuietVisit(start: State, trace: seq<Event>, world: World, i: nat, j: nat, n: nat, calls: nat)
    requires Quiet(world)
    requires var s := RunFrom(start, trace); i < |s.tickets| && j < |s.tickets[i].processes| && s.tickets[i].processes[j].Listed?
    requires var t := RunFrom(start, trace).tickets[i];
             calls == if !Claimable(t, world.clock(n)) then 1 else if t.processes[j].saw then 3 else 2
    ensures var s, s' := RunFrom(start, trace), RunFrom(start, ProcessTrace(trace, world, i, j, n, calls));
            var t, saw := s.tickets[i], s.tickets[i].processes[j].saw;
            && i < |s'.tickets| && s'.tickets == s.tickets[i := s'.tickets[i]]
            && (Claimable(t, world.clock(n)) ==>
                  && Swept(t, s'.tickets[i], saw)
                  && s'.counters == if saw && t.final.Free?
                                    then s.counters[t.key := Adjust(CounterOf(s, t.key), -t.estimated).value]
                                    else s.counters)
  {
    hide RunFrom, Swept, Adjust, Close, SetProcess;
    var s := RunFrom(start, trace);
    var t, saw := s.tickets[i], s.tickets[i].processes[j].saw;
    var a, b, c := world.clock(n), world.clock(n + 1), world.clock(n + 2);
    var e1, e2, e3 := Continue(i, j, Fine, a), Continue(i, j, Fine, b), Continue(i, j, Fine, c);
    var t1 := trace + [] + [e1];
    QuietTrace(trace, world, i, j, n);
    QuietCall(start, trace, e1);
    QuietCall(start, t1, e2);
    QuietCall(start, t1 + [] + [e2], e3);
    QuietClaim(s, i, j, a);
    var s1 := Apply(s, e1);
    if Claimable(t, a) {
      ClaimGoesOn(s, i, j, a);
      ClosedIsSwept(t, a, j, saw, s1.tickets[i].processes[j], SweepClosing(Expired));
      if saw {
        QuietRefund(s1, i, j, b);
        RefundGoesOn(s1, i, j, b);
        QuietClose(Apply(s1, e2), i, j, c);
      } else {
        QuietClose(s1, i, j, b);
      }
    }
  }

  lemma QuietTrace(trace: seq<Event>, world: World, i: nat, j: nat, n: nat)
    requires Quiet(world)
    ensures var e1, e2, e3 := Continue(i, j, Fine, world.clock(n)), Continue(i, j, Fine, world.clock(n + 1)), Continue(i, j, Fine, world.clock(n + 2));
            var t1 := trace + [] + [e1];
            var t2 := t1 + [] + [e2];
            && ProcessTrace(trace, world, i, j, n, 1) == t1
            && ProcessTrace(trace, world, i, j, n, 2) == t2
            && ProcessTrace(trace, world, i, j, n, 3) == t2 + [] + [e3]
  {
  }

  lemma ClaimGoesOn(s: State, i: nat, j: nat, a: int)
    requires i < |s.tickets| && j < |s.tickets[i].processes| && s.tickets[i].processes[j].Listed? && Claimable(s.tickets[i], a)
    ensures var s1 := Apply(s, Continue(i, j, Fine, a));
            && i < |s1.tickets| && j < |s1.tickets[i].processes| && s1.tickets[i].key == s.tickets[i].key
            && s1.tickets[i].final == s.tickets[i].final && s1.tickets[i].estimated == s.tickets[i].estimated
            && s1.tickets[i].processes[j] == if s.tickets[i].processes[j].saw then Refunding else SweepClosing(Abandoned)
  {
    assert Claim(s.tickets[i], Fine, a).processes == s.tickets[i].processes;
  }

  lemma RefundGoesOn(s: State, i: nat, j: nat, a: int)
    requires i < |s.tickets| && j < |s.tickets[i].processes| && s.tickets[i].processes[j].Refunding?
    ensures var s1 := Apply(s, Continue(i, j, Fine, a));
            i < |s1.tickets| && j < |s1.tickets[i].processes| && s1.tickets[i].processes[j] == SweepClosing(Expired)
  {
  }

  /// One call works on one ticket and its counter.
  lemma CallIsLocal(s: State, e: Event, i: nat)
    requires i < |s.tickets| && ((e.Reserve? && e.i == i) || (e.Continue? && e.i == i))
    ensures OnlyAt(s, Apply(s, e), i)
  {
    hide ReserveStep, ProcessStep;
    var t, c := s.tickets[i], CounterOf(s, s.tickets[i].key);
    if e.Reserve? {
      RequestLeavesProcesses(t, c, e.fault, e.limit, e.seed);
    } else if e.j < |t.processes| {
      ProcessLeavesRequest(t, c, e.j, e.fault, e.now);
    }
  }

  class Replica {
    var counters: map<Key, Counter>
    var tickets: seq<Ticket>

    ghost function Contents(): State
      reads this
    {
      State(counters, tickets)
    }

    /// Other requests run.
    method Interfere(events: seq<Event>)
      modifies this
      ensures Contents() == RunFrom(old(Contents()), events)
    {
      var n := 0;
      ghost var start := Contents();
      assert events[..0] == [];
      while n < |events|
        invariant 0 <= n <= |events|
        invariant Contents() == RunFrom(start, events[..n])
      {
        var s := Apply(State(counters, tickets), events[n]);
        assert events[..n + 1] == events[..n] + [events[n]];
        RunFromJoins(start, events[..n], [events[n]]);
        RunFromOne(RunFrom(start, events[..n]), events[n]);
        counters, tickets := s.counters, s.tickets;
        n := n + 1;
      }
      assert events[..n] == events;
    }

    /// Other requests run while the reserve request of ticket i waits.
    method Yield(ghost start: State, ghost trace: seq<Event>, i: nat, others: seq<Event>)
      returns (ghost trace': seq<Event>)
      requires Contents() == RunFrom(start, trace) && i < |tickets| && SparesReserve(others, i)
      modifies this
      ensures Contents() == RunFrom(start, trace') && trace' == trace + others && |tickets| >= |old(tickets)|
      ensures Same(tickets[i], old(tickets)[i]) && tickets[i].pc == old(tickets)[i].pc
      ensures tickets[i].debit == old(tickets)[i].debit
      ensures others == [] ==> Contents() == old(Contents())
    {
      RunFromJoins(start, trace, others);
      OthersSpareReserve(Contents(), others, i);
      Interfere(others);
      trace' := trace + others;
    }

    /// Adds to the trace the event that has just been made.
    ghost method Record(start: State, trace: seq<Event>, e: Event) returns (trace': seq<Event>)
      requires Contents() == Apply(RunFrom(start, trace), e)
      ensures Contents() == RunFrom(start, trace') && trace' == trace + [e]
    {
      trace' := trace + [e];
      RunFromJoins(start, trace, [e]);
      RunFromOne(RunFrom(start, trace), e);
    }

    /// Writing the counter of a ticket back unchanged changes nothing.
    ghost method PutBack(i: nat, t: Ticket)
      requires i < |tickets| && tickets[i] == t
      ensures CounterOf(Contents(), t.key).Some? ==>
                counters[t.key := CounterOf(Contents(), t.key).value] == counters
    {
    }

    // -------------------------------------------------------------------------
    // The ledger
    // -------------------------------------------------------------------------

    /// try_debit: the check and the increment are one write.
    method Debit(i: nat, limit: int, seed: int) returns (granted: bool, usage: int)
      requires i < |tickets|
      modifies this`counters
      ensures var (g, c) := TryDebit(CounterOf(old(Contents()), tickets[i].key), tickets[i].estimated, limit, seed);
              g == granted && CounterOf(Contents(), tickets[i].key) == c
              && counters == if c.Some? then old(counters)[tickets[i].key := c.value] else old(counters)
      ensures var found := Usage(CounterOf(old(Contents()), tickets[i].key), seed);
              && (granted <==> found < limit)
              && usage == if granted then found + tickets[i].estimated else found
    {
      PutBack(i, tickets[i]);
      var k := tickets[i].key;
      var current := if k in counters then counters[k].value else seed;
      if current >= limit {
        return false, current;
      }
      var base := if k in counters then counters[k].base else seed;
      counters := counters[k := Counter(current + tickets[i].estimated, base)];
      return true, current + tickets[i].estimated;
    }

    /// settle_once(delta, key): the entry is applied only if its key is new.
    method SettleOnce(i: nat, who: Settlement) returns (applied: bool)
      requires i < |tickets| && !who.Free?
      modifies this
      ensures var (t, c) := SettleFinal(old(tickets)[i], CounterOf(old(Contents()), old(tickets)[i].key), who);
              Contents() == Put(old(Contents()), i, t, c)
      ensures applied <==> old(tickets)[i].final.Free?
    {
      var t := tickets[i];
      PutBack(i, t);
      if !t.final.Free? {
        return false;
      }
      var delta := match who
        case BySweep => -t.estimated
        case ByRollback => -t.estimated
        case ByClient(actual, saw) => if saw then actual - t.estimated else actual;
      Add(t.key, delta);
      tickets := tickets[i := t.(final := who)];
      applied := true;
    }

    /// settle_once under the key of the late charge.
    method ChargeOnce(i: nat, actual: nat) returns (applied: bool)
      requires i < |tickets|
      modifies this
      ensures var (t, c) := SettleLate(old(tickets)[i], CounterOf(old(Contents()), old(tickets)[i].key), actual);
              Contents() == Put(old(Contents()), i, t, c)
      ensures applied <==> old(tickets)[i].late.None?
    {
      var t := tickets[i];
      PutBack(i, t);
      if t.late.Some? {
        return false;
      }
      Add(t.key, actual);
      tickets := tickets[i := t.(late := Some(actual))];
      applied := true;
    }

    method Add(k: Key, delta: int)
      modifies this`counters
      ensures counters == old(counters)[k := Adjust(CounterOf(old(Contents()), k), delta).value]
    {
      var current := if k in counters then counters[k].value else 0;
      var base := if k in counters then counters[k].base else 0;
      var next := current + delta;
      counters := counters[k := Counter(if next < 0 then 0 else next, base)];
    }

    // -------------------------------------------------------------------------
    // The calls of a reserve request
    // -------------------------------------------------------------------------

    method CallOpen(i: nat, fault: Fault) returns (ok: bool)
      requires i < |tickets| && tickets[i].pc.NotOpened?
      modifies this
      ensures Contents() == Apply(old(Contents()), Reserve(i, fault, 0, 0))
      ensures i < |tickets| && Same(tickets[i], old(tickets)[i]) && tickets[i].pc == (if ok then Opened else Gone)
      ensures ok <==> fault.Fine?
      ensures tickets[i].debit == old(tickets)[i].debit
      ensures var b := BooksOf(old(Contents()), i);
              && OnlyAt(old(Contents()), Contents(), i)
              && BooksOf(Contents(), i) == b.(row := if fault.NotApplied? then None else Some(Stored(false, false, Settled, 0)))
    {
      var t := tickets[i];
      PutBack(i, t);
      if fault.NotApplied? {
        t := t.(stored := None);
      } else {
        t := t.(stored := Some(Stored(false, false, Settled, 0)));
      }
      ok := fault.Fine?;
      tickets := tickets[i := t.(pc := if ok then Opened else Gone)];
      CallIsLocal(old(Contents()), Reserve(i, fault, 0, 0), i);
    }

    method CallTryDebit(i: nat, limit: int, seed: int, fault: Fault) returns (reply: DebitReply)
      requires i < |tickets| && tickets[i].pc.Opened?
      modifies this
      ensures Contents() == Apply(old(Contents()), Reserve(i, fault, limit, seed))
      ensures reply == DebitAnswer(CounterOf(old(Contents()), old(tickets)[i].key), old(tickets)[i].estimated,
                                   limit, seed, fault)
      ensures i < |tickets| && Same(tickets[i], old(tickets)[i])
      ensures tickets[i].pc == match reply case DebitDone(_) => Debited case DebitRefused(_, _) => Refused case DebitFailed => Gone
      ensures reply.DebitRefused? ==> tickets[i].debit == old(tickets)[i].debit
      ensures reply.DebitDone? ==> tickets[i].debit
      ensures OnlyAt(old(Contents()), Contents(), i)
      ensures var b := BooksOf(old(Contents()), i);
              && BooksOf(Contents(), i) == AfterDebiting(b, tickets[i].estimated, limit, seed, fault)
              && tickets[i].debit == (old(tickets)[i].debit || Takes(b.usage, limit, seed, fault))
    {
      PutBack(i, tickets[i]);
      reply := DebitFailed;
      var pc := Gone;
      if !fault.NotApplied? {
        var granted, usage := Debit(i, limit, seed);
        if fault.Fine? {
          reply := if granted then DebitDone(usage) else DebitRefused(usage, limit);
          pc := if granted then Debited else Refused;
        }
        tickets := tickets[i := tickets[i].(debit := granted || tickets[i].debit)];
      }
      tickets := tickets[i := tickets[i].(pc := pc)];
      CallIsLocal(old(Contents()), Reserve(i, fault, limit, seed), i);
    }

    method CallMarkDebited(i: nat, fault: Fault) returns (ok: bool)
      requires i < |tickets| && tickets[i].pc.Debited?
      modifies this
      ensures Contents() == Apply(old(Contents()), Reserve(i, fault, 0, 0))
      ensures i < |tickets| && Same(tickets[i], old(tickets)[i]) && tickets[i].pc == (if ok then Granted else Unmarked)
      ensures ok <==> fault.Fine?
      ensures var b := BooksOf(old(Contents()), i);
              && OnlyAt(old(Contents()), Contents(), i)
              && BooksOf(Contents(), i) == b.(row := if fault.NotApplied? || b.row.None? then b.row else Some(b.row.value.(debited := true)))
              && tickets[i].debit == old(tickets)[i].debit
    {
      var t := tickets[i];
      PutBack(i, t);
      if !fault.NotApplied? && t.stored.Some? {
        t := t.(stored := Some(t.stored.value.(debited := true)));
      }
      ok := fault.Fine?;
      tickets := tickets[i := t.(pc := if ok then Granted else Unmarked)];
      CallIsLocal(old(Contents()), Reserve(i, fault, 0, 0), i);
    }

    method CallRollBack(i: nat, fault: Fault)
      requires i < |tickets| && tickets[i].pc.Unmarked?
      modifies this
      ensures Contents() == Apply(old(Contents()), Reserve(i, fault, 0, 0))
      ensures i < |tickets| && Same(tickets[i], old(tickets)[i]) && tickets[i].pc.Undone?
      ensures OnlyAt(old(Contents()), Contents(), i) && tickets[i].debit == old(tickets)[i].debit
      ensures BooksOf(Contents(), i) == AfterEntry(BooksOf(old(Contents()), i), tickets[i].estimated, ByRollback, fault)
    {
      PutBack(i, tickets[i]);
      if !fault.NotApplied? {
        var _ := SettleOnce(i, ByRollback);
      }
      tickets := tickets[i := tickets[i].(pc := Undone)];
      CallIsLocal(old(Contents()), Reserve(i, fault, 0, 0), i);
    }

    method CallCloseRejected(i: nat, fault: Fault)
      requires i < |tickets| && (tickets[i].pc.Refused? || tickets[i].pc.Undone?)
      modifies this
      ensures Contents() == Apply(old(Contents()), Reserve(i, fault, 0, 0))
      ensures i < |tickets| && Same(tickets[i], old(tickets)[i]) && tickets[i].pc.Gone?
      ensures tickets[i].debit == old(tickets)[i].debit
      ensures OnlyAt(old(Contents()), Contents(), i)
      ensures BooksOf(Contents(), i) == AfterClosing(BooksOf(old(Contents()), i), Rejected, fault)
      ensures !fault.NotApplied? && tickets[i].stored.Some? ==>
                tickets[i].stored.value.closed && tickets[i].stored.value.reason == Rejected
    {
      var t := tickets[i];
      PutBack(i, t);
      if !fault.NotApplied? && t.stored.Some? {
        t := t.(stored := Some(t.stored.value.(closed := true, reason := Rejected, leaseUntil := 0)));
      }
      tickets := tickets[i := t.(pc := Gone)];
      CallIsLocal(old(Contents()), Reserve(i, fault, 0, 0), i);
    }

    /// A debit that could not be marked is taken back, and its ticket closed.
    method TakeBack(i: nat, world: World, ghost start: State, ghost trace: seq<Event>) returns (ghost trace': seq<Event>)
      requires Contents() == RunFrom(start, trace) && i < |tickets| && tickets[i].pc.Unmarked?
      requires SparesReserve(world.others(3), i) && SparesReserve(world.others(4), i)
      modifies this
      ensures Contents() == RunFrom(start, trace')
      ensures trace' == trace + world.others(3) + [Reserve(i, world.faults(3), 0, 0)]
                        + world.others(4) + [Reserve(i, world.faults(4), 0, 0)]
      ensures i < |tickets| && Same(tickets[i], old(tickets)[i]) && tickets[i].pc.Gone?
      ensures Alone(world) ==>
                && OnlyAt(old(Contents()), Contents(), i) && tickets[i].debit == old(tickets)[i].debit
                && BooksOf(Contents(), i) == AfterTakingBack(BooksOf(old(Contents()), i), tickets[i].estimated, world)
    {
      hide Apply, RunFrom, OnlyAt, BooksOf, AfterEntry, AfterClosing;
      ghost var before := Contents();
      trace' := Yield(start, trace, i, world.others(3));
      CallRollBack(i, world.faults(3));
      trace' := Record(start, trace', Reserve(i, world.faults(3), 0, 0));
      ghost var middle := Contents();
      trace' := Yield(start, trace', i, world.others(4));
      CallCloseRejected(i, world.faults(4));
      trace' := Record(start, trace', Reserve(i, world.faults(4), 0, 0));
      if Alone(world) {
        OnlyAtJoins(before, middle, Contents(), i);
      }
    }

    /// Marks the debit, or takes it back if the mark is not answered.
    method MarkOrTakeBack(i: nat, limit: int, seed: int, world: World, ghost begin: Event, ghost start: State, ghost trace: seq<Event>)
      returns (marked: bool, ghost trace': seq<Event>, ghost calls: nat)
      requires Contents() == RunFrom(start, trace) && i < |tickets| && tickets[i].pc.Debited?
      requires trace == ReserveTrace(begin, world, i, limit, seed, 2)
      requires forall n: nat :: SparesReserve(world.others(n), i)
      modifies this
      ensures Contents() == RunFrom(start, trace') && trace' == ReserveTrace(begin, world, i, limit, seed, calls)
      ensures marked <==> world.faults(2).Fine?
      ensures i < |tickets| && Same(tickets[i], old(tickets)[i]) && tickets[i].pc == if marked then Granted else Gone
      ensures Alone(world) ==>
                && OnlyAt(old(Contents()), Contents(), i) && tickets[i].debit == old(tickets)[i].debit
                && BooksOf(Contents(), i) == AfterMarking(BooksOf(old(Contents()), i), tickets[i].estimated, world)
    {
      ReserveTraceUnrolls(begin, world, i, limit, seed, 2);
      ReserveTraceUnrolls(begin, world, i, limit, seed, 3);
      ReserveTraceUnrolls(begin, world, i, limit, seed, 4);
      hide Apply, RunFrom, ReserveTrace, OnlyAt, BooksOf, AfterTakingBack;
      ghost var before := Contents();
      trace' := Yield(start, trace, i, world.others(2));
      marked := CallMarkDebited(i, world.faults(2));
      trace' := Record(start, trace', Reserve(i, world.faults(2), 0, 0));
      calls := 3;
      if !marked {
        ghost var unmarked := Contents();
        trace' := TakeBack(i, world, start, trace');
        calls := 5;
        if Alone(world) {
          OnlyAtJoins(before, unmarked, Contents(), i);
        }
      }
    }

    /// From the debit on: a refused ticket is closed, a granted one marked.
    method DebitAndMark(i: nat, limit: int, seed: int, world: World, ghost begin: Event, ghost start: State, ghost trace: seq<Event>)
      returns (reply: ReserveReply, ghost trace': seq<Event>, ghost calls: nat)
      requires Contents() == RunFrom(start, trace) && i < |tickets| && tickets[i].pc.Opened? && !tickets[i].debit
      requires trace == ReserveTrace(begin, world, i, limit, seed, 1) && world.faults(0).Fine?
      requires forall n: nat :: SparesReserve(world.others(n), i)
      modifies this
      ensures Contents() == RunFrom(start, trace') && trace' == ReserveTrace(begin, world, i, limit, seed, calls)
      ensures i < |tickets| && Same(tickets[i], old(tickets)[i])
      ensures var found := CounterOf(RunFrom(start, trace + world.others(1)), tickets[i].key);
              && reply == ReserveAnswer(found, i, tickets[i].estimated, limit, seed, world)
              && (Alone(world) ==>
                    BooksOf(Contents(), i) ==
                    AfterDeciding(BooksOf(old(Contents()), i), tickets[i].estimated, limit, seed,
                                  DebitAnswer(found, tickets[i].estimated, limit, seed, world.faults(1)), world))
      ensures reply.Allowed? || reply.QuotaExhausted? || reply.Internal?
      ensures tickets[i].pc == if reply.Allowed? then Granted else Gone
      ensures reply.QuotaExhausted? ==> !tickets[i].debit
      ensures reply.QuotaExhausted? && !world.faults(2).NotApplied? && tickets[i].stored.Some? ==>
                tickets[i].stored.value.closed && tickets[i].stored.value.reason == Rejected
      ensures Alone(world) ==>
                && OnlyAt(old(Contents()), Contents(), i)
                && tickets[i].debit == Takes(BooksOf(old(Contents()), i).usage, limit, seed, world.faults(1))
    {
      ReserveTraceUnrolls(begin, world, i, limit, seed, 1);
      ReserveTraceUnrolls(begin, world, i, limit, seed, 2);
      hide Apply, RunFrom, ReserveTrace, OnlyAt, BooksOf, DebitAnswer, Takes, AfterDebiting, AfterClosing, AfterMarking;
      ghost var before := Contents();
      trace' := Yield(start, trace, i, world.others(1));
      var outcome := CallTryDebit(i, limit, seed, world.faults(1));
      trace' := Record(start, trace', Reserve(i, world.faults(1), limit, seed));
      calls, reply := 2, Internal;
      ghost var debited := Contents();
      match outcome {
        case DebitFailed =>
        case DebitRefused(usage, lim) =>
          trace' := Yield(start, trace', i, world.others(2));
          CallCloseRejected(i, world.faults(2));
          trace' := Record(start, trace', Reserve(i, world.faults(2), 0, 0));
          calls, reply := 3, QuotaExhausted(usage, lim);
        case DebitDone(_) =>
          var marked;
          marked, trace', calls := MarkOrTakeBack(i, limit, seed, world, begin, start, trace');
          if marked {
            reply := Allowed(i, tickets[i].estimated);
          }
      }
      if Alone(world) {
        OnlyAtJoins(before, debited, Contents(), i);
      }
    }

    /// A new reservation is on its way.
    method Begin(key: Key, estimated: int, expiresAt: int) returns (i: nat, ghost trace: seq<Event>)
      requires estimated > 0
      modifies this`tickets
      ensures trace == [BeginReserve(key, estimated, expiresAt)] && Contents() == RunFrom(old(Contents()), trace)
      ensures i == |old(tickets)| && |tickets| == i + 1 && OneMore(old(Contents()), Contents(), key)
      ensures var t := tickets[i];
              t.key == key && t.estimated == estimated && t.pc.NotOpened? && !t.debit
      ensures BooksOf(Contents(), i) == Books(None, Free, None, UsageAt(counters, key))
    {
      i := |tickets|;
      ghost var start := Contents();
      tickets := tickets + [Ticket(key, estimated, expiresAt, NotOpened, None, false, Free, None, [])];
      trace := [BeginReserve(key, estimated, expiresAt)];
      RunFromOne(start, trace[0]);
    }

    /// Stores the row before anything is debited.
    method Open(key: Key, estimated: int, expiresAt: int, limit: int, seed: int, world: World)
      returns (ok: bool, i: nat, ghost trace: seq<Event>)
      requires estimated > 0
      requires forall n: nat :: SparesReserve(world.others(n), |tickets|)
      modifies this
      ensures i == |old(tickets)| < |tickets| && ok == world.faults(0).Fine?
      ensures Contents() == RunFrom(old(Contents()), trace)
      ensures trace == ReserveTrace(BeginReserve(key, estimated, expiresAt), world, i, limit, seed, 1)
      ensures var t := tickets[i];
              t.key == key && t.estimated == estimated && !t.debit && t.pc == if ok then Opened else Gone
      ensures Alone(world) ==>
                && OneMore(old(Contents()), Contents(), key)
                && BooksOf(Contents(), i) == Books(if world.faults(0).NotApplied? then None else Some(Stored(false, false, Settled, 0)),
                                                   Free, None, UsageAt(old(counters), key))
                && UsageAt(old(counters), key) ==
                   UsageIn(CounterOf(RunFrom(old(Contents()), trace + world.others(1)), key))
    {
      hide Apply, RunFrom, ReserveTrace, OnlyAt, OneMore, BooksOf;
      ghost var start := Contents();
      i, trace := Begin(key, estimated, expiresAt);
      ghost var begin, begun := trace[0], Contents();
      ReserveTraceUnrolls(begin, world, i, limit, seed, 0);
      trace := Yield(start, trace, i, world.others(0));
      ok := CallOpen(i, world.faults(0));
      trace := Record(start, trace, Reserve(i, world.faults(0), 0, 0));
      if Alone(world) {
        assert trace + world.others(1) == trace;
        RowOf(Contents(), i);
        OneMoreStays(start, begun, Contents(), key);
      }
    }

    /// reserve_tokens: open, debit, mark; undo what cannot be marked.
    method ReserveTokens(key: Key, estimated: int, expiresAt: int, limit: int, seed: int, world: World)
      returns (reply: ReserveReply, ghost trace: seq<Event>, ghost calls: nat)
      requires forall n: nat :: SparesReserve(world.others(n), |tickets|)
      modifies this
      ensures Contents() == RunFrom(old(Contents()), trace)
      ensures estimated <= 0 <==> reply.InvalidArgument?
      ensures estimated <= 0 ==> trace == []
      ensures estimated > 0 ==>
                && |old(tickets)| < |tickets|
                && var t := tickets[|old(tickets)|];
                   && t.key == key && t.estimated == estimated
                   && (t.pc.Granted? <==> reply == Allowed(|old(tickets)|, estimated))
                   && (t.pc.Gone? <==> !reply.Allowed?)
                   && (reply.QuotaExhausted? ==> !t.debit)
                   && (reply.QuotaExhausted? && !world.faults(2).NotApplied? && t.stored.Some? ==>
                         t.stored.value.closed && t.stored.value.reason == Rejected)
      ensures estimated > 0 ==>
                var begin, i := BeginReserve(key, estimated, expiresAt), |old(tickets)|;
                && trace == ReserveTrace(begin, world, i, limit, seed, calls)
                && var found := CounterOf(RunFrom(old(Contents()), ReserveTrace(begin, world, i, limit, seed, 1) + world.others(1)), key);
                   reply == ReserveAnswer(found, i, estimated, limit, seed, world)
      ensures estimated > 0 && Alone(world) ==>
                var i := |old(tickets)|;
                && OneMore(old(Contents()), Contents(), key)
                && Reserved(UsageAt(old(counters), key), BooksOf(Contents(), i), tickets[i].debit, i, estimated, limit, seed, reply, world)
    {
      if estimated <= 0 {
        return InvalidArgument, [], 0;
      }
      hide SparesReserve, UsageAt, CounterOf, Same, RunFrom, ReserveTrace, OnlyAt, OneMore, Reserved;
      hide BooksOf, DebitAnswer, Takes, AfterDeciding;
      ghost var start := Contents();
      var ok, i;
      ok, i, trace := Open(key, estimated, expiresAt, limit, seed, world);
      ghost var found := CounterOf(RunFrom(start, trace + world.others(1)), key);
      ghost var begin, registered := BeginReserve(key, estimated, expiresAt), Contents();
      calls, reply := 1, Internal;
      if ok {
        reply, trace, calls := DebitAndMark(i, limit, seed, world, begin, start, trace);
      }
      if Alone(world) {
        if ok {
          OneMoreStays(start, registered, Contents(), key);
        }
        ReservedMeans(found, BooksOf(registered, i), BooksOf(Contents(), i), tickets[i].debit, i, estimated, limit, seed, reply, world);
      }
    }

    // -------------------------------------------------------------------------
    // The calls of a reconcile request
    // -------------------------------------------------------------------------

    /// Other requests run while process j of ticket i waits.
    method Wait(ghost start: State, ghost trace: seq<Event>, i: nat, j: nat, others: seq<Event>)
      returns (ghost trace': seq<Event>)
      requires Contents() == RunFrom(start, trace) && i < |tickets| && j < |tickets[i].processes|
      requires SparesProcess(others, i, j)
      modifies this
      ensures Contents() == RunFrom(start, trace') && trace' == trace + others && |tickets| >= |old(tickets)|
      ensures |tickets[i].processes| >= |old(tickets)[i].processes|
      ensures tickets[i].processes[j] == old(tickets)[i].processes[j] && Same(tickets[i], old(tickets)[i])
      ensures forall p, q :: 0 <= p < |old(tickets)| && 0 <= q < |old(tickets)[p].processes| && SparesProcess(others, p, q) ==>
                q < |tickets[p].processes| && tickets[p].processes[q] == old(tickets)[p].processes[q]
      ensures others == [] ==> Contents() == old(Contents())
    {
      RunFromJoins(start, trace, others);
      ghost var before := Contents();
      forall p, q | 0 <= p < |tickets| && 0 <= q < |tickets[p].processes| && SparesProcess(others, p, q)
        ensures var s' := RunFrom(before, others);
                && |s'.tickets| >= |before.tickets| && q < |s'.tickets[p].processes|
                && s'.tickets[p].processes[q] == before.tickets[p].processes[q] && Same(s'.tickets[p], before.tickets[p])
      {
        OthersSpareProcess(before, others, p, q);
      }
      OthersSpareProcess(before, others, i, j);
      Interfere(others);
      trace' := trace + others;
    }

    /// claim: a conditional write that takes the lease of an open, unleased reservation.
    method TakeLease(i: nat, fault: Fault, now: int) returns (reply: ClaimReply)
      requires i < |tickets|
      modifies this`tickets
      ensures tickets == old(tickets)[i := Claim(old(tickets)[i], fault, now)]
      ensures reply == ClaimAnswer(old(tickets)[i].stored, fault, now)
    {
      var t := tickets[i];
      if fault.NotApplied? {
        return ClaimFailed;
      }
      if t.stored.None? {
        reply := NotFound;
      } else if t.stored.value.closed {
        reply := AlreadyClosed(t.stored.value.reason);
      } else if t.stored.value.leaseUntil > now {
        reply := Leased;
      } else {
        tickets := tickets[i := t.(stored := Some(t.stored.value.(leaseUntil := now + LEASE)))];
        reply := Claimed(t.stored.value.debited);
      }
      if fault.ReplyLost? {
        reply := ClaimFailed;
      }
    }

    method CallClaim(i: nat, j: nat, fault: Fault, now: int) returns (reply: ClaimReply)
      requires i < |tickets| && j < |tickets[i].processes| && tickets[i].processes[j].Asking?
      modifies this
      ensures Contents() == Apply(old(Contents()), Continue(i, j, fault, now))
      ensures i < |tickets| && j < |tickets[i].processes| && Same(tickets[i], old(tickets)[i])
      ensures var actual := old(tickets)[i].processes[j].actual;
              tickets[i].processes[j] ==
                match reply
                case Claimed(debited) => Holding(actual, debited)
                case AlreadyClosed(Settled) => Answered(actual)
                case AlreadyClosed(Expired) => (if actual > 0 then Charging(actual) else Answered(actual))
                case _ => Failed(actual)
      ensures reply == ClaimAnswer(old(tickets)[i].stored, fault, now)
      ensures OnlyAt(old(Contents()), Contents(), i)
      ensures BooksOf(Contents(), i) == AfterClaiming(BooksOf(old(Contents()), i), fault, now)
    {
      var t := tickets[i];
      var actual := t.processes[j].actual;
      PutBack(i, t);
      reply := TakeLease(i, fault, now);
      t := tickets[i];
      var next := match reply
        case Claimed(debited) => Holding(actual, debited)
        case AlreadyClosed(Settled) => Answered(actual)
        case AlreadyClosed(Expired) => (if actual > 0 then Charging(actual) else Answered(actual))
        case _ => Failed(actual);
      tickets := tickets[i := t.(processes := t.processes[j := next])];
      CallIsLocal(old(Contents()), Continue(i, j, fault, now), i);
    }

    method CallSettle(i: nat, j: nat, fault: Fault, now: int) returns (ok: bool)
      requires i < |tickets| && j < |tickets[i].processes| && tickets[i].processes[j].Holding?
      modifies this
      ensures Contents() == Apply(old(Contents()), Continue(i, j, fault, now))
      ensures ok <==> fault.Fine?
      ensures i < |tickets| && j < |tickets[i].processes| && Same(tickets[i], old(tickets)[i])
      ensures var actual := old(tickets)[i].processes[j].actual;
              tickets[i].processes[j] == if ok then Closing(actual) else Failed(actual)
      ensures OnlyAt(old(Contents()), Contents(), i)
      ensures var Holding(actual, saw) := old(tickets)[i].processes[j];
              BooksOf(Contents(), i) == AfterEntry(BooksOf(old(Contents()), i), tickets[i].estimated, ByClient(actual, saw), fault)
    {
      var Holding(actual, saw) := tickets[i].processes[j];
      PutBack(i, tickets[i]);
      if !fault.NotApplied? {
        var _ := SettleOnce(i, ByClient(actual, saw));
      }
      ok := fault.Fine?;
      var t := tickets[i];
      tickets := tickets[i := t.(processes := t.processes[j := if ok then Closing(actual) else Failed(actual)])];
      CallIsLocal(old(Contents()), Continue(i, j, fault, now), i);
    }

    method CallCharge(i: nat, j: nat, fault: Fault, now: int) returns (ok: bool)
      requires i < |tickets| && j < |tickets[i].processes| && tickets[i].processes[j].Charging?
      modifies this
      ensures Contents() == Apply(old(Contents()), Continue(i, j, fault, now))
      ensures ok <==> fault.Fine?
      ensures i < |tickets| && j < |tickets[i].processes| && Same(tickets[i], old(tickets)[i])
      ensures var actual := old(tickets)[i].processes[j].actual;
              tickets[i].processes[j] == if ok then Answered(actual) else Failed(actual)
      ensures var b, actual := BooksOf(old(Contents()), i), old(tickets)[i].processes[j].actual;
              && OnlyAt(old(Contents()), Contents(), i)
              && BooksOf(Contents(), i) ==
                   if fault.NotApplied? || b.late != None then b
                   else b.(late := Some(actual), usage := Entered(b.usage, actual))
    {
      var actual := tickets[i].processes[j].actual;
      PutBack(i, tickets[i]);
      if !fault.NotApplied? {
        var _ := ChargeOnce(i, actual);
      }
      ok := fault.Fine?;
      var t := tickets[i];
      tickets := tickets[i := t.(processes := t.processes[j := if ok then Answered(actual) else Failed(actual)])];
      CallIsLocal(old(Contents()), Continue(i, j, fault, now), i);
    }

    method CallCloseSettled(i: nat, j: nat, fault: Fault, now: int)
      requires i < |tickets| && j < |tickets[i].processes| && tickets[i].processes[j].Closing?
      modifies this
      ensures Contents() == Apply(old(Contents()), Continue(i, j, fault, now))
      ensures i < |tickets| && j < |tickets[i].processes| && Same(tickets[i], old(tickets)[i])
      ensures tickets[i].processes[j] == Answered(old(tickets)[i].processes[j].actual)
      ensures OnlyAt(old(Contents()), Contents(), i)
      ensures BooksOf(Contents(), i) == AfterClosing(BooksOf(old(Contents()), i), Settled, fault)
      ensures !fault.NotApplied? && tickets[i].stored.Some? ==>
                var row := tickets[i].stored.value;
                row.closed && row.reason == Settled && row.leaseUntil == 0
    {
      var t := tickets[i];
      var actual := t.processes[j].actual;
      PutBack(i, t);
      if !fault.NotApplied? && t.stored.Some? {
        t := t.(stored := Some(t.stored.value.(closed := true, reason := Settled, leaseUntil := 0)));
      }
      tickets := tickets[i := t.(processes := t.processes[j := Answered(actual)])];
      CallIsLocal(old(Contents()), Continue(i, j, fault, now), i);
    }

    /// What the client is told, by what its claim found: `entered` says that the entry in the
    /// ledger was answered.
    static predicate Replies(reply: ReconcileReply, claim: ClaimReply, estimated: int, actual: int, entered: bool) {
      match claim
      case ClaimFailed => reply == ReconcileFailed
      case NotFound => reply == Unknown
      case Leased => reply == Busy
      case AlreadyClosed(Rejected) => reply == NeverApplied(Rejected)
      case AlreadyClosed(Abandoned) => reply == NeverApplied(Abandoned)
      case AlreadyClosed(Settled) => reply == Accounted(actual, Max(estimated - actual, 0))
      case AlreadyClosed(Expired) =>
        reply == if actual > 0 && !entered then ReconcileFailed else Accounted(actual, Max(estimated, 0))
      case Claimed(debited) =>
        reply == if !entered then ReconcileFailed else Accounted(actual, if debited then Max(estimated - actual, 0) else 0)
    }

    /// Settles the difference under the shared key and closes the row.
    method SettleAndClose(i: nat, j: nat, world: World, ghost begin: seq<Event>, ghost start: State, ghost trace: seq<Event>)
      returns (settled: bool, ghost trace': seq<Event>, ghost calls: nat)
      requires Contents() == RunFrom(start, trace) && i < |tickets| && j < |tickets[i].processes|
      requires trace == ProcessTrace(begin, world, i, j, 0, 1)
      requires forall n: nat :: SparesProcess(world.others(n), i, j)
      requires tickets[i].processes[j].Holding?
      modifies this
      ensures Contents() == RunFrom(start, trace') && trace' == ProcessTrace(begin, world, i, j, 0, calls)
      ensures settled <==> world.faults(1).Fine?
      ensures i < |tickets| && j < |tickets[i].processes| && Same(tickets[i], old(tickets)[i])
      ensures var actual := old(tickets)[i].processes[j].actual;
              tickets[i].processes[j] == if settled then Answered(actual) else Failed(actual)
      ensures settled && !world.faults(2).NotApplied? && tickets[i].stored.Some? ==>
                var row := tickets[i].stored.value;
                row.closed && row.reason == Settled && row.leaseUntil == 0
      ensures Alone(world) ==>
                var Holding(actual, saw) := old(tickets)[i].processes[j];
                && OnlyAt(old(Contents()), Contents(), i)
                && BooksOf(Contents(), i) == AfterSettling(BooksOf(old(Contents()), i), tickets[i].estimated, actual, saw, world)
    {
      ProcessTraceUnrolls(begin, world, i, j, 0);
      hide Apply, RunFrom, ProcessTrace, OnlyAt, BooksOf, AfterEntry, AfterClosing;
      ghost var before := Contents();
      trace' := Wait(start, trace, i, j, world.others(1));
      settled := CallSettle(i, j, world.faults(1), world.clock(1));
      trace' := Record(start, trace', Continue(i, j, world.faults(1), world.clock(1)));
      calls := 2;
      if !settled {
        return;
      }
      ghost var middle := Contents();
      trace' := Wait(start, trace', i, j, world.others(2));
      CallCloseSettled(i, j, world.faults(2), world.clock(2));
      trace' := Record(start, trace', Continue(i, j, world.faults(2), world.clock(2)));
      calls := 3;
      if Alone(world) {
        OnlyAtJoins(before, middle, Contents(), i);
      }
    }

    /// reconcile_late, for a ticket the sweep has expired: charges what was used under its own key.
    method ReconcileLate(i: nat, j: nat, world: World, ghost begin: seq<Event>, ghost start: State, ghost trace: seq<Event>)
      returns (charged: bool, ghost trace': seq<Event>, ghost calls: nat)
      requires Contents() == RunFrom(start, trace) && i < |tickets| && j < |tickets[i].processes|
      requires trace == ProcessTrace(begin, world, i, j, 0, 1)
      requires forall n: nat :: SparesProcess(world.others(n), i, j)
      requires tickets[i].processes[j].Charging?
      modifies this
      ensures Contents() == RunFrom(start, trace') && trace' == ProcessTrace(begin, world, i, j, 0, calls)
      ensures charged <==> world.faults(1).Fine?
      ensures i < |tickets| && j < |tickets[i].processes| && Same(tickets[i], old(tickets)[i])
      ensures var actual := old(tickets)[i].processes[j].actual;
              tickets[i].processes[j] == if charged then Answered(actual) else Failed(actual)
      ensures Alone(world) ==>
                var actual := old(tickets)[i].processes[j].actual;
                && OnlyAt(old(Contents()), Contents(), i)
                && BooksOf(Contents(), i) == AfterCharging(BooksOf(old(Contents()), i), actual, world)
    {
      ProcessTraceUnrolls(begin, world, i, j, 0);
      hide Apply, RunFrom, ProcessTrace, OnlyAt, BooksOf;
      trace' := Wait(start, trace, i, j, world.others(1));
      charged := CallCharge(i, j, world.faults(1), world.clock(1));
      trace' := Record(start, trace', Continue(i, j, world.faults(1), world.clock(1)));
      calls := 2;
    }

    /// A new reconciliation claims its ticket.
    method Ask(i: nat, actual: nat, world: World) returns (claim: ClaimReply, j: nat, ghost trace: seq<Event>)
      requires i < |tickets|
      requires forall n: nat :: SparesProcess(world.others(n), i, |tickets[i].processes|)
      modifies this
      ensures j == |old(tickets)[i].processes| && i < |tickets| && j < |tickets[i].processes| && Same(tickets[i], old(tickets)[i])
      ensures Contents() == RunFrom(old(Contents()), trace)
      ensures var begin := [BeginReconcile(i, actual)];
              && trace == ProcessTrace(begin, world, i, j, 0, 1)
              && var s := RunFrom(old(Contents()), begin + world.others(0));
                 i < |s.tickets| && claim == ClaimAnswer(s.tickets[i].stored, world.faults(0), world.clock(0))
      ensures tickets[i].processes[j] ==
                match claim
                case Claimed(debited) => Holding(actual, debited)
                case AlreadyClosed(Settled) => Answered(actual)
                case AlreadyClosed(Expired) => (if actual > 0 then Charging(actual) else Answered(actual))
                case _ => Failed(actual)
      ensures Alone(world) ==>
                var b := BooksOf(old(Contents()), i);
                && OnlyAt(old(Contents()), Contents(), i)
                && BooksOf(Contents(), i) == AfterClaiming(b, world.faults(0), world.clock(0))
                && claim == ClaimAnswer(b.row, world.faults(0), world.clock(0))
    {
      ghost var start := Contents();
      j := |tickets[i].processes|;
      tickets := tickets[i := tickets[i].(processes := tickets[i].processes + [Asking(actual)])];
      trace := [BeginReconcile(i, actual)];
      RunFromOne(start, trace[0]);
      assert OnlyAt(start, Contents(), i);
      ProcessTraceUnrolls(trace, world, i, j, 0);
      assert BooksOf(start, i) == BooksOf(Contents(), i);
      hide Apply, RunFrom, ProcessTrace, OnlyAt, BooksOf, ClaimAnswer, AfterClaiming;
      ghost var begun := Contents();
      trace := Wait(start, trace, i, j, world.others(0));
      RowOf(Contents(), i);
      claim := CallClaim(i, j, world.faults(0), world.clock(0));
      trace := Record(start, trace, Continue(i, j, world.faults(0), world.clock(0)));
      if Alone(world) {
        OnlyAtJoins(start, begun, Contents(), i);
      }
    }

    /// reconcile_tokens: claim, then settle and close, or charge late, or only answer.
    method ReconcileTokens(i: nat, input: int, output: int, world: World)
      returns (reply: ReconcileReply, ghost trace: seq<Event>, ghost calls: nat)
      requires i < |tickets|
      requires forall n: nat :: SparesProcess(world.others(n), i, |tickets[i].processes|)
      modifies this
      ensures Contents() == RunFrom(old(Contents()), trace)
      ensures input < 0 || output < 0 <==> reply.NegativeTokens?
      ensures reply.NegativeTokens? ==> trace == []
      ensures !reply.NegativeTokens? ==>
                && i < |tickets| && |old(tickets)[i].processes| < |tickets[i].processes|
                && var j := |old(tickets)[i].processes|;
                   && (reply.Accounted? ==>
                         && tickets[i].processes[j] == Answered(input + output)
                         && reply.consumed == input + output
                         && 0 <= reply.returned <= Max(tickets[i].estimated, 0))
                   && (!reply.Accounted? ==> tickets[i].processes[j] == Failed(input + output))
      ensures !reply.NegativeTokens? ==>
                var begin, j := [BeginReconcile(i, input + output)], |old(tickets)[i].processes|;
                && trace == ProcessTrace(begin, world, i, j, 0, calls)
                && var s := RunFrom(old(Contents()), begin + world.others(0));
                   && i < |s.tickets|
                   && var claim := ClaimAnswer(s.tickets[i].stored, world.faults(0), world.clock(0));
                      && Replies(reply, claim, tickets[i].estimated, input + output, world.faults(1).Fine?)
                      && (claim.Claimed? && world.faults(1).Fine? && !world.faults(2).NotApplied? && tickets[i].stored.Some? ==>
                            var row := tickets[i].stored.value;
                            row.closed && row.reason == Settled && row.leaseUntil == 0)
      ensures !reply.NegativeTokens? && Alone(world) ==>
                && OnlyAt(old(Contents()), Contents(), i)
                && Reconciled(BooksOf(old(Contents()), i), BooksOf(Contents(), i), tickets[i].estimated, input + output, reply, world)
    {
      if input < 0 || output < 0 {
        return NegativeTokens, [], 0;
      }
      var actual: nat := input + output;
      hide RunFrom, ProcessTrace, OnlyAt, BooksOf, Reconciled, ClaimAnswer, AfterClaiming, AfterSettling, AfterCharging;
      ghost var start, begin := Contents(), [BeginReconcile(i, actual)];
      var claim, j;
      claim, j, trace := Ask(i, actual, world);
      calls := 1;
      ghost var claimed := Contents();
      var estimated := tickets[i].estimated;
      match claim {
        case ClaimFailed => reply := ReconcileFailed;
        case NotFound => reply := Unknown;
        case Leased => reply := Busy;
        case AlreadyClosed(Rejected) => reply := NeverApplied(Rejected);
        case AlreadyClosed(Abandoned) => reply := NeverApplied(Abandoned);
        case AlreadyClosed(Settled) => reply := Accounted(actual, Max(estimated - actual, 0));
        case AlreadyClosed(Expired) =>
          reply := Accounted(actual, Max(estimated, 0));
          if actual > 0 {
            var charged;
            charged, trace, calls := ReconcileLate(i, j, world, begin, start, trace);
            if !charged {
              reply := ReconcileFailed;
            }
          }
        case Claimed(debited) =>
          reply := Accounted(actual, if debited then Max(estimated - actual, 0) else 0);
          var settled;
          settled, trace, calls := SettleAndClose(i, j, world, begin, start, trace);
          if !settled {
            reply := ReconcileFailed;
          }
      }
      if Alone(world) {
        OnlyAtJoins(start, claimed, Contents(), i);
        ReconciledMeans(BooksOf(start, i), BooksOf(claimed, i), BooksOf(Contents(), i), claim, estimated, actual, reply, world);
      }
    }

    // -------------------------------------------------------------------------
    // A sweep visit
    // -------------------------------------------------------------------------

    /// sweep: the open, expired reservations of a shard, at most `limit` of them, as they
    /// were when listed. Afterwards the list is not read again.
    method ListExpired(shard: nat -> bool, now: int, limit: nat, ghost start: State)
      returns (list: seq<nat>, slots: seq<nat>, ghost trace: seq<Event>)
      requires Contents() == start
      modifies this`tickets
      ensures Contents() == RunFrom(start, trace) && trace == Visits(list, now) && |list| <= limit
      ensures Listing(list, slots, start.tickets, tickets, |tickets|, shard, now)
      ensures |list| < limit ==>
                forall i :: 0 <= i < |tickets| && Overdue(start.tickets[i], now) && shard(i) ==> i in list
    {
      RunFromNone(start);
      hide RunFrom, Apply, Visited, Listing, Overdue;
      list, slots, trace := [], [], [];
      ListingStarts(start.tickets, shard, now);
      var i := 0;
      while i < |tickets| && |list| < limit
        invariant 0 <= i <= |tickets| == |start.tickets| && |list| <= limit
        invariant Contents() == RunFrom(start, trace) && trace == Visits(list, now)
        invariant Listing(list, slots, start.tickets, tickets, i, shard, now)
        invariant forall m :: 0 <= m < i && Overdue(start.tickets[m], now) && shard(m) ==> m in list
      {
        ListingSkips(list, slots, start.tickets, tickets, i, shard, now);
        if Overdue(tickets[i], now) && shard(i) {
          ListingGrows(list, slots, start.tickets, tickets, i, shard, now);
          list, slots := list + [i], slots + [|tickets[i].processes|];
          trace := Visit(i, now, start, trace);
        }
        i := i + 1;
      }
      ListingEnds(list, slots, start.tickets, tickets, i, shard, now);
    }

    method Visit(i: nat, now: int, ghost start: State, ghost trace: seq<Event>) returns (ghost trace': seq<Event>)
      requires Contents() == RunFrom(start, trace) && i < |tickets| && Overdue(tickets[i], now)
      modifies this`tickets
      ensures Contents() == RunFrom(start, trace') && trace' == trace + [BeginSweep(i, now)]
      ensures tickets == old(tickets)[i := Visited(old(tickets)[i])]
    {
      tickets := tickets[i := Visited(tickets[i])];
      trace' := Record(start, trace, BeginSweep(i, now));
    }

    method CallSweepClaim(i: nat, j: nat, world: World, n: nat, ghost start: State, ghost trace: seq<Event>)
      returns (reply: ClaimReply, ghost trace': seq<Event>)
      requires Contents() == RunFrom(start, trace) && i < |tickets| && j < |tickets[i].processes|
      requires Spares(world, i, j) && tickets[i].processes[j].Listed?
      modifies this
      ensures Contents() == RunFrom(start, trace') && trace' == trace + world.others(n) + [Continue(i, j, world.faults(n), world.clock(n))]
      ensures Extends(old(tickets), tickets, i, j)
      ensures Untouched(old(tickets), tickets, i, world)
      ensures var saw := old(tickets)[i].processes[j].saw;
              tickets[i].processes[j] ==
                if !reply.Claimed? then SweepGone else if saw then Refunding else SweepClosing(Abandoned)
      ensures i < |RunFrom(start, trace + world.others(n)).tickets|
      ensures reply == ClaimAnswer(RunFrom(start, trace + world.others(n)).tickets[i].stored, world.faults(n), world.clock(n))
      ensures world.others(n) == [] ==>
                && OnlyAt(old(Contents()), Contents(), i)
                && BooksOf(Contents(), i) == AfterClaiming(BooksOf(old(Contents()), i), world.faults(n), world.clock(n))
    {
      hide RunFrom, ReserveStep, OnlyAt;
      trace' := Wait(start, trace, i, j, world.others(n));
      ghost var found := Contents();
      var t, fault, now := tickets[i], world.faults(n), world.clock(n);
      var saw := t.processes[j].saw;
      PutBack(i, t);
      reply := TakeLease(i, fault, now);
      t := tickets[i];
      var next := if !reply.Claimed? then SweepGone else if saw then Refunding else SweepClosing(Abandoned);
      tickets := tickets[i := t.(processes := t.processes[j := next])];
      CallIsLocal(found, Continue(i, j, fault, now), i);
      trace' := Record(start, trace', Continue(i, j, fault, now));
    }

    method CallRefund(i: nat, j: nat, world: World, n: nat, ghost start: State, ghost trace: seq<Event>)
      returns (ok: bool, ghost trace': seq<Event>)
      requires Contents() == RunFrom(start, trace) && i < |tickets| && j < |tickets[i].processes|
      requires Spares(world, i, j) && tickets[i].processes[j].Refunding?
      modifies this
      ensures Contents() == RunFrom(start, trace') && trace' == trace + world.others(n) + [Continue(i, j, world.faults(n), world.clock(n))]
      ensures Extends(old(tickets), tickets, i, j)
      ensures Untouched(old(tickets), tickets, i, world)
      ensures tickets[i].processes[j] == if ok then SweepClosing(Expired) else SweepGone
      ensures ok <==> world.faults(n).Fine?
      ensures world.others(n) == [] ==>
                && OnlyAt(old(Contents()), Contents(), i)
                && BooksOf(Contents(), i) == AfterEntry(BooksOf(old(Contents()), i), tickets[i].estimated, BySweep, world.faults(n))
    {
      hide RunFrom, ReserveStep, OnlyAt;
      trace' := Wait(start, trace, i, j, world.others(n));
      ghost var found := Contents();
      var fault := world.faults(n);
      PutBack(i, tickets[i]);
      if !fault.NotApplied? {
        var _ := SettleOnce(i, BySweep);
      }
      ok := fault.Fine?;
      var t := tickets[i];
      tickets := tickets[i := t.(processes := t.processes[j := if ok then SweepClosing(Expired) else SweepGone])];
      CallIsLocal(found, Continue(i, j, fault, world.clock(n)), i);
      trace' := Record(start, trace', Continue(i, j, fault, world.clock(n)));
    }

    method CallCloseSwept(i: nat, j: nat, world: World, n: nat, ghost start: State, ghost trace: seq<Event>)
      returns (ok: bool, ghost trace': seq<Event>)
      requires Contents() == RunFrom(start, trace) && i < |tickets| && j < |tickets[i].processes|
      requires Spares(world, i, j) && tickets[i].processes[j].SweepClosing?
      modifies this
      ensures Contents() == RunFrom(start, trace') && trace' == trace + world.others(n) + [Continue(i, j, world.faults(n), world.clock(n))]
      ensures Extends(old(tickets), tickets, i, j)
      ensures Untouched(old(tickets), tickets, i, world)
      ensures tickets[i].processes[j] == SweepGone
      ensures ok && tickets[i].stored.Some? ==>
                tickets[i].stored.value.closed && tickets[i].stored.value.reason == old(tickets)[i].processes[j].reason
      ensures ok <==> world.faults(n).Fine?
      ensures world.others(n) == [] ==>
                && OnlyAt(old(Contents()), Contents(), i)
                && BooksOf(Contents(), i) == AfterClosing(BooksOf(old(Contents()), i), old(tickets)[i].processes[j].reason, world.faults(n))
    {
      hide RunFrom, ReserveStep, OnlyAt;
      trace' := Wait(start, trace, i, j, world.others(n));
      ghost var found := Contents();
      var t, fault := tickets[i], world.faults(n);
      var reason := t.processes[j].reason;
      PutBack(i, t);
      if !fault.NotApplied? && t.stored.Some? {
        t := t.(stored := Some(t.stored.value.(closed := true, reason := reason, leaseUntil := 0)));
      }
      ok := fault.Fine?;
      tickets := tickets[i := t.(processes := t.processes[j := SweepGone])];
      CallIsLocal(found, Continue(i, j, fault, world.clock(n)), i);
      trace' := Record(start, trace', Continue(i, j, fault, world.clock(n)));
    }

    /// The rest of a visit that has the lease: refund, if the ticket was listed as debited, and close.
    method RefundAndClose(i: nat, j: nat, saw: bool, world: World, n: nat, ghost begin: seq<Event>, ghost start: State, ghost trace: seq<Event>)
      returns (ok: bool, ghost trace': seq<Event>, ghost calls: nat)
      requires Contents() == RunFrom(start, trace) && i < |tickets| && j < |tickets[i].processes|
      requires trace == ProcessTrace(begin, world, i, j, n, 1) && Spares(world, i, j)
      requires tickets[i].processes[j] == if saw then Refunding else SweepClosing(Abandoned)
      modifies this
      ensures Contents() == RunFrom(start, trace') && trace' == ProcessTrace(begin, world, i, j, n, calls)
      ensures Extends(old(tickets), tickets, i, j) && Untouched(old(tickets), tickets, i, world)
      ensures tickets[i].processes[j].SweepGone?
      ensures ok <==> world.faults(n + 1).Fine? && (saw ==> world.faults(n + 2).Fine?)
      ensures calls == if saw && world.faults(n + 1).Fine? then 3 else 2
      ensures ok && tickets[i].stored.Some? ==>
                tickets[i].stored.value.closed && tickets[i].stored.value.reason == if saw then Expired else Abandoned
      ensures Alone(world) ==>
                && OnlyAt(old(Contents()), Contents(), i)
                && BooksOf(Contents(), i) == AfterSweeping(BooksOf(old(Contents()), i), tickets[i].estimated, saw, world, n)
    {
      ProcessTraceUnrolls(begin, world, i, j, n);
      hide RunFrom, Apply, ProcessTrace, Untouched, OnlyAt, BooksOf, AfterEntry, AfterClosing;
      ghost var before := Contents();
      calls := 1;
      if saw {
        ok, trace' := CallRefund(i, j, world, n + 1, start, trace);
        calls := 2;
        if !ok {
          return;
        }
        ghost var middle := Contents();
        ok, trace' := CallCloseSwept(i, j, world, n + 2, start, trace');
        calls := 3;
        UntouchedJoins(before.tickets, middle.tickets, tickets, i, world);
        if Alone(world) {
          OnlyAtJoins(before, middle, Contents(), i);
        }
      } else {
        ok, trace' := CallCloseSwept(i, j, world, n + 1, start, trace);
        calls := 2;
      }
    }

    /// What a sweep does with one listed reservation.
    method SweepTicket(i: nat, j: nat, world: World, n: nat, report: Report, ghost start: State, ghost trace: seq<Event>)
      returns (report': Report, ghost trace': seq<Event>, ghost calls: nat)
      requires Contents() == RunFrom(start, trace) && i < |tickets| && j < |tickets[i].processes|
      requires Spares(world, i, j) && tickets[i].processes[j].Listed?
      modifies this
      ensures Contents() == RunFrom(start, trace') && trace' == ProcessTrace(trace, world, i, j, n, calls)
      ensures |tickets| >= |old(tickets)| && |tickets[i].processes| >= |old(tickets)[i].processes|
      ensures tickets[i].processes[j].SweepGone? && Untouched(old(tickets), tickets, i, world)
      ensures report'.Touched() == report.Touched() + 1
      ensures i < |RunFrom(start, trace + world.others(n)).tickets|
      ensures report' == report.With(old(tickets)[i].processes[j].saw, RunFrom(start, trace + world.others(n)).tickets[i], world, n)
      ensures report'.refunded > report.refunded && tickets[i].stored.Some? ==>
                tickets[i].stored.value.closed && tickets[i].stored.value.reason == Expired
      ensures report'.abandoned > report.abandoned && tickets[i].stored.Some? ==>
                tickets[i].stored.value.closed && tickets[i].stored.value.reason == Abandoned
      ensures Quiet(world) ==>
                report' == if !Claimable(old(tickets)[i], world.clock(n)) then report.(skipped := report.skipped + 1)
                           else if old(tickets)[i].processes[j].saw then report.(refunded := report.refunded + 1)
                           else report.(abandoned := report.abandoned + 1)
      ensures Alone(world) ==>
                && OnlyAt(old(Contents()), Contents(), i)
                && VisitLeaves(BooksOf(old(Contents()), i), BooksOf(Contents(), i), tickets[i].estimated,
                               old(tickets)[i].processes[j].saw, world, n)
      ensures Quiet(world) && Claimable(old(tickets)[i], world.clock(n)) ==>
                var t, saw := old(tickets)[i], old(tickets)[i].processes[j].saw;
                && Swept(t, tickets[i], saw) && tickets == old(tickets)[i := tickets[i]]
                && counters == if saw && t.final.Free?
                               then old(counters)[t.key := Adjust(CounterOf(old(Contents()), t.key), -t.estimated).value]
                               else old(counters)
      ensures Quiet(world) ==> tickets == old(tickets)[i := tickets[i]]
    {
      ProcessTraceUnrolls(trace, world, i, j, n);
      hide RunFrom, Apply, ProcessStep, ProcessTrace, Claimable, Swept, Adjust, Quiet, Untouched, Extends, OnlyAt, BooksOf;
      hide AfterClaiming, AfterSweeping, VisitLeaves, ClaimAnswer;
      ghost var before := Contents();
      var saw := tickets[i].processes[j].saw;
      var claim;
      RowOf(Contents(), i);
      assert Alone(world) ==> trace + world.others(n) == trace;
      claim, trace' := CallSweepClaim(i, j, world, n, start, trace);
      StillThere(before.tickets, tickets, i, j);
      ghost var middle := Contents();
      calls := 1;
      ClaimIsWon(RunFrom(start, trace + world.others(n)).tickets[i], world.faults(n), world.clock(n));
      if claim.ClaimFailed? {
        report' := report.(failed := report.failed + 1);
      } else if !claim.Claimed? {
        report' := report.(skipped := report.skipped + 1);
      } else {
        var ok;
        ok, trace', calls := RefundAndClose(i, j, saw, world, n, trace, start, trace');
        StillThere(middle.tickets, tickets, i, j);
        UntouchedJoins(before.tickets, middle.tickets, tickets, i, world);
        if Alone(world) {
          OnlyAtJoins(before, middle, Contents(), i);
        }
        report' := if !ok then report.(failed := report.failed + 1)
                   else if saw then report.(refunded := report.refunded + 1)
                   else report.(abandoned := report.abandoned + 1);
      }
      if Alone(world) {
        VisitLeavesSo(BooksOf(before, i), BooksOf(Contents(), i), tickets[i].estimated, saw, world, n);
      }
      if Quiet(world) {
        QuietMeans(world, n);
        assert trace + world.others(n) == trace;
        QuietVisit(start, trace, world, i, j, n, calls);
      }
    }

    /// One visit to one shard: list it, then claim, refund and close one by one.
    method SweepOnce(shard: nat -> bool, now: int, world: World)
      returns (report: Report, list: seq<nat>, slots: seq<nat>, ghost trace: seq<Event>, ghost calls: seq<nat>)
      requires forall i: nat :: i < |tickets| ==> Spares(world, i, |tickets[i].processes|)
      modifies this
      ensures report.Touched() == |list| == |slots| == |calls| <= 25 && |tickets| >= |old(tickets)|
      ensures Contents() == RunFrom(old(Contents()), trace) && trace == SweepTrace(world, now, list, slots, calls)
      ensures forall n :: 0 <= n < |list| ==>
                && list[n] < |old(tickets)| && shard(list[n]) && old(tickets)[list[n]].stored.Some?
                && !old(tickets)[list[n]].stored.value.closed && old(tickets)[list[n]].expiresAt < now
                && Finished(tickets[list[n]], slots[n])
      ensures |list| < 25 ==>
                forall i :: 0 <= i < |old(tickets)| && shard(i)
                            && old(tickets)[i].stored.Some? && !old(tickets)[i].stored.value.closed
                            && old(tickets)[i].expiresAt < now ==>
                  i in list
      ensures Listable(old(tickets), list) && report == ReportOf(old(Contents()), world, now, list, slots, calls)
      ensures Quiet(world) ==> Counted(report, old(tickets), list, world)
      ensures Quiet(world) ==>
                forall n :: 0 <= n < |list| ==> SweptIfFree(old(tickets)[list[n]], tickets[list[n]], world.clock(3 * n))
    {
      hide RunFrom, Claimable, Spares, ProcessTrace, SweepTrace, ReportOf, Untouched, Quiet, Counted, Listing, Visited, Overdue;
      hide Swept, SweptIfFree, Waiting, Finished, Sweeping, Listable, SweptSoFar;
      ghost var start := Contents();
      list, slots, trace := ListExpired(shard, now, SWEEP_BATCH, start);
      ListingMeans(list, slots, start.tickets, tickets, shard, now);
      NoneIsMissed(start.tickets, list, shard, now);
      report, calls := Report(0, 0, 0, 0), [];
      SweepStarts(start, tickets, list, slots, shard, now, world);
      var n := 0;
      while n < |list|
        invariant 0 <= n <= |list| == |slots| && |calls| == n
        invariant Contents() == RunFrom(start, trace)
        invariant SweptSoFar(start, list, slots, calls, now, world, report, trace)
        invariant Sweeping(start.tickets, tickets, list, slots, n, world)
      {
        report, trace, calls := SweepNext(start, list, slots, calls, now, world, report, trace);
        n := n + 1;
      }
      SweepEnds(start.tickets, tickets, list, slots, world);
      SweptAll(start, list, slots, calls, now, world, report, trace);
    }

    /// The trace and the report of a sweep that has made these calls.
    static ghost predicate SweptSoFar(start: State, list: seq<nat>, slots: seq<nat>, calls: seq<nat>, now: int, world: World,
                                      report: Report, trace: seq<Event>)
    {
      && |calls| <= |list| == |slots| && Listable(start.tickets, list) && Listable(start.tickets, list[..|calls|])
      && report.Touched() == |calls|
      && trace == SweepTrace(world, now, list, slots, calls)
      && report == ReportOf(start, world, now, list, slots, calls)
      && (Quiet(world) ==> Counted(report, start.tickets, list[..|calls|], world))
    }

    /// The next ticket of the list.
    method SweepNext(ghost start: State, list: seq<nat>, slots: seq<nat>, ghost calls: seq<nat>, now: int, world: World,
                     report: Report, ghost trace: seq<Event>)
      returns (report': Report, ghost trace': seq<Event>, ghost calls': seq<nat>)
      requires |calls| < |list| && SweptSoFar(start, list, slots, calls, now, world, report, trace)
      requires Contents() == RunFrom(start, trace) && Sweeping(start.tickets, tickets, list, slots, |calls|, world)
      requires forall k, m :: 0 <= k < m < |list| ==> list[k] != list[m]
      requires forall m :: 0 <= m < |list| && m < |slots| ==> Spares(world, list[m], slots[m])
      modifies this
      ensures |calls'| == |calls| + 1 && SweptSoFar(start, list, slots, calls', now, world, report', trace')
      ensures Contents() == RunFrom(start, trace') && Sweeping(start.tickets, tickets, list, slots, |calls'|, world)
    {
      hide RunFrom, Claimable, Spares, ProcessTrace, SweepTrace, ReportOf, Untouched, Quiet, Counted, Visited, Swept, Sweeping, Listable;
      var n := report.Touched();
      var i := list[n];
      ghost var was := tickets;
      NextToSweep(start.tickets, tickets, list, slots, n, world);
      ListableUpTo(start.tickets, list, n);
      assert list[..n + 1] == list[..n] + [i];
      if Quiet(world) {
        CountOne(report, start.tickets, list[..n], i, world);
      }
      ghost var count;
      report', trace', count := SweepTicket(i, slots[n], world, 3 * n, report, start, trace);
      SweepMore(start.tickets, was, tickets, list, slots, n, world);
      OneMoreSwept(start, world, now, list, slots, calls, count);
      calls' := calls + [count];
    }

    /// The sweep has dealt with the first n tickets of its list and with no later one.
    static ghost predicate Sweeping(before: seq<Ticket>, after: seq<Ticket>, list: seq<nat>, slots: seq<nat>, n: nat, world: World) {
      && n <= |list| == |slots| && |after| >= |before| && (forall m :: 0 <= m < |list| ==> list[m] < |before|)
      && (forall m :: n <= m < |list| ==> Waiting(before[list[m]], after[list[m]]) && slots[m] == |before[list[m]].processes|)
      && (forall m :: 0 <= m < n ==> Finished(after[list[m]], slots[m]))
      && (Quiet(world) ==> forall m :: n <= m < |list| ==> after[list[m]] == Visited(before[list[m]]))
      && (Quiet(world) ==> forall m :: 0 <= m < n ==> SweptIfFree(before[list[m]], after[list[m]], world.clock(3 * m)))
    }

    lemma NoneIsMissed(tickets: seq<Ticket>, list: seq<nat>, shard: nat -> bool, now: int)
      ensures (forall i :: 0 <= i < |tickets| && Overdue(tickets[i], now) && shard(i) ==> i in list) ==>
              forall i :: 0 <= i < |tickets| && shard(i)
                          && tickets[i].stored.Some? && !tickets[i].stored.value.closed
                          && tickets[i].expiresAt < now ==>
                i in list
    {
    }

    lemma SweepStarts(start: State, after: seq<Ticket>, list: seq<nat>, slots: seq<nat>, shard: nat -> bool, now: int, world: World)
      requires Listing(list, slots, start.tickets, after, |after|, shard, now)
      ensures Sweeping(start.tickets, after, list, slots, 0, world)
      ensures SweptSoFar(start, list, slots, [], now, world, Report(0, 0, 0, 0), Visits(list, now))
    {
      assert list[..0] == [];
      ListingMeans(list, slots, start.tickets, after, shard, now);
      NothingSwept(start, world, now, list, slots);
      NothingCounted(start.tickets, world);
    }

    lemma NextToSweep(before: seq<Ticket>, after: seq<Ticket>, list: seq<nat>, slots: seq<nat>, n: nat, world: World)
      requires Sweeping(before, after, list, slots, n, world) && n < |list|
      ensures var i := list[n];
              && i < |before| && i < |after| && slots[n] == |before[i].processes| < |after[i].processes|
              && before[i].stored.Some? && after[i].processes[slots[n]] == Listed(before[i].stored.value.debited)
              && (Quiet(world) ==> after[i] == Visited(before[i]))
      ensures before[list[n]].stored.Some? ==>
                (Claimable(Visited(before[list[n]]), world.clock(3 * n)) <==> Claimable(before[list[n]], world.clock(3 * n)))
    {
      WaitingMeans(before[list[n]], after[list[n]]);
    }

    lemma ListableUpTo(tickets: seq<Ticket>, list: seq<nat>, n: nat)
      requires Listable(tickets, list) && n < |list|
      ensures Listable(tickets, list[..n]) && Listable(tickets, list[..n + 1])
      ensures list[n] < |tickets| && tickets[list[n]].stored.Some?
    {
    }

    lemma SweepMore(before: seq<Ticket>, was: seq<Ticket>, after: seq<Ticket>, list: seq<nat>, slots: seq<nat>, n: nat, world: World)
      requires Sweeping(before, was, list, slots, n, world) && n < |list|
      requires forall k, m :: 0 <= k < m < |list| ==> list[k] != list[m]
      requires forall m :: 0 <= m < |list| ==> Spares(world, list[m], slots[m])
      requires |after| >= |was| && Untouched(was, after, list[n], world)
      requires list[n] < |was| && list[n] < |after| && slots[n] < |after[list[n]].processes|
      requires after[list[n]].processes[slots[n]].SweepGone?
      requires Quiet(world) ==>
                 && after == was[list[n] := after[list[n]]]
                 && list[n] < |before| && before[list[n]].stored.Some?
                 && (Claimable(was[list[n]], world.clock(3 * n)) ==> Swept(was[list[n]], after[list[n]], before[list[n]].stored.value.debited))
      ensures Sweeping(before, after, list, slots, n + 1, world)
    {
      hide Untouched, Spares, Quiet, Swept, SweptIfFree, Visited, Claimable, Finished, Waiting;
      forall m | 0 <= m < |list| && m != n
        ensures m < n ==> Finished(after[list[m]], slots[m])
        ensures m > n ==> Waiting(before[list[m]], after[list[m]])
      {
        HasSlot(before[list[m]], was[list[m]], slots[m]);
        UntouchedKeeps(was, after, list[n], world, list[m], slots[m]);
        SlotStays(before[list[m]], was[list[m]], after[list[m]], slots[m]);
      }
      SlotIsFinished(after[list[n]], slots[n]);
      WaitingMeans(before[list[n]], was[list[n]]);
      if Quiet(world) {
        VisitedTicket(before[list[n]], world.clock(3 * n));
      }
    }

    lemma SweptAll(start: State, list: seq<nat>, slots: seq<nat>, calls: seq<nat>, now: int, world: World,
                   report: Report, trace: seq<Event>)
      requires SweptSoFar(start, list, slots, calls, now, world, report, trace) && |calls| == |list|
      ensures |slots| == |list| == report.Touched() && Listable(start.tickets, list)
      ensures trace == SweepTrace(world, now, list, slots, calls)
      ensures report == ReportOf(start, world, now, list, slots, calls)
      ensures Quiet(world) ==> Counted(report, start.tickets, list, world)
    {
      assert list[..|calls|] == list;
    }

    lemma SweepEnds(before: seq<Ticket>, after: seq<Ticket>, list: seq<nat>, slots: seq<nat>, world: World)
      requires Sweeping(before, after, list, slots, |list|, world)
      ensures |after| >= |before| && forall m :: 0 <= m < |list| == |slots| ==> list[m] < |before| && Finished(after[list[m]], slots[m])
      ensures Quiet(world) ==> forall m :: 0 <= m < |list| ==> SweptIfFree(before[list[m]], after[list[m]], world.clock(3 * m))
    {
    }

    /// The visit that listed the ticket has not gone on yet.
    static ghost predicate Waiting(t: Ticket, u: Ticket) {
      t.stored.Some? && |t.processes| < |u.processes| && u.processes[|t.processes|] == Listed(t.stored.value.debited)
    }

    /// If nobody held the ticket, the sweep has dealt with it.
    static ghost predicate SweptIfFree(t: Ticket, u: Ticket, now: int) {
      Claimable(t, now) ==> Swept(t, u, t.stored.value.debited)
    }

    static ghost predicate StillListed(t: Ticket, u: Ticket, slot: nat) {
      slot < |t.processes| && slot < |u.processes| && u.processes[slot] == t.processes[slot]
    }

    lemma WaitingMeans(t: Ticket, u: Ticket)
      requires Waiting(t, u)
      ensures t.stored.Some? && |t.processes| < |u.processes| && u.processes[|t.processes|] == Listed(t.stored.value.debited)
    {
    }

    lemma SlotIsFinished(u: Ticket, slot: nat)
      requires slot < |u.processes| && u.processes[slot].SweepGone?
      ensures Finished(u, slot)
    {
    }

    lemma HasSlot(t: Ticket, u: Ticket, slot: nat)
      requires Finished(u, slot) || (Waiting(t, u) && slot == |t.processes|)
      ensures slot < |u.processes|
    {
    }

    lemma SlotStays(t: Ticket, u: Ticket, v: Ticket, slot: nat)
      requires StillListed(u, v, slot)
      ensures Finished(u, slot) ==> Finished(v, slot)
      ensures Waiting(t, u) && slot == |t.processes| ==> Waiting(t, v)
    {
    }

    lemma UntouchedKeeps(before: seq<Ticket>, after: seq<Ticket>, i: nat, world: World, p: nat, q: nat)
      requires Untouched(before, after, i, world) && Spares(world, p, q) && p != i
      requires p < |before| && q < |before[p].processes|
      ensures p < |after| && StillListed(before[p], after[p], q)
    {
    }

    lemma ListingMeans(list: seq<nat>, slots: seq<nat>, before: seq<Ticket>, after: seq<Ticket>, shard: nat -> bool, now: int)
      requires Listing(list, slots, before, after, |after|, shard, now)
      ensures |after| == |before| && |slots| == |list| && Listable(before, list)
      ensures forall n :: 0 <= n < |list| ==>
                && list[n] < |before| && shard(list[n]) && before[list[n]].stored.Some?
                && !before[list[n]].stored.value.closed && before[list[n]].expiresAt < now
                && slots[n] == |before[list[n]].processes| && after[list[n]] == Visited(before[list[n]])
                && Waiting(before[list[n]], after[list[n]])
      ensures forall m, n :: 0 <= m < n < |list| ==> list[m] != list[n]
    {
    }

    lemma NothingSwept(start: State, world: World, now: int, list: seq<nat>, slots: seq<nat>)
      requires |list| == |slots| && Listable(start.tickets, list)
      ensures SweepTrace(world, now, list, slots, []) == Visits(list, now)
      ensures ReportOf(start, world, now, list, slots, []) == Report(0, 0, 0, 0)
    {
    }

    lemma OneMoreSwept(start: State, world: World, now: int, list: seq<nat>, slots: seq<nat>, calls: seq<nat>, count: nat)
      requires |calls| < |list| == |slots| && Listable(start.tickets, list)
      ensures var n := |calls|;
              var trace := SweepTrace(world, now, list, slots, calls);
              var found := RunFrom(start, trace + world.others(3 * n));
              && SweepTrace(world, now, list, slots, calls + [count]) == ProcessTrace(trace, world, list[n], slots[n], 3 * n, count)
              && (list[n] < |found.tickets| ==>
                    ReportOf(start, world, now, list, slots, calls + [count]) ==
                    ReportOf(start, world, now, list, slots, calls)
                      .With(start.tickets[list[n]].stored.value.debited, found.tickets[list[n]], world, 3 * n))
    {
      assert (calls + [count])[..|calls|] == calls;
    }

    static ghost predicate Finished(u: Ticket, slot: nat) {
      slot < |u.processes| && u.processes[slot].SweepGone?
    }

    lemma VisitedTicket(t: Ticket, now: int)
      requires t.stored.Some?
      ensures Claimable(Visited(t), now) <==> Claimable(t, now)
      ensures forall u :: Swept(Visited(t), u, t.stored.value.debited) ==> SweptIfFree(t, u, now)
      ensures forall u :: !Claimable(t, now) ==> SweptIfFree(t, u, now)
    {
    }
  }
}
