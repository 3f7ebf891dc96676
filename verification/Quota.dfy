/**
 Token quota reservations as a state machine: what the ticket store and the usage
 counters hold, and what one store call of one process does to them.

 A run is a sequence of events. Every event is one store call (or the arrival of one
 request), made by the reserve request that owns a ticket, by one of any number of
 reconcile requests, or by one of any number of sweep visits. Events interleave in any
 order; a process that crashes is one that is given no further event. Each call may
 apply and answer, fail without applying, or apply and lose its answer. Clocks are not
 shared: the time a call reads is part of the event.
 */
module Quota {
  import opened Wrappers

  /// A counter is named by its tenant and its quota.
  datatype Key = Key(tenant: string, quota: string)

  datatype CloseReason = Settled | Expired | Abandoned | Rejected

  /// The mutable part of a stored reservation.
  datatype Stored = Stored(debited: bool, closed: bool, reason: CloseReason, leaseUntil: int)

  /// Which entry consumed the key `{id}#final` of the ledger.
  datatype Settlement =
    | Free
    | BySweep
    | ByRollback
    | ByClient(actual: nat, saw: bool)  // saw: the claim showed the ticket as debited

  /// How far the reserve request of a ticket has got.
  datatype ReservePc = NotOpened | Opened | Refused | Debited | Unmarked | Undone | Granted | Gone

  /// A reconcile request or a sweep visit, at the store call it makes next.
  datatype Process =
    | Asking(actual: nat)
    | Holding(actual: nat, saw: bool)
    | Closing(actual: nat)
    | Charging(actual: nat)
    | Answered(actual: nat)
    | Failed(actual: nat)
    | Listed(saw: bool)
    | Refunding
    | SweepClosing(reason: CloseReason)
    | SweepGone

  /// One reservation: its request, its row in the store, its two ledger keys and
  /// everybody who is working on it. `debit` tells whether the counter took the estimate.
  datatype Ticket = Ticket(
    key: Key, estimated: int, expiresAt: int,
    pc: ReservePc, stored: Option<Stored>,
    debit: bool, final: Settlement, late: Option<nat>,
    processes: seq<Process>)

  /// A counter, with the value it had before its first entry.
  datatype Counter = Counter(value: int, base: int)

  datatype State = State(counters: map<Key, Counter>, tickets: seq<Ticket>)

  datatype Event =
    | BeginReserve(key: Key, estimated: int, expiresAt: int)
    | Reserve(i: nat, fault: Fault, limit: int, seed: int)
    | BeginReconcile(i: nat, actual: int)
    | BeginSweep(i: nat, now: int)
    | Continue(i: nat, j: nat, fault: Fault, now: int)

  const LEASE: int := 30

  // ---------------------------------------------------------------------------
  // The counter
  // ---------------------------------------------------------------------------

  function Max(a: int, b: int): int { if a < b then b else a }

  function Usage(c: Option<Counter>, default: int): int {
    if c.Some? then c.value.value else default
  }

  /// The conditional debit: it looks at the usage before the debit, not after it.
  function TryDebit(c: Option<Counter>, amount: int, limit: int, seed: int): (bool, Option<Counter>) {
    var current := Usage(c, seed);
    if current >= limit then (false, c)
    else (true, Some(Counter(current + amount, if c.Some? then c.value.base else seed)))
  }

  /// A signed entry, truncated at zero; a missing counter starts from zero.
  function Adjust(c: Option<Counter>, delta: int): Option<Counter> {
    Some(Counter(Max(Usage(c, 0) + delta, 0), if c.Some? then c.value.base else 0))
  }

  function Delta(final: Settlement, estimated: int): int {
    match final
    case Free => 0
    case BySweep => -estimated
    case ByRollback => -estimated
    case ByClient(actual, saw) => if saw then actual - estimated else actual
  }

  /// settle_once under `{id}#final`: the second entry under one key changes nothing.
  function SettleFinal(t: Ticket, c: Option<Counter>, who: Settlement): (Ticket, Option<Counter>) {
    if t.final.Free? then (t.(final := who), Adjust(c, Delta(who, t.estimated))) else (t, c)
  }

  /// settle_once under `{id}#late`.
  function SettleLate(t: Ticket, c: Option<Counter>, actual: nat): (Ticket, Option<Counter>) {
    if t.late.None? then (t.(late := Some(actual)), Adjust(c, actual)) else (t, c)
  }

  // ---------------------------------------------------------------------------
  // The ticket store
  // ---------------------------------------------------------------------------

  function Close(t: Ticket, fault: Fault, reason: CloseReason): Ticket {
    if fault.NotApplied? || t.stored.None? then t
    else t.(stored := Some(t.stored.value.(closed := true, reason := reason, leaseUntil := 0)))
  }

  function MarkDebited(t: Ticket, fault: Fault): Ticket {
    if fault.NotApplied? || t.stored.None? then t
    else t.(stored := Some(t.stored.value.(debited := true)))
  }

  predicate Claimable(t: Ticket, now: int) {
    t.stored.Some? && !t.stored.value.closed && t.stored.value.leaseUntil <= now
  }

  function Claim(t: Ticket, fault: Fault, now: int): Ticket {
    if fault.NotApplied? || !Claimable(t, now) then t
    else t.(stored := Some(t.stored.value.(leaseUntil := now + LEASE)))
  }

  /// A won claim shuts out every other claim for exactly the length of the lease.
  lemma LeaseExcludes(t: Ticket, now: int, later: int)
    requires Claimable(t, now)
    ensures Claimable(Claim(t, Fine, now), later) <==> later >= now + 30
  {
  }

  // ---------------------------------------------------------------------------
  // One store call
  // ---------------------------------------------------------------------------

  /// The next store call of the reserve request.
  function ReserveStep(t: Ticket, c: Option<Counter>, fault: Fault, limit: int, seed: int): (Ticket, Option<Counter>) {
    match t.pc
    case NotOpened =>
      var row := if fault.NotApplied? then None else Some(Stored(false, false, Settled, 0));
      (t.(stored := row, pc := if fault.Fine? then Opened else Gone), c)
    case Opened =>
      if fault.NotApplied? then (t.(pc := Gone), c)
      else
        var (granted, c') := TryDebit(c, t.estimated, limit, seed);
        if granted then (t.(debit := true, pc := if fault.Fine? then Debited else Gone), c')
        else (t.(pc := if fault.Fine? then Refused else Gone), c)
    case Refused => (Close(t, fault, Rejected).(pc := Gone), c)
    case Debited => (MarkDebited(t, fault).(pc := if fault.Fine? then Granted else Unmarked), c)
    case Unmarked =>
      var (t', c') := if fault.NotApplied? then (t, c) else SettleFinal(t, c, ByRollback);
      (t'.(pc := Undone), c')
    case Undone => (Close(t, fault, Rejected).(pc := Gone), c)
    case Granted => (t, c)
    case Gone => (t, c)
  }

  function SetProcess(t: Ticket, j: nat, p: Process): Ticket
    requires j < |t.processes|
  {
    t.(processes := t.processes[j := p])
  }

  /// What a reconcile request does once its claim has been answered.
  function AfterClaim(stored: Option<Stored>, actual: nat, now: int): Process {
    if stored.None? then Failed(actual)
    else if stored.value.closed then
      match stored.value.reason
      case Expired => if actual > 0 then Charging(actual) else Answered(actual)
      case Settled => Answered(actual)
      case Rejected => Failed(actual)
      case Abandoned => Failed(actual)
    else if stored.value.leaseUntil > now then Failed(actual)
    else Holding(actual, stored.value.debited)
  }

  /// The next store call of process j.
  function ProcessStep(t: Ticket, c: Option<Counter>, j: nat, fault: Fault, now: int): (Ticket, Option<Counter>)
    requires j < |t.processes|
  {
    match t.processes[j]
    case Asking(actual) =>
      (SetProcess(Claim(t, fault, now), j, if fault.Fine? then AfterClaim(t.stored, actual, now) else Failed(actual)), c)
    case Holding(actual, saw) =>
      var (t', c') := if fault.NotApplied? then (t, c) else SettleFinal(t, c, ByClient(actual, saw));
      (SetProcess(t', j, if fault.Fine? then Closing(actual) else Failed(actual)), c')
    case Closing(actual) =>
      (SetProcess(Close(t, fault, Settled), j, Answered(actual)), c)
    case Charging(actual) =>
      var (t', c') := if fault.NotApplied? then (t, c) else SettleLate(t, c, actual);
      (SetProcess(t', j, if fault.Fine? then Answered(actual) else Failed(actual)), c')
    case Answered(_) => (t, c)
    case Failed(_) => (t, c)
    case Listed(saw) =>
      var won := fault.Fine? && Claimable(t, now);
      (SetProcess(Claim(t, fault, now), j,
                  if !won then SweepGone else if saw then Refunding else SweepClosing(Abandoned)), c)
    case Refunding =>
      var (t', c') := if fault.NotApplied? then (t, c) else SettleFinal(t, c, BySweep);
      (SetProcess(t', j, if fault.Fine? then SweepClosing(Expired) else SweepGone), c')
    case SweepClosing(reason) =>
      (SetProcess(Close(t, fault, reason), j, SweepGone), c)
    case SweepGone => (t, c)
  }

  function CounterOf(s: State, k: Key): Option<Counter> {
    if k in s.counters then Some(s.counters[k]) else None
  }

  /// Writes back a ticket and the counter it works on.
  function Put(s: State, i: nat, t: Ticket, c: Option<Counter>): State
    requires i < |s.tickets|
  {
    State(if c.Some? then s.counters[t.key := c.value] else s.counters, s.tickets[i := t])
  }

  /// One event. An event that names a ticket or a process nobody has is not an event.
  function Apply(s: State, e: Event): State {
    match e
    case BeginReserve(key, estimated, expiresAt) =>
      if estimated <= 0 then s
      else s.(tickets := s.tickets + [Ticket(key, estimated, expiresAt, NotOpened, None, false, Free, None, [])])
    case Reserve(i, fault, limit, seed) =>
      if i >= |s.tickets| then s
      else
        var (t, c) := ReserveStep(s.tickets[i], CounterOf(s, s.tickets[i].key), fault, limit, seed);
        Put(s, i, t, c)
    case BeginReconcile(i, actual) =>
      if i >= |s.tickets| || actual < 0 then s
      else Put(s, i, s.tickets[i].(processes := s.tickets[i].processes + [Asking(actual)]), None)
    case BeginSweep(i, now) =>
      if i >= |s.tickets| then s
      else
        var t := s.tickets[i];
        if t.stored.None? || t.stored.value.closed || t.expiresAt >= now then s
        else Put(s, i, t.(processes := t.processes + [Listed(t.stored.value.debited)]), None)
    case Continue(i, j, fault, now) =>
      if i >= |s.tickets| || j >= |s.tickets[i].processes| then s
      else
        var (t, c) := ProcessStep(s.tickets[i], CounterOf(s, s.tickets[i].key), j, fault, now);
        Put(s, i, t, c)
  }

  const EMPTY: State := State(map[], [])

  /// The state after a whole run.
  function Run(events: seq<Event>): State {
    if events == [] then EMPTY else Apply(Run(events[..|events| - 1]), events[|events| - 1])
  }
}
