/**
 What every run of the reservation protocol keeps: each counter is its starting value
 plus the net effect of its tickets, whatever crashes, retries and lost replies happen.
 */
module QuotaAccounting {
  import opened Wrappers
  import opened Quota

  // ---------------------------------------------------------------------------
  // What one ticket has done to its counter
  // ---------------------------------------------------------------------------

  function Net(t: Ticket): int {
    (if t.debit then t.estimated else 0) + Delta(t.final, t.estimated)
    + (if t.late.Some? then t.late.value else 0)
  }

  function Sum(ts: seq<Ticket>, k: Key): int {
    if ts == [] then 0
    else Sum(ts[..|ts| - 1], k) + (if ts[|ts| - 1].key == k then Net(ts[|ts| - 1]) else 0)
  }

  /// Estimates that are in the counter and that no settlement has touched yet.
  function Pending(ts: seq<Ticket>, k: Key): int {
    if ts == [] then 0
    else
      var t := ts[|ts| - 1];
      Pending(ts[..|ts| - 1], k) + (if t.key == k && t.debit && t.final.Free? then t.estimated else 0)
  }

  // ---------------------------------------------------------------------------
  // The invariant of one ticket
  // ---------------------------------------------------------------------------

  ghost predicate ProcessOk(p: Process, t: Ticket) {
    match p
    case Holding(_, saw) => saw ==> t.debit
    case Closing(_) => !t.final.Free?
    case Charging(actual) => !t.final.Free? && actual > 0
    case Answered(_) => !t.final.Free?
    case Listed(saw) => saw ==> t.debit
    case Refunding => t.debit
    case SweepClosing(reason) => reason == Abandoned || (reason == Expired && !t.final.Free?)
    case _ => true
  }

  ghost predicate RowOk(t: Ticket) {
    && t.estimated > 0
    && (t.pc.NotOpened? ==> t.stored.None?)
    && (t.pc.NotOpened? || t.pc.Opened? || t.pc.Refused? ==> !t.debit)
    && (t.pc.Debited? || t.pc.Unmarked? || t.pc.Undone? || t.pc.Granted? ==> t.debit)
    && (!t.pc.NotOpened? && !t.pc.Gone? ==> t.stored.Some?)
    && (t.stored.Some? && t.stored.value.debited ==> t.debit)
    && (t.pc.Granted? ==> t.stored.value.debited)
    && (t.stored.Some? && t.stored.value.closed && t.stored.value.reason in {Settled, Expired} ==> !t.final.Free?)
    && (t.final.BySweep? || t.final.ByRollback? ==> t.debit)
    && (t.final.ByRollback? ==> t.pc.Undone? || t.pc.Gone?)
    && (t.final.ByClient? && t.final.saw ==> t.debit)
    && (t.late.Some? ==> !t.final.Free?)
  }

  ghost predicate TicketOk(t: Ticket) {
    RowOk(t) && forall j :: 0 <= j < |t.processes| ==> ProcessOk(t.processes[j], t)
  }

  /// No ticket ever takes more out of its counter than it put in.
  lemma {:induction false} NetIsNotNegative(t: Ticket)
    requires TicketOk(t)
    ensures Net(t) >= (if t.debit && t.final.Free? then t.estimated else 0) >= 0
  {
  }

  /// What a step may do to a counter: nothing, or a debit, or an entry of known size.
  ghost predicate Moves(t: Ticket, c: Option<Counter>, t': Ticket, c': Option<Counter>) {
    || (c' == c && Net(t') == Net(t))
    || (c'.Some? && c' == Adjust(c, Net(t') - Net(t)))
    || (c.Some? && c' == Some(Counter(c.value.value + Net(t') - Net(t), c.value.base)))
    || (c.None? && c'.Some? && c'.value.value == c'.value.base + Net(t') - Net(t))
  }

  /// Processes keep what they know: a debit is never taken back, a key never freed.
  lemma {:induction false} ProcessesStayOk(t: Ticket, u: Ticket)
    requires TicketOk(t) && t.processes == u.processes
    requires (t.debit ==> u.debit) && (!t.final.Free? ==> !u.final.Free?)
    ensures forall j :: 0 <= j < |u.processes| ==> ProcessOk(u.processes[j], u)
  {
    forall j | 0 <= j < |u.processes| ensures ProcessOk(u.processes[j], u) {
      assert ProcessOk(t.processes[j], t);
    }
  }

  lemma {:induction false} LedgerStepKeeps(t: Ticket, c: Option<Counter>, fault: Fault, limit: int, seed: int)
    requires TicketOk(t) && (t.pc.Opened? || t.pc.Unmarked?)
    ensures var (t', c') := ReserveStep(t, c, fault, limit, seed);
            RowOk(t') && t'.key == t.key && Moves(t, c, t', c')
  {
  }

  lemma {:induction false} StoreStepKeeps(t: Ticket, c: Option<Counter>, fault: Fault, limit: int, seed: int)
    requires TicketOk(t) && !t.pc.Opened? && !t.pc.Unmarked?
    ensures var (t', c') := ReserveStep(t, c, fault, limit, seed);
            RowOk(t') && t'.key == t.key && Net(t') == Net(t) && c' == c
  {
  }

  lemma {:induction false} ReserveStepKeeps(t: Ticket, c: Option<Counter>, fault: Fault, limit: int, seed: int)
    requires TicketOk(t)
    ensures var (t', c') := ReserveStep(t, c, fault, limit, seed);
            TicketOk(t') && t'.key == t.key && Moves(t, c, t', c')
  {
    if t.pc.Opened? || t.pc.Unmarked? {
      LedgerStepKeeps(t, c, fault, limit, seed);
    } else {
      StoreStepKeeps(t, c, fault, limit, seed);
    }
    ProcessesStayOk(t, ReserveStep(t, c, fault, limit, seed).0);
  }

  lemma {:induction false} SetProcessKeeps(t: Ticket, u: Ticket, j: nat, p: Process)
    requires TicketOk(t) && RowOk(u) && t.processes == u.processes && j < |u.processes|
    requires (t.debit ==> u.debit) && (!t.final.Free? ==> !u.final.Free?)
    requires ProcessOk(p, u)
    ensures TicketOk(SetProcess(u, j, p)) && Net(SetProcess(u, j, p)) == Net(u)
  {
    ProcessesStayOk(t, u);
    var v := SetProcess(u, j, p);
    forall m | 0 <= m < |v.processes| ensures ProcessOk(v.processes[m], v) {
      assert m != j ==> ProcessOk(u.processes[m], u);
    }
  }

  lemma {:induction false} ClaimKeeps(t: Ticket, c: Option<Counter>, j: nat, fault: Fault, now: int)
    requires TicketOk(t) && j < |t.processes| && (t.processes[j].Asking? || t.processes[j].Listed?)
    ensures var (t', c') := ProcessStep(t, c, j, fault, now);
            TicketOk(t') && t'.key == t.key && Moves(t, c, t', c')
  {
    assert ProcessOk(t.processes[j], t);
    var (t', c') := ProcessStep(t, c, j, fault, now);
    SetProcessKeeps(t, Claim(t, fault, now), j, t'.processes[j]);
  }

  lemma {:induction false} CloseKeeps(t: Ticket, c: Option<Counter>, j: nat, fault: Fault, now: int)
    requires TicketOk(t) && j < |t.processes| && (t.processes[j].Closing? || t.processes[j].SweepClosing?)
    ensures var (t', c') := ProcessStep(t, c, j, fault, now);
            TicketOk(t') && t'.key == t.key && Moves(t, c, t', c')
  {
    assert ProcessOk(t.processes[j], t);
    var (t', c') := ProcessStep(t, c, j, fault, now);
    var reason := if t.processes[j].Closing? then Settled else t.processes[j].reason;
    SetProcessKeeps(t, Close(t, fault, reason), j, t'.processes[j]);
  }

  lemma {:induction false} SettleKeeps(t: Ticket, c: Option<Counter>, j: nat, fault: Fault, now: int)
    requires TicketOk(t) && j < |t.processes|
    requires t.processes[j].Holding? || t.processes[j].Refunding? || t.processes[j].Charging?
    ensures var (t', c') := ProcessStep(t, c, j, fault, now);
            TicketOk(t') && t'.key == t.key && Moves(t, c, t', c')
  {
    assert ProcessOk(t.processes[j], t);
    var (t', c') := ProcessStep(t, c, j, fault, now);
    var u :=
      if fault.NotApplied? then t
      else match t.processes[j]
           case Holding(actual, saw) => SettleFinal(t, c, ByClient(actual, saw)).0
           case Refunding => SettleFinal(t, c, BySweep).0
           case Charging(actual) => SettleLate(t, c, actual).0
           case _ => t;
    SetProcessKeeps(t, u, j, t'.processes[j]);
  }

  lemma {:induction false} ProcessStepKeeps(t: Ticket, c: Option<Counter>, j: nat, fault: Fault, now: int)
    requires TicketOk(t) && j < |t.processes|
    ensures var (t', c') := ProcessStep(t, c, j, fault, now);
            TicketOk(t') && t'.key == t.key && Moves(t, c, t', c')
  {
    match t.processes[j]
    case Asking(_) => ClaimKeeps(t, c, j, fault, now);
    case Listed(_) => ClaimKeeps(t, c, j, fault, now);
    case Closing(_) => CloseKeeps(t, c, j, fault, now);
    case SweepClosing(_) => CloseKeeps(t, c, j, fault, now);
    case Holding(_, _) => SettleKeeps(t, c, j, fault, now);
    case Refunding => SettleKeeps(t, c, j, fault, now);
    case Charging(_) => SettleKeeps(t, c, j, fault, now);
    case _ =>
  }

  // ---------------------------------------------------------------------------
  // The invariant of the whole system
  // ---------------------------------------------------------------------------

  ghost predicate AllTicketsOk(ts: seq<Ticket>) {
    forall i :: 0 <= i < |ts| ==> TicketOk(ts[i])
  }

  lemma {:induction false} SumOfUpdate(ts: seq<Ticket>, i: nat, t: Ticket, k: Key)
    requires i < |ts| && t.key == ts[i].key
    ensures Sum(ts[i := t], k) == Sum(ts, k) + (if t.key == k then Net(t) - Net(ts[i]) else 0)
  {
    var us := ts[i := t];
    if i < |ts| - 1 {
      assert us[..|us| - 1] == ts[..|ts| - 1][i := t];
      SumOfUpdate(ts[..|ts| - 1], i, t, k);
    } else {
      assert us[..|us| - 1] == ts[..|ts| - 1];
    }
  }

  lemma {:induction false} SumIsAtLeastPending(ts: seq<Ticket>, k: Key)
    requires AllTicketsOk(ts)
    ensures Sum(ts, k) >= Pending(ts, k) >= 0
  {
    if ts != [] {
      NetIsNotNegative(ts[|ts| - 1]);
      SumIsAtLeastPending(ts[..|ts| - 1], k);
    }
  }

  /// The books of one counter. `exact` says that the truncation at zero never mattered.
  ghost predicate Balanced(s: State, k: Key, exact: bool) {
    if k in s.counters then
      var c := s.counters[k];
      && c.value >= c.base + Sum(s.tickets, k)
      && (exact ==> c.base >= 0 && c.value == c.base + Sum(s.tickets, k))
    else Sum(s.tickets, k) == 0
  }

  ghost predicate SystemOk(s: State, exact: bool) {
    AllTicketsOk(s.tickets) && forall k :: Balanced(s, k, exact)
  }

  /// Every seed a debit is called with is a usage, so it is not negative.
  ghost predicate SeedsAreUsages(events: seq<Event>) {
    forall i :: 0 <= i < |events| && events[i].Reserve? ==> events[i].seed >= 0
  }

  lemma {:induction false} PutKeeps(s: State, i: nat, t: Ticket, c: Option<Counter>, exact: bool)
    requires SystemOk(s, exact) && i < |s.tickets|
    requires t.key == s.tickets[i].key && TicketOk(t)
    requires Moves(s.tickets[i], CounterOf(s, t.key), t, c)
    requires exact && c.Some? && CounterOf(s, t.key).None? ==> c.value.base >= 0
    ensures SystemOk(Put(s, i, t, c), exact)
  {
    var s' := Put(s, i, t, c);
    forall k ensures Balanced(s', k, exact) {
      assert Balanced(s, k, exact);
      SumOfUpdate(s.tickets, i, t, k);
      SumIsAtLeastPending(s.tickets, k);
      SumIsAtLeastPending(s'.tickets, k);
    }
  }

  lemma {:induction false} PutTicketKeeps(s: State, i: nat, t: Ticket, exact: bool)
    requires SystemOk(s, exact) && i < |s.tickets|
    requires t.key == s.tickets[i].key && TicketOk(t) && Net(t) == Net(s.tickets[i])
    ensures SystemOk(Put(s, i, t, None), exact)
  {
    var c := CounterOf(s, t.key);
    PutKeeps(s, i, t, c, exact);
    if c.Some? {
      assert s.counters[t.key := c.value] == s.counters;
    }
  }

  lemma {:induction false} CallKeeps(s: State, e: Event, exact: bool)
    requires SystemOk(s, exact) && (e.Reserve? || e.Continue?)
    requires exact && e.Reserve? ==> e.seed >= 0
    ensures SystemOk(Apply(s, e), exact)
  {
    if e.i < |s.tickets| {
      var t := s.tickets[e.i];
      var c := CounterOf(s, t.key);
      if e.Reserve? {
        ReserveStepKeeps(t, c, e.fault, e.limit, e.seed);
        var (t', c') := ReserveStep(t, c, e.fault, e.limit, e.seed);
        PutKeeps(s, e.i, t', c', exact);
      } else if e.j < |t.processes| {
        ProcessStepKeeps(t, c, e.j, e.fault, e.now);
        var (t', c') := ProcessStep(t, c, e.j, e.fault, e.now);
        PutKeeps(s, e.i, t', c', exact);
      }
    }
  }

  lemma {:induction false} ApplyKeeps(s: State, e: Event, exact: bool)
    requires SystemOk(s, exact)
    requires exact && e.Reserve? ==> e.seed >= 0
    ensures SystemOk(Apply(s, e), exact)
  {
    match e
    case Reserve(_, _, _, _) => CallKeeps(s, e, exact);
    case Continue(_, _, _, _) => CallKeeps(s, e, exact);
    case BeginReserve(key, estimated, expiresAt) =>
      if estimated > 0 {
        var s' := Apply(s, e);
        assert s'.tickets[..|s'.tickets| - 1] == s.tickets;
        forall k ensures Balanced(s', k, exact) {
          assert Balanced(s, k, exact);
        }
      }
    case BeginReconcile(i, actual) =>
      if i < |s.tickets| && actual >= 0 {
        var t := s.tickets[i];
        AppendedProcessKeeps(t, Asking(actual));
        PutTicketKeeps(s, i, t.(processes := t.processes + [Asking(actual)]), exact);
      }
    case BeginSweep(i, now) =>
      if i < |s.tickets| && Apply(s, e) != s {
        var t := s.tickets[i];
        AppendedProcessKeeps(t, Listed(t.stored.value.debited));
        PutTicketKeeps(s, i, t.(processes := t.processes + [Listed(t.stored.value.debited)]), exact);
      }
  }

  lemma {:induction false} AppendedProcessKeeps(t: Ticket, p: Process)
    requires TicketOk(t) && ProcessOk(p, t)
    ensures var t' := t.(processes := t.processes + [p]); TicketOk(t') && Net(t') == Net(t)
  {
    var t' := t.(processes := t.processes + [p]);
    forall m | 0 <= m < |t'.processes| ensures ProcessOk(t'.processes[m], t') {
      if m < |t.processes| {
        assert ProcessOk(t.processes[m], t);
      }
    }
  }

  lemma {:induction false} RunKeeps(events: seq<Event>, exact: bool)
    requires exact ==> SeedsAreUsages(events)
    ensures SystemOk(Run(events), exact)
  {
    if events != [] {
      RunKeeps(events[..|events| - 1], exact);
      ApplyKeeps(Run(events[..|events| - 1]), events[|events| - 1], exact);
    }
  }

  // ---------------------------------------------------------------------------
  // Main results
  // ---------------------------------------------------------------------------

  /// In every run, whatever is retried, lost or abandoned: refunds never exceed debits. A
  /// counter is at least its starting value plus every debit still waiting for settlement.
  lemma {:induction false} RefundsNeverExceedDebits(events: seq<Event>, k: Key)
    ensures var s := Run(events);
            if k in s.counters
            then s.counters[k].value >= s.counters[k].base + Pending(s.tickets, k)
            else Pending(s.tickets, k) == 0
  {
    RunKeeps(events, false);
    assert Balanced(Run(events), k, false);
    SumIsAtLeastPending(Run(events).tickets, k);
  }

  /// Conservation: if no seed is negative, the truncation at zero never takes effect and
  /// a counter is exactly its starting value plus the net effect of its own tickets.
  lemma {:induction false} BooksBalance(events: seq<Event>, k: Key)
    requires SeedsAreUsages(events)
    ensures var s := Run(events);
            if k in s.counters
            then s.counters[k].value == s.counters[k].base + Sum(s.tickets, k)
            else Sum(s.tickets, k) == 0
  {
    RunKeeps(events, true);
    assert Balanced(Run(events), k, true);
  }

  /// The condition on seeds cannot be dropped: with any negative seed there is a run of
  /// one ticket, rolled back, whose counter is truncated and no longer balances.
  lemma {:induction false} NegativeSeedUnbalances(k: Key, seed: int) returns (events: seq<Event>)
    requires seed < 0
    ensures var s := Run(events);
            k in s.counters && s.counters[k].value != s.counters[k].base + Sum(s.tickets, k)
  {
    var t0 := Ticket(k, 1, 0, NotOpened, None, false, Free, None, []);
    var open := Reserve(0, Fine, 1, seed);
    var unmarked := Reserve(0, NotApplied, 1, seed);
    var e1 := [BeginReserve(k, 1, 0)];
    var e2, e3 := e1 + [open], e1 + [open] + [open];
    var e4, e5 := e3 + [unmarked], e3 + [unmarked] + [open];
    Appended(e1, open);
    Appended(e2, open);
    Appended(e3, unmarked);
    Appended(e4, open);
    assert Run(e1) == State(map[], [t0]) by { assert Run(e1[..0]) == EMPTY; }
    assert Run(e3).counters[k] == Counter(seed + 1, seed);
    assert Run(e5).counters[k].value == 0 && Net(Run(e5).tickets[0]) == 0;
    return e5;
  }

  lemma {:induction false} Appended(events: seq<Event>, e: Event)
    ensures Run(events + [e]) == Apply(Run(events), e)
  {
    assert (events + [e])[..|events|] == events;
  }
}
