/**
 How far a counter can get past its limit. The documentation promises that a debit is
 granted when the resulting usage stays within the limit; the ledger grants it whenever
 the usage before the debit is below the limit.
 */
module QuotaCeiling {
  import opened Wrappers
  import opened Quota
  import opened QuotaAccounting

  /// What reconciliations have charged above the estimate, or after expiry.
  function Overrun(t: Ticket): nat {
    Max(Delta(t.final, t.estimated), 0) + (if t.late.Some? then t.late.value else 0)
  }

  function Overruns(ts: seq<Ticket>, k: Key): nat {
    if ts == [] then 0
    else Overruns(ts[..|ts| - 1], k) + (if ts[|ts| - 1].key == k then Overrun(ts[|ts| - 1]) else 0)
  }

  lemma {:induction false} OverrunsOfUpdate(ts: seq<Ticket>, i: nat, t: Ticket, k: Key)
    requires i < |ts| && t.key == ts[i].key
    ensures Overruns(ts[i := t], k) == Overruns(ts, k) + (if t.key == k then Overrun(t) - Overrun(ts[i]) else 0)
  {
    var us := ts[i := t];
    if i < |ts| - 1 {
      assert us[..|us| - 1] == ts[..|ts| - 1][i := t];
      OverrunsOfUpdate(ts[..|ts| - 1], i, t, k);
    } else {
      assert us[..|us| - 1] == ts[..|ts| - 1];
    }
  }

  /// Event e is a debit on counter k that the ledger grants.
  predicate Grants(s: State, e: Event, k: Key) {
    && e.Reserve? && e.i < |s.tickets| && s.tickets[e.i].key == k
    && s.tickets[e.i].pc.Opened? && !e.fault.NotApplied?
    && Usage(CounterOf(s, k), e.seed) < e.limit
  }

  /// The counter is within the limit, apart from what reconciliations added to it.
  predicate Within(s: State, k: Key, limit: nat) {
    k in s.counters ==> s.counters[k].value <= limit + Overruns(s.tickets, k)
  }

  /// The debit leaves the counter within the limit: checked before the call.
  predicate Fits(s: State, e: Event, k: Key, limit: nat)
    requires Grants(s, e, k)
  {
    Usage(CounterOf(s, k), e.seed) + s.tickets[e.i].estimated <= limit + Overruns(s.tickets, k)
  }

  lemma {:induction false} ReserveStepOverrun(t: Ticket, c: Option<Counter>, fault: Fault, limit: int, seed: int)
    requires TicketOk(t)
    ensures var (t', c') := ReserveStep(t, c, fault, limit, seed);
            && t'.key == t.key && Overrun(t') == Overrun(t)
            && (t.pc.Opened? && !fault.NotApplied? && Usage(c, seed) < limit ==>
                  c'.Some? && c'.value.value == Usage(c, seed) + t.estimated)
            && (!(t.pc.Opened? && !fault.NotApplied? && Usage(c, seed) < limit) ==>
                  c' == c || c' == Adjust(c, -t.estimated))
  {
    match t.pc
    case _ =>
  }

  lemma {:induction false} ProcessStepOverrun(t: Ticket, c: Option<Counter>, j: nat, fault: Fault, now: int)
    requires TicketOk(t) && j < |t.processes|
    ensures var (t', c') := ProcessStep(t, c, j, fault, now);
            && t'.key == t.key && Overrun(t') >= Overrun(t)
            && (c' == c || exists d :: c' == Adjust(c, d) && d <= Overrun(t') - Overrun(t))
  {
    assert ProcessOk(t.processes[j], t);
    var (t', c') := ProcessStep(t, c, j, fault, now);
    match t.processes[j]
    case Holding(actual, saw) =>
      assert c' == c || c' == Adjust(c, Delta(ByClient(actual, saw), t.estimated));
    case Charging(actual) =>
      assert c' == c || c' == Adjust(c, actual);
    case Refunding =>
      assert c' == c || c' == Adjust(c, -t.estimated);
    case _ =>
      assert c' == c;
  }

  /// One event keeps a counter within its limit unless it is a debit that does not fit.
  lemma {:induction false} StepStaysWithin(s: State, e: Event, k: Key, limit: nat)
    requires SystemOk(s, false) && Within(s, k, limit)
    requires Grants(s, e, k) ==> Fits(s, e, k, limit)
    ensures Within(Apply(s, e), k, limit)
  {
    var s' := Apply(s, e);
    match e
    case BeginReserve(key, estimated, expiresAt) =>
      if estimated > 0 {
        assert s'.tickets[..|s'.tickets| - 1] == s.tickets;
      }
    case Reserve(i, fault, lim, seed) =>
      if i < |s.tickets| {
        var t := s.tickets[i];
        ReserveStepOverrun(t, CounterOf(s, t.key), fault, lim, seed);
        OverrunsOfUpdate(s.tickets, i, s'.tickets[i], k);
      }
    case BeginReconcile(i, actual) =>
      if i < |s.tickets| && actual >= 0 {
        OverrunsOfUpdate(s.tickets, i, s'.tickets[i], k);
      }
    case BeginSweep(i, now) =>
      if i < |s.tickets| && s' != s {
        OverrunsOfUpdate(s.tickets, i, s'.tickets[i], k);
      }
    case Continue(i, j, fault, now) =>
      if i < |s.tickets| && j < |s.tickets[i].processes| {
        var t := s.tickets[i];
        ProcessStepOverrun(t, CounterOf(s, t.key), j, fault, now);
        OverrunsOfUpdate(s.tickets, i, s'.tickets[i], k);
      }
  }

  ghost predicate AlwaysWithin(events: seq<Event>, k: Key, limit: nat) {
    forall n :: 0 <= n <= |events| ==> Within(Run(events[..n]), k, limit)
  }

  ghost predicate EveryGrantFits(events: seq<Event>, k: Key, limit: nat) {
    forall n :: 0 <= n < |events| && Grants(Run(events[..n]), events[n], k) ==>
                  Fits(Run(events[..n]), events[n], k, limit)
  }

  /// The ceiling, exactly: a counter never exceeds the limit by more than reconciliations
  /// charged above estimate or after expiry, if and only if every granted debit fitted in
  /// the room that was left when it was granted.
  lemma {:induction false} CeilingHoldsExactlyWhenGrantsFit(events: seq<Event>, k: Key, limit: nat)
    ensures AlwaysWithin(events, k, limit) <==> EveryGrantFits(events, k, limit)
  {
    if EveryGrantFits(events, k, limit) {
      forall n | 0 <= n <= |events| ensures Within(Run(events[..n]), k, limit) {
        FittingGrantsKeepCeiling(events, k, limit, n);
      }
    }
    if AlwaysWithin(events, k, limit) {
      forall n | 0 <= n < |events| && Grants(Run(events[..n]), events[n], k)
        ensures Fits(Run(events[..n]), events[n], k, limit)
      {
        assert events[..n + 1] == events[..n] + [events[n]];
        assert Within(Run(events[..n + 1]), k, limit);
        GrantWithinLimitFits(events[..n], events[n], k, limit);
      }
    }
  }

  lemma {:induction false} FittingGrantsKeepCeiling(events: seq<Event>, k: Key, limit: nat, n: nat)
    requires EveryGrantFits(events, k, limit) && n <= |events|
    ensures Within(Run(events[..n]), k, limit)
  {
    if n > 0 {
      FittingGrantsKeepCeiling(events, k, limit, n - 1);
      RunKeeps(events[..n - 1], false);
      StepStaysWithin(Run(events[..n - 1]), events[n - 1], k, limit);
      Appended(events[..n - 1], events[n - 1]);
      assert events[..n] == events[..n - 1] + [events[n - 1]];
    }
  }

  lemma {:induction false} GrantWithinLimitFits(events: seq<Event>, e: Event, k: Key, limit: nat)
    requires Grants(Run(events), e, k) && Within(Run(events + [e]), k, limit)
    ensures Fits(Run(events), e, k, limit)
  {
    var s := Run(events);
    Appended(events, e);
    RunKeeps(events, false);
    ReserveStepOverrun(s.tickets[e.i], CounterOf(s, k), e.fault, e.limit, e.seed);
    OverrunsOfUpdate(s.tickets, e.i, Apply(s, e).tickets[e.i], k);
  }

  /// On counter k every debit is asked with this limit, and for at most `largest`.
  ghost predicate Policy(events: seq<Event>, k: Key, limit: int, largest: nat) {
    forall n :: 0 <= n < |events| && Grants(Run(events[..n]), events[n], k) ==>
                  events[n].limit == limit && Run(events[..n]).tickets[events[n].i].estimated <= largest
  }

  /// What the ledger does guarantee, for every run: usage below the limit plus the largest
  /// estimate, minus one, plus overruns.
  lemma {:induction false} CeilingWithSlack(events: seq<Event>, k: Key, limit: nat, largest: nat)
    requires limit > 0 && largest > 0 && Policy(events, k, limit, largest)
    ensures AlwaysWithin(events, k, limit - 1 + largest)
  {
    CeilingHoldsExactlyWhenGrantsFit(events, k, limit - 1 + largest);
  }

  /// One ticket, opened and debited.
  function OneDebit(k: Key, limit: nat, estimated: int): seq<Event> {
    var call := Reserve(0, Fine, limit, limit - 1);
    [BeginReserve(k, estimated, 0), call, call]
  }

  lemma {:induction false} OneDebitStates(k: Key, limit: nat, estimated: int)
    requires limit > 0 && estimated > 0
    ensures var events := OneDebit(k, limit, estimated);
            var t := Ticket(k, estimated, 0, NotOpened, None, false, Free, None, []);
            var row := Some(Stored(false, false, Settled, 0));
            && Run(events[..0]) == EMPTY
            && Run(events[..1]) == State(map[], [t])
            && Run(events[..2]) == State(map[], [t.(stored := row, pc := Opened)])
            && Run(events) == State(map[k := Counter(limit - 1 + estimated, limit - 1)],
                                    [t.(stored := row, pc := Debited, debit := true)])
  {
    var events := OneDebit(k, limit, estimated);
    assert events[..1] == [] + [events[0]];
    assert events[..2] == events[..1] + [events[1]];
    assert events == events[..2] + [events[2]];
    Appended([], events[0]);
    Appended(events[..1], events[1]);
    Appended(events[..2], events[2]);
  }

  /// The slack is real: with any limit and any estimate of two tokens or more, a counter
  /// that starts one below its limit ends at limit - 1 + estimate after a single debit.
  lemma {:induction false} CeilingIsExceeded(k: Key, limit: nat, estimated: int)
    requires limit > 0 && estimated >= 2
    ensures var events := OneDebit(k, limit, estimated);
            && Policy(events, k, limit, estimated) && SeedsAreUsages(events)
            && var s := Run(events);
               && k in s.counters && s.counters[k].value == limit - 1 + estimated
               && Overruns(s.tickets, k) == 0 && !Within(s, k, limit)
  {
    var events := OneDebit(k, limit, estimated);
    OneDebitStates(k, limit, estimated);
    forall n | 0 <= n < |events| && Grants(Run(events[..n]), events[n], k)
      ensures events[n].limit == limit && Run(events[..n]).tickets[events[n].i].estimated <= estimated
    {
      assert n == 2;
    }
  }
}
