/**
 When a reconciled ticket costs exactly what was reported. Both sides, the client's
 reconciliation and the sweep, settle under the same ledger key and treat the answer
 "already applied" as success. That is right when the entry found there is of their own
 kind. When it is of the other side's, the sweep files a charged ticket as refunded, or a
 client is told that a refunded ticket has been charged; module QuotaSafety says exactly when
 that does harm.
 */
module QuotaExactness {
  import opened Wrappers
  import opened Quota
  import opened QuotaAccounting

  /// The call answers "already applied" about an entry that the other side made.
  predicate Ignores(t: Ticket, j: nat, fault: Fault) {
    && j < |t.processes| && fault.Fine?
    && match t.processes[j]
       case Holding(_, _) => t.final.BySweep? || t.final.ByRollback?
       case Refunding => t.final.ByClient? || t.final.ByRollback?
       case _ => false
  }

  /// A client learns the id of its ticket from the answer that grants it.
  ghost predicate Proper(s: State, e: Event, i: nat) {
    && (e.BeginReconcile? && e.i == i && i < |s.tickets| ==> s.tickets[i].pc.Granted?)
    && (e.Continue? && e.i == i && i < |s.tickets| ==> !Ignores(s.tickets[i], e.j, e.fault))
  }

  /// Nobody reports before the grant and no call ignores the other side's entry.
  ghost predicate ProperRun(events: seq<Event>, i: nat) {
    forall n :: 0 <= n < |events| ==> Proper(Run(events[..n]), events[n], i)
  }

  /// The amounts that clients have reported for ticket i.
  function Reported(events: seq<Event>, i: nat): set<int> {
    set n | 0 <= n < |events| && events[n].BeginReconcile? && events[n].i == i :: events[n].actual
  }

  // ---------------------------------------------------------------------------
  // The invariant of a ticket in a proper run
  // ---------------------------------------------------------------------------

  ghost predicate ExactProcess(p: Process, t: Ticket, reported: set<int>) {
    match p
    case Asking(actual) => t.pc.Granted? && actual in reported
    case Holding(actual, saw) => t.pc.Granted? && saw && actual in reported
    case Closing(actual) => t.final.ByClient? && actual in reported
    case Charging(actual) => t.final.BySweep? && actual in reported
    case Answered(actual) => actual in reported && (t.final.ByClient? || (t.final.BySweep? && (actual > 0 ==> t.late.Some?)))
    case SweepClosing(reason) => reason == Expired ==> t.final.BySweep?
    case _ => true
  }

  ghost predicate ExactRow(t: Ticket, reported: set<int>) {
    && (t.stored.Some? && t.stored.value.closed && t.stored.value.reason == Settled ==> t.final.ByClient?)
    && (t.stored.Some? && t.stored.value.closed && t.stored.value.reason == Expired ==> t.final.BySweep?)
    && (t.late.Some? ==> t.final.BySweep? && t.late.value in reported)
    && (t.final.ByClient? ==> t.pc.Granted? && t.final.saw && t.final.actual in reported)
  }

  ghost predicate Exact(t: Ticket, reported: set<int>) {
    && TicketOk(t) && ExactRow(t, reported)
    && forall j :: 0 <= j < |t.processes| ==> ExactProcess(t.processes[j], t, reported)
  }

  lemma {:induction false} ReserveStepPreserves(t: Ticket, c: Option<Counter>, fault: Fault, limit: int, seed: int)
    requires TicketOk(t)
    ensures var t' := ReserveStep(t, c, fault, limit, seed).0;
            && t'.processes == t.processes && t'.late == t.late && (!t.final.Free? ==> t'.final == t.final)
            && (t'.final == t.final || t'.final.ByRollback?) && (t.pc.Granted? ==> t' == t)
            && (t'.stored == t.stored
                || (t'.stored.Some? && t'.stored.value.reason == Rejected)
                || (t'.stored.Some? && t.stored.None? && !t'.stored.value.closed)
                || (t'.stored.Some? && t.stored.Some? && t'.stored.value == t.stored.value.(debited := true)))
  {
    match t.pc
    case _ =>
  }

  lemma {:induction false} ReserveStepStaysExact(t: Ticket, c: Option<Counter>, fault: Fault, limit: int, seed: int, reported: set<int>)
    requires Exact(t, reported)
    ensures Exact(ReserveStep(t, c, fault, limit, seed).0, reported)
  {
    var t' := ReserveStep(t, c, fault, limit, seed).0;
    ReserveStepKeeps(t, c, fault, limit, seed);
    ReserveStepPreserves(t, c, fault, limit, seed);
    forall j | 0 <= j < |t'.processes| ensures ExactProcess(t'.processes[j], t', reported) {
      assert ExactProcess(t.processes[j], t, reported);
    }
  }

  lemma {:induction false} ProcessStepStaysExact(t: Ticket, c: Option<Counter>, j: nat, fault: Fault, now: int, reported: set<int>)
    requires Exact(t, reported) && j < |t.processes| && !Ignores(t, j, fault)
    ensures Exact(ProcessStep(t, c, j, fault, now).0, reported)
  {
    var t' := ProcessStep(t, c, j, fault, now).0;
    ProcessStepKeeps(t, c, j, fault, now);
    assert ProcessOk(t.processes[j], t);
    assert ExactProcess(t.processes[j], t, reported);
    OthersStayExact(t, c, j, fault, now, reported);
    OwnerStaysExact(t, c, j, fault, now, reported);
  }

  /// What no process can take back: a consumed key, and the other processes' progress.
  ghost predicate Preserves(t: Ticket, t': Ticket, j: nat) {
    && t'.pc == t.pc
    && (!t.final.Free? ==> t'.final == t.final) && (t.late.Some? ==> t'.late == t.late)
    && |t'.processes| == |t.processes|
    && forall m :: 0 <= m < |t.processes| && m != j ==> t'.processes[m] == t.processes[m]
  }

  lemma {:induction false} SettlePreserves(t: Ticket, c: Option<Counter>, j: nat, fault: Fault, now: int)
    requires j < |t.processes|
    requires t.processes[j].Holding? || t.processes[j].Refunding? || t.processes[j].Charging?
    ensures Preserves(t, ProcessStep(t, c, j, fault, now).0, j)
  {
  }

  lemma {:induction false} ClaimPreserves(t: Ticket, c: Option<Counter>, j: nat, fault: Fault, now: int)
    requires j < |t.processes| && (t.processes[j].Asking? || t.processes[j].Listed?)
    ensures Preserves(t, ProcessStep(t, c, j, fault, now).0, j)
  {
  }

  lemma {:induction false} ProcessStepPreserves(t: Ticket, c: Option<Counter>, j: nat, fault: Fault, now: int)
    requires j < |t.processes|
    ensures Preserves(t, ProcessStep(t, c, j, fault, now).0, j)
  {
    if t.processes[j].Holding? || t.processes[j].Refunding? || t.processes[j].Charging? {
      SettlePreserves(t, c, j, fault, now);
    } else if t.processes[j].Asking? || t.processes[j].Listed? {
      ClaimPreserves(t, c, j, fault, now);
    }
  }

  lemma {:induction false} OthersStayExact(t: Ticket, c: Option<Counter>, j: nat, fault: Fault, now: int, reported: set<int>)
    requires Exact(t, reported) && j < |t.processes|
    ensures var t' := ProcessStep(t, c, j, fault, now).0;
            |t'.processes| == |t.processes|
            && forall m :: 0 <= m < |t'.processes| && m != j ==> ExactProcess(t'.processes[m], t', reported)
  {
    var t' := ProcessStep(t, c, j, fault, now).0;
    ProcessStepPreserves(t, c, j, fault, now);
    forall m | 0 <= m < |t'.processes| && m != j ensures ExactProcess(t'.processes[m], t', reported) {
      assert ExactProcess(t.processes[m], t, reported);
      ExactProcessIsStable(t.processes[m], t, t', reported);
    }
  }

  lemma {:induction false} ExactProcessIsStable(p: Process, t: Ticket, t': Ticket, reported: set<int>)
    requires ExactProcess(p, t, reported)
    requires t'.pc == t.pc && (!t.final.Free? ==> t'.final == t.final) && (t.late.Some? ==> t'.late == t.late)
    ensures ExactProcess(p, t', reported)
  {
  }

  lemma {:induction false} ClaimStaysExact(t: Ticket, c: Option<Counter>, j: nat, fault: Fault, now: int, reported: set<int>)
    requires Exact(t, reported) && j < |t.processes| && !Ignores(t, j, fault)
    requires t.processes[j].Asking? || t.processes[j].Listed?
    ensures var t' := ProcessStep(t, c, j, fault, now).0;
            |t'.processes| == |t.processes| && ExactProcess(t'.processes[j], t', reported) && ExactRow(t', reported)
  {
    assert ProcessOk(t.processes[j], t);
    assert ExactProcess(t.processes[j], t, reported);
  }

  lemma {:induction false} CloseStaysExact(t: Ticket, c: Option<Counter>, j: nat, fault: Fault, now: int, reported: set<int>)
    requires Exact(t, reported) && j < |t.processes| && !Ignores(t, j, fault)
    requires t.processes[j].Closing? || t.processes[j].SweepClosing?
    ensures var t' := ProcessStep(t, c, j, fault, now).0;
            |t'.processes| == |t.processes| && ExactProcess(t'.processes[j], t', reported) && ExactRow(t', reported)
  {
    assert ProcessOk(t.processes[j], t);
    assert ExactProcess(t.processes[j], t, reported);
  }

  lemma {:induction false} SettleStaysExact(t: Ticket, c: Option<Counter>, j: nat, fault: Fault, now: int, reported: set<int>)
    requires Exact(t, reported) && j < |t.processes| && !Ignores(t, j, fault)
    requires t.processes[j].Holding? || t.processes[j].Refunding? || t.processes[j].Charging?
    ensures var t' := ProcessStep(t, c, j, fault, now).0;
            |t'.processes| == |t.processes| && ExactProcess(t'.processes[j], t', reported) && ExactRow(t', reported)
  {
    assert ProcessOk(t.processes[j], t);
    assert ExactProcess(t.processes[j], t, reported);
  }

  lemma {:induction false} OwnerStaysExact(t: Ticket, c: Option<Counter>, j: nat, fault: Fault, now: int, reported: set<int>)
    requires Exact(t, reported) && j < |t.processes| && !Ignores(t, j, fault)
    ensures var t' := ProcessStep(t, c, j, fault, now).0;
            |t'.processes| == |t.processes| && ExactProcess(t'.processes[j], t', reported) && ExactRow(t', reported)
  {
    assert ExactProcess(t.processes[j], t, reported);
    match t.processes[j]
    case Asking(_) => ClaimStaysExact(t, c, j, fault, now, reported);
    case Listed(_) => ClaimStaysExact(t, c, j, fault, now, reported);
    case Closing(_) => CloseStaysExact(t, c, j, fault, now, reported);
    case SweepClosing(_) => CloseStaysExact(t, c, j, fault, now, reported);
    case Holding(_, _) => SettleStaysExact(t, c, j, fault, now, reported);
    case Refunding => SettleStaysExact(t, c, j, fault, now, reported);
    case Charging(_) => SettleStaysExact(t, c, j, fault, now, reported);
    case Answered(_) =>
    case Failed(_) =>
    case SweepGone =>
  }

  lemma {:induction false} MoreReports(t: Ticket, reported: set<int>, more: set<int>)
    requires Exact(t, reported) && reported <= more
    ensures Exact(t, more)
  {
    forall j | 0 <= j < |t.processes| ensures ExactProcess(t.processes[j], t, more) {
      assert ExactProcess(t.processes[j], t, reported);
    }
  }

  lemma {:induction false} NewProcessStaysExact(t: Ticket, p: Process, reported: set<int>)
    requires Exact(t, reported) && ProcessOk(p, t) && ExactProcess(p, t, reported)
    ensures Exact(t.(processes := t.processes + [p]), reported)
  {
    AppendedProcessKeeps(t, p);
    var t' := t.(processes := t.processes + [p]);
    forall j | 0 <= j < |t'.processes| ensures ExactProcess(t'.processes[j], t', reported) {
      if j < |t.processes| {
        assert ExactProcess(t.processes[j], t, reported);
      }
    }
  }

  lemma {:induction false} EventStaysExact(s: State, e: Event, i: nat, reported: set<int>)
    requires SystemOk(s, false) && Proper(s, e, i)
    requires i < |s.tickets| ==> Exact(s.tickets[i], reported)
    requires e.BeginReconcile? && e.i == i ==> e.actual in reported
    ensures var s' := Apply(s, e); i < |s'.tickets| ==> Exact(s'.tickets[i], reported)
  {
    if i < |s.tickets| {
      var t := s.tickets[i];
      match e
      case Reserve(m, fault, limit, seed) =>
        if m == i {
          ReserveStepStaysExact(t, CounterOf(s, t.key), fault, limit, seed, reported);
        }
      case BeginReconcile(m, actual) =>
        if m == i && actual >= 0 {
          NewProcessStaysExact(t, Asking(actual), reported);
        }
      case BeginSweep(m, now) =>
        if m == i && Apply(s, e) != s {
          NewProcessStaysExact(t, Listed(t.stored.value.debited), reported);
        }
      case Continue(m, j, fault, now) =>
        if m == i && j < |t.processes| {
          ProcessStepStaysExact(t, CounterOf(s, t.key), j, fault, now, reported);
        }
      case BeginReserve(_, _, _) =>
    }
  }

  lemma {:induction false} RunStaysExact(events: seq<Event>, i: nat)
    requires ProperRun(events, i)
    ensures var s := Run(events); i < |s.tickets| ==> Exact(s.tickets[i], Reported(events, i))
  {
    if events != [] {
      var before, e := events[..|events| - 1], events[|events| - 1];
      assert forall n :: 0 <= n < |before| ==> before[..n] == events[..n];
      forall n | 0 <= n < |before| ensures Proper(Run(before[..n]), before[n], i) {
        assert Proper(Run(events[..n]), events[n], i);
      }
      RunStaysExact(before, i);
      RunKeeps(before, false);
      if i < |Run(before).tickets| {
        MoreReports(Run(before).tickets[i], Reported(before, i), Reported(events, i));
      }
      EventStaysExact(Run(before), e, i, Reported(events, i));
    }
  }

  // ---------------------------------------------------------------------------
  // Main results
  // ---------------------------------------------------------------------------

  ghost predicate Acknowledged(t: Ticket) {
    exists j :: 0 <= j < |t.processes| && t.processes[j].Answered?
  }

  /// Exactly once: if no call ignores the other side's entry, a ticket with at least one
  /// acknowledged reconciliation has cost exactly one of the reported amounts, whatever
  /// was retried, lost, taken over or expired before.
  lemma {:induction false} AcknowledgedIsChargedExactlyOnce(events: seq<Event>, i: nat)
    requires ProperRun(events, i)
    requires i < |Run(events).tickets| && Acknowledged(Run(events).tickets[i])
    ensures Net(Run(events).tickets[i]) in Reported(events, i)
  {
    RunStaysExact(events, i);
    AcknowledgedCost(Run(events).tickets[i], Reported(events, i));
  }

  lemma {:induction false} AcknowledgedCost(t: Ticket, reported: set<int>)
    requires Exact(t, reported) && Acknowledged(t)
    ensures Net(t) in reported
  {
    var j :| 0 <= j < |t.processes| && t.processes[j].Answered?;
    assert ExactProcess(t.processes[j], t, reported);
  }

  // ---------------------------------------------------------------------------
  // Leases and one-step sweeps
  // ---------------------------------------------------------------------------

  /// The row shows a lease that has not run out.
  predicate LeaseLive(t: Ticket, now: int) {
    t.stored.Some? && !t.stored.value.closed && t.stored.value.leaseUntil > now
  }

  /// Process j of ticket i makes its next call, and the call applies.
  predicate Acts(s: State, e: Event, i: nat) {
    e.Continue? && e.i == i && i < |s.tickets| && e.j < |s.tickets[i].processes| && !e.fault.NotApplied?
  }

  /// What the protocol leaves to luck, about event n of a run. A client that settles still has
  /// a lease in the row. A sweep that refunds is the first to settle, gets its answer, and
  /// closes the ticket before anything else happens: the two calls are one step.
  ghost predicate Disciplined(events: seq<Event>, n: nat, i: nat)
    requires n < |events|
  {
    var s, e := Run(events[..n]), events[n];
    && (e.BeginReconcile? && e.i == i && i < |s.tickets| ==> s.tickets[i].pc.Granted?)
    && (Acts(s, e, i) && s.tickets[i].processes[e.j].Holding? ==> LeaseLive(s.tickets[i], e.now))
    && (Acts(s, e, i) && s.tickets[i].processes[e.j].Refunding? ==>
          && s.tickets[i].final.Free? && e.fault.Fine?
          && (n + 1 < |events| ==> Closes(events[n + 1], i, e.j)))
  }

  predicate Closes(e: Event, i: nat, j: nat) {
    e.Continue? && e.i == i && e.j == j && !e.fault.NotApplied?
  }

  ghost predicate DisciplinedRun(events: seq<Event>, i: nat) {
    forall n :: 0 <= n < |events| ==> Disciplined(events, n, i)
  }

  predicate Closed(t: Ticket) {
    t.stored.Some? ==> t.stored.value.closed
  }

  /// A ticket that a sweep has refunded is closed, or the sweep's close is the very next event.
  ghost predicate Filed(events: seq<Event>, n: nat, i: nat)
    requires n <= |events|
  {
    var s := Run(events[..n]);
    i < |s.tickets| && s.tickets[i].final.BySweep? ==>
      || Closed(s.tickets[i])
      || (exists j :: 0 <= j < |s.tickets[i].processes| && s.tickets[i].processes[j].SweepClosing?
                      && (n < |events| ==> Closes(events[n], i, j)))
  }

  lemma {:induction false} RequestKeepsFiling(t: Ticket, c: Option<Counter>, fault: Fault, limit: int, seed: int)
    requires TicketOk(t)
    ensures var t' := ReserveStep(t, c, fault, limit, seed).0;
            (t'.final.BySweep? ==> t.final.BySweep?) && (t.final.BySweep? && Closed(t) ==> Closed(t'))
  {
  }

  lemma {:induction false} ClaimKeepsFiling(t: Ticket, c: Option<Counter>, j: nat, fault: Fault, now: int)
    requires j < |t.processes| && (t.processes[j].Asking? || t.processes[j].Listed?)
    ensures var t' := ProcessStep(t, c, j, fault, now).0;
            t'.final == t.final && (Closed(t) ==> Closed(t'))
  {
  }

  /// A process files a refund as its own only by refunding, and a closed row stays closed.
  lemma {:induction false} ProcessKeepsFiling(t: Ticket, c: Option<Counter>, j: nat, fault: Fault, now: int)
    requires j < |t.processes|
    ensures var t' := ProcessStep(t, c, j, fault, now).0;
            && (Closed(t) ==> Closed(t'))
            && (t'.final.BySweep? && !t.final.BySweep? ==> t.processes[j].Refunding? && !fault.NotApplied?)
            && (t.processes[j].SweepClosing? && !fault.NotApplied? ==> Closed(t'))
            && (t.processes[j].Refunding? && fault.Fine? ==> |t'.processes| == |t.processes| && t'.processes[j].SweepClosing?)
  {
    if t.processes[j].Asking? || t.processes[j].Listed? {
      ClaimKeepsFiling(t, c, j, fault, now);
    }
  }

  lemma {:induction false} FilingGoesOn(events: seq<Event>, n: nat, i: nat)
    requires n < |events| && Disciplined(events, n, i) && Filed(events, n, i)
    ensures Filed(events, n + 1, i)
  {
    hide ReserveStep, ProcessStep, Closed;
    var s, e := Run(events[..n]), events[n];
    RunKeeps(events[..n], false);
    Appended(events[..n], e);
    assert events[..n + 1] == events[..n] + [e];
    var s' := Apply(s, e);
    if i < |s.tickets| {
      var t := s.tickets[i];
      assert TicketOk(t);
      match e
      case Reserve(m, fault, limit, seed) =>
        if m == i {
          RequestKeepsFiling(t, CounterOf(s, t.key), fault, limit, seed);
        }
      case Continue(m, j, fault, now) =>
        if m == i && j < |t.processes| {
          ProcessKeepsFiling(t, CounterOf(s, t.key), j, fault, now);
          assert s'.tickets[i] == ProcessStep(t, CounterOf(s, t.key), j, fault, now).0;
        }
      case BeginReconcile(m, actual) =>
        RowStays(s, e, i);
      case BeginSweep(m, now) =>
        RowStays(s, e, i);
      case BeginReserve(_, _, _) =>
    }
  }

  lemma RowStays(s: State, e: Event, i: nat)
    requires i < |s.tickets| && (e.BeginReconcile? || e.BeginSweep?)
    ensures var s' := Apply(s, e); i < |s'.tickets| && s'.tickets[i].stored == s.tickets[i].stored && s'.tickets[i].final == s.tickets[i].final
    ensures Closed(s.tickets[i]) ==> Closed(Apply(s, e).tickets[i])
  {
  }

  lemma {:induction false} AlwaysFiled(events: seq<Event>, n: nat, i: nat)
    requires n <= |events| && DisciplinedRun(events, i)
    ensures Filed(events, n, i)
  {
    hide Disciplined;
    if n == 0 {
      assert Run(events[..0]).tickets == [];
    } else {
      AlwaysFiled(events, n - 1, i);
      FilingGoesOn(events, n - 1, i);
    }
  }

  lemma {:induction false} ProperSoFar(events: seq<Event>, n: nat, i: nat)
    requires n <= |events| && DisciplinedRun(events, i)
    ensures ProperRun(events[..n], i)
  {
    hide Disciplined, Proper, Run, Filed, Exact, Reported;
    if n > 0 {
      ProperSoFar(events, n - 1, i);
      RunStaysExact(events[..n - 1], i);
      AlwaysFiled(events, n - 1, i);
      DisciplinedStepIsProper(events, n - 1, i, Reported(events[..n - 1], i));
      forall m | 0 <= m < n ensures Proper(Run(events[..n][..m]), events[..n][m], i) {
        assert events[..n][..m] == events[..m];
        if m < n - 1 {
          assert events[..n - 1][..m] == events[..m];
          assert Proper(Run(events[..n - 1][..m]), events[..n - 1][m], i);
        }
      }
    }
  }

  lemma {:induction false} DisciplinedStepIsProper(events: seq<Event>, n: nat, i: nat, reported: set<int>)
    requires n < |events| && Disciplined(events, n, i) && Filed(events, n, i)
    requires var s := Run(events[..n]); i < |s.tickets| ==> Exact(s.tickets[i], reported)
    ensures Proper(Run(events[..n]), events[n], i)
  {
    var s, e := Run(events[..n]), events[n];
    if e.Continue? && e.i == i && i < |s.tickets| && e.j < |s.tickets[i].processes| {
      assert ExactProcess(s.tickets[i].processes[e.j], s.tickets[i], reported);
    }
  }

  /// Live leases and one-step sweeps keep either side from meeting the other's entry: the
  /// refund closes the row before anybody else can act, and a closed row has no lease.
  lemma DisciplinedIsProper(events: seq<Event>, i: nat)
    requires DisciplinedRun(events, i)
    ensures ProperRun(events, i)
  {
    ProperSoFar(events, |events|, i);
    assert events[..|events|] == events;
  }

  /// With live leases and one-step sweeps, every acknowledged ticket costs exactly one of
  /// the reported amounts.
  lemma LeasesAndOneStepSweepsSuffice(events: seq<Event>, i: nat)
    requires DisciplinedRun(events, i)
    requires i < |Run(events).tickets| && Acknowledged(Run(events).tickets[i])
    ensures Net(Run(events).tickets[i]) in Reported(events, i)
  {
    DisciplinedIsProper(events, i);
    AcknowledgedIsChargedExactlyOnce(events, i);
  }

  /// The state after more events.
  function RunFrom(s: State, events: seq<Event>): State
    decreases |events|
  {
    if events == [] then s else RunFrom(Apply(s, events[0]), events[1..])
  }

  lemma {:induction false} RunContinues(events: seq<Event>, more: seq<Event>)
    ensures Run(events + more) == RunFrom(Run(events), more)
    decreases |more|
  {
    if more == [] {
      assert events + more == events;
    } else {
      Appended(events, more[0]);
      assert events + more == events + [more[0]] + more[1..];
      RunContinues(events + [more[0]], more[1..]);
    }
  }

  /// The condition is needed, client's side: from any state in which a client holds a
  /// granted ticket that the sweep has refunded, the ignored answer leads to an
  /// acknowledged reconciliation that has cost nothing.
  lemma {:induction false} IgnoredRefundLosesTheCharge(s: State, i: nat, j: nat)
    requires SystemOk(s, false) && i < |s.tickets|
    requires var t := s.tickets[i];
             && t.pc.Granted? && j < |t.processes| && t.processes[j].Holding? && t.processes[j].actual > 0
             && t.final.BySweep? && t.late.None?
    ensures var settle := Continue(i, j, Fine, 0);
            var s' := RunFrom(s, [settle, settle]);
            && Ignores(s.tickets[i], j, Fine)
            && |s'.tickets| == |s.tickets| && Acknowledged(s'.tickets[i])
            && Net(s'.tickets[i]) == 0 < s.tickets[i].processes[j].actual
  {
    var settle := Continue(i, j, Fine, 0);
    var s1 := Apply(s, settle);
    var s2 := Apply(s1, settle);
    assert [settle, settle][1..] == [settle];
    assert RunFrom(s1, [settle]) == RunFrom(s2, []);
    assert s1.tickets[i].processes[j].Closing?;
    assert s2.tickets[i].processes[j].Answered?;
  }

  /// The condition is needed, sweep's side: from any state in which the sweep is about to
  /// refund a granted ticket that a client has already settled, the ignored answer files
  /// it as expired, and the client's next retry of the same report is charged again.
  lemma {:induction false} IgnoredSettlementChargesTwice(s: State, i: nat, j: nat)
    requires SystemOk(s, false) && i < |s.tickets|
    requires var t := s.tickets[i];
             && t.pc.Granted? && j < |t.processes| && t.processes[j].Refunding?
             && t.final.ByClient? && t.final.saw && t.final.actual > 0 && t.late.None?
    ensures var t := s.tickets[i];
            var sweep, retry := Continue(i, j, Fine, 0), Continue(i, |t.processes|, Fine, 0);
            var s' := RunFrom(s, [sweep, sweep, BeginReconcile(i, t.final.actual), retry, retry]);
            && Ignores(t, j, Fine)
            && |s'.tickets| == |s.tickets| && Acknowledged(s'.tickets[i])
            && Net(s'.tickets[i]) == 2 * t.final.actual
  {
    var t := s.tickets[i];
    var a, n := t.final.actual, |t.processes|;
    var sweep, retry := Continue(i, j, Fine, 0), Continue(i, n, Fine, 0);
    var s1 := Apply(s, sweep);
    assert s1.tickets[i] == SetProcess(t, j, SweepClosing(Expired));
    var s2 := Apply(s1, sweep);
    assert s2.tickets[i].stored == Some(Stored(true, true, Expired, 0));
    var s3 := Apply(s2, BeginReconcile(i, a));
    assert s3.tickets[i].processes[n] == Asking(a);
    var s4 := Apply(s3, retry);
    assert s4.tickets[i].processes[n] == Charging(a);
    var s5 := Apply(s4, retry);
    assert s5.tickets[i].processes[n] == Answered(a);
    assert s5.tickets[i].late == Some(a) && s5.tickets[i].final == t.final && s5.tickets[i].debit;
    UnrollFive(s, sweep, sweep, BeginReconcile(i, a), retry, retry);
  }

  lemma {:induction false} UnrollFive(s: State, a: Event, b: Event, c: Event, d: Event, e: Event)
    ensures RunFrom(s, [a, b, c, d, e]) == Apply(Apply(Apply(Apply(Apply(s, a), b), c), d), e)
  {
    assert [a, b, c, d, e][1..] == [b, c, d, e];
    assert [b, c, d, e][1..] == [c, d, e];
    assert [c, d, e][1..] == [d, e];
    assert [d, e][1..] == [e];
    assert [e][1..] == [];
    var s1, s2 := Apply(s, a), Apply(Apply(s, a), b);
    var s3 := Apply(s2, c);
    assert RunFrom(s, [a, b, c, d, e]) == RunFrom(s1, [b, c, d, e]);
    assert RunFrom(s1, [b, c, d, e]) == RunFrom(s2, [c, d, e]);
    assert RunFrom(s2, [c, d, e]) == RunFrom(s3, [d, e]);
    assert RunFrom(s3, [d, e]) == RunFrom(Apply(s3, d), [e]);
  }

  // ---------------------------------------------------------------------------
  // Both failures happen
  // ---------------------------------------------------------------------------

  /// A ticket is opened, debited, marked and granted.
  function GrantedRun(k: Key, estimated: int): seq<Event> {
    var call := Reserve(0, Fine, 1, 0);
    [BeginReserve(k, estimated, 0), call, call, call]
  }

  function GrantedTicket(k: Key, estimated: int): Ticket {
    Ticket(k, estimated, 0, Granted, Some(Stored(true, false, Settled, 0)), true, Free, None, [])
  }

  lemma {:induction false} GrantedRunState(k: Key, estimated: int)
    requires estimated > 0
    ensures Run(GrantedRun(k, estimated)) == State(map[k := Counter(estimated, 0)], [GrantedTicket(k, estimated)])
  {
    var call := Reserve(0, Fine, 1, 0);
    var e1 := [BeginReserve(k, estimated, 0)];
    var t0 := Ticket(k, estimated, 0, NotOpened, None, false, Free, None, []);
    assert Run(e1) == State(map[], [t0]) by { assert Run(e1[..0]) == EMPTY; }
    Appended(e1, call);
    Appended(e1 + [call], call);
    Appended(e1 + [call] + [call], call);
    assert GrantedRun(k, estimated) == e1 + [call] + [call] + [call];
  }

  lemma {:induction false} SoleTicketContinues(s: State, t: Ticket, j: nat, now: int, u: Ticket)
    requires s.tickets == [t] && j < |t.processes|
    requires u == ProcessStep(t, None, j, Fine, now).0
    ensures Apply(s, Continue(0, j, Fine, now)).tickets == [u]
  {
    match t.processes[j]
    case _ =>
  }

  lemma {:induction false} SoleTicketArrives(s: State, t: Ticket, e: Event, u: Ticket)
    requires s.tickets == [t]
    requires || (e.BeginReconcile? && e.i == 0 && e.actual >= 0
                 && u == t.(processes := t.processes + [Asking(e.actual)]))
             || (e.BeginSweep? && e.i == 0 && t.stored.Some? && !t.stored.value.closed && t.expiresAt < e.now
                 && u == t.(processes := t.processes + [Listed(t.stored.value.debited)]))
    ensures Apply(s, e).tickets == [u]
  {
  }

  /// A granted ticket that a client has settled, with a sweep about to refund it.
  function SettledThenSwept(estimated: int, actual: nat, k: Key): Ticket {
    GrantedTicket(k, estimated).(
      stored := Some(Stored(true, false, Settled, 2 * LEASE + 1)), final := ByClient(actual, true),
      processes := [Closing(actual), Refunding])
  }

  lemma {:induction false} SettledThenSweptIsReached(k: Key, estimated: int, actual: nat, s: State)
    requires s.tickets == [GrantedTicket(k, estimated)]
    ensures var client, sweep := Continue(0, 0, Fine, 0), Continue(0, 1, Fine, LEASE + 1);
            RunFrom(s, [BeginReconcile(0, actual), client, client, BeginSweep(0, LEASE + 1), sweep]).tickets
            == [SettledThenSwept(estimated, actual, k)]
  {
    var client, sweep := Continue(0, 0, Fine, 0), Continue(0, 1, Fine, LEASE + 1);
    var begin, visit := BeginReconcile(0, actual), BeginSweep(0, LEASE + 1);
    UnrollFive(s, begin, client, client, visit, sweep);
    var t0 := GrantedTicket(k, estimated);
    var t1 := t0.(processes := [Asking(actual)]);
    var t2 := t0.(stored := Some(Stored(true, false, Settled, LEASE)), processes := [Holding(actual, true)]);
    var t3 := t2.(final := ByClient(actual, true), processes := [Closing(actual)]);
    var t4 := t3.(processes := [Closing(actual), Listed(true)]);
    var s1 := Apply(s, begin);
    assert t0.processes + [Asking(actual)] == t1.processes;
    SoleTicketArrives(s, t0, begin, t1);
    assert t2 == ProcessStep(t1, None, 0, Fine, 0).0;
    SoleTicketContinues(s1, t1, 0, 0, t2);
    var s2 := Apply(s1, client);
    assert t3 == ProcessStep(t2, None, 0, Fine, 0).0;
    SoleTicketContinues(s2, t2, 0, 0, t3);
    var s3 := Apply(s2, client);
    assert t3.processes + [Listed(true)] == t4.processes;
    SoleTicketArrives(s3, t3, visit, t4);
    assert SettledThenSwept(estimated, actual, k) == ProcessStep(t4, None, 1, Fine, LEASE + 1).0;
    SoleTicketContinues(Apply(s3, visit), t4, 1, LEASE + 1, SettledThenSwept(estimated, actual, k));
  }

  /// A client reconciles, its process dies before closing the ticket, the sweep visits the
  /// ticket, and the client retries the same report.
  function DoubleChargeRun(k: Key, estimated: int, actual: nat): seq<Event> {
    var client, sweep := Continue(0, 0, Fine, 0), Continue(0, 1, Fine, LEASE + 1);
    var refund, retry := Continue(0, 1, Fine, 0), Continue(0, 2, Fine, 0);
    GrantedRun(k, estimated)
    + [BeginReconcile(0, actual), client, client, BeginSweep(0, LEASE + 1), sweep]
    + [refund, refund, BeginReconcile(0, actual), retry, retry]
  }

  /// Every report says `actual`; the cost is twice that.
  lemma {:induction false} DoubleChargeHappens(k: Key, estimated: int, actual: nat)
    requires estimated > 0 && actual > 0
    ensures var events := DoubleChargeRun(k, estimated, actual);
            var s := Run(events);
            && Reported(events, 0) == {actual}
            && |s.tickets| == 1 && Acknowledged(s.tickets[0]) && Net(s.tickets[0]) == 2 * actual
  {
    OneAmountReported(DoubleChargeRun(k, estimated, actual), actual, 4);
    DoubleChargeCost(k, estimated, actual);
  }

  lemma {:induction false} OneAmountReported(events: seq<Event>, actual: nat, m: nat)
    requires m < |events| && events[m] == BeginReconcile(0, actual)
    requires forall n :: 0 <= n < |events| && events[n].BeginReconcile? ==> events[n].actual == actual
    ensures Reported(events, 0) == {actual}
  {
    assert events[m].actual in Reported(events, 0);
  }

  lemma {:induction false} DoubleChargeCost(k: Key, estimated: int, actual: nat)
    requires estimated > 0 && actual > 0
    ensures var s := Run(DoubleChargeRun(k, estimated, actual));
            |s.tickets| == 1 && Acknowledged(s.tickets[0]) && Net(s.tickets[0]) == 2 * actual
  {
    var client, sweep := Continue(0, 0, Fine, 0), Continue(0, 1, Fine, LEASE + 1);
    var more := [BeginReconcile(0, actual), client, client, BeginSweep(0, LEASE + 1), sweep];
    var refund, retry := Continue(0, 1, Fine, 0), Continue(0, 2, Fine, 0);
    var start := GrantedRun(k, estimated);
    GrantedRunState(k, estimated);
    SettledThenSweptIsReached(k, estimated, actual, Run(start));
    RunContinues(start, more);
    RunKeeps(start + more, false);
    IgnoredSettlementChargesTwice(Run(start + more), 0, 1);
    RunContinues(start + more, [refund, refund, BeginReconcile(0, actual), retry, retry]);
  }

  /// A granted ticket that the sweep has refunded, and that a client then claimed.
  function SweptThenClaimed(estimated: int, actual: nat, k: Key): Ticket {
    GrantedTicket(k, estimated).(
      stored := Some(Stored(true, false, Settled, 2 * LEASE + 1)), final := BySweep,
      processes := [SweepClosing(Expired), Holding(actual, true)])
  }

  lemma {:induction false} SweptThenClaimedIsReached(k: Key, estimated: int, actual: nat, s: State)
    requires s.tickets == [GrantedTicket(k, estimated)]
    ensures var sweep, client := Continue(0, 0, Fine, 1), Continue(0, 1, Fine, LEASE + 1);
            RunFrom(s, [BeginSweep(0, 1), sweep, sweep, BeginReconcile(0, actual), client]).tickets
            == [SweptThenClaimed(estimated, actual, k)]
  {
    var sweep, client := Continue(0, 0, Fine, 1), Continue(0, 1, Fine, LEASE + 1);
    var visit, begin := BeginSweep(0, 1), BeginReconcile(0, actual);
    UnrollFive(s, visit, sweep, sweep, begin, client);
    var t0 := GrantedTicket(k, estimated);
    var t1 := t0.(processes := [Listed(true)]);
    var t2 := t0.(stored := Some(Stored(true, false, Settled, LEASE + 1)), processes := [Refunding]);
    var t3 := t2.(final := BySweep, processes := [SweepClosing(Expired)]);
    var t4 := t3.(processes := [SweepClosing(Expired), Asking(actual)]);
    var s1 := Apply(s, visit);
    assert t0.processes + [Listed(true)] == t1.processes;
    SoleTicketArrives(s, t0, visit, t1);
    assert t2 == ProcessStep(t1, None, 0, Fine, 1).0;
    SoleTicketContinues(s1, t1, 0, 1, t2);
    var s2 := Apply(s1, sweep);
    assert t3 == ProcessStep(t2, None, 0, Fine, 1).0;
    SoleTicketContinues(s2, t2, 0, 1, t3);
    var s3 := Apply(s2, sweep);
    assert t3.processes + [Asking(actual)] == t4.processes;
    SoleTicketArrives(s3, t3, begin, t4);
    assert SweptThenClaimed(estimated, actual, k) == ProcessStep(t4, None, 1, Fine, LEASE + 1).0;
    SoleTicketContinues(Apply(s3, begin), t4, 1, LEASE + 1, SweptThenClaimed(estimated, actual, k));
  }

  /// The sweep refunds a ticket and dies before closing it, then its client reconciles.
  function LostChargeRun(k: Key, estimated: int, actual: nat): seq<Event> {
    var sweep, client := Continue(0, 0, Fine, 1), Continue(0, 1, Fine, LEASE + 1);
    var settle := Continue(0, 1, Fine, 0);
    GrantedRun(k, estimated)
    + [BeginSweep(0, 1), sweep, sweep, BeginReconcile(0, actual), client]
    + [settle, settle]
  }

  /// The client is acknowledged and the cost is nothing.
  lemma {:induction false} LostChargeHappens(k: Key, estimated: int, actual: nat)
    requires estimated > 0 && actual > 0
    ensures var events := LostChargeRun(k, estimated, actual);
            var s := Run(events);
            && Reported(events, 0) == {actual}
            && |s.tickets| == 1 && Acknowledged(s.tickets[0]) && Net(s.tickets[0]) == 0
  {
    OneAmountReported(LostChargeRun(k, estimated, actual), actual, 7);
    LostChargeCost(k, estimated, actual);
  }

  lemma {:induction false} LostChargeCost(k: Key, estimated: int, actual: nat)
    requires estimated > 0 && actual > 0
    ensures var s := Run(LostChargeRun(k, estimated, actual));
            |s.tickets| == 1 && Acknowledged(s.tickets[0]) && Net(s.tickets[0]) == 0
  {
    var sweep, client := Continue(0, 0, Fine, 1), Continue(0, 1, Fine, LEASE + 1);
    var more := [BeginSweep(0, 1), sweep, sweep, BeginReconcile(0, actual), client];
    var settle := Continue(0, 1, Fine, 0);
    var start := GrantedRun(k, estimated);
    GrantedRunState(k, estimated);
    SweptThenClaimedIsReached(k, estimated, actual, Run(start));
    RunContinues(start, more);
    RunKeeps(start + more, false);
    IgnoredRefundLosesTheCharge(Run(start + more), 0, 1);
    RunContinues(start + more, [settle, settle]);
  }
}
