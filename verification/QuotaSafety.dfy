/**
 The exact condition for charging once. Taking the other side's entry for one's own does harm
 in two situations and in no other: a client settles a refunded ticket that nobody has charged
 late and for which nobody has reported zero, or a sweep files as expired a ticket that a
 client has settled for more than zero.
 */
module QuotaSafety {
  import opened Wrappers
  import opened Quota
  import opened QuotaAccounting
  import opened QuotaExactness

  /// What can be told before the call: the process is about to be answered "already applied"
  /// about the other side's entry, and the cost of the ticket is then beyond repair.
  predicate Harmful(t: Ticket, j: nat, fault: Fault, reported: set<int>) {
    && Ignores(t, j, fault)
    && match t.processes[j]
       case Holding(_, _) => t.late.None? && 0 !in reported
       case Refunding => t.final.ByClient? && t.final.actual > 0
       case _ => false
  }

  /// A client learns the id of its ticket from the answer that grants it, and no call is harmful.
  ghost predicate Safe(s: State, e: Event, i: nat, reported: set<int>) {
    && (e.BeginReconcile? && e.i == i && i < |s.tickets| ==> s.tickets[i].pc.Granted?)
    && (e.Continue? && e.i == i && i < |s.tickets| ==> !Harmful(s.tickets[i], e.j, e.fault, reported))
  }

  ghost predicate SafeRun(events: seq<Event>, i: nat) {
    forall n :: 0 <= n < |events| ==> Safe(Run(events[..n]), events[n], i, Reported(events[..n], i))
  }

  /// Whatever is acknowledged for ticket i has cost exactly one of the reported amounts.
  ghost predicate ChargedOnce(events: seq<Event>, i: nat) {
    i < |Run(events).tickets| && Acknowledged(Run(events).tickets[i]) ==>
      Net(Run(events).tickets[i]) in Reported(events, i)
  }

  // ---------------------------------------------------------------------------
  // What safe runs keep
  // ---------------------------------------------------------------------------

  ghost predicate Reporting(p: Process, reported: set<int>) {
    match p
    case Asking(actual) => actual in reported
    case Holding(actual, _) => actual in reported
    case Charging(actual) => actual in reported
    case _ => true
  }

  /// The settlement came to nothing, so that the late charge alone makes the cost, and with
  /// none there is a report of zero.
  ghost predicate Evened(t: Ticket, reported: set<int>) {
    && t.debit
    && (t.final.BySweep? || (t.final.ByClient? && t.final.saw && t.final.actual == 0))
    && (if t.late.Some? then t.late.value in reported else 0 in reported)
    && forall j :: 0 <= j < |t.processes| ==> Reporting(t.processes[j], reported)
  }

  /// The request undid its own debit and no client ever knew of the ticket.
  ghost predicate RolledBack(t: Ticket) {
    && (t.pc.Undone? || t.pc.Gone?) && t.final.ByRollback?
    && forall j :: 0 <= j < |t.processes| ==>
                     var p := t.processes[j]; p.Listed? || p.Refunding? || p.SweepClosing? || p.SweepGone? || p.Failed?
  }

  ghost predicate InOrder(t: Ticket, reported: set<int>) {
    Exact(t, reported) || Evened(t, reported) || RolledBack(t)
  }

  /// A reserve request only adds to what is consumed.
  lemma {:induction false} RequestAddsOnly(t: Ticket, c: Option<Counter>, fault: Fault, limit: int, seed: int)
    ensures var t' := ReserveStep(t, c, fault, limit, seed).0;
            && t'.processes == t.processes && t'.late == t.late && (t.debit ==> t'.debit)
            && (!t.final.Free? ==> t'.final == t.final) && (t.pc.Undone? || t.pc.Gone? ==> t'.pc.Gone?)
  {
  }

  lemma {:induction false} RequestStaysEvened(t: Ticket, c: Option<Counter>, fault: Fault, limit: int, seed: int, reported: set<int>)
    ensures var t' := ReserveStep(t, c, fault, limit, seed).0;
            (Evened(t, reported) ==> Evened(t', reported)) && (RolledBack(t) ==> RolledBack(t'))
  {
    hide ReserveStep, Reporting;
    RequestAddsOnly(t, c, fault, limit, seed);
  }

  lemma {:induction false} ClaimIsReported(t: Ticket, c: Option<Counter>, j: nat, fault: Fault, now: int, reported: set<int>)
    requires j < |t.processes| && (t.processes[j].Asking? || t.processes[j].Listed?) && Reporting(t.processes[j], reported)
    ensures var t' := ProcessStep(t, c, j, fault, now).0;
            && t'.debit == t.debit && t'.late == t.late
            && |t'.processes| == |t.processes| && Reporting(t'.processes[j], reported)
  {
    assert Claim(t, fault, now).processes == t.processes;
  }

  lemma {:induction false} EntryIsReported(t: Ticket, c: Option<Counter>, j: nat, fault: Fault, now: int, reported: set<int>)
    requires j < |t.processes| && Reporting(t.processes[j], reported)
    requires t.processes[j].Holding? || t.processes[j].Charging? || t.processes[j].Refunding?
    ensures var t' := ProcessStep(t, c, j, fault, now).0;
            && t'.debit == t.debit
            && (t'.late == t.late || (t'.late.Some? && t'.late.value in reported))
            && |t'.processes| == |t.processes| && Reporting(t'.processes[j], reported)
  {
  }

  /// A process never takes a debit back, and charges late only what it has reported.
  lemma {:induction false} LateChargeIsReported(t: Ticket, c: Option<Counter>, j: nat, fault: Fault, now: int, reported: set<int>)
    requires j < |t.processes| && Reporting(t.processes[j], reported)
    ensures var t' := ProcessStep(t, c, j, fault, now).0;
            && t'.debit == t.debit
            && (t'.late == t.late || (t'.late.Some? && t'.late.value in reported))
            && |t'.processes| == |t.processes| && Reporting(t'.processes[j], reported)
  {
    if t.processes[j].Asking? || t.processes[j].Listed? {
      ClaimIsReported(t, c, j, fault, now, reported);
    } else if t.processes[j].Holding? || t.processes[j].Charging? || t.processes[j].Refunding? {
      EntryIsReported(t, c, j, fault, now, reported);
    }
  }

  lemma {:induction false} ProcessStaysEvened(t: Ticket, c: Option<Counter>, j: nat, fault: Fault, now: int, reported: set<int>)
    requires Evened(t, reported) && j < |t.processes|
    ensures Evened(ProcessStep(t, c, j, fault, now).0, reported)
  {
    hide ProcessStep;
    var t' := ProcessStep(t, c, j, fault, now).0;
    ProcessStepPreserves(t, c, j, fault, now);
    LateChargeIsReported(t, c, j, fault, now, reported);
    forall m | 0 <= m < |t'.processes| ensures Reporting(t'.processes[m], reported) {
      assert m != j ==> Reporting(t.processes[m], reported);
    }
  }

  lemma {:induction false} ProcessStaysRolledBack(t: Ticket, c: Option<Counter>, j: nat, fault: Fault, now: int)
    requires RolledBack(t) && j < |t.processes|
    ensures RolledBack(ProcessStep(t, c, j, fault, now).0)
  {
    ProcessStepPreserves(t, c, j, fault, now);
    SweepStaysSweep(t, c, j, fault, now);
  }

  lemma {:induction false} SweepStaysSweep(t: Ticket, c: Option<Counter>, j: nat, fault: Fault, now: int)
    requires j < |t.processes|
    requires var p := t.processes[j]; p.Listed? || p.Refunding? || p.SweepClosing? || p.SweepGone? || p.Failed?
    ensures var t' := ProcessStep(t, c, j, fault, now).0;
            |t'.processes| == |t.processes|
            && var p := t'.processes[j]; p.Listed? || p.Refunding? || p.SweepClosing? || p.SweepGone? || p.Failed?
  {
    match t.processes[j]
    case Listed(_) =>
    case _ =>
  }

  lemma {:induction false} ExactReports(t: Ticket, reported: set<int>)
    requires Exact(t, reported)
    ensures forall j :: 0 <= j < |t.processes| ==> Reporting(t.processes[j], reported)
  {
    forall j | 0 <= j < |t.processes| ensures Reporting(t.processes[j], reported) {
      assert ExactProcess(t.processes[j], t, reported);
    }
  }

  /// An ignored entry that does no harm leaves the ticket evened, or rolled back.
  lemma {:induction false} HarmlessIgnoring(t: Ticket, c: Option<Counter>, j: nat, fault: Fault, now: int, reported: set<int>)
    requires Exact(t, reported) && j < |t.processes|
    requires Ignores(t, j, fault) && !Harmful(t, j, fault, reported)
    ensures InOrder(ProcessStep(t, c, j, fault, now).0, reported)
  {
    hide ProcessStep;
    assert ProcessOk(t.processes[j], t) && ExactProcess(t.processes[j], t, reported);
    ExactReports(t, reported);
    if t.final.ByRollback? {
      forall m | 0 <= m < |t.processes|
        ensures var p := t.processes[m]; p.Listed? || p.Refunding? || p.SweepClosing? || p.SweepGone? || p.Failed?
      {
        assert ExactProcess(t.processes[m], t, reported);
      }
      ProcessStaysRolledBack(t, c, j, fault, now);
    } else {
      ProcessStaysEvened(t, c, j, fault, now, reported);
    }
  }

  lemma {:induction false} MoreReportsKeepOrder(t: Ticket, reported: set<int>, more: set<int>)
    requires InOrder(t, reported) && reported <= more
    ensures InOrder(t, more)
  {
    if Exact(t, reported) {
      MoreReports(t, reported, more);
    } else if Evened(t, reported) {
      forall j | 0 <= j < |t.processes| ensures Reporting(t.processes[j], more) {
        assert Reporting(t.processes[j], reported);
      }
    }
  }

  lemma {:induction false} CallStaysInOrder(t: Ticket, c: Option<Counter>, j: nat, fault: Fault, now: int, reported: set<int>)
    requires InOrder(t, reported) && j < |t.processes| && !Harmful(t, j, fault, reported)
    ensures InOrder(ProcessStep(t, c, j, fault, now).0, reported)
  {
    hide ProcessStep, Exact, Evened, RolledBack, Harmful, Ignores;
    if RolledBack(t) {
      ProcessStaysRolledBack(t, c, j, fault, now);
    } else if Evened(t, reported) {
      ProcessStaysEvened(t, c, j, fault, now, reported);
    } else if Ignores(t, j, fault) {
      HarmlessIgnoring(t, c, j, fault, now, reported);
    } else {
      ProcessStepStaysExact(t, c, j, fault, now, reported);
    }
  }

  lemma {:induction false} ArrivalStaysInOrder(t: Ticket, p: Process, reported: set<int>)
    requires InOrder(t, reported) && ProcessOk(p, t)
    requires (p.Asking? && t.pc.Granted? && p.actual in reported) || p.Listed?
    ensures InOrder(t.(processes := t.processes + [p]), reported)
  {
    if Exact(t, reported) {
      NewProcessStaysExact(t, p, reported);
    }
  }

  lemma {:induction false} EventStaysInOrder(s: State, e: Event, i: nat, reported: set<int>)
    requires SystemOk(s, false) && Safe(s, e, i, reported)
    requires i < |s.tickets| ==> InOrder(s.tickets[i], reported)
    ensures var s' := Apply(s, e);
            var more := if e.BeginReconcile? && e.i == i then reported + {e.actual} else reported;
            i < |s'.tickets| ==> InOrder(s'.tickets[i], more)
  {
    hide InOrder, ReserveStep, ProcessStep, Harmful;
    if i < |s.tickets| {
      var t := s.tickets[i];
      assert TicketOk(t);
      match e
      case Reserve(m, fault, limit, seed) =>
        if m == i {
          RequestStaysInOrder(t, CounterOf(s, t.key), fault, limit, seed, reported);
        }
      case BeginReconcile(m, actual) =>
        if m == i {
          MoreReportsKeepOrder(t, reported, reported + {actual});
          if actual >= 0 {
            ArrivalStaysInOrder(t, Asking(actual), reported + {actual});
          }
        }
      case BeginSweep(m, now) =>
        if m == i && Apply(s, e) != s {
          ArrivalStaysInOrder(t, Listed(t.stored.value.debited), reported);
        }
      case Continue(m, j, fault, now) =>
        if m == i && j < |t.processes| {
          CallStaysInOrder(t, CounterOf(s, t.key), j, fault, now, reported);
        }
      case BeginReserve(_, _, _) =>
    } else {
      NewTicketIsInOrder(s, e, i, reported);
    }
  }

  lemma {:induction false} NewTicketIsInOrder(s: State, e: Event, i: nat, reported: set<int>)
    requires i >= |s.tickets|
    ensures i < |Apply(s, e).tickets| ==> InOrder(Apply(s, e).tickets[i], reported)
  {
  }

  lemma {:induction false} RequestStaysInOrder(t: Ticket, c: Option<Counter>, fault: Fault, limit: int, seed: int, reported: set<int>)
    requires InOrder(t, reported)
    ensures InOrder(ReserveStep(t, c, fault, limit, seed).0, reported)
  {
    hide ReserveStep, Exact, Evened, RolledBack;
    RequestStaysEvened(t, c, fault, limit, seed, reported);
    if Exact(t, reported) {
      ReserveStepStaysExact(t, c, fault, limit, seed, reported);
    }
  }

  lemma {:induction false} ReportedMore(events: seq<Event>, e: Event, i: nat)
    ensures Reported(events + [e], i) == Reported(events, i) + if e.BeginReconcile? && e.i == i then {e.actual} else {}
  {
    var all := events + [e];
    forall x ensures x in Reported(all, i) <==> x in Reported(events, i) || (e.BeginReconcile? && e.i == i && x == e.actual) {
      if x in Reported(events, i) {
        var n :| 0 <= n < |events| && events[n].BeginReconcile? && events[n].i == i && events[n].actual == x;
        assert all[n] == events[n];
      }
      if e.BeginReconcile? && e.i == i && x == e.actual {
        assert all[|events|] == e;
      }
    }
  }

  lemma {:induction false} RunStaysInOrder(events: seq<Event>, i: nat)
    requires SafeRun(events, i)
    ensures i < |Run(events).tickets| ==> InOrder(Run(events).tickets[i], Reported(events, i))
  {
    hide InOrder, Apply, Reported, Safe;
    if events != [] {
      var before, e := events[..|events| - 1], events[|events| - 1];
      assert forall n :: 0 <= n < |before| ==> before[..n] == events[..n];
      forall n | 0 <= n < |before| ensures Safe(Run(before[..n]), before[n], i, Reported(before[..n], i)) {
        assert Safe(Run(events[..n]), events[n], i, Reported(events[..n], i));
      }
      RunStaysInOrder(before, i);
      RunKeeps(before, false);
      EventStaysInOrder(Run(before), e, i, Reported(before, i));
      ReportedMore(before, e, i);
      assert events == before + [e];
      assert Reported(before, i) + {} == Reported(before, i);
    } else {
      assert Run(events).tickets == [];
    }
  }

  lemma {:induction false} CostInOrder(t: Ticket, reported: set<int>)
    requires InOrder(t, reported) && Acknowledged(t)
    ensures Net(t) in reported
  {
    if Exact(t, reported) {
      AcknowledgedCost(t, reported);
    }
  }

  // ---------------------------------------------------------------------------
  // Main results
  // ---------------------------------------------------------------------------

  /// Exactly once: in every run without a harmful call, a ticket with at least one
  /// acknowledged reconciliation has cost exactly one of the reported amounts.
  lemma {:induction false} SafeRunsChargeOnce(events: seq<Event>, i: nat)
    requires SafeRun(events, i)
    ensures ChargedOnce(events, i)
  {
    RunStaysInOrder(events, i);
    if i < |Run(events).tickets| && Acknowledged(Run(events).tickets[i]) {
      CostInOrder(Run(events).tickets[i], Reported(events, i));
    }
  }

  /// The events that follow are safe, whatever came before.
  ghost predicate SafeFuture(events: seq<Event>, more: seq<Event>, i: nat) {
    forall n :: 0 <= n < |more| ==> Safe(Run(events + more[..n]), more[n], i, Reported(events + more[..n], i))
  }

  lemma {:induction false} SafeRunGoesOn(events: seq<Event>, more: seq<Event>, i: nat)
    requires SafeRun(events, i) && SafeFuture(events, more, i)
    ensures SafeRun(events + more, i)
  {
    hide Safe, Run, Reported;
    var all := events + more;
    forall n | 0 <= n < |all| ensures Safe(Run(all[..n]), all[n], i, Reported(all[..n], i)) {
      if n < |events| {
        assert all[..n] == events[..n];
        assert Safe(Run(events[..n]), events[n], i, Reported(events[..n], i));
      } else {
        assert all[..n] == events + more[..n - |events|];
        assert Safe(Run(events + more[..n - |events|]), more[n - |events|], i, Reported(events + more[..n - |events|], i));
      }
    }
  }

  /// A harmful call is answered like a success, so that the run can go on to an
  /// acknowledgement whose cost nobody reported.
  lemma {:induction false} HarmIsDone(events: seq<Event>, i: nat, j: nat, now: int) returns (more: seq<Event>)
    requires SafeRun(events, i) && i < |Run(events).tickets|
    requires Harmful(Run(events).tickets[i], j, Fine, Reported(events, i))
    ensures var after := events + [Continue(i, j, Fine, now)];
            SafeFuture(after, more, i) && !ChargedOnce(after + more, i)
  {
    RunStaysInOrder(events, i);
    HarmfulIsExact(Run(events).tickets[i], j, Reported(events, i));
    if Run(events).tickets[i].processes[j].Holding? {
      more := LostCharge(events, i, j, now);
    } else {
      more := ForeignCharge(events, i, j, now);
    }
  }

  lemma {:induction false} HarmfulIsExact(t: Ticket, j: nat, reported: set<int>)
    requires InOrder(t, reported) && Harmful(t, j, Fine, reported)
    ensures Exact(t, reported) && t.debit && t.stored.Some?
    ensures t.processes[j].Holding? ==> t.final.BySweep?
    ensures t.processes[j].Refunding? ==> t.late.None? && t.final.saw && t.pc.Granted?
  {
    if Exact(t, reported) {
      assert ExactProcess(t.processes[j], t, reported) && ProcessOk(t.processes[j], t);
    }
  }

  /// The client closes the ticket and is acknowledged for nothing.
  lemma {:induction false} LostCharge(events: seq<Event>, i: nat, j: nat, now: int) returns (more: seq<Event>)
    requires i < |Run(events).tickets| && Harmful(Run(events).tickets[i], j, Fine, Reported(events, i))
    requires var t := Run(events).tickets[i]; t.processes[j].Holding? && t.debit && t.final.BySweep?
    ensures var after := events + [Continue(i, j, Fine, now)];
            SafeFuture(after, more, i) && !ChargedOnce(after + more, i)
  {
    var settle, close := Continue(i, j, Fine, now), Continue(i, j, Fine, 0);
    var after := events + [settle];
    var s0, s1 := Run(events), Apply(Run(events), settle);
    Appended(events, settle);
    Appended(after, close);
    ReportedMore(events, settle, i);
    ReportedMore(after, close, i);
    assert s1.tickets[i].processes[j] == Closing(s0.tickets[i].processes[j].actual);
    var s2 := Apply(s1, close);
    assert s2.tickets[i].processes[j].Answered?;
    more := [close];
    assert more[..0] == [] && after + [] == after;
    assert Net(s2.tickets[i]) == 0;
  }

  lemma {:induction false} AboveAll(numbers: set<int>) returns (b: nat)
    ensures b > 0 && forall x :: x in numbers ==> x < b
  {
    if x :| x in numbers {
      b := AboveAll(numbers - {x});
      b := if x < b then b else x + 1;
      assert forall y :: y in numbers ==> y == x || y in numbers - {x};
    } else {
      b := 1;
    }
  }

  /// The ticket once the sweep has filed it as expired and one more client has reported b.
  lemma {:induction false} ChargedAgain(s: State, i: nat, j: nat, now: int, b: nat)
    requires i < |s.tickets| && b > 0
    requires var t := s.tickets[i];
             && t.pc.Granted? && t.debit && t.stored.Some? && t.late.None?
             && j < |t.processes| && t.processes[j].Refunding? && t.final.ByClient? && t.final.saw
    ensures var n := |s.tickets[i].processes|;
            var s1 := Apply(s, Continue(i, j, Fine, now));
            var s2 := Apply(s1, Continue(i, j, Fine, 0));
            var s3 := Apply(s2, BeginReconcile(i, b));
            var s4 := Apply(s3, Continue(i, n, Fine, 0));
            var s5 := Apply(s4, Continue(i, n, Fine, 0));
            && i < |s1.tickets| && j < |s1.tickets[i].processes| && s1.tickets[i].processes[j].SweepClosing?
            && i < |s2.tickets| && s2.tickets[i].pc.Granted?
            && i < |s3.tickets| && n < |s3.tickets[i].processes| && s3.tickets[i].processes[n].Asking?
            && i < |s4.tickets| && n < |s4.tickets[i].processes| && s4.tickets[i].processes[n].Charging?
            && i < |s5.tickets| && Acknowledged(s5.tickets[i]) && Net(s5.tickets[i]) == s.tickets[i].final.actual + b
  {
    var t := s.tickets[i];
    var n := |t.processes|;
    var s1 := Apply(s, Continue(i, j, Fine, now));
    assert s1.tickets[i] == SetProcess(t, j, SweepClosing(Expired));
    var s2 := Apply(s1, Continue(i, j, Fine, 0));
    assert s2.tickets[i].stored == Some(Stored(t.stored.value.debited, true, Expired, 0));
    var s3 := Apply(s2, BeginReconcile(i, b));
    assert s3.tickets[i].processes[n] == Asking(b);
    var s4 := Apply(s3, Continue(i, n, Fine, 0));
    assert s4.tickets[i].processes[n] == Charging(b);
    var s5 := Apply(s4, Continue(i, n, Fine, 0));
    assert s5.tickets[i].processes[n] == Answered(b);
    assert s5.tickets[i].late == Some(b) && s5.tickets[i].final == t.final && s5.tickets[i].debit;
  }

  /// The sweep files the settled ticket as expired and the next report is charged on top.
  lemma {:induction false} ForeignCharge(events: seq<Event>, i: nat, j: nat, now: int) returns (more: seq<Event>)
    requires i < |Run(events).tickets| && Harmful(Run(events).tickets[i], j, Fine, Reported(events, i))
    requires var t := Run(events).tickets[i];
             t.processes[j].Refunding? && t.pc.Granted? && t.debit && t.stored.Some? && t.late.None? && t.final.saw
    ensures var after := events + [Continue(i, j, Fine, now)];
            SafeFuture(after, more, i) && !ChargedOnce(after + more, i)
  {
    var s := Run(events);
    var n := |s.tickets[i].processes|;
    var b := AboveAll(Reported(events, i));
    ChargedAgain(s, i, j, now, b);
    var refund, close := Continue(i, j, Fine, now), Continue(i, j, Fine, 0);
    var begin, retry := BeginReconcile(i, b), Continue(i, n, Fine, 0);
    var e1 := events + [refund];
    var e2, e3, e4, e5 := e1 + [close], e1 + [close] + [begin], e1 + [close] + [begin] + [retry], e1 + [close] + [begin] + [retry] + [retry];
    hide Apply;
    Appended(events, refund);
    Appended(e1, close);
    Appended(e2, begin);
    Appended(e3, retry);
    Appended(e4, retry);
    ReportedMore(events, refund, i);
    ReportedMore(e1, close, i);
    ReportedMore(e2, begin, i);
    ReportedMore(e3, retry, i);
    ReportedMore(e4, retry, i);
    more := [close, begin, retry, retry];
    assert e1 + more == e5;
    FourSafe(e1, close, begin, retry, retry, i);
  }

  lemma {:induction false} FourSafe(events: seq<Event>, a: Event, b: Event, c: Event, d: Event, i: nat)
    requires Safe(Run(events), a, i, Reported(events, i))
    requires Safe(Run(events + [a]), b, i, Reported(events + [a], i))
    requires Safe(Run(events + [a] + [b]), c, i, Reported(events + [a] + [b], i))
    requires Safe(Run(events + [a] + [b] + [c]), d, i, Reported(events + [a] + [b] + [c], i))
    ensures SafeFuture(events, [a, b, c, d], i)
  {
    hide Safe, Run, Reported;
    var more := [a, b, c, d];
    assert events + more[..0] == events && events + more[..1] == events + [a];
    assert events + more[..2] == events + [a] + [b] && events + more[..3] == events + [a] + [b] + [c];
  }

  /// The exact condition: after any safe run, one more call keeps every safe future of the
  /// ticket charged once if and only if the call is not harmful.
  lemma {:induction false} CallIsSafeExactly(events: seq<Event>, i: nat, j: nat, fault: Fault, now: int)
    requires SafeRun(events, i) && i < |Run(events).tickets|
    ensures var after := events + [Continue(i, j, fault, now)];
            (forall more :: SafeFuture(after, more, i) ==> ChargedOnce(after + more, i))
            <==> !Harmful(Run(events).tickets[i], j, fault, Reported(events, i))
  {
    hide SafeFuture, ChargedOnce;
    var e := Continue(i, j, fault, now);
    var after := events + [e];
    if Harmful(Run(events).tickets[i], j, fault, Reported(events, i)) {
      var more := HarmIsDone(events, i, j, now);
    } else {
      OneSafe(events, e, i);
      SafeRunGoesOn(events, [e], i);
      forall more | SafeFuture(after, more, i) ensures ChargedOnce(after + more, i) {
        SafeRunGoesOn(after, more, i);
        SafeRunsChargeOnce(after + more, i);
      }
    }
  }

  lemma OneSafe(events: seq<Event>, e: Event, i: nat)
    requires Safe(Run(events), e, i, Reported(events, i))
    ensures SafeFuture(events, [e], i)
  {
    assert events + [e][..0] == events;
  }

  /// Every report follows the answer that grants the ticket.
  ghost predicate Grounded(events: seq<Event>, i: nat) {
    forall n :: 0 <= n < |events| ==>
                  (events[n].BeginReconcile? && events[n].i == i && i < |Run(events[..n]).tickets| ==>
                     Run(events[..n]).tickets[i].pc.Granted?)
  }

  lemma {:induction false} SafePrefix(events: seq<Event>, i: nat, n: nat)
    requires n <= |events| && Grounded(events, i)
    requires forall m, more :: 0 <= m <= |events| && SafeFuture(events[..m], more, i) ==> ChargedOnce(events[..m] + more, i)
    ensures SafeRun(events[..n], i)
  {
    hide SafeFuture, ChargedOnce, Harmful, Run, Reported;
    if n > 0 {
      SafePrefix(events, i, n - 1);
      var before, e := events[..n - 1], events[n - 1];
      assert events[..n] == before + [e];
      if e.Continue? && e.i == i && i < |Run(before).tickets| && Harmful(Run(before).tickets[i], e.j, e.fault, Reported(before, i)) {
        HarmfulIsAnswered(Run(before).tickets[i], e.j, e.fault, Reported(before, i));
        var more := HarmIsDone(before, i, e.j, e.now);
        assert false;
      }
      assert Safe(Run(before), e, i, Reported(before, i));
      OneSafe(before, e, i);
      SafeRunGoesOn(before, [e], i);
    }
  }

  lemma HarmfulIsAnswered(t: Ticket, j: nat, fault: Fault, reported: set<int>)
    requires Harmful(t, j, fault, reported)
    ensures fault == Fine
  {
  }

  /// The same for whole runs: a run in which clients report on granted tickets only has no
  /// harmful call if and only if all its prefixes, in all their safe futures, charge once.
  lemma RunIsSafeExactly(events: seq<Event>, i: nat)
    requires Grounded(events, i)
    ensures SafeRun(events, i) <==>
            forall n, more :: 0 <= n <= |events| && SafeFuture(events[..n], more, i) ==> ChargedOnce(events[..n] + more, i)
  {
    hide SafeFuture, ChargedOnce, Safe, Run, Reported;
    if SafeRun(events, i) {
      forall n, more | 0 <= n <= |events| && SafeFuture(events[..n], more, i) ensures ChargedOnce(events[..n] + more, i) {
        var before := events[..n];
        forall m | 0 <= m < n ensures Safe(Run(before[..m]), before[m], i, Reported(before[..m], i)) {
          assert before[..m] == events[..m];
          assert Safe(Run(events[..m]), events[m], i, Reported(events[..m], i));
        }
        SafeRunGoesOn(before, more, i);
        SafeRunsChargeOnce(before + more, i);
      }
    }
    if forall n, more :: 0 <= n <= |events| && SafeFuture(events[..n], more, i) ==> ChargedOnce(events[..n] + more, i) {
      SafePrefix(events, i, |events|);
      assert events[..|events|] == events;
    }
  }

  /// Runs in which no call ignores the other side's entry at all are among the safe ones.
  lemma ProperRunsAreSafe(events: seq<Event>, i: nat)
    requires ProperRun(events, i)
    ensures SafeRun(events, i)
  {
    hide Run, Reported;
    forall n | 0 <= n < |events| ensures Safe(Run(events[..n]), events[n], i, Reported(events[..n], i)) {
      assert Proper(Run(events[..n]), events[n], i);
    }
  }
}
